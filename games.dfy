/**
 * A game position as a value: the side to move and the boards in order. The
 * text form `<side> <board0> <board1> <board2> <board3>`, legality and effect
 * of a move, and the terminal state. `Shobu.ShobuGame` holds the same data in
 * mutable boards.
 */
module Games {
  import opened Stones
  import opened Vectors
  import opened Results
  import Grids
  import opened Pushes
  import opened Moves

  datatype Position = Position(side: Color, boards: seq<Grids.Grid>)

  /** Four boards of 16 cells each. */
  predicate ValidPosition(p: Position) {
    |p.boards| == 4 && forall i :: 0 <= i < 4 ==> Grids.WellFormed(p.boards[i])
  }

  /** The starting position: four initial boards, black to move. */
  function Initial(): (p: Position)
    ensures ValidPosition(p)
  {
    Position(Black, [Grids.Initial(), Grids.Initial(), Grids.Initial(), Grids.Initial()])
  }

  // ---- splitting and joining on spaces ----

  /** `split(' ')`: the pieces between single spaces, empty pieces included. */
  function Split(s: string): (parts: seq<string>)
    ensures |parts| >= 1
    ensures forall i :: 0 <= i < |parts| ==> ' ' !in parts[i]
  {
    if s == [] then [[]]
    else
      var rest := Split(s[1..]);
      if s[0] == ' ' then [[]] + rest
      else [[s[0]] + rest[0]] + rest[1..]
  }

  /** `join(' ')`. */
  function Join(parts: seq<string>): string
    requires |parts| >= 1
  {
    if |parts| == 1 then parts[0] else parts[0] + " " + Join(parts[1..])
  }

  lemma {:induction false} JoinSplit(s: string)
    ensures Join(Split(s)) == s
  {
    if s != [] {
      var rest := Split(s[1..]);
      JoinSplit(s[1..]);
      if s[0] == ' ' {
        assert Split(s) == [[]] + rest;
        assert (Split(s))[1..] == rest;
      } else {
        var parts := [[s[0]] + rest[0]] + rest[1..];
        assert Split(s) == parts;
        if |rest| == 1 {
          assert Join(parts) == [s[0]] + rest[0];
        } else {
          assert parts[1..] == rest[1..];
          assert Join(rest) == rest[0] + " " + Join(rest[1..]);
        }
      }
    }
  }

  lemma {:induction false} SplitWord(w: string)
    requires ' ' !in w
    ensures Split(w) == [w]
  {
    if w != [] {
      SplitWord(w[1..]);
      assert [w[0]] + w[1..] == w;
    }
  }

  lemma {:induction false} SplitCons(w: string, s: string)
    requires ' ' !in w
    ensures Split(w + " " + s) == [w] + Split(s)
  {
    if w == [] {
      assert w + " " + s == [' '] + s;
      assert ([' '] + s)[1..] == s;
    } else {
      var t := w + " " + s;
      assert t[1..] == w[1..] + " " + s;
      SplitCons(w[1..], s);
      assert [w[0]] + w[1..] == w;
    }
  }

  /** Joining pieces without spaces and splitting again gives the pieces back. */
  lemma {:induction false} SplitJoin(parts: seq<string>)
    requires |parts| >= 1 && forall i :: 0 <= i < |parts| ==> ' ' !in parts[i]
    ensures Split(Join(parts)) == parts
  {
    if |parts| == 1 {
      SplitWord(parts[0]);
    } else {
      SplitJoin(parts[1..]);
      SplitCons(parts[0], Join(parts[1..]));
    }
  }

  // ---- text form ----

  function BoardStrings(bs: seq<Grids.Grid>): (ss: seq<string>)
    ensures |ss| == |bs| && forall i :: 0 <= i < |bs| ==> ss[i] == Grids.ToString(bs[i])
  {
    seq(|bs|, i requires 0 <= i < |bs| => Grids.ToString(bs[i]))
  }

  /** `ShobuGame.toString`: the side's initial, then each board string, separated by spaces. */
  function Format(p: Position): string {
    Join([[ColorInitial(p.side)]] + BoardStrings(p.boards))
  }

  /** Reads each piece as a board; the first piece that is not a board string is an error. */
  function ParseBoards(parts: seq<string>): (r: Result<seq<Grids.Grid>>)
    ensures r.Ok? <==> forall i :: 0 <= i < |parts| ==> Grids.IsBoardString(parts[i])
    ensures r.Ok? ==> |r.value| == |parts|
    ensures r.Ok? ==> forall i :: 0 <= i < |parts| ==> r.value[i] == Grids.FromString(parts[i]).value
    ensures r.Err? ==> r.error == WrongBoardFormat
  {
    if parts == [] then Ok([])
    else
      match Grids.FromString(parts[0])
      case Err(e) => Err(e)
      case Ok(g) =>
        match ParseBoards(parts[1..])
        case Err(e) => Err(e)
        case Ok(gs) => Ok([g] + gs)
  }

  /**
   * `ShobuGame.fromString`: white to move when the first piece is exactly `w`,
   * black otherwise; every further piece must be a board string. The number of
   * boards is not checked.
   */
  function Parse(s: string): Result<Position> {
    var parts := Split(s);
    match ParseBoards(parts[1..])
    case Err(e) => Err(e)
    case Ok(bs) => Ok(Position(if parts[0] == "w" then White else Black, bs))
  }

  /** Every piece after the first is a board string. */
  predicate BoardPieces(parts: seq<string>) {
    forall j :: 1 <= j < |parts| ==> Grids.IsBoardString(parts[j])
  }

  /**
   * A position text is read exactly when every piece after the first is a
   * board string; the side is white exactly when the first piece is `w`, and
   * board i is read from piece i + 1. Anything else is a board format error.
   */
  lemma ParseIff(s: string)
    ensures Parse(s).Ok? <==> BoardPieces(Split(s))
    ensures Parse(s).Err? ==> Parse(s).error == WrongBoardFormat
    ensures Parse(s).Ok? ==> Parse(s).value.side == (if Split(s)[0] == "w" then White else Black)
    ensures Parse(s).Ok? ==> |Parse(s).value.boards| == |Split(s)| - 1
    ensures Parse(s).Ok? ==> forall j :: 1 <= j < |Split(s)| ==>
      Parse(s).value.boards[j - 1] == Grids.FromString(Split(s)[j]).value
  {
    var parts := Split(s);
    var r := ParseBoards(parts[1..]);
    assert Parse(s).Ok? <==> r.Ok?;
    assert forall j :: 1 <= j < |parts| ==> parts[1..][j - 1] == parts[j];
    assert r.Ok? <==> BoardPieces(parts) by {
      if !r.Ok? {
        var j :| 0 <= j < |parts[1..]| && !Grids.IsBoardString(parts[1..][j]);
        assert parts[1..][j] == parts[j + 1];
      }
    }
  }

  /** Writing a position and reading it back gives the same side and the same boards in order. */
  lemma FormatThenParse(p: Position)
    requires forall i :: 0 <= i < |p.boards| ==> Grids.WellFormed(p.boards[i])
    ensures Parse(Format(p)) == Ok(p)
    ensures Split(Format(p)) == [[ColorInitial(p.side)]] + BoardStrings(p.boards)
  {
    var parts := [[ColorInitial(p.side)]] + BoardStrings(p.boards);
    forall i | 0 <= i < |parts| ensures ' ' !in parts[i] {
      if i > 0 {
        assert parts[i] == Grids.ToString(p.boards[i - 1]);
      }
    }
    SplitJoin(parts);
    assert parts[1..] == BoardStrings(p.boards);
    forall i | 0 <= i < |p.boards| ensures Grids.FromString(parts[1..][i]) == Ok(p.boards[i]) {
      Grids.PrintThenParse(p.boards[i]);
    }
    var r := ParseBoards(parts[1..]);
    assert r.Ok? && r.value == p.boards;
  }

  /** A text read as a position is written back unchanged when its side piece is `b` or `w`. */
  lemma ParseThenFormat(s: string)
    requires Parse(s).Ok? && (Split(s)[0] == "b" || Split(s)[0] == "w")
    ensures Format(Parse(s).value) == s
  {
    var parts := Split(s);
    var p := Parse(s).value;
    assert [ColorInitial(p.side)] == parts[0];
    forall i | 0 <= i < |p.boards| ensures Grids.ToString(p.boards[i]) == parts[1..][i] {
      Grids.ParseThenPrint(parts[1..][i]);
    }
    assert [[ColorInitial(p.side)]] + BoardStrings(p.boards) == parts;
    JoinSplit(s);
  }

  // ---- terminal state ----

  /** `some(board => board.isTerminal())`. */
  function AnyTerminal(bs: seq<Grids.Grid>): (r: bool)
    ensures r <==> exists i :: 0 <= i < |bs| && Grids.IsTerminal(bs[i])
  {
    if bs == [] then false
    else Grids.IsTerminal(bs[0]) || (assert forall i :: 0 < i < |bs| ==> bs[i] == bs[1..][i - 1]; AnyTerminal(bs[1..]))
  }

  /** `ShobuGame.isTerminal`: some board has lost every stone of one side. */
  predicate IsTerminal(p: Position) {
    AnyTerminal(p.boards)
  }

  lemma InitialNotTerminal()
    ensures !IsTerminal(Initial())
  {
    Grids.InitialNotTerminal();
  }

  // ---- boards and their colours ----

  /** `zip(cycle([c, Other(c)]), xs)`: each element paired with alternating colours. */
  function ZipCycle<T>(xs: seq<T>, c: Color): (r: seq<(Color, T)>)
    ensures |r| == |xs|
    ensures forall i :: 0 <= i < |xs| ==> r[i] == (if i % 2 == 0 then c else Other(c), xs[i])
  {
    if xs == [] then [] else [(c, xs[0])] + ZipCycle(xs[1..], Other(c))
  }

  // ---- moves ----

  /** `ShobuGame.isValid`: the passive half is legal on its board and the aggressive half on its board. */
  predicate IsValid(p: Position, m: Move)
    requires ValidPosition(p) && m.WellFormed()
  {
    IsValidPassive(p.boards[m.passive.boardIndex], m.passive.position, m.vector, p.side) &&
    IsValidAggressive(p.boards[m.aggressive.boardIndex], m.aggressive.position, m.vector, p.side)
  }

  /**
   * `ShobuGame.makeMove`: an illegal move is an error; a legal one pushes on the
   * passive board, then on the aggressive board, then hands the turn over.
   */
  function MakeMove(p: Position, m: Move): (r: Result<Position>)
    requires ValidPosition(p) && m.WellFormed()
    ensures r.Ok? ==> ValidPosition(r.value)
  {
    if !IsValid(p, m) then Err(IllegalMove)
    else
      var pi := m.passive.boardIndex;
      var ai := m.aggressive.boardIndex;
      var b1 := p.boards[pi := Pushed(p.boards[pi], m.passive.position, m.vector)];
      var b2 := b1[ai := Pushed(b1[ai], m.aggressive.position, m.vector)];
      Ok(Position(Other(p.side), b2))
  }

  /** A legal move: both pushes stay on the board, and the result, push by push. */
  lemma MakeMoveSteps(p: Position, m: Move)
    requires ValidPosition(p) && m.WellFormed() && IsValid(p, m)
    ensures AllInBounds(m.vector.Visited(m.passive.position))
    ensures AllInBounds(m.vector.Visited(m.aggressive.position))
    ensures var pi := m.passive.boardIndex;
      var ai := m.aggressive.boardIndex;
      var b1 := p.boards[pi := Pushed(p.boards[pi], m.passive.position, m.vector)];
      MakeMove(p, m) == Ok(Position(Other(p.side), b1[ai := Pushed(b1[ai], m.aggressive.position, m.vector)]))
  {
  }

  /**
   * A move is rejected exactly when it is illegal, and then with an
   * illegal-move error; an accepted move hands the turn to the other side and
   * leaves the two boards it does not name as they were.
   */
  lemma MakeMoveOutcome(p: Position, m: Move)
    requires ValidPosition(p) && m.WellFormed()
    ensures MakeMove(p, m).Err? <==> !IsValid(p, m)
    ensures MakeMove(p, m).Err? ==> MakeMove(p, m).error == IllegalMove
    ensures MakeMove(p, m).Ok? ==>
      var q := MakeMove(p, m).value;
      q.side == Other(p.side) && q.side != p.side &&
      forall i :: 0 <= i < 4 && i != m.passive.boardIndex && i != m.aggressive.boardIndex ==> q.boards[i] == p.boards[i]
  {
  }

  /**
   * When the two boards differ, as for every parsed move, and the length is 1
   * or 2: the passive board keeps the number of stones of each kind, and on
   * the aggressive board the mover keeps every stone while the opponent loses
   * at most one, exactly when a stone is pushed off the board.
   */
  lemma MakeMoveCounts(p: Position, m: Move)
    requires ValidPosition(p) && m.WellFormed() && IsValid(p, m)
    requires m.passive.boardIndex != m.aggressive.boardIndex
    requires m.vector.length == 1 || m.vector.length == 2
    ensures var q := MakeMove(p, m).value;
      var pi := m.passive.boardIndex;
      var ai := m.aggressive.boardIndex;
      var mine := StoneOf(p.side);
      var theirs := StoneOf(Other(p.side));
      (forall s :: Grids.Count(q.boards[pi], s) == Grids.Count(p.boards[pi], s)) &&
      Grids.Count(q.boards[ai], mine) == Grids.Count(p.boards[ai], mine) &&
      Grids.Count(p.boards[ai], theirs) - 1 <= Grids.Count(q.boards[ai], theirs) <= Grids.Count(p.boards[ai], theirs) &&
      (Grids.Count(q.boards[ai], theirs) < Grids.Count(p.boards[ai], theirs) <==>
         Displaces(p.boards[ai], m.aggressive.position, m.vector, p.side) &&
         !Grids.IsValidPosition(m.vector.After(m.aggressive.position)))
  {
    var q := MakeMove(p, m).value;
    var pi := m.passive.boardIndex;
    var ai := m.aggressive.boardIndex;
    assert q.boards[pi] == Pushed(p.boards[pi], m.passive.position, m.vector);
    assert q.boards[ai] == Pushed(p.boards[ai], m.aggressive.position, m.vector);
    PassiveEffect(p.boards[pi], m.passive.position, m.vector, p.side);
    AggressiveCounts(p.boards[ai], m.aggressive.position, m.vector, p.side);
  }

  /**
   * For a move text of the side to move: once parsed and legal, the move
   * hands over the turn, changes only its two boards, keeps the counts on the
   * passive board, keeps the mover's count on the aggressive board and costs
   * the opponent at most one stone there, never adding one.
   */
  lemma ParsedMoveCounts(p: Position, s: string)
    requires ValidPosition(p) && Moves.Parse(p.side, s).Ok?
    requires var m := Moves.Parse(p.side, s).value; m.WellFormed() && IsValid(p, m)
    ensures var m := Moves.Parse(p.side, s).value;
      var q := MakeMove(p, m).value;
      var theirs := StoneOf(Other(p.side));
      q.side == Other(p.side) &&
      (forall s :: Grids.Count(q.boards[m.passive.boardIndex], s) == Grids.Count(p.boards[m.passive.boardIndex], s)) &&
      Grids.Count(q.boards[m.aggressive.boardIndex], StoneOf(p.side)) == Grids.Count(p.boards[m.aggressive.boardIndex], StoneOf(p.side)) &&
      Grids.Count(p.boards[m.aggressive.boardIndex], theirs) - 1 <= Grids.Count(q.boards[m.aggressive.boardIndex], theirs) &&
      Grids.Count(q.boards[m.aggressive.boardIndex], theirs) <= Grids.Count(p.boards[m.aggressive.boardIndex], theirs) &&
      forall i :: 0 <= i < 4 && i != m.passive.boardIndex && i != m.aggressive.boardIndex ==> q.boards[i] == p.boards[i]
  {
    var m := Moves.Parse(p.side, s).value;
    Moves.LexThenSpell(s);
    MakeMoveCounts(p, m);
    MakeMoveOutcome(p, m);
  }
}
