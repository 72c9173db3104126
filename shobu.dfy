/** `ShobuGame`: four mutable boards and the side to move. */
module Shobu {
  import opened Stones
  import opened Vectors
  import opened Results
  import Grids
  import opened Pushes
  import opened Moves
  import opened Boards
  import Games

  class ShobuGame {
    /** The four boards, each its own object; moves change them in place. */
    var boards: seq<Board>
    var currentPlayer: Color

    ghost predicate Valid()
      reads this, boards
    {
      |boards| == 4 &&
      (forall i, j :: 0 <= i < j < 4 ==> boards[i] != boards[j]) &&
      (forall i :: 0 <= i < 4 ==> boards[i].Valid())
    }

    /** The position this game holds. */
    function State(): Games.Position
      reads this, boards
      requires |boards| == 4
    {
      Games.Position(currentPlayer, [boards[0].cells, boards[1].cells, boards[2].cells, boards[3].cells])
    }

    /** The private constructor: a game over four distinct boards and a side to move. */
    constructor FromBoards(bs: seq<Board>, player: Color)
      requires |bs| == 4 && (forall i, j :: 0 <= i < j < 4 ==> bs[i] != bs[j])
      requires forall i :: 0 <= i < 4 ==> bs[i].Valid()
      ensures Valid() && boards == bs && currentPlayer == player
    {
      boards := bs;
      currentPlayer := player;
    }

    /** `ShobuGame.initial`: four initial boards, black to move. */
    constructor Initial()
      ensures Valid() && State() == Games.Initial()
      ensures forall i :: 0 <= i < 4 ==> fresh(boards[i])
    {
      var b0 := new Board.Initial();
      var b1 := new Board.Initial();
      var b2 := new Board.Initial();
      var b3 := new Board.Initial();
      boards := [b0, b1, b2, b3];
      currentPlayer := Black;
    }

    /**
     * `ShobuGame.fromString` for a text with four board pieces: a new game
     * holding the position the text denotes, or the format error.
     */
    static method FromString(s: string) returns (r: Result<ShobuGame>)
      requires |Games.Split(s)| == 5
      ensures r.Ok? <==> Games.Parse(s).Ok?
      ensures r.Err? ==> r.error == Games.Parse(s).error
      ensures r.Ok? ==> fresh(r.value) && r.value.Valid() && r.value.State() == Games.Parse(s).value
      ensures r.Ok? ==> forall i :: 0 <= i < 4 ==> fresh(r.value.boards[i])
    {
      var parts := Games.Split(s);
      Games.ParseIff(s);
      var read := ReadBoards(parts[1..]);
      if read.Err? {
        assert !Games.BoardPieces(parts) by {
          var j :| 0 <= j < |parts[1..]| && !Grids.IsBoardString(parts[1..][j]);
          assert parts[1..][j] == parts[j + 1];
        }
        return Err(read.error);
      }
      var bs := read.value;
      assert forall j :: 1 <= j < |parts| ==> parts[j] == parts[1..][j - 1];
      var g := new ShobuGame.FromBoards(bs, if parts[0] == "w" then White else Black);
      assert g.State().boards == Games.Parse(s).value.boards;
      r := Ok(g);
    }

    /** `map(Board.fromString)` over the board pieces: new boards, or the first format error. */
    static method ReadBoards(pieces: seq<string>) returns (r: Result<seq<Board>>)
      ensures r.Ok? <==> forall j :: 0 <= j < |pieces| ==> Grids.IsBoardString(pieces[j])
      ensures r.Err? ==> r.error == WrongBoardFormat
      ensures r.Ok? ==> |r.value| == |pieces|
      ensures r.Ok? ==> forall j :: 0 <= j < |pieces| ==>
        fresh(r.value[j]) && r.value[j].Valid() && r.value[j].cells == Grids.FromString(pieces[j]).value
      ensures r.Ok? ==> forall j, k :: 0 <= j < k < |pieces| ==> r.value[j] != r.value[k]
    {
      var bs: seq<Board> := [];
      var i := 0;
      while i < |pieces|
        invariant 0 <= i <= |pieces| && |bs| == i
        invariant forall j :: 0 <= j < i ==> Grids.IsBoardString(pieces[j])
        invariant forall j :: 0 <= j < i ==>
          fresh(bs[j]) && bs[j].Valid() && bs[j].cells == Grids.FromString(pieces[j]).value
        invariant forall j, k :: 0 <= j < k < i ==> bs[j] != bs[k]
      {
        var b := Board.FromString(pieces[i]);
        if b.Err? {
          return Err(b.error);
        }
        bs := bs + [b.value];
        i := i + 1;
      }
      return Ok(bs);
    }

    /** `ShobuGame.toString`: a text that reads back as this very position. */
    function ToString(): (r: string)
      reads this, boards
      requires Valid()
      ensures Games.Parse(r) == Ok(State())
      ensures Games.Split(r)[0] == [ColorInitial(currentPlayer)]
    {
      Games.FormatThenParse(State());
      Games.Format(State())
    }

    /** `ShobuGame.isTerminal`: some board has no stone left of one side. */
    predicate IsTerminal()
      reads this, boards
      requires Valid()
      ensures IsTerminal() <==> exists i :: 0 <= i < 4 && Grids.IsTerminal(boards[i].cells)
    {
      assert forall i :: 0 <= i < 4 ==> State().boards[i] == boards[i].cells;
      Games.IsTerminal(State())
    }

    /** `ShobuGame.isValid`: the passive half is legal on its board and the aggressive half on its board. */
    predicate IsValid(m: Move)
      reads this, boards
      requires Valid() && m.WellFormed()
      ensures IsValid(m) <==>
        IsValidPassive(boards[m.passive.boardIndex].cells, m.passive.position, m.vector, currentPlayer) &&
        IsValidAggressive(boards[m.aggressive.boardIndex].cells, m.aggressive.position, m.vector, currentPlayer)
    {
      Games.IsValid(State(), m)
    }

    /** `getBoards`: each board with its colour, black and white alternating from board 0. */
    function GetBoards(): (r: seq<(Color, Board)>)
      reads this
      ensures |r| == |boards| && forall i :: 0 <= i < |r| ==> r[i].1 == boards[i]
      ensures forall i :: 0 <= i < |r| ==> r[i].0 == if i % 2 == 0 then Black else White
    {
      Games.ZipCycle(boards, Black)
    }

    /** `boards[i].pushStone(src, v)`: board `i` is pushed, the other boards and the turn stay. */
    method PushOn(i: int, src: Pos, v: Vector)
      requires Valid() && 0 <= i < 4 && Grids.IsValidPosition(src) && AllInBounds(v.Visited(src))
      modifies boards[i]
      ensures Valid() && boards == old(boards) && currentPlayer == old(currentPlayer)
      ensures State() == Games.Position(currentPlayer, old(State()).boards[i := Pushed(old(State()).boards[i], src, v)])
    {
      boards[i].PushStone(src, v);
    }

    /** `currentPlayer = opponent(currentPlayer)`: the other side moves next, the boards stay. */
    method PassTurn()
      requires Valid()
      modifies this
      ensures Valid() && boards == old(boards) && currentPlayer == Other(old(currentPlayer))
      ensures State() == Games.Position(Other(old(currentPlayer)), old(State()).boards)
    {
      currentPlayer := Other(currentPlayer);
    }

    /**
     * `makeMove`: rejects an illegal move with nothing changed; otherwise pushes
     * on the passive board, then on the aggressive board, and hands the turn over.
     */
    method MakeMove(m: Move) returns (r: Outcome)
      requires Valid() && m.WellFormed()
      modifies this, boards
      ensures Valid() && boards == old(boards)
      ensures var res := Games.MakeMove(old(State()), m);
        (res.Err? ==> r == Fail(res.error) && State() == old(State())) &&
        (res.Ok? ==> r == Pass && State() == res.value)
    {
      if !IsValid(m) {
        return Fail(IllegalMove);
      }
      ghost var before := State();
      Games.MakeMoveSteps(before, m);
      PushOn(m.passive.boardIndex, m.passive.position, m.vector);
      PushOn(m.aggressive.boardIndex, m.aggressive.position, m.vector);
      ghost var pushed := State().boards;
      assert Games.MakeMove(before, m) == Ok(Games.Position(Other(before.side), pushed));
      PassTurn();
      return Pass;
    }
  }
}
