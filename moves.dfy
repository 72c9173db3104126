/**
 * `Move.fromString`: the move text grammar
 *   (1|2)(U|UR|R|DR|D|DL|L|UL)(w|b)(digits)(h|f)(digits)
 * and the board indices and cells it designates.
 */
module Moves {
  import opened Stones
  import opened Vectors
  import opened Results
  import Grids

  /** A board of the four (0..3) and a cell on it. */
  datatype Location = Location(boardIndex: int, position: Pos)

  /** One turn: the same vector, pushed passively on one board and aggressively on another. */
  datatype Move = Move(vector: Vector, passive: Location, aggressive: Location) {
    /** Both board indices name one of the four boards and both cells lie on a board. */
    predicate WellFormed() {
      0 <= passive.boardIndex < 4 && 0 <= aggressive.boardIndex < 4 &&
      Grids.IsValidPosition(passive.position) && Grids.IsValidPosition(aggressive.position)
    }
  }

  // ---- characters ----

  predicate IsDigit(c: char) {
    '0' <= c <= '9'
  }

  predicate IsDigits(s: string) {
    forall i :: 0 <= i < |s| ==> IsDigit(s[i])
  }

  /** The value of a decimal digit string (`parseInt` of a string of digits). */
  function DecimalValue(ds: string): nat
    requires IsDigits(ds)
  {
    if ds == [] then 0
    else DecimalValue(ds[..|ds| - 1]) * 10 + (ds[|ds| - 1] as int - '0' as int)
  }

  function DirectionText(d: Direction): (s: string)
    ensures 1 <= |s| <= 2
  {
    match d
    case U => "U"
    case UR => "UR"
    case R => "R"
    case DR => "DR"
    case D => "D"
    case DL => "DL"
    case L => "L"
    case UL => "UL"
  }

  // ---- the grammar ----

  /** The six groups of a move text, as written. */
  datatype Tokens = Tokens(
    length: char,           // '1' or '2'
    direction: Direction,
    passiveColor: char,     // 'w' or 'b'
    passiveDigits: string,
    relation: char,         // 'h' or 'f'
    aggressiveDigits: string)
  {
    predicate WellFormed() {
      (length == '1' || length == '2') &&
      (passiveColor == 'w' || passiveColor == 'b') &&
      |passiveDigits| > 0 && IsDigits(passiveDigits) &&
      (relation == 'h' || relation == 'f') &&
      |aggressiveDigits| > 0 && IsDigits(aggressiveDigits)
    }
  }

  /** The text of a move: the groups written one after the other. */
  function Spell(t: Tokens): string {
    [t.length] + (DirectionText(t.direction) + SpellTail(t.passiveColor, t.passiveDigits, t.relation, t.aggressiveDigits))
  }

  /** The text after the direction. */
  function SpellTail(c: char, pd: string, rel: char, ad: string): string {
    [c] + (pd + ([rel] + ad))
  }

  /** The direction at the start of `t` and how many characters it takes. */
  function ReadDirection(t: string): (r: Option<(Direction, nat)>)
    ensures r.Some? ==> 1 <= r.value.1 <= |t| && t[..r.value.1] == DirectionText(r.value.0)
  {
    if |t| >= 2 && t[0] == 'U' && t[1] == 'R' then Some((UR, 2))
    else if |t| >= 2 && t[0] == 'D' && t[1] == 'R' then Some((DR, 2))
    else if |t| >= 2 && t[0] == 'D' && t[1] == 'L' then Some((DL, 2))
    else if |t| >= 2 && t[0] == 'U' && t[1] == 'L' then Some((UL, 2))
    else if |t| >= 1 && t[0] == 'U' then Some((U, 1))
    else if |t| >= 1 && t[0] == 'R' then Some((R, 1))
    else if |t| >= 1 && t[0] == 'D' then Some((D, 1))
    else if |t| >= 1 && t[0] == 'L' then Some((L, 1))
    else None
  }

  /** How many digits `t` starts with. */
  function LeadingDigits(t: string): (k: nat)
    ensures k <= |t| && IsDigits(t[..k]) && (k < |t| ==> !IsDigit(t[k]))
  {
    if t == [] || !IsDigit(t[0]) then 0
    else
      var k := 1 + LeadingDigits(t[1..]);
      assert t[..k] == [t[0]] + t[1..][..k - 1];
      k
  }

  /** Splits a move text into its groups, or `None` when it does not follow the grammar. */
  function Lex(s: string): Option<Tokens> {
    if |s| < 1 || !(s[0] == '1' || s[0] == '2') then None
    else
      match ReadDirection(s[1..])
      case None => None
      case Some((d, n)) =>
        match LexTail(s[1 + n..])
        case None => None
        case Some((c, pd, rel, ad)) => Some(Tokens(s[0], d, c, pd, rel, ad))
  }

  /** The groups after the direction: a colour selector, digits, a relation selector, digits to the end. */
  function LexTail(t1: string): Option<(char, string, char, string)> {
    if |t1| < 1 || !(t1[0] == 'w' || t1[0] == 'b') then None
    else
      var t2 := t1[1..];
      var k := LeadingDigits(t2);
      if k == 0 || k >= |t2| || !(t2[k] == 'h' || t2[k] == 'f') then None
      else
        var t3 := t2[k + 1..];
        if |t3| == 0 || !IsDigits(t3) then None
        else Some((t1[0], t2[..k], t2[k], t3))
  }

  lemma {:induction false} LeadingDigitsOf(ds: string, rest: string)
    requires IsDigits(ds) && (|rest| > 0 ==> !IsDigit(rest[0]))
    ensures LeadingDigits(ds + rest) == |ds|
  {
    if ds != [] {
      assert (ds + rest)[1..] == ds[1..] + rest;
      LeadingDigitsOf(ds[1..], rest);
    } else {
      assert ds + rest == rest;
    }
  }

  lemma ReadDirectionOf(d: Direction, rest: string)
    requires |rest| > 0 && (rest[0] == 'w' || rest[0] == 'b')
    ensures ReadDirection(DirectionText(d) + rest) == Some((d, |DirectionText(d)|))
  {
  }

  lemma SpellThenLexTail(c: char, pd: string, rel: char, ad: string)
    requires (c == 'w' || c == 'b') && |pd| > 0 && IsDigits(pd) && (rel == 'h' || rel == 'f')
    requires |ad| > 0 && IsDigits(ad)
    ensures LexTail(SpellTail(c, pd, rel, ad)) == Some((c, pd, rel, ad))
  {
    var t1 := SpellTail(c, pd, rel, ad);
    var t2 := pd + ([rel] + ad);
    assert t1[1..] == t2;
    LeadingDigitsOf(pd, [rel] + ad);
    var k := |pd|;
    assert t2[..k] == pd;
    assert t2[k] == rel;
    assert t2[k + 1..] == ad;
  }

  /** Every spelled move text is split back into the same groups. */
  lemma SpellThenLex(t: Tokens)
    requires t.WellFormed()
    ensures Lex(Spell(t)) == Some(t)
  {
    var s := Spell(t);
    var dt := DirectionText(t.direction);
    var t1 := SpellTail(t.passiveColor, t.passiveDigits, t.relation, t.aggressiveDigits);
    assert s[1..] == dt + t1;
    ReadDirectionOf(t.direction, t1);
    assert s[1..][|dt|..] == t1;
    assert s[1 + |dt|..] == t1;
    SpellThenLexTail(t.passiveColor, t.passiveDigits, t.relation, t.aggressiveDigits);
  }

  lemma LexTailThenSpell(t1: string)
    requires LexTail(t1).Some?
    ensures var (c, pd, rel, ad) := LexTail(t1).value;
      (c == 'w' || c == 'b') && |pd| > 0 && IsDigits(pd) && (rel == 'h' || rel == 'f') &&
      |ad| > 0 && IsDigits(ad) && SpellTail(c, pd, rel, ad) == t1
  {
    var t2 := t1[1..];
    var k := LeadingDigits(t2);
    assert t1 == [t1[0]] + t2;
    assert t2[k..] == [t2[k]] + t2[k + 1..];
    assert t2 == t2[..k] + t2[k..];
  }

  /** Whatever `Lex` accepts is a well-formed move text, spelled back exactly. */
  lemma LexThenSpell(s: string)
    requires Lex(s).Some?
    ensures Lex(s).value.WellFormed() && Spell(Lex(s).value) == s
  {
    var (d, n) := ReadDirection(s[1..]).value;
    var t1 := s[1 + n..];
    LexTailThenSpell(t1);
    SplitAtDirection(s, DirectionText(d));
  }

  /** A text whose second character starts `dt` is its first character, `dt` and the rest. */
  lemma SplitAtDirection(s: string, dt: string)
    requires 1 + |dt| <= |s| && s[1..][..|dt|] == dt
    ensures s == [s[0]] + (dt + s[1 + |dt|..])
  {
    assert s[1..] == s[1..][..|dt|] + s[1..][|dt|..];
    assert s[1..][|dt|..] == s[1 + |dt|..];
  }

  /** Which strings follow the move grammar: exactly the spelled well-formed groups. */
  lemma LexIff(s: string)
    ensures Lex(s).Some? <==> exists t: Tokens :: t.WellFormed() && Spell(t) == s
  {
    if Lex(s).Some? {
      LexThenSpell(s);
    }
    if exists t: Tokens :: t.WellFormed() && Spell(t) == s {
      var t: Tokens :| t.WellFormed() && Spell(t) == s;
      SpellThenLex(t);
    }
  }

  // ---- decoding ----

  /** Bitwise exclusive or (the `^` operator on the small non-negative numbers the parser combines). */
  function Xor(a: nat, b: nat): nat
    decreases a + b
  {
    if a == 0 && b == 0 then 0
    else (a % 2 + b % 2) % 2 + 2 * Xor(a / 2, b / 2)
  }

  /** On single bits the exclusive or is addition modulo 2. */
  lemma XorBit(x: nat, y: nat)
    requires x < 2 && y < 2
    ensures Xor(x, y) == (x + y) % 2
  {
    assert Xor(x / 2, y / 2) == Xor(0, 0) == 0;
  }

  /** Two numbers below 4 give a number below 4 whose two bits are those of the arguments added modulo 2. */
  lemma XorSmall(a: nat, b: nat)
    requires a < 4 && b < 4
    ensures Xor(a, b) < 4
    ensures b != 0 ==> Xor(a, b) != a
    ensures Xor(a, b) / 2 == (a / 2 + b / 2) % 2 && Xor(a, b) % 2 == (a % 2 + b % 2) % 2
  {
    var lo := (a % 2 + b % 2) % 2;
    var hi := (a / 2 + b / 2) % 2;
    XorBit(a / 2, b / 2);
    assert Xor(a, b) == lo + 2 * hi;
    assert a == a % 2 + 2 * (a / 2);
    assert b == b % 2 + 2 * (b / 2);
  }

  /** `parseIdx`: the cell with row-major index given by the digits, or an error above 15. */
  function ParseIndex(ds: string): (r: Result<Pos>)
    requires IsDigits(ds)
    ensures r.Ok? <==> DecimalValue(ds) <= 15
    ensures r.Ok? ==> Grids.IsValidPosition(r.value) && Grids.Index(r.value) == DecimalValue(ds)
    ensures r.Err? ==> r.error == WrongBoardIndex
  {
    var index := DecimalValue(ds);
    if index > 15 then Err(WrongBoardIndex)
    else Ok(Pos(index / Grids.Size, index % Grids.Size))
  }

  /** The board of the passive push: 2 or 0 for the side, and bit 0 set by a `w` selector. */
  function PassiveBoard(player: Color, passiveColor: char): (r: nat)
    ensures r == (if player == Black then 2 else 0) + (if passiveColor == 'w' then 1 else 0)
  {
    XorSmall(if player == Black then 2 else 0, if passiveColor == 'w' then 1 else 0);
    Xor(if player == Black then 2 else 0, if passiveColor == 'w' then 1 else 0)
  }

  /**
   * The board of the aggressive push: bit 0 flipped for `h`, both bits flipped
   * otherwise, so always a board other than `passive`.
   */
  function AggressiveBoard(passive: nat, relation: char): (r: nat)
    requires passive < 4
    ensures r < 4 && r != passive
    ensures r % 2 != passive % 2
    ensures relation == 'h' ==> r / 2 == passive / 2
    ensures relation != 'h' ==> r / 2 != passive / 2
  {
    XorSmall(passive, if relation == 'h' then 1 else 3);
    Xor(passive, if relation == 'h' then 1 else 3)
  }

  /**
   * The move that `player` means by the well-formed groups `t`: length 1 or 2
   * as written, cells on the board at the written indices, the passive board
   * among the mover's two (2 and 3 for black, 0 and 1 for white) chosen by the
   * colour selector, and an aggressive board that differs from it (in the same
   * pair for `h`, in the other pair for `f`); an index error when an index
   * exceeds 15.
   */
  function Decode(player: Color, t: Tokens): (r: Result<Move>)
    requires t.WellFormed()
    ensures r.Ok? <==> DecimalValue(t.passiveDigits) <= 15 && DecimalValue(t.aggressiveDigits) <= 15
    ensures r.Err? ==> r.error == WrongBoardIndex
    ensures r.Ok? ==> r.value.WellFormed()
    ensures r.Ok? ==> r.value.vector == Vector(if t.length == '1' then 1 else 2, t.direction)
    ensures r.Ok? ==> Grids.Index(r.value.passive.position) == DecimalValue(t.passiveDigits)
    ensures r.Ok? ==> Grids.Index(r.value.aggressive.position) == DecimalValue(t.aggressiveDigits)
    ensures r.Ok? ==> r.value.passive.boardIndex == (if player == Black then 2 else 0) + (if t.passiveColor == 'w' then 1 else 0)
    ensures r.Ok? ==> r.value.aggressive.boardIndex != r.value.passive.boardIndex
    ensures r.Ok? ==> (r.value.aggressive.boardIndex / 2 == r.value.passive.boardIndex / 2 <==> t.relation == 'h')
    ensures r.Ok? ==> r.value.aggressive.boardIndex % 2 != r.value.passive.boardIndex % 2
    ensures r.Ok? ==> r.value.aggressive.boardIndex == Xor(r.value.passive.boardIndex, if t.relation == 'h' then 1 else 3)
  {
    assert [t.length][..0] == [];
    assert DecimalValue([t.length]) == if t.length == '1' then 1 else 2;
    var passiveBoard := PassiveBoard(player, t.passiveColor);
    var aggressiveBoard := AggressiveBoard(passiveBoard, t.relation);
    var length := DecimalValue([t.length]);
    var p := ParseIndex(t.passiveDigits);
    var a := ParseIndex(t.aggressiveDigits);
    if p.Err? then Err(p.error)
    else if a.Err? then Err(a.error)
    else Ok(Move(Vector(length, t.direction), Location(passiveBoard, p.value), Location(aggressiveBoard, a.value)))
  }

  /** `Move.fromString`: the move that `player` writes as `s`, or a format or index error. */
  function Parse(player: Color, s: string): Result<Move> {
    match Lex(s)
    case None => Err(WrongMoveFormat)
    case Some(t) =>
      assert t.WellFormed() by { LexThenSpell(s); }
      Decode(player, t)
  }

  // ---- properties of parsing ----

  /** Both cell indices of well-formed groups are at most 15. */
  predicate IndicesInRange(t: Tokens) {
    t.WellFormed() && DecimalValue(t.passiveDigits) <= 15 && DecimalValue(t.aggressiveDigits) <= 15
  }

  /** `Parse` in terms of `Lex`: a format error exactly when `Lex` fails, a move exactly when the indices fit. */
  lemma ParseByLex(player: Color, s: string)
    ensures Parse(player, s) == Err(WrongMoveFormat) <==> Lex(s).None?
    ensures Parse(player, s).Ok? <==> Lex(s).Some? && IndicesInRange(Lex(s).value)
  {
    if Lex(s).Some? {
      LexThenSpell(s);
    }
  }

  /**
   * A move text parses exactly when it follows the grammar and both indices
   * are at most 15; a text off the grammar is a format error and one with a
   * larger index an index error.
   */
  lemma ParseOkIff(player: Color, s: string)
    ensures Parse(player, s).Ok? <==> exists t: Tokens :: IndicesInRange(t) && Spell(t) == s
    ensures Parse(player, s) == Err(WrongMoveFormat) <==> !exists t: Tokens :: t.WellFormed() && Spell(t) == s
  {
    ParseByLex(player, s);
    LexIff(s);
    if Lex(s).Some? {
      LexThenSpell(s);
      var t := Lex(s).value;
      forall t': Tokens | t'.WellFormed() && Spell(t') == s ensures t' == t {
        SpellThenLex(t');
      }
    }
  }

  /** `1Rw5h9` splits into a one-step push to the right, a `w` selector on cell 5 and an `h` selector on cell 9. */
  lemma LexExample()
    ensures Lex("1Rw5h9") == Some(Tokens('1', R, 'w', "5", 'h', "9"))
  {
    var t := Tokens('1', R, 'w', "5", 'h', "9");
    assert Spell(t) == "1Rw5h9";
    SpellThenLex(t);
  }

  /** For black, the groups of `1Rw5h9` designate cell (1,1) of board 3 and cell (2,1) of board 2. */
  lemma DecodeExample()
    ensures Decode(Black, Tokens('1', R, 'w', "5", 'h', "9"))
         == Ok(Move(Vector(1, R), Location(3, Pos(1, 1)), Location(2, Pos(2, 1))))
  {
    assert DecimalValue("5") == 5 by { assert "5"[..0] == []; }
    assert DecimalValue("9") == 9 by { assert "9"[..0] == []; }
    assert DecimalValue("1") == 1 by { assert "1"[..0] == []; }
    assert ParseIndex("5") == Ok(Pos(1, 1));
    assert ParseIndex("9") == Ok(Pos(2, 1));
    assert PassiveBoard(Black, 'w') == 3;
    assert AggressiveBoard(3, 'h') == 2;
  }

  /** For black, `1Rw5h9` pushes one step right from cell (1,1) of board 3 and from cell (2,1) of board 2. */
  lemma ParseExample()
    ensures Parse(Black, "1Rw5h9") == Ok(Move(Vector(1, R), Location(3, Pos(1, 1)), Location(2, Pos(2, 1))))
  {
    LexExample();
    DecodeExample();
  }
}
