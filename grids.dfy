/**
 * The contents of one 4x4 board as a value: 16 cells read row by row, so
 * cell (row, col) is element row * 4 + col. Its text form and terminal state.
 */
module Grids {
  import opened Stones
  import opened Vectors
  import opened Results

  const Size: nat := 4

  type Grid = seq<Stone>

  predicate WellFormed(g: Grid) {
    |g| == Size * Size
  }

  /** Both coordinates lie in [0, 4). */
  predicate IsValidPosition(p: Pos) {
    0 <= p.row < Size && 0 <= p.col < Size
  }

  function Index(p: Pos): (i: nat)
    requires IsValidPosition(p)
    ensures i < Size * Size && i / Size == p.row && i % Size == p.col
  {
    p.row * Size + p.col
  }

  /** The cell with row-major index `i`. */
  function CellAt(i: nat): (p: Pos)
    requires i < Size * Size
    ensures IsValidPosition(p) && Index(p) == i
  {
    Pos(i / Size, i % Size)
  }

  function At(g: Grid, p: Pos): Stone
    requires WellFormed(g) && IsValidPosition(p)
  {
    g[Index(p)]
  }

  /** The grid with cell `p` set to `s`; nothing else changes. */
  function Place(g: Grid, p: Pos, s: Stone): (r: Grid)
    requires WellFormed(g) && IsValidPosition(p)
    ensures WellFormed(r) && At(r, p) == s
    ensures forall q :: IsValidPosition(q) && q != p ==> At(r, q) == At(g, q)
  {
    g[Index(p) := s]
  }

  /** The board with no stone (`Board.empty`). */
  function Blank(): (g: Grid)
    ensures WellFormed(g) && forall i :: 0 <= i < |g| ==> g[i] == Empty
  {
    seq(Size * Size, _ => Empty)
  }

  // ---- counting stones ----

  /** How many elements of `ss` equal `s` (a filter followed by length). */
  function Count(ss: seq<Stone>, s: Stone): nat {
    if ss == [] then 0 else Count(ss[..|ss| - 1], s) + (if ss[|ss| - 1] == s then 1 else 0)
  }

  lemma {:induction false} CountAppend(a: seq<Stone>, b: seq<Stone>, s: Stone)
    ensures Count(a + b, s) == Count(a, s) + Count(b, s)
  {
    if b == [] {
      assert a + b == a;
    } else {
      assert (a + b)[..|a + b| - 1] == a + b[..|b| - 1];
      CountAppend(a, b[..|b| - 1], s);
    }
  }

  /** Overwriting one element changes the count by what left and what came. */
  lemma CountUpdate(ss: seq<Stone>, i: nat, x: Stone, s: Stone)
    requires i < |ss|
    ensures Count(ss[i := x], s)
         == Count(ss, s) - (if ss[i] == s then 1 else 0) + (if x == s then 1 else 0)
  {
    assert ss == ss[..i] + [ss[i]] + ss[i + 1..];
    assert ss[i := x] == ss[..i] + [x] + ss[i + 1..];
    CountAppend(ss[..i] + [ss[i]], ss[i + 1..], s);
    CountAppend(ss[..i], [ss[i]], s);
    CountAppend(ss[..i] + [x], ss[i + 1..], s);
    CountAppend(ss[..i], [x], s);
    assert [ss[i]][..0] == [];
    assert [x][..0] == [];
  }

  /** A count is zero exactly when no element is that stone. */
  lemma {:induction false} CountZeroIff(ss: seq<Stone>, s: Stone)
    ensures Count(ss, s) == 0 <==> forall i :: 0 <= i < |ss| ==> ss[i] != s
  {
    if ss != [] {
      CountZeroIff(ss[..|ss| - 1], s);
    }
  }

  // ---- terminal state ----

  /** `Board.isTerminal`: no white stone is left or no black stone is left. */
  predicate IsTerminal(g: Grid) {
    Count(g, WhiteStone) == 0 || Count(g, BlackStone) == 0
  }

  lemma TerminalIff(g: Grid)
    ensures IsTerminal(g) <==>
      (forall i :: 0 <= i < |g| ==> g[i] != WhiteStone) ||
      (forall i :: 0 <= i < |g| ==> g[i] != BlackStone)
  {
    CountZeroIff(g, WhiteStone);
    CountZeroIff(g, BlackStone);
  }

  // ---- text form ----

  /** `Board.toString`: one character per cell, row by row. */
  function ToString(g: Grid): (s: string)
    ensures |s| == |g| && forall i :: 0 <= i < |g| ==> s[i] == StoneChar(g[i])
  {
    seq(|g|, i requires 0 <= i < |g| => StoneChar(g[i]))
  }

  /** The strings the format `^[bw_]{16}$` admits. */
  predicate IsBoardString(s: string) {
    |s| == Size * Size && forall i :: 0 <= i < |s| ==> IsStoneChar(s[i])
  }

  /** `Board.fromString`: a board string, or a format error for anything else. */
  function FromString(s: string): (r: Result<Grid>)
    ensures r.Ok? <==> IsBoardString(s)
    ensures r.Ok? ==> WellFormed(r.value)
    ensures r.Err? ==> r.error == WrongBoardFormat
  {
    if IsBoardString(s)
    then Ok(seq(Size * Size, i requires 0 <= i < Size * Size => CharStone(s[i])))
    else Err(WrongBoardFormat)
  }

  /** Reading a board string and writing it back gives the same string. */
  lemma ParseThenPrint(s: string)
    requires FromString(s).Ok?
    ensures ToString(FromString(s).value) == s
  {
  }

  /** Writing a board and reading it back gives the same board. */
  lemma PrintThenParse(g: Grid)
    requires WellFormed(g)
    ensures FromString(ToString(g)) == Ok(g)
  {
    var r := FromString(ToString(g));
    assert r.Ok?;
    forall i | 0 <= i < |g| ensures r.value[i] == g[i] {
      match g[i]
      case BlackStone =>
      case WhiteStone =>
      case Empty =>
    }
    assert r.value == g;
  }

  /** The 4 rows of 4 cells that the source keeps (`batch` of the characters). */
  function Rows(g: Grid): (rows: seq<seq<Stone>>)
    requires WellFormed(g)
    ensures |rows| == Size
    ensures forall r :: 0 <= r < Size ==> |rows[r]| == Size
    ensures forall r, c :: 0 <= r < Size && 0 <= c < Size ==> rows[r][c] == At(g, Pos(r, c))
  {
    seq(Size, r requires 0 <= r < Size => g[r * Size .. r * Size + Size])
  }

  /** The initial board `wwww________bbbb`. */
  function Initial(): (g: Grid)
    ensures WellFormed(g)
    ensures forall i :: 0 <= i < |g| ==>
      g[i] == if i < Size then WhiteStone else if i >= 3 * Size then BlackStone else Empty
  {
    var s := "wwww________bbbb";
    assert IsBoardString(s);
    FromString(s).value
  }

  lemma InitialNotTerminal()
    ensures !IsTerminal(Initial())
  {
    var g := Initial();
    assert g[0] == WhiteStone && g[15] == BlackStone;
    CountZeroIff(g, WhiteStone);
    CountZeroIff(g, BlackStone);
  }

  /** Clearing every stone of one side makes a board terminal. */
  lemma ClearedSideIsTerminal(g: Grid, player: Color)
    requires forall i :: 0 <= i < |g| ==> g[i] != StoneOf(player)
    ensures IsTerminal(g)
  {
    CountZeroIff(g, StoneOf(player));
  }
}
