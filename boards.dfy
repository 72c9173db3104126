/** One mutable board: `Board` in the engine. */
module Boards {
  import opened Stones
  import opened Vectors
  import opened Results
  import Grids
  import opened Pushes

  class Board {
    /** The 16 cells, row by row; `place` overwrites one of them. */
    var cells: Grids.Grid

    ghost predicate Valid()
      reads this
    {
      Grids.WellFormed(cells)
    }

    /** `Board.empty`: a board with no stone. */
    constructor Blank()
      ensures Valid() && cells == Grids.Blank()
    {
      cells := Grids.Blank();
    }

    /** `Board.initial`: the starting board `wwww________bbbb`. */
    constructor Initial()
      ensures Valid() && cells == Grids.Initial()
    {
      cells := Grids.Initial();
    }

    /** The private constructor: a board over the given cells. */
    constructor FromCells(g: Grids.Grid)
      requires Grids.WellFormed(g)
      ensures Valid() && cells == g
    {
      cells := g;
    }

    /** `Board.fromString`: a new board, or a format error. */
    static method FromString(s: string) returns (r: Result<Board>)
      ensures r.Ok? <==> Grids.IsBoardString(s)
      ensures r.Err? ==> r.error == WrongBoardFormat
      ensures r.Ok? ==> fresh(r.value) && r.value.Valid() && r.value.cells == Grids.FromString(s).value
    {
      var parsed := Grids.FromString(s);
      if parsed.Err? {
        return Err(parsed.error);
      }
      var b := new Board.FromCells(parsed.value);
      return Ok(b);
    }

    /** `Board.toString`: a board string that reads back as these cells. */
    function ToString(): (r: string)
      reads this
      requires Valid()
      ensures Grids.IsBoardString(r) && Grids.FromString(r) == Ok(cells)
    {
      Grids.PrintThenParse(cells);
      Grids.ToString(cells)
    }

    /** `Board.isTerminal`: no white stone or no black stone is left. */
    predicate IsTerminal()
      reads this
      ensures IsTerminal() <==>
        (forall i :: 0 <= i < |cells| ==> cells[i] != WhiteStone) ||
        (forall i :: 0 <= i < |cells| ==> cells[i] != BlackStone)
    {
      Grids.TerminalIff(cells);
      Grids.IsTerminal(cells)
    }

    /** `place`: cell `p` now holds `stone`. */
    method Place(p: Pos, stone: Stone)
      requires Valid() && Grids.IsValidPosition(p)
      modifies this
      ensures Valid() && cells == Grids.Place(old(cells), p, stone)
    {
      cells := cells[Grids.Index(p) := stone];
    }

    /** The `forEach` in `pushStone`: every cell of `ps` is emptied, one after the other. */
    method ClearCells(ps: seq<Pos>)
      requires Valid() && AllInBounds(ps)
      modifies this
      ensures Valid() && cells == ClearAll(old(cells), ps)
    {
      ghost var start := cells;
      var i := 0;
      while i < |ps|
        invariant 0 <= i <= |ps| && Valid()
        invariant cells == ClearAll(start, ps[..i])
      {
        ClearAllStep(start, ps, i);
        Place(ps[i], Empty);
        i := i + 1;
      }
      assert ps[..|ps|] == ps;
    }

    /**
     * `pushStone`: moves the stone on `src` along `v`, carrying the first stone
     * it meets one cell past the destination when that cell is on the board.
     * It does not check legality; the caller has.
     */
    method PushStone(src: Pos, v: Vector)
      requires Valid() && Grids.IsValidPosition(src) && AllInBounds(v.Visited(src))
      modifies this
      ensures Valid() && cells == Pushed(old(cells), src, v)
    {
      ghost var before := cells;
      var stone := Grids.At(cells, src);
      Place(src, Empty);
      var visited := v.Visited(src);
      var after := v.After(src);
      var opponent := FirstStone(StonesAt(cells, visited), Empty);
      if Grids.IsValidPosition(after) && opponent != Empty {
        Place(after, opponent);
      }
      ghost var carried := cells;
      ClearCells(visited);
      assert Pushed(before, src, v) == Grids.Place(ClearAll(carried, visited), v.Apply(src), stone);
      Place(v.Apply(src), stone);
    }
  }
}
