/** The geometry of a push: a direction and a length. */
module Vectors {

  /** A cell as (row, column); coordinates may leave the board. */
  datatype Pos = Pos(row: int, col: int)

  datatype Direction = U | UR | R | DR | D | DL | L | UL

  /** The unit step of a direction, as (row delta, column delta). */
  function Shift(d: Direction): (r: (int, int))
    ensures -1 <= r.0 <= 1 && -1 <= r.1 <= 1 && r != (0, 0)
  {
    match d
    case U => (-1, 0)
    case UR => (-1, 1)
    case R => (0, 1)
    case DR => (1, 1)
    case D => (1, 0)
    case DL => (1, -1)
    case L => (0, -1)
    case UL => (-1, -1)
  }

  /** The cell reached from `p` after `k` unit steps in direction `d`. */
  function Steps(p: Pos, d: Direction, k: nat): Pos {
    Pos(p.row + k * Shift(d).0, p.col + k * Shift(d).1)
  }

  lemma StepsInjective(p: Pos, d: Direction, j: nat, k: nat)
    ensures Steps(p, d, j) == Steps(p, d, k) <==> j == k
  {
    var s := Shift(d);
    if j != k {
      if s.0 != 0 {
        assert j * s.0 != k * s.0 by {
          if s.0 == 1 { } else { assert s.0 == -1; }
        }
      } else {
        assert s.1 == 1 || s.1 == -1;
        assert j * s.1 != k * s.1 by {
          if s.1 == 1 { } else { }
        }
      }
    }
  }

  /** A push: the length is 1 or 2 when parsed from a move; other lengths make a no-op. */
  datatype Vector = Vector(length: int, direction: Direction) {

    function ShiftOnce(p: Pos): (r: Pos)
      ensures r == Steps(p, direction, 1)
    {
      Pos(p.row + Shift(direction).0, p.col + Shift(direction).1)
    }

    /** Where the pushed stone ends. */
    function Apply(src: Pos): (r: Pos)
      ensures r == if length == 1 || length == 2 then Steps(src, direction, length) else src
    {
      if length == 1 then ShiftOnce(src)
      else if length == 2 then ShiftOnce(ShiftOnce(src))
      else src
    }

    /** The cell one step beyond the end of the push. */
    function After(src: Pos): (r: Pos)
      ensures r == ShiftOnce(Apply(src))
      ensures length == 1 || length == 2 ==> r == Steps(src, direction, length + 1)
    {
      ShiftOnce(Apply(src))
    }

    /** The cells the pushed stone crosses, ending at its destination. */
    function Visited(src: Pos): (r: seq<Pos>)
      ensures |r| == if length == 1 || length == 2 then length else 0
      ensures forall k :: 0 <= k < |r| ==> r[k] == Steps(src, direction, k + 1)
      ensures |r| > 0 ==> r[|r| - 1] == Apply(src)
    {
      if length == 1 then [ShiftOnce(src)]
      else if length == 2 then [ShiftOnce(src), ShiftOnce(ShiftOnce(src))]
      else []
    }
  }

  /**
   * For a proper length no two of src, the visited cells and the cell beyond
   * the end coincide: they are 0, 1, ..., length + 1 steps from `src`.
   */
  lemma {:induction false} PathCellsDistinct(v: Vector, src: Pos)
    requires v.length == 1 || v.length == 2
    ensures forall k :: 0 <= k < |v.Visited(src)| ==> v.Visited(src)[k] != src && v.Visited(src)[k] != v.After(src)
    ensures v.After(src) != src && v.Apply(src) != src
    ensures |v.Visited(src)| == 2 ==> v.Visited(src)[0] != v.Visited(src)[1]
  {
    var d := v.direction;
    StepsInjective(src, d, 0, 1);
    StepsInjective(src, d, 0, 2);
    StepsInjective(src, d, 0, 3);
    StepsInjective(src, d, 1, 2);
    StepsInjective(src, d, 1, 3);
    StepsInjective(src, d, 2, 3);
    assert Steps(src, d, 0) == src;
  }
}
