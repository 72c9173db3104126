/**
 * Passive and aggressive pushes on one board: when each is legal, and what
 * `pushStone` leaves behind.
 */
module Pushes {
  import opened Stones
  import opened Vectors
  import opened Grids

  predicate AllInBounds(ps: seq<Pos>) {
    forall k :: 0 <= k < |ps| ==> IsValidPosition(ps[k])
  }

  /** The stones on the cells `ps`, in order. */
  function StonesAt(g: Grid, ps: seq<Pos>): (ss: seq<Stone>)
    requires WellFormed(g) && AllInBounds(ps)
    ensures |ss| == |ps| && forall k :: 0 <= k < |ps| ==> ss[k] == At(g, ps[k])
  {
    seq(|ps|, k requires 0 <= k < |ps| => At(g, ps[k]))
  }

  /** `isValidPassive`: the mover's stone, then every crossed cell on the board and empty. */
  predicate IsValidPassive(g: Grid, src: Pos, v: Vector, player: Color)
    requires WellFormed(g) && IsValidPosition(src)
  {
    Owns(At(g, src), player) &&
    forall k :: 0 <= k < |v.Visited(src)| ==>
      IsValidPosition(v.Visited(src)[k]) && At(g, v.Visited(src)[k]) == Empty
  }

  /** The cells an aggressive push inspects: the visited ones, then the one beyond if on the board. */
  function AggressivePath(src: Pos, v: Vector): seq<Pos> {
    v.Visited(src) + if IsValidPosition(v.After(src)) then [v.After(src)] else []
  }

  /** How many of `ss` are neither `source` nor empty. */
  function CountOpposite(ss: seq<Stone>, source: Stone): nat {
    if ss == [] then 0
    else CountOpposite(ss[..|ss| - 1], source) + (if ss[|ss| - 1] != source && ss[|ss| - 1] != Empty then 1 else 0)
  }

  /** `isValidAggressive`: at most one opposing stone and no own stone on the path. */
  predicate IsValidAggressive(g: Grid, src: Pos, v: Vector, player: Color)
    requires WellFormed(g) && IsValidPosition(src)
  {
    var source := At(g, src);
    Owns(source, player) &&
    AllInBounds(v.Visited(src)) &&
    (var stones := StonesAt(g, AggressivePath(src, v));
     CountOpposite(stones, source) <= 1 && Count(stones, source) == 0)
  }

  /** The `reduce` in `pushStone`: the first non-empty stone, or `acc` unless that is empty. */
  function FirstStone(ss: seq<Stone>, acc: Stone): (r: Stone)
    ensures acc != Empty ==> r == acc
    ensures acc == Empty ==> (r == Empty <==> forall k :: 0 <= k < |ss| ==> ss[k] == Empty)
    ensures acc == Empty ==> forall k :: 0 <= k < |ss| && ss[k] != Empty && (forall j :: 0 <= j < k ==> ss[j] == Empty) ==> r == ss[k]
  {
    if ss == [] then acc
    else FirstStone(ss[1..], if acc == Empty then ss[0] else acc)
  }

  /** On stones that are all `x` or empty, the first one met is `x` exactly when some stone is `x`. */
  lemma {:induction false} FirstStoneOf(ss: seq<Stone>, x: Stone)
    requires x != Empty && forall k :: 0 <= k < |ss| ==> ss[k] == Empty || ss[k] == x
    ensures FirstStone(ss, Empty) == if exists k :: 0 <= k < |ss| && ss[k] == x then x else Empty
  {
    if ss != [] {
      if ss[0] == Empty {
        FirstStoneOf(ss[1..], x);
        if exists k :: 0 <= k < |ss| && ss[k] == x {
          var k :| 0 <= k < |ss| && ss[k] == x;
          assert ss[1..][k - 1] == x;
        }
      } else {
        assert ss[0] == x;
      }
    }
  }

  /** Empties the cells `ps`, one after the other (the `forEach` in `pushStone`). */
  function ClearAll(g: Grid, ps: seq<Pos>): (r: Grid)
    requires WellFormed(g) && AllInBounds(ps)
    ensures WellFormed(r)
    ensures forall q :: IsValidPosition(q) ==> At(r, q) == if q in ps then Empty else At(g, q)
  {
    if ps == [] then g
    else Place(ClearAll(g, ps[..|ps| - 1]), ps[|ps| - 1], Empty)
  }

  /** Emptying one more cell of `ps` extends `ClearAll` by that cell. */
  lemma ClearAllStep(g: Grid, ps: seq<Pos>, i: nat)
    requires WellFormed(g) && AllInBounds(ps) && i < |ps|
    ensures ClearAll(g, ps[..i + 1]) == Place(ClearAll(g, ps[..i]), ps[i], Empty)
  {
    assert ps[..i + 1][..i] == ps[..i];
  }

  /**
   * The board after `pushStone(src, v)`: the source cell is emptied, the first
   * stone met on the visited cells is moved one cell past the destination when
   * that cell is on the board, the visited cells are emptied, and the moving
   * stone is put on the destination.
   */
  function Pushed(g: Grid, src: Pos, v: Vector): (r: Grid)
    requires WellFormed(g) && IsValidPosition(src) && AllInBounds(v.Visited(src))
    ensures WellFormed(r)
  {
    var stone := At(g, src);
    var g1 := Place(g, src, Empty);
    var opponent := FirstStone(StonesAt(g1, v.Visited(src)), Empty);
    var g2 := if IsValidPosition(v.After(src)) && opponent != Empty then Place(g1, v.After(src), opponent) else g1;
    assert IsValidPosition(v.Apply(src));
    Place(ClearAll(g2, v.Visited(src)), v.Apply(src), stone)
  }

  // ---- counting lemmas ----

  lemma CountPlace(g: Grid, p: Pos, x: Stone, s: Stone)
    requires WellFormed(g) && IsValidPosition(p)
    ensures Count(Place(g, p, x), s) == Count(g, s) - (if At(g, p) == s then 1 else 0) + (if x == s then 1 else 0)
  {
    CountUpdate(g, Index(p), x, s);
  }

  /** At most one element equals `s` exactly when no two distinct elements do. */
  lemma {:induction false} CountAtMostOne(ss: seq<Stone>, s: Stone)
    ensures Count(ss, s) <= 1 <==> forall j, k :: 0 <= j < k < |ss| ==> !(ss[j] == s && ss[k] == s)
  {
    if ss != [] {
      var init := ss[..|ss| - 1];
      CountAtMostOne(init, s);
      CountZeroIff(init, s);
      assert forall j :: 0 <= j < |init| ==> init[j] == ss[j];
    }
  }

  /** With a non-empty source, "neither source nor empty" is the other side's stone. */
  lemma {:induction false} CountOppositeIsOther(ss: seq<Stone>, player: Color)
    ensures CountOpposite(ss, StoneOf(player)) == Count(ss, StoneOf(Other(player)))
  {
    if ss != [] {
      CountOppositeIsOther(ss[..|ss| - 1], player);
    }
  }

  // ---- validity ----

  /** A passive push is legal exactly when the mover owns the source and the 1..length steps are empty cells. */
  lemma PassiveIff(g: Grid, src: Pos, v: Vector, player: Color)
    requires WellFormed(g) && IsValidPosition(src)
    ensures IsValidPassive(g, src, v, player) <==>
      At(g, src) == StoneOf(player) &&
      (v.length == 1 || v.length == 2 ==>
        forall k :: 1 <= k <= v.length ==>
          IsValidPosition(Steps(src, v.direction, k)) && At(g, Steps(src, v.direction, k)) == Empty)
  {
    var vis := v.Visited(src);
    if v.length == 1 || v.length == 2 {
      assert forall k :: 1 <= k <= v.length ==> Steps(src, v.direction, k) == vis[k - 1];
    }
  }

  /**
   * An aggressive push is legal exactly when the mover owns the source, every
   * visited cell is on the board, no cell of the path holds a stone of the
   * mover, and no two cells of the path both hold an opposing stone.
   */
  lemma AggressiveIff(g: Grid, src: Pos, v: Vector, player: Color)
    requires WellFormed(g) && IsValidPosition(src)
    ensures IsValidAggressive(g, src, v, player) <==>
      At(g, src) == StoneOf(player) &&
      AllInBounds(v.Visited(src)) &&
      var path := AggressivePath(src, v);
      (forall k :: 0 <= k < |path| ==> At(g, path[k]) != StoneOf(player)) &&
      (forall j, k :: 0 <= j < k < |path| ==>
         !(At(g, path[j]) == StoneOf(Other(player)) && At(g, path[k]) == StoneOf(Other(player))))
  {
    if At(g, src) == StoneOf(player) && AllInBounds(v.Visited(src)) {
      var ss := StonesAt(g, AggressivePath(src, v));
      CountOppositeIsOther(ss, player);
      CountAtMostOne(ss, StoneOf(Other(player)));
      CountZeroIff(ss, StoneOf(player));
    }
  }

  // ---- effect of a push ----

  /**
   * A legal passive push moves the stone from `src` to `Apply(src)`, leaves
   * every other cell as it was and keeps the number of stones of each kind.
   */
  lemma PassiveEffect(g: Grid, src: Pos, v: Vector, player: Color)
    requires WellFormed(g) && IsValidPosition(src) && IsValidPassive(g, src, v, player)
    requires v.length == 1 || v.length == 2
    ensures AllInBounds(v.Visited(src))
    ensures var r := Pushed(g, src, v);
      At(r, src) == Empty && At(r, v.Apply(src)) == StoneOf(player) &&
      (forall q :: IsValidPosition(q) && q != src && q != v.Apply(src) ==> At(r, q) == At(g, q)) &&
      (forall s :: Count(r, s) == Count(g, s))
  {
    var vis := v.Visited(src);
    var dest := v.Apply(src);
    var mine := StoneOf(player);
    PathCellsDistinct(v, src);
    var g1 := Place(g, src, Empty);
    var ss := StonesAt(g1, vis);
    assert forall k :: 0 <= k < |ss| ==> ss[k] == Empty;
    var g3 := ClearAll(g1, vis);
    var r := Place(g3, dest, mine);
    assert r == Pushed(g, src, v);
    forall s ensures Count(g1, s) == Count(g, s) - (if At(g, src) == s then 1 else 0) + (if Empty == s then 1 else 0) {
      CountPlace(g, src, Empty, s);
    }
    // clearing the visited cells changes nothing: they were empty
    assert g3 == g1 by {
      forall i | 0 <= i < Size * Size ensures g3[i] == g1[i] {
        assert At(g3, CellAt(i)) == At(g1, CellAt(i));
      }
    }
    forall s ensures Count(r, s) == Count(g3, s) - (if At(g3, dest) == s then 1 else 0) + (if mine == s then 1 else 0) {
      CountPlace(g3, dest, mine, s);
    }
  }

  /** Some visited cell holds a stone of the other side. */
  predicate Displaces(g: Grid, src: Pos, v: Vector, player: Color)
    requires WellFormed(g) && AllInBounds(v.Visited(src))
  {
    exists k :: 0 <= k < |v.Visited(src)| && At(g, v.Visited(src)[k]) == StoneOf(Other(player))
  }

  /**
   * On a legal aggressive push, `pushStone` carries an opposing stone exactly
   * when some visited cell holds one, and the cell beyond the end, when on the
   * board, is then empty.
   */
  lemma AggressiveCarried(g: Grid, src: Pos, v: Vector, player: Color)
    requires WellFormed(g) && IsValidPosition(src) && IsValidAggressive(g, src, v, player)
    requires v.length == 1 || v.length == 2
    ensures FirstStone(StonesAt(Place(g, src, Empty), v.Visited(src)), Empty)
         == if Displaces(g, src, v, player) then StoneOf(Other(player)) else Empty
    ensures Displaces(g, src, v, player) && IsValidPosition(v.After(src)) ==> At(g, v.After(src)) == Empty
  {
    var vis := v.Visited(src);
    var theirs := StoneOf(Other(player));
    AggressivePathStones(g, src, v, player);
    PathCellsDistinct(v, src);
    var ss := StonesAt(Place(g, src, Empty), vis);
    assert forall k :: 0 <= k < |ss| ==> ss[k] == At(g, vis[k]);
    FirstStoneOf(ss, theirs);
  }

  /**
   * On a legal aggressive path the visited cells hold no stone of the mover,
   * and the cell beyond is empty once a visited cell holds an opposing stone.
   */
  lemma AggressivePathStones(g: Grid, src: Pos, v: Vector, player: Color)
    requires WellFormed(g) && IsValidPosition(src) && IsValidAggressive(g, src, v, player)
    requires v.length == 1 || v.length == 2
    ensures AllInBounds(v.Visited(src))
    ensures forall k :: 0 <= k < |v.Visited(src)| ==>
      At(g, v.Visited(src)[k]) == Empty || At(g, v.Visited(src)[k]) == StoneOf(Other(player))
    ensures |v.Visited(src)| == 2 ==>
      !(At(g, v.Visited(src)[0]) == StoneOf(Other(player)) && At(g, v.Visited(src)[1]) == StoneOf(Other(player)))
    ensures Displaces(g, src, v, player) && IsValidPosition(v.After(src)) ==> At(g, v.After(src)) == Empty
  {
    var vis := v.Visited(src);
    AggressiveIff(g, src, v, player);
    var path := AggressivePath(src, v);
    assert forall k :: 0 <= k < |vis| ==> path[k] == vis[k];
    if |vis| == 2 {
      assert path[0] == vis[0] && path[1] == vis[1];
    }
    if Displaces(g, src, v, player) && IsValidPosition(v.After(src)) {
      assert path[|vis|] == v.After(src);
    }
  }

  /**
   * A legal aggressive push puts the mover's stone on `Apply(src)` and empties
   * `src` and the intermediate cells. An opposing stone met on the visited cells
   * lands one cell past the destination when that cell is on the board, a cell
   * that was empty, so no stone is overwritten. Cells off the path keep their
   * stone.
   */
  lemma AggressiveCells(g: Grid, src: Pos, v: Vector, player: Color)
    requires WellFormed(g) && IsValidPosition(src) && IsValidAggressive(g, src, v, player)
    requires v.length == 1 || v.length == 2
    ensures var r := Pushed(g, src, v);
      var vis := v.Visited(src);
      var after := v.After(src);
      At(r, v.Apply(src)) == StoneOf(player) && At(r, src) == Empty &&
      (forall k :: 0 <= k < |vis| - 1 ==> At(r, vis[k]) == Empty) &&
      (Displaces(g, src, v, player) && IsValidPosition(after) ==>
         At(g, after) == Empty && At(r, after) == StoneOf(Other(player))) &&
      (!Displaces(g, src, v, player) && IsValidPosition(after) ==> At(r, after) == At(g, after)) &&
      (forall q :: IsValidPosition(q) && q != src && q !in vis && q != after ==> At(r, q) == At(g, q))
  {
    PathCellsDistinct(v, src);
    AggressiveCarried(g, src, v, player);
  }

  /** Clearing one cell, then a second distinct one, as counts. */
  lemma CountClearAll(g: Grid, ps: seq<Pos>, s: Stone)
    requires WellFormed(g) && AllInBounds(ps) && 1 <= |ps| <= 2
    requires |ps| == 2 ==> ps[0] != ps[1]
    ensures Count(ClearAll(g, ps), s)
         == Count(g, s) - (if At(g, ps[0]) == s then 1 else 0)
            - (if |ps| == 2 && At(g, ps[1]) == s then 1 else 0)
            + (if Empty == s then |ps| else 0)
  {
    assert ps[..0] == [];
    assert ClearAll(g, ps[..0]) == g;
    var h1 := Place(g, ps[0], Empty);
    CountPlace(g, ps[0], Empty, s);
    if |ps| == 2 {
      assert ps[..1] == [ps[0]];
      assert ClearAll(g, ps[..1]) == h1 by {
        assert [ps[0]][..0] == [];
      }
      CountPlace(h1, ps[1], Empty, s);
    }
  }

  /**
   * A legal aggressive push keeps every stone of the mover, and the opponent
   * loses one stone exactly when one is pushed off the board.
   */
  lemma AggressiveCounts(g: Grid, src: Pos, v: Vector, player: Color)
    requires WellFormed(g) && IsValidPosition(src) && IsValidAggressive(g, src, v, player)
    requires v.length == 1 || v.length == 2
    ensures var r := Pushed(g, src, v);
      Count(r, StoneOf(player)) == Count(g, StoneOf(player)) &&
      Count(r, StoneOf(Other(player))) == Count(g, StoneOf(Other(player)))
        - (if Displaces(g, src, v, player) && !IsValidPosition(v.After(src)) then 1 else 0)
  {
    var vis := v.Visited(src);
    var after := v.After(src);
    var theirs := StoneOf(Other(player));
    PathCellsDistinct(v, src);
    AggressivePathStones(g, src, v, player);
    AggressiveCarried(g, src, v, player);
    var carried := IsValidPosition(after) && Displaces(g, src, v, player);
    assert Displaces(g, src, v, player) <==> At(g, vis[0]) == theirs || (|vis| == 2 && At(g, vis[1]) == theirs);
    StepCounts(g, src, vis, v.Apply(src), after, StoneOf(player), theirs, carried);
  }

  /**
   * The counting behind `AggressiveCounts`, on the steps of `pushStone`: the
   * mover's stone `s` leaves `src`, an opposing stone `o` is placed beyond the
   * path when `carried`, the one or two visited cells (holding no `s`, at most
   * one `o`) are emptied, and `s` lands on the last of them.
   */
  lemma StepCounts(g: Grid, src: Pos, vis: seq<Pos>, dest: Pos, after: Pos, s: Stone, o: Stone, carried: bool)
    requires WellFormed(g) && IsValidPosition(src) && AllInBounds(vis)
    requires 1 <= |vis| <= 2 && vis[|vis| - 1] == dest && (|vis| == 2 ==> vis[0] != vis[1])
    requires src !in vis
    requires At(g, src) == s && s != Empty && o != Empty && o != s
    requires forall k :: 0 <= k < |vis| ==> At(g, vis[k]) == Empty || At(g, vis[k]) == o
    requires |vis| == 2 ==> !(At(g, vis[0]) == o && At(g, vis[1]) == o)
    requires carried ==> IsValidPosition(after) && after != src && after !in vis && At(g, after) == Empty
    ensures var g1 := Place(g, src, Empty);
      var g2 := if carried then Place(g1, after, o) else g1;
      var r := Place(ClearAll(g2, vis), dest, s);
      Count(r, s) == Count(g, s) &&
      Count(r, o) == Count(g, o) + (if carried then 1 else 0)
        - (if At(g, vis[0]) == o || (|vis| == 2 && At(g, vis[1]) == o) then 1 else 0)
  {
    var g1 := Place(g, src, Empty);
    CountPlace(g, src, Empty, s);
    CountPlace(g, src, Empty, o);
    var g2 := if carried then Place(g1, after, o) else g1;
    if carried {
      CountPlace(g1, after, o, s);
      CountPlace(g1, after, o, o);
    }
    assert forall k :: 0 <= k < |vis| ==> At(g2, vis[k]) == At(g, vis[k]);
    var g3 := ClearAll(g2, vis);
    CountClearAll(g2, vis, s);
    CountClearAll(g2, vis, o);
    assert At(g3, dest) == Empty;
    CountPlace(g3, dest, s, s);
    CountPlace(g3, dest, s, o);
  }

  /** A push of a length other than 1 or 2 leaves the board as it was. */
  lemma DegeneratePushIsNoop(g: Grid, src: Pos, v: Vector)
    requires WellFormed(g) && IsValidPosition(src)
    requires v.length != 1 && v.length != 2
    ensures Pushed(g, src, v) == g
  {
    assert v.Visited(src) == [];
    assert StonesAt(Place(g, src, Empty), []) == [];
  }
}
