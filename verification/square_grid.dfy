/** A bounded square lattice with a set of impassable cells. */
module SquareGrid {
  import opened Wrappers
  import opened Locations
  import opened Seqs

  /** Width and height are fixed at construction; `walls` is replaced as the
      field blocks and unblocks cells. */
  datatype Grid = Grid(width: int, height: int, walls: set<Location>)

  /** The `ArgumentException`s of the constructor. */
  datatype GridError = WidthNotPositive | HeightNotPositive

  /** The offsets to the eight neighbours, in the order they are enumerated. */
  const Directions: seq<Location> := [
    Location(0, 1), Location(1, 1), Location(1, 0), Location(1, -1),
    Location(0, -1), Location(-1, -1), Location(-1, 0), Location(-1, 1)
  ]

  /** Cost of an orthogonal step, distances being scaled by 10. */
  const OrthogonalCost := 10
  /** Cost of a diagonal step (10 times an approximation of the square root of 2). */
  const DiagonalCost := 14

  predicate InBounds(g: Grid, id: Location) {
    0 <= id.x < g.width && 0 <= id.y < g.height
  }

  /** Only the wall set is consulted: a cell outside the grid is passable. */
  predicate Passable(g: Grid, id: Location) {
    id !in g.walls
  }

  /** What a constructed grid keeps: positive sizes and walls inside the bounds. */
  ghost predicate Valid(g: Grid) {
    g.width > 0 && g.height > 0 && forall w :: w in g.walls ==> InBounds(g, w)
  }

  /** Every cell of the grid. */
  function Cells(g: Grid): set<Location> {
    set x, y | 0 <= x < g.width && 0 <= y < g.height :: Location(x, y)
  }

  lemma InCells(g: Grid, id: Location)
    ensures id in Cells(g) <==> InBounds(g, id)
  {
    if InBounds(g, id) {
      assert id == Location(id.x, id.y);
    }
  }

  /** The constructor: non-positive sizes throw, supplied walls outside the
      bounds are dropped, and a null wall set gives no walls. */
  function NewGrid(width: int, height: int, walls: Option<set<Location>>): (r: Result<Grid, GridError>)
    ensures width <= 0 ==> r == Failure(WidthNotPositive)
    ensures width > 0 && height <= 0 ==> r == Failure(HeightNotPositive)
    ensures width > 0 && height > 0 ==>
      && r.Success? && Valid(r.value)
      && r.value.width == width && r.value.height == height
    ensures r.Success? && walls.None? ==> r.value.walls == {}
    ensures r.Success? && walls.Some? ==>
      forall w :: w in r.value.walls <==> w in walls.value && 0 <= w.x < width && 0 <= w.y < height
  {
    if width <= 0 then Failure(WidthNotPositive)
    else if height <= 0 then Failure(HeightNotPositive)
    else
      var g := Grid(width, height, {});
      match walls
      case None => Success(g)
      case Some(ws) => Success(g.(walls := set w | w in ws && InBounds(g, w)))
  }

  /** The cost of moving from `a` to `b`, assuming they are neighbours. */
  function CostToNeighbor(a: Location, b: Location): (c: int)
    ensures c == DiagonalCost <==> a.x != b.x && a.y != b.y
    ensures c == OrthogonalCost <==> a.x == b.x || a.y == b.y
  {
    if a.x - b.x != 0 && a.y - b.y != 0 then DiagonalCost else OrthogonalCost
  }

  lemma CostSymmetric(a: Location, b: Location)
    ensures CostToNeighbor(a, b) == CostToNeighbor(b, a)
  {
  }

  /** The position in `Directions` of the offset from `id` to `n`, or 8 when
      `n` is not one of the eight neighbouring cells. */
  function DirectionIndex(id: Location, n: Location): (k: nat)
    ensures k <= 8
    ensures k < 8 <==> Adjacent(id, n)
    ensures k < 8 ==> Shift(id, Directions[k]) == n
  {
    var dx, dy := n.x - id.x, n.y - id.y;
    if dx == 0 && dy == 1 then 0
    else if dx == 1 && dy == 1 then 1
    else if dx == 1 && dy == 0 then 2
    else if dx == 1 && dy == -1 then 3
    else if dx == 0 && dy == -1 then 4
    else if dx == -1 && dy == -1 then 5
    else if dx == -1 && dy == 0 then 6
    else if dx == -1 && dy == 1 then 7
    else 8
  }

  lemma DirectionIndexOfShift(id: Location, k: nat)
    requires k < 8
    ensures DirectionIndex(id, Shift(id, Directions[k])) == k
  {
  }

  /** A neighbour enumerated by `Neighbors`: one king's move away, inside the
      grid and not a wall. */
  predicate IsNeighbor(g: Grid, a: Location, b: Location) {
    Adjacent(a, b) && InBounds(g, b) && Passable(g, b)
  }

  /** The cells `id + Directions[k]` for `k` from `from` to 7 that are in
      bounds and passable, in direction order. */
  function NeighborsFrom(g: Grid, id: Location, from: nat): (ns: seq<Location>)
    requires from <= 8
    ensures |ns| <= 8 - from
    ensures forall n :: n in ns <==> IsNeighbor(g, id, n) && from <= DirectionIndex(id, n)
    ensures forall i, j :: 0 <= i < j < |ns| ==> DirectionIndex(id, ns[i]) < DirectionIndex(id, ns[j])
    decreases 8 - from
  {
    if from == 8 then []
    else
      var next := Shift(id, Directions[from]);
      var rest := NeighborsFrom(g, id, from + 1);
      DirectionIndexOfShift(id, from);
      if InBounds(g, next) && Passable(g, next) then [next] + rest else rest
  }

  /** The passable in-bounds cells around `id`, in the order of `Directions`. */
  function Neighbors(g: Grid, id: Location): (ns: seq<Location>)
    ensures |ns| <= 8
    ensures forall n :: n in ns <==> IsNeighbor(g, id, n)
    ensures id !in ns
    ensures forall i, j :: 0 <= i < j < |ns| ==> DirectionIndex(id, ns[i]) < DirectionIndex(id, ns[j])
    ensures NoDups(ns)
  {
    NeighborsFrom(g, id, 0)
  }

  /** Neighbourhood is symmetric between passable in-bounds cells. */
  lemma NeighborsSymmetric(g: Grid, a: Location, b: Location)
    requires InBounds(g, a) && Passable(g, a)
    ensures b in Neighbors(g, a) ==> a in Neighbors(g, b)
  {
  }
}
