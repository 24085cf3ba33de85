/** The playing field at the level of grid cells: which cells are blocked,
    which are marked, and how many units stand on each. World coordinates,
    colliders and cell objects are not part of this model; a cell outside
    the grid stands for a point that `LocationByPoint` maps to no cell. */
module Fields {
  import opened Wrappers
  import opened Locations
  import opened SquareGrid
  import opened Seqs

  datatype Field = Field(
    cellCount: int,
    grid: Grid,
    unblocked: seq<Location>,
    marked: seq<Location>,
    occupancy: map<Location, int>)

  /** The event a `Mark` raises. */
  datatype MarkEvent = NoMarkEvent | CellMarked | CellUnmarked

  /** The unblocked list and the wall set split the cells of the grid between them. */
  ghost predicate Partitioned(f: Field) {
    && Elements(f.unblocked) !! f.grid.walls
    && Elements(f.unblocked) + f.grid.walls == Cells(f.grid)
  }

  ghost predicate Valid(f: Field) {
    && f.cellCount > 0
    && f.grid.width == f.cellCount && f.grid.height == f.cellCount
    && SquareGrid.Valid(f.grid)
    && (forall l :: l in f.occupancy <==> InBounds(f.grid, l))
    && NoDups(f.unblocked) && NoDups(f.marked)
    && Partitioned(f)
    && forall l :: l in f.marked ==> InBounds(f.grid, l)
  }

  /** A cell is unblocked exactly when it is in bounds and not a wall. */
  lemma UnblockedMeansOpen(f: Field, l: Location)
    requires Valid(f)
    ensures l in f.unblocked <==> InBounds(f.grid, l) && Passable(f.grid, l)
  {
    InCells(f.grid, l);
    assert l in f.unblocked <==> l in Elements(f.unblocked);
  }

  /** `a` strictly precedes `b` when the cells are listed column by column:
      `x` in the outer loop, `y` in the inner one. */
  predicate Before(a: Location, b: Location) {
    a.x < b.x || (a.x == b.x && a.y < b.y)
  }

  /** Enumerates the cells column by column, as the cell objects are created. */
  method InstantiateCells(n: int) returns (cells: seq<Location>)
    requires n > 0
    ensures |cells| == n * n
    ensures forall l :: l in cells <==> 0 <= l.x < n && 0 <= l.y < n
    ensures forall p, q :: 0 <= p < q < |cells| ==> Before(cells[p], cells[q])
  {
    cells := [];
    var i := 0;
    while i < n
      invariant 0 <= i <= n
      invariant |cells| == i * n
      invariant forall l :: l in cells <==> 0 <= l.x < i && 0 <= l.y < n
      invariant forall p, q :: 0 <= p < q < |cells| ==> Before(cells[p], cells[q])
      invariant forall p :: 0 <= p < |cells| ==> cells[p].x < i
    {
      var j := 0;
      while j < n
        invariant 0 <= j <= n
        invariant |cells| == i * n + j
        invariant forall l :: l in cells <==> (0 <= l.x < i && 0 <= l.y < n) || (l.x == i && 0 <= l.y < j)
        invariant forall p, q :: 0 <= p < q < |cells| ==> Before(cells[p], cells[q])
        invariant forall p :: 0 <= p < |cells| ==> Before(cells[p], Location(i, j))
      {
        cells := cells + [Location(i, j)];
        j := j + 1;
      }
      assert (i + 1) * n == i * n + n;
      i := i + 1;
    }
  }

  /** `Awake`: draws the side length (5 to 10 by default; here a
      parameter), creates a wall-free grid, lists every cell as unblocked
      column by column and sets every occupancy count to zero. */
  method Awake(cellCount: int) returns (r: Result<Field, GridError>)
    ensures cellCount <= 0 ==> r.Failure?
    ensures cellCount > 0 ==>
      && r.Success? && Valid(r.value)
      && r.value.cellCount == cellCount
      && r.value.grid.walls == {} && r.value.marked == []
      && |r.value.unblocked| == cellCount * cellCount
      && (forall p, q :: 0 <= p < q < |r.value.unblocked| ==> Before(r.value.unblocked[p], r.value.unblocked[q]))
      && (forall l :: l in r.value.occupancy ==> r.value.occupancy[l] == 0)
  {
    var g := NewGrid(cellCount, cellCount, None);
    if g.Failure? {
      return Failure(g.error);
    }
    var cells := InstantiateCells(cellCount);
    var grid := g.value;
    var occupancy := map l | l in Cells(grid) :: 0;
    var f := Field(cellCount, grid, cells, [], occupancy);
    forall l ensures (l in Elements(cells) <==> l in Cells(grid)) && (l in occupancy <==> InBounds(grid, l)) {
      InCells(grid, l);
    }
    assert NoDups(cells) by {
      forall p, q | 0 <= p < q < |cells| ensures cells[p] != cells[q] {
        assert Before(cells[p], cells[q]);
      }
    }
    return Success(f);
  }

  // ------------------------------------------------------------- occupancy

  function Occupy(f: Field, loc: Location): (f': Field)
    requires Valid(f) && InBounds(f.grid, loc)
    ensures Valid(f')
    ensures f'.grid == f.grid && f'.unblocked == f.unblocked && f'.marked == f.marked
    ensures f'.occupancy[loc] == f.occupancy[loc] + 1
    ensures forall l :: l in f.occupancy && l != loc ==> f'.occupancy[l] == f.occupancy[l]
  {
    InCells(f.grid, loc);
    f.(occupancy := f.occupancy[loc := f.occupancy[loc] + 1])
  }

  function Unoccupy(f: Field, loc: Location): (f': Field)
    requires Valid(f) && InBounds(f.grid, loc)
    ensures Valid(f')
    ensures f'.grid == f.grid && f'.unblocked == f.unblocked && f'.marked == f.marked
    ensures f'.occupancy[loc] == f.occupancy[loc] - 1
    ensures forall l :: l in f.occupancy && l != loc ==> f'.occupancy[l] == f.occupancy[l]
  {
    InCells(f.grid, loc);
    f.(occupancy := f.occupancy[loc := f.occupancy[loc] - 1])
  }

  /** Leaving a cell after entering it restores every count. */
  lemma OccupyThenUnoccupy(f: Field, loc: Location)
    requires Valid(f) && InBounds(f.grid, loc)
    ensures Unoccupy(Occupy(f, loc), loc) == f
  {
    var f' := Unoccupy(Occupy(f, loc), loc);
    assert f'.occupancy == f.occupancy;
  }

  predicate IsOccupied(f: Field, loc: Location)
    requires loc in f.occupancy
  {
    f.occupancy[loc] > 0
  }

  /** A cell the cell-level operations act on: in the grid and with nobody on it. */
  predicate Editable(f: Field, loc: Location) {
    InBounds(f.grid, loc) && loc in f.occupancy && !IsOccupied(f, loc)
  }

  // ------------------------------------------------- marking and blocking

  /** Toggles the mark of a free cell and reports which event fires. */
  function Mark(f: Field, loc: Location): (r: (Field, MarkEvent))
    requires Valid(f)
    ensures Valid(r.0)
    ensures r.0.grid == f.grid && r.0.unblocked == f.unblocked && r.0.occupancy == f.occupancy
    ensures !Editable(f, loc) ==> r == (f, NoMarkEvent)
    ensures Editable(f, loc) ==>
      && (loc in r.0.marked <==> loc !in f.marked)
      && (r.1 == CellMarked <==> loc !in f.marked)
      && (r.1 == CellUnmarked <==> loc in f.marked)
    ensures forall l :: l != loc ==> (l in r.0.marked <==> l in f.marked)
  {
    if !Editable(f, loc) then (f, NoMarkEvent)
    else if loc in f.marked then
      RemoveFirstNoDups(f.marked, loc);
      (f.(marked := RemoveFirst(f.marked, loc)), CellUnmarked)
    else
      (f.(marked := f.marked + [loc]), CellMarked)
  }

  /** Marking a cell twice leaves the same set of marked cells. */
  lemma MarkTwice(f: Field, loc: Location)
    requires Valid(f)
    ensures Elements(Mark(Mark(f, loc).0, loc).0.marked) == Elements(f.marked)
  {
  }

  /** Blocks a free unblocked cell, reporting whether `CellBlocked` fires. */
  function Block(f: Field, loc: Location): (r: (Field, bool))
    requires Valid(f)
    ensures Valid(r.0)
    ensures r.0.marked == f.marked && r.0.occupancy == f.occupancy
    ensures r.0.grid.width == f.grid.width && r.0.grid.height == f.grid.height
    ensures r.1 <==> Editable(f, loc) && loc in f.unblocked
    ensures r.1 ==> r.0.grid.walls == f.grid.walls + {loc} && Elements(r.0.unblocked) == Elements(f.unblocked) - {loc}
    ensures !r.1 ==> r.0 == f
  {
    if Editable(f, loc) && loc in f.unblocked then
      RemoveFirstNoDups(f.unblocked, loc);
      var f' := f.(unblocked := RemoveFirst(f.unblocked, loc), grid := f.grid.(walls := f.grid.walls + {loc}));
      assert Elements(f'.unblocked) == Elements(f.unblocked) - {loc};
      InCells(f.grid, loc);
      (f', true)
    else
      (f, false)
  }

  /** Unblocks a free wall cell, reporting whether `CellUnblocked` fires;
      the cell goes to the end of the unblocked list. */
  function Unblock(f: Field, loc: Location): (r: (Field, bool))
    requires Valid(f)
    ensures Valid(r.0)
    ensures r.0.marked == f.marked && r.0.occupancy == f.occupancy
    ensures r.0.grid.width == f.grid.width && r.0.grid.height == f.grid.height
    ensures r.1 <==> Editable(f, loc) && loc in f.grid.walls
    ensures r.1 ==> r.0.grid.walls == f.grid.walls - {loc} && r.0.unblocked == f.unblocked + [loc]
    ensures !r.1 ==> r.0 == f
  {
    if Editable(f, loc) && loc in f.grid.walls then
      var f' := f.(unblocked := f.unblocked + [loc], grid := f.grid.(walls := f.grid.walls - {loc}));
      assert Elements(f'.unblocked) == Elements(f.unblocked) + {loc};
      (f', true)
    else
      (f, false)
  }

  /** Unblocking a cell just blocked restores the wall set and the unblocked cells. */
  lemma BlockThenUnblock(f: Field, loc: Location)
    requires Valid(f) && Block(f, loc).1
    ensures var f' := Unblock(Block(f, loc).0, loc);
      f'.1 && f'.0.grid == f.grid && Elements(f'.0.unblocked) == Elements(f.unblocked)
  {
    var b := Block(f, loc).0;
    assert loc !in f.grid.walls by {
      assert loc in Elements(f.unblocked);
    }
    assert b.grid.walls - {loc} == f.grid.walls;
  }

  // ------------------------------------------------------------- queries

  /** The unblocked cell at a random index `draw`, or null when there is none. */
  function PickRandomUnblockedLocation(f: Field, draw: int): (r: Option<Location>)
    requires |f.unblocked| > 0 ==> 0 <= draw < |f.unblocked|
    ensures r.None? <==> |f.unblocked| == 0
    ensures r.Some? ==> r.value in f.unblocked
  {
    if |f.unblocked| > 0 then Some(f.unblocked[draw]) else None
  }

  /** The marked cells that are unblocked, each once, in a random order. */
  method GetUnblockedMarkedLocationsRandomlySorted(f: Field) returns (r: seq<Location>)
    ensures NoDups(r)
    ensures forall l :: l in r <==> l in f.marked && l in f.unblocked
  {
    var common := Intersect(f.marked, f.unblocked);
    r := Shuffle(common);
    PermutationNoDups(common, r);
  }
}
