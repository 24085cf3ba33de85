/** A* search over a `SquareGrid` with the octile heuristic. When the goal
    cannot be reached the search falls back to the recorded cell of least
    accumulated cost, which is always the start. */
module Pathfinder {
  import opened Wrappers
  import opened Locations
  import opened SquareGrid
  import opened Seqs
  import PQ = PriorityQueue

  /** The `ArgumentException`s and `ArgumentNullException` of `FindPath`. */
  datatype PathError = NullPath | StartOutOfBounds | GoalOutOfBounds | StartImpassable

  /** The fields a pathfinder keeps between calls. `cameFrom` is never
      cleared, so it may hold entries of earlier searches. */
  datatype Finder = Finder(
    cameFrom: map<Location, Location>,
    costSoFar: map<Location, int>,
    start: Location,
    goal: Location)

  /** The result of the `bool` overload: the flag and the state it leaves. */
  datatype Search = Search(found: bool, finder: Finder)

  /** The result of the list overload: the flag, the filled list and the state. */
  datatype Outcome = Outcome(found: bool, path: seq<Location>, finder: Finder)

  /** `int.MaxValue`, the initial best cost of `FindClosestToGoal`. */
  const IntMaxValue := 0x7fff_ffff

  function Max(a: int, b: int): int { if a < b then b else a }
  function Min(a: int, b: int): int { if a < b then a else b }

  // ---------------------------------------------------------------- heuristic

  /** The octile distance between two cells, scaled like the step costs. */
  function Heuristic(a: Location, b: Location): nat {
    var dx, dy := Abs(a.x - b.x), Abs(a.y - b.y);
    if dx < dy then DiagonalCost * dx + OrthogonalCost * (dy - dx)
    else DiagonalCost * dy + OrthogonalCost * (dx - dy)
  }

  /** The heuristic is 10 per step along the longer axis plus 4 per step
      along the shorter one; it is symmetric and vanishes exactly on equal cells. */
  lemma HeuristicOctile(a: Location, b: Location)
    ensures Heuristic(a, b) == 10 * Max(Abs(a.x - b.x), Abs(a.y - b.y)) + 4 * Min(Abs(a.x - b.x), Abs(a.y - b.y))
    ensures Heuristic(a, b) == Heuristic(b, a)
    ensures Heuristic(a, b) == 0 <==> a == b
  {
  }

  /** Consistency: across one step the estimate falls by at most the step's cost. */
  lemma HeuristicConsistent(a: Location, b: Location, goal: Location)
    requires Adjacent(a, b)
    ensures Heuristic(a, goal) <= CostToNeighbor(a, b) + Heuristic(b, goal)
  {
  }

  // ------------------------------------------------------------------ routes

  /** A walk through the grid from `start`: every cell after the first is a
      neighbour (adjacent, in bounds, not a wall) of the one before it. */
  ghost predicate IsRoute(g: Grid, p: seq<Location>, start: Location) {
    |p| > 0 && p[0] == start && forall i :: 0 <= i < |p| - 1 ==> IsNeighbor(g, p[i], p[i + 1])
  }

  /** No walk from `start` ends at `goal`. */
  ghost predicate Unreachable(g: Grid, start: Location, goal: Location) {
    forall p :: IsRoute(g, p, start) ==> Last(p) != goal
  }

  /** The summed step costs of a walk. */
  function RouteCost(p: seq<Location>): nat {
    if |p| <= 1 then 0 else CostToNeighbor(p[0], p[1]) + RouteCost(p[1..])
  }

  /** Admissibility: the heuristic never exceeds the cost of a walk between the two cells. */
  lemma {:induction false} HeuristicAdmissible(g: Grid, p: seq<Location>, start: Location)
    requires IsRoute(g, p, start)
    ensures Heuristic(start, Last(p)) <= RouteCost(p)
    decreases |p|
  {
    if |p| > 1 {
      assert IsRoute(g, p[1..], p[1]) by {
        forall i | 0 <= i < |p[1..]| - 1 ensures IsNeighbor(g, p[1..][i], p[1..][i + 1]) {
          assert p[1..][i] == p[i + 1] && p[1..][i + 1] == p[i + 2];
        }
      }
      HeuristicAdmissible(g, p[1..], p[1]);
      assert IsNeighbor(g, p[0], p[1]);
      HeuristicConsistent(p[0], p[1], Last(p));
    }
  }

  // ------------------------------------------------------------ search state

  /** What the search records about a cell `n` in `costSoFar`: the start is
      its own predecessor at cost 0; any other cell is a neighbour of its
      recorded predecessor, which is itself recorded at a strictly smaller cost. */
  ghost predicate Recorded(g: Grid, f: Finder, n: Location)
    requires n in f.costSoFar
  {
    && n in f.cameFrom
    && (n == f.start ==> f.cameFrom[n] == n && f.costSoFar[n] == 0)
    && (n != f.start ==>
          var p := f.cameFrom[n];
          && p in f.costSoFar
          && f.costSoFar[p] < f.costSoFar[n]
          && f.costSoFar[n] >= OrthogonalCost
          && IsNeighbor(g, p, n))
  }

  /** The invariant of a search: following `cameFrom` from any recorded cell
      leads back to the start through recorded cells only. */
  ghost predicate SearchInv(g: Grid, f: Finder) {
    && InBounds(g, f.start) && Passable(g, f.start)
    && f.start in f.costSoFar
    && forall n {:trigger Recorded(g, f, n)} :: n in f.costSoFar ==> Recorded(g, f, n)
  }

  /** All neighbours of `n` have a recorded cost. */
  ghost predicate Expanded(g: Grid, cost: map<Location, int>, n: Location) {
    forall m :: m in Neighbors(g, n) ==> m in cost
  }

  /** The recorded cells are closed under `Neighbors`. */
  ghost predicate Closed(g: Grid, cost: map<Location, int>) {
    forall n {:trigger Expanded(g, cost, n)} :: n in cost ==> Expanded(g, cost, n)
  }

  /** Recorded costs never exceed 14 per recorded cell beyond the start. */
  ghost predicate CostBounded(cost: map<Location, int>) {
    forall n :: n in cost ==> cost[n] <= DiagonalCost * (|cost| - 1)
  }

  /** The loop invariant of `TryToFindPath`: every queued item is recorded,
      the goal is queued once recorded, and every recorded cell that is no
      longer queued has had all its neighbours recorded. */
  ghost predicate FrontierInv(g: Grid, f: Finder, q: PQ.Queue<Location>) {
    && SearchInv(g, f)
    && PQ.Items(q) <= f.costSoFar.Keys
    && (f.goal in f.costSoFar ==> f.goal in PQ.Items(q))
    && (forall n {:trigger Expanded(g, f.costSoFar, n)} :: n in f.costSoFar && n !in PQ.Items(q) ==> Expanded(g, f.costSoFar, n))
    && CostBounded(f.costSoFar)
  }

  lemma RecordedInCells(g: Grid, f: Finder)
    requires SearchInv(g, f)
    ensures f.costSoFar.Keys <= Cells(g)
    ensures |f.costSoFar| <= |Cells(g)|
  {
    forall n | n in f.costSoFar ensures n in Cells(g) {
      assert Recorded(g, f, n);
      InCells(g, n);
    }
    SubsetSize(f.costSoFar.Keys, Cells(g));
  }

  lemma {:induction false} SubsetSize<T>(a: set<T>, b: set<T>)
    requires a <= b
    ensures |a| <= |b|
    decreases a
  {
    if a != {} {
      var x :| x in a;
      SubsetSize(a - {x}, b - {x});
    }
  }

  // ------------------------------------------------------------- termination

  /** An upper bound on every cost a search can record. */
  ghost function CostCeiling(g: Grid): int {
    DiagonalCost * |Cells(g)|
  }

  /** The (cell, cost) pairs still below each cell's recorded cost; it
      shrinks whenever a cost is recorded or lowered. */
  ghost function Potential(g: Grid, cost: map<Location, int>): set<(Location, int)> {
    set c, k | c in Cells(g) && 0 <= k < CostCeiling(g) && (c !in cost || k < cost[c]) :: (c, k)
  }

  lemma PotentialShrinks(g: Grid, cost: map<Location, int>, n: Location, v: int)
    requires n in Cells(g) && 0 <= v < CostCeiling(g)
    requires n !in cost || v < cost[n]
    ensures Potential(g, cost[n := v]) < Potential(g, cost)
  {
    var before, after := Potential(g, cost), Potential(g, cost[n := v]);
    forall p | p in after ensures p in before {
      var c, k := p.0, p.1;
    }
    assert (n, v) in before;
    assert (n, v) !in after;
  }

  // ------------------------------------------------------------------ search

  /** Resets the cost map and the frontier to the start alone; entries of
      `cameFrom` from earlier searches are kept. */
  function Init(g: Grid, f: Finder): (r: (Finder, PQ.Queue<Location>))
    requires InBounds(g, f.start) && Passable(g, f.start)
    ensures r.0.start == f.start && r.0.goal == f.goal
    ensures r.0.costSoFar.Keys == {f.start} && r.0.costSoFar[f.start] == 0
    ensures PQ.Items(r.1) == {f.start} && PQ.Count(r.1) == 1
    ensures forall n :: n in f.cameFrom && n != f.start ==> n in r.0.cameFrom && r.0.cameFrom[n] == f.cameFrom[n]
    ensures FrontierInv(g, r.0, r.1)
  {
    var q := PQ.Enqueue(PQ.Empty(), f.start, 0);
    (f.(cameFrom := f.cameFrom[f.start := f.start], costSoFar := map[f.start := 0]), q)
  }

  /** Recording `current` as the predecessor of its neighbour `next` at a
      lower cost keeps the search invariant and the cost bound, and shrinks
      the potential. */
  lemma RelaxStep(g: Grid, f: Finder, current: Location, next: Location, newCost: int)
    requires SearchInv(g, f) && CostBounded(f.costSoFar)
    requires current in f.costSoFar && IsNeighbor(g, current, next)
    requires newCost == f.costSoFar[current] + CostToNeighbor(current, next)
    requires next !in f.costSoFar || newCost < f.costSoFar[next]
    ensures var f' := f.(cameFrom := f.cameFrom[next := current], costSoFar := f.costSoFar[next := newCost]);
      && SearchInv(g, f')
      && CostBounded(f'.costSoFar)
      && Potential(g, f'.costSoFar) < Potential(g, f.costSoFar)
  {
    var cost := f.costSoFar;
    var f' := f.(cameFrom := f.cameFrom[next := current], costSoFar := cost[next := newCost]);
    RecordedInCells(g, f);
    InCells(g, next);
    assert f'.costSoFar.Keys == cost.Keys + {next};
    assert f'.costSoFar.Keys <= Cells(g);
    SubsetSize(f'.costSoFar.Keys, Cells(g));
    assert Recorded(g, f, current);
    assert newCost <= DiagonalCost * (|f'.costSoFar| - 1);
    PotentialShrinks(g, cost, next, newCost);
    assert Recorded(g, f, f.start);
    forall n | n in f'.costSoFar ensures Recorded(g, f', n) {
      if n != next {
        assert Recorded(g, f, n);
      }
    }
  }

  /** The invariant of the scan over the neighbours of `current`: the state
      `f`, `q` has grown from `f0` and the frontier `rest` left by the dequeue,
      and the first `i` neighbours are recorded. */
  ghost predicate ScanInv(g: Grid, f0: Finder, rest: PQ.Queue<Location>, current: Location,
                          ns: seq<Location>, i: int, f: Finder, q: PQ.Queue<Location>)
  {
    && 0 <= i <= |ns|
    && ScanCosts(g, f0, current, f)
    && ScanQueue(g, current, ns, i, f, q)
    && ScanProgress(g, f0, rest, f, q)
  }

  /** The recorded costs during the scan: still a search state with the same
      endpoints, `current` keeps its cost, and the measure has not grown. */
  ghost predicate ScanCosts(g: Grid, f0: Finder, current: Location, f: Finder) {
    && f.start == f0.start && f.goal == f0.goal
    && SearchInv(g, f)
    && current in f.costSoFar && current in f0.costSoFar && f.costSoFar[current] == f0.costSoFar[current]
    && CostBounded(f.costSoFar)
    && Potential(g, f.costSoFar) <= Potential(g, f0.costSoFar)
  }

  /** The frontier during the scan: queued cells are recorded, the goal is
      queued once recorded, recorded cells off the queue other than `current`
      are expanded, and the first `i` neighbours are recorded. */
  ghost predicate ScanQueue(g: Grid, current: Location, ns: seq<Location>, i: int, f: Finder, q: PQ.Queue<Location>) {
    && PQ.Items(q) <= f.costSoFar.Keys
    && (f.goal in f.costSoFar ==> f.goal in PQ.Items(q))
    && (forall n {:trigger Expanded(g, f.costSoFar, n)} :: n in f.costSoFar && n !in PQ.Items(q) && n != current ==> Expanded(g, f.costSoFar, n))
    && (forall j :: 0 <= j < i && j < |ns| ==> ns[j] in f.costSoFar)
  }

  /** Either nothing changed yet or the termination measure went down. */
  ghost predicate ScanProgress(g: Grid, f0: Finder, rest: PQ.Queue<Location>, f: Finder, q: PQ.Queue<Location>) {
    (f.costSoFar == f0.costSoFar && q == rest) || Potential(g, f.costSoFar) < Potential(g, f0.costSoFar)
  }

  /** The body of the main loop after the dequeue: relaxes every neighbour of
      `current`, recording and enqueuing those reached at a lower cost. */
  method ExpandNeighbors(g: Grid, f: Finder, rest: PQ.Queue<Location>, current: Location)
    returns (f': Finder, q': PQ.Queue<Location>)
    requires SearchInv(g, f) && CostBounded(f.costSoFar)
    requires current in f.costSoFar && current != f.goal
    requires PQ.Items(rest) <= f.costSoFar.Keys
    requires f.goal in f.costSoFar ==> f.goal in PQ.Items(rest)
    requires forall n {:trigger Expanded(g, f.costSoFar, n)} :: n in f.costSoFar && n !in PQ.Items(rest) && n != current ==> Expanded(g, f.costSoFar, n)
    ensures FrontierInv(g, f', q')
    ensures f'.start == f.start && f'.goal == f.goal
    ensures (f'.costSoFar == f.costSoFar && q' == rest) || Potential(g, f'.costSoFar) < Potential(g, f.costSoFar)
  {
    var ns := Neighbors(g, current);
    f', q' := f, rest;
    var i := 0;
    while i < |ns|
      invariant ScanInv(g, f, rest, current, ns, i, f', q')
    {
      f', q' := RelaxNeighbor(g, f, rest, current, ns, i, f', q');
      i := i + 1;
    }
    assert Expanded(g, f'.costSoFar, current);
  }

  /** One neighbour `ns[i]` of `current`: when it is new or reached more
      cheaply, its cost and predecessor are recorded and it is queued with
      its cost plus the heuristic as priority. */
  method RelaxNeighbor(g: Grid, f0: Finder, rest: PQ.Queue<Location>, current: Location,
                       ns: seq<Location>, i: int, f: Finder, q: PQ.Queue<Location>)
    returns (f': Finder, q': PQ.Queue<Location>)
    requires ns == Neighbors(g, current) && i < |ns|
    requires ScanInv(g, f0, rest, current, ns, i, f, q)
    ensures ScanInv(g, f0, rest, current, ns, i + 1, f', q')
  {
    var next := ns[i];
    var newCost := f.costSoFar[current] + CostToNeighbor(current, next);
    if next !in f.costSoFar || newCost < f.costSoFar[next] {
      var priority := newCost + Heuristic(next, f0.goal);
      RelaxKeepsScan(g, f0, rest, current, ns, i, f, q, next, newCost, priority);
      q' := PQ.Enqueue(q, next, priority);
      f' := f.(cameFrom := f.cameFrom[next := current], costSoFar := f.costSoFar[next := newCost]);
    } else {
      f', q' := f, q;
    }
  }

  /** Recording and queueing `ns[i]` at a lower cost keeps the scan invariant. */
  lemma RelaxKeepsScan(g: Grid, f0: Finder, rest: PQ.Queue<Location>, current: Location,
                       ns: seq<Location>, i: int, f: Finder, q: PQ.Queue<Location>,
                       next: Location, newCost: int, priority: int)
    requires ns == Neighbors(g, current) && 0 <= i < |ns| && next == ns[i]
    requires ScanInv(g, f0, rest, current, ns, i, f, q)
    requires newCost == f.costSoFar[current] + CostToNeighbor(current, next)
    requires next !in f.costSoFar || newCost < f.costSoFar[next]
    ensures ScanInv(g, f0, rest, current, ns, i + 1,
                    f.(cameFrom := f.cameFrom[next := current], costSoFar := f.costSoFar[next := newCost]),
                    PQ.Enqueue(q, next, priority))
  {
    var f' := f.(cameFrom := f.cameFrom[next := current], costSoFar := f.costSoFar[next := newCost]);
    RelaxKeepsCosts(g, f0, current, f, next, newCost);
    RelaxKeepsQueue(g, current, ns, i, f, q, next, newCost, priority);
  }

  /** The cost side of one relaxation: the search state survives and the
      measure drops below where the scan started. */
  lemma RelaxKeepsCosts(g: Grid, f0: Finder, current: Location, f: Finder, next: Location, newCost: int)
    requires ScanCosts(g, f0, current, f)
    requires IsNeighbor(g, current, next) && next != current
    requires newCost == f.costSoFar[current] + CostToNeighbor(current, next)
    requires next !in f.costSoFar || newCost < f.costSoFar[next]
    ensures var f' := f.(cameFrom := f.cameFrom[next := current], costSoFar := f.costSoFar[next := newCost]);
      ScanCosts(g, f0, current, f') && Potential(g, f'.costSoFar) < Potential(g, f0.costSoFar)
  {
    var f' := f.(cameFrom := f.cameFrom[next := current], costSoFar := f.costSoFar[next := newCost]);
    RelaxStep(g, f, current, next, newCost);
    var before := Potential(g, f.costSoFar);
    assert Potential(g, f'.costSoFar) < before <= Potential(g, f0.costSoFar);
  }

  /** The frontier side of one relaxation: `ns[i]` is recorded and queued. */
  lemma RelaxKeepsQueue(g: Grid, current: Location, ns: seq<Location>, i: int, f: Finder, q: PQ.Queue<Location>,
                        next: Location, newCost: int, priority: int)
    requires ScanQueue(g, current, ns, i, f, q) && 0 <= i < |ns| && next == ns[i]
    ensures ScanQueue(g, current, ns, i + 1,
                      f.(cameFrom := f.cameFrom[next := current], costSoFar := f.costSoFar[next := newCost]),
                      PQ.Enqueue(q, next, priority))
  {
    var f' := f.(cameFrom := f.cameFrom[next := current], costSoFar := f.costSoFar[next := newCost]);
    var q' := PQ.Enqueue(q, next, priority);
    forall n | n in f'.costSoFar && n !in PQ.Items(q') && n != current
      ensures Expanded(g, f'.costSoFar, n)
    {
      assert n in f.costSoFar && n !in PQ.Items(q);
      assert Expanded(g, f.costSoFar, n);
    }
    forall j | 0 <= j < i + 1 && j < |ns| ensures ns[j] in f'.costSoFar {
      if j < i {
        assert ns[j] in f.costSoFar;
      }
    }
  }

  /** The main loop: dequeues least-priority cells and expands them until the
      goal is dequeued or the frontier runs dry. */
  method TryToFindPath(g: Grid, f: Finder, q: PQ.Queue<Location>) returns (found: bool, f': Finder)
    requires FrontierInv(g, f, q)
    ensures SearchInv(g, f')
    ensures f'.start == f.start && f'.goal == f.goal
    ensures found <==> f'.goal in f'.costSoFar
    ensures !found ==> Closed(g, f'.costSoFar)
  {
    var frontier := q;
    f' := f;
    while PQ.Count(frontier) > 0
      invariant FrontierInv(g, f', frontier)
      invariant f'.start == f.start && f'.goal == f.goal
      decreases Potential(g, f'.costSoFar), PQ.Count(frontier)
    {
      var current, rest := PQ.Dequeue(frontier);
      if current == f.goal {
        return true, f';
      }
      f', frontier := ExpandNeighbors(g, f', rest, current);
    }
    return false, f';
  }

  /** The `bool` overload: validates the endpoints, resets the state and runs
      the search. The goal may be a wall; the start may not. */
  method FindPath(g: Grid, f: Finder, start: Location, goal: Location) returns (r: Result<Search, PathError>)
    ensures !InBounds(g, start) ==> r == Failure(StartOutOfBounds)
    ensures InBounds(g, start) && !InBounds(g, goal) ==> r == Failure(GoalOutOfBounds)
    ensures InBounds(g, start) && InBounds(g, goal) && !Passable(g, start) ==> r == Failure(StartImpassable)
    ensures InBounds(g, start) && InBounds(g, goal) && Passable(g, start) ==> r.Success?
    ensures r.Success? ==>
      var s := r.value;
      && SearchInv(g, s.finder)
      && s.finder.start == start && s.finder.goal == goal
      && (s.found <==> goal in s.finder.costSoFar)
      && (!s.found ==> Closed(g, s.finder.costSoFar))
  {
    if !InBounds(g, start) {
      return Failure(StartOutOfBounds);
    }
    if !InBounds(g, goal) {
      return Failure(GoalOutOfBounds);
    }
    if !Passable(g, start) {
      return Failure(StartImpassable);
    }
    var (f1, q) := Init(g, f.(start := start, goal := goal));
    var found, f2 := TryToFindPath(g, f1, q);
    return Success(Search(found, f2));
  }

  /** When the recorded cells are closed under `Neighbors`, every walk from
      the start stays among them. */
  lemma {:induction false} ClosedContainsRoutes(g: Grid, cost: map<Location, int>, p: seq<Location>, start: Location, i: nat)
    requires Closed(g, cost) && start in cost
    requires IsRoute(g, p, start) && i < |p|
    ensures p[i] in cost
  {
    if i > 0 {
      ClosedContainsRoutes(g, cost, p, start, i - 1);
      assert Expanded(g, cost, p[i - 1]);
      assert IsNeighbor(g, p[i - 1], p[i]);
    }
  }

  /** A search that ends without the goal proves the goal unreachable. */
  lemma ClosedMeansUnreachable(g: Grid, cost: map<Location, int>, start: Location, goal: Location)
    requires Closed(g, cost) && start in cost && goal !in cost
    ensures Unreachable(g, start, goal)
  {
    forall p | IsRoute(g, p, start) ensures Last(p) != goal {
      ClosedContainsRoutes(g, cost, p, start, |p| - 1);
    }
  }

  /** Appends to `path` the cells met walking `cameFrom` back from `from` to
      the start. */
  method TracePath(g: Grid, f: Finder, from: Location, path: seq<Location>) returns (path': seq<Location>)
    requires SearchInv(g, f) && from in f.costSoFar
    ensures |path'| > |path| && path'[..|path|] == path
    ensures BackTrace(g, path'[|path|..], from, f.start)
  {
    var t := WalkBack(g, f, from);
    path' := path + t;
    assert path'[|path|..] == t;
  }

  /** The walk back along `cameFrom`: costs fall strictly along it, so it
      ends at the start and repeats no cell. */
  method WalkBack(g: Grid, f: Finder, from: Location) returns (t: seq<Location>)
    requires SearchInv(g, f) && from in f.costSoFar
    ensures BackTrace(g, t, from, f.start)
  {
    var cost := f.costSoFar;
    t := [from];
    var node := from;
    while node != f.start
      invariant |t| > 0 && t[0] == from && Last(t) == node
      invariant forall i :: 0 <= i < |t| ==> t[i] in cost
      invariant forall i :: 0 <= i < |t| - 1 ==> IsNeighbor(g, t[i + 1], t[i])
      invariant forall i :: 0 <= i < |t| ==> cost[node] <= cost[t[i]]
      invariant forall i, j :: 0 <= i < j < |t| ==> t[i] != t[j]
      decreases cost[node]
    {
      assert Recorded(g, f, node);
      var prev := f.cameFrom[node];
      assert forall i :: 0 <= i < |t| ==> cost[prev] < cost[t[i]];
      node := prev;
      t := t + [node];
    }
  }

  /** The recorded cell of least cost, the first one met on ties; `(0, 0)`
      when no cost is below `int.MaxValue`. The map's enumeration order is
      not fixed, so the scan takes the keys in an arbitrary order. */
  method FindClosestToGoal(f: Finder) returns (best: Location)
    ensures (exists n :: n in f.costSoFar && f.costSoFar[n] < IntMaxValue) ==>
      best in f.costSoFar && forall n :: n in f.costSoFar ==> f.costSoFar[best] <= f.costSoFar[n]
    ensures (forall n :: n in f.costSoFar ==> f.costSoFar[n] >= IntMaxValue) ==> best == Location(0, 0)
  {
    var cost := f.costSoFar;
    best := Location(0, 0);
    var bestCost := IntMaxValue;
    var remaining := cost.Keys;
    while remaining != {}
      invariant remaining <= cost.Keys
      invariant forall n :: n in cost && n !in remaining ==> bestCost <= cost[n]
      invariant bestCost <= IntMaxValue
      invariant bestCost < IntMaxValue ==> best in cost && cost[best] == bestCost
      invariant bestCost == IntMaxValue ==> best == Location(0, 0)
      decreases remaining
    {
      var n :| n in remaining;
      if cost[n] < bestCost {
        best, bestCost := n, cost[n];
      }
      remaining := remaining - {n};
    }
  }

  /** Under the search invariant the least recorded cost is the start's. */
  lemma LeastCostIsStart(g: Grid, f: Finder, best: Location)
    requires SearchInv(g, f)
    requires best in f.costSoFar && forall n :: n in f.costSoFar ==> f.costSoFar[best] <= f.costSoFar[n]
    ensures best == f.start
  {
    assert Recorded(g, f, f.start);
    assert Recorded(g, f, best);
  }

  /** A walk back along predecessors: from `from` to `start`, each cell a
      neighbour of the next one, no cell repeated. */
  ghost predicate BackTrace(g: Grid, t: seq<Location>, from: Location, start: Location) {
    && |t| > 0 && t[0] == from && Last(t) == start
    && (forall i :: 0 <= i < |t| - 1 ==> IsNeighbor(g, t[i + 1], t[i]))
    && (forall i, j :: 0 <= i < j < |t| ==> t[i] != t[j])
  }

  /** A back-trace, reversed, is a route from the start to where it began. */
  lemma ReversedTrace(g: Grid, t: seq<Location>, from: Location, start: Location)
    requires BackTrace(g, t, from, start)
    ensures IsRoute(g, Reverse(t), start)
    ensures NoDups(Reverse(t))
    ensures Last(Reverse(t)) == from
    ensures from == start ==> Reverse(t) == [start]
  {
    var route := Reverse(t);
    forall i | 0 <= i < |route| - 1 ensures IsNeighbor(g, route[i], route[i + 1]) {
      assert route[i] == t[|t| - 1 - i] && route[i + 1] == t[|t| - 2 - i];
    }
    forall i, j | 0 <= i < j < |route| ensures route[i] != route[j] {
      assert route[i] == t[|t| - 1 - i] && route[j] == t[|t| - 1 - j];
    }
    if from == start {
      assert |t| == 1;
    }
  }

  /** The list after `Reverse`: the forward route, then the earlier contents reversed. */
  lemma AssembleRoute(g: Grid, prior: seq<Location>, traced: seq<Location>, from: Location, start: Location)
    requires |traced| > |prior| && traced[..|prior|] == prior
    requires BackTrace(g, traced[|prior|..], from, start)
    ensures var full, n := Reverse(traced), |traced| - |prior|;
      && full[n..] == Reverse(prior)
      && IsRoute(g, full[..n], start)
      && NoDups(full[..n])
      && Last(full[..n]) == from
      && (from == start ==> full[..n] == [start])
  {
    var t := traced[|prior|..];
    assert traced == prior + t;
    ReverseAppend(prior, t);
    ReversedTrace(g, t, from, start);
    assert Reverse(traced)[..|t|] == Reverse(t);
  }

  /** Walls are never recorded, except that the start is recorded and passable. */
  lemma RecordedArePassable(g: Grid, f: Finder, n: Location)
    requires SearchInv(g, f)
    ensures n in f.costSoFar ==> Passable(g, n)
  {
    if n in f.costSoFar {
      assert Recorded(g, f, n);
    }
  }

  /** What a finished search promises about the route it returns: a walk
      from the start without repeated cells; it ends at the goal when the
      goal was found, and otherwise is the start alone and no walk reaches
      the goal. */
  ghost predicate Answers(g: Grid, start: Location, goal: Location, found: bool, route: seq<Location>) {
    && IsRoute(g, route, start)
    && NoDups(route)
    && (found ==> Last(route) == goal)
    && (!found ==> route == [start] && Unreachable(g, start, goal))
  }

  /** The list overload: runs the search, traces back from the goal or, when
      it was not found, from the closest recorded cell, and reverses the
      list. The list is not cleared first, so anything it held before ends
      up reversed after the route. */
  method FindPathWithList(g: Grid, f: Finder, start: Location, goal: Location, path: Option<seq<Location>>)
    returns (r: Result<Outcome, PathError>)
    ensures path.None? ==> r == Failure(NullPath)
    ensures path.Some? && !InBounds(g, start) ==> r == Failure(StartOutOfBounds)
    ensures path.Some? && InBounds(g, start) && !InBounds(g, goal) ==> r == Failure(GoalOutOfBounds)
    ensures path.Some? && InBounds(g, start) && InBounds(g, goal) && !Passable(g, start) ==> r == Failure(StartImpassable)
    ensures path.Some? && InBounds(g, start) && InBounds(g, goal) && Passable(g, start) ==> r.Success?
    ensures r.Success? ==>
      var o, prior := r.value, path.value;
      && |o.path| > |prior|
      && o.path[|o.path| - |prior|..] == Reverse(prior)
      && Answers(g, start, goal, o.found, o.path[..|o.path| - |prior|])
      && o.finder.start == start && o.finder.goal == goal
    ensures r.Success? && start == goal ==> r.value.found
    ensures r.Success? && goal in g.walls ==> !r.value.found
  {
    if path.None? {
      return Failure(NullPath);
    }
    var prior := path.value;
    var s := FindPath(g, f, start, goal);
    if s.Failure? {
      return Failure(s.error);
    }
    var found, f' := s.value.found, s.value.finder;
    RecordedArePassable(g, f', goal);
    var list := TraceAndReverse(g, f', found, prior);
    return Success(Outcome(found, list, f'));
  }

  /** After the search: traces back from the goal when it was found, or else
      from the closest recorded cell, appending to `prior`, then reverses
      the whole list. */
  method TraceAndReverse(g: Grid, f: Finder, found: bool, prior: seq<Location>) returns (list: seq<Location>)
    requires SearchInv(g, f)
    requires found <==> f.goal in f.costSoFar
    requires !found ==> Closed(g, f.costSoFar)
    ensures |list| > |prior|
    ensures list[|list| - |prior|..] == Reverse(prior)
    ensures Answers(g, f.start, f.goal, found, list[..|list| - |prior|])
  {
    if found {
      var traced := TracePath(g, f, f.goal, prior);
      AssembleRoute(g, prior, traced, f.goal, f.start);
      list := Reverse(traced);
    } else {
      var closest := FindClosestToGoal(f);
      assert Recorded(g, f, f.start);
      LeastCostIsStart(g, f, closest);
      var traced := TracePath(g, f, closest, prior);
      AssembleRoute(g, prior, traced, f.start, f.start);
      ClosedMeansUnreachable(g, f.costSoFar, f.start, f.goal);
      list := Reverse(traced);
    }
  }
}
