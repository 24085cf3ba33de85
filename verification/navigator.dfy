/** The navigator: answers the units' path requests with the pathfinder and
    remembers the last path handed to each unit. */
module Navigator {
  import opened Wrappers
  import opened Locations
  import opened SquareGrid
  import opened Seqs
  import opened Scene
  import Fields
  import Units
  import Pathfinder

  /** A complete route from `start` to `goal`. */
  ghost predicate CompleteRoute(g: Grid, p: seq<Location>, start: Location, goal: Location) {
    Pathfinder.IsRoute(g, p, start) && NoDups(p) && Last(p) == goal
  }

  /** What a search from `start` to `goal` stores: a complete route, or the
      start alone when no walk reaches the goal. */
  ghost predicate RouteOrStay(g: Grid, p: seq<Location>, start: Location, goal: Location) {
    CompleteRoute(g, p, start, goal) || (p == [start] && Pathfinder.Unreachable(g, start, goal))
  }

  /** A unit sent towards a cell other than its own stays where it is
      exactly when that cell cannot be reached. */
  lemma StaysOnlyWhenUnreachable(g: Grid, p: seq<Location>, start: Location, goal: Location)
    requires RouteOrStay(g, p, start, goal) && goal != start
    ensures p == [start] <==> Pathfinder.Unreachable(g, start, goal)
  {
    if CompleteRoute(g, p, start, goal) {
      assert Pathfinder.IsRoute(g, p, start) && Last(p) == goal;
    }
  }

  /** Runs the list overload with a fresh list from an unblocked cell to a
      cell of the grid; the search cannot fail with an exception there. */
  method Search(w: World, start: Location, goal: Location) returns (found: bool, route: seq<Location>, finder: Pathfinder.Finder)
    requires Scene.Valid(w) && start in w.field.unblocked && InBounds(w.field.grid, goal)
    ensures Pathfinder.Answers(w.field.grid, start, goal, found, route)
    ensures forall l :: l in route ==> InBounds(w.field.grid, l)
  {
    Fields.UnblockedMeansOpen(w.field, start);
    var r := Pathfinder.FindPathWithList(w.field.grid, w.finder, start, goal, Some([]));
    assert r.Success?;
    found, route, finder := r.value.found, r.value.path, r.value.finder;
    assert route[..|route| - 0] == route;
    RouteInBounds(w.field.grid, route, start);
  }

  /** Asks for a complete path to `goal`. Succeeds, and stores the path for
      the navigator and the unit, only when the unit stands on an unblocked
      cell and the search reaches the goal; a partial path is discarded. */
  method TryRequestPath(w: World, id: UnitId, goal: Location) returns (ok: bool, w': World)
    requires Scene.Valid(w) && id in w.units && InBounds(w.field.grid, goal)
    ensures Scene.Valid(w') && OnlyUnitChanged(w, w', id)
    ensures ok <==> w.units[id].pos in w.field.unblocked && !Pathfinder.Unreachable(w.field.grid, w.units[id].pos, goal)
    ensures ok ==> id in w'.paths && w'.paths[id].Some?
                   && CompleteRoute(w.field.grid, w'.paths[id].value, w.units[id].pos, goal)
                   && w'.units[id] == w.units[id].(path := w'.paths[id])
    ensures !ok ==> w'.units == w.units && w'.paths == w.paths
    ensures w'.held == w.held
  {
    var start := w.units[id].pos;
    if !InBounds(w.field.grid, start) {
      // the unit is not on the field: a warning is logged
      Fields.UnblockedMeansOpen(w.field, start);
      return false, w;
    }
    if start !in w.field.unblocked {
      return false, w;
    }
    var found, route, finder := Search(w, start, goal);
    if found {
      w' := w.(finder := finder,
               paths := w.paths[id := Some(route)],
               units := w.units[id := w.units[id].(path := Some(route))]);
      return true, w';
    }
    return false, w.(finder := finder);
  }

  /** Asks for a path to a random unblocked cell (the draw is a parameter).
      Succeeds whenever the unit stands on an unblocked cell, storing the
      route even when it stops short of the chosen cell. */
  method TryRequestPathToRandomPoint(w: World, id: UnitId, draw: int) returns (ok: bool, w': World)
    requires Scene.Valid(w) && id in w.units
    requires |w.field.unblocked| > 0 ==> 0 <= draw < |w.field.unblocked|
    ensures Scene.Valid(w') && OnlyUnitChanged(w, w', id)
    ensures ok <==> w.units[id].pos in w.field.unblocked
    ensures ok ==> id in w'.paths && w'.paths[id].Some?
                   && Pathfinder.IsRoute(w.field.grid, w'.paths[id].value, w.units[id].pos)
                   && NoDups(w'.paths[id].value)
                   && RouteOrStay(w.field.grid, w'.paths[id].value, w.units[id].pos, w.field.unblocked[draw])
                   && w'.units[id] == w.units[id].(path := w'.paths[id])
    ensures !ok ==> w' == w
    ensures w'.held == w.held
  {
    var start := w.units[id].pos;
    if !InBounds(w.field.grid, start) {
      // the unit is not on the field: a warning is logged
      Fields.UnblockedMeansOpen(w.field, start);
      return false, w;
    }
    if start !in w.field.unblocked {
      return false, w;
    }
    var goal := Fields.PickRandomUnblockedLocation(w.field, draw);
    // the unit's own cell is unblocked, so there is a cell to pick
    assert goal.Some?;
    Fields.UnblockedMeansOpen(w.field, goal.value);
    var found, route, finder := Search(w, start, goal.value);
    w' := w.(finder := finder,
             paths := w.paths[id := Some(route)],
             units := w.units[id := w.units[id].(path := Some(route))]);
    return true, w';
  }

  /** Forgets the path stored for one unit. */
  function ClearPath(w: World, id: UnitId): (w': World)
    requires Scene.Valid(w) && id in w.units
    ensures Scene.Valid(w') && OnlyUnitChanged(w, w', id)
    ensures id in w'.paths && w'.paths[id].None?
    ensures w'.units == w.units && w'.held == w.held && w'.finder == w.finder
  {
    w.(paths := w.paths[id := None])
  }
}
