/** The scene's event wiring as direct calls: a click blocks, unblocks or
    marks a cell and the subscribed handlers run in turn; a unit's turn asks
    the navigator for a path when idle and moves the unit's occupancy with
    it. Every event keeps the world valid, in particular no two units ever
    hold the same marked cell, and keeps every unit well formed. */
module Events {
  import opened Wrappers
  import opened Locations
  import opened SquareGrid
  import opened Seqs
  import opened Scene
  import Fields
  import Units
  import Pathfinder
  import Navigator
  import opened RushingActivator
  import opened Replanning

  /** Blocks a free unblocked cell; the navigator then re-plans. */
  method BlockCell(w: World, loc: Location) returns (w': World)
    requires Scene.Valid(w)
    ensures Scene.Valid(w')
    ensures var (f, fired) := Fields.Block(w.field, loc);
      && w'.field == f
      && (!fired ==> w' == w)
      && (fired ==> Scene.Valid(w.(field := f)) && BlockHandled(w.(field := f), w', loc))
    ensures UnitsWellFormed(w) ==> UnitsWellFormed(w')
  {
    var (f, fired) := Fields.Block(w.field, loc);
    if !fired {
      return w;
    }
    var w1 := w.(field := f);
    w' := OnCellBlocked(w1, loc);
    BlockKeepsWellFormed(w1, w', loc);
  }

  /** The navigator's re-planning keeps every unit well formed. */
  lemma BlockKeepsWellFormed(w: World, w': World, loc: Location)
    requires Scene.Valid(w) && BlockHandled(w, w', loc)
    ensures UnitsWellFormed(w) ==> UnitsWellFormed(w')
  {
    if UnitsWellFormed(w) {
      forall id | id in w'.units ensures Units.WellFormed(w'.units[id]) {
        if id in w.paths && Affected(w, id, loc) {
          assert Replanned(w, w', id);
          var u := w.units[id];
          if u.state == Units.RushingToMarkedCell && u.pos in w.field.unblocked
             && Pathfinder.Unreachable(w.field.grid, u.pos, Last(w.paths[id].value)) {
            assert Attempted(w, w', id);
          }
        } else {
          assert Untouched(w, w', id);
        }
      }
    }
  }

  /** Unblocks a free wall cell; the activator may then assign it. */
  method UnblockCell(w: World, loc: Location) returns (w': World)
    requires Scene.Valid(w)
    ensures Scene.Valid(w')
    ensures var (f, fired) := Fields.Unblock(w.field, loc);
      && w'.field == f
      && (!fired ==> w' == w)
      && (fired && !w.rushing ==> w' == w.(field := f))
      && (fired && w.rushing ==> Reassigned(w.(field := f), w'))
    ensures UnitsWellFormed(w) ==> UnitsWellFormed(w')
  {
    var (f, fired) := Fields.Unblock(w.field, loc);
    if !fired {
      return w;
    }
    var w1 := w.(field := f);
    w' := OnCellUnblocked(w1, loc);
    if w.rushing {
      ReassignedKeepsWellFormed(w1, w');
    }
  }

  /** Toggles the mark of a free cell; the activator reacts to the mark or
      to its removal. */
  method MarkCell(w: World, loc: Location) returns (w': World)
    requires Scene.Valid(w)
    ensures Scene.Valid(w')
    ensures var (f, event) := Fields.Mark(w.field, loc);
      && w'.field == f
      && (event == Fields.NoMarkEvent || !w.rushing ==> w' == w.(field := f))
      && (event == Fields.CellMarked && w.rushing ==> Reassigned(w.(field := f), w'))
      && (event == Fields.CellUnmarked && w.rushing ==> UnmarkHandled(w.(field := f), w', loc))
    ensures UnitsWellFormed(w) ==> UnitsWellFormed(w')
  {
    var (f, event) := Fields.Mark(w.field, loc);
    var w1 := w.(field := f);
    match event
    case NoMarkEvent =>
      w' := w1;
    case CellMarked =>
      w' := OnCellMarked(w1, loc);
      if w.rushing {
        ReassignedKeepsWellFormed(w1, w');
      }
    case CellUnmarked =>
      w' := OnCellUnmarked(w1, loc);
      if w.rushing {
        UnmarkKeepsWellFormed(w1, w', loc);
      }
  }

  /** One turn of unit `id`. An idle unit drops its path and asks for a
      path to the random unblocked cell `draw` picks; the unit then acts on
      its state, and a step moves one unit of occupancy from the cell it
      leaves to the cell it enters. Nothing but that unit, its stored path,
      the occupancy and the pathfinder's scratch state changes. */
  method UnitTurn(w: World, id: UnitId, draw: int) returns (w': World)
    requires Scene.Valid(w) && id in w.units
    requires |w.field.unblocked| > 0 ==> 0 <= draw < |w.field.unblocked|
    ensures Scene.Valid(w')
    ensures w'.held == w.held && w'.rushing == w.rushing
    ensures w'.field.grid == w.field.grid && w'.field.unblocked == w.field.unblocked && w'.field.marked == w.field.marked
    ensures w'.units.Keys == w.units.Keys && w'.units - {id} == w.units - {id} && w'.paths - {id} == w.paths - {id}
    ensures w.units[id].state != Units.Idle ==> w'.units[id] == Units.OnUpdate(w.units[id], None).unit
    ensures w.units[id].state != Units.Idle || w.units[id].pos !in w.field.unblocked ==> w'.paths == w.paths
    ensures w.units[id].state == Units.Idle ==>
      && w'.units[id].pos == w.units[id].pos && w'.units[id].index == 0
      && (w'.units[id].state == Units.Wandering <==> w.units[id].pos in w.field.unblocked)
      && (w'.units[id].state == Units.Wandering ==>
            && id in w'.paths && w'.units[id].path == w'.paths[id] && w'.paths[id].Some?
            && Pathfinder.IsRoute(w.field.grid, w'.paths[id].value, w.units[id].pos)
            && Navigator.RouteOrStay(w.field.grid, w'.paths[id].value, w.units[id].pos, w.field.unblocked[draw]))
      && (w'.units[id].state == Units.Idle ==> w'.units[id].path.None?)
    ensures var a, b := w.units[id].pos, w'.units[id].pos;
      && (a == b ==> w'.field.occupancy == w.field.occupancy)
      && (a != b && InBounds(w.field.grid, a) ==> w'.field.occupancy[a] == w.field.occupancy[a] - 1)
      && (a != b && InBounds(w.field.grid, b) ==> w'.field.occupancy[b] == w.field.occupancy[b] + 1)
      && (forall l :: l in w.field.occupancy && l != a && l != b ==> w'.field.occupancy[l] == w.field.occupancy[l])
    ensures UnitsWellFormed(w) ==> UnitsWellFormed(w')
  {
    var u := w.units[id];
    var w1, request := RequestIfIdle(w, id, draw);
    w' := Act(w1, id, u, request);
    if UnitsWellFormed(w) {
      Units.OnUpdatePreservesWellFormed(u, request);
      OthersWellFormed(w, w', id);
    }
  }

  /** The unit `u` acts on its state with what its request returned; its
      new self replaces it, and a step moves one unit of occupancy. */
  method Act(w: World, id: UnitId, u: Units.Unit, request: Option<seq<Location>>) returns (w': World)
    requires Scene.Valid(w) && id in w.units && w.units[id].pos == u.pos
    ensures Scene.Valid(w')
    ensures w'.held == w.held && w'.rushing == w.rushing && w'.paths == w.paths
    ensures w'.field.grid == w.field.grid && w'.field.unblocked == w.field.unblocked && w'.field.marked == w.field.marked
    ensures w'.units.Keys == w.units.Keys && w'.units - {id} == w.units - {id}
    ensures w'.units[id] == Units.OnUpdate(u, request).unit
    ensures var a, b := u.pos, w'.units[id].pos;
      && (a == b ==> w'.field.occupancy == w.field.occupancy)
      && (a != b && InBounds(w.field.grid, a) ==> w'.field.occupancy[a] == w.field.occupancy[a] - 1)
      && (a != b && InBounds(w.field.grid, b) ==> w'.field.occupancy[b] == w.field.occupancy[b] + 1)
      && (forall l :: l in w.field.occupancy && l != a && l != b ==> w'.field.occupancy[l] == w.field.occupancy[l])
  {
    var t := Units.OnUpdate(u, request);
    var f := if t.moved then MoveOccupant(w.field, u.pos, t.unit.pos) else w.field;
    w' := w.(field := f, units := w.units[id := t.unit]);
  }

  /** When only unit `id` changed and it is well formed, all units are. */
  lemma OthersWellFormed(w: World, w': World, id: UnitId)
    requires UnitsWellFormed(w) && w'.units.Keys == w.units.Keys && w'.units - {id} == w.units - {id}
    requires id in w'.units && Units.WellFormed(w'.units[id])
    ensures UnitsWellFormed(w')
  {
    forall other | other in w'.units ensures Units.WellFormed(w'.units[other]) {
      if other != id {
        assert other in w.units - {id};
      }
    }
  }

  /** The idle unit's request: drops the unit's path and asks the navigator
      for one; `request` is what the unit is given, `None` when the request
      returned false. Other states ask for nothing. */
  method RequestIfIdle(w: World, id: UnitId, draw: int) returns (w': World, request: Option<seq<Location>>)
    requires Scene.Valid(w) && id in w.units
    requires |w.field.unblocked| > 0 ==> 0 <= draw < |w.field.unblocked|
    ensures Scene.Valid(w') && w'.field == w.field && w'.held == w.held && w'.rushing == w.rushing
    ensures w'.units.Keys == w.units.Keys && w'.units - {id} == w.units - {id} && w'.paths - {id} == w.paths - {id}
    ensures w'.units[id].pos == w.units[id].pos
    ensures w.units[id].state != Units.Idle ==> request.None? && w' == w
    ensures w.units[id].state != Units.Idle || w.units[id].pos !in w.field.unblocked ==> w'.paths == w.paths
    ensures w.units[id].state == Units.Idle ==>
      && (request.Some? <==> w.units[id].pos in w.field.unblocked)
      && (request.Some? ==>
            && id in w'.paths && request == w'.paths[id]
            && Pathfinder.IsRoute(w.field.grid, request.value, w.units[id].pos)
            && Navigator.RouteOrStay(w.field.grid, request.value, w.units[id].pos, w.field.unblocked[draw]))
  {
    var u := w.units[id];
    request := None;
    w' := w;
    if u.state == Units.Idle {
      var w0 := w.(units := w.units[id := u.(path := None, index := 0)]);
      var ok;
      ok, w' := Navigator.TryRequestPathToRandomPoint(w0, id, draw);
      if ok {
        request := w'.paths[id];
      }
      assert w0.units - {id} == w.units - {id};
    }
  }

  /** A step from `a` to `b`: leaves `a` and enters `b`, each only when it
      is a cell of the grid. */
  function MoveOccupant(f: Fields.Field, a: Location, b: Location): (f': Fields.Field)
    requires Fields.Valid(f)
    ensures Fields.Valid(f')
    ensures f'.grid == f.grid && f'.unblocked == f.unblocked && f'.marked == f.marked
    ensures a == b ==> f'.occupancy == f.occupancy
    ensures a != b && InBounds(f.grid, a) ==> f'.occupancy[a] == f.occupancy[a] - 1
    ensures a != b && InBounds(f.grid, b) ==> f'.occupancy[b] == f.occupancy[b] + 1
    ensures forall l :: l in f.occupancy && l != a && l != b ==> f'.occupancy[l] == f.occupancy[l]
  {
    var left := if InBounds(f.grid, a) then Fields.Unoccupy(f, a) else f;
    var entered := if InBounds(f.grid, b) then Fields.Occupy(left, b) else left;
    assert a == b && InBounds(f.grid, a) ==> entered.occupancy == f.occupancy;
    entered
  }
}
