/** The navigator's reaction to a newly blocked cell. It lives apart from
    the navigator because it hands units whose cell became unreachable to
    the rushing activator, which itself asks the navigator for paths. */
module Replanning {
  import opened Wrappers
  import opened Locations
  import opened SquareGrid
  import opened Seqs
  import opened Scene
  import Units
  import Pathfinder
  import Navigator
  import opened RushingActivator

  /** Blocking `loc` concerns unit `id`: its stored path passes through
      `loc` at or after the unit's current index. */
  ghost predicate Affected(w: World, id: UnitId, loc: Location)
    requires id in w.units && id in w.paths
  {
    && w.paths[id].Some? && loc in w.paths[id].value
    && w.units[id].index <= IndexOf(w.paths[id].value, loc)
  }

  /** Unit `id` keeps the cell it holds, or holds none, as before. */
  ghost predicate SameHold(w: World, w': World, id: UnitId) {
    (id in w'.held <==> id in w.held) && (id in w.held ==> w'.held[id] == w.held[id])
  }

  /** What happens to an affected unit: a wandering one loses its path and
      will go idle; a rushing one standing on an unblocked cell searches
      again for the last cell of its old path, and either follows the new
      complete route from its start or, when that cell is now unreachable,
      is handed back to the activator; anything else is left alone. */
  ghost predicate Replanned(w: World, w': World, id: UnitId)
    requires id in w.units && id in w.paths && w.paths[id].Some? && |w.paths[id].value| > 0
  {
    var u := w.units[id];
    var goal := Last(w.paths[id].value);
    match u.state
    case Wandering =>
      && id in w'.units && id in w'.paths && SameHold(w, w', id)
      && w'.paths[id].None? && w'.units[id] == Units.EnterIdleState(u)
    case RushingToMarkedCell =>
      if u.pos !in w.field.unblocked then Untouched(w, w', id)
      else if Pathfinder.Unreachable(w.field.grid, u.pos, goal) then Attempted(w, w', id)
      else
        && id in w'.units && id in w'.paths && SameHold(w, w', id)
        && w'.paths[id].Some?
        && Navigator.CompleteRoute(w.field.grid, w'.paths[id].value, u.pos, goal)
        && w'.units[id] == u.(path := w'.paths[id], index := 0)
    case Idle => Untouched(w, w', id)
  }

  /** An affected unit goes back to the activator: it rushes from an
      unblocked cell towards a cell that can no longer be reached. */
  ghost predicate HandedBack(w: World, id: UnitId)
    requires id in w.units && id in w.paths && w.paths[id].Some? && |w.paths[id].value| > 0
  {
    var u := w.units[id];
    && u.state == Units.RushingToMarkedCell && u.pos in w.field.unblocked
    && Pathfinder.Unreachable(w.field.grid, u.pos, Last(w.paths[id].value))
  }

  /** Re-plans every unit the blocked cell lies ahead of; units it does not
      concern keep everything. */
  method OnCellBlocked(w: World, loc: Location) returns (w': World)
    requires Scene.Valid(w)
    ensures Scene.Valid(w') && BlockHandled(w, w', loc)
  {
    w' := w;
    var todo := w.paths.Keys;
    while todo != {}
      invariant BlockInv(w, w', loc, todo)
      decreases todo
    {
      var id :| id in todo;
      w' := ReplanStep(w, w', loc, todo, id);
      todo := todo - {id};
    }
  }

  /** What the navigator does when `loc` is blocked. */
  ghost predicate BlockHandled(w: World, w': World, loc: Location)
    requires Scene.Valid(w)
  {
    && w'.field == w.field && w'.rushing == w.rushing && w'.units.Keys == w.units.Keys
    && (forall id :: id in w.units && !(id in w.paths && Affected(w, id, loc)) ==> Untouched(w, w', id))
    && (forall id :: id in w.paths && Affected(w, id, loc) ==> Replanned(w, w', id))
  }

  /** The loop invariant of the loop above. */
  ghost predicate BlockInv(w: World, cur: World, loc: Location, todo: set<UnitId>) {
    && Scene.Valid(w) && todo <= w.paths.Keys
    && Scene.Valid(cur) && cur.field == w.field && cur.rushing == w.rushing
    && cur.units.Keys == w.units.Keys
    && (forall id :: id in w.units && (id in todo || !(id in w.paths && Affected(w, id, loc))) ==> Untouched(w, cur, id))
    && (forall id :: id in w.paths && id !in todo && Affected(w, id, loc) ==> Replanned(w, cur, id))
  }

  /** The body of the loop above for one unit. */
  method ReplanStep(w: World, cur: World, loc: Location, todo: set<UnitId>, id: UnitId) returns (next: World)
    requires BlockInv(w, cur, loc, todo) && id in todo
    ensures BlockInv(w, next, loc, todo - {id})
  {
    assert Untouched(w, cur, id);
    next := ReplanUnit(w, cur, loc, id);
    Processed(w, cur, next, id);
    ReplannedKept(w, cur, next, id);
  }

  /** Re-plans one unit if the blocked cell concerns it. */
  method ReplanUnit(w: World, cur: World, loc: Location, id: UnitId) returns (next: World)
    requires Scene.Valid(w) && Scene.Valid(cur) && cur.field == w.field
    requires id in w.units && id in w.paths && Untouched(w, cur, id)
    ensures Scene.Valid(next) && OnlyUnitChanged(cur, next, id)
    ensures !Affected(w, id, loc) ==> next == cur
    ensures Affected(w, id, loc) ==> Replanned(w, next, id)
    ensures Affected(w, id, loc) && HandedBack(w, id) ==> id in next.held && GaveUpRightly(w, next, id)
  {
    var path := cur.paths[id];
    var u := cur.units[id];
    next := cur;
    if path.Some? && loc in path.value && u.index <= IndexOf(path.value, loc) {
      if u.state == Units.Wandering {
        next := cur.(units := cur.units[id := Units.EnterIdleState(u)], paths := cur.paths[id := None]);
      } else if u.state == Units.RushingToMarkedCell {
        if InBounds(cur.field.grid, u.pos) {
          if u.pos in cur.field.unblocked {
            next := Reroute(cur, id, Last(path.value));
            if Pathfinder.Unreachable(cur.field.grid, u.pos, Last(path.value)) {
              AttemptedSince(w, cur, next, id);
            }
          }
        }
      }
    }
  }

  /** A rushing unit on an unblocked cell searches again for `goal`: it
      follows the new complete route from index 0, or is handed to the
      activator when `goal` cannot be reached. */
  method Reroute(cur: World, id: UnitId, goal: Location) returns (next: World)
    requires Scene.Valid(cur) && id in cur.units
    requires cur.units[id].pos in cur.field.unblocked && InBounds(cur.field.grid, goal)
    ensures Scene.Valid(next) && OnlyUnitChanged(cur, next, id)
    ensures Pathfinder.Unreachable(cur.field.grid, cur.units[id].pos, goal) ==>
      Attempted(cur, next, id) && GaveUpRightly(cur, next, id)
    ensures !Pathfinder.Unreachable(cur.field.grid, cur.units[id].pos, goal) ==>
      && id in next.units && id in next.paths && SameHold(cur, next, id)
      && next.paths[id].Some?
      && Navigator.CompleteRoute(cur.field.grid, next.paths[id].value, cur.units[id].pos, goal)
      && next.units[id] == cur.units[id].(path := next.paths[id], index := 0)
  {
    var u := cur.units[id];
    var found, route, finder := Navigator.Search(cur, u.pos, goal);
    if found {
      next := cur.(finder := finder,
                   paths := cur.paths[id := Some(route)],
                   units := cur.units[id := u.(path := Some(route), index := 0)]);
    } else {
      next := HandleUnachievableMarkedLocation(cur.(finder := finder), id);
    }
  }

  /** Re-planning one unit keeps the outcome for the others. */
  lemma ReplannedKept(w: World, a: World, b: World, id: UnitId)
    requires Scene.Valid(w) && OnlyUnitChanged(a, b, id) && a.field == w.field
    ensures forall p :: p in w.paths && p != id && w.paths[p].Some? && Replanned(w, a, p) ==> Replanned(w, b, p)
  {
    forall p | p in w.paths && p != id && w.paths[p].Some? && Replanned(w, a, p) ensures Replanned(w, b, p) {
      OtherUnchanged(a, b, id, p);
    }
  }
}
