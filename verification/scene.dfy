/** The state shared by the scene's components: the field, the pathfinder's
    fields, the units, the navigator's stored paths and the rushing
    activator's flag and assignments. Event handlers are modelled as
    direct calls that take and return this record. */
module Scene {
  import opened Wrappers
  import opened Locations
  import opened SquareGrid
  import opened Seqs
  import Fields
  import Units
  import Pathfinder

  /** Units are told apart by identity; here by a number. */
  type UnitId = nat

  datatype World = World(
    field: Fields.Field,
    finder: Pathfinder.Finder,
    units: map<UnitId, Units.Unit>,
    /** The navigator's `pathByUnit`; `None` is a cleared path. */
    paths: map<UnitId, Option<seq<Location>>>,
    /** The activator's `unitsAreRushing`. */
    rushing: bool,
    /** The activator's `markedLocationByUnit`. */
    held: map<UnitId, Option<Location>>)

  /** No two units hold the same marked cell. */
  ghost predicate NoSharedMarkedCell(held: map<UnitId, Option<Location>>) {
    forall a, b :: a in held && b in held && a != b && held[a].Some? ==> held[a] != held[b]
  }

  /** `l` is held by some unit. */
  ghost predicate IsHeld(held: map<UnitId, Option<Location>>, l: Location) {
    exists id :: id in held && held[id] == Some(l)
  }

  /** Stored paths are non-empty and inside the grid, as routes from a cell
      of the grid are. */
  ghost predicate StoredPathsInBounds(w: World) {
    forall id :: id in w.paths && w.paths[id].Some? ==>
      |w.paths[id].value| > 0 && forall l :: l in w.paths[id].value ==> InBounds(w.field.grid, l)
  }

  ghost predicate Valid(w: World) {
    && Fields.Valid(w.field)
    && w.paths.Keys <= w.units.Keys
    && w.held.Keys <= w.units.Keys
    && NoSharedMarkedCell(w.held)
    && StoredPathsInBounds(w)
  }

  /** Every unit's index agrees with its path and position. */
  ghost predicate UnitsWellFormed(w: World) {
    forall id :: id in w.units ==> Units.WellFormed(w.units[id])
  }

  /** Every cell of a walk from a cell of the grid is in the grid. */
  lemma RouteInBounds(g: Grid, p: seq<Location>, start: Location)
    requires Pathfinder.IsRoute(g, p, start) && InBounds(g, start)
    ensures forall l :: l in p ==> InBounds(g, l)
  {
    forall l | l in p ensures InBounds(g, l) {
      var i :| 0 <= i < |p| && p[i] == l;
      if i > 0 {
        assert IsNeighbor(g, p[i - 1], p[i]);
      }
    }
  }

  /** Only unit `id`'s entries and the pathfinder's scratch state differ
      between `w` and `w'`. */
  ghost predicate OnlyUnitChanged(w: World, w': World, id: UnitId) {
    && w'.field == w.field && w'.rushing == w.rushing
    && w'.units.Keys == w.units.Keys
    && w'.units - {id} == w.units - {id}
    && w'.paths - {id} == w.paths - {id}
    && w'.held - {id} == w.held - {id}
  }
}
