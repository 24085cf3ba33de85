/** A unit's turn logic. A turn is one call of `OnUpdate`; frame timing is
    not modelled. The unit's position is the cell it stands on, and its path
    is the list of cells it follows (one point per cell). */
module Units {
  import opened Wrappers
  import opened Locations
  import opened Seqs

  datatype UnitState = Idle | Wandering | RushingToMarkedCell

  datatype Unit = Unit(state: UnitState, path: Option<seq<Location>>, index: nat, pos: Location)

  /** A turn's result: the new unit, and whether it stepped onto a cell of its
      path (the field then counts it off its old cell and onto the new one). */
  datatype Turn = Turn(unit: Unit, moved: bool)

  function EnterRushingState(u: Unit): (r: Unit)
    ensures r.state == RushingToMarkedCell && r.path.None? && r.index == 0 && r.pos == u.pos
  {
    Unit(RushingToMarkedCell, None, 0, u.pos)
  }

  function ExitRushingState(u: Unit): (r: Unit)
    ensures r.state == Idle && r.path.None? && r.index == 0 && r.pos == u.pos
  {
    Unit(Idle, None, 0, u.pos)
  }

  /** Drops the path but, unlike the two functions above, keeps the state. */
  function EnterIdleState(u: Unit): (r: Unit)
    ensures r.state == u.state && r.path.None? && r.index == 0 && r.pos == u.pos
  {
    u.(path := None, index := 0)
  }

  /** Steps onto the cell at the index and advances it; at the end of the
      path the unit waits, and without a path it only resets the index. */
  function HandleRushingToMarkedCellState(u: Unit): (t: Turn)
    ensures t.unit.state == u.state
    ensures u.path.None? ==> !t.moved && t.unit == u.(index := 0)
    ensures u.path.Some? && u.index < |u.path.value| ==>
      t.moved && t.unit == u.(index := u.index + 1, pos := u.path.value[u.index])
    ensures u.path.Some? && u.index >= |u.path.value| ==> t == Turn(u, false)
  {
    match u.path
    case None => Turn(u.(index := 0), false)
    case Some(p) =>
      if u.index < |p| then Turn(u.(pos := p[u.index], index := u.index + 1), true)
      else Turn(u, false)
  }

  /** Advances along the path; reaching its end, or having lost it, the unit
      turns idle. */
  function HandleWanderingState(u: Unit): (t: Turn)
    ensures u.path.None? ==> !t.moved && t.unit == u.(state := Idle, index := 0)
    ensures u.path.Some? && u.index + 1 >= |u.path.value| ==>
      !t.moved && t.unit == Unit(Idle, None, 0, u.pos)
    ensures u.path.Some? && u.index + 1 < |u.path.value| ==>
      t.moved && t.unit == u.(index := u.index + 1, pos := u.path.value[u.index + 1])
  {
    match u.path
    case None => Turn(u.(index := 0, state := Idle), false)
    case Some(p) =>
      var i := u.index + 1;
      if |p| <= i then Turn(u.(path := None, index := 0, state := Idle), false)
      else Turn(u.(index := i, pos := p[i]), true)
  }

  /** Drops the path and asks for one to a random cell; `request` is the
      answer, `None` when the request returned false. */
  function HandleIdleState(u: Unit, request: Option<seq<Location>>): (t: Turn)
    ensures !t.moved && t.unit.index == 0 && t.unit.pos == u.pos
    ensures request.None? ==> t.unit.state == u.state && t.unit.path.None?
    ensures request.Some? ==> t.unit.state == Wandering && t.unit.path == request
  {
    var cleared := u.(path := None, index := 0);
    match request
    case None => Turn(cleared, false)
    case Some(p) => Turn(cleared.(path := Some(p), state := Wandering), false)
  }

  /** One turn: runs the handler of the current state and no other. */
  function OnUpdate(u: Unit, request: Option<seq<Location>>): (t: Turn)
    ensures u.state == Idle ==> t == HandleIdleState(u, request)
    ensures u.state == Wandering ==> t == HandleWanderingState(u)
    ensures u.state == RushingToMarkedCell ==> t == HandleRushingToMarkedCellState(u)
    ensures !t.moved ==> t.unit.pos == u.pos
    ensures t.moved ==> u.path.Some? && t.unit.pos in u.path.value && t.unit.path == u.path
  {
    match u.state
    case Idle => HandleIdleState(u, request)
    case Wandering => HandleWanderingState(u)
    case RushingToMarkedCell => HandleRushingToMarkedCellState(u)
  }

  /** How the index relates to the path: a wandering unit stands on the cell
      its index points at, a rushing unit has just left the cell before it
      and never runs past the end. */
  ghost predicate WellFormed(u: Unit) {
    && (u.state == Wandering && u.path.Some? ==> u.index < |u.path.value| && u.pos == u.path.value[u.index])
    && (u.state == RushingToMarkedCell && u.path.Some? ==>
          u.index <= |u.path.value| && (u.index > 0 ==> u.pos == u.path.value[u.index - 1]))
  }

  /** A turn keeps a unit well formed, given that a granted request is a path
      that starts on the unit's cell. */
  lemma OnUpdatePreservesWellFormed(u: Unit, request: Option<seq<Location>>)
    requires WellFormed(u)
    requires request.Some? ==> |request.value| > 0 && request.value[0] == u.pos
    ensures WellFormed(OnUpdate(u, request).unit)
  {
  }

  /** A rushing unit at the end of its path stays where it is. */
  lemma RushingWaitsAtEnd(u: Unit, request: Option<seq<Location>>)
    requires u.state == RushingToMarkedCell && u.path.Some? && u.index >= |u.path.value|
    ensures OnUpdate(u, request) == Turn(u, false)
  {
  }

  /** A wandering unit that keeps its path reaches the end of it and turns
      idle after `|path| - index` turns: one step to each cell after the one
      it stands on, then the turn that finds the end. */
  lemma {:induction false} WanderingReachesEnd(u: Unit, request: Option<seq<Location>>)
    requires u.state == Wandering && u.path.Some? && WellFormed(u)
    ensures var k := |u.path.value| - u.index;
      Walk(u, request, k).state == Idle && Walk(u, request, k).path.None?
      && Walk(u, request, k).pos == Last(u.path.value)
    decreases |u.path.value| - u.index
  {
    if u.index + 1 < |u.path.value| {
      WanderingReachesEnd(OnUpdate(u, request).unit, request);
    }
  }

  /** `k` turns in a row, with the same answer to every path request. */
  function Walk(u: Unit, request: Option<seq<Location>>, k: nat): Unit
    decreases k
  {
    if k == 0 then u else Walk(OnUpdate(u, request).unit, request, k - 1)
  }
}
