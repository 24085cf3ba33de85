/** The rushing activator: while rushing is on, matches units without a
    marked cell to marked, unblocked cells nobody holds, sending each unit
    to the first candidate it has a complete route to. */
module RushingActivator {
  import opened Wrappers
  import opened Locations
  import opened SquareGrid
  import opened Seqs
  import opened Scene
  import Fields
  import Units
  import Pathfinder
  import Navigator

  /** A cell a unit may be sent to: marked, unblocked and held by nobody. */
  ghost predicate Available(w: World, l: Location) {
    l in w.field.marked && l in w.field.unblocked && !IsHeld(w.held, l)
  }

  /** A path request from unit `id` to `l` fails in `w`. */
  ghost predicate CannotReach(w: World, id: UnitId, l: Location)
    requires id in w.units
  {
    var start := w.units[id].pos;
    start !in w.field.unblocked || Pathfinder.Unreachable(w.field.grid, start, l)
  }

  /** Unit `id` was put into the rushing state with a cleared path and then
      sent, if at all, to a marked unblocked cell along a complete route. */
  ghost predicate Attempted(w: World, w': World, id: UnitId)
    requires id in w.units
  {
    && id in w'.units && id in w'.paths && id in w'.held
    && w'.units[id].state == Units.RushingToMarkedCell
    && w'.units[id].pos == w.units[id].pos && w'.units[id].index == 0
    && w'.units[id].path == w'.paths[id]
    && match w'.held[id]
       case None => w'.paths[id].None?
       case Some(l) =>
         && l in w.field.marked && l in w.field.unblocked && w'.paths[id].Some?
         && Navigator.CompleteRoute(w.field.grid, w'.paths[id].value, w.units[id].pos, l)
  }

  /** A unit left without a cell can reach none of the cells still free. */
  ghost predicate GaveUpRightly(w: World, w': World, id: UnitId)
    requires id in w.units && id in w'.held
  {
    w'.held[id].None? ==> forall l :: Available(w', l) ==> CannotReach(w, id, l)
  }

  /** Unit `id`'s entries are the same in `w` and `w'`. */
  ghost predicate Untouched(w: World, w': World, id: UnitId)
    requires id in w.units
  {
    && id in w'.units && w'.units[id] == w.units[id]
    && (id in w'.paths <==> id in w.paths) && (id in w.paths ==> w'.paths[id] == w.paths[id])
    && (id in w'.held <==> id in w.held) && (id in w.held ==> w'.held[id] == w.held[id])
  }

  /** Drops the cells some unit holds, keeping the order of the rest. */
  function WithoutHeld(s: seq<Location>, held: map<UnitId, Option<Location>>): (r: seq<Location>)
    ensures forall l :: l in r <==> l in s && !IsHeld(held, l)
    ensures NoDups(s) ==> NoDups(r)
  {
    if |s| == 0 then []
    else
      var rest := WithoutHeld(s[1..], held);
      if Some(s[0]) in held.Values then rest
      else
        assert forall l :: l in s[1..] ==> l in s;
        assert NoDups(s) ==> s[0] !in rest && NoDups(s[1..]);
        assert forall i :: 0 < i <= |rest| ==> ([s[0]] + rest)[i] == rest[i - 1];
        [s[0]] + rest
  }

  /** The candidate list: marked unblocked cells in random order, without
      the cells already held. */
  method Candidates(w: World) returns (c: seq<Location>)
    requires Scene.Valid(w)
    ensures NoDups(c)
    ensures forall l :: l in c <==> Available(w, l)
  {
    var sorted := Fields.GetUnblockedMarkedLocationsRandomlySorted(w.field);
    c := WithoutHeld(sorted, w.held);
  }

  /** Taking a free cell for a unit without one removes exactly that cell
      from the free ones. */
  lemma AvailableAfterTake(a: World, b: World, id: UnitId, c: Location)
    requires b.field == a.field && id in a.held && a.held[id].None?
    requires b.held == a.held[id := Some(c)]
    ensures forall l :: Available(b, l) <==> Available(a, l) && l != c
  {
    forall l ensures IsHeld(b.held, l) <==> IsHeld(a.held, l) || l == c {
      if IsHeld(a.held, l) {
        var k :| k in a.held && a.held[k] == Some(l);
        assert k != id && b.held[k] == Some(l);
      }
      if IsHeld(b.held, l) && l != c {
        var k :| k in b.held && b.held[k] == Some(l);
        assert a.held[k] == Some(l);
      }
      assert b.held[id] == Some(c);
    }
  }

  /** Giving a unit a cell nobody holds keeps the cells unshared. */
  lemma TakeKeepsUnshared(held: map<UnitId, Option<Location>>, id: UnitId, l: Location)
    requires NoSharedMarkedCell(held) && !IsHeld(held, l)
    ensures NoSharedMarkedCell(held[id := Some(l)])
  {
    var h := held[id := Some(l)];
    forall a, b | a in h && b in h && a != b && h[a].Some? ensures h[a] != h[b] {
      if a == id {
        assert b in held && held[b] == h[b];
      } else if b == id {
        assert a in held && held[a] == h[a];
      }
    }
  }

  /** Clears the unit's stored path and puts it into the rushing state. */
  function ResetToRushing(w: World, id: UnitId): (w': World)
    requires Scene.Valid(w) && id in w.units
    ensures Scene.Valid(w') && OnlyUnitChanged(w, w', id)
    ensures w'.held == w.held && w'.finder == w.finder
    ensures id in w'.paths && w'.paths[id].None?
    ensures w'.units[id].state == Units.RushingToMarkedCell && w'.units[id].path.None?
    ensures w'.units[id].index == 0 && w'.units[id].pos == w.units[id].pos
  {
    var w1 := Navigator.ClearPath(w, id);
    w1.(units := w1.units[id := Units.EnterRushingState(w1.units[id])])
  }

  /** The inner loop: requests a path to each candidate in turn and takes
      the first one the request succeeds for. */
  method SendToFirstReachable(w: World, id: UnitId, cands: seq<Location>) returns (w': World, pick: Option<nat>)
    requires Scene.Valid(w) && id in w.units && id in w.held && w.held[id].None?
    requires forall l :: l in cands ==> Available(w, l)
    ensures Scene.Valid(w') && OnlyUnitChanged(w, w', id)
    ensures pick.None? ==>
      && w'.units == w.units && w'.paths == w.paths && w'.held == w.held
      && forall l :: l in cands ==> CannotReach(w, id, l)
    ensures pick.Some? ==>
      && pick.value < |cands|
      && (forall j :: 0 <= j < pick.value ==> CannotReach(w, id, cands[j]))
      && w'.held == w.held[id := Some(cands[pick.value])]
      && id in w'.paths && w'.paths[id].Some?
      && Navigator.CompleteRoute(w.field.grid, w'.paths[id].value, w.units[id].pos, cands[pick.value])
      && w'.units[id] == w.units[id].(path := w'.paths[id])
  {
    var k := 0;
    w' := w;
    while k < |cands|
      invariant 0 <= k <= |cands|
      invariant Scene.Valid(w')
      invariant w'.units == w.units && w'.paths == w.paths && w'.held == w.held
      invariant w'.field == w.field && w'.rushing == w.rushing
      invariant forall j :: 0 <= j < k ==> CannotReach(w, id, cands[j])
    {
      var l := cands[k];
      assert Available(w, l);
      var ok, w1 := Navigator.TryRequestPath(w', id, l);
      if ok {
        TakeKeepsUnshared(w.held, id, l);
        w' := w1.(held := w1.held[id := Some(l)]);
        return w', Some(k);
      }
      w' := w1;
      k := k + 1;
    }
    return w', None;
  }

  /** Assigns a free marked cell to every unit that holds none, each unit
      taking the first candidate it has a complete route to; units that
      hold a cell, and units unknown to the activator, are left alone. */
  method SetMarkedCellForUnitsWithoutMarkedCell(w: World) returns (w': World)
    requires Scene.Valid(w)
    ensures Scene.Valid(w') && Reassigned(w, w')
  {
    var cands := Candidates(w);
    var todo := w.held.Keys;
    w' := w;
    while todo != {}
      invariant PassInv(w, w', cands, todo)
      decreases todo
    {
      var id :| id in todo;
      w', cands := Step(w, w', cands, todo, id);
      todo := todo - {id};
    }
  }

  /** What one assignment pass does: units holding a cell, and units
      unknown to the activator, keep everything; every unit without a cell
      is attempted and, if it stays without one, can reach no free cell. */
  ghost predicate Reassigned(w: World, w': World) {
    && w.held.Keys <= w.units.Keys
    && w'.field == w.field && w'.rushing == w.rushing
    && w'.units.Keys == w.units.Keys && w'.held.Keys == w.held.Keys
    && (forall id :: id in w.units && (id !in w.held || w.held[id].Some?) ==> Untouched(w, w', id))
    && (forall id :: id in w.held && w.held[id].None? ==> Attempted(w, w', id) && GaveUpRightly(w, w', id))
  }

  /** The loop invariant of the pass: the units still to visit are as they
      were, the visited ones without a cell were attempted, and the
      candidate list holds exactly the cells still free. */
  ghost predicate PassInv(w: World, cur: World, cands: seq<Location>, todo: set<UnitId>) {
    && w.held.Keys <= w.units.Keys && todo <= w.held.Keys
    && Scene.Valid(cur)
    && cur.field == w.field && cur.rushing == w.rushing
    && cur.units.Keys == w.units.Keys && cur.held.Keys == w.held.Keys
    && NoDups(cands) && (forall l :: l in cands <==> Available(cur, l))
    && (forall id :: id in w.units && (id !in w.held || id in todo || w.held[id].Some?) ==> Untouched(w, cur, id))
    && (forall id :: id in w.held && id !in todo && w.held[id].None? ==> Attempted(w, cur, id) && GaveUpRightly(w, cur, id))
  }

  /** The body of the loop above for one unit. */
  method Step(w: World, cur: World, cands: seq<Location>, todo: set<UnitId>, id: UnitId)
    returns (cur': World, cands': seq<Location>)
    requires PassInv(w, cur, cands, todo) && id in todo
    ensures PassInv(w, cur', cands', todo - {id})
  {
    assert Untouched(w, cur, id);
    if cur.held[id].None? {
      cur', cands' := Attempt(w, cur, cands, id);
      StepKeepsInv(w, cur, cur', cands', todo, id);
    } else {
      cur', cands' := cur, cands;
    }
  }

  /** Resets one unit without a cell and sends it to the first candidate it
      can reach, dropping that candidate from the list. */
  method Attempt(w: World, cur: World, cands: seq<Location>, id: UnitId)
    returns (cur': World, cands': seq<Location>)
    requires Scene.Valid(cur) && id in w.units && id in cur.units && id in cur.held && cur.held[id].None?
    requires cur.units[id].pos == w.units[id].pos && cur.field == w.field
    requires NoDups(cands) && forall l :: l in cands <==> Available(cur, l)
    ensures Scene.Valid(cur') && OnlyUnitChanged(cur, cur', id) && cur'.held.Keys == cur.held.Keys
    ensures forall l :: Available(cur', l) ==> Available(cur, l)
    ensures NoDups(cands') && forall l :: l in cands' <==> Available(cur', l)
    ensures Attempted(w, cur', id) && GaveUpRightly(w, cur', id)
  {
    var w1 := ResetToRushing(cur, id);
    var w2, pick := SendToFirstReachable(w1, id, cands);
    cur' := w2;
    if pick.Some? {
      var c := cands[pick.value];
      AvailableAfterTake(cur, w2, id, c);
      RemoveFirstNoDups(cands, c);
      cands' := RemoveFirst(cands, c);
      assert Available(cur, c);
    } else {
      cands' := cands;
      assert forall l :: Available(w2, l) ==> Available(cur, l);
      assert forall l :: CannotReach(w1, id, l) ==> CannotReach(w, id, l);
    }
  }

  lemma StepKeepsInv(w: World, cur: World, cur': World, cands': seq<Location>, todo: set<UnitId>, id: UnitId)
    requires exists cands :: PassInv(w, cur, cands, todo)
    requires id in todo && cur.held[id].None?
    requires Scene.Valid(cur') && OnlyUnitChanged(cur, cur', id) && cur'.held.Keys == cur.held.Keys
    requires forall l :: Available(cur', l) ==> Available(cur, l)
    requires NoDups(cands') && forall l :: l in cands' <==> Available(cur', l)
    requires Attempted(w, cur', id) && GaveUpRightly(w, cur', id)
    ensures PassInv(w, cur', cands', todo - {id})
  {
    Processed(w, cur, cur', id);
    ProcessedGaveUp(w, cur, cur', id);
  }

  /** A step that changes only unit `id` keeps every other unit's entries. */
  lemma OtherUnchanged(a: World, b: World, id: UnitId, p: UnitId)
    requires OnlyUnitChanged(a, b, id) && p != id
    ensures (p in b.units <==> p in a.units) && (p in a.units ==> b.units[p] == a.units[p])
    ensures (p in b.paths <==> p in a.paths) && (p in a.paths ==> b.paths[p] == a.paths[p])
    ensures (p in b.held <==> p in a.held) && (p in a.held ==> b.held[p] == a.held[p])
  {
    assert p in a.units - {id} <==> p in b.units - {id};
    assert p in a.units - {id} ==> (a.units - {id})[p] == (b.units - {id})[p];
    assert p in a.paths - {id} <==> p in b.paths - {id};
    assert p in a.paths - {id} ==> (a.paths - {id})[p] == (b.paths - {id})[p];
    assert p in a.held - {id} <==> p in b.held - {id};
    assert p in a.held - {id} ==> (a.held - {id})[p] == (b.held - {id})[p];
  }

  /** One step of a loop over the units keeps what it established about
      the other units. */
  lemma Processed(w: World, a: World, b: World, id: UnitId)
    requires OnlyUnitChanged(a, b, id) && a.field == w.field
    ensures forall p :: p in w.units && p != id && Attempted(w, a, p) ==> Attempted(w, b, p)
    ensures forall p :: p in w.units && p != id && Untouched(w, a, p) ==> Untouched(w, b, p)
  {
    forall p | p in w.units && p != id && Attempted(w, a, p) ensures Attempted(w, b, p) {
      OtherUnchanged(a, b, id, p);
    }
    forall p | p in w.units && p != id && Untouched(w, a, p) ensures Untouched(w, b, p) {
      OtherUnchanged(a, b, id, p);
    }
  }

  /** ... and, when no cell became free, that the units left without a
      cell could reach none. */
  lemma ProcessedGaveUp(w: World, a: World, b: World, id: UnitId)
    requires OnlyUnitChanged(a, b, id)
    requires forall l :: Available(b, l) ==> Available(a, l)
    ensures forall p :: p in w.units && p != id && p in a.held && GaveUpRightly(w, a, p) ==> p in b.held && GaveUpRightly(w, b, p)
  {
    forall p | p in w.units && p != id && p in a.held && GaveUpRightly(w, a, p)
      ensures p in b.held && GaveUpRightly(w, b, p)
    {
      OtherUnchanged(a, b, id, p);
    }
  }

  // ------------------------------------------------------------ handlers

  /** Dropping a unit's cell keeps the cells unshared and frees exactly
      that cell. */
  lemma ReleaseKeepsUnshared(held: map<UnitId, Option<Location>>, id: UnitId)
    requires NoSharedMarkedCell(held)
    ensures NoSharedMarkedCell(held[id := None])
    ensures forall l :: IsHeld(held[id := None], l) <==> IsHeld(held, l) && !(id in held && held[id] == Some(l))
  {
    var h := held[id := None];
    forall l ensures IsHeld(h, l) <==> IsHeld(held, l) && !(id in held && held[id] == Some(l)) {
      if IsHeld(held, l) && !(id in held && held[id] == Some(l)) {
        var k :| k in held && held[k] == Some(l);
        assert k != id && h[k] == Some(l);
      }
    }
  }

  /** A unit judged against an intermediate world that agrees with `w` on
      the field and on its position is judged the same against `w`. */
  lemma AttemptedSince(w: World, mid: World, w': World, id: UnitId)
    requires id in w.units && id in mid.units && id in w'.held
    requires mid.field == w.field && mid.units[id].pos == w.units[id].pos
    requires Attempted(mid, w', id) && GaveUpRightly(mid, w', id)
    ensures Attempted(w, w', id) && GaveUpRightly(w, w', id)
  {
    assert forall l :: CannotReach(mid, id, l) ==> CannotReach(w, id, l);
  }

  /** The unit's search failed: it gives up its cell and tries every free
      cell, its old one included, in random order. */
  method HandleUnachievableMarkedLocation(w: World, id: UnitId) returns (w': World)
    requires Scene.Valid(w) && id in w.units
    ensures Scene.Valid(w') && OnlyUnitChanged(w, w', id)
    ensures w'.held.Keys == w.held.Keys + {id}
    ensures Attempted(w, w', id) && GaveUpRightly(w, w', id)
  {
    ReleaseKeepsUnshared(w.held, id);
    var w0 := w.(held := w.held[id := None]);
    var cands := Candidates(w0);
    var cands';
    w', cands' := Attempt(w, w0, cands, id);
    assert w0.held - {id} == w.held - {id};
  }

  /** A newly created unit is registered without a cell. */
  function OnUnitCreated(w: World, id: UnitId): (w': World)
    requires Scene.Valid(w) && id in w.units && id !in w.held
    ensures Scene.Valid(w')
    ensures w'.held.Keys == w.held.Keys + {id} && w'.held[id].None?
    ensures forall other :: other in w.held ==> w'.held[other] == w.held[other]
    ensures forall l :: IsHeld(w'.held, l) <==> IsHeld(w.held, l)
    ensures w'.field == w.field && w'.units == w.units && w'.paths == w.paths && w'.rushing == w.rushing
  {
    ReleaseKeepsUnshared(w.held, id);
    w.(held := w.held[id := None])
  }

  /** A new mark may serve a unit without a cell. */
  method OnCellMarked(w: World, loc: Location) returns (w': World)
    requires Scene.Valid(w)
    ensures Scene.Valid(w')
    ensures !w.rushing ==> w' == w
    ensures w.rushing ==> Reassigned(w, w')
  {
    if !w.rushing {
      return w;
    }
    w' := SetMarkedCellForUnitsWithoutMarkedCell(w);
  }

  /** A cell freed of its wall may serve a unit without a cell. */
  method OnCellUnblocked(w: World, loc: Location) returns (w': World)
    requires Scene.Valid(w)
    ensures Scene.Valid(w')
    ensures !w.rushing ==> w' == w
    ensures w.rushing ==> Reassigned(w, w')
  {
    if !w.rushing {
      return w;
    }
    w' := SetMarkedCellForUnitsWithoutMarkedCell(w);
  }

  /** Clears the unit's path, puts it into the rushing state and takes its
      cell away. */
  function Release(w: World, id: UnitId): (w': World)
    requires Scene.Valid(w) && id in w.units
    ensures Scene.Valid(w') && OnlyUnitChanged(w, w', id)
    ensures w'.held.Keys == w.held.Keys + {id} && w'.held[id].None?
    ensures w'.units[id].pos == w.units[id].pos
    ensures forall l :: IsHeld(w'.held, l) ==> IsHeld(w.held, l)
  {
    var w1 := ResetToRushing(w, id);
    ReleaseKeepsUnshared(w1.held, id);
    var w' := w1.(held := w1.held[id := None]);
    assert w'.held - {id} == w1.held - {id};
    w'
  }

  /** What unmarking `loc` does while rushing: nobody holds `loc` any
      more; units that held it or held nothing are attempted afresh; the
      rest keep everything. */
  ghost predicate UnmarkHandled(w: World, w': World, loc: Location) {
    && w.held.Keys <= w.units.Keys
    && w'.field == w.field && w'.rushing == w.rushing
    && w'.units.Keys == w.units.Keys && w'.held.Keys == w.held.Keys
    && (forall id :: id in w'.held ==> w'.held[id] != Some(loc))
    && (forall id :: id in w.units && (id !in w.held || (w.held[id].Some? && w.held[id] != Some(loc))) ==> Untouched(w, w', id))
    && (forall id :: id in w.held && (w.held[id].None? || w.held[id] == Some(loc)) ==> Attempted(w, w', id) && GaveUpRightly(w, w', id))
  }

  /** An unmarked cell is taken from every unit holding it, and those units
      join the ones without a cell in a new assignment pass. */
  method OnCellUnmarked(w: World, loc: Location) returns (w': World)
    requires Scene.Valid(w) && loc !in w.field.marked
    ensures Scene.Valid(w')
    ensures !w.rushing ==> w' == w
    ensures w.rushing ==> UnmarkHandled(w, w', loc)
  {
    if !w.rushing {
      return w;
    }
    var mid := w;
    var todo := w.held.Keys;
    while todo != {}
      invariant ReleaseInv(w, mid, loc, todo)
      decreases todo
    {
      var id :| id in todo;
      mid := ReleaseStep(w, mid, loc, todo, id);
      todo := todo - {id};
    }
    w' := SetMarkedCellForUnitsWithoutMarkedCell(mid);
    UnmarkComposed(w, mid, w', loc);
  }

  /** The loop invariant of the release loop above. */
  ghost predicate ReleaseInv(w: World, mid: World, loc: Location, todo: set<UnitId>) {
    && w.held.Keys <= w.units.Keys && todo <= w.held.Keys
    && Scene.Valid(mid) && mid.field == w.field && mid.rushing == w.rushing
    && mid.units.Keys == w.units.Keys && mid.held.Keys == w.held.Keys
    && (forall id :: id in w.units && (id in todo || id !in w.held || w.held[id] != Some(loc)) ==> Untouched(w, mid, id))
    && (forall id :: id in w.held && id !in todo && w.held[id] == Some(loc) ==>
          id in mid.units && id in mid.held && mid.held[id].None? && mid.units[id].pos == w.units[id].pos)
  }

  /** The body of the release loop for one unit. */
  method ReleaseStep(w: World, mid: World, loc: Location, todo: set<UnitId>, id: UnitId) returns (next: World)
    requires ReleaseInv(w, mid, loc, todo) && id in todo
    ensures ReleaseInv(w, next, loc, todo - {id})
  {
    assert Untouched(w, mid, id);
    if mid.held[id] == Some(loc) {
      next := Release(mid, id);
      ReleasedKeepsInv(w, mid, next, loc, todo, id);
    } else {
      next := mid;
    }
  }

  /** Releasing one holder of `loc` keeps the invariant of the release loop. */
  lemma ReleasedKeepsInv(w: World, mid: World, next: World, loc: Location, todo: set<UnitId>, id: UnitId)
    requires ReleaseInv(w, mid, loc, todo) && id in todo && mid.held[id] == Some(loc)
    requires Scene.Valid(next) && OnlyUnitChanged(mid, next, id)
    requires next.held.Keys == mid.held.Keys + {id} && next.held[id].None?
    requires next.units[id].pos == mid.units[id].pos
    ensures ReleaseInv(w, next, loc, todo - {id})
  {
    assert Untouched(w, mid, id);
    forall p | p in w.units && (p in todo - {id} || p !in w.held || w.held[p] != Some(loc))
      ensures Untouched(w, next, p)
    {
      OtherUnchanged(mid, next, id, p);
    }
    forall p | p in w.held && p !in todo - {id} && w.held[p] == Some(loc)
      ensures p in next.units && p in next.held && next.held[p].None? && next.units[p].pos == w.units[p].pos
    {
      if p != id {
        OtherUnchanged(mid, next, id, p);
      }
    }
  }

  /** The release loop followed by an assignment pass handles the unmark. */
  lemma UnmarkComposed(w: World, mid: World, w': World, loc: Location)
    requires ReleaseInv(w, mid, loc, {}) && loc !in w.field.marked
    requires Reassigned(mid, w')
    ensures UnmarkHandled(w, w', loc)
  {
    UnmarkReleasedAttempted(w, mid, w', loc);
    UnmarkNobodyHolds(w, mid, w', loc);
    forall id | id in w.units && (id !in w.held || (w.held[id].Some? && w.held[id] != Some(loc)))
      ensures Untouched(w, w', id)
    {
      assert Untouched(w, mid, id);
    }
  }

  /** ... the former holders of the cell, and the units holding nothing,
      were attempted afresh ... */
  lemma UnmarkReleasedAttempted(w: World, mid: World, w': World, loc: Location)
    requires ReleaseInv(w, mid, loc, {}) && Reassigned(mid, w')
    ensures forall id :: id in w.held && (w.held[id].None? || w.held[id] == Some(loc)) ==>
      Attempted(w, w', id) && GaveUpRightly(w, w', id)
  {
    forall id | id in w.held && (w.held[id].None? || w.held[id] == Some(loc))
      ensures Attempted(w, w', id) && GaveUpRightly(w, w', id)
    {
      assert mid.held[id].None?;
      AttemptedSince(w, mid, w', id);
    }
  }

  /** ... and nobody holds the unmarked cell any more. */
  lemma UnmarkNobodyHolds(w: World, mid: World, w': World, loc: Location)
    requires ReleaseInv(w, mid, loc, {}) && loc !in w.field.marked && Reassigned(mid, w')
    ensures forall id :: id in w'.held ==> w'.held[id] != Some(loc)
  {
    forall id | id in w'.held ensures w'.held[id] != Some(loc) {
      if mid.held[id].Some? {
        assert Untouched(mid, w', id);
        assert w.held[id] == mid.held[id];
      } else {
        assert Attempted(mid, w', id);
      }
    }
  }

  /** Takes the unit out of the rushing state, without a path or a cell. */
  function Dismiss(w: World, id: UnitId): (w': World)
    requires Scene.Valid(w) && id in w.units
    ensures Scene.Valid(w') && OnlyUnitChanged(w, w', id)
    ensures w'.held.Keys == w.held.Keys + {id} && w'.held[id].None?
    ensures Dismissed(w, w', id)
  {
    ReleaseKeepsUnshared(w.held, id);
    var w1 := Navigator.ClearPath(w, id);
    var w' := w1.(held := w.held[id := None], units := w.units[id := Units.ExitRushingState(w.units[id])]);
    assert w'.held - {id} == w.held - {id};
    assert w'.units - {id} == w.units - {id};
    w'
  }

  /** The unit stands idle where it stood, holding no cell and no path. */
  ghost predicate Dismissed(w: World, w': World, id: UnitId)
    requires id in w.units
  {
    && id in w'.units && id in w'.held && id in w'.paths
    && w'.held[id].None? && w'.paths[id].None?
    && w'.units[id].state == Units.Idle && w'.units[id].path.None?
    && w'.units[id].index == 0 && w'.units[id].pos == w.units[id].pos
  }

  /** Turning rushing off dismisses every registered unit. */
  method StopRushing(w: World) returns (w': World)
    requires Scene.Valid(w)
    ensures Scene.Valid(w')
    ensures w'.field == w.field && w'.rushing == w.rushing
    ensures w'.units.Keys == w.units.Keys && w'.held.Keys == w.held.Keys
    ensures forall id :: id in w.held ==> Dismissed(w, w', id)
    ensures forall id :: id in w.units && id !in w.held ==> Untouched(w, w', id)
    ensures forall l :: !IsHeld(w'.held, l)
  {
    w' := w;
    var todo := w.held.Keys;
    while todo != {}
      invariant StopInv(w, w', todo)
      decreases todo
    {
      var id :| id in todo;
      w' := StopStep(w, w', todo, id);
      todo := todo - {id};
    }
    NoneHeld(w, w');
  }

  /** The loop invariant of the loop above. */
  ghost predicate StopInv(w: World, cur: World, todo: set<UnitId>) {
    && w.held.Keys <= w.units.Keys && todo <= w.held.Keys
    && Scene.Valid(cur) && cur.field == w.field && cur.rushing == w.rushing
    && cur.units.Keys == w.units.Keys && cur.held.Keys == w.held.Keys
    && (forall id :: id in w.units && (id in todo || id !in w.held) ==> Untouched(w, cur, id))
    && (forall id :: id in w.held && id !in todo ==> Dismissed(w, cur, id))
  }

  /** The body of the loop above for one unit. */
  method StopStep(w: World, cur: World, todo: set<UnitId>, id: UnitId) returns (next: World)
    requires StopInv(w, cur, todo) && id in todo
    ensures StopInv(w, next, todo - {id})
  {
    assert Untouched(w, cur, id);
    next := Dismiss(cur, id);
    DismissedKeepsInv(w, cur, next, todo, id);
  }

  /** Dismissing one unit still to visit keeps the invariant of the loop. */
  lemma DismissedKeepsInv(w: World, cur: World, next: World, todo: set<UnitId>, id: UnitId)
    requires StopInv(w, cur, todo) && id in todo
    requires Scene.Valid(next) && OnlyUnitChanged(cur, next, id)
    requires next.held.Keys == cur.held.Keys + {id} && Dismissed(cur, next, id)
    ensures StopInv(w, next, todo - {id})
  {
    Processed(w, cur, next, id);
    DismissedSoFar(w, cur, next, todo, id);
  }

  /** ... in particular, the units visited so far, now with `id`, are dismissed. */
  lemma DismissedSoFar(w: World, cur: World, next: World, todo: set<UnitId>, id: UnitId)
    requires w.held.Keys <= w.units.Keys && id in todo
    requires forall p :: p in w.held && p !in todo ==> Dismissed(w, cur, p)
    requires id in w.units && id in cur.units && cur.units[id].pos == w.units[id].pos
    requires OnlyUnitChanged(cur, next, id) && Dismissed(cur, next, id)
    ensures forall p :: p in w.held && p !in todo - {id} ==> Dismissed(w, next, p)
  {
    DismissedKept(w, cur, next, id);
    forall p | p in w.held && p !in todo - {id} ensures Dismissed(w, next, p) {
      if p != id {
        assert Dismissed(w, cur, p);
      }
    }
  }

  /** Once every registered unit is dismissed, no cell is held. */
  lemma NoneHeld(w: World, cur: World)
    requires StopInv(w, cur, {})
    ensures forall l :: !IsHeld(cur.held, l)
  {
    forall k | k in cur.held ensures cur.held[k].None? {
      assert Dismissed(w, cur, k);
    }
  }

  /** Dismissing one unit leaves the others' dismissal in place. */
  lemma DismissedKept(w: World, a: World, b: World, id: UnitId)
    requires OnlyUnitChanged(a, b, id)
    ensures forall p :: p in w.units && p != id && Dismissed(w, a, p) ==> Dismissed(w, b, p)
  {
    forall p | p in w.units && p != id && Dismissed(w, a, p) ensures Dismissed(w, b, p) {
      OtherUnchanged(a, b, id, p);
    }
  }

  /** Flips the rushing flag: turning it on runs an assignment pass,
      turning it off dismisses every registered unit. */
  method ToggleRushingToMarkedCell(w: World) returns (w': World)
    requires Scene.Valid(w)
    ensures Scene.Valid(w') && w'.rushing == !w.rushing && w'.field == w.field
    ensures w'.rushing ==> Reassigned(w.(rushing := true), w')
    ensures !w'.rushing ==>
      && (forall id :: id in w.held ==> Dismissed(w, w', id))
      && (forall l :: !IsHeld(w'.held, l))
    ensures UnitsWellFormed(w) ==> UnitsWellFormed(w')
  {
    var flipped := w.(rushing := !w.rushing);
    if flipped.rushing {
      w' := SetMarkedCellForUnitsWithoutMarkedCell(flipped);
      ReassignedKeepsWellFormed(flipped, w');
    } else {
      w' := StopRushing(flipped);
      if UnitsWellFormed(w) {
        forall id | id in w'.units ensures Units.WellFormed(w'.units[id]) {
          if id in w.held {
            assert Dismissed(w, w', id);
          } else {
            assert Untouched(w, w', id);
          }
        }
      }
    }
  }

  /** An assignment pass keeps every unit well formed: an attempted unit
      starts its route at index 0. */
  lemma ReassignedKeepsWellFormed(w: World, w': World)
    requires Reassigned(w, w')
    ensures UnitsWellFormed(w) ==> UnitsWellFormed(w')
  {
    if UnitsWellFormed(w) {
      forall id | id in w'.units ensures Units.WellFormed(w'.units[id]) {
        if id in w.held && w.held[id].None? {
          assert Attempted(w, w', id);
        } else {
          assert Untouched(w, w', id);
        }
      }
    }
  }

  /** So does the handling of an unmarked cell. */
  lemma UnmarkKeepsWellFormed(w: World, w': World, loc: Location)
    requires UnmarkHandled(w, w', loc)
    ensures UnitsWellFormed(w) ==> UnitsWellFormed(w')
  {
    if UnitsWellFormed(w) {
      forall id | id in w'.units ensures Units.WellFormed(w'.units[id]) {
        if id in w.held && (w.held[id].None? || w.held[id] == Some(loc)) {
          assert Attempted(w, w', id);
        } else {
          assert Untouched(w, w', id);
        }
      }
    }
  }
}
