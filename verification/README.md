# NivalTask core in Dafny

A model of the game logic of NivalTask, a small Unity scene. Units walk a
square field of cells. The player can block and unblock cells and mark
cells. While "rushing" is switched on, every unit is matched to a marked
cell and walks there along an A* path.

The model covers five parts:

- **The pathfinding engine**
  - `Location`, a value-type cell.
  - `SquareGrid`: bounds, walls, the eight neighbour directions and the step costs of 10 orthogonal and 14 diagonal.
  - `Pathfinder`: A* with the octile heuristic, trace-back through `cameFrom` and the partial-path fallback.
  - The frontier queue it uses.
- **The field**: the unblocked and marked cell lists, the per-cell occupancy counts, and the block, unblock and mark operations with the events they fire.
- **The unit**: a three-state machine (Idle, Wandering, RushingToMarkedCell) walking an index along a path.
- **The navigator**: answers path requests and re-plans the units whose path a newly blocked cell cuts.
- **The rushing activator**: matches units to free marked cells, and reacts to marking, unmarking, unblocking, unit creation and the rushing toggle.

The scene's components share state through references. The model collects that state in one `Scene.World` record:

- the field;
- the pathfinder's `cameFrom` and `costSoFar`;
- the units;
- the navigator's `pathByUnit`;
- the activator's `unitsAreRushing` and `markedLocationByUnit`.

Every event handler is a method from a `World` to a `World`. `Scene.Valid` states the invariant every handler keeps: **no two units hold the same marked cell**. It also says the stored paths are non-empty and inside the grid, and that the field's lists partition the grid's cells. `Scene.UnitsWellFormed` is a second invariant, kept by every event: a wandering unit stands on the path cell its index points at, and a rushing unit's index never passes the end of its path.

The pathfinder is modelled precisely:

- **Termination.** The main loop always terminates. The measure is the set of pairs (cell, k) with k below the cell's recorded cost, then the queue length.
- **Complete routes.** A complete answer is a walk through passable neighbours with no repeated cell.
- **Unreachable goals.** When the goal is not found, the recorded cells are closed under `Neighbors`, so no walk from the start reaches the goal.
- **Partial path.** The fallback uses the recorded cell of least cost. Under the search invariant that cell is the start itself (`Pathfinder.LeastCostIsStart`), so the partial path is always `[start]`.
- **Stale `cameFrom`.** `Init` clears `costSoFar` and the frontier but not `cameFrom`. Every contract holds whatever entries earlier searches left behind.
- **The list overload.** It appends to the caller's list without clearing it, then reverses the whole list. Earlier contents therefore end up reversed after the route, and the model keeps that behaviour.

Randomness is a parameter or a free choice:

- the cell drawn by `PickRandomUnblockedLocation` is a parameter;
- the random order of the candidate cells is any permutation;
- the order in which a `HashSet` of units is visited is any order;
- ties in the priority queue go to any entry of least priority.

## Model

| member | source | states |
|---|---|---|
| Locations.AdjacentSymmetric | Assets/Scripts/Pathfinding/SquareGrid.cs:19-29 | two cells are one king's move apart in either order or in neither |
| SquareGrid.NewGrid | Assets/Scripts/Pathfinding/SquareGrid.cs:31-52 | a non-positive width is reported before a non-positive height; a grid built from valid sizes keeps exactly the given walls that lie inside it, or has no walls when none are given |
| SquareGrid.InCells | Assets/Scripts/Pathfinding/SquareGrid.cs:54-58 | the grid's cell set is exactly the cells `InBounds` accepts |
| SquareGrid.CostToNeighbor | Assets/Scripts/Pathfinding/SquareGrid.cs:67-75 | the cost is 14 exactly when both coordinates differ and 10 exactly when one of them is shared |
| SquareGrid.CostSymmetric | Assets/Scripts/Pathfinding/SquareGrid.cs:67-75 | stepping from a to b costs the same as stepping from b to a |
| SquareGrid.DirectionIndexOfShift | Assets/Scripts/Pathfinding/SquareGrid.cs:19-29 | the eight direction offsets are distinct: a neighbour determines the direction it lies in |
| SquareGrid.NeighborsFrom | Assets/Scripts/Pathfinding/SquareGrid.cs:80-85 | the directions from index `from` on yield exactly the in-bounds passable adjacent cells in those directions, in direction order |
| SquareGrid.Neighbors | Assets/Scripts/Pathfinding/SquareGrid.cs:78-86 | at most eight cells, exactly the in-bounds passable cells adjacent to `id`, in the order of the direction table, never `id` itself, none twice |
| SquareGrid.NeighborsSymmetric | Assets/Scripts/Pathfinding/SquareGrid.cs:78-86 | if b is a neighbour of a passable in-bounds cell a, then a is a neighbour of b |
| PriorityQueue.Empty | Assets/Scripts/Pathfinding/Pathfinder.cs:53 | a cleared frontier holds nothing |
| PriorityQueue.Enqueue | Assets/Scripts/Pathfinding/Pathfinder.cs:81-82 | enqueueing adds exactly one entry, the item with its priority |
| PriorityQueue.Dequeue | Assets/Scripts/Pathfinding/Pathfinder.cs:64-66 | dequeueing a non-empty frontier removes exactly one entry of least priority and returns its item |
| Pathfinder.HeuristicOctile | Assets/Scripts/Pathfinding/Pathfinder.cs:114-123 | the heuristic is the octile distance: 10 per step along the longer axis plus 4 per step along the shorter; it is symmetric and zero exactly on equal cells |
| Pathfinder.HeuristicConsistent | Assets/Scripts/Pathfinding/Pathfinder.cs:114-123 | across one step between adjacent cells the estimate falls by at most that step's cost |
| Pathfinder.HeuristicAdmissible | Assets/Scripts/Pathfinding/Pathfinder.cs:114-123 | the estimate between the two ends of a walk never exceeds the walk's cost |
| Pathfinder.Init | Assets/Scripts/Pathfinding/Pathfinder.cs:51-60 | after the reset the frontier and the cost map hold the start alone at cost 0; older `cameFrom` entries survive; the search invariant holds |
| Pathfinder.RelaxStep | Assets/Scripts/Pathfinding/Pathfinder.cs:75-83 | recording a cheaper cost for a neighbour, with `current` as its predecessor, keeps the search invariant and the cost bound, and shrinks the termination measure |
| Pathfinder.PotentialShrinks | Assets/Scripts/Pathfinding/Pathfinder.cs:77-80 | lowering a cell's recorded cost, or recording a new cell, strictly shrinks the termination measure |
| Pathfinder.ExpandNeighbors | Assets/Scripts/Pathfinding/Pathfinder.cs:73-85 | expanding a cell leaves all of its neighbours recorded and keeps the loop invariant; the state either stays the same or the termination measure shrinks |
| Pathfinder.TryToFindPath | Assets/Scripts/Pathfinding/Pathfinder.cs:62-89 | the loop terminates; it returns true exactly when the goal got a cost; on false the recorded cells are closed under `Neighbors` |
| Pathfinder.ClosedContainsRoutes | Assets/Scripts/Pathfinding/Pathfinder.cs:62-89 | when the recorded cells are closed under `Neighbors`, every cell of every walk from the start is recorded |
| Pathfinder.ClosedMeansUnreachable | Assets/Scripts/Pathfinding/Pathfinder.cs:86-88 | a search that empties its frontier without the goal proves that no walk from the start reaches the goal |
| Pathfinder.FindPath | Assets/Scripts/Pathfinding/Pathfinder.cs:31-49 | out-of-bounds start, out-of-bounds goal and impassable start are reported in that order; otherwise the search runs, and it reports found exactly when the goal was reached |
| Pathfinder.TracePath | Assets/Scripts/Pathfinding/Pathfinder.cs:125-134 | the trace is appended after the list's old contents and walks predecessors from `from` back to the start through passable neighbours, without repeating a cell |
| Pathfinder.WalkBack | Assets/Scripts/Pathfinding/Pathfinder.cs:125-134 | following predecessors from a recorded cell ends at the start, each step goes between passable neighbours and no cell repeats |
| Pathfinder.FindClosestToGoal | Assets/Scripts/Pathfinding/Pathfinder.cs:136-149 | the result is a recorded cell of least cost below `int.MaxValue`, or (0, 0) when there is none |
| Pathfinder.LeastCostIsStart | Assets/Scripts/Pathfinding/Pathfinder.cs:136-149 | under the search invariant, the only recorded cell of least cost is the start, so the partial path is `[start]` |
| Pathfinder.RecordedInCells | Assets/Scripts/Pathfinding/Pathfinder.cs:75-83 | only cells of the grid get a cost |
| Pathfinder.RecordedArePassable | Assets/Scripts/Pathfinding/Pathfinder.cs:75-83 | every cell given a cost is passable |
| Pathfinder.ReversedTrace | Assets/Scripts/Pathfinding/Pathfinder.cs:108 | a reversed trace is a walk from the start to the traced cell without repeated cells; it is `[start]` when the trace begins at the start |
| Pathfinder.AssembleRoute | Assets/Scripts/Pathfinding/Pathfinder.cs:101-108 | reversing the list made of the old contents followed by the trace gives the route followed by the old contents reversed |
| Pathfinder.TraceAndReverse | Assets/Scripts/Pathfinding/Pathfinder.cs:101-108 | after the search, the list becomes the answer (the complete route when the goal got a cost, the partial path otherwise) followed by the list's old contents reversed |
| Pathfinder.FindPathWithList | Assets/Scripts/Pathfinding/Pathfinder.cs:93-111 | a null list is reported first, then the endpoint errors. Otherwise the list becomes the route followed by its old contents reversed. The route is a walk from the start with no repeated cell. When found, it ends at the goal. When not found, it is `[start]` and the goal is unreachable. start == goal is always found, and a goal that is a wall never is |
| Fields.UnblockedMeansOpen | Assets/Scripts/Field.cs:178-182 | a cell is in the unblocked list exactly when it is in the grid and not a wall |
| Fields.InstantiateCells | Assets/Scripts/Field.cs:63-82 | the cells are listed once each, column by column: exactly the n*n cells of the grid |
| Fields.Awake | Assets/Scripts/Field.cs:42-53 | a positive side length gives an all-unblocked, unmarked, unoccupied square field that satisfies the field invariant; a non-positive one fails |
| Fields.Occupy | Assets/Scripts/Field.cs:93-96 | one more unit stands on the cell; every other count is unchanged |
| Fields.Unoccupy | Assets/Scripts/Field.cs:107-110 | one unit fewer stands on the cell; every other count is unchanged |
| Fields.OccupyThenUnoccupy | Assets/Scripts/Field.cs:93-110 | leaving a cell just entered restores the field |
| Fields.Mark | Assets/Scripts/Field.cs:142-167 | an occupied or out-of-grid cell is ignored. Otherwise the cell's mark is toggled: CellMarked fires when the cell was unmarked and CellUnmarked when it was marked. No other cell's mark changes |
| Fields.MarkTwice | Assets/Scripts/Field.cs:142-167 | marking the same cell twice leaves the same set of marked cells |
| Fields.Block | Assets/Scripts/Field.cs:169-190 | CellBlocked fires exactly when the cell is free and unblocked; the cell then becomes a wall and leaves the unblocked cells; otherwise nothing changes |
| Fields.Unblock | Assets/Scripts/Field.cs:192-213 | CellUnblocked fires exactly when the cell is a free wall; the wall is removed and the cell is appended to the unblocked list; otherwise nothing changes |
| Fields.BlockThenUnblock | Assets/Scripts/Field.cs:169-213 | unblocking a cell just blocked restores the walls and the set of unblocked cells |
| Fields.PickRandomUnblockedLocation | Assets/Scripts/Field.cs:230-239 | null exactly when no cell is unblocked, otherwise an unblocked cell |
| Fields.GetUnblockedMarkedLocationsRandomlySorted | Assets/Scripts/Field.cs:241-245 | the cells both marked and unblocked, each exactly once, in some order |
| Seqs.IndexOf | Assets/Scripts/Navigator.cs:31 | -1 exactly when the item is absent, otherwise the index of its first occurrence |
| Seqs.RemoveFirstNoDups | Assets/Scripts/RushingToMarkedCellActivator.cs:79 | removing an item from a list without duplicates leaves exactly the other items, still without duplicates |
| Seqs.ReverseAppend | Assets/Scripts/Pathfinding/Pathfinder.cs:108 | reversing a concatenation reverses the order of the parts |
| Seqs.Intersect | Assets/Scripts/Field.cs:243 | the intersection lists each item present in both lists exactly once |
| Seqs.Shuffle | Assets/Scripts/Field.cs:243-244 | a random reordering is a permutation |
| Seqs.PermutationNoDups | Assets/Scripts/Field.cs:243-244 | a permutation of a list without duplicates has the same items and no duplicates |
| Units.EnterRushingState | Assets/Scripts/Unit.cs:133-139 | the unit rushes with no path, at index 0, where it stood |
| Units.ExitRushingState | Assets/Scripts/Unit.cs:141-147 | the unit is idle with no path, at index 0, where it stood |
| Units.EnterIdleState | Assets/Scripts/Unit.cs:149-153 | despite its name, the unit keeps its state; only its path and index are reset |
| Units.HandleRushingToMarkedCellState | Assets/Scripts/Unit.cs:76-96 | a rushing unit steps onto the cell its index points at and advances. Without a path it only resets the index. At the end of its path it waits. It never leaves the rushing state |
| Units.HandleWanderingState | Assets/Scripts/Unit.cs:98-121 | a wandering unit advances and steps onto the next path cell. At the end of its path, or without a path, it turns idle where it stands |
| Units.HandleIdleState | Assets/Scripts/Unit.cs:123-131 | an idle unit never moves; it wanders along the path granted to it, or stays as it was without a path |
| Units.OnUpdate | Assets/Scripts/Unit.cs:60-74 | a turn runs the handler of the unit's state. A unit changes its position only by moving, and only onto a cell of its own path |
| Units.OnUpdatePreservesWellFormed | Assets/Scripts/Unit.cs:60-131 | a turn keeps the index consistent with the path and the position, given that a granted path starts on the unit's cell |
| Units.RushingWaitsAtEnd | Assets/Scripts/Unit.cs:84-94 | a rushing unit past the end of its path does nothing |
| Units.WanderingReachesEnd | Assets/Scripts/Unit.cs:98-121 | a wandering unit stands idle on its path's last cell after as many turns as the path's length minus its index: one step to each cell after the one it stands on, then the turn that finds the end and goes idle |
| Scene.RouteInBounds | Assets/Scripts/Navigator.cs:126-139 | every cell of a route from a grid cell lies in the grid, so converting a route to points drops nothing |
| Navigator.Search | Assets/Scripts/Navigator.cs:108-109 | from an unblocked cell to a grid cell, the list search cannot throw, and its fresh list is exactly the route the pathfinder answers |
| Navigator.TryRequestPath | Assets/Scripts/Navigator.cs:99-124 | true exactly when the unit stands on an unblocked cell and the goal is reachable from it. Only then are the navigator's and the unit's paths replaced, by a complete route to the goal. Only that unit's entries change |
| Navigator.TryRequestPathToRandomPoint | Assets/Scripts/Navigator.cs:68-95 | true exactly when the unit stands on an unblocked cell. The drawn cell decides the stored route: a complete route to it, or the unit's own cell alone when it cannot be reached. The route is stored for the navigator and the unit; on false nothing changes |
| Navigator.StaysOnlyWhenUnreachable | Assets/Scripts/Navigator.cs:77-84 | for a drawn cell other than its own, the unit is given a path that keeps it in place exactly when that cell cannot be reached |
| Navigator.ClearPath | Assets/Scripts/Navigator.cs:141-144 | only that unit's stored path is set to null |
| RushingActivator.WithoutHeld | Assets/Scripts/RushingToMarkedCellActivator.cs:65 | removing the held cells keeps exactly the cells nobody holds, still without duplicates |
| RushingActivator.Candidates | Assets/Scripts/RushingToMarkedCellActivator.cs:64-65 | the candidate list holds, once each, exactly the marked unblocked cells nobody holds |
| RushingActivator.TakeKeepsUnshared | Assets/Scripts/RushingToMarkedCellActivator.cs:78 | giving a unit a cell nobody holds keeps the held cells unshared |
| RushingActivator.AvailableAfterTake | Assets/Scripts/RushingToMarkedCellActivator.cs:78-79 | the cell a unit takes is exactly the cell that stops being free, which is why it leaves the candidate list |
| RushingActivator.ResetToRushing | Assets/Scripts/RushingToMarkedCellActivator.cs:71-72 | the unit's stored path is cleared and it rushes from index 0; nothing else changes |
| RushingActivator.SendToFirstReachable | Assets/Scripts/RushingToMarkedCellActivator.cs:74-82 | the unit takes the first candidate it has a complete route to, after failing on every earlier one. When no candidate is reachable it takes none and nothing changes |
| RushingActivator.Attempt | Assets/Scripts/RushingToMarkedCellActivator.cs:69-83 | one unit without a cell is reset and takes at most one cell; the candidate list stays exactly the free cells |
| RushingActivator.SetMarkedCellForUnitsWithoutMarkedCell | Assets/Scripts/RushingToMarkedCellActivator.cs:62-85 | units holding a cell keep everything. Every unit without one is reset to rushing and either takes a marked unblocked cell with a complete route to it, or is left with no cell and can reach none of the cells still free. No cell is shared |
| RushingActivator.ReleaseKeepsUnshared | Assets/Scripts/RushingToMarkedCellActivator.cs:123 | dropping a unit's cell keeps the cells unshared and frees exactly that cell |
| RushingActivator.HandleUnachievableMarkedLocation | Assets/Scripts/RushingToMarkedCellActivator.cs:121-139 | the unit gives up its cell and takes a free cell it can reach completely, its old one included, or none when it can reach none. Only its own entries change |
| RushingActivator.OnUnitCreated | Assets/Scripts/RushingToMarkedCellActivator.cs:87-90 | a new unit is registered holding no cell; no cell changes hands |
| RushingActivator.OnCellMarked | Assets/Scripts/RushingToMarkedCellActivator.cs:48-53 | ignored unless rushing; otherwise an assignment pass runs |
| RushingActivator.OnCellUnblocked | Assets/Scripts/RushingToMarkedCellActivator.cs:55-60 | ignored unless rushing; otherwise an assignment pass runs |
| RushingActivator.Release | Assets/Scripts/RushingToMarkedCellActivator.cs:38-40 | the unit's path is cleared, it rushes, and it holds no cell; no cell becomes held |
| RushingActivator.OnCellUnmarked | Assets/Scripts/RushingToMarkedCellActivator.cs:26-46 | ignored unless rushing. Otherwise afterwards nobody holds the unmarked cell. Its former holders and the units holding nothing are attempted afresh. Everyone else keeps everything |
| RushingActivator.UnmarkComposed | Assets/Scripts/RushingToMarkedCellActivator.cs:30-45 | resetting the holders of the unmarked cell and then running an assignment pass gives exactly that outcome |
| RushingActivator.Dismiss | Assets/Scripts/RushingToMarkedCellActivator.cs:115-117 | the unit holds no cell and no path and stands idle where it stood |
| RushingActivator.StopRushing | Assets/Scripts/RushingToMarkedCellActivator.cs:111-119 | every registered unit is dismissed, so no cell is held by anyone; unregistered units keep everything |
| RushingActivator.NoneHeld | Assets/Scripts/RushingToMarkedCellActivator.cs:113-118 | once every registered unit holds null, no cell is held |
| RushingActivator.ToggleRushingToMarkedCell | Assets/Scripts/RushingToMarkedCellActivator.cs:92-119 | the flag flips. Turning it on runs an assignment pass. Turning it off leaves every registered unit idle, with a cleared path and no cell. Every unit stays well formed |
| RushingActivator.ReassignedKeepsWellFormed | Assets/Scripts/RushingToMarkedCellActivator.cs:62-85 | an assignment pass keeps every unit's index consistent with its path |
| RushingActivator.UnmarkKeepsWellFormed | Assets/Scripts/RushingToMarkedCellActivator.cs:26-46 | so does the handling of an unmarked cell |
| Replanning.ReplanUnit | Assets/Scripts/Navigator.cs:27-62 | a unit is affected when the blocked cell lies on its stored path at or after its index; only affected units change. A wandering one loses its path. A rushing one on an unblocked cell gets a complete route from where it stands to its old path's last cell, at index 0, or is handed to the activator when that cell became unreachable. There it is left without a cell only if it can reach none of the cells still free |
| Replanning.Reroute | Assets/Scripts/Navigator.cs:43-57 | a rushing unit on an unblocked cell follows a new complete route to the goal from index 0 when the goal is reachable. Otherwise it is handed to the activator, which resets it and lets it take a free cell it can reach completely, and leaves it without one only when it can reach none. Only that unit's entries change |
| Replanning.OnCellBlocked | Assets/Scripts/Navigator.cs:23-64 | every affected unit is re-planned as above, every other unit keeps everything, and no cell becomes shared |
| Events.BlockCell | Assets/Scripts/Field.cs:169-190 | blocking a free unblocked cell makes it a wall and then re-plans; otherwise nothing changes; the world stays valid and every unit well formed |
| Events.BlockKeepsWellFormed | Assets/Scripts/Navigator.cs:23-64 | re-planning keeps every unit's index consistent with its path |
| Events.UnblockCell | Assets/Scripts/Field.cs:192-213 | unblocking a free wall, and the assignment pass that follows while rushing, keep the world valid and every unit well formed |
| Events.MarkCell | Assets/Scripts/Field.cs:142-167 | a mark or an unmark, and the activator's reaction to it, keep the world valid and every unit well formed |
| Events.RequestIfIdle | Assets/Scripts/Unit.cs:123-131 | only an idle unit asks for a path. It gets one exactly when it stands on an unblocked cell: a complete route to the drawn cell, or its own cell alone when the drawn cell cannot be reached |
| Events.MoveOccupant | Assets/Scripts/Unit.cs:86-88 | a step takes one unit of occupancy from the cell left to the cell entered, for each of them inside the grid; a step onto the same cell changes nothing |
| Events.Act | Assets/Scripts/Unit.cs:60-96 | the unit is replaced by its updated self, nobody else changes, and the occupancy moves with its step |
| Events.UnitTurn | Assets/Scripts/Unit.cs:60-131 | a turn changes only that unit, its stored path and the occupancy. The stored path changes only when an idle unit on an unblocked cell asks for one. An idle unit on an unblocked cell starts wandering along a complete route to the drawn cell, or along its own cell alone when that cell cannot be reached. The occupancy follows the unit's position. No cell changes hands. The unit stays well formed |

## Left out

- Vector3 points are left out: `LocationByPoint`, `PointByLocation`, `TransformLocationsIntoPoints`, cell sizes and the box collider. A unit's position is kept as a cell, and a path of points as the path of cells it was made from. Every route cell is inside the grid (`Scene.RouteInBounds`), so the conversion drops nothing. A point outside the grid is a cell outside the grid.
- Instantiating game objects (cell prefabs, cell names, materials), gizmos and logged warnings are left out.
- Frame timing is left out: `Update`, `TimeForTurn` and `TurnTimer`. A unit's turn is the explicit call `Events.UnitTurn`.
- Unity's `Random` is a parameter. C# `HashSet` iteration order and the random sort are arbitrary choices.
- Event subscriptions are direct calls in `Events` and `RushingActivator`.
- Subscribers that are not part of this model are left out: `CellMaterialSetter` and `BlockingCubeCreator`.
- `InputHandler` and `UnitCreator` are not part of this model. They are input and spawning glue around `Field.Block`, `Field.Unblock`, `Field.Mark`, `Field.Occupy` and `UnitCreated`.
- The priority queue's own implementation is not part of this model. `PriorityQueue.Dequeue` removes any entry of least priority, which is all the search relies on.
- Pathfinder.FindPathWithList: it is not proved that a found route has the least cost. The search invariant, the admissible and consistent heuristic, and termination are proved, but optimality is not.
- Integers are unbounded. The path costs and occupancy counts are C# `int`. They stay far below `int.MaxValue` on a field of at most 10x10 cells, so overflow is not modelled.
- `Field.Awake` draws the side length from `MinCellCount`..`MaxCellCount`. Fields.Awake takes the side length as a parameter and accepts any positive one.
- Fields.Awake: a negative side length fails at the `int[,]` allocation in the source, before the grid constructor runs. The model reports it as the grid's width error.
- `Field.Occupy` increments the count of the cell under the given point and `Field.Unoccupy` decrements it. The model keeps the counts but does not relate them to the number of units standing on a cell.
- Fields.Occupy: the source's `Location` overload indexes the count array directly and throws for a cell outside the grid. The model requires an in-grid cell instead. The `Vector3` overload skips points off the field, and `Events.MoveOccupant` models that check.
- Fields.Unoccupy: the same as for `Fields.Occupy`. A cell outside the grid throws in the source and is excluded by the requires in the model.
- `new SquareGrid(w, h, walls)` keeps the caller's `HashSet` and removes out-of-grid walls from it in place. That aliasing is not modelled: the grid owns its wall set.
- `Pathfinder`'s constructor check for a null grid is not modelled. Every grid in the model exists.
- `markedLocationByUnit.Add` throws on a unit registered twice. RushingActivator.OnUnitCreated requires instead that the unit is not yet registered.
- Replanning.OnCellBlocked: for a rushing unit handed back to the activator, it claims only what `HandleUnachievableMarkedLocation` promises at that moment. The claim that the unit could reach no free cell can stop holding later in the same loop, because a later unit handed back may free a cell.
