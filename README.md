# A* path finder graph store and query front end, in Dafny

This project models `AStarPathFinder` from `src/astar.rs` of a Bevy path-finding
demo. It has four parts:

- **Points** (`point.dfy`, module `Points`): `AStarPoint` with coordinates as reals.
  Its distance is the sum of the squared coordinate differences. The source's
  `calculate_distance` returns the square root of that sum.
- **Graph store** (`astar.dfy`, module `AStar`): an append-only list of points,
  where a point's id is its index, and an append-only list of undirected
  connections between ids. `add_point` appends a point. `add_connection` appends
  a connection only when both ids name stored points. `get_connections` lists
  the far end of every connection that touches a node, in connection order,
  looking at both orientations.
- **Nearest-point resolver**: `get_closest_point` scans the points in order and
  keeps a later point only when it is strictly closer. It therefore returns the
  first point at minimal distance, or nothing when the store is empty.
- **Per-query setup**: `solve_path` resolves the start and the goal to their
  nearest stored points. It then clears the node table and rebuilds it with one
  record per point, holding `g` (distance to the start), `h` (distance to the
  goal), `f = g + h` and no predecessor. While rebuilding, it also puts the
  start node's record into the open set.

The class `AStar.PathFinder` holds the three vectors of the source
(`path_nodes`, `points`, `connections`) as `seq` fields. Its methods reassign
those fields as the source pushes to and clears the vectors. The loops of
`get_connections`, `get_closest_point` and the node-table rebuild are `for`
loops. Each is proved against a specification function: `Neighbours`,
`ClosestIn` and `NodeTable`. Lemmas then prove what those functions promise:
symmetric adjacency, first-minimum selection and the shape of the node table.
The object invariant `Valid()` says that every stored connection refers to
stored points. `AddPoint` and `AddConnection` preserve it.

The model follows the code as written, including these points:

- `add_connection` returns `false` even after it appends the connection
  (src/astar.rs:58, 65). `AddConnection` ensures `!ok` in both cases.
- `solve_path` returns a plain vector of points. The vector is
  empty when the store has no points. Otherwise it holds exactly one element:
  the stored point nearest the start (src/astar.rs:104-117, 141).
- The search itself is a stub. Its loop breaks out in its first iteration
  (src/astar.rs:136-139), so no node is expanded and no predecessor is ever set.
  The model has no expansion, no path reconstruction and no "no path" result.
- `remove_connections` is called at src/world_generation.rs:68 but is not
  defined in src/astar.rs. It is not part of this model.

`solve_path` returns on an empty store before it clears the node table, so the
previous table survives. `SolvePath` states this. Lines 119-134 of `solve_path`
(clearing and refilling the table, and putting the start record into the open
set on the way) are the method
`InitialiseSearch`, which `SolvePath` calls. The open set is a local vector in
the source, and this split lets a contract state what it holds. The contracts
of `SolvePath` determine `route` from the points and the two query coordinates
alone, and the new table too, except on an empty store, where the old table is
kept. Two queries on an unchanged store therefore return the same route.

## Model

| member | source | states |
|---|---|---|
| `Points.SqDistance` | src/astar.rs:9-17 | the sum of the squared absolute coordinate differences, the square of the source's result; never negative |
| `Points.SqDistanceToSelf` | src/astar.rs:9-17 | a point is at distance zero from itself |
| `Points.SqDistancePositive` | src/astar.rs:9-17 | two distinct points are at a positive distance, so distance zero means the same point |
| `Points.SqDistanceSymmetric` | src/astar.rs:9-17 | distance does not depend on the order of the two points (the source takes absolute differences) |
| `Points.RootComparisonAgrees` | src/astar.rs:14 | for two non-negative roots of two squared distances, the strict comparison of the roots, as the source makes it, agrees with the comparison of the squares |
| `AStar.NeighboursAppend` | src/astar.rs:61-64 | appending a connection appends exactly that connection's contribution to every node's neighbour list and leaves the earlier entries in order |
| `AStar.SelfLoopCountsTwice` | src/astar.rs:71-78 | a self-loop on `n` adds `n` to its own neighbour list twice, once per orientation |
| `AStar.ContributionSymmetric` | src/astar.rs:72-78 | one connection lists `m` as a neighbour of `n` as often as it lists `n` as a neighbour of `m` |
| `AStar.NeighboursSymmetric` | src/astar.rs:68-82 | adjacency is symmetric with multiplicity: `m` occurs among the neighbours of `n` exactly as often as `n` among those of `m` |
| `AStar.NeighboursMembership` | src/astar.rs:68-82 | `m` is a neighbour of `n` if and only if some stored connection joins them in one orientation or the other |
| `AStar.NeighboursInRange` | src/astar.rs:56-82 | when every connection refers to stored points, every neighbour returned is a stored id |
| `AStar.ClosestIn` | src/astar.rs:88-95 | after the scan has visited the first `n` points, the index it holds is at minimal distance from the query among them, and every earlier index is strictly farther |
| `AStar.FirstClosestUnique` | src/astar.rs:88-95 | at most one index is the first minimum, so the resolver's answer is determined by the points and the query |
| `AStar.ClosestBy` | src/astar.rs:88-95 | the source's scan over any list of distances holds an index among those visited, at a distance no greater than any visited one |
| `AStar.ClosestInIsBy` | src/astar.rs:88-95 | `ClosestIn` is that scan run over the squared distances from the query |
| `AStar.RootsAgree` | src/astar.rs:88-95 | scanning non-negative roots keeps, after every point, the same index as scanning their squares |
| `AStar.RootedScanAgrees` | src/astar.rs:88-95 | when the distances are the non-negative roots of the squared distances, as `calculate_distance` computes them, the source's scan over them returns the index `ClosestIn` returns |
| `AStar.NodeTableShape` | src/astar.rs:123-133 | the rebuilt table has one record per point; `g` = distance to the resolved start, `h` = distance to the resolved goal, `f = g + h`, and no predecessor |
| `AStar.NodeTableIds` | src/astar.rs:44-48 | `GetId` of record `i` of the rebuilt table returns its node id, which is `i`, the id of the point it was built from |
| `AStar.NodeTableCosts` | src/astar.rs:124-127 | all costs in the table are non-negative, the start node has `g = 0` and the goal node has `h = 0` |
| `AStar.PathFinder.constructor` | src/astar.rs:26-31 | a new path finder has no points, no connections and an empty node table, and satisfies the connection invariant |
| `AStar.PathFinder.AddPoint` | src/astar.rs:51-54 | appends the point, so its id is the old number of points; returns `true`; connections and node table unchanged; preserves the connection invariant |
| `AStar.PathFinder.AddConnection` | src/astar.rs:56-66 | with an out-of-range id, changes nothing; with both ids in range, appends exactly that connection at the end; returns `false` either way; points and node table unchanged; preserves the connection invariant |
| `AStar.PathFinder.GetConnections` | src/astar.rs:68-82 | returns the neighbour list of the node in connection order; under the invariant every entry is a stored id |
| `AStar.PathFinder.GetClosestPoint` | src/astar.rs:84-102 | returns nothing exactly when there are no points; otherwise the id and point of the first stored point at minimal distance from the query |
| `AStar.PathFinder.InitialiseSearch` | src/astar.rs:119-134 | discards the old node table and builds one record per point; the open set holds the start node's record alone when its id is stored; points and connections unchanged |
| `AStar.PathFinder.SolvePath` | src/astar.rs:104-141 | on an empty store returns the empty route and leaves the node table alone; otherwise returns exactly the point nearest the start and leaves the node table rebuilt for the nearest start and goal points; the graph is never changed |

## Left out

- Floating point: coordinates are reals, not `f32`. Rounding, overflow to infinity, NaN coordinates and the `sqrt` of `calculate_distance` are not modelled.
- AStar.NodeTableShape: `g` and `h` are the squares of the source's values; `f` is the sum of those squares, not the square of the source's `f` (which is the sum of the two roots), so the order of `f` between nodes is not preserved; nothing compares `f` in the stubbed search. The resolver's choices are the same as the source's (`AStar.RootedScanAgrees`).
- AStar.PathFinder.GetClosestPoint: the source starts its scan with `f32::MAX` as the best distance so far; the model starts with no candidate, which is the same for every finite distance.
- The unused `closed_set` local of `solve_path` (src/astar.rs:120), which is never filled or read.
- The search loop of `solve_path` (src/astar.rs:136-139), which breaks out at once and changes nothing; there is no expansion, predecessor walk or path reconstruction in the source to model.
- `remove_connections` is not defined in src/astar.rs and is not part of this model.
- src/main.rs and src/world_generation.rs: Bevy scene setup, rendering, input and random obstacle placement.
- Rust `usize` ids are modelled as unbounded naturals; vector capacity limits are not modelled.
- The vectors are modelled as `seq` values that the methods reassign; there is no aliasing between them to capture.
