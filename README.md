# GraphNodeView force-directed layout, in Dafny

GraphNodeView draws a small social graph on an Android canvas and lays it out
with a force-directed algorithm. The layout engine, `ForceDirectedGraph`, owns
a list of `Node` objects and a handful of constants. Each call of
`forcedBasedDrawing` advances the layout by one step, in place, in six loops
over the list:

1. every displacement is set to zero;
2. every ordered pair of distinct list positions repels, `k²/d`;
3. every adjacency edge attracts its two endpoints, `d²/k`, with equal and
   opposite vectors;
4. gravity pulls every node, with a strength proportional to its list index;
5. displacements are damped by `speed / 32`;
6. every node that is not dragged moves by its displacement times a capped
   distance.

The project has four modules.

- `NodeModel` (node.dfy) holds the mutable `Node` class with its constructors,
  getters and setters. It also holds `NodeList`, the `ArrayList<Node>` object
  that nodes and the engine share by reference.
- `Forces` (forces.dfy) states one step on values. A node's layout state is a
  `Particle` (position, displacement, dragged flag), and each loop is a function
  over a sequence of particles, with the arithmetic and branch structure of the
  Java loop. `Step` composes them behind the guard of `forcedBasedDrawing`.
- `ForceLaws` (force_laws.dfy) proves properties of these functions:
  - conservation of the displacement sum under attraction;
  - the skipped zero-length contributions;
  - the directions of the forces: repulsion pushes a node away from the
    other, an edge pulls its endpoints together, gravity pulls toward the origin;
  - two nodes joined by one edge: the net force draws them together exactly
    when they are farther apart than `kFactor`;
  - damping as a scaling of the sum;
  - the no-op step, and one step on two nodes worked out.
- `Layout` (layout.dfy) is the engine class. `ForcedBasedDrawing` is an
  imperative method over the node objects, proved to turn the nodes' states
  into `Step` of their old states and to leave every other node field, the
  list and its order unchanged. `Init` and the constructors are proved to set
  the constants of `init` and to build the demonstration graph: 17 distinct
  nodes, ids 0 to 16, integer coordinates in [0, 400), edges 0→1..5, 1→6,7,
  2→8,9, 3→10..16 and no others.

Modelling decisions:

- Java's `double` and `float` are modelled as `real`.
- `Math.sqrt` is a function value `sqrt` that the engine receives at
  construction and keeps as a constant. Its only assumption, `IsSqrt`, is that
  on non-negative inputs it returns a non-negative root whose square is the
  input.
- `rand.nextInt(400)` is a nondeterministic choice of an integer in [0, 400).
- Adjacency is abstracted to list indices (`Adjacency`) wherever a proof needs
  it. The methods themselves follow the node references, as the Java does.
- Each of the six loops of `forcedBasedDrawing` is one pass method
  (`ResetPass`, `RepulsionPass`, `AttractionPass`, `GravityPass`,
  `DampingPass`, `UpdatePass`). The inner loops of loops 2 and 3 are methods
  too (`RepelNode`, `AttractNode`, with `AttractEdge` for one edge). The bodies
  that compute a force or a move are small methods (`RepelPair`, `AttractPair`,
  `GravityNode`, `UpdateNode`) with a frame on the fields they write. Loops 1
  and 5 write the displacement inline in `ResetPass` and `DampingPass`.
- `maxDisplace` and `kFactor` are derived from `AREA_MULTIPLICATOR * area`
  (ForceDirectedGraph.java:38-39), that is `400 · 400`:
  `maxDisplace = sqrt(400 · 400) / 10 = 40` and `kFactor² = 400 · 400 / 18`
  for the 17-node graph.
- A node moves by its raw displacement times the capped distance (lines
  118-119), so its movement per step is not bounded by `maxDisplace · speed / 32`.
  `TwoNodesPushedApart` works one step out for nodes at (0,0) and (10,0) with
  no edges and the `kFactor` that `init` leaves behind (`init` computes it over
  the 17 generated nodes, and `setGraph` does not recompute it): node 0 moves
  625/18 units against a cap of 1.25.

## Model

Source paths are relative to the repository root.

| member | source | states |
|---|---|---|
| Forces.ForceAttraction | GraphNodeView/src/main/java/com/prudencio/graphnodeview/ForceDirectedGraph.java:126-128 | the attraction force times `kFactor` is the squared distance, and it is non-negative for a positive `kFactor` |
| Forces.ForceRepulsive | GraphNodeView/src/main/java/com/prudencio/graphnodeview/ForceDirectedGraph.java:130-132 | the repulsion force times the distance is `kFactor²`, and it is non-negative for a positive distance |
| Forces.MagnitudeZeroIff | GraphNodeView/src/main/java/com/prudencio/graphnodeview/ForceDirectedGraph.java:134-136 | the vector magnitude is non-negative, and it is zero exactly when both components are zero, so every `magnitudeDelta > 0` test skips exactly the zero vector |
| Forces.SqrtUnique | GraphNodeView/src/main/java/com/prudencio/graphnodeview/ForceDirectedGraph.java:38 | two non-negative reals with the same square are equal, which fixes `maxDisplace = sqrt(400 · 400) / 10` at 40 |
| Forces.SqrtPositive | GraphNodeView/src/main/java/com/prudencio/graphnodeview/ForceDirectedGraph.java:39 | the root of a positive number is positive and squares back to it, so `kFactor` is positive |
| Forces.LimitedDist | GraphNodeView/src/main/java/com/prudencio/graphnodeview/ForceDirectedGraph.java:115 | `limitedDist` is at most the magnitude and at most `maxDisplace · speed / 32`, and it equals one of the two |
| Forces.Reset | GraphNodeView/src/main/java/com/prudencio/graphnodeview/ForceDirectedGraph.java:46-50 | every displacement becomes zero, and positions and dragged flags are kept |
| Forces.Repulse | GraphNodeView/src/main/java/com/prudencio/graphnodeview/ForceDirectedGraph.java:52-67 | the repulsion pass keeps the length, every position and every dragged flag |
| Forces.ApplyEdgeKeepsPlaces | GraphNodeView/src/main/java/com/prudencio/graphnodeview/ForceDirectedGraph.java:80-86 | one attraction edge writes displacements only |
| Forces.AttractRowKeepsPlaces | GraphNodeView/src/main/java/com/prudencio/graphnodeview/ForceDirectedGraph.java:73-87 | the edges of one node's row write displacements only |
| Forces.AttractUpToKeepsPlaces | GraphNodeView/src/main/java/com/prudencio/graphnodeview/ForceDirectedGraph.java:70-88 | the first `q` rows of the attraction pass write displacements only |
| Forces.Attract | GraphNodeView/src/main/java/com/prudencio/graphnodeview/ForceDirectedGraph.java:70-88 | the attraction pass keeps the length, every position and every dragged flag |
| Forces.Gravity | GraphNodeView/src/main/java/com/prudencio/graphnodeview/ForceDirectedGraph.java:91-100 | the node at index 0 is left exactly as it was, because `gf` carries the factor `d`; positions and dragged flags are kept |
| Forces.Damp | GraphNodeView/src/main/java/com/prudencio/graphnodeview/ForceDirectedGraph.java:103-107 | damping keeps the length, every position and every dragged flag |
| Forces.Move | GraphNodeView/src/main/java/com/prudencio/graphnodeview/ForceDirectedGraph.java:110-123 | the update keeps every displacement and dragged flag, and a dragged node or a node with zero displacement keeps its position exactly |
| Forces.Step | GraphNodeView/src/main/java/com/prudencio/graphnodeview/ForceDirectedGraph.java:42-124 | a step keeps the number of nodes and the dragged flags and never moves a dragged node |
| ForceLaws.SumDispUpdate | GraphNodeView/src/main/java/com/prudencio/graphnodeview/ForceDirectedGraph.java:82-85 | replacing one node's state changes the displacement sum by the difference of the two displacements |
| ForceLaws.EdgeIsEqualAndOpposite | GraphNodeView/src/main/java/com/prudencio/graphnodeview/ForceDirectedGraph.java:82-85 | an edge between two different nodes subtracts one vector from the source's displacement, adds the same vector to the target's, and changes no other node |
| ForceLaws.ApplyEdgeConserves | GraphNodeView/src/main/java/com/prudencio/graphnodeview/ForceDirectedGraph.java:76-86 | one edge, self-loops included, leaves the sum of all displacements unchanged |
| ForceLaws.AttractRowConserves | GraphNodeView/src/main/java/com/prudencio/graphnodeview/ForceDirectedGraph.java:73-87 | the edges of one node's row leave the displacement sum unchanged |
| ForceLaws.AttractUpToConserves | GraphNodeView/src/main/java/com/prudencio/graphnodeview/ForceDirectedGraph.java:70-88 | the first `q` rows leave the displacement sum unchanged |
| ForceLaws.AttractionConservesDisplacement | GraphNodeView/src/main/java/com/prudencio/graphnodeview/ForceDirectedGraph.java:70-88 | the whole attraction pass leaves the sum of all displacements unchanged |
| ForceLaws.ZeroLengthEdgeSkipped | GraphNodeView/src/main/java/com/prudencio/graphnodeview/ForceDirectedGraph.java:78-80 | an edge between nodes at the same position, a self-loop in particular, has magnitude zero and changes nothing, so nothing is divided by zero |
| ForceLaws.CoincidentPairSkipped | GraphNodeView/src/main/java/com/prudencio/graphnodeview/ForceDirectedGraph.java:59-60 | a pair of nodes at the same position has magnitude zero and contributes no repulsion |
| ForceLaws.AllCoincidentNoRepulsion | GraphNodeView/src/main/java/com/prudencio/graphnodeview/ForceDirectedGraph.java:54-66 | a node whose visited partners all sit at its own position keeps its displacement through the inner repulsion loop |
| ForceLaws.ScaleDistributes | GraphNodeView/src/main/java/com/prudencio/graphnodeview/ForceDirectedGraph.java:105-106 | `x · speed / 32` distributes over a sum of two coordinates |
| ForceLaws.DampedPlus | GraphNodeView/src/main/java/com/prudencio/graphnodeview/ForceDirectedGraph.java:105-106 | damping distributes over the sum of two displacement vectors |
| ForceLaws.DampScalesSum | GraphNodeView/src/main/java/com/prudencio/graphnodeview/ForceDirectedGraph.java:103-107 | the damping pass scales the sum of all displacements by `speed / 32` |
| ForceLaws.StepNoOp | GraphNodeView/src/main/java/com/prudencio/graphnodeview/ForceDirectedGraph.java:43-44 | with `nIterations < 1` or an empty graph a step changes nothing at all |
| ForceLaws.SqrtOfSquare | GraphNodeView/src/main/java/com/prudencio/graphnodeview/ForceDirectedGraph.java:135 | the root of the square of a non-negative number is that number |
| ForceLaws.MagnitudeOnAxis | GraphNodeView/src/main/java/com/prudencio/graphnodeview/ForceDirectedGraph.java:134-136 | the magnitude of a vector on the x axis is the absolute value of its x |
| ForceLaws.ScaledSquares | GraphNodeView/src/main/java/com/prudencio/graphnodeview/ForceDirectedGraph.java:118-119 | scaling both coordinates by `l` scales the squared length by `l²` |
| ForceLaws.MagnitudeScaled | GraphNodeView/src/main/java/com/prudencio/graphnodeview/ForceDirectedGraph.java:118-119 | scaling a vector of magnitude `m` by `l >= 0` gives magnitude `m · l` |
| ForceLaws.MoveDistance | GraphNodeView/src/main/java/com/prudencio/graphnodeview/ForceDirectedGraph.java:112-120 | a node that moves travels exactly its displacement's magnitude times `limitedDist`, so the distance per step is not bounded by the cap once that magnitude exceeds 1 |
| ForceLaws.KFactorBelow95 | GraphNodeView/src/main/java/com/prudencio/graphnodeview/ForceDirectedGraph.java:39 | the `kFactor` of `init`, whose square is `400 · 400 / 18`, is below 95 |
| ForceLaws.TwoNodesRepulse | GraphNodeView/src/main/java/com/prudencio/graphnodeview/ForceDirectedGraph.java:46-67 | two nodes at (0,0) and (10,0) at rest get displacements `-k²/10` and `+k²/10` along x |
| ForceLaws.NoEdgesNoAttraction | GraphNodeView/src/main/java/com/prudencio/graphnodeview/ForceDirectedGraph.java:70-88 | a two-node graph with no edges is left unchanged by the attraction pass |
| ForceLaws.TwoNodesGravity | GraphNodeView/src/main/java/com/prudencio/graphnodeview/ForceDirectedGraph.java:91-100 | gravity leaves node 0 as it is and takes `k / (k²/10)` from node 1's push |
| ForceLaws.TwoNodesDamp | GraphNodeView/src/main/java/com/prudencio/graphnodeview/ForceDirectedGraph.java:103-107 | with `speed = 1` both displacements are divided by 32 |
| ForceLaws.TwoNodesMove | GraphNodeView/src/main/java/com/prudencio/graphnodeview/ForceDirectedGraph.java:110-123 | node 0 ends at (-625/18, 0), and node 1 ends to the right of x = 10 on the x axis |
| ForceLaws.TwoNodesPushedApart | GraphNodeView/src/main/java/com/prudencio/graphnodeview/ForceDirectedGraph.java:42-124 | one step on two nodes ten units apart, with the constants of `init`, pushes them apart along x: node 0 moves to x = -625/18, about 34.7 units, far beyond the cap of 1.25; node 1 moves right |
| ForceLaws.AttractionAlongDelta | GraphNodeView/src/main/java/com/prudencio/graphnodeview/ForceDirectedGraph.java:76-86 | an edge between two different places, with a positive `kFactor`, moves the vector `(pv - pu) · m / k`: the source loses it and so moves toward the target, the target gains it and so moves toward the source |
| ForceLaws.RepulsionAlongDelta | GraphNodeView/src/main/java/com/prudencio/graphnodeview/ForceDirectedGraph.java:57-64 | repulsion by a node at a different place adds `(pv - pu) · k² / m²` to the displacement, a push directly away from that node |
| ForceLaws.GravityTowardOrigin | GraphNodeView/src/main/java/com/prudencio/graphnodeview/ForceDirectedGraph.java:93-99 | gravity on a node with non-zero displacement subtracts `pos · c` with `c = 0.01 · k · gravity · d / m`, and `c` is positive for `d > 0` and positive `kFactor` and `gravity`: a pull toward the origin |
| ForceLaws.OneEdgeNetForce | GraphNodeView/src/main/java/com/prudencio/graphnodeview/ForceDirectedGraph.java:46-88 | two nodes at different places joined by the edge 0→1: after the reset, repulsion and attraction loops node 0's displacement is `(pv - pu) · (k²/m² - m/k)` and node 1's is its opposite |
| ForceLaws.OneEdgeFactorSign | GraphNodeView/src/main/java/com/prudencio/graphnodeview/ForceDirectedGraph.java:126-132 | that factor is negative, so the nodes are drawn together, exactly when `m > k`, and zero exactly when `m = k` |
| Layout.IndexOf | GraphNodeView/src/main/java/com/prudencio/graphnodeview/ForceDirectedGraph.java:73-74 | the index of a node's first occurrence in the list |
| Layout.Indices | GraphNodeView/src/main/java/com/prudencio/graphnodeview/ForceDirectedGraph.java:73-74 | an adjacency list as list indices, entry by entry naming the same nodes |
| Layout.Adjacency | GraphNodeView/src/main/java/com/prudencio/graphnodeview/ForceDirectedGraph.java:73-74 | the index form of the adjacency of a closed list names exactly the nodes of every adjacency list |
| Layout.EdgesDetermineAdjacency | GraphNodeView/src/main/java/com/prudencio/graphnodeview/ForceDirectedGraph.java:73-74 | in a list without repeated nodes, any index form of the edges is `Adjacency`, and every edge stays inside the list |
| Layout.EdgesFromLists | GraphNodeView/src/main/java/com/prudencio/graphnodeview/ForceDirectedGraph.java:46-123 | a list keeps its edges while its nodes keep their adjacency references and those lists keep their contents |
| Layout.NewNodes | GraphNodeView/src/main/java/com/prudencio/graphnodeview/ForceDirectedGraph.java:153-161 | the generator loop makes a fresh list of 17 fresh, distinct nodes with ids 0 to 16 in order, integer coordinates in [0, 400), rest state, and fresh empty adjacency lists |
| Layout.ConnectNode0 | GraphNodeView/src/main/java/com/prudencio/graphnodeview/ForceDirectedGraph.java:163-170 | node 0 gets a fresh adjacency list holding nodes 1 to 5 |
| Layout.ConnectNode1 | GraphNodeView/src/main/java/com/prudencio/graphnodeview/ForceDirectedGraph.java:173-177 | node 1 gets a fresh adjacency list holding nodes 6 and 7 |
| Layout.ConnectNode2 | GraphNodeView/src/main/java/com/prudencio/graphnodeview/ForceDirectedGraph.java:180-184 | node 2 gets a fresh adjacency list holding nodes 8 and 9 |
| Layout.ConnectNode3 | GraphNodeView/src/main/java/com/prudencio/graphnodeview/ForceDirectedGraph.java:187-196 | node 3 gets a fresh adjacency list holding nodes 10 to 16 |
| Layout.DemoEdgesFrom | GraphNodeView/src/main/java/com/prudencio/graphnodeview/ForceDirectedGraph.java:163-196 | those four lists, with every other list empty, are exactly the edges 0→1..5, 1→6,7, 2→8,9, 3→10..16 |
| Layout.ForceDirectedGraph.constructor | GraphNodeView/src/main/java/com/prudencio/graphnodeview/ForceDirectedGraph.java:17-20 | a new engine holds a fresh demonstration graph and the constants of `init` |
| Layout.ForceDirectedGraph.WithGraph | GraphNodeView/src/main/java/com/prudencio/graphnodeview/ForceDirectedGraph.java:23-27 | the same, and the list passed in is not the one kept, because `init` regenerates the graph |
| Layout.ForceDirectedGraph.Init | GraphNodeView/src/main/java/com/prudencio/graphnodeview/ForceDirectedGraph.java:29-40 | the graph is a fresh demonstration graph; `nIterations = 100`, `speed = 1`, `area = 400`, `gravity = 10`, `maxDisplace = 40`, and `kFactor² = 400 · area / (1 + size)` computed over the new graph |
| Layout.ForceDirectedGraph.SetConstants | GraphNodeView/src/main/java/com/prudencio/graphnodeview/ForceDirectedGraph.java:32-39 | the six assignments of `init`, with `maxDisplace = 40` and a positive `kFactor` whose square is `400 · area / (1 + size)` |
| Layout.ForceDirectedGraph.SetGraph | GraphNodeView/src/main/java/com/prudencio/graphnodeview/ForceDirectedGraph.java:148-150 | the engine then holds the given list itself, and the constants, `kFactor` included, are not recomputed |
| Layout.ForceDirectedGraph.GenerateComplexGraph | GraphNodeView/src/main/java/com/prudencio/graphnodeview/ForceDirectedGraph.java:152-197 | the graph becomes a fresh list of 17 fresh distinct nodes, ids 0 to 16, integer coordinates in [0, 400), and exactly the demonstration edges |
| Layout.ForceDirectedGraph.ForcedBasedDrawing | GraphNodeView/src/main/java/com/prudencio/graphnodeview/ForceDirectedGraph.java:42-124 | one step turns the nodes' states into `Step` of their old states over the old edges; with `nIterations < 1` or an empty list no state changes; ids, adjacency lists, dragged flags, names, locations, the list and its order are kept |
| Layout.ForceDirectedGraph.RunPasses | GraphNodeView/src/main/java/com/prudencio/graphnodeview/ForceDirectedGraph.java:46-123 | the six loops in order compute `Step` and keep every node's other fields and edges |
| Layout.ForceDirectedGraph.ResetPass | GraphNodeView/src/main/java/com/prudencio/graphnodeview/ForceDirectedGraph.java:46-50 | loop 1 computes `Reset` and writes nothing else |
| Layout.ForceDirectedGraph.RepulsionPass | GraphNodeView/src/main/java/com/prudencio/graphnodeview/ForceDirectedGraph.java:52-67 | loop 2 computes `Repulse` and writes nothing else |
| Layout.ForceDirectedGraph.RepelNode | GraphNodeView/src/main/java/com/prudencio/graphnodeview/ForceDirectedGraph.java:53-66 | the inner loop of loop 2 sets node `r`'s displacement to its repulsion against every other list position of the pass's starting states |
| Layout.ForceDirectedGraph.RepelPair | GraphNodeView/src/main/java/com/prudencio/graphnodeview/ForceDirectedGraph.java:56-64 | one inner iteration of loop 2 writes only `nodeV`'s displacement, to `RepelStep` of the old one |
| Layout.ForceDirectedGraph.AttractionPass | GraphNodeView/src/main/java/com/prudencio/graphnodeview/ForceDirectedGraph.java:70-88 | loop 3 computes `Attract` over the edges and writes nothing else |
| Layout.ForceDirectedGraph.AttractNode | GraphNodeView/src/main/java/com/prudencio/graphnodeview/ForceDirectedGraph.java:71-87 | the inner loop of loop 3 applies the edges of node `q`, in list order |
| Layout.ForceDirectedGraph.AttractEdge | GraphNodeView/src/main/java/com/prudencio/graphnodeview/ForceDirectedGraph.java:74-86 | one edge turns the states of the whole list into `ApplyEdge` of the old states |
| Layout.ForceDirectedGraph.EdgeEffect | GraphNodeView/src/main/java/com/prudencio/graphnodeview/ForceDirectedGraph.java:80-86 | `ApplyEdge` moves one vector from the source to the target, or takes it away and gives it back on a self-loop, and touches no other node |
| Layout.ForceDirectedGraph.AttractPair | GraphNodeView/src/main/java/com/prudencio/graphnodeview/ForceDirectedGraph.java:76-86 | one inner iteration of loop 3 writes only the two endpoints' displacements: the source loses the attraction vector and the target gains it, and a self-loop loses it and gets it back |
| Layout.ForceDirectedGraph.GravityPass | GraphNodeView/src/main/java/com/prudencio/graphnodeview/ForceDirectedGraph.java:91-100 | loop 4 computes `Gravity` and writes nothing else |
| Layout.ForceDirectedGraph.GravityNode | GraphNodeView/src/main/java/com/prudencio/graphnodeview/ForceDirectedGraph.java:92-99 | one iteration of loop 4 writes only that node's displacement, to `GravityStep` for index `d` |
| Layout.ForceDirectedGraph.DampingPass | GraphNodeView/src/main/java/com/prudencio/graphnodeview/ForceDirectedGraph.java:103-107 | loop 5 computes `Damp` and writes nothing else |
| Layout.ForceDirectedGraph.UpdatePass | GraphNodeView/src/main/java/com/prudencio/graphnodeview/ForceDirectedGraph.java:110-123 | loop 6 computes `Move` and writes nothing else |
| Layout.ForceDirectedGraph.UpdateNode | GraphNodeView/src/main/java/com/prudencio/graphnodeview/ForceDirectedGraph.java:111-121 | one iteration of loop 6 writes only that node's position, to `MoveStep` of its old state |
| NodeModel.NodeList.constructor | GraphNodeView/src/main/java/com/prudencio/graphnodeview/ForceDirectedGraph.java:164 | `new ArrayList<Node>()` is empty |
| NodeModel.NodeList.Add | GraphNodeView/src/main/java/com/prudencio/graphnodeview/ForceDirectedGraph.java:165 | `add` appends the node at the end |
| NodeModel.Node.constructor | GraphNodeView/src/main/java/com/prudencio/graphnodeview/Node.java:19-25 | `Node(id)` stores the id, a fresh empty adjacency list, name "John" and location "Porto", and leaves the node at the origin, with zero displacement, not dragged |
| NodeModel.Node.Blank | GraphNodeView/src/main/java/com/prudencio/graphnodeview/Node.java:27-31 | `Node()` does the same with the default id 0 |
| NodeModel.Node.WithAdjacency | GraphNodeView/src/main/java/com/prudencio/graphnodeview/Node.java:33-39 | `Node(adjacentNodes, id)` keeps the given list object itself, not a copy |
| NodeModel.Node.SetAdjacentNodes | GraphNodeView/src/main/java/com/prudencio/graphnodeview/Node.java:51-53 | only the adjacency reference changes, and `getAdjacentNodes` returns that same list |
| NodeModel.Node.SetId | GraphNodeView/src/main/java/com/prudencio/graphnodeview/Node.java:68-70 | the id can be overwritten after construction; only the id changes |
| NodeModel.Node.SetDragged | GraphNodeView/src/main/java/com/prudencio/graphnodeview/Node.java:82-84 | `isDragged()` then returns the value set; only that flag changes |
| NodeModel.Node.SetName | GraphNodeView/src/main/java/com/prudencio/graphnodeview/Node.java:96-98 | `getName()` then returns the value set; only the name changes |
| NodeModel.Node.SetDispX | GraphNodeView/src/main/java/com/prudencio/graphnodeview/Node.java:104-106 | `getDispX()` then returns the value set; only `dispX` changes |
| NodeModel.Node.SetDispY | GraphNodeView/src/main/java/com/prudencio/graphnodeview/Node.java:112-114 | `getDispY()` then returns the value set; only `dispY` changes |
| NodeModel.Node.SetPosX | GraphNodeView/src/main/java/com/prudencio/graphnodeview/Node.java:120-122 | `getPosX()` then returns the value set; only `posX` changes |
| NodeModel.Node.SetPosY | GraphNodeView/src/main/java/com/prudencio/graphnodeview/Node.java:128-130 | `getPosY()` then returns the value set; only `posY` changes |
| NodeModel.Node.SetLocation | GraphNodeView/src/main/java/com/prudencio/graphnodeview/Node.java:136-138 | `getLocation()` then returns the value set; only the location changes |

## Left out

- GraphView.java and GraphNodeDemoActivity.java: Android drawing, gesture handling and activity lifecycle, outside the layout engine.
- The commented-out HTTP/JSON loader in ForceDirectedGraph.java: network I/O, and dead code.
- Floating point: `double`, the `float` field `area` and the `0.01f` literal are exact reals here, so rounding, overflow to infinity and NaN are not modelled; no convergence or layout-quality property is claimed.
- `Math.sqrt` is a function value passed to the constructors and constrained by `IsSqrt`; no particular implementation is modelled.
- `java.util.Random`: only the range of `nextInt(400)` is modelled, not its distribution or seed.
- `Node`'s `photo` field and `getPhoto`/`setPhoto`: an Android `Bitmap`, never read by the layout.
- The getters of `Node` and `getGraph` are plain functions that return their field; they have no contract of their own.
- `setAdjacentNodes(null)`, `setGraph(null)` and the other null references Java allows: Dafny references here are never null.
- `NodeList` models only the `ArrayList` operations the core uses: the constructor, `add`, `size` and `get`.
- Layout.ForceDirectedGraph.ForcedBasedDrawing: proved only for a list without repeated nodes whose edges stay inside the list (`Valid`). The demonstration graph always meets this. Java steps any list.
- Layout.ForceDirectedGraph.SetGraph: requires that the new list has no repeated nodes and edges only inside itself, so that the engine stays `Valid`; Java accepts any list.
- Layout.ForceDirectedGraph.AttractNode: reads the node's adjacency list once before its loop, where Java calls `getAdjacentNodes()` on every iteration. The pass writes only displacements, so the list read is the same.
- Layout.ForceDirectedGraph.GenerateComplexGraph: builds the new list in a local and stores it in the field at the end, where Java assigns the field first. Nothing reads the field in between.
- Integer widths: `nIterations`, the ids and the loop indices are unbounded integers; the loops are bounded by the list size, and the ids by 17, so no 32-bit wrap-around is reachable.
