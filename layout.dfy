/** ForceDirectedGraph.java: the layout engine. It owns a list of nodes and the
    constants of the simulation; `ForcedBasedDrawing` advances the layout by one
    step, in place, and is proved to compute `Forces.Step` on the nodes' states. */
module Layout {
  import opened Forces
  import opened ForceLaws
  import opened NodeModel

  // ------------------------------------------------- heap to value abstraction

  /** The layout state of a node object. */
  function ParticleOf(n: Node): Particle
    reads n
  {
    Particle(Vec(n.posX, n.posY), Vec(n.dispX, n.dispY), n.isDragged)
  }

  /** The layout states of a list of nodes, in list order. */
  function Snapshot(g: seq<Node>): seq<Particle>
    reads g
  {
    seq(|g|, i requires 0 <= i < |g| reads g => ParticleOf(g[i]))
  }

  /** No node object occurs twice in the list. */
  ghost predicate Distinct(g: seq<Node>)
  {
    forall i, j :: 0 <= i < |g| && 0 <= j < |g| && i != j ==> g[i] != g[j]
  }

  /** Every adjacency entry is a node of the list itself. */
  ghost predicate Closed(g: seq<Node>)
    reads g, set n | n in g :: n.adjacentNodes
  {
    forall i :: 0 <= i < |g| ==> forall m :: m in g[i].adjacentNodes.items ==> m in g
  }

  /** The adjacency lists of `g` are, entry by entry, the nodes `adj` indexes. */
  ghost predicate HasEdges(g: seq<Node>, adj: seq<seq<nat>>)
    reads g, set n | n in g :: n.adjacentNodes
  {
    AdjacencyOf(adj, |g|) &&
    forall q :: 0 <= q < |g| ==>
      |g[q].adjacentNodes.items| == |adj[q]| &&
      forall k :: 0 <= k < |adj[q]| ==> g[q].adjacentNodes.items[k] == g[adj[q][k]]
  }

  /** Since the start of the enclosing method, no node of `g` has had its id,
      adjacency list, dragged flag, name or location changed. */
  twostate predicate AttrsKept(g: seq<Node>)
    reads g
  {
    forall t :: 0 <= t < |g| ==> g[t].Attrs() == old(g[t].Attrs())
  }

  /** The attributes of a list of nodes that the layout never writes, in list order. */
  function AttrsOf(g: seq<Node>): seq<Attributes>
    reads g
  {
    seq(|g|, i requires 0 <= i < |g| reads g => g[i].Attrs())
  }

  twostate lemma AttrsOfKept(g: seq<Node>)
    requires AttrsKept(g)
    ensures AttrsOf(g) == old(AttrsOf(g))
  {
  }

  /** A list has the edges `adj` while its nodes keep the attributes `a` and
      the adjacency lists those name hold `lists`. */
  lemma EdgesFromLists(g: seq<Node>, adj: seq<seq<nat>>, a: seq<Attributes>, lists: seq<seq<Node>>)
    requires AttrsOf(g) == a && |lists| == |g| && AdjacencyOf(adj, |g|)
    requires forall q :: 0 <= q < |g| ==> a[q].adjacentNodes.items == lists[q]
    requires forall q :: 0 <= q < |g| ==>
               |lists[q]| == |adj[q]| && forall k :: 0 <= k < |adj[q]| ==> lists[q][k] == g[adj[q][k]]
    ensures HasEdges(g, adj)
  {
    forall q | 0 <= q < |g| ensures g[q].adjacentNodes == a[q].adjacentNodes {
      assert AttrsOf(g)[q] == a[q];
    }
  }

  /** The position of the first occurrence of `n` in `g`. */
  function IndexOf(g: seq<Node>, n: Node): (i: nat)
    requires n in g
    ensures i < |g| && g[i] == n
    ensures forall j :: 0 <= j < i ==> g[j] != n
  {
    if g[0] == n then 0 else 1 + IndexOf(g[1..], n)
  }

  function Indices(g: seq<Node>, targets: seq<Node>): (r: seq<nat>)
    requires forall m :: m in targets ==> m in g
    ensures |r| == |targets|
    ensures forall k :: 0 <= k < |r| ==> r[k] < |g| && g[r[k]] == targets[k]
  {
    seq(|targets|, k requires 0 <= k < |targets| => IndexOf(g, targets[k]))
  }

  /** The adjacency of a closed list of nodes, as indices into the list. */
  function Adjacency(g: seq<Node>): (adj: seq<seq<nat>>)
    reads g, set n | n in g :: n.adjacentNodes
    requires Closed(g)
    ensures HasEdges(g, adj)
  {
    seq(|g|, q requires 0 <= q < |g| && Closed(g) reads g, set n | n in g :: n.adjacentNodes =>
               Indices(g, g[q].adjacentNodes.items))
  }

  /** In a list without repeated nodes the index form of the adjacency is
      unique, so whatever indices describe the edges are those of `Adjacency`. */
  lemma {:induction false} EdgesDetermineAdjacency(g: seq<Node>, adj: seq<seq<nat>>)
    requires Distinct(g) && HasEdges(g, adj)
    ensures Closed(g) && Adjacency(g) == adj
  {
    forall i | 0 <= i < |g|
      ensures forall m :: m in g[i].adjacentNodes.items ==> m in g
    {
      forall m | m in g[i].adjacentNodes.items ensures m in g {
        var k :| 0 <= k < |g[i].adjacentNodes.items| && g[i].adjacentNodes.items[k] == m;
        assert m == g[adj[i][k]];
      }
    }
    var a := Adjacency(g);
    forall q | 0 <= q < |g| ensures a[q] == adj[q] {
      forall k | 0 <= k < |adj[q]| ensures a[q][k] == adj[q][k] {
        assert g[a[q][k]] == g[adj[q][k]];
      }
    }
  }

  // ----------------------------------------------------- the demonstration graph

  /** The edges `generateComplexGraph` creates: 0 -> 1..5, 1 -> 6,7, 2 -> 8,9, 3 -> 10..16. */
  const DemoEdges: seq<seq<nat>> :=
    [[1, 2, 3, 4, 5], [6, 7], [8, 9], [10, 11, 12, 13, 14, 15, 16],
     [], [], [], [], [], [], [], [], [], [], [], [], []]

  /** A value `(double) rand.nextInt(400)` can produce. */
  predicate IsCoordinate(r: real)
  {
    0.0 <= r < 400.0 && r.Floor as real == r
  }

  /** A node as the generator leaves it, apart from its adjacency. */
  ghost predicate Generated(n: Node, id: int)
    reads n
  {
    n.id == id && IsCoordinate(n.posX) && IsCoordinate(n.posY) &&
    n.dispX == 0.0 && n.dispY == 0.0 && !n.isDragged &&
    n.name == "John" && n.location == "Porto"
  }

  /** The graph `generateComplexGraph` builds: 17 distinct nodes with ids 0..16
      in order, integer coordinates in [0, 400) and exactly the edges `DemoEdges`. */
  ghost predicate DemoGraph(g: seq<Node>)
    reads g, set n | n in g :: n.adjacentNodes
  {
    |g| == 17 && Distinct(g) && HasEdges(g, DemoEdges) &&
    forall i :: 0 <= i < |g| ==> Generated(g[i], i)
  }

  /** The loop of `generateComplexGraph`: nodes 0 to 16, in order, each at
      coordinates `(double) rand.nextInt(400)`, which is any integer in [0, 400). */
  method NewNodes() returns (list: NodeList)
    ensures fresh(list) && |list.items| == 17 && Distinct(list.items)
    ensures forall j :: 0 <= j < 17 ==> fresh(list.items[j]) && Generated(list.items[j], j)
    ensures forall j :: 0 <= j < 17 ==>
              fresh(list.items[j].adjacentNodes) && list.items[j].adjacentNodes.items == []
  {
    list := new NodeList();
    var i := 0;
    while i < 17
      invariant 0 <= i <= 17 && |list.items| == i && fresh(list)
      invariant Distinct(list.items)
      invariant forall j :: 0 <= j < i ==> fresh(list.items[j]) && Generated(list.items[j], j)
      invariant forall j :: 0 <= j < i ==>
                  list.items[j].adjacentNodes != list && fresh(list.items[j].adjacentNodes) &&
                  list.items[j].adjacentNodes.items == []
    {
      var node := new Node(i);
      var x: int :| 0 <= x < 400;
      node.SetPosX(x as real);
      var y: int :| 0 <= y < 400;
      node.SetPosY(y as real);
      list.Add(node);
      i := i + 1;
    }
  }

  /** Node 0 gets a new list holding nodes 1 to 5. */
  method ConnectNode0(list: NodeList, node: Node)
    requires |list.items| == 17 && node == list.items[0] && Generated(node, 0)
    modifies node`adjacentNodes
    ensures Generated(node, 0)
    ensures fresh(node.adjacentNodes) && node.adjacentNodes.items == list.items[1..6]
  {
    var adjacentNodes := new NodeList();
    adjacentNodes.Add(list.Get(1));
    adjacentNodes.Add(list.Get(2));
    adjacentNodes.Add(list.Get(3));
    adjacentNodes.Add(list.Get(4));
    adjacentNodes.Add(list.Get(5));
    node.SetAdjacentNodes(adjacentNodes);
  }

  /** Node 1 gets a new list holding nodes 6 and 7. */
  method ConnectNode1(list: NodeList, node1: Node)
    requires |list.items| == 17 && node1 == list.items[1] && Generated(node1, 1)
    modifies node1`adjacentNodes
    ensures Generated(node1, 1)
    ensures fresh(node1.adjacentNodes) && node1.adjacentNodes.items == list.items[6..8]
  {
    var adjacentNodes1 := new NodeList();
    adjacentNodes1.Add(list.Get(6));
    adjacentNodes1.Add(list.Get(7));
    node1.SetAdjacentNodes(adjacentNodes1);
  }

  /** Node 2 gets a new list holding nodes 8 and 9. */
  method ConnectNode2(list: NodeList, node2: Node)
    requires |list.items| == 17 && node2 == list.items[2] && Generated(node2, 2)
    modifies node2`adjacentNodes
    ensures Generated(node2, 2)
    ensures fresh(node2.adjacentNodes) && node2.adjacentNodes.items == list.items[8..10]
  {
    var adjacentNodes2 := new NodeList();
    adjacentNodes2.Add(list.Get(8));
    adjacentNodes2.Add(list.Get(9));
    node2.SetAdjacentNodes(adjacentNodes2);
  }

  /** Node 3 gets a new list holding nodes 10 to 16. */
  method ConnectNode3(list: NodeList, node3: Node)
    requires |list.items| == 17 && node3 == list.items[3] && Generated(node3, 3)
    modifies node3`adjacentNodes
    ensures Generated(node3, 3)
    ensures fresh(node3.adjacentNodes) && node3.adjacentNodes.items == list.items[10..17]
  {
    var adjacentNodes3 := new NodeList();
    adjacentNodes3.Add(list.Get(10));
    adjacentNodes3.Add(list.Get(11));
    adjacentNodes3.Add(list.Get(12));
    adjacentNodes3.Add(list.Get(13));
    adjacentNodes3.Add(list.Get(14));
    adjacentNodes3.Add(list.Get(15));
    adjacentNodes3.Add(list.Get(16));
    node3.SetAdjacentNodes(adjacentNodes3);
  }

  /** The adjacency lists the generator leaves are exactly `DemoEdges`. */
  lemma DemoEdgesFrom(g: seq<Node>)
    requires |g| == 17
    requires g[0].adjacentNodes.items == g[1..6] && g[1].adjacentNodes.items == g[6..8]
    requires g[2].adjacentNodes.items == g[8..10] && g[3].adjacentNodes.items == g[10..17]
    requires forall i :: 4 <= i < 17 ==> g[i].adjacentNodes.items == []
    ensures HasEdges(g, DemoEdges)
  {
    forall q | 0 <= q < 17
      ensures |g[q].adjacentNodes.items| == |DemoEdges[q]|
      ensures forall k :: 0 <= k < |DemoEdges[q]| ==> g[q].adjacentNodes.items[k] == g[DemoEdges[q][k]]
    {
      if q >= 4 {
        assert DemoEdges[q] == [];
      }
    }
  }

  // ------------------------------------------------------------------- engine

  class ForceDirectedGraph {
    var graph: NodeList
    var area: real
    var gravity: real
    var speed: real
    var maxDisplace: real
    var kFactor: real
    var nIterations: int
    /** The square root the engine uses where the source calls `Math.sqrt`. */
    const sqrt: real -> real

    ghost predicate Valid()
      reads this, graph, graph.items, set n | n in graph.items :: n.adjacentNodes
    {
      IsSqrt(sqrt) && kFactor > 0.0 && Distinct(graph.items) && Closed(graph.items)
    }

    /** The constants as `init` sets them, over a freshly generated graph. */
    ghost predicate Initialised()
      reads this, graph, graph.items, set n | n in graph.items :: n.adjacentNodes
    {
      Valid() && DemoGraph(graph.items) &&
      nIterations == 100 && speed == 1.0 && area == 400.0 && gravity == 10.0 &&
      maxDisplace == 40.0 &&
      kFactor * kFactor == AreaMultiplicator * area / (1.0 + |graph.items| as real)
    }

    /** The fields a step reads. */
    function Config(): Params
      reads this
    {
      Params(nIterations, speed, gravity, maxDisplace, kFactor)
    }

    /** `ForceDirectedGraph()` */
    constructor (sqrt: real -> real)
      requires IsSqrt(sqrt)
      ensures Initialised() && fresh(graph)
      ensures forall i :: 0 <= i < |graph.items| ==> fresh(graph.items[i])
    {
      this.sqrt := sqrt;
      graph := new NodeList();
      area, gravity, speed, maxDisplace, kFactor, nIterations := 0.0, 0.0, 0.0, 0.0, 0.0, 0;
      new;
      Init();
    }

    /** `ForceDirectedGraph(ArrayList<Node> graph)`: the list is stored and then
        replaced by `init`, so the engine never holds the caller's list. */
    constructor WithGraph(graph: NodeList, sqrt: real -> real)
      requires IsSqrt(sqrt)
      ensures Initialised() && fresh(this.graph) && this.graph != graph
      ensures forall i :: 0 <= i < |this.graph.items| ==> fresh(this.graph.items[i])
    {
      this.sqrt := sqrt;
      this.graph := graph;
      area, gravity, speed, maxDisplace, kFactor, nIterations := 0.0, 0.0, 0.0, 0.0, 0.0, 0;
      new;
      Init();
    }

    /** `init`: regenerates the graph, then sets the constants; `kFactor` is
        derived from the size of the new graph. */
    method Init()
      requires IsSqrt(sqrt)
      modifies this
      ensures Initialised() && fresh(graph)
      ensures forall i :: 0 <= i < |graph.items| ==> fresh(graph.items[i])
    {
      GenerateComplexGraph();
      EdgesDetermineAdjacency(graph.items, DemoEdges);
      SetConstants();
    }

    /** The assignments of `init` after the graph is generated. */
    method SetConstants()
      requires IsSqrt(sqrt)
      modifies this`nIterations, this`speed, this`area, this`gravity, this`maxDisplace, this`kFactor
      ensures nIterations == 100 && speed == 1.0 && area == 400.0 && gravity == 10.0
      ensures maxDisplace == 40.0 && kFactor > 0.0
      ensures kFactor * kFactor == AreaMultiplicator * area / (1.0 + |graph.items| as real)
    {
      nIterations := 100;
      speed := 1.0;
      area := 400.0;
      gravity := 10.0;
      maxDisplace := sqrt(AreaMultiplicator * area) / 10.0;
      kFactor := sqrt(AreaMultiplicator * area / (1.0 + graph.Size() as real));
      assert AreaMultiplicator * area == 400.0 * 400.0;
      SqrtUnique(sqrt(AreaMultiplicator * area), 400.0);
      SqrtPositive(AreaMultiplicator * area / (1.0 + |graph.items| as real), sqrt);
    }

    /** `getGraph`: the list object itself. */
    function GetGraph(): NodeList
      reads this
    {
      graph
    }

    /** `setGraph`: replaces the list reference; the constants, `kFactor`
        included, are not recomputed. */
    method SetGraph(graph: NodeList)
      requires Valid()
      requires Distinct(graph.items) && Closed(graph.items)
      modifies this`graph
      ensures GetGraph() == graph && Config() == old(Config()) && Valid()
    {
      this.graph := graph;
    }

    /** `generateComplexGraph`: a new list of 17 new nodes at random integer
        coordinates, and adjacency only on nodes 0 to 3. The source builds the
        list in the field itself; here it is built in a local and stored at the
        end, which no caller can tell apart. */
    method GenerateComplexGraph()
      modifies this`graph
      ensures fresh(graph) && DemoGraph(graph.items)
      ensures forall i :: 0 <= i < |graph.items| ==> fresh(graph.items[i])
    {
      var list := NewNodes();
      ghost var g := list.items;
      var node := list.Get(0);
      ConnectNode0(list, node);
      var node1 := list.Get(1);
      ConnectNode1(list, node1);
      var node2 := list.Get(2);
      ConnectNode2(list, node2);
      var node3 := list.Get(3);
      ConnectNode3(list, node3);
      graph := list;
      DemoEdgesFrom(g);
    }

    /** `forcedBasedDrawing`: one layout step. It writes only the positions and
        displacements of the graph's nodes: the list, its order, and every
        node's id, adjacency list, dragged flag, name and location stay as they
        were, and the new states are `Step` of the old ones. The six loops of
        the source are the six pass methods below, called in the same order. */
    method ForcedBasedDrawing()
      requires Valid()
      modifies set n | n in graph.items
      ensures Valid() && AttrsOf(graph.items) == old(AttrsOf(graph.items))
      ensures Snapshot(graph.items) ==
              Step(old(Snapshot(graph.items)), old(Adjacency(graph.items)), Config(), sqrt)
      ensures nIterations < 1 || |graph.items| < 1 ==> Snapshot(graph.items) == old(Snapshot(graph.items))
    {
      var g := graph.items;
      if nIterations < 1 || graph.Size() < 1 {
        return;
      }
      ghost var adj := Adjacency(g);
      RunPasses(g, adj);
      EdgesDetermineAdjacency(g, adj);
    }

    /** The body of `forcedBasedDrawing` past its guard: the six passes in order. */
    method RunPasses(g: seq<Node>, ghost adj: seq<seq<nat>>)
      requires kFactor > 0.0 && nIterations >= 1 && |g| >= 1 && Distinct(g) && HasEdges(g, adj)
      modifies set n | n in g
      ensures AttrsOf(g) == old(AttrsOf(g)) && HasEdges(g, adj)
      ensures Snapshot(g) == Step(old(Snapshot(g)), adj, Config(), sqrt)
    {
      ghost var a := AttrsOf(g);
      ghost var lists := seq(|g|, q requires 0 <= q < |g| reads g, set n | n in g :: n.adjacentNodes =>
                                 g[q].adjacentNodes.items);
      ResetPass(g);
      RepulsionPass(g);
      EdgesFromLists(g, adj, a, lists);
      AttractionPass(g, adj);
      GravityPass(g);
      DampingPass(g);
      UpdatePass(g);
      EdgesFromLists(g, adj, a, lists);
    }

    /** Loop 1: every displacement to zero. */
    method ResetPass(g: seq<Node>)
      requires Distinct(g)
      modifies set n | n in g
      ensures AttrsOf(g) == old(AttrsOf(g))
      ensures Snapshot(g) == Reset(old(Snapshot(g)))
    {
      ghost var s0 := Snapshot(g);
      ghost var s1 := Reset(s0);
      var i := 0;
      while i < |g|
        invariant 0 <= i <= |g|
        invariant AttrsKept(g)
        invariant forall t :: 0 <= t < |g| ==> ParticleOf(g[t]) == if t < i then s1[t] else s0[t]
      {
        var nodeV := g[i];
        nodeV.SetDispX(0.0);
        nodeV.SetDispY(0.0);
        i := i + 1;
      }
      assert Snapshot(g) == s1;
      AttrsOfKept(g);
    }

    /** Loop 2: repulsion between every ordered pair of distinct list positions. */
    method RepulsionPass(g: seq<Node>)
      requires Distinct(g)
      modifies set n | n in g
      ensures AttrsOf(g) == old(AttrsOf(g))
      ensures Snapshot(g) == Repulse(old(Snapshot(g)), Config(), sqrt)
    {
      ghost var s1 := Snapshot(g);
      ghost var s2 := Repulse(s1, Config(), sqrt);
      var r := 0;
      while r < |g|
        invariant 0 <= r <= |g|
        invariant AttrsKept(g)
        invariant forall t :: 0 <= t < |g| ==> ParticleOf(g[t]) == if t < r then s2[t] else s1[t]
      {
        RepelNode(g, r, s1);
        r := r + 1;
      }
      assert Snapshot(g) == s2;
      AttrsOfKept(g);
    }

    /** The inner loop of pass 2: node `r` is pushed away from every other
        node; `s` records the states the pass started from. */
    method RepelNode(g: seq<Node>, r: nat, ghost s: seq<Particle>)
      requires Distinct(g) && r < |g| == |s|
      requires ParticleOf(g[r]) == s[r]
      requires forall t :: 0 <= t < |g| ==> ParticleOf(g[t]).pos == s[t].pos
      modifies g[r]
      ensures g[r].Attrs() == old(g[r].Attrs())
      ensures ParticleOf(g[r]) == s[r].(disp := RepelUpTo(s, r, |g|, Config(), sqrt))
    {
      var nodeV := g[r];
      var j := 0;
      while j < |g|
        invariant 0 <= j <= |g|
        invariant nodeV.Attrs() == old(nodeV.Attrs())
        invariant ParticleOf(nodeV) == s[r].(disp := RepelUpTo(s, r, j, Config(), sqrt))
      {
        if r != j {
          var nodeU := g[j];
          assert ParticleOf(nodeU).pos == s[j].pos;
          RepelPair(nodeV, nodeU);
        }
        j := j + 1;
      }
    }

    /** One iteration of the inner loop of pass 2: `nodeV` is pushed away from `nodeU`. */
    method RepelPair(nodeV: Node, nodeU: Node)
      modifies nodeV`dispX, nodeV`dispY
      ensures Vec(nodeV.dispX, nodeV.dispY) ==
              RepelStep(old(Vec(nodeV.dispX, nodeV.dispY)), Vec(nodeV.posX, nodeV.posY),
                        Vec(nodeU.posX, nodeU.posY), Config(), sqrt)
    {
      var deltaPosX := nodeV.GetPosX() - nodeU.GetPosX();
      var deltaPosY := nodeV.GetPosY() - nodeU.GetPosY();
      var magnitudeDelta := Magnitude(deltaPosX, deltaPosY, sqrt);
      RepelStepFrom(Vec(nodeV.dispX, nodeV.dispY), Vec(nodeV.posX, nodeV.posY), Vec(nodeU.posX, nodeU.posY),
                    Config(), sqrt, deltaPosX, deltaPosY, magnitudeDelta);
      if magnitudeDelta > 0.0 {
        var rForce := ForceRepulsive(magnitudeDelta, kFactor);
        nodeV.SetDispX(nodeV.GetDispX() + deltaPosX / magnitudeDelta * rForce);
        nodeV.SetDispY(nodeV.GetDispY() + deltaPosY / magnitudeDelta * rForce);
      }
    }

    /** Loop 3: attraction along every adjacency edge, on both endpoints. */
    method AttractionPass(g: seq<Node>, ghost adj: seq<seq<nat>>)
      requires kFactor > 0.0 && Distinct(g) && HasEdges(g, adj)
      modifies set n | n in g
      ensures AttrsOf(g) == old(AttrsOf(g))
      ensures Snapshot(g) == Attract(old(Snapshot(g)), adj, Config(), sqrt)
    {
      ghost var s2 := Snapshot(g);
      var q := 0;
      while q < |g|
        invariant 0 <= q <= |g|
        invariant AttrsOf(g) == old(AttrsOf(g))
        invariant Snapshot(g) == AttractUpTo(s2, adj, q, Config(), sqrt)
      {
        assert g[q].adjacentNodes == old(g[q].adjacentNodes) by {
          assert AttrsOf(g)[q] == old(AttrsOf(g))[q];
        }
        AttractNode(g, q, adj);
        q := q + 1;
      }
    }

    /** The inner loop of pass 3: every edge leaving node `q`, in list order;
        `cur` records the states the row started from. */
    method AttractNode(g: seq<Node>, q: nat, ghost adj: seq<seq<nat>>)
      requires kFactor > 0.0 && Distinct(g) && AdjacencyOf(adj, |g|) && q < |g|
      requires |g[q].adjacentNodes.items| == |adj[q]|
      requires forall k :: 0 <= k < |adj[q]| ==> g[q].adjacentNodes.items[k] == g[adj[q][k]]
      modifies set n | n in g
      ensures AttrsOf(g) == old(AttrsOf(g))
      ensures Snapshot(g) == AttractRow(old(Snapshot(g)), adj, q, |adj[q]|, Config(), sqrt)
    {
      ghost var p := Config();
      ghost var cur := Snapshot(g);
      var newNodeV := g[q];
      var adjacent := newNodeV.GetAdjacentNodes();
      var k := 0;
      while k < adjacent.Size()
        invariant 0 <= k <= |adjacent.items| == |adj[q]|
        invariant AttrsOf(g) == old(AttrsOf(g))
        invariant Snapshot(g) == AttractRow(cur, adj, q, k, p, sqrt)
      {
        var nodeU := adjacent.Get(k);
        assert nodeU == g[adj[q][k]];
        AttractEdge(g, q, adj[q][k], newNodeV, nodeU);
        k := k + 1;
      }
    }

    /** One edge `g[v] -> g[u]` of pass 3, on the whole list: the states become
        `ApplyEdge` of the states before. */
    method AttractEdge(g: seq<Node>, v: nat, ghost u: nat, nodeV: Node, nodeU: Node)
      requires kFactor > 0.0 && Distinct(g)
      requires v < |g| && u < |g| && nodeV == g[v] && nodeU == g[u]
      modifies nodeV`dispX, nodeV`dispY, nodeU`dispX, nodeU`dispY
      ensures AttrsOf(g) == old(AttrsOf(g))
      ensures Snapshot(g) == ApplyEdge(old(Snapshot(g)), v, u, Config(), sqrt)
    {
      ghost var now := Snapshot(g);
      AttractPair(nodeV, nodeU);
      EdgeEffect(now, v, u);
      ghost var next := ApplyEdge(now, v, u, Config(), sqrt);
      forall t | 0 <= t < |g| ensures ParticleOf(g[t]) == next[t] {
        if t != v && t != u {
          assert g[t] != nodeV && g[t] != nodeU;
        }
      }
      assert Snapshot(g) == next;
    }

    /** `ApplyEdge` on the two endpoints of the edge, self-loops included. */
    lemma EdgeEffect(ps: seq<Particle>, v: nat, u: nat)
      requires kFactor > 0.0 && v < |ps| && u < |ps|
      ensures var r := ApplyEdge(ps, v, u, Config(), sqrt);
              var c := AttractionVector(ps[v].pos, ps[u].pos, Config(), sqrt);
              (v != u ==> r[v].disp == Minus(ps[v].disp, c) && r[u].disp == Plus(ps[u].disp, c)) &&
              (v == u ==> r[v].disp == Plus(Minus(ps[v].disp, c), c)) &&
              forall i :: 0 <= i < |ps| && i != v && i != u ==> r[i] == ps[i]
    {
      if v != u {
        EdgeIsEqualAndOpposite(ps, v, u, Config(), sqrt);
      }
    }

    /** One iteration of the inner loop of pass 3, for the edge `nodeV -> nodeU`.
        On a self-loop the second pair of writes reads the first: the node's
        displacement loses the vector and gets it back. */
    method AttractPair(nodeV: Node, nodeU: Node)
      requires kFactor > 0.0
      modifies nodeV`dispX, nodeV`dispY, nodeU`dispX, nodeU`dispY
      ensures var c := AttractionVector(Vec(nodeV.posX, nodeV.posY), Vec(nodeU.posX, nodeU.posY), Config(), sqrt);
              nodeV != nodeU ==>
                Vec(nodeV.dispX, nodeV.dispY) == Minus(old(Vec(nodeV.dispX, nodeV.dispY)), c) &&
                Vec(nodeU.dispX, nodeU.dispY) == Plus(old(Vec(nodeU.dispX, nodeU.dispY)), c)
      ensures var c := AttractionVector(Vec(nodeV.posX, nodeV.posY), Vec(nodeU.posX, nodeU.posY), Config(), sqrt);
              nodeV == nodeU ==>
                Vec(nodeV.dispX, nodeV.dispY) == Plus(Minus(old(Vec(nodeV.dispX, nodeV.dispY)), c), c)
    {
      var deltaPosX := nodeV.GetPosX() - nodeU.GetPosX();
      var deltaPosY := nodeV.GetPosY() - nodeU.GetPosY();
      var magnitudeDelta := Magnitude(deltaPosX, deltaPosY, sqrt);
      if magnitudeDelta > 0.0 {
        var aForce := ForceAttraction(magnitudeDelta, kFactor);
        nodeV.SetDispX(nodeV.GetDispX() - deltaPosX / magnitudeDelta * aForce);
        nodeV.SetDispY(nodeV.GetDispY() - deltaPosY / magnitudeDelta * aForce);
        nodeU.SetDispX(nodeU.GetDispX() + deltaPosX / magnitudeDelta * aForce);
        nodeU.SetDispY(nodeU.GetDispY() + deltaPosY / magnitudeDelta * aForce);
      }
    }

    /** Loop 4: gravity, scaled by the list index. */
    method GravityPass(g: seq<Node>)
      requires Distinct(g)
      modifies set n | n in g
      ensures AttrsOf(g) == old(AttrsOf(g))
      ensures Snapshot(g) == Gravity(old(Snapshot(g)), Config(), sqrt)
    {
      ghost var s3 := Snapshot(g);
      ghost var s4 := Gravity(s3, Config(), sqrt);
      var d := 0;
      while d < |g|
        invariant 0 <= d <= |g|
        invariant AttrsKept(g)
        invariant forall t :: 0 <= t < |g| ==> ParticleOf(g[t]) == if t < d then s4[t] else s3[t]
      {
        GravityNode(g[d], d);
        d := d + 1;
      }
      assert Snapshot(g) == s4;
      AttrsOfKept(g);
    }

    /** One iteration of pass 4, on the node at list index `d`. */
    method GravityNode(newNodeV: Node, d: nat)
      modifies newNodeV`dispX, newNodeV`dispY
      ensures ParticleOf(newNodeV) == GravityStep(old(ParticleOf(newNodeV)), d, Config(), sqrt)
    {
      var magnitudeDelta := Magnitude(newNodeV.GetDispX(), newNodeV.GetDispY(), sqrt);
      GravityStepFrom(ParticleOf(newNodeV), d, Config(), sqrt, magnitudeDelta);
      if magnitudeDelta > 0.0 {
        var gf := GravityScale * kFactor * gravity * (d as real);
        newNodeV.SetDispX(newNodeV.GetDispX() - gf * newNodeV.GetPosX() / magnitudeDelta);
        newNodeV.SetDispY(newNodeV.GetDispY() - gf * newNodeV.GetPosY() / magnitudeDelta);
      }
    }

    /** Loop 5: damping by speed / 32. */
    method DampingPass(g: seq<Node>)
      requires Distinct(g)
      modifies set n | n in g
      ensures AttrsOf(g) == old(AttrsOf(g))
      ensures Snapshot(g) == Damp(old(Snapshot(g)), Config())
    {
      ghost var s4 := Snapshot(g);
      ghost var s5 := Damp(s4, Config());
      var u := 0;
      while u < |g|
        invariant 0 <= u <= |g|
        invariant AttrsKept(g)
        invariant forall t :: 0 <= t < |g| ==> ParticleOf(g[t]) == if t < u then s5[t] else s4[t]
      {
        var newNodeV := g[u];
        newNodeV.SetDispX(newNodeV.GetDispX() * speed / SpeedDivisor);
        newNodeV.SetDispY(newNodeV.GetDispY() * speed / SpeedDivisor);
        u := u + 1;
      }
      assert Snapshot(g) == s5;
      AttrsOfKept(g);
    }

    /** Loop 6: capped position update of every node that is not dragged. */
    method UpdatePass(g: seq<Node>)
      requires Distinct(g)
      modifies set n | n in g
      ensures AttrsOf(g) == old(AttrsOf(g))
      ensures Snapshot(g) == Move(old(Snapshot(g)), Config(), sqrt)
    {
      ghost var s5 := Snapshot(g);
      ghost var s6 := Move(s5, Config(), sqrt);
      var w := 0;
      while w < |g|
        invariant 0 <= w <= |g|
        invariant AttrsKept(g)
        invariant forall t :: 0 <= t < |g| ==> ParticleOf(g[t]) == if t < w then s6[t] else s5[t]
      {
        UpdateNode(g[w]);
        w := w + 1;
      }
      assert Snapshot(g) == s6;
      AttrsOfKept(g);
    }

    /** One iteration of pass 6. */
    method UpdateNode(newNodeV: Node)
      modifies newNodeV`posX, newNodeV`posY
      ensures ParticleOf(newNodeV) == MoveStep(old(ParticleOf(newNodeV)), Config(), sqrt)
    {
      var magnitudeDelta := Magnitude(newNodeV.GetDispX(), newNodeV.GetDispY(), sqrt);
      MoveStepFrom(ParticleOf(newNodeV), Config(), sqrt, magnitudeDelta);
      if magnitudeDelta > 0.0 {
        var limitedDist := LimitedDist(magnitudeDelta, Config());
        if !newNodeV.IsDragged() {
          newNodeV.SetPosX(newNodeV.GetPosX() + newNodeV.GetDispX() * limitedDist);
          newNodeV.SetPosY(newNodeV.GetPosY() + newNodeV.GetDispY() * limitedDist);
        }
      }
    }
  }
}
