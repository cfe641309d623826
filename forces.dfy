/** The layout step of ForceDirectedGraph.java, stated on values.

    A node's dynamic state is a `Particle` (position, displacement, dragged
    flag); the graph is a sequence of particles and its adjacency a sequence
    of index lists. Each of the six passes of one step is a function here,
    written in the order and with the arithmetic of the Java loops, and
    `Step` composes them. The class in layout.dfy is proved to compute `Step`.
 */
module Forces {

  datatype Vec = Vec(x: real, y: real)

  const Zero: Vec := Vec(0.0, 0.0)

  function Plus(a: Vec, b: Vec): Vec { Vec(a.x + b.x, a.y + b.y) }

  function Minus(a: Vec, b: Vec): Vec { Vec(a.x - b.x, a.y - b.y) }

  /** The layout state of one node: what a step reads and writes. */
  datatype Particle = Particle(pos: Vec, disp: Vec, dragged: bool)

  /** The engine fields a step reads. */
  datatype Params = Params(nIterations: int, speed: real, gravity: real,
                           maxDisplace: real, kFactor: real)

  /** A step divides by `kFactor` in the attraction force. */
  predicate ValidParams(p: Params) { p.kFactor != 0.0 }

  const SpeedDivisor: real := 32.0
  const AreaMultiplicator: real := 400.0
  /** The single-precision literal `0.01f`, taken as the real 0.01. */
  const GravityScale: real := 0.01

  /** `f` behaves as `Math.sqrt` on the non-negative reals. */
  ghost predicate IsSqrt(f: real -> real)
  {
    forall x :: x >= 0.0 ==> f(x) >= 0.0 && f(x) * f(x) == x
  }

  // ---------------------------------------------------------------- scalars

  /** `vectorMagnitude`: the Euclidean norm, through the given square root. */
  function Magnitude(x: real, y: real, sqrt: real -> real): real
  {
    sqrt(x * x + y * y)
  }

  /** `forceAttraction`: d²/k. */
  function ForceAttraction(x: real, kFactor: real): (r: real)
    requires kFactor != 0.0
    ensures r * kFactor == x * x
    ensures kFactor > 0.0 ==> r >= 0.0
  {
    SquareNonNegative(x);
    x * x / kFactor
  }

  /** `forceRepulsive`: k²/d. */
  function ForceRepulsive(x: real, kFactor: real): (r: real)
    requires x != 0.0
    ensures r * x == kFactor * kFactor
    ensures x > 0.0 ==> r >= 0.0
  {
    SquareNonNegative(kFactor);
    kFactor * kFactor / x
  }

  /** `Math.min(magnitude, maxDisplace * (speed / 32))` of the update pass. */
  function LimitedDist(magnitude: real, p: Params): (r: real)
    ensures r <= magnitude && r <= p.maxDisplace * (p.speed / SpeedDivisor)
    ensures r == magnitude || r == p.maxDisplace * (p.speed / SpeedDivisor)
  {
    var cap := p.maxDisplace * (p.speed / SpeedDivisor);
    if magnitude <= cap then magnitude else cap
  }

  lemma SquareNonNegative(x: real)
    ensures x * x >= 0.0
  {
    if x < 0.0 {
      var y := -x;
      assert x * x == y * y;
      assert y * y >= 0.0 * y;
    }
  }

  lemma SquareLess(a: real, b: real)
    requires 0.0 <= a < b
    ensures a * a < b * b
  {
    var p, q, t := a * a, a * b, b * b;
    assert p <= q;
    assert q < t;
  }

  /** A non-negative square root is unique. */
  lemma {:induction false} SqrtUnique(r: real, s: real)
    requires r >= 0.0 && s >= 0.0 && r * r == s * s
    ensures r == s
  {
    if r < s { SquareLess(r, s); }
    else if r > s { SquareLess(s, r); }
  }

  /** The square root of a positive number is positive. */
  lemma SqrtPositive(x: real, sqrt: real -> real)
    requires IsSqrt(sqrt) && x > 0.0
    ensures sqrt(x) > 0.0 && sqrt(x) * sqrt(x) == x
  {
    var s := sqrt(x);
    assert s >= 0.0 && s * s == x;
  }

  /** The magnitude is zero exactly for the zero vector and positive otherwise,
      so each `magnitudeDelta > 0` test of a step skips exactly the zero vector. */
  lemma {:induction false} MagnitudeZeroIff(x: real, y: real, sqrt: real -> real)
    requires IsSqrt(sqrt)
    ensures Magnitude(x, y, sqrt) >= 0.0
    ensures Magnitude(x, y, sqrt) == 0.0 <==> x == 0.0 && y == 0.0
  {
    SquareNonNegative(x);
    SquareNonNegative(y);
    var s := x * x + y * y;
    var r := sqrt(s);
    assert r >= 0.0 && r * r == s;
    if x != 0.0 || y != 0.0 {
      if x != 0.0 { SquareLess(0.0, if x > 0.0 then x else -x); assert x * x == (-x) * (-x); }
      if y != 0.0 { SquareLess(0.0, if y > 0.0 then y else -y); assert y * y == (-y) * (-y); }
      assert s > 0.0;
      assert r != 0.0;
    } else {
      assert s == 0.0;
      assert r * r == 0.0 * 0.0;
      SqrtUnique(r, 0.0);
    }
  }

  // --------------------------------------------------------------- pass 1

  /** Reset pass: the displacement of every node is set to zero. */
  function Reset(ps: seq<Particle>): (r: seq<Particle>)
    ensures |r| == |ps|
    ensures forall i :: 0 <= i < |ps| ==>
              r[i].disp == Zero && r[i].pos == ps[i].pos && r[i].dragged == ps[i].dragged
  {
    seq(|ps|, i requires 0 <= i < |ps| => ps[i].(disp := Zero))
  }

  // --------------------------------------------------------------- pass 2

  /** One inner iteration of the repulsion pass: node `v` at `pv`, with
      displacement `disp`, is pushed away from a node at `pu`. */
  function RepelStep(disp: Vec, pv: Vec, pu: Vec, p: Params, sqrt: real -> real): Vec
  {
    var dx := pv.x - pu.x;
    var dy := pv.y - pu.y;
    var m := Magnitude(dx, dy, sqrt);
    if m > 0.0 then
      var f := ForceRepulsive(m, p.kFactor);
      Vec(disp.x + dx / m * f, disp.y + dy / m * f)
    else
      disp
  }

  /** `RepelStep` in terms of the intermediate values a caller computes. */
  lemma RepelStepFrom(disp: Vec, pv: Vec, pu: Vec, p: Params, sqrt: real -> real,
                      dx: real, dy: real, m: real)
    requires dx == pv.x - pu.x && dy == pv.y - pu.y && m == Magnitude(dx, dy, sqrt)
    ensures m > 0.0 ==> (RepelStep(disp, pv, pu, p, sqrt) ==
              Vec(disp.x + dx / m * ForceRepulsive(m, p.kFactor), disp.y + dy / m * ForceRepulsive(m, p.kFactor)))
    ensures m <= 0.0 ==> RepelStep(disp, pv, pu, p, sqrt) == disp
  {
  }

  /** Displacement of node `r` after the inner loop has visited the nodes `0..j-1`. */
  function RepelUpTo(ps: seq<Particle>, r: nat, j: nat, p: Params, sqrt: real -> real): Vec
    requires r < |ps| && j <= |ps|
    decreases j
  {
    if j == 0 then ps[r].disp
    else
      var d := RepelUpTo(ps, r, j - 1, p, sqrt);
      if r != j - 1 then RepelStep(d, ps[r].pos, ps[j - 1].pos, p, sqrt) else d
  }

  /** Repulsion pass: every node accumulates `k²/d` against every other node;
      positions are only read, so each node's result depends on the pass's input. */
  function Repulse(ps: seq<Particle>, p: Params, sqrt: real -> real): (r: seq<Particle>)
    ensures |r| == |ps|
    ensures forall i :: 0 <= i < |ps| ==> r[i].pos == ps[i].pos && r[i].dragged == ps[i].dragged
  {
    seq(|ps|, i requires 0 <= i < |ps| => ps[i].(disp := RepelUpTo(ps, i, |ps|, p, sqrt)))
  }

  // --------------------------------------------------------------- pass 3

  /** Adjacency lists whose entries are indices of the graph. */
  predicate AdjacencyOf(adj: seq<seq<nat>>, n: nat)
  {
    |adj| == n && forall q, k :: 0 <= q < |adj| && 0 <= k < |adj[q]| ==> adj[q][k] < n
  }

  /** The vector an edge from a node at `pv` to a node at `pu` moves: it is
      subtracted from the source's displacement and added to the target's. */
  function AttractionVector(pv: Vec, pu: Vec, p: Params, sqrt: real -> real): Vec
    requires ValidParams(p)
  {
    var dx := pv.x - pu.x;
    var dy := pv.y - pu.y;
    var m := Magnitude(dx, dy, sqrt);
    if m > 0.0 then
      var a := ForceAttraction(m, p.kFactor);
      Vec(dx / m * a, dy / m * a)
    else
      Zero
  }

  /** One inner iteration of the attraction pass, for the edge `v -> u`: first
      the source is written, then the target (which is the source again on a
      self-loop). Nothing is written when the edge has length zero. */
  function ApplyEdge(ps: seq<Particle>, v: nat, u: nat, p: Params, sqrt: real -> real): (r: seq<Particle>)
    requires v < |ps| && u < |ps| && ValidParams(p)
    ensures |r| == |ps|
  {
    var dx := ps[v].pos.x - ps[u].pos.x;
    var dy := ps[v].pos.y - ps[u].pos.y;
    var m := Magnitude(dx, dy, sqrt);
    if m > 0.0 then
      var c := AttractionVector(ps[v].pos, ps[u].pos, p, sqrt);
      var ps1 := ps[v := ps[v].(disp := Minus(ps[v].disp, c))];
      ps1[u := ps1[u].(disp := Plus(ps1[u].disp, c))]
    else
      ps
  }

  /** The attraction pass over row `q` after its first `k` edges, from state `ps`. */
  function AttractRow(ps: seq<Particle>, adj: seq<seq<nat>>, q: nat, k: nat,
                      p: Params, sqrt: real -> real): (r: seq<Particle>)
    requires AdjacencyOf(adj, |ps|) && q < |ps| && k <= |adj[q]| && ValidParams(p)
    ensures |r| == |ps|
    decreases k
  {
    if k == 0 then ps
    else ApplyEdge(AttractRow(ps, adj, q, k - 1, p, sqrt), q, adj[q][k - 1], p, sqrt)
  }

  /** The attraction pass after the outer loop has visited rows `0..q-1`. */
  function AttractUpTo(ps: seq<Particle>, adj: seq<seq<nat>>, q: nat,
                       p: Params, sqrt: real -> real): (r: seq<Particle>)
    requires AdjacencyOf(adj, |ps|) && q <= |ps| && ValidParams(p)
    ensures |r| == |ps|
    decreases q
  {
    if q == 0 then ps
    else
      var prev := AttractUpTo(ps, adj, q - 1, p, sqrt);
      AttractRow(prev, adj, q - 1, |adj[q - 1]|, p, sqrt)
  }

  /** Same state as `ps` apart from displacements. */
  predicate SamePlaces(r: seq<Particle>, ps: seq<Particle>)
  {
    |r| == |ps| && forall i :: 0 <= i < |ps| ==> r[i].pos == ps[i].pos && r[i].dragged == ps[i].dragged
  }

  /** An edge writes displacements only. */
  lemma ApplyEdgeKeepsPlaces(ps: seq<Particle>, v: nat, u: nat, p: Params, sqrt: real -> real)
    requires v < |ps| && u < |ps| && ValidParams(p)
    ensures SamePlaces(ApplyEdge(ps, v, u, p, sqrt), ps)
  {
  }

  lemma {:induction false} AttractRowKeepsPlaces(ps: seq<Particle>, adj: seq<seq<nat>>, q: nat, k: nat,
                                                 p: Params, sqrt: real -> real)
    requires AdjacencyOf(adj, |ps|) && q < |ps| && k <= |adj[q]| && ValidParams(p)
    ensures SamePlaces(AttractRow(ps, adj, q, k, p, sqrt), ps)
    decreases k
  {
    if k > 0 {
      AttractRowKeepsPlaces(ps, adj, q, k - 1, p, sqrt);
      ApplyEdgeKeepsPlaces(AttractRow(ps, adj, q, k - 1, p, sqrt), q, adj[q][k - 1], p, sqrt);
    }
  }

  lemma {:induction false} AttractUpToKeepsPlaces(ps: seq<Particle>, adj: seq<seq<nat>>, q: nat,
                                                  p: Params, sqrt: real -> real)
    requires AdjacencyOf(adj, |ps|) && q <= |ps| && ValidParams(p)
    ensures SamePlaces(AttractUpTo(ps, adj, q, p, sqrt), ps)
    decreases q
  {
    if q > 0 {
      AttractUpToKeepsPlaces(ps, adj, q - 1, p, sqrt);
      AttractRowKeepsPlaces(AttractUpTo(ps, adj, q - 1, p, sqrt), adj, q - 1, |adj[q - 1]|, p, sqrt);
    }
  }

  /** Attraction pass: every adjacency edge, in list order, pulls its endpoints together. */
  function Attract(ps: seq<Particle>, adj: seq<seq<nat>>, p: Params, sqrt: real -> real): (r: seq<Particle>)
    requires AdjacencyOf(adj, |ps|) && ValidParams(p)
    ensures |r| == |ps|
    ensures forall i :: 0 <= i < |ps| ==> r[i].pos == ps[i].pos && r[i].dragged == ps[i].dragged
  {
    AttractUpToKeepsPlaces(ps, adj, |ps|, p, sqrt);
    AttractUpTo(ps, adj, |ps|, p, sqrt)
  }

  // --------------------------------------------------------------- pass 4

  /** Gravity on the node at list index `d`: its strength carries the factor `d`. */
  function GravityStep(pt: Particle, d: nat, p: Params, sqrt: real -> real): Particle
  {
    var m := Magnitude(pt.disp.x, pt.disp.y, sqrt);
    if m > 0.0 then
      var gf := GravityScale * p.kFactor * p.gravity * (d as real);
      pt.(disp := Vec(pt.disp.x - gf * pt.pos.x / m, pt.disp.y - gf * pt.pos.y / m))
    else
      pt
  }

  /** `GravityStep` in terms of the magnitude a caller computes. */
  lemma GravityStepFrom(pt: Particle, d: nat, p: Params, sqrt: real -> real, m: real)
    requires m == Magnitude(pt.disp.x, pt.disp.y, sqrt)
    ensures m > 0.0 ==>
              var gf := GravityScale * p.kFactor * p.gravity * (d as real);
              GravityStep(pt, d, p, sqrt) ==
                pt.(disp := Vec(pt.disp.x - gf * pt.pos.x / m, pt.disp.y - gf * pt.pos.y / m))
    ensures m <= 0.0 ==> GravityStep(pt, d, p, sqrt) == pt
  {
  }

  /** Gravity pass. The node at index 0 is never pulled, whatever its state. */
  function Gravity(ps: seq<Particle>, p: Params, sqrt: real -> real): (r: seq<Particle>)
    ensures |r| == |ps|
    ensures |ps| > 0 ==> r[0] == ps[0]
    ensures forall i :: 0 <= i < |ps| ==> r[i].pos == ps[i].pos && r[i].dragged == ps[i].dragged
  {
    seq(|ps|, i requires 0 <= i < |ps| => GravityStep(ps[i], i, p, sqrt))
  }

  // --------------------------------------------------------------- pass 5

  /** A displacement multiplied by `speed`, then divided by 32. */
  function Damped(v: Vec, speed: real): Vec
  {
    Vec(v.x * speed / SpeedDivisor, v.y * speed / SpeedDivisor)
  }

  function DampStep(pt: Particle, p: Params): Particle
  {
    pt.(disp := Damped(pt.disp, p.speed))
  }

  /** Damping pass: every displacement is multiplied by `speed / 32`. */
  function Damp(ps: seq<Particle>, p: Params): (r: seq<Particle>)
    ensures |r| == |ps|
    ensures forall i :: 0 <= i < |ps| ==> r[i].pos == ps[i].pos && r[i].dragged == ps[i].dragged
  {
    seq(|ps|, i requires 0 <= i < |ps| => DampStep(ps[i], p))
  }

  // --------------------------------------------------------------- pass 6

  /** Position update of one node: the raw displacement is scaled by the capped
      distance (not by a unit vector), and a dragged node is left in place. */
  function MoveStep(pt: Particle, p: Params, sqrt: real -> real): Particle
  {
    var m := Magnitude(pt.disp.x, pt.disp.y, sqrt);
    if m > 0.0 then
      var limitedDist := LimitedDist(m, p);
      if !pt.dragged then
        pt.(pos := Vec(pt.pos.x + pt.disp.x * limitedDist, pt.pos.y + pt.disp.y * limitedDist))
      else pt
    else
      pt
  }

  /** `MoveStep` in terms of the magnitude a caller computes. */
  lemma MoveStepFrom(pt: Particle, p: Params, sqrt: real -> real, m: real)
    requires m == Magnitude(pt.disp.x, pt.disp.y, sqrt)
    ensures m > 0.0 && !pt.dragged ==>
              var l := LimitedDist(m, p);
              MoveStep(pt, p, sqrt) ==
                pt.(pos := Vec(pt.pos.x + pt.disp.x * l, pt.pos.y + pt.disp.y * l))
    ensures m <= 0.0 || pt.dragged ==> MoveStep(pt, p, sqrt) == pt
  {
    var l := LimitedDist(m, p);
    if m > 0.0 && !pt.dragged {
      assert MoveStep(pt, p, sqrt) ==
             pt.(pos := Vec(pt.pos.x + pt.disp.x * l, pt.pos.y + pt.disp.y * l));
    }
  }

  /** Update pass. Only positions change; a dragged node, or one with a zero
      displacement, keeps its position. */
  function Move(ps: seq<Particle>, p: Params, sqrt: real -> real): (r: seq<Particle>)
    ensures |r| == |ps|
    ensures forall i :: 0 <= i < |ps| ==> r[i].disp == ps[i].disp && r[i].dragged == ps[i].dragged
    ensures forall i :: 0 <= i < |ps| && (ps[i].dragged || ps[i].disp == Zero) ==> r[i].pos == ps[i].pos
  {
    seq(|ps|, i requires 0 <= i < |ps| => MoveStep(ps[i], p, sqrt))
  }

  // ------------------------------------------------------------ the step

  /** One call of `forcedBasedDrawing`: nothing at all happens when the
      iteration budget is below one or the graph is empty; otherwise the five
      passes run in order. A step keeps the graph's length and dragged flags
      and never moves a dragged node. */
  function Step(ps: seq<Particle>, adj: seq<seq<nat>>, p: Params, sqrt: real -> real): (r: seq<Particle>)
    requires AdjacencyOf(adj, |ps|) && ValidParams(p)
    ensures |r| == |ps|
    ensures forall i :: 0 <= i < |ps| ==> r[i].dragged == ps[i].dragged
    ensures forall i :: 0 <= i < |ps| && ps[i].dragged ==> r[i].pos == ps[i].pos
  {
    if p.nIterations < 1 || |ps| < 1 then ps
    else Move(Damp(Gravity(Attract(Repulse(Reset(ps), p, sqrt), adj, p, sqrt), p, sqrt), p), p, sqrt)
  }
}
