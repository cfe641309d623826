/** Properties of the passes of one layout step (forces.dfy). */
module ForceLaws {
  import opened Forces

  /** The sum of all displacements of a graph. */
  function SumDisp(ps: seq<Particle>): Vec
  {
    if |ps| == 0 then Zero else Plus(SumDisp(ps[..|ps| - 1]), ps[|ps| - 1].disp)
  }

  /** Replacing one particle changes the sum by the difference of the two displacements. */
  lemma {:induction false} SumDispUpdate(ps: seq<Particle>, i: nat, pt: Particle)
    requires i < |ps|
    ensures SumDisp(ps[i := pt]) == Plus(Minus(SumDisp(ps), ps[i].disp), pt.disp)
    decreases |ps|
  {
    var n := |ps| - 1;
    var qs := ps[i := pt];
    assert qs[..n] == if i == n then ps[..n] else ps[..n][i := pt];
    if i < n {
      SumDispUpdate(ps[..n], i, pt);
    }
  }

  /** An edge subtracts one vector from its source's displacement and adds the
      same vector to its target's; nothing else in the graph changes. */
  lemma EdgeIsEqualAndOpposite(ps: seq<Particle>, v: nat, u: nat, p: Params, sqrt: real -> real)
    requires v < |ps| && u < |ps| && v != u && ValidParams(p)
    ensures var r := ApplyEdge(ps, v, u, p, sqrt);
            var c := AttractionVector(ps[v].pos, ps[u].pos, p, sqrt);
            r[v].disp == Minus(ps[v].disp, c) && r[u].disp == Plus(ps[u].disp, c) &&
            forall i :: 0 <= i < |ps| && i != v && i != u ==> r[i] == ps[i]
  {
  }

  /** One edge leaves the sum of all displacements unchanged, self-loops included. */
  lemma {:induction false} ApplyEdgeConserves(ps: seq<Particle>, v: nat, u: nat, p: Params, sqrt: real -> real)
    requires v < |ps| && u < |ps| && ValidParams(p)
    ensures SumDisp(ApplyEdge(ps, v, u, p, sqrt)) == SumDisp(ps)
  {
    var dx := ps[v].pos.x - ps[u].pos.x;
    var dy := ps[v].pos.y - ps[u].pos.y;
    if Magnitude(dx, dy, sqrt) > 0.0 {
      var c := AttractionVector(ps[v].pos, ps[u].pos, p, sqrt);
      var ps1 := ps[v := ps[v].(disp := Minus(ps[v].disp, c))];
      SumDispUpdate(ps, v, ps[v].(disp := Minus(ps[v].disp, c)));
      SumDispUpdate(ps1, u, ps1[u].(disp := Plus(ps1[u].disp, c)));
    }
  }

  lemma {:induction false} AttractRowConserves(ps: seq<Particle>, adj: seq<seq<nat>>, q: nat, k: nat,
                                               p: Params, sqrt: real -> real)
    requires AdjacencyOf(adj, |ps|) && q < |ps| && k <= |adj[q]| && ValidParams(p)
    ensures SumDisp(AttractRow(ps, adj, q, k, p, sqrt)) == SumDisp(ps)
    decreases k
  {
    if k > 0 {
      AttractRowConserves(ps, adj, q, k - 1, p, sqrt);
      ApplyEdgeConserves(AttractRow(ps, adj, q, k - 1, p, sqrt), q, adj[q][k - 1], p, sqrt);
    }
  }

  lemma {:induction false} AttractUpToConserves(ps: seq<Particle>, adj: seq<seq<nat>>, q: nat,
                                                p: Params, sqrt: real -> real)
    requires AdjacencyOf(adj, |ps|) && q <= |ps| && ValidParams(p)
    ensures SumDisp(AttractUpTo(ps, adj, q, p, sqrt)) == SumDisp(ps)
    decreases q
  {
    if q > 0 {
      AttractUpToConserves(ps, adj, q - 1, p, sqrt);
      var prev := AttractUpTo(ps, adj, q - 1, p, sqrt);
      AttractRowConserves(prev, adj, q - 1, |adj[q - 1]|, p, sqrt);
    }
  }

  /** Because every edge acts equally and oppositely on its two endpoints, the
      attraction pass leaves the sum of all displacements unchanged. */
  lemma AttractionConservesDisplacement(ps: seq<Particle>, adj: seq<seq<nat>>, p: Params, sqrt: real -> real)
    requires AdjacencyOf(adj, |ps|) && ValidParams(p)
    ensures SumDisp(Attract(ps, adj, p, sqrt)) == SumDisp(ps)
  {
    AttractUpToConserves(ps, adj, |ps|, p, sqrt);
  }

  /** An edge of length zero, a self-loop in particular, is skipped by the
      `magnitudeDelta > 0` test: it writes nothing and divides by nothing. */
  lemma ZeroLengthEdgeSkipped(ps: seq<Particle>, v: nat, u: nat, p: Params, sqrt: real -> real)
    requires IsSqrt(sqrt) && v < |ps| && u < |ps| && ValidParams(p)
    requires ps[v].pos == ps[u].pos
    ensures Magnitude(ps[v].pos.x - ps[u].pos.x, ps[v].pos.y - ps[u].pos.y, sqrt) == 0.0
    ensures ApplyEdge(ps, v, u, p, sqrt) == ps
  {
    MagnitudeZeroIff(ps[v].pos.x - ps[u].pos.x, ps[v].pos.y - ps[u].pos.y, sqrt);
  }

  /** Two nodes at the same place are skipped by the repulsion pass's test. */
  lemma CoincidentPairSkipped(disp: Vec, pv: Vec, pu: Vec, p: Params, sqrt: real -> real)
    requires IsSqrt(sqrt) && pv == pu
    ensures Magnitude(pv.x - pu.x, pv.y - pu.y, sqrt) == 0.0
    ensures RepelStep(disp, pv, pu, p, sqrt) == disp
  {
    MagnitudeZeroIff(pv.x - pu.x, pv.y - pu.y, sqrt);
  }

  /** A node all of whose other nodes sit at its own position receives no repulsion. */
  lemma {:induction false} AllCoincidentNoRepulsion(ps: seq<Particle>, r: nat, j: nat, p: Params, sqrt: real -> real)
    requires IsSqrt(sqrt) && r < |ps| && j <= |ps|
    requires forall t :: 0 <= t < j ==> ps[t].pos == ps[r].pos
    ensures RepelUpTo(ps, r, j, p, sqrt) == ps[r].disp
    decreases j
  {
    if j > 0 {
      AllCoincidentNoRepulsion(ps, r, j - 1, p, sqrt);
      CoincidentPairSkipped(ps[r].disp, ps[r].pos, ps[j - 1].pos, p, sqrt);
    }
  }

  lemma ScaleDistributes(a: real, b: real, speed: real)
    ensures (a + b) * speed / SpeedDivisor == a * speed / SpeedDivisor + b * speed / SpeedDivisor
  {
    var sa, sb := a * speed, b * speed;
    assert (a + b) * speed == sa + sb;
  }

  /** Damping distributes over the sum of two displacements. */
  lemma DampedPlus(a: Vec, b: Vec, speed: real)
    ensures Damped(Plus(a, b), speed) == Plus(Damped(a, speed), Damped(b, speed))
  {
    ScaleDistributes(a.x, b.x, speed);
    ScaleDistributes(a.y, b.y, speed);
  }

  /** Damping scales the sum of all displacements by `speed / 32`. */
  lemma {:induction false} DampScalesSum(ps: seq<Particle>, p: Params)
    ensures SumDisp(Damp(ps, p)) == Damped(SumDisp(ps), p.speed)
    decreases |ps|
  {
    if |ps| == 0 {
      assert 0.0 * p.speed == 0.0;
    } else {
      var n := |ps| - 1;
      assert Damp(ps, p)[..n] == Damp(ps[..n], p);
      DampScalesSum(ps[..n], p);
      DampedPlus(SumDisp(ps[..n]), ps[n].disp, p.speed);
    }
  }

  /** A step does nothing when the iteration budget is below one or the graph is empty. */
  lemma StepNoOp(ps: seq<Particle>, adj: seq<seq<nat>>, p: Params, sqrt: real -> real)
    requires AdjacencyOf(adj, |ps|) && ValidParams(p)
    requires p.nIterations < 1 || |ps| == 0
    ensures Step(ps, adj, p, sqrt) == ps
  {
  }

  /** The square root of a square of a non-negative number is that number. */
  lemma SqrtOfSquare(a: real, sqrt: real -> real)
    requires IsSqrt(sqrt) && a >= 0.0
    ensures sqrt(a * a) == a
  {
    SquareNonNegative(a);
    SqrtUnique(sqrt(a * a), a);
  }

  /** The magnitude of a vector on the x axis is the absolute value of its x. */
  lemma MagnitudeOnAxis(x: real, sqrt: real -> real)
    requires IsSqrt(sqrt)
    ensures Magnitude(x, 0.0, sqrt) == if x >= 0.0 then x else -x
  {
    var a := if x >= 0.0 then x else -x;
    assert x * x + 0.0 * 0.0 == a * a;
    assert Magnitude(x, 0.0, sqrt) == sqrt(a * a);
    SqrtOfSquare(a, sqrt);
  }

  lemma ScaledSquares(dx: real, dy: real, l: real, m: real)
    requires m * m == dx * dx + dy * dy
    ensures (dx * l) * (dx * l) + (dy * l) * (dy * l) == (m * l) * (m * l)
  {
    var l2 := l * l;
    assert (dx * l) * (dx * l) == (dx * dx) * l2;
    assert (dy * l) * (dy * l) == (dy * dy) * l2;
    assert (m * l) * (m * l) == (m * m) * l2;
  }

  /** Scaling a vector of magnitude `m` by `l >= 0` gives magnitude `m * l`. */
  lemma MagnitudeScaled(dx: real, dy: real, l: real, m: real, sqrt: real -> real)
    requires IsSqrt(sqrt) && m >= 0.0 && l >= 0.0 && m * m == dx * dx + dy * dy
    ensures Magnitude(dx * l, dy * l, sqrt) == m * l
  {
    var e := (dx * l) * (dx * l) + (dy * l) * (dy * l);
    var ml := m * l;
    assert e == ml * ml by { ScaledSquares(dx, dy, l, m); }
    assert ml >= 0.0;
    var r := sqrt(e);
    SquareNonNegative(ml);
    assert r >= 0.0 && r * r == e;
    SqrtUnique(r, ml);
  }

  /** The update pass moves a node by its displacement times `limitedDist`,
      so the distance moved is the magnitude times `limitedDist`, which is
      not bounded by the cap `maxDisplace * speed / 32` once the magnitude
      exceeds 1. */
  lemma {:induction false} MoveDistance(pt: Particle, p: Params, sqrt: real -> real)
    requires IsSqrt(sqrt) && p.maxDisplace >= 0.0 && p.speed >= 0.0 && !pt.dragged
    ensures var m := Magnitude(pt.disp.x, pt.disp.y, sqrt);
            var r := MoveStep(pt, p, sqrt);
            m > 0.0 ==>
              Magnitude(r.pos.x - pt.pos.x, r.pos.y - pt.pos.y, sqrt) == m * LimitedDist(m, p)
  {
    var m := Magnitude(pt.disp.x, pt.disp.y, sqrt);
    if m > 0.0 {
      var l := LimitedDist(m, p);
      var r := MoveStep(pt, p, sqrt);
      var dx, dy := pt.disp.x, pt.disp.y;
      assert m * m == dx * dx + dy * dy;
      assert l >= 0.0 by {
        var cap := p.maxDisplace * (p.speed / SpeedDivisor);
        assert cap >= 0.0;
      }
      assert r.pos.x - pt.pos.x == dx * l && r.pos.y - pt.pos.y == dy * l;
      MagnitudeScaled(dx, dy, l, m, sqrt);
    }
  }

  // ------------------------------------------------ a two-node step, worked out

  /** Two nodes ten units apart on the x axis, at rest, with no edges. */
  const TwoNodes: seq<Particle> :=
    [Particle(Vec(0.0, 0.0), Zero, false), Particle(Vec(10.0, 0.0), Zero, false)]

  /** The fields `init` leaves behind, for a `kFactor` of `k`. */
  function InitParams(k: real): Params
  {
    Params(100, 1.0, 10.0, 40.0, k)
  }

  /** `init` computes `kFactor` over the 17 generated nodes, and `setGraph`
      does not recompute it, so a two-node graph is stepped with k² = 400 · 400 / 18. */
  predicate InitKFactor(k: real)
  {
    k > 0.0 && k * k == AreaMultiplicator * 400.0 / 18.0
  }

  /** The repulsion of the two nodes: `k² / 10` each, away from the other. */
  const Push: real := 8000.0 / 9.0

  lemma KFactorBelow95(k: real)
    requires InitKFactor(k)
    ensures k < 95.0
  {
    assert (95.0 - k) * (95.0 + k) == 95.0 * 95.0 - k * k;
    assert (95.0 - k) * (95.0 + k) > 0.0;
  }

  lemma TwoNodesRepulse(k: real, sqrt: real -> real)
    requires IsSqrt(sqrt) && InitKFactor(k)
    ensures Repulse(Reset(TwoNodes), InitParams(k), sqrt) ==
            [Particle(Vec(0.0, 0.0), Vec(-Push, 0.0), false), Particle(Vec(10.0, 0.0), Vec(Push, 0.0), false)]
  {
    var p := InitParams(k);
    var s1 := Reset(TwoNodes);
    assert s1 == TwoNodes;
    MagnitudeOnAxis(-10.0, sqrt);
    MagnitudeOnAxis(10.0, sqrt);
    assert ForceRepulsive(10.0, k) == Push;
    var r := Repulse(s1, p, sqrt);
    assert RepelUpTo(s1, 0, 2, p, sqrt) == Vec(-Push, 0.0);
    assert RepelUpTo(s1, 1, 2, p, sqrt) == Vec(Push, 0.0);
  }

  lemma NoEdgesNoAttraction(ps: seq<Particle>, p: Params, sqrt: real -> real)
    requires |ps| == 2 && ValidParams(p)
    ensures Attract(ps, [[], []], p, sqrt) == ps
  {
    assert AttractUpTo(ps, [[], []], 1, p, sqrt) == ps;
  }

  /** After gravity: node 0 is not pulled; node 1's push loses `k / Push`. */
  lemma TwoNodesGravity(k: real, sqrt: real -> real)
    requires IsSqrt(sqrt) && InitKFactor(k)
    ensures Gravity([Particle(Vec(0.0, 0.0), Vec(-Push, 0.0), false), Particle(Vec(10.0, 0.0), Vec(Push, 0.0), false)],
                    InitParams(k), sqrt) ==
            [Particle(Vec(0.0, 0.0), Vec(-Push, 0.0), false),
             Particle(Vec(10.0, 0.0), Vec(Push - k / Push, 0.0), false)]
  {
    MagnitudeOnAxis(Push, sqrt);
    MagnitudeOnAxis(-Push, sqrt);
  }

  lemma TwoNodesDamp(k: real)
    ensures Damp([Particle(Vec(0.0, 0.0), Vec(-Push, 0.0), false),
                  Particle(Vec(10.0, 0.0), Vec(Push - k / Push, 0.0), false)], InitParams(k)) ==
            [Particle(Vec(0.0, 0.0), Vec(-Push / 32.0, 0.0), false),
             Particle(Vec(10.0, 0.0), Vec((Push - k / Push) / 32.0, 0.0), false)]
  {
  }

  lemma TwoNodesMove(k: real, sqrt: real -> real)
    requires IsSqrt(sqrt) && InitKFactor(k)
    ensures var r := Move([Particle(Vec(0.0, 0.0), Vec(-Push / 32.0, 0.0), false),
                           Particle(Vec(10.0, 0.0), Vec((Push - k / Push) / 32.0, 0.0), false)], InitParams(k), sqrt);
            r[0].pos == Vec(-625.0 / 18.0, 0.0) && r[1].pos.x > 10.0 && r[1].pos.y == 0.0
  {
    KFactorBelow95(k);
    var d1 := (Push - k / Push) / 32.0;
    assert d1 > 0.0;
    MagnitudeOnAxis(-Push / 32.0, sqrt);
    MagnitudeOnAxis(d1, sqrt);
    var l := LimitedDist(d1, InitParams(k));
    assert l > 0.0;
    assert d1 * l > 0.0;
  }

  /** One step from two nodes ten units apart, with the constants of `init`:
      they are pushed apart along the x axis. Node 0 ends at x = -625/18, about
      34.7 units away, although the cap `maxDisplace * speed / 32` is 1.25: the
      update multiplies the raw displacement by the capped distance. */
  lemma TwoNodesPushedApart(k: real, sqrt: real -> real)
    requires IsSqrt(sqrt) && InitKFactor(k)
    ensures var r := Step(TwoNodes, [[], []], InitParams(k), sqrt);
            r[0].pos == Vec(-625.0 / 18.0, 0.0) && r[1].pos.x > 10.0 && r[1].pos.y == 0.0
  {
    var p := InitParams(k);
    TwoNodesRepulse(k, sqrt);
    var s2 := Repulse(Reset(TwoNodes), p, sqrt);
    NoEdgesNoAttraction(s2, p, sqrt);
    TwoNodesGravity(k, sqrt);
    TwoNodesDamp(k);
    TwoNodesMove(k, sqrt);
  }

  // ---------------------------------------------------- directions of the forces

  lemma AttractionScale(d: real, m: real, k: real)
    requires m != 0.0 && k != 0.0
    ensures d / m * (m * m / k) == d * (m / k)
  {
    var q := d / m;
    assert q * m == d;
    assert q * (m * m / k) == (q * m) * (m / k);
  }

  lemma RepulsionScale(d: real, m: real, k: real)
    requires m != 0.0
    ensures d / m * (k * k / m) == d * (k * k / (m * m))
  {
    var q := d / m;
    var kk := k * k;
    assert q * (kk / m) == d * (kk / (m * m));
  }

  /** Two different places are a positive distance apart. */
  lemma DistinctPlacesApart(pv: Vec, pu: Vec, sqrt: real -> real)
    requires IsSqrt(sqrt) && pv != pu
    ensures Magnitude(pv.x - pu.x, pv.y - pu.y, sqrt) > 0.0
  {
    MagnitudeZeroIff(pv.x - pu.x, pv.y - pu.y, sqrt);
  }

  lemma AttractionScaled(pv: Vec, pu: Vec, p: Params, sqrt: real -> real, dx: real, dy: real, m: real, t: real)
    requires dx == pv.x - pu.x && dy == pv.y - pu.y && m == Magnitude(dx, dy, sqrt)
    requires p.kFactor != 0.0 && m > 0.0 && t == m / p.kFactor
    ensures AttractionVector(pv, pu, p, sqrt) == Vec(dx * t, dy * t)
  {
    AttractionScale(dx, m, p.kFactor);
    AttractionScale(dy, m, p.kFactor);
  }

  /** An edge from `pv` to `pu` at different places moves the vector
      `(pv - pu) · m / k`: subtracted from the source, it pulls the source
      toward the target, and added to the target, it pulls the target toward
      the source, with length `m² / k`. */
  lemma AttractionAlongDelta(pv: Vec, pu: Vec, p: Params, sqrt: real -> real)
    requires IsSqrt(sqrt) && p.kFactor > 0.0 && pv != pu
    ensures var m := Magnitude(pv.x - pu.x, pv.y - pu.y, sqrt);
            m > 0.0 &&
            AttractionVector(pv, pu, p, sqrt) ==
              Vec((pv.x - pu.x) * (m / p.kFactor), (pv.y - pu.y) * (m / p.kFactor))
  {
    var dx, dy := pv.x - pu.x, pv.y - pu.y;
    MagnitudeZeroIff(dx, dy, sqrt);
    var m := Magnitude(dx, dy, sqrt);
    AttractionScaled(pv, pu, p, sqrt, dx, dy, m, m / p.kFactor);
  }

  lemma RepelStepScaled(disp: Vec, pv: Vec, pu: Vec, p: Params, sqrt: real -> real,
                        dx: real, dy: real, m: real, s: real)
    requires dx == pv.x - pu.x && dy == pv.y - pu.y && m == Magnitude(dx, dy, sqrt)
    requires m > 0.0 && s == p.kFactor * p.kFactor / (m * m)
    ensures RepelStep(disp, pv, pu, p, sqrt) == Plus(disp, Vec(dx * s, dy * s))
  {
    RepulsionScale(dx, m, p.kFactor);
    RepulsionScale(dy, m, p.kFactor);
  }

  lemma RepelStepAway(disp: Vec, pv: Vec, pu: Vec, p: Params, sqrt: real -> real)
    requires Magnitude(pv.x - pu.x, pv.y - pu.y, sqrt) > 0.0
    ensures var m := Magnitude(pv.x - pu.x, pv.y - pu.y, sqrt);
            var s := p.kFactor * p.kFactor / (m * m);
            RepelStep(disp, pv, pu, p, sqrt) == Plus(disp, Vec((pv.x - pu.x) * s, (pv.y - pu.y) * s))
  {
    var dx, dy := pv.x - pu.x, pv.y - pu.y;
    var m := Magnitude(dx, dy, sqrt);
    RepelStepScaled(disp, pv, pu, p, sqrt, dx, dy, m, p.kFactor * p.kFactor / (m * m));
  }

  /** Repulsion of a node at `pv` by one at a different place `pu` adds
      `(pv - pu) · k² / m²` to its displacement: a push away from `pu`, of
      length `k² / m`. */
  lemma RepulsionAlongDelta(disp: Vec, pv: Vec, pu: Vec, p: Params, sqrt: real -> real)
    requires IsSqrt(sqrt) && pv != pu
    ensures Magnitude(pv.x - pu.x, pv.y - pu.y, sqrt) > 0.0
    ensures var m := Magnitude(pv.x - pu.x, pv.y - pu.y, sqrt);
            var s := p.kFactor * p.kFactor / (m * m);
            RepelStep(disp, pv, pu, p, sqrt) == Plus(disp, Vec((pv.x - pu.x) * s, (pv.y - pu.y) * s))
  {
    DistinctPlacesApart(pv, pu, sqrt);
    RepelStepAway(disp, pv, pu, p, sqrt);
  }

  /** Gravity on a moving node at index `d` subtracts `pos · c` from its
      displacement, with `c = gf / m`; for `d > 0` and positive `kFactor` and
      `gravity`, `c` is positive, so the node is pulled toward the origin. */
  lemma GravityTowardOrigin(pt: Particle, d: nat, p: Params, sqrt: real -> real)
    requires IsSqrt(sqrt) && pt.disp != Zero
    ensures Magnitude(pt.disp.x, pt.disp.y, sqrt) > 0.0
    ensures var m := Magnitude(pt.disp.x, pt.disp.y, sqrt);
            var c := GravityScale * p.kFactor * p.gravity * (d as real) / m;
            GravityStep(pt, d, p, sqrt).disp == Minus(pt.disp, Vec(pt.pos.x * c, pt.pos.y * c)) &&
            (d > 0 && p.kFactor > 0.0 && p.gravity > 0.0 ==> c > 0.0)
  {
    MagnitudeZeroIff(pt.disp.x, pt.disp.y, sqrt);
    var m := Magnitude(pt.disp.x, pt.disp.y, sqrt);
    var gf := GravityScale * p.kFactor * p.gravity * (d as real);
    assert gf * pt.pos.x / m == pt.pos.x * (gf / m);
    assert gf * pt.pos.y / m == pt.pos.y * (gf / m);
    if d > 0 && p.kFactor > 0.0 && p.gravity > 0.0 {
      var a := GravityScale * p.kFactor;
      assert a > 0.0;
      var b := a * p.gravity;
      assert b > 0.0;
      assert gf == b * (d as real);
      assert gf > 0.0;
    }
  }

  // ------------------------------------------------- two nodes and one edge

  /** The distance between two places does not depend on the order of the two. */
  lemma MagnitudeNegated(x: real, y: real, sqrt: real -> real)
    ensures Magnitude(-x, -y, sqrt) == Magnitude(x, y, sqrt)
  {
    assert (-x) * (-x) == x * x;
    assert (-y) * (-y) == y * y;
  }

  /** After the reset and repulsion passes, each of two nodes has been
      repelled once, by the other, from a zero displacement. */
  lemma TwoNodesRepelOnce(ps: seq<Particle>, p: Params, sqrt: real -> real)
    requires |ps| == 2
    ensures var r := Repulse(Reset(ps), p, sqrt);
            r[0].disp == RepelStep(Zero, ps[0].pos, ps[1].pos, p, sqrt) &&
            r[1].disp == RepelStep(Zero, ps[1].pos, ps[0].pos, p, sqrt)
  {
    var s1 := Reset(ps);
    assert RepelUpTo(s1, 0, 1, p, sqrt) == Zero;
    assert RepelUpTo(s1, 1, 1, p, sqrt) == RepelStep(Zero, ps[1].pos, ps[0].pos, p, sqrt);
  }

  /** After the reset and repulsion passes, each of two nodes at different
      places is pushed away from the other by `(pv - pu) · k² / m²`. */
  lemma TwoPlacesRepulseScaled(ps: seq<Particle>, p: Params, sqrt: real -> real, dx: real, dy: real, m: real, s: real)
    requires |ps| == 2 && dx == ps[0].pos.x - ps[1].pos.x && dy == ps[0].pos.y - ps[1].pos.y
    requires m == Magnitude(dx, dy, sqrt) && m == Magnitude(-dx, -dy, sqrt)
    requires m > 0.0 && s == p.kFactor * p.kFactor / (m * m)
    ensures var r := Repulse(Reset(ps), p, sqrt);
            r[0].disp == Vec(dx * s, dy * s) && r[1].disp == Vec(-dx * s, -dy * s)
  {
    var a, b := ps[0].pos, ps[1].pos;
    TwoNodesRepelOnce(ps, p, sqrt);
    RepelStepScaled(Zero, a, b, p, sqrt, dx, dy, m, s);
    assert b.x - a.x == -dx && b.y - a.y == -dy;
    RepelStepScaled(Zero, b, a, p, sqrt, -dx, -dy, m, s);
  }

  /** With the single edge `0 -> 1`, the attraction pass is that one edge. */
  lemma OneEdgeAttract(ps: seq<Particle>, p: Params, sqrt: real -> real)
    requires |ps| == 2 && ValidParams(p)
    ensures AdjacencyOf([[1], []], 2)
    ensures Attract(ps, [[1], []], p, sqrt) == ApplyEdge(ps, 0, 1, p, sqrt)
  {
    var adj: seq<seq<nat>> := [[1], []];
    assert AttractUpTo(ps, adj, 1, p, sqrt) == ApplyEdge(ps, 0, 1, p, sqrt);
  }

  /** An edge of positive length between two different nodes subtracts its
      attraction vector from the source and adds it to the target. */
  lemma ApplyEdgeBetween(ps: seq<Particle>, v: nat, u: nat, p: Params, sqrt: real -> real)
    requires v < |ps| && u < |ps| && v != u && ValidParams(p)
    requires Magnitude(ps[v].pos.x - ps[u].pos.x, ps[v].pos.y - ps[u].pos.y, sqrt) > 0.0
    ensures var c := AttractionVector(ps[v].pos, ps[u].pos, p, sqrt);
            var r := ApplyEdge(ps, v, u, p, sqrt);
            r[v].disp == Minus(ps[v].disp, c) && r[u].disp == Plus(ps[u].disp, c)
  {
  }

  lemma SubtractScaled(d: real, s: real, t: real)
    ensures d * s - d * t == d * (s - t)
    ensures -d * s + d * t == -(d * (s - t))
  {
  }

  lemma OneEdgeNetForceScaled(ps: seq<Particle>, p: Params, sqrt: real -> real, dx: real, dy: real, m: real)
    requires |ps| == 2 && dx == ps[0].pos.x - ps[1].pos.x && dy == ps[0].pos.y - ps[1].pos.y
    requires m == Magnitude(dx, dy, sqrt) && m == Magnitude(-dx, -dy, sqrt) && m > 0.0 && p.kFactor > 0.0
    ensures AdjacencyOf([[1], []], 2)
    ensures var c := p.kFactor * p.kFactor / (m * m) - m / p.kFactor;
            var r := Attract(Repulse(Reset(ps), p, sqrt), [[1], []], p, sqrt);
            r[0].disp == Vec(dx * c, dy * c) && r[1].disp == Vec(-(dx * c), -(dy * c))
  {
    var a, b := ps[0].pos, ps[1].pos;
    var s := p.kFactor * p.kFactor / (m * m);
    var t := m / p.kFactor;
    TwoPlacesRepulseScaled(ps, p, sqrt, dx, dy, m, s);
    var s2 := Repulse(Reset(ps), p, sqrt);
    assert s2[0].pos == a && s2[1].pos == b;
    OneEdgeAttract(s2, p, sqrt);
    AttractionScaled(a, b, p, sqrt, dx, dy, m, t);
    ApplyEdgeBetween(s2, 0, 1, p, sqrt);
    var r := ApplyEdge(s2, 0, 1, p, sqrt);
    assert r[0].disp == Minus(Vec(dx * s, dy * s), Vec(dx * t, dy * t));
    assert r[1].disp == Plus(Vec(-dx * s, -dy * s), Vec(dx * t, dy * t));
    SubtractScaled(dx, s, t);
    SubtractScaled(dy, s, t);
  }

  /** Two nodes at different places joined by the edge `0 -> 1`, `(dx, dy)`
      apart at distance `m`: after the reset, repulsion and attraction passes,
      node 0's displacement is `(dx, dy) · c` and node 1's is its opposite,
      with `c = k²/m² - m/k`. */
  lemma OneEdgeNetForce(ps: seq<Particle>, p: Params, sqrt: real -> real, dx: real, dy: real, m: real)
    requires IsSqrt(sqrt) && p.kFactor > 0.0 && |ps| == 2 && ps[0].pos != ps[1].pos
    requires dx == ps[0].pos.x - ps[1].pos.x && dy == ps[0].pos.y - ps[1].pos.y && m == Magnitude(dx, dy, sqrt)
    ensures m > 0.0 && AdjacencyOf([[1], []], 2)
    ensures var c := p.kFactor * p.kFactor / (m * m) - m / p.kFactor;
            var r := Attract(Repulse(Reset(ps), p, sqrt), [[1], []], p, sqrt);
            r[0].disp == Vec(dx * c, dy * c) && r[1].disp == Vec(-(dx * c), -(dy * c))
  {
    MagnitudeZeroIff(dx, dy, sqrt);
    MagnitudeNegated(dx, dy, sqrt);
    OneEdgeNetForceScaled(ps, p, sqrt, dx, dy, m);
  }

  /** The factor of `OneEdgeNetForce` is negative, so the two nodes are drawn
      together, exactly when they are farther apart than `kFactor`, and zero
      exactly at that distance. */
  lemma OneEdgeFactorSign(m: real, k: real)
    requires m > 0.0 && k > 0.0
    ensures k * k / (m * m) - m / k < 0.0 <==> m > k
    ensures k * k / (m * m) - m / k == 0.0 <==> m == k
  {
    var c := k * k / (m * m) - m / k;
    var w := m * m * k;
    assert w > 0.0;
    assert c * w == k * k * k - m * m * m;
    var g := k * k + k * m + m * m;
    assert g > 0.0;
    assert k * k * k - m * m * m == (k - m) * g;
  }
}
