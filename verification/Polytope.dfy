/** The lattice as an object: built facet by facet, extended in place, and queried by loops over its
    facets. Every method is proved against the functions of Lattice, Landing and Alignment. */
module Polytope {
  import opened Vectors
  import opened Projection
  import opened Lattice
  import opened Landing
  import opened Alignment
  import opened Violations

  method DotLoop(a: Vec, x: Vec) returns (dot: real)
    requires |a| == |x|
    ensures dot == Dot(a, x)
  {
    dot := 0.0;
    for i := 0 to |a|
      invariant dot == DotTo(a, x, i)
    {
      dot := dot + a[i] * x[i];
      assert DotTo(a, x, i + 1) == DotNext(a, x, i);
    }
  }

  /** The only coordinate of a normal that is not zero, looked for from the front. */
  method AxisLoop(a: Vec) returns (axis: int)
    ensures axis == AxisTo(a, |a|)
  {
    axis := NO_DIMENSION;
    for i := 0 to |a|
      invariant axis == AxisTo(a, i) && axis != SEVERAL
    {
      if a[i] != 0.0 {
        if axis >= 0 {
          SeveralStay(a, i + 1, |a|);
          return SEVERAL;
        }
        axis := i;
      }
    }
  }

  lemma {:induction false} SeveralStay(a: Vec, i: nat, k: nat)
    requires i <= k <= |a| && AxisTo(a, i) == SEVERAL
    ensures AxisTo(a, k) == SEVERAL
  {
    if i < k {
      SeveralStay(a, i, k - 1);
    }
  }

  method ReportLoop(f: nat, facet: Facet, x: Vec, dot: real) returns (report: Violation)
    requires |facet.normal| == |x| && dot == Dot(facet.normal, x)
    ensures report == Report(f, facet, x)
  {
    var a := facet.normal;
    var axis := AxisLoop(a);
    if axis >= 0 {
      return Violation(f, axis, if a[axis] > 0.0 then AboveMaximum else BelowMinimum,
                       x[axis], facet.threshold, dot - facet.threshold);
    }
    var denom := DotLoop(a, a);
    if denom == 0.0 {
      return Violation(f, NO_DIMENSION, FacetItself, 0.0, 0.0, 0.0);
    }
    report := Violation(f, NO_DIMENSION, FacetItself, dot / denom, facet.threshold / denom,
                        (dot - facet.threshold) / denom);
  }

  lemma PutBack(y: Vec, lambda: real, a: Vec)
    requires |y| == |a|
    ensures AddScaled(y, 1.0, Scale(lambda, a)) == AddScaled(y, lambda, a)
  {
  }

  /** a.z and a.a where z is the iterate with its correction put back. */
  method Measure(a: Vec, y: array<real>, p: array<real>) returns (dot: real, norm: real)
    requires y.Length == p.Length == |a|
    ensures dot == Dot(a, AddScaled(y[..], 1.0, p[..])) && norm == Dot(a, a)
  {
    ghost var z := AddScaled(y[..], 1.0, p[..]);
    dot, norm := 0.0, 0.0;
    for i := 0 to |a|
      invariant dot == DotTo(a, z, i) && norm == DotTo(a, a, i)
    {
      var zi := y[i] + p[i];
      assert zi == z[i];
      dot := dot + a[i] * zi;
      norm := norm + a[i] * a[i];
      assert DotTo(a, z, i + 1) == DotNext(a, z, i) && DotTo(a, a, i + 1) == DotNext(a, a, i);
    }
  }

  /** The facet holds: the correction goes back into the iterate and is reset. */
  method Absorb(y: array<real>, p: array<real>)
    requires y != p && y.Length == p.Length
    modifies y, p
    ensures y[..] == AddScaled(old(y[..]), 1.0, old(p[..])) && p[..] == Zeros(p.Length)
  {
    ghost var y0, p0 := y[..], p[..];
    for i := 0 to y.Length
      invariant forall j :: 0 <= j < i ==> y[j] == y0[j] + p0[j] && p[j] == 0.0
      invariant forall j :: i <= j < y.Length ==> y[j] == y0[j] && p[j] == p0[j]
    {
      y[i] := y[i] + p[i];
      p[i] := 0.0;
    }
  }

  /** The facet is violated: the iterate moves onto it, from z to z - t a, and z is kept. */
  method MoveAlong(a: Vec, t: real, y: array<real>, p: array<real>, zOld: array<real>, maxMove: real) returns (move: real)
    requires y != p && y != zOld && p != zOld && y.Length == p.Length == zOld.Length == |a|
    modifies y, zOld
    ensures zOld[..] == AddScaled(old(y[..]), 1.0, p[..])
    ensures y[..] == AddScaled(zOld[..], -t, a) && move == MaxAbs(maxMove, t, a, |a|)
  {
    ghost var z := AddScaled(y[..], 1.0, p[..]);
    ghost var y0 := y[..];
    move := maxMove;
    for i := 0 to y.Length
      invariant forall j :: 0 <= j < i ==> zOld[j] == z[j] && y[j] == z[j] - Times(t, a[j])
      invariant forall j :: i <= j < y.Length ==> y[j] == y0[j]
      invariant move == MaxAbs(maxMove, t, a, i)
    {
      zOld[i] := y[i] + p[i];
      var zNew := zOld[i] - t * a[i];
      y[i] := zNew;
      move := Max(move, Abs(zNew - zOld[i]));
      assert zNew - zOld[i] == -Times(t, a[i]);
    }
    assert zOld[..] == z;
    IsAlong(y[..], z, t, a);
  }

  lemma IsAlong(ys: Vec, z: Vec, t: real, a: Vec)
    requires |ys| == |z| == |a| && forall i :: 0 <= i < |ys| ==> ys[i] == z[i] - Times(t, a[i])
    ensures ys == AddScaled(z, -t, a)
  {
    forall i | 0 <= i < |ys| ensures ys[i] == AddScaled(z, -t, a)[i] {
      NegateTimes(t, a[i]);
    }
  }

  lemma NegateTimes(t: real, v: real)
    ensures -t * v == -Times(t, v)
  {
  }

  /** The correction remembers the move. */
  method Remember(p: array<real>, zOld: array<real>, y: array<real>)
    requires p != zOld && p != y && p.Length == zOld.Length == y.Length
    modifies p
    ensures p[..] == Minus(zOld[..], y[..])
  {
    for i := 0 to p.Length
      invariant forall j :: 0 <= j < i ==> p[j] == zOld[j] - y[j]
    {
      p[i] := zOld[i] - y[i];
    }
  }

  lemma MoveIsCorrection(z: Vec, t: real, a: Vec)
    requires |z| == |a|
    ensures Minus(z, AddScaled(z, -t, a)) == Scale(t, a)
  {
    forall i | 0 <= i < |z| ensures z[i] - (z[i] + -t * a[i]) == t * a[i] {
    }
  }

  /** One facet of a sweep, on the iterate and on the facet's correction in place. */
  method FacetStep(facet: Facet, y: array<real>, p: array<real>, maxMove: real, ghost lambda: real)
    returns (move: real)
    requires y != p && y.Length == p.Length == |facet.normal| && p[..] == Scale(lambda, facet.normal)
    modifies y, p
    ensures var a, viol, lambda' :=
              facet.normal, Excess(facet, AddScaled(old(y[..]), lambda, facet.normal)),
              NextLambda(facet, old(y[..]), lambda);
            && p[..] == Scale(lambda', a)
            && y[..] == AddScaled(old(y[..]), lambda - lambda', a)
            && move == if Dot(a, a) <= 0.0 || viol <= 0.0 then maxMove else MaxAbs(maxMove, viol / Dot(a, a), a, |a|)
  {
    var a := facet.normal;
    ghost var y0 := y[..];
    PutBack(y0, lambda, a);
    var dot, norm := Measure(a, y, p);
    var viol := dot - facet.threshold;
    if norm <= 0.0 {
      AddNothing(y0, a);
      move := maxMove;
    } else if viol <= 0.0 {
      Absorb(y, p);
      assert Zeros(|a|) == Scale(0.0, a);
      move := maxMove;
    } else {
      var t := viol / norm;
      var zOld := new real[y.Length];
      move := MoveAlong(a, t, y, p, zOld, maxMove);
      Remember(p, zOld, y);
      AddScaledTwice(y0, lambda, -t, a);
      MoveIsCorrection(zOld[..], t, a);
    }
  }

  class EthicalPolytope {
    var lower: Vec
    var upper: Vec
    var center: Vec
    var facets: seq<Facet>

    ghost predicate Valid()
      reads this
    {
      && |lower| == |upper| == |center| == DIMENSIONS
      && WellFormed(facets, DIMENSIONS)
      && HasWall(facets)
    }

    constructor (b: Bounds)
      ensures Valid()
      ensures lower == Lower(b) && upper == Upper(b) && center == Center(b) && facets == LatticeOf(b)
    {
      lower, upper, center, facets := Lower(b), Upper(b), [], [];
      new;
      for i := 0 to DIMENSIONS
        invariant lower == Lower(b) && upper == Upper(b)
        invariant center == Center(b)[..i]
      {
        center := center + [(lower[i] + upper[i]) / 2.0];
      }
      BuildLattice();
      FacetsWellFormed(lower, upper, Couplings());
      FacetAt(lower, upper, Couplings(), 1);
      assert facets[1].critical;
    }

    /** Rebuilds the facet list: upper and lower bound of every dimension, then lead and sum of every
        principle pair. */
    method BuildLattice()
      requires |lower| == |upper| == DIMENSIONS
      modifies this`facets
      ensures facets == Facets(lower, upper, Couplings())
    {
      facets := [];
      for i := 0 to DIMENSIONS
        invariant facets == AxisFacets(lower, upper, i)
      {
        facets := facets + [UpperFacet(upper, i)];
        facets := facets + [LowerFacet(lower, i)];
        assert facets == AxisFacets(lower, upper, i) + [UpperFacet(upper, i), LowerFacet(lower, i)];
      }
      var cs := Couplings();
      for j := 0 to |cs|
        invariant facets == AxisFacets(lower, upper, DIMENSIONS) + CouplingFacets(DIMENSIONS, cs, j)
      {
        facets := facets + [LeadFacet(DIMENSIONS, cs[j])];
        facets := facets + [SumFacet(DIMENSIONS, cs[j])];
        assert facets == AxisFacets(lower, upper, DIMENSIONS)
                         + (CouplingFacets(DIMENSIONS, cs, j) + [LeadFacet(DIMENSIONS, cs[j]), SumFacet(DIMENSIONS, cs[j])]);
      }
    }

    method AddFacet(facet: Facet)
      requires Valid() && |facet.normal| == DIMENSIONS
      modifies this`facets
      ensures Valid() && facets == old(facets) + [facet]
    {
      facets := facets + [facet];
      ghost var f :| 0 <= f < |old(facets)| && old(facets)[f].critical;
      assert facets[f].critical;
    }

    /** x is inside exactly when no facet is reported. */
    method Contains(x: Vec) returns (ok: bool, violated: seq<Violation>)
      requires Valid() && |x| == DIMENSIONS
      ensures ok <==> Inside(facets, x)
      ensures violated == ReportsTo(facets, x, |facets|)
    {
      violated := [];
      for f := 0 to |facets|
        invariant violated == ReportsTo(facets, x, f)
      {
        var dot := DotLoop(facets[f].normal, x);
        if dot > facets[f].threshold {
          var report := ReportLoop(f, facets[f], x, dot);
          violated := violated + [report];
        }
      }
      NothingReported(facets, x, |facets|);
      ok := violated == [];
    }

    method LatticeMargins(x: Vec) returns (margins: seq<real>)
      requires Valid() && |x| == DIMENSIONS
      ensures margins == Margins(facets, x, |facets|)
    {
      margins := [];
      for f := 0 to |facets|
        invariant margins == Margins(facets, x, f)
      {
        if facets[f].critical {
          var dot := DotLoop(facets[f].normal, x);
          margins := margins + [facets[f].threshold - dot];
        }
      }
    }

    method AlignmentScore(x: Vec) returns (score: real)
      requires Valid() && |x| == DIMENSIONS
      ensures score == Score(facets, center, x)
    {
      for f := 0 to |facets|
        invariant forall g :: 0 <= g < f ==> Excess(facets[g], x) <= 0.0
      {
        var dot := DotLoop(facets[f].normal, x);
        if dot > facets[f].threshold {
          assert Excess(facets[f], x) > 0.0;
          return 0.0;
        }
      }
      var margins := LatticeMargins(x);
      var centerMargins := LatticeMargins(center);
      WallsHaveMargins(facets, x, |facets|);
      WallsHaveMargins(facets, center, |facets|);
      var least := LeastLoop(margins);
      var centerLeast := LeastLoop(centerMargins);
      if centerLeast <= 0.0 {
        return 0.0;
      }
      return Clamp(least / centerLeast);
    }

    /** The sweeps with their early exit, then the exact check with its nudges and the fallback. */
    method Project(x: Vec) returns (r: Vec)
      requires Valid() && |x| == DIMENSIONS
      ensures r == Projected(facets, center, x)
      ensures Inside(facets, center) ==> Inside(facets, r)
    {
      var y := SweepLoop(facets, x, MAX_SWEEPS);
      r := VerifyAndNudge(y, MAX_NUDGES);
    }

    /** Steps v inside along the normals of violated facets, or falls back to the center. */
    method VerifyAndNudge(v: Vec, limit: nat) returns (r: Vec)
      requires Valid() && |v| == DIMENSIONS
      ensures r == Land(facets, center, v, limit)
    {
      r := v;
      ghost var target, left := Nudged(facets, v, limit), limit;
      var guard := 0;
      while guard < limit
        invariant guard + left == limit && |r| == |v|
        invariant target == Nudged(facets, r, left)
      {
        var ok, _ := Contains(r);
        if ok {
          return;
        }
        ghost var before := r;
        var moved;
        r, moved := NudgePass(facets, r);
        NudgedStep(facets, before, left, r);
        left := left - 1;
        if !moved {
          break;
        }
        guard := guard + 1;
      }
      assert r == target;
      var ok, _ := Contains(r);
      if !ok {
        r := center;
      }
    }
  }

  /** One nudging pass over all facets; each looks at the point as the earlier ones left it. */
  method NudgePass(facets: seq<Facet>, v: Vec) returns (r: Vec, moved: bool)
    requires WellFormed(facets, |v|)
    ensures r == NudgeTo(facets, v, |facets|) && moved == MovedTo(facets, v, |facets|)
  {
    r, moved := v, false;
    for f := 0 to |facets|
      invariant |r| == |v| && r == NudgeTo(facets, v, f) && moved == MovedTo(facets, v, f)
    {
      var facet := facets[f];
      var dot := DotLoop(facet.normal, r);
      if dot > facet.threshold {
        var denom := DotLoop(facet.normal, facet.normal);
        if denom != 0.0 {
          var step := (dot - facet.threshold) / denom + NUDGE;
          r := AddScaled(r, -step, facet.normal);
          moved := true;
        }
      }
    }
  }

  method LeastLoop(ms: seq<real>) returns (least: real)
    requires |ms| > 0
    ensures least == Least(ms, |ms|)
  {
    least := ms[0];
    for i := 0 to |ms|
      invariant least == if i == 0 then ms[0] else Least(ms, i)
    {
      if ms[i] < least {
        least := ms[i];
      }
    }
  }

  /** The arrays that hold the corrections of a state: one a facet, none shared. */
  ghost predicate Holds(corrections: seq<array<real>>, y: array<real>, fs: seq<Facet>, s: State)
    reads y, corrections
  {
    && Shaped(fs, s)
    && |corrections| == |fs|
    && y[..] == s.y
    && (forall f, g :: 0 <= f < g < |corrections| ==> corrections[f] != corrections[g])
    && (forall f :: 0 <= f < |fs| ==>
          corrections[f] != y && corrections[f][..] == Scale(s.lambda[f], fs[f].normal))
  }

  /** One sweep over all facets. */
  method SweepOnce(facets: seq<Facet>, y: array<real>, corrections: seq<array<real>>, ghost s: State)
    returns (maxMove: real)
    requires Holds(corrections, y, facets, s)
    modifies y, corrections
    ensures Holds(corrections, y, facets, SweepTo(facets, s, |facets|))
    ensures maxMove == SweepTo(facets, s, |facets|).maxMove
  {
    maxMove := 0.0;
    for f := 0 to |facets|
      invariant Holds(corrections, y, facets, SweepTo(facets, s, f))
      invariant maxMove == SweepTo(facets, s, f).maxMove
    {
      maxMove := SweepFacet(facets, y, corrections, f, maxMove, SweepTo(facets, s, f));
    }
  }

  /** One facet of the sweep; the other facets' corrections stay as they are. */
  method SweepFacet(
    facets: seq<Facet>, y: array<real>, corrections: seq<array<real>>, f: nat, maxMove: real, ghost s: State)
    returns (move: real)
    requires Holds(corrections, y, facets, s) && f < |facets| && maxMove == s.maxMove
    modifies y, corrections
    ensures Holds(corrections, y, facets, Step(facets, s, f)) && move == Step(facets, s, f).maxMove
  {
    ghost var r := Step(facets, s, f);
    assert |facets[f].normal| == |s.y|;
    StepShape(facets, s, f);
    move := FacetStep(facets[f], y, corrections[f], maxMove, s.lambda[f]);
    forall g | 0 <= g < |facets|
      ensures corrections[g] != y && corrections[g][..] == Scale(r.lambda[g], facets[g].normal)
    {
      if g != f {
        assert corrections[g] != corrections[f];
      }
    }
  }

  /** At most `limit` sweeps, on an array for the iterate and one array a facet for its correction. */
  method SweepLoop(facets: seq<Facet>, x: Vec, limit: nat) returns (r: Vec)
    requires WellFormed(facets, |x|)
    ensures r == Settle(facets, Start(facets, x), limit).y
  {
    var y := new real[|x|](i requires 0 <= i < |x| => x[i]);
    var corrections: seq<array<real>> := [];
    while |corrections| < |facets|
      invariant |corrections| <= |facets| && y[..] == x
      invariant forall f :: 0 <= f < |corrections| ==>
        fresh(corrections[f]) && corrections[f] != y && corrections[f][..] == Zeros(|x|)
      invariant forall f, g :: 0 <= f < g < |corrections| ==> corrections[f] != corrections[g]
    {
      var p := new real[|x|](_ => 0.0);
      corrections := corrections + [p];
    }
    ghost var s := Start(facets, x);
    ghost var target := Settle(facets, s, limit);
    assert forall f :: 0 <= f < |facets| ==> Zeros(|x|) == Scale(0.0, facets[f].normal);
    var iter := 0;
    while iter < limit
      invariant iter <= limit && Holds(corrections, y, facets, s)
      invariant forall f :: 0 <= f < |corrections| ==> fresh(corrections[f])
      invariant target == Settle(facets, s, limit - iter)
    {
      ghost var before := s;
      var maxMove := SweepOnce(facets, y, corrections, s);
      s := SweepTo(facets, s, |facets|);
      SettleStep(facets, before, limit - iter, s);
      if maxMove < EPSILON {
        return y[..];
      }
      iter := iter + 1;
    }
    r := y[..];
  }
}
