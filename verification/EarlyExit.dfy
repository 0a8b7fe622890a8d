/** When the sweeps over a season's lattice stop early: only for points that violate no facet by more
    than 1e-8, and then next to the nearest point of the lattice. */
module EarlyExit {
  import opened Vectors
  import opened Projection
  import opened Convergence
  import opened Landing
  import opened Lattice
  import opened Alignment

  const SLACK: real := 0.00000001
  const REACH: real := 0.000000125

  /** y is within d of x in every coordinate. */
  ghost predicate Close(x: Vec, y: Vec, d: real) {
    |x| == |y| && forall i :: 0 <= i < |x| ==> Abs(x[i] - y[i]) <= d
  }

  /** Every facet of a lattice is steep, and its normal has a squared length of 1 or 2. */
  lemma FacetSlope(lower: Vec, upper: Vec, cs: seq<Coupling>, f: nat)
    requires |lower| == |upper| && Pairs(cs, |lower|) && f < 2 * |lower| + 2 * |cs|
    ensures var facet := Facets(lower, upper, cs)[f];
            |facet.normal| == |lower| && Steep(facet) && 1.0 <= Dot(facet.normal, facet.normal) <= 2.0
  {
    var n, facet := |lower|, Facets(lower, upper, cs)[f];
    FacetAt(lower, upper, cs, f);
    if f < 2 * n {
      var v := if f % 2 == 0 then 1.0 else -1.0;
      assert facet.normal == Unit(n, f / 2, v);
      NormOfUnit(n, f / 2, v);
      assert Abs(facet.normal[f / 2]) >= 1.0;
    } else {
      var c := cs[(f - 2 * n) / 2];
      var u := if (f - 2 * n) % 2 == 0 then -1.0 else 1.0;
      assert facet.normal == Pair(n, c.pos, u, c.neg, 1.0);
      NormOfPair(n, c.pos, u, c.neg, 1.0);
      assert Abs(facet.normal[c.neg]) >= 1.0;
    }
  }

  /** Moving every coordinate by at most d moves no excess by more than 2 d. */
  lemma ExcessShift(lower: Vec, upper: Vec, cs: seq<Coupling>, f: nat, x: Vec, y: Vec, d: real)
    requires |lower| == |upper| == |x| && Pairs(cs, |lower|) && f < 2 * |lower| + 2 * |cs| && Close(x, y, d)
    requires WellFormed(Facets(lower, upper, cs), |x|) && d >= 0.0
    ensures Excess(Facets(lower, upper, cs)[f], x) <= Excess(Facets(lower, upper, cs)[f], y) + 2.0 * d
  {
    var n := |lower|;
    FacetAt(lower, upper, cs, f);
    if f < 2 * n {
      AxisExcess(lower, upper, f / 2, x);
      AxisExcess(lower, upper, f / 2, y);
      assert Abs(x[f / 2] - y[f / 2]) <= d;
    } else {
      var c := cs[(f - 2 * n) / 2];
      CouplingExcess(c, x);
      CouplingExcess(c, y);
      assert Abs(x[c.pos] - y[c.pos]) <= d && Abs(x[c.neg] - y[c.neg]) <= d;
    }
  }

  /** A facet the point violates most. */
  lemma {:induction false} WorstFacet(fs: seq<Facet>, x: Vec, k: nat) returns (w: nat)
    requires WellFormed(fs, |x|) && 0 < k <= |fs|
    ensures w < k && forall f :: 0 <= f < k ==> Excess(fs[f], x) <= Excess(fs[w], x)
  {
    if k == 1 {
      w := 0;
    } else {
      w := WorstFacet(fs, x, k - 1);
      if Excess(fs[k - 1], x) > Excess(fs[w], x) {
        w := k - 1;
      }
    }
  }

  lemma CapProduct(u: real, v: real, cap: real, bound: real)
    requires 0.0 <= u <= cap && 0.0 <= v <= bound
    ensures 0.0 <= u * v <= cap * bound
  {
    ScaleInequality(u, v, bound);
    ScaleInequality(bound, u, cap);
  }

  /** e^2 <= 2 c 2 c m E for at most 42 facets and m below EPSILON. */
  lemma SquareCap(ee: real, norm: real, c: real, cap: real, p: real, m: real, worst: real, q: real)
    requires ee <= norm * q && q == c * cap && 0.0 <= norm <= 2.0 && 0.0 <= c <= 42.0
    requires cap == 2.0 * (c * p) && p == m * worst && 0.0 <= m <= EPSILON && worst >= 0.0
    ensures ee <= 7056.0 * (EPSILON * worst)
  {
    var w := EPSILON * worst;
    CapProduct(m, worst, EPSILON, worst);
    assert 0.0 <= p <= w;
    CapProduct(c, p, 42.0, w);
    assert 0.0 <= cap <= 84.0 * w;
    CapProduct(c, cap, 42.0, 84.0 * w);
    assert 0.0 <= q <= 3528.0 * w;
    CapProduct(norm, q, 2.0, 3528.0 * w);
  }

  lemma WorstIsSmall(worst: real, e: real)
    requires worst <= e + 84.0 * EPSILON && (e <= 0.0 || e * e <= 7056.0 * (EPSILON * worst))
    ensures worst <= SLACK
  {
  }

  lemma SmallSquare(e: real, worst: real)
    requires worst <= SLACK && e * e <= 7056.0 * (EPSILON * worst)
    ensures e <= SLACK
  {
    if e > SLACK {
      ScaleInequality(e, SLACK, e);
      ScaleInequality(SLACK, SLACK, e);
    }
  }

  /** At most 42 facets, each steep and with a normal of squared length 1 to 2. */
  ghost predicate LatticeShaped(fs: seq<Facet>) {
    |fs| <= 42 && forall f :: 0 <= f < |fs| ==> Steep(fs[f]) && 1.0 <= Dot(fs[f].normal, fs[f].normal) <= 2.0
  }

  /** No facet is violated by more than `worst`. */
  ghost predicate ViolatesAtMost(fs: seq<Facet>, x: Vec, worst: real)
    requires WellFormed(fs, |x|)
  {
    forall f :: 0 <= f < |fs| ==> Excess(fs[f], x) <= worst
  }

  /** The largest correction of a sweep is not negative. */
  lemma {:induction false} MaxMoveNonneg(fs: seq<Facet>, x: Vec, n: nat)
    requires WellFormed(fs, |x|) && |x| > 0 && n > 0
    ensures Sweeps(fs, Start(fs, x), n).maxMove >= 0.0
  {
    SweepsKeepInvariant(fs, x, n - 1);
    CorrectionsBounded(fs, x, Sweeps(fs, Start(fs, x), n - 1), |fs|, 0);
  }

  /** A facet's violation after an almost motionless sweep, in terms of the worst violation at the start. */
  lemma {:induction false} ViolationAtExit(fs: seq<Facet>, x: Vec, n: nat, f: nat, worst: real, e: real)
    requires WellFormed(fs, |x|) && |x| > 0 && LatticeShaped(fs) && n > 0 && f < |fs|
    requires Sweeps(fs, Start(fs, x), n).maxMove < EPSILON
    requires worst >= 0.0 && ViolatesAtMost(fs, x, worst) && e == Excess(fs[f], Sweeps(fs, Start(fs, x), n).y) >= 0.0
    ensures e * e <= 7056.0 * (EPSILON * worst)
  {
    var norm, m, c := Dot(fs[f].normal, fs[f].normal), Sweeps(fs, Start(fs, x), n).maxMove, |fs| as real;
    var p := m * worst;
    var cap := 2.0 * (c * p);
    MaxMoveNonneg(fs, x, n);
    ExitViolation(fs, x, n, f, e, norm, worst, p, c, cap);
    SquareCap(e * e, norm, c, cap, p, m, worst, c * cap);
  }

  lemma SeasonShape(b: Bounds)
    ensures WellFormed(LatticeOf(b), DIMENSIONS) && LatticeShaped(LatticeOf(b))
  {
    forall f | 0 <= f < |LatticeOf(b)|
      ensures |LatticeOf(b)[f].normal| == DIMENSIONS && Steep(LatticeOf(b)[f])
           && 1.0 <= Dot(LatticeOf(b)[f].normal, LatticeOf(b)[f].normal) <= 2.0
    {
      FacetSlope(Lower(b), Upper(b), Couplings(), f);
    }
  }

  /** The iterate of an almost motionless sweep is next to the start. */
  lemma {:induction false} ExitIsClose(fs: seq<Facet>, x: Vec, n: nat)
    requires WellFormed(fs, |x|) && |fs| <= 42 && n > 0 && Sweeps(fs, Start(fs, x), n).maxMove < EPSILON
    ensures Close(x, Sweeps(fs, Start(fs, x), n).y, 42.0 * EPSILON)
  {
    var s := Sweeps(fs, Start(fs, x), n - 1);
    SweepsKeepInvariant(fs, x, n - 1);
    forall i | 0 <= i < |x| ensures Abs(x[i] - Sweeps(fs, Start(fs, x), n).y[i]) <= 42.0 * EPSILON {
      QuietSweepIsNearStart(fs, x, s, i, EPSILON);
    }
  }

  /** No facet's excess is more than d smaller at y than at x. */
  ghost predicate ShiftedBy(fs: seq<Facet>, x: Vec, y: Vec, d: real)
    requires |x| == |y| && WellFormed(fs, |x|)
  {
    forall f :: 0 <= f < |fs| ==> Excess(fs[f], x) <= Excess(fs[f], y) + d
  }

  lemma {:induction false} SmallAtStart(fs: seq<Facet>, x: Vec, n: nat)
    requires WellFormed(fs, |x|) && |x| > 0 && LatticeShaped(fs) && n > 0
    requires Sweeps(fs, Start(fs, x), n).maxMove < EPSILON
    requires ShiftedBy(fs, x, Sweeps(fs, Start(fs, x), n).y, 84.0 * EPSILON)
    ensures ViolatesAtMost(fs, x, SLACK)
  {
    if |fs| > 0 {
      var w := WorstFacet(fs, x, |fs|);
      var worst, e := Excess(fs[w], x), Excess(fs[w], Sweeps(fs, Start(fs, x), n).y);
      if worst > 0.0 {
        if e > 0.0 {
          ViolationAtExit(fs, x, n, w, worst, e);
        }
        WorstIsSmall(worst, e);
      }
    }
  }

  lemma {:induction false} SmallAtExit(fs: seq<Facet>, x: Vec, n: nat)
    requires WellFormed(fs, |x|) && |x| > 0 && LatticeShaped(fs) && n > 0
    requires Sweeps(fs, Start(fs, x), n).maxMove < EPSILON && ViolatesAtMost(fs, x, SLACK)
    ensures ViolatesAtMost(fs, Sweeps(fs, Start(fs, x), n).y, SLACK)
  {
    var y := Sweeps(fs, Start(fs, x), n).y;
    forall f | 0 <= f < |fs| ensures Excess(fs[f], y) <= SLACK {
      if Excess(fs[f], y) > 0.0 {
        ViolationAtExit(fs, x, n, f, SLACK, Excess(fs[f], y));
        SmallSquare(Excess(fs[f], y), SLACK);
      }
    }
  }

  /** An almost motionless sweep of a run over a lattice: neither the start of the run nor the iterate
      violates any facet by more than 1e-8. */
  lemma {:induction false} QuietSweepIsNearlyInside(b: Bounds, x: Vec, n: nat)
    requires |x| == DIMENSIONS && WellFormed(LatticeOf(b), |x|) && n > 0
    requires Sweeps(LatticeOf(b), Start(LatticeOf(b), x), n).maxMove < EPSILON
    ensures ViolatesAtMost(LatticeOf(b), x, SLACK)
    ensures ViolatesAtMost(LatticeOf(b), Sweeps(LatticeOf(b), Start(LatticeOf(b), x), n).y, SLACK)
  {
    var fs := LatticeOf(b);
    var y := Sweeps(fs, Start(fs, x), n).y;
    SeasonShape(b);
    ExitIsClose(fs, x, n);
    forall f | 0 <= f < |fs| ensures Excess(fs[f], x) <= Excess(fs[f], y) + 84.0 * EPSILON {
      ExcessShift(Lower(b), Upper(b), Couplings(), f, x, y, 42.0 * EPSILON);
    }
    SmallAtStart(fs, x, n);
    SmallAtExit(fs, x, n);
  }

  // ---------------------------------------------------------------------------------------------
  // Nearly inside is near
  // ---------------------------------------------------------------------------------------------

  /** Moving a little towards a deep center makes a nearly inside point an inside one. */
  lemma MoveInside(fs: seq<Facet>, x: Vec, center: Vec, t: real)
    requires |x| == |center| && WellFormed(fs, |x|) && Roomy(fs, center, 0.08) && ViolatesAtMost(fs, x, SLACK)
    requires t == REACH
    ensures Inside(fs, Mix(t, center, x))
  {
    forall f | 0 <= f < |fs| ensures Excess(fs[f], Mix(t, center, x)) <= 0.0 {
      var ec, ex := Excess(fs[f], center), Excess(fs[f], x);
      ExcessOfMix(fs[f], t, center, x, ec, ex);
    }
  }

  lemma MixDistance(t: real, c: Vec, x: Vec, d: real)
    requires |c| == |x| && d == Dist2(c, x)
    ensures Dist2(x, Mix(t, c, x)) == t * (t * d)
  {
    var w := Minus(c, x);
    assert Minus(x, Mix(t, c, x)) == Scale(-t, w);
    DotScale(Scale(-t, w), -t, w);
    DotSymmetric(Scale(-t, w), w);
    DotScale(w, -t, w);
  }

  /** p is not a point of P that is nearer to x than z. */
  ghost predicate NotNearer(fs: seq<Facet>, x: Vec, z: Vec, p: Vec)
    requires |x| == |z| && WellFormed(fs, |x|)
  {
    |p| == |x| && Inside(fs, p) ==> Dist2(x, z) <= Dist2(x, p)
  }

  /** z is a nearest point of P to x. */
  ghost predicate Nearest(fs: seq<Facet>, x: Vec, z: Vec)
    requires |x| == |z| && WellFormed(fs, |x|)
  {
    Inside(fs, z) && forall p :: NotNearer(fs, x, z, p)
  }

  /** A nearly inside point is near its nearest point. */
  lemma NearestIsNear(fs: seq<Facet>, x: Vec, center: Vec, z: Vec, t: real, d: real)
    requires |x| == |center| == |z| && WellFormed(fs, |x|) && Roomy(fs, center, 0.08) && ViolatesAtMost(fs, x, SLACK)
    requires Nearest(fs, x, z) && t == REACH && d == Dist2(center, x)
    ensures Dist2(x, z) <= t * (t * d)
  {
    MoveInside(fs, x, center, t);
    MixDistance(t, center, x, d);
    assert NotNearer(fs, x, z, Mix(t, center, x));
  }

  lemma {:induction false} SettleContracts(fs: seq<Facet>, x: Vec, n: nat, z: Vec)
    requires WellFormed(fs, |x|) && |z| == |x| && Inside(fs, z)
    ensures Dist2(Settle(fs, Start(fs, x), n).y, z) <= Dist2(x, z)
  {
    var j := SettleIsSweeps(fs, Start(fs, x), 0, n);
    TotalMovementBound(fs, x, j, z);
    RunMovementNonneg(fs, Start(fs, x), j);
  }

  /** The sweeps over a season's lattice stop early only from points that violate no facet by more than
      1e-8, and at points that violate none by more: from every other point all the sweeps are run. */
  lemma {:induction false} EarlyExitIsNearlyInside(season: Season, x: Vec, n: nat)
    requires |x| == DIMENSIONS && n > 0 && WellFormed(LatticeOf(SeasonalBounds(season)), DIMENSIONS)
    requires var fs := LatticeOf(SeasonalBounds(season)); Settle(fs, Start(fs, x), n).maxMove < EPSILON
    ensures var fs := LatticeOf(SeasonalBounds(season));
            ViolatesAtMost(fs, x, SLACK) && ViolatesAtMost(fs, Settle(fs, Start(fs, x), n).y, SLACK)
  {
    var fs := LatticeOf(SeasonalBounds(season));
    var j := SettleIsSweeps(fs, Start(fs, x), 0, n);
    QuietSweepIsNearlyInside(SeasonalBounds(season), x, j);
  }

  lemma {:induction false} NearlyInsideHasConverged(fs: seq<Facet>, x: Vec, center: Vec, n: nat, z: Vec)
    requires |x| == |center| == |z| && WellFormed(fs, |x|) && Roomy(fs, center, 0.08) && ViolatesAtMost(fs, x, SLACK)
    requires Nearest(fs, x, z)
    ensures Dist2(Settle(fs, Start(fs, x), n).y, z) <= REACH * (REACH * Dist2(center, x))
  {
    var d := Dist2(center, x);
    NearestIsNear(fs, x, center, z, REACH, d);
    SettleContracts(fs, x, n, z);
  }

  /** When the sweeps over a season's lattice stop early they have converged: the iterate is no farther
      from the point of the lattice nearest to x than 1.25e-7 times the distance from x to the center. */
  lemma {:induction false} EarlyExitHasConverged(season: Season, x: Vec, n: nat, z: Vec)
    requires |x| == |z| == DIMENSIONS && n > 0 && WellFormed(LatticeOf(SeasonalBounds(season)), DIMENSIONS)
    requires var fs := LatticeOf(SeasonalBounds(season));
             Settle(fs, Start(fs, x), n).maxMove < EPSILON && Nearest(fs, x, z)
    ensures var b := SeasonalBounds(season);
            Dist2(Settle(LatticeOf(b), Start(LatticeOf(b), x), n).y, z) <= REACH * (REACH * Dist2(Center(b), x))
  {
    var b := SeasonalBounds(season);
    EarlyExitIsNearlyInside(season, x, n);
    CenterIsDeep(season);
    NearlyInsideHasConverged(LatticeOf(b), x, Center(b), n, z);
  }
}
