/** How fast the sweeps over a season's lattice approach the nearest point. */
module Rate {
  import opened Vectors
  import opened Projection
  import opened Convergence
  import opened Landing
  import opened Lattice
  import opened Alignment
  import opened EarlyExit

  /** The first k multipliers added up. */
  ghost function SumTo(l: seq<real>, k: nat): real
    requires k <= |l|
  {
    if k == 0 then 0.0 else SumTo(l, k - 1) + l[k - 1]
  }

  // ---------------------------------------------------------------------------------------------
  // The multipliers are bounded
  // ---------------------------------------------------------------------------------------------

  /** sum lambda (a.x - b) + m sum lambda is at most (x - c).(sum lambda a) for a point c with room m. */
  lemma {:induction false} DeepLinearBound(fs: seq<Facet>, x: Vec, l: seq<real>, c: Vec, m: real, k: nat)
    requires k <= |fs| == |l| && |c| == |x| && WellFormed(fs, |x|) && Roomy(fs, c, m)
    requires forall f :: 0 <= f < |fs| ==> l[f] >= 0.0
    ensures Linear(fs, x, l, k) + Times(m, SumTo(l, k)) <= Dot(Minus(x, c), Total(fs, l, |x|, k))
  {
    var w := Minus(x, c);
    if k == 0 {
      DotZeros(w, |w|);
    } else {
      var facet := fs[k - 1];
      DeepLinearBound(fs, x, l, c, m, k - 1);
      DotAddScaled(w, Total(fs, l, |x|, k - 1), l[k - 1], facet.normal);
      DotSymmetric(w, facet.normal);
      DotMinus(facet.normal, x, c);
      assert Excess(facet, c) <= -m;
      DeepArithmetic(l[k - 1], Excess(facet, x), Dot(w, facet.normal), m, SumTo(l, k - 1));
    }
  }

  lemma DeepArithmetic(l: real, ex: real, wa: real, m: real, sum: real)
    requires l >= 0.0 && ex <= wa - m
    ensures Times(l, ex) + Times(m, sum + l) <= Times(m, sum) + l * wa
  {
    ScaleInequality(l, ex, wa - m);
    assert m * (sum + l) == m * sum + m * l && l * (wa - m) == l * wa - m * l;
  }

  /** Weak duality at a point with room m, with what the room is worth. */
  lemma DeepDuality(fs: seq<Facet>, x: Vec, s: State, c: Vec, m: real)
    requires Projection.Invariant(fs, x, s) && |c| == |x| && Roomy(fs, c, m)
    ensures Dual(fs, x, s.lambda) + 0.5 * Dist2(s.y, c) + Times(m, SumTo(s.lambda, |fs|)) <= 0.5 * Dist2(x, c)
  {
    var total := Total(fs, s.lambda, |s.y|, |fs|);
    var w := Minus(x, c);
    DeepLinearBound(fs, x, s.lambda, c, m, |fs|);
    MinusShift(s.y, total, c);
    DotSymmetric(w, total);
    NormOfDifference(w, total);
  }

  /** During a run all the multipliers together, times the room m at c, are at most half the squared
      distance from the start to c. */
  lemma MultipliersTogether(fs: seq<Facet>, x: Vec, n: nat, c: Vec, m: real)
    requires WellFormed(fs, |x|) && |c| == |x| && Roomy(fs, c, m)
    ensures Times(m, SumTo(Sweeps(fs, Start(fs, x), n).lambda, |fs|)) <= 0.5 * Dist2(x, c)
  {
    var s := Sweeps(fs, Start(fs, x), n);
    SweepsKeepInvariant(fs, x, n);
    DeepDuality(fs, x, s, c, m);
    RunRaisesDual(fs, x, n);
    RunMovementNonneg(fs, Start(fs, x), n);
    Dist2Nonneg(s.y, c);
  }

  // ---------------------------------------------------------------------------------------------
  // A quiet sweep leaves little to gain
  // ---------------------------------------------------------------------------------------------

  /** Facets with a multiplier are at most `gap` away from y. */
  ghost predicate TightWithin(fs: seq<Facet>, y: Vec, l: seq<real>, gap: real)
    requires WellFormed(fs, |y|) && |l| == |fs|
  {
    forall f :: 0 <= f < |fs| ==> l[f] == 0.0 || Excess(fs[f], y) >= -gap
  }

  lemma {:induction false} TightLinearBound(fs: seq<Facet>, x: Vec, l: seq<real>, y: Vec, gap: real, k: nat)
    requires k <= |fs| == |l| && |y| == |x| && WellFormed(fs, |x|) && TightWithin(fs, y, l, gap)
    requires forall f :: 0 <= f < |fs| ==> l[f] >= 0.0
    ensures Linear(fs, x, l, k) + Times(gap, SumTo(l, k)) >= Dot(Minus(x, y), Total(fs, l, |x|, k))
  {
    var w := Minus(x, y);
    if k == 0 {
      DotZeros(w, |w|);
    } else {
      var facet := fs[k - 1];
      TightLinearBound(fs, x, l, y, gap, k - 1);
      DotAddScaled(w, Total(fs, l, |x|, k - 1), l[k - 1], facet.normal);
      DotSymmetric(w, facet.normal);
      DotMinus(facet.normal, x, y);
      TightArithmetic(l[k - 1], Excess(facet, x), Dot(w, facet.normal), gap, SumTo(l, k - 1));
    }
  }

  lemma TightArithmetic(l: real, ex: real, wa: real, gap: real, sum: real)
    requires l == 0.0 || (l >= 0.0 && ex >= wa - gap)
    ensures Times(l, ex) + Times(gap, sum + l) >= Times(gap, sum) + l * wa
  {
    if l > 0.0 {
      ScaleInequality(l, wa - gap, ex);
      assert l * (wa - gap) == l * wa - gap * l;
    }
    assert gap * (sum + l) == gap * sum + gap * l;
  }

  /** When facets with a multiplier are nearly tight the dual value is nearly half the squared distance moved. */
  lemma DualNearlyReached(fs: seq<Facet>, x: Vec, s: State, gap: real)
    requires Projection.Invariant(fs, x, s) && TightWithin(fs, s.y, s.lambda, gap)
    ensures Dual(fs, x, s.lambda) + Times(gap, SumTo(s.lambda, |fs|)) >= 0.5 * Dist2(x, s.y)
  {
    TightLinearBound(fs, x, s.lambda, s.y, gap, |fs|);
    MinusBack(s.y, Total(fs, s.lambda, |s.y|, |fs|));
  }

  lemma MinusBack(y: Vec, total: Vec)
    requires |y| == |total|
    ensures Minus(AddScaled(y, 1.0, total), y) == total
  {
  }

  /** How far y is on the wrong side of a facet, or on the right side of one that has a multiplier. */
  function Gap(facet: Facet, y: Vec, l: real): real
    requires |facet.normal| == |y|
  {
    if l == 0.0 then Excess(facet, y) else Abs(Excess(facet, y))
  }

  /** The largest gap of a facet, and at least zero. */
  lemma {:induction false} LargestGap(fs: seq<Facet>, y: Vec, l: seq<real>, k: nat) returns (gap: real)
    requires k <= |fs| == |l| && WellFormed(fs, |y|)
    ensures gap >= 0.0 && forall f :: 0 <= f < k ==> Gap(fs[f], y, l[f]) <= gap
    ensures gap == 0.0 || exists f :: 0 <= f < k && gap == Gap(fs[f], y, l[f])
  {
    if k == 0 {
      return 0.0;
    }
    gap := LargestGap(fs, y, l, k - 1);
    if Gap(fs[k - 1], y, l[k - 1]) > gap {
      gap := Gap(fs[k - 1], y, l[k - 1]);
    }
  }

  lemma GapSquared(fs: seq<Facet>, s: State, f: nat, e: real, l: real, n: real, c: real, moved: real)
    requires Shaped(fs, s) && f < |fs| && c == |fs| as real && moved == SweepMovement(fs, s, |fs|)
    requires n == Dot(fs[f].normal, fs[f].normal) > 0.0
    requires e == Excess(fs[f], SweepTo(fs, s, |fs|).y) && l == SweepTo(fs, s, |fs|).lambda[f]
    requires l != 0.0 || e >= 0.0
    ensures e * e <= n * (c * moved)
  {
    if l == 0.0 {
      ViolationBound(fs, s, f, e, n, c, moved);
    } else {
      TightnessBound(fs, s, f, e, n, c, moved);
    }
  }

  /** 84 is two times the number of facets: the longest normal squared times the length of a sweep. */
  lemma GapCap(e: real, gap: real, n: real, c: real, moved: real)
    requires e * e <= n * (c * moved) && 0.0 <= n <= 2.0 && 0.0 <= c <= 42.0 && moved >= 0.0
    requires gap == e || gap == -e
    ensures gap * gap <= 84.0 * moved
  {
    CapProduct(c, moved, 42.0, moved);
    CapProduct(n, c * moved, 2.0, 42.0 * moved);
    assert gap * gap == e * e;
  }

  /** After a sweep that moved `moved`, every gap squared is at most 84 times that. */
  lemma SweepGap(fs: seq<Facet>, s: State, moved: real) returns (gap: real)
    requires Shaped(fs, s) && LatticeShaped(fs) && moved == SweepMovement(fs, s, |fs|)
    ensures gap >= 0.0 && gap * gap <= 84.0 * moved
    ensures var r := SweepTo(fs, s, |fs|); ViolatesAtMost(fs, r.y, gap) && TightWithin(fs, r.y, r.lambda, gap)
  {
    var r := SweepTo(fs, s, |fs|);
    gap := LargestGap(fs, r.y, r.lambda, |fs|);
    MovementMonotone(fs, s, 0, |fs|);
    if gap > 0.0 {
      var f :| 0 <= f < |fs| && gap == Gap(fs[f], r.y, r.lambda[f]);
      var n, c, e := Dot(fs[f].normal, fs[f].normal), |fs| as real, Excess(fs[f], r.y);
      GapSquared(fs, s, f, e, r.lambda[f], n, c, moved);
      GapCap(e, gap, n, c, moved);
    }
    forall f | 0 <= f < |fs|
      ensures Excess(fs[f], r.y) <= gap && (r.lambda[f] == 0.0 || Excess(fs[f], r.y) >= -gap)
    {
      assert Gap(fs[f], r.y, r.lambda[f]) <= gap;
    }
  }

  // ---------------------------------------------------------------------------------------------
  // The nearest point is not much farther
  // ---------------------------------------------------------------------------------------------

  lemma MixSatisfies(t: real, ec: real, ey: real, m: real, gap: real)
    requires 0.0 <= t <= 1.0 && ec <= -m && ey <= gap && t * (m + gap) == gap
    ensures ey + t * (ec - ey) <= 0.0
  {
    BlendMonotone(t, ec, ey, -m, gap);
    assert gap + t * (-m - gap) == gap - t * (m + gap);
  }

  /** Moving y the part t of the way to a point with room makes it a point of P. */
  lemma MixIsInside(fs: seq<Facet>, y: Vec, c: Vec, m: real, gap: real, t: real)
    requires |c| == |y| && WellFormed(fs, |y|) && Roomy(fs, c, m) && ViolatesAtMost(fs, y, gap)
    requires 0.0 <= t <= 1.0 && t * (m + gap) == gap
    ensures Inside(fs, Mix(t, c, y))
  {
    forall f | 0 <= f < |fs| ensures Excess(fs[f], Mix(t, c, y)) <= 0.0 {
      var ec, ey := Excess(fs[f], c), Excess(fs[f], y);
      ExcessOfMix(fs[f], t, c, y, ec, ey);
      MixSatisfies(t, ec, ey, m, gap);
    }
  }

  lemma MixArithmetic(t: real, t': real, uu: real, uv: real, vv: real, far: real)
    requires 0.0 <= t <= 1.0 && t' == -t && far == uu - 2.0 * uv + vv && uu >= 0.0 && vv >= 0.0
    ensures uu + 2.0 * (t' * uv) + t' * t' * vv <= uu + t * far
  {
    assert t * far == t * uu - 2.0 * (t * uv) + t * vv;
    assert t' * t' * vv == t * (t * vv) && t' * uv == -(t * uv);
    ProductNonneg(t, uu, t * uu);
    ProductNonneg(t, vv, t * vv);
    ScaleInequality(t * vv, t, 1.0);
  }

  /** The squared distance grows by at most t |x - c|^2 on the way. */
  lemma MixIsNear(t: real, c: Vec, x: Vec, y: Vec, far: real)
    requires |c| == |x| == |y| && 0.0 <= t <= 1.0 && far == Dist2(x, c)
    ensures Dist2(x, Mix(t, c, y)) <= Dist2(x, y) + t * far
  {
    var u, v := Minus(x, y), Minus(c, y);
    var uu, uv, vv, t' := Dot(u, u), Dot(v, u), Dot(v, v), -t;
    forall i | 0 <= i < |x| ensures Minus(x, Mix(t, c, y))[i] == AddScaled(u, t', v)[i] {
      assert t' * v[i] == -(t * v[i]);
    }
    assert Minus(x, Mix(t, c, y)) == AddScaled(u, t', v);
    assert Minus(x, c) == AddScaled(u, -1.0, v);
    NormAddScaled(u, t', v, uv, vv);
    NormAddScaled(u, -1.0, v, uv, vv);
    NormNonneg(u);
    NormNonneg(v);
    MixArithmetic(t, t', uu, uv, vv, far);
  }

  lemma PartOfTheWay(m: real, gap: real) returns (t: real)
    requires m > 0.0 && gap >= 0.0
    ensures 0.0 <= t <= 1.0 && t * (m + gap) == gap && m * t <= gap
  {
    t := gap / (m + gap);
    QuotientSigns(gap, m + gap, t);
    assert t * (m + gap) == t * m + t * gap;
    ProductNonneg(t, gap, t * gap);
  }

  /** The nearest point z costs at most m t |x - c|^2 <= gap |x - c|^2 more than an iterate that violates
      no facet by more than `gap`. */
  lemma NearestCostsLittle(fs: seq<Facet>, x: Vec, y: Vec, c: Vec, z: Vec, m: real, gap: real, far: real)
    requires |x| == |y| == |c| == |z| && WellFormed(fs, |x|) && Roomy(fs, c, m) && ViolatesAtMost(fs, y, gap)
    requires Nearest(fs, x, z) && m > 0.0 && gap >= 0.0 && far == Dist2(x, c)
    ensures Times(m, Dist2(x, z) - Dist2(x, y)) <= Times(gap, far)
  {
    var t := PartOfTheWay(m, gap);
    MixIsInside(fs, y, c, m, gap, t);
    MixIsNear(t, c, x, y, far);
    assert NotNearer(fs, x, z, Mix(t, c, y));
    Dist2Nonneg(x, c);
    CostArithmetic(m, t, gap, far, Dist2(x, z) - Dist2(x, y));
  }

  lemma CostArithmetic(m: real, t: real, gap: real, far: real, more: real)
    requires m > 0.0 && m * t <= gap && far >= 0.0 && more <= t * far
    ensures Times(m, more) <= Times(gap, far)
  {
    ScaleInequality(m, more, t * far);
    ScaleInequality(far, m * t, gap);
    assert m * (t * far) == far * (m * t);
  }

  // ---------------------------------------------------------------------------------------------
  // The rate
  // ---------------------------------------------------------------------------------------------

  /** The dual value never falls from sweep i on. */
  lemma {:induction false} DualGrows(fs: seq<Facet>, x: Vec, i: nat, n: nat)
    requires WellFormed(fs, |x|) && i <= n
    ensures Dual(fs, x, Sweeps(fs, Start(fs, x), i).lambda) <= Dual(fs, x, Sweeps(fs, Start(fs, x), n).lambda)
  {
    if i < n {
      DualGrows(fs, x, i, n - 1);
      RunSweepRaisesDual(fs, x, n);
      MovementMonotone(fs, Sweeps(fs, Start(fs, x), n - 1), 0, |fs|);
    }
  }

  lemma DistanceArithmetic(
    m: real, d: real, near: real, moved: real, gap: real, sum: real, far: real, early: real, late: real)
    requires m > 0.0 && gap >= 0.0 && early <= late
    requires late + 0.5 * d <= 0.5 * near && early + Times(gap, sum) >= 0.5 * moved
    requires Times(m, near - moved) <= Times(gap, far) && Times(m, sum) <= 0.5 * far
    ensures Times(m, d) <= 2.0 * Times(gap, far)
  {
    assert d <= near - moved + 2.0 * (gap * sum);
    ScaleInequality(m, d, near - moved + 2.0 * (gap * sum));
    ScaleInequality(gap, m * sum, 0.5 * far);
    assert m * (near - moved + 2.0 * (gap * sum)) == m * (near - moved) + 2.0 * (gap * (m * sum));
    assert gap * (0.5 * far) == 0.5 * (gap * far);
  }

  /** Once a sweep has left only small gaps, every later iterate is near the nearest point: c has room m. */
  lemma DistanceAfterSweep(
    fs: seq<Facet>, x: Vec, i: nat, n: nat, c: Vec, z: Vec, m: real, gap: real, far: real)
    requires WellFormed(fs, |x|) && |c| == |z| == |x| && i <= n && Roomy(fs, c, m) && m > 0.0 && gap >= 0.0
    requires var s := Sweeps(fs, Start(fs, x), i); ViolatesAtMost(fs, s.y, gap) && TightWithin(fs, s.y, s.lambda, gap)
    requires Nearest(fs, x, z) && far == Dist2(x, c)
    ensures Times(m, Dist2(Sweeps(fs, Start(fs, x), n).y, z)) <= 2.0 * Times(gap, far)
  {
    var s, r := Sweeps(fs, Start(fs, x), i), Sweeps(fs, Start(fs, x), n);
    SweepsKeepInvariant(fs, x, i);
    SweepsKeepInvariant(fs, x, n);
    DualNearlyReached(fs, x, s, gap);
    DualGrows(fs, x, i, n);
    WeakDuality(fs, x, r, z);
    MultipliersTogether(fs, x, i, c, m);
    NearestCostsLittle(fs, x, s.y, c, z, m, gap, far);
    DistanceArithmetic(m, Dist2(r.y, z), Dist2(x, z), Dist2(x, s.y), gap, SumTo(s.lambda, |fs|), far,
                       Dual(fs, x, s.lambda), Dual(fs, x, r.lambda));
  }

  /** d^2 falls at least like 1/n: n d^2 <= 52500 far^2 near. */
  ghost predicate WithinRate(n: real, d: real, far: real, near: real) {
    n * (d * d) <= 52500.0 * (far * far * near)
  }

  lemma RateArithmetic(n: real, d: real, gap: real, far: real, near: real, moved: real)
    requires n >= 0.0 && d >= 0.0 && Times(0.08, d) <= 2.0 * Times(gap, far) && gap * gap <= 84.0 * moved
    requires Times(n, moved) <= near
    ensures WithinRate(n, d, far, near)
  {
    var g, ff := gap * far, far * far;
    assert d <= 25.0 * g;
    SquareMonotone(d, 25.0 * g);
    assert (25.0 * g) * (25.0 * g) == 625.0 * (g * g) && g * g == (gap * gap) * ff;
    ScaleInequality(ff, gap * gap, 84.0 * moved);
    assert d * d <= 52500.0 * (ff * moved);
    ScaleInequality(n, d * d, 52500.0 * (ff * moved));
    assert n * (52500.0 * (ff * moved)) == 52500.0 * (ff * (n * moved));
    ScaleInequality(ff, n * moved, near);
  }

  lemma SweepsApproach(fs: seq<Facet>, x: Vec, n: nat, c: Vec, z: Vec)
    requires WellFormed(fs, |x|) && |c| == |z| == |x| && n > 0 && LatticeShaped(fs) && Roomy(fs, c, 0.08)
    requires Nearest(fs, x, z)
    ensures WithinRate(n as real, Dist2(Sweeps(fs, Start(fs, x), n).y, z), Dist2(x, c), Dist2(x, z))
  {
    var start, m, far, near := Start(fs, x), 0.08, Dist2(x, c), Dist2(x, z);
    var d := Dist2(Sweeps(fs, start, n).y, z);
    TotalMovementBound(fs, x, n, z);
    Dist2Nonneg(Sweeps(fs, start, n).y, z);
    var i, moved := QuietSweep(fs, start, n, n as real, near);
    var gap := SweepGap(fs, Sweeps(fs, start, i), moved);
    DistanceAfterSweep(fs, x, i + 1, n, c, z, m, gap, far);
    RateArithmetic(n as real, d, gap, far, near, moved);
  }

  /** The sweeps over a season's lattice converge to the nearest point, from every start and at a rate: after
      n sweeps the squared distance d from it has n d^2 <= 52500 |x - center|^4 |x - z|^2. */
  lemma SweepsConverge(season: Season, x: Vec, n: nat, z: Vec)
    requires |x| == |z| == DIMENSIONS && n > 0 && WellFormed(LatticeOf(SeasonalBounds(season)), DIMENSIONS)
    requires Nearest(LatticeOf(SeasonalBounds(season)), x, z)
    ensures var b := SeasonalBounds(season);
            WithinRate(n as real, Dist2(Sweeps(LatticeOf(b), Start(LatticeOf(b), x), n).y, z),
                       Dist2(x, Center(b)), Dist2(x, z))
  {
    var b := SeasonalBounds(season);
    SeasonShape(b);
    CenterIsDeep(season);
    SweepsApproach(LatticeOf(b), x, n, Center(b), z);
  }

  /** So with the early exit: the loop ends next to the nearest point, or has run all its sweeps and is within
      the rate. */
  lemma LoopConverges(season: Season, x: Vec, n: nat, z: Vec)
    requires |x| == |z| == DIMENSIONS && n > 0 && WellFormed(LatticeOf(SeasonalBounds(season)), DIMENSIONS)
    requires Nearest(LatticeOf(SeasonalBounds(season)), x, z)
    ensures var b := SeasonalBounds(season);
            var d := Dist2(Settle(LatticeOf(b), Start(LatticeOf(b), x), n).y, z);
            || d <= REACH * (REACH * Dist2(Center(b), x))
            || WithinRate(n as real, d, Dist2(x, Center(b)), Dist2(x, z))
  {
    var fs := LatticeOf(SeasonalBounds(season));
    if Settle(fs, Start(fs, x), n).maxMove < EPSILON {
      EarlyExitHasConverged(season, x, n, z);
    } else {
      var j := SettleIsSweeps(fs, Start(fs, x), 0, n);
      SweepsConverge(season, x, n, z);
    }
  }
}
