/** How near the sweeps come to the polytope in a given number, and what their early exit means. */
module Convergence {
  import opened Vectors
  import opened Projection

  // ---------------------------------------------------------------------------------------------
  // How fast violations shrink
  // ---------------------------------------------------------------------------------------------

  /** Between facet steps j and k of one sweep the squared displacement is at most k - j times what
      the steps between them move. */
  lemma {:induction false} Displacement(fs: seq<Facet>, s: State, j: nat, k: nat, c: real, total: real)
    requires Shaped(fs, s) && j <= k <= |fs| && c == (k - j) as real
    requires total == SweepMovement(fs, s, k) - SweepMovement(fs, s, j)
    ensures Dist2(SweepTo(fs, s, k).y, SweepTo(fs, s, j).y) <= c * total
  {
    var y0, y2 := SweepTo(fs, s, j).y, SweepTo(fs, s, k).y;
    if k == j {
      Dist2Zero(y2, y0);
      ZeroTimes(total);
    } else if k == j + 1 {
      assert total == Dist2(y2, y0);
      OneTimes(c, total);
    } else {
      var y1 := SweepTo(fs, s, k - 1).y;
      var u, v := Minus(y1, y0), Minus(y2, y1);
      var c', before := c - 1.0, SweepMovement(fs, s, k - 1) - SweepMovement(fs, s, j);
      Displacement(fs, s, j, k - 1, c', before);
      MinusChain(y0, y1, y2);
      OneMoreMove(u, v, c', c, before, total, Dot(u, u), Dot(v, u), Dot(v, v), -c');
    }
  }

  /** By how much the rest of a sweep changes the excess of facet f after its own step, squared. */
  lemma ExcessChange(fs: seq<Facet>, s: State, f: nat, d: real, n: real, c: real, moved: real)
    requires Shaped(fs, s) && f < |fs| && c == |fs| as real && moved == SweepMovement(fs, s, |fs|)
    requires d == Excess(fs[f], SweepTo(fs, s, |fs|).y) - Excess(fs[f], SweepTo(fs, s, f + 1).y)
    requires n == Dot(fs[f].normal, fs[f].normal) > 0.0
    ensures d * d <= n * (c * moved)
  {
    var a, y, r := fs[f].normal, SweepTo(fs, s, f + 1).y, SweepTo(fs, s, |fs|).y;
    var v := Minus(r, y);
    var vv, k, part := Dot(v, v), (|fs| - f - 1) as real, moved - SweepMovement(fs, s, f + 1);
    DotMinus(a, r, y);
    Displacement(fs, s, f + 1, |fs|, k, part);
    MovementMonotone(fs, s, 0, f + 1);
    MovementMonotone(fs, s, f + 1, |fs|);
    CauchySchwarz(a, v, d, n, vv);
    ChangeArithmetic(d * d, n, vv, k, c, part, moved);
  }

  /** After a sweep that moved `moved` in all, a facet violated by e has e^2 <= |a|^2 |fs| moved. */
  lemma ViolationBound(fs: seq<Facet>, s: State, f: nat, e: real, n: real, c: real, moved: real)
    requires Shaped(fs, s) && f < |fs| && c == |fs| as real && moved == SweepMovement(fs, s, |fs|)
    requires e == Excess(fs[f], SweepTo(fs, s, |fs|).y) >= 0.0
    requires n == Dot(fs[f].normal, fs[f].normal) > 0.0
    ensures e * e <= n * (c * moved)
  {
    var d := e - Excess(fs[f], SweepTo(fs, s, f + 1).y);
    StepIsTight(fs, SweepTo(fs, s, f), f);
    ExcessChange(fs, s, f, d, n, c, moved);
    SquareMonotone(e, d);
  }

  /** After such a sweep a facet that keeps a correction is not left by more than e either. */
  lemma TightnessBound(fs: seq<Facet>, s: State, f: nat, e: real, n: real, c: real, moved: real)
    requires Shaped(fs, s) && f < |fs| && c == |fs| as real && moved == SweepMovement(fs, s, |fs|)
    requires e == Excess(fs[f], SweepTo(fs, s, |fs|).y) && SweepTo(fs, s, |fs|).lambda[f] != 0.0
    requires n == Dot(fs[f].normal, fs[f].normal) > 0.0
    ensures e * e <= n * (c * moved)
  {
    StepIsTight(fs, SweepTo(fs, s, f), f);
    LaterStepsKeepLambda(fs, s, f, |fs|);
    ExcessChange(fs, s, f, e, n, c, moved);
  }

  lemma SquareMonotone(e: real, d: real)
    requires 0.0 <= e <= d
    ensures e * e <= d * d
  {
    ScaleInequality(e, e, d);
    ScaleInequality(d, e, d);
  }

  /** After any sweep, a violated facet's squared violation is at most |a|^2 |fs| times what the sweep moved. */
  lemma {:induction false} SweepViolation(fs: seq<Facet>, s: State, f: nat)
    requires Shaped(fs, s) && f < |fs| && Dot(fs[f].normal, fs[f].normal) > 0.0
    ensures var e := Excess(fs[f], SweepTo(fs, s, |fs|).y);
            e <= 0.0 || e * e <= Dot(fs[f].normal, fs[f].normal) * (|fs| as real * SweepMovement(fs, s, |fs|))
  {
    var e, n := Excess(fs[f], SweepTo(fs, s, |fs|).y), Dot(fs[f].normal, fs[f].normal);
    var c, moved := |fs| as real, SweepMovement(fs, s, |fs|);
    if e > 0.0 {
      ViolationBound(fs, s, f, e, n, c, moved);
    }
  }

  lemma ChangeArithmetic(dd: real, n: real, vv: real, k: real, c: real, part: real, moved: real)
    requires dd <= n * vv && n > 0.0 && vv <= k * part
    requires 0.0 <= k <= c && 0.0 <= part <= moved
    ensures dd <= n * (c * moved)
  {
    assert k * part <= c * moved by {
      ScaleInequality(k, part, moved);
      ScaleInequality(moved, k, c);
    }
    ScaleInequality(n, vv, c * moved);
  }

  /** Among n > 0 sweeps one moves, squared, at most the average. */
  lemma {:induction false} QuietSweep(fs: seq<Facet>, s: State, n: nat, c: real, bound: real) returns (i: nat, m: real)
    requires Shaped(fs, s) && n > 0 && c == n as real && RunMovement(fs, s, n) <= bound
    ensures i < n && m == SweepMovement(fs, Sweeps(fs, s, i), |fs|) && Times(c, m) <= bound
  {
    i, m := n - 1, SweepMovement(fs, Sweeps(fs, s, n - 1), |fs|);
    if n == 1 {
      assert RunMovement(fs, s, 0) == 0.0;
      OneTimes(c, m);
    } else if Times(c, m) > bound {
      var last, c', bound' := m, c - 1.0, bound - m;
      QuietArithmetic(c, c', last, bound, bound');
      i, m := QuietSweep(fs, s, n - 1, c', bound');
      QuietStep(c, c', m, last, bound, bound');
    }
  }

  lemma QuietArithmetic(c: real, c': real, last: real, bound: real, bound': real)
    requires c' == c - 1.0 && bound' == bound - last && Times(c, last) > bound
    ensures c' * last > bound'
  {
    assert c' * last == c * last - last;
  }

  lemma OneTimes(c: real, m: real)
    requires c == 1.0
    ensures Times(c, m) == m
  {
  }

  lemma QuietStep(c: real, c': real, m: real, last: real, bound: real, bound': real)
    requires c' == c - 1.0 && bound' == bound - last && c' > 0.0 && Times(c', m) <= bound' < c' * last
    ensures Times(c, m) <= bound
  {
    if m > last {
      ScaleInequality(c', last, m);
    }
    assert c * m == c' * m + m;
  }

  /** n e^2 <= |a|^2 |fs| bound for every facet that y violates by e. */
  ghost predicate NearlyInside(fs: seq<Facet>, y: Vec, n: real, bound: real)
    requires WellFormed(fs, |y|)
  {
    forall f :: 0 <= f < |fs| ==> NearlySatisfied(fs[f], y, n, |fs| as real * bound)
  }

  ghost predicate NearlySatisfied(facet: Facet, y: Vec, n: real, bound: real)
    requires |facet.normal| == |y|
  {
    var e, norm := Excess(facet, y), Dot(facet.normal, facet.normal);
    e <= 0.0 || n * (e * e) <= norm * bound
  }

  lemma {:induction false} NearlyAfterSweep(
    fs: seq<Facet>, s: State, f: nat, n: real, count: real, moved: real, bound: real, cap: real, z: Vec)
    requires Shaped(fs, s) && f < |fs| && n > 0.0 && count == |fs| as real && cap == count * bound
    requires moved == SweepMovement(fs, s, |fs|) && Times(n, moved) <= bound && |z| == |s.y| && Inside(fs, z)
    ensures NearlySatisfied(fs[f], SweepTo(fs, s, |fs|).y, n, cap)
  {
    var y := SweepTo(fs, s, |fs|).y;
    var e, norm := Excess(fs[f], y), Dot(fs[f].normal, fs[f].normal);
    if norm <= 0.0 {
      DegenerateExcess(fs[f], z, y);
      assert Excess(fs[f], z) <= 0.0;
    } else if e > 0.0 {
      ViolationBound(fs, s, f, e, norm, count, moved);
      NearlyArithmetic(e * e, norm, count, moved, n, bound, cap);
    }
  }

  /** Of any n > 0 sweeps, one ends with every facet violated by at most e where
      n e^2 <= |a|^2 |fs| |x - z|^2, for any point z of P. */
  lemma {:induction false} SomeSweepIsNearlyInside(fs: seq<Facet>, x: Vec, n: nat, z: Vec) returns (i: nat)
    requires WellFormed(fs, |x|) && |z| == |x| && Inside(fs, z) && n > 0
    ensures i < n && NearlyInside(fs, Sweeps(fs, Start(fs, x), i + 1).y, n as real, Dist2(x, z))
  {
    var start, bound, c := Start(fs, x), Dist2(x, z), n as real;
    TotalMovementBound(fs, x, n, z);
    Dist2Nonneg(Sweeps(fs, start, n).y, z);
    var moved;
    i, moved := QuietSweep(fs, start, n, c, bound);
    AllNearlyAfterSweep(fs, Sweeps(fs, start, i), c, moved, bound, z);
  }

  lemma {:induction false} AllNearlyAfterSweep(fs: seq<Facet>, s: State, n: real, moved: real, bound: real, z: Vec)
    requires Shaped(fs, s) && n > 0.0 && |z| == |s.y| && Inside(fs, z)
    requires moved == SweepMovement(fs, s, |fs|) && Times(n, moved) <= bound
    ensures NearlyInside(fs, SweepTo(fs, s, |fs|).y, n, bound)
  {
    var y := SweepTo(fs, s, |fs|).y;
    forall f | 0 <= f < |fs| ensures NearlySatisfied(fs[f], y, n, |fs| as real * bound) {
      NearlyAfterSweep(fs, s, f, n, |fs| as real, moved, bound, |fs| as real * bound, z);
    }
  }

  lemma NearlyArithmetic(ee: real, norm: real, count: real, moved: real, n: real, bound: real, cap: real)
    requires cap == count * bound && ee <= norm * (count * moved) && Times(n, moved) <= bound
    requires n > 0.0 && norm > 0.0 && count >= 0.0
    ensures n * ee <= norm * cap
  {
    ScaleInequality(n, ee, norm * (count * moved));
    ScaleInequality(count, n * moved, bound);
    ScaleInequality(norm, count * (n * moved), count * bound);
    assert n * (norm * (count * moved)) == norm * (count * (n * moved));
  }

  // ---------------------------------------------------------------------------------------------
  // What the early exit means
  // ---------------------------------------------------------------------------------------------

  lemma {:induction false} MaxAbsBound(m: real, t: real, a: Vec, k: nat, i: nat)
    requires i < k <= |a|
    ensures Abs(Times(t, a[i])) <= MaxAbs(m, t, a, k)
  {
    if i < k - 1 {
      MaxAbsBound(m, t, a, k - 1, i);
    }
  }

  lemma {:induction false} MaxAbsAtLeast(m: real, t: real, a: Vec, k: nat)
    requires k <= |a|
    ensures m <= MaxAbs(m, t, a, k)
  {
    if k > 0 {
      MaxAbsAtLeast(m, t, a, k - 1);
    }
  }

  /** Coordinate i of the correction of facet f. */
  ghost function Correction(fs: seq<Facet>, l: seq<real>, f: nat, i: nat): real
    requires f < |fs| == |l| && i < |fs[f].normal|
  {
    Times(l[f], fs[f].normal[i])
  }

  /** A step's correction is recorded in the maximum, which never shrinks within a sweep. */
  lemma StepMaxMove(fs: seq<Facet>, s: State, f: nat, i: nat)
    requires Shaped(fs, s) && f < |fs| && i < |s.y| && s.maxMove >= 0.0
    requires Dot(fs[f].normal, fs[f].normal) <= 0.0 ==> s.lambda[f] == 0.0
    ensures var r := Step(fs, s, f);
            r.maxMove >= s.maxMove && Abs(Correction(fs, r.lambda, f, i)) <= r.maxMove
  {
    var a, r := fs[f].normal, Step(fs, s, f);
    var norm, viol := Dot(a, a), Excess(fs[f], AddScaled(s.y, s.lambda[f], a));
    if norm <= 0.0 || viol <= 0.0 {
      assert r.lambda[f] == 0.0;
      ZeroTimes(a[i]);
    } else {
      var t := viol / norm;
      MaxAbsAtLeast(s.maxMove, t, a, |a|);
      MaxAbsBound(s.maxMove, t, a, |a|, i);
      assert r.lambda[f] == t;
    }
  }

  lemma ZeroTimes(a: real)
    ensures 0.0 * a == 0.0
  {
  }

  ghost predicate CorrectionsWithin(fs: seq<Facet>, l: seq<real>, k: nat, i: nat, cap: real)
    requires k <= |fs| == |l| && forall f :: 0 <= f < |fs| ==> i < |fs[f].normal|
  {
    forall f :: 0 <= f < k ==> Abs(Correction(fs, l, f, i)) <= cap
  }

  /** After k facets of a sweep no coordinate of their corrections exceeds the recorded maximum. */
  lemma {:induction false} CorrectionsBounded(fs: seq<Facet>, x: Vec, s: State, k: nat, i: nat)
    requires Invariant(fs, x, s) && k <= |fs| && i < |s.y|
    ensures SweepTo(fs, s, k).maxMove >= 0.0
    ensures CorrectionsWithin(fs, SweepTo(fs, s, k).lambda, k, i, SweepTo(fs, s, k).maxMove)
  {
    if k > 0 {
      CorrectionsBounded(fs, x, s, k - 1, i);
      SweepToKeepsInvariant(fs, x, s, k - 1);
      CorrectionsStep(fs, SweepTo(fs, s, k - 1), k - 1, i);
    }
  }

  lemma CorrectionsStep(fs: seq<Facet>, s: State, k: nat, i: nat)
    requires Shaped(fs, s) && Conic(fs, s) && k < |fs| && i < |s.y|
    requires s.maxMove >= 0.0 && CorrectionsWithin(fs, s.lambda, k, i, s.maxMove)
    ensures var r := Step(fs, s, k);
            r.maxMove >= 0.0 && CorrectionsWithin(fs, r.lambda, k + 1, i, r.maxMove)
  {
    var r := Step(fs, s, k);
    StepMaxMove(fs, s, k, i);
    StepShape(fs, s, k);
    forall f | 0 <= f < k ensures Correction(fs, r.lambda, f, i) == Correction(fs, s.lambda, f, i) {
      assert r.lambda[f] == s.lambda[f];
    }
  }

  /** The recorded maximum is m, or the size of some coordinate's move. */
  lemma {:induction false} MaxAbsAttained(m: real, t: real, a: Vec, k: nat) returns (i: nat)
    requires k <= |a|
    ensures MaxAbs(m, t, a, k) == m || (i < k && MaxAbs(m, t, a, k) == Abs(Times(t, a[i])))
  {
    i := 0;
    if k > 0 {
      i := MaxAbsAttained(m, t, a, k - 1);
      if MaxAbs(m, t, a, k) != MaxAbs(m, t, a, k - 1) {
        i := k - 1;
      }
    }
  }

  /** A step leaves the maximum as it was, or records its own correction. */
  lemma StepAttains(fs: seq<Facet>, s: State, f: nat) returns (i: nat)
    requires Shaped(fs, s) && f < |fs|
    ensures var r := Step(fs, s, f);
            r.maxMove == s.maxMove || (i < |s.y| && Abs(Correction(fs, r.lambda, f, i)) == r.maxMove)
  {
    var a := fs[f].normal;
    var norm, viol := Dot(a, a), Excess(fs[f], AddScaled(s.y, s.lambda[f], a));
    i := 0;
    if norm > 0.0 && viol > 0.0 {
      i := MaxAbsAttained(s.maxMove, viol / norm, a, |a|);
    }
  }

  lemma {:induction false} SweepAttains(fs: seq<Facet>, s: State, k: nat) returns (f: nat, i: nat)
    requires Shaped(fs, s) && k <= |fs|
    ensures var r := SweepTo(fs, s, k);
            r.maxMove == 0.0 || (f < k && i < |s.y| && Abs(Correction(fs, r.lambda, f, i)) == r.maxMove)
  {
    f, i := 0, 0;
    if k > 0 {
      f, i := SweepAttains(fs, s, k - 1);
      var before := SweepTo(fs, s, k - 1);
      var j := StepAttains(fs, before, k - 1);
      StepShape(fs, before, k - 1);
      if Step(fs, before, k - 1).maxMove != before.maxMove {
        f, i := k - 1, j;
      }
    }
  }

  /** What the early exit compares is the largest coordinate of any correction: none is larger, and one is as
      large, unless all are zero. */
  lemma {:induction false} LargestCorrection(fs: seq<Facet>, x: Vec, n: nat) returns (f: nat, i: nat)
    requires WellFormed(fs, |x|) && n > 0
    ensures var s := Sweeps(fs, Start(fs, x), n);
            && (forall g, j :: 0 <= g < |fs| && 0 <= j < |x| ==> Abs(Correction(fs, s.lambda, g, j)) <= s.maxMove)
            && (s.maxMove == 0.0 || (f < |fs| && i < |x| && Abs(Correction(fs, s.lambda, f, i)) == s.maxMove))
  {
    var before, s := Sweeps(fs, Start(fs, x), n - 1), Sweeps(fs, Start(fs, x), n);
    assert s == SweepTo(fs, before, |fs|);
    SweepsKeepInvariant(fs, x, n - 1);
    forall g, j | 0 <= g < |fs| && 0 <= j < |x| ensures Abs(Correction(fs, s.lambda, g, j)) <= s.maxMove {
      CorrectionsBounded(fs, x, before, |fs|, j);
    }
    f, i := SweepAttains(fs, before, |fs|);
  }

  lemma {:induction false} TotalNext(fs: seq<Facet>, l: seq<real>, n: nat, k: nat, i: nat)
    requires k < |fs| == |l| && WellFormed(fs, n) && i < n
    ensures Total(fs, l, n, k + 1)[i] == Total(fs, l, n, k)[i] + Correction(fs, l, k, i)
  {
  }

  lemma {:induction false} TotalBounded(fs: seq<Facet>, l: seq<real>, n: nat, k: nat, i: nat, c: real, cap: real)
    requires k <= |fs| == |l| && WellFormed(fs, n) && i < n && c == k as real
    requires CorrectionsWithin(fs, l, k, i, cap)
    ensures Abs(Total(fs, l, n, k)[i]) <= c * cap
  {
    if k == 0 {
      assert c == 0.0;
      ZeroTimes(cap);
    } else {
      TotalBounded(fs, l, n, k - 1, i, c - 1.0, cap);
      TotalNext(fs, l, n, k - 1, i);
      AbsSum(Total(fs, l, n, k - 1)[i], Correction(fs, l, k - 1, i), c - 1.0, c, cap);
    }
  }

  lemma AbsSum(t: real, p: real, c': real, c: real, cap: real)
    requires Abs(t) <= c' * cap && Abs(p) <= cap && c == c' + 1.0
    ensures Abs(t + p) <= c * cap
  {
    assert c * cap == c' * cap + cap;
  }

  /** When a sweep's largest correction is at most m, the iterate is within |fs| m of the starting
      point in every coordinate. */
  lemma {:induction false} QuietSweepIsNearStart(fs: seq<Facet>, x: Vec, s: State, i: nat, cap: real)
    requires Invariant(fs, x, s) && i < |x| && SweepTo(fs, s, |fs|).maxMove <= cap
    ensures Abs(x[i] - SweepTo(fs, s, |fs|).y[i]) <= |fs| as real * cap
  {
    var r, c := SweepTo(fs, s, |fs|), |fs| as real;
    SweepToKeepsInvariant(fs, x, s, |fs|);
    CorrectionsBounded(fs, x, s, |fs|, i);
    TotalBounded(fs, r.lambda, |x|, |fs|, i, c, cap);
    assert x[i] == r.y[i] + 1.0 * Total(fs, r.lambda, |x|, |fs|)[i];
  }

  lemma {:induction false} RunMovementNonneg(fs: seq<Facet>, s: State, n: nat)
    requires Shaped(fs, s)
    ensures RunMovement(fs, s, n) >= 0.0
  {
    if n > 0 {
      RunMovementNonneg(fs, s, n - 1);
      MovementMonotone(fs, Sweeps(fs, s, n - 1), 0, |fs|);
    }
  }

  /** Some coordinate of the normal is at least 1 in size. */
  ghost predicate Steep(facet: Facet) {
    exists i :: 0 <= i < |facet.normal| && Abs(facet.normal[i]) >= 1.0
  }

  lemma SteepMultiplier(l: real, v: real, cap: real)
    requires l >= 0.0 && Abs(Times(l, v)) <= cap && Abs(v) >= 1.0
    ensures l <= cap
  {
    if v >= 1.0 {
      ScaleInequality(l, 1.0, v);
    } else {
      ScaleInequality(l, v, -1.0);
    }
  }

  /** After a sweep no multiplier of a steep facet exceeds the largest correction. */
  lemma {:induction false} MultipliersBounded(fs: seq<Facet>, x: Vec, s: State, f: nat)
    requires Invariant(fs, x, s) && f < |fs| && Steep(fs[f])
    ensures 0.0 <= SweepTo(fs, s, |fs|).lambda[f] <= SweepTo(fs, s, |fs|).maxMove
  {
    var r := SweepTo(fs, s, |fs|);
    var i :| 0 <= i < |fs[f].normal| && Abs(fs[f].normal[i]) >= 1.0;
    SweepToKeepsInvariant(fs, x, s, |fs|);
    CorrectionsBounded(fs, x, s, |fs|, i);
    assert Abs(Correction(fs, r.lambda, f, i)) <= r.maxMove;
    SteepMultiplier(r.lambda[f], fs[f].normal[i], r.maxMove);
  }

  lemma TimesCap(l: real, e: real, cap: real, worst: real, p: real)
    requires 0.0 <= l <= cap && e <= worst && worst >= 0.0 && p == cap * worst
    ensures Times(l, e) <= p
  {
    ScaleInequality(l, e, worst);
    ScaleInequality(worst, l, cap);
  }

  /** Small multipliers and small violations make a small linear part. */
  lemma {:induction false} LinearCap(fs: seq<Facet>, x: Vec, l: seq<real>, k: nat, cap: real, worst: real, p: real, c: real)
    requires k <= |fs| == |l| && WellFormed(fs, |x|) && worst >= 0.0 && p == cap * worst && c == k as real
    requires forall f :: 0 <= f < |fs| ==> 0.0 <= l[f] <= cap && Excess(fs[f], x) <= worst
    ensures Linear(fs, x, l, k) <= c * p
  {
    if k == 0 {
      ZeroTimes(p);
    } else {
      LinearCap(fs, x, l, k - 1, cap, worst, p, c - 1.0);
      TimesCap(l[k - 1], Excess(fs[k - 1], x), cap, worst, p);
      assert Linear(fs, x, l, k) == LinearNext(fs, x, l, k - 1);
      assert c * p == (c - 1.0) * p + p;
    }
  }

  /** A sweep of the run from x that ends with small corrections has moved little in all its steps, and so
      has the whole run, when x violates no facet by much. */
  lemma {:induction false} ExitMovement(fs: seq<Facet>, x: Vec, n: nat, worst: real, p: real, c: real)
    requires WellFormed(fs, |x|) && n > 0 && worst >= 0.0 && c == |fs| as real
    requires p == Sweeps(fs, Start(fs, x), n).maxMove * worst
    requires forall f :: 0 <= f < |fs| ==> Steep(fs[f]) && Excess(fs[f], x) <= worst
    ensures 0.0 <= SweepMovement(fs, Sweeps(fs, Start(fs, x), n - 1), |fs|) <= 2.0 * (c * p)
  {
    var s, r := Sweeps(fs, Start(fs, x), n - 1), Sweeps(fs, Start(fs, x), n);
    SweepsKeepInvariant(fs, x, n - 1);
    forall f | 0 <= f < |fs| ensures 0.0 <= r.lambda[f] <= r.maxMove {
      MultipliersBounded(fs, x, s, f);
    }
    LinearCap(fs, x, r.lambda, |fs|, r.maxMove, worst, p, c);
    LastMovement(fs, x, n);
    MovementMonotone(fs, s, 0, |fs|);
  }

  /** The last sweep of a run moves no more than twice what the multipliers are worth. */
  lemma LastMovement(fs: seq<Facet>, x: Vec, n: nat)
    requires WellFormed(fs, |x|) && n > 0
    ensures SweepMovement(fs, Sweeps(fs, Start(fs, x), n - 1), |fs|)
         <= 2.0 * Linear(fs, x, Sweeps(fs, Start(fs, x), n).lambda, |fs|)
  {
    NormNonneg(Total(fs, Sweeps(fs, Start(fs, x), n).lambda, |x|, |fs|));
    RunRaisesDual(fs, x, n);
    RunMovementNonneg(fs, Start(fs, x), n - 1);
  }

  lemma ChainViolation(ee: real, norm: real, c: real, moved: real, cap: real)
    requires norm >= 0.0 && c >= 0.0 && moved <= cap && ee <= norm * (c * moved)
    ensures ee <= norm * (c * cap)
  {
    ScaleInequality(c, moved, cap);
    ScaleInequality(norm, c * moved, c * cap);
  }

  /** A sweep of the run from x that ends with corrections of at most m, where x violates no facet by more
      than E: every facet violated by e afterwards has e^2 <= |a|^2 |fs| 2 |fs| m E. */
  lemma {:induction false} ExitViolation(fs: seq<Facet>, x: Vec, n: nat, f: nat, e: real, norm: real, worst: real,
                                         p: real, c: real, cap: real)
    requires WellFormed(fs, |x|) && n > 0 && worst >= 0.0 && c == |fs| as real && f < |fs|
    requires p == Sweeps(fs, Start(fs, x), n).maxMove * worst && cap == 2.0 * (c * p)
    requires forall g :: 0 <= g < |fs| ==> Steep(fs[g]) && Excess(fs[g], x) <= worst
    requires e == Excess(fs[f], Sweeps(fs, Start(fs, x), n).y) >= 0.0
    requires norm == Dot(fs[f].normal, fs[f].normal) > 0.0
    ensures e * e <= norm * (c * cap)
  {
    var s := Sweeps(fs, Start(fs, x), n - 1);
    var moved := SweepMovement(fs, s, |fs|);
    ExitMovement(fs, x, n, worst, p, c);
    ViolationBound(fs, s, f, e, norm, c, moved);
    ChainViolation(e * e, norm, c, moved, cap);
  }
}
