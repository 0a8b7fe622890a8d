/** The facet-by-facet projection loop of the lattice, as a function of its state: what one facet
    step does, what a sweep over all facets does, and what any number of sweeps does. */
module Projection {
  import opened Vectors

  /** One halfspace a.x <= b. `critical` marks an ethical wall. */
  datatype Facet = Facet(normal: Vec, threshold: real, critical: bool)

  /** The state of the loop. The correction the loop keeps for facet f is lambda[f] times the normal
      of f, so the multipliers stand for the corrections. `maxMove` is the largest coordinate of a
      correction made in the current sweep. */
  datatype State = State(y: Vec, lambda: seq<real>, maxMove: real)

  const EPSILON: real := 0.000000000001

  ghost predicate WellFormed(fs: seq<Facet>, n: nat) {
    forall f :: 0 <= f < |fs| ==> |fs[f].normal| == n
  }

  /** a.x - b: positive exactly when x is on the wrong side of the facet. */
  function Excess(facet: Facet, x: Vec): real
    requires |facet.normal| == |x|
  {
    Dot(facet.normal, x) - facet.threshold
  }

  /** x lies in P = { x | Ax <= b }. */
  ghost predicate Inside(fs: seq<Facet>, x: Vec)
    requires WellFormed(fs, |x|)
  {
    forall f :: 0 <= f < |fs| ==> Excess(fs[f], x) <= 0.0
  }

  ghost predicate Shaped(fs: seq<Facet>, s: State) {
    WellFormed(fs, |s.y|) && |s.lambda| == |fs|
  }

  function Abs(r: real): real {
    if r < 0.0 then -r else r
  }

  function Max(a: real, b: real): real {
    if a < b then b else a
  }

  /** A product under a name: two products of equal factors are then equal without arithmetic. */
  function Times(m: real, e: real): real {
    m * e
  }

  /** The largest |t * a_i| over the first k coordinates, and at least m. */
  function MaxAbs(m: real, t: real, a: Vec, k: nat): real
    requires k <= |a|
  {
    if k == 0 then m else Max(MaxAbs(m, t, a, k - 1), Abs(Times(t, a[k - 1])))
  }

  /** The multiplier facet f ends a step with. */
  function NextLambda(facet: Facet, y: Vec, lambda: real): real
    requires |facet.normal| == |y|
  {
    var norm := Dot(facet.normal, facet.normal);
    var viol := Excess(facet, AddScaled(y, lambda, facet.normal));
    if norm <= 0.0 then lambda else if viol <= 0.0 then 0.0 else viol / norm
  }

  /** One facet of a sweep: z is the iterate with the facet's own correction put back, and the new
      iterate is z moved onto the facet when z violates it. A facet with a zero normal is skipped. */
  function Step(fs: seq<Facet>, s: State, f: nat): (r: State)
    requires Shaped(fs, s) && f < |fs|
    ensures Shaped(fs, r) && |r.y| == |s.y|
  {
    var a := fs[f].normal;
    var z := AddScaled(s.y, s.lambda[f], a);
    var norm, viol := Dot(a, a), Excess(fs[f], z);
    if norm <= 0.0 then
      s
    else if viol <= 0.0 then
      State(z, s.lambda[f := 0.0], s.maxMove)
    else
      State(AddScaled(z, -(viol / norm), a), s.lambda[f := viol / norm], MaxAbs(s.maxMove, viol / norm, a, |a|))
  }

  /** The first k facets of a sweep. */
  function SweepTo(fs: seq<Facet>, s: State, k: nat): (r: State)
    requires Shaped(fs, s) && k <= |fs|
    ensures Shaped(fs, r) && |r.y| == |s.y|
  {
    if k == 0 then s.(maxMove := 0.0) else Step(fs, SweepTo(fs, s, k - 1), k - 1)
  }

  /** n whole sweeps, with no early exit. */
  function Sweeps(fs: seq<Facet>, s: State, n: nat): (r: State)
    requires Shaped(fs, s)
    ensures Shaped(fs, r) && |r.y| == |s.y|
  {
    if n == 0 then s else SweepTo(fs, Sweeps(fs, s, n - 1), |fs|)
  }

  function Start(fs: seq<Facet>, x: Vec): (r: State)
    requires WellFormed(fs, |x|)
    ensures Shaped(fs, r) && r.y == x
  {
    State(x, seq(|fs|, _ => 0.0), 0.0)
  }

  // ---------------------------------------------------------------------------------------------
  // The invariant of the loop
  // ---------------------------------------------------------------------------------------------

  /** The vector sum of the first m corrections. */
  ghost function Total(fs: seq<Facet>, lambda: seq<real>, n: nat, m: nat): (r: Vec)
    requires m <= |fs| == |lambda| && WellFormed(fs, n)
    ensures |r| == n
  {
    if m == 0 then Zeros(n) else AddScaled(Total(fs, lambda, n, m - 1), lambda[m - 1], fs[m - 1].normal)
  }

  /** No multiplier is negative, and a facet with a zero normal has none. */
  ghost predicate Conic(fs: seq<Facet>, s: State)
    requires Shaped(fs, s)
  {
    forall f :: 0 <= f < |fs| ==>
      s.lambda[f] >= 0.0 && (Dot(fs[f].normal, fs[f].normal) <= 0.0 ==> s.lambda[f] == 0.0)
  }

  /** The iterate plus all the corrections is the point the loop started from. */
  ghost predicate Invariant(fs: seq<Facet>, x: Vec, s: State) {
    && Shaped(fs, s)
    && |x| == |s.y|
    && x == AddScaled(s.y, 1.0, Total(fs, s.lambda, |s.y|, |fs|))
    && Conic(fs, s)
  }

  /** One step moves the iterate along the normal by exactly what its multiplier loses. */
  lemma StepShape(fs: seq<Facet>, s: State, f: nat)
    requires Shaped(fs, s) && f < |fs|
    ensures var r, l' := Step(fs, s, f), NextLambda(fs[f], s.y, s.lambda[f]);
            r.lambda == s.lambda[f := l'] && r.y == AddScaled(s.y, s.lambda[f] - l', fs[f].normal)
  {
    var a := fs[f].normal;
    var z := AddScaled(s.y, s.lambda[f], a);
    var norm, viol := Dot(a, a), Excess(fs[f], z);
    if norm <= 0.0 {
      assert s.y == AddScaled(s.y, 0.0, a);
    } else if viol > 0.0 {
      AddScaledTwice(s.y, s.lambda[f], -(viol / norm), a);
    }
  }

  lemma NextLambdaNonneg(facet: Facet, y: Vec, lambda: real)
    requires |facet.normal| == |y| && lambda >= 0.0
    ensures NextLambda(facet, y, lambda) >= 0.0
  {
  }

  lemma {:induction false} TotalUpdate(fs: seq<Facet>, l: seq<real>, n: nat, f: nat, d: real, k: nat)
    requires f < |fs| == |l| && k <= |fs| && WellFormed(fs, n)
    ensures Total(fs, l[f := l[f] + d], n, k)
            == if f < k then AddScaled(Total(fs, l, n, k), d, fs[f].normal) else Total(fs, l, n, k)
  {
    if k > 0 {
      TotalUpdate(fs, l, n, f, d, k - 1);
      if f == k - 1 {
        AddScaledTwice(Total(fs, l, n, k - 1), l[f], d, fs[f].normal);
      } else {
        AddScaledSwap(Total(fs, l, n, k - 1), l[k - 1], fs[k - 1].normal, d, if f < k then fs[f].normal else Zeros(n));
      }
    }
  }

  lemma StepKeepsInvariant(fs: seq<Facet>, x: Vec, s: State, f: nat)
    requires Invariant(fs, x, s) && f < |fs|
    ensures Invariant(fs, x, Step(fs, s, f))
  {
    var l, l' := s.lambda[f], NextLambda(fs[f], s.y, s.lambda[f]);
    var d := l' - l;
    StepShape(fs, s, f);
    NextLambdaNonneg(fs[f], s.y, l);
    assert s.lambda[f := s.lambda[f] + d] == s.lambda[f := l'];
    TotalUpdate(fs, s.lambda, |s.y|, f, d, |fs|);
    Exchange(s.y, Total(fs, s.lambda, |s.y|, |fs|), -d, fs[f].normal);
  }

  lemma {:induction false} TotalZeros(fs: seq<Facet>, l: seq<real>, n: nat, m: nat)
    requires m <= |fs| == |l| && WellFormed(fs, n) && forall f :: 0 <= f < |l| ==> l[f] == 0.0
    ensures Total(fs, l, n, m) == Zeros(n)
  {
    if m > 0 {
      TotalZeros(fs, l, n, m - 1);
    }
  }

  lemma {:induction false} SweepToKeepsInvariant(fs: seq<Facet>, x: Vec, s: State, k: nat)
    requires Invariant(fs, x, s) && k <= |fs|
    ensures Invariant(fs, x, SweepTo(fs, s, k))
  {
    if k > 0 {
      SweepToKeepsInvariant(fs, x, s, k - 1);
      StepKeepsInvariant(fs, x, SweepTo(fs, s, k - 1), k - 1);
    }
  }

  lemma {:induction false} SweepsKeepInvariant(fs: seq<Facet>, x: Vec, n: nat)
    requires WellFormed(fs, |x|)
    ensures Invariant(fs, x, Sweeps(fs, Start(fs, x), n))
  {
    if n == 0 {
      TotalZeros(fs, Start(fs, x).lambda, |x|, |fs|);
    } else {
      SweepsKeepInvariant(fs, x, n - 1);
      SweepToKeepsInvariant(fs, x, Sweeps(fs, Start(fs, x), n - 1), |fs|);
    }
  }

  /** Conservation: after any number of whole sweeps and any number of further facet steps, the
      iterate plus all the corrections is the starting point, and every correction is a
      non-negative multiple of its facet's normal. */
  lemma {:induction false} RunKeepsInvariant(fs: seq<Facet>, x: Vec, n: nat, k: nat)
    requires WellFormed(fs, |x|) && k <= |fs|
    ensures Invariant(fs, x, SweepTo(fs, Sweeps(fs, Start(fs, x), n), k))
  {
    SweepsKeepInvariant(fs, x, n);
    SweepToKeepsInvariant(fs, x, Sweeps(fs, Start(fs, x), n), k);
  }

  /** A step leaves its facet satisfied, and leaves a correction there only if the facet is tight. */
  lemma StepIsTight(fs: seq<Facet>, s: State, f: nat)
    requires Shaped(fs, s) && f < |fs| && Dot(fs[f].normal, fs[f].normal) > 0.0
    ensures var r := Step(fs, s, f);
            Excess(fs[f], r.y) <= 0.0 && (r.lambda[f] != 0.0 ==> Excess(fs[f], r.y) == 0.0)
  {
    var a := fs[f].normal;
    var z := AddScaled(s.y, s.lambda[f], a);
    var norm, viol := Dot(a, a), Excess(fs[f], z);
    if viol > 0.0 {
      var t := viol / norm;
      assert t * norm == viol;
      DotAddScaled(a, z, -t, a);
    }
  }

  // ---------------------------------------------------------------------------------------------
  // Dual ascent
  // ---------------------------------------------------------------------------------------------

  /** sum over the first k facets of lambda_f (a_f.x - b_f) */
  ghost function Linear(fs: seq<Facet>, x: Vec, l: seq<real>, k: nat): real
    requires k <= |fs| == |l| && WellFormed(fs, |x|)
    decreases k, 0
  {
    if k == 0 then 0.0 else LinearNext(fs, x, l, k - 1)
  }

  ghost function LinearNext(fs: seq<Facet>, x: Vec, l: seq<real>, k: nat): real
    requires k < |fs| == |l| && WellFormed(fs, |x|)
    decreases k, 1
  {
    Linear(fs, x, l, k) + Times(l[k], Excess(fs[k], x))
  }

  /** The dual value  sum lambda (a.x - b) - 1/2 |sum lambda a|^2. */
  ghost function Dual(fs: seq<Facet>, x: Vec, l: seq<real>): real
    requires |fs| == |l| && WellFormed(fs, |x|)
  {
    var total := Total(fs, l, |x|, |fs|);
    Linear(fs, x, l, |fs|) - 0.5 * Dot(total, total)
  }

  lemma {:induction false} LinearUpdate(fs: seq<Facet>, x: Vec, l: seq<real>, f: nat, d: real, excess: real, k: nat)
    requires k <= |fs| == |l| && f < |fs| && WellFormed(fs, |x|) && excess == Excess(fs[f], x)
    ensures Linear(fs, x, l[f := l[f] + d], k) == Linear(fs, x, l, k) + if f < k then d * excess else 0.0
  {
    if k > 0 {
      LinearUpdate(fs, x, l, f, d, excess, k - 1);
      if f == k - 1 {
        TimesSum(l[f], d, excess);
      } else {
        assert l[f := l[f] + d][k - 1] == l[k - 1];
      }
    }
  }

  lemma TimesSum(m: real, d: real, e: real)
    ensures Times(m + d, e) == Times(m, e) + d * e
  {
  }

  /** How the dual value changes with one multiplier; u = a.(sum lambda a), v = |a|^2. */
  lemma {:induction false} DualUpdate(fs: seq<Facet>, x: Vec, l: seq<real>, f: nat, d: real, excess: real, u: real, v: real)
    requires |fs| == |l| && f < |fs| && WellFormed(fs, |x|) && excess == Excess(fs[f], x)
    requires u == Dot(fs[f].normal, Total(fs, l, |x|, |fs|)) && v == Dot(fs[f].normal, fs[f].normal)
    ensures Dual(fs, x, l[f := l[f] + d]) == Dual(fs, x, l) + d * excess - d * u - 0.5 * (d * d * v)
  {
    var total := Total(fs, l, |x|, |fs|);
    TotalUpdate(fs, l, |x|, f, d, |fs|);
    LinearUpdate(fs, x, l, f, d, excess, |fs|);
    NormAddScaled(total, d, fs[f].normal, u, v);
  }

  /** The scalar inequality behind dual ascent. The multiplier goes from m to m + d and the iterate
      moves by t = -d along a normal of squared norm n; e is the excess of the iterate, ex the excess
      of the starting point, and viol the excess of the iterate with the facet's correction put back. */
  lemma AscentArithmetic(
    m: real, d: real, t: real, n: real, viol: real, e: real, u: real, ex: real, moved: real)
    requires n > 0.0 && m >= 0.0 && viol == e + m * n && ex == e + u && t == -d && moved == t * t * n
    requires m + d == if viol <= 0.0 then 0.0 else viol / n
    ensures d * ex - d * u - 0.5 * (d * d * n) >= 0.5 * moved
  {
    assert d * ex == d * e + d * u;
    assert moved == d * d * n;
    if viol <= 0.0 {
      assert e == viol + d * n;
      assert d * e == d * viol + d * d * n;
      assert d * viol >= 0.0;
    } else {
      assert (m + d) * n == viol;
      assert e == (m + d) * n - m * n == d * n;
      assert d * e == d * d * n;
    }
  }

  /** Every facet step, active or not, raises the dual value by at least half the squared movement
      of the iterate. */
  lemma StepRaisesDual(fs: seq<Facet>, x: Vec, s: State, f: nat)
    requires Invariant(fs, x, s) && f < |fs|
    ensures var r := Step(fs, s, f);
            Dual(fs, x, r.lambda) >= Dual(fs, x, s.lambda) + 0.5 * Dist2(r.y, s.y)
  {
    var a := fs[f].normal;
    var n := Dot(a, a);
    if n <= 0.0 {
      Dist2Zero(s.y, s.y);
    } else {
      var m, m' := s.lambda[f], NextLambda(fs[f], s.y, s.lambda[f]);
      StepShape(fs, s, f);
      AscentOfUpdate(fs, x, s, f, m, m' - m, m - m', n, Excess(fs[f], s.y),
                     Dot(a, Total(fs, s.lambda, |s.y|, |fs|)), Excess(fs[f], x),
                     Excess(fs[f], AddScaled(s.y, m, a)), Dist2(AddScaled(s.y, m - m', a), s.y));
    }
  }

  lemma {:induction false} AscentOfUpdate(
    fs: seq<Facet>, x: Vec, s: State, f: nat, m: real, d: real, t: real, n: real, e: real, u: real, ex: real,
    viol: real, moved: real)
    requires Invariant(fs, x, s) && f < |fs| && m == s.lambda[f] && t == -d
    requires n == Dot(fs[f].normal, fs[f].normal) > 0.0 && e == Excess(fs[f], s.y) && ex == Excess(fs[f], x)
    requires u == Dot(fs[f].normal, Total(fs, s.lambda, |s.y|, |fs|))
    requires viol == Excess(fs[f], AddScaled(s.y, m, fs[f].normal))
    requires moved == Dist2(AddScaled(s.y, t, fs[f].normal), s.y)
    requires m + d == if viol <= 0.0 then 0.0 else viol / n
    ensures Dual(fs, x, s.lambda[f := m + d]) >= Dual(fs, x, s.lambda) + 0.5 * moved
  {
    DotAddScaled(fs[f].normal, s.y, 1.0, Total(fs, s.lambda, |s.y|, |fs|));
    ExcessAlong(fs[f], s.y, m, e, n);
    MovementAlong(s.y, t, fs[f].normal, n);
    AscentArithmetic(m, d, t, n, viol, e, u, ex, moved);
    DualUpdate(fs, x, s.lambda, f, d, ex, u, n);
  }

  lemma ExcessAlong(facet: Facet, y: Vec, m: real, e: real, n: real)
    requires |facet.normal| == |y| && e == Excess(facet, y) && n == Dot(facet.normal, facet.normal)
    ensures Excess(facet, AddScaled(y, m, facet.normal)) == e + m * n
  {
    DotAddScaled(facet.normal, y, m, facet.normal);
  }

  lemma MovementAlong(y: Vec, t: real, a: Vec, n: real)
    requires |y| == |a| && n == Dot(a, a)
    ensures Dist2(AddScaled(y, t, a), y) == t * t * n
  {
    var zero := Zeros(|a|);
    assert Minus(AddScaled(y, t, a), y) == AddScaled(zero, t, a);
    DotZeros(a, |a|);
    DotZeros(zero, |a|);
    NormAddScaled(zero, t, a, 0.0, n);
  }

  /** sum lambda (a.x - b) is at most (x - z).(sum lambda a) for every z inside. */
  lemma {:induction false} LinearBound(fs: seq<Facet>, x: Vec, l: seq<real>, z: Vec, k: nat)
    requires k <= |fs| == |l| && |z| == |x| && WellFormed(fs, |x|)
    requires Inside(fs, z) && forall f :: 0 <= f < |fs| ==> l[f] >= 0.0
    ensures Linear(fs, x, l, k) <= Dot(Minus(x, z), Total(fs, l, |x|, k))
  {
    var w := Minus(x, z);
    if k == 0 {
      DotZeros(w, |w|);
    } else {
      var facet, m := fs[k - 1], l[k - 1];
      LinearBound(fs, x, l, z, k - 1);
      DotAddScaled(w, Total(fs, l, |x|, k - 1), m, facet.normal);
      DotSymmetric(w, facet.normal);
      DotMinus(facet.normal, x, z);
      assert Excess(facet, z) <= 0.0;
      TimesInequality(m, Excess(facet, x), Dot(w, facet.normal));
    }
  }

  lemma TimesInequality(m: real, u: real, v: real)
    requires m >= 0.0 && u <= v
    ensures Times(m, u) <= m * v
  {
  }

  /** The dual value never exceeds half the squared distance from the start to a point of P; the gap
      is at least half the squared distance from the iterate to that point. */
  lemma WeakDuality(fs: seq<Facet>, x: Vec, s: State, z: Vec)
    requires Invariant(fs, x, s) && |z| == |x| && Inside(fs, z)
    ensures Dual(fs, x, s.lambda) + 0.5 * Dist2(s.y, z) <= 0.5 * Dist2(x, z)
  {
    var total := Total(fs, s.lambda, |s.y|, |fs|);
    var w := Minus(x, z);
    LinearBound(fs, x, s.lambda, z, |fs|);
    MinusShift(s.y, total, z);
    DotSymmetric(w, total);
    NormOfDifference(w, total);
  }

  /** The squared distances the iterate moves in the first k facet steps of a sweep, added up. */
  ghost function SweepMovement(fs: seq<Facet>, s: State, k: nat): real
    requires Shaped(fs, s) && k <= |fs|
  {
    if k == 0 then 0.0
    else SweepMovement(fs, s, k - 1) + Dist2(SweepTo(fs, s, k).y, SweepTo(fs, s, k - 1).y)
  }

  /** ... and in n whole sweeps. */
  ghost function RunMovement(fs: seq<Facet>, s: State, n: nat): real
    requires Shaped(fs, s)
  {
    if n == 0 then 0.0 else RunMovement(fs, s, n - 1) + SweepMovement(fs, Sweeps(fs, s, n - 1), |fs|)
  }

  lemma {:induction false} SweepStepRaisesDual(fs: seq<Facet>, x: Vec, s: State, k: nat)
    requires Invariant(fs, x, s) && 0 < k <= |fs|
    ensures Dual(fs, x, SweepTo(fs, s, k).lambda)
            >= Dual(fs, x, SweepTo(fs, s, k - 1).lambda)
               + 0.5 * Dist2(SweepTo(fs, s, k).y, SweepTo(fs, s, k - 1).y)
  {
    SweepToKeepsInvariant(fs, x, s, k - 1);
    StepRaisesDual(fs, x, SweepTo(fs, s, k - 1), k - 1);
  }

  lemma {:induction false} SweepRaisesDual(fs: seq<Facet>, x: Vec, s: State, k: nat)
    requires Invariant(fs, x, s) && k <= |fs|
    ensures Dual(fs, x, SweepTo(fs, s, k).lambda) >= Dual(fs, x, s.lambda) + 0.5 * SweepMovement(fs, s, k)
  {
    if k == 0 {
    } else {
      SweepRaisesDual(fs, x, s, k - 1);
      SweepStepRaisesDual(fs, x, s, k);
    }
  }

  lemma {:induction false} LinearZeros(fs: seq<Facet>, x: Vec, l: seq<real>, k: nat)
    requires k <= |fs| == |l| && WellFormed(fs, |x|) && forall f :: 0 <= f < |l| ==> l[f] == 0.0
    ensures Linear(fs, x, l, k) == 0.0
  {
    if k > 0 {
      LinearZeros(fs, x, l, k - 1);
    }
  }

  lemma StartDual(fs: seq<Facet>, x: Vec)
    requires WellFormed(fs, |x|)
    ensures Dual(fs, x, Start(fs, x).lambda) == 0.0
  {
    var s := Start(fs, x);
    TotalZeros(fs, s.lambda, |x|, |fs|);
    DotZeros(Zeros(|x|), |x|);
    LinearZeros(fs, x, s.lambda, |fs|);
  }

  lemma {:induction false} RunSweepRaisesDual(fs: seq<Facet>, x: Vec, n: nat)
    requires WellFormed(fs, |x|) && n > 0
    ensures var s := Sweeps(fs, Start(fs, x), n - 1);
            Dual(fs, x, Sweeps(fs, Start(fs, x), n).lambda) >= Dual(fs, x, s.lambda) + 0.5 * SweepMovement(fs, s, |fs|)
  {
    SweepsKeepInvariant(fs, x, n - 1);
    SweepRaisesDual(fs, x, Sweeps(fs, Start(fs, x), n - 1), |fs|);
  }

  lemma {:induction false} RunRaisesDual(fs: seq<Facet>, x: Vec, n: nat)
    requires WellFormed(fs, |x|)
    ensures Dual(fs, x, Sweeps(fs, Start(fs, x), n).lambda) >= 0.5 * RunMovement(fs, Start(fs, x), n)
  {
    if n == 0 {
      StartDual(fs, x);
    } else {
      RunRaisesDual(fs, x, n - 1);
      RunSweepRaisesDual(fs, x, n);
    }
  }

  /** However many sweeps run, the iterate's total squared movement plus the squared distance that
      is left is at most the squared distance from the start, for every point of P. */
  lemma {:induction false} TotalMovementBound(fs: seq<Facet>, x: Vec, n: nat, z: Vec)
    requires WellFormed(fs, |x|) && |z| == |x| && Inside(fs, z)
    ensures RunMovement(fs, Start(fs, x), n) + Dist2(Sweeps(fs, Start(fs, x), n).y, z) <= Dist2(x, z)
  {
    RunRaisesDual(fs, x, n);
    SweepsKeepInvariant(fs, x, n);
    WeakDuality(fs, x, Sweeps(fs, Start(fs, x), n), z);
  }

  // ---------------------------------------------------------------------------------------------
  // The nearest point
  // ---------------------------------------------------------------------------------------------

  /** Every facet is satisfied at y, and a facet with a positive multiplier is tight there. */
  ghost predicate Complementary(fs: seq<Facet>, y: Vec, l: seq<real>)
    requires WellFormed(fs, |y|) && |l| == |fs|
  {
    forall f :: 0 <= f < |fs| ==> Excess(fs[f], y) <= 0.0 && (l[f] != 0.0 ==> Excess(fs[f], y) == 0.0)
  }

  /** With complementary multipliers  sum lambda (a.x - b) = (x - y).(sum lambda a). */
  lemma {:induction false} LinearTight(fs: seq<Facet>, x: Vec, l: seq<real>, y: Vec, k: nat)
    requires k <= |fs| == |l| && |y| == |x| && WellFormed(fs, |x|) && Complementary(fs, y, l)
    ensures Linear(fs, x, l, k) == Dot(Minus(x, y), Total(fs, l, |x|, k))
  {
    var w := Minus(x, y);
    if k == 0 {
      DotZeros(w, |w|);
    } else {
      var facet, m := fs[k - 1], l[k - 1];
      var wa := Dot(w, facet.normal);
      LinearTight(fs, x, l, y, k - 1);
      DotAddScaled(w, Total(fs, l, |x|, k - 1), m, facet.normal);
      assert Dot(w, Total(fs, l, |x|, k)) == Dot(w, Total(fs, l, |x|, k - 1)) + m * wa;
      DotSymmetric(w, facet.normal);
      DotMinus(facet.normal, x, y);
      TimesEqual(m, Excess(facet, x), wa);
      assert LinearNext(fs, x, l, k - 1) == Linear(fs, x, l, k - 1) + m * wa;
    }
  }

  lemma TimesEqual(m: real, u: real, v: real)
    requires m == 0.0 || u == v
    ensures Times(m, u) == m * v
  {
  }

  /** A state of the loop whose multipliers are complementary sits at the unique nearest point of P:
      every other point of P is farther from x by at least its squared distance from y. */
  lemma ComplementaryIsNearest(fs: seq<Facet>, x: Vec, s: State, z: Vec)
    requires Invariant(fs, x, s) && Complementary(fs, s.y, s.lambda)
    requires |z| == |x| && Inside(fs, z)
    ensures Dist2(x, s.y) + Dist2(s.y, z) <= Dist2(x, z)
  {
    var total := Total(fs, s.lambda, |s.y|, |fs|);
    LinearTight(fs, x, s.lambda, s.y, |fs|);
    assert Minus(x, s.y) == total;
    WeakDuality(fs, x, s, z);
  }

  /** Later steps of a sweep leave the multiplier of facet f alone. */
  lemma {:induction false} LaterStepsKeepLambda(fs: seq<Facet>, s: State, f: nat, k: nat)
    requires Shaped(fs, s) && f < k <= |fs|
    ensures SweepTo(fs, s, k).lambda[f] == SweepTo(fs, s, f + 1).lambda[f]
  {
    if k > f + 1 {
      LaterStepsKeepLambda(fs, s, f, k - 1);
    }
  }

  lemma {:induction false} MovementMonotone(fs: seq<Facet>, s: State, j: nat, k: nat)
    requires Shaped(fs, s) && j <= k <= |fs|
    ensures SweepMovement(fs, s, j) <= SweepMovement(fs, s, k)
  {
    if j < k {
      MovementMonotone(fs, s, j, k - 1);
      Dist2Nonneg(SweepTo(fs, s, k).y, SweepTo(fs, s, k - 1).y);
    }
  }

  /** A sweep that has not moved so far still has its first iterate. */
  lemma {:induction false} StillSweep(fs: seq<Facet>, s: State, k: nat)
    requires Shaped(fs, s) && k <= |fs| && SweepMovement(fs, s, |fs|) <= 0.0
    ensures SweepTo(fs, s, k).y == s.y
  {
    if k > 0 {
      StillSweep(fs, s, k - 1);
      StillStep(fs, s, k);
    }
  }

  lemma StillStep(fs: seq<Facet>, s: State, k: nat)
    requires Shaped(fs, s) && 0 < k <= |fs| && SweepMovement(fs, s, |fs|) <= 0.0
    ensures SweepTo(fs, s, k).y == SweepTo(fs, s, k - 1).y
  {
    MovementMonotone(fs, s, 0, k - 1);
    MovementMonotone(fs, s, k, |fs|);
    SamePlace(SweepTo(fs, s, k).y, SweepTo(fs, s, k - 1).y);
  }

  lemma SamePlace(a: Vec, b: Vec)
    requires |a| == |b| && Dist2(a, b) <= 0.0
    ensures a == b
  {
    Dist2Zero(a, b);
  }

  lemma {:induction false} StillSweepIsComplementary(fs: seq<Facet>, x: Vec, s: State, z: Vec)
    requires Invariant(fs, x, s) && SweepMovement(fs, s, |fs|) <= 0.0
    requires |z| == |x| && Inside(fs, z)
    ensures var r := SweepTo(fs, s, |fs|);
            r.y == s.y && Complementary(fs, r.y, r.lambda)
  {
    var r := SweepTo(fs, s, |fs|);
    StillSweep(fs, s, |fs|);
    SweepToKeepsInvariant(fs, x, s, |fs|);
    forall f | 0 <= f < |fs|
      ensures Excess(fs[f], r.y) <= 0.0 && (r.lambda[f] != 0.0 ==> Excess(fs[f], r.y) == 0.0)
    {
      if Dot(fs[f].normal, fs[f].normal) <= 0.0 {
        DegenerateExcess(fs[f], z, r.y);
      } else {
        StepIsTight(fs, SweepTo(fs, s, f), f);
        LaterStepsKeepLambda(fs, s, f, |fs|);
        StillSweep(fs, s, f + 1);
      }
    }
  }

  /** A zero normal gives every point the same excess. */
  lemma DegenerateExcess(facet: Facet, z: Vec, y: Vec)
    requires |facet.normal| == |z| == |y| && Dot(facet.normal, facet.normal) <= 0.0
    ensures Excess(facet, z) == Excess(facet, y)
  {
    NormZeroMeansZeros(facet.normal);
    DotZeros(z, |z|);
    DotZeros(y, |y|);
    DotSymmetric(facet.normal, z);
    DotSymmetric(facet.normal, y);
  }

  /** When P is not empty and some sweep of a run moves nothing, the iterate is a point of P and it
      is the unique point of P nearest to the start. */
  lemma {:induction false} StillSweepIsNearest(fs: seq<Facet>, x: Vec, n: nat, z: Vec)
    requires WellFormed(fs, |x|) && |z| == |x| && Inside(fs, z)
    requires SweepMovement(fs, Sweeps(fs, Start(fs, x), n), |fs|) <= 0.0
    ensures var y := Sweeps(fs, Start(fs, x), n).y;
            && Inside(fs, y)
            && Dist2(x, y) + Dist2(y, z) <= Dist2(x, z)
            && (Dist2(x, z) <= Dist2(x, y) ==> z == y)
  {
    var s := Sweeps(fs, Start(fs, x), n);
    SweepsKeepInvariant(fs, x, n);
    StillSweepIsComplementary(fs, x, s, z);
    SweepToKeepsInvariant(fs, x, s, |fs|);
    ComplementaryIsNearest(fs, x, SweepTo(fs, s, |fs|), z);
    Dist2Zero(s.y, z);
    Dist2Nonneg(s.y, z);
  }
}
