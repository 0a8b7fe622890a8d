/** The whole projection: sweeps with their early exit, the exact check with its inward nudges, and
    the fallback to the center. */
module Landing {
  import opened Vectors
  import opened Projection
  import opened Convergence

  const MAX_SWEEPS: nat := 2000
  const MAX_NUDGES: nat := 200
  const NUDGE: real := 0.0000000000001

  /** At most n sweeps, stopping after one whose largest correction is below EPSILON. */
  function Settle(fs: seq<Facet>, s: State, n: nat): (r: State)
    requires Shaped(fs, s)
    ensures Shaped(fs, r) && |r.y| == |s.y|
    decreases n
  {
    if n == 0 then s
    else
      var next := SweepTo(fs, s, |fs|);
      if next.maxMove < EPSILON then next else Settle(fs, next, n - 1)
  }

  /** One inward step along the normal of a violated facet, slightly past the bound. */
  function NudgeFacet(facet: Facet, v: Vec): (r: Vec)
    requires |facet.normal| == |v|
    ensures |r| == |v|
  {
    var norm := Dot(facet.normal, facet.normal);
    if Excess(facet, v) > 0.0 && norm != 0.0
    then AddScaled(v, -(Excess(facet, v) / norm + NUDGE), facet.normal)
    else v
  }

  predicate Nudges(facet: Facet, v: Vec)
    requires |facet.normal| == |v|
  {
    Excess(facet, v) > 0.0 && Dot(facet.normal, facet.normal) != 0.0
  }

  /** The point after the first k facets of a nudging pass. */
  function NudgeTo(fs: seq<Facet>, v: Vec, k: nat): (r: Vec)
    requires WellFormed(fs, |v|) && k <= |fs|
    ensures |r| == |v|
  {
    if k == 0 then v else NudgeFacet(fs[k - 1], NudgeTo(fs, v, k - 1))
  }

  /** Some facet among the first k nudged. */
  predicate MovedTo(fs: seq<Facet>, v: Vec, k: nat)
    requires WellFormed(fs, |v|) && k <= |fs|
  {
    k > 0 && (MovedTo(fs, v, k - 1) || Nudges(fs[k - 1], NudgeTo(fs, v, k - 1)))
  }

  /** At most n nudging passes, stopping inside P or when a pass finds nothing to nudge. */
  ghost function Nudged(fs: seq<Facet>, v: Vec, n: nat): (r: Vec)
    requires WellFormed(fs, |v|)
    ensures |r| == |v|
    decreases n, 1
  {
    if n == 0 || Inside(fs, v) then v else NudgedOn(fs, v, n)
  }

  /** At least one pass is made. */
  ghost function NudgedOn(fs: seq<Facet>, v: Vec, n: nat): (r: Vec)
    requires WellFormed(fs, |v|) && n > 0
    ensures |r| == |v|
    decreases n, 0
  {
    if MovedTo(fs, v, |fs|) then Nudged(fs, NudgeTo(fs, v, |fs|), n - 1) else NudgeTo(fs, v, |fs|)
  }

  ghost function Land(fs: seq<Facet>, center: Vec, v: Vec, n: nat): (r: Vec)
    requires WellFormed(fs, |v|) && |center| == |v|
    ensures |r| == |v|
  {
    var w := Nudged(fs, v, n);
    if Inside(fs, w) then w else center
  }

  /** The point `project` returns for x. */
  ghost function Projected(fs: seq<Facet>, center: Vec, x: Vec): (r: Vec)
    requires WellFormed(fs, |x|) && |center| == |x|
    ensures |r| == |x|
  {
    Land(fs, center, Settle(fs, Start(fs, x), MAX_SWEEPS).y, MAX_NUDGES)
  }

  // ---------------------------------------------------------------------------------------------

  /** Settling is some number of whole sweeps, at most n; it ends below EPSILON when it stops early. */
  lemma {:induction false} SettleIsSweeps(fs: seq<Facet>, s: State, i: nat, n: nat) returns (j: nat)
    requires Shaped(fs, s)
    ensures i <= j <= i + n && Settle(fs, Sweeps(fs, s, i), n) == Sweeps(fs, s, j)
    ensures j < i + n ==> j > i && Sweeps(fs, s, j).maxMove < EPSILON
    decreases n
  {
    if n == 0 {
      j := i;
    } else if Sweeps(fs, s, i + 1).maxMove < EPSILON {
      j := i + 1;
    } else {
      j := SettleIsSweeps(fs, s, i + 1, n - 1);
    }
  }

  lemma {:induction false} NudgedStep(fs: seq<Facet>, v: Vec, n: nat, next: Vec)
    requires WellFormed(fs, |v|) && n > 0 && next == NudgeTo(fs, v, |fs|)
    ensures Inside(fs, v) ==> Nudged(fs, v, n) == v
    ensures !Inside(fs, v) ==> Nudged(fs, v, n) == if MovedTo(fs, v, |fs|) then Nudged(fs, next, n - 1) else next
  {
    assert !Inside(fs, v) ==> Nudged(fs, v, n) == NudgedOn(fs, v, n);
  }

  lemma {:induction false} SettleStep(fs: seq<Facet>, s: State, n: nat, next: State)
    requires Shaped(fs, s) && n > 0 && next == SweepTo(fs, s, |fs|)
    ensures Settle(fs, s, n) == if next.maxMove < EPSILON then next else Settle(fs, next, n - 1)
  {
  }

  /** Whenever the center is in P, whatever facets P has, the projection is in P. */
  lemma ProjectedIsInside(fs: seq<Facet>, center: Vec, x: Vec)
    requires WellFormed(fs, |x|) && |center| == |x| && Inside(fs, center)
    ensures Inside(fs, Projected(fs, center, x))
  {
  }

  lemma AddNothing(x: Vec, a: Vec)
    requires |x| == |a|
    ensures AddScaled(x, 0.0, a) == x
  {
  }

  /** A sweep from a point of P without corrections does nothing. */
  lemma {:induction false} SweepOfMember(fs: seq<Facet>, x: Vec, k: nat)
    requires WellFormed(fs, |x|) && Inside(fs, x) && k <= |fs|
    ensures SweepTo(fs, Start(fs, x), k) == Start(fs, x)
  {
    if k > 0 {
      SweepOfMember(fs, x, k - 1);
      AddNothing(x, fs[k - 1].normal);
      assert Excess(fs[k - 1], x) <= 0.0;
      assert Start(fs, x).lambda[k - 1 := 0.0] == Start(fs, x).lambda;
    }
  }

  /** A point of P is its own projection. */
  lemma MembersAreKept(fs: seq<Facet>, center: Vec, x: Vec)
    requires WellFormed(fs, |x|) && |center| == |x| && Inside(fs, x)
    ensures Projected(fs, center, x) == x
  {
    SweepOfMember(fs, x, |fs|);
  }

  /** Projecting twice is projecting once. */
  lemma ProjectedIsIdempotent(fs: seq<Facet>, center: Vec, x: Vec)
    requires WellFormed(fs, |x|) && |center| == |x| && Inside(fs, center)
    ensures Projected(fs, center, Projected(fs, center, x)) == Projected(fs, center, x)
  {
    ProjectedIsInside(fs, center, x);
    MembersAreKept(fs, center, Projected(fs, center, x));
  }

  /** The sweeps bring the iterate no farther from any point of P than x was; so when the exact check
      accepts it as it is, the projection is at least as near to every point of P as x is. */
  lemma {:induction false} ProjectedContracts(fs: seq<Facet>, center: Vec, x: Vec, z: Vec)
    requires WellFormed(fs, |x|) && |center| == |x| == |z| && Inside(fs, z)
    ensures var y := Settle(fs, Start(fs, x), MAX_SWEEPS).y;
            Dist2(y, z) <= Dist2(x, z) && (Inside(fs, y) ==> Projected(fs, center, x) == y)
  {
    var j := SettleIsSweeps(fs, Start(fs, x), 0, MAX_SWEEPS);
    TotalMovementBound(fs, x, j, z);
    RunMovementNonneg(fs, Start(fs, x), j);
  }

  // ---------------------------------------------------------------------------------------------
  // Where sweeps and nudges stop
  // ---------------------------------------------------------------------------------------------

  lemma {:induction false} SettleStopsAt(fs: seq<Facet>, s: State, i: nat, k: nat, n: nat)
    requires Shaped(fs, s) && i < k <= i + n
    requires forall j :: i < j < k ==> Sweeps(fs, s, j).maxMove >= EPSILON
    requires k < i + n ==> Sweeps(fs, s, k).maxMove < EPSILON
    ensures Settle(fs, Sweeps(fs, s, i), n) == Sweeps(fs, s, k)
    decreases n
  {
    SettleStep(fs, Sweeps(fs, s, i), n, Sweeps(fs, s, i + 1));
    if i + 1 < k {
      SettleStopsAt(fs, s, i + 1, k, n - 1);
    } else if n > 1 {
    } else {
      assert Settle(fs, Sweeps(fs, s, i + 1), 0) == Sweeps(fs, s, i + 1);
    }
  }

  /** m nudging passes over all facets. */
  function PassesOn(fs: seq<Facet>, v: Vec, m: nat): (r: Vec)
    requires WellFormed(fs, |v|)
    ensures |r| == |v|
  {
    if m == 0 then v else NudgeTo(fs, PassesOn(fs, v, m - 1), |fs|)
  }

  lemma {:induction false} QuietPass(fs: seq<Facet>, v: Vec, k: nat)
    requires WellFormed(fs, |v|) && k <= |fs| && !MovedTo(fs, v, k)
    ensures NudgeTo(fs, v, k) == v
  {
    if k > 0 {
      QuietPass(fs, v, k - 1);
    }
  }

  lemma {:induction false} PassesFromQuiet(fs: seq<Facet>, v: Vec, i: nat, m: nat)
    requires WellFormed(fs, |v|) && i <= m && !MovedTo(fs, PassesOn(fs, v, i), |fs|)
    ensures PassesOn(fs, v, m) == PassesOn(fs, v, i)
    decreases m
  {
    if i < m {
      PassesFromQuiet(fs, v, i, m - 1);
      QuietPass(fs, PassesOn(fs, v, i), |fs|);
    }
  }

  /** Nudging stops inside, or after all its passes; a pass that nudges nothing might as well be repeated. */
  lemma {:induction false} NudgedStopsAt(fs: seq<Facet>, v: Vec, i: nat, m: nat, n: nat)
    requires WellFormed(fs, |v|) && i <= m <= i + n
    requires forall j :: i <= j < m ==> !Inside(fs, PassesOn(fs, v, j))
    requires m < i + n ==> Inside(fs, PassesOn(fs, v, m))
    ensures Nudged(fs, PassesOn(fs, v, i), n) == PassesOn(fs, v, m)
    decreases n
  {
    if i < m {
      assert !Inside(fs, PassesOn(fs, v, i));
      NudgedStep(fs, PassesOn(fs, v, i), n, PassesOn(fs, v, i + 1));
      if MovedTo(fs, PassesOn(fs, v, i), |fs|) {
        NudgedStopsAt(fs, v, i + 1, m, n - 1);
      } else {
        PassesFromQuiet(fs, v, i, m);
        PassesFromQuiet(fs, v, i, i + 1);
      }
    }
  }

  /** Exactly where a projection stops: after the first sweep whose largest correction is below 1e-12, or after two
      thousand sweeps; and then at the first point inside that nudging passes lead to, two hundred at most, or at
      the center when there is none. */
  lemma {:induction false} ProjectionStopsAt(fs: seq<Facet>, center: Vec, x: Vec, k: nat, m: nat, y: Vec)
    requires WellFormed(fs, |x|) && |center| == |x| && 1 <= k <= 2000 && y == Sweeps(fs, Start(fs, x), k).y
    requires forall j :: 1 <= j < k ==> Sweeps(fs, Start(fs, x), j).maxMove >= 0.000000000001
    requires k < 2000 ==> Sweeps(fs, Start(fs, x), k).maxMove < 0.000000000001
    requires m <= 200 && forall j :: 0 <= j < m ==> !Inside(fs, PassesOn(fs, y, j))
    requires m < 200 ==> Inside(fs, PassesOn(fs, y, m))
    ensures Projected(fs, center, x) == if Inside(fs, PassesOn(fs, y, m)) then PassesOn(fs, y, m) else center
  {
    SettleStopsAt(fs, Start(fs, x), 0, k, MAX_SWEEPS);
    NudgedStopsAt(fs, y, 0, m, MAX_NUDGES);
  }

  // ---------------------------------------------------------------------------------------------
  // The nudges
  // ---------------------------------------------------------------------------------------------

  /** z is on the right side of a facet by more than half of what a nudge goes past it. */
  ghost predicate Clear(facet: Facet, z: Vec)
    requires |facet.normal| == |z|
  {
    2.0 * Excess(facet, z) <= -Times(NUDGE, Dot(facet.normal, facet.normal))
  }

  ghost predicate AllClear(fs: seq<Facet>, z: Vec)
    requires WellFormed(fs, |z|)
  {
    forall f :: 0 <= f < |fs| ==> Clear(fs[f], z)
  }

  lemma ClearIsInside(fs: seq<Facet>, z: Vec)
    requires WellFormed(fs, |z|) && AllClear(fs, z)
    ensures Inside(fs, z)
  {
    forall f | 0 <= f < |fs| ensures Excess(fs[f], z) <= 0.0 {
      assert Clear(fs[f], z);
      NormNonneg(fs[f].normal);
      ProductNonneg(NUDGE, Dot(fs[f].normal, fs[f].normal), Times(NUDGE, Dot(fs[f].normal, fs[f].normal)));
    }
  }

  lemma NudgeArithmetic(step: real, t: real, e: real, ez: real, norm: real, part: real, nudge: real)
    requires norm > 0.0 && e > 0.0 && part == e / norm && step == part + nudge && t == -step && nudge > 0.0
    requires 2.0 * ez <= -(nudge * norm)
    ensures 2.0 * (t * (e - ez)) + t * t * norm <= 0.0
  {
    QuotientBack(e, norm, part);
    var twice := 2.0 * (e - ez);
    assert step * norm == e + nudge * norm <= twice;
    ScaleInequality(step, step * norm, twice);
    assert t * t * norm == step * (step * norm) && step * twice == -2.0 * (t * (e - ez));
  }

  lemma QuotientBack(e: real, norm: real, part: real)
    requires norm > 0.0 && e > 0.0 && part == e / norm
    ensures part * norm == e && part > 0.0
  {
    if part <= 0.0 {
      ProductNonneg(-part, norm, -part * norm);
    }
  }

  /** A nudge brings the point no farther from any point that is clear of the facet. */
  lemma NudgeContracts(facet: Facet, v: Vec, z: Vec)
    requires |facet.normal| == |v| == |z| && Clear(facet, z)
    ensures Dist2(NudgeFacet(facet, v), z) <= Dist2(v, z)
  {
    var a := facet.normal;
    var norm, e := Dot(a, a), Excess(facet, v);
    NormNonneg(a);
    if e > 0.0 && norm != 0.0 {
      var w, part := Minus(v, z), e / norm;
      var step := part + NUDGE;
      MinusOfMove(v, -step, a, z);
      NormAddScaled(w, -step, a, e - Excess(facet, z), norm) by {
        DotMinus(a, v, z);
      }
      NudgeArithmetic(step, -step, e, Excess(facet, z), norm, part, NUDGE);
    }
  }

  lemma MinusOfMove(v: Vec, t: real, a: Vec, z: Vec)
    requires |v| == |a| == |z|
    ensures Minus(AddScaled(v, t, a), z) == AddScaled(Minus(v, z), t, a)
  {
  }

  lemma {:induction false} NudgeToContracts(fs: seq<Facet>, v: Vec, z: Vec, k: nat)
    requires |v| == |z| && WellFormed(fs, |v|) && AllClear(fs, z) && k <= |fs|
    ensures Dist2(NudgeTo(fs, v, k), z) <= Dist2(v, z)
  {
    if k > 0 {
      NudgeToContracts(fs, v, z, k - 1);
      NudgeContracts(fs[k - 1], NudgeTo(fs, v, k - 1), z);
    }
  }

  lemma {:induction false} NudgedContracts(fs: seq<Facet>, v: Vec, z: Vec, n: nat)
    requires |v| == |z| && WellFormed(fs, |v|) && AllClear(fs, z)
    ensures Dist2(Nudged(fs, v, n), z) <= Dist2(v, z)
    decreases n
  {
    if n > 0 && !Inside(fs, v) {
      NudgeToContracts(fs, v, z, |fs|);
      assert Nudged(fs, v, n) == NudgedOn(fs, v, n);
      if MovedTo(fs, v, |fs|) {
        NudgedContracts(fs, NudgeTo(fs, v, |fs|), z, n - 1);
      }
    }
  }

  /** The whole projection, nudges included, ends no farther from a point that is clear of every facet than
      it started, unless it falls back to the center. */
  lemma ProjectionContracts(fs: seq<Facet>, center: Vec, x: Vec, z: Vec)
    requires WellFormed(fs, |x|) && |center| == |x| == |z| && AllClear(fs, z)
    ensures Projected(fs, center, x) == center || Dist2(Projected(fs, center, x), z) <= Dist2(x, z)
  {
    var y := Settle(fs, Start(fs, x), MAX_SWEEPS).y;
    ClearIsInside(fs, z);
    ProjectedContracts(fs, center, x, z);
    NudgedContracts(fs, y, z, MAX_NUDGES);
  }

  /** When the sweeps stop early the iterate is within |fs| EPSILON of x in every coordinate. */
  lemma {:induction false} EarlyExitIsNearStart(fs: seq<Facet>, x: Vec, i: nat, n: nat)
    requires WellFormed(fs, |x|) && i < |x| && n > 0
    requires Settle(fs, Start(fs, x), n).maxMove < EPSILON
    ensures Abs(x[i] - Settle(fs, Start(fs, x), n).y[i]) <= |fs| as real * EPSILON
  {
    var s := Start(fs, x);
    var j := SettleIsSweeps(fs, s, 0, n);
    SweepsKeepInvariant(fs, x, j - 1);
    QuietSweepIsNearStart(fs, x, Sweeps(fs, s, j - 1), i, EPSILON);
  }
}
