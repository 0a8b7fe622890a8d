/** One virtue and its shadow: the six facets that bound the two, swept on their own. Only the lead and the
    sum are left to iterate over; the bounds are met exactly in between. */
module Couple {
  /** The virtue lies between `lo` and 1, its shadow between 0 and `up`; the virtue leads by `lead`, and the two
      add up to `sum` at most. */
  datatype Rules = Rules(lo: real, up: real, lead: real, sum: real)

  /** What the rules of all pairs of all seasons have in common. */
  predicate Usual(k: Rules) {
    && 0.0 < k.lo <= 0.6 && 0.2 <= k.up <= 0.62 && 0.2 <= k.lead <= 0.5 && 1.05 <= k.sum <= 1.15
    && k.lead + k.up <= 0.9 && k.lead - 0.07 <= k.lo && k.sum - k.up > k.lo && k.lo < (k.lead + k.sum) / 2.0
    && (k.lead <= k.lo || k.lead >= k.lo + 0.02)
    && (2.0 * k.up + k.lead <= k.sum || 2.0 * k.up + k.lead >= k.sum + 0.02)
    && 1.0 + k.up >= k.sum + 0.02 && k.lead + k.up >= k.lo + 0.02
    && (k.lo + 1.0) / 2.0 - k.up / 2.0 >= k.lead && (k.lo + 1.0) / 2.0 + k.up / 2.0 <= k.sum
  }

  function Clamp(v: real, low: real, high: real): real {
    if v < low then low else if v > high then high else v
  }

  function Pos(v: real): real {
    if v > 0.0 then v else 0.0
  }

  // ---------------------------------------------------------------------------------------------
  // The multipliers of lead and sum
  // ---------------------------------------------------------------------------------------------

  /** The multipliers of the lead and of the sum facet. */
  datatype Tilt = Tilt(a: real, b: real)

  /** The virtue and the shadow when the bounds have been met. */
  function BoxP(k: Rules, x: real, w: Tilt): real {
    Clamp(x + w.a - w.b, k.lo, 1.0)
  }

  function BoxN(k: Rules, y: real, w: Tilt): real {
    Clamp(y - w.a - w.b, 0.0, k.up)
  }

  /** By how much the lead is then missed, and the sum passed. */
  function LeadGap(k: Rules, x: real, y: real, w: Tilt): real {
    k.lead - BoxP(k, x, w) + BoxN(k, y, w)
  }

  function SumGap(k: Rules, x: real, y: real, w: Tilt): real {
    BoxP(k, x, w) + BoxN(k, y, w) - k.sum
  }

  function Gaps(k: Rules, x: real, y: real, w: Tilt): real {
    Pos(LeadGap(k, x, y, w)) + Pos(SumGap(k, x, y, w))
  }

  function Next(k: Rules, x: real, y: real, w: Tilt): Tilt {
    Tilt(w.a + Pos(LeadGap(k, x, y, w)) / 2.0, w.b + Pos(SumGap(k, x, y, w)) / 2.0)
  }

  /** A facet that has a multiplier is not satisfied with room: its multiplier will not fall. */
  predicate Rising(k: Rules, x: real, y: real, w: Tilt) {
    && w.a >= 0.0 && w.b >= 0.0
    && (w.a > 0.0 ==> LeadGap(k, x, y, w) >= 0.0) && (w.b > 0.0 ==> SumGap(k, x, y, w) >= 0.0)
  }

  lemma StaysRising(k: Rules, x: real, y: real, w: Tilt)
    requires Usual(k) && Rising(k, x, y, w)
    ensures Rising(k, x, y, Next(k, x, y, w))
  {
  }

  lemma BothGapsShrink(k: Rules, x: real, y: real, w: Tilt)
    requires Usual(k) && Rising(k, x, y, w) && LeadGap(k, x, y, w) > 0.0 && SumGap(k, x, y, w) > 0.0
    ensures Gaps(k, x, y, Next(k, x, y, w)) <= Gaps(k, x, y, w)
  {
  }

  lemma OneGapShrinks(k: Rules, x: real, y: real, w: Tilt)
    requires Usual(k) && Rising(k, x, y, w) && (LeadGap(k, x, y, w) <= 0.0 || SumGap(k, x, y, w) <= 0.0)
    ensures Gaps(k, x, y, Next(k, x, y, w)) <= Gaps(k, x, y, w)
  {
  }

  lemma GapsShrink(k: Rules, x: real, y: real, w: Tilt)
    requires Usual(k) && Rising(k, x, y, w)
    ensures Gaps(k, x, y, Next(k, x, y, w)) <= Gaps(k, x, y, w)
  {
    if LeadGap(k, x, y, w) > 0.0 && SumGap(k, x, y, w) > 0.0 {
      BothGapsShrink(k, x, y, w);
    } else {
      OneGapShrinks(k, x, y, w);
    }
  }

  /** Small gaps are halved: what stands still moves the multipliers by more. */
  lemma GapsHalve(k: Rules, x: real, y: real, w: Tilt)
    requires Usual(k) && Rising(k, x, y, w) && Gaps(k, x, y, w) < 0.02
    ensures Gaps(k, x, y, Next(k, x, y, w)) <= Gaps(k, x, y, w) / 2.0
  {
  }

  /** The multipliers together never exceed the larger distance of the start from the center. */
  lemma TiltIsBounded(k: Rules, x: real, y: real, w: Tilt, m: real)
    requires Usual(k) && Rising(k, x, y, w)
    requires -m <= x - (k.lo + 1.0) / 2.0 <= m && -m <= y - k.up / 2.0 <= m
    ensures w.a + w.b <= m
  {
  }

  /** However much the multipliers still rise, neither coordinate moves by more than the gaps. */
  lemma GapsBoundMoves(k: Rules, x: real, y: real, w: Tilt, r: Tilt)
    requires Usual(k) && Rising(k, x, y, w) && Rising(k, x, y, r) && w.a <= r.a && w.b <= r.b
    ensures -Gaps(k, x, y, w) <= BoxP(k, x, r) - BoxP(k, x, w) <= Gaps(k, x, y, w)
    ensures 0.0 <= BoxN(k, y, w) - BoxN(k, y, r) <= Gaps(k, x, y, w)
  {
  }

  /** The multipliers, with the gaps they leave. */
  datatype Trace = Trace(w: Tilt, leadGap: real, sumGap: real)

  function Measured(k: Rules, x: real, y: real, w: Tilt): Trace {
    Trace(w, LeadGap(k, x, y, w), SumGap(k, x, y, w))
  }

  /** Multipliers and gaps after i sweeps. */
  function TraceAt(k: Rules, x: real, y: real, i: nat): Trace
    decreases i, 0
  {
    if i == 0 then Measured(k, x, y, Tilt(0.0, 0.0)) else TraceNext(k, x, y, i - 1)
  }

  function TraceNext(k: Rules, x: real, y: real, i: nat): Trace
    decreases i, 1
  {
    Measured(k, x, y, Next(k, x, y, TraceAt(k, x, y, i).w))
  }

  function TiltAt(k: Rules, x: real, y: real, i: nat): Tilt {
    TraceAt(k, x, y, i).w
  }

  function GapsAt(k: Rules, x: real, y: real, i: nat): real {
    Pos(TraceAt(k, x, y, i).leadGap) + Pos(TraceAt(k, x, y, i).sumGap)
  }

  lemma TraceIsMeasured(k: Rules, x: real, y: real, i: nat)
    ensures TraceAt(k, x, y, i) == Measured(k, x, y, TiltAt(k, x, y, i))
  {
    if i > 0 {
      assert TraceAt(k, x, y, i) == TraceNext(k, x, y, i - 1);
    }
  }

  lemma TiltMoves(k: Rules, x: real, y: real, i: nat)
    ensures TiltAt(k, x, y, i + 1) == Next(k, x, y, TiltAt(k, x, y, i))
  {
    assert TraceAt(k, x, y, i + 1) == TraceNext(k, x, y, i);
  }

  lemma {:induction false} TiltRises(k: Rules, x: real, y: real, i: nat)
    requires Usual(k)
    ensures Rising(k, x, y, TiltAt(k, x, y, i))
  {
    if i > 0 {
      TiltRises(k, x, y, i - 1);
      TiltMoves(k, x, y, i - 1);
      StaysRising(k, x, y, TiltAt(k, x, y, i - 1));
    }
  }

  lemma NextIsHigher(k: Rules, x: real, y: real, w: Tilt)
    ensures w.a <= Next(k, x, y, w).a && w.b <= Next(k, x, y, w).b
  {
  }

  lemma {:induction false} TiltIsMonotone(k: Rules, x: real, y: real, i: nat, j: nat)
    requires i <= j
    ensures TiltAt(k, x, y, i).a <= TiltAt(k, x, y, j).a && TiltAt(k, x, y, i).b <= TiltAt(k, x, y, j).b
  {
    if i < j {
      TiltIsMonotone(k, x, y, i, j - 1);
      TiltMoves(k, x, y, j - 1);
      NextIsHigher(k, x, y, TiltAt(k, x, y, j - 1));
    }
  }

  /** What one sweep makes of the gaps. */
  lemma GapsMove(k: Rules, x: real, y: real, i: nat)
    requires Usual(k)
    ensures 0.0 <= GapsAt(k, x, y, i + 1) <= GapsAt(k, x, y, i)
    ensures GapsAt(k, x, y, i) < 0.02 ==> GapsAt(k, x, y, i + 1) <= GapsAt(k, x, y, i) / 2.0
    ensures var w, r := TiltAt(k, x, y, i), TiltAt(k, x, y, i + 1);
            2.0 * (r.a + r.b) == 2.0 * (w.a + w.b) + GapsAt(k, x, y, i)
  {
    var w := TiltAt(k, x, y, i);
    TiltMoves(k, x, y, i);
    TraceIsMeasured(k, x, y, i);
    TraceIsMeasured(k, x, y, i + 1);
    TiltRises(k, x, y, i);
    GapsShrink(k, x, y, w);
    if Gaps(k, x, y, w) < 0.02 {
      GapsHalve(k, x, y, w);
    }
  }

  ghost predicate Falling(g: nat -> real) {
    forall i: nat, j: nat :: j == i + 1 ==> 0.0 <= g(j) <= g(i)
  }

  /** Each term is added to the sum so far. */
  ghost predicate Adds(g: nat -> real, sum: nat -> real) {
    sum(0) >= 0.0 && forall i: nat, j: nat :: j == i + 1 ==> sum(j) == sum(i) + g(i)
  }

  /** Terms below 0.02 are halved. */
  ghost predicate Halves(g: nat -> real) {
    forall i: nat, j: nat :: j == i + 1 && g(i) < 0.02 ==> g(j) <= g(i) / 2.0
  }

  lemma {:induction false} FallsFrom(g: nat -> real, i: nat, j: nat)
    requires Falling(g) && i <= j
    ensures g(j) <= g(i)
  {
    if i < j {
      FallsFrom(g, i, j - 1);
    }
  }

  lemma AddOne(c: real, g: real, g': real, sum: real)
    requires c >= 0.0 && c * g <= sum && g' <= g
    ensures (c + 1.0) * g' <= sum + g
  {
    assert c * (g - g') >= 0.0;
    assert (c + 1.0) * g' == c * g' + g';
  }

  /** What falls and adds up to `sum` is after i terms at most sum / i. */
  lemma {:induction false} FallingTerms(g: nat -> real, sum: nat -> real, i: nat, c: real)
    requires Falling(g) && Adds(g, sum) && c == i as real
    ensures c * g(i) <= sum(i)
  {
    if i == 0 {
      assert c * g(i) == 0.0;
    } else {
      FallingTerms(g, sum, i - 1, c - 1.0);
      AddOne(c - 1.0, g(i - 1), g(i), sum(i - 1));
    }
  }

  function GapsSeq(k: Rules, x: real, y: real): nat -> real {
    (i: nat) => GapsAt(k, x, y, i)
  }

  function TiltSeq(k: Rules, x: real, y: real): nat -> real {
    (i: nat) => 2.0 * (TiltAt(k, x, y, i).a + TiltAt(k, x, y, i).b)
  }

  /** The gaps fall, are halved when small, and add up to twice the multipliers. */
  lemma GapsTrace(k: Rules, x: real, y: real)
    requires Usual(k)
    ensures Falling(GapsSeq(k, x, y)) && Halves(GapsSeq(k, x, y)) && Adds(GapsSeq(k, x, y), TiltSeq(k, x, y))
  {
    var g, sum := GapsSeq(k, x, y), TiltSeq(k, x, y);
    forall i: nat, j: nat | j == i + 1
      ensures 0.0 <= g(j) <= g(i) && (g(i) < 0.02 ==> g(j) <= g(i) / 2.0) && sum(j) == sum(i) + g(i)
    {
      GapsMove(k, x, y, i);
    }
    TraceIsMeasured(k, x, y, 0);
  }

  /** Every sweep moves the multipliers by half the gaps, so the gaps after i sweeps are at most 2 / i times
      the multipliers. */
  lemma GapsByCount(k: Rules, x: real, y: real, i: nat, c: real) returns (g: real, sum: real)
    requires Usual(k) && c == i as real
    ensures g == GapsSeq(k, x, y)(i) && sum == TiltSeq(k, x, y)(i) && c * g <= sum
  {
    GapsTrace(k, x, y);
    FallingTerms(GapsSeq(k, x, y), TiltSeq(k, x, y), i, c);
    g, sum := GapsSeq(k, x, y)(i), TiltSeq(k, x, y)(i);
  }

  /** The start lies within m of the center, coordinate by coordinate. */
  predicate Within(k: Rules, x: real, y: real, m: real) {
    -m <= x - (k.lo + 1.0) / 2.0 <= m && -m <= y - k.up / 2.0 <= m
  }

  lemma TiltByDistance(k: Rules, x: real, y: real, i: nat, m: real)
    requires Usual(k) && Within(k, x, y, m)
    ensures TiltSeq(k, x, y)(i) <= 2.0 * m
  {
    TiltRises(k, x, y, i);
    TiltIsBounded(k, x, y, TiltAt(k, x, y, i), m);
  }

  lemma GapsByDistance(k: Rules, x: real, y: real, i: nat, c: real, m: real) returns (g: real)
    requires Usual(k) && c == i as real && Within(k, x, y, m)
    ensures g == GapsSeq(k, x, y)(i) && c * g <= 2.0 * m
  {
    var sum;
    g, sum := GapsByCount(k, x, y, i, c);
    TiltByDistance(k, x, y, i, m);
  }

  /** 0.02, halved t times. */
  function Halved(t: nat): real {
    if t == 0 then 0.02 else Halved(t - 1) / 2.0
  }

  lemma {:induction false} HalvingTerms(g: nat -> real, i: nat, t: nat)
    requires g(i) < 0.02 && Halves(g)
    ensures g(i + t) <= Halved(t) <= 0.02 && g(i + t) < 0.02
  {
    if t > 0 {
      HalvingTerms(g, i, t - 1);
    }
  }

  lemma GapsVanish(k: Rules, x: real, y: real, i: nat, t: nat)
    requires Usual(k) && GapsSeq(k, x, y)(i) < 0.02
    ensures GapsSeq(k, x, y)(i + t) <= Halved(t)
  {
    GapsTrace(k, x, y);
    HalvingTerms(GapsSeq(k, x, y), i, t);
  }

  // ---------------------------------------------------------------------------------------------
  // The six facets
  // ---------------------------------------------------------------------------------------------

  /** Virtue and shadow, with the multipliers of their upper and lower bounds, of the lead and of the sum. */
  datatype Duo = Duo(p: real, n: real, lu: real, ll: real, mu: real, ml: real, a: real, b: real)

  function Start(x: real, y: real): Duo {
    Duo(x, y, 0.0, 0.0, 0.0, 0.0, 0.0, 0.0)
  }

  /** One facet of the six. */
  function Step(k: Rules, s: Duo, g: nat): Duo {
    if g == 0 then UpperStep(k, s)
    else if g == 1 then LowerStep(k, s)
    else if g == 2 then ShadowUpperStep(k, s)
    else if g == 3 then ShadowLowerStep(k, s)
    else if g == 4 then LeadStep(k, s)
    else SumStep(k, s)
  }

  function UpperStep(k: Rules, s: Duo): Duo {
    var m := Pos(s.p - 1.0 + s.lu);
    s.(p := s.p + (s.lu - m), lu := m)
  }

  function LowerStep(k: Rules, s: Duo): Duo {
    var m := Pos(k.lo - s.p + s.ll);
    s.(p := s.p - (s.ll - m), ll := m)
  }

  function ShadowUpperStep(k: Rules, s: Duo): Duo {
    var m := Pos(s.n - k.up + s.mu);
    s.(n := s.n + (s.mu - m), mu := m)
  }

  function ShadowLowerStep(k: Rules, s: Duo): Duo {
    var m := Pos(-s.n + s.ml);
    s.(n := s.n - (s.ml - m), ml := m)
  }

  function LeadStep(k: Rules, s: Duo): Duo {
    var m := Pos((k.lead - s.p + s.n + 2.0 * s.a) / 2.0);
    s.(p := s.p - (s.a - m), n := s.n + (s.a - m), a := m)
  }

  function SumStep(k: Rules, s: Duo): Duo {
    var m := Pos((s.p + s.n - k.sum + 2.0 * s.b) / 2.0);
    s.(p := s.p + (s.b - m), n := s.n + (s.b - m), b := m)
  }

  /** The first g of the six facets. */
  function To(k: Rules, s: Duo, g: nat): Duo {
    if g == 0 then s else Step(k, To(k, s, g - 1), g - 1)
  }

  /** A state between sweeps that started from x, y: the corrections add up, and no two opposite bounds
      both have one. */
  predicate Follows(k: Rules, x: real, y: real, s: Duo) {
    && s.lu >= 0.0 && s.ll >= 0.0 && s.mu >= 0.0 && s.ml >= 0.0
    && s.p + s.lu - s.ll == x + s.a - s.b && s.n + s.mu - s.ml == y - s.a - s.b
    && (s.lu == 0.0 || s.ll == 0.0) && (s.mu == 0.0 || s.ml == 0.0)
    && (s.ll > 0.0 ==> s.p <= 1.0) && (s.ml > 0.0 ==> s.n <= k.up)
  }

  /** The same between the bounds and the lead: the bounds are met. */
  predicate Boxed(k: Rules, x: real, y: real, s: Duo) {
    && Follows(k, x, y, s)
    && s.p == BoxP(k, x, Tilt(s.a, s.b)) && s.n == BoxN(k, y, Tilt(s.a, s.b))
    && (s.ll > 0.0 ==> s.p == k.lo) && (s.ml > 0.0 ==> s.n == 0.0)
  }

  lemma VirtueStep(k: Rules, x: real, y: real, s: Duo)
    requires Usual(k) && Follows(k, x, y, s)
    ensures var r := LowerStep(k, UpperStep(k, s));
            && r == s.(p := r.p, lu := r.lu, ll := r.ll) && r.p == BoxP(k, x, Tilt(s.a, s.b))
            && r.lu >= 0.0 && r.ll >= 0.0 && r.p + r.lu - r.ll == x + s.a - s.b
            && (r.lu == 0.0 || r.ll == 0.0) && (r.ll > 0.0 ==> r.p == k.lo)
  {
  }

  lemma ShadowStep(k: Rules, x: real, y: real, s: Duo)
    requires Usual(k) && Follows(k, x, y, s)
    ensures var r := ShadowLowerStep(k, ShadowUpperStep(k, s));
            && r == s.(n := r.n, mu := r.mu, ml := r.ml) && r.n == BoxN(k, y, Tilt(s.a, s.b))
            && r.mu >= 0.0 && r.ml >= 0.0 && r.n + r.mu - r.ml == y - s.a - s.b
            && (r.mu == 0.0 || r.ml == 0.0) && (r.ml > 0.0 ==> r.n == 0.0)
  {
  }

  lemma BoxSteps(k: Rules, x: real, y: real, s: Duo) returns (r: Duo)
    requires Usual(k) && Follows(k, x, y, s)
    ensures r == ShadowLowerStep(k, ShadowUpperStep(k, LowerStep(k, UpperStep(k, s))))
    ensures Boxed(k, x, y, r) && r.a == s.a && r.b == s.b
  {
    var t := LowerStep(k, UpperStep(k, s));
    VirtueStep(k, x, y, s);
    ShadowStep(k, x, y, t);
    r := ShadowLowerStep(k, ShadowUpperStep(k, t));
  }

  lemma RisenBy(a: real, gap: real)
    requires a >= 0.0 && (a > 0.0 ==> gap >= 0.0)
    ensures Pos((gap + 2.0 * a) / 2.0) == a + Pos(gap) / 2.0
  {
  }

  /** The lead and the sum facet move both coordinates by half their gaps. */
  lemma TiltSteps(k: Rules, x: real, y: real, s: Duo) returns (r: Duo)
    requires Usual(k) && Boxed(k, x, y, s) && Rising(k, x, y, Tilt(s.a, s.b))
    ensures r == SumStep(k, LeadStep(k, s)) && r == s.(p := r.p, n := r.n, a := r.a, b := r.b)
    ensures var w := Tilt(s.a, s.b);
            && Tilt(r.a, r.b) == Next(k, x, y, w)
            && r.p == s.p + (Pos(LeadGap(k, x, y, w)) - Pos(SumGap(k, x, y, w))) / 2.0
            && r.n == s.n - Gaps(k, x, y, w) / 2.0
  {
    var w := Tilt(s.a, s.b);
    var t := LeadStep(k, s);
    RisenBy(s.a, LeadGap(k, x, y, w));
    assert t.p + t.n == s.p + s.n;
    RisenBy(s.b, SumGap(k, x, y, w));
    r := SumStep(k, t);
  }

  lemma FollowsAgain(k: Rules, x: real, y: real, s: Duo, r: Duo)
    requires Usual(k) && Boxed(k, x, y, s) && Rising(k, x, y, Tilt(s.a, s.b)) && r == s.(p := r.p, n := r.n, a := r.a, b := r.b)
    requires var w := Tilt(s.a, s.b);
             && Tilt(r.a, r.b) == Next(k, x, y, w)
             && r.p == s.p + (Pos(LeadGap(k, x, y, w)) - Pos(SumGap(k, x, y, w))) / 2.0
             && r.n == s.n - Gaps(k, x, y, w) / 2.0
    ensures Follows(k, x, y, r)
  {
  }

  /** After a sweep: where the multipliers and the coordinates are. */
  predicate SweptFrom(k: Rules, x: real, y: real, w: Tilt, r: Duo) {
    && Tilt(r.a, r.b) == Next(k, x, y, w)
    && r.p == BoxP(k, x, w) + (Pos(LeadGap(k, x, y, w)) - Pos(SumGap(k, x, y, w))) / 2.0
    && r.n == BoxN(k, y, w) - Gaps(k, x, y, w) / 2.0
  }

  lemma SixSteps(k: Rules, s: Duo)
    ensures To(k, s, 6)
         == SumStep(k, LeadStep(k, ShadowLowerStep(k, ShadowUpperStep(k, LowerStep(k, UpperStep(k, s))))))
  {
    assert To(k, s, 1) == UpperStep(k, s);
    assert To(k, s, 2) == LowerStep(k, To(k, s, 1));
    assert To(k, s, 3) == ShadowUpperStep(k, To(k, s, 2));
    assert To(k, s, 4) == ShadowLowerStep(k, To(k, s, 3));
    assert To(k, s, 5) == LeadStep(k, To(k, s, 4));
  }

  lemma SweepIsNext(k: Rules, x: real, y: real, s: Duo)
    requires Usual(k) && Follows(k, x, y, s) && Rising(k, x, y, Tilt(s.a, s.b))
    ensures Follows(k, x, y, To(k, s, 6)) && SweptFrom(k, x, y, Tilt(s.a, s.b), To(k, s, 6))
  {
    SixSteps(k, s);
    var t := BoxSteps(k, x, y, s);
    var r := TiltSteps(k, x, y, t);
    FollowsAgain(k, x, y, t, r);
  }

  /** i whole sweeps over the six facets. */
  function Swept(k: Rules, x: real, y: real, i: nat): Duo
    decreases i, 0
  {
    if i == 0 then Start(x, y) else SweptNext(k, x, y, i - 1)
  }

  function SweptNext(k: Rules, x: real, y: real, i: nat): Duo
    decreases i, 1
  {
    To(k, Swept(k, x, y, i), 6)
  }

  lemma SweptByFacets(k: Rules, x: real, y: real, i: nat, g: nat)
    requires g == 6
    ensures Swept(k, x, y, i + 1) == To(k, Swept(k, x, y, i), g)
  {
    assert Swept(k, x, y, i + 1) == SweptNext(k, x, y, i);
  }

  /** The sweeps follow the multipliers of lead and sum. */
  lemma {:induction false} SweptFollows(k: Rules, x: real, y: real, i: nat)
    requires Usual(k)
    ensures Follows(k, x, y, Swept(k, x, y, i))
    ensures Tilt(Swept(k, x, y, i).a, Swept(k, x, y, i).b) == TiltAt(k, x, y, i)
    ensures i > 0 ==> SweptFrom(k, x, y, TiltAt(k, x, y, i - 1), Swept(k, x, y, i))
  {
    if i > 0 {
      SweptFollows(k, x, y, i - 1);
      TiltRises(k, x, y, i - 1);
      TiltMoves(k, x, y, i - 1);
      SweptMoves(k, x, y, i - 1, TiltAt(k, x, y, i - 1));
    }
  }

  lemma SweptMoves(k: Rules, x: real, y: real, i: nat, w: Tilt)
    requires Usual(k) && Follows(k, x, y, Swept(k, x, y, i)) && Rising(k, x, y, w)
    requires w == Tilt(Swept(k, x, y, i).a, Swept(k, x, y, i).b)
    ensures var r := Swept(k, x, y, i + 1);
            Follows(k, x, y, r) && SweptFrom(k, x, y, w, r) && Tilt(r.a, r.b) == Next(k, x, y, w)
  {
    assert Swept(k, x, y, i + 1) == SweptNext(k, x, y, i);
    SweepIsNext(k, x, y, Swept(k, x, y, i));
  }

  lemma SweptNearBox(k: Rules, x: real, y: real, i: nat)
    requires Usual(k)
    ensures var r, w, g := Swept(k, x, y, i + 1), TiltAt(k, x, y, i), GapsAt(k, x, y, i);
            -g / 2.0 <= r.p - BoxP(k, x, w) <= g / 2.0 && -g / 2.0 <= r.n - BoxN(k, y, w) <= 0.0
  {
    SweptFollows(k, x, y, i + 1);
    TraceIsMeasured(k, x, y, i);
  }

  /** From sweep i + 1 on neither coordinate moves by more than twice the gaps after i sweeps. */
  lemma SweptStaysNear(k: Rules, x: real, y: real, i: nat, j: nat, g: real)
    requires Usual(k) && i <= j && g == GapsSeq(k, x, y)(i)
    ensures -2.0 * g <= Swept(k, x, y, j + 1).p - Swept(k, x, y, i + 1).p <= 2.0 * g
    ensures -2.0 * g <= Swept(k, x, y, j + 1).n - Swept(k, x, y, i + 1).n <= 2.0 * g
  {
    var bp, bn, bp', bn' := BoxesBetween(k, x, y, i, j, g);
    SweptNearBox(k, x, y, i);
    SweptNearBox(k, x, y, j);
    GapsTrace(k, x, y);
    FallsFrom(GapsSeq(k, x, y), i, j);
    assert GapsSeq(k, x, y)(j) == GapsAt(k, x, y, j);
  }

  lemma BoxesBetween(k: Rules, x: real, y: real, i: nat, j: nat, g: real)
    returns (bp: real, bn: real, bp': real, bn': real)
    requires Usual(k) && i <= j && g == GapsSeq(k, x, y)(i)
    ensures bp == BoxP(k, x, TiltAt(k, x, y, i)) && bn == BoxN(k, y, TiltAt(k, x, y, i))
    ensures bp' == BoxP(k, x, TiltAt(k, x, y, j)) && bn' == BoxN(k, y, TiltAt(k, x, y, j))
    ensures -g <= bp' - bp <= g && -g <= bn' - bn <= 0.0
  {
    TiltRises(k, x, y, i);
    TiltRises(k, x, y, j);
    TiltIsMonotone(k, x, y, i, j);
    TraceIsMeasured(k, x, y, i);
    GapsBoundMoves(k, x, y, TiltAt(k, x, y, i), TiltAt(k, x, y, j));
    bp, bn := BoxP(k, x, TiltAt(k, x, y, i)), BoxN(k, y, TiltAt(k, x, y, i));
    bp', bn' := BoxP(k, x, TiltAt(k, x, y, j)), BoxN(k, y, TiltAt(k, x, y, j));
  }
}
