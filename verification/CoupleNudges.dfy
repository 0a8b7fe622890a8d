/** The inward nudges of one virtue and its shadow: forty-one passes bring any point inside. */
module CoupleNudges {
  import opened Couple

  /** A nudge goes past its facet by this much. */
  const PAST: real := 0.0000000000001

  datatype Spot = Spot(p: real, n: real)

  predicate Keeps(k: Rules, s: Spot) {
    k.lo <= s.p <= 1.0 && 0.0 <= s.n <= k.up && s.p - s.n >= k.lead && s.p + s.n <= k.sum
  }

  /** One facet of the six nudges the point when the point violates it. */
  function Nudge(k: Rules, s: Spot, g: nat): Spot {
    if g == 0 then (if s.p > 1.0 then s.(p := 1.0 - PAST) else s)
    else if g == 1 then (if s.p < k.lo then s.(p := k.lo + PAST) else s)
    else if g == 2 then (if s.n > k.up then s.(n := k.up - PAST) else s)
    else if g == 3 then (if s.n < 0.0 then s.(n := PAST) else s)
    else if g == 4 then
      var step := (k.lead - s.p + s.n) / 2.0 + PAST;
      if k.lead - s.p + s.n > 0.0 then Spot(s.p + step, s.n - step) else s
    else
      var step := (s.p + s.n - k.sum) / 2.0 + PAST;
      if s.p + s.n - k.sum > 0.0 then Spot(s.p - step, s.n - step) else s
  }

  /** The first g facets of a pass. */
  function NudgedBy(k: Rules, s: Spot, g: nat): Spot {
    if g == 0 then s else Nudge(k, NudgedBy(k, s, g - 1), g - 1)
  }

  /** Everything is kept but the shadow's lower bound, which is missed by `gap` at most, by points next to the
      line of the lead. */
  predicate Settling(k: Rules, s: Spot, gap: real) {
    && k.lo <= s.p <= 1.0 && -gap <= s.n <= k.up && s.p - s.n >= k.lead && s.p + s.n <= k.sum
    && (s.n < 0.0 ==> s.p - s.n == k.lead + 2.0 * PAST)
  }

  lemma Boxed(k: Rules, s: Spot) returns (t: Spot)
    requires Usual(k)
    ensures t == NudgedBy(k, s, 4) && k.lo <= t.p <= 1.0 && 0.0 <= t.n <= k.up
    ensures s.n <= k.up && k.lo <= s.p <= 1.0 ==> t == Spot(s.p, if s.n < 0.0 then PAST else s.n)
  {
    var a := Nudge(k, s, 0);
    var b := Nudge(k, a, 1);
    var c := Nudge(k, b, 2);
    t := Nudge(k, c, 3);
    assert NudgedBy(k, s, 1) == a;
    assert NudgedBy(k, s, 2) == b;
    assert NudgedBy(k, s, 3) == c;
  }

  lemma LastTwo(k: Rules, s: Spot)
    ensures NudgedBy(k, s, 6) == Nudge(k, Nudge(k, NudgedBy(k, s, 4), 4), 5)
  {
    assert NudgedBy(k, s, 5) == Nudge(k, NudgedBy(k, s, 4), 4);
  }

  lemma FirstPass(k: Rules, s: Spot)
    requires Usual(k)
    ensures Settling(k, NudgedBy(k, s, 6), 0.05)
  {
    var t := Boxed(k, s);
    LastTwo(k, s);
  }

  lemma NextPass(k: Rules, s: Spot, gap: real)
    requires Usual(k) && Settling(k, s, gap) && gap <= 0.05
    ensures Settling(k, NudgedBy(k, s, 6), gap / 2.0)
    ensures gap <= PAST ==> Keeps(k, NudgedBy(k, s, 6))
  {
    var t := Boxed(k, s);
    LastTwo(k, s);
  }

  lemma KeptIsNotNudged(k: Rules, s: Spot, g: nat)
    requires Keeps(k, s) && g < 6
    ensures Nudge(k, s, g) == s
  {
  }

  /** A point that keeps the rules is not nudged. */
  lemma {:induction false} KeptStays(k: Rules, s: Spot, g: nat)
    requires Keeps(k, s) && g <= 6
    ensures NudgedBy(k, s, g) == s
  {
    if g > 0 {
      KeptStays(k, s, g - 1);
      KeptIsNotNudged(k, s, g - 1);
    }
  }

  /** The point after t passes over the six facets. */
  function SpotAt(k: Rules, s: Spot, t: nat): Spot
    decreases t, 0
  {
    if t == 0 then s else SpotNext(k, s, t - 1)
  }

  function SpotNext(k: Rules, s: Spot, t: nat): Spot
    decreases t, 1
  {
    NudgedBy(k, SpotAt(k, s, t), 6)
  }

  lemma SpotByFacets(k: Rules, s: Spot, t: nat, g: nat)
    requires g == 6
    ensures SpotAt(k, s, t + 1) == NudgedBy(k, SpotAt(k, s, t), g)
  {
    assert SpotAt(k, s, t + 1) == SpotNext(k, s, t);
  }

  /** 0.05, halved t times. */
  function GapAfter(t: nat): real {
    if t == 0 then 0.05 else GapAfter(t - 1) / 2.0
  }

  lemma TenHalvings(t: nat)
    ensures GapAfter(t + 10) == GapAfter(t) / 1024.0
  {
    assert GapAfter(t + 2) == GapAfter(t + 1) / 2.0 == GapAfter(t) / 4.0;
    assert GapAfter(t + 4) == GapAfter(t + 3) / 2.0 == GapAfter(t + 2) / 4.0;
    assert GapAfter(t + 6) == GapAfter(t + 5) / 2.0 == GapAfter(t + 4) / 4.0;
    assert GapAfter(t + 8) == GapAfter(t + 7) / 2.0 == GapAfter(t + 6) / 4.0;
    assert GapAfter(t + 10) == GapAfter(t + 9) / 2.0 == GapAfter(t + 8) / 4.0;
  }

  lemma FortyHalvings(t: nat)
    requires t == 0
    ensures GapAfter(t + 40) <= PAST
  {
    TenHalvings(t);
    TenHalvings(t + 10);
    TenHalvings(t + 20);
    TenHalvings(t + 30);
  }

  lemma {:induction false} SettlesFurther(k: Rules, s: Spot, t: nat)
    requires Usual(k)
    ensures Settling(k, SpotAt(k, s, t + 1), GapAfter(t)) && GapAfter(t) <= 0.05
  {
    if t == 0 {
      SpotByFacets(k, s, 0, 6);
      FirstPass(k, SpotAt(k, s, 0));
    } else {
      SettlesFurther(k, s, t - 1);
      SpotByFacets(k, s, t, 6);
      NextPass(k, SpotAt(k, s, t), GapAfter(t - 1));
    }
  }

  /** Wherever a point is, forty-two passes bring it inside, and it stays there. */
  lemma {:induction false} PassesKeep(k: Rules, s: Spot, t: nat)
    requires Usual(k) && t >= 42
    ensures Keeps(k, SpotAt(k, s, t))
  {
    SpotByFacets(k, s, t - 1, 6);
    if t == 42 {
      var zero := 0;
      SettlesFurther(k, s, zero + 40);
      FortyHalvings(zero);
      NextPass(k, SpotAt(k, s, t - 1), GapAfter(zero + 40));
    } else {
      PassesKeep(k, s, t - 1);
      KeptStays(k, SpotAt(k, s, t - 1), 6);
    }
  }
}
