/** A season's lattice taken apart: the facets of one virtue and its shadow never touch another's coordinates,
    so a sweep or a nudging pass over the lattice is one over each couple. */
module Apart {
  import opened Vectors
  import opened Projection
  import opened Lattice
  import opened Landing
  import opened CoupleNudges
  import Couple

  const COUPLES: nat := 7

  function RulesOf(b: Bounds, j: nat): Couple.Rules
    requires j < COUPLES
  {
    Couple.Rules(Lower(b)[2 * j], Upper(b)[2 * j + 1], Couplings()[j].lead, Couplings()[j].sum)
  }

  /** In every season all seven couples have usual rules. */
  lemma SeasonIsUsual(season: Season, j: nat)
    requires j < COUPLES
    ensures Couple.Usual(RulesOf(SeasonalBounds(season), j))
  {
    if season == Spring || season == Summer {
      EarlySeasonIsUsual(season, j);
    } else {
      LateSeasonIsUsual(season, j);
    }
  }

  lemma EarlySeasonIsUsual(season: Season, j: nat)
    requires j < COUPLES && (season == Spring || season == Summer)
    ensures Couple.Usual(RulesOf(SeasonalBounds(season), j))
  {
  }

  lemma LateSeasonIsUsual(season: Season, j: nat)
    requires j < COUPLES && (season == Fall || season == Winter)
    ensures Couple.Usual(RulesOf(SeasonalBounds(season), j))
  {
  }

  /** Where facet g of couple j stands in the lattice. */
  function IndexOf(j: nat, g: nat): nat {
    if g < 4 then 4 * j + g else 24 + 2 * j + g
  }

  function CoupleAt(f: nat): nat {
    if f < 28 then f / 4 else (f - 28) / 2
  }

  function PlaceAt(f: nat): nat {
    if f < 28 then f % 4 else 4 + f % 2
  }

  lemma EveryFacetHasAPlace(f: nat)
    requires f < 42
    ensures CoupleAt(f) < COUPLES && PlaceAt(f) < 6 && IndexOf(CoupleAt(f), PlaceAt(f)) == f
  {
  }

  // ---------------------------------------------------------------------------------------------
  // What the facets say of one couple
  // ---------------------------------------------------------------------------------------------

  /** The facet says v y_i <= t. */
  ghost predicate Bounds1(facet: Facet, i: nat, v: real, t: real) {
    i < DIMENSIONS && facet.normal == Unit(DIMENSIONS, i, v) && facet.threshold == t
  }

  /** The facet says u y_p + v y_q <= t. */
  ghost predicate Bounds2(facet: Facet, p: nat, u: real, q: nat, v: real, t: real) {
    p < DIMENSIONS && q < DIMENSIONS && p != q && facet.normal == Pair(DIMENSIONS, p, u, q, v) && facet.threshold == t
  }

  lemma VirtueFacets(b: Bounds, j: nat)
    requires j < COUPLES
    ensures |LatticeOf(b)| == 42
    ensures Bounds1(LatticeOf(b)[4 * j], 2 * j, 1.0, 1.0)
    ensures Bounds1(LatticeOf(b)[4 * j + 1], 2 * j, -1.0, -RulesOf(b, j).lo)
  {
    PairAt(b, j);
    BoundsAt(Lower(b), Upper(b), Couplings(), 2 * j);
  }

  lemma ShadowFacets(b: Bounds, j: nat)
    requires j < COUPLES
    ensures |LatticeOf(b)| == 42
    ensures Bounds1(LatticeOf(b)[4 * j + 2], 2 * j + 1, 1.0, RulesOf(b, j).up)
    ensures Bounds1(LatticeOf(b)[4 * j + 3], 2 * j + 1, -1.0, 0.0)
  {
    PairAt(b, j);
    BoundsAt(Lower(b), Upper(b), Couplings(), 2 * j + 1);
  }

  lemma TiltFacets(b: Bounds, j: nat)
    requires j < COUPLES
    ensures |LatticeOf(b)| == 42
    ensures Bounds2(LatticeOf(b)[28 + 2 * j], 2 * j, -1.0, 2 * j + 1, 1.0, -RulesOf(b, j).lead)
    ensures Bounds2(LatticeOf(b)[29 + 2 * j], 2 * j, 1.0, 2 * j + 1, 1.0, RulesOf(b, j).sum)
  {
    PairAt(b, j);
    PairFacetsAt(Lower(b), Upper(b), Couplings(), j);
  }

  /** The six facets of one couple, at their places. */
  ghost predicate CoupleFacets(fs: seq<Facet>, k: Couple.Rules, j: nat)
    requires |fs| == 42 && j < COUPLES
  {
    && Bounds1(fs[4 * j], 2 * j, 1.0, 1.0) && Bounds1(fs[4 * j + 1], 2 * j, -1.0, -k.lo)
    && Bounds1(fs[4 * j + 2], 2 * j + 1, 1.0, k.up) && Bounds1(fs[4 * j + 3], 2 * j + 1, -1.0, 0.0)
    && Bounds2(fs[28 + 2 * j], 2 * j, -1.0, 2 * j + 1, 1.0, -k.lead)
    && Bounds2(fs[29 + 2 * j], 2 * j, 1.0, 2 * j + 1, 1.0, k.sum)
  }

  /** The lattice is made of the facets of seven couples. */
  ghost predicate MadeOf(fs: seq<Facet>, ks: seq<Couple.Rules>) {
    && |fs| == 42 && |ks| == COUPLES && WellFormed(fs, DIMENSIONS)
    && forall j {:trigger CoupleFacets(fs, ks[j], j)} :: 0 <= j < COUPLES ==> CoupleFacets(fs, ks[j], j)
  }

  function AllRules(b: Bounds): seq<Couple.Rules> {
    seq(COUPLES, j requires 0 <= j < COUPLES => RulesOf(b, j))
  }

  lemma LatticeIsMade(b: Bounds)
    ensures MadeOf(LatticeOf(b), AllRules(b))
  {
    FacetsWellFormed(Lower(b), Upper(b), Couplings());
    forall j | 0 <= j < COUPLES ensures CoupleFacets(LatticeOf(b), AllRules(b)[j], j) {
      VirtueFacets(b, j);
      ShadowFacets(b, j);
      TiltFacets(b, j);
    }
  }

  lemma Excess1(facet: Facet, i: nat, v: real, t: real, y: Vec)
    requires Bounds1(facet, i, v, t) && |y| == DIMENSIONS && (v == 1.0 || v == -1.0)
    ensures Dot(facet.normal, facet.normal) == 1.0
    ensures Excess(facet, y) == (if v == 1.0 then y[i] else -y[i]) - t
  {
    NormOfUnit(DIMENSIONS, i, v);
    DotUnit(DIMENSIONS, i, v, y, DIMENSIONS, if v == 1.0 then y[i] else -y[i]);
  }

  lemma Excess2(facet: Facet, p: nat, u: real, q: nat, v: real, t: real, y: Vec)
    requires Bounds2(facet, p, u, q, v, t) && |y| == DIMENSIONS && (u == 1.0 || u == -1.0) && v == 1.0
    ensures Dot(facet.normal, facet.normal) == 2.0
    ensures Excess(facet, y) == (if u == 1.0 then y[p] else -y[p]) + y[q] - t
  {
    NormOfPair(DIMENSIONS, p, u, q, v);
    DotPair(DIMENSIONS, p, u, q, v, y, DIMENSIONS, if u == 1.0 then y[p] else -y[p], y[q]);
  }

  /** Moving along the normal of such a facet moves these coordinates alone. */
  lemma Move1(facet: Facet, i: nat, v: real, t: real, y: Vec, d: real)
    requires Bounds1(facet, i, v, t) && |y| == DIMENSIONS && (v == 1.0 || v == -1.0)
    ensures AddScaled(y, d, facet.normal) == y[i := if v == 1.0 then y[i] + d else y[i] - d]
  {
    forall k | 0 <= k < DIMENSIONS
      ensures AddScaled(y, d, facet.normal)[k] == y[i := if v == 1.0 then y[i] + d else y[i] - d][k]
    {
      MoveOne(y[k], d, facet.normal[k]);
    }
  }

  lemma Move2(facet: Facet, p: nat, u: real, q: nat, v: real, t: real, y: Vec, d: real)
    requires Bounds2(facet, p, u, q, v, t) && |y| == DIMENSIONS && (u == 1.0 || u == -1.0) && v == 1.0
    ensures AddScaled(y, d, facet.normal) == y[p := if u == 1.0 then y[p] + d else y[p] - d][q := y[q] + d]
  {
    forall k | 0 <= k < DIMENSIONS
      ensures AddScaled(y, d, facet.normal)[k] == y[p := if u == 1.0 then y[p] + d else y[p] - d][q := y[q] + d][k]
    {
      MoveOne(y[k], d, facet.normal[k]);
    }
  }

  lemma MoveOne(y: real, d: real, a: real)
    requires a in {0.0, 1.0, -1.0}
    ensures y + d * a == if a == 0.0 then y else if a == 1.0 then y + d else y - d
  {
  }

  // ---------------------------------------------------------------------------------------------
  // Sweeps
  // ---------------------------------------------------------------------------------------------

  /** Couple j of a state of the lattice's sweeps. */
  function View(s: State, j: nat): Couple.Duo
    requires j < COUPLES && |s.y| == DIMENSIONS && |s.lambda| == 42
  {
    Couple.Duo(s.y[2 * j], s.y[2 * j + 1], s.lambda[4 * j], s.lambda[4 * j + 1], s.lambda[4 * j + 2], s.lambda[4 * j + 3],
               s.lambda[28 + 2 * j], s.lambda[29 + 2 * j])
  }

  lemma NextMultiplier(facet: Facet, y: Vec, m: real, e: real, norm: real)
    requires |facet.normal| == |y| && e == Excess(facet, y) && norm == Dot(facet.normal, facet.normal) > 0.0
    ensures NextLambda(facet, y, m) == Couple.Pos(if norm == 1.0 then e + m else if norm == 2.0 then (e + 2.0 * m) / 2.0 else
                                                  (e + m * norm) / norm)
  {
    ExcessAlong(facet, y, m, e, norm);
    PositiveQuotient(e + m * norm, norm);
  }

  lemma PositiveQuotient(v: real, norm: real)
    requires norm > 0.0
    ensures v > 0.0 <==> v / norm > 0.0
  {
    var q := v / norm;
    assert q * norm == v;
    if v > 0.0 && q <= 0.0 {
      ProductNonneg(-q, norm, -q * norm);
    }
    if q > 0.0 {
      ProductPositive(q, norm, v);
    }
  }

  /** A step at a bound of one coordinate. */
  lemma Step1(fs: seq<Facet>, s: State, f: nat, i: nat, v: real, t: real)
    requires Shaped(fs, s) && f < |fs| && |s.y| == DIMENSIONS && Bounds1(fs[f], i, v, t) && (v == 1.0 || v == -1.0)
    ensures var m := Couple.Pos((if v == 1.0 then s.y[i] else -s.y[i]) - t + s.lambda[f]);
            var d := s.lambda[f] - m;
            && Step(fs, s, f).lambda == s.lambda[f := m]
            && Step(fs, s, f).y == s.y[i := if v == 1.0 then s.y[i] + d else s.y[i] - d]
  {
    Excess1(fs[f], i, v, t, s.y);
    NextMultiplier(fs[f], s.y, s.lambda[f], Excess(fs[f], s.y), 1.0);
    StepShape(fs, s, f);
    Move1(fs[f], i, v, t, s.y, s.lambda[f] - NextLambda(fs[f], s.y, s.lambda[f]));
  }

  /** A step at a facet of two coordinates. */
  lemma Step2(fs: seq<Facet>, s: State, f: nat, p: nat, u: real, q: nat, v: real, t: real)
    requires Shaped(fs, s) && f < |fs| && |s.y| == DIMENSIONS && Bounds2(fs[f], p, u, q, v, t)
    requires (u == 1.0 || u == -1.0) && v == 1.0
    ensures var e := (if u == 1.0 then s.y[p] else -s.y[p]) + s.y[q] - t;
            var m := Couple.Pos((e + 2.0 * s.lambda[f]) / 2.0);
            var d := s.lambda[f] - m;
            && Step(fs, s, f).lambda == s.lambda[f := m]
            && Step(fs, s, f).y == s.y[p := if u == 1.0 then s.y[p] + d else s.y[p] - d][q := s.y[q] + d]
  {
    Excess2(fs[f], p, u, q, v, t, s.y);
    NextMultiplier(fs[f], s.y, s.lambda[f], Excess(fs[f], s.y), 2.0);
    StepShape(fs, s, f);
    Move2(fs[f], p, u, q, v, t, s.y, s.lambda[f] - NextLambda(fs[f], s.y, s.lambda[f]));
  }

  /** Only multiplier f and the two coordinates of couple i are changed. */
  ghost predicate OnlyTouches(s: State, r: State, i: nat, f: nat)
    requires i < COUPLES && f < 42
  {
    && |s.y| == |r.y| == DIMENSIONS && |s.lambda| == |r.lambda| == 42
    && r.lambda == s.lambda[f := r.lambda[f]]
    && r.y == s.y[2 * i := r.y[2 * i]][2 * i + 1 := r.y[2 * i + 1]]
  }

  /** Nothing of couple j is at another couple's places. */
  lemma OthersStay(s: State, r: State, i: nat, f: nat, j: nat)
    requires i < COUPLES && j < COUPLES && i != j && f < 42 && CoupleAt(f) == i && OnlyTouches(s, r, i, f)
    ensures View(r, j) == View(s, j)
  {
  }

  lemma UpperApart(fs: seq<Facet>, s: State, k: Couple.Rules, i: nat, f: nat) returns (r: State)
    requires |fs| == 42 && Shaped(fs, s) && |s.y| == DIMENSIONS && i < COUPLES && f == 4 * i && Bounds1(fs[f], 2 * i, 1.0, 1.0)
    ensures r == Step(fs, s, f) && View(r, i) == Couple.Step(k, View(s, i), 0)
    ensures OnlyTouches(s, r, i, f)
  {
    Step1(fs, s, f, 2 * i, 1.0, 1.0);
    r := Step(fs, s, f);
  }

  lemma LowerApart(fs: seq<Facet>, s: State, k: Couple.Rules, i: nat, f: nat) returns (r: State)
    requires |fs| == 42 && Shaped(fs, s) && |s.y| == DIMENSIONS && i < COUPLES && f == 4 * i + 1 && Bounds1(fs[f], 2 * i, -1.0, -k.lo)
    ensures r == Step(fs, s, f) && View(r, i) == Couple.Step(k, View(s, i), 1)
    ensures OnlyTouches(s, r, i, f)
  {
    Step1(fs, s, f, 2 * i, -1.0, -k.lo);
    r := Step(fs, s, f);
  }

  lemma ShadowUpperApart(fs: seq<Facet>, s: State, k: Couple.Rules, i: nat, f: nat) returns (r: State)
    requires |fs| == 42 && Shaped(fs, s) && |s.y| == DIMENSIONS && i < COUPLES && f == 4 * i + 2 && Bounds1(fs[f], 2 * i + 1, 1.0, k.up)
    ensures r == Step(fs, s, f) && View(r, i) == Couple.Step(k, View(s, i), 2)
    ensures OnlyTouches(s, r, i, f)
  {
    Step1(fs, s, f, 2 * i + 1, 1.0, k.up);
    r := Step(fs, s, f);
  }

  lemma ShadowLowerApart(fs: seq<Facet>, s: State, k: Couple.Rules, i: nat, f: nat) returns (r: State)
    requires |fs| == 42 && Shaped(fs, s) && |s.y| == DIMENSIONS && i < COUPLES && f == 4 * i + 3 && Bounds1(fs[f], 2 * i + 1, -1.0, 0.0)
    ensures r == Step(fs, s, f) && View(r, i) == Couple.Step(k, View(s, i), 3)
    ensures OnlyTouches(s, r, i, f)
  {
    Step1(fs, s, f, 2 * i + 1, -1.0, 0.0);
    r := Step(fs, s, f);
  }

  lemma LeadApart(fs: seq<Facet>, s: State, k: Couple.Rules, i: nat, f: nat) returns (r: State)
    requires |fs| == 42 && Shaped(fs, s) && |s.y| == DIMENSIONS && i < COUPLES && f == 28 + 2 * i
    requires Bounds2(fs[f], 2 * i, -1.0, 2 * i + 1, 1.0, -k.lead)
    ensures r == Step(fs, s, f) && View(r, i) == Couple.Step(k, View(s, i), 4)
    ensures OnlyTouches(s, r, i, f)
  {
    Step2(fs, s, f, 2 * i, -1.0, 2 * i + 1, 1.0, -k.lead);
    r := Step(fs, s, f);
  }

  lemma SumApart(fs: seq<Facet>, s: State, k: Couple.Rules, i: nat, f: nat) returns (r: State)
    requires |fs| == 42 && Shaped(fs, s) && |s.y| == DIMENSIONS && i < COUPLES && f == 29 + 2 * i
    requires Bounds2(fs[f], 2 * i, 1.0, 2 * i + 1, 1.0, k.sum)
    ensures r == Step(fs, s, f) && View(r, i) == Couple.Step(k, View(s, i), 5)
    ensures OnlyTouches(s, r, i, f)
  {
    Step2(fs, s, f, 2 * i, 1.0, 2 * i + 1, 1.0, k.sum);
    r := Step(fs, s, f);
  }

  /** A step at facet g of couple i is step g of that couple ... */
  lemma StepIsCouples(fs: seq<Facet>, ks: seq<Couple.Rules>, s: State, i: nat, g: nat) returns (r: State)
    requires MadeOf(fs, ks) && Shaped(fs, s) && |s.y| == DIMENSIONS && i < COUPLES && g < 6
    ensures r == Step(fs, s, IndexOf(i, g)) && |r.y| == DIMENSIONS && |r.lambda| == 42
    ensures View(r, i) == Couple.Step(ks[i], View(s, i), g)
    ensures OnlyTouches(s, r, i, IndexOf(i, g))
  {
    var k, f := ks[i], IndexOf(i, g);
    assert CoupleFacets(fs, k, i);
    if g == 0 {
      r := UpperApart(fs, s, k, i, f);
    } else if g == 1 {
      r := LowerApart(fs, s, k, i, f);
    } else if g == 2 {
      r := ShadowUpperApart(fs, s, k, i, f);
    } else if g == 3 {
      r := ShadowLowerApart(fs, s, k, i, f);
    } else if g == 4 {
      r := LeadApart(fs, s, k, i, f);
    } else {
      r := SumApart(fs, s, k, i, f);
    }
  }

  /** ... and leaves the others alone. */
  lemma StepIsApart(fs: seq<Facet>, ks: seq<Couple.Rules>, s: State, f: nat, j: nat)
    requires MadeOf(fs, ks) && Shaped(fs, s) && |s.y| == DIMENSIONS && f < 42 && j < COUPLES
    ensures var r := Step(fs, s, f);
            View(r, j) == if CoupleAt(f) == j then Couple.Step(ks[j], View(s, j), PlaceAt(f)) else View(s, j)
  {
    EveryFacetHasAPlace(f);
    var i := CoupleAt(f);
    var r := StepIsCouples(fs, ks, s, i, PlaceAt(f));
    if i != j {
      OthersStay(s, r, i, f, j);
    }
  }

  /** How many of the first f facets are couple j's. */
  function Own(j: nat, f: nat): nat {
    (if f <= 4 * j then 0 else if f <= 4 * j + 4 then f - 4 * j else 4)
    + (if f <= 28 + 2 * j then 0 else if f <= 30 + 2 * j then f - 28 - 2 * j else 2)
  }

  lemma OwnNext(j: nat, f: nat)
    requires j < COUPLES && f < 42
    ensures Own(j, f + 1) == Own(j, f) + (if CoupleAt(f) == j then 1 else 0)
    ensures CoupleAt(f) == j ==> PlaceAt(f) == Own(j, f)
  {
  }

  lemma {:induction false} SweepToIsApart(fs: seq<Facet>, ks: seq<Couple.Rules>, s: State, f: nat, j: nat, own: nat)
    requires MadeOf(fs, ks) && Shaped(fs, s) && |s.y| == DIMENSIONS && f <= 42 && j < COUPLES && own == Own(j, f)
    ensures View(SweepTo(fs, s, f), j) == Couple.To(ks[j], View(s, j), own)
  {
    if f > 0 {
      OwnNext(j, f - 1);
      SweepToIsApart(fs, ks, s, f - 1, j, Own(j, f - 1));
      StepIsApart(fs, ks, SweepTo(fs, s, f - 1), f - 1, j);
    }
  }

  lemma SweepIsApart(fs: seq<Facet>, ks: seq<Couple.Rules>, s: State, j: nat) returns (own: nat)
    requires MadeOf(fs, ks) && Shaped(fs, s) && |s.y| == DIMENSIONS && j < COUPLES
    ensures own == 6 && View(SweepTo(fs, s, |fs|), j) == Couple.To(ks[j], View(s, j), own)
  {
    own := Own(j, |fs|);
    SweepToIsApart(fs, ks, s, |fs|, j, own);
  }

  lemma StartIsApart(fs: seq<Facet>, ks: seq<Couple.Rules>, x: Vec, j: nat)
    requires MadeOf(fs, ks) && |x| == DIMENSIONS && j < COUPLES
    ensures View(Start(fs, x), j) == Couple.Start(x[2 * j], x[2 * j + 1])
  {
  }

  /** Sweeping the lattice is sweeping every couple. */
  lemma {:induction false} SweepsAreApart(fs: seq<Facet>, ks: seq<Couple.Rules>, x: Vec, i: nat, j: nat)
    requires MadeOf(fs, ks) && |x| == DIMENSIONS && j < COUPLES
    ensures View(Sweeps(fs, Start(fs, x), i), j) == Couple.Swept(ks[j], x[2 * j], x[2 * j + 1], i)
  {
    if i == 0 {
      StartIsApart(fs, ks, x, j);
    } else {
      SweepsAreApart(fs, ks, x, i - 1, j);
      var s := Sweeps(fs, Start(fs, x), i - 1);
      OneMoreSweep(fs, ks, s, j, x[2 * j], x[2 * j + 1], i - 1);
      assert Sweeps(fs, Start(fs, x), i) == SweepTo(fs, s, |fs|);
    }
  }

  lemma OneMoreSweep(fs: seq<Facet>, ks: seq<Couple.Rules>, s: State, j: nat, x: real, y: real, i: nat)
    requires MadeOf(fs, ks) && Shaped(fs, s) && |s.y| == DIMENSIONS && j < COUPLES
    requires View(s, j) == Couple.Swept(ks[j], x, y, i)
    ensures View(SweepTo(fs, s, |fs|), j) == Couple.Swept(ks[j], x, y, i + 1)
  {
    var own := SweepIsApart(fs, ks, s, j);
    Couple.SweptByFacets(ks[j], x, y, i, own);
  }

  // ---------------------------------------------------------------------------------------------
  // Nudges
  // ---------------------------------------------------------------------------------------------

  function SpotOf(v: Vec, j: nat): Spot
    requires j < COUPLES && |v| == DIMENSIONS
  {
    Spot(v[2 * j], v[2 * j + 1])
  }

  /** Only the two coordinates of couple i are changed. */
  ghost predicate OnlyMoves(v: Vec, r: Vec, i: nat)
    requires i < COUPLES
  {
    |v| == |r| == DIMENSIONS && r == v[2 * i := r[2 * i]][2 * i + 1 := r[2 * i + 1]]
  }

  lemma Nudge1(facet: Facet, i: nat, v: real, t: real, y: Vec)
    requires Bounds1(facet, i, v, t) && |y| == DIMENSIONS && (v == 1.0 || v == -1.0)
    ensures NudgeFacet(facet, y)
         == if v == 1.0 then (if y[i] > t then y[i := t - NUDGE] else y) else if -y[i] > t then y[i := NUDGE - t] else y
  {
    Excess1(facet, i, v, t, y);
    Move1(facet, i, v, t, y, -(Excess(facet, y) + NUDGE));
  }

  lemma Nudge2(facet: Facet, p: nat, u: real, q: nat, v: real, t: real, y: Vec)
    requires Bounds2(facet, p, u, q, v, t) && |y| == DIMENSIONS && (u == 1.0 || u == -1.0) && v == 1.0
    ensures var e := (if u == 1.0 then y[p] else -y[p]) + y[q] - t;
            var step := e / 2.0 + NUDGE;
            NudgeFacet(facet, y)
            == if e > 0.0 then y[p := if u == 1.0 then y[p] - step else y[p] + step][q := y[q] - step] else y
  {
    Excess2(facet, p, u, q, v, t, y);
    Move2(facet, p, u, q, v, t, y, -(Excess(facet, y) / 2.0 + NUDGE));
  }

  lemma NudgeUpper(fs: seq<Facet>, y: Vec, k: Couple.Rules, i: nat, f: nat) returns (r: Vec)
    requires |fs| == 42 && |y| == DIMENSIONS && i < COUPLES && f == 4 * i && Bounds1(fs[f], 2 * i, 1.0, 1.0)
    ensures r == NudgeFacet(fs[f], y) && OnlyMoves(y, r, i) && SpotOf(r, i) == Nudge(k, SpotOf(y, i), 0)
  {
    Nudge1(fs[f], 2 * i, 1.0, 1.0, y);
    r := NudgeFacet(fs[f], y);
  }

  lemma NudgeLower(fs: seq<Facet>, y: Vec, k: Couple.Rules, i: nat, f: nat) returns (r: Vec)
    requires |fs| == 42 && |y| == DIMENSIONS && i < COUPLES && f == 4 * i + 1 && Bounds1(fs[f], 2 * i, -1.0, -k.lo)
    ensures r == NudgeFacet(fs[f], y) && OnlyMoves(y, r, i) && SpotOf(r, i) == Nudge(k, SpotOf(y, i), 1)
  {
    Nudge1(fs[f], 2 * i, -1.0, -k.lo, y);
    r := NudgeFacet(fs[f], y);
  }

  lemma NudgeShadowUpper(fs: seq<Facet>, y: Vec, k: Couple.Rules, i: nat, f: nat) returns (r: Vec)
    requires |fs| == 42 && |y| == DIMENSIONS && i < COUPLES && f == 4 * i + 2 && Bounds1(fs[f], 2 * i + 1, 1.0, k.up)
    ensures r == NudgeFacet(fs[f], y) && OnlyMoves(y, r, i) && SpotOf(r, i) == Nudge(k, SpotOf(y, i), 2)
  {
    Nudge1(fs[f], 2 * i + 1, 1.0, k.up, y);
    r := NudgeFacet(fs[f], y);
  }

  lemma NudgeShadowLower(fs: seq<Facet>, y: Vec, k: Couple.Rules, i: nat, f: nat) returns (r: Vec)
    requires |fs| == 42 && |y| == DIMENSIONS && i < COUPLES && f == 4 * i + 3 && Bounds1(fs[f], 2 * i + 1, -1.0, 0.0)
    ensures r == NudgeFacet(fs[f], y) && OnlyMoves(y, r, i) && SpotOf(r, i) == Nudge(k, SpotOf(y, i), 3)
  {
    Nudge1(fs[f], 2 * i + 1, -1.0, 0.0, y);
    r := NudgeFacet(fs[f], y);
  }

  lemma NudgeLead(fs: seq<Facet>, y: Vec, k: Couple.Rules, i: nat, f: nat) returns (r: Vec)
    requires |fs| == 42 && |y| == DIMENSIONS && i < COUPLES && f == 28 + 2 * i && Bounds2(fs[f], 2 * i, -1.0, 2 * i + 1, 1.0, -k.lead)
    ensures r == NudgeFacet(fs[f], y) && OnlyMoves(y, r, i) && SpotOf(r, i) == Nudge(k, SpotOf(y, i), 4)
  {
    Nudge2(fs[f], 2 * i, -1.0, 2 * i + 1, 1.0, -k.lead, y);
    r := NudgeFacet(fs[f], y);
  }

  lemma NudgeSum(fs: seq<Facet>, y: Vec, k: Couple.Rules, i: nat, f: nat) returns (r: Vec)
    requires |fs| == 42 && |y| == DIMENSIONS && i < COUPLES && f == 29 + 2 * i && Bounds2(fs[f], 2 * i, 1.0, 2 * i + 1, 1.0, k.sum)
    ensures r == NudgeFacet(fs[f], y) && OnlyMoves(y, r, i) && SpotOf(r, i) == Nudge(k, SpotOf(y, i), 5)
  {
    Nudge2(fs[f], 2 * i, 1.0, 2 * i + 1, 1.0, k.sum, y);
    r := NudgeFacet(fs[f], y);
  }

  lemma NudgeIsCouples(fs: seq<Facet>, ks: seq<Couple.Rules>, y: Vec, i: nat, g: nat) returns (r: Vec)
    requires MadeOf(fs, ks) && |y| == DIMENSIONS && i < COUPLES && g < 6
    ensures r == NudgeFacet(fs[IndexOf(i, g)], y) && OnlyMoves(y, r, i) && SpotOf(r, i) == Nudge(ks[i], SpotOf(y, i), g)
  {
    var k, f := ks[i], IndexOf(i, g);
    assert CoupleFacets(fs, k, i);
    if g == 0 {
      r := NudgeUpper(fs, y, k, i, f);
    } else if g == 1 {
      r := NudgeLower(fs, y, k, i, f);
    } else if g == 2 {
      r := NudgeShadowUpper(fs, y, k, i, f);
    } else if g == 3 {
      r := NudgeShadowLower(fs, y, k, i, f);
    } else if g == 4 {
      r := NudgeLead(fs, y, k, i, f);
    } else {
      r := NudgeSum(fs, y, k, i, f);
    }
  }

  lemma NudgeIsApart(fs: seq<Facet>, ks: seq<Couple.Rules>, y: Vec, f: nat, j: nat)
    requires MadeOf(fs, ks) && |y| == DIMENSIONS && f < 42 && j < COUPLES
    ensures SpotOf(NudgeFacet(fs[f], y), j)
         == if CoupleAt(f) == j then Nudge(ks[j], SpotOf(y, j), PlaceAt(f)) else SpotOf(y, j)
  {
    EveryFacetHasAPlace(f);
    var r := NudgeIsCouples(fs, ks, y, CoupleAt(f), PlaceAt(f));
  }

  lemma {:induction false} NudgeToIsApart(fs: seq<Facet>, ks: seq<Couple.Rules>, y: Vec, f: nat, j: nat, own: nat)
    requires MadeOf(fs, ks) && |y| == DIMENSIONS && f <= 42 && j < COUPLES && own == Own(j, f)
    ensures SpotOf(NudgeTo(fs, y, f), j) == NudgedBy(ks[j], SpotOf(y, j), own)
  {
    if f > 0 {
      OwnNext(j, f - 1);
      NudgeToIsApart(fs, ks, y, f - 1, j, Own(j, f - 1));
      NudgeIsApart(fs, ks, NudgeTo(fs, y, f - 1), f - 1, j);
    }
  }

  /** All facets of one couple are satisfied. */
  ghost predicate CoupleInside(fs: seq<Facet>, y: Vec, j: nat)
    requires |fs| == 42 && WellFormed(fs, |y|) && j < COUPLES
  {
    && Excess(fs[4 * j], y) <= 0.0 && Excess(fs[4 * j + 1], y) <= 0.0 && Excess(fs[4 * j + 2], y) <= 0.0
    && Excess(fs[4 * j + 3], y) <= 0.0 && Excess(fs[28 + 2 * j], y) <= 0.0 && Excess(fs[29 + 2 * j], y) <= 0.0
  }

  lemma CoupleKeeps(fs: seq<Facet>, ks: seq<Couple.Rules>, y: Vec, j: nat)
    requires MadeOf(fs, ks) && |y| == DIMENSIONS && j < COUPLES
    ensures Keeps(ks[j], SpotOf(y, j)) <==> CoupleInside(fs, y, j)
  {
    var k := ks[j];
    assert CoupleFacets(fs, k, j);
    Excess1(fs[4 * j], 2 * j, 1.0, 1.0, y);
    Excess1(fs[4 * j + 1], 2 * j, -1.0, -k.lo, y);
    Excess1(fs[4 * j + 2], 2 * j + 1, 1.0, k.up, y);
    Excess1(fs[4 * j + 3], 2 * j + 1, -1.0, 0.0, y);
    Excess2(fs[28 + 2 * j], 2 * j, -1.0, 2 * j + 1, 1.0, -k.lead, y);
    Excess2(fs[29 + 2 * j], 2 * j, 1.0, 2 * j + 1, 1.0, k.sum, y);
  }

  lemma FacetOfCouple(fs: seq<Facet>, y: Vec, f: nat)
    requires |fs| == 42 && WellFormed(fs, |y|) && f < 42 && CoupleInside(fs, y, CoupleAt(f))
    ensures Excess(fs[f], y) <= 0.0
  {
    EveryFacetHasAPlace(f);
  }

  /** Every couple keeps its rules. */
  ghost predicate AllKeep(ks: seq<Couple.Rules>, y: Vec) {
    && |ks| == COUPLES && |y| == DIMENSIONS
    && forall j {:trigger SpotOf(y, j)} :: 0 <= j < COUPLES ==> Keeps(ks[j], SpotOf(y, j))
  }

  /** A point is inside exactly when every couple keeps its rules. */
  lemma InsideIsApart(fs: seq<Facet>, ks: seq<Couple.Rules>, y: Vec)
    requires MadeOf(fs, ks) && |y| == DIMENSIONS
    ensures Inside(fs, y) <==> AllKeep(ks, y)
  {
    if Inside(fs, y) {
      forall j | 0 <= j < COUPLES ensures Keeps(ks[j], SpotOf(y, j)) {
        CoupleKeeps(fs, ks, y, j);
      }
    }
    if AllKeep(ks, y) {
      forall f | 0 <= f < |fs| ensures Excess(fs[f], y) <= 0.0 {
        CoupleKeeps(fs, ks, y, CoupleAt(f));
        FacetOfCouple(fs, y, f);
      }
    }
  }

  /** t whole nudging passes. */
  function PassTo(fs: seq<Facet>, y: Vec, t: nat): (r: Vec)
    requires WellFormed(fs, |y|)
    ensures |r| == |y|
  {
    if t == 0 then y else NudgeTo(fs, PassTo(fs, y, t - 1), |fs|)
  }

  lemma {:induction false} PassesAreApart(fs: seq<Facet>, ks: seq<Couple.Rules>, y: Vec, t: nat, j: nat)
    requires MadeOf(fs, ks) && |y| == DIMENSIONS && j < COUPLES
    ensures SpotOf(PassTo(fs, y, t), j) == SpotAt(ks[j], SpotOf(y, j), t)
  {
    if t > 0 {
      var before := PassTo(fs, y, t - 1);
      var own := Own(j, |fs|);
      PassesAreApart(fs, ks, y, t - 1, j);
      NudgeToIsApart(fs, ks, before, |fs|, j, own);
      SpotByFacets(ks[j], SpotOf(y, j), t - 1, own);
    }
  }

  lemma {:induction false} PassFromFront(fs: seq<Facet>, y: Vec, t: nat)
    requires WellFormed(fs, |y|)
    ensures PassTo(fs, y, t + 1) == PassTo(fs, NudgeTo(fs, y, |fs|), t)
  {
    if t > 0 {
      PassFromFront(fs, y, t - 1);
    }
  }

  /** A pass that nudges nothing has started inside. */
  lemma {:induction false} NothingToNudge(fs: seq<Facet>, y: Vec, k: nat)
    requires WellFormed(fs, |y|) && k <= |fs| && !MovedTo(fs, y, k)
    requires forall f :: 0 <= f < |fs| ==> Dot(fs[f].normal, fs[f].normal) > 0.0
    ensures NudgeTo(fs, y, k) == y && forall f :: 0 <= f < k ==> Excess(fs[f], y) <= 0.0
  {
    if k > 0 {
      NothingToNudge(fs, y, k - 1);
    }
  }

  /** The nudging loop ends inside when t passes, whatever they do, would. */
  lemma {:induction false} NudgedEndsInside(fs: seq<Facet>, y: Vec, n: nat, t: nat)
    requires WellFormed(fs, |y|) && t <= n && Inside(fs, PassTo(fs, y, t))
    requires forall f :: 0 <= f < |fs| ==> Dot(fs[f].normal, fs[f].normal) > 0.0
    ensures Inside(fs, Nudged(fs, y, n))
    decreases t
  {
    if !Inside(fs, y) {
      if !MovedTo(fs, y, |fs|) {
        NothingToNudge(fs, y, |fs|);
        assert false;
      }
      NudgedStep(fs, y, n, NudgeTo(fs, y, |fs|));
      PassFromFront(fs, y, t - 1);
      NudgedEndsInside(fs, NudgeTo(fs, y, |fs|), n - 1, t - 1);
    }
  }

  lemma NormsArePositive(fs: seq<Facet>, ks: seq<Couple.Rules>, y: Vec)
    requires MadeOf(fs, ks) && |y| == DIMENSIONS
    ensures forall f :: 0 <= f < |fs| ==> 1.0 <= Dot(fs[f].normal, fs[f].normal) <= 2.0
  {
    forall f | 0 <= f < 42 ensures 1.0 <= Dot(fs[f].normal, fs[f].normal) <= 2.0 {
      EveryFacetHasAPlace(f);
      FacetNorm(fs, ks, y, CoupleAt(f), PlaceAt(f));
    }
  }

  lemma FacetNorm(fs: seq<Facet>, ks: seq<Couple.Rules>, y: Vec, i: nat, g: nat)
    requires MadeOf(fs, ks) && |y| == DIMENSIONS && i < COUPLES && g < 6
    ensures var a := fs[IndexOf(i, g)].normal; 1.0 <= Dot(a, a) <= 2.0
  {
    var k := ks[i];
    assert CoupleFacets(fs, k, i);
    if g == 0 {
      Excess1(fs[4 * i], 2 * i, 1.0, 1.0, y);
    } else if g == 1 {
      Excess1(fs[4 * i + 1], 2 * i, -1.0, -k.lo, y);
    } else if g == 2 {
      Excess1(fs[4 * i + 2], 2 * i + 1, 1.0, k.up, y);
    } else if g == 3 {
      Excess1(fs[4 * i + 3], 2 * i + 1, -1.0, 0.0, y);
    } else if g == 4 {
      Excess2(fs[28 + 2 * i], 2 * i, -1.0, 2 * i + 1, 1.0, -k.lead, y);
    } else {
      Excess2(fs[29 + 2 * i], 2 * i, 1.0, 2 * i + 1, 1.0, k.sum, y);
    }
  }

  /** The rules of all couples are usual. */
  ghost predicate AllUsual(ks: seq<Couple.Rules>) {
    forall j {:trigger Couple.Usual(ks[j])} :: 0 <= j < |ks| ==> Couple.Usual(ks[j])
  }

  /** From every point at all the nudges end inside, long before their 200 passes are used up: the fallback to
      the center is never taken. */
  lemma NudgesSucceed(fs: seq<Facet>, ks: seq<Couple.Rules>, y: Vec, n: nat)
    requires MadeOf(fs, ks) && AllUsual(ks) && |y| == DIMENSIONS && n >= 42
    ensures Inside(fs, Nudged(fs, y, n))
  {
    var t := n;
    forall j | 0 <= j < COUPLES ensures Keeps(ks[j], SpotOf(PassTo(fs, y, t), j)) {
      PassesAreApart(fs, ks, y, t, j);
      assert Couple.Usual(ks[j]);
      PassesKeep(ks[j], SpotOf(y, j), t);
    }
    InsideIsApart(fs, ks, PassTo(fs, y, t));
    NormsArePositive(fs, ks, y);
    NudgedEndsInside(fs, y, n, t);
  }
}
