/** The fourteen-dimensional lattice of a season: its bounds, its facets, and what lies inside. */
module Lattice {
  import opened Vectors
  import opened Projection
  import opened Options

  const DIMENSIONS: nat := 14

  datatype Season = Spring | Summer | Fall | Winter

  /** Season names are looked up in a table that falls back to spring. */
  function SeasonOf(name: string): Season {
    if name == "summer" then Summer
    else if name == "fall" then Fall
    else if name == "winter" then Winter
    else Spring
  }

  /** The season a name advances to. */
  function NextSeason(name: string): Option<string> {
    match SeasonOf(name)
    case Spring => Some("summer")
    case Summer => Some("fall")
    case Fall => Some("winter")
    case Winter => None
  }

  datatype Bounds = Bounds(
    harmonyMin: real, dominanceMax: real,
    orderMin: real, chaosMax: real,
    integrityMin: real, deceptionMax: real,
    flourishingMin: real, declineMax: real,
    relationshipsMin: real, isolationMax: real,
    boundariesMin: real, intrusionMax: real,
    graceMin: real, rigidityMax: real)

  function SeasonalBounds(season: Season): Bounds {
    match season
    case Spring => Bounds(0.3, 0.5, 0.4, 0.3, 0.6, 0.2, 0.4, 0.3, 0.5, 0.4, 0.5, 0.3, 0.3, 0.5)
    case Summer => Bounds(0.28, 0.52, 0.38, 0.32, 0.6, 0.2, 0.38, 0.32, 0.48, 0.42, 0.48, 0.32, 0.28, 0.52)
    case Fall => Bounds(0.22, 0.58, 0.32, 0.38, 0.55, 0.25, 0.32, 0.38, 0.42, 0.48, 0.42, 0.38, 0.22, 0.58)
    case Winter => Bounds(0.18, 0.62, 0.28, 0.42, 0.5, 0.3, 0.28, 0.42, 0.38, 0.52, 0.38, 0.42, 0.18, 0.62)
  }

  function Lower(b: Bounds): (r: Vec)
    ensures |r| == DIMENSIONS
  {
    [b.harmonyMin, 0.0, b.orderMin, 0.0, b.integrityMin, 0.0, b.flourishingMin, 0.0,
     b.relationshipsMin, 0.0, b.boundariesMin, 0.0, b.graceMin, 0.0]
  }

  function Upper(b: Bounds): (r: Vec)
    ensures |r| == DIMENSIONS
  {
    [1.0, b.dominanceMax, 1.0, b.chaosMax, 1.0, b.deceptionMax, 1.0, b.declineMax,
     1.0, b.isolationMax, 1.0, b.intrusionMax, 1.0, b.rigidityMax]
  }

  function Center(b: Bounds): (r: Vec)
    ensures |r| == DIMENSIONS
  {
    seq(DIMENSIONS, i requires 0 <= i < DIMENSIONS => (Lower(b)[i] + Upper(b)[i]) / 2.0)
  }

  /** A principle pair: the virtue must lead its shadow by `lead`, and the two may not sum past `sum`. */
  datatype Coupling = Coupling(pos: nat, neg: nat, lead: real, sum: real)

  ghost predicate Pairs(cs: seq<Coupling>, n: nat) {
    forall j :: 0 <= j < |cs| ==> cs[j].pos < n && cs[j].neg < n && cs[j].pos != cs[j].neg
  }

  function Couplings(): (cs: seq<Coupling>)
    ensures Pairs(cs, DIMENSIONS)
  {
    [Coupling(0, 1, 0.2, 1.1), Coupling(2, 3, 0.35, 1.05), Coupling(4, 5, 0.5, 1.1), Coupling(6, 7, 0.35, 1.05),
     Coupling(8, 9, 0.35, 1.15), Coupling(10, 11, 0.4, 1.1), Coupling(12, 13, 0.2, 1.1)]
  }

  /** The vector of length n that is v at coordinate i and zero elsewhere. */
  function Unit(n: nat, i: nat, v: real): (r: Vec)
    ensures |r| == n
  {
    seq(n, j requires 0 <= j < n => if j == i then v else 0.0)
  }

  function Pair(n: nat, p: nat, u: real, q: nat, v: real): (r: Vec)
    ensures |r| == n
  {
    seq(n, j requires 0 <= j < n => if j == p then u else if j == q then v else 0.0)
  }

  /** x_i <= upper and -x_i <= -lower; the wall of a virtue is below it, the wall of a shadow above. */
  function UpperFacet(upper: Vec, i: nat): Facet
    requires i < |upper|
  {
    Facet(Unit(|upper|, i, 1.0), upper[i], i % 2 == 1)
  }

  function LowerFacet(lower: Vec, i: nat): Facet
    requires i < |lower|
  {
    Facet(Unit(|lower|, i, -1.0), -lower[i], i % 2 == 0)
  }

  function LeadFacet(n: nat, c: Coupling): Facet {
    Facet(Pair(n, c.pos, -1.0, c.neg, 1.0), -c.lead, true)
  }

  function SumFacet(n: nat, c: Coupling): Facet {
    Facet(Pair(n, c.pos, 1.0, c.neg, 1.0), c.sum, true)
  }

  function AxisFacets(lower: Vec, upper: Vec, k: nat): (r: seq<Facet>)
    requires k <= |lower| == |upper|
    ensures |r| == 2 * k
  {
    if k == 0 then [] else AxisFacets(lower, upper, k - 1) + [UpperFacet(upper, k - 1), LowerFacet(lower, k - 1)]
  }

  function CouplingFacets(n: nat, cs: seq<Coupling>, k: nat): (r: seq<Facet>)
    requires k <= |cs|
    ensures |r| == 2 * k
  {
    if k == 0 then [] else CouplingFacets(n, cs, k - 1) + [LeadFacet(n, cs[k - 1]), SumFacet(n, cs[k - 1])]
  }

  /** Two facets a dimension, upper then lower, and then two facets a pair. */
  function Facets(lower: Vec, upper: Vec, cs: seq<Coupling>): (r: seq<Facet>)
    requires |lower| == |upper|
    ensures |r| == 2 * |lower| + 2 * |cs|
  {
    AxisFacets(lower, upper, |lower|) + CouplingFacets(|lower|, cs, |cs|)
  }

  function LatticeOf(b: Bounds): seq<Facet> {
    Facets(Lower(b), Upper(b), Couplings())
  }

  // ---------------------------------------------------------------------------------------------
  // Membership without facets
  // ---------------------------------------------------------------------------------------------

  lemma {:induction false} DotUnit(n: nat, i: nat, v: real, x: Vec, k: nat, t: real)
    requires |x| == n && k <= n && i < n && t == v * x[i]
    ensures DotTo(Unit(n, i, v), x, k) == if i < k then t else 0.0
  {
    if k > 0 {
      DotUnit(n, i, v, x, k - 1, t);
      assert DotTo(Unit(n, i, v), x, k) == DotNext(Unit(n, i, v), x, k - 1);
      if i != k - 1 {
        assert Unit(n, i, v)[k - 1] * x[k - 1] == 0.0;
      }
    }
  }

  lemma {:induction false} DotPair(n: nat, p: nat, u: real, q: nat, v: real, x: Vec, k: nat, s: real, t: real)
    requires |x| == n && k <= n && p < n && q < n && p != q && s == u * x[p] && t == v * x[q]
    ensures DotTo(Pair(n, p, u, q, v), x, k) == (if p < k then s else 0.0) + (if q < k then t else 0.0)
  {
    if k > 0 {
      var a := Pair(n, p, u, q, v);
      DotPair(n, p, u, q, v, x, k - 1, s, t);
      assert DotTo(a, x, k) == DotNext(a, x, k - 1);
      if p != k - 1 && q != k - 1 {
        assert a[k - 1] == 0.0;
        assert a[k - 1] * x[k - 1] == 0.0;
      }
    }
  }

  lemma NormOfUnit(n: nat, i: nat, v: real)
    requires i < n && (v == 1.0 || v == -1.0)
    ensures Dot(Unit(n, i, v), Unit(n, i, v)) == 1.0
  {
    DotUnit(n, i, v, Unit(n, i, v), n, 1.0);
  }

  lemma NormOfPair(n: nat, p: nat, u: real, q: nat, v: real)
    requires p < n && q < n && p != q && (u == 1.0 || u == -1.0) && (v == 1.0 || v == -1.0)
    ensures Dot(Pair(n, p, u, q, v), Pair(n, p, u, q, v)) == 2.0
  {
    DotPair(n, p, u, q, v, Pair(n, p, u, q, v), n, 1.0, 1.0);
  }

  lemma {:induction false} AxisFacetAt(lower: Vec, upper: Vec, k: nat, i: nat)
    requires i < k <= |lower| == |upper|
    ensures AxisFacets(lower, upper, k)[2 * i] == UpperFacet(upper, i)
    ensures AxisFacets(lower, upper, k)[2 * i + 1] == LowerFacet(lower, i)
  {
    if i < k - 1 {
      AxisFacetAt(lower, upper, k - 1, i);
    }
  }

  lemma {:induction false} CouplingFacetAt(n: nat, cs: seq<Coupling>, k: nat, j: nat)
    requires j < k <= |cs|
    ensures CouplingFacets(n, cs, k)[2 * j] == LeadFacet(n, cs[j])
    ensures CouplingFacets(n, cs, k)[2 * j + 1] == SumFacet(n, cs[j])
  {
    if j < k - 1 {
      CouplingFacetAt(n, cs, k - 1, j);
    }
  }

  lemma BoundsAt(lower: Vec, upper: Vec, cs: seq<Coupling>, i: nat)
    requires |lower| == |upper| && i < |lower|
    ensures var fs := Facets(lower, upper, cs);
            fs[2 * i] == UpperFacet(upper, i) && fs[2 * i + 1] == LowerFacet(lower, i)
  {
    AxisFacetAt(lower, upper, |lower|, i);
  }

  lemma PairFacetsAt(lower: Vec, upper: Vec, cs: seq<Coupling>, j: nat)
    requires |lower| == |upper| && j < |cs|
    ensures var fs, n := Facets(lower, upper, cs), |lower|;
            fs[2 * n + 2 * j] == LeadFacet(n, cs[j]) && fs[2 * n + 2 * j + 1] == SumFacet(n, cs[j])
  {
    CouplingFacetAt(|lower|, cs, |cs|, j);
  }

  /** Facet f is an upper or lower bound of coordinate f / 2, or a facet of pair (f - 2n) / 2. */
  lemma FacetAt(lower: Vec, upper: Vec, cs: seq<Coupling>, f: nat)
    requires |lower| == |upper| && f < 2 * |lower| + 2 * |cs|
    ensures var n, facet := |lower|, Facets(lower, upper, cs)[f];
            if f < 2 * n then facet == if f % 2 == 0 then UpperFacet(upper, f / 2) else LowerFacet(lower, f / 2)
            else facet == if (f - 2 * n) % 2 == 0 then LeadFacet(n, cs[(f - 2 * n) / 2])
                          else SumFacet(n, cs[(f - 2 * n) / 2])
  {
    var n := |lower|;
    if f < 2 * n {
      AxisFacetAt(lower, upper, n, f / 2);
      assert Facets(lower, upper, cs)[f] == AxisFacets(lower, upper, n)[f];
    } else {
      var g := f - 2 * n;
      CouplingFacetAt(n, cs, |cs|, g / 2);
      assert Facets(lower, upper, cs)[f] == CouplingFacets(n, cs, |cs|)[g];
    }
  }

  lemma FacetsWellFormed(lower: Vec, upper: Vec, cs: seq<Coupling>)
    requires |lower| == |upper|
    ensures WellFormed(Facets(lower, upper, cs), |lower|)
  {
    var fs := Facets(lower, upper, cs);
    forall f | 0 <= f < |fs| ensures |fs[f].normal| == |lower| {
      FacetAt(lower, upper, cs, f);
    }
  }

  lemma AxisExcess(lower: Vec, upper: Vec, i: nat, x: Vec)
    requires |lower| == |upper| == |x| && i < |x|
    ensures Excess(UpperFacet(upper, i), x) == x[i] - upper[i]
    ensures Excess(LowerFacet(lower, i), x) == lower[i] - x[i]
  {
    DotUnit(|x|, i, 1.0, x, |x|, x[i]);
    DotUnit(|x|, i, -1.0, x, |x|, -x[i]);
  }

  lemma CouplingExcess(c: Coupling, x: Vec)
    requires c.pos < |x| && c.neg < |x| && c.pos != c.neg
    ensures Excess(LeadFacet(|x|, c), x) == c.lead - (x[c.pos] - x[c.neg])
    ensures Excess(SumFacet(|x|, c), x) == x[c.pos] + x[c.neg] - c.sum
  {
    DotPair(|x|, c.pos, -1.0, c.neg, 1.0, x, |x|, -x[c.pos], x[c.neg]);
    DotPair(|x|, c.pos, 1.0, c.neg, 1.0, x, |x|, x[c.pos], x[c.neg]);
  }

  /** Every facet leaves the point at least m of room. */
  ghost predicate Roomy(fs: seq<Facet>, x: Vec, m: real)
    requires WellFormed(fs, |x|)
  {
    forall f :: 0 <= f < |fs| ==> Excess(fs[f], x) <= -m
  }

  /** Coordinate i is within its bounds by m. */
  ghost predicate Bounded(lower: Vec, upper: Vec, x: Vec, i: nat, m: real)
    requires |lower| == |upper| == |x| && i < |x|
  {
    lower[i] + m <= x[i] <= upper[i] - m
  }

  /** The virtue leads its shadow and the pair is restrained, both by m. */
  ghost predicate Coupled(c: Coupling, x: Vec, m: real)
    requires c.pos < |x| && c.neg < |x|
  {
    x[c.pos] - x[c.neg] >= c.lead + m && x[c.pos] + x[c.neg] <= c.sum - m
  }

  ghost predicate Within(lower: Vec, upper: Vec, cs: seq<Coupling>, x: Vec, m: real)
    requires |lower| == |upper| == |x| && Pairs(cs, |x|)
  {
    && (forall i :: 0 <= i < |x| ==> Bounded(lower, upper, x, i, m))
    && (forall j :: 0 <= j < |cs| ==> Coupled(cs[j], x, m))
  }

  /** Room m at every facet is room m at every bound and at every pair. With m = 0 this is
      membership: the inner products say exactly the bounds and the couplings. */
  lemma RoomyIff(lower: Vec, upper: Vec, cs: seq<Coupling>, x: Vec, m: real)
    requires |lower| == |upper| == |x| && Pairs(cs, |x|)
    ensures WellFormed(Facets(lower, upper, cs), |x|)
    ensures Roomy(Facets(lower, upper, cs), x, m) <==> Within(lower, upper, cs, x, m)
  {
    var n, fs := |x|, Facets(lower, upper, cs);
    FacetsWellFormed(lower, upper, cs);
    if Roomy(fs, x, m) {
      forall i | 0 <= i < n ensures Bounded(lower, upper, x, i, m) {
        BoundRoom(lower, upper, cs, x, m, i);
      }
      forall j | 0 <= j < |cs| ensures Coupled(cs[j], x, m) {
        PairRoom(lower, upper, cs, x, m, j);
      }
    }
    if Within(lower, upper, cs, x, m) {
      forall f | 0 <= f < |fs| ensures Excess(fs[f], x) <= -m {
        if f < 2 * n {
          BoundRoom(lower, upper, cs, x, m, f / 2);
        } else {
          PairRoom(lower, upper, cs, x, m, (f - 2 * n) / 2);
        }
      }
    }
  }

  /** The two facets of a dimension leave room m exactly when its bounds do. */
  lemma BoundRoom(lower: Vec, upper: Vec, cs: seq<Coupling>, x: Vec, m: real, i: nat)
    requires |lower| == |upper| == |x| && i < |x| && WellFormed(Facets(lower, upper, cs), |x|)
    ensures var fs := Facets(lower, upper, cs);
            Excess(fs[2 * i], x) <= -m && Excess(fs[2 * i + 1], x) <= -m <==> Bounded(lower, upper, x, i, m)
  {
    AxisExcess(lower, upper, i, x);
    BoundsAt(lower, upper, cs, i);
  }

  /** The two facets of a pair leave room m exactly when its coupling does. */
  lemma PairRoom(lower: Vec, upper: Vec, cs: seq<Coupling>, x: Vec, m: real, j: nat)
    requires |lower| == |upper| == |x| && Pairs(cs, |x|) && j < |cs| && WellFormed(Facets(lower, upper, cs), |x|)
    ensures var fs, f := Facets(lower, upper, cs), 2 * |x| + 2 * j;
            Excess(fs[f], x) <= -m && Excess(fs[f + 1], x) <= -m <==> Coupled(cs[j], x, m)
  {
    CouplingExcess(cs[j], x);
    PairFacetsAt(lower, upper, cs, j);
  }

  lemma InsideIff(lower: Vec, upper: Vec, cs: seq<Coupling>, x: Vec)
    requires |lower| == |upper| == |x| && Pairs(cs, |x|)
    ensures WellFormed(Facets(lower, upper, cs), |x|)
    ensures Inside(Facets(lower, upper, cs), x) <==> Within(lower, upper, cs, x, 0.0)
  {
    RoomyIff(lower, upper, cs, x, 0.0);
    assert Inside(Facets(lower, upper, cs), x) <==> Roomy(Facets(lower, upper, cs), x, 0.0);
  }

  // ---------------------------------------------------------------------------------------------
  // Seasons
  // ---------------------------------------------------------------------------------------------

  /** b allows everything a allows. */
  predicate Wider(a: Bounds, b: Bounds) {
    && b.harmonyMin <= a.harmonyMin && a.dominanceMax <= b.dominanceMax
    && b.orderMin <= a.orderMin && a.chaosMax <= b.chaosMax
    && b.integrityMin <= a.integrityMin && a.deceptionMax <= b.deceptionMax
    && b.flourishingMin <= a.flourishingMin && a.declineMax <= b.declineMax
    && b.relationshipsMin <= a.relationshipsMin && a.isolationMax <= b.isolationMax
    && b.boundariesMin <= a.boundariesMin && a.intrusionMax <= b.intrusionMax
    && b.graceMin <= a.graceMin && a.rigidityMax <= b.rigidityMax
  }

  lemma WiderBounds(a: Bounds, b: Bounds, i: nat)
    requires Wider(a, b) && i < DIMENSIONS
    ensures Lower(b)[i] <= Lower(a)[i] && Upper(a)[i] <= Upper(b)[i]
  {
  }

  /** Wider bounds contain everything narrower ones do. */
  lemma WiderContains(a: Bounds, b: Bounds, x: Vec)
    requires Wider(a, b) && |x| == DIMENSIONS
    requires WellFormed(LatticeOf(a), |x|) && Inside(LatticeOf(a), x)
    ensures WellFormed(LatticeOf(b), |x|) && Inside(LatticeOf(b), x)
  {
    InsideIff(Lower(a), Upper(a), Couplings(), x);
    InsideIff(Lower(b), Upper(b), Couplings(), x);
    forall i | 0 <= i < |x| ensures Bounded(Lower(b), Upper(b), x, i, 0.0) {
      WiderBounds(a, b, i);
      assert Bounded(Lower(a), Upper(a), x, i, 0.0);
    }
  }

  lemma NextIsWider(name: string)
    requires NextSeason(name).Some?
    ensures Wider(SeasonalBounds(SeasonOf(name)), SeasonalBounds(SeasonOf(NextSeason(name).value)))
  {
  }

  /** The lattice of a season name. */
  function LatticeOfSeason(name: string): seq<Facet> {
    LatticeOf(SeasonalBounds(SeasonOf(name)))
  }

  function CenterOfSeason(name: string): (r: Vec)
    ensures |r| == DIMENSIONS
  {
    Center(SeasonalBounds(SeasonOf(name)))
  }

  /** Advancing never shrinks the lattice: every point of a season's lattice is in the next one's. */
  lemma SeasonsNest(name: string, x: Vec)
    requires NextSeason(name).Some? && |x| == DIMENSIONS
    requires WellFormed(LatticeOfSeason(name), |x|) && Inside(LatticeOfSeason(name), x)
    ensures var next := LatticeOfSeason(NextSeason(name).value);
            WellFormed(next, |x|) && Inside(next, x)
  {
    NextIsWider(name);
    WiderContains(SeasonalBounds(SeasonOf(name)), SeasonalBounds(SeasonOf(NextSeason(name).value)), x);
  }

  lemma CenterWithin(season: Season)
    ensures var b := SeasonalBounds(season);
            Within(Lower(b), Upper(b), Couplings(), Center(b), 0.08)
  {
    var b := SeasonalBounds(season);
    forall i | 0 <= i < DIMENSIONS ensures Bounded(Lower(b), Upper(b), Center(b), i, 0.08) {
      CenterAt(b, i);
      assert Upper(b)[i] - Lower(b)[i] >= 0.16;
    }
    forall j | 0 <= j < |Couplings()| ensures Coupled(Couplings()[j], Center(b), 0.08) {
      CenterCoupled(season, j);
    }
  }

  lemma CenterAt(b: Bounds, i: nat)
    requires i < DIMENSIONS
    ensures Center(b)[i] == (Lower(b)[i] + Upper(b)[i]) / 2.0
  {
  }

  lemma CenterCoupled(season: Season, j: nat)
    requires j < |Couplings()|
    ensures Coupled(Couplings()[j], Center(SeasonalBounds(season)), 0.08)
  {
    var b := SeasonalBounds(season);
    PairAt(b, j);
    CenterAt(b, 2 * j);
    CenterAt(b, 2 * j + 1);
    PairHasRoom(season, j);
  }

  /** Pair j couples the dimensions 2 j and 2 j + 1, a virtue up to one and a shadow from zero. */
  lemma PairAt(b: Bounds, j: nat)
    requires j < |Couplings()|
    ensures Couplings()[j].pos == 2 * j && Couplings()[j].neg == 2 * j + 1
    ensures Upper(b)[2 * j] == 1.0 && Lower(b)[2 * j + 1] == 0.0
  {
  }

  lemma PairHasRoom(season: Season, j: nat)
    requires j < |Couplings()|
    ensures var b, c := SeasonalBounds(season), Couplings()[j];
            var virtue, shadow := (Lower(b)[2 * j] + 1.0) / 2.0, Upper(b)[2 * j + 1] / 2.0;
            virtue - shadow >= c.lead + 0.08 && virtue + shadow <= c.sum - 0.08
  {
  }

  /** In every season the center keeps at least 0.08 of room from every one of the 42 facets. */
  lemma CenterIsDeep(season: Season)
    ensures var b := SeasonalBounds(season);
            WellFormed(LatticeOf(b), |Center(b)|) && Roomy(LatticeOf(b), Center(b), 0.08)
  {
    var b := SeasonalBounds(season);
    CenterWithin(season);
    RoomyIff(Lower(b), Upper(b), Couplings(), Center(b), 0.08);
  }
}
