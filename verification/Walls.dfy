/** The alignment score in terms of the bounds and couplings themselves. */
module Walls {
  import opened Vectors
  import opened Projection
  import opened Lattice
  import opened Alignment

  /** Every virtue keeps m above its minimum, every shadow m below its maximum, and every pair leads and adds up
      with m to spare. The other bounds are no walls. */
  ghost predicate WallRoom(lower: Vec, upper: Vec, cs: seq<Coupling>, x: Vec, m: real)
    requires |lower| == |upper| == |x| && Pairs(cs, |x|)
  {
    && (forall i :: 0 <= i < |x| ==> ClearsWall(lower, upper, x, i, m))
    && (forall j :: 0 <= j < |cs| ==> Coupled(cs[j], x, m))
  }

  ghost predicate ClearsWall(lower: Vec, upper: Vec, x: Vec, i: nat, m: real)
    requires |lower| == |upper| == |x| && i < |x|
  {
    if i % 2 == 0 then x[i] >= lower[i] + m else x[i] <= upper[i] - m
  }

  /** Facet f, when it is a wall, leaves room m. */
  ghost predicate Leaves(fs: seq<Facet>, x: Vec, f: nat, m: real)
    requires WellFormed(fs, |x|) && f < |fs|
  {
    fs[f].critical ==> Excess(fs[f], x) <= -m
  }

  ghost predicate AllLeave(fs: seq<Facet>, x: Vec, m: real)
    requires WellFormed(fs, |x|)
  {
    forall f :: 0 <= f < |fs| ==> Leaves(fs, x, f, m)
  }

  lemma LeavesIff(fs: seq<Facet>, x: Vec, m: real)
    requires WellFormed(fs, |x|)
    ensures WallsLeave(fs, x, |fs|, m) <==> AllLeave(fs, x, m)
  {
    if AllLeave(fs, x, m) {
      forall f | 0 <= f < |fs| && fs[f].critical ensures Excess(fs[f], x) <= -m {
        assert Leaves(fs, x, f, m);
      }
    }
  }

  lemma BoundWalls(lower: Vec, upper: Vec, cs: seq<Coupling>, x: Vec, m: real, i: nat)
    requires |lower| == |upper| == |x| && i < |x| && WellFormed(Facets(lower, upper, cs), |x|)
    ensures var fs := Facets(lower, upper, cs);
            Leaves(fs, x, 2 * i, m) && Leaves(fs, x, 2 * i + 1, m) <==> ClearsWall(lower, upper, x, i, m)
  {
    AxisExcess(lower, upper, i, x);
    BoundsAt(lower, upper, cs, i);
  }

  lemma PairWalls(lower: Vec, upper: Vec, cs: seq<Coupling>, x: Vec, m: real, j: nat)
    requires |lower| == |upper| == |x| && Pairs(cs, |x|) && j < |cs| && WellFormed(Facets(lower, upper, cs), |x|)
    ensures var fs, f := Facets(lower, upper, cs), 2 * |x| + 2 * j;
            Leaves(fs, x, f, m) && Leaves(fs, x, f + 1, m) <==> Coupled(cs[j], x, m)
  {
    CouplingExcess(cs[j], x);
    PairFacetsAt(lower, upper, cs, j);
  }

  /** The walls of a lattice leave room m exactly when its bounds and couplings do. */
  lemma WallsIff(lower: Vec, upper: Vec, cs: seq<Coupling>, x: Vec, m: real)
    requires |lower| == |upper| == |x| && Pairs(cs, |x|)
    ensures WellFormed(Facets(lower, upper, cs), |x|)
    ensures var fs := Facets(lower, upper, cs); WallsLeave(fs, x, |fs|, m) <==> WallRoom(lower, upper, cs, x, m)
  {
    var fs := Facets(lower, upper, cs);
    FacetsWellFormed(lower, upper, cs);
    LeavesIff(fs, x, m);
    if AllLeave(fs, x, m) {
      forall i | 0 <= i < |x| ensures ClearsWall(lower, upper, x, i, m) {
        BoundWalls(lower, upper, cs, x, m, i);
      }
      forall j | 0 <= j < |cs| ensures Coupled(cs[j], x, m) {
        PairWalls(lower, upper, cs, x, m, j);
      }
    }
    if WallRoom(lower, upper, cs, x, m) {
      forall f | 0 <= f < |fs| ensures Leaves(fs, x, f, m) {
        if f < 2 * |x| {
          BoundWalls(lower, upper, cs, x, m, f / 2);
        } else {
          PairWalls(lower, upper, cs, x, m, (f - 2 * |x|) / 2);
        }
      }
    }
  }

  lemma LatticeHasWall(b: Bounds)
    ensures HasWall(LatticeOf(b))
  {
    BoundsAt(Lower(b), Upper(b), Couplings(), 0);
    assert LatticeOf(b)[2 * 0 + 1].critical;
  }

  /** A point's least margin is at least m exactly when it has room m at every wall. */
  lemma MarginIff(b: Bounds, x: Vec, m: real)
    requires |x| == DIMENSIONS
    ensures WellFormed(LatticeOf(b), |x|) && HasWall(LatticeOf(b))
    ensures LeastMargin(LatticeOf(b), x) >= m <==> WallRoom(Lower(b), Upper(b), Couplings(), x, m)
  {
    var fs := LatticeOf(b);
    WallsIff(Lower(b), Upper(b), Couplings(), x, m);
    LatticeHasWall(b);
    LeastMarginIff(fs, x, m);
  }

  lemma LeastMarginIff(fs: seq<Facet>, x: Vec, m: real)
    requires WellFormed(fs, |x|) && HasWall(fs)
    ensures LeastMargin(fs, x) >= m <==> WallsLeave(fs, x, |fs|, m)
  {
    var ms := Margins(fs, x, |fs|);
    WallsHaveMargins(fs, x, |fs|);
    MarginsAreExcesses(fs, x, |fs|, m);
    LeastIff(ms, m);
  }

  lemma LeastIff(ms: seq<real>, m: real)
    requires |ms| > 0
    ensures Least(ms, |ms|) >= m <==> AllAtLeast(ms, m)
  {
    LeastIsLeast(ms, |ms|);
  }

  // ---------------------------------------------------------------------------------------------
  // The seasons
  // ---------------------------------------------------------------------------------------------

  /** The least value of each virtue in a season. */
  function Minima(name: string): seq<real> {
    if name == "summer" then [0.28, 0.38, 0.6, 0.38, 0.48, 0.48, 0.28]
    else if name == "fall" then [0.22, 0.32, 0.55, 0.32, 0.42, 0.42, 0.22]
    else if name == "winter" then [0.18, 0.28, 0.5, 0.28, 0.38, 0.38, 0.18]
    else [0.3, 0.4, 0.6, 0.4, 0.5, 0.5, 0.3]
  }

  /** The greatest value of each shadow. */
  function Maxima(name: string): seq<real> {
    if name == "summer" then [0.52, 0.32, 0.2, 0.32, 0.42, 0.32, 0.52]
    else if name == "fall" then [0.58, 0.38, 0.25, 0.38, 0.48, 0.38, 0.58]
    else if name == "winter" then [0.62, 0.42, 0.3, 0.42, 0.52, 0.42, 0.62]
    else [0.5, 0.3, 0.2, 0.3, 0.4, 0.3, 0.5]
  }

  /** How far each virtue leads its shadow at least, and what the two add up to at most. */
  function Leads(): seq<real> {
    [0.2, 0.35, 0.5, 0.35, 0.35, 0.4, 0.2]
  }

  function Sums(): seq<real> {
    [1.1, 1.05, 1.1, 1.05, 1.15, 1.1, 1.1]
  }

  /** A virtue and its shadow keep to their bounds and to each other. */
  ghost predicate PairKeeps(virtue: real, shadow: real, least: real, most: real, lead: real, sum: real) {
    least <= virtue <= 1.0 && 0.0 <= shadow <= most && virtue - shadow >= lead && virtue + shadow <= sum
  }

  ghost predicate KeepsPair(name: string, x: Vec, j: nat)
    requires |x| == 14 && j < 7
  {
    PairKeeps(x[2 * j], x[2 * j + 1], Minima(name)[j], Maxima(name)[j], Leads()[j], Sums()[j])
  }

  lemma MinimaAgree(season: Season, name: string, j: nat)
    requires j < 7 && season == SeasonOf(name)
    ensures var lower := Lower(SeasonalBounds(season)); lower[2 * j] == Minima(name)[j] && lower[2 * j + 1] == 0.0
  {
    match season {
      case Spring =>
      case Summer =>
      case Fall =>
      case Winter =>
    }
  }

  lemma MaximaAgree(season: Season, name: string, j: nat)
    requires j < 7 && season == SeasonOf(name)
    ensures var upper := Upper(SeasonalBounds(season)); upper[2 * j] == 1.0 && upper[2 * j + 1] == Maxima(name)[j]
  {
    match season {
      case Spring =>
      case Summer =>
      case Fall =>
      case Winter =>
    }
  }

  lemma CouplingsAgree(j: nat)
    requires j < 7
    ensures |Couplings()| == 7 && Couplings()[j] == Coupling(2 * j, 2 * j + 1, Leads()[j], Sums()[j])
  {
  }

  /** Pair j keeps to its bounds and to its lead and sum. */
  ghost predicate PairFits(lower: Vec, upper: Vec, cs: seq<Coupling>, x: Vec, j: nat)
    requires |lower| == |upper| == |x| && Pairs(cs, |x|)
  {
    && 2 * j + 1 < |x| && Bounded(lower, upper, x, 2 * j, 0.0) && Bounded(lower, upper, x, 2 * j + 1, 0.0)
    && j < |cs| && Coupled(cs[j], x, 0.0)
  }

  lemma PairNumbers(name: string, x: Vec, b: Bounds, j: nat)
    requires |x| == DIMENSIONS && b == SeasonalBounds(SeasonOf(name)) && j < 7
    ensures PairFits(Lower(b), Upper(b), Couplings(), x, j) <==> KeepsPair(name, x, j)
  {
    MinimaAgree(SeasonOf(name), name, j);
    MaximaAgree(SeasonOf(name), name, j);
    CouplingsAgree(j);
  }

  lemma WithinIff(lower: Vec, upper: Vec, cs: seq<Coupling>, x: Vec)
    requires |lower| == |upper| == |x| == 2 * |cs| && Pairs(cs, |x|)
    ensures Within(lower, upper, cs, x, 0.0) <==> forall j :: 0 <= j < |cs| ==> PairFits(lower, upper, cs, x, j)
  {
    if forall j :: 0 <= j < |cs| ==> PairFits(lower, upper, cs, x, j) {
      forall i | 0 <= i < |x| ensures Bounded(lower, upper, x, i, 0.0) {
        assert PairFits(lower, upper, cs, x, i / 2);
        assert i == 2 * (i / 2) || i == 2 * (i / 2) + 1;
      }
      forall j | 0 <= j < |cs| ensures Coupled(cs[j], x, 0.0) {
        assert PairFits(lower, upper, cs, x, j);
      }
    }
  }

  /** The lattices in numbers: a point lies inside a season's lattice exactly when each of the seven virtues and its
      shadow keep to the season's bounds, and to the lead and the sum of their pair. */
  lemma InsideInNumbers(name: string, x: Vec)
    requires |x| == DIMENSIONS
    ensures WellFormed(LatticeOfSeason(name), |x|)
    ensures Inside(LatticeOfSeason(name), x) <==> forall j :: 0 <= j < 7 ==> KeepsPair(name, x, j)
  {
    var b := SeasonalBounds(SeasonOf(name));
    InsideIff(Lower(b), Upper(b), Couplings(), x);
    CouplingsAgree(0);
    WithinIff(Lower(b), Upper(b), Couplings(), x);
    forall j | 0 <= j < 7 ensures PairFits(Lower(b), Upper(b), Couplings(), x, j) <==> KeepsPair(name, x, j) {
      PairNumbers(name, x, b, j);
    }
  }

  /** The room a season's center has at its nearest wall. */
  function CenterRoom(season: Season): real {
    match season
    case Spring => 0.1
    case Summer => 0.1
    case Fall => 0.12
    case Winter => 0.08
  }

  lemma CenterClears(season: Season, i: nat)
    requires i < DIMENSIONS
    ensures var b := SeasonalBounds(season); ClearsWall(Lower(b), Upper(b), Center(b), i, CenterRoom(season))
  {
    CenterAt(SeasonalBounds(season), i);
  }

  lemma CenterCouples(season: Season, j: nat)
    requires j < |Couplings()|
    ensures Coupled(Couplings()[j], Center(SeasonalBounds(season)), CenterRoom(season))
  {
    var b := SeasonalBounds(season);
    PairAt(b, j);
    CenterAt(b, 2 * j);
    CenterAt(b, 2 * j + 1);
    PairRoomOf(season, j);
  }

  lemma PairRoomOf(season: Season, j: nat)
    requires j < |Couplings()|
    ensures var b, c, m := SeasonalBounds(season), Couplings()[j], CenterRoom(season);
            var virtue, shadow := (Lower(b)[2 * j] + 1.0) / 2.0, Upper(b)[2 * j + 1] / 2.0;
            virtue - shadow >= c.lead + m && virtue + shadow <= c.sum - m
  {
  }

  /** At one wall the center has no more room: deception's maximum in spring and summer, the lead of harmony
      over dominance in fall and winter. */
  lemma CenterTouches(season: Season, m: real)
    requires m > CenterRoom(season)
    ensures var b := SeasonalBounds(season); !WallRoom(Lower(b), Upper(b), Couplings(), Center(b), m)
  {
    var b := SeasonalBounds(season);
    CenterAt(b, 0);
    CenterAt(b, 1);
    CenterAt(b, 5);
    if season == Spring || season == Summer {
      assert !ClearsWall(Lower(b), Upper(b), Center(b), 5, m);
    } else {
      assert !Coupled(Couplings()[0], Center(b), m);
    }
  }

  lemma CenterMargin(season: Season)
    ensures var b := SeasonalBounds(season);
            && WellFormed(LatticeOf(b), |Center(b)|) && HasWall(LatticeOf(b))
            && LeastMargin(LatticeOf(b), Center(b)) == CenterRoom(season)
  {
    var b := SeasonalBounds(season);
    forall i | 0 <= i < DIMENSIONS ensures ClearsWall(Lower(b), Upper(b), Center(b), i, CenterRoom(season)) {
      CenterClears(season, i);
    }
    forall j | 0 <= j < |Couplings()| ensures Coupled(Couplings()[j], Center(b), CenterRoom(season)) {
      CenterCouples(season, j);
    }
    MarginIff(b, Center(b), CenterRoom(season));
    var m := LeastMargin(LatticeOf(b), Center(b));
    MarginIff(b, Center(b), m);
    if m > CenterRoom(season) {
      CenterTouches(season, m);
    }
  }

  lemma QuotientAtLeast(u: real, c: real, q: real, t: real)
    requires c > 0.0 && q * c == u
    ensures q >= t <==> u >= Times(t, c)
  {
    if q >= t {
      ScaleInequality(c, t, q);
    } else {
      ScaleStrict(c, q, t);
    }
  }

  lemma ClampAtLeast(q: real, t: real)
    requires 0.0 < t <= 1.0
    ensures Clamp(q) >= t <==> q >= t
  {
  }

  lemma Quotient(u: real, c: real) returns (q: real)
    requires c > 0.0
    ensures q == u / c && q * c == u
  {
    q := u / c;
    QuotientSigns(u, c, q);
  }

  lemma ScoreAtLeast(fs: seq<Facet>, center: Vec, x: Vec, t: real, room: real)
    requires WellFormed(fs, |x|) && |center| == |x| && HasWall(fs) && LeastMargin(fs, center) == room > 0.0 && 0.0 < t <= 1.0
    ensures Score(fs, center, x) >= t <==> Inside(fs, x) && LeastMargin(fs, x) >= Times(t, room)
  {
    var q := Quotient(LeastMargin(fs, x), room);
    QuotientAtLeast(LeastMargin(fs, x), room, q, t);
    ClampAtLeast(q, t);
  }

  /** The score in numbers, for every season, point and level: it is at least t exactly when the point keeps all
      bounds and couplings and has t times the room at every wall that the center has at its nearest one,
      which is 0.1 in spring and summer, 0.12 in fall and 0.08 in winter. */
  lemma ScoreInNumbers(name: string, x: Vec, t: real, room: real)
    requires |x| == DIMENSIONS && 0.0 < t <= 1.0
    requires room == match SeasonOf(name) { case Spring => 0.1 case Summer => 0.1 case Fall => 0.12 case Winter => 0.08 }
    ensures WellFormed(LatticeOfSeason(name), |x|) && HasWall(LatticeOfSeason(name))
    ensures var b := SeasonalBounds(SeasonOf(name));
            Score(LatticeOfSeason(name), CenterOfSeason(name), x) >= t
            <==> && Within(Lower(b), Upper(b), Couplings(), x, 0.0)
                 && WallRoom(Lower(b), Upper(b), Couplings(), x, Times(t, room))
  {
    var b := SeasonalBounds(SeasonOf(name));
    var fs, center := LatticeOf(b), Center(b);
    CenterMargin(SeasonOf(name));
    InsideIff(Lower(b), Upper(b), Couplings(), x);
    MarginIff(b, x, Times(t, room));
    ScoreAtLeast(fs, center, x, t, room);
  }
}
