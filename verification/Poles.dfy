/** Home regions: clusters of memory coordinates with their centers projected into the lattice. */
module Poles {
  import opened Vectors
  import opened Projection
  import opened Lattice
  import opened Landing
  import opened Clusters
  import opened Lloyd
  import opened Polytope

  const MAX_PASSES: nat := 40
  const MAX_REGIONS: int := 8

  datatype RegionPole = RegionPole(center: Vec, memberCount: nat)

  /** The mean of the points, added up one share at a time. */
  function MeanTo(xs: seq<Vec>, n: nat, k: nat): (r: Vec)
    requires |xs| > 0 && k <= |xs| && Points(xs, n)
    ensures |r| == n
  {
    if k == 0 then Zeros(n) else AddScaled(MeanTo(xs, n, k - 1), 1.0, Divide(xs[k - 1], |xs| as real))
  }

  function ClampRegions(k: int, n: nat): (r: nat)
    requires n > 0
    ensures 1 <= r <= n && r <= 8
  {
    var c := if k < 1 then 1 else if k > MAX_REGIONS then MAX_REGIONS else k;
    if c > n then n else c
  }

  function Seeds(xs: seq<Vec>, n: nat, k: int): (r: seq<Vec>)
    requires |xs| > 0 && Points(xs, n)
    ensures 0 < |r| && Points(r, n)
  {
    Grow(xs, [MeanTo(xs, n, |xs|)], n, ClampRegions(k, |xs|))
  }

  lemma {:induction false} ZerosCount(assign: seq<nat>, k: nat)
    requires k <= |assign| && forall p :: 0 <= p < |assign| ==> assign[p] == 0
    ensures Count(assign, 0, k) == k
  {
    if k > 0 {
      ZerosCount(assign, k - 1);
    }
  }

  lemma SharesAddUp(mean: real, sum: real, x: real, m: real)
    requires m > 0.0 && mean == sum / m
    ensures mean + 1.0 * (x / m) == (sum + 1.0 * x) / m
  {
  }

  /** The shares add up to the sum divided. */
  lemma {:induction false} MeanIsShared(xs: seq<Vec>, assign: seq<nat>, n: nat, k: nat, i: nat, m: real)
    requires k <= |assign| == |xs| && |xs| > 0 && Points(xs, n) && i < n && m == |xs| as real
    requires forall p :: 0 <= p < |assign| ==> assign[p] == 0
    ensures MeanTo(xs, n, k)[i] == Sum(xs, assign, 0, n, k)[i] / m
  {
    if k > 0 {
      MeanIsShared(xs, assign, n, k - 1, i, m);
      SharesAddUp(MeanTo(xs, n, k - 1)[i], Sum(xs, assign, 0, n, k - 1)[i], xs[k - 1][i], m);
    }
  }

  /** The first seed is the one point with the least sum of squared distances to all the memories: another
      point costs more by their number times its squared distance from the seed. */
  lemma {:induction false} FirstSeedIsBest(xs: seq<Vec>, n: nat, k: int, z: Vec)
    requires |xs| > 0 && Points(xs, n) && |z| == n
    ensures var all, seed := seq(|xs|, _ => 0), Seeds(xs, n, k)[0];
            && |seed| == n
            && ClusterCost(xs, all, 0, z, n, |xs|)
               == ClusterCost(xs, all, 0, seed, n, |xs|) + Times(|xs| as real, Dist2(seed, z))
  {
    var all: seq<nat>, mean := seq(|xs|, _ => 0), MeanTo(xs, n, |xs|);
    ZerosCount(all, |xs|);
    var centroid := Centroid(xs, all, 0, n);
    forall i | 0 <= i < n ensures mean[i] == centroid[i] {
      MeanIsShared(xs, all, n, |xs|, i, |xs| as real);
    }
    assert mean == centroid;
    CentroidIsBest(xs, all, 0, z, n);
    assert Seeds(xs, n, k)[..1][0] == mean;
  }

  /** The seeds, for any number k of regions asked for: unless every memory is within 1e-12 (squared) of a seed,
      no set of fewer centers than k, than eight and than there are memories covers the memories within a
      quarter of the squared radius the seeds cover them with. */
  lemma SeedsAreNearOptimal(xs: seq<Vec>, n: nat, k: int, centers: seq<Vec>, cover: real)
    requires |xs| > 0 && Points(xs, n) && Points(centers, n)
    requires (|centers| == 0 || |centers| < k) && |centers| < 8 && |centers| < |xs| && Covers(xs, centers, n, cover)
    ensures Radius(xs, Seeds(xs, n, k), n) < 0.000000000001 || Radius(xs, Seeds(xs, n, k), n) <= 4.0 * cover
  {
    SeedingIsNearOptimal(xs, MeanTo(xs, n, |xs|), n, ClampRegions(k, |xs|), centers, cover);
  }

  /** How many seeds there are: at least one, and no more than were asked for, than eight and than there are memories;
      fewer only when every memory is within 1e-12 (squared) of a seed. */
  lemma {:induction false} SeedsAreFew(xs: seq<Vec>, n: nat, k: int)
    requires |xs| > 0 && Points(xs, n)
    ensures var m := |Seeds(xs, n, k)|;
            && 1 <= m <= 8 && m <= |xs| && (m == 1 || m <= k)
            && (m < 8 && m < |xs| && m < k ==> Radius(xs, Seeds(xs, n, k), n) < 0.000000000001)
  {
    GrowSpreads(xs, [MeanTo(xs, n, |xs|)], n, ClampRegions(k, |xs|), 1);
  }

  /** The clustering the passes end with; they start with every point assigned to the first seed. */
  function Settled(xs: seq<Vec>, n: nat, k: int, passes: nat): (r: Clustering)
    requires |xs| > 0 && Points(xs, n)
    ensures Lloyd.Valid(xs, r, n)
  {
    Passes(xs, Clustering(Seeds(xs, n, k), seq(|xs|, _ => 0)), n, passes)
  }

  /** The poles of the first c clusters: one for each that has members. */
  ghost function PolesTo(fs: seq<Facet>, home: Vec, xs: seq<Vec>, s: Clustering, c: nat): (r: seq<RegionPole>)
    requires WellFormed(fs, |home|) && Lloyd.Valid(xs, s, |home|) && c <= |s.centers|
    decreases c, 0
  {
    if c == 0 then [] else PolesNext(fs, home, xs, s, c - 1)
  }

  ghost function PolesNext(fs: seq<Facet>, home: Vec, xs: seq<Vec>, s: Clustering, c: nat): (r: seq<RegionPole>)
    requires WellFormed(fs, |home|) && Lloyd.Valid(xs, s, |home|) && c < |s.centers|
    decreases c, 1
  {
    if Count(s.assign, c, |xs|) == 0 then PolesTo(fs, home, xs, s, c)
    else PolesTo(fs, home, xs, s, c) + [PoleOf(fs, home, xs, s, c)]
  }

  ghost function PoleOf(fs: seq<Facet>, home: Vec, xs: seq<Vec>, s: Clustering, c: nat): RegionPole
    requires WellFormed(fs, |home|) && Lloyd.Valid(xs, s, |home|) && c < |s.centers| && Count(s.assign, c, |xs|) > 0
  {
    RegionPole(Projected(fs, home, Centroid(xs, s.assign, c, |home|)), Count(s.assign, c, |xs|))
  }

  ghost function Discovered(fs: seq<Facet>, home: Vec, xs: seq<Vec>, k: int, passes: nat): (r: seq<RegionPole>)
    requires WellFormed(fs, |home|) && Points(xs, |home|)
  {
    if |xs| == 0 then []
    else
      var s := Settled(xs, |home|, k, passes);
      PolesTo(fs, home, xs, s, |s.centers|)
  }

  ghost predicate AllInside(fs: seq<Facet>, poles: seq<RegionPole>, n: nat)
    requires WellFormed(fs, n)
  {
    forall i :: 0 <= i < |poles| ==> |poles[i].center| == n && Inside(fs, poles[i].center)
  }

  function MemberTotal(poles: seq<RegionPole>): nat {
    if |poles| == 0 then 0 else MemberTotal(poles[..|poles| - 1]) + poles[|poles| - 1].memberCount
  }

  // ---------------------------------------------------------------------------------------------

  lemma {:induction false} AppendMembers(poles: seq<RegionPole>, pole: RegionPole)
    ensures MemberTotal(poles + [pole]) == MemberTotal(poles) + pole.memberCount
  {
    assert (poles + [pole])[..|poles|] == poles;
  }

  lemma {:induction false} PolesToCount(fs: seq<Facet>, home: Vec, xs: seq<Vec>, s: Clustering, c: nat)
    requires WellFormed(fs, |home|) && Lloyd.Valid(xs, s, |home|) && c <= |s.centers|
    ensures MemberTotal(PolesTo(fs, home, xs, s, c)) == CountsTo(s.assign, c, |xs|)
  {
    if c > 0 {
      PolesToCount(fs, home, xs, s, c - 1);
      assert PolesTo(fs, home, xs, s, c) == PolesNext(fs, home, xs, s, c - 1);
      if Count(s.assign, c - 1, |xs|) > 0 {
        AppendMembers(PolesTo(fs, home, xs, s, c - 1), PoleOf(fs, home, xs, s, c - 1));
      }
    }
  }

  lemma {:induction false} PolesToInside(fs: seq<Facet>, home: Vec, xs: seq<Vec>, s: Clustering, c: nat)
    requires WellFormed(fs, |home|) && Lloyd.Valid(xs, s, |home|) && c <= |s.centers| && Inside(fs, home)
    ensures AllInside(fs, PolesTo(fs, home, xs, s, c), |home|)
  {
    if c > 0 {
      PolesToInside(fs, home, xs, s, c - 1);
      PolesNextInside(fs, home, xs, s, c - 1);
      assert PolesTo(fs, home, xs, s, c) == PolesNext(fs, home, xs, s, c - 1);
    }
  }

  lemma PolesNextInside(fs: seq<Facet>, home: Vec, xs: seq<Vec>, s: Clustering, c: nat)
    requires WellFormed(fs, |home|) && Lloyd.Valid(xs, s, |home|) && c < |s.centers| && Inside(fs, home)
    requires AllInside(fs, PolesTo(fs, home, xs, s, c), |home|)
    ensures AllInside(fs, PolesNext(fs, home, xs, s, c), |home|)
  {
    if Count(s.assign, c, |xs|) > 0 {
      ProjectedIsInside(fs, home, Centroid(xs, s.assign, c, |home|));
      AppendInside(fs, PolesTo(fs, home, xs, s, c), PoleOf(fs, home, xs, s, c), |home|);
    }
  }

  lemma AppendInside(fs: seq<Facet>, poles: seq<RegionPole>, pole: RegionPole, n: nat)
    requires WellFormed(fs, n) && AllInside(fs, poles, n) && |pole.center| == n && Inside(fs, pole.center)
    ensures AllInside(fs, poles + [pole], n)
  {
  }

  /** Whatever the memories and however many regions are asked for: every discovered home lies in the
      lattice it was discovered with, and every memory is counted in exactly one of them. */
  lemma {:induction false} DiscoveredHomes(fs: seq<Facet>, home: Vec, xs: seq<Vec>, k: int, passes: nat)
    requires WellFormed(fs, |home|) && Points(xs, |home|) && Inside(fs, home)
    ensures AllInside(fs, Discovered(fs, home, xs, k, passes), |home|)
    ensures MemberTotal(Discovered(fs, home, xs, k, passes)) == |xs|
  {
    if |xs| > 0 {
      var s := Settled(xs, |home|, k, passes);
      PolesToInside(fs, home, xs, s, |s.centers|);
      PolesToCount(fs, home, xs, s, |s.centers|);
      CountsPartition(s.assign, |s.centers|, |xs|);
    }
  }

  /** How many of the first c clusters have members. */
  function UsedTo(s: Clustering, c: nat): nat
    requires c <= |s.centers|
  {
    if c == 0 then 0 else UsedTo(s, c - 1) + (if Count(s.assign, c - 1, |s.assign|) > 0 then 1 else 0)
  }

  lemma {:induction false} PoleAt(fs: seq<Facet>, home: Vec, xs: seq<Vec>, s: Clustering, c: nat, i: nat)
    requires WellFormed(fs, |home|) && Lloyd.Valid(xs, s, |home|) && c <= |s.centers|
    ensures |PolesTo(fs, home, xs, s, c)| == UsedTo(s, c)
    ensures i < c && Count(s.assign, i, |xs|) > 0 ==>
              UsedTo(s, i) < UsedTo(s, c) && PolesTo(fs, home, xs, s, c)[UsedTo(s, i)] == PoleOf(fs, home, xs, s, i)
  {
    if c > 0 {
      PoleAt(fs, home, xs, s, c - 1, i);
      assert PolesTo(fs, home, xs, s, c) == PolesNext(fs, home, xs, s, c - 1);
    }
  }

  lemma {:induction false} FewAreUsed(s: Clustering, c: nat)
    requires c <= |s.centers|
    ensures UsedTo(s, c) <= c
  {
    if c > 0 {
      FewAreUsed(s, c - 1);
    }
  }

  lemma {:induction false} PassesAreCentered(xs: seq<Vec>, s: Clustering, n: nat, k: nat)
    requires Lloyd.Valid(xs, s, n) && k > 0
    ensures Centered(xs, Passes(xs, s, n, k), n)
    decreases k
  {
    PassIsCentered(xs, s, n);
    PassesStep(xs, s, n, k, Pass(xs, s, n));
    if !Quiet(xs, s, n) && k > 1 {
      PassesAreCentered(xs, Pass(xs, s, n), n, k - 1);
    }
  }

  /** The homes that are discovered: one for every cluster with members, in the order of the clusters. Its place
      is its cluster's center, projected, and it counts the cluster's members. */
  lemma {:induction false} HomesAreCenters(fs: seq<Facet>, home: Vec, xs: seq<Vec>, k: int, passes: nat, i: nat, s: Clustering)
    requires WellFormed(fs, |home|) && |xs| > 0 && Points(xs, |home|) && passes > 0
    requires s == Settled(xs, |home|, k, passes) && i < |s.centers|
    ensures var homes := Discovered(fs, home, xs, k, passes);
            && |homes| == UsedTo(s, |s.centers|) <= |s.centers| == |Seeds(xs, |home|, k)|
            && (Count(s.assign, i, |xs|) > 0 ==>
                  UsedTo(s, i) < |homes|
                  && homes[UsedTo(s, i)] == RegionPole(Projected(fs, home, s.centers[i]), Count(s.assign, i, |xs|)))
  {
    PoleAt(fs, home, xs, s, |s.centers|, i);
    FewAreUsed(s, |s.centers|);
    PassesAreCentered(xs, Clustering(Seeds(xs, |home|, k), seq(|xs|, _ => 0)), |home|, passes);
  }

  /** i passes, whether or not they are quiet. */
  ghost function Iterated(xs: seq<Vec>, s: Clustering, n: nat, i: nat): (r: Clustering)
    requires Lloyd.Valid(xs, s, n)
    ensures Lloyd.Valid(xs, r, n)
    decreases i
  {
    if i == 0 then s else Iterated(xs, Pass(xs, s, n), n, i - 1)
  }

  lemma {:induction false} PassesRunOut(xs: seq<Vec>, s: Clustering, n: nat, k: nat)
    requires Lloyd.Valid(xs, s, n) && !StopsEarly(xs, s, n, k)
    ensures Passes(xs, s, n, k) == Iterated(xs, s, n, k)
    decreases k
  {
    if k > 0 {
      PassesRunOut(xs, Pass(xs, s, n), n, k - 1);
    }
  }

  /** Discovery settles the memories: its clustering is stable, or it is what exactly forty passes make of the
      seeds, none of them quiet. */
  lemma DiscoverySettles(xs: seq<Vec>, n: nat, k: int, forty: nat)
    requires |xs| > 0 && Points(xs, n) && forty == 40
    ensures var s0 := Clustering(Seeds(xs, n, k), seq(|xs|, _ => 0));
            || Stable(xs, Settled(xs, n, k, MAX_PASSES), n)
            || (!StopsEarly(xs, s0, n, forty) && Settled(xs, n, k, MAX_PASSES) == Iterated(xs, s0, n, forty))
  {
    var s0 := Clustering(Seeds(xs, n, k), seq(|xs|, _ => 0));
    if StopsEarly(xs, s0, n, forty) {
      EarlyExitIsStable(xs, s0, n, forty);
    } else {
      PassesRunOut(xs, s0, n, forty);
    }
  }

  /** The final clustering costs no more than the seeds do when every memory goes to its nearest seed. */
  lemma SettledBeatsSeeds(xs: seq<Vec>, n: nat, k: int, passes: nat)
    requires |xs| > 0 && Points(xs, n) && passes > 0
    ensures TotalCost(xs, Settled(xs, n, k, passes), n) <= TotalCost(xs, WithNearest(xs, Seeds(xs, n, k), n), n)
  {
    PassesBeatNearest(xs, Clustering(Seeds(xs, n, k), seq(|xs|, _ => 0)), n, passes);
  }

  lemma SettledWithinRadius(xs: seq<Vec>, n: nat, k: int, passes: nat, m: real, radius: real)
    requires |xs| > 0 && Points(xs, n) && passes > 0
    requires m == |xs| as real && radius == Radius(xs, Seeds(xs, n, k), n)
    ensures TotalCost(xs, Settled(xs, n, k, passes), n) <= Times(m, radius)
  {
    SettledBeatsSeeds(xs, n, k, passes);
    NearestCostsRadius(xs, Seeds(xs, n, k), n, m, radius);
  }

  lemma ShareWithin(cost: real, m: real, radius: real, cover: real)
    requires cost <= Times(m, radius) && m >= 0.0 && (radius < DISTINCT || radius <= 4.0 * cover)
    ensures cost <= Times(m, DISTINCT) || cost <= Times(m, 4.0 * cover)
  {
    if radius < DISTINCT {
      ScaleInequality(m, radius, DISTINCT);
    } else {
      ScaleInequality(m, radius, 4.0 * cover);
    }
  }

  lemma SettledShare(
    xs: seq<Vec>, n: nat, k: int, passes: nat, m: real, radius: real, cover: real)
    requires |xs| > 0 && Points(xs, n) && passes > 0 && m == |xs| as real
    requires radius == Radius(xs, Seeds(xs, n, k), n) && (radius < DISTINCT || radius <= 4.0 * cover)
    ensures var cost := TotalCost(xs, Settled(xs, n, k, passes), n);
            cost <= Times(m, DISTINCT) || cost <= Times(m, 4.0 * cover)
  {
    SettledWithinRadius(xs, n, k, passes, m, radius);
    ShareWithin(TotalCost(xs, Settled(xs, n, k, passes), n), m, radius, cover);
  }

  /** The final clustering against the best covers: when fewer centers than k, than eight and than there are
      memories cover the memories within the squared radius `cover`, the final clustering costs at most four
      times `cover` a memory, or at most 1e-12 a memory. */
  lemma SettledIsNearOptimal(
    xs: seq<Vec>, n: nat, k: int, passes: nat, centers: seq<Vec>, cover: real)
    requires |xs| > 0 && Points(xs, n) && Points(centers, n) && passes > 0
    requires (|centers| == 0 || |centers| < k) && |centers| < 8 && |centers| < |xs| && Covers(xs, centers, n, cover)
    ensures var cost := TotalCost(xs, Settled(xs, n, k, passes), n);
            cost <= Times(|xs| as real, 0.000000000001) || cost <= Times(|xs| as real, 4.0 * cover)
  {
    SeedsAreNearOptimal(xs, n, k, centers, cover);
    SettledShare(xs, n, k, passes, |xs| as real, Radius(xs, Seeds(xs, n, k), n), cover);
  }

  /** However few passes there are, none at all included, the final clustering costs no more than the one
      they start from; and they stop early only at a clustering in which every point has a nearest center
      and every center is the mean of its points. */
  lemma {:induction false} SettledQuality(xs: seq<Vec>, n: nat, k: int, passes: nat)
    requires |xs| > 0 && Points(xs, n)
    ensures var s0 := Clustering(Seeds(xs, n, k), seq(|xs|, _ => 0));
            && TotalCost(xs, Settled(xs, n, k, passes), n) <= TotalCost(xs, s0, n)
            && (StopsEarly(xs, s0, n, passes) ==> Stable(xs, Settled(xs, n, k, passes), n))
  {
    var s0 := Clustering(Seeds(xs, n, k), seq(|xs|, _ => 0));
    PassesLowerCost(xs, s0, n, passes);
    if StopsEarly(xs, s0, n, passes) {
      EarlyExitIsStable(xs, s0, n, passes);
    }
  }

  // ---------------------------------------------------------------------------------------------
  // The loops
  // ---------------------------------------------------------------------------------------------

  method Distance2(a: Vec, b: Vec) returns (sum: real)
    requires |a| == |b|
    ensures sum == Dist2(a, b)
  {
    ghost var d := Minus(a, b);
    sum := 0.0;
    for i := 0 to |a|
      invariant sum == DotTo(d, d, i)
    {
      var diff := a[i] - b[i];
      sum := sum + diff * diff;
      assert diff == d[i] && DotTo(d, d, i + 1) == DotNext(d, d, i);
    }
  }

  method MeanLoop(xs: seq<Vec>, n: nat) returns (mean: Vec)
    requires |xs| > 0 && Points(xs, n)
    ensures mean == MeanTo(xs, n, |xs|)
  {
    mean := Zeros(n);
    for p := 0 to |xs|
      invariant mean == MeanTo(xs, n, p)
    {
      mean := AddScaled(mean, 1.0, Divide(xs[p], |xs| as real));
    }
  }

  /** The point farthest from its nearest center, and that squared distance. */
  method FarthestLoop(xs: seq<Vec>, centers: seq<Vec>, n: nat) returns (best: nat, bestDist: real)
    requires |xs| > 0 && |centers| > 0 && Points(xs, n) && Points(centers, n)
    ensures best == FarthestIndex(xs, centers, n, |xs|)
    ensures bestDist == NearestDistance(centers, xs[best], |centers|)
  {
    best, bestDist := 0, -1.0;
    for p := 0 to |xs|
      invariant p == 0 ==> best == 0 && bestDist == -1.0
      invariant p > 0 ==> best == FarthestIndex(xs, centers, n, p)
                          && bestDist == NearestDistance(centers, xs[best], |centers|)
    {
      var dmin := Distance2(xs[p], centers[0]);
      for c := 1 to |centers|
        invariant dmin == NearestDistance(centers, xs[p], c)
      {
        var d := Distance2(xs[p], centers[c]);
        if d < dmin {
          dmin := d;
        }
      }
      NearestDistanceNonneg(centers, xs[p], |centers|);
      if dmin > bestDist {
        best, bestDist := p, dmin;
      }
    }
  }

  method SeedLoop(xs: seq<Vec>, n: nat, k: nat) returns (centers: seq<Vec>)
    requires |xs| > 0 && Points(xs, n) && k > 0
    ensures centers == Grow(xs, [MeanTo(xs, n, |xs|)], n, k)
  {
    var mean := MeanLoop(xs, n);
    centers := [mean];
    while |centers| < k
      invariant 0 < |centers| <= k && Points(centers, n)
      invariant Grow(xs, [mean], n, k) == Grow(xs, centers, n, k)
    {
      var best, bestDist := FarthestLoop(xs, centers, n);
      if bestDist < DISTINCT {
        break;
      }
      centers := centers + [xs[best]];
    }
  }

  method NearestLoop(centers: seq<Vec>, x: Vec) returns (best: nat)
    requires |centers| > 0 && Points(centers, |x|)
    ensures best == NearestIndex(centers, x, |centers|)
  {
    best := 0;
    var bestD := Distance2(x, centers[0]);
    for c := 1 to |centers|
      invariant best == NearestIndex(centers, x, c) && bestD == Dist2(x, centers[best])
    {
      var d := Distance2(x, centers[c]);
      if d < bestD {
        best, bestD := c, d;
      }
    }
  }

  /** Assigns every point to its nearest center, in place. */
  method AssignLoop(xs: seq<Vec>, centers: seq<Vec>, n: nat, assign: array<nat>) returns (changed: bool)
    requires |centers| > 0 && Points(xs, n) && Points(centers, n) && assign.Length == |xs|
    modifies assign
    ensures assign[..] == Reassign(xs, centers, n) && changed == (old(assign[..]) != assign[..])
  {
    ghost var before, after := assign[..], Reassign(xs, centers, n);
    ghost var diff := 0;
    changed := false;
    for p := 0 to |xs|
      invariant forall q :: 0 <= q < p ==> assign[q] == after[q]
      invariant forall q :: p <= q < |xs| ==> assign[q] == before[q]
      invariant changed ==> diff < p && before[diff] != after[diff]
      invariant !changed ==> forall q :: 0 <= q < p ==> before[q] == after[q]
    {
      var best := NearestLoop(centers, xs[p]);
      if assign[p] != best {
        assign[p] := best;
        changed, diff := true, p;
      }
    }
  }

  /** The sum and the number of the members of every cluster. */
  method Tally(xs: seq<Vec>, assign: seq<nat>, n: nat, kk: nat) returns (sums: seq<Vec>, counts: seq<nat>)
    requires |assign| == |xs| && Points(xs, n) && forall p :: 0 <= p < |xs| ==> assign[p] < kk
    ensures |sums| == |counts| == kk
    ensures forall c :: 0 <= c < kk ==> sums[c] == Sum(xs, assign, c, n, |xs|) && counts[c] == Count(assign, c, |xs|)
  {
    sums, counts := seq(kk, _ => Zeros(n)), seq(kk, _ => 0);
    for p := 0 to |xs|
      invariant |sums| == |counts| == kk
      invariant forall c :: 0 <= c < kk ==> sums[c] == Sum(xs, assign, c, n, p) && counts[c] == Count(assign, c, p)
    {
      var c := assign[p];
      sums := sums[c := AddScaled(sums[c], 1.0, xs[p])];
      counts := counts[c := counts[c] + 1];
    }
  }

  /** Moves every center to the mean of its members, or re-seeds it when it has none. */
  method MoveLoop(xs: seq<Vec>, s: Clustering, n: nat, sums: seq<Vec>, counts: seq<nat>)
    returns (centers: seq<Vec>, reseeded: bool)
    requires Lloyd.Valid(xs, s, n) && |sums| == |counts| == |s.centers|
    requires forall c :: 0 <= c < |sums| ==>
               sums[c] == Sum(xs, s.assign, c, n, |xs|) && counts[c] == Count(s.assign, c, |xs|)
    ensures centers == MoveTo(xs, s, n, |s.centers|)
    ensures reseeded <==> !AllUsed(s)
  {
    centers, reseeded := s.centers, false;
    ghost var empty := -1;
    for c := 0 to |s.centers|
      invariant centers == MoveTo(xs, s, n, c)
      invariant reseeded ==> 0 <= empty < c && counts[empty] == 0
      invariant !reseeded ==> forall b :: 0 <= b < c ==> counts[b] > 0
    {
      centers := MoveOne(xs, s, n, centers, c, sums[c], counts[c]);
      if counts[c] == 0 {
        reseeded, empty := true, c;
      }
    }
  }

  method MoveOne(xs: seq<Vec>, ghost s: Clustering, n: nat, centers: seq<Vec>, c: nat, sum: Vec, count: nat)
    returns (moved: seq<Vec>)
    requires Lloyd.Valid(xs, s, n) && c < |s.centers| && centers == MoveTo(xs, s, n, c)
    requires sum == Sum(xs, s.assign, c, n, |xs|) && count == Count(s.assign, c, |xs|)
    ensures moved == MoveTo(xs, s, n, c + 1)
  {
    assert MoveTo(xs, s, n, c + 1) == MoveNext(xs, s, n, c);
    if count > 0 {
      return centers[c := Divide(sum, count as real)];
    }
    var best := 0;
    if |centers| > 1 {
      var bestDist;
      best, bestDist := FarthestLoop(xs, Others(centers, c), n);
    }
    moved := centers[c := xs[best]];
  }

  /** One pass; the assignment is updated in place. */
  method PassOnce(xs: seq<Vec>, centers: seq<Vec>, assign: array<nat>, n: nat) returns (moved: seq<Vec>, quiet: bool)
    requires assign.Length == |xs| && Lloyd.Valid(xs, Clustering(centers, assign[..]), n)
    modifies assign
    ensures Clustering(moved, assign[..]) == Pass(xs, Clustering(centers, old(assign[..])), n)
    ensures quiet == Quiet(xs, Clustering(centers, old(assign[..])), n)
  {
    var changed := AssignLoop(xs, centers, n, assign);
    var mid := Clustering(centers, assign[..]);
    var sums, counts := Tally(xs, mid.assign, n, |centers|);
    var reseeded;
    moved, reseeded := MoveLoop(xs, mid, n, sums, counts);
    quiet := !changed && !reseeded;
    assert AllUsed(mid) <==> AllUsed(Clustering(moved, mid.assign));
  }

  method PassLoop(xs: seq<Vec>, seeds: seq<Vec>, n: nat, limit: nat) returns (s: Clustering)
    requires |xs| > 0 && Points(xs, n) && |seeds| > 0 && Points(seeds, n)
    ensures s == Passes(xs, Clustering(seeds, seq(|xs|, _ => 0)), n, limit)
  {
    var assign := new nat[|xs|](_ => 0);
    var centers := seeds;
    ghost var now := Clustering(seeds, seq(|xs|, _ => 0));
    ghost var target := Passes(xs, now, n, limit);
    assert assign[..] == now.assign;
    var iter := 0;
    while iter < limit
      invariant iter <= limit && assign.Length == |xs|
      invariant now == Clustering(centers, assign[..]) && Lloyd.Valid(xs, now, n)
      invariant target == Passes(xs, now, n, limit - iter)
    {
      var quiet;
      ghost var before := now;
      centers, quiet := PassOnce(xs, centers, assign, n);
      now := Clustering(centers, assign[..]);
      PassesStep(xs, before, n, limit - iter, now);
      if quiet {
        return Clustering(centers, assign[..]);
      }
      iter := iter + 1;
    }
    s := Clustering(centers, assign[..]);
  }

  /** Seeding, passes, and one projected pole for each cluster with members. */
  method DiscoverLoop(polytope: EthicalPolytope, xs: seq<Vec>, k: int, limit: nat) returns (poles: seq<RegionPole>)
    requires polytope.Valid() && Points(xs, |polytope.center|)
    ensures poles == Discovered(polytope.facets, polytope.center, xs, k, limit)
  {
    poles := [];
    if |xs| == 0 {
      return;
    }
    var n := |polytope.center|;
    var seeds := SeedLoop(xs, n, ClampRegions(k, |xs|));
    var s := PassLoop(xs, seeds, n, limit);
    poles := PoleLoop(polytope, xs, s);
  }

  method PoleLoop(polytope: EthicalPolytope, xs: seq<Vec>, s: Clustering) returns (poles: seq<RegionPole>)
    requires polytope.Valid() && Lloyd.Valid(xs, s, |polytope.center|)
    ensures poles == PolesTo(polytope.facets, polytope.center, xs, s, |s.centers|)
  {
    poles := [];
    var sums, counts := Tally(xs, s.assign, |polytope.center|, |s.centers|);
    for c := 0 to |s.centers|
      invariant poles == PolesTo(polytope.facets, polytope.center, xs, s, c)
    {
      if counts[c] != 0 {
        var raw := Divide(sums[c], counts[c] as real);
        var center := polytope.Project(raw);
        poles := poles + [RegionPole(center, counts[c])];
      }
    }
  }

  class RegionPoleEngine {
    const polytope: EthicalPolytope
    var poles: seq<RegionPole>

    constructor (b: Bounds)
      ensures fresh(polytope) && polytope.Valid() && poles == []
      ensures polytope.facets == LatticeOf(b) && polytope.center == Center(b)
    {
      polytope := new EthicalPolytope(b);
      poles := [];
    }

    /** Replaces the poles by those of the given memories. */
    method Discover(xs: seq<Vec>, k: int)
      requires polytope.Valid() && Points(xs, DIMENSIONS)
      modifies this`poles
      ensures poles == Discovered(polytope.facets, polytope.center, xs, k, MAX_PASSES)
    {
      poles := [];
      poles := DiscoverLoop(polytope, xs, k, MAX_PASSES);
    }
  }
}
