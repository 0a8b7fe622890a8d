/** Lloyd passes with empty-cluster re-seeding. */
module Lloyd {
  import opened Vectors
  import opened Projection
  import opened Clusters

  /** Centers, and for every point the index of its center. */
  datatype Clustering = Clustering(centers: seq<Vec>, assign: seq<nat>)

  ghost predicate Valid(xs: seq<Vec>, s: Clustering, n: nat) {
    && |xs| > 0 && Points(xs, n)
    && |s.centers| > 0 && Points(s.centers, n)
    && |s.assign| == |xs| && forall p :: 0 <= p < |xs| ==> s.assign[p] < |s.centers|
  }

  /** How many of the first k points are assigned to c. */
  function Count(assign: seq<nat>, c: nat, k: nat): nat
    requires k <= |assign|
  {
    if k == 0 then 0 else Count(assign, c, k - 1) + if assign[k - 1] == c then 1 else 0
  }

  /** The vector sum of those points. */
  function Sum(xs: seq<Vec>, assign: seq<nat>, c: nat, n: nat, k: nat): (r: Vec)
    requires k <= |assign| == |xs| && Points(xs, n)
    ensures |r| == n
  {
    if k == 0 then Zeros(n)
    else if assign[k - 1] == c then AddScaled(Sum(xs, assign, c, n, k - 1), 1.0, xs[k - 1])
    else Sum(xs, assign, c, n, k - 1)
  }

  function Divide(v: Vec, m: real): (r: Vec)
    requires m != 0.0
    ensures |r| == |v|
  {
    seq(|v|, i requires 0 <= i < |v| => v[i] / m)
  }

  function Centroid(xs: seq<Vec>, assign: seq<nat>, c: nat, n: nat): (r: Vec)
    requires |assign| == |xs| && Points(xs, n) && Count(assign, c, |xs|) > 0
    ensures |r| == n
  {
    Divide(Sum(xs, assign, c, n, |xs|), Count(assign, c, |xs|) as real)
  }

  function Others(centers: seq<Vec>, skip: nat): seq<Vec>
    requires skip < |centers|
  {
    centers[..skip] + centers[skip + 1..]
  }

  /** The point farthest from every center but one. */
  function Reseed(xs: seq<Vec>, centers: seq<Vec>, skip: nat, n: nat): (p: nat)
    requires |xs| > 0 && skip < |centers| && Points(xs, n) && Points(centers, n)
    ensures p < |xs|
  {
    if |centers| == 1 then 0 else FarthestIndex(xs, Others(centers, skip), n, |xs|)
  }

  function Reassign(xs: seq<Vec>, centers: seq<Vec>, n: nat): (r: seq<nat>)
    requires |centers| > 0 && Points(xs, n) && Points(centers, n)
    ensures |r| == |xs|
  {
    seq(|xs|, p requires 0 <= p < |xs| => NearestIndex(centers, xs[p], |centers|))
  }

  /** The centers after the first k clusters were moved: to the mean of their members, or, when they
      have none, to the point farthest from all the other centers. */
  function MoveTo(xs: seq<Vec>, s: Clustering, n: nat, k: nat): (r: seq<Vec>)
    requires Valid(xs, s, n) && k <= |s.centers|
    ensures |r| == |s.centers| && Points(r, n)
    decreases k, 0
  {
    if k == 0 then s.centers else MoveNext(xs, s, n, k - 1)
  }

  function MoveNext(xs: seq<Vec>, s: Clustering, n: nat, k: nat): (r: seq<Vec>)
    requires Valid(xs, s, n) && k < |s.centers|
    ensures |r| == |s.centers| && Points(r, n)
    decreases k, 1
  {
    var before := MoveTo(xs, s, n, k);
    before[k := if Count(s.assign, k, |xs|) > 0 then Centroid(xs, s.assign, k, n) else xs[Reseed(xs, before, k, n)]]
  }

  /** Where center c stands among the others. */
  function PlaceAmong(skip: nat, c: nat): nat {
    if c < skip || c == 0 then c else c - 1
  }

  lemma OthersAt(centers: seq<Vec>, skip: nat, c: nat)
    requires skip < |centers| && c < |centers| && c != skip
    ensures PlaceAmong(skip, c) < |Others(centers, skip)| == |centers| - 1
    ensures Others(centers, skip)[PlaceAmong(skip, c)] == centers[c]
  {
  }

  lemma OthersHavePoints(centers: seq<Vec>, skip: nat, n: nat)
    requires skip < |centers| && Points(centers, n)
    ensures Points(Others(centers, skip), n)
  {
  }

  /** None of the other centers is nearer than d (squared) to x. */
  ghost predicate OthersBeyond(centers: seq<Vec>, skip: nat, x: Vec, d: real) {
    && Points(centers, |x|)
    && forall c :: 0 <= c < |centers| && c != skip ==> d <= Dist2(x, centers[c])
  }

  lemma OtherFrom(centers: seq<Vec>, skip: nat, others: seq<Vec>, x: Vec, c: nat, i: nat)
    requires skip < |centers| && c < |centers| && c != skip && Points(centers, |x|) && Points(others, |x|)
    requires others == Others(centers, skip) && i == PlaceAmong(skip, c)
    ensures 0 < |others| && NearestDistance(others, x, |others|) <= Dist2(x, centers[c])
  {
    OthersAt(centers, skip, c);
    NearestDistanceBelow(others, x, |others|, i);
  }

  lemma OthersFrom(centers: seq<Vec>, skip: nat, others: seq<Vec>, x: Vec, d: real)
    requires skip < |centers| && Points(centers, |x|) && Points(others, |x|) && |others| > 0
    requires others == Others(centers, skip) && d == NearestDistance(others, x, |others|)
    ensures OthersBeyond(centers, skip, x, d)
  {
    forall c | 0 <= c < |centers| && c != skip ensures d <= Dist2(x, centers[c]) {
      OtherFrom(centers, skip, others, x, c, PlaceAmong(skip, c));
    }
  }

  lemma NearestOther(centers: seq<Vec>, skip: nat, x: Vec, n: nat) returns (b: nat)
    requires skip < |centers| && |centers| > 1 && Points(centers, n) && |x| == n
    requires Points(Others(centers, skip), n)
    ensures b < |centers| && b != skip
    ensures Dist2(x, centers[b]) == NearestDistance(Others(centers, skip), x, |centers| - 1)
  {
    var others := Others(centers, skip);
    NearestDistanceAttained(others, x, |others|);
    var i := NearestIndex(others, x, |others|);
    b := if i < skip then i else i + 1;
    OthersAt(centers, skip, b);
  }

  /** The memory a center without members is moved to, q, against any other, p. */
  lemma ReseedIsFarthest(xs: seq<Vec>, centers: seq<Vec>, skip: nat, n: nat, p: nat) returns (b: nat)
    requires |xs| > 0 && skip < |centers| && |centers| > 1 && Points(xs, n) && Points(centers, n) && p < |xs|
    ensures b < |centers| && b != skip
    ensures OthersBeyond(centers, skip, xs[Reseed(xs, centers, skip, n)], Dist2(xs[p], centers[b]))
  {
    var others := Others(centers, skip);
    OthersHavePoints(centers, skip, n);
    FarthestIsFarthest(xs, others, n, |xs|, p);
    b := NearestOther(centers, skip, xs[p], n);
    var y := xs[Reseed(xs, centers, skip, n)];
    OthersFrom(centers, skip, others, y, NearestDistance(others, y, |others|));
  }

  /** A center without members is moved to a memory, and no memory p is farther from its nearest other center, as
      the centers stand then: one of them, b, is no farther from p than any of them is from the moved center. */
  lemma {:induction false} ReseededIsFarthest(xs: seq<Vec>, s: Clustering, n: nat, k: nat, p: nat) returns (b: nat)
    requires Valid(xs, s, n) && k < |s.centers| && |s.centers| > 1 && Count(s.assign, k, |xs|) == 0 && p < |xs|
    ensures b < |s.centers| && b != k && MoveTo(xs, s, n, k + 1)[k] in xs
    ensures var r := MoveTo(xs, s, n, k + 1);
            forall c :: 0 <= c < |r| && c != k ==> Dist2(xs[p], r[b]) <= Dist2(r[k], r[c])
  {
    var before, r := MoveTo(xs, s, n, k), MoveTo(xs, s, n, k + 1);
    assert r == MoveNext(xs, s, n, k);
    b := ReseedIsFarthest(xs, before, k, n, p);
    assert OthersBeyond(before, k, r[k], Dist2(xs[p], before[b]));
    forall c | 0 <= c < |r| && c != k ensures Dist2(xs[p], r[b]) <= Dist2(r[k], r[c]) {
      assert r[c] == before[c] && r[b] == before[b];
    }
  }

  /** Each center is moved once: where it stands then is where the pass leaves it. */
  lemma {:induction false} MovedOnce(xs: seq<Vec>, s: Clustering, n: nat, k: nat, m: nat)
    requires Valid(xs, s, n) && k < m <= |s.centers|
    ensures MoveTo(xs, s, n, m)[k] == MoveTo(xs, s, n, k + 1)[k]
  {
    if k + 1 < m {
      MovedOnce(xs, s, n, k, m - 1);
      assert MoveTo(xs, s, n, m) == MoveNext(xs, s, n, m - 1);
    }
  }

  /** In a pass every memory goes to its nearest center, the first of several. */
  lemma PassAssigns(xs: seq<Vec>, s: Clustering, n: nat, p: nat, c: nat)
    requires Valid(xs, s, n) && p < |xs| && c < |s.centers|
    ensures var a := Pass(xs, s, n).assign[p];
            && Dist2(xs[p], s.centers[a]) <= Dist2(xs[p], s.centers[c])
            && (c < a ==> Dist2(xs[p], s.centers[a]) < Dist2(xs[p], s.centers[c]))
  {
    NearestIsFirst(s.centers, xs[p], |s.centers|, c);
  }

  predicate AllUsed(s: Clustering) {
    forall c :: 0 <= c < |s.centers| ==> Count(s.assign, c, |s.assign|) > 0
  }

  /** One pass: assign every point to its nearest center, then move the centers. */
  function Pass(xs: seq<Vec>, s: Clustering, n: nat): (r: Clustering)
    requires Valid(xs, s, n)
    ensures Valid(xs, r, n) && |r.centers| == |s.centers|
  {
    var mid := Clustering(s.centers, Reassign(xs, s.centers, n));
    Clustering(MoveTo(xs, mid, n, |s.centers|), mid.assign)
  }

  /** A pass that changed no assignment and re-seeded no center. */
  predicate Quiet(xs: seq<Vec>, s: Clustering, n: nat)
    requires Valid(xs, s, n)
  {
    Pass(xs, s, n).assign == s.assign && AllUsed(Pass(xs, s, n))
  }

  /** At most k passes, stopping after a quiet one. */
  function Passes(xs: seq<Vec>, s: Clustering, n: nat, k: nat): (r: Clustering)
    requires Valid(xs, s, n)
    ensures Valid(xs, r, n) && |r.centers| == |s.centers|
    decreases k
  {
    if k == 0 then s
    else if Quiet(xs, s, n) then Pass(xs, s, n)
    else Passes(xs, Pass(xs, s, n), n, k - 1)
  }

  lemma {:induction false} PassesStep(xs: seq<Vec>, s: Clustering, n: nat, k: nat, next: Clustering)
    requires Valid(xs, s, n) && k > 0 && next == Pass(xs, s, n)
    ensures Passes(xs, s, n, k) == if Quiet(xs, s, n) then next else Passes(xs, next, n, k - 1)
  {
  }

  // ---------------------------------------------------------------------------------------------
  // The cost
  // ---------------------------------------------------------------------------------------------

  /** The squared distances of the first k points to their assigned centers, added up. */
  ghost function Cost(xs: seq<Vec>, s: Clustering, n: nat, k: nat): real
    requires Valid(xs, s, n) && k <= |xs|
  {
    if k == 0 then 0.0 else Cost(xs, s, n, k - 1) + Dist2(xs[k - 1], s.centers[s.assign[k - 1]])
  }

  ghost function TotalCost(xs: seq<Vec>, s: Clustering, n: nat): real
    requires Valid(xs, s, n)
  {
    Cost(xs, s, n, |xs|)
  }

  lemma {:induction false} ReassignLowersCost(xs: seq<Vec>, s: Clustering, n: nat, k: nat)
    requires Valid(xs, s, n) && k <= |xs|
    ensures Cost(xs, Clustering(s.centers, Reassign(xs, s.centers, n)), n, k) <= Cost(xs, s, n, k)
  {
    if k > 0 {
      ReassignLowersCost(xs, s, n, k - 1);
      NearestDistanceAttained(s.centers, xs[k - 1], |s.centers|);
      NearestDistanceBelow(s.centers, xs[k - 1], |s.centers|, s.assign[k - 1]);
    }
  }

  /** The part of the cost that comes from members of c, were their center at z. */
  ghost function ClusterCost(xs: seq<Vec>, assign: seq<nat>, c: nat, z: Vec, n: nat, k: nat): real
    requires k <= |assign| == |xs| && Points(xs, n) && |z| == n
  {
    if k == 0 then 0.0
    else ClusterCost(xs, assign, c, z, n, k - 1) + if assign[k - 1] == c then Dist2(xs[k - 1], z) else 0.0
  }

  /** Moving one center changes only its own members' part. */
  lemma {:induction false} MovingOneCenter(xs: seq<Vec>, s: Clustering, c: nat, z: Vec, n: nat, k: nat)
    requires Valid(xs, s, n) && c < |s.centers| && |z| == n && k <= |xs|
    requires Valid(xs, Clustering(s.centers[c := z], s.assign), n)
    ensures Cost(xs, Clustering(s.centers[c := z], s.assign), n, k) - ClusterCost(xs, s.assign, c, z, n, k)
            == Cost(xs, s, n, k) - ClusterCost(xs, s.assign, c, s.centers[c], n, k)
  {
    if k > 0 {
      MovingOneCenter(xs, s, c, z, n, k - 1);
    }
  }

  /** sum of the squared norms of the members */
  ghost function Norms(xs: seq<Vec>, assign: seq<nat>, c: nat, n: nat, k: nat): real
    requires k <= |assign| == |xs| && Points(xs, n)
  {
    if k == 0 then 0.0
    else Norms(xs, assign, c, n, k - 1) + if assign[k - 1] == c then Dot(xs[k - 1], xs[k - 1]) else 0.0
  }

  lemma Dist2Expanded(x: Vec, z: Vec)
    requires |x| == |z|
    ensures Dist2(x, z) == Dot(x, x) - 2.0 * Dot(z, x) + Dot(z, z)
  {
    var t := -1.0;
    assert Minus(x, z) == AddScaled(x, t, z);
    var zx, zz := Dot(z, x), Dot(z, z);
    NormAddScaled(x, t, z, zx, zz);
    assert t * zx == -zx && t * t * zz == zz;
  }

  /** The cost of a cluster is a quadratic in its center. */
  lemma {:induction false} ClusterCostExpanded(
    xs: seq<Vec>, assign: seq<nat>, c: nat, z: Vec, n: nat, k: nat, zz: real, m: real)
    requires k <= |assign| == |xs| && Points(xs, n) && |z| == n
    requires zz == Dot(z, z) && m == Count(assign, c, k) as real
    ensures ClusterCost(xs, assign, c, z, n, k)
            == Norms(xs, assign, c, n, k) - 2.0 * Dot(z, Sum(xs, assign, c, n, k)) + m * zz
  {
    if k == 0 {
      DotZeros(z, n);
      assert m * zz == 0.0;
    } else if assign[k - 1] == c {
      var m' := m - 1.0;
      ClusterCostExpanded(xs, assign, c, z, n, k - 1, zz, m');
      Dist2Expanded(xs[k - 1], z);
      DotAddScaled(z, Sum(xs, assign, c, n, k - 1), 1.0, xs[k - 1]);
      assert m * zz == m' * zz + zz;
    } else {
      ClusterCostExpanded(xs, assign, c, z, n, k - 1, zz, m);
    }
  }

  lemma DivideScales(v: Vec, m: real)
    requires m != 0.0
    ensures Scale(m, Divide(v, m)) == v
  {
    forall i | 0 <= i < |v| ensures Scale(m, Divide(v, m))[i] == v[i] {
      MultiplyBack(v[i], m, v[i] / m);
    }
  }

  lemma MultiplyBack(v: real, m: real, q: real)
    requires m != 0.0 && q == v / m
    ensures m * q == v
  {
  }

  lemma {:induction false} CentroidCosts(xs: seq<Vec>, assign: seq<nat>, c: nat, z: Vec, n: nat, m: real)
    requires |assign| == |xs| && Points(xs, n) && |z| == n
    requires Count(assign, c, |xs|) > 0 && m == Count(assign, c, |xs|) as real
    ensures ClusterCost(xs, assign, c, z, n, |xs|)
            == ClusterCost(xs, assign, c, Centroid(xs, assign, c, n), n, |xs|) + m * Dist2(Centroid(xs, assign, c, n), z)
  {
    var mean, sum := Centroid(xs, assign, c, n), Sum(xs, assign, c, n, |xs|);
    var zz, mm, zm := Dot(z, z), Dot(mean, mean), Dot(z, mean);
    ClusterCostExpanded(xs, assign, c, z, n, |xs|, zz, m);
    ClusterCostExpanded(xs, assign, c, mean, n, |xs|, mm, m);
    DivideScales(sum, m);
    DotScale(z, m, mean);
    DotScale(mean, m, mean);
    Dist2Expanded(mean, z);
    CentroidArithmetic(m, zz, mm, zm, Dist2(mean, z));
  }

  /** The mean is the best center: any other costs more by the count times the squared distance. */
  lemma {:induction false} CentroidIsBest(xs: seq<Vec>, assign: seq<nat>, c: nat, z: Vec, n: nat)
    requires |assign| == |xs| && Points(xs, n) && |z| == n && Count(assign, c, |xs|) > 0
    ensures var mean := Centroid(xs, assign, c, n);
            ClusterCost(xs, assign, c, z, n, |xs|)
            == ClusterCost(xs, assign, c, mean, n, |xs|) + Times(Count(assign, c, |xs|) as real, Dist2(mean, z))
  {
    CentroidCosts(xs, assign, c, z, n, Count(assign, c, |xs|) as real);
  }

  lemma CentroidArithmetic(m: real, zz: real, mm: real, zm: real, d: real)
    requires d == mm - 2.0 * zm + zz
    ensures -2.0 * (m * zm) + m * zz == -2.0 * (m * mm) + m * mm + m * d
  {
    assert m * d == m * mm - 2.0 * (m * zm) + m * zz;
  }

  lemma {:induction false} EmptyClusterCostsNothing(xs: seq<Vec>, assign: seq<nat>, c: nat, z: Vec, n: nat, k: nat)
    requires k <= |assign| == |xs| && Points(xs, n) && |z| == n && Count(assign, c, k) == 0
    ensures ClusterCost(xs, assign, c, z, n, k) == 0.0
  {
    if k > 0 {
      EmptyClusterCostsNothing(xs, assign, c, z, n, k - 1);
    }
  }

  lemma {:induction false} MovingLowersCost(xs: seq<Vec>, s: Clustering, n: nat, k: nat)
    requires Valid(xs, s, n) && k <= |s.centers|
    ensures Valid(xs, Clustering(MoveTo(xs, s, n, k), s.assign), n)
    ensures TotalCost(xs, Clustering(MoveTo(xs, s, n, k), s.assign), n) <= TotalCost(xs, s, n)
  {
    if k > 0 {
      MovingLowersCost(xs, s, n, k - 1);
      var before := Clustering(MoveTo(xs, s, n, k - 1), s.assign);
      var z, was, c := MoveTo(xs, s, n, k)[k - 1], before.centers[k - 1], k - 1;
      assert MoveTo(xs, s, n, k) == MoveNext(xs, s, n, k - 1);
      MovingOneCenter(xs, before, c, z, n, |xs|);
      if Count(s.assign, c, |xs|) > 0 {
        var m, d := Count(s.assign, c, |xs|) as real, Dist2(z, was);
        CentroidCosts(xs, s.assign, c, was, n, m);
        Dist2Nonneg(z, was);
        ProductNonneg(m, d, m * d);
      } else {
        EmptyClusterCostsNothing(xs, s.assign, c, z, n, |xs|);
        EmptyClusterCostsNothing(xs, s.assign, c, was, n, |xs|);
      }
    }
  }

  /** No pass raises the sum of squared distances to the assigned centers, not even one that re-seeds
      an empty cluster. */
  lemma {:induction false} PassLowersCost(xs: seq<Vec>, s: Clustering, n: nat)
    requires Valid(xs, s, n)
    ensures TotalCost(xs, Pass(xs, s, n), n) <= TotalCost(xs, s, n)
  {
    var mid := Clustering(s.centers, Reassign(xs, s.centers, n));
    ReassignLowersCost(xs, s, n, |xs|);
    MovingLowersCost(xs, mid, n, |s.centers|);
  }

  lemma {:induction false} PassesLowerCost(xs: seq<Vec>, s: Clustering, n: nat, k: nat)
    requires Valid(xs, s, n)
    ensures TotalCost(xs, Passes(xs, s, n, k), n) <= TotalCost(xs, s, n)
    decreases k
  {
    if k > 0 {
      PassLowersCost(xs, s, n);
      if !Quiet(xs, s, n) {
        PassesLowerCost(xs, Pass(xs, s, n), n, k - 1);
      }
    }
  }

  /** Every point with its nearest center. */
  function WithNearest(xs: seq<Vec>, centers: seq<Vec>, n: nat): (r: Clustering)
    requires |xs| > 0 && |centers| > 0 && Points(xs, n) && Points(centers, n)
    ensures Valid(xs, r, n)
  {
    Clustering(centers, Reassign(xs, centers, n))
  }

  /** However the points were assigned before, a pass costs no more than giving every point its nearest
      center; and so do any passes from the first on. */
  lemma {:induction false} PassesBeatNearest(xs: seq<Vec>, s: Clustering, n: nat, k: nat)
    requires Valid(xs, s, n) && k > 0
    ensures TotalCost(xs, Passes(xs, s, n, k), n) <= TotalCost(xs, WithNearest(xs, s.centers, n), n)
  {
    MovingLowersCost(xs, WithNearest(xs, s.centers, n), n, |s.centers|);
    PassesStep(xs, s, n, k, Pass(xs, s, n));
    PassesLowerCost(xs, Pass(xs, s, n), n, k - 1);
  }

  lemma NearestWithinRadius(xs: seq<Vec>, centers: seq<Vec>, n: nat, p: nat, radius: real)
    requires |xs| > 0 && |centers| > 0 && Points(xs, n) && Points(centers, n) && p < |xs|
    requires radius == Radius(xs, centers, n)
    ensures Dist2(xs[p], centers[Reassign(xs, centers, n)[p]]) <= radius
  {
    NearestDistanceAttained(centers, xs[p], |centers|);
    FarthestIsFarthest(xs, centers, n, |xs|, p);
  }

  lemma OneMoreShare(m: real, radius: real, cost: real, share: real)
    requires cost <= Times(m - 1.0, radius) && share <= radius
    ensures cost + share <= Times(m, radius)
  {
    assert m * radius == (m - 1.0) * radius + radius;
  }

  /** No point is farther (squared) than r from its center. */
  ghost predicate EachWithin(xs: seq<Vec>, s: Clustering, n: nat, r: real)
    requires Valid(xs, s, n)
  {
    forall p :: 0 <= p < |xs| ==> Dist2(xs[p], s.centers[s.assign[p]]) <= r
  }

  lemma {:induction false} CostsAtMost(xs: seq<Vec>, s: Clustering, n: nat, k: nat, m: real, r: real)
    requires Valid(xs, s, n) && k <= |xs| && m == k as real && EachWithin(xs, s, n, r)
    ensures Cost(xs, s, n, k) <= Times(m, r)
  {
    if k > 0 {
      CostsAtMost(xs, s, n, k - 1, m - 1.0, r);
      OneMoreShare(m, r, Cost(xs, s, n, k - 1), Dist2(xs[k - 1], s.centers[s.assign[k - 1]]));
    } else {
      assert Times(m, r) == 0.0;
    }
  }

  /** Nearest centers cost each point at most the squared covering radius. */
  lemma NearestCostsRadius(xs: seq<Vec>, centers: seq<Vec>, n: nat, m: real, radius: real)
    requires |xs| > 0 && |centers| > 0 && Points(xs, n) && Points(centers, n)
    requires m == |xs| as real && radius == Radius(xs, centers, n)
    ensures TotalCost(xs, WithNearest(xs, centers, n), n) <= Times(m, radius)
  {
    var s := WithNearest(xs, centers, n);
    forall p | 0 <= p < |xs| ensures Dist2(xs[p], s.centers[s.assign[p]]) <= radius {
      NearestWithinRadius(xs, centers, n, p, radius);
    }
    CostsAtMost(xs, s, n, |xs|, m, radius);
  }

  // ---------------------------------------------------------------------------------------------
  // The early exit
  // ---------------------------------------------------------------------------------------------

  /** Every center with members is their mean. */
  ghost predicate Centered(xs: seq<Vec>, s: Clustering, n: nat)
    requires Valid(xs, s, n)
  {
    forall c :: 0 <= c < |s.centers| && Count(s.assign, c, |xs|) > 0 ==> s.centers[c] == Centroid(xs, s.assign, c, n)
  }

  /** Every point is assigned to a nearest center (the first such), every cluster has members, and
      every center is the mean of its members. */
  ghost predicate Stable(xs: seq<Vec>, s: Clustering, n: nat)
    requires Valid(xs, s, n)
  {
    s.assign == Reassign(xs, s.centers, n) && AllUsed(s) && Centered(xs, s, n)
  }

  lemma {:induction false} MoveToAt(xs: seq<Vec>, s: Clustering, n: nat, k: nat, c: nat)
    requires Valid(xs, s, n) && c < k <= |s.centers| && Count(s.assign, c, |xs|) > 0
    ensures MoveTo(xs, s, n, k)[c] == Centroid(xs, s.assign, c, n)
  {
    assert MoveTo(xs, s, n, k) == MoveNext(xs, s, n, k - 1);
    if c < k - 1 {
      MoveToAt(xs, s, n, k - 1, c);
    }
  }

  lemma {:induction false} PassIsCentered(xs: seq<Vec>, s: Clustering, n: nat)
    requires Valid(xs, s, n)
    ensures Centered(xs, Pass(xs, s, n), n)
  {
    var mid := Clustering(s.centers, Reassign(xs, s.centers, n));
    var r := Pass(xs, s, n);
    forall c | 0 <= c < |r.centers| && Count(r.assign, c, |xs|) > 0
      ensures r.centers[c] == Centroid(xs, r.assign, c, n)
    {
      MoveToAt(xs, mid, n, |s.centers|, c);
    }
  }

  lemma {:induction false} ZeroAssignment(assign: seq<nat>, c: nat, k: nat)
    requires k <= |assign| && c > 0 && forall p :: 0 <= p < |assign| ==> assign[p] == 0
    ensures Count(assign, c, k) == 0
  {
    if k > 0 {
      ZeroAssignment(assign, c, k - 1);
    }
  }

  /** A quiet pass ends in a stable clustering, whether it follows another pass or is the very first
      one, which starts with every point assigned to center 0. */
  lemma {:induction false} QuietIsStable(xs: seq<Vec>, s: Clustering, n: nat)
    requires Valid(xs, s, n) && Quiet(xs, s, n)
    requires Centered(xs, s, n) || forall p :: 0 <= p < |xs| ==> s.assign[p] == 0
    ensures Stable(xs, Pass(xs, s, n), n)
  {
    var r := Pass(xs, s, n);
    PassIsCentered(xs, s, n);
    if Centered(xs, s, n) {
      forall c | 0 <= c < |r.centers| ensures r.centers[c] == s.centers[c] {
        assert Count(r.assign, c, |xs|) > 0;
      }
      assert r.centers == s.centers;
    } else {
      if |r.centers| > 1 {
        ZeroAssignment(r.assign, 1, |xs|);
        assert false;
      }
      assert r.assign == Reassign(xs, r.centers, n);
    }
  }

  /** One of the first k passes is quiet: the loop stops before it runs out of passes. */
  predicate StopsEarly(xs: seq<Vec>, s: Clustering, n: nat, k: nat)
    requires Valid(xs, s, n)
    decreases k
  {
    k > 0 && (Quiet(xs, s, n) || StopsEarly(xs, Pass(xs, s, n), n, k - 1))
  }

  /** When the loop stops early it has reached a stable clustering. */
  lemma {:induction false} EarlyExitIsStable(xs: seq<Vec>, s: Clustering, n: nat, k: nat)
    requires Valid(xs, s, n) && StopsEarly(xs, s, n, k)
    requires Centered(xs, s, n) || forall p :: 0 <= p < |xs| ==> s.assign[p] == 0
    ensures Stable(xs, Passes(xs, s, n, k), n)
    decreases k
  {
    if Quiet(xs, s, n) {
      QuietIsStable(xs, s, n);
    } else {
      PassIsCentered(xs, s, n);
      EarlyExitIsStable(xs, Pass(xs, s, n), n, k - 1);
    }
  }

  // ---------------------------------------------------------------------------------------------

  /** The member counts of the first c clusters among the first k points, added up. */
  ghost function CountsTo(assign: seq<nat>, c: nat, k: nat): nat
    requires k <= |assign|
  {
    if c == 0 then 0 else CountsTo(assign, c - 1, k) + Count(assign, c - 1, k)
  }

  lemma {:induction false} CountsAddUp(assign: seq<nat>, c: nat, k: nat)
    requires k <= |assign|
    ensures k > 0 ==>
      CountsTo(assign, c, k) == CountsTo(assign, c, k - 1) + if assign[k - 1] < c then 1 else 0
    ensures k == 0 ==> CountsTo(assign, c, k) == 0
  {
    if c > 0 {
      CountsAddUp(assign, c - 1, k);
    }
  }

  /** When every assignment is below c, the counts of the first c clusters add up to all the points. */
  lemma {:induction false} CountsPartition(assign: seq<nat>, c: nat, k: nat)
    requires k <= |assign| && forall p :: 0 <= p < |assign| ==> assign[p] < c
    ensures CountsTo(assign, c, k) == k
  {
    CountsAddUp(assign, c, k);
    if k > 0 {
      CountsPartition(assign, c, k - 1);
    }
  }
}
