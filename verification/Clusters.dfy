/** Farthest-first seeding and Lloyd passes over a list of points, and what they optimise. */
module Clusters {
  import opened Vectors

  const DISTINCT: real := 0.000000000001

  ghost predicate Points(xs: seq<Vec>, n: nat) {
    forall p :: 0 <= p < |xs| ==> |xs[p]| == n
  }

  // ---------------------------------------------------------------------------------------------
  // Nearest centers and farthest points
  // ---------------------------------------------------------------------------------------------

  /** The squared distance from x to the nearest of the first k centers. */
  function NearestDistance(centers: seq<Vec>, x: Vec, k: nat): real
    requires 0 < k <= |centers| && Points(centers, |x|)
  {
    var d := Dist2(x, centers[k - 1]);
    if k == 1 then d else if d < NearestDistance(centers, x, k - 1) then d else NearestDistance(centers, x, k - 1)
  }

  /** The first center among the first k that is at the nearest distance. */
  function NearestIndex(centers: seq<Vec>, x: Vec, k: nat): (c: nat)
    requires 0 < k <= |centers| && Points(centers, |x|)
    ensures c < k
  {
    if k == 1 then 0
    else if Dist2(x, centers[k - 1]) < Dist2(x, centers[NearestIndex(centers, x, k - 1)]) then k - 1
    else NearestIndex(centers, x, k - 1)
  }

  /** The first point among the first k that is farthest from its nearest center. */
  function FarthestIndex(xs: seq<Vec>, centers: seq<Vec>, n: nat, k: nat): (p: nat)
    requires 0 < k <= |xs| && |centers| > 0 && Points(xs, n) && Points(centers, n)
    ensures p < k
  {
    if k == 1 then 0
    else
      var best := FarthestIndex(xs, centers, n, k - 1);
      if NearestDistance(centers, xs[k - 1], |centers|) > NearestDistance(centers, xs[best], |centers|) then k - 1
      else best
  }

  /** The squared covering radius of the centers. */
  function Radius(xs: seq<Vec>, centers: seq<Vec>, n: nat): real
    requires |xs| > 0 && |centers| > 0 && Points(xs, n) && Points(centers, n)
  {
    NearestDistance(centers, xs[FarthestIndex(xs, centers, n, |xs|)], |centers|)
  }

  lemma {:induction false} NearestDistanceBelow(centers: seq<Vec>, x: Vec, k: nat, c: nat)
    requires c < k <= |centers| && Points(centers, |x|)
    ensures NearestDistance(centers, x, k) <= Dist2(x, centers[c])
  {
    if c < k - 1 {
      NearestDistanceBelow(centers, x, k - 1, c);
    }
  }

  lemma {:induction false} NearestDistanceAttained(centers: seq<Vec>, x: Vec, k: nat)
    requires 0 < k <= |centers| && Points(centers, |x|)
    ensures NearestDistance(centers, x, k) == Dist2(x, centers[NearestIndex(centers, x, k)])
  {
    if k > 1 {
      NearestDistanceAttained(centers, x, k - 1);
    }
  }

  /** The nearest index is that of a nearest center, and the first such. */
  lemma {:induction false} NearestIsFirst(centers: seq<Vec>, x: Vec, k: nat, c: nat)
    requires c < k <= |centers| && Points(centers, |x|)
    ensures var a := NearestIndex(centers, x, k);
            && Dist2(x, centers[a]) <= Dist2(x, centers[c])
            && (c < a ==> Dist2(x, centers[a]) < Dist2(x, centers[c]))
  {
    if c < k - 1 {
      NearestIsFirst(centers, x, k - 1, c);
    } else if k > 1 {
      NearestIsFirst(centers, x, k - 1, 0);
    }
  }

  lemma {:induction false} NearestDistanceNonneg(centers: seq<Vec>, x: Vec, k: nat)
    requires 0 < k <= |centers| && Points(centers, |x|)
    ensures NearestDistance(centers, x, k) >= 0.0
  {
    NearestDistanceAttained(centers, x, k);
    Dist2Nonneg(x, centers[NearestIndex(centers, x, k)]);
  }

  lemma {:induction false} FarthestIsFarthest(xs: seq<Vec>, centers: seq<Vec>, n: nat, k: nat, p: nat)
    requires p < k <= |xs| && |centers| > 0 && Points(xs, n) && Points(centers, n)
    ensures NearestDistance(centers, xs[p], |centers|)
            <= NearestDistance(centers, xs[FarthestIndex(xs, centers, n, k)], |centers|)
  {
    if p < k - 1 {
      FarthestIsFarthest(xs, centers, n, k - 1, p);
    }
  }

  /** Adding a center never moves a point away from its nearest one. */
  lemma {:induction false} MoreCentersAreNearer(centers: seq<Vec>, more: seq<Vec>, x: Vec, k: nat)
    requires 0 < k <= |centers| && Points(centers, |x|) && Points(more, |x|)
    ensures NearestDistance(centers + more, x, k) == NearestDistance(centers, x, k)
    ensures NearestDistance(centers + more, x, |centers + more|) <= NearestDistance(centers, x, |centers|)
  {
    NearestDistancePrefix(centers, more, x, k);
    var c := NearestIndex(centers, x, |centers|);
    NearestDistanceAttained(centers, x, |centers|);
    NearestDistanceBelow(centers + more, x, |centers + more|, c);
    assert (centers + more)[c] == centers[c];
  }

  lemma {:induction false} NearestDistancePrefix(centers: seq<Vec>, more: seq<Vec>, x: Vec, k: nat)
    requires 0 < k <= |centers| && Points(centers, |x|) && Points(more, |x|)
    ensures NearestDistance(centers + more, x, k) == NearestDistance(centers, x, k)
  {
    assert (centers + more)[k - 1] == centers[k - 1];
    if k > 1 {
      NearestDistancePrefix(centers, more, x, k - 1);
    }
  }

  // ---------------------------------------------------------------------------------------------
  // Farthest-first seeding
  // ---------------------------------------------------------------------------------------------

  /** Adds the farthest point to the seeds until there are k of them or no point is far from one. */
  function Grow(xs: seq<Vec>, seeds: seq<Vec>, n: nat, k: nat): (r: seq<Vec>)
    requires |xs| > 0 && 0 < |seeds| <= k && Points(xs, n) && Points(seeds, n)
    ensures |seeds| <= |r| <= k && Points(r, n) && r[..|seeds|] == seeds
    decreases k - |seeds|
  {
    if |seeds| == k then seeds
    else
      var p := FarthestIndex(xs, seeds, n, |xs|);
      if NearestDistance(seeds, xs[p], |seeds|) < DISTINCT then seeds
      else Grow(xs, seeds + [xs[p]], n, k)
  }

  lemma RadiusShrinks(xs: seq<Vec>, seeds: seq<Vec>, more: seq<Vec>, n: nat)
    requires |xs| > 0 && |seeds| > 0 && Points(xs, n) && Points(seeds, n) && Points(more, n)
    ensures Radius(xs, seeds + more, n) <= Radius(xs, seeds, n)
  {
    var p := FarthestIndex(xs, seeds + more, n, |xs|);
    MoreCentersAreNearer(seeds, more, xs[p], |seeds|);
    FarthestIsFarthest(xs, seeds, n, |xs|, p);
  }

  /** All seeds from index `from` on are points of xs, at squared distance at least r from every
      earlier seed. */
  ghost predicate Spread(xs: seq<Vec>, seeds: seq<Vec>, n: nat, from: nat, r: real)
    requires Points(seeds, n)
  {
    && (forall j :: from <= j < |seeds| ==> seeds[j] in xs)
    && (forall i, j :: 0 <= i < j < |seeds| && from <= j ==> Dist2(seeds[j], seeds[i]) >= r)
  }

  /** Growing ends with k seeds, or with every point within DISTINCT (squared) of a seed; and every
      seed it adds is at least the final covering radius away from all earlier ones. */
  lemma {:induction false} GrowSpreads(xs: seq<Vec>, seeds: seq<Vec>, n: nat, k: nat, from: nat)
    requires |xs| > 0 && 0 < |seeds| <= k && Points(xs, n) && Points(seeds, n)
    requires Spread(xs, seeds, n, from, Radius(xs, seeds, n))
    ensures var r := Grow(xs, seeds, n, k);
            && Spread(xs, r, n, from, Radius(xs, r, n))
            && (|r| < k ==> Radius(xs, r, n) < DISTINCT)
    decreases k - |seeds|
  {
    if |seeds| < k {
      var p := FarthestIndex(xs, seeds, n, |xs|);
      if NearestDistance(seeds, xs[p], |seeds|) >= DISTINCT {
        var next := seeds + [xs[p]];
        RadiusShrinks(xs, seeds, [xs[p]], n);
        forall i, j | 0 <= i < j < |next| && from <= j ensures Dist2(next[j], next[i]) >= Radius(xs, next, n) {
          if j == |seeds| {
            NearestDistanceBelow(seeds, xs[p], |seeds|, i);
          }
        }
        GrowSpreads(xs, next, n, k, from);
      }
    }
  }

  /** Every point has one of the centers within squared radius r. */
  ghost predicate Covers(xs: seq<Vec>, centers: seq<Vec>, n: nat, r: real)
    requires Points(xs, n) && Points(centers, n)
  {
    forall x :: x in xs ==> exists c :: c in centers && |c| == |x| && Dist2(x, c) <= r
  }

  /** k items in fewer than k boxes: two share one. */
  lemma {:induction false} Pigeonhole(boxes: seq<nat>, m: nat) returns (i: nat, j: nat)
    requires |boxes| > m && forall q :: 0 <= q < |boxes| ==> boxes[q] < m
    ensures i < j < |boxes| && boxes[i] == boxes[j]
    decreases m
  {
    if q :| 0 <= q < |boxes| - 1 && boxes[q] == boxes[|boxes| - 1] {
      i, j := q, |boxes| - 1;
    } else {
      var last := boxes[|boxes| - 1];
      var rest := seq(|boxes| - 1, q requires 0 <= q < |boxes| - 1 => if boxes[q] > last then boxes[q] - 1 else boxes[q]);
      forall q | 0 <= q < |rest| ensures rest[q] < m - 1 {
        assert boxes[q] != last;
      }
      i, j := Pigeonhole(rest, m - 1);
      assert boxes[i] != last && boxes[j] != last;
    }
  }

  /** Points of xs that are pairwise at least r apart (squared) cannot be covered within r/4 by fewer
      centers than there are points. */
  lemma SpreadNeedsCenters(xs: seq<Vec>, far: seq<Vec>, centers: seq<Vec>, n: nat, r: real, cover: real)
    requires Points(xs, n) && Points(far, n) && Points(centers, n) && |centers| < |far|
    requires (forall i :: 0 <= i < |far| ==> far[i] in xs)
    requires (forall i, j :: 0 <= i < j < |far| ==> Dist2(far[j], far[i]) >= r)
    requires Covers(xs, centers, n, cover)
    ensures r <= 4.0 * cover
  {
    var boxes: seq<nat> := [];
    while |boxes| < |far|
      invariant |boxes| <= |far|
      invariant forall q :: 0 <= q < |boxes| ==> boxes[q] < |centers| && Dist2(far[q], centers[boxes[q]]) <= cover
    {
      var x := far[|boxes|];
      assert x in xs;
      var c :| c in centers && |c| == |x| && Dist2(x, c) <= cover;
      var b :| 0 <= b < |centers| && centers[b] == c;
      boxes := boxes + [b];
    }
    var i, j := Pigeonhole(boxes, |centers|);
    var c := centers[boxes[i]];
    assert Dist2(far[i], c) <= cover && Dist2(far[j], c) <= cover;
    Dist2Symmetric(c, far[i]);
    RelaxedTriangle(far[j], c, far[i]);
  }

  /** The seeds behind the first, and the point farthest from all of them. */
  ghost function FarPoints(xs: seq<Vec>, seeds: seq<Vec>, n: nat): seq<Vec>
    requires |xs| > 0 && |seeds| > 0 && Points(xs, n) && Points(seeds, n)
  {
    seeds[1..] + [xs[FarthestIndex(xs, seeds, n, |xs|)]]
  }

  lemma FarApart(xs: seq<Vec>, seeds: seq<Vec>, n: nat, i: nat, j: nat)
    requires |xs| > 0 && |seeds| > 0 && Points(xs, n) && Points(seeds, n) && i < j < |seeds|
    requires Spread(xs, seeds, n, 1, Radius(xs, seeds, n))
    ensures var far := FarPoints(xs, seeds, n); Dist2(far[j], far[i]) >= Radius(xs, seeds, n)
  {
    var far := FarPoints(xs, seeds, n);
    assert far[i] == seeds[i + 1];
    if j < |seeds| - 1 {
      assert far[j] == seeds[j + 1];
    } else {
      NearestDistanceBelow(seeds, far[j], |seeds|, i + 1);
    }
  }

  /** Farthest-first seeding is within a factor four in squared distance: unless every point is within
      DISTINCT of a seed, no k - 1 centers cover the points within less than a quarter of the seeds'
      squared covering radius. The first seed may be any point at all (the source takes the mean). */
  lemma {:induction false} SeedingIsNearOptimal(
    xs: seq<Vec>, anchor: Vec, n: nat, k: nat, centers: seq<Vec>, cover: real)
    requires |xs| > 0 && k > 0 && |anchor| == n && Points(xs, n)
    requires Points(centers, n) && |centers| < k && Covers(xs, centers, n, cover)
    ensures var seeds := Grow(xs, [anchor], n, k);
            Radius(xs, seeds, n) < DISTINCT || Radius(xs, seeds, n) <= 4.0 * cover
  {
    var seeds := Grow(xs, [anchor], n, k);
    GrowSpreads(xs, [anchor], n, k, 1);
    if |seeds| == k {
      var r := Radius(xs, seeds, n);
      var far := FarPoints(xs, seeds, n);
      forall i | 0 <= i < |far| ensures far[i] in xs {
        if i < k - 1 {
          assert far[i] == seeds[i + 1];
        }
      }
      forall i, j | 0 <= i < j < |far| ensures Dist2(far[j], far[i]) >= r {
        FarApart(xs, seeds, n, i, j);
      }
      SpreadNeedsCenters(xs, far, centers, n, r, cover);
    }
  }
}
