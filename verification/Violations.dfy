/** What the membership check reports of the facets a point violates. */
module Violations {
  import opened Vectors
  import opened Projection
  import opened Lattice

  datatype Kind = AboveMaximum | BelowMinimum | FacetItself

  /** One violated facet: its place in the lattice, which stands for its name; the dimension it bounds, or
      NO_DIMENSION; and how far the point is past it. */
  datatype Violation = Violation(
    facet: nat, dimension: int, kind: Kind, value: real, bound: real, severity: real)

  const NO_DIMENSION: int := -1
  const SEVERAL: int := -2

  /** The one coordinate among the first k that is not zero, NO_DIMENSION, or SEVERAL. */
  function AxisTo(a: Vec, k: nat): (r: int)
    requires k <= |a|
    ensures SEVERAL <= r < k
  {
    if k == 0 then NO_DIMENSION
    else
      var before := AxisTo(a, k - 1);
      if a[k - 1] == 0.0 then before else if before == NO_DIMENSION then k - 1 else SEVERAL
  }

  /** A quotient, or zero when there is nothing to divide by. */
  function Ratio(v: real, norm: real): real {
    if norm != 0.0 then v / norm else 0.0
  }

  function Report(f: nat, facet: Facet, x: Vec): Violation
    requires |facet.normal| == |x|
  {
    var a := facet.normal;
    var axis := AxisTo(a, |a|);
    if axis >= 0 then
      Violation(f, axis, if a[axis] > 0.0 then AboveMaximum else BelowMinimum,
                x[axis], facet.threshold, Excess(facet, x))
    else
      Violation(f, NO_DIMENSION, FacetItself, Ratio(Dot(a, x), Dot(a, a)), Ratio(facet.threshold, Dot(a, a)),
                Ratio(Excess(facet, x), Dot(a, a)))
  }

  /** The reports of the facets among the first k that x violates, in order. */
  function ReportsTo(fs: seq<Facet>, x: Vec, k: nat): seq<Violation>
    requires WellFormed(fs, |x|) && k <= |fs|
  {
    if k == 0 then []
    else ReportsTo(fs, x, k - 1) + if Excess(fs[k - 1], x) > 0.0 then [Report(k - 1, fs[k - 1], x)] else []
  }

  ghost predicate Reported(reports: seq<Violation>, f: nat) {
    exists i :: 0 <= i < |reports| && reports[i].facet == f
  }

  /** A facet is reported exactly when it is violated, each once and in the lattice's order. */
  lemma {:induction false} ReportedIff(fs: seq<Facet>, x: Vec, k: nat, f: nat)
    requires WellFormed(fs, |x|) && k <= |fs|
    ensures Reported(ReportsTo(fs, x, k), f) <==> f < k && Excess(fs[f], x) > 0.0
    ensures var reports := ReportsTo(fs, x, k);
            && (forall i :: 0 <= i < |reports| ==>
                  reports[i].facet < k && reports[i] == Report(reports[i].facet, fs[reports[i].facet], x))
            && (forall i, j :: 0 <= i < j < |reports| ==> reports[i].facet < reports[j].facet)
  {
    if k > 0 {
      ReportedIff(fs, x, k - 1, f);
      var before, reports := ReportsTo(fs, x, k - 1), ReportsTo(fs, x, k);
      assert forall i :: 0 <= i < |before| ==> reports[i] == before[i];
      if Excess(fs[k - 1], x) > 0.0 {
        assert reports[|before|].facet == k - 1;
      }
    }
  }

  /** Nothing is reported exactly when nothing is violated. */
  lemma {:induction false} NothingReported(fs: seq<Facet>, x: Vec, k: nat)
    requires WellFormed(fs, |x|) && k <= |fs|
    ensures ReportsTo(fs, x, k) == [] <==> forall f :: 0 <= f < k ==> Excess(fs[f], x) <= 0.0
  {
    if k > 0 {
      NothingReported(fs, x, k - 1);
    }
  }

  lemma {:induction false} UnitAxis(n: nat, i: nat, v: real, k: nat)
    requires i < n && k <= n && v != 0.0
    ensures AxisTo(Unit(n, i, v), k) == if i < k then i else NO_DIMENSION
  {
    if k > 0 {
      UnitAxis(n, i, v, k - 1);
    }
  }

  lemma {:induction false} PairAxis(n: nat, p: nat, u: real, q: nat, v: real, k: nat)
    requires p < n && q < n && p != q && k <= n && u != 0.0 && v != 0.0
    ensures AxisTo(Pair(n, p, u, q, v), k)
         == if p < k && q < k then SEVERAL else if p < k then p else if q < k then q else NO_DIMENSION
  {
    if k > 0 {
      PairAxis(n, p, u, q, v, k - 1);
    }
  }

  /** What is reported of a bound: its dimension, the side, and how far the coordinate is past it. The bound
      itself is reported for a maximum; for a minimum its negative is, which is the bound exactly when the
      minimum is zero. */
  lemma BoundReport(lower: Vec, upper: Vec, cs: seq<Coupling>, x: Vec, i: nat)
    requires |lower| == |upper| == |x| && i < |x|
    ensures WellFormed(Facets(lower, upper, cs), |x|)
    ensures var fs := Facets(lower, upper, cs);
            && Report(2 * i, fs[2 * i], x) == Violation(2 * i, i, AboveMaximum, x[i], upper[i], x[i] - upper[i])
            && Report(2 * i + 1, fs[2 * i + 1], x)
               == Violation(2 * i + 1, i, BelowMinimum, x[i], -lower[i], lower[i] - x[i])
            && (Report(2 * i + 1, fs[2 * i + 1], x).bound == lower[i] <==> lower[i] == 0.0)
  {
    var n := |x|;
    FacetsWellFormed(lower, upper, cs);
    BoundsAt(lower, upper, cs, i);
    AxisExcess(lower, upper, i, x);
    UnitAxis(n, i, 1.0, n);
    UnitAxis(n, i, -1.0, n);
  }

  lemma PairReport(f: nat, facet: Facet, x: Vec, p: nat, u: real, q: nat, v: real)
    requires p < |x| && q < |x| && p != q && (u == 1.0 || u == -1.0) && (v == 1.0 || v == -1.0)
    requires facet.normal == Pair(|x|, p, u, q, v)
    ensures var r := Report(f, facet, x);
            && r.dimension == NO_DIMENSION && r.kind == FacetItself
            && r.severity == Excess(facet, x) / 2.0 && r.value == Dot(facet.normal, x) / 2.0
            && r.bound == facet.threshold / 2.0
  {
    PairAxis(|x|, p, u, q, v, |x|);
    NormOfPair(|x|, p, u, q, v);
  }

  /** What is reported of a principle pair: no dimension, half the difference or sum of its two coordinates with
      half its bound, and half of what the lead lacks or the sum is over. */
  lemma CouplingReport(lower: Vec, upper: Vec, cs: seq<Coupling>, x: Vec, j: nat)
    requires |lower| == |upper| == |x| && Pairs(cs, |x|) && j < |cs|
    ensures WellFormed(Facets(lower, upper, cs), |x|)
    ensures var fs, f := Facets(lower, upper, cs), 2 * |x| + 2 * j;
            var lead, sum := Report(f, fs[f], x), Report(f + 1, fs[f + 1], x);
            && lead.dimension == sum.dimension == NO_DIMENSION && lead.kind == sum.kind == FacetItself
            && lead.facet == f && sum.facet == f + 1
            && lead.severity == (cs[j].lead - (x[cs[j].pos] - x[cs[j].neg])) / 2.0
            && lead.value == (x[cs[j].neg] - x[cs[j].pos]) / 2.0 && lead.bound == -cs[j].lead / 2.0
            && sum.severity == (x[cs[j].pos] + x[cs[j].neg] - cs[j].sum) / 2.0
            && sum.value == (x[cs[j].pos] + x[cs[j].neg]) / 2.0 && sum.bound == cs[j].sum / 2.0
  {
    var f, c, fs := 2 * |x| + 2 * j, cs[j], Facets(lower, upper, cs);
    FacetsWellFormed(lower, upper, cs);
    PairFacetsAt(lower, upper, cs, j);
    CouplingExcess(c, x);
    PairReport(f, fs[f], x, c.pos, -1.0, c.neg, 1.0);
    PairReport(f + 1, fs[f + 1], x, c.pos, 1.0, c.neg, 1.0);
  }
}
