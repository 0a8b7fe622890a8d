/** The alignment score: the smallest margin to an ethical wall, relative to the center's. */
module Alignment {
  import opened Vectors
  import opened Projection

  /** The margins b - a.x of the walls among the first k facets, in order. */
  function Margins(fs: seq<Facet>, x: Vec, k: nat): seq<real>
    requires WellFormed(fs, |x|) && k <= |fs|
  {
    if k == 0 then []
    else Margins(fs, x, k - 1) + if fs[k - 1].critical then [-Excess(fs[k - 1], x)] else []
  }

  function Min(a: real, b: real): real {
    if b < a then b else a
  }

  /** The smallest of the first k numbers. */
  function Least(ms: seq<real>, k: nat): real
    requires 0 < k <= |ms|
  {
    if k == 1 then ms[0] else Min(Least(ms, k - 1), ms[k - 1])
  }

  ghost predicate HasWall(fs: seq<Facet>) {
    exists f :: 0 <= f < |fs| && fs[f].critical
  }

  lemma {:induction false} WallsHaveMargins(fs: seq<Facet>, x: Vec, k: nat)
    requires WellFormed(fs, |x|) && k <= |fs| && exists f :: 0 <= f < k && fs[f].critical
    ensures |Margins(fs, x, k)| > 0
  {
    if !fs[k - 1].critical {
      WallsHaveMargins(fs, x, k - 1);
    }
  }

  ghost function LeastMargin(fs: seq<Facet>, x: Vec): real
    requires WellFormed(fs, |x|) && HasWall(fs)
  {
    WallsHaveMargins(fs, x, |fs|);
    Least(Margins(fs, x, |fs|), |Margins(fs, x, |fs|)|)
  }

  function Clamp(r: real): real {
    if r < 0.0 then 0.0 else if r > 1.0 then 1.0 else r
  }

  /** Zero outside P; inside, the least margin over the center's least margin, kept in [0, 1]. */
  ghost function Score(fs: seq<Facet>, center: Vec, x: Vec): real
    requires WellFormed(fs, |x|) && |center| == |x| && HasWall(fs)
  {
    if !Inside(fs, x) || LeastMargin(fs, center) <= 0.0 then 0.0
    else Clamp(LeastMargin(fs, x) / LeastMargin(fs, center))
  }

  // ---------------------------------------------------------------------------------------------

  lemma {:induction false} LeastIsLeast(ms: seq<real>, k: nat)
    requires 0 < k <= |ms|
    ensures forall i :: 0 <= i < k ==> Least(ms, k) <= ms[i]
    ensures exists i :: 0 <= i < k && Least(ms, k) == ms[i]
  {
    if k == 1 {
      assert Least(ms, k) == ms[0];
    } else {
      LeastIsLeast(ms, k - 1);
      if Least(ms, k) == Least(ms, k - 1) {
        var i :| 0 <= i < k - 1 && Least(ms, k - 1) == ms[i];
        assert Least(ms, k) == ms[i];
      } else {
        assert Least(ms, k) == ms[k - 1];
      }
    }
  }

  /** t x + (1 - t) y */
  function Mix(t: real, x: Vec, y: Vec): (r: Vec)
    requires |x| == |y|
    ensures |r| == |x|
  {
    AddScaled(y, t, Minus(x, y))
  }

  lemma ExcessOfMix(facet: Facet, t: real, x: Vec, y: Vec, ex: real, ey: real)
    requires |facet.normal| == |x| == |y| && ex == Excess(facet, x) && ey == Excess(facet, y)
    ensures Excess(facet, Mix(t, x, y)) == ey + t * (ex - ey)
  {
    var a := facet.normal;
    var d := ex - ey;
    DotAddScaled(a, y, t, Minus(x, y));
    DotMinus(a, x, y);
    assert Dot(a, Minus(x, y)) == d;
  }

  /** t u + (1 - t) v */
  function Blend(t: real, u: real, v: real): real {
    v + t * (u - v)
  }

  /** Blending two numbers that are both at least m gives at least m; here against another blend. */
  lemma BlendMonotone(t: real, u: real, v: real, u': real, v': real)
    requires 0.0 <= t <= 1.0 && u <= u' && v <= v'
    ensures v + t * (u - v) <= v' + t * (u' - v')
  {
    var s, du, dv := 1.0 - t, u' - u, v' - v;
    var a, b := t * du, s * dv;
    ProductNonneg(t, du, a);
    ProductNonneg(s, dv, b);
    assert (v' + t * (u' - v')) - (v + t * (u - v)) == a + b;
  }

  lemma BlendOfEqual(t: real, m: real)
    ensures m + t * (m - m) == m
  {
  }

  /** P is convex. */
  lemma InsideIsConvex(fs: seq<Facet>, t: real, x: Vec, y: Vec)
    requires |x| == |y| && WellFormed(fs, |x|) && Inside(fs, x) && Inside(fs, y) && 0.0 <= t <= 1.0
    ensures Inside(fs, Mix(t, x, y))
  {
    forall f | 0 <= f < |fs| ensures Excess(fs[f], Mix(t, x, y)) <= 0.0 {
      var ex, ey := Excess(fs[f], x), Excess(fs[f], y);
      ExcessOfMix(fs[f], t, x, y, ex, ey);
      BlendMonotone(t, ex, ey, 0.0, 0.0);
      BlendOfEqual(t, 0.0);
    }
  }

  lemma {:induction false} MarginsOfMix(fs: seq<Facet>, t: real, x: Vec, y: Vec, k: nat)
    requires |x| == |y| && WellFormed(fs, |x|) && k <= |fs|
    ensures var mx, my, mz := Margins(fs, x, k), Margins(fs, y, k), Margins(fs, Mix(t, x, y), k);
            |mx| == |my| == |mz| && forall i :: 0 <= i < |mz| ==> Blends(mz[i], t, mx[i], my[i])
  {
    if k > 0 {
      MarginsOfMix(fs, t, x, y, k - 1);
      var facet := fs[k - 1];
      var ex, ey := Excess(facet, x), Excess(facet, y);
      ExcessOfMix(facet, t, x, y, ex, ey);
      assert -(ey + t * (ex - ey)) == -ey + t * (-ex - -ey);
    }
  }

  ghost predicate Blends(z: real, t: real, u: real, v: real) {
    z == v + t * (u - v)
  }

  lemma BlendBelow(z: real, t: real, u: real, v: real, u': real, v': real)
    requires 0.0 <= t <= 1.0 && u <= u' && v <= v' && Blends(z, t, u', v')
    ensures z >= v + t * (u - v)
  {
    BlendMonotone(t, u, v, u', v');
  }

  lemma LeastMarginBlends(fs: seq<Facet>, t: real, x: Vec, y: Vec, u: real, v: real)
    requires |x| == |y| && WellFormed(fs, |x|) && HasWall(fs) && 0.0 <= t <= 1.0
    requires u == LeastMargin(fs, x) && v == LeastMargin(fs, y)
    ensures LeastMargin(fs, Mix(t, x, y)) >= v + t * (u - v)
  {
    var z := Mix(t, x, y);
    var mx, my, mz := Margins(fs, x, |fs|), Margins(fs, y, |fs|), Margins(fs, z, |fs|);
    MarginsOfMix(fs, t, x, y, |fs|);
    WallsHaveMargins(fs, z, |fs|);
    LeastIsLeast(mx, |mx|);
    LeastIsLeast(my, |my|);
    LeastIsLeast(mz, |mz|);
    var i :| 0 <= i < |mz| && Least(mz, |mz|) == mz[i];
    assert Blends(mz[i], t, mx[i], my[i]);
    BlendBelow(mz[i], t, u, v, mx[i], my[i]);
  }

  /** The least margin is concave: at a blend it is at least the blend of the least margins. */
  lemma LeastMarginConcave(fs: seq<Facet>, t: real, x: Vec, y: Vec)
    requires |x| == |y| && WellFormed(fs, |x|) && HasWall(fs) && 0.0 <= t <= 1.0
    ensures LeastMargin(fs, Mix(t, x, y)) >= Blend(t, LeastMargin(fs, x), LeastMargin(fs, y))
  {
    LeastMarginBlends(fs, t, x, y, LeastMargin(fs, x), LeastMargin(fs, y));
  }

  /** Dividing by the center's margin and clamping keeps concavity, for margins that are not negative. */
  lemma ClampConcave(t: real, u: real, v: real, w: real, c: real)
    requires 0.0 <= t <= 1.0 && c > 0.0 && u >= 0.0 && v >= 0.0 && w >= v + t * (u - v)
    ensures Clamp(w / c) >= Clamp(v / c) + t * (Clamp(u / c) - Clamp(v / c))
  {
    QuotientScales(u, c);
    QuotientScales(v, c);
    QuotientScales(w, c);
    QuotientBlend(t, u / c, v / c, w / c, c, u, v, w);
    ClampBlend(t, u / c, v / c, w / c);
  }

  /** Clamping a blend of numbers that are not negative keeps concavity. */
  lemma ClampBlend(t: real, p: real, q: real, r: real)
    requires 0.0 <= t <= 1.0 && p >= 0.0 && q >= 0.0 && r >= q + t * (p - q)
    ensures Clamp(r) >= Clamp(q) + t * (Clamp(p) - Clamp(q))
  {
    BlendMonotone(t, Clamp(p), Clamp(q), p, q);
    BlendMonotone(t, Clamp(p), Clamp(q), 1.0, 1.0);
    BlendOfEqual(t, 1.0);
  }

  lemma QuotientScales(u: real, c: real)
    requires c > 0.0
    ensures u / c * c == u
    ensures u >= 0.0 ==> u / c >= 0.0
  {
    QuotientSigns(u, c, u / c);
  }

  /** A quotient of blends is a blend of quotients. */
  lemma QuotientBlend(t: real, p: real, q: real, r: real, c: real, u: real, v: real, w: real)
    requires c > 0.0 && p * c == u && q * c == v && r * c == w && w >= v + t * (u - v)
    ensures r >= q + t * (p - q)
  {
    var d := t * (p - q);
    var blend := q + d;
    ScaledDifference(t, p, q, c, d);
    assert blend * c == q * c + d * c;
    if r < blend {
      ScaleStrict(c, r, blend);
    }
  }

  lemma ScaledDifference(t: real, p: real, q: real, c: real, d: real)
    requires d == t * (p - q)
    ensures d * c == t * (p * c - q * c)
  {
    var e := p - q;
    assert e * c == p * c - q * c;
    assert (t * e) * c == t * (e * c);
  }

  lemma ScaleStrict(c: real, r: real, s: real)
    requires c > 0.0 && r < s
    ensures r * c < s * c
  {
    ProductPositive(s - r, c, (s - r) * c);
    assert (s - r) * c == s * c - r * c;
  }

  lemma InsideMeansMargin(fs: seq<Facet>, x: Vec)
    requires WellFormed(fs, |x|) && HasWall(fs) && Inside(fs, x)
    ensures LeastMargin(fs, x) >= 0.0
  {
    var ms := Margins(fs, x, |fs|);
    WallsHaveMargins(fs, x, |fs|);
    MarginsAreExcesses(fs, x, |fs|, 0.0);
    LeastIsLeast(ms, |ms|);
  }

  /** All of the numbers are at least m. */
  ghost predicate AllAtLeast(ms: seq<real>, m: real) {
    forall i :: 0 <= i < |ms| ==> ms[i] >= m
  }

  lemma OneMoreAtLeast(ms: seq<real>, last: real, m: real)
    ensures AllAtLeast(ms + [last], m) <==> AllAtLeast(ms, m) && last >= m
  {
    var all := ms + [last];
    assert all[|ms|] == last;
    assert forall i :: 0 <= i < |ms| ==> all[i] == ms[i];
  }

  /** Every wall among the first k facets leaves the point room m. */
  ghost predicate WallsLeave(fs: seq<Facet>, x: Vec, k: nat, m: real)
    requires WellFormed(fs, |x|) && k <= |fs|
  {
    forall f :: 0 <= f < k && fs[f].critical ==> Excess(fs[f], x) <= -m
  }

  /** Every margin is at least m exactly when every wall leaves room m. */
  lemma {:induction false} MarginsAreExcesses(fs: seq<Facet>, x: Vec, k: nat, m: real)
    requires WellFormed(fs, |x|) && k <= |fs|
    ensures AllAtLeast(Margins(fs, x, k), m) <==> WallsLeave(fs, x, k, m)
  {
    if k > 0 {
      MarginsAreExcesses(fs, x, k - 1, m);
      assert WallsLeave(fs, x, k, m)
        <==> WallsLeave(fs, x, k - 1, m) && (fs[k - 1].critical ==> Excess(fs[k - 1], x) <= -m);
      OneMoreAtLeast(Margins(fs, x, k - 1), -Excess(fs[k - 1], x), m);
      assert !fs[k - 1].critical ==> Margins(fs, x, k) == Margins(fs, x, k - 1);
    }
  }

  /** The score lies in [0, 1], is 0 outside P, and is 1 at a center that keeps clear of the walls. */
  lemma ScoreRange(fs: seq<Facet>, center: Vec, x: Vec)
    requires WellFormed(fs, |x|) && |center| == |x| && HasWall(fs)
    ensures 0.0 <= Score(fs, center, x) <= 1.0
    ensures !Inside(fs, x) ==> Score(fs, center, x) == 0.0
    ensures Inside(fs, center) && LeastMargin(fs, center) > 0.0 ==> Score(fs, center, center) == 1.0
  {
    if LeastMargin(fs, center) > 0.0 {
      assert LeastMargin(fs, center) / LeastMargin(fs, center) == 1.0;
    }
  }

  /** With a center clear of the walls, a point scores above zero exactly when it is in P and clear of
      every wall, and scores one exactly when it is at least as clear of them as the center. */
  lemma ScoreSign(fs: seq<Facet>, center: Vec, x: Vec)
    requires WellFormed(fs, |x|) && |center| == |x| && HasWall(fs) && LeastMargin(fs, center) > 0.0
    ensures Score(fs, center, x) > 0.0 <==> Inside(fs, x) && LeastMargin(fs, x) > 0.0
    ensures Score(fs, center, x) == 1.0 <==> Inside(fs, x) && LeastMargin(fs, x) >= LeastMargin(fs, center)
  {
    var u, c := LeastMargin(fs, x), LeastMargin(fs, center);
    QuotientSigns(u, c, u / c);
  }

  lemma QuotientSigns(u: real, c: real, r: real)
    requires c > 0.0 && r == u / c
    ensures r >= 1.0 <==> u >= c
    ensures r > 0.0 <==> u > 0.0
    ensures r * c == u && (u >= 0.0 ==> r >= 0.0)
  {
    assert r * c == u;
    var d := (r - 1.0) * c;
    assert d == u - c;
    if r > 1.0 {
      ProductPositive(r - 1.0, c, d);
    } else if r < 1.0 {
      ProductPositive(1.0 - r, c, -d);
    }
    if r > 0.0 {
      ProductPositive(r, c, u);
    } else if r < 0.0 {
      ProductPositive(-r, c, -u);
    }
  }

  lemma ScoreBlends(fs: seq<Facet>, center: Vec, t: real, x: Vec, y: Vec, p: real, q: real)
    requires |x| == |y| == |center| && WellFormed(fs, |x|) && HasWall(fs) && 0.0 <= t <= 1.0
    requires Inside(fs, x) && Inside(fs, y) && p == Score(fs, center, x) && q == Score(fs, center, y)
    ensures Inside(fs, Mix(t, x, y)) && Score(fs, center, Mix(t, x, y)) >= q + t * (p - q)
  {
    var c := LeastMargin(fs, center);
    InsideIsConvex(fs, t, x, y);
    if c <= 0.0 {
      BlendOfEqual(t, 0.0);
    } else {
      var u, v, w := LeastMargin(fs, x), LeastMargin(fs, y), LeastMargin(fs, Mix(t, x, y));
      InsideMeansMargin(fs, x);
      InsideMeansMargin(fs, y);
      LeastMarginBlends(fs, t, x, y, u, v);
      ClampConcave(t, u, v, w, c);
    }
  }

  /** The score is concave on P. */
  lemma ScoreConcave(fs: seq<Facet>, center: Vec, t: real, x: Vec, y: Vec)
    requires |x| == |y| == |center| && WellFormed(fs, |x|) && HasWall(fs) && 0.0 <= t <= 1.0
    requires Inside(fs, x) && Inside(fs, y)
    ensures Inside(fs, Mix(t, x, y))
    ensures Score(fs, center, Mix(t, x, y)) >= Blend(t, Score(fs, center, x), Score(fs, center, y))
  {
    ScoreBlends(fs, center, t, x, y, Score(fs, center, x), Score(fs, center, y));
  }

  /** For every level above zero, the points that score at least the level form a convex set. */
  lemma LevelSetsConvex(fs: seq<Facet>, center: Vec, level: real, t: real, x: Vec, y: Vec)
    requires |x| == |y| == |center| && WellFormed(fs, |x|) && HasWall(fs) && 0.0 <= t <= 1.0
    requires level > 0.0 && Score(fs, center, x) >= level && Score(fs, center, y) >= level
    ensures Score(fs, center, Mix(t, x, y)) >= level
  {
    var p, q := Score(fs, center, x), Score(fs, center, y);
    ScoreBlends(fs, center, t, x, y, p, q);
    BlendMonotone(t, level, level, p, q);
    BlendOfEqual(t, level);
  }
}
