/** What `project` returns: every input ends next to the nearest point of a season's lattice. */
module Finish {
  import opened Vectors
  import opened Projection
  import opened Convergence
  import opened Landing
  import opened Lattice
  import opened EarlyExit
  import opened Rate
  import opened Alignment
  import opened CoupleNudges
  import opened Apart
  import Couple

  // ---------------------------------------------------------------------------------------------
  // Coordinates and distances
  // ---------------------------------------------------------------------------------------------

  function Square(v: real): real {
    v * v
  }

  lemma {:induction false} CoordinateSquare(d: Vec, c: nat, k: nat)
    requires c < k <= |d|
    ensures Square(d[c]) <= DotTo(d, d, k)
  {
    assert DotTo(d, d, k) == DotNext(d, d, k - 1);
    if c == k - 1 {
      DotToSelfNonneg(d, k - 1);
    } else {
      CoordinateSquare(d, c, k - 1);
      SquareNonneg(d[k - 1]);
    }
  }

  lemma SquareNonneg(v: real)
    ensures Square(v) >= 0.0
  {
  }

  lemma SquareBelow(v: real, m: real)
    requires -m <= v <= m
    ensures Square(v) <= Square(m)
  {
    if v >= 0.0 {
      SquareMonotone(v, m);
    } else {
      SquareMonotone(-v, m);
      assert -v * -v == v * v;
    }
  }

  lemma SquareAbove(v: real, m: real)
    requires Square(v) <= Square(m) && m >= 0.0
    ensures -m <= v <= m
  {
    if v > m {
      SquareGrows(m, v);
    } else if v < -m {
      SquareGrows(m, -v);
      SquareOfNegative(v);
    }
  }

  lemma SquareGrows(m: real, v: real)
    requires 0.0 <= m < v
    ensures Square(m) < Square(v)
  {
    ProductPositive(v - m, v + m, (v - m) * (v + m));
  }

  lemma SquareOfNegative(v: real)
    ensures Square(-v) == Square(v)
  {
  }

  /** Couple j of d is, squared, at most a share of couple j of e. */
  ghost predicate CoupleWithin(d: Vec, e: Vec, j: nat, share: real)
    requires |d| == |e| == DIMENSIONS && j < COUPLES
  {
    Square(d[2 * j]) + Square(d[2 * j + 1]) <= share * (Square(e[2 * j]) + Square(e[2 * j + 1]))
  }

  lemma ShareAdds(share: real, a: real, b: real, sum: real)
    requires sum == a + b
    ensures share * sum == share * a + share * b
  {
  }

  lemma {:induction false} CouplesAddUp(d: Vec, e: Vec, j: nat, share: real)
    requires |d| == |e| == DIMENSIONS && j <= COUPLES && AllWithin(d, e, share)
    ensures DotTo(d, d, 2 * j) <= share * DotTo(e, e, 2 * j)
  {
    if j == 0 {
      assert DotTo(d, d, 0) == 0.0 && DotTo(e, e, 0) == 0.0;
    } else {
      var i := j - 1;
      CouplesAddUp(d, e, i, share);
      assert CoupleWithin(d, e, i, share);
      TwoMore(d, i);
      TwoMore(e, i);
      ShareAdds(share, DotTo(e, e, 2 * i), Square(e[2 * i]) + Square(e[2 * i + 1]), DotTo(e, e, 2 * j));
    }
  }

  lemma TwoMore(d: Vec, i: nat)
    requires 2 * i + 1 < |d|
    ensures DotTo(d, d, 2 * (i + 1)) == DotTo(d, d, 2 * i) + (Square(d[2 * i]) + Square(d[2 * i + 1]))
  {
    assert DotTo(d, d, 2 * i + 1) == DotNext(d, d, 2 * i);
    assert DotTo(d, d, 2 * i + 2) == DotNext(d, d, 2 * i + 1);
  }

  // ---------------------------------------------------------------------------------------------
  // The sweeps end next to the nearest point
  // ---------------------------------------------------------------------------------------------

  lemma EnoughSweeps(cap: real, eta: real, i: nat) returns (n: nat)
    requires eta > 0.0 && cap >= 0.0
    ensures n >= i && n > 0 && cap <= n as real * eta
  {
    var q := cap / eta;
    assert q * eta == cap;
    QuotientSigns(cap, eta, q);
    n := if q.Floor + 1 >= i then q.Floor + 1 else i;
    assert q <= n as real;
    ScaleInequality(eta, q, n as real);
    assert eta * q == q * eta && eta * n as real == n as real * eta;
  }

  lemma RateBelow(n: real, dd: real, ee: real, cap: real)
    requires n > 0.0 && n * dd <= cap <= n * ee
    ensures dd <= ee
  {
    var d := dd - ee;
    assert n * d == n * dd - n * ee;
    if d > 0.0 {
      ProductPositive(n, d, n * d);
    }
  }

  /** Points that approach z at the rate of the sweeps. */
  ghost predicate Rated(y: nat -> Vec, z: Vec, far: real, near: real) {
    forall n: nat :: |y(n)| == |z| && (n > 0 ==> WithinRate(n as real, Dist2(y(n), z), far, near))
  }

  /** Some later point is as near to z as one likes. */
  lemma SomePointIsClose(y: nat -> Vec, z: Vec, far: real, near: real, i: nat, eta: real) returns (n: nat)
    requires Rated(y, z, far, near) && far >= 0.0 && near >= 0.0 && eta > 0.0
    ensures n >= i && Dist2(y(n), z) <= eta
  {
    var cap, ee := 52500.0 * (far * far * near), eta * eta;
    ProductNonneg(far, far, far * far);
    ProductNonneg(far * far, near, far * far * near);
    ProductPositive(eta, eta, ee);
    n := EnoughSweeps(cap, ee, i);
    var d := Dist2(y(n), z);
    Dist2Nonneg(y(n), z);
    assert WithinRate(n as real, d, far, near);
    RateBelow(n as real, d * d, ee, cap);
    SquareAbove(d, eta);
  }

  /** Coordinate c moves by at most `most` from point i on. */
  ghost predicate MovesAtMost(y: nat -> Vec, i: nat, c: nat, most: real) {
    forall n: nat :: n >= i ==> c < |y(n)| && c < |y(i)| && -most <= y(n)[c] - y(i)[c] <= most
  }

  /** ... and is then that near to z's. */
  lemma CoordinateIsClose(y: nat -> Vec, z: Vec, far: real, near: real, i: nat, c: nat, most: real)
    requires Rated(y, z, far, near) && far >= 0.0 && near >= 0.0 && c < |z| && MovesAtMost(y, i, c, most)
    ensures |y(i)| == |z| && -most <= y(i)[c] - z[c] <= most
  {
    var half := (Abs(y(i)[c] - z[c]) - most) / 2.0;
    if half > 0.0 {
      ProductPositive(half, half, Square(half));
      var n := SomePointIsClose(y, z, far, near, i, Square(half));
      CoordinateBelow(y(n), z, c, half);
    }
  }

  lemma CoordinateBelow(y: Vec, z: Vec, c: nat, m: real)
    requires |y| == |z| && c < |z| && m >= 0.0 && Dist2(y, z) <= Square(m)
    ensures -m <= y[c] - z[c] <= m
  {
    CoordinateSquare(Minus(y, z), c, |z|);
    SquareAbove(y[c] - z[c], m);
  }

  /** A lattice of usual couples around a center that keeps clear of every facet. */
  ghost predicate Made(fs: seq<Facet>, ks: seq<Couple.Rules>, center: Vec) {
    && MadeOf(fs, ks) && AllUsual(ks) && LatticeShaped(fs)
    && |center| == DIMENSIONS && Roomy(fs, center, 0.08)
    && forall j {:trigger Centered(center, ks[j], j)} :: 0 <= j < COUPLES ==> Centered(center, ks[j], j)
  }

  ghost predicate Centered(center: Vec, k: Couple.Rules, j: nat)
    requires |center| == DIMENSIONS && j < COUPLES
  {
    center[2 * j] == (k.lo + 1.0) / 2.0 && center[2 * j + 1] == k.up / 2.0
  }

  lemma SeasonIsMade(season: Season)
    ensures var b := SeasonalBounds(season); Made(LatticeOf(b), AllRules(b), Center(b))
  {
    var b := SeasonalBounds(season);
    LatticeIsMade(b);
    SeasonShape(b);
    CenterIsDeep(season);
    forall j | 0 <= j < COUPLES
      ensures Couple.Usual(AllRules(b)[j]) && Centered(Center(b), AllRules(b)[j], j)
    {
      SeasonIsUsual(season, j);
      PairAt(b, j);
      CenterAt(b, 2 * j);
      CenterAt(b, 2 * j + 1);
    }
  }

  /** The iterates as a sequence. */
  ghost function Iterates(fs: seq<Facet>, x: Vec): nat -> Vec
    requires WellFormed(fs, |x|)
  {
    (i: nat) => Sweeps(fs, Start(fs, x), i).y
  }

  lemma IteratesAreRated(fs: seq<Facet>, ks: seq<Couple.Rules>, center: Vec, x: Vec, z: Vec)
    requires Made(fs, ks, center) && |x| == |z| == DIMENSIONS && Nearest(fs, x, z)
    ensures Rated(Iterates(fs, x), z, Dist2(x, center), Dist2(x, z))
  {
    forall n: nat | n > 0 ensures WithinRate(n as real, Dist2(Iterates(fs, x)(n), z), Dist2(x, center), Dist2(x, z)) {
      SweepsApproach(fs, x, n, center, z);
    }
  }

  lemma IterateOfCouple(fs: seq<Facet>, ks: seq<Couple.Rules>, x: Vec, i: nat, j: nat)
    requires MadeOf(fs, ks) && |x| == DIMENSIONS && j < COUPLES
    ensures var y, s := Iterates(fs, x)(i), Couple.Swept(ks[j], x[2 * j], x[2 * j + 1], i);
            |y| == DIMENSIONS && y[2 * j] == s.p && y[2 * j + 1] == s.n
  {
    SweepsAreApart(fs, ks, x, i, j);
  }

  /** What couple j has still to do after i sweeps. */
  function GapOf(ks: seq<Couple.Rules>, x: Vec, j: nat, i: nat): real
    requires j < |ks| && 2 * j + 1 < |x|
  {
    Couple.GapsSeq(ks[j], x[2 * j], x[2 * j + 1])(i)
  }

  /** Points that follow couple j's sweeps. */
  ghost predicate Follows(y: nat -> Vec, k: Couple.Rules, px: real, py: real, c: nat) {
    forall n: nat :: |y(n)| > c + 1 && y(n)[c] == Couple.Swept(k, px, py, n).p && y(n)[c + 1] == Couple.Swept(k, px, py, n).n
  }

  lemma FollowersStayNear(y: nat -> Vec, k: Couple.Rules, px: real, py: real, c: nat, i: nat, g: real)
    requires Couple.Usual(k) && Follows(y, k, px, py, c) && g == Couple.GapsSeq(k, px, py)(i)
    ensures MovesAtMost(y, i + 1, c, 2.0 * g) && MovesAtMost(y, i + 1, c + 1, 2.0 * g)
  {
    forall n: nat | n >= i + 1
      ensures -2.0 * g <= y(n)[c] - y(i + 1)[c] <= 2.0 * g && -2.0 * g <= y(n)[c + 1] - y(i + 1)[c + 1] <= 2.0 * g
    {
      Couple.SweptStaysNear(k, px, py, i, n - 1, g);
    }
  }

  lemma IteratesFollow(fs: seq<Facet>, ks: seq<Couple.Rules>, x: Vec, j: nat)
    requires MadeOf(fs, ks) && |x| == DIMENSIONS && j < COUPLES
    ensures Follows(Iterates(fs, x), ks[j], x[2 * j], x[2 * j + 1], 2 * j)
  {
    forall n: nat
      ensures var y, s := Iterates(fs, x)(n), Couple.Swept(ks[j], x[2 * j], x[2 * j + 1], n);
              |y| == DIMENSIONS && y[2 * j] == s.p && y[2 * j + 1] == s.n
    {
      IterateOfCouple(fs, ks, x, n, j);
    }
  }

  /** A gap of at most 2 m over c. */
  ghost predicate GapWithin(c: real, g: real, m: real) {
    c * g <= 2.0 * m
  }

  /** At most twice a gap. */
  ghost predicate OffBy(d: real, g: real) {
    -2.0 * g <= d <= 2.0 * g
  }

  /** After i + 1 sweeps both coordinates of a couple are within twice its gaps of the nearest point's. */
  lemma CoupleIsClose(fs: seq<Facet>, ks: seq<Couple.Rules>, center: Vec, x: Vec, z: Vec, i: nat, j: nat, g: real, y: Vec)
    returns (d: real, d': real)
    requires Made(fs, ks, center) && |x| == |z| == DIMENSIONS && Nearest(fs, x, z) && j < COUPLES
    requires g == GapOf(ks, x, j, i) && y == Iterates(fs, x)(i + 1)
    ensures |y| == DIMENSIONS && d == y[2 * j] - z[2 * j] && d' == y[2 * j + 1] - z[2 * j + 1]
    ensures OffBy(d, g) && OffBy(d', g)
  {
    IteratesFollow(fs, ks, x, j);
    IteratesAreRated(fs, ks, center, x, z);
    Dist2Nonneg(x, center);
    Dist2Nonneg(x, z);
    assert Couple.Usual(ks[j]);
    FollowersAreClose(Iterates(fs, x), z, Dist2(x, center), Dist2(x, z), ks[j], x[2 * j], x[2 * j + 1], 2 * j, i, g);
    d, d' := y[2 * j] - z[2 * j], y[2 * j + 1] - z[2 * j + 1];
  }

  lemma FollowersAreClose(y: nat -> Vec, z: Vec, far: real, near: real, k: Couple.Rules, px: real, py: real, c: nat,
                          i: nat, g: real)
    requires Rated(y, z, far, near) && far >= 0.0 && near >= 0.0 && c + 1 < |z|
    requires Couple.Usual(k) && Follows(y, k, px, py, c) && g == Couple.GapsSeq(k, px, py)(i)
    ensures |y(i + 1)| == |z|
    ensures -2.0 * g <= y(i + 1)[c] - z[c] <= 2.0 * g && -2.0 * g <= y(i + 1)[c + 1] - z[c + 1] <= 2.0 * g
  {
    FollowersStayNear(y, k, px, py, c, i, g);
    BothAreClose(y, z, far, near, i + 1, c, 2.0 * g);
  }

  lemma BothAreClose(y: nat -> Vec, z: Vec, far: real, near: real, i: nat, c: nat, most: real)
    requires Rated(y, z, far, near) && far >= 0.0 && near >= 0.0 && c + 1 < |z|
    requires MovesAtMost(y, i, c, most) && MovesAtMost(y, i, c + 1, most)
    ensures |y(i)| == |z| && -most <= y(i)[c] - z[c] <= most && -most <= y(i)[c + 1] - z[c + 1] <= most
  {
    CoordinateIsClose(y, z, far, near, i, c, most);
    CoordinateIsClose(y, z, far, near, i, c + 1, most);
  }

  // ---------------------------------------------------------------------------------------------
  // After two thousand sweeps
  // ---------------------------------------------------------------------------------------------

  /** The larger distance of couple j of x from the center's. */
  function Spread(x: Vec, center: Vec, j: nat): real
    requires |x| == |center| == DIMENSIONS && j < COUPLES
  {
    Max(Abs(x[2 * j] - center[2 * j]), Abs(x[2 * j + 1] - center[2 * j + 1]))
  }

  lemma SpreadIsWithin(k: Couple.Rules, center: Vec, x: Vec, j: nat)
    requires |x| == |center| == DIMENSIONS && j < COUPLES && Centered(center, k, j)
    ensures Couple.Within(k, x[2 * j], x[2 * j + 1], Spread(x, center, j))
  {
  }

  lemma GapAfterSweeps(fs: seq<Facet>, ks: seq<Couple.Rules>, center: Vec, x: Vec, j: nat, i: nat, c: real, m: real)
    returns (g: real)
    requires Made(fs, ks, center) && |x| == DIMENSIONS && j < COUPLES && c == i as real && m == Spread(x, center, j)
    ensures g == GapOf(ks, x, j, i) && GapWithin(c, g, m)
  {
    assert Couple.Usual(ks[j]) && Centered(center, ks[j], j);
    SpreadIsWithin(ks[j], center, x, j);
    g := Couple.GapsByDistance(ks[j], x[2 * j], x[2 * j + 1], i, c, m);
  }

  lemma SpreadSquared(x: Vec, center: Vec, j: nat)
    requires |x| == |center| == DIMENSIONS && j < COUPLES
    ensures Square(Spread(x, center, j)) <= Square(Minus(x, center)[2 * j]) + Square(Minus(x, center)[2 * j + 1])
  {
    SquareNonneg(Minus(x, center)[2 * j]);
    SquareNonneg(Minus(x, center)[2 * j + 1]);
    SquareOfNegative(Minus(x, center)[2 * j]);
    SquareOfNegative(Minus(x, center)[2 * j + 1]);
  }

  /** Twice a gap of at most 2 m / 1999, squared, for both coordinates. */
  lemma ShareArithmetic(g: real, m: real, d: real, d': real, ee: real)
    requires GapWithin(1999.0, g, m) && OffBy(d, g) && OffBy(d', g) && Square(m) <= ee
    ensures Square(d) + Square(d') <= 0.000009 * ee
  {
    var h := 2.0 * g;
    SquareBelow(d, h);
    SquareBelow(d', h);
    SquareBelow(h, 0.002002 * m);
    assert Square(0.002002 * m) == 0.002002 * 0.002002 * Square(m);
  }

  lemma CoupleEndsNear(fs: seq<Facet>, ks: seq<Couple.Rules>, center: Vec, x: Vec, z: Vec, i: nat, j: nat, y: Vec)
    requires Made(fs, ks, center) && |x| == |z| == DIMENSIONS && Nearest(fs, x, z) && i as real == 1999.0 && j < COUPLES
    requires y == Iterates(fs, x)(i + 1)
    ensures |y| == DIMENSIONS && CoupleWithin(Minus(y, z), Minus(x, center), j, 0.000009)
  {
    var m := Spread(x, center, j);
    var g := GapAfterSweeps(fs, ks, center, x, j, i, 1999.0, m);
    var d, d' := CoupleIsClose(fs, ks, center, x, z, i, j, g, y);
    ShareOfCouple(x, center, y, z, j, g, m, d, d');
  }

  lemma ShareOfCouple(x: Vec, center: Vec, y: Vec, z: Vec, j: nat, g: real, m: real, d: real, d': real)
    requires |x| == |center| == |y| == |z| == DIMENSIONS && j < COUPLES && m == Spread(x, center, j)
    requires d == y[2 * j] - z[2 * j] && d' == y[2 * j + 1] - z[2 * j + 1]
    requires GapWithin(1999.0, g, m) && OffBy(d, g) && OffBy(d', g)
    ensures CoupleWithin(Minus(y, z), Minus(x, center), j, 0.000009)
  {
    var e := Minus(x, center);
    SpreadSquared(x, center, j);
    ShareArithmetic(g, m, d, d', Square(e[2 * j]) + Square(e[2 * j + 1]));
  }

  ghost predicate AllWithin(d: Vec, e: Vec, share: real)
    requires |d| == |e| == DIMENSIONS
  {
    forall j {:trigger CoupleWithin(d, e, j, share)} :: 0 <= j < COUPLES ==> CoupleWithin(d, e, j, share)
  }

  lemma CouplesEndNear(fs: seq<Facet>, ks: seq<Couple.Rules>, center: Vec, x: Vec, z: Vec, i: nat, y: Vec, share: real)
    requires Made(fs, ks, center) && |x| == |z| == DIMENSIONS && Nearest(fs, x, z) && i as real == 1999.0
    requires y == Iterates(fs, x)(i + 1) && share == 0.000009
    ensures |y| == DIMENSIONS && AllWithin(Minus(y, z), Minus(x, center), share)
  {
    IterateHasLength(fs, x, i + 1);
    forall j | 0 <= j < COUPLES ensures CoupleWithin(Minus(y, z), Minus(x, center), j, share) {
      CoupleEndsNear(fs, ks, center, x, z, i, j, y);
    }
  }

  lemma IterateHasLength(fs: seq<Facet>, x: Vec, i: nat)
    requires WellFormed(fs, |x|)
    ensures |Iterates(fs, x)(i)| == |x|
  {
  }

  /** After i + 1 = 2000 sweeps. */
  lemma SweepsEndNear(fs: seq<Facet>, ks: seq<Couple.Rules>, center: Vec, x: Vec, z: Vec, i: nat, y: Vec)
    requires Made(fs, ks, center) && |x| == |z| == DIMENSIONS && Nearest(fs, x, z) && i as real == 1999.0
    requires y == Iterates(fs, x)(i + 1)
    ensures |y| == DIMENSIONS && Dist2(y, z) <= 0.000009 * Dist2(x, center)
  {
    CouplesEndNear(fs, ks, center, x, z, i, y, 0.000009);
    SharesAddUp(Minus(y, z), Minus(x, center), COUPLES, 0.000009);
  }

  lemma SharesAddUp(d: Vec, e: Vec, j: nat, share: real)
    requires |d| == |e| == DIMENSIONS && j == COUPLES && AllWithin(d, e, share)
    ensures Dot(d, d) <= share * Dot(e, e)
  {
    CouplesAddUp(d, e, j, share);
  }

  lemma TenHalves(t: nat)
    ensures Couple.Halved(t + 10) == Couple.Halved(t) / 1024.0
  {
    assert Couple.Halved(t + 2) == Couple.Halved(t + 1) / 2.0 == Couple.Halved(t) / 4.0;
    assert Couple.Halved(t + 4) == Couple.Halved(t + 3) / 2.0 == Couple.Halved(t + 2) / 4.0;
    assert Couple.Halved(t + 6) == Couple.Halved(t + 5) / 2.0 == Couple.Halved(t + 4) / 4.0;
    assert Couple.Halved(t + 8) == Couple.Halved(t + 7) / 2.0 == Couple.Halved(t + 6) / 4.0;
    assert Couple.Halved(t + 10) == Couple.Halved(t + 9) / 2.0 == Couple.Halved(t + 8) / 4.0;
  }

  lemma FiftyHalves(t: nat)
    requires t == 0
    ensures Couple.Halved(t + 50) <= 0.0000000000001
  {
    TenHalves(t);
    TenHalves(t + 10);
    TenHalves(t + 20);
    TenHalves(t + 30);
    TenHalves(t + 40);
  }

  /** x is within m of the center in every coordinate. */
  ghost predicate Around(x: Vec, center: Vec, m: real) {
    |x| == |center| && forall i :: 0 <= i < |x| ==> Abs(x[i] - center[i]) <= m
  }

  lemma GapVanishes(fs: seq<Facet>, ks: seq<Couple.Rules>, center: Vec, x: Vec, j: nat, i: nat) returns (g: real)
    requires Made(fs, ks, center) && |x| == DIMENSIONS && j < COUPLES && Around(x, center, 19.0) && i as real == 1999.0
    ensures g == GapOf(ks, x, j, i) <= 0.0000000000001
  {
    var t := 0;
    var before := GapAfterSweeps(fs, ks, center, x, j, i - 50, 1949.0, Spread(x, center, j));
    FiftyHalves(t);
    assert Couple.Usual(ks[j]);
    Couple.GapsVanish(ks[j], x[2 * j], x[2 * j + 1], i - 50, t + 50);
    g := GapOf(ks, x, j, i);
  }

  lemma TinyShare(g: real, d: real, d': real)
    requires g <= 0.0000000000001 && OffBy(d, g) && OffBy(d', g)
    ensures Square(d) + Square(d') <= TINY
  {
    SquareBelow(d, 0.0000000000002);
    SquareBelow(d', 0.0000000000002);
  }

  /** What a couple's two coordinates may still be off, squared. */
  const TINY: real := 0.0000000000000000000000001

  ghost predicate TinyCouple(d: Vec, j: nat)
    requires |d| == DIMENSIONS && j < COUPLES
  {
    Square(d[2 * j]) + Square(d[2 * j + 1]) <= TINY
  }

  ghost predicate AllTiny(d: Vec)
    requires |d| == DIMENSIONS
  {
    forall j {:trigger TinyCouple(d, j)} :: 0 <= j < COUPLES ==> TinyCouple(d, j)
  }

  lemma {:induction false} TinyAddsUp(d: Vec, j: nat, c: real)
    requires |d| == DIMENSIONS && j <= COUPLES && c == j as real
    requires AllTiny(d)
    ensures DotTo(d, d, 2 * j) <= c * TINY
  {
    if j > 0 {
      TinyAddsUp(d, j - 1, c - 1.0);
      TwoMore(d, j - 1);
      assert TinyCouple(d, j - 1);
    } else {
      assert DotTo(d, d, 0) == 0.0;
    }
  }

  lemma CoupleEndsThere(fs: seq<Facet>, ks: seq<Couple.Rules>, center: Vec, x: Vec, z: Vec, i: nat, j: nat, y: Vec)
    requires Made(fs, ks, center) && |x| == |z| == DIMENSIONS && Nearest(fs, x, z) && i as real == 1999.0 && j < COUPLES
    requires y == Iterates(fs, x)(i + 1) && Around(x, center, 19.0)
    ensures |y| == DIMENSIONS && TinyCouple(Minus(y, z), j)
  {
    var g := GapVanishes(fs, ks, center, x, j, i);
    var d, d' := CoupleIsClose(fs, ks, center, x, z, i, j, g, y);
    TinyOfCouple(y, z, j, g, d, d');
  }

  lemma TinyOfCouple(y: Vec, z: Vec, j: nat, g: real, d: real, d': real)
    requires |y| == |z| == DIMENSIONS && j < COUPLES && d == y[2 * j] - z[2 * j] && d' == y[2 * j + 1] - z[2 * j + 1]
    requires g <= 0.0000000000001 && OffBy(d, g) && OffBy(d', g)
    ensures TinyCouple(Minus(y, z), j)
  {
    TinyShare(g, d, d');
  }

  lemma CouplesEndThere(fs: seq<Facet>, ks: seq<Couple.Rules>, center: Vec, x: Vec, z: Vec, i: nat, y: Vec)
    requires Made(fs, ks, center) && |x| == |z| == DIMENSIONS && Nearest(fs, x, z) && i as real == 1999.0
    requires y == Iterates(fs, x)(i + 1) && Around(x, center, 19.0)
    ensures |y| == DIMENSIONS && AllTiny(Minus(y, z))
  {
    IterateHasLength(fs, x, i + 1);
    forall j | 0 <= j < COUPLES ensures TinyCouple(Minus(y, z), j) {
      CoupleEndsThere(fs, ks, center, x, z, i, j, y);
    }
  }

  /** From starts within 19 of the center in every coordinate they end at it. */
  lemma SweepsEndThere(fs: seq<Facet>, ks: seq<Couple.Rules>, center: Vec, x: Vec, z: Vec, i: nat, y: Vec)
    requires Made(fs, ks, center) && |x| == |z| == DIMENSIONS && Nearest(fs, x, z) && i as real == 1999.0
    requires y == Iterates(fs, x)(i + 1) && Around(x, center, 19.0)
    ensures |y| == DIMENSIONS && Dist2(y, z) <= 7.0 * TINY
  {
    CouplesEndThere(fs, ks, center, x, z, i, y);
    TinyAddsUp(Minus(y, z), COUPLES, 7.0);
  }

  // ---------------------------------------------------------------------------------------------
  // What the nudges add
  // ---------------------------------------------------------------------------------------------

  /** By how much one pass of nudges can lead away from a point of P, squared. */
  const PASS_SLIP: real := 0.00000000000000000000000084

  lemma NudgeSlip(step: real, t: real, e: real, ez: real, norm: real, part: real)
    requires 0.0 < norm <= 2.0 && e > 0.0 && ez <= 0.0 && part * norm == e && part > 0.0
    requires step == part + NUDGE && t == -step
    ensures 2.0 * (t * (e - ez)) + t * t * norm <= 2.0 * (NUDGE * NUDGE)
  {
    var pe := part * e;
    assert step * norm == e + NUDGE * norm;
    assert t * t * norm == step * (step * norm) == step * e + step * (NUDGE * norm);
    assert step * e == pe + NUDGE * e;
    assert step * (NUDGE * norm) == NUDGE * e + NUDGE * NUDGE * norm by {
      assert step * norm * NUDGE == (e + NUDGE * norm) * NUDGE;
    }
    assert 2.0 * (t * (e - ez)) == -2.0 * (step * e) + 2.0 * (step * ez);
    ProductNonneg(step, -ez, step * -ez);
    ProductNonneg(part, e, pe);
    ScaleInequality(NUDGE * NUDGE, norm, 2.0);
  }

  lemma NudgeStaysNear(facet: Facet, v: Vec, z: Vec)
    requires |facet.normal| == |v| == |z| && Excess(facet, z) <= 0.0 && Dot(facet.normal, facet.normal) <= 2.0
    ensures Dist2(NudgeFacet(facet, v), z) <= Dist2(v, z) + 2.0 * (NUDGE * NUDGE)
  {
    var a := facet.normal;
    var norm, e, ez := Dot(a, a), Excess(facet, v), Excess(facet, z);
    NormNonneg(a);
    if e > 0.0 && norm != 0.0 {
      var w, part := Minus(v, z), e / norm;
      var step := part + NUDGE;
      MinusOfMove(v, -step, a, z);
      NormAddScaled(w, -step, a, e - ez, norm) by {
        DotMinus(a, v, z);
      }
      QuotientBack(e, norm, part);
      NudgeSlip(step, -step, e, ez, norm, part);
    }
  }

  lemma {:induction false} PassStaysNear(fs: seq<Facet>, v: Vec, z: Vec, k: nat, c: real)
    requires WellFormed(fs, |v|) && |z| == |v| && Inside(fs, z) && k <= |fs| && c == k as real
    requires forall f :: 0 <= f < |fs| ==> Dot(fs[f].normal, fs[f].normal) <= 2.0
    ensures Dist2(NudgeTo(fs, v, k), z) <= Dist2(v, z) + c * (2.0 * (NUDGE * NUDGE))
  {
    if k > 0 {
      PassStaysNear(fs, v, z, k - 1, c - 1.0);
      NudgeStaysNear(fs[k - 1], NudgeTo(fs, v, k - 1), z);
    }
  }

  lemma {:induction false} NudgedStaysNear(fs: seq<Facet>, v: Vec, z: Vec, n: nat, c: real)
    requires WellFormed(fs, |v|) && |z| == |v| && Inside(fs, z) && |fs| == 42 && c == n as real
    requires forall f :: 0 <= f < |fs| ==> Dot(fs[f].normal, fs[f].normal) <= 2.0
    ensures Dist2(Nudged(fs, v, n), z) <= Dist2(v, z) + c * PASS_SLIP
    decreases n
  {
    if n > 0 && !Inside(fs, v) {
      var next := NudgeTo(fs, v, |fs|);
      PassStaysNear(fs, v, z, |fs|, 42.0);
      NudgedStep(fs, v, n, next);
      if MovedTo(fs, v, |fs|) {
        NudgedStaysNear(fs, next, z, n - 1, c - 1.0);
      }
    }
  }

  // ---------------------------------------------------------------------------------------------
  // The projection
  // ---------------------------------------------------------------------------------------------

  lemma OutsideIsFar(fs: seq<Facet>, center: Vec, x: Vec)
    requires WellFormed(fs, |x|) && |x| == |center| && LatticeShaped(fs) && Roomy(fs, center, 0.08) && !Inside(fs, x)
    ensures Dist2(x, center) >= 0.0032
  {
    var f :| 0 <= f < |fs| && Excess(fs[f], x) > 0.0;
    var a, w := fs[f].normal, Minus(x, center);
    var aw, aa, ww := Dot(a, w), Dot(a, a), Dot(w, w);
    DotMinus(a, x, center);
    assert Excess(fs[f], center) <= -0.08;
    CauchySchwarz(a, w, aw, aa, ww);
    NormNonneg(w);
    FarArithmetic(aw, aa, ww);
  }

  lemma FarArithmetic(aw: real, aa: real, ww: real)
    requires aw >= 0.08 && aw * aw <= aa * ww && 0.0 < aa <= 2.0 && ww >= 0.0
    ensures ww >= 0.0032
  {
    SquareMonotone(0.08, aw);
    ScaleInequality(ww, aa, 2.0);
  }

  /** A point of P is its own nearest point. */
  lemma InsideIsNearest(fs: seq<Facet>, x: Vec, z: Vec)
    requires |x| == |z| && WellFormed(fs, |x|) && Inside(fs, x) && Nearest(fs, x, z)
    ensures z == x
  {
    assert NotNearer(fs, x, z, x);
    Dist2Zero(x, x);
    Dist2Zero(x, z);
  }

  /** The loop's result, its early exit included. */
  lemma LoopEndsNear(season: Season, x: Vec, z: Vec, n: nat, y: Vec)
    requires |x| == |z| == DIMENSIONS && WellFormed(LatticeOf(SeasonalBounds(season)), DIMENSIONS) && n as real == 2000.0
    requires var fs := LatticeOf(SeasonalBounds(season)); Nearest(fs, x, z) && y == Settle(fs, Start(fs, x), n).y
    ensures var center := Center(SeasonalBounds(season));
            && |y| == DIMENSIONS && Dist2(y, z) <= 0.000009 * Dist2(x, center)
            && (Around(x, center, 19.0) ==> Dist2(y, z) <= 0.00000000000002 * Dist2(x, center) + 7.0 * TINY)
  {
    var b := SeasonalBounds(season);
    var fs, ks, center := LatticeOf(b), AllRules(b), Center(b);
    SeasonIsMade(season);
    Dist2Nonneg(x, center);
    if Settle(fs, Start(fs, x), n).maxMove < EPSILON {
      EarlyExitHasConverged(season, x, n, z);
      Dist2Symmetric(center, x);
    } else {
      var j := SettleIsSweeps(fs, Start(fs, x), 0, n);
      SweepsEndNear(fs, ks, center, x, z, n - 1, y);
      if Around(x, center, 19.0) {
        SweepsEndThere(fs, ks, center, x, z, n - 1, y);
      }
    }
  }

  /** The exact check and its nudges end inside, hardly farther from any point of P. */
  lemma LandingIsNear(fs: seq<Facet>, ks: seq<Couple.Rules>, center: Vec, v: Vec, z: Vec, n: nat)
    requires Made(fs, ks, center) && |v| == |z| == DIMENSIONS && Inside(fs, z) && n as real == 200.0
    ensures Inside(fs, Nudged(fs, v, n)) && Land(fs, center, v, n) == Nudged(fs, v, n)
    ensures Dist2(Land(fs, center, v, n), z) <= Dist2(v, z) + 200.0 * PASS_SLIP
  {
    NudgesSucceed(fs, ks, v, n);
    NudgedStaysNear(fs, v, z, n, 200.0);
  }

  lemma ProjectionOfOutsider(season: Season, x: Vec, z: Vec, r: Vec)
    requires |x| == |z| == DIMENSIONS && WellFormed(LatticeOf(SeasonalBounds(season)), DIMENSIONS)
    requires var fs := LatticeOf(SeasonalBounds(season));
             Nearest(fs, x, z) && !Inside(fs, x) && r == Projected(fs, Center(SeasonalBounds(season)), x)
    ensures var center := Center(SeasonalBounds(season));
            && Dist2(r, z) <= 0.00001 * Dist2(x, center)
            && (Around(x, center, 19.0) ==> Dist2(r, z) <= 0.000000000001 * Dist2(x, center))
  {
    var b := SeasonalBounds(season);
    var fs, ks, center := LatticeOf(b), AllRules(b), Center(b);
    var y := Settle(fs, Start(fs, x), MAX_SWEEPS).y;
    SeasonIsMade(season);
    OutsideIsFar(fs, center, x);
    LoopEndsNear(season, x, z, MAX_SWEEPS, y);
    LandingIsNear(fs, ks, center, y, z, MAX_NUDGES);
  }

  /** For every season and every input the projection is next to the nearest point of the lattice: the squared
      distance between them is at most 1e-5 of that from the input to the center. */
  lemma ProjectionIsNear(name: string, x: Vec, z: Vec)
    requires |x| == |z| == DIMENSIONS && WellFormed(LatticeOfSeason(name), DIMENSIONS) && Nearest(LatticeOfSeason(name), x, z)
    ensures Dist2(Projected(LatticeOfSeason(name), CenterOfSeason(name), x), z) <= 0.00001 * Dist2(x, CenterOfSeason(name))
  {
    var fs, center := LatticeOfSeason(name), CenterOfSeason(name);
    if Inside(fs, x) {
      MembersAreKept(fs, center, x);
      InsideIsNearest(fs, x, z);
      Dist2Zero(x, x);
      Dist2Nonneg(x, center);
    } else {
      ProjectionOfOutsider(SeasonOf(name), x, z, Projected(fs, center, x));
    }
  }

  /** For inputs within 19 of the center in every coordinate it is the nearest point but for 1e-12 of that. */
  lemma ProjectionIsNearest(name: string, x: Vec, z: Vec)
    requires |x| == |z| == DIMENSIONS && WellFormed(LatticeOfSeason(name), DIMENSIONS) && Nearest(LatticeOfSeason(name), x, z)
    requires Around(x, CenterOfSeason(name), 19.0)
    ensures Dist2(Projected(LatticeOfSeason(name), CenterOfSeason(name), x), z)
         <= 0.000000000001 * Dist2(x, CenterOfSeason(name))
  {
    var fs, center := LatticeOfSeason(name), CenterOfSeason(name);
    if Inside(fs, x) {
      MembersAreKept(fs, center, x);
      InsideIsNearest(fs, x, z);
      Dist2Zero(x, x);
      Dist2Nonneg(x, center);
    } else {
      ProjectionOfOutsider(SeasonOf(name), x, z, Projected(fs, center, x));
    }
  }

  /** The fallback to the center is never taken: from every point the nudges end inside. */
  lemma NeverFallsBack(name: string, v: Vec)
    requires |v| == DIMENSIONS && WellFormed(LatticeOfSeason(name), DIMENSIONS)
    ensures Inside(LatticeOfSeason(name), Nudged(LatticeOfSeason(name), v, MAX_NUDGES))
  {
    var b := SeasonalBounds(SeasonOf(name));
    SeasonIsMade(SeasonOf(name));
    NudgesSucceed(LatticeOf(b), AllRules(b), v, MAX_NUDGES);
  }
}
