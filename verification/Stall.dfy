/** Far inputs need more than two thousand sweeps: an input that is projected away from the nearest point. */
module Stall {
  import opened Vectors
  import opened Projection
  import opened Landing
  import opened Lattice
  import opened EarlyExit
  import opened CoupleNudges
  import opened Apart
  import opened Finish
  import Couple

  /** Integrity and deception in spring. */
  const INTEGRITY: Couple.Rules := Couple.Rules(0.6, 0.2, 0.5, 1.1)

  lemma IntegrityRules(j: nat)
    requires j == 2
    ensures RulesOf(SeasonalBounds(Spring), j) == INTEGRITY
  {
  }

  lemma OneStall(c: real)
    requires 0.0 <= c <= 2000.0
    ensures Couple.Next(INTEGRITY, 110.0, 110.0, Couple.Tilt(0.0, 0.05 * c)) == Couple.Tilt(0.0, 0.05 * (c + 1.0))
    ensures Couple.BoxP(INTEGRITY, 110.0, Couple.Tilt(0.0, 0.05 * c)) == 1.0
    ensures Couple.BoxN(INTEGRITY, 110.0, Couple.Tilt(0.0, 0.05 * c)) == 0.2
  {
  }

  /** Both coordinates stand still while the multiplier of the sum grows by 0.05 a sweep. */
  lemma {:induction false} Stalls(i: nat, c: real)
    requires c == i as real <= 2000.0
    ensures Couple.TiltAt(INTEGRITY, 110.0, 110.0, i) == Couple.Tilt(0.0, 0.05 * c)
  {
    if i > 0 {
      Stalls(i - 1, c - 1.0);
      OneStall(c - 1.0);
      Couple.TiltMoves(INTEGRITY, 110.0, 110.0, i - 1);
    }
  }

  lemma StalledAt(i: nat)
    requires i > 0 && i as real <= 2000.0
    ensures var r := Couple.Swept(INTEGRITY, 110.0, 110.0, i); r.p == 0.95 && r.n == 0.15
  {
    var c := (i - 1) as real;
    Stalls(i - 1, c);
    OneStall(c);
    Couple.SweptFollows(INTEGRITY, 110.0, 110.0, i);
    StallGaps(c);
  }

  lemma StallGaps(c: real)
    requires 0.0 <= c <= 2000.0
    ensures var w := Couple.Tilt(0.0, 0.05 * c);
            Couple.Pos(Couple.LeadGap(INTEGRITY, 110.0, 110.0, w)) == 0.0
            && Couple.Pos(Couple.SumGap(INTEGRITY, 110.0, 110.0, w)) == 0.1
  {
  }

  lemma RestingAt(k: Couple.Rules, x: real, y: real)
    requires Couple.Usual(k) && x == (k.lo + 1.0) / 2.0 && y == k.up / 2.0
    ensures var w := Couple.Tilt(0.0, 0.0);
            && Couple.Next(k, x, y, w) == w && Couple.BoxP(k, x, w) == x && Couple.BoxN(k, y, w) == y
            && Couple.Gaps(k, x, y, w) == 0.0
            && Couple.Pos(Couple.LeadGap(k, x, y, w)) == Couple.Pos(Couple.SumGap(k, x, y, w)) == 0.0
  {
  }

  lemma {:induction false} Rests(k: Couple.Rules, x: real, y: real, i: nat)
    requires Couple.Usual(k) && x == (k.lo + 1.0) / 2.0 && y == k.up / 2.0
    ensures Couple.TiltAt(k, x, y, i) == Couple.Tilt(0.0, 0.0)
  {
    if i > 0 {
      Rests(k, x, y, i - 1);
      RestingAt(k, x, y);
      Couple.TiltMoves(k, x, y, i - 1);
    }
  }

  /** A couple at the center stays there. */
  lemma RestedAt(k: Couple.Rules, x: real, y: real, i: nat)
    requires Couple.Usual(k) && x == (k.lo + 1.0) / 2.0 && y == k.up / 2.0 && i > 0
    ensures var r := Couple.Swept(k, x, y, i); r.p == x && r.n == y
  {
    Rests(k, x, y, i - 1);
    RestingAt(k, x, y);
    Couple.SweptFollows(k, x, y, i);
  }

  /** The center of spring with other values of integrity and deception. */
  function CenterBut(p: real, n: real): (r: Vec)
    ensures |r| == DIMENSIONS
  {
    Center(SeasonalBounds(Spring))[4 := p][5 := n]
  }

  lemma IterateStalls(i: nat)
    requires i > 0 && i as real <= 2000.0
    ensures WellFormed(LatticeOf(SeasonalBounds(Spring)), DIMENSIONS)
    ensures Sweeps(LatticeOf(SeasonalBounds(Spring)), Start(LatticeOf(SeasonalBounds(Spring)), CenterBut(110.0, 110.0)), i).y
         == CenterBut(0.95, 0.15)
  {
    var b, x := SeasonalBounds(Spring), CenterBut(110.0, 110.0);
    var fs, ks := LatticeOf(b), AllRules(b);
    SeasonIsMade(Spring);
    var y := Sweeps(fs, Start(fs, x), i).y;
    forall j | 0 <= j < COUPLES ensures SpotOf(y, j) == SpotOf(CenterBut(0.95, 0.15), j) {
      CoupleStalls(fs, ks, x, i, j);
    }
    SameSpots(y, CenterBut(0.95, 0.15));
  }

  lemma CoupleStalls(fs: seq<Facet>, ks: seq<Couple.Rules>, x: Vec, i: nat, j: nat)
    requires fs == LatticeOf(SeasonalBounds(Spring)) && ks == AllRules(SeasonalBounds(Spring)) && MadeOf(fs, ks)
    requires Made(fs, ks, Center(SeasonalBounds(Spring)))
    requires x == CenterBut(110.0, 110.0) && i > 0 && i as real <= 2000.0 && j < COUPLES
    ensures SpotOf(Sweeps(fs, Start(fs, x), i).y, j) == SpotOf(CenterBut(0.95, 0.15), j)
  {
    var center := Center(SeasonalBounds(Spring));
    IterateOfCouple(fs, ks, x, i, j);
    if j == 2 {
      IntegrityRules(j);
      StalledAt(i);
    } else {
      assert Couple.Usual(ks[j]) && Centered(center, ks[j], j);
      RestedAt(ks[j], center[2 * j], center[2 * j + 1], i);
    }
  }

  lemma SameSpots(y: Vec, z: Vec)
    requires |y| == |z| == DIMENSIONS && forall j :: 0 <= j < COUPLES ==> SpotOf(y, j) == SpotOf(z, j)
    ensures y == z
  {
    forall c | 0 <= c < DIMENSIONS ensures y[c] == z[c] {
      assert SpotOf(y, c / 2) == SpotOf(z, c / 2);
      assert c == 2 * (c / 2) || c == 2 * (c / 2) + 1;
    }
  }

  lemma ButIsInside(p: real, n: real)
    requires Keeps(INTEGRITY, Spot(p, n))
    ensures WellFormed(LatticeOf(SeasonalBounds(Spring)), DIMENSIONS)
    ensures Inside(LatticeOf(SeasonalBounds(Spring)), CenterBut(p, n))
  {
    var b, y := SeasonalBounds(Spring), CenterBut(p, n);
    SeasonIsMade(Spring);
    forall j | 0 <= j < COUPLES ensures Keeps(AllRules(b)[j], SpotOf(y, j)) {
      if j == 2 {
        IntegrityRules(j);
      } else {
        assert Couple.Usual(AllRules(b)[j]) && Centered(Center(b), AllRules(b)[j], j);
      }
    }
    InsideIsApart(LatticeOf(b), AllRules(b), y);
  }

  lemma DifferenceOfButs(p: real, n: real, p': real, n': real)
    ensures Minus(CenterBut(p, n), CenterBut(p', n')) == Pair(DIMENSIONS, 4, p - p', 5, n - n')
  {
  }

  lemma DistanceOfButs(p: real, n: real, p': real, n': real, d: real)
    requires d == (p - p') * (p - p') + (n - n') * (n - n')
    ensures Dist2(CenterBut(p, n), CenterBut(p', n')) == d
  {
    DifferenceOfButs(p, n, p', n');
    var w := Pair(DIMENSIONS, 4, p - p', 5, n - n');
    DotPair(DIMENSIONS, 4, p - p', 5, n - n', w, DIMENSIONS, (p - p') * (p - p'), (n - n') * (n - n'));
  }

  /** A point at an obtuse angle is farther. */
  lemma ObtuseIsFarther(x: Vec, z: Vec, q: Vec)
    requires |x| == |z| == |q| && Dot(Minus(q, z), Minus(x, z)) <= 0.0
    ensures Dist2(x, z) <= Dist2(x, q)
  {
    var w, v := Minus(x, z), Minus(q, z);
    assert Minus(x, q) == AddScaled(w, -1.0, v);
    NormOfDifference(w, v);
    NormNonneg(v);
  }

  /** (0.9, 0.2), where the sum meets the upper bound, is nearest to (110, 110). */
  lemma CornerIsNearest()
    ensures WellFormed(LatticeOf(SeasonalBounds(Spring)), DIMENSIONS)
    ensures Nearest(LatticeOf(SeasonalBounds(Spring)), CenterBut(110.0, 110.0), CenterBut(0.9, 0.2))
  {
    var b, x, z := SeasonalBounds(Spring), CenterBut(110.0, 110.0), CenterBut(0.9, 0.2);
    var fs, ks := LatticeOf(b), AllRules(b);
    SeasonIsMade(Spring);
    ButIsInside(0.9, 0.2);
    forall q ensures NotNearer(fs, x, z, q) {
      if |q| == DIMENSIONS && Inside(fs, q) {
        InsideIsApart(fs, ks, q);
        assert Keeps(ks[2], SpotOf(q, 2));
        IntegrityRules(2);
        CornerAngle(q);
        ObtuseIsFarther(x, z, q);
      }
    }
  }

  lemma CornerAngle(q: Vec)
    requires |q| == DIMENSIONS && Keeps(INTEGRITY, SpotOf(q, 2))
    ensures Dot(Minus(q, CenterBut(0.9, 0.2)), Minus(CenterBut(110.0, 110.0), CenterBut(0.9, 0.2))) <= 0.0
  {
    var v, w := Minus(q, CenterBut(0.9, 0.2)), Pair(DIMENSIONS, 4, 109.1, 5, 109.8);
    DifferenceOfButs(110.0, 110.0, 0.9, 0.2);
    DotSymmetric(v, w);
    DotPair(DIMENSIONS, 4, 109.1, 5, 109.8, v, DIMENSIONS, 109.1 * v[4], 109.8 * v[5]);
  }

  lemma FarFromInside()
    ensures WellFormed(LatticeOf(SeasonalBounds(Spring)), DIMENSIONS)
    ensures !ViolatesAtMost(LatticeOf(SeasonalBounds(Spring)), CenterBut(110.0, 110.0), SLACK)
  {
    var b, x := SeasonalBounds(Spring), CenterBut(110.0, 110.0);
    SeasonIsMade(Spring);
    BoundsAt(Lower(b), Upper(b), Couplings(), 4);
    AxisExcess(Lower(b), Upper(b), 4, x);
    PairAt(b, 2);
    assert x[4] == 110.0;
    assert Excess(LatticeOf(b)[2 * 4], x) == 109.0;
  }

  lemma StalledProjection(n: nat)
    requires n as real == 2000.0
    ensures WellFormed(LatticeOf(SeasonalBounds(Spring)), DIMENSIONS)
    ensures var fs, x := LatticeOf(SeasonalBounds(Spring)), CenterBut(110.0, 110.0);
            Settle(fs, Start(fs, x), n).y == CenterBut(0.95, 0.15)
  {
    var b, x := SeasonalBounds(Spring), CenterBut(110.0, 110.0);
    var fs := LatticeOf(b);
    SeasonIsMade(Spring);
    FarFromInside();
    if Settle(fs, Start(fs, x), n).maxMove < EPSILON {
      EarlyExitIsNearlyInside(Spring, x, n);
      assert false;
    }
    var j := SettleIsSweeps(fs, Start(fs, x), 0, n);
    IterateStalls(n);
  }

  lemma StalledLanding(n: nat)
    requires n as real == 200.0
    ensures WellFormed(LatticeOf(SeasonalBounds(Spring)), DIMENSIONS)
    ensures var b := SeasonalBounds(Spring); Land(LatticeOf(b), Center(b), CenterBut(0.95, 0.15), n) == CenterBut(0.95, 0.15)
  {
    ButIsInside(0.95, 0.15);
  }

  lemma CenterIsBut()
    ensures Center(SeasonalBounds(Spring)) == CenterBut(0.8, 0.1)
  {
    var b := SeasonalBounds(Spring);
    CenterAt(b, 4);
    CenterAt(b, 5);
    assert Center(b)[4] == 0.8 && Center(b)[5] == 0.1;
  }

  lemma MissedBy(center: Vec)
    requires center == CenterBut(0.8, 0.1)
    ensures Dist2(CenterBut(0.95, 0.15), CenterBut(0.9, 0.2)) > 0.000000000001 * Dist2(CenterBut(110.0, 110.0), center)
  {
    DistanceOfButs(0.95, 0.15, 0.9, 0.2, 0.005);
    DistanceOfButs(110.0, 110.0, 0.8, 0.1, 24002.65);
  }

  lemma ButIsAround(p: real, n: real)
    requires 0.0 <= p <= 110.0 && 0.0 <= n <= 110.0
    ensures Around(CenterBut(p, n), Center(SeasonalBounds(Spring)), 110.0)
  {
    CenterIsBut();
    assert Center(SeasonalBounds(Spring))[4] == 0.8 && Center(SeasonalBounds(Spring))[5] == 0.1;
  }

  /** In spring, with integrity and deception both at 110 and everything else at the center, two thousand sweeps
      are not enough: the projection misses the nearest point by more than 1e-12 (squared, and compared with
      the distance to the center). */
  lemma FarInputIsMissed(name: string) returns (x: Vec, z: Vec)
    requires SeasonOf(name) == Spring
    ensures |x| == |z| == DIMENSIONS && WellFormed(LatticeOfSeason(name), DIMENSIONS) && Nearest(LatticeOfSeason(name), x, z)
    ensures Dist2(Projected(LatticeOfSeason(name), CenterOfSeason(name), x), z)
          > 0.000000000001 * Dist2(x, CenterOfSeason(name))
    ensures Around(x, CenterOfSeason(name), 110.0)
  {
    x, z := CenterBut(110.0, 110.0), CenterBut(0.9, 0.2);
    CornerIsNearest();
    StalledProjection(MAX_SWEEPS);
    StalledLanding(MAX_NUDGES);
    CenterIsBut();
    MissedBy(CenterOfSeason(name));
    ButIsAround(110.0, 110.0);
  }
}
