/** Points of the value space as sequences of reals, with the inner product the loops of the
    source accumulate and the handful of bilinear laws every later proof uses. */
module Vectors {

  type Vec = seq<real>

  /** The inner product of the first `k` coordinates, in the order the source adds them up. The last
      product sits in a function of its own so that mentioning an inner product does not by itself
      bring its coordinates into a proof. */
  function DotTo(a: Vec, b: Vec, k: nat): real
    requires k <= |a| && k <= |b|
    decreases k, 0
  {
    if k == 0 then 0.0 else DotNext(a, b, k - 1)
  }

  function DotNext(a: Vec, b: Vec, k: nat): real
    requires k < |a| && k < |b|
    decreases k, 1
  {
    DotTo(a, b, k) + a[k] * b[k]
  }

  function Dot(a: Vec, b: Vec): real
    requires |a| == |b|
  {
    DotTo(a, b, |a|)
  }

  /** y + t * a */
  function AddScaled(y: Vec, t: real, a: Vec): (r: Vec)
    requires |y| == |a|
    ensures |r| == |y|
  {
    seq(|y|, i requires 0 <= i < |y| => y[i] + t * a[i])
  }

  function Scale(t: real, a: Vec): (r: Vec)
    ensures |r| == |a|
  {
    seq(|a|, i requires 0 <= i < |a| => t * a[i])
  }

  function Minus(a: Vec, b: Vec): (r: Vec)
    requires |a| == |b|
    ensures |r| == |a|
  {
    seq(|a|, i requires 0 <= i < |a| => a[i] - b[i])
  }

  function Zeros(n: nat): (r: Vec)
    ensures |r| == n
  {
    seq(n, _ => 0.0)
  }

  /** Squared Euclidean distance. */
  function Dist2(a: Vec, b: Vec): real
    requires |a| == |b|
  {
    Dot(Minus(a, b), Minus(a, b))
  }

  lemma {:induction false} DotToSymmetric(a: Vec, b: Vec, k: nat)
    requires k <= |a| && k <= |b|
    ensures DotTo(a, b, k) == DotTo(b, a, k)
  {
    if k > 0 {
      DotToSymmetric(a, b, k - 1);
    }
  }

  lemma DotSymmetric(a: Vec, b: Vec)
    requires |a| == |b|
    ensures Dot(a, b) == Dot(b, a)
  {
    DotToSymmetric(a, b, |a|);
  }

  lemma {:induction false} DotToAddScaled(c: Vec, y: Vec, t: real, a: Vec, k: nat)
    requires |c| == |y| == |a| && k <= |c|
    ensures DotTo(c, AddScaled(y, t, a), k) == DotTo(c, y, k) + t * DotTo(c, a, k)
  {
    if k > 0 {
      DotToAddScaled(c, y, t, a, k - 1);
      Distribute(c[k - 1], y[k - 1], t, a[k - 1], DotTo(c, a, k - 1));
    }
  }

  lemma Distribute(c: real, y: real, t: real, a: real, d: real)
    ensures c * (y + t * a) == c * y + t * (c * a)
    ensures t * (d + c * a) == t * d + t * (c * a)
  {
  }

  lemma DotAddScaled(c: Vec, y: Vec, t: real, a: Vec)
    requires |c| == |y| == |a|
    ensures Dot(c, AddScaled(y, t, a)) == Dot(c, y) + t * Dot(c, a)
  {
    DotToAddScaled(c, y, t, a, |c|);
  }

  /** Moving along one direction twice is moving once by the sum. */
  lemma AddScaledTwice(y: Vec, s: real, t: real, a: Vec)
    requires |y| == |a|
    ensures AddScaled(AddScaled(y, s, a), t, a) == AddScaled(y, s + t, a)
  {
    forall i | 0 <= i < |y|
      ensures AddScaled(AddScaled(y, s, a), t, a)[i] == AddScaled(y, s + t, a)[i]
    {
      assert s * a[i] + t * a[i] == (s + t) * a[i];
    }
  }

  /** Moves along two directions commute. */
  lemma AddScaledSwap(y: Vec, s: real, a: Vec, t: real, b: Vec)
    requires |y| == |a| == |b|
    ensures AddScaled(AddScaled(y, s, a), t, b) == AddScaled(AddScaled(y, t, b), s, a)
  {
  }

  /** What is taken from y along a and given to v leaves y + v as it was. */
  lemma Exchange(y: Vec, v: Vec, t: real, a: Vec)
    requires |y| == |a| == |v|
    ensures AddScaled(AddScaled(y, t, a), 1.0, AddScaled(v, -t, a)) == AddScaled(y, 1.0, v)
  {
    forall i | 0 <= i < |y|
      ensures AddScaled(AddScaled(y, t, a), 1.0, AddScaled(v, -t, a))[i] == AddScaled(y, 1.0, v)[i]
    {
      assert t * a[i] + (-t) * a[i] == 0.0;
    }
  }

  /** Taking v from a sum y + v and then z leaves y - z. */
  lemma MinusShift(y: Vec, v: Vec, z: Vec)
    requires |y| == |v| == |z|
    ensures Minus(y, z) == AddScaled(Minus(AddScaled(y, 1.0, v), z), -1.0, v)
  {
    forall i | 0 <= i < |y| ensures Minus(y, z)[i] == AddScaled(Minus(AddScaled(y, 1.0, v), z), -1.0, v)[i] {
      assert 1.0 * v[i] + -1.0 * v[i] == 0.0;
    }
  }

  /** A move is the sum of its two parts. */
  lemma MinusChain(y0: Vec, y1: Vec, y2: Vec)
    requires |y0| == |y1| == |y2|
    ensures Minus(y2, y0) == AddScaled(Minus(y1, y0), 1.0, Minus(y2, y1))
  {
  }

  /** |w - v|^2 = |w|^2 - 2 v.w + |v|^2 */
  lemma NormOfDifference(w: Vec, v: Vec)
    requires |w| == |v|
    ensures Dot(AddScaled(w, -1.0, v), AddScaled(w, -1.0, v)) == Dot(w, w) - 2.0 * Dot(v, w) + Dot(v, v)
  {
    NormAddScaled(w, -1.0, v, Dot(v, w), Dot(v, v));
  }

  lemma DotMinus(c: Vec, a: Vec, b: Vec)
    requires |c| == |a| == |b|
    ensures Dot(c, Minus(a, b)) == Dot(c, a) - Dot(c, b)
  {
    assert Minus(a, b) == AddScaled(a, -1.0, b);
    DotAddScaled(c, a, -1.0, b);
  }

  lemma {:induction false} DotZeros(c: Vec, k: nat)
    requires k <= |c|
    ensures DotTo(c, Zeros(|c|), k) == 0.0
  {
    if k > 0 {
      DotZeros(c, k - 1);
    }
  }

  lemma DotScale(c: Vec, t: real, a: Vec)
    requires |c| == |a|
    ensures Dot(c, Scale(t, a)) == t * Dot(c, a)
  {
    assert Scale(t, a) == AddScaled(Zeros(|a|), t, a);
    DotAddScaled(c, Zeros(|a|), t, a);
    DotZeros(c, |c|);
  }

  /** |y + t a|^2 = |y|^2 + 2 t (a.y) + t^2 |a|^2 */
  lemma NormAddScaled(y: Vec, t: real, a: Vec, ay: real, aa: real)
    requires |y| == |a| && ay == Dot(a, y) && aa == Dot(a, a)
    ensures Dot(AddScaled(y, t, a), AddScaled(y, t, a)) == Dot(y, y) + 2.0 * (t * ay) + t * t * aa
  {
    var z := AddScaled(y, t, a);
    DotAddScaled(z, y, t, a);
    DotSymmetric(z, y);
    DotSymmetric(z, a);
    DotAddScaled(y, y, t, a);
    DotAddScaled(a, y, t, a);
    DotSymmetric(a, y);
    Expand(t, ay, aa);
  }

  lemma Expand(t: real, u: real, v: real)
    ensures t * (u + t * v) == t * u + t * t * v
  {
  }

  lemma {:induction false} DotToSelfNonneg(a: Vec, k: nat)
    requires k <= |a|
    ensures DotTo(a, a, k) >= 0.0
  {
    if k > 0 {
      DotToSelfNonneg(a, k - 1);
      assert a[k - 1] * a[k - 1] >= 0.0;
    }
  }

  lemma NormNonneg(a: Vec)
    ensures Dot(a, a) >= 0.0
  {
    DotToSelfNonneg(a, |a|);
  }

  /** A vector of norm zero is the zero vector. */
  lemma {:induction false} NormZero(a: Vec, k: nat)
    requires k <= |a| && DotTo(a, a, k) <= 0.0
    ensures forall i :: 0 <= i < k ==> a[i] == 0.0
  {
    if k > 0 {
      DotToSelfNonneg(a, k - 1);
      if a[k - 1] != 0.0 {
        SquarePositive(a[k - 1], a[k - 1] * a[k - 1]);
        assert false;
      }
      NormZero(a, k - 1);
    }
  }

  lemma ProductNonneg(x: real, y: real, z: real)
    requires x >= 0.0 && y >= 0.0 && z == x * y
    ensures z >= 0.0
  {
  }

  lemma ProductPositive(x: real, y: real, z: real)
    requires x > 0.0 && y > 0.0 && z == x * y
    ensures z > 0.0
  {
  }

  lemma SquarePositive(x: real, y: real)
    requires x != 0.0 && y == x * x
    ensures y > 0.0
  {
    if x > 0.0 {
      ProductPositive(x, x, y);
    } else {
      ProductPositive(-x, -x, y);
    }
  }

  lemma {:induction false} NormZeroMeansZeros(a: Vec)
    requires Dot(a, a) <= 0.0
    ensures a == Zeros(|a|)
  {
    NormZero(a, |a|);
  }

  lemma Dist2Symmetric(a: Vec, b: Vec)
    requires |a| == |b|
    ensures Dist2(a, b) == Dist2(b, a)
  {
    var u := Minus(a, b);
    assert Minus(b, a) == Scale(-1.0, u);
    DotScale(Scale(-1.0, u), -1.0, u);
    DotSymmetric(Scale(-1.0, u), u);
    DotScale(u, -1.0, u);
  }

  lemma Dist2Nonneg(a: Vec, b: Vec)
    requires |a| == |b|
    ensures Dist2(a, b) >= 0.0
  {
    NormNonneg(Minus(a, b));
  }

  lemma Dist2Zero(a: Vec, b: Vec)
    requires |a| == |b|
    ensures Dist2(a, b) <= 0.0 <==> a == b
  {
    if Dist2(a, b) <= 0.0 {
      NormZeroMeansZeros(Minus(a, b));
      forall i | 0 <= i < |a| ensures a[i] == b[i] {
        assert Minus(a, b)[i] == 0.0;
      }
    } else if a == b {
      assert Minus(a, b) == Zeros(|a|);
      DotZeros(Zeros(|a|), |a|);
    }
  }

  /** |a - b|^2 <= 2 |a - c|^2 + 2 |c - b|^2 */
  lemma RelaxedTriangle(a: Vec, c: Vec, b: Vec)
    requires |a| == |b| == |c|
    ensures Dist2(a, b) <= 2.0 * Dist2(a, c) + 2.0 * Dist2(c, b)
  {
    var u, v := Minus(a, c), Minus(c, b);
    var uu, uv, vv := Dot(u, u), Dot(v, u), Dot(v, v);
    assert Minus(a, b) == AddScaled(u, 1.0, v);
    NormAddScaled(u, 1.0, v, uv, vv);
    assert Dist2(a, b) == uu + 2.0 * uv + vv;
    var t := -1.0;
    NormAddScaled(u, t, v, uv, vv);
    NormNonneg(AddScaled(u, t, v));
    assert t * uv == -uv && t * t * vv == vv;
  }

  lemma ScaleInequality(m: real, u: real, v: real)
    requires m >= 0.0 && u <= v
    ensures m * u <= m * v
  {
  }

  /** If |u|^2 <= k bound then |u + v|^2 <= (k + 1) (bound + |v|^2). */
  lemma OneMoreMove(
    u: Vec, v: Vec, k: real, c: real, bound: real, total: real, uu: real, uv: real, vv: real, t: real)
    requires |u| == |v| && k > 0.0 && c == k + 1.0 && t == -k && total == bound + vv
    requires uu == Dot(u, u) && uv == Dot(v, u) && vv == Dot(v, v) && uu <= k * bound
    ensures Dot(AddScaled(u, 1.0, v), AddScaled(u, 1.0, v)) <= c * total
  {
    NormAddScaled(u, 1.0, v, uv, vv);
    NormAddScaled(u, t, v, uv, vv);
    NormNonneg(AddScaled(u, t, v));
    OneMoreMoveArithmetic(uu, uv, vv, k, c, bound, total, t);
  }

  lemma OneMoreMoveArithmetic(
    uu: real, uv: real, vv: real, k: real, c: real, bound: real, total: real, t: real)
    requires k > 0.0 && c == k + 1.0 && t == -k && total == bound + vv
    requires uu <= k * bound && uu + 2.0 * (t * uv) + t * t * vv >= 0.0
    ensures uu + 2.0 * uv + vv <= c * total
  {
    var double, cap := 2.0 * uv, bound + k * vv;
    assert t * t * vv == k * (k * vv);
    assert k * double == 2.0 * (k * uv);
    assert k * cap == k * bound + k * (k * vv);
    assert t * uv == -(k * uv);
    var kd, kc := k * double, k * cap;
    assert kd <= kc;
    CancelFactor(k, double, cap, kd, kc);
    assert c * total == k * bound + k * vv + bound + vv;
  }

  lemma CancelFactor(k: real, u: real, v: real, ku: real, kv: real)
    requires k > 0.0 && ku == k * u && kv == k * v && ku <= kv
    ensures u <= v
  {
    assert ku / k == u && kv / k == v;
  }

  /** (a.v)^2 <= |a|^2 |v|^2 */
  lemma CauchySchwarz(a: Vec, v: Vec, av: real, aa: real, vv: real)
    requires |a| == |v| && av == Dot(a, v) && aa == Dot(a, a) > 0.0 && vv == Dot(v, v)
    ensures av * av <= aa * vv
  {
    var t := av / aa;
    NormAddScaled(v, -t, a, av, aa);
    NormNonneg(AddScaled(v, -t, a));
    assert t * aa == av;
    assert -t * -t * aa == t * av;
    assert vv - t * av >= 0.0;
    ScaleInequality(aa, t * av, vv);
    assert aa * (t * av) == av * av;
  }
}
