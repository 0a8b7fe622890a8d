/** Bytes, and numbers written as bytes, most significant first. */
module ByteOrder {

  type Byte = b: int | 0 <= b < 256

  /** The last n bytes of a number. */
  function BigEndian(x: nat, n: nat): (r: seq<Byte>)
    ensures |r| == n
    decreases n, 1
  {
    if n == 0 then [] else BigEndianOn(x, n)
  }

  function BigEndianOn(x: nat, n: nat): (r: seq<Byte>)
    requires n > 0
    ensures |r| == n
    decreases n, 0
  {
    BigEndian(x / 256, n - 1) + [x % 256]
  }

  /** The number some bytes stand for. */
  function FromBigEndian(s: seq<Byte>): nat {
    if |s| == 0 then 0 else FromBigEndian(s[..|s| - 1]) * 256 + s[|s| - 1]
  }

  function Pow256(n: nat): (r: nat)
    ensures r > 0
  {
    if n == 0 then 1 else 256 * Pow256(n - 1)
  }

  lemma {:induction false} BigEndianLast(x: nat, n: nat)
    requires n > 0
    ensures BigEndian(x, n)[..n - 1] == BigEndian(x / 256, n - 1) && BigEndian(x, n)[n - 1] == x % 256
  {
    assert BigEndian(x, n) == BigEndianOn(x, n);
  }

  /** A number that fits comes back. */
  lemma {:induction false} BigEndianRoundTrip(x: nat, n: nat)
    requires x < Pow256(n)
    ensures FromBigEndian(BigEndian(x, n)) == x
  {
    if n > 0 {
      BigEndianRoundTrip(x / 256, n - 1);
      BigEndianLast(x, n);
    }
  }

  /** A number that does not fit comes back smaller. */
  lemma {:induction false} BigEndianCut(x: nat, n: nat)
    requires x >= Pow256(n)
    ensures FromBigEndian(BigEndian(x, n)) < x
  {
    if n > 0 {
      BigEndianCut(x / 256, n - 1);
      BigEndianLast(x, n);
    }
  }
}
