/** Frames as bytes: a four-byte little-endian length, a type byte, the payload. */
module Frames {
  import opened ByteOrder

  const LEN_PREFIX: nat := 4
  const FRAME_MAX: nat := 64 * 1024 * 1024

  datatype Frame = Frame(kind: Byte, payload: seq<Byte>)

  /** The low four bytes of n, least significant first. */
  function ToLittleEndian(n: nat): (r: seq<Byte>)
    ensures |r| == LEN_PREFIX
  {
    [n % 256, n / 256 % 256, n / 65536 % 256, n / 16777216 % 256]
  }

  function FromLittleEndian(b: seq<Byte>): nat
    requires |b| == LEN_PREFIX
  {
    b[0] as int + 256 * b[1] as int + 65536 * b[2] as int + 16777216 * b[3] as int
  }

  /** Reading back the length prefix gives the length, for every 32-bit length. */
  lemma LittleEndianRoundTrip(n: nat)
    requires n < 0x1_0000_0000
    ensures FromLittleEndian(ToLittleEndian(n)) == n
  {
    var a, b, c := n / 256, n / 65536, n / 16777216;
    Quotients(n);
    assert n == 256 * a + n % 256 && a == 256 * b + a % 256 && b == 256 * c + b % 256 && c % 256 == c;
  }

  lemma Quotients(n: nat)
    ensures n / 65536 == n / 256 / 256 && n / 16777216 == n / 65536 / 256
  {
  }

  function Total(f: Frame): nat {
    LEN_PREFIX + 1 + |f.payload|
  }

  function Encode(f: Frame): (r: seq<Byte>)
    ensures |r| == Total(f)
  {
    ToLittleEndian(Total(f)) + [f.kind] + f.payload
  }

  lemma {:induction false} EncodeStart(f: Frame, i: nat)
    requires i < LEN_PREFIX
    ensures Encode(f)[i] == ToLittleEndian(Total(f))[i]
  {
  }

  /** How a frame lies on the wire: its whole length, prefix included, in four bytes with the least significant
      first; its kind; and its payload. */
  lemma {:induction false} Layout(f: Frame, b: seq<Byte>)
    requires b == Encode(f) && |f.payload| < 0xffff_fffb
    ensures |b| == |f.payload| + 5 && b[4] == f.kind && b[5..] == f.payload
    ensures b[0] as int + 0x100 * b[1] as int + 0x1_0000 * b[2] as int + 0x100_0000 * b[3] as int == |f.payload| + 5
  {
    LittleEndianRoundTrip(Total(f));
  }

  ghost predicate Fits(f: Frame) {
    |f.payload| <= 67108864
  }

  /** The bytes of all the frames, one after another. */
  function Stream(fs: seq<Frame>): seq<Byte> {
    if |fs| == 0 then [] else Stream(fs[..|fs| - 1]) + Encode(fs[|fs| - 1])
  }

  /** Where frame k starts. */
  function Offset(fs: seq<Frame>, k: nat): nat
    requires k <= |fs|
  {
    |Stream(fs[..k])|
  }

  lemma {:induction false} StreamAppend(fs: seq<Frame>, f: Frame)
    ensures Stream(fs + [f]) == Stream(fs) + Encode(f)
  {
    assert (fs + [f])[..|fs|] == fs;
  }

  lemma {:induction false} OffsetNext(fs: seq<Frame>, k: nat)
    requires k < |fs|
    ensures Offset(fs, k + 1) == Offset(fs, k) + Total(fs[k])
  {
    assert fs[..k + 1][..k] == fs[..k];
  }

  lemma {:induction false} OffsetsIncrease(fs: seq<Frame>, j: nat, k: nat)
    requires j <= k <= |fs|
    ensures Offset(fs, j) <= Offset(fs, k)
    ensures j < k ==> Offset(fs, j) + Total(fs[j]) <= Offset(fs, k)
  {
    if j < k {
      OffsetNext(fs, k - 1);
      if j < k - 1 {
        OffsetsIncrease(fs, j, k - 1);
      }
    }
  }

  /** The bytes of a prefix of the frames are a prefix of the bytes. */
  lemma {:induction false} StreamPrefix(fs: seq<Frame>, k: nat)
    requires k <= |fs|
    ensures Stream(fs[..k]) <= Stream(fs)
  {
    if k == |fs| {
      assert fs[..k] == fs;
    } else {
      StreamPrefix(fs[..|fs| - 1], k);
      assert fs[..|fs| - 1][..k] == fs[..k];
    }
  }

  /** Frame k's bytes stand at its offset. */
  lemma {:induction false} FrameAt(fs: seq<Frame>, k: nat)
    requires k < |fs|
    ensures Offset(fs, k) + Total(fs[k]) <= |Stream(fs)|
    ensures Stream(fs)[Offset(fs, k)..Offset(fs, k) + Total(fs[k])] == Encode(fs[k])
  {
    StreamPrefix(fs, k + 1);
    assert fs[..k + 1][..k] == fs[..k];
    assert Stream(fs[..k + 1]) == Stream(fs[..k]) + Encode(fs[k]);
  }

  lemma OffsetAppend(fs: seq<Frame>, f: Frame, k: nat)
    requires k <= |fs|
    ensures Offset(fs + [f], k) == Offset(fs, k)
  {
    assert (fs + [f])[..k] == fs[..k];
  }

  lemma {:induction false} OffsetEnd(fs: seq<Frame>)
    ensures Offset(fs, |fs|) == |Stream(fs)|
  {
    assert fs[..|fs|] == fs;
  }
}
