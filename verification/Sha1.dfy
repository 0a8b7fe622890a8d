/** SHA-1 (RFC 3174): the block function, the padding, and a digest that takes its data in pieces. */
module Sha1 {
  import opened Sequences
  import opened ByteOrder

  const BLOCK: nat := 64

  /** The five words of the state. */
  datatype Words = Words(a: bv32, b: bv32, c: bv32, d: bv32, e: bv32)

  const INITIAL: Words := Words(0x67452301, 0xefcdab89, 0x98badcfe, 0x10325476, 0xc3d2e1f0)

  function Rol(v: bv32, n: bv32): bv32
    requires 0 < n < 32
  {
    (v << n) | (v >> (32 - n))
  }

  /** Four bytes as a word, most significant first. */
  function WordAt(block: seq<Byte>, t: nat): bv32
    requires |block| == BLOCK && t < 16
  {
    ((block[4 * t] as bv32) << 24) | ((block[4 * t + 1] as bv32) << 16)
    | ((block[4 * t + 2] as bv32) << 8) | (block[4 * t + 3] as bv32)
  }

  function Extended(a: bv32, b: bv32, c: bv32, d: bv32): bv32 {
    Rol(a ^ b ^ c ^ d, 1)
  }

  /** Word t of the message schedule. */
  function Schedule(block: seq<Byte>, t: nat): bv32
    requires |block| == BLOCK
    decreases t
  {
    if t < 16 then WordAt(block, t)
    else Extended(Schedule(block, t - 3), Schedule(block, t - 8), Schedule(block, t - 14), Schedule(block, t - 16))
  }

  function Mix(t: nat, b: bv32, c: bv32, d: bv32): bv32 {
    if t < 20 then (b & c) | (!b & d)
    else if t < 40 then b ^ c ^ d
    else if t < 60 then (b & c) | (b & d) | (c & d)
    else b ^ c ^ d
  }

  function Constant(t: nat): bv32 {
    if t < 20 then 0x5a827999 else if t < 40 then 0x6ed9eba1 else if t < 60 then 0x8f1bbcdc else 0xca62c1d6
  }

  function NewWord(s: Words, t: nat, w: bv32): bv32 {
    Rol(s.a, 5) + Mix(t, s.b, s.c, s.d) + s.e + Constant(t) + w
  }

  function Round(s: Words, t: nat, w: bv32): Words {
    Words(NewWord(s, t, w), s.a, Rol(s.b, 30), s.c, s.d)
  }

  /** The state after the first t rounds. */
  function Rounds(h: Words, block: seq<Byte>, t: nat): Words
    requires |block| == BLOCK
  {
    if t == 0 then h else Round(Rounds(h, block, t - 1), t - 1, Schedule(block, t - 1))
  }

  function Sum(h: Words, s: Words): Words {
    Words(h.a + s.a, h.b + s.b, h.c + s.c, h.d + s.d, h.e + s.e)
  }

  /** The block function, for a number of rounds. */
  function Compress(h: Words, block: seq<Byte>, rounds: nat): Words
    requires |block| == BLOCK
  {
    Sum(h, Rounds(h, block, rounds))
  }

  const ROUNDS: nat := 80

  /** The state after all whole blocks of a text. */
  function Absorb(text: seq<Byte>, rounds: nat): Words
    decreases |text|, 1
  {
    if |text| < BLOCK then INITIAL else AbsorbOn(text, rounds)
  }

  /** The last whole block goes in after all those before it. */
  function AbsorbOn(text: seq<Byte>, rounds: nat): Words
    requires |text| >= BLOCK
    decreases |text|, 0
  {
    var whole := |text| / BLOCK * BLOCK;
    Compress(Absorb(text[..whole - BLOCK], rounds), text[whole - BLOCK..whole], rounds)
  }

  // ---------------------------------------------------------------------------------------------
  // Padding (section 4 of RFC 3174)
  // ---------------------------------------------------------------------------------------------

  function Zeros(n: nat): (r: seq<Byte>)
    ensures |r| == n
  {
    if n == 0 then [] else Zeros(n - 1) + [0]
  }

  /** How many zero bytes bring a message of n bytes and its 0x80 to eight short of a block's end. */
  function Gap(n: nat): nat {
    (119 - n % 64) % 64
  }

  const LENGTH_BYTES: nat := 8

  /** The message, a one bit, zeros, and the message's length in bits, kept to k bytes. */
  function PaddedTo(m: seq<Byte>, k: nat): seq<Byte> {
    m + [0x80] + Zeros(Gap(|m|)) + BigEndian(8 * |m| % Pow256(k), k)
  }

  function Padded(m: seq<Byte>): seq<Byte> {
    PaddedTo(m, LENGTH_BYTES)
  }

  function LowByte(w: bv32): Byte {
    (w & 0xff) as int
  }

  function WordBytes(w: bv32): seq<Byte> {
    [LowByte(w >> 24), LowByte(w >> 16), LowByte(w >> 8), LowByte(w)]
  }

  function Output(h: Words): seq<Byte> {
    WordBytes(h.a) + WordBytes(h.b) + WordBytes(h.c) + WordBytes(h.d) + WordBytes(h.e)
  }

  /** The digest of a whole message. */
  function Digest(m: seq<Byte>, rounds: nat): seq<Byte> {
    Output(Absorb(Padded(m), rounds))
  }

  lemma GapFills(n: nat)
    ensures (n + 1 + Gap(n) + 8) % 64 == 0 && Gap(n) < 64
  {
    var r, q := n % 64, n / 64;
    if r <= 55 {
      assert Gap(n) == 55 - r;
      assert n + 1 + Gap(n) + 8 == 64 * (q + 1);
    } else {
      assert Gap(n) == 119 - r;
      assert n + 1 + Gap(n) + 8 == 64 * (q + 2);
    }
  }

  lemma PaddingFills(m: seq<Byte>, k: nat)
    requires k == LENGTH_BYTES
    ensures |PaddedTo(m, k)| % BLOCK == 0
    ensures |m| + 9 <= |PaddedTo(m, k)| < |m| + 9 + BLOCK
  {
    GapFills(|m|);
    assert |PaddedTo(m, k)| == |m| + 1 + Gap(|m|) + k;
  }

  /** With its eight bytes of length, the padded message fills whole blocks, and is the shortest that does. */
  lemma PaddedFillsBlocks(m: seq<Byte>)
    ensures |PaddedTo(m, LENGTH_BYTES)| % BLOCK == 0
    ensures |m| + 9 <= |PaddedTo(m, LENGTH_BYTES)| < |m| + 9 + BLOCK
  {
    PaddingFills(m, LENGTH_BYTES);
  }

  lemma Ends(a: seq<Byte>, b: seq<Byte>, c: seq<Byte>)
    ensures (a + b + c)[..|a|] == a && (a + b + c)[|a + b + c| - |c|..] == c
  {
  }

  lemma SmallRemainder(x: nat, m: nat, r: nat)
    requires x < m && r == x % m
    ensures r == x
  {
  }

  lemma {:induction false} PaddedParts(m: seq<Byte>, k: nat)
    requires 8 * |m| < Pow256(k)
    ensures var p := PaddedTo(m, k);
            |p| >= |m| + k && p[..|m|] == m && FromBigEndian(p[|p| - k..]) == 8 * |m|
  {
    var bits := 8 * |m| % Pow256(k);
    var middle := [0x80] + Zeros(Gap(|m|));
    var tail := BigEndian(bits, k);
    SmallRemainder(8 * |m|, Pow256(k), bits);
    BigEndianRoundTrip(bits, k);
    Regroup(m, [0x80], Zeros(Gap(|m|)));
    assert PaddedTo(m, k) == m + middle + tail;
    Ends(m, middle, tail);
  }

  /** Padding hides nothing: messages whose lengths in bits fit the length field are told apart. */
  lemma {:induction false} PaddingIsInjective(m: seq<Byte>, n: seq<Byte>, k: nat)
    requires PaddedTo(m, k) == PaddedTo(n, k) && 8 * |m| < Pow256(k) && 8 * |n| < Pow256(k)
    ensures m == n
  {
    PaddedParts(m, k);
    PaddedParts(n, k);
  }

  // ---------------------------------------------------------------------------------------------
  // The digest in pieces
  // ---------------------------------------------------------------------------------------------

  lemma {:induction false} AbsorbBlock(text: seq<Byte>, block: seq<Byte>, rounds: nat)
    requires |text| % BLOCK == 0 && |block| == BLOCK
    ensures Absorb(text + block, rounds) == Compress(Absorb(text, rounds), block, rounds)
  {
    var whole := |text| + BLOCK;
    assert |text + block| / BLOCK * BLOCK == whole;
    assert (text + block)[..whole - BLOCK] == text;
    assert (text + block)[whole - BLOCK..whole] == block;
    assert Absorb(text + block, rounds) == AbsorbOn(text + block, rounds);
  }

  /** The first n words of the schedule. */
  ghost function Table(bytes: seq<Byte>, n: nat): (r: seq<bv32>)
    requires |bytes| == BLOCK
    ensures |r| == n
    decreases n, 0
  {
    if n == 0 then [] else TableNext(bytes, n - 1)
  }

  ghost function TableNext(bytes: seq<Byte>, n: nat): (r: seq<bv32>)
    requires |bytes| == BLOCK
    ensures |r| == n + 1
    decreases n, 1
  {
    Table(bytes, n) + [Schedule(bytes, n)]
  }

  lemma {:induction false} TableAt(bytes: seq<Byte>, n: nat, t: nat)
    requires |bytes| == BLOCK && t < n
    ensures Table(bytes, n)[t] == Schedule(bytes, t)
  {
    assert Table(bytes, n) == TableNext(bytes, n - 1);
    if t < n - 1 {
      TableAt(bytes, n - 1, t);
    }
  }

  method FirstWord(bytes: seq<Byte>, t: nat) returns (word: bv32)
    requires |bytes| == BLOCK && t < 16
    ensures Table(bytes, t + 1) == Table(bytes, t) + [word]
  {
    word := WordAt(bytes, t);
    assert Table(bytes, t + 1) == TableNext(bytes, t);
  }

  method NextWord(w: array<bv32>, ghost bytes: seq<Byte>, t: nat) returns (word: bv32)
    requires |bytes| == BLOCK && 16 <= t < w.Length && w[..t] == Table(bytes, t)
    ensures Table(bytes, t + 1) == Table(bytes, t) + [word]
  {
    TableAt(bytes, t, t - 3);
    TableAt(bytes, t, t - 8);
    TableAt(bytes, t, t - 14);
    TableAt(bytes, t, t - 16);
    var a, b, c, d := w[t - 3], w[t - 8], w[t - 14], w[t - 16];
    assert a == w[..t][t - 3] && b == w[..t][t - 8] && c == w[..t][t - 14] && d == w[..t][t - 16];
    word := Extended(a, b, c, d);
    assert Table(bytes, t + 1) == TableNext(bytes, t);
  }

  method PutWord(w: array<bv32>, i: nat, word: bv32)
    requires i < w.Length
    modifies w
    ensures w[..i + 1] == old(w[..i]) + [word]
  {
    w[i] := word;
  }

  /** The words of the block itself. */
  method TabulateHead(bytes: seq<Byte>, w: array<bv32>, n: nat)
    requires |bytes| == BLOCK && n <= 16 && n <= w.Length
    modifies w
    ensures w[..n] == Table(bytes, n)
  {
    var i := 0;
    while i < n
      invariant 0 <= i <= n && w[..i] == Table(bytes, i)
    {
      var word := FirstWord(bytes, i);
      PutWord(w, i, word);
      i := i + 1;
    }
  }

  /** The words that follow from earlier ones. */
  method TabulateTail(ghost bytes: seq<Byte>, w: array<bv32>, n: nat)
    requires |bytes| == BLOCK && 16 <= n <= w.Length && w[..n] == Table(bytes, n)
    modifies w
    ensures w[..] == Table(bytes, w.Length)
  {
    var i := n;
    while i < w.Length
      invariant n <= i <= w.Length && w[..i] == Table(bytes, i)
    {
      var word := NextWord(w, bytes, i);
      PutWord(w, i, word);
      i := i + 1;
    }
    assert w[..i] == w[..];
  }

  method Tabulate(bytes: seq<Byte>, n: nat) returns (w: array<bv32>)
    requires |bytes| == BLOCK && n >= 16
    ensures fresh(w) && w[..] == Table(bytes, n)
  {
    w := new bv32[n];
    TabulateHead(bytes, w, 16);
    TabulateTail(bytes, w, 16);
  }

  method CompressBlock(h: Words, ghost text: seq<Byte>, bytes: seq<Byte>, rounds: nat) returns (r: Words)
    requires |bytes| == BLOCK && rounds >= 16 && |text| % BLOCK == 0 && h == Absorb(text, rounds)
    ensures r == Absorb(text + bytes, rounds)
  {
    var w := Tabulate(bytes, rounds);
    var s := RunRounds(h, bytes, w, rounds);
    AbsorbBlock(text, bytes, rounds);
    r := Sum(h, s);
  }

  method RunRounds(h: Words, ghost bytes: seq<Byte>, w: array<bv32>, n: nat) returns (s: Words)
    requires |bytes| == BLOCK && w.Length == n && w[..] == Table(bytes, n)
    ensures s == Rounds(h, bytes, n)
  {
    var a, b, c, d, e := h.a, h.b, h.c, h.d, h.e;
    var i := 0;
    while i < n
      invariant 0 <= i <= n
      invariant Words(a, b, c, d, e) == Rounds(h, bytes, i)
    {
      TableAt(bytes, n, i);
      assert w[i] == w[..][i];
      var temp := NewWord(Words(a, b, c, d, e), i, w[i]);
      e, d, c, b, a := d, c, Rol(b, 30), a, temp;
      i := i + 1;
    }
    s := Words(a, b, c, d, e);
  }

  class Hasher {
    const rounds: nat
    var h: Words
    var length: nat
    var block: array<Byte>
    var blockLen: nat
    /** The blocks absorbed so far. */
    ghost var whole: seq<Byte>

    /** Everything taken in so far: the blocks absorbed, and what still stands in the block. */
    ghost function Seen(): seq<Byte>
      requires blockLen <= block.Length
      reads this, block
    {
      whole + block[..blockLen]
    }

    ghost predicate Buffered()
      reads this, block
    {
      block.Length == BLOCK && blockLen < BLOCK && rounds >= 16 && |whole| % BLOCK == 0 && h == Absorb(whole, rounds)
    }

    ghost predicate Valid()
      reads this, block
    {
      Buffered() && length == |Seen()|
    }

    constructor (rounds: nat)
      requires rounds >= 16
      ensures Valid() && Seen() == [] && fresh(block) && this.rounds == rounds
    {
      this.rounds := rounds;
      h, length, blockLen, whole := INITIAL, 0, 0, [];
      block := new Byte[BLOCK];
    }

    /** The schedule is tabulated first, then the rounds are run over it. */
    method ProcessBlock()
      requires block.Length == BLOCK && rounds >= 16
      requires |whole| % BLOCK == 0 && h == Absorb(whole, rounds)
      modifies this
      ensures whole == old(whole) + block[..] && h == Absorb(whole, rounds) && blockLen == 0
      ensures block == old(block) && length == old(length)
    {
      h := CompressBlock(h, whole, block[..], rounds);
      whole := whole + block[..];
      blockLen := 0;
    }

    /** The bytes are copied in behind those already in the block. */
    method CopyIn(bytes: seq<Byte>)
      requires block.Length == BLOCK && blockLen + |bytes| <= BLOCK
      modifies block
      ensures block[..blockLen] == old(block[..blockLen])
      ensures block[blockLen..blockLen + |bytes|] == bytes
    {
      var i := 0;
      while i < |bytes|
        invariant 0 <= i <= |bytes|
        invariant block[..blockLen] == old(block[..blockLen])
        invariant block[blockLen..blockLen + i] == bytes[..i]
      {
        block[blockLen + i] := bytes[i];
        i := i + 1;
      }
    }

    method Fill(bytes: seq<Byte>)
      requires block.Length == BLOCK && blockLen + |bytes| <= BLOCK
      modifies this`blockLen, block
      ensures blockLen == old(blockLen) + |bytes|
      ensures Seen() == old(Seen()) + bytes
    {
      CopyIn(bytes);
      assert block[..blockLen + |bytes|] == old(block[..blockLen]) + bytes;
      Regroup(whole, old(block[..blockLen]), bytes);
      blockLen := blockLen + |bytes|;
    }

    /** At most as many bytes as the block has room for are taken in; a full block is processed. */
    method TakeIn(bytes: seq<Byte>)
      requires Buffered() && blockLen + |bytes| <= BLOCK
      modifies this, block
      ensures Buffered() && block == old(block) && length == old(length)
      ensures Seen() == old(Seen()) + bytes
    {
      Fill(bytes);
      if blockLen == BLOCK {
        assert block[..BLOCK] == block[..];
        WholeAgain(whole, block[..]);
        ProcessBlock();
        assert block[..blockLen] == [];
      }
    }

    /** Any amount of data: the block is filled and processed as often as it takes. */
    method Update(data: seq<Byte>)
      requires Valid()
      modifies this, block
      ensures Valid() && block == old(block) && Seen() == old(Seen()) + data
    {
      length := length + |data|;
      var i := 0;
      while i < |data|
        invariant 0 <= i <= |data|
        invariant Buffered() && block == old(block) && length == old(length) + |data|
        invariant Seen() == old(Seen()) + data[..i]
      {
        var room := BLOCK - blockLen;
        var take := if |data| - i < room then |data| - i else room;
        NextPiece(old(Seen()), data, i, i + take);
        TakeIn(data[i..i + take]);
        i := i + take;
      }
      assert data[..i] == data;
    }

    /** Pads what was seen and reads the state out. The padding loop always ends. */
    method Finish(k: nat) returns (out: seq<Byte>)
      requires Valid() && k == LENGTH_BYTES
      modifies this, block
      ensures out == Output(Absorb(PaddedTo(old(Seen()), k), rounds))
    {
      ghost var m := Seen();
      var bits := 8 * length % Pow256(k);
      Update([0x80]);
      PadWithZeros(m);
      Update(BigEndian(bits, k));
      PaddingFills(m, k);
      NothingLeft(whole, block[..blockLen]);
      out := Output(h);
    }

    method PadWithZeros(ghost m: seq<Byte>)
      requires Valid() && Seen() == m + [0x80]
      modifies this, block
      ensures Valid() && block == old(block) && Seen() == m + [0x80] + Zeros(Gap(|m|))
    {
      ghost var z := 0;
      assert Zeros(0) == [];
      BlockPosition(whole, block[..blockLen]);
      while blockLen != 56
        invariant Valid() && block == old(block) && blockLen == |Seen()| % BLOCK
        invariant z <= Gap(|m|) && Seen() == m + [0x80] + Zeros(z)
        decreases Gap(|m|) - z
      {
        PaddedSoFar(m, z, Seen());
        PutZero(m + [0x80], z);
        z := z + 1;
      }
      PaddedSoFar(m, z, Seen());
    }

    method PutZero(ghost text: seq<Byte>, ghost z: nat)
      requires Valid() && Seen() == text + Zeros(z)
      modifies this, block
      ensures Valid() && block == old(block) && Seen() == text + Zeros(z + 1)
      ensures blockLen == |Seen()| % BLOCK
    {
      OneMoreZero(text, z);
      Update([0]);
      BlockPosition(whole, block[..blockLen]);
    }
  }

  lemma NextPiece(seen: seq<Byte>, data: seq<Byte>, i: nat, j: nat)
    requires i <= j <= |data|
    ensures (seen + data[..i]) + data[i..j] == seen + data[..j]
  {
    assert data[..i] + data[i..j] == data[..j];
  }

  lemma PaddedSoFar(m: seq<Byte>, z: nat, seen: seq<Byte>)
    requires z <= Gap(|m|) && seen == m + [0x80] + Zeros(z)
    ensures |seen| % BLOCK == 56 <==> z == Gap(|m|)
  {
    GapReached(|m|, z);
  }

  lemma OneMoreZero(text: seq<Byte>, z: nat)
    ensures (text + Zeros(z)) + [0] == text + Zeros(z + 1)
  {
  }

  lemma WholeAgain(whole: seq<Byte>, block: seq<Byte>)
    requires |whole| % BLOCK == 0 && |block| == BLOCK
    ensures |whole + block| % BLOCK == 0
  {
    assert |whole + block| == BLOCK * (|whole| / BLOCK + 1);
  }

  lemma BlockPosition(whole: seq<Byte>, part: seq<Byte>)
    requires |whole| % BLOCK == 0 && |part| < BLOCK
    ensures |whole + part| % BLOCK == |part|
  {
    assert |whole + part| == BLOCK * (|whole| / BLOCK) + |part|;
  }

  lemma NothingLeft(whole: seq<Byte>, part: seq<Byte>)
    requires |whole| % BLOCK == 0 && |part| < BLOCK && |whole + part| % BLOCK == 0
    ensures whole + part == whole
  {
    BlockPosition(whole, part);
  }

  lemma GapReached(n: nat, z: nat)
    requires z <= Gap(n)
    ensures (n + 1 + z) % BLOCK == 56 <==> z == Gap(n)
  {
    var r, q := n % 64, n / 64;
    if r <= 55 {
      assert n + 1 + z == 64 * q + (r + 1 + z);
    } else if r + 1 + z < 64 {
      assert n + 1 + z == 64 * q + (r + 1 + z);
    } else {
      assert n + 1 + z == 64 * (q + 1) + (r + 1 + z - 64);
    }
  }

  function Joined(pieces: seq<seq<Byte>>): seq<Byte> {
    if |pieces| == 0 then [] else Joined(pieces[..|pieces| - 1]) + pieces[|pieces| - 1]
  }

  /** However a message is cut into pieces, the digest is that of the whole message. */
  method HashPieces(pieces: seq<seq<Byte>>, rounds: nat, k: nat) returns (out: seq<Byte>)
    requires rounds >= 16 && k == LENGTH_BYTES
    ensures out == Output(Absorb(PaddedTo(Joined(pieces), k), rounds))
  {
    var sha := new Hasher(rounds);
    var i := 0;
    while i < |pieces|
      invariant 0 <= i <= |pieces|
      invariant sha.Valid() && fresh(sha) && fresh(sha.block) && sha.rounds == rounds
      invariant sha.Seen() == Joined(pieces[..i])
    {
      assert pieces[..i + 1][..i] == pieces[..i];
      sha.Update(pieces[i]);
      i := i + 1;
    }
    assert pieces[..i] == pieces;
    out := sha.Finish(k);
  }

  /** SHA-1 of a message that arrives in pieces. */
  method HashMessage(pieces: seq<seq<Byte>>) returns (out: seq<Byte>)
    ensures out == Digest(Joined(pieces), ROUNDS)
  {
    out := HashPieces(pieces, ROUNDS, LENGTH_BYTES);
  }
}
