/** Base64 (section 4 of RFC 4648): the encoder's groups, and a decoder with a 32-bit accumulator. */
module Base64 {
  import opened ByteOrder

  type Sextet = v: int | 0 <= v < 64

  /** The value of a letter, or -1. */
  function Value(c: char): (v: int)
    ensures -1 <= v < 64
  {
    if 'A' <= c <= 'Z' then c as int - 'A' as int
    else if 'a' <= c <= 'z' then c as int - 'a' as int + 26
    else if '0' <= c <= '9' then c as int - '0' as int + 52
    else if c == '+' then 62
    else if c == '/' then 63
    else -1
  }

  /** The alphabet: capitals, small letters, digits, plus and slash. */
  function Letter(v: Sextet): char {
    if v < 26 then ('A' as int + v) as char
    else if v < 52 then ('a' as int + v - 26) as char
    else if v < 62 then ('0' as int + v - 52) as char
    else if v == 62 then '+'
    else '/'
  }

  predicate Ignored(c: char) {
    Value(c) < 0
  }

  /** Letters and values are each other's inverse, and '=' is no letter. */
  lemma AlphabetIsExact(v: Sextet, c: char)
    ensures Value(Letter(v)) == v
    ensures !Ignored(c) ==> Letter(Value(c)) == c
    ensures Ignored('=') && Ignored('\n') && Ignored('\r')
  {
  }

  /** The alphabet by character code. */
  lemma AlphabetInNumbers(v: Sextet)
    ensures v <= 25 ==> Letter(v) as int == 65 + v
    ensures 26 <= v <= 51 ==> Letter(v) as int == 71 + v
    ensures 52 <= v <= 61 ==> Letter(v) as int == v - 4
    ensures v == 62 ==> Letter(v) as int == 43
    ensures v == 63 ==> Letter(v) as int == 47
  {
    assert 'A' as int == 65 && 'a' as int == 97 && '0' as int == 48 && '+' as int == 43 && '/' as int == 47;
  }

  // ---------------------------------------------------------------------------------------------
  // Encoding
  // ---------------------------------------------------------------------------------------------

  function Triple(a: Byte, b: Byte, c: Byte): (t: nat)
    ensures t < 0x1000000
  {
    a * 65536 + b * 256 + c
  }

  /** The four letters of a group of `size` bytes (missing bytes count as zero). */
  function Group(a: Byte, b: Byte, c: Byte, size: nat): (r: string)
    ensures |r| == 4
  {
    var t := Triple(a, b, c);
    [Letter(t / 262144 % 64), Letter(t / 4096 % 64),
     if size > 1 then Letter(t / 64 % 64) else '=',
     if size > 2 then Letter(t % 64) else '=']
  }

  function Encode(data: seq<Byte>): string
    decreases |data|, 1
  {
    if |data| == 0 then "" else EncodeOn(data)
  }

  /** The next group, and the encoding of what comes behind it. */
  function EncodeOn(data: seq<Byte>): string
    requires |data| > 0
    decreases |data|, 0
  {
    if |data| == 1 then Group(data[0], 0, 0, 1)
    else if |data| == 2 then Group(data[0], data[1], 0, 2)
    else Group(data[0], data[1], data[2], 3) + Encode(data[3..])
  }

  // ---------------------------------------------------------------------------------------------
  // Decoding
  // ---------------------------------------------------------------------------------------------

  const TWO_32: int := 0x1_0000_0000

  /** The decoder's state: a 32-bit accumulator and how many of its low bits are still to be written out. */
  datatype Decoder = Decoder(buffer: nat, bits: nat)

  const FRESH: Decoder := Decoder(0, 0)

  function Power(bits: nat): nat {
    if bits == 0 then 1 else if bits == 2 then 4 else if bits == 4 then 16 else 64
  }

  /** One letter: six bits are shifted in, the accumulator keeping its low 32; a whole byte is written out
      as soon as there is one. */
  function Take(d: Decoder, v: Sextet): (Decoder, seq<Byte>)
    requires d.bits in {0, 2, 4, 6}
  {
    var buffer := (d.buffer * 64 + v) % TWO_32;
    if d.bits + 6 >= 8 then (Decoder(buffer, d.bits - 2), [buffer / Power(d.bits - 2) % 256])
    else (Decoder(buffer, d.bits + 6), [])
  }

  /** What the decoder writes for the rest of a text. */
  function DecodeFrom(d: Decoder, s: string): seq<Byte>
    requires d.bits in {0, 2, 4, 6}
    decreases |s|
  {
    if |s| == 0 then []
    else if Ignored(s[0]) then DecodeFrom(d, s[1..])
    else
      var next := Take(d, Value(s[0]));
      next.1 + DecodeFrom(next.0, s[1..])
  }

  function Decode(s: string): seq<Byte> {
    DecodeFrom(FRESH, s)
  }

  // ---------------------------------------------------------------------------------------------
  // The accumulator may overflow
  // ---------------------------------------------------------------------------------------------

  /** The bits still to be written. */
  function Rest(d: Decoder): nat {
    d.buffer % Power(d.bits)
  }

  lemma LowByte1(b: nat, k: int, s: nat)
    requires b == 256 * k + s && s < 256
    ensures b / 1 % 256 == s
  {
  }

  lemma LowByte4(b: nat, k: int, s: nat)
    requires b == 1024 * k + s && s < 1024
    ensures b / 4 % 256 == s / 4 && b % 4 == s % 4
  {
    assert b / 4 == 256 * k + s / 4;
  }

  lemma LowByte16(b: nat, k: int, s: nat)
    requires b == 4096 * k + s && s < 4096
    ensures b / 16 % 256 == s / 16 && b % 16 == s % 16
  {
    assert b / 16 == 256 * k + s / 16;
  }

  /** What a 32-bit accumulator shows of six more bits, when p bounds the bits that were still to be
      written: only those and the new ones. */
  lemma ShiftIn(x: nat, v: Sextet, p: nat, m: nat)
    requires (p == 4 && m == 1) || (p == 16 && m == 4) || (p == 64 && m == 16)
    ensures var b := (x * 64 + v) % TWO_32;
            b / m % 256 == (x % p * 64 + v) / m && b % m == (x % p * 64 + v) % m
  {
    var q, s, b, h := x / p, x % p * 64 + v, (x * 64 + v) % TWO_32, (x * 64 + v) / TWO_32;
    if m == 1 {
      LowByte1(b, q - 0x100_0000 * h, s);
    } else if m == 4 {
      LowByte4(b, q - 0x40_0000 * h, s);
    } else {
      LowByte16(b, q - 0x10_0000 * h, s);
    }
  }

  lemma FirstSextet(x: nat, v: Sextet)
    ensures (x * 64 + v) % TWO_32 % 64 == v
  {
    var b, h := (x * 64 + v) % TWO_32, (x * 64 + v) / TWO_32;
    assert b == 64 * (x - 0x400_0000 * h) + v;
  }

  /** What a letter does, in terms of the bits still to be written alone: everything above them, and with
      it the overflow of the accumulator, never matters. */
  lemma TakeRest(d: Decoder, v: Sextet)
    requires d.bits in {0, 2, 4, 6}
    ensures d.bits == 0 ==> Take(d, v).1 == [] && Take(d, v).0.bits == 6 && Rest(Take(d, v).0) == v
    ensures d.bits > 0 ==>
              var s, m := Rest(d) * 64 + v, Power(d.bits - 2);
              && Take(d, v).1 == [s / m % 256] && Take(d, v).0.bits == d.bits - 2 && Rest(Take(d, v).0) == s % m
  {
    if d.bits == 0 {
      FirstSextet(d.buffer, v);
    } else {
      var p, m := Power(d.bits), Power(d.bits - 2);
      ShiftedByte(d.buffer, v, p, m, (d.buffer * 64 + v) % TWO_32, Rest(d) * 64 + v);
    }
  }

  lemma ShiftedByte(x: nat, v: Sextet, p: nat, m: nat, b: nat, s: nat)
    requires (p == 4 && m == 1) || (p == 16 && m == 4) || (p == 64 && m == 16)
    requires b == (x * 64 + v) % TWO_32 && s == x % p * 64 + v
    ensures b / m % 256 == s / m % 256 && b % m == s % m
  {
    ShiftIn(x, v, p, m);
    SmallByte(x % p, v, p, m);
  }

  lemma SmallByte(rest: nat, v: Sextet, p: nat, m: nat)
    requires (p == 4 && m == 1) || (p == 16 && m == 4) || (p == 64 && m == 16)
    requires rest < p
    ensures (rest * 64 + v) / m < 256
  {
  }

  // ---------------------------------------------------------------------------------------------
  // Round trip
  // ---------------------------------------------------------------------------------------------

  lemma {:induction false} DecodeLetter(d: Decoder, v: Sextet, s: string)
    requires d.bits in {0, 2, 4, 6}
    ensures DecodeFrom(d, [Letter(v)] + s) == Take(d, v).1 + DecodeFrom(Take(d, v).0, s)
  {
    AlphabetIsExact(v, '=');
    assert ([Letter(v)] + s)[1..] == s;
  }

  lemma {:induction false} DecodeIgnored(d: Decoder, c: char, s: string)
    requires d.bits in {0, 2, 4, 6} && Ignored(c)
    ensures DecodeFrom(d, [c] + s) == DecodeFrom(d, s)
  {
    assert ([c] + s)[1..] == s;
  }

  lemma {:induction false} DecodeFirst(d: Decoder, v: Sextet, s: string) returns (e: Decoder)
    requires d.bits == 0
    ensures e.bits == 6 && Rest(e) == v
    ensures DecodeFrom(d, [Letter(v)] + s) == DecodeFrom(e, s)
  {
    e := Take(d, v).0;
    TakeRest(d, v);
    DecodeLetter(d, v, s);
    assert [] + DecodeFrom(e, s) == DecodeFrom(e, s);
  }

  lemma {:induction false} DecodeNext(d: Decoder, v: Sextet, s: string, rest: nat, m: nat) returns (e: Decoder, byte: Byte)
    requires d.bits in {2, 4, 6} && rest == Rest(d) && m == Power(d.bits - 2)
    ensures e.bits == d.bits - 2 && byte == (rest * 64 + v) / m % 256 && Rest(e) == (rest * 64 + v) % m
    ensures DecodeFrom(d, [Letter(v)] + s) == [byte] + DecodeFrom(e, s)
  {
    e := Take(d, v).0;
    TakeRest(d, v);
    DecodeLetter(d, v, s);
    byte := (rest * 64 + v) / m % 256;
  }

  lemma ThreeFromFour(u: Sextet, v: Sextet, w: Sextet, x: Sextet)
    ensures (u * 64 + v) / 16 % 256 == u * 4 + v / 16 && (u * 64 + v) % 16 == v % 16
    ensures (v % 16 * 64 + w) / 4 % 256 == v % 16 * 16 + w / 4 && (v % 16 * 64 + w) % 4 == w % 4
    ensures (w % 4 * 64 + x) / 1 % 256 == w % 4 * 64 + x
  {
    assert (u * 64 + v) / 16 == u * 4 + v / 16;
    assert (v % 16 * 64 + w) / 4 == v % 16 * 16 + w / 4;
  }

  /** Two letters, from a byte boundary: one byte, four bits pending. */
  lemma {:induction false} DecodeTwo(d: Decoder, u: Sextet, v: Sextet, s: string) returns (e: Decoder)
    requires d.bits == 0
    ensures e.bits == 4 && Rest(e) == v % 16
    ensures DecodeFrom(d, [Letter(u)] + ([Letter(v)] + s)) == [u * 4 + v / 16] + DecodeFrom(e, s)
  {
    var byte: Byte;
    var f := DecodeFirst(d, u, [Letter(v)] + s);
    e, byte := DecodeNext(f, v, s, u, 16);
    ThreeFromFour(u, v, 0, 0);
  }

  /** The third letter: one byte, two bits pending. */
  lemma {:induction false} DecodeThird(d: Decoder, pending: nat, v: Sextet, w: Sextet, s: string) returns (e: Decoder)
    requires d.bits == 4 && Rest(d) == pending == v % 16
    ensures e.bits == 2 && Rest(e) == w % 4
    ensures DecodeFrom(d, [Letter(w)] + s) == [v % 16 * 16 + w / 4] + DecodeFrom(e, s)
  {
    var byte: Byte;
    e, byte := DecodeNext(d, w, s, pending, 4);
    ThreeFromFour(0, v, w, 0);
  }

  /** The fourth letter: one byte, nothing pending. */
  lemma {:induction false} DecodeFourth(d: Decoder, pending: nat, w: Sextet, x: Sextet, s: string) returns (e: Decoder)
    requires d.bits == 2 && Rest(d) == pending == w % 4
    ensures e.bits == 0
    ensures DecodeFrom(d, [Letter(x)] + s) == [w % 4 * 64 + x] + DecodeFrom(e, s)
  {
    var byte: Byte;
    e, byte := DecodeNext(d, x, s, pending, 1);
    ThreeFromFour(0, 0, w, x);
  }

  lemma LowSextet(n: int, k: int, r: int)
    requires n == 64 * k + r && 0 <= r < 64
    ensures n % 64 == r
  {
  }

  lemma FirstOf(a: Byte, b: Byte, c: Byte, t: nat)
    requires t == a * 65536 + b * 256 + c
    ensures t / 262144 % 64 == a / 4
  {
    assert t == 262144 * (a / 4) + (a % 4 * 65536 + b * 256 + c);
    assert t / 262144 == a / 4;
  }

  lemma SecondOf(a: Byte, b: Byte, c: Byte, t: nat)
    requires t == a * 65536 + b * 256 + c
    ensures t / 4096 % 64 == a % 4 * 16 + b / 16
  {
    assert t == 4096 * (a * 16 + b / 16) + (b % 16 * 256 + c);
    assert t / 4096 == a * 16 + b / 16;
    LowSextet(t / 4096, a / 4, a % 4 * 16 + b / 16);
  }

  lemma ThirdOf(a: Byte, b: Byte, c: Byte, t: nat)
    requires t == a * 65536 + b * 256 + c
    ensures t / 64 % 64 == b % 16 * 4 + c / 64
  {
    var h := c / 64;
    assert t == 64 * (a * 1024 + b * 4 + h) + c % 64;
    assert t / 64 == a * 1024 + b * 4 + h;
    var k, r := b / 16, b % 16;
    assert b == 16 * k + r;
    LowSextet(t / 64, a * 16 + k, r * 4 + h);
  }

  lemma FourthOf(a: Byte, b: Byte, c: Byte, t: nat)
    requires t == a * 65536 + b * 256 + c
    ensures t % 64 == c % 64
  {
    LowSextet(t, a * 1024 + b * 4 + c / 64, c % 64);
  }

  lemma Rejoin(a: Byte, b: Byte, c: Byte, u: Sextet, v: Sextet, w: Sextet, x: Sextet)
    requires u == a / 4 && v == a % 4 * 16 + b / 16 && w == b % 16 * 4 + c / 64 && x == c % 64
    ensures u * 4 + v / 16 == a && v % 16 * 16 + w / 4 == b && w % 4 * 64 + x == c
  {
    assert v / 16 == a % 4 && v % 16 == b / 16;
    assert w / 4 == b % 16 && w % 4 == c / 64;
  }

  /** The sextets of three bytes give the bytes back. */
  lemma SextetsOf(a: Byte, b: Byte, c: Byte)
    ensures var t := Triple(a, b, c);
            var u, v, w, x := t / 262144 % 64, t / 4096 % 64, t / 64 % 64, t % 64;
            u * 4 + v / 16 == a && v % 16 * 16 + w / 4 == b && w % 4 * 64 + x == c
  {
    var t := Triple(a, b, c);
    FirstOf(a, b, c, t);
    SecondOf(a, b, c, t);
    ThirdOf(a, b, c, t);
    FourthOf(a, b, c, t);
    Rejoin(a, b, c, t / 262144 % 64, t / 4096 % 64, t / 64 % 64, t % 64);
  }

  /** The letters of a group, as values the bytes can be read from again. */
  lemma GroupLetters(a: Byte, b: Byte, c: Byte) returns (u: Sextet, v: Sextet, w: Sextet, x: Sextet)
    ensures u * 4 + v / 16 == a && v % 16 * 16 + w / 4 == b && w % 4 * 64 + x == c
    ensures Group(a, b, c, 3) == [Letter(u), Letter(v), Letter(w), Letter(x)]
    ensures Group(a, b, c, 2) == [Letter(u), Letter(v), Letter(w), '=']
    ensures Group(a, b, c, 1) == [Letter(u), Letter(v), '=', '=']
  {
    var t := Triple(a, b, c);
    u, v, w, x := t / 262144 % 64, t / 4096 % 64, t / 64 % 64, t % 64;
    SextetsOf(a, b, c);
  }

  /** Four letters in front of a text decode to three bytes. */
  lemma {:induction false} DecodeFour(d: Decoder, u: Sextet, v: Sextet, w: Sextet, x: Sextet, s: string) returns (e: Decoder)
    requires d.bits == 0
    ensures e.bits == 0
    ensures DecodeFrom(d, [Letter(u), Letter(v), Letter(w), Letter(x)] + s)
         == [u * 4 + v / 16, v % 16 * 16 + w / 4, w % 4 * 64 + x] + DecodeFrom(e, s)
  {
    var s3 := [Letter(x)] + s;
    var s2 := [Letter(w)] + s3;
    assert [Letter(u), Letter(v), Letter(w), Letter(x)] + s == [Letter(u)] + ([Letter(v)] + s2);
    var e1 := DecodeTwo(d, u, v, s2);
    var e2 := DecodeThird(e1, v % 16, v, w, s3);
    e := DecodeFourth(e2, w % 4, w, x, s);
    Prepend(u * 4 + v / 16, v % 16 * 16 + w / 4, w % 4 * 64 + x, DecodeFrom(e, s));
  }

  lemma Prepend(a: Byte, b: Byte, c: Byte, s: seq<Byte>)
    ensures [a] + ([b] + ([c] + s)) == [a, b, c] + s
  {
  }

  lemma {:induction false} DecodeThree(d: Decoder, u: Sextet, v: Sextet, w: Sextet)
    requires d.bits == 0
    ensures DecodeFrom(d, [Letter(u), Letter(v), Letter(w), '=']) == [u * 4 + v / 16, v % 16 * 16 + w / 4]
  {
    var s2 := [Letter(w)] + "=";
    assert [Letter(u), Letter(v), Letter(w), '='] == [Letter(u)] + ([Letter(v)] + s2);
    var e1 := DecodeTwo(d, u, v, s2);
    var e2 := DecodeThird(e1, v % 16, v, w, "=");
    DecodePadding(e2);
  }

  lemma {:induction false} DecodePair(d: Decoder, u: Sextet, v: Sextet)
    requires d.bits == 0
    ensures DecodeFrom(d, [Letter(u), Letter(v), '=', '=']) == [u * 4 + v / 16]
  {
    assert [Letter(u), Letter(v), '=', '='] == [Letter(u)] + ([Letter(v)] + "==");
    var e := DecodeTwo(d, u, v, "==");
    DecodePadding(e);
  }

  lemma {:induction false} DecodePadding(d: Decoder)
    requires d.bits in {0, 2, 4, 6}
    ensures DecodeFrom(d, "=") == [] && DecodeFrom(d, "==") == []
  {
    DecodeIgnored(d, '=', "");
    DecodeIgnored(d, '=', "=");
    assert "=" == ['='] + "" && "==" == ['='] + "=";
  }

  lemma {:induction false} DecodeGroup1(d: Decoder, a: Byte)
    requires d.bits == 0
    ensures DecodeFrom(d, Group(a, 0, 0, 1)) == [a]
  {
    var u, v, w, x := GroupLetters(a, 0, 0);
    DecodePair(d, u, v);
  }

  lemma {:induction false} DecodeGroup2(d: Decoder, a: Byte, b: Byte)
    requires d.bits == 0
    ensures DecodeFrom(d, Group(a, b, 0, 2)) == [a, b]
  {
    var u, v, w, x := GroupLetters(a, b, 0);
    DecodeThree(d, u, v, w);
  }

  lemma {:induction false} DecodeGroup3(d: Decoder, a: Byte, b: Byte, c: Byte, s: string) returns (e: Decoder)
    requires d.bits == 0
    ensures e.bits == 0 && DecodeFrom(d, Group(a, b, c, 3) + s) == [a, b, c] + DecodeFrom(e, s)
  {
    var u, v, w, x := GroupLetters(a, b, c);
    e := DecodeFour(d, u, v, w, x, s);
  }

  lemma {:induction false} RoundTripFrom(d: Decoder, data: seq<Byte>)
    requires d.bits == 0
    ensures DecodeFrom(d, Encode(data)) == data
    decreases |data|
  {
    if |data| == 0 {
    } else if |data| == 1 {
      DecodeGroup1(d, data[0]);
    } else if |data| == 2 {
      DecodeGroup2(d, data[0], data[1]);
    } else {
      var e := DecodeGroup3(d, data[0], data[1], data[2], Encode(data[3..]));
      RoundTripFrom(e, data[3..]);
      assert data == [data[0], data[1], data[2]] + data[3..];
    }
  }

  /** Decoding an encoding gives the bytes back, however far the accumulator has overflowed. */
  lemma {:induction false} RoundTrip(data: seq<Byte>)
    ensures Decode(Encode(data)) == data
  {
    RoundTripFrom(FRESH, data);
  }

  /** The test vector "foo" of section 10 of RFC 4648. */
  lemma {:induction false} StandardVector(data: seq<Byte>)
    requires data == [102, 111, 111]
    ensures Encode(data) == "Zm9v"
  {
    assert Triple(102, 111, 111) == 6713199;
    assert Group(102, 111, 111, 3) == "Zm9v";
    assert Encode(data) == EncodeOn(data) == Group(102, 111, 111, 3) + Encode([]);
  }

  /** ... and the shorter ones before it, with their padding. */
  lemma {:induction false} PaddedVectors(one: seq<Byte>, two: seq<Byte>)
    requires one == [102] && two == [102, 111]
    ensures Encode(one) == "Zg==" && Encode(two) == "Zm8="
  {
    assert Triple(102, 0, 0) == 6684672 && Triple(102, 111, 0) == 6713088;
    assert Group(102, 0, 0, 1) == "Zg==" && Group(102, 111, 0, 2) == "Zm8=";
    assert Encode(one) == EncodeOn(one) && Encode(two) == EncodeOn(two);
  }

  /** The letters of a text, without everything the decoder skips. */
  function Letters(s: string): string {
    if |s| == 0 then "" else (if Ignored(s[0]) then "" else [s[0]]) + Letters(s[1..])
  }

  lemma {:induction false} DecodeSkips(d: Decoder, s: string)
    requires d.bits in {0, 2, 4, 6}
    ensures DecodeFrom(d, s) == DecodeFrom(d, Letters(s))
    decreases |s|
  {
    if |s| > 0 {
      if Ignored(s[0]) {
        DecodeSkips(d, s[1..]);
        assert Letters(s) == Letters(s[1..]);
      } else {
        DecodeSkips(Take(d, Value(s[0])).0, s[1..]);
        assert Letters(s)[1..] == Letters(s[1..]);
      }
    }
  }

  /** Whatever has the letters of an encoding, with line breaks, padding or other characters put in or left
      out anywhere, decodes to the bytes. */
  lemma {:induction false} RoundTripThroughNoise(data: seq<Byte>, s: string)
    requires Letters(s) == Letters(Encode(data))
    ensures Decode(s) == data
  {
    DecodeSkips(FRESH, s);
    DecodeSkips(FRESH, Encode(data));
    RoundTrip(data);
  }

  lemma OneGroupMore(n: nat)
    requires n > 2
    ensures (n + 2) / 3 * 4 == 4 + (n - 3 + 2) / 3 * 4
  {
  }

  lemma {:induction false} LengthNext(data: seq<Byte>)
    requires |data| > 0
    ensures |Encode(data)| == 4 + (if |data| > 2 then |Encode(data[3..])| else 0)
  {
    assert Encode(data) == EncodeOn(data);
  }

  lemma NoBytes(data: seq<Byte>)
    requires |data| == 0
    ensures Encode(data) == ""
  {
  }

  lemma LastGroup(n: nat)
    requires 0 < n <= 2
    ensures (n + 2) / 3 * 4 == 4
  {
  }

  /** Four letters for every three bytes or part of three. */
  lemma {:induction false} EncodedLength(data: seq<Byte>)
    ensures |Encode(data)| == (|data| + 2) / 3 * 4
    decreases |data|
  {
    if |data| == 0 {
      NoBytes(data);
    } else {
      LengthNext(data);
      if |data| > 2 {
        EncodedLength(data[3..]);
        OneGroupMore(|data|);
      } else {
        LastGroup(|data|);
      }
    }
  }

  // ---------------------------------------------------------------------------------------------
  // The loops
  // ---------------------------------------------------------------------------------------------

  lemma {:induction false} EncodeRest(data: seq<Byte>, i: nat)
    requires i < |data|
    ensures Encode(data[i..])
         == Group(data[i], if i + 1 < |data| then data[i + 1] else 0, if i + 2 < |data| then data[i + 2] else 0,
                  if |data| - i >= 3 then 3 else |data| - i)
            + (if i + 3 <= |data| then Encode(data[i + 3..]) else "")
  {
    if i + 3 <= |data| {
      assert data[i..][3..] == data[i + 3..];
    }
  }

  method EncodeBytes(data: seq<Byte>) returns (r: string)
    ensures r == Encode(data)
  {
    r := "";
    var i := 0;
    while i < |data|
      invariant 0 <= i
      invariant r + (if i <= |data| then Encode(data[i..]) else "") == Encode(data)
    {
      var a := data[i];
      var b: Byte := if i + 1 < |data| then data[i + 1] else 0;
      var c: Byte := if i + 2 < |data| then data[i + 2] else 0;
      EncodeRest(data, i);
      r := r + Group(a, b, c, if |data| - i >= 3 then 3 else |data| - i);
      i := i + 3;
    }
  }

  method DecodeText(s: string) returns (out: seq<Byte>)
    ensures out == Decode(s)
  {
    out := [];
    var d := FRESH;
    var i := 0;
    while i < |s|
      invariant 0 <= i <= |s|
      invariant d.bits in {0, 2, 4, 6}
      invariant out + DecodeFrom(d, s[i..]) == Decode(s)
    {
      var v := Value(s[i]);
      assert s[i..][1..] == s[i + 1..];
      if v >= 0 {
        var (next, bytes) := Take(d, v);
        assert out + (bytes + DecodeFrom(next, s[i + 1..])) == (out + bytes) + DecodeFrom(next, s[i + 1..]);
        d, out := next, out + bytes;
      }
      i := i + 1;
    }
  }
}
