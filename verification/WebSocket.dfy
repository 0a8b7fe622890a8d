/** WebSocket frames (sections 5.2 to 5.4 of RFC 6455): what the client writes, and how it reads. */
module WebSocket {
  import opened Sequences
  import opened ByteOrder
  import opened Options

  // ---------------------------------------------------------------------------------------------
  // Masking
  // ---------------------------------------------------------------------------------------------

  /** The low `bits` bits of two numbers, combined by exclusive or. */
  function Xor(a: nat, b: nat, bits: nat): nat {
    if bits == 0 then 0 else (if a % 2 == b % 2 then 0 else 1) + 2 * Xor(a / 2, b / 2, bits - 1)
  }

  function Pow2(bits: nat): nat {
    if bits == 0 then 1 else 2 * Pow2(bits - 1)
  }

  /** Bit i of a number. */
  predicate Bit(x: nat, i: nat) {
    if i == 0 then x % 2 == 1 else Bit(x / 2, i - 1)
  }

  /** Every bit of the result is set exactly when the two bits differ. */
  lemma {:induction false} XorIsBitwise(a: nat, b: nat, bits: nat, i: nat)
    requires i < bits
    ensures Bit(Xor(a, b, bits), i) <==> Bit(a, i) != Bit(b, i)
  {
    var x := Xor(a, b, bits);
    assert x / 2 == Xor(a / 2, b / 2, bits - 1);
    if i > 0 {
      XorIsBitwise(a / 2, b / 2, bits - 1, i - 1);
    }
  }

  lemma {:induction false} XorRange(a: nat, b: nat, bits: nat)
    ensures Xor(a, b, bits) < Pow2(bits)
  {
    if bits > 0 {
      XorRange(a / 2, b / 2, bits - 1);
    }
  }

  lemma {:induction false} XorTwice(a: nat, m: nat, bits: nat)
    requires a < Pow2(bits)
    ensures Xor(Xor(a, m, bits), m, bits) == a
  {
    if bits > 0 {
      var x := Xor(a, m, bits);
      XorParts(a, m, bits);
      XorParts(x, m, bits);
      XorTwice(a / 2, m / 2, bits - 1);
    }
  }

  lemma {:induction false} XorParts(a: nat, b: nat, bits: nat)
    requires bits > 0
    ensures Xor(a, b, bits) % 2 == (if a % 2 == b % 2 then 0 else 1)
    ensures Xor(a, b, bits) / 2 == Xor(a / 2, b / 2, bits - 1)
  {
  }

  lemma {:induction false} EightBits(bits: nat)
    requires bits == 8
    ensures Pow2(bits) == 256
  {
    assert Pow2(bits) == 2 * (2 * (2 * (2 * Pow2(bits - 4))));
    assert Pow2(bits - 4) == 2 * (2 * (2 * (2 * Pow2(bits - 8))));
  }

  /** A byte masked with another. */
  function MaskByte(a: Byte, m: Byte): Byte {
    EightBits(8);
    XorRange(a, m, 8);
    Xor(a, m, 8)
  }

  lemma MaskByteTwice(a: Byte, m: Byte)
    ensures MaskByte(MaskByte(a, m), m) == a
  {
    EightBits(8);
    XorTwice(a, m, 8);
  }

  type MaskKey = m: seq<Byte> | |m| == 4 witness [0, 0, 0, 0]

  /** Byte i is combined with byte i modulo 4 of the key. */
  function Masked(data: seq<Byte>, key: MaskKey): (r: seq<Byte>)
    ensures |r| == |data|
  {
    if |data| == 0 then []
    else Masked(data[..|data| - 1], key) + [MaskByte(data[|data| - 1], key[(|data| - 1) % 4])]
  }

  lemma {:induction false} MaskedAt(data: seq<Byte>, key: MaskKey, i: nat)
    requires i < |data|
    ensures Masked(data, key)[i] == MaskByte(data[i], key[i % 4])
  {
    if i < |data| - 1 {
      MaskedAt(data[..|data| - 1], key, i);
    }
  }

  /** Masking twice with one key changes nothing. */
  lemma {:induction false} MaskedTwice(data: seq<Byte>, key: MaskKey)
    ensures Masked(Masked(data, key), key) == data
  {
    forall i | 0 <= i < |data| ensures Masked(Masked(data, key), key)[i] == data[i] {
      MaskedAt(data, key, i);
      MaskedAt(Masked(data, key), key, i);
      MaskByteTwice(data[i], key[i % 4]);
    }
  }

  // ---------------------------------------------------------------------------------------------
  // Frames on the wire
  // ---------------------------------------------------------------------------------------------

  /** The three length forms: in the second byte, in two more, in eight more. */
  datatype Form = Short | Medium | Long

  datatype WireFrame = WireFrame(fin: bool, opcode: nat, key: Option<MaskKey>, data: seq<Byte>)

  /** How many further bytes of length a form has. */
  function Extra(form: Form): nat {
    match form case Short => 0 case Medium => 2 case Long => 8
  }

  ghost predicate FitsForm(n: nat, form: Form) {
    if form == Short then n < 126 else n < Pow256(Extra(form))
  }

  /** The seven length bits of the second byte. */
  function LengthCode(n: nat, form: Form): nat
    requires form == Short ==> n < 126
  {
    match form case Short => n case Medium => 126 case Long => 127
  }

  function FormOf(code: nat): Form {
    if code == 126 then Medium else if code == 127 then Long else Short
  }

  ghost predicate Wellformed(f: WireFrame, form: Form) {
    f.opcode < 16 && FitsForm(|f.data|, form)
  }

  function First(f: WireFrame): nat {
    (if f.fin then 128 else 0) + f.opcode
  }

  /** What stands before the mask and the payload: two bytes, and the length where they do not hold it. */
  ghost function Head(first: Byte, masked: bool, n: nat, form: Form): seq<Byte>
    requires FitsForm(n, form)
  {
    [first, (if masked then 128 else 0) + LengthCode(n, form)] + BigEndian(n, Extra(form))
  }

  /** The mask, if there is one, and the payload. */
  function Body(f: WireFrame): seq<Byte> {
    if f.key.Some? then f.key.value + Masked(f.data, f.key.value) else f.data
  }

  /** A frame with its length written in a given form. */
  ghost function Bytes(f: WireFrame, form: Form): seq<Byte>
    requires Wellformed(f, form)
  {
    Head(First(f), f.key.Some?, |f.data|, form) + Body(f)
  }

  /** One frame read from the front of the input, and the input behind it; nothing when the input ends
      before the frame does. */
  function ReadFrame(input: seq<Byte>): Option<(WireFrame, seq<Byte>)> {
    if |input| < 2 then None
    else
      var code := input[1] % 128;
      var extra := Extra(FormOf(code));
      if |input| < 2 + extra then None
      else
        var n := if extra == 0 then code else FromBigEndian(input[2..2 + extra]);
        ReadBody(input[0], input[1] >= 128, n, input[2 + extra..])
  }

  function ReadBody(first: Byte, masked: bool, n: nat, rest: seq<Byte>): Option<(WireFrame, seq<Byte>)> {
    if masked then
      if |rest| < 4 + n then None
      else Some((WireFrame(first >= 128, first % 16, Some(rest[..4]), Masked(rest[4..4 + n], rest[..4])), rest[4 + n..]))
    else if |rest| < n then None
    else Some((WireFrame(first >= 128, first % 16, None, rest[..n]), rest[n..]))
  }

  lemma ThreeParts(a: seq<Byte>, b: seq<Byte>, c: seq<Byte>, s: seq<Byte>)
    requires s == (a + b) + c
    ensures |s| == |a| + |b| + |c|
    ensures s[..|a|] == a && s[|a|..|a| + |b|] == b && s[|a| + |b|..] == c
  {
  }

  lemma ReadMasked(first: Byte, key: MaskKey, masked: seq<Byte>, rest: seq<Byte>, input: seq<Byte>)
    requires input == (key + masked) + rest
    ensures ReadBody(first, true, |masked|, input)
         == Some((WireFrame(first >= 128, first % 16, Some(key), Masked(masked, key)), rest))
  {
    ThreeParts(key, masked, rest, input);
  }

  lemma ReadBodyBack(f: WireFrame, rest: seq<Byte>)
    requires f.opcode < 16
    ensures ReadBody(First(f), f.key.Some?, |f.data|, Body(f) + rest) == Some((f, rest))
  {
    FirstBack(f);
    if f.key.Some? {
      MaskedTwice(f.data, f.key.value);
      ReadMasked(First(f), f.key.value, Masked(f.data, f.key.value), rest, Body(f) + rest);
    } else {
      ReadPlain(First(f), f.data, rest);
    }
  }

  lemma FirstBack(f: WireFrame)
    requires f.opcode < 16
    ensures First(f) < 256 && (First(f) >= 128 <==> f.fin) && First(f) % 16 == f.opcode
  {
  }

  lemma ReadPlain(first: Byte, data: seq<Byte>, rest: seq<Byte>)
    ensures ReadBody(first, false, |data|, data + rest)
         == Some((WireFrame(first >= 128, first % 16, None, data), rest))
  {
  }

  lemma ReadHeadBack(n: nat, form: Form, masked: bool, first: Byte, rest: seq<Byte>)
    requires FitsForm(n, form)
    ensures ReadFrame(Head(first, masked, n, form) + rest) == ReadBody(first, masked, n, rest)
  {
    var second := (if masked then 128 else 0) + LengthCode(n, form);
    var extra := Extra(form);
    var input := Head(first, masked, n, form) + rest;
    assert second % 128 == LengthCode(n, form) && FormOf(LengthCode(n, form)) == form;
    assert input[2..2 + extra] == BigEndian(n, extra) && input[2 + extra..] == rest;
    if form != Short {
      BigEndianRoundTrip(n, extra);
    }
  }

  /** Reading a frame back gives the frame, for every mask, opcode and payload, in each length form that
      can hold the length, whatever follows on the wire. */
  lemma FrameRoundTrip(f: WireFrame, form: Form, rest: seq<Byte>)
    requires Wellformed(f, form)
    ensures ReadFrame(Bytes(f, form) + rest) == Some((f, rest))
  {
    var head := Head(First(f), f.key.Some?, |f.data|, form);
    Regroup(head, Body(f), rest);
    ReadHeadBack(|f.data|, form, f.key.Some?, First(f), Body(f) + rest);
    ReadBodyBack(f, rest);
  }

  /** The form the client chooses for a length. */
  function ChosenForm(n: nat): Form {
    if n < 126 then Short else if n < 65536 then Medium else Long
  }

  /** The frame the client sends a text in: final, text, masked. */
  function TextFrame(text: seq<Byte>, key: MaskKey): WireFrame {
    WireFrame(true, 1, Some(key), text)
  }

  lemma {:induction false} LengthsFit(n: nat, k: nat)
    requires (k == 2 && n < 65536) || (k == 8 && n < 0x1_0000_0000_0000_0000)
    ensures n < Pow256(k)
  {
    assert Pow256(k) == 256 * (256 * Pow256(k - 2));
    if k == 8 {
      assert Pow256(k - 2) == 256 * (256 * (256 * Pow256(k - 5)));
      assert Pow256(k - 5) == 256 * (256 * (256 * Pow256(k - 8)));
    }
  }

  lemma ChosenFormFits(n: nat)
    requires n < 0x1_0000_0000_0000_0000
    ensures FitsForm(n, ChosenForm(n))
  {
    if 126 <= n < 65536 {
      LengthsFit(n, 2);
    } else if n >= 65536 {
      LengthsFit(n, 8);
    }
  }

  /** What is sent can be read back as the text, for every mask and every length a size can have. */
  lemma TextRoundTrip(text: seq<Byte>, key: MaskKey, rest: seq<Byte>)
    requires |text| < 0x1_0000_0000_0000_0000
    ensures Wellformed(TextFrame(text, key), ChosenForm(|text|))
    ensures ReadFrame(Bytes(TextFrame(text, key), ChosenForm(|text|)) + rest) == Some((TextFrame(text, key), rest))
  {
    ChosenFormFits(|text|);
    FrameRoundTrip(TextFrame(text, key), ChosenForm(|text|), rest);
  }

  /** The masked text frame of section 5.7 of RFC 6455, which says "Hello". */
  lemma {:induction false} HelloFrame(text: seq<Byte>, key: MaskKey)
    requires text == [0x48, 0x65, 0x6c, 0x6c, 0x6f] && key == [0x37, 0xfa, 0x21, 0x3d]
    ensures Wellformed(TextFrame(text, key), ChosenForm(|text|))
    ensures Bytes(TextFrame(text, key), ChosenForm(|text|))
         == [0x81, 0x85, 0x37, 0xfa, 0x21, 0x3d, 0x7f, 0x9f, 0x4d, 0x51, 0x58]
  {
    MaskedHello(text, key, Masked(text, key));
    var head := Head(0x81, true, |text|, Short);
    assert head == [0x81, 0x85] + BigEndian(|text|, Extra(Short)) && BigEndian(|text|, Extra(Short)) == [];
  }

  lemma {:induction false} MaskedHello(text: seq<Byte>, key: MaskKey, masked: seq<Byte>)
    requires |text| == 5 && masked == Masked(text, key)
    requires text[0] == 0x48 && text[1] == 0x65 && text[2] == 0x6c && text[3] == 0x6c && text[4] == 0x6f
    requires key[0] == 0x37 && key[1] == 0xfa && key[2] == 0x21 && key[3] == 0x3d
    ensures masked == [0x7f, 0x9f, 0x4d, 0x51, 0x58]
  {
    Hello0();
    ByteMasked(text, key, 0, 0x48, 0x37, 0x7f);
    Hello1();
    ByteMasked(text, key, 1, 0x65, 0xfa, 0x9f);
    Hello2();
    ByteMasked(text, key, 2, 0x6c, 0x21, 0x4d);
    Hello3();
    ByteMasked(text, key, 3, 0x6c, 0x3d, 0x51);
    Hello4();
    ByteMasked(text, key, 4, 0x6f, 0x37, 0x58);
  }

  lemma {:induction false} ByteMasked(text: seq<Byte>, key: MaskKey, i: nat, a: Byte, m: Byte, x: Byte)
    requires i < |text| && text[i] == a && key[i % 4] == m && Xor(a, m, 8) == x
    ensures Masked(text, key)[i] == x
  {
    MaskedAt(text, key, i);
  }

  /** One more bit, at the low end. */
  lemma {:induction false} XorStep(a: nat, m: nat, x: nat, bits: nat)
    requires Xor(a / 2, m / 2, bits) == x / 2 && (a % 2 == m % 2 <==> x % 2 == 0)
    ensures Xor(a, m, bits + 1) == x
  {
  }

  lemma Hello0()
    ensures Xor(0x48, 0x37, 8) == 0x7f
  {
    XorStep(0, 0, 0, 0); XorStep(1, 0, 1, 1); XorStep(2, 1, 3, 2); XorStep(4, 3, 7, 3);
    XorStep(9, 6, 15, 4); XorStep(18, 13, 31, 5); XorStep(36, 27, 63, 6); XorStep(72, 55, 127, 7);
  }

  lemma Hello1()
    ensures Xor(0x65, 0xfa, 8) == 0x9f
  {
    XorStep(0, 1, 1, 0); XorStep(1, 3, 2, 1); XorStep(3, 7, 4, 2); XorStep(6, 15, 9, 3);
    XorStep(12, 31, 19, 4); XorStep(25, 62, 39, 5); XorStep(50, 125, 79, 6); XorStep(101, 250, 159, 7);
  }

  lemma Hello2()
    ensures Xor(0x6c, 0x21, 8) == 0x4d
  {
    XorStep(0, 0, 0, 0); XorStep(1, 0, 1, 1); XorStep(3, 1, 2, 2); XorStep(6, 2, 4, 3);
    XorStep(13, 4, 9, 4); XorStep(27, 8, 19, 5); XorStep(54, 16, 38, 6); XorStep(108, 33, 77, 7);
  }

  lemma Hello3()
    ensures Xor(0x6c, 0x3d, 8) == 0x51
  {
    XorStep(0, 0, 0, 0); XorStep(1, 0, 1, 1); XorStep(3, 1, 2, 2); XorStep(6, 3, 5, 3);
    XorStep(13, 7, 10, 4); XorStep(27, 15, 20, 5); XorStep(54, 30, 40, 6); XorStep(108, 61, 81, 7);
  }

  lemma Hello4()
    ensures Xor(0x6f, 0x37, 8) == 0x58
  {
    XorStep(0, 0, 0, 0); XorStep(1, 0, 1, 1); XorStep(3, 1, 2, 2); XorStep(6, 3, 5, 3);
    XorStep(13, 6, 11, 4); XorStep(27, 13, 22, 5); XorStep(55, 27, 44, 6); XorStep(111, 55, 88, 7);
  }

  /** The start of a text frame in numbers: a first byte of 129, then the mask bit with the length, or with 126 or
      127 in place of one that takes two or eight bytes. */
  lemma {:induction false} TextFrameStart(text: seq<Byte>, key: MaskKey)
    requires |text| < 0x1_0000_0000_0000_0000
    ensures Wellformed(TextFrame(text, key), ChosenForm(|text|))
    ensures var n, frame := |text|, Bytes(TextFrame(text, key), ChosenForm(|text|));
            && frame[0] == 129
            && (n < 126 ==> |frame| == n + 6 && frame[1] == 128 + n && frame[2..6] == key)
            && (126 <= n < 65536 ==>
                  |frame| == n + 8 && frame[1] == 254 && 256 * frame[2] as int + frame[3] as int == n && frame[4..8] == key)
            && (65536 <= n ==>
                  |frame| == n + 14 && frame[1] == 255 && FromBigEndian(frame[2..10]) == n && frame[10..14] == key)
  {
    ChosenFormFits(|text|);
    var n, form := |text|, ChosenForm(|text|);
    var head, body := Head(129, true, n, form), Body(TextFrame(text, key));
    assert body[..4] == key;
    StartOf(head, body, 4);
    if form == Medium {
      TwoBytes(n);
    } else if form == Long {
      BigEndianRoundTrip(n, 8);
      assert (head + body)[2..10] == BigEndian(n, 8);
    }
  }

  lemma StartOf(head: seq<Byte>, body: seq<Byte>, k: nat)
    requires k <= |body|
    ensures (head + body)[|head|..|head| + k] == body[..k]
  {
  }

  lemma {:induction false} TwoBytes(n: nat)
    requires n < 65536
    ensures BigEndian(n, 2) == [n / 256, n % 256]
  {
    BigEndianLast(n, 2);
    BigEndianLast(n / 256, 1);
    assert BigEndian(n, 2) == BigEndian(n, 2)[..1] + [n % 256];
  }

  // ---------------------------------------------------------------------------------------------
  // Pongs
  // ---------------------------------------------------------------------------------------------

  /** The answer to a ping: unmasked, and with two bytes of length at most. */
  function Pong(data: seq<Byte>): seq<Byte> {
    [138] + (if |data| < 126 then [|data|] else [126] + BigEndian(|data|, 2)) + data
  }

  lemma ShortPong(data: seq<Byte>)
    requires |data| < 65536
    ensures var f := WireFrame(true, 10, None, data);
            Wellformed(f, ChosenForm(|data|)) && Pong(data) == Bytes(f, ChosenForm(|data|))
  {
    ChosenFormFits(|data|);
    assert First(WireFrame(true, 10, None, data)) == 138;
  }

  lemma {:induction false} LongPong(data: seq<Byte>, rest: seq<Byte>, length: seq<Byte>)
    requires |data| >= 65536 && length == BigEndian(|data|, 2)
    ensures var r := ReadFrame(Pong(data) + rest);
            r.Some? ==> |r.value.0.data| == FromBigEndian(length) && r.value.0.key == None
  {
    var input := Pong(data) + rest;
    assert input == ([138, 126] + length) + (data + rest);
    ThreeParts([138, 126], length, data + rest, input);
    assert input[1] == 126 && input[2..2 + 2] == length;
  }

  /** A pong reads back as the ping's payload exactly when that is shorter than 65536 bytes; its length
      does not fit otherwise. Whatever its length, what is read of it is never masked. */
  lemma PongRoundTripIff(data: seq<Byte>, rest: seq<Byte>)
    ensures ReadFrame(Pong(data) + rest) == Some((WireFrame(true, 10, None, data), rest)) <==> |data| < 65536
    ensures ReadFrame(Pong(data) + rest).Some? ==> ReadFrame(Pong(data) + rest).value.0.key == None
  {
    if |data| < 65536 {
      ShortPong(data);
      FrameRoundTrip(WireFrame(true, 10, None, data), ChosenForm(|data|), rest);
    } else {
      assert Pow256(2) == 256 * (256 * Pow256(0));
      BigEndianCut(|data|, 2);
      LongPong(data, rest, BigEndian(|data|, 2));
    }
  }

  // ---------------------------------------------------------------------------------------------
  // Messages
  // ---------------------------------------------------------------------------------------------

  /** How reading a message ends: with the message, with a close frame, or with the end of the input. */
  datatype End = Delivered | PeerClosed | InputEnded

  /** The payload gathered, the input left, and the pings to answer. */
  datatype Received = Received(end: End, payload: seq<Byte>, rest: seq<Byte>, pings: seq<seq<Byte>>)

  lemma ReadConsumes(input: seq<Byte>)
    ensures ReadFrame(input).Some? ==> |ReadFrame(input).value.1| < |input|
  {
  }

  predicate CarriesData(f: WireFrame) {
    f.opcode <= 2
  }

  /** Frames are read until a final data frame; pings are noted, a close or the end of the input ends the
      message, and frames of any other kind are passed over. */
  function Receive(input: seq<Byte>, payload: seq<Byte>): Received
    decreases |input|, 0
  {
    ReadConsumes(input);
    var next := ReadFrame(input);
    if next.None? then Received(InputEnded, payload, [], []) else ReceiveOn(next.value.0, next.value.1, payload)
  }

  /** One frame is dealt with; the rest of the input follows. */
  function ReceiveOn(f: WireFrame, rest: seq<Byte>, payload: seq<Byte>): Received
    decreases |rest|, 1
  {
    if f.opcode == 9 then
      var r := Receive(rest, payload);
      r.(pings := [f.data] + r.pings)
    else if f.opcode == 8 then Received(PeerClosed, payload, rest, [])
    else if CarriesData(f) then
      if f.fin then Received(Delivered, payload + f.data, rest, []) else Receive(rest, payload + f.data)
    else Receive(rest, payload)
  }

  /** A frame as sent, in the length form its sender chose. */
  datatype Sent = Sent(frame: WireFrame, form: Form)

  ghost predicate AllWellformed(sent: seq<Sent>) {
    forall i :: 0 <= i < |sent| ==> Wellformed(sent[i].frame, sent[i].form)
  }

  ghost function AllBytes(sent: seq<Sent>): seq<Byte>
    requires AllWellformed(sent)
  {
    if |sent| == 0 then [] else Bytes(sent[0].frame, sent[0].form) + AllBytes(sent[1..])
  }

  /** The payloads of the data frames, which have opcodes 0 to 2, joined. */
  function Payload(sent: seq<Sent>): seq<Byte> {
    if |sent| == 0 then []
    else (if sent[0].frame.opcode <= 2 then sent[0].frame.data else []) + Payload(sent[1..])
  }

  function Pings(sent: seq<Sent>): seq<seq<Byte>> {
    if |sent| == 0 then []
    else (if sent[0].frame.opcode == 9 then [sent[0].frame.data] else []) + Pings(sent[1..])
  }

  /** A fragmented message: the last frame carries data and is final, no data frame before it is, and
      nothing in between closes the connection. */
  ghost predicate Fragmented(sent: seq<Sent>) {
    && |sent| > 0 && sent[|sent| - 1].frame.opcode <= 2 && sent[|sent| - 1].frame.fin
    && (forall i :: 0 <= i < |sent| - 1 ==> sent[i].frame.opcode != 8 && !(sent[i].frame.opcode <= 2 && sent[i].frame.fin))
  }

  lemma {:induction false} ReadFirst(sent: seq<Sent>, rest: seq<Byte>)
    requires AllWellformed(sent) && |sent| > 0
    ensures AllWellformed(sent[1..])
    ensures forall payload :: Receive(AllBytes(sent) + rest, payload)
                           == ReceiveOn(sent[0].frame, AllBytes(sent[1..]) + rest, payload)
  {
    var head := Bytes(sent[0].frame, sent[0].form);
    assert forall i :: 0 <= i < |sent[1..]| ==> sent[1..][i] == sent[i + 1];
    Regroup(head, AllBytes(sent[1..]), rest);
    FrameRoundTrip(sent[0].frame, sent[0].form, AllBytes(sent[1..]) + rest);
  }

  lemma FragmentedTail(sent: seq<Sent>)
    requires AllWellformed(sent) && Fragmented(sent) && |sent| > 1
    ensures AllWellformed(sent[1..]) && Fragmented(sent[1..])
    ensures sent[0].frame.opcode != 8 && !(CarriesData(sent[0].frame) && sent[0].frame.fin)
  {
    var tail := sent[1..];
    assert forall i :: 0 <= i < |tail| ==> tail[i] == sent[i + 1];
  }

  /** What is gathered of a message once its first frame is dealt with. */
  function Gathered(f: WireFrame, payload: seq<Byte>): seq<Byte> {
    if CarriesData(f) then payload + f.data else payload
  }

  function Noted(f: WireFrame): seq<seq<Byte>> {
    if f.opcode == 9 then [f.data] else []
  }

  lemma {:induction false} DealtWith(f: WireFrame, rest: seq<Byte>, payload: seq<Byte>, all: seq<Byte>, left: seq<Byte>,
                                     pings: seq<seq<Byte>>)
    requires f.opcode != 8 && !(CarriesData(f) && f.fin)
    requires Receive(rest, Gathered(f, payload)) == Received(Delivered, all, left, pings)
    ensures ReceiveOn(f, rest, payload) == Received(Delivered, all, left, Noted(f) + pings)
  {
    assert [] + pings == pings;
  }

  lemma {:induction false} PayloadFirst(sent: seq<Sent>, payload: seq<Byte>)
    requires |sent| > 0
    ensures Gathered(sent[0].frame, payload) + Payload(sent[1..]) == payload + Payload(sent)
    ensures Pings(sent) == Noted(sent[0].frame) + Pings(sent[1..])
  {
    if CarriesData(sent[0].frame) {
      Regroup(payload, sent[0].frame.data, Payload(sent[1..]));
    } else {
      assert [] + Payload(sent[1..]) == Payload(sent[1..]);
    }
  }

  lemma {:induction false} LastFrame(sent: seq<Sent>, rest: seq<Byte>, payload: seq<Byte>)
    requires AllWellformed(sent) && Fragmented(sent) && |sent| == 1
    ensures Receive(AllBytes(sent) + rest, payload) == Received(Delivered, payload + Payload(sent), rest, Pings(sent))
  {
    ReadFirst(sent, rest);
    PayloadFirst(sent, payload);
    assert AllBytes(sent[1..]) + rest == rest;
    var all := payload + sent[0].frame.data;
    assert all + [] == all;
  }

  /** Any fragmentation of a message, with pings and pongs anywhere between the fragments and in any mix of
      masks and length forms, is put together again: the payload is the data of its frames in order, the
      pings noted are the pings sent, and the input is left right behind the message. */
  lemma {:induction false} Reassembly(sent: seq<Sent>, rest: seq<Byte>, payload: seq<Byte>)
    requires AllWellformed(sent) && Fragmented(sent)
    ensures Receive(AllBytes(sent) + rest, payload) == Received(Delivered, payload + Payload(sent), rest, Pings(sent))
    decreases |sent|
  {
    if |sent| == 1 {
      LastFrame(sent, rest, payload);
    } else {
      var f, tail := sent[0].frame, sent[1..];
      var so := Gathered(f, payload);
      FragmentedTail(sent);
      ReadFirst(sent, rest);
      Reassembly(tail, rest, so);
      DealtWith(f, AllBytes(tail) + rest, payload, so + Payload(tail), rest, Pings(tail));
      PayloadFirst(sent, payload);
    }
  }

  /** Two fragmentations of one payload are received alike. */
  lemma {:induction false} FragmentationDoesNotMatter(a: seq<Sent>, b: seq<Sent>, rest: seq<Byte>)
    requires AllWellformed(a) && AllWellformed(b) && Fragmented(a) && Fragmented(b) && Payload(a) == Payload(b)
    ensures Receive(AllBytes(a) + rest, []).payload == Receive(AllBytes(b) + rest, []).payload == Payload(a)
  {
    Reassembly(a, rest, []);
    Reassembly(b, rest, []);
    assert [] + Payload(a) == Payload(a);
  }

  /** Frames that leave a message open: none closes the connection, and no data frame is final. */
  ghost predicate LeavesOpen(sent: seq<Sent>) {
    forall i :: 0 <= i < |sent| ==> sent[i].frame.opcode != 8 && !(sent[i].frame.opcode <= 2 && sent[i].frame.fin)
  }

  lemma {:induction false} PassedOver(f: WireFrame, rest: seq<Byte>, payload: seq<Byte>, r: Received)
    requires f.opcode != 8 && !(f.opcode <= 2 && f.fin) && r == Receive(rest, Gathered(f, payload))
    ensures ReceiveOn(f, rest, payload) == r.(pings := Noted(f) + r.pings)
  {
    assert [] + r.pings == r.pings;
  }

  /** Frames that leave the message open are gathered, and reading goes on behind them. */
  lemma {:induction false} ReadingGoesOn(sent: seq<Sent>, rest: seq<Byte>, payload: seq<Byte>, r: Received)
    requires AllWellformed(sent) && LeavesOpen(sent) && r == Receive(rest, payload + Payload(sent))
    ensures Receive(AllBytes(sent) + rest, payload) == r.(pings := Pings(sent) + r.pings)
    decreases |sent|
  {
    if |sent| == 0 {
      assert AllBytes(sent) + rest == rest && payload + Payload(sent) == payload && Pings(sent) + r.pings == r.pings;
    } else {
      var f, tail := sent[0].frame, sent[1..];
      ReadFirst(sent, rest);
      PayloadFirst(sent, payload);
      assert forall i :: 0 <= i < |tail| ==> tail[i] == sent[i + 1];
      ReadingGoesOn(tail, rest, Gathered(f, payload), r);
      PassedOver(f, AllBytes(tail) + rest, payload, r.(pings := Pings(tail) + r.pings));
      Regroup(Noted(f), Pings(tail), r.pings);
    }
  }

  /** A close frame ends the message: what was gathered is kept and the input is left right behind it. */
  lemma {:induction false} CloseEnds(sent: seq<Sent>, close: Sent, rest: seq<Byte>, payload: seq<Byte>)
    requires AllWellformed(sent) && LeavesOpen(sent) && Wellformed(close.frame, close.form) && close.frame.opcode == 8
    ensures Receive(AllBytes(sent) + (Bytes(close.frame, close.form) + rest), payload)
         == Received(PeerClosed, payload + Payload(sent), rest, Pings(sent))
  {
    var all := payload + Payload(sent);
    FrameRoundTrip(close.frame, close.form, rest);
    ReadingGoesOn(sent, Bytes(close.frame, close.form) + rest, payload, Received(PeerClosed, all, rest, []));
    assert Pings(sent) + [] == Pings(sent);
  }

  /** When the input ends within a frame, nothing of it is left and the message stays incomplete. */
  lemma {:induction false} InputEnds(sent: seq<Sent>, part: seq<Byte>, payload: seq<Byte>)
    requires AllWellformed(sent) && LeavesOpen(sent) && ReadFrame(part).None?
    ensures Receive(AllBytes(sent) + part, payload) == Received(InputEnded, payload + Payload(sent), [], Pings(sent))
  {
    ReadingGoesOn(sent, part, payload, Received(InputEnded, payload + Payload(sent), [], []));
    assert Pings(sent) + [] == Pings(sent);
  }

  // ---------------------------------------------------------------------------------------------
  // The connection
  // ---------------------------------------------------------------------------------------------

  function AllPongs(pings: seq<seq<Byte>>): seq<Byte> {
    if |pings| == 0 then [] else Pong(pings[0]) + AllPongs(pings[1..])
  }

  /** Mask a text byte by byte. */
  method MaskText(text: seq<Byte>, key: MaskKey) returns (masked: seq<Byte>)
    ensures masked == Masked(text, key)
  {
    masked := [];
    var i := 0;
    while i < |text|
      invariant 0 <= i <= |text| && masked == Masked(text[..i], key)
    {
      assert text[..i + 1][..i] == text[..i];
      masked := masked + [MaskByte(text[i], key[i % 4])];
      i := i + 1;
    }
    assert text[..i] == text;
  }

  lemma {:induction false} TextBytes(text: seq<Byte>, key: MaskKey, length: seq<Byte>)
    requires var n := |text|;
             && n < 0x1_0000_0000_0000_0000
             && length == if n < 126 then [128 + n]
                          else if n < 65536 then [128 + 126] + BigEndian(n, 2) else [128 + 127] + BigEndian(n, 8)
    ensures Wellformed(TextFrame(text, key), ChosenForm(|text|))
    ensures [129] + length + key + Masked(text, key) == Bytes(TextFrame(text, key), ChosenForm(|text|))
  {
    var n := |text|;
    ChosenFormFits(n);
    assert [129] + length == Head(129, true, n, ChosenForm(n));
    Regroup([129] + length, key, Masked(text, key));
  }

  /** The bytes of a text frame, in the shortest length form. */
  method BuildTextFrame(text: seq<Byte>, key: MaskKey) returns (frame: seq<Byte>)
    requires |text| < 0x1_0000_0000_0000_0000
    ensures Wellformed(TextFrame(text, key), ChosenForm(|text|))
    ensures frame == Bytes(TextFrame(text, key), ChosenForm(|text|))
  {
    var n := |text|;
    var length: seq<Byte> :=
      if n < 126 then [128 + n] else if n < 65536 then [128 + 126] + BigEndian(n, 2) else [128 + 127] + BigEndian(n, 8);
    var masked := MaskText(text, key);
    TextBytes(text, key, length);
    return [129] + length + key + masked;
  }

  class MiniWebSocket {
    /** What the peer has sent and has not been read, and what has been sent to the peer. */
    var inbox: seq<Byte>
    var outbox: seq<Byte>
    var connected: bool

    constructor (inbox: seq<Byte>)
      ensures this.inbox == inbox && outbox == [] && connected
    {
      this.inbox, outbox, connected := inbox, [], true;
    }

    method Close()
      modifies this`connected
      ensures !connected
    {
      connected := false;
    }

    /** The frame is handed to the socket, which takes so many bytes of it; it is sent when it takes them all. */
    method SendText(text: seq<Byte>, key: MaskKey, taken: nat) returns (sent: bool)
      requires |text| < 0x1_0000_0000_0000_0000
      modifies this`outbox
      ensures Wellformed(TextFrame(text, key), ChosenForm(|text|))
      ensures var frame := Bytes(TextFrame(text, key), ChosenForm(|text|));
              && sent == (connected && taken >= |frame|)
              && outbox == old(outbox) + (if !connected then [] else if taken >= |frame| then frame else frame[..taken])
    {
      var frame := BuildTextFrame(text, key);
      if !connected {
        return false;
      }
      var bytes := if taken < |frame| then frame[..taken] else frame;
      outbox := outbox + bytes;
      return |bytes| == |frame|;
    }

    method SendPong(data: seq<Byte>)
      modifies this`outbox
      ensures outbox == old(outbox) + Pong(data)
    {
      outbox := outbox + Pong(data);
    }

    /** Exactly n bytes, or none if the peer has sent fewer. */
    method RecvExact(n: nat) returns (bytes: Option<seq<Byte>>)
      modifies this`inbox
      ensures n <= |old(inbox)| ==> bytes == Some(old(inbox)[..n]) && inbox == old(inbox)[n..]
      ensures n > |old(inbox)| ==> bytes == None && inbox == []
    {
      if n <= |inbox| {
        bytes := Some(inbox[..n]);
        inbox := inbox[n..];
      } else {
        bytes := None;
        inbox := [];
      }
    }

    method RecvFrame() returns (frame: Option<WireFrame>)
      modifies this`inbox
      ensures ReadFrame(old(inbox)).None? <==> frame.None?
      ensures frame.Some? ==> ReadFrame(old(inbox)) == Some((frame.value, inbox))
      ensures frame.None? ==> inbox == []
    {
      ghost var input := inbox;
      var header := RecvExact(2);
      if header.None? {
        return None;
      }
      var n := header.value[1] % 128;
      var extra := if n == 126 then 2 else if n == 127 then 8 else 0;
      if extra > 0 {
        var ext := RecvExact(extra);
        if ext.None? {
          return None;
        }
        n := FromBigEndian(ext.value);
        assert input[2..][..extra] == input[2..2 + extra];
      }
      assert inbox == input[2 + extra..];
      frame := RecvBody(header.value[0], header.value[1] >= 128, n);
    }

    method RecvBody(first: Byte, masked: bool, n: nat) returns (frame: Option<WireFrame>)
      modifies this`inbox
      ensures ReadBody(first, masked, n, old(inbox)).None? <==> frame.None?
      ensures frame.Some? ==> ReadBody(first, masked, n, old(inbox)) == Some((frame.value, inbox))
      ensures frame.None? ==> inbox == []
    {
      ghost var input := inbox;
      var key: Option<MaskKey> := None;
      if masked {
        var four := RecvExact(4);
        if four.None? {
          return None;
        }
        key := Some(four.value);
      }
      var data := RecvExact(n);
      if data.None? {
        return None;
      }
      var clear := data.value;
      if key.Some? {
        clear := MaskText(data.value, key.value);
        assert input[4..][..n] == input[4..4 + n] && input[4..][n..] == input[4 + n..];
      }
      frame := Some(WireFrame(first >= 128, first % 16, key, clear));
    }

    /** One whole message, if the connection is open; a close frame closes it. */
    method ReceiveMessage() returns (ok: bool, payload: seq<Byte>)
      modifies this
      ensures old(connected) ==>
                var r := Receive(old(inbox), []);
                && ok == (r.end == Delivered) && payload == r.payload
                && inbox == r.rest && outbox == old(outbox) + AllPongs(r.pings)
                && connected == (r.end != PeerClosed)
      ensures !old(connected) ==> !ok && inbox == old(inbox) && outbox == old(outbox) && !connected
    {
      payload := [];
      if !connected {
        return false, payload;
      }
      ghost var goal := Receive(inbox, []);
      ghost var noted: seq<seq<Byte>> := [];
      NothingNoted(goal, outbox);
      while true
        invariant After(noted, Receive(inbox, payload)) == goal
        invariant outbox == old(outbox) + AllPongs(noted) && connected
        decreases |inbox|
      {
        ReadConsumes(inbox);
        ghost var input := inbox;
        var next := RecvFrame();
        if next.None? {
          NothingMore(noted);
          return false, payload;
        }
        var f := next.value;
        if f.opcode == 9 {
          PingNoted(input, payload, f, inbox, noted);
          PongsAppend(noted, f.data);
          Regroup(old(outbox), AllPongs(noted), Pong(f.data));
          SendPong(f.data);
          noted := noted + [f.data];
          continue;
        }
        if f.opcode == 8 {
          NothingMore(noted);
          Close();
          return false, payload;
        }
        if f.opcode <= 2 {
          payload := payload + f.data;
          if f.fin {
            NothingMore(noted);
            return true, payload;
          }
        }
      }
    }
  }

  /** What will have been received in all, when some pings were noted before. */
  ghost function After(noted: seq<seq<Byte>>, r: Received): Received {
    r.(pings := noted + r.pings)
  }

  lemma {:induction false} NothingNoted(r: Received, outbox: seq<Byte>)
    ensures After([], r) == r && outbox == outbox + AllPongs([])
  {
    assert [] + r.pings == r.pings;
  }

  lemma NothingMore(noted: seq<seq<Byte>>)
    ensures noted + [] == noted
  {
  }

  lemma {:induction false} PingNoted(
    input: seq<Byte>, payload: seq<Byte>, f: WireFrame, rest: seq<Byte>, noted: seq<seq<Byte>>)
    requires ReadFrame(input) == Some((f, rest)) && f.opcode == 9
    ensures After(noted + [f.data], Receive(rest, payload)) == After(noted, Receive(input, payload))
  {
    var r := Receive(rest, payload);
    assert (noted + [f.data]) + r.pings == noted + ([f.data] + r.pings);
  }

  lemma {:induction false} PongsFirst(pings: seq<seq<Byte>>, first: seq<Byte>, tail: seq<seq<Byte>>)
    requires pings == [first] + tail
    ensures AllPongs(pings) == Pong(first) + AllPongs(tail)
  {
    assert pings[1..] == tail;
  }

  lemma {:induction false} PongsAppend(pings: seq<seq<Byte>>, data: seq<Byte>)
    ensures AllPongs(pings + [data]) == AllPongs(pings) + Pong(data)
  {
    if |pings| == 0 {
      assert pings + [data] == [data];
    } else {
      var first, tail := pings[0], pings[1..];
      PongsAppend(tail, data);
      PongsFirst(pings, first, tail);
      assert pings + [data] == [first] + (tail + [data]);
      PongsFirst(pings + [data], first, tail + [data]);
      Regroup(Pong(first), AllPongs(tail), Pong(data));
    }
  }
}
