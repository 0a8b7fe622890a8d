/** The ring buffer as one thread sees it: a queue of frames kept in a wrap-around byte array. */
module Ring {
  import opened Sequences
  import opened ByteOrder
  import opened Frames
  import opened RingProtocol
  import opened Options

  /** The memory after the bytes of src have been written from `position` on, wrapping at the end. */
  function Lay(memory: seq<Byte>, position: nat, src: seq<Byte>): (r: seq<Byte>)
    requires |memory| > 0
    ensures |r| == |memory|
  {
    if |src| == 0 then memory
    else Put(Lay(memory, position, src[..|src| - 1]), position + |src| - 1, src[|src| - 1])
  }

  lemma OffsetFirst(position: int, i: int, n: int)
    requires n > 0
    ensures (position % n + i) % n == (position + i) % n
  {
    var q, a, b := position / n, (position % n + i) % n, (position + i) % n;
    var k := (position + i) / n - (position % n + i) / n - q;
    assert b - a == -(k * n) by {
      assert position == q * n + position % n;
      assert position % n + i == (position % n + i) / n * n + a;
      assert position + i == (position + i) / n * n + b;
      assert k * n == (position + i) / n * n - (position % n + i) / n * n - q * n;
    }
    if a <= b {
      OnlyZeroLaps(-k, n, b - a);
    } else {
      OnlyZeroLaps(k, n, a - b);
    }
  }

  lemma PutThere(memory: seq<Byte>, position: nat, b: Byte)
    requires |memory| > 0
    ensures At(Put(memory, position, b), position) == b
  {
  }

  /** Bytes written over at most one lap can all be read back. */
  lemma {:induction false} LaidBytesStand(memory: seq<Byte>, position: nat, src: seq<Byte>, i: nat)
    requires |memory| > 0 && |src| <= |memory| && i < |src|
    ensures At(Lay(memory, position, src), position + i) == src[i]
  {
    var last := |src| - 1;
    var before := Lay(memory, position, src[..last]);
    PutThere(before, position + last, src[last]);
    if i < last {
      LaidBytesStand(memory, position, src[..last], i);
      PutKeeps(before, position + last, src[last], position, position + i);
    }
  }

  /** Bytes between the tail and the writing position survive when the new bytes end within a lap of the tail. */
  lemma {:induction false} LayKeeps(memory: seq<Byte>, position: nat, src: seq<Byte>, tail: nat, j: nat)
    requires |memory| > 0 && tail <= j < position && position + |src| <= tail + |memory|
    ensures At(Lay(memory, position, src), j) == At(memory, j)
  {
    if |src| > 0 {
      var last := |src| - 1;
      LayKeeps(memory, position, src[..last], tail, j);
      PutKeeps(Lay(memory, position, src[..last]), position + last, src[last], tail, j);
    }
  }

  /** Writing two texts one behind the other writes their concatenation. */
  lemma {:induction false} LayTwice(memory: seq<Byte>, position: nat, a: seq<Byte>, b: seq<Byte>)
    requires |memory| > 0
    ensures Lay(Lay(memory, position, a), position + |a|, b) == Lay(memory, position, a + b)
  {
    if |b| == 0 {
      assert a + b == a;
    } else {
      LayTwice(memory, position, a, b[..|b| - 1]);
      assert (a + b)[..|a + b| - 1] == a + b[..|b| - 1];
    }
  }

  /** `text` stands in memory from `tail` on. */
  ghost predicate Holds(memory: seq<Byte>, tail: nat, text: seq<Byte>)
    requires |memory| > 0
  {
    forall j: nat :: j < |text| ==> At(memory, tail + j) == text[j]
  }

  /** Appending behind a text that fits leaves the longer text standing. */
  lemma {:induction false} LayAppends(memory: seq<Byte>, tail: nat, text: seq<Byte>, src: seq<Byte>)
    requires |memory| > 0 && Holds(memory, tail, text) && |text| + |src| <= |memory|
    ensures Holds(Lay(memory, tail + |text|, src), tail, text + src)
  {
    var after := Lay(memory, tail + |text|, src);
    forall j: nat | j < |text + src| ensures At(after, tail + j) == (text + src)[j] {
      if j < |text| {
        LayKeeps(memory, tail + |text|, src, tail, tail + j);
      } else {
        LaidBytesStand(memory, tail + |text|, src, j - |text|);
      }
    }
  }

  lemma Chain(whole: seq<Byte>, front: seq<Byte>, a: seq<Byte>, b: seq<Byte>, c: seq<Byte>)
    requires whole == front + c && front == a + b
    ensures whole == a + (b + c)
  {
  }

  lemma {:induction false} StreamFirst(f: Frame, rest: seq<Frame>)
    ensures Stream([f] + rest) == Encode(f) + Stream(rest)
  {
    if |rest| == 0 {
      StreamAppend([], f);
      assert [] + [f] == [f] + rest;
      assert Stream([]) == [] && [] + Encode(f) == Encode(f) + [];
    } else {
      var init, last := rest[..|rest| - 1], rest[|rest| - 1];
      StreamFirst(f, init);
      StreamAppend([f] + init, last);
      StreamAppend(init, last);
      LastApart(f, rest);
      Chain(Stream([f] + rest), Stream([f] + init), Encode(f), Stream(init), Encode(last));
    }
  }

  /** Dropping the first frame drops exactly its bytes. */
  lemma {:induction false} HoldsRest(memory: seq<Byte>, tail: nat, queue: seq<Frame>)
    requires |memory| > 0 && |queue| > 0 && Holds(memory, tail, Stream(queue))
    ensures Stream(queue) == Encode(queue[0]) + Stream(queue[1..])
    ensures Holds(memory, tail + Total(queue[0]), Stream(queue[1..]))
  {
    var text, f, rest := Stream(queue), queue[0], queue[1..];
    assert queue == [f] + rest;
    StreamFirst(f, rest);
    forall j: nat | j < |Stream(rest)| ensures At(memory, tail + Total(f) + j) == Stream(rest)[j] {
      assert At(memory, tail + (Total(f) + j)) == text[Total(f) + j];
    }
  }

  lemma {:induction false} StreamNonEmpty(queue: seq<Frame>)
    requires |queue| > 0
    ensures |Stream(queue)| > LEN_PREFIX
  {
  }

  /** The three writes of a push lay down the encoded frame. */
  lemma {:induction false} ThreeWrites(memory: seq<Byte>, position: nat, f: Frame)
    requires |memory| > 0
    ensures var a := Lay(memory, position, ToLittleEndian(Total(f)));
            var b := Lay(a, position + LEN_PREFIX, [f.kind]);
            Lay(b, position + LEN_PREFIX + 1, f.payload) == Lay(memory, position, Encode(f))
  {
    LayTwice(memory, position, ToLittleEndian(Total(f)), [f.kind]);
    LayTwice(memory, position, ToLittleEndian(Total(f)) + [f.kind], f.payload);
  }

  /** Bytes read at the payload's place are the payload. */
  lemma {:induction false} PayloadRead(memory: seq<Byte>, tail: nat, f: Frame, bytes: seq<Byte>)
    requires |memory| > 0 && Holds(memory, tail, Encode(f)) && |bytes| == |f.payload|
    requires forall i: nat :: i < |bytes| ==> bytes[i] == At(memory, tail + LEN_PREFIX + 1 + i)
    ensures bytes == f.payload
  {
    forall i: nat | i < |bytes| ensures bytes[i] == f.payload[i] {
      assert At(memory, tail + (LEN_PREFIX + 1 + i)) == Encode(f)[LEN_PREFIX + 1 + i];
    }
  }

  lemma {:induction false} KindRead(memory: seq<Byte>, tail: nat, f: Frame)
    requires |memory| > 0 && Holds(memory, tail, Encode(f))
    ensures At(memory, tail + LEN_PREFIX) == f.kind
  {
    assert At(memory, tail + LEN_PREFIX) == Encode(f)[LEN_PREFIX];
  }

  ghost predicate AllFit(queue: seq<Frame>) {
    forall i :: 0 <= i < |queue| ==> Fits(queue[i])
  }

  class RingBuffer {
    var payload: array<Byte>
    var head: nat
    var tail: nat
    /** The frames pushed and not yet popped, oldest first. */
    ghost var queue: seq<Frame>

    ghost predicate Valid()
      reads this, payload
    {
      && payload.Length > 0
      && head == tail + |Stream(queue)| && |Stream(queue)| <= payload.Length
      && Holds(payload[..], tail, Stream(queue))
      && AllFit(queue)
    }

    constructor (size: nat)
      requires size > 0
      ensures Valid() && queue == [] && payload.Length == size && fresh(payload)
    {
      payload := new Byte[size];
      head, tail, queue := 0, 0, [];
    }

    method WriteBytes(position: nat, src: seq<Byte>)
      requires payload.Length > 0
      modifies payload
      ensures payload[..] == Lay(old(payload[..]), position, src)
    {
      var off := position % payload.Length;
      var i := 0;
      while i < |src|
        invariant 0 <= i <= |src|
        invariant payload[..] == Lay(old(payload[..]), position, src[..i])
      {
        OffsetFirst(position, i, payload.Length);
        assert src[..i + 1][..i] == src[..i];
        payload[(off + i) % payload.Length] := src[i];
        i := i + 1;
      }
      assert src[..i] == src;
    }

    method ReadBytes(position: nat, n: nat) returns (dst: seq<Byte>)
      requires payload.Length > 0
      ensures |dst| == n && forall j: nat :: j < n ==> dst[j] == At(payload[..], position + j)
    {
      var off := position % payload.Length;
      var i := 0;
      dst := [];
      while i < n
        invariant 0 <= i <= n && |dst| == i
        invariant forall j: nat :: j < i ==> dst[j] == At(payload[..], position + j)
      {
        OffsetFirst(position, i, payload.Length);
        dst := dst + [payload[(off + i) % payload.Length]];
        i := i + 1;
      }
    }

    method ReadU32(position: nat) returns (r: nat)
      requires payload.Length > 0
      ensures forall n: nat :: n < 0x1_0000_0000 && Holds(payload[..], position, ToLittleEndian(n)) ==> r == n
    {
      var b := ReadBytes(position, LEN_PREFIX);
      r := FromLittleEndian(b);
      forall n: nat | n < 0x1_0000_0000 && Holds(payload[..], position, ToLittleEndian(n)) ensures r == n {
        assert b == ToLittleEndian(n);
        LittleEndianRoundTrip(n);
      }
    }

    /** On a ring that is not empty, the oldest frame's bytes stand at the tail. */
    lemma {:induction false} OldestFrame() returns (f: Frame)
      requires Valid() && head != tail
      ensures |queue| > 0 && f == queue[0] && Fits(f)
      ensures Total(f) <= head - tail
      ensures Holds(payload[..], tail, Encode(f)) && Holds(payload[..], tail, ToLittleEndian(Total(f)))
    {
      f := queue[0];
      HoldsRest(payload[..], tail, queue);
      assert Encode(f) <= Stream(queue);
      forall j: nat | j < |Encode(f)| ensures At(payload[..], tail + j) == Encode(f)[j] {
        assert At(payload[..], tail + j) == Stream(queue)[j];
      }
      forall j: nat | j < LEN_PREFIX ensures At(payload[..], tail + j) == ToLittleEndian(Total(f))[j] {
        assert At(payload[..], tail + j) == Encode(f)[j];
      }
    }

    /** Length prefix, type byte and payload, one behind the other from the head on. */
    method WriteFrame(kind: Byte, data: seq<Byte>, total: nat)
      requires payload.Length > 0 && total == Total(Frame(kind, data))
      modifies payload
      ensures payload[..] == Lay(old(payload[..]), head, Encode(Frame(kind, data)))
    {
      WriteBytes(head, ToLittleEndian(total));
      WriteBytes(head + LEN_PREFIX, [kind]);
      if |data| > 0 {
        WriteBytes(head + LEN_PREFIX + 1, data);
      }
      ThreeWrites(old(payload[..]), head, Frame(kind, data));
    }

    /** The type byte and, when the caller's buffer has room, the payload of the frame at the tail. */
    method ReadFrame(want: Option<nat>, length: nat, ghost f: Frame) returns (kind: Byte, out: Option<seq<Byte>>)
      requires payload.Length > 0 && Holds(payload[..], tail, Encode(f)) && length == |f.payload|
      ensures kind == f.kind && out == Copied(want, f.payload)
    {
      var kinds := ReadBytes(tail + LEN_PREFIX, 1);
      kind := kinds[0];
      assert kinds[0] == At(payload[..], tail + LEN_PREFIX + 0);
      KindRead(payload[..], tail, f);
      out := None;
      if want.Some? && length <= want.value {
        var bytes := ReadBytes(tail + LEN_PREFIX + 1, length);
        PayloadRead(payload[..], tail, f, bytes);
        out := Some(bytes);
      }
    }

    /** A push succeeds exactly when the payload is small enough and the frame fits beside what is
        unread; then it is the newest frame, and otherwise nothing changes. */
    method Push(kind: Byte, data: seq<Byte>) returns (ok: bool)
      requires Valid()
      modifies this, payload
      ensures Valid() && payload == old(payload)
      ensures ok <==> |data| <= 67108864 && |Stream(old(queue))| + Total(Frame(kind, data)) <= payload.Length
      ensures queue == if ok then old(queue) + [Frame(kind, data)] else old(queue)
      ensures !ok ==> payload[..] == old(payload[..]) && head == old(head)
      ensures tail == old(tail)
    {
      if |data| > FRAME_MAX {
        return false;
      }
      var total := LEN_PREFIX + 1 + |data|;
      var used := head - tail;
      if used + total > payload.Length {
        return false;
      }
      ghost var frame := Frame(kind, data);
      ghost var before := payload[..];
      WriteFrame(kind, data, total);
      LayAppends(before, tail, Stream(queue), Encode(frame));
      StreamAppend(queue, frame);
      head := head + total;
      queue := queue + [frame];
      return true;
    }

    /** A pop takes the oldest frame and reports its size, type and length, and its payload when the
        caller's buffer has room; on an empty ring it reports 0 and changes nothing. */
    method Pop(want: Option<nat>) returns (total: nat, kind: Byte, length: nat, out: Option<seq<Byte>>)
      requires Valid()
      modifies this
      ensures Valid() && payload == old(payload) && head == old(head)
      ensures total == 0 <==> old(queue) == []
      ensures old(queue) == [] ==> queue == [] && tail == old(tail)
      ensures old(queue) != [] ==>
                && total == Total(old(queue)[0])
                && queue == old(queue)[1..]
                && Reports(Popped(want, kind, length, out), old(queue)[0])
    {
      kind, length, out := 0, 0, None;
      if head == tail {
        if |queue| > 0 {
          StreamNonEmpty(queue);
        }
        return 0, kind, length, out;
      }
      ghost var f;
      total, f := ReadTotal();
      if total < LEN_PREFIX + 1 || total > FRAME_MAX + LEN_PREFIX + 1 {
        assert false;
      }
      if head - tail < total {
        assert false;
      }
      length := total - LEN_PREFIX - 1;
      kind, out := ReadFrame(want, length, f);
      Release(total);
    }

    /** The length prefix at the tail of a ring that is not empty. */
    method ReadTotal() returns (total: nat, ghost f: Frame)
      requires Valid() && head != tail
      ensures |queue| > 0 && f == queue[0] && total == Total(f) && LEN_PREFIX + 1 <= total <= FRAME_MAX + LEN_PREFIX + 1
      ensures total <= head - tail && Holds(payload[..], tail, Encode(f))
    {
      f := OldestFrame();
      total := ReadU32(tail);
    }

    /** The oldest frame is released. */
    method Release(total: nat)
      requires Valid() && |queue| > 0 && total == Total(queue[0])
      modifies this`tail, this`queue
      ensures Valid() && tail == old(tail) + total && queue == old(queue)[1..]
    {
      HoldsRest(payload[..], tail, queue);
      tail := tail + total;
      queue := queue[1..];
    }
  }
}
