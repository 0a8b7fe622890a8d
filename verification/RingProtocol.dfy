/** The single-producer, single-consumer ring as two programs that take turns one byte at a time. */
module RingProtocol {
  import opened ByteOrder
  import opened Frames
  import opened Options

  /** Where the producer is in a push: nothing to do, about to load the head, about to load the tail,
      or about to write byte i of the frame (or to publish, when all are written). */
  datatype Producer =
    | Resting
    | Starting(frame: Frame)
    | HeadLoaded(frame: Frame, head: nat)
    | Writing(frame: Frame, head: nat, i: nat)

  /** Where the consumer is in a pop; `want` is the capacity of the caller's buffer, if there is one. */
  datatype Consumer =
    | Idle
    | Begun(want: Option<nat>)
    | SawHead(want: Option<nat>, head: nat)
    | ReadingLength(want: Option<nat>, head: nat, tail: nat, bytes: seq<Byte>)
    | ReadingKind(want: Option<nat>, tail: nat, total: nat)
    | ReadingPayload(want: Option<nat>, tail: nat, total: nat, kind: Byte, bytes: seq<Byte>)
    | Finishing(want: Option<nat>, tail: nat, total: nat, kind: Byte, out: Option<seq<Byte>>)

  /** One successful pop: the buffer it was called with, and what it reported. */
  datatype Popped = Popped(want: Option<nat>, kind: Byte, length: nat, out: Option<seq<Byte>>)

  /** The shared memory, the two programs, what each has completed, and whether the consumer ever took
      one of its two defensive exits. */
  datatype State = State(
    memory: seq<Byte>, head: nat, tail: nat,
    producer: Producer, consumer: Consumer,
    pushed: seq<Frame>, popped: seq<Popped>,
    sawCorrupt: bool, sawUncommitted: bool)

  /** A scheduler's choice: let the producer or the consumer take its next step, or hand an idle one
      its next call. */
  datatype Action = CallPush(frame: Frame) | CallPop(want: Option<nat>) | ProducerStep | ConsumerStep

  function Start(memory: seq<Byte>): State {
    State(memory, 0, 0, Resting, Idle, [], [], false, false)
  }

  function At(memory: seq<Byte>, position: nat): Byte
    requires |memory| > 0
  {
    memory[position % |memory|]
  }

  function Put(memory: seq<Byte>, position: nat, b: Byte): (r: seq<Byte>)
    requires |memory| > 0
    ensures |r| == |memory|
  {
    memory[position % |memory| := b]
  }

  function ProducerNext(s: State): (r: State)
    requires |s.memory| > 0
    ensures |r.memory| == |s.memory|
  {
    match s.producer
    case Resting => s
    case Starting(frame) =>
      if |frame.payload| > FRAME_MAX then s.(producer := Resting) else s.(producer := HeadLoaded(frame, s.head))
    case HeadLoaded(frame, head) =>
      if head - s.tail + Total(frame) > |s.memory| then s.(producer := Resting)
      else s.(producer := Writing(frame, head, 0))
    case Writing(frame, head, i) =>
      if i < Total(frame)
      then s.(memory := Put(s.memory, head + i, Encode(frame)[i]), producer := Writing(frame, head, i + 1))
      else s.(head := head + Total(frame), pushed := s.pushed + [frame], producer := Resting)
  }

  function ConsumerNext(s: State): (r: State)
    requires |s.memory| > 0
    ensures |r.memory| == |s.memory|
  {
    match s.consumer
    case Idle => s
    case Begun(want) => s.(consumer := SawHead(want, s.head))
    case SawHead(want, head) =>
      if head == s.tail then s.(consumer := Idle) else s.(consumer := ReadingLength(want, head, s.tail, []))
    case ReadingLength(want, head, tail, bytes) =>
      if |bytes| < LEN_PREFIX
      then s.(consumer := ReadingLength(want, head, tail, bytes + [At(s.memory, tail + |bytes|)]))
      else if |bytes| > LEN_PREFIX then s.(consumer := Idle)
      else
        var total := FromLittleEndian(bytes);
        if total < LEN_PREFIX + 1 || total > FRAME_MAX + LEN_PREFIX + 1 then s.(consumer := Idle, sawCorrupt := true)
        else if head - tail < total then s.(consumer := Idle, sawUncommitted := true)
        else s.(consumer := ReadingKind(want, tail, total))
    case ReadingKind(want, tail, total) =>
      var kind := At(s.memory, tail + LEN_PREFIX);
      if want.Some? && total - LEN_PREFIX - 1 <= want.value then s.(consumer := ReadingPayload(want, tail, total, kind, []))
      else s.(consumer := Finishing(want, tail, total, kind, None))
    case ReadingPayload(want, tail, total, kind, bytes) =>
      if LEN_PREFIX + 1 + |bytes| < total
      then s.(consumer := ReadingPayload(want, tail, total, kind, bytes + [At(s.memory, tail + LEN_PREFIX + 1 + |bytes|)]))
      else s.(consumer := Finishing(want, tail, total, kind, Some(bytes)))
    case Finishing(want, tail, total, kind, out) =>
      s.(tail := tail + total, consumer := Idle,
         popped := s.popped + [Popped(want, kind, if total >= LEN_PREFIX + 1 then total - LEN_PREFIX - 1 else 0, out)])
  }

  /** One scheduled step. A call handed to a busy side is not taken. */
  function Next(s: State, a: Action): (r: State)
    requires |s.memory| > 0
    ensures |r.memory| == |s.memory|
  {
    match a
    case CallPush(frame) => if s.producer.Resting? then s.(producer := Starting(frame)) else s
    case CallPop(want) => if s.consumer.Idle? then s.(consumer := Begun(want)) else s
    case ProducerStep => ProducerNext(s)
    case ConsumerStep => ConsumerNext(s)
  }

  function Run(memory: seq<Byte>, actions: seq<Action>): (r: State)
    requires |memory| > 0
    ensures |r.memory| == |memory|
  {
    if |actions| == 0 then Start(memory)
    else Next(Run(memory, actions[..|actions| - 1]), actions[|actions| - 1])
  }

  // ---------------------------------------------------------------------------------------------
  // The invariant
  // ---------------------------------------------------------------------------------------------

  /** The bytes committed so far followed by the bytes of the frame being written. */
  ghost function Written(s: State): seq<Byte> {
    Stream(s.pushed)
    + if s.producer.Writing? && s.producer.i <= Total(s.producer.frame)
      then Encode(s.producer.frame)[..s.producer.i] else []
  }

  /** Every byte from the tail to the last byte written stands in its place. */
  ghost predicate Stored(s: State)
    requires |s.memory| > 0
  {
    forall j: nat :: s.tail <= j < |Written(s)| ==> At(s.memory, j) == Written(s)[j]
  }

  ghost predicate ProducerOk(s: State) {
    match s.producer
    case Resting => true
    case Starting(_) => true
    case HeadLoaded(frame, head) => head == s.head && Fits(frame)
    case Writing(frame, head, i) =>
      head == s.head && Fits(frame) && i <= Total(frame) && head + Total(frame) <= s.tail + |s.memory|
  }

  /** A head the consumer saw: it was the head when some number of frames had been pushed. */
  ghost predicate Seen(s: State, head: nat) {
    exists k :: |s.popped| <= k <= |s.pushed| && head == Offset(s.pushed, k)
  }

  /** What a caller's buffer holds afterwards: the whole payload when there is room, otherwise nothing. */
  ghost function Copied(want: Option<nat>, payload: seq<Byte>): Option<seq<Byte>> {
    if want.Some? && |payload| <= want.value then Some(payload) else None
  }

  /** The frame the consumer is working on. */
  ghost predicate Current(s: State, tail: nat, total: nat) {
    |s.popped| < |s.pushed| && tail == s.tail && total == Total(s.pushed[|s.popped|])
  }

  ghost predicate ConsumerOk(s: State) {
    match s.consumer
    case Idle => true
    case Begun(_) => true
    case SawHead(_, head) => Seen(s, head)
    case ReadingLength(_, head, tail, bytes) =>
      && tail == s.tail && Seen(s, head) && head != tail && |s.popped| < |s.pushed|
      && bytes <= ToLittleEndian(Total(s.pushed[|s.popped|]))
    case ReadingKind(_, tail, total) => Current(s, tail, total)
    case ReadingPayload(want, tail, total, kind, bytes) =>
      && want.Some? && total - LEN_PREFIX - 1 <= want.value
      && Current(s, tail, total) && kind == s.pushed[|s.popped|].kind && bytes <= s.pushed[|s.popped|].payload
    case Finishing(want, tail, total, kind, out) =>
      && Current(s, tail, total) && kind == s.pushed[|s.popped|].kind
      && out == Copied(want, s.pushed[|s.popped|].payload)
  }

  /** A pop reported exactly the frame: its type, its length, and, given room for it, its payload. */
  ghost predicate Reports(p: Popped, f: Frame) {
    p.kind == f.kind && p.length == |f.payload| && p.out == Copied(p.want, f.payload)
  }

  ghost predicate History(s: State) {
    && |s.popped| <= |s.pushed|
    && (forall i :: 0 <= i < |s.popped| ==> Reports(s.popped[i], s.pushed[i]))
    && (forall i :: 0 <= i < |s.pushed| ==> Fits(s.pushed[i]))
  }

  /** What holds of the shared memory and the producer, wherever the consumer is. */
  ghost predicate SharedOk(s: State) {
    && |s.memory| > 0
    && History(s)
    && s.head == |Stream(s.pushed)| && s.tail == Offset(s.pushed, |s.popped|)
    && s.tail <= s.head <= s.tail + |s.memory|
    && Stored(s) && ProducerOk(s)
    && !s.sawCorrupt && !s.sawUncommitted
  }

  ghost predicate Invariant(s: State) {
    SharedOk(s) && ConsumerOk(s)
  }

  /** A consumer step that only moves the consumer along keeps everything shared. */
  lemma OnlyConsumerMoves(s: State, r: State)
    requires SharedOk(s) && r == s.(consumer := r.consumer)
    ensures SharedOk(r)
  {
    assert Written(r) == Written(s);
  }

  /** Reading the next byte of a text extends the part read. */
  lemma NextByteRead(text: seq<Byte>, bytes: seq<Byte>, b: Byte)
    requires bytes <= text && |bytes| < |text| && b == text[|bytes|]
    ensures bytes + [b] <= text
  {
  }

  /** A multiple of n that lies below n is zero. */
  lemma OnlyZeroLaps(k: int, n: int, p: int)
    requires p == k * n && 0 <= p < n
    ensures p == 0
  {
    if k >= 1 {
      assert p == n + (k - 1) * n;
    } else if k <= -1 {
      assert p == -n + (k + 1) * n;
    }
  }

  /** Positions less than a lap apart share a place only when they are equal. */
  lemma SamePlace(i: int, j: int, n: int)
    requires n > 0 && i % n == j % n && i <= j < i + n
    ensures i == j
  {
    var q, r := i / n, j / n;
    OnlyZeroLaps(r - q, n, j - i);
  }

  /** Writing at a position that is less than a lap past the tail leaves every unread byte alone. */
  lemma PutKeeps(memory: seq<Byte>, position: nat, b: Byte, tail: nat, j: nat)
    requires |memory| > 0 && tail <= j < position < tail + |memory|
    ensures At(Put(memory, position, b), j) == At(memory, j)
  {
    if j % |memory| == position % |memory| {
      SamePlace(j, position, |memory|);
    }
  }

  lemma {:induction false} WriteStep(s: State)
    requires Invariant(s) && s.producer.Writing? && s.producer.i < Total(s.producer.frame)
    ensures Invariant(ProducerNext(s))
  {
    var r := ProducerNext(s);
    var position := s.head + s.producer.i;
    assert |Written(s)| == position;
    assert Written(r) == Written(s) + [Encode(s.producer.frame)[s.producer.i]];
    forall j: nat | r.tail <= j < |Written(r)| ensures At(r.memory, j) == Written(r)[j] {
      if j < position {
        PutKeeps(s.memory, position, Encode(s.producer.frame)[s.producer.i], s.tail, j);
        assert At(s.memory, j) == Written(s)[j];
      }
    }
  }

  lemma SeenAppend(s: State, r: State, f: Frame, head: nat)
    requires r.pushed == s.pushed + [f] && r.popped == s.popped && Seen(s, head)
    ensures Seen(r, head)
  {
    var k :| |s.popped| <= k <= |s.pushed| && head == Offset(s.pushed, k);
    OffsetAppend(s.pushed, f, k);
    assert head == Offset(r.pushed, k);
  }

  lemma {:induction false} PublishStep(s: State)
    requires Invariant(s) && s.producer.Writing? && s.producer.i == Total(s.producer.frame)
    ensures Invariant(ProducerNext(s))
  {
    var r, f := ProducerNext(s), s.producer.frame;
    StreamAppend(s.pushed, f);
    OffsetAppend(s.pushed, f, |s.popped|);
    assert Encode(f)[..Total(f)] == Encode(f);
    assert Written(r) == Written(s);
    forall i | 0 <= i < |s.popped| ensures Reports(r.popped[i], r.pushed[i]) {
      assert Reports(s.popped[i], s.pushed[i]);
    }
    match s.consumer {
      case SawHead(_, head) => SeenAppend(s, r, f, head);
      case ReadingLength(_, head, _, _) => SeenAppend(s, r, f, head);
      case _ =>
    }
  }

  lemma ProducerKeeps(s: State)
    requires Invariant(s)
    ensures Invariant(ProducerNext(s))
  {
    match s.producer {
      case Writing(frame, _, i) =>
        if i < Total(frame) {
          WriteStep(s);
        } else {
          PublishStep(s);
        }
      case HeadLoaded(_, _) => CheckStep(s);
      case _ => OnlyProducerMoves(s, ProducerNext(s));
    }
  }

  /** A producer step that only moves the producer along keeps everything else. */
  lemma OnlyProducerMoves(s: State, r: State)
    requires Invariant(s) && r == s.(producer := r.producer) && ProducerOk(r) && Written(r) == Written(s)
    ensures Invariant(r)
  {
  }

  lemma CheckStep(s: State)
    requires Invariant(s) && s.producer.HeadLoaded?
    ensures Invariant(ProducerNext(s))
  {
    assert Written(ProducerNext(s)) == Written(s);
    OnlyProducerMoves(s, ProducerNext(s));
  }

  /** Byte i of the current frame is the byte the consumer finds i places past the tail. */
  lemma {:induction false} CurrentByte(s: State, i: nat)
    requires Invariant(s) && |s.popped| < |s.pushed| && i < Total(s.pushed[|s.popped|])
    ensures At(s.memory, s.tail + i) == Encode(s.pushed[|s.popped|])[i]
  {
    var k := |s.popped|;
    var w := Stream(s.pushed);
    FrameAt(s.pushed, k);
    assert w[s.tail..s.tail + Total(s.pushed[k])][i] == w[s.tail + i];
    assert Written(s)[s.tail + i] == w[s.tail + i];
  }

  lemma {:induction false} CurrentPrefixByte(s: State, f: Frame, i: nat)
    requires Invariant(s) && |s.popped| < |s.pushed| && f == s.pushed[|s.popped|] && i < LEN_PREFIX
    ensures At(s.memory, s.tail + i) == ToLittleEndian(Total(f))[i]
  {
    CurrentByte(s, i);
    EncodeStart(f, i);
  }

  /** A head past the tail is at least one whole frame past it. */
  lemma {:induction false} SeenPastTail(s: State, head: nat)
    requires Invariant(s) && Seen(s, head) && head != s.tail
    ensures |s.popped| < |s.pushed| && head - s.tail >= Total(s.pushed[|s.popped|])
  {
    var k :| |s.popped| <= k <= |s.pushed| && head == Offset(s.pushed, k);
    OffsetsIncrease(s.pushed, |s.popped|, k);
  }

  lemma LengthByteStep(s: State)
    requires Invariant(s) && s.consumer.ReadingLength? && |s.consumer.bytes| < LEN_PREFIX
    ensures Invariant(ConsumerNext(s))
  {
    var b := At(s.memory, s.consumer.tail + |s.consumer.bytes|);
    CurrentPrefixByte(s, s.pushed[|s.popped|], |s.consumer.bytes|);
    var r := OneByteRead(s, b);
    PrefixGrows(s, r, b);
  }

  lemma OneByteRead(s: State, b: Byte) returns (r: State)
    requires |s.memory| > 0 && s.consumer.ReadingLength? && |s.consumer.bytes| < LEN_PREFIX
    requires b == At(s.memory, s.consumer.tail + |s.consumer.bytes|)
    ensures r == ConsumerNext(s)
    ensures var c := s.consumer; r == s.(consumer := ReadingLength(c.want, c.head, c.tail, c.bytes + [b]))
  {
    r := ConsumerNext(s);
  }

  lemma {:induction false} PrefixGrows(s: State, r: State, b: Byte)
    requires Invariant(s) && s.consumer.ReadingLength? && |s.consumer.bytes| < LEN_PREFIX
    requires b == ToLittleEndian(Total(s.pushed[|s.popped|]))[|s.consumer.bytes|]
    requires var c := s.consumer; r == s.(consumer := ReadingLength(c.want, c.head, c.tail, c.bytes + [b]))
    ensures Invariant(r)
  {
    OnlyConsumerMoves(s, r);
    NextByteRead(ToLittleEndian(Total(s.pushed[|s.popped|])), s.consumer.bytes, b);
    SeenStays(s, r, s.consumer.head);
  }

  lemma SeenStays(s: State, r: State, head: nat)
    requires r.pushed == s.pushed && r.popped == s.popped && Seen(s, head)
    ensures Seen(r, head)
  {
    var k :| |s.popped| <= k <= |s.pushed| && head == Offset(s.pushed, k);
    assert head == Offset(r.pushed, k);
  }

  lemma LengthStep(s: State)
    requires Invariant(s) && s.consumer.ReadingLength? && |s.consumer.bytes| >= LEN_PREFIX
    ensures Invariant(ConsumerNext(s))
  {
    var f := s.pushed[|s.popped|];
    assert s.consumer.bytes == ToLittleEndian(Total(f));
    LittleEndianRoundTrip(Total(f));
    SeenPastTail(s, s.consumer.head);
    OnlyConsumerMoves(s, ConsumerNext(s));
  }

  lemma FinishHistory(s: State)
    requires Invariant(s) && s.consumer.Finishing?
    ensures History(ConsumerNext(s))
  {
    var r := ConsumerNext(s);
    forall i | 0 <= i < |r.popped| ensures Reports(r.popped[i], r.pushed[i]) {
      if i < |s.popped| {
        assert Reports(s.popped[i], s.pushed[i]);
      }
    }
  }

  lemma {:induction false} NextOffset(pushed: seq<Frame>, k: nat)
    requires k < |pushed|
    ensures Offset(pushed, k + 1) == Offset(pushed, k) + Total(pushed[k]) <= |Stream(pushed)|
  {
    OffsetNext(pushed, k);
    OffsetsIncrease(pushed, k + 1, |pushed|);
    OffsetEnd(pushed);
  }

  lemma FinishStep(s: State)
    requires Invariant(s) && s.consumer.Finishing?
    ensures Invariant(ConsumerNext(s))
  {
    FinishHistory(s);
    NextOffset(s.pushed, |s.popped|);
    assert Written(ConsumerNext(s)) == Written(s);
  }

  lemma LoadStep(s: State)
    requires Invariant(s) && s.consumer.Begun?
    ensures Invariant(ConsumerNext(s))
  {
    OnlyConsumerMoves(s, ConsumerNext(s));
    OffsetEnd(s.pushed);
    assert Seen(ConsumerNext(s), s.head);
  }

  lemma CompareStep(s: State)
    requires Invariant(s) && s.consumer.SawHead?
    ensures Invariant(ConsumerNext(s))
  {
    var head := s.consumer.head;
    OnlyConsumerMoves(s, ConsumerNext(s));
    if head != s.tail {
      SeenPastTail(s, head);
      assert Seen(ConsumerNext(s), head);
    }
  }

  lemma KindStep(s: State)
    requires Invariant(s) && s.consumer.ReadingKind?
    ensures Invariant(ConsumerNext(s))
  {
    OnlyConsumerMoves(s, ConsumerNext(s));
    CurrentByte(s, LEN_PREFIX);
  }

  lemma PayloadByteStep(s: State, f: Frame)
    requires Invariant(s) && s.consumer.ReadingPayload? && f == s.pushed[|s.popped|]
    requires |s.consumer.bytes| < |f.payload|
    ensures Invariant(ConsumerNext(s))
  {
    var bytes := s.consumer.bytes;
    var next := LEN_PREFIX + 1 + |bytes|;
    OnlyConsumerMoves(s, ConsumerNext(s));
    CurrentByte(s, next);
    assert Encode(f)[next] == f.payload[|bytes|];
    NextByteRead(f.payload, bytes, At(s.memory, s.tail + next));
  }

  lemma PayloadDoneStep(s: State, f: Frame)
    requires Invariant(s) && s.consumer.ReadingPayload? && f == s.pushed[|s.popped|]
    requires |s.consumer.bytes| >= |f.payload|
    ensures Invariant(ConsumerNext(s))
  {
    OnlyConsumerMoves(s, ConsumerNext(s));
    assert s.consumer.bytes == f.payload;
  }

  lemma ConsumerKeeps(s: State)
    requires Invariant(s)
    ensures Invariant(ConsumerNext(s))
  {
    match s.consumer {
      case Idle =>
      case Begun(_) => LoadStep(s);
      case SawHead(_, _) => CompareStep(s);
      case ReadingLength(_, _, _, bytes) =>
        if |bytes| < LEN_PREFIX {
          LengthByteStep(s);
        } else {
          LengthStep(s);
        }
      case ReadingKind(_, _, _) => KindStep(s);
      case ReadingPayload(_, _, _, _, bytes) =>
        var f := s.pushed[|s.popped|];
        if |bytes| < |f.payload| {
          PayloadByteStep(s, f);
        } else {
          PayloadDoneStep(s, f);
        }
      case Finishing(_, _, _, _, _) => FinishStep(s);
    }
  }

  lemma CallKeeps(s: State, a: Action)
    requires Invariant(s) && (a.CallPush? || a.CallPop?)
    ensures Invariant(Next(s, a))
  {
    assert Written(Next(s, a)) == Written(s);
  }

  lemma {:induction false} RunKeepsInvariant(memory: seq<Byte>, actions: seq<Action>)
    requires |memory| > 0
    ensures Invariant(Run(memory, actions))
  {
    if |actions| == 0 {
      var s := Start(memory);
      assert Written(s) == [];
    } else {
      var s := Run(memory, actions[..|actions| - 1]);
      RunKeepsInvariant(memory, actions[..|actions| - 1]);
      match actions[|actions| - 1] {
        case CallPush(_) => CallKeeps(s, actions[|actions| - 1]);
        case CallPop(_) => CallKeeps(s, actions[|actions| - 1]);
        case ProducerStep => ProducerKeeps(s);
        case ConsumerStep => ConsumerKeeps(s);
      }
    }
  }

  /** Under every interleaving of byte-level steps, from any memory of any size: the pops so far report
      the first frames pushed, in order, byte for byte whenever the caller's buffer has room, and neither
      defensive exit was ever taken. */
  lemma {:induction false} PopsArePrefixOfPushes(memory: seq<Byte>, actions: seq<Action>)
    requires |memory| > 0
    ensures var s := Run(memory, actions);
            && |s.popped| <= |s.pushed|
            && (forall i :: 0 <= i < |s.popped| ==> Reports(s.popped[i], s.pushed[i]))
            && !s.sawCorrupt && !s.sawUncommitted
  {
    RunKeepsInvariant(memory, actions);
  }

  lemma {:induction false} StepKeepsUnread(s: State, j: nat)
    requires Invariant(s) && s.tail <= j < s.head
    ensures j < |Stream(s.pushed)|
    ensures At(s.memory, j) == Stream(s.pushed)[j]
    ensures At(ProducerNext(s).memory, j) == At(s.memory, j)
  {
    assert Written(s)[j] == Stream(s.pushed)[j];
    if s.producer.Writing? && s.producer.i < Total(s.producer.frame) {
      PutKeeps(s.memory, s.head + s.producer.i, Encode(s.producer.frame)[s.producer.i], s.tail, j);
    }
  }

  /** No step of the producer changes the place of a byte that is committed and not yet released. */
  lemma {:induction false} UnreadBytesAreKept(memory: seq<Byte>, actions: seq<Action>, j: nat)
    requires |memory| > 0
    requires Run(memory, actions).tail <= j < Run(memory, actions).head
    ensures j < |Stream(Run(memory, actions).pushed)|
    ensures At(Run(memory, actions).memory, j) == Stream(Run(memory, actions).pushed)[j]
    ensures At(Run(memory, actions + [ProducerStep]).memory, j) == At(Run(memory, actions).memory, j)
  {
    RunKeepsInvariant(memory, actions);
    StepKeepsUnread(Run(memory, actions), j);
    assert (actions + [ProducerStep])[..|actions|] == actions;
  }

  // ---------------------------------------------------------------------------------------------
  // Undisturbed calls complete
  // ---------------------------------------------------------------------------------------------

  /** The producer takes n steps while the consumer takes none. */
  function ProducerAlone(s: State, n: nat): State
    requires |s.memory| > 0
    decreases n
  {
    if n == 0 then s else ProducerAlone(ProducerNext(s), n - 1)
  }

  lemma {:induction false} RestingStays(s: State, n: nat)
    requires |s.memory| > 0 && s.producer.Resting?
    ensures ProducerAlone(s, n) == s
  {
    if n > 0 {
      RestingStays(s, n - 1);
    }
  }

  lemma {:induction false} WritingEnds(s: State, frame: Frame, n: nat)
    requires |s.memory| > 0 && s.producer.Writing? && s.producer.frame == frame && s.producer.i <= Total(frame)
    requires n == Total(frame) - s.producer.i + 1
    ensures ProducerAlone(s, n).producer.Resting? && ProducerAlone(s, n).pushed == s.pushed + [frame]
    decreases n
  {
    if s.producer.i < Total(frame) {
      WritingEnds(ProducerNext(s), frame, n - 1);
    } else {
      assert ProducerAlone(s, n) == ProducerAlone(ProducerNext(s), 0);
    }
  }

  lemma {:induction false} PushEnds(s: State, frame: Frame, n: nat)
    requires |s.memory| > 0 && s.producer.Resting? && n == Total(frame) + 3
    ensures var r := ProducerAlone(Next(s, CallPush(frame)), n);
            && r.producer.Resting?
            && r.pushed == if |frame.payload| <= 67108864 && s.head - s.tail + Total(frame) <= |s.memory|
                           then s.pushed + [frame] else s.pushed
  {
    var one := ProducerNext(Next(s, CallPush(frame)));
    assert ProducerAlone(Next(s, CallPush(frame)), n) == ProducerAlone(one, n - 1);
    if one.producer.Resting? {
      RestingStays(one, n - 1);
    } else {
      var two := ProducerNext(one);
      assert ProducerAlone(one, n - 1) == ProducerAlone(two, n - 2);
      if two.producer.Resting? {
        RestingStays(two, n - 2);
      } else {
        WritingEnds(two, frame, n - 2);
      }
    }
  }

  /** A push that is not disturbed is over after as many steps as its frame has bytes and three more, and
      the frame is committed exactly when its payload is within the limit and it fits beside the unread bytes. */
  lemma {:induction false} PushCompletes(s: State, frame: Frame)
    requires |s.memory| > 0 && s.producer.Resting?
    ensures var r := ProducerAlone(Next(s, CallPush(frame)), Total(frame) + 3);
            && r.producer.Resting?
            && r.pushed == if |frame.payload| <= 67108864 && s.head - s.tail + Total(frame) <= |s.memory|
                           then s.pushed + [frame] else s.pushed
  {
    PushEnds(s, frame, Total(frame) + 3);
  }

  /** The consumer takes n steps while the producer takes none. */
  function ConsumerAlone(s: State, n: nat): State
    requires |s.memory| > 0
    decreases n
  {
    if n == 0 then s else ConsumerAlone(ConsumerNext(s), n - 1)
  }

  /** A pop that has seen a frame and has not yet released it. */
  ghost predicate Reading(c: Consumer) {
    c.ReadingLength? || c.ReadingKind? || c.ReadingPayload? || c.Finishing?
  }

  /** Enough steps for what is left of a pop of frame f. */
  function StepsLeft(c: Consumer, f: Frame): int {
    match c
    case ReadingLength(_, _, _, bytes) => |f.payload| + 4 + LEN_PREFIX - |bytes|
    case ReadingKind(_, _, _) => |f.payload| + 3
    case ReadingPayload(_, _, _, _, bytes) => |f.payload| + 2 - |bytes|
    case _ => 1
  }

  /** The frame a pop is working on. */
  ghost predicate WorkingOn(s: State, f: Frame) {
    Reading(s.consumer) && |s.popped| < |s.pushed| && f == s.pushed[|s.popped|]
  }

  lemma ReadingGoesOn(s: State, f: Frame)
    requires Invariant(s) && WorkingOn(s, f) && !s.consumer.Finishing?
    ensures Invariant(ConsumerNext(s)) && WorkingOn(ConsumerNext(s), f)
    ensures ConsumerNext(s).popped == s.popped
    ensures 0 <= StepsLeft(ConsumerNext(s).consumer, f) < StepsLeft(s.consumer, f)
  {
    ConsumerKeeps(s);
    ReadingMoves(s, f);
  }

  lemma ReadingMoves(s: State, f: Frame)
    requires |s.memory| > 0 && ConsumerOk(s) && WorkingOn(s, f) && !s.consumer.Finishing?
    requires !ConsumerNext(s).sawCorrupt && !ConsumerNext(s).sawUncommitted
    ensures WorkingOn(ConsumerNext(s), f) && ConsumerNext(s).popped == s.popped
    ensures 0 <= StepsLeft(ConsumerNext(s).consumer, f) < StepsLeft(s.consumer, f)
  {
  }

  lemma {:induction false} OneStepMore(s: State, n: nat)
    requires |s.memory| > 0
    ensures ConsumerAlone(s, n + 1) == ConsumerAlone(ConsumerNext(s), n)
  {
  }

  lemma {:induction false} FinishingEnds(s: State)
    requires Invariant(s) && s.consumer.Finishing?
    ensures ConsumerAlone(s, 1).consumer.Idle? && |ConsumerAlone(s, 1).popped| == |s.popped| + 1
  {
    OneStepMore(s, 0);
  }

  /** A pop that has seen a frame ends, if it is not disturbed, with one more frame popped. */
  lemma {:induction false} ReadingEnds(s: State, f: Frame) returns (n: nat)
    requires Invariant(s) && WorkingOn(s, f)
    ensures ConsumerAlone(s, n).consumer.Idle? && |ConsumerAlone(s, n).popped| == |s.popped| + 1
    decreases StepsLeft(s.consumer, f)
  {
    if s.consumer.Finishing? {
      FinishingEnds(s);
      n := 1;
    } else {
      ReadingGoesOn(s, f);
      var m := ReadingEnds(ConsumerNext(s), f);
      OneStepMore(s, m);
      n := m + 1;
    }
  }

  /** A pop decides in two steps whether there is a frame. */
  lemma PopDecides(s: State, begun: State) returns (r: State)
    requires Invariant(s) && s.consumer.Idle? && begun.consumer.Begun? && begun == s.(consumer := begun.consumer)
    ensures r == ConsumerNext(ConsumerNext(begun)) && Invariant(r) && r.popped == s.popped
    ensures if s.head == s.tail then r.consumer.Idle? else Reading(r.consumer) && |r.popped| < |r.pushed|
  {
    OnlyConsumerMoves(s, begun);
    LoadStep(begun);
    CompareStep(ConsumerNext(begun));
    r := ConsumerNext(ConsumerNext(begun));
  }

  lemma {:induction false} TwoStepsMore(s: State, r: State, n: nat)
    requires |s.memory| > 0 && r == ConsumerNext(ConsumerNext(s))
    ensures ConsumerAlone(s, n + 2) == ConsumerAlone(r, n)
  {
    OneStepMore(s, n + 1);
    OneStepMore(ConsumerNext(s), n);
  }

  lemma {:induction false} PopEnds(s: State, begun: State) returns (n: nat)
    requires Invariant(s) && s.consumer.Idle? && begun.consumer.Begun? && begun == s.(consumer := begun.consumer)
    ensures ConsumerAlone(begun, n).consumer.Idle?
    ensures |ConsumerAlone(begun, n).popped| == |s.popped| + (if s.head == s.tail then 0 else 1)
  {
    var decided := PopDecides(s, begun);
    var m := 0;
    if s.head != s.tail {
      m := ReadingEnds(decided, decided.pushed[|decided.popped|]);
    }
    n := m + 2;
    TwoStepsMore(begun, decided, m);
  }

  /** After any run, a pop called on an idle consumer and not disturbed comes back; it has popped one more
      frame exactly when there was one to pop. */
  lemma {:induction false} PopCompletes(memory: seq<Byte>, actions: seq<Action>, want: Option<nat>) returns (n: nat)
    requires |memory| > 0 && Run(memory, actions).consumer.Idle?
    ensures var s := Run(memory, actions);
            var r := ConsumerAlone(Next(s, CallPop(want)), n);
            && r.consumer.Idle?
            && |r.popped| == |s.popped| + (if s.head == s.tail then 0 else 1)
  {
    RunKeepsInvariant(memory, actions);
    var s := Run(memory, actions);
    n := PopEnds(s, Next(s, CallPop(want)));
  }
}
