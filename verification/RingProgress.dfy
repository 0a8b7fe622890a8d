/** Calls on the ring complete under every interleaving, and fail only for a reason. */
module RingProgress {
  import opened ByteOrder
  import opened Frames
  import opened Options
  import opened RingProtocol

  /** More actions from a state on. */
  function Go(s: State, more: seq<Action>): (r: State)
    requires |s.memory| > 0
    ensures |r.memory| == |s.memory|
    decreases |more|, 1
  {
    if |more| == 0 then s else GoOn(s, more)
  }

  /** The first of the actions, then the others. */
  function GoOn(s: State, more: seq<Action>): (r: State)
    requires |s.memory| > 0 && |more| > 0
    ensures |r.memory| == |s.memory|
    decreases |more|, 0
  {
    Go(Next(s, more[0]), more[1..])
  }

  /** How many of the actions are steps of the one or the other side. */
  function Steps(more: seq<Action>, side: Action): nat
    decreases |more|
  {
    if |more| == 0 then 0 else (if more[0] == side then 1 else 0) + Steps(more[1..], side)
  }

  lemma {:induction false} GoAppend(s: State, a: seq<Action>, b: seq<Action>)
    requires |s.memory| > 0
    ensures Go(s, a + b) == Go(Go(s, a), b)
    decreases |a|
  {
    if |a| == 0 {
      assert a + b == b;
    } else {
      assert (a + b)[0] == a[0] && (a + b)[1..] == a[1..] + b;
      assert Go(s, a + b) == GoOn(s, a + b) && Go(s, a) == GoOn(s, a);
      GoAppend(Next(s, a[0]), a[1..], b);
    }
  }

  lemma {:induction false} StepsAppend(a: seq<Action>, b: seq<Action>, side: Action)
    ensures Steps(a + b, side) == Steps(a, side) + Steps(b, side)
    decreases |a|
  {
    if |a| == 0 {
      assert a + b == b;
    } else {
      assert (a + b)[0] == a[0] && (a + b)[1..] == a[1..] + b;
      StepsAppend(a[1..], b, side);
    }
  }

  /** Any run can be cut in two. */
  lemma {:induction false} RunIsGo(memory: seq<Byte>, actions: seq<Action>, more: seq<Action>)
    requires |memory| > 0
    ensures Run(memory, actions + more) == Go(Run(memory, actions), more)
    decreases |more|
  {
    if |more| == 0 {
      assert actions + more == actions;
    } else {
      assert (actions + [more[0]])[..|actions|] == actions;
      RunIsGo(memory, actions + [more[0]], more[1..]);
      assert (actions + [more[0]]) + more[1..] == actions + more;
      assert Go(Run(memory, actions), more) == GoOn(Run(memory, actions), more);
    }
  }

  lemma ActionKeeps(s: State, a: Action)
    requires RingProtocol.Invariant(s)
    ensures RingProtocol.Invariant(Next(s, a))
  {
    match a {
      case CallPush(_) => CallKeeps(s, a);
      case CallPop(_) => CallKeeps(s, a);
      case ProducerStep => ProducerKeeps(s);
      case ConsumerStep => ConsumerKeeps(s);
    }
  }

  // ---------------------------------------------------------------------------------------------
  // Waiting for a step
  // ---------------------------------------------------------------------------------------------

  /** Nothing but its own steps touches a busy producer and what it has published. */
  ghost predicate ProducerWaits(s: State, r: State) {
    && |r.memory| == |s.memory| && r.producer == s.producer && r.pushed == s.pushed && r.head == s.head
  }

  lemma ProducerUntouched(s: State, a: Action)
    requires |s.memory| > 0 && !s.producer.Resting? && a != ProducerStep
    ensures ProducerWaits(s, Next(s, a))
  {
  }

  /** The tail only grows. */
  lemma {:induction false} TailGrows(s: State, more: seq<Action>)
    requires RingProtocol.Invariant(s)
    ensures Go(s, more).tail >= s.tail
    decreases |more|
  {
    if |more| > 0 {
      ActionKeeps(s, more[0]);
      TailMoves(s, more[0]);
      assert Go(s, more) == GoOn(s, more);
      TailGrows(Next(s, more[0]), more[1..]);
    }
  }

  lemma TailMoves(s: State, a: Action)
    requires RingProtocol.Invariant(s)
    ensures Next(s, a).tail >= s.tail
  {
  }

  /** The first step of the producer among more actions. */
  lemma {:induction false} NextProducerStep(s: State, more: seq<Action>) returns (j: nat)
    requires |s.memory| > 0 && !s.producer.Resting? && Steps(more, ProducerStep) > 0
    ensures j < |more| && more[j] == ProducerStep && Steps(more[..j], ProducerStep) == 0
    ensures ProducerWaits(s, Go(s, more[..j]))
    decreases |more|
  {
    if more[0] == ProducerStep {
      j := 0;
    } else {
      ProducerUntouched(s, more[0]);
      var i := NextProducerStep(Next(s, more[0]), more[1..]);
      j := i + 1;
      assert more[..j][0] == more[0] && more[..j][1..] == more[1..][..i];
      assert Go(s, more[..j]) == GoOn(s, more[..j]);
    }
  }

  lemma OneAction(s: State, a: Action)
    requires |s.memory| > 0
    ensures Go(s, [a]) == Next(s, a)
  {
    assert Go(s, [a]) == GoOn(s, [a]) && [a][1..] == [];
  }

  /** Going on to just behind action j. */
  lemma Behind(s: State, more: seq<Action>, j: nat, side: Action)
    requires |s.memory| > 0 && j < |more| && more[j] == side && Steps(more[..j], side) == 0
    ensures Go(s, more[..j + 1]) == Next(Go(s, more[..j]), side)
    ensures Steps(more[..j + 1], side) == 1 && Steps(more[j + 1..], side) == Steps(more, side) - 1
  {
    assert more[..j + 1] == more[..j] + [side] && more == more[..j + 1] + more[j + 1..];
    GoAppend(s, more[..j], [side]);
    OneAction(Go(s, more[..j]), side);
    StepsAppend(more[..j], [side], side);
    StepsAppend(more[..j + 1], more[j + 1..], side);
    assert [side][1..] == [];
  }

  /** Two stretches one after the other. */
  lemma Joined(s: State, more: seq<Action>, j: nat, i: nat, side: Action)
    requires |s.memory| > 0 && j <= |more| && i <= |more| - j
    ensures Go(s, more[..j + i]) == Go(Go(s, more[..j]), more[j..][..i])
    ensures Steps(more[..j + i], side) == Steps(more[..j], side) + Steps(more[j..][..i], side)
  {
    assert more[..j + i] == more[..j] + more[j..][..i];
    GoAppend(s, more[..j], more[j..][..i]);
    StepsAppend(more[..j], more[j..][..i], side);
  }

  // ---------------------------------------------------------------------------------------------
  // Pushes
  // ---------------------------------------------------------------------------------------------

  /** The frame fits beside the bytes that are not released yet. */
  predicate HasRoom(s: State, frame: Frame) {
    s.head - s.tail + Total(frame) <= |s.memory|
  }

  /** After i actions the push is over, with at most `steps` steps of its own, having published these frames. */
  ghost predicate PushOver(s: State, more: seq<Action>, i: nat, steps: nat, pushed: seq<Frame>)
    requires |s.memory| > 0
  {
    && i <= |more| && Steps(more[..i], ProducerStep) <= steps
    && Go(s, more[..i]).producer.Resting? && Go(s, more[..i]).pushed == pushed
  }

  lemma PushGoesOn(s: State, more: seq<Action>, k: nat, next: State, i: nat, steps: nat, pushed: seq<Frame>)
    requires |s.memory| > 0 && k <= |more| && next == Go(s, more[..k]) && Steps(more[..k], ProducerStep) == 1
    requires PushOver(next, more[k..], i, steps, pushed)
    ensures PushOver(s, more, k + i, steps + 1, pushed)
  {
    Joined(s, more, k, i, ProducerStep);
  }

  lemma {:induction false} WritingIsOver(s: State, frame: Frame, more: seq<Action>, steps: nat) returns (i: nat)
    requires |s.memory| > 0 && s.producer.Writing? && s.producer.frame == frame && s.producer.i <= Total(frame)
    requires steps == Total(frame) - s.producer.i + 1 <= Steps(more, ProducerStep)
    ensures PushOver(s, more, i, steps, s.pushed + [frame])
    decreases steps
  {
    var j := NextProducerStep(s, more);
    var next := Next(Go(s, more[..j]), ProducerStep);
    Behind(s, more, j, ProducerStep);
    var rest := 0;
    if s.producer.i < Total(frame) {
      rest := WritingIsOver(next, frame, more[j + 1..], steps - 1);
    }
    PushGoesOn(s, more, j + 1, next, rest, steps - 1, s.pushed + [frame]);
    i := j + 1 + rest;
  }

  /** What a push publishes, decided when action j loads the tail. */
  ghost function Published(s: State, more: seq<Action>, j: nat, frame: Frame): seq<Frame>
    requires |s.memory| > 0 && j <= |more|
  {
    if |frame.payload| <= 67108864 && HasRoom(Go(s, more[..j]), frame) then s.pushed + [frame] else s.pushed
  }

  lemma HeadLoadedIsOver(s: State, frame: Frame, more: seq<Action>, steps: nat) returns (i: nat, j: nat)
    requires |s.memory| > 0 && s.producer == HeadLoaded(frame, s.head) && |frame.payload| <= 67108864
    requires steps == Total(frame) + 2 <= Steps(more, ProducerStep)
    ensures j < |more| && more[j] == ProducerStep && ProducerWaits(s, Go(s, more[..j]))
    ensures PushOver(s, more, i, steps, Published(s, more, j, frame))
  {
    j := NextProducerStep(s, more);
    var next := Next(Go(s, more[..j]), ProducerStep);
    Behind(s, more, j, ProducerStep);
    var rest := 0;
    if next.producer.Writing? {
      rest := WritingIsOver(next, frame, more[j + 1..], steps - 1);
    }
    PushGoesOn(s, more, j + 1, next, rest, steps - 1, Published(s, more, j, frame));
    i := j + 1 + rest;
  }

  /** Under every interleaving a push is over after at most as many steps of its own as its frame has bytes
      and three more. It commits its frame exactly when the payload is within the limit and the frame has
      room at the moment the tail is loaded; and it always does when it had room when it was called. */
  lemma PushIsOver(memory: seq<Byte>, actions: seq<Action>, frame: Frame, more: seq<Action>)
    returns (i: nat, j: nat)
    requires |memory| > 0 && Run(memory, actions).producer.Resting?
    requires Steps(more, ProducerStep) >= Total(frame) + 3
    ensures i <= |more| && j <= |more| && Steps(more[..i], ProducerStep) <= Total(frame) + 3
    ensures var called := actions + [CallPush(frame)];
            var s, loading, r := Run(memory, actions), Run(memory, called + more[..j]), Run(memory, called + more[..i]);
            && r.producer.Resting?
            && r.pushed == (if |frame.payload| <= 67108864 && HasRoom(loading, frame) then s.pushed + [frame] else s.pushed)
            && (|frame.payload| <= 67108864 ==> loading.producer == HeadLoaded(frame, s.head))
            && (|frame.payload| <= 67108864 && HasRoom(s, frame) ==> r.pushed == s.pushed + [frame])
  {
    var s, called := Run(memory, actions), actions + [CallPush(frame)];
    var t := Run(memory, called);
    assert called[..|actions|] == actions;
    RunKeepsInvariant(memory, called);
    var steps := Total(frame) + 3;
    i, j := StartingIsOver(t, frame, more, steps);
    TailGrows(t, more[..j]);
    RunIsGo(memory, called, more[..j]);
    RunIsGo(memory, called, more[..i]);
  }

  lemma StartingIsOver(s: State, frame: Frame, more: seq<Action>, steps: nat) returns (i: nat, j: nat)
    requires |s.memory| > 0 && s.producer == Starting(frame) && steps == Total(frame) + 3 <= Steps(more, ProducerStep)
    ensures j <= |more| && PushOver(s, more, i, steps, Published(s, more, j, frame))
    ensures |frame.payload| <= 67108864 ==>
              var loading := Go(s, more[..j]);
              loading.producer == HeadLoaded(frame, s.head) && loading.head == s.head
  {
    var k := NextProducerStep(s, more);
    var next := Next(Go(s, more[..k]), ProducerStep);
    Behind(s, more, k, ProducerStep);
    var rest;
    rest, j := 0, 0;
    if |frame.payload| <= 67108864 {
      rest, j := HeadLoadedIsOver(next, frame, more[k + 1..], steps - 1);
      Joined(s, more, k + 1, j, ProducerStep);
      j := k + 1 + j;
    }
    PushGoesOn(s, more, k + 1, next, rest, steps - 1, Published(s, more, j, frame));
    i := k + 1 + rest;
  }

  // ---------------------------------------------------------------------------------------------
  // Pops
  // ---------------------------------------------------------------------------------------------

  /** Nothing but its own steps touches a busy consumer and what it has released; more may be published. */
  ghost predicate ConsumerWaits(s: State, r: State) {
    && |r.memory| == |s.memory| && r.consumer == s.consumer && r.popped == s.popped && r.tail == s.tail
    && s.pushed <= r.pushed && RingProtocol.Invariant(r)
  }

  lemma ConsumerUntouched(s: State, a: Action)
    requires RingProtocol.Invariant(s) && !s.consumer.Idle? && a != ConsumerStep
    ensures ConsumerWaits(s, Next(s, a))
  {
    ActionKeeps(s, a);
  }

  lemma Untouched(s: State, a: Action) returns (t: State)
    requires RingProtocol.Invariant(s) && !s.consumer.Idle? && a != ConsumerStep
    ensures t == Next(s, a) && ConsumerWaits(s, t)
  {
    ConsumerUntouched(s, a);
    t := Next(s, a);
  }

  lemma WaitsOn(s: State, t: State, r: State)
    requires ConsumerWaits(s, t) && ConsumerWaits(t, r)
    ensures ConsumerWaits(s, r)
  {
  }

  lemma {:induction false} NextConsumerStep(s: State, more: seq<Action>) returns (j: nat)
    requires RingProtocol.Invariant(s) && !s.consumer.Idle? && Steps(more, ConsumerStep) > 0
    ensures j < |more| && more[j] == ConsumerStep && Steps(more[..j], ConsumerStep) == 0
    ensures ConsumerWaits(s, Go(s, more[..j]))
    decreases |more|
  {
    if more[0] == ConsumerStep {
      j := 0;
    } else {
      var t := Untouched(s, more[0]);
      var i := NextConsumerStep(t, more[1..]);
      j := i + 1;
      assert more[..j][0] == more[0] && more[..j][1..] == more[1..][..i];
      assert Go(s, more[..j]) == GoOn(s, more[..j]);
      WaitsOn(s, t, Go(t, more[1..][..i]));
    }
  }

  /** After i actions the pop is over, with at most `steps` steps of its own and so many pops in all. */
  ghost predicate PopOver(s: State, more: seq<Action>, i: nat, steps: nat, pops: nat)
    requires |s.memory| > 0
  {
    && i <= |more| && Steps(more[..i], ConsumerStep) <= steps
    && Go(s, more[..i]).consumer.Idle? && |Go(s, more[..i]).popped| == pops
  }

  lemma PopGoesOn(s: State, more: seq<Action>, k: nat, next: State, i: nat, steps: nat, pops: nat)
    requires |s.memory| > 0 && k <= |more| && next == Go(s, more[..k]) && Steps(more[..k], ConsumerStep) == 1
    requires PopOver(next, more[k..], i, steps, pops)
    ensures PopOver(s, more, k + i, steps + 1, pops)
  {
    Joined(s, more, k, i, ConsumerStep);
  }

  /** One step of a pop that has seen a frame, whatever happened since its last. */
  lemma ReadingStep(s: State, u: State, f: Frame)
    requires RingProtocol.Invariant(s) && WorkingOn(s, f) && ConsumerWaits(s, u)
    ensures var next := ConsumerNext(u);
            && RingProtocol.Invariant(next)
            && if s.consumer.Finishing? then next.consumer.Idle? && |next.popped| == |s.popped| + 1
               else WorkingOn(next, f) && next.popped == s.popped && StepsLeft(next.consumer, f) < StepsLeft(s.consumer, f)
  {
    if s.consumer.Finishing? {
      FinishStep(u);
    } else {
      ReadingGoesOn(u, f);
    }
  }

  /** A pop waits for its next step, and takes it. */
  lemma ConsumerStepAt(s: State, more: seq<Action>) returns (k: nat, u: State)
    requires RingProtocol.Invariant(s) && !s.consumer.Idle? && Steps(more, ConsumerStep) > 0
    ensures 0 < k <= |more| && more[k - 1] == ConsumerStep && u == Go(s, more[..k - 1]) && ConsumerWaits(s, u)
    ensures Go(s, more[..k]) == ConsumerNext(u)
    ensures Steps(more[..k], ConsumerStep) == 1 && Steps(more[k..], ConsumerStep) == Steps(more, ConsumerStep) - 1
  {
    var j := NextConsumerStep(s, more);
    Behind(s, more, j, ConsumerStep);
    k, u := j + 1, Go(s, more[..j]);
  }

  /** The pop's first k actions end with its next step, in `next`. */
  ghost predicate SteppedTo(s: State, more: seq<Action>, k: nat, next: State)
    requires |s.memory| > 0
  {
    && 0 < k <= |more| && next == Go(s, more[..k]) && Steps(more[..k], ConsumerStep) == 1
    && Steps(more[k..], ConsumerStep) == Steps(more, ConsumerStep) - 1
  }

  lemma ReadingStepAt(s: State, f: Frame, more: seq<Action>) returns (k: nat, next: State)
    requires RingProtocol.Invariant(s) && WorkingOn(s, f) && Steps(more, ConsumerStep) > 0
    ensures SteppedTo(s, more, k, next) && RingProtocol.Invariant(next)
    ensures s.consumer.Finishing? ==> next.consumer.Idle? && |next.popped| == |s.popped| + 1
    ensures !s.consumer.Finishing? ==>
              WorkingOn(next, f) && next.popped == s.popped && StepsLeft(next.consumer, f) < StepsLeft(s.consumer, f)
  {
    var u;
    k, u := ConsumerStepAt(s, more);
    next := ConsumerNext(u);
    ReadingStep(s, u, f);
  }

  lemma {:induction false} ReadingIsOver(s: State, f: Frame, more: seq<Action>, steps: nat) returns (i: nat)
    requires RingProtocol.Invariant(s) && WorkingOn(s, f)
    requires 0 < steps <= Steps(more, ConsumerStep) && StepsLeft(s.consumer, f) <= steps
    ensures PopOver(s, more, i, steps, |s.popped| + 1)
    decreases steps
  {
    var k, next := ReadingStepAt(s, f, more);
    var rest := 0;
    if !s.consumer.Finishing? {
      WorkIsLeft(next, f);
      rest := ReadingIsOver(next, f, more[k..], steps - 1);
    }
    PopGoesOn(s, more, k, next, rest, steps - 1, |s.popped| + 1);
    i := k + rest;
  }

  lemma WorkIsLeft(s: State, f: Frame)
    requires RingProtocol.Invariant(s) && WorkingOn(s, f)
    ensures StepsLeft(s.consumer, f) > 0
  {
  }

  /** More than any pop takes. */
  const POP_STEPS: nat := FRAME_MAX + LEN_PREFIX + 6

  /** Having seen the head, a pop ends empty or begins to read a frame. */
  lemma CompareStepAt(s: State, more: seq<Action>) returns (k: nat, next: State)
    requires RingProtocol.Invariant(s) && s.consumer.SawHead? && Steps(more, ConsumerStep) > 0
    ensures SteppedTo(s, more, k, next) && RingProtocol.Invariant(next) && next.popped == s.popped
    ensures s.consumer.head == s.tail ==> next.consumer.Idle?
    ensures s.consumer.head != s.tail ==>
              |next.popped| < |next.pushed|
              && var f := next.pushed[|next.popped|];
                 Fits(f) && WorkingOn(next, f) && StepsLeft(next.consumer, f) == |f.payload| + LEN_PREFIX + 4
  {
    var u;
    k, u := ConsumerStepAt(s, more);
    next := ConsumerNext(u);
    CompareStep(u);
  }

  lemma SawHeadIsOver(s: State, more: seq<Action>, steps: nat, pops: nat) returns (i: nat)
    requires RingProtocol.Invariant(s) && s.consumer.SawHead? && FRAME_MAX + LEN_PREFIX + 5 == steps <= Steps(more, ConsumerStep)
    requires pops == |s.popped| + (if s.consumer.head == s.tail then 0 else 1)
    ensures PopOver(s, more, i, steps, pops)
  {
    var k, next := CompareStepAt(s, more);
    var rest := 0;
    if s.consumer.head != s.tail {
      rest := ReadingIsOver(next, next.pushed[|next.popped|], more[k..], steps - 1);
    }
    PopGoesOn(s, more, k, next, rest, steps - 1, pops);
    i := k + rest;
  }

  /** A pop loads the head. */
  lemma LoadStepAt(s: State, more: seq<Action>) returns (k: nat, u: State, next: State)
    requires RingProtocol.Invariant(s) && s.consumer.Begun? && Steps(more, ConsumerStep) > 0
    ensures SteppedTo(s, more, k, next) && RingProtocol.Invariant(next) && more[k - 1] == ConsumerStep
    ensures u == Go(s, more[..k - 1]) && u.consumer == s.consumer && u.popped == s.popped && u.tail == s.tail
    ensures next.consumer == SawHead(s.consumer.want, u.head) && next.popped == s.popped && next.tail == s.tail
  {
    k, u := ConsumerStepAt(s, more);
    next := ConsumerNext(u);
    LoadStep(u);
  }

  lemma BegunIsOver(s: State, more: seq<Action>, steps: nat) returns (i: nat, j: nat)
    requires RingProtocol.Invariant(s) && s.consumer.Begun? && POP_STEPS == steps <= Steps(more, ConsumerStep)
    ensures j < |more| && more[j] == ConsumerStep
    ensures var loading := Go(s, more[..j]);
            && loading.consumer == s.consumer && loading.popped == s.popped && loading.tail == s.tail
            && PopOver(s, more, i, steps, |s.popped| + (if loading.head == loading.tail then 0 else 1))
  {
    var k, u, next := LoadStepAt(s, more);
    j := k - 1;
    var pops := |s.popped| + (if u.head == u.tail then 0 else 1);
    var rest := SawHeadIsOver(next, more[k..], steps - 1, pops);
    PopGoesOn(s, more, k, next, rest, steps - 1, pops);
    i := k + rest;
  }

  /** Under every interleaving a pop is over after a bounded number of steps of its own. It comes back with one
      more frame exactly when the ring was not empty at the moment the head was loaded. */
  lemma PopIsOver(memory: seq<Byte>, actions: seq<Action>, want: Option<nat>, more: seq<Action>)
    returns (i: nat, j: nat)
    requires |memory| > 0 && Run(memory, actions).consumer.Idle?
    requires Steps(more, ConsumerStep) >= POP_STEPS
    ensures i <= |more| && j < |more| && more[j] == ConsumerStep && Steps(more[..i], ConsumerStep) <= POP_STEPS
    ensures var called := actions + [CallPop(want)];
            var s, loading, r := Run(memory, actions), Run(memory, called + more[..j]), Run(memory, called + more[..i]);
            && r.consumer.Idle? && loading.consumer == Begun(want) && loading.popped == s.popped
            && |r.popped| == |s.popped| + (if loading.head == loading.tail then 0 else 1)
  {
    var s, called := Run(memory, actions), actions + [CallPop(want)];
    var t := Run(memory, called);
    assert called[..|actions|] == actions;
    RunKeepsInvariant(memory, called);
    i, j := BegunIsOver(t, more, POP_STEPS);
    RunIsGo(memory, called, more[..j]);
    RunIsGo(memory, called, more[..i]);
  }
}
