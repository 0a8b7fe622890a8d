/** Memory over whole runs: items are formed, rescored from outside, and swept. */
module Consolidation {
  import opened Options
  import opened Sweeping

  /** Everything remembered, and the next item's identity: identities are never used twice. */
  datatype Bank = Bank(store: Store, next: Id)

  datatype Event = Form(narrative: string, score: real) | Rescore(id: Id, score: real) | Sweep(c: Clock)

  const EMPTY: Store := Store(map[], map[], map[], map[], map[])

  /** A formed item goes to long-term memory at once from 5.0 on, and otherwise to the first tier. */
  function Route(score: real): Tier {
    if score >= 5.0 then LongTerm else T1
  }

  function AllIds(s: Store): set<Id> {
    s.t1.Keys + s.t2.Keys + s.t3.Keys + s.fallout.Keys + s.longTerm.Keys
  }

  /** Everything a sweep leaves in a tier. */
  function Gathered(s: Store, c: Clock, tier: Tier): map<Id, Item> {
    map id | id in AllIds(s) && Left(s, c, id, tier).Some? :: Left(s, c, id, tier).value
  }

  function Swept(s: Store, c: Clock): Store {
    Store(Gathered(s, c, T1), Gathered(s, c, T2), Gathered(s, c, T3), Gathered(s, c, Fallout), Gathered(s, c, LongTerm))
  }

  lemma GatheredIs(s: Store, c: Clock, tier: Tier, id: Id)
    ensures id in Gathered(s, c, tier) <==> Left(s, c, id, tier).Some?
    ensures id in Gathered(s, c, tier) ==> Gathered(s, c, tier)[id] == Left(s, c, id, tier).value
  {
    assert Left(s, c, id, tier).Some? ==> id in AllIds(s);
  }

  lemma InSwept(s: Store, c: Clock, tier: Tier)
    ensures In(Swept(s, c), tier) == Gathered(s, c, tier)
  {
  }

  lemma SweptIsSweep(s: Store, c: Clock)
    ensures IsSweep(s, Swept(s, c), c)
  {
    forall id: Id, tier ensures Look(Swept(s, c), tier, id) == Left(s, c, id, tier) {
      InSwept(s, c, tier);
      GatheredIs(s, c, tier, id);
    }
  }

  function Rescored(s: Store, id: Id, score: real): Store {
    var e := Where(s, id);
    if e.None? then s else With(s, e.value.tier, In(s, e.value.tier)[id := e.value.item.(score := score)])
  }

  function Formed(s: Store, id: Id, narrative: string, score: real): Store {
    With(s, Route(score), In(s, Route(score))[id := Item(narrative, score, None, None)])
  }

  function Happen(b: Bank, e: Event): Bank {
    match e
    case Form(narrative, score) => Bank(Formed(b.store, b.next, narrative, score), b.next + 1)
    case Rescore(id, score) => Bank(Rescored(b.store, id, score), b.next)
    case Sweep(c) => Bank(Swept(b.store, c), b.next)
  }

  function After(events: seq<Event>): Bank {
    if |events| == 0 then Bank(EMPTY, 0) else Happen(After(events[..|events| - 1]), events[|events| - 1])
  }

  // ---------------------------------------------------------------------------------------------
  // What every run keeps
  // ---------------------------------------------------------------------------------------------

  /** An item in fallout knows the gate it failed and since when it has been there. */
  ghost predicate FellProperly(item: Item) {
    item.entered.Some? && item.failedGate.Some? && item.failedGate.value in {3.0, 3.5, 5.0}
  }

  ghost predicate Known(s: Store, next: Id) {
    forall tier, id: Id :: Look(s, tier, id).Some? ==> id < next
  }

  ghost predicate FalloutOk(s: Store) {
    forall id :: Look(s, Fallout, id).Some? ==> FellProperly(Look(s, Fallout, id).value)
  }

  ghost predicate Sound(b: Bank) {
    Disjoint(b.store) && Known(b.store, b.next) && FalloutOk(b.store)
  }

  lemma LookInserted(s: Store, tier: Tier, id: Id, item: Item, other: Tier, other': Id)
    ensures Look(With(s, tier, In(s, tier)[id := item]), other, other')
         == if other == tier && other' == id then Some(item) else Look(s, other, other')
  {
    InWith(s, tier, In(s, tier)[id := item], other);
  }

  lemma FormKeepsSound(b: Bank, narrative: string, score: real)
    requires Sound(b)
    ensures Sound(Happen(b, Form(narrative, score)))
  {
    var r, to := Happen(b, Form(narrative, score)).store, Route(score);
    var item := Item(narrative, score, None, None);
    forall tier: Tier, id: Id
      ensures Look(r, tier, id) == if tier == to && id == b.next then Some(item) else Look(b.store, tier, id)
    {
      LookInserted(b.store, to, b.next, item, tier, id);
    }
    assert forall tier :: Look(b.store, tier, b.next).None?;
  }

  lemma RescoreKeepsSound(b: Bank, id: Id, score: real)
    requires Sound(b)
    ensures Sound(Happen(b, Rescore(id, score)))
  {
    var r := Rescored(b.store, id, score);
    forall tier: Tier, other: Id ensures SameButScore(Look(b.store, tier, other), Look(r, tier, other)) {
      RescoreLook(b, id, score, tier, other);
    }
  }

  /** The same item with any score, or none. */
  ghost predicate SameButScore(a: Option<Item>, b: Option<Item>) {
    a.Some? == b.Some? && (a.Some? ==> b.value == a.value.(score := b.value.score))
  }

  lemma {:induction false} SweepKeepsSound(b: Bank, c: Clock)
    requires Sound(b)
    ensures Sound(Happen(b, Sweep(c)))
  {
    var r := Swept(b.store, c);
    SweptIsSweep(b.store, c);
    SweepKeepsDisjoint(b.store, r, c);
    forall tier, id: Id | Look(r, tier, id).Some?
      ensures id < b.next && (tier == Fallout ==> FellProperly(Look(r, tier, id).value))
    {
      SweptItemIsSound(b, r, c, tier, id);
    }
  }

  lemma SweptItemIsSound(b: Bank, r: Store, c: Clock, tier: Tier, id: Id)
    requires Sound(b) && IsSweep(b.store, r, c) && Look(r, tier, id).Some?
    ensures id < b.next && (tier == Fallout ==> FellProperly(Look(r, tier, id).value))
  {
    assert Look(r, tier, id) == Left(b.store, c, id, tier);
    var e := Where(b.store, id).value;
    assert Look(b.store, e.tier, id) == Some(e.item);
  }

  lemma {:induction false} AlwaysSound(events: seq<Event>)
    ensures Sound(After(events))
  {
    if |events| > 0 {
      var b := After(events[..|events| - 1]);
      AlwaysSound(events[..|events| - 1]);
      match events[|events| - 1] {
        case Form(narrative, score) => FormKeepsSound(b, narrative, score);
        case Rescore(id, score) => RescoreKeepsSound(b, id, score);
        case Sweep(c) => SweepKeepsSound(b, c);
      }
    }
  }

  /** Over every run no item is ever in two places. */
  lemma {:induction false} NeverInTwoPlaces(events: seq<Event>, id: Id, a: Tier, b: Tier)
    requires Look(After(events).store, a, id).Some? && Look(After(events).store, b, id).Some?
    ensures a == b
  {
    AlwaysSound(events);
  }

  /** The sweep with which an item fell: event i of the run, before which the item stood in a tier below
      that tier's gate. */
  ghost predicate FellFrom(s: Store, c: Clock, id: Id, tier: Tier, item: Item) {
    && tier in {T1, T2, T3} && Look(s, tier, id).Some? && Look(s, tier, id).value.score < GateOf(tier)
    && item.failedGate == Some(GateOf(tier)) && item.entered == Some(c.stamp)
  }

  ghost predicate FellAt(events: seq<Event>, i: nat, id: Id, item: Item) {
    && i < |events| && events[i].Sweep?
    && exists tier :: FellFrom(After(events[..i]).store, events[i].c, id, tier, item)
  }

  /** From event i on the item has been in fallout without interruption. */
  ghost predicate InFalloutSince(events: seq<Event>, i: nat, id: Id) {
    forall j :: i < j <= |events| ==> Look(After(events[..j]).store, Fallout, id).Some?
  }

  lemma FormFallout(b: Bank, narrative: string, score: real, id: Id)
    ensures Look(Formed(b.store, b.next, narrative, score), Fallout, id) == Look(b.store, Fallout, id)
  {
    LookInserted(b.store, Route(score), b.next, Item(narrative, score, None, None), Fallout, id);
  }

  /** Rescoring changes the score of one item and nothing else about it. */
  lemma RescoreLook(b: Bank, other: Id, score: real, tier: Tier, id: Id)
    requires Sound(b)
    ensures var before, after := Look(b.store, tier, id), Look(Rescored(b.store, other, score), tier, id);
            after == if before.Some? && id == other then Some(before.value.(score := score)) else before
  {
    var e := Where(b.store, other);
    if e.Some? {
      assert Look(b.store, e.value.tier, other) == Some(e.value.item);
      LookInserted(b.store, e.value.tier, other, e.value.item.(score := score), tier, id);
    } else if id == other {
      assert Look(b.store, tier, id).None? by {
        if Look(b.store, tier, id).Some? {
          WhereFinds(b.store, tier, id);
        }
      }
    }
  }

  lemma SweepFallout(s: Store, r: Store, c: Clock, id: Id)
    requires Disjoint(s) && IsSweep(s, r, c) && Look(r, Fallout, id).Some?
    ensures Look(s, Fallout, id) == Look(r, Fallout, id)
         || exists tier :: FellFrom(s, c, id, tier, Look(r, Fallout, id).value)
  {
    assert Look(r, Fallout, id) == Left(s, c, id, Fallout);
    var e := Where(s, id).value;
    assert Look(s, e.tier, id) == Some(e.item);
    if e.tier != Fallout {
      assert FellFrom(s, c, id, e.tier, Look(r, Fallout, id).value);
    }
  }

  /** An item in fallout was there before with the same stamps, or fell with this sweep. */
  lemma FalloutBefore(b: Bank, e: Event, id: Id)
    requires Sound(b) && Look(Happen(b, e).store, Fallout, id).Some?
    ensures var item := Look(Happen(b, e).store, Fallout, id).value;
            || (&& Look(b.store, Fallout, id).Some?
                && Look(b.store, Fallout, id).value.failedGate == item.failedGate
                && Look(b.store, Fallout, id).value.entered == item.entered)
            || (e.Sweep? && exists tier :: FellFrom(b.store, e.c, id, tier, item))
  {
    match e {
      case Form(narrative, score) => FormFallout(b, narrative, score, id);
      case Rescore(other, score) => RescoreLook(b, other, score, Fallout, id);
      case Sweep(c) =>
        SweptIsSweep(b.store, c);
        SweepFallout(b.store, Swept(b.store, c), c, id);
    }
  }

  lemma FellEarlier(events: seq<Event>, i: nat, id: Id, item: Item, item': Item)
    requires |events| > 0 && FellAt(events[..|events| - 1], i, id, item)
    requires item'.failedGate == item.failedGate && item'.entered == item.entered
    ensures FellAt(events, i, id, item')
  {
    var before := events[..|events| - 1];
    assert before[..i] == events[..i];
    var tier :| FellFrom(After(before[..i]).store, before[i].c, id, tier, item);
    assert FellFrom(After(events[..i]).store, events[i].c, id, tier, item');
  }

  lemma {:induction false} StillInFallout(events: seq<Event>, i: nat, id: Id)
    requires |events| > 0 && InFalloutSince(events[..|events| - 1], i, id)
    requires Look(After(events).store, Fallout, id).Some?
    ensures InFalloutSince(events, i, id)
  {
    forall j | i < j <= |events| ensures Look(After(events[..j]).store, Fallout, id).Some? {
      if j == |events| {
        assert events[..j] == events;
      } else {
        assert events[..|events| - 1][..j] == events[..j];
      }
    }
  }

  lemma {:induction false} NowInFallout(events: seq<Event>, id: Id)
    requires |events| > 0 && Look(After(events).store, Fallout, id).Some?
    ensures InFalloutSince(events, |events| - 1, id)
  {
    assert events[..|events|] == events;
  }

  /** Whatever is in fallout fell in the run: its stamps are those of a sweep before which it stood in a tier
      below that tier's gate, and it has not left fallout since. */
  lemma {:induction false} FellInRun(events: seq<Event>, id: Id) returns (i: nat)
    requires Look(After(events).store, Fallout, id).Some?
    ensures FellAt(events, i, id, Look(After(events).store, Fallout, id).value)
    ensures InFalloutSince(events, i, id)
  {
    var before, e := events[..|events| - 1], events[|events| - 1];
    AlwaysSound(before);
    FalloutBefore(After(before), e, id);
    var item := Look(After(events).store, Fallout, id).value;
    if e.Sweep? && exists tier :: FellFrom(After(before).store, e.c, id, tier, item) {
      i := |events| - 1;
      NowInFallout(events, id);
    } else {
      i := FellInRun(before, id);
      FellEarlier(events, i, id, Look(After(before).store, Fallout, id).value, item);
      StillInFallout(events, i, id);
    }
  }

  lemma OnlySweepsRemove(b: Bank, e: Event, id: Id, tier: Tier)
    requires Sound(b) && Look(b.store, tier, id).Some? && !e.Sweep?
    ensures Look(Happen(b, e).store, tier, id).Some?
  {
    match e {
      case Form(narrative, score) =>
        LookInserted(b.store, Route(score), b.next, Item(narrative, score, None, None), tier, id);
      case Rescore(other, score) => RescoreLook(b, other, score, tier, id);
    }
  }

  /** Over every run an item is removed only by a sweep, and only by purging it, at least 48 hours after the
      sweep of the run that dropped it and still below the gate it failed then, or because the store
      refused to make it permanent. */
  lemma {:induction false} RemovedOnlyByPurge(events: seq<Event>, e: Event, id: Id, tier: Tier) returns (i: nat)
    requires Look(After(events).store, tier, id).Some?
    requires forall after :: Look(After(events + [e]).store, after, id).None?
    ensures e.Sweep?
    ensures var item := Look(After(events).store, tier, id).value;
            || (&& tier == Fallout && FellProperly(item) && item.score < item.failedGate.value
                && FellAt(events, i, id, item) && InFalloutSince(events, i, id)
                && e.c.now - events[i].c.stamp >= 48 * 3600)
            || (tier == T3 && item.score >= 5.0 && e.c.answer(id) == StoreFailed)
  {
    var b := After(events);
    AlwaysSound(events);
    assert (events + [e])[..|events|] == events;
    var r := After(events + [e]).store;
    i := 0;
    if e.Sweep? {
      SweptIsSweep(b.store, e.c);
      NothingElseVanishes(b.store, r, e.c, id, tier);
      if tier == Fallout {
        i := FellInRun(events, id);
      }
    } else {
      OnlySweepsRemove(b, e, id, tier);
    }
  }

  /** A newly formed item stands in long-term memory at once when it scores 5.0 or more, and in the first tier
      otherwise; it is nowhere else. */
  lemma {:induction false} FormedStands(events: seq<Event>, narrative: string, score: real, tier: Tier)
    ensures var b, r := After(events), After(events + [Form(narrative, score)]);
            Look(r.store, tier, b.next) == if tier == (if score >= 5.0 then LongTerm else T1)
                                           then Some(Item(narrative, score, None, None)) else None
  {
    var b := After(events);
    AlwaysSound(events);
    assert (events + [Form(narrative, score)])[..|events|] == events;
    LookInserted(b.store, Route(score), b.next, Item(narrative, score, None, None), tier, b.next);
  }

  // ---------------------------------------------------------------------------------------------
  // Climbing
  // ---------------------------------------------------------------------------------------------

  function Height(tier: Tier): int {
    match tier
    case Fallout => -1
    case T1 => 0
    case T2 => 1
    case T3 => 2
    case LongTerm => 3
  }

  function Sweeps(events: seq<Event>): nat {
    if |events| == 0 then 0
    else Sweeps(events[..|events| - 1]) + (if events[|events| - 1].Sweep? then 1 else 0)
  }

  lemma FormClimbs(b: Bank, narrative: string, score: real, id: Id)
    requires Sound(b) && id < b.next && Where(Formed(b.store, b.next, narrative, score), id).Some?
    ensures Where(b.store, id).Some?
    ensures Where(Formed(b.store, b.next, narrative, score), id).value.tier == Where(b.store, id).value.tier
  {
    var r := Formed(b.store, b.next, narrative, score);
    var at := Where(r, id).value.tier;
    assert Look(r, at, id).Some?;
    LookInserted(b.store, Route(score), b.next, Item(narrative, score, None, None), at, id);
    WhereFinds(b.store, at, id);
  }

  lemma RescoreClimbs(b: Bank, other: Id, score: real, id: Id)
    requires Sound(b) && Where(Rescored(b.store, other, score), id).Some?
    ensures Where(b.store, id).Some?
    ensures Where(Rescored(b.store, other, score), id).value.tier == Where(b.store, id).value.tier
  {
    var r := Rescored(b.store, other, score);
    if Where(b.store, other).Some? {
      var f, at := Where(b.store, other).value, Where(r, id).value.tier;
      assert Look(r, at, id).Some?;
      LookInserted(b.store, f.tier, other, f.item.(score := score), at, id);
      if at != f.tier || id != other {
        WhereFinds(b.store, at, id);
      }
    }
  }

  lemma SweepClimbs(s: Store, r: Store, c: Clock, id: Id)
    requires IsSweep(s, r, c) && Where(r, id).Some?
    ensures Where(s, id).Some?
    ensures Height(Where(r, id).value.tier) <= Height(Where(s, id).value.tier) + 1
  {
    var at := Where(r, id).value.tier;
    assert Look(r, at, id).Some?;
    assert Look(r, at, id) == Left(s, c, id, at);
  }

  lemma EventClimbs(b: Bank, e: Event, id: Id)
    requires Sound(b) && id < b.next && Where(Happen(b, e).store, id).Some?
    ensures Where(b.store, id).Some?
    ensures Height(Where(Happen(b, e).store, id).value.tier)
         <= Height(Where(b.store, id).value.tier) + (if e.Sweep? then 1 else 0)
  {
    match e {
      case Form(narrative, score) => FormClimbs(b, narrative, score, id);
      case Rescore(other, score) => RescoreClimbs(b, other, score, id);
      case Sweep(c) =>
        SweptIsSweep(b.store, c);
        SweepClimbs(b.store, Swept(b.store, c), c, id);
    }
  }

  lemma {:induction false} NextGrows(events: seq<Event>, more: seq<Event>)
    ensures After(events).next <= After(events + more).next
  {
    if |more| == 0 {
      assert events + more == events;
    } else {
      NextGrows(events, more[..|more| - 1]);
      assert (events + more)[..|events + more| - 1] == events + more[..|more| - 1];
    }
  }

  /** An item climbs at most one tier a sweep, however it is rescored: what is still there after more
      events stands at most as many tiers higher as there were sweeps among them. */
  lemma {:induction false} OneTierPerSweep(events: seq<Event>, more: seq<Event>, id: Id)
    requires id < After(events).next && Where(After(events + more).store, id).Some?
    ensures Where(After(events).store, id).Some?
    ensures Height(Where(After(events + more).store, id).value.tier)
         <= Height(Where(After(events).store, id).value.tier) + Sweeps(more)
  {
    if |more| == 0 {
      assert events + more == events;
    } else {
      var before := more[..|more| - 1];
      assert (events + more)[..|events + more| - 1] == events + before;
      AlwaysSound(events + before);
      NextGrows(events, before);
      EventClimbs(After(events + before), more[|more| - 1], id);
      OneTierPerSweep(events, before, id);
    }
  }

  /** An item formed below 5.0 is not in long-term memory before its third sweep. */
  lemma {:induction false} PermanenceTakesThreeSweeps(events: seq<Event>, narrative: string, score: real, more: seq<Event>)
    requires score < 5.0
    requires Look(After(events + [Form(narrative, score)] + more).store, LongTerm, After(events).next).Some?
    ensures Sweeps(more) >= 3
  {
    var formed, id := events + [Form(narrative, score)], After(events).next;
    assert formed[..|events|] == events;
    var b, r := After(formed), After(formed + more);
    AlwaysSound(events);
    AlwaysSound(formed);
    AlwaysSound(formed + more);
    assert Look(b.store, T1, id).Some?;
    WhereFinds(b.store, T1, id);
    WhereFinds(r.store, LongTerm, id);
    OneTierPerSweep(formed, more, id);
  }

  function Below(tier: Tier): Tier {
    match tier
    case T2 => T1
    case T3 => T2
    case _ => T3
  }

  /** Event i of `more` is a sweep before which the item stood in the tier with the score its gate asks. */
  ghost predicate ClearedAt(events: seq<Event>, more: seq<Event>, i: nat, id: Id, tier: Tier) {
    && i < |more| && more[i].Sweep?
    && var o := Look(After(events + more[..i]).store, tier, id); o.Some? && o.value.score >= GateOf(tier)
  }

  lemma ArrivesByGate(b: Bank, e: Event, id: Id, tier: Tier)
    requires Sound(b) && id < b.next && tier in {T2, T3, LongTerm}
    requires Look(b.store, tier, id).None? && Look(Happen(b, e).store, tier, id).Some?
    ensures e.Sweep? && Look(b.store, Below(tier), id).Some?
    ensures Look(b.store, Below(tier), id).value.score >= GateOf(Below(tier))
  {
    match e {
      case Form(narrative, score) =>
        LookInserted(b.store, Route(score), b.next, Item(narrative, score, None, None), tier, id);
      case Rescore(other, score) => RescoreLook(b, other, score, tier, id);
      case Sweep(c) =>
        SweptIsSweep(b.store, c);
        OneWayIn(b.store, Swept(b.store, c), c, id, tier);
    }
  }

  /** An item that came to a tier during more events cleared the gate below it in one of their sweeps. */
  lemma {:induction false} CameByGate(events: seq<Event>, more: seq<Event>, id: Id, tier: Tier) returns (i: nat)
    requires id < After(events).next && tier in {T2, T3, LongTerm}
    requires Look(After(events).store, tier, id).None? && Look(After(events + more).store, tier, id).Some?
    ensures ClearedAt(events, more, i, id, Below(tier))
  {
    assert events + [] == events;
    var before := more[..|more| - 1];
    assert (events + more)[..|events + more| - 1] == events + before;
    if Look(After(events + before).store, tier, id).Some? {
      i := CameByGate(events, before, id, tier);
      assert before[..i] == more[..i];
    } else {
      AlwaysSound(events + before);
      NextGrows(events, before);
      ArrivesByGate(After(events + before), more[|more| - 1], id, tier);
      i := |more| - 1;
    }
  }

  /** From the first tier to long-term memory: three sweeps in this order met the item in T1 at 3.0 or more,
      in T2 at 3.5 or more, and in T3 at 5.0 or more, whatever else happened in between. */
  lemma {:induction false} ClimbIsEarned(events: seq<Event>, more: seq<Event>, id: Id) returns (i: nat, j: nat, k: nat)
    requires Look(After(events).store, T1, id).Some? && Look(After(events + more).store, LongTerm, id).Some?
    ensures i < j < k
    ensures ClearedAt(events, more, i, id, T1) && ClearedAt(events, more, j, id, T2) && ClearedAt(events, more, k, id, T3)
  {
    AlwaysSound(events);
    assert forall tier :: tier != T1 ==> Look(After(events).store, tier, id).None?;
    k := CameByGate(events, more, id, LongTerm);
    j := CameByGate(events, more[..k], id, T3);
    assert more[..k][..j] == more[..j];
    i := CameByGate(events, more[..j], id, T2);
    assert more[..j][..i] == more[..i];
  }

  /** An item formed below 5.0 is in long-term memory only after it has cleared all three gates. */
  lemma {:induction false} PermanenceIsEarned(events: seq<Event>, narrative: string, score: real, more: seq<Event>)
    returns (i: nat, j: nat, k: nat)
    requires score < 5.0
    requires Look(After(events + [Form(narrative, score)] + more).store, LongTerm, After(events).next).Some?
    ensures i < j < k
    ensures var formed, id := events + [Form(narrative, score)], After(events).next;
            ClearedAt(formed, more, i, id, T1) && ClearedAt(formed, more, j, id, T2) && ClearedAt(formed, more, k, id, T3)
  {
    var formed, id := events + [Form(narrative, score)], After(events).next;
    assert formed[..|events|] == events;
    LookInserted(After(events).store, T1, id, Item(narrative, score, None, None), T1, id);
    i, j, k := ClimbIsEarned(formed, more, id);
  }

  // ---------------------------------------------------------------------------------------------
  // Without rescoring
  // ---------------------------------------------------------------------------------------------

  ghost predicate NoRescoring(events: seq<Event>) {
    forall i :: 0 <= i < |events| ==> !events[i].Rescore?
  }

  /** Below the last gate in every tier, and below the failed gate in fallout. */
  ghost predicate Stuck(s: Store) {
    && (forall tier, id :: tier != LongTerm && Look(s, tier, id).Some? ==> Look(s, tier, id).value.score < 5.0)
    && (forall id :: Look(s, Fallout, id).Some? ==>
          Look(s, Fallout, id).value.score < FailedGate(Look(s, Fallout, id).value))
  }

  lemma SweptItemIsStuck(s: Store, r: Store, c: Clock, tier: Tier, id: Id)
    requires Disjoint(s) && Stuck(s) && IsSweep(s, r, c) && tier != LongTerm && Look(r, tier, id).Some?
    ensures Look(r, tier, id).value.score < 5.0
    ensures tier == Fallout ==> Look(r, tier, id).value.score < FailedGate(Look(r, tier, id).value)
  {
    assert Look(r, tier, id) == Left(s, c, id, tier);
    var e := Where(s, id).value;
    assert Look(s, e.tier, id) == Some(e.item);
  }

  lemma FormedIsStuck(b: Bank, narrative: string, score: real, tier: Tier, id: Id)
    requires Stuck(b.store) && tier != LongTerm
    requires Look(Formed(b.store, b.next, narrative, score), tier, id).Some?
    ensures var item := Look(Formed(b.store, b.next, narrative, score), tier, id).value;
            item.score < 5.0 && (tier == Fallout ==> item.score < FailedGate(item))
  {
    LookInserted(b.store, Route(score), b.next, Item(narrative, score, None, None), tier, id);
  }

  lemma {:induction false} AlwaysStuck(events: seq<Event>)
    requires NoRescoring(events)
    ensures Stuck(After(events).store)
  {
    if |events| > 0 {
      var before, e := events[..|events| - 1], events[|events| - 1];
      var b, r := After(before), After(events).store;
      assert forall i :: 0 <= i < |before| ==> before[i] == events[i];
      AlwaysStuck(before);
      AlwaysSound(before);
      if e.Sweep? {
        SweptIsSweep(b.store, e.c);
      }
      forall tier, id | tier != LongTerm && Look(r, tier, id).Some?
        ensures Look(r, tier, id).value.score < 5.0
        ensures tier == Fallout ==> Look(r, tier, id).value.score < FailedGate(Look(r, tier, id).value)
      {
        match e {
          case Form(narrative, score) => FormedIsStuck(b, narrative, score, tier, id);
          case Sweep(c) => SweptItemIsStuck(b.store, r, c, tier, id);
        }
      }
    }
  }

  /** The second chance and the way up exist only through rescoring: in a run that rescores nothing, no
      sweep ever takes an item out of fallout into the tiers or out of the tiers into long-term memory. */
  lemma {:induction false} OnlyRescoringRescues(events: seq<Event>, c: Clock, e: Entry)
    requires NoRescoring(events) && Look(After(events).store, e.tier, e.id) == Some(e.item)
    ensures Judge(e, c) in {Promoted, Fell, Waiting, Purged}
  {
    AlwaysStuck(events);
  }

  lemma BackInT1(s: Store, r: Store, c: Clock, id: Id)
    requires Disjoint(s) && IsSweep(s, r, c) && Look(s, Fallout, id).Some? && FellProperly(Look(s, Fallout, id).value)
    ensures var item := Look(s, Fallout, id).value;
            Look(r, T1, id).Some? <==> c.now - item.entered.value >= 48 * 3600 && item.score >= item.failedGate.value
  {
    WhereFinds(s, Fallout, id);
    assert Look(r, T1, id) == Left(s, c, id, T1);
  }

  /** An item in fallout goes back to the first tier exactly when its 48 hours are over and something has
      since raised its score to the gate it failed. */
  lemma {:induction false} RepurposedIff(events: seq<Event>, c: Clock, id: Id)
    requires Look(After(events).store, Fallout, id).Some?
    ensures var item := Look(After(events).store, Fallout, id).value;
            FellProperly(item)
            && (Look(After(events + [Sweep(c)]).store, T1, id).Some?
                <==> c.now - item.entered.value >= 48 * 3600 && item.score >= item.failedGate.value)
  {
    var s := After(events).store;
    AlwaysSound(events);
    assert (events + [Sweep(c)])[..|events|] == events;
    SweptIsSweep(s, c);
    BackInT1(s, Swept(s, c), c, id);
  }
}
