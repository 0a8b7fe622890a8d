/** The tier clock: what one sweep does to every item, one entry at a time and all at once. */
module Sweeping {
  import opened Options

  type Id = nat

  /** An item: its text, its score, the gate it failed and the second it entered fallout. */
  datatype Item = Item(narrative: string, score: real, failedGate: Option<real>, entered: Option<int>)

  datatype Tier = T1 | T2 | T3 | Fallout | LongTerm

  /** The store keeps each tier in a map of its own; nothing in it keeps an item out of two tiers. */
  datatype Store = Store(
    t1: map<Id, Item>, t2: map<Id, Item>, t3: map<Id, Item>, fallout: map<Id, Item>, longTerm: map<Id, Item>)

  const GRACE_SECONDS: int := 48 * 3600

  function In(s: Store, tier: Tier): map<Id, Item> {
    match tier
    case T1 => s.t1
    case T2 => s.t2
    case T3 => s.t3
    case Fallout => s.fallout
    case LongTerm => s.longTerm
  }

  function With(s: Store, tier: Tier, m: map<Id, Item>): Store {
    match tier
    case T1 => s.(t1 := m)
    case T2 => s.(t2 := m)
    case T3 => s.(t3 := m)
    case Fallout => s.(fallout := m)
    case LongTerm => s.(longTerm := m)
  }

  function Look(s: Store, tier: Tier, id: Id): Option<Item> {
    if id in In(s, tier) then Some(In(s, tier)[id]) else None
  }

  /** No item is in two places. */
  ghost predicate Disjoint(s: Store) {
    forall id, a, b :: Look(s, a, id).Some? && Look(s, b, id).Some? ==> a == b
  }

  /** What the store answers when an item is made permanent. */
  datatype Answer = Stored | LogFailed | StoreFailed

  /** A sweep's circumstances: the time it compares with, the time it stamps, and the store's answers. */
  datatype Clock = Clock(now: int, stamp: int, answer: Id -> Answer)

  /** An item as the snapshot of a tier lists it. */
  datatype Entry = Entry(tier: Tier, id: Id, item: Item)

  function GateOf(tier: Tier): real {
    match tier
    case T1 => 3.0
    case T2 => 3.5
    case _ => 5.0
  }

  function NextTier(tier: Tier): Tier {
    match tier
    case T1 => T2
    case T2 => T3
    case _ => LongTerm
  }

  function FailedGate(item: Item): real {
    if item.failedGate.Some? then item.failedGate.value else GateOf(T1)
  }

  datatype Verdict = Promoted | Permanent | Orphaned | Lost | Fell | Waiting | Repurposed | Purged

  predicate InGrace(item: Item, now: int) {
    item.entered.Some? && now - item.entered.value < GRACE_SECONDS
  }

  function Judge(e: Entry, c: Clock): Verdict {
    match e.tier
    case LongTerm => Waiting
    case Fallout =>
      if InGrace(e.item, c.now) then Waiting else if e.item.score >= FailedGate(e.item) then Repurposed else Purged
    case _ =>
      if e.item.score < GateOf(e.tier) then Fell
      else if e.tier != T3 then Promoted
      else match c.answer(e.id) { case Stored => Permanent case LogFailed => Orphaned case StoreFailed => Lost }
  }

  function Stamped(e: Entry, c: Clock): Item {
    e.item.(failedGate := Some(GateOf(e.tier)), entered := Some(c.stamp))
  }

  /** Where an entry is after the sweep, and as what; nowhere when it is purged or lost. */
  function Landing(e: Entry, c: Clock): Option<(Tier, Item)> {
    match Judge(e, c)
    case Promoted => Some((NextTier(e.tier), e.item))
    case Permanent => Some((LongTerm, e.item))
    case Orphaned => Some((LongTerm, e.item))
    case Lost => None
    case Fell => Some((Fallout, Stamped(e, c)))
    case Waiting => Some((e.tier, e.item))
    case Repurposed => Some((T1, e.item))
    case Purged => None
  }

  /** Store first, then delete. */
  function Moved(s: Store, from: Tier, to: Tier, id: Id, item: Item): Store {
    var copied := With(s, to, In(s, to)[id := item]);
    With(copied, from, In(copied, from) - {id})
  }

  function Removed(s: Store, from: Tier, id: Id): Store {
    With(s, from, In(s, from) - {id})
  }

  /** One entry of the snapshot is worked off. */
  function Step(s: Store, e: Entry, c: Clock): Store {
    var landing := Landing(e, c);
    if landing.None? then Removed(s, e.tier, e.id)
    else if landing.value.0 == e.tier then s
    else Moved(s, e.tier, landing.value.0, e.id, landing.value.1)
  }

  function Process(s: Store, entries: seq<Entry>, c: Clock): Store {
    if |entries| == 0 then s
    else Step(Process(s, entries[..|entries| - 1], c), entries[|entries| - 1], c)
  }

  // ---------------------------------------------------------------------------------------------
  // A sweep all at once
  // ---------------------------------------------------------------------------------------------

  /** The entry of an item, wherever it is. */
  function Where(s: Store, id: Id): Option<Entry> {
    if id in s.t1 then Some(Entry(T1, id, s.t1[id]))
    else if id in s.t2 then Some(Entry(T2, id, s.t2[id]))
    else if id in s.t3 then Some(Entry(T3, id, s.t3[id]))
    else if id in s.fallout then Some(Entry(Fallout, id, s.fallout[id]))
    else if id in s.longTerm then Some(Entry(LongTerm, id, s.longTerm[id]))
    else None
  }

  /** What the sweep leaves of an item in a tier, from the item's old place alone. */
  function Left(s: Store, c: Clock, id: Id, tier: Tier): Option<Item> {
    var e := Where(s, id);
    if e.None? then None
    else
      var landing := Landing(e.value, c);
      if landing.Some? && landing.value.0 == tier then Some(landing.value.1) else None
  }

  /** Every item moves by its own old place, whatever happens to the others. */
  ghost predicate IsSweep(s: Store, r: Store, c: Clock) {
    forall id, tier :: Look(r, tier, id) == Left(s, c, id, tier)
  }

  /** The store while some of the items are worked off. */
  ghost predicate Halfway(s: Store, r: Store, done: set<Id>, c: Clock) {
    forall id, tier :: Look(r, tier, id) == if id in done then Left(s, c, id, tier) else Look(s, tier, id)
  }

  lemma WhereFinds(s: Store, tier: Tier, id: Id)
    requires Disjoint(s) && Look(s, tier, id).Some?
    ensures Where(s, id) == Some(Entry(tier, id, Look(s, tier, id).value))
  {
    var e := Where(s, id).value;
    assert Look(s, e.tier, id).Some?;
  }

  lemma InWith(s: Store, tier: Tier, m: map<Id, Item>, other: Tier)
    ensures In(With(s, tier, m), other) == if other == tier then m else In(s, other)
  {
  }

  lemma LookRemoved(s: Store, from: Tier, id: Id, tier: Tier, other: Id)
    ensures Look(Removed(s, from, id), tier, other)
         == if other == id && tier == from then None else Look(s, tier, other)
  {
    InWith(s, from, In(s, from) - {id}, tier);
  }

  lemma LookMoved(s: Store, from: Tier, to: Tier, id: Id, item: Item, tier: Tier, other: Id)
    requires from != to
    ensures Look(Moved(s, from, to, id, item), tier, other)
         == if other != id then Look(s, tier, other)
            else if tier == to then Some(item)
            else if tier == from then None
            else Look(s, tier, other)
  {
    var copied := With(s, to, In(s, to)[id := item]);
    InWith(s, to, In(s, to)[id := item], tier);
    InWith(s, to, In(s, to)[id := item], from);
    InWith(copied, from, In(copied, from) - {id}, tier);
  }

  lemma LookStep(s: Store, e: Entry, c: Clock, tier: Tier, id: Id)
    ensures var landing := Landing(e, c);
            Look(Step(s, e, c), tier, id)
            == if id != e.id then Look(s, tier, id)
               else if landing.Some? && landing.value.0 == e.tier then Look(s, tier, id)
               else if landing.Some? && landing.value.0 == tier then Some(landing.value.1)
               else if tier == e.tier then None
               else Look(s, tier, id)
  {
    var landing := Landing(e, c);
    if landing.None? {
      LookRemoved(s, e.tier, e.id, tier, id);
    } else if landing.value.0 != e.tier {
      LookMoved(s, e.tier, landing.value.0, e.id, landing.value.1, tier, id);
    }
  }

  lemma StayingKeeps(e: Entry, c: Clock)
    requires Landing(e, c).Some? && Landing(e, c).value.0 == e.tier
    ensures Landing(e, c).value.1 == e.item
  {
  }

  /** Working off an item's only entry takes it where it belongs. */
  lemma StepMovesItem(s: Store, e: Entry, c: Clock, tier: Tier)
    requires Look(s, e.tier, e.id) == Some(e.item)
    requires forall other :: other != e.tier ==> Look(s, other, e.id).None?
    ensures var landing := Landing(e, c);
            Look(Step(s, e, c), tier, e.id)
            == if landing.Some? && landing.value.0 == tier then Some(landing.value.1) else None
  {
    LookStep(s, e, c, tier, e.id);
    assert tier != e.tier ==> Look(s, tier, e.id).None?;
    var landing := Landing(e, c);
    if landing.Some? && landing.value.0 == e.tier {
      StayingKeeps(e, c);
    }
  }

  lemma OneMoreDone(s: Store, r: Store, done: set<Id>, c: Clock, e: Entry)
    requires Disjoint(s) && Halfway(s, r, done, c) && e.id !in done && Look(s, e.tier, e.id) == Some(e.item)
    ensures Halfway(s, Step(r, e, c), done + {e.id}, c)
  {
    WhereFinds(s, e.tier, e.id);
    forall other | other != e.tier ensures Look(r, other, e.id).None? {
      assert Look(r, other, e.id) == Look(s, other, e.id);
    }
    forall id: Id, tier
      ensures Look(Step(r, e, c), tier, id) == if id in done + {e.id} then Left(s, c, id, tier) else Look(s, tier, id)
    {
      if id == e.id {
        StepMovesItem(r, e, c, tier);
      } else {
        LookStep(r, e, c, tier, id);
        assert Look(r, tier, id) == if id in done then Left(s, c, id, tier) else Look(s, tier, id);
      }
    }
  }

  /** Every entry is in the store as listed, and no item is listed twice. */
  ghost predicate Listed(s: Store, entries: seq<Entry>) {
    && (forall i :: 0 <= i < |entries| ==> Look(s, entries[i].tier, entries[i].id) == Some(entries[i].item))
    && (forall i, j :: 0 <= i < j < |entries| ==> entries[i].id != entries[j].id)
  }

  ghost function Ids(entries: seq<Entry>): set<Id> {
    set i | 0 <= i < |entries| :: entries[i].id
  }

  lemma ListedBefore(s: Store, entries: seq<Entry>)
    requires Listed(s, entries) && |entries| > 0
    ensures Listed(s, entries[..|entries| - 1])
    ensures Ids(entries) == Ids(entries[..|entries| - 1]) + {entries[|entries| - 1].id}
    ensures entries[|entries| - 1].id !in Ids(entries[..|entries| - 1])
  {
    var before, e := entries[..|entries| - 1], entries[|entries| - 1];
    assert before + [e] == entries;
    IdsAppend(before, e);
    assert forall i :: 0 <= i < |before| ==> before[i].id == entries[i].id != e.id;
  }

  lemma {:induction false} ProcessIsHalfway(s: Store, entries: seq<Entry>, c: Clock)
    requires Disjoint(s) && Listed(s, entries)
    ensures Halfway(s, Process(s, entries, c), Ids(entries), c)
  {
    if |entries| == 0 {
    } else {
      var before, e := entries[..|entries| - 1], entries[|entries| - 1];
      ListedBefore(s, entries);
      ProcessIsHalfway(s, before, c);
      OneMoreDone(s, Process(s, before, c), Ids(before), c, e);
    }
  }

  lemma IdsAppend(entries: seq<Entry>, e: Entry)
    ensures Ids(entries + [e]) == Ids(entries) + {e.id}
  {
    forall id | id in Ids(entries) + {e.id} ensures id in Ids(entries + [e]) {
      if id == e.id {
        assert (entries + [e])[|entries|].id == id;
      } else {
        var i :| 0 <= i < |entries| && entries[i].id == id;
        assert (entries + [e])[i].id == id;
      }
    }
  }

  /** The entries list exactly the items that are not in long-term memory. */
  ghost predicate Snapshot(s: Store, entries: seq<Entry>) {
    && Listed(s, entries)
    && (forall i :: 0 <= i < |entries| ==> entries[i].tier != LongTerm)
    && (forall tier, id :: tier != LongTerm && Look(s, tier, id).Some? ==> id in Ids(entries))
  }

  /** In whatever order a snapshot lists them, every item ends up where its own old place sends it. */
  lemma {:induction false} ProcessIsSweep(s: Store, entries: seq<Entry>, c: Clock)
    requires Disjoint(s) && Snapshot(s, entries)
    ensures IsSweep(s, Process(s, entries, c), c)
  {
    ProcessIsHalfway(s, entries, c);
    var r := Process(s, entries, c);
    forall id: Id, tier ensures Look(r, tier, id) == Left(s, c, id, tier) {
      assert Look(r, tier, id) == if id in Ids(entries) then Left(s, c, id, tier) else Look(s, tier, id);
      if id !in Ids(entries) {
        UnlistedStays(s, entries, c, id, tier);
      }
    }
  }

  lemma UnlistedStays(s: Store, entries: seq<Entry>, c: Clock, id: Id, tier: Tier)
    requires Disjoint(s) && Snapshot(s, entries) && id !in Ids(entries)
    ensures Look(s, tier, id) == Left(s, c, id, tier)
  {
    var e := Where(s, id);
    if e.Some? {
      assert Look(s, e.value.tier, id).Some?;
      if Look(s, tier, id).Some? {
        WhereFinds(s, tier, id);
      }
    }
  }

  // ---------------------------------------------------------------------------------------------
  // What a sweep keeps
  // ---------------------------------------------------------------------------------------------

  lemma SweepKeepsDisjoint(s: Store, r: Store, c: Clock)
    requires IsSweep(s, r, c)
    ensures Disjoint(r)
  {
    forall id, a, b | Look(r, a, id).Some? && Look(r, b, id).Some? ensures a == b {
      assert Look(r, a, id) == Left(s, c, id, a) && Look(r, b, id) == Left(s, c, id, b);
    }
  }

  /** An item that was somewhere and is nowhere afterwards was purged from fallout, below its failed gate
      and out of its 48 hours, or was lost because the store would not make it permanent. */
  lemma NothingElseVanishes(s: Store, r: Store, c: Clock, id: Id, tier: Tier)
    requires Disjoint(s) && IsSweep(s, r, c)
    requires Look(s, tier, id).Some? && (forall after :: Look(r, after, id).None?)
    ensures var item := Look(s, tier, id).value;
            || (&& tier == Fallout && item.score < FailedGate(item)
                && (item.entered.Some? ==> c.now - item.entered.value >= GRACE_SECONDS))
            || (tier == T3 && item.score >= 5.0 && c.answer(id) == StoreFailed)
  {
    WhereFinds(s, tier, id);
    var e := Entry(tier, id, Look(s, tier, id).value);
    var landing := Landing(e, c);
    assert landing.Some? ==> Look(r, landing.value.0, id) == Left(s, c, id, landing.value.0);
  }

  /** An item is in a tier after a sweep exactly when it came there by the one way in: into T2, T3 and
      long-term from the tier below, clearing that tier's gate; into T1 from fallout; into fallout from a
      tier whose gate it failed, or by waiting there. Text and score come along unchanged. */
  lemma OneWayIn(s: Store, r: Store, c: Clock, id: Id, tier: Tier)
    requires Disjoint(s) && IsSweep(s, r, c) && Look(r, tier, id).Some?
    ensures Where(s, id).Some?
    ensures var e := Where(s, id).value;
            && Look(r, tier, id).value.narrative == e.item.narrative
            && Look(r, tier, id).value.score == e.item.score
    ensures tier == T1 ==>
              var item := Look(s, Fallout, id);
              item.Some? && item.value.score >= FailedGate(item.value) && !InGrace(item.value, c.now)
    ensures tier == T2 ==> Look(s, T1, id).Some? && Look(s, T1, id).value.score >= 3.0
    ensures tier == T3 ==> Look(s, T2, id).Some? && Look(s, T2, id).value.score >= 3.5
    ensures tier == LongTerm ==>
              Look(s, LongTerm, id).Some? || (Look(s, T3, id).Some? && Look(s, T3, id).value.score >= 5.0)
    ensures tier == Fallout ==>
              Look(s, Fallout, id).Some?
              || (exists from :: from in {T1, T2, T3} && Look(s, from, id).Some?
                              && Look(s, from, id).value.score < GateOf(from)
                              && Look(r, tier, id).value.failedGate == Some(GateOf(from))
                              && Look(r, tier, id).value.entered == Some(c.stamp))
  {
    assert Look(r, tier, id) == Left(s, c, id, tier);
    var e := Where(s, id).value;
    assert Look(s, e.tier, id) == Some(e.item);
    if tier == Fallout && e.tier != Fallout {
      assert e.tier in {T1, T2, T3};
    }
  }

  /** An item misses its tier's gate. */
  ghost predicate FallsShort(e: Entry) {
    (e.tier == T1 && e.item.score < 3.0) || (e.tier == T2 && e.item.score < 3.5) || (e.tier == T3 && e.item.score < 5.0)
  }

  /** The 48 hours are over. */
  ghost predicate Over(item: Item, now: int) {
    item.entered.Some? ==> now - item.entered.value >= 172800
  }

  /** The gate an item in fallout has to meet: the one it failed, or 3.0. */
  ghost function Missed(item: Item): real {
    if item.failedGate.Some? then item.failedGate.value else 3.0
  }

  lemma WhereIs(s: Store, id: Id, tier: Tier)
    requires Disjoint(s)
    ensures Look(s, tier, id) == (var e := Where(s, id); if e.Some? && e.value.tier == tier then Some(e.value.item) else None)
  {
    if Look(s, tier, id).Some? {
      WhereFinds(s, tier, id);
    }
  }

  /** Where a sweep takes an item, in numbers. */
  ghost predicate Takes(e: Entry, c: Clock, tier: Tier) {
    match tier
    case T1 => e.tier == Fallout && Over(e.item, c.now) && e.item.score >= Missed(e.item)
    case T2 => e.tier == T1 && e.item.score >= 3.0
    case T3 => e.tier == T2 && e.item.score >= 3.5
    case LongTerm => e.tier == LongTerm || (e.tier == T3 && e.item.score >= 5.0 && c.answer(e.id) != StoreFailed)
    case Fallout => FallsShort(e) || (e.tier == Fallout && !Over(e.item, c.now))
  }

  lemma LandsWhere(e: Entry, c: Clock, tier: Tier)
    ensures Landing(e, c).Some? && Landing(e, c).value.0 == tier <==> Takes(e, c, tier)
  {
    assert GRACE_SECONDS == 172800;
  }

  /** A sweep in numbers: exactly which items are in each place afterwards. */
  lemma SweepInNumbers(s: Store, r: Store, c: Clock, id: Id, tier: Tier, e: Entry)
    requires Disjoint(s) && IsSweep(s, r, c) && e.id == id && Look(s, e.tier, id) == Some(e.item)
    ensures Look(r, tier, id).Some? <==> Takes(e, c, tier)
  {
    WhereIs(s, id, e.tier);
    assert Look(r, tier, id) == Left(s, c, id, tier);
    LandsWhere(e, c, tier);
  }

  // ---------------------------------------------------------------------------------------------
  // Counts
  // ---------------------------------------------------------------------------------------------

  datatype Counts = Counts(
    t1ToT2: nat, t2ToT3: nat, toLongTerm: nat, fallout: nat, repurposed: nat, purged: nat)

  const NO_COUNTS: Counts := Counts(0, 0, 0, 0, 0, 0)

  function Counted(n: Counts, e: Entry, c: Clock): Counts {
    match Judge(e, c)
    case Promoted => if e.tier == T1 then n.(t1ToT2 := n.t1ToT2 + 1) else n.(t2ToT3 := n.t2ToT3 + 1)
    case Permanent => n.(toLongTerm := n.toLongTerm + 1)
    case Orphaned => n.(purged := n.purged + 1)
    case Lost => n.(purged := n.purged + 1)
    case Fell => n.(fallout := n.fallout + 1)
    case Waiting => n
    case Repurposed => n.(repurposed := n.repurposed + 1)
    case Purged => n.(purged := n.purged + 1)
  }

  function CountAll(entries: seq<Entry>, c: Clock): Counts {
    if |entries| == 0 then NO_COUNTS
    else Counted(CountAll(entries[..|entries| - 1], c), entries[|entries| - 1], c)
  }

  function Sum(n: Counts): nat {
    n.t1ToT2 + n.t2ToT3 + n.toLongTerm + n.fallout + n.repurposed + n.purged
  }

  /** How many of the entries got a verdict. */
  function Tally(entries: seq<Entry>, c: Clock, v: Verdict): nat {
    if |entries| == 0 then 0
    else Tally(entries[..|entries| - 1], c, v) + (if Judge(entries[|entries| - 1], c) == v then 1 else 0)
  }

  function One(v: Verdict, w: Verdict): nat {
    if v == w then 1 else 0
  }

  /** The counts mean what the tallies say. */
  ghost predicate CountsAre(n: Counts, promoted: nat, permanent: nat, fell: nat, repurposed: nat, gone: nat) {
    && n.t1ToT2 + n.t2ToT3 == promoted && n.toLongTerm == permanent && n.fallout == fell
    && n.repurposed == repurposed && n.purged == gone
  }

  lemma {:induction false} CountedOne(n: Counts, e: Entry, c: Clock, v: Verdict,
                                      promoted: nat, permanent: nat, fell: nat, repurposed: nat, gone: nat)
    requires v == Judge(e, c) && CountsAre(n, promoted, permanent, fell, repurposed, gone)
    ensures CountsAre(Counted(n, e, c), promoted + One(v, Promoted), permanent + One(v, Permanent), fell + One(v, Fell),
                      repurposed + One(v, Repurposed), gone + One(v, Purged) + One(v, Orphaned) + One(v, Lost))
    ensures Sum(Counted(n, e, c)) == Sum(n) + 1 - One(v, Waiting)
  {
  }

  lemma {:induction false} TallyNext(entries: seq<Entry>, c: Clock, v: Verdict)
    requires |entries| > 0
    ensures Tally(entries, c, v) == Tally(entries[..|entries| - 1], c, v) + One(Judge(entries[|entries| - 1], c), v)
  {
  }

  /** Every entry is counted once, or is still waiting. */
  lemma {:induction false} EveryEntryCounts(entries: seq<Entry>, c: Clock)
    ensures Sum(CountAll(entries, c)) + Tally(entries, c, Waiting) == |entries|
  {
    if |entries| > 0 {
      var before, e := entries[..|entries| - 1], entries[|entries| - 1];
      var n := CountAll(before, c);
      EveryEntryCounts(before, c);
      CountedOne(n, e, c, Judge(e, c), n.t1ToT2 + n.t2ToT3, n.toLongTerm, n.fallout, n.repurposed, n.purged);
      TallyNext(entries, c, Waiting);
    }
  }

  /** Each count is the number of entries that got its verdict; "purged" also counts the items that became
      permanent but could not be logged, and those the store would not take. */
  lemma {:induction false} CountsMeaning(entries: seq<Entry>, c: Clock)
    returns (promoted: nat, permanent: nat, fell: nat, repurposed: nat, gone: nat)
    ensures CountsAre(CountAll(entries, c), promoted, permanent, fell, repurposed, gone)
    ensures promoted == Tally(entries, c, Promoted) && permanent == Tally(entries, c, Permanent)
    ensures fell == Tally(entries, c, Fell) && repurposed == Tally(entries, c, Repurposed)
    ensures gone == Tally(entries, c, Purged) + Tally(entries, c, Orphaned) + Tally(entries, c, Lost)
  {
    if |entries| == 0 {
      return 0, 0, 0, 0, 0;
    }
    var before, e := entries[..|entries| - 1], entries[|entries| - 1];
    var v := Judge(e, c);
    promoted, permanent, fell, repurposed, gone := CountsMeaning(before, c);
    CountedOne(CountAll(before, c), e, c, v, promoted, permanent, fell, repurposed, gone);
    promoted, permanent := promoted + One(v, Promoted), permanent + One(v, Permanent);
    fell, repurposed := fell + One(v, Fell), repurposed + One(v, Repurposed);
    gone := gone + One(v, Purged) + One(v, Orphaned) + One(v, Lost);
  }

  /** The counts of a sweep. */
  datatype Tallied = ToT2 | ToT3 | ToLongTerm | ToFallout | BackToT1 | Gone

  /** What a sweep has to count under each of them, in numbers. */
  ghost predicate Belongs(e: Entry, c: Clock, k: Tallied) {
    match k
    case ToT2 => e.tier == T1 && e.item.score >= 3.0
    case ToT3 => e.tier == T2 && e.item.score >= 3.5
    case ToLongTerm => e.tier == T3 && e.item.score >= 5.0 && c.answer(e.id) == Stored
    case ToFallout => FallsShort(e)
    case BackToT1 => e.tier == Fallout && Over(e.item, c.now) && e.item.score >= Missed(e.item)
    case Gone =>
      || (e.tier == Fallout && Over(e.item, c.now) && e.item.score < Missed(e.item))
      || (e.tier == T3 && e.item.score >= 5.0 && c.answer(e.id) != Stored)
  }

  ghost function Number(entries: seq<Entry>, c: Clock, k: Tallied): nat {
    if |entries| == 0 then 0
    else Number(entries[..|entries| - 1], c, k) + (if Belongs(entries[|entries| - 1], c, k) then 1 else 0)
  }

  ghost function Under(n: Counts, k: Tallied): nat {
    match k
    case ToT2 => n.t1ToT2
    case ToT3 => n.t2ToT3
    case ToLongTerm => n.toLongTerm
    case ToFallout => n.fallout
    case BackToT1 => n.repurposed
    case Gone => n.purged
  }

  lemma CountedUnder(n: Counts, e: Entry, c: Clock, k: Tallied)
    ensures Under(Counted(n, e, c), k) == Under(n, k) + (if Belongs(e, c, k) then 1 else 0)
  {
  }

  /** Every count of a sweep is the number of entries that belong under it. */
  lemma {:induction false} CountsInNumbers(entries: seq<Entry>, c: Clock, k: Tallied)
    ensures Under(CountAll(entries, c), k) == Number(entries, c, k)
  {
    if |entries| > 0 {
      var before, e := entries[..|entries| - 1], entries[|entries| - 1];
      CountsInNumbers(before, c, k);
      CountedUnder(CountAll(before, c), e, c, k);
    }
  }

  ghost function Entries(s: Store): set<Id> {
    s.t1.Keys + s.t2.Keys + s.t3.Keys + s.fallout.Keys
  }

  lemma {:induction false} IdsSize(s: Store, entries: seq<Entry>)
    requires Listed(s, entries)
    ensures |Ids(entries)| == |entries|
  {
    if |entries| > 0 {
      ListedBefore(s, entries);
      IdsSize(s, entries[..|entries| - 1]);
    }
  }

  lemma SnapshotIds(s: Store, entries: seq<Entry>)
    requires Disjoint(s) && Snapshot(s, entries)
    ensures Ids(entries) == Entries(s)
  {
    forall id ensures id in Ids(entries) <==> id in Entries(s) {
      if id in Ids(entries) {
        var i :| 0 <= i < |entries| && entries[i].id == id;
        assert Look(s, entries[i].tier, id).Some?;
      }
      if id in Entries(s) {
        var e := Where(s, id).value;
        assert e.tier != LongTerm && Look(s, e.tier, id).Some?;
      }
    }
  }

  lemma Apart(s: Store, a: Tier, b: Tier)
    requires Disjoint(s) && a != b
    ensures In(s, a).Keys !! In(s, b).Keys
  {
    forall id | id in In(s, a) ensures id !in In(s, b) {
      assert Look(s, a, id).Some?;
      assert id in In(s, b) ==> Look(s, b, id).Some?;
    }
  }

  lemma UnionSize(a: set<Id>, b: set<Id>, c: set<Id>, d: set<Id>)
    requires a !! b !! c !! d
    ensures |a + b + c + d| == |a| + |b| + |c| + |d|
  {
    assert |a + b| == |a| + |b|;
    assert |a + b + c| == |a + b| + |c|;
  }

  /** A snapshot has as many entries as the tiers and fallout have items together. */
  lemma SnapshotSize(s: Store, entries: seq<Entry>)
    requires Disjoint(s) && Snapshot(s, entries)
    ensures |entries| == |s.t1| + |s.t2| + |s.t3| + |s.fallout|
  {
    IdsSize(s, entries);
    SnapshotIds(s, entries);
    Apart(s, T1, T2);
    Apart(s, T1, T3);
    Apart(s, T2, T3);
    Apart(s, T1, Fallout);
    Apart(s, T2, Fallout);
    Apart(s, T3, Fallout);
    UnionSize(s.t1.Keys, s.t2.Keys, s.t3.Keys, s.fallout.Keys);
  }
}
