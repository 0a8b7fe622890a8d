/** The memory object: it scans its tiers once and then moves items in place. */
module MemoryKeeping {
  import opened Options
  import opened Sweeping

  lemma {:induction false} ProcessNext(s: Store, done: seq<Entry>, e: Entry, c: Clock)
    ensures Process(s, done + [e], c) == Step(Process(s, done, c), e, c)
    ensures CountAll(done + [e], c) == Counted(CountAll(done, c), e, c)
  {
    assert (done + [e])[..|done|] == done;
  }

  predicate IsTier(tier: Tier) {
    tier == T1 || tier == T2 || tier == T3
  }

  lemma OneMoreWorked(done: seq<Entry>, items: seq<Entry>, i: nat)
    requires i < |items|
    ensures (done + items[..i]) + [items[i]] == done + items[..i + 1]
  {
  }

  /** The scan lists a tier's items once each. */
  ghost predicate Scanned(s: Store, tier: Tier, items: seq<Entry>) {
    && Listed(s, items)
    && (forall i :: 0 <= i < |items| ==> items[i].tier == tier)
    && (forall id: Id :: Look(s, tier, id).Some? ==> id in Ids(items))
  }

  lemma ListedTogether(s: Store, a: seq<Entry>, b: seq<Entry>, tier: Tier)
    requires Disjoint(s) && Listed(s, a) && Scanned(s, tier, b)
    requires forall i :: 0 <= i < |a| ==> a[i].tier != tier
    ensures Listed(s, a + b)
    ensures forall id: Id :: id in Ids(a) || id in Ids(b) ==> id in Ids(a + b)
  {
    forall i, j | 0 <= i < j < |a + b| ensures (a + b)[i].id != (a + b)[j].id {
      if i < |a| <= j {
        assert Look(s, a[i].tier, a[i].id).Some? && Look(s, b[j - |a|].tier, b[j - |a|].id).Some?;
      }
    }
    forall id: Id | id in Ids(a) || id in Ids(b) ensures id in Ids(a + b) {
      if id in Ids(a) {
        var i :| 0 <= i < |a| && a[i].id == id;
        assert (a + b)[i].id == id;
      } else {
        var i :| 0 <= i < |b| && b[i].id == id;
        assert (a + b)[|a| + i].id == id;
      }
    }
  }

  /** The items list a map once each. */
  ghost predicate Lists(items: seq<Entry>, m: map<Id, Item>, tier: Tier) {
    && (forall i :: 0 <= i < |items| ==>
          items[i].tier == tier && items[i].id in m && items[i].item == m[items[i].id])
    && (forall i, j :: 0 <= i < j < |items| ==> items[i].id != items[j].id)
    && (forall id: Id :: id in m ==> id in Ids(items))
  }

  lemma ListsIsScan(s: Store, tier: Tier, items: seq<Entry>)
    requires Lists(items, In(s, tier), tier)
    ensures Scanned(s, tier, items)
  {
  }

  /** The items list the part of a map that is outside `keys`. */
  ghost predicate ListsPart(items: seq<Entry>, m: map<Id, Item>, tier: Tier, keys: set<Id>) {
    && (forall i :: 0 <= i < |items| ==>
          items[i].tier == tier && items[i].id in m && items[i].item == m[items[i].id] && items[i].id !in keys)
    && (forall i, j :: 0 <= i < j < |items| ==> items[i].id != items[j].id)
    && (forall id: Id :: id in m ==> id in keys || id in Ids(items))
  }

  lemma OneMoreListed(items: seq<Entry>, m: map<Id, Item>, tier: Tier, keys: set<Id>, id: Id)
    requires ListsPart(items, m, tier, keys) && id in keys && id in m
    ensures ListsPart(items + [Entry(tier, id, m[id])], m, tier, keys - {id})
  {
    IdsAppend(items, Entry(tier, id, m[id]));
  }

  /** The items of a map, in no particular order. */
  method ListItems(m: map<Id, Item>, tier: Tier) returns (items: seq<Entry>)
    ensures Lists(items, m, tier)
  {
    var keys := m.Keys;
    items := [];
    while keys != {}
      invariant keys <= m.Keys && ListsPart(items, m, tier, keys)
      decreases |keys|
    {
      var id :| id in keys;
      OneMoreListed(items, m, tier, keys, id);
      items := items + [Entry(tier, id, m[id])];
      keys := keys - {id};
    }
  }

  /** The four scans together are a snapshot. */
  lemma FourScans(s: Store, a: seq<Entry>, b: seq<Entry>, d: seq<Entry>, f: seq<Entry>)
    requires Disjoint(s)
    requires Scanned(s, T1, a) && Scanned(s, T2, b) && Scanned(s, T3, d) && Scanned(s, Fallout, f)
    ensures Snapshot(s, a + b + d + f)
  {
    ListedTogether(s, a, b, T2);
    ListedTogether(s, a + b, d, T3);
    ListedTogether(s, a + b + d, f, Fallout);
    var all := a + b + d + f;
    forall tier, id: Id | tier != LongTerm && Look(s, tier, id).Some? ensures id in Ids(all) {
      match tier {
        case T1 => assert id in Ids(a);
        case T2 => assert id in Ids(b);
        case T3 => assert id in Ids(d);
        case Fallout => assert id in Ids(f);
      }
    }
  }

  /** The entries worked off are a snapshot, and working them off was a sweep. */
  ghost predicate SweptAll(s: Store, r: Store, entries: seq<Entry>, counts: Counts, c: Clock) {
    && Snapshot(s, entries) && counts == CountAll(entries, c)
    && IsSweep(s, r, c) && Disjoint(r)
    && Sum(counts) + Tally(entries, c, Waiting) == |s.t1| + |s.t2| + |s.t3| + |s.fallout|
  }

  lemma {:induction false} WholeSweep(s: Store, a: seq<Entry>, b: seq<Entry>, d: seq<Entry>, f: seq<Entry>, c: Clock)
    requires Disjoint(s)
    requires Scanned(s, T1, a) && Scanned(s, T2, b) && Scanned(s, T3, d) && Scanned(s, Fallout, f)
    ensures var entries := a + b + d + f; SweptAll(s, Process(s, entries, c), entries, CountAll(entries, c), c)
  {
    var entries := a + b + d + f;
    FourScans(s, a, b, d, f);
    ProcessIsSweep(s, entries, c);
    SweepKeepsDisjoint(s, Process(s, entries, c), c);
    EveryEntryCounts(entries, c);
    SnapshotSize(s, entries);
  }

  class MemoryModule {
    var t1: map<Id, Item>
    var t2: map<Id, Item>
    var t3: map<Id, Item>
    var fallout: map<Id, Item>
    var longTerm: map<Id, Item>

    ghost function View(): Store
      reads this
    {
      Store(t1, t2, t3, fallout, longTerm)
    }

    constructor ()
      ensures View() == Store(map[], map[], map[], map[], map[])
    {
      t1, t2, t3, fallout, longTerm := map[], map[], map[], map[], map[];
    }

    method StoreTier(tier: Tier, id: Id, item: Item)
      modifies this
      ensures View() == With(old(View()), tier, In(old(View()), tier)[id := item])
    {
      match tier {
        case T1 => t1 := t1[id := item];
        case T2 => t2 := t2[id := item];
        case T3 => t3 := t3[id := item];
        case Fallout => fallout := fallout[id := item];
        case LongTerm => longTerm := longTerm[id := item];
      }
    }

    method DeleteTier(tier: Tier, id: Id)
      modifies this
      ensures View() == With(old(View()), tier, In(old(View()), tier) - {id})
    {
      match tier {
        case T1 => t1 := t1 - {id};
        case T2 => t2 := t2 - {id};
        case T3 => t3 := t3 - {id};
        case Fallout => fallout := fallout - {id};
        case LongTerm => longTerm := longTerm - {id};
      }
    }

    /** The items of a tier, in no particular order. */
    method ScanTier(tier: Tier) returns (items: seq<Entry>)
      ensures Scanned(View(), tier, items)
    {
      var m := match tier { case T1 => t1 case T2 => t2 case T3 => t3 case Fallout => fallout case LongTerm => longTerm };
      items := ListItems(m, tier);
      ListsIsScan(View(), tier, items);
    }

    /** Promote, make permanent or let fall, one listed item of a tier after the other. */
    method SweepTier(tier: Tier, items: seq<Entry>, c: Clock, before: Counts, ghost s: Store, ghost done: seq<Entry>)
      returns (counts: Counts)
      requires IsTier(tier) && (forall i :: 0 <= i < |items| ==> items[i].tier == tier)
      requires View() == Process(s, done, c) && before == CountAll(done, c)
      modifies this
      ensures View() == Process(s, done + items, c) && counts == CountAll(done + items, c)
    {
      counts := before;
      var i := 0;
      ghost var worked := done;
      while i < |items|
        invariant 0 <= i <= |items| && worked == done + items[..i]
        invariant View() == Process(s, worked, c) && counts == CountAll(worked, c)
      {
        ProcessNext(s, worked, items[i], c);
        counts := SweepItem(items[i], c, counts);
        OneMoreWorked(done, items, i);
        worked := worked + [items[i]];
        i := i + 1;
      }
      assert items[..i] == items;
    }

    method SweepItem(e: Entry, c: Clock, before: Counts) returns (counts: Counts)
      requires IsTier(e.tier)
      modifies this
      ensures View() == Step(old(View()), e, c) && counts == Counted(before, e, c)
    {
      counts := before;
      if e.item.score >= GateOf(e.tier) {
        if e.tier == T3 {
          var answer := c.answer(e.id);
          if answer != StoreFailed {
            StoreTier(LongTerm, e.id, e.item);
          }
          DeleteTier(T3, e.id);
          if answer == Stored {
            counts := counts.(toLongTerm := counts.toLongTerm + 1);
          } else {
            counts := counts.(purged := counts.purged + 1);
          }
        } else {
          StoreTier(NextTier(e.tier), e.id, e.item);
          DeleteTier(e.tier, e.id);
          if e.tier == T1 {
            counts := counts.(t1ToT2 := counts.t1ToT2 + 1);
          } else {
            counts := counts.(t2ToT3 := counts.t2ToT3 + 1);
          }
        }
      } else {
        StoreTier(Fallout, e.id, e.item.(failedGate := Some(GateOf(e.tier)), entered := Some(c.stamp)));
        DeleteTier(e.tier, e.id);
        counts := counts.(fallout := counts.fallout + 1);
      }
    }

    method SweepFallout(items: seq<Entry>, c: Clock, before: Counts, ghost s: Store, ghost done: seq<Entry>)
      returns (counts: Counts)
      requires forall i :: 0 <= i < |items| ==> items[i].tier == Fallout
      requires View() == Process(s, done, c) && before == CountAll(done, c)
      modifies this
      ensures View() == Process(s, done + items, c) && counts == CountAll(done + items, c)
    {
      counts := before;
      var i := 0;
      ghost var worked := done;
      while i < |items|
        invariant 0 <= i <= |items| && worked == done + items[..i]
        invariant View() == Process(s, worked, c) && counts == CountAll(worked, c)
      {
        ProcessNext(s, worked, items[i], c);
        counts := SweepFallen(items[i], c, counts);
        OneMoreWorked(done, items, i);
        worked := worked + [items[i]];
        i := i + 1;
      }
      assert items[..i] == items;
    }

    method SweepFallen(e: Entry, c: Clock, before: Counts) returns (counts: Counts)
      requires e.tier == Fallout
      modifies this
      ensures View() == Step(old(View()), e, c) && counts == Counted(before, e, c)
    {
      counts := before;
      var gate := if e.item.failedGate.Some? then e.item.failedGate.value else GateOf(T1);
      if e.item.entered.Some? && c.now - e.item.entered.value < GRACE_SECONDS {
        return;
      }
      if e.item.score >= gate {
        StoreTier(T1, e.id, e.item);
        DeleteTier(Fallout, e.id);
        counts := counts.(repurposed := counts.repurposed + 1);
      } else {
        DeleteTier(Fallout, e.id);
        counts := counts.(purged := counts.purged + 1);
      }
    }

    /** One sweep: four scans first, then every listed item. Every item goes where its own old place sends
        it, and the counts with the items still in grace add up to the size of the snapshot. */
    method RunSweep(c: Clock) returns (counts: Counts, ghost entries: seq<Entry>)
      requires Disjoint(View())
      modifies this
      ensures SweptAll(old(View()), View(), entries, counts, c)
    {
      ghost var s := View();
      var first := ScanTier(T1);
      var second := ScanTier(T2);
      var third := ScanTier(T3);
      var fallen := ScanTier(Fallout);
      WholeSweep(s, first, second, third, fallen, c);
      assert [] + first == first;
      counts := SweepTier(T1, first, c, NO_COUNTS, s, []);
      counts := SweepTier(T2, second, c, counts, s, first);
      counts := SweepTier(T3, third, c, counts, s, first + second);
      counts := SweepFallout(fallen, c, counts, s, first + second + third);
      entries := first + second + third + fallen;
    }
  }
}
