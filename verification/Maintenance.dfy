/** Long-term memory: the monthly pass, the decay slope and the yearly review. */
module Maintenance {
  import opened Options

  type Id = nat

  datatype Status = Active | Legacy | Subconscious

  /** A timestamp as stored: missing (or empty), present but unreadable, or a second. */
  datatype Stamp = Missing | Garbled | At(second: int)

  datatype Row = Row(
    status: Status, score: real, floor: Option<real>, mustKeep: bool, isProtected: bool,
    references: int, lastReferenced: Stamp, created: Stamp, decayStarted: Stamp)

  const DAY: int := 24 * 3600
  const SUBCONSCIOUS_LINE: real := 4.0
  const LEGACY_ENTER: real := 9.5
  const LEGACY_FLOOR: real := 8.0
  const GONE_LINE: real := 0.5
  const SLOPE_GONE_DAYS: int := 730

  /** What is known of the decay factor over a number of idle seconds: one at the start, positive, and
      never rising. */
  ghost predicate IsDecay(f: int -> real) {
    && f(0) == 1.0
    && (forall t :: f(t) > 0.0)
    && (forall t, u :: t <= u ==> f(u) <= f(t))
  }

  function MaxOf(a: real, b: real): real {
    if a >= b then a else b
  }

  function MinOf(a: real, b: real): real {
    if a <= b then a else b
  }

  function Clamped(delta: real): real {
    MaxOf(-3.0, MinOf(3.0, delta))
  }

  /** The dial: a bounded step that never goes below the floor. */
  function Adjusted(score: real, delta: real, floor: real): real {
    MaxOf(floor, score + Clamped(delta))
  }

  function Delta(row: Row, now: int): real {
    var reward :=
      if row.references >= 25 then 2.0 else if row.references >= 10 then 1.5
      else if row.references >= 3 then 1.0 else 0.0;
    Clamped(
      if row.lastReferenced != Missing then
        if row.lastReferenced.At? && 0 <= now - row.lastReferenced.second <= 30 * DAY then reward + 0.5 else reward
      else if row.created.At? then
        if now - row.created.second >= 180 * DAY then MinOf(reward, -2.0)
        else if now - row.created.second >= 90 * DAY then MinOf(reward, -1.0)
        else reward
      else reward)
  }

  function FloorOf(row: Row): real {
    if row.floor.Some? then row.floor.value else 0.0
  }

  /** The monthly decision on an active row. */
  function Monthly(row: Row, now: int, stamp: int): Row {
    var score := Adjusted(row.score, Delta(row, now), if row.mustKeep then row.score else FloorOf(row));
    if score >= LEGACY_ENTER then row.(score := score, status := Legacy, decayStarted := Missing)
    else if score < SUBCONSCIOUS_LINE then row.(score := score, status := Subconscious, decayStarted := At(stamp))
    else row.(score := score, status := Active, decayStarted := Missing)
  }

  function Later(a: Stamp, b: Stamp): Stamp {
    if b.At? && (!a.At? || b.second > a.second) then b else a
  }

  /** The latest readable one of decay start, last reference and creation. */
  function Anchor(row: Row): Stamp {
    Later(Later(if row.decayStarted.At? then row.decayStarted else Missing, row.lastReferenced), row.created)
  }

  /** What is left of a score after some idle seconds. */
  function Remaining(score: real, f: int -> real, idle: int): real {
    score * f(idle)
  }

  /** The slope on a subconscious row; nothing when the row is gone. */
  function Slope(row: Row, now: int, f: int -> real): Option<Row> {
    var anchor := Anchor(row);
    if !anchor.At? then Some(row)
    else if now - anchor.second >= SLOPE_GONE_DAYS * DAY then None
    else
      var effective := Remaining(row.score, f, now - anchor.second);
      if effective < GONE_LINE then None else Some(row.(score := MaxOf(effective, FloorOf(row))))
  }

  /** The yearly decision on a legacy row. */
  function Review(row: Row, now: int, stamp: int): Row {
    var delta := Delta(row, now);
    if row.isProtected then
      row.(score := Adjusted(row.score, delta, if row.mustKeep then row.score else FloorOf(row)),
           status := Legacy, decayStarted := Missing)
    else
      var score := Adjusted(row.score, delta, 0.0);
      if score < LEGACY_FLOOR then row.(score := score, status := Subconscious, decayStarted := At(stamp))
      else row.(score := score, status := Legacy, decayStarted := Missing)
  }

  /** The circumstances of a pass: the time decisions use, the time they stamp, and the decay factor. */
  datatype Pass = Pass(now: int, stamp: int, f: int -> real)

  /** What a maintenance pass makes of one row: the monthly decision first, then the slope, which also
      takes the rows that have only just become subconscious. */
  function Maintained(row: Row, p: Pass): Option<Row> {
    var next := if row.status == Active then Monthly(row, p.now, p.stamp) else row;
    if next.status == Subconscious then Slope(next, p.now, p.f) else Some(next)
  }

  function Reviewed(row: Row, p: Pass): Row {
    if row.status == Legacy then Review(row, p.now, p.stamp) else row
  }

  // ---------------------------------------------------------------------------------------------
  // One row
  // ---------------------------------------------------------------------------------------------

  function Rank(o: Option<Row>): nat {
    match o
    case None => 0
    case Some(row) => match row.status { case Active => 3 case Legacy => 2 case Subconscious => 1 }
  }

  /** The dial is never turned to its limits: use earns at most 2.5 and neglect costs at most 2. A row loses
      exactly when it was never referred to and was made at least 90 days ago, and one referred to less
      than three times, never at a known time, does not gain. */
  lemma DeltaMeaning(row: Row, now: int)
    ensures -2.0 <= Delta(row, now) <= 2.5
    ensures Delta(row, now) < 0.0
       <==> row.lastReferenced == Missing && row.created.At? && now - row.created.second >= 90 * DAY
    ensures row.lastReferenced == Missing && row.references < 3 ==> Delta(row, now) <= 0.0
  {
  }

  /** A row moved to another status is one step or more further down; it never comes up again. */
  lemma MaintenanceDescends(row: Row, p: Pass)
    ensures Maintained(row, p).None? || Maintained(row, p).value.status == row.status
         || Rank(Maintained(row, p)) < Rank(Some(row))
  {
  }

  lemma ReviewDescends(row: Row, p: Pass)
    ensures Reviewed(row, p).status == row.status || Rank(Some(Reviewed(row, p))) < Rank(Some(row))
  {
  }

  /** A row that is active after a pass was active before, and its score is on the active band. */
  lemma ActiveBand(row: Row, p: Pass)
    requires Maintained(row, p).Some? && Maintained(row, p).value.status == Active
    ensures row.status == Active && SUBCONSCIOUS_LINE <= Maintained(row, p).value.score < LEGACY_ENTER
  {
  }

  lemma ScaledDown(score: real, factor: real, product: real)
    requires product == score * factor && 0.0 < factor <= 1.0
    ensures product <= score || product <= 0.0
  {
    if score >= 0.0 {
      assert score * (1.0 - factor) >= 0.0;
    } else {
      assert -score * factor >= 0.0;
    }
  }

  lemma ScaledLess(score: real, f: real, g: real, p: real, q: real)
    requires p == score * f && q == score * g && g <= f && score >= 0.0
    ensures q <= p
  {
    assert score * (f - g) >= 0.0;
  }

  /** The slope never lifts a row above its score and floor, and what it leaves is at least the gone line. */
  lemma SlopeGoesDown(row: Row, now: int, f: int -> real)
    requires IsDecay(f) && Slope(row, now, f).Some?
    requires Anchor(row).At? && now >= Anchor(row).second
    ensures GONE_LINE <= Slope(row, now, f).value.score <= MaxOf(row.score, FloorOf(row))
  {
    var idle := now - Anchor(row).second;
    assert f(idle) <= f(0);
    ScaledDown(row.score, f(idle), Remaining(row.score, f, idle));
  }

  /** The longer a row has been idle, the less is left of it; once gone it stays gone. */
  lemma SlopeIsMonotone(row: Row, now: int, later: int, f: int -> real)
    requires IsDecay(f) && row.score >= 0.0 && now <= later && Slope(row, later, f).Some?
    ensures Slope(row, now, f).Some? && Slope(row, later, f).value.score <= Slope(row, now, f).value.score
  {
    if Anchor(row).At? {
      var idle, idle' := now - Anchor(row).second, later - Anchor(row).second;
      ScaledLess(row.score, f(idle), f(idle'), Remaining(row.score, f, idle), Remaining(row.score, f, idle'));
    }
  }

  /** A row the pass would look at on the slope: subconscious already, or falling there now. */
  ghost predicate OnSlope(row: Row, p: Pass) {
    row.status == Subconscious || (row.status == Active && Monthly(row, p.now, p.stamp).score < SUBCONSCIOUS_LINE)
  }

  /** Exactly when a pass forgets a subconscious row: two idle years, or less than half a point left. Being
      marked must-keep, protected or floored plays no part. */
  lemma ForgottenIff(row: Row, p: Pass)
    requires row.status == Subconscious
    ensures Maintained(row, p).None?
       <==> Anchor(row).At?
            && (p.now - Anchor(row).second >= 730 * DAY || Remaining(row.score, p.f, p.now - Anchor(row).second) < 0.5)
  {
  }

  /** Only rows on the slope are ever forgotten: a must-keep row that is active at 4.0 or more, and every
      legacy row, is still there after the pass. */
  lemma OnlySlopeForgets(row: Row, p: Pass)
    ensures Maintained(row, p).None? ==> OnSlope(row, p)
    ensures row.status == Active && row.mustKeep && row.score >= SUBCONSCIOUS_LINE ==> !OnSlope(row, p)
    ensures row.status == Legacy ==> Maintained(row, p) == Some(row)
  {
  }

  // ---------------------------------------------------------------------------------------------
  // Whole runs
  // ---------------------------------------------------------------------------------------------

  /** Long-term memory over time: rows arrive, are referred to from outside, maintained and reviewed. */
  datatype Event =
    | Arrive(id: Id, row: Row)
    | Refer(id: Id, references: int, at: int)
    | Maintain(p: Pass)
    | Judge(p: Pass)

  function MaintainAll(rows: map<Id, Row>, p: Pass): map<Id, Row> {
    map id | id in rows && Maintained(rows[id], p).Some? :: Maintained(rows[id], p).value
  }

  function ReviewAll(rows: map<Id, Row>, p: Pass): map<Id, Row> {
    map id | id in rows :: Reviewed(rows[id], p)
  }

  /** A row whose identity is already in use does not arrive. */
  function Happen(rows: map<Id, Row>, e: Event): map<Id, Row> {
    match e
    case Arrive(id, row) => if id in rows then rows else rows[id := row]
    case Refer(id, references, at) =>
      if id in rows then rows[id := rows[id].(references := references, lastReferenced := At(at))] else rows
    case Maintain(p) => MaintainAll(rows, p)
    case Judge(p) => ReviewAll(rows, p)
  }

  function Run(rows: map<Id, Row>, events: seq<Event>): map<Id, Row> {
    if |events| == 0 then rows else Happen(Run(rows, events[..|events| - 1]), events[|events| - 1])
  }

  function Find(rows: map<Id, Row>, id: Id): Option<Row> {
    if id in rows then Some(rows[id]) else None
  }

  ghost predicate SameStatus(a: Option<Row>, b: Option<Row>) {
    a.Some? == b.Some? && (a.Some? ==> a.value.status == b.value.status)
  }

  /** How often the status of a row changed during a run; being forgotten counts as a change. */
  ghost function Changes(rows: map<Id, Row>, events: seq<Event>, id: Id): nat {
    if |events| == 0 then 0
    else
      Changes(rows, events[..|events| - 1], id)
      + (if SameStatus(Find(Run(rows, events[..|events| - 1]), id), Find(Run(rows, events), id)) then 0 else 1)
  }

  /** The identity of a row is not given to another one. */
  ghost predicate NotReused(events: seq<Event>, id: Id) {
    forall i :: 0 <= i < |events| ==> !(events[i].Arrive? && events[i].id == id)
  }

  lemma {:induction false} EventDescends(rows: map<Id, Row>, e: Event, id: Id)
    requires !(e.Arrive? && e.id == id)
    ensures SameStatus(Find(rows, id), Find(Happen(rows, e), id))
         || Rank(Find(Happen(rows, e), id)) < Rank(Find(rows, id))
  {
    if id in rows {
      match e {
        case Maintain(p) => MaintenanceDescends(rows[id], p);
        case Judge(p) => ReviewDescends(rows[id], p);
        case _ =>
      }
    }
  }

  /** Every status change descends from active over legacy and subconscious to gone, so over any run a
      row's status changes at most as often as there are ranks left below it: three times at most. */
  lemma {:induction false} FewChanges(rows: map<Id, Row>, events: seq<Event>, id: Id)
    requires NotReused(events, id)
    ensures Changes(rows, events, id) + Rank(Find(Run(rows, events), id)) <= Rank(Find(rows, id)) <= 3
  {
    if |events| > 0 {
      var before := events[..|events| - 1];
      assert forall i :: 0 <= i < |before| ==> before[i] == events[i];
      FewChanges(rows, before, id);
      EventDescends(Run(rows, before), events[|events| - 1], id);
    }
  }

  /** A protected legacy row stays a protected legacy row in every run. */
  lemma {:induction false} ProtectedLegacyStays(rows: map<Id, Row>, events: seq<Event>, id: Id)
    requires id in rows && rows[id].status == Legacy && rows[id].isProtected
    ensures id in Run(rows, events)
    ensures Run(rows, events)[id].status == Legacy && Run(rows, events)[id].isProtected
  {
    if |events| > 0 {
      var before, e := events[..|events| - 1], events[|events| - 1];
      ProtectedLegacyStays(rows, before, id);
      var row := Run(rows, before)[id];
      match e {
        case Maintain(p) => assert Maintained(row, p) == Some(row);
        case Judge(p) => assert Reviewed(row, p).status == Legacy;
        case _ =>
      }
    }
  }

  /** After any run that ends in a maintenance pass, every active score lies in [4.0, 9.5). */
  lemma {:induction false} ActiveScoresAfterPass(rows: map<Id, Row>, events: seq<Event>, p: Pass, id: Id)
    requires id in Run(rows, events + [Maintain(p)]) && Run(rows, events + [Maintain(p)])[id].status == Active
    ensures 4.0 <= Run(rows, events + [Maintain(p)])[id].score < 9.5
  {
    assert (events + [Maintain(p)])[..|events|] == events;
    ActiveBand(Run(rows, events)[id], p);
  }

  // ---------------------------------------------------------------------------------------------
  // The outcome of a pass in numbers
  // ---------------------------------------------------------------------------------------------

  /** s is the latest second among the readable stamps of a row. */
  ghost predicate LatestStamp(row: Row, s: int) {
    && At(s) in {row.decayStarted, row.lastReferenced, row.created}
    && forall u :: At(u) in {row.decayStarted, row.lastReferenced, row.created} ==> u <= s
  }

  /** What a row has earned since it was last looked at: a loss of one or two points when it was never referred to
      and is 90 or 180 days old, otherwise one, one and a half or two points for 3, 10 or 25 references, and half
      a point more when the last of them is at most 30 days ago. */
  ghost predicate Earned(row: Row, now: int, d: real) {
    if row.lastReferenced == Missing && row.created.At? && now - row.created.second >= 7776000
    then d == if now - row.created.second >= 15552000 then -2.0 else -1.0
    else
      var recent := row.lastReferenced.At? && 0 <= now - row.lastReferenced.second <= 2592000;
      var use := if recent then d - 0.5 else d;
      && use in {0.0, 1.0, 1.5, 2.0}
      && (use >= 1.0 <==> row.references >= 3) && (use >= 1.5 <==> row.references >= 10)
      && (use >= 2.0 <==> row.references >= 25)
  }

  lemma EarnedIff(row: Row, now: int, d: real)
    ensures Earned(row, now, d) <==> d == Delta(row, now)
  {
    assert DAY == 86400;
  }

  /** The score v a row has when its dial has been turned: by what it earned, but to no less than its floor, or
      its own score when it is must-keep and that is honoured. */
  ghost predicate Dialed(row: Row, now: int, honoured: bool, floored: bool, v: real) {
    exists d :: Earned(row, now, d) && Lifted(row.score + d,
      if honoured && row.mustKeep then row.score else if floored && row.floor.Some? then row.floor.value else 0.0, v)
  }

  /** v is the larger of a and b. */
  ghost predicate Lifted(a: real, b: real, v: real) {
    a <= v && b <= v && (v == a || v == b)
  }

  lemma DialedIs(row: Row, now: int, honoured: bool, floored: bool, v: real)
    requires Dialed(row, now, honoured, floored, v)
    ensures v == Adjusted(row.score, Delta(row, now),
      if honoured && row.mustKeep then row.score else if floored then FloorOf(row) else 0.0)
  {
    var d :| Earned(row, now, d) && Lifted(row.score + d,
      if honoured && row.mustKeep then row.score else if floored && row.floor.Some? then row.floor.value else 0.0, v);
    EarnedIff(row, now, d);
    DeltaMeaning(row, now);
  }

  /** Such a score always exists, so what is said of it below is said of every row. */
  lemma DialedExists(row: Row, now: int, honoured: bool, floored: bool) returns (v: real)
    ensures Dialed(row, now, honoured, floored, v)
  {
    EarnedIff(row, now, Delta(row, now));
    var floor := if honoured && row.mustKeep then row.score else if floored && row.floor.Some? then row.floor.value else 0.0;
    v := MaxOf(row.score + Delta(row, now), floor);
    assert Lifted(row.score + Delta(row, now), floor, v);
  }

  /** A maintenance pass over an active row that does not fall: it becomes legacy at 9.5, and stays active from 4.0
      on; either way its decay stamp goes. */
  lemma {:induction false} ActiveOutcome(rows: map<Id, Row>, events: seq<Event>, p: Pass, id: Id, v: real)
    requires id in Run(rows, events) && Run(rows, events)[id].status == Active
    requires Dialed(Run(rows, events)[id], p.now, true, true, v) && v >= 4.0
    ensures id in Run(rows, events + [Maintain(p)])
    ensures Run(rows, events + [Maintain(p)])[id]
         == Run(rows, events)[id].(score := v, status := if v >= 9.5 then Legacy else Active, decayStarted := Missing)
  {
    assert (events + [Maintain(p)])[..|events|] == events;
    DialedIs(Run(rows, events)[id], p.now, true, true, v);
  }

  /** A maintenance pass finds a row on the slope, with this score and latest stamp: it is subconscious, or it
      is active and falls below 4.0 in this very pass, which stamps it. */
  ghost predicate Slipping(row: Row, p: Pass, score: real, s: int) {
    if row.status == Subconscious then score == row.score && LatestStamp(row, s)
    else
      && row.status == Active && Dialed(row, p.now, true, true, score) && score < 4.0
      && LatestStamp(row.(decayStarted := At(p.stamp)), s)
  }

  /** The row as the slope finds it. */
  function AtSlope(row: Row, p: Pass, score: real): Row {
    row.(score := score, status := Subconscious,
         decayStarted := if row.status == Active then At(p.stamp) else row.decayStarted)
  }

  lemma SlippingIs(row: Row, p: Pass, score: real, s: int)
    requires Slipping(row, p, score, s)
    ensures Maintained(row, p) == Slope(AtSlope(row, p, score), p.now, p.f) && Anchor(AtSlope(row, p, score)) == At(s)
  {
    if row.status == Active {
      DialedIs(row, p.now, true, true, score);
    }
  }

  /** What the slope leaves of a row: exactly what it keeps of its score, or its floor when that is more. */
  ghost predicate Leaves(row: Row, p: Pass, left: real, after: Row) {
    && after == AtSlope(row, p, after.score)
    && Lifted(left, if row.floor.Some? then row.floor.value else 0.0, after.score)
  }

  lemma SlopeLeaves(row: Row, p: Pass, s: int, left: real, next: Row)
    requires next == AtSlope(row, p, next.score) && Anchor(next) == At(s)
    requires left == Remaining(next.score, p.f, p.now - s)
    ensures Slope(next, p.now, p.f).Some? <==> p.now - s < 63072000 && left >= 0.5
    ensures Slope(next, p.now, p.f).Some? ==> Leaves(row, p, left, Slope(next, p.now, p.f).value)
  {
    assert 730 * DAY == 63072000;
  }

  lemma RemainingIs(score: real, f: int -> real, idle: int, factor: real, left: real)
    requires factor == f(idle) && left == score * factor
    ensures left == Remaining(score, f, idle)
  {
  }

  lemma {:induction false} PassOver(rows: map<Id, Row>, events: seq<Event>, p: Pass, id: Id)
    requires id in Run(rows, events)
    ensures var after, o := Run(rows, events + [Maintain(p)]), Maintained(Run(rows, events)[id], p);
            (id in after <==> o.Some?) && (id in after ==> after[id] == o.value)
  {
    assert (events + [Maintain(p)])[..|events|] == events;
  }

  /** What a maintenance pass leaves of a row on the slope, `idle` seconds after the latest of its readable stamps:
      the row stays exactly when it has been idle for less than two years and at least half a point is left of its
      score, times the decay factor; and then it keeps exactly that, or its floor when that is more. */
  lemma {:induction false} SlopeOutcome(
    rows: map<Id, Row>, events: seq<Event>, p: Pass, id: Id, score: real, s: int, factor: real, left: real)
    requires id in Run(rows, events) && Slipping(Run(rows, events)[id], p, score, s)
    requires factor == p.f(p.now - s) && left == score * factor
    ensures id in Run(rows, events + [Maintain(p)]) <==> p.now - s < 63072000 && left >= 0.5
    ensures id in Run(rows, events + [Maintain(p)]) ==>
              Leaves(Run(rows, events)[id], p, left, Run(rows, events + [Maintain(p)])[id])
  {
    var row := Run(rows, events)[id];
    PassOver(rows, events, p, id);
    SlippingIs(row, p, score, s);
    RemainingIs(score, p.f, p.now - s, factor, left);
    SlopeLeaves(row, p, s, left, AtSlope(row, p, score));
  }

  lemma SignOfProduct(a: real, b: real, product: real)
    requires product == a * b && b > 0.0
    ensures product <= 0.0 || a > 0.0
  {
    if a <= 0.0 {
      assert -a * b >= 0.0;
    }
  }

  lemma AtMostHalf(score: real, factor: real, left: real)
    requires left == score * factor && 0.0 < factor <= 0.5 && left >= 0.5
    ensures left <= score / 2.0
  {
    SignOfProduct(score, factor, left);
    assert score * (0.5 - factor) >= 0.0;
  }

  /** A row without a floor that has been idle until the decay factor is at most one half keeps at most half its
      score, or goes. */
  lemma {:induction false} HalfIsLost(
    rows: map<Id, Row>, events: seq<Event>, p: Pass, id: Id, score: real, s: int, factor: real)
    requires id in Run(rows, events) && Slipping(Run(rows, events)[id], p, score, s)
    requires Run(rows, events)[id].floor.None? && factor == p.f(p.now - s) && 0.0 < factor <= 0.5
    ensures id in Run(rows, events + [Maintain(p)]) ==> Run(rows, events + [Maintain(p)])[id].score <= score / 2.0
  {
    var left := score * factor;
    SlopeOutcome(rows, events, p, id, score, s, factor, left);
    if id in Run(rows, events + [Maintain(p)]) {
      AtMostHalf(score, factor, left);
    }
  }

  /** A subconscious row without a readable stamp is left as it is. */
  lemma {:induction false} TimelessRowStays(rows: map<Id, Row>, events: seq<Event>, p: Pass, id: Id)
    requires id in Run(rows, events) && Run(rows, events)[id].status == Subconscious
    requires var row := Run(rows, events)[id];
             !row.decayStarted.At? && !row.lastReferenced.At? && !row.created.At?
    ensures id in Run(rows, events + [Maintain(p)])
         && Run(rows, events + [Maintain(p)])[id] == Run(rows, events)[id]
  {
    assert (events + [Maintain(p)])[..|events|] == events;
  }

  /** A review of a legacy row: must-keep and floor count for the protected alone, who stay; the others stay when
      they come out at 8.0 or more, and otherwise start on the slope. */
  lemma {:induction false} ReviewOutcome(rows: map<Id, Row>, events: seq<Event>, p: Pass, id: Id, v: real)
    requires id in Run(rows, events) && Run(rows, events)[id].status == Legacy
    requires var row := Run(rows, events)[id]; Dialed(row, p.now, row.isProtected, row.isProtected, v)
    ensures id in Run(rows, events + [Judge(p)])
    ensures var row := Run(rows, events)[id];
            var stays := row.isProtected || v >= 8.0;
            Run(rows, events + [Judge(p)])[id]
            == row.(score := v, status := if stays then Legacy else Subconscious,
                    decayStarted := if stays then Missing else At(p.stamp))
  {
    assert (events + [Judge(p)])[..|events|] == events;
    var row := Run(rows, events)[id];
    DialedIs(row, p.now, row.isProtected, row.isProtected, v);
  }

  // ---------------------------------------------------------------------------------------------
  // How much a row can gain
  // ---------------------------------------------------------------------------------------------

  predicate IsPass(e: Event) {
    e.Maintain? || e.Judge?
  }

  /** What an event stamps is not after `now`. */
  predicate Before(e: Event, now: int) {
    match e
    case Arrive(_, _) => true
    case Refer(_, _, at) => at <= now
    case Maintain(p) => p.stamp <= now
    case Judge(p) => p.stamp <= now
  }

  predicate StampBefore(stamp: Stamp, now: int) {
    stamp.At? ==> stamp.second <= now
  }

  /** No stamp of a row is after `now`. */
  predicate InTime(row: Row, now: int) {
    StampBefore(row.decayStarted, now) && StampBefore(row.lastReferenced, now) && StampBefore(row.created, now)
  }

  /** The clock does not run back: at every pass the row's stamps, and those of the events so far, are past. */
  ghost predicate TimeRuns(row: Row, events: seq<Event>) {
    forall j :: 0 <= j < |events| && IsPass(events[j]) ==>
      IsDecay(events[j].p.f) && InTime(row, events[j].p.now)
      && forall i :: 0 <= i <= j ==> Before(events[i], events[j].p.now)
  }

  ghost predicate NobodyRefers(events: seq<Event>, id: Id) {
    forall i :: 0 <= i < |events| ==> !(events[i].Refer? && events[i].id == id)
  }

  /** So much for every pass of a run. */
  ghost function Allowance(events: seq<Event>, each: real): real {
    if |events| == 0 then 0.0
    else Allowance(events[..|events| - 1], each) + (if IsPass(events[|events| - 1]) then each else 0.0)
  }

  /** The same uses, floor and creation. */
  predicate SameUse(a: Row, b: Row) {
    a.references == b.references && a.lastReferenced == b.lastReferenced && a.floor == b.floor && a.created == b.created
  }

  lemma PassKeepsUse(row: Row, p: Pass)
    ensures SameUse(row, Reviewed(row, p)) && (Maintained(row, p).Some? ==> SameUse(row, Maintained(row, p).value))
  {
  }

  lemma PassStamps(row: Row, p: Pass)
    ensures Reviewed(row, p).decayStarted in {row.decayStarted, Missing, At(p.stamp)}
    ensures Maintained(row, p).Some? ==> Maintained(row, p).value.decayStarted in {row.decayStarted, Missing, At(p.stamp)}
  {
  }

  /** Only references from outside touch a row's uses. */
  lemma EventUse(rows: map<Id, Row>, e: Event, id: Id)
    requires id in rows && id in Happen(rows, e)
    ensures FloorOf(Happen(rows, e)[id]) == FloorOf(rows[id])
    ensures !(e.Refer? && e.id == id) ==> SameUse(rows[id], Happen(rows, e)[id])
  {
    if IsPass(e) {
      PassKeepsUse(rows[id], e.p);
    }
  }

  lemma EventStamps(rows: map<Id, Row>, e: Event, id: Id, now: int)
    requires id in rows && id in Happen(rows, e) && InTime(rows[id], now) && Before(e, now)
    ensures InTime(Happen(rows, e)[id], now)
  {
    if IsPass(e) {
      PassKeepsUse(rows[id], e.p);
      PassStamps(rows[id], e.p);
    }
  }

  lemma {:induction false} StampsInTime(rows: map<Id, Row>, events: seq<Event>, id: Id, now: int)
    requires id in rows && id in Run(rows, events) && NotReused(events, id) && InTime(rows[id], now)
    requires forall i :: 0 <= i < |events| ==> Before(events[i], now)
    ensures InTime(Run(rows, events)[id], now)
  {
    if |events| > 0 {
      var before, e := events[..|events| - 1], events[|events| - 1];
      assert forall i :: 0 <= i < |before| ==> before[i] == events[i];
      EventDescends(Run(rows, before), e, id);
      StampsInTime(rows, before, id, now);
      EventStamps(Run(rows, before), e, id, now);
    }
  }

  lemma {:induction false} UseOverRun(rows: map<Id, Row>, events: seq<Event>, id: Id)
    requires id in rows && id in Run(rows, events) && NotReused(events, id)
    ensures FloorOf(Run(rows, events)[id]) == FloorOf(rows[id])
    ensures NobodyRefers(events, id) ==> SameUse(rows[id], Run(rows, events)[id])
  {
    if |events| > 0 {
      var before, e := events[..|events| - 1], events[|events| - 1];
      assert forall i :: 0 <= i < |before| ==> before[i] == events[i];
      EventDescends(Run(rows, before), e, id);
      UseOverRun(rows, before, id);
      EventUse(Run(rows, before), e, id);
    }
  }

  /** Turning the dial up by at most `each` lifts a score by at most that, or to the floor. */
  lemma DialGain(score: real, delta: real, floor: real, each: real, bound: real)
    requires delta <= each && each >= 0.0 && score <= bound && floor <= bound
    ensures Adjusted(score, delta, floor) <= bound + each
  {
  }

  lemma MaintainedGain(row: Row, p: Pass, each: real, bound: real)
    requires Maintained(row, p).Some? && Delta(row, p.now) <= each && each >= 0.0
    requires row.score <= bound && FloorOf(row) <= bound
    requires IsDecay(p.f) && InTime(row, p.now) && p.stamp <= p.now
    ensures Maintained(row, p).value.score <= bound + each
  {
    DialGain(row.score, Delta(row, p.now), if row.mustKeep then row.score else FloorOf(row), each, bound);
    var next := if row.status == Active then Monthly(row, p.now, p.stamp) else row;
    if next.status == Subconscious && Anchor(next).At? {
      SlopeGoesDown(next, p.now, p.f);
    }
  }

  lemma ReviewedGain(row: Row, p: Pass, each: real, bound: real)
    requires Delta(row, p.now) <= each && each >= 0.0 && row.score <= bound && FloorOf(row) <= bound && 0.0 <= bound
    ensures Reviewed(row, p).score <= bound + each
  {
    DialGain(row.score, Delta(row, p.now), if row.mustKeep then row.score else FloorOf(row), each, bound);
    DialGain(row.score, Delta(row, p.now), 0.0, each, bound);
  }

  lemma EventGain(rows: map<Id, Row>, e: Event, id: Id, each: real, bound: real)
    requires id in rows && id in Happen(rows, e) && each >= 0.0
    requires rows[id].score <= bound && FloorOf(rows[id]) <= bound && 0.0 <= bound
    requires IsPass(e) ==> Delta(rows[id], e.p.now) <= each && IsDecay(e.p.f) && InTime(rows[id], e.p.now)
                           && e.p.stamp <= e.p.now
    ensures Happen(rows, e)[id].score <= bound + (if IsPass(e) then each else 0.0)
  {
    match e {
      case Maintain(p) => MaintainedGain(rows[id], p, each, bound);
      case Judge(p) => ReviewedGain(rows[id], p, each, bound);
      case _ =>
    }
  }

  /** What a row can reach without gaining anything: its score, its floor, or zero. */
  function Ceiling(row: Row): real {
    MaxOf(0.0, MaxOf(row.score, FloorOf(row)))
  }

  lemma {:induction false} GainIsAllowed(rows: map<Id, Row>, events: seq<Event>, id: Id, each: real)
    requires id in rows && id in Run(rows, events) && NotReused(events, id) && TimeRuns(rows[id], events)
    requires each >= 2.5
          || (each >= 0.0 && rows[id].references < 3 && rows[id].lastReferenced == Missing && NobodyRefers(events, id))
    ensures Allowance(events, each) >= 0.0
    ensures Run(rows, events)[id].score <= Ceiling(rows[id]) + Allowance(events, each)
  {
    if |events| > 0 {
      var before, e := events[..|events| - 1], events[|events| - 1];
      assert forall i :: 0 <= i < |before| ==> before[i] == events[i];
      EventDescends(Run(rows, before), e, id);
      GainIsAllowed(rows, before, id, each);
      var row := Run(rows, before)[id];
      if IsPass(e) {
        StampsInTime(rows, before, id, e.p.now);
        DeltaMeaning(row, e.p.now);
      }
      UseOverRun(rows, before, id);
      EventGain(Run(rows, before), e, id, each, Ceiling(rows[id]) + Allowance(before, each));
    }
  }

  lemma {:induction false} NoAllowance(events: seq<Event>)
    ensures Allowance(events, 0.0) == 0.0
  {
    if |events| > 0 {
      NoAllowance(events[..|events| - 1]);
    }
  }

  /** A row that is never referred to never gains: over every run in which the clock does not run back, its
      score stays at most what it was, or its floor. */
  lemma UnreferredNeverGains(rows: map<Id, Row>, events: seq<Event>, id: Id)
    requires id in rows && id in Run(rows, events) && NotReused(events, id) && TimeRuns(rows[id], events)
    requires rows[id].references < 3 && rows[id].lastReferenced == Missing && NobodyRefers(events, id)
    ensures Run(rows, events)[id].score <= Ceiling(rows[id])
  {
    GainIsAllowed(rows, events, id, 0.0);
    NoAllowance(events);
  }

  /** However often a row is referred to, it gains at most 2.5 a pass. */
  lemma GainIsBounded(rows: map<Id, Row>, events: seq<Event>, id: Id)
    requires id in rows && id in Run(rows, events) && NotReused(events, id) && TimeRuns(rows[id], events)
    ensures Run(rows, events)[id].score <= Ceiling(rows[id]) + Allowance(events, 2.5)
  {
    GainIsAllowed(rows, events, id, 2.5);
  }

  // ---------------------------------------------------------------------------------------------
  // What becomes of must-keep rows
  // ---------------------------------------------------------------------------------------------

  /** A must-keep row where must-keep works: active at 4.0 or more, or legacy. */
  ghost predicate Kept(o: Option<Row>) {
    && o.Some? && o.value.mustKeep
    && (o.value.status == Legacy || (o.value.status == Active && o.value.score >= 4.0))
  }

  /** The review a must-keep row does not survive: the row is legacy but not protected, and the dial, turned
      without its floor, takes it below 8.0. */
  ghost predicate FailsReview(row: Row, now: int) {
    row.status == Legacy && !row.isProtected && exists d :: Earned(row, now, d) && row.score + d < 8.0
  }

  /** Event i of a run is a review that a row fails. */
  ghost predicate DroppedAt(rows: map<Id, Row>, events: seq<Event>, id: Id, i: nat) {
    && i < |events| && events[i].Judge?
    && var o := Find(Run(rows, events[..i]), id); o.Some? && FailsReview(o.value, events[i].p.now)
  }

  ghost predicate Dropped(rows: map<Id, Row>, events: seq<Event>, id: Id) {
    exists i: nat :: DroppedAt(rows, events, id, i)
  }

  /** Exactly one event ends the keeping of a must-keep row: a review that it fails. */
  lemma {:induction false} EventKeeps(rows: map<Id, Row>, e: Event, id: Id)
    requires Kept(Find(rows, id))
    ensures Kept(Find(Happen(rows, e), id)) <==> !(e.Judge? && FailsReview(rows[id], e.p.now))
    ensures !Kept(Find(Happen(rows, e), id)) ==> Rank(Find(Happen(rows, e), id)) <= 1
  {
    if e.Maintain? {
      OnlySlopeForgets(rows[id], e.p);
    } else if e.Judge? {
      EarnedIff(rows[id], e.p.now, Delta(rows[id], e.p.now));
      forall d ensures Earned(rows[id], e.p.now, d) <==> d == Delta(rows[id], e.p.now) {
        EarnedIff(rows[id], e.p.now, d);
      }
    }
  }

  lemma DroppedBefore(rows: map<Id, Row>, events: seq<Event>, id: Id)
    requires |events| > 0
    ensures Dropped(rows, events, id)
       <==> Dropped(rows, events[..|events| - 1], id) || DroppedAt(rows, events, id, |events| - 1)
  {
    var before := events[..|events| - 1];
    forall i: nat | i < |before| ensures DroppedAt(rows, before, id, i) <==> DroppedAt(rows, events, id, i) {
      assert before[..i] == events[..i];
    }
    if Dropped(rows, events, id) {
      var i: nat :| DroppedAt(rows, events, id, i);
      assert i < |before| ==> DroppedAt(rows, before, id, i);
    }
  }

  /** Must-keep over whole runs: a must-keep row that is active at 4.0 or more, or legacy, stays such a row
      exactly in the runs without a review that it fails; otherwise it ends subconscious or gone. In
      particular no run without reviews loses it. */
  lemma {:induction false} MustKeepFallsIff(rows: map<Id, Row>, events: seq<Event>, id: Id)
    requires NotReused(events, id) && Kept(Find(rows, id))
    ensures Kept(Find(Run(rows, events), id)) <==> !Dropped(rows, events, id)
    ensures Dropped(rows, events, id) ==> Rank(Find(Run(rows, events), id)) <= 1
  {
    if |events| > 0 {
      var before, e := events[..|events| - 1], events[|events| - 1];
      assert forall j :: 0 <= j < |before| ==> before[j] == events[j];
      MustKeepFallsIff(rows, before, id);
      DroppedBefore(rows, events, id);
      if Dropped(rows, before, id) {
        EventDescends(Run(rows, before), e, id);
      } else {
        EventKeeps(Run(rows, before), e, id);
      }
    }
  }

  /** A row that a run loses is deleted by one of its maintenance passes, which found it on the slope. */
  lemma {:induction false} LostInRun(rows: map<Id, Row>, events: seq<Event>, id: Id) returns (j: nat)
    requires id in rows && id !in Run(rows, events)
    ensures j < |events| && events[j].Maintain? && id in Run(rows, events[..j])
    ensures OnSlope(Run(rows, events[..j])[id], events[j].p)
    ensures Maintained(Run(rows, events[..j])[id], events[j].p).None?
  {
    var before := events[..|events| - 1];
    if id in Run(rows, before) {
      j := |events| - 1;
      OnlySlopeForgets(Run(rows, before)[id], events[j].p);
    } else {
      j := LostInRun(rows, before, id);
      assert before[..j] == events[..j];
    }
  }

  /** What it takes to lose a must-keep row: first a review that it fails, and later a maintenance pass that
      finds it subconscious and idle for two years, or with less than half a point left. */
  lemma {:induction false} LosingMustKeep(rows: map<Id, Row>, events: seq<Event>, id: Id) returns (i: nat, j: nat)
    requires NotReused(events, id) && Kept(Find(rows, id)) && id !in Run(rows, events)
    ensures i < j < |events| && DroppedAt(rows, events, id, i)
    ensures events[j].Maintain? && id in Run(rows, events[..j])
    ensures var row, p := Run(rows, events[..j])[id], events[j].p;
            && row.status == Subconscious && Anchor(row).At?
            && (|| p.now - Anchor(row).second >= 730 * DAY
                || Remaining(row.score, p.f, p.now - Anchor(row).second) < 0.5)
  {
    j := LostInRun(rows, events, id);
    var before := events[..j];
    assert forall k :: 0 <= k < |before| ==> before[k] == events[k];
    MustKeepFallsIff(rows, before, id);
    OnlySlopeForgets(Run(rows, before)[id], events[j].p);
    i :| DroppedAt(rows, before, id, i);
    assert before[..i] == events[..i];
    ForgottenIff(Run(rows, before)[id], events[j].p);
  }

  /** Must-keep is lost all the same: a legacy must-keep row that nobody refers to fails its review half a
      year after it was made and is deleted two years later. */
  lemma {:induction false} MustKeepIsForgotten(id: Id, made: int, f: int -> real) returns (row: Row)
    ensures Kept(Some(row)) && row.score == 9.5 && row.created == At(made)
    ensures var review, last := made + 180 * DAY, made + 910 * DAY;
            id !in Run(map[id := row], [Judge(Pass(review, review, f)), Maintain(Pass(last, last, f))])
  {
    row := Row(Legacy, 9.5, None, true, false, 0, Missing, At(made), Missing);
    var review, last := made + 180 * DAY, made + 910 * DAY;
    var events := [Judge(Pass(review, review, f)), Maintain(Pass(last, last, f))];
    assert events[..1] == [Judge(Pass(review, review, f))] && events[..1][..0] == [];
    assert Run(map[id := row], events[..1][..0]) == map[id := row];
    var fallen := Reviewed(row, Pass(review, review, f));
    assert fallen.status == Subconscious && fallen.decayStarted == At(review);
    assert Run(map[id := row], events[..1])[id] == fallen;
    assert Maintained(fallen, Pass(last, last, f)).None?;
  }

  // ---------------------------------------------------------------------------------------------
  // The passes in place
  // ---------------------------------------------------------------------------------------------

  datatype MaintenanceCounts = MaintenanceCounts(
    adjusted: nat, toSubconscious: nat, toLegacy: nat, decayed: nat, forgotten: nat)

  function WithStatus(rows: map<Id, Row>, status: Status): set<Id> {
    set id | id in rows && rows[id].status == status
  }

  /** The rows after the monthly half of the pass. */
  function MonthlyAll(rows: map<Id, Row>, p: Pass): map<Id, Row> {
    map id | id in rows :: if rows[id].status == Active then Monthly(rows[id], p.now, p.stamp) else rows[id]
  }

  /** What the slope makes of any row. */
  function Sloped(row: Row, p: Pass): Option<Row> {
    if row.status == Subconscious then Slope(row, p.now, p.f) else Some(row)
  }

  /** The rows after the slope. */
  function SlopeAll(rows: map<Id, Row>, p: Pass): map<Id, Row> {
    map id | id in rows && Sloped(rows[id], p).Some? :: Sloped(rows[id], p).value
  }

  lemma TwoHalves(rows: map<Id, Row>, p: Pass)
    ensures SlopeAll(MonthlyAll(rows, p), p) == MaintainAll(rows, p)
  {
  }

  /** The rows while the slope has still to reach those of `todo`. */
  ghost predicate SlopedBut(fetched: map<Id, Row>, rows: map<Id, Row>, todo: set<Id>, p: Pass) {
    forall id: Id ::
      Find(rows, id) == if id in fetched && id !in todo then Sloped(fetched[id], p) else Find(fetched, id)
  }

  /** The row of one identity is replaced, or dropped when nothing is left of it. */
  function Put(rows: map<Id, Row>, id: Id, o: Option<Row>): map<Id, Row> {
    if o.None? then rows - {id} else rows[id := o.value]
  }

  lemma {:induction false} FindPut(rows: map<Id, Row>, id: Id, o: Option<Row>, other: Id)
    ensures Find(Put(rows, id, o), other) == if other == id then o else Find(rows, other)
  {
  }

  lemma PutSize(rows: map<Id, Row>, id: Id, o: Option<Row>)
    requires id in rows
    ensures |Put(rows, id, o)| == |rows| - (if o.None? then 1 else 0)
  {
    if o.None? {
      assert (rows - {id}).Keys == rows.Keys - {id};
    } else {
      assert rows[id := o.value].Keys == rows.Keys;
    }
  }

  lemma SlopeOne(fetched: map<Id, Row>, rows: map<Id, Row>, todo: set<Id>, p: Pass, id: Id)
    requires id in todo && id in fetched && SlopedBut(fetched, rows, todo, p)
    ensures id in rows && SlopedBut(fetched, Put(rows, id, Sloped(fetched[id], p)), todo - {id}, p)
  {
    assert Find(rows, id) == Find(fetched, id);
    var after := Put(rows, id, Sloped(fetched[id], p));
    forall other: Id
      ensures Find(after, other)
           == if other in fetched && other !in todo - {id} then Sloped(fetched[other], p) else Find(fetched, other)
    {
      FindPut(rows, id, Sloped(fetched[id], p), other);
    }
  }

  lemma SlopeStatus(rows: map<Id, Row>, id: Id, p: Pass)
    requires id in rows && rows[id].status == Subconscious
    ensures |WithStatus(Put(rows, id, Slope(rows[id], p.now, p.f)), Subconscious)|
         == |WithStatus(rows, Subconscious)| - (if Slope(rows[id], p.now, p.f).None? then 1 else 0)
  {
    var o := Slope(rows[id], p.now, p.f);
    var before, after := WithStatus(rows, Subconscious), WithStatus(Put(rows, id, o), Subconscious);
    if o.None? {
      assert after == before - {id};
    } else {
      assert after == before;
    }
  }

  lemma SlopeKeepsLegacy(rows: map<Id, Row>, p: Pass)
    ensures WithStatus(SlopeAll(rows, p), Legacy) == WithStatus(rows, Legacy)
  {
  }

  lemma SlopeDone(fetched: map<Id, Row>, rows: map<Id, Row>, p: Pass)
    requires SlopedBut(fetched, rows, {}, p)
    ensures rows == SlopeAll(fetched, p)
  {
    forall id: Id ensures Find(rows, id) == Find(SlopeAll(fetched, p), id) {
    }
    SameFinds(rows, SlopeAll(fetched, p));
  }

  lemma {:induction false} SameFinds(a: map<Id, Row>, b: map<Id, Row>)
    requires forall id: Id :: Find(a, id) == Find(b, id)
    ensures a == b
  {
    forall id: Id ensures id in a <==> id in b {
      assert Find(a, id) == Find(b, id);
    }
    forall id: Id | id in a ensures a[id] == b[id] {
      assert Find(a, id) == Find(b, id);
    }
  }

  /** The rows while the monthly half has still to reach those of `todo`. */
  ghost predicate MonthlyBut(fetched: map<Id, Row>, rows: map<Id, Row>, todo: set<Id>, p: Pass) {
    && rows.Keys == fetched.Keys
    && forall id :: id in fetched ==>
         rows[id] == if fetched[id].status == Active && id !in todo
                     then Monthly(fetched[id], p.now, p.stamp) else fetched[id]
  }

  lemma MonthlyOne(fetched: map<Id, Row>, rows: map<Id, Row>, todo: set<Id>, p: Pass, id: Id)
    requires id in todo && todo <= WithStatus(fetched, Active) && MonthlyBut(fetched, rows, todo, p)
    ensures id in rows && rows[id] == fetched[id] && fetched[id].status == Active
    ensures MonthlyBut(fetched, rows[id := Monthly(fetched[id], p.now, p.stamp)], todo - {id}, p)
  {
  }

  lemma MonthlyDone(fetched: map<Id, Row>, rows: map<Id, Row>, p: Pass)
    requires MonthlyBut(fetched, rows, {}, p)
    ensures rows == MonthlyAll(fetched, p)
  {
  }

  class LongTermMemory {
    var rows: map<Id, Row>

    constructor ()
      ensures rows == map[]
    {
      rows := map[];
    }

    /** Active rows, each re-evaluated in place. */
    method MonthlyPass(p: Pass) returns (adjusted: nat, toSubconscious: nat, toLegacy: nat)
      modifies this
      ensures rows == MonthlyAll(old(rows), p)
      ensures adjusted == |WithStatus(old(rows), Active)|
      ensures toSubconscious + |WithStatus(old(rows), Subconscious)| == |WithStatus(rows, Subconscious)|
      ensures toLegacy + |WithStatus(old(rows), Legacy)| == |WithStatus(rows, Legacy)|
    {
      var fetched := rows;
      var todo := WithStatus(rows, Active);
      adjusted, toSubconscious, toLegacy := 0, 0, 0;
      while todo != {}
        invariant todo <= WithStatus(fetched, Active) && MonthlyBut(fetched, rows, todo, p)
        invariant adjusted + |todo| == |WithStatus(fetched, Active)|
        invariant toSubconscious + |WithStatus(fetched, Subconscious)| == |WithStatus(rows, Subconscious)|
        invariant toLegacy + |WithStatus(fetched, Legacy)| == |WithStatus(rows, Legacy)|
        decreases |todo|
      {
        var id :| id in todo;
        var updated := Monthly(fetched[id], p.now, p.stamp);
        MonthlyOne(fetched, rows, todo, p, id);
        StatusMoves(rows, id, updated, Subconscious);
        StatusMoves(rows, id, updated, Legacy);
        if updated.status == Subconscious {
          toSubconscious := toSubconscious + 1;
        } else if updated.status == Legacy {
          toLegacy := toLegacy + 1;
        }
        rows := rows[id := updated];
        adjusted := adjusted + 1;
        todo := todo - {id};
      }
      MonthlyDone(fetched, rows, p);
    }

    /** Subconscious rows, each decayed in place or deleted. */
    method SlopePass(p: Pass) returns (decayed: nat, forgotten: nat)
      modifies this
      ensures rows == SlopeAll(old(rows), p)
      ensures decayed + forgotten == |WithStatus(old(rows), Subconscious)|
      ensures decayed == |WithStatus(rows, Subconscious)|
      ensures |rows| + forgotten == |old(rows)|
    {
      var fetched := rows;
      var todo := WithStatus(rows, Subconscious);
      decayed, forgotten := 0, 0;
      while todo != {}
        invariant todo <= WithStatus(fetched, Subconscious)
        invariant SlopedBut(fetched, rows, todo, p)
        invariant decayed + forgotten + |todo| == |WithStatus(fetched, Subconscious)|
        invariant decayed + |todo| == |WithStatus(rows, Subconscious)|
        invariant |rows| + forgotten == |fetched|
        decreases |todo|
      {
        var id :| id in todo;
        var effective := Slope(fetched[id], p.now, p.f);
        SlopeOne(fetched, rows, todo, p, id);
        assert Find(rows, id) == Find(fetched, id);
        PutSize(rows, id, effective);
        SlopeStatus(rows, id, p);
        if effective.None? {
          rows := rows - {id};
          forgotten := forgotten + 1;
        } else {
          rows := rows[id := effective.value];
          decayed := decayed + 1;
        }
        todo := todo - {id};
      }
      SlopeDone(fetched, rows, p);
    }

    /** The whole pass; the slope fetches its rows after the monthly half has stored its own. */
    method RunMaintenance(p: Pass) returns (counts: MaintenanceCounts)
      modifies this
      ensures rows == MaintainAll(old(rows), p)
      ensures counts.adjusted == |WithStatus(old(rows), Active)|
      ensures counts.decayed + counts.forgotten == counts.toSubconscious + |WithStatus(old(rows), Subconscious)|
      ensures counts.decayed == |WithStatus(rows, Subconscious)|
      ensures counts.toLegacy + |WithStatus(old(rows), Legacy)| == |WithStatus(rows, Legacy)|
      ensures |rows| + counts.forgotten == |old(rows)|
    {
      ghost var before := rows;
      var adjusted, toSubconscious, toLegacy := MonthlyPass(p);
      assert rows.Keys == before.Keys;
      SlopeKeepsLegacy(rows, p);
      var decayed, forgotten := SlopePass(p);
      TwoHalves(before, p);
      counts := MaintenanceCounts(adjusted, toSubconscious, toLegacy, decayed, forgotten);
    }

    /** Legacy rows, each reviewed in place. */
    method RunLegacyReview(p: Pass) returns (reviewed: nat, demoted: nat)
      modifies this
      ensures rows == ReviewAll(old(rows), p)
      ensures reviewed == |WithStatus(old(rows), Legacy)|
      ensures demoted + |WithStatus(old(rows), Subconscious)| == |WithStatus(rows, Subconscious)|
    {
      var fetched := rows;
      var todo := WithStatus(rows, Legacy);
      reviewed, demoted := 0, 0;
      while todo != {}
        invariant todo <= WithStatus(fetched, Legacy) && rows.Keys == fetched.Keys
        invariant forall id :: id in fetched ==>
                    rows[id] == if id in todo then fetched[id] else Reviewed(fetched[id], p)
        invariant reviewed + |todo| == |WithStatus(fetched, Legacy)|
        invariant demoted + |WithStatus(fetched, Subconscious)| == |WithStatus(rows, Subconscious)|
        decreases |todo|
      {
        var id :| id in todo;
        var updated := Review(fetched[id], p.now, p.stamp);
        StatusMoves(rows, id, updated, Subconscious);
        if updated.status == Subconscious {
          demoted := demoted + 1;
        }
        rows := rows[id := updated];
        reviewed := reviewed + 1;
        todo := todo - {id};
      }
    }
  }

  /** Replacing one row's status changes the number of rows of a status by that one row. */
  lemma StatusMoves(rows: map<Id, Row>, id: Id, updated: Row, status: Status)
    requires id in rows && rows[id].status != status
    ensures |WithStatus(rows[id := updated], status)|
         == |WithStatus(rows, status)| + (if updated.status == status then 1 else 0)
  {
    var before, after := WithStatus(rows, status), WithStatus(rows[id := updated], status);
    if updated.status == status {
      assert after == before + {id};
    } else {
      assert after == before;
    }
  }
}
