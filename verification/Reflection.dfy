/** The gate every draft passes: evaluate, reflect at most three times, deliver or withhold. */
module Reflection {
  import opened Vectors
  import opened Lattice
  import opened EditDistance

  type Coordinates = v: Vec | |v| == DIMENSIONS witness Zeros(DIMENSIONS)

  datatype Zone = Aligned | AcceptableVariance | Violation

  datatype Evaluation = Evaluation(zone: Zone, coords: Coordinates, projected: Coordinates, corrected: bool)

  /** A text together with the verdict the value engine gave on exactly that text. */
  datatype Attempt = Attempt(text: string, verdict: Evaluation)

  /** What the outside world answers during one gate: whether the driver is connected, the text it
      generates on each reflection pass, and the verdict of each evaluation (number 0 is the draft's).
      Nothing is assumed about any answer. */
  datatype Voice = Voice(connected: bool, reply: nat -> string, verdict: nat -> Evaluation)

  const MAX_REFLECTION_PASSES: nat := 3
  const REFUSAL: string :=
    "An answer is not available because the response remained outside LINA's ethical boundaries after reflection."

  /** What the gate hands on, and after how many reflections. */
  datatype Outcome = Outcome(text: string, verdict: Evaluation, passes: nat)

  /** Evaluation number k of a gate: the draft, then one text a pass. */
  function Tried(draft: string, voice: Voice, k: nat): Attempt {
    Attempt(if k == 0 then draft else voice.reply(k), voice.verdict(k))
  }

  /** Evaluations 0 to n - 1. */
  function Earlier(draft: string, voice: Voice, n: nat): (r: seq<Attempt>)
    ensures |r| == n
  {
    if n == 0 then [] else Earlier(draft, voice, n - 1) + [Tried(draft, voice, n - 1)]
  }

  predicate TooClose(a: Attempt, b: Attempt) {
    Similarity(a.text, b.text) > 0.9 || Dist2(a.verdict.coords, b.verdict.coords) < 0.01
  }

  ghost predicate Flagged(a: Attempt, earlier: seq<Attempt>, anchor: Coordinates) {
    (exists i :: 0 <= i < |earlier| && TooClose(a, earlier[i])) || Dist2(a.verdict.coords, anchor) > 0.25
  }

  /** The repetition and topic check, one earlier attempt at a time. */
  method IsFlagged(a: Attempt, earlier: seq<Attempt>, anchor: Coordinates) returns (flagged: bool)
    ensures flagged <==> Flagged(a, earlier, anchor)
  {
    var i := 0;
    while i < |earlier|
      invariant 0 <= i <= |earlier|
      invariant forall j :: 0 <= j < i ==> !TooClose(a, earlier[j])
    {
      var similarity := StringSimilarity(a.text, earlier[i].text);
      if similarity > 0.9 {
        assert TooClose(a, earlier[i]);
        return true;
      }
      if Dist2(a.verdict.coords, earlier[i].verdict.coords) < 0.01 {
        assert TooClose(a, earlier[i]);
        return true;
      }
      i := i + 1;
    }
    return Dist2(a.verdict.coords, anchor) > 0.25;
  }

  /** Pass k may be delivered: it is outside Violation and not flagged against everything before it. */
  ghost predicate Acceptable(draft: string, voice: Voice, k: nat) {
    && voice.verdict(k).zone != Violation
    && !Flagged(Tried(draft, voice, k), Earlier(draft, voice, k), voice.verdict(0).projected)
  }

  /** The verdict of a withheld draft: the last one given, forced into Violation. */
  function Withheld(e: Evaluation): Evaluation {
    e.(zone := Violation, corrected := true)
  }

  /** What the gate promises of its outcome. A draft outside Violation passes as it is, and so does any
      draft when there is no driver to reflect with. Otherwise the first acceptable pass of three is
      delivered, and when there is none the refusal is. */
  ghost predicate GateAnswers(draft: string, voice: Voice, r: Outcome) {
    if voice.verdict(0).zone != Violation || !voice.connected then r == Outcome(draft, voice.verdict(0), 0)
    else
      || (&& 1 <= r.passes <= MAX_REFLECTION_PASSES
          && Acceptable(draft, voice, r.passes)
          && (forall k :: 1 <= k < r.passes ==> !Acceptable(draft, voice, k))
          && r.text == voice.reply(r.passes) && r.verdict == voice.verdict(r.passes))
      || (&& r.passes == MAX_REFLECTION_PASSES
          && (forall k :: 1 <= k <= MAX_REFLECTION_PASSES ==> !Acceptable(draft, voice, k))
          && r.text == REFUSAL && r.verdict == Withheld(voice.verdict(MAX_REFLECTION_PASSES)))
  }

  lemma {:induction false} AcceptableIff(
    draft: string, voice: Voice, pass: nat, attempt: Attempt, previous: seq<Attempt>, flagged: bool)
    requires attempt == Tried(draft, voice, pass) && previous == Earlier(draft, voice, pass)
    requires flagged <==> Flagged(attempt, previous, voice.verdict(0).projected)
    ensures Acceptable(draft, voice, pass) <==> attempt.verdict.zone != Violation && !flagged
    ensures previous + [attempt] == Earlier(draft, voice, pass + 1)
  {
  }

  /** One reflection: a new text, its verdict, and whether it may be delivered. */
  method TryPass(draft: string, voice: Voice, pass: nat, previous: seq<Attempt>, anchor: Coordinates)
    returns (attempt: Attempt, flagged: bool)
    requires pass > 0 && previous == Earlier(draft, voice, pass) && anchor == voice.verdict(0).projected
    ensures attempt == Attempt(voice.reply(pass), voice.verdict(pass))
    ensures Acceptable(draft, voice, pass) <==> attempt.verdict.zone != Violation && !flagged
    ensures previous + [attempt] == Earlier(draft, voice, pass + 1)
  {
    attempt := Attempt(voice.reply(pass), voice.verdict(pass));
    flagged := IsFlagged(attempt, previous, anchor);
    AcceptableIff(draft, voice, pass, attempt, previous, flagged);
  }

  /** The loop of the gate, without its bookkeeping. */
  method Reflect(draft: string, voice: Voice) returns (r: Outcome)
    ensures GateAnswers(draft, voice, r)
  {
    var verdict := voice.verdict(0);
    if verdict.zone != Violation || !voice.connected {
      return Outcome(draft, verdict, 0);
    }
    var anchor := verdict.projected;
    var previous := [Attempt(draft, verdict)];
    FirstAttempt(draft, voice);
    var pass := 1;
    while pass <= MAX_REFLECTION_PASSES
      invariant 1 <= pass <= MAX_REFLECTION_PASSES + 1
      invariant previous == Earlier(draft, voice, pass)
      invariant verdict == voice.verdict(pass - 1)
      invariant NoneBefore(draft, voice, pass)
    {
      var attempt, flagged := TryPass(draft, voice, pass, previous, anchor);
      verdict := attempt.verdict;
      previous := previous + [attempt];
      if verdict.zone != Violation && !flagged {
        r := Outcome(attempt.text, verdict, pass);
        DeliveryAnswers(draft, voice, r);
        return;
      }
      NoneYet(draft, voice, pass);
      pass := pass + 1;
    }
    r := Outcome(REFUSAL, Withheld(verdict), MAX_REFLECTION_PASSES);
    RefusalAnswers(draft, voice, r);
  }

  /** No pass before this one may be delivered. */
  ghost predicate NoneBefore(draft: string, voice: Voice, pass: nat) {
    forall k :: 1 <= k < pass ==> !Acceptable(draft, voice, k)
  }

  lemma NoneYet(draft: string, voice: Voice, pass: nat)
    requires NoneBefore(draft, voice, pass) && !Acceptable(draft, voice, pass)
    ensures NoneBefore(draft, voice, pass + 1)
  {
  }

  lemma FirstAttempt(draft: string, voice: Voice)
    ensures Earlier(draft, voice, 1) == [Attempt(draft, voice.verdict(0))]
  {
    assert Earlier(draft, voice, 0) == [];
  }

  lemma DeliveryAnswers(draft: string, voice: Voice, r: Outcome)
    requires voice.verdict(0).zone == Violation && voice.connected
    requires 1 <= r.passes <= MAX_REFLECTION_PASSES && Acceptable(draft, voice, r.passes)
    requires NoneBefore(draft, voice, r.passes)
    requires r.text == voice.reply(r.passes) && r.verdict == voice.verdict(r.passes)
    ensures GateAnswers(draft, voice, r)
  {
  }

  lemma RefusalAnswers(draft: string, voice: Voice, r: Outcome)
    requires voice.verdict(0).zone == Violation && voice.connected
    requires NoneBefore(draft, voice, MAX_REFLECTION_PASSES + 1)
    requires r == Outcome(REFUSAL, Withheld(voice.verdict(MAX_REFLECTION_PASSES)), MAX_REFLECTION_PASSES)
    ensures GateAnswers(draft, voice, r)
  {
  }

  /** Whatever the driver and the engine answer, the gate has one answer. */
  lemma GateIsDetermined(draft: string, voice: Voice, r: Outcome, r': Outcome)
    requires GateAnswers(draft, voice, r) && GateAnswers(draft, voice, r')
    ensures r == r'
  {
    if voice.verdict(0).zone == Violation && voice.connected {
      if Acceptable(draft, voice, r.passes) && Acceptable(draft, voice, r'.passes) {
        if r.passes < r'.passes {
          assert false;
        } else if r'.passes < r.passes {
          assert false;
        }
      }
    }
  }

  /** The answer from pass number `pass` on. */
  ghost function FromPass(draft: string, voice: Voice, pass: nat): (r: Outcome)
    requires 1 <= pass <= MAX_REFLECTION_PASSES + 1
    requires voice.connected && voice.verdict(0).zone == Violation
    requires forall k :: 1 <= k < pass ==> !Acceptable(draft, voice, k)
    ensures GateAnswers(draft, voice, r)
    decreases MAX_REFLECTION_PASSES + 1 - pass
  {
    if pass > MAX_REFLECTION_PASSES
    then Outcome(REFUSAL, Withheld(voice.verdict(MAX_REFLECTION_PASSES)), MAX_REFLECTION_PASSES)
    else if Acceptable(draft, voice, pass) then Outcome(voice.reply(pass), voice.verdict(pass), pass)
    else FromPass(draft, voice, pass + 1)
  }

  /** The one outcome the gate promises. */
  ghost function Gate(draft: string, voice: Voice): (r: Outcome)
    ensures GateAnswers(draft, voice, r)
  {
    if voice.verdict(0).zone != Violation || !voice.connected then Outcome(draft, voice.verdict(0), 0)
    else FromPass(draft, voice, 1)
  }

  lemma {:induction false} EarlierAt(draft: string, voice: Voice, n: nat, j: nat)
    requires j < n
    ensures Earlier(draft, voice, n)[j] == Tried(draft, voice, j)
  {
    if j < n - 1 {
      EarlierAt(draft, voice, n - 1, j);
    }
  }

  /** A text that leaves the gate outside Violation is one that was evaluated, and that very evaluation
      put it outside Violation. */
  lemma PassedTextWasJudged(draft: string, voice: Voice, r: Outcome)
    requires GateAnswers(draft, voice, r) && r.verdict.zone != Violation
    ensures r.passes <= MAX_REFLECTION_PASSES
    ensures Tried(draft, voice, r.passes) == Attempt(r.text, r.verdict)
  {
  }

  /** A delivered reflection differs from every earlier attempt: at most nine tenths alike as text, at
      least 0.1 away as coordinates, and within 0.5 of the point the draft was projected to. */
  lemma ReflectionIsNew(draft: string, voice: Voice, r: Outcome, j: nat)
    requires GateAnswers(draft, voice, r) && r.verdict.zone != Violation && j < r.passes
    ensures Similarity(r.text, Tried(draft, voice, j).text) <= 0.9
    ensures Dist2(r.verdict.coords, voice.verdict(j).coords) >= 0.01
    ensures Dist2(r.verdict.coords, voice.verdict(0).projected) <= 0.25
  {
    EarlierAt(draft, voice, r.passes, j);
    assert !TooClose(Tried(draft, voice, r.passes), Earlier(draft, voice, r.passes)[j]);
  }

  /** A delivered reflection repeats no earlier attempt word for word. */
  lemma ReflectionIsNoRepeat(draft: string, voice: Voice, r: Outcome, j: nat)
    requires GateAnswers(draft, voice, r) && r.verdict.zone != Violation && j < r.passes
    ensures r.text != Tried(draft, voice, j).text
  {
    ReflectionIsNew(draft, voice, r, j);
    SimilarityMeaning(r.text, Tried(draft, voice, j).text);
  }

  /** The outcome is in Violation exactly when the draft was and no pass could be delivered; the driver
      being away counts as no pass. */
  lemma WithheldIff(draft: string, voice: Voice, r: Outcome)
    requires GateAnswers(draft, voice, r)
    ensures r.verdict.zone == Violation
       <==> voice.verdict(0).zone == Violation
            && (voice.connected ==> forall k :: 1 <= k <= MAX_REFLECTION_PASSES ==> !Acceptable(draft, voice, k))
  {
    if voice.verdict(0).zone == Violation && voice.connected && r.verdict.zone != Violation {
      assert Acceptable(draft, voice, r.passes);
    }
  }

  /** Pass k is new and on the topic: at most nine tenths like every text before it, at least 0.1 away from the
      coordinates of each, and within 0.5 of the point the draft was projected to. */
  ghost predicate IsNew(draft: string, voice: Voice, k: nat) {
    && (forall j :: 0 <= j < k ==>
          && Similarity(voice.reply(k), if j == 0 then draft else voice.reply(j)) <= 0.9
          && Dist2(voice.verdict(k).coords, voice.verdict(j).coords) >= 0.01)
    && Dist2(voice.verdict(k).coords, voice.verdict(0).projected) <= 0.25
  }

  lemma NewIsAcceptable(draft: string, voice: Voice, k: nat)
    requires k > 0
    ensures Acceptable(draft, voice, k) <==> voice.verdict(k).zone != Violation && IsNew(draft, voice, k)
  {
    var a, earlier := Tried(draft, voice, k), Earlier(draft, voice, k);
    forall j | 0 <= j < k ensures earlier[j] == Tried(draft, voice, j) {
      EarlierAt(draft, voice, k, j);
    }
    if IsNew(draft, voice, k) {
      forall j | 0 <= j < k ensures !TooClose(a, earlier[j]) {
        assert earlier[j] == Tried(draft, voice, j);
      }
    } else if Dist2(voice.verdict(k).coords, voice.verdict(0).projected) <= 0.25 {
      var j :| 0 <= j < k && !(
          && Similarity(voice.reply(k), if j == 0 then draft else voice.reply(j)) <= 0.9
          && Dist2(voice.verdict(k).coords, voice.verdict(j).coords) >= 0.01);
      assert TooClose(a, earlier[j]);
    }
  }

  /** What must be delivered: with a driver, when one of the first three passes is judged outside Violation and
      is new and on the topic, the outcome is outside Violation and comes no later than that pass; and it is
      that pass when no earlier one will do. */
  lemma NewPassIsDelivered(draft: string, voice: Voice, r: Outcome, k: nat)
    requires GateAnswers(draft, voice, r) && voice.connected && voice.verdict(0).zone == Violation
    requires 1 <= k <= 3 && voice.verdict(k).zone != Violation && IsNew(draft, voice, k)
    ensures r.verdict.zone != Violation && 1 <= r.passes <= k
    ensures r.text == voice.reply(r.passes) && r.verdict == voice.verdict(r.passes)
    ensures IsNew(draft, voice, r.passes)
    ensures forall j :: 1 <= j < r.passes ==> voice.verdict(j).zone == Violation || !IsNew(draft, voice, j)
  {
    NewIsAcceptable(draft, voice, k);
    NewIsAcceptable(draft, voice, r.passes);
    forall j | 1 <= j < r.passes ensures voice.verdict(j).zone == Violation || !IsNew(draft, voice, j) {
      NewIsAcceptable(draft, voice, j);
    }
  }

  /** What must be withheld: with a driver, the draft is refused after three passes exactly when none of the three
      is judged outside Violation, new and on the topic. What is said then is the refusal, with the last verdict
      turned into a violation. */
  lemma RefusedIff(draft: string, voice: Voice, r: Outcome)
    requires GateAnswers(draft, voice, r) && voice.connected && voice.verdict(0).zone == Violation
    ensures r.verdict.zone == Violation
       <==> forall k :: 1 <= k <= 3 ==> voice.verdict(k).zone == Violation || !IsNew(draft, voice, k)
    ensures r.verdict.zone == Violation ==>
              r.text == REFUSAL && r.passes == 3 && r.verdict == voice.verdict(3).(zone := Violation, corrected := true)
  {
    WithheldIff(draft, voice, r);
    forall k | 1 <= k <= 3
      ensures Acceptable(draft, voice, k) <==> voice.verdict(k).zone != Violation && IsNew(draft, voice, k)
    {
      NewIsAcceptable(draft, voice, k);
    }
  }

  /** A draft that is not in Violation is handed on as it is, without any reflection. */
  lemma FitDraftStands(draft: string, voice: Voice, r: Outcome)
    requires GateAnswers(draft, voice, r) && voice.verdict(0).zone != Violation
    ensures r.text == draft && r.verdict == voice.verdict(0) && r.passes == 0
  {
  }

  /** A violating draft is handed on word for word exactly when there is no driver to reflect with; with
      a driver, what is handed on of a violating draft is a text judged outside Violation or the refusal. */
  lemma ViolatingDraftLeaks(draft: string, voice: Voice, r: Outcome)
    requires GateAnswers(draft, voice, r)
    ensures r.passes == 0 && r.verdict.zone == Violation
       <==> voice.verdict(0).zone == Violation && !voice.connected
    ensures r.verdict.zone == Violation ==> r.text == if voice.connected then REFUSAL else draft
  {
  }

  /** One input for which a violating draft is handed on. */
  lemma LeakExample(verdict: Evaluation) returns (voice: Voice, r: Outcome)
    requires verdict.zone == Violation
    ensures GateAnswers("draft", voice, r) && r == Outcome("draft", verdict, 0)
  {
    voice := Voice(false, k => "", k => verdict);
    r := Outcome("draft", verdict, 0);
  }
}
