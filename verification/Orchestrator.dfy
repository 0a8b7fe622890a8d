/** The core object: it runs turns and chats and keeps history, memory and ledger in place. */
module Orchestrator {
  import opened Classifier
  import opened StreamParsing
  import opened Reflection
  import opened Conversation

  /** Blanks are skipped one at a time. */
  method SkipBlanks(text: string) returns (r: string)
    ensures r == Trimmed(text)
  {
    var i := 0;
    while i < |text| && IsBlank(text[i])
      invariant 0 <= i <= |text|
      invariant Trimmed(text[i..]) == Trimmed(text)
    {
      assert text[i..][1..] == text[i + 1..];
      i := i + 1;
    }
    r := text[i..];
  }

  /** Feed one stream to a fresh parser, collecting thoughts as they complete and telling the window of them,
      and of a score every eight pieces. */
  method Listen(parser: StreamParser, pieces: seq<string>, score: string -> string)
    returns (thoughts: seq<string>, notices: seq<Notice>)
    requires parser.Valid() && parser.buffer == "" && parser.completedThoughts == []
    modifies parser
    ensures parser.Valid()
    ensures Swept(parser.buffer, thoughts) == Sweep(Joined(pieces), parser.thought)
    ensures notices == Heard(pieces, score, parser.thought)
  {
    thoughts, notices := [], [];
    var full := "";
    var sinceScore := 0;
    var i := 0;
    NothingHeard(parser.thought);
    while i < |pieces|
      invariant 0 <= i <= |pieces| && sinceScore == i % PIECES_A_SCORE && full == Joined(pieces[..i])
      invariant parser.Valid() && parser.completedThoughts == []
      invariant Swept(parser.buffer, thoughts) == Sweep(Joined(pieces[..i]), parser.thought)
      invariant notices == Heard(pieces[..i], score, parser.thought)
    {
      MoreHeard(pieces, i, parser.buffer, thoughts, parser.thought);
      MoreNotices(pieces, i, parser.buffer, score, parser.thought);
      JoinedNext(pieces, i);
      full := full + pieces[i];
      var more := FeedAndTake(parser, pieces[i]);
      thoughts := thoughts + more;
      notices := notices + ThoughtNotices(more);
      OneMorePiece(i, sinceScore);
      sinceScore := sinceScore + 1;
      if sinceScore >= PIECES_A_SCORE {
        sinceScore := 0;
        notices := notices + [Notice("score", score(full))];
      }
      i := i + 1;
    }
    assert pieces[..i] == pieces;
  }

  lemma OneMorePiece(i: nat, since: nat)
    requires since == i % PIECES_A_SCORE
    ensures (i + 1) % PIECES_A_SCORE == if since + 1 >= PIECES_A_SCORE then 0 else since + 1
  {
  }

  method FeedAndTake(parser: StreamParser, piece: string) returns (more: seq<string>)
    requires parser.Valid() && parser.completedThoughts == []
    modifies parser
    ensures parser.Valid() && parser.completedThoughts == []
    ensures parser.buffer == Sweep(old(parser.buffer) + piece, parser.thought).rest
    ensures more == Sweep(old(parser.buffer) + piece, parser.thought).blocks
  {
    parser.Feed(piece);
    more := parser.TakeCompletedThoughts();
  }

  lemma MoreNotices(pieces: seq<string>, i: nat, buffer: string, score: string -> string, m: Markers)
    requires i < |pieces| && Proper(m) && buffer == Sweep(Joined(pieces[..i]), m).rest
    ensures var told := Heard(pieces[..i], score, m) + ThoughtNotices(Sweep(buffer + pieces[i], m).blocks);
            Heard(pieces[..i + 1], score, m)
            == if (i + 1) % PIECES_A_SCORE == 0 then told + [Notice("score", score(Joined(pieces[..i + 1])))] else told
  {
    assert pieces[..i + 1][..i] == pieces[..i];
    JoinedNext(pieces, i);
  }

  /** Feed one stream to a fresh parser and leave its thoughts where they are. */
  method Overhear(parser: StreamParser, pieces: seq<string>)
    requires parser.Valid() && parser.buffer == "" && parser.completedThoughts == []
    modifies parser
    ensures parser.Valid()
    ensures Swept(parser.buffer, parser.completedThoughts) == Sweep(Joined(pieces), parser.thought)
  {
    var i := 0;
    NothingHeard(parser.thought);
    while i < |pieces|
      invariant 0 <= i <= |pieces|
      invariant parser.Valid()
      invariant Swept(parser.buffer, parser.completedThoughts) == Sweep(Joined(pieces[..i]), parser.thought)
    {
      MoreHeard(pieces, i, parser.buffer, parser.completedThoughts, parser.thought);
      parser.Feed(pieces[i]);
      i := i + 1;
    }
    assert pieces[..i] == pieces;
  }

  /** One whole stream: what the window is told of it, and what it is classified as. */
  method HearStream(parser: StreamParser, pieces: seq<string>, score: string -> string)
    returns (notices: seq<Notice>, parsed: ParsedTurn)
    requires parser.Valid() && parser.thought == THOUGHT && parser.tool == TOOL_CALL
    modifies parser
    ensures parser.Valid()
    ensures notices == Heard(pieces, score, THOUGHT) && parsed == Parsed(pieces)
  {
    parser.Reset();
    var thoughts;
    thoughts, notices := Listen(parser, pieces, score);
    parsed := parser.Result();
  }

  /** A call is approved and run if it names a tool; either way the window and the driver are told. */
  method RunTool(
    call: string, door: Door, k: nat, ghost calls: seq<string>, ghost history: seq<Line>,
    run: seq<string>, notices: seq<Notice>, working: seq<Line>)
    returns (run': seq<string>, notices': seq<Notice>, working': seq<Line>)
    requires k == |calls| && run == Named(calls, door.toolName) && working == Working(history, door, calls)
    requires notices == CallNotices(door, calls) + Heard(door.stream(|calls|), door.score, THOUGHT)
    ensures run' == Named(calls + [call], door.toolName) && working' == Working(history, door, calls + [call])
    ensures notices' == CallNotices(door, calls + [call])
  {
    assert (calls + [call])[..|calls|] == calls;
    var name, result := door.toolName(call), door.result(k);
    run' := if name != "" then run + [call] else run;
    notices' := notices + [Notice("tool_call", call), AnswerNotice(name, result)];
    working' := working + [CallLine(call), AnswerLine(name, result)];
  }

  lemma {:induction false} NothingHeard(m: Markers)
    requires Proper(m)
    ensures Sweep("", m) == Swept("", [])
  {
    assert Find("", m.open, 0).None?;
  }

  lemma {:induction false} MoreHeard(pieces: seq<string>, i: nat, buffer: string, blocks: seq<string>, m: Markers)
    requires i < |pieces| && Proper(m) && Swept(buffer, blocks) == Sweep(Joined(pieces[..i]), m)
    ensures var more := Sweep(buffer + pieces[i], m);
            && [] + more.blocks == more.blocks
            && Swept(more.rest, blocks + more.blocks) == Sweep(Joined(pieces[..i + 1]), m)
  {
    JoinedNext(pieces, i);
    SweepInTwo(Joined(pieces[..i]), pieces[i], m);
  }

  lemma {:induction false} JoinedNext(pieces: seq<string>, i: nat)
    requires i < |pieces|
    ensures Joined(pieces[..i + 1]) == Joined(pieces[..i]) + pieces[i]
  {
    assert pieces[..i + 1][..i] == pieces[..i];
  }

  class LinaCore {
    var history: seq<Line>
    var memory: seq<Memory>
    var ledger: seq<Entry>
    var emitted: seq<string>
    var records: seq<Record>
    ghost var judged: seq<Attempt>

    /** The session as a value. */
    ghost function View(): Session
      reads this
    {
      Session(history, memory, ledger, emitted, judged, records)
    }

    constructor ()
      ensures View() == SessionAfter([])
    {
      history, memory, ledger, emitted, records, judged := [], [], [], [], [], [];
    }

    method ApplyGate(draft: string, voice: Voice) returns (r: Outcome)
      modifies this
      ensures r == Gate(draft, voice)
      ensures View() == Gated(old(View()), draft, voice)
    {
      r := Reflect(draft, voice);
      GateIsDetermined(draft, voice, r, Gate(draft, voice));
      ledger := ledger + [Entry(r.text, r.verdict.zone)];
      judged := judged + Earlier(draft, voice, r.passes + 1);
    }

    method Keep(text: string, zone: Zone)
      modifies this
      ensures View() == Kept(old(View()), text, zone)
    {
      memory := memory + [Memory(text, if zone == AcceptableVariance then Wary else Warm)];
      history := history + [Line(Assistant, text)];
      if |history| > HISTORY_LIMIT {
        history := history[2..];
      }
    }

    method FinalizeTurn(response: string, voice: Voice)
      modifies this
      ensures View() == Finalized(old(View()), response, voice)
    {
      var draft := SkipBlanks(response);
      if draft == "" {
        return;
      }
      var r := ApplyGate(draft, voice);
      emitted := emitted + [r.text];
      if r.verdict.zone == Violation {
        return;
      }
      Keep(r.text, r.verdict.zone);
    }

    method Chat(user: string, raw: string, voice: Voice) returns (reply: string)
      modifies this
      ensures View() == Chatted(old(View()), user, raw, voice)
      ensures reply == Gate(raw, voice).text
    {
      history := history + [Line(User, user)];
      var r := ApplyGate(raw, voice);
      emitted := emitted + [r.text];
      reply := r.text;
      if r.verdict.zone == Violation {
        return;
      }
      Keep(r.text, r.verdict.zone);
    }

    /** A session begins: it is entered under the next number and the conversation starts anew; memory and
        ledger stay. */
    method BeginSession(season: string, depth: string)
      modifies this
      ensures View() == Happened(old(View()), Begin(season, depth))
    {
      records := records + [Record(|records| + 1, season, depth, false)];
      history := [];
    }

    /** One turn: stream, classify, run a tool and stream again, until there is a response for the gate.
        `notices` is what the window is told on the way, `working` the history the driver is given. */
    method RunTurn(user: string, door: Door, voice: Voice)
      returns (run: seq<string>, notices: seq<Notice>, working: seq<Line>)
      modifies this
      ensures View() == Turned(old(View()), user, door, voice)
      ensures var end := TurnFrom(door, []);
              && run == end.run && notices == Notices(door, end)
              && working == Working(old(history) + [Line(User, user)], door, end.calls)
    {
      history := history + [Line(User, user)];
      ghost var begun := View();
      ghost var calls: seq<string> := [];
      var toolCalls := 0;
      run, notices, working := [], [], history;
      var parser := new StreamParser(THOUGHT, TOOL_CALL);
      var stopped := false;
      var response := "";
      while !door.stoppedBefore(toolCalls)
        invariant toolCalls == |calls| <= MAX_TOOL_CALLS
        invariant TurnFrom(door, calls) == TurnFrom(door, [])
        invariant run == Named(calls, door.toolName) && notices == CallNotices(door, calls)
        invariant working == Working(begun.history, door, calls)
        invariant View() == begun && !stopped
        invariant fresh(parser) && parser.Valid() && parser.thought == THOUGHT && parser.tool == TOOL_CALL
        decreases MAX_TOOL_CALLS - toolCalls
      {
        var heard, parsed := HearStream(parser, door.stream(toolCalls), door.score);
        assert parsed == Parses(door)(toolCalls);
        notices := notices + heard;
        response := parsed.response;
        if door.stoppedAfter(toolCalls) {
          stopped := true;
          break;
        }
        if parsed.toolCall.Some? && parsed.toolCall.value != "" && toolCalls < MAX_TOOL_CALLS {
          var call := parsed.toolCall.value;
          run, notices, working := RunTool(call, door, toolCalls, calls, begun.history, run, notices, working);
          calls, toolCalls := calls + [call], toolCalls + 1;
          continue;
        }
        FinalizeTurn(response, voice);
        return;
      }
      if stopped {
        FinalizeTurn(response, voice);
      }
    }

    /** Her floor: one stream, and silence when it is blank or a mere greeting. */
    method RunVoluntaryTurn(pieces: seq<string>, greetingOnly: bool, voice: Voice)
      modifies this
      ensures View() == Happened(old(View()), Voluntary(pieces, greetingOnly, voice))
    {
      var parser := new StreamParser(THOUGHT, TOOL_CALL);
      Overhear(parser, pieces);
      var parsed := parser.Result();
      var utterance := SkipBlanks(parsed.response);
      if utterance == "" || greetingOnly {
        return;
      }
      TrimmedTwice(parsed.response);
      FinalizeTurn(utterance, voice);
    }
  }

  lemma {:induction false} TrimmedTwice(text: string)
    ensures Trimmed(Trimmed(text)) == Trimmed(text)
  {
    TrimmedIsSuffix(text);
  }
}
