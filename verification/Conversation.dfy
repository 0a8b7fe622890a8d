/** Turns and chats over a whole session: what reaches memory, history and the listener. */
module Conversation {
  import opened Sequences
  import opened Options
  import opened Classifier
  import opened Reflection

  datatype Role = User | Assistant

  datatype Line = Line(role: Role, text: string)

  datatype Mood = Warm | Wary

  /** One remembered exchange. */
  datatype Memory = Memory(text: string, mood: Mood)

  /** One row of the evaluation ledger. */
  datatype Entry = Entry(text: string, zone: Zone)

  /** A session as it is entered when it begins: its number, season and depth. */
  datatype Record = Record(number: nat, season: string, depth: string, finalized: bool)

  /** What has been built up, and every evaluation the engine was asked for on the way. */
  datatype Session = Session(
    history: seq<Line>, memory: seq<Memory>, ledger: seq<Entry>, emitted: seq<string>, judged: seq<Attempt>,
    records: seq<Record>)

  const HISTORY_LIMIT: nat := 20
  const MAX_TOOL_CALLS: nat := 8

  predicate IsBlank(c: char) {
    c == ' ' || c == '\t' || c == '\r' || c == '\n'
  }

  /** A text without its leading blanks. */
  function Trimmed(text: string): string {
    if |text| > 0 && IsBlank(text[0]) then Trimmed(text[1..]) else text
  }

  /** A text goes through the gate; its outcome is entered in the ledger. */
  ghost function Gated(s: Session, draft: string, voice: Voice): Session {
    var r := Gate(draft, voice);
    s.(ledger := s.ledger + [Entry(r.text, r.verdict.zone)],
       judged := s.judged + Earlier(draft, voice, r.passes + 1))
  }

  function MoodOf(zone: Zone): Mood {
    if zone == AcceptableVariance then Wary else Warm
  }

  /** The oldest two lines go when the history has grown too long. */
  function Bounded(history: seq<Line>): seq<Line> {
    if |history| > HISTORY_LIMIT then history[2..] else history
  }

  /** A delivered text is remembered and joins the history. */
  function Kept(s: Session, text: string, zone: Zone): Session {
    s.(memory := s.memory + [Memory(text, MoodOf(zone))],
       history := Bounded(s.history + [Line(Assistant, text)]))
  }

  /** The end of a turn: an empty response ends silently; any other goes through the gate and out, and is
      kept when the gate did not put it in Violation. */
  ghost function Finalized(s: Session, response: string, voice: Voice): Session {
    var draft := Trimmed(response);
    if draft == "" then s
    else
      var r := Gate(draft, voice);
      var out := Gated(s, draft, voice).(emitted := s.emitted + [r.text]);
      if r.verdict.zone == Violation then out else Kept(out, r.text, r.verdict.zone)
  }

  /** A direct exchange. Its reply is not trimmed and not parsed. */
  ghost function Chatted(s: Session, user: string, raw: string, voice: Voice): Session {
    var r := Gate(raw, voice);
    var out := Gated(s.(history := s.history + [Line(User, user)]), raw, voice).(emitted := s.emitted + [r.text]);
    if r.verdict.zone == Violation then out else Kept(out, r.text, r.verdict.zone)
  }

  // ---------------------------------------------------------------------------------------------
  // The turn
  // ---------------------------------------------------------------------------------------------

  /** What a tool answers: its summary, or its error. */
  datatype ToolResult = ToolResult(ok: bool, text: string)

  /** What the outside world does during one turn: the pieces each stream brings, whether a stop has been
      asked for when stream k is about to start and when it has ended, the tool a call names, what the
      tool answers to call k, and the score the engine gives the text so far. */
  datatype Door = Door(
    stream: nat -> seq<string>, stoppedBefore: nat -> bool, stoppedAfter: nat -> bool,
    toolName: string -> string, result: nat -> ToolResult, score: string -> string)

  /** Something the window is told while a turn runs. */
  datatype Notice = Notice(kind: string, text: string)

  /** How a turn ends: with a response for the gate, or abandoned between two streams; the tool calls run. */
  datatype TurnEnd = TurnEnd(response: Option<string>, streams: nat, calls: seq<string>, run: seq<string>)

  function Joined(pieces: seq<string>): string {
    if |pieces| == 0 then "" else Joined(pieces[..|pieces| - 1]) + pieces[|pieces| - 1]
  }

  /** One stream, classified. */
  function Parsed(pieces: seq<string>): ParsedTurn {
    Classify(Sweep(Joined(pieces), THOUGHT).rest, THOUGHT, TOOL_CALL)
  }

  predicate WantsTool(p: ParsedTurn) {
    p.toolCall.Some? && p.toolCall.value != ""
  }

  /** The calls that name a tool; a call without a name is answered with an error and runs nothing. */
  function Named(calls: seq<string>, name: string -> string): seq<string> {
    if |calls| == 0 then []
    else Named(calls[..|calls| - 1], name) + (if name(calls[|calls| - 1]) == "" then [] else [calls[|calls| - 1]])
  }

  /** The turn from stream number |calls| on, when `parse` classifies its streams: every earlier stream
      ended in a tool call. */
  function TurnWith(parse: nat -> ParsedTurn, door: Door, calls: seq<string>): TurnEnd
    requires |calls| <= MAX_TOOL_CALLS
    decreases MAX_TOOL_CALLS - |calls|
  {
    var k := |calls|;
    if door.stoppedBefore(k) then TurnEnd(None, k, calls, Named(calls, door.toolName))
    else
      var p := parse(k);
      if door.stoppedAfter(k) || !WantsTool(p) || k == MAX_TOOL_CALLS
      then TurnEnd(Some(p.response), k + 1, calls, Named(calls, door.toolName))
      else TurnWith(parse, door, calls + [p.toolCall.value])
  }

  function Parses(door: Door): nat -> ParsedTurn {
    (k: nat) => Parsed(door.stream(k))
  }

  function TurnFrom(door: Door, calls: seq<string>): TurnEnd
    requires |calls| <= MAX_TOOL_CALLS
  {
    TurnWith(Parses(door), door, calls)
  }

  /** How the window is told of a tool's answer. */
  function AnswerNotice(name: string, result: ToolResult): Notice {
    Notice("tool_result",
           if name == "" then "error: tool call missing name"
           else name + "|" + (if result.ok then "1" else "0") + "|" + result.text)
  }

  /** How the driver is told of it. */
  function AnswerLine(name: string, result: ToolResult): Line {
    Line(User,
         if name == "" then "[tool_result error] tool call missing name"
         else "[tool_result name=" + name + " ok=" + (if result.ok then "true" else "false") + "]\n" + result.text)
  }

  function CallLine(call: string): Line {
    Line(Assistant, TOOL_CALL_OPEN + call + TOOL_CALL_CLOSE)
  }

  /** A call as it goes back to the driver, and its answer. */
  datatype Exchange = Exchange(call: Line, answer: Line)

  function Exchanges(door: Door): (nat, string) -> Exchange {
    (k: nat, call: string) => Exchange(CallLine(call), AnswerLine(door.toolName(call), door.result(k)))
  }

  function WorkingWith(history: seq<Line>, exchange: (nat, string) -> Exchange, calls: seq<string>): seq<Line> {
    if |calls| == 0 then history
    else
      var k, call := |calls| - 1, calls[|calls| - 1];
      WorkingWith(history, exchange, calls[..k]) + [exchange(k, call).call, exchange(k, call).answer]
  }

  /** The turn's working history, which the driver is given: every call and its answer behind the history. */
  function Working(history: seq<Line>, door: Door, calls: seq<string>): seq<Line> {
    WorkingWith(history, Exchanges(door), calls)
  }

  function ThoughtNotices(thoughts: seq<string>): seq<Notice> {
    seq(|thoughts|, i requires 0 <= i < |thoughts| => Notice("thought", thoughts[i]))
  }

  const PIECES_A_SCORE: nat := 8

  /** The thoughts that the last piece of a stream completes. */
  function NewThoughts(pieces: seq<string>, m: Markers): seq<string>
    requires Proper(m) && |pieces| > 0
  {
    Sweep(Sweep(Joined(pieces[..|pieces| - 1]), m).rest + pieces[|pieces| - 1], m).blocks
  }

  /** What the window is told of one stream: every thought as it completes, and a score every eight pieces. */
  function Heard(pieces: seq<string>, score: string -> string, m: Markers): seq<Notice>
    requires Proper(m)
  {
    if |pieces| == 0 then []
    else
      Heard(pieces[..|pieces| - 1], score, m) + ThoughtNotices(NewThoughts(pieces, m))
      + (if |pieces| % PIECES_A_SCORE == 0 then [Notice("score", score(Joined(pieces)))] else [])
  }

  /** The thoughts among some notices. */
  function OnlyThoughts(notices: seq<Notice>): seq<string> {
    if |notices| == 0 then []
    else
      var last := notices[|notices| - 1];
      OnlyThoughts(notices[..|notices| - 1]) + (if last.kind == "thought" then [last.text] else [])
  }

  lemma {:induction false} OnlyThoughtsAppend(a: seq<Notice>, b: seq<Notice>)
    ensures OnlyThoughts(a + b) == OnlyThoughts(a) + OnlyThoughts(b)
  {
    if |b| == 0 {
      assert a + b == a;
    } else {
      OnlyThoughtsAppend(a, b[..|b| - 1]);
      assert (a + b)[..|a + b| - 1] == a + b[..|b| - 1];
    }
  }

  lemma {:induction false} OnlyThoughtsOf(thoughts: seq<string>)
    ensures OnlyThoughts(ThoughtNotices(thoughts)) == thoughts
  {
    if |thoughts| > 0 {
      var before := thoughts[..|thoughts| - 1];
      OnlyThoughtsOf(before);
      assert ThoughtNotices(thoughts)[..|thoughts| - 1] == ThoughtNotices(before);
    }
  }

  /** However a stream is cut into pieces, the thoughts the window is told of it are those of the whole text. */
  lemma {:induction false} HeardThoughts(pieces: seq<string>, score: string -> string, m: Markers)
    requires Proper(m)
    ensures OnlyThoughts(Heard(pieces, score, m)) == Sweep(Joined(pieces), m).blocks
  {
    if |pieces| == 0 {
      assert Find("", m.open, 0).None?;
    } else {
      var before, told := pieces[..|pieces| - 1], ThoughtNotices(NewThoughts(pieces, m));
      var scored := if |pieces| % PIECES_A_SCORE == 0 then [Notice("score", score(Joined(pieces)))] else [];
      HeardThoughts(before, score, m);
      SweepInTwo(Joined(before), pieces[|pieces| - 1], m);
      OnlyThoughtsOf(NewThoughts(pieces, m));
      ScoresAreNoThoughts(scored);
      OnlyThoughtsAppend(Heard(before, score, m), told);
      OnlyThoughtsAppend(Heard(before, score, m) + told, scored);
    }
  }

  /** The scores among some notices. */
  function OnlyScores(notices: seq<Notice>): seq<string> {
    if |notices| == 0 then []
    else
      var last := notices[|notices| - 1];
      OnlyScores(notices[..|notices| - 1]) + (if last.kind == "score" then [last.text] else [])
  }

  lemma {:induction false} OnlyScoresAfter(a: seq<Notice>, thoughts: seq<string>)
    ensures OnlyScores(a + ThoughtNotices(thoughts)) == OnlyScores(a)
  {
    var told := ThoughtNotices(thoughts);
    if |thoughts| == 0 {
      assert a + told == a;
    } else {
      var before := thoughts[..|thoughts| - 1];
      OnlyScoresAfter(a, before);
      assert told[..|told| - 1] == ThoughtNotices(before);
      assert (a + told)[..|a + told| - 1] == a + told[..|told| - 1];
      assert (a + told)[|a + told| - 1].kind == "thought";
      assert "thought"[0] != "score"[0];
    }
  }

  lemma {:induction false} OnlyScoresNext(a: seq<Notice>, n: Notice)
    ensures OnlyScores(a + [n]) == OnlyScores(a) + (if n.kind == "score" then [n.text] else [])
  {
    assert (a + [n])[..|a|] == a;
  }

  lemma {:induction false} ScoreOrNone(a: seq<Notice>, due: bool, text: string)
    ensures OnlyScores(a + (if due then [Notice("score", text)] else [])) == OnlyScores(a) + (if due then [text] else [])
  {
    if due {
      OnlyScoresNext(a, Notice("score", text));
    } else {
      assert a + [] == a && OnlyScores(a) + [] == OnlyScores(a);
    }
  }

  lemma {:induction false} HeardNext(pieces: seq<string>, score: string -> string, m: Markers)
    requires Proper(m) && |pieces| > 0
    ensures OnlyScores(Heard(pieces, score, m))
         == OnlyScores(Heard(pieces[..|pieces| - 1], score, m)) + (if |pieces| % 8 == 0 then [score(Joined(pieces))] else [])
  {
    var heard := Heard(pieces[..|pieces| - 1], score, m);
    OnlyScoresAfter(heard, NewThoughts(pieces, m));
    ScoreOrNone(heard + ThoughtNotices(NewThoughts(pieces, m)), |pieces| % 8 == 0, score(Joined(pieces)));
  }

  /** The scores of the text after every eighth piece. */
  function EveryEighth(pieces: seq<string>, score: string -> string): seq<string> {
    if |pieces| == 0 then []
    else EveryEighth(pieces[..|pieces| - 1], score) + (if |pieces| % 8 == 0 then [score(Joined(pieces))] else [])
  }

  /** The scores the window is told of a stream. */
  lemma {:induction false} HeardScores(pieces: seq<string>, score: string -> string, m: Markers)
    requires Proper(m)
    ensures OnlyScores(Heard(pieces, score, m)) == EveryEighth(pieces, score)
  {
    if |pieces| > 0 {
      HeardScores(pieces[..|pieces| - 1], score, m);
      HeardNext(pieces, score, m);
    }
  }

  /** There is one for every eight pieces, and score k is that of the text up to piece 8 k + 8. */
  lemma {:induction false} EighthAt(pieces: seq<string>, score: string -> string, k: nat)
    ensures |EveryEighth(pieces, score)| == |pieces| / 8
    ensures k < |pieces| / 8 ==> EveryEighth(pieces, score)[k] == score(Joined(pieces[..8 * k + 8]))
  {
    if |pieces| > 0 {
      var before := pieces[..|pieces| - 1];
      EighthAt(before, score, k);
      if 8 * k + 8 <= |before| {
        assert before[..8 * k + 8] == pieces[..8 * k + 8];
      }
      assert pieces[..|pieces|] == pieces;
    }
  }

  lemma ScoresAreNoThoughts(scored: seq<Notice>)
    requires |scored| <= 1 && forall i :: 0 <= i < |scored| ==> scored[i].kind == "score"
    ensures OnlyThoughts(scored) == []
  {
    assert "score"[0] != "thought"[0];
    assert |scored| == 1 ==> OnlyThoughts(scored[..0]) == [];
  }

  /** The notices up to the answer to the last of the calls. */
  function CallNotices(door: Door, calls: seq<string>): seq<Notice> {
    if |calls| == 0 then []
    else
      var k, call := |calls| - 1, calls[|calls| - 1];
      CallNotices(door, calls[..k]) + Heard(door.stream(k), door.score, THOUGHT)
      + [Notice("tool_call", call), AnswerNotice(door.toolName(call), door.result(k))]
  }

  /** The notices of a turn: those of all its streams, with the calls and answers between them. */
  function Notices(door: Door, end: TurnEnd): seq<Notice> {
    CallNotices(door, end.calls)
    + (if end.streams > |end.calls| then Heard(door.stream(|end.calls|), door.score, THOUGHT) else [])
  }

  ghost function Turned(s: Session, user: string, door: Door, voice: Voice): Session {
    var end := TurnFrom(door, []);
    var begun := s.(history := s.history + [Line(User, user)]);
    if end.response.None? then begun else Finalized(begun, end.response.value, voice)
  }

  lemma {:induction false} NamedIsShorter(calls: seq<string>, name: string -> string)
    ensures |Named(calls, name)| <= |calls|
    ensures forall c :: c in Named(calls, name) ==> c in calls && name(c) != ""
  {
    if |calls| > 0 {
      NamedIsShorter(calls[..|calls| - 1], name);
    }
  }

  lemma {:induction false} BoundedWith(parse: nat -> ParsedTurn, door: Door, calls: seq<string>)
    requires |calls| <= MAX_TOOL_CALLS
    ensures var end := TurnWith(parse, door, calls);
            && end.streams <= MAX_TOOL_CALLS + 1 && |end.run| <= MAX_TOOL_CALLS
            && (forall c :: c in end.run ==> door.toolName(c) != "")
            && (end.response.Some? ==> end.streams > 0 && end.response.value == parse(end.streams - 1).response)
    decreases MAX_TOOL_CALLS - |calls|
  {
    var k, p := |calls|, parse(|calls|);
    NamedIsShorter(calls, door.toolName);
    if !(door.stoppedBefore(k) || door.stoppedAfter(k) || !WantsTool(p) || k == MAX_TOOL_CALLS) {
      BoundedWith(parse, door, calls + [p.toolCall.value]);
    }
  }

  /** Every turn ends after at most nine streams and at most eight tool runs; a tool is run only for a call
      that names one; and the response is the classified response of the last stream. */
  lemma TurnIsBounded(door: Door)
    ensures var end := TurnFrom(door, []);
            && end.streams <= 9 && |end.run| <= 8
            && (forall c :: c in end.run ==> door.toolName(c) != "")
            && (end.response.Some? ==>
                  end.streams > 0 && end.response.value == Parsed(door.stream(end.streams - 1)).response)
  {
    BoundedWith(Parses(door), door, []);
  }

  /** Stream k neither stops the turn nor ends it: it brings a tool call. */
  ghost predicate GoesOn(door: Door, k: nat) {
    !door.stoppedBefore(k) && !door.stoppedAfter(k) && WantsTool(Parsed(door.stream(k)))
  }

  lemma {:induction false} TurnWithEnds(parse: nat -> ParsedTurn, door: Door, calls: seq<string>, n: nat)
    requires |calls| <= n <= MAX_TOOL_CALLS
    requires forall k :: |calls| <= k < n ==> !door.stoppedBefore(k) && !door.stoppedAfter(k) && WantsTool(parse(k))
    requires door.stoppedBefore(n) || door.stoppedAfter(n) || !WantsTool(parse(n)) || n == MAX_TOOL_CALLS
    ensures var end := TurnWith(parse, door, calls);
            && |end.calls| == n && calls <= end.calls && end.run == Named(end.calls, door.toolName)
            && (forall k :: |calls| <= k < n ==> Some(end.calls[k]) == parse(k).toolCall)
            && (if door.stoppedBefore(n) then end.streams == n && end.response == None
                else end.streams == n + 1 && end.response == Some(parse(n).response))
    decreases n - |calls|
  {
    if |calls| < n {
      TurnWithEnds(parse, door, calls + [parse(|calls|).toolCall.value], n);
    }
  }

  /** Exactly how a turn goes: it ends at the first stream that is stopped or brings no tool call, and at stream
      number 8, the ninth, in any case. Every stream before it has brought a call; the turn has a response, that of
      the last stream, unless it was stopped before that stream. */
  lemma TurnEndsAt(door: Door, n: nat)
    requires n <= 8 && (forall k :: 0 <= k < n ==> GoesOn(door, k)) && (n == 8 || !GoesOn(door, n))
    ensures var end := TurnFrom(door, []);
            && |end.calls| == n && (forall k :: 0 <= k < n ==> Some(end.calls[k]) == Parsed(door.stream(k)).toolCall)
            && end.run == Named(end.calls, door.toolName)
            && (if door.stoppedBefore(n) then end.streams == n && end.response == None
                else end.streams == n + 1 && end.response == Some(Parsed(door.stream(n)).response))
  {
    var parse := Parses(door);
    forall k | 0 <= k < n ensures !door.stoppedBefore(k) && !door.stoppedAfter(k) && WantsTool(parse(k)) {
      assert GoesOn(door, k);
    }
    TurnWithEnds(parse, door, [], n);
  }

  lemma {:induction false} TrimmedIsSuffix(text: string)
    ensures |Trimmed(text)| <= |text| && Trimmed(text) == text[|text| - |Trimmed(text)|..]
    ensures |Trimmed(text)| > 0 ==> !IsBlank(Trimmed(text)[0])
    ensures forall i :: 0 <= i < |text| - |Trimmed(text)| ==> IsBlank(text[i])
  {
    if |text| > 0 && IsBlank(text[0]) {
      TrimmedIsSuffix(text[1..]);
      var cut := |text| - |Trimmed(text)|;
      assert text[1..][cut - 1..] == text[cut..];
      forall i | 0 <= i < cut ensures IsBlank(text[i]) {
        if i > 0 {
          assert text[i] == text[1..][i - 1];
        }
      }
    }
  }

  lemma SuffixHoldsBlock(text: string, cut: nat, m: Markers, b: Block)
    requires cut <= |text| && BlockIn(text[cut..], m, b)
    ensures BlockIn(text, m, Block(b.start + cut, b.end + cut))
  {
    assert text[cut..][b.start..b.start + |m.open|] == text[b.start + cut..b.start + cut + |m.open|];
    assert text[cut..][b.end..b.end + |m.close|] == text[b.end + cut..b.end + cut + |m.close|];
  }

  /** Thoughts stay private in every turn that needed no reflection: what the gate is given holds no
      complete thought, so neither does what it hands on unreflected. */
  lemma {:induction false} UnreflectedTurnHoldsNoThought(pieces: seq<string>, voice: Voice, b: Block)
    ensures var r := Gate(Trimmed(Parsed(pieces).response), voice);
            r.passes == 0 ==> !BlockIn(r.text, THOUGHT, b)
  {
    var response := Parsed(pieces).response;
    var draft := Trimmed(response);
    TrimmedIsSuffix(response);
    var cut := |response| - |draft|;
    ResponseHoldsNoThought(Sweep(Joined(pieces), THOUGHT).rest, THOUGHT, TOOL_CALL, Block(b.start + cut, b.end + cut));
    if BlockIn(draft, THOUGHT, b) {
      SuffixHoldsBlock(response, cut, THOUGHT, b);
      assert false;
    }
  }

  lemma MiddleHoldsBlock(before: string, text: string, after: string, m: Markers, b: Block)
    requires BlockIn(text, m, b)
    ensures BlockIn(before + text + after, m, Block(|before| + b.start, |before| + b.end))
  {
    var whole := before + text + after;
    assert forall i, j :: 0 <= i <= j <= |text| ==> whole[|before| + i..|before| + j] == text[i..j];
  }

  /** A part of a text without complete blocks has none either. */
  lemma MiddleHoldsNone(before: string, text: string, after: string, m: Markers, b: Block)
    requires FindBlock(before + text + after, m).None?
    ensures !BlockIn(text, m, b)
  {
    if BlockIn(text, m, b) {
      MiddleHoldsBlock(before, text, after, m, b);
      FoundBlockIsEarliest(before + text + after, m, Block(|before| + b.start, |before| + b.end));
      assert false;
    }
  }

  lemma TakenHoldsNone(buffer: string, thought: Markers, tool: Markers, t: Block, b: Block)
    requires FindBlock(buffer, thought).None? && BlockIn(buffer, tool, t)
    ensures !BlockIn(tool.open + Inside(buffer, tool, t) + tool.close, thought, b)
  {
    var before, inside, after := buffer[..t.start], Inside(buffer, tool, t), buffer[t.end + |tool.close|..];
    var line := tool.open + inside + tool.close;
    FivePieces(buffer, tool, t);
    MiddleThree(before, tool.open, inside, tool.close, after);
    MiddleHoldsNone(before, line, after, thought, b);
  }

  /** A call goes back to the driver without any complete thought in it. */
  lemma CallHoldsNoThought(pieces: seq<string>, b: Block)
    requires Parsed(pieces).toolCall.Some?
    ensures !BlockIn(CallLine(Parsed(pieces).toolCall.value).text, THOUGHT, b)
  {
    var buffer := Sweep(Joined(pieces), THOUGHT).rest;
    SweepLeavesNoBlock(Joined(pieces), THOUGHT);
    FoundBlockIsThere(buffer, TOOL_CALL);
    TakenHoldsNone(buffer, THOUGHT, TOOL_CALL, FindBlock(buffer, TOOL_CALL).value, b);
  }

  /** Call k of a turn is the one its stream k was classified with. */
  ghost predicate CallsAreParsed(door: Door, calls: seq<string>) {
    forall k :: 0 <= k < |calls| ==> Parsed(door.stream(k)).toolCall == Some(calls[k])
  }

  ghost predicate CallsAre(parse: nat -> ParsedTurn, calls: seq<string>) {
    forall k :: 0 <= k < |calls| ==> parse(k).toolCall == Some(calls[k])
  }

  lemma {:induction false} CallsComeWith(parse: nat -> ParsedTurn, door: Door, calls: seq<string>)
    requires |calls| <= MAX_TOOL_CALLS && CallsAre(parse, calls)
    ensures var end := TurnWith(parse, door, calls);
            CallsAre(parse, end.calls) && |end.calls| <= end.streams <= |end.calls| + 1
    decreases MAX_TOOL_CALLS - |calls|
  {
    var k, p := |calls|, parse(|calls|);
    if !(door.stoppedBefore(k) || door.stoppedAfter(k) || !WantsTool(p) || k == MAX_TOOL_CALLS) {
      CallsComeWith(parse, door, calls + [p.toolCall.value]);
    }
  }

  lemma CallsComeFromStreams(door: Door)
    ensures var end := TurnFrom(door, []);
            CallsAreParsed(door, end.calls) && |end.calls| <= end.streams <= |end.calls| + 1
  {
    CallsComeWith(Parses(door), door, []);
    var calls := TurnFrom(door, []).calls;
    forall k | 0 <= k < |calls| ensures Parsed(door.stream(k)).toolCall == Some(calls[k]) {
      assert Parses(door)(k).toolCall == Some(calls[k]);
    }
  }

  lemma {:induction false} WorkingGrows(history: seq<Line>, exchange: (nat, string) -> Exchange, calls: seq<string>)
    ensures |WorkingWith(history, exchange, calls)| == |history| + 2 * |calls|
    ensures WorkingWith(history, exchange, calls)[..|history|] == history
  {
    if |calls| > 0 {
      WorkingGrows(history, exchange, calls[..|calls| - 1]);
    }
  }

  /** Where call k and its answer stand in the working history. */
  lemma {:induction false} WorkingAt(
    history: seq<Line>, exchange: (nat, string) -> Exchange, calls: seq<string>, k: nat)
    requires k < |calls|
    ensures var working, i := WorkingWith(history, exchange, calls), |history| + 2 * k;
            && i + 1 < |working| && working[i] == exchange(k, calls[k]).call
            && working[i + 1] == exchange(k, calls[k]).answer
  {
    var last := |calls| - 1;
    WorkingGrows(history, exchange, calls[..last]);
    if k < last {
      WorkingAt(history, exchange, calls[..last], k);
    }
  }

  /** What the window and the driver are told of a tool's answer, word for word. */
  lemma AnswersRead(name: string, result: ToolResult)
    ensures name == "" ==>
              && AnswerNotice(name, result) == Notice("tool_result", "error: tool call missing name")
              && AnswerLine(name, result) == Line(User, "[tool_result error] tool call missing name")
    ensures name != "" && result.ok ==>
              && AnswerNotice(name, result) == Notice("tool_result", name + "|1|" + result.text)
              && AnswerLine(name, result) == Line(User, "[tool_result name=" + name + " ok=true]\n" + result.text)
    ensures name != "" && !result.ok ==>
              && AnswerNotice(name, result) == Notice("tool_result", name + "|0|" + result.text)
              && AnswerLine(name, result) == Line(User, "[tool_result name=" + name + " ok=false]\n" + result.text)
  {
    assert (name + "|") + "1" + "|" == name + "|1|" && (name + "|") + "0" + "|" == name + "|0|";
    var open := "[tool_result name=" + name;
    assert open + " ok=" + "true" + "]\n" == open + " ok=true]\n";
    assert open + " ok=" + "false" + "]\n" == open + " ok=false]\n";
  }

  /** Thoughts stay private within a turn: whatever the streams bring and however they are cut, the working
      history is the history with two lines more for every call, the call and its answer, and no call line
      holds a complete thought. */
  lemma TurnSendsNoThoughtBack(history: seq<Line>, door: Door, k: nat, b: Block)
    requires k < |TurnFrom(door, []).calls|
    ensures var calls, i := TurnFrom(door, []).calls, |history| + 2 * k;
            var working := Working(history, door, calls);
            && |working| == |history| + 2 * |calls| && working[..|history|] == history
            && working[i] == CallLine(calls[k]) && !BlockIn(working[i].text, THOUGHT, b)
            && working[i + 1] == AnswerLine(door.toolName(calls[k]), door.result(k))
  {
    var calls := TurnFrom(door, []).calls;
    CallsComeFromStreams(door);
    WorkingGrows(history, Exchanges(door), calls);
    WorkingAt(history, Exchanges(door), calls, k);
    CallHoldsNoThought(door.stream(k), b);
  }

  // ---------------------------------------------------------------------------------------------
  // Whole sessions
  // ---------------------------------------------------------------------------------------------

  /** Something that happens: a session begins and the conversation starts anew, a chat, a turn, or a
      voluntary utterance (which is dropped when it is no more than a greeting). */
  datatype Event =
    | Begin(season: string, depth: string)
    | Chat(user: string, raw: string, voice: Voice)
    | Turn(user: string, door: Door, voice: Voice)
    | Voluntary(pieces: seq<string>, greetingOnly: bool, voice: Voice)

  ghost function Happened(s: Session, e: Event): Session {
    match e
    case Begin(season, depth) =>
      s.(history := [], records := s.records + [Record(|s.records| + 1, season, depth, false)])
    case Chat(user, raw, voice) => Chatted(s, user, raw, voice)
    case Turn(user, door, voice) => Turned(s, user, door, voice)
    case Voluntary(pieces, greetingOnly, voice) =>
      if greetingOnly then s else Finalized(s, Parsed(pieces).response, voice)
  }

  ghost function SessionAfter(events: seq<Event>): Session {
    if |events| == 0 then Session([], [], [], [], [], [])
    else Happened(SessionAfter(events[..|events| - 1]), events[|events| - 1])
  }

  /** What the ledger says should be remembered: every entry outside Violation, in order. */
  function Remembered(ledger: seq<Entry>): seq<Memory> {
    if |ledger| == 0 then []
    else
      var last := ledger[|ledger| - 1];
      Remembered(ledger[..|ledger| - 1])
      + (match last.zone
         case Aligned => [Memory(last.text, Warm)]
         case AcceptableVariance => [Memory(last.text, Wary)]
         case Violation => [])
  }

  /** The texts of a list of memories. */
  function Texts(memory: seq<Memory>): (r: seq<string>)
    ensures |r| == |memory|
  {
    if |memory| == 0 then [] else Texts(memory[..|memory| - 1]) + [memory[|memory| - 1].text]
  }

  /** The assistant's lines of a history. */
  function Spoken(history: seq<Line>): seq<string> {
    if |history| == 0 then []
    else
      var last := history[|history| - 1];
      Spoken(history[..|history| - 1]) + (if last.role == Assistant then [last.text] else [])
  }

  /** The engine was asked about exactly this text and put it outside Violation: it is remembered warmly when
      the verdict was aligned, and warily when it was acceptable variance. */
  ghost predicate Cleared(m: Memory, judged: seq<Attempt>) {
    exists i :: 0 <= i < |judged| && judged[i].text == m.text
             && judged[i].verdict.zone == (match m.mood case Warm => Aligned case Wary => AcceptableVariance)
  }

  ghost predicate AllCleared(memory: seq<Memory>, judged: seq<Attempt>) {
    forall i :: 0 <= i < |memory| ==> Cleared(memory[i], judged)
  }

  /** The assistant's lines still in the history are the last texts remembered. */
  ghost predicate SpokenIsRemembered(history: seq<Line>, memory: seq<Memory>) {
    exists cut :: 0 <= cut <= |memory| && Spoken(history) == Texts(memory)[cut..]
  }

  ghost predicate Safe(s: Session) {
    && s.memory == Remembered(s.ledger)
    && AllCleared(s.memory, s.judged)
    && SpokenIsRemembered(s.history, s.memory)
  }

  lemma MoreJudged(memory: seq<Memory>, judged: seq<Attempt>, more: seq<Attempt>)
    requires AllCleared(memory, judged)
    ensures AllCleared(memory, judged + more)
  {
    forall i | 0 <= i < |memory| ensures Cleared(memory[i], judged + more) {
      assert Cleared(memory[i], judged);
      var j :| 0 <= j < |judged| && judged[j].text == memory[i].text
            && judged[j].verdict.zone == (match memory[i].mood case Warm => Aligned case Wary => AcceptableVariance);
      assert (judged + more)[j] == judged[j];
    }
  }

  lemma {:induction false} SpokenFirst(first: Line, rest: seq<Line>)
    ensures Spoken([first] + rest) == (if first.role == Assistant then [first.text] else []) + Spoken(rest)
  {
    if |rest| == 0 {
      assert ([first] + rest)[..0] == [];
      assert Spoken([]) == [];
    } else {
      var init := rest[..|rest| - 1];
      SpokenFirst(first, init);
      assert ([first] + rest)[..|rest|] == [first] + init;
    }
  }

  lemma SuffixTail(texts: seq<string>, cut: nat, first: seq<string>, rest: seq<string>)
    requires cut <= |texts| && |first| == 1 && first + rest == texts[cut..]
    ensures cut < |texts| && rest == texts[cut + 1..]
  {
    assert |first + rest| == |texts| - cut;
    assert rest == texts[cut..][1..];
  }

  /** Dropping the oldest line drops at most the oldest spoken text. */
  lemma DropOldest(history: seq<Line>, memory: seq<Memory>)
    requires |history| > 0 && SpokenIsRemembered(history, memory)
    ensures SpokenIsRemembered(history[1..], memory)
  {
    assert history == [history[0]] + history[1..];
    SpokenFirst(history[0], history[1..]);
    var cut :| 0 <= cut <= |memory| && Spoken(history) == Texts(memory)[cut..];
    if history[0].role == Assistant {
      SuffixTail(Texts(memory), cut, [history[0].text], Spoken(history[1..]));
      assert Spoken(history[1..]) == Texts(memory)[cut + 1..];
    } else {
      assert [] + Spoken(history[1..]) == Spoken(history[1..]);
    }
  }

  lemma UserSpeaks(history: seq<Line>, memory: seq<Memory>, text: string)
    requires SpokenIsRemembered(history, memory)
    ensures SpokenIsRemembered(history + [Line(User, text)], memory)
  {
    assert (history + [Line(User, text)])[..|history|] == history;
    assert Spoken(history + [Line(User, text)]) == Spoken(history);
  }

  lemma AssistantSpeaks(history: seq<Line>, memory: seq<Memory>, m: Memory)
    requires SpokenIsRemembered(history, memory)
    ensures SpokenIsRemembered(history + [Line(Assistant, m.text)], memory + [m])
  {
    var cut :| 0 <= cut <= |memory| && Spoken(history) == Texts(memory)[cut..];
    assert (history + [Line(Assistant, m.text)])[..|history|] == history;
    assert (memory + [m])[..|memory|] == memory;
    assert Texts(memory + [m])[cut..] == Texts(memory)[cut..] + [m.text];
    assert Spoken(history + [Line(Assistant, m.text)]) == Texts(memory + [m])[cut..];
  }

  lemma TrimKeeps(history: seq<Line>, memory: seq<Memory>)
    requires SpokenIsRemembered(history, memory)
    ensures SpokenIsRemembered(Bounded(history), memory)
  {
    if |history| > HISTORY_LIMIT {
      DropOldest(history, memory);
      DropOldest(history[1..], memory);
      assert history[1..][1..] == history[2..];
    }
  }

  lemma {:induction false} LedgerGrows(ledger: seq<Entry>, e: Entry)
    ensures Remembered(ledger + [e])
         == Remembered(ledger) + (if e.zone == Violation then [] else [Memory(e.text, MoodOf(e.zone))])
  {
    assert (ledger + [e])[..|ledger|] == ledger;
  }

  lemma ClearedToo(memory: seq<Memory>, m: Memory, judged: seq<Attempt>)
    requires AllCleared(memory, judged) && Cleared(m, judged)
    ensures AllCleared(memory + [m], judged)
  {
  }

  /** A text that passed with a verdict of its own can be kept. */
  lemma PassKeepsSafe(s: Session, r: Outcome, more: seq<Attempt>, emitted: seq<string>)
    requires Safe(s) && r.verdict.zone != Violation
    requires r.passes < |more| && more[r.passes] == Attempt(r.text, r.verdict)
    ensures var entry := Entry(r.text, r.verdict.zone);
            Safe(Kept(s.(ledger := s.ledger + [entry], judged := s.judged + more, emitted := emitted),
                      r.text, r.verdict.zone))
  {
    var judged, m := s.judged + more, Memory(r.text, MoodOf(r.verdict.zone));
    LedgerGrows(s.ledger, Entry(r.text, r.verdict.zone));
    MoreJudged(s.memory, s.judged, more);
    assert judged[|s.judged| + r.passes] == Attempt(r.text, r.verdict);
    assert Cleared(m, judged);
    ClearedToo(s.memory, m, judged);
    AssistantSpeaks(s.history, s.memory, m);
    TrimKeeps(s.history + [Line(Assistant, r.text)], s.memory + [m]);
  }

  lemma WithholdingKeepsSafe(s: Session, text: string, more: seq<Attempt>, emitted: seq<string>)
    requires Safe(s)
    ensures Safe(s.(ledger := s.ledger + [Entry(text, Violation)], judged := s.judged + more, emitted := emitted))
  {
    LedgerGrows(s.ledger, Entry(text, Violation));
    MoreJudged(s.memory, s.judged, more);
    assert Remembered(s.ledger) + [] == Remembered(s.ledger);
  }

  /** Gating a draft and keeping what passes keeps the session safe. */
  lemma GateKeepsSafe(s: Session, draft: string, voice: Voice)
    requires Safe(s)
    ensures var r := Gate(draft, voice);
            var out := Gated(s, draft, voice).(emitted := s.emitted + [r.text]);
            Safe(if r.verdict.zone == Violation then out else Kept(out, r.text, r.verdict.zone))
  {
    var r, more := GateOutcome(draft, voice);
    if r.verdict.zone != Violation {
      PassKeepsSafe(s, r, more, s.emitted + [r.text]);
    } else {
      WithholdingKeepsSafe(s, r.text, more, s.emitted + [r.text]);
    }
  }

  /** The gate's outcome and the evaluations made for it; a passed text is the last one evaluated. */
  lemma GateOutcome(draft: string, voice: Voice) returns (r: Outcome, more: seq<Attempt>)
    ensures r == Gate(draft, voice) && more == Earlier(draft, voice, r.passes + 1)
    ensures r.verdict.zone != Violation ==> more[r.passes] == Attempt(r.text, r.verdict)
  {
    r := Gate(draft, voice);
    more := Earlier(draft, voice, r.passes + 1);
    if r.verdict.zone != Violation {
      PassedTextWasJudged(draft, voice, r);
      EarlierAt(draft, voice, r.passes + 1, r.passes);
    }
  }

  lemma NothingSpoken(memory: seq<Memory>)
    ensures SpokenIsRemembered([], memory)
  {
    assert Spoken([]) == Texts(memory)[|memory|..];
  }

  lemma EventKeepsSafe(s: Session, e: Event)
    requires Safe(s)
    ensures Safe(Happened(s, e))
  {
    match e {
      case Begin(_, _) => NothingSpoken(s.memory);
      case Chat(user, raw, voice) =>
        UserSpeaks(s.history, s.memory, user);
        GateKeepsSafe(s.(history := s.history + [Line(User, user)]), raw, voice);
      case Turn(user, door, voice) =>
        UserSpeaks(s.history, s.memory, user);
        var end := TurnFrom(door, []);
        var begun := s.(history := s.history + [Line(User, user)]);
        if end.response.Some? {
          FinalizeKeepsSafe(begun, end.response.value, voice);
        }
      case Voluntary(pieces, greetingOnly, voice) =>
        if !greetingOnly {
          FinalizeKeepsSafe(s, Parsed(pieces).response, voice);
        }
    }
  }

  lemma FinalizeKeepsSafe(s: Session, response: string, voice: Voice)
    requires Safe(s)
    ensures Safe(Finalized(s, response, voice))
  {
    if Trimmed(response) != "" {
      GateKeepsSafe(s, Trimmed(response), voice);
    }
  }

  /** Over every session, whatever the driver, the engine, the tools and the stop button do: memory is
      exactly the ledger's entries outside Violation, in order; every memory was put outside Violation by
      an evaluation of that very text; and the assistant's lines in the history are the last of them. */
  lemma {:induction false} SessionIsSafe(events: seq<Event>)
    ensures Safe(SessionAfter(events))
  {
    if |events| == 0 {
      NothingSpoken([]);
    } else {
      SessionIsSafe(events[..|events| - 1]);
      EventKeepsSafe(SessionAfter(events[..|events| - 1]), events[|events| - 1]);
    }
  }

  /** What an event has to say: a chat its whole reply, a turn and a voluntary utterance what stands behind the
      leading blanks of their responses; a mere greeting, an abandoned turn and a blank response say nothing. */
  ghost function Draft(e: Event): Option<string> {
    match e
    case Begin(_, _) => None
    case Chat(_, raw, _) => Some(raw)
    case Turn(_, door, _) => match TurnFrom(door, []).response { case None => None case Some(text) => Unblank(text) }
    case Voluntary(pieces, greetingOnly, _) => if greetingOnly then None else Unblank(Parsed(pieces).response)
  }

  ghost function Unblank(text: string): Option<string> {
    if Trimmed(text) == "" then None else Some(Trimmed(text))
  }

  /** What the gate makes of it. */
  ghost function Answer(e: Event): seq<Entry> {
    var draft := Draft(e);
    if e.Begin? || draft.None? then []
    else
      var r := Gate(draft.value, e.voice);
      [Entry(r.text, r.verdict.zone)]
  }

  ghost function Answers(events: seq<Event>): seq<Entry> {
    if |events| == 0 then [] else Answers(events[..|events| - 1]) + Answer(events[|events| - 1])
  }

  function EntryTexts(entries: seq<Entry>): seq<string> {
    if |entries| == 0 then [] else EntryTexts(entries[..|entries| - 1]) + [entries[|entries| - 1].text]
  }

  lemma {:induction false} OneAnswer(s: Session, e: Event)
    ensures Happened(s, e).ledger == s.ledger + Answer(e)
    ensures Happened(s, e).emitted == s.emitted + (if Answer(e) == [] then [] else [Answer(e)[0].text])
  {
    assert s.ledger + [] == s.ledger && s.emitted + [] == s.emitted;
  }

  lemma {:induction false} EntryTextsAppend(entries: seq<Entry>, more: seq<Entry>)
    requires |more| <= 1
    ensures EntryTexts(entries + more) == EntryTexts(entries) + (if more == [] then [] else [more[0].text])
  {
    if more == [] {
      assert entries + more == entries;
    } else {
      assert (entries + more)[..|entries|] == entries;
    }
  }

  /** Over every session each draft is answered once and in order: the ledger has what the gate made of each, and
      the listener is told exactly the texts the ledger has. */
  lemma {:induction false} EveryDraftIsAnswered(events: seq<Event>)
    ensures var s := SessionAfter(events); s.ledger == Answers(events) && s.emitted == EntryTexts(s.ledger)
  {
    if |events| > 0 {
      var before, e := events[..|events| - 1], events[|events| - 1];
      EveryDraftIsAnswered(before);
      OneAnswer(SessionAfter(before), e);
      EntryTextsAppend(SessionAfter(before).ledger, Answer(e));
    }
  }

  // ---------------------------------------------------------------------------------------------
  // How long the history gets
  // ---------------------------------------------------------------------------------------------

  /** The last lines, twenty at most. */
  function LastTwenty(lines: seq<Line>): seq<Line> {
    if |lines| <= 20 then lines else lines[|lines| - 20..]
  }

  /** A chat whose answer is put outside Violation. */
  ghost predicate Delivers(e: Event) {
    e.Chat? && Gate(e.raw, e.voice).verdict.zone != Violation
  }

  /** All that was said, by the user and in answer. */
  ghost function Said(events: seq<Event>): seq<Line>
    requires forall i :: 0 <= i < |events| ==> Delivers(events[i])
  {
    if |events| == 0 then []
    else
      var e := events[|events| - 1];
      assert Delivers(e);
      Said(events[..|events| - 1]) + [Line(User, e.user)] + [Line(Assistant, Gate(e.raw, e.voice).text)]
  }

  lemma TwoMoreLines(lines: seq<Line>, a: Line, b: Line)
    requires |lines| % 2 == 0
    ensures Bounded(LastTwenty(lines) + [a] + [b]) == LastTwenty(lines + [a] + [b])
  {
  }

  /** While every chat since the session began is answered outside Violation, the history is the last twenty lines
      of all that was said in it. */
  lemma {:induction false} HistoryIsRecent(before: seq<Event>, chats: seq<Event>)
    requires before == [] || before[|before| - 1].Begin?
    requires forall i :: 0 <= i < |chats| ==> Delivers(chats[i])
    ensures |Said(chats)| == 2 * |chats| && SessionAfter(before + chats).history == LastTwenty(Said(chats))
    decreases |chats|, 1
  {
    if |chats| == 0 {
      NothingSaidYet(before, chats);
    } else {
      var init, e := chats[..|chats| - 1], chats[|chats| - 1];
      var s := HistoryBefore(before, init);
      InitAndLast(before, chats, init, e);
      SessionNext(before + init, e, before + chats);
      HistoryNext(s, e, init, chats);
    }
  }

  lemma InitAndLast(before: seq<Event>, chats: seq<Event>, init: seq<Event>, e: Event)
    requires |chats| > 0 && init == chats[..|chats| - 1] && e == chats[|chats| - 1]
    ensures chats == init + [e] && before + chats == (before + init) + [e]
  {
  }

  lemma {:induction false} HistoryBefore(before: seq<Event>, chats: seq<Event>) returns (s: Session)
    requires before == [] || before[|before| - 1].Begin?
    requires forall i :: 0 <= i < |chats| ==> Delivers(chats[i])
    ensures s == SessionAfter(before + chats) && |Said(chats)| == 2 * |chats| && s.history == LastTwenty(Said(chats))
    decreases |chats|, 2
  {
    HistoryIsRecent(before, chats);
    s := SessionAfter(before + chats);
  }

  lemma {:induction false} NothingSaidYet(before: seq<Event>, chats: seq<Event>)
    requires chats == [] && (before == [] || before[|before| - 1].Begin?)
    ensures |Said(chats)| == 0 && SessionAfter(before + chats).history == LastTwenty(Said(chats))
  {
    assert before + chats == before;
  }

  lemma {:induction false} HistoryNext(s: Session, e: Event, init: seq<Event>, chats: seq<Event>)
    requires chats == init + [e] && Delivers(e) && forall i :: 0 <= i < |init| ==> Delivers(init[i])
    requires s.history == LastTwenty(Said(init)) && |Said(init)| == 2 * |init|
    ensures forall i :: 0 <= i < |chats| ==> Delivers(chats[i])
    ensures |Said(chats)| == 2 * |chats| && Happened(s, e).history == LastTwenty(Said(chats))
  {
    assert chats[..|init|] == init;
    TwoMoreLines(Said(init), Line(User, e.user), Line(Assistant, Gate(e.raw, e.voice).text));
    ChatKept(s, e);
  }

  lemma {:induction false} SessionNext(events: seq<Event>, e: Event, all: seq<Event>)
    requires all == events + [e]
    ensures SessionAfter(all) == Happened(SessionAfter(events), e)
  {
    assert all[..|events|] == events;
  }

  lemma ChatKept(s: Session, e: Event)
    requires Delivers(e)
    ensures Happened(s, e).history
         == Bounded(s.history + [Line(User, e.user)] + [Line(Assistant, Gate(e.raw, e.voice).text)])
  {
  }

  // ---------------------------------------------------------------------------------------------
  // What reaches the listener
  // ---------------------------------------------------------------------------------------------

  /** The refusal, or a text the engine was asked about and put outside Violation. */
  ghost predicate Fit(text: string, judged: seq<Attempt>) {
    text == REFUSAL || exists i :: 0 <= i < |judged| && judged[i].text == text && judged[i].verdict.zone != Violation
  }

  ghost predicate AllFit(emitted: seq<string>, judged: seq<Attempt>) {
    forall i :: 0 <= i < |emitted| ==> Fit(emitted[i], judged)
  }

  /** The driver is there to reflect with. */
  predicate HasDriver(e: Event) {
    e.Begin? || e.voice.connected
  }

  lemma StaysFit(text: string, judged: seq<Attempt>, more: seq<Attempt>)
    requires Fit(text, judged) || Fit(text, more)
    ensures Fit(text, judged + more)
  {
    if text != REFUSAL {
      if Fit(text, judged) {
        var i :| 0 <= i < |judged| && judged[i].text == text && judged[i].verdict.zone != Violation;
        assert (judged + more)[i] == judged[i];
      } else {
        var i :| 0 <= i < |more| && more[i].text == text && more[i].verdict.zone != Violation;
        assert (judged + more)[|judged| + i] == more[i];
      }
    }
  }

  lemma {:induction false} GateIsFit(draft: string, voice: Voice)
    requires voice.connected
    ensures var r := Gate(draft, voice); Fit(r.text, Earlier(draft, voice, r.passes + 1))
  {
    var r := Gate(draft, voice);
    if r.verdict.zone == Violation {
      ViolatingDraftLeaks(draft, voice, r);
    } else {
      PassedTextWasJudged(draft, voice, r);
      EarlierAt(draft, voice, r.passes + 1, r.passes);
      assert Earlier(draft, voice, r.passes + 1)[r.passes] == Attempt(r.text, r.verdict);
    }
  }

  /** Gating a draft and handing on what comes out keeps all that is handed on fit. */
  lemma {:induction false} GateKeepsFit(emitted: seq<string>, judged: seq<Attempt>, draft: string, voice: Voice)
    requires voice.connected && AllFit(emitted, judged)
    ensures var r := Gate(draft, voice);
            AllFit(emitted + [r.text], judged + Earlier(draft, voice, r.passes + 1))
  {
    var r := Gate(draft, voice);
    var more := Earlier(draft, voice, r.passes + 1);
    GateIsFit(draft, voice);
    forall i | 0 <= i < |emitted + [r.text]| ensures Fit((emitted + [r.text])[i], judged + more) {
      StaysFit((emitted + [r.text])[i], judged, more);
    }
  }

  lemma EventKeepsFit(s: Session, e: Event)
    requires HasDriver(e) && AllFit(s.emitted, s.judged)
    ensures AllFit(Happened(s, e).emitted, Happened(s, e).judged)
  {
    match e {
      case Begin(_, _) =>
      case Chat(user, raw, voice) => GateKeepsFit(s.emitted, s.judged, raw, voice);
      case Turn(user, door, voice) =>
        var end := TurnFrom(door, []);
        if end.response.Some? {
          GateKeepsFit(s.emitted, s.judged, Trimmed(end.response.value), voice);
        }
      case Voluntary(pieces, greetingOnly, voice) =>
        GateKeepsFit(s.emitted, s.judged, Trimmed(Parsed(pieces).response), voice);
    }
  }

  /** Over every session in which the driver is always there to reflect with, everything that reaches the
      listener is the refusal or was put outside Violation by an evaluation of that very text. Without the
      driver a violating draft reaches the listener: `Reflection.ViolatingDraftLeaks`. */
  lemma {:induction false} EverythingEmittedIsFit(events: seq<Event>)
    requires forall i :: 0 <= i < |events| ==> HasDriver(events[i])
    ensures AllFit(SessionAfter(events).emitted, SessionAfter(events).judged)
  {
    if |events| > 0 {
      var before := events[..|events| - 1];
      assert forall i :: 0 <= i < |before| ==> before[i] == events[i];
      EverythingEmittedIsFit(before);
      EventKeepsFit(SessionAfter(before), events[|events| - 1]);
    }
  }

  /** The sessions are numbered from one in the order in which they began. */
  lemma {:induction false} SessionsAreNumbered(events: seq<Event>, i: nat)
    requires i < |SessionAfter(events).records|
    ensures SessionAfter(events).records[i].number == i + 1
  {
    var before, e := events[..|events| - 1], events[|events| - 1];
    RecordsGrow(SessionAfter(before), e);
    if i < |SessionAfter(before).records| {
      SessionsAreNumbered(before, i);
    }
  }

  lemma RecordsGrow(s: Session, e: Event)
    ensures Happened(s, e).records
         == s.records + (if e.Begin? then [Record(|s.records| + 1, e.season, e.depth, false)] else [])
  {
  }
}
