/** The turn classifier: an incremental sweep over a token stream, for any pair of block markers. */
module Classifier {
  import opened Sequences
  import opened Options

  const THOUGHT_OPEN: string := "[thought]"
  const THOUGHT_CLOSE: string := "[/thought]"
  const TOOL_CALL_OPEN: string := "<tool_call>"
  const TOOL_CALL_CLOSE: string := "</tool_call>"

  /** What opens a block and what closes it. */
  datatype Markers = Markers(open: string, close: string)

  const THOUGHT: Markers := Markers(THOUGHT_OPEN, THOUGHT_CLOSE)
  const TOOL_CALL: Markers := Markers(TOOL_CALL_OPEN, TOOL_CALL_CLOSE)

  ghost predicate Proper(m: Markers) {
    |m.open| > 0 && |m.close| > 0
  }

  ghost predicate Matches(text: string, pattern: string, i: nat) {
    i + |pattern| <= |text| && text[i..i + |pattern|] == pattern
  }

  /** The first place at or after `from` where the pattern stands. */
  function Find(text: string, pattern: string, from: nat): Option<nat>
    decreases |text| - from
  {
    if from + |pattern| > |text| then None
    else if text[from..from + |pattern|] == pattern then Some(from)
    else if from == |text| then None
    else Find(text, pattern, from + 1)
  }

  lemma {:induction false} FindIsFirst(text: string, pattern: string, from: nat)
    ensures var r := Find(text, pattern, from);
            && (r.Some? ==> from <= r.value && Matches(text, pattern, r.value))
            && (forall i :: from <= i && (r.Some? ==> i < r.value) ==> !Matches(text, pattern, i))
    decreases |text| - from
  {
    if from + |pattern| <= |text| && text[from..from + |pattern|] != pattern && from < |text| {
      FindIsFirst(text, pattern, from + 1);
    }
  }

  lemma FindStands(text: string, pattern: string, from: nat)
    requires Find(text, pattern, from).Some?
    ensures from <= Find(text, pattern, from).value && Matches(text, pattern, Find(text, pattern, from).value)
  {
    FindIsFirst(text, pattern, from);
  }

  /** A pattern that stands somewhere is found, there or before. */
  lemma FindBefore(text: string, pattern: string, from: nat, i: nat)
    requires from <= i && Matches(text, pattern, i)
    ensures Find(text, pattern, from).Some? && from <= Find(text, pattern, from).value <= i
  {
    FindIsFirst(text, pattern, from);
  }

  /** A pattern found in a text is found at the same place when more text arrives. */
  lemma {:induction false} FindIsStable(text: string, pattern: string, from: nat, more: string)
    requires Find(text, pattern, from).Some?
    ensures Find(text + more, pattern, from) == Find(text, pattern, from)
    decreases |text| - from
  {
    assert (text + more)[from..from + |pattern|] == text[from..from + |pattern|];
    if text[from..from + |pattern|] != pattern {
      FindIsStable(text, pattern, from + 1, more);
    }
  }

  /** A complete block: where its opening marker starts and where its closing marker starts. */
  datatype Block = Block(start: nat, end: nat)

  function FindBlock(text: string, m: Markers): Option<Block> {
    var open := Find(text, m.open, 0);
    if open.None? then None
    else
      var close := Find(text, m.close, open.value + |m.open|);
      if close.None? then None else Some(Block(open.value, close.value))
  }

  ghost predicate BlockIn(text: string, m: Markers, b: Block) {
    && Matches(text, m.open, b.start)
    && b.start + |m.open| <= b.end
    && Matches(text, m.close, b.end)
  }

  lemma FoundBlockIsThere(text: string, m: Markers)
    requires FindBlock(text, m).Some?
    ensures BlockIn(text, m, FindBlock(text, m).value)
  {
    var open := Find(text, m.open, 0).value;
    FindStands(text, m.open, 0);
    FindStands(text, m.close, open + |m.open|);
  }

  /** The block found is the earliest opening with the earliest closing behind it. */
  lemma FoundBlockIsEarliest(text: string, m: Markers, b: Block)
    requires BlockIn(text, m, b)
    ensures FindBlock(text, m).Some?
    ensures FindBlock(text, m).value.start <= b.start
    ensures b.start == FindBlock(text, m).value.start ==> FindBlock(text, m).value.end <= b.end
  {
    FindBefore(text, m.open, 0, b.start);
    FindBefore(text, m.close, Find(text, m.open, 0).value + |m.open|, b.end);
  }

  lemma FindBlockIsStable(text: string, m: Markers, more: string)
    requires FindBlock(text, m).Some?
    ensures FindBlock(text + more, m) == FindBlock(text, m)
  {
    FindIsStable(text, m.open, 0, more);
    FindIsStable(text, m.close, Find(text, m.open, 0).value + |m.open|, more);
  }

  /** What stands between the markers. */
  function Inside(text: string, m: Markers, b: Block): string
    requires b.start + |m.open| <= b.end <= |text|
  {
    text[b.start + |m.open|..b.end]
  }

  /** The text with the whole block erased. */
  function Without(text: string, m: Markers, b: Block): string
    requires b.start <= b.end && b.end + |m.close| <= |text|
  {
    text[..b.start] + text[b.end + |m.close|..]
  }

  /** What a sweep leaves, and the blocks it took out, in order. */
  datatype Swept = Swept(rest: string, blocks: seq<string>)

  function Sweep(text: string, m: Markers): Swept
    requires Proper(m)
    decreases |text|, 1
  {
    var found := FindBlock(text, m);
    if found.None? then Swept(text, [])
    else
      FoundBlockIsThere(text, m);
      SweepOn(text, m, found.value)
  }

  /** Take out one block and sweep what is left. */
  function SweepOn(text: string, m: Markers, b: Block): Swept
    requires Proper(m) && BlockIn(text, m, b)
    decreases |text|, 0
  {
    var after := Sweep(Without(text, m, b), m);
    Swept(after.rest, [Inside(text, m, b)] + after.blocks)
  }

  lemma ErasureIsLocal(a: string, b: string, m: Markers, block: Block)
    requires BlockIn(a, m, block)
    ensures BlockIn(a + b, m, block)
    ensures Without(a + b, m, block) == Without(a, m, block) + b
    ensures Inside(a + b, m, block) == Inside(a, m, block)
  {
    assert (a + b)[block.start..block.start + |m.open|] == a[block.start..block.start + |m.open|];
    assert (a + b)[block.end..block.end + |m.close|] == a[block.end..block.end + |m.close|];
  }

  /** Sweeping early loses nothing: sweeping a part, then the remainder together with the rest of the
      text, ends with the same text and takes out the same blocks in the same order. */
  lemma {:induction false} SweepInTwo(a: string, b: string, m: Markers)
    requires Proper(m)
    ensures Sweep(a + b, m).rest == Sweep(Sweep(a, m).rest + b, m).rest
    ensures Sweep(a + b, m).blocks == Sweep(a, m).blocks + Sweep(Sweep(a, m).rest + b, m).blocks
    decreases |a|
  {
    var found := FindBlock(a, m);
    if found.Some? {
      FoundBlockIsThere(a, m);
      var next := Without(a, m, found.value);
      FindBlockIsStable(a, m, b);
      ErasureIsLocal(a, b, m, found.value);
      SweepInTwo(next, b, m);
      assert Sweep(a, m) == SweepOn(a, m, found.value);
      assert Sweep(a + b, m) == SweepOn(a + b, m, found.value);
      Regroup([Inside(a, m, found.value)], Sweep(next, m).blocks, Sweep(Sweep(next, m).rest + b, m).blocks);
    }
  }

  /** After a sweep no complete block is left. */
  lemma {:induction false} SweepLeavesNoBlock(text: string, m: Markers)
    requires Proper(m)
    ensures FindBlock(Sweep(text, m).rest, m).None?
    decreases |text|
  {
    var found := FindBlock(text, m);
    if found.Some? {
      FoundBlockIsThere(text, m);
      SweepLeavesNoBlock(Without(text, m, found.value), m);
    }
  }

  /** A swept text is not changed by sweeping it again. */
  lemma {:induction false} SweepTwice(text: string, m: Markers)
    requires Proper(m)
    ensures Sweep(Sweep(text, m).rest, m) == Swept(Sweep(text, m).rest, [])
  {
    SweepLeavesNoBlock(text, m);
  }

  /** The characters of the blocks with their markers. */
  ghost function Taken(blocks: seq<string>, m: Markers): multiset<char> {
    if |blocks| == 0 then multiset{}
    else multiset(m.open) + multiset(blocks[0]) + multiset(m.close) + Taken(blocks[1..], m)
  }

  lemma {:induction false} TakenFirst(first: string, rest: seq<string>, m: Markers)
    ensures Taken([first] + rest, m) == multiset(m.open) + multiset(first) + multiset(m.close) + Taken(rest, m)
  {
    assert ([first] + rest)[1..] == rest;
  }

  lemma FivePieces(text: string, m: Markers, b: Block)
    requires BlockIn(text, m, b)
    ensures text == text[..b.start] + m.open + Inside(text, m, b) + m.close + text[b.end + |m.close|..]
  {
    var i, j, k := b.start + |m.open|, b.end, b.end + |m.close|;
    assert text == text[..k] + text[k..];
    assert text[..k] == text[..j] + text[j..k];
    assert text[..j] == text[..i] + text[i..j];
    assert text[..i] == text[..b.start] + text[b.start..i];
  }

  lemma ErasureKeepsCharacters(text: string, m: Markers, b: Block)
    requires BlockIn(text, m, b)
    ensures multiset(text)
         == multiset(Without(text, m, b)) + multiset(m.open) + multiset(Inside(text, m, b)) + multiset(m.close)
  {
    FivePieces(text, m, b);
    var before, inside, after := text[..b.start], Inside(text, m, b), text[b.end + |m.close|..];
    assert multiset(before + after) == multiset(before) + multiset(after);
    assert multiset(before + m.open + inside + m.close + after)
        == multiset(before) + multiset(m.open) + multiset(inside) + multiset(m.close) + multiset(after);
  }

  /** No character is lost or made up: what is left, the blocks taken out and their markers are
      together exactly the characters of the text. */
  lemma {:induction false} SweepKeepsCharacters(text: string, m: Markers)
    requires Proper(m)
    ensures multiset(text) == multiset(Sweep(text, m).rest) + Taken(Sweep(text, m).blocks, m)
    decreases |text|
  {
    var found := FindBlock(text, m);
    if found.Some? {
      FoundBlockIsThere(text, m);
      var next, inside := Without(text, m, found.value), Inside(text, m, found.value);
      ErasureKeepsCharacters(text, m, found.value);
      SweepKeepsCharacters(next, m);
      TakenFirst(inside, Sweep(next, m).blocks, m);
    }
  }

  // ---------------------------------------------------------------------------------------------
  // The parser
  // ---------------------------------------------------------------------------------------------

  datatype ParsedTurn = ParsedTurn(response: string, thoughts: seq<string>, toolCall: Option<string>)

  /** The classification of a buffer: its first complete tool call is taken out, then every complete thought. */
  function Classify(buffer: string, thought: Markers, tool: Markers): ParsedTurn
    requires Proper(thought) && Proper(tool)
  {
    var found := FindBlock(buffer, tool);
    if found.None? then
      var swept := Sweep(buffer, thought);
      ParsedTurn(swept.rest, swept.blocks, None)
    else
      FoundBlockIsThere(buffer, tool);
      var swept := Sweep(Without(buffer, tool, found.value), thought);
      ParsedTurn(swept.rest, swept.blocks, Some(Inside(buffer, tool, found.value)))
  }

  /** The first block of a text stands between `before` and `after`: nothing opens one earlier, and nothing closes
      it earlier. */
  ghost predicate FirstBlock(text: string, m: Markers, before: string, inside: string, after: string) {
    && text == before + m.open + inside + m.close + after
    && (forall i :: 0 <= i < |before| ==> !Matches(text, m.open, i))
    && (forall i :: |before| + |m.open| <= i < |before| + |m.open| + |inside| ==> !Matches(text, m.close, i))
  }

  lemma BlockStands(text: string, m: Markers, before: string, inside: string, after: string, b: Block)
    requires text == before + m.open + inside + m.close + after
    requires b == Block(|before|, |before| + |m.open| + |inside|)
    ensures BlockIn(text, m, b) && Inside(text, m, b) == inside && Without(text, m, b) == before + after
  {
  }

  lemma FirstBlockIsFound(text: string, m: Markers, before: string, inside: string, after: string)
    requires Proper(m) && FirstBlock(text, m, before, inside, after)
    ensures FindBlock(text, m).Some? && BlockIn(text, m, FindBlock(text, m).value)
    ensures Inside(text, m, FindBlock(text, m).value) == inside
    ensures Without(text, m, FindBlock(text, m).value) == before + after
  {
    var b := Block(|before|, |before| + |m.open| + |inside|);
    BlockStands(text, m, before, inside, after, b);
    FoundBlockIsEarliest(text, m, b);
    FoundBlockIsThere(text, m);
    OnlyFirst(text, m, before, inside, b, FindBlock(text, m).value);
  }

  lemma OnlyFirst(text: string, m: Markers, before: string, inside: string, b: Block, found: Block)
    requires b == Block(|before|, |before| + |m.open| + |inside|) && BlockIn(text, m, found)
    requires found.start <= b.start && (found.start == b.start ==> found.end <= b.end)
    requires forall i :: 0 <= i < |before| ==> !Matches(text, m.open, i)
    requires forall i :: |before| + |m.open| <= i < |before| + |m.open| + |inside| ==> !Matches(text, m.close, i)
    ensures found == b
  {
  }

  /** A sweep takes out the first block and goes on with what stands before and behind it; a text without a
      complete block is left as it is. */
  lemma {:induction false} SweepInOrder(text: string, m: Markers, before: string, inside: string, after: string)
    requires Proper(m)
    ensures FirstBlock(text, m, before, inside, after) ==>
              Sweep(text, m) == Swept(Sweep(before + after, m).rest, [inside] + Sweep(before + after, m).blocks)
    ensures (forall b :: !BlockIn(text, m, b)) ==> Sweep(text, m) == Swept(text, [])
  {
    if FirstBlock(text, m, before, inside, after) {
      FirstBlockIsFound(text, m, before, inside, after);
    }
    if FindBlock(text, m).Some? {
      FoundBlockIsThere(text, m);
    }
  }

  /** A text is classified in order: its first tool call is taken out, and what stands before and behind it, in
      that order, is swept of thoughts; without a complete tool call, all of it is. */
  lemma {:induction false} ClassifiedInOrder(buffer: string, before: string, call: string, after: string)
    ensures FirstBlock(buffer, Markers("<tool_call>", "</tool_call>"), before, call, after) ==>
              var swept := Sweep(before + after, Markers("[thought]", "[/thought]"));
              Classify(buffer, THOUGHT, TOOL_CALL) == ParsedTurn(swept.rest, swept.blocks, Some(call))
    ensures (forall b :: !BlockIn(buffer, Markers("<tool_call>", "</tool_call>"), b)) ==>
              var swept := Sweep(buffer, Markers("[thought]", "[/thought]"));
              Classify(buffer, THOUGHT, TOOL_CALL) == ParsedTurn(swept.rest, swept.blocks, None)
  {
    if FirstBlock(buffer, TOOL_CALL, before, call, after) {
      FirstBlockIsFound(buffer, TOOL_CALL, before, call, after);
    }
    if FindBlock(buffer, TOOL_CALL).Some? {
      FoundBlockIsThere(buffer, TOOL_CALL);
    }
  }

  /** A use of the parser between two resets: pieces are fed, and finished thoughts are collected, in any order. */
  datatype Call = Feed(piece: string) | TakeThoughts

  datatype Parser = Parser(buffer: string, pending: seq<string>, taken: seq<string>)

  function Step(p: Parser, call: Call, thought: Markers): Parser
    requires Proper(thought)
  {
    match call
    case Feed(piece) =>
      var swept := Sweep(p.buffer + piece, thought);
      Parser(swept.rest, p.pending + swept.blocks, p.taken)
    case TakeThoughts => Parser(p.buffer, [], p.taken + p.pending)
  }

  function After(calls: seq<Call>, thought: Markers): Parser
    requires Proper(thought)
  {
    if |calls| == 0 then Parser("", [], [])
    else Step(After(calls[..|calls| - 1], thought), calls[|calls| - 1], thought)
  }

  /** All the text fed, in order. */
  function Text(calls: seq<Call>): string {
    if |calls| == 0 then ""
    else Text(calls[..|calls| - 1]) + (if calls[|calls| - 1].Feed? then calls[|calls| - 1].piece else "")
  }

  /** A parser that has worked through `text`. */
  ghost predicate Agrees(p: Parser, text: string, thought: Markers)
    requires Proper(thought)
  {
    Swept(p.buffer, p.taken + p.pending) == Sweep(text, thought)
  }

  lemma FeedAgrees(p: Parser, text: string, piece: string, thought: Markers)
    requires Proper(thought) && Agrees(p, text, thought)
    ensures Agrees(Step(p, Feed(piece), thought), text + piece, thought)
  {
    SweepInTwo(text, piece, thought);
    Regroup(p.taken, p.pending, Sweep(p.buffer + piece, thought).blocks);
  }

  /** However the text is cut into pieces and whenever thoughts are collected: the buffer is what one
      sweep of the whole text leaves, and the thoughts collected so far followed by those waiting are
      the ones that sweep takes out. */
  lemma {:induction false} ChunkingDoesNotMatter(calls: seq<Call>, thought: Markers)
    requires Proper(thought)
    ensures After(calls, thought).buffer == Sweep(Text(calls), thought).rest
    ensures After(calls, thought).taken + After(calls, thought).pending == Sweep(Text(calls), thought).blocks
  {
    if |calls| == 0 {
      assert Find("", thought.open, 0).None?;
    } else {
      var before, call := calls[..|calls| - 1], calls[|calls| - 1];
      var p := After(before, thought);
      ChunkingDoesNotMatter(before, thought);
      if call.Feed? {
        FeedAgrees(p, Text(before), call.piece, thought);
      } else {
        assert Text(calls) == Text(before);
        assert (p.taken + p.pending) + [] == p.taken + p.pending;
      }
    }
  }

  /** Two ways of feeding one text end in the same classification. */
  lemma {:induction false} SameTextSameResult(calls: seq<Call>, calls': seq<Call>, thought: Markers, tool: Markers)
    requires Proper(thought) && Proper(tool) && Text(calls) == Text(calls')
    ensures Classify(After(calls, thought).buffer, thought, tool) == Classify(After(calls', thought).buffer, thought, tool)
  {
    ChunkingDoesNotMatter(calls, thought);
    ChunkingDoesNotMatter(calls', thought);
  }

  /** The response never holds a complete thought. */
  lemma ResponseHoldsNoThought(buffer: string, thought: Markers, tool: Markers, b: Block)
    requires Proper(thought) && Proper(tool)
    ensures !BlockIn(Classify(buffer, thought, tool).response, thought, b)
  {
    var found := FindBlock(buffer, tool);
    var response := Classify(buffer, thought, tool).response;
    if found.Some? {
      FoundBlockIsThere(buffer, tool);
      SweepLeavesNoBlock(Without(buffer, tool, found.value), thought);
    } else {
      SweepLeavesNoBlock(buffer, thought);
    }
    if BlockIn(response, thought, b) {
      FoundBlockIsEarliest(response, thought, b);
      assert false;
    }
  }

  ghost function ToolCallTaken(call: Option<string>, tool: Markers): multiset<char> {
    match call
    case None => multiset{}
    case Some(json) => multiset(tool.open) + multiset(json) + multiset(tool.close)
  }

  lemma {:induction false} ClassifyKeepsCharacters(buffer: string, thought: Markers, tool: Markers)
    requires Proper(thought) && Proper(tool)
    ensures var r := Classify(buffer, thought, tool);
            multiset(buffer) == multiset(r.response) + Taken(r.thoughts, thought) + ToolCallTaken(r.toolCall, tool)
  {
    var found := FindBlock(buffer, tool);
    if found.Some? {
      FoundBlockIsThere(buffer, tool);
      ErasureKeepsCharacters(buffer, tool, found.value);
      SweepKeepsCharacters(Without(buffer, tool, found.value), thought);
    } else {
      SweepKeepsCharacters(buffer, thought);
    }
  }

  /** Over a whole turn: response, every thought, the tool call and their markers are together exactly
      the characters that were fed. */
  lemma {:induction false} TurnKeepsCharacters(calls: seq<Call>, thought: Markers, tool: Markers)
    requires Proper(thought) && Proper(tool)
    ensures var p := After(calls, thought);
            var r := Classify(p.buffer, thought, tool);
            multiset(Text(calls))
            == multiset(r.response) + Taken(p.taken + p.pending, thought) + Taken(r.thoughts, thought)
               + ToolCallTaken(r.toolCall, tool)
  {
    ChunkingDoesNotMatter(calls, thought);
    SweepKeepsCharacters(Text(calls), thought);
    ClassifyKeepsCharacters(After(calls, thought).buffer, thought, tool);
  }

  ghost function Lengths(blocks: seq<string>): nat {
    if |blocks| == 0 then 0 else |blocks[0]| + Lengths(blocks[1..])
  }

  lemma {:induction false} TakenSize(blocks: seq<string>, m: Markers, each: nat)
    requires each == |m.open| + |m.close|
    ensures |Taken(blocks, m)| == Lengths(blocks) + |blocks| * each
  {
    if |blocks| > 0 {
      TakenSize(blocks[1..], m, each);
      assert |blocks| * each == (|blocks| - 1) * each + each;
    }
  }

  lemma {:induction false} TurnLengths(calls: seq<Call>, thought: Markers, tool: Markers, each: nat)
    requires Proper(thought) && Proper(tool) && each == |thought.open| + |thought.close|
    ensures var p := After(calls, thought);
            var r := Classify(p.buffer, thought, tool);
            |Text(calls)|
            == |r.response| + Lengths(p.taken + p.pending) + |p.taken + p.pending| * each
               + Lengths(r.thoughts) + |r.thoughts| * each
               + (if r.toolCall.Some? then |r.toolCall.value| + |tool.open| + |tool.close| else 0)
  {
    var p := After(calls, thought);
    var r := Classify(p.buffer, thought, tool);
    TurnKeepsCharacters(calls, thought, tool);
    TakenSize(p.taken + p.pending, thought, each);
    TakenSize(r.thoughts, thought, each);
    assert |multiset(Text(calls))| == |Text(calls)|;
  }

  /** The lengths add up: 19 characters of markers for each thought and 23 for a tool call. */
  lemma {:induction false} LengthsAddUp(calls: seq<Call>)
    ensures var p := After(calls, THOUGHT);
            var r := Classify(p.buffer, THOUGHT, TOOL_CALL);
            |Text(calls)|
            == |r.response| + Lengths(p.taken + p.pending) + 19 * |p.taken + p.pending|
               + Lengths(r.thoughts) + 19 * |r.thoughts|
               + (if r.toolCall.Some? then |r.toolCall.value| + 23 else 0)
  {
    assert |THOUGHT.open| == 9 && |THOUGHT.close| == 10 && |TOOL_CALL.open| == 11 && |TOOL_CALL.close| == 12;
    TurnLengths(calls, THOUGHT, TOOL_CALL, 19);
  }
}
