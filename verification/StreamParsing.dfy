/** The parser object that is fed the model's tokens. */
module StreamParsing {
  import opened Sequences
  import opened Options
  import opened Classifier

  class StreamParser {
    const thought: Markers
    const tool: Markers
    var buffer: string
    var completedThoughts: seq<string>
    var toolCallComplete: bool

    ghost predicate Valid()
      reads this
    {
      Proper(thought) && Proper(tool)
    }

    constructor (thought: Markers, tool: Markers)
      requires Proper(thought) && Proper(tool)
      ensures Valid() && this.thought == thought && this.tool == tool
      ensures buffer == "" && completedThoughts == [] && !toolCallComplete
    {
      this.thought, this.tool := thought, tool;
      buffer, completedThoughts, toolCallComplete := "", [], false;
    }

    /** Feeding sweeps the buffer and remembers whether a complete tool call was seen before the sweep. */
    method Feed(piece: string)
      requires Valid()
      modifies this
      ensures Valid()
      ensures buffer == Sweep(old(buffer) + piece, thought).rest
      ensures completedThoughts == old(completedThoughts) + Sweep(old(buffer) + piece, thought).blocks
      ensures toolCallComplete <==> old(toolCallComplete) || FindBlock(old(buffer) + piece, tool).Some?
    {
      buffer := buffer + piece;
      if FindBlock(buffer, tool).Some? {
        toolCallComplete := true;
      }
      ghost var goal := Sweep(buffer, thought);
      ghost var early := completedThoughts;
      while FindBlock(buffer, thought).Some?
        invariant Valid()
        invariant Sweep(buffer, thought).rest == goal.rest
        invariant completedThoughts + Sweep(buffer, thought).blocks == early + goal.blocks
        invariant toolCallComplete <==> old(toolCallComplete) || FindBlock(old(buffer) + piece, tool).Some?
        decreases |buffer|
      {
        var block := FindBlock(buffer, thought).value;
        FoundBlockIsThere(buffer, thought);
        assert Sweep(buffer, thought) == SweepOn(buffer, thought, block);
        Regroup(completedThoughts, [Inside(buffer, thought, block)], Sweep(Without(buffer, thought, block), thought).blocks);
        completedThoughts := completedThoughts + [Inside(buffer, thought, block)];
        buffer := Without(buffer, thought, block);
      }
    }

    method TakeCompletedThoughts() returns (taken: seq<string>)
      modifies this
      ensures taken == old(completedThoughts) && completedThoughts == []
      ensures buffer == old(buffer) && toolCallComplete == old(toolCallComplete)
    {
      taken, completedThoughts := completedThoughts, [];
    }

    method Result() returns (parsed: ParsedTurn)
      requires Valid()
      ensures parsed == Classify(buffer, thought, tool)
    {
      var text := buffer;
      var toolCall := None;
      if FindBlock(text, tool).Some? {
        var block := FindBlock(text, tool).value;
        FoundBlockIsThere(text, tool);
        toolCall := Some(Inside(text, tool, block));
        text := Without(text, tool, block);
      }
      ghost var goal := Sweep(text, thought);
      var thoughts := [];
      while FindBlock(text, thought).Some?
        invariant Sweep(text, thought).rest == goal.rest
        invariant thoughts + Sweep(text, thought).blocks == goal.blocks
        decreases |text|
      {
        var block := FindBlock(text, thought).value;
        FoundBlockIsThere(text, thought);
        assert Sweep(text, thought) == SweepOn(text, thought, block);
        Regroup(thoughts, [Inside(text, thought, block)], Sweep(Without(text, thought, block), thought).blocks);
        thoughts := thoughts + [Inside(text, thought, block)];
        text := Without(text, thought, block);
      }
      parsed := ParsedTurn(text, thoughts, toolCall);
    }

    method Reset()
      modifies this
      ensures buffer == "" && completedThoughts == [] && !toolCallComplete
    {
      buffer, completedThoughts, toolCallComplete := "", [], false;
    }
  }
}
