/** One rendered command/output pair (src/components/terminal/commandblock/CommandBlock.jsx):
    the `> command` header, the output cut into lines, and the copy and pin flags. */
module CommandBlock {
  import opened Js

  /** The header text `> ${command}`: the marker "> " followed by the command, unchanged. */
  function Header(command: string): (r: string)
    ensures |r| == |command| + 2
    ensures r[..2] == "> " && r[2..] == command
  {
    "> " + command
  }

  /** `output.split('\n')`, one displayed line each: one line more than there are line feeds (so
      even an empty output shows one empty line), no line holds a line feed, and joining the lines
      with line feeds gives the output back. */
  function OutputLines(output: string): (r: seq<string>)
    ensures |r| == Count(output, '\n') + 1
    ensures forall i :: 0 <= i < |r| ==> '\n' !in r[i]
    ensures Join(r, '\n') == output
    ensures output == "" ==> r == [""]
  {
    SplitJoin(output, '\n');
    Split(output, '\n')
  }

  /** The state of one block: `copied` and `pinned`, both false when it appears. */
  class Block {
    const command: string
    const output: string
    var copied: bool
    var pinned: bool

    constructor (command: string, output: string)
      ensures this.command == command && this.output == output
      ensures !copied && !pinned
    {
      this.command := command;
      this.output := output;
      copied := false;
      pinned := false;
    }

    /** `handleCopy`: sets `copied`, and calls the parent's copy handler exactly when one was given
        (`callsOnCopy`). The timed reset of `copied` is not modelled. */
    method HandleCopy(hasOnCopy: bool) returns (callsOnCopy: bool)
      modifies this`copied
      ensures copied
      ensures callsOnCopy == hasOnCopy
    {
      copied := true;
      callsOnCopy := hasOnCopy;
    }

    /** `handlePin`: flips `pinned`, and calls the parent's pin handler exactly when one was given. */
    method HandlePin(hasOnPin: bool) returns (callsOnPin: bool)
      modifies this`pinned
      ensures pinned == !old(pinned)
      ensures callsOnPin == hasOnPin
    {
      pinned := !pinned;
      callsOnPin := hasOnPin;
    }
  }

  /** Pinning twice restores the pin state and leaves the copy state alone. */
  method PinTwice(b: Block, hasOnPin: bool)
    modifies b
    ensures b.pinned == old(b.pinned) && b.copied == old(b.copied)
  {
    var _ := b.HandlePin(hasOnPin);
    var _ := b.HandlePin(hasOnPin);
  }
}
