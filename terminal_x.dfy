/** The session of one terminal tab (src/components/terminal/TerminalX.jsx): its history of
    command blocks, its current path and its input field, the submission of a command line to the
    local backend or to the remote stub, and the two strings it displays. */
module TerminalX {
  import opened Js
  import CommandBlock

  /** One history entry: the path shown in brackets, the line as typed, and what came back. */
  datatype Entry = Entry(prompt: string, command: string, output: string)

  /** What the local backend call yields: the parsed `{output, cwd}` reply, or the failure of
      the call or of parsing its reply, as the text `${err}` would show. */
  datatype GatewayResult = Success(output: string, cwd: string) | Failure(message: string)

  /** The output recorded for any tab whose type is not "local". */
  const SshStub: string := "SSH mode not yet implemented."

  /** Only the exact type "local" runs commands on the local backend; "ssh", any other text and
      a cancelled type prompt (null) take the stub path. */
  predicate IsLocal(kind: Option<string>): (b: bool)
    ensures kind == None ==> !b
    ensures kind.Some? ==> (b <==> kind.value == "local")
  {
    kind == Some("local")
  }

  /** The seed entry of a new session. */
  function Welcome(tabName: string): (e: Entry)
    ensures e.prompt == "" && e.output == ""
    ensures |e.command| == |tabName| + 12
    ensures e.command[..11] == "Welcome to " && e.command[11..|e.command| - 1] == tabName
    ensures e.command[|e.command| - 1] == '!'
  {
    Entry("", "Welcome to " + tabName + "!", "")
  }

  /** The text handed to a command block: `[prompt] command`, or the bare command when the
      prompt is empty. The command always ends the text; a non-empty prompt is shown first,
      between brackets and followed by a space. */
  function DisplayCommand(prompt: string, command: string): (r: string)
    ensures |r| >= |command| && r[|r| - |command|..] == command
    ensures prompt == "" ==> r == command
    ensures prompt != "" ==>
              |r| == |prompt| + 3 + |command| && r[0] == '[' &&
              r[1..|prompt| + 1] == prompt && r[|prompt| + 1..|prompt| + 3] == "] "
  {
    (if prompt != "" then "[" + prompt + "] " else "") + command
  }

  /** Under a given prompt, the displayed text determines the command: distinct commands are
      never shown alike. */
  lemma DisplayCommandInjective(prompt: string, c1: string, c2: string)
    requires DisplayCommand(prompt, c1) == DisplayCommand(prompt, c2)
    ensures c1 == c2
  {
  }

  /** The placeholder of the input field: "Enter command..." exactly when no path is known yet,
      otherwise the path between brackets followed by "] $ ". */
  function Placeholder(currentPath: string): (r: string)
    ensures r == "Enter command..." <==> currentPath == ""
    ensures currentPath != "" ==>
              |r| == |currentPath| + 5 && r[0] == '[' &&
              r[1..|currentPath| + 1] == currentPath && r[|currentPath| + 1..] == "] $ "
  {
    if currentPath != "" then
      var r := "[" + currentPath + "] $ ";
      assert r[0] != "Enter command..."[0];
      r
    else "Enter command..."
  }

  /** The welcome entry renders as the header "> Welcome to <tabName>!" and one empty output line. */
  lemma WelcomeRendering(tabName: string)
    ensures CommandBlock.Header(DisplayCommand(Welcome(tabName).prompt, Welcome(tabName).command))
            == "> Welcome to " + tabName + "!"
    ensures CommandBlock.OutputLines(Welcome(tabName).output) == [""]
  {
  }

  /** The state of one mounted terminal: `commands`, `input` and `currentPath`, with the tab's
      name and type as its fixed props. */
  class Terminal {
    const tabName: string
    const kind: Option<string>
    var commands: seq<Entry>
    var input: string
    var currentPath: string

    /** The history only ever grows at its end, so the welcome entry stays first. */
    ghost predicate Valid()
      reads this
    {
      |commands| >= 1 && commands[0] == Welcome(tabName)
    }

    /** A new session: the welcome entry alone, an empty input and no known path. */
    constructor (tabName: string, kind: Option<string>)
      ensures Valid()
      ensures this.tabName == tabName && this.kind == kind
      ensures commands == [Entry("", "Welcome to " + tabName + "!", "")]
      ensures input == "" && currentPath == ""
    {
      this.tabName := tabName;
      this.kind := kind;
      commands := [Welcome(tabName)];
      input := "";
      currentPath := "";
    }

    /** `handleInputChange`: the field now holds what the user typed; nothing else changes. */
    method HandleInputChange(value: string)
      modifies this`input
      ensures input == value
    {
      input := value;
    }

    /** `handleCommandSubmit`. `gateway` stands for the local backend, its reply to a command
        line; `sent` is the line handed to it, `None` when no backend call is made.
        A blank input changes nothing. Otherwise exactly one entry carrying the raw input is
        appended, the input is cleared, and the entry and path are as the branch taken says. */
    method HandleCommandSubmit(gateway: string -> GatewayResult) returns (sent: Option<string>)
      requires Valid()
      modifies this
      ensures Valid()
      ensures IsBlank(old(input)) ==>
                sent == None && commands == old(commands) &&
                input == old(input) && currentPath == old(currentPath)
      ensures !IsBlank(old(input)) ==>
                input == "" && |commands| == |old(commands)| + 1 &&
                commands[..|old(commands)|] == old(commands) &&
                commands[|old(commands)|].command == old(input)
      ensures !IsBlank(old(input)) && !IsLocal(kind) ==>
                sent == None && currentPath == old(currentPath) &&
                commands == old(commands) + [Entry(old(currentPath), old(input), SshStub)]
      ensures !IsBlank(old(input)) && IsLocal(kind) ==> sent == Some(old(input))
      ensures !IsBlank(old(input)) && IsLocal(kind) && gateway(old(input)).Success? ==>
                var reply := gateway(old(input));
                currentPath == reply.cwd &&
                commands == old(commands) + [Entry(reply.cwd, old(input), reply.output)]
      ensures !IsBlank(old(input)) && IsLocal(kind) && gateway(old(input)).Failure? ==>
                currentPath == old(currentPath) &&
                commands == old(commands) +
                  [Entry(old(currentPath), old(input), "Error: " + gateway(old(input)).message)]
    {
      sent := None;
      if IsBlank(input) {
        return;
      }
      var entry: Entry;
      if IsLocal(kind) {
        sent := Some(input);
        var reply := gateway(input);
        match reply {
          case Success(output, cwd) =>
            currentPath := cwd;
            entry := Entry(if cwd != "" then cwd else "", input, output);
          case Failure(message) =>
            entry := Entry(currentPath, input, "Error: " + message);
        }
      } else {
        entry := Entry(currentPath, input, SshStub);
      }
      commands := commands + [entry];
      input := "";
    }
  }
}
