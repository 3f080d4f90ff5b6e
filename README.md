# TerminalX front-end state, modelled in Dafny

TerminalX is a desktop terminal with tabs. This project models the state handling of its web
front end in four modules:

- `App` (src/App.jsx) holds the tab registry. It keeps the ordered list of tabs
  `{id, name, type}` and the active tab id. Its operations are adding a tab, closing a tab and
  selecting a tab, plus the choice of which terminal is rendered.
- `TerminalX` (src/components/terminal/TerminalX.jsx) holds the session of one tab: its history
  of `{prompt, command, output}` entries, its current path and its input field. Submitting a line
  rejects blank input. For a tab of type exactly "local" it calls the local backend and records the
  reply or an `Error: ` entry. Any other type gets the fixed SSH stub entry. The module also
  builds the bracketed prompt text and the input placeholder.
- `CommandBlock` (src/components/terminal/commandblock/CommandBlock.jsx) renders one entry. It
  builds the `> ` header and splits the output into lines. It also holds the copy and pin flags.
- `Js` models the JavaScript built-ins these rely on: null-able values, string truthiness, `trim`,
  `split` on one character and `join`.

The backend is a parameter, `gateway: string -> GatewayResult`. It yields `Success(output, cwd)`
or `Failure(message)`. A reply that does not parse as JSON is a `Failure` too. The answers to the
naming and type dialogs are inputs. The `Date.now()` tab id is also an input, and the caller
promises that no listed tab carries it.

Two behaviours of the code are easy to miss:

- Closing the active tab makes the first tab of the list *before* the close active
  (src/App.jsx:54-55). When that first tab is the one being closed, the closed id stays active
  and no terminal is rendered (`App.CloseActiveFirstDangles`). Closing the only tab also leaves
  the closed id active (`App.CloseLastDangles`). So the registry invariant `Valid` does not
  require the active id to be listed.
- An entry with empty output still renders one empty line, because `"".split('\n')` is `[""]`
  (`TerminalX.WelcomeRendering`). The output block is never omitted.

The code has no in-flight flag, no assistant routing and no `terminalx:` prefix
classification, so none of these are modelled.

## Model

| member | source | states |
|---|---|---|
| `Js.Trim` | src/components/terminal/TerminalX.jsx:33 | `trim` gives the piece of the input after its leading white space, everything after it is white space, it has no white space at either end; the result is empty exactly when every character is ECMAScript white space |
| `Js.IsBlank` | src/components/terminal/TerminalX.jsx:33 | `!input.trim()` holds exactly when every character of the input is ECMAScript white space (the empty input included) |
| `Js.Truthy` | src/App.jsx:36 | a name passes `!name` exactly when it is not null and not the empty string; a name of white space only passes |
| `Js.Split` | src/components/terminal/commandblock/CommandBlock.jsx:34 | `split` on one character yields one piece more than the number of separators, and no piece contains the separator |
| `Js.SplitJoin` | src/components/terminal/commandblock/CommandBlock.jsx:34 | joining the split pieces with the same separator reproduces the string exactly |
| `Js.JoinSplit` | src/components/terminal/commandblock/CommandBlock.jsx:34 | splitting a join of one or more separator-free pieces gives back those pieces |
| `App.Removed` | src/App.jsx:52 | the close filter keeps exactly the tabs whose id differs from the closed id |
| `App.RemovedConcat` | src/App.jsx:52 | the filter distributes over concatenation, so the remaining tabs keep their relative order |
| `App.RemovedAbsent` | src/App.jsx:52 | closing an id no tab carries leaves the list unchanged |
| `App.RemovedUnique` | src/App.jsx:52 | closing keeps tab ids unique |
| `App.RemovedLength` | src/App.jsx:52 | with unique ids, closing a listed id removes exactly one tab and closing an unlisted id removes none |
| `App.Mounted` | src/App.jsx:77-89 | the rendered terminals are exactly the tabs whose id is the active id; none is rendered exactly when no tab carries the active id |
| `App.MountedAtMostOne` | src/App.jsx:77-89 | with unique ids at most one terminal is rendered, and exactly one when the active id is listed |
| `App.ActiveAfterClose` | src/App.jsx:54-55 | the active id changes only when the closed tab was active and there were two or more tabs, and then it becomes the id of the first tab of the list before the close |
| `App.CloseInactive` | src/App.jsx:54 | closing a tab that is not active keeps the active id, and a listed active tab stays listed |
| `App.CloseActiveMovesToFirst` | src/App.jsx:54-55 | closing the active tab when it is not the first of several makes the first tab active, and that tab is still listed |
| `App.CloseActiveFirstDangles` | src/App.jsx:54-55 | closing the active tab when it is the first of several keeps the closed id active; no listed tab carries it and nothing is rendered |
| `App.CloseLastDangles` | src/App.jsx:52-55 | closing the only tab empties the list and keeps the closed id active, so nothing is rendered |
| `App.Registry.constructor` | src/App.jsx:22-28 | the initial registry is the single tab `{id: 1, name: "Terminal 1", type: "local"}`, and id 1 is active |
| `App.Registry.AddTerminal` | src/App.jsx:34-46 | a null or empty name changes nothing; otherwise one tab with the fresh id, the name and the given type is appended after the existing tabs and becomes active; ids stay unique and names non-empty |
| `App.Registry.CloseTab` | src/App.jsx:51-57 | the list becomes the filtered old list, one tab shorter when the id was listed; the active id moves to the old first tab only when the closed tab was active and there were two or more tabs |
| `App.Registry.SetActiveTerminalId` | src/App.jsx:73 | the active id becomes the given id verbatim, without a membership check; the tab list is not touched |
| `App.Registry.Rendered` | src/App.jsx:77-89 | at most one terminal is rendered, it is a listed tab carrying the active id, and none is rendered exactly when the active id is not listed |
| `TerminalX.IsLocal` | src/components/terminal/TerminalX.jsx:35 | a tab takes the local path exactly when its type is the text "local"; null, "ssh" and any other text take the stub path |
| `TerminalX.Welcome` | src/components/terminal/TerminalX.jsx:10 | the seed entry has empty prompt and output, and its command is "Welcome to ", the tab name and "!" |
| `TerminalX.DisplayCommand` | src/components/terminal/TerminalX.jsx:95 | the shown text ends with the command; with an empty prompt it is the bare command, otherwise `[`, the prompt and `] ` come before it |
| `TerminalX.DisplayCommandInjective` | src/components/terminal/TerminalX.jsx:95 | under one prompt, distinct commands are never displayed alike |
| `TerminalX.Placeholder` | src/components/terminal/TerminalX.jsx:108 | the placeholder is "Enter command..." exactly when the path is empty, otherwise `[`, the path and `] $ ` |
| `TerminalX.WelcomeRendering` | src/components/terminal/TerminalX.jsx:91-100 | the welcome entry shows the header `> Welcome to <tabName>!` and one empty output line |
| `TerminalX.Terminal.constructor` | src/components/terminal/TerminalX.jsx:9-16 | a new session holds only the entry `{prompt: "", command: "Welcome to <tabName>!", output: ""}`, with empty input and empty path |
| `TerminalX.Terminal.HandleInputChange` | src/components/terminal/TerminalX.jsx:27-29 | the input field takes the typed value; history and path are not touched |
| `TerminalX.Terminal.HandleCommandSubmit` | src/components/terminal/TerminalX.jsx:31-77 | blank input changes nothing and calls no backend; otherwise exactly one entry holding the raw input is appended, earlier entries stay as they were, and the input is cleared; a local success records the reply's cwd as the prompt, records its output and sets the path to the cwd; a local failure records the old path and `Error: ` plus the message and keeps the path; any other type calls no backend, records the old path and the SSH stub text and keeps the path |
| `CommandBlock.Header` | src/components/terminal/commandblock/CommandBlock.jsx:32 | the header is `> ` followed by the unchanged command |
| `CommandBlock.OutputLines` | src/components/terminal/commandblock/CommandBlock.jsx:34 | the output is shown as one more line than it has line feeds; no line holds a line feed; joining the lines with line feeds gives back the output; an empty output still gives one empty line |
| `CommandBlock.Block.constructor` | src/components/terminal/commandblock/CommandBlock.jsx:7-8 | a block starts neither copied nor pinned |
| `CommandBlock.Block.HandleCopy` | src/components/terminal/commandblock/CommandBlock.jsx:10-12 | copying sets `copied` and calls the parent's copy handler exactly when one was given; `pinned` is not touched |
| `CommandBlock.Block.HandlePin` | src/components/terminal/commandblock/CommandBlock.jsx:16-19 | pinning flips `pinned` and calls the parent's pin handler exactly when one was given; `copied` is not touched |
| `CommandBlock.PinTwice` | src/components/terminal/commandblock/CommandBlock.jsx:16-19 | pinning twice restores the pin state and leaves the copy state alone |

## Left out

- Running shell commands, capturing their output and decoding it as UTF-8 (src-tauri/src/main.rs) are operating-system I/O. The backend is only the abstract `gateway` reply.
- The Rust command stubs and the global current-directory mutex (src-tauri/src/local_terminal/, src-tauri/src/ai/) are foreign-library serialisation and process-wide state.
- The JSON parsing of the reply is not modelled. A malformed reply is one of the `Failure` messages, and the reply's `output` and `cwd` are taken to be strings.
- `TerminalX.Terminal.HandleCommandSubmit` runs as one atomic step. The `await` on the backend is not modelled. So the model does not capture two submits in flight at once: their entries are appended when the replies arrive, which may not be submission order (src/components/terminal/TerminalX.jsx:56,64). Nor does it capture the first reply's clearing of the input field wiping text typed in the meantime (src/components/terminal/TerminalX.jsx:76), or an unmount before the reply arrives.
- The `console.error` log of a failed call (src/components/terminal/TerminalX.jsx:58) is diagnostic output and is not modelled.
- React mounting is not modelled. Only the active tab's terminal is mounted, so a tab's history is lost when another tab is selected. The model keeps `App.Registry` and `TerminalX.Terminal` as separate objects.
- The scroll-to-bottom effect and the JSX markup are presentation and carry no state.
- Clipboard writes, `alert` and `window.prompt` are browser side effects. Their results are inputs, and a handler invocation is a returned flag.
- `CommandBlock.Block.HandleCopy`: the 3-second timer that resets `copied` is not modelled, because timers are outside the model.
- The tab bar and sidebar only present state. The tab bar's active-class test is the comparison `App.Mounted` already uses.
- The unused `greet` call in src/App.jsx is not modelled.
