# Tiny Notepad: the Ollama client logic, modelled in Dafny

Tiny Notepad is a small tkinter editor that talks to a local Ollama daemon at
`http://localhost:11434`. Around the widgets sit five small decision procedures.
This project models each of them as a pure function. Every I/O result is an
input value: an HTTP status or exception, the outcome of a spawn, the lines of
a streamed reply. The project then proves what each procedure promises.

- **Text** (`text.dfy`): Python's `str.strip()`, `str.split(",")` and `",".join`
  (for a non-empty list), with the Unicode whitespace set that `str.isspace`
  uses.
- **Request** (`request.dfy`): converting the six sampling controls, parsing the
  comma-separated stop field, and building the `/api/generate` payload.
- **Stream** (`stream.dfy`): the loop over the streamed reply's lines. It skips
  blank and non-JSON lines and appends each record's `response`. It then writes
  either one newline or the `[Error connecting to Ollama: …]` tail.
  `Stream.Pump` is the loop written out, and it is proved equal to the
  functional `Stream.Render`.
- **Session** (`session.dfy`): the Generate button. A blank prompt does nothing.
  Otherwise the prompt is echoed, the entry is cleared and the worker starts.
  The worker parses the controls, sends the payload and renders the reply.
- **Supervisor** (`supervisor.dfy`): the start-up check as a state machine
  (probe, spawn, re-probe). Each state records the status messages it has
  emitted and counts its spawns and probes. `Supervisor.Messages` is the same
  decision tree written with the source's nesting, and the two are proved equal.
- **Catalog** (`catalog.dfy`): the `/api/tags` model listing. Every failure
  gives the empty list, and an empty list falls back to `llama3.2` in the menu.
- **Common** (`common.dfy`): the `Option` and `Result` wrappers.

Some of the code's behaviour differs from what a reader might expect; the model
follows the code:

- Submissions have no single-flight guard. Every accepted press starts a new
  worker (`Session.NoSingleFlight`). A second press right away is ignored only
  because the entry has been cleared (`Session.ResubmitIgnored`).
- A blank prompt produces no error message. It produces nothing at all.
- Three kinds of line escape the reading loop and end the reply with the
  connection-error tail: a line that is not valid UTF-8 (its decode error is not
  a JSON decode error), a JSON value that is not an object, and an object whose
  `response` is `null` (the lookup returns `None`, which the text widget
  refuses). They are not skipped.
- Only an HTTP 200 on the first probe counts as "running". A non-200 answer
  takes the start path without the "not running" message. An exception other
  than a connection error (a read timeout, say) ends the check without a status
  message, so the label keeps "Checking Ollama status...". The supervisor never retries with
  backoff.
- The model listing fails only on the statuses `raise_for_status` rejects
  (400 to 599), not on every non-2xx status.
- Blank entries in the stop list are kept: `"a, ,b"` sends `["a", "", "b"]`.

## Model

| member | source | states |
|---|---|---|
| Text.Strip | tiny-notepad.py:100 | the result has no whitespace at either end, is never longer than the input, and is empty exactly when the input is all whitespace |
| Text.StripUnique | tiny-notepad.py:119 | stripping removes exactly the whitespace padding: padding plus a stripped core strips to that core |
| Text.StripIdempotent | tiny-notepad.py:120 | stripping an already stripped string changes nothing |
| Text.Split | tiny-notepad.py:120 | splitting on a comma gives one more piece than there are commas, no piece contains a comma, and joining the pieces with commas gives back the input |
| Text.SplitJoin | tiny-notepad.py:120 | split undoes join for comma-free pieces, so split gives the only comma-free cutting of a string |
| Text.CountStrip | tiny-notepad.py:119 | stripping keeps every comma (every non-whitespace character), so the stripped stop field has as many commas as the raw one |
| Request.StripEach | tiny-notepad.py:120 | one entry per piece, in order, each piece stripped |
| Request.ParseStop | tiny-notepad.py:119-120 | an all-whitespace stop field gives `None`; otherwise it gives (commas + 1) entries, each stripped and comma-free |
| Request.ParseStopPieces | tiny-notepad.py:119-120 | the entries are the stripped comma-separated pieces of the stripped field, in order, with empty pieces kept |
| Request.ParseStopExample | tiny-notepad.py:120 | `"a, ,b"` (any two visible non-comma characters) gives three entries, the middle one empty |
| Request.ParseStopLiteral | tiny-notepad.py:120 | `"a, ,b"` gives `["a", "", "b"]` |
| Request.FirstFailure | tiny-notepad.py:113-118 | the message returned is that of the first unparseable field, and all fields before it parsed; `None` exactly when every field parsed |
| Request.ParseNumbers | tiny-notepad.py:112-123 | conversion succeeds exactly when all six controls parse, then carries their values in order; otherwise it fails with the first failing control's message |
| Request.ParseControls | tiny-notepad.py:112-123 | the parameter block fails exactly when a numeric control fails, and otherwise carries the numbers and the parsed stop field |
| Request.BuildPayload | tiny-notepad.py:125-138 | the payload always holds the nine base keys (model, the prompt as given, `stream` true, six sampling keys); `stop` is present exactly for a non-empty stop list and is never an empty list |
| Request.PayloadCarriesSampling | tiny-notepad.py:129-134 | each numeric value is sent under its own key |
| Request.StopKeyPresence | tiny-notepad.py:119-138 | after parsing, `stop` is in the payload exactly when the stop field is not all whitespace, and then it holds (commas + 1) entries |
| Stream.Consume | tiny-notepad.py:142-153 | the reading loop reports a fault exactly when some line raises, and the text it has appended is always a prefix of what every line of the reply contributes |
| Stream.Render | tiny-notepad.py:140-153 | everything the worker appends for a reply starts with the text the reading loop appended |
| Stream.Pump | tiny-notepad.py:140-154 | the reading loop, run over the lines, appends exactly `Stream.Render` of the reply |
| Stream.StreamedAppend | tiny-notepad.py:142-147 | the streamed text of two line runs in sequence is the concatenation of their texts |
| Stream.ConsumeAll | tiny-notepad.py:142-149 | when no line raises, every line is read and every record's `response` (or `""`) is appended in stream order |
| Stream.ConsumeUntilFatal | tiny-notepad.py:142-153 | the first line that raises (not UTF-8, not an object, or a `null` response) stops the loop: the text of the lines before it stays and no later line is read |
| Stream.NormalEnd | tiny-notepad.py:150 | on a clean end, exactly one newline follows the streamed text |
| Stream.BrokenEnd | tiny-notepad.py:152-153 | a transport error keeps the text already appended and adds the error tail instead of the newline |
| Stream.FatalEnd | tiny-notepad.py:144-153 | a line that raises ends the output with the error tail, whatever lines or ending follow it |
| Stream.NullResponseEnds | tiny-notepad.py:144-153 | a record whose `response` is `null` ends the reply with the error tail, keeping the text before it, instead of appending the empty default |
| Stream.SkipIgnorable | tiny-notepad.py:143-149 | blank lines and lines that are not JSON can be inserted anywhere without changing the outcome |
| Stream.DoneIgnored | tiny-notepad.py:142-147 | the `done` flag is never consulted: changing it on any line changes nothing, so reading goes on until the reply ends |
| Stream.OneMalformed | tiny-notepad.py:142-150 | one malformed line among valid records yields exactly the records' text in order, then the newline |
| Stream.HiThere | tiny-notepad.py:140-151 | records "Hi", " there" and an empty final one marked done render as `"Hi there\n"` |
| Stream.SilentObjects | tiny-notepad.py:146 | objects without a `response` member (such as a server error body) show nothing but the closing newline |
| Session.Submit | tiny-notepad.py:97-106 | a prompt that is all whitespace changes nothing and starts no worker; otherwise the output gains the echo of the stripped prompt and the model, the entry is cleared, and the worker gets the unstripped prompt |
| Session.ResubmitIgnored | tiny-notepad.py:100-105 | because the entry is cleared, an immediate second press is ignored and the prompt is not echoed twice |
| Session.NoSingleFlight | tiny-notepad.py:97-106 | a new non-blank prompt is accepted while an earlier worker may still be running |
| Session.Worker | tiny-notepad.py:108-154 | no request is sent exactly when a control fails to parse, and then the only text appended is one parameter error; otherwise the built payload is sent and the rendered reply appended |
| Session.Generate | tiny-notepad.py:97-154 | a press followed by its worker only appends to the output |
| Session.BlankPromptInert | tiny-notepad.py:100-101 | a blank prompt leaves the screen unchanged and sends nothing |
| Session.ParameterFailure | tiny-notepad.py:102-123 | with a failing control, the echo is followed by exactly one parameter error naming the first failing control, and nothing is sent |
| Session.AcceptedRequest | tiny-notepad.py:98-141 | with parseable controls, the prompt is sent exactly as typed with streaming on, and the output is the echo followed by the rendered reply |
| Supervisor.Step | tiny-notepad.py:51-75 | every transition moves strictly forward, emits at most one message, and keeps the phase and counter invariant |
| Supervisor.Drive | tiny-notepad.py:51-75 | driving from any state finishes, keeps the messages already emitted, and keeps the invariant |
| Supervisor.Run | tiny-notepad.py:51-75 | a run finishes with at most one spawn, one or two probes (two only after a spawn) and at most three messages |
| Supervisor.Messages | tiny-notepad.py:51-75 | the decision tree as nested in the source emits at most three messages, and none exactly when the first probe raises something other than a connection error |
| Supervisor.StartMessages | tiny-notepad.py:60-75 | the start path emits one or two messages, two exactly when the spawn succeeds, and then "Starting" comes first |
| Supervisor.RunMatchesTree | tiny-notepad.py:51-75 | the state machine emits exactly the decision tree's messages, spawns exactly on the start path, and re-probes exactly after a successful spawn |
| Supervisor.AlreadyRunning | tiny-notepad.py:52-56 | a 200 on the first probe emits one "running" message and never spawns |
| Supervisor.FirstProbeEscapes | tiny-notepad.py:52-58 | any exception other than a connection error on the first probe ends the check with no message and no spawn |
| Supervisor.StartPath | tiny-notepad.py:52-61 | the supervisor spawns exactly when the first probe is a connection error or a non-200 answer, and only the connection error is announced with "not running" |
| Supervisor.AfterSpawn | tiny-notepad.py:60-73 | after a successful spawn, "Starting" is followed by exactly one verdict: started (200), failed to connect (other status) or still can't connect (exception) |
| Supervisor.SpawnFailure | tiny-notepad.py:60-75 | a spawn exception is reported as "Error" and no follow-up probe is made |
| Supervisor.NeverHealthy | tiny-notepad.py:53-71 | a daemon that always answers non-200 causes one spawn and one follow-up probe, and the label ends on "Failed to connect" |
| Supervisor.GreenIffHealthy | tiny-notepad.py:52-73 | the label ends on a green message exactly when some probe got a 200 |
| Catalog.Names | tiny-notepad.py:92 | names are produced exactly when every entry has one, one per entry, in response order |
| Catalog.ListModels | tiny-notepad.py:87-95 | a successful listing gives each entry's `name` in order; any failure (unreachable, status 400-599, undecodable body, non-object body, `models` not iterable, an entry without `name`) gives `[]` |
| Catalog.BuildMenu | tiny-notepad.py:221-226 | the menu is never empty, an empty listing is replaced by `llama3.2`, and the first choice is the initial selection |
| Catalog.InitialSelection | tiny-notepad.py:221-226 | the initial selection is the first listed name, or `llama3.2` when the listing failed or was empty |
| Catalog.ServerErrorFallsBack | tiny-notepad.py:88-95 | a server error status gives `[]` and the menu holds only the default model |
| Catalog.MissingModelsKey | tiny-notepad.py:92 | a body without `models` is an empty listing |
| Catalog.NamelessDiscardsAll | tiny-notepad.py:92-95 | one entry without a `name` discards the whole listing |
| Catalog.NonErrorStatusIsRead | tiny-notepad.py:89-92 | statuses outside 400-599 are not failures: the listed names come through |

## Left out

- Widgets, layout and styling (tiny-notepad.py:157-265) are not modelled. The output area is an append-only string and the status label is the list of messages sent to it.
- Note saving, loading and the history sidebar (tiny-notepad.py:14-48) are file I/O and are not modelled. gui-notepad.py is a bare editor window and is not part of this model.
- Threads and `root.after` are not modelled (tiny-notepad.py:77, 83-84, 106). A submission and its worker are composed in sequence, and the supervisor's messages are delivered in the order they are emitted.
- HTTP requests, `subprocess.Popen`, timeouts and `time.sleep` are not modelled. Each is an outcome value passed in (`Supervisor.World`, `Catalog.Tags`, `Stream.Reply`).
- Cutting the byte stream into lines (`iter_lines`) and JSON decoding are library code. The model starts from already classified lines, so nothing is claimed about splitting at arbitrary byte boundaries.
- Converting the slider values to `float`/`int` and the slider ranges are not modelled. A control either parses to an opaque value or fails with a message.
- Console output is not modelled: neither the `print` at tiny-notepad.py:94 nor the traceback printed when a supervisor thread dies on an uncaught exception.
- Exception texts are opaque strings. A `response` value that is neither a string nor `null` is taken as the text it displays as.
- Request.BuildPayload: the payload is a map, so the key order of the serialised JSON body is not modelled.
- Session.Generate: its own contract states only that the output grows; what the output contains is stated by Session.BlankPromptInert, Session.ParameterFailure and Session.AcceptedRequest.
