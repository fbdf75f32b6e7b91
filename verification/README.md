# flowbot command dispatch, modelled in Dafny

`flowbot` is a Go library for writing robots on the Flowdock chat service. A
program registers commands: each command is a regular expression plus a handler.
It then calls `Stream()`. `Stream()` opens one long-lived HTTP connection to the
flow's event stream and reads it one newline-terminated JSON event at a time.
For each event it runs the handler of the first registered command whose pattern
is found in the event's `content`. Handlers usually answer with `SendChat` or
`SendThreadChat`, which build a chat record and post it to the chat endpoint
with the flow token appended.

This project models that core as pure functions over immutable values:

- `model.dfy` (module `Model`): the records of `flowbot.go`. These are `Entry`,
  `Command`, `Chat` and the configuration globals (`Config`, `DefaultConfig`).
  The package-level state is `State`: the configuration plus the ordered
  `commands` list. Handler calls are recorded as `Invocation`s. Each one holds
  the arrival position of the line and the `Call` it made: the binding index,
  the command and the entry. The reasons the registry and the stream panic are
  the `Panic` values.
- `regex.dfy` (module `Regex`): the regular-expression engine as a `Dialect`.
  A `Dialect` is a pair of functions: which patterns compile, and whether a
  pattern is found in a text. `MatchString` is `regexp.MatchString` with its
  error dropped, so a pattern that does not compile reports no match.
- `registry.dfy` (module `Registry`): `AddCommand` and repeated registration.
- `dispatch.dfy` (module `Dispatcher`): first-match selection over the
  registry (`Select`, `Dispatch`). `DispatchEntry` is the `for … range … break`
  loop written as a method.
- `stream.dfy` (module `Stream`): the read/decode/dispatch loop.
  - The response body is given as a finite sequence of `Read`s. Each is a line,
    or a read error with the bytes read so far; end of stream counts as a read
    error.
  - `Loop` folds that sequence into an `Outcome`: the trace of handler calls,
    and a status. The status is `Streaming` (still waiting for the next line)
    or `Aborted(ReadPanic(i))`.
  - `Run` adds the connection step. `Stream` is the same loop written as a
    method.
  - A `Policy` says what to do with a line whose decoding failed.
    `AsWritten` (what the code does) dispatches it anyway. `SkipMalformed`
    drops it; see Findings.
- `sender.dfy` (module `Sender`): target URLs and JSON objects of `SendChat`,
  `SendThreadChat` and `SendInbox`.
- `scenarios.dfy` (module `Scenarios`): concrete inputs.
  - Patterns use a literal dialect. It agrees with RE2 search on plain literals,
    optionally anchored with a leading `^`.
  - Lines come from a fixed table with a fixture decoder.
  - The inputs cover the default configuration, the registration test, the
    dispatch scenarios, and the decode-error finding.

Four things are parameters of the model: the regex engine, JSON decoding, the
network connection, and handler bodies. A handler is an opaque value of a type
parameter `H`. The model records each call in the trace and assumes the call returns.

## Model

| member | source | states |
|---|---|---|
| `Dispatcher.CompiledSelectIsSearch` | flowbot.go:101-106 | When every registered pattern compiles, dropping `regexp.MatchString`'s error at line 102 changes nothing: the first-match selection equals the same scan using the engine's search directly. |
| `Dispatcher.RegisteredSelectIsSearch` | flowbot.go:75 | For any registry built by `AddCommand` calls from the initial state, every content selects the same binding as the plain search scan, because each pattern compiled at registration. |
| `Registry.AddCommand` | flowbot.go:74-76 | Registration succeeds exactly when the pattern compiles, and otherwise panics with that pattern. On success the registry grows by exactly one binding. Every earlier binding is kept in place. The new binding is last and carries the given pattern and handler. The configuration is untouched, and a registry of compiling patterns stays one. |
| `Registry.RegisterAllSucceeds` | flowbot.go:74-76 | A sequence of `AddCommand` calls completes exactly when every pattern in it compiles. |
| `Registry.RegisterAllAppends` | flowbot.go:75 | A completed sequence of registrations appends all its bindings after the existing ones, in call order. The registry is append-only: nothing is removed or reordered. |
| `Registry.RegisterAllPanics` | flowbot.go:75 | A sequence of registrations that does not complete panics on the first pattern that does not compile. The later registrations never happen. |
| `Registry.RegisterAllKeepsCompiled` | flowbot.go:75 | Every pattern in a registry built by registration compiles. So recompiling it from its source text at line 102 cannot fail. |
| `Dispatcher.Select` | flowbot.go:101-106 | The selected binding is the lowest-index one whose pattern is found in the content. No binding before it matches. Nothing is selected exactly when no binding matches. |
| `Dispatcher.Dispatch` | flowbot.go:101-107 | The handler call for an entry is made by the first matching binding, and it receives that binding's command and the entry itself. No call is made when no pattern matches the content. |
| `Dispatcher.DispatchEntry` | flowbot.go:101-107 | The loop as written (scan in order, call the first match, `break`) makes exactly the call `Dispatch` specifies. |
| `Dispatcher.SelectIsLeastMatch` | flowbot.go:101-106 | Both directions: the selection is some binding `i` if and only if `i` is the least of all matching indices. It is none if and only if the set of matching indices is empty. |
| `Dispatcher.EarlierBindingShadows` | flowbot.go:101-106 | Suppose two bindings both match. Then the selected binding is the earlier one or something before it, and the later one never fires. |
| `Dispatcher.DuplicateNeverFires` | flowbot.go:101-106 | A binding that repeats the pattern of an earlier binding is never selected, whatever the content. |
| `Dispatcher.ContentDecides` | flowbot.go:102 | Two entries with equal `content` select the same binding, or both select none. |
| `Dispatcher.AppendKeepsSelection` | flowbot.go:101-106 | Appending a binding never changes a selection already made. Only contents that no earlier binding matched can reach the new binding. |
| `Stream.FirstError` | flowbot.go:94-96 | The index of the first failed read: every read before it yielded a line, and the read at it failed. |
| `Stream.Step` | flowbot.go:98-107 | One line's handler call, if any: decode, then dispatch. A call carries the decoded entry and a registered binding; under the corrected policy a line whose decoding failed makes no call. `Stream.StepSelects` states the first-match property. |
| `Stream.StepSelects` | flowbot.go:98-107 | One line fires the first binding its decoded content matches, with the decoded entry. As written it fires nothing only when no pattern matches. With the corrected policy, a line whose decoding failed fires nothing. |
| `Stream.Loop` | flowbot.go:94-108 | The `for` loop: no more handler calls than reads. Its behaviour is characterised by `Stream.LoopStatus` (status and first failed read), `Stream.LoopSound` and `Stream.LoopFiresEveryMatch` (exactly the calls the lines select), `Stream.LoopOrdered` (arrival order) and `Stream.LoopAppend` (splitting the input). |
| `Stream.LoopStatus` | flowbot.go:94-96 | The run is still streaming exactly when no read failed. Otherwise it aborts at the position of the first failed read. The trace has no more calls than lines read before that; `Stream.LoopOrdered` gives one call per line. |
| `Stream.LoopSound` | flowbot.go:94-107 | Every call in the trace belongs to a line that was read. It is exactly the call that this line's dispatch makes. |
| `Stream.LoopOrdered` | flowbot.go:94-108 | Calls come only from lines before the first failed read, in strictly increasing arrival order, so no line fires twice. |
| `Stream.LoopFiresEveryMatch` | flowbot.go:94-107 | Every line before the first failed read whose dispatch makes a call has that call in the trace, at its arrival position. |
| `Stream.LoopAppend` | flowbot.go:94-108 | Suppose the first part of the input has no failed read. Then the run over both parts is the run over the first part, followed by the run over the second part. |
| `Stream.LoopExtends` | flowbot.go:94-108 | Reading further lines only extends the trace. Earlier handler calls are never revised. |
| `Stream.StopsAtFirstError` | flowbot.go:95-96 | The first failed read ends the run. The outcome is the trace of the lines before it, aborted at its position. No later read is ever dispatched. |
| `Stream.FailedDecodeStillDispatched` | flowbot.go:98-101 | As written, a line whose decoding failed is still dispatched. The entry decoding left behind fires the first binding it matches. |
| `Stream.SkipMalformedFiresOnlyOnDecoded` | flowbot.go:98-101 | With the corrected policy, every handler call in the trace comes from a line that decoded without error. |
| `Stream.Run` | flowbot.go:79-109 | `Stream()`: a request that cannot be built or sent panics before any handler call; once connected, the trace has no more calls than reads of the response body, and `Stream.LoopOrdered` gives at most one call per read. |
| `Stream.Stream` | flowbot.go:79-109 | The statement-by-statement loop yields exactly the outcome `Run` specifies. That covers a request failure, a connection failure, a read failure at a given line, and still streaming. |
| `Sender.PostUrl` | flowbot.go:137 | A post target splits back into the endpoint base followed by the flow token. |
| `Sender.ChatFields` | flowbot.go:62-66 | A chat record is written as `content` and `external_user_name`, plus `thread_id` exactly when the thread id is not empty. Reading the object back gives the record again. |
| `Sender.PostChat` | flowbot.go:133-137 | `sendChat`: the record is posted unchanged to the chat endpoint followed by the flow token. |
| `Sender.SendChat` | flowbot.go:112-119 | A plain chat goes to the chat endpoint followed by the flow token. Its object has exactly the given content and the robot's name, and no thread id. |
| `Sender.SendThreadChat` | flowbot.go:122-130 | A thread chat goes to the chat endpoint followed by the flow token. Its object reads back as the message, the robot's name and the thread id. It carries `thread_id` exactly when the thread id is not empty. |
| `Sender.ThreadChatExtendsChat` | flowbot.go:112-130 | A thread chat has the same target as a plain chat. Its object is the plain chat's object plus the thread id. With an empty thread id it is the plain chat. |
| `Sender.InboxFields` | flowbot.go:149-154 | The inbox object has exactly the keys `source`, `from_address`, `subject` and `content`. |
| `Sender.SendInbox` | flowbot.go:148-159 | An inbox post goes to the inbox endpoint followed by the flow token. Its object has exactly the keys `source`, `from_address`, `subject` and `content`, empty values included, and they read back as the four arguments. |
| `Scenarios.DefaultsAsDeclared` | flowbot.go:18-31 | The start state holds the declared robot name and the two endpoint URLs. The stream URL, flow token and credentials are empty, and there are no commands. |
| `Scenarios.TwoRegistrations` | flowbot_test.go:37-48 | From the start state (no commands), registering `test-a` and then `test-b` leaves exactly two bindings, in that order. |
| `Scenarios.DeployFiresOnce` | flowbot.go:94-107 | With pattern `^deploy `, one line whose content is `deploy staging` fires the handler exactly once, with that entry. The run keeps streaming. |
| `Scenarios.MalformedThenMatch` | flowbot.go:98-107 | With pattern `foo`, a non-JSON line followed by a `foo bar` line gives one call, for the second line, under either policy. |
| `Scenarios.EndOfStreamAborts` | flowbot.go:94-96 | End of stream after one line: that line fires, the run aborts at position 1, and the line after it is never dispatched. |
| `Scenarios.GarbageFiresEmptyPattern` | flowbot.go:98-102 | As written, a non-JSON line fires the empty pattern with the zero-valued entry. |
| `Scenarios.GarbageSkippedWhenCorrected` | flowbot.go:98-102 | With the corrected policy, the same line fires nothing. |
| `Scenarios.UnreachableStreamPanics` | flowbot.go:86-88 | A stream that cannot connect panics before any handler call. |

## Left out

- Network I/O is not modelled: the HTTP GET with basic auth, `client.Do`, and the POSTs of the senders. Connecting is a parameter `connect` from the request (`RequestOf`: stream URL, user name, password) to a `Connection`. A post is the `ChatPost` or `InboxPost` value that would be sent.
- When `http.NewRequest` fails (flowbot.go:80), `request` is nil and `request.SetBasicAuth` at line 81 panics with a nil-pointer dereference; `check_error(err)` at line 82 is never reached. That single panic is modelled as `RequestPanic`.
- `bufio` line reading is replaced by a given finite sequence of reads. The stream is unbounded: a finite input that has not failed is modelled as still `Streaming`, and `LoopExtends` states that longer inputs only extend the trace.
- The Go `regexp` engine (RE2 search) is left abstract as `Dialect`. The literal dialect in the scenarios is a stand-in for the scenarios only.
- Line 102 recompiles `command.Pattern.String()` for every test. `String()` returns the pattern's source text, and that text compiled at registration. So the model matches on the stored text. `RegisterAllKeepsCompiled` shows the compile step cannot fail there, and `RegisteredSelectIsSearch` shows that selection is then the plain search scan `SearchSelect`.
- `encoding/json` is not modelled. Decoding is a parameter `decode: seq<byte> -> Decoded`: the entry as decoding left it, plus an error flag.
- JSON encoding is modelled as the key/value object (`ChatFields`, `InboxFields`), not as bytes. The `json.Marshal` error checked at lines 134-135 and 156-157 cannot occur for string-only values and is not modelled.
- Strings are Dafny `string`s, sequences of Unicode scalar values. A Go `string` is a byte string, so Go strings holding invalid UTF-8 cannot be expressed in the model.
- Sender.ChatFields: the read-back holds for valid UTF-8 only. `json.Marshal` (flowbot.go:134) replaces invalid UTF-8 in the message, the thread id and the robot name with U+FFFD, so in Go the round-trip fails for exactly those inputs, which the model cannot express.
- The range of Go's `int` for `Entry.id` and `Entry.sent` is not modelled. These are Dafny `int`s, filled only by the abstract decoder.
- `time.Time` is an opaque `Instant`.
- A failed POST is not modelled. `http.Post`'s error at lines 137 and 159 is assigned and never read. When the post fails, `response` is nil, and `response.StatusCode` at line 139 or 161 panics with a nil-pointer dereference. That panic is not a `Panic` value: the sender functions return the post that would be attempted, not whether it was delivered.
- Status-code handling after a post that got a response (lines 139-144 and 161-166) only prints. `ioutil.ReadAll`'s error is dropped and the `fmt.Errorf` value is discarded, so there is no observable result to model.
- Console printing (`fmt.Printf`, `fmt.Print`) is not modelled.
- The model assumes every handler call returns. A handler runs synchronously inside the loop at flowbot.go:104. One that panics (for example `SendChat` after a failed post, flowbot.go:139) or blocks ends or stalls `Stream()` right after its call, so later trace entries and the `Streaming` status do not happen.
- Handler bodies are arbitrary caller code and appear only as the trace of their calls. The Go loop re-reads the global `commands` for each line, so a handler that registers commands would change the registry for later lines. The model keeps the registry fixed for one run.
- Concurrent registration and streaming is not modelled.
- A panic ends the process. It is modelled as a terminal value: a `Failure(PatternPanic(p))` from registration, or an `Aborted` status from the stream.
- `Registry.AddCommand`: a pattern that does not compile gives a `Failure` value. The code panics and ends the process, so there is no registry afterwards to compare. A failed `RegisterAll` likewise returns no state.

## Findings

| source | as written | input that shows it | evidently intended | confidence | as-written member | corrected member |
|---|---|---|---|---|---|---|
| flowbot.go:98-101 | `json.Unmarshal`'s error is stored in `err` and never checked. The zero-valued (or partly filled) entry is dispatched like any other. | A registered pattern `""` (or any pattern that matches empty content, such as `^$`) and one stream line that is not JSON: the handler fires with the zero entry. | A line that fails to decode is skipped without dispatch. `err` is assigned at line 99 and never read, unlike the errors of `ReadBytes`, `NewRequest`, `client.Do` and `json.Marshal`, which go through `check_error`. | medium; not executed | `Scenarios.GarbageFiresEmptyPattern` | `Stream.SkipMalformedFiresOnlyOnDecoded` |

The corrected behaviour is the `SkipMalformed` policy of `Stream.Step`. `Loop`
and all of its lemmas (`LoopStatus`, `LoopSound`, `LoopOrdered`, `LoopAppend`,
`StopsAtFirstError`, …), `Run` and the `Stream` method are stated for both
policies. `Scenarios.GarbageSkippedWhenCorrected` shows the counterexample line
firing nothing under the correction. A pattern that does not compile panics in
`regexp.MustCompile` (flowbot.go:75). The model returns
`Failure(PatternPanic(p))` and no registry.
