/** The records and process-wide state of the Flowdock robot library (flowbot.go). */
module Model {

  /** One byte of the streamed response body. */
  newtype byte = b: int | 0 <= b < 256

  /** The configuration variables; the library keeps them as package globals. */
  datatype Config = Config(
    robotName: string,
    chatUrl: string,
    inboxUrl: string,
    streamUrl: string,
    flowToken: string,
    authUsername: string,
    authPassword: string)

  /** The values the globals hold before any caller assigns them; unset strings are empty. */
  const DefaultConfig: Config := Config(
    "Flowbot",
    "https://api.flowdock.com/v1/messages/chat/",
    "https://api.flowdock.com/v1/messages/team_inbox/",
    "", "", "", "")

  /** An opaque stand-in for a `time.Time`; the model never inspects it. */
  datatype Instant = Instant(ticks: int)

  /** The zero time value a fresh entry carries. */
  const ZeroInstant: Instant := Instant(0)

  /** One streamed event. Only `content` takes part in command matching. */
  datatype Entry = Entry(
    event: string,
    tags: seq<string>,
    uuid: string,
    persist: bool,
    id: int,
    flow: string,
    content: string,
    sent: int,
    app: string,
    createdAt: Instant,
    attachments: seq<string>,
    user: string,
    threadId: string)

  /** The zero-valued entry a decoding starts from (`var entry Entry`). */
  const ZeroEntry: Entry := Entry("", [], "", false, 0, "", "", 0, "", ZeroInstant, [], "", "")

  /** A registered binding: the source text of a compiled pattern and a handler reference. */
  datatype Command<H> = Command(pattern: string, handler: H)

  /** The package-level state: configuration and the ordered command registry. */
  datatype State<H> = State(config: Config, commands: seq<Command<H>>)

  /** The state at program start: default configuration, no commands. */
  function Initial<H>(): State<H>
  {
    State(DefaultConfig, [])
  }

  /** An outbound chat message. An empty `threadId` is left out of the JSON object. */
  datatype Chat = Chat(content: string, externalUserName: string, threadId: string)

  /** A handler call `command.Handler(command, entry)`, with the position of the binding it belongs to. */
  datatype Call<H> = Call(binding: nat, command: Command<H>, entry: Entry)

  /** A handler call together with the arrival position of the line that caused it. */
  datatype Invocation<H> = Invocation(arrival: nat, call: Call<H>)

  /** The reasons the registry and the stream panic, ending the process. */
  datatype Panic =
    | PatternPanic(pattern: string)  // regexp.MustCompile on a pattern that does not compile
    | RequestPanic                   // the stream request could not be built
    | ConnectPanic                   // the stream request could not be sent
    | ReadPanic(arrival: nat)        // reading the line at this position failed or hit end of stream
}
