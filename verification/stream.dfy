/** The streaming loop of `Stream`: read a line, decode it, dispatch it, until a read fails. */
module Stream {
  import opened Wrappers
  import opened Model
  import opened Regex
  import opened Dispatcher

  /**
   * What decoding one line yields: the entry as decoding left it (zero-valued
   * or partly filled when decoding failed) and whether decoding reported an error.
   */
  datatype Decoded = Decoded(entry: Entry, failed: bool)

  /** One read of the response body: a full line, or an error (end of stream included) with the bytes read so far. */
  datatype Read = Line(bytes: seq<byte>) | ReadError(partial: seq<byte>)

  /** What the connection step produces. */
  datatype Connection =
    | Malformed                     // the request could not be built from the stream URL
    | Unreachable                   // sending the request failed
    | Connected(body: seq<Read>)    // the reads the response body yields, in order

  /** The authenticated GET request the stream opens. */
  datatype StreamRequest = StreamRequest(url: string, username: string, password: string)

  /** What happens to a line whose decoding reported an error. */
  datatype Policy =
    | AsWritten       // the error is ignored and the entry is dispatched anyway
    | SkipMalformed   // the line is dropped without dispatch

  /** `Streaming`: still waiting for the next line. `Aborted`: the process panicked. */
  datatype Status = Streaming | Aborted(cause: Panic)

  /** The handler calls made, in order, and how the run stands. */
  datatype Outcome<H> = Outcome(trace: seq<Invocation<H>>, status: Status)

  /** Index of the first failed read, or `|input|` when every read yielded a line. */
  function FirstError(input: seq<Read>): (n: nat)
    ensures n <= |input|
    ensures forall i :: 0 <= i < n ==> input[i].Line?
    ensures n < |input| ==> input[n].ReadError?
  {
    if |input| == 0 || input[0].ReadError? then 0 else 1 + FirstError(input[1..])
  }

  /** Every read yielded a line. */
  predicate AllLines(input: seq<Read>)
  {
    forall i :: 0 <= i < |input| ==> input[i].Line?
  }

  /** Arrival positions strictly increase along a trace. */
  predicate InArrivalOrder<H>(trace: seq<Invocation<H>>)
  {
    forall j, k :: 0 <= j < k < |trace| ==> trace[j].arrival < trace[k].arrival
  }

  /** The handler call (if any) one line causes: decode it, then dispatch the entry. */
  function Step<H>(d: Dialect, cmds: seq<Command<H>>, decode: seq<byte> -> Decoded, policy: Policy,
                   bytes: seq<byte>): (r: Option<Call<H>>)
    ensures r.Some? ==> r.value.entry == decode(bytes).entry && r.value.binding < |cmds|
    ensures policy == SkipMalformed && decode(bytes).failed ==> r.None?
  {
    var u := decode(bytes);
    if policy == SkipMalformed && u.failed then None else Dispatch(d, cmds, u.entry)
  }

  /**
   * One line fires the first binding its decoded content matches, with the
   * decoded entry, or nothing when no binding matches; under the corrected
   * policy a line whose decoding failed fires nothing.
   */
  lemma StepSelects<H>(d: Dialect, cmds: seq<Command<H>>, decode: seq<byte> -> Decoded, policy: Policy,
                       bytes: seq<byte>)
    ensures var r := Step(d, cmds, decode, policy, bytes);
      && (r.Some? ==> r.value.entry == decode(bytes).entry)
      && (r.Some? ==> FirstMatch(d, cmds, decode(bytes).entry.content, r.value.binding))
      && (r.Some? ==> r.value.command == cmds[r.value.binding])
      && (policy == SkipMalformed && decode(bytes).failed ==> r.None?)
      && (policy == AsWritten || !decode(bytes).failed ==>
            (r.None? <==> NoMatch(d, cmds, decode(bytes).entry.content)))
  {
  }

  /** The per-line step of a run over a fixed registry, decoder and policy. */
  function Stepper<H>(d: Dialect, cmds: seq<Command<H>>, decode: seq<byte> -> Decoded, policy: Policy)
    : seq<byte> -> Option<Call<H>>
  {
    bytes => Step(d, cmds, decode, policy, bytes)
  }

  /**
   * The loop over the reads, the first one arriving at position `base`: every
   * line before the first failed read goes through `fire`, and the call it
   * yields (if any) is recorded; the failed read ends the run.
   */
  function Loop<H>(fire: seq<byte> -> Option<Call<H>>, input: seq<Read>, base: nat): (r: Outcome<H>)
    ensures |r.trace| <= |input|
    decreases |input|
  {
    if |input| == 0 then Outcome([], Streaming)
    else if input[0].ReadError? then Outcome([], Aborted(ReadPanic(base)))
    else Prepend(fire(input[0].bytes), base, Loop(fire, input[1..], base + 1))
  }

  /** Put a handler call, if there is one, in front of a later outcome. */
  function Prepend<H>(fired: Option<Call<H>>, arrival: nat, later: Outcome<H>): Outcome<H>
  {
    if fired.Some? then Outcome([Invocation(arrival, fired.value)] + later.trace, later.status) else later
  }

  /** The request `Stream` sends: the stream URL with the configured basic-auth credentials. */
  function RequestOf(cfg: Config): StreamRequest
  {
    StreamRequest(cfg.streamUrl, cfg.authUsername, cfg.authPassword)
  }

  /** `Stream()`: connect (panicking when that fails), then run the loop on the response body. */
  function Run<H>(d: Dialect, s: State<H>, connect: StreamRequest -> Connection,
                  decode: seq<byte> -> Decoded, policy: Policy): (r: Outcome<H>)
    ensures connect(RequestOf(s.config)) == Malformed ==> r == Outcome([], Aborted(RequestPanic))
    ensures connect(RequestOf(s.config)) == Unreachable ==> r == Outcome([], Aborted(ConnectPanic))
    ensures connect(RequestOf(s.config)).Connected? ==> |r.trace| <= |connect(RequestOf(s.config)).body|
  {
    match connect(RequestOf(s.config))
    case Malformed => Outcome([], Aborted(RequestPanic))
    case Unreachable => Outcome([], Aborted(ConnectPanic))
    case Connected(body) => Loop(Stepper(d, s.commands, decode, policy), body, 0)
  }

  /**
   * The run is still streaming exactly when every read yielded a line;
   * otherwise it aborted at the position of the first failed read. At most
   * one handler call is made per line read before that.
   */
  lemma {:induction false} LoopStatus<H>(fire: seq<byte> -> Option<Call<H>>, input: seq<Read>, base: nat)
    ensures var r := Loop(fire, input, base);
      && |r.trace| <= FirstError(input)
      && (FirstError(input) == |input| ==> r.status == Streaming)
      && (FirstError(input) < |input| ==> r.status == Aborted(ReadPanic(base + FirstError(input))))
    decreases |input|
  {
    if |input| > 0 && input[0].Line? {
      LoopStatus(fire, input[1..], base + 1);
    }
  }

  /** `inv` is the handler call that the line at its arrival position yields. */
  ghost predicate FiredBy<H>(fire: seq<byte> -> Option<Call<H>>, input: seq<Read>, base: nat, inv: Invocation<H>)
  {
    && base <= inv.arrival < base + |input|
    && input[inv.arrival - base].Line?
    && fire(input[inv.arrival - base].bytes) == Some(inv.call)
  }

  /** Every handler call in the trace is exactly the call that the line at its arrival position yields. */
  lemma {:induction false} LoopSound<H>(fire: seq<byte> -> Option<Call<H>>, input: seq<Read>, base: nat)
    ensures forall inv :: inv in Loop(fire, input, base).trace ==> FiredBy(fire, input, base, inv)
    decreases |input|
  {
    if |input| > 0 && input[0].Line? {
      LoopSound(fire, input[1..], base + 1);
      var rest := Loop(fire, input[1..], base + 1).trace;
      var t := Loop(fire, input, base).trace;
      var head := if fire(input[0].bytes).Some? then [Invocation(base, fire(input[0].bytes).value)] else [];
      assert t == head + rest;
      forall inv | inv in t
        ensures FiredBy(fire, input, base, inv)
      {
        if inv !in head {
          assert FiredBy(fire, input[1..], base + 1, inv);
          assert input[1..][inv.arrival - (base + 1)] == input[inv.arrival - base];
        }
      }
    }
  }

  /**
   * Handler calls come from lines read before the first failed read and
   * appear in arrival order, so no line fires twice.
   */
  lemma {:induction false} LoopOrdered<H>(fire: seq<byte> -> Option<Call<H>>, input: seq<Read>, base: nat)
    ensures var t := Loop(fire, input, base).trace;
      && (forall k :: 0 <= k < |t| ==> base <= t[k].arrival < base + FirstError(input))
      && InArrivalOrder(t)
    decreases |input|
  {
    if |input| > 0 && input[0].Line? {
      LoopOrdered(fire, input[1..], base + 1);
      var rest := Loop(fire, input[1..], base + 1).trace;
      assert FirstError(input) == 1 + FirstError(input[1..]);
      if fire(input[0].bytes).Some? {
        var t := Loop(fire, input, base).trace;
        assert t == [Invocation(base, fire(input[0].bytes).value)] + rest;
        assert forall k :: 0 < k < |t| ==> t[k] == rest[k - 1];
      }
    }
  }

  /** Every line that yields a handler call before the first failed read appears in the trace. */
  lemma {:induction false} LoopFiresEveryMatch<H>(fire: seq<byte> -> Option<Call<H>>, input: seq<Read>, base: nat, i: nat)
    requires i < FirstError(input)
    requires fire(input[i].bytes).Some?
    ensures Invocation(base + i, fire(input[i].bytes).value) in Loop(fire, input, base).trace
    decreases i
  {
    if i > 0 {
      assert input[1..][i - 1] == input[i];
      LoopFiresEveryMatch(fire, input[1..], base + 1, i - 1);
    }
  }

  /**
   * Splitting the input: when the first part reads without error, the run over
   * both parts is the run over the first followed by the run over the second.
   */
  lemma {:induction false} LoopAppend<H>(fire: seq<byte> -> Option<Call<H>>, a: seq<Read>, b: seq<Read>, base: nat)
    requires AllLines(a)
    ensures Loop(fire, a + b, base) ==
      Outcome(Loop(fire, a, base).trace + Loop(fire, b, base + |a|).trace, Loop(fire, b, base + |a|).status)
    decreases |a|
  {
    if |a| == 0 {
      assert a + b == b;
    } else {
      assert (a + b)[0] == a[0] && (a + b)[1..] == a[1..] + b;
      LoopAppend(fire, a[1..], b, base + 1);
    }
  }

  /** Reading more lines only extends the trace: earlier handler calls are never revised. */
  lemma LoopExtends<H>(fire: seq<byte> -> Option<Call<H>>, a: seq<Read>, b: seq<Read>, base: nat)
    requires AllLines(a)
    ensures Loop(fire, a, base).trace <= Loop(fire, a + b, base).trace
  {
    LoopAppend(fire, a, b, base);
  }

  /**
   * The first failed read ends the run: the outcome is the trace of the lines
   * before it, the run is aborted at that position, and no later read matters.
   */
  lemma StopsAtFirstError<H>(fire: seq<byte> -> Option<Call<H>>, input: seq<Read>, base: nat)
    requires FirstError(input) < |input|
    ensures Loop(fire, input, base) ==
      Outcome(Loop(fire, input[..FirstError(input)], base).trace, Aborted(ReadPanic(base + FirstError(input))))
  {
    var n := FirstError(input);
    assert input == input[..n] + input[n..];
    LoopAppend(fire, input[..n], input[n..], base);
  }

  /**
   * As written, a line whose decoding failed is still dispatched: the entry
   * decoding left behind fires the first binding it matches.
   */
  lemma FailedDecodeStillDispatched<H>(d: Dialect, cmds: seq<Command<H>>, decode: seq<byte> -> Decoded,
                                       input: seq<Read>, i: nat)
    requires i < FirstError(input)
    requires decode(input[i].bytes).failed
    requires Dispatch(d, cmds, decode(input[i].bytes).entry).Some?
    ensures Invocation(i, Dispatch(d, cmds, decode(input[i].bytes).entry).value)
      in Loop(Stepper(d, cmds, decode, AsWritten), input, 0).trace
  {
    LoopFiresEveryMatch(Stepper(d, cmds, decode, AsWritten), input, 0, i);
  }

  /** With the corrected policy, every handler call comes from a line that decoded cleanly. */
  lemma SkipMalformedFiresOnlyOnDecoded<H>(d: Dialect, cmds: seq<Command<H>>, decode: seq<byte> -> Decoded,
                                           input: seq<Read>, k: nat)
    requires k < |Loop(Stepper(d, cmds, decode, SkipMalformed), input, 0).trace|
    ensures var inv := Loop(Stepper(d, cmds, decode, SkipMalformed), input, 0).trace[k];
      inv.arrival < |input| && input[inv.arrival].Line? && !decode(input[inv.arrival].bytes).failed
  {
    var fire := Stepper(d, cmds, decode, SkipMalformed);
    LoopSound(fire, input, 0);
    var inv := Loop(fire, input, 0).trace[k];
    assert FiredBy(fire, input, 0, inv);
    StepSelects(d, cmds, decode, SkipMalformed, input[inv.arrival].bytes);
  }

  /**
   * The loop as written, statement by statement: read, panic on a read error,
   * decode, dispatch to the first matching command.
   */
  method Stream<H>(d: Dialect, s: State<H>, connect: StreamRequest -> Connection,
                   decode: seq<byte> -> Decoded, policy: Policy) returns (o: Outcome<H>)
    ensures o == Run(d, s, connect, decode, policy)
  {
    var conn := connect(RequestOf(s.config));
    match conn {
      case Malformed =>
        return Outcome([], Aborted(RequestPanic));
      case Unreachable =>
        return Outcome([], Aborted(ConnectPanic));
      case Connected(body) =>
        ghost var fire := Stepper(d, s.commands, decode, policy);
        var trace: seq<Invocation<H>> := [];
        var i := 0;
        while i < |body|
          invariant 0 <= i <= |body|
          invariant AllLines(body[..i])
          invariant trace == Loop(fire, body[..i], 0).trace
        {
          match body[i] {
            case ReadError(_) =>
              assert FirstError(body) == i by {
                assert FirstError(body[..i]) == i;
                assert body == body[..i] + body[i..];
              }
              StopsAtFirstError(fire, body, 0);
              return Outcome(trace, Aborted(ReadPanic(i)));
            case Line(bytes) =>
              var u := decode(bytes);
              var fired: Option<Call<H>> := None;
              if !(policy == SkipMalformed && u.failed) {
                fired := DispatchEntry(d, s.commands, u.entry);
              }
              if fired.Some? {
                trace := trace + [Invocation(i, fired.value)];
              }
              assert body[..i + 1] == body[..i] + [body[i]];
              LoopAppend(fire, body[..i], [body[i]], 0);
              i := i + 1;
          }
        }
        assert body[..i] == body;
        LoopAppend(fire, body, [], 0);
        assert body + [] == body;
        return Outcome(trace, Streaming);
    }
  }
}
