/**
 * Concrete inputs: the repository's registration test, three dispatch
 * scenarios (an anchored pattern, a malformed line before a match, end of
 * stream), and the decode-error finding, over a small literal-pattern dialect
 * and a fixed table of lines.
 */
module Scenarios {
  import opened Model
  import opened Regex
  import opened Registry
  import opened Stream

  /** `p` occurs somewhere in `c`. */
  predicate Contains(p: string, c: string)
    decreases |c|
  {
    p <= c || (|c| > 0 && Contains(p, c[1..]))
  }

  /**
   * A dialect that agrees with RE2 search on literal patterns, optionally
   * anchored with a leading `^`; every scenario below uses only such patterns.
   */
  function Literal(): Dialect
  {
    Dialect(p => true, (p, c) => if |p| > 0 && p[0] == '^' then p[1..] <= c else Contains(p, c))
  }

  /** An entry carrying only the given content. */
  function WithContent(content: string): Entry
  {
    ZeroEntry.(content := content)
  }

  /** Three fixture lines: two well-formed events and one line that is not JSON. */
  const DeployLine: seq<byte> := [1]
  const FooLine: seq<byte> := [2]
  const Garbage: seq<byte> := [3]

  /** The decoder for the fixture lines; anything else fails and leaves the zero entry. */
  function FixtureDecode(bytes: seq<byte>): Decoded
  {
    if bytes == DeployLine then Decoded(WithContent("deploy staging"), false)
    else if bytes == FooLine then Decoded(WithContent("foo bar"), false)
    else Decoded(ZeroEntry, true)
  }

  /** The start state: the declared defaults, empty stream settings and credentials, and no commands. */
  lemma DefaultsAsDeclared()
    ensures Initial<nat>().config.robotName == "Flowbot"
    ensures Initial<nat>().config.chatUrl == "https://api.flowdock.com/v1/messages/chat/"
    ensures Initial<nat>().config.inboxUrl == "https://api.flowdock.com/v1/messages/team_inbox/"
    ensures Initial<nat>().config.streamUrl == "" && Initial<nat>().config.flowToken == ""
    ensures Initial<nat>().config.authUsername == "" && Initial<nat>().config.authPassword == ""
    ensures Initial<nat>().commands == []
  {
  }

  /** Two registrations from the start state leave two bindings, in call order. */
  lemma TwoRegistrations()
    ensures var r := RegisterAll(Literal(), Initial<nat>(), [("test-a", 0), ("test-b", 1)]);
      && |Initial<nat>().commands| == 0
      && r.Success?
      && r.value.commands == [Command("test-a", 0), Command("test-b", 1)]
  {
    var regs: seq<(string, nat)> := [("test-a", 0), ("test-b", 1)];
    RegisterAllSucceeds(Literal(), Initial<nat>(), regs);
    RegisterAllAppends(Literal(), Initial<nat>(), regs);
  }

  /** An anchored pattern fires exactly once, with the decoded content, for the one line streamed. */
  lemma DeployFiresOnce()
    ensures var cmd := Command("^deploy ", 0);
      Loop(Stepper(Literal(), [cmd], FixtureDecode, AsWritten), [Line(DeployLine)], 0) ==
      Outcome([Invocation(0, Call(0, cmd, WithContent("deploy staging")))], Streaming)
  {
    assert "deploy " <= "deploy staging";
  }

  /**
   * A line that is not JSON followed by a line containing the pattern: one
   * handler call, for the second line, under either policy.
   */
  lemma MalformedThenMatch(policy: Policy)
    ensures var cmd := Command("foo", 0);
      Loop(Stepper(Literal(), [cmd], FixtureDecode, policy), [Line(Garbage), Line(FooLine)], 0).trace ==
      [Invocation(1, Call(0, cmd, WithContent("foo bar")))]
  {
    assert "foo" <= "foo bar";
    assert !Contains("foo", "");
  }

  /** End of stream after one line: that line is dispatched, the run aborts, the read after it is never made. */
  lemma EndOfStreamAborts()
    ensures var cmd := Command("foo", 0);
      Loop(Stepper(Literal(), [cmd], FixtureDecode, AsWritten), [Line(FooLine), ReadError([]), Line(FooLine)], 0) ==
      Outcome([Invocation(0, Call(0, cmd, WithContent("foo bar")))], Aborted(ReadPanic(1)))
  {
    assert "foo" <= "foo bar";
  }

  /**
   * As written, a line that is not JSON fires the empty pattern with the zero
   * entry: the decode error is ignored and empty content matches.
   */
  lemma GarbageFiresEmptyPattern()
    ensures var cmd := Command("", 0);
      Loop(Stepper(Literal(), [cmd], FixtureDecode, AsWritten), [Line(Garbage)], 0).trace ==
      [Invocation(0, Call(0, cmd, ZeroEntry))]
  {
    assert Contains("", "");
  }

  /** With the corrected policy the same line fires nothing. */
  lemma GarbageSkippedWhenCorrected()
    ensures var cmd := Command("", 0);
      Loop(Stepper(Literal(), [cmd], FixtureDecode, SkipMalformed), [Line(Garbage)], 0).trace == []
  {
  }

  /** A stream that cannot connect panics before any handler call. */
  lemma UnreachableStreamPanics(s: State<nat>)
    ensures Run(Literal(), s, _ => Unreachable, FixtureDecode, AsWritten) == Outcome([], Aborted(ConnectPanic))
  {
  }
}
