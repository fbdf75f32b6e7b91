/** The command registry: an append-only ordered list of (pattern, handler) bindings. */
module Registry {
  import opened Wrappers
  import opened Model
  import opened Regex

  /** Every registered pattern compiles; registration only admits such patterns. */
  predicate Compiled<H>(d: Dialect, cmds: seq<Command<H>>)
  {
    forall i :: 0 <= i < |cmds| ==> d.compiles(cmds[i].pattern)
  }

  /**
   * `AddCommand(pattern, handler)`: compile the pattern (panicking when it does
   * not compile) and append the binding. The configuration is untouched.
   */
  function AddCommand<H>(d: Dialect, s: State<H>, pattern: string, handler: H): (r: Result<State<H>, Panic>)
    ensures r.Success? <==> d.compiles(pattern)
    ensures r.Failure? ==> r.error == PatternPanic(pattern)
    ensures r.Success? ==> r.value.config == s.config
    ensures r.Success? ==> |r.value.commands| == |s.commands| + 1
    ensures r.Success? ==> r.value.commands[..|s.commands|] == s.commands
    ensures r.Success? ==> r.value.commands[|s.commands|] == Command(pattern, handler)
    ensures r.Success? && Compiled(d, s.commands) ==> Compiled(d, r.value.commands)
  {
    if d.compiles(pattern) then
      Success(s.(commands := s.commands + [Command(pattern, handler)]))
    else
      Failure(PatternPanic(pattern))
  }

  /** The bindings a list of registrations describes, in order. */
  function Bindings<H>(regs: seq<(string, H)>): (r: seq<Command<H>>)
    ensures |r| == |regs|
    ensures forall i :: 0 <= i < |regs| ==> r[i] == Command(regs[i].0, regs[i].1)
  {
    if |regs| == 0 then [] else [Command(regs[0].0, regs[0].1)] + Bindings(regs[1..])
  }

  /** Index of the first registration whose pattern does not compile, or `|regs|`. */
  function FirstBadPattern<H>(d: Dialect, regs: seq<(string, H)>): (n: nat)
    ensures n <= |regs|
    ensures forall i :: 0 <= i < n ==> d.compiles(regs[i].0)
    ensures n < |regs| ==> !d.compiles(regs[n].0)
  {
    if |regs| == 0 || !d.compiles(regs[0].0) then 0 else 1 + FirstBadPattern(d, regs[1..])
  }

  /**
   * A sequence of `AddCommand` calls, in order; the first panic ends the run
   * (the remaining registrations never happen).
   */
  function RegisterAll<H>(d: Dialect, s: State<H>, regs: seq<(string, H)>): (r: Result<State<H>, Panic>)
    decreases |regs|
  {
    if |regs| == 0 then Success(s)
    else match AddCommand(d, s, regs[0].0, regs[0].1)
      case Failure(e) => Failure(e)
      case Success(s') => RegisterAll(d, s', regs[1..])
  }

  /** One successful registration step: the head binding goes to the end of the registry. */
  lemma RegisterAllUnfolds<H>(d: Dialect, s: State<H>, regs: seq<(string, H)>)
    requires |regs| > 0 && d.compiles(regs[0].0)
    ensures RegisterAll(d, s, regs) ==
      RegisterAll(d, s.(commands := s.commands + [Command(regs[0].0, regs[0].1)]), regs[1..])
  {
  }

  /** Registering a list succeeds exactly when every pattern in it compiles. */
  lemma {:induction false} RegisterAllSucceeds<H>(d: Dialect, s: State<H>, regs: seq<(string, H)>)
    ensures RegisterAll(d, s, regs).Success? <==> FirstBadPattern(d, regs) == |regs|
    decreases |regs|
  {
    if |regs| > 0 && d.compiles(regs[0].0) {
      RegisterAllUnfolds(d, s, regs);
      RegisterAllSucceeds(d, s.(commands := s.commands + [Command(regs[0].0, regs[0].1)]), regs[1..]);
    }
  }

  /**
   * A successful registration of a list appends all its bindings, in order,
   * after the existing ones and leaves the configuration alone.
   */
  lemma {:induction false} RegisterAllAppends<H>(d: Dialect, s: State<H>, regs: seq<(string, H)>)
    requires RegisterAll(d, s, regs).Success?
    ensures RegisterAll(d, s, regs).value.config == s.config
    ensures RegisterAll(d, s, regs).value.commands == s.commands + Bindings(regs)
    decreases |regs|
  {
    if |regs| == 0 {
      assert s.commands + Bindings(regs) == s.commands;
    } else {
      var c := Command(regs[0].0, regs[0].1);
      var s' := s.(commands := s.commands + [c]);
      RegisterAllUnfolds(d, s, regs);
      RegisterAllAppends(d, s', regs[1..]);
      assert s.commands + ([c] + Bindings(regs[1..])) == (s.commands + [c]) + Bindings(regs[1..]);
    }
  }

  /** A failed registration of a list panics on the first pattern that does not compile. */
  lemma {:induction false} RegisterAllPanics<H>(d: Dialect, s: State<H>, regs: seq<(string, H)>)
    requires RegisterAll(d, s, regs).Failure?
    ensures FirstBadPattern(d, regs) < |regs|
    ensures RegisterAll(d, s, regs).error == PatternPanic(regs[FirstBadPattern(d, regs)].0)
    decreases |regs|
  {
    if d.compiles(regs[0].0) {
      var s' := s.(commands := s.commands + [Command(regs[0].0, regs[0].1)]);
      RegisterAllUnfolds(d, s, regs);
      RegisterAllPanics(d, s', regs[1..]);
      assert regs[1..][FirstBadPattern(d, regs[1..])] == regs[FirstBadPattern(d, regs)];
    }
  }

  /** Registration keeps the registry compiled, so line 102's recompilation never fails. */
  lemma {:induction false} RegisterAllKeepsCompiled<H>(d: Dialect, s: State<H>, regs: seq<(string, H)>)
    requires Compiled(d, s.commands)
    ensures RegisterAll(d, s, regs).Success? ==> Compiled(d, RegisterAll(d, s, regs).value.commands)
    decreases |regs|
  {
    if |regs| > 0 && d.compiles(regs[0].0) {
      RegisterAllUnfolds(d, s, regs);
      RegisterAllKeepsCompiled(d, s.(commands := s.commands + [Command(regs[0].0, regs[0].1)]), regs[1..]);
    }
  }
}
