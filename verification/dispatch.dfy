/** First-match dispatch of one entry against the registry (the inner loop of `Stream`). */
module Dispatcher {
  import opened Wrappers
  import opened Model
  import opened Regex
  import opened Registry

  /** Binding `i` is the first one whose pattern is found in `content`. */
  predicate FirstMatch<H>(d: Dialect, cmds: seq<Command<H>>, content: string, i: nat)
  {
    && i < |cmds|
    && MatchString(d, cmds[i].pattern, content)
    && forall j :: 0 <= j < i ==> !MatchString(d, cmds[j].pattern, content)
  }

  /** No binding's pattern is found in `content`. */
  predicate NoMatch<H>(d: Dialect, cmds: seq<Command<H>>, content: string)
  {
    forall j :: 0 <= j < |cmds| ==> !MatchString(d, cmds[j].pattern, content)
  }

  /** The positions of all bindings whose pattern is found in `content`. */
  function Matching<H>(d: Dialect, cmds: seq<Command<H>>, content: string): set<nat>
  {
    set j: nat | j < |cmds| && MatchString(d, cmds[j].pattern, content)
  }

  /** The binding a content selects: scan in registration order, stop at the first match. */
  function Select<H>(d: Dialect, cmds: seq<Command<H>>, content: string): (r: Option<nat>)
    ensures r.Some? ==> FirstMatch(d, cmds, content, r.value)
    ensures r.None? ==> NoMatch(d, cmds, content)
    decreases |cmds|
  {
    if |cmds| == 0 then None
    else if MatchString(d, cmds[0].pattern, content) then Some(0)
    else match Select(d, cmds[1..], content)
      case None => None
      case Some(i) => Some(i + 1)
  }

  /** The handler call one decoded entry causes, if any. */
  function Dispatch<H>(d: Dialect, cmds: seq<Command<H>>, entry: Entry): (r: Option<Call<H>>)
    ensures r.Some? ==> FirstMatch(d, cmds, entry.content, r.value.binding)
    ensures r.Some? ==> r.value == Call(r.value.binding, cmds[r.value.binding], entry)
    ensures r.None? ==> NoMatch(d, cmds, entry.content)
  {
    match Select(d, cmds, entry.content)
    case None => None
    case Some(i) => Some(Call(i, cmds[i], entry))
  }

  /**
   * The dispatch loop as written: walk the bindings in order, call the first
   * matching handler, then `break`.
   */
  method DispatchEntry<H>(d: Dialect, cmds: seq<Command<H>>, entry: Entry) returns (fired: Option<Call<H>>)
    ensures fired == Dispatch(d, cmds, entry)
  {
    var k := 0;
    while k < |cmds|
      invariant 0 <= k <= |cmds|
      invariant forall j :: 0 <= j < k ==> !MatchString(d, cmds[j].pattern, entry.content)
    {
      if MatchString(d, cmds[k].pattern, entry.content) {
        fired := Some(Call(k, cmds[k], entry));
        return;
      }
      k := k + 1;
    }
    fired := None;
  }

  /** The selected binding is exactly the least of all matching bindings; none iff none match. */
  lemma SelectIsLeastMatch<H>(d: Dialect, cmds: seq<Command<H>>, content: string, i: nat)
    ensures Select(d, cmds, content) == Some(i) <==>
      (i in Matching(d, cmds, content) && forall j :: j in Matching(d, cmds, content) ==> i <= j)
    ensures Select(d, cmds, content) == None <==> Matching(d, cmds, content) == {}
  {
    var r := Select(d, cmds, content);
    if r.Some? {
      assert r.value in Matching(d, cmds, content);
    }
  }

  /** Of two matching bindings, the later one never fires; the earlier one or something before it does. */
  lemma EarlierBindingShadows<H>(d: Dialect, cmds: seq<Command<H>>, content: string, i: nat, j: nat)
    requires i < j < |cmds|
    requires MatchString(d, cmds[i].pattern, content)
    requires MatchString(d, cmds[j].pattern, content)
    ensures Select(d, cmds, content).Some?
    ensures Select(d, cmds, content).value <= i
  {
  }

  /** A binding that repeats an earlier binding's pattern can never fire. */
  lemma DuplicateNeverFires<H>(d: Dialect, cmds: seq<Command<H>>, i: nat, j: nat, content: string)
    requires i < j < |cmds|
    requires cmds[i].pattern == cmds[j].pattern
    ensures Select(d, cmds, content) != Some(j)
  {
  }

  /** Only `content` decides dispatch: entries with equal content fire the same binding, or none. */
  lemma ContentDecides<H>(d: Dialect, cmds: seq<Command<H>>, e1: Entry, e2: Entry)
    requires e1.content == e2.content
    ensures Dispatch(d, cmds, e1).Some? <==> Dispatch(d, cmds, e2).Some?
    ensures Dispatch(d, cmds, e1).Some? ==> Dispatch(d, cmds, e1).value.binding == Dispatch(d, cmds, e2).value.binding
  {
  }

  /**
   * Appending a binding never changes a decision already made: a content that
   * selected a binding still selects it, and only contents no earlier binding
   * matched can reach the new one.
   */
  lemma AppendKeepsSelection<H>(d: Dialect, cmds: seq<Command<H>>, c: Command<H>, content: string)
    ensures Select(d, cmds + [c], content) ==
      if Select(d, cmds, content).Some? then Select(d, cmds, content)
      else if MatchString(d, c.pattern, content) then Some(|cmds|)
      else None
  {
    var ext := cmds + [c];
    assert forall j :: 0 <= j < |cmds| ==> ext[j] == cmds[j];
    var r := Select(d, ext, content);
    var s := Select(d, cmds, content);
    if s.Some? {
      assert FirstMatch(d, ext, content, s.value);
    } else if MatchString(d, c.pattern, content) {
      assert FirstMatch(d, ext, content, |cmds|);
    }
  }

  /**
   * The same first-match scan, searching with the engine directly, as if the
   * stored compiled pattern were used instead of recompiling its text.
   */
  function SearchSelect<H>(d: Dialect, cmds: seq<Command<H>>, content: string): Option<nat>
    decreases |cmds|
  {
    if |cmds| == 0 then None
    else if d.matches(cmds[0].pattern, content) then Some(0)
    else match SearchSelect(d, cmds[1..], content)
      case None => None
      case Some(i) => Some(i + 1)
  }

  /**
   * Over a registry whose patterns all compile, dropping the recompilation
   * error changes nothing: selection equals the plain search scan.
   */
  lemma {:induction false} CompiledSelectIsSearch<H>(d: Dialect, cmds: seq<Command<H>>, content: string)
    requires Compiled(d, cmds)
    ensures Select(d, cmds, content) == SearchSelect(d, cmds, content)
    decreases |cmds|
  {
    if |cmds| > 0 {
      assert d.compiles(cmds[0].pattern);
      CompiledSelectIsSearch(d, cmds[1..], content);
    }
  }

  /**
   * A registry built by registration from the initial state selects exactly
   * as the plain search scan does, for every content.
   */
  lemma RegisteredSelectIsSearch<H>(d: Dialect, regs: seq<(string, H)>, content: string)
    requires RegisterAll(d, Initial<H>(), regs).Success?
    ensures Select(d, RegisterAll(d, Initial<H>(), regs).value.commands, content) ==
      SearchSelect(d, RegisterAll(d, Initial<H>(), regs).value.commands, content)
  {
    RegisterAllKeepsCompiled(d, Initial<H>(), regs);
    CompiledSelectIsSearch(d, RegisterAll(d, Initial<H>(), regs).value.commands, content);
  }
}
