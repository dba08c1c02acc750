/** Shell functions: positional parameters and `local` variables around a call
    (src/applets/core/shell/functions.rs, src/applets/core/shell/builtin.rs). */
module Locals {
  import opened Prelude

  type Env = map<string, string>

  /** What the run of a function body does, in order; a nested call with what its own body does. */
  datatype Act =
    | Assign(name: string, value: string)
    | Unset(name: string)
    | Local(name: string, init: Option<string>)
    | SetParams(params: seq<string>)
    | Call(args: seq<string>, body: seq<Act>)

  datatype LocalVar = LocalVar(name: string, was: Option<string>)

  datatype State = State(env: Env, locals: seq<LocalVar>, params: seq<string>)

  function Value(env: Env, name: string): Option<string> {
    if name in env then Some(env[name]) else None
  }

  function Put(env: Env, name: string, value: Option<string>): (after: Env)
    ensures forall n :: Value(after, n) == if n == name then value else Value(env, n)
  {
    match value case Some(v) => env[name := v] case None => env - {name}
  }

  // ----- specification of a run

  /** Records are taken back from the top until `mark` of them are left. */
  function PopTo(st: State, mark: nat): State
    decreases |st.locals|
  {
    if |st.locals| <= mark then st
    else
      var top := st.locals[|st.locals| - 1];
      PopTo(st.(env := Put(st.env, top.name, top.was), locals := st.locals[..|st.locals| - 1]), mark)
  }

  function AfterAct(a: Act, st: State): State
    decreases a, 0
  {
    match a
    case Assign(name, value) => st.(env := st.env[name := value])
    case Unset(name) => st.(env := st.env - {name})
    case Local(name, init) =>
      st.(locals := st.locals + [LocalVar(name, Value(st.env, name))],
          env := if init.Some? then st.env[name := init.value] else st.env)
    case SetParams(params) => st.(params := params)
    case Call(args, body) => AfterCall(st, AfterBody(body, st.(params := args)))
  }

  /** The caller's state again, from the state at the end of the body. */
  function AfterCall(before: State, end: State): State {
    PopTo(end, |before.locals|).(params := before.params)
  }

  function AfterBody(acts: seq<Act>, st: State): State
    decreases acts, 1
  {
    if acts == [] then st else AfterBody(acts[1..], AfterAct(acts[0], st))
  }

  // ----- the shell's globals

  class Globals {
    var env: Env
    var locals: seq<LocalVar>
    var params: seq<string>

    constructor (env: Env)
      ensures Now() == State(env, [], [])
    {
      this.env, locals, params := env, [], [];
    }

    ghost function Now(): State
      reads this
    {
      State(env, locals, params)
    }

    method PushLocal(name: string)
      modifies this`locals
      ensures locals == old(locals) + [LocalVar(name, Value(env, name))]
    {
      locals := locals + [LocalVar(name, Value(env, name))];
    }

    method PopLocalsTo(mark: nat)
      modifies this`locals, this`env
      ensures Now() == PopTo(old(Now()), mark)
    {
      while |locals| > mark
        invariant PopTo(Now(), mark) == PopTo(old(Now()), mark)
        decreases |locals|
      {
        var top := locals[|locals| - 1];
        locals := locals[..|locals| - 1];
        match top.was {
          case Some(v) => env := env[top.name := v];
          case None => env := env - {top.name};
        }
      }
    }

    method LocalBuiltin(name: string, init: Option<string>)
      modifies this`locals, this`env
      ensures Now() == AfterAct(Local(name, init), old(Now()))
    {
      PushLocal(name);
      if init.Some? {
        env := env[name := init.value];
      }
    }

    method CallFunction(args: seq<string>, body: seq<Act>)
      modifies this
      ensures Now() == AfterAct(Call(args, body), old(Now()))
      decreases body, 2
    {
      var saved, mark := params, |locals|;
      params := args;
      RunSource(body);
      PopLocalsTo(mark);
      params := saved;
    }

    method RunSource(acts: seq<Act>)
      modifies this
      ensures Now() == AfterBody(acts, old(Now()))
      decreases acts, 1
    {
      var i := 0;
      while i < |acts|
        invariant i <= |acts| && AfterBody(acts[i..], Now()) == AfterBody(acts, old(Now()))
      {
        assert acts[i..][1..] == acts[i + 1..] && acts[i..][0] == acts[i];
        RunAct(acts[i]);
        i := i + 1;
      }
    }

    method RunAct(a: Act)
      modifies this
      ensures Now() == AfterAct(a, old(Now()))
      decreases a, 3
    {
      match a {
        case Assign(name, value) => env := env[name := value];
        case Unset(name) => env := env - {name};
        case Local(name, init) => LocalBuiltin(name, init);
        case SetParams(ps) => params := ps;
        case Call(args, body) => CallFunction(args, body);
      }
    }
  }

  // ----- frames

  /** The value that the records from `mark` on keep for a name: that of the first of them. */
  function Kept(locals: seq<LocalVar>, mark: nat, name: string): Option<Option<string>>
    decreases |locals| - mark
  {
    if mark >= |locals| then None
    else if locals[mark].name == name then Some(locals[mark].was)
    else Kept(locals, mark + 1, name)
  }

  lemma {:induction false} KeptAppend(locals: seq<LocalVar>, mark: nat, top: LocalVar, name: string)
    requires mark <= |locals|
    ensures Kept(locals + [top], mark, name)
            == if Kept(locals, mark, name).Some? then Kept(locals, mark, name)
               else if top.name == name then Some(top.was) else None
    decreases |locals| - mark
  {
    if mark < |locals| {
      KeptAppend(locals, mark + 1, top, name);
    }
  }

  /** Popping takes off exactly the records above the mark and gives every name in them the value
      kept by the first. */
  lemma {:induction false} PopRestores(st: State, mark: nat, name: string)
    requires mark <= |st.locals|
    ensures var after := PopTo(st, mark);
      && after.locals == st.locals[..mark] && after.params == st.params
      && Value(after.env, name)
         == match Kept(st.locals, mark, name) case Some(was) => was case None => Value(st.env, name)
    decreases |st.locals|
  {
    if |st.locals| > mark {
      var n := |st.locals| - 1;
      var top := st.locals[n];
      assert st.locals == st.locals[..n] + [top];
      KeptAppend(st.locals[..n], mark, top, name);
      PopRestores(st.(env := Put(st.env, top.name, top.was), locals := st.locals[..n]), mark, name);
    } else {
      assert st.locals[..mark] == st.locals;
    }
  }

  /** The value a name has when the frame first makes it local. */
  function FirstLocal(acts: seq<Act>, st: State, name: string): Option<Option<string>>
    decreases |acts|
  {
    if acts == [] then None
    else if acts[0].Local? && acts[0].name == name then Some(Value(st.env, name))
    else FirstLocal(acts[1..], AfterAct(acts[0], st), name)
  }

  /** A call gives back the stack and the parameters: nothing below its own mark is popped. */
  lemma {:induction false} CallKeepsStack(args: seq<string>, body: seq<Act>, st: State)
    ensures AfterAct(Call(args, body), st).locals == st.locals
    ensures AfterAct(Call(args, body), st).params == st.params
    decreases body, 1
  {
    var entry := st.(params := args);
    BodyKeepsStack(body, entry);
    PopRestores(AfterBody(body, entry), |st.locals|, "");
  }

  /** A body only adds records on top. */
  lemma {:induction false} BodyKeepsStack(acts: seq<Act>, st: State)
    ensures st.locals <= AfterBody(acts, st).locals
    decreases acts, 0
  {
    if acts != [] {
      var a := acts[0];
      if a.Call? {
        CallKeepsStack(a.args, a.body, st);
      }
      assert st.locals <= AfterAct(a, st).locals;
      BodyKeepsStack(acts[1..], AfterAct(a, st));
    }
  }

  /** The first record of a name above the mark holds the value at the frame's first `local`;
      what nested calls make local has gone again by then. */
  lemma {:induction false} FirstRecord(acts: seq<Act>, st: State, mark: nat, name: string)
    requires mark <= |st.locals|
    ensures Kept(AfterBody(acts, st).locals, mark, name)
            == if Kept(st.locals, mark, name).Some? then Kept(st.locals, mark, name) else FirstLocal(acts, st, name)
    decreases acts
  {
    if acts != [] {
      var a := acts[0];
      var next := AfterAct(a, st);
      match a
      case Call(args, body) =>
        CallKeepsStack(args, body, st);
        FirstRecord(acts[1..], next, mark, name);
      case Local(n, init) =>
        KeptAppend(st.locals, mark, LocalVar(n, Value(st.env, n)), name);
        FirstRecord(acts[1..], next, mark, name);
      case _ =>
        FirstRecord(acts[1..], next, mark, name);
    }
  }

  /** Dynamic scope: after any call the stack and the parameters are as before; a name that the
      frame made local has the value it had at its first `local`; every other name has the value
      that the body left. */
  lemma CallRestores(args: seq<string>, body: seq<Act>, st: State, name: string)
    ensures var entry := st.(params := args);
      var after := AfterAct(Call(args, body), st);
      && after.locals == st.locals && after.params == st.params
      && Value(after.env, name)
         == match FirstLocal(body, entry, name)
            case Some(was) => was
            case None => Value(AfterBody(body, entry).env, name)
  {
    var entry := st.(params := args);
    var mark := |st.locals|;
    CallKeepsStack(args, body, st);
    BodyKeepsStack(body, entry);
    FirstRecord(body, entry, mark, name);
    PopRestores(AfterBody(body, entry), mark, name);
  }

  /** A name made local before anything else touches it is not changed by the call. */
  lemma LocalFirstIsPrivate(args: seq<string>, name: string, init: Option<string>, rest: seq<Act>, st: State)
    ensures Value(AfterAct(Call(args, [Local(name, init)] + rest), st).env, name) == Value(st.env, name)
  {
    CallRestores(args, [Local(name, init)] + rest, st, name);
  }

  // ----- what the commands of a body do

  /** Each command changes the one thing that it names: `local` gives the name its value for what
      follows and changes nothing without one. */
  lemma CommandsMean(st: State, name: string, value: string, n: string)
    ensures Value(AfterAct(Assign(name, value), st).env, n) == if n == name then Some(value) else Value(st.env, n)
    ensures Value(AfterAct(Unset(name), st).env, n) == if n == name then None else Value(st.env, n)
    ensures Value(AfterAct(Local(name, Some(value)), st).env, n)
            == if n == name then Some(value) else Value(st.env, n)
    ensures Value(AfterAct(Local(name, None), st).env, n) == Value(st.env, n)
  {
  }
}
