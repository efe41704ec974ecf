// Which value goes where: argument lists, parameters, inputs, variables and outputs.
module Bindings {
  import opened Prelude
  import opened Ast
  import opened Semantics

  ghost predicate DistinctNames(names: seq<Name>) {
    forall i, j :: 0 <= i < j < |names| ==> names[i] != names[j]
  }

  // ---------------------------------------------------------------------
  // Lists of expressions
  // ---------------------------------------------------------------------

  // Value i is that of expression i, evaluated in the state that the one before left.
  ghost predicate InOrder(p: Program, fuel: nat, es: seq<Expr>, cur: nat, values: seq<Value>, states: seq<State>) {
    && |values| == |es| && |states| == |es| + 1 && (forall i :: 0 <= i < |states| ==> cur < |states[i].envs|)
    && forall i :: 0 <= i < |es| ==> Eval(p, fuel, es[i], cur, states[i]) == Ok(values[i], states[i + 1])
  }

  lemma {:induction false} ListIsInOrder(p: Program, fuel: nat, es: seq<Expr>, cur: nat, st: State)
    returns (states: seq<State>)
    requires cur < |st.envs| && EvalList(p, fuel, es, cur, st).Ok?
    ensures var r := EvalList(p, fuel, es, cur, st);
            InOrder(p, fuel, es, cur, r.value, states) && states[0] == st && states[|es|] == r.st
    decreases |es|
  {
    if es == [] {
      states := [st];
    } else {
      var v := Eval(p, fuel, es[0], cur, st);
      var rest := ListIsInOrder(p, fuel, es[1..], cur, v.st);
      states := [st] + rest;
      InOrderCons(p, fuel, es, cur, v.value, EvalList(p, fuel, es[1..], cur, v.st).value, st, rest);
    }
  }

  lemma InOrderCons(p: Program, fuel: nat, es: seq<Expr>, cur: nat, v: Value, values: seq<Value>, st: State,
                    states: seq<State>)
    requires es != [] && InOrder(p, fuel, es[1..], cur, values, states) && cur < |st.envs|
    requires Eval(p, fuel, es[0], cur, st) == Ok(v, states[0])
    ensures InOrder(p, fuel, es, cur, [v] + values, [st] + states)
  {
    forall i | 0 <= i < |es|
      ensures Eval(p, fuel, es[i], cur, ([st] + states)[i]) == Ok(([v] + values)[i], ([st] + states)[i + 1])
    {
      if i > 0 { assert es[i] == es[1..][i - 1]; }
    }
  }

  // A transition carries the values of its arguments in the written order.
  lemma TransitionCarriesValues(p: Program, fuel: nat, target: Name, es: seq<Expr>, cur: nat, st: State)
    returns (values: seq<Value>, states: seq<State>)
    requires cur < |st.envs| && Exec(p, fuel, Transition(target, es), cur, st).Ok?
    ensures InOrder(p, fuel, es, cur, values, states) && states[0] == st
    ensures Exec(p, fuel, Transition(target, es), cur, st) == Ok(Goto(target, values), states[|es|])
  {
    values := EvalList(p, fuel, es, cur, st).value;
    states := ListIsInOrder(p, fuel, es, cur, st);
  }

  // ---------------------------------------------------------------------
  // Storing values one after the other
  // ---------------------------------------------------------------------

  // Where the value of a name comes from.
  datatype Source =
    | Given(value: Value)
    | Computed(expr: Expr)
    | Fresh(typeName: Name)    // a new instance
    | Kept                     // the name keeps its value
    | Refused(error: Error)

  // One name gets its value.
  function Serve(p: Program, fuel: nat, name: Name, source: Source, cur: nat, st: State): (r: Res<()>)
    requires cur < |st.envs|
    ensures ChangesOnly(r, st.envs, cur) || (r.Throw? && source == Refused(r.error) && r.st == st)
  {
    match source
    case Given(v) => Ok((), SetVar(st, cur, name, v))
    case Computed(e) =>
      var (v, st1) :- Eval(p, fuel, e, cur, st);
      Ok((), SetVar(st1, cur, name, v))
    case Fresh(typeName) =>
      Ok((), SetVar(st.(heap := st.heap + [Instance(typeName, map[], false)]), cur, name, StructV(|st.heap|)))
    case Kept => Ok((), st)
    case Refused(error) => Throw(error, st)
  }

  // The names are served in order: states[i] is the state before name i is.
  ghost predicate Served(p: Program, fuel: nat, names: seq<Name>, sources: seq<Source>, cur: nat, states: seq<State>) {
    && |sources| == |names| && |states| == |names| + 1 && (forall i :: 0 <= i < |states| ==> cur < |states[i].envs|)
    && forall i :: 0 <= i < |names| ==> Serve(p, fuel, names[i], sources[i], cur, states[i]) == Ok((), states[i + 1])
  }

  // The value that a name holds once it is served.
  ghost predicate HoldsAfter(p: Program, fuel: nat, name: Name, source: Source, cur: nat, st: State, st': State)
    requires cur < |st.envs| && cur < |st'.envs|
  {
    match source
    case Given(v) => name in st'.envs[cur] && st'.envs[cur][name] == v
    case Computed(e) =>
      Eval(p, fuel, e, cur, st).Ok? && name in st'.envs[cur] && st'.envs[cur][name] == Eval(p, fuel, e, cur, st).value
    case Fresh(_) => name in st'.envs[cur] && st'.envs[cur][name] == StructV(|st.heap|)
    case Kept => name in st.envs[cur] ==> name in st'.envs[cur] && st'.envs[cur][name] == st.envs[cur][name]
    case Refused(_) => false
  }

  // Serving a name changes no other variable.
  lemma ServeChangesOne(p: Program, fuel: nat, name: Name, source: Source, cur: nat, st: State)
    requires cur < |st.envs|
    ensures var r := Serve(p, fuel, name, source, cur, st);
            r.Ok? ==>
              && |r.st.envs| == |st.envs| && HoldsAfter(p, fuel, name, source, cur, st, r.st)
              && (forall n :: n != name ==> (n in r.st.envs[cur] <==> n in st.envs[cur]))
              && (forall n :: n != name && n in st.envs[cur] ==> r.st.envs[cur][n] == st.envs[cur][n])
  {
  }

  // The environment after some names have been served, from number k on.
  ghost predicate UnchangedFrom(names: seq<Name>, k: nat, cur: nat, st: State, st': State)
    requires cur < |st.envs| && cur < |st'.envs|
  {
    forall n :: (forall i :: k <= i < |names| ==> names[i] != n) ==>
      (n in st'.envs[cur] <==> n in st.envs[cur]) && (n in st.envs[cur] ==> st'.envs[cur][n] == st.envs[cur][n])
  }

  lemma {:induction false} OthersUnchanged(p: Program, fuel: nat, names: seq<Name>, sources: seq<Source>, cur: nat,
                                           states: seq<State>, k: nat)
    requires Served(p, fuel, names, sources, cur, states) && k <= |names|
    ensures UnchangedFrom(names, k, cur, states[k], states[|names|])
    decreases |names| - k
  {
    if k < |names| {
      ServeChangesOne(p, fuel, names[k], sources[k], cur, states[k]);
      OthersUnchanged(p, fuel, names, sources, cur, states, k + 1);
    }
  }

  // In the end every name holds the value of its source, as long as names are distinct.
  lemma ServedNamesHold(p: Program, fuel: nat, names: seq<Name>, sources: seq<Source>, cur: nat, states: seq<State>,
                        i: nat)
    requires Served(p, fuel, names, sources, cur, states) && DistinctNames(names) && i < |names|
    ensures HoldsAfter(p, fuel, names[i], sources[i], cur, states[i], states[|names|])
  {
    ServeChangesOne(p, fuel, names[i], sources[i], cur, states[i]);
    OthersUnchanged(p, fuel, names, sources, cur, states, i + 1);
  }

  // What storing a list of names does, wherever a value comes from.
  function Store(p: Program, fuel: nat, names: seq<Name>, sources: seq<Source>, cur: nat, st: State): (r: Res<()>)
    requires cur < |st.envs| && |sources| == |names|
  {
    if names == [] then Ok((), st)
    else
      var (_, st1) :- Serve(p, fuel, names[0], sources[0], cur, st);
      Store(p, fuel, names[1..], sources[1..], cur, st1)
  }

  lemma {:induction false} StoreServes(p: Program, fuel: nat, names: seq<Name>, sources: seq<Source>, cur: nat,
                                       st: State)
    returns (states: seq<State>)
    requires cur < |st.envs| && |sources| == |names| && Store(p, fuel, names, sources, cur, st).Ok?
    ensures Served(p, fuel, names, sources, cur, states)
    ensures states[0] == st && states[|names|] == Store(p, fuel, names, sources, cur, st).st
    decreases |names|
  {
    if names == [] {
      states := [st];
    } else {
      var r := Serve(p, fuel, names[0], sources[0], cur, st);
      var rest := StoreServes(p, fuel, names[1..], sources[1..], cur, r.st);
      states := [st] + rest;
      ServedCons(p, fuel, names, sources, cur, st, rest);
    }
  }

  lemma ServedCons(p: Program, fuel: nat, names: seq<Name>, sources: seq<Source>, cur: nat, st: State, rest: seq<State>)
    requires names != [] && |sources| == |names| && cur < |st.envs|
    requires Served(p, fuel, names[1..], sources[1..], cur, rest)
    requires Serve(p, fuel, names[0], sources[0], cur, st) == Ok((), rest[0])
    ensures Served(p, fuel, names, sources, cur, [st] + rest)
  {
    var states := [st] + rest;
    forall i | 0 <= i < |names|
      ensures Serve(p, fuel, names[i], sources[i], cur, states[i]) == Ok((), states[i + 1])
    {
      if i > 0 { assert names[i] == names[1..][i - 1] && sources[i] == sources[1..][i - 1]; }
    }
  }

  // Storing fails at the first name that cannot be served, with its error.
  lemma {:induction false} StoreFailsAtFirst(p: Program, fuel: nat, names: seq<Name>, sources: seq<Source>, cur: nat,
                                             st: State, k: nat)
    requires cur < |st.envs| && |sources| == |names| && k < |names|
    requires Store(p, fuel, names[..k], sources[..k], cur, st).Ok?
    ensures var before := Store(p, fuel, names[..k], sources[..k], cur, st).st;
            && cur < |before.envs|
            && var r := Serve(p, fuel, names[k], sources[k], cur, before);
               !r.Ok? ==> Store(p, fuel, names, sources, cur, st) == r
    decreases k
  {
    if k > 0 {
      var r := Serve(p, fuel, names[0], sources[0], cur, st);
      assert names[..k][1..] == names[1..][..k - 1] && sources[..k][1..] == sources[1..][..k - 1];
      StoreFailsAtFirst(p, fuel, names[1..], sources[1..], cur, r.st, k - 1);
    } else {
      assert names[..0] == [];
    }
  }

  // ---------------------------------------------------------------------
  // Parameters of struct routines and states
  // ---------------------------------------------------------------------

  function NamesOf(ps: seq<Param>): (r: seq<Name>)
    ensures |r| == |ps|
  {
    seq(|ps|, i requires 0 <= i < |ps| => ps[i].name)
  }

  lemma DistinctSplit(ps: seq<Param>)
    requires ps != [] && DistinctNames(NamesOf(ps))
    ensures DistinctNames(NamesOf(ps[1..])) && forall i :: 0 <= i < |ps| - 1 ==> ps[1..][i].name != ps[0].name
    ensures DistinctNames(NamesOf(ps[..|ps| - 1])) && forall i :: 0 <= i < |ps| - 1 ==> ps[i].name != ps[|ps| - 1].name
  {
    var names := NamesOf(ps);
    assert NamesOf(ps[1..]) == names[1..] && NamesOf(ps[..|ps| - 1]) == names[..|ps| - 1];
    forall i | 0 <= i < |ps| - 1 ensures ps[1..][i].name != ps[0].name && ps[i].name != ps[|ps| - 1].name {
      assert names[i + 1] != names[0] && names[i] != names[|ps| - 1];
    }
  }

  function FromDefault(d: Option<Expr>, name: Name): Source {
    match d
    case Some(e) => Computed(e)
    case None => Refused(MissingArgument(name))
  }

  // Parameter i holds argument i; later ones take their default or are missing.
  function ArgumentSources(ps: seq<Param>, args: seq<Value>): (r: seq<Source>)
    ensures |r| == |ps|
  {
    seq(|ps|, i requires 0 <= i < |ps| =>
      if i < |args| then Given(args[i]) else FromDefault(ps[i].default, ps[i].name))
  }

  lemma {:induction false} InputsAreStored(p: Program, fuel: nat, ps: seq<Param>, args: seq<Value>, cur: nat, st: State)
    requires cur < |st.envs|
    ensures BindInputs(p, fuel, ps, args, cur, st) == Store(p, fuel, NamesOf(ps), ArgumentSources(ps, args), cur, st)
    decreases |ps|
  {
    if ps != [] {
      var args' := if args == [] then [] else args[1..];
      var r := Serve(p, fuel, ps[0].name, ArgumentSources(ps, args)[0], cur, st);
      if r.Ok? { InputsAreStored(p, fuel, ps[1..], args', cur, r.st); }
      assert NamesOf(ps)[1..] == NamesOf(ps[1..]);
      assert ArgumentSources(ps, args)[1..] == ArgumentSources(ps[1..], args');
    }
  }

  // With distinct names, after the parameters are bound number i holds argument i, and
  // one without an argument holds its default, evaluated once those before it are bound.
  lemma ParametersHoldArguments(p: Program, fuel: nat, ps: seq<Param>, args: seq<Value>, cur: nat, st: State)
    returns (states: seq<State>)
    requires cur < |st.envs| && BindInputs(p, fuel, ps, args, cur, st).Ok? && DistinctNames(NamesOf(ps))
    ensures |states| == |ps| + 1 && states[0] == st && states[|ps|] == BindInputs(p, fuel, ps, args, cur, st).st
    ensures forall i :: 0 <= i < |states| ==> cur < |states[i].envs|
    ensures forall i :: 0 <= i < |ps| && i < |args| ==>
              ps[i].name in states[|ps|].envs[cur] && states[|ps|].envs[cur][ps[i].name] == args[i]
    ensures forall i :: |args| <= i < |ps| ==>
              && ps[i].default.Some? && ps[i].name in states[|ps|].envs[cur]
              && var d := Eval(p, fuel, ps[i].default.value, cur, states[i]);
                 d.Ok? && states[|ps|].envs[cur][ps[i].name] == d.value
  {
    var names, sources := NamesOf(ps), ArgumentSources(ps, args);
    InputsAreStored(p, fuel, ps, args, cur, st);
    states := StoreServes(p, fuel, names, sources, cur, st);
    forall i | 0 <= i < |ps| ensures HoldsAfter(p, fuel, ps[i].name, sources[i], cur, states[i], states[|ps|]) {
      ServedNamesHold(p, fuel, names, sources, cur, states, i);
    }
  }
}
