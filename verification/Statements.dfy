// What statements store, and what routines and calls return.
module Statements {
  import opened Prelude
  import opened Ast
  import opened Semantics
  import opened Bindings
  import opened Names
  import opened Expressions

  // Nothing but the variable x of the current environment has changed.
  ghost predicate OnlyVariable(st: State, st': State, cur: nat, x: Name) {
    && cur < |st.envs| && |st'.envs| == |st.envs|
       && (forall i :: 0 <= i < |st.envs| && i != cur ==> st'.envs[i] == st.envs[i])
    && st'.envs[cur].Keys == st.envs[cur].Keys + {x} && forall n :: n in st.envs[cur] && n != x ==>
       st'.envs[cur][n] == st.envs[cur][n]
  }

  // An assignment to a variable stores the value there.
  lemma AssignmentStores(p: Program, fuel: nat, x: Name, e: Expr, cur: nat, st: State)
    requires cur < |st.envs| && Eval(p, fuel, e, cur, st).Ok?
    ensures var v, r := Eval(p, fuel, e, cur, st), Exec(p, fuel, Assign([VarTarget(x)], e), cur, st);
            && r.Ok? && r.value.Next? && r.st.heap == v.st.heap && OnlyVariable(st, r.st, cur, x)
            && r.st.envs[cur][x] == v.value
  {
  }

  // A field assignment stores the value in the instance that the variable refers to, and
  // in a variable of the field's name if there is one.
  lemma FieldAssignmentStores(p: Program, fuel: nat, o: Name, f: Name, e: Expr, cur: nat, st: State)
    requires cur < |st.envs| && Eval(p, fuel, e, cur, st).Ok? && o in st.envs[cur] && st.envs[cur][o].StructV?
    requires IsInstance(Eval(p, fuel, e, cur, st).st.heap, st.envs[cur][o].addr)
    ensures var v, r := Eval(p, fuel, e, cur, st), Exec(p, fuel, FieldAssign(Var(o), f, e), cur, st);
            var a, before := st.envs[cur][o].addr, Eval(p, fuel, e, cur, st).st.heap;
            && r.Ok? && r.value.Next? && |r.st.heap| == |before| && IsInstance(r.st.heap, a)
            && (forall b :: 0 <= b < |before| && b != a ==> r.st.heap[b] == before[b])
            && r.st.heap[a].typeName == before[a].typeName && r.st.heap[a].native == before[a].native
            && r.st.heap[a].fields.Keys == before[a].fields.Keys + {f} && r.st.heap[a].fields[f] == v.value
            && (forall g :: g in before[a].fields && g != f ==> r.st.heap[a].fields[g] == before[a].fields[g])
            && (if f in st.envs[cur] then OnlyVariable(st, r.st, cur, f) && r.st.envs[cur][f] == v.value
                else r.st.envs == st.envs)
  {
  }

  // Reading a field gives its value; one that is missing is zero from then on.
  lemma FieldIsRead(p: Program, fuel: nat, o: Name, f: Name, cur: nat, st: State)
    requires cur < |st.envs| && o in st.envs[cur] && st.envs[cur][o].StructV?
             && IsInstance(st.heap, st.envs[cur][o].addr)
    ensures var r, a := Eval(p, fuel, Member(Var(o), f), cur, st), st.envs[cur][o].addr;
            && r.Ok? && IsInstance(r.st.heap, a) && f in r.st.heap[a].fields && r.st.heap[a].fields[f] == r.value
            && (f in st.heap[a].fields ==> r.value == st.heap[a].fields[f] && r.st == st)
            && (f !in st.heap[a].fields ==>
                  && r.value == IntV(0) && r.st.envs == st.envs && |r.st.heap| == |st.heap|
                  && (forall b :: 0 <= b < |st.heap| && b != a ==> r.st.heap[b] == st.heap[b])
                  && forall g :: g in st.heap[a].fields ==>
                       g in r.st.heap[a].fields && r.st.heap[a].fields[g] == st.heap[a].fields[g])
  {
  }

  // A block is its first part, and then the rest unless the first part leaves.
  lemma {:induction false} BlockInTwoParts(p: Program, fuel: nat, first: seq<Stmt>, rest: seq<Stmt>, cur: nat,
                                           st: State)
    requires cur < |st.envs|
    ensures var r := ExecBlock(p, fuel, first, cur, st);
            ExecBlock(p, fuel, first + rest, cur, st)
            == if r.Ok? && r.value.Next? then ExecBlock(p, fuel, rest, cur, r.st) else r
    decreases |first|
  {
    if first == [] {
      assert first + rest == rest;
    } else {
      assert (first + rest)[0] == first[0] && (first + rest)[1..] == first[1..] + rest;
      var r := Exec(p, fuel, first[0], cur, st);
      if r.Ok? && r.value.Next? { BlockInTwoParts(p, fuel, first[1..], rest, cur, r.st); }
    }
  }

  lemma FlowOf(p: Program, fuel: nat, e: Expr, cur: nat, st: State)
    requires cur < |st.envs|
    ensures Exec(p, fuel, Terminal, cur, st) == Ok(Done, st)
    ensures ExecBlock(p, fuel, [], cur, st) == Ok(Next, st)
    ensures var v, r := Eval(p, fuel, e, cur, st), Exec(p, fuel, ExprStmt(e), cur, st);
            if v.Ok? then r == Ok(Next, v.st) else r.Throw? <==> v.Throw?
  {
  }

  // ---------------------------------------------------------------------
  // Several targets
  // ---------------------------------------------------------------------

  predicate AssignsVariable(targets: seq<Target>, x: Name) {
    exists i :: 0 <= i < |targets| && targets[i] == VarTarget(x)
  }

  lemma {:induction false} TargetsKeepOthers(p: Program, fuel: nat, targets: seq<Target>, values: seq<Value>, cur: nat,
                                             st: State, x: Name)
    requires cur < |st.envs| && |values| == |targets| && AssignTargets(p, fuel, targets, values, cur, st).Ok?
    requires x in st.envs[cur] && !AssignsVariable(targets, x)
    ensures var envs := AssignTargets(p, fuel, targets, values, cur, st).st.envs;
            cur < |envs| && x in envs[cur] && envs[cur][x] == st.envs[cur][x]
    decreases |targets|
  {
    if targets != [] {
      var s := AfterFirstTarget(p, fuel, targets, values, cur, st);
      assert targets[0] != VarTarget(x);
      assert forall i :: 0 <= i < |targets| - 1 ==> targets[1..][i] == targets[i + 1];
      TargetsKeepOthers(p, fuel, targets[1..], values[1..], cur, s, x);
    }
  }

  // The first target has its value; a field target changes no variable.
  lemma AfterFirstTarget(p: Program, fuel: nat, targets: seq<Target>, values: seq<Value>, cur: nat, st: State)
    returns (s: State)
    requires cur < |st.envs| && |values| == |targets| && targets != []
    requires AssignTargets(p, fuel, targets, values, cur, st).Ok?
    ensures |s.envs| == |st.envs|
    ensures AssignTargets(p, fuel, targets, values, cur, st)
            == AssignTargets(p, fuel, targets[1..], values[1..], cur, s)
    ensures targets[0].VarTarget? ==>
              var x := targets[0].name;
              OnlyVariable(st, s, cur, x) && s.envs[cur][x] == values[0] && s.heap == st.heap
    ensures targets[0].FieldTarget? ==>
              var o, f := targets[0].obj, targets[0].field;
              && s.envs == st.envs && o.Var? && o.name in st.envs[cur] && st.envs[cur][o.name].StructV?
              && IsInstance(s.heap, st.envs[cur][o.name].addr)
              && f in s.heap[st.envs[cur][o.name].addr].fields
              && s.heap[st.envs[cur][o.name].addr].fields[f] == values[0]
  {
    match targets[0]
    case VarTarget(x) => s := SetVar(st, cur, x, values[0]);
    case FieldTarget(o, f) =>
      var target := Eval(p, fuel, o, cur, st);
      s := StoreField(o, f, values[0], cur, target.st).st;
  }

  // Variable i gets value i, unless the same variable is a target again later.
  lemma {:induction false} TargetsGetTheirValues(p: Program, fuel: nat, targets: seq<Target>, values: seq<Value>,
                                                 cur: nat, st: State, i: nat)
    requires cur < |st.envs| && |values| == |targets| && AssignTargets(p, fuel, targets, values, cur, st).Ok?
    requires i < |targets| && targets[i].VarTarget? && !AssignsVariable(targets[i + 1..], targets[i].name)
    ensures var envs := AssignTargets(p, fuel, targets, values, cur, st).st.envs;
            cur < |envs| && targets[i].name in envs[cur] && envs[cur][targets[i].name] == values[i]
    decreases i
  {
    var s := AfterFirstTarget(p, fuel, targets, values, cur, st);
    if i == 0 {
      TargetsKeepOthers(p, fuel, targets[1..], values[1..], cur, s, targets[0].name);
    } else {
      assert targets[1..][i..] == targets[i + 1..];
      TargetsGetTheirValues(p, fuel, targets[1..], values[1..], cur, s, i - 1);
    }
  }

  // ---------------------------------------------------------------------
  // Results
  // ---------------------------------------------------------------------

  // One result is itself, none is nil, and several are a new tuple, in order.
  lemma ResultsAreWrapped(values: seq<Value>, st: State)
    ensures var r := Wrap(values, st);
            && r.Ok? && r.st.envs == st.envs && st.heap <= r.st.heap
            && (|values| == 0 ==> r.value == NilV && r.st == st)
            && (|values| == 1 ==> r.value == values[0] && r.st == st)
            && (|values| > 1 ==>
                  && r.value == TupleV(|st.heap|) && |r.st.heap| == |st.heap| + 1
                  && r.st.heap[|st.heap|].Tuple? && |r.st.heap[|st.heap|].values| == |values|
                  && forall i :: 0 <= i < |values| ==> r.st.heap[|st.heap|].values[i] == values[i])
  {
  }

  // The outputs in order, or the first that is not set.
  lemma {:induction false} OutputsAreCollected(outputs: seq<Param>, env: Env)
    ensures var (values, missing) := Collect(outputs, env);
            match missing
            case None =>
              && |values| == |outputs|
              && forall i :: 0 <= i < |outputs| ==> outputs[i].name in env && values[i] == env[outputs[i].name]
            case Some(name) =>
              exists k :: 0 <= k < |outputs| && outputs[k].name == name && name !in env
                && forall i :: 0 <= i < k ==> outputs[i].name in env
    decreases |outputs|
  {
    if outputs != [] && outputs[0].name in env {
      OutputsAreCollected(outputs[1..], env);
      var missing := Collect(outputs[1..], env).1;
      if missing.Some? {
        var k :| 0 <= k < |outputs[1..]| && outputs[1..][k].name == missing.value && missing.value !in env
          && forall i :: 0 <= i < k ==> outputs[1..][i].name in env;
        assert outputs[k + 1].name == missing.value;
        forall i | 0 <= i < k + 1 ensures outputs[i].name in env {
          if i > 0 { assert outputs[1..][i - 1].name in env; }
        }
      }
    } else if outputs != [] {
      assert outputs[0].name !in env;
    }
  }

  // A foreign routine gets argument i under the name of input i.
  lemma {:induction false} ForeignInputsAreNamed(inputs: seq<Param>, args: seq<Value>, i: nat)
    requires DistinctNames(NamesOf(inputs)) && i < |inputs| && i < |args|
    ensures inputs[i].name in NamedInputs(inputs, args) && NamedInputs(inputs, args)[inputs[i].name] == args[i]
    decreases |inputs|
  {
    DistinctSplit(inputs);
    if i > 0 { ForeignInputsAreNamed(inputs[1..], args[1..], i - 1); }
    if i == 0 { NoSuchInput(inputs[1..], args[1..], inputs[0].name); }
  }

  lemma {:induction false} NoSuchInput(inputs: seq<Param>, args: seq<Value>, n: Name)
    requires forall i :: 0 <= i < |inputs| ==> inputs[i].name != n
    ensures n !in NamedInputs(inputs, args)
    decreases |inputs|
  {
    if inputs != [] && args != [] { NoSuchInput(inputs[1..], args[1..], n); }
  }

  // What an inline routine returns: its outputs when its body has run, in an environment
  // of its own.
  lemma InlineReturnsOutputs(p: Program, fuel: nat, routine: Routine, params: map<Name, Value>, st: State)
    returns (last: State)
    requires st.envs != [] && Apply(p, fuel, InlineFn(routine), params, st).Ok?
    ensures var r := Apply(p, fuel, InlineFn(routine), params, st);
            var body := ExecBlock(p, fuel, routine.body, |st.envs|,
                                  st.(envs := st.envs + [InlineEnv(routine, params)]));
            && body.Ok? && body.st == last && |last.envs| == |st.envs| + 1 && r.st == State(st.envs, last.heap)
            && |r.value| == |routine.outputs|
            && forall i :: 0 <= i < |routine.outputs| ==>
                 var env := last.envs[|st.envs|];
                 routine.outputs[i].name in env && r.value[i] == env[routine.outputs[i].name]
  {
    var pushed := st.(envs := st.envs + [InlineEnv(routine, params)]);
    last := ExecBlock(p, fuel, routine.body, |st.envs|, pushed).st;
    assert forall i :: 0 <= i < |st.envs| ==> last.envs[i] == pushed.envs[i];
    assert last.envs[..|st.envs|] == st.envs;
    OutputsAreCollected(routine.outputs, last.envs[|st.envs|]);
  }

  // What a struct routine returns: its outputs when its body has run, except that an output
  // named like a field of the receiver is that field.
  lemma RoutineReturnsOutputs(p: Program, fuel: nat, a: nat, decl: StructDecl, routine: Routine, args: seq<Value>,
                              st: State, i: nat)
    returns (last: State)
    requires st.envs != [] && RoutineBody(p, fuel, a, decl, routine, args, st).Ok? && i < |routine.outputs|
    ensures var cur, r := |st.envs| - 1, RoutineBody(p, fuel, a, decl, routine, args, st);
            var entered := RoutineEntry(p, fuel, a, decl, routine, args, st);
            var name := routine.outputs[i].name;
            && entered.Ok? && |entered.st.envs| == |st.envs|
            && ExecBlock(p, fuel, routine.body, cur, entered.st).Ok?
            && ExecBlock(p, fuel, routine.body, cur, entered.st).st == last && cur < |last.envs|
            && |r.value| == |routine.outputs|
            && (name !in VariableNames(decl.fields) ==> name in last.envs[cur] && r.value[i] == last.envs[cur][name])
            && (name in VariableNames(decl.fields) && IsInstance(last.heap, a) && name in last.heap[a].fields ==>
                  r.value[i] == last.heap[a].fields[name])
  {
    var cur := |st.envs| - 1;
    var entered := RoutineEntry(p, fuel, a, decl, routine, args, st);
    last := ExecBlock(p, fuel, routine.body, cur, entered.st).st;
    var instance := if IsInstance(last.heap, a) then last.heap[a].fields else map[];
    SyncedValue(decl.fields, instance, last.envs[cur], routine.outputs[i].name);
    OutputsAreCollected(routine.outputs, SyncFromInstance(decl.fields, instance, last.envs[cur]));
  }

  lemma {:induction false} SyncedValue(ds: seq<VarDeclaration>, instance: map<Name, Value>, env: Env, n: Name)
    ensures var r := SyncFromInstance(ds, instance, env);
            if n in VariableNames(ds) && n in instance then n in r && r[n] == instance[n]
            else (n in r <==> n in env) && (n in env ==> r[n] == env[n])
    decreases |ds|
  {
    if ds != [] {
      var f := ds[0].name;
      VariableNamesSplit(ds);
      SyncedValue(ds[1..], instance, if f in instance then env[f := instance[f]] else env, n);
    }
  }

  // A routine without a body is the foreign one of that name: it gets the receiver, its
  // arguments by name, and "this" as well if the receiver is a foreign object.
  lemma ForeignRoutineReceives(p: Program, fuel: nat, a: nat, decl: StructDecl, routine: Routine, args: seq<Value>,
                               st: State, f: Foreign)
    returns (params: map<Name, Value>)
    requires routine.body == [] && LookupForeign(p, decl.name, routine.name) == Some(f)
    requires DistinctNames(NamesOf(routine.inputs)) && forall i :: 0 <= i < |routine.inputs| ==>
             routine.inputs[i].name != "this"
    ensures RunRoutine(p, fuel, a, decl, routine, args, st) == CallForeign(f, StructV(a), params, st)
    ensures forall i :: 0 <= i < |routine.inputs| && i < |args| ==>
              routine.inputs[i].name in params && params[routine.inputs[i].name] == args[i]
    ensures "this" in params <==> IsInstance(st.heap, a) && st.heap[a].native
    ensures "this" in params ==> params["this"] == StructV(a)
  {
    var this_ := if IsInstance(st.heap, a) && st.heap[a].native then map["this" := StructV(a)] else map[];
    params := this_ + NamedInputs(routine.inputs, args);
    NoSuchInput(routine.inputs, args, "this");
    forall i | 0 <= i < |routine.inputs| && i < |args|
      ensures routine.inputs[i].name in params && params[routine.inputs[i].name] == args[i]
    {
      ForeignInputsAreNamed(routine.inputs, args, i);
    }
  }

  // What a call returns when the foreign function returns these values and this heap.
  ghost predicate Forwards(outcome: ForeignResult, r: Res<seq<Value>>, envs: seq<Env>) {
    match outcome
    case ForeignOk(values, heap) => r == Ok(values, State(envs, heap))
    case ForeignError(heap) => r.Throw? && r.st == State(envs, heap)
  }

  // A foreign function gets the parameters of the call and the heap, and what it returns
  // is what the call returns.
  lemma ForeignFunctionReceives(p: Program, fuel: nat, f: Foreign, params: map<Name, Value>, st: State)
    requires st.envs != []
    ensures Forwards(f(NilV, params, st.heap), Apply(p, fuel, ForeignFn(f), params, st), st.envs)
  {
  }

  // A built-in method gets the value it is called on, and argument i as arg<i>.
  lemma BuiltinMethodReceives(p: Program, fuel: nat, target: Value, m: Name, args: seq<Expr>, cur: nat, st: State,
                              i: nat)
    returns (params: map<Name, Value>, results: Res<seq<Value>>)
    requires cur < |st.envs| && !target.StructV? && !target.NullV? && i < |args|
    requires (TypeNameOf(target), m) in p.builtinMethods && EvalList(p, fuel, args, cur, st).Ok?
    ensures var values := EvalList(p, fuel, args, cur, st);
            && "arg" + Decimal(i) in params && i < |values.value| && params["arg" + Decimal(i)] == values.value[i]
            && Forwards(p.builtinMethods[(TypeNameOf(target), m)](target, params, values.st.heap), results, st.envs)
    ensures var r := EvalReceiverCall(p, fuel, target, m, args, cur, st);
            if results.Ok? then r == Wrap(results.value, results.st) else r.Throw? && r.st == results.st
  {
    var values := EvalList(p, fuel, args, cur, st);
    params := Numbered(values.value, |values.value|);
    ArgumentsAreNumbered(values.value, |values.value|, i);
    results := CallForeign(p.builtinMethods[(TypeNameOf(target), m)], target, params, values.st);
  }

  // Indexing an object whose type has no routine GetIndex is the foreign one: it gets the
  // object and the index by name.
  lemma ForeignIndexReceives(p: Program, fuel: nat, a: nat, index: Value, st: State, f: Foreign)
    returns (params: map<Name, Value>, results: Res<seq<Value>>)
    requires IsInstance(st.heap, a) && IndexRoutine(p, st.heap, StructV(a)).None?
    requires LookupForeign(p, st.heap[a].typeName, "GetIndex") == Some(f)
    ensures params.Keys == {"this", "index"} && params["this"] == StructV(a) && params["index"] == index
    ensures Forwards(f(StructV(a), params, st.heap), results, st.envs)
    ensures var r := EvalIndex(p, fuel, StructV(a), index, st);
            if results.Ok? then r == Wrap(results.value, results.st) else r.Throw? && r.st == results.st
  {
    params := map["this" := StructV(a), "index" := index];
    results := CallForeign(f, StructV(a), params, st);
  }

  // The condition is evaluated first, whether its value is a boolean or not.
  lemma ConditionSelects(p: Program, fuel: nat, c: Expr, yes: seq<Stmt>, no: seq<Stmt>, cur: nat, st: State)
    requires cur < |st.envs| && Eval(p, fuel, c, cur, st).Ok?
    ensures var v, r := Eval(p, fuel, c, cur, st), Exec(p, fuel, If(c, yes, no), cur, st);
            match v.value
            case BoolV(b) => r == ExecBlock(p, fuel, if b then yes else no, cur, v.st)
            case _ => r.Throw? && r.st == v.st
  {
  }

  // A state whose body ends without a transition is an error.
  lemma StatesMustLeave(p: Program, fuel: nat, a: Autotuner, s: StateDecl, params: seq<Value>, st: State)
    requires st.envs != [] && FindState(a.states, s.name) == Some(s) && fuel > 0
    requires var r := ExecState(p, fuel - 1, s, params, st); r.Ok? && r.value.Next?
    ensures var r := Loop(p, fuel, a, s.name, params, st);
            r == Throw(StateNotLeft(s.name), ExecState(p, fuel - 1, s, params, st).st)
  {
  }
}
