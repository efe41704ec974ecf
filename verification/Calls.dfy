// What a call hands to the function it calls.
module Calls {
  import opened Prelude
  import opened Ast
  import opened Matching
  import opened Semantics

  // What a call stores for one parameter, and the state after it.
  ghost predicate Served(p: Program, fuel: nat, args: seq<Arg>, b: Binding, cur: nat, st: State, v: Value, st': State)
    requires cur < |st.envs|
  {
    match b
    case FromArgument(_, i) => i < |args| && Eval(p, fuel, args[i].value, cur, st) == Ok(v, st')
    case NilDefault(_) => v == NilV && st' == st
    case Missing(_) => false
  }

  // The bindings of a plan are served in order, the state passing from one to the
  // next; values[j] is what binding j stores.
  ghost predicate Trace(p: Program, fuel: nat, args: seq<Arg>, plan: seq<Binding>, cur: nat, st: State,
                        values: seq<Value>, st': State)
    requires cur < |st.envs|
  {
    if plan == [] then values == [] && st' == st
    else
      values != [] &&
      exists mid: State ::
        cur < |mid.envs| && Served(p, fuel, args, plan[0], cur, st, values[0], mid)
        && Trace(p, fuel, args, plan[1..], cur, mid, values[1..], st')
  }

  // The parameters of a plan, each with the value stored for it.
  ghost predicate Holds(bound: map<Name, Value>, plan: seq<Binding>, values: seq<Value>, params: map<Name, Value>)
    requires |values| == |plan|
  {
    && bound.Keys == params.Keys + PlanParams(plan)
    && (forall j :: 0 <= j < |plan| ==> plan[j].param in bound && bound[plan[j].param] == values[j])
    && forall n :: n in params && n !in PlanParams(plan) ==> n in bound && bound[n] == params[n]
  }

  lemma {:induction false} BindingsFollowThePlan(p: Program, fuel: nat, args: seq<Arg>, plan: seq<Binding>,
                                                 params: map<Name, Value>, cur: nat, st: State)
    returns (values: seq<Value>)
    requires cur < |st.envs| && DistinctParams(plan) && EvalBindings(p, fuel, args, plan, params, cur, st).Ok?
    ensures var r := EvalBindings(p, fuel, args, plan, params, cur, st);
            Trace(p, fuel, args, plan, cur, st, values, r.st) && |values| == |plan|
              && Holds(r.value, plan, values, params)
    decreases |plan|
  {
    if plan == [] {
      values := [];
    } else {
      var name := plan[0].param;
      var r := if plan[0].FromArgument? then Eval(p, fuel, args[plan[0].arg].value, cur, st) else Ok(NilV, st);
      var vs := BindingsFollowThePlan(p, fuel, args, plan[1..], params[name := r.value], cur, r.st);
      values := [r.value] + vs;
      assert values[1..] == vs && Served(p, fuel, args, plan[0], cur, st, values[0], r.st);
      HoldsStep(EvalBindings(p, fuel, args, plan, params, cur, st).value, plan, vs, params, r.value);
    }
  }

  lemma HoldsStep(bound: map<Name, Value>, plan: seq<Binding>, vs: seq<Value>, params: map<Name, Value>, v: Value)
    requires plan != [] && |vs| == |plan| - 1 && DistinctParams(plan)
    requires Holds(bound, plan[1..], vs, params[plan[0].param := v])
    ensures Holds(bound, plan, [v] + vs, params)
  {
    var rest, values := plan[1..], [v] + vs;
    PlanParamsSplit(plan);
    HeadIsNew(plan);
    assert bound[plan[0].param] == v;
    forall j | 0 <= j < |plan| ensures plan[j].param in bound && bound[plan[j].param] == values[j] {
      if j > 0 { assert plan[j] == rest[j - 1] && values[j] == vs[j - 1]; }
    }
  }

  // A call that reaches its function passes exactly the signature's parameters,
  // each with the value of the argument that the matching gives it, evaluated in
  // the order of the matching, or nil.
  lemma CallPassesTheSignature(p: Program, fuel: nat, args: seq<Arg>, signature: seq<ParamSpec>, cur: nat, st: State)
    returns (values: seq<Value>)
    requires cur < |st.envs| && DistinctNames(signature)
    requires EvalBindings(p, fuel, args, Plan(signature, ArgumentNames(args)), map[], cur, st).Ok?
    ensures var plan := Plan(signature, ArgumentNames(args));
            var r := EvalBindings(p, fuel, args, plan, map[], cur, st);
            && r.value.Keys == (set q | q in signature :: q.name)
            && Trace(p, fuel, args, plan, cur, st, values, r.st) && |values| == |plan|
            && forall j :: 0 <= j < |plan| ==> plan[j].param in r.value && r.value[plan[j].param] == values[j]
  {
    var names := ArgumentNames(args);
    var plan := Plan(signature, names);
    BindingsNeedArguments(p, fuel, args, plan, map[], cur, st);
    PlanServesTheSignature(signature, names);
    values := BindingsFollowThePlan(p, fuel, args, plan, map[], cur, st);
  }

  // A call with a missing argument never reaches its function: it fails on an
  // argument, or with the missing-argument error.
  lemma {:induction false} BindingsNeedArguments(p: Program, fuel: nat, args: seq<Arg>, plan: seq<Binding>,
                                                 params: map<Name, Value>, cur: nat, st: State)
    requires cur < |st.envs|
    ensures EvalBindings(p, fuel, args, plan, params, cur, st).Ok? ==> !Stops(plan)
    decreases |plan|
  {
    if plan != [] {
      match plan[0] {
        case Missing(_) =>
        case NilDefault(name) => BindingsNeedArguments(p, fuel, args, plan[1..], params[name := NilV], cur, st);
        case FromArgument(name, i) =>
          if i < |args| {
            var r := Eval(p, fuel, args[i].value, cur, st);
            if r.Ok? { BindingsNeedArguments(p, fuel, args, plan[1..], params[name := r.value], cur, r.st); }
          }
      }
    }
  }

  // A call that returns has found its function, bound the arguments as matched with its
  // signature, applied it to them and made one value of the results.
  lemma CallAppliesFunction(p: Program, fuel: nat, f: Name, args: seq<Arg>, cur: nat, st: State)
    requires cur < |st.envs| && Eval(p, fuel, Call(f, args), cur, st).Ok?
    ensures var fn := FindFunction(p, f);
            && fn.Some? && fuel > 0
            && var bound := EvalBindings(p, fuel, args, Plan(fn.value.signature, ArgumentNames(args)), map[], cur, st);
               && bound.Ok? && bound.st.envs != []
               && var results := Apply(p, fuel - 1, fn.value.callable, bound.value, bound.st);
                  results.Ok? && Eval(p, fuel, Call(f, args), cur, st) == Wrap(results.value, results.st)
  {
  }
}
