// Properties of whole autotuner runs: what a state can see, what a run returns.
module Runs {
  import opened Prelude
  import opened Ast
  import opened Semantics

  // One entry into a state: which state, with which arguments, and in which state
  // of the interpreter.
  datatype Entry = Entry(name: Name, params: seq<Value>, st: State)

  // Entry number k of the state loop that starts at the given entry, if the run
  // gets that far.
  function NthEntry(p: Program, fuel: nat, a: Autotuner, at: Entry, k: nat): Option<Entry>
    requires at.st.envs != []
    decreases k
  {
    if k == 0 then Some(at)
    else
      match FindState(a.states, at.name)
      case None => None
      case Some(state) =>
        if fuel == 0 then None
        else
          match ExecState(p, fuel - 1, state, at.params, at.st)
          case Ok(Goto(target, params), st) => NthEntry(p, fuel - 1, a, Entry(target, params, st), k - 1)
          case _ => None
  }

  // Entry number k of a run called with the given inputs in state st.
  function EntryOfRun(p: Program, fuel: nat, a: Autotuner, inputs: map<Name, Value>, st: State, k: nat): Option<Entry>
    requires st.envs != []
  {
    match Initialize(p, fuel, a, inputs, st.(envs := st.envs[0 := map[]]))
    case Ok(params, st1) => NthEntry(p, fuel, a, Entry(a.entry, params, st1), k)
    case _ => None
  }

  lemma {:induction false} EntriesKeepScope(p: Program, fuel: nat, a: Autotuner, at: Entry, k: nat)
    requires at.st.envs != [] && NthEntry(p, fuel, a, at, k).Some?
    ensures var e := NthEntry(p, fuel, a, at, k).value;
            Extends(at.st.envs, 0, e.st.envs) && e.st.envs[0].Keys == at.st.envs[0].Keys
    decreases k
  {
    if k > 0 {
      var state := FindState(a.states, at.name).value;
      var r := ExecState(p, fuel - 1, state, at.params, at.st);
      EntriesKeepScope(p, fuel - 1, a, Entry(r.value.target, r.value.params, r.st), k - 1);
    }
  }

  // Whenever a run enters a state, the variables are exactly those the autotuner
  // declares: no local or parameter of an earlier state, and nothing of the
  // caller, whose other environments are untouched.
  lemma StatesSeeOnlyGlobals(p: Program, fuel: nat, a: Autotuner, inputs: map<Name, Value>, st: State, k: nat)
    requires st.envs != [] && EntryOfRun(p, fuel, a, inputs, st, k).Some?
    ensures var e := EntryOfRun(p, fuel, a, inputs, st, k).value;
            e.st.envs != [] && e.st.envs[0].Keys == DeclaredNames(a) && e.st.envs[1..] == st.envs[1..]
  {
    var r := Initialize(p, fuel, a, inputs, st.(envs := st.envs[0 := map[]]));
    EntriesKeepScope(p, fuel, a, Entry(a.entry, r.value, r.st), k);
    var e := EntryOfRun(p, fuel, a, inputs, st, k).value;
    forall i | 0 <= i < |st.envs| - 1 ensures e.st.envs[1..][i] == st.envs[1..][i] {
      assert r.st.envs[i + 1] == st.envs[0 := map[]][i + 1] && e.st.envs[i + 1] == r.st.envs[i + 1];
    }
  }

  // Entry number k is the last one: its state ends the run, in interpreter state last.
  ghost predicate EndsAt(p: Program, fuel: nat, a: Autotuner, at: Entry, k: nat, state: StateDecl, last: State)
    requires at.st.envs != []
  {
    && k < fuel && NthEntry(p, fuel, a, at, k).Some?
    && var e := NthEntry(p, fuel, a, at, k).value;
       && e.st.envs != [] && FindState(a.states, e.name) == Some(state)
       && ExecState(p, fuel - k - 1, state, e.params, e.st) == Ok(Done, last)
  }

  lemma EndsAfterTransition(p: Program, fuel: nat, a: Autotuner, at: Entry, state: StateDecl, next: Entry,
                            k: nat, lastState: StateDecl, last: State)
    requires at.st.envs != [] && next.st.envs != [] && fuel > 0 && FindState(a.states, at.name) == Some(state)
    requires ExecState(p, fuel - 1, state, at.params, at.st) == Ok(Goto(next.name, next.params), next.st)
    requires EndsAt(p, fuel - 1, a, next, k, lastState, last)
    ensures EndsAt(p, fuel, a, at, k + 1, lastState, last)
  {
    assert NthEntry(p, fuel, a, at, k + 1) == NthEntry(p, fuel - 1, a, next, k);
  }

  // A finished loop ran the state it was in, and ended there or went on.
  lemma LastOrNextState(p: Program, fuel: nat, a: Autotuner, at: Entry) returns (state: StateDecl, r: Res<Flow>)
    requires at.st.envs != [] && Loop(p, fuel, a, at.name, at.params, at.st).Ok?
    ensures fuel > 0 && FindState(a.states, at.name) == Some(state)
            && r == ExecState(p, fuel - 1, state, at.params, at.st)
    ensures r.Ok? && r.st.envs != [] && !r.value.Next?
    ensures Loop(p, fuel, a, at.name, at.params, at.st)
            == if r.value.Done? then Ok((), r.st) else Loop(p, fuel - 1, a, r.value.target, r.value.params, r.st)
  {
    state := FindState(a.states, at.name).value;
    r := ExecState(p, fuel - 1, state, at.params, at.st);
  }

  // The entry from which a finished loop took its last step.
  lemma {:induction false} LoopEndsInAState(p: Program, fuel: nat, a: Autotuner, at: Entry)
    returns (k: nat, state: StateDecl)
    requires at.st.envs != [] && Loop(p, fuel, a, at.name, at.params, at.st).Ok?
    ensures EndsAt(p, fuel, a, at, k, state, Loop(p, fuel, a, at.name, at.params, at.st).st)
    decreases fuel
  {
    var state0, r := LastOrNextState(p, fuel, a, at);
    if r.value.Done? {
      k, state := 0, state0;
    } else {
      var next := Entry(r.value.target, r.value.params, r.st);
      k, state := LoopEndsInAState(p, fuel - 1, a, next);
      EndsAfterTransition(p, fuel, a, at, state0, next, k, state, Loop(p, fuel, a, at.name, at.params, at.st).st);
      k := k + 1;
    }
  }

  // A run that returns has reached a terminal state, and its results are the
  // values that the declared outputs had there, one each and in order.
  lemma RunReturnsTheOutputs(p: Program, fuel: nat, a: Autotuner, inputs: map<Name, Value>, st: State)
    returns (k: nat, state: StateDecl, last: State)
    requires st.envs != [] && Run(p, fuel, a, inputs, st).Ok?
    ensures EntryOfRun(p, fuel, a, inputs, st, k).Some? && k < fuel
    ensures var e := EntryOfRun(p, fuel, a, inputs, st, k).value;
            && e.st.envs != [] && FindState(a.states, e.name) == Some(state)
            && ExecState(p, fuel - k - 1, state, e.params, e.st) == Ok(Done, last)
    ensures last.envs != [] && last.envs[0].Keys == DeclaredNames(a)
    ensures Run(p, fuel, a, inputs, st).st == State(st.envs, last.heap)
    ensures var outputs := Run(p, fuel, a, inputs, st).value;
            |outputs| == |a.outputs| &&
            forall i :: 0 <= i < |outputs| ==>
              a.outputs[i].name in last.envs[0] && outputs[i] == last.envs[0][a.outputs[i].name]
  {
    var r := Initialize(p, fuel, a, inputs, st.(envs := st.envs[0 := map[]]));
    last := Loop(p, fuel, a, a.entry, r.value, r.st).st;
    k, state := LoopEndsInAState(p, fuel, a, Entry(a.entry, r.value, r.st));
    forall i | 0 <= i < |a.outputs| ensures a.outputs[i].name in last.envs[0] {
      assert a.outputs[i].name in ParamNames(a.outputs);
    }
    CollectFinds(a.outputs, last.envs[0]);
  }
}

// An if/elif/else chain is parsed into nested two-way conditionals.
module Elif {
  import opened Prelude
  import opened Ast
  import opened Semantics

  datatype Branch = Branch(condition: Expr, body: seq<Stmt>)

  // The else part that the parser builds from the remaining elif branches.
  function ElifChain(elifs: seq<Branch>, otherwise: seq<Stmt>): seq<Stmt> {
    if elifs == [] then otherwise
    else [If(elifs[0].condition, elifs[0].body, ElifChain(elifs[1..], otherwise))]
  }

  function Desugar(first: Branch, elifs: seq<Branch>, otherwise: seq<Stmt>): Stmt {
    If(first.condition, first.body, ElifChain(elifs, otherwise))
  }

  // Evaluates conditions in order up to the first true one; the result is its
  // index, or the number of branches if none is true.
  function FirstTrue(p: Program, fuel: nat, branches: seq<Branch>, cur: nat, st: State): Res<nat>
    requires cur < |st.envs|
  {
    if branches == [] then Ok(0, st)
    else
      var (v, st1) :- Eval(p, fuel, branches[0].condition, cur, st);
      if !v.BoolV? then Throw(Fault("if condition must be boolean"), st1)
      else if v.b then Ok(0, st1)
      else
        var (k, st2) :- FirstTrue(p, fuel, branches[1..], cur, st1);
        Ok(k + 1, st2)
  }

  lemma {:induction false} FirstTrueIsABranch(p: Program, fuel: nat, branches: seq<Branch>, cur: nat, st: State)
    requires cur < |st.envs|
    ensures var r := FirstTrue(p, fuel, branches, cur, st); r.Ok? ==> r.value <= |branches| && r.st.envs == st.envs
  {
    if branches != [] {
      var r := Eval(p, fuel, branches[0].condition, cur, st);
      if r.Ok? { FirstTrueIsABranch(p, fuel, branches[1..], cur, r.st); }
    }
  }

  // The meaning of a chain as a list: run the selected branch, or the else part.
  function ExecBranches(p: Program, fuel: nat, branches: seq<Branch>, otherwise: seq<Stmt>, cur: nat, st: State)
    : Res<Flow>
    requires cur < |st.envs|
  {
    FirstTrueIsABranch(p, fuel, branches, cur, st);
    var (k, st1) :- FirstTrue(p, fuel, branches, cur, st);
    ExecBlock(p, fuel, if k < |branches| then branches[k].body else otherwise, cur, st1)
  }

  lemma {:induction false} ChainMeansBranches(p: Program, fuel: nat, elifs: seq<Branch>, otherwise: seq<Stmt>, cur: nat,
                                              st: State)
    requires cur < |st.envs|
    ensures ExecBlock(p, fuel, ElifChain(elifs, otherwise), cur, st) == ExecBranches(p, fuel, elifs, otherwise, cur, st)
    decreases |elifs|
  {
    if elifs == [] {
    } else {
      var rest := ElifChain(elifs[1..], otherwise);
      var r := Eval(p, fuel, elifs[0].condition, cur, st);
      if r.Ok? { ChainMeansBranches(p, fuel, elifs[1..], otherwise, cur, r.st); }
      FirstBranch(p, fuel, elifs, otherwise, rest, cur, st);
      OneConditional(p, fuel, If(elifs[0].condition, elifs[0].body, rest), cur, st);
    }
  }

  // A block of one statement is that statement.
  lemma OneConditional(p: Program, fuel: nat, s: Stmt, cur: nat, st: State)
    requires cur < |st.envs|
    ensures ExecBlock(p, fuel, [s], cur, st) == Exec(p, fuel, s, cur, st)
  {
    assert [s][1..] == [];
  }

  // A conditional whose else part means the other branches means all of them.
  lemma FirstBranch(p: Program, fuel: nat, branches: seq<Branch>, otherwise: seq<Stmt>, elseBody: seq<Stmt>,
                    cur: nat, st: State)
    requires cur < |st.envs| && branches != []
    requires var r := Eval(p, fuel, branches[0].condition, cur, st);
             r.Ok? ==> ExecBlock(p, fuel, elseBody, cur, r.st)
                       == ExecBranches(p, fuel, branches[1..], otherwise, cur, r.st)
    ensures Exec(p, fuel, If(branches[0].condition, branches[0].body, elseBody), cur, st)
            == ExecBranches(p, fuel, branches, otherwise, cur, st)
  {
  }

  // The nested conditional and the list of branches have the same flow, the same
  // environments and the same heap, and raise the same errors.
  lemma DesugaringPreservesMeaning(p: Program, fuel: nat, first: Branch, elifs: seq<Branch>, otherwise: seq<Stmt>,
                                   cur: nat, st: State)
    requires cur < |st.envs|
    ensures Exec(p, fuel, Desugar(first, elifs, otherwise), cur, st)
            == ExecBranches(p, fuel, [first] + elifs, otherwise, cur, st)
  {
    var r := Eval(p, fuel, first.condition, cur, st);
    assert ([first] + elifs)[1..] == elifs;
    if r.Ok? { ChainMeansBranches(p, fuel, elifs, otherwise, cur, r.st); }
    FirstBranch(p, fuel, [first] + elifs, otherwise, ElifChain(elifs, otherwise), cur, st);
  }

  // Conditions after the selected branch, and the other bodies, play no part.
  lemma {:induction false} LaterConditionsAreNotEvaluated(p: Program, fuel: nat, branches: seq<Branch>,
                                                          others: seq<Branch>, cur: nat, st: State)
    requires cur < |st.envs|
    requires var r := FirstTrue(p, fuel, branches, cur, st); r.Ok? && r.value < |branches|
    ensures var r := FirstTrue(p, fuel, branches, cur, st);
            FirstTrue(p, fuel, branches[..r.value + 1] + others, cur, st) == r
  {
    var r := FirstTrue(p, fuel, branches, cur, st);
    var v := Eval(p, fuel, branches[0].condition, cur, st);
    var changed := branches[..r.value + 1] + others;
    assert changed[0] == branches[0];
    if !v.value.b {
      LaterConditionsAreNotEvaluated(p, fuel, branches[1..], others, cur, v.st);
      assert changed[1..] == branches[1..][..r.value] + others;
    }
  }
}
