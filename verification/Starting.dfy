// With which values runs and routines start.
module Starting {
  import opened Prelude
  import opened Ast
  import opened Semantics
  import opened Bindings

  // ---------------------------------------------------------------------
  // The variables of an autotuner
  // ---------------------------------------------------------------------

  function VariableNamesOf(ds: seq<VarDeclaration>): (r: seq<Name>)
    ensures |r| == |ds|
  {
    seq(|ds|, i requires 0 <= i < |ds| => ds[i].name)
  }

  // What a declaration stores: its initialiser, or zero, false, the empty string or nil,
  // or a new instance; other types must have an initialiser.
  function DeclaredSource(d: VarDeclaration): Source {
    match d.init
    case Some(e) => Computed(e)
    case None =>
      match d.ty
      case IntType => Given(IntV(0))
      case FloatType => Given(FloatV(0.0))
      case BoolType => Given(BoolV(false))
      case StringType => Given(StringV(""))
      case ErrorType => Given(NilV)
      case StructType(name, _) => Fresh(name)
      case ArrayType(None) => Fresh("Array")
      case ArrayType(Some(element)) => Fresh("Array<" + ToString(element) + ">")
      case _ => Refused(Fault("type requires explicit initialization"))
  }

  function DeclaredSources(ds: seq<VarDeclaration>): (r: seq<Source>)
    ensures |r| == |ds|
  {
    seq(|ds|, i requires 0 <= i < |ds| => DeclaredSource(ds[i]))
  }

  lemma DeclarationServes(p: Program, fuel: nat, d: VarDeclaration, cur: nat, st: State)
    requires cur < |st.envs|
    ensures var r, q := ExecVarDecl(p, fuel, d, cur, st), Serve(p, fuel, d.name, DeclaredSource(d), cur, st);
            match q
            case Ok(_, s) => r == Ok(Next, s)
            case Throw(e, s) => r == Throw(e, s)
            case OutOfFuel => r.OutOfFuel?
  {
  }

  lemma {:induction false} VariablesAreStored(p: Program, fuel: nat, ds: seq<VarDeclaration>, st: State)
    requires st.envs != []
    ensures InitVariables(p, fuel, ds, st) == Store(p, fuel, VariableNamesOf(ds), DeclaredSources(ds), 0, st)
    decreases |ds|
  {
    if ds != [] {
      DeclarationServes(p, fuel, ds[0], 0, st);
      var r := ExecVarDecl(p, fuel, ds[0], 0, st);
      if r.Ok? { VariablesAreStored(p, fuel, ds[1..], r.st); }
      assert VariableNamesOf(ds)[1..] == VariableNamesOf(ds[1..]);
      assert DeclaredSources(ds)[1..] == DeclaredSources(ds[1..]);
    }
  }

  // ---------------------------------------------------------------------
  // The inputs of an autotuner
  // ---------------------------------------------------------------------

  // A given value goes before a default.
  function InputSources(ps: seq<Param>, given: map<Name, Value>): (r: seq<Source>)
    ensures |r| == |ps|
  {
    seq(|ps|, i requires 0 <= i < |ps| =>
      if ps[i].name in given then Given(given[ps[i].name]) else FromDefault(ps[i].default, ps[i].name))
  }

  lemma FirstInput(p: Program, fuel: nat, ps: seq<Param>, given: map<Name, Value>, st: State)
    requires st.envs != [] && ps != []
    ensures var r := Serve(p, fuel, ps[0].name, InputSources(ps, given)[0], 0, st);
            SetInputs(p, fuel, ps, given, st) == if r.Ok? then SetInputs(p, fuel, ps[1..], given, r.st) else r
  {
  }

  lemma {:induction false} RunInputsAreStored(p: Program, fuel: nat, ps: seq<Param>, given: map<Name, Value>, st: State)
    requires st.envs != []
    ensures SetInputs(p, fuel, ps, given, st) == Store(p, fuel, NamesOf(ps), InputSources(ps, given), 0, st)
    decreases |ps|
  {
    if ps != [] {
      var r := Serve(p, fuel, ps[0].name, InputSources(ps, given)[0], 0, st);
      FirstInput(p, fuel, ps, given, st);
      if r.Ok? { RunInputsAreStored(p, fuel, ps[1..], given, r.st); }
      assert NamesOf(ps)[1..] == NamesOf(ps[1..]);
      assert InputSources(ps, given)[1..] == InputSources(ps[1..], given);
    }
  }

  // The input holds the given value, or else its default, evaluated in the state st.
  ghost predicate InputHeld(p: Program, fuel: nat, q: Param, given: map<Name, Value>, st: State, st': State) {
    && st.envs != [] && st'.envs != [] && q.name in st'.envs[0]
    && if q.name in given then st'.envs[0][q.name] == given[q.name]
       else q.default.Some?
            && var d := Eval(p, fuel, q.default.value, 0, st); d.Ok? && st'.envs[0][q.name] == d.value
  }

  // With distinct names, every given input holds the given value, and every other one its
  // default, evaluated once the inputs before it are set.
  lemma RunInputsHold(p: Program, fuel: nat, ps: seq<Param>, given: map<Name, Value>, st: State)
    returns (states: seq<State>)
    requires st.envs != [] && SetInputs(p, fuel, ps, given, st).Ok? && DistinctNames(NamesOf(ps))
    ensures |states| == |ps| + 1 && states[0] == st && states[|ps|] == SetInputs(p, fuel, ps, given, st).st
    ensures forall i :: 0 <= i < |ps| ==> InputHeld(p, fuel, ps[i], given, states[i], states[|ps|])
  {
    var names, sources := NamesOf(ps), InputSources(ps, given);
    RunInputsAreStored(p, fuel, ps, given, st);
    states := StoreServes(p, fuel, names, sources, 0, st);
    forall i | 0 <= i < |ps| ensures InputHeld(p, fuel, ps[i], given, states[i], states[|ps|]) {
      ServedNamesHold(p, fuel, names, sources, 0, states, i);
    }
  }

  // An input with neither a value nor a default is missing: if the inputs before it can
  // be set, that is the error.
  lemma MissingInput(p: Program, fuel: nat, ps: seq<Param>, given: map<Name, Value>, st: State, k: nat)
    requires st.envs != [] && k < |ps| && ps[k].name !in given && ps[k].default.None?
    requires SetInputs(p, fuel, ps[..k], given, st).Ok?
    ensures SetInputs(p, fuel, ps, given, st)
            == Throw(MissingArgument(ps[k].name), SetInputs(p, fuel, ps[..k], given, st).st)
  {
    PrefixIsStored(p, fuel, ps, given, st, k);
    RunInputsAreStored(p, fuel, ps, given, st);
    StoreRefuses(p, fuel, NamesOf(ps), InputSources(ps, given), st, k, MissingArgument(ps[k].name));
  }

  lemma StoreRefuses(p: Program, fuel: nat, names: seq<Name>, sources: seq<Source>, st: State, k: nat, e: Error)
    requires st.envs != [] && |sources| == |names| && k < |names| && sources[k] == Refused(e)
    requires Store(p, fuel, names[..k], sources[..k], 0, st).Ok?
    ensures Store(p, fuel, names, sources, 0, st) == Throw(e, Store(p, fuel, names[..k], sources[..k], 0, st).st)
  {
    StoreFailsAtFirst(p, fuel, names, sources, 0, st, k);
  }

  lemma PrefixIsStored(p: Program, fuel: nat, ps: seq<Param>, given: map<Name, Value>, st: State, k: nat)
    requires st.envs != [] && k < |ps|
    ensures SetInputs(p, fuel, ps[..k], given, st)
            == Store(p, fuel, NamesOf(ps)[..k], InputSources(ps, given)[..k], 0, st)
  {
    RunInputsAreStored(p, fuel, ps[..k], given, st);
    assert NamesOf(ps)[..k] == NamesOf(ps[..k]) && InputSources(ps, given)[..k] == InputSources(ps[..k], given);
  }

  // ---------------------------------------------------------------------
  // The outputs of an autotuner
  // ---------------------------------------------------------------------

  // An output that is a variable already keeps its value.
  function OutputSources(ps: seq<Param>, present: set<Name>): (r: seq<Source>)
    ensures |r| == |ps|
  {
    seq(|ps|, i requires 0 <= i < |ps| =>
      if ps[i].name in present then Kept
      else match ps[i].default
           case Some(e) => Computed(e)
           case None => Given(IntV(0)))
  }

  lemma {:induction false} RunOutputsAreStored(p: Program, fuel: nat, ps: seq<Param>, st: State)
    requires st.envs != [] && DistinctNames(NamesOf(ps))
    ensures InitRunOutputs(p, fuel, ps, st)
            == Store(p, fuel, NamesOf(ps), OutputSources(ps, st.envs[0].Keys), 0, st)
    decreases |ps|
  {
    if ps != [] {
      var present := st.envs[0].Keys;
      var r := Serve(p, fuel, ps[0].name, OutputSources(ps, present)[0], 0, st);
      DistinctSplit(ps);
      assert NamesOf(ps)[1..] == NamesOf(ps[1..]);
      if r.Ok? {
        ServeChangesOne(p, fuel, ps[0].name, OutputSources(ps, present)[0], 0, st);
        RunOutputsAreStored(p, fuel, ps[1..], r.st);
        assert OutputSources(ps, present)[1..] == OutputSources(ps[1..], r.st.envs[0].Keys);
      }
    }
  }

  lemma {:induction false} RunOutputsKeepVariables(p: Program, fuel: nat, ps: seq<Param>, st: State)
    requires st.envs != [] && InitRunOutputs(p, fuel, ps, st).Ok?
    ensures var env := InitRunOutputs(p, fuel, ps, st).st.envs;
            env != [] && forall n :: n in st.envs[0] ==> n in env[0] && env[0][n] == st.envs[0][n]
    decreases |ps|
  {
    if ps != [] {
      var name, d := ps[0].name, ps[0].default;
      if name in st.envs[0] {
        RunOutputsKeepVariables(p, fuel, ps[1..], st);
      } else {
        var r := match d
                 case Some(e) => Eval(p, fuel, e, 0, st)
                 case None => Ok(IntV(0), st);
        RunOutputsKeepVariables(p, fuel, ps[1..], SetVar(r.st, 0, name, r.value));
      }
    }
  }

  // ---------------------------------------------------------------------
  // The start of a run
  // ---------------------------------------------------------------------

  // When the first state is entered, every given input holds the given value: neither
  // the variables nor the outputs nor the entry arguments change it.
  lemma RunStartsWithInputs(p: Program, fuel: nat, a: Autotuner, given: map<Name, Value>, st: State, i: nat)
    requires st.envs != [] && st.envs[0] == map[] && Initialize(p, fuel, a, given, st).Ok?
    requires DistinctNames(NamesOf(a.inputs)) && i < |a.inputs| && a.inputs[i].name in given
    ensures var env := Initialize(p, fuel, a, given, st).st.envs;
            env != [] && a.inputs[i].name in env[0] && env[0][a.inputs[i].name] == given[a.inputs[i].name]
  {
    var r1 := InitVariables(p, fuel, a.variables, st);
    var r2 := SetInputs(p, fuel, a.inputs, given, r1.st);
    var states := RunInputsHold(p, fuel, a.inputs, given, r1.st);
    assert InputHeld(p, fuel, a.inputs[i], given, states[i], r2.st);
    RunOutputsKeepVariables(p, fuel, a.outputs, r2.st);
  }

  // ---------------------------------------------------------------------
  // The start of an inline routine
  // ---------------------------------------------------------------------

  lemma DefaultsAreZero()
    ensures PrimitiveDefault(IntType) == IntV(0) && PrimitiveDefault(FloatType) == FloatV(0.0)
    ensures PrimitiveDefault(BoolType) == BoolV(false) && PrimitiveDefault(StringType) == StringV("")
    ensures forall ty: TypeDesc :: !ty.IntType? && !ty.FloatType? && !ty.BoolType? && !ty.StringType? ==>
              PrimitiveDefault(ty) == NilV
  {
  }

  lemma {:induction false} GivenInputsHold(inputs: seq<Param>, params: map<Name, Value>)
    ensures forall n :: n in GivenInputs(inputs, params) <==>
              n in params && exists i :: 0 <= i < |inputs| && inputs[i].name == n
    ensures forall n :: n in GivenInputs(inputs, params) ==> GivenInputs(inputs, params)[n] == params[n]
    decreases |inputs|
  {
    if inputs != [] {
      var k := |inputs| - 1;
      GivenInputsHold(inputs[..k], params);
      forall n ensures n in GivenInputs(inputs, params)
        <==> n in params && exists i :: 0 <= i < |inputs| && inputs[i].name == n {
        if n == inputs[k].name {
        } else if i: nat :| i < |inputs| && inputs[i].name == n {
          assert inputs[..k][i].name == n;
        }
      }
    }
  }

  lemma {:induction false} DefaultsKeepOthers(env: Env, outputs: seq<Param>, n: Name)
    requires forall i :: 0 <= i < |outputs| ==> outputs[i].name != n
    ensures n in WithDefaults(env, outputs) <==> n in env
    ensures n in env ==> WithDefaults(env, outputs)[n] == env[n]
    decreases |outputs|
  {
    if outputs != [] { DefaultsKeepOthers(env, outputs[..|outputs| - 1], n); }
  }

  lemma {:induction false} DefaultHolds(env: Env, outputs: seq<Param>, i: nat)
    requires DistinctNames(NamesOf(outputs)) && i < |outputs|
    ensures WithDefaults(env, outputs)[outputs[i].name] == PrimitiveDefault(outputs[i].ty)
    decreases |outputs|
  {
    DistinctSplit(outputs);
    if i < |outputs| - 1 { DefaultHolds(env, outputs[..|outputs| - 1], i); }
  }

  // An inline routine starts with the inputs it was given and a default in every output,
  // and with nothing else.
  lemma InlineStartsWith(routine: Routine, params: map<Name, Value>)
    requires DistinctNames(NamesOf(routine.outputs))
    ensures var env := InlineEnv(routine, params);
            && (forall i :: 0 <= i < |routine.outputs| ==>
                  routine.outputs[i].name in env
                    && env[routine.outputs[i].name] == PrimitiveDefault(routine.outputs[i].ty))
            && (forall n :: (forall i :: 0 <= i < |routine.outputs| ==> routine.outputs[i].name != n) ==>
                  && (n in env <==> n in params && exists i :: 0 <= i < |routine.inputs| && routine.inputs[i].name == n)
                  && (n in env ==> env[n] == params[n]))
  {
    var given := GivenInputs(routine.inputs, params);
    GivenInputsHold(routine.inputs, params);
    forall i | 0 <= i < |routine.outputs|
      ensures InlineEnv(routine, params)[routine.outputs[i].name] == PrimitiveDefault(routine.outputs[i].ty)
    {
      DefaultHolds(given, routine.outputs, i);
    }
    forall n | forall i :: 0 <= i < |routine.outputs| ==> routine.outputs[i].name != n
      ensures (n in InlineEnv(routine, params) <==> n in given)
              && (n in given ==> InlineEnv(routine, params)[n] == given[n])
    {
      DefaultsKeepOthers(given, routine.outputs, n);
    }
  }

  // ---------------------------------------------------------------------
  // The start of a struct routine
  // ---------------------------------------------------------------------

  // The flat copy of a field: the receiver's value, else the initialiser, else a default.
  function CopySource(d: VarDeclaration, a: nat, st: State): Source {
    if IsInstance(st.heap, a) && d.name in st.heap[a].fields then Given(st.heap[a].fields[d.name])
    else match d.init
         case Some(e) => Computed(e)
         case None => Given(PrimitiveDefault(d.ty))
  }

  lemma FirstCopy(p: Program, fuel: nat, ds: seq<VarDeclaration>, a: nat, cur: nat, st: State)
    requires cur < |st.envs| && ds != []
    ensures var r := Serve(p, fuel, ds[0].name, CopySource(ds[0], a, st), cur, st);
            FlattenFields(p, fuel, ds, a, cur, st)
            == if r.Ok? then FlattenFields(p, fuel, ds[1..], a, cur, r.st) else r
  {
  }

  lemma {:induction false} FieldsAreCopied(p: Program, fuel: nat, ds: seq<VarDeclaration>, a: nat, cur: nat, st: State)
    returns (sources: seq<Source>, states: seq<State>)
    requires cur < |st.envs| && FlattenFields(p, fuel, ds, a, cur, st).Ok?
    ensures Served(p, fuel, VariableNamesOf(ds), sources, cur, states)
    ensures states[0] == st && states[|ds|] == FlattenFields(p, fuel, ds, a, cur, st).st
    ensures forall i :: 0 <= i < |ds| ==> sources[i] == CopySource(ds[i], a, states[i])
    decreases |ds|
  {
    if ds == [] {
      sources, states := [], [st];
    } else {
      var source := CopySource(ds[0], a, st);
      var r := Serve(p, fuel, ds[0].name, source, cur, st);
      FirstCopy(p, fuel, ds, a, cur, st);
      var more, rest := FieldsAreCopied(p, fuel, ds[1..], a, cur, r.st);
      sources, states := [source] + more, [st] + rest;
      assert VariableNamesOf(ds)[1..] == VariableNamesOf(ds[1..]) && sources[1..] == more;
      ServedCons(p, fuel, VariableNamesOf(ds), sources, cur, st, rest);
      assert forall i :: 0 < i < |ds| ==> ds[i] == ds[1..][i - 1];
    }
  }

  // The fields of an instance get their values in order.  mids[i] is the state in which
  // the value of field i has been found.
  ghost predicate FieldsSet(p: Program, fuel: nat, ds: seq<VarDeclaration>, a: nat, freshStructs: bool, cur: nat,
                            values: seq<Value>, states: seq<State>, mids: seq<State>)
  {
    && |values| == |ds| && |mids| == |ds| && |states| == |ds| + 1
    && (forall i :: 0 <= i < |states| ==> cur < |states[i].envs|)
    && forall i :: 0 <= i < |ds| ==>
         && FieldValue(p, fuel, ds[i], freshStructs, cur, states[i], values[i], mids[i])
         && states[i + 1] == mids[i].(heap := WriteField(mids[i].heap, a, ds[i].name, values[i]))
  }

  // The initialiser, or a new instance for a struct field of a new instance, or a default.
  ghost predicate FieldValue(p: Program, fuel: nat, d: VarDeclaration, freshStructs: bool, cur: nat, st: State,
                             v: Value, mid: State)
    requires cur < |st.envs|
  {
    match d.init
    case Some(e) => Eval(p, fuel, e, cur, st) == Ok(v, mid)
    case None =>
      if freshStructs && d.ty.StructType? then
        v == StructV(|st.heap|) && mid == st.(heap := st.heap + [Instance(d.ty.name, map[], false)])
      else v == PrimitiveDefault(d.ty) && mid == st
  }

  lemma {:induction false} InstanceFieldsAreSet(p: Program, fuel: nat, ds: seq<VarDeclaration>, a: nat,
                                                freshStructs: bool, cur: nat, st: State)
    returns (values: seq<Value>, states: seq<State>, mids: seq<State>)
    requires cur < |st.envs| && InitFields(p, fuel, ds, a, freshStructs, cur, st).Ok?
    ensures FieldsSet(p, fuel, ds, a, freshStructs, cur, values, states, mids)
    ensures states[0] == st && states[|ds|] == InitFields(p, fuel, ds, a, freshStructs, cur, st).st
    decreases |ds|
  {
    if ds == [] {
      values, states, mids := [], [st], [];
    } else {
      var d := ds[0];
      var r := match d.init
               case Some(e) => Eval(p, fuel, e, cur, st)
               case None =>
                 if freshStructs && d.ty.StructType? then
                   Ok(StructV(|st.heap|), st.(heap := st.heap + [Instance(d.ty.name, map[], false)]))
                 else Ok(PrimitiveDefault(d.ty), st);
      var next := r.st.(heap := WriteField(r.st.heap, a, d.name, r.value));
      var vs, ss, ms := InstanceFieldsAreSet(p, fuel, ds[1..], a, freshStructs, cur, next);
      values, states, mids := [r.value] + vs, [st] + ss, [r.st] + ms;
      FieldsSetCons(p, fuel, ds, a, freshStructs, cur, r.value, st, r.st, vs, ss, ms);
    }
  }

  lemma FieldsSetCons(p: Program, fuel: nat, ds: seq<VarDeclaration>, a: nat, freshStructs: bool, cur: nat,
                      v: Value, st: State, mid: State, vs: seq<Value>, ss: seq<State>, ms: seq<State>)
    requires ds != [] && FieldsSet(p, fuel, ds[1..], a, freshStructs, cur, vs, ss, ms) && cur < |st.envs|
    requires FieldValue(p, fuel, ds[0], freshStructs, cur, st, v, mid)
    requires ss[0] == mid.(heap := WriteField(mid.heap, a, ds[0].name, v))
    ensures FieldsSet(p, fuel, ds, a, freshStructs, cur, [v] + vs, [st] + ss, [mid] + ms)
  {
    var values, states, mids := [v] + vs, [st] + ss, [mid] + ms;
    forall i | 0 <= i < |ds|
      ensures FieldValue(p, fuel, ds[i], freshStructs, cur, states[i], values[i], mids[i])
      ensures states[i + 1] == mids[i].(heap := WriteField(mids[i].heap, a, ds[i].name, values[i]))
    {
      if i > 0 { assert ds[i] == ds[1..][i - 1] && states[i] == ss[i - 1] && mids[i] == ms[i - 1]; }
    }
  }

  // Only output names change when outputs are initialised.
  lemma {:induction false} OutputsKeepOthers(p: Program, fuel: nat, ps: seq<Param>, cur: nat, st: State, n: Name)
    requires cur < |st.envs| && InitOutputs(p, fuel, ps, cur, st).Ok?
    requires n in st.envs[cur] && forall i :: 0 <= i < |ps| ==> ps[i].name != n
    ensures var envs := InitOutputs(p, fuel, ps, cur, st).st.envs;
            cur < |envs| && n in envs[cur] && envs[cur][n] == st.envs[cur][n]
    decreases |ps|
  {
    if ps != [] {
      var one := OneOutput(p, fuel, ps, cur, st);
      OutputsKeepOthers(p, fuel, ps[1..], cur, one, n);
    }
  }

  // The state after the first output.
  lemma OneOutput(p: Program, fuel: nat, ps: seq<Param>, cur: nat, st: State) returns (s: State)
    requires cur < |st.envs| && ps != [] && InitOutputs(p, fuel, ps, cur, st).Ok?
    ensures |s.envs| == |st.envs| && InitOutputs(p, fuel, ps, cur, st) == InitOutputs(p, fuel, ps[1..], cur, s)
    ensures forall n :: n in st.envs[cur] && n != ps[0].name ==> n in s.envs[cur] && s.envs[cur][n] == st.envs[cur][n]
    ensures ps[0].ty.StructType? ==>
              ps[0].name in s.envs[cur] && s.envs[cur][ps[0].name] == StructV(|st.heap|)
    ensures !ps[0].ty.StructType? && ps[0].default.None? ==> s == st
    ensures !ps[0].ty.StructType? && ps[0].default.Some? ==>
              var d := Eval(p, fuel, ps[0].default.value, cur, st);
              d.Ok? && ps[0].name in s.envs[cur] && s.envs[cur][ps[0].name] == d.value
  {
    var out := ps[0];
    if out.ty.StructType? {
      var st0 := st.(heap := st.heap + [Instance(out.ty.name, map[], false)]);
      var fields := match LookupStruct(p, out.ty.name) case Some(d) => d.fields case None => [];
      s := SetVar(InitFields(p, fuel, fields, |st.heap|, false, cur, st0).st, cur, out.name, StructV(|st.heap|));
    } else if out.default.Some? {
      var r := Eval(p, fuel, out.default.value, cur, st);
      s := SetVar(r.st, cur, out.name, r.value);
    } else {
      s := st;
    }
  }

  // When the body of a struct routine starts, parameter i holds argument i.
  lemma RoutineStartsWithArguments(p: Program, fuel: nat, a: nat, decl: StructDecl, routine: Routine, args: seq<Value>,
                                   st: State, i: nat)
    requires st.envs != [] && RoutineEntry(p, fuel, a, decl, routine, args, st).Ok?
    requires DistinctNames(NamesOf(routine.inputs)) && i < |routine.inputs| && i < |args|
    requires forall k :: 0 <= k < |routine.outputs| ==> routine.outputs[k].name != routine.inputs[i].name
    ensures var envs := RoutineEntry(p, fuel, a, decl, routine, args, st).st.envs;
            && |envs| == |st.envs| && routine.inputs[i].name in envs[|envs| - 1]
            && envs[|envs| - 1][routine.inputs[i].name] == args[i]
  {
    var cur := |st.envs| - 1;
    var r1 := FlattenFields(p, fuel, decl.fields, a, cur, st);
    var r2 := BindInputs(p, fuel, routine.inputs, args, cur, r1.st);
    var states := ParametersHoldArguments(p, fuel, routine.inputs, args, cur, r1.st);
    OutputsKeepOthers(p, fuel, routine.outputs, cur, r2.st, routine.inputs[i].name);
  }

  // ---------------------------------------------------------------------
  // The start of a state
  // ---------------------------------------------------------------------

  // A state does not take more arguments than it has parameters.
  lemma StateRejectsExtraArguments(p: Program, fuel: nat, s: StateDecl, params: seq<Value>, st: State)
    requires st.envs != [] && |params| > |s.params|
    ensures ExecState(p, fuel, s, params, st).Throw? && ExecState(p, fuel, s, params, st).st == st
  {
  }

  // When the body of a state starts, parameter i holds argument i; in the end the variables
  // that were there before have the values that the body left.
  lemma StateStartsWithArguments(p: Program, fuel: nat, s: StateDecl, params: seq<Value>, st: State)
    returns (entered: State)
    requires st.envs != [] && ExecState(p, fuel, s, params, st).Ok? && DistinctNames(NamesOf(s.params))
    ensures entered.envs != [] && |params| <= |s.params|
    ensures forall i :: 0 <= i < |params| ==>
              s.params[i].name in entered.envs[0] && entered.envs[0][s.params[i].name] == params[i]
    ensures var body, r := ExecBlock(p, fuel, s.body, 0, entered), ExecState(p, fuel, s, params, st);
            && body.Ok? && r.value == body.value && r.st.heap == body.st.heap && body.st.envs != [] && r.st.envs != []
            && forall n :: n in st.envs[0] ==>
               n in r.st.envs[0] && n in body.st.envs[0] && r.st.envs[0][n] == body.st.envs[0][n]
  {
    var states := ParametersHoldArguments(p, fuel, s.params, params, 0, st);
    entered := BindInputs(p, fuel, s.params, params, 0, st).st;
  }

  // The first state gets the values of the entry arguments, in order.
  lemma EntryArgumentsInOrder(p: Program, fuel: nat, a: Autotuner, given: map<Name, Value>, st: State)
    returns (states: seq<State>)
    requires st.envs != [] && st.envs[0] == map[] && Initialize(p, fuel, a, given, st).Ok?
    ensures var r := Initialize(p, fuel, a, given, st);
            InOrder(p, fuel, a.entryParams, 0, r.value, states) && states[|a.entryParams|] == r.st
  {
    var r1 := InitVariables(p, fuel, a.variables, st);
    var r2 := SetInputs(p, fuel, a.inputs, given, r1.st);
    var r3 := InitRunOutputs(p, fuel, a.outputs, r2.st);
    states := ListIsInOrder(p, fuel, a.entryParams, 0, r3.st);
  }

  // A call on a type makes a new instance and sets its fields before any argument is
  // evaluated, and runs the routine on it.
  lemma InstanceComesFirst(p: Program, fuel: nat, decl: StructDecl, m: Name, args: seq<Expr>, cur: nat, st: State)
    requires cur < |st.envs| && fuel > 0 && FindRoutine(decl.routines, m).Some?
    ensures var receiver := |st.heap|;
            var st0 := st.(heap := st.heap + [Instance(decl.name, map[], false)]);
            var fields := InitFields(p, fuel - 1, decl.fields, receiver, true, cur, st0);
            var call := EvalStaticCall(p, fuel, decl, m, args, cur, st);
            && (fields.Throw? ==> call.Throw? && call.error == fields.error && call.st == fields.st)
            && (fields.Ok? ==>
                  var values := EvalList(p, fuel, args, cur, fields.st);
                  && (values.Throw? ==> call.Throw? && call.error == values.error && call.st == values.st)
                  && (values.Ok? ==>
                        var r := RunRoutine(p, fuel - 1, receiver, decl, FindRoutine(decl.routines, m).value,
                                            values.value, values.st);
                        r.Ok? ==> call == Wrap(r.value, r.st)))
  {
  }
}
