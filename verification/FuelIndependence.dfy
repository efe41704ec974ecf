// The bound on nesting and transitions decides only whether a run is described at
// all, never what it does: whatever ends under one bound ends in the same way,
// with the same value, error, environments and heap, under every larger one.
module FuelIndependence {
  import opened Prelude
  import opened Ast
  import opened Matching
  import opened Semantics

  // small is the result under a bound, large the result under a larger one.
  ghost predicate Settled<T>(small: Res<T>, large: Res<T>) {
    small.OutOfFuel? || small == large
  }

  // ---------------------------------------------------------------------
  // Expressions
  // ---------------------------------------------------------------------

  lemma {:induction false} EvalSettles(p: Program, f: nat, g: nat, e: Expr, cur: nat, st: State)
    requires f <= g && cur < |st.envs|
    ensures Settled(Eval(p, f, e, cur, st), Eval(p, g, e, cur, st))
    decreases f, 0, e, 2
  {
    match e {
      case Lit(_) =>
      case NilLit =>
      case Var(_) =>
      case Binary(_, l, r) =>
        EvalSettles(p, f, g, l, cur, st);
        var left := Eval(p, f, l, cur, st);
        if left.Ok? { EvalSettles(p, f, g, r, cur, left.st); }
      case Unary(_, o) => EvalSettles(p, f, g, o, cur, st);
      case Member(o, _) => EvalSettles(p, f, g, o, cur, st);
      case MethodCall(o, m, args) => MethodCallSettles(p, f, g, o, m, args, cur, st);
      case Index(o, i) =>
        EvalSettles(p, f, g, o, cur, st);
        var v := Eval(p, f, o, cur, st);
        if v.Ok? {
          EvalSettles(p, f, g, i, cur, v.st);
          var index := Eval(p, f, i, cur, v.st);
          if index.Ok? && f > 0 { IndexSettles(p, f - 1, g - 1, v.value, index.value, index.st); }
        }
      case Call(name, args) => CallSettles(p, f, g, name, args, cur, st);
    }
  }

  lemma {:induction false} ListSettles(p: Program, f: nat, g: nat, es: seq<Expr>, cur: nat, st: State)
    requires f <= g && cur < |st.envs|
    ensures Settled(EvalList(p, f, es, cur, st), EvalList(p, g, es, cur, st))
    decreases f, 0, es, 0
  {
    if es != [] {
      EvalSettles(p, f, g, es[0], cur, st);
      var v := Eval(p, f, es[0], cur, st);
      if v.Ok? { ListSettles(p, f, g, es[1..], cur, v.st); }
    }
  }

  lemma {:induction false} BindingsSettle(p: Program, f: nat, g: nat, args: seq<Arg>, plan: seq<Binding>,
                                          params: map<Name, Value>, cur: nat, st: State)
    requires f <= g && cur < |st.envs|
    ensures Settled(EvalBindings(p, f, args, plan, params, cur, st), EvalBindings(p, g, args, plan, params, cur, st))
    decreases f, 0, args, |plan|
  {
    if plan != [] {
      match plan[0] {
        case Missing(_) =>
        case NilDefault(name) => BindingsSettle(p, f, g, args, plan[1..], params[name := NilV], cur, st);
        case FromArgument(name, i) =>
          if i < |args| {
            var arg := args[i];
            assert (args decreases to arg);
            EvalSettles(p, f, g, arg.value, cur, st);
            var v := Eval(p, f, arg.value, cur, st);
            if v.Ok? { BindingsSettle(p, f, g, args, plan[1..], params[name := v.value], cur, v.st); }
          }
      }
    }
  }

  lemma {:induction false} CallSettles(p: Program, f: nat, g: nat, name: Name, args: seq<Arg>, cur: nat, st: State)
    requires f <= g && cur < |st.envs|
    ensures Settled(EvalCall(p, f, name, args, cur, st), EvalCall(p, g, name, args, cur, st))
    decreases f, 0, Call(name, args), 1
  {
    var found := FindFunction(p, name);
    if found.Some? {
      var plan := Plan(found.value.signature, ArgumentNames(args));
      BindingsSettle(p, f, g, args, plan, map[], cur, st);
      var bound := EvalBindings(p, f, args, plan, map[], cur, st);
      if bound.Ok? && f > 0 { ApplySettles(p, f - 1, g - 1, found.value.callable, bound.value, bound.st); }
    }
  }

  lemma {:induction false} MethodCallSettles(p: Program, f: nat, g: nat, o: Expr, m: Name, args: seq<Expr>, cur: nat,
                                             st: State)
    requires f <= g && cur < |st.envs|
    ensures Settled(EvalMethodCall(p, f, o, m, args, cur, st), EvalMethodCall(p, g, o, m, args, cur, st))
    decreases f, 0, MethodCall(o, m, args), 1
  {
    var decl := StaticReceiver(p, o, st.envs[cur]);
    if decl.Some? {
      StaticCallSettles(p, f, g, decl.value, m, args, cur, st);
    } else {
      EvalSettles(p, f, g, o, cur, st);
      var target := Eval(p, f, o, cur, st);
      if target.Ok? { ReceiverCallSettles(p, f, g, target.value, m, args, cur, target.st); }
    }
  }

  lemma {:induction false} StaticCallSettles(p: Program, f: nat, g: nat, decl: StructDecl, m: Name, args: seq<Expr>,
                                             cur: nat, st: State)
    requires f <= g && cur < |st.envs|
    ensures Settled(EvalStaticCall(p, f, decl, m, args, cur, st), EvalStaticCall(p, g, decl, m, args, cur, st))
    decreases f, 0, args, 2
  {
    var routine := FindRoutine(decl.routines, m);
    if routine.Some? && f > 0 {
      var receiver := |st.heap|;
      var st0 := st.(heap := st.heap + [Instance(decl.name, map[], false)]);
      FieldsSettle(p, f - 1, g - 1, decl.fields, receiver, true, cur, st0);
      var r := InitFields(p, f - 1, decl.fields, receiver, true, cur, st0);
      if r.Ok? { ArgumentsAndRoutineSettle(p, f, g, receiver, decl, routine.value, args, cur, r.st); }
    }
  }

  lemma {:induction false} ArgumentsAndRoutineSettle(p: Program, f: nat, g: nat, a: nat, decl: StructDecl,
                                                     routine: Routine, args: seq<Expr>, cur: nat, st: State)
    requires 0 < f <= g && cur < |st.envs|
    ensures Settled(EvalList(p, f, args, cur, st), EvalList(p, g, args, cur, st))
    ensures var values := EvalList(p, f, args, cur, st);
            values.Ok? ==> Settled(RunRoutine(p, f - 1, a, decl, routine, values.value, values.st),
                                   RunRoutine(p, g - 1, a, decl, routine, values.value, values.st))
    decreases f, 0, args, 1
  {
    ListSettles(p, f, g, args, cur, st);
    var values := EvalList(p, f, args, cur, st);
    if values.Ok? { RoutineSettles(p, f - 1, g - 1, a, decl, routine, values.value, values.st); }
  }

  lemma {:induction false} ReceiverCallSettles(p: Program, f: nat, g: nat, target: Value, m: Name, args: seq<Expr>,
                                               cur: nat, st: State)
    requires f <= g && cur < |st.envs|
    ensures Settled(EvalReceiverCall(p, f, target, m, args, cur, st), EvalReceiverCall(p, g, target, m, args, cur, st))
    decreases f, 0, args, 2
  {
    ListSettles(p, f, g, args, cur, st);
    if f > 0 && target.StructV? && IsInstance(st.heap, target.addr) {
      var decl := LookupStruct(p, st.heap[target.addr].typeName);
      if decl.Some? && FindRoutine(decl.value.routines, m).Some? {
        var routine := FindRoutine(decl.value.routines, m).value;
        ArgumentsAndRoutineSettle(p, f, g, target.addr, decl.value, routine, args, cur, st);
      }
    }
  }

  lemma {:induction false} IndexSettles(p: Program, f: nat, g: nat, target: Value, index: Value, st: State)
    requires f <= g
    ensures Settled(EvalIndex(p, f, target, index, st), EvalIndex(p, g, target, index, st))
    decreases f, 6
  {
    if target.StructV? && IsInstance(st.heap, target.addr) {
      var decl := LookupStruct(p, st.heap[target.addr].typeName);
      if decl.Some? && FindRoutine(decl.value.routines, "GetIndex").Some? {
        RoutineSettles(p, f, g, target.addr, decl.value, FindRoutine(decl.value.routines, "GetIndex").value, [index],
                       st);
      }
    }
  }

  // ---------------------------------------------------------------------
  // Struct routines
  // ---------------------------------------------------------------------

  lemma {:induction false} FieldsSettle(p: Program, f: nat, g: nat, fields: seq<VarDeclaration>, a: nat,
                                        freshStructs: bool, cur: nat, st: State)
    requires f <= g && cur < |st.envs|
    ensures Settled(InitFields(p, f, fields, a, freshStructs, cur, st),
                    InitFields(p, g, fields, a, freshStructs, cur, st))
    decreases f, 2, |fields|
  {
    if fields != [] {
      var d := fields[0];
      if d.init.Some? { EvalSettles(p, f, g, d.init.value, cur, st); }
      var r := match d.init
               case Some(e) => Eval(p, f, e, cur, st)
               case None =>
                 if freshStructs && d.ty.StructType? then
                   Ok(StructV(|st.heap|), st.(heap := st.heap + [Instance(d.ty.name, map[], false)]))
                 else Ok(PrimitiveDefault(d.ty), st);
      if r.Ok? {
        FieldsSettle(p, f, g, fields[1..], a, freshStructs, cur,
                     r.st.(heap := WriteField(r.st.heap, a, d.name, r.value)));
      }
    }
  }

  lemma {:induction false} FlattenSettles(p: Program, f: nat, g: nat, fields: seq<VarDeclaration>, a: nat, cur: nat,
                                          st: State)
    requires f <= g && cur < |st.envs|
    ensures Settled(FlattenFields(p, f, fields, a, cur, st), FlattenFields(p, g, fields, a, cur, st))
    decreases f, 2, |fields|
  {
    if fields != [] {
      var d := fields[0];
      if d.init.Some? { EvalSettles(p, f, g, d.init.value, cur, st); }
      var r := if IsInstance(st.heap, a) && d.name in st.heap[a].fields then Ok(st.heap[a].fields[d.name], st)
               else match d.init
                    case Some(e) => Eval(p, f, e, cur, st)
                    case None => Ok(PrimitiveDefault(d.ty), st);
      if r.Ok? { FlattenSettles(p, f, g, fields[1..], a, cur, SetVar(r.st, cur, d.name, r.value)); }
    }
  }

  lemma {:induction false} InputsSettle(p: Program, f: nat, g: nat, inputs: seq<Param>, args: seq<Value>, cur: nat,
                                        st: State)
    requires f <= g && cur < |st.envs|
    ensures Settled(BindInputs(p, f, inputs, args, cur, st), BindInputs(p, g, inputs, args, cur, st))
    decreases f, 2, |inputs|
  {
    if inputs != [] {
      var d := inputs[0].default;
      if args == [] && d.Some? { EvalSettles(p, f, g, d.value, cur, st); }
      var r := if args != [] then Ok(args[0], st)
               else match d
                    case Some(e) => Eval(p, f, e, cur, st)
                    case None => Throw(MissingArgument(inputs[0].name), st);
      if r.Ok? {
        InputsSettle(p, f, g, inputs[1..], if args == [] then [] else args[1..], cur,
                     SetVar(r.st, cur, inputs[0].name, r.value));
      }
    }
  }

  lemma {:induction false} OutputsSettle(p: Program, f: nat, g: nat, outputs: seq<Param>, cur: nat, st: State)
    requires f <= g && cur < |st.envs|
    ensures Settled(InitOutputs(p, f, outputs, cur, st), InitOutputs(p, g, outputs, cur, st))
    decreases f, 3, |outputs|
  {
    if outputs != [] {
      var out, rest := outputs[0], outputs[1..];
      if out.ty.StructType? {
        var st0 := st.(heap := st.heap + [Instance(out.ty.name, map[], false)]);
        var fields := match LookupStruct(p, out.ty.name) case Some(d) => d.fields case None => [];
        FieldsSettle(p, f, g, fields, |st.heap|, false, cur, st0);
        var r := InitFields(p, f, fields, |st.heap|, false, cur, st0);
        if r.Ok? { OutputsSettle(p, f, g, rest, cur, SetVar(r.st, cur, out.name, StructV(|st.heap|))); }
      } else if out.default.Some? {
        EvalSettles(p, f, g, out.default.value, cur, st);
        var r := Eval(p, f, out.default.value, cur, st);
        if r.Ok? { OutputsSettle(p, f, g, rest, cur, SetVar(r.st, cur, out.name, r.value)); }
      } else {
        OutputsSettle(p, f, g, rest, cur, st);
      }
    }
  }

  lemma {:induction false} RoutineSettles(p: Program, f: nat, g: nat, a: nat, decl: StructDecl, routine: Routine,
                                          args: seq<Value>, st: State)
    requires f <= g
    ensures Settled(RunRoutine(p, f, a, decl, routine, args, st), RunRoutine(p, g, a, decl, routine, args, st))
    decreases f, 5
  {
    if routine.body != [] {
      RoutineBodySettles(p, f, g, a, decl, routine, args, st.(envs := st.envs + [map["this" := StructV(a)]]));
    }
  }

  lemma {:induction false} RoutineBodySettles(p: Program, f: nat, g: nat, a: nat, decl: StructDecl, routine: Routine,
                                              args: seq<Value>, st: State)
    requires f <= g && st.envs != []
    ensures Settled(RoutineBody(p, f, a, decl, routine, args, st), RoutineBody(p, g, a, decl, routine, args, st))
    decreases f, 4, 1
  {
    EntrySettles(p, f, g, a, decl, routine, args, st);
    var r := RoutineEntry(p, f, a, decl, routine, args, st);
    if r.Ok? { BlockSettles(p, f, g, routine.body, |st.envs| - 1, r.st); }
  }

  lemma {:induction false} EntrySettles(p: Program, f: nat, g: nat, a: nat, decl: StructDecl, routine: Routine,
                                        args: seq<Value>, st: State)
    requires f <= g && st.envs != []
    ensures Settled(RoutineEntry(p, f, a, decl, routine, args, st), RoutineEntry(p, g, a, decl, routine, args, st))
    decreases f, 4, 0
  {
    var cur := |st.envs| - 1;
    FlattenSettles(p, f, g, decl.fields, a, cur, st);
    var r1 := FlattenFields(p, f, decl.fields, a, cur, st);
    if r1.Ok? {
      InputsSettle(p, f, g, routine.inputs, args, cur, r1.st);
      var r2 := BindInputs(p, f, routine.inputs, args, cur, r1.st);
      if r2.Ok? { OutputsSettle(p, f, g, routine.outputs, cur, r2.st); }
    }
  }

  // ---------------------------------------------------------------------
  // Statements
  // ---------------------------------------------------------------------

  lemma {:induction false} BlockSettles(p: Program, f: nat, g: nat, stmts: seq<Stmt>, cur: nat, st: State)
    requires f <= g && cur < |st.envs|
    ensures Settled(ExecBlock(p, f, stmts, cur, st), ExecBlock(p, g, stmts, cur, st))
    decreases f, 1, stmts, 0
  {
    if stmts != [] {
      StmtSettles(p, f, g, stmts[0], cur, st);
      var r := Exec(p, f, stmts[0], cur, st);
      if r.Ok? && r.value.Next? { BlockSettles(p, f, g, stmts[1..], cur, r.st); }
    }
  }

  lemma {:induction false} StmtSettles(p: Program, f: nat, g: nat, s: Stmt, cur: nat, st: State)
    requires f <= g && cur < |st.envs|
    ensures Settled(Exec(p, f, s, cur, st), Exec(p, g, s, cur, st))
    decreases f, 1, s, 0
  {
    match s {
      case VarDecl(d) => DeclarationSettles(p, f, g, d, cur, st);
      case Assign(targets, e) =>
        EvalSettles(p, f, g, e, cur, st);
        var v := Eval(p, f, e, cur, st);
        if v.Ok? { AssignSettles(p, f, g, targets, v.value, cur, v.st); }
      case FieldAssign(_, _, e) => EvalSettles(p, f, g, e, cur, st);
      case ExprStmt(e) => EvalSettles(p, f, g, e, cur, st);
      case If(c, thenBody, elseBody) =>
        EvalSettles(p, f, g, c, cur, st);
        var v := Eval(p, f, c, cur, st);
        if v.Ok? && v.value.BoolV? { BlockSettles(p, f, g, if v.value.b then thenBody else elseBody, cur, v.st); }
      case Transition(_, es) => ListSettles(p, f, g, es, cur, st);
      case Terminal =>
    }
  }

  lemma {:induction false} DeclarationSettles(p: Program, f: nat, g: nat, d: VarDeclaration, cur: nat, st: State)
    requires f <= g && cur < |st.envs|
    ensures Settled(ExecVarDecl(p, f, d, cur, st), ExecVarDecl(p, g, d, cur, st))
    decreases f, 1, d, 0
  {
    if d.init.Some? { EvalSettles(p, f, g, d.init.value, cur, st); }
  }

  lemma {:induction false} AssignSettles(p: Program, f: nat, g: nat, targets: seq<Target>, v: Value, cur: nat,
                                         st: State)
    requires f <= g && cur < |st.envs|
    ensures Settled(ExecAssign(p, f, targets, v, cur, st), ExecAssign(p, g, targets, v, cur, st))
    decreases f, 1, targets, 1
  {
    if |targets| > 1 && v.TupleV? && v.addr < |st.heap| && st.heap[v.addr].Tuple?
      && |st.heap[v.addr].values| == |targets| {
      TargetsSettle(p, f, g, targets, st.heap[v.addr].values, cur, st);
    }
  }

  lemma {:induction false} TargetsSettle(p: Program, f: nat, g: nat, targets: seq<Target>, values: seq<Value>, cur: nat,
                                         st: State)
    requires f <= g && cur < |st.envs| && |values| == |targets|
    ensures Settled(AssignTargets(p, f, targets, values, cur, st), AssignTargets(p, g, targets, values, cur, st))
    decreases f, 1, targets, 0
  {
    if targets != [] {
      match targets[0] {
        case VarTarget(name) => TargetsSettle(p, f, g, targets[1..], values[1..], cur,
                                              SetVar(st, cur, name, values[0]));
        case FieldTarget(o, field) =>
          EvalSettles(p, f, g, o, cur, st);
          var target := Eval(p, f, o, cur, st);
          if target.Ok? && target.value.StructV? {
            var r := StoreField(o, field, values[0], cur, target.st);
            if r.Ok? { TargetsSettle(p, f, g, targets[1..], values[1..], cur, r.st); }
          }
      }
    }
  }

  // ---------------------------------------------------------------------
  // Calls and runs
  // ---------------------------------------------------------------------

  lemma {:induction false} ApplySettles(p: Program, f: nat, g: nat, c: Callable, params: map<Name, Value>, st: State)
    requires f <= g && st.envs != []
    ensures Settled(Apply(p, f, c, params, st), Apply(p, g, c, params, st))
    decreases f, 9
  {
    match c {
      case AutotunerFn(a) => RunSettles(p, f, g, a, params, st);
      case ForeignFn(_) =>
      case InlineFn(routine) =>
        InlineSettles(p, f, g, routine, st.(envs := st.envs + [InlineEnv(routine, params)]));
    }
  }

  lemma {:induction false} InlineSettles(p: Program, f: nat, g: nat, routine: Routine, st: State)
    requires f <= g && st.envs != []
    requires forall i :: 0 <= i < |routine.outputs| ==> routine.outputs[i].name in st.envs[|st.envs| - 1]
    ensures Settled(InlineBody(p, f, routine, st), InlineBody(p, g, routine, st))
    decreases f, 4
  {
    BlockSettles(p, f, g, routine.body, |st.envs| - 1, st);
  }

  // A run of an autotuner does not depend on the bound under which it ends.
  lemma {:induction false} RunSettles(p: Program, f: nat, g: nat, a: Autotuner, inputs: map<Name, Value>, st: State)
    requires f <= g && st.envs != []
    ensures Settled(Run(p, f, a, inputs, st), Run(p, g, a, inputs, st))
    decreases f, 8
  {
    var st0 := st.(envs := st.envs[0 := map[]]);
    InitializeSettles(p, f, g, a, inputs, st0);
    var r := Initialize(p, f, a, inputs, st0);
    if r.Ok? { LoopSettles(p, f, g, a, a.entry, r.value, r.st); }
  }

  lemma EndedRunsAgree(p: Program, f: nat, g: nat, a: Autotuner, inputs: map<Name, Value>, st: State)
    requires st.envs != [] && !Run(p, f, a, inputs, st).OutOfFuel? && !Run(p, g, a, inputs, st).OutOfFuel?
    ensures Run(p, f, a, inputs, st) == Run(p, g, a, inputs, st)
  {
    if f <= g {
      RunSettles(p, f, g, a, inputs, st);
    } else {
      RunSettles(p, g, f, a, inputs, st);
    }
  }

  lemma {:induction false} InitializeSettles(p: Program, f: nat, g: nat, a: Autotuner, inputs: map<Name, Value>,
                                             st: State)
    requires f <= g && st.envs != [] && st.envs[0] == map[]
    ensures Settled(Initialize(p, f, a, inputs, st), Initialize(p, g, a, inputs, st))
    decreases f, 3
  {
    VariablesSettle(p, f, g, a.variables, st);
    var r1 := InitVariables(p, f, a.variables, st);
    if r1.Ok? {
      SetInputsSettles(p, f, g, a.inputs, inputs, r1.st);
      var r2 := SetInputs(p, f, a.inputs, inputs, r1.st);
      if r2.Ok? {
        RunOutputsSettle(p, f, g, a.outputs, r2.st);
        var r3 := InitRunOutputs(p, f, a.outputs, r2.st);
        if r3.Ok? { ListSettles(p, f, g, a.entryParams, 0, r3.st); }
      }
    }
  }

  lemma {:induction false} VariablesSettle(p: Program, f: nat, g: nat, ds: seq<VarDeclaration>, st: State)
    requires f <= g && st.envs != []
    ensures Settled(InitVariables(p, f, ds, st), InitVariables(p, g, ds, st))
    decreases f, 2, |ds|
  {
    if ds != [] {
      DeclarationSettles(p, f, g, ds[0], 0, st);
      var r := ExecVarDecl(p, f, ds[0], 0, st);
      if r.Ok? { VariablesSettle(p, f, g, ds[1..], r.st); }
    }
  }

  lemma {:induction false} SetInputsSettles(p: Program, f: nat, g: nat, params: seq<Param>, inputs: map<Name, Value>,
                                            st: State)
    requires f <= g && st.envs != []
    ensures Settled(SetInputs(p, f, params, inputs, st), SetInputs(p, g, params, inputs, st))
    decreases f, 2, |params|
  {
    if params != [] {
      var name, d := params[0].name, params[0].default;
      if name !in inputs && d.Some? { EvalSettles(p, f, g, d.value, 0, st); }
      var r := if name in inputs then Ok(inputs[name], st)
               else match d
                    case Some(e) => Eval(p, f, e, 0, st)
                    case None => Throw(MissingArgument(name), st);
      if r.Ok? { SetInputsSettles(p, f, g, params[1..], inputs, SetVar(r.st, 0, name, r.value)); }
    }
  }

  lemma {:induction false} RunOutputsSettle(p: Program, f: nat, g: nat, outputs: seq<Param>, st: State)
    requires f <= g && st.envs != []
    ensures Settled(InitRunOutputs(p, f, outputs, st), InitRunOutputs(p, g, outputs, st))
    decreases f, 2, |outputs|
  {
    if outputs != [] {
      var name, d := outputs[0].name, outputs[0].default;
      if name in st.envs[0] {
        RunOutputsSettle(p, f, g, outputs[1..], st);
      } else {
        if d.Some? { EvalSettles(p, f, g, d.value, 0, st); }
        var r := match d
                 case Some(e) => Eval(p, f, e, 0, st)
                 case None => Ok(IntV(0), st);
        if r.Ok? { RunOutputsSettle(p, f, g, outputs[1..], SetVar(r.st, 0, name, r.value)); }
      }
    }
  }

  lemma {:induction false} LoopSettles(p: Program, f: nat, g: nat, a: Autotuner, current: Name, params: seq<Value>,
                                       st: State)
    requires f <= g && st.envs != []
    ensures Settled(Loop(p, f, a, current, params, st), Loop(p, g, a, current, params, st))
    decreases f, 6
  {
    var state := FindState(a.states, current);
    if state.Some? && f > 0 {
      StateSettles(p, f - 1, g - 1, state.value, params, st);
      var r := ExecState(p, f - 1, state.value, params, st);
      if r.Ok? && r.value.Goto? { LoopSettles(p, f - 1, g - 1, a, r.value.target, r.value.params, r.st); }
    }
  }

  lemma {:induction false} StateSettles(p: Program, f: nat, g: nat, s: StateDecl, params: seq<Value>, st: State)
    requires f <= g && st.envs != []
    ensures Settled(ExecState(p, f, s, params, st), ExecState(p, g, s, params, st))
    decreases f, 3
  {
    if |params| <= |s.params| {
      InputsSettle(p, f, g, s.params, params, 0, st);
      var r := BindInputs(p, f, s.params, params, 0, st);
      if r.Ok? { BlockSettles(p, f, g, s.body, 0, r.st); }
    }
  }
}
