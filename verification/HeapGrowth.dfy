// What evaluation does to the heap: it allocates objects and writes fields of struct
// instances, and nothing else.  No object ever goes away, changes its type or loses a
// field, and no tuple changes, provided that the foreign functions keep to this.
module HeapGrowth {
  import opened Prelude
  import opened Ast
  import opened Matching
  import opened Semantics
  import opened Expressions

  ghost predicate KeptObject(o: Object, o': Object) {
    match o
    case Tuple(_) => o' == o
    case Instance(typeName, fields, native) =>
      o'.Instance? && o'.typeName == typeName && o'.native == native && fields.Keys <= o'.fields.Keys
  }

  ghost predicate Kept(h: Heap, h': Heap) {
    |h| <= |h'| && forall i :: 0 <= i < |h| ==> KeptObject(h[i], h'[i])
  }

  ghost predicate KeptBy<T>(r: Res<T>, h: Heap) {
    match r
    case Ok(_, s) => Kept(h, s.heap)
    case Throw(_, s) => Kept(h, s.heap)
    case OutOfFuel => true
  }

  // A foreign function that keeps to the rule.
  ghost predicate Tame(f: Foreign) {
    forall receiver, params, heap ::
      match f(receiver, params, heap)
      case ForeignOk(_, heap') => Kept(heap, heap')
      case ForeignError(heap') => Kept(heap, heap')
  }

  ghost predicate TameProgram(p: Program) {
    && (forall k :: k in p.foreignMethods ==> Tame(p.foreignMethods[k]))
    && (forall k :: k in p.builtinMethods ==> Tame(p.builtinMethods[k]))
    && (forall n :: n in p.functions && p.functions[n].callable.ForeignFn? ==> Tame(p.functions[n].callable.foreign))
  }

  lemma Then<T>(h: Heap, h': Heap, r: Res<T>)
    requires Kept(h, h') && KeptBy(r, h')
    ensures KeptBy(r, h)
  {
  }

  lemma AllocationKeeps(h: Heap, o: Object)
    ensures Kept(h, h + [o])
  {
  }

  lemma WriteKeeps(h: Heap, a: nat, f: Name, v: Value)
    ensures Kept(h, WriteField(h, a, f, v))
  {
  }

  lemma WrapKeeps(values: seq<Value>, st: State)
    ensures KeptBy(Wrap(values, st), st.heap)
  {
    AllocationKeeps(st.heap, Tuple(values));
  }

  // A result of a call, as one value.
  lemma ThenWrapped(h: Heap, r: Res<seq<Value>>)
    requires KeptBy(r, h)
    ensures r.Ok? ==> KeptBy(Wrap(r.value, r.st), h)
  {
    if r.Ok? {
      WrapKeeps(r.value, r.st);
      Then(h, r.st.heap, Wrap(r.value, r.st));
    }
  }

  lemma ForeignKeeps(f: Foreign, receiver: Value, params: map<Name, Value>, st: State)
    requires Tame(f)
    ensures KeptBy(CallForeign(f, receiver, params, st), st.heap)
  {
  }

  // ---------------------------------------------------------------------
  // Expressions
  // ---------------------------------------------------------------------

  // Whatever an expression does, it keeps the heap in this sense.
  lemma {:induction false} EvalKeeps(p: Program, fuel: nat, e: Expr, cur: nat, st: State)
    requires TameProgram(p) && cur < |st.envs|
    ensures KeptBy(Eval(p, fuel, e, cur, st), st.heap)
    decreases fuel, 0, e, 2
  {
    match e {
      case Lit(_) =>
      case NilLit =>
      case Var(_) =>
      case Binary(_, l, r) =>
        EvalKeeps(p, fuel, l, cur, st);
        var left := Eval(p, fuel, l, cur, st);
        if left.Ok? {
          EvalKeeps(p, fuel, r, cur, left.st);
          Then(st.heap, left.st.heap, Eval(p, fuel, r, cur, left.st));
        }
      case Unary(_, o) => EvalKeeps(p, fuel, o, cur, st);
      case Member(o, f) =>
        EvalKeeps(p, fuel, o, cur, st);
        var v := Eval(p, fuel, o, cur, st);
        if v.Ok? { ReadKeeps(v.value, f, st.heap, v.st); }
      case MethodCall(o, m, args) => MethodCallKeeps(p, fuel, o, m, args, cur, st);
      case Index(o, i) =>
        EvalKeeps(p, fuel, o, cur, st);
        var v := Eval(p, fuel, o, cur, st);
        if v.Ok? {
          EvalKeeps(p, fuel, i, cur, v.st);
          var index := Eval(p, fuel, i, cur, v.st);
          Then(st.heap, v.st.heap, index);
          if index.Ok? && fuel > 0 {
            IndexKeeps(p, fuel - 1, v.value, index.value, index.st);
            Then(st.heap, index.st.heap, EvalIndex(p, fuel - 1, v.value, index.value, index.st));
          }
        }
      case Call(f, args) => CallKeeps(p, fuel, f, args, cur, st);
    }
  }

  lemma ReadKeeps(v: Value, f: Name, h: Heap, st: State)
    requires Kept(h, st.heap)
    ensures KeptBy(ReadMember(v, f, st), h)
  {
    if v.StructV? && IsInstance(st.heap, v.addr) { WriteKeeps(st.heap, v.addr, f, IntV(0)); }
    Then(h, st.heap, ReadMember(v, f, st));
  }

  lemma {:induction false} ListKeeps(p: Program, fuel: nat, es: seq<Expr>, cur: nat, st: State)
    requires TameProgram(p) && cur < |st.envs|
    ensures KeptBy(EvalList(p, fuel, es, cur, st), st.heap)
    decreases fuel, 0, es, 0
  {
    if es != [] {
      EvalKeeps(p, fuel, es[0], cur, st);
      var v := Eval(p, fuel, es[0], cur, st);
      if v.Ok? {
        ListKeeps(p, fuel, es[1..], cur, v.st);
        Then(st.heap, v.st.heap, EvalList(p, fuel, es[1..], cur, v.st));
      }
    }
  }

  lemma {:induction false} BindingsKeep(p: Program, fuel: nat, args: seq<Arg>, plan: seq<Binding>,
                                        params: map<Name, Value>, cur: nat, st: State)
    requires TameProgram(p) && cur < |st.envs|
    ensures KeptBy(EvalBindings(p, fuel, args, plan, params, cur, st), st.heap)
    decreases fuel, 0, args, |plan|
  {
    if plan != [] {
      match plan[0] {
        case Missing(_) =>
        case NilDefault(name) => BindingsKeep(p, fuel, args, plan[1..], params[name := NilV], cur, st);
        case FromArgument(name, i) =>
          if i < |args| {
            var arg := args[i];
            assert (args decreases to arg);
            EvalKeeps(p, fuel, arg.value, cur, st);
            var v := Eval(p, fuel, arg.value, cur, st);
            if v.Ok? {
              BindingsKeep(p, fuel, args, plan[1..], params[name := v.value], cur, v.st);
              Then(st.heap, v.st.heap, EvalBindings(p, fuel, args, plan[1..], params[name := v.value], cur, v.st));
            }
          }
      }
    }
  }

  lemma {:induction false} CallKeeps(p: Program, fuel: nat, f: Name, args: seq<Arg>, cur: nat, st: State)
    requires TameProgram(p) && cur < |st.envs|
    ensures KeptBy(EvalCall(p, fuel, f, args, cur, st), st.heap)
    decreases fuel, 0, Call(f, args), 1
  {
    var found := FindFunction(p, f);
    if found.Some? {
      var plan := Plan(found.value.signature, ArgumentNames(args));
      BindingsKeep(p, fuel, args, plan, map[], cur, st);
      var bound := EvalBindings(p, fuel, args, plan, map[], cur, st);
      if bound.Ok? && fuel > 0 {
        var c := found.value.callable;
        assert c.ForeignFn? ==> Tame(c.foreign);
        ApplyKeeps(p, fuel - 1, c, bound.value, bound.st);
        var r := Apply(p, fuel - 1, c, bound.value, bound.st);
        Then(st.heap, bound.st.heap, r);
        ThenWrapped(st.heap, r);
      }
    }
  }

  lemma {:induction false} MethodCallKeeps(p: Program, fuel: nat, o: Expr, m: Name, args: seq<Expr>, cur: nat,
                                           st: State)
    requires TameProgram(p) && cur < |st.envs|
    ensures KeptBy(EvalMethodCall(p, fuel, o, m, args, cur, st), st.heap)
    decreases fuel, 0, MethodCall(o, m, args), 1
  {
    var decl := StaticReceiver(p, o, st.envs[cur]);
    if decl.Some? {
      StaticCallKeeps(p, fuel, decl.value, m, args, cur, st);
    } else {
      EvalKeeps(p, fuel, o, cur, st);
      var target := Eval(p, fuel, o, cur, st);
      if target.Ok? {
        ReceiverCallKeeps(p, fuel, target.value, m, args, cur, target.st);
        Then(st.heap, target.st.heap, EvalReceiverCall(p, fuel, target.value, m, args, cur, target.st));
      }
    }
  }

  // Arguments, then the routine.
  lemma {:induction false} ArgumentsAndRoutineKeep(p: Program, fuel: nat, h: Heap, a: nat, decl: StructDecl,
                                                   routine: Routine, args: seq<Expr>, cur: nat, st: State)
    requires TameProgram(p) && fuel > 0 && cur < |st.envs| && Kept(h, st.heap)
    ensures var values := EvalList(p, fuel, args, cur, st);
            && KeptBy(values, h)
            && (values.Ok? ==>
                  var r := RunRoutine(p, fuel - 1, a, decl, routine, values.value, values.st);
                  KeptBy(r, h) && (r.Ok? ==> KeptBy(Wrap(r.value, r.st), h)))
    decreases fuel, 0, args, 1
  {
    ListKeeps(p, fuel, args, cur, st);
    var values := EvalList(p, fuel, args, cur, st);
    Then(h, st.heap, values);
    if values.Ok? {
      var r := RunRoutine(p, fuel - 1, a, decl, routine, values.value, values.st);
      RoutineKeeps(p, fuel - 1, a, decl, routine, values.value, values.st);
      Then(h, values.st.heap, r);
      ThenWrapped(h, r);
    }
  }

  lemma {:induction false} StaticCallKeeps(p: Program, fuel: nat, decl: StructDecl, m: Name, args: seq<Expr>, cur: nat,
                                           st: State)
    requires TameProgram(p) && cur < |st.envs|
    ensures KeptBy(EvalStaticCall(p, fuel, decl, m, args, cur, st), st.heap)
    decreases fuel, 0, args, 2
  {
    var routine := FindRoutine(decl.routines, m);
    if routine.Some? && fuel > 0 {
      var receiver, o := |st.heap|, Instance(decl.name, map[], false);
      var st0 := st.(heap := st.heap + [o]);
      AllocationKeeps(st.heap, o);
      FieldsKeep(p, fuel - 1, decl.fields, receiver, true, cur, st0);
      var r := InitFields(p, fuel - 1, decl.fields, receiver, true, cur, st0);
      Then(st.heap, st0.heap, r);
      if r.Ok? { ArgumentsAndRoutineKeep(p, fuel, st.heap, receiver, decl, routine.value, args, cur, r.st); }
    }
  }

  lemma {:induction false} ReceiverCallKeeps(p: Program, fuel: nat, target: Value, m: Name, args: seq<Expr>, cur: nat,
                                             st: State)
    requires TameProgram(p) && cur < |st.envs|
    ensures KeptBy(EvalReceiverCall(p, fuel, target, m, args, cur, st), st.heap)
    decreases fuel, 0, args, 2
  {
    ListKeeps(p, fuel, args, cur, st);
    if target.StructV? {
      if fuel > 0 && IsInstance(st.heap, target.addr) {
        var decl := LookupStruct(p, st.heap[target.addr].typeName);
        if decl.Some? && FindRoutine(decl.value.routines, m).Some? {
          var routine := FindRoutine(decl.value.routines, m).value;
          ArgumentsAndRoutineKeep(p, fuel, st.heap, target.addr, decl.value, routine, args, cur, st);
        }
      }
    } else if (TypeNameOf(target), m) in p.builtinMethods {
      var f, values := p.builtinMethods[(TypeNameOf(target), m)], EvalList(p, fuel, args, cur, st);
      if values.Ok? {
        var params := Numbered(values.value, |values.value|);
        ForeignKeeps(f, target, params, values.st);
        var r := CallForeign(f, target, params, values.st);
        Then(st.heap, values.st.heap, r);
        ThenWrapped(st.heap, r);
      }
    }
  }

  lemma {:induction false} IndexKeeps(p: Program, fuel: nat, target: Value, index: Value, st: State)
    requires TameProgram(p)
    ensures KeptBy(EvalIndex(p, fuel, target, index, st), st.heap)
    decreases fuel, 6
  {
    var found := IndexRoutine(p, st.heap, target);
    if found.Some? {
      RoutineKeeps(p, fuel, target.addr, found.value.0, found.value.1, [index], st);
      ThenWrapped(st.heap, RunRoutine(p, fuel, target.addr, found.value.0, found.value.1, [index], st));
    } else if target.StructV? && IsInstance(st.heap, target.addr) {
      var f := LookupForeign(p, st.heap[target.addr].typeName, "GetIndex");
      if f.Some? {
        var params := map["this" := target, "index" := index];
        ForeignKeeps(f.value, target, params, st);
        ThenWrapped(st.heap, CallForeign(f.value, target, params, st));
      }
    }
  }

  // ---------------------------------------------------------------------
  // Struct routines
  // ---------------------------------------------------------------------

  lemma {:induction false} FieldsKeep(p: Program, fuel: nat, fields: seq<VarDeclaration>, a: nat, freshStructs: bool,
                                      cur: nat, st: State)
    requires TameProgram(p) && cur < |st.envs|
    ensures KeptBy(InitFields(p, fuel, fields, a, freshStructs, cur, st), st.heap)
    decreases fuel, 2, |fields|
  {
    if fields != [] {
      var d := fields[0];
      if d.init.Some? { EvalKeeps(p, fuel, d.init.value, cur, st); }
      var r := match d.init
               case Some(e) => Eval(p, fuel, e, cur, st)
               case None =>
                 if freshStructs && d.ty.StructType? then
                   Ok(StructV(|st.heap|), st.(heap := st.heap + [Instance(d.ty.name, map[], false)]))
                 else Ok(PrimitiveDefault(d.ty), st);
      if r.Ok? {
        var st1 := r.st.(heap := WriteField(r.st.heap, a, d.name, r.value));
        var rest := InitFields(p, fuel, fields[1..], a, freshStructs, cur, st1);
        WriteKeeps(r.st.heap, a, d.name, r.value);
        FieldsKeep(p, fuel, fields[1..], a, freshStructs, cur, st1);
        Then(r.st.heap, st1.heap, rest);
        Then(st.heap, r.st.heap, rest);
      }
    }
  }

  lemma {:induction false} FlattenKeeps(p: Program, fuel: nat, fields: seq<VarDeclaration>, a: nat, cur: nat, st: State)
    requires TameProgram(p) && cur < |st.envs|
    ensures KeptBy(FlattenFields(p, fuel, fields, a, cur, st), st.heap)
    decreases fuel, 2, |fields|
  {
    if fields != [] {
      var d := fields[0];
      if d.init.Some? { EvalKeeps(p, fuel, d.init.value, cur, st); }
      var r := if IsInstance(st.heap, a) && d.name in st.heap[a].fields then Ok(st.heap[a].fields[d.name], st)
               else match d.init
                    case Some(e) => Eval(p, fuel, e, cur, st)
                    case None => Ok(PrimitiveDefault(d.ty), st);
      if r.Ok? {
        var st1 := SetVar(r.st, cur, d.name, r.value);
        FlattenKeeps(p, fuel, fields[1..], a, cur, st1);
        Then(st.heap, st1.heap, FlattenFields(p, fuel, fields[1..], a, cur, st1));
      }
    }
  }

  lemma {:induction false} InputsKeep(p: Program, fuel: nat, inputs: seq<Param>, args: seq<Value>, cur: nat, st: State)
    requires TameProgram(p) && cur < |st.envs|
    ensures KeptBy(BindInputs(p, fuel, inputs, args, cur, st), st.heap)
    decreases fuel, 2, |inputs|
  {
    if inputs != [] {
      var d, args' := inputs[0].default, if args == [] then [] else args[1..];
      if args == [] && d.Some? { EvalKeeps(p, fuel, d.value, cur, st); }
      var r := if args != [] then Ok(args[0], st)
               else match d
                    case Some(e) => Eval(p, fuel, e, cur, st)
                    case None => Throw(MissingArgument(inputs[0].name), st);
      if r.Ok? {
        var st1 := SetVar(r.st, cur, inputs[0].name, r.value);
        InputsKeep(p, fuel, inputs[1..], args', cur, st1);
        Then(st.heap, st1.heap, BindInputs(p, fuel, inputs[1..], args', cur, st1));
      }
    }
  }

  lemma {:induction false} OutputsKeep(p: Program, fuel: nat, outputs: seq<Param>, cur: nat, st: State)
    requires TameProgram(p) && cur < |st.envs|
    ensures KeptBy(InitOutputs(p, fuel, outputs, cur, st), st.heap)
    decreases fuel, 3, |outputs|, 0
  {
    if outputs != [] {
      var out, rest := outputs[0], outputs[1..];
      if out.ty.StructType? {
        var o := Instance(out.ty.name, map[], false);
        var st0 := st.(heap := st.heap + [o]);
        var fields := match LookupStruct(p, out.ty.name) case Some(d) => d.fields case None => [];
        AllocationKeeps(st.heap, o);
        FieldsKeep(p, fuel, fields, |st.heap|, false, cur, st0);
        var r := InitFields(p, fuel, fields, |st.heap|, false, cur, st0);
        Then(st.heap, st0.heap, r);
        if r.Ok? { OutputsKeepFrom(p, fuel, rest, cur, SetVar(r.st, cur, out.name, StructV(|st.heap|)), st.heap); }
      } else if out.default.Some? {
        EvalKeeps(p, fuel, out.default.value, cur, st);
        var r := Eval(p, fuel, out.default.value, cur, st);
        if r.Ok? { OutputsKeepFrom(p, fuel, rest, cur, SetVar(r.st, cur, out.name, r.value), st.heap); }
      } else {
        OutputsKeep(p, fuel, rest, cur, st);
      }
    }
  }

  lemma {:induction false} OutputsKeepFrom(p: Program, fuel: nat, outputs: seq<Param>, cur: nat, st: State, h: Heap)
    requires TameProgram(p) && cur < |st.envs| && Kept(h, st.heap)
    ensures KeptBy(InitOutputs(p, fuel, outputs, cur, st), h)
    decreases fuel, 3, |outputs|, 1
  {
    OutputsKeep(p, fuel, outputs, cur, st);
    Then(h, st.heap, InitOutputs(p, fuel, outputs, cur, st));
  }

  lemma {:induction false} SyncKeeps(fields: seq<VarDeclaration>, env: Env, a: nat, heap: Heap)
    ensures Kept(heap, SyncToInstance(fields, env, a, heap))
    decreases |fields|
  {
    if fields != [] {
      var f := fields[0].name;
      var heap' := if f in env then WriteField(heap, a, f, env[f]) else heap;
      if f in env { WriteKeeps(heap, a, f, env[f]); }
      SyncKeeps(fields[1..], env, a, heap');
      KeptTwice(heap, heap', SyncToInstance(fields[1..], env, a, heap'));
    }
  }

  lemma KeptTwice(h: Heap, h': Heap, h'': Heap)
    requires Kept(h, h') && Kept(h', h'')
    ensures Kept(h, h'')
  {
  }

  lemma FinishKeeps(fields: seq<VarDeclaration>, a: nat, outputs: seq<Param>, cur: nat, st: State)
    requires cur < |st.envs|
    ensures KeptBy(FinishRoutine(fields, a, outputs, cur, st), st.heap)
  {
    var instance := if IsInstance(st.heap, a) then st.heap[a].fields else map[];
    SyncKeeps(fields, SyncFromInstance(fields, instance, st.envs[cur]), a, st.heap);
  }

  lemma {:induction false} RoutineKeeps(p: Program, fuel: nat, a: nat, decl: StructDecl, routine: Routine,
                                        args: seq<Value>, st: State)
    requires TameProgram(p)
    ensures KeptBy(RunRoutine(p, fuel, a, decl, routine, args, st), st.heap)
    decreases fuel, 5
  {
    if routine.body != [] {
      RoutineBodyKeeps(p, fuel, a, decl, routine, args, st.(envs := st.envs + [map["this" := StructV(a)]]));
    } else {
      var f := LookupForeign(p, decl.name, routine.name);
      if f.Some? {
        var this_ := if IsInstance(st.heap, a) && st.heap[a].native then map["this" := StructV(a)] else map[];
        ForeignKeeps(f.value, StructV(a), this_ + NamedInputs(routine.inputs, args), st);
      }
    }
  }

  lemma {:induction false} RoutineBodyKeeps(p: Program, fuel: nat, a: nat, decl: StructDecl, routine: Routine,
                                            args: seq<Value>, st: State)
    requires TameProgram(p) && st.envs != []
    ensures KeptBy(RoutineBody(p, fuel, a, decl, routine, args, st), st.heap)
    decreases fuel, 4, 1
  {
    var cur := |st.envs| - 1;
    EntryKeeps(p, fuel, a, decl, routine, args, st);
    var r1 := RoutineEntry(p, fuel, a, decl, routine, args, st);
    if r1.Ok? {
      BlockKeeps(p, fuel, routine.body, cur, r1.st);
      var r2 := ExecBlock(p, fuel, routine.body, cur, r1.st);
      Then(st.heap, r1.st.heap, r2);
      if r2.Ok? {
        FinishKeeps(decl.fields, a, routine.outputs, cur, r2.st);
        Then(st.heap, r2.st.heap, FinishRoutine(decl.fields, a, routine.outputs, cur, r2.st));
      }
    }
  }

  lemma {:induction false} EntryKeeps(p: Program, fuel: nat, a: nat, decl: StructDecl, routine: Routine,
                                      args: seq<Value>, st: State)
    requires TameProgram(p) && st.envs != []
    ensures KeptBy(RoutineEntry(p, fuel, a, decl, routine, args, st), st.heap)
    decreases fuel, 4, 0
  {
    var cur := |st.envs| - 1;
    FlattenKeeps(p, fuel, decl.fields, a, cur, st);
    var r1 := FlattenFields(p, fuel, decl.fields, a, cur, st);
    if r1.Ok? {
      InputsKeep(p, fuel, routine.inputs, args, cur, r1.st);
      var r2 := BindInputs(p, fuel, routine.inputs, args, cur, r1.st);
      Then(st.heap, r1.st.heap, r2);
      if r2.Ok? { OutputsKeepFrom(p, fuel, routine.outputs, cur, r2.st, st.heap); }
    }
  }

  // ---------------------------------------------------------------------
  // Statements
  // ---------------------------------------------------------------------

  lemma {:induction false} BlockKeeps(p: Program, fuel: nat, stmts: seq<Stmt>, cur: nat, st: State)
    requires TameProgram(p) && cur < |st.envs|
    ensures KeptBy(ExecBlock(p, fuel, stmts, cur, st), st.heap)
    decreases fuel, 1, stmts, 0
  {
    if stmts != [] {
      ExecKeeps(p, fuel, stmts[0], cur, st);
      var r := Exec(p, fuel, stmts[0], cur, st);
      if r.Ok? && r.value.Next? {
        BlockKeeps(p, fuel, stmts[1..], cur, r.st);
        Then(st.heap, r.st.heap, ExecBlock(p, fuel, stmts[1..], cur, r.st));
      }
    }
  }

  lemma {:induction false} ExecKeeps(p: Program, fuel: nat, s: Stmt, cur: nat, st: State)
    requires TameProgram(p) && cur < |st.envs|
    ensures KeptBy(Exec(p, fuel, s, cur, st), st.heap)
    decreases fuel, 1, s, 1
  {
    match s {
      case VarDecl(d) => DeclarationKeeps(p, fuel, d, cur, st);
      case Assign(targets, e) =>
        EvalKeeps(p, fuel, e, cur, st);
        var v := Eval(p, fuel, e, cur, st);
        if v.Ok? {
          AssignKeeps(p, fuel, targets, v.value, cur, v.st);
          Then(st.heap, v.st.heap, ExecAssign(p, fuel, targets, v.value, cur, v.st));
        }
      case FieldAssign(o, f, e) =>
        EvalKeeps(p, fuel, e, cur, st);
        var v := Eval(p, fuel, e, cur, st);
        if v.Ok? { StoreKeeps(o, f, v.value, cur, v.st, st.heap); }
      case ExprStmt(e) => EvalKeeps(p, fuel, e, cur, st);
      case If(c, thenBody, elseBody) => ConditionalKeeps(p, fuel, c, thenBody, elseBody, cur, st);
      case Transition(_, es) => ListKeeps(p, fuel, es, cur, st);
      case Terminal =>
    }
  }

  lemma {:induction false} ConditionalKeeps(p: Program, fuel: nat, c: Expr, thenBody: seq<Stmt>, elseBody: seq<Stmt>,
                                            cur: nat, st: State)
    requires TameProgram(p) && cur < |st.envs|
    ensures KeptBy(Exec(p, fuel, If(c, thenBody, elseBody), cur, st), st.heap)
    decreases fuel, 1, If(c, thenBody, elseBody), 0
  {
    EvalKeeps(p, fuel, c, cur, st);
    var v := Eval(p, fuel, c, cur, st);
    if v.Ok? && v.value.BoolV? {
      var body := if v.value.b then thenBody else elseBody;
      BlockKeeps(p, fuel, body, cur, v.st);
      Then(st.heap, v.st.heap, ExecBlock(p, fuel, body, cur, v.st));
    }
  }

  lemma StoreKeeps(o: Expr, f: Name, v: Value, cur: nat, st: State, h: Heap)
    requires cur < |st.envs| && Kept(h, st.heap)
    ensures KeptBy(StoreField(o, f, v, cur, st), h)
  {
    if o.Var? && o.name in st.envs[cur] && st.envs[cur][o.name].StructV? {
      var a := st.envs[cur][o.name].addr;
      WriteKeeps(st.heap, a, f, v);
      KeptTwice(h, st.heap, WriteField(st.heap, a, f, v));
    }
  }

  lemma {:induction false} DeclarationKeeps(p: Program, fuel: nat, d: VarDeclaration, cur: nat, st: State)
    requires TameProgram(p) && cur < |st.envs|
    ensures KeptBy(ExecVarDecl(p, fuel, d, cur, st), st.heap)
    decreases fuel, 1, d, 0
  {
    if d.init.Some? { EvalKeeps(p, fuel, d.init.value, cur, st); }
  }

  lemma {:induction false} AssignKeeps(p: Program, fuel: nat, targets: seq<Target>, v: Value, cur: nat, st: State)
    requires TameProgram(p) && cur < |st.envs|
    ensures KeptBy(ExecAssign(p, fuel, targets, v, cur, st), st.heap)
    decreases fuel, 1, targets, 1
  {
    if |targets| > 1 {
      if v.TupleV? && v.addr < |st.heap| && st.heap[v.addr].Tuple? && |st.heap[v.addr].values| == |targets| {
        TargetsKeep(p, fuel, targets, st.heap[v.addr].values, cur, st);
      }
    } else if |targets| == 1 && targets[0].FieldTarget? {
      StoreKeeps(targets[0].obj, targets[0].field, v, cur, st, st.heap);
    }
  }

  lemma {:induction false} TargetsKeep(p: Program, fuel: nat, targets: seq<Target>, values: seq<Value>, cur: nat,
                                       st: State)
    requires TameProgram(p) && cur < |st.envs| && |values| == |targets|
    ensures KeptBy(AssignTargets(p, fuel, targets, values, cur, st), st.heap)
    decreases fuel, 1, targets, 0
  {
    if targets != [] {
      match targets[0] {
        case VarTarget(name) => TargetsKeep(p, fuel, targets[1..], values[1..], cur, SetVar(st, cur, name, values[0]));
        case FieldTarget(o, field) =>
          EvalKeeps(p, fuel, o, cur, st);
          var target := Eval(p, fuel, o, cur, st);
          if target.Ok? && target.value.StructV? {
            StoreKeeps(o, field, values[0], cur, target.st, st.heap);
            var r := StoreField(o, field, values[0], cur, target.st);
            if r.Ok? {
              TargetsKeep(p, fuel, targets[1..], values[1..], cur, r.st);
              Then(st.heap, r.st.heap, AssignTargets(p, fuel, targets[1..], values[1..], cur, r.st));
            }
          }
      }
    }
  }

  // ---------------------------------------------------------------------
  // Calls and runs
  // ---------------------------------------------------------------------

  lemma {:induction false} ApplyKeeps(p: Program, fuel: nat, c: Callable, params: map<Name, Value>, st: State)
    requires TameProgram(p) && st.envs != [] && (c.ForeignFn? ==> Tame(c.foreign))
    ensures KeptBy(Apply(p, fuel, c, params, st), st.heap)
    decreases fuel, 9
  {
    match c {
      case AutotunerFn(a) => RunKeeps(p, fuel, a, params, st);
      case ForeignFn(f) => ForeignKeeps(f, NilV, params, st);
      case InlineFn(routine) =>
        InlineKeeps(p, fuel, routine, st.(envs := st.envs + [InlineEnv(routine, params)]));
    }
  }

  lemma {:induction false} InlineKeeps(p: Program, fuel: nat, routine: Routine, st: State)
    requires TameProgram(p) && st.envs != []
    requires forall i :: 0 <= i < |routine.outputs| ==> routine.outputs[i].name in st.envs[|st.envs| - 1]
    ensures KeptBy(InlineBody(p, fuel, routine, st), st.heap)
    decreases fuel, 4
  {
    BlockKeeps(p, fuel, routine.body, |st.envs| - 1, st);
  }

  // A run, nested or not, keeps the heap however it ends.
  lemma {:induction false} RunKeeps(p: Program, fuel: nat, a: Autotuner, inputs: map<Name, Value>, st: State)
    requires TameProgram(p) && st.envs != []
    ensures KeptBy(Run(p, fuel, a, inputs, st), st.heap)
    decreases fuel, 8
  {
    RunBodyKeeps(p, fuel, a, inputs, st.(envs := st.envs[0 := map[]]));
  }

  lemma {:induction false} RunBodyKeeps(p: Program, fuel: nat, a: Autotuner, inputs: map<Name, Value>, st: State)
    requires TameProgram(p) && st.envs != [] && st.envs[0] == map[]
    ensures KeptBy(RunBody(p, fuel, a, inputs, st), st.heap)
    decreases fuel, 7
  {
    InitializeKeeps(p, fuel, a, inputs, st);
    var r := Initialize(p, fuel, a, inputs, st);
    if r.Ok? {
      LoopKeeps(p, fuel, a, a.entry, r.value, r.st);
      Then(st.heap, r.st.heap, Loop(p, fuel, a, a.entry, r.value, r.st));
    }
  }

  lemma {:induction false} InitializeKeeps(p: Program, fuel: nat, a: Autotuner, inputs: map<Name, Value>, st: State)
    requires TameProgram(p) && st.envs != [] && st.envs[0] == map[]
    ensures KeptBy(Initialize(p, fuel, a, inputs, st), st.heap)
    decreases fuel, 3
  {
    VariablesKeep(p, fuel, a.variables, st);
    var r1 := InitVariables(p, fuel, a.variables, st);
    if r1.Ok? {
      SetInputsKeeps(p, fuel, a.inputs, inputs, r1.st);
      var r2 := SetInputs(p, fuel, a.inputs, inputs, r1.st);
      Then(st.heap, r1.st.heap, r2);
      if r2.Ok? {
        RunOutputsKeep(p, fuel, a.outputs, r2.st);
        var r3 := InitRunOutputs(p, fuel, a.outputs, r2.st);
        Then(st.heap, r2.st.heap, r3);
        if r3.Ok? {
          ListKeeps(p, fuel, a.entryParams, 0, r3.st);
          Then(st.heap, r3.st.heap, EvalList(p, fuel, a.entryParams, 0, r3.st));
        }
      }
    }
  }

  lemma {:induction false} VariablesKeep(p: Program, fuel: nat, ds: seq<VarDeclaration>, st: State)
    requires TameProgram(p) && st.envs != []
    ensures KeptBy(InitVariables(p, fuel, ds, st), st.heap)
    decreases fuel, 2, |ds|
  {
    if ds != [] {
      DeclarationKeeps(p, fuel, ds[0], 0, st);
      var r := ExecVarDecl(p, fuel, ds[0], 0, st);
      if r.Ok? {
        VariablesKeep(p, fuel, ds[1..], r.st);
        Then(st.heap, r.st.heap, InitVariables(p, fuel, ds[1..], r.st));
      }
    }
  }

  lemma {:induction false} SetInputsKeeps(p: Program, fuel: nat, params: seq<Param>, inputs: map<Name, Value>,
                                          st: State)
    requires TameProgram(p) && st.envs != []
    ensures KeptBy(SetInputs(p, fuel, params, inputs, st), st.heap)
    decreases fuel, 2, |params|
  {
    if params != [] {
      var name, d := params[0].name, params[0].default;
      if name !in inputs && d.Some? { EvalKeeps(p, fuel, d.value, 0, st); }
      var r := if name in inputs then Ok(inputs[name], st)
               else match d
                    case Some(e) => Eval(p, fuel, e, 0, st)
                    case None => Throw(MissingArgument(name), st);
      if r.Ok? {
        var st1 := SetVar(r.st, 0, name, r.value);
        SetInputsKeeps(p, fuel, params[1..], inputs, st1);
        Then(st.heap, st1.heap, SetInputs(p, fuel, params[1..], inputs, st1));
      }
    }
  }

  lemma {:induction false} RunOutputsKeep(p: Program, fuel: nat, outputs: seq<Param>, st: State)
    requires TameProgram(p) && st.envs != []
    ensures KeptBy(InitRunOutputs(p, fuel, outputs, st), st.heap)
    decreases fuel, 2, |outputs|
  {
    if outputs != [] {
      var name, d := outputs[0].name, outputs[0].default;
      if name in st.envs[0] {
        RunOutputsKeep(p, fuel, outputs[1..], st);
      } else {
        if d.Some? { EvalKeeps(p, fuel, d.value, 0, st); }
        var r := match d
                 case Some(e) => Eval(p, fuel, e, 0, st)
                 case None => Ok(IntV(0), st);
        if r.Ok? {
          var st1 := SetVar(r.st, 0, name, r.value);
          RunOutputsKeep(p, fuel, outputs[1..], st1);
          Then(st.heap, st1.heap, InitRunOutputs(p, fuel, outputs[1..], st1));
        }
      }
    }
  }

  lemma {:induction false} LoopKeeps(p: Program, fuel: nat, a: Autotuner, current: Name, params: seq<Value>, st: State)
    requires TameProgram(p) && st.envs != []
    ensures KeptBy(Loop(p, fuel, a, current, params, st), st.heap)
    decreases fuel, 6
  {
    var state := FindState(a.states, current);
    if state.Some? && fuel > 0 {
      StateKeeps(p, fuel - 1, state.value, params, st);
      var r := ExecState(p, fuel - 1, state.value, params, st);
      if r.Ok? && r.value.Goto? {
        LoopKeeps(p, fuel - 1, a, r.value.target, r.value.params, r.st);
        Then(st.heap, r.st.heap, Loop(p, fuel - 1, a, r.value.target, r.value.params, r.st));
      }
    }
  }

  lemma {:induction false} StateKeeps(p: Program, fuel: nat, s: StateDecl, params: seq<Value>, st: State)
    requires TameProgram(p) && st.envs != []
    ensures KeptBy(ExecState(p, fuel, s, params, st), st.heap)
    decreases fuel, 3
  {
    if |params| <= |s.params| {
      InputsKeep(p, fuel, s.params, params, 0, st);
      var r := BindInputs(p, fuel, s.params, params, 0, st);
      if r.Ok? {
        BlockKeeps(p, fuel, s.body, 0, r.st);
        Then(st.heap, r.st.heap, ExecBlock(p, fuel, s.body, 0, r.st));
      }
    }
  }

  // ---------------------------------------------------------------------
  // Indexing again
  // ---------------------------------------------------------------------

  // With foreign functions that keep to the rule, evaluating the index cannot replace
  // the routine, so indexing is the method call GetIndex without any condition.
  lemma IndexIsAlwaysGetIndexCall(p: Program, fuel: nat, o: Expr, i: Expr, cur: nat, st: State)
    requires TameProgram(p) && cur < |st.envs|
    requires StaticReceiver(p, o, st.envs[cur]).None? && Eval(p, fuel, o, cur, st).Ok?
    requires var target := Eval(p, fuel, o, cur, st); IndexRoutine(p, target.st.heap, target.value).Some?
    ensures Eval(p, fuel, Index(o, i), cur, st) == Eval(p, fuel, MethodCall(o, "GetIndex", [i]), cur, st)
  {
    var target := Eval(p, fuel, o, cur, st);
    EvalKeeps(p, fuel, i, cur, target.st);
    var index := Eval(p, fuel, i, cur, target.st);
    if index.Ok? {
      assert KeptObject(target.st.heap[target.value.addr], index.st.heap[target.value.addr]);
    }
    IndexIsGetIndexCall(p, fuel, o, i, cur, st);
  }
}
