// The interpreter as the source runs it: one object whose variable maps and heap
// change in place.  Every method is proved to do what the function of the same
// purpose in Semantics says.
module Interpreter {
  import opened Prelude
  import opened Ast
  import opened Matching
  import opened Semantics

  // How a method call ended; the state it left is in the interpreter object.
  datatype Outcome<+T> = Returned(value: T) | Raised(error: Error) | NoFuel

  // A list of values found so far, in front of what evaluating the rest gives.
  ghost function Prefixed(values: seq<Value>, r: Res<seq<Value>>): Res<seq<Value>> {
    match r
    case Ok(rest, s) => Ok(values + rest, s)
    case _ => r
  }

  lemma PrefixedSteps(values: seq<Value>, x: Value, r: Res<seq<Value>>)
    ensures Prefixed([], r) == r
    ensures Prefixed(values + [x], r) == Prefixed(values, Prefixed([x], r))
  {
    if r.Ok? {
      assert [] + r.value == r.value;
      assert values + [x] + r.value == values + ([x] + r.value);
    }
  }

  // The results of a call as one value.
  ghost function Wrapped(r: Res<seq<Value>>): Res<Value> {
    match r
    case Ok(values, s) => Wrap(values, s)
    case Throw(e, s) => Throw(e, s)
    case OutOfFuel => OutOfFuel
  }

  class Interpreter {
    const program: Program
    // Number 0 is the map of the autotuner being run; routines in progress follow.
    var envs: seq<Env>
    var heap: Heap

    constructor (p: Program)
      ensures program == p && envs == [map[]] && heap == []
    {
      program := p;
      envs := [map[]];
      heap := [];
    }

    ghost function Current(): State
      reads this
    {
      State(envs, heap)
    }

    ghost predicate Agrees<T(!new)>(o: Outcome<T>, r: Res<T>)
      reads this
    {
      match r
      case Ok(v, s) => o == Returned(v) && Current() == s
      case Throw(e, s) => o == Raised(e) && Current() == s
      case OutOfFuel => o == NoFuel
    }

    // -------------------------------------------------------------------
    // Expressions
    // -------------------------------------------------------------------

    method Evaluate(fuel: nat, e: Expr, cur: nat) returns (o: Outcome<Value>)
      requires cur < |envs|
      modifies this
      ensures Agrees(o, Eval(program, fuel, e, cur, old(Current())))
      ensures !o.NoFuel? ==> envs == old(envs)
      decreases fuel, 0, e, 1
    {
      match e
      case Lit(l) => return Returned(LiteralValue(l));
      case NilLit => return Returned(NilV);
      case Var(name) =>
        match Lookup(envs[cur], name) {
        case Some(v) => return Returned(v);
        case None => return Raised(UndefinedVariable(name));
        }
      case Binary(op, l, r) => o := EvaluateBinary(fuel, op, l, r, cur);
      case Unary(op, operand) =>
        var v := Evaluate(fuel, operand, cur);
        if !v.Returned? {
          return v;
        }
        match ApplyUnary(op, v.value) {
        case Some(result) => return Returned(result);
        case None => return Raised(Fault("incompatible unary operator"));
        }
      case Member(obj, f) =>
        var v := Evaluate(fuel, obj, cur);
        if !v.Returned? {
          return v;
        }
        o := GetField(v.value, f);
      case MethodCall(obj, m, args) => o := EvaluateMethodCall(fuel, obj, m, args, cur);
      case Index(obj, i) =>
        var v := Evaluate(fuel, obj, cur);
        if !v.Returned? {
          return v;
        }
        var index := Evaluate(fuel, i, cur);
        if !index.Returned? {
          return index;
        }
        if fuel == 0 {
          return NoFuel;
        }
        o := EvaluateIndex(fuel - 1, v.value, index.value);
      case Call(f, args) => o := EvaluateCall(fuel, f, args, cur);
    }

    // Both operands are evaluated before the operator is looked at.
    method EvaluateBinary(fuel: nat, op: BinaryOp, l: Expr, r: Expr, cur: nat) returns (o: Outcome<Value>)
      requires cur < |envs|
      modifies this
      ensures Agrees(o, Eval(program, fuel, Binary(op, l, r), cur, old(Current())))
      decreases fuel, 0, Binary(op, l, r), 0
    {
      var left := Evaluate(fuel, l, cur);
      if !left.Returned? {
        return left;
      }
      var right := Evaluate(fuel, r, cur);
      if !right.Returned? {
        return right;
      }
      o := Operated(ApplyBinary(op, left.value, right.value));
    }

    function Operated(result: Option<Value>): Outcome<Value> {
      match result
      case Some(v) => Returned(v)
      case None => Raised(Fault("incompatible binary operator"))
    }

    // Reading a field that an instance lacks stores a default integer in it.
    method GetField(v: Value, f: Name) returns (o: Outcome<Value>)
      modifies this
      ensures Agrees(o, ReadMember(v, f, old(Current())))
    {
      if !v.StructV? || !IsInstance(heap, v.addr) {
        return Raised(Fault("member access on a value that has no fields"));
      }
      if f !in heap[v.addr].fields {
        SetField(v.addr, f, IntV(0));
      }
      return Returned(heap[v.addr].fields[f]);
    }

    method SetField(a: nat, f: Name, v: Value)
      requires IsInstance(heap, a)
      modifies this
      ensures envs == old(envs) && heap == WriteField(old(heap), a, f, v)
    {
      heap := heap[a := heap[a].(fields := heap[a].fields[f := v])];
    }

    // A new instance without fields.
    method Allocate(typeName: Name) returns (a: nat)
      modifies this
      ensures a == |old(heap)| && envs == old(envs) && heap == old(heap) + [Instance(typeName, map[], false)]
    {
      a := |heap|;
      heap := heap + [Instance(typeName, map[], false)];
    }

    // The results of a call as one value.
    method WrapResults(values: seq<Value>) returns (o: Outcome<Value>)
      modifies this
      ensures Agrees(o, Wrap(values, old(Current())))
    {
      if values == [] {
        return Returned(NilV);
      }
      if |values| == 1 {
        return Returned(values[0]);
      }
      heap := heap + [Tuple(values)];
      return Returned(TupleV(|heap| - 1));
    }

    method RunForeign(f: Foreign, receiver: Value, params: map<Name, Value>) returns (o: Outcome<seq<Value>>)
      modifies this
      ensures Agrees(o, CallForeign(f, receiver, params, old(Current())))
    {
      match f(receiver, params, heap)
      case ForeignOk(values, heap') =>
        heap := heap';
        return Returned(values);
      case ForeignError(heap') =>
        heap := heap';
        return Raised(Fault("raised by a foreign function"));
    }

    method EvaluateCall(fuel: nat, f: Name, args: seq<Arg>, cur: nat) returns (o: Outcome<Value>)
      requires cur < |envs|
      modifies this
      ensures Agrees(o, EvalCall(program, fuel, f, args, cur, old(Current())))
      decreases fuel, 0, Call(f, args), 0
    {
      match FindFunction(program, f)
      case None => return Raised(Fault("unknown function"));
      case Some(fn) =>
      var plan := MatchArguments(fn.signature, ArgumentNames(args));
      var params := EvaluateArguments(fuel, args, plan, cur);
      match params
      case Raised(e) => return Raised(e);
      case NoFuel => return NoFuel;
      case Returned(bound) =>
      if fuel == 0 {
        return NoFuel;
      }
      var results := ApplyFunction(fuel - 1, fn.callable, bound);
      match results
      case Raised(e) => return Raised(e);
      case NoFuel => return NoFuel;
      case Returned(values) => o := WrapResults(values);
    }

    // Arguments are evaluated in the order in which parameters were matched.
    method EvaluateArguments(fuel: nat, args: seq<Arg>, plan: seq<Binding>, cur: nat)
      returns (o: Outcome<map<Name, Value>>)
      requires cur < |envs|
      modifies this
      ensures Agrees(o, EvalBindings(program, fuel, args, plan, map[], cur, old(Current())))
      decreases fuel, 0, args, 0
    {
      var params: map<Name, Value> := map[];
      assert plan[0..] == plan;
      for i := 0 to |plan|
        invariant cur < |envs|
        invariant EvalBindings(program, fuel, args, plan, map[], cur, old(Current()))
                  == EvalBindings(program, fuel, args, plan[i..], params, cur, Current())
      {
        assert plan[i..][0] == plan[i] && plan[i..][1..] == plan[i + 1..];
        match plan[i]
        case Missing(name) => return Raised(MissingArgument(name));
        case NilDefault(name) => params := params[name := NilV];
        case FromArgument(name, k) =>
          if k >= |args| {
            return Raised(Fault("no such argument"));
          }
          var arg := args[k];
          assert (args decreases to arg);
          var v := Evaluate(fuel, arg.value, cur);
          match v {
          case Raised(e) => return Raised(e);
          case NoFuel => return NoFuel;
          case Returned(x) => params := params[name := x];
          }
      }
      o := Returned(params);
    }

    method EvaluateMethodCall(fuel: nat, obj: Expr, m: Name, args: seq<Expr>, cur: nat) returns (o: Outcome<Value>)
      requires cur < |envs|
      modifies this
      ensures Agrees(o, EvalMethodCall(program, fuel, obj, m, args, cur, old(Current())))
      decreases fuel, 0, MethodCall(obj, m, args), 0
    {
      match StaticReceiver(program, obj, envs[cur])
      case Some(decl) => o := CallOnType(fuel, decl, m, args, cur);
      case None =>
        var target := Evaluate(fuel, obj, cur);
        if !target.Returned? {
          return target;
        }
        o := CallOnValue(fuel, target.value, m, args, cur);
    }

    // The routine runs on a new instance, initialised before the arguments.
    method CallOnType(fuel: nat, decl: StructDecl, m: Name, args: seq<Expr>, cur: nat) returns (o: Outcome<Value>)
      requires cur < |envs|
      modifies this
      ensures Agrees(o, EvalStaticCall(program, fuel, decl, m, args, cur, old(Current())))
      decreases fuel, 0, args, 1
    {
      match FindRoutine(decl.routines, m)
      case None => return Raised(Fault("unknown struct routine"));
      case Some(routine) =>
      if fuel == 0 {
        return NoFuel;
      }
      var receiver := Allocate(decl.name);
      var ready := InitializeFields(fuel - 1, decl.fields, receiver, true, cur);
      match ready
      case Raised(e) => return Raised(e);
      case NoFuel => return NoFuel;
      case Returned(_) =>
      var values := EvaluateAll(fuel, args, cur);
      match values
      case Raised(e) => return Raised(e);
      case NoFuel => return NoFuel;
      case Returned(vs) =>
      o := RunAndWrap(fuel - 1, receiver, decl, routine, vs);
    }

    method RunAndWrap(fuel: nat, a: nat, decl: StructDecl, routine: Routine, values: seq<Value>)
      returns (o: Outcome<Value>)
      modifies this
      ensures Agrees(o, Wrapped(RunRoutine(program, fuel, a, decl, routine, values, old(Current()))))
      decreases fuel, 6
    {
      var results := ExecStructRoutine(fuel, a, decl, routine, values);
      match results
      case Raised(e) => return Raised(e);
      case NoFuel => return NoFuel;
      case Returned(outputs) => o := WrapResults(outputs);
    }

    method CallOnValue(fuel: nat, target: Value, m: Name, args: seq<Expr>, cur: nat) returns (o: Outcome<Value>)
      requires cur < |envs|
      modifies this
      ensures Agrees(o, EvalReceiverCall(program, fuel, target, m, args, cur, old(Current())))
      decreases fuel, 0, args, 2
    {
      if target.StructV? {
        if !IsInstance(heap, target.addr) {
          return Raised(Fault("StructInstance is nullptr"));
        }
        match LookupStruct(program, heap[target.addr].typeName)
        case None => return Raised(Fault("no struct declaration"));
        case Some(decl) =>
        match FindRoutine(decl.routines, m)
        case None => return Raised(Fault("unknown struct routine"));
        case Some(routine) =>
        var values := EvaluateAll(fuel, args, cur);
        match values
        case Raised(e) => return Raised(e);
        case NoFuel => return NoFuel;
        case Returned(vs) =>
        if fuel == 0 {
          return NoFuel;
        }
        o := RunAndWrap(fuel - 1, target.addr, decl, routine, vs);
      } else if target.NullV? {
        return Raised(Fault("StructInstance is nullptr"));
      } else {
        o := CallBuiltin(fuel, target, m, args, cur);
      }
    }

    method CallBuiltin(fuel: nat, target: Value, m: Name, args: seq<Expr>, cur: nat) returns (o: Outcome<Value>)
      requires cur < |envs| && !target.StructV? && !target.NullV?
      modifies this
      ensures Agrees(o, EvalReceiverCall(program, fuel, target, m, args, cur, old(Current())))
      decreases fuel, 0, args, 1
    {
      var key := (TypeNameOf(target), m);
      if key !in program.builtinMethods {
        return Raised(Fault("unknown method"));
      }
      var values := EvaluateAll(fuel, args, cur);
      match values
      case Raised(e) => return Raised(e);
      case NoFuel => return NoFuel;
      case Returned(vs) =>
      var results := RunForeign(program.builtinMethods[key], target, Numbered(vs, |vs|));
      match results
      case Raised(e) => return Raised(e);
      case NoFuel => return NoFuel;
      case Returned(outputs) => o := WrapResults(outputs);
    }

    method EvaluateIndex(fuel: nat, target: Value, index: Value) returns (o: Outcome<Value>)
      modifies this
      ensures Agrees(o, EvalIndex(program, fuel, target, index, old(Current())))
      decreases fuel, 7
    {
      if !target.StructV? || !IsInstance(heap, target.addr) {
        return Raised(Fault("indexing not supported"));
      }
      var typeName := heap[target.addr].typeName;
      match LookupStruct(program, typeName) {
      case None =>
      case Some(decl) =>
        match FindRoutine(decl.routines, "GetIndex") {
        case None =>
        case Some(routine) =>
          o := RunAndWrap(fuel, target.addr, decl, routine, [index]);
          return;
        }
      }
      match LookupForeign(program, typeName, "GetIndex")
      case None => return Raised(Fault("no GetIndex routine"));
      case Some(f) =>
      var results := RunForeign(f, target, map["this" := target, "index" := index]);
      match results
      case Raised(e) => return Raised(e);
      case NoFuel => return NoFuel;
      case Returned(outputs) => o := WrapResults(outputs);
    }

    // -------------------------------------------------------------------
    // Struct routines
    // -------------------------------------------------------------------

    method InitializeFields(fuel: nat, fields: seq<VarDeclaration>, a: nat, freshStructs: bool, cur: nat)
      returns (o: Outcome<()>)
      requires cur < |envs|
      modifies this
      ensures Agrees(o, InitFields(program, fuel, fields, a, freshStructs, cur, old(Current())))
      decreases fuel, 2
    {
      assert fields[0..] == fields;
      for i := 0 to |fields|
        invariant cur < |envs|
        invariant InitFields(program, fuel, fields, a, freshStructs, cur, old(Current()))
                  == InitFields(program, fuel, fields[i..], a, freshStructs, cur, Current())
      {
        assert fields[i..][0] == fields[i] && fields[i..][1..] == fields[i + 1..];
        var f := fields[i];
        var initial: Value;
        if f.init.Some? {
          var v := Evaluate(fuel, f.init.value, cur);
          match v
          case Raised(e) => return Raised(e);
          case NoFuel => return NoFuel;
          case Returned(x) => initial := x;
        } else if freshStructs && f.ty.StructType? {
          var b := Allocate(f.ty.name);
          initial := StructV(b);
        } else {
          initial := PrimitiveDefault(f.ty);
        }
        if IsInstance(heap, a) {
          SetField(a, f.name, initial);
        }
      }
      o := Returned(());
    }

    // Copies the receiver's fields into the routine's environment.
    method FlattenReceiver(fuel: nat, fields: seq<VarDeclaration>, a: nat, cur: nat) returns (o: Outcome<()>)
      requires cur < |envs|
      modifies this
      ensures Agrees(o, FlattenFields(program, fuel, fields, a, cur, old(Current())))
      decreases fuel, 2
    {
      assert fields[0..] == fields;
      for i := 0 to |fields|
        invariant cur < |envs|
        invariant FlattenFields(program, fuel, fields, a, cur, old(Current()))
                  == FlattenFields(program, fuel, fields[i..], a, cur, Current())
      {
        assert fields[i..][0] == fields[i] && fields[i..][1..] == fields[i + 1..];
        var f := fields[i];
        var copy: Value;
        if IsInstance(heap, a) && f.name in heap[a].fields {
          copy := heap[a].fields[f.name];
        } else if f.init.Some? {
          var v := Evaluate(fuel, f.init.value, cur);
          match v
          case Raised(e) => return Raised(e);
          case NoFuel => return NoFuel;
          case Returned(x) => copy := x;
        } else {
          copy := PrimitiveDefault(f.ty);
        }
        envs := envs[cur := envs[cur][f.name := copy]];
      }
      o := Returned(());
    }

    // Missing arguments take their defaults, in order.
    method BindParameters(fuel: nat, params: seq<Param>, args: seq<Value>, cur: nat) returns (o: Outcome<()>)
      requires cur < |envs|
      modifies this
      ensures Agrees(o, BindInputs(program, fuel, params, args, cur, old(Current())))
      decreases fuel, 2
    {
      for i := 0 to |params|
        invariant cur < |envs|
        invariant BindInputs(program, fuel, params, args, cur, old(Current()))
                  == BindInputs(program, fuel, params[i..], if i <= |args| then args[i..] else [], cur, Current())
      {
        assert params[i..][0] == params[i] && params[i..][1..] == params[i + 1..];
        assert i < |args| ==> args[i..][0] == args[i] && args[i..][1..] == args[i + 1..];
        var name := params[i].name;
        if i < |args| {
          envs := envs[cur := envs[cur][name := args[i]]];
        } else if params[i].default.Some? {
          var v := Evaluate(fuel, params[i].default.value, cur);
          match v
          case Returned(x) => envs := envs[cur := envs[cur][name := x]];
          case Raised(e) => return Raised(e);
          case NoFuel => return NoFuel;
        } else {
          return Raised(MissingArgument(name));
        }
      }
      o := Returned(());
    }

    method InitializeResults(fuel: nat, outputs: seq<Param>, cur: nat) returns (o: Outcome<()>)
      requires cur < |envs|
      modifies this
      ensures Agrees(o, InitOutputs(program, fuel, outputs, cur, old(Current())))
      decreases fuel, 3
    {
      assert outputs[0..] == outputs;
      for i := 0 to |outputs|
        invariant cur < |envs|
        invariant InitOutputs(program, fuel, outputs, cur, old(Current()))
                  == InitOutputs(program, fuel, outputs[i..], cur, Current())
      {
        assert outputs[i..][0] == outputs[i] && outputs[i..][1..] == outputs[i + 1..];
        var out := outputs[i];
        if out.ty.StructType? {
          var a := Allocate(out.ty.name);
          var fields := match LookupStruct(program, out.ty.name) case Some(d) => d.fields case None => [];
          var ready := InitializeFields(fuel, fields, a, false, cur);
          match ready
          case Raised(e) => return Raised(e);
          case NoFuel => return NoFuel;
          case Returned(_) => envs := envs[cur := envs[cur][out.name := StructV(a)]];
        } else if out.default.Some? {
          var v := Evaluate(fuel, out.default.value, cur);
          match v
          case Raised(e) => return Raised(e);
          case NoFuel => return NoFuel;
          case Returned(x) => envs := envs[cur := envs[cur][out.name := x]];
        }
      }
      o := Returned(());
    }

    // Fields written through "this" replace the flat copies, and all flat copies
    // are then written back.
    method SyncReceiver(fields: seq<VarDeclaration>, a: nat, cur: nat)
      requires cur < |envs|
      modifies this
      ensures var instance := if IsInstance(old(heap), a) then old(heap)[a].fields else map[];
              var env := SyncFromInstance(fields, instance, old(envs)[cur]);
              Current() == State(old(envs)[cur := env], SyncToInstance(fields, env, a, old(heap)))
    {
      ghost var instance := if IsInstance(heap, a) then heap[a].fields else map[];
      assert fields[0..] == fields && old(envs)[cur := old(envs)[cur]] == old(envs);
      for i := 0 to |fields|
        invariant |envs| == |old(envs)| && heap == old(heap) && envs == old(envs)[cur := envs[cur]]
        invariant SyncFromInstance(fields, instance, old(envs)[cur])
                  == SyncFromInstance(fields[i..], instance, envs[cur])
      {
        assert fields[i..][0] == fields[i] && fields[i..][1..] == fields[i + 1..];
        var f := fields[i].name;
        if IsInstance(heap, a) && f in heap[a].fields {
          envs := envs[cur := envs[cur][f := heap[a].fields[f]]];
        }
      }
      ghost var env := envs[cur];
      for i := 0 to |fields|
        invariant |envs| == |old(envs)| && envs == old(envs)[cur := env] && envs[cur] == env
        invariant SyncToInstance(fields, env, a, old(heap)) == SyncToInstance(fields[i..], env, a, heap)
      {
        assert fields[i..][0] == fields[i] && fields[i..][1..] == fields[i + 1..];
        var f := fields[i].name;
        if f in envs[cur] && IsInstance(heap, a) {
          SetField(a, f, envs[cur][f]);
        }
      }
    }

    // A routine without a body is foreign; any other runs in its own environment,
    // which is dropped however it ends.
    method ExecStructRoutine(fuel: nat, a: nat, decl: StructDecl, routine: Routine, args: seq<Value>)
      returns (o: Outcome<seq<Value>>)
      modifies this
      ensures Agrees(o, RunRoutine(program, fuel, a, decl, routine, args, old(Current())))
      decreases fuel, 5
    {
      if routine.body == [] {
        match LookupForeign(program, decl.name, routine.name)
        case None => return Raised(Fault("empty body and no FFI implementation"));
        case Some(f) =>
        var receiver := if IsInstance(heap, a) && heap[a].native then map["this" := StructV(a)] else map[];
        o := RunForeign(f, StructV(a), receiver + NamedInputs(routine.inputs, args));
      } else {
        var n := |envs|;
        envs := envs + [map["this" := StructV(a)]];
        o := ExecRoutineBody(fuel, a, decl, routine, args);
        if !o.NoFuel? && n <= |envs| {
          envs := envs[..n];
        }
      }
    }

    method ExecRoutineBody(fuel: nat, a: nat, decl: StructDecl, routine: Routine, args: seq<Value>)
      returns (o: Outcome<seq<Value>>)
      requires envs != []
      modifies this
      ensures Agrees(o, RoutineBody(program, fuel, a, decl, routine, args, old(Current())))
      decreases fuel, 4, 1
    {
      var cur := |envs| - 1;
      var ready := EnterRoutine(fuel, a, decl, routine, args);
      match ready
      case Raised(e) => return Raised(e);
      case NoFuel => return NoFuel;
      case Returned(_) =>
      var flow := ExecuteBlock(fuel, routine.body, cur);
      match flow
      case Raised(e) => return Raised(e);
      case NoFuel => return NoFuel;
      case Returned(_) =>
      o := LeaveRoutine(decl.fields, a, routine.outputs, cur);
    }

    method LeaveRoutine(fields: seq<VarDeclaration>, a: nat, outputs: seq<Param>, cur: nat)
      returns (o: Outcome<seq<Value>>)
      requires cur < |envs|
      modifies this
      ensures Agrees(o, FinishRoutine(fields, a, outputs, cur, old(Current())))
    {
      SyncReceiver(fields, a, cur);
      var values, missing := ExtractOutputs(outputs, cur);
      match missing
      case None => return Returned(values);
      case Some(name) => return Raised(RoutineOutputNotSet(name));
    }

    // Fields, inputs and outputs of a routine, before its body runs.
    method EnterRoutine(fuel: nat, a: nat, decl: StructDecl, routine: Routine, args: seq<Value>)
      returns (o: Outcome<()>)
      requires envs != []
      modifies this
      ensures Agrees(o, RoutineEntry(program, fuel, a, decl, routine, args, old(Current())))
      decreases fuel, 4, 0
    {
      var cur := |envs| - 1;
      o := FlattenReceiver(fuel, decl.fields, a, cur);
      if o.Returned? { o := BindParameters(fuel, routine.inputs, args, cur); }
      if o.Returned? { o := InitializeResults(fuel, routine.outputs, cur); }
    }

    // -------------------------------------------------------------------
    // Statements
    // -------------------------------------------------------------------

    // Statements run one after the other until one leaves the block.
    method ExecuteBlock(fuel: nat, stmts: seq<Stmt>, cur: nat) returns (o: Outcome<Flow>)
      requires cur < |envs|
      modifies this
      ensures Agrees(o, ExecBlock(program, fuel, stmts, cur, old(Current())))
      decreases fuel, 1, stmts, 0
    {
      for i := 0 to |stmts|
        invariant cur < |envs|
        invariant ExecBlock(program, fuel, stmts, cur, old(Current()))
                  == ExecBlock(program, fuel, stmts[i..], cur, Current())
      {
        assert stmts[i..][0] == stmts[i] && stmts[i..][1..] == stmts[i + 1..];
        o := Execute(fuel, stmts[i], cur);
        if !o.Returned? || !o.value.Next? {
          return;
        }
      }
      o := Returned(Next);
    }

    method Execute(fuel: nat, s: Stmt, cur: nat) returns (o: Outcome<Flow>)
      requires cur < |envs|
      modifies this
      ensures Agrees(o, Exec(program, fuel, s, cur, old(Current())))
      decreases fuel, 1, s, 0
    {
      match s
      case VarDecl(d) =>
        o := DeclareVariable(fuel, d, cur);
      case Assign(targets, e) =>
        var v := Evaluate(fuel, e, cur);
        match v {
        case Raised(err) => return Raised(err);
        case NoFuel => return NoFuel;
        case Returned(x) => o := AssignValue(fuel, targets, x, cur);
        }
      case FieldAssign(obj, f, e) =>
        var v := Evaluate(fuel, e, cur);
        match v {
        case Raised(err) => return Raised(err);
        case NoFuel => return NoFuel;
        case Returned(x) =>
          o := StoreInField(obj, f, x, cur);
          if o.Returned? && f in envs[cur] {
            envs := envs[cur := envs[cur][f := x]];
          }
        }
      case ExprStmt(e) =>
        var v := Evaluate(fuel, e, cur);
        match v {
        case Raised(err) => return Raised(err);
        case NoFuel => return NoFuel;
        case Returned(_) => return Returned(Next);
        }
      case If(c, thenBody, elseBody) =>
        var v := Evaluate(fuel, c, cur);
        match v {
        case Raised(err) => return Raised(err);
        case NoFuel => return NoFuel;
        case Returned(x) =>
          if !x.BoolV? {
            return Raised(Fault("if condition must be boolean"));
          }
          if x.b {
            o := ExecuteBlock(fuel, thenBody, cur);
          } else {
            o := ExecuteBlock(fuel, elseBody, cur);
          }
        }
      case Transition(target, es) =>
        var values := EvaluateAll(fuel, es, cur);
        match values {
        case Raised(err) => return Raised(err);
        case NoFuel => return NoFuel;
        case Returned(vs) => return Returned(Goto(target, vs));
        }
      case Terminal => return Returned(Done);
    }

    method EvaluateAll(fuel: nat, es: seq<Expr>, cur: nat) returns (o: Outcome<seq<Value>>)
      requires cur < |envs|
      modifies this
      ensures Agrees(o, EvalList(program, fuel, es, cur, old(Current())))
      decreases fuel, 0, es, 0
    {
      var values: seq<Value> := [];
      PrefixedSteps([], NilV, EvalList(program, fuel, es, cur, Current()));
      assert es[0..] == es;
      for i := 0 to |es|
        invariant cur < |envs|
        invariant EvalList(program, fuel, es, cur, old(Current()))
                  == Prefixed(values, EvalList(program, fuel, es[i..], cur, Current()))
      {
        assert es[i..][0] == es[i] && es[i..][1..] == es[i + 1..];
        var v := Evaluate(fuel, es[i], cur);
        match v
        case Raised(err) => return Raised(err);
        case NoFuel => return NoFuel;
        case Returned(x) =>
          PrefixedSteps(values, x, EvalList(program, fuel, es[i + 1..], cur, Current()));
          values := values + [x];
      }
      assert values + [] == values;
      o := Returned(values);
    }

    method DeclareVariable(fuel: nat, d: VarDeclaration, cur: nat) returns (o: Outcome<Flow>)
      requires cur < |envs|
      modifies this
      ensures Agrees(o, ExecVarDecl(program, fuel, d, cur, old(Current())))
      ensures o.Raised? ==> envs == old(envs)
      ensures o.Returned? ==>
                d.name in envs[cur] && envs == old(envs)[cur := old(envs)[cur][d.name := envs[cur][d.name]]]
      ensures d.init.None? ==> (o.Raised? <==> d.ty.NilType? || d.ty.VoidType?)
      ensures d.init.None? && d.ty.StructType? ==>
                o.Returned? && envs[cur][d.name] == StructV(|old(heap)|)
                && heap == old(heap) + [Instance(d.ty.name, map[], false)]
      decreases fuel, 1, d, 0
    {
      var initial: Value;
      if d.init.Some? {
        var v := Evaluate(fuel, d.init.value, cur);
        match v
        case Raised(err) => return Raised(err);
        case NoFuel => return NoFuel;
        case Returned(x) => initial := x;
      } else {
        match d.ty
        case ArrayType(element) =>
          var name := if element.Some? then "Array<" + ToString(element.value) + ">" else "Array";
          initial := StructV(|heap|);
          heap := heap + [Instance(name, map[], false)];
        case StructType(name, _) =>
          initial := StructV(|heap|);
          heap := heap + [Instance(name, map[], false)];
        case NilType => return Raised(Fault("type requires explicit initialization"));
        case VoidType => return Raised(Fault("type requires explicit initialization"));
        case _ => initial := PrimitiveDefault(d.ty);
      }
      envs := envs[cur := envs[cur][d.name := initial]];
      o := Returned(Next);
    }

    method StoreInField(obj: Expr, f: Name, v: Value, cur: nat) returns (o: Outcome<Flow>)
      requires cur < |envs|
      modifies this
      ensures Agrees(o, StoreField(obj, f, v, cur, old(Current())))
    {
      if !obj.Var? {
        return Raised(Fault("field assignment needs a variable"));
      }
      if obj.name !in envs[cur] {
        return Raised(UndefinedVariable(obj.name));
      }
      var target := envs[cur][obj.name];
      if !target.StructV? || !IsInstance(heap, target.addr) {
        return Raised(Fault("not a struct instance"));
      }
      heap := heap[target.addr := heap[target.addr].(fields := heap[target.addr].fields[f := v])];
      o := Returned(Next);
    }

    method AssignValue(fuel: nat, targets: seq<Target>, v: Value, cur: nat) returns (o: Outcome<Flow>)
      requires cur < |envs|
      modifies this
      ensures Agrees(o, ExecAssign(program, fuel, targets, v, cur, old(Current())))
      decreases fuel, 1, targets, 1
    {
      if |targets| > 1 {
        if !v.TupleV? || v.addr >= |heap| || !heap[v.addr].Tuple? {
          return Raised(Fault("tuple assignment needs a tuple"));
        }
        if |heap[v.addr].values| != |targets| {
          return Raised(Fault("tuple assignment size mismatch"));
        }
        o := AssignTuple(fuel, targets, heap[v.addr].values, cur);
      } else if targets == [] {
        return Raised(Fault("no assignment target"));
      } else {
        match targets[0]
        case VarTarget(name) =>
          envs := envs[cur := envs[cur][name := v]];
          o := Returned(Next);
        case FieldTarget(obj, f) =>
          o := StoreInField(obj, f, v, cur);
      }
    }

    method AssignTuple(fuel: nat, targets: seq<Target>, values: seq<Value>, cur: nat) returns (o: Outcome<Flow>)
      requires cur < |envs| && |values| == |targets|
      modifies this
      ensures Agrees(o, AssignTargets(program, fuel, targets, values, cur, old(Current())))
      decreases fuel, 1, targets, 0
    {
      for i := 0 to |targets|
        invariant cur < |envs|
        invariant AssignTargets(program, fuel, targets, values, cur, old(Current()))
                  == AssignTargets(program, fuel, targets[i..], values[i..], cur, Current())
      {
        assert targets[i..][0] == targets[i] && targets[i..][1..] == targets[i + 1..];
        assert values[i..][0] == values[i] && values[i..][1..] == values[i + 1..];
        match targets[i]
        case VarTarget(name) =>
          envs := envs[cur := envs[cur][name := values[i]]];
        case FieldTarget(obj, f) =>
          var v := Evaluate(fuel, obj, cur);
          match v
          case Raised(err) => return Raised(err);
          case NoFuel => return NoFuel;
          case Returned(x) =>
            if !x.StructV? {
              return Raised(Fault("field assignment target is not a struct"));
            }
            var stored := StoreInField(obj, f, values[i], cur);
            if !stored.Returned? {
              return stored;
            }
      }
      o := Returned(Next);
    }

    method InitializeVariables(fuel: nat, ds: seq<VarDeclaration>) returns (o: Outcome<()>)
      requires envs != []
      modifies this
      ensures Agrees(o, InitVariables(program, fuel, ds, old(Current())))
      decreases fuel, 2
    {
      for i := 0 to |ds|
        invariant envs != []
        invariant InitVariables(program, fuel, ds, old(Current()))
                  == InitVariables(program, fuel, ds[i..], Current())
      {
        assert ds[i..][0] == ds[i] && ds[i..][1..] == ds[i + 1..];
        var declared := DeclareVariable(fuel, ds[i], 0);
        match declared
        case Returned(_) =>
        case Raised(e) => return Raised(e);
        case NoFuel => return NoFuel;
      }
      o := Returned(());
    }

    method SetInputParameters(fuel: nat, params: seq<Param>, inputs: map<Name, Value>) returns (o: Outcome<()>)
      requires envs != []
      modifies this
      ensures Agrees(o, SetInputs(program, fuel, params, inputs, old(Current())))
      decreases fuel, 2
    {
      for i := 0 to |params|
        invariant envs != []
        invariant SetInputs(program, fuel, params, inputs, old(Current()))
                  == SetInputs(program, fuel, params[i..], inputs, Current())
      {
        assert params[i..][0] == params[i] && params[i..][1..] == params[i + 1..];
        var name := params[i].name;
        if name in inputs {
          envs := envs[0 := envs[0][name := inputs[name]]];
        } else if params[i].default.Some? {
          var v := Evaluate(fuel, params[i].default.value, 0);
          match v
          case Returned(x) => envs := envs[0 := envs[0][name := x]];
          case Raised(e) => return Raised(e);
          case NoFuel => return NoFuel;
        } else {
          return Raised(MissingArgument(name));
        }
      }
      o := Returned(());
    }

    method InitializeOutputs(fuel: nat, outputs: seq<Param>) returns (o: Outcome<()>)
      requires envs != []
      modifies this
      ensures Agrees(o, InitRunOutputs(program, fuel, outputs, old(Current())))
      decreases fuel, 2
    {
      for i := 0 to |outputs|
        invariant envs != []
        invariant InitRunOutputs(program, fuel, outputs, old(Current()))
                  == InitRunOutputs(program, fuel, outputs[i..], Current())
      {
        assert outputs[i..][0] == outputs[i] && outputs[i..][1..] == outputs[i + 1..];
        var name := outputs[i].name;
        if name in envs[0] {
        } else if outputs[i].default.Some? {
          var v := Evaluate(fuel, outputs[i].default.value, 0);
          match v
          case Returned(x) => envs := envs[0 := envs[0][name := x]];
          case Raised(e) => return Raised(e);
          case NoFuel => return NoFuel;
        } else {
          envs := envs[0 := envs[0][name := IntV(0)]];
        }
      }
      o := Returned(());
    }

    // Erases one by one the variables that were not there before the state.
    method CleanUp(globals: set<Name>)
      requires envs != []
      modifies this
      ensures Current() == State(old(envs)[0 := EraseLocals(old(envs)[0], globals)], old(heap))
    {
      var names := envs[0].Keys;
      while names != {}
        invariant |envs| == |old(envs)| && heap == old(heap) && names <= old(envs)[0].Keys
        invariant envs == old(envs)[0 := envs[0]]
        invariant envs[0].Keys == names + (old(envs)[0].Keys - names) * globals
        invariant forall n :: n in envs[0] ==> envs[0][n] == old(envs)[0][n]
        decreases names
      {
        var name :| name in names;
        if name !in globals {
          envs := envs[0 := envs[0] - {name}];
        }
        names := names - {name};
      }
      assert envs[0] == EraseLocals(old(envs)[0], globals);
    }

    method ExecuteState(fuel: nat, s: StateDecl, params: seq<Value>) returns (o: Outcome<Flow>)
      requires envs != []
      modifies this
      ensures Agrees(o, ExecState(program, fuel, s, params, old(Current())))
      decreases fuel, 3
    {
      var globals := envs[0].Keys;
      if s.params == [] && params != [] {
        return Raised(Fault("state does not accept parameters"));
      }
      if |params| > |s.params| {
        return Raised(Fault("too many state parameters"));
      }
      var bound := BindParameters(fuel, s.params, params, 0);
      match bound
      case Raised(e) => return Raised(e);
      case NoFuel => return NoFuel;
      case Returned(_) =>
      o := ExecuteBlock(fuel, s.body, 0);
      if o.Returned? {
        CleanUp(globals);
      }
    }

    // The state machine; fuel counts the transitions that are left.
    method RunStates(fuel: nat, a: Autotuner, params: seq<Value>) returns (o: Outcome<()>)
      requires envs != []
      modifies this
      ensures Agrees(o, Loop(program, fuel, a, a.entry, params, old(Current())))
      decreases fuel, 6
    {
      var left: nat := fuel;
      var current, args := a.entry, params;
      while true
        invariant envs != []
        invariant Loop(program, fuel, a, a.entry, params, old(Current()))
                  == Loop(program, left, a, current, args, Current())
        invariant envs[0].Keys == old(envs)[0].Keys
        invariant left <= fuel
        decreases left
      {
        match FindState(a.states, current)
        case None => return Raised(UnknownState(current));
        case Some(state) =>
          if left == 0 {
            return NoFuel;
          }
          var flow := ExecuteState(left - 1, state, args);
          match flow
          case Raised(e) => return Raised(e);
          case NoFuel => return NoFuel;
          case Returned(Done) => return Returned(());
          case Returned(Goto(target, args')) => current, args, left := target, args', left - 1;
          case Returned(Next) => return Raised(StateNotLeft(state.name));
      }
    }

    // -------------------------------------------------------------------
    // Autotuners and functions
    // -------------------------------------------------------------------

    method ApplyFunction(fuel: nat, c: Callable, params: map<Name, Value>) returns (o: Outcome<seq<Value>>)
      requires envs != []
      modifies this
      ensures Agrees(o, Apply(program, fuel, c, params, old(Current())))
      decreases fuel, 9
    {
      match c
      case AutotunerFn(a) => o := RunAutotuner(fuel, a, params);
      case ForeignFn(f) => o := RunForeign(f, NilV, params);
      case InlineFn(routine) =>
        var n := |envs|;
        var env := MakeInlineEnv(routine, params);
        envs := envs + [env];
        o := RunInline(fuel, routine);
        if !o.NoFuel? && n <= |envs| {
          envs := envs[..n];
        }
    }

    // The inputs that were given, then a default for every output.
    method MakeInlineEnv(routine: Routine, params: map<Name, Value>) returns (env: Env)
      ensures env == InlineEnv(routine, params)
    {
      env := map[];
      for i := 0 to |routine.inputs|
        invariant env == GivenInputs(routine.inputs[..i], params)
      {
        assert routine.inputs[..i + 1][..i] == routine.inputs[..i];
        if routine.inputs[i].name in params {
          env := env[routine.inputs[i].name := params[routine.inputs[i].name]];
        }
      }
      assert routine.inputs[..|routine.inputs|] == routine.inputs;
      ghost var given := env;
      for i := 0 to |routine.outputs|
        invariant env == WithDefaults(given, routine.outputs[..i])
      {
        assert routine.outputs[..i + 1][..i] == routine.outputs[..i];
        env := env[routine.outputs[i].name := PrimitiveDefault(routine.outputs[i].ty)];
      }
      assert routine.outputs[..|routine.outputs|] == routine.outputs;
    }

    method RunInline(fuel: nat, routine: Routine) returns (o: Outcome<seq<Value>>)
      requires envs != []
      requires forall i :: 0 <= i < |routine.outputs| ==> routine.outputs[i].name in envs[|envs| - 1]
      modifies this
      ensures Agrees(o, InlineBody(program, fuel, routine, old(Current())))
      decreases fuel, 4
    {
      var cur := |envs| - 1;
      var flow := ExecuteBlock(fuel, routine.body, cur);
      match flow
      case Raised(e) => return Raised(e);
      case NoFuel => return NoFuel;
      case Returned(_) =>
      var values, missing := ExtractOutputs(routine.outputs, cur);
      match missing
      case None => return Returned(values);
      case Some(name) => return Raised(InlineOutputNotSet(name));
    }

    // The declared outputs, in order.
    method ExtractOutputs(outputs: seq<Param>, cur: nat) returns (values: seq<Value>, missing: Option<Name>)
      requires cur < |envs|
      ensures missing == Collect(outputs, envs[cur]).1
      ensures missing.None? ==> values == Collect(outputs, envs[cur]).0
    {
      values := [];
      for i := 0 to |outputs|
        invariant Collect(outputs, envs[cur]).1 == Collect(outputs[i..], envs[cur]).1
        invariant Collect(outputs, envs[cur]).0 == values + Collect(outputs[i..], envs[cur]).0
      {
        assert outputs[i..][0] == outputs[i] && outputs[i..][1..] == outputs[i + 1..];
        if outputs[i].name !in envs[cur] {
          return values, Some(outputs[i].name);
        }
        values := values + [envs[cur][outputs[i].name]];
      }
      assert outputs[|outputs|..] == [];
      return values, None;
    }

    // Variables, inputs, outputs and the arguments of the entry state.
    method PrepareRun(fuel: nat, a: Autotuner, inputs: map<Name, Value>) returns (o: Outcome<seq<Value>>)
      requires envs != [] && envs[0] == map[]
      modifies this
      ensures Agrees(o, Initialize(program, fuel, a, inputs, old(Current())))
      decreases fuel, 3
    {
      var done := InitializeVariables(fuel, a.variables);
      if done.Returned? { done := SetInputParameters(fuel, a.inputs, inputs); }
      if done.Returned? { done := InitializeOutputs(fuel, a.outputs); }
      match done
      case Raised(e) => return Raised(e);
      case NoFuel => return NoFuel;
      case Returned(_) =>
      o := EvaluateAll(fuel, a.entryParams, 0);
    }

    method RunInCleanEnvironment(fuel: nat, a: Autotuner, inputs: map<Name, Value>) returns (o: Outcome<seq<Value>>)
      requires envs != [] && envs[0] == map[]
      modifies this
      ensures Agrees(o, RunBody(program, fuel, a, inputs, old(Current())))
      decreases fuel, 7
    {
      var entry := PrepareRun(fuel, a, inputs);
      match entry
      case Raised(e) => return Raised(e);
      case NoFuel => return NoFuel;
      case Returned(params) =>
      var done := RunStates(fuel, a, params);
      match done
      case Raised(e) => return Raised(e);
      case NoFuel => return NoFuel;
      case Returned(_) =>
      var values, missing := ExtractOutputs(a.outputs, 0);
      match missing
      case None => return Returned(values);
      case Some(name) => return Raised(OutputNotSet(name));
    }

    // The caller's variables are moved aside and put back, also after an error.
    method RunAutotuner(fuel: nat, a: Autotuner, inputs: map<Name, Value>) returns (o: Outcome<seq<Value>>)
      requires envs != []
      modifies this
      ensures Agrees(o, Run(program, fuel, a, inputs, old(Current())))
      ensures !o.NoFuel? ==> envs == old(envs)
      ensures o.Returned? ==> |o.value| == |a.outputs|
      decreases fuel, 8
    {
      var saved := envs[0];
      envs := envs[0 := map[]];
      o := RunInCleanEnvironment(fuel, a, inputs);
      if !o.NoFuel? {
        envs := envs[0 := saved];
      }
    }
  }
}
