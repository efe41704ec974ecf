// The Falcon interpreter as functions from states to states.
//
// A state holds every live variable map: number 0 is the interpreter's own
// (`variables_`), and each running routine has pushed one more.  It also holds
// the heap of struct instances and tuples, which values refer to by address; NullV
// is a struct pointer that is null.  `fuel` bounds the nesting of calls plus the
// number of state transitions; a run that needs more of it ends as OutOfFuel and
// nothing is claimed about it.
module Semantics {
  import opened Prelude
  import opened Ast
  import opened Matching

  datatype Value =
    | IntV(i: int)
    | FloatV(r: real)
    | BoolV(b: bool)
    | StringV(s: string)
    | NilV
    | ErrorV(message: string, fatal: bool)
    | TupleV(addr: nat)
    | StructV(addr: nat)
    | NullV

  datatype Object =
    | Instance(typeName: Name, fields: map<Name, Value>, native: bool)
    | Tuple(values: seq<Value>)

  type Env = map<Name, Value>
  type Heap = seq<Object>

  datatype State = State(envs: seq<Env>, heap: Heap)

  datatype Error =
    | OutputNotSet(name: Name)         // "Output parameter not set"
    | InlineOutputNotSet(name: Name)   // an inline routine "did not set output"
    | RoutineOutputNotSet(name: Name)  // a struct routine "did not set output"
    | MissingArgument(name: Name)
    | UndefinedVariable(name: Name)
    | UnknownState(name: Name)
    | StateNotLeft(name: Name)         // a state body ended without a transition
    | Fault(reason: string)

  datatype Res<+T> = Ok(value: T, st: State) | Throw(error: Error, st: State) | OutOfFuel {
    predicate IsFailure() {
      !Ok?
    }

    function PropagateFailure<U>(): Res<U>
      requires IsFailure()
    {
      match this
      case Throw(e, s) => Throw(e, s)
      case OutOfFuel => OutOfFuel
    }

    function Extract(): (T, State)
      requires !IsFailure()
    {
      (value, st)
    }
  }

  // A foreign function may change the heap in any way but sees no environment.
  datatype ForeignResult = ForeignOk(values: seq<Value>, heap: Heap) | ForeignError(heap: Heap)
  type Foreign = (Value, map<Name, Value>, Heap) -> ForeignResult

  datatype Callable = AutotunerFn(autotuner: Autotuner) | InlineFn(routine: Routine) | ForeignFn(foreign: Foreign)

  datatype Function = Function(signature: seq<ParamSpec>, callable: Callable)

  datatype Program = Program(functions: map<Name, Function>,
                             structs: map<Name, StructDecl>,
                             foreignMethods: map<(Name, Name), Foreign>,
                             builtinMethods: map<(Name, Name), Foreign>)

  datatype Flow = Next | Goto(target: Name, params: seq<Value>) | Done

  // ---------------------------------------------------------------------
  // Values and environments
  // ---------------------------------------------------------------------

  function TruncatedDivide(a: int, b: int): int
    requires b != 0
  {
    var q := (if a < 0 then -a else a) / (if b < 0 then -b else b);
    if (a < 0) != (b < 0) then -q else q
  }

  function AsFloat(v: Value): Option<real> {
    match v
    case FloatV(r) => Some(r)
    case IntV(i) => Some(i as real)
    case _ => None
  }

  // The operands of a float operation: at least one float, the other a number.
  function Floats(l: Value, r: Value): Option<(real, real)> {
    if !l.FloatV? && !r.FloatV? then None
    else
      match (AsFloat(l), AsFloat(r))
      case (Some(x), Some(y)) => Some((x, y))
      case _ => None
  }

  // Both operands have been evaluated, also for the logical operators.
  function ApplyBinary(op: BinaryOp, l: Value, r: Value): Option<Value> {
    if op.Eq? then Some(BoolV(l == r))
    else if op.Ne? then Some(BoolV(l != r))
    else if op.And? then
      if l == BoolV(false) then Some(l) else if l.BoolV? && r.BoolV? then Some(r) else None
    else if op.Or? then
      if l == BoolV(true) then Some(l) else if l.BoolV? && r.BoolV? then Some(r) else None
    else if l.IntV? && r.IntV? then IntOperation(op, l.i, r.i)
    else if op.Add? && l.StringV? && r.StringV? then Some(StringV(l.s + r.s))
    else
      match Floats(l, r)
      case None => None
      case Some(xy) => FloatOperation(op, xy.0, xy.1)
  }

  function IntOperation(op: BinaryOp, a: int, b: int): Option<Value> {
    match op
    case Add => Some(IntV(a + b))
    case Sub => Some(IntV(a - b))
    case Mul => Some(IntV(a * b))
    case Div => if b == 0 then None else Some(IntV(TruncatedDivide(a, b)))
    case Lt => Some(BoolV(a < b))
    case Gt => Some(BoolV(a > b))
    case Le => Some(BoolV(a <= b))
    case Ge => Some(BoolV(a >= b))
    case _ => None
  }

  function FloatOperation(op: BinaryOp, x: real, y: real): Option<Value> {
    match op
    case Add => Some(FloatV(x + y))
    case Sub => Some(FloatV(x - y))
    case Mul => Some(FloatV(x * y))
    case Div => if y == 0.0 then None else Some(FloatV(x / y))
    case Lt => Some(BoolV(x < y))
    case Gt => Some(BoolV(x > y))
    case Le => Some(BoolV(x <= y))
    case Ge => Some(BoolV(x >= y))
    case _ => None
  }

  function ApplyUnary(op: UnaryOp, v: Value): Option<Value> {
    match (op, v)
    case (Not, BoolV(b)) => Some(BoolV(!b))
    case (Neg, IntV(i)) => Some(IntV(-i))
    case (Neg, FloatV(r)) => Some(FloatV(-r))
    case _ => None
  }

  function LiteralValue(l: Literal): Value {
    match l
    case IntLit(i) => IntV(i)
    case FloatLit(r) => FloatV(r)
    case BoolLit(b) => BoolV(b)
    case StringLit(s) => StringV(s)
  }

  function TypeNameOf(v: Value): Name {
    match v
    case IntV(_) => "int"
    case FloatV(_) => "float"
    case BoolV(_) => "bool"
    case StringV(_) => "string"
    case NilV => "nil"
    case ErrorV(_, _) => "Error"
    case TupleV(_) => "tuple"
    case StructV(_) => "StructInstance"
    case NullV => "StructInstance"
  }

  // The value of an uninitialised field or output; everything else is nil.
  function PrimitiveDefault(ty: TypeDesc): Value {
    match ty
    case IntType => IntV(0)
    case FloatType => FloatV(0.0)
    case BoolType => BoolV(false)
    case StringType => StringV("")
    case _ => NilV
  }

  function Lookup(env: Env, name: Name): Option<Value> {
    if name in env then Some(env[name])
    else if IsQualified(name) && StripModule(name) in env then Some(env[StripModule(name)])
    else None
  }

  function LookupStruct(p: Program, name: Name): Option<StructDecl> {
    if name in p.structs then Some(p.structs[name])
    else if '<' in name && BaseName(name) in p.structs then Some(p.structs[BaseName(name)])
    else None
  }

  function FindFunction(p: Program, f: Name): Option<Function> {
    if f in p.functions then Some(p.functions[f])
    else if IsQualified(f) && StripModule(f) in p.functions then Some(p.functions[StripModule(f)])
    else None
  }

  function LookupForeign(p: Program, typeName: Name, method_: Name): Option<Foreign> {
    if (typeName, method_) in p.foreignMethods then Some(p.foreignMethods[(typeName, method_)])
    else if '<' in typeName && (BaseName(typeName), method_) in p.foreignMethods then
      Some(p.foreignMethods[(BaseName(typeName), method_)])
    else None
  }

  predicate IsInstance(heap: Heap, a: nat) {
    a < |heap| && heap[a].Instance?
  }

  function WriteField(heap: Heap, a: nat, f: Name, v: Value): Heap {
    if IsInstance(heap, a) then heap[a := heap[a].(fields := heap[a].fields[f := v])] else heap
  }

  // Reading through the non-const getter stores a default integer first.
  function ReadField(heap: Heap, a: nat, f: Name): (Value, Heap)
    requires IsInstance(heap, a)
  {
    if f in heap[a].fields then (heap[a].fields[f], heap) else (IntV(0), WriteField(heap, a, f, IntV(0)))
  }

  function SetVar(st: State, cur: nat, name: Name, v: Value): State
    requires cur < |st.envs|
  {
    st.(envs := st.envs[cur := st.envs[cur][name := v]])
  }

  // The values a call returned, as one value.
  function Wrap(values: seq<Value>, st: State): Res<Value> {
    if values == [] then Ok(NilV, st)
    else if |values| == 1 then Ok(values[0], st)
    else Ok(TupleV(|st.heap|), st.(heap := st.heap + [Tuple(values)]))
  }

  function CallForeign(f: Foreign, receiver: Value, params: map<Name, Value>, st: State): Res<seq<Value>> {
    match f(receiver, params, st.heap)
    case ForeignOk(values, heap) => Ok(values, st.(heap := heap))
    case ForeignError(heap) => Throw(Fault("raised by a foreign function"), st.(heap := heap))
  }

  function ArgumentNames(args: seq<Arg>): (r: Names)
    ensures |r| == |args| && forall i :: 0 <= i < |args| ==> r[i] == args[i].name
  {
    seq(|args|, i requires 0 <= i < |args| => args[i].name)
  }

  // ---------------------------------------------------------------------
  // What every part of the interpreter keeps
  // ---------------------------------------------------------------------

  // The two internal errors that must never be raised.
  ghost predicate Internal(e: Error) {
    e.OutputNotSet? || e.InlineOutputNotSet?
  }

  // However an evaluation ends, all environments are exactly as before.
  ghost predicate Preserves<T>(r: Res<T>, envs: seq<Env>) {
    match r
    case Ok(_, s) => s.envs == envs
    case Throw(e, s) => s.envs == envs && !Internal(e)
    case OutOfFuel => true
  }

  // Only environment cur may change, and it loses no variable.
  ghost predicate Extends(envs: seq<Env>, cur: nat, envs': seq<Env>) {
    |envs'| == |envs| && cur < |envs| && (forall i :: 0 <= i < |envs| && i != cur ==> envs'[i] == envs[i])
    && envs[cur].Keys <= envs'[cur].Keys
  }

  ghost predicate ChangesOnly<T>(r: Res<T>, envs: seq<Env>, cur: nat) {
    match r
    case Ok(_, s) => Extends(envs, cur, s.envs)
    case Throw(e, s) => Extends(envs, cur, s.envs) && !Internal(e)
    case OutOfFuel => true
  }

  // ---------------------------------------------------------------------
  // Expressions
  // ---------------------------------------------------------------------

  function Eval(p: Program, fuel: nat, e: Expr, cur: nat, st: State): (r: Res<Value>)
    requires cur < |st.envs|
    ensures Preserves(r, st.envs)
    decreases fuel, 0, e, 0
  {
    match e
    case Lit(l) => Ok(LiteralValue(l), st)
    case NilLit => Ok(NilV, st)
    case Var(name) =>
      (match Lookup(st.envs[cur], name)
       case Some(v) => Ok(v, st)
       case None => Throw(UndefinedVariable(name), st))
    case Binary(op, l, r) =>
      var (left, st1) :- Eval(p, fuel, l, cur, st);
      var (right, st2) :- Eval(p, fuel, r, cur, st1);
      (match ApplyBinary(op, left, right)
       case Some(v) => Ok(v, st2)
       case None => Throw(Fault("incompatible binary operator"), st2))
    case Unary(op, o) =>
      var (v, st1) :- Eval(p, fuel, o, cur, st);
      (match ApplyUnary(op, v)
       case Some(v') => Ok(v', st1)
       case None => Throw(Fault("incompatible unary operator"), st1))
    case Member(o, f) =>
      var (v, st1) :- Eval(p, fuel, o, cur, st);
      ReadMember(v, f, st1)
    case MethodCall(o, m, args) => EvalMethodCall(p, fuel, o, m, args, cur, st)
    case Index(o, i) =>
      var (v, st1) :- Eval(p, fuel, o, cur, st);
      var (index, st2) :- Eval(p, fuel, i, cur, st1);
      if fuel == 0 then OutOfFuel else EvalIndex(p, fuel - 1, v, index, st2)
    case Call(f, args) => EvalCall(p, fuel, f, args, cur, st)
  }

  function ReadMember(v: Value, f: Name, st: State): (r: Res<Value>)
    ensures Preserves(r, st.envs)
  {
    if v.StructV? && IsInstance(st.heap, v.addr) then
      var (value, heap) := ReadField(st.heap, v.addr, f);
      Ok(value, st.(heap := heap))
    else Throw(Fault("member access on a value that has no fields"), st)
  }

  function EvalCall(p: Program, fuel: nat, f: Name, args: seq<Arg>, cur: nat, st: State): (r: Res<Value>)
    requires cur < |st.envs|
    ensures Preserves(r, st.envs)
    decreases fuel, 0, Call(f, args), -1
  {
    match FindFunction(p, f)
    case None => Throw(Fault("unknown function"), st)
    case Some(fn) =>
      var plan := Plan(fn.signature, ArgumentNames(args));
      var (params, st1) :- EvalBindings(p, fuel, args, plan, map[], cur, st);
      if fuel == 0 then OutOfFuel
      else
        var (values, st2) :- Apply(p, fuel - 1, fn.callable, params, st1);
        Wrap(values, st2)
  }

  function EvalList(p: Program, fuel: nat, es: seq<Expr>, cur: nat, st: State): (r: Res<seq<Value>>)
    requires cur < |st.envs|
    ensures Preserves(r, st.envs)
    ensures r.Ok? ==> |r.value| == |es|
    decreases fuel, 0, es, 0
  {
    if es == [] then Ok([], st)
    else
      var (v, st1) :- Eval(p, fuel, es[0], cur, st);
      var (vs, st2) :- EvalList(p, fuel, es[1..], cur, st1);
      Ok([v] + vs, st2)
  }

  // Evaluates the arguments in the order in which parameters were matched.
  function EvalBindings(p: Program, fuel: nat, args: seq<Arg>, plan: seq<Binding>, params: map<Name, Value>,
                        cur: nat, st: State): (r: Res<map<Name, Value>>)
    requires cur < |st.envs|
    ensures Preserves(r, st.envs)
    decreases fuel, 0, args, |plan|
  {
    if plan == [] then Ok(params, st)
    else
      match plan[0]
      case Missing(name) => Throw(MissingArgument(name), st)
      case NilDefault(name) => EvalBindings(p, fuel, args, plan[1..], params[name := NilV], cur, st)
      case FromArgument(name, i) =>
        if i >= |args| then Throw(Fault("no such argument"), st)
        else
          var arg := args[i];
          assert (args decreases to arg);
          var (v, st1) :- Eval(p, fuel, arg.value, cur, st);
          EvalBindings(p, fuel, args, plan[1..], params[name := v], cur, st1)
  }

  // The struct that a receiver names, when it is a type and not a variable.
  function StaticReceiver(p: Program, o: Expr, env: Env): Option<StructDecl> {
    if !o.Var? || o.name in env || StripModule(o.name) in env then None
    else
      match LookupStruct(p, o.name)
      case Some(decl) => Some(decl)
      case None => if IsQualified(o.name) then LookupStruct(p, StripModule(o.name)) else None
  }

  function EvalMethodCall(p: Program, fuel: nat, o: Expr, m: Name, args: seq<Expr>, cur: nat, st: State)
    : (r: Res<Value>)
    requires cur < |st.envs|
    ensures Preserves(r, st.envs)
    decreases fuel, 0, MethodCall(o, m, args), -1
  {
    match StaticReceiver(p, o, st.envs[cur])
    case Some(decl) => EvalStaticCall(p, fuel, decl, m, args, cur, st)
    case None =>
      var (target, st1) :- Eval(p, fuel, o, cur, st);
      EvalReceiverCall(p, fuel, target, m, args, cur, st1)
  }

  // A call on a type: the routine runs on a new instance.
  function EvalStaticCall(p: Program, fuel: nat, decl: StructDecl, m: Name, args: seq<Expr>, cur: nat, st: State)
    : (r: Res<Value>)
    requires cur < |st.envs|
    ensures Preserves(r, st.envs)
    decreases fuel, 0, args, 1
  {
    match FindRoutine(decl.routines, m)
    case None => Throw(Fault("unknown struct routine"), st)
    case Some(routine) =>
      if fuel == 0 then OutOfFuel
      else
        var receiver := |st.heap|;
        var st0 := st.(heap := st.heap + [Instance(decl.name, map[], false)]);
        var (_, st1) :- InitFields(p, fuel - 1, decl.fields, receiver, true, cur, st0);
        var (values, st2) :- EvalList(p, fuel, args, cur, st1);
        var (outputs, st3) :- RunRoutine(p, fuel - 1, receiver, decl, routine, values, st2);
        Wrap(outputs, st3)
  }

  // A call on a value: a routine of its struct, or a built-in method.
  function EvalReceiverCall(p: Program, fuel: nat, target: Value, m: Name, args: seq<Expr>, cur: nat, st: State)
    : (r: Res<Value>)
    requires cur < |st.envs|
    ensures Preserves(r, st.envs)
    decreases fuel, 0, args, 1
  {
    if target.StructV? then
      if !IsInstance(st.heap, target.addr) then Throw(Fault("StructInstance is nullptr"), st)
      else
        match LookupStruct(p, st.heap[target.addr].typeName)
        case None => Throw(Fault("no struct declaration"), st)
        case Some(decl) =>
          match FindRoutine(decl.routines, m)
          case None => Throw(Fault("unknown struct routine"), st)
          case Some(routine) =>
            var (values, st1) :- EvalList(p, fuel, args, cur, st);
            if fuel == 0 then OutOfFuel
            else
              var (outputs, st2) :- RunRoutine(p, fuel - 1, target.addr, decl, routine, values, st1);
              Wrap(outputs, st2)
    else if target.NullV? then Throw(Fault("StructInstance is nullptr"), st)
    else if (TypeNameOf(target), m) !in p.builtinMethods then Throw(Fault("unknown method"), st)
    else
      var (values, st1) :- EvalList(p, fuel, args, cur, st);
      var (outputs, st2) :- CallForeign(p.builtinMethods[(TypeNameOf(target), m)], target, Numbered(values, |values|),
                                        st1);
      Wrap(outputs, st2)
  }

  // Positional parameters of a built-in method: arg0, arg1, ...
  function Numbered(values: seq<Value>, n: nat): map<Name, Value>
    requires n <= |values|
  {
    if n == 0 then map[] else Numbered(values, n - 1)["arg" + Decimal(n - 1) := values[n - 1]]
  }

  function Decimal(n: nat): string {
    var digit := ['0' + (n % 10) as char];
    if n < 10 then digit else Decimal(n / 10) + digit
  }

  // Indexing is a call of the struct's GetIndex routine.
  function EvalIndex(p: Program, fuel: nat, target: Value, index: Value, st: State): (r: Res<Value>)
    ensures Preserves(r, st.envs)
    decreases fuel, 6
  {
    if !target.StructV? || !IsInstance(st.heap, target.addr) then Throw(Fault("indexing not supported"), st)
    else
      var typeName := st.heap[target.addr].typeName;
      var routine := match LookupStruct(p, typeName)
                     case Some(decl) => FindRoutine(decl.routines, "GetIndex")
                     case None => None;
      if routine.Some? then
        var (outputs, st1) :- RunRoutine(p, fuel, target.addr, LookupStruct(p, typeName).value, routine.value, [index],
                                         st);
        Wrap(outputs, st1)
      else
        match LookupForeign(p, typeName, "GetIndex")
        case None => Throw(Fault("no GetIndex routine"), st)
        case Some(f) =>
          var (outputs, st1) :- CallForeign(f, target, map["this" := target, "index" := index], st);
          Wrap(outputs, st1)
  }

  // ---------------------------------------------------------------------
  // Struct routines
  // ---------------------------------------------------------------------

  // Gives every declared field of a fresh instance its initial value.
  function InitFields(p: Program, fuel: nat, fields: seq<VarDeclaration>, a: nat, freshStructs: bool, cur: nat,
                      st: State)
    : (r: Res<()>)
    requires cur < |st.envs|
    ensures Preserves(r, st.envs)
    decreases fuel, 2, |fields|
  {
    if fields == [] then Ok((), st)
    else
      var f := fields[0];
      var (v, st1) :- match f.init
                      case Some(e) => Eval(p, fuel, e, cur, st)
                      case None =>
                        if freshStructs && f.ty.StructType? then
                          Ok(StructV(|st.heap|), st.(heap := st.heap + [Instance(f.ty.name, map[], false)]))
                        else Ok(PrimitiveDefault(f.ty), st);
      InitFields(p, fuel, fields[1..], a, freshStructs, cur, st1.(heap := WriteField(st1.heap, a, f.name, v)))
  }

  // Copies the receiver's fields into the routine's environment.
  function FlattenFields(p: Program, fuel: nat, fields: seq<VarDeclaration>, a: nat, cur: nat, st: State): (r: Res<()>)
    requires cur < |st.envs|
    ensures ChangesOnly(r, st.envs, cur)
    decreases fuel, 2, |fields|
  {
    if fields == [] then Ok((), st)
    else
      var f := fields[0];
      var (v, st1) :- if IsInstance(st.heap, a) && f.name in st.heap[a].fields then Ok(st.heap[a].fields[f.name], st)
                      else match f.init
                           case Some(e) => Eval(p, fuel, e, cur, st)
                           case None => Ok(PrimitiveDefault(f.ty), st);
      FlattenFields(p, fuel, fields[1..], a, cur, SetVar(st1, cur, f.name, v))
  }

  function BindInputs(p: Program, fuel: nat, inputs: seq<Param>, args: seq<Value>, cur: nat, st: State): (r: Res<()>)
    requires cur < |st.envs|
    ensures ChangesOnly(r, st.envs, cur)
    decreases fuel, 2, |inputs|
  {
    if inputs == [] then Ok((), st)
    else
      var (v, st1) :- if args != [] then Ok(args[0], st)
                      else match inputs[0].default
                           case Some(e) => Eval(p, fuel, e, cur, st)
                           case None => Throw(MissingArgument(inputs[0].name), st);
      BindInputs(p, fuel, inputs[1..], if args == [] then [] else args[1..], cur, SetVar(st1, cur, inputs[0].name, v))
  }

  // A struct output starts as a fresh instance; another output only if it has a default.
  function InitOutputs(p: Program, fuel: nat, outputs: seq<Param>, cur: nat, st: State): (r: Res<()>)
    requires cur < |st.envs|
    ensures ChangesOnly(r, st.envs, cur)
    decreases fuel, 3, |outputs|
  {
    if outputs == [] then Ok((), st)
    else
      var out := outputs[0];
      var (_, st1) :- if out.ty.StructType? then
                        var freshAddr := |st.heap|;
                        var st0 := st.(heap := st.heap + [Instance(out.ty.name, map[], false)]);
                        var fields := match LookupStruct(p, out.ty.name) case Some(d) => d.fields case None => [];
                        var (_, st2) :- InitFields(p, fuel, fields, freshAddr, false, cur, st0);
                        Ok((), SetVar(st2, cur, out.name, StructV(freshAddr)))
                      else match out.default
                           case Some(e) =>
                             var (v, st2) :- Eval(p, fuel, e, cur, st);
                             Ok((), SetVar(st2, cur, out.name, v))
                           case None => Ok((), st);
      InitOutputs(p, fuel, outputs[1..], cur, st1)
  }

  // After the body, fields written through "this" replace the flat copies ...
  function SyncFromInstance(fields: seq<VarDeclaration>, instance: map<Name, Value>, env: Env): Env {
    if fields == [] then env
    else
      var f := fields[0].name;
      SyncFromInstance(fields[1..], instance, if f in instance then env[f := instance[f]] else env)
  }

  // ... and all flat copies are then written back to the instance.
  function SyncToInstance(fields: seq<VarDeclaration>, env: Env, a: nat, heap: Heap): Heap {
    if fields == [] then heap
    else
      var f := fields[0].name;
      SyncToInstance(fields[1..], env, a, if f in env then WriteField(heap, a, f, env[f]) else heap)
  }

  // The outputs in order, or the first one that has no value.
  function Collect(outputs: seq<Param>, env: Env): (seq<Value>, Option<Name>) {
    if outputs == [] then ([], None)
    else if outputs[0].name !in env then ([], Some(outputs[0].name))
    else
      var (rest, missing) := Collect(outputs[1..], env);
      ([env[outputs[0].name]] + rest, missing)
  }

  // Leaving a routine, normally or not, drops its environment.
  function PopEnv<T>(r: Res<T>, n: nat): Res<T> {
    match r
    case Ok(v, s) => Ok(v, s.(envs := if n <= |s.envs| then s.envs[..n] else s.envs))
    case Throw(e, s) => Throw(e, s.(envs := if n <= |s.envs| then s.envs[..n] else s.envs))
    case OutOfFuel => OutOfFuel
  }

  lemma PopRestores<T>(r: Res<T>, envs: seq<Env>, env: Env)
    requires ChangesOnly(r, envs + [env], |envs|)
    ensures Preserves(PopEnv(r, |envs|), envs)
  {
    if !r.OutOfFuel? {
      assert forall i :: 0 <= i < |envs| ==> (envs + [env])[i] == envs[i];
      assert r.st.envs[..|envs|] == envs;
    }
  }

  function RunRoutine(p: Program, fuel: nat, a: nat, decl: StructDecl, routine: Routine, args: seq<Value>, st: State)
    : (r: Res<seq<Value>>)
    ensures Preserves(r, st.envs)
    decreases fuel, 5
  {
    if routine.body == [] then
      match LookupForeign(p, decl.name, routine.name)
      case None => Throw(Fault("empty body and no FFI implementation"), st)
      case Some(f) =>
        var this_ := if IsInstance(st.heap, a) && st.heap[a].native then map["this" := StructV(a)] else map[];
        CallForeign(f, StructV(a), this_ + NamedInputs(routine.inputs, args), st)
    else
      var r := RoutineBody(p, fuel, a, decl, routine, args, st.(envs := st.envs + [map["this" := StructV(a)]]));
      PopRestores(r, st.envs, map["this" := StructV(a)]);
      PopEnv(r, |st.envs|)
  }

  function NamedInputs(inputs: seq<Param>, args: seq<Value>): map<Name, Value> {
    if inputs == [] || args == [] then map[]
    else map[inputs[0].name := args[0]] + NamedInputs(inputs[1..], args[1..])
  }

  // The body of a struct routine, in the environment on top.
  function RoutineBody(p: Program, fuel: nat, a: nat, decl: StructDecl, routine: Routine, args: seq<Value>, st: State)
    : (r: Res<seq<Value>>)
    requires st.envs != []
    ensures ChangesOnly(r, st.envs, |st.envs| - 1)
    decreases fuel, 4, 1
  {
    var cur := |st.envs| - 1;
    var (_, st1) :- RoutineEntry(p, fuel, a, decl, routine, args, st);
    var (_, st2) :- ExecBlock(p, fuel, routine.body, cur, st1);
    FinishRoutine(decl.fields, a, routine.outputs, cur, st2)
  }

  // Fields, inputs and outputs, before the body runs.
  function RoutineEntry(p: Program, fuel: nat, a: nat, decl: StructDecl, routine: Routine, args: seq<Value>, st: State)
    : (r: Res<()>)
    requires st.envs != []
    ensures ChangesOnly(r, st.envs, |st.envs| - 1)
    decreases fuel, 4, 0
  {
    var cur := |st.envs| - 1;
    var (_, st1) :- FlattenFields(p, fuel, decl.fields, a, cur, st);
    var (_, st2) :- BindInputs(p, fuel, routine.inputs, args, cur, st1);
    InitOutputs(p, fuel, routine.outputs, cur, st2)
  }

  function FinishRoutine(fields: seq<VarDeclaration>, a: nat, outputs: seq<Param>, cur: nat, st: State)
    : (r: Res<seq<Value>>)
    requires cur < |st.envs|
    ensures ChangesOnly(r, st.envs, cur)
  {
    var instance := if IsInstance(st.heap, a) then st.heap[a].fields else map[];
    var env := SyncFromInstance(fields, instance, st.envs[cur]);
    SyncKeepsKeys(fields, instance, st.envs[cur]);
    var st' := State(st.envs[cur := env], SyncToInstance(fields, env, a, st.heap));
    match Collect(outputs, env)
    case (values, None) => Ok(values, st')
    case (_, Some(name)) => Throw(RoutineOutputNotSet(name), st')
  }

  lemma SyncKeepsKeys(fields: seq<VarDeclaration>, instance: map<Name, Value>, env: Env)
    ensures env.Keys <= SyncFromInstance(fields, instance, env).Keys
  {
  }

  // ---------------------------------------------------------------------
  // Statements
  // ---------------------------------------------------------------------

  function ExecBlock(p: Program, fuel: nat, stmts: seq<Stmt>, cur: nat, st: State): (r: Res<Flow>)
    requires cur < |st.envs|
    ensures ChangesOnly(r, st.envs, cur)
    decreases fuel, 1, stmts, 0
  {
    if stmts == [] then Ok(Next, st)
    else
      var (flow, st1) :- Exec(p, fuel, stmts[0], cur, st);
      if flow.Next? then ExecBlock(p, fuel, stmts[1..], cur, st1) else Ok(flow, st1)
  }

  function Exec(p: Program, fuel: nat, s: Stmt, cur: nat, st: State): (r: Res<Flow>)
    requires cur < |st.envs|
    ensures ChangesOnly(r, st.envs, cur)
    decreases fuel, 1, s, 0
  {
    match s
    case VarDecl(d) => ExecVarDecl(p, fuel, d, cur, st)
    case Assign(targets, e) =>
      var (v, st1) :- Eval(p, fuel, e, cur, st);
      ExecAssign(p, fuel, targets, v, cur, st1)
    case FieldAssign(o, f, e) =>
      var (v, st1) :- Eval(p, fuel, e, cur, st);
      var (_, st2) :- StoreField(o, f, v, cur, st1);
      // The flat copy of the field, if there is one, follows the instance.
      Ok(Next, if f in st2.envs[cur] then SetVar(st2, cur, f, v) else st2)
    case ExprStmt(e) =>
      var (_, st1) :- Eval(p, fuel, e, cur, st);
      Ok(Next, st1)
    case If(c, thenBody, elseBody) =>
      var (v, st1) :- Eval(p, fuel, c, cur, st);
      if !v.BoolV? then Throw(Fault("if condition must be boolean"), st1)
      else if v.b then ExecBlock(p, fuel, thenBody, cur, st1)
      else ExecBlock(p, fuel, elseBody, cur, st1)
    case Transition(target, es) =>
      var (vs, st1) :- EvalList(p, fuel, es, cur, st);
      Ok(Goto(target, vs), st1)
    case Terminal => Ok(Done, st)
  }

  function ExecAssign(p: Program, fuel: nat, targets: seq<Target>, v: Value, cur: nat, st: State): (r: Res<Flow>)
    requires cur < |st.envs|
    ensures ChangesOnly(r, st.envs, cur)
    decreases fuel, 1, targets, 1
  {
    if |targets| > 1 then
      if !v.TupleV? || v.addr >= |st.heap| || !st.heap[v.addr].Tuple? then
        Throw(Fault("tuple assignment needs a tuple"), st)
      else if |st.heap[v.addr].values| != |targets| then Throw(Fault("tuple assignment size mismatch"), st)
      else AssignTargets(p, fuel, targets, st.heap[v.addr].values, cur, st)
    else if targets == [] then Throw(Fault("no assignment target"), st)
    else
      match targets[0]
      case VarTarget(name) => Ok(Next, SetVar(st, cur, name, v))
      case FieldTarget(o, f) => StoreField(o, f, v, cur, st)
  }

  function ExecVarDecl(p: Program, fuel: nat, d: VarDeclaration, cur: nat, st: State): (r: Res<Flow>)
    requires cur < |st.envs|
    ensures ChangesOnly(r, st.envs, cur)
    ensures r.Ok? ==> r.value == Next && r.st.envs[cur].Keys == st.envs[cur].Keys + {d.name}
    decreases fuel, 1, d, 0
  {
    var (v, st1) :- match d.init
                    case Some(e) => Eval(p, fuel, e, cur, st)
                    case None =>
                      match d.ty
                      case ArrayType(element) =>
                        var name := if element.Some? then "Array<" + ToString(element.value) + ">" else "Array";
                        Ok(StructV(|st.heap|), st.(heap := st.heap + [Instance(name, map[], false)]))
                      case StructType(name, _) =>
                        Ok(StructV(|st.heap|), st.(heap := st.heap + [Instance(name, map[], false)]))
                      case NilType => Throw(Fault("type requires explicit initialization"), st)
                      case VoidType => Throw(Fault("type requires explicit initialization"), st)
                      case _ => Ok(PrimitiveDefault(d.ty), st);
    Ok(Next, SetVar(st1, cur, d.name, v))
  }

  // Writes a field of the struct that a variable refers to.
  function StoreField(o: Expr, f: Name, v: Value, cur: nat, st: State): (r: Res<Flow>)
    requires cur < |st.envs|
    ensures Preserves(r, st.envs)
  {
    if !o.Var? then Throw(Fault("field assignment needs a variable"), st)
    else if o.name !in st.envs[cur] then Throw(UndefinedVariable(o.name), st)
    else
      var target := st.envs[cur][o.name];
      if !target.StructV? || !IsInstance(st.heap, target.addr) then Throw(Fault("not a struct instance"), st)
      else Ok(Next, st.(heap := WriteField(st.heap, target.addr, f, v)))
  }

  function AssignTargets(p: Program, fuel: nat, targets: seq<Target>, values: seq<Value>, cur: nat, st: State)
    : (r: Res<Flow>)
    requires cur < |st.envs| && |values| == |targets|
    ensures ChangesOnly(r, st.envs, cur)
    decreases fuel, 1, targets, 0
  {
    if targets == [] then Ok(Next, st)
    else
      var (_, st1) :- match targets[0]
                      case VarTarget(name) => Ok(Next, SetVar(st, cur, name, values[0]))
                      case FieldTarget(o, f) =>
                        var (target, st0) :- Eval(p, fuel, o, cur, st);
                        if !target.StructV? then Throw(Fault("field assignment target is not a struct"), st0)
                        else StoreField(o, f, values[0], cur, st0);
      AssignTargets(p, fuel, targets[1..], values[1..], cur, st1)
  }

  // ---------------------------------------------------------------------
  // Calls
  // ---------------------------------------------------------------------

  function Apply(p: Program, fuel: nat, c: Callable, params: map<Name, Value>, st: State): (r: Res<seq<Value>>)
    requires st.envs != []
    ensures Preserves(r, st.envs)
    decreases fuel, 9
  {
    match c
    case AutotunerFn(a) => Run(p, fuel, a, params, st)
    case ForeignFn(f) => CallForeign(f, NilV, params, st)
    case InlineFn(routine) =>
      var env := InlineEnv(routine, params);
      var r := InlineBody(p, fuel, routine, st.(envs := st.envs + [env]));
      PopRestores(r, st.envs, env);
      PopEnv(r, |st.envs|)
  }

  // The given inputs of an inline routine.
  function GivenInputs(inputs: seq<Param>, params: map<Name, Value>): Env {
    if inputs == [] then map[]
    else
      var k := |inputs| - 1;
      var given := GivenInputs(inputs[..k], params);
      if inputs[k].name in params then given[inputs[k].name := params[inputs[k].name]] else given
  }

  function WithDefaults(env: Env, outputs: seq<Param>): (r: Env)
    ensures forall i :: 0 <= i < |outputs| ==> outputs[i].name in r
  {
    if outputs == [] then env
    else
      var k := |outputs| - 1;
      WithDefaults(env, outputs[..k])[outputs[k].name := PrimitiveDefault(outputs[k].ty)]
  }

  // The given inputs, then defaults for all outputs.
  function InlineEnv(routine: Routine, params: map<Name, Value>): Env {
    WithDefaults(GivenInputs(routine.inputs, params), routine.outputs)
  }

  function InlineBody(p: Program, fuel: nat, routine: Routine, st: State): (r: Res<seq<Value>>)
    requires st.envs != []
    requires forall i :: 0 <= i < |routine.outputs| ==> routine.outputs[i].name in st.envs[|st.envs| - 1]
    ensures ChangesOnly(r, st.envs, |st.envs| - 1)
    decreases fuel, 4
  {
    var cur := |st.envs| - 1;
    var (_, st1) :- ExecBlock(p, fuel, routine.body, cur, st);
    CollectFinds(routine.outputs, st1.envs[cur]);
    match Collect(routine.outputs, st1.envs[cur])
    case (values, None) => Ok(values, st1)
    case (_, Some(name)) => Throw(InlineOutputNotSet(name), st1)
  }

  lemma CollectFinds(outputs: seq<Param>, env: Env)
    requires forall i :: 0 <= i < |outputs| ==> outputs[i].name in env
    ensures Collect(outputs, env).1.None?
    ensures |Collect(outputs, env).0| == |outputs|
    ensures forall i :: 0 <= i < |outputs| ==> Collect(outputs, env).0[i] == env[outputs[i].name]
  {
  }

  // ---------------------------------------------------------------------
  // Autotuners
  // ---------------------------------------------------------------------

  function VariableNames(ds: seq<VarDeclaration>): set<Name> {
    set i | 0 <= i < |ds| :: ds[i].name
  }

  function ParamNames(ps: seq<Param>): set<Name> {
    set i | 0 <= i < |ps| :: ps[i].name
  }

  // Everything that is global to the states of an autotuner.
  function DeclaredNames(a: Autotuner): set<Name> {
    VariableNames(a.variables) + ParamNames(a.inputs) + ParamNames(a.outputs)
  }

  // The caller's variables come back however the run ends.
  function Restore<T>(r: Res<T>, saved: Env): Res<T> {
    match r
    case Ok(v, s) => Ok(v, if s.envs == [] then s else s.(envs := s.envs[0 := saved]))
    case Throw(e, s) => Throw(e, if s.envs == [] then s else s.(envs := s.envs[0 := saved]))
    case OutOfFuel => OutOfFuel
  }

  lemma RestoreRestores<T>(r: Res<T>, envs: seq<Env>, env: Env)
    requires envs != [] && ChangesOnly(r, envs[0 := env], 0)
    ensures Preserves(Restore(r, envs[0]), envs)
  {
    if !r.OutOfFuel? {
      assert forall i :: 0 < i < |envs| ==> r.st.envs[i] == envs[0 := env][i];
      assert r.st.envs[0 := envs[0]] == envs;
    }
  }

  function Run(p: Program, fuel: nat, a: Autotuner, inputs: map<Name, Value>, st: State): (r: Res<seq<Value>>)
    requires st.envs != []
    ensures Preserves(r, st.envs)
    ensures r.Ok? ==> |r.value| == |a.outputs|
    decreases fuel, 8
  {
    var r := RunBody(p, fuel, a, inputs, st.(envs := st.envs[0 := map[]]));
    RestoreRestores(r, st.envs, map[]);
    Restore(r, st.envs[0])
  }

  function RunBody(p: Program, fuel: nat, a: Autotuner, inputs: map<Name, Value>, st: State): (r: Res<seq<Value>>)
    requires st.envs != [] && st.envs[0] == map[]
    ensures ChangesOnly(r, st.envs, 0)
    ensures r.Ok? ==> |r.value| == |a.outputs|
    decreases fuel, 7
  {
    var (params, st1) :- Initialize(p, fuel, a, inputs, st);
    var (_, st2) :- Loop(p, fuel, a, a.entry, params, st1);
    CollectFinds(a.outputs, st2.envs[0]);
    match Collect(a.outputs, st2.envs[0])
    case (values, None) => Ok(values, st2)
    case (_, Some(name)) => Throw(OutputNotSet(name), st2)
  }

  // Steps 1 to 4 of a run, up to the entry of the first state: the variables are
  // exactly the declared ones.
  function Initialize(p: Program, fuel: nat, a: Autotuner, inputs: map<Name, Value>, st: State): (r: Res<seq<Value>>)
    requires st.envs != [] && st.envs[0] == map[]
    ensures ChangesOnly(r, st.envs, 0)
    ensures r.Ok? ==> r.st.envs[0].Keys == DeclaredNames(a)
    decreases fuel, 3
  {
    var (_, st1) :- InitVariables(p, fuel, a.variables, st);
    var (_, st2) :- SetInputs(p, fuel, a.inputs, inputs, st1);
    var (_, st3) :- InitRunOutputs(p, fuel, a.outputs, st2);
    EvalList(p, fuel, a.entryParams, 0, st3)
  }

  function InitVariables(p: Program, fuel: nat, ds: seq<VarDeclaration>, st: State): (r: Res<()>)
    requires st.envs != []
    ensures ChangesOnly(r, st.envs, 0)
    ensures r.Ok? ==> r.st.envs[0].Keys == st.envs[0].Keys + VariableNames(ds)
    decreases fuel, 2, |ds|
  {
    if ds == [] then Ok((), st)
    else
      var (_, st1) :- ExecVarDecl(p, fuel, ds[0], 0, st);
      assert VariableNames(ds) == {ds[0].name} + VariableNames(ds[1..]) by { VariableNamesSplit(ds); }
      InitVariables(p, fuel, ds[1..], st1)
  }

  lemma VariableNamesSplit(ds: seq<VarDeclaration>)
    requires ds != []
    ensures VariableNames(ds) == {ds[0].name} + VariableNames(ds[1..])
  {
    assert ds == [ds[0]] + ds[1..];
    forall n | n in VariableNames(ds) ensures n in {ds[0].name} + VariableNames(ds[1..]) {
      var i :| 0 <= i < |ds| && ds[i].name == n;
      if i > 0 { assert ds[1..][i - 1].name == n; }
    }
  }

  lemma ParamNamesSplit(ps: seq<Param>)
    requires ps != []
    ensures ParamNames(ps) == {ps[0].name} + ParamNames(ps[1..])
  {
    assert ps == [ps[0]] + ps[1..];
    forall n | n in ParamNames(ps) ensures n in {ps[0].name} + ParamNames(ps[1..]) {
      var i :| 0 <= i < |ps| && ps[i].name == n;
      if i > 0 { assert ps[1..][i - 1].name == n; }
    }
  }

  function SetInputs(p: Program, fuel: nat, params: seq<Param>, inputs: map<Name, Value>, st: State): (r: Res<()>)
    requires st.envs != []
    ensures ChangesOnly(r, st.envs, 0)
    ensures r.Ok? ==> r.st.envs[0].Keys == st.envs[0].Keys + ParamNames(params)
    decreases fuel, 2, |params|
  {
    if params == [] then Ok((), st)
    else
      var name := params[0].name;
      var (v, st1) :- if name in inputs then Ok(inputs[name], st)
                      else match params[0].default
                           case Some(e) => Eval(p, fuel, e, 0, st)
                           case None => Throw(MissingArgument(name), st);
      assert ParamNames(params) == {name} + ParamNames(params[1..]) by { ParamNamesSplit(params); }
      SetInputs(p, fuel, params[1..], inputs, SetVar(st1, 0, name, v))
  }

  // An output that is not a variable yet gets its default, or a placeholder.
  function InitRunOutputs(p: Program, fuel: nat, outputs: seq<Param>, st: State): (r: Res<()>)
    requires st.envs != []
    ensures ChangesOnly(r, st.envs, 0)
    ensures r.Ok? ==> r.st.envs[0].Keys == st.envs[0].Keys + ParamNames(outputs)
    decreases fuel, 2, |outputs|
  {
    if outputs == [] then Ok((), st)
    else
      var name := outputs[0].name;
      assert ParamNames(outputs) == {name} + ParamNames(outputs[1..]) by { ParamNamesSplit(outputs); }
      if name in st.envs[0] then InitRunOutputs(p, fuel, outputs[1..], st)
      else
        var (v, st1) :- match outputs[0].default
                        case Some(e) => Eval(p, fuel, e, 0, st)
                        case None => Ok(IntV(0), st);
        InitRunOutputs(p, fuel, outputs[1..], SetVar(st1, 0, name, v))
  }

  function Loop(p: Program, fuel: nat, a: Autotuner, current: Name, params: seq<Value>, st: State): (r: Res<()>)
    requires st.envs != []
    ensures ChangesOnly(r, st.envs, 0)
    ensures r.Ok? ==> r.st.envs[0].Keys == st.envs[0].Keys
    decreases fuel, 6
  {
    match FindState(a.states, current)
    case None => Throw(UnknownState(current), st)
    case Some(state) =>
      if fuel == 0 then OutOfFuel
      else
        var (flow, st1) :- ExecState(p, fuel - 1, state, params, st);
        match flow
        case Done => Ok((), st1)
        case Goto(target, params') => Loop(p, fuel - 1, a, target, params', st1)
        case Next => Throw(StateNotLeft(state.name), st1)
  }

  // Runs one state and then erases every variable that was not there before.
  function ExecState(p: Program, fuel: nat, s: StateDecl, params: seq<Value>, st: State): (r: Res<Flow>)
    requires st.envs != []
    ensures ChangesOnly(r, st.envs, 0)
    ensures r.Ok? ==> r.st.envs[0].Keys == st.envs[0].Keys
    decreases fuel, 3
  {
    if s.params == [] && params != [] then Throw(Fault("state does not accept parameters"), st)
    else if |params| > |s.params| then Throw(Fault("too many state parameters"), st)
    else
      var globals := st.envs[0].Keys;
      var (_, st1) :- BindInputs(p, fuel, s.params, params, 0, st);
      var (flow, st2) :- ExecBlock(p, fuel, s.body, 0, st1);
      Ok(flow, st2.(envs := st2.envs[0 := EraseLocals(st2.envs[0], globals)]))
  }

  function EraseLocals(env: Env, globals: set<Name>): (r: Env)
    ensures r.Keys == env.Keys * globals && forall name :: name in r ==> r[name] == env[name]
  {
    map name | name in env && name in globals :: env[name]
  }
}
