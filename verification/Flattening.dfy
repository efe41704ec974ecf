// A struct routine sees its receiver's fields twice: through "this", and as
// flat variables copied from the instance before the body runs.  For a body that
// makes no calls and writes declared fields only through "this", the copies
// never diverge from the instance: the routine means the same as the one in
// which every bare field name f is read as this.f.
module Flattening {
  import opened Prelude
  import opened Ast
  import opened Semantics

  // ---------------------------------------------------------------------
  // The routine without flat copies
  // ---------------------------------------------------------------------

  // Every bare field name becomes a read through "this".
  function Through(fields: set<Name>, e: Expr): Expr {
    match e
    case Var(x) => if x in fields then Member(Var("this"), x) else e
    case Binary(op, l, r) => Binary(op, Through(fields, l), Through(fields, r))
    case Unary(op, o) => Unary(op, Through(fields, o))
    case Member(o, f) => Member(Through(fields, o), f)
    case _ => e
  }

  function ThroughAll(fields: set<Name>, es: seq<Expr>): (r: seq<Expr>)
    ensures |r| == |es|
  {
    if es == [] then [] else [Through(fields, es[0])] + ThroughAll(fields, es[1..])
  }

  function ThroughOption(fields: set<Name>, e: Option<Expr>): Option<Expr> {
    match e
    case None => None
    case Some(x) => Some(Through(fields, x))
  }

  function ThroughTargets(fields: set<Name>, ts: seq<Target>): (r: seq<Target>)
    ensures |r| == |ts|
  {
    if ts == [] then []
    else
      var t := match ts[0] case VarTarget(_) => ts[0] case FieldTarget(o, f) => FieldTarget(Through(fields, o), f);
      [t] + ThroughTargets(fields, ts[1..])
  }

  function ThroughStmt(fields: set<Name>, s: Stmt): Stmt
    decreases s, 0
  {
    match s
    case VarDecl(d) => VarDecl(d.(init := ThroughOption(fields, d.init)))
    case Assign(ts, e) => Assign(ThroughTargets(fields, ts), Through(fields, e))
    case FieldAssign(o, f, e) => FieldAssign(Through(fields, o), f, Through(fields, e))
    case ExprStmt(e) => ExprStmt(Through(fields, e))
    case If(c, t, e) => If(Through(fields, c), ThroughBlock(fields, t), ThroughBlock(fields, e))
    case Transition(target, es) => Transition(target, ThroughAll(fields, es))
    case Terminal => s
  }

  function ThroughBlock(fields: set<Name>, ss: seq<Stmt>): (r: seq<Stmt>)
    ensures |r| == |ss|
    decreases ss, 0
  {
    if ss == [] then [] else [ThroughStmt(fields, ss[0])] + ThroughBlock(fields, ss[1..])
  }

  function ThroughParams(fields: set<Name>, ps: seq<Param>): (r: seq<Param>)
    ensures |r| == |ps| && forall i :: 0 <= i < |ps| ==> r[i].name == ps[i].name && r[i].ty == ps[i].ty
  {
    if ps == [] then []
    else [ps[0].(default := ThroughOption(fields, ps[0].default))] + ThroughParams(fields, ps[1..])
  }

  // The body of a routine that has no flat copies: nothing is copied in, nothing
  // is written back.
  function UnflattenedBody(p: Program, fuel: nat, fields: set<Name>, routine: Routine, args: seq<Value>, st: State)
    : (r: Res<seq<Value>>)
    requires st.envs != []
    ensures ChangesOnly(r, st.envs, |st.envs| - 1)
  {
    var cur := |st.envs| - 1;
    var (_, st1) :- UnflattenedEntry(p, fuel, fields, routine, args, st);
    var (_, st2) :- ExecBlock(p, fuel, ThroughBlock(fields, routine.body), cur, st1);
    match Collect(routine.outputs, st2.envs[cur])
    case (values, None) => Ok(values, st2)
    case (_, Some(name)) => Throw(RoutineOutputNotSet(name), st2)
  }

  function UnflattenedEntry(p: Program, fuel: nat, fields: set<Name>, routine: Routine, args: seq<Value>, st: State)
    : (r: Res<()>)
    requires st.envs != []
    ensures ChangesOnly(r, st.envs, |st.envs| - 1)
  {
    var cur := |st.envs| - 1;
    var (_, st1) :- BindInputs(p, fuel, ThroughParams(fields, routine.inputs), args, cur, st);
    InitOutputs(p, fuel, ThroughParams(fields, routine.outputs), cur, st1)
  }

  // ---------------------------------------------------------------------
  // Which routines are meant
  // ---------------------------------------------------------------------

  // Makes no call, and does not reach a field by a qualified name.
  predicate Plain(fields: set<Name>, e: Expr) {
    match e
    case Lit(_) => true
    case NilLit => true
    case Var(x) => x in fields || !IsQualified(x) || StripModule(x) !in fields
    case Binary(_, l, r) => Plain(fields, l) && Plain(fields, r)
    case Unary(_, o) => Plain(fields, o)
    case Member(o, _) => Plain(fields, o)
    case _ => false
  }

  predicate PlainAll(fields: set<Name>, es: seq<Expr>) {
    forall i :: 0 <= i < |es| ==> Plain(fields, es[i])
  }

  predicate PlainOption(fields: set<Name>, e: Option<Expr>) {
    e.Some? ==> Plain(fields, e.value)
  }

  // A local name that hides neither a field nor the receiver.
  predicate Local(fields: set<Name>, x: Name) {
    x !in fields && x != "this"
  }

  // A field name is not used as the variable of a field assignment.
  predicate PlainObject(fields: set<Name>, o: Expr) {
    Plain(fields, o) && (o.Var? ==> o.name !in fields)
  }

  predicate PlainTargets(fields: set<Name>, ts: seq<Target>) {
    forall i :: 0 <= i < |ts| ==>
      match ts[i]
      case VarTarget(x) => Local(fields, x)
      case FieldTarget(o, f) => PlainObject(fields, o) && Local(fields, f)
  }

  predicate PlainStmt(fields: set<Name>, s: Stmt)
    decreases s, 0
  {
    match s
    case VarDecl(d) => Local(fields, d.name) && PlainOption(fields, d.init)
    case Assign(ts, e) => PlainTargets(fields, ts) && Plain(fields, e)
    case FieldAssign(o, f, e) =>
      PlainObject(fields, o) && Plain(fields, e) && f != "this" && (f in fields ==> o == Var("this"))
    case ExprStmt(e) => Plain(fields, e)
    case If(c, t, e) => Plain(fields, c) && PlainBlock(fields, t) && PlainBlock(fields, e)
    case Transition(_, es) => PlainAll(fields, es)
    case Terminal => true
  }

  predicate PlainBlock(fields: set<Name>, ss: seq<Stmt>)
    decreases ss, 0
  {
    ss == [] || (PlainStmt(fields, ss[0]) && PlainBlock(fields, ss[1..]))
  }

  predicate PlainParams(fields: set<Name>, ps: seq<Param>) {
    forall i :: 0 <= i < |ps| ==> Local(fields, ps[i].name) && PlainOption(fields, ps[i].default)
  }

  // The initial values of an output struct do not depend on the receiver's fields.
  predicate PlainInitialisers(fields: set<Name>, ds: seq<VarDeclaration>) {
    forall i :: 0 <= i < |ds| ==>
      PlainOption(fields, ds[i].init) && ThroughOption(fields, ds[i].init) == ds[i].init
  }

  predicate PlainOutputs(p: Program, fields: set<Name>, ps: seq<Param>) {
    PlainParams(fields, ps) &&
    forall i :: 0 <= i < |ps| && ps[i].ty.StructType? ==>
      match LookupStruct(p, ps[i].ty.name) case Some(d) => PlainInitialisers(fields, d.fields) case None => true
  }

  predicate PlainRoutine(p: Program, fields: set<Name>, routine: Routine) {
    && "this" !in fields
    && PlainParams(fields, routine.inputs)
    && PlainOutputs(p, fields, routine.outputs)
    && PlainBlock(fields, routine.body)
  }

  // ---------------------------------------------------------------------
  // The simulation
  // ---------------------------------------------------------------------

  // The instance at a holds all fields.
  ghost predicate Holds(heap: Heap, a: nat, fields: set<Name>) {
    IsInstance(heap, a) && fields <= heap[a].fields.Keys
  }

  // s has flat copies, equal to the instance's fields, and t has none; apart from
  // that they are the same.
  ghost predicate Related(fields: set<Name>, a: nat, cur: nat, s: State, t: State) {
    && cur < |s.envs| && t.envs == s.envs[cur := s.envs[cur] - fields] && t.heap == s.heap
    && "this" !in fields && "this" in s.envs[cur] && s.envs[cur]["this"] == StructV(a)
    && Holds(s.heap, a, fields)
    && forall f :: f in fields ==> f in s.envs[cur] && s.envs[cur][f] == s.heap[a].fields[f]
  }

  ghost predicate RelatedResults<T>(fields: set<Name>, a: nat, cur: nat, r: Res<T>, q: Res<T>) {
    match r
    case Ok(v, s) => q.Ok? && q.value == v && Related(fields, a, cur, s, q.st)
    case Throw(e, s) => q.Throw? && q.error == e && Related(fields, a, cur, s, q.st)
    case OutOfFuel => q.OutOfFuel?
  }

  lemma {:induction false} SimulateExpr(p: Program, fuel: nat, fields: set<Name>, a: nat, e: Expr, cur: nat, s: State,
                                        t: State)
    requires Related(fields, a, cur, s, t) && Plain(fields, e)
    ensures RelatedResults(fields, a, cur, Eval(p, fuel, e, cur, s), Eval(p, fuel, Through(fields, e), cur, t))
    decreases e
  {
    match e
    case Lit(_) =>
    case NilLit =>
    case Var(x) => SimulateVar(p, fuel, fields, a, x, cur, s, t);
    case Binary(_, l, r) =>
      SimulateExpr(p, fuel, fields, a, l, cur, s, t);
      var v := Eval(p, fuel, l, cur, s);
      if v.Ok? {
        SimulateExpr(p, fuel, fields, a, r, cur, v.st, Eval(p, fuel, Through(fields, l), cur, t).st);
      }
    case Unary(_, o) => SimulateExpr(p, fuel, fields, a, o, cur, s, t);
    case Member(o, f) =>
      SimulateExpr(p, fuel, fields, a, o, cur, s, t);
  }

  lemma SimulateVar(p: Program, fuel: nat, fields: set<Name>, a: nat, x: Name, cur: nat, s: State, t: State)
    requires Related(fields, a, cur, s, t) && Plain(fields, Var(x))
    ensures RelatedResults(fields, a, cur, Eval(p, fuel, Var(x), cur, s),
                           Eval(p, fuel, Through(fields, Var(x)), cur, t))
  {
    assert t.envs[cur] == s.envs[cur] - fields;
    if x in fields {
      assert Lookup(t.envs[cur], "this") == Some(StructV(a));
      var v := Eval(p, fuel, Var("this"), cur, t);
      assert v == Ok(StructV(a), t);
    }
  }

  lemma {:induction false} SimulateList(p: Program, fuel: nat, fields: set<Name>, a: nat, es: seq<Expr>, cur: nat,
                                        s: State, t: State)
    requires Related(fields, a, cur, s, t) && PlainAll(fields, es)
    ensures RelatedResults(fields, a, cur, EvalList(p, fuel, es, cur, s),
                           EvalList(p, fuel, ThroughAll(fields, es), cur, t))
    decreases |es|
  {
    if es != [] {
      SimulateExpr(p, fuel, fields, a, es[0], cur, s, t);
      var v := Eval(p, fuel, es[0], cur, s);
      assert ThroughAll(fields, es)[1..] == ThroughAll(fields, es[1..]);
      if v.Ok? {
        SimulateList(p, fuel, fields, a, es[1..], cur, v.st, Eval(p, fuel, Through(fields, es[0]), cur, t).st);
      }
    }
  }

  // Setting a local variable keeps the relation.
  lemma RelatedSetVar(fields: set<Name>, a: nat, cur: nat, s: State, t: State, x: Name, v: Value)
    requires Related(fields, a, cur, s, t) && Local(fields, x)
    ensures Related(fields, a, cur, SetVar(s, cur, x, v), SetVar(t, cur, x, v))
  {
    assert s.envs[cur][x := v] - fields == (s.envs[cur] - fields)[x := v];
  }

  // So does writing a field that is not declared by the receiver's struct.
  lemma RelatedWrite(fields: set<Name>, a: nat, cur: nat, s: State, t: State, b: nat, f: Name, v: Value)
    requires Related(fields, a, cur, s, t) && f !in fields
    ensures Related(fields, a, cur, s.(heap := WriteField(s.heap, b, f, v)), t.(heap := WriteField(t.heap, b, f, v)))
  {
  }

  // And allocating.
  lemma RelatedAlloc(fields: set<Name>, a: nat, cur: nat, s: State, t: State, o: Object)
    requires Related(fields, a, cur, s, t)
    ensures Related(fields, a, cur, s.(heap := s.heap + [o]), t.(heap := t.heap + [o]))
  {
  }

  lemma SimulateStore(fields: set<Name>, a: nat, o: Expr, f: Name, v: Value, cur: nat, s: State, t: State)
    requires Related(fields, a, cur, s, t) && PlainObject(fields, o) && f !in fields
    ensures RelatedResults(fields, a, cur, StoreField(o, f, v, cur, s), StoreField(Through(fields, o), f, v, cur, t))
  {
    if o.Var? && o.name in s.envs[cur] {
      assert t.envs[cur] == s.envs[cur] - fields && o.name in t.envs[cur];
      var target := s.envs[cur][o.name];
      if target.StructV? { RelatedWrite(fields, a, cur, s, t, target.addr, f, v); }
    }
  }

  // An assignment to a declared field through "this": the instance changes, and
  // the flat copy follows it.
  lemma SimulateFieldAssign(fields: set<Name>, a: nat, o: Expr, f: Name, v: Value, cur: nat, s: State, t: State)
    requires Related(fields, a, cur, s, t) && PlainObject(fields, o)
    requires f != "this" && (f in fields ==> o == Var("this"))
    ensures RelatedResults(fields, a, cur, Written(o, f, v, cur, s), Written(Through(fields, o), f, v, cur, t))
  {
    if f in fields {
      assert t.envs[cur] == s.envs[cur] - fields;
      var heap := WriteField(s.heap, a, f, v);
      assert StoreField(o, f, v, cur, s) == Ok(Next, s.(heap := heap));
      assert StoreField(o, f, v, cur, t) == Ok(Next, t.(heap := heap));
      assert s.envs[cur][f := v] - fields == s.envs[cur] - fields;
    } else {
      SimulateStore(fields, a, o, f, v, cur, s, t);
      var r, q := StoreField(o, f, v, cur, s), StoreField(Through(fields, o), f, v, cur, t);
      if r.Ok? {
        assert q.st.envs[cur] == r.st.envs[cur] - fields;
        RelatedSetVar(fields, a, cur, r.st, q.st, f, v);
      }
    }
  }

  // The second half of a field assignment, once the value is known.
  function Written(o: Expr, f: Name, v: Value, cur: nat, st: State): Res<Flow>
    requires cur < |st.envs|
  {
    var (_, st1) :- StoreField(o, f, v, cur, st);
    Ok(Next, if f in st1.envs[cur] then SetVar(st1, cur, f, v) else st1)
  }

  lemma {:induction false} SimulateTargets(p: Program, fuel: nat, fields: set<Name>, a: nat, ts: seq<Target>,
                                           vs: seq<Value>, cur: nat, s: State, t: State)
    requires Related(fields, a, cur, s, t) && PlainTargets(fields, ts) && |vs| == |ts|
    ensures RelatedResults(fields, a, cur, AssignTargets(p, fuel, ts, vs, cur, s),
                           AssignTargets(p, fuel, ThroughTargets(fields, ts), vs, cur, t))
    decreases |ts|
  {
    if ts != [] {
      assert ThroughTargets(fields, ts)[1..] == ThroughTargets(fields, ts[1..]);
      match ts[0]
      case VarTarget(x) =>
        RelatedSetVar(fields, a, cur, s, t, x, vs[0]);
        SimulateTargets(p, fuel, fields, a, ts[1..], vs[1..], cur, SetVar(s, cur, x, vs[0]), SetVar(t, cur, x, vs[0]));
      case FieldTarget(o, f) =>
        SimulateExpr(p, fuel, fields, a, o, cur, s, t);
        var r, q := Eval(p, fuel, o, cur, s), Eval(p, fuel, Through(fields, o), cur, t);
        if r.Ok? && r.value.StructV? {
          SimulateStore(fields, a, o, f, vs[0], cur, r.st, q.st);
          var r', q' := StoreField(o, f, vs[0], cur, r.st), StoreField(Through(fields, o), f, vs[0], cur, q.st);
          if r'.Ok? {
            SimulateTargets(p, fuel, fields, a, ts[1..], vs[1..], cur, r'.st, q'.st);
          }
        }
    }
  }

  lemma SimulateAssign(p: Program, fuel: nat, fields: set<Name>, a: nat, ts: seq<Target>, v: Value, cur: nat, s: State,
                       t: State)
    requires Related(fields, a, cur, s, t) && PlainTargets(fields, ts)
    ensures RelatedResults(fields, a, cur, ExecAssign(p, fuel, ts, v, cur, s),
                           ExecAssign(p, fuel, ThroughTargets(fields, ts), v, cur, t))
  {
    if |ts| > 1 {
      if v.TupleV? && v.addr < |s.heap| && s.heap[v.addr].Tuple? && |s.heap[v.addr].values| == |ts| {
        SimulateTargets(p, fuel, fields, a, ts, s.heap[v.addr].values, cur, s, t);
      }
    } else if |ts| == 1 {
      match ts[0]
      case VarTarget(x) => RelatedSetVar(fields, a, cur, s, t, x, v);
      case FieldTarget(o, f) => SimulateStore(fields, a, o, f, v, cur, s, t);
    }
  }

  lemma SimulateVarDecl(p: Program, fuel: nat, fields: set<Name>, a: nat, d: VarDeclaration, cur: nat, s: State,
                        t: State)
    requires Related(fields, a, cur, s, t) && Local(fields, d.name) && PlainOption(fields, d.init)
    ensures RelatedResults(fields, a, cur, ExecVarDecl(p, fuel, d, cur, s),
                           ExecVarDecl(p, fuel, d.(init := ThroughOption(fields, d.init)), cur, t))
  {
    match d.init
    case Some(e) =>
      SimulateExpr(p, fuel, fields, a, e, cur, s, t);
      var r, q := Eval(p, fuel, e, cur, s), Eval(p, fuel, Through(fields, e), cur, t);
      if r.Ok? { RelatedSetVar(fields, a, cur, r.st, q.st, d.name, r.value); }
    case None =>
      var name := match d.ty
                  case StructType(n, _) => n
                  case ArrayType(element) => (if element.Some? then "Array<" + ToString(element.value) + ">"
                                              else "Array")
                  case _ => "";
      var o := Instance(name, map[], false);
      RelatedAlloc(fields, a, cur, s, t, o);
      RelatedSetVar(fields, a, cur, s.(heap := s.heap + [o]), t.(heap := t.heap + [o]), d.name, StructV(|s.heap|));
      RelatedSetVar(fields, a, cur, s, t, d.name, PrimitiveDefault(d.ty));
  }

  lemma {:induction false} SimulateStmt(p: Program, fuel: nat, fields: set<Name>, a: nat, c: Stmt, cur: nat, s: State,
                                        t: State)
    requires Related(fields, a, cur, s, t) && PlainStmt(fields, c)
    ensures RelatedResults(fields, a, cur, Exec(p, fuel, c, cur, s), Exec(p, fuel, ThroughStmt(fields, c), cur, t))
    decreases c, 0
  {
    match c
    case VarDecl(d) => SimulateVarDecl(p, fuel, fields, a, d, cur, s, t);
    case Assign(ts, e) =>
      SimulateExpr(p, fuel, fields, a, e, cur, s, t);
      var r, q := Eval(p, fuel, e, cur, s), Eval(p, fuel, Through(fields, e), cur, t);
      if r.Ok? { SimulateAssign(p, fuel, fields, a, ts, r.value, cur, r.st, q.st); }
    case FieldAssign(o, f, e) =>
      SimulateExpr(p, fuel, fields, a, e, cur, s, t);
      var r, q := Eval(p, fuel, e, cur, s), Eval(p, fuel, Through(fields, e), cur, t);
      if r.Ok? { SimulateFieldAssign(fields, a, o, f, r.value, cur, r.st, q.st); }
    case ExprStmt(e) => SimulateExpr(p, fuel, fields, a, e, cur, s, t);
    case If(e, yes, no) =>
      SimulateExpr(p, fuel, fields, a, e, cur, s, t);
      var r, q := Eval(p, fuel, e, cur, s), Eval(p, fuel, Through(fields, e), cur, t);
      if r.Ok? {
        SimulateBlock(p, fuel, fields, a, yes, cur, r.st, q.st);
        SimulateBlock(p, fuel, fields, a, no, cur, r.st, q.st);
      }
    case Transition(_, es) => SimulateList(p, fuel, fields, a, es, cur, s, t);
    case Terminal =>
  }

  lemma {:induction false} SimulateBlock(p: Program, fuel: nat, fields: set<Name>, a: nat, ss: seq<Stmt>, cur: nat,
                                         s: State, t: State)
    requires Related(fields, a, cur, s, t) && PlainBlock(fields, ss)
    ensures RelatedResults(fields, a, cur, ExecBlock(p, fuel, ss, cur, s),
                           ExecBlock(p, fuel, ThroughBlock(fields, ss), cur, t))
    decreases ss, 0
  {
    if ss != [] {
      SimulateStmt(p, fuel, fields, a, ss[0], cur, s, t);
      assert ThroughBlock(fields, ss)[1..] == ThroughBlock(fields, ss[1..]);
      var r, q := Exec(p, fuel, ss[0], cur, s), Exec(p, fuel, ThroughStmt(fields, ss[0]), cur, t);
      if r.Ok? { SimulateBlock(p, fuel, fields, a, ss[1..], cur, r.st, q.st); }
    }
  }

  // ---------------------------------------------------------------------
  // Parameters, outputs and the final synchronisation
  // ---------------------------------------------------------------------

  lemma {:induction false} SimulateInputs(p: Program, fuel: nat, fields: set<Name>, a: nat, ps: seq<Param>,
                                          args: seq<Value>, cur: nat, s: State, t: State)
    requires Related(fields, a, cur, s, t) && PlainParams(fields, ps)
    ensures RelatedResults(fields, a, cur, BindInputs(p, fuel, ps, args, cur, s),
                           BindInputs(p, fuel, ThroughParams(fields, ps), args, cur, t))
    decreases |ps|
  {
    if ps != [] {
      assert ThroughParams(fields, ps)[1..] == ThroughParams(fields, ps[1..]);
      var x := ps[0].name;
      if args != [] {
        RelatedSetVar(fields, a, cur, s, t, x, args[0]);
        SimulateInputs(p, fuel, fields, a, ps[1..], args[1..], cur, SetVar(s, cur, x, args[0]),
                       SetVar(t, cur, x, args[0]));
      } else if ps[0].default.Some? {
        var e := ps[0].default.value;
        SimulateExpr(p, fuel, fields, a, e, cur, s, t);
        var r, q := Eval(p, fuel, e, cur, s), Eval(p, fuel, Through(fields, e), cur, t);
        if r.Ok? {
          RelatedSetVar(fields, a, cur, r.st, q.st, x, r.value);
          SimulateInputs(p, fuel, fields, a, ps[1..], [], cur, SetVar(r.st, cur, x, r.value),
                         SetVar(q.st, cur, x, r.value));
        }
      }
    }
  }

  // The fields of a fresh instance, which is not the receiver.
  lemma {:induction false} SimulateInitFields(p: Program, fuel: nat, fields: set<Name>, a: nat, ds: seq<VarDeclaration>,
                                              b: nat, cur: nat, s: State, t: State)
    requires Related(fields, a, cur, s, t) && PlainInitialisers(fields, ds) && b != a
    ensures RelatedResults(fields, a, cur, InitFields(p, fuel, ds, b, false, cur, s),
                           InitFields(p, fuel, ds, b, false, cur, t))
    decreases |ds|
  {
    if ds != [] {
      match ds[0].init
      case Some(e) =>
        SimulateExpr(p, fuel, fields, a, e, cur, s, t);
        assert Through(fields, e) == e by { assert ThroughOption(fields, ds[0].init) == ds[0].init; }
        var r, q := Eval(p, fuel, e, cur, s), Eval(p, fuel, e, cur, t);
        if r.Ok? {
          SimulateInitFields(p, fuel, fields, a, ds[1..], b, cur,
                             r.st.(heap := WriteField(r.st.heap, b, ds[0].name, r.value)),
                             q.st.(heap := WriteField(q.st.heap, b, ds[0].name, r.value)));
        }
      case None =>
        var v := PrimitiveDefault(ds[0].ty);
        SimulateInitFields(p, fuel, fields, a, ds[1..], b, cur, s.(heap := WriteField(s.heap, b, ds[0].name, v)),
                           t.(heap := WriteField(t.heap, b, ds[0].name, v)));
    }
  }

  lemma {:induction false} SimulateOutputs(p: Program, fuel: nat, fields: set<Name>, a: nat, ps: seq<Param>, cur: nat,
                                           s: State, t: State)
    requires Related(fields, a, cur, s, t) && PlainOutputs(p, fields, ps)
    ensures RelatedResults(fields, a, cur, InitOutputs(p, fuel, ps, cur, s),
                           InitOutputs(p, fuel, ThroughParams(fields, ps), cur, t))
    decreases |ps|
  {
    if ps != [] {
      assert ThroughParams(fields, ps)[1..] == ThroughParams(fields, ps[1..]);
      var out := ps[0];
      if out.ty.StructType? {
        var b := |s.heap|;
        var o := Instance(out.ty.name, map[], false);
        var ds := match LookupStruct(p, out.ty.name) case Some(d) => d.fields case None => [];
        var s0, t0 := s.(heap := s.heap + [o]), t.(heap := t.heap + [o]);
        RelatedAlloc(fields, a, cur, s, t, o);
        SimulateInitFields(p, fuel, fields, a, ds, b, cur, s0, t0);
        var r, q := InitFields(p, fuel, ds, b, false, cur, s0), InitFields(p, fuel, ds, b, false, cur, t0);
        if r.Ok? {
          RelatedSetVar(fields, a, cur, r.st, q.st, out.name, StructV(b));
          SimulateOutputs(p, fuel, fields, a, ps[1..], cur, SetVar(r.st, cur, out.name, StructV(b)),
                          SetVar(q.st, cur, out.name, StructV(b)));
        }
      } else if out.default.Some? {
        var e := out.default.value;
        SimulateExpr(p, fuel, fields, a, e, cur, s, t);
        var r, q := Eval(p, fuel, e, cur, s), Eval(p, fuel, Through(fields, e), cur, t);
        if r.Ok? {
          RelatedSetVar(fields, a, cur, r.st, q.st, out.name, r.value);
          SimulateOutputs(p, fuel, fields, a, ps[1..], cur, SetVar(r.st, cur, out.name, r.value),
                          SetVar(q.st, cur, out.name, r.value));
        }
      } else {
        SimulateOutputs(p, fuel, fields, a, ps[1..], cur, s, t);
      }
    }
  }

  // Copying in the fields of an instance that holds them all evaluates nothing.
  lemma {:induction false} FlattenCopies(p: Program, fuel: nat, ds: seq<VarDeclaration>, a: nat, cur: nat, st: State)
    requires cur < |st.envs| && Holds(st.heap, a, VariableNames(ds))
    ensures var r := FlattenFields(p, fuel, ds, a, cur, st);
            && r.Ok? && r.st.heap == st.heap && Extends(st.envs, cur, r.st.envs)
            && r.st.envs[cur].Keys == st.envs[cur].Keys + VariableNames(ds)
            && forall x :: x in r.st.envs[cur] ==>
                 r.st.envs[cur][x] == if x in VariableNames(ds) then st.heap[a].fields[x] else st.envs[cur][x]
    decreases |ds|
  {
    if ds != [] {
      VariableNamesSplit(ds);
      assert ds[0].name in VariableNames(ds);
      FlattenCopies(p, fuel, ds[1..], a, cur, SetVar(st, cur, ds[0].name, st.heap[a].fields[ds[0].name]));
    }
  }

  // If the copies are true, both halves of the synchronisation change nothing.
  lemma {:induction false} SyncIsIdentity(ds: seq<VarDeclaration>, a: nat, env: Env, heap: Heap)
    requires Holds(heap, a, VariableNames(ds))
    requires forall f :: f in VariableNames(ds) ==> f in env && env[f] == heap[a].fields[f]
    ensures SyncFromInstance(ds, heap[a].fields, env) == env
    ensures SyncToInstance(ds, env, a, heap) == heap
    decreases |ds|
  {
    if ds != [] {
      VariableNamesSplit(ds);
      var f := ds[0].name;
      assert f in VariableNames(ds);
      assert env[f := heap[a].fields[f]] == env;
      assert WriteField(heap, a, f, env[f]) == heap by {
        assert heap[a].fields[f := env[f]] == heap[a].fields;
      }
      SyncIsIdentity(ds[1..], a, env, heap);
    }
  }

  // The first half makes every copy true, whatever it was.
  lemma {:induction false} SyncMakesCopiesTrue(ds: seq<VarDeclaration>, instance: map<Name, Value>, env: Env)
    requires VariableNames(ds) <= instance.Keys
    ensures var r := SyncFromInstance(ds, instance, env);
            && r.Keys == env.Keys + VariableNames(ds)
            && forall x :: x in r ==> r[x] == if x in VariableNames(ds) then instance[x] else env[x]
    decreases |ds|
  {
    if ds != [] {
      VariableNamesSplit(ds);
      assert ds[0].name in VariableNames(ds);
      SyncMakesCopiesTrue(ds[1..], instance, env[ds[0].name := instance[ds[0].name]]);
    }
  }

  // The second half stores every copy that exists in the receiver, and nothing else.
  lemma {:induction false} SyncStoresCopies(ds: seq<VarDeclaration>, env: Env, a: nat, heap: Heap)
    requires IsInstance(heap, a)
    ensures var heap' := SyncToInstance(ds, env, a, heap); var copied := VariableNames(ds) * env.Keys;
            && |heap'| == |heap| && IsInstance(heap', a)
            && (forall b :: 0 <= b < |heap| && b != a ==> heap'[b] == heap[b])
            && heap'[a].typeName == heap[a].typeName && heap'[a].native == heap[a].native
            && heap'[a].fields.Keys == heap[a].fields.Keys + copied
            && forall f :: f in heap'[a].fields ==>
                 heap'[a].fields[f] == if f in copied then env[f] else heap[a].fields[f]
    decreases |ds|
  {
    if ds != [] {
      var f := ds[0].name;
      VariableNamesSplit(ds);
      SyncStoresCopies(ds[1..], env, a, if f in env then WriteField(heap, a, f, env[f]) else heap);
    }
  }

  // So the second half never changes a receiver that holds all fields: what a body
  // writes to a copy alone is lost.
  lemma SyncKeepsReceiver(ds: seq<VarDeclaration>, a: nat, env: Env, heap: Heap)
    requires Holds(heap, a, VariableNames(ds))
    ensures SyncToInstance(ds, SyncFromInstance(ds, heap[a].fields, env), a, heap) == heap
  {
    SyncMakesCopiesTrue(ds, heap[a].fields, env);
    SyncIsIdentity(ds, a, SyncFromInstance(ds, heap[a].fields, env), heap);
  }

  lemma LeavingKeepsHeap(ds: seq<VarDeclaration>, a: nat, outputs: seq<Param>, cur: nat, st: State)
    requires cur < |st.envs| && Holds(st.heap, a, VariableNames(ds))
    ensures var r := FinishRoutine(ds, a, outputs, cur, st); !r.OutOfFuel? && r.st.heap == st.heap
  {
    SyncKeepsReceiver(ds, a, st.envs[cur], st.heap);
  }

  lemma {:induction false} CollectIgnoresFields(ps: seq<Param>, fields: set<Name>, env: Env)
    requires forall i :: 0 <= i < |ps| ==> ps[i].name !in fields
    ensures Collect(ps, env - fields) == Collect(ps, env)
    decreases |ps|
  {
    if ps != [] { CollectIgnoresFields(ps[1..], fields, env); }
  }

  lemma SimulateFinish(fields: set<Name>, ds: seq<VarDeclaration>, a: nat, outputs: seq<Param>, cur: nat, s: State,
                       t: State)
    requires fields == VariableNames(ds) && Related(fields, a, cur, s, t) && PlainParams(fields, outputs)
    ensures var r := FinishRoutine(ds, a, outputs, cur, s);
            && !r.OutOfFuel? && r.st == s
            && (Collect(outputs, t.envs[cur]).1.None? ==> r == Ok(Collect(outputs, t.envs[cur]).0, s))
            && (Collect(outputs, t.envs[cur]).1.Some? ==>
                r == Throw(RoutineOutputNotSet(Collect(outputs, t.envs[cur]).1.value), s))
  {
    SyncIsIdentity(ds, a, s.envs[cur], s.heap);
    assert s.envs[cur := s.envs[cur]] == s.envs;
    assert t.envs[cur] == s.envs[cur] - fields;
    CollectIgnoresFields(outputs, fields, s.envs[cur]);
  }

  // The outcome of a routine as its caller sees it: results or error, and heap.
  ghost predicate SameOutcome<T>(r: Res<T>, q: Res<T>) {
    match r
    case Ok(v, s) => q.Ok? && q.value == v && q.st.heap == s.heap
    case Throw(e, s) => q.Throw? && q.error == e && q.st.heap == s.heap
    case OutOfFuel => q.OutOfFuel?
  }

  // Entering the routine relates the two environments.
  lemma SimulateEntry(p: Program, fuel: nat, a: nat, decl: StructDecl, routine: Routine, args: seq<Value>, st: State)
    requires PlainRoutine(p, VariableNames(decl.fields), routine)
    requires Holds(st.heap, a, VariableNames(decl.fields))
    ensures var pushed := st.(envs := st.envs + [map["this" := StructV(a)]]);
            RelatedResults(VariableNames(decl.fields), a, |st.envs|,
                           RoutineEntry(p, fuel, a, decl, routine, args, pushed),
                           UnflattenedEntry(p, fuel, VariableNames(decl.fields), routine, args, pushed))
  {
    var fields, cur := VariableNames(decl.fields), |st.envs|;
    var t := st.(envs := st.envs + [map["this" := StructV(a)]]);
    FlattenCopies(p, fuel, decl.fields, a, cur, t);
    var s := FlattenFields(p, fuel, decl.fields, a, cur, t).st;
    assert s.envs[cur] - fields == t.envs[cur];
    assert t.envs == s.envs[cur := s.envs[cur] - fields];
    assert Related(fields, a, cur, s, t);
    SimulateInputs(p, fuel, fields, a, routine.inputs, args, cur, s, t);
    var r, q := BindInputs(p, fuel, routine.inputs, args, cur, s),
                BindInputs(p, fuel, ThroughParams(fields, routine.inputs), args, cur, t);
    if r.Ok? { SimulateOutputs(p, fuel, fields, a, routine.outputs, cur, r.st, q.st); }
  }

  // For a receiver that holds all declared fields, the routine with flat copies
  // and the routine that reads fields through "this" have the same outcome.
  lemma FlatteningPreservesMeaning(p: Program, fuel: nat, a: nat, decl: StructDecl, routine: Routine, args: seq<Value>,
                                   st: State)
    requires PlainRoutine(p, VariableNames(decl.fields), routine)
    requires Holds(st.heap, a, VariableNames(decl.fields))
    ensures var pushed := st.(envs := st.envs + [map["this" := StructV(a)]]);
            SameOutcome(RoutineBody(p, fuel, a, decl, routine, args, pushed),
                        UnflattenedBody(p, fuel, VariableNames(decl.fields), routine, args, pushed))
  {
    var fields, cur := VariableNames(decl.fields), |st.envs|;
    var pushed := st.(envs := st.envs + [map["this" := StructV(a)]]);
    SimulateEntry(p, fuel, a, decl, routine, args, st);
    var r1, q1 := RoutineEntry(p, fuel, a, decl, routine, args, pushed),
                  UnflattenedEntry(p, fuel, fields, routine, args, pushed);
    if r1.Ok? {
      SimulateBlock(p, fuel, fields, a, routine.body, cur, r1.st, q1.st);
      var r2, q2 := ExecBlock(p, fuel, routine.body, cur, r1.st),
                    ExecBlock(p, fuel, ThroughBlock(fields, routine.body), cur, q1.st);
      if r2.Ok? { SimulateFinish(fields, decl.fields, a, routine.outputs, cur, r2.st, q2.st); }
    }
  }

  // ---------------------------------------------------------------------
  // Exactly when a write makes a copy diverge
  // ---------------------------------------------------------------------

  // The synchronisation of a field assignment goes by the field's name only.  When
  // the assigned object is some instance b, the copies stay true if and only if b
  // is the receiver or the value is the one the receiver already has.
  lemma AssignmentKeepsCopies(fields: set<Name>, a: nat, o: Name, b: nat, f: Name, v: Value, cur: nat, s: State,
                              t: State)
    requires Related(fields, a, cur, s, t) && f in fields
    requires Local(fields, o) || o == "this"
    requires o in s.envs[cur] && s.envs[cur][o] == StructV(b) && IsInstance(s.heap, b)
    ensures var r, q := Written(Var(o), f, v, cur, s), Written(Var(o), f, v, cur, t);
            r.Ok? && q.Ok? && (Related(fields, a, cur, r.st, q.st) <==> b == a || v == s.heap[a].fields[f])
  {
    assert t.envs[cur] == s.envs[cur] - fields && o in t.envs[cur] && f !in t.envs[cur];
    var r, q := Written(Var(o), f, v, cur, s), Written(Var(o), f, v, cur, t);
    assert s.envs[cur][f := v] - fields == s.envs[cur] - fields;
    assert r.st.envs == s.envs[cur := s.envs[cur][f := v]] && q.st.envs == t.envs;
  }

  // A bare field name as a plain assignment target writes the copy alone: the copies
  // stay true if and only if the value is the one the receiver has.
  lemma BareWriteKeepsCopies(fields: set<Name>, a: nat, f: Name, v: Value, cur: nat, s: State, t: State)
    requires Related(fields, a, cur, s, t) && f in fields
    ensures Related(fields, a, cur, SetVar(s, cur, f, v), t) <==> v == s.heap[a].fields[f]
  {
    var s' := SetVar(s, cur, f, v);
    assert s'.envs[cur] - fields == s.envs[cur] - fields;
    assert s'.envs[cur := s'.envs[cur] - fields] == s.envs[cur := s.envs[cur] - fields];
    assert s'.envs[cur][f] == v;
  }

  // A field that is one of several assignment targets is not synchronised at all:
  // the copies stay true if and only if the receiver's field keeps its value.
  lemma TupleTargetKeepsCopies(fields: set<Name>, a: nat, o: Name, b: nat, f: Name, v: Value, cur: nat, s: State,
                               t: State)
    requires Related(fields, a, cur, s, t) && f in fields
    requires Local(fields, o) || o == "this"
    requires o in s.envs[cur] && s.envs[cur][o] == StructV(b) && IsInstance(s.heap, b)
    ensures var r, q := StoreField(Var(o), f, v, cur, s), StoreField(Var(o), f, v, cur, t);
            r.Ok? && q.Ok? && (Related(fields, a, cur, r.st, q.st) <==> b != a || v == s.heap[a].fields[f])
  {
    assert t.envs[cur] == s.envs[cur] - fields && o in t.envs[cur];
  }
}
