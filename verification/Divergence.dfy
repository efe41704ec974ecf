// Routines whose results depend on whether fields are copied: the copies can differ
// from the instance while the body runs, and the body sees it.
module Divergence {
  import opened Prelude
  import opened Ast
  import opened Semantics
  import opened Flattening

  const F: Name := "f"
  const FIELDS: seq<VarDeclaration> := [VarDeclaration(IntType, F, None)]
  const OUT: Param := Param(IntType, "out", None)
  const RETURN_FIELD: Stmt := Assign([VarTarget("out")], Var(F))
  const OWNER: StructDecl := StructDecl("S", [], FIELDS, [])

  // A routine with one input that runs one statement and then returns the field.
  function Returning(input: Name, first: Stmt): Routine {
    Routine("r", [Param(IntType, input, None)], [OUT], [first, RETURN_FIELD])
  }

  // other.f = l; out = f;
  function AssignOther(l: Literal): Routine {
    Returning("other", FieldAssign(Var("other"), F, Lit(l)))
  }

  // In an else branch: if (false) {} else { ... }.
  function InElse(body: seq<Stmt>): Stmt {
    If(Lit(BoolLit(false)), [], body)
  }

  // { f = v; }, where a plain assignment is not turned into one through "this".
  const BARE: Stmt := InElse([Assign([VarTarget(F)], Var("v"))])

  // { this.f = v; }
  const MEANT: Stmt := InElse([FieldAssign(Var("this"), F, Var("v"))])

  // { int x; this.f, x = pair; }
  const DECLARE: Stmt := VarDecl(VarDeclaration(IntType, "x", None))
  const ASSIGN_BOTH: Stmt := Assign([FieldTarget(Var("this"), F), VarTarget("x")], Var("pair"))
  const PAIR: Stmt := InElse([DECLARE, ASSIGN_BOTH])

  function Pushed(st: State, a: nat): State {
    st.(envs := st.envs + [map["this" := StructV(a)]])
  }

  // The environments in which the two bodies start.
  function Entered(st: State, a: nat, input: Name, arg: Value): State {
    st.(envs := st.envs + [map["this" := StructV(a)][input := arg]])
  }

  function EnteredFlat(st: State, a: nat, input: Name, arg: Value): State
    requires Holds(st.heap, a, {F})
  {
    st.(envs := st.envs + [map["this" := StructV(a)][F := st.heap[a].fields[F]][input := arg]])
  }

  lemma FieldNames()
    ensures VariableNames(FIELDS) == {F}
  {
    assert FIELDS[0].name == F;
  }

  lemma EntriesOf(p: Program, fuel: nat, a: nat, input: Name, first: Stmt, arg: Value, st: State)
    requires Holds(st.heap, a, {F})
    ensures var r := Returning(input, first);
            && RoutineEntry(p, fuel, a, OWNER, r, [arg], Pushed(st, a)) == Ok((), EnteredFlat(st, a, input, arg))
            && UnflattenedEntry(p, fuel, {F}, r, [arg], Pushed(st, a)) == Ok((), Entered(st, a, input, arg))
  {
    var cur, t := |st.envs|, Pushed(st, a);
    var flat := SetVar(t, cur, F, st.heap[a].fields[F]);
    assert FIELDS[1..] == [];
    assert FlattenFields(p, fuel, FIELDS, a, cur, t) == Ok((), flat);
    OneInput(p, fuel, input, arg, cur, flat);
    OneInput(p, fuel, input, arg, cur, t);
    var ps := [Param(IntType, input, None)];
    assert ThroughParams({F}, ps) == ps && ThroughParams({F}, [OUT]) == [OUT];
    assert SetVar(flat, cur, input, arg) == EnteredFlat(st, a, input, arg);
    assert SetVar(t, cur, input, arg) == Entered(st, a, input, arg);
  }

  lemma OneInput(p: Program, fuel: nat, input: Name, arg: Value, cur: nat, st: State)
    requires cur < |st.envs|
    ensures BindInputs(p, fuel, [Param(IntType, input, None)], [arg], cur, st) == Ok((), SetVar(st, cur, input, arg))
    ensures InitOutputs(p, fuel, [OUT], cur, SetVar(st, cur, input, arg)) == Ok((), SetVar(st, cur, input, arg))
  {
    assert [Param(IntType, input, None)][1..] == [] && [arg][1..] == [] && [OUT][1..] == [];
  }

  // The two bodies, once the first statement has been run in each of them.
  lemma FlatResult(p: Program, fuel: nat, a: nat, input: Name, first: Stmt, arg: Value, st: State, s: State)
    requires Holds(st.heap, a, {F}) && |s.envs| == |st.envs| + 1 && F in s.envs[|st.envs|]
    requires Exec(p, fuel, first, |st.envs|, EnteredFlat(st, a, input, arg)) == Ok(Next, s)
    ensures var flat := RoutineBody(p, fuel, a, OWNER, Returning(input, first), [arg], Pushed(st, a));
            && flat.Ok? && flat.value == [s.envs[|st.envs|][F]]
            && (Holds(s.heap, a, {F}) ==> flat.st.heap == s.heap)
  {
    FieldNames();
    EntriesOf(p, fuel, a, input, first, arg, st);
    ReturnsFlat(p, fuel, a, first, |st.envs|, EnteredFlat(st, a, input, arg), s);
  }

  lemma PlainResult(p: Program, fuel: nat, a: nat, input: Name, first: Stmt, arg: Value, st: State, t: State)
    requires Holds(st.heap, a, {F}) && |t.envs| == |st.envs| + 1 && Holds(t.heap, a, {F})
    requires Exec(p, fuel, ThroughStmt({F}, first), |st.envs|, Entered(st, a, input, arg)) == Ok(Next, t)
    requires "this" in t.envs[|st.envs|] && t.envs[|st.envs|]["this"] == StructV(a)
    ensures var plain := UnflattenedBody(p, fuel, {F}, Returning(input, first), [arg], Pushed(st, a));
            plain.Ok? && plain.value == [t.heap[a].fields[F]]
  {
    EntriesOf(p, fuel, a, input, first, arg, st);
    ReturnsThrough(p, fuel, a, first, |st.envs|, Entered(st, a, input, arg), t);
  }

  lemma ReturnsFlat(p: Program, fuel: nat, a: nat, first: Stmt, cur: nat, st: State, s: State)
    requires cur < |st.envs| && cur < |s.envs| && Exec(p, fuel, first, cur, st) == Ok(Next, s) && F in s.envs[cur]
    ensures var r := ExecBlock(p, fuel, [first, RETURN_FIELD], cur, st);
            && r == Ok(Next, SetVar(s, cur, "out", s.envs[cur][F]))
            && var q := FinishRoutine(FIELDS, a, [OUT], cur, r.st);
               && q.Ok? && q.value == [s.envs[cur][F]]
               && (Holds(s.heap, a, {F}) ==> q.st.heap == s.heap)
  {
    var done := SetVar(s, cur, "out", s.envs[cur][F]);
    assert [first, RETURN_FIELD][1..] == [RETURN_FIELD] && [RETURN_FIELD][1..] == [] && FIELDS[1..] == [];
    assert Exec(p, fuel, RETURN_FIELD, cur, s) == Ok(Next, done);
    assert ExecBlock(p, fuel, [RETURN_FIELD], cur, s) == Ok(Next, done);
    var instance := if IsInstance(done.heap, a) then done.heap[a].fields else map[];
    var env := SyncFromInstance(FIELDS, instance, done.envs[cur]);
    OneSync(instance, done.envs[cur]);
    assert env["out"] == s.envs[cur][F];
    OneOutput(env);
    FieldNames();
    if Holds(s.heap, a, {F}) { LeavingKeepsHeap(FIELDS, a, [OUT], cur, done); }
  }

  lemma OneSync(instance: map<Name, Value>, env: Env)
    ensures SyncFromInstance(FIELDS, instance, env) == if F in instance then env[F := instance[F]] else env
    ensures F != "out"
  {
    assert FIELDS[1..] == [] && FIELDS[0].name == F;
    assert |F| != |"out"|;
  }

  lemma OneOutput(env: Env)
    requires "out" in env
    ensures Collect([OUT], env) == ([env["out"]], None)
  {
    assert [OUT][1..] == [];
    assert [env["out"]] + [] == [env["out"]];
  }

  lemma ReturnsThrough(p: Program, fuel: nat, a: nat, first: Stmt, cur: nat, st: State, t: State)
    requires cur < |st.envs| && cur < |t.envs| && Exec(p, fuel, ThroughStmt({F}, first), cur, st) == Ok(Next, t)
    requires Holds(t.heap, a, {F}) && "this" in t.envs[cur] && t.envs[cur]["this"] == StructV(a)
    ensures var r := ExecBlock(p, fuel, ThroughBlock({F}, [first, RETURN_FIELD]), cur, st);
            && r == Ok(Next, SetVar(t, cur, "out", t.heap[a].fields[F]))
            && Collect([OUT], r.st.envs[cur]) == ([t.heap[a].fields[F]], None)
  {
    var done := SetVar(t, cur, "out", t.heap[a].fields[F]);
    var second := Assign([VarTarget("out")], Member(Var("this"), F));
    assert [first, RETURN_FIELD][1..] == [RETURN_FIELD] && [RETURN_FIELD][1..] == [];
    assert [VarTarget("out")][1..] == [];
    assert ThroughTargets({F}, [VarTarget("out")]) == [VarTarget("out")];
    assert ThroughStmt({F}, RETURN_FIELD) == second;
    assert ThroughBlock({F}, [first, RETURN_FIELD]) == [ThroughStmt({F}, first)] + [second];
    assert ([ThroughStmt({F}, first)] + [second])[1..] == [second] && [second][1..] == [];
    assert t.(heap := t.heap) == t;
    assert Eval(p, fuel, Var("this"), cur, t) == Ok(StructV(a), t);
    assert Eval(p, fuel, Member(Var("this"), F), cur, t) == Ok(t.heap[a].fields[F], t);
    assert Exec(p, fuel, second, cur, t) == Ok(Next, done);
    assert ExecBlock(p, fuel, [second], cur, t) == Ok(Next, done);
    OneOutput(done.envs[cur]);
  }

  // A field of another object is assigned: the flat copy takes the value as well.
  // The results differ if and only if that object is not the receiver and the value
  // is not the one the receiver has.
  lemma AssigningOtherDiverges(p: Program, fuel: nat, a: nat, b: nat, l: Literal, st: State)
    requires Holds(st.heap, a, {F}) && Holds(st.heap, b, {F})
    ensures var flat, plain := RoutineBody(p, fuel, a, OWNER, AssignOther(l), [StructV(b)], Pushed(st, a)),
                               UnflattenedBody(p, fuel, VariableNames(OWNER.fields), AssignOther(l), [StructV(b)],
                                               Pushed(st, a));
            var v, u := LiteralValue(l), st.heap[a].fields[F];
            && flat.Ok? && flat.value == [v]
            && plain.Ok? && plain.value == [if b == a then v else u]
            && (flat.value != plain.value <==> b != a && v != u)
  {
    FieldNames();
    var cur, v := |st.envs|, LiteralValue(l);
    var s0, t0 := EnteredFlat(st, a, "other", StructV(b)), Entered(st, a, "other", StructV(b));
    var heap := WriteField(st.heap, b, F, v);
    var first := FieldAssign(Var("other"), F, Lit(l));
    var s := SetVar(s0.(heap := heap), cur, F, v);
    assert Exec(p, fuel, first, cur, s0) == Ok(Next, s);
    assert Exec(p, fuel, ThroughStmt({F}, first), cur, t0) == Ok(Next, t0.(heap := heap));
    FlatResult(p, fuel, a, "other", first, StructV(b), st, s);
    PlainResult(p, fuel, a, "other", first, StructV(b), st, t0.(heap := heap));
  }

  // An else branch runs as a block.
  lemma ElseRuns(p: Program, fuel: nat, body: seq<Stmt>, cur: nat, st: State)
    requires cur < |st.envs|
    ensures Exec(p, fuel, InElse(body), cur, st) == ExecBlock(p, fuel, body, cur, st)
    ensures Exec(p, fuel, ThroughStmt({F}, InElse(body)), cur, st)
            == ExecBlock(p, fuel, ThroughBlock({F}, body), cur, st)
  {
    var c := Lit(BoolLit(false));
    assert Eval(p, fuel, c, cur, st) == Ok(BoolV(false), st);
    assert ThroughStmt({F}, InElse(body)) == If(c, [], ThroughBlock({F}, body));
  }

  lemma OneStatement(p: Program, fuel: nat, s: Stmt, cur: nat, st: State)
    requires cur < |st.envs|
    ensures var r := Exec(p, fuel, s, cur, st); r.Ok? ==> ExecBlock(p, fuel, [s], cur, st) == r
    ensures ThroughBlock({F}, [s]) == [ThroughStmt({F}, s)]
  {
    assert [s][1..] == [];
  }

  // The bare write, in either body, and the write through "this".
  lemma WritesOf(p: Program, fuel: nat, cur: nat, a: nat, v: Value, st: State)
    requires cur < |st.envs| && "v" in st.envs[cur] && st.envs[cur]["v"] == v
    requires "this" in st.envs[cur] && st.envs[cur]["this"] == StructV(a) && IsInstance(st.heap, a)
    ensures Exec(p, fuel, BARE, cur, st) == Ok(Next, SetVar(st, cur, F, v))
    ensures Exec(p, fuel, ThroughStmt({F}, BARE), cur, st) == Ok(Next, SetVar(st, cur, F, v))
    ensures F in st.envs[cur] ==>
              Exec(p, fuel, MEANT, cur, st) == Ok(Next, SetVar(st.(heap := WriteField(st.heap, a, F, v)), cur, F, v))
  {
    var bare, meant := Assign([VarTarget(F)], Var("v")), FieldAssign(Var("this"), F, Var("v"));
    ElseRuns(p, fuel, [bare], cur, st);
    ElseRuns(p, fuel, [meant], cur, st);
    OneStatement(p, fuel, bare, cur, st);
    OneStatement(p, fuel, meant, cur, st);
    VIsNoField();
    assert [VarTarget(F)][1..] == [] && ThroughTargets({F}, [VarTarget(F)]) == [VarTarget(F)];
    assert ThroughStmt({F}, bare) == bare;
  }

  lemma VIsNoField()
    ensures "v" != F && "v" != "this" && F != "this"
  {
    assert "v"[0] == 'v' && F[0] == 'f' && "this"[0] == 't';
  }

  // In an else branch a write to a bare field name reaches the flat copy alone.  The
  // routine returns the value, as it does when the write goes through "this", but the
  // receiver never changes; without copies the routine returns the old value.  All this
  // makes a difference if and only if the value is a new one.
  lemma BareWriteIsLost(p: Program, fuel: nat, a: nat, v: Value, st: State)
    requires Holds(st.heap, a, {F})
    ensures var flat := RoutineBody(p, fuel, a, OWNER, Returning("v", BARE), [v], Pushed(st, a));
            var plain := UnflattenedBody(p, fuel, VariableNames(OWNER.fields), Returning("v", BARE), [v],
                                         Pushed(st, a));
            var meant := RoutineBody(p, fuel, a, OWNER, Returning("v", MEANT), [v], Pushed(st, a));
            var u := st.heap[a].fields[F];
            && flat.Ok? && flat.value == [v] && flat.st.heap == st.heap
            && plain.Ok? && plain.value == [u] && (flat.value != plain.value <==> v != u)
            && meant.Ok? && meant.value == [v] && meant.st.heap == WriteField(st.heap, a, F, v)
            && (meant.st.heap != flat.st.heap <==> v != u)
  {
    var cur, s, t := |st.envs|, EnteredFlat(st, a, "v", v), Entered(st, a, "v", v);
    FieldNames();
    VIsNoField();
    WritesOf(p, fuel, cur, a, v, s);
    WritesOf(p, fuel, cur, a, v, t);
    FlatResult(p, fuel, a, "v", BARE, v, st, SetVar(s, cur, F, v));
    PlainResult(p, fuel, a, "v", BARE, v, st, SetVar(t, cur, F, v));
    FlatResult(p, fuel, a, "v", MEANT, v, st, SetVar(s.(heap := WriteField(st.heap, a, F, v)), cur, F, v));
    WriteChangesHeap(st.heap, a, v);
  }

  lemma WriteChangesHeap(heap: Heap, a: nat, v: Value)
    requires Holds(heap, a, {F})
    ensures WriteField(heap, a, F, v) == heap <==> v == heap[a].fields[F]
  {
    var written := WriteField(heap, a, F, v);
    assert written[a].fields[F] == v;
    if v == heap[a].fields[F] {
      assert heap[a].fields[F := v] == heap[a].fields;
      assert written[a] == heap[a];
    }
  }

  // The receiver's field is one of two targets, as the syntax tree and the executor
  // allow: the flat copy keeps the old value.  The results differ if and only if the
  // value is a new one.
  lemma AssigningPairDiverges(p: Program, fuel: nat, a: nat, pair: nat, v: Value, w: Value, st: State)
    requires Holds(st.heap, a, {F}) && pair < |st.heap| && st.heap[pair] == Tuple([v, w])
    ensures var r := Returning("pair", PAIR);
            var flat, plain := RoutineBody(p, fuel, a, OWNER, r, [TupleV(pair)], Pushed(st, a)),
                               UnflattenedBody(p, fuel, VariableNames(OWNER.fields), r, [TupleV(pair)], Pushed(st, a));
            var u := st.heap[a].fields[F];
            && flat.Ok? && flat.value == [u]
            && plain.Ok? && plain.value == [v]
            && (flat.value != plain.value <==> v != u)
  {
    var cur := |st.envs|;
    var s0, t0 := EnteredFlat(st, a, "pair", TupleV(pair)), Entered(st, a, "pair", TupleV(pair));
    var heap := WriteField(st.heap, a, F, v);
    FieldNames();
    PairStored(p, fuel, a, pair, v, w, cur, s0);
    PairStored(p, fuel, a, pair, v, w, cur, t0);
    FlatResult(p, fuel, a, "pair", PAIR, TupleV(pair), st, AfterPair(s0, cur, heap, w));
    PlainResult(p, fuel, a, "pair", PAIR, TupleV(pair), st, AfterPair(t0, cur, heap, w));
  }

  function AfterPair(st: State, cur: nat, heap: Heap, w: Value): State
    requires cur < |st.envs|
  {
    SetVar(SetVar(st, cur, "x", IntV(0)).(heap := heap), cur, "x", w)
  }

  lemma PairStored(p: Program, fuel: nat, a: nat, pair: nat, v: Value, w: Value, cur: nat, st: State)
    requires cur < |st.envs| && IsInstance(st.heap, a) && pair < |st.heap| && st.heap[pair] == Tuple([v, w])
    requires "this" in st.envs[cur] && st.envs[cur]["this"] == StructV(a)
    requires "pair" in st.envs[cur] && st.envs[cur]["pair"] == TupleV(pair)
    ensures var r := Ok(Next, AfterPair(st, cur, WriteField(st.heap, a, F, v), w));
            Exec(p, fuel, PAIR, cur, st) == r && Exec(p, fuel, ThroughStmt({F}, PAIR), cur, st) == r
  {
    var declared := SetVar(st, cur, "x", IntV(0));
    XIsAnotherName();
    assert Exec(p, fuel, DECLARE, cur, st) == Ok(Next, declared);
    BothAssigned(p, fuel, a, pair, v, w, cur, declared);
    assert [DECLARE, ASSIGN_BOTH][1..] == [ASSIGN_BOTH];
    OneStatement(p, fuel, ASSIGN_BOTH, cur, declared);
    ElseRuns(p, fuel, [DECLARE, ASSIGN_BOTH], cur, st);
    PairIsUnchanged();
  }

  lemma XIsAnotherName()
    ensures "x" != "this" && "x" != "pair" && "x" != F && "pair" != F && "pair" != "this" && "this" != F
  {
    assert "x"[0] == 'x' && "this"[0] == 't' && "pair"[0] == 'p' && F[0] == 'f';
  }

  lemma PairIsUnchanged()
    ensures ThroughBlock({F}, [DECLARE, ASSIGN_BOTH]) == [DECLARE, ASSIGN_BOTH]
  {
    var targets := [FieldTarget(Var("this"), F), VarTarget("x")];
    XIsAnotherName();
    assert targets[1..] == [VarTarget("x")] && [VarTarget("x")][1..] == [];
    assert ThroughTargets({F}, [VarTarget("x")]) == [VarTarget("x")];
    assert ThroughTargets({F}, targets) == targets;
    assert [DECLARE, ASSIGN_BOTH][1..] == [ASSIGN_BOTH] && [ASSIGN_BOTH][1..] == [];
    assert ThroughBlock({F}, [ASSIGN_BOTH]) == [ASSIGN_BOTH];
  }

  lemma BothAssigned(p: Program, fuel: nat, a: nat, pair: nat, v: Value, w: Value, cur: nat, st: State)
    requires cur < |st.envs| && IsInstance(st.heap, a) && pair < |st.heap| && st.heap[pair] == Tuple([v, w])
    requires "this" in st.envs[cur] && st.envs[cur]["this"] == StructV(a)
    requires "pair" in st.envs[cur] && st.envs[cur]["pair"] == TupleV(pair)
    ensures Exec(p, fuel, ASSIGN_BOTH, cur, st)
            == Ok(Next, SetVar(st.(heap := WriteField(st.heap, a, F, v)), cur, "x", w))
  {
    var targets := [FieldTarget(Var("this"), F), VarTarget("x")];
    var st1 := st.(heap := WriteField(st.heap, a, F, v));
    assert targets[1..] == [VarTarget("x")] && [VarTarget("x")][1..] == [] && [v, w][1..] == [w] && [w][1..] == [];
    assert AssignTargets(p, fuel, [VarTarget("x")], [w], cur, st1) == Ok(Next, SetVar(st1, cur, "x", w));
    assert AssignTargets(p, fuel, targets, [v, w], cur, st) == Ok(Next, SetVar(st1, cur, "x", w));
  }
}
