// How expressions relate to one another: what their written form does not show.
module Expressions {
  import opened Prelude
  import opened Ast
  import opened Semantics

  // ---------------------------------------------------------------------
  // Logical operators
  // ---------------------------------------------------------------------

  // The left operand alone settles the result.
  predicate Decides(op: BinaryOp, left: Value) {
    (op.And? && left == BoolV(false)) || (op.Or? && left == BoolV(true))
  }

  // The usual meaning of a logical operator: the right operand is left alone when
  // the left one decides.
  function ShortCircuit(p: Program, fuel: nat, op: BinaryOp, l: Expr, r: Expr, cur: nat, st: State): Res<Value>
    requires cur < |st.envs|
  {
    var (left, st1) :- Eval(p, fuel, l, cur, st);
    if Decides(op, left) then Ok(left, st1) else Combine(op, left, Eval(p, fuel, r, cur, st1))
  }

  function Combine(op: BinaryOp, left: Value, right: Res<Value>): Res<Value> {
    var (v, st) :- right;
    match ApplyBinary(op, left, v)
    case Some(result) => Ok(result, st)
    case None => Throw(Fault("incompatible binary operator"), st)
  }

  lemma BinaryCombines(p: Program, fuel: nat, op: BinaryOp, l: Expr, r: Expr, cur: nat, st: State)
    requires cur < |st.envs| && Eval(p, fuel, l, cur, st).Ok?
    ensures var left := Eval(p, fuel, l, cur, st);
            Eval(p, fuel, Binary(op, l, r), cur, st) == Combine(op, left.value, Eval(p, fuel, r, cur, left.st))
  {
  }

  lemma DecidedAnyway(op: BinaryOp, left: Value, right: Res<Value>)
    requires (op.And? || op.Or?) && Decides(op, left)
    ensures right.Ok? ==> Combine(op, left, right) == Ok(left, right.st)
    ensures !right.Ok? ==> Combine(op, left, right) == right
  {
  }

  // Both operands are evaluated: an error of the right one is raised even when the
  // left one decides, and the operator has its usual meaning if and only if in that
  // case the right operand returns and changes nothing.
  lemma LogicalOperatorsEvaluateBoth(p: Program, fuel: nat, op: BinaryOp, l: Expr, r: Expr, cur: nat, st: State)
    requires cur < |st.envs| && (op.And? || op.Or?) && Eval(p, fuel, l, cur, st).Ok?
    ensures var left := Eval(p, fuel, l, cur, st);
            var right := Eval(p, fuel, r, cur, left.st);
            var both := Eval(p, fuel, Binary(op, l, r), cur, st);
            && (right.Throw? ==> both == right)
            && (right.Ok? ==> both.st == right.st)
            && (both == ShortCircuit(p, fuel, op, l, r, cur, st)
                <==> (Decides(op, left.value) ==> right.Ok? && right.st == left.st))
  {
    var left := Eval(p, fuel, l, cur, st);
    var right := Eval(p, fuel, r, cur, left.st);
    BinaryCombines(p, fuel, op, l, r, cur, st);
    if Decides(op, left.value) { DecidedAnyway(op, left.value, right); }
  }

  // ---------------------------------------------------------------------
  // Receivers of method calls
  // ---------------------------------------------------------------------

  // A receiver that names a struct, as it would with no variables in scope, means the
  // type if and only if no variable has that name, with or without its module; else the
  // method is called on the variable.
  lemma TypeIsCalledUnlessShadowed(p: Program, fuel: nat, n: Name, m: Name, args: seq<Expr>, cur: nat, st: State)
    requires cur < |st.envs| && StaticReceiver(p, Var(n), map[]).Some?
    ensures var env, call := st.envs[cur], Eval(p, fuel, MethodCall(Var(n), m, args), cur, st);
            if n in env then call == EvalReceiverCall(p, fuel, env[n], m, args, cur, st)
            else if StripModule(n) in env then call == EvalReceiverCall(p, fuel, env[StripModule(n)], m, args, cur, st)
            else call == EvalStaticCall(p, fuel, StaticReceiver(p, Var(n), map[]).value, m, args, cur, st)
  {
    var env := st.envs[cur];
    if n in env || StripModule(n) in env {
      assert StaticReceiver(p, Var(n), env).None?;
      assert Eval(p, fuel, Var(n), cur, st) == Ok(if n in env then env[n] else env[StripModule(n)], st);
    } else {
      assert StaticReceiver(p, Var(n), env) == StaticReceiver(p, Var(n), map[]);
    }
    assert Eval(p, fuel, MethodCall(Var(n), m, args), cur, st) == EvalMethodCall(p, fuel, Var(n), m, args, cur, st);
  }

  // ---------------------------------------------------------------------
  // Indexing
  // ---------------------------------------------------------------------

  // The routine GetIndex that indexing the value at a would run.
  function IndexRoutine(p: Program, heap: Heap, v: Value): Option<(StructDecl, Routine)> {
    if !v.StructV? || !IsInstance(heap, v.addr) then None
    else
      match LookupStruct(p, heap[v.addr].typeName)
      case None => None
      case Some(decl) =>
        match FindRoutine(decl.routines, "GetIndex")
        case None => None
        case Some(routine) => Some((decl, routine))
  }

  // For a struct that defines GetIndex, indexing is the method call of that name, as
  // long as evaluating the index does not replace the routine.
  lemma IndexIsGetIndexCall(p: Program, fuel: nat, o: Expr, i: Expr, cur: nat, st: State)
    requires cur < |st.envs| && StaticReceiver(p, o, st.envs[cur]).None? && Eval(p, fuel, o, cur, st).Ok?
    requires var target := Eval(p, fuel, o, cur, st);
             && IndexRoutine(p, target.st.heap, target.value).Some?
             && var index := Eval(p, fuel, i, cur, target.st);
                index.Ok? ==>
                  IndexRoutine(p, index.st.heap, target.value) == IndexRoutine(p, target.st.heap, target.value)
    ensures Eval(p, fuel, Index(o, i), cur, st) == Eval(p, fuel, MethodCall(o, "GetIndex", [i]), cur, st)
  {
    var target := Eval(p, fuel, o, cur, st);
    CallOfGetIndex(p, fuel, target.value, i, cur, target.st);
  }

  lemma CallOfGetIndex(p: Program, fuel: nat, v: Value, i: Expr, cur: nat, st: State)
    requires cur < |st.envs| && IndexRoutine(p, st.heap, v).Some?
    requires var index := Eval(p, fuel, i, cur, st);
             index.Ok? ==> IndexRoutine(p, index.st.heap, v) == IndexRoutine(p, st.heap, v)
    ensures var index := Eval(p, fuel, i, cur, st);
            EvalReceiverCall(p, fuel, v, "GetIndex", [i], cur, st)
            == match index
               case Ok(x, s) => if fuel == 0 then OutOfFuel else EvalIndex(p, fuel - 1, v, x, s)
               case _ => index
  {
    var index := Eval(p, fuel, i, cur, st);
    assert [i][1..] == [];
    if index.Ok? {
      assert [index.value] + [] == [index.value];
      assert EvalList(p, fuel, [i], cur, st) == Ok([index.value], index.st);
    }
  }
}
