// What operators compute, for all values of their operands.
module Operators {
  import opened Prelude
  import opened Ast
  import opened Semantics
  import opened Expressions

  // The operands return x and then y, and leave the state s.
  ghost predicate Operands(p: Program, fuel: nat, l: Expr, r: Expr, cur: nat, st: State, x: Value, y: Value, s: State)
  {
    && cur < |st.envs| && Eval(p, fuel, l, cur, st).Ok? && Eval(p, fuel, l, cur, st).value == x
    && Eval(p, fuel, r, cur, Eval(p, fuel, l, cur, st).st) == Ok(y, s)
  }

  // The value of an operator applied to the operands.
  function Result(p: Program, fuel: nat, op: BinaryOp, l: Expr, r: Expr, cur: nat, st: State): Option<Value>
    requires cur < |st.envs|
  {
    match Eval(p, fuel, Binary(op, l, r), cur, st)
    case Ok(v, _) => Some(v)
    case _ => None
  }

  // The operator returns without a further effect, or raises an error.
  lemma ResultOrError(p: Program, fuel: nat, op: BinaryOp, l: Expr, r: Expr, cur: nat, st: State, x: Value, y: Value,
                      s: State)
    requires Operands(p, fuel, l, r, cur, st, x, y, s)
    ensures var e := Eval(p, fuel, Binary(op, l, r), cur, st);
            !e.OutOfFuel? && e.st == s && Result(p, fuel, op, l, r, cur, st) == ApplyBinary(op, x, y)
  {
    BinaryCombines(p, fuel, op, l, r, cur, st);
  }

  lemma AllResults(p: Program, fuel: nat, l: Expr, r: Expr, cur: nat, st: State, x: Value, y: Value, s: State)
    requires Operands(p, fuel, l, r, cur, st, x, y, s)
    ensures forall op :: Result(p, fuel, op, l, r, cur, st) == ApplyBinary(op, x, y)
  {
    forall op ensures Result(p, fuel, op, l, r, cur, st) == ApplyBinary(op, x, y) {
      ResultOrError(p, fuel, op, l, r, cur, st, x, y, s);
    }
  }

  // Literals have the values they are written with.
  lemma LiteralsAreValues(p: Program, fuel: nat, cur: nat, st: State, i: int, x: real, b: bool, s: string)
    requires cur < |st.envs|
    ensures Eval(p, fuel, Lit(IntLit(i)), cur, st) == Ok(IntV(i), st)
    ensures Eval(p, fuel, Lit(FloatLit(x)), cur, st) == Ok(FloatV(x), st)
    ensures Eval(p, fuel, Lit(BoolLit(b)), cur, st) == Ok(BoolV(b), st)
    ensures Eval(p, fuel, Lit(StringLit(s)), cur, st) == Ok(StringV(s), st)
    ensures Eval(p, fuel, NilLit, cur, st) == Ok(NilV, st)
  {
  }

  // ---------------------------------------------------------------------
  // Integers
  // ---------------------------------------------------------------------

  function Absolute(x: int): nat {
    if x < 0 then -x else x
  }

  // q is a divided by b, truncated toward zero: what is left over is smaller than b
  // and has the sign of a.
  ghost predicate Truncated(a: int, b: int, q: int) {
    var m := a - q * b;
    Absolute(m) < Absolute(b) && (m == 0 || (m < 0 <==> a < 0))
  }

  // There is one truncated quotient only.
  lemma TruncatedIsUnique(a: int, b: int, q: int, q': int)
    requires b != 0 && Truncated(a, b, q) && Truncated(a, b, q')
    ensures q == q'
  {
    var m, m' := a - q * b, a - q' * b;
    assert m' - m == (q - q') * b;
    assert Absolute(m' - m) < Absolute(b);
    if q != q' { ProductIsLarge(q - q', b); }
  }

  lemma ProductIsLarge(k: int, b: int)
    requires k != 0
    ensures Absolute(k * b) >= Absolute(b)
  {
    var n, d := Absolute(k), Absolute(b);
    assert Absolute(k * b) == n * d by {
      if k < 0 { assert k * b == -(n * b); }
      if b < 0 { assert n * b == -(n * d); }
    }
    assert n * d == d + (n - 1) * d;
    NonNegative(n - 1, d);
  }

  lemma NonNegative(x: int, y: int)
    requires x >= 0 && y >= 0
    ensures x * y >= 0
  {
  }

  lemma QuotientIsTruncated(a: int, b: int)
    requires b != 0
    ensures Truncated(a, b, TruncatedDivide(a, b))
  {
    var k := Absolute(a) / Absolute(b);
    QuotientWith(a, b, k, k * Absolute(b), TruncatedDivide(a, b));
  }

  lemma QuotientWith(a: int, b: int, k: int, product: int, q: int)
    requires b != 0 && k == Absolute(a) / Absolute(b) && product == k * Absolute(b)
    requires q == if (a < 0) != (b < 0) then -k else k
    ensures Truncated(a, b, q)
  {
    DivisionWithRest(Absolute(a), Absolute(b), k, product);
    SignedProduct(a < 0, b, k, product, q);
    LeftOver(a, b, q, product);
  }

  lemma DivisionWithRest(n: nat, d: nat, k: int, product: int)
    requires d > 0 && k == n / d && product == k * d
    ensures 0 <= n - product < d
  {
  }

  lemma SignedProduct(negative: bool, b: int, k: int, product: int, q: int)
    requires product == k * Absolute(b) && q == if negative != (b < 0) then -k else k
    ensures q * b == if negative then -product else product
  {
    if b < 0 {
      assert k * -b == -(k * b) && (-k) * b == -(k * b);
    } else {
      assert (-k) * b == -(k * b);
    }
  }

  lemma LeftOver(a: int, b: int, q: int, product: int)
    requires b != 0 && q * b == (if a < 0 then -product else product)
    requires 0 <= Absolute(a) - product < Absolute(b)
    ensures Truncated(a, b, q)
  {
  }

  lemma IntegerArithmetic(p: Program, fuel: nat, l: Expr, r: Expr, cur: nat, st: State, a: int, b: int, s: State)
    requires Operands(p, fuel, l, r, cur, st, IntV(a), IntV(b), s)
    ensures Result(p, fuel, Add, l, r, cur, st) == Some(IntV(a + b))
    ensures var d := Result(p, fuel, Sub, l, r, cur, st); d.Some? && d.value.IntV? && d.value.i + b == a
    ensures Result(p, fuel, Mul, l, r, cur, st) == Some(IntV(a * b))
    ensures b == 0 ==> Result(p, fuel, Div, l, r, cur, st) == None
    ensures b != 0 ==>
              var q := Result(p, fuel, Div, l, r, cur, st); q.Some? && q.value.IntV? && Truncated(a, b, q.value.i)
  {
    AllResults(p, fuel, l, r, cur, st, IntV(a), IntV(b), s);
    if b != 0 { QuotientIsTruncated(a, b); }
  }

  lemma IntegerComparison(p: Program, fuel: nat, l: Expr, r: Expr, cur: nat, st: State, a: int, b: int, s: State)
    requires Operands(p, fuel, l, r, cur, st, IntV(a), IntV(b), s)
    ensures Result(p, fuel, Lt, l, r, cur, st) == Some(BoolV(a < b))
    ensures Result(p, fuel, Gt, l, r, cur, st) == Some(BoolV(b < a))
    ensures Result(p, fuel, Le, l, r, cur, st) == Some(BoolV(!(b < a)))
    ensures Result(p, fuel, Ge, l, r, cur, st) == Some(BoolV(!(a < b)))
    ensures Result(p, fuel, Eq, l, r, cur, st) == Some(BoolV(!(a < b) && !(b < a)))
    ensures Result(p, fuel, Ne, l, r, cur, st) == Some(BoolV(a < b || b < a))
  {
    AllResults(p, fuel, l, r, cur, st, IntV(a), IntV(b), s);
  }

  // ---------------------------------------------------------------------
  // Floats, and floats with integers
  // ---------------------------------------------------------------------

  // v is the number x, written as a float or as an integer.
  ghost predicate IsNumber(v: Value, x: real) {
    v == FloatV(x) || exists i: int :: i as real == x && v == IntV(i)
  }

  lemma AreFloats(v: Value, w: Value, x: real, y: real)
    requires IsNumber(v, x) && IsNumber(w, y) && (v.FloatV? || w.FloatV?)
    ensures Floats(v, w) == Some((x, y)) && !(v.IntV? && w.IntV?) && !(v.StringV? && w.StringV?)
  {
  }

  lemma SumAndDifference(v: Value, w: Value, x: real, y: real)
    requires Floats(v, w) == Some((x, y)) && !(v.IntV? && w.IntV?) && !(v.StringV? && w.StringV?)
    ensures ApplyBinary(Add, v, w) == Some(FloatV(x + y))
    ensures ApplyBinary(Sub, v, w) == Some(FloatV(x - y))
  {
  }

  lemma ProductOf(v: Value, w: Value, x: real, y: real, product: real)
    requires Floats(v, w) == Some((x, y)) && !(v.IntV? && w.IntV?) && product == x * y
    ensures ApplyBinary(Mul, v, w) == Some(FloatV(product))
  {
    assert FloatOperation(Mul, x, y) == Some(FloatV(product));
    assert ApplyBinary(Mul, v, w) == FloatOperation(Mul, x, y);
  }

  lemma QuotientOf(v: Value, w: Value, x: real, y: real, quotient: real)
    requires Floats(v, w) == Some((x, y)) && !(v.IntV? && w.IntV?) && (y != 0.0 ==> quotient * y == x)
    ensures ApplyBinary(Div, v, w) == if y == 0.0 then None else Some(FloatV(quotient))
  {
    if y != 0.0 { OneQuotient(x, y, quotient); }
    assert FloatOperation(Div, x, y) == if y == 0.0 then None else Some(FloatV(quotient));
    assert ApplyBinary(Div, v, w) == FloatOperation(Div, x, y);
  }

  lemma OneQuotient(x: real, y: real, quotient: real)
    requires y != 0.0 && quotient * y == x
    ensures x / y == quotient
  {
  }

  // At least one of two numbers is a float: the result is that of two floats.
  lemma FloatSums(p: Program, fuel: nat, l: Expr, r: Expr, cur: nat, st: State, v: Value, w: Value,
                  x: real, y: real, s: State)
    requires Operands(p, fuel, l, r, cur, st, v, w, s)
    requires IsNumber(v, x) && IsNumber(w, y) && (v.FloatV? || w.FloatV?)
    ensures Result(p, fuel, Add, l, r, cur, st) == Some(FloatV(x + y))
    ensures var d := Result(p, fuel, Sub, l, r, cur, st); d.Some? && d.value.FloatV? && d.value.r + y == x
  {
    AllResults(p, fuel, l, r, cur, st, v, w, s);
    AreFloats(v, w, x, y);
    SumAndDifference(v, w, x, y);
  }

  lemma FloatProducts(p: Program, fuel: nat, l: Expr, r: Expr, cur: nat, st: State, v: Value, w: Value,
                      x: real, y: real, product: real, s: State)
    requires Operands(p, fuel, l, r, cur, st, v, w, s)
    requires IsNumber(v, x) && IsNumber(w, y) && (v.FloatV? || w.FloatV?) && product == x * y
    ensures Result(p, fuel, Mul, l, r, cur, st) == Some(FloatV(product))
  {
    ResultOrError(p, fuel, Mul, l, r, cur, st, v, w, s);
    AreFloats(v, w, x, y);
    ProductOf(v, w, x, y, product);
  }

  // The quotient is the number that times the divisor is the dividend.
  lemma FloatQuotients(p: Program, fuel: nat, l: Expr, r: Expr, cur: nat, st: State, v: Value, w: Value,
                       x: real, y: real, quotient: real, s: State)
    requires Operands(p, fuel, l, r, cur, st, v, w, s)
    requires IsNumber(v, x) && IsNumber(w, y) && (v.FloatV? || w.FloatV?) && (y != 0.0 ==> quotient * y == x)
    ensures Result(p, fuel, Div, l, r, cur, st) == if y == 0.0 then None else Some(FloatV(quotient))
  {
    ResultOrError(p, fuel, Div, l, r, cur, st, v, w, s);
    AreFloats(v, w, x, y);
    QuotientOf(v, w, x, y, quotient);
  }

  lemma FloatsCompared(v: Value, w: Value, x: real, y: real)
    requires IsNumber(v, x) && IsNumber(w, y) && (v.FloatV? || w.FloatV?)
    ensures ApplyBinary(Lt, v, w) == Some(BoolV(x < y)) && ApplyBinary(Gt, v, w) == Some(BoolV(y < x))
    ensures ApplyBinary(Le, v, w) == Some(BoolV(!(y < x))) && ApplyBinary(Ge, v, w) == Some(BoolV(!(x < y)))
    ensures ApplyBinary(Eq, v, w) == Some(BoolV(x == y && v.FloatV? && w.FloatV?))
    ensures ApplyBinary(Ne, v, w) == Some(BoolV(x != y || !v.FloatV? || !w.FloatV?))
  {
    AreFloats(v, w, x, y);
  }

  // The comparisons agree with those of two floats.  Equality does not: an integer never
  // equals a float, so two such numbers of the same value are neither less, equal nor
  // greater.
  lemma FloatComparison(p: Program, fuel: nat, l: Expr, r: Expr, cur: nat, st: State, v: Value, w: Value,
                        x: real, y: real, s: State)
    requires Operands(p, fuel, l, r, cur, st, v, w, s)
    requires IsNumber(v, x) && IsNumber(w, y) && (v.FloatV? || w.FloatV?)
    ensures Result(p, fuel, Lt, l, r, cur, st) == Some(BoolV(x < y))
    ensures Result(p, fuel, Gt, l, r, cur, st) == Some(BoolV(y < x))
    ensures Result(p, fuel, Le, l, r, cur, st) == Some(BoolV(!(y < x)))
    ensures Result(p, fuel, Ge, l, r, cur, st) == Some(BoolV(!(x < y)))
    ensures Result(p, fuel, Eq, l, r, cur, st) == Some(BoolV(x == y && v.FloatV? && w.FloatV?))
    ensures Result(p, fuel, Ne, l, r, cur, st) == Some(BoolV(x != y || !v.FloatV? || !w.FloatV?))
  {
    AllResults(p, fuel, l, r, cur, st, v, w, s);
    FloatsCompared(v, w, x, y);
  }

  // ---------------------------------------------------------------------
  // Other operands
  // ---------------------------------------------------------------------

  lemma StringOperators(p: Program, fuel: nat, op: BinaryOp, l: Expr, r: Expr, cur: nat, st: State, a: string,
                        b: string, s: State)
    requires Operands(p, fuel, l, r, cur, st, StringV(a), StringV(b), s)
    ensures Result(p, fuel, Add, l, r, cur, st) == Some(StringV(a + b))
    ensures Result(p, fuel, Eq, l, r, cur, st) == Some(BoolV(a == b))
    ensures Result(p, fuel, Ne, l, r, cur, st) == Some(BoolV(a != b))
    ensures !op.Add? && !op.Eq? && !op.Ne? ==> Result(p, fuel, op, l, r, cur, st) == None
  {
    AllResults(p, fuel, l, r, cur, st, StringV(a), StringV(b), s);
  }

  lemma BooleanOperators(p: Program, fuel: nat, l: Expr, r: Expr, cur: nat, st: State, a: bool, b: bool, s: State)
    requires Operands(p, fuel, l, r, cur, st, BoolV(a), BoolV(b), s)
    ensures Result(p, fuel, And, l, r, cur, st) == Some(BoolV(a && b))
    ensures Result(p, fuel, Or, l, r, cur, st) == Some(BoolV(a || b))
    ensures Result(p, fuel, Eq, l, r, cur, st) == Some(BoolV(a == b))
    ensures Result(p, fuel, Ne, l, r, cur, st) == Some(BoolV(a != b))
  {
    AllResults(p, fuel, l, r, cur, st, BoolV(a), BoolV(b), s);
  }

  predicate IsNumeric(v: Value) {
    v.IntV? || v.FloatV?
  }

  predicate Fits(op: BinaryOp, v: Value, w: Value) {
    if op.And? || op.Or? then v.BoolV? && (Decides(op, v) || w.BoolV?)
    else (IsNumeric(v) && IsNumeric(w)) || (op.Add? && v.StringV? && w.StringV?)
  }

  // Every other combination is an error; equality alone is defined for all values.
  lemma OperandsMustFit(p: Program, fuel: nat, op: BinaryOp, l: Expr, r: Expr, cur: nat, st: State, v: Value, w: Value,
                        s: State)
    requires Operands(p, fuel, l, r, cur, st, v, w, s)
    ensures Result(p, fuel, Eq, l, r, cur, st) == Some(BoolV(v == w))
    ensures Result(p, fuel, Ne, l, r, cur, st) == Some(BoolV(v != w))
    ensures !op.Eq? && !op.Ne? && !Fits(op, v, w) ==> Result(p, fuel, op, l, r, cur, st) == None
  {
    AllResults(p, fuel, l, r, cur, st, v, w, s);
  }

  // A negation added to its operand is zero, and "not" changes a boolean.
  lemma UnaryOperators(p: Program, fuel: nat, o: Expr, cur: nat, st: State, v: Value, s: State)
    requires cur < |st.envs| && Eval(p, fuel, o, cur, st) == Ok(v, s)
    ensures var n := Eval(p, fuel, Unary(Neg, o), cur, st);
            && (v.IntV? ==> n.Ok? && n.st == s && n.value.IntV? && n.value.i + v.i == 0)
            && (v.FloatV? ==> n.Ok? && n.st == s && n.value.FloatV? && n.value.r + v.r == 0.0)
            && (!IsNumeric(v) ==> n.Throw? && n.st == s)
    ensures var n := Eval(p, fuel, Unary(Not, o), cur, st);
            if v.BoolV? then n == Ok(BoolV(!v.b), s) else n.Throw? && n.st == s
  {
  }
}
