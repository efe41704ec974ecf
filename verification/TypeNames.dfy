// Printed type names.  Instances of generic structs are registered under their
// printed name, so two different types must never print alike.
module TypeNames {
  import opened Prelude
  import opened Ast

  // A type as it is written: a primitive, a struct or type parameter, or a
  // generic struct applied to arguments.
  datatype TypeExpr =
    | Primitive(desc: TypeDesc)
    | Named(name: Name)
    | Applied(base: Name, args: seq<TypeExpr>)

  const PRIMITIVES: seq<TypeDesc> := [IntType, FloatType, BoolType, StringType, ErrorType]

  predicate IsDelimiter(c: char) {
    c == '<' || c == '>' || c == ','
  }

  predicate NoDelimiter(s: string) {
    forall i :: 0 <= i < |s| ==> !IsDelimiter(s[i])
  }

  // A struct or parameter name: no bracket, comma or blank, and not a keyword.
  predicate IsName(s: Name) {
    s != "" && NoDelimiter(s) && ' ' !in s && forall p :: p in PRIMITIVES ==> s != ToString(p)
  }

  predicate WellFormed(t: TypeExpr) {
    match t
    case Primitive(d) => d in PRIMITIVES
    case Named(n) => IsName(n)
    case Applied(b, args) => IsName(b) && args != [] && forall i :: 0 <= i < |args| ==> WellFormed(args[i])
  }

  // Strings separated by commas.
  function Join(parts: seq<string>): string {
    if parts == [] then ""
    else if |parts| == 1 then parts[0]
    else parts[0] + "," + Join(parts[1..])
  }

  function Strings(ds: seq<TypeDesc>): (r: seq<string>)
    ensures |r| == |ds|
  {
    seq(|ds|, i requires 0 <= i < |ds| => ToString(ds[i]))
  }

  // The name of a generic struct instance, such as "Box<int,float>".
  function InstanceName(base: Name, args: seq<TypeDesc>): Name {
    base + "<" + Join(Strings(args)) + ">"
  }

  // The same name, accumulated the way the source does.
  method BuildInstanceName(base: Name, args: seq<TypeDesc>) returns (name: Name)
    ensures name == InstanceName(base, args)
  {
    name := base + "<";
    assert base + "<" + Join(Strings(args[..0])) == base + "<";
    for i := 0 to |args|
      invariant name == base + "<" + Join(Strings(args[..i]))
    {
      OneMorePart(base, args, i);
      if i > 0 {
        name := name + ",";
      }
      name := name + ToString(args[i]);
    }
    assert args[..|args|] == args;
    name := name + ">";
  }

  lemma OneMorePart(base: Name, args: seq<TypeDesc>, i: nat)
    requires i < |args|
    ensures var name := base + "<" + Join(Strings(args[..i]));
            (if i > 0 then name + "," else name) + ToString(args[i]) == base + "<" + Join(Strings(args[..i + 1]))
  {
    var parts, last := Strings(args[..i]), ToString(args[i]);
    assert Strings(args[..i + 1]) == parts + [last];
    JoinSnoc(parts, last);
    Associative(base + "<", Join(parts), ",");
    Associative(base + "<", Join(parts) + ",", last);
    Associative(base + "<", Join(parts), last);
  }

  lemma {:induction false} JoinSnoc(parts: seq<string>, last: string)
    ensures Join(parts + [last]) == if parts == [] then last else Join(parts) + "," + last
  {
    if |parts| > 1 {
      JoinSnoc(parts[1..], last);
      assert (parts + [last])[1..] == parts[1..] + [last];
      assert parts[0] + "," + (Join(parts[1..]) + "," + last) == parts[0] + "," + Join(parts[1..]) + "," + last;
    } else if |parts| == 1 {
      assert (parts + [last])[1..] == [last];
    }
  }

  // The descriptor that the parser builds.
  function Describe(t: TypeExpr): TypeDesc {
    match t
    case Primitive(d) => d
    case Named(n) => StructType(n, [])
    case Applied(b, args) => StructType(InstanceName(b, DescribeAll(args)), DescribeAll(args))
  }

  function DescribeAll(ts: seq<TypeExpr>): (r: seq<TypeDesc>)
    ensures |r| == |ts| && forall i :: 0 <= i < |ts| ==> r[i] == Describe(ts[i])
  {
    if ts == [] then [] else [Describe(ts[0])] + DescribeAll(ts[1..])
  }

  function TypeName(t: TypeExpr): string {
    ToString(Describe(t))
  }

  // ---------------------------------------------------------------------
  // Printing is injective
  // ---------------------------------------------------------------------

  // What may follow a complete type name.
  predicate IsTail(s: string) {
    s == "" || s[0] == ',' || s[0] == '>'
  }

  // The length of the part before the first delimiter.
  function HeadLength(s: string): nat {
    if s == "" || IsDelimiter(s[0]) then 0 else 1 + HeadLength(s[1..])
  }

  lemma {:induction false} HeadLengthOf(a: string, x: string)
    requires NoDelimiter(a) && (x == "" || IsDelimiter(x[0]))
    ensures HeadLength(a + x) == |a|
  {
    if a == "" {
      assert a + x == x;
    } else {
      HeadLengthOf(a[1..], x);
      assert (a + x)[1..] == a[1..] + x;
    }
  }

  // A name without delimiters is determined by a text that goes on with one.
  lemma SplitAtDelimiter(a: string, x: string, b: string, y: string)
    requires NoDelimiter(a) && NoDelimiter(b) && a + x == b + y
    requires (x == "" || IsDelimiter(x[0])) && (y == "" || IsDelimiter(y[0]))
    ensures a == b && x == y
  {
    HeadLengthOf(a, x);
    HeadLengthOf(b, y);
    assert a == (a + x)[..|a|] && b == (b + y)[..|b|];
    assert x == (a + x)[|a|..] && y == (b + y)[|b|..];
  }

  // The printed type followed by more text.
  function Print(t: TypeExpr, more: string): string
    decreases t, 0
  {
    match t
    case Primitive(d) => ToString(d) + more
    case Named(n) => n + more
    case Applied(b, args) => b + ("<" + PrintAll(args, ">" + more))
  }

  function PrintAll(ts: seq<TypeExpr>, more: string): string
    decreases ts, 0
  {
    if ts == [] then more
    else if |ts| == 1 then Print(ts[0], more)
    else Print(ts[0], "," + PrintAll(ts[1..], more))
  }

  lemma {:induction false} PrintIsTypeName(t: TypeExpr, more: string)
    ensures Print(t, more) == TypeName(t) + more
    decreases t, 0
  {
    if t.Applied? {
      var j := Join(Strings(DescribeAll(t.args)));
      PrintAllIsJoin(t.args, ">" + more);
      Associative(j, ">", more);
      Associative("<", j + ">", more);
      Associative(t.base, "<" + (j + ">"), more);
      Associative("<", j, ">");
      Associative(t.base, "<" + j, ">");
      Associative(t.base, "<", j);
    }
  }

  lemma {:induction false} PrintAllIsJoin(ts: seq<TypeExpr>, more: string)
    ensures PrintAll(ts, more) == Join(Strings(DescribeAll(ts))) + more
    decreases ts, 0
  {
    var parts := Strings(DescribeAll(ts));
    if ts == [] {
      assert "" + more == more;
    } else if |ts| == 1 {
      PrintIsTypeName(ts[0], more);
    } else {
      assert parts[1..] == Strings(DescribeAll(ts[1..]));
      var rest := Join(parts[1..]);
      PrintAllIsJoin(ts[1..], more);
      PrintIsTypeName(ts[0], "," + (rest + more));
      FirstOfJoin(parts[0], rest, more);
    }
  }

  lemma FirstOfJoin(first: string, rest: string, more: string)
    ensures first + ("," + (rest + more)) == first + "," + rest + more
  {
    Associative(",", rest, more);
    Associative(first, "," + rest, more);
    Associative(first, ",", rest);
  }

  // The name up to the first bracket, and what is printed after it.
  function Head(t: TypeExpr): string {
    match t
    case Primitive(d) => ToString(d)
    case Named(n) => n
    case Applied(b, _) => b
  }

  function Rest(t: TypeExpr, more: string): string {
    if t.Applied? then "<" + PrintAll(t.args, ">" + more) else more
  }

  lemma HeadHasNoDelimiter(t: TypeExpr)
    requires WellFormed(t)
    ensures NoDelimiter(Head(t))
  {
  }

  lemma {:induction false} PrefixDeterminesType(t: TypeExpr, x: string, u: TypeExpr, y: string)
    requires WellFormed(t) && WellFormed(u) && IsTail(x) && IsTail(y)
    requires Print(t, x) == Print(u, y)
    ensures t == u && x == y
    decreases t, 0
  {
    HeadHasNoDelimiter(t);
    HeadHasNoDelimiter(u);
    SplitAtDelimiter(Head(t), Rest(t, x), Head(u), Rest(u, y));
    if t.Applied? {
      assert Rest(t, x)[0] == '<';
      assert u.Applied?;
      assert Rest(t, x)[1..] == PrintAll(t.args, ">" + x) && Rest(u, y)[1..] == PrintAll(u.args, ">" + y);
      PrefixDeterminesAll(t.args, x, u.args, y);
    } else {
      if t.Primitive? && u.Primitive? { PrimitiveNamesDiffer(t.desc, u.desc); }
    }
  }

  lemma PrimitiveNamesDiffer(d: TypeDesc, e: TypeDesc)
    requires d in PRIMITIVES && e in PRIMITIVES && ToString(d) == ToString(e)
    ensures d == e
  {
    assert "int"[0] == 'i' && "float"[0] == 'f' && "bool"[0] == 'b' && "string"[0] == 's' && "Error"[0] == 'E';
  }

  // What is printed after the first of some arguments.
  function AfterFirst(ts: seq<TypeExpr>, more: string): string
    requires ts != []
  {
    if |ts| == 1 then more else "," + PrintAll(ts[1..], more)
  }

  lemma {:induction false} PrefixDeterminesAll(ts: seq<TypeExpr>, x: string, us: seq<TypeExpr>, y: string)
    requires ts != [] && us != []
    requires (forall i :: 0 <= i < |ts| ==> WellFormed(ts[i])) && (forall i :: 0 <= i < |us| ==> WellFormed(us[i]))
    requires PrintAll(ts, ">" + x) == PrintAll(us, ">" + y)
    ensures ts == us && x == y
    decreases ts, 0
  {
    var c, d := AfterFirst(ts, ">" + x), AfterFirst(us, ">" + y);
    PrefixDeterminesType(ts[0], c, us[0], d);
    assert c[0] == d[0] && c[1..] == d[1..];
    if |ts| > 1 {
      assert |us| > 1;
      PrefixDeterminesAll(ts[1..], x, us[1..], y);
      assert ts == [ts[0]] + ts[1..] && us == [us[0]] + us[1..];
    } else {
      assert |us| == 1;
      assert c[1..] == x && d[1..] == y;
    }
  }

  // Different types print differently, for any nesting of generic arguments.
  lemma PrintingIsInjective(t: TypeExpr, u: TypeExpr)
    requires WellFormed(t) && WellFormed(u)
    ensures TypeName(t) == TypeName(u) <==> t == u
  {
    if TypeName(t) == TypeName(u) {
      PrintIsTypeName(t, "");
      PrintIsTypeName(u, "");
      PrefixDeterminesType(t, "", u, "");
    }
  }

  lemma PrintedForms(b: Name, t: TypeExpr, u: TypeExpr, e: TypeDesc)
    ensures ToString(IntType) == "int" && ToString(FloatType) == "float" && ToString(BoolType) == "bool"
    ensures ToString(StringType) == "string" && ToString(ErrorType) == "Error" && ToString(NilType) == "nil"
    ensures ToString(ArrayType(None)) == "Array<?>" && ToString(ArrayType(Some(e))) == "Array<" + ToString(e) + ">"
    ensures TypeName(Named(b)) == b && TypeName(Applied(b, [t])) == b + "<" + TypeName(t) + ">"
    ensures TypeName(Applied(b, [t, u])) == b + "<" + (TypeName(t) + "," + TypeName(u)) + ">"
  {
    var parts := Strings(DescribeAll([t, u]));
    assert [t, u][1..] == [u] && [t][1..] == [] && [u][1..] == [];
    assert parts[0] == TypeName(t) && parts[1..] == [TypeName(u)] && Join([TypeName(u)]) == TypeName(u);
    assert Strings(DescribeAll([t])) == [TypeName(t)];
  }
}
