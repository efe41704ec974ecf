// What an instance of a generic struct consists of, in terms of its template.
module Instances {
  import opened Prelude
  import opened Ast
  import opened TypeNames
  import opened Monomorphize
  import opened Substitutions

  // ---------------------------------------------------------------------
  // Shape
  // ---------------------------------------------------------------------

  // The same parameters up to their types; an instance has no parameter defaults.
  ghost predicate SameParams(ps: seq<Param>, qs: seq<Param>) {
    |qs| == |ps| && forall i :: 0 <= i < |ps| ==> qs[i].name == ps[i].name && qs[i].default.None?
  }

  // The same fields and routines up to types, with the same initialisers and bodies.
  ghost predicate SameShape(base: StructDecl, d: StructDecl) {
    && |d.fields| == |base.fields| && |d.routines| == |base.routines|
    && (forall i :: 0 <= i < |base.fields| ==>
          d.fields[i].name == base.fields[i].name && d.fields[i].init == base.fields[i].init)
    && forall i :: 0 <= i < |base.routines| ==>
         && d.routines[i].name == base.routines[i].name && d.routines[i].body == base.routines[i].body
         && SameParams(base.routines[i].inputs, d.routines[i].inputs)
         && SameParams(base.routines[i].outputs, d.routines[i].outputs)
  }

  lemma InstanceHasTheShape(base: StructDecl, args: seq<TypeDesc>)
    requires |base.params| == |args|
    ensures var d := Instantiate(base, args);
            SameShape(base, d) && d.name == InstanceName(base.name, args) && d.params == []
  {
  }

  // ---------------------------------------------------------------------
  // Types
  // ---------------------------------------------------------------------

  // A parameter stands for the argument at its first position.
  lemma {:induction false} FirstArgumentCounts(params: seq<Name>, args: seq<TypeDesc>, k: nat)
    requires |params| == |args| && k < |params| && params[k] !in params[..k]
    ensures params[k] in MakeSubstitution(params, args) && MakeSubstitution(params, args)[params[k]] == args[k]
    decreases |params|
  {
    if k > 0 {
      assert params[0] in params[..k];
      assert params[..k][1..] == params[1..][..k - 1];
      FirstArgumentCounts(params[1..], args[1..], k - 1);
    }
  }

  lemma {:induction false} OnlyParametersCount(params: seq<Name>, args: seq<TypeDesc>)
    requires |params| == |args|
    ensures forall n :: n in MakeSubstitution(params, args) <==> n in params
    decreases |params|
  {
    if params != [] {
      OnlyParametersCount(params[1..], args[1..]);
      assert params == [params[0]] + params[1..];
    }
  }

  // The type w is what the written type t becomes in the instance: a parameter becomes
  // its argument, an array an array of what its elements become, and every other type
  // stays.
  ghost predicate Becomes(params: seq<Name>, args: seq<TypeDesc>, t: TypeDesc, w: TypeDesc)
    requires |params| == |args|
  {
    match t
    case ArrayType(Some(e)) => w.ArrayType? && w.element.Some? && Becomes(params, args, e, w.element.value)
    case StructType(n, _) =>
      if n in params then exists k :: 0 <= k < |params| && params[k] == n && n !in params[..k] && w == args[k]
        else w == t
    case _ => w == t
  }

  lemma {:induction false} SubstitutedType(params: seq<Name>, args: seq<TypeDesc>, t: TypeDesc)
    requires |params| == |args|
    ensures Becomes(params, args, t, SubstituteType(t, MakeSubstitution(params, args)))
    decreases t
  {
    match t {
      case ArrayType(Some(e)) => SubstitutedType(params, args, e);
      case StructType(n, _) =>
        OnlyParametersCount(params, args);
        if n in params {
          var k := FirstPosition(params, n);
          FirstArgumentCounts(params, args, k);
        }
      case _ =>
    }
  }

  lemma {:induction false} FirstPosition(params: seq<Name>, n: Name) returns (k: nat)
    requires n in params
    ensures k < |params| && params[k] == n && n !in params[..k]
    decreases |params|
  {
    if params[0] == n {
      k := 0;
    } else {
      k := FirstPosition(params[1..], n);
      assert params[..k + 1] == [params[0]] + params[1..][..k];
      k := k + 1;
    }
  }

  // Fields and inputs have the types that theirs become, and so have outputs that are
  // written as arrays.
  lemma FieldsAndInputsBecome(base: StructDecl, args: seq<TypeDesc>)
    requires |base.params| == |args|
    ensures var d := Instantiate(base, args);
            && SameShape(base, d)
            && (forall i :: 0 <= i < |base.fields| ==> Becomes(base.params, args, base.fields[i].ty, d.fields[i].ty))
            && (forall i, k :: 0 <= i < |base.routines| && 0 <= k < |base.routines[i].inputs| ==>
                  Becomes(base.params, args, base.routines[i].inputs[k].ty, d.routines[i].inputs[k].ty))
            && forall i, k :: 0 <= i < |base.routines| && 0 <= k < |base.routines[i].outputs| ==>
                 base.routines[i].outputs[k].ty.ArrayType? ==>
                 Becomes(base.params, args, base.routines[i].outputs[k].ty, d.routines[i].outputs[k].ty)
  {
    var d := Instantiate(base, args);
    InstanceHasTheShape(base, args);
    forall i | 0 <= i < |base.fields| ensures Becomes(base.params, args, base.fields[i].ty, d.fields[i].ty) {
      SubstitutedType(base.params, args, base.fields[i].ty);
    }
    forall i, k | 0 <= i < |base.routines| && 0 <= k < |base.routines[i].inputs|
      ensures Becomes(base.params, args, base.routines[i].inputs[k].ty, d.routines[i].inputs[k].ty)
    {
      SubstitutedType(base.params, args, base.routines[i].inputs[k].ty);
    }
    forall i, k | 0 <= i < |base.routines| && 0 <= k < |base.routines[i].outputs|
      && base.routines[i].outputs[k].ty.ArrayType?
      ensures Becomes(base.params, args, base.routines[i].outputs[k].ty, d.routines[i].outputs[k].ty)
    {
      SubstitutedType(base.params, args, base.routines[i].outputs[k].ty);
    }
  }

  // A template with distinct parameters, and arguments for them.
  ghost predicate Applicable(base: StructDecl, ts: seq<TypeExpr>) {
    && |base.params| == |ts| && WellFormed(Applied(base.name, ts))
    && (forall i :: 0 <= i < |base.params| ==> IsName(base.params[i]))
    && forall i, j :: 0 <= i < j < |base.params| ==> base.params[i] != base.params[j]
  }

  // A field or input written as t has the type that is meant if and only if no parameter
  // that changes occurs inside the brackets of a generic type.
  lemma FieldsAndInputsAsMeant(base: StructDecl, ts: seq<TypeExpr>, t: TypeExpr)
    requires Applicable(base, ts) && WellFormed(t)
    ensures var d, s := Instantiate(base, DescribeAll(ts)), ParametersAs(base.params, ts);
            var exact := t.Applied? ==> forall n :: Changes(s, n) ==> !Occurs(n, t);
            && SameShape(base, d)
            && (forall i :: 0 <= i < |base.fields| && base.fields[i].ty == Describe(t) ==>
                  (ToString(d.fields[i].ty) == TypeName(SubstituteExpr(t, s)) <==> exact))
            && forall i, k :: 0 <= i < |base.routines| && 0 <= k < |base.routines[i].inputs| ==>
                 base.routines[i].inputs[k].ty == Describe(t) ==>
                 (ToString(d.routines[i].inputs[k].ty) == TypeName(SubstituteExpr(t, s)) <==> exact)
  {
    InstanceHasTheShape(base, DescribeAll(ts));
    DescribedParameters(base.params, ts);
    ParametersAreMapped(base.params, ts);
    SubstitutionIsExactOutsideBrackets(t, ParametersAs(base.params, ts));
  }

  // An output written as t has the type that is meant, with the struct's bare name for
  // the instance itself, under the exact condition for outputs.
  lemma OutputsAsMeant(base: StructDecl, ts: seq<TypeExpr>, t: TypeExpr)
    requires Applicable(base, ts) && WellFormed(t)
    ensures var d, s := Instantiate(base, DescribeAll(ts)), ParametersAs(base.params, ts);
            && SameShape(base, d)
            && forall i, k :: 0 <= i < |base.routines| && 0 <= k < |base.routines[i].outputs| ==>
                 base.routines[i].outputs[k].ty == Describe(t) ==>
                 (ToString(d.routines[i].outputs[k].ty) == TypeName(Meant(t, Applied(base.name, ts), s))
                  <==> OutputIsSafe(t, base.name, s))
  {
    InstanceHasTheShape(base, DescribeAll(ts));
    DescribedParameters(base.params, ts);
    ParametersAreMapped(base.params, ts);
    OutputIsExact(t, Applied(base.name, ts), ParametersAs(base.params, ts));
  }

  // An output written as the struct's own type, bare or applied to the struct's own
  // parameters, names the instance.
  lemma OwnTypeNamesInstance(base: StructDecl, ts: seq<TypeExpr>)
    requires Applicable(base, ts)
    ensures var d := Instantiate(base, DescribeAll(ts));
            && SameShape(base, d)
            && forall i, k :: 0 <= i < |base.routines| && 0 <= k < |base.routines[i].outputs| ==>
                 var written := base.routines[i].outputs[k].ty;
                 (written == Describe(Applied(base.name, ParameterTypes(base.params)))
                  || (written == Describe(Named(base.name)) && base.name !in base.params)) ==>
                   ToString(d.routines[i].outputs[k].ty) == d.name
  {
    var args := DescribeAll(ts);
    InstanceHasTheShape(base, args);
    SelfReferenceBecomesRegisteredName(base.name, base.params, ts);
    OnlyParametersCount(base.params, args);
  }

  // The field of Box<int> that is written T has the type int, and one that is written
  // Array<T> the type Array<int>.
  lemma BoxOfInt()
    ensures var t := StructType("T", []);
            var box := StructDecl("Box", ["T"], [VarDeclaration(t, "value", None),
                                                  VarDeclaration(ArrayType(Some(t)), "all", None)], []);
            var d := Instantiate(box, [IntType]);
            d.fields[0].ty == IntType && d.fields[1].ty == ArrayType(Some(IntType))
  {
    var t := StructType("T", []);
    assert MakeSubstitution(["T"], [IntType])["T"] == IntType;
    assert SubstituteType(t, MakeSubstitution(["T"], [IntType])) == IntType;
  }
}
