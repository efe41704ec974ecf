// Instances of generic structs: how a declaration is instantiated, and the
// registry that caches instances under their printed names.
module Monomorphize {
  import opened Prelude
  import opened Ast
  import opened TypeNames

  type Substitution = map<Name, TypeDesc>

  // Parameter i stands for argument i; a repeated parameter keeps its first one.
  function MakeSubstitution(params: seq<Name>, args: seq<TypeDesc>): Substitution
    requires |params| == |args|
  {
    if params == [] then map[]
    else MakeSubstitution(params[1..], args[1..])[params[0] := args[0]]
  }

  // Only a type that is a parameter, or an array of such, is replaced.
  function SubstituteType(t: TypeDesc, s: Substitution): TypeDesc {
    match t
    case StructType(n, _) => if n in s then s[n] else t
    case ArrayType(Some(element)) => ArrayType(Some(SubstituteType(element, s)))
    case _ => t
  }

  // Splitting at commas, with the token read so far.
  function SplitFrom(token: string, s: string): seq<string>
    decreases |s|
  {
    if s == "" then [token]
    else if s[0] == ',' then [token] + SplitFrom("", s[1..])
    else SplitFrom(token + [s[0]], s[1..])
  }

  method Split(inner: string) returns (tokens: seq<string>)
    ensures tokens == SplitFrom("", inner)
  {
    tokens := [];
    var token := "";
    for i := 0 to |inner|
      invariant SplitFrom("", inner) == tokens + SplitFrom(token, inner[i..])
    {
      assert inner[i..][0] == inner[i] && inner[i..][1..] == inner[i + 1..];
      if inner[i] == ',' {
        tokens := tokens + [token];
        token := "";
      } else {
        token := token + [inner[i]];
      }
    }
    tokens := tokens + [token];
  }

  function TrimLeft(s: string): string {
    if s != "" && s[0] == ' ' then TrimLeft(s[1..]) else s
  }

  function TrimRight(s: string): string {
    if s != "" && s[|s| - 1] == ' ' then TrimRight(s[..|s| - 1]) else s
  }

  function Trim(s: string): string {
    TrimRight(TrimLeft(s))
  }

  function FirstIndex(s: string, c: char): nat {
    if s == "" || s[0] == c then 0 else 1 + FirstIndex(s[1..], c)
  }

  // The last position of c, or the length.
  function LastIndex(s: string, c: char): nat
    ensures LastIndex(s, c) <= |s|
  {
    if s == "" then 0
    else if s[|s| - 1] == c then |s| - 1
    else if c in s then LastIndex(s[..|s| - 1], c)
    else |s|
  }

  // The text between the first '<' and the last '>'.
  function Bracketed(name: Name): string {
    var from := FirstIndex(name, '<') + 1;
    var to := LastIndex(name, '>');
    if from <= to <= |name| then name[from..to] else ""
  }

  function SubstituteTokens(tokens: seq<string>, s: Substitution): (r: seq<string>)
    ensures |r| == |tokens|
  {
    seq(|tokens|, i requires 0 <= i < |tokens| =>
      var t := Trim(tokens[i]); if t in s then ToString(s[t]) else t)
  }

  // An instance name of base with its comma-separated tokens substituted.
  function RebuildName(base: Name, name: Name, s: Substitution): Name {
    base + "<" + Join(SubstituteTokens(SplitFrom("", Bracketed(name)), s)) + ">"
  }

  // The output type of a routine, whose own struct's name must become the
  // instance's name.
  function OutputType(t: TypeDesc, base: Name, instance: Name, s: Substitution): TypeDesc {
    var u := SubstituteType(t, s);
    if !u.StructType? then u
    else if u.name == base then u.(name := instance)
    else if base + "<" <= u.name then u.(name := RebuildName(base, u.name, s))
    else u
  }

  // Parameter defaults are not carried over to the instance.
  function InputParams(ps: seq<Param>, s: Substitution): seq<Param> {
    seq(|ps|, i requires 0 <= i < |ps| => Param(SubstituteType(ps[i].ty, s), ps[i].name, None))
  }

  function OutputParams(ps: seq<Param>, base: Name, instance: Name, s: Substitution): seq<Param> {
    seq(|ps|, i requires 0 <= i < |ps| => Param(OutputType(ps[i].ty, base, instance, s), ps[i].name, None))
  }

  function Fields(fs: seq<VarDeclaration>, s: Substitution): seq<VarDeclaration> {
    seq(|fs|, i requires 0 <= i < |fs| => VarDeclaration(SubstituteType(fs[i].ty, s), fs[i].name, fs[i].init))
  }

  function Routines(rs: seq<Routine>, base: Name, instance: Name, s: Substitution): seq<Routine> {
    seq(|rs|, i requires 0 <= i < |rs| =>
      Routine(rs[i].name, InputParams(rs[i].inputs, s), OutputParams(rs[i].outputs, base, instance, s), rs[i].body))
  }

  // The declaration that substitution builds for the given arguments.
  function Instantiate(base: StructDecl, args: seq<TypeDesc>): StructDecl
    requires |base.params| == |args|
  {
    var name, s := InstanceName(base.name, args), MakeSubstitution(base.params, args);
    StructDecl(name, [], Fields(base.fields, s), Routines(base.routines, base.name, name, s))
  }

  // ---------------------------------------------------------------------
  // The registry
  // ---------------------------------------------------------------------

  datatype Instance = WrongArity | Built(decl: StructDecl)

  // What an entry was built from.
  datatype Origin = Origin(base: StructDecl, args: seq<TypeExpr>)

  // Every key with a bracket belongs to an instance, and holds the declaration
  // that substitution builds for that instance from a registered template.
  ghost predicate Consistent(structs: map<Name, StructDecl>, origins: map<Name, Origin>) {
    && (forall k :: k in structs && '<' in k ==> k in origins)
    && forall k :: k in origins ==> k in structs && ComesFrom(structs, k, origins[k])
  }

  ghost predicate ComesFrom(structs: map<Name, StructDecl>, k: Name, o: Origin)
    requires k in structs
  {
    && o.base.name in structs && structs[o.base.name] == o.base
    && WellFormed(Applied(o.base.name, o.args)) && |o.base.params| == |o.args|
    && k == TypeName(Applied(o.base.name, o.args)) && structs[k] == Instantiate(o.base, DescribeAll(o.args))
  }

  lemma TemplateKeepsConsistent(structs: map<Name, StructDecl>, origins: map<Name, Origin>, key: Name, decl: StructDecl)
    requires Consistent(structs, origins) && key !in structs && '<' !in key
    ensures Consistent(structs[key := decl], origins)
  {
    forall k | k in origins ensures ComesFrom(structs[key := decl], k, origins[k]) {
      assert ComesFrom(structs, k, origins[k]);
    }
  }

  lemma InstanceKeepsConsistent(structs: map<Name, StructDecl>, origins: map<Name, Origin>, base: StructDecl,
                                ts: seq<TypeExpr>)
    requires Consistent(structs, origins) && base.name in structs && structs[base.name] == base
    requires WellFormed(Applied(base.name, ts)) && |base.params| == |ts|
    ensures var name := TypeName(Applied(base.name, ts));
            name !in structs ==>
              Consistent(structs[name := Instantiate(base, DescribeAll(ts))], origins[name := Origin(base, ts)])
  {
    var name := TypeName(Applied(base.name, ts));
    if name !in structs {
      var structs', origins' := structs[name := Instantiate(base, DescribeAll(ts))], origins[name := Origin(base, ts)];
      forall k | k in origins' ensures k in structs' && ComesFrom(structs', k, origins'[k]) {
        if k != name { assert ComesFrom(structs, k, origins[k]); }
      }
    }
  }

  class TypeRegistry {
    var structs: map<Name, StructDecl>
    var owned: seq<StructDecl>
    ghost var origins: map<Name, Origin>

    ghost predicate Valid()
      reads this
    {
      Consistent(structs, origins)
    }

    constructor ()
      ensures Valid() && structs == map[] && owned == []
    {
      structs, owned, origins := map[], [], map[];
    }

    // Registers a parsed declaration under its bare and its qualified name.
    method RegisterStruct(decl: StructDecl, moduleName: Name)
      requires Valid() && IsName(decl.name) && NoDelimiter(moduleName)
      requires decl.name !in structs && (moduleName != "" ==> moduleName + "::" + decl.name !in structs)
      modifies this
      ensures Valid()
      ensures var bare := old(structs)[decl.name := decl];
              structs == if moduleName == "" then bare else bare[moduleName + "::" + decl.name := decl]
    {
      NameHasNoBracket(decl.name);
      TemplateKeepsConsistent(structs, origins, decl.name, decl);
      structs := structs[decl.name := decl];
      if moduleName != "" {
        var qualified := moduleName + "::" + decl.name;
        assert '<' !in qualified && |qualified| > |decl.name|;
        TemplateKeepsConsistent(structs, origins, qualified, decl);
        structs := structs[qualified := decl];
      }
    }

    method LookupStruct(name: Name) returns (r: Option<StructDecl>)
      ensures name in structs ==> r == Some(structs[name])
      ensures name !in structs && '<' in name && BaseName(name) in structs ==> r == Some(structs[BaseName(name)])
      ensures r.Some? <==> name in structs || ('<' in name && BaseName(name) in structs)
    {
      if name in structs {
        return Some(structs[name]);
      }
      if '<' in name && BaseName(name) in structs {
        return Some(structs[BaseName(name)]);
      }
      return None;
    }

    method SubstituteFields(fs: seq<VarDeclaration>, s: Substitution) returns (r: seq<VarDeclaration>)
      ensures r == Fields(fs, s)
    {
      r := [];
      for i := 0 to |fs|
        invariant r == Fields(fs[..i], s)
      {
        r := r + [VarDeclaration(SubstituteType(fs[i].ty, s), fs[i].name, fs[i].init)];
      }
      assert fs[..|fs|] == fs;
    }

    method SubstituteRoutines(rs: seq<Routine>, base: Name, instance: Name, s: Substitution) returns (r: seq<Routine>)
      ensures r == Routines(rs, base, instance, s)
    {
      r := [];
      for i := 0 to |rs|
        invariant r == Routines(rs[..i], base, instance, s)
      {
        r := r + [Routine(rs[i].name, InputParams(rs[i].inputs, s), OutputParams(rs[i].outputs, base, instance, s),
                          rs[i].body)];
      }
      assert rs[..|rs|] == rs;
    }

    // Cached or fresh, the result is the declaration that substitution builds.
    method Monomorphize(base: StructDecl, args: seq<TypeDesc>, ghost ts: seq<TypeExpr>) returns (r: Instance)
      requires Valid() && base.name in structs && structs[base.name] == base
      requires args == DescribeAll(ts) && WellFormed(Applied(base.name, ts))
      modifies this
      ensures Valid()
      ensures |base.params| != |args| ==> r == WrongArity && structs == old(structs)
      ensures |base.params| == |args| ==> r == Built(Instantiate(base, args))
                                          && structs == old(structs)[InstanceName(base.name, args) := r.decl]
    {
      var name := BuildInstanceName(base.name, args);
      assert name == TypeName(Applied(base.name, ts));
      BracketInInstanceName(base.name, args);
      if name in structs {
        OriginIsUnique(base, ts, name);
        return Built(structs[name]);
      }
      if |base.params| != |args| {
        return WrongArity;
      }
      var s := MakeSubstitution(base.params, args);
      var fields := SubstituteFields(base.fields, s);
      var routines := SubstituteRoutines(base.routines, base.name, name, s);
      var decl := StructDecl(name, [], fields, routines);
      InstanceKeepsConsistent(structs, origins, base, ts);
      owned := owned + [decl];
      structs := structs[name := decl];
      origins := origins[name := Origin(base, ts)];
      return Built(decl);
    }

    // A cache hit can only come from the same template and the same arguments.
    lemma OriginIsUnique(base: StructDecl, ts: seq<TypeExpr>, name: Name)
      requires Valid() && base.name in structs && structs[base.name] == base
      requires WellFormed(Applied(base.name, ts)) && name == TypeName(Applied(base.name, ts)) && name in structs
               && '<' in name
      ensures |base.params| == |ts| && structs[name] == Instantiate(base, DescribeAll(ts))
    {
      var o := origins[name];
      assert ComesFrom(structs, name, o);
      PrintingIsInjective(Applied(o.base.name, o.args), Applied(base.name, ts));
    }
  }

  lemma BracketInInstanceName(base: Name, args: seq<TypeDesc>)
    ensures '<' in InstanceName(base, args)
  {
    assert InstanceName(base, args)[|base|] == '<';
  }

  lemma NameHasNoBracket(n: Name)
    requires IsName(n)
    ensures '<' !in n
  {
  }
}
