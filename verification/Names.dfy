// How names lead to variables, functions, structs, routines and states.
module Names {
  import opened Prelude
  import opened Ast
  import opened Semantics

  // The module part of a qualified name goes up to the first "::".
  lemma {:induction false} ModuleIsStripped(m: Name, n: Name)
    requires !IsQualified(m + ":")
    ensures IsQualified(m + "::" + n) && StripModule(m + "::" + n) == n
    decreases |m|
  {
    var name := m + "::" + n;
    if m == "" {
      assert name[0] == ':' && name[1] == ':' && name[2..] == n;
    } else {
      assert (m + ":")[1..] == m[1..] + ":" && (m + ":")[0] == m[0];
      assert (m + ":")[1] == name[1];
      ModuleIsStripped(m[1..], n);
      assert name[1..] == m[1..] + "::" + n && name[0] == m[0];
    }
  }

  lemma UnqualifiedIsKept(n: Name)
    requires !IsQualified(n)
    ensures StripModule(n) == n
  {
  }

  // The base of an instance name goes up to the first bracket.
  lemma {:induction false} BaseIsBeforeBracket(base: Name, rest: string)
    requires '<' !in base
    ensures BaseName(base + "<" + rest) == base && '<' in base + "<" + rest && BaseName(base) == base
    decreases |base|
  {
    var name := base + "<" + rest;
    if base == "" {
      assert name[0] == '<';
    } else {
      assert base == [base[0]] + base[1..];
      BaseIsBeforeBracket(base[1..], rest);
      assert name[1..] == base[1..] + "<" + rest && name[0] == base[0];
    }
  }

  // A name means the variable of that name; only if there is none, and the name is
  // qualified, it means the variable named by its last part.
  lemma VariableOfName(env: Env, m: Name, n: Name)
    requires !IsQualified(m + ":")
    ensures n in env ==> Lookup(env, n) == Some(env[n])
    ensures n !in env && !IsQualified(n) ==> Lookup(env, n) == None
    ensures var q := m + "::" + n;
            && (q in env ==> Lookup(env, q) == Some(env[q]))
            && (q !in env && n in env ==> Lookup(env, q) == Some(env[n]))
            && (q !in env && n !in env ==> Lookup(env, q) == None)
  {
    ModuleIsStripped(m, n);
  }

  // The same for functions.
  lemma FunctionOfName(p: Program, m: Name, n: Name)
    requires !IsQualified(m + ":")
    ensures n in p.functions ==> FindFunction(p, n) == Some(p.functions[n])
    ensures n !in p.functions && !IsQualified(n) ==> FindFunction(p, n) == None
    ensures var q := m + "::" + n;
            && (q in p.functions ==> FindFunction(p, q) == Some(p.functions[q]))
            && (q !in p.functions && n in p.functions ==> FindFunction(p, q) == Some(p.functions[n]))
            && (q !in p.functions && n !in p.functions ==> FindFunction(p, q) == None)
  {
    ModuleIsStripped(m, n);
  }

  // An instance of a generic struct that has no declaration of its own has that of its
  // template, and the same for its foreign methods.
  lemma StructOfName(p: Program, base: Name, rest: string, m: Name)
    requires '<' !in base
    ensures base in p.structs ==> LookupStruct(p, base) == Some(p.structs[base])
    ensures base !in p.structs ==> LookupStruct(p, base) == None
    ensures var name := base + "<" + rest;
            && LookupStruct(p, name) == (if name in p.structs then Some(p.structs[name]) else LookupStruct(p, base))
            && LookupForeign(p, name, m)
               == if (name, m) in p.foreignMethods then Some(p.foreignMethods[(name, m)]) else LookupForeign(p, base, m)
    ensures LookupForeign(p, base, m)
            == if (base, m) in p.foreignMethods then Some(p.foreignMethods[(base, m)]) else None
  {
    BaseIsBeforeBracket(base, rest);
  }

  // The struct that a receiver names when no variable is in scope: that of the name, or of
  // its last part if the name is qualified.
  lemma StructOfReceiver(p: Program, m: Name, n: Name)
    requires !IsQualified(m + ":") && !IsQualified(n)
    ensures StaticReceiver(p, Var(n), map[]) == LookupStruct(p, n)
    ensures var q := m + "::" + n;
            StaticReceiver(p, Var(q), map[])
            == if LookupStruct(p, q).Some? then LookupStruct(p, q) else LookupStruct(p, n)
  {
    ModuleIsStripped(m, n);
  }

  // The type names under which built-in methods are found.
  lemma TypeNamesOfValues(v: Value)
    ensures v.IntV? ==> TypeNameOf(v) == "int"
    ensures v.FloatV? ==> TypeNameOf(v) == "float"
    ensures v.BoolV? ==> TypeNameOf(v) == "bool"
    ensures v.StringV? ==> TypeNameOf(v) == "string"
    ensures v.NilV? ==> TypeNameOf(v) == "nil"
    ensures v.ErrorV? ==> TypeNameOf(v) == "Error"
    ensures v.TupleV? ==> TypeNameOf(v) == "tuple"
    ensures v.StructV? || v.NullV? ==> TypeNameOf(v) == "StructInstance"
  {
  }

  // The first routine of the given name.
  lemma {:induction false} RoutineOfName(routines: seq<Routine>, n: Name)
    ensures match FindRoutine(routines, n)
            case Some(r) =>
              exists k :: 0 <= k < |routines| && routines[k] == r && r.name == n && forall i :: 0 <= i < k ==>
                routines[i].name != n
            case None => forall i :: 0 <= i < |routines| ==> routines[i].name != n
  {
    if routines != [] {
      RoutineOfName(routines[1..], n);
      var r := FindRoutine(routines[1..], n);
      assert forall i :: 0 <= i < |routines| - 1 ==> routines[1..][i] == routines[i + 1];
      if routines[0].name != n && r.Some? {
        var k :| 0 <= k < |routines[1..]| && routines[1..][k] == r.value && r.value.name == n
          && forall i :: 0 <= i < k ==> routines[1..][i].name != n;
        FirstLater(routines, n, k);
      }
    }
  }

  lemma FirstLater(routines: seq<Routine>, n: Name, k: nat)
    requires routines != [] && routines[0].name != n && k < |routines| - 1
    requires forall i :: 0 <= i < k ==> routines[1..][i].name != n
    ensures routines[k + 1] == routines[1..][k] && forall i :: 0 <= i < k + 1 ==> routines[i].name != n
  {
    forall i | 0 <= i < k + 1 ensures routines[i].name != n {
      if i > 0 { assert routines[1..][i - 1].name != n; }
    }
  }

  // The first state of the given name.
  lemma {:induction false} StateOfName(states: seq<StateDecl>, n: Name)
    ensures match FindState(states, n)
            case Some(s) =>
              exists k :: 0 <= k < |states| && states[k] == s && s.name == n && forall i :: 0 <= i < k ==>
                states[i].name != n
            case None => forall i :: 0 <= i < |states| ==> states[i].name != n
  {
    if states != [] {
      StateOfName(states[1..], n);
      var r := FindState(states[1..], n);
      assert forall i :: 0 <= i < |states| - 1 ==> states[1..][i] == states[i + 1];
      if states[0].name != n && r.Some? {
        var k :| 0 <= k < |states[1..]| && states[1..][k] == r.value && r.value.name == n
          && forall i :: 0 <= i < k ==> states[1..][i].name != n;
        FirstStateLater(states, n, k);
      }
    }
  }

  lemma FirstStateLater(states: seq<StateDecl>, n: Name, k: nat)
    requires states != [] && states[0].name != n && k < |states| - 1
    requires forall i :: 0 <= i < k ==> states[1..][i].name != n
    ensures states[k + 1] == states[1..][k] && forall i :: 0 <= i < k + 1 ==> states[i].name != n
  {
    forall i | 0 <= i < k + 1 ensures states[i].name != n {
      if i > 0 { assert states[1..][i - 1].name != n; }
    }
  }

  // ---------------------------------------------------------------------
  // Arguments of built-in methods
  // ---------------------------------------------------------------------

  function DigitValue(c: char): int {
    c as int - '0' as int
  }

  // The number that a decimal text stands for.
  function NumberOf(s: string): int {
    if s == "" then 0 else NumberOf(s[..|s| - 1]) * 10 + DigitValue(s[|s| - 1])
  }

  lemma {:induction false} DecimalIsReadBack(n: nat)
    ensures Decimal(n) != "" && NumberOf(Decimal(n)) == n
    decreases n
  {
    var digit := ['0' + (n % 10) as char];
    assert DigitValue(digit[0]) == n % 10;
    if n < 10 {
      assert digit[..0] == "" && NumberOf("") == 0;
    } else {
      DecimalIsReadBack(n / 10);
      var s := Decimal(n / 10) + digit;
      assert s[..|s| - 1] == Decimal(n / 10);
    }
  }

  // A built-in method gets argument i under the name "arg" followed by i.
  lemma {:induction false} ArgumentsAreNumbered(values: seq<Value>, n: nat, i: nat)
    requires i < n <= |values|
    ensures "arg" + Decimal(i) in Numbered(values, n) && Numbered(values, n)["arg" + Decimal(i)] == values[i]
    decreases n
  {
    if i < n - 1 {
      ArgumentsAreNumbered(values, n - 1, i);
      DecimalIsReadBack(i);
      DecimalIsReadBack(n - 1);
      SamePrefix("arg", Decimal(i), Decimal(n - 1));
    }
  }

  lemma SamePrefix(a: string, s: string, t: string)
    ensures a + s == a + t ==> s == t
  {
    assert (a + s)[|a|..] == s && (a + t)[|a|..] == t;
  }
}
