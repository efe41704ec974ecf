// What substitution and name rebuilding do to the types of a generic struct, and
// exactly when that is what they should do.
module Substitutions {
  import opened Prelude
  import opened Ast
  import opened TypeNames
  import opened Monomorphize

  // Substitution as it is meant: at every depth.
  function SubstituteExpr(t: TypeExpr, s: map<Name, TypeExpr>): TypeExpr
    decreases t, 0
  {
    match t
    case Primitive(_) => t
    case Named(n) => if n in s then s[n] else t
    case Applied(b, args) => Applied(b, SubstituteExprs(args, s))
  }

  function SubstituteExprs(ts: seq<TypeExpr>, s: map<Name, TypeExpr>): (r: seq<TypeExpr>)
    ensures |r| == |ts| && forall i :: 0 <= i < |ts| ==> r[i] == SubstituteExpr(ts[i], s)
    decreases ts, 0
  {
    if ts == [] then [] else [SubstituteExpr(ts[0], s)] + SubstituteExprs(ts[1..], s)
  }

  predicate ParameterMap(s: map<Name, TypeExpr>) {
    forall n :: n in s ==> IsName(n) && WellFormed(s[n])
  }

  function DescribeMap(s: map<Name, TypeExpr>): Substitution {
    map n | n in s :: Describe(s[n])
  }

  lemma {:induction false} SubstituteKeepsWellFormed(t: TypeExpr, s: map<Name, TypeExpr>)
    requires WellFormed(t) && ParameterMap(s)
    ensures WellFormed(SubstituteExpr(t, s))
    decreases t
  {
    if t.Applied? {
      forall i | 0 <= i < |t.args| ensures WellFormed(SubstituteExprs(t.args, s)[i]) {
        SubstituteKeepsWellFormed(t.args[i], s);
      }
    }
  }

  // ---------------------------------------------------------------------
  // Substitution of field and input types
  // ---------------------------------------------------------------------

  predicate Occurs(n: Name, t: TypeExpr)
    decreases t, 0
  {
    match t
    case Primitive(_) => false
    case Named(m) => m == n
    case Applied(_, args) => OccursInAny(n, args)
  }

  predicate OccursInAny(n: Name, ts: seq<TypeExpr>)
    decreases ts, 0
  {
    ts != [] && (Occurs(n, ts[0]) || OccursInAny(n, ts[1..]))
  }

  // A parameter that stands for a type other than its own name.
  predicate Changes(s: map<Name, TypeExpr>, n: Name) {
    n in s && s[n] != Named(n)
  }

  lemma {:induction false} UnchangedWithoutOccurrence(t: TypeExpr, s: map<Name, TypeExpr>)
    ensures SubstituteExpr(t, s) == t <==> forall n :: Changes(s, n) ==> !Occurs(n, t)
    decreases t, 0
  {
    match t {
      case Primitive(_) =>
      case Named(m) =>
        if m in s && s[m] != t { assert Changes(s, m) && Occurs(m, t); }
      case Applied(b, args) => UnchangedListWithoutOccurrence(args, s);
    }
  }

  lemma {:induction false} UnchangedListWithoutOccurrence(ts: seq<TypeExpr>, s: map<Name, TypeExpr>)
    ensures SubstituteExprs(ts, s) == ts <==> forall n :: Changes(s, n) ==> !OccursInAny(n, ts)
    decreases ts, 0
  {
    if ts != [] {
      UnchangedWithoutOccurrence(ts[0], s);
      UnchangedListWithoutOccurrence(ts[1..], s);
      assert ts == [ts[0]] + ts[1..];
    }
  }

  // A type that is not a parameter is not substituted.
  lemma AppliedIsKept(t: TypeExpr, s: map<Name, TypeExpr>)
    requires t.Applied? && ParameterMap(s)
    ensures SubstituteType(Describe(t), DescribeMap(s)) == Describe(t)
  {
    BracketInInstanceName(t.base, DescribeAll(t.args));
    assert TypeName(t) !in s by {
      if TypeName(t) in s { NameHasNoBracket(TypeName(t)); }
    }
  }

  // Field and input types are instantiated as meant if and only if no parameter
  // that changes occurs inside the brackets of a generic type.
  lemma SubstitutionIsExactOutsideBrackets(t: TypeExpr, s: map<Name, TypeExpr>)
    requires WellFormed(t) && ParameterMap(s)
    ensures ToString(SubstituteType(Describe(t), DescribeMap(s))) == TypeName(SubstituteExpr(t, s))
            <==> (t.Applied? ==> forall n :: Changes(s, n) ==> !Occurs(n, t))
  {
    if t.Applied? {
      AppliedIsKept(t, s);
      SubstituteKeepsWellFormed(t, s);
      PrintingIsInjective(t, SubstituteExpr(t, s));
      UnchangedWithoutOccurrence(t, s);
    } else if t.Primitive? {
      PrimitiveIsNoParameter(t, s);
    }
  }

  lemma PrimitiveIsNoParameter(t: TypeExpr, s: map<Name, TypeExpr>)
    requires WellFormed(t) && t.Primitive? && ParameterMap(s)
    ensures TypeName(t) !in s
  {
  }

  // ---------------------------------------------------------------------
  // Rebuilding the names of output types
  // ---------------------------------------------------------------------

  // The type that rebuilding really gives.  Splitting at commas ignores nesting: a
  // parameter is seen only as a whole token, so it is not seen as the first or the
  // last argument of a nested type, where a bracket is glued to it.
  function Rebuilt(t: TypeExpr, glued: bool, s: map<Name, TypeExpr>): TypeExpr
    decreases t, 0
  {
    match t
    case Primitive(_) => t
    case Named(n) => if !glued && n in s then s[n] else t
    case Applied(b, args) => Applied(b, RebuiltArgs(args, true, true, s))
  }

  // first and last say whether a bracket is glued to the first and the last one.
  function RebuiltArgs(ts: seq<TypeExpr>, first: bool, last: bool, s: map<Name, TypeExpr>): (r: seq<TypeExpr>)
    ensures |r| == |ts|
    decreases ts, 0
  {
    if ts == [] then []
    else [Rebuilt(ts[0], first || (|ts| == 1 && last), s)] + RebuiltArgs(ts[1..], false, last, s)
  }

  // The parameter n occurs with a bracket glued to it.
  predicate Stuck(n: Name, t: TypeExpr, glued: bool)
    decreases t, 0
  {
    match t
    case Primitive(_) => false
    case Named(m) => glued && m == n
    case Applied(_, args) => StuckInAny(n, args, true, true)
  }

  predicate StuckInAny(n: Name, ts: seq<TypeExpr>, first: bool, last: bool)
    decreases ts, 0
  {
    ts != [] && (Stuck(n, ts[0], first || (|ts| == 1 && last)) || StuckInAny(n, ts[1..], false, last))
  }

  lemma {:induction false} RebuiltAsMeant(t: TypeExpr, glued: bool, s: map<Name, TypeExpr>)
    ensures Rebuilt(t, glued, s) == SubstituteExpr(t, s) <==> forall n :: Changes(s, n) ==> !Stuck(n, t, glued)
    decreases t, 0
  {
    match t {
      case Primitive(_) =>
      case Named(m) =>
        if m in s && s[m] != t { assert Changes(s, m) && (Stuck(m, t, glued) <==> glued); }
      case Applied(_, args) => RebuiltArgsAsMeant(args, true, true, s);
    }
  }

  lemma {:induction false} RebuiltArgsAsMeant(ts: seq<TypeExpr>, first: bool, last: bool, s: map<Name, TypeExpr>)
    ensures RebuiltArgs(ts, first, last, s) == SubstituteExprs(ts, s)
            <==> forall n :: Changes(s, n) ==> !StuckInAny(n, ts, first, last)
    decreases ts, 0
  {
    if ts != [] {
      var glued := first || (|ts| == 1 && last);
      RebuiltAsMeant(ts[0], glued, s);
      RebuiltArgsAsMeant(ts[1..], false, last, s);
      ConsEqual(Rebuilt(ts[0], glued, s), RebuiltArgs(ts[1..], false, last, s),
                SubstituteExpr(ts[0], s), SubstituteExprs(ts[1..], s));
    }
  }

  lemma ConsEqual(a: TypeExpr, x: seq<TypeExpr>, b: TypeExpr, y: seq<TypeExpr>)
    ensures [a] + x == [b] + y <==> a == b && x == y
  {
    assert ([a] + x)[0] == a && ([b] + y)[0] == b && ([a] + x)[1..] == x && ([b] + y)[1..] == y;
  }

  lemma {:induction false} RebuiltIsWellFormed(t: TypeExpr, glued: bool, s: map<Name, TypeExpr>)
    requires WellFormed(t) && ParameterMap(s)
    ensures WellFormed(Rebuilt(t, glued, s))
    decreases t, 0
  {
    if t.Applied? { RebuiltArgsAreWellFormed(t.args, true, true, s); }
  }

  lemma {:induction false} RebuiltArgsAreWellFormed(ts: seq<TypeExpr>, first: bool, last: bool, s: map<Name, TypeExpr>)
    requires (forall i :: 0 <= i < |ts| ==> WellFormed(ts[i])) && ParameterMap(s)
    ensures forall i :: 0 <= i < |ts| ==> WellFormed(RebuiltArgs(ts, first, last, s)[i])
    decreases ts, 0
  {
    if ts != [] {
      RebuiltIsWellFormed(ts[0], first || (|ts| == 1 && last), s);
      RebuiltArgsAreWellFormed(ts[1..], false, last, s);
    }
  }

  // ---------------------------------------------------------------------
  // The split, substitute and join loop as one pass over the text
  // ---------------------------------------------------------------------

  function Token(token: string, s: map<Name, TypeExpr>): string {
    if token in s then TypeName(s[token]) else token
  }

  // The rest of the text is still to be read, after the token read so far.
  function Pass(token: string, text: string, s: map<Name, TypeExpr>): string
    decreases |text|, 1
  {
    if text == "" then Token(token, s)
    else if text[0] == ',' then Token(token, s) + Copy(text, s)
    else Pass(token + [text[0]], text[1..], s)
  }

  // The same after a token that is no parameter: copied up to the next comma.
  function Copy(text: string, s: map<Name, TypeExpr>): string
    decreases |text|, 0
  {
    if text == "" then ""
    else if text[0] == ',' then "," + Pass("", text[1..], s)
    else [text[0]] + Copy(text[1..], s)
  }

  lemma {:induction false} PassIsTheLoop(token: string, text: string, s: map<Name, TypeExpr>)
    requires ' ' !in token && ' ' !in text
    ensures Join(SubstituteTokens(SplitFrom(token, text), DescribeMap(s))) == Pass(token, text, s)
    decreases |text|
  {
    if text == "" {
      TrimKeeps(token);
      assert SubstituteTokens([token], DescribeMap(s)) == [Token(token, s)];
    } else if text[0] == ',' {
      TrimKeeps(token);
      PassIsTheLoop("", text[1..], s);
      var rest := SplitFrom("", text[1..]);
      var done := SubstituteTokens(rest, DescribeMap(s));
      SplitIsNotEmpty("", text[1..]);
      assert SubstituteTokens([token] + rest, DescribeMap(s)) == [Token(token, s)] + done;
      assert ([Token(token, s)] + done)[1..] == done;
      Associative(Token(token, s), ",", Join(done));
    } else {
      PassIsTheLoop(token + [text[0]], text[1..], s);
    }
  }

  lemma {:induction false} SplitIsNotEmpty(token: string, text: string)
    ensures SplitFrom(token, text) != []
    decreases |text|
  {
    if text != "" && text[0] != ',' { SplitIsNotEmpty(token + [text[0]], text[1..]); }
  }

  function Blanks(n: nat): string {
    if n == 0 then "" else " " + Blanks(n - 1)
  }

  lemma {:induction false} BlanksLeft(n: nat, s: string)
    requires s == "" || s[0] != ' '
    ensures TrimLeft(Blanks(n) + s) == s
  {
    if n == 0 {
      assert Blanks(n) + s == s;
    } else {
      BlanksLeft(n - 1, s);
      assert (Blanks(n) + s)[1..] == Blanks(n - 1) + s;
    }
  }

  lemma {:induction false} BlanksRight(s: string, n: nat)
    requires s == "" || s[|s| - 1] != ' '
    ensures TrimRight(s + Blanks(n)) == s
  {
    if n == 0 {
      assert s + Blanks(n) == s;
    } else {
      BlanksRight(s, n - 1);
      LastBlank(n);
      var t := s + Blanks(n);
      assert t[..|t| - 1] == s + Blanks(n - 1);
    }
  }

  lemma {:induction false} LastBlank(n: nat)
    requires n > 0
    ensures Blanks(n) == Blanks(n - 1) + " "
  {
    if n > 1 { LastBlank(n - 1); }
  }

  // Blanks around a token play no part.
  lemma TrimRemovesBlanks(m: nat, token: string, n: nat)
    requires token != "" && token[0] != ' ' && token[|token| - 1] != ' '
    ensures Trim(Blanks(m) + (token + Blanks(n))) == token
  {
    BlanksLeft(m, token + Blanks(n));
    BlanksRight(token, n);
  }

  // A token with a bracket in it is no parameter.
  lemma {:induction false} BracketIsCopied(token: string, text: string, s: map<Name, TypeExpr>)
    requires ParameterMap(s) && !NoDelimiter(token)
    ensures Pass(token, text, s) == token + Copy(text, s)
    decreases |text|
  {
    if text != "" && text[0] != ',' {
      var longer := token + [text[0]];
      assert longer[..|token|] == token;
      BracketIsCopied(longer, text[1..], s);
      Associative(token, [text[0]], Copy(text[1..], s));
    }
  }

  lemma {:induction false} PassName(token: string, name: string, more: string, s: map<Name, TypeExpr>)
    requires NoDelimiter(name)
    ensures Pass(token, name + more, s) == Pass(token + name, more, s)
    decreases |name|
  {
    if name == "" {
      assert name + more == more && token + name == token;
    } else {
      assert (name + more)[1..] == name[1..] + more && (name + more)[0] == name[0];
      PassName(token + [name[0]], name[1..], more, s);
      assert token + [name[0]] + name[1..] == token + name;
    }
  }

  lemma {:induction false} CopyName(name: string, more: string, s: map<Name, TypeExpr>)
    requires NoDelimiter(name)
    ensures Copy(name + more, s) == name + Copy(more, s)
    decreases |name|
  {
    if name == "" {
      assert name + more == more && name + Copy(more, s) == Copy(more, s);
    } else {
      assert (name + more)[1..] == name[1..] + more && (name + more)[0] == name[0];
      CopyName(name[1..], more, s);
      Associative([name[0]], name[1..], Copy(more, s));
      assert [name[0]] + name[1..] == name;
    }
  }

  // Whether the text that follows a type glues a bracket to it.
  predicate Glues(more: string) {
    more != "" && more[0] == '>'
  }

  // A bare name is substituted exactly if no bracket follows.
  lemma PassBareName(name: string, more: string, s: map<Name, TypeExpr>)
    requires NoDelimiter(name) && IsTail(more) && ParameterMap(s)
    ensures Pass("", name + more, s) == (if Glues(more) then name else Token(name, s)) + Copy(more, s)
  {
    PassName("", name, more, s);
    assert "" + name == name;
    if Glues(more) {
      var longer := name + [more[0]];
      assert longer[|name|] == '>';
      BracketIsCopied(longer, more[1..], s);
      Associative(name, [more[0]], Copy(more[1..], s));
    } else if more == "" {
      assert Token(name, s) + "" == Token(name, s);
    }
  }

  // The opening bracket of a generic type is copied with its name.
  lemma OpenBracket(base: string, rest: string, s: map<Name, TypeExpr>)
    requires NoDelimiter(base) && ParameterMap(s)
    ensures Pass("", base + ("<" + rest), s) == base + ("<" + Copy(rest, s))
    ensures Copy(base + ("<" + rest), s) == base + ("<" + Copy(rest, s))
  {
    assert ("<" + rest)[1..] == rest && ("<" + rest)[0] == '<';
    PassName("", base, "<" + rest, s);
    assert "" + base == base;
    var longer := base + ['<'];
    assert longer[|base|] == '<';
    BracketIsCopied(longer, rest, s);
    Associative(base, "<", Copy(rest, s));
    CopyName(base, "<" + rest, s);
  }

  lemma {:induction false} PassType(t: TypeExpr, more: string, s: map<Name, TypeExpr>)
    requires WellFormed(t) && IsTail(more) && ParameterMap(s)
    ensures Pass("", Print(t, more), s) == Print(Rebuilt(t, Glues(more), s), Copy(more, s))
    ensures Copy(Print(t, more), s) == Print(Rebuilt(t, true, s), Copy(more, s))
    decreases t, 0
  {
    if t.Applied? {
      var tail := ">" + more;
      PassArgs(t.args, true, tail, s);
      assert tail[1..] == more;
      OpenBracket(t.base, PrintAll(t.args, tail), s);
    } else {
      HeadHasNoDelimiter(t);
      PassBareName(Head(t), more, s);
      CopyName(Head(t), more, s);
      if t.Primitive? { PrimitiveIsNoParameter(t, s); }
      if t.Named? && t.name in s { PrintIsTypeName(s[t.name], Copy(more, s)); }
    }
  }

  lemma {:induction false} PassArgs(ts: seq<TypeExpr>, first: bool, tail: string, s: map<Name, TypeExpr>)
    requires ts != [] && (forall i :: 0 <= i < |ts| ==> WellFormed(ts[i])) && IsTail(tail) && ParameterMap(s)
    ensures (if first then Copy(PrintAll(ts, tail), s) else Pass("", PrintAll(ts, tail), s))
            == PrintAll(RebuiltArgs(ts, first, Glues(tail), s), Copy(tail, s))
    decreases ts, 0
  {
    var rest := RebuiltArgs(ts[1..], false, Glues(tail), s);
    var head := Rebuilt(ts[0], first || (|ts| == 1 && Glues(tail)), s);
    assert ([head] + rest)[1..] == rest;
    if |ts| == 1 {
      PassType(ts[0], tail, s);
    } else {
      PassArgs(ts[1..], false, tail, s);
      var more := "," + PrintAll(ts[1..], tail);
      assert more[1..] == PrintAll(ts[1..], tail);
      PassType(ts[0], more, s);
    }
  }

  lemma {:induction false} NoBlankInPrint(t: TypeExpr, more: string)
    requires WellFormed(t) && ' ' !in more
    ensures ' ' !in Print(t, more)
    decreases t, 0
  {
    if t.Applied? { NoBlankInPrintAll(t.args, ">" + more); }
  }

  lemma {:induction false} NoBlankInPrintAll(ts: seq<TypeExpr>, more: string)
    requires (forall i :: 0 <= i < |ts| ==> WellFormed(ts[i])) && ' ' !in more
    ensures ' ' !in PrintAll(ts, more)
    decreases ts, 0
  {
    if |ts| == 1 {
      NoBlankInPrint(ts[0], more);
    } else if ts != [] {
      NoBlankInPrintAll(ts[1..], more);
      NoBlankInPrint(ts[0], "," + PrintAll(ts[1..], more));
    }
  }

  lemma TrimKeeps(s: string)
    requires ' ' !in s
    ensures Trim(s) == s
  {
    assert s != "" ==> s[0] in s && s[|s| - 1] in s;
  }

  lemma {:induction false} FirstIndexOfBracket(base: string, rest: string)
    requires NoDelimiter(base)
    ensures FirstIndex(base + "<" + rest, '<') == |base|
  {
    var s := base + "<" + rest;
    if base == "" {
      assert s[0] == '<';
    } else {
      FirstIndexOfBracket(base[1..], rest);
      assert s[1..] == base[1..] + "<" + rest && s[0] == base[0];
    }
  }

  lemma BracketedInstance(base: Name, inner: string)
    requires NoDelimiter(base)
    ensures Bracketed(base + "<" + inner + ">") == inner
  {
    var name := base + "<" + inner + ">";
    FirstIndexOfBracket(base, inner + ">");
    assert name == base + "<" + (inner + ">");
    assert name[|name| - 1] == '>';
    assert LastIndex(name, '>') == |name| - 1;
    assert name[|base| + 1..|name| - 1] == inner;
  }

  lemma RebuildPassesText(base: Name, text: string, s: map<Name, TypeExpr>)
    requires NoDelimiter(base) && ' ' !in text
    ensures RebuildName(base, base + "<" + text + ">", DescribeMap(s)) == base + "<" + Pass("", text, s) + ">"
  {
    BracketedInstance(base, text);
    PassIsTheLoop("", text, s);
  }

  // The pass over the printed arguments.
  lemma PassPrintedArgs(ts: seq<TypeExpr>, s: map<Name, TypeExpr>)
    requires ts != [] && (forall i :: 0 <= i < |ts| ==> WellFormed(ts[i])) && ParameterMap(s)
    ensures var text := Join(Strings(DescribeAll(ts)));
            && ' ' !in text
            && Pass("", text, s) == Join(Strings(DescribeAll(RebuiltArgs(ts, false, false, s))))
  {
    var us := RebuiltArgs(ts, false, false, s);
    PrintAllIsJoin(ts, "");
    assert Join(Strings(DescribeAll(ts))) + "" == Join(Strings(DescribeAll(ts)));
    NoBlankInPrintAll(ts, "");
    PassArgs(ts, false, "", s);
    PrintAllIsJoin(us, "");
    assert Join(Strings(DescribeAll(us))) + "" == Join(Strings(DescribeAll(us)));
  }

  // What rebuilding gives, for any nesting of arguments.
  lemma RebuildGivesRebuilt(base: Name, ts: seq<TypeExpr>, s: map<Name, TypeExpr>)
    requires WellFormed(Applied(base, ts)) && ParameterMap(s)
    ensures RebuildName(base, TypeName(Applied(base, ts)), DescribeMap(s))
            == TypeName(Applied(base, RebuiltArgs(ts, false, false, s)))
  {
    var text, us := Join(Strings(DescribeAll(ts))), RebuiltArgs(ts, false, false, s);
    PassPrintedArgs(ts, s);
    AppliedName(base, ts);
    AppliedName(base, us);
    RebuildPassesText(base, text, s);
  }

  lemma AppliedName(base: Name, ts: seq<TypeExpr>)
    ensures TypeName(Applied(base, ts)) == base + "<" + Join(Strings(DescribeAll(ts))) + ">"
  {
  }

  // An output type of the struct itself is rebuilt as meant if and only if no
  // parameter that changes is the first, the last or the only argument of a type
  // nested in it.
  lemma RebuildIsExact(base: Name, ts: seq<TypeExpr>, s: map<Name, TypeExpr>)
    requires WellFormed(Applied(base, ts)) && ParameterMap(s)
    ensures RebuildName(base, TypeName(Applied(base, ts)), DescribeMap(s))
            == TypeName(SubstituteExpr(Applied(base, ts), s))
            <==> forall n :: Changes(s, n) ==> !StuckInAny(n, ts, false, false)
  {
    var us := RebuiltArgs(ts, false, false, s);
    RebuildGivesRebuilt(base, ts, s);
    RebuiltArgsAreWellFormed(ts, false, false, s);
    SubstituteKeepsWellFormed(Applied(base, ts), s);
    PrintingIsInjective(Applied(base, us), SubstituteExpr(Applied(base, ts), s));
    RebuiltArgsAsMeant(ts, false, false, s);
  }

  // The only argument of a nested type keeps its parameter: "Box<Box<T>>" is unchanged.
  lemma NestedParameterIsNotRebuilt()
    ensures var s, t := map["T" := Primitive(FloatType)], Applied("Box", [Applied("Box", [Named("T")])]);
            && RebuildName("Box", TypeName(t), DescribeMap(s)) == TypeName(t)
            && TypeName(SubstituteExpr(t, s)) != TypeName(t)
  {
    var s: map<Name, TypeExpr> := map["T" := Primitive(FloatType)];
    assert IsName("Box") && IsName("T");
    OnlyArgumentIsKept("Box", "Box", "T", s);
  }

  lemma OnlyArgumentIsKept(base: Name, nested: Name, n: Name, s: map<Name, TypeExpr>)
    requires IsName(base) && IsName(nested) && IsName(n) && ParameterMap(s) && Changes(s, n)
    ensures var t := Applied(base, [Applied(nested, [Named(n)])]);
            && RebuildName(base, TypeName(t), DescribeMap(s)) == TypeName(t)
            && TypeName(SubstituteExpr(t, s)) != TypeName(t)
  {
    var inner := Applied(nested, [Named(n)]);
    RebuildGivesRebuilt(base, [inner], s);
    RebuildIsExact(base, [inner], s);
    assert RebuiltArgs([Named(n)], true, true, s) == [Named(n)];
    assert StuckInAny(n, [Named(n)], true, true);
    assert RebuiltArgs([inner], false, false, s) == [inner];
    assert StuckInAny(n, [inner], false, false);
  }

  // One in the middle is replaced: "Box<Tri<int,T,int>>" becomes "Box<Tri<int,float,int>>".
  lemma MiddleParameterIsRebuilt()
    ensures var s, int_ := map["T" := Primitive(FloatType)], Primitive(IntType);
            RebuildName("Box", TypeName(Applied("Box", [Applied("Tri", [int_, Named("T"), int_])])), DescribeMap(s))
            == TypeName(Applied("Box", [Applied("Tri", [int_, Primitive(FloatType), int_])]))
  {
    var s, int_ := map["T" := Primitive(FloatType)], Primitive(IntType);
    assert IsName("Box") && IsName("Tri") && IsName("T");
    MiddleOfThree("Box", "Tri", int_, Named("T"), int_, s);
  }

  lemma MiddleOfThree(base: Name, nested: Name, a: TypeExpr, b: TypeExpr, c: TypeExpr, s: map<Name, TypeExpr>)
    requires IsName(base) && IsName(nested) && WellFormed(a) && WellFormed(b) && WellFormed(c) && ParameterMap(s)
    ensures RebuildName(base, TypeName(Applied(base, [Applied(nested, [a, b, c])])), DescribeMap(s))
            == TypeName(Applied(base,
                                [Applied(nested, [Rebuilt(a, true, s), Rebuilt(b, false, s), Rebuilt(c, true, s)])]))
  {
    var t := Applied(nested, [a, b, c]);
    RebuildGivesRebuilt(base, [t], s);
    ArgsOfThree(a, b, c, s);
    assert RebuiltArgs([t], false, false, s) == [Rebuilt(t, false, s)];
  }

  lemma ArgsOfThree(a: TypeExpr, b: TypeExpr, c: TypeExpr, s: map<Name, TypeExpr>)
    ensures RebuiltArgs([a, b, c], true, true, s) == [Rebuilt(a, true, s), Rebuilt(b, false, s), Rebuilt(c, true, s)]
  {
    assert [a, b, c][1..] == [b, c] && [b, c][1..] == [c];
    assert RebuiltArgs([c], false, true, s) == [Rebuilt(c, true, s)];
    assert RebuiltArgs([b, c], false, true, s) == [Rebuilt(b, false, s), Rebuilt(c, true, s)];
  }

  // Arguments without brackets are always rebuilt as meant, whatever brackets and
  // commas the types that replace them bring in.
  lemma RebuildSubstitutesFlatArguments(base: Name, ts: seq<TypeExpr>, s: map<Name, TypeExpr>)
    requires WellFormed(Applied(base, ts)) && ParameterMap(s) && forall i :: 0 <= i < |ts| ==> !ts[i].Applied?
    ensures RebuildName(base, TypeName(Applied(base, ts)), DescribeMap(s))
            == TypeName(SubstituteExpr(Applied(base, ts), s))
  {
    RebuildIsExact(base, ts, s);
    forall n | Changes(s, n) ensures !StuckInAny(n, ts, false, false) { NothingStuck(n, ts); }
  }

  lemma {:induction false} NothingStuck(n: Name, ts: seq<TypeExpr>)
    requires forall i :: 0 <= i < |ts| ==> !ts[i].Applied?
    ensures !StuckInAny(n, ts, false, false)
  {
    if ts != [] { NothingStuck(n, ts[1..]); }
  }

  // ---------------------------------------------------------------------
  // All output types
  // ---------------------------------------------------------------------

  // The parameter n occurs as a token of its own.
  predicate Exposed(n: Name, t: TypeExpr, glued: bool)
    decreases t, 0
  {
    match t
    case Primitive(_) => false
    case Named(m) => !glued && m == n
    case Applied(_, args) => ExposedInAny(n, args, true, true)
  }

  predicate ExposedInAny(n: Name, ts: seq<TypeExpr>, first: bool, last: bool)
    decreases ts, 0
  {
    ts != [] && (Exposed(n, ts[0], first || (|ts| == 1 && last)) || ExposedInAny(n, ts[1..], false, last))
  }

  lemma {:induction false} RebuiltUnchanged(t: TypeExpr, glued: bool, s: map<Name, TypeExpr>)
    ensures Rebuilt(t, glued, s) == t <==> forall n :: Changes(s, n) ==> !Exposed(n, t, glued)
    decreases t, 0
  {
    match t {
      case Primitive(_) =>
      case Named(m) =>
        if m in s && s[m] != t { assert Changes(s, m) && (Exposed(m, t, glued) <==> !glued); }
      case Applied(_, args) => RebuiltArgsUnchanged(args, true, true, s);
    }
  }

  lemma {:induction false} RebuiltArgsUnchanged(ts: seq<TypeExpr>, first: bool, last: bool, s: map<Name, TypeExpr>)
    ensures RebuiltArgs(ts, first, last, s) == ts <==> forall n :: Changes(s, n) ==> !ExposedInAny(n, ts, first, last)
    decreases ts, 0
  {
    if ts != [] {
      var glued := first || (|ts| == 1 && last);
      RebuiltUnchanged(ts[0], glued, s);
      RebuiltArgsUnchanged(ts[1..], false, last, s);
      ConsEqual(Rebuilt(ts[0], glued, s), RebuiltArgs(ts[1..], false, last, s), ts[0], ts[1..]);
      assert ts == [ts[0]] + ts[1..];
    }
  }

  // What an output type should become: the struct's bare name means the instance
  // itself, and everything else is substituted.
  function Meant(t: TypeExpr, instance: TypeExpr, s: map<Name, TypeExpr>): TypeExpr
    requires instance.Applied?
  {
    if t == Named(instance.base) && instance.base !in s then instance else SubstituteExpr(t, s)
  }

  // When an output type becomes what it should: for a type in brackets it depends
  // on whose brackets they are.  A parameter must not stand for the bare struct,
  // nor for an instance of it in which a parameter's name is a token again, since
  // what replaces a parameter is rebuilt as well.
  ghost predicate OutputIsSafe(t: TypeExpr, base: Name, s: map<Name, TypeExpr>) {
    match t
    case Primitive(_) => true
    case Named(n) =>
      n in s ==>
        && s[n] != Named(base)
        && (s[n].Applied? && s[n].base == base ==>
              forall m :: Changes(s, m) ==> !ExposedInAny(m, s[n].args, false, false))
    case Applied(b, args) =>
      forall n :: Changes(s, n) ==> if b == base then !StuckInAny(n, args, false, false) else !Occurs(n, t)
  }

  lemma OutputIsExact(t: TypeExpr, instance: TypeExpr, s: map<Name, TypeExpr>)
    requires WellFormed(t) && WellFormed(instance) && instance.Applied? && ParameterMap(s)
    ensures ToString(OutputType(Describe(t), instance.base, TypeName(instance), DescribeMap(s)))
            == TypeName(Meant(t, instance, s))
            <==> OutputIsSafe(t, instance.base, s)
  {
    match t {
      case Primitive(_) => PrimitiveIsNoParameter(t, s);
      case Named(n) => NamedOutputIsExact(n, instance, s);
      case Applied(_, _) => AppliedOutputIsExact(t, instance, s);
    }
  }

  lemma NamedOutputIsExact(n: Name, instance: TypeExpr, s: map<Name, TypeExpr>)
    requires IsName(n) && WellFormed(instance) && instance.Applied? && ParameterMap(s)
    ensures ToString(OutputType(StructType(n, []), instance.base, TypeName(instance), DescribeMap(s)))
            == TypeName(Meant(Named(n), instance, s))
            <==> OutputIsSafe(Named(n), instance.base, s)
  {
    if n in s {
      ReplacementIsExact(s[n], instance, s);
    } else {
      RenamedOutput(Named(n), instance);
    }
  }

  lemma AppliedOutputIsExact(t: TypeExpr, instance: TypeExpr, s: map<Name, TypeExpr>)
    requires WellFormed(t) && WellFormed(instance) && t.Applied? && instance.Applied? && ParameterMap(s)
    ensures ToString(OutputType(Describe(t), instance.base, TypeName(instance), DescribeMap(s)))
            == TypeName(SubstituteExpr(t, s))
            <==> OutputIsSafe(t, instance.base, s)
  {
    AppliedIsKept(t, s);
    RenamedOutput(t, instance);
    if t.base == instance.base {
      RebuildIsExact(t.base, t.args, s);
    } else {
      SubstitutionIsExactOutsideBrackets(t, s);
    }
  }

  // Which branch a substituted output type takes.
  lemma RenamedOutput(u: TypeExpr, instance: TypeExpr)
    requires WellFormed(u) && WellFormed(instance) && instance.Applied?
    ensures TypeName(u) == instance.base <==> u == Named(instance.base)
    ensures instance.base + "<" <= TypeName(u) <==> u.Applied? && u.base == instance.base
  {
    PrintingIsInjective(u, Named(instance.base));
    if u.Applied? {
      SameBracket(u.base, instance.base, Join(Strings(DescribeAll(u.args))) + ">");
      Associative(u.base, "<", Join(Strings(DescribeAll(u.args))) + ">");
      Associative(u.base + "<", Join(Strings(DescribeAll(u.args))), ">");
    } else {
      HeadHasNoDelimiter(u);
      if instance.base + "<" <= TypeName(u) { BracketInPrefix(TypeName(u), instance.base); }
    }
  }

  lemma BracketInPrefix(text: string, base: Name)
    requires base + "<" <= text
    ensures '<' in text
  {
    assert text[|base|] == (base + "<")[|base|];
  }

  lemma SameBracket(a: Name, b: Name, rest: string)
    requires NoDelimiter(a) && NoDelimiter(b)
    ensures b + "<" <= a + ("<" + rest) <==> a == b
  {
    var text := a + ("<" + rest);
    if b + "<" <= text {
      var more := text[|b| + 1..];
      assert text == (b + "<") + more == b + ("<" + more);
      SplitAtDelimiter(a, "<" + rest, b, "<" + more);
    }
    Associative(a, "<", rest);
  }

  // A type that has replaced a parameter is treated like an output type again.
  lemma ReplacementIsExact(u: TypeExpr, instance: TypeExpr, s: map<Name, TypeExpr>)
    requires WellFormed(u) && WellFormed(instance) && instance.Applied? && ParameterMap(s)
    ensures var base := instance.base;
            var name := if TypeName(u) == base then TypeName(instance)
                        else if base + "<" <= TypeName(u) then RebuildName(base, TypeName(u), DescribeMap(s))
                        else TypeName(u);
            name == TypeName(u)
            <==> u != Named(base)
                 && (u.Applied? && u.base == base ==>
                       forall m :: Changes(s, m) ==> !ExposedInAny(m, u.args, false, false))
  {
    RenamedOutput(u, instance);
    PrintingIsInjective(u, instance);
    if u.Applied? && u.base == instance.base {
      RebuildGivesRebuilt(u.base, u.args, s);
      RebuiltArgsAreWellFormed(u.args, false, false, s);
      PrintingIsInjective(u, Applied(u.base, RebuiltArgs(u.args, false, false, s)));
      RebuiltArgsUnchanged(u.args, false, false, s);
    }
  }

  // Parameter i stands for type i.
  function ParametersAs(params: seq<Name>, ts: seq<TypeExpr>): map<Name, TypeExpr>
    requires |params| == |ts|
  {
    if params == [] then map[] else ParametersAs(params[1..], ts[1..])[params[0] := ts[0]]
  }

  lemma {:induction false} DescribedParameters(params: seq<Name>, ts: seq<TypeExpr>)
    requires |params| == |ts|
    ensures DescribeMap(ParametersAs(params, ts)) == MakeSubstitution(params, DescribeAll(ts))
    decreases |params|
  {
    if params != [] {
      DescribedParameters(params[1..], ts[1..]);
      assert DescribeAll(ts)[1..] == DescribeAll(ts[1..]);
      var s := ParametersAs(params[1..], ts[1..]);
      assert DescribeMap(s[params[0] := ts[0]]) == DescribeMap(s)[params[0] := Describe(ts[0])];
    }
  }

  lemma {:induction false} ParametersAreMapped(params: seq<Name>, ts: seq<TypeExpr>)
    requires |params| == |ts| && forall i, j :: 0 <= i < j < |params| ==> params[i] != params[j]
    requires forall i :: 0 <= i < |params| ==> IsName(params[i]) && WellFormed(ts[i])
    ensures ParameterMap(ParametersAs(params, ts))
    ensures forall i :: 0 <= i < |params| ==>
            params[i] in ParametersAs(params, ts) && ParametersAs(params, ts)[params[i]] == ts[i]
    decreases |params|
  {
    if params != [] {
      ParametersAreMapped(params[1..], ts[1..]);
      forall i | 0 <= i < |params|
        ensures params[i] in ParametersAs(params, ts) && ParametersAs(params, ts)[params[i]] == ts[i]
      {
        if i > 0 { assert params[i] == params[1..][i - 1] && ts[i] == ts[1..][i - 1]; }
      }
    }
  }

  function ParameterTypes(params: seq<Name>): (r: seq<TypeExpr>)
    ensures |r| == |params|
  {
    seq(|params|, i requires 0 <= i < |params| => Named(params[i]))
  }

  // A routine that returns the generic struct applied to its own parameters, in
  // order, returns in every instance exactly the name under which the instance is
  // registered.
  lemma SelfReferenceBecomesRegisteredName(base: Name, params: seq<Name>, ts: seq<TypeExpr>)
    requires |params| == |ts| && WellFormed(Applied(base, ts))
    requires forall i, j :: 0 <= i < j < |params| ==> params[i] != params[j]
    requires forall i :: 0 <= i < |params| ==> IsName(params[i])
    ensures var args := DescribeAll(ts);
            var self := Describe(Applied(base, ParameterTypes(params)));
            ToString(OutputType(self, base, InstanceName(base, args), MakeSubstitution(params, args)))
            == InstanceName(base, args)
  {
    var s, self := ParametersAs(params, ts), Applied(base, ParameterTypes(params));
    DescribedParameters(params, ts);
    ParametersAreMapped(params, ts);
    ParametersBecomeArguments(params, ts);
    OutputIsExact(self, Applied(base, ts), s);
    forall n | Changes(s, n) ensures !StuckInAny(n, self.args, false, false) { NothingStuck(n, self.args); }
  }

  lemma ParametersBecomeArguments(params: seq<Name>, ts: seq<TypeExpr>)
    requires |params| == |ts| && forall i, j :: 0 <= i < j < |params| ==> params[i] != params[j]
    requires forall i :: 0 <= i < |params| ==> IsName(params[i]) && WellFormed(ts[i])
    ensures SubstituteExprs(ParameterTypes(params), ParametersAs(params, ts)) == ts
  {
    ParametersAreMapped(params, ts);
    var us := SubstituteExprs(ParameterTypes(params), ParametersAs(params, ts));
    forall i | 0 <= i < |ts| ensures us[i] == ts[i] {
      assert ParameterTypes(params)[i] == Named(params[i]);
    }
  }
}
