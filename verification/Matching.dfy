// How the arguments of a call are paired with the parameters of a signature.
module Matching {
  import opened Prelude
  import opened Ast

  datatype ParamSpec = ParamSpec(name: Name, required: bool)

  // What the call does for one parameter: evaluate argument number arg, store
  // nil, or stop because a required parameter has no argument left.
  datatype Binding =
    | FromArgument(param: Name, arg: nat)
    | NilDefault(param: Name)
    | Missing(param: Name)

  type Names = seq<Option<Name>>

  // The first argument with the given name, from position i on.
  function FindNamed(names: Names, name: Name, i: nat): (r: nat)
    requires i <= |names|
    ensures i <= r <= |names|
    ensures r < |names| ==> names[r] == Some(name)
    ensures forall j :: i <= j < r ==> names[j] != Some(name)
    decreases |names| - i
  {
    if i == |names| || names[i] == Some(name) then i else FindNamed(names, name, i + 1)
  }

  // The first positional argument that is not assigned yet.
  function FindFree(names: Names, taken: set<nat>, i: nat): (r: nat)
    requires i <= |names|
    ensures i <= r <= |names|
    ensures r < |names| ==> names[r] == None && r !in taken
    ensures forall j :: i <= j < r ==> names[j] != None || j in taken
    decreases |names| - i
  {
    if i == |names| || (names[i] == None && i !in taken) then i else FindFree(names, taken, i + 1)
  }

  // The argument taken by one parameter: its named argument, else the first free
  // positional one, else none (the number of arguments).
  function Choose(names: Names, taken: set<nat>, param: Name): (r: nat)
    ensures r <= |names|
  {
    var named := FindNamed(names, param, 0);
    if named < |names| then named else FindFree(names, taken, 0)
  }

  // One pass over the parameters that are required (or that are not).
  function PassFrom(params: seq<ParamSpec>, names: Names, required: bool, taken: set<nat>): (seq<Binding>, set<nat>)
  {
    if params == [] then ([], taken)
    else if params[0].required != required then PassFrom(params[1..], names, required, taken)
    else
      var arg := Choose(names, taken, params[0].name);
      if arg < |names| then
        var (rest, taken') := PassFrom(params[1..], names, required, taken + {arg});
        ([FromArgument(params[0].name, arg)] + rest, taken')
      else if required then ([Missing(params[0].name)], taken)
      else
        var (rest, taken') := PassFrom(params[1..], names, required, taken);
        ([NilDefault(params[0].name)] + rest, taken')
  }

  predicate Stops(plan: seq<Binding>) {
    plan != [] && plan[|plan| - 1].Missing?
  }

  // Required parameters first, then optional ones.
  function Plan(params: seq<ParamSpec>, names: Names): seq<Binding> {
    var (first, taken) := PassFrom(params, names, true, {});
    if Stops(first) then first else first + PassFrom(params, names, false, taken).0
  }

  // ---------------------------------------------------------------------
  // The matching as the source computes it
  // ---------------------------------------------------------------------

  ghost function TakenSet(taken: array<bool>): set<nat>
    reads taken
  {
    set i: nat | i < taken.Length && taken[i]
  }

  method FindArgument(names: Names, taken: array<bool>, param: Name) returns (arg: nat)
    requires taken.Length == |names|
    ensures arg == Choose(names, TakenSet(taken), param)
  {
    arg := 0;
    while arg < |names| && names[arg] != Some(param)
      invariant arg <= |names| && FindNamed(names, param, 0) == FindNamed(names, param, arg)
    {
      arg := arg + 1;
    }
    if arg < |names| {
      return;
    }
    arg := 0;
    while arg < |names| && !(names[arg] == None && !taken[arg])
      invariant arg <= |names| && FindFree(names, TakenSet(taken), 0) == FindFree(names, TakenSet(taken), arg)
    {
      arg := arg + 1;
    }
  }

  // One loop over the parameters that are required, or over the others.
  method MatchPass(params: seq<ParamSpec>, names: Names, required: bool, taken: array<bool>)
    returns (plan: seq<Binding>)
    requires taken.Length == |names|
    modifies taken
    ensures plan == PassFrom(params, names, required, old(TakenSet(taken))).0
    ensures TakenSet(taken) == PassFrom(params, names, required, old(TakenSet(taken))).1
  {
    plan := [];
    ghost var taken0 := TakenSet(taken);
    for i := 0 to |params|
      invariant PassFrom(params, names, required, taken0).0
                == plan + PassFrom(params[i..], names, required, TakenSet(taken)).0
      invariant PassFrom(params, names, required, taken0).1
                == PassFrom(params[i..], names, required, TakenSet(taken)).1
    {
      assert params[i..][0] == params[i] && params[i..][1..] == params[i + 1..];
      if params[i].required == required {
        var arg := FindArgument(names, taken, params[i].name);
        if arg < |names| {
          ghost var before := TakenSet(taken);
          plan := plan + [FromArgument(params[i].name, arg)];
          taken[arg] := true;
          assert TakenSet(taken) == before + {arg};
        } else if required {
          plan := plan + [Missing(params[i].name)];
          return;
        } else {
          plan := plan + [NilDefault(params[i].name)];
        }
      }
    }
    assert params[|params|..] == [];
  }

  method MatchArguments(params: seq<ParamSpec>, names: Names) returns (plan: seq<Binding>)
    ensures plan == Plan(params, names)
  {
    var taken := new bool[|names|](_ => false);
    assert TakenSet(taken) == {};
    plan := MatchPass(params, names, true, taken);
    if !Stops(plan) {
      var rest := MatchPass(params, names, false, taken);
      plan := plan + rest;
    }
  }

  // ---------------------------------------------------------------------
  // What the matching means
  // ---------------------------------------------------------------------

  // The numbers of the positional arguments, in order.
  function Positionals(names: Names): seq<nat> {
    if names == [] then []
    else
      var k := |names| - 1;
      Positionals(names[..k]) + if names[k] == None then [k] else []
  }

  predicate IsNamed(names: Names, param: Name) {
    Some(param) in names
  }

  // How many of the parameters the call does not name.
  function Unnamed(params: seq<ParamSpec>, names: Names): nat {
    if params == [] then 0 else Step(params[0], names) + Unnamed(params[1..], names)
  }

  function Only(params: seq<ParamSpec>, required: bool): seq<ParamSpec> {
    if params == [] then []
    else if params[0].required == required then [params[0]] + Only(params[1..], required)
    else Only(params[1..], required)
  }

  // The order in which parameters are served.
  function Order(params: seq<ParamSpec>): seq<ParamSpec> {
    Only(params, true) + Only(params, false)
  }

  // What parameter q gets when rank parameters before it were not named.
  ghost predicate Serves(b: Binding, q: ParamSpec, names: Names, rank: nat) {
    if IsNamed(names, q.name) then
      b.FromArgument? && b.param == q.name && b.arg < |names| && names[b.arg] == Some(q.name)
        && Some(q.name) !in names[..b.arg]
    else if rank < |Positionals(names)| then b == FromArgument(q.name, Positionals(names)[rank])
    else if q.required then b == Missing(q.name)
    else b == NilDefault(q.name)
  }

  // The plan serves the parameters in order and stops only at a missing argument.
  ghost predicate IsMatching(plan: seq<Binding>, order: seq<ParamSpec>, names: Names, rank: nat) {
    if plan == [] then order == []
    else
      && order != [] && Serves(plan[0], order[0], names, rank)
      && if plan[0].Missing? then |plan| == 1
         else IsMatching(plan[1..], order[1..], names, rank + Step(order[0], names))
  }

  function Step(q: ParamSpec, names: Names): nat {
    if IsNamed(names, q.name) then 0 else 1
  }

  lemma {:induction false} PositionalsAreSorted(names: Names)
    ensures var ps := Positionals(names);
            && |ps| <= |names|
            && (forall k :: 0 <= k < |ps| ==> ps[k] < |names| && names[ps[k]] == None)
            && (forall k, l :: 0 <= k < l < |ps| ==> ps[k] < ps[l])
            && (forall i :: 0 <= i < |names| && names[i] == None ==> i in ps)
  {
    if names != [] {
      PositionalsAreSorted(names[..|names| - 1]);
    }
  }

  // The positional arguments taken so far are the first count of them.
  ghost predicate TakenPrefix(names: Names, taken: set<nat>, count: nat) {
    forall k: nat :: k < |Positionals(names)| ==> (Positionals(names)[k] in taken <==> k < count)
  }

  // The first free positional argument is the next one in order.
  lemma FreeIsNext(names: Names, taken: set<nat>, count: nat)
    requires TakenPrefix(names, taken, count)
    ensures var free := FindFree(names, taken, 0);
            if count < |Positionals(names)| then
              free == Positionals(names)[count] && TakenPrefix(names, taken + {free}, count + 1)
            else free == |names|
  {
    PositionalsAreSorted(names);
    var ps, free := Positionals(names), FindFree(names, taken, 0);
    if free < |names| {
      var k :| 0 <= k < |ps| && ps[k] == free;
      assert k >= count;
    }
    if count < |ps| {
      assert ps[count] !in taken;
      assert free <= ps[count];
    }
  }

  lemma NamedIsNotPositional(names: Names, taken: set<nat>, count: nat, arg: nat)
    requires TakenPrefix(names, taken, count) && arg < |names| && names[arg] != None
    ensures TakenPrefix(names, taken + {arg}, count)
  {
    PositionalsAreSorted(names);
  }

  // One parameter: what Choose finds for it, and what is taken afterwards.
  lemma ChooseServes(names: Names, taken: set<nat>, count: nat, q: ParamSpec)
    requires TakenPrefix(names, taken, count)
    ensures var arg := Choose(names, taken, q.name);
            && (arg < |names| ==> Serves(FromArgument(q.name, arg), q, names, count)
                                  && TakenPrefix(names, taken + {arg}, count + Step(q, names)))
            && (arg == |names| ==> !IsNamed(names, q.name) && count >= |Positionals(names)|
                                   && TakenPrefix(names, taken, count + Step(q, names)))
  {
    PositionalsAreSorted(names);
    var named := FindNamed(names, q.name, 0);
    if named < |names| {
      NamedIsNotPositional(names, taken, count, named);
    } else {
      assert !IsNamed(names, q.name);
      FreeIsNext(names, taken, count);
    }
  }

  lemma MatchingCons(b: Binding, plan: seq<Binding>, q: ParamSpec, order: seq<ParamSpec>, names: Names, rank: nat)
    requires !b.Missing? && Serves(b, q, names, rank) && IsMatching(plan, order, names, rank + Step(q, names))
    ensures IsMatching([b] + plan, [q] + order, names, rank)
    ensures Stops([b] + plan) <==> Stops(plan)
    ensures Unnamed([q] + order, names) == Step(q, names) + Unnamed(order, names)
  {
    assert ([b] + plan)[1..] == plan && ([q] + order)[1..] == order;
  }

  lemma {:induction false} PassMatches(params: seq<ParamSpec>, names: Names, required: bool, taken: set<nat>,
                                       count: nat)
    requires TakenPrefix(names, taken, count)
    ensures var (plan, taken') := PassFrom(params, names, required, taken);
            && IsMatching(plan, Only(params, required), names, count)
            && (!Stops(plan) ==> TakenPrefix(names, taken', count + Unnamed(Only(params, required), names)))
            && (Stops(plan) ==> required)
  {
    if params == [] {
    } else if params[0].required != required {
      PassMatches(params[1..], names, required, taken, count);
    } else {
      var q := params[0];
      var arg := Choose(names, taken, q.name);
      ChooseServes(names, taken, count, q);
      if arg < |names| || !required {
        var taken1 := if arg < |names| then taken + {arg} else taken;
        PassMatches(params[1..], names, required, taken1, count + Step(q, names));
        var (rest, taken') := PassFrom(params[1..], names, required, taken1);
        var b := if arg < |names| then FromArgument(q.name, arg) else NilDefault(q.name);
        assert PassFrom(params, names, required, taken) == ([b] + rest, taken');
        MatchingCons(b, rest, q, Only(params[1..], required), names, count);
      }
    }
  }

  lemma {:induction false} MatchingAppend(plan: seq<Binding>, order: seq<ParamSpec>, plan': seq<Binding>,
                                          order': seq<ParamSpec>, names: Names, rank: nat)
    requires IsMatching(plan, order, names, rank)
    requires Stops(plan) ==> plan' == []
    requires !Stops(plan) ==> IsMatching(plan', order', names, rank + Unnamed(order, names))
    ensures IsMatching(plan + plan', order + order', names, rank)
  {
    if plan == [] {
      assert plan + plan' == plan' && order + order' == order';
    } else {
      assert (plan + plan')[1..] == plan[1..] + plan' && (order + order')[1..] == order[1..] + order';
      if !plan[0].Missing? {
        MatchingAppend(plan[1..], order[1..], plan', order', names, rank + Step(order[0], names));
      }
    }
  }

  // Named arguments go to their parameters, and the k-th positional argument goes
  // to the k-th parameter that the call does not name, required ones first.
  lemma PlanIsMatching(params: seq<ParamSpec>, names: Names)
    ensures IsMatching(Plan(params, names), Order(params), names, 0)
  {
    PassMatches(params, names, true, {}, 0);
    var (first, taken) := PassFrom(params, names, true, {});
    if Stops(first) {
      MatchingAppend(first, Only(params, true), [], Only(params, false), names, 0);
      assert first + [] == first;
    } else {
      PassMatches(params, names, false, taken, Unnamed(Only(params, true), names));
      MatchingAppend(first, Only(params, true), PassFrom(params, names, false, taken).0, Only(params, false), names, 0);
    }
  }

  // The same, said of the parameter at position j.
  lemma {:induction false} MatchingAt(plan: seq<Binding>, order: seq<ParamSpec>, names: Names, rank: nat, j: nat)
    requires IsMatching(plan, order, names, rank) && j < |plan|
    ensures |plan| <= |order| && Serves(plan[j], order[j], names, rank + Unnamed(order[..j], names))
    ensures plan[j].Missing? ==> j == |plan| - 1
    ensures !Stops(plan) ==> |plan| == |order|
    decreases j, |plan|
  {
    if j > 0 {
      MatchingAt(plan[1..], order[1..], names, rank + Step(order[0], names), j - 1);
      assert order[..j][1..] == order[1..][..j - 1];
    } else if |plan| > 1 {
      MatchingAt(plan[1..], order[1..], names, rank + Step(order[0], names), 0);
    }
  }

  lemma {:induction false} OnlyKeepsKind(params: seq<ParamSpec>, required: bool)
    ensures forall i :: 0 <= i < |Only(params, required)| ==> Only(params, required)[i].required == required
  {
    if params != [] { OnlyKeepsKind(params[1..], required); }
  }

  lemma {:induction false} UnnamedAppend(a: seq<ParamSpec>, b: seq<ParamSpec>, names: Names)
    ensures Unnamed(a + b, names) == Unnamed(a, names) + Unnamed(b, names)
  {
    if a == [] {
      assert a + b == b;
    } else {
      UnnamedAppend(a[1..], b, names);
      assert (a + b)[1..] == a[1..] + b;
    }
  }

  lemma UnnamedGrows(a: seq<ParamSpec>, names: Names, j: nat)
    requires j < |a|
    ensures Unnamed(a[..j], names) <= Unnamed(a, names)
    ensures !IsNamed(names, a[j].name) ==> Unnamed(a[..j], names) + 1 <= Unnamed(a, names)
  {
    assert a == a[..j] + a[j..];
    UnnamedAppend(a[..j], a[j..], names);
  }

  // The call fails exactly when the parameters that are required and not named
  // outnumber the positional arguments.
  lemma MissingExactlyWhenPositionalsRunOut(params: seq<ParamSpec>, names: Names)
    ensures Stops(Plan(params, names)) <==> Unnamed(Only(params, true), names) > |Positionals(names)|
  {
    PlanIsMatching(params, names);
    OnlyKeepsKind(params, true);
    OnlyKeepsKind(params, false);
    var plan, order, required := Plan(params, names), Order(params), Only(params, true);
    if Stops(plan) {
      var j := |plan| - 1;
      MatchingAt(plan, order, names, 0, j);
      assert j < |required| && order[..j] == required[..j];
      UnnamedGrows(required, names, j);
    } else if required != [] {
      assert plan != [];
      MatchingAt(plan, order, names, 0, 0);
      forall j | 0 <= j < |required|
        ensures !plan[j].Missing? && Serves(plan[j], required[j], names, Unnamed(required[..j], names))
      {
        assert order[..j] == required[..j] && order[j] == required[j];
        MatchingAt(plan, order, names, 0, j);
      }
      ServedRequired(required, plan, names, |required|);
    }
  }

  // A plan that does not stop has an argument for every required parameter.
  lemma {:induction false} ServedRequired(required: seq<ParamSpec>, plan: seq<Binding>, names: Names, n: nat)
    requires n <= |required| <= |plan| && forall j :: 0 <= j < |required| ==> required[j].required && !plan[j].Missing?
    requires forall j :: 0 <= j < |required| ==> Serves(plan[j], required[j], names, Unnamed(required[..j], names))
    ensures Unnamed(required[..n], names) <= |Positionals(names)|
    ensures n == |required| ==> Unnamed(required, names) <= |Positionals(names)|
  {
    if n > 0 {
      ServedRequired(required, plan, names, n - 1);
      assert required[..n] == required[..n - 1] + [required[n - 1]];
      UnnamedAppend(required[..n - 1], [required[n - 1]], names);
      assert Serves(plan[n - 1], required[n - 1], names, Unnamed(required[..n - 1], names));
    }
    assert required[..|required|] == required;
  }

  ghost predicate DistinctNames(params: seq<ParamSpec>) {
    forall i, j :: 0 <= i < j < |params| ==> params[i].name != params[j].name
  }

  lemma {:induction false} OnlySelects(params: seq<ParamSpec>, required: bool)
    ensures forall q :: q in Only(params, required) <==> q in params && q.required == required
    ensures DistinctNames(params) ==> DistinctNames(Only(params, required))
  {
    if params != [] {
      OnlySelects(params[1..], required);
      assert params == [params[0]] + params[1..];
      assert forall i :: 0 <= i < |params[1..]| ==> params[1..][i] == params[i + 1];
    }
  }

  lemma OrderRearranges(params: seq<ParamSpec>)
    ensures forall q :: q in Order(params) <==> q in params
    ensures DistinctNames(params) ==> DistinctNames(Order(params))
  {
    OnlySelects(params, true);
    OnlySelects(params, false);
    var first, second := Only(params, true), Only(params, false);
    if DistinctNames(params) {
      forall i, j | 0 <= i < |first| && 0 <= j < |second| ensures first[i].name != second[j].name {
        assert first[i] in params && second[j] in params;
        var k :| 0 <= k < |params| && params[k] == first[i];
        var l :| 0 <= l < |params| && params[l] == second[j];
        assert k != l;
      }
    }
  }

  // With distinct parameter names, a successful matching binds every parameter
  // once and uses no argument twice.
  lemma MatchingIsOneToOne(params: seq<ParamSpec>, names: Names)
    requires DistinctNames(params)
    requires !Stops(Plan(params, names))
    ensures var plan, order := Plan(params, names), Order(params);
            && |plan| == |order|
            && (forall j :: 0 <= j < |plan| ==> plan[j].param == order[j].name && !plan[j].Missing?)
            && forall i, j :: 0 <= i < j < |plan| && plan[i].FromArgument? && plan[j].FromArgument? ==>
               plan[i].arg != plan[j].arg
  {
    PlanIsMatching(params, names);
    OrderRearranges(params);
    var plan, order := Plan(params, names), Order(params);
    forall j | 0 <= j < |plan| ensures |plan| == |order| && plan[j].param == order[j].name && !plan[j].Missing? {
      MatchingAt(plan, order, names, 0, j);
    }
    forall i, j | 0 <= i < j < |plan| && plan[i].FromArgument? && plan[j].FromArgument?
      ensures plan[i].arg != plan[j].arg
    {
      MatchingAt(plan, order, names, 0, i);
      MatchingAt(plan, order, names, 0, j);
      assert order[..j][..i] == order[..i] && order[..j][i] == order[i];
      UnnamedGrows(order[..j], names, i);
      ServedApart(plan[i], order[i], Unnamed(order[..i], names), plan[j], order[j], Unnamed(order[..j], names), names);
    }
  }

  // Two different parameters of different ranks never share an argument.
  lemma ServedApart(b: Binding, q: ParamSpec, rank: nat, b': Binding, q': ParamSpec, rank': nat, names: Names)
    requires Serves(b, q, names, rank) && Serves(b', q', names, rank') && b.FromArgument? && b'.FromArgument?
    requires q.name != q'.name && (!IsNamed(names, q.name) ==> rank < rank')
    ensures b.arg != b'.arg
  {
    PositionalsAreSorted(names);
  }

  ghost predicate DistinctParams(plan: seq<Binding>) {
    forall i, j :: 0 <= i < j < |plan| ==> plan[i].param != plan[j].param
  }

  function PlanParams(plan: seq<Binding>): set<Name> {
    set b | b in plan :: b.param
  }

  lemma PlanParamsSplit(plan: seq<Binding>)
    requires plan != []
    ensures PlanParams(plan) == {plan[0].param} + PlanParams(plan[1..])
  {
    assert plan == [plan[0]] + plan[1..];
  }

  lemma HeadIsNew(plan: seq<Binding>)
    requires plan != [] && DistinctParams(plan)
    ensures plan[0].param !in PlanParams(plan[1..]) && DistinctParams(plan[1..])
  {
    assert forall j :: 0 <= j < |plan| - 1 ==> plan[1..][j] == plan[j + 1];
  }

  // A successful matching serves exactly the parameters of the signature.
  lemma PlanServesTheSignature(params: seq<ParamSpec>, names: Names)
    requires DistinctNames(params) && !Stops(Plan(params, names))
    ensures DistinctParams(Plan(params, names))
    ensures PlanParams(Plan(params, names)) == set q | q in params :: q.name
  {
    MatchingIsOneToOne(params, names);
    OrderRearranges(params);
    var plan, order := Plan(params, names), Order(params);
    forall n | n in PlanParams(plan) ensures n in (set q | q in params :: q.name) {
      var j :| 0 <= j < |plan| && plan[j].param == n;
      assert order[j] in params;
    }
    forall q | q in params ensures q.name in PlanParams(plan) {
      var j :| 0 <= j < |order| && order[j] == q;
      assert plan[j] in plan;
    }
  }
}
