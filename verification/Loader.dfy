// Loading a file of the autotuner engine together with everything it imports.
//
// A file counts as loaded only after its imports have been loaded, so nothing
// stops the recursion on an import cycle.  `fuel` bounds its depth; a load that
// exceeds every bound is one that never returns.
module Loader {
  import opened Prelude

  type Path = string
  type Name = string

  // A resolved import: the file, and the module name that qualifies its symbols.
  datatype Import = Import(path: Path, moduleName: Name)

  // What parsing a file gives.  The parser accepts the file when every foreign
  // type name it uses is among the hints.
  datatype Program = Program(structs: seq<Name>, functions: seq<Name>, foreignTypes: set<Name>, foreignCodeBuilds: bool)

  datatype MaybeImport = Unresolvable | Resolved(target: Import)

  datatype Outcome = Loaded | Failed | NoFuel

  // imports holds the files that exist; programs those that are syntactically valid.
  datatype World = World(imports: map<Path, seq<MaybeImport>>, programs: map<Path, Program>)

  function ImportsOf(w: World, p: Path): seq<MaybeImport> {
    if p in w.imports then w.imports[p] else []
  }

  predicate AllResolved(is_: seq<MaybeImport>) {
    forall i :: 0 <= i < |is_| ==> is_[i].Resolved?
  }

  ghost predicate Edge(w: World, p: Path, q: Path) {
    exists i :: 0 <= i < |ImportsOf(w, p)| && ImportsOf(w, p)[i].Resolved? && ImportsOf(w, p)[i].target.path == q
  }

  // The names a file can use for the structs of an imported program.
  function HintNames(structs: seq<Name>, moduleName: Name): set<Name> {
    (set i | 0 <= i < |structs| :: structs[i]) + (set i | 0 <= i < |structs| :: moduleName + "::" + structs[i])
  }

  // A struct of an imported module can be written with and without the module's name.
  lemma HintsForEachStruct(structs: seq<Name>, moduleName: Name, i: nat)
    requires i < |structs|
    ensures structs[i] in HintNames(structs, moduleName)
    ensures moduleName + "::" + structs[i] in HintNames(structs, moduleName)
  {
  }

  lemma HintsForNothingElse(structs: seq<Name>, moduleName: Name, hint: Name)
    requires hint in HintNames(structs, moduleName)
    ensures exists i :: 0 <= i < |structs| && (hint == structs[i] || hint == moduleName + "::" + structs[i])
  {
    if i: nat :| i < |structs| && structs[i] == hint {
      assert hint == structs[i];
    } else {
      var i: nat :| i < |structs| && moduleName + "::" + structs[i] == hint;
      assert hint == moduleName + "::" + structs[i];
    }
  }

  function Symbols(names: seq<Name>): set<Name> {
    set i | 0 <= i < |names| :: names[i]
  }

  // The hints that the direct imports of a file give.
  ghost predicate HintsCover(w: World, is_: seq<MaybeImport>, hints: set<Name>) {
    forall i :: 0 <= i < |is_| && is_[i].Resolved? ==>
      is_[i].target.path in w.programs
        && HintNames(w.programs[is_[i].target.path].structs, is_[i].target.moduleName) <= hints
  }

  // ---------------------------------------------------------------------
  // Load orders
  // ---------------------------------------------------------------------

  // Every program comes after all programs it imports.
  ghost predicate Ordered(w: World, loaded: seq<Path>) {
    forall i, q :: 0 <= i < |loaded| && Edge(w, loaded[i], q) ==> q in loaded[..i]
  }

  function FirstAt(ps: seq<Path>, p: Path): nat {
    if ps == [] || ps[0] == p then 0 else 1 + FirstAt(ps[1..], p)
  }

  lemma {:induction false} FirstAtIsFirst(ps: seq<Path>, p: Path)
    requires p in ps
    ensures FirstAt(ps, p) < |ps| && ps[FirstAt(ps, p)] == p && p !in ps[..FirstAt(ps, p)]
  {
    if ps[0] != p {
      FirstAtIsFirst(ps[1..], p);
      assert ps[..FirstAt(ps, p)] == [ps[0]] + ps[1..][..FirstAt(ps[1..], p)];
    }
  }

  lemma {:induction false} FirstAtIsMinimal(ps: seq<Path>, p: Path, j: nat)
    requires j < |ps| && ps[j] == p
    ensures FirstAt(ps, p) <= j
  {
    if ps[0] != p { FirstAtIsMinimal(ps[1..], p, j - 1); }
  }

  lemma EdgeAt(w: World, p: Path, i: nat)
    requires i < |ImportsOf(w, p)| && ImportsOf(w, p)[i].Resolved?
    ensures Edge(w, p, ImportsOf(w, p)[i].target.path)
  {
  }

  // In an ordered list, imports occur earlier than their importers.
  lemma EdgeGoesBack(w: World, loaded: seq<Path>, p: Path, q: Path)
    requires Ordered(w, loaded) && p in loaded && Edge(w, p, q)
    ensures q in loaded && FirstAt(loaded, q) < FirstAt(loaded, p)
  {
    FirstAtIsFirst(loaded, p);
    var i := FirstAt(loaded, p);
    assert q in loaded[..i];
    var j :| 0 <= j < i && loaded[j] == q;
    FirstAtIsMinimal(loaded, q, j);
  }

  ghost predicate IsWalk(w: World, walk: seq<Path>) {
    walk != [] && forall i :: 0 <= i < |walk| - 1 ==> Edge(w, walk[i], walk[i + 1])
  }

  // A walk along imports that comes back to a file.
  ghost predicate ReachesCycle(w: World, p: Path) {
    exists walk, i, j :: IsWalk(w, walk) && walk[0] == p && 0 <= i < j < |walk| && walk[i] == walk[j]
  }

  lemma {:induction false} WalkGoesBack(w: World, loaded: seq<Path>, walk: seq<Path>, i: nat, j: nat)
    requires Ordered(w, loaded) && IsWalk(w, walk) && i < j < |walk| && walk[i] in loaded
    ensures walk[j] in loaded && FirstAt(loaded, walk[j]) < FirstAt(loaded, walk[i])
    decreases j
  {
    assert Edge(w, walk[j - 1], walk[j - 1 + 1]);
    if i < j - 1 { WalkGoesBack(w, loaded, walk, i, j - 1); }
    EdgeGoesBack(w, loaded, walk[j - 1], walk[j]);
  }

  // Everything a loaded file imports, directly or not, is loaded as well, and no
  // import cycle is reachable from it.
  lemma LoadedIsClosedAndAcyclic(w: World, loaded: seq<Path>, p: Path)
    requires Ordered(w, loaded) && p in loaded
    ensures forall walk :: IsWalk(w, walk) && walk[0] == p ==> walk[|walk| - 1] in loaded
    ensures !ReachesCycle(w, p)
  {
    forall walk | IsWalk(w, walk) && walk[0] == p ensures walk[|walk| - 1] in loaded {
      if |walk| > 1 { WalkGoesBack(w, loaded, walk, 0, |walk| - 1); }
    }
    forall walk, i, j | IsWalk(w, walk) && walk[0] == p && 0 <= i < j < |walk| ensures walk[i] != walk[j] {
      if i > 0 { WalkGoesBack(w, loaded, walk, 0, i); }
      WalkGoesBack(w, loaded, walk, i, j);
    }
  }

  // ---------------------------------------------------------------------
  // The engine
  // ---------------------------------------------------------------------

  // What was known when a file was handed to the parser.
  datatype ParseEvent = ParseEvent(path: Path, hints: set<Name>, loaded: seq<Path>,
                                   structs: set<Name>, functions: set<Name>)

  // The symbols of a loaded file are in both registries.
  ghost predicate Registered(w: World, p: Path, structs: set<Name>, functions: set<Name>) {
    p in w.programs && Symbols(w.programs[p].structs) <= structs && Symbols(w.programs[p].functions) <= functions
  }

  // Everything the file imports, directly or not, was loaded and registered, and the
  // structs of its direct imports were among the hints.
  ghost predicate WellPrepared(w: World, e: ParseEvent) {
    && Ordered(w, e.loaded)
    && (forall q :: q in e.loaded ==> Registered(w, q, e.structs, e.functions))
    && (forall q :: Edge(w, e.path, q) ==> q in e.loaded)
    && HintsCover(w, ImportsOf(w, e.path), e.hints)
  }

  // A file that can be loaded itself, provided its imports are.
  ghost predicate Loadable(w: World, p: Path) {
    && p in w.imports && AllResolved(w.imports[p]) && p in w.programs && w.programs[p].foreignCodeBuilds
    && forall hints :: HintsCover(w, w.imports[p], hints) ==> w.programs[p].foreignTypes <= hints
  }

  // So can everything it imports, directly or not.
  ghost predicate AllLoadable(w: World, p: Path) {
    forall walk :: IsWalk(w, walk) && walk[0] == p ==> Loadable(w, walk[|walk| - 1])
  }

  // No walk along imports from p visits more than n files.
  ghost predicate WalksWithin(w: World, p: Path, n: nat) {
    forall walk :: IsWalk(w, walk) && walk[0] == p ==> |walk| <= n
  }

  lemma WalkFrom(w: World, p: Path, walk: seq<Path>)
    requires IsWalk(w, walk) && Edge(w, p, walk[0])
    ensures IsWalk(w, [p] + walk)
  {
    var longer := [p] + walk;
    forall i | 0 <= i < |longer| - 1 ensures Edge(w, longer[i], longer[i + 1]) {
      if i > 0 { assert Edge(w, walk[i - 1], walk[i - 1 + 1]); }
    }
  }

  lemma LoadableImport(w: World, p: Path, q: Path)
    requires Edge(w, p, q)
    ensures AllLoadable(w, p) ==> AllLoadable(w, q)
  {
    if AllLoadable(w, p) {
      forall walk | IsWalk(w, walk) && walk[0] == q ensures Loadable(w, walk[|walk| - 1]) {
        WalkFrom(w, p, walk);
        assert ([p] + walk)[|walk|] == walk[|walk| - 1];
      }
    }
  }

  lemma LoadableItself(w: World, p: Path)
    requires AllLoadable(w, p)
    ensures Loadable(w, p)
  {
    assert IsWalk(w, [p]);
  }

  lemma ShorterFromImport(w: World, p: Path, q: Path, n: nat)
    requires Edge(w, p, q) && WalksWithin(w, p, n)
    ensures n > 0 && WalksWithin(w, q, n - 1)
  {
    assert IsWalk(w, [p]);
    forall walk | IsWalk(w, walk) && walk[0] == q ensures |walk| <= n - 1 { WalkFrom(w, p, walk); }
  }

  // Without a cycle in reach, a walk visits every existing file at most once, and
  // only its last file may not exist.
  lemma AcyclicWalksAreShort(w: World, p: Path)
    requires !ReachesCycle(w, p)
    ensures WalksWithin(w, p, |w.imports| + 1)
  {
    forall walk | IsWalk(w, walk) && walk[0] == p ensures |walk| <= |w.imports| + 1 {
      var inner := walk[..|walk| - 1];
      forall i | 0 <= i < |inner| ensures inner[i] in w.imports.Keys {
        assert Edge(w, walk[i], walk[i + 1]);
      }
      assert Distinct(inner) by {
        forall i, j | 0 <= i < j < |inner| ensures inner[i] != inner[j] {
          assert walk[i] == inner[i] && walk[j] == inner[j];
        }
      }
      DistinctFit(inner, w.imports.Keys);
    }
  }

  lemma {:induction false} DistinctFit(ps: seq<Path>, s: set<Path>)
    requires Distinct(ps) && forall i :: 0 <= i < |ps| ==> ps[i] in s
    ensures |ps| <= |s|
    decreases |ps|
  {
    if ps != [] {
      var k := |ps| - 1;
      DistinctFit(ps[..k], s - {ps[k]});
    }
  }

  // The parser accepts a file whose foreign types are all among the hints.
  ghost predicate Parses(w: World, p: Path, hints: set<Name>) {
    p in w.programs && w.programs[p].foreignTypes <= hints
  }

  class AutotunerEngine {
    const world: World
    var loadedPaths: set<Path>
    var programs: seq<Path>
    var hints: set<Name>
    var structRegistry: set<Name>
    var functionRegistry: set<Name>
    // Every call of the parser, in order.
    ghost var parses: seq<ParseEvent>

    constructor (w: World)
      ensures world == w && Valid() && programs == []
    {
      world, loadedPaths, programs, hints, structRegistry, functionRegistry, parses := w, {}, [], {}, {}, {}, [];
    }

    ghost predicate Valid()
      reads this
    {
      && (forall p :: p in loadedPaths <==> p in programs)
      && Ordered(world, programs)
      && (forall p :: p in programs ==> Registered(world, p, structRegistry, functionRegistry))
      && (forall i :: 0 <= i < |parses| ==> WellPrepared(world, parses[i]))
    }

    method AddHints(structs: seq<Name>, moduleName: Name)
      modifies this`hints
      ensures hints == old(hints) + HintNames(structs, moduleName)
    {
      for i := 0 to |structs|
        invariant hints == old(hints) + HintNames(structs[..i], moduleName)
      {
        HintNamesSnoc(structs, moduleName, i);
        hints := hints + {structs[i], moduleName + "::" + structs[i]};
      }
      assert structs[..|structs|] == structs;
    }

    // fuel bounds the depth of the recursion.  With one level for every existing file a
    // load ends unless a cycle can be reached; then a load that does not fail before
    // it gets there exceeds every bound.
    method LoadFalFile(path: Path, fuel: nat) returns (r: Outcome)
      requires Valid()
      modifies this
      ensures Valid() && old(hints) <= hints && old(programs) <= programs
      ensures r == Loaded ==> path in programs && Registered(world, path, structRegistry, functionRegistry)
      ensures r != NoFuel ==> Appends(old(programs), programs, path, r == Loaded)
      ensures path !in world.imports || !AllResolved(world.imports[path]) ==> r == Failed && programs == old(programs)
      ensures r == Loaded ==> Parses(world, path, hints) && world.programs[path].foreignCodeBuilds
      ensures ReachesCycle(world, path) ==> r != Loaded
      ensures AllLoadable(world, path) ==> r != Failed
      ensures WalksWithin(world, path, fuel + 1) ==> r != NoFuel
      ensures !ReachesCycle(world, path) && fuel >= |world.imports| ==> r != NoFuel
      ensures AllLoadable(world, path) && fuel >= |world.imports| ==>
                (r == Loaded <==> !ReachesCycle(world, path)) && (r == NoFuel <==> ReachesCycle(world, path))
      decreases fuel, 1
    {
      if !ReachesCycle(world, path) {
        AcyclicWalksAreShort(world, path);
        assert fuel >= |world.imports| ==> WalksWithin(world, path, fuel + 1);
      }
      if AllLoadable(world, path) {
        LoadableItself(world, path);
      }
      if path !in world.imports || !AllResolved(world.imports[path]) {
        return Failed;
      }
      r := LoadImports(path, fuel);
      if r != Loaded {
        return;
      }
      ghost var mid := programs;
      r := FinishFile(path);
      if r == Loaded {
        AppendsItself(old(programs), mid, path);
        LoadedIsClosedAndAcyclic(world, programs, path);
      }
    }

    // All imports of a file, one after the other.
    method LoadImports(path: Path, fuel: nat) returns (r: Outcome)
      requires Valid() && path in world.imports && AllResolved(world.imports[path])
      modifies this
      ensures Valid() && old(hints) <= hints && old(programs) <= programs
      ensures r == Loaded ==>
                && HintsCover(world, world.imports[path], hints)
                && forall k :: 0 <= k < |world.imports[path]| ==> world.imports[path][k].target.path in programs
      ensures r != NoFuel ==> Appends(old(programs), programs, path, false)
      ensures AllLoadable(world, path) ==> r != Failed
      ensures WalksWithin(world, path, fuel + 1) ==> r != NoFuel
      decreases fuel, 0, 1
    {
      var imports := world.imports[path];
      for i := 0 to |imports|
        invariant Valid() && old(hints) <= hints && old(programs) <= programs
        invariant HintsCover(world, imports[..i], hints)
        invariant forall k :: 0 <= k < i ==> imports[k].target.path in programs
        invariant Appends(old(programs), programs, path, false)
      {
        ghost var before := programs;
        r := LoadOneImport(path, i, fuel);
        EdgeAt(world, path, i);
        if r != NoFuel {
          AppendsThrough(world, old(programs), before, programs, path, imports[i].target.path, r == Loaded);
        }
        if r != Loaded {
          return;
        }
        HintsCoverSnoc(world, imports, i, hints);
      }
      assert imports[..|imports|] == imports;
      r := Loaded;
    }

    // One import of a file: load it unless it is loaded, and take its hints.
    method LoadOneImport(path: Path, i: nat, fuel: nat) returns (r: Outcome)
      requires Valid() && path in world.imports && i < |world.imports[path]| && AllResolved(world.imports[path])
      modifies this
      ensures Valid() && old(hints) <= hints && old(programs) <= programs
      ensures var target := world.imports[path][i].target;
              && (r == Loaded ==> target.path in programs && HintsCover(world, [world.imports[path][i]], hints))
              && (r != NoFuel ==>
                    if target.path in old(programs) then r == Loaded && programs == old(programs)
                    else Appends(old(programs), programs, target.path, r == Loaded))
      ensures AllLoadable(world, path) ==> r != Failed
      ensures WalksWithin(world, path, fuel + 1) ==> r != NoFuel
      decreases fuel, 0, 0
    {
      var target := world.imports[path][i].target;
      EdgeAt(world, path, i);
      if target.path !in loadedPaths {
        LoadableImport(world, path, target.path);
        if WalksWithin(world, path, fuel + 1) {
          ShorterFromImport(world, path, target.path, fuel + 1);
          assert IsWalk(world, [target.path]);
        }
        if fuel == 0 {
          return NoFuel;
        }
        r := LoadFalFile(target.path, fuel - 1);
        if r != Loaded {
          return;
        }
      }
      AddHints(world.programs[target.path].structs, target.moduleName);
      r := Loaded;
    }

    // Parsing and registration, once all imports are loaded.
    method FinishFile(path: Path) returns (r: Outcome)
      requires Valid() && path in world.imports && AllResolved(world.imports[path])
      requires forall k :: 0 <= k < |world.imports[path]| ==> world.imports[path][k].target.path in programs
      requires HintsCover(world, world.imports[path], hints)
      modifies this
      ensures Valid() && hints == old(hints)
      ensures r == Loaded ==>
                programs == old(programs) + [path] && Registered(world, path, structRegistry, functionRegistry)
      ensures r != Loaded ==> r == Failed && programs == old(programs)
      ensures r == Loaded <==> Parses(world, path, hints) && world.programs[path].foreignCodeBuilds
      ensures structRegistry == if Parses(world, path, hints) then
                old(structRegistry) + Symbols(world.programs[path].structs) else old(structRegistry)
      ensures functionRegistry == if r == Loaded then
                old(functionRegistry) + Symbols(world.programs[path].functions) else old(functionRegistry)
      ensures Loadable(world, path) ==> r == Loaded
    {
      parses := parses + [ParseEvent(path, hints, programs, structRegistry, functionRegistry)];
      if path !in world.programs || !(world.programs[path].foreignTypes <= hints) {
        return Failed;
      }
      var program := world.programs[path];
      structRegistry := structRegistry + Symbols(program.structs);
      if !program.foreignCodeBuilds {
        return Failed;
      }
      functionRegistry := functionRegistry + Symbols(program.functions);
      loadedPaths := loadedPaths + {path};
      OrderedSnoc(world, programs, path);
      programs := programs + [path];
      r := Loaded;
    }
  }

  // What one load appends: files not loaded before, each once, and the file
  // itself only at the end and only when the load succeeds.
  ghost predicate Appends(before: seq<Path>, after: seq<Path>, path: Path, succeeded: bool) {
    && before <= after
    && (path in before ==> after == if succeeded then before + [path] else before)
    && (path !in before ==>
          var news := after[|before|..];
          && Distinct(news) && (forall q :: q in news ==> q !in before)
          && if succeeded then news != [] && news[|news| - 1] == path else path !in news)
  }

  // Loading an import neither loads the importer nor anything loaded already.
  lemma AppendsThrough(w: World, before: seq<Path>, mid: seq<Path>, after: seq<Path>, path: Path, target: Path,
                       succeeded: bool)
    requires Ordered(w, before) && Ordered(w, after) && Edge(w, path, target)
    requires Appends(before, mid, path, false)
    requires if target in mid then after == mid else Appends(mid, after, target, succeeded)
    ensures Appends(before, after, path, false)
  {
    if target !in mid {
      var a, b := mid[|before|..], after[|mid|..];
      assert mid == before + a && after == mid + b && after[|before|..] == a + b;
      ImporterComesLater(w, before, path, target);
      ImporterComesLater(w, after, path, target);
      TailAvoids(mid, after, path, target);
      assert forall k :: 0 <= k < |a| ==> a[k] in mid;
    }
  }

  // In an ordered list a file stands only behind what it imports.
  lemma ImporterComesLater(w: World, loaded: seq<Path>, path: Path, target: Path)
    requires Ordered(w, loaded) && Edge(w, path, target)
    ensures forall i :: 0 <= i < |loaded| && loaded[i] == path ==> target in loaded[..i]
  {
  }

  // Up to where the target is appended, nothing stands behind it.
  lemma TailAvoids(mid: seq<Path>, after: seq<Path>, path: Path, target: Path)
    requires mid <= after && target !in mid && Distinct(after[|mid|..])
    requires target !in after[|mid|..] || after[|after| - 1] == target
    requires forall i :: 0 <= i < |after| && after[i] == path ==> target in after[..i]
    ensures path !in after[|mid|..]
  {
    var b := after[|mid|..];
    forall k | 0 <= k < |b| ensures b[k] != path {
      var i := |mid| + k;
      assert after[i] == b[k] && after[..i] == mid + b[..k];
      assert b != [] ==> b[|b| - 1] == after[|after| - 1];
    }
  }

  lemma AppendsItself(before: seq<Path>, mid: seq<Path>, path: Path)
    requires Appends(before, mid, path, false)
    ensures Appends(before, mid + [path], path, true)
  {
    assert (mid + [path])[|before|..] == mid[|before|..] + [path];
  }

  lemma OrderedSnoc(w: World, loaded: seq<Path>, path: Path)
    requires Ordered(w, loaded) && forall q :: Edge(w, path, q) ==> q in loaded
    ensures Ordered(w, loaded + [path])
  {
    forall i, q | 0 <= i < |loaded + [path]| && Edge(w, (loaded + [path])[i], q) ensures q in (loaded + [path])[..i] {
      assert (loaded + [path])[..i] == loaded[..i];
    }
  }

  lemma HintsCoverSnoc(w: World, is_: seq<MaybeImport>, i: nat, hints: set<Name>)
    requires i < |is_| && HintsCover(w, is_[..i], hints) && HintsCover(w, [is_[i]], hints)
    ensures HintsCover(w, is_[..i + 1], hints)
  {
    var all := is_[..i + 1];
    forall k | 0 <= k < |all| && all[k].Resolved?
      ensures all[k].target.path in w.programs
              && HintNames(w.programs[all[k].target.path].structs, all[k].target.moduleName) <= hints
    {
      if k < i { assert is_[..i][k] == all[k]; } else { assert [is_[i]][0] == all[k]; }
    }
  }

  lemma HintNamesSnoc(structs: seq<Name>, moduleName: Name, i: nat)
    requires i < |structs|
    ensures HintNames(structs[..i + 1], moduleName)
            == HintNames(structs[..i], moduleName) + {structs[i], moduleName + "::" + structs[i]}
  {
    var l, r := structs[..i + 1], structs[..i];
    assert l[i] == structs[i];
    forall n | n in HintNames(r, moduleName) ensures n in HintNames(l, moduleName) {
      var k :| 0 <= k < |r| && (r[k] == n || moduleName + "::" + r[k] == n);
      assert l[k] == r[k];
    }
    forall n | n in HintNames(l, moduleName)
      ensures n in HintNames(r, moduleName) + {structs[i], moduleName + "::" + structs[i]}
    {
      var k :| 0 <= k < |l| && (l[k] == n || moduleName + "::" + l[k] == n);
      if k < i { assert r[k] == l[k]; }
    }
  }
}
