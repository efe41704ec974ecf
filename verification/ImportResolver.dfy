// Recursive import resolution of the language server: a depth-first walk that
// parses every imported file once and merges its exported symbols into the
// importing document.
module ImportResolver {
  import opened Prelude

  type Path = string

  datatype Kind = AutotunerSym | RoutineSym | StructSym | StructFieldSym | StructRoutineSym | OtherSym

  datatype Symbol = Symbol(name: string, kind: Kind, fromImport: bool)

  // A file as the parser sees it; an unreadable one cannot be opened.
  datatype File = File(readable: bool, imports: seq<string>, ffimports: seq<string>, symbols: seq<Symbol>)

  // The files, and where an import string written in a file leads to.
  datatype World = World(files: map<Path, File>, links: map<(Path, string), Path>) {
    // Links lead to existing files only.
    ghost predicate Valid() {
      forall k :: k in links ==> links[k] in files
    }
  }

  // The file that an import string resolves to from a given file.
  datatype Resolution = NotFound | Found(path: Path)

  function ResolvePath(w: World, from: Path, s: string): Resolution {
    if (from, s) in w.links then Found(w.links[(from, s)]) else NotFound
  }

  predicate Exported(s: Symbol) {
    s.kind != OtherSym
  }

  // The exported symbols of a document, marked as imported.
  function Exports(symbols: seq<Symbol>): seq<Symbol> {
    if symbols == [] then [] else Export(symbols[0]) + Exports(symbols[1..])
  }

  function Export(s: Symbol): seq<Symbol> {
    if Exported(s) then [s.(fromImport := true)] else []
  }

  // The exports of some files, one file after the other.
  function ExportsOfAll(w: World, ps: seq<Path>): seq<Symbol>
    requires forall i :: 0 <= i < |ps| ==> ps[i] in w.files
  {
    if ps == [] then [] else ExportsOfAll(w, ps[..|ps| - 1]) + Exports(w.files[ps[|ps| - 1]].symbols)
  }

  // The kinds of symbol that an import makes visible.
  const VISIBLE: set<Kind> := {AutotunerSym, RoutineSym, StructSym, StructFieldSym, StructRoutineSym}

  // merged are the symbols of these kinds, in order, unchanged but for the mark; at are
  // their positions.
  ghost predicate VisibleAt(merged: seq<Symbol>, symbols: seq<Symbol>, at: seq<nat>) {
    && |at| == |merged| && (forall i :: 0 <= i < |at| ==> at[i] < |symbols|)
    && (forall i, j :: 0 <= i < j < |at| ==> at[i] < at[j])
    && (forall k :: 0 <= k < |symbols| ==> (k in at <==> symbols[k].kind in VISIBLE))
    && forall i :: 0 <= i < |at| ==>
         merged[i] == Symbol(symbols[at[i]].name, symbols[at[i]].kind, true)
  }

  ghost predicate AreVisibleOf(merged: seq<Symbol>, symbols: seq<Symbol>) {
    exists at: seq<nat> :: VisibleAt(merged, symbols, at)
  }

  ghost predicate HasVisible(symbols: seq<Symbol>, n: string) {
    exists k :: 0 <= k < |symbols| && symbols[k].kind in VISIBLE && symbols[k].name == n
  }

  // The names gained are those of the symbols of these kinds.
  ghost predicate GainsVisible(before: set<string>, after: set<string>, symbols: seq<Symbol>) {
    forall n :: n in after <==> n in before || HasVisible(symbols, n)
  }

  function Later(at: seq<nat>): (r: seq<nat>)
    ensures |r| == |at|
  {
    seq(|at|, i requires 0 <= i < |at| => at[i] + 1)
  }

  lemma InLater(at: seq<nat>, k: nat)
    ensures k in Later(at) <==> k > 0 && k - 1 in at
  {
    if k > 0 && k - 1 in at {
      var i :| 0 <= i < |at| && at[i] == k - 1;
      assert Later(at)[i] == k;
    }
    if k in Later(at) {
      var i :| 0 <= i < |at| && Later(at)[i] == k;
      assert at[i] == k - 1;
    }
  }

  lemma HiddenFirst(s: Symbol, merged: seq<Symbol>, symbols: seq<Symbol>, at: seq<nat>)
    requires VisibleAt(merged, symbols, at) && s.kind !in VISIBLE
    ensures VisibleAt(merged, [s] + symbols, Later(at))
  {
    var all := [s] + symbols;
    forall k | 0 <= k < |all| ensures k in Later(at) <==> all[k].kind in VISIBLE {
      InLater(at, k);
      if k > 0 { assert all[k] == symbols[k - 1]; }
    }
  }

  lemma VisibleFirst(s: Symbol, merged: seq<Symbol>, symbols: seq<Symbol>, at: seq<nat>)
    requires VisibleAt(merged, symbols, at) && s.kind in VISIBLE
    ensures VisibleAt([s.(fromImport := true)] + merged, [s] + symbols, [0] + Later(at))
  {
    var all, positions := [s] + symbols, [0] + Later(at);
    FrontPositions(at);
    FrontMembers(s, symbols, at);
    forall i | 0 <= i < |positions|
      ensures positions[i] < |all|
      ensures ([s.(fromImport := true)] + merged)[i] == Symbol(all[positions[i]].name, all[positions[i]].kind, true)
    {
      if i > 0 { assert positions[i] == at[i - 1] + 1 && all[positions[i]] == symbols[at[i - 1]]; }
    }
  }

  lemma FrontPositions(at: seq<nat>)
    requires forall i, j :: 0 <= i < j < |at| ==> at[i] < at[j]
    ensures var positions := [0] + Later(at); forall i, j :: 0 <= i < j < |positions| ==> positions[i] < positions[j]
  {
    var positions := [0] + Later(at);
    forall i, j | 0 <= i < j < |positions| ensures positions[i] < positions[j] {
      assert positions[j] == at[j - 1] + 1;
      if i > 0 { assert positions[i] == at[i - 1] + 1; }
    }
  }

  lemma FrontMembers(s: Symbol, symbols: seq<Symbol>, at: seq<nat>)
    requires (forall k :: 0 <= k < |symbols| ==> (k in at <==> symbols[k].kind in VISIBLE)) && s.kind in VISIBLE
    ensures forall k :: 0 <= k < |[s] + symbols| ==> (k in [0] + Later(at) <==> ([s] + symbols)[k].kind in VISIBLE)
  {
    forall k | 0 <= k < |[s] + symbols| ensures k in [0] + Later(at) <==> ([s] + symbols)[k].kind in VISIBLE {
      InLater(at, k);
      InFront(Later(at), k);
      if k > 0 { assert ([s] + symbols)[k] == symbols[k - 1]; }
    }
  }

  lemma InFront(at: seq<nat>, k: nat)
    ensures k in [0] + at <==> k == 0 || k in at
  {
  }

  lemma {:induction false} ExportsAreVisible(symbols: seq<Symbol>) returns (at: seq<nat>)
    ensures VisibleAt(Exports(symbols), symbols, at)
    decreases |symbols|
  {
    if symbols == [] {
      at := [];
    } else {
      var rest := ExportsAreVisible(symbols[1..]);
      assert symbols == [symbols[0]] + symbols[1..];
      if symbols[0].kind in VISIBLE {
        VisibleFirst(symbols[0], Exports(symbols[1..]), symbols[1..], rest);
        at := [0] + Later(rest);
      } else {
        HiddenFirst(symbols[0], Exports(symbols[1..]), symbols[1..], rest);
        at := Later(rest);
        assert Exports(symbols) == Exports(symbols[1..]);
      }
    }
  }

  lemma ExportedName(symbols: seq<Symbol>, at: seq<nat>, n: string)
    requires VisibleAt(Exports(symbols), symbols, at)
    ensures n in Names(Exports(symbols)) <==> HasVisible(symbols, n)
  {
    var e := Exports(symbols);
    if n in Names(e) {
      var i :| 0 <= i < |e| && e[i].name == n;
      assert at[i] in at && symbols[at[i]].name == n;
    }
    if HasVisible(symbols, n) {
      var k :| 0 <= k < |symbols| && symbols[k].kind in VISIBLE && symbols[k].name == n;
      var i :| 0 <= i < |at| && at[i] == k;
      assert e[i].name == n;
    }
  }

  // What appending the exports of some symbols means for a document.
  lemma MergedAreVisible(before: seq<Symbol>, names: set<string>, symbols: seq<Symbol>)
    ensures AreVisibleOf((before + Exports(symbols))[|before|..], symbols)
    ensures GainsVisible(names, names + Names(Exports(symbols)), symbols)
  {
    var at := ExportsAreVisible(symbols);
    assert (before + Exports(symbols))[|before|..] == Exports(symbols);
    forall n ensures n in Names(Exports(symbols)) <==> HasVisible(symbols, n) { ExportedName(symbols, at, n); }
  }

  // The symbols of some files, one file after the other.
  function AllSymbols(w: World, ps: seq<Path>): seq<Symbol>
    requires forall i :: 0 <= i < |ps| ==> ps[i] in w.files
  {
    if ps == [] then [] else AllSymbols(w, ps[..|ps| - 1]) + w.files[ps[|ps| - 1]].symbols
  }

  lemma {:induction false} ExportsOfAllSymbols(w: World, ps: seq<Path>)
    requires forall i :: 0 <= i < |ps| ==> ps[i] in w.files
    ensures ExportsOfAll(w, ps) == Exports(AllSymbols(w, ps))
    decreases |ps|
  {
    if ps != [] {
      var k := |ps| - 1;
      ExportsOfAllSymbols(w, ps[..k]);
      ExportsAppend(AllSymbols(w, ps[..k]), w.files[ps[k]].symbols);
    }
  }

  function Names(symbols: seq<Symbol>): set<string> {
    set i | 0 <= i < |symbols| :: symbols[i].name
  }

  lemma {:induction false} ExportsIdempotent(symbols: seq<Symbol>)
    ensures Exports(Exports(symbols)) == Exports(symbols)
  {
    if symbols != [] {
      ExportsIdempotent(symbols[1..]);
      if Exported(symbols[0]) {
        assert Exports(symbols)[1..] == Exports(symbols[1..]);
      } else {
        assert Exports(symbols) == Exports(symbols[1..]);
      }
    }
  }

  lemma {:induction false} ExportsAppend(a: seq<Symbol>, b: seq<Symbol>)
    ensures Exports(a + b) == Exports(a) + Exports(b)
  {
    if a == [] {
      assert a + b == b;
    } else {
      ExportsAppend(a[1..], b);
      assert (a + b)[1..] == a[1..] + b && (a + b)[0] == a[0];
      Associative(Export(a[0]), Exports(a[1..]), Exports(b));
    }
  }

  lemma {:induction false} ExportsOfAllAppend(w: World, a: seq<Path>, b: seq<Path>)
    requires (forall i :: 0 <= i < |a| ==> a[i] in w.files) && (forall i :: 0 <= i < |b| ==> b[i] in w.files)
    ensures forall i :: 0 <= i < |a + b| ==> (a + b)[i] in w.files
    ensures ExportsOfAll(w, a + b) == ExportsOfAll(w, a) + ExportsOfAll(w, b)
    decreases |b|
  {
    if b == [] {
      assert a + b == a;
    } else {
      var k := |b| - 1;
      ExportsOfAllAppend(w, a, b[..k]);
      assert (a + b)[..|a + b| - 1] == a + b[..k];
    }
  }

  lemma OneMoreExport(symbols: seq<Symbol>, i: nat)
    requires i < |symbols|
    ensures var done, s := Exports(symbols[..i]), symbols[i];
            && Exports(symbols[..i + 1]) == (if Exported(s) then done + [s.(fromImport := true)] else done)
            && Names(Exports(symbols[..i + 1])) == (if Exported(s) then Names(done) + {s.name} else Names(done))
  {
    var done, s := Exports(symbols[..i]), symbols[i];
    ExportsAppend(symbols[..i], [s]);
    assert symbols[..i + 1] == symbols[..i] + [s] && [s][1..] == [];
    assert Exports([s]) == Export(s) + [] == Export(s);
    if Exported(s) { NamesSnoc(done, s.(fromImport := true)); } else { assert done + [] == done; }
  }

  // Exporting what was merged in changes nothing, so a document passes on the
  // exports of everything below it.
  lemma {:induction false} ExportsOfAllAreExports(w: World, ps: seq<Path>)
    requires forall i :: 0 <= i < |ps| ==> ps[i] in w.files
    ensures Exports(ExportsOfAll(w, ps)) == ExportsOfAll(w, ps)
  {
    if ps != [] {
      var k := |ps| - 1;
      ExportsOfAllAreExports(w, ps[..k]);
      ExportsAppend(ExportsOfAll(w, ps[..k]), Exports(w.files[ps[k]].symbols));
      ExportsIdempotent(w.files[ps[k]].symbols);
    }
  }

  // ---------------------------------------------------------------------
  // Reachability
  // ---------------------------------------------------------------------

  // The readable files that a file imports directly.
  function Successors(w: World, from: Path, imports: seq<string>): set<Path> {
    set i | 0 <= i < |imports| && (from, imports[i]) in w.links :: w.links[(from, imports[i])]
  }

  function SuccessorsOf(w: World, p: Path): set<Path> {
    if p in w.files && w.files[p].readable then Successors(w, p, w.files[p].imports) else {}
  }

  // A chain of files, each importing the next, that starts at a direct import and
  // does not pass through the files to avoid.
  ghost predicate IsChain(w: World, imports: seq<string>, root: Path, avoid: set<Path>, chain: seq<Path>) {
    && chain != [] && chain[0] in Successors(w, root, imports)
    && (forall i :: 0 <= i < |chain| ==> chain[i] !in avoid)
    && forall i :: 0 <= i < |chain| - 1 ==> chain[i + 1] in SuccessorsOf(w, chain[i])
  }

  ghost predicate Reachable(w: World, imports: seq<string>, root: Path, avoid: set<Path>, p: Path) {
    exists chain :: IsChain(w, imports, root, avoid, chain) && chain[|chain| - 1] == p
  }

  lemma ReachableDirect(w: World, imports: seq<string>, root: Path, avoid: set<Path>, q: Path)
    requires q in Successors(w, root, imports) && q !in avoid
    ensures Reachable(w, imports, root, avoid, q)
  {
    assert IsChain(w, imports, root, avoid, [q]);
  }

  // What a direct import reaches is reached.
  lemma ReachableThrough(w: World, imports: seq<string>, root: Path, avoid: set<Path>, child: Path, avoid': set<Path>,
                         p: Path)
    requires child in Successors(w, root, imports) && child in w.files && w.files[child].readable
    requires child !in avoid && avoid <= avoid'
    requires Reachable(w, w.files[child].imports, child, avoid', p)
    ensures Reachable(w, imports, root, avoid, p)
  {
    var chain :| IsChain(w, w.files[child].imports, child, avoid', chain) && chain[|chain| - 1] == p;
    var longer := [child] + chain;
    forall i | 0 <= i < |longer| - 1 ensures longer[i + 1] in SuccessorsOf(w, longer[i]) {
      if i > 0 { assert chain[i - 1 + 1] in SuccessorsOf(w, chain[i - 1]); }
    }
    assert IsChain(w, imports, root, avoid, longer) && longer[|longer| - 1] == p;
  }

  lemma ReachableAvoidingLess(w: World, imports: seq<string>, root: Path, avoid: set<Path>, avoid': set<Path>, p: Path)
    requires avoid <= avoid' && Reachable(w, imports, root, avoid', p)
    ensures Reachable(w, imports, root, avoid, p)
  {
    var chain :| IsChain(w, imports, root, avoid', chain) && chain[|chain| - 1] == p;
    assert IsChain(w, imports, root, avoid, chain);
  }

  // A set that contains the direct imports and is closed, except at the files to
  // avoid, contains what is reachable.
  lemma {:induction false} ClosedContainsChain(w: World, imports: seq<string>, root: Path, avoid: set<Path>,
                                               chain: seq<Path>, s: set<Path>)
    requires IsChain(w, imports, root, avoid, chain) && Successors(w, root, imports) <= s
    requires forall p :: p in s && p !in avoid ==> SuccessorsOf(w, p) <= s
    ensures chain[|chain| - 1] in s
    decreases |chain|
  {
    if |chain| > 1 {
      var shorter := chain[..|chain| - 1];
      assert IsChain(w, imports, root, avoid, shorter);
      ClosedContainsChain(w, imports, root, avoid, shorter, s);
      assert chain[|chain| - 2 + 1] in SuccessorsOf(w, chain[|chain| - 2]);
    }
  }

  // ---------------------------------------------------------------------
  // What a walk visits
  // ---------------------------------------------------------------------

  // news are the readable files among the newly visited ones, each once.
  ghost predicate Walk(w: World, visited: set<Path>, visited': set<Path>, news: seq<Path>) {
    && visited <= visited' && visited' - visited <= w.files.Keys && Distinct(news)
    && (forall i :: 0 <= i < |news| ==>
        news[i] in w.files && w.files[news[i]].readable && news[i] in visited' - visited)
    && (forall p :: p in visited' - visited && w.files[p].readable ==> p in news)
  }

  lemma WalkOn(w: World, visited: set<Path>, visited1: set<Path>, visited2: set<Path>, a: seq<Path>, b: seq<Path>)
    requires Walk(w, visited, visited1, a) && Walk(w, visited1, visited2, b)
    ensures Walk(w, visited, visited2, a + b)
  {
    forall p | p in visited2 - visited && w.files[p].readable ensures p in a + b {
      if p in visited1 { assert p in a; } else { assert p in b; }
    }
  }

  lemma SuccessorsSnoc(w: World, from: Path, imports: seq<string>, i: nat)
    requires i < |imports|
    ensures Successors(w, from, imports[..i + 1])
            == Successors(w, from, imports[..i]) + if (from, imports[i]) in w.links then {w.links[(from, imports[i])]}
              else {}
  {
    var l, r := imports[..i + 1], imports[..i];
    forall p | p in Successors(w, from, r) ensures p in Successors(w, from, l) {
      var k :| 0 <= k < |r| && (from, r[k]) in w.links && w.links[(from, r[k])] == p;
      assert l[k] == r[k];
    }
    if (from, imports[i]) in w.links { assert l[i] == imports[i]; }
    forall p | p in Successors(w, from, l)
      ensures p in Successors(w, from, r) || ((from, imports[i]) in w.links && p == w.links[(from, imports[i])])
    {
      var k :| 0 <= k < |l| && (from, l[k]) in w.links && w.links[(from, l[k])] == p;
      if k < i { assert r[k] == l[k]; }
    }
  }

  // ---------------------------------------------------------------------
  // Documents and the resolver
  // ---------------------------------------------------------------------

  class FalconDocument {
    const path: Path
    const imports: seq<string>
    const ffimports: seq<string>
    var symbols: seq<Symbol>
    var importedNames: set<string>

    constructor (p: Path, f: File)
      ensures path == p && imports == f.imports && ffimports == f.ffimports && symbols == f.symbols
              && importedNames == {}
    {
      path, imports, ffimports, symbols, importedNames := p, f.imports, f.ffimports, f.symbols, {};
    }

    ghost function AsSource(): Source {
      Source(path, imports, ffimports)
    }
  }

  // An import that leads to a readable file.
  ghost predicate Leads(w: World, from: Path, s: string) {
    (from, s) in w.links && w.links[(from, s)] in w.files && w.files[w.links[(from, s)]].readable
  }

  // The naming discipline under which resolution is complete: an import string
  // means one existing, readable file wherever it is written, and no wrapper file
  // has the name of an import.
  ghost predicate OneFilePerImport(w: World, file: map<string, Path>, imports: seq<string>, ffimports: seq<string>,
                                   from: Path) {
    && (forall s :: s in imports ==> s in file && (from, s) in w.links && w.links[(from, s)] == file[s])
    && (forall s :: s in ffimports ==> s !in file)
  }

  ghost predicate WellNamed(w: World, file: map<string, Path>) {
    && (forall s :: s in file ==> file[s] in w.files && w.files[file[s]].readable)
    && (forall p :: p in w.files ==> OneFilePerImport(w, file, w.files[p].imports, w.files[p].ffimports, p))
  }

  // What completeness needs to know before a document is resolved.
  ghost predicate Disciplined(w: World, file: map<string, Path>, d: Source, resolved: set<string>, visited: set<Path>) {
    && WellNamed(w, file) && OneFilePerImport(w, file, d.imports, d.ffimports, d.path)
    && MarksAreVisited(file, resolved, visited)
  }

  // A string is marked only once its file has been visited.
  ghost predicate MarksAreVisited(file: map<string, Path>, resolved: set<string>, visited: set<Path>) {
    forall s :: s in resolved && s in file ==> file[s] in visited
  }

  // Everything that resolving a document changes.
  datatype Snapshot = Snapshot(visited: set<Path>, resolved: set<string>, parsed: seq<Path>,
                               symbols: seq<Symbol>, names: set<string>)

  // The document being resolved: where it is and what it imports.
  datatype Source = Source(path: Path, imports: seq<string>, ffimports: seq<string>)

  ghost predicate ImportsMarked(w: World, d: Source, n: nat, resolved: set<string>)
    requires n <= |d.imports|
  {
    forall k :: 0 <= k < n && Leads(w, d.path, d.imports[k]) ==> d.imports[k] in resolved
  }

  lemma OneMoreMarked(w: World, d: Source, n: nat, resolved: set<string>, resolved': set<string>)
    requires n < |d.imports| && ImportsMarked(w, d, n, resolved) && resolved <= resolved'
    requires Leads(w, d.path, d.imports[n]) ==> d.imports[n] in resolved'
    ensures ImportsMarked(w, d, n + 1, resolved')
  {
  }

  // Every import of the document that leads to a readable file, and every wrapper file
  // that exists, is marked as resolved.
  ghost predicate Marked(w: World, d: Source, resolved: set<string>) {
    && ImportsMarked(w, d, |d.imports|, resolved)
    && forall k :: 0 <= k < |d.ffimports| && (d.path, d.ffimports[k]) in w.links ==> d.ffimports[k] in resolved
  }

  // Resolving some of a document's imports, which lead to the files targets, has
  // parsed the files news, in order.
  ghost predicate Advances(w: World, file: map<string, Path>, d: Source, targets: set<Path>, s: Snapshot, t: Snapshot,
                           news: seq<Path>) {
    && t.parsed == s.parsed + news && Walk(w, s.visited, t.visited, news)
    && t.symbols == s.symbols + ExportsOfAll(w, news)
    && t.names == s.names + Names(ExportsOfAll(w, news))
    && (forall i :: 0 <= i < |news| ==> Reachable(w, d.imports, d.path, s.visited, news[i]))
    && (Disciplined(w, file, d, s.resolved, s.visited) ==> Complete(w, file, targets, s, t))
  }

  ghost predicate Complete(w: World, file: map<string, Path>, targets: set<Path>, s: Snapshot, t: Snapshot) {
    && MarksAreVisited(file, t.resolved, t.visited) && targets <= t.visited
    && forall p :: p in t.visited - s.visited ==> SuccessorsOf(w, p) <= t.visited
  }

  lemma AdvancesNowhere(w: World, file: map<string, Path>, d: Source, s: Snapshot)
    ensures Advances(w, file, d, {}, s, s, [])
  {
    assert Names([]) == {};
  }

  // Steps that parse nothing: only marks and unreadable files are added.
  lemma AdvancesUnparsed(w: World, file: map<string, Path>, d: Source, targets: set<Path>, s: Snapshot, t: Snapshot)
    requires t == s.(visited := t.visited, resolved := t.resolved)
    requires s.visited <= t.visited && forall p :: p in t.visited - s.visited ==> p in w.files && !w.files[p].readable
    requires Disciplined(w, file, d, s.resolved, s.visited) ==>
             targets <= t.visited && MarksAreVisited(file, t.resolved, t.visited)
    ensures Advances(w, file, d, targets, s, t, [])
  {
    assert Names([]) == {};
  }

  // Marking wrapper files says nothing about imports.
  lemma AdvancesWrappers(w: World, file: map<string, Path>, d: Source, targets: set<Path>, s: Snapshot, t: Snapshot,
                         t': Snapshot, news: seq<Path>)
    requires Advances(w, file, d, targets, s, t, news) && t' == t.(resolved := t'.resolved)
    requires forall x :: x in t'.resolved - t.resolved ==> x in d.ffimports
    ensures Advances(w, file, d, targets, s, t', news)
  {
  }

  lemma AdvancesOn(w: World, file: map<string, Path>, d: Source, t1: set<Path>, t2: set<Path>, s0: Snapshot,
                   s1: Snapshot, s2: Snapshot, a: seq<Path>, b: seq<Path>)
    requires Advances(w, file, d, t1, s0, s1, a) && Advances(w, file, d, t2, s1, s2, b)
    ensures Advances(w, file, d, t1 + t2, s0, s2, a + b)
  {
    WalkOn(w, s0.visited, s1.visited, s2.visited, a, b);
    ExportsOfAllAppend(w, a, b);
    NamesAppend(ExportsOfAll(w, a), ExportsOfAll(w, b));
    Associative(s0.parsed, a, b);
    Associative(s0.symbols, ExportsOfAll(w, a), ExportsOfAll(w, b));
    forall i | 0 <= i < |a + b| ensures Reachable(w, d.imports, d.path, s0.visited, (a + b)[i]) {
      if i >= |a| { ReachableAvoidingLess(w, d.imports, d.path, s0.visited, s1.visited, b[i - |a|]); }
    }
  }

  // One import whose file is visited for the first time and parsed: its own import
  // resolution, seen from the importing document.
  lemma AdvancesThroughChild(w: World, file: map<string, Path>, d: Source, abs: Path, s: Snapshot, c: Snapshot,
                             c': Snapshot, below: seq<Path>, t: Snapshot, import_: string)
    requires w.Valid() && import_ in d.imports && (d.path, import_) in w.links && abs == w.links[(d.path, import_)]
    requires abs !in s.visited && abs in w.files && w.files[abs].readable
    requires c == Snapshot(s.visited + {abs}, s.resolved, s.parsed + [abs], w.files[abs].symbols, {})
    requires Advances(w, file, ChildSource(w, abs), Successors(w, abs, w.files[abs].imports), c, c', below)
    requires t == Snapshot(c'.visited, c'.resolved + {import_}, c'.parsed, s.symbols + Exports(c'.symbols),
                           s.names + Names(Exports(c'.symbols)))
    ensures Advances(w, file, d, {abs}, s, t, [abs] + below)
  {
    Associative(s.parsed, [abs], below);
    ChildExports(w, abs, below, c'.symbols);
    assert Walk(w, s.visited, c.visited, [abs]);
    WalkOn(w, s.visited, c.visited, c'.visited, [abs], below);
    assert abs in Successors(w, d.path, d.imports) by {
      var i :| 0 <= i < |d.imports| && d.imports[i] == import_;
    }
    ChildrenAreReachable(w, d, abs, s.visited, below);
    if Disciplined(w, file, d, s.resolved, s.visited) {
      CompleteThroughChild(w, file, d, abs, s, c, c', t, import_);
    }
  }

  ghost function ChildSource(w: World, p: Path): Source
    requires p in w.files
  {
    Source(p, w.files[p].imports, w.files[p].ffimports)
  }

  lemma ChildrenAreReachable(w: World, d: Source, abs: Path, visited: set<Path>, below: seq<Path>)
    requires abs in Successors(w, d.path, d.imports) && abs !in visited && abs in w.files && w.files[abs].readable
    requires forall i :: 0 <= i < |below| ==> Reachable(w, w.files[abs].imports, abs, visited + {abs}, below[i])
    ensures forall i :: 0 <= i < |[abs] + below| ==> Reachable(w, d.imports, d.path, visited, ([abs] + below)[i])
  {
    ReachableDirect(w, d.imports, d.path, visited, abs);
    forall i | 0 <= i < |below| ensures Reachable(w, d.imports, d.path, visited, below[i]) {
      ReachableThrough(w, d.imports, d.path, visited, abs, visited + {abs}, below[i]);
    }
  }

  lemma CompleteThroughChild(w: World, file: map<string, Path>, d: Source, abs: Path, s: Snapshot, c: Snapshot,
                             c': Snapshot, t: Snapshot, import_: string)
    requires Disciplined(w, file, d, s.resolved, s.visited) && abs in w.files && w.files[abs].readable
    requires import_ in d.imports && (d.path, import_) in w.links && abs == w.links[(d.path, import_)]
    requires c.visited == s.visited + {abs} && c.resolved == s.resolved && c.visited <= c'.visited
    requires Disciplined(w, file, ChildSource(w, abs), c.resolved, c.visited) ==>
               Complete(w, file, Successors(w, abs, w.files[abs].imports), c, c')
    requires t.visited == c'.visited && t.resolved == c'.resolved + {import_}
    ensures Complete(w, file, {abs}, s, t)
  {
    ChildIsDisciplined(w, file, d, s.resolved, s.visited, abs);
    forall p | p in t.visited - s.visited ensures SuccessorsOf(w, p) <= t.visited {
      if p != abs { assert p in c'.visited - c.visited; }
    }
  }

  lemma ChildIsDisciplined(w: World, file: map<string, Path>, d: Source, resolved: set<string>, visited: set<Path>,
                           p: Path)
    requires Disciplined(w, file, d, resolved, visited) && p in w.files
    ensures Disciplined(w, file, ChildSource(w, p), resolved, visited + {p})
  {
  }

  class ImportResolver {
    const world: World
    var resolvedPaths: set<string>
    // Every file parsed so far, in order.
    ghost var parsed: seq<Path>

    constructor (w: World)
      ensures world == w && resolvedPaths == {} && parsed == []
    {
      world, resolvedPaths, parsed := w, {}, [];
    }

    method Resolve(s: string)
      modifies this`resolvedPaths
      ensures resolvedPaths == old(resolvedPaths) + {s}
    {
      resolvedPaths := resolvedPaths + {s};
    }

    // Appends the exported symbols of a child to a document.
    method Merge(child: FalconDocument, doc: FalconDocument)
      requires child != doc
      modifies doc
      ensures doc.symbols == old(doc.symbols) + Exports(child.symbols)
      ensures doc.importedNames == old(doc.importedNames) + Names(Exports(child.symbols))
      ensures AreVisibleOf(doc.symbols[|old(doc.symbols)|..], child.symbols)
      ensures GainsVisible(old(doc.importedNames), doc.importedNames, child.symbols)
    {
      MergedAreVisible(doc.symbols, doc.importedNames, child.symbols);
      AppendExports(child, doc);
    }

    method AppendExports(child: FalconDocument, doc: FalconDocument)
      requires child != doc
      modifies doc
      ensures doc.symbols == old(doc.symbols) + Exports(child.symbols)
      ensures doc.importedNames == old(doc.importedNames) + Names(Exports(child.symbols))
    {
      ghost var before, names := doc.symbols, doc.importedNames;
      for i := 0 to |child.symbols|
        invariant doc.symbols == before + Exports(child.symbols[..i])
        invariant doc.importedNames == names + Names(Exports(child.symbols[..i]))
      {
        var s := child.symbols[i];
        OneMoreExport(child.symbols, i);
        if Exported(s) {
          doc.symbols := doc.symbols + [s.(fromImport := true)];
          doc.importedNames := doc.importedNames + {s.name};
        }
      }
      assert child.symbols[..|child.symbols|] == child.symbols;
    }

    ghost function Snap(doc: FalconDocument, visited: set<Path>): Snapshot
      reads this, doc
    {
      Snapshot(visited, resolvedPaths, parsed, doc.symbols, doc.importedNames)
    }

    // The depth-first walk.  It ends on every finite set of files, cycles included,
    // because each step visits a file not visited before.
    method ResolveImpl(doc: FalconDocument, visited: set<Path>, ghost file: map<string, Path>)
      returns (visited': set<Path>, ghost news: seq<Path>)
      requires world.Valid()
      modifies this, doc
      ensures Advances(world, file, doc.AsSource(), Successors(world, doc.path, doc.imports), old(Snap(doc, visited)),
                       Snap(doc, visited'), news)
      ensures old(resolvedPaths) <= resolvedPaths && Marked(world, doc.AsSource(), resolvedPaths)
      decreases world.files.Keys - visited, 2
    {
      ghost var s := Snap(doc, visited);
      visited', news := ResolveImports(doc, visited, file);
      ghost var t := Snap(doc, visited');
      MarkWrappers(doc);
      AdvancesWrappers(world, file, doc.AsSource(), Successors(world, doc.path, doc.imports), s, t, Snap(doc, visited'),
                       news);
    }

    method ResolveImports(doc: FalconDocument, visited: set<Path>, ghost file: map<string, Path>)
      returns (visited': set<Path>, ghost news: seq<Path>)
      requires world.Valid()
      modifies this, doc
      ensures Advances(world, file, doc.AsSource(), Successors(world, doc.path, doc.imports), old(Snap(doc, visited)),
                       Snap(doc, visited'), news)
      ensures old(resolvedPaths) <= resolvedPaths
      ensures ImportsMarked(world, doc.AsSource(), |doc.imports|, resolvedPaths)
      decreases world.files.Keys - visited, 1
    {
      visited', news := visited, [];
      ghost var d, s0 := doc.AsSource(), Snap(doc, visited);
      AdvancesNowhere(world, file, d, s0);
      for i := 0 to |doc.imports|
        invariant Advances(world, file, d, Successors(world, doc.path, doc.imports[..i]), s0, Snap(doc, visited'), news)
        invariant old(resolvedPaths) <= resolvedPaths
        invariant ImportsMarked(world, d, i, resolvedPaths)
      {
        SuccessorsSnoc(world, doc.path, doc.imports, i);
        ghost var s1 := Snap(doc, visited');
        ghost var target, more;
        visited', target, more := ResolveImport(doc, i, visited', file);
        OneMoreMarked(world, d, i, s1.resolved, resolvedPaths);
        AdvancesOn(world, file, d, Successors(world, doc.path, doc.imports[..i]), target, s0, s1, Snap(doc, visited'),
                   news, more);
        news := news + more;
      }
      assert doc.imports[..|doc.imports|] == doc.imports;
    }

    // Wrapper files are not parsed, only marked if they exist.
    method MarkWrappers(doc: FalconDocument)
      modifies this`resolvedPaths
      ensures old(resolvedPaths) <= resolvedPaths
      ensures forall s :: s in resolvedPaths - old(resolvedPaths) ==> s in doc.ffimports
      ensures forall k :: 0 <= k < |doc.ffimports| && (doc.path, doc.ffimports[k]) in world.links ==>
                doc.ffimports[k] in resolvedPaths
    {
      for i := 0 to |doc.ffimports|
        invariant old(resolvedPaths) <= resolvedPaths
        invariant forall s :: s in resolvedPaths - old(resolvedPaths) ==> s in doc.ffimports
        invariant forall k :: 0 <= k < i && (doc.path, doc.ffimports[k]) in world.links ==>
                    doc.ffimports[k] in resolvedPaths
      {
        if doc.ffimports[i] !in resolvedPaths && ResolvePath(world, doc.path, doc.ffimports[i]).Found? {
          Resolve(doc.ffimports[i]);
        }
      }
    }

    // One import of a document; target is the file it leads to, if any.
    method ResolveImport(doc: FalconDocument, i: nat, visited: set<Path>, ghost file: map<string, Path>)
      returns (visited': set<Path>, ghost target: set<Path>, ghost news: seq<Path>)
      requires world.Valid() && i < |doc.imports|
      modifies this, doc
      ensures target == if (doc.path, doc.imports[i]) in world.links then {world.links[(doc.path, doc.imports[i])]}
              else {}
      ensures Advances(world, file, doc.AsSource(), target, old(Snap(doc, visited)), Snap(doc, visited'), news)
      ensures old(resolvedPaths) <= resolvedPaths
      ensures Leads(world, doc.path, doc.imports[i]) ==> doc.imports[i] in resolvedPaths
      decreases world.files.Keys - visited, 0
    {
      visited', news := visited, [];
      ghost var d, s0 := doc.AsSource(), Snap(doc, visited);
      var s := doc.imports[i];
      target := if (doc.path, s) in world.links then {world.links[(doc.path, s)]} else {};
      if s in resolvedPaths {
        AdvancesUnparsed(world, file, d, target, s0, Snap(doc, visited'));
        return;
      }
      match ResolvePath(world, doc.path, s)
      case NotFound =>
        AdvancesUnparsed(world, file, d, target, s0, Snap(doc, visited'));
      case Found(abs) =>
        if abs in visited {
          Resolve(s);
          AdvancesUnparsed(world, file, d, target, s0, Snap(doc, visited'));
          return;
        }
        visited' := visited + {abs};
        if !world.files[abs].readable {
          AdvancesUnparsed(world, file, d, target, s0, Snap(doc, visited'));
          return;
        }
        var child := new FalconDocument(abs, world.files[abs]);
        parsed := parsed + [abs];
        ghost var c := Snap(child, visited');
        ghost var below;
        visited', below := ResolveImpl(child, visited', file);
        news := [abs] + below;
        ghost var c' := Snap(child, visited');
        Merge(child, doc);
        Resolve(s);
        AdvancesThroughChild(world, file, d, abs, s0, c, c', below, Snap(doc, visited'), s);
    }

    // Resolves all imports of a document; from a fresh resolver and under the
    // naming discipline the document receives the exports of exactly the files
    // reachable from it, each file's exports once.
    method ResolveDocument(doc: FalconDocument, ghost file: map<string, Path>) returns (ghost news: seq<Path>)
      requires world.Valid()
      modifies this, doc
      ensures parsed == old(parsed) + news && Distinct(news) && doc.path !in news
      ensures forall i :: 0 <= i < |news| ==> news[i] in world.files && world.files[news[i]].readable
      ensures doc.symbols == old(doc.symbols) + ExportsOfAll(world, news)
      ensures doc.importedNames == old(doc.importedNames) + Names(ExportsOfAll(world, news))
      ensures old(doc.symbols) <= doc.symbols
              && AreVisibleOf(doc.symbols[|old(doc.symbols)|..], AllSymbols(world, news))
      ensures GainsVisible(old(doc.importedNames), doc.importedNames, AllSymbols(world, news))
      ensures old(resolvedPaths) <= resolvedPaths && Marked(world, doc.AsSource(), resolvedPaths)
      ensures forall p :: p in news ==> Reachable(world, doc.imports, doc.path, {doc.path}, p)
      ensures old(resolvedPaths) == {} && Disciplined(world, file, doc.AsSource(), {}, {doc.path}) ==>
                forall p :: Reachable(world, doc.imports, doc.path, {doc.path}, p) ==> p in news
    {
      ghost var s0 := Snap(doc, {doc.path});
      var visited;
      visited, news := ResolveImpl(doc, {doc.path}, file);
      ExportsOfAllSymbols(world, news);
      MergedAreVisible(s0.symbols, s0.names, AllSymbols(world, news));
      if s0.resolved == {} && Disciplined(world, file, doc.AsSource(), {}, {doc.path}) {
        forall p | Reachable(world, doc.imports, doc.path, {doc.path}, p) ensures p in news {
          ghost var chain :| IsChain(world, doc.imports, doc.path, {doc.path}, chain) && chain[|chain| - 1] == p;
          ClosedContainsChain(world, doc.imports, doc.path, {doc.path}, chain, visited);
          NamedFilesAreReadable(world, file, doc.imports, doc.ffimports, doc.path, {doc.path}, chain);
        }
      }
    }
  }

  // Under the naming discipline every file on a chain can be read.
  lemma NamedFilesAreReadable(w: World, file: map<string, Path>, imports: seq<string>, ffimports: seq<string>,
                              root: Path, avoid: set<Path>, chain: seq<Path>)
    requires w.Valid() && WellNamed(w, file) && OneFilePerImport(w, file, imports, ffimports, root)
    requires IsChain(w, imports, root, avoid, chain)
    ensures chain[|chain| - 1] in w.files && w.files[chain[|chain| - 1]].readable
  {
    if |chain| == 1 {
      var i :| 0 <= i < |imports| && (root, imports[i]) in w.links && w.links[(root, imports[i])] == chain[0];
    } else {
      var q := chain[|chain| - 2];
      assert chain[|chain| - 2 + 1] in SuccessorsOf(w, q);
      var strings := w.files[q].imports;
      var i :| 0 <= i < |strings| && (q, strings[i]) in w.links && w.links[(q, strings[i])] == chain[|chain| - 1];
      assert OneFilePerImport(w, file, strings, w.files[q].ffimports, q);
    }
  }

  // What a resolved child exports: its own symbols, then those of all files below.
  lemma ChildExports(w: World, p: Path, below: seq<Path>, symbols: seq<Symbol>)
    requires p in w.files && forall i :: 0 <= i < |below| ==> below[i] in w.files
    requires symbols == w.files[p].symbols + ExportsOfAll(w, below)
    ensures forall i :: 0 <= i < |[p] + below| ==> ([p] + below)[i] in w.files
    ensures Exports(symbols) == ExportsOfAll(w, [p] + below)
  {
    ExportsAppend(w.files[p].symbols, ExportsOfAll(w, below));
    ExportsOfAllAreExports(w, below);
    ExportsOfAllAppend(w, [p], below);
    assert ExportsOfAll(w, [p]) == Exports(w.files[p].symbols) by {
      assert [p][..0] == [];
    }
  }

  lemma NamesAppend(a: seq<Symbol>, b: seq<Symbol>)
    ensures Names(a + b) == Names(a) + Names(b)
  {
    forall n | n in Names(a) ensures n in Names(a + b) {
      var i :| 0 <= i < |a| && a[i].name == n;
      assert (a + b)[i] == a[i];
    }
    forall n | n in Names(b) ensures n in Names(a + b) {
      var i :| 0 <= i < |b| && b[i].name == n;
      assert (a + b)[|a| + i] == b[i];
    }
  }

  lemma NamesSnoc(a: seq<Symbol>, s: Symbol)
    ensures Names(a + [s]) == Names(a) + {s.name}
  {
    assert (a + [s])[|a|] == s;
    forall n | n in Names(a) ensures n in Names(a + [s]) {
      var i :| 0 <= i < |a| && a[i].name == n;
      assert (a + [s])[i] == a[i];
    }
  }
}
