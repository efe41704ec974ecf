// The content-addressed file cache of the package manager, with crashes between
// any two file operations and sources that others change at any time.
//
// Sources and cached copies are different files.  The digest is a parameter that
// is assumed to be injective where that matters; a cached copy is named by the
// digest that the source had when it was hashed.
module PackageCache {
  import opened Prelude

  type Path = string
  type Content = string
  type Digest = string
  type Hash = Content -> Digest

  // An index entry: the digest of the source when it was stored, and the copy.
  datatype Entry = Entry(sha: Digest, copy: Digest)

  type Index = map<Path, Entry>

  // The index file; writing it truncates it first.
  datatype IndexFile = NoFile | Truncated | Saved(index: Index)

  datatype Disk = Disk(sources: map<Path, Content>, copies: map<Digest, Content>, indexFile: IndexFile)

  // What other processes do to sources.
  datatype Change = Edit(path: Path, content: Content) | Delete(path: Path)

  // The disk, and the index that the cache object holds in memory.
  datatype State = State(disk: Disk, index: Index)

  ghost predicate Injective(h: Hash) {
    forall a, b :: h(a) == h(b) ==> a == b
  }

  // A new cache object reads the index file; a missing or damaged one is empty.
  function LoadIndex(f: IndexFile): Index {
    match f
    case Saved(index) => index
    case _ => map[]
  }

  function Reopen(s: State): State {
    State(s.disk, LoadIndex(s.disk.indexFile))
  }

  // ---------------------------------------------------------------------
  // The operations as sequences of states, one per file operation
  // ---------------------------------------------------------------------

  function Truncate(s: State): State {
    s.(disk := s.disk.(indexFile := Truncated))
  }

  function Save(s: State): State {
    s.(disk := s.disk.(indexFile := Saved(s.index)))
  }

  function WriteCopy(s: State, d: Digest, c: Content): State {
    s.(disk := s.disk.(copies := s.disk.copies[d := c]))
  }

  function RemoveCopy(s: State, d: Digest): State {
    s.(disk := s.disk.(copies := s.disk.copies - {d}))
  }

  function Changed(s: State, changes: seq<Change>): State
    decreases |changes|
  {
    if changes == [] then s
    else
      var sources := match changes[0]
                     case Edit(p, c) => s.disk.sources[p := c]
                     case Delete(p) => s.disk.sources - {p};
      Changed(s.(disk := s.disk.(sources := sources)), changes[1..])
  }

  lemma EditedOnce(s: State, p: Path, c: Content)
    ensures Changed(s, [Edit(p, c)]) == s.(disk := s.disk.(sources := s.disk.sources[p := c]))
  {
    assert [Edit(p, c)][1..] == [];
  }

  // store: hash the source, copy it, enter it in the index, save the index.  The
  // source is read twice, and between the two reads others may change it.
  function StoreTrace(h: Hash, s: State, p: Path, between: seq<Change>): (t: seq<State>)
    ensures t != []
  {
    var s1 := Changed(s, between);
    if p !in s.disk.sources || p !in s1.disk.sources then [s1]
    else
      var sha := h(s.disk.sources[p]);
      var s2 := WriteCopy(s1, sha, s1.disk.sources[p]);
      var s3 := s2.(index := s2.index[p := Entry(sha, sha)]);
      [s1, s2, Truncate(s3), Save(s3)]
  }

  predicate Referenced(index: Index, d: Digest) {
    exists p :: p in index && index[p].copy == d
  }

  // invalidate: drop the entry, save the index, remove an unused copy.
  function InvalidateTrace(s: State, p: Path): seq<State> {
    if p !in s.index then [s]
    else
      var d := s.index[p].copy;
      var s1 := s.(index := s.index - {p});
      var s2 := Save(s1);
      [s, Truncate(s1), s2] + if !Referenced(s1.index, d) && d in s2.disk.copies then [RemoveCopy(s2, d)] else []
  }

  // clear, for the entries in the given order: remove the copies that exist ...
  function RemoveCopiesTrace(s: State, order: seq<Path>): (t: seq<State>)
    requires forall i :: 0 <= i < |order| ==> order[i] in s.index
    ensures t != [] && t[0].index == s.index && t[|t| - 1].index == s.index
    decreases |order|
  {
    if order == [] then [s]
    else
      var d := s.index[order[0]].copy;
      if d in s.disk.copies then [s] + RemoveCopiesTrace(RemoveCopy(s, d), order[1..])
      else RemoveCopiesTrace(s, order[1..])
  }

  // ... then forget the index and remove its file.
  function ClearTrace(s: State, order: seq<Path>): seq<State>
    requires forall i :: 0 <= i < |order| ==> order[i] in s.index
  {
    var t := RemoveCopiesTrace(s, order);
    t[..|t| - 1] + ClearEnd(t[|t| - 1])
  }

  function ClearEnd(s: State): seq<State> {
    var last := s.(index := map[]);
    [last] + if last.disk.indexFile.NoFile? then [] else [last.(disk := last.disk.(indexFile := NoFile))]
  }

  // ---------------------------------------------------------------------
  // Lookup
  // ---------------------------------------------------------------------

  // The copy of a source, if there is one and the source has not changed since.
  function Lookup(h: Hash, s: State, p: Path): Option<Digest> {
    if p in s.index && s.index[p].copy in s.disk.copies && p in s.disk.sources && h(s.disk.sources[p]) == s.index[p].sha
    then Some(s.index[p].copy) else None
  }

  // ---------------------------------------------------------------------
  // Histories
  // ---------------------------------------------------------------------

  // What can happen to the system.  A budget is the number of file operations
  // after which the process dies and the cache is opened again.
  datatype Event =
    | Store(path: Path, between: seq<Change>, budget: nat)
    | Invalidate(path: Path, budget: nat)
    | Clear(order: seq<Path>, budget: nat)
    | Other(change: Change)
    | Restart

  // The state after an operation, or after the crash in the middle of it.
  function Outcome(trace: seq<State>, budget: nat): State
    requires trace != []
  {
    if budget < |trace| - 1 then Reopen(trace[budget]) else trace[|trace| - 1]
  }

  predicate Enumerates(order: seq<Path>, index: Index) {
    (forall i :: 0 <= i < |order| ==> order[i] in index) && forall p :: p in index ==> p in order
  }

  function Step(h: Hash, s: State, e: Event): State {
    match e
    case Store(p, between, budget) => Outcome(StoreTrace(h, s, p, between), budget)
    case Invalidate(p, budget) => Outcome(InvalidateTrace(s, p), budget)
    case Clear(order, budget) => if Enumerates(order, s.index) then Outcome(ClearTrace(s, order), budget) else s
    case Other(change) => Changed(s, [change])
    case Restart => Reopen(s)
  }

  function After(h: Hash, s: State, events: seq<Event>): State
    decreases |events|
  {
    if events == [] then s else Step(h, After(h, s, events[..|events| - 1]), events[|events| - 1])
  }

  // Sources may also change between any other two file operations: that is the same
  // as a change after the operation, since the operation does not read them there.
  lemma {:induction false} ChangesCommute(s: State, cs: seq<Change>)
    ensures Changed(s, cs) == State(Disk(Changed(s, cs).disk.sources, s.disk.copies, s.disk.indexFile), s.index)
    ensures forall t: State :: t.disk.sources == s.disk.sources ==>
            Changed(t, cs).disk.sources == Changed(s, cs).disk.sources
    decreases |cs|
  {
    if cs != [] {
      var sources := match cs[0]
                     case Edit(p, c) => s.disk.sources[p := c]
                     case Delete(p) => s.disk.sources - {p};
      ChangesCommute(s.(disk := s.disk.(sources := sources)), cs[1..]);
    }
  }

  // The states of an operation with the changes made beforehand are the states of the
  // operation with the changes made afterwards.
  ghost predicate Commutes(early: seq<State>, late: seq<State>, cs: seq<Change>) {
    |early| == |late| && forall i :: 0 <= i < |late| ==> early[i] == Changed(late[i], cs)
  }

  lemma InvalidateCommutes(s: State, p: Path, cs: seq<Change>)
    ensures Commutes(InvalidateTrace(Changed(s, cs), p), InvalidateTrace(s, p), cs)
  {
    ChangesCommute(s, cs);
    forall i | 0 <= i < |InvalidateTrace(s, p)|
      ensures InvalidateTrace(Changed(s, cs), p)[i] == Changed(InvalidateTrace(s, p)[i], cs)
    {
      ChangesCommute(InvalidateTrace(s, p)[i], cs);
    }
  }

  // The three states after the copy, from the state in which the copy was made.
  function AfterCopy(s: State, p: Path, sha: Digest): seq<State> {
    var s' := s.(index := s.index[p := Entry(sha, sha)]);
    [s, Truncate(s'), Save(s')]
  }

  lemma StoreCommutesAfterCopy(h: Hash, s: State, p: Path, between: seq<Change>, cs: seq<Change>)
    requires var t := StoreTrace(h, s, p, between); |t| > 1
    ensures var t := StoreTrace(h, s, p, between);
            && t[1..] == AfterCopy(t[1], p, h(s.disk.sources[p]))
            && Commutes(AfterCopy(Changed(t[1], cs), p, h(s.disk.sources[p])), t[1..], cs)
            && Reopen(Changed(t[1], cs)) == Changed(Reopen(t[1]), cs)
  {
    var t, sha := StoreTrace(h, s, p, between), h(s.disk.sources[p]);
    ChangesCommute(t[1], cs);
    ChangesCommute(Reopen(t[1]), cs);
    forall i | 0 <= i < 3 ensures AfterCopy(Changed(t[1], cs), p, sha)[i] == Changed(t[1..][i], cs) {
      ChangesCommute(t[i + 1], cs);
    }
  }

  lemma {:induction false} RemoveCopiesCommutes(s: State, order: seq<Path>, cs: seq<Change>)
    requires forall i :: 0 <= i < |order| ==> order[i] in s.index
    ensures Changed(s, cs).index == s.index
    ensures Commutes(RemoveCopiesTrace(Changed(s, cs), order), RemoveCopiesTrace(s, order), cs)
    decreases |order|
  {
    ChangesCommute(s, cs);
    if order != [] {
      var d := s.index[order[0]].copy;
      var s' := if d in s.disk.copies then RemoveCopy(s, d) else s;
      ChangesCommute(s', cs);
      RemoveCopiesCommutes(s', order[1..], cs);
    }
  }

  lemma ClearCommutes(s: State, order: seq<Path>, cs: seq<Change>)
    requires forall i :: 0 <= i < |order| ==> order[i] in s.index
    ensures Changed(s, cs).index == s.index
    ensures Commutes(ClearTrace(Changed(s, cs), order), ClearTrace(s, order), cs)
  {
    RemoveCopiesCommutes(s, order, cs);
    var early, late := RemoveCopiesTrace(Changed(s, cs), order), RemoveCopiesTrace(s, order);
    var k := |late| - 1;
    assert Commutes(early[..k], late[..k], cs);
    ClearEndCommutes(late[k], cs);
    AppendedCommute(early[..k], ClearEnd(early[k]), late[..k], ClearEnd(late[k]), cs);
  }

  lemma ClearEndCommutes(s: State, cs: seq<Change>)
    ensures Commutes(ClearEnd(Changed(s, cs)), ClearEnd(s), cs)
  {
    var last := s.(index := map[]);
    ChangesCommute(s, cs);
    ChangesCommute(last, cs);
    ChangesCommute(last.(disk := last.disk.(indexFile := NoFile)), cs);
  }

  lemma AppendedCommute(a: seq<State>, b: seq<State>, c: seq<State>, d: seq<State>, cs: seq<Change>)
    requires Commutes(a, c, cs) && Commutes(b, d, cs)
    ensures Commutes(a + b, c + d, cs)
  {
  }

  // Neither does a restart, or the crash in the middle of an operation, read sources.
  lemma ReopenCommutes(s: State, cs: seq<Change>)
    ensures Reopen(Changed(s, cs)) == Changed(Reopen(s), cs)
  {
    ChangesCommute(s, cs);
    ChangesCommute(Reopen(s), cs);
  }

  // ---------------------------------------------------------------------
  // When lookup is right
  // ---------------------------------------------------------------------

  // Between operations the memory agrees with the index file, and every entry names
  // the copy by a digest that some content has.
  ghost predicate AtRest(h: Hash, s: State) {
    s.index == LoadIndex(s.disk.indexFile) && forall p :: p in s.index ==> Recorded(h, s.index[p])
  }

  ghost predicate Recorded(h: Hash, e: Entry) {
    e.copy == e.sha && exists c :: h(c) == e.sha
  }

  // Every copy that the index refers to has the content its name says.
  ghost predicate Sound(h: Hash, s: State) {
    AtRest(h, s) && forall p :: p in s.index && s.index[p].copy in s.disk.copies ==>
      h(s.disk.copies[s.index[p].copy]) == s.index[p].copy
  }

  // Every path that lookup returns holds what the source holds now.
  ghost predicate Fresh(h: Hash, s: State) {
    forall p :: Lookup(h, s, p).Some? ==>
      Lookup(h, s, p).value in s.disk.copies && p in s.disk.sources
      && s.disk.copies[Lookup(h, s, p).value] == s.disk.sources[p]
  }

  ghost predicate FreshWhateverChanges(h: Hash, s: State) {
    forall changes :: Fresh(h, Changed(s, changes))
  }

  // Lookup does not hash the copy: with entries as they are recorded, what it
  // returns is right if and only if the copy still has the content of its name.
  lemma LookupTrustsTheCopy(h: Hash, s: State, p: Path)
    requires Injective(h) && Lookup(h, s, p).Some? && s.index[p].copy == s.index[p].sha
    ensures var d := Lookup(h, s, p).value;
            s.disk.copies[d] == s.disk.sources[p] <==> h(s.disk.copies[d]) == d
  {
  }

  // Lookup is right now and after any changes of sources if and only if all copies in
  // use have the content of their names.
  lemma FreshExactlyWhenSound(h: Hash, s: State)
    requires Injective(h) && AtRest(h, s)
    ensures FreshWhateverChanges(h, s) <==> Sound(h, s)
  {
    if Sound(h, s) {
      forall changes ensures Fresh(h, Changed(s, changes)) { SoundIsFresh(h, s, changes); }
    }
    if FreshWhateverChanges(h, s) {
      forall p | p in s.index && s.index[p].copy in s.disk.copies
        ensures h(s.disk.copies[s.index[p].copy]) == s.index[p].copy
      {
        assert Recorded(h, s.index[p]);
        var c :| h(c) == s.index[p].sha;
        EditedOnce(s, p, c);
        var s' := Changed(s, [Edit(p, c)]);
        assert Fresh(h, s') && Lookup(h, s', p) == Some(s.index[p].copy);
      }
    }
  }

  lemma SoundIsFresh(h: Hash, s: State, changes: seq<Change>)
    requires Injective(h) && Sound(h, s)
    ensures Fresh(h, Changed(s, changes))
  {
    ChangesCommute(s, changes);
    var t := Changed(s, changes);
    forall p | Lookup(h, t, p).Some?
      ensures Lookup(h, t, p).value in t.disk.copies && p in t.disk.sources
              && t.disk.copies[Lookup(h, t, p).value] == t.disk.sources[p]
    {
      assert Recorded(h, s.index[p]);
      assert h(t.disk.copies[s.index[p].copy]) == h(t.disk.sources[p]);
    }
  }

  // ---------------------------------------------------------------------
  // Freshness over every history
  // ---------------------------------------------------------------------

  // A store that copies other content than it has hashed ...
  predicate Mismatched(h: Hash, s: State, p: Path, between: seq<Change>) {
    p in s.disk.sources && p in Changed(s, between).disk.sources
    && h(Changed(s, between).disk.sources[p]) != h(s.disk.sources[p])
  }

  // ... and whose copy is then in use: because it completes, or because it dies right
  // after copying and the index on disk refers to a copy of that name.
  predicate Harmful(h: Hash, s: State, e: Event) {
    e.Store? && Mismatched(h, s, e.path, e.between)
    && (e.budget >= 3 || (e.budget == 1 && Referenced(s.index, h(s.disk.sources[e.path]))))
  }

  lemma RemovedCopies(h: Hash, s: State, order: seq<Path>, i: nat)
    requires (forall k :: 0 <= k < |order| ==> order[k] in s.index) && i < |RemoveCopiesTrace(s, order)|
    ensures var t := RemoveCopiesTrace(s, order)[i];
            && t.index == s.index && t.disk.indexFile == s.disk.indexFile && t.disk.copies.Keys <= s.disk.copies.Keys
            && forall d :: d in t.disk.copies ==> t.disk.copies[d] == s.disk.copies[d]
    decreases |order|, i
  {
    if order != [] {
      var d := s.index[order[0]].copy;
      if d !in s.disk.copies {
        RemovedCopies(h, s, order[1..], i);
      } else if i > 0 {
        RemovedCopies(h, RemoveCopy(s, d), order[1..], i - 1);
      }
    }
  }

  lemma ClearIsSound(h: Hash, s: State, order: seq<Path>, budget: nat)
    requires AtRest(h, s) && Enumerates(order, s.index)
    ensures AtRest(h, Outcome(ClearTrace(s, order), budget))
    ensures Sound(h, s) ==> Sound(h, Outcome(ClearTrace(s, order), budget))
  {
    var t := RemoveCopiesTrace(s, order);
    if budget < |t| - 1 {
      RemovedCopies(h, s, order, budget);
      assert ClearTrace(s, order)[budget] == t[budget];
    } else {
      RemovedCopies(h, s, order, |t| - 1);
    }
  }

  lemma InvalidateIsSound(h: Hash, s: State, p: Path, budget: nat)
    requires AtRest(h, s)
    ensures AtRest(h, Outcome(InvalidateTrace(s, p), budget))
    ensures Sound(h, s) ==> Sound(h, Outcome(InvalidateTrace(s, p), budget))
  {
  }

  // A store keeps the copies in use right if and only if it is not harmful.
  lemma StoreIsSound(h: Hash, s: State, p: Path, between: seq<Change>, budget: nat)
    requires AtRest(h, s)
    ensures AtRest(h, Step(h, s, Store(p, between, budget)))
    ensures Sound(h, s) ==>
              (Sound(h, Step(h, s, Store(p, between, budget))) <==> !Harmful(h, s, Store(p, between, budget)))
  {
    var s1, s' := Changed(s, between), Step(h, s, Store(p, between, budget));
    ChangesCommute(s, between);
    if p in s.disk.sources && p in s1.disk.sources {
      var sha := h(s.disk.sources[p]);
      if budget >= 3 {
        assert Recorded(h, Entry(sha, sha));
        assert s'.index == s.index[p := Entry(sha, sha)] && s'.disk.copies == s.disk.copies[sha := s1.disk.sources[p]];
        assert p in s'.index && s'.index[p].copy in s'.disk.copies;
      } else if budget == 1 {
        assert s'.index == s.index && s'.disk.copies == s.disk.copies[sha := s1.disk.sources[p]];
        if Referenced(s.index, sha) {
          var q :| q in s.index && s.index[q].copy == sha;
          assert s'.index[q].copy in s'.disk.copies;
        }
      }
    }
  }

  lemma StepIsSound(h: Hash, s: State, e: Event)
    requires AtRest(h, s)
    ensures AtRest(h, Step(h, s, e))
    ensures Sound(h, s) ==> (Sound(h, Step(h, s, e)) <==> !Harmful(h, s, e))
  {
    match e
    case Store(p, between, budget) => StoreIsSound(h, s, p, between, budget);
    case Invalidate(p, budget) => InvalidateIsSound(h, s, p, budget);
    case Clear(order, budget) =>
      if Enumerates(order, s.index) { ClearIsSound(h, s, order, budget); }
    case Other(change) => ChangesCommute(s, [change]);
    case Restart =>
  }

  function Empty(sources: map<Path, Content>): State {
    State(Disk(sources, map[], NoFile), map[])
  }

  ghost predicate NoneHarmful(h: Hash, s: State, events: seq<Event>) {
    forall k :: 0 <= k < |events| ==> !Harmful(h, After(h, s, events[..k]), events[k])
  }

  ghost predicate AlwaysFresh(h: Hash, s: State, events: seq<Event>) {
    forall k :: 0 <= k <= |events| ==> FreshWhateverChanges(h, After(h, s, events[..k]))
  }

  lemma {:induction false} HistoryIsAtRest(h: Hash, s: State, events: seq<Event>)
    requires AtRest(h, s)
    ensures AtRest(h, After(h, s, events))
    decreases |events|
  {
    if events != [] {
      var k := |events| - 1;
      HistoryIsAtRest(h, s, events[..k]);
      StepIsSound(h, After(h, s, events[..k]), events[k]);
    }
  }

  // If no store so far was harmful, the copies in use are right.
  lemma {:induction false} HistoryIsSound(h: Hash, s: State, events: seq<Event>)
    requires Sound(h, s) && NoneHarmful(h, s, events)
    ensures Sound(h, After(h, s, events))
    decreases |events|
  {
    if events != [] {
      var k := |events| - 1;
      forall i | 0 <= i < k ensures !Harmful(h, After(h, s, events[..k][..i]), events[..k][i]) {
        assert events[..k][..i] == events[..i];
      }
      HistoryIsSound(h, s, events[..k]);
      HistoryIsAtRest(h, s, events[..k]);
      StepIsSound(h, After(h, s, events[..k]), events[k]);
    }
  }

  // From an empty cache, over every interleaving of operations, changes of sources,
  // restarts and crashes: lookup always returns what the source holds, and would
  // whatever changes next, if and only if no store was harmful.
  lemma LookupIsFreshAfterEveryHistory(h: Hash, sources: map<Path, Content>, events: seq<Event>)
    requires Injective(h)
    ensures AlwaysFresh(h, Empty(sources), events) <==> NoneHarmful(h, Empty(sources), events)
  {
    var s := Empty(sources);
    if NoneHarmful(h, s, events) {
      forall k | 0 <= k <= |events| ensures FreshWhateverChanges(h, After(h, s, events[..k])) {
        forall i | 0 <= i < k ensures !Harmful(h, After(h, s, events[..k][..i]), events[..k][i]) {
          assert events[..k][..i] == events[..i];
        }
        HistoryIsSound(h, s, events[..k]);
        FreshExactlyWhenSound(h, After(h, s, events[..k]));
      }
    }
    if AlwaysFresh(h, s, events) {
      forall k | 0 <= k < |events| ensures !Harmful(h, After(h, s, events[..k]), events[k]) {
        FreshStepIsHarmless(h, s, events, k);
      }
    }
  }

  lemma FreshStepIsHarmless(h: Hash, s: State, events: seq<Event>, k: nat)
    requires Injective(h) && AtRest(h, s) && k < |events| && AlwaysFresh(h, s, events)
    ensures !Harmful(h, After(h, s, events[..k]), events[k])
  {
    var before, after := After(h, s, events[..k]), After(h, s, events[..k + 1]);
    HistoryIsAtRest(h, s, events[..k]);
    HistoryIsAtRest(h, s, events[..k + 1]);
    FreshExactlyWhenSound(h, before);
    FreshExactlyWhenSound(h, after);
    assert events[..k + 1][..k] == events[..k] && events[..k + 1][k] == events[k];
    assert after == Step(h, before, events[k]);
    StepIsSound(h, before, events[k]);
  }

  // The race in full: hash a, let others write b, copy b under the name of a, let
  // others write a again; lookup then returns b for a.
  lemma StoreMayCopyOtherContent(h: Hash, p: Path, a: Content, b: Content)
    requires Injective(h) && a != b
    ensures var s := After(h, Empty(map[p := a]), [Store(p, [Edit(p, b)], 3), Other(Edit(p, a))]);
            && s.disk.sources == map[p := a] && Lookup(h, s, p) == Some(h(a))
            && h(a) in s.disk.copies && s.disk.copies[h(a)] == b
  {
    var first, second, s0 := Store(p, [Edit(p, b)], 3), Other(Edit(p, a)), Empty(map[p := a]);
    AfterTwo(h, s0, first, second);
    EditedOnce(s0, p, b);
    StoredOtherContent(h, s0, p, b);
    EditedOnce(Step(h, s0, first), p, a);
    assert map[p := a][p := b][p := a] == map[p := a];
  }

  lemma AfterTwo(h: Hash, s: State, first: Event, second: Event)
    ensures After(h, s, [first, second]) == Step(h, Step(h, s, first), second)
  {
    assert [first][..0] == [];
    assert After(h, s, [first]) == Step(h, After(h, s, []), first);
    assert [first, second][..1] == [first];
  }

  lemma StoredOtherContent(h: Hash, s: State, p: Path, b: Content)
    requires p in s.disk.sources
    ensures var s', sha := Step(h, s, Store(p, [Edit(p, b)], 3)), h(s.disk.sources[p]);
            && s'.disk.sources == s.disk.sources[p := b] && s'.disk.copies == s.disk.copies[sha := b]
            && s'.index == s.index[p := Entry(sha, sha)]
  {
    EditedOnce(s, p, b);
  }

  // ---------------------------------------------------------------------
  // What one operation does to the others
  // ---------------------------------------------------------------------

  // Sources with equal content share one copy; invalidating one of them never
  // changes what lookup finds for another, at no point of the operation.
  lemma InvalidateKeepsOthers(h: Hash, s: State, p: Path, q: Path, i: nat)
    requires q != p && i < |InvalidateTrace(s, p)|
    ensures Lookup(h, InvalidateTrace(s, p)[i], q) == Lookup(h, s, q)
  {
    if p in s.index && q in s.index {
      var s1 := s.(index := s.index - {p});
      assert q in s1.index && s1.index[q] == s.index[q];
      assert Referenced(s1.index, s.index[q].copy);
    }
  }

  // In the end the copy of an invalidated source is gone if and only if no other source
  // uses it, and nothing else is.
  lemma InvalidateRemovesUnused(s: State, p: Path, d: Digest)
    requires p in s.index
    ensures var t := InvalidateTrace(s, p); var s' := t[|t| - 1];
            var unused := d == s.index[p].copy && forall q :: q in s.index && q != p ==> s.index[q].copy != d;
            && s'.index == s.index - {p} && s'.disk.sources == s.disk.sources
            && (d in s'.disk.copies <==> d in s.disk.copies && !unused)
            && (d in s'.disk.copies ==> s'.disk.copies[d] == s.disk.copies[d])
  {
    var index' := s.index - {p};
    assert forall q :: q in index' <==> q in s.index && q != p;
  }

  // Clear leaves no entry, no index file and none of the copies that entries used.
  lemma ClearRemovesAll(s: State, order: seq<Path>)
    requires Enumerates(order, s.index)
    ensures var t := ClearTrace(s, order); var s' := t[|t| - 1];
            && s'.index == map[] && s'.disk.indexFile == NoFile && s'.disk.sources == s.disk.sources
            && s'.disk.copies == map d | d in s.disk.copies && !Referenced(s.index, d) :: s.disk.copies[d]
  {
    UsedCopiesRemoved(s, order);
    forall d ensures UsedBy(s.index, order, d) <==> Referenced(s.index, d) { UsedIsReferenced(s.index, order, d); }
  }

  // One of the listed entries uses the copy.
  predicate UsedBy(index: Index, order: seq<Path>, d: Digest)
    requires forall i :: 0 <= i < |order| ==> order[i] in index
  {
    order != [] && (index[order[0]].copy == d || UsedBy(index, order[1..], d))
  }

  lemma {:induction false} UsedIsReferenced(index: Index, order: seq<Path>, d: Digest)
    requires forall i :: 0 <= i < |order| ==> order[i] in index
    ensures UsedBy(index, order, d) ==> Referenced(index, d)
    ensures forall p :: p in order && index[p].copy == d ==> UsedBy(index, order, d)
  {
    if order != [] {
      UsedIsReferenced(index, order[1..], d);
      assert order == [order[0]] + order[1..];
    }
  }

  lemma {:induction false} UsedCopiesRemoved(s: State, order: seq<Path>)
    requires forall i :: 0 <= i < |order| ==> order[i] in s.index
    ensures var t := RemoveCopiesTrace(s, order); var s' := t[|t| - 1];
            && s'.disk.sources == s.disk.sources && s'.disk.indexFile == s.disk.indexFile
            && s'.disk.copies == map d | d in s.disk.copies && !UsedBy(s.index, order, d) :: s.disk.copies[d]
    decreases |order|
  {
    if order != [] {
      var c := s.index[order[0]].copy;
      UsedCopiesRemoved(if c in s.disk.copies then RemoveCopy(s, c) else s, order[1..]);
    }
  }

  lemma InvalidateForgets(h: Hash, s: State, p: Path)
    requires p in s.index
    ensures var t := InvalidateTrace(s, p); Lookup(h, t[|t| - 1], p).None?
  {
  }

  // A completed store finds the source if and only if it copied what it had hashed.
  // It keeps what is found for the others, except that those with the same digest
  // regain a copy that was missing.
  lemma StoreFindsAndKeeps(h: Hash, s: State, p: Path, between: seq<Change>, q: Path)
    requires p in s.disk.sources && p in Changed(s, between).disk.sources
    ensures var s1, t := Changed(s, between), StoreTrace(h, s, p, between);
            var sha, s' := h(s.disk.sources[p]), t[|t| - 1];
            && Lookup(h, s', p) == (if Mismatched(h, s, p, between) then None else Some(sha))
            && (q != p && Lookup(h, s1, q).Some? ==> Lookup(h, s', q) == Lookup(h, s1, q))
            && (q != p && Lookup(h, s', q) != Lookup(h, s1, q) ==> q in s1.index && s1.index[q].copy == sha)
  {
  }

  // After a completed store or invalidate, a new cache object reads back exactly
  // the index that the old one has; clear leaves nothing to read.
  lemma ReopenAfterCompletion(h: Hash, s: State, p: Path, between: seq<Change>, order: seq<Path>)
    ensures p in s.disk.sources && p in Changed(s, between).disk.sources ==>
              var t := StoreTrace(h, s, p, between); Reopen(t[|t| - 1]) == t[|t| - 1]
    ensures p in s.index ==> var t := InvalidateTrace(s, p); Reopen(t[|t| - 1]) == t[|t| - 1]
    ensures Enumerates(order, s.index) ==> var t := ClearTrace(s, order); Reopen(t[|t| - 1]) == t[|t| - 1]
  {
  }

  // The removals of clear with the file operations that are left: whether they all
  // happen, the state then, and what is left of the budget.
  function RemoveCopiesRun(s: State, order: seq<Path>, left: nat): (bool, State, nat)
    requires forall i :: 0 <= i < |order| ==> order[i] in s.index
    decreases |order|
  {
    if order == [] then (true, s, left)
    else
      var d := s.index[order[0]].copy;
      if d !in s.disk.copies then RemoveCopiesRun(s, order[1..], left)
      else if left == 0 then (false, Reopen(s), 0)
      else RemoveCopiesRun(RemoveCopy(s, d), order[1..], left - 1)
  }

  lemma {:induction false} RunFollowsTrace(s: State, order: seq<Path>, budget: nat)
    requires forall i :: 0 <= i < |order| ==> order[i] in s.index
    ensures var t := RemoveCopiesTrace(s, order);
            RemoveCopiesRun(s, order, budget)
            == if budget >= |t| - 1 then (true, t[|t| - 1], budget - (|t| - 1)) else (false, Reopen(t[budget]), 0)
    decreases |order|
  {
    if order != [] {
      var d := s.index[order[0]].copy;
      if d !in s.disk.copies {
        RunFollowsTrace(s, order[1..], budget);
      } else if budget > 0 {
        RunFollowsTrace(RemoveCopy(s, d), order[1..], budget - 1);
      }
    }
  }

  // The end of clear with the file operations that are left.
  function ClearRest(s: State, left: nat): State {
    var last := s.(index := map[]);
    if last.disk.indexFile.NoFile? then last
    else if left == 0 then Reopen(last)
    else last.(disk := last.disk.(indexFile := NoFile))
  }

  lemma ClearOutcome(s: State, order: seq<Path>, budget: nat)
    requires forall i :: 0 <= i < |order| ==> order[i] in s.index
    ensures var t := RemoveCopiesTrace(s, order);
            Outcome(ClearTrace(s, order), budget)
            == if budget < |t| - 1 then Reopen(t[budget]) else ClearRest(t[|t| - 1], budget - (|t| - 1))
  {
  }

  // ---------------------------------------------------------------------
  // The cache object
  // ---------------------------------------------------------------------

  class PackageCache {
    const hash: Hash
    var disk: Disk
    var index: Index

    constructor (h: Hash, d: Disk)
      ensures hash == h && Current() == Reopen(State(d, map[]))
    {
      hash, disk, index := h, d, LoadIndex(d.indexFile);
    }

    ghost function Current(): State
      reads this
    {
      State(disk, index)
    }

    // Looks a source up; a source that cannot be read counts as changed.
    method LookupCopy(p: Path) returns (r: Option<Digest>)
      ensures r == Lookup(hash, Current(), p)
    {
      if p !in index {
        return None;
      }
      var e := index[p];
      if e.copy !in disk.copies {
        return None;
      }
      if p !in disk.sources || hash(disk.sources[p]) != e.sha {
        return None;
      }
      return Some(e.copy);
    }

    method Crash()
      modifies this
      ensures Current() == Reopen(old(Current()))
    {
      index := LoadIndex(disk.indexFile);
    }

    // Truncates the index file and writes it; true when both have happened.
    method SaveIndex(budget: nat) returns (done: bool)
      modifies this
      ensures done <==> budget >= 2
      ensures budget == 0 ==> Current() == Reopen(old(Current()))
      ensures budget == 1 ==> Current() == Reopen(Truncate(old(Current())))
      ensures done ==> Current() == Save(old(Current()))
    {
      if budget == 0 {
        Crash();
        return false;
      }
      disk := disk.(indexFile := Truncated);
      if budget == 1 {
        Crash();
        return false;
      }
      disk := disk.(indexFile := Saved(index));
      return true;
    }

    // The changes of sources that others make meanwhile.
    method LetOthersChange(changes: seq<Change>)
      modifies this
      ensures Current() == Changed(old(Current()), changes)
    {
      for i := 0 to |changes|
        invariant Changed(old(Current()), changes) == Changed(Current(), changes[i..])
      {
        assert changes[i..][0] == changes[i] && changes[i..][1..] == changes[i + 1..];
        match changes[i]
        case Edit(p, c) => disk := disk.(sources := disk.sources[p := c]);
        case Delete(p) => disk := disk.(sources := disk.sources - {p});
      }
    }

    method StoreSource(p: Path, between: seq<Change>, budget: nat)
      modifies this
      ensures Current() == Step(hash, old(Current()), Store(p, between, budget))
    {
      if p !in disk.sources {
        LetOthersChange(between);
        return;
      }
      var sha := hash(disk.sources[p]);
      LetOthersChange(between);
      if p !in disk.sources {
        return;
      }
      if budget == 0 {
        Crash();
        return;
      }
      disk := disk.(copies := disk.copies[sha := disk.sources[p]]);
      if budget == 1 {
        Crash();
        return;
      }
      index := index[p := Entry(sha, sha)];
      var done := SaveIndex(budget - 1);
    }

    method InvalidateSource(p: Path, budget: nat)
      modifies this
      ensures Current() == Step(hash, old(Current()), Invalidate(p, budget))
    {
      if p !in index {
        return;
      }
      var d := index[p].copy;
      if budget == 0 {
        Crash();
        return;
      }
      index := index - {p};
      var done := SaveIndex(budget);
      if !done {
        return;
      }
      var keys := index.Keys;
      var referenced := false;
      while keys != {} && !referenced
        invariant keys <= index.Keys && Current() == Save(old(Current()).(index := old(index) - {p}))
        invariant referenced ==> Referenced(index, d)
        invariant forall k :: k in index && k !in keys ==> referenced || index[k].copy != d
        decreases |keys|
      {
        var k :| k in keys;
        if index[k].copy == d {
          referenced := true;
        }
        keys := keys - {k};
      }
      if !referenced && d in disk.copies {
        if budget == 2 {
          Crash();
          return;
        }
        disk := disk.(copies := disk.copies - {d});
      }
    }

    // Removes the copies of all entries; done unless the process died.
    method RemoveCopies(order: seq<Path>, budget: nat) returns (done: bool, left: nat)
      requires forall i :: 0 <= i < |order| ==> order[i] in index
      modifies this
      ensures var t := RemoveCopiesTrace(old(Current()), order);
              && (done <==> budget >= |t| - 1)
              && (done ==> left == budget - (|t| - 1) && Current() == t[|t| - 1])
              && (!done ==> Current() == Reopen(t[budget]))
    {
      RunFollowsTrace(Current(), order, budget);
      left := budget;
      for i := 0 to |order|
        invariant forall k :: 0 <= k < |order| ==> order[k] in index
        invariant RemoveCopiesRun(old(Current()), order, budget) == RemoveCopiesRun(Current(), order[i..], left)
      {
        assert order[i..][0] == order[i] && order[i..][1..] == order[i + 1..];
        var d := index[order[i]].copy;
        if d in disk.copies {
          if left == 0 {
            Crash();
            return false, 0;
          }
          disk := disk.(copies := disk.copies - {d});
          left := left - 1;
        }
      }
      done := true;
    }

    // Clears the cache; order is the order in which the index is iterated.
    method ClearCache(order: seq<Path>, budget: nat)
      requires Enumerates(order, index)
      modifies this
      ensures Current() == Step(hash, old(Current()), Clear(order, budget))
    {
      ClearOutcome(Current(), order, budget);
      var done, left := RemoveCopies(order, budget);
      if !done {
        return;
      }
      ForgetIndex(left);
    }

    method ForgetIndex(left: nat)
      modifies this
      ensures Current() == ClearRest(old(Current()), left)
    {
      index := map[];
      if !disk.indexFile.NoFile? {
        if left == 0 {
          Crash();
          return;
        }
        disk := disk.(indexFile := NoFile);
      }
    }
  }
}
