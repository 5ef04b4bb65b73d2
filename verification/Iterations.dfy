// The database iterator: what its layers of cursors walk together. Memtables,
// level-0 tables and one concatenation for every other level are merged, and
// DBIter reads the merged run (db/db_impl.cc, NewInternalIterator;
// db/version_set.cc, LevelFileNumIterator and AddIterators).
module Iterations {
  import opened Keys
  import opened Codings
  import opened Versions
  import opened Builders
  import opened Compactions
  import opened Cursors
  import opened Preservation
  import opened Mergers
  import Catalog
  import DBIters
  import Store
  import TwoLevels

  // ----- the files of a level as a two-level run -----

  // The value of LevelFileNumIterator: number and size as two fixed words.
  function NameOf(f: File): Bytes {
    Fixed(f.number % TWO_64, 8) + Fixed(f.size % TWO_64, 8)
  }

  function LevelIndex(files: Level): (r: seq<Entry>)
    ensures |r| == |files| && forall i :: 0 <= i < |files| ==> r[i] == Entry(files[i].largest, NameOf(files[i]))
  {
    seq(|files|, i requires 0 <= i < |files| => Entry(files[i].largest, NameOf(files[i])))
  }

  // Opening the table that a value names gives the table of that file.
  ghost predicate Opens(files: Level, blocks: map<Bytes, seq<Entry>>) {
    forall i :: 0 <= i < |files| ==> NameOf(files[i]) in blocks && blocks[NameOf(files[i])] == files[i].entries
  }

  lemma FileSpan(f: File, e: Entry)
    requires FileOk(f) && e in f.entries
    ensures !Less(f.largest, e.key) && !Less(e.key, f.smallest)
  {
  }

  lemma FileEnds(f: File)
    requires FileOk(f)
    ensures !Less(f.largest, f.smallest)
  {
    assert f.entries[0] in f.entries;
    FileSpan(f, f.entries[0]);
  }

  lemma LevelIsIndexed(files: Level, blocks: map<Bytes, seq<Entry>>)
    requires FilesOk(files) && Disjoint(files) && Opens(files, blocks)
    ensures TwoLevels.WellIndexed(LevelIndex(files), blocks)
    ensures forall i :: 0 <= i < |files| ==> TwoLevels.BlockOf(LevelIndex(files), blocks, i) == files[i].entries
  {
    hide NameOf;
    var index := LevelIndex(files);
    forall i | 0 <= i < |files|
      ensures TwoLevels.BlockOf(index, blocks, i) == files[i].entries && Sorted(files[i].entries)
      ensures TwoLevels.Caps(index[i].key, files[i].entries)
    {
      assert FileOk(files[i]);
      hide FileOk;
      forall e | e in files[i].entries ensures !Less(files[i].largest, e.key) {
        FileSpan(files[i], e);
      }
    }
    forall i, j | 0 <= i < j < |files|
      ensures Less(index[i].key, index[j].key) && TwoLevels.Precedes(index[i].key, files[j].entries)
    {
      assert FileOk(files[j]) && Less(files[i].largest, files[j].smallest);
      hide FileOk;
      FileEnds(files[j]);
      forall e | e in files[j].entries ensures Less(files[i].largest, e.key) {
        FileSpan(files[j], e);
      }
    }
  }

  lemma {:induction false} FlatIsContents(files: Level, blocks: map<Bytes, seq<Entry>>, n: nat)
    requires n <= |files|
    requires forall i :: 0 <= i < |files| ==> TwoLevels.BlockOf(LevelIndex(files), blocks, i) == files[i].entries
    ensures TwoLevels.Flat(LevelIndex(files), blocks, n) == Contents(files[..n])
    decreases n
  {
    if n > 0 {
      FlatIsContents(files, blocks, n - 1);
      assert files[..n][..n - 1] == files[..n - 1];
    }
  }

  // The concatenating iterator of a sorted level walks the entries of its files
  // one file after another.
  lemma LevelIsTwoLevel(files: Level, blocks: map<Bytes, seq<Entry>>)
    requires FilesOk(files) && Disjoint(files) && Opens(files, blocks)
    ensures TwoLevels.WellIndexed(LevelIndex(files), blocks)
    ensures TwoLevels.Flat(LevelIndex(files), blocks, |files|) == Contents(files)
    ensures Sorted(Contents(files))
  {
    hide FilesOk, Disjoint, Opens, TwoLevels.WellIndexed, TwoLevels.BlockOf, TwoLevels.Flat, Contents;
    LevelIsIndexed(files, blocks);
    FlatIsContents(files, blocks, |files|);
    assert files[..|files|] == files;
    TwoLevels.FlatSorted(LevelIndex(files), blocks, |files|);
  }

  // ----- the children of the merging iterator -----

  function Tables(files: Level): (r: seq<seq<Entry>>)
    ensures |r| == |files| && forall i :: 0 <= i < |files| ==> r[i] == files[i].entries
  {
    seq(|files|, i requires 0 <= i < |files| => files[i].entries)
  }

  // One run for every level from l on that has files.
  ghost function Runs(v: Version, l: nat): seq<seq<Entry>>
    requires l <= |v|
    decreases |v| - l
  {
    if l == |v| then [] else (if v[l] == [] then [] else [Contents(v[l])]) + Runs(v, l + 1)
  }

  // NewInternalIterator and AddIterators.
  ghost function Children(mem: seq<Entry>, imm: Option<seq<Entry>>, v: Version): seq<seq<Entry>>
    requires |v| == NUM_LEVELS
  {
    [mem] + ((if imm.Some? then [imm.value] else []) + (Tables(v[0]) + Runs(v, 1)))
  }

  ghost function AllOf(parts: seq<seq<Entry>>): set<Entry> {
    set i, e | 0 <= i < |parts| && e in parts[i] :: e
  }

  lemma AllOfJoin(a: seq<seq<Entry>>, b: seq<seq<Entry>>)
    ensures AllOf(a + b) == AllOf(a) + AllOf(b)
  {
    forall e ensures e in AllOf(a + b) <==> e in AllOf(a) + AllOf(b) {
      if e in AllOf(a) {
        var i :| 0 <= i < |a| && e in a[i];
        assert (a + b)[i] == a[i];
      }
      if e in AllOf(b) {
        var i :| 0 <= i < |b| && e in b[i];
        assert (a + b)[|a| + i] == b[i];
      }
    }
  }

  lemma AllOfOne(es: seq<Entry>)
    ensures AllOf([es]) == ToSet(es) && (Sorted(es) ==> Mergeable([es]))
  {
    assert [es][0] == es;
  }

  lemma NoneOf()
    ensures AllOf([]) == {} && Mergeable([])
  {
  }

  // No user key with the same sequence number on both sides.
  ghost predicate Split(a: set<Entry>, b: set<Entry>) {
    forall x, y :: x in a && y in b && x.key.user == y.key.user ==> x.key.sn != y.key.sn
  }

  lemma MergeableJoin(a: seq<seq<Entry>>, b: seq<seq<Entry>>)
    requires Mergeable(a) && Mergeable(b) && Split(AllOf(a), AllOf(b))
    ensures Mergeable(a + b)
  {
    var all := a + b;
    forall i, j | 0 <= i < j < |all| ensures Apart(all[i], all[j]) {
      if i < |a| <= j {
        assert all[i] == a[i] && all[j] == b[j - |a|];
        forall x: Entry, y: Entry | x in all[i] && y in all[j] ensures KeysDiffer(x.key, y.key) {
          assert x in AllOf(a) && y in AllOf(b);
        }
      } else if j < |a| {
        assert all[i] == a[i] && all[j] == a[j];
      } else {
        assert all[i] == b[i - |a|] && all[j] == b[j - |a|];
      }
    }
  }

  lemma NewerSplits(a: set<Entry>, b: set<Entry>)
    requires NewerThan(a, b)
    ensures Split(a, b)
  {
  }

  // ----- level 0 -----

  lemma TablesMerge(files: Level)
    requires FilesOk(files) && RecencyByNumber(files) && SortedFiles(files)
    ensures Mergeable(Tables(files)) && AllOf(Tables(files)) == LevelEntries(files)
  {
    forall i, j | 0 <= i < j < |files| ensures Apart(files[i].entries, files[j].entries) {
      assert BySmallest(files[i], files[j]);
      TwoTables(files, files[i], files[j]);
    }
  }

  lemma TwoTables(files: Level, f: File, g: File)
    requires RecencyByNumber(files) && f in files && g in files && f != g
    ensures Apart(f.entries, g.entries)
  {
    assert f.number != g.number;
    forall x, y | x in f.entries && y in g.entries ensures KeysDiffer(x.key, y.key) {
      assert x in ToSet(f.entries) && y in ToSet(g.entries);
    }
  }

  // ----- the other levels -----

  ghost function FromLevel(v: Version, l: nat): set<Entry> {
    set m, e | l <= m < |v| && e in LevelEntries(v[m]) :: e
  }

  lemma FromNext(v: Version, l: nat)
    requires l < |v|
    ensures FromLevel(v, l) == LevelEntries(v[l]) + FromLevel(v, l + 1)
  {
    hide LevelEntries;
  }

  lemma DeeperIsSplit(v: Version, l: nat)
    requires LevelsOrdered(v) && l < |v|
    ensures Split(LevelEntries(v[l]), FromLevel(v, l + 1))
  {
    hide LevelEntries;
    forall x, y | x in LevelEntries(v[l]) && y in FromLevel(v, l + 1) && x.key.user == y.key.user
      ensures x.key.sn != y.key.sn
    {
      var m :| l + 1 <= m < |v| && y in LevelEntries(v[m]);
      assert NewerThan(LevelEntries(v[l]), LevelEntries(v[m]));
    }
  }

  lemma OneRun(files: Level)
    requires FilesOk(files) && Disjoint(files)
    ensures Mergeable([Contents(files)]) && AllOf([Contents(files)]) == LevelEntries(files)
  {
    hide Sorted, Contents, LevelEntries, FilesOk, Disjoint;
    ContentsInOrder(files);
    ContentsEntries(files);
    AllOfOne(Contents(files));
  }

  lemma {:induction false} ContentsInOrder(files: Level)
    requires FilesOk(files) && Disjoint(files)
    ensures Sorted(Contents(files))
    ensures forall e :: e in Contents(files) ==> files != [] && !Less(files[|files| - 1].largest, e.key)
    decreases |files|
  {
    if files != [] {
      var front, last := files[..|files| - 1], files[|files| - 1];
      assert FileOk(last) && (front != [] ==> Less(front[|front| - 1].largest, last.smallest));
      ContentsInOrder(front);
      FileEnds(last);
      hide FilesOk, Disjoint, FileOk, Sorted, Contents;
      assert FileOk(last);
      ContentsOf(files);
      forall x, e | x in Contents(front) && e in last.entries ensures Less(x.key, e.key) {
        FileSpan(last, e);
      }
      forall e | e in Contents(files) ensures !Less(last.largest, e.key) {
        if e in last.entries {
          FileSpan(last, e);
        }
      }
      SortedIs(last);
      InOrder(Contents(front), last.entries);
    }
  }

  lemma ContentsOf(files: Level)
    requires files != []
    ensures Contents(files) == Contents(files[..|files| - 1]) + files[|files| - 1].entries
  {
  }

  lemma SortedIs(f: File)
    requires FileOk(f)
    ensures Sorted(f.entries)
  {
  }

  lemma InOrder(a: seq<Entry>, b: seq<Entry>)
    requires Sorted(a) && Sorted(b) && forall x, y :: x in a && y in b ==> Less(x.key, y.key)
    ensures Sorted(a + b)
  {
    hide Less;
    var all := a + b;
    forall i, j | 0 <= i < j < |all| ensures Less(all[i].key, all[j].key) {
      if i < |a| <= j {
        assert all[i] in a && all[j] in b;
      }
    }
  }

  lemma {:induction false} RunsMerge(v: Version, l: nat)
    requires 1 <= l <= |v| && LevelsOrdered(v)
    requires forall m :: 1 <= m < |v| ==> FilesOk(v[m]) && Disjoint(v[m])
    ensures Mergeable(Runs(v, l)) && AllOf(Runs(v, l)) == FromLevel(v, l)
    decreases |v| - l
  {
    hide FilesOk, Disjoint, LevelsOrdered, Mergeable, AllOf, LevelEntries, Contents, Split, FromLevel;
    if l == |v| {
      NoneOf();
      NothingDeeper(v, l);
    } else {
      RunsMerge(v, l + 1);
      FromNext(v, l);
      if v[l] == [] {
        NoEntries();
        assert [] + Runs(v, l + 1) == Runs(v, l + 1);
        assert {} + FromLevel(v, l + 1) == FromLevel(v, l + 1);
      } else {
        OneRun(v[l]);
        DeeperIsSplit(v, l);
        AllOfJoin([Contents(v[l])], Runs(v, l + 1));
        MergeableJoin([Contents(v[l])], Runs(v, l + 1));
      }
    }
  }

  lemma NothingDeeper(v: Version, l: nat)
    requires l >= |v|
    ensures FromLevel(v, l) == {}
  {
  }

  lemma NoEntries()
    ensures LevelEntries([]) == {}
  {
  }

  // ----- all of them -----

  lemma VersionMerges(v: Version, nextFileNumber: nat)
    requires VersionOk(v) && Catalog.Catalogued(v, nextFileNumber)
    ensures Mergeable(Tables(v[0]) + Runs(v, 1)) && AllOf(Tables(v[0]) + Runs(v, 1)) == VersionEntries(v)
  {
    hide *;
    LevelFacts(v, nextFileNumber);
    TablesMerge(v[0]);
    RunsMerge(v, 1);
    DeeperIsSplit(v, 0);
    AllOfJoin(Tables(v[0]), Runs(v, 1));
    MergeableJoin(Tables(v[0]), Runs(v, 1));
    FromNext(v, 0);
    FromTheTop(v);
  }

  lemma LevelFacts(v: Version, nextFileNumber: nat)
    requires VersionOk(v) && Catalog.Catalogued(v, nextFileNumber)
    ensures 1 < |v| == NUM_LEVELS && LevelsOrdered(v)
    ensures FilesOk(v[0]) && RecencyByNumber(v[0]) && SortedFiles(v[0])
    ensures forall m :: 1 <= m < |v| ==> FilesOk(v[m]) && Disjoint(v[m])
  {
    hide FilesOk, Disjoint, LevelsOrdered, RecencyByNumber, SortedFiles, VersionEntries, Distinct;
  }

  lemma FromTheTop(v: Version)
    ensures FromLevel(v, 0) == VersionEntries(v)
  {
    hide LevelEntries;
  }

  // The children merge into one sorted run of exactly the stored entries.
  lemma ChildrenMerge(mem: seq<Entry>, imm: Option<seq<Entry>>, v: Version, nextFileNumber: nat)
    requires VersionOk(v) && Catalog.Catalogued(v, nextFileNumber) && Sorted(mem) && (imm.Some? ==> Sorted(imm.value))
    requires var old_ := if imm.Some? then ToSet(imm.value) else {};
      NewerThan(ToSet(mem), old_ + VersionEntries(v)) && NewerThan(old_, VersionEntries(v))
    ensures |v| == NUM_LEVELS && Mergeable(Children(mem, imm, v))
    ensures ToSet(Merged(Children(mem, imm, v))) ==
      ToSet(mem) + ((if imm.Some? then ToSet(imm.value) else {}) + VersionEntries(v))
  {
    VersionMerges(v, nextFileNumber);
    assert |v| == NUM_LEVELS;
    hide VersionOk, Catalog.Catalogued, Sorted, Mergeable, AllOf, NewerThan, Split, VersionEntries, Runs, Tables,
      Merged;
    var tree := Tables(v[0]) + Runs(v, 1);
    var older := (if imm.Some? then [imm.value] else []) + tree;
    if imm.Some? {
      AllOfOne(imm.value);
      NewerSplits(ToSet(imm.value), VersionEntries(v));
      AllOfJoin([imm.value], tree);
      MergeableJoin([imm.value], tree);
    } else {
      assert older == tree && {} + VersionEntries(v) == VersionEntries(v);
    }
    AllOfOne(mem);
    NewerSplits(ToSet(mem), AllOf(older));
    AllOfJoin([mem], older);
    MergeableJoin([mem], older);
    MergedIsAll(Children(mem, imm, v));
  }

  lemma MergedIsAll(parts: seq<seq<Entry>>)
    ensures ToSet(Merged(parts)) == AllOf(parts)
  {
    MergedHas(parts);
    hide Merged;
    forall e ensures e in ToSet(Merged(parts)) <==> e in AllOf(parts) {
      assert e in Merged(parts) <==> InSome(parts, e);
    }
  }

  // What DBIter shows at a live snapshot: a position for every user key that the
  // history of writes has a value for there, with that value, in order. Only
  // spoiled reads may differ.
  lemma ScanShowsReads(db: Store.DB, s: Sequence, u: UserKey)
    requires db.Valid() && db.Live(s) && (u, s) !in db.spoiled
    ensures |db.current| == NUM_LEVELS
    ensures var es := Merged(Children(db.mem, db.imm, db.current));
      && Sorted(es) && ToSet(es) == db.Stored()
      && (Read(db.history, u, s).Some? <==>
            exists i :: 0 <= i < |es| && es[i].key.user == u && DBIters.Yields(es, s, i))
      && (forall i :: 0 <= i < |es| && es[i].key.user == u && DBIters.Yields(es, s, i) ==>
            Read(db.history, u, s) == Some(es[i].value))
      && forall i, j :: 0 <= i < j < |es| && DBIters.Yields(es, s, i) && DBIters.Yields(es, s, j) ==>
           es[i].key.user < es[j].key.user
  {
    hide VersionOk, Catalog.Catalogued, Sorted, Distinct, NewerThan, VersionEntries, Merged, Children, DBIters.Yields,
      Read, Mergeable;
    ChildrenMerge(db.mem, db.imm, db.current, db.nextFileNumber);
    var es := Merged(Children(db.mem, db.imm, db.current));
    MergedSorted(Children(db.mem, db.imm, db.current));
    Store.VersionDistinct(db.current);
    Store.LayerDecides(db.Imm(), VersionEntries(db.current), u, s);
    Store.LayerDecides(ToSet(db.mem), db.Imm() + VersionEntries(db.current), u, s);
    assert Read(db.Stored(), u, s) == Read(db.history, u, s);
    DBIters.YieldsAreReads(es, s, u);
  }

  // ----- the iterator a client gets -----

  // One new iterator for each of the first runs.
  ghost predicate Opened(list: seq<EntryIterator>, runs: seq<seq<Entry>>)
    reads list
  {
    && |list| <= |runs|
    && (forall i :: 0 <= i < |list| ==> list[i].Ok() && list[i].entries == runs[i])
    && forall i, j :: 0 <= i < j < |list| ==> list[i] != list[j]
  }

  method AddIterator(list: seq<EntryIterator>, run: seq<Entry>, ghost runs: seq<seq<Entry>>)
    returns (r: seq<EntryIterator>)
    requires Opened(list, runs) && |list| < |runs| && runs[|list|] == run && Mergeable(runs)
    ensures Opened(r, runs) && |r| == |list| + 1 && list <= r && fresh(r[|list|])
  {
    hide Apart, Sorted;
    assert Sorted(runs[|list|]);
    var it := new EntryIterator(run);
    r := list + [it];
    assert forall i :: 0 <= i < |list| ==> r[i] == list[i] && list[i] != it;
  }

  // Version::AddIterators: the tables of level 0 and one run for every other level
  // that has files.
  method AddIterators(list: seq<EntryIterator>, v: Version, ghost runs: seq<seq<Entry>>)
    returns (r: seq<EntryIterator>)
    requires v != [] && Opened(list, runs) && Mergeable(runs) && runs[|list|..] == Tables(v[0]) + Runs(v, 1)
    ensures Opened(r, runs) && |r| == |runs| && list <= r && forall k :: |list| <= k < |r| ==> fresh(r[k])
  {
    hide Mergeable, Runs, Opened, Tables;
    OpenedFits(list, runs);
    ghost var base := |list|;
    r := list;
    for i := 0 to |v[0]|
      invariant Opened(r, runs) && |r| == base + i && list <= r && forall k :: base <= k < |r| ==> fresh(r[k])
    {
      assert runs[base + i] == (Tables(v[0]) + Runs(v, 1))[i];
      r := AddIterator(r, v[0][i].entries, runs);
    }
    assert runs[|r|..] == Runs(v, 1);
    for l := 1 to |v|
      invariant Opened(r, runs) && list <= r && forall k :: base <= k < |r| ==> fresh(r[k])
      invariant |r| <= |runs| && runs[|r|..] == Runs(v, l)
    {
      RunsStep(v, l);
      if v[l] != [] {
        assert runs[|r|] == Runs(v, l)[0] && runs[|r| + 1..] == Runs(v, l)[1..];
        r := AddIterator(r, Contents(v[l]), runs);
      }
    }
    RunsStep(v, |v|);
  }

  // An iterator over everything that is stored: the memtables and the current
  // version.
  method NewInternalIterator(mem: seq<Entry>, imm: Option<seq<Entry>>, v: Version) returns (m: MergingIterator)
    requires |v| == NUM_LEVELS && Mergeable(Children(mem, imm, v))
    ensures fresh(m) && fresh(m.children) && m.Ok() && m.merged == Merged(Children(mem, imm, v))
  {
    hide Mergeable, Merged, Runs, Children, Opened;
    ghost var runs := Children(mem, imm, v);
    ChildrenAt(mem, imm, v);
    NoneOpened(runs);
    var list := AddIterator([], mem, runs);
    if imm.Some? {
      list := AddIterator(list, imm.value, runs);
    }
    list := AddIterators(list, v, runs);
    AllOpened(list, runs);
    m := new MergingIterator(list);
  }

  lemma OpenedFits(list: seq<EntryIterator>, runs: seq<seq<Entry>>)
    requires Opened(list, runs)
    ensures |list| <= |runs|
  {
  }

  lemma ChildrenAt(mem: seq<Entry>, imm: Option<seq<Entry>>, v: Version)
    requires |v| == NUM_LEVELS
    ensures var runs, base := Children(mem, imm, v), if imm.Some? then 2 else 1;
      && |runs| >= base && runs[0] == mem && (imm.Some? ==> runs[1] == imm.value)
      && runs[base..] == Tables(v[0]) + Runs(v, 1)
  {
    hide Runs, Tables;
  }

  lemma NoneOpened(runs: seq<seq<Entry>>)
    ensures Opened([], runs)
  {
  }

  lemma AllOpened(list: seq<EntryIterator>, runs: seq<seq<Entry>>)
    requires Opened(list, runs) && |list| == |runs| && Mergeable(runs)
    ensures AreParts(list, runs)
    ensures forall i :: 0 <= i < |list| ==> list[i].Ok()
    ensures forall i, j :: 0 <= i < j < |list| ==> list[i] != list[j] && Apart(list[i].entries, list[j].entries)
  {
    hide Apart, Sorted;
  }

  lemma RunsStep(v: Version, l: nat)
    requires l <= |v|
    ensures Runs(v, l) ==
      if l == |v| then [] else (if v[l] == [] then [] else [Contents(v[l])]) + Runs(v, l + 1)
  {
  }

  // DBImpl::NewIterator: the iterator of a client that reads at a snapshot.
  method NewIterator(db: Store.DB, s: Sequence) returns (it: DBIters.DBIter)
    requires db.Valid()
    ensures |db.current| == NUM_LEVELS && fresh(it) && fresh(it.iter) && fresh(it.iter.children)
    ensures it.Ok() && !it.valid && it.sequence == s && it.iter.merged == Merged(Children(db.mem, db.imm, db.current))
  {
    RunIsSorted(db);
    hide VersionOk, Catalog.Catalogued, Sorted, Distinct, NewerThan, VersionEntries, Merged, Children, Read, Mergeable;
    var m := NewInternalIterator(db.mem, db.imm, db.current);
    it := new DBIters.DBIter(m, s);
  }

  // The pairs shown are those of the first entries to yield, in order: of all
  // before position n.
  ghost predicate Shown(es: seq<Entry>, s: nat, n: nat, pairs: seq<(UserKey, Bytes)>, places: seq<nat>) {
    && |places| == |pairs| && n <= |es|
    && (forall k :: 0 <= k < |places| ==>
          places[k] < n && DBIters.Yields(es, s, places[k]) &&
          pairs[k] == (es[places[k]].key.user, es[places[k]].value))
    && (forall k, l :: 0 <= k < l < |places| ==> places[k] < places[l])
    && forall j :: 0 <= j < n && DBIters.Yields(es, s, j) ==> j in places
  }

  lemma ShowsOneMore(es: seq<Entry>, s: nat, n: nat, next: nat, pairs: seq<(UserKey, Bytes)>, places: seq<nat>)
    requires Shown(es, s, n, pairs, places) && n < |es| && DBIters.Yields(es, s, n)
    requires DBIters.IsNextYield(es, s, n + 1, next)
    ensures Shown(es, s, next, pairs + [(es[n].key.user, es[n].value)], places + [n])
  {
    hide DBIters.Yields;
    var all := places + [n];
    forall j | 0 <= j < next && DBIters.Yields(es, s, j) ensures j in all {
      if j < n {
        assert j in places;
      } else {
        assert j == n && all[|places|] == n;
      }
    }
  }

  // A client's loop over the whole database.
  method Scan(it: DBIters.DBIter) returns (pairs: seq<(UserKey, Bytes)>, ghost places: seq<nat>)
    requires it.Ok()
    modifies it, it.iter, it.iter.children
    ensures Shown(it.iter.merged, it.sequence, |it.iter.merged|, pairs, places)
  {
    hide DBIters.Yields, MergingIterator.Placed, DBIters.JustBefore, Sorted;
    it.SeekToFirst();
    pairs, places := [], [];
    ShowsNone(it.iter.merged, it.sequence, it.at);
    while it.valid
      invariant it.Ok() && Shown(it.iter.merged, it.sequence, it.at, pairs, places)
      decreases |it.iter.merged| - it.at
    {
      ghost var n := it.at;
      pairs, places := pairs + [(it.Key(), it.Value())], places + [n];
      it.Next();
      ShowsOneMore(it.iter.merged, it.sequence, n, it.at, pairs[..|places| - 1], places[..|places| - 1]);
    }
  }

  lemma ShowsNone(es: seq<Entry>, s: nat, n: nat)
    requires DBIters.IsNextYield(es, s, 0, n)
    ensures Shown(es, s, n, [], [])
  {
    hide DBIters.Yields;
  }

  // From NewIterator at a live snapshot to the end of the loop: the client sees
  // every user key that the history of writes has a value for at the snapshot,
  // once and in order, with that value. Only spoiled reads may differ.
  method ScanAt(db: Store.DB, s: Sequence) returns (pairs: seq<(UserKey, Bytes)>)
    requires db.Valid() && db.Live(s)
    ensures forall i, j :: 0 <= i < j < |pairs| ==> pairs[i].0 < pairs[j].0
    ensures forall u: UserKey, x: Bytes :: (u, s) !in db.spoiled ==>
      ((u, x) in pairs <==> Read(db.history, u, s) == Some(x))
  {
    var it := NewIterator(db, s);
    ghost var places: seq<nat>;
    pairs, places := Scan(it);
    ShownAreReads(db, s, pairs, places);
  }

  lemma ShownAreReads(db: Store.DB, s: Sequence, pairs: seq<(UserKey, Bytes)>, places: seq<nat>)
    requires db.Valid() && db.Live(s) && |db.current| == NUM_LEVELS
    requires var es := Merged(Children(db.mem, db.imm, db.current)); Shown(es, s, |es|, pairs, places)
    ensures forall i, j :: 0 <= i < j < |pairs| ==> pairs[i].0 < pairs[j].0
    ensures forall u: UserKey, x: Bytes :: (u, s) !in db.spoiled ==>
      ((u, x) in pairs <==> Read(db.history, u, s) == Some(x))
  {
    hide *;
    var es := Merged(Children(db.mem, db.imm, db.current));
    RunIsSorted(db);
    ShownInOrder(es, s, pairs, places);
    forall u: UserKey, x: Bytes | (u, s) !in db.spoiled
      ensures (u, x) in pairs <==> Read(db.history, u, s) == Some(x)
    {
      ScanShowsReads(db, s, u);
      ShownAre(es, s, pairs, places, u, x, Read(db.history, u, s));
    }
  }

  lemma RunIsSorted(db: Store.DB)
    requires db.Valid()
    ensures |db.current| == NUM_LEVELS && Mergeable(Children(db.mem, db.imm, db.current))
    ensures Sorted(Merged(Children(db.mem, db.imm, db.current)))
  {
    hide VersionOk, Catalog.Catalogued, Sorted, Distinct, NewerThan, VersionEntries, Merged, Children, Read, Mergeable;
    ChildrenMerge(db.mem, db.imm, db.current, db.nextFileNumber);
    MergedSorted(Children(db.mem, db.imm, db.current));
  }

  lemma ShownInOrder(es: seq<Entry>, s: nat, pairs: seq<(UserKey, Bytes)>, places: seq<nat>)
    requires Sorted(es) && Shown(es, s, |es|, pairs, places)
    ensures forall i, j :: 0 <= i < j < |pairs| ==> pairs[i].0 < pairs[j].0
  {
    forall i, j | 0 <= i < j < |pairs| ensures pairs[i].0 < pairs[j].0 {
      assert Less(es[places[i]].key, es[places[j]].key);
      assert DBIters.Yields(es, s, places[i]) && DBIters.Yields(es, s, places[j]);
    }
  }

  // What is shown for a user key is what a reader gets for it.
  lemma ShownAre(es: seq<Entry>, s: nat, pairs: seq<(UserKey, Bytes)>, places: seq<nat>, u: UserKey, x: Bytes,
      read: Option<Bytes>)
    requires Shown(es, s, |es|, pairs, places)
    requires read.Some? <==> exists i :: 0 <= i < |es| && es[i].key.user == u && DBIters.Yields(es, s, i)
    requires forall i :: 0 <= i < |es| && es[i].key.user == u && DBIters.Yields(es, s, i) ==> read == Some(es[i].value)
    ensures (u, x) in pairs <==> read == Some(x)
  {
    hide DBIters.Yields;
    if (u, x) in pairs {
      var k :| 0 <= k < |pairs| && pairs[k] == (u, x);
      assert DBIters.Yields(es, s, places[k]);
    }
    if read == Some(x) {
      var i :| 0 <= i < |es| && es[i].key.user == u && DBIters.Yields(es, s, i);
      var k :| 0 <= k < |places| && places[k] == i;
      assert pairs[k] == (u, x);
    }
  }
}
