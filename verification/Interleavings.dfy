// Memtable flushes that come in the middle of a compaction (db/db_impl.cc,
// DoCompactionWork, CompactMemTable and InstallCompactionResults). The inputs
// were picked from one version and the outputs are installed over another.
module Interleavings {
  import opened Keys
  import opened Versions
  import opened Inputs
  import opened Picking
  import opened Builders
  import opened Compactions
  import opened Preservation
  import opened LevelInvariant
  import Store

  // A flush to the level that PickLevelForMemTableOutput allows.
  ghost predicate Flushed(before: Version, level: nat, table: File, after: Version) {
    && FlushOk(Flush(before, level, table, after))
    && (level == 0 || forall l :: 0 <= l <= level ==> NoneMeets(before[l], table.smallest.user, table.largest.user))
  }

  // `current` is `before` after flushing these tables, each to its level.
  ghost predicate Flushes(before: Version, tables: seq<(nat, File)>, current: Version)
    decreases |tables|
  {
    if tables == [] then current == before
    else
      var last := tables[|tables| - 1];
      exists v :: Flushes(before, tables[..|tables| - 1], v) && Flushed(v, last.0, last.1, current)
  }

  // What a compaction settles when it starts; `input` is what the merging
  // iterator over the inputs yields.
  datatype Pick = Pick(before: Version, level: nat, in0: Level, in1: Level, lo: UserKey, hi: UserKey,
                       input: seq<Entry>, smallestSnapshot: nat)

  // A compaction whose outputs replace its inputs in a later version.
  datatype Late = Late(pick: Pick, outputs: Level, flushed: seq<(nat, File)>, current: Version, after: Version)

  ghost predicate AllInOrder(v: Version) {
    |v| == NUM_LEVELS && forall l :: 0 <= l < NUM_LEVELS ==> SortedFiles(v[l])
  }

  ghost predicate PickOk(p: Pick) {
    && VersionOk(p.before) && AllInOrder(p.before)
    && Picked(p.before, p.level, p.in0, p.in1, p.lo, p.hi)
    && Sorted(p.input) && ToSet(p.input) == LevelEntries(p.in0) + LevelEntries(p.in1)
  }

  // The outputs of the finished compaction loop.
  ghost predicate Outputs(p: Pick, outputs: Level) {
    FilesOk(outputs) && Contents(outputs) == Kept(p.before, p.level, p.input, |p.input|, p.smallestSnapshot)
  }

  ghost predicate LateOk(c: Late) {
    && PickOk(c.pick) && Outputs(c.pick, c.outputs)
    && Flushes(c.pick.before, c.flushed, c.current)
    && Replaced(c.current, c.pick.level, c.pick.in0, c.pick.in1, c.outputs, c.after)
    && AllInOrder(c.after)
  }

  // The tables flushed to the output level are clear of the outputs.
  ghost predicate Clear(c: Late) {
    forall i :: 0 <= i < |c.flushed| && c.flushed[i].0 == c.pick.level + 1 ==>
      NoneMeets(c.outputs, c.flushed[i].1.smallest.user, c.flushed[i].1.largest.user)
  }

  // ----- what flushes do -----

  ghost function TableEntries(tables: seq<(nat, File)>): set<Entry> {
    set i, x | 0 <= i < |tables| && x in tables[i].1.entries :: x
  }

  lemma LastFlush(before: Version, tables: seq<(nat, File)>, current: Version) returns (v: Version)
    requires Flushes(before, tables, current) && tables != []
    ensures Flushes(before, tables[..|tables| - 1], v)
    ensures Flushed(v, tables[|tables| - 1].0, tables[|tables| - 1].1, current)
    ensures tables == tables[..|tables| - 1] + [tables[|tables| - 1]]
  {
    hide Flushed;
    var last := tables[|tables| - 1];
    v :| Flushes(before, tables[..|tables| - 1], v) && Flushed(v, last.0, last.1, current);
  }

  lemma EntriesGrow(tables: seq<(nat, File)>, level: nat, table: File)
    ensures TableEntries(tables + [(level, table)]) == TableEntries(tables) + ToSet(table.entries)
  {
    var all := tables + [(level, table)];
    forall x ensures x in TableEntries(all) <==> x in TableEntries(tables) + ToSet(table.entries) {
      if x in TableEntries(tables) {
        var i :| 0 <= i < |tables| && x in tables[i].1.entries;
        assert all[i] == tables[i];
      }
      if x in table.entries {
        assert all[|tables|].1 == table;
      }
    }
  }

  lemma FlushedFacts(v: Version, level: nat, table: File, w: Version)
    requires Flushed(v, level, table, w)
    ensures VersionOk(v) && VersionOk(w) && AllInOrder(w) && |w| == NUM_LEVELS && level < NUM_LEVELS && FileOk(table)
    ensures VersionEntries(w) == VersionEntries(v) + ToSet(table.entries)
    ensures NewerThan(ToSet(table.entries), VersionEntries(v)) && Distinct(ToSet(table.entries))
    ensures forall l, f :: 0 <= l < NUM_LEVELS ==> (f in w[l] <==> f in v[l] || (l == level && f == table))
    ensures forall f :: f in v[0] ==> f.number < table.number
  {
    FlushKeepsInvariant(Flush(v, level, table, w));
  }

  // The tables were added to their levels and nothing else changed.
  ghost predicate Adds(before: Version, tables: seq<(nat, File)>, current: Version) {
    && |before| == |current| == NUM_LEVELS
    && (forall l, f :: 0 <= l < NUM_LEVELS ==> (f in current[l] <==> f in before[l] || (l, f) in tables))
    && forall i :: 0 <= i < |tables| ==> tables[i].0 < NUM_LEVELS && FileOk(tables[i].1)
  }

  lemma AddsOne(before: Version, front: seq<(nat, File)>, v: Version, last: (nat, File), current: Version)
    requires Adds(before, front, v) && |current| == NUM_LEVELS && last.0 < NUM_LEVELS && FileOk(last.1)
    requires forall l, f :: 0 <= l < NUM_LEVELS ==> (f in current[l] <==> f in v[l] || (l == last.0 && f == last.1))
    ensures Adds(before, front + [last], current)
  {
    forall l, f | 0 <= l < NUM_LEVELS ensures f in current[l] <==> f in before[l] || (l, f) in front + [last] {
      assert (l, f) in front + [last] <==> (l, f) in front || (l, f) == last;
    }
  }

  // Flushes keep the level invariant, and add the tables and nothing else.
  lemma {:induction false} FlushesKeep(before: Version, tables: seq<(nat, File)>, current: Version)
    requires VersionOk(before) && AllInOrder(before) && Flushes(before, tables, current)
    ensures VersionOk(current) && AllInOrder(current) && Adds(before, tables, current)
    ensures VersionEntries(current) == VersionEntries(before) + TableEntries(tables)
    ensures NewerThan(TableEntries(tables), VersionEntries(before)) && Distinct(TableEntries(tables))
    decreases |tables|
  {
    hide VersionOk, VersionEntries, Flushed, FileOk, SortedFiles, NewerThan, Distinct;
    if tables == [] {
      NoTables(tables);
    } else {
      var front, last := tables[..|tables| - 1], tables[|tables| - 1];
      var v := LastFlush(before, tables, current);
      hide Flushes, AllInOrder, Adds, TableEntries;
      FlushedFacts(v, last.0, last.1, current);
      FlushesKeep(before, front, v);
      AddsOne(before, front, v, last, current);
      EntriesGrow(front, last.0, last.1);
      EntriesOfFlushes(VersionEntries(before), TableEntries(front), ToSet(last.1.entries));
    }
  }

  lemma NoTables(tables: seq<(nat, File)>)
    requires tables == []
    ensures TableEntries(tables) == {} && Distinct(TableEntries(tables))
    ensures forall s :: NewerThan(TableEntries(tables), s)
  {
  }

  lemma EntriesOfFlushes(old_: set<Entry>, front: set<Entry>, last: set<Entry>)
    requires NewerThan(front, old_) && NewerThan(last, old_ + front) && Distinct(front) && Distinct(last)
    ensures old_ + front + last == old_ + (front + last)
    ensures NewerThan(front + last, old_) && Distinct(front + last)
  {
  }

  lemma ClearOfFewer(before: Version, tables: seq<(nat, File)>, v: Version, l: nat, lo: UserKey, hi: UserKey)
    requires Adds(before, tables, v) && l < NUM_LEVELS && NoneMeets(v[l], lo, hi)
    ensures NoneMeets(before[l], lo, hi)
  {
    hide Meets;
  }

  // A flushed table keeps clear of the files that were there before, at its
  // level and above.
  lemma {:induction false} FlushedClear(before: Version, tables: seq<(nat, File)>, current: Version, i: nat, l: nat)
    requires VersionOk(before) && AllInOrder(before) && Flushes(before, tables, current)
    requires i < |tables| && l <= tables[i].0 && 0 < tables[i].0 < NUM_LEVELS
    ensures NoneMeets(before[l], tables[i].1.smallest.user, tables[i].1.largest.user)
    decreases |tables|
  {
    hide VersionOk, AllInOrder, FlushOk, Adds, NoneMeets;
    var front, last := tables[..|tables| - 1], tables[|tables| - 1];
    var v := LastFlush(before, tables, current);
    hide Flushes;
    if i < |front| {
      FlushedClear(before, front, v, i, l);
    } else {
      FlushesKeep(before, front, v);
      ClearOfFewer(before, front, v, l, last.1.smallest.user, last.1.largest.user);
    }
  }

  lemma NotInTables(tables: seq<(nat, File)>, i: nat, x: Entry)
    requires i < |tables| && x !in TableEntries(tables)
    ensures x !in tables[i].1.entries
  {
  }

  // A file with an entry from before is not one of the flushed tables.
  lemma FlushedIsNew(before: Version, tables: seq<(nat, File)>, current: Version, f: File, x: Entry)
    requires VersionOk(before) && AllInOrder(before) && Flushes(before, tables, current)
    requires x in f.entries && x in VersionEntries(before)
    ensures forall i :: 0 <= i < |tables| ==> tables[i].1 != f
  {
    FlushesKeep(before, tables, current);
    hide VersionOk, VersionEntries, Flushes, AllInOrder, Adds;
    forall i | 0 <= i < |tables| ensures x !in tables[i].1.entries {
      NotInTables(tables, i, x);
    }
  }

  // ----- where the outputs come from -----

  lemma PickFacts(p: Pick)
    requires PickOk(p)
    ensures p.level + 1 < NUM_LEVELS == |p.before| && VersionOk(p.before) && AllInOrder(p.before)
    ensures forall f :: f in p.in0 ==> f in p.before[p.level]
    ensures forall f :: f in p.in1 ==> f in p.before[p.level + 1]
  {
  }

  // An output entry is an entry of an input.
  lemma OutputOf(p: Pick, outputs: Level, f: File, x: Entry) returns (g: File, l: nat)
    requires PickOk(p) && Outputs(p, outputs) && f in outputs && x in f.entries
    ensures g in (if l == p.level then p.in0 else p.in1) && x in g.entries
    ensures (l == p.level || l == p.level + 1) && l < |p.before| && g in p.before[l]
    ensures x in LevelEntries(p.before[l]) && x in VersionEntries(p.before)
  {
    PickFacts(p);
    assert x in ToSet(p.input) by {
      InLevel(outputs, f, x);
      ContentsEntries(outputs);
      KeptFacts(p.before, p.level, p.input, |p.input|, p.smallestSnapshot);
      assert x in Contents(outputs);
    }
    assert x in LevelEntries(p.in0) + LevelEntries(p.in1);
    hide PickOk, Outputs;
    l := if x in LevelEntries(p.in0) then p.level else p.level + 1;
    g := FileOf(if l == p.level then p.in0 else p.in1, x);
    InLevel(p.before[l], g, x);
    LevelMember(p.before, l, x);
  }

  lemma FirstEntry(files: Level, f: File)
    requires FilesOk(files) && f in files
    ensures FileOk(f) && f.entries != [] && f.entries[0] in f.entries
    ensures f.entries[|f.entries| - 1] in f.entries
    ensures f.smallest == f.entries[0].key && f.largest == f.entries[|f.entries| - 1].key
  {
  }

  // No flushed table is an output or a file of the version picked from.
  lemma TablesAreOthers(c: Late, l: nat, f: File)
    requires LateOk(c) && ((l < NUM_LEVELS && f in c.pick.before[l]) || f in c.outputs)
    ensures forall i :: 0 <= i < |c.flushed| ==> c.flushed[i].1 != f
  {
    LateFacts(c);
    PickFacts(c.pick);
    if f in c.outputs {
      FirstEntry(c.outputs, f);
      var g, m := OutputOf(c.pick, c.outputs, f, f.entries[0]);
    } else {
      assert FilesOk(c.pick.before[l]);
      FirstEntry(c.pick.before[l], f);
      InLevel(c.pick.before[l], f, f.entries[0]);
      LevelMember(c.pick.before, l, f.entries[0]);
    }
    FlushedIsNew(c.pick.before, c.flushed, c.current, f, f.entries[0]);
  }

  // ----- undoing the last flush -----

  function Without(files: Level, f: File): (r: Level)
    ensures forall g :: g in r <==> g in files && g != f
  {
    if files == [] then []
    else
      assert files == [files[0]] + files[1..];
      (if files[0] == f then [] else [files[0]]) + Without(files[1..], f)
  }

  lemma {:induction false} WithoutInOrder(files: Level, f: File)
    requires SortedFiles(files)
    ensures SortedFiles(Without(files, f))
  {
    if files != [] {
      WithoutInOrder(files[1..], f);
      var rest := Without(files[1..], f);
      forall i | 0 <= i < |rest| ensures BySmallest(files[0], rest[i]) {
        assert rest[i] in rest;
        var j :| 0 <= j < |files| - 1 && files[1..][j] == rest[i];
        assert files[j + 1] == rest[i];
      }
    }
  }

  ghost predicate Plus(v: Version, level: nat, table: File, w: Version) {
    && |v| == |w| == NUM_LEVELS
    && forall l, f :: 0 <= l < NUM_LEVELS ==> (f in w[l] <==> f in v[l] || (l == level && f == table))
  }

  // Replacing and flushing can change places.
  lemma ReplacedBeforeFlush(v: Version, w: Version, level: nat, in0: Level, in1: Level, outputs: Level, after: Version,
      lv: nat, table: File, after': Version)
    requires AllInOrder(v) && AllInOrder(after') && Plus(v, lv, table, w) && Plus(after', lv, table, after)
    requires lv < NUM_LEVELS
    requires Replaced(w, level, in0, in1, outputs, after)
    requires table !in v[lv] && table !in after'[lv] && table !in outputs
    ensures Replaced(v, level, in0, in1, outputs, after')
  {
    forall l | 0 <= l < NUM_LEVELS && l != level && l != level + 1 ensures after'[l] == v[l] {
      assert after[l] == w[l];
      forall f ensures f in after'[l] <==> f in v[l] {
        assert f in after[l] <==> f in after'[l] || (l == lv && f == table);
        assert f in w[l] <==> f in v[l] || (l == lv && f == table);
      }
      ListIsUnique(after'[l], v[l]);
    }
    forall f ensures f in after'[level] <==> f in v[level] && f !in in0 {
      assert f in after[level] <==> f in after'[level] || (level == lv && f == table);
    }
    forall f ensures f in after'[level + 1] <==> (f in v[level + 1] && f !in in1) || f in outputs {
      assert f in after[level + 1] <==> f in after'[level + 1] || (level + 1 == lv && f == table);
    }
  }

  lemma FlushedOnce(v: Version, level: nat, table: File, w: Version)
    requires Flushed(v, level, table, w)
    ensures level < NUM_LEVELS == |v| && table !in v[level] && Plus(v, level, table, w)
  {
    FlushedFacts(v, level, table, w);
    hide Flushed, VersionOk, AllInOrder;
    if table in v[level] {
      InLevel(v[level], table, table.entries[0]);
      LevelMember(v, level, table.entries[0]);
    }
  }

  lemma SetLevel(v: Version, level: nat, table: File) returns (w: Version)
    requires AllInOrder(v) && level < NUM_LEVELS && table in v[level]
    ensures AllInOrder(w) && Plus(w, level, table, v) && table !in w[level]
  {
    WithoutInOrder(v[level], table);
    w := v[level := Without(v[level], table)];
  }

  lemma LateFacts(c: Late)
    requires LateOk(c)
    ensures PickOk(c.pick) && Outputs(c.pick, c.outputs) && FilesOk(c.outputs)
    ensures Flushes(c.pick.before, c.flushed, c.current) && AllInOrder(c.after)
    ensures Replaced(c.current, c.pick.level, c.pick.in0, c.pick.in1, c.outputs, c.after)
    ensures VersionOk(c.pick.before) && AllInOrder(c.pick.before)
  {
  }

  lemma StaysListed(c: Late, l: nat, f: File)
    requires LateOk(c) && l < NUM_LEVELS == |c.current| && f in c.current[l] && f !in c.pick.in0 && f !in c.pick.in1
    ensures |c.after| == NUM_LEVELS && f in c.after[l]
  {
    hide PickOk, Outputs, Flushes, SortedFiles;
  }

  lemma NotAnInput(c: Late, i: nat)
    requires LateOk(c) && i < |c.flushed|
    ensures c.flushed[i].1 !in c.pick.in0 && c.flushed[i].1 !in c.pick.in1 && c.flushed[i].1 !in c.outputs
  {
    PickFacts(c.pick);
    var f := c.flushed[i].1;
    if f in c.pick.in0 || f in c.pick.in1 || f in c.outputs {
      TablesAreOthers(c, if f in c.pick.in0 then c.pick.level else c.pick.level + 1, f);
    }
  }

  function Last(c: Late): (nat, File)
    requires c.flushed != []
  {
    c.flushed[|c.flushed| - 1]
  }

  // `d` is the same compaction without the last flush.
  ghost predicate Undone(c: Late, d: Late)
    requires c.flushed != []
  {
    && LateOk(d) && d == c.(flushed := c.flushed[..|c.flushed| - 1], current := d.current, after := d.after)
    && Flushed(d.current, Last(c).0, Last(c).1, c.current) && Plus(d.after, Last(c).0, Last(c).1, c.after)
  }

  lemma Undo(c: Late) returns (d: Late)
    requires LateOk(c) && c.flushed != []
    ensures Undone(c, d)
  {
    hide *;
    var p, front, last := c.pick, c.flushed[..|c.flushed| - 1], c.flushed[|c.flushed| - 1];
    LateFacts(c);
    NotAnInput(c, |c.flushed| - 1);
    var v := LastFlush(p.before, c.flushed, c.current);
    FlushedOnce(v, last.0, last.1, c.current);
    FlushesKeep(p.before, front, v);
    PlusHas(v, last.0, last.1, c.current);
    StaysListed(c, last.0, last.1);
    var after := SetLevel(c.after, last.0, last.1);
    d := Late(p, c.outputs, front, v, after);
    ReplacedBeforeFlush(v, c.current, p.level, p.in0, p.in1, c.outputs, c.after, last.0, last.1, after);
    IsUndone(c, d);
  }

  lemma IsUndone(c: Late, d: Late)
    requires c.flushed != [] && d == Late(c.pick, c.outputs, c.flushed[..|c.flushed| - 1], d.current, d.after)
    requires PickOk(c.pick) && Outputs(c.pick, c.outputs) && Flushes(c.pick.before, d.flushed, d.current)
    requires Replaced(d.current, c.pick.level, c.pick.in0, c.pick.in1, c.outputs, d.after) && AllInOrder(d.after)
    requires var last := c.flushed[|c.flushed| - 1];
      Flushed(d.current, last.0, last.1, c.current) && Plus(d.after, last.0, last.1, c.after)
    ensures Undone(c, d)
  {
    hide PickOk, Outputs, Flushes, Replaced, AllInOrder, Flushed, Plus;
  }

  lemma PlusHas(v: Version, level: nat, table: File, w: Version)
    requires Plus(v, level, table, w) && level < NUM_LEVELS
    ensures |v| == |w| == NUM_LEVELS && table in w[level]
  {
  }

  // ----- the theorems -----

  // The reads that the compaction changes: those that see a value uncovered by a
  // dropped marker, and that no table flushed meanwhile decides.
  ghost function SpoiledBy(p: Pick, flushed: seq<(nat, File)>): iset<Point> {
    Uncovered(p.before, p.level, p.in1, p.smallestSnapshot) - Store.Decided(TableEntries(flushed))
  }

  ghost predicate ReadsKept(c: Late) {
    Store.ReadsMatch(VersionEntries(c.after), VersionEntries(c.current), c.pick.smallestSnapshot,
      SpoiledBy(c.pick, c.flushed))
  }

  // A further flush decides further reads.
  lemma LaterFlushDecides(c: Late, d: Late)
    requires LateOk(c) && c.flushed != [] && Undone(c, d)
    ensures SpoiledBy(d.pick, d.flushed) - Store.Decided(ToSet(Last(c).1.entries)) == SpoiledBy(c.pick, c.flushed)
  {
    hide *;
    LateFacts(c);
    FlushesKeep(c.pick.before, c.flushed, c.current);
    UndoneFacts(c, d);
    LateFacts(d);
    FlushesKeep(d.pick.before, d.flushed, d.current);
    FlushedFacts(d.current, Last(c).0, Last(c).1, c.current);
    AllButLast(c, d);
    EntriesGrow(d.flushed, Last(c).0, Last(c).1);
    Store.DecidedUnion(TableEntries(d.flushed), ToSet(Last(c).1.entries));
    SpoiledLess(c.pick, d.flushed, c.flushed, ToSet(Last(c).1.entries));
  }

  lemma AllButLast(c: Late, d: Late)
    requires c.flushed != [] && Undone(c, d)
    ensures c.flushed == d.flushed + [(Last(c).0, Last(c).1)]
  {
    hide LateOk, Flushed, Plus;
  }

  lemma SpoiledLess(p: Pick, front: seq<(nat, File)>, all: seq<(nat, File)>, last: set<Entry>)
    requires Store.Decided(TableEntries(all)) == Store.Decided(TableEntries(front)) + Store.Decided(last)
    ensures SpoiledBy(p, front) - Store.Decided(last) == SpoiledBy(p, all)
  {
    hide Uncovered, Store.Decided, TableEntries;
  }

  ghost function JobOf(c: Late): Job {
    Job(c.pick.before, c.pick.level, c.pick.in0, c.pick.in1, c.pick.lo, c.pick.hi, c.pick.input,
      c.pick.smallestSnapshot, c.outputs, c.after)
  }

  // Without flushes this is the compaction of one version.
  lemma NoFlushes(c: Late)
    requires LateOk(c) && c.flushed == []
    ensures JobOk(JobOf(c)) && VersionOk(c.after)
  {
    Store.OutputsFromInputs(JobOf(c));
    SwapKeepsInvariant(Swap(c.pick.before, c.pick.level, c.pick.in0, c.pick.in1, c.pick.lo, c.pick.hi, c.outputs,
      c.after));
  }

  // The new version has no other entries than the current one.
  lemma LateSubset(c: Late)
    requires LateOk(c)
    ensures VersionEntries(c.after) <= VersionEntries(c.current)
  {
    hide VersionOk, PickOk, LateOk, Outputs, Flushes, AllInOrder, Replaced, LevelEntries;
    LateFacts(c);
    PickFacts(c.pick);
    FlushesKeep(c.pick.before, c.flushed, c.current);
    AfterLevels(c);
    forall x | x in VersionEntries(c.after) ensures x in VersionEntries(c.current) {
      var l: nat :| l < |c.after| && x in LevelEntries(c.after[l]);
      var f := FileOf(c.after[l], x);
      NewFile(c, l, f);
      if f in c.current[l] {
        InLevel(c.current[l], f, x);
        LevelMember(c.current, l, x);
      } else {
        var g, m := OutputOf(c.pick, c.outputs, f, x);
      }
    }
  }

  lemma AfterLevels(c: Late)
    requires LateOk(c)
    ensures |c.after| == NUM_LEVELS == |c.current|
  {
    hide PickOk, Outputs, Flushes, SortedFiles;
  }

  // Where a file of the new version comes from.
  lemma NewFile(c: Late, l: nat, f: File)
    requires LateOk(c) && l < NUM_LEVELS && |c.after| == NUM_LEVELS == |c.current| && f in c.after[l]
    ensures f in c.current[l] || (l == c.pick.level + 1 && f in c.outputs)
  {
    hide PickOk, Outputs, Flushes, SortedFiles;
  }

  // An output shares no user key with a table flushed below the output level,
  // or to it.
  lemma OutputElsewhere(c: Late, i: nat, f: File, x: Entry, y: Entry)
    requires LateOk(c) && i < |c.flushed| && c.pick.level + 1 <= c.flushed[i].0
    requires f in c.outputs && x in f.entries && y in c.flushed[i].1.entries
    ensures x.key.user != y.key.user
  {
    LateFacts(c);
    PickFacts(c.pick);
    FlushesKeep(c.pick.before, c.flushed, c.current);
    var g, l := OutputOf(c.pick, c.outputs, f, x);
    FlushedClear(c.pick.before, c.flushed, c.current, i, l);
    assert FilesOk(c.pick.before[l]);
    hide LateOk, PickOk, VersionOk, Flushes, AllInOrder, NoneMeets;
    NoneMeetsElsewhere(c.pick.before[l], c.flushed[i].1);
    InLevel(c.pick.before[l], g, x);
  }

  lemma UndoneFacts(c: Late, d: Late)
    requires LateOk(c) && c.flushed != [] && Undone(c, d)
    ensures LateOk(d) && d.pick == c.pick && d.outputs == c.outputs && |d.flushed| < |c.flushed|
    ensures forall i :: 0 <= i < |d.flushed| ==> d.flushed[i] == c.flushed[i]
    ensures Flushed(d.current, Last(c).0, Last(c).1, c.current) && Plus(d.after, Last(c).0, Last(c).1, c.after)
    ensures |d.current| == |d.after| == NUM_LEVELS && Last(c).0 < NUM_LEVELS && AllInOrder(c.after)
  {
    hide PickOk, Outputs, Flushes, Replaced, SortedFiles, Flushed, Plus;
    FlushedPlace(d.current, Last(c).0, Last(c).1, c.current);
    PlusHas(d.after, Last(c).0, Last(c).1, c.after);
  }

  lemma StaysElsewhere(c: Late, d: Late, l: nat)
    requires LateOk(c) && c.flushed != [] && Undone(c, d) && l < Last(c).0
    requires |d.current| == |d.after| == NUM_LEVELS && Last(c).0 < NUM_LEVELS && Elsewhere(d.current[l], Last(c).1)
    ensures Elsewhere(d.after[l], Last(c).1)
  {
    hide LateOk, Undone, Flushed, Plus, SortedFiles;
    UndoneFacts(c, d);
    forall x, y | x in LevelEntries(d.after[l]) && y in Last(c).1.entries ensures x.key.user != y.key.user {
      var f := FileOf(d.after[l], x);
      NewFile(d, l, f);
      if f in d.current[l] {
        InLevel(d.current[l], f, x);
      } else {
        OutputElsewhere(c, |c.flushed| - 1, f, x, y);
      }
    }
  }

  lemma FlushedPlace(v: Version, level: nat, table: File, w: Version)
    requires Flushed(v, level, table, w)
    ensures level < NUM_LEVELS == |v| && (level > 0 ==> NoneMeets(v[level], table.smallest.user, table.largest.user))
    ensures forall l :: 0 <= l < level ==> Elsewhere(v[l], table)
  {
    LevelsOk(v);
    hide FileOk, VersionOk, NoneMeets, Elsewhere, NewerThan, Distinct;
  }

  lemma StaysClear(c: Late, d: Late)
    requires LateOk(c) && c.flushed != [] && Undone(c, d) && Clear(c)
    requires |d.current| == |d.after| == NUM_LEVELS && 0 < Last(c).0 < NUM_LEVELS
    requires NoneMeets(d.current[Last(c).0], Last(c).1.smallest.user, Last(c).1.largest.user)
    ensures NoneMeets(d.after[Last(c).0], Last(c).1.smallest.user, Last(c).1.largest.user)
  {
    hide LateOk, Meets, Undone, Flushed, Plus, SortedFiles;
    UndoneFacts(c, d);
    forall f | f in d.after[Last(c).0] ensures !Meets(f, Some(Last(c).1.smallest.user), Some(Last(c).1.largest.user)) {
      NewFile(d, Last(c).0, f);
    }
  }

  // The flush of a table seen from a version without some files.
  lemma StillNewest(c: Late, table: File)
    requires LateOk(c) && |c.after| == NUM_LEVELS == |c.current|
    requires (forall f :: f in c.current[0] ==> f.number < table.number)
    requires NewerThan(ToSet(table.entries), VersionEntries(c.current))
    ensures (forall f :: f in c.after[0] ==> f.number < table.number)
    ensures NewerThan(ToSet(table.entries), VersionEntries(c.after))
  {
    LateSubset(c);
    hide LateOk, VersionEntries;
    forall f | f in c.after[0] ensures f.number < table.number {
      NewFile(c, 0, f);
    }
  }

  lemma StillPlaced(c: Late, d: Late)
    requires LateOk(c) && c.flushed != [] && Undone(c, d) && Clear(c)
    ensures Last(c).0 < NUM_LEVELS == |d.after|
    ensures forall l :: 0 <= l < Last(c).0 ==> Elsewhere(d.after[l], Last(c).1)
    ensures Last(c).0 > 0 ==> NoneMeets(d.after[Last(c).0], Last(c).1.smallest.user, Last(c).1.largest.user)
  {
    hide LateOk, Undone, Flushed, Plus, Clear, Elsewhere, NoneMeets, AllInOrder;
    UndoneFacts(c, d);
    FlushedPlace(d.current, Last(c).0, Last(c).1, c.current);
    forall l | 0 <= l < Last(c).0 ensures Elsewhere(d.after[l], Last(c).1) {
      StaysElsewhere(c, d, l);
    }
    if Last(c).0 > 0 {
      StaysClear(c, d);
    }
  }

  // The last flush could have come after the compaction.
  lemma FlushAfter(c: Late, d: Late)
    requires LateOk(c) && c.flushed != [] && Undone(c, d) && Clear(c) && VersionOk(d.after)
    ensures VersionOk(c.after)
  {
    hide LateOk, Undone, VersionOk, Flushed, Clear, Elsewhere, NoneMeets, SortedFiles, VersionEntries, FileOk,
      Distinct, NewerThan;
    UndoneFacts(c, d);
    FlushedFacts(d.current, Last(c).0, Last(c).1, c.current);
    StillNewest(d, Last(c).1);
    StillPlaced(c, d);
    FlushKeepsInvariant(Flush(d.after, Last(c).0, Last(c).1, c.after));
  }

  lemma {:induction false} ClearIsEnough(c: Late)
    requires LateOk(c) && Clear(c)
    ensures VersionOk(c.after)
    decreases |c.flushed|
  {
    hide LateOk, VersionOk, Undone, Flushed, Plus;
    if c.flushed == [] {
      NoFlushes(c);
    } else {
      var d := Undo(c);
      UndoneFacts(c, d);
      ClearIsEnough(d);
      FlushAfter(c, d);
    }
  }

  // Meeting files without a common user key at their ends overlap.
  lemma MeetIsNotApart(o: File, table: File)
    requires Meets(o, Some(table.smallest.user), Some(table.largest.user))
    requires o.largest.user != table.smallest.user && o.smallest.user != table.largest.user
    ensures !Apart(o, table)
  {
  }

  lemma BothListed(c: Late, i: nat, o: File)
    requires LateOk(c) && i < |c.flushed| && c.flushed[i].0 == c.pick.level + 1 && o in c.outputs
    ensures c.pick.level + 1 < |c.after| == NUM_LEVELS
    ensures c.flushed[i].1 in c.after[c.pick.level + 1] && o in c.after[c.pick.level + 1] && o != c.flushed[i].1
    ensures FileOk(o) && FileOk(c.flushed[i].1)
  {
    LateFacts(c);
    PickFacts(c.pick);
    NotAnInput(c, i);
    FlushesKeep(c.pick.before, c.flushed, c.current);
    assert (c.pick.level + 1, c.flushed[i].1) in c.flushed;
    hide LateOk, PickOk, VersionOk, Flushes, AllInOrder, FileOk;
    StaysListed(c, c.pick.level + 1, c.flushed[i].1);
  }

  // A table at the output level that meets an output overlaps it there.
  lemma OverlapBreaksLevel(c: Late, i: nat, o: File)
    requires LateOk(c) && i < |c.flushed| && c.flushed[i].0 == c.pick.level + 1 && o in c.outputs
    requires Meets(o, Some(c.flushed[i].1.smallest.user), Some(c.flushed[i].1.largest.user))
    ensures !VersionOk(c.after)
  {
    hide LateOk, VersionOk;
    var table := c.flushed[i].1;
    BothListed(c, i, o);
    OutputElsewhere(c, i, o, o.entries[|o.entries| - 1], table.entries[0]);
    OutputElsewhere(c, i, o, o.entries[0], table.entries[|table.entries| - 1]);
    MeetIsNotApart(o, table);
    if VersionOk(c.after) {
      LevelsOk(c.after);
      DisjointApart(c.after[c.pick.level + 1], o, table);
    }
  }

  // Installing a compaction over later flushes keeps the level invariant exactly
  // when no table that was flushed to the output level meets an output.
  lemma InstallOverFlushes(c: Late)
    requires LateOk(c)
    ensures VersionOk(c.after) <==> Clear(c)
  {
    hide *;
    if Clear(c) {
      ClearIsEnough(c);
    } else {
      var i, o := MeetingOutput(c);
      OverlapBreaksLevel(c, i, o);
    }
  }

  lemma MeetingOutput(c: Late) returns (i: nat, o: File)
    requires !Clear(c)
    ensures i < |c.flushed| && c.flushed[i].0 == c.pick.level + 1 && o in c.outputs
    ensures Meets(o, Some(c.flushed[i].1.smallest.user), Some(c.flushed[i].1.largest.user))
  {
    hide Meets;
    i :| 0 <= i < |c.flushed| && c.flushed[i].0 == c.pick.level + 1 &&
      !NoneMeets(c.outputs, c.flushed[i].1.smallest.user, c.flushed[i].1.largest.user);
    o :| o in c.outputs && Meets(o, Some(c.flushed[i].1.smallest.user), Some(c.flushed[i].1.largest.user));
  }

  lemma PlusEntries(v: Version, level: nat, table: File, w: Version)
    requires Plus(v, level, table, w) && level < NUM_LEVELS
    ensures VersionEntries(w) == VersionEntries(v) + ToSet(table.entries)
  {
    forall x ensures x in VersionEntries(w) <==> x in VersionEntries(v) + ToSet(table.entries) {
      if x in VersionEntries(w) {
        var l :| 0 <= l < |w| && x in LevelEntries(w[l]);
        var f := FileOf(w[l], x);
        if f in v[l] {
          InLevel(v[l], f, x);
        }
      }
      if x in VersionEntries(v) {
        var l :| 0 <= l < |v| && x in LevelEntries(v[l]);
        var f := FileOf(v[l], x);
        InLevel(w[l], f, x);
      }
      if x in table.entries {
        InLevel(w[level], table, x);
      }
    }
  }

  lemma NewerLayer(t: set<Entry>, lower: set<Entry>, lower': set<Entry>, horizon: nat, spoiled: iset<Point>)
    requires Distinct(t) && Distinct(lower) && lower' <= lower && NewerThan(t, lower)
    requires Store.ReadsMatch(lower', lower, horizon, spoiled)
    ensures Store.ReadsMatch(lower' + t, lower + t, horizon, spoiled - Store.Decided(t))
  {
    DistinctSubset(lower', lower);
    assert lower' + t == t + lower' && lower + t == t + lower;
    forall u, s: nat | s >= horizon && (u, s) !in spoiled - Store.Decided(t)
      ensures Read(t + lower', u, s) == Read(t + lower, u, s)
    {
      Store.LayerDecides(t, lower, u, s);
      Store.LayerDecides(t, lower', u, s);
      assert (u, s) in Store.Decided(t) || Read(lower', u, s) == Read(lower, u, s);
    }
  }

  // The reads that the compaction keeps in the version it was picked from are
  // kept in the version it is installed over, and so are those that a table
  // flushed meanwhile decides.
  lemma {:induction false} LateReads(c: Late)
    requires LateOk(c)
    ensures ReadsKept(c)
    decreases |c.flushed|
  {
    hide *;
    if c.flushed == [] {
      NoFlushes(c);
      Store.ReadsAfter(JobOf(c));
      KeptAsJob(c);
    } else {
      var d := Undo(c);
      UndoneFacts(c, d);
      LateReads(d);
      LateSubset(d);
      FlushedFacts(d.current, Last(c).0, Last(c).1, c.current);
      VersionsDistinct(d.current);
      PlusEntries(d.after, Last(c).0, Last(c).1, c.after);
      KeptIs(d);
      KeptIs(c);
      LaterFlushDecides(c, d);
      NewerLayer(ToSet(Last(c).1.entries), VersionEntries(d.current), VersionEntries(d.after),
        c.pick.smallestSnapshot, SpoiledBy(d.pick, d.flushed));
    }
  }

  lemma VersionsDistinct(v: Version)
    requires VersionOk(v)
    ensures Distinct(VersionEntries(v))
  {
  }

  lemma KeptIs(c: Late)
    ensures ReadsKept(c) <==>
      Store.ReadsMatch(VersionEntries(c.after), VersionEntries(c.current), c.pick.smallestSnapshot,
        SpoiledBy(c.pick, c.flushed))
  {
    hide Store.ReadsMatch, VersionEntries, SpoiledBy;
  }

  lemma KeptAsJob(c: Late)
    requires LateOk(c) && c.flushed == []
    requires var j := JobOf(c);
      Store.ReadsMatch(VersionEntries(j.after), VersionEntries(j.before), j.smallestSnapshot,
        Uncovered(j.before, j.level, j.in1, j.smallestSnapshot))
    ensures ReadsKept(c)
  {
    NoTables(c.flushed);
    Store.NothingDecided();
    hide Store.ReadsMatch, VersionEntries, PickOk, Outputs, Replaced, AllInOrder, Uncovered, Store.Decided,
      TableEntries;
    assert SpoiledBy(c.pick, c.flushed) == Uncovered(c.pick.before, c.pick.level, c.pick.in1, c.pick.smallestSnapshot);
  }

  // ----- inputs without gaps -----

  lemma MeetingPoint(o: File, table: File) returns (u: UserKey)
    requires Meets(o, Some(table.smallest.user), Some(table.largest.user))
    requires o.smallest.user <= o.largest.user && table.smallest.user <= table.largest.user
    ensures o.smallest.user <= u <= o.largest.user && table.smallest.user <= u <= table.largest.user
  {
    u := if o.smallest.user < table.smallest.user then table.smallest.user else o.smallest.user;
  }

  lemma InLevels(v: Version, l: nat, f: File, x: Entry)
    requires VersionOk(v) && l < |v| && f in v[l] && x in f.entries
    ensures f.smallest.user <= x.key.user <= f.largest.user
  {
    LevelsOk(v);
    FirstEntry(v[l], f);
    EntryBounds(f, x);
  }

  // Between two user keys of inputs without gaps there is always an input.
  lemma InputAt(p: Pick, g: File, h: File, u: UserKey) returns (f: File, l: nat)
    requires PickOk(p) && Gapless(p.in0 + p.in1) && (g in p.in0 || g in p.in1) && (h in p.in0 || h in p.in1)
    requires g.smallest.user <= u <= h.largest.user
    ensures (l == p.level || l == p.level + 1) && l < |p.before| && f in p.before[l]
    ensures f.smallest.user <= u <= f.largest.user
  {
    PickFacts(p);
    hide PickOk, VersionOk, AllInOrder;
    assert Between(g, h, u);
    f :| f in p.in0 + p.in1 && Between(f, f, u);
    l := if f in p.in0 then p.level else p.level + 1;
  }

  lemma InputsCover(c: Late, o: File, u: UserKey) returns (f: File, l: nat)
    requires LateOk(c) && Gapless(c.pick.in0 + c.pick.in1) && o in c.outputs && o.smallest.user <= u <= o.largest.user
    ensures (l == c.pick.level || l == c.pick.level + 1) && l < |c.pick.before| && f in c.pick.before[l]
    ensures f.smallest.user <= u <= f.largest.user
  {
    hide *;
    LateFacts(c);
    FirstEntry(c.outputs, o);
    var first, last := o.entries[0], o.entries[|o.entries| - 1];
    var g, i := OutputOf(c.pick, c.outputs, o, first);
    var h, j := OutputOf(c.pick, c.outputs, o, last);
    InLevels(c.pick.before, i, g, first);
    InLevels(c.pick.before, j, h, last);
    f, l := InputAt(c.pick, g, h, u);
  }

  lemma NotMeeting(files: Level, f: File, table: File, u: UserKey)
    requires NoneMeets(files, table.smallest.user, table.largest.user) && f in files
    requires table.smallest.user <= u <= table.largest.user
    ensures !(f.smallest.user <= u <= f.largest.user)
  {
    assert !Meets(f, Some(table.smallest.user), Some(table.largest.user));
  }

  lemma InItsRange(f: File)
    requires FileOk(f)
    ensures f.smallest.user <= f.largest.user
  {
    EntryBounds(f, f.entries[0]);
  }

  lemma TableIsOk(c: Late, i: nat)
    requires LateOk(c) && i < |c.flushed|
    ensures FileOk(c.flushed[i].1) && c.flushed[i].0 < NUM_LEVELS
  {
    LateFacts(c);
    FlushesKeep(c.pick.before, c.flushed, c.current);
  }

  // Between inputs that leave no gap no table can be put at the output level.
  lemma GaplessIsClear(c: Late)
    requires LateOk(c) && Gapless(c.pick.in0 + c.pick.in1)
    ensures Clear(c)
  {
    hide LateOk, Gapless, Meets, FileOk, Flushes, VersionOk, AllInOrder;
    LateFacts(c);
    forall i, o | 0 <= i < |c.flushed| && c.flushed[i].0 == c.pick.level + 1 && o in c.outputs
      ensures !Meets(o, Some(c.flushed[i].1.smallest.user), Some(c.flushed[i].1.largest.user))
    {
      var table := c.flushed[i].1;
      if Meets(o, Some(table.smallest.user), Some(table.largest.user)) {
        hide *;
        TableIsOk(c, i);
        FirstEntry(c.outputs, o);
        InItsRange(o);
        InItsRange(table);
        var u := MeetingPoint(o, table);
        var f, l := InputsCover(c, o, u);
        FlushedClear(c.pick.before, c.flushed, c.current, i, l);
        NotMeeting(c.pick.before[l], f, table, u);
      }
    }
  }

  // What the store picks by itself is safe to install over any flushes.
  lemma GaplessInstalls(c: Late)
    requires LateOk(c) && Gapless(c.pick.in0 + c.pick.in1)
    ensures VersionOk(c.after) && VersionEntries(c.after) <= VersionEntries(c.current) && ReadsKept(c)
  {
    hide *;
    GaplessIsClear(c);
    InstallOverFlushes(c);
    LateSubset(c);
    LateReads(c);
  }
}
