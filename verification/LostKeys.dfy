// A manual compaction that hides a key flushed while it ran. Its inputs leave a
// gap between them, a memtable with a key in the gap is flushed to the level
// below, and the one output table then spans the gap (db/version_set.cc,
// CompactRange; db/db_impl.cc, DoCompactionWork).
module LostKeys {
  import opened Keys
  import opened Versions
  import opened Inputs
  import opened Picking
  import opened Builders
  import opened Compactions
  import opened Preservation
  import opened LevelInvariant
  import opened Interleavings
  import R = Resurrection

  const FIRST := Entry(InternalKey(1.0, 5, Value), [1])
  const SECOND := Entry(InternalKey(3.0, 6, Value), [3])
  const MIDDLE := Entry(InternalKey(2.0, 9, Value), [2])

  const LEFT_FILE := File(5, 1, FIRST.key, FIRST.key, [FIRST])
  const RIGHT_FILE := File(6, 1, SECOND.key, SECOND.key, [SECOND])
  const TABLE := File(7, 1, MIDDLE.key, MIDDLE.key, [MIDDLE])
  const OUTPUT := File(8, 2, FIRST.key, SECOND.key, [FIRST, SECOND])

  const BEFORE: Version := [[], [LEFT_FILE, RIGHT_FILE], [], [], [], [], []]
  const CURRENT: Version := [[], [LEFT_FILE, RIGHT_FILE], [TABLE], [], [], [], []]
  const AFTER: Version := [[], [], [OUTPUT, TABLE], [], [], [], []]

  const PICK := Pick(BEFORE, 1, [LEFT_FILE, RIGHT_FILE], [], 1.0, 3.0, [FIRST, SECOND], 8)
  const INSTALL := Late(PICK, [OUTPUT], [(2, TABLE)], CURRENT, AFTER)

  lemma Tables()
    ensures FileOk(LEFT_FILE) && FileOk(RIGHT_FILE) && FileOk(TABLE) && FileOk(OUTPUT)
    ensures LevelEntries([LEFT_FILE, RIGHT_FILE]) == {FIRST, SECOND} && LevelEntries([]) == {}
    ensures LevelEntries([TABLE]) == {MIDDLE} && LevelEntries([OUTPUT, TABLE]) == {FIRST, SECOND, MIDDLE}
    ensures ToSet([FIRST, SECOND]) == {FIRST, SECOND} && ToSet([MIDDLE]) == {MIDDLE}
  {
    R.SmallSets(FIRST, SECOND);
    R.SmallSets(SECOND, FIRST);
    R.SmallSets(MIDDLE, FIRST);
    R.OneTable(TABLE);
    R.TwoTables(LEFT_FILE, RIGHT_FILE);
    R.TwoTables(OUTPUT, TABLE);
  }

  lemma Shapes()
    ensures R.LevelsAre(BEFORE, {FIRST, SECOND}, {})
    ensures R.LevelsAre(AFTER, {}, {FIRST, SECOND, MIDDLE})
  {
    Tables();
    hide LevelEntries;
    assert BEFORE[1] == [LEFT_FILE, RIGHT_FILE] && AFTER[2] == [OUTPUT, TABLE] && BEFORE[2] == [] && AFTER[1] == [];
  }

  lemma BeforeLevelsOk()
    ensures forall l :: 0 <= l < NUM_LEVELS ==> FilesOk(BEFORE[l]) && Disjoint(BEFORE[l]) && SortedFiles(BEFORE[l])
    ensures RecencyByNumber(BEFORE[0])
  {
    Tables();
    hide FileOk;
    assert BEFORE[1] == [LEFT_FILE, RIGHT_FILE];
    assert forall l :: 0 <= l < NUM_LEVELS && l != 1 ==> BEFORE[l] == [];
  }

  lemma EntriesDistinct()
    ensures Distinct({FIRST, SECOND} + {}) && NewerThan({FIRST, SECOND}, {}) && Distinct({MIDDLE})
    ensures NewerThan({MIDDLE}, {FIRST, SECOND} + {})
    ensures Distinct({} + {FIRST, SECOND, MIDDLE})
  {
  }

  lemma BeforeIsOk()
    ensures VersionOk(BEFORE) && AllInOrder(BEFORE) && VersionEntries(BEFORE) == {FIRST, SECOND} + {}
  {
    hide LevelEntries, VersionEntries, FilesOk, Disjoint, SortedFiles, RecencyByNumber, LevelsOrdered, Distinct,
      NewerThan, R.LevelsAre;
    Shapes();
    BeforeLevelsOk();
    EntriesDistinct();
    R.LevelsAreOrdered(BEFORE, {FIRST, SECOND}, {});
    R.EntriesOf(BEFORE, {FIRST, SECOND}, {});
    assert |BEFORE| == NUM_LEVELS;
  }

  // The inputs are those of a manual compaction of everything.
  lemma PickIsManual()
    ensures ManualStart(BEFORE[1], 1, None, None, 100, [LEFT_FILE, RIGHT_FILE], None, None)
    ensures Picked(BEFORE, 1, [LEFT_FILE, RIGHT_FILE], [], 1.0, 3.0)
  {
    var files := [LEFT_FILE, RIGHT_FILE];
    assert BEFORE[1] == files && BEFORE[2] == [] && files[..1] == [LEFT_FILE] && [LEFT_FILE][..0] == [];
    assert Meeting([], None, None) == [] && Meeting([LEFT_FILE], None, None) == [LEFT_FILE];
    assert Meeting(files, None, None) == files;
    assert TotalFileSize([]) == 0 && [LEFT_FILE][1..] == [];
    assert TotalFileSize([LEFT_FILE]) == 1;
    assert Meeting([], Some(1.0), Some(3.0)) == [];
  }

  lemma SliceOfTwo<T>(files: seq<T>, run: seq<T>, a: nat, b: nat)
    requires |files| == 2 && a < b <= 2 && run == files[a..b] && files[0] != files[1] && files[0] in run
    requires files[1] in run
    ensures run == files
  {
    var i :| 0 <= i < |run| && run[i] == files[0];
    var j :| 0 <= j < |run| && run[j] == files[1];
    assert files[a + i] == files[0] && files[a + j] == files[1];
  }

  lemma RunOfTwo(files: Level, run: Level)
    requires |files| == 2 && IsRun(files, run) && files[0] != files[1] && files[0] in run && files[1] in run
    ensures run == files
  {
    var a, b :| 0 <= a < b <= |files| && run == files[a..b];
    SliceOfTwo(files, run, a, b);
  }

  lemma OnlyRun(in0: Level, lo: UserKey, hi: UserKey)
    requires StartOk(BEFORE[1], 1, in0) && Spans(in0, lo, hi) && LEFT_FILE in in0 && RIGHT_FILE in in0
    ensures in0 == [LEFT_FILE, RIGHT_FILE] && lo == 1.0 && hi == 3.0
  {
    hide IsRun;
    assert BEFORE[1] == [LEFT_FILE, RIGHT_FILE];
    RunOfTwo(BEFORE[1], in0);
    assert in0[0] == LEFT_FILE && in0[1] == RIGHT_FILE;
  }

  lemma WholeStart(start: Level, b: Option<UserKey>, e: Option<UserKey>)
    requires ManualStart(BEFORE[1], 1, None, None, 100, start, b, e)
    ensures start == [LEFT_FILE, RIGHT_FILE] && LEFT_FILE in start && RIGHT_FILE in start
  {
    var files := [LEFT_FILE, RIGHT_FILE];
    AllMeet();
    hide Meeting, CutAt, TotalFileSize;
    SmallStartIsWhole(files, start, 100);
    assert files[0] in files && files[1] in files;
  }

  lemma AllMeet()
    ensures BEFORE[1] == [LEFT_FILE, RIGHT_FILE]
    ensures Meeting(BEFORE[1], None, None) == [LEFT_FILE, RIGHT_FILE] && TotalFileSize([LEFT_FILE, RIGHT_FILE]) == 2
  {
    var files := [LEFT_FILE, RIGHT_FILE];
    assert BEFORE[1] == files && files[..1] == [LEFT_FILE] && [LEFT_FILE][..0] == [];
    assert Meeting([], None, None) == [] && Meeting([LEFT_FILE], None, None) == [LEFT_FILE];
    assert TotalFileSize([]) == 0 && [RIGHT_FILE][1..] == [] && files[1..] == [RIGHT_FILE];
  }

  // The inputs are those of the source for a manual compaction of everything,
  // whatever its byte limit.
  method PickIsMade(limit: nat) returns (in0: Level, in1: Level)
    ensures in0 == PICK.in0 && in1 == PICK.in1
  {
    hide Picked, StartOk, Spans, VersionOk, AllInOrder, ManualStart, Meeting;
    BeforeIsOk();
    LeftThere();
    ghost var lo, hi, start, b, e;
    in0, in1, lo, hi, start, b, e := CompactRange(BEFORE, 1, None, None, 100, limit);
    assert Meets(LEFT_FILE, None, None);
    WholeStart(start, b, e);
    OnlyRun(in0, lo, hi);
    PickIsManual();
    R.SameNext(BEFORE, 1, in0, in1, [], lo, hi);
  }

  lemma LeftThere()
    ensures LEFT_FILE in BEFORE[1]
  {
    assert BEFORE[1][0] == LEFT_FILE;
  }

  lemma InputIsKept()
    ensures Sorted(PICK.input) && Kept(BEFORE, 1, PICK.input, 2, 8) == PICK.input
    ensures Contents([OUTPUT]) == [FIRST, SECOND]
  {
    var input := PICK.input;
    assert input[0] == FIRST && input[1] == SECOND;
    assert Kept(BEFORE, 1, input, 1, 8) == [FIRST];
    assert [OUTPUT][..0] == [];
  }

  lemma CurrentIs()
    ensures BEFORE[0] == [] && BEFORE[1] == [LEFT_FILE, RIGHT_FILE] && BEFORE[2] == [] && CURRENT[2] == [TABLE]
    ensures forall l :: 0 <= l < NUM_LEVELS && l != 2 ==> CURRENT[l] == BEFORE[l]
    ensures forall l :: 0 <= l < NUM_LEVELS ==> SortedFiles(CURRENT[l])
    ensures |CURRENT| == NUM_LEVELS && TABLE.number == 7
  {
    BeforeLevelsOk();
    hide FilesOk, Disjoint, RecencyByNumber;
  }

  lemma FlushHits()
    ensures forall l :: 0 <= l <= 2 ==> NoneMeets(BEFORE[l], TABLE.smallest.user, TABLE.largest.user)
    ensures Elsewhere(BEFORE[0], TABLE) && Elsewhere(BEFORE[1], TABLE)
  {
    CurrentIs();
    Tables();
    hide SortedFiles, FileOk, LevelEntries;
  }

  lemma FlushIsLegal()
    ensures Flushed(BEFORE, 2, TABLE, CURRENT)
  {
    BeforeIsOk();
    Tables();
    EntriesDistinct();
    CurrentIs();
    FlushHits();
    hide VersionOk, VersionEntries, LevelEntries, Distinct, NewerThan, FileOk, ToSet, SortedFiles, NoneMeets,
      Elsewhere;
    forall l, f | 0 <= l < NUM_LEVELS ensures f in CURRENT[l] <==> f in BEFORE[l] || (l == 2 && f == TABLE) {
      assert l == 2 ==> CURRENT[l] == [TABLE] && BEFORE[l] == [];
    }
    assert FlushOk(Flush(BEFORE, 2, TABLE, CURRENT));
  }

  lemma OneFlush(before: Version, level: nat, table: File, current: Version)
    requires Flushed(before, level, table, current)
    ensures Flushes(before, [(level, table)], current)
  {
    hide Flushed;
    var tables := [(level, table)];
    assert tables[..|tables| - 1] == [] && tables[|tables| - 1] == (level, table);
    var none: seq<(nat, File)> := [];
    assert Flushes(before, none, before);
    assert tables[..|tables| - 1] == none;
  }

  lemma ReplacementIsLegal()
    ensures Replaced(CURRENT, 1, [LEFT_FILE, RIGHT_FILE], [], [OUTPUT], AFTER) && AllInOrder(AFTER)
  {
    assert CURRENT[1] == [LEFT_FILE, RIGHT_FILE] && CURRENT[2] == [TABLE] && AFTER[1] == [] &&
      AFTER[2] == [OUTPUT, TABLE];
    assert forall l :: 0 <= l < NUM_LEVELS && l != 2 ==> AFTER[l] == [];
    assert forall l :: 0 <= l < NUM_LEVELS && l != 1 && l != 2 ==> CURRENT[l] == [];
  }

  lemma PickIsLegal()
    ensures PickOk(PICK) && Outputs(PICK, [OUTPUT])
  {
    BeforeIsOk();
    PickIsManual();
    InputIsKept();
    Tables();
    hide VersionOk, AllInOrder, Picked, Kept, Sorted, ToSet, LevelEntries, Contents, FileOk;
    assert [OUTPUT][0] == OUTPUT;
  }

  lemma InstallIsLegal()
    ensures LateOk(INSTALL)
  {
    PickIsLegal();
    ReplacementIsLegal();
    FlushIsLegal();
    OneFlush(BEFORE, 2, TABLE, CURRENT);
    hide PickOk, Outputs, Flushed, Flushes, Replaced, AllInOrder;
  }

  // All of this is what the code allows: the pick is that of a manual
  // compaction and the table went where PickLevelForMemTableOutput puts it. Then
  // the level has overlapping tables, and the search in it ends at the output.
  lemma FlushedKeyIsHidden()
    ensures LateOk(INSTALL) && !Clear(INSTALL) && !VersionOk(AFTER)
    ensures !Gapless(PICK.in0 + PICK.in1)
    ensures Read(VersionEntries(AFTER), 2.0, 9) == Some([2])
  {
    InstallIsLegal();
    hide LateOk, VersionOk;
    assert OUTPUT in INSTALL.outputs && Meets(OUTPUT, Some(2.0), Some(2.0));
    assert INSTALL.flushed[0] == (2, TABLE);
    InstallOverFlushes(INSTALL);
    if Gapless(PICK.in0 + PICK.in1) {
      GaplessIsClear(INSTALL);
    }
    Shapes();
    EntriesDistinct();
    R.EntriesOf(AFTER, {}, {FIRST, SECOND, MIDDLE});
    assert IsNewest({} + {FIRST, SECOND, MIDDLE}, 2.0, 9, MIDDLE);
    NewestIs({} + {FIRST, SECOND, MIDDLE}, 2.0, 9, MIDDLE);
  }

  lemma NothingStops(level: nat, limit: nat)
    requires level < 2
    ensures !StaysHere(BEFORE, level, 2.0, 2.0, limit)
  {
    FlushHits();
    hide NoneMeets;
    assert BEFORE[3] == [] && BEFORE[2] == [];
    assert Meeting([], Some(2.0), Some(2.0)) == [] && TotalFileSize([]) == 0;
  }

  // The level the source picks for the memtable, and the table the source
  // searches for the key afterwards: it holds no entry of the key.
  method SearchMisses(limit: nat) returns (level: nat, index: nat)
    ensures level == 2
    ensures index < |AFTER[level]| && forall x :: x in AFTER[level][index].entries ==> x.key.user != 2.0
  {
    BeforeIsOk();
    hide VersionOk, VersionEntries, NoneMeets, StaysHere, AllInOrder;
    level := PickLevelForMemTableOutput(BEFORE, 2.0, 2.0, limit);
    if level < 2 {
      NothingStops(level, limit);
    }
    var files := AFTER[2];
    assert files == [OUTPUT, TABLE] && !Less(files[0].largest, SeekKey(2.0, 9));
    index := FindFile(files, SeekKey(2.0, 9));
    assert files[index] == OUTPUT && OUTPUT.entries[0] == FIRST && OUTPUT.entries[1] == SECOND;
  }
}
