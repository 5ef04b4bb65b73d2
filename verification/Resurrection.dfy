// A compaction that brings a deleted key back. The source seals the inputs at
// the compacted level with AddBoundaryInputs but not those at the next level
// (db/version_set.cc, SetupOtherInputs).
module Resurrection {
  import opened Keys
  import opened Versions
  import opened Inputs
  import opened Picking
  import opened Compactions
  import opened Preservation

  const OVERWRITE := Entry(InternalKey(1.0, 20, Value), [1])
  const OLD_VALUE := Entry(InternalKey(1.0, 5, Value), [2])
  const MARKER := Entry(InternalKey(2.0, 10, Deletion), [])
  const DELETED := Entry(InternalKey(2.0, 4, Value), [3])

  const UPPER := File(5, 1, OVERWRITE.key, OVERWRITE.key, [OVERWRITE])
  const MARKED := File(6, 1, OLD_VALUE.key, MARKER.key, [OLD_VALUE, MARKER])
  const LEFT_OUT := File(7, 1, DELETED.key, DELETED.key, [DELETED])
  const OUTPUT := File(8, 1, OVERWRITE.key, OVERWRITE.key, [OVERWRITE])

  // The marker for user key 2.0 and the value it deletes lie in adjacent files.
  const BEFORE: Version := [[], [UPPER], [MARKED, LEFT_OUT], [], [], [], []]
  const AFTER: Version := [[], [], [OUTPUT, LEFT_OUT], [], [], [], []]

  const JOB := Job(BEFORE, 1, [UPPER], [MARKED], 1.0, 1.0, [OVERWRITE, OLD_VALUE, MARKER], 30, [OUTPUT], AFTER)

  lemma OneTable(f: File)
    ensures LevelEntries([f]) == ToSet(f.entries)
  {
    assert [f][0] == f;
  }

  lemma TwoTables(f: File, g: File)
    ensures LevelEntries([f, g]) == ToSet(f.entries) + ToSet(g.entries)
  {
    assert [f, g][0] == f && [f, g][1] == g;
  }

  lemma SmallSets(x: Entry, y: Entry)
    ensures ToSet([x]) == {x} && ToSet([x, y]) == {x, y}
  {
    assert [x][0] == x && [x, y][0] == x && [x, y][1] == y;
  }

  lemma EntriesByLevel()
    ensures LevelEntries([UPPER]) == {OVERWRITE} && LevelEntries([MARKED]) == {OLD_VALUE, MARKER}
    ensures LevelEntries([OUTPUT]) == {OVERWRITE} && LevelEntries([OUTPUT, LEFT_OUT]) == {OVERWRITE, DELETED}
    ensures LevelEntries([MARKED, LEFT_OUT]) == {OLD_VALUE, MARKER, DELETED}
    ensures LevelEntries([]) == {}
  {
    SmallSets(OVERWRITE, OLD_VALUE);
    SmallSets(OLD_VALUE, MARKER);
    SmallSets(DELETED, OLD_VALUE);
    OneTable(UPPER);
    OneTable(MARKED);
    OneTable(OUTPUT);
    TwoTables(MARKED, LEFT_OUT);
    TwoTables(OUTPUT, LEFT_OUT);
  }

  ghost predicate LevelsAre(v: Version, one: set<Entry>, two: set<Entry>) {
    && |v| == NUM_LEVELS
    && LevelEntries(v[1]) == one && LevelEntries(v[2]) == two
    && forall l :: 0 <= l < NUM_LEVELS && l != 1 && l != 2 ==> v[l] == [] && LevelEntries(v[l]) == {}
  }

  lemma Shapes()
    ensures LevelsAre(BEFORE, {OVERWRITE}, {OLD_VALUE, MARKER, DELETED})
    ensures LevelsAre(AFTER, {}, {OVERWRITE, DELETED})
  {
    EntriesByLevel();
    hide LevelEntries;
    assert BEFORE[1] == [UPPER] && BEFORE[2] == [MARKED, LEFT_OUT] && AFTER[1] == [] && AFTER[2] == [OUTPUT, LEFT_OUT];
  }

  lemma EntriesOf(v: Version, one: set<Entry>, two: set<Entry>)
    requires LevelsAre(v, one, two)
    ensures VersionEntries(v) == one + two
  {
    hide LevelEntries;
    forall x ensures x in VersionEntries(v) <==> x in one + two {
      assert x in LevelEntries(v[1]) <==> x in one;
      assert x in LevelEntries(v[2]) <==> x in two;
    }
  }

  lemma TablesOk()
    ensures FileOk(UPPER) && FileOk(MARKED) && FileOk(LEFT_OUT)
  {
  }

  lemma BeforeLevelsOk()
    ensures forall l :: 0 <= l < NUM_LEVELS ==> FilesOk(BEFORE[l]) && Disjoint(BEFORE[l])
    ensures RecencyByNumber(BEFORE[0])
  {
    TablesOk();
    hide FileOk;
    assert BEFORE[1] == [UPPER] && BEFORE[2] == [MARKED, LEFT_OUT];
    assert forall l :: 0 <= l < NUM_LEVELS && l != 1 && l != 2 ==> BEFORE[l] == [];
  }

  lemma LevelsAreOrdered(v: Version, one: set<Entry>, two: set<Entry>)
    requires LevelsAre(v, one, two) && NewerThan(one, two)
    ensures LevelsOrdered(v)
  {
    hide LevelEntries;
    forall i, j | 0 <= i < j < |v| ensures NewerThan(LevelEntries(v[i]), LevelEntries(v[j])) {
      if i == 1 && j == 2 {
      } else {
        assert LevelEntries(v[i]) == {} || LevelEntries(v[j]) == {};
      }
    }
  }

  lemma BeforeEntriesDistinct()
    ensures Distinct({OVERWRITE} + {OLD_VALUE, MARKER, DELETED})
    ensures NewerThan({OVERWRITE}, {OLD_VALUE, MARKER, DELETED})
  {
  }

  lemma BeforeIsOk()
    ensures VersionOk(BEFORE)
  {
    Shapes();
    BeforeLevelsOk();
    BeforeEntriesDistinct();
    LevelsAreOrdered(BEFORE, {OVERWRITE}, {OLD_VALUE, MARKER, DELETED});
    EntriesOf(BEFORE, {OVERWRITE}, {OLD_VALUE, MARKER, DELETED});
    assert |BEFORE| == NUM_LEVELS;
    hide LevelEntries, VersionEntries, FilesOk, Disjoint, RecencyByNumber, LevelsOrdered, Distinct, NewerThan,
      LevelsAre;
  }

  lemma PickIsOk()
    ensures Picked(BEFORE, 1, [UPPER], [MARKED], 1.0, 1.0)
  {
    var next := [MARKED, LEFT_OUT];
    assert next[..1] == [MARKED] && [MARKED][..0] == [];
    assert Meeting([], Some(1.0), Some(1.0)) == [];
    assert Meeting([MARKED], Some(1.0), Some(1.0)) == [MARKED];
    assert Meeting(next, Some(1.0), Some(1.0)) == [MARKED];
  }

  lemma MarkerIsDropped()
    ensures Kept(BEFORE, 1, JOB.input, 3, 30) == [OVERWRITE]
    ensures Dropped(BEFORE, 1, JOB.input, 2, 30)
  {
    var input := JOB.input;
    assert IsBaseLevel(BEFORE, 1, 2.0);
    assert !Dropped(BEFORE, 1, input, 0, 30) && Dropped(BEFORE, 1, input, 1, 30) && Dropped(BEFORE, 1, input, 2, 30);
    assert Kept(BEFORE, 1, input, 1, 30) == [OVERWRITE];
    assert Kept(BEFORE, 1, input, 2, 30) == [OVERWRITE];
  }

  lemma InputIsOk()
    ensures Sorted(JOB.input) && ToSet(JOB.input) == {OVERWRITE, OLD_VALUE, MARKER}
    ensures Contents([OUTPUT]) == [OVERWRITE]
  {
    var input := JOB.input;
    assert input[0] == OVERWRITE && input[1] == OLD_VALUE && input[2] == MARKER;
    assert [OUTPUT][..0] == [];
  }

  lemma ReplacementIsOk()
    ensures Replaced(BEFORE, 1, [UPPER], [MARKED], [OUTPUT], AFTER)
  {
    assert BEFORE[1] == [UPPER] && BEFORE[2] == [MARKED, LEFT_OUT] && AFTER[1] == [] && AFTER[2] == [OUTPUT, LEFT_OUT];
  }

  lemma JobIsOk()
    ensures JobOk(JOB)
  {
    BeforeIsOk();
    PickIsOk();
    MarkerIsDropped();
    InputIsOk();
    ReplacementIsOk();
    EntriesByLevel();
    hide VersionOk, Picked, Kept, Sorted, ToSet, LevelEntries, Contents, Replaced;
  }

  lemma ReadsOfTheSets()
    ensures Read({OVERWRITE} + {OLD_VALUE, MARKER, DELETED}, 2.0, 30) == None
    ensures Read({} + {OVERWRITE, DELETED}, 2.0, 30) == Some([3])
  {
    BeforeEntriesDistinct();
    var before, after := {OVERWRITE} + {OLD_VALUE, MARKER, DELETED}, {} + {OVERWRITE, DELETED};
    assert IsNewest(before, 2.0, 30, MARKER);
    NewestIs(before, 2.0, 30, MARKER);
    assert IsNewest(after, 2.0, 30, DELETED);
    NewestIs(after, 2.0, 30, DELETED);
  }

  // Every entry is visible to the reader, and the picked inputs are those of the
  // source; yet after the compaction the deleted key reads as its old value.
  lemma DeletedKeyComesBack()
    ensures JobOk(JOB) && !ReadsPreserved(JOB)
    ensures Read(VersionEntries(BEFORE), 2.0, 30) == None
    ensures Read(VersionEntries(AFTER), 2.0, 30) == Some([3])
  {
    JobIsOk();
    Shapes();
    EntriesOf(BEFORE, {OVERWRITE}, {OLD_VALUE, MARKER, DELETED});
    EntriesOf(AFTER, {}, {OVERWRITE, DELETED});
    ReadsOfTheSets();
    hide JobOk, LevelsAre, VersionEntries, Read;
    NotPreserved(JOB, 2.0, 30);
  }

  lemma NotPreserved(c: Job, u: UserKey, s: nat)
    requires s >= c.smallestSnapshot && Read(VersionEntries(c.after), u, s) != Read(VersionEntries(c.before), u, s)
    ensures !ReadsPreserved(c)
  {
    hide VersionEntries, Read;
    assert !KeyPreserved(c, u);
  }

  lemma OnlyRun(in0: Level, lo: UserKey, hi: UserKey)
    requires StartOk(BEFORE[1], 1, in0) && Spans(in0, lo, hi)
    ensures in0 == [UPPER] && lo == hi == 1.0
  {
    assert BEFORE[1] == [UPPER];
    var a, b :| 0 <= a < b <= 1 && in0 == [UPPER][a..b];
    assert in0 == [UPPER];
  }

  // The inputs are those that the source picks around the upper file, whatever
  // its byte limit.
  method PickIsMade(limit: nat) returns (in0: Level, in1: Level)
    ensures in0 == JOB.in0 && in1 == JOB.in1
  {
    hide Picked, StartOk, Spans, Gapless, VersionOk;
    BeforeIsOk();
    UpperThere();
    ghost var lo, hi;
    in0, in1, lo, hi := PickCompaction(BEFORE, 1, UPPER, limit);
    OnlyRun(in0, lo, hi);
    PickIsOk();
    SameNext(BEFORE, 1, in0, in1, [MARKED], lo, hi);
  }

  lemma UpperThere()
    ensures UPPER in BEFORE[1]
  {
    assert BEFORE[1] == [UPPER];
  }

  // The next-level inputs are settled by the range.
  lemma SameNext(v: Version, level: nat, in0: Level, in1: Level, in1': Level, lo: UserKey, hi: UserKey)
    requires Picked(v, level, in0, in1, lo, hi) && Picked(v, level, in0, in1', lo, hi)
    ensures in1 == in1'
  {
  }
}
