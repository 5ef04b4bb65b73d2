// What a compaction does to reads: exactly when every reader at or above the
// smallest snapshot still sees what it saw (db/db_impl.cc, DoCompactionWork and
// InstallCompactionResults).
module Preservation {
  import opened Keys
  import opened Versions
  import opened Inputs
  import opened Picking
  import opened Compactions

  // The entries of the files of a level that are not inputs.
  ghost function LeftEntries(files: Level, inputs: Level): set<Entry> {
    set i, x | 0 <= i < |files| && files[i] !in inputs && x in files[i].entries :: x
  }

  // `after` is `before` with the inputs replaced by the outputs.
  ghost predicate Replaced(before: Version, level: nat, in0: Level, in1: Level, outputs: Level, after: Version) {
    && |before| == |after| == NUM_LEVELS && level + 1 < NUM_LEVELS
    && (forall f :: f in after[level] <==> f in before[level] && f !in in0)
    && (forall f :: f in after[level + 1] <==> (f in before[level + 1] && f !in in1) || f in outputs)
    && forall l :: 0 <= l < NUM_LEVELS && l != level && l != level + 1 ==> after[l] == before[l]
  }

  // A finished compaction: inputs picked, merged, filtered and replaced.
  datatype Job = Job(before: Version, level: nat, in0: Level, in1: Level, lo: UserKey, hi: UserKey,
                     input: seq<Entry>, smallestSnapshot: nat, outputs: Level, after: Version)

  ghost predicate JobOk(c: Job) {
    && VersionOk(c.before)
    && Picked(c.before, c.level, c.in0, c.in1, c.lo, c.hi)
    && Sorted(c.input) && ToSet(c.input) == LevelEntries(c.in0) + LevelEntries(c.in1)
    && Contents(c.outputs) == Kept(c.before, c.level, c.input, |c.input|, c.smallestSnapshot)
    && Replaced(c.before, c.level, c.in0, c.in1, c.outputs, c.after)
  }

  ghost predicate IsDropped(c: Job, x: Entry) {
    exists i :: 0 <= i < |c.input| && c.input[i] == x && Dropped(c.before, c.level, c.input, i, c.smallestSnapshot)
  }

  function NextLevel(c: Job): Level {
    if c.level + 1 < |c.before| then c.before[c.level + 1] else []
  }

  ghost function Left(c: Job): set<Entry> {
    LeftEntries(NextLevel(c), c.in1)
  }

  lemma {:induction false} ContentsEntries(files: Level)
    ensures ToSet(Contents(files)) == LevelEntries(files)
  {
    if files != [] {
      var front := files[..|files| - 1];
      ContentsEntries(front);
      forall x ensures x in LevelEntries(files) <==> x in LevelEntries(front) || x in files[|files| - 1].entries {
        if x in LevelEntries(front) {
          var i :| 0 <= i < |front| && x in front[i].entries;
          assert files[i] == front[i];
        }
        if x in LevelEntries(files) {
          var i :| 0 <= i < |files| && x in files[i].entries;
          if i < |front| {
            assert front[i] == files[i];
          }
        }
      }
    }
  }

  lemma OutputsKept(c: Job, x: Entry)
    requires JobOk(c)
    ensures x in LevelEntries(c.outputs) <==>
      exists i :: 0 <= i < |c.input| && c.input[i] == x && !Dropped(c.before, c.level, c.input, i, c.smallestSnapshot)
  {
    ContentsEntries(c.outputs);
    KeptFacts(c.before, c.level, c.input, |c.input|, c.smallestSnapshot);
    assert x in LevelEntries(c.outputs) <==> x in Contents(c.outputs);
  }

  lemma InLevel(files: Level, f: File, x: Entry)
    requires f in files && x in f.entries
    ensures x in LevelEntries(files)
  {
    var i :| 0 <= i < |files| && files[i] == f;
  }

  lemma FileOf(files: Level, x: Entry) returns (f: File)
    requires x in LevelEntries(files)
    ensures f in files && x in f.entries
  {
    var i :| 0 <= i < |files| && x in files[i].entries;
    f := files[i];
  }

  // ----- which entries survive -----

  lemma LevelMember(v: Version, l: nat, x: Entry)
    requires l < |v| && x in LevelEntries(v[l])
    ensures x in VersionEntries(v)
  {
  }

  lemma InputMember(c: Job, i: nat) returns (l: nat)
    requires JobOk(c) && i < |c.input|
    ensures l == c.level || l == c.level + 1
    ensures c.input[i] in LevelEntries(if l == c.level then c.in0 else c.in1)
    ensures c.input[i] in LevelEntries(c.before[l])
    ensures c.input[i] in VersionEntries(c.before)
  {
    var x := c.input[i];
    assert x in ToSet(c.input);
    l := if x in LevelEntries(c.in0) then c.level else c.level + 1;
    var f := FileOf(if l == c.level then c.in0 else c.in1, x);
    InLevel(c.before[l], f, x);
    LevelMember(c.before, l, x);
  }

  // An entry lies in one level only, and there in one file only.
  lemma OneLevel(v: Version, l: nat, m: nat, x: Entry)
    requires LevelsOrdered(v) && l < |v| && m < |v|
    requires x in LevelEntries(v[l]) && x in LevelEntries(v[m])
    ensures l == m
  {
  }

  lemma OneFile(files: Level, f: File, g: File, x: Entry)
    requires FilesOk(files) && Disjoint(files) && f in files && g in files && x in f.entries && x in g.entries
    ensures f == g
  {
    var i :| 0 <= i < |files| && files[i] == f;
    var j :| 0 <= j < |files| && files[j] == g;
    EntryBounds(f, x);
    EntryBounds(g, x);
  }

  lemma NotLeftBehind(files: Level, inputs: Level, f: File, x: Entry)
    requires LeavesNothingOlder(files, inputs) && f in files && f !in inputs && x in LevelEntries(inputs)
    ensures x !in f.entries
  {
    hide LevelEntries;
    assert NewerThan(ToSet(f.entries), LevelEntries(inputs));
  }

  lemma NotInOther(files: Level, inputs: Level, f: File, x: Entry)
    requires FilesOk(files) && Disjoint(files) && (forall g :: g in inputs ==> g in files)
    requires f in files && f !in inputs && x in LevelEntries(inputs)
    ensures x !in f.entries
  {
    hide FilesOk, Disjoint, LevelEntries;
    var g := FileOf(inputs, x);
    if x in f.entries {
      OneFile(files, f, g, x);
    }
  }

  lemma JobFacts(c: Job)
    requires JobOk(c)
    ensures c.level + 1 < |c.before| == NUM_LEVELS && LevelsOrdered(c.before)
    ensures LeavesNothingOlder(c.before[c.level], c.in0)
    ensures FilesOk(c.before[c.level + 1]) && Disjoint(c.before[c.level + 1])
    ensures forall g :: g in c.in1 ==> g in c.before[c.level + 1]
  {
    hide FilesOk, Disjoint, LevelsOrdered, LeavesNothingOlder, Kept, Sorted, ToSet, Replaced, VersionEntries,
      RecencyByNumber, Distinct;
  }

  // A file left at the level, or at the next level, holds no input entry.
  lemma LeftIsNotInput(c: Job, l: nat, f: File, i: nat)
    requires JobOk(c) && i < |c.input| && l < NUM_LEVELS
    requires f in c.before[l] && (l == c.level ==> f !in c.in0) && (l == c.level + 1 ==> f !in c.in1)
    ensures c.input[i] !in f.entries
  {
    hide JobOk, LevelEntries, LevelsOrdered, LeavesNothingOlder, FilesOk, Disjoint;
    JobFacts(c);
    var x := c.input[i];
    if x in f.entries {
      InLevel(c.before[l], f, x);
      var m := InputMember(c, i);
      OneLevel(c.before, l, m, x);
      if m == c.level {
        NotLeftBehind(c.before[l], c.in0, f, x);
      } else {
        NotInOther(c.before[l], c.in1, f, x);
      }
    }
  }

  // Where a file of the new version comes from.
  lemma AfterFile(c: Job, l: nat, f: File)
    requires JobOk(c) && l < |c.after| && f in c.after[l]
    ensures |c.after| == |c.before| == NUM_LEVELS
    ensures (l == c.level + 1 && f in c.outputs) ||
            (f in c.before[l] && (l == c.level ==> f !in c.in0) && (l == c.level + 1 ==> f !in c.in1))
  {
  }

  lemma OutputEntry(c: Job, f: File, x: Entry) returns (i: nat)
    requires JobOk(c) && f in c.outputs && x in f.entries
    ensures i < |c.input| && c.input[i] == x && !Dropped(c.before, c.level, c.input, i, c.smallestSnapshot)
    ensures forall j :: 0 <= j < |c.input| && c.input[j] == x ==> j == i
  {
    InLevel(c.outputs, f, x);
    OutputsKept(c, x);
    i :| 0 <= i < |c.input| && c.input[i] == x && !Dropped(c.before, c.level, c.input, i, c.smallestSnapshot);
  }

  lemma SurvivorsForward(c: Job, x: Entry)
    requires JobOk(c) && x in VersionEntries(c.after)
    ensures x in VersionEntries(c.before) && !IsDropped(c, x)
  {
    hide JobOk, Dropped;
    var l :| 0 <= l < |c.after| && x in LevelEntries(c.after[l]);
    var f := FileOf(c.after[l], x);
    AfterFile(c, l, f);
    if l == c.level + 1 && f in c.outputs {
      var i := OutputEntry(c, f, x);
      var m := InputMember(c, i);
    } else {
      InLevel(c.before[l], f, x);
      LevelMember(c.before, l, x);
      forall i | 0 <= i < |c.input| ensures c.input[i] != x {
        LeftIsNotInput(c, l, f, i);
      }
    }
  }

  lemma SurvivorsBackward(c: Job, x: Entry)
    requires JobOk(c) && x in VersionEntries(c.before) && !IsDropped(c, x)
    ensures x in VersionEntries(c.after)
  {
    hide Picked, Kept, VersionOk, LevelEntries, Sorted;
    var l :| 0 <= l < NUM_LEVELS && x in LevelEntries(c.before[l]);
    var f := FileOf(c.before[l], x);
    if (l == c.level && f in c.in0) || (l == c.level + 1 && f in c.in1) {
      InLevel(if l == c.level then c.in0 else c.in1, f, x);
      assert x in ToSet(c.input);
      var i :| 0 <= i < |c.input| && c.input[i] == x;
      assert !Dropped(c.before, c.level, c.input, i, c.smallestSnapshot);
      OutputsKept(c, x);
      var g := FileOf(c.outputs, x);
      InLevel(c.after[c.level + 1], g, x);
      LevelMember(c.after, c.level + 1, x);
    } else {
      InLevel(c.after[l], f, x);
      LevelMember(c.after, l, x);
    }
  }

  // ----- reads -----

  // An obsolete marker that has been the newest entry of its key hides only
  // entries of files left out of the next level, and only if it came from there.
  lemma MarkerHidesOnlyLeft(c: Job, i: nat, x: Entry)
    requires JobOk(c) && i < |c.input| && Obsolete(c.before, c.level, c.input[i], c.smallestSnapshot)
    requires x in VersionEntries(c.after) && x.key.user == c.input[i].key.user && x.key.sn < c.input[i].key.sn
    ensures x in Left(c) && c.input[i] in LevelEntries(c.in1)
  {
    hide JobOk, IsBaseLevel;
    var l :| 0 <= l < |c.after| && x in LevelEntries(c.after[l]);
    var f := FileOf(c.after[l], x);
    AfterFile(c, l, f);
    if l == c.level + 1 && f in c.outputs {
      var j := OutputEntry(c, f, x);
      LaterIsHidden(c, i, j);
    } else {
      InLevel(c.before[l], f, x);
      var m := InputMember(c, i);
      MarkerLevel(c, i, m, l, f, x);
      var k :| 0 <= k < |c.before[l]| && c.before[l][k] == f;
    }
  }

  lemma LaterIsHidden(c: Job, i: nat, j: nat)
    requires JobOk(c) && i < |c.input| && j < |c.input|
    requires c.input[j].key.user == c.input[i].key.user && c.input[j].key.sn < c.input[i].key.sn <= c.smallestSnapshot
    ensures Hidden(c.input, j, c.smallestSnapshot)
  {
    InputSorted(c);
    hide JobOk;
    NextIsHidden(c.input, i, j, c.smallestSnapshot);
  }

  lemma InputSorted(c: Job)
    requires JobOk(c)
    ensures Sorted(c.input)
  {
    hide VersionOk, Picked, Sorted, Replaced, Contents, Kept;
  }

  lemma SortedPair(input: seq<Entry>, i: nat, j: nat)
    requires Sorted(input) && i < |input| && j < |input|
    ensures i < j ==> Less(input[i].key, input[j].key)
  {
  }

  lemma NextIsHidden(input: seq<Entry>, i: nat, j: nat, smallestSnapshot: nat)
    requires Sorted(input) && i < |input| && j < |input|
    requires input[j].key.user == input[i].key.user && input[j].key.sn < input[i].key.sn <= smallestSnapshot
    ensures Hidden(input, j, smallestSnapshot)
  {
    SortedPair(input, j, i);
    assert i < j;
    assert i < j - 1 ==> Less(input[i].key, input[j - 1].key);
    assert Less(input[j - 1].key, input[j].key);
  }

  // Older entries of a user key are in the same level or deeper.
  lemma OlderIsDeeper(v: Version, l: nat, m: nat, x: Entry, e: Entry)
    requires LevelsOrdered(v) && l < |v| && m < |v|
    requires x in LevelEntries(v[l]) && e in LevelEntries(v[m]) && x.key.user == e.key.user && x.key.sn < e.key.sn
    ensures l >= m
  {
  }

  lemma LeftAtLevelIsNewer(files: Level, inputs: Level, f: File, x: Entry, e: Entry)
    requires LeavesNothingOlder(files, inputs) && f in files && f !in inputs
    requires x in f.entries && e in LevelEntries(inputs) && x.key.user == e.key.user
    ensures x.key.sn > e.key.sn
  {
    assert x in ToSet(f.entries);
  }

  lemma LeftAtNextLevelIsElsewhere(c: Job, f: File, x: Entry, e: Entry)
    requires Picked(c.before, c.level, c.in0, c.in1, c.lo, c.hi)
    requires FilesOk(c.before[c.level]) && FilesOk(c.before[c.level + 1])
    requires f in c.before[c.level + 1] && f !in c.in1 && x in f.entries && e in LevelEntries(c.in0)
    ensures x.key.user != e.key.user
  {
    var g := FileOf(c.in0, e);
    KeysOrdered(c.before[c.level]);
    KeysOrdered(c.before[c.level + 1]);
    EntryBounds(g, e);
    EntryBounds(f, x);
  }

  lemma NothingAtBase(v: Version, level: nat, l: nat, f: File, x: Entry)
    requires l < |v| && FilesOk(v[l]) && f in v[l] && x in f.entries && IsBaseLevel(v, level, x.key.user)
    ensures l < level + 2
  {
    var i :| 0 <= i < |v[l]| && v[l][i] == f;
    EntryBounds(f, x);
  }

  lemma MarkerLevel(c: Job, i: nat, m: nat, l: nat, f: File, x: Entry)
    requires JobOk(c) && i < |c.input| && Obsolete(c.before, c.level, c.input[i], c.smallestSnapshot)
    requires m == c.level || m == c.level + 1
    requires c.input[i] in LevelEntries(if m == c.level then c.in0 else c.in1)
    requires c.input[i] in LevelEntries(c.before[m])
    requires l < NUM_LEVELS && f in c.before[l] && x in f.entries && x in LevelEntries(c.before[l])
    requires (l == c.level ==> f !in c.in0) && (l == c.level + 1 ==> f !in c.in1)
    requires x.key.user == c.input[i].key.user && x.key.sn < c.input[i].key.sn
    ensures l == c.level + 1 && m == c.level + 1
  {
    OlderIsDeeper(c.before, l, m, x, c.input[i]);
    NothingAtBase(c.before, c.level, l, f, x);
    if m == c.level {
      if l == c.level {
        LeftAtLevelIsNewer(c.before[l], c.in0, f, x, c.input[i]);
      } else {
        LeftAtNextLevelIsElsewhere(c, f, x, c.input[i]);
      }
    }
  }

  // ----- the theorem -----

  ghost predicate KeyPreserved(c: Job, u: UserKey) {
    forall s: nat :: s >= c.smallestSnapshot ==>
      Read(VersionEntries(c.after), u, s) == Read(VersionEntries(c.before), u, s)
  }

  ghost predicate ReadsPreserved(c: Job) {
    forall u :: KeyPreserved(c, u)
  }

  // Dropping the marker of `u` uncovers a value in a file left out of the next
  // level: the newest entry of `u` for the smallest snapshot is a marker in the
  // next-level inputs with nothing below, and the left-out files still hold a value.
  // This is settled when the inputs are picked.
  ghost predicate Uncovers(before: Version, level: nat, in1: Level, smallestSnapshot: nat, u: UserKey) {
    var newest := Newest(VersionEntries(before), u, smallestSnapshot);
    && level + 1 < |before|
    && newest.Some?
    && newest.value.key.kind == Deletion
    && newest.value in LevelEntries(in1)
    && IsBaseLevel(before, level, u)
    && Read(LeftEntries(before[level + 1], in1), u, smallestSnapshot).Some?
  }

  // A read: a user key and a sequence number.
  type Point = (UserKey, nat)

  // The reads that change: those of an uncovered user key whose newest entry is
  // the dropped marker.
  ghost function Uncovered(before: Version, level: nat, in1: Level, smallestSnapshot: nat): iset<Point> {
    iset p: Point | Spoils(before, level, in1, smallestSnapshot, p.0, p.1)
  }

  ghost predicate Spoils(before: Version, level: nat, in1: Level, smallestSnapshot: nat, u: UserKey, s: nat) {
    && Uncovers(before, level, in1, smallestSnapshot, u) && s >= smallestSnapshot
    && Newest(VersionEntries(before), u, s) == Newest(VersionEntries(before), u, smallestSnapshot)
  }

  ghost predicate Resurrects(c: Job, u: UserKey) {
    Uncovers(c.before, c.level, c.in1, c.smallestSnapshot, u)
  }

  ghost predicate ResurrectsAt(c: Job, u: UserKey, s: nat) {
    Spoils(c.before, c.level, c.in1, c.smallestSnapshot, u, s)
  }

  lemma AfterDistinct(c: Job)
    requires JobOk(c)
    ensures VersionEntries(c.after) <= VersionEntries(c.before)
    ensures Distinct(VersionEntries(c.after))
    ensures Left(c) <= VersionEntries(c.after) && Distinct(Left(c))
  {
    forall x | x in VersionEntries(c.after) ensures x in VersionEntries(c.before) {
      SurvivorsForward(c, x);
    }
    forall x | x in Left(c) ensures x in VersionEntries(c.after) {
      var next := NextLevel(c);
      var i :| 0 <= i < |next| && next[i] !in c.in1 && x in next[i].entries;
      InLevel(c.after[c.level + 1], next[i], x);
      LevelMember(c.after, c.level + 1, x);
    }
    DistinctSubset(VersionEntries(c.after), VersionEntries(c.before));
    DistinctSubset(Left(c), VersionEntries(c.before));
  }

  lemma HidingEntry(c: Job, i: nat) returns (x: Entry)
    requires JobOk(c) && i < |c.input| && Hidden(c.input, i, c.smallestSnapshot)
    ensures x in VersionEntries(c.before) && x.key.user == c.input[i].key.user
    ensures c.input[i].key.sn < x.key.sn <= c.smallestSnapshot
  {
    hide JobOk, VersionEntries, LevelEntries, Distinct, Less, Sorted;
    x := c.input[i - 1];
    var m := InputMember(c, i - 1);
    var n := InputMember(c, i);
    BeforeDistinct(c);
    InputSorted(c);
    SortedPair(c.input, i - 1, i);
    NextIsOlder(VersionEntries(c.before), x, c.input[i]);
  }

  lemma NextIsOlder(es: set<Entry>, x: Entry, y: Entry)
    requires Distinct(es) && x in es && y in es && x.key.user == y.key.user && Less(x.key, y.key)
    ensures y.key.sn < x.key.sn
  {
  }

  // The newest entry, if dropped, is an obsolete marker.
  lemma NewestDroppedIsObsolete(c: Job, u: UserKey, s: nat, e: Entry) returns (i: nat)
    requires JobOk(c) && s >= c.smallestSnapshot
    requires IsNewest(VersionEntries(c.before), u, s, e) && e !in VersionEntries(c.after)
    ensures i < |c.input| && c.input[i] == e && Obsolete(c.before, c.level, e, c.smallestSnapshot)
    ensures e.key.sn <= c.smallestSnapshot && e.key.user == u
  {
    i := DroppedIndex(c, e);
    if Hidden(c.input, i, c.smallestSnapshot) {
      var x := HidingEntry(c, i);
      assert Visible(VersionEntries(c.before), u, s, x);
    }
  }

  lemma DroppedIndex(c: Job, e: Entry) returns (i: nat)
    requires JobOk(c) && e in VersionEntries(c.before) && e !in VersionEntries(c.after)
    ensures i < |c.input| && c.input[i] == e && Dropped(c.before, c.level, c.input, i, c.smallestSnapshot)
  {
    if !IsDropped(c, e) {
      SurvivorsBackward(c, e);
    }
    i :| 0 <= i < |c.input| && c.input[i] == e && Dropped(c.before, c.level, c.input, i, c.smallestSnapshot);
  }

  // With the marker gone, a reader sees what the left-out files show.
  lemma MarkerGone(c: Job, u: UserKey, s: nat, i: nat)
    requires JobOk(c) && s >= c.smallestSnapshot && i < |c.input|
    requires Obsolete(c.before, c.level, c.input[i], c.smallestSnapshot)
    requires IsNewest(VersionEntries(c.before), u, s, c.input[i]) && c.input[i] !in VersionEntries(c.after)
    ensures Newest(VersionEntries(c.after), u, s) ==
            if c.input[i] in LevelEntries(c.in1) then Newest(Left(c), u, c.smallestSnapshot) else None
  {
    AfterDistinct(c);
    var e := c.input[i];
    forall x | Visible(VersionEntries(c.after), u, s, x)
      ensures Visible(Left(c), u, c.smallestSnapshot, x) && e in LevelEntries(c.in1)
    {
      assert Visible(VersionEntries(c.before), u, s, x);
      assert Visible(VersionEntries(c.before), u, s, e);
      assert x.key.sn < e.key.sn;
      MarkerHidesOnlyLeft(c, i, x);
    }
    if e in LevelEntries(c.in1) {
      SameVisible(VersionEntries(c.after), s, Left(c), c.smallestSnapshot, u);
    } else {
      NothingVisible(VersionEntries(c.after), u, s);
    }
  }

  lemma SameVisible(a: set<Entry>, s: nat, b: set<Entry>, t: nat, u: UserKey)
    requires Distinct(a) && Distinct(b)
    requires forall x :: Visible(a, u, s, x) <==> Visible(b, u, t, x)
    ensures Newest(a, u, s) == Newest(b, u, t)
  {
    if x :| Visible(a, u, s, x) {
      NewestExists(a, u, s, x);
      var e := Newest(a, u, s).value;
      assert IsNewest(b, u, t, e);
      NewestIs(b, u, t, e);
    } else {
      NothingVisible(a, u, s);
      NothingVisible(b, u, t);
    }
  }

  // Removing entries other than the newest changes no read.
  lemma SubsetRead(before: set<Entry>, after: set<Entry>, u: UserKey, s: nat)
    requires Distinct(before) && after <= before
    requires Newest(before, u, s).Some? ==> Newest(before, u, s).value in after
    ensures Newest(after, u, s) == Newest(before, u, s)
  {
    DistinctSubset(after, before);
    if Newest(before, u, s).Some? {
      var e := Newest(before, u, s).value;
      assert IsNewest(before, u, s, e);
      assert Visible(after, u, s, e);
      assert IsNewest(after, u, s, e);
      NewestIs(after, u, s, e);
    } else {
      forall x ensures !Visible(after, u, s, x) {
        if Visible(after, u, s, x) {
          NewestExists(before, u, s, x);
        }
      }
      NothingVisible(after, u, s);
    }
  }

  lemma NewestEarlier(es: set<Entry>, u: UserKey, s: nat, t: nat, e: Entry)
    requires Distinct(es) && IsNewest(es, u, s, e) && e.key.sn <= t <= s
    ensures Newest(es, u, t) == Some(e)
  {
    assert forall x :: Visible(es, u, t, x) ==> Visible(es, u, s, x);
    assert IsNewest(es, u, t, e);
    NewestIs(es, u, t, e);
  }

  lemma BeforeDistinct(c: Job)
    requires JobOk(c)
    ensures Distinct(VersionEntries(c.before))
  {
  }

  lemma PreservedAt(c: Job, u: UserKey, s: nat)
    requires JobOk(c) && s >= c.smallestSnapshot && !ResurrectsAt(c, u, s)
    ensures Read(VersionEntries(c.after), u, s) == Read(VersionEntries(c.before), u, s)
  {
    hide JobOk, VersionEntries;
    AfterDistinct(c);
    BeforeDistinct(c);
    var newest := Newest(VersionEntries(c.before), u, s);
    if newest.None? || newest.value in VersionEntries(c.after) {
      SubsetRead(VersionEntries(c.before), VersionEntries(c.after), u, s);
    } else {
      MarkerDroppedHarmlessly(c, u, s, newest.value);
    }
  }

  lemma JobLevels(c: Job)
    requires JobOk(c)
    ensures c.level + 1 < |c.before| == NUM_LEVELS
  {
  }

  lemma MarkerDroppedHarmlessly(c: Job, u: UserKey, s: nat, e: Entry)
    requires JobOk(c) && s >= c.smallestSnapshot && !ResurrectsAt(c, u, s)
    requires IsNewest(VersionEntries(c.before), u, s, e) && e !in VersionEntries(c.after)
    ensures e.key.kind == Deletion && Read(VersionEntries(c.after), u, s) == None
  {
    hide JobOk, VersionEntries, LevelEntries, LeftEntries, IsBaseLevel, Distinct, IsNewest, Visible, Newest;
    BeforeDistinct(c);
    JobLevels(c);
    var i := NewestDroppedIsObsolete(c, u, s, e);
    MarkerGone(c, u, s, i);
    NewestIs(VersionEntries(c.before), u, s, e);
    NewestEarlier(VersionEntries(c.before), u, s, c.smallestSnapshot, e);
  }

  lemma ResurrectionShows(c: Job, u: UserKey, s: nat)
    requires JobOk(c) && ResurrectsAt(c, u, s)
    ensures Read(VersionEntries(c.after), u, s) != Read(VersionEntries(c.before), u, s)
  {
    AfterDistinct(c);
    var e := Newest(VersionEntries(c.before), u, s).value;
    assert IsNewest(VersionEntries(c.before), u, s, e) && e.key.sn <= c.smallestSnapshot;
    assert e in ToSet(c.input);
    var i :| 0 <= i < |c.input| && c.input[i] == e;
    assert Dropped(c.before, c.level, c.input, i, c.smallestSnapshot);
    if e in VersionEntries(c.after) {
      SurvivorsForward(c, e);
    }
    MarkerGone(c, u, s, i);
  }

  lemma PreservedExactly(c: Job, u: UserKey, s: nat)
    requires JobOk(c) && s >= c.smallestSnapshot
    ensures Read(VersionEntries(c.after), u, s) == Read(VersionEntries(c.before), u, s) <==> !ResurrectsAt(c, u, s)
  {
    hide JobOk, ResurrectsAt, Read, VersionEntries;
    if ResurrectsAt(c, u, s) {
      ResurrectionShows(c, u, s);
    } else {
      PreservedAt(c, u, s);
    }
  }

  lemma ResurrectsSomewhere(c: Job, u: UserKey)
    ensures Resurrects(c, u) <==> ResurrectsAt(c, u, c.smallestSnapshot)
    ensures forall s: nat :: ResurrectsAt(c, u, s) ==> Resurrects(c, u)
  {
    hide Uncovers;
  }

  // A compaction preserves a read at or above the smallest snapshot exactly when
  // the newest entry it sees is not a marker that the compaction drops to uncover
  // a value; and all of them exactly when there is no such marker.
  lemma CompactionPreservesReads(c: Job)
    requires JobOk(c)
    ensures forall u, s: nat :: s >= c.smallestSnapshot ==>
      (Read(VersionEntries(c.after), u, s) == Read(VersionEntries(c.before), u, s) <==> !ResurrectsAt(c, u, s))
    ensures ReadsPreserved(c) <==> forall u :: !Resurrects(c, u)
  {
    hide JobOk, Resurrects, ResurrectsAt, Read, VersionEntries;
    forall u, s: nat | s >= c.smallestSnapshot
      ensures Read(VersionEntries(c.after), u, s) == Read(VersionEntries(c.before), u, s) <==> !ResurrectsAt(c, u, s)
    {
      PreservedExactly(c, u, s);
    }
    forall u ensures KeyPreserved(c, u) <==> !Resurrects(c, u) {
      ResurrectsSomewhere(c, u);
      assert Read(VersionEntries(c.after), u, c.smallestSnapshot) ==
        Read(VersionEntries(c.before), u, c.smallestSnapshot)
        <==> !ResurrectsAt(c, u, c.smallestSnapshot);
    }
  }

  // The check that the source makes at the level but not at the next level is
  // enough: no boundary file continues the next-level inputs.
  lemma SealedNextLevelPreserves(c: Job)
    requires JobOk(c) && NoBoundary(NextLevel(c), c.in1)
    ensures ReadsPreserved(c)
  {
    NextLevelLeavesNothingOlder(c);
    forall u ensures !Resurrects(c, u) {
      if Resurrects(c, u) {
        var e := Newest(VersionEntries(c.before), u, c.smallestSnapshot).value;
        LeftHidesNothing(c, u, e);
      }
    }
    CompactionPreservesReads(c);
  }

  lemma NextLevelLeavesNothingOlder(c: Job)
    requires JobOk(c) && NoBoundary(NextLevel(c), c.in1)
    ensures LeavesNothingOlder(NextLevel(c), c.in1)
  {
    NextInputs(c);
    hide JobOk, NoBoundary, IsRun, FilesOk, Disjoint, Distinct, LeavesNothingOlder, NextLevel;
    if c.in1 == [] {
      NothingIsOlder(NextLevel(c));
    } else {
      SealedRunLeavesNothingOlder(NextLevel(c), c.in1);
    }
  }

  // The inputs of the next level are a run of it.
  lemma NextInputs(c: Job)
    requires JobOk(c)
    ensures FilesOk(NextLevel(c)) && Disjoint(NextLevel(c)) && Distinct(LevelEntries(NextLevel(c)))
    ensures c.in1 == [] || IsRun(NextLevel(c), c.in1)
  {
    hide Kept, Sorted, ToSet, VersionEntries, Replaced, FilesOk, Disjoint, Distinct, LevelsOrdered, RecencyByNumber,
      LeavesNothingOlder, InRange, Meeting, IsRun;
    MeetingIsRun(c.before[c.level + 1], c.lo, c.hi);
    PartsDistinct(c.before, c.level + 1);
  }

  lemma NothingIsOlder(files: Level)
    ensures LeavesNothingOlder(files, [])
  {
    assert LevelEntries([]) == {};
  }

  lemma LeftHidesNothing(c: Job, u: UserKey, e: Entry)
    requires JobOk(c) && LeavesNothingOlder(NextLevel(c), c.in1)
    requires IsNewest(VersionEntries(c.before), u, c.smallestSnapshot, e) && e in LevelEntries(c.in1)
    ensures Read(Left(c), u, c.smallestSnapshot) == None
  {
    hide JobOk, VersionEntries, LevelEntries;
    AfterDistinct(c);
    var next := NextLevel(c);
    forall x ensures !Visible(Left(c), u, c.smallestSnapshot, x) {
      if Visible(Left(c), u, c.smallestSnapshot, x) {
        var i :| 0 <= i < |next| && next[i] !in c.in1 && x in next[i].entries;
        LeftAtLevelIsNewer(next, c.in1, next[i], x, e);
      }
    }
    NothingVisible(Left(c), u, c.smallestSnapshot);
  }
}
