// The level invariant over the three background steps: compaction, trivial
// move and memtable flush (db/version_set.cc, db/db_impl.cc).
module LevelInvariant {
  import opened Keys
  import opened Versions
  import opened Inputs
  import opened Picking
  import opened Builders
  import opened Preservation

  // Inputs of a level and the next level replaced by tables of the next level.
  datatype Swap = Swap(before: Version, level: nat, in0: Level, in1: Level, lo: UserKey, hi: UserKey,
                       outputs: Level, after: Version)

  ghost predicate SwapOk(c: Swap) {
    && VersionOk(c.before)
    && Picked(c.before, c.level, c.in0, c.in1, c.lo, c.hi)
    && Replaced(c.before, c.level, c.in0, c.in1, c.outputs, c.after)
    && FilesOk(c.outputs) && Disjoint(c.outputs)
    && LevelEntries(c.outputs) <= LevelEntries(c.in0) + LevelEntries(c.in1)
    && forall l :: 0 <= l < NUM_LEVELS ==> SortedFiles(c.after[l])
  }

  // An entry of the new version was in the same level, or moved down one.
  ghost predicate Origin(c: Swap, l: nat, x: Entry, m: nat) {
    && m < |c.before| && x in LevelEntries(c.before[m])
    && (m == l || (l == c.level + 1 && m == c.level && x in LevelEntries(c.in0)))
  }

  lemma OutputOrigin(c: Swap, x: Entry) returns (m: nat)
    requires SwapOk(c) && x in LevelEntries(c.outputs)
    ensures Origin(c, c.level + 1, x, m)
  {
    m := if x in LevelEntries(c.in0) then c.level else c.level + 1;
    var f := FileOf(if m == c.level then c.in0 else c.in1, x);
    InLevel(c.before[m], f, x);
  }

  lemma EntryOrigin(c: Swap, l: nat, x: Entry) returns (m: nat)
    requires SwapOk(c) && l < |c.after| && x in LevelEntries(c.after[l])
    ensures Origin(c, l, x, m)
    ensures l == c.level ==> exists f :: f in c.before[l] && f !in c.in0 && x in f.entries
  {
    var f := FileOf(c.after[l], x);
    if l == c.level + 1 && f in c.outputs {
      InLevel(c.outputs, f, x);
      m := OutputOrigin(c, x);
    } else {
      m := l;
      InLevel(c.before[l], f, x);
    }
  }

  lemma StaysOrdered(c: Swap, i: nat, j: nat, x: Entry, y: Entry)
    requires SwapOk(c) && i < j < |c.after|
    requires x in LevelEntries(c.after[i]) && y in LevelEntries(c.after[j]) && x.key.user == y.key.user
    ensures x.key.sn > y.key.sn
  {
    var m := EntryOrigin(c, i, x);
    var n := EntryOrigin(c, j, y);
    if m == n {
      var f :| f in c.before[i] && f !in c.in0 && x in f.entries;
      LeftAtLevelIsNewer(c.before[i], c.in0, f, x, y);
    } else {
      assert NewerThan(LevelEntries(c.before[m]), LevelEntries(c.before[n]));
    }
  }

  // ----- the next level stays disjoint -----

  ghost predicate Apart(f: File, g: File) {
    Less(f.largest, g.smallest) || Less(g.largest, f.smallest)
  }

  lemma SortedApartIsDisjoint(files: Level)
    requires FilesOk(files) && SortedFiles(files)
    requires forall f, g :: f in files && g in files && f != g ==> Apart(f, g)
    ensures Disjoint(files)
  {
    forall i, j | 0 <= i < j < |files| ensures Less(files[i].largest, files[j].smallest) {
      assert BySmallest(files[i], files[j]);
      assert files[i] in files && files[j] in files;
      EntryBounds(files[i], files[i].entries[0]);
      EntryBounds(files[j], files[j].entries[0]);
    }
  }

  lemma DisjointApart(files: Level, f: File, g: File)
    requires Disjoint(files) && f in files && g in files && f != g
    ensures Apart(f, g)
  {
    var i :| 0 <= i < |files| && files[i] == f;
    var j :| 0 <= j < |files| && files[j] == g;
  }

  lemma LeftAside(c: Swap, f: File)
    requires SwapOk(c) && f in c.before[c.level + 1] && f !in c.in1
    ensures f.largest.user < c.lo || f.smallest.user > c.hi
    ensures FilesOk(c.before[c.level]) && FilesOk(c.before[c.level + 1]) && Disjoint(c.before[c.level + 1])
    ensures forall g :: g in c.in0 ==> g in c.before[c.level] && c.lo <= g.smallest.user && g.largest.user <= c.hi
    ensures forall g :: g in c.in1 ==> g in c.before[c.level + 1]
  {
    hide LeavesNothingOlder, Replaced, LevelsOrdered, RecencyByNumber, Distinct;
  }

  // Every input entry lies on the same side of a file left out of the next level.
  lemma LeftIsBesideEntry(c: Swap, f: File, x: Entry)
    requires SwapOk(c) && f in c.before[c.level + 1] && f !in c.in1
    requires x in LevelEntries(c.in0) + LevelEntries(c.in1)
    ensures f.largest.user < c.lo ==> Less(f.largest, x.key)
    ensures f.smallest.user > c.hi ==> Less(x.key, f.smallest)
    ensures f.largest.user < c.lo || f.smallest.user > c.hi
  {
    LeftAside(c, f);
    hide SwapOk, FilesOk, Disjoint;
    var next := c.before[c.level + 1];
    KeysOrdered(c.before[c.level]);
    KeysOrdered(next);
    if x in LevelEntries(c.in0) {
      var g := FileOf(c.in0, x);
      EntryBounds(g, x);
    } else {
      var g := FileOf(c.in1, x);
      EntryBounds(g, x);
      DisjointApart(next, f, g);
    }
  }

  lemma OutputApartFromLeft(c: Swap, f: File, g: File)
    requires SwapOk(c) && f in c.before[c.level + 1] && f !in c.in1 && g in c.outputs
    ensures Apart(f, g)
  {
    KeysOrdered(c.outputs);
    var first, last := g.entries[0], g.entries[|g.entries| - 1];
    InLevel(c.outputs, g, first);
    InLevel(c.outputs, g, last);
    LeftIsBesideEntry(c, f, first);
    LeftIsBesideEntry(c, f, last);
  }

  lemma SwapFile(c: Swap, l: nat, f: File)
    requires SwapOk(c) && l < |c.after| && f in c.after[l]
    ensures (l == c.level + 1 && f in c.outputs) ||
            (f in c.before[l] && (l == c.level ==> f !in c.in0) && (l == c.level + 1 ==> f !in c.in1))
    ensures FileOk(f)
  {
    if f in c.before[l] {
      KeysOrdered(c.before[l]);
    } else {
      KeysOrdered(c.outputs);
    }
  }

  lemma StaysDisjoint(c: Swap, l: nat)
    requires SwapOk(c) && 1 <= l < |c.after|
    ensures FilesOk(c.after[l]) && Disjoint(c.after[l])
  {
    forall i | 0 <= i < |c.after[l]| ensures FileOk(c.after[l][i]) {
      SwapFile(c, l, c.after[l][i]);
    }
    forall f, g | f in c.after[l] && g in c.after[l] && f != g ensures Apart(f, g) {
      SwapFile(c, l, f);
      SwapFile(c, l, g);
      if l == c.level + 1 && f in c.outputs {
        if g in c.outputs {
          DisjointApart(c.outputs, f, g);
        } else {
          OutputApartFromLeft(c, g, f);
        }
      } else if l == c.level + 1 && g in c.outputs {
        OutputApartFromLeft(c, f, g);
      } else {
        DisjointApart(c.before[l], f, g);
      }
    }
    SortedApartIsDisjoint(c.after[l]);
  }

  lemma StaysRecent(c: Swap)
    requires SwapOk(c)
    ensures FilesOk(c.after[0]) && RecencyByNumber(c.after[0])
  {
    forall f | f in c.after[0] ensures FileOk(f) && f in c.before[0] {
      SwapFile(c, 0, f);
    }
  }

  lemma StaysDistinct(c: Swap)
    requires SwapOk(c)
    ensures VersionEntries(c.after) <= VersionEntries(c.before) && Distinct(VersionEntries(c.after))
  {
    forall x | x in VersionEntries(c.after) ensures x in VersionEntries(c.before) {
      var l :| 0 <= l < |c.after| && x in LevelEntries(c.after[l]);
      var m := EntryOrigin(c, l, x);
      LevelMember(c.before, m, x);
    }
    DistinctSubset(VersionEntries(c.after), VersionEntries(c.before));
  }

  lemma StaysLevelsOrdered(c: Swap)
    requires SwapOk(c)
    ensures LevelsOrdered(c.after)
  {
    hide SwapOk;
    forall i, j, x, y | 0 <= i < j < |c.after| && x in LevelEntries(c.after[i]) && y in LevelEntries(c.after[j])
                        && x.key.user == y.key.user
      ensures x.key.sn > y.key.sn
    {
      StaysOrdered(c, i, j, x, y);
    }
  }

  // Compactions and trivial moves keep the level invariant.
  lemma SwapKeepsInvariant(c: Swap)
    requires SwapOk(c)
    ensures VersionOk(c.after)
  {
    assert |c.after| == NUM_LEVELS;
    hide SwapOk, FilesOk, Disjoint, RecencyByNumber, LevelsOrdered, Distinct;
    forall l | 1 <= l < NUM_LEVELS ensures FilesOk(c.after[l]) && Disjoint(c.after[l]) {
      StaysDisjoint(c, l);
    }
    StaysRecent(c);
    StaysDistinct(c);
    StaysLevelsOrdered(c);
  }

  // ----- flushing a memtable -----

  // AfterFile and BeforeFile combined: does any file meet the user-key range?
  method SomeFileOverlapsRange(disjointSorted: bool, files: Level, smallest: Option<UserKey>, largest: Option<UserKey>)
    returns (r: bool)
    requires FilesOk(files) && (disjointSorted ==> Disjoint(files))
    ensures r <==> exists f :: f in files && Meets(f, smallest, largest)
  {
    if !disjointSorted {
      for i := 0 to |files|
        invariant forall j :: 0 <= j < i ==> !Meets(files[j], smallest, largest)
      {
        if !((smallest.Some? && smallest.value > files[i].largest.user) ||
             (largest.Some? && largest.value < files[i].smallest.user)) {
          assert files[i] in files;
          return true;
        }
      }
      return false;
    }
    DisjointLargest(files);
    var index := 0;
    if smallest.Some? {
      index := FindFile(files, SeekKey(smallest.value, MAX_SEQUENCE));
    }
    if index >= |files| {
      return false;
    }
    r := !(largest.Some? && largest.value < files[index].smallest.user);
    if r {
      assert Meets(files[index], smallest, largest);
    }
  }

  ghost predicate NoneMeets(files: Level, lo: UserKey, hi: UserKey) {
    forall f :: f in files ==> !Meets(f, Some(lo), Some(hi))
  }

  // Why a table goes no deeper: it meets a file of its level, which can only be
  // level 0, or of the next, or too many bytes of the one after.
  ghost predicate StaysHere(v: Version, level: nat, lo: UserKey, hi: UserKey, limit: nat)
    requires level + 2 < |v|
  {
    || (level == 0 && !NoneMeets(v[0], lo, hi))
    || !NoneMeets(v[level + 1], lo, hi)
    || TotalFileSize(Meeting(v[level + 2], Some(lo), Some(hi))) > limit
  }

  // PickLevelForMemTableOutput: a table may go below level 0 only past levels
  // that it does not overlap. `limit` stands for the grandparent byte limit.
  method PickLevelForMemTableOutput(v: Version, lo: UserKey, hi: UserKey, limit: nat) returns (level: nat)
    requires VersionOk(v)
    ensures level <= 2
    ensures level == 0 || forall l :: 0 <= l <= level ==> NoneMeets(v[l], lo, hi)
    ensures level < 2 ==> StaysHere(v, level, lo, hi, limit)
  {
    hide VersionOk, FilesOk, Disjoint, Meets, TotalFileSize, Meeting;
    LevelsOk(v);
    level := 0;
    var overlaps := SomeFileOverlapsRange(false, v[0], Some(lo), Some(hi));
    if !overlaps {
      while level < 2
        invariant level <= 2
        invariant forall l :: 0 <= l <= level ==> NoneMeets(v[l], lo, hi)
      {
        overlaps := SomeFileOverlapsRange(true, v[level + 1], Some(lo), Some(hi));
        if overlaps {
          break;
        }
        KeysOrdered(v[level + 2]);
        var grandparents, _, _ := GetOverlappingInputs(level + 2, v[level + 2], Some(lo), Some(hi));
        if TotalFileSize(grandparents) > limit {
          break;
        }
        level := level + 1;
      }
    }
  }

  lemma LevelsOk(v: Version)
    requires VersionOk(v)
    ensures |v| == NUM_LEVELS && forall l :: 0 <= l < |v| ==> FilesOk(v[l]) && (l > 0 ==> Disjoint(v[l]))
  {
  }

  // No entry of the files shares a user key with the table.
  ghost predicate Elsewhere(files: Level, table: File) {
    forall x, y :: x in LevelEntries(files) && y in table.entries ==> x.key.user != y.key.user
  }

  // A table of newer entries than all others, put where PickLevel allows: clear
  // of the files of its level, and past levels that have none of its user keys.
  datatype Flush = Flush(before: Version, level: nat, table: File, after: Version)

  ghost predicate FlushOk(c: Flush) {
    && VersionOk(c.before) && |c.after| == NUM_LEVELS && c.level < NUM_LEVELS
    && FileOk(c.table) && Distinct(ToSet(c.table.entries))
    && NewerThan(ToSet(c.table.entries), VersionEntries(c.before))
    && (forall f :: f in c.before[0] ==> f.number < c.table.number)
    && (c.level > 0 ==> NoneMeets(c.before[c.level], c.table.smallest.user, c.table.largest.user))
    && (forall l :: 0 <= l < c.level ==> Elsewhere(c.before[l], c.table))
    && (forall l :: 0 <= l < NUM_LEVELS ==> SortedFiles(c.after[l]))
    && forall l, f :: 0 <= l < NUM_LEVELS ==> (f in c.after[l] <==> f in c.before[l] || (l == c.level && f == c.table))
  }

  lemma FlushFile(c: Flush, l: nat, f: File)
    requires FlushOk(c) && l < NUM_LEVELS && f in c.after[l]
    ensures FileOk(f) && (f in c.before[l] || (l == c.level && f == c.table))
  {
    KeysOrdered(c.before[l]);
  }

  lemma FlushEntry(c: Flush, l: nat, x: Entry)
    requires FlushOk(c) && l < NUM_LEVELS && x in LevelEntries(c.after[l])
    ensures x in LevelEntries(c.before[l]) || (l == c.level && x in c.table.entries)
  {
    var f := FileOf(c.after[l], x);
    if f in c.before[l] {
      InLevel(c.before[l], f, x);
    }
  }

  // Files that the range of the table does not meet have none of its user keys.
  lemma NoneMeetsElsewhere(files: Level, table: File)
    requires FilesOk(files) && FileOk(table) && NoneMeets(files, table.smallest.user, table.largest.user)
    ensures Elsewhere(files, table)
  {
    KeysOrdered(files);
    forall x, y | x in LevelEntries(files) && y in table.entries ensures x.key.user != y.key.user {
      var f := FileOf(files, x);
      EntryBounds(f, x);
      EntryBounds(table, y);
      assert !Meets(f, Some(table.smallest.user), Some(table.largest.user));
    }
  }

  lemma FlushStaysOrdered(c: Flush, i: nat, j: nat, x: Entry, y: Entry)
    requires FlushOk(c) && i < j < NUM_LEVELS
    requires x in LevelEntries(c.after[i]) && y in LevelEntries(c.after[j]) && x.key.user == y.key.user
    ensures x.key.sn > y.key.sn
  {
    hide SortedFiles, FileOk, FilesOk, Disjoint, RecencyByNumber, VersionEntries, NoneMeets, LevelEntries, Distinct;
    FlushEntry(c, i, x);
    FlushEntry(c, j, y);
    if x in LevelEntries(c.before[i]) {
      assert Elsewhere(c.before[i], c.table) || j != c.level;
      assert y in LevelEntries(c.before[j]);
      assert NewerThan(LevelEntries(c.before[i]), LevelEntries(c.before[j]));
    } else {
      assert x in ToSet(c.table.entries);
      LevelMember(c.before, j, y);
    }
  }

  lemma FlushStaysDisjoint(c: Flush, l: nat)
    requires FlushOk(c) && 1 <= l < NUM_LEVELS
    ensures FilesOk(c.after[l]) && Disjoint(c.after[l])
  {
    forall i | 0 <= i < |c.after[l]| ensures FileOk(c.after[l][i]) {
      FlushFile(c, l, c.after[l][i]);
    }
    forall f, g | f in c.after[l] && g in c.after[l] && f != g ensures Apart(f, g) {
      FlushFile(c, l, f);
      FlushFile(c, l, g);
      if f in c.before[l] && g in c.before[l] {
        DisjointApart(c.before[l], f, g);
      } else {
        assert NoneMeets(c.before[l], c.table.smallest.user, c.table.largest.user);
      }
    }
    SortedApartIsDisjoint(c.after[l]);
  }

  lemma FlushRecentPair(c: Flush, f: File, g: File)
    requires FlushOk(c) && f in c.after[0] && g in c.after[0]
    ensures f.number == g.number ==> f == g
    ensures f.number > g.number ==> NewerThan(ToSet(f.entries), ToSet(g.entries))
  {
    FlushFile(c, 0, f);
    FlushFile(c, 0, g);
    if g in c.before[0] && f !in c.before[0] {
      forall y | y in g.entries ensures y in VersionEntries(c.before) {
        InLevel(c.before[0], g, y);
        LevelMember(c.before, 0, y);
      }
    }
  }

  lemma FlushStaysRecent(c: Flush)
    requires FlushOk(c)
    ensures FilesOk(c.after[0]) && RecencyByNumber(c.after[0])
  {
    forall i | 0 <= i < |c.after[0]| ensures FileOk(c.after[0][i]) {
      FlushFile(c, 0, c.after[0][i]);
    }
    hide NewerThan;
    forall f, g | f in c.after[0] && g in c.after[0]
      ensures f.number == g.number ==> f == g
      ensures f.number > g.number ==> NewerThan(ToSet(f.entries), ToSet(g.entries))
    {
      FlushRecentPair(c, f, g);
    }
  }

  lemma FlushEntries(c: Flush)
    requires FlushOk(c)
    ensures VersionEntries(c.after) == VersionEntries(c.before) + ToSet(c.table.entries)
    ensures Distinct(VersionEntries(c.after))
  {
    forall x | x in VersionEntries(c.after) ensures x in VersionEntries(c.before) + ToSet(c.table.entries) {
      var l :| 0 <= l < |c.after| && x in LevelEntries(c.after[l]);
      FlushEntry(c, l, x);
      if x in LevelEntries(c.before[l]) {
        LevelMember(c.before, l, x);
      }
    }
    forall x | x in VersionEntries(c.before) ensures x in VersionEntries(c.after) {
      var l :| 0 <= l < |c.before| && x in LevelEntries(c.before[l]);
      var f := FileOf(c.before[l], x);
      InLevel(c.after[l], f, x);
      LevelMember(c.after, l, x);
    }
    forall x | x in c.table.entries ensures x in VersionEntries(c.after) {
      InLevel(c.after[c.level], c.table, x);
      LevelMember(c.after, c.level, x);
    }
    DistinctUnion(ToSet(c.table.entries), VersionEntries(c.before), VersionEntries(c.after));
  }

  lemma DistinctUnion(a: set<Entry>, b: set<Entry>, all: set<Entry>)
    requires Distinct(a) && Distinct(b) && NewerThan(a, b) && all == a + b
    ensures Distinct(all)
  {
  }

  lemma FlushStaysLevelsOrdered(c: Flush)
    requires FlushOk(c)
    ensures LevelsOrdered(c.after)
  {
    assert |c.after| == NUM_LEVELS;
    hide FlushOk;
    forall i, j, x, y | 0 <= i < j < |c.after| && x in LevelEntries(c.after[i]) && y in LevelEntries(c.after[j])
                        && x.key.user == y.key.user
      ensures x.key.sn > y.key.sn
    {
      FlushStaysOrdered(c, i, j, x, y);
    }
  }

  // A flush, to whichever level, keeps the level invariant and only adds entries.
  lemma FlushKeepsInvariant(c: Flush)
    requires FlushOk(c)
    ensures VersionOk(c.after)
    ensures VersionEntries(c.after) == VersionEntries(c.before) + ToSet(c.table.entries)
  {
    assert |c.after| == NUM_LEVELS;
    hide FlushOk, FilesOk, Disjoint, RecencyByNumber, LevelsOrdered, Distinct, VersionEntries;
    forall l | 1 <= l < NUM_LEVELS ensures FilesOk(c.after[l]) && Disjoint(c.after[l]) {
      FlushStaysDisjoint(c, l);
    }
    FlushStaysRecent(c);
    FlushEntries(c);
    FlushStaysLevelsOrdered(c);
  }
}
