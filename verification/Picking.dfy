// Setting up a compaction: the inputs at the level and at the next level
// (db/version_set.cc, PickCompaction, CompactRange and SetupOtherInputs).
module Picking {
  import opened Keys
  import opened Versions
  import opened Inputs

  // No file left out of the level holds an older entry of an input's user key.
  ghost predicate LeavesNothingOlder(files: Level, inputs: Level) {
    forall g :: g in files && g !in inputs ==> NewerThan(ToSet(g.entries), LevelEntries(inputs))
  }

  ghost predicate InRange(inputs: Level, lo: UserKey, hi: UserKey) {
    forall f :: f in inputs ==> lo <= f.smallest.user && f.largest.user <= hi
  }

  // What every compaction the store picks satisfies.
  ghost predicate Picked(v: Version, level: nat, in0: Level, in1: Level, lo: UserKey, hi: UserKey) {
    && level + 1 < NUM_LEVELS == |v|
    && in0 != []
    && (forall f :: f in in0 ==> f in v[level])
    && LeavesNothingOlder(v[level], in0)
    && InRange(in0, lo, hi)
    && in1 == Meeting(v[level + 1], Some(lo), Some(hi))
  }

  // Where a pick starts from: an overlap-closed set in level 0, else a run.
  ghost predicate StartOk(files: Level, level: nat, in0: Level) {
    && in0 != []
    && (level == 0 ==> exists b, e :: Closed(files, b, e) && in0 == Meeting(files, b, e))
    && (level > 0 ==> IsRun(files, in0))
  }

  lemma KeysOrdered(files: Level)
    requires FilesOk(files)
    ensures forall f :: f in files ==> FileOk(f) && f.smallest.user <= f.largest.user
  {
    forall f | f in files ensures FileOk(f) && f.smallest.user <= f.largest.user {
      EntryBounds(f, f.entries[0]);
    }
  }

  lemma InputEntry(inputs: Level, x: Entry) returns (f: File)
    requires x in LevelEntries(inputs)
    ensures f in inputs && x in f.entries
  {
    var k :| 0 <= k < |inputs| && x in inputs[k].entries;
    f := inputs[k];
  }

  // ----- level 0 -----

  lemma ClosedLeavesNothingOlder(files: Level, b: Option<UserKey>, e: Option<UserKey>)
    requires FilesOk(files) && Closed(files, b, e)
    ensures LeavesNothingOlder(files, Meeting(files, b, e))
    ensures forall f :: f in files ==> !Continues(Meeting(files, b, e), f)
  {
    hide FileOk, FilesOk;
    var inputs := Meeting(files, b, e);
    KeysOrdered(files);
    assert forall f :: f in inputs ==> Inside(f, b, e);
    forall g, x, y | g in files && g !in inputs && x in g.entries && y in LevelEntries(inputs) &&
      x.key.user == y.key.user
      ensures false
    {
      var f := InputEntry(inputs, y);
      EntryBounds(f, y);
      EntryBounds(g, x);
    }
  }

  // ----- deeper levels -----

  // In a sorted level the files that meet a range stand side by side.
  lemma {:induction false} MeetingBounds(files: Level, lo: UserKey, hi: UserKey) returns (a: nat, b: nat)
    requires FilesOk(files) && Disjoint(files)
    ensures a <= b <= |files| && Meeting(files, Some(lo), Some(hi)) == files[a..b]
  {
    hide FilesOk, Disjoint, Meets, Meeting;
    NothingMeets(lo, hi);
    if files == [] {
      a, b := 0, 0;
    } else {
      var n := |files| - 1;
      PrefixOk(files, n);
      MeetingLast(files, lo, hi);
      a, b := MeetingBounds(files[..n], lo, hi);
      assert files[..n][a..b] == files[a..b];
      if Meets(files[n], Some(lo), Some(hi)) {
        if a < b {
          RunReachesEnd(files, a, b, lo, hi);
        } else {
          a := n;
        }
        b := n + 1;
        assert files[a..b] == files[a..n] + [files[n]];
      }
    }
  }

  lemma NothingMeets(lo: UserKey, hi: UserKey)
    ensures Meeting([], Some(lo), Some(hi)) == []
  {
  }

  lemma MeetingLast(files: Level, lo: UserKey, hi: UserKey)
    requires files != []
    ensures Meeting(files, Some(lo), Some(hi)) ==
      Meeting(files[..|files| - 1], Some(lo), Some(hi)) +
        if Meets(files[|files| - 1], Some(lo), Some(hi)) then [files[|files| - 1]] else []
  {
  }

  lemma PrefixOk(files: Level, n: nat)
    requires FilesOk(files) && Disjoint(files) && n <= |files|
    ensures FilesOk(files[..n]) && Disjoint(files[..n])
  {
  }

  lemma RunReachesEnd(files: Level, a: nat, b: nat, lo: UserKey, hi: UserKey)
    requires FilesOk(files) && Disjoint(files) && a < b < |files|
    requires Meeting(files[..|files| - 1], Some(lo), Some(hi)) == files[a..b]
    requires Meets(files[|files| - 1], Some(lo), Some(hi))
    ensures b == |files| - 1
  {
    assert files[a..b][b - 1 - a] == files[b - 1];
    AllBetweenMeet(files, b - 1, lo, hi);
  }

  lemma AllBetweenMeet(files: Level, b: nat, lo: UserKey, hi: UserKey)
    requires FilesOk(files) && Disjoint(files) && b < |files|
    requires Meets(files[b], Some(lo), Some(hi)) && Meets(files[|files| - 1], Some(lo), Some(hi))
    ensures forall k :: b <= k < |files| ==> Meets(files[k], Some(lo), Some(hi))
    ensures forall i, j :: 0 <= i < j < |files| ==> files[i] != files[j]
  {
    forall k | 0 <= k < |files| ensures FileOk(files[k]) && files[k].smallest.user <= files[k].largest.user {
      EntryBounds(files[k], files[k].entries[0]);
    }
    DisjointLargest(files);
  }

  lemma MeetingIsRun(files: Level, lo: UserKey, hi: UserKey)
    requires FilesOk(files) && Disjoint(files)
    ensures Meeting(files, Some(lo), Some(hi)) == [] || IsRun(files, Meeting(files, Some(lo), Some(hi)))
  {
    var a, b := MeetingBounds(files, lo, hi);
  }

  lemma RunLargestKey(files: Level, a: nat, b: nat)
    requires FilesOk(files) && Disjoint(files) && a < b <= |files|
    ensures IsLargestKey(files[a..b], files[b - 1].largest)
  {
    DisjointLargest(files);
    assert files[a..b][b - 1 - a] == files[b - 1];
  }

  lemma OutsideRun(files: Level, a: nat, b: nat, i: nat, j: nat, x: Entry, y: Entry)
    requires FilesOk(files) && Disjoint(files) && a <= i < b <= |files| && j < |files| && !(a <= j < b)
    requires forall k :: 0 <= k < |files| ==> !Boundary(files[k], files[b - 1].largest)
    requires Distinct(LevelEntries(files))
    requires x in files[j].entries && y in files[i].entries && x.key.user == y.key.user
    ensures x.key.sn > y.key.sn
  {
    EntryBounds(files[j], x);
    EntryBounds(files[i], y);
    if j < a {
      assert Less(files[j].largest, files[i].smallest);
      assert x in LevelEntries(files) && y in LevelEntries(files);
    } else {
      assert Less(files[b - 1].largest, files[j].smallest);
      DisjointLargest(files);
      assert false;
    }
  }

  lemma SealedRunPair(files: Level, a: nat, b: nat, g: File, x: Entry, y: Entry)
    requires FilesOk(files) && Disjoint(files) && Distinct(LevelEntries(files))
    requires a < b <= |files| && NoBoundary(files, files[a..b])
    requires g in files && g !in files[a..b] && x in g.entries && y in LevelEntries(files[a..b])
    requires x.key.user == y.key.user
    ensures x.key.sn > y.key.sn
  {
    hide FilesOk, Disjoint, Distinct, Boundary, IsLargestKey;
    RunLargestKey(files, a, b);
    var k :| 0 <= k < b - a && y in files[a..b][k].entries;
    var j :| 0 <= j < |files| && files[j] == g;
    assert forall i :: a <= i < b ==> files[i] == files[a..b][i - a];
    OutsideRun(files, a, b, a + k, j, x, y);
  }

  // A run that no boundary file continues leaves nothing older behind.
  lemma SealedRunLeavesNothingOlder(files: Level, inputs: Level)
    requires FilesOk(files) && Disjoint(files) && Distinct(LevelEntries(files))
    requires IsRun(files, inputs) && NoBoundary(files, inputs)
    ensures LeavesNothingOlder(files, inputs)
  {
    var a, b :| 0 <= a < b <= |files| && inputs == files[a..b];
    forall g, x, y | g in files && g !in inputs && x in ToSet(g.entries) && y in LevelEntries(inputs) &&
      x.key.user == y.key.user
      ensures x.key.sn > y.key.sn
    {
      SealedRunPair(files, a, b, g, x, y);
    }
  }

  // ----- the methods -----

  method GetRange(inputs: Level) returns (smallest: InternalKey, largest: InternalKey)
    requires inputs != []
    ensures forall f :: f in inputs ==> AtMost(smallest, f.smallest) && AtMost(f.largest, largest)
    ensures (exists f :: f in inputs && f.smallest == smallest) && (exists f :: f in inputs && f.largest == largest)
  {
    smallest, largest := inputs[0].smallest, inputs[0].largest;
    assert inputs[0] in inputs;
    for i := 1 to |inputs|
      invariant forall j :: 0 <= j < i ==> AtMost(smallest, inputs[j].smallest) && AtMost(inputs[j].largest, largest)
      invariant exists f :: f in inputs && f.smallest == smallest
      invariant exists f :: f in inputs && f.largest == largest
    {
      assert inputs[i] in inputs;
      if Less(inputs[i].smallest, smallest) {
        smallest := inputs[i].smallest;
      }
      if Less(largest, inputs[i].largest) {
        largest := inputs[i].largest;
      }
    }
  }

  function TotalFileSize(files: Level): nat {
    if files == [] then 0 else files[0].size + TotalFileSize(files[1..])
  }

  // Seals a start with its boundary files. `beside` are inputs at the next level.
  method Seal(files: Level, level: nat, start: Level, ghost beside: Level) returns (in0: Level)
    requires forall f :: f in beside ==> FileOk(f)
    requires FilesOk(files) && (level > 0 ==> Disjoint(files)) && Distinct(LevelEntries(files))
    requires StartOk(files, level, start)
    ensures StartOk(files, level, in0)
    ensures forall f :: f in start ==> f in in0
    ensures forall f :: f in in0 ==> f in files
    ensures LeavesNothingOlder(files, in0)
    ensures Gapless(start + beside) ==> Gapless(in0 + beside)
  {
    hide Gapless;
    if level > 0 {
      assert forall f :: f in start ==> f in files;
    }
    in0 := AddBoundaryInputs(files, start, beside);
    if level == 0 {
      ghost var b, e :| Closed(files, b, e) && start == Meeting(files, b, e);
      ClosedLeavesNothingOlder(files, b, e);
      assert in0 == start;
    } else {
      SealedRunLeavesNothingOlder(files, in0);
    }
  }

  lemma SameGaps(a: Level, b: Level)
    requires Gapless(a) && forall f :: f in a <==> f in b
    ensures Gapless(b)
  {
    forall f, g, u | f in b && g in b && Between(f, g, u) ensures Covered(b, u) {
      CoveredMore(a, b, u);
    }
  }

  lemma RangeSpans(inputs: Level, smallest: InternalKey, largest: InternalKey)
    requires forall f :: f in inputs ==> AtMost(smallest, f.smallest) && AtMost(f.largest, largest)
    requires (exists f :: f in inputs && f.smallest == smallest) && (exists f :: f in inputs && f.largest == largest)
    requires forall f :: f in inputs ==> f.smallest.user <= f.largest.user
    ensures Spans(inputs, smallest.user, largest.user)
  {
  }

  // Files of the next level that close the gaps of `core` are found again when
  // its range is scanned.
  lemma RescanIsGapless(core: Level, beside: Level, files: Level, lo: UserKey, hi: UserKey)
    requires Gapless(core + beside) && Spans(core, lo, hi) && forall f :: f in beside ==> f in files
    requires forall f :: f in files ==> f.smallest.user <= f.largest.user
    ensures Gapless(core + Meeting(files, Some(lo), Some(hi)))
  {
    var found := Meeting(files, Some(lo), Some(hi));
    var all := core + found;
    forall f, g, u | f in all && g in all && Between(f, g, u) ensures Covered(all, u) {
      if lo <= u <= hi {
        var x :| x in core && x.smallest.user == lo;
        var y :| y in core && y.largest.user == hi;
        assert Between(x, y, u);
        var h :| h in core + beside && Between(h, h, u);
        assert h in all;
      } else {
        assert Between(f, f, u) || Between(g, g, u);
      }
    }
  }

  // The files of the level that meet a range around `start`, as a new start.
  // The range is that of `core`.
  method Widen(files: Level, level: nat, start: Level, smallest: InternalKey, largest: InternalKey, ghost core: Level)
    returns (r: Level)
    requires Spans(core, smallest.user, largest.user)
    requires FilesOk(files) && (level > 0 ==> Disjoint(files)) && start != []
    requires forall f :: f in start ==> f in files && AtMost(smallest, f.smallest) && AtMost(f.largest, largest)
    ensures StartOk(files, level, r)
    ensures forall f :: f in start ==> f in r
    ensures forall f :: f in r ==> f in files
    ensures Gapless(core) ==> Gapless(core + r)
  {
    KeysOrdered(files);
    hide Gapless, FileOk;
    ghost var b, e;
    r, b, e := GetOverlappingInputs(level, files, Some(smallest.user), Some(largest.user));
    if Gapless(core) {
      ScanIsGapless(core, level, files, smallest.user, largest.user, b, e);
    }
    assert start[0] in r;
    if level > 0 {
      MeetingIsRun(files, smallest.user, largest.user);
    }
  }

  lemma LegalPick(v: Version, level: nat, in0: Level, smallest: InternalKey, largest: InternalKey)
    requires VersionOk(v) && level + 1 < NUM_LEVELS && StartOk(v[level], level, in0)
    requires LeavesNothingOlder(v[level], in0) && forall f :: f in in0 ==> f in v[level]
    requires forall f :: f in in0 ==> AtMost(smallest, f.smallest) && AtMost(f.largest, largest)
    ensures Picked(v, level, in0, Meeting(v[level + 1], Some(smallest.user), Some(largest.user)), smallest.user,
      largest.user)
  {
    hide LeavesNothingOlder, FilesOk, Disjoint, RecencyByNumber, LevelsOrdered, Distinct;
  }

  // The inputs at the level expanded to the range of all inputs, if they stay
  // within the limit and need no more of the next level.
  method Expand(v: Version, level: nat, start: Level, next: Level, limit: nat)
    returns (in0: Level, in1: Level, ghost lo: UserKey, ghost hi: UserKey, ghost expanded: bool)
    requires VersionOk(v) && level + 1 < NUM_LEVELS && StartOk(v[level], level, start)
    requires (forall f :: f in start ==> f in v[level]) && (forall f :: f in next ==> f in v[level + 1])
    ensures expanded ==> Picked(v, level, in0, in1, lo, hi) && StartOk(v[level], level, in0) && Spans(in0, lo, hi)
    ensures expanded ==> (forall f :: f in start ==> f in in0) && (Gapless(start + next) ==> Gapless(in0 + in1))
    ensures !expanded ==> in0 == start && in1 == next
  {
    hide Gapless, FileOk, Disjoint, Picked, LeavesNothingOlder, Spans, RecencyByNumber, LevelsOrdered;
    PartsDistinct(v, level);
    KeysOrdered(v[level]);
    KeysOrdered(v[level + 1]);
    in0, in1, lo, hi, expanded := start, next, 0.0, 0.0, false;
    var allStart, allLimit := GetRange(start + next);
    RangeSpans(start + next, allStart, allLimit);
    assert forall f :: f in start ==> f in start + next;
    var expanded0 := Widen(v[level], level, start, allStart, allLimit, start + next);
    if Gapless(start + next) {
      SameGaps(start + next + expanded0, expanded0 + next);
    }
    expanded0 := Seal(v[level], level, expanded0, next);
    if |expanded0| > |start| && TotalFileSize(next) + TotalFileSize(expanded0) < limit {
      var newStart, newLimit := GetRange(expanded0);
      RangeSpans(expanded0, newStart, newLimit);
      LegalPick(v, level, expanded0, newStart, newLimit);
      ghost var b, e;
      var expanded1;
      expanded1, b, e := GetOverlappingInputs(level + 1, v[level + 1], Some(newStart.user), Some(newLimit.user));
      if Gapless(expanded0 + next) {
        RescanIsGapless(expanded0, next, v[level + 1], newStart.user, newLimit.user);
      }
      if |expanded1| == |next| {
        in0, in1, lo, hi, expanded := expanded0, expanded1, newStart.user, newLimit.user, true;
      }
    }
  }

  // VersionSet::SetupOtherInputs. `limit` stands for the byte limit on an
  // expanded compaction. Inputs that leave no gap stay so.
  method SetupOtherInputs(v: Version, level: nat, start: Level, limit: nat)
    returns (in0: Level, in1: Level, ghost lo: UserKey, ghost hi: UserKey)
    requires VersionOk(v) && level + 1 < NUM_LEVELS && StartOk(v[level], level, start)
    ensures Picked(v, level, in0, in1, lo, hi) && StartOk(v[level], level, in0) && Spans(in0, lo, hi)
    ensures forall f :: f in start ==> f in in0
    ensures Gapless(start) ==> Gapless(in0 + in1)
  {
    hide Gapless, FileOk, Disjoint, Picked, LeavesNothingOlder, Spans, RecencyByNumber, LevelsOrdered;
    PartsDistinct(v, level);
    KeysOrdered(v[level]);
    KeysOrdered(v[level + 1]);
    assert start + [] == start;
    in0 := Seal(v[level], level, start, []);
    assert in0 + [] == in0;
    var smallest, largest := GetRange(in0);
    RangeSpans(in0, smallest, largest);
    LegalPick(v, level, in0, smallest, largest);
    ghost var b, e;
    in1, b, e := GetOverlappingInputs(level + 1, v[level + 1], Some(smallest.user), Some(largest.user));
    lo, hi := smallest.user, largest.user;
    if Gapless(in0) {
      ScanIsGapless(in0, level + 1, v[level + 1], lo, hi, b, e);
    }
    if in1 != [] {
      ghost var lo', hi', expanded;
      in0, in1, lo', hi', expanded := Expand(v, level, in0, in1, limit);
      if expanded {
        lo, hi := lo', hi';
      }
    }
  }

  lemma OneFileIsGapless(f: File)
    ensures Gapless([f])
  {
  }

  // The level-0 part of PickCompaction and the other levels' single file. The
  // inputs leave no gap: each user key in their range is in an input's range.
  method PickCompaction(v: Version, level: nat, picked: File, limit: nat)
    returns (in0: Level, in1: Level, ghost lo: UserKey, ghost hi: UserKey)
    requires VersionOk(v) && level + 1 < NUM_LEVELS && picked in v[level]
    ensures Picked(v, level, in0, in1, lo, hi) && picked in in0
    ensures StartOk(v[level], level, in0) && Spans(in0, lo, hi)
    ensures Gapless(in0 + in1)
  {
    hide Gapless;
    var start := [picked];
    OneFileIsGapless(picked);
    if level == 0 {
      KeysOrdered(v[0]);
      assert picked.smallest.user <= picked.largest.user;
      start := Widen(v[0], 0, start, picked.smallest, picked.largest, start);
      SameGaps([picked] + start, start);
    } else {
      var k :| 0 <= k < |v[level]| && v[level][k] == picked;
      assert start == v[level][k..k + 1];
    }
    in0, in1, lo, hi := SetupOtherInputs(v, level, start, limit);
  }

  lemma {:induction false} SizeGrows(files: Level, i: nat)
    requires i < |files|
    ensures TotalFileSize(files[..i + 1]) == TotalFileSize(files[..i]) + files[i].size
  {
    if i > 0 {
      SizeGrows(files[1..], i - 1);
      assert files[..i + 1][1..] == files[1..][..i] && files[..i][1..] == files[1..][..i - 1];
    } else {
      assert files[..1] == [files[0]] && files[..1][1..] == [];
    }
  }

  // The shortest prefix that reaches the size limit; all of it if none does.
  ghost predicate CutAt(whole: Level, start: Level, fileLimit: nat) {
    && start <= whole && start != []
    && TotalFileSize(start[..|start| - 1]) < fileLimit
    && (start != whole ==> TotalFileSize(start) >= fileLimit)
  }

  method CutShort(whole: Level, fileLimit: nat) returns (start: Level)
    requires whole != [] && fileLimit > 0
    ensures CutAt(whole, start, fileLimit)
  {
    hide TotalFileSize;
    start := whole;
    var total, i := 0, 0;
    assert whole[..0] == [] && TotalFileSize([]) == 0 by {
      NoFiles();
    }
    while i < |whole|
      invariant 0 <= i <= |whole| && start == whole && total == TotalFileSize(whole[..i])
      invariant i > 0 ==> total < fileLimit
      decreases |whole| - i
    {
      SizeGrows(whole, i);
      total := total + whole[i].size;
      if total >= fileLimit {
        start := whole[..i + 1];
        assert start[..i] == whole[..i];
        return;
      }
      i := i + 1;
    }
    assert whole[..|whole|] == whole;
    SizeGrows(whole, |whole| - 1);
  }

  lemma {:induction false} PrefixIsSmaller(files: Level, n: nat)
    requires n <= |files|
    ensures TotalFileSize(files[..n]) <= TotalFileSize(files)
    decreases |files| - n
  {
    if n < |files| {
      SizeGrows(files, n);
      PrefixIsSmaller(files, n + 1);
    } else {
      assert files[..n] == files;
    }
  }

  // A start below the size limit is not cut short.
  lemma SmallStartIsWhole(whole: Level, start: Level, fileLimit: nat)
    requires CutAt(whole, start, fileLimit) && TotalFileSize(whole) < fileLimit
    ensures start == whole
  {
    hide TotalFileSize;
    PrefixIsSmaller(whole, |start|);
    assert whole[..|start|] == start;
  }

  lemma NoFiles()
    ensures TotalFileSize([]) == 0
  {
  }

  // What a manual compaction starts from: the files that meet the range asked
  // for, cut short by size below level 0. `b` and `e` are the range of the scan.
  ghost predicate ManualStart(files: Level, level: nat, begin: Option<UserKey>, end: Option<UserKey>, fileLimit: nat,
                              start: Level, b: Option<UserKey>, e: Option<UserKey>) {
    && (level > 0 ==> b == begin && e == end && CutAt(Meeting(files, b, e), start, fileLimit))
    && (level == 0 ==> LeastClosed(files, begin, end, b, e) && start == Meeting(files, b, e))
  }

  lemma ManualStartIsLegal(files: Level, level: nat, begin: Option<UserKey>, end: Option<UserKey>, fileLimit: nat,
      start: Level, b: Option<UserKey>, e: Option<UserKey>)
    requires FilesOk(files) && (level > 0 ==> Disjoint(files)) && start != []
    requires ManualStart(files, level, begin, end, fileLimit, start, b, e)
    ensures StartOk(files, level, start)
  {
    if level > 0 {
      MeetingIsRunOpen(files, b, e);
      PrefixOfRun(files, Meeting(files, b, e), start);
    }
  }

  // A manual compaction. No file that meets the range means no compaction; a
  // start that is not cut short has every file that meets it among the inputs.
  method CompactRange(v: Version, level: nat, begin: Option<UserKey>, end: Option<UserKey>, fileLimit: nat, limit: nat)
    returns (in0: Level, in1: Level, ghost lo: UserKey, ghost hi: UserKey, ghost start: Level,
             ghost b: Option<UserKey>, ghost e: Option<UserKey>)
    requires VersionOk(v) && level + 1 < NUM_LEVELS && fileLimit > 0
    ensures in0 == [] <==> forall f :: f in v[level] ==> !Meets(f, begin, end)
    ensures in0 != [] ==> Picked(v, level, in0, in1, lo, hi) && StartOk(v[level], level, in0) && Spans(in0, lo, hi)
    ensures in0 != [] ==>
      ManualStart(v[level], level, begin, end, fileLimit, start, b, e) && forall f :: f in start ==> f in in0
    ensures in0 != [] && start == Meeting(v[level], b, e) ==>
      forall f :: f in v[level] && Meets(f, begin, end) ==> f in in0
  {
    hide FileOk, FilesOk, Disjoint, Picked, LeastClosed, Gapless, LevelsOrdered, RecencyByNumber, Meets, StartOk,
      CutAt;
    KeysOrdered(v[level]);
    lo, hi := 0.0, 0.0;
    in0, in1, start := [], [], [];
    var inputs;
    inputs, b, e := GetOverlappingInputs(level, v[level], begin, end);
    ScanReaches(level, v[level], begin, end, b, e);
    if inputs == [] {
      return;
    }
    assert inputs[0] in inputs;
    if level > 0 {
      inputs := CutShort(inputs, fileLimit);
      CutIsNotEmpty(Meeting(v[level], b, e), inputs, fileLimit);
    }
    start := inputs;
    ManualStartIsLegal(v[level], level, begin, end, fileLimit, start, b, e);
    in0, in1, lo, hi := SetupOtherInputs(v, level, inputs, limit);
    assert start[0] in in0;
  }

  lemma CutIsNotEmpty(whole: Level, start: Level, fileLimit: nat)
    requires CutAt(whole, start, fileLimit)
    ensures start != []
  {
  }

  // The scan finds every file that meets the range asked for, and none if there
  // is no such file.
  lemma ScanReaches(level: nat, files: Level, begin: Option<UserKey>, end: Option<UserKey>, b: Option<UserKey>,
      e: Option<UserKey>)
    requires forall f :: f in files ==> f.smallest.user <= f.largest.user
    requires level > 0 ==> b == begin && e == end
    requires level == 0 ==> LeastClosed(files, begin, end, b, e)
    ensures forall f :: f in files && Meets(f, begin, end) ==> f in Meeting(files, b, e)
    ensures Meeting(files, b, e) == [] <==> forall f :: f in files ==> !Meets(f, begin, end)
  {
    if forall f :: f in files ==> !Meets(f, begin, end) {
      assert Closed(files, begin, end);
    }
  }

  lemma PrefixOfRun(files: Level, run: Level, prefix: Level)
    requires IsRun(files, run) && prefix <= run && prefix != []
    ensures IsRun(files, prefix)
  {
    var a, b :| 0 <= a < b <= |files| && run == files[a..b];
    assert prefix == files[a..a + |prefix|];
  }

  // An open end of a range is an end past every file.
  lemma MeetingIsRunOpen(files: Level, b: Option<UserKey>, e: Option<UserKey>)
    requires FilesOk(files) && Disjoint(files) && Meeting(files, b, e) != []
    ensures IsRun(files, Meeting(files, b, e))
  {
    KeysOrdered(files);
    var first, last := files[0], files[|files| - 1];
    var lo := if b.Some? then b.value else first.largest.user;
    var hi := if e.Some? then e.value else last.smallest.user;
    DisjointLargest(files);
    assert forall f :: f in files ==> f.largest.user >= first.largest.user && f.smallest.user <= last.smallest.user;
    MeetingSame(files, b, e, Some(lo), Some(hi));
    MeetingIsRun(files, lo, hi);
  }

  lemma {:induction false} MeetingSame(files: Level, b: Option<UserKey>, e: Option<UserKey>,
                                       b': Option<UserKey>, e': Option<UserKey>)
    requires forall f :: f in files ==> (Meets(f, b, e) <==> Meets(f, b', e'))
    ensures Meeting(files, b, e) == Meeting(files, b', e')
  {
    if files != [] {
      MeetingSame(files[..|files| - 1], b, e, b', e');
    }
  }
}
