// Choosing the inputs of a compaction (db/version_set.cc).
module Inputs {
  import opened Keys
  import opened Versions

  // ----- user-key ranges; None is the open end -----

  predicate Meets(f: File, b: Option<UserKey>, e: Option<UserKey>) {
    (b.Some? ==> f.largest.user >= b.value) && (e.Some? ==> f.smallest.user <= e.value)
  }

  predicate Inside(f: File, b: Option<UserKey>, e: Option<UserKey>) {
    (b.Some? ==> f.smallest.user >= b.value) && (e.Some? ==> f.largest.user <= e.value)
  }

  predicate Within(b: Option<UserKey>, e: Option<UserKey>, b': Option<UserKey>, e': Option<UserKey>) {
    && (b'.Some? ==> b.Some? && b'.value <= b.value)
    && (e'.Some? ==> e.Some? && e.value <= e'.value)
  }

  // No file straddles an end of the range.
  ghost predicate Closed(files: Level, b: Option<UserKey>, e: Option<UserKey>) {
    forall i :: 0 <= i < |files| && Meets(files[i], b, e) ==> Inside(files[i], b, e)
  }

  // The least closed range around [begin, end].
  ghost predicate LeastClosed(files: Level, begin: Option<UserKey>, end: Option<UserKey>,
                              b: Option<UserKey>, e: Option<UserKey>) {
    && Within(begin, end, b, e)
    && Closed(files, b, e)
    && forall b', e' :: Closed(files, b', e') && Within(begin, end, b', e') ==> Within(b, e, b', e')
  }

  // The files that meet the range, in their order.
  function Meeting(files: Level, b: Option<UserKey>, e: Option<UserKey>): (r: Level)
    ensures forall f :: f in r <==> f in files && Meets(f, b, e)
  {
    if files == [] then []
    else
      var last := files[|files| - 1];
      assert files == files[..|files| - 1] + [last];
      Meeting(files[..|files| - 1], b, e) + if Meets(last, b, e) then [last] else []
  }

  // How many ends of files lie outside the range: each restart brings it down.
  ghost function Outside(files: Level, b: Option<UserKey>, e: Option<UserKey>): nat {
    if files == [] then 0
    else
      (if b.Some? && files[0].smallest.user < b.value then 1 else 0)
      + (if e.Some? && files[0].largest.user > e.value then 1 else 0)
      + Outside(files[1..], b, e)
  }

  lemma {:induction false} OutsideShrinks(files: Level, b: Option<UserKey>, e: Option<UserKey>,
                                          b': Option<UserKey>, e': Option<UserKey>)
    requires Within(b, e, b', e') && b'.Some? == b.Some? && e'.Some? == e.Some?
    ensures Outside(files, b', e') <= Outside(files, b, e)
    ensures (exists f :: f in files && ((b.Some? && b'.value <= f.smallest.user < b.value) ||
                                        (e.Some? && e.value < f.largest.user <= e'.value)))
            ==> Outside(files, b', e') < Outside(files, b, e)
  {
    if files != [] {
      OutsideShrinks(files[1..], b, e, b', e');
      assert files == [files[0]] + files[1..];
    }
  }

  // Every closed range around [begin, end] contains [b, e].
  ghost predicate Needed(files: Level, begin: Option<UserKey>, end: Option<UserKey>, b: Option<UserKey>,
      e: Option<UserKey>) {
    forall b', e' :: Closed(files, b', e') && Within(begin, end, b', e') ==> Within(b, e, b', e')
  }

  lemma MeetingStep(files: Level, i: nat, b: Option<UserKey>, e: Option<UserKey>)
    requires i < |files|
    ensures Meeting(files[..i + 1], b, e) ==
      Meeting(files[..i], b, e) + if Meets(files[i], b, e) then [files[i]] else []
  {
    assert files[..i + 1][..i] == files[..i];
  }

  lemma NoneMeeting(files: Level)
    ensures forall b, e :: Meeting(files[..0], b, e) == []
  {
  }

  lemma NoneStraddles(files: Level, b: Option<UserKey>, e: Option<UserKey>)
    requires forall j :: 0 <= j < |files| && Meets(files[j], b, e) ==> Inside(files[j], b, e)
    ensures Closed(files, b, e)
  {
  }

  lemma NeededAtFirst(files: Level, begin: Option<UserKey>, end: Option<UserKey>)
    ensures Needed(files, begin, end, begin, end)
  {
  }

  lemma NeededIsLeast(files: Level, begin: Option<UserKey>, end: Option<UserKey>, b: Option<UserKey>,
      e: Option<UserKey>)
    requires Needed(files, begin, end, b, e) && Within(begin, end, b, e)
    ensures Closed(files, b, e) ==> LeastClosed(files, begin, end, b, e)
  {
  }

  // A file that straddles an end of a needed range moves that end.
  lemma NeededWidens(files: Level, begin: Option<UserKey>, end: Option<UserKey>, b: Option<UserKey>,
      e: Option<UserKey>, i: nat)
    requires Needed(files, begin, end, b, e) && i < |files| && Meets(files[i], b, e)
    requires files[i].smallest.user <= files[i].largest.user
    ensures b.Some? && files[i].smallest.user < b.value ==> Needed(files, begin, end, Some(files[i].smallest.user), e)
    ensures e.Some? && files[i].largest.user > e.value ==> Needed(files, begin, end, b, Some(files[i].largest.user))
  {
    var f := files[i];
    forall b', e' | Closed(files, b', e') && Within(begin, end, b', e')
      ensures b.Some? && f.smallest.user < b.value ==> Within(Some(f.smallest.user), e, b', e')
      ensures e.Some? && f.largest.user > e.value ==> Within(b, Some(f.largest.user), b', e')
    {
      assert Within(b, e, b', e');
      assert Meets(files[i], b', e');
    }
  }

  // Version::GetOverlappingInputs. In level 0, where files overlap, a file that
  // widens the range restarts the scan; `b` and `e` are the range it ends with.
  method GetOverlappingInputs(level: nat, files: Level, begin: Option<UserKey>, end: Option<UserKey>)
    returns (inputs: Level, b: Option<UserKey>, e: Option<UserKey>)
    requires forall f :: f in files ==> f.smallest.user <= f.largest.user
    ensures inputs == Meeting(files, b, e)
    ensures level > 0 ==> b == begin && e == end
    ensures level == 0 ==> LeastClosed(files, begin, end, b, e)
    ensures b.Some? == begin.Some? && e.Some? == end.Some?
  {
    hide Needed, Meeting, Outside, LeastClosed, Closed;
    var userBegin, userEnd := begin, end;
    inputs := [];
    var i := 0;
    NoneMeeting(files);
    assert Needed(files, begin, end, begin, end) by {
      NeededAtFirst(files, begin, end);
    }
    while i < |files|
      invariant 0 <= i <= |files|
      invariant inputs == Meeting(files[..i], userBegin, userEnd)
      invariant level > 0 ==> userBegin == begin && userEnd == end
      invariant userBegin.Some? == begin.Some? && userEnd.Some? == end.Some?
      invariant Within(begin, end, userBegin, userEnd)
      invariant level == 0 ==>
        forall j :: 0 <= j < i && Meets(files[j], userBegin, userEnd) ==> Inside(files[j], userBegin, userEnd)
      invariant Needed(files, begin, end, userBegin, userEnd)
      decreases Outside(files, userBegin, userEnd), |files| - i
    {
      var f := files[i];
      assert f in files;
      MeetingStep(files, i, userBegin, userEnd);
      if Meets(f, userBegin, userEnd) {
        NeededWidens(files, begin, end, userBegin, userEnd, i);
      }
      i := i + 1;
      if Meets(f, userBegin, userEnd) {
        inputs := inputs + [f];
        if level == 0 {
          if userBegin.Some? && f.smallest.user < userBegin.value {
            OutsideShrinks(files, userBegin, userEnd, Some(f.smallest.user), userEnd);
            userBegin := Some(f.smallest.user);
            inputs := [];
            i := 0;
          } else if userEnd.Some? && f.largest.user > userEnd.value {
            OutsideShrinks(files, userBegin, userEnd, userBegin, Some(f.largest.user));
            userEnd := Some(f.largest.user);
            inputs := [];
            i := 0;
          }
        }
      }
    }
    b, e := userBegin, userEnd;
    assert files[..i] == files;
    NeededIsLeast(files, begin, end, b, e);
    if level == 0 {
      NoneStraddles(files, b, e);
    }
  }

  // ----- gaps -----

  ghost predicate Between(f: File, g: File, u: UserKey) {
    f.smallest.user <= u <= g.largest.user
  }

  ghost predicate Covered(files: Level, u: UserKey) {
    exists f :: f in files && Between(f, f, u)
  }

  // Between the user keys of the files there is none that no file covers.
  ghost predicate Gapless(files: Level) {
    forall f, g, u :: f in files && g in files && Between(f, g, u) ==> Covered(files, u)
  }

  ghost predicate Spans(files: Level, lo: UserKey, hi: UserKey) {
    && (exists f :: f in files && f.smallest.user == lo) && (exists f :: f in files && f.largest.user == hi)
    && forall f :: f in files ==> lo <= f.smallest.user <= f.largest.user <= hi
  }

  lemma CoveredMore(a: Level, b: Level, u: UserKey)
    requires Covered(a, u) && forall f :: f in a ==> f in b
    ensures Covered(b, u)
  {
  }

  // What a scan around gapless files finds leaves no gap either.
  lemma ScanIsGapless(core: Level, level: nat, files: Level, lo: UserKey, hi: UserKey, b: Option<UserKey>,
      e: Option<UserKey>)
    requires Gapless(core) && Spans(core, lo, hi) && forall f :: f in files ==> f.smallest.user <= f.largest.user
    requires b.Some? && e.Some? && (level > 0 ==> b == Some(lo) && e == Some(hi))
    requires level == 0 ==> LeastClosed(files, Some(lo), Some(hi), b, e)
    ensures Gapless(core + Meeting(files, b, e))
  {
    hide LeastClosed;
    var all := core + Meeting(files, b, e);
    forall f, g, u | f in all && g in all && Between(f, g, u) ensures Covered(all, u) {
      if lo <= u <= hi {
        var x :| x in core && x.smallest.user == lo;
        var y :| y in core && y.largest.user == hi;
        assert Between(x, y, u);
        CoveredMore(core, all, u);
      } else if u < lo {
        NoGapBefore(level, files, lo, hi, b.value, e.value, u, f);
        CoveredMore(Meeting(files, b, e), all, u);
      } else {
        NoGapAfter(level, files, lo, hi, b.value, e.value, u, g);
        CoveredMore(Meeting(files, b, e), all, u);
      }
    }
  }

  // A user key before the range asked for that no scanned file covers is before
  // all of them: level 0 could have stopped its range there.
  lemma NoGapBefore(level: nat, files: Level, lo: UserKey, hi: UserKey, b: UserKey, e: UserKey, u: UserKey, f: File)
    requires forall g :: g in files ==> g.smallest.user <= g.largest.user
    requires level > 0 ==> b == lo && e == hi
    requires level == 0 ==> LeastClosed(files, Some(lo), Some(hi), Some(b), Some(e))
    requires u < lo && f in Meeting(files, Some(b), Some(e)) && f.smallest.user <= u
    ensures Covered(Meeting(files, Some(b), Some(e)), u)
  {
    var found := Meeting(files, Some(b), Some(e));
    if level > 0 {
      assert Between(f, f, u);
    } else if !Covered(found, u) {
      forall i | 0 <= i < |files| && Meets(files[i], Some(u), Some(e)) ensures Inside(files[i], Some(u), Some(e)) {
        assert Inside(f, Some(b), Some(e));
        assert files[i] in found && !Between(files[i], files[i], u);
      }
      assert Closed(files, Some(u), Some(e));
      assert false;
    }
  }

  lemma NoGapAfter(level: nat, files: Level, lo: UserKey, hi: UserKey, b: UserKey, e: UserKey, u: UserKey, f: File)
    requires forall g :: g in files ==> g.smallest.user <= g.largest.user
    requires level > 0 ==> b == lo && e == hi
    requires level == 0 ==> LeastClosed(files, Some(lo), Some(hi), Some(b), Some(e))
    requires u > hi && f in Meeting(files, Some(b), Some(e)) && f.largest.user >= u
    ensures Covered(Meeting(files, Some(b), Some(e)), u)
  {
    var found := Meeting(files, Some(b), Some(e));
    if level > 0 {
      assert Between(f, f, u);
    } else if !Covered(found, u) {
      forall i | 0 <= i < |files| && Meets(files[i], Some(b), Some(u)) ensures Inside(files[i], Some(b), Some(u)) {
        assert Inside(f, Some(b), Some(e));
        assert files[i] in found && !Between(files[i], files[i], u);
      }
      assert Closed(files, Some(b), Some(u));
      assert false;
    }
  }

  // A file that begins with the last user key of the files leaves no gap.
  lemma TouchingIsGapless(files: Level, beside: Level, g: File, k: InternalKey)
    requires Gapless(files + beside) && IsLargestKey(files, k)
    requires g.smallest.user == k.user && forall f :: f in files + beside + [g] ==> f.smallest.user <= f.largest.user
    ensures Gapless(files + [g] + beside)
  {
    var old_, all := files + beside, files + [g] + beside;
    var m :| 0 <= m < |files| && files[m].largest == k;
    var h := files[m];
    assert h in old_ && forall f :: f in all <==> f in old_ || f == g;
    forall x, y, u | x in all && y in all && Between(x, y, u) ensures Covered(all, u) {
      if !Between(g, g, u) {
        var x', y' := if x == g then h else x, if y == g then h else y;
        assert Between(x', y', u);
        CoveredMore(old_, all, u);
      }
    }
  }

  // ----- boundary files -----

  predicate AtMost(a: InternalKey, b: InternalKey) {
    !Less(b, a)
  }

  ghost predicate IsLargestKey(files: Level, k: InternalKey) {
    && (exists i :: 0 <= i < |files| && files[i].largest == k)
    && forall i :: 0 <= i < |files| ==> AtMost(files[i].largest, k)
  }

  // A file that continues, after `k`, the entries of k's user key.
  predicate Boundary(f: File, k: InternalKey) {
    Less(k, f.smallest) && f.smallest.user == k.user
  }

  method FindLargestKey(files: Level) returns (largest: InternalKey)
    requires files != []
    ensures IsLargestKey(files, largest)
  {
    largest := files[0].largest;
    for i := 1 to |files|
      invariant exists j :: 0 <= j < i && files[j].largest == largest
      invariant forall j :: 0 <= j < i ==> AtMost(files[j].largest, largest)
    {
      if Less(largest, files[i].largest) {
        largest := files[i].largest;
      }
    }
  }

  method FindSmallestBoundaryFile(levelFiles: Level, largest: InternalKey) returns (r: Option<File>)
    ensures r.None? ==> forall i :: 0 <= i < |levelFiles| ==> !Boundary(levelFiles[i], largest)
    ensures r.Some? ==> r.value in levelFiles && Boundary(r.value, largest)
    ensures r.Some? ==>
      forall i :: 0 <= i < |levelFiles| && Boundary(levelFiles[i], largest) ==>
        AtMost(r.value.smallest, levelFiles[i].smallest)
  {
    r := None;
    for i := 0 to |levelFiles|
      invariant r.None? ==> forall j :: 0 <= j < i ==> !Boundary(levelFiles[j], largest)
      invariant r.Some? ==> r.value in levelFiles && Boundary(r.value, largest)
      invariant r.Some? ==>
        forall j :: 0 <= j < i && Boundary(levelFiles[j], largest) ==> AtMost(r.value.smallest, levelFiles[j].smallest)
    {
      var f := levelFiles[i];
      if Boundary(f, largest) {
        if r.None? || Less(f.smallest, r.value.smallest) {
          r := Some(f);
        }
      }
    }
  }

  // `run` is a contiguous part of the level.
  ghost predicate IsRun(files: Level, run: Level) {
    exists a, b :: 0 <= a < b <= |files| && run == files[a..b]
  }

  ghost predicate NoBoundary(files: Level, inputs: Level) {
    forall k, i :: IsLargestKey(inputs, k) && 0 <= i < |files| ==> !Boundary(files[i], k)
  }

  ghost function CountAfter(files: Level, k: InternalKey): nat {
    if files == [] then 0 else (if Less(k, files[0].smallest) then 1 else 0) + CountAfter(files[1..], k)
  }

  lemma {:induction false} CountAfterShrinks(files: Level, k: InternalKey, k': InternalKey)
    requires Less(k, k')
    ensures CountAfter(files, k') <= CountAfter(files, k)
    ensures (exists f :: f in files && Less(k, f.smallest) && AtMost(f.smallest, k')) ==>
      CountAfter(files, k') < CountAfter(files, k)
  {
    if files != [] {
      CountAfterShrinks(files[1..], k, k');
      assert files == [files[0]] + files[1..];
    }
  }

  lemma RisingPair(files: Level, i: nat, j: nat)
    requires forall i, j :: 0 <= i < j < |files| ==> Less(files[i].largest, files[j].largest)
    requires i < |files| && j < |files|
    ensures i < j ==> Less(files[i].largest, files[j].largest)
  {
  }

  lemma LargestIn(run: Level, k: InternalKey) returns (m: nat)
    requires IsLargestKey(run, k)
    ensures m < |run| && run[m].largest == k && AtMost(run[|run| - 1].largest, k)
  {
    hide AtMost;
    m :| 0 <= m < |run| && run[m].largest == k;
    assert AtMost(run[|run| - 1].largest, k);
  }

  lemma RunEnd(files: Level, run: Level, k: InternalKey) returns (a: nat, b: nat)
    requires IsRun(files, run) && IsLargestKey(run, k)
    requires forall i, j :: 0 <= i < j < |files| ==> Less(files[i].largest, files[j].largest)
    ensures a < b <= |files| && run == files[a..b] && files[b - 1].largest == k
  {
    hide Less, IsLargestKey;
    var m := LargestIn(run, k);
    a, b :| 0 <= a < b <= |files| && run == files[a..b];
    assert run[m] == files[a + m] && run[|run| - 1] == files[b - 1];
    RisingPair(files, a + m, b - 1);
  }

  lemma ExtendRun(files: Level, a: nat, b: nat)
    requires a < b < |files|
    ensures IsRun(files, files[a..b] + [files[b]])
  {
    assert files[a..b] + [files[b]] == files[a..b + 1];
  }

  lemma NextIndex(files: Level, b: nat, j: nat, k: InternalKey)
    requires FilesOk(files) && Disjoint(files)
    requires 0 < b <= |files| && files[b - 1].largest == k
    requires j < |files| && Boundary(files[j], k)
    requires forall i :: 0 <= i < |files| && Boundary(files[i], k) ==> AtMost(files[j].smallest, files[i].smallest)
    ensures j == b
  {
    if j < b {
      DisjointLargest(files);
      EntryBounds(files[j], files[j].entries[0]);
      assert false;
    }
    if j > b {
      assert Less(files[b - 1].largest, files[b].smallest);
      EntryBounds(files[b], files[b].entries[0]);
      assert false;
    }
  }

  // In a sorted level the boundary file of a run is the file right after it.
  lemma NextFileExtendsRun(files: Level, run: Level, k: InternalKey, f: File)
    requires FilesOk(files) && Disjoint(files) && IsRun(files, run) && IsLargestKey(run, k)
    requires f in files && Boundary(f, k)
    requires forall i :: 0 <= i < |files| && Boundary(files[i], k) ==> AtMost(f.smallest, files[i].smallest)
    ensures IsRun(files, run + [f])
  {
    DisjointLargest(files);
    var a, b := RunEnd(files, run, k);
    var j :| 0 <= j < |files| && files[j] == f;
    NextIndex(files, b, j, k);
    ExtendRun(files, a, b);
  }

  // `f` was left out although it continues a user key that `files` ends with.
  ghost predicate Continues(files: Level, f: File) {
    f !in files && exists g :: g in files && Boundary(f, g.largest)
  }

  // `beside` are inputs at the next level.
  method AddBoundaryInputs(levelFiles: Level, compactionFiles: Level, ghost beside: Level) returns (r: Level)
    requires FilesOk(levelFiles) && forall f :: f in compactionFiles ==> f in levelFiles
    requires forall f :: f in beside ==> FileOk(f)
    ensures compactionFiles <= r && forall f :: f in r ==> f in levelFiles
    ensures NoBoundary(levelFiles, r)
    ensures Disjoint(levelFiles) && IsRun(levelFiles, compactionFiles) ==> IsRun(levelFiles, r)
    ensures |r| > |compactionFiles| ==>
      r[|compactionFiles|] in levelFiles && Continues(compactionFiles, r[|compactionFiles|])
    ensures Gapless(compactionFiles + beside) ==> Gapless(r + beside)
  {
    hide Gapless, FileOk, Disjoint, IsRun, Continues, Boundary;
    r := compactionFiles;
    if compactionFiles == [] {
      return;
    }
    var largest := FindLargestKey(r);
    var continueSearching := true;
    while continueSearching
      invariant compactionFiles <= r && forall f :: f in r ==> f in levelFiles
      invariant IsLargestKey(r, largest)
      invariant Disjoint(levelFiles) && IsRun(levelFiles, compactionFiles) ==> IsRun(levelFiles, r)
      invariant !continueSearching ==> forall i :: 0 <= i < |levelFiles| ==> !Boundary(levelFiles[i], largest)
      invariant |r| > |compactionFiles| ==> Continues(compactionFiles, r[|compactionFiles|])
      invariant Gapless(compactionFiles + beside) ==> Gapless(r + beside)
      decreases continueSearching, CountAfter(levelFiles, largest)
    {
      var next := FindSmallestBoundaryFile(levelFiles, largest);
      if next.Some? {
        CountAfterShrinks(levelFiles, largest, next.value.largest) by {
          BoundaryAdvances(levelFiles, r, largest, next.value);
        }
        if Disjoint(levelFiles) && IsRun(levelFiles, r) {
          NextFileExtendsRun(levelFiles, r, largest, next.value);
        }
        BoundaryAdvances(levelFiles, r, largest, next.value);
        StaysGapless(levelFiles, r, beside, next.value, largest);
        assert |r| == |compactionFiles| ==> r == compactionFiles;
        r := r + [next.value];
        largest := next.value.largest;
      } else {
        continueSearching := false;
      }
    }
    LargestIsUnique(r, largest);
    if |r| > |compactionFiles| {
      assert r[|compactionFiles|] in r;
    }
  }

  lemma StaysGapless(levelFiles: Level, r: Level, beside: Level, f: File, k: InternalKey)
    requires FilesOk(levelFiles) && f in levelFiles && IsLargestKey(r, k) && Boundary(f, k)
    requires (forall g :: g in r ==> g in levelFiles) && (forall g :: g in beside ==> FileOk(g))
    ensures Gapless(r + beside) ==> Gapless(r + [f] + beside)
  {
    if Gapless(r + beside) {
      InOrderFiles(levelFiles, r + beside + [f], beside);
      TouchingIsGapless(r, beside, f, k);
    }
  }

  lemma InOrderFiles(levelFiles: Level, files: Level, beside: Level)
    requires FilesOk(levelFiles) && forall f :: f in beside ==> FileOk(f)
    requires forall f :: f in files ==> f in levelFiles || f in beside
    ensures forall f :: f in files ==> f.smallest.user <= f.largest.user
  {
    forall f | f in files ensures f.smallest.user <= f.largest.user {
      EntryBounds(f, f.entries[0]);
    }
  }

  lemma LargestIsUnique(r: Level, k: InternalKey)
    requires IsLargestKey(r, k)
    ensures forall k' :: IsLargestKey(r, k') ==> k' == k
  {
    forall k' | IsLargestKey(r, k') ensures k' == k {
      SameTagSameKey(k, k');
    }
  }

  lemma SameTagSameKey(a: InternalKey, b: InternalKey)
    requires AtMost(a, b) && AtMost(b, a)
    ensures a == b
  {
  }

  lemma BoundaryAdvances(levelFiles: Level, r: Level, k: InternalKey, f: File)
    requires FilesOk(levelFiles) && f in levelFiles && IsLargestKey(r, k) && Boundary(f, k)
    ensures Less(k, f.largest) && AtMost(f.smallest, f.largest)
    ensures Continues(r, f)
    ensures IsLargestKey(r + [f], f.largest)
  {
    EntryBounds(f, f.entries[0]);
    var m :| 0 <= m < |r| && r[m].largest == k;
    assert r[m] in r;
    assert (r + [f])[|r|].largest == f.largest;
  }
}
