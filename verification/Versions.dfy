// Tables, versions and point lookups (db/version_set.cc).
module Versions {
  import opened Keys

  const NUM_LEVELS := 7

  // A table as the version knows it, together with its contents.
  datatype File = File(number: nat, size: nat, smallest: InternalKey, largest: InternalKey, entries: seq<Entry>)

  type Level = seq<File>

  // Level 0 first.
  type Version = seq<Level>

  ghost predicate FileOk(f: File) {
    && f.entries != []
    && Sorted(f.entries)
    && f.smallest == f.entries[0].key
    && f.largest == f.entries[|f.entries| - 1].key
  }

  ghost predicate FilesOk(files: Level) {
    forall i :: 0 <= i < |files| ==> FileOk(files[i])
  }

  ghost predicate Disjoint(files: Level) {
    forall i, j :: 0 <= i < j < |files| ==> Less(files[i].largest, files[j].smallest)
  }

  ghost function LevelEntries(files: Level): set<Entry> {
    set i, e | 0 <= i < |files| && e in files[i].entries :: e
  }

  ghost function VersionEntries(v: Version): set<Entry> {
    set l, e | 0 <= l < |v| && e in LevelEntries(v[l]) :: e
  }

  // Every entry of `a` is newer than every entry of `b` for the same user key.
  ghost predicate NewerThan(a: set<Entry>, b: set<Entry>) {
    forall x, y :: x in a && y in b && x.key.user == y.key.user ==> x.key.sn > y.key.sn
  }

  // In level 0 a larger file number means newer entries.
  ghost predicate RecencyByNumber(files: Level) {
    forall f, g :: f in files && g in files ==>
      && (f.number == g.number ==> f == g)
      && (f.number > g.number ==> NewerThan(ToSet(f.entries), ToSet(g.entries)))
  }

  ghost predicate LevelsOrdered(v: Version) {
    forall i, j :: 0 <= i < j < |v| ==> NewerThan(LevelEntries(v[i]), LevelEntries(v[j]))
  }

  // The level invariant.
  ghost predicate VersionOk(v: Version) {
    && |v| == NUM_LEVELS
    && (forall l :: 0 <= l < |v| ==> FilesOk(v[l]))
    && (forall l :: 1 <= l < |v| ==> Disjoint(v[l]))
    && RecencyByNumber(v[0])
    && LevelsOrdered(v)
    && Distinct(VersionEntries(v))
  }

  // ----- searching -----

  // The first entry at or after `k`, which is what a table lookup delivers.
  function LowerBound(es: seq<Entry>, k: InternalKey): (i: nat)
    ensures i <= |es|
    ensures forall j :: 0 <= j < i ==> Less(es[j].key, k)
    ensures i < |es| ==> !Less(es[i].key, k)
  {
    if es == [] || !Less(es[0].key, k) then 0 else 1 + LowerBound(es[1..], k)
  }

  lemma EntryBounds(f: File, x: Entry)
    requires FileOk(f) && x in f.entries
    ensures !Less(x.key, f.smallest) && !Less(f.largest, x.key)
    ensures f.smallest.user <= x.key.user <= f.largest.user
  {
  }

  // The first file whose largest key is at or after `key`, in any list where all
  // files before such a file end before the key or none does after it.
  method FindFile(files: Level, key: InternalKey) returns (right: nat)
    requires forall i, j :: 0 <= i < j < |files| && Less(files[j].largest, key) ==> Less(files[i].largest, key)
    ensures right <= |files|
    ensures forall i :: 0 <= i < right ==> Less(files[i].largest, key)
    ensures forall i :: right <= i < |files| ==> !Less(files[i].largest, key)
  {
    var left := 0;
    right := |files|;
    while left < right
      invariant 0 <= left <= right <= |files|
      invariant forall i :: 0 <= i < left ==> Less(files[i].largest, key)
      invariant forall i :: right <= i < |files| ==> !Less(files[i].largest, key)
    {
      var mid := (left + right) / 2;
      if Less(files[mid].largest, key) {
        left := mid + 1;
      } else {
        right := mid;
      }
    }
  }

  lemma DisjointLargest(files: Level)
    requires FilesOk(files) && Disjoint(files)
    ensures forall i, j :: 0 <= i < j < |files| ==> Less(files[i].largest, files[j].largest)
    ensures forall i, j :: 0 <= i < j < |files| ==> Less(files[i].smallest, files[j].smallest)
  {
    forall i, j | 0 <= i < j < |files|
      ensures Less(files[i].largest, files[j].largest) && Less(files[i].smallest, files[j].smallest)
    {
      EntryBounds(files[j], files[j].entries[0]);
      EntryBounds(files[i], files[i].entries[0]);
    }
  }

  // ----- point lookup -----

  datatype Saver = NotFound | Found(value: Bytes) | Deleted

  ghost function SaverOf(e: Option<Entry>): Saver {
    match e
    case None => NotFound
    case Some(x) => if x.key.kind == Value then Found(x.value) else Deleted
  }

  // Reads one table and applies SaveValue to what it delivers.
  method Match(f: File, u: UserKey, s: Sequence) returns (r: Saver)
    requires FileOk(f) && Distinct(ToSet(f.entries))
    ensures r == SaverOf(Newest(ToSet(f.entries), u, s))
  {
    var i := LowerBound(f.entries, SeekKey(u, s));
    SeekDecides(f.entries, u, s, i);
    if i < |f.entries| && f.entries[i].key.user == u {
      NewestIs(ToSet(f.entries), u, s, f.entries[i]);
      r := if f.entries[i].key.kind == Value then Found(f.entries[i].value) else Deleted;
    } else {
      r := NotFound;
    }
  }

  function InsertNewestFirst(files: seq<File>, f: File): (r: seq<File>)
    requires forall i, j :: 0 <= i < j < |files| ==> files[i].number >= files[j].number
    ensures forall i, j :: 0 <= i < j < |r| ==> r[i].number >= r[j].number
    ensures forall x :: x in r <==> x == f || x in files
  {
    if files == [] || f.number >= files[0].number then [f] + files
    else
      assert files == [files[0]] + files[1..];
      var rest := InsertNewestFirst(files[1..], f);
      assert forall i :: 0 <= i < |rest| ==> rest[i] in rest;
      [files[0]] + rest
  }

  lemma {:induction false} InsertedOnce(files: seq<File>, f: File)
    requires forall i, j :: 0 <= i < j < |files| ==> files[i].number >= files[j].number
    ensures multiset(InsertNewestFirst(files, f)) == multiset(files) + multiset{f}
  {
    if files != [] && f.number < files[0].number {
      InsertedOnce(files[1..], f);
      assert files == [files[0]] + files[1..];
    }
  }

  // std::sort with NewestFirst.
  function SortNewestFirst(files: seq<File>): (r: seq<File>)
    ensures forall i, j :: 0 <= i < j < |r| ==> r[i].number >= r[j].number
    ensures multiset(r) == multiset(files)
    ensures forall x :: x in r <==> x in files
  {
    if files == [] then []
    else
      assert files == [files[0]] + files[1..];
      var rest := SortNewestFirst(files[1..]);
      InsertedOnce(rest, files[0]);
      InsertNewestFirst(rest, files[0])
  }

  lemma DistinctSubset(a: set<Entry>, b: set<Entry>)
    requires Distinct(b) && a <= b
    ensures Distinct(a)
  {
  }

  // The files of level 0 that cover the user key.
  ghost predicate Covering(files: Level, u: UserKey, tmp: seq<File>) {
    && (forall k :: 0 <= k < |files| && files[k].smallest.user <= u <= files[k].largest.user ==> files[k] in tmp)
    && (forall f :: f in tmp ==> f in files)
  }

  ghost predicate Misses(f: File, u: UserKey, s: nat) {
    Newest(ToSet(f.entries), u, s) == None
  }

  method CollectCovering(files: Level, u: UserKey) returns (tmp: seq<File>)
    ensures Covering(files, u, tmp)
    ensures forall i, j :: 0 <= i < j < |tmp| ==> tmp[i].number >= tmp[j].number
  {
    tmp := [];
    for i := 0 to |files|
      invariant forall k :: 0 <= k < i && files[k].smallest.user <= u <= files[k].largest.user ==> files[k] in tmp
      invariant forall f :: f in tmp ==> f in files
    {
      if u >= files[i].smallest.user && u <= files[i].largest.user {
        tmp := tmp + [files[i]];
      }
    }
    tmp := SortNewestFirst(tmp);
  }

  lemma FileDistinct(files: Level, f: File)
    requires f in files && Distinct(LevelEntries(files))
    ensures ToSet(f.entries) <= LevelEntries(files) && Distinct(ToSet(f.entries))
  {
    var k :| 0 <= k < |files| && files[k] == f;
    assert forall x :: x in files[k].entries ==> x in LevelEntries(files);
    DistinctSubset(ToSet(f.entries), LevelEntries(files));
  }

  // A visible entry of the level lies in a covering file, which then hits.
  lemma VisibleIsCovered(files: Level, u: UserKey, s: nat, tmp: seq<File>, x: Entry) returns (a: nat)
    requires FilesOk(files) && Covering(files, u, tmp)
    requires Visible(LevelEntries(files), u, s, x)
    ensures a < |tmp| && x in tmp[a].entries && !Misses(tmp[a], u, s)
  {
    var k :| 0 <= k < |files| && x in files[k].entries;
    EntryBounds(files[k], x);
    a :| 0 <= a < |tmp| && tmp[a] == files[k];
    NewestExists(ToSet(tmp[a].entries), u, s, x);
  }

  // The first covering file that hits beats every covering file, given its index.
  lemma FirstHitWins(files: Level, f: File, g: File, u: UserKey, s: nat, e: Entry, x: Entry)
    requires RecencyByNumber(files) && f in files && g in files && f.number >= g.number
    requires IsNewest(ToSet(f.entries), u, s, e)
    requires Visible(ToSet(g.entries), u, s, x)
    ensures x.key.sn <= e.key.sn
  {
    if g.number < f.number {
      assert NewerThan(ToSet(f.entries), ToSet(g.entries));
    }
  }

  lemma TmpFromFiles(files: Level, u: UserKey, tmp: seq<File>)
    requires Covering(files, u, tmp)
    ensures forall k :: 0 <= k < |tmp| ==> tmp[k] in files
  {
  }

  lemma Level0Hit(files: Level, tmp: seq<File>, i: nat, u: UserKey, s: Sequence)
    requires FilesOk(files) && RecencyByNumber(files) && Distinct(LevelEntries(files))
    requires Covering(files, u, tmp) && i < |tmp|
    requires forall k :: i < k < |tmp| ==> tmp[k].number <= tmp[i].number
    requires forall k :: 0 <= k < i ==> Misses(tmp[k], u, s)
    requires !Misses(tmp[i], u, s)
    ensures Newest(LevelEntries(files), u, s) == Newest(ToSet(tmp[i].entries), u, s)
  {
    var e := Newest(ToSet(tmp[i].entries), u, s).value;
    assert IsNewest(ToSet(tmp[i].entries), u, s, e);
    hide FilesOk, RecencyByNumber, Distinct, Covering, Newest;
    var all := LevelEntries(files);
    TmpFromFiles(files, u, tmp);
    forall x | Visible(all, u, s, x)
      ensures x.key.sn <= e.key.sn
    {
      var a := VisibleIsCovered(files, u, s, tmp, x);
      FirstHitWins(files, tmp[i], tmp[a], u, s, e, x);
    }
    FileDistinct(files, tmp[i]);
    assert Visible(all, u, s, e);
    NewestIs(all, u, s, e);
  }

  lemma Level0Miss(files: Level, tmp: seq<File>, u: UserKey, s: Sequence)
    requires FilesOk(files) && Covering(files, u, tmp)
    requires forall k :: 0 <= k < |tmp| ==> Misses(tmp[k], u, s)
    ensures Newest(LevelEntries(files), u, s) == None
  {
    if x :| Visible(LevelEntries(files), u, s, x) {
      var a := VisibleIsCovered(files, u, s, tmp, x);
    } else {
      NothingVisible(LevelEntries(files), u, s);
    }
  }

  // Level 0: every file that covers the user key, newest first.
  method GetLevel0(files: Level, u: UserKey, s: Sequence) returns (r: Saver)
    requires FilesOk(files) && RecencyByNumber(files) && Distinct(LevelEntries(files))
    ensures r == SaverOf(Newest(LevelEntries(files), u, s))
  {
    hide RecencyByNumber, Distinct, Covering, LevelEntries, Newest;
    var tmp := CollectCovering(files, u);
    TmpFromFiles(files, u, tmp);
    for i := 0 to |tmp|
      invariant forall k :: 0 <= k < i ==> Misses(tmp[k], u, s)
    {
      FileDistinct(files, tmp[i]);
      r := Match(tmp[i], u, s);
      if r != NotFound {
        Level0Hit(files, tmp, i, u, s);
        return;
      }
    }
    Level0Miss(files, tmp, u, s);
    r := NotFound;
  }

  // A deeper level: the one file a binary search selects.
  method GetSortedLevel(files: Level, u: UserKey, s: Sequence) returns (r: Saver)
    requires FilesOk(files) && Disjoint(files) && Distinct(LevelEntries(files))
    ensures r == SaverOf(Newest(LevelEntries(files), u, s))
  {
    DisjointLargest(files);
    var index := FindFile(files, SeekKey(u, s));
    ghost var all := LevelEntries(files);
    if index < |files| && u >= files[index].smallest.user {
      SortedLevelLookup(files, index, u, s);
      assert ToSet(files[index].entries) <= all;
      DistinctSubset(ToSet(files[index].entries), all);
      r := Match(files[index], u, s);
    } else {
      forall x ensures !Visible(all, u, s, x) {
        if Visible(all, u, s, x) {
          var k :| 0 <= k < |files| && x in files[k].entries;
          EntryBounds(files[k], x);
          assert false;
        }
      }
      r := NotFound;
    }
  }

  lemma SortedLevelLookup(files: Level, index: nat, u: UserKey, s: Sequence)
    requires FilesOk(files) && Disjoint(files) && Distinct(LevelEntries(files))
    requires index < |files|
    requires forall i :: 0 <= i < index ==> Less(files[i].largest, SeekKey(u, s))
    requires !Less(files[index].largest, SeekKey(u, s))
    ensures Newest(LevelEntries(files), u, s) == Newest(ToSet(files[index].entries), u, s)
  {
    var all, own := LevelEntries(files), ToSet(files[index].entries);
    var i := LowerBound(files[index].entries, SeekKey(u, s));
    var e := files[index].entries[i];
    SeekDecides(files[index].entries, u, s, i);
    EntryBounds(files[index], e);
    forall x | Visible(all, u, s, x)
      ensures e.key.user == u && x.key.sn <= e.key.sn
    {
      var k :| 0 <= k < |files| && x in files[k].entries;
      EntryBounds(files[k], x);
      if k == index {
        assert Visible(own, u, s, x);
      } else if k > index {
        assert Less(files[index].largest, files[k].smallest);
      } else {
        assert false;
      }
    }
    assert own <= all;
    DistinctSubset(own, all);
    if e.key.user == u {
      NewestIs(own, u, s, e);
      assert IsNewest(all, u, s, e);
      NewestIs(all, u, s, e);
    } else {
      NothingVisible(own, u, s);
      NothingVisible(all, u, s);
    }
  }

  // The entries of levels l and above.
  ghost function From(v: Version, l: nat): set<Entry>
    requires l <= |v|
  {
    set i, e | l <= i < |v| && e in LevelEntries(v[i]) :: e
  }

  lemma FromAll(v: Version)
    ensures From(v, 0) == VersionEntries(v)
    ensures From(v, |v|) == {}
  {
  }

  lemma HitHides(v: Version, l: nat, u: UserKey, s: Sequence, e: Entry)
    requires LevelsOrdered(v) && l < |v| && Distinct(From(v, l))
    requires IsNewest(LevelEntries(v[l]), u, s, e)
    ensures Newest(From(v, l), u, s) == Some(e)
  {
    var all := From(v, l);
    forall x | Visible(all, u, s, x)
      ensures x.key.sn <= e.key.sn
    {
      var i :| l <= i < |v| && x in LevelEntries(v[i]);
      if i == l {
        assert Visible(LevelEntries(v[l]), u, s, x);
      } else {
        assert NewerThan(LevelEntries(v[l]), LevelEntries(v[i]));
      }
    }
    assert Visible(all, u, s, e);
    NewestIs(all, u, s, e);
  }

  // Two sets that show the same entries of u at s read alike.
  lemma SameVisibleSameNewest(a: set<Entry>, b: set<Entry>, u: UserKey, s: nat)
    requires Distinct(a) && Distinct(b)
    requires forall x :: Visible(a, u, s, x) <==> Visible(b, u, s, x)
    ensures Newest(a, u, s) == Newest(b, u, s)
  {
    if x :| Visible(a, u, s, x) {
      NewestExists(a, u, s, x);
      var e := Newest(a, u, s).value;
      assert IsNewest(b, u, s, e);
      NewestIs(b, u, s, e);
    } else {
      NothingVisible(a, u, s);
      NothingVisible(b, u, s);
    }
  }

  lemma MissFallsThrough(v: Version, l: nat, u: UserKey, s: Sequence)
    requires l < |v| && Distinct(From(v, l)) && Distinct(From(v, l + 1))
    requires Newest(LevelEntries(v[l]), u, s) == None
    ensures Newest(From(v, l), u, s) == Newest(From(v, l + 1), u, s)
  {
    forall x ensures Visible(From(v, l), u, s, x) <==> Visible(From(v, l + 1), u, s, x) {
      if Visible(LevelEntries(v[l]), u, s, x) {
        NewestExists(LevelEntries(v[l]), u, s, x);
      }
    }
    SameVisibleSameNewest(From(v, l), From(v, l + 1), u, s);
  }

  lemma PartsDistinct(v: Version, l: nat)
    requires l < |v| && Distinct(VersionEntries(v))
    ensures Distinct(LevelEntries(v[l])) && Distinct(From(v, l)) && Distinct(From(v, l + 1))
  {
    DistinctSubset(LevelEntries(v[l]), VersionEntries(v));
    DistinctSubset(From(v, l), VersionEntries(v));
    DistinctSubset(From(v, l + 1), VersionEntries(v));
  }

  // A hit in level l hides everything below; a miss leaves the lower levels.
  lemma LevelHitOrMiss(v: Version, l: nat, u: UserKey, s: Sequence)
    requires VersionOk(v) && l < |v|
    ensures var here := Newest(LevelEntries(v[l]), u, s);
      Newest(From(v, l), u, s) == if here.Some? then here else Newest(From(v, l + 1), u, s)
  {
    PartsDistinct(v, l);
    var here := Newest(LevelEntries(v[l]), u, s);
    if here.Some? {
      HitHides(v, l, u, s, here.value);
    } else {
      MissFallsThrough(v, l, u, s);
    }
  }

  // One step of the search: a hit is the answer, a miss moves the question on.
  method GetAtLevel(v: Version, level: nat, u: UserKey, s: Sequence) returns (r: Saver)
    requires VersionOk(v) && level < |v|
    ensures r != NotFound ==> r == SaverOf(Newest(From(v, level), u, s))
    ensures r == NotFound ==> Newest(From(v, level), u, s) == Newest(From(v, level + 1), u, s)
  {
    PartsDistinct(v, level);
    LevelHitOrMiss(v, level, u, s);
    if level == 0 {
      r := GetLevel0(v[0], u, s);
    } else {
      r := GetSortedLevel(v[level], u, s);
    }
  }

  // Version::Get probes level 0 newest first and then at most one file of each
  // deeper level, and still answers from the newest visible entry of all files.
  method Get(v: Version, u: UserKey, s: Sequence) returns (r: Saver)
    requires VersionOk(v)
    ensures r == SaverOf(Newest(VersionEntries(v), u, s))
  {
    FromAll(v);
    for level := 0 to |v|
      invariant Newest(VersionEntries(v), u, s) == Newest(From(v, level), u, s)
    {
      r := GetAtLevel(v, level, u, s);
      if r != NotFound {
        return;
      }
    }
    NothingVisible(From(v, |v|), u, s);
    r := NotFound;
  }
}
