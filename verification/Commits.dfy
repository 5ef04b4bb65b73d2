// What a MANIFEST holds: the edits that LogAndApply committed, the snapshot that
// opens a new one, and what reading their records gives back
// (db/version_set.cc, LogAndApply, WriteSnapshot and Recover).
module Commits {
  import opened Keys
  import opened Codings
  import opened Versions
  import opened Builders
  import opened Catalog
  import Logs
  import Manifests
  import VersionEdits

  datatype Counters = Counters(logNumber: nat, nextFile: nat, lastSequence: nat)

  // One record; the opening snapshot carries no numbers.
  datatype Commit = Commit(edit: Edit, counters: Option<Counters>)

  function EditsOf(m: seq<Commit>): (r: seq<Edit>)
    ensures |r| == |m| && forall i :: 0 <= i < |m| ==> r[i] == m[i].edit
  {
    seq(|m|, i requires 0 <= i < |m| => m[i].edit)
  }

  // The edits one after another make `v`.
  ghost predicate Makes(edits: seq<Edit>, v: Version) {
    exists versions :: History(edits, versions) && versions[|edits|] == v
  }

  ghost predicate EditsOk(edits: seq<Edit>) {
    forall i :: 0 <= i < |edits| ==> EditOk(edits[i])
  }

  // The records make this version and end with these numbers.
  ghost predicate ManifestOk(m: seq<Commit>, v: Version, counters: Counters) {
    && m != [] && m[|m| - 1].counters == Some(counters)
    && EditsOk(EditsOf(m)) && NamesUnique(EditsOf(m)) && Makes(EditsOf(m), v)
  }

  // No file of this number was ever recorded.
  ghost predicate Unnamed(m: seq<Commit>, n: nat) {
    forall f :: AddedBy(EditsOf(m), f) ==> f.number != n
  }

  ghost predicate NamedBelow(m: seq<Commit>, n: nat) {
    forall f :: AddedBy(EditsOf(m), f) ==> f.number < n
  }

  // ----- one more record -----

  lemma MoreEdits(m: seq<Commit>, c: Commit)
    ensures EditsOf(m + [c]) == EditsOf(m) + [c.edit]
  {
  }

  lemma AddedByMore(edits: seq<Edit>, e: Edit, f: File)
    ensures AddedBy(edits + [e], f) <==> AddedBy(edits, f) || exists l :: (l, f) in e.added
  {
    var all := edits + [e];
    if AddedBy(edits, f) {
      var i, l :| 0 <= i < |edits| && (l, f) in edits[i].added;
      assert all[i] == edits[i];
    }
    if l :| (l, f) in e.added {
      assert all[|edits|] == e;
    }
  }

  lemma MakesMore(edits: seq<Edit>, v: Version, e: Edit, v': Version)
    requires Makes(edits, v) && Edited(v, e, v')
    ensures Makes(edits + [e], v')
  {
    hide Edited;
    var versions :| History(edits, versions) && versions[|edits|] == v;
    var longer := versions + [v'];
    assert History(edits + [e], longer);
  }

  lemma NothingThere(l: nat, f: File)
    ensures l < NUM_LEVELS ==> f !in EMPTY_VERSION[l]
  {
    assert l < NUM_LEVELS ==> EMPTY_VERSION[l] == [];
  }

  // Every file of the version was recorded.
  lemma {:induction false} FilesAreNamed(edits: seq<Edit>, versions: seq<Version>, n: nat, l: nat, f: File)
    requires History(edits, versions) && n <= |edits| && |versions[n]| == NUM_LEVELS && l < NUM_LEVELS
    requires f in versions[n][l]
    ensures AddedBy(edits, f)
    decreases n
  {
    hide SortedFiles;
    if n == 0 {
      NothingThere(l, f);
    } else {
      assert Edited(versions[n - 1], edits[n - 1], versions[n - 1 + 1]);
      assert f in Step(FilesOf(versions[n - 1][l]), edits[n - 1], l);
      if f in versions[n - 1][l] {
        FilesAreNamed(edits, versions, n - 1, l, f);
      }
    }
  }

  lemma FileIsNamed(m: seq<Commit>, v: Version, counters: Counters, l: nat, f: File)
    requires ManifestOk(m, v, counters) && l < NUM_LEVELS == |v| && f in v[l]
    ensures AddedBy(EditsOf(m), f)
  {
    var versions :| History(EditsOf(m), versions) && versions[|EditsOf(m)|] == v;
    FilesAreNamed(EditsOf(m), versions, |m|, l, f);
  }

  // The files that an edit adds have a number that was never recorded, or are
  // recorded files.
  ghost predicate AddsNew(m: seq<Commit>, e: Edit) {
    && (forall l, f :: (l, f) in e.added ==> Unnamed(m, f.number) || AddedBy(EditsOf(m), f))
    && forall k, l, f, g :: (k, f) in e.added && (l, g) in e.added && f.number == g.number ==> f == g
  }

  lemma NamesStayUnique(m: seq<Commit>, c: Commit)
    requires NamesUnique(EditsOf(m)) && AddsNew(m, c.edit)
    ensures NamesUnique(EditsOf(m + [c]))
  {
    hide AddedBy;
    MoreEdits(m, c);
    forall f, g | AddedBy(EditsOf(m + [c]), f) && AddedBy(EditsOf(m + [c]), g) && f.number == g.number ensures f == g {
      AddedByMore(EditsOf(m), c.edit, f);
      AddedByMore(EditsOf(m), c.edit, g);
    }
  }

  lemma MoreEditsOk(m: seq<Commit>, c: Commit)
    requires EditsOk(EditsOf(m)) && EditOk(c.edit)
    ensures EditsOk(EditsOf(m + [c]))
  {
  }

  lemma Recording(m: seq<Commit>, v: Version, counters: Counters, e: Edit, v': Version, counters': Counters)
    requires ManifestOk(m, v, counters) && EditOk(e) && Edited(v, e, v') && AddsNew(m, e)
    ensures ManifestOk(m + [Commit(e, Some(counters'))], v', counters')
  {
    hide Edited, EditOk, AddsNew, Makes, NamesUnique, EditsOk;
    var c := Commit(e, Some(counters'));
    MoreEdits(m, c);
    MakesMore(EditsOf(m), v, e, v');
    NamesStayUnique(m, c);
    MoreEditsOk(m, c);
  }

  lemma NamedBelowMore(m: seq<Commit>, v: Version, e: Edit, v': Version, counters: Option<Counters>, n: nat)
    requires NamedBelow(m, n) && EditOk(e) && Edited(v, e, v')
    requires forall l, f :: 0 <= l < |v'| && f in v'[l] ==> f.number < n
    ensures NamedBelow(m + [Commit(e, counters)], n)
  {
    hide SortedFiles;
    MoreEdits(m, Commit(e, counters));
    forall f | AddedBy(EditsOf(m + [Commit(e, counters)]), f) ensures f.number < n {
      AddedByMore(EditsOf(m), e, f);
      if l :| (l, f) in e.added {
        assert f in Step(FilesOf(v[l]), e, l);
      }
    }
  }

  lemma StillUnnamed(m: seq<Commit>, c: Commit, n: nat)
    requires Unnamed(m, n) && forall l, f :: (l, f) in c.edit.added ==> f.number != n
    ensures Unnamed(m + [c], n)
  {
    hide AddedBy;
    MoreEdits(m, c);
    forall f | AddedBy(EditsOf(m + [c]), f) ensures f.number != n {
      AddedByMore(EditsOf(m), c.edit, f);
    }
  }

  // ----- a new MANIFEST -----

  function AddedFrom(v: Version, l: nat): seq<(nat, File)>
    requires l <= |v|
    decreases |v| - l
  {
    if l == |v| then [] else Added(v[l], l) + AddedFrom(v, l + 1)
  }

  // WriteSnapshot: every file of the version.
  function SnapshotEdit(v: Version): Edit {
    Edit({}, AddedFrom(v, 0))
  }

  lemma {:induction false} AddedFromHas(v: Version, k: nat, l: nat, f: File)
    requires k <= |v|
    ensures (l, f) in AddedFrom(v, k) <==> k <= l < |v| && f in v[l]
    decreases |v| - k
  {
    if k < |v| {
      AddedFromHas(v, k + 1, l, f);
    }
  }

  lemma SnapshotMakes(v: Version)
    requires |v| == NUM_LEVELS && forall l :: 0 <= l < NUM_LEVELS ==> SortedFiles(v[l])
    ensures EditOk(SnapshotEdit(v)) && Edited(EMPTY_VERSION, SnapshotEdit(v), v)
  {
    hide SortedFiles, AddedFrom;
    var e := SnapshotEdit(v);
    forall i | 0 <= i < |e.added| ensures e.added[i].0 < NUM_LEVELS {
      AddedFromHas(v, 0, e.added[i].0, e.added[i].1);
      assert (e.added[i].0, e.added[i].1) in e.added;
    }
    forall l, f | 0 <= l < NUM_LEVELS ensures f in v[l] <==> f in Step(FilesOf(EMPTY_VERSION[l]), e, l) {
      AddedFromHas(v, 0, l, f);
      assert EMPTY_VERSION[l] == [];
    }
  }

  // A snapshot of `v` and the edit that makes `v'` of it.
  function Reopened(v: Version, e: Edit, counters: Counters): seq<Commit> {
    [Commit(SnapshotEdit(v), None), Commit(e, Some(counters))]
  }

  lemma OneEdit(e: Edit, v: Version)
    requires Edited(EMPTY_VERSION, e, v)
    ensures Makes([e], v)
  {
    hide Edited;
    var versions := [EMPTY_VERSION, v];
    assert History([e], versions);
  }

  // Every file of a level-by-level numbered version keeps its number.
  lemma ReopenedOk(v: Version, n: nat, e: Edit, v': Version, n': nat, counters: Counters)
    requires Catalogued(v, n) && EditOk(e) && Edited(v, e, v') && e.deleted == {} && Catalogued(v', n')
    ensures ManifestOk(Reopened(v, e, counters), v', counters) && NamedBelow(Reopened(v, e, counters), n')
  {
    hide SnapshotEdit, SortedFiles, Step;
    var m, s := Reopened(v, e, counters), SnapshotEdit(v);
    SnapshotMakes(v);
    OneEdit(s, v);
    assert EditsOf(m) == [s] + [e];
    forall f | AddedBy(EditsOf(m), f) ensures exists l :: 0 <= l < NUM_LEVELS && f in v'[l] {
      ReopenedFile(v, e, v', f);
    }
    MakesMore([s], v, e, v');
    assert EditsOk(EditsOf(m));
  }

  lemma ReopenedFile(v: Version, e: Edit, v': Version, f: File)
    requires |v| == NUM_LEVELS && EditOk(e) && Edited(v, e, v') && e.deleted == {}
    requires AddedBy([SnapshotEdit(v)] + [e], f)
    ensures exists l :: 0 <= l < NUM_LEVELS && f in v'[l]
  {
    hide SortedFiles;
    AddedByMore([SnapshotEdit(v)], e, f);
    if l :| (l, f) in e.added {
      assert f in Step(FilesOf(v[l]), e, l);
    } else {
      var i, l :| 0 <= i < 1 && (l, f) in [SnapshotEdit(v)][i].added;
      AddedFromHas(v, 0, l, f);
      assert f in Step(FilesOf(v[l]), e, l);
    }
  }

  // What NewDB writes.
  lemma NewManifestOk(counters: Counters)
    ensures ManifestOk([Commit(Edit({}, []), Some(counters))], EMPTY_VERSION, counters)
  {
    var e := Edit({}, []);
    forall l | 0 <= l < NUM_LEVELS ensures Lists(EMPTY_VERSION[l], Step(FilesOf(EMPTY_VERSION[l]), e, l)) {
      assert EMPTY_VERSION[l] == [];
    }
    assert |EMPTY_VERSION| == NUM_LEVELS;
    OneEdit(e, EMPTY_VERSION);
    assert EditsOf([Commit(e, Some(counters))]) == [e];
  }

  // ----- the bytes -----

  // The fields of a record that carry the numbers; there is never a log before
  // the log.
  predicate Carries(e: VersionEdits.Edit, counters: Option<Counters>) {
    && (e.prevLogNumber.Some? ==> e.prevLogNumber.value == 0)
    && match counters
       case None => e.logNumber == None && e.nextFileNumber == None && e.lastSequence == None
       case Some(n) =>
         e.logNumber == Some(n.logNumber) && e.nextFileNumber == Some(n.nextFile) &&
         e.lastSequence == Some(n.lastSequence)
  }

  // `es` are the edits of the records as EncodeTo takes them; `tables` says what
  // table each number ever named.
  ghost predicate AreRecords(es: seq<VersionEdits.Edit>, m: seq<Commit>, tables: map<nat, seq<Entry>>,
      comparator: Bytes) {
    && |es| == |m| && Manifests.Compares(es, comparator)
    && forall i :: 0 <= i < |es| ==>
         VersionEdits.EditFits(es[i]) && Manifests.Abstract(es[i], tables) == m[i].edit && Carries(es[i], m[i].counters)
  }

  // What recovery starts from.
  function StateOf(v: Version, n: Counters): Manifests.Recovered {
    Manifests.Recovered(v, n.nextFile + 1, n.lastSequence, n.logNumber, 0)
  }

  lemma RecordsAreRun(es: seq<VersionEdits.Edit>, m: seq<Commit>, tables: map<nat, seq<Entry>>, comparator: Bytes,
      versions: seq<Version>)
    requires AreRecords(es, m, tables, comparator) && History(EditsOf(m), versions)
    requires EditsOk(EditsOf(m)) && NamesUnique(EditsOf(m))
    ensures Manifests.IsRun(es, tables, versions)
  {
    hide VersionEdits.EditFits, Manifests.Abstract, NamesUnique, History, Carries, Manifests.Compares;
    assert Manifests.AbstractAll(es, tables) == EditsOf(m);
    forall i | 0 <= i < |es| ensures VersionEdits.EditFits(es[i]) && EditOk(Manifests.Abstract(es[i], tables)) {
      assert EditsOf(m)[i] == m[i].edit;
    }
  }

  lemma {:induction false} NoPrevLog(ns: seq<Option<nat>>)
    requires forall i :: 0 <= i < |ns| ==> ns[i].Some? ==> ns[i].value == 0
    ensures Manifests.LastSet(ns).Some? ==> Manifests.LastSet(ns).value == 0
  {
    if ns != [] {
      NoPrevLog(ns[..|ns| - 1]);
    }
  }

  // The numbers of the last record are the ones recovery ends with.
  lemma LastNumbers(es: seq<VersionEdits.Edit>, m: seq<Commit>, tables: map<nat, seq<Entry>>, comparator: Bytes,
      n: nat, counters: Counters, versions: seq<Version>)
    requires AreRecords(es, m, tables, comparator) && 0 < n <= |es| && m[n - 1].counters == Some(counters)
    requires |versions| == |es| + 1
    ensures Manifests.HasNumbers(es[..n])
    ensures forall r :: Manifests.IsStateAfter(r, es, versions, n) ==> r == StateOf(versions[n], counters)
  {
    hide VersionEdits.EditFits, Manifests.Abstract, Manifests.Compares;
    assert Carries(es[n - 1], m[n - 1].counters);
    var done := es[..n];
    assert done[n - 1] == es[n - 1];
    forall i | 0 <= i < n ensures Carries(done[i], m[i].counters) {
      assert done[i] == es[i];
    }
    NoPrevLog(Manifests.PrevLogNumbers(done));
  }

  // The edits make one version only.
  lemma {:induction false} HistoryIsUnique(edits: seq<Edit>, versions: seq<Version>, others: seq<Version>, n: nat)
    requires History(edits, versions) && n <= |edits| < |others| && others[0] == EMPTY_VERSION
    requires forall i :: 0 <= i < n ==> Edited(others[i], edits[i], others[i + 1])
    ensures versions[n] == others[n]
    decreases n
  {
    hide Edited;
    if n > 0 {
      HistoryIsUnique(edits, versions, others, n - 1);
      EditedIsUnique(versions[n - 1], edits[n - 1], versions[n - 1 + 1], others[n - 1 + 1]);
    }
  }

  lemma EditedIsUnique(v: Version, e: Edit, a: Version, b: Version)
    requires Edited(v, e, a) && Edited(v, e, b)
    ensures a == b
  {
    hide SortedFiles, Step;
    forall l | 0 <= l < NUM_LEVELS ensures a[l] == b[l] {
      assert forall f :: f in a[l] <==> f in Step(FilesOf(v[l]), e, l);
      ListIsUnique(a[l], b[l]);
    }
  }

  lemma PrefixMakes(m: seq<Commit>, c: Commit, v: Version, versions: seq<Version>)
    requires Makes(EditsOf(m), v) && History(EditsOf(m + [c]), versions)
    ensures versions[|m|] == v
  {
    hide Edited;
    MoreEdits(m, c);
    var edits := EditsOf(m);
    var others :| History(edits, others) && others[|edits|] == v;
    assert forall i :: 0 <= i < |edits| ==> EditsOf(m + [c])[i] == edits[i];
    HistoryIsUnique(edits, others, versions, |edits|);
  }

  lemma HistoryOf(m: seq<Commit>, v: Version, counters: Counters) returns (versions: seq<Version>)
    requires ManifestOk(m, v, counters)
    ensures History(EditsOf(m), versions) && |versions| == |m| + 1 && versions[|m|] == v
    ensures EditsOk(EditsOf(m)) && NamesUnique(EditsOf(m))
  {
    hide Edited, NamesUnique, EditsOk;
    versions :| History(EditsOf(m), versions) && versions[|EditsOf(m)|] == v;
  }

  // The records of a MANIFEST, and the one that is being written, if any.
  function WithLast(m: seq<Commit>, c: Option<Commit>): seq<Commit> {
    if c.Some? then m + [c.value] else m
  }

  lemma RecordedFront(es: seq<VersionEdits.Edit>, n: nat)
    requires n <= |es|
    ensures Manifests.Recorded(es[..n]) == Manifests.Recorded(es)[..n]
  {
    hide VersionEdits.Encoded, VersionEdits.Items;
  }

  // How many records are whole when all but the last are known to be.
  lemma WholeRecords(records: seq<Bytes>, k: nat, n: nat, first: nat)
    requires Logs.IsWhole(records, k, n) && first <= |records| <= first + 1
    requires |Logs.LogOf(records[..first])| <= k <= |Logs.LogOf(records)|
    ensures n == if k == |Logs.LogOf(records)| then |records| else first
  {
    hide Logs.LogOf, Logs.Emit;
    assert records[..|records|] == records;
    if first < |records| {
      Logs.LogStep(records, first);
      Logs.EmitNotEmpty(|Logs.LogOf(records[..first])|, records[first], true);
    }
    if n < first {
      FewerAreShorter(records, n + 1, first);
    }
  }

  lemma FewerAreShorter(records: seq<Bytes>, i: nat, j: nat)
    requires i <= j <= |records|
    ensures |Logs.LogOf(records[..i])| <= |Logs.LogOf(records[..j])|
  {
    hide Logs.LogOf;
    Logs.LogGrows(records[..j], i);
    assert records[..j][..i] == records[..i];
  }

  lemma FirstCompare(es: seq<VersionEdits.Edit>, m: seq<Commit>, tables: map<nat, seq<Entry>>, comparator: Bytes,
      n: nat)
    requires AreRecords(es, m, tables, comparator) && n <= |es|
    ensures Manifests.Compares(es[..n], comparator)
  {
    hide VersionEdits.EditFits, Manifests.Abstract, Carries;
    forall i | 0 <= i < n ensures es[..n][i].comparator == None || es[..n][i].comparator == Some(comparator) {
      assert es[..n][i] == es[i];
    }
  }

  // What has been made after all records but the last, and after all.
  lemma MadeBy(m: seq<Commit>, c: Option<Commit>, v: Version, counters: Counters, v': Version, counters': Counters,
      versions: seq<Version>, n: nat)
    requires ManifestOk(m, v, counters) && ManifestOk(WithLast(m, c), v', counters')
    requires History(EditsOf(WithLast(m, c)), versions) && versions[|WithLast(m, c)|] == v'
    requires n == |m| || n == |WithLast(m, c)|
    ensures 0 < n <= |WithLast(m, c)| < |versions|
    ensures n == |WithLast(m, c)| ==> versions[n] == v' && WithLast(m, c)[n - 1].counters == Some(counters')
    ensures n == |m| ==> versions[n] == v && WithLast(m, c)[n - 1].counters == Some(counters)
  {
    hide NamesUnique, EditsOk, Edited;
    if c.Some? {
      PrefixMakes(m, c.value, v, versions);
    } else {
      var others :| History(EditsOf(m), others) && others[|EditsOf(m)|] == v;
      HistoryIsUnique(EditsOf(m), versions, others, |m|);
    }
  }

  // Reading a MANIFEST of which every record but perhaps the last is there: the
  // version and numbers before the last commit, or after it exactly when its
  // record is whole.
  method ReadManifest(file: Bytes, comparator: Bytes, tables: map<nat, seq<Entry>>, ghost es: seq<VersionEdits.Edit>,
      ghost m: seq<Commit>, ghost v: Version, ghost counters: Counters,
      ghost c: Option<Commit>, ghost v': Version, ghost counters': Counters)
    returns (r: Option<Manifests.Recovered>)
    requires ManifestOk(m, v, counters) && ManifestOk(WithLast(m, c), v', counters')
    requires AreRecords(es, WithLast(m, c), tables, comparator) && file <= Logs.LogOf(Manifests.Recorded(es))
    requires |m| <= |es| && |Logs.LogOf(Manifests.Recorded(es[..|m|]))| <= |file|
    ensures r ==
      Some(if file == Logs.LogOf(Manifests.Recorded(es)) then StateOf(v', counters') else StateOf(v, counters))
  {
    hide ManifestOk, AreRecords, Logs.LogOf, Logs.IsWhole, Manifests.IsRun, Manifests.Recorded, History, Makes,
      NamesUnique, Manifests.HasNumbers, Manifests.IsStateAfter, Manifests.Compares, EditsOk;
    ghost var all, records := WithLast(m, c), Manifests.Recorded(es);
    ghost var versions := HistoryOf(all, v', counters');
    RecordsAreRun(es, all, tables, comparator, versions);
    assert |es| == |all| by {
      SameLength(es, all, tables, comparator);
    }
    var n;
    r, n := Manifests.Recover(file, tables, comparator, es, versions);
    RecordedFront(es, |m|);
    WholeRecords(records, |file|, n, |m|);
    assert |file| == |Logs.LogOf(records)| ==> file == Logs.LogOf(records);
    FirstCompare(es, all, tables, comparator, n);
    MadeBy(m, c, v, counters, v', counters', versions, n);
    if n == |all| {
      LastNumbers(es, all, tables, comparator, n, counters', versions);
    } else {
      LastNumbers(es, all, tables, comparator, n, counters, versions);
    }
  }

  lemma SameLength(es: seq<VersionEdits.Edit>, m: seq<Commit>, tables: map<nat, seq<Entry>>, comparator: Bytes)
    requires AreRecords(es, m, tables, comparator)
    ensures |es| == |m|
  {
    hide VersionEdits.EditFits, Manifests.Abstract, Manifests.Compares, Carries;
  }
}
