// VersionSet::Builder: applying edits to a version (db/version_set.cc).
module Builders {
  import opened Keys
  import opened Versions

  // A version edit: files removed by level and number, files added by level.
  datatype Edit = Edit(deleted: set<(nat, nat)>, added: seq<(nat, File)>)

  predicate EditOk(e: Edit) {
    && (forall d :: d in e.deleted ==> d.0 < NUM_LEVELS)
    && (forall i :: 0 <= i < |e.added| ==> e.added[i].0 < NUM_LEVELS)
  }

  // BySmallestKey: by smallest key, ties broken by file number.
  predicate BySmallest(f: File, g: File) {
    Less(f.smallest, g.smallest) || (f.smallest == g.smallest && f.number < g.number)
  }

  ghost predicate SortedFiles(files: seq<File>) {
    forall i, j :: 0 <= i < j < |files| ==> BySmallest(files[i], files[j])
  }

  // `files` lists exactly the set, in order.
  ghost predicate Lists(files: seq<File>, s: iset<File>) {
    SortedFiles(files) && forall f :: f in files <==> f in s
  }

  lemma HeadOnce(a: seq<File>)
    requires SortedFiles(a) && a != []
    ensures forall f :: f in a[1..] <==> f in a && f != a[0]
  {
    forall f | f in a[1..] ensures f != a[0] {
      var i :| 0 <= i < |a| - 1 && a[1..][i] == f;
      assert BySmallest(a[0], a[i + 1]);
    }
  }

  lemma {:induction false} ListIsUnique(a: seq<File>, b: seq<File>)
    requires SortedFiles(a) && SortedFiles(b)
    requires forall f :: f in a <==> f in b
    ensures a == b
  {
    assert (a != [] ==> a[0] in a) && (b != [] ==> b[0] in b);
    if a != [] && b != [] {
      assert a[0] in b && b[0] in a;
      assert a[0] == b[0];
      assert a == [a[0]] + a[1..] && b == [b[0]] + b[1..];
      HeadOnce(a);
      HeadOnce(b);
      ListIsUnique(a[1..], b[1..]);
    }
  }

  // Insertion into a std::set ordered by BySmallestKey.
  function Insert(files: seq<File>, f: File): (r: seq<File>)
    requires SortedFiles(files)
    ensures SortedFiles(r)
    ensures (forall g :: g in files && g.number == f.number && g.smallest == f.smallest ==> g == f) ==>
      forall g :: g in r <==> g in files || g == f
    ensures forall g :: g in files ==> g in r
    ensures forall g :: g in r ==> g in files || g == f
  {
    if files == [] then [f]
    else if BySmallest(f, files[0]) then [f] + files
    else if BySmallest(files[0], f) then
      var rest := Insert(files[1..], f);
      assert forall i :: 0 <= i < |rest| ==> rest[i] in rest;
      assert forall g :: g in files <==> g == files[0] || g in files[1..];
      [files[0]] + rest
    else
      assert files[0].smallest == f.smallest && files[0].number == f.number;
      files
  }

  // One edit, seen on the live files of a level.
  ghost function Step(live: iset<File>, e: Edit, level: nat): iset<File> {
    iset f | (f in live && (level, f.number) !in e.deleted) || (level, f) in e.added
  }

  ghost function FilesOf(files: seq<File>): iset<File> {
    iset f | f in files
  }

  // A file number always names one table.
  ghost predicate NamesAgree(a: iset<File>, e: Edit) {
    && (forall f, i :: f in a && 0 <= i < |e.added| && e.added[i].1.number == f.number ==> e.added[i].1 == f)
    && (forall i, j :: 0 <= i < |e.added| && 0 <= j < |e.added| && e.added[i].1.number == e.added[j].1.number ==>
          e.added[i].1 == e.added[j].1)
  }

  // `after` is the version that `e` makes of `before`.
  ghost predicate Edited(before: Version, e: Edit, after: Version) {
    && |before| == |after| == NUM_LEVELS
    && forall l :: 0 <= l < NUM_LEVELS ==> Lists(after[l], Step(FilesOf(before[l]), e, l))
  }

  datatype LevelState = LevelState(deletedFiles: set<nat>, addedFiles: seq<File>)

  // Every file the builder knows of at a level.
  ghost function Known(base: seq<File>, st: LevelState): iset<File> {
    iset f | f in base || f in st.addedFiles
  }

  // The files that SaveTo would write.
  ghost function Live(base: seq<File>, st: LevelState): iset<File> {
    iset f | f in Known(base, st) && f.number !in st.deletedFiles
  }

  function DeleteFiles(st: LevelState, numbers: set<nat>): LevelState {
    st.(deletedFiles := st.deletedFiles + numbers)
  }

  function AddFile(st: LevelState, f: File): LevelState
    requires SortedFiles(st.addedFiles)
  {
    LevelState(st.deletedFiles - {f.number}, Insert(st.addedFiles, f))
  }

  // The deletions of `e` and its first i additions, done at level l.
  ghost predicate Applied(base: seq<File>, st: LevelState, st': LevelState, e: Edit, l: nat, i: nat)
    requires i <= |e.added|
  {
    && SortedFiles(st'.addedFiles)
    && NamesAgree(Known(base, st'), e)
    && Live(base, st') == Step(Live(base, st), Edit(e.deleted, e.added[..i]), l)
    && forall f :: f in st'.addedFiles ==> f in st.addedFiles || (l, f) in e.added[..i]
  }

  lemma AppliedStart(base: seq<File>, st: LevelState, numbers: set<nat>, e: Edit, l: nat)
    requires SortedFiles(st.addedFiles) && NamesAgree(Known(base, st), e)
    requires forall n :: n in numbers <==> (l, n) in e.deleted
    ensures Applied(base, st, DeleteFiles(st, numbers), e, l, 0)
  {
    assert Known(base, DeleteFiles(st, numbers)) == Known(base, st);
  }

  lemma AppliedAdd(base: seq<File>, st: LevelState, st': LevelState, e: Edit, l: nat, i: nat)
    requires i < |e.added| && Applied(base, st, st', e, l, i) && e.added[i].0 == l
    ensures Applied(base, st, AddFile(st', e.added[i].1), e, l, i + 1)
  {
    var f := e.added[i].1;
    assert e.added[..i + 1] == e.added[..i] + [(l, f)];
    assert forall g :: g in Known(base, st') && g.number == f.number ==> g == f;
    assert forall g :: g in Known(base, AddFile(st', f)) <==> g in Known(base, st') || g == f;
    assert forall g :: g in Live(base, AddFile(st', f)) <==> g in Live(base, st') || g == f;
    forall g ensures (l, g) in e.added[..i + 1] <==> (l, g) in e.added[..i] || g == f {
      assert e.added[..i + 1][i] == (l, f);
    }
  }

  lemma AppliedSkip(base: seq<File>, st: LevelState, st': LevelState, e: Edit, l: nat, i: nat)
    requires i < |e.added| && Applied(base, st, st', e, l, i) && e.added[i].0 != l
    ensures Applied(base, st, st', e, l, i + 1)
  {
    assert e.added[..i + 1] == e.added[..i] + [e.added[i]];
  }

  class Builder {
    const base: Version
    var levels: seq<LevelState>

    ghost predicate Valid()
      reads this
    {
      && |base| == |levels| == NUM_LEVELS
      && forall l :: 0 <= l < NUM_LEVELS ==> SortedFiles(base[l]) && SortedFiles(levels[l].addedFiles)
    }

    constructor (v: Version)
      requires |v| == NUM_LEVELS && forall l :: 0 <= l < NUM_LEVELS ==> SortedFiles(v[l])
      ensures base == v && Valid()
      ensures levels == seq(NUM_LEVELS, _ => LevelState({}, []))
    {
      base := v;
      levels := seq(NUM_LEVELS, _ => LevelState({}, []));
    }

    method Apply(e: Edit)
      requires Valid() && EditOk(e)
      requires forall l :: 0 <= l < NUM_LEVELS ==> NamesAgree(Known(base[l], levels[l]), e)
      modifies this
      ensures Valid()
      ensures forall l :: 0 <= l < NUM_LEVELS ==> Applied(base[l], old(levels)[l], levels[l], e, l, |e.added|)
    {
      ghost var was := levels;
      var done: seq<LevelState> := [];
      for l := 0 to NUM_LEVELS
        invariant levels == was && |done| == l
        invariant forall k :: 0 <= k < l ==> Applied(base[k], was[k], done[k], e, k, 0)
      {
        var numbers := set d | d in e.deleted && d.0 == l :: d.1;
        AppliedStart(base[l], levels[l], numbers, e, l);
        done := done + [DeleteFiles(levels[l], numbers)];
      }
      for i := 0 to |e.added|
        invariant |done| == NUM_LEVELS
        invariant forall k :: 0 <= k < NUM_LEVELS ==> Applied(base[k], was[k], done[k], e, k, i)
      {
        var level, f := e.added[i].0, e.added[i].1;
        forall k | 0 <= k < NUM_LEVELS
          ensures Applied(base[k], was[k], if k == level then AddFile(done[k], f) else done[k], e, k, i + 1)
        {
          if k == level {
            AppliedAdd(base[k], was[k], done[k], e, k, i);
          } else {
            AppliedSkip(base[k], was[k], done[k], e, k, i);
          }
        }
        done := done[level := AddFile(done[level], f)];
      }
      levels := done;
    }

    // Merges the added files into the base files, leaving deleted files out.
    method SaveTo() returns (v: Version)
      requires Valid()
      requires forall l :: 0 <= l < NUM_LEVELS ==> Merging([], base[l], levels[l].addedFiles, levels[l].deletedFiles)
      ensures |v| == NUM_LEVELS && forall l :: 0 <= l < NUM_LEVELS ==> Lists(v[l], Live(base[l], levels[l]))
    {
      v := [];
      for l := 0 to NUM_LEVELS
        invariant |v| == l && forall k :: 0 <= k < l ==> Lists(v[k], Live(base[k], levels[k]))
      {
        var files := SaveLevel(base[l], levels[l].addedFiles, levels[l].deletedFiles);
        assert Lists(files, Live(base[l], levels[l]));
        v := v + [files];
      }
    }
  }

  // A deleted file does not matter; any other sorts after all that is written.
  ghost predicate Ahead(files: seq<File>, f: File, deleted: set<nat>) {
    f.number in deleted || forall i :: 0 <= i < |files| ==> BySmallest(files[i], f)
  }

  ghost predicate AllAhead(files: seq<File>, rest: seq<File>, deleted: set<nat>) {
    forall k :: 0 <= k < |rest| ==> Ahead(files, rest[k], deleted)
  }

  // The output so far, and the base and added files still to come.
  ghost predicate Merging(files: seq<File>, base: seq<File>, added: seq<File>, deleted: set<nat>) {
    && SortedFiles(files) && SortedFiles(base) && SortedFiles(added)
    && AllAhead(files, base, deleted) && AllAhead(files, added, deleted)
    && forall f, g :: f in base && g in added && f.number == g.number ==> f == g && f.number in deleted
  }

  function MaybeAddFile(files: seq<File>, f: File, deleted: set<nat>): seq<File> {
    if f.number in deleted then files else files + [f]
  }

  lemma TakeBase(files: seq<File>, base: seq<File>, added: seq<File>, deleted: set<nat>)
    requires Merging(files, base, added, deleted) && base != []
    requires added != [] ==> !BySmallest(added[0], base[0])
    ensures Merging(MaybeAddFile(files, base[0], deleted), base[1..], added, deleted)
  {
    var next := MaybeAddFile(files, base[0], deleted);
    assert base[0] in base;
    forall k | 0 <= k < |added| ensures Ahead(next, added[k], deleted) {
      assert Ahead(files, added[k], deleted);
      assert added[0] in added;
    }
    forall k | 0 <= k < |base| - 1 ensures Ahead(next, base[1..][k], deleted) {
      assert Ahead(files, base[k + 1], deleted);
    }
  }

  lemma TakeAdded(files: seq<File>, base: seq<File>, added: seq<File>, deleted: set<nat>)
    requires Merging(files, base, added, deleted) && added != []
    requires base != [] ==> BySmallest(added[0], base[0])
    ensures Merging(MaybeAddFile(files, added[0], deleted), base, added[1..], deleted)
  {
    var next := MaybeAddFile(files, added[0], deleted);
    forall k | 0 <= k < |base| ensures Ahead(next, base[k], deleted) {
      assert Ahead(files, base[k], deleted);
    }
    forall k | 0 <= k < |added| - 1 ensures Ahead(next, added[1..][k], deleted) {
      assert Ahead(files, added[k + 1], deleted);
    }
  }

  ghost predicate Written(files: seq<File>, base: seq<File>, added: seq<File>, deleted: set<nat>) {
    forall f :: f in files <==> (f in base || f in added) && f.number !in deleted
  }

  method SaveLevel(baseFiles: seq<File>, added: seq<File>, deleted: set<nat>) returns (files: seq<File>)
    requires Merging([], baseFiles, added, deleted)
    ensures SortedFiles(files) && Written(files, baseFiles, added, deleted)
  {
    files := [];
    var iter := 0;
    for i := 0 to |added|
      invariant 0 <= iter <= |baseFiles|
      invariant Merging(files, baseFiles[iter..], added[i..], deleted)
      invariant Written(files, baseFiles[..iter], added[..i], deleted)
    {
      // std::upper_bound: base files that do not sort after the added file.
      while iter < |baseFiles| && !BySmallest(added[i], baseFiles[iter])
        invariant 0 <= iter <= |baseFiles|
        invariant Merging(files, baseFiles[iter..], added[i..], deleted)
        invariant Written(files, baseFiles[..iter], added[..i], deleted)
      {
        TakeBase(files, baseFiles[iter..], added[i..], deleted);
        files := MaybeAddFile(files, baseFiles[iter], deleted);
        assert baseFiles[..iter + 1] == baseFiles[..iter] + [baseFiles[iter]];
        assert baseFiles[iter..][1..] == baseFiles[iter + 1..];
        iter := iter + 1;
      }
      TakeAdded(files, baseFiles[iter..], added[i..], deleted);
      files := MaybeAddFile(files, added[i], deleted);
      assert added[..i + 1] == added[..i] + [added[i]];
      assert added[i..][1..] == added[i + 1..];
    }
    assert added[..|added|] == added && added[|added|..] == [];
    while iter < |baseFiles|
      invariant 0 <= iter <= |baseFiles|
      invariant Merging(files, baseFiles[iter..], [], deleted)
      invariant Written(files, baseFiles[..iter], added, deleted)
    {
      TakeBase(files, baseFiles[iter..], [], deleted);
      files := MaybeAddFile(files, baseFiles[iter], deleted);
      assert baseFiles[..iter + 1] == baseFiles[..iter] + [baseFiles[iter]];
      assert baseFiles[iter..][1..] == baseFiles[iter + 1..];
      iter := iter + 1;
    }
    assert baseFiles[..iter] == baseFiles;
  }

  // ----- one edit, and a replayed run of edits -----

  // An edit may not add a file to a level that already holds it.
  ghost predicate FreshFor(v: Version, e: Edit)
    requires |v| == NUM_LEVELS
  {
    && EditOk(e)
    && (forall l :: 0 <= l < NUM_LEVELS ==> SortedFiles(v[l]) && NamesAgree(FilesOf(v[l]), e))
    && (forall l, f :: 0 <= l < NUM_LEVELS && (l, f) in e.added ==> f !in v[l])
  }

  // LogAndApply: the version after one edit.
  method ApplyEdit(v: Version, e: Edit) returns (v': Version)
    requires |v| == NUM_LEVELS && FreshFor(v, e)
    ensures Edited(v, e, v')
  {
    var builder := new Builder(v);
    assert forall l :: 0 <= l < NUM_LEVELS ==> Known(v[l], builder.levels[l]) == FilesOf(v[l]);
    assert forall l :: 0 <= l < NUM_LEVELS ==> Live(v[l], builder.levels[l]) == FilesOf(v[l]);
    builder.Apply(e);
    assert e.added[..|e.added|] == e.added;
    forall l | 0 <= l < NUM_LEVELS
      ensures Merging([], v[l], builder.levels[l].addedFiles, builder.levels[l].deletedFiles)
    {
      MergeStart(v, e, l, builder.levels[l]);
    }
    v' := builder.SaveTo();
  }

  lemma MergeStart(v: Version, e: Edit, l: nat, st: LevelState)
    requires |v| == NUM_LEVELS && FreshFor(v, e) && l < NUM_LEVELS
    requires Applied(v[l], LevelState({}, []), st, e, l, |e.added|)
    ensures Merging([], v[l], st.addedFiles, st.deletedFiles)
  {
    assert e.added[..|e.added|] == e.added;
    forall g | g in st.addedFiles ensures exists i :: 0 <= i < |e.added| && e.added[i].1 == g {
      var i :| 0 <= i < |e.added| && e.added[i] == (l, g);
    }
    assert forall f :: f in v[l] ==> f in FilesOf(v[l]);
  }

  const EMPTY_VERSION: Version := [[], [], [], [], [], [], []]

  ghost predicate AddedBy(edits: seq<Edit>, f: File) {
    exists i, l :: 0 <= i < |edits| && (l, f) in edits[i].added
  }

  ghost predicate NamesUnique(edits: seq<Edit>) {
    forall f, g :: AddedBy(edits, f) && AddedBy(edits, g) && f.number == g.number ==> f == g
  }

  // The versions as they were installed, one edit at a time.
  ghost predicate History(edits: seq<Edit>, versions: seq<Version>) {
    && |versions| == |edits| + 1
    && versions[0] == EMPTY_VERSION
    && forall i :: 0 <= i < |edits| ==> Edited(versions[i], edits[i], versions[i + 1])
  }

  // VersionSet::Recover applies all edits to one builder over the empty version
  // and saves once; it gets the version that the last edit had installed.
  method Replay(edits: seq<Edit>, ghost versions: seq<Version>) returns (v: Version)
    requires History(edits, versions) && NamesUnique(edits)
    requires forall i :: 0 <= i < |edits| ==> EditOk(edits[i])
    ensures v == versions[|edits|]
  {
    HistoryShape(edits, versions);
    var builder := new Builder(EMPTY_VERSION);
    for i := 0 to |edits|
      invariant builder.Valid() && builder.base == EMPTY_VERSION
      invariant forall l :: 0 <= l < NUM_LEVELS ==> Live([], builder.levels[l]) == FilesOf(versions[i][l])
      invariant forall l, f :: 0 <= l < NUM_LEVELS && f in builder.levels[l].addedFiles ==> AddedBy(edits, f)
    {
      forall l | 0 <= l < NUM_LEVELS ensures NamesAgree(Known([], builder.levels[l]), edits[i]) {
        AgreesWithPast(edits, i, builder.levels[l]);
      }
      builder.Apply(edits[i]);
      assert edits[i].added[..|edits[i].added|] == edits[i].added;
      assert Edited(versions[i], edits[i], versions[i + 1]);
    }
    v := builder.SaveTo();
    forall l | 0 <= l < NUM_LEVELS ensures v[l] == versions[|edits|][l] {
      assert forall f :: f in v[l] <==> f in Live([], builder.levels[l]);
      ListIsUnique(v[l], versions[|edits|][l]);
    }
  }

  lemma AgreesWithPast(edits: seq<Edit>, i: nat, st: LevelState)
    requires i < |edits| && NamesUnique(edits)
    requires forall f :: f in st.addedFiles ==> AddedBy(edits, f)
    ensures NamesAgree(Known([], st), edits[i])
  {
    forall j | 0 <= j < |edits[i].added| ensures AddedBy(edits, edits[i].added[j].1) {
      assert (edits[i].added[j].0, edits[i].added[j].1) in edits[i].added;
    }
  }

  lemma HistoryShape(edits: seq<Edit>, versions: seq<Version>)
    requires History(edits, versions)
    ensures forall i :: 0 <= i <= |edits| ==> |versions[i]| == NUM_LEVELS
    ensures forall i, l :: 0 <= i <= |edits| && 0 <= l < NUM_LEVELS ==> SortedFiles(versions[i][l])
  {
    forall i | 0 <= i <= |edits|
      ensures |versions[i]| == NUM_LEVELS && forall l :: 0 <= l < NUM_LEVELS ==> SortedFiles(versions[i][l])
    {
      if i > 0 {
        assert Edited(versions[i - 1], edits[i - 1], versions[i - 1 + 1]);
      }
    }
  }
}
