// The edits of the background steps, and the file numbers they keep unique
// (db/version_set.cc, LogAndApply; db/db_impl.cc).
module Catalog {
  import opened Keys
  import opened Versions
  import opened Inputs
  import opened Picking
  import opened Builders
  import opened Compactions
  import opened Preservation
  import opened LevelInvariant

  // Levels are listed in order, and a number names one file of one level.
  ghost predicate Catalogued(v: Version, nextFileNumber: nat) {
    && |v| == NUM_LEVELS
    && (forall l :: 0 <= l < NUM_LEVELS ==> SortedFiles(v[l]))
    && (forall l, f :: 0 <= l < NUM_LEVELS && f in v[l] ==> f.number < nextFileNumber)
    && forall l, m, f, g ::
      0 <= l < NUM_LEVELS && 0 <= m < NUM_LEVELS && f in v[l] && g in v[m] && f.number == g.number ==>
         l == m && f == g
  }

  function Numbers(files: Level, level: nat): (r: set<(nat, nat)>)
    ensures forall n, l :: (l, n) in r <==> l == level && exists f :: f in files && f.number == n
  {
    set f | f in files :: (level, f.number)
  }

  function Added(files: Level, level: nat): (r: seq<(nat, File)>)
    ensures |r| == |files| && forall i :: 0 <= i < |files| ==> r[i] == (level, files[i])
    ensures forall l, f :: (l, f) in r <==> l == level && f in files
  {
    seq(|files|, i requires 0 <= i < |files| => (level, files[i]))
  }

  // AddInputDeletions, then the outputs at the next level.
  function CompactionEdit(level: nat, in0: Level, in1: Level, outputs: Level): Edit {
    Edit(Numbers(in0, level) + Numbers(in1, level + 1), Added(outputs, level + 1))
  }

  function FlushEdit(level: nat, table: File): Edit {
    Edit({}, Added([table], level))
  }

  ghost predicate NewNumbers(files: Level, nextFileNumber: nat) {
    && (forall f :: f in files ==> f.number >= nextFileNumber)
    && forall f, g :: f in files && g in files && f.number == g.number ==> f == g
  }

  // Each file has a number of its own that no file of the version has.
  ghost predicate FreshNumbers(v: Version, files: Level) {
    && (forall l, f, g :: 0 <= l < |v| && g in v[l] && f in files ==> f.number != g.number)
    && forall f, g :: f in files && g in files && f.number == g.number ==> f == g
  }

  lemma NewIsFresh(v: Version, nextFileNumber: nat, files: Level)
    requires Catalogued(v, nextFileNumber) && NewNumbers(files, nextFileNumber)
    ensures FreshNumbers(v, files)
  {
    hide SortedFiles;
  }

  lemma CataloguedMore(v: Version, nextFileNumber: nat, next': nat)
    requires Catalogued(v, nextFileNumber) && nextFileNumber <= next'
    ensures Catalogued(v, next')
  {
    hide SortedFiles;
  }

  lemma OutputNumbers(outputs: Level, nextFileNumber: nat)
    requires OutputsOk(outputs, nextFileNumber)
    ensures NewNumbers(outputs, nextFileNumber)
    ensures forall f :: f in outputs ==> f.number < nextFileNumber + |outputs|
  {
  }

  lemma FreshAdditions(v: Version, nextFileNumber: nat, files: Level, level: nat, deleted: set<(nat, nat)>)
    requires Catalogued(v, nextFileNumber) && FreshNumbers(v, files) && level < NUM_LEVELS
    requires forall d :: d in deleted ==> d.0 < NUM_LEVELS
    ensures FreshFor(v, Edit(deleted, Added(files, level)))
  {
    var e := Edit(deleted, Added(files, level));
    forall l | 0 <= l < NUM_LEVELS ensures NamesAgree(FilesOf(v[l]), e) {
      assert forall i :: 0 <= i < |files| ==> files[i] in files;
    }
  }

  lemma EditReplaces(v: Version, nextFileNumber: nat, level: nat, in0: Level, in1: Level, outputs: Level, v': Version)
    requires Catalogued(v, nextFileNumber) && level + 1 < NUM_LEVELS
    requires forall f :: f in in0 ==> f in v[level]
    requires forall f :: f in in1 ==> f in v[level + 1]
    requires Edited(v, CompactionEdit(level, in0, in1, outputs), v')
    ensures Replaced(v, level, in0, in1, outputs, v')
    ensures forall l :: 0 <= l < NUM_LEVELS ==> SortedFiles(v'[l])
  {
    var e := CompactionEdit(level, in0, in1, outputs);
    forall l | 0 <= l < NUM_LEVELS
      ensures forall f :: f in v'[l] <==>
        (f in v[l] && !(l == level && f in in0) && !(l == level + 1 && f in in1)) || (l == level + 1 && f in outputs)
    {
      forall f ensures f in v'[l] <==>
        (f in v[l] && !(l == level && f in in0) && !(l == level + 1 && f in in1)) || (l == level + 1 && f in outputs)
      {
        assert f in v'[l] <==> f in Step(FilesOf(v[l]), e, l);
        if f in v[l] {
          DeletedIsInput(v, nextFileNumber, level, in0, in1, l, f);
        }
      }
    }
    forall l | 0 <= l < NUM_LEVELS && l != level && l != level + 1 ensures v'[l] == v[l] {
      ListIsUnique(v'[l], v[l]);
    }
  }

  lemma DeletedIsInput(v: Version, nextFileNumber: nat, level: nat, in0: Level, in1: Level, l: nat, f: File)
    requires Catalogued(v, nextFileNumber) && level + 1 < NUM_LEVELS && l < NUM_LEVELS && f in v[l]
    requires forall g :: g in in0 ==> g in v[level]
    requires forall g :: g in in1 ==> g in v[level + 1]
    ensures (l, f.number) in Numbers(in0, level) + Numbers(in1, level + 1) <==>
            (l == level && f in in0) || (l == level + 1 && f in in1)
  {
  }

  lemma ReplacedCatalogued(v: Version, level: nat, in0: Level, in1: Level, outputs: Level, v': Version, next': nat)
    requires Catalogued(v, next') && Replaced(v, level, in0, in1, outputs, v') && FreshNumbers(v, outputs)
    requires forall l :: 0 <= l < NUM_LEVELS ==> SortedFiles(v'[l])
    requires forall f :: f in outputs ==> f.number < next'
    ensures Catalogued(v', next')
  {
    hide SortedFiles;
    forall l, f | 0 <= l < NUM_LEVELS && f in v'[l] ensures f.number < next' {
      WhereFrom(v, level, in0, in1, outputs, v', l, f);
    }
    forall l, m, f, g | 0 <= l < NUM_LEVELS && 0 <= m < NUM_LEVELS && f in v'[l] && g in v'[m] && f.number == g.number
      ensures l == m && f == g
    {
      hide Replaced;
      WhereFrom(v, level, in0, in1, outputs, v', l, f);
      WhereFrom(v, level, in0, in1, outputs, v', m, g);
    }
  }

  lemma WhereFrom(v: Version, level: nat, in0: Level, in1: Level, outputs: Level, v': Version, l: nat, f: File)
    requires Replaced(v, level, in0, in1, outputs, v') && l < NUM_LEVELS && f in v'[l]
    ensures f in v[l] || (l == level + 1 && f in outputs)
  {
  }

  ghost predicate Moved(v: Version, level: nat, f: File, v': Version) {
    && |v| == |v'| == NUM_LEVELS && level + 1 < NUM_LEVELS && f in v[level]
    && forall l, g :: 0 <= l < NUM_LEVELS ==>
         (g in v'[l] <==> (g in v[l] && !(l == level && g == f)) || (l == level + 1 && g == f))
  }

  lemma ReplacedByItself(v: Version, level: nat, f: File, v': Version)
    requires Replaced(v, level, [f], [], [f], v') && f in v[level]
    ensures Moved(v, level, f, v')
  {
    forall l, g | 0 <= l < NUM_LEVELS
      ensures g in v'[l] <==> (g in v[l] && !(l == level && g == f)) || (l == level + 1 && g == f)
    {
      assert g in [f] <==> g == f;
      assert l != level && l != level + 1 ==> v'[l] == v[l];
    }
  }

  lemma MovedCatalogued(v: Version, nextFileNumber: nat, level: nat, f: File, v': Version)
    requires Catalogued(v, nextFileNumber) && Moved(v, level, f, v')
    requires forall l :: 0 <= l < NUM_LEVELS ==> SortedFiles(v'[l])
    ensures Catalogued(v', nextFileNumber)
  {
    hide SortedFiles;
    forall l, m, g, h | 0 <= l < NUM_LEVELS && 0 <= m < NUM_LEVELS && g in v'[l] && h in v'[m] && g.number == h.number
      ensures l == m && g == h
    {
      MovedFrom(v, level, f, v', l, g);
      MovedFrom(v, level, f, v', m, h);
    }
  }

  // Where a file is after a move.
  lemma MovedFrom(v: Version, level: nat, f: File, v': Version, l: nat, g: File)
    requires Moved(v, level, f, v') && l < NUM_LEVELS && g in v'[l]
    ensures (g in v[l] && !(l == level && g == f)) || (l == level + 1 && g == f && f in v[level])
  {
  }

  lemma MoveIsFresh(v: Version, nextFileNumber: nat, level: nat, f: File)
    requires Catalogued(v, nextFileNumber) && level + 1 < NUM_LEVELS && f in v[level]
    ensures FreshFor(v, CompactionEdit(level, [f], [], [f]))
  {
    var e := CompactionEdit(level, [f], [], [f]);
    forall l | 0 <= l < NUM_LEVELS ensures NamesAgree(FilesOf(v[l]), e) {
      forall g | g in v[l] && g.number == f.number ensures g == f {
      }
    }
    forall l, g | 0 <= l < NUM_LEVELS && (l, g) in e.added ensures g !in v[l] {
      assert l == level + 1 && g == f;
    }
  }

  lemma EditFlushes(v: Version, nextFileNumber: nat, level: nat, table: File, v': Version)
    requires Catalogued(v, nextFileNumber) && level < NUM_LEVELS && table.number == nextFileNumber
    requires Edited(v, FlushEdit(level, table), v')
    ensures Catalogued(v', nextFileNumber + 1)
    ensures forall l, f :: 0 <= l < NUM_LEVELS ==> (f in v'[l] <==> f in v[l] || (l == level && f == table))
  {
    hide SortedFiles;
    var e := FlushEdit(level, table);
    forall l, f | 0 <= l < NUM_LEVELS ensures f in v'[l] <==> f in v[l] || (l == level && f == table) {
      assert f in v'[l] <==> f in Step(FilesOf(v[l]), e, l);
    }
  }

  // ----- what the steps do to the set of entries -----

  lemma MoveKeepsEntries(v: Version, level: nat, f: File, v': Version)
    requires Moved(v, level, f, v')
    ensures VersionEntries(v') == VersionEntries(v)
  {
    forall x | x in VersionEntries(v) ensures x in VersionEntries(v') {
      var l :| 0 <= l < |v| && x in LevelEntries(v[l]);
      var g := FileOf(v[l], x);
      var m := if l == level && g == f then level + 1 else l;
      InLevel(v'[m], g, x);
      LevelMember(v', m, x);
    }
    forall x | x in VersionEntries(v') ensures x in VersionEntries(v) {
      var l :| 0 <= l < |v'| && x in LevelEntries(v'[l]);
      var g := FileOf(v'[l], x);
      var m := if g in v[l] then l else level;
      InLevel(v[m], g, x);
      LevelMember(v, m, x);
    }
  }
}
