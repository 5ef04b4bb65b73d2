// The store as a whole: every step a run may take keeps the reads of all live
// snapshots equal to reads of the plain history of writes (db/db_impl.cc).
module Store {
  import opened Keys
  import opened Versions
  import opened Inputs
  import opened Picking
  import opened Builders
  import opened Compactions
  import opened Preservation
  import opened LevelInvariant
  import opened Catalog

  // ----- memtables -----

  function InsertEntry(mem: seq<Entry>, e: Entry): (r: seq<Entry>)
    requires Sorted(mem) && forall x :: x in mem ==> x.key != e.key
    ensures Sorted(r) && ToSet(r) == ToSet(mem) + {e}
  {
    if mem == [] || Less(e.key, mem[0].key) then
      assert forall x :: x in [e] + mem <==> x == e || x in mem;
      [e] + mem
    else
      var rest := InsertEntry(mem[1..], e);
      assert forall i :: 0 <= i < |rest| ==> rest[i] in ToSet(rest);
      assert forall x :: x in mem <==> x == mem[0] || x in mem[1..];
      assert forall x :: x in [mem[0]] + rest <==> x == mem[0] || x in ToSet(rest);
      [mem[0]] + rest
  }

  // MemTable::Get: seek, then check the user key.
  method MemTableGet(mem: seq<Entry>, u: UserKey, s: Sequence) returns (r: Saver)
    requires Sorted(mem) && Distinct(ToSet(mem))
    ensures r == SaverOf(Newest(ToSet(mem), u, s))
  {
    var i := LowerBound(mem, SeekKey(u, s));
    SeekDecides(mem, u, s, i);
    if i < |mem| && mem[i].key.user == u {
      NewestIs(ToSet(mem), u, s, mem[i]);
      r := if mem[i].key.kind == Value then Found(mem[i].value) else Deleted;
    } else {
      r := NotFound;
    }
  }

  // ----- reads of layered entry sets -----

  lemma LayerDecides(a: set<Entry>, b: set<Entry>, u: UserKey, s: nat)
    requires NewerThan(a, b) && Distinct(a) && Distinct(b)
    ensures Distinct(a + b)
    ensures Newest(a + b, u, s) == if Newest(a, u, s).Some? then Newest(a, u, s) else Newest(b, u, s)
  {
    DistinctUnion(a, b, a + b);
    if Newest(a, u, s).Some? {
      var e := Newest(a, u, s).value;
      assert IsNewest(a, u, s, e);
      forall x | Visible(a + b, u, s, x) ensures x.key.sn <= e.key.sn {
        assert x in a ==> Visible(a, u, s, x);
      }
      assert Visible(a + b, u, s, e);
      NewestIs(a + b, u, s, e);
    } else {
      forall x ensures Visible(a + b, u, s, x) <==> Visible(b, u, s, x) {
        if Visible(a, u, s, x) {
          NewestExists(a, u, s, x);
        }
      }
      SameVisibleSameNewest(a + b, b, u, s);
    }
  }

  // `stored` reads like `history` from the horizon on, but for the spoiled reads.
  ghost predicate ReadsMatch(stored: set<Entry>, history: set<Entry>, horizon: nat, spoiled: iset<Point>) {
    forall u, s: nat :: s >= horizon && (u, s) !in spoiled ==> Read(stored, u, s) == Read(history, u, s)
  }

  // The reads that these entries decide.
  ghost function Decided(es: set<Entry>): iset<Point> {
    iset p: Point | Newest(es, p.0, p.1).Some?
  }

  lemma DecidedUnion(a: set<Entry>, b: set<Entry>)
    requires Distinct(a) && Distinct(b) && Distinct(a + b)
    ensures Decided(a + b) == Decided(a) + Decided(b)
  {
    forall p: Point ensures p in Decided(a + b) <==> p in Decided(a) || p in Decided(b) {
      DecidesBoth(a, b, p.0, p.1);
    }
  }

  lemma DecidesBoth(a: set<Entry>, b: set<Entry>, u: UserKey, s: nat)
    requires Distinct(a) && Distinct(b) && Distinct(a + b)
    ensures Newest(a + b, u, s).Some? <==> Newest(a, u, s).Some? || Newest(b, u, s).Some?
  {
    hide Newest, Distinct;
    NewestIff(a, u, s);
    NewestIff(b, u, s);
    NewestIff(a + b, u, s);
    if x :| Visible(a, u, s, x) {
      assert Visible(a + b, u, s, x);
    }
    if x :| Visible(b, u, s, x) {
      assert Visible(a + b, u, s, x);
    }
    if x :| Visible(a + b, u, s, x) {
      assert Visible(a, u, s, x) || Visible(b, u, s, x);
    }
  }

  lemma NewestIff(es: set<Entry>, u: UserKey, s: nat)
    requires Distinct(es)
    ensures Newest(es, u, s).Some? <==> exists x :: Visible(es, u, s, x)
  {
    if x :| Visible(es, u, s, x) {
      NewestExists(es, u, s, x);
    }
  }

  lemma NothingDecided()
    ensures Decided({}) == iset{}
  {
    forall u: UserKey, s: nat ensures Newest({}, u, s).None? {
      NewestIff({}, u, s);
    }
  }

  lemma SingleIsDistinct(e: Entry)
    ensures Distinct({e})
  {
  }

  lemma WriteKeepsMatch(stored: set<Entry>, history: set<Entry>, horizon: nat, spoiled: iset<Point>, e: Entry)
    requires Distinct(stored) && Distinct(history) && ReadsMatch(stored, history, horizon, spoiled)
    requires forall x :: x in stored || x in history ==> x.key.sn < e.key.sn
    ensures Distinct({e} + stored) && Distinct({e} + history)
    ensures ReadsMatch({e} + stored, {e} + history, horizon, spoiled - Decided({e}))
  {
    hide Distinct, Newest;
    SingleIsDistinct(e);
    forall u, s: nat | s >= horizon && (u, s) !in spoiled - Decided({e})
      ensures Read({e} + stored, u, s) == Read({e} + history, u, s)
    {
      LayerDecides({e}, stored, u, s);
      LayerDecides({e}, history, u, s);
      assert (u, s) !in Decided({e}) ==> Read(stored, u, s) == Read(history, u, s);
    }
    LayerDecides({e}, stored, 0.0, 0);
    LayerDecides({e}, history, 0.0, 0);
  }

  lemma NewerThanFewer(upper: set<Entry>, lower: set<Entry>, lower': set<Entry>)
    requires NewerThan(upper, lower) && lower' <= lower
    ensures NewerThan(upper, lower')
  {
  }

  // A lower layer that reads the same from `ss` on can be put in place of the old.
  lemma LowerLayerKeepsMatch(upper: set<Entry>, lower: set<Entry>, lower': set<Entry>, history: set<Entry>,
                             horizon: nat, spoiled: iset<Point>, ss: nat, uncovered: iset<Point>)
    requires Distinct(upper) && Distinct(lower) && Distinct(lower') && lower' <= lower && NewerThan(upper, lower)
    requires ReadsMatch(upper + lower, history, horizon, spoiled) && horizon <= ss
    requires ReadsMatch(lower', lower, ss, uncovered)
    ensures ReadsMatch(upper + lower', history, ss, spoiled + (uncovered - Decided(upper)))
  {
    hide Newest, Distinct, NewerThan;
    NewerThanFewer(upper, lower, lower');
    forall u, s: nat | s >= ss && (u, s) !in spoiled + (uncovered - Decided(upper))
      ensures Read(upper + lower', u, s) == Read(history, u, s)
    {
      LayerDecides(upper, lower, u, s);
      LayerDecides(upper, lower', u, s);
      assert Read(upper + lower, u, s) == Read(history, u, s);
      assert (u, s) in Decided(upper) || Read(lower', u, s) == Read(lower, u, s);
    }
  }

  // Entries of a batch numbered from `first` on.
  ghost function BatchEntries(ops: seq<Op>, first: nat): set<Entry>
    requires first + |ops| <= MAX_SEQUENCE + 1
  {
    set i | 0 <= i < |ops| :: Entry(InternalKey(ops[i].user, first + i, ops[i].kind), ops[i].value)
  }

  class DB {
    var mem: seq<Entry>
    var imm: Option<seq<Entry>>
    var current: Version
    var lastSequence: Sequence
    var nextFileNumber: nat
    var snapshots: seq<Sequence>       // oldest first
    ghost var history: set<Entry>      // every write so far
    ghost var horizon: nat             // no live reader is older
    ghost var spoiled: iset<Point>     // reads that see a value uncovered by a dropped marker

    ghost function Imm(): set<Entry>
      reads this
    {
      if imm.Some? then ToSet(imm.value) else {}
    }

    ghost function Stored(): set<Entry>
      reads this
    {
      ToSet(mem) + (Imm() + VersionEntries(current))
    }

    ghost predicate Valid()
      reads this
    {
      && Sorted(mem) && Distinct(ToSet(mem))
      && (imm.Some? ==> Sorted(imm.value)) && Distinct(Imm())
      && VersionOk(current) && Catalogued(current, nextFileNumber)
      && NewerThan(ToSet(mem), Imm() + VersionEntries(current))
      && NewerThan(Imm(), VersionEntries(current))
      && Distinct(history)
      && (forall x :: x in Stored() || x in history ==> x.key.sn <= lastSequence)
      && horizon <= lastSequence < MAX_SEQUENCE
      && (forall i :: 0 <= i < |snapshots| ==> horizon <= snapshots[i] <= lastSequence)
      && (forall i, j :: 0 <= i < j < |snapshots| ==> snapshots[i] <= snapshots[j])
      && ReadsMatch(Stored(), history, horizon, spoiled)
    }

    ghost predicate Live(s: Sequence)
      reads this
    {
      s == lastSequence || s in snapshots
    }

    constructor ()
      ensures Valid() && history == {} && lastSequence == 0 && spoiled == iset{}
    {
      mem, imm, current := [], None, EMPTY_VERSION;
      lastSequence, nextFileNumber, snapshots := 0, 2, [];
      history, horizon, spoiled := {}, 0, iset{};
      new;
      EmptyIsOk();
    }

    // DBImpl::Get: the memtable, then the immutable memtable, then the version.
    method Get(u: UserKey, s: Sequence) returns (r: Option<Bytes>)
      requires Valid() && Live(s)
      ensures r == Read(Stored(), u, s)
      ensures (u, s) !in spoiled ==> r == Read(history, u, s)
    {
      assert s >= horizon && ((u, s) !in spoiled ==> Read(Stored(), u, s) == Read(history, u, s));
      hide VersionOk, Catalogued, Sorted, Distinct, NewerThan, ReadsMatch, Newest, IsNewest;
      ThreeLayers(ToSet(mem), Imm(), VersionEntries(current), u, s);
      var found := MemTableGet(mem, u, s);
      if found == NotFound && imm.Some? {
        found := MemTableGet(imm.value, u, s);
      }
      if found == NotFound {
        found := Versions.Get(current, u, s);
      }
      r := if found.Found? then Some(found.value) else None;
    }

    // A write of one batch: the memtable and the history take the same entries.
    method Write(ops: seq<Op>)
      requires Valid() && lastSequence + |ops| < MAX_SEQUENCE
      modifies this
      ensures Valid()
      ensures lastSequence == old(lastSequence) + |ops|
      ensures history == old(history) + BatchEntries(ops, old(lastSequence) + 1)
      ensures spoiled == old(spoiled) - Decided(BatchEntries(ops, old(lastSequence) + 1))
      ensures current == old(current) && imm == old(imm) && snapshots == old(snapshots)
    {
      hide Valid, Decided, BatchEntries;
      NoBatch(ops[..0], lastSequence + 1);
      for i := 0 to |ops|
        invariant Valid() && lastSequence == old(lastSequence) + i
        invariant history == old(history) + BatchEntries(ops[..i], old(lastSequence) + 1)
        invariant spoiled == old(spoiled) - Decided(BatchEntries(ops[..i], old(lastSequence) + 1))
        invariant current == old(current) && imm == old(imm) && snapshots == old(snapshots)
      {
        Add(Entry(InternalKey(ops[i].user, lastSequence + 1, ops[i].kind), ops[i].value));
        BatchGrows(ops, i, old(lastSequence) + 1);
        BatchDecides(ops, i, old(lastSequence) + 1);
      }
      assert ops[..|ops|] == ops;
    }

    // MemTable::Add for the next sequence number.
    method Add(e: Entry)
      requires Valid() && e.key.sn == lastSequence + 1 < MAX_SEQUENCE
      modifies this
      ensures Valid()
      ensures lastSequence == old(lastSequence) + 1 && history == old(history) + {e}
      ensures spoiled == old(spoiled) - Decided({e})
      ensures current == old(current) && imm == old(imm) && snapshots == old(snapshots)
    {
      hide VersionOk, Catalogued, Distinct, NewerThan, ReadsMatch, Sorted, Decided;
      NotStored(e);
      VersionDistinct(current);
      LayerDecides(Imm(), VersionEntries(current), 0.0, 0);
      AddFacts(ToSet(mem), Imm() + VersionEntries(current), history, horizon, spoiled, e);
      mem := InsertEntry(mem, e);
      history, spoiled := {e} + history, spoiled - Decided({e});
      lastSequence := lastSequence + 1;
    }

    lemma NotStored(e: Entry)
      requires Valid() && e.key.sn > lastSequence
      ensures forall x :: x in mem ==> x.key != e.key
    {
      hide VersionOk, Catalogued, Distinct, NewerThan, ReadsMatch, Sorted;
      forall x | x in mem ensures x.key != e.key {
        assert x in Stored();
      }
    }

    // MakeRoomForWrite with a full memtable: it becomes the immutable one.
    method SwitchMemtable()
      requires Valid() && imm == None
      modifies this
      ensures Valid()
      ensures history == old(history) && spoiled == old(spoiled)
      ensures lastSequence == old(lastSequence) && snapshots == old(snapshots)
      ensures mem == [] && imm == Some(old(mem)) && current == old(current)
    {
      imm := Some(mem);
      mem := [];
      assert Stored() == old(Stored());
    }

    // CompactMemTable: the immutable memtable becomes a table. `limit` stands
    // for the grandparent byte limit.
    method CompactMemTable(limit: nat)
      requires Valid() && imm.Some?
      modifies this
      ensures Valid()
      ensures imm == None && mem == old(mem)
      ensures history == old(history) && spoiled == old(spoiled)
      ensures lastSequence == old(lastSequence) && snapshots == old(snapshots)
      ensures Stored() == old(Stored())
    {
      hide VersionOk, Catalogued, Distinct, NewerThan, Sorted, ReadsMatch;
      var entries := imm.value;
      ghost var lower := VersionEntries(current);
      if entries != [] {
        var next := WriteLevel0Table(current, nextFileNumber, entries, limit);
        current := next;
        nextFileNumber := nextFileNumber + 1;
      }
      imm := None;
      FlushLayers(ToSet(mem), ToSet(entries), lower, VersionEntries(current));
    }

    // BackgroundCompaction when one input file and no next-level input is picked.
    method TrivialMove(level: nat, f: File, ghost lo: UserKey, ghost hi: UserKey)
      requires Valid() && Picked(current, level, [f], [], lo, hi)
      modifies this
      ensures Valid()
      ensures imm == old(imm) && mem == old(mem)
      ensures history == old(history) && spoiled == old(spoiled)
      ensures lastSequence == old(lastSequence) && snapshots == old(snapshots)
      ensures Stored() == old(Stored())
    {
      hide VersionOk, Catalogued, Distinct, NewerThan, ReadsMatch, Sorted, Picked;
      var next := InstallMove(current, nextFileNumber, level, f, lo, hi);
      current := next;
    }

    function SmallestSnapshot(): Sequence
      reads this
    {
      if snapshots == [] then lastSequence else snapshots[0]
    }

    // BackgroundCompaction in general. `input` is what the merging iterator over
    // the inputs yields. It spoils the reads of user keys of which a dropped marker
    // uncovers a value, where nothing newer decides them.
    method Compact(level: nat, in0: Level, in1: Level, input: seq<Entry>, ghost lo: UserKey, ghost hi: UserKey)
      requires Valid() && Picked(current, level, in0, in1, lo, hi)
      requires Sorted(input) && ToSet(input) == LevelEntries(in0) + LevelEntries(in1)
      modifies this
      ensures Valid()
      ensures imm == old(imm) && mem == old(mem)
      ensures history == old(history) && lastSequence == old(lastSequence) && snapshots == old(snapshots)
      ensures spoiled == old(spoiled) +
        (Uncovered(old(current), level, in1, old(SmallestSnapshot())) - Decided(old(ToSet(mem) + Imm())))
      ensures Stored() <= old(Stored())
    {
      hide VersionOk, Catalogued, Distinct, NewerThan, Sorted, ReadsMatch, Picked, Uncovered;
      var smallestSnapshot := SmallestSnapshot();
      var next, nextNumber :=
        InstallCompaction(current, nextFileNumber, level, in0, in1, input, smallestSnapshot, lo, hi);
      assert Stored() == (ToSet(mem) + Imm()) + VersionEntries(current);
      UpperFacts(ToSet(mem), Imm(), VersionEntries(current), VersionEntries(next));
      VersionDistinct(current);
      VersionDistinct(next);
      ghost var uncovered := Uncovered(current, level, in1, smallestSnapshot);
      LowerLayerKeepsMatch(ToSet(mem) + Imm(), VersionEntries(current), VersionEntries(next), history, horizon, spoiled,
        smallestSnapshot, uncovered);
      current, nextFileNumber := next, nextNumber;
      horizon, spoiled := smallestSnapshot, spoiled + (uncovered - Decided(ToSet(mem) + Imm()));
      assert Stored() == (ToSet(mem) + Imm()) + VersionEntries(current);
    }

    // GetSnapshot pins the last sequence number; it becomes the newest snapshot.
    method GetSnapshot() returns (s: Sequence)
      requires Valid()
      modifies this
      ensures Valid() && Live(s) && s == lastSequence
      ensures snapshots == old(snapshots) + [s]
      ensures history == old(history) && spoiled == old(spoiled)
      ensures lastSequence == old(lastSequence) && Stored() == old(Stored())
    {
      hide VersionOk, Catalogued, Distinct, NewerThan, ReadsMatch, Sorted;
      s := lastSequence;
      snapshots := snapshots + [s];
    }

    method ReleaseSnapshot(i: nat)
      requires Valid() && i < |snapshots|
      modifies this
      ensures Valid()
      ensures snapshots == old(snapshots)[..i] + old(snapshots)[i + 1..]
      ensures history == old(history) && spoiled == old(spoiled)
      ensures lastSequence == old(lastSequence) && Stored() == old(Stored())
    {
      hide VersionOk, Catalogued, Distinct, NewerThan, ReadsMatch, Sorted;
      snapshots := snapshots[..i] + snapshots[i + 1..];
    }
  }

  lemma BatchGrows(ops: seq<Op>, i: nat, first: nat)
    requires i < |ops| && first + |ops| <= MAX_SEQUENCE + 1
    ensures BatchEntries(ops[..i + 1], first) ==
      BatchEntries(ops[..i], first) + {Entry(InternalKey(ops[i].user, first + i, ops[i].kind), ops[i].value)}
  {
  }

  lemma NoBatch(ops: seq<Op>, first: nat)
    requires ops == [] && first <= MAX_SEQUENCE + 1
    ensures BatchEntries(ops, first) == {} && Decided(BatchEntries(ops, first)) == iset{}
  {
    NothingDecided();
  }

  lemma BatchDistinct(ops: seq<Op>, first: nat)
    requires first + |ops| <= MAX_SEQUENCE + 1
    ensures Distinct(BatchEntries(ops, first))
  {
  }

  lemma BatchDecides(ops: seq<Op>, i: nat, first: nat)
    requires i < |ops| && first + |ops| <= MAX_SEQUENCE + 1
    ensures Decided(BatchEntries(ops[..i + 1], first)) == Decided(BatchEntries(ops[..i], first)) +
      Decided({Entry(InternalKey(ops[i].user, first + i, ops[i].kind), ops[i].value)})
  {
    hide BatchEntries, Decided, Distinct;
    BatchGrows(ops, i, first);
    BatchDistinct(ops[..i], first);
    BatchDistinct(ops[..i + 1], first);
    SingleIsDistinct(Entry(InternalKey(ops[i].user, first + i, ops[i].kind), ops[i].value));
    DecidedUnion(BatchEntries(ops[..i], first),
      {Entry(InternalKey(ops[i].user, first + i, ops[i].kind), ops[i].value)});
  }

  lemma AddFacts(mem: set<Entry>, lower: set<Entry>, history: set<Entry>, horizon: nat, spoiled: iset<Point>,
                 e: Entry)
    requires Distinct(mem) && Distinct(lower) && Distinct(history) && NewerThan(mem, lower)
    requires ReadsMatch(mem + lower, history, horizon, spoiled)
    requires forall x :: x in mem + lower || x in history ==> x.key.sn < e.key.sn
    ensures Distinct(mem + {e}) && Distinct({e} + history) && NewerThan(mem + {e}, lower)
    ensures ReadsMatch((mem + {e}) + lower, {e} + history, horizon, spoiled - Decided({e}))
  {
    DistinctUnion(mem, lower, mem + lower);
    WriteKeepsMatch(mem + lower, history, horizon, spoiled, e);
    assert {e} + (mem + lower) == (mem + {e}) + lower;
  }

  lemma EmptyLevels()
    ensures forall l :: 0 <= l < NUM_LEVELS ==> EMPTY_VERSION[l] == [] && LevelEntries(EMPTY_VERSION[l]) == {}
    ensures VersionEntries(EMPTY_VERSION) == {}
  {
    forall l | 0 <= l < NUM_LEVELS ensures EMPTY_VERSION[l] == [] {
    }
  }

  lemma EmptyIsOk()
    ensures VersionOk(EMPTY_VERSION) && Catalogued(EMPTY_VERSION, 2) && VersionEntries(EMPTY_VERSION) == {}
  {
    EmptyLevels();
    hide VersionEntries, LevelEntries;
    assert |EMPTY_VERSION| == NUM_LEVELS;
  }

  lemma ThreeLayers(a: set<Entry>, b: set<Entry>, c: set<Entry>, u: UserKey, s: nat)
    requires Distinct(a) && Distinct(b) && Distinct(c)
    requires NewerThan(a, b + c) && NewerThan(b, c)
    ensures Newest(a + (b + c), u, s) ==
      if Newest(a, u, s).Some? then Newest(a, u, s)
      else if Newest(b, u, s).Some? then Newest(b, u, s)
      else Newest(c, u, s)
    ensures b == {} ==> Newest(b, u, s) == None
  {
    LayerDecides(b, c, u, s);
    LayerDecides(a, b + c, u, s);
  }

  lemma FlushLayers(mem: set<Entry>, imm: set<Entry>, lower: set<Entry>, lower': set<Entry>)
    requires NewerThan(mem, imm + lower) && lower' == lower + imm
    ensures NewerThan(mem, {} + lower') && NewerThan({}, lower') && Distinct({})
    ensures mem + ({} + lower') == mem + (imm + lower)
  {
    assert {} + lower' == imm + lower;
  }

  lemma UpperFacts(mem: set<Entry>, imm: set<Entry>, lower: set<Entry>, lower': set<Entry>)
    requires Distinct(mem) && Distinct(imm) && NewerThan(mem, imm + lower) && NewerThan(imm, lower) && lower' <= lower
    ensures Distinct(mem + imm) && NewerThan(mem + imm, lower)
    ensures NewerThan(mem, imm + lower') && NewerThan(imm, lower')
  {
  }

  // ----- installing the version of a background step -----

  // WriteLevel0Table and LogAndApply for a non-empty memtable.
  method WriteLevel0Table(v: Version, nextFileNumber: nat, entries: seq<Entry>, limit: nat) returns (v': Version)
    requires VersionOk(v) && Catalogued(v, nextFileNumber)
    requires entries != [] && Sorted(entries) && Distinct(ToSet(entries))
    requires NewerThan(ToSet(entries), VersionEntries(v))
    ensures VersionOk(v') && Catalogued(v', nextFileNumber + 1)
    ensures VersionEntries(v') == VersionEntries(v) + ToSet(entries)
  {
    hide VersionOk, Catalogued, Distinct, NewerThan, Sorted, NoneMeets;
    var size: nat := *;
    var table := File(nextFileNumber, size, entries[0].key, entries[|entries| - 1].key, entries);
    var level := PickLevelForMemTableOutput(v, table.smallest.user, table.largest.user, limit);
    v' := InstallFlush(v, nextFileNumber, level, table);
  }

  lemma VersionDistinct(v: Version)
    requires VersionOk(v)
    ensures Distinct(VersionEntries(v))
  {
  }

  method InstallFlush(v: Version, nextFileNumber: nat, level: nat, table: File) returns (v': Version)
    requires VersionOk(v) && Catalogued(v, nextFileNumber) && level <= 2
    requires FileOk(table) && table.number == nextFileNumber
    requires Distinct(ToSet(table.entries)) && NewerThan(ToSet(table.entries), VersionEntries(v))
    requires level == 0 || forall l :: 0 <= l <= level ==> NoneMeets(v[l], table.smallest.user, table.largest.user)
    ensures VersionOk(v') && Catalogued(v', nextFileNumber + 1)
    ensures VersionEntries(v') == VersionEntries(v) + ToSet(table.entries)
  {
    hide VersionOk, Catalogued, FileOk, Distinct, NewerThan, NoneMeets, Edited, FreshFor, VersionEntries, NewNumbers,
      SortedFiles;
    CataloguedLevels(v, nextFileNumber);
    assert NewNumbers([table], nextFileNumber) by {
      OneIsNew(table);
    }
    NewIsFresh(v, nextFileNumber, [table]);
    FreshAdditions(v, nextFileNumber, [table], level, {});
    v' := ApplyEdit(v, FlushEdit(level, table));
    EditFlushes(v, nextFileNumber, level, table, v');
    ElsewhereAbove(v, level, table);
    CataloguedLevels(v', nextFileNumber + 1);
    assert FlushOk(Flush(v, level, table, v'));
    FlushKeepsInvariant(Flush(v, level, table, v'));
  }

  lemma OneIsNew(table: File)
    ensures NewNumbers([table], table.number)
  {
  }

  lemma CataloguedLevels(v: Version, nextFileNumber: nat)
    requires Catalogued(v, nextFileNumber)
    ensures |v| == NUM_LEVELS && forall l :: 0 <= l < NUM_LEVELS ==> SortedFiles(v[l])
    ensures forall f :: f in v[0] ==> f.number < nextFileNumber
  {
    hide SortedFiles;
  }

  lemma ElsewhereAbove(v: Version, level: nat, table: File)
    requires VersionOk(v) && FileOk(table) && level < |v|
    requires level == 0 || forall l :: 0 <= l <= level ==> NoneMeets(v[l], table.smallest.user, table.largest.user)
    ensures forall l :: 0 <= l < level ==> Elsewhere(v[l], table)
  {
    hide FileOk, NoneMeets, Elsewhere, Distinct, LevelsOrdered, RecencyByNumber, Disjoint;
    forall l | 0 <= l < level ensures Elsewhere(v[l], table) {
      assert FilesOk(v[l]);
      hide FilesOk;
      NoneMeetsElsewhere(v[l], table);
    }
  }

  method InstallMove(v: Version, nextFileNumber: nat, level: nat, f: File, ghost lo: UserKey, ghost hi: UserKey)
    returns (v': Version)
    requires VersionOk(v) && Catalogued(v, nextFileNumber) && Picked(v, level, [f], [], lo, hi)
    ensures VersionOk(v') && Catalogued(v', nextFileNumber)
    ensures VersionEntries(v') == VersionEntries(v)
  {
    hide VersionOk, Catalogued, Picked, Edited, FreshFor, VersionEntries, Replaced, Moved, SortedFiles;
    PickedFacts(v, level, [f], [], lo, hi);
    assert f in [f];
    MoveIsFresh(v, nextFileNumber, level, f);
    v' := ApplyEdit(v, CompactionEdit(level, [f], [], [f]));
    EditReplaces(v, nextFileNumber, level, [f], [], [f], v');
    ReplacedByItself(v, level, f, v');
    MovedCatalogued(v, nextFileNumber, level, f, v');
    MoveKeepsEntries(v, level, f, v');
    MoveIsSwap(v, level, f, lo, hi, v');
  }

  // A trivial move is a replacement of a file by itself.
  lemma MoveIsSwap(v: Version, level: nat, f: File, lo: UserKey, hi: UserKey, v': Version)
    requires VersionOk(v) && Picked(v, level, [f], [], lo, hi) && Replaced(v, level, [f], [], [f], v')
    requires |v'| == NUM_LEVELS && forall l :: 0 <= l < NUM_LEVELS ==> SortedFiles(v'[l])
    ensures VersionOk(v')
  {
    PickedFacts(v, level, [f], [], lo, hi);
    assert f in [f];
    TableOfLevel(v, level, f);
    hide VersionOk, Picked, Replaced, SortedFiles, FileOk;
    SwapKeepsInvariant(Swap(v, level, [f], [], lo, hi, [f], v'));
  }

  lemma TableOfLevel(v: Version, level: nat, f: File)
    requires VersionOk(v) && level < |v| && f in v[level]
    ensures FileOk(f)
  {
    KeysOrdered(v[level]);
  }

  method InstallCompaction(v: Version, nextFileNumber: nat, level: nat, in0: Level, in1: Level, input: seq<Entry>,
                           smallestSnapshot: nat, ghost lo: UserKey, ghost hi: UserKey)
    returns (v': Version, next': nat)
    requires VersionOk(v) && Catalogued(v, nextFileNumber) && Picked(v, level, in0, in1, lo, hi)
    requires smallestSnapshot < MAX_SEQUENCE
    requires Sorted(input) && ToSet(input) == LevelEntries(in0) + LevelEntries(in1)
    ensures VersionOk(v') && Catalogued(v', next')
    ensures VersionEntries(v') <= VersionEntries(v)
    ensures ReadsMatch(VersionEntries(v'), VersionEntries(v), smallestSnapshot,
              Uncovered(v, level, in1, smallestSnapshot))
  {
    hide VersionOk, Catalogued, Picked, Distinct, Sorted, ReadsMatch, Uncovered, OutputsOk, NewNumbers, FreshNumbers,
      FreshFor, Edited, Replaced, Numbers, Added, Kept, Contents;
    PickedFacts(v, level, in0, in1, lo, hi);
    var outputs := DoCompactionWork(v, level, input, smallestSnapshot, nextFileNumber);
    OutputNumbers(outputs, nextFileNumber);
    var e := CompactionEdit(level, in0, in1, outputs);
    DeletedLevels(level, in0, in1, outputs);
    NewIsFresh(v, nextFileNumber, outputs);
    FreshAdditions(v, nextFileNumber, outputs, level + 1, e.deleted);
    v' := ApplyEdit(v, e);
    next' := nextFileNumber + |outputs|;
    EditReplaces(v, nextFileNumber, level, in0, in1, outputs, v');
    CataloguedMore(v, nextFileNumber, next');
    ReplacedCatalogued(v, level, in0, in1, outputs, v', next');
    OutputsAreTables(outputs, nextFileNumber);
    CompactionInstalled(Job(v, level, in0, in1, lo, hi, input, smallestSnapshot, outputs, v'));
  }

  lemma PickedFacts(v: Version, level: nat, in0: Level, in1: Level, lo: UserKey, hi: UserKey)
    requires Picked(v, level, in0, in1, lo, hi)
    ensures level + 1 < NUM_LEVELS == |v|
    ensures forall f :: f in in0 ==> f in v[level]
    ensures forall f :: f in in1 ==> f in v[level + 1]
  {
  }

  lemma DeletedLevels(level: nat, in0: Level, in1: Level, outputs: Level)
    requires level + 1 < NUM_LEVELS
    ensures forall d :: d in CompactionEdit(level, in0, in1, outputs).deleted ==> d.0 < NUM_LEVELS
  {
  }

  lemma OutputsAreTables(outputs: Level, firstNumber: nat)
    requires OutputsOk(outputs, firstNumber)
    ensures FilesOk(outputs)
  {
  }

  // A compaction changes no other reads.
  lemma ReadsAfter(c: Job)
    requires JobOk(c)
    ensures ReadsMatch(VersionEntries(c.after), VersionEntries(c.before), c.smallestSnapshot,
              Uncovered(c.before, c.level, c.in1, c.smallestSnapshot))
  {
    hide JobOk, VersionEntries, Read, Uncovers;
    CompactionPreservesReads(c);
    forall u, s: nat | s >= c.smallestSnapshot && (u, s) !in Uncovered(c.before, c.level, c.in1, c.smallestSnapshot)
      ensures Read(VersionEntries(c.after), u, s) == Read(VersionEntries(c.before), u, s)
    {
      assert !ResurrectsAt(c, u, s);
    }
  }

  lemma CompactionInstalled(c: Job)
    requires JobOk(c) && FilesOk(c.outputs)
    requires forall l :: 0 <= l < NUM_LEVELS ==> SortedFiles(c.after[l])
    ensures VersionOk(c.after)
    ensures VersionEntries(c.after) <= VersionEntries(c.before)
    ensures ReadsMatch(VersionEntries(c.after), VersionEntries(c.before), c.smallestSnapshot,
              Uncovered(c.before, c.level, c.in1, c.smallestSnapshot))
  {
    ReadsAfter(c);
    AfterDistinct(c);
    OutputsFromInputs(c);
    assert SwapOk(Swap(c.before, c.level, c.in0, c.in1, c.lo, c.hi, c.outputs, c.after));
    SwapKeepsInvariant(Swap(c.before, c.level, c.in0, c.in1, c.lo, c.hi, c.outputs, c.after));
  }

  lemma OutputsFromInputs(c: Job)
    requires JobOk(c) && FilesOk(c.outputs)
    ensures LevelEntries(c.outputs) <= LevelEntries(c.in0) + LevelEntries(c.in1)
    ensures Disjoint(c.outputs)
  {
    forall x | x in LevelEntries(c.outputs) ensures x in ToSet(c.input) {
      OutputsKept(c, x);
    }
    KeptFacts(c.before, c.level, c.input, |c.input|, c.smallestSnapshot);
    SortedContentsDisjoint(c.outputs);
  }

  lemma {:induction false} SortedContentsDisjoint(files: Level)
    requires FilesOk(files) && Sorted(Contents(files))
    ensures Disjoint(files)
  {
    if files != [] {
      var front, last := files[..|files| - 1], files[|files| - 1];
      assert Sorted(Contents(front)) by {
        assert forall i :: 0 <= i < |Contents(front)| ==> Contents(files)[i] == Contents(front)[i];
      }
      SortedContentsDisjoint(front);
      forall i | 0 <= i < |front| ensures Less(files[i].largest, last.smallest) {
        ContentsEntries(front);
        var x := front[i].entries[|front[i].entries| - 1];
        InLevel(front, front[i], x);
        assert x in Contents(front);
        var k :| 0 <= k < |Contents(front)| && Contents(front)[k] == x;
        assert Contents(files)[k] == x && Contents(files)[|Contents(front)|] == last.entries[0];
      }
    }
  }
}
