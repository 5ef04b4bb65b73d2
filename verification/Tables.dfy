// Reading a sorted table (table/table.cc): the index block, then the data
// block it names, unless the filter rules it out.
module Tables {
  import opened Keys
  import opened Codings
  import opened Blocks
  import opened Formats
  import opened FilterBlocks
  import opened InternalKeys
  import opened TableBuilders
  import Bytewise

  // ----- what a lookup means -----

  // The first entry at or after k.
  ghost predicate IsFirst(es: seq<Pair>, k: Bytes, e: Pair) {
    exists n :: 0 <= n < |es| && es[n] == e && IsLowerBound(es, KeyBefore, k, n)
  }

  // What is found is the first entry at or after k; and that entry is found
  // whenever it has k's user key.
  ghost predicate Answers(es: seq<Pair>, k: Bytes, found: Option<Pair>) {
    && (found.Some? ==> IsFirst(es, k, found.value))
    && forall e :: IsFirst(es, k, e) && UserPart(e.key) == UserPart(k) ==> found == Some(e)
  }

  lemma OrderIsTransitive()
    ensures Transitive(KeyBefore) && Transitive(Bytewise.Before)
  {
    hide KeyBefore, Bytewise.Before;
    forall a, b, c | KeyBefore(a, b) && KeyBefore(b, c) ensures KeyBefore(a, c) {
      KeyBeforeIsStrict(a, b, c);
    }
    forall a, b, c | Bytewise.Before(a, b) && Bytewise.Before(b, c) ensures Bytewise.Before(a, c) {
      Bytewise.BeforeIsTransitive(a, b, c);
    }
  }

  // ----- the index -----

  ghost predicate Indexed(t: Layout) {
    && |t.index| == |t.blocks|
    && TableBuilders.Sorted(t.Entries())
    && (forall i :: 0 <= i < |t.blocks| ==> t.blocks[i].entries != [])
    && WellSeparated(t.index, Parts(t.blocks, []))
  }

  lemma TableIsIndexed(file: Bytes, t: Layout)
    requires IsTable(file, t)
    ensures Indexed(t)
  {
    hide WellSeparated, BlockOf, StoredAt, Flattened, Covered, IsFilterBlock, FooterOf;
    forall i | 0 <= i < |t.blocks| ensures t.blocks[i].entries != [] {
      assert BlockStored(file, t.blocks[i], t.interval);
    }
  }

  lemma SeparationAt(t: Layout, i: nat)
    requires Indexed(t) && i < |t.index|
    ensures Separates(t.index[i].key, t.blocks[i].entries, if i + 1 < |t.blocks| then t.blocks[i + 1].entries else [])
  {
    hide Separates, Flattened;
    var parts := Parts(t.blocks, []);
    assert Separates(t.index[i].key, parts[i], Part(parts, i + 1));
  }

  // Index keys are in order, so that the index block can be searched.
  lemma {:induction false} IndexSorted(t: Layout, i: nat, j: nat)
    requires Indexed(t) && i < j < |t.index|
    ensures KeyBefore(t.index[i].key, t.index[j].key)
    decreases j
  {
    hide KeyBefore, Indexed, HasKey, UserBelow;
    EntriesThere(t, j);
    var e := t.blocks[j].entries[0];
    SeparationAt(t, j - 1);
    SeparationAt(t, j);
    assert e in t.blocks[j].entries;
    KeyBeforeIsStrict(t.index[j - 1].key, e.key, t.index[j].key);
    if i < j - 1 {
      IndexSorted(t, i, j - 1);
      KeyBeforeIsStrict(t.index[i].key, t.index[j - 1].key, t.index[j].key);
    }
  }

  lemma EntriesThere(t: Layout, i: nat)
    requires Indexed(t) && i < |t.index|
    ensures |t.index| == |t.blocks| && t.blocks[i].entries != []
  {
  }

  // Everything in the blocks whose index keys are before k is before k.
  lemma {:induction false} EarlierBlocks(t: Layout, k: Bytes, i: nat)
    requires Indexed(t) && i <= |t.index| && forall n :: 0 <= n < i ==> KeyBefore(t.index[n].key, k)
    ensures forall e: Pair :: e in Flattened(Parts(t.blocks, [])[..i]) ==> KeyBefore(e.key, k)
  {
    hide KeyBefore, Indexed;
    var parts := Parts(t.blocks, []);
    IndexLength(t);
    if i > 0 {
      EarlierBlocks(t, k, i - 1);
      SeparationAt(t, i - 1);
      assert parts[..i] == parts[..i - 1] + [parts[i - 1]];
      FlattenedAppend(parts[..i - 1], parts[i - 1]);
      forall e: Pair | e in parts[i - 1] ensures KeyBefore(e.key, k) {
        KeyBeforeIsStrict(t.index[i - 1].key, k, e.key);
      }
    }
  }

  lemma IndexLength(t: Layout)
    requires Indexed(t)
    ensures |t.index| == |t.blocks|
  {
  }

  // An entry not before k in the first block whose index key is not before k
  // is the first such entry of the table.
  lemma FoundInBlock(t: Layout, k: Bytes, i: nat, j: nat)
    requires Indexed(t) && IsLowerBound(t.index, KeyBefore, k, i) && i < |t.index|
    requires IsLowerBound(t.blocks[i].entries, KeyBefore, k, j) && j < |t.blocks[i].entries|
    ensures IsFirst(t.Entries(), k, t.blocks[i].entries[j])
  {
    hide KeyBefore, Indexed, Flattened;
    IndexLength(t);
    var parts, es := Parts(t.blocks, []), t.blocks[i].entries;
    var front, all := Flattened(parts[..i]), t.Entries();
    EarlierBlocks(t, k, i);
    PartIsWithin(parts, i);
    var n := |front| + j;
    forall m | 0 <= m < n ensures KeyBefore(all[m].key, k) {
      if m < |front| {
        assert all[m] == (front + es)[m] == front[m];
      } else {
        assert all[|front| + (m - |front|)] == es[m - |front|];
      }
    }
    assert all[n] == es[j];
    assert IsLowerBound(all, KeyBefore, k, n);
  }

  // When all of that block is before k, the first entry not before k has a
  // greater user key.
  lemma NotInBlock(t: Layout, k: Bytes, i: nat, e: Pair)
    requires Indexed(t) && IsLowerBound(t.index, KeyBefore, k, i) && i < |t.index|
    requires IsLowerBound(t.blocks[i].entries, KeyBefore, k, |t.blocks[i].entries|)
    requires IsFirst(t.Entries(), k, e)
    ensures Bytewise.Before(UserPart(k), UserPart(e.key))
  {
    hide KeyBefore, Indexed, Flattened, UserPart, Bytewise.Before, Separates;
    IndexLength(t);
    var parts, es := Parts(t.blocks, []), t.blocks[i].entries;
    var all, sep := t.Entries(), t.index[i].key;
    var n :| 0 <= n < |all| && all[n] == e && IsLowerBound(all, KeyBefore, k, n);
    var upTo := Flattened(parts[..i + 1]);
    assert i + 1 == |parts| ==> parts[..i + 1] == parts;
    ThroughBlock(t, k, i);
    assert n >= |upTo| && i + 1 < |parts|;
    PartIsWithin(parts, i + 1);
    EntriesThere(t, i + 1);
    var first := parts[i + 1][0];
    assert all[|upTo|] == first;
    SeparationAt(t, i);
    KeyNotInBlock(sep, es, k);
    SeparatorBelow(sep, es, parts[i + 1], k, first);
    if n > |upTo| {
      SortedAt(t, |upTo|, n);
      UserBelowLater(k, first.key, e.key);
    }
  }

  lemma ThroughBlock(t: Layout, k: Bytes, i: nat)
    requires Indexed(t) && IsLowerBound(t.index, KeyBefore, k, i) && i < |t.index| && |t.index| == |t.blocks|
    requires forall e :: e in t.blocks[i].entries ==> KeyBefore(e.key, k)
    ensures var upTo := Flattened(Parts(t.blocks, [])[..i + 1]);
      |upTo| <= |t.Entries()| && forall m :: 0 <= m < |upTo| ==> KeyBefore(t.Entries()[m].key, k)
  {
    hide KeyBefore, Indexed, Flattened;
    var parts, es := Parts(t.blocks, []), t.blocks[i].entries;
    EarlierBlocks(t, k, i);
    PartIsWithin(parts, i);
    var front, upTo := Flattened(parts[..i]), Flattened(parts[..i + 1]);
    forall m | 0 <= m < |upTo| ensures KeyBefore(t.Entries()[m].key, k) {
      assert t.Entries()[m] == upTo[m] == (front + es)[m];
      assert m < |front| ==> upTo[m] == front[m];
      assert m >= |front| ==> upTo[m] == es[m - |front|];
    }
  }

  lemma SortedAt(t: Layout, i: nat, j: nat)
    requires Indexed(t) && i < j < |t.Entries()|
    ensures KeyBefore(t.Entries()[i].key, t.Entries()[j].key)
  {
  }

  lemma KeyNotInBlock(sep: Bytes, es: seq<Pair>, k: Bytes)
    requires !KeyBefore(sep, k) && IsLowerBound(es, KeyBefore, k, |es|)
    ensures !HasKey(es, sep)
  {
    hide KeyBefore;
  }

  lemma SeparatorBelow(sep: Bytes, es: seq<Pair>, next: seq<Pair>, k: Bytes, e: Pair)
    requires Separates(sep, es, next) && !HasKey(es, sep) && e in next && !KeyBefore(sep, k)
    ensures Bytewise.Before(UserPart(k), UserPart(e.key))
  {
    hide UserPart, Bytewise.Before;
    var s, u := UserPart(sep), UserPart(k);
    Bytewise.Trichotomy(s, u);
    if s != u {
      Bytewise.BeforeIsTransitive(u, s, UserPart(e.key));
    }
  }

  // When every index key is before k, so is every entry.
  lemma NothingAfter(t: Layout, k: Bytes)
    requires Indexed(t) && IsLowerBound(t.index, KeyBefore, k, |t.index|)
    ensures forall e :: !IsFirst(t.Entries(), k, e)
  {
    hide KeyBefore, Indexed, Flattened;
    IndexLength(t);
    EarlierBlocks(t, k, |t.index|);
    var parts := Parts(t.blocks, []);
    assert parts[..|t.index|] == parts;
  }

  ghost predicate LacksUser(es: seq<Pair>, k: Bytes) {
    forall e :: e in es ==> UserPart(e.key) != UserPart(k)
  }

  // The filter rules out a block only if no entry there has k's user key.
  lemma NoneRuledOut(t: Layout, bits: nat, k: Bytes, i: nat)
    requires Covered(t.filters, t.blocks, [], 0) && i < |t.blocks|
    requires !MayMatch(t.filters, bits, t.blocks[i].handle.offset, k)
    ensures LacksUser(t.blocks[i].entries, k)
  {
    hide MayMatch, UserPart;
    assert Covers(t.filters, t.blocks[i].handle.offset, t.blocks[i].entries);
    forall e | e in t.blocks[i].entries ensures UserPart(e.key) != UserPart(k) {
      if UserPart(e.key) == UserPart(k) {
        AddedMayMatch(t.filters, bits, t.blocks[i].handle.offset, e.key, k);
      }
    }
  }

  ghost function FoundAt(es: seq<Pair>, j: nat): Option<Pair> {
    if j < |es| then Some(es[j]) else None
  }

  // The first entry at or after k in one block, if any.
  ghost predicate FoundIn(es: seq<Pair>, k: Bytes, found: Option<Pair>) {
    exists j :: IsLowerBound(es, KeyBefore, k, j) && found == FoundAt(es, j)
  }

  lemma {:induction false} LowerBoundExists(es: seq<Pair>, k: Bytes, i: nat)
    requires i <= |es| && forall j :: 0 <= j < i ==> KeyBefore(es[j].key, k)
    ensures exists j :: IsLowerBound(es, KeyBefore, k, j)
    decreases |es| - i
  {
    hide KeyBefore;
    if i < |es| && KeyBefore(es[i].key, k) {
      LowerBoundExists(es, k, i + 1);
    } else {
      assert IsLowerBound(es, KeyBefore, k, i);
    }
  }

  lemma LowerBoundFits(es: seq<Pair>, k: Bytes, j: nat)
    requires IsLowerBound(es, KeyBefore, k, j)
    ensures j <= |es|
  {
  }

  lemma FirstIsUnique(es: seq<Pair>, k: Bytes, a: Pair, b: Pair)
    requires IsFirst(es, k, a) && IsFirst(es, k, b)
    ensures a == b
  {
    hide KeyBefore;
  }

  lemma NoAnswer(es: seq<Pair>, k: Bytes)
    requires forall e :: !IsFirst(es, k, e)
    ensures Answers(es, k, None)
  {
  }

  lemma BlockSorted(t: Layout, i: nat)
    requires Indexed(t) && i < |t.blocks|
    ensures Increasing(t.blocks[i].entries, KeyBefore)
  {
    hide KeyBefore, Flattened, Indexed;
    var parts, es, all := Parts(t.blocks, []), t.blocks[i].entries, t.Entries();
    PartIsWithin(parts, i);
    var f := |Flattened(parts[..i])|;
    forall a, b | 0 <= a < b < |es| ensures KeyBefore(es[a].key, es[b].key) {
      assert all[f + a] == es[a] && all[f + b] == es[b];
      SortedAt(t, f + a, f + b);
    }
  }

  // ----- the reader -----

  class Table {
    const file: Bytes
    const indexData: Bytes
    const filter: FilterBlockReader?
    ghost const t: Layout

    // An open table whose file is the finished one.
    ghost predicate Ok() {
      && (filter != null ==> filter.Ok())
      && (Good() ==>
            && indexData == BlockOf(t.index, 1)
            && (filter != null ==> t.policyBits.Some? && filter.Opened(t.filters, t.policyBits.value)))
    }

    ghost predicate Good() {
      IsTable(file, t) && t.Fits(file)
    }

    constructor (f: Bytes, index: Bytes, reader: FilterBlockReader?, ghost layout: Layout)
      ensures file == f && indexData == index && filter == reader && t == layout
    {
      file, indexData, filter, t := f, index, reader, layout;
    }

    lemma IndexFacts()
      requires Ok() && Good()
      ensures Indexed(t) && IsBlock(indexData, t.index, 1)
      ensures Increasing(t.index, KeyBefore) && Transitive(KeyBefore)
      ensures forall i :: 0 <= i < |t.index| ==> t.index[i].value == EncodeHandle(t.blocks[i].handle)
    {
      hide Indexed, BlockOf, Stored, FooterOf, Covered, IsFilterBlock, WellSeparated, Transitive, KeyBefore,
        EncodeHandle, Written, Layout.Entries, FilterBlockReader.Opened;
      TableIsIndexed(file, t);
      OrderIsTransitive();
      forall i, j | 0 <= i < j < |t.index| ensures KeyBefore(t.index[i].key, t.index[j].key) {
        IndexSorted(t, i, j);
      }
    }

    lemma BlockFacts(i: nat)
      requires Ok() && Good() && i < |t.blocks|
      ensures var b := t.blocks[i]; var data := BlockOf(b.entries, t.interval);
        Fits(b.handle) && StoredAt(file, b.handle, data) && IsBlock(data, b.entries, t.interval)
      ensures Increasing(t.blocks[i].entries, KeyBefore)
    {
      hide BlockOf, Stored, FooterOf, Covered, IsFilterBlock, WellSeparated, KeyBefore, EncodeHandle,
        FilterBlockReader.Opened, Flattened, Named;
      assert BlockStored(file, t.blocks[i], t.interval);
      TableIsIndexed(file, t);
      BlockSorted(t, i);
    }

    // The block that an index value names.
    method BlockReader(indexValue: Bytes, verifyChecksums: bool, ghost i: nat) returns (contents: Option<Bytes>)
      requires Ok()
      ensures Good() && i < |t.blocks| && indexValue == EncodeHandle(t.blocks[i].handle) ==>
        contents == Some(BlockOf(t.blocks[i].entries, t.interval))
    {
      hide Ok, Good, BlockOf, StoredAt, Fits, EncodeHandle, ParseHandle, IsBlock, KeyBefore, Increasing;
      contents := None;
      if Good() && i < |t.blocks| {
        BlockFacts(i);
        HandleRoundTrip(t.blocks[i].handle, []);
        assert EncodeHandle(t.blocks[i].handle) + [] == EncodeHandle(t.blocks[i].handle);
      }
      var h := DecodeHandle(indexValue);
      if h.Some? {
        contents := Formats.ReadBlock(file, h.value.0, verifyChecksums);
      }
    }

    // The first entry at or after k in the block that an index value names.
    method SeekInBlock(indexValue: Bytes, k: Bytes, verifyChecksums: bool, ghost i: nat) returns (found: Option<Pair>)
      requires Ok()
      ensures Good() && i < |t.blocks| && indexValue == EncodeHandle(t.blocks[i].handle) ==>
        FoundIn(t.blocks[i].entries, k, found)
    {
      hide Ok, Good, BlockOf, StoredAt, Fits, EncodeHandle, IsBlock, KeyBefore, Increasing, Iter.Ok, IsLowerBound,
        Transitive;
      found := None;
      ghost var good := Good() && i < |t.blocks| && indexValue == EncodeHandle(t.blocks[i].handle);
      ghost var es := if good then t.blocks[i].entries else [];
      var contents := BlockReader(indexValue, verifyChecksums, i);
      if good {
        BlockFacts(i);
        OrderIsTransitive();
      }
      if contents.Some? {
        var it := NewIterator(KeyBefore, contents.value, es, t.interval);
        if it != null {
          it.Seek(k);
          it.Facts();
          if it.Valid() {
            found := Some(Pair(it.key, it.data[it.valueAt..it.NextEntryOffset()]));
          }
          assert good ==> IsLowerBound(es, KeyBefore, k, it.pos);
        }
      }
    }

    // False only when there is a filter that rules the block out.
    method MayHold(handleValue: Bytes, k: Bytes, ghost i: nat) returns (may: bool)
      requires Ok()
      ensures Good() && i < |t.blocks| && handleValue == EncodeHandle(t.blocks[i].handle) && !may ==>
        LacksUser(t.blocks[i].entries, k)
    {
      hide Good, BlockOf, StoredAt, Fits, EncodeHandle, IsBlock, KeyBefore, Increasing, UserPart, MayMatch, ParseHandle,
        FilterBlockReader.Opened, FilterBlockReader.Ok;
      may := true;
      ghost var bits := if t.policyBits.Some? then t.policyBits.value else 0;
      if filter != null {
        var h := DecodeHandle(handleValue);
        if h.Some? {
          may := filter.KeyMayMatch(h.value.0.offset, k, t.filters, bits);
        }
        if Good() && i < |t.blocks| && handleValue == EncodeHandle(t.blocks[i].handle) && !may {
          BlockFacts(i);
          HandleRoundTrip(t.blocks[i].handle, []);
          assert handleValue + [] == handleValue;
          FilterFacts();
          NoneRuledOut(t, bits, k, i);
        }
      }
    }

    lemma FilterFacts()
      requires Good() && t.policyBits.Some?
      ensures Covered(t.filters, t.blocks, [], 0)
    {
    }

    lemma Decided(k: Bytes, i: nat, may: bool, found: Option<Pair>)
      requires Ok() && Good() && Indexed(t) && i < |t.index| && |t.index| == |t.blocks|
      requires IsLowerBound(t.index, KeyBefore, k, i)
      requires if may then
          FoundIn(t.blocks[i].entries, k, found)
        else
          found == None && LacksUser(t.blocks[i].entries, k)
      ensures Answers(t.Entries(), k, found)
    {
      hide Ok, Good, Indexed, KeyBefore, UserPart, IsLowerBound, IsFirst, Layout.Entries, Bytewise.Before;
      var es := t.blocks[i].entries;
      LowerBoundExists(es, k, 0);
      var j: nat :| IsLowerBound(es, KeyBefore, k, j) && (may ==> found == FoundAt(es, j));
      LowerBoundFits(es, k, j);
      if j < |es| {
        FoundInBlock(t, k, i, j);
        assert es[j] in es;
        forall e | IsFirst(t.Entries(), k, e) ensures e == es[j] {
          FirstIsUnique(t.Entries(), k, e, es[j]);
        }
      } else {
        forall e | IsFirst(t.Entries(), k, e) ensures UserPart(e.key) != UserPart(k) {
          NotInBlock(t, k, i, e);
          Bytewise.Trichotomy(UserPart(k), UserPart(k));
        }
      }
    }

    // Table::InternalGet. Nothing when the index or the block cannot be read.
    method InternalGet(k: Bytes, verifyChecksums: bool) returns (found: Option<Pair>)
      requires Ok()
      ensures Good() ==> Answers(t.Entries(), k, found)
    {
      hide Ok, Good, BlockOf, StoredAt, Fits, EncodeHandle, IsBlock, KeyBefore, Increasing, Iter.Ok, Transitive,
        Answers, Indexed;
      found := None;
      ghost var bits := if t.policyBits.Some? then t.policyBits.value else 0;
      if Good() {
        IndexFacts();
        IndexLength(t);
      }
      var iiter := NewIterator(KeyBefore, indexData, t.index, 1);
      if iiter == null {
        return;
      }
      iiter.Seek(k);
      iiter.Facts();
      if iiter.Valid() {
        ghost var i := iiter.pos;
        var handleValue := iiter.data[iiter.valueAt..iiter.NextEntryOffset()];
        var may := MayHold(handleValue, k, i);
        if may {
          found := SeekInBlock(handleValue, k, verifyChecksums, i);
        }
        if Good() {
          Decided(k, i, may, found);
        }
      } else if Good() {
        NothingAfter(t, k);
        NoAnswer(t.Entries(), k);
      }
    }
  }

  // ----- opening a table -----

  lemma HandlesFit(file: Bytes, t: Layout)
    requires IsTable(file, t) && t.Fits(file)
    ensures Fits(t.metaHandle) && Fits(t.indexHandle) && (t.policyBits.Some? ==> Fits(t.filterHandle))
    ensures IsBlock(BlockOf(t.index, 1), t.index, 1)
    ensures IsBlock(BlockOf(t.Metaindex(), t.interval), t.Metaindex(), t.interval)
  {
    hide BlockOf, Stored, FooterOf, Covered, IsFilterBlock, Built, EncodeHandle, Layout.Metaindex;
  }

  // Table::Open: only the footer and the index block must be readable. A table
  // has its filter when it was built with one and the options name the policy.
  method Open(file: Bytes, hasPolicy: bool, paranoidChecks: bool, ghost t: Layout) returns (table: Table?)
    ensures table != null ==> fresh(table) && table.Ok() && table.file == file && table.t == t
    ensures IsTable(file, t) && t.Fits(file) ==>
      table != null && (table.filter != null <==> hasPolicy && t.policyBits.Some?)
  {
    hide StoredAt, BlockOf, FooterOf, Covered, IsFilterBlock, Built, ParseFooter, Fits, IsBlock,
      FilterBlockReader.Opened;
    table := null;
    ghost var good := IsTable(file, t) && t.Fits(file);
    if |file| < FOOTER_SIZE {
      return;
    }
    var footer := DecodeFooter(file[|file| - FOOTER_SIZE..]);
    if good {
      HandlesFit(file, t);
      FooterRoundTrip(t.metaHandle, t.indexHandle);
    }
    if footer.None? {
      return;
    }
    var contents := Formats.ReadBlock(file, footer.value.1, paranoidChecks);
    if contents.None? {
      return;
    }
    var filter: FilterBlockReader? := null;
    if hasPolicy {
      filter := ReadMeta(file, footer.value.0, paranoidChecks, t);
    }
    table := new Table(file, contents.value, filter, t);
  }

  method ReadMeta(file: Bytes, metaHandle: BlockHandle, paranoidChecks: bool, ghost t: Layout)
    returns (filter: FilterBlockReader?)
    ensures filter != null ==> fresh(filter) && filter.Ok()
    ensures IsTable(file, t) && t.Fits(file) && metaHandle == t.metaHandle ==>
      && (filter != null <==> t.policyBits.Some?)
      && (filter != null ==> filter.Opened(t.filters, t.policyBits.value))
  {
    hide StoredAt, BlockOf, FooterOf, Covered, IsFilterBlock, Built, Fits, IsBlock, Iter.Ok, EncodeHandle, Transitive,
      Increasing, IsLowerBound, FilterBlockReader.Opened, FilterBlockReader.Ok, Bytewise.Before, Layout.Metaindex;
    filter := null;
    ghost var good := IsTable(file, t) && t.Fits(file) && metaHandle == t.metaHandle;
    if good {
      HandlesFit(file, t);
      MetaindexFacts(t);
      OrderIsTransitive();
    }
    var contents := Formats.ReadBlock(file, metaHandle, paranoidChecks);
    if contents.None? {
      return;
    }
    var it := NewIterator(Bytewise.Before, contents.value, t.Metaindex(), t.interval);
    if it == null {
      return;
    }
    it.Seek(FILTER_NAME);
    it.Facts();
    if good {
      FilterNameFound(t, it.pos);
    }
    if it.Valid() && it.key == FILTER_NAME {
      filter := ReadFilter(file, it.data[it.valueAt..it.NextEntryOffset()], paranoidChecks, t);
    }
  }

  lemma MetaindexFacts(t: Layout)
    ensures Increasing(t.Metaindex(), Bytewise.Before)
  {
  }

  lemma FilterNameFound(t: Layout, i: nat)
    requires IsLowerBound(t.Metaindex(), Bytewise.Before, FILTER_NAME, i)
    ensures i <= |t.Metaindex()|
    ensures t.policyBits.Some? <==> i < |t.Metaindex()|
    ensures i < |t.Metaindex()| ==> t.Metaindex()[i] == Pair(FILTER_NAME, EncodeHandle(t.filterHandle))
  {
    hide Bytewise.Before, EncodeHandle;
    if t.policyBits.Some? {
      OnlyEntry(Pair(FILTER_NAME, EncodeHandle(t.filterHandle)), i);
    }
  }

  lemma OnlyEntry(e: Pair, i: nat)
    requires IsLowerBound([e], Bytewise.Before, e.key, i)
    ensures i == 0
  {
    hide Bytewise.Before;
    Bytewise.Trichotomy(e.key, e.key);
    assert [e][0] == e;
  }

  method ReadFilter(file: Bytes, handleValue: Bytes, paranoidChecks: bool, ghost t: Layout)
    returns (filter: FilterBlockReader?)
    ensures filter != null ==> fresh(filter) && filter.Ok()
    ensures IsTable(file, t) && t.Fits(file) && t.policyBits.Some? && handleValue == EncodeHandle(t.filterHandle) ==>
      filter != null && filter.Opened(t.filters, t.policyBits.value)
  {
    hide StoredAt, BlockOf, FooterOf, Covered, IsFilterBlock, Built, Fits, IsBlock, EncodeHandle, ParseHandle,
      FilterBlockReader.Opened, FilterBlockReader.Ok;
    filter := null;
    ghost var bits := if t.policyBits.Some? then t.policyBits.value else 0;
    if IsTable(file, t) && t.Fits(file) && t.policyBits.Some? {
      HandlesFit(file, t);
      HandleRoundTrip(t.filterHandle, []);
      assert EncodeHandle(t.filterHandle) + [] == EncodeHandle(t.filterHandle);
    }
    var h := DecodeHandle(handleValue);
    if h.Some? {
      var contents := Formats.ReadBlock(file, h.value.0, paranoidChecks);
      if contents.Some? {
        filter := new FilterBlockReader(contents.value, t.filters, bits);
      }
    }
  }

  lemma IsAfter(es: seq<Pair>, i: nat)
    requires TableBuilders.Sorted(es) && i < |es|
    ensures After(es[..i], es[i].key)
  {
  }

  // Files under 4 GiB are within every limit.
  lemma SmallFits(file: Bytes, t: Layout)
    requires IsTable(file, t) && |file| < TWO_32
    ensures t.Fits(file)
  {
    hide BlockOf, Stored, FooterOf, Covered, IsFilterBlock, WellSeparated, Flattened, EncodeHandle, Layout.Metaindex;
    forall i | 0 <= i < |t.blocks| ensures t.blocks[i].handle.size < TWO_32 {
      assert BlockStored(file, t.blocks[i], t.interval);
    }
  }

  // Built, opened and asked: the whole round trip, for any entries in order,
  // block size, restart interval, with or without a filter on either side.
  method BuildAndGet(
    entries: seq<Pair>, interval: nat, blockSize: nat, policyBits: Option<nat>, hasPolicy: bool, k: Bytes, verify: bool)
    returns (file: Bytes, found: Option<Pair>)
    requires interval >= 1 && TableBuilders.Sorted(entries)
    requires forall e :: e in entries ==> |e.key| >= 8
    ensures |file| < TWO_32 ==> Answers(entries, k, found)
  {
    hide KeyBefore, TableBuilder.Ok, Answers, Table.Ok, Table.Good, IsTable, Layout.Fits, Layout.Entries, After;
    found := None;
    var builder := new TableBuilder(interval, blockSize, policyBits);
    for i := 0 to |entries|
      invariant builder.Ok() && fresh(builder) && builder.entries == entries[..i]
      invariant fresh(builder.dataBlock) && fresh(builder.indexBlock)
      invariant builder.filterBlock != null ==> fresh(builder.filterBlock)
    {
      assert entries[i] in entries;
      IsAfter(entries, i);
      builder.Add(entries[i].key, entries[i].value);
      assert Pair(entries[i].key, entries[i].value) == entries[i];
    }
    assert entries[..|entries|] == entries;
    ghost var t := builder.Finish();
    file := builder.file;
    var table := Open(file, hasPolicy, verify, t);
    if |file| < TWO_32 {
      SmallFits(file, t);
      IsGood(table, file, t);
    }
    if table != null {
      found := table.InternalGet(k, verify);
    }
  }

  lemma IsGood(table: Table?, file: Bytes, t: Layout)
    requires IsTable(file, t) && t.Fits(file) && table != null && table.file == file && table.t == t
    ensures table.Good()
  {
  }
}
