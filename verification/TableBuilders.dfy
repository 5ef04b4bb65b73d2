// The builder of a sorted table (table/table_builder.cc): data blocks, an
// index entry for each that separates it from the next, a filter block, a
// metaindex and a footer.
module TableBuilders {
  import opened Keys
  import opened Codings
  import opened Blocks
  import opened Formats
  import opened FilterBlocks
  import opened InternalKeys
  import Bytewise
  import Crcs

  // ----- the blocks and the index over them -----

  datatype DataBlock = DataBlock(handle: BlockHandle, entries: seq<Pair>)

  // The finished blocks' entries, then those of the block being filled.
  ghost function Parts(blocks: seq<DataBlock>, current: seq<Pair>): (r: seq<seq<Pair>>)
    ensures |r| == |blocks| + if current == [] then 0 else 1
    ensures forall i :: 0 <= i < |blocks| ==> r[i] == blocks[i].entries
    ensures current != [] ==> r[|blocks|] == current
  {
    seq(|blocks|, i requires 0 <= i < |blocks| => blocks[i].entries) + if current == [] then [] else [current]
  }

  ghost function Flattened(parts: seq<seq<Pair>>): seq<Pair> {
    if parts == [] then [] else Flattened(parts[..|parts| - 1]) + parts[|parts| - 1]
  }

  ghost predicate AtOrAbove(k: Bytes, es: seq<Pair>) {
    forall e :: e in es ==> !KeyBefore(k, e.key)
  }

  ghost predicate Below(k: Bytes, es: seq<Pair>) {
    forall e :: e in es ==> KeyBefore(k, e.key)
  }

  ghost predicate UserBelow(k: Bytes, es: seq<Pair>) {
    forall e :: e in es ==> Bytewise.Before(UserPart(k), UserPart(e.key))
  }

  // At or above one block and strictly below the next; and unless it is a key
  // of the block itself, the first possible key of a user key below every one
  // of the next.
  ghost predicate Separates(k: Bytes, es: seq<Pair>, next: seq<Pair>) {
    AtOrAbove(k, es) && Below(k, next) && (HasKey(es, k) || (UserBelow(k, next) && k == FirstKeyOf(UserPart(k))))
  }

  ghost predicate HasKey(es: seq<Pair>, k: Bytes) {
    exists e :: e in es && e.key == k
  }

  ghost predicate WellSeparated(index: seq<Pair>, parts: seq<seq<Pair>>) {
    && |index| <= |parts|
    && forall i :: 0 <= i < |index| ==> Separates(index[i].key, parts[i], Part(parts, i + 1))
  }

  ghost function Part(parts: seq<seq<Pair>>, i: nat): seq<Pair> {
    if i < |parts| then parts[i] else []
  }

  ghost predicate Sorted(es: seq<Pair>) {
    Increasing(es, KeyBefore)
  }

  // Strictly after everything so far.
  ghost predicate After(es: seq<Pair>, key: Bytes) {
    es == [] || KeyBefore(es[|es| - 1].key, key)
  }

  lemma SortedAppend(es: seq<Pair>, e: Pair)
    requires Sorted(es) && After(es, e.key)
    ensures Sorted(es + [e])
  {
    hide KeyBefore;
    forall i | 0 <= i < |es| ensures KeyBefore(es[i].key, e.key) {
      KeyBeforeIsStrict(es[i].key, es[|es| - 1].key, e.key);
    }
  }

  lemma {:induction false} FlattenedAppend(parts: seq<seq<Pair>>, es: seq<Pair>)
    ensures Flattened(parts + [es]) == Flattened(parts) + es
  {
    assert (parts + [es])[..|parts|] == parts;
  }

  lemma {:induction false} PartIsWithin(parts: seq<seq<Pair>>, i: nat)
    requires i < |parts|
    ensures |Flattened(parts[..i])| + |parts[i]| <= |Flattened(parts)|
    ensures forall k :: 0 <= k < |parts[i]| ==> Flattened(parts)[|Flattened(parts[..i])| + k] == parts[i][k]
    ensures Flattened(parts[..i]) + parts[i] == Flattened(parts[..i + 1]) <= Flattened(parts)
  {
    var front := parts[..|parts| - 1];
    FlattenedAppend(parts[..i], parts[i]);
    assert parts[..i] + [parts[i]] == parts[..i + 1];
    if i < |parts| - 1 {
      PartIsWithin(front, i);
      assert front[..i] == parts[..i] && front[..i + 1] == parts[..i + 1];
    } else {
      assert parts[..|parts|] == parts;
    }
  }

  // ----- the filter covers the blocks -----

  ghost predicate Covers(keys: seq<seq<Bytes>>, h: nat, es: seq<Pair>) {
    es != [] ==> h / FILTER_BASE < |keys| && forall e :: e in es ==> e.key in keys[h / FILTER_BASE]
  }

  ghost predicate Covered(keys: seq<seq<Bytes>>, blocks: seq<DataBlock>, current: seq<Pair>, offset: nat) {
    && (forall i :: 0 <= i < |blocks| ==> Covers(keys, blocks[i].handle.offset, blocks[i].entries))
    && Covers(keys, offset, current)
  }

  // Each filter has at least the keys it had.
  ghost predicate KeepsKeys(was: seq<seq<Bytes>>, now: seq<seq<Bytes>>) {
    forall i, k :: 0 <= i < |was| && k in was[i] ==> i < |now| && k in now[i]
  }

  lemma StillCovers(was: seq<seq<Bytes>>, now: seq<seq<Bytes>>, h: nat, es: seq<Pair>)
    requires Covers(was, h, es) && KeepsKeys(was, now)
    ensures Covers(now, h, es)
  {
    if es != [] {
      assert es[0].key in was[h / FILTER_BASE];
    }
  }

  // ----- what has been written so far -----

  ghost predicate BlockStored(file: Bytes, b: DataBlock, interval: nat) {
    interval >= 1 && b.entries != [] && StoredAt(file, b.handle, BlockOf(b.entries, interval))
  }

  ghost predicate InOrder(blocks: seq<DataBlock>) {
    forall i, j :: 0 <= i < j < |blocks| ==> blocks[i].handle.offset < blocks[j].handle.offset
  }

  ghost predicate Named(index: seq<Pair>, blocks: seq<DataBlock>) {
    |index| <= |blocks| && forall i :: 0 <= i < |index| ==> index[i].value == EncodeHandle(blocks[i].handle)
  }

  ghost predicate Written(file: Bytes, blocks: seq<DataBlock>, interval: nat) {
    InOrder(blocks) && forall i :: 0 <= i < |blocks| ==> BlockStored(file, blocks[i], interval)
  }

  lemma WrittenMore(file: Bytes, more: Bytes, blocks: seq<DataBlock>, interval: nat)
    requires Written(file, blocks, interval)
    ensures Written(file + more, blocks, interval)
  {
    hide BlockOf, StoredAt;
    forall i | 0 <= i < |blocks| ensures BlockStored(file + more, blocks[i], interval) {
      assert BlockStored(file, blocks[i], interval);
      StaysStored(file, more, blocks[i].handle, BlockOf(blocks[i].entries, interval));
    }
  }

  lemma WrittenAppend(file: Bytes, b: DataBlock, blocks: seq<DataBlock>, interval: nat)
    requires Written(file, blocks, interval) && interval >= 1 && b.entries != []
    requires b.handle == BlockHandle(|file|, |BlockOf(b.entries, interval)|)
    ensures Written(file + Stored(BlockOf(b.entries, interval)), blocks + [b], interval)
  {
    hide BlockOf, Stored;
    var contents := BlockOf(b.entries, interval);
    var file', blocks' := file + Stored(contents), blocks + [b];
    WrittenMore(file, Stored(contents), blocks, interval);
    AtEnd(file, contents);
    forall i | 0 <= i < |blocks| ensures blocks[i].handle.offset < |file| {
      assert BlockStored(file, blocks[i], interval);
    }
    forall i | 0 <= i < |blocks'| ensures BlockStored(file', blocks'[i], interval) {
      assert i < |blocks| ==> BlockStored(file', blocks[i], interval);
    }
  }

  lemma AtEnd(file: Bytes, contents: Bytes)
    ensures StoredAt(file + Stored(contents), BlockHandle(|file|, |contents|), contents)
  {
    hide Stored;
    assert (file + Stored(contents))[|file|..|file| + |contents| + TRAILER_SIZE] == Stored(contents);
  }

  // ----- separators -----

  // The entry added next keeps every separation.
  lemma SeparatedMore(index: seq<Pair>, blocks: seq<DataBlock>, current: seq<Pair>, e: Pair)
    requires WellSeparated(index, Parts(blocks, current)) && |index| == |blocks|
    requires Sorted(current + [e])
    requires current == [] && index != [] ==>
      Separates(index[|index| - 1].key, blocks[|blocks| - 1].entries, [e])
    ensures WellSeparated(index, Parts(blocks, current + [e]))
  {
    hide Separates;
    var parts, parts' := Parts(blocks, current), Parts(blocks, current + [e]);
    assert current == [] ==> current + [e] == [e];
    forall i | 0 <= i < |index| ensures Separates(index[i].key, parts'[i], Part(parts', i + 1)) {
      assert Separates(index[i].key, parts[i], Part(parts, i + 1));
      if i == |blocks| - 1 && current != [] {
        SeparatesMore(index[i].key, parts[i], current, e);
      }
    }
  }

  lemma SeparatesMore(k: Bytes, es: seq<Pair>, next: seq<Pair>, e: Pair)
    requires Separates(k, es, next) && next != [] && Sorted(next + [e])
    ensures Separates(k, es, next + [e])
  {
    hide KeyBefore, UserPart, FirstKeyOf;
    var first := next[0];
    assert first in next;
    assert (next + [e])[0] == first && (next + [e])[|next|] == e;
    KeyBeforeIsStrict(k, first.key, e.key);
    if UserBelow(k, next) {
      UserBelowLater(k, first.key, e.key);
    }
  }

  lemma UserBelowLater(k: Bytes, first: Bytes, later: Bytes)
    requires Bytewise.Before(UserPart(k), UserPart(first)) && KeyBefore(first, later)
    ensures Bytewise.Before(UserPart(k), UserPart(later))
  {
    if UserPart(first) != UserPart(later) {
      Bytewise.BeforeIsTransitive(UserPart(k), UserPart(first), UserPart(later));
    }
  }

  // What FindShortestSeparator gives for the last key of a block and the first
  // of the next.
  lemma SeparatorSeparates(sep: Bytes, es: seq<Pair>, e: Pair)
    requires es != [] && Sorted(es) && KeyBefore(es[|es| - 1].key, e.key)
    requires var last := es[|es| - 1].key;
      || sep == last
      || (&& KeyBefore(last, sep) && KeyBefore(sep, e.key) && Bytewise.Before(UserPart(sep), UserPart(e.key))
          && sep == FirstKeyOf(UserPart(sep)))
    ensures Separates(sep, es, [e])
  {
    hide KeyBefore, UserPart, FirstKeyOf;
    LastIsAbove(sep, es);
    assert es[|es| - 1] in es;
  }

  lemma LastIsAbove(k: Bytes, es: seq<Pair>)
    requires es != [] && Sorted(es) && (k == es[|es| - 1].key || KeyBefore(es[|es| - 1].key, k))
    ensures AtOrAbove(k, es)
  {
    hide KeyBefore;
    var last := es[|es| - 1].key;
    forall e | e in es ensures !KeyBefore(k, e.key) {
      var i :| 0 <= i < |es| && es[i] == e;
      KeyBeforeIsStrict(last, e.key, last);
      KeyBeforeIsStrict(last, k, e.key);
      KeyBeforeIsStrict(last, last, last);
      if i < |es| - 1 {
        assert KeyBefore(e.key, last);
      }
    }
  }

  // ----- the finished table -----

  // "filter." and the Bloom policy's name.
  const FILTER_NAME: Bytes := [
    0x66, 0x69, 0x6c, 0x74, 0x65, 0x72, 0x2e, 0x6c, 0x65, 0x76, 0x65, 0x6c, 0x64, 0x62, 0x2e, 0x42, 0x75, 0x69,
    0x6c, 0x74, 0x69, 0x6e, 0x42, 0x6c, 0x6f, 0x6f, 0x6d, 0x46, 0x69, 0x6c, 0x74, 0x65, 0x72, 0x32]

  ghost predicate Built(
    file: Bytes, blocks: seq<DataBlock>, current: seq<Pair>, index: seq<Pair>, interval: nat, entries: seq<Pair>)
  {
    && Written(file, blocks, interval)
    && Sorted(entries) && entries == Flattened(Parts(blocks, current))
    && Named(index, blocks) && WellSeparated(index, Parts(blocks, current))
  }

  // What a finished table holds, and where.
  datatype Layout = Layout(
    blocks: seq<DataBlock>, index: seq<Pair>, interval: nat, policyBits: Option<nat>, filters: seq<seq<Bytes>>,
    filterData: Bytes, filterHandle: BlockHandle, metaHandle: BlockHandle, indexHandle: BlockHandle)
  {
    ghost function Entries(): seq<Pair> {
      Flattened(Parts(blocks, []))
    }

    ghost function Metaindex(): seq<Pair> {
      if policyBits.Some? then [Pair(FILTER_NAME, EncodeHandle(filterHandle))] else []
    }

    // Offsets in 64 bits, and every block within its 32.
    ghost predicate Fits(file: Bytes) {
      && |file| < TWO_64
      && metaHandle.size < TWO_32 && indexHandle.size < TWO_32 && (policyBits.Some? ==> |filterData| < TWO_32)
      && forall i :: 0 <= i < |blocks| ==> blocks[i].handle.size < TWO_32
    }
  }

  ghost predicate IsTable(file: Bytes, t: Layout) {
    && t.interval >= 1 && |t.index| == |t.blocks|
    && Built(file, t.blocks, [], t.index, t.interval, t.Entries())
    && (t.policyBits.Some? ==>
          && StoredAt(file, t.filterHandle, t.filterData)
          && (|t.filterData| < TWO_32 ==> IsFilterBlock(t.filterData, t.filters, t.policyBits.value))
          && Covered(t.filters, t.blocks, [], 0))
    && StoredAt(file, t.metaHandle, BlockOf(t.Metaindex(), t.interval))
    && StoredAt(file, t.indexHandle, BlockOf(t.index, 1))
    && |file| >= FOOTER_SIZE && file[|file| - FOOTER_SIZE..] == FooterOf(t.metaHandle, t.indexHandle)
  }

  // ----- steps -----

  // The last entry is that of the last finished block, which is in order.
  lemma LastBlock(blocks: seq<DataBlock>)
    requires blocks != [] && Sorted(Flattened(Parts(blocks, []))) && blocks[|blocks| - 1].entries != []
    ensures var all, es := Flattened(Parts(blocks, [])), blocks[|blocks| - 1].entries;
      all != [] && all[|all| - 1] == es[|es| - 1] && Sorted(es)
  {
    hide KeyBefore, Flattened;
    var parts, n := Parts(blocks, []), |blocks| - 1;
    PartIsWithin(parts, n);
    var all, es, front := Flattened(parts), blocks[n].entries, Flattened(parts[..n]);
    assert parts[..n + 1] == parts;
    forall i, j | 0 <= i < j < |es| ensures KeyBefore(es[i].key, es[j].key) {
      assert all[|front| + i] == es[i] && all[|front| + j] == es[j];
    }
  }

  lemma BuiltIndexed(
    file: Bytes, blocks: seq<DataBlock>, index: seq<Pair>, interval: nat, entries: seq<Pair>, sep: Bytes,
    last: DataBlock)
    requires Built(file, blocks, [], index, interval, entries) && |index| == |blocks| - 1
    requires last == blocks[|blocks| - 1] && Separates(sep, last.entries, [])
    ensures Built(file, blocks, [], index + [Pair(sep, EncodeHandle(last.handle))], interval, entries)
  {
    hide Separates, Written, Flattened, EncodeHandle;
    var index', parts := index + [Pair(sep, EncodeHandle(last.handle))], Parts(blocks, []);
    forall i | 0 <= i < |index'| ensures Separates(index'[i].key, parts[i], Part(parts, i + 1)) {
      assert i < |index| ==> Separates(index[i].key, parts[i], Part(parts, i + 1));
    }
  }

  lemma BuiltMore(
    file: Bytes, blocks: seq<DataBlock>, current: seq<Pair>, index: seq<Pair>, interval: nat, entries: seq<Pair>,
    e: Pair)
    requires Built(file, blocks, current, index, interval, entries) && |index| == |blocks| && After(entries, e.key)
    requires current == [] && index != [] ==> Separates(index[|index| - 1].key, blocks[|blocks| - 1].entries, [e])
    ensures Built(file, blocks, current + [e], index, interval, entries + [e])
  {
    hide Separates, Written, Named, KeyBefore, Flattened, WellSeparated;
    SortedAppend(entries, e);
    var done := Parts(blocks, []);
    assert Parts(blocks, current + [e]) == done + [current + [e]];
    FlattenedAppend(done, current + [e]);
    if current == [] {
      assert Parts(blocks, current) == done;
    } else {
      assert Parts(blocks, current) == done + [current];
      FlattenedAppend(done, current);
    }
    assert entries + [e] == Flattened(done) + (current + [e]);
    TailSorted(Flattened(done), current + [e]);
    SeparatedMore(index, blocks, current, e);
  }

  lemma TailSorted(front: seq<Pair>, tail: seq<Pair>)
    requires Sorted(front + tail)
    ensures Sorted(tail)
  {
    hide KeyBefore;
    forall i, j | 0 <= i < j < |tail| ensures KeyBefore(tail[i].key, tail[j].key) {
      assert (front + tail)[|front| + i] == tail[i] && (front + tail)[|front| + j] == tail[j];
    }
  }

  lemma BuiltFlushed(
    file: Bytes, blocks: seq<DataBlock>, current: seq<Pair>, index: seq<Pair>, interval: nat, entries: seq<Pair>,
    b: DataBlock)
    requires Built(file, blocks, current, index, interval, entries) && interval >= 1
    requires current != [] && b == DataBlock(BlockHandle(|file|, |BlockOf(current, interval)|), current)
    ensures Built(file + Stored(BlockOf(current, interval)), blocks + [b], [], index, interval, entries)
  {
    hide Written, WellSeparated, Flattened, BlockOf, Stored, EncodeHandle;
    assert Parts(blocks + [b], []) == Parts(blocks, current);
    WrittenAppend(file, b, blocks, interval);
  }

  lemma CoveredMore(keys: seq<seq<Bytes>>, keys': seq<seq<Bytes>>, blocks: seq<DataBlock>, current: seq<Pair>,
      offset: nat, e: Pair)
    requires Covered(keys, blocks, current, offset) && KeepsKeys(keys, keys')
    requires offset / FILTER_BASE < |keys'| && e.key in keys'[offset / FILTER_BASE]
    ensures Covered(keys', blocks, current + [e], offset)
  {
    forall i | 0 <= i < |blocks| ensures Covers(keys', blocks[i].handle.offset, blocks[i].entries) {
      StillCovers(keys, keys', blocks[i].handle.offset, blocks[i].entries);
    }
    StillCovers(keys, keys', offset, current);
  }

  lemma CoveredFlushed(keys: seq<seq<Bytes>>, keys': seq<seq<Bytes>>, blocks: seq<DataBlock>, b: DataBlock, offset: nat)
    requires Covered(keys, blocks, b.entries, b.handle.offset) && KeepsKeys(keys, keys')
    ensures Covered(keys', blocks + [b], [], offset)
  {
    var blocks' := blocks + [b];
    forall i | 0 <= i < |blocks'| ensures Covers(keys', blocks'[i].handle.offset, blocks'[i].entries) {
      StillCovers(keys, keys', blocks'[i].handle.offset, blocks'[i].entries);
    }
  }

  lemma BuiltFacts(file: Bytes, blocks: seq<DataBlock>, index: seq<Pair>, interval: nat, entries: seq<Pair>)
    requires Built(file, blocks, [], index, interval, entries) && blocks != []
    ensures var es := blocks[|blocks| - 1].entries;
      es != [] && Sorted(es) && entries != [] && entries[|entries| - 1] == es[|es| - 1]
  {
    hide WellSeparated, Named, Flattened, StoredAt, BlockOf, Sorted;
    assert BlockStored(file, blocks[|blocks| - 1], interval);
    LastBlock(blocks);
  }

  lemma SeparatesNothing(k: Bytes, es: seq<Pair>, next: seq<Pair>)
    requires Separates(k, es, next)
    ensures Separates(k, es, [])
  {
  }

  lemma CoveredByFilters(keys: seq<seq<Bytes>>, all: seq<seq<Bytes>>, blocks: seq<DataBlock>, offset: nat)
    requires Covered(keys, blocks, [], offset) && keys != []
    requires |all| == |keys| - (if keys[|keys| - 1] == [] then 1 else 0)
    requires forall i :: 0 <= i < |all| ==> all[i] == keys[i]
    ensures Covered(all, blocks, [], 0)
  {
    forall i | 0 <= i < |blocks| ensures Covers(all, blocks[i].handle.offset, blocks[i].entries) {
      StillCovers(keys, all, blocks[i].handle.offset, blocks[i].entries);
    }
  }

  lemma BuiltLonger(
    file: Bytes, more: Bytes, blocks: seq<DataBlock>, index: seq<Pair>, interval: nat, entries: seq<Pair>)
    requires Built(file, blocks, [], index, interval, entries)
    ensures Built(file + more, blocks, [], index, interval, entries) && entries == Flattened(Parts(blocks, []))
  {
    hide Written, WellSeparated, Named, Flattened;
    WrittenMore(file, more, blocks, interval);
  }

  // Data blocks, then the filter block if any, then metaindex, index and footer.
  lemma Assembled(data: Bytes, filtered: Bytes, file: Bytes, t: Layout, entries: seq<Pair>)
    requires Built(data, t.blocks, [], t.index, t.interval, entries) && |t.index| == |t.blocks| && t.interval >= 1
    requires if t.policyBits == None then filtered == data else
      && filtered == data + Stored(t.filterData) && t.filterHandle == BlockHandle(|data|, |t.filterData|)
      && (|t.filterData| < TWO_32 ==> IsFilterBlock(t.filterData, t.filters, t.policyBits.value))
      && Covered(t.filters, t.blocks, [], 0)
    requires var meta, index := BlockOf(t.Metaindex(), t.interval), BlockOf(t.index, 1);
      && t.metaHandle == BlockHandle(|filtered|, |meta|)
      && t.indexHandle == BlockHandle(|filtered + Stored(meta)|, |index|)
      && file == filtered + Stored(meta) + Stored(index) + FooterOf(t.metaHandle, t.indexHandle)
    ensures IsTable(file, t) && t.Entries() == entries
  {
    hide Built, Covered, StoredAt, Stored, BlockOf, IsFilterBlock, FooterOf, Flattened, EncodeHandle;
    var meta, index := BlockOf(t.Metaindex(), t.interval), BlockOf(t.index, 1);
    var footer := FooterOf(t.metaHandle, t.indexHandle);
    var tail := Stored(meta) + Stored(index) + footer;
    assert file == filtered + tail;
    if t.policyBits.Some? {
      AtEnd(data, t.filterData);
      StaysStored(filtered, tail, t.filterHandle, t.filterData);
      assert file == data + (Stored(t.filterData) + tail);
      BuiltLonger(data, Stored(t.filterData) + tail, t.blocks, t.index, t.interval, entries);
    } else {
      BuiltLonger(data, tail, t.blocks, t.index, t.interval, entries);
    }
    AtEnd(filtered, meta);
    StaysStored(filtered + Stored(meta), Stored(index) + footer, t.metaHandle, meta);
    assert file == filtered + Stored(meta) + (Stored(index) + footer);
    AtEnd(filtered + Stored(meta), index);
    StaysStored(filtered + Stored(meta) + Stored(index), footer, t.indexHandle, index);
  }

  // ----- the builder -----

  class TableBuilder {
    const interval: nat
    const blockSize: nat
    const dataBlock: BlockBuilder
    const indexBlock: BlockBuilder
    const filterBlock: FilterBlockBuilder?
    var file: Bytes
    var lastKey: Bytes
    var numEntries: nat
    var closed: bool
    var pendingIndexEntry: bool
    var pendingHandle: BlockHandle
    ghost var entries: seq<Pair>
    ghost var blocks: seq<DataBlock>

    ghost predicate Objects()
      reads this, dataBlock, indexBlock, filterBlock
    {
      && dataBlock != indexBlock && interval >= 1
      && dataBlock.interval == interval && indexBlock.interval == 1
      && indexBlock.Ok() && (filterBlock != null ==> filterBlock.Ok())
    }

    ghost predicate Ok()
      reads this, dataBlock, indexBlock, filterBlock
    {
      && Objects() && dataBlock.Ok() && !closed
      && Built(file, blocks, dataBlock.entries, indexBlock.entries, interval, entries)
      && (filterBlock != null ==> Filters())
      && Pending()
    }

    // What has been added and what is yet to be written, a block or its index
    // entry.
    ghost predicate Pending()
      reads this, dataBlock, indexBlock
    {
      && |indexBlock.entries| == |blocks| - (if pendingIndexEntry then 1 else 0)
      && (pendingIndexEntry ==> dataBlock.entries == [] && blocks != [] && pendingHandle == blocks[|blocks| - 1].handle)
      && (dataBlock.entries == [] && !pendingIndexEntry ==> blocks == [])
      && (numEntries > 0 <==> entries != [])
      && (entries != [] ==> lastKey == entries[|entries| - 1].key && |lastKey| >= 8)
    }

    ghost predicate Filters()
      requires filterBlock != null
      reads this, dataBlock, filterBlock
    {
      && |filterBlock.filters| == |file| / FILTER_BASE
      && Covered(filterBlock.AllKeys(), blocks, dataBlock.entries, |file|)
    }

    constructor (blockRestartInterval: nat, targetSize: nat, policyBits: Option<nat>)
      requires blockRestartInterval >= 1
      ensures Ok() && entries == [] && interval == blockRestartInterval && blockSize == targetSize
      ensures filterBlock == null <==> policyBits == None
      ensures filterBlock != null ==> filterBlock.bitsPerKey == policyBits.value
      ensures fresh(dataBlock) && fresh(indexBlock) && (filterBlock != null ==> fresh(filterBlock))
    {
      interval, blockSize := blockRestartInterval, targetSize;
      dataBlock := new BlockBuilder(blockRestartInterval);
      indexBlock := new BlockBuilder(1);
      if policyBits.Some? {
        var f := new FilterBlockBuilder(policyBits.value);
        f.StartBlock(0);
        filterBlock := f;
      } else {
        filterBlock := null;
      }
      file, lastKey, numEntries, closed := [], [], 0, false;
      pendingIndexEntry, pendingHandle := false, BlockHandle(0, 0);
      entries, blocks := [], [];
    }

    method Add(key: Bytes, value: Bytes)
      requires Ok() && |key| >= 8 && After(entries, key)
      modifies this, dataBlock, indexBlock, filterBlock
      ensures Ok() && entries == old(entries) + [Pair(key, value)] && lastKey == key
      ensures dataBlock.entries != [] ==> |BlockOf(dataBlock.entries, interval)| < blockSize
    {
      hide Built, Covered, BlockBuilder.Ok, FilterBlockBuilder.Ok, KeyBefore, After, Separates, BlockOf;
      if pendingIndexEntry {
        BuiltFacts(file, blocks, indexBlock.entries, interval, entries);
        AddIndexEntry(key, Pair(key, value));
      }
      AddEntry(key, value);
      var estimatedBlockSize := dataBlock.CurrentSizeEstimate();
      if estimatedBlockSize >= blockSize {
        Flush();
      }
    }

    // No index entry is owed, and the last one leaves room for the next key.
    ghost predicate Separated(e: Pair)
      reads this, dataBlock, indexBlock, filterBlock
    {
      && Objects() && dataBlock.Ok() && !closed && !pendingIndexEntry
      && Built(file, blocks, dataBlock.entries, indexBlock.entries, interval, entries)
      && (filterBlock != null ==> Filters())
      && |indexBlock.entries| == |blocks|
      && (dataBlock.entries == [] && blocks != [] ==>
            Separates(indexBlock.entries[|blocks| - 1].key, blocks[|blocks| - 1].entries, [e]))
    }

    // The delayed index entry of the last block, once the next key is known.
    method AddIndexEntry(key: Bytes, ghost e: Pair)
      requires Ok() && pendingIndexEntry && e.key == key && |key| >= 8 && After(entries, key)
      modifies `lastKey, `pendingIndexEntry, indexBlock
      ensures Separated(e)
    {
      hide Built, Covered, BlockBuilder.Ok, FilterBlockBuilder.Ok, KeyBefore, Separates, EncodeHandle;
      ghost var last := blocks[|blocks| - 1];
      BuiltFacts(file, blocks, indexBlock.entries, interval, entries);
      var sep := FindShortestSeparator(lastKey, key);
      SeparatorSeparates(sep, last.entries, e);
      SeparatesNothing(sep, last.entries, [e]);
      BuiltIndexed(file, blocks, indexBlock.entries, interval, entries, sep, last);
      lastKey := sep;
      indexBlock.Add(sep, EncodeHandle(pendingHandle));
      pendingIndexEntry := false;
    }

    method AddEntry(key: Bytes, value: Bytes)
      requires Separated(Pair(key, value)) && |key| >= 8 && After(entries, key)
      modifies this, dataBlock, filterBlock
      ensures Ok() && entries == old(entries) + [Pair(key, value)] && lastKey == key && dataBlock.entries != []
    {
      hide Built, Covered, BlockBuilder.Ok, FilterBlockBuilder.Ok, KeyBefore, After, Separates;
      ghost var e := Pair(key, value);
      BuiltMore(file, blocks, dataBlock.entries, indexBlock.entries, interval, entries, e);
      if filterBlock != null {
        ghost var was := filterBlock.AllKeys();
        filterBlock.AddKey(key);
        CoveredMore(was, filterBlock.AllKeys(), blocks, dataBlock.entries, |file|, e);
      }
      lastKey := key;
      numEntries := numEntries + 1;
      dataBlock.Add(key, value);
      entries := entries + [e];
    }

    method Flush()
      requires Ok()
      modifies this, dataBlock, filterBlock
      ensures Ok() && entries == old(entries) && lastKey == old(lastKey) && dataBlock.entries == []
    {
      hide Built, Covered, BlockBuilder.Ok, FilterBlockBuilder.Ok, Stored, BlockOf;
      dataBlock.EmptyWhenNoEntries();
      if dataBlock.Empty() {
        return;
      }
      ghost var current, offset := dataBlock.entries, |file|;
      ghost var b := DataBlock(BlockHandle(|file|, |BlockOf(current, interval)|), current);
      BuiltFlushed(file, blocks, current, indexBlock.entries, interval, entries, b);
      pendingHandle := WriteBlock(dataBlock);
      pendingIndexEntry := true;
      ghost var before := blocks;
      blocks := blocks + [b];
      if filterBlock != null {
        ghost var was := filterBlock.AllKeys();
        FurtherOn(offset, |file|);
        filterBlock.StartBlock(|file|);
        CoveredFlushed(was, filterBlock.AllKeys(), before, b, |file|);
      }
    }

    // The finished file, and its layout.
    method Finish() returns (ghost t: Layout)
      requires Ok()
      modifies this, dataBlock, indexBlock, filterBlock
      ensures closed && IsTable(file, t) && t.Entries() == old(entries) && t.interval == interval
      ensures t.policyBits == if filterBlock == null then None else Some(filterBlock.bitsPerKey)
    {
      hide Built, Covered, BlockBuilder.Ok, FilterBlockBuilder.Ok, KeyBefore, Separates, EncodeHandle, Stored, BlockOf,
        StoredAt, IsFilterBlock, FooterOf;
      Flush();
      closed := true;
      ghost var bits := if filterBlock == null then None else Some(filterBlock.bitsPerKey);
      ghost var data := file;
      var filterHandle, filterData, filters := WriteFilterBlock();
      ghost var filtered := file;
      var metaHandle := WriteMetaindex(filterHandle);
      if pendingIndexEntry {
        BuiltFacts(data, blocks, indexBlock.entries, interval, entries);
        AddLastIndexEntry(data);
      }
      ghost var index := indexBlock.entries;
      var indexHandle := WriteBlock(indexBlock);
      file := file + FooterOf(metaHandle, indexHandle);
      t := Layout(blocks, index, interval, bits, filters, filterData, filterHandle, metaHandle, indexHandle);
      Assembled(data, filtered, file, t, entries);
    }

    method WriteFilterBlock() returns (handle: BlockHandle, ghost data: Bytes, ghost filters: seq<seq<Bytes>>)
      requires Objects() && dataBlock.Ok() && dataBlock.entries == [] && (filterBlock != null ==> Filters())
      modifies `file, filterBlock
      ensures filterBlock == null ==> file == old(file)
      ensures filterBlock != null ==>
        && file == old(file) + Stored(data) && handle == BlockHandle(|old(file)|, |data|)
        && (|data| < TWO_32 ==> IsFilterBlock(data, filters, filterBlock.bitsPerKey))
        && Covered(filters, blocks, [], 0)
    {
      hide Covered, BlockBuilder.Ok, FilterBlockBuilder.Ok, Stored, IsFilterBlock;
      handle, data, filters := BlockHandle(0, 0), [], [];
      if filterBlock != null {
        ghost var keys := filterBlock.AllKeys();
        var contents, all := filterBlock.Finish();
        CoveredByFilters(keys, all, blocks, |file|);
        data, filters := contents, all;
        handle := WriteRawBlock(contents);
      }
    }

    method WriteMetaindex(filterHandle: BlockHandle) returns (handle: BlockHandle)
      requires interval >= 1
      modifies `file
      ensures var es := if filterBlock != null then [Pair(FILTER_NAME, EncodeHandle(filterHandle))] else [];
        file == old(file) + Stored(BlockOf(es, interval)) && handle == BlockHandle(|old(file)|, |BlockOf(es, interval)|)
    {
      hide BlockBuilder.Ok, BlockOf, Stored, EncodeHandle;
      var metaIndexBlock := new BlockBuilder(interval);
      if filterBlock != null {
        metaIndexBlock.Add(FILTER_NAME, EncodeHandle(filterHandle));
        assert metaIndexBlock.entries == [Pair(FILTER_NAME, EncodeHandle(filterHandle))];
      }
      handle := WriteBlock(metaIndexBlock);
    }

    method AddLastIndexEntry(ghost data: Bytes)
      requires indexBlock.Ok() && pendingIndexEntry && blocks != [] && entries != []
      requires lastKey == entries[|entries| - 1].key
      requires |lastKey| >= 8 && pendingHandle == blocks[|blocks| - 1].handle
      requires Built(data, blocks, [], indexBlock.entries, interval, entries) && |indexBlock.entries| == |blocks| - 1
      modifies `lastKey, `pendingIndexEntry, indexBlock
      ensures indexBlock.Ok() && !pendingIndexEntry
      ensures Built(data, blocks, [], indexBlock.entries, interval, entries) && |indexBlock.entries| == |blocks|
    {
      hide Built, BlockBuilder.Ok, KeyBefore, EncodeHandle, FirstKeyOf;
      ghost var last := blocks[|blocks| - 1];
      BuiltFacts(data, blocks, indexBlock.entries, interval, entries);
      var sep := FindShortSuccessor(lastKey);
      LastIsAbove(sep, last.entries);
      assert last.entries[|last.entries| - 1] in last.entries;
      BuiltIndexed(data, blocks, indexBlock.entries, interval, entries, sep, last);
      lastKey := sep;
      indexBlock.Add(sep, EncodeHandle(pendingHandle));
      pendingIndexEntry := false;
    }

    method WriteBlock(block: BlockBuilder) returns (handle: BlockHandle)
      requires block.Ok() && block.interval >= 1
      modifies `file, block
      ensures block.Ok() && block.entries == []
      ensures var contents := BlockOf(old(block.entries), block.interval);
        handle == BlockHandle(|old(file)|, |contents|) && file == old(file) + Stored(contents)
    {
      hide BlockBuilder.Ok, BlockOf, Stored;
      var raw := block.Finish();
      handle := WriteRawBlock(raw);
      block.Reset();
    }

    method WriteRawBlock(contents: Bytes) returns (handle: BlockHandle)
      modifies `file
      ensures handle == BlockHandle(|old(file)|, |contents|) && file == old(file) + Stored(contents)
    {
      hide Crcs.Mask, Crcs.Extended, Crcs.Bits;
      handle := BlockHandle(|file|, |contents|);
      file := file + contents;
      var crc := Crcs.Extended(Crcs.ChecksumOf(contents), Crcs.Bits([0]));
      Crcs.ChecksumContinues(contents, [0]);
      var word := EncodeFixed32(Crcs.Mask(crc) as nat);
      file := file + ([0] + word);
      assert file == old(file) + Stored(contents);
    }
  }

  lemma FurtherOn(from: nat, to: nat)
    requires from <= to
    ensures from / FILTER_BASE <= to / FILTER_BASE
  {
  }
}
