// A finished table is the two-level run that TwoLevelIterator walks
// (Table::NewIterator, BlockReader): its blocks, named by their handles, hold
// the sorted entries that the rest of the model takes a table to be.
module TableRuns {
  import opened Keys
  import opened Blocks
  import opened Formats
  import opened InternalKeys
  import opened TableBuilders
  import opened Tables
  import FilterBlocks
  import TwoLevels

  ghost predicate Legible(es: seq<Pair>) {
    forall e :: e in es ==> ParseInternalKey(e.key).Some?
  }

  ghost function AbstractKey(b: Bytes): InternalKey
    requires ParseInternalKey(b).Some?
  {
    InternalKeys.Abstract(ParseInternalKey(b).value)
  }

  ghost function AbstractEntries(es: seq<Pair>): (r: seq<Entry>)
    requires Legible(es)
    ensures |r| == |es|
    ensures forall i :: 0 <= i < |es| ==> r[i] == Entry(AbstractKey(es[i].key), es[i].value)
  {
    seq(|es|, i requires 0 <= i < |es| => Entry(AbstractKey(es[i].key), es[i].value))
  }

  lemma KeyOrder(a: Bytes, b: Bytes)
    requires ParseInternalKey(a).Some? && ParseInternalKey(b).Some?
    ensures KeyBefore(a, b) <==> Less(AbstractKey(a), AbstractKey(b))
  {
    hide KeyBefore, Less, ParseInternalKey, Encode, InternalKeys.Abstract;
    var p, q := ParseInternalKey(a).value, ParseInternalKey(b).value;
    InternalKeyRoundTrip(p, a);
    InternalKeyRoundTrip(q, b);
    ComparatorIsOrder(p, q);
  }

  // Every key of a table is an internal key if those added are.
  lemma IndexIsLegible(t: Layout)
    requires Indexed(t) && Legible(t.Entries())
    ensures |t.index| == |t.blocks| && Legible(t.index)
    ensures forall i :: 0 <= i < |t.blocks| ==> Legible(t.blocks[i].entries)
  {
    hide Indexed, ParseInternalKey, Flattened, KeyBefore, UserBelow, Below, AtOrAbove, Encode;
    IndexLength(t);
    forall i | 0 <= i < |t.blocks| ensures Legible(t.blocks[i].entries) && ParseInternalKey(t.index[i].key).Some? {
      BlockIsLegible(t, i);
      SeparationAt(t, i);
      var k := t.index[i].key;
      InternalKeyRoundTrip(ParsedKey(UserPart(k), MAX_SEQUENCE, Value), k);
    }
  }

  lemma BlockIsLegible(t: Layout, i: nat)
    requires Indexed(t) && Legible(t.Entries()) && i < |t.blocks|
    ensures Legible(t.blocks[i].entries)
  {
    hide Indexed, ParseInternalKey, Flattened;
    var parts, es := Parts(t.blocks, []), t.blocks[i].entries;
    PartIsWithin(parts, i);
    forall e | e in es ensures ParseInternalKey(e.key).Some? {
      var n :| 0 <= n < |es| && es[n] == e;
      assert t.Entries()[|Flattened(parts[..i])| + n] == e;
    }
  }

  // The first n blocks under the index values that name them.
  ghost function BlockMap(t: Layout, n: nat): map<Bytes, seq<Entry>>
    requires n <= |t.blocks| && forall i :: 0 <= i < n ==> Legible(t.blocks[i].entries)
  {
    if n == 0 then map[]
    else BlockMap(t, n - 1)[EncodeHandle(t.blocks[n - 1].handle) := AbstractEntries(t.blocks[n - 1].entries)]
  }

  lemma {:induction false} BlockNamed(t: Layout, n: nat, i: nat)
    requires i < n <= |t.blocks| && forall j :: 0 <= j < n ==> Legible(t.blocks[j].entries)
    requires InOrder(t.blocks) && forall j :: 0 <= j < n ==> Fits(t.blocks[j].handle)
    ensures EncodeHandle(t.blocks[i].handle) in BlockMap(t, n)
    ensures BlockMap(t, n)[EncodeHandle(t.blocks[i].handle)] == AbstractEntries(t.blocks[i].entries)
  {
    hide EncodeHandle, Legible;
    if i < n - 1 {
      BlockNamed(t, n - 1, i);
      if EncodeHandle(t.blocks[i].handle) == EncodeHandle(t.blocks[n - 1].handle) {
        HandleIsInjective(t.blocks[i].handle, t.blocks[n - 1].handle);
      }
    }
  }

  lemma IndexPrecedes(t: Layout, i: nat, j: nat, e: Pair)
    requires Indexed(t) && i < j < |t.index| && |t.index| == |t.blocks| && e in t.blocks[j].entries
    ensures KeyBefore(t.index[i].key, e.key)
  {
    hide Indexed, KeyBefore, HasKey, UserBelow;
    SeparationAt(t, j - 1);
    if i < j - 1 {
      IndexSorted(t, i, j - 1);
      KeyBeforeIsStrict(t.index[i].key, t.index[j - 1].key, e.key);
    }
  }

  // What the handles must be for the index to name the blocks.
  ghost predicate Handled(t: Layout) {
    && InOrder(t.blocks) && Named(t.index, t.blocks)
    && forall i :: 0 <= i < |t.blocks| ==> Fits(t.blocks[i].handle)
  }

  ghost predicate Readable(t: Layout) {
    Indexed(t) && Handled(t) && Legible(t.Entries())
  }

  lemma ReadableFacts(t: Layout)
    requires Readable(t)
    ensures |t.index| == |t.blocks| && Legible(t.index)
    ensures forall i :: 0 <= i < |t.blocks| ==> Legible(t.blocks[i].entries)
  {
    IndexIsLegible(t);
  }

  ghost function AbstractIndex(t: Layout): (r: seq<Entry>)
    requires Readable(t)
    ensures |r| == |t.index|
  {
    ReadableFacts(t);
    AbstractEntries(t.index)
  }

  ghost function AbstractBlocks(t: Layout): map<Bytes, seq<Entry>>
    requires Readable(t)
  {
    ReadableFacts(t);
    BlockMap(t, |t.blocks|)
  }

  lemma BlockHere(t: Layout, i: nat)
    requires Readable(t) && i < |t.index|
    ensures |t.index| == |t.blocks| && Legible(t.index) && Legible(t.blocks[i].entries)
    ensures AbstractIndex(t)[i] == Entry(AbstractKey(t.index[i].key), t.index[i].value)
    ensures AbstractIndex(t)[i].value in AbstractBlocks(t)
    ensures TwoLevels.BlockOf(AbstractIndex(t), AbstractBlocks(t), i) == AbstractEntries(t.blocks[i].entries)
  {
    hide Indexed, BlockMap, AbstractKey;
    ReadableFacts(t);
    BlockNamed(t, |t.blocks|, i);
  }

  // A finished table meets what the two-level iterator asks of its index and
  // blocks, and the run it walks is the entries that were added, in order.
  lemma {:induction false} TableIsTwoLevel(file: Bytes, t: Layout)
    requires IsTable(file, t) && t.Fits(file) && Legible(t.Entries())
    ensures Readable(t) && Keys.Sorted(AbstractEntries(t.Entries()))
    ensures TwoLevels.WellIndexed(AbstractIndex(t), AbstractBlocks(t))
    ensures TwoLevels.Flat(AbstractIndex(t), AbstractBlocks(t), |t.index|) == AbstractEntries(t.Entries())
  {
    hide Indexed, Handled, Legible, AbstractIndex, AbstractBlocks, TwoLevels.WellIndexed, Flattened, IsTable,
      Keys.Sorted;
    TableIsIndexed(file, t);
    TableIsHandled(file, t);
    ReadableFacts(t);
    RunIsWellIndexed(t);
    var parts := Parts(t.blocks, []);
    assert parts[..|parts|] == parts;
    FlatIs(t, |t.index|);
    TwoLevels.FlatSorted(AbstractIndex(t), AbstractBlocks(t), |t.index|);
  }

  lemma TableIsHandled(file: Bytes, t: Layout)
    requires IsTable(file, t) && t.Fits(file)
    ensures Handled(t)
  {
    hide BlockOf, Stored, FooterOf, Covered, FilterBlocks.IsFilterBlock, WellSeparated, Flattened, EncodeHandle;
    forall i | 0 <= i < |t.blocks| ensures Fits(t.blocks[i].handle) {
      assert BlockStored(file, t.blocks[i], t.interval);
    }
  }

  lemma {:induction false} RunIsWellIndexed(t: Layout)
    requires Readable(t)
    ensures TwoLevels.WellIndexed(AbstractIndex(t), AbstractBlocks(t))
  {
    hide Readable, Indexed, Handled, Legible, AbstractIndex, AbstractBlocks, KeyBefore, Less, AbstractKey,
      TwoLevels.BlockOf;
    var index, blocks := AbstractIndex(t), AbstractBlocks(t);
    forall i | 0 <= i < |index|
      ensures index[i].value in blocks && Keys.Sorted(TwoLevels.BlockOf(index, blocks, i))
      ensures TwoLevels.Caps(index[i].key, TwoLevels.BlockOf(index, blocks, i))
    {
      BlockInOrder(t, i);
    }
    forall i, j | 0 <= i < j < |index|
      ensures Less(index[i].key, index[j].key)
      ensures TwoLevels.Precedes(index[i].key, TwoLevels.BlockOf(index, blocks, j))
    {
      BlockAfter(t, i, j);
    }
  }

  lemma {:induction false} BlockInOrder(t: Layout, i: nat)
    requires Readable(t) && i < |t.index|
    ensures var index, blocks := AbstractIndex(t), AbstractBlocks(t);
      && index[i].value in blocks && Keys.Sorted(TwoLevels.BlockOf(index, blocks, i))
      && TwoLevels.Caps(index[i].key, TwoLevels.BlockOf(index, blocks, i))
  {
    hide Indexed, Handled, AbstractIndex, AbstractBlocks, KeyBefore, Less, AbstractKey, TwoLevels.BlockOf, HasKey,
      ParseInternalKey;
    BlockHere(t, i);
    SeparationAt(t, i);
    BlockSorted(t, i);
    var es := t.blocks[i].entries;
    var run := AbstractEntries(es);
    forall a, b | 0 <= a < b < |es| ensures Less(run[a].key, run[b].key) {
      KeyOrder(es[a].key, es[b].key);
    }
    forall e | e in run ensures !Less(AbstractIndex(t)[i].key, e.key) {
      var n :| 0 <= n < |es| && run[n] == e;
      assert es[n] in es && t.index[i] in t.index;
      KeyOrder(t.index[i].key, es[n].key);
    }
  }

  lemma {:induction false} BlockAfter(t: Layout, i: nat, j: nat)
    requires Readable(t) && i < j < |t.index|
    ensures var index, blocks := AbstractIndex(t), AbstractBlocks(t);
      Less(index[i].key, index[j].key) && TwoLevels.Precedes(index[i].key, TwoLevels.BlockOf(index, blocks, j))
  {
    hide Indexed, Handled, AbstractIndex, AbstractBlocks, KeyBefore, Less, AbstractKey, TwoLevels.BlockOf,
      ParseInternalKey;
    BlockHere(t, i);
    BlockHere(t, j);
    IndexSorted(t, i, j);
    assert t.index[i] in t.index && t.index[j] in t.index;
    KeyOrder(t.index[i].key, t.index[j].key);
    var es := t.blocks[j].entries;
    var run := AbstractEntries(es);
    forall e | e in run ensures Less(AbstractIndex(t)[i].key, e.key) {
      var n :| 0 <= n < |es| && run[n] == e;
      assert es[n] in es;
      IndexPrecedes(t, i, j, es[n]);
      KeyOrder(t.index[i].key, es[n].key);
    }
  }

  lemma {:induction false} FlatIs(t: Layout, n: nat)
    requires Readable(t) && n <= |t.index| && |t.index| == |t.blocks|
    ensures Legible(Flattened(Parts(t.blocks, [])[..n]))
    ensures TwoLevels.Flat(AbstractIndex(t), AbstractBlocks(t), n) ==
      AbstractEntries(Flattened(Parts(t.blocks, [])[..n]))
  {
    hide Readable, AbstractIndex, AbstractBlocks, AbstractKey, TwoLevels.BlockOf, ParseInternalKey;
    var parts := Parts(t.blocks, []);
    if n > 0 {
      FlatIs(t, n - 1);
      BlockHere(t, n - 1);
      assert parts[..n] == parts[..n - 1] + [parts[n - 1]];
      FlattenedAppend(parts[..n - 1], parts[n - 1]);
    }
  }
}
