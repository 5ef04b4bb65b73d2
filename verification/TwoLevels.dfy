// TwoLevelIterator: an index of blocks walked as one sorted run
// (table/two_level_iterator.cc). Tables index their data blocks this way, and
// levels their files.
module TwoLevels {
  import opened Keys
  import opened Versions
  import opened Cursors

  function BlockOf(index: seq<Entry>, blocks: map<Bytes, seq<Entry>>, i: nat): seq<Entry>
    requires i < |index|
  {
    if index[i].value in blocks then blocks[index[i].value] else []
  }

  // Each index key lies at or above its block and strictly below the next one.
  ghost predicate WellIndexed(index: seq<Entry>, blocks: map<Bytes, seq<Entry>>) {
    && Sorted(index)
    && (forall i :: 0 <= i < |index| ==> index[i].value in blocks && Sorted(BlockOf(index, blocks, i)))
    && (forall i :: 0 <= i < |index| ==> Caps(index[i].key, BlockOf(index, blocks, i)))
    && forall i, j :: 0 <= i < j < |index| ==> Precedes(index[i].key, BlockOf(index, blocks, j))
  }

  ghost predicate Caps(k: InternalKey, es: seq<Entry>) {
    forall e :: e in es ==> !Less(k, e.key)
  }

  ghost predicate Precedes(k: InternalKey, es: seq<Entry>) {
    forall e :: e in es ==> Less(k, e.key)
  }

  // The entries of the first n blocks.
  ghost function Flat(index: seq<Entry>, blocks: map<Bytes, seq<Entry>>, n: nat): seq<Entry>
    requires n <= |index|
  {
    if n == 0 then [] else Flat(index, blocks, n - 1) + BlockOf(index, blocks, n - 1)
  }

  lemma {:induction false} FlatFrom(index: seq<Entry>, blocks: map<Bytes, seq<Entry>>, i: nat, n: nat)
    requires i < n <= |index|
    ensures |Flat(index, blocks, i)| + |BlockOf(index, blocks, i)| <= |Flat(index, blocks, n)|
    ensures forall k :: 0 <= k < |BlockOf(index, blocks, i)| ==>
      Flat(index, blocks, n)[|Flat(index, blocks, i)| + k] == BlockOf(index, blocks, i)[k]
  {
    hide Flat, BlockOf;
    FlatStep(index, blocks, i);
    FlatPrefix(index, blocks, i + 1, n);
    AtOffset(Flat(index, blocks, i), BlockOf(index, blocks, i), Flat(index, blocks, n));
  }

  lemma AtOffset<T>(front: seq<T>, block: seq<T>, all: seq<T>)
    requires front + block <= all
    ensures |front| + |block| <= |all|
    ensures forall k :: 0 <= k < |block| ==> all[|front| + k] == block[k]
  {
    forall k | 0 <= k < |block| ensures all[|front| + k] == block[k] {
      assert (front + block)[|front| + k] == block[k];
    }
  }

  lemma {:induction false} FlatStep(index: seq<Entry>, blocks: map<Bytes, seq<Entry>>, i: nat)
    requires i < |index|
    ensures Flat(index, blocks, i + 1) == Flat(index, blocks, i) + BlockOf(index, blocks, i)
  {
  }

  lemma {:induction false} FlatSorted(index: seq<Entry>, blocks: map<Bytes, seq<Entry>>, n: nat)
    requires WellIndexed(index, blocks) && n <= |index|
    ensures Sorted(Flat(index, blocks, n))
    ensures if n > 0 then Caps(index[n - 1].key, Flat(index, blocks, n)) else Flat(index, blocks, n) == []
    decreases n
  {
    if n > 0 {
      hide WellIndexed, Caps, Precedes, Sorted, BlockOf;
      FlatSorted(index, blocks, n - 1);
      IndexedBlock(index, blocks, n - 1);
      FlatStep(index, blocks, n - 1);
      hide Flat;
      var front, block := Flat(index, blocks, n - 1), BlockOf(index, blocks, n - 1);
      if n == 1 {
        assert [] + block == block;
      } else {
        JoinSorted(front, block, index[n - 2].key, index[n - 1].key);
      }
    }
  }

  lemma IndexedBlock(index: seq<Entry>, blocks: map<Bytes, seq<Entry>>, i: nat)
    requires WellIndexed(index, blocks) && i < |index|
    ensures Caps(index[i].key, BlockOf(index, blocks, i)) && Sorted(BlockOf(index, blocks, i))
    ensures i > 0 ==> Precedes(index[i - 1].key, BlockOf(index, blocks, i)) && Less(index[i - 1].key, index[i].key)
  {
    hide Caps, Precedes;
    SortedPair(index, i);
  }

  lemma SortedPair(index: seq<Entry>, i: nat)
    requires Sorted(index) && i < |index|
    ensures i > 0 ==> Less(index[i - 1].key, index[i].key)
  {
  }

  // Two sorted runs with a key between them.
  lemma JoinSorted(front: seq<Entry>, block: seq<Entry>, between: InternalKey, last: InternalKey)
    requires Sorted(front) && Caps(between, front) && Sorted(block) && Precedes(between, block) && Caps(last, block)
    requires Less(between, last)
    ensures Sorted(front + block) && Caps(last, front + block)
  {
    var all := front + block;
    forall a, b | 0 <= a < b < |all| ensures Less(all[a].key, all[b].key) {
      if a < |front| && b >= |front| {
        assert front[a] in front && block[b - |front|] in block;
      }
    }
  }

  lemma {:induction false} FlatBelow(index: seq<Entry>, blocks: map<Bytes, seq<Entry>>, n: nat, target: InternalKey)
    requires WellIndexed(index, blocks) && n <= |index|
    requires forall i :: 0 <= i < n ==> Less(index[i].key, target)
    ensures forall e :: e in Flat(index, blocks, n) ==> Less(e.key, target)
    decreases n
  {
    if n > 0 {
      FlatBelow(index, blocks, n - 1, target);
    }
  }

  // Seeking in the index and then in the block it names finds the place.
  lemma {:induction false} SeekPlace(index: seq<Entry>, blocks: map<Bytes, seq<Entry>>, target: InternalKey)
    requires WellIndexed(index, blocks)
    ensures var i := LowerBound(index, target);
      LowerBound(Flat(index, blocks, |index|), target) ==
        |Flat(index, blocks, i)| + if i < |index| then LowerBound(BlockOf(index, blocks, i), target) else 0
  {
    hide WellIndexed, Sorted, Less, BlockOf, LowerBound, Flat;
    var n, i := |index|, LowerBound(index, target);
    var all, front := Flat(index, blocks, n), Flat(index, blocks, i);
    var r := if i < n then LowerBound(BlockOf(index, blocks, i), target) else 0;
    FlatSorted(index, blocks, n);
    FlatBelow(index, blocks, i, target);
    FlatPrefix(index, blocks, i, n);
    if i < n {
      AtBlock(index, blocks, i, r, target);
    } else {
      assert forall k :: 0 <= k < |front| ==> front[k] in front;
    }
    LowerBoundIs(all, target, |front| + r);
  }

  lemma {:induction false} AtBlock(index: seq<Entry>, blocks: map<Bytes, seq<Entry>>, i: nat, r: nat,
      target: InternalKey)
    requires WellIndexed(index, blocks) && i < |index| && !Less(index[i].key, target)
    requires forall e :: e in Flat(index, blocks, i) ==> Less(e.key, target)
    requires r == LowerBound(BlockOf(index, blocks, i), target)
    ensures var q := |Flat(index, blocks, i)| + r; var all := Flat(index, blocks, |index|);
      && q <= |all|
      && (forall k :: 0 <= k < q ==> Less(all[k].key, target))
      && (q < |all| ==> !Less(all[q].key, target))
  {
    hide WellIndexed, Sorted, Less, BlockOf, LowerBound, Flat;
    var all, front, block := Flat(index, blocks, |index|), Flat(index, blocks, i), BlockOf(index, blocks, i);
    FlatPrefix(index, blocks, i, |index|);
    FlatFrom(index, blocks, i, |index|);
    forall k | 0 <= k < |front| + r ensures Less(all[k].key, target) {
      if k < |front| {
        assert front[k] in front;
      } else {
        assert all[|front| + (k - |front|)] == block[k - |front|];
      }
    }
    if r == |block| && |front| + r < |all| {
      FlatStep(index, blocks, i);
      FlatAfter(index, blocks, i + 1, |index|, |front| + r);
      Between(index[i].key, all[|front| + r].key, target);
    }
  }

  lemma Between(a: InternalKey, b: InternalKey, target: InternalKey)
    requires !Less(a, target) && Less(a, b)
    ensures !Less(b, target)
  {
  }

  lemma {:induction false} FlatPrefix(index: seq<Entry>, blocks: map<Bytes, seq<Entry>>, i: nat, n: nat)
    requires i <= n <= |index|
    ensures Flat(index, blocks, i) <= Flat(index, blocks, n)
    decreases n
  {
    if i < n {
      FlatPrefix(index, blocks, i, n - 1);
    }
  }

  lemma {:induction false} FlatAfter(index: seq<Entry>, blocks: map<Bytes, seq<Entry>>, i: nat, n: nat, q: nat)
    requires WellIndexed(index, blocks) && 0 < i <= n <= |index|
    requires |Flat(index, blocks, i)| <= q < |Flat(index, blocks, n)|
    ensures Less(index[i - 1].key, Flat(index, blocks, n)[q].key)
    decreases n
  {
    hide WellIndexed, BlockOf, Less;
    var front, block := Flat(index, blocks, n - 1), BlockOf(index, blocks, n - 1);
    FlatPrefix(index, blocks, i, n);
    if q < |front| {
      FlatAfter(index, blocks, i, n - 1, q);
    } else {
      IndexBelow(index, blocks, i - 1, n - 1, q - |front|);
      assert Flat(index, blocks, n)[q] == block[q - |front|];
    }
  }

  lemma IndexBelow(index: seq<Entry>, blocks: map<Bytes, seq<Entry>>, i: nat, j: nat, k: nat)
    requires WellIndexed(index, blocks) && i < j < |index| && k < |BlockOf(index, blocks, j)|
    ensures Less(index[i].key, BlockOf(index, blocks, j)[k].key)
  {
    assert BlockOf(index, blocks, j)[k] in BlockOf(index, blocks, j);
  }

  lemma LowerBoundIs(es: seq<Entry>, target: InternalKey, q: nat)
    requires Sorted(es) && q <= |es|
    requires forall k :: 0 <= k < q ==> Less(es[k].key, target)
    requires q < |es| ==> !Less(es[q].key, target)
    ensures LowerBound(es, target) == q
  {
    var r := LowerBound(es, target);
    assert !(r < q);
    assert !(q < r);
  }

  lemma BlockFacts(index: seq<Entry>, blocks: map<Bytes, seq<Entry>>, i: nat)
    requires WellIndexed(index, blocks) && i < |index|
    ensures index[i].value in blocks && Sorted(blocks[index[i].value])
  {
    assert Sorted(BlockOf(index, blocks, i));
  }

  class TwoLevelIterator {
    const index: EntryIterator
    const blocks: map<Bytes, seq<Entry>>
    var data: EntryIterator?
    var handle: Bytes

    ghost predicate Inner()
      reads this, index, data
    {
      && index.Ok() && WellIndexed(index.entries, blocks)
      && (data == null <==> !index.Valid())
      && Loaded() && (data != null ==> handle == index.Value())
    }

    // The block at hand is the one its handle names.
    ghost predicate Loaded()
      reads this, index, data
    {
      data != null ==> data != index && data.Ok() && handle in blocks && data.entries == blocks[handle]
    }

    ghost predicate Ok()
      reads this, index, data
    {
      Inner() && (data != null ==> data.Valid())
    }

    ghost function All(): seq<Entry> {
      Flat(index.entries, blocks, |index.entries|)
    }

    // The place in the concatenation, counted from the block's start.
    ghost function Pos(): nat
      requires Inner()
      reads this, index, data
    {
      |Flat(index.entries, blocks, index.pos)| + if data != null then data.pos else 0
    }

    // One past the entry a backward move stands on.
    ghost function End(): nat
      requires Inner()
      reads this, index, data
    {
      if data == null then 0
      else |Flat(index.entries, blocks, index.pos)| + if data.Valid() then data.pos + 1 else 0
    }

    constructor (it: EntryIterator, bs: map<Bytes, seq<Entry>>)
      requires it.Ok() && !it.Valid() && WellIndexed(it.entries, bs)
      ensures Ok() && index == it && blocks == bs && !Valid() && Pos() == |All()| && data == null
    {
      index, blocks, data, handle := it, bs, null, [];
    }

    predicate Valid()
      reads this, data
    {
      data != null && data.Valid()
    }

    function Key(): InternalKey
      requires Ok() && Valid()
      reads this, index, data
      ensures Pos() < |All()| && Key() == All()[Pos()].key
    {
      AtData();
      data.Key()
    }

    function Value(): Bytes
      requires Ok() && Valid()
      reads this, index, data
      ensures Pos() < |All()| && Value() == All()[Pos()].value
    {
      AtData();
      data.Value()
    }

    lemma AtData()
      requires Ok() && Valid()
      ensures Pos() < |All()| && All()[Pos()] == data.entries[data.pos]
    {
      hide WellIndexed, Sorted;
      FlatFrom(index.entries, blocks, index.pos, |index.entries|);
    }

    method InitDataBlock()
      requires index.Ok() && WellIndexed(index.entries, blocks) && Loaded()
      modifies this`data, this`handle
      ensures Inner()
      ensures data != null ==> data == old(data) || fresh(data)
      ensures data != null && data != old(data) ==> !data.Valid()
    {
      hide WellIndexed, Sorted;
      if !index.Valid() {
        data := null;
      } else {
        var h := index.Value();
        if data != null && h == handle {
          // The block's iterator is already at hand.
        } else {
          BlockFacts(index.entries, blocks, index.pos);
          data := new EntryIterator(blocks[h]);
          handle := h;
        }
      }
    }

    method SkipEmptyDataBlocksForward()
      requires Inner()
      modifies this, index, data
      ensures Ok() && Pos() == old(Pos())
      ensures data != null ==> data == old(data) || fresh(data)
    {
      hide WellIndexed, Sorted;
      while data == null || !data.Valid()
        invariant Inner() && Pos() == old(Pos())
        invariant data != null ==> data == old(data) || fresh(data)
        decreases |index.entries| - index.pos, data != null
      {
        if !index.Valid() {
          data := null;
          return;
        }
        index.Next();
        InitDataBlock();
        if data != null {
          data.SeekToFirst();
        }
      }
    }

    method SkipEmptyDataBlocksBackward()
      requires Inner()
      modifies this, index, data
      ensures Ok()
      ensures Pos() == if old(End()) > 0 then old(End()) - 1 else |All()|
      ensures data != null ==> data == old(data) || fresh(data)
    {
      hide WellIndexed, Sorted;
      while data == null || !data.Valid()
        invariant Inner() && End() == old(End())
        invariant data != null ==> data == old(data) || fresh(data)
        decreases if index.Valid() then index.pos + 1 else 0
      {
        if !index.Valid() {
          data := null;
          return;
        }
        index.Prev();
        InitDataBlock();
        if data != null {
          data.SeekToLast();
        }
      }
    }

    method SeekToFirst()
      requires Ok()
      modifies this, index, data
      ensures Ok() && Pos() == 0
      ensures data != null ==> data == old(data) || fresh(data)
    {
      hide WellIndexed, Sorted;
      index.SeekToFirst();
      InitDataBlock();
      if data != null {
        data.SeekToFirst();
      }
      SkipEmptyDataBlocksForward();
    }

    method SeekToLast()
      requires Ok()
      modifies this, index, data
      ensures Ok() && Pos() == if All() != [] then |All()| - 1 else 0
      ensures data != null ==> data == old(data) || fresh(data)
    {
      hide WellIndexed, Sorted;
      index.SeekToLast();
      InitDataBlock();
      if data != null {
        data.SeekToLast();
      }
      SkipEmptyDataBlocksBackward();
    }

    method Seek(target: InternalKey)
      requires Ok()
      modifies this, index, data
      ensures Ok() && Pos() == LowerBound(All(), target)
      ensures data != null ==> data == old(data) || fresh(data)
    {
      hide WellIndexed, Sorted;
      index.Seek(target);
      InitDataBlock();
      if data != null {
        data.Seek(target);
      }
      SeekPlace(index.entries, blocks, target);
      SkipEmptyDataBlocksForward();
    }

    method Next()
      requires Ok() && Valid()
      modifies this, index, data
      ensures Ok() && Pos() == old(Pos()) + 1
      ensures data != null ==> data == old(data) || fresh(data)
    {
      hide WellIndexed, Sorted;
      data.Next();
      SkipEmptyDataBlocksForward();
    }

    method Prev()
      requires Ok() && Valid()
      modifies this, index, data
      ensures Ok() && Pos() == if old(Pos()) > 0 then old(Pos()) - 1 else |All()|
      ensures data != null ==> data == old(data) || fresh(data)
    {
      hide WellIndexed, Sorted;
      data.Prev();
      SkipEmptyDataBlocksBackward();
    }
  }
}
