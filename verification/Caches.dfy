// The LRU cache (util/cache.cc): a chained hash table, two intrusive lists and
// reference counts.
module Caches {
  import opened Keys
  import opened Rings

  // The fields of an entry that never change; the others are kept in maps.
  datatype Handle = Handle(id: nat, key: Bytes, hash: nat, charge: nat)

  // ----- the hash table -----

  // A pointer to a slot: a bucket, or the link of an entry.
  datatype Slot = Bucket(i: nat) | Link(h: Handle)

  function FirstOf(c: seq<Handle>): Option<Handle> {
    if c == [] then None else Some(c[0])
  }

  // Following next_hash from `first` gives the entries c.
  ghost predicate IsChain(first: Option<Handle>, nextHash: map<Handle, Option<Handle>>, c: seq<Handle>) {
    && first == FirstOf(c)
    && forall j :: 0 <= j < |c| ==> c[j] in nextHash && nextHash[c[j]] == FirstOf(c[j + 1..])
  }

  class HandleTable {
    const hashOf: Bytes -> nat
    var length: nat
    var elems: nat
    var list: seq<Option<Handle>>
    var nextHash: map<Handle, Option<Handle>>
    ghost var chains: seq<seq<Handle>>
    ghost var contents: set<Handle>

    ghost predicate Ok()
      reads this
    {
      && Bucketed(hashOf, length, list, nextHash, chains, contents)
      && elems == |contents| && OneEach(hashOf, contents)
    }

    constructor (hash: Bytes -> nat)
      ensures Ok() && contents == {} && hashOf == hash
    {
      hide Bucketed, OneEach;
      hashOf, length, elems, nextHash, contents := hash, 4, 0, map[], {};
      list, chains := [None, None, None, None], [[], [], [], []];
      EmptyTable(hash);
    }

    // The slot of the entry with this key, or the trailing slot of its bucket.
    method FindPointer(key: Bytes, hash: nat) returns (ptr: Slot, ghost j: nat)
      requires Ok() && hash == hashOf(key)
      ensures var c := chains[hash % length];
        && j <= |c| && ptr == (if j == 0 then Bucket(hash % length) else Link(c[j - 1]))
        && (j < |c| ==> c[j].key == key)
        && (j == |c| ==> forall h :: h in contents ==> h.key != key)
    {
      ghost var c := chains[hash % length];
      ptr, j := Bucket(hash % length), 0;
      while true
        invariant j <= |c| && ptr == (if j == 0 then Bucket(hash % length) else Link(c[j - 1]))
        invariant forall k :: 0 <= k < j ==> c[k].key != key
        decreases |c| - j
      {
        var e := if ptr.Bucket? then list[ptr.i] else nextHash[ptr.h];
        assert e == FirstOf(c[j..]);
        if e == None || (e.value.hash == hash && e.value.key == key) {
          return;
        }
        ptr := Link(e.value);
        j := j + 1;
      }
    }

    method Lookup(key: Bytes, hash: nat) returns (r: Option<Handle>)
      requires Ok() && hash == hashOf(key)
      ensures IsEntryOf(contents, key, r)
    {
      var ptr, j := FindPointer(key, hash);
      ghost var c := chains[hash % length];
      r := if ptr.Bucket? then list[ptr.i] else nextHash[ptr.h];
      assert r == FirstOf(c[j..]);
      if j < |c| {
        assert c[j] in c;
      }
    }

    // Puts an entry in, in the place of one with its key.
    method Insert(h: Handle) returns (old_: Option<Handle>)
      requires Ok() && h !in contents && h.hash == hashOf(h.key)
      modifies this
      ensures Ok() && IsEntryOf(old(contents), h.key, old_)
      ensures contents == old(contents) - (if old_.Some? then {old_.value} else {}) + {h}
    {
      hide Bucketed, OneEach;
      OneEachAfter(hashOf, contents, h);
      old_ := LinkIn(h);
      if old_ == None {
        elems := elems + 1;
        if elems > length {
          Resize();
        }
      }
    }

    method LinkIn(h: Handle) returns (old_: Option<Handle>)
      requires Ok() && h !in contents && h.hash == hashOf(h.key)
      modifies this`nextHash, this`list, this`chains, this`contents
      ensures Bucketed(hashOf, length, list, nextHash, chains, contents) && IsEntryOf(old(contents), h.key, old_)
      ensures contents == old(contents) - (if old_.Some? then {old_.value} else {}) + {h}
    {
      hide IsChain, Filed;
      var ptr, j := FindPointer(h.key, h.hash);
      ghost var i, was := h.hash % length, nextHash;
      ghost var c, first := chains[i], list[i];
      SlotHolds(length, list, nextHash, chains, contents, i, j);
      old_ := if ptr.Bucket? then list[ptr.i] else nextHash[ptr.h];
      var after := if old_ == None then None else nextHash[old_.value];
      nextHash := nextHash[h := after];
      if ptr.Bucket? {
        list := list[ptr.i := Some(h)];
      } else {
        nextHash := nextHash[ptr.h := Some(h)];
      }
      InsertFiles(length, chains, contents, i, j, h);
      InsertLinks(list, was, nextHash, chains, contents, length, first, i, j, h, after);
      chains := chains[i := InsertedChain(c, j, h)];
      contents := contents - (if old_.Some? then {old_.value} else {}) + {h};
    }

    method Remove(key: Bytes, hash: nat) returns (r: Option<Handle>)
      requires Ok() && hash == hashOf(key)
      modifies this
      ensures Ok() && IsEntryOf(old(contents), key, r)
      ensures contents == old(contents) - if r.Some? then {r.value} else {}
    {
      hide IsChain, Filed;
      var ptr, j := FindPointer(key, hash);
      ghost var i, was := hash % length, nextHash;
      ghost var c, first := chains[i], list[i];
      SlotHolds(length, list, nextHash, chains, contents, i, j);
      r := if ptr.Bucket? then list[ptr.i] else nextHash[ptr.h];
      if r != None {
        var after := nextHash[r.value];
        if ptr.Bucket? {
          list := list[ptr.i := after];
        } else {
          nextHash := nextHash[ptr.h := after];
        }
        RemoveFiles(length, chains, contents, i, j);
        RemoveLinks(list, was, nextHash, chains, contents, length, first, i, j, after);
        elems := elems - 1;
        chains := chains[i := Without(c, j)];
        contents := contents - {r.value};
      }
    }

    // Rehashes every entry into a table of a size that fits.
    method Resize()
      requires Ok()
      modifies this
      ensures Ok() && contents == old(contents)
    {
      hide Filed, Done, IsChain;
      var newLength := 4;
      while newLength < elems
        invariant newLength >= 4
      {
        newLength := newLength * 2;
      }
      var newList: seq<Option<Handle>> := seq(newLength, i => None);
      ghost var newChains: seq<seq<Handle>> := seq(newLength, i => []);
      ghost var done: set<Handle> := {};
      var count := 0;
      NothingMoved(length, list, nextHash, chains, contents, newLength, newList, newChains);
      for i := 0 to length
        invariant Static(old(length), old(list), old(chains), old(contents)) && elems == |contents|
        invariant Moving(length, list, nextHash, chains, contents, newLength, newList, newChains, done, i, 0)
        invariant count == |done| && newLength >= 4
      {
        var h := list[i];
        ghost var m := 0;
        while h != None
          invariant Static(old(length), old(list), old(chains), old(contents)) && elems == |contents|
          invariant m <= |chains[i]| && h == FirstOf(chains[i][m..])
          invariant Moving(length, list, nextHash, chains, contents, newLength, newList, newChains, done, i, m)
          invariant count == |done|
          decreases |chains[i]| - m
        {
          var x := h.value;
          MoveStep(length, list, nextHash, chains, contents, newLength, newList, newChains, done, i, m);
          var next := nextHash[x];
          var slot := x.hash % newLength;
          nextHash := nextHash[x := newList[slot]];
          newList := newList[slot := Some(x)];
          newChains := newChains[slot := [x] + newChains[slot]];
          done := done + {x};
          m := m + 1;
          h := next;
          count := count + 1;
        }
        ChainMoved(length, list, nextHash, chains, contents, newLength, newList, newChains, done, i);
      }
      AllMoved(length, list, nextHash, chains, contents, newLength, newList, newChains, done);
      assert elems == count;
      list, length, chains := newList, newLength, newChains;
    }

    ghost predicate Static(length0: nat, list0: seq<Option<Handle>>, chains0: seq<seq<Handle>>, contents0: set<Handle>)
      reads this
    {
      length == length0 && list == list0 && chains == chains0 && contents == contents0
    }
  }

  ghost function InsertedChain(c: seq<Handle>, j: nat, h: Handle): seq<Handle>
    requires j <= |c|
  {
    if j < |c| then c[j := h] else c + [h]
  }

  // r is the one entry with this key, if there is one.
  ghost predicate IsEntryOf(contents: set<Handle>, key: Bytes, r: Option<Handle>) {
    match r
    case None => forall h :: h in contents ==> h.key != key
    case Some(h) => h in contents && h.key == key
  }

  // One entry a key, hashed by its key.
  ghost predicate OneEach(hashOf: Bytes -> nat, contents: set<Handle>) {
    && (forall h :: h in contents ==> h.hash == hashOf(h.key))
    && forall a, b :: a in contents && b in contents && a.key == b.key ==> a == b
  }

  ghost predicate Bucketed(hashOf: Bytes -> nat, length: nat, list: seq<Option<Handle>>, nextHash: map<Handle,
      Option<Handle>>,
                           chains: seq<seq<Handle>>, contents: set<Handle>)
  {
    && length >= 1 && |list| == length == |chains| && Filed(length, chains, contents)
    && forall i :: 0 <= i < length ==> IsChain(list[i], nextHash, chains[i])
  }

  lemma EmptyTable(hashOf: Bytes -> nat)
    ensures Bucketed(hashOf, 4, [None, None, None, None], map[], [[], [], [], []], {}) && OneEach(hashOf, {})
  {
  }

  lemma OneEachAfter(hashOf: Bytes -> nat, contents: set<Handle>, h: Handle)
    requires OneEach(hashOf, contents) && h !in contents && h.hash == hashOf(h.key)
    ensures forall r | IsEntryOf(contents, h.key, r) ::
      var t := contents - (if r.Some? then {r.value} else {}) + {h};
      OneEach(hashOf, t) && |t| == |contents| + if r.Some? then 0 else 1
  {
  }

  // Every entry is once in the chain of its bucket, and nothing else is there.
  ghost predicate Filed(length: nat, chains: seq<seq<Handle>>, contents: set<Handle>) {
    && length >= 1 && |chains| == length
    && (forall i, h :: 0 <= i < length && h in chains[i] ==> h in contents && h.hash % length == i)
    && (forall h :: h in contents ==> h in chains[h.hash % length])
    && forall i, j, k :: 0 <= i < length && 0 <= j < k < |chains[i]| ==> chains[i][j] != chains[i][k]
  }

  lemma SlotHolds(length: nat, list: seq<Option<Handle>>, nextHash: map<Handle, Option<Handle>>,
      chains: seq<seq<Handle>>,
                  contents: set<Handle>, i: nat, j: nat)
    requires Filed(length, chains, contents) && i < length == |list| && j <= |chains[i]|
    requires IsChain(list[i], nextHash, chains[i])
    ensures var c := chains[i];
      && (j > 0 ==> c[j - 1] in nextHash)
      && (if j == 0 then list[i] else nextHash[c[j - 1]]) == (if j < |c| then Some(c[j]) else None)
      && (j < |c| ==> c[j] in contents && c[j] in nextHash && nextHash[c[j]] == FirstOf(c[j + 1..]))
  {
    if j < |chains[i]| {
      assert chains[i][j] in chains[i];
    }
  }

  // A chain does not notice links of other entries.
  lemma ChainFrame(first: Option<Handle>, nextHash: map<Handle, Option<Handle>>, nextHash': map<Handle,
      Option<Handle>>, c: seq<Handle>)
    requires IsChain(first, nextHash, c)
    requires forall h :: h in c ==> h in nextHash' && (h in nextHash ==> nextHash'[h] == nextHash[h])
    ensures IsChain(first, nextHash', c)
  {
  }

  lemma OtherBuckets(length: nat, chains: seq<seq<Handle>>, contents: set<Handle>, i: nat, k: nat, h: Handle)
    requires Filed(length, chains, contents) && i < length && k < length && i != k && h in chains[k]
    ensures h !in chains[i] && h in contents
  {
  }

  lemma InsertFiles(length: nat, chains: seq<seq<Handle>>, contents: set<Handle>, i: nat, j: nat, h: Handle)
    requires Filed(length, chains, contents) && h !in contents && i == h.hash % length && j <= |chains[i]|
    ensures Filed(length, chains[i := InsertedChain(chains[i], j, h)],
                  contents - (if j < |chains[i]| then {chains[i][j]} else {}) + {h})
  {
    hide InsertedChain;
    assert h !in chains[i];
    InsertedHas(chains[i], j, h);
    assert j < |chains[i]| ==> chains[i][j] in chains[i];
    var all := chains[i := InsertedChain(chains[i], j, h)];
    var rest := contents - if j < |chains[i]| then {chains[i][j]} else {};
    forall k, x | 0 <= k < length && x in all[k]
      ensures x in rest + {h} && x.hash % length == k
    {
      assert k != i ==> x in chains[k];
    }
  }

  lemma InsertedHas(c: seq<Handle>, j: nat, h: Handle)
    requires j <= |c| && h !in c && forall a, b :: 0 <= a < b < |c| ==> c[a] != c[b]
    ensures forall x :: x in InsertedChain(c, j, h) <==> x == h || (x in c && (j < |c| ==> x != c[j]))
    ensures forall a, b :: 0 <= a < b < |InsertedChain(c, j, h)| ==>
      InsertedChain(c, j, h)[a] != InsertedChain(c, j, h)[b]
  {
    var c' := InsertedChain(c, j, h);
    forall x ensures x in c' <==> x == h || (x in c && (j < |c| ==> x != c[j])) {
      if x in c && (j < |c| ==> x != c[j]) {
        var k :| 0 <= k < |c| && c[k] == x;
        assert c'[k] == x;
      }
      if x == h {
        assert c'[j] == h;
      }
    }
  }

  lemma InsertLinks(list: seq<Option<Handle>>, was: map<Handle, Option<Handle>>, nextHash: map<Handle, Option<Handle>>,
                    chains: seq<seq<Handle>>, contents: set<Handle>, length: nat, first: Option<Handle>, i: nat, j: nat,
                    h: Handle, after: Option<Handle>)
    requires Filed(length, chains, contents) && |list| == length && i < length && j <= |chains[i]| && h !in contents
    requires j == 0 ==> list[i] == Some(h)
    requires IsChain(first, was, chains[i]) && (j > 0 ==> list[i] == first)
    requires forall k :: 0 <= k < length && k != i ==> IsChain(list[k], was, chains[k])
    requires after == if j < |chains[i]| then FirstOf(chains[i][j + 1..]) else None
    requires nextHash == if j == 0 then was[h := after] else was[h := after][chains[i][j - 1] := Some(h)]
    ensures forall k :: 0 <= k < length ==> IsChain(list[k], nextHash, chains[i := InsertedChain(chains[i], j, h)][k])
  {
    var c := chains[i];
    assert h !in c;
    assert forall a, b :: 0 <= a < b < |c| ==> c[a] != c[b];
    assert j > 0 ==> c[j - 1] in c;
    hide IsChain, Filed;
    OthersKeep(list, was, nextHash, chains, contents, length, i);
    OwnInsert(first, was, nextHash, c, j, h, after);
  }

  // The other buckets do not notice a change to one chain.
  lemma OthersKeep(list: seq<Option<Handle>>, was: map<Handle, Option<Handle>>, nextHash: map<Handle, Option<Handle>>,
                   chains: seq<seq<Handle>>, contents: set<Handle>, length: nat, i: nat)
    requires Filed(length, chains, contents) && |list| == length && i < length
    requires forall h :: h in contents && h !in chains[i] && h in was ==> h in nextHash && nextHash[h] == was[h]
    requires forall k :: 0 <= k < length && k != i ==> IsChain(list[k], was, chains[k])
    ensures forall k :: 0 <= k < length && k != i ==> IsChain(list[k], nextHash, chains[k])
  {
    forall k | 0 <= k < length && k != i ensures IsChain(list[k], nextHash, chains[k]) {
      forall x | x in chains[k] ensures x in nextHash && (x in was ==> nextHash[x] == was[x]) {
        OtherBuckets(length, chains, contents, i, k, x);
        var m :| 0 <= m < |chains[k]| && chains[k][m] == x;
      }
      ChainFrame(list[k], was, nextHash, chains[k]);
    }
  }

  lemma OwnInsert(first: Option<Handle>, was: map<Handle, Option<Handle>>, nextHash: map<Handle, Option<Handle>>,
                  c: seq<Handle>, j: nat, h: Handle, after: Option<Handle>)
    requires IsChain(first, was, c) && j <= |c| && h !in c
    requires forall a, b :: 0 <= a < b < |c| ==> c[a] != c[b]
    requires after == if j < |c| then FirstOf(c[j + 1..]) else None
    requires nextHash == if j == 0 then was[h := after] else was[h := after][c[j - 1] := Some(h)]
    ensures IsChain(if j == 0 then Some(h) else first, nextHash, InsertedChain(c, j, h))
  {
    var c' := InsertedChain(c, j, h);
    forall m | 0 <= m < |c'| ensures c'[m] in nextHash && nextHash[c'[m]] == FirstOf(c'[m + 1..]) {
      assert m < |c| ==> c[m] in c;
      assert m + 1 < |c'| ==> FirstOf(c'[m + 1..]) == Some(c'[m + 1]);
      assert m + 1 < |c| ==> FirstOf(c[m + 1..]) == Some(c[m + 1]);
    }
  }

  lemma RemoveFiles(length: nat, chains: seq<seq<Handle>>, contents: set<Handle>, i: nat, j: nat)
    requires Filed(length, chains, contents) && i < length && j < |chains[i]|
    ensures Filed(length, chains[i := Without(chains[i], j)], contents - {chains[i][j]})
  {
    WithoutHas(chains[i], j);
    assert chains[i][j] in chains[i];
  }

  lemma WithoutHas(c: seq<Handle>, j: nat)
    requires j < |c| && forall a, b :: 0 <= a < b < |c| ==> c[a] != c[b]
    ensures forall x :: x in Without(c, j) <==> x in c && x != c[j]
    ensures forall a, b :: 0 <= a < b < |c| - 1 ==> Without(c, j)[a] != Without(c, j)[b]
  {
    var c' := Without(c, j);
    forall x ensures x in c' <==> x in c && x != c[j] {
      if x in c && x != c[j] {
        var k :| 0 <= k < |c| && c[k] == x;
        assert k < j ==> c'[k] == x;
        assert k > j ==> c'[k - 1] == x;
      }
    }
  }

  lemma RemoveLinks(list: seq<Option<Handle>>, was: map<Handle, Option<Handle>>, nextHash: map<Handle, Option<Handle>>,
                    chains: seq<seq<Handle>>, contents: set<Handle>, length: nat, first: Option<Handle>, i: nat, j: nat,
                    after: Option<Handle>)
    requires Filed(length, chains, contents) && |list| == length && i < length && j < |chains[i]|
    requires j == 0 ==> list[i] == after
    requires IsChain(first, was, chains[i]) && (j > 0 ==> list[i] == first)
    requires forall k :: 0 <= k < length && k != i ==> IsChain(list[k], was, chains[k])
    requires after == FirstOf(chains[i][j + 1..])
    requires nextHash == if j == 0 then was else was[chains[i][j - 1] := after]
    ensures forall k :: 0 <= k < length ==> IsChain(list[k], nextHash, chains[i := Without(chains[i], j)][k])
  {
    var c := chains[i];
    assert forall a, b :: 0 <= a < b < |c| ==> c[a] != c[b];
    assert j > 0 ==> c[j - 1] in c;
    hide IsChain, Filed;
    OthersKeep(list, was, nextHash, chains, contents, length, i);
    OwnRemove(first, was, nextHash, c, j, after);
  }

  lemma OwnRemove(first: Option<Handle>, was: map<Handle, Option<Handle>>, nextHash: map<Handle, Option<Handle>>,
                  c: seq<Handle>, j: nat, after: Option<Handle>)
    requires IsChain(first, was, c) && j < |c| && after == FirstOf(c[j + 1..])
    requires forall a, b :: 0 <= a < b < |c| ==> c[a] != c[b]
    requires nextHash == if j == 0 then was else was[c[j - 1] := after]
    ensures IsChain(if j == 0 then after else first, nextHash, Without(c, j))
  {
    var c' := Without(c, j);
    forall m | 0 <= m < |c'| ensures c'[m] in nextHash && nextHash[c'[m]] == FirstOf(c'[m + 1..]) {
      assert m + 1 < |c'| ==> FirstOf(c'[m + 1..]) == Some(c'[m + 1]);
      assert m + 1 < |c| ==> FirstOf(c[m + 1..]) == Some(c[m + 1]);
      assert m + 2 < |c| ==> FirstOf(c[m + 2..]) == Some(c[m + 2]);
    }
    assert c' != [] ==> FirstOf(c') == Some(c'[0]);
  }

  // ----- rehashing -----

  // The entries of the first i chains, and of the next one its first m.
  ghost function Done(length: nat, chains: seq<seq<Handle>>, contents: set<Handle>, i: nat, m: nat): set<Handle>
    requires length >= 1 && |chains| == length
  {
    set h | h in contents &&
      (h.hash % length < i || (h.hash % length == i < length && m <= |chains[i]| && h in chains[i][..m]))
  }

  // What is done is in the new chains; the rest is linked as it was.
  ghost predicate Moving(length: nat, list: seq<Option<Handle>>, nextHash: map<Handle, Option<Handle>>,
      chains: seq<seq<Handle>>,
                         contents: set<Handle>, newLength: nat, newList: seq<Option<Handle>>,
                         newChains: seq<seq<Handle>>,
                         done: set<Handle>, i: nat, m: nat)
  {
    && |list| == length && Filed(length, chains, contents) && |chains| == length >= 1
    && |newList| == newLength && Filed(newLength, newChains, done) && |newChains| == newLength
    && done == Done(length, chains, contents, i, m)
    && (forall k :: 0 <= k < newLength ==> IsChain(newList[k], nextHash, newChains[k]))
    && (forall k :: i < k < length ==> IsChain(list[k], nextHash, chains[k]))
    && (i < length ==> m <= |chains[i]| && IsChain(FirstOf(chains[i][m..]), nextHash, chains[i][m..]))
    && (i < length && m == 0 ==> list[i] == FirstOf(chains[i]))
  }

  lemma NothingMoved(length: nat, list: seq<Option<Handle>>, nextHash: map<Handle, Option<Handle>>,
      chains: seq<seq<Handle>>,
                     contents: set<Handle>, newLength: nat, newList: seq<Option<Handle>>, newChains: seq<seq<Handle>>)
    requires length >= 1 && |list| == length == |chains| && Filed(length, chains, contents)
    requires forall i :: 0 <= i < length ==> IsChain(list[i], nextHash, chains[i])
    requires newLength >= 1 && |newList| == newLength == |newChains|
    requires forall i :: 0 <= i < newLength ==> newList[i] == None && newChains[i] == []
    ensures Moving(length, list, nextHash, chains, contents, newLength, newList, newChains, {}, 0, 0)
  {
    assert chains[0][0..] == chains[0];
    assert Done(length, chains, contents, 0, 0) == {};
  }

  lemma MoveStep(length: nat, list: seq<Option<Handle>>, nextHash: map<Handle, Option<Handle>>,
      chains: seq<seq<Handle>>,
                 contents: set<Handle>, newLength: nat, newList: seq<Option<Handle>>, newChains: seq<seq<Handle>>,
                 done: set<Handle>, i: nat, m: nat)
    requires newLength >= 1 && i < length == |chains|
    requires Moving(length, list, nextHash, chains, contents, newLength, newList, newChains, done, i, m)
    requires m < |chains[i]|
    ensures var x := chains[i][m]; var slot := x.hash % newLength;
      && x in nextHash && nextHash[x] == FirstOf(chains[i][m + 1..]) && x !in done
      && FirstOf(chains[i][m..]) == Some(x)
      && Moving(length, list, nextHash[x := newList[slot]], chains, contents, newLength, newList[slot := Some(x)],
                newChains[slot := [x] + newChains[slot]], done + {x}, i, m + 1)
  {
    var x := chains[i][m];
    var rest := chains[i][m..];
    assert rest[0] == x && rest[1..] == chains[i][m + 1..];
    assert x in nextHash && nextHash[x] == FirstOf(rest[1..]);
    DoneStep(length, chains, contents, i, m);
    OnlyInItsChain(length, chains, contents, i, m);
    hide IsChain, Filed, Done;
    MoveNew(nextHash, newLength, newList, newChains, done, x);
    MoveOld(list, nextHash, chains, i, m, newList[x.hash % newLength]);
  }

  lemma MoveNew(nextHash: map<Handle, Option<Handle>>, newLength: nat, newList: seq<Option<Handle>>,
      newChains: seq<seq<Handle>>,
                done: set<Handle>, x: Handle)
    requires newLength >= 1 && |newList| == newLength && Filed(newLength, newChains, done) && |newChains| == newLength
    requires x !in done
    requires forall k :: 0 <= k < newLength ==> IsChain(newList[k], nextHash, newChains[k])
    ensures var slot := x.hash % newLength; var newChains' := newChains[slot := [x] + newChains[slot]];
      && Filed(newLength, newChains', done + {x})
      && forall k :: 0 <= k < newLength ==>
        IsChain(newList[slot := Some(x)][k], nextHash[x := newList[slot]], newChains'[k])
  {
    var slot := x.hash % newLength;
    PrependFiles(newLength, newChains, done, x);
    hide IsChain, Filed;
    var nextHash' := nextHash[x := newList[slot]];
    forall k | 0 <= k < newLength ensures IsChain(newList[k], nextHash', newChains[k]) {
      ChainFrameBut(newList[k], nextHash, x, newList[slot], newChains[k]);
    }
    ConsChain(newList[slot], nextHash', newChains[slot], x);
  }

  lemma MoveOld(list: seq<Option<Handle>>, nextHash: map<Handle, Option<Handle>>, chains: seq<seq<Handle>>, i: nat,
      m: nat, v: Option<Handle>)
    requires i < |list| == |chains| && m < |chains[i]| && IsChain(FirstOf(chains[i][m..]), nextHash, chains[i][m..])
    requires forall k :: i < k < |list| ==> IsChain(list[k], nextHash, chains[k]) && chains[i][m] !in chains[k]
    requires forall j, k :: 0 <= j < k < |chains[i]| ==> chains[i][j] != chains[i][k]
    ensures IsChain(FirstOf(chains[i][m + 1..]), nextHash[chains[i][m] := v], chains[i][m + 1..])
    ensures forall k :: i < k < |list| ==> IsChain(list[k], nextHash[chains[i][m] := v], chains[k])
  {
    var x := chains[i][m];
    hide IsChain;
    RestOfChain(nextHash, nextHash[x := v], chains[i], m);
    forall k | i < k < |list| ensures IsChain(list[k], nextHash[x := v], chains[k]) {
      ChainFrameBut(list[k], nextHash, x, v, chains[k]);
    }
  }

  lemma OnlyInItsChain(length: nat, chains: seq<seq<Handle>>, contents: set<Handle>, i: nat, m: nat)
    requires Filed(length, chains, contents) && i < length && m < |chains[i]|
    ensures forall k :: 0 <= k < length && k != i ==> chains[i][m] !in chains[k]
    ensures forall j, k :: 0 <= j < k < |chains[i]| ==> chains[i][j] != chains[i][k]
  {
    var x := chains[i][m];
    assert x in chains[i];
    forall k | 0 <= k < length && x in chains[k] ensures k == i {
      InOneChain(length, chains, contents, i, k, x);
    }
  }

  lemma InOneChain(length: nat, chains: seq<seq<Handle>>, contents: set<Handle>, i: nat, k: nat, x: Handle)
    requires Filed(length, chains, contents) && i < length && k < length && x in chains[i] && x in chains[k]
    ensures i == k
  {
  }

  lemma ChainFrameBut(first: Option<Handle>, nextHash: map<Handle, Option<Handle>>, x: Handle, v: Option<Handle>,
      c: seq<Handle>)
    requires IsChain(first, nextHash, c) && x !in c
    ensures IsChain(first, nextHash[x := v], c)
  {
    forall h | h in c ensures h in nextHash {
      var j :| 0 <= j < |c| && c[j] == h;
    }
    ChainFrame(first, nextHash, nextHash[x := v], c);
  }

  lemma DoneStep(length: nat, chains: seq<seq<Handle>>, contents: set<Handle>, i: nat, m: nat)
    requires Filed(length, chains, contents) && i < length && m < |chains[i]|
    ensures chains[i][m] !in Done(length, chains, contents, i, m) && chains[i][m] in contents
    ensures Done(length, chains, contents, i, m + 1) == Done(length, chains, contents, i, m) + {chains[i][m]}
  {
    var c := chains[i];
    assert c[m] in c;
    assert c[..m + 1] == c[..m] + [c[m]];
  }

  lemma PrependFiles(length: nat, chains: seq<seq<Handle>>, contents: set<Handle>, x: Handle)
    requires Filed(length, chains, contents) && x !in contents
    ensures var slot := x.hash % length; Filed(length, chains[slot := [x] + chains[slot]], contents + {x})
    ensures forall k :: 0 <= k < length ==> x !in chains[k]
  {
    var slot := x.hash % length;
    assert x !in chains[slot];
  }

  lemma ConsChain(first: Option<Handle>, nextHash: map<Handle, Option<Handle>>, c: seq<Handle>, x: Handle)
    requires IsChain(first, nextHash, c) && x in nextHash && nextHash[x] == first
    ensures IsChain(Some(x), nextHash, [x] + c)
  {
    var d := [x] + c;
    forall j | 0 <= j < |d| ensures d[j] in nextHash && nextHash[d[j]] == FirstOf(d[j + 1..]) {
      if j > 0 {
        assert d[j + 1..] == c[j..];
      } else {
        assert d[1..] == c;
      }
    }
  }

  lemma RestOfChain(nextHash: map<Handle, Option<Handle>>, nextHash': map<Handle, Option<Handle>>, c: seq<Handle>,
      m: nat)
    requires m < |c| && IsChain(FirstOf(c[m..]), nextHash, c[m..])
    requires forall j, k :: 0 <= j < k < |c| ==> c[j] != c[k]
    requires forall h :: h in nextHash && h != c[m] ==> h in nextHash' && nextHash'[h] == nextHash[h]
    ensures IsChain(FirstOf(c[m + 1..]), nextHash', c[m + 1..])
  {
    var a, b := c[m..], c[m + 1..];
    forall j | 0 <= j < |b| ensures b[j] in nextHash' && nextHash'[b[j]] == FirstOf(b[j + 1..]) {
      assert b[j] == a[j + 1];
      assert b[j + 1..] == a[j + 2..];
    }
  }

  lemma ChainMoved(length: nat, list: seq<Option<Handle>>, nextHash: map<Handle, Option<Handle>>,
      chains: seq<seq<Handle>>,
                   contents: set<Handle>, newLength: nat, newList: seq<Option<Handle>>, newChains: seq<seq<Handle>>,
                   done: set<Handle>, i: nat)
    requires i < length == |chains|
    requires Moving(length, list, nextHash, chains, contents, newLength, newList, newChains, done, i, |chains[i]|)
    ensures Moving(length, list, nextHash, chains, contents, newLength, newList, newChains, done, i + 1, 0)
  {
    assert chains[i][..|chains[i]|] == chains[i];
    if i + 1 < length {
      assert chains[i + 1][0..] == chains[i + 1];
    }
    forall h
      ensures h in Done(length, chains, contents, i, |chains[i]|) <==> h in Done(length, chains, contents, i + 1, 0)
    {
      if h in contents && h.hash % length == i {
        assert h in chains[i];
      }
    }
    assert Done(length, chains, contents, i, |chains[i]|) == Done(length, chains, contents, i + 1, 0);
  }

  lemma AllMoved(length: nat, list: seq<Option<Handle>>, nextHash: map<Handle, Option<Handle>>,
      chains: seq<seq<Handle>>,
                 contents: set<Handle>, newLength: nat, newList: seq<Option<Handle>>, newChains: seq<seq<Handle>>,
                 done: set<Handle>)
    requires Moving(length, list, nextHash, chains, contents, newLength, newList, newChains, done, length, 0)
    ensures done == contents
  {
    forall h | h in contents ensures h in done {
      assert h.hash % length < length;
    }
  }

  // ----- the cache -----

  datatype Node = Lru | InUse | Item(h: Handle)

  function Charges(list: seq<Node>): nat {
    if list == [] then 0
    else Charges(list[..|list| - 1]) + if list[|list| - 1].Item? then list[|list| - 1].h.charge else 0
  }

  lemma {:induction false} ChargesWithout(list: seq<Node>, i: nat)
    requires i < |list| && list[i].Item?
    ensures Charges(list) == Charges(Without(list, i)) + list[i].h.charge
    decreases |list|
  {
    var n := |list| - 1;
    if i == n {
      assert Without(list, i) == list[..n];
    } else {
      ChargesWithout(list[..n], i);
      assert Without(list, i)[..n - 1] == Without(list[..n], i);
    }
  }

  lemma {:induction false} ChargesAppend(list: seq<Node>, e: Node)
    requires e.Item?
    ensures Charges(list + [e]) == Charges(list) + e.h.charge
  {
    assert (list + [e])[..|list|] == list;
  }

  // The list without its entry n.
  ghost predicate IsWithout(list: seq<Node>, rest: seq<Node>, n: Node) {
    exists i :: 0 <= i < |list| && list[i] == n && rest == Without(list, i)
  }

  predicate OnList(list: seq<Node>, h: Handle) {
    Item(h) in list
  }

  predicate Known(refs: map<Handle, nat>, deleted: seq<Handle>, h: Handle) {
    h in refs || h in deleted
  }

  // The i-th entry that was created is still referenced, or was deleted.
  ghost predicate Accounted(refs: map<Handle, nat>, deleted: seq<Handle>, i: nat) {
    exists h :: Known(refs, deleted, h) && h.id == i
  }

  // And each such number is that of one entry.
  ghost predicate AllAccounted(refs: map<Handle, nat>, deleted: seq<Handle>, created: nat) {
    && (forall i :: 0 <= i < created ==> Accounted(refs, deleted, i))
    && forall g, h :: Known(refs, deleted, g) && Known(refs, deleted, h) && g.id == h.id ==> g == h
  }

  // One reference for each client's handle, one for the cache, and `extra`; an
  // entry without references is deleted, once. Every entry ever created either
  // has references or has been deleted, and not both.
  ghost predicate AllCounted(refs: map<Handle, nat>, inCache: set<Handle>, clients: multiset<Handle>,
      extra: multiset<Handle>,
                             created: nat, deleted: seq<Handle>)
  {
    && (forall h :: h in refs ==> refs[h] > 0 && refs[h] == clients[h] + extra[h] + (if h in inCache then 1 else 0))
    && (forall h :: h in clients || h in extra || h in inCache ==> h in refs)
    && (forall h :: h in refs || h in deleted ==> h.id < created)
    && (forall h :: h in deleted ==> h !in refs)
    && AllAccounted(refs, deleted, created)
    && forall i, j :: 0 <= i < j < |deleted| ==> deleted[i] != deleted[j]
  }

  // Unreferenced entries of the cache are on the LRU list, the others in use.
  ghost predicate AllListed(lru: seq<Node>, inUse: seq<Node>, inCache: set<Handle>, refs: map<Handle, nat>) {
    forall h ::
      && (OnList(lru, h) <==> h in inCache && h in refs && refs[h] == 1)
      && (OnList(inUse, h) <==> h in inCache && h in refs && refs[h] != 1)
  }

  lemma RefCounts(refs: map<Handle, nat>, inCache: set<Handle>, clients: multiset<Handle>, created: nat,
      deleted: seq<Handle>, e: Handle)
    requires AllCounted(refs, inCache, clients, multiset{}, created, deleted) && e in refs
    ensures AllCounted(refs[e := refs[e] + 1], inCache, clients, multiset{e}, created, deleted)
  {
    hide AllAccounted;
    SameKnown(refs, deleted, created, e, refs[e] + 1);
  }

  lemma StillAccounted(refs: map<Handle, nat>, deleted: seq<Handle>, refs': map<Handle, nat>, deleted': seq<Handle>,
      created: nat)
    requires AllAccounted(refs, deleted, created)
    requires forall h :: Known(refs, deleted, h) <==> Known(refs', deleted', h)
    ensures AllAccounted(refs', deleted', created)
  {
    forall i | 0 <= i < created ensures Accounted(refs', deleted', i) {
      assert Accounted(refs, deleted, i);
      var h :| Known(refs, deleted, h) && h.id == i;
      assert Known(refs', deleted', h);
    }
  }

  lemma OneMoreAccounted(refs: map<Handle, nat>, deleted: seq<Handle>, created: nat, e: Handle)
    requires AllAccounted(refs, deleted, created) && e.id == created
    requires forall h :: Known(refs, deleted, h) ==> h.id < created
    ensures AllAccounted(refs[e := 1], deleted, created + 1)
  {
    var refs' := refs[e := 1];
    assert Known(refs', deleted, e);
    forall i | 0 <= i < created ensures Accounted(refs', deleted, i) {
      assert Accounted(refs, deleted, i);
      var h :| Known(refs, deleted, h) && h.id == i;
      assert Known(refs', deleted, h);
    }
  }

  lemma SameKnown(refs: map<Handle, nat>, deleted: seq<Handle>, created: nat, e: Handle, n: nat)
    requires AllAccounted(refs, deleted, created) && e in refs
    ensures AllAccounted(refs[e := n], deleted, created) && AllAccounted(refs - {e}, deleted + [e], created)
  {
    hide AllAccounted;
    StillAccounted(refs, deleted, refs[e := n], deleted, created);
    StillAccounted(refs, deleted, refs - {e}, deleted + [e], created);
  }

  lemma UnrefCounts(refs: map<Handle, nat>, inCache: set<Handle>, clients: multiset<Handle>, created: nat,
      deleted: seq<Handle>, e: Handle)
    requires AllCounted(refs, inCache, clients, multiset{e}, created, deleted)
    ensures e in refs && refs[e] > 0
    ensures refs[e] > 1 ==> AllCounted(refs[e := refs[e] - 1], inCache, clients, multiset{}, created, deleted)
    ensures refs[e] == 1 ==>
      e !in inCache && AllCounted(refs - {e}, inCache, clients, multiset{}, created, deleted + [e])
  {
    hide AllAccounted;
    assert e in multiset{e} && multiset{e}[e] == 1;
    SameKnown(refs, deleted, created, e, refs[e] - 1);
  }

  // Moving an entry that gains its first client to the list of those in use.
  lemma RefMoves(lru: seq<Node>, inUse: seq<Node>, inCache: set<Handle>, refs: map<Handle, nat>, e: Handle,
      lru': seq<Node>, inUse': seq<Node>)
    requires AllListed(lru, inUse, inCache, refs) && e in refs
    requires if e in inCache && refs[e] == 1 then
        && (forall n :: n in lru' <==> n in lru && n != Item(e))
        && (forall n :: n in inUse' <==> n in inUse || n == Item(e))
      else lru' == lru && inUse' == inUse
    requires refs[e] > 0
    ensures AllListed(lru', inUse', inCache, refs[e := refs[e] + 1])
  {
    assert OnList(lru, e) <==> e in inCache && refs[e] == 1;
  }

  lemma UnrefMoves(lru: seq<Node>, inUse: seq<Node>, inCache: set<Handle>, refs: map<Handle, nat>, e: Handle,
      lru': seq<Node>, inUse': seq<Node>)
    requires AllListed(lru, inUse, inCache, refs) && e in refs && refs[e] > 1
    requires if e in inCache && refs[e] == 2 then
        && (forall n :: n in lru' <==> n in lru || n == Item(e))
        && (forall n :: n in inUse' <==> n in inUse && n != Item(e))
      else lru' == lru && inUse' == inUse
    ensures AllListed(lru', inUse', inCache, refs[e := refs[e] - 1])
  {
    assert OnList(inUse, e) <==> e in inCache;
  }

  class LRUCache {
    const capacity: nat
    const table: HandleTable
    var usage: nat
    var next: map<Node, Node>
    var prev: map<Node, Node>
    var refs: map<Handle, nat>
    var inCache: set<Handle>
    var created: nat
    var deleted: seq<Handle>          // deleter calls, in order
    ghost var lru: seq<Node>          // oldest first
    ghost var inUse: seq<Node>
    ghost var clients: multiset<Handle> // handles clients have not released

    // Two separate lists; the usage is their charges and `pending`.
    ghost predicate Lists(pending: int)
      reads `next, `prev, `lru, `inUse, `usage
    {
      && IsRing(next, prev, Lru, lru) && IsRing(next, prev, InUse, inUse)
      && (forall n :: n in lru ==> n.Item? && n !in inUse)
      && (forall n :: n in inUse ==> n.Item?)
      && usage == Charges(lru) + Charges(inUse) + pending
    }

    ghost predicate Counted(extra: multiset<Handle>)
      reads `refs, `inCache, `clients, `created, `deleted
    {
      AllCounted(refs, inCache, clients, extra, created, deleted)
    }

    ghost predicate Listed()
      reads `lru, `inUse, `inCache, `refs
    {
      AllListed(lru, inUse, inCache, refs)
    }

    ghost predicate Ok()
      reads this, table
    {
      Lists(0) && Counted(multiset{}) && Listed() && table.Ok() && table.contents == inCache
    }

    constructor (cap: nat, hash: Bytes -> nat)
      ensures Ok() && capacity == cap && usage == 0 && fresh(table) && table.hashOf == hash
      ensures lru == [] && inUse == [] && clients == multiset{} && deleted == [] && refs == map[]
    {
      capacity, usage := cap, 0;
      next, prev := map[Lru := Lru, InUse := InUse], map[Lru := Lru, InUse := InUse];
      refs, inCache, created, deleted := map[], {}, 0, [];
      lru, inUse, clients := [], [], multiset{};
      table := new HandleTable(hash);
    }

    // Takes an entry off the list it is on.
    method LRU_Remove(e: Handle)
      requires Lists(0) && (OnList(lru, e) || OnList(inUse, e))
      modifies this`next, this`prev, this`lru, this`inUse
      ensures Lists(e.charge)
      ensures forall n :: n in lru <==> n in old(lru) && n != Item(e)
      ensures forall n :: n in inUse <==> n in old(inUse) && n != Item(e)
      ensures if OnList(old(inUse), e) then lru == old(lru)
              else IsWithout(old(lru), lru, Item(e))
    {
      ghost var used := OnList(inUse, e);
      ghost var head, items := if used then InUse else Lru, if used then inUse else lru;
      ghost var i :| 0 <= i < |items| && items[i] == Item(e);
      ghost var n, p := next, prev;
      next, prev := Unlink(next, prev, Item(e), head, items, i);
      ChargesWithout(items, i);
      WithoutNodes(items, head, i);
      if used {
        OtherRing(n, p, next, prev, Lru, lru, InUse, inUse);
        inUse := Without(inUse, i);
      } else {
        OtherRing(n, p, next, prev, InUse, inUse, Lru, lru);
        lru := Without(lru, i);
      }
    }

    // Makes an entry the newest of a list.
    method LRU_Append(list: Node, e: Handle, ghost pending: int)
      requires Lists(pending) && !OnList(lru, e) && !OnList(inUse, e) && (list == Lru || list == InUse)
      modifies this`next, this`prev, this`lru, this`inUse
      ensures Lists(pending - e.charge)
      ensures lru == old(lru) + if list == Lru then [Item(e)] else []
      ensures inUse == old(inUse) + if list == InUse then [Item(e)] else []
    {
      ghost var n, p := next, prev;
      ghost var items := if list == Lru then lru else inUse;
      next, prev := Append(next, prev, list, Item(e), items);
      ChargesAppend(items, Item(e));
      if list == Lru {
        OtherRing(n, p, next, prev, InUse, inUse, Lru, lru + [Item(e)]);
        lru := lru + [Item(e)];
      } else {
        OtherRing(n, p, next, prev, Lru, lru, InUse, inUse + [Item(e)]);
        inUse := inUse + [Item(e)];
      }
    }

    method Ref(e: Handle)
      requires Lists(0) && Counted(multiset{}) && Listed() && e in refs
      modifies this`next, this`prev, this`lru, this`inUse, this`refs
      ensures Lists(0) && Counted(multiset{e}) && Listed()
      ensures refs == old(refs)[e := old(refs)[e] + 1]
      ensures if OnList(old(lru), e)
              then IsWithout(old(lru), lru, Item(e))
              else lru == old(lru)
    {
      hide IsRing, Charges, AllCounted;
      ghost var lru0, inUse0 := lru, inUse;
      RefCounts(refs, inCache, clients, created, deleted, e);
      Positive(multiset{}, e);
      if refs[e] == 1 && e in inCache {
        assert OnList(lru, e);
        hide AllListed;
        LRU_Remove(e);
        LRU_Append(InUse, e, e.charge);
      }
      hide Lists;
      RefMoves(lru0, inUse0, inCache, refs, e, lru, inUse);
      refs := refs[e := refs[e] + 1];
    }

    lemma Positive(extra: multiset<Handle>, e: Handle)
      requires Counted(extra) && e in refs
      ensures refs[e] > 0
    {
    }

    method Unref(e: Handle)
      requires Lists(0) && Counted(multiset{e}) && Listed()
      modifies this`next, this`prev, this`lru, this`inUse, this`refs, this`deleted
      ensures Lists(0) && Counted(multiset{}) && Listed()
      ensures refs == if old(refs)[e] == 1 then old(refs) - {e} else old(refs)[e := old(refs)[e] - 1]
      ensures deleted == old(deleted) + if old(refs)[e] == 1 then [e] else []
      ensures if e in inCache && old(refs)[e] == 2 then lru == old(lru) + [Item(e)] else lru == old(lru)
    {
      hide IsRing, Charges, AllCounted;
      ghost var lru0, inUse0, refs0 := lru, inUse, refs;
      UnrefCounts(refs, inCache, clients, created, deleted, e);
      refs := refs[e := refs[e] - 1];
      if refs[e] == 0 {
        deleted := deleted + [e];
        refs := refs - {e};
        DeletedIsUnlisted(lru, inUse, inCache, refs0, e);
        assert refs == refs0 - {e};
      } else {
        if e in inCache && refs[e] == 1 {
          assert OnList(inUse, e) && !OnList(lru, e);
          hide AllListed;
          LRU_Remove(e);
          LRU_Append(Lru, e, e.charge);
        }
        hide Lists;
        UnrefMoves(lru0, inUse0, inCache, refs0, e, lru, inUse);
      }
    }

    // Finishes removing an entry that is out of the hash table.
    method FinishErase(e: Option<Handle>) returns (r: bool)
      requires Lists(0) && Counted(multiset{}) && Listed() && (e.Some? ==> e.value in inCache)
      modifies this`next, this`prev, this`lru, this`inUse, this`refs, this`deleted, this`inCache, this`usage
      ensures Lists(0) && Counted(multiset{}) && Listed() && r == e.Some?
      ensures inCache == old(inCache) - (if e.Some? then {e.value} else {})
      ensures forall n :: n in lru ==> n in old(lru)
      ensures e == None ==> usage == old(usage) && lru == old(lru) && deleted == old(deleted) && refs == old(refs)
      ensures e.Some? ==>
        && usage == old(usage) - e.value.charge
        && (forall h :: h in old(refs) && h != e.value ==> h in refs && refs[h] == old(refs)[h])
        && (forall h :: h in refs ==> h in old(refs))
        && if OnList(old(lru), e.value) then
             && deleted == old(deleted) + [e.value]
             && IsWithout(old(lru), lru, Item(e.value))
           else
             deleted == old(deleted) && lru == old(lru)
    {
      hide IsRing, Charges, AllCounted, IsWithout;
      if e == None {
        return false;
      }
      var x := e.value;
      ghost var lru0, inUse0, refs0, inCache0 := lru, inUse, refs, inCache;
      EraseCounts(refs, inCache, clients, created, deleted, x);
      EraseLists(lru, inUse, inCache, refs, x);
      LRU_Remove(x);
      inCache := inCache - {x};
      usage := usage - x.charge;
      EraseMoves(lru0, inUse0, inCache0, refs, x, lru, inUse);
      hide AllListed;
      Unref(x);
      r := true;
    }

    method Lookup(key: Bytes, hash: nat) returns (r: Option<Handle>)
      requires Ok() && hash == table.hashOf(key)
      modifies this
      ensures Ok() && IsEntryOf(inCache, key, r) && inCache == old(inCache) && usage == old(usage)
      ensures deleted == old(deleted)
      ensures clients == old(clients) + if r.Some? then multiset{r.value} else multiset{}
      ensures if r.Some? && OnList(old(lru), r.value)
              then IsWithout(old(lru), lru, Item(r.value))
              else lru == old(lru)
    {
      hide IsRing, Charges, AllCounted, AllListed, Bucketed;
      r := table.Lookup(key, hash);
      if r != None {
        CachedHasRefs(r.value);
        Ref(r.value);
        HandOut(refs, inCache, clients, created, deleted, r.value);
        clients := clients + multiset{r.value};
      }
    }

    lemma CachedHasRefs(h: Handle)
      requires Counted(multiset{}) && h in inCache
      ensures h in refs
    {
    }

    // A client gives a handle back.
    method Release(handle: Handle)
      requires Ok() && handle in clients
      modifies this
      ensures Ok() && clients == old(clients) - multiset{handle} && inCache == old(inCache) && usage == old(usage)
      ensures deleted == old(deleted) + if handle !in inCache && old(clients)[handle] == 1 then [handle] else []
      ensures if handle in inCache && old(clients)[handle] == 1
              then lru == old(lru) + [Item(handle)]
              else lru == old(lru)
    {
      hide IsRing, Charges, AllCounted, AllListed, Bucketed;
      TakeBack(refs, inCache, clients, created, deleted, handle);
      clients := clients - multiset{handle};
      Unref(handle);
    }

    method Erase(key: Bytes, hash: nat)
      requires Ok() && hash == table.hashOf(key)
      modifies this, table
      ensures Ok() && clients == old(clients)
      ensures forall h :: h in inCache <==> h in old(inCache) && h.key != key
    {
      hide IsRing, Charges, AllCounted, AllListed, Bucketed;
      var e := table.Remove(key, hash);
      var erased := FinishErase(e);
    }

    // Removes every entry no client holds, and no other.
    method Prune()
      requires Ok()
      modifies this, table
      ensures Ok() && lru == [] && clients == old(clients)
      ensures forall h :: h in inCache <==> h in old(inCache) && Item(h) !in old(lru)
      ensures forall h :: Item(h) in old(inUse) ==> h in inCache
    {
      hide Lists, Counted, Listed, HandleTable.Ok, RemainCached;
      ghost var evicted, list, cached, used := 0, lru, inCache, inUse;
      UsedIsCached();
      NoneEvicted(list, inCache);
      var first := OldestUnused();
      while first != Lru
        invariant Ok() && clients == old(clients)
        invariant evicted <= |list| && lru == list[evicted..] && RemainCached(list, evicted, cached, inCache)
        invariant first == (if lru == [] then Lru else lru[0]) && (lru != [] ==> first.Item?)
        decreases |lru|
      {
        ghost var rest, was := lru, inCache;
        EvictOldest();
        EvictedOneMore(list, evicted, cached, was, inCache);
        evicted := evicted + 1;
        first := OldestUnused();
      }
      AllEvicted(list, evicted, cached, inCache);
    }

    lemma UsedIsCached()
      requires Ok()
      ensures forall h :: Item(h) in inUse ==> h in inCache && Item(h) !in lru
    {
      hide IsRing, Charges, AllCounted, Bucketed;
      forall h | Item(h) in inUse
        ensures h in inCache && Item(h) !in lru
      {
        assert OnList(inUse, h);
      }
    }

    // lru_.next.
    method OldestUnused() returns (n: Node)
      requires Ok()
      ensures n == (if lru == [] then Lru else lru[0]) && (lru != [] ==> n.Item?)
    {
      hide Charges, AllCounted, AllListed, Bucketed;
      FirstIsAfterHead(next, prev, Lru, lru);
      n := next[Lru];
    }

    // Erases the oldest entry no client holds; its deleter runs.
    method EvictOldest()
      requires Ok() && lru != []
      modifies this, table
      ensures Ok() && lru == old(lru)[1..] && clients == old(clients) && usage == old(usage) - old(lru)[0].h.charge
      ensures old(lru)[0].Item? && inCache == old(inCache) - {old(lru)[0].h}
      ensures deleted == old(deleted) + [old(lru)[0].h]
      ensures created == old(created) && forall h :: h in refs ==> h in old(refs)
    {
      hide Charges, AllCounted, Bucketed;
      var first := OldestUnused();
      assert first in lru;
      var old_ := first.h;
      assert OnList(lru, old_);
      ghost var lru0 := lru;
      TableHas(old_);
      var e := table.Remove(old_.key, old_.hash);
      hide AllListed;
      var erased := FinishErase(e);
      assert erased;
      ghost var i :| 0 <= i < |lru0| && lru0[i] == Item(old_) && lru == Without(lru0, i);
      assert i == 0;
    }

    lemma TableHas(h: Handle)
      requires Ok() && h in inCache
      ensures h in table.contents && h.hash == table.hashOf(h.key)
      ensures forall r :: IsEntryOf(table.contents, h.key, r) ==> r == Some(h)
    {
    }

    // Caches a new entry, in the place of one with its key, and then evicts
    // unused entries, oldest first and no more than needed, until the rest fits
    // or none is left. `before` is the LRU list between the two.
    method Insert(key: Bytes, hash: nat, charge: nat) returns (e: Handle, ghost before: seq<Node>, ghost evicted: nat)
      requires Ok() && hash == table.hashOf(key)
      modifies this, table
      ensures Ok() && (usage <= capacity || lru == [])
      ensures e.key == key && e.charge == charge && e !in old(refs) && clients == old(clients) + multiset{e}
      ensures if capacity > 0 then e in inCache else inCache <= old(inCache)
      ensures evicted <= |before| && lru == before[evicted..]
      ensures forall h :: h in inCache <==>
        && (if h == e then capacity > 0 else h in old(inCache) && (capacity > 0 ==> h.key != key))
        && Item(h) !in before[..evicted]
      ensures evicted > 0 ==> before[evicted - 1].Item? && usage + before[evicted - 1].h.charge > capacity
      ensures before == old(lru) || exists h: Handle :: h.key == key && IsWithout(old(lru), before, Item(h))
    {
      hide Lists, AllCounted, AllListed, Bucketed;
      e := NewHandle(key, hash, charge);
      ghost var was := inCache;
      if capacity > 0 {
        TakeIn(e);
        Replace(e);
      }
      before := lru;
      ghost var cached := inCache;
      assert forall h :: h in cached <==>
        if h == e then capacity > 0 else h in was && (capacity > 0 ==> h.key != key);
      evicted := EvictToFit();
    }

    // Evicts unused entries, oldest first, until the rest fits or none is left.
    method EvictToFit() returns (ghost evicted: nat)
      requires Ok()
      modifies this, table
      ensures Ok() && (usage <= capacity || lru == []) && clients == old(clients)
      ensures evicted <= |old(lru)| && lru == old(lru)[evicted..]
      ensures RemainCached(old(lru), evicted, old(inCache), inCache)
      ensures evicted > 0 ==> old(lru)[evicted - 1].Item? && usage + old(lru)[evicted - 1].h.charge > capacity
    {
      hide Lists, Counted, Listed, HandleTable.Ok, RemainCached;
      evicted := 0;
      ghost var list, cached := lru, inCache;
      NoneEvicted(list, inCache);
      var first := OldestUnused();
      while usage > capacity && first != Lru
        invariant Ok() && clients == old(clients)
        invariant first == (if lru == [] then Lru else lru[0]) && (lru != [] ==> first.Item?)
        invariant evicted <= |list| && lru == list[evicted..] && RemainCached(list, evicted, cached, inCache)
        invariant evicted > 0 ==> list[evicted - 1].Item? && usage + list[evicted - 1].h.charge > capacity
        decreases |lru|
      {
        ghost var was := inCache;
        EvictOldest();
        EvictedOneMore(list, evicted, cached, was, inCache);
        evicted := evicted + 1;
        first := OldestUnused();
      }
    }

    // FinishErase(table_.Insert(e)).
    method Replace(e: Handle)
      requires Lists(0) && Counted(multiset{}) && Listed() && table.Ok() && inCache == table.contents + {e}
      requires e !in table.contents && e.hash == table.hashOf(e.key) && Item(e) !in lru
      modifies this`next, this`prev, this`lru, this`inUse, this`refs, this`deleted, this`inCache, this`usage, table
      ensures Ok() && e in inCache && Item(e) !in lru
      ensures forall h :: h in inCache <==> h == e || (h in old(inCache) && h.key != e.key)
      ensures lru == old(lru) || exists h: Handle :: h.key == e.key && IsWithout(old(lru), lru, Item(h))
    {
      hide Lists, AllCounted, AllListed, OneEach, IsWithout, IsEntryOf, HandleTable.Ok;
      ghost var contents, list := table.contents, lru;
      TableKeys(table);
      var old_ := table.Insert(e);
      SwapKeepsOthers(table.hashOf, contents, e, old_);
      var erased := FinishErase(old_);
      if lru != list {
        assert IsWithout(list, lru, Item(old_.value));
      }
    }

    // Allocates the entry; the caller's handle is its one reference.
    method NewHandle(key: Bytes, hash: nat, charge: nat) returns (e: Handle)
      requires Ok()
      modifies this`created, this`refs, this`clients
      ensures Ok() && e == Handle(old(created), key, hash, charge)
      ensures e !in old(refs) && e !in inCache && Item(e) !in lru && Item(e) !in inUse
      ensures e in refs && refs[e] == 1 && clients == old(clients) + multiset{e}
    {
      hide AllCounted, AllListed, Lists, Bucketed;
      e := Handle(created, key, hash, charge);
      created := created + 1;
      NewCounts(refs, inCache, clients, e.id, deleted, e);
      NewListed(lru, inUse, inCache, refs, e);
      refs := refs[e := 1];
      clients := clients + multiset{e};
    }

    // Gives the cache its reference to a new entry.
    method TakeIn(e: Handle)
      requires Ok() && e !in inCache && Item(e) !in lru && Item(e) !in inUse && e in refs && refs[e] == 1
      modifies this`refs, this`inCache, this`next, this`prev, this`lru, this`inUse, this`usage
      ensures Lists(0) && Counted(multiset{}) && Listed()
      ensures inCache == old(inCache) + {e} && lru == old(lru)
    {
      hide AllCounted, AllListed, Lists, Bucketed;
      TakeInCounts(refs, inCache, clients, created, deleted, e);
      TakeInListed(lru, inUse, inCache, refs, e);
      refs := refs[e := refs[e] + 1];
      inCache := inCache + {e};
      LRU_Append(InUse, e, 0);
      assert lru == old(lru);
      AddUsage(e.charge);
    }

    method AddUsage(charge: nat)
      requires Lists(0 - charge as int)
      modifies this`usage
      ensures Lists(0) && usage == old(usage) + charge
    {
      hide IsRing, Charges;
      usage := usage + charge;
    }
  }

  // Of the cached entries those among the first n of the list have gone.
  ghost predicate RemainCached(list: seq<Node>, n: nat, before: set<Handle>, cached: set<Handle>)
    requires n <= |list|
  {
    forall h :: h in cached <==> h in before && Item(h) !in list[..n]
  }

  lemma NoneEvicted(list: seq<Node>, cached: set<Handle>)
    ensures RemainCached(list, 0, cached, cached)
  {
  }

  lemma EvictedOneMore(list: seq<Node>, n: nat, before: set<Handle>, was: set<Handle>, cached: set<Handle>)
    requires n < |list| && RemainCached(list, n, before, was)
    requires list[n].Item? && cached == was - {list[n].h}
    ensures RemainCached(list, n + 1, before, cached)
    ensures list[n..][1..] == list[n + 1..]
  {
    assert list[..n + 1] == list[..n] + [list[n]];
  }

  lemma AllEvicted(list: seq<Node>, n: nat, before: set<Handle>, cached: set<Handle>)
    requires n <= |list| && list[n..] == [] && RemainCached(list, n, before, cached)
    ensures forall h :: h in cached <==> h in before && Item(h) !in list
  {
    assert list[..n] == list;
  }

  lemma NewCounts(refs: map<Handle, nat>, inCache: set<Handle>, clients: multiset<Handle>, created: nat,
      deleted: seq<Handle>, e: Handle)
    requires AllCounted(refs, inCache, clients, multiset{}, created, deleted) && e.id == created
    ensures e !in refs && e !in inCache && e !in clients
    ensures AllCounted(refs[e := 1], inCache, clients + multiset{e}, multiset{}, created + 1, deleted)
  {
    var all := clients + multiset{e};
    assert forall h :: h in all ==> h in clients || h in multiset{e};
    assert all[e] == 1;
    hide AllAccounted;
    OneMoreAccounted(refs, deleted, created, e);
  }

  lemma NewListed(lru: seq<Node>, inUse: seq<Node>, inCache: set<Handle>, refs: map<Handle, nat>, e: Handle)
    requires AllListed(lru, inUse, inCache, refs) && e !in refs && e !in inCache
    ensures AllListed(lru, inUse, inCache, refs[e := 1]) && Item(e) !in lru && Item(e) !in inUse
  {
    assert !OnList(lru, e) && !OnList(inUse, e);
  }

  lemma TakeInCounts(refs: map<Handle, nat>, inCache: set<Handle>, clients: multiset<Handle>, created: nat,
      deleted: seq<Handle>, e: Handle)
    requires AllCounted(refs, inCache, clients, multiset{}, created, deleted) && e in refs && e !in inCache
    ensures AllCounted(refs[e := refs[e] + 1], inCache + {e}, clients, multiset{}, created, deleted)
  {
    hide AllAccounted;
    SameKnown(refs, deleted, created, e, refs[e] + 1);
  }

  lemma TakeInListed(lru: seq<Node>, inUse: seq<Node>, inCache: set<Handle>, refs: map<Handle, nat>, e: Handle)
    requires AllListed(lru, inUse, inCache, refs) && e in refs && e !in inCache && refs[e] == 1
    requires Item(e) !in lru && Item(e) !in inUse
    ensures AllListed(lru, inUse + [Item(e)], inCache + {e}, refs[e := refs[e] + 1])
  {
  }

  lemma TableKeys(table: HandleTable)
    requires table.Ok()
    ensures OneEach(table.hashOf, table.contents)
  {
  }

  lemma SwapKeepsOthers(hashOf: Bytes -> nat, contents: set<Handle>, e: Handle, r: Option<Handle>)
    requires IsEntryOf(contents, e.key, r) && e !in contents && OneEach(hashOf, contents)
    ensures r.Some? ==> r.value in contents && r.value != e && r.value.key == e.key
    ensures forall h :: h in contents && (r.Some? ==> h != r.value) ==> h.key != e.key
  {
  }

  lemma EraseCounts(refs: map<Handle, nat>, inCache: set<Handle>, clients: multiset<Handle>, created: nat,
      deleted: seq<Handle>, e: Handle)
    requires AllCounted(refs, inCache, clients, multiset{}, created, deleted) && e in inCache
    ensures e in refs && AllCounted(refs, inCache - {e}, clients, multiset{e}, created, deleted)
  {
    hide AllAccounted;
  }

  lemma HandOut(refs: map<Handle, nat>, inCache: set<Handle>, clients: multiset<Handle>, created: nat,
      deleted: seq<Handle>, e: Handle)
    requires AllCounted(refs, inCache, clients, multiset{e}, created, deleted)
    ensures AllCounted(refs, inCache, clients + multiset{e}, multiset{}, created, deleted)
  {
    hide AllAccounted;
    var all := clients + multiset{e};
    assert forall h :: h in all ==> h in clients || h in multiset{e};
  }

  lemma TakeBack(refs: map<Handle, nat>, inCache: set<Handle>, clients: multiset<Handle>, created: nat,
      deleted: seq<Handle>, e: Handle)
    requires AllCounted(refs, inCache, clients, multiset{}, created, deleted) && e in clients
    ensures AllCounted(refs, inCache, clients - multiset{e}, multiset{e}, created, deleted)
    ensures e in refs && refs[e] == clients[e] + if e in inCache then 1 else 0
  {
    hide AllAccounted;
  }

  lemma EraseLists(lru: seq<Node>, inUse: seq<Node>, inCache: set<Handle>, refs: map<Handle, nat>, e: Handle)
    requires AllListed(lru, inUse, inCache, refs) && e in inCache && e in refs
    ensures OnList(lru, e) || OnList(inUse, e)
    ensures OnList(lru, e) <==> refs[e] == 1
  {
  }

  lemma EraseMoves(lru: seq<Node>, inUse: seq<Node>, inCache: set<Handle>, refs: map<Handle, nat>, e: Handle,
      lru': seq<Node>, inUse': seq<Node>)
    requires AllListed(lru, inUse, inCache, refs)
    requires forall n :: n in lru' <==> n in lru && n != Item(e)
    requires forall n :: n in inUse' <==> n in inUse && n != Item(e)
    ensures AllListed(lru', inUse', inCache - {e}, refs)
  {
  }

  lemma DeletedIsUnlisted(lru: seq<Node>, inUse: seq<Node>, inCache: set<Handle>, refs: map<Handle, nat>, e: Handle)
    requires AllListed(lru, inUse, inCache, refs) && e !in inCache
    ensures AllListed(lru, inUse, inCache, refs - {e})
  {
  }

  lemma WithoutNodes(items: seq<Node>, head: Node, i: nat)
    requires NoRepeats(head, items) && i < |items|
    ensures forall n :: n in Without(items, i) <==> n in items && n != items[i]
  {
    forall n ensures n in Without(items, i) <==> n in items && n != items[i] {
      if n in items && n != items[i] {
        var k :| 0 <= k < |items| && items[k] == n;
        assert k < i ==> Without(items, i)[k] == n;
        assert k > i ==> Without(items, i)[k - 1] == n;
      }
    }
  }
}
