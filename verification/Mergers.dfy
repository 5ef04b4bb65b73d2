// MergingIterator: k sorted children walked as one sorted run, in both
// directions (table/merger.cc).
module Mergers {
  import opened Keys
  import opened Versions
  import opened Cursors

  predicate KeysDiffer(a: InternalKey, b: InternalKey) {
    Less(a, b) || Less(b, a)
  }

  ghost predicate Apart(a: seq<Entry>, b: seq<Entry>) {
    forall x, y :: x in a && y in b ==> KeysDiffer(x.key, y.key)
  }

  ghost predicate Rivals(a: seq<Entry>, b: seq<Entry>) {
    Apart(a, b) || Apart(b, a)
  }

  ghost predicate Mergeable(parts: seq<seq<Entry>>) {
    && (forall i :: 0 <= i < |parts| ==> Sorted(parts[i]))
    && forall i, j :: 0 <= i < j < |parts| ==> Apart(parts[i], parts[j])
  }

  ghost predicate InSome(parts: seq<seq<Entry>>, e: Entry) {
    exists i :: 0 <= i < |parts| && e in parts[i]
  }

  // ----- the specification: the sorted union -----

  ghost function Merge(a: seq<Entry>, b: seq<Entry>): seq<Entry> {
    if a == [] then b
    else if b == [] then a
    else if Less(a[0].key, b[0].key) then [a[0]] + Merge(a[1..], b)
    else [b[0]] + Merge(a, b[1..])
  }

  ghost function Merged(parts: seq<seq<Entry>>): seq<Entry> {
    if parts == [] then [] else Merge(Merged(parts[..|parts| - 1]), parts[|parts| - 1])
  }

  lemma {:induction false} MergeHas(a: seq<Entry>, b: seq<Entry>)
    ensures forall e :: e in Merge(a, b) <==> e in a || e in b
  {
    if a != [] && b != [] {
      if Less(a[0].key, b[0].key) {
        MergeHas(a[1..], b);
        assert a == [a[0]] + a[1..];
      } else {
        MergeHas(a, b[1..]);
        assert b == [b[0]] + b[1..];
      }
    }
  }

  lemma {:induction false} MergeSorted(a: seq<Entry>, b: seq<Entry>)
    requires Sorted(a) && Sorted(b) && Apart(a, b)
    ensures Sorted(Merge(a, b))
  {
    if a != [] && b != [] {
      if Less(a[0].key, b[0].key) {
        MergeSorted(a[1..], b);
        MergeHas(a[1..], b);
        Prepend(a[0], Merge(a[1..], b), a, b);
      } else {
        MergeSorted(a, b[1..]);
        MergeHas(a, b[1..]);
        assert KeysDiffer(a[0].key, b[0].key);
        Prepend(b[0], Merge(a, b[1..]), b, a);
      }
    }
  }

  lemma Prepend(e: Entry, rest: seq<Entry>, a: seq<Entry>, b: seq<Entry>)
    requires Sorted(rest) && Sorted(a) && Sorted(b) && a != [] && e == a[0] && b != [] && Less(e.key, b[0].key)
    requires forall x :: x in rest ==> x in a[1..] || x in b
    ensures Sorted([e] + rest)
  {
    forall j | 0 <= j < |rest| ensures Less(e.key, rest[j].key) {
      assert rest[j] in rest;
    }
  }

  lemma {:induction false} MergedHas(parts: seq<seq<Entry>>)
    ensures forall e :: e in Merged(parts) <==> InSome(parts, e)
  {
    if parts != [] {
      var front := parts[..|parts| - 1];
      MergedHas(front);
      MergeHas(Merged(front), parts[|parts| - 1]);
      forall e ensures InSome(parts, e) <==> InSome(front, e) || e in parts[|parts| - 1] {
        if InSome(front, e) {
          var i :| 0 <= i < |front| && e in front[i];
          assert e in parts[i];
        }
        if InSome(parts, e) && e !in parts[|parts| - 1] {
          var i :| 0 <= i < |parts| && e in parts[i];
          assert e in front[i];
        }
      }
    }
  }

  lemma {:induction false} MergedSorted(parts: seq<seq<Entry>>)
    requires Mergeable(parts)
    ensures Sorted(Merged(parts))
  {
    if parts != [] {
      var front := parts[..|parts| - 1];
      MergedSorted(front);
      MergedHas(front);
      forall x, y | x in Merged(front) && y in parts[|parts| - 1] ensures KeysDiffer(x.key, y.key) {
        assert InSome(front, x);
        var i :| 0 <= i < |front| && x in front[i];
        assert Apart(parts[i], parts[|parts| - 1]);
      }
      MergeSorted(Merged(front), parts[|parts| - 1]);
    }
  }

  // ----- where a child stands relative to a place in the union -----

  // Entries of `es` before r lie before place q of `all`, the others do not.
  ghost predicate IsSplit(es: seq<Entry>, all: seq<Entry>, q: nat, r: nat) {
    && q <= |all| && r <= |es|
    && (forall k :: 0 <= k < r ==> q == |all| || Less(es[k].key, all[q].key))
    && forall k :: r <= k < |es| ==> q < |all| && !Less(es[k].key, all[q].key)
  }

  // Standing on the last entry before place q, or invalid when there is none.
  ghost predicate IsBack(es: seq<Entry>, all: seq<Entry>, q: nat, pos: nat) {
    if pos < |es| then IsSplit(es, all, q, pos + 1) else pos == |es| && IsSplit(es, all, q, 0)
  }

  // `es` is one of the parts of `all`.
  ghost predicate Within(es: seq<Entry>, all: seq<Entry>) {
    Sorted(es) && Sorted(all) && forall e :: e in es ==> e in all
  }

  lemma SplitAtStart(es: seq<Entry>, all: seq<Entry>)
    requires Within(es, all)
    ensures IsSplit(es, all, 0, 0)
  {
    forall k | 0 <= k < |es| ensures 0 < |all| && !Less(es[k].key, all[0].key) {
      assert es[k] in all;
    }
  }

  lemma BackAtEnd(es: seq<Entry>, all: seq<Entry>)
    requires Within(es, all)
    ensures IsBack(es, all, |all|, Last(es))
  {
  }

  lemma SplitAtKey(es: seq<Entry>, all: seq<Entry>, target: InternalKey)
    requires Within(es, all)
    ensures IsSplit(es, all, LowerBound(all, target), LowerBound(es, target))
  {
    var q, r := LowerBound(all, target), LowerBound(es, target);
    forall k | r <= k < |es| ensures q < |all| && !Less(es[k].key, all[q].key) {
      assert es[k] in all;
      var j :| 0 <= j < |all| && all[j] == es[k];
      assert !Less(es[k].key, target);
    }
  }

  lemma LowerBoundOfMember(es: seq<Entry>, i: nat)
    requires Sorted(es) && i < |es|
    ensures LowerBound(es, es[i].key) == i
  {
    var r := LowerBound(es, es[i].key);
    assert !(r < i);
  }

  // The child that holds all[q] stands on it, and no child stands before it.
  lemma SplitShows(es: seq<Entry>, all: seq<Entry>, q: nat, r: nat)
    requires Within(es, all) && IsSplit(es, all, q, r)
    ensures r < |es| ==> q < |all| && (es[r].key == all[q].key || Less(all[q].key, es[r].key))
    ensures q < |all| && all[q] in es ==> r < |es| && es[r] == all[q]
  {
    if r < |es| {
      assert es[r] in all;
      var j :| 0 <= j < |all| && all[j] == es[r];
    }
    if q < |all| && all[q] in es {
      var k :| 0 <= k < |es| && es[k] == all[q];
      assert !(r < k);
    }
  }

  lemma SplitAdvances(es: seq<Entry>, all: seq<Entry>, q: nat, r: nat)
    requires Within(es, all) && IsSplit(es, all, q, r) && q < |all|
    ensures IsSplit(es, all, q + 1, if r < |es| && es[r] == all[q] then r + 1 else r)
  {
    hide Within, Less;
    var r' := if r < |es| && es[r] == all[q] then r + 1 else r;
    if r' < |es| {
      LaterInChild(es, all, q, r, r');
      forall k | r' <= k < |es| ensures !Less(es[k].key, all[q + 1].key) {
        LaterInChild(es, all, q, r, k);
      }
    }
    forall k | 0 <= k < r' ensures q + 1 == |all| || Less(es[k].key, all[q + 1].key) {
      EarlierInChild(es, all, q, r, k);
    }
  }

  // An entry of the child from its place on, other than all[q], is not before
  // the one after all[q].
  lemma LaterInChild(es: seq<Entry>, all: seq<Entry>, q: nat, r: nat, k: nat)
    requires Within(es, all) && IsSplit(es, all, q, r) && q < |all| && r <= k < |es|
    requires r < |es| && es[r] == all[q] ==> r < k
    ensures q + 1 < |all| && !Less(es[k].key, all[q + 1].key)
  {
    SplitShows(es, all, q, r);
    assert es[k] in all;
    var j :| 0 <= j < |all| && all[j] == es[k];
    assert !Less(all[j].key, all[q].key);
    SortedOnce(es, r, k);
    assert all[q] in es ==> es[r] == all[q];
    assert j != q;
    assert q + 1 < j ==> Less(all[q + 1].key, all[j].key);
  }

  lemma SortedOnce(es: seq<Entry>, i: nat, j: nat)
    requires Sorted(es) && i < |es| && j < |es|
    ensures es[i] == es[j] ==> i == j
  {
    assert i < j ==> Less(es[i].key, es[j].key);
    assert j < i ==> Less(es[j].key, es[i].key);
  }

  lemma EarlierInChild(es: seq<Entry>, all: seq<Entry>, q: nat, r: nat, k: nat)
    requires Within(es, all) && IsSplit(es, all, q, r) && q < |all| && k < |es|
    requires k < r || (k == r && es[r] == all[q])
    ensures q + 1 == |all| || Less(es[k].key, all[q + 1].key)
  {
    assert q + 1 < |all| ==> Less(all[q].key, all[q + 1].key);
    assert k < r ==> Less(es[k].key, all[q].key);
  }

  lemma BackShows(es: seq<Entry>, all: seq<Entry>, q: nat, pos: nat)
    requires Within(es, all) && IsBack(es, all, q, pos)
    ensures pos < |es| ==> q > 0 && (es[pos].key == all[q - 1].key || Less(es[pos].key, all[q - 1].key))
    ensures q > 0 && all[q - 1] in es ==> pos < |es| && es[pos] == all[q - 1]
  {
    if pos < |es| {
      assert es[pos] in all;
      var j :| 0 <= j < |all| && all[j] == es[pos];
      assert j < q;
    }
    if q > 0 && all[q - 1] in es {
      var k :| 0 <= k < |es| && es[k] == all[q - 1];
      assert q < |all| ==> Less(all[q - 1].key, all[q].key);
      assert pos < |es| && k < pos ==> Less(es[k].key, es[pos].key);
    }
  }

  lemma BackRetreats(es: seq<Entry>, all: seq<Entry>, q: nat, pos: nat)
    requires Within(es, all) && IsBack(es, all, q, pos) && q > 0
    ensures IsBack(es, all, q - 1, if pos < |es| && es[pos] == all[q - 1] then Before(es, pos) else pos)
  {
    BackShows(es, all, q, pos);
    var r := if pos < |es| then pos + 1 else 0;
    var r' := if pos < |es| && es[pos] == all[q - 1] then pos else r;
    forall k | 0 <= k < r' ensures Less(es[k].key, all[q - 1].key) {
      assert es[k] in all;
      var j :| 0 <= j < |all| && all[j] == es[k];
      assert k < pos ==> Less(es[k].key, es[pos].key);
      assert j < q;
      assert es[k] != all[q - 1];
    }
    forall k | r' <= k < |es| ensures !Less(es[k].key, all[q - 1].key) {
      if k >= r {
        assert q < |all| ==> Less(all[q - 1].key, all[q].key);
      }
    }
    assert IsSplit(es, all, q - 1, r');
  }

  // Where a child stands after it is re-positioned before the key at place p.
  lemma SplitStepsBack(es: seq<Entry>, all: seq<Entry>, p: nat, r: nat)
    requires Within(es, all) && p < |all| && IsSplit(es, all, p, r)
    ensures IsBack(es, all, p, if r < |es| then Before(es, r) else Last(es))
  {
  }

  ghost predicate AreParts(cs: seq<EntryIterator>, parts: seq<seq<Entry>>) {
    |cs| == |parts| && forall i :: 0 <= i < |cs| ==> cs[i].entries == parts[i]
  }

  class MergingIterator {
    const children: seq<EntryIterator>
    var current: Option<nat>
    var direction: Direction
    ghost const merged: seq<Entry>
    ghost var pos: nat

    ghost predicate Structure()
      reads children
    {
      Shape() && forall i :: 0 <= i < |children| ==> children[i].Ok()
    }

    // The part of the structure no step changes.
    ghost predicate Shape() {
      && (forall i :: 0 <= i < |children| ==> Within(children[i].entries, merged))
      && (forall i, j :: 0 <= i < j < |children| ==>
        children[i] != children[j] && Apart(children[i].entries, children[j].entries))
      && Sorted(merged)
      && forall q :: 0 <= q < |merged| ==> exists i :: 0 <= i < |children| && merged[q] in children[i].entries
    }

    ghost predicate AllForward(q: nat)
      reads children
    {
      forall i :: 0 <= i < |children| ==> IsSplit(children[i].entries, merged, q, children[i].pos)
    }

    ghost predicate AllBack(q: nat)
      reads children
    {
      forall i :: 0 <= i < |children| ==> IsBack(children[i].entries, merged, q, children[i].pos)
    }

    // The cursor is at place `pos` of the union.
    ghost predicate Ok()
      reads this, children
    {
      Sorted(merged) && pos <= |merged| && (current.Some? <==> pos < |merged|) && Placed()
    }

    ghost predicate Placed()
      reads this, children
      requires pos <= |merged| && (current.Some? ==> pos < |merged|)
    {
      && Structure()
      && (current.Some? ==>
            && current.value < |children|
            && children[current.value].Valid()
            && children[current.value].entries[children[current.value].pos] == merged[pos]
            && if direction == Forward then AllForward(pos) else AllBack(pos + 1))
    }

    constructor (cs: seq<EntryIterator>)
      requires forall i :: 0 <= i < |cs| ==> cs[i].Ok()
      requires forall i, j :: 0 <= i < j < |cs| ==> cs[i] != cs[j] && Apart(cs[i].entries, cs[j].entries)
      ensures Ok() && children == cs && !Valid()
      ensures Sorted(merged)
      ensures forall e :: e in merged <==> exists i :: 0 <= i < |cs| && e in cs[i].entries
      ensures forall parts: seq<seq<Entry>> :: AreParts(cs, parts) ==> merged == Merged(parts)
    {
      children, current, direction := cs, None, Forward;
      ghost var parts := seq(|cs|, i requires 0 <= i < |cs| => cs[i].entries);
      MergedHas(parts);
      MergedSorted(parts);
      merged := Merged(parts);
      assert forall ps: seq<seq<Entry>> :: AreParts(cs, ps) ==> ps == parts;
      pos := |Merged(parts)|;
      new;
      forall e ensures e in merged <==> exists i :: 0 <= i < |cs| && e in cs[i].entries {
        if e in merged {
          assert InSome(parts, e);
          var i :| 0 <= i < |parts| && e in parts[i];
          assert e in cs[i].entries;
        }
        if i :| 0 <= i < |cs| && e in cs[i].entries {
          assert e in parts[i];
        }
      }
      forall q | 0 <= q < |merged|
        ensures exists i :: 0 <= i < |children| && merged[q] in children[i].entries
      {
        assert merged[q] in merged;
      }
    }

    predicate Valid()
      reads this
    {
      current.Some?
    }

    function Key(): InternalKey
      requires Ok() && Valid()
      reads this, children
      ensures Key() == merged[pos].key
    {
      children[current.value].Key()
    }

    function Value(): Bytes
      requires Ok() && Valid()
      reads this, children
      ensures Value() == merged[pos].value
    {
      children[current.value].Value()
    }

    method FindSmallest(ghost q: nat)
      requires Structure() && AllForward(q) && q <= |merged| && direction == Forward
      modifies this`current, this`pos
      ensures Ok() && pos == q
    {
      hide Sorted, Within, IsSplit, IsBack, Apart;
      forall i | 0 <= i < |children|
        ensures children[i].Valid() ==>
          q < |merged| && (children[i].Key() == merged[q].key || Less(merged[q].key, children[i].Key()))
        ensures q < |merged| && merged[q] in children[i].entries ==>
          children[i].Valid() && children[i].entries[children[i].pos] == merged[q]
      {
        SplitShows(children[i].entries, merged, q, children[i].pos);
      }
      var smallest: Option<nat> := None;
      for i := 0 to |children|
        invariant smallest.Some? ==> smallest.value < i && children[smallest.value].Valid()
        invariant forall k :: 0 <= k < i && children[k].Valid() ==>
          smallest.Some? && !Less(children[k].Key(), children[smallest.value].Key())
      {
        var child := children[i];
        if child.Valid() {
          if smallest == None {
            smallest := Some(i);
          } else if Less(child.Key(), children[smallest.value].Key()) {
            smallest := Some(i);
          }
        }
      }
      current, pos := smallest, q;
      if q < |merged| {
        ghost var owner :| 0 <= owner < |children| && merged[q] in children[owner].entries;
        assert children[owner].Valid() && children[owner].Key() == merged[q].key;
        assert children[smallest.value].Key() == merged[q].key;
        SameKeySameEntry(children[smallest.value].entries, merged, children[smallest.value].pos, q);
      }
    }

    method FindLargest(ghost q: nat)
      requires Structure() && AllBack(q) && q <= |merged| && direction == Reverse
      modifies this`current, this`pos
      ensures Ok() && pos == if q > 0 then q - 1 else |merged|
    {
      hide Sorted, Within, IsSplit, IsBack, Apart;
      forall i | 0 <= i < |children|
        ensures children[i].Valid() ==>
          q > 0 && (children[i].Key() == merged[q - 1].key || Less(children[i].Key(), merged[q - 1].key))
        ensures q > 0 && merged[q - 1] in children[i].entries ==>
          children[i].Valid() && children[i].entries[children[i].pos] == merged[q - 1]
      {
        BackShows(children[i].entries, merged, q, children[i].pos);
      }
      var largest: Option<nat> := None;
      for i := |children| downto 0
        invariant largest.Some? ==> i <= largest.value < |children| && children[largest.value].Valid()
        invariant forall k :: i <= k < |children| && children[k].Valid() ==>
          largest.Some? && !Less(children[largest.value].Key(), children[k].Key())
      {
        var child := children[i];
        if child.Valid() {
          if largest == None {
            largest := Some(i);
          } else if Less(children[largest.value].Key(), child.Key()) {
            largest := Some(i);
          }
        }
      }
      current, pos := largest, if q > 0 then q - 1 else |merged|;
      if q > 0 {
        ghost var owner :| 0 <= owner < |children| && merged[q - 1] in children[owner].entries;
        assert children[owner].Valid() && children[owner].Key() == merged[q - 1].key;
        assert children[largest.value].Key() == merged[q - 1].key;
        SameKeySameEntry(children[largest.value].entries, merged, children[largest.value].pos, q - 1);
      }
    }

    method SeekToFirst()
      requires Ok()
      modifies this, children
      ensures Ok() && pos == 0
    {
      for i := 0 to |children|
        invariant Structure()
        invariant forall k :: 0 <= k < i ==> children[k].pos == 0
      {
        children[i].SeekToFirst();
      }
      forall i | 0 <= i < |children| ensures IsSplit(children[i].entries, merged, 0, children[i].pos) {
        SplitAtStart(children[i].entries, merged);
      }
      direction := Forward;
      FindSmallest(0);
    }

    method SeekToLast()
      requires Ok()
      modifies this, children
      ensures Ok() && pos == Last(merged)
    {
      for i := 0 to |children|
        invariant Structure()
        invariant forall k :: 0 <= k < i ==> children[k].pos == Last(children[k].entries)
      {
        children[i].SeekToLast();
      }
      forall i | 0 <= i < |children| ensures IsBack(children[i].entries, merged, |merged|, children[i].pos) {
        BackAtEnd(children[i].entries, merged);
      }
      direction := Reverse;
      FindLargest(|merged|);
    }

    method Seek(target: InternalKey)
      requires Ok()
      modifies this, children
      ensures Ok() && pos == LowerBound(merged, target)
    {
      for i := 0 to |children|
        invariant Structure()
        invariant forall k :: 0 <= k < i ==> children[k].pos == LowerBound(children[k].entries, target)
      {
        children[i].Seek(target);
      }
      forall i | 0 <= i < |children|
        ensures IsSplit(children[i].entries, merged, LowerBound(merged, target), children[i].pos)
      {
        SplitAtKey(children[i].entries, merged, target);
      }
      direction := Forward;
      FindSmallest(LowerBound(merged, target));
    }

    method Next()
      requires Ok() && Valid()
      modifies this, children
      ensures Ok() && pos == old(pos) + 1
    {
      hide Shape, IsSplit, IsBack, AllForward, AllBack;
      ghost var p := pos;
      if direction != Forward {
        SwitchForward();
      }
      StepForward(p);
      FindSmallest(p + 1);
    }

    // The direction switch in Next: every other child is put after the key.
    method SwitchForward()
      requires Ok() && Valid() && direction == Reverse
      modifies this`direction, children
      ensures Ok() && Valid() && direction == Forward
    {
      hide Shape, Sorted, Within, IsSplit, IsBack, Rivals, LowerBound;
      var c, key := current.value, Key();
      ghost var p, at := pos, children[c].pos;
      ChildFacts(c);
      OwnPlace(children[c].entries, merged, at, p);
      for i := 0 to |children|
        invariant Structure() && current == Some(c) && pos == p && direction == Reverse
        invariant children[c].pos == at
        invariant forall k :: 0 <= k < i && k != c ==> IsSplit(children[k].entries, merged, p, children[k].pos)
      {
        if i != c {
          PutAfter(children[i], key, children[c].entries, at, merged, p);
        }
      }
      direction := Forward;
    }

    lemma ChildFacts(c: nat)
      requires Shape() && c < |children|
      ensures forall i :: 0 <= i < |children| ==> Within(children[i].entries, merged)
      ensures forall i, j :: 0 <= i < |children| && 0 <= j < |children| && i != j ==> children[i] != children[j]
      ensures forall i :: 0 <= i < |children| && i != c ==>
        Rivals(children[i].entries, children[c].entries)
    {
    }

    method StepForward(ghost p: nat)
      requires Ok() && Valid() && direction == Forward && pos == p
      modifies children
      ensures Structure() && AllForward(p + 1)
    {
      hide Shape, Sorted, Within, IsSplit, IsBack, Rivals;
      var c := current.value;
      ghost var at := children[c].pos;
      ChildFacts(c);
      SplitAdvances(children[c].entries, merged, p, at);
      forall i | 0 <= i < |children| && i != c
        ensures IsSplit(children[i].entries, merged, p + 1, children[i].pos)
      {
        OtherAdvances(children[i].entries, children[c].entries, merged, at, p, children[i].pos);
      }
      children[c].Next();
    }

    method Prev()
      requires Ok() && Valid()
      modifies this, children
      ensures Ok() && pos == Before(merged, old(pos))
    {
      hide Shape, IsSplit, IsBack, AllForward, AllBack;
      ghost var p := pos;
      if direction != Reverse {
        SwitchReverse();
      }
      StepBack(p);
      FindLargest(p);
    }

    // The direction switch in Prev: every other child is put before the key.
    method SwitchReverse()
      requires Ok() && Valid() && direction == Forward
      modifies this`direction, children
      ensures Ok() && Valid() && direction == Reverse && pos == old(pos)
    {
      hide Shape, Sorted, Within, IsSplit, IsBack, Rivals, LowerBound;
      var c, key := current.value, Key();
      ghost var p, at := pos, children[c].pos;
      ChildFacts(c);
      OwnBack(children[c].entries, merged, at, p);
      for i := 0 to |children|
        invariant Structure() && current == Some(c) && pos == p && direction == Forward
        invariant children[c].pos == at
        invariant forall k :: 0 <= k < i && k != c ==> IsBack(children[k].entries, merged, p + 1, children[k].pos)
      {
        if i != c {
          PutBefore(children[i], key, children[c].entries, at, merged, p);
        }
      }
      direction := Reverse;
    }

    method StepBack(ghost p: nat)
      requires Ok() && Valid() && direction == Reverse && pos == p
      modifies children
      ensures Structure() && AllBack(p)
    {
      hide Shape, Sorted, Within, IsSplit, IsBack, Rivals, Before;
      var c := current.value;
      ghost var at := children[c].pos;
      ChildFacts(c);
      BackRetreats(children[c].entries, merged, p + 1, at);
      forall i | 0 <= i < |children| && i != c
        ensures IsBack(children[i].entries, merged, p, children[i].pos)
      {
        OtherRetreats(children[i].entries, children[c].entries, merged, at, p, children[i].pos);
      }
      children[c].Prev();
    }
  }

  // The loop of a compaction: everything the children hold, in order.
  method Drain(m: MergingIterator) returns (es: seq<Entry>)
    requires m.Ok()
    modifies m, m.children
    ensures m.Ok() && es == m.merged
  {
    hide MergingIterator.Structure, MergingIterator.AllForward, MergingIterator.AllBack;
    m.SeekToFirst();
    es := [];
    while m.Valid()
      invariant m.Ok() && es == m.merged[..m.pos]
      decreases |m.merged| - m.pos
    {
      es := es + [Entry(m.Key(), m.Value())];
      m.Next();
    }
  }

  method PutAfter(child: EntryIterator, key: InternalKey, ghost owner: seq<Entry>, ghost at: nat,
      ghost all: seq<Entry>, ghost p: nat)
    requires child.Ok() && Within(child.entries, all) && p < |all| && key == all[p].key
    requires at < |owner| && owner[at] == all[p]
    modifies child
    ensures child.Ok()
    ensures Rivals(child.entries, owner) ==> IsSplit(child.entries, all, p, child.pos)
  {
    child.Seek(key);
    SeekPlace(child.entries, all, p);
    ghost var r := child.pos;
    if child.Valid() && !KeysDiffer(key, child.Key()) {
      child.Next();
    }
    if Rivals(child.entries, owner) && r < |child.entries| {
      NotOwner(child.entries, owner, at, r);
    }
  }

  method PutBefore(child: EntryIterator, key: InternalKey, ghost owner: seq<Entry>, ghost at: nat,
      ghost all: seq<Entry>, ghost p: nat)
    requires child.Ok() && Within(child.entries, all) && p < |all| && key == all[p].key
    requires at < |owner| && owner[at] == all[p] && Rivals(child.entries, owner)
    modifies child
    ensures child.Ok() && IsBack(child.entries, all, p + 1, child.pos)
  {
    child.Seek(key);
    SeekPlace(child.entries, all, p);
    SplitStepsBack(child.entries, all, p, child.pos);
    if child.Valid() {
      child.Prev();
    } else {
      child.SeekToLast();
    }
    OtherBack(child.entries, owner, all, at, p, child.pos);
  }

  lemma OtherAdvances(es: seq<Entry>, owner: seq<Entry>, all: seq<Entry>, at: nat, p: nat, r: nat)
    requires Within(es, all) && p < |all| && IsSplit(es, all, p, r)
    requires at < |owner| && owner[at] == all[p] && Rivals(es, owner)
    ensures IsSplit(es, all, p + 1, r)
  {
    SplitAdvances(es, all, p, r);
    if r < |es| {
      NotOwner(es, owner, at, r);
    }
  }

  lemma OtherRetreats(es: seq<Entry>, owner: seq<Entry>, all: seq<Entry>, at: nat, p: nat, pos: nat)
    requires Within(es, all) && p < |all| && IsBack(es, all, p + 1, pos)
    requires at < |owner| && owner[at] == all[p] && Rivals(es, owner)
    ensures IsBack(es, all, p, pos)
  {
    BackRetreats(es, all, p + 1, pos);
    if pos < |es| {
      NotOwner(es, owner, at, pos);
    }
  }

  lemma SameKeySameEntry(es: seq<Entry>, all: seq<Entry>, r: nat, q: nat)
    requires Within(es, all) && r < |es| && q < |all| && es[r].key == all[q].key
    ensures es[r] == all[q]
  {
    assert es[r] in all;
    var j :| 0 <= j < |all| && all[j] == es[r];
  }

  lemma NotOwner(es: seq<Entry>, owner: seq<Entry>, at: nat, r: nat)
    requires Rivals(es, owner)
    requires r < |es| && at < |owner|
    ensures KeysDiffer(owner[at].key, es[r].key)
  {
    assert es[r] in es && owner[at] in owner;
  }

  lemma SeekPlace(es: seq<Entry>, all: seq<Entry>, p: nat)
    requires Within(es, all) && p < |all|
    ensures IsSplit(es, all, p, LowerBound(es, all[p].key))
  {
    SplitAtKey(es, all, all[p].key);
    LowerBoundOfMember(all, p);
  }

  lemma OwnPlace(es: seq<Entry>, all: seq<Entry>, at: nat, p: nat)
    requires Within(es, all) && p < |all| && at < |es| && es[at] == all[p]
    ensures IsSplit(es, all, p, at)
  {
    SeekPlace(es, all, p);
    LowerBoundOfMember(es, at);
  }

  lemma OwnBack(es: seq<Entry>, all: seq<Entry>, at: nat, p: nat)
    requires Within(es, all) && p < |all| && at < |es| && es[at] == all[p]
    ensures IsBack(es, all, p + 1, at)
  {
    OwnPlace(es, all, at, p);
    SplitAdvances(es, all, p, at);
  }

  // Standing before place p is standing before place p + 1 for a child that
  // does not hold the entry at p.
  lemma OtherBack(es: seq<Entry>, owner: seq<Entry>, all: seq<Entry>, at: nat, p: nat, pos: nat)
    requires Within(es, all) && p < |all| && IsBack(es, all, p, pos)
    requires at < |owner| && owner[at] == all[p] && Rivals(es, owner)
    ensures IsBack(es, all, p + 1, pos)
  {
    OtherAdvances(es, owner, all, at, p, if pos < |es| then pos + 1 else 0);
  }
}
