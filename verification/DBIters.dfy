// DBIter: the user's view of the internal entries at one snapshot, in both
// directions, over the merging iterator of everything stored (db/db_iter.cc).
module DBIters {
  import opened Keys
  import opened Versions
  import opened Cursors
  import opened Mergers

  // Entry i is what a reader at `s` gets for its user key, and it is a value.
  ghost predicate Yields(es: seq<Entry>, s: nat, i: nat)
    requires i < |es|
  {
    && es[i].key.sn <= s && es[i].key.kind == Value
    && forall j :: 0 <= j < i && es[j].key.user == es[i].key.user ==> es[j].key.sn > s
  }

  // The first yielding entry at or after position i, else |es|.
  ghost predicate IsNextYield(es: seq<Entry>, s: nat, i: nat, r: nat) {
    && i <= r <= |es|
    && (forall j :: i <= j < r ==> !Yields(es, s, j))
    && (r < |es| ==> Yields(es, s, r))
  }

  // The last yielding entry before position i, else |es|.
  ghost predicate IsPrevYield(es: seq<Entry>, s: nat, i: nat, r: nat)
    requires i <= |es|
  {
    if r < i then Yields(es, s, r) && forall j :: r < j < i ==> !Yields(es, s, j)
    else r == |es| && forall j :: 0 <= j < i ==> !Yields(es, s, j)
  }

  // The cursor's positions are exactly the user keys with a value to read, each
  // with that value, in user-key order.
  lemma YieldsAreReads(es: seq<Entry>, s: nat, u: UserKey)
    requires Sorted(es) && Distinct(ToSet(es))
    ensures Read(ToSet(es), u, s).Some? <==> exists i :: 0 <= i < |es| && es[i].key.user == u && Yields(es, s, i)
    ensures forall i :: 0 <= i < |es| && es[i].key.user == u && Yields(es, s, i) ==>
      Read(ToSet(es), u, s) == Some(es[i].value)
    ensures forall i, j :: 0 <= i < j < |es| && Yields(es, s, i) && Yields(es, s, j) ==> es[i].key.user < es[j].key.user
  {
    forall i, j | 0 <= i < j < |es| && Yields(es, s, i) && Yields(es, s, j) ensures es[i].key.user < es[j].key.user {
      assert Less(es[i].key, es[j].key);
    }
    hide Sorted, Distinct, Yields, Read;
    forall i | 0 <= i < |es| && es[i].key.user == u && Yields(es, s, i)
      ensures Read(ToSet(es), u, s) == Some(es[i].value)
    {
      YieldIsRead(es, s, i);
    }
    if Read(ToSet(es), u, s).Some? {
      var i := ReadIsYield(es, s, u);
    }
  }

  lemma YieldIsRead(es: seq<Entry>, s: nat, i: nat)
    requires Sorted(es) && Distinct(ToSet(es)) && i < |es| && Yields(es, s, i)
    ensures Read(ToSet(es), es[i].key.user, s) == Some(es[i].value)
  {
    assert IsNewest(ToSet(es), es[i].key.user, s, es[i]);
    NewestIs(ToSet(es), es[i].key.user, s, es[i]);
  }

  lemma ReadIsYield(es: seq<Entry>, s: nat, u: UserKey) returns (i: nat)
    requires Sorted(es) && Distinct(ToSet(es)) && Read(ToSet(es), u, s).Some?
    ensures i < |es| && es[i].key.user == u && Yields(es, s, i)
  {
    var e := Newest(ToSet(es), u, s).value;
    assert IsNewest(ToSet(es), u, s, e);
    i :| 0 <= i < |es| && es[i] == e;
    forall j | 0 <= j < i && es[j].key.user == u ensures es[j].key.sn > s {
      assert Less(es[j].key, es[i].key);
      assert es[j] in ToSet(es);
      if es[j].key.sn <= s { assert Visible(ToSet(es), u, s, es[j]); }
    }
  }

  class DBIter {
    const iter: MergingIterator
    const sequence: Sequence
    var direction: Direction
    var valid: bool
    var savedKey: Option<UserKey>
    var savedValue: Bytes
    ghost var at: nat               // the entry yielded, or |entries|

    ghost predicate Ok()
      reads this, iter, iter.children
    {
      && iter.Ok()
      && at <= |iter.merged|
      && (valid <==> at < |iter.merged|)
      && (valid ==> Yields(iter.merged, sequence, at))
      && (valid && direction == Forward ==> iter.pos == at)
      && (valid && direction == Reverse ==>
            && savedKey == Some(iter.merged[at].key.user)
            && savedValue == iter.merged[at].value
            && JustBefore(iter.merged, sequence, at, iter.pos))
    }

    constructor (it: MergingIterator, s: Sequence)
      requires it.Ok()
      ensures Ok() && iter == it && sequence == s && !valid
    {
      hide MergingIterator.Placed;
      iter, sequence := it, s;
      direction, valid, savedKey, savedValue := Forward, false, None, [];
      at := |it.merged|;
    }

    function Key(): UserKey
      requires Ok() && valid
      reads this, iter, iter.children
      ensures Key() == iter.merged[at].key.user
    {
      if direction == Forward then iter.Key().user else savedKey.value
    }

    function Value(): Bytes
      requires Ok() && valid
      reads this, iter, iter.children
      ensures Value() == iter.merged[at].value
    {
      if direction == Forward then iter.Value() else savedValue
    }

    // Moves forward to the next entry to yield; with `skipping`, past every
    // entry whose user key is at or before the saved key.
    method FindNextUserEntry(skipping: bool)
      requires iter.Ok() && iter.Valid() && direction == Forward
      requires skipping ==> savedKey.Some?
      requires Passed(iter.merged, sequence, iter.pos, if skipping then savedKey else None)
      modifies this`valid, this`savedKey, this`at, iter, iter.children
      ensures Ok()
      ensures NextBeyond(iter.merged, sequence, old(iter.pos), if skipping then old(savedKey) else None, at)
    {
      hide MergingIterator.Placed, Passed, Yields, Scanning, NextBeyond, Sorted, JustBefore;
      ghost var first := iter.pos;
      var skip := if skipping then savedKey else None;
      ghost var skip0 := skip;
      ScanStart(iter.merged, sequence, first, skip);
      while true
        invariant iter.Ok() && iter.Valid()
        invariant Scanning(iter.merged, sequence, first, iter.pos, skip0, skip)
        decreases |iter.merged| - iter.pos
      {
        var ikey := iter.Key();
        ghost var i, was := iter.pos, skip;
        if ikey.sn <= sequence {
          if ikey.kind == Deletion {
            skip := Some(ikey.user);
          } else if skip.Some? && ikey.user <= skip.value {
            // Entry hidden.
          } else {
            ScanFinds(iter.merged, sequence, first, i, skip0, skip);
            valid, savedKey := true, None;
            at := iter.pos;
            return;
          }
        }
        ScanStep(iter.merged, sequence, first, i, skip0, was);
        iter.Next();
        if !iter.Valid() {
          break;
        }
      }
      ScanEnds(iter.merged, sequence, first, skip0, skip);
      savedKey, valid := None, false;
      at := |iter.merged|;
    }

    // Moves back to the last entry to yield at or before the position.
    method FindPrevUserEntry()
      requires iter.Ok() && direction == Reverse
      modifies this`valid, this`savedKey, this`savedValue, this`direction, this`at, iter, iter.children
      ensures Ok()
      ensures IsPrevYield(iter.merged, sequence, if old(iter.Valid()) then old(iter.pos) + 1 else 0, at)
    {
      hide MergingIterator.Placed, MergingIterator.Key, MergingIterator.Value, Yields, Sorted, IsPrevYield, JustBefore,
        Back, Backing;
      var valueType := Deletion;
      ghost var last: nat := |iter.merged|;
      ghost var end := if iter.Valid() then iter.pos + 1 else 0;
      BackStart(iter.merged, sequence, end);
      if iter.Valid() {
        while true
          invariant iter.Ok() && iter.Valid() && iter.pos < end && direction == Reverse
          invariant Backing(iter.merged, sequence, end, iter.pos + 1, last, valueType == Kind.Value)
          invariant valueType == Kind.Value ==>
            last < |iter.merged| && savedKey == Some(iter.merged[last].key.user) &&
            savedValue == iter.merged[last].value
          decreases iter.pos
        {
          var ikey := iter.Key();
          ghost var i := iter.pos;
          if ikey.sn <= sequence {
            if valueType != Deletion && ikey.user < savedKey.value {
              BackFinds(iter.merged, sequence, end, i + 1, last);
              break;
            }
            BackTakes(iter.merged, sequence, end, i, last, valueType == Kind.Value);
            last := i;
            valueType := ikey.kind;
            if valueType == Deletion {
              savedKey, savedValue := None, [];
            } else {
              savedKey, savedValue := Some(ikey.user), iter.Value();
            }
          } else {
            BackSkips(iter.merged, sequence, end, i, last, valueType == Kind.Value);
          }
          iter.Prev();
          if !iter.Valid() {
            assert i == 0;
            if valueType == Kind.Value {
              BackFinds(iter.merged, sequence, end, 0, last);
            }
            break;
          }
        }
      }
      if valueType == Deletion {
        BackEnds(iter.merged, sequence, end, last);
        valid, savedKey, savedValue := false, None, [];
        direction := Forward;
        at := |iter.merged|;
      } else {
        valid := true;
        at := last;
      }
    }

    method Next()
      requires Ok() && valid
      modifies this, iter, iter.children
      ensures Ok() && IsNextYield(iter.merged, sequence, old(at) + 1, at)
    {
      hide MergingIterator.Placed;
      if direction == Reverse {
        direction := Forward;
        // Just before the entries of the current key: step into them.
        if !iter.Valid() {
          iter.SeekToFirst();
        } else {
          iter.Next();
        }
      } else {
        savedKey := Some(iter.Key().user);
        iter.Next();
      }
      if !iter.Valid() {
        valid, savedKey := false, None;
        at := |iter.merged|;
        return;
      }
      ghost var was, skip := at, savedKey;
      PassedCurrent(iter.merged, sequence, was, iter.pos);
      ghost var first := iter.pos;
      FindNextUserEntry(true);
      BeyondIsNext(iter.merged, sequence, was, first, at);
    }

    method Prev()
      requires Ok() && valid
      modifies this, iter, iter.children
      ensures Ok() && IsPrevYield(iter.merged, sequence, old(at), at)
    {
      hide MergingIterator.Placed;
      ghost var was := at;
      if direction == Forward {
        // Scan back until the user key changes.
        savedKey := Some(iter.Key().user);
        while true
          invariant iter.Ok() && iter.Valid() && iter.pos <= was && direction == Forward
          invariant savedKey == Some(iter.merged[was].key.user)
          invariant forall j :: iter.pos <= j <= was ==> iter.merged[j].key.user == iter.merged[was].key.user
          decreases iter.pos
        {
          iter.Prev();
          if !iter.Valid() {
            valid, savedKey, savedValue := false, None, [];
            at := |iter.merged|;
            NoYieldAmong(iter.merged, sequence, was, 0);
            return;
          }
          if iter.Key().user < savedKey.value {
            break;
          }
        }
        direction := Reverse;
        NoYieldAmong(iter.merged, sequence, was, iter.pos + 1);
      }
      ghost var end := if iter.Valid() then iter.pos + 1 else 0;
      FindPrevUserEntry();
      PrevFromEarlier(iter.merged, sequence, end, was, at);
    }

    method Seek(target: UserKey)
      requires Ok()
      modifies this, iter, iter.children
      ensures Ok() && NextAtKey(iter.merged, sequence, target, at)
    {
      hide MergingIterator.Placed;
      direction, savedKey, savedValue := Forward, None, [];
      iter.Seek(SeekKey(target, sequence));
      if iter.Valid() {
        ghost var first := iter.pos;
        FindNextUserEntry(false);
        SeekIsNext(iter.merged, sequence, target, first, at);
      } else {
        valid := false;
        at := |iter.merged|;
      }
    }

    method SeekToFirst()
      requires Ok()
      modifies this, iter, iter.children
      ensures Ok() && IsNextYield(iter.merged, sequence, 0, at)
    {
      hide MergingIterator.Placed;
      direction, savedValue := Forward, [];
      iter.SeekToFirst();
      if iter.Valid() {
        FindNextUserEntry(false);
      } else {
        valid := false;
        at := |iter.merged|;
      }
    }

    method SeekToLast()
      requires Ok()
      modifies this, iter, iter.children
      ensures Ok() && IsPrevYield(iter.merged, sequence, |iter.merged|, at)
    {
      hide MergingIterator.Placed;
      direction, savedValue := Reverse, [];
      iter.SeekToLast();
      FindPrevUserEntry();
    }
  }

  // The first yielding entry whose user key is at or after `target`.
  ghost predicate NextAtKey(es: seq<Entry>, s: nat, target: UserKey, r: nat) {
    && r <= |es|
    && (r < |es| ==> Yields(es, s, r) && es[r].key.user >= target)
    && forall j :: 0 <= j < r && es[j].key.user >= target ==> !Yields(es, s, j)
  }

  // The first yielding entry from position i on whose user key is past `skip`.
  ghost predicate NextBeyond(es: seq<Entry>, s: nat, i: nat, skip: Option<UserKey>, r: nat) {
    && i <= r <= |es|
    && (forall j :: i <= j < r ==> !Yields(es, s, j) || (skip.Some? && es[j].key.user <= skip.value))
    && (r < |es| ==> Yields(es, s, r) && (skip.Some? ==> es[r].key.user > skip.value))
  }

  // Moving back has stopped at `pos` (|es| when it ran off the front): nothing
  // between there and the yielded entry is visible.
  ghost predicate JustBefore(es: seq<Entry>, s: nat, at: nat, pos: nat)
    requires at < |es|
  {
    if pos < at then
      && es[pos].key.sn <= s && es[pos].key.user < es[at].key.user
      && forall j :: pos < j < at ==> es[j].key.sn > s
    else
      pos == |es| && forall j :: 0 <= j < at ==> es[j].key.sn > s
  }

  // What is behind position i no longer decides what lies ahead, apart from
  // user keys up to `skip`; and what lies ahead is not before `skip`.
  ghost predicate Passed(es: seq<Entry>, s: nat, i: nat, skip: Option<UserKey>) {
    && i <= |es|
    && (skip.Some? ==> forall k :: i <= k < |es| && es[k].key.sn <= s ==> skip.value <= es[k].key.user)
    && forall j, k :: 0 <= j < i <= k < |es| && es[j].key.user == es[k].key.user && es[j].key.sn <= s ==>
         skip.Some? && es[k].key.user <= skip.value
  }

  ghost predicate Scanning(es: seq<Entry>, s: nat, first: nat, i: nat, skip0: Option<UserKey>, skip: Option<UserKey>) {
    && first <= i <= |es|
    && Passed(es, s, i, skip)
    && (skip0.Some? ==> skip.Some? && skip0.value <= skip.value)
    && (skip.Some? && skip != skip0 ==>
          exists d :: 0 <= d < i && es[d].key.user == skip.value && es[d].key.sn <= s)
    && forall j :: first <= j < i ==> !Yields(es, s, j) || (skip0.Some? && es[j].key.user <= skip0.value)
  }

  function SkipAfter(e: Entry, s: nat, skip: Option<UserKey>): Option<UserKey> {
    if e.key.sn <= s && e.key.kind == Deletion then Some(e.key.user) else skip
  }

  lemma PassedStep(es: seq<Entry>, s: nat, i: nat, skip: Option<UserKey>)
    requires Sorted(es) && i < |es| && Passed(es, s, i, skip)
    requires es[i].key.sn <= s && es[i].key.kind == Value ==> skip.Some? && es[i].key.user <= skip.value
    ensures Passed(es, s, i + 1, SkipAfter(es[i], s, skip))
  {
  }

  lemma ScanStep(es: seq<Entry>, s: nat, first: nat, i: nat, skip0: Option<UserKey>, skip: Option<UserKey>)
    requires Sorted(es) && i < |es| && Scanning(es, s, first, i, skip0, skip)
    requires es[i].key.sn <= s && es[i].key.kind == Value ==> skip.Some? && es[i].key.user <= skip.value
    ensures Scanning(es, s, first, i + 1, skip0, SkipAfter(es[i], s, skip))
  {
    PassedStep(es, s, i, skip);
  }

  lemma ScanFinds(es: seq<Entry>, s: nat, first: nat, i: nat, skip0: Option<UserKey>, skip: Option<UserKey>)
    requires Sorted(es) && i < |es| && Scanning(es, s, first, i, skip0, skip)
    requires es[i].key.sn <= s && es[i].key.kind == Value && !(skip.Some? && es[i].key.user <= skip.value)
    ensures Yields(es, s, i) && NextBeyond(es, s, first, skip0, i)
  {
  }

  lemma ScanStart(es: seq<Entry>, s: nat, first: nat, skip: Option<UserKey>)
    requires Passed(es, s, first, skip)
    ensures Scanning(es, s, first, first, skip, skip)
  {
  }

  lemma ScanEnds(es: seq<Entry>, s: nat, first: nat, skip0: Option<UserKey>, skip: Option<UserKey>)
    requires Scanning(es, s, first, |es|, skip0, skip)
    ensures NextBeyond(es, s, first, skip0, |es|)
  {
  }

  lemma PassedCurrent(es: seq<Entry>, s: nat, at: nat, pos: nat)
    requires Sorted(es) && at < |es| && Yields(es, s, at)
    requires pos == at + 1 || (pos <= at && forall j :: pos <= j < at ==> es[j].key.sn > s)
    requires pos <= at && pos > 0 ==> es[pos - 1].key.user < es[at].key.user
    ensures Passed(es, s, pos, Some(es[at].key.user))
  {
  }

  lemma BeyondIsNext(es: seq<Entry>, s: nat, at: nat, first: nat, r: nat)
    requires Sorted(es) && at < |es| && first <= at + 1 && Yields(es, s, at)
    requires NextBeyond(es, s, first, Some(es[at].key.user), r)
    ensures IsNextYield(es, s, at + 1, r)
  {
    forall j | at + 1 <= j < r ensures !Yields(es, s, j) {
      assert Less(es[at].key, es[j].key);
    }
  }

  lemma SeekIsNext(es: seq<Entry>, s: Sequence, target: UserKey, first: nat, r: nat)
    requires Sorted(es) && first == LowerBound(es, SeekKey(target, s))
    requires NextBeyond(es, s, first, None, r)
    ensures NextAtKey(es, s, target, r)
  {
  }

  // Entries of the yielded user key before it are too new.
  lemma NoYieldAmong(es: seq<Entry>, s: nat, at: nat, i: nat)
    requires at < |es| && i <= at && Yields(es, s, at)
    requires forall j :: i <= j <= at ==> es[j].key.user == es[at].key.user
    ensures forall j :: i <= j < at ==> !Yields(es, s, j) && es[j].key.sn > s
  {
  }

  lemma PrevFromEarlier(es: seq<Entry>, s: nat, end: nat, at: nat, r: nat)
    requires end <= at < |es| && IsPrevYield(es, s, end, r)
    requires forall j :: end <= j < at ==> es[j].key.sn > s
    ensures IsPrevYield(es, s, at, r)
  {
  }

  // ----- the backward scan -----

  // Of the entries from i up to `end`, the first visible one is `last`.
  ghost predicate Back(es: seq<Entry>, s: nat, end: nat, i: nat, last: nat) {
    && i <= end <= |es|
    && (last < |es| ==> i <= last < end && es[last].key.sn <= s)
    && forall j :: i <= j < end && j < last ==> es[j].key.sn > s
  }

  ghost predicate Backing(es: seq<Entry>, s: nat, end: nat, i: nat, last: nat, isValue: bool) {
    && Back(es, s, end, i, last)
    && (last >= |es| ==> !isValue && last == |es|)
    && (last < |es| ==> (isValue <==> es[last].key.kind == Value))
    && forall j :: i <= j < end && (isValue ==> j != last) ==> !Yields(es, s, j)
  }

  lemma BackStart(es: seq<Entry>, s: nat, end: nat)
    requires end <= |es|
    ensures Backing(es, s, end, end, |es|, false)
  {
  }

  lemma BackSkips(es: seq<Entry>, s: nat, end: nat, i: nat, last: nat, isValue: bool)
    requires i < |es| && Backing(es, s, end, i + 1, last, isValue) && es[i].key.sn > s
    ensures Backing(es, s, end, i, last, isValue)
  {
  }

  lemma BackTakes(es: seq<Entry>, s: nat, end: nat, i: nat, last: nat, isValue: bool)
    requires Sorted(es) && i < |es| && Backing(es, s, end, i + 1, last, isValue) && es[i].key.sn <= s
    requires isValue ==> es[i].key.user >= es[last].key.user
    ensures Backing(es, s, end, i, i, es[i].key.kind == Value)
  {
    if isValue {
      assert Less(es[i].key, es[last].key);
    }
  }

  lemma BackFinds(es: seq<Entry>, s: nat, end: nat, i: nat, last: nat)
    requires Sorted(es) && i <= |es| && Backing(es, s, end, i, last, true)
    requires i > 0 ==> es[i - 1].key.sn <= s && es[i - 1].key.user < es[last].key.user
    ensures Yields(es, s, last) && IsPrevYield(es, s, end, last)
    ensures JustBefore(es, s, last, if i > 0 then i - 1 else |es|)
  {
  }

  lemma BackEnds(es: seq<Entry>, s: nat, end: nat, last: nat)
    requires Backing(es, s, end, 0, last, false)
    ensures IsPrevYield(es, s, end, |es|)
  {
  }
}
