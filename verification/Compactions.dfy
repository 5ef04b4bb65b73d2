// The compaction loop: which entries it drops, and the tables it writes
// (db/db_impl.cc, DoCompactionWork; db/version_set.cc, IsBaseLevelForKey).
module Compactions {
  import opened Keys
  import opened Versions

  // No table below the output level covers the user key.
  ghost predicate IsBaseLevel(v: Version, level: nat, u: UserKey) {
    forall l, i :: level + 2 <= l < |v| && 0 <= i < |v[l]| ==> !(v[l][i].smallest.user <= u <= v[l][i].largest.user)
  }

  // Rule (A): hidden by the entry before it, newer but already old enough.
  predicate Hidden(input: seq<Entry>, i: nat, smallestSnapshot: nat)
    requires i < |input|
  {
    i > 0 && input[i - 1].key.user == input[i].key.user && input[i - 1].key.sn <= smallestSnapshot
  }

  // A deletion marker that every reader has passed and nothing lies below.
  ghost predicate Obsolete(v: Version, level: nat, e: Entry, smallestSnapshot: nat) {
    e.key.kind == Deletion && e.key.sn <= smallestSnapshot && IsBaseLevel(v, level, e.key.user)
  }

  ghost predicate Dropped(v: Version, level: nat, input: seq<Entry>, i: nat, smallestSnapshot: nat)
    requires i < |input|
  {
    Hidden(input, i, smallestSnapshot) || Obsolete(v, level, input[i], smallestSnapshot)
  }

  // The first n entries without those dropped.
  ghost function Kept(v: Version, level: nat, input: seq<Entry>, n: nat, smallestSnapshot: nat): seq<Entry>
    requires n <= |input|
  {
    if n == 0 then []
    else
      Kept(v, level, input, n - 1, smallestSnapshot) +
      if Dropped(v, level, input, n - 1, smallestSnapshot) then [] else [input[n - 1]]
  }

  function Contents(files: seq<File>): seq<Entry> {
    if files == [] then [] else Contents(files[..|files| - 1]) + files[|files| - 1].entries
  }

  class Compaction {
    const inputVersion: Version
    const level: nat
    var levelPtrs: seq<nat>
    ghost var lastKey: Option<UserKey>

    ghost predicate Valid()
      reads this
    {
      && |inputVersion| == NUM_LEVELS == |levelPtrs| && level + 1 < NUM_LEVELS
      && (forall l :: 1 <= l < NUM_LEVELS ==> FilesOk(inputVersion[l]) && Disjoint(inputVersion[l]))
      && forall l :: level + 2 <= l < NUM_LEVELS ==>
        && levelPtrs[l] <= |inputVersion[l]|
        && forall i :: 0 <= i < levelPtrs[l] ==> lastKey.Some? && inputVersion[l][i].largest.user < lastKey.value
    }

    constructor (v: Version, l: nat)
      requires VersionOk(v) && l + 1 < NUM_LEVELS
      ensures Valid() && inputVersion == v && level == l && lastKey == None
    {
      inputVersion, level := v, l;
      levelPtrs := seq(NUM_LEVELS, _ => 0);
      lastKey := None;
    }

    // The pointers only move forward, so the keys must be asked in order.
    method IsBaseLevelForKey(u: UserKey) returns (r: bool)
      requires Valid() && (lastKey.Some? ==> lastKey.value <= u)
      modifies this
      ensures Valid() && lastKey == Some(u)
      ensures r <==> IsBaseLevel(inputVersion, level, u)
    {
      lastKey := Some(u);
      for lvl := level + 2 to NUM_LEVELS
        invariant Valid() && lastKey == Some(u)
        invariant forall l :: level + 2 <= l < lvl ==> NoneCovers(inputVersion[l], u)
      {
        var files := inputVersion[lvl];
        while levelPtrs[lvl] < |files|
          invariant Valid() && lastKey == Some(u)
          decreases |files| - levelPtrs[lvl]
        {
          var f := files[levelPtrs[lvl]];
          if u <= f.largest.user {
            if u >= f.smallest.user {
              return false;
            }
            break;
          }
          levelPtrs := levelPtrs[lvl := levelPtrs[lvl] + 1];
        }
        DisjointLargest(files);
      }
      r := true;
    }
  }

  ghost predicate NoneCovers(files: Level, u: UserKey) {
    forall i :: 0 <= i < |files| ==> !(files[i].smallest.user <= u <= files[i].largest.user)
  }

  lemma {:induction false} KeptFacts(v: Version, level: nat, input: seq<Entry>, n: nat, ss: nat)
    requires n <= |input| && Sorted(input)
    ensures var kept := Kept(v, level, input, n, ss);
      && Sorted(kept)
      && (forall e :: e in kept <==> exists i :: 0 <= i < n && input[i] == e && !Dropped(v, level, input, i, ss))
      && forall e, j :: e in kept && n <= j < |input| ==> Less(e.key, input[j].key)
  {
    if n > 0 {
      KeptFacts(v, level, input, n - 1, ss);
      var before := Kept(v, level, input, n - 1, ss);
      assert forall i :: 0 <= i < |before| ==> before[i] in before;
    }
  }

  // Tables in order, side by side, numbered upwards.
  ghost predicate OutputsOk(files: seq<File>, firstNumber: nat) {
    && FilesOk(files)
    && forall i :: 0 <= i < |files| ==> files[i].number == firstNumber + i
  }

  // The state of the loop over the input: what the last entry was.
  ghost predicate Follows(input: seq<Entry>, i: nat, currentUserKey: Option<UserKey>, lastSequenceForKey: Sequence)
    requires i <= |input|
  {
    if i == 0 then currentUserKey == None
    else currentUserKey == Some(input[i - 1].key.user) && lastSequenceForKey == input[i - 1].key.sn
  }

  method DropRule(compaction: Compaction, input: seq<Entry>, i: nat, currentUserKey: Option<UserKey>,
                  lastSequenceForKey: Sequence, smallestSnapshot: nat)
    returns (drop: bool)
    requires i < |input| && Sorted(input) && Follows(input, i, currentUserKey, lastSequenceForKey)
    requires smallestSnapshot < MAX_SEQUENCE
    requires compaction.Valid() && (compaction.lastKey.Some? ==> compaction.lastKey.value <= input[i].key.user)
    modifies compaction
    ensures compaction.Valid() && (compaction.lastKey.Some? ==> compaction.lastKey.value <= input[i].key.user)
    ensures drop <==> Dropped(compaction.inputVersion, compaction.level, input, i, smallestSnapshot)
  {
    var e := input[i];
    // A first occurrence of the user key starts again from the largest number.
    var last := if currentUserKey == Some(e.key.user) then lastSequenceForKey else MAX_SEQUENCE;
    assert Hidden(input, i, smallestSnapshot) <==> last <= smallestSnapshot;
    if last <= smallestSnapshot {
      drop := true;  // (A)
    } else if e.key.kind == Deletion && e.key.sn <= smallestSnapshot {
      drop := compaction.IsBaseLevelForKey(e.key.user);
    } else {
      drop := false;
    }
  }

  // Adds to the open table, ending it before or after as the sizes say.
  method AddToOutput(outputs: seq<File>, builder: seq<Entry>, e: Entry, firstNumber: nat)
    returns (outputs': seq<File>, builder': seq<Entry>)
    requires OutputsOk(outputs, firstNumber) && Sorted(Contents(outputs) + builder + [e])
    ensures OutputsOk(outputs', firstNumber)
    ensures Contents(outputs') + builder' == Contents(outputs) + builder + [e]
  {
    outputs', builder' := outputs, builder;
    var stopBefore: bool := *;
    if stopBefore && builder' != [] {
      SuffixSorted(Contents(outputs), builder, [e]);
      outputs' := FinishOutputFile(outputs', builder', firstNumber);
      builder' := [];
    }
    assert Contents(outputs') + builder' == Contents(outputs) + builder;
    builder' := builder' + [e];
    assert Contents(outputs') + builder' == Contents(outputs) + builder + [e];
    var bigEnough: bool := *;
    if bigEnough {
      SuffixSorted(Contents(outputs'), builder', []);
      outputs' := FinishOutputFile(outputs', builder', firstNumber);
      builder' := [];
    }
  }

  // The compaction loop. Where an output table ends is left open: the source
  // decides it from table sizes and the overlap with grandparents.
  method DoCompactionWork(v: Version, level: nat, input: seq<Entry>, smallestSnapshot: nat, firstNumber: nat)
    returns (outputs: seq<File>)
    requires VersionOk(v) && level + 1 < NUM_LEVELS && Sorted(input)
    requires smallestSnapshot < MAX_SEQUENCE
    ensures OutputsOk(outputs, firstNumber)
    ensures Contents(outputs) == Kept(v, level, input, |input|, smallestSnapshot)
  {
    hide VersionOk, Sorted, Kept, Contents, OutputsOk, Dropped, Less;
    NothingKept(v, level, input, smallestSnapshot);
    var compaction := new Compaction(v, level);
    var builder: seq<Entry> := [];
    var currentUserKey: Option<UserKey> := None;
    var lastSequenceForKey: Sequence := MAX_SEQUENCE;
    outputs := [];
    for i := 0 to |input|
      invariant compaction.Valid() && compaction.inputVersion == v && compaction.level == level
      invariant Follows(input, i, currentUserKey, lastSequenceForKey)
      invariant compaction.lastKey.Some? ==> i > 0 && compaction.lastKey.value <= input[i - 1].key.user
      invariant OutputsOk(outputs, firstNumber)
      invariant Contents(outputs) + builder == Kept(v, level, input, i, smallestSnapshot)
    {
      InOrder(input, i);
      var drop := DropRule(compaction, input, i, currentUserKey, lastSequenceForKey, smallestSnapshot);
      currentUserKey, lastSequenceForKey := Some(input[i].key.user), input[i].key.sn;
      KeptStep(v, level, input, i, smallestSnapshot);
      if !drop {
        KeptFacts(v, level, input, i + 1, smallestSnapshot);
        outputs, builder := AddToOutput(outputs, builder, input[i], firstNumber);
      }
    }
    if builder != [] {
      KeptFacts(v, level, input, |input|, smallestSnapshot);
      assert Contents(outputs) + builder + [] == Contents(outputs) + builder;
      SuffixSorted(Contents(outputs), builder, []);
      outputs := FinishOutputFile(outputs, builder, firstNumber);
    }
  }

  lemma {:induction false} NothingKept(v: Version, level: nat, input: seq<Entry>, ss: nat)
    ensures Kept(v, level, input, 0, ss) == [] && Contents([]) == []
    ensures forall n :: OutputsOk([], n)
  {
  }

  lemma InOrder(input: seq<Entry>, i: nat)
    requires Sorted(input) && i < |input|
    ensures i > 0 ==> Less(input[i - 1].key, input[i].key) && input[i - 1].key.user <= input[i].key.user
  {
  }

  lemma {:induction false} KeptStep(v: Version, level: nat, input: seq<Entry>, i: nat, ss: nat)
    requires i < |input|
    ensures Kept(v, level, input, i + 1, ss) ==
      Kept(v, level, input, i, ss) + if Dropped(v, level, input, i, ss) then [] else [input[i]]
  {
    hide Dropped;
  }

  lemma SuffixSorted(a: seq<Entry>, b: seq<Entry>, c: seq<Entry>)
    requires Sorted(a + b + c)
    ensures Sorted(b)
  {
    assert forall i :: 0 <= i < |b| ==> b[i] == (a + b + c)[|a| + i];
  }

  method FinishOutputFile(outputs: seq<File>, builder: seq<Entry>, firstNumber: nat) returns (r: seq<File>)
    requires OutputsOk(outputs, firstNumber) && builder != [] && Sorted(builder)
    ensures OutputsOk(r, firstNumber) && Contents(r) == Contents(outputs) + builder
  {
    var size: nat := *;
    var f := File(firstNumber + |outputs|, size, builder[0].key, builder[|builder| - 1].key, builder);
    r := outputs + [f];
    assert r[..|r| - 1] == outputs;
  }
}
