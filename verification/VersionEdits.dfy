// The MANIFEST record of a version edit (db/version_edit.h, db/version_edit.cc).
module VersionEdits {
  import opened Keys
  import opened Codings

  const NUM_LEVELS: nat := 7

  datatype FileMeta = FileMeta(number: nat, size: nat, smallest: Bytes, largest: Bytes)

  // What an edit holds. The deleted files are a std::set: pairs of level and
  // number in order.
  datatype Edit = Edit(
    comparator: Option<Bytes>, logNumber: Option<nat>, prevLogNumber: Option<nat>, nextFileNumber: Option<nat>,
    lastSequence: Option<nat>, compactPointers: seq<(nat, Bytes)>, deletedFiles: seq<(nat, nat)>,
    newFiles: seq<(nat, FileMeta)>)

  // One tagged field of the encoding.
  datatype Item =
    | Comparator(name: Bytes)
    | LogNumber(number: nat)
    | PrevLogNumber(number: nat)
    | NextFileNumber(number: nat)
    | LastSequence(number: nat)
    | CompactPointer(level: nat, key: Bytes)
    | DeletedFile(level: nat, number: nat)
    | NewFile(level: nat, file: FileMeta)

  // ----- encoding -----

  function TagOf(i: Item): (t: nat)
    ensures 0 < t < 128
  {
    match i
    case Comparator(_) => 1
    case LogNumber(_) => 2
    case NextFileNumber(_) => 3
    case LastSequence(_) => 4
    case CompactPointer(_, _) => 5
    case DeletedFile(_, _) => 6
    case NewFile(_, _) => 7
    case PrevLogNumber(_) => 9
  }

  function Payload(i: Item): Bytes {
    match i
    case Comparator(name) => Prefixed(name)
    case LogNumber(n) => Varint(n)
    case PrevLogNumber(n) => Varint(n)
    case NextFileNumber(n) => Varint(n)
    case LastSequence(n) => Varint(n)
    case CompactPointer(level, key) => Varint(level) + Prefixed(key)
    case DeletedFile(level, n) => Varint(level) + Varint(n)
    case NewFile(level, f) =>
      Varint(level) + Varint(f.number) + Varint(f.size) + Prefixed(f.smallest) + Prefixed(f.largest)
  }

  function ItemBytes(i: Item): (r: Bytes)
    ensures r != []
  {
    Varint(TagOf(i)) + Payload(i)
  }

  function Encoded(items: seq<Item>): Bytes {
    if items == [] then [] else Encoded(items[..|items| - 1]) + ItemBytes(items[|items| - 1])
  }

  function Pointers(ps: seq<(nat, Bytes)>): (r: seq<Item>)
    ensures |r| == |ps|
  {
    seq(|ps|, i requires 0 <= i < |ps| => CompactPointer(ps[i].0, ps[i].1))
  }

  function Deletions(ds: seq<(nat, nat)>): (r: seq<Item>)
    ensures |r| == |ds|
  {
    seq(|ds|, i requires 0 <= i < |ds| => DeletedFile(ds[i].0, ds[i].1))
  }

  function Additions(fs: seq<(nat, FileMeta)>): (r: seq<Item>)
    ensures |r| == |fs|
  {
    seq(|fs|, i requires 0 <= i < |fs| => NewFile(fs[i].0, fs[i].1))
  }

  function Scalars(e: Edit): seq<Item> {
    (if e.comparator.Some? then [Comparator(e.comparator.value)] else [])
    + (if e.logNumber.Some? then [LogNumber(e.logNumber.value)] else [])
    + (if e.prevLogNumber.Some? then [PrevLogNumber(e.prevLogNumber.value)] else [])
    + (if e.nextFileNumber.Some? then [NextFileNumber(e.nextFileNumber.value)] else [])
    + if e.lastSequence.Some? then [LastSequence(e.lastSequence.value)] else []
  }

  function Items(e: Edit): seq<Item> {
    Scalars(e) + Pointers(e.compactPointers) + Deletions(e.deletedFiles) + Additions(e.newFiles)
  }

  // ----- decoding -----

  // A value off the front, and what is left.
  function TakeVarint(b: Bytes, max: nat, word: nat): (r: Option<(nat, Bytes)>)
    requires word > 0
    ensures r.Some? ==> |r.value.1| < |b|
  {
    match ParseVarint(b, max, word)
    case None => None
    case Some(x) => Some((x.0, b[x.1..]))
  }

  function TakeSlice(b: Bytes): (r: Option<(Bytes, Bytes)>)
    ensures r.Some? ==> |r.value.1| < |b|
  {
    match ParsePrefixed(b)
    case None => None
    case Some(x) => Some((x.0, b[x.1..]))
  }

  function TakeNumber(b: Bytes): (r: Option<(nat, Bytes)>)
    ensures r.Some? ==> |r.value.1| < |b|
  {
    TakeVarint(b, 10, TWO_64)
  }

  // GetLevel and GetInternalKey refuse a level out of range and an empty key.
  function TakeLevel(b: Bytes): (r: Option<(nat, Bytes)>)
    ensures r.Some? ==> |r.value.1| < |b|
  {
    var r := TakeVarint(b, 5, TWO_32);
    if r.Some? && r.value.0 < NUM_LEVELS then r else None
  }

  function TakeKey(b: Bytes): (r: Option<(Bytes, Bytes)>)
    ensures r.Some? ==> |r.value.1| < |b|
  {
    var r := TakeSlice(b);
    if r.Some? && r.value.0 != [] then r else None
  }

  function TakeFile(b: Bytes): (r: Option<(FileMeta, Bytes)>)
    ensures r.Some? ==> |r.value.1| < |b|
  {
    var n := TakeNumber(b);
    if n.None? then None else
    var s := TakeNumber(n.value.1);
    if s.None? then None else
    var k := TakeKey(s.value.1);
    if k.None? then None else
    var l := TakeKey(k.value.1);
    if l.None? then None else Some((FileMeta(n.value.0, s.value.0, k.value.0, l.value.0), l.value.1))
  }

  function Wrap<T>(r: Option<(T, Bytes)>, make: T -> Item): Option<(Item, Bytes)> {
    if r.None? then None else Some((make(r.value.0), r.value.1))
  }

  function TakeItem(tag: nat, b: Bytes): (r: Option<(Item, Bytes)>)
    ensures r.Some? ==> |r.value.1| < |b|
  {
    if tag == 1 then Wrap(TakeSlice(b), n => Comparator(n))
    else if tag == 2 then Wrap(TakeNumber(b), n => LogNumber(n))
    else if tag == 9 then Wrap(TakeNumber(b), n => PrevLogNumber(n))
    else if tag == 3 then Wrap(TakeNumber(b), n => NextFileNumber(n))
    else if tag == 4 then Wrap(TakeNumber(b), n => LastSequence(n))
    else if 5 <= tag <= 7 then
      var l := TakeLevel(b);
      if l.None? then None
      else if tag == 5 then Wrap(TakeKey(l.value.1), k => CompactPointer(l.value.0, k))
      else if tag == 6 then Wrap(TakeNumber(l.value.1), n => DeletedFile(l.value.0, n))
      else Wrap(TakeFile(l.value.1), f => NewFile(l.value.0, f))
    else None
  }

  predicate PairBefore(a: (nat, nat), b: (nat, nat)) {
    a.0 < b.0 || (a.0 == b.0 && a.1 < b.1)
  }

  // Insertion into the std::set.
  function Insert(s: seq<(nat, nat)>, d: (nat, nat)): seq<(nat, nat)>
    decreases |s|
  {
    if s == [] || PairBefore(d, s[0]) then [d] + s
    else if s[0] == d then s
    else [s[0]] + Insert(s[1..], d)
  }

  function Applied(e: Edit, i: Item): Edit {
    match i
    case Comparator(name) => e.(comparator := Some(name))
    case LogNumber(n) => e.(logNumber := Some(n))
    case PrevLogNumber(n) => e.(prevLogNumber := Some(n))
    case NextFileNumber(n) => e.(nextFileNumber := Some(n))
    case LastSequence(n) => e.(lastSequence := Some(n))
    case CompactPointer(level, key) => e.(compactPointers := e.compactPointers + [(level, key)])
    case DeletedFile(level, n) => e.(deletedFiles := Insert(e.deletedFiles, (level, n)))
    case NewFile(level, f) => e.(newFiles := e.newFiles + [(level, f)])
  }

  function AppliedAll(e: Edit, items: seq<Item>): Edit
    decreases |items|
  {
    if items == [] then e else AppliedAll(Applied(e, items[0]), items[1..])
  }

  // The edit read from these bytes on top of e; none for bad bytes.
  function Decoded(b: Bytes, e: Edit): Option<Edit>
    decreases |b|
  {
    match TakeVarint(b, 5, TWO_32)
    case None => if b == [] then Some(e) else None
    case Some(tag) =>
      match TakeItem(tag.0, tag.1)
      case None => None
      case Some(x) => Decoded(x.1, Applied(e, x.0))
  }

  // Clear leaves the compaction pointers.
  function Cleared(e: Edit): Edit {
    Edit(None, None, None, None, None, e.compactPointers, [], [])
  }

  // ----- the round trip -----

  predicate KeyFits(k: Bytes) {
    0 < |k| < TWO_32
  }

  predicate ItemFits(i: Item) {
    match i
    case Comparator(name) => |name| < TWO_32
    case LogNumber(n) => n < TWO_64
    case PrevLogNumber(n) => n < TWO_64
    case NextFileNumber(n) => n < TWO_64
    case LastSequence(n) => n < TWO_64
    case CompactPointer(level, key) => level < NUM_LEVELS && KeyFits(key)
    case DeletedFile(level, n) => level < NUM_LEVELS && n < TWO_64
    case NewFile(level, f) =>
      level < NUM_LEVELS && f.number < TWO_64 && f.size < TWO_64 && KeyFits(f.smallest) && KeyFits(f.largest)
  }

  predicate InSetOrder(ds: seq<(nat, nat)>) {
    forall i, j :: 0 <= i < j < |ds| ==> PairBefore(ds[i], ds[j])
  }

  // Sizes in their words, levels in range, keys not empty, and the deleted
  // files the set they are.
  ghost predicate EditFits(e: Edit) {
    InSetOrder(e.deletedFiles) && forall i :: i in Items(e) ==> ItemFits(i)
  }

  lemma {:induction false} TakesSmall(n: nat, rest: Bytes)
    requires n < 128
    ensures TakeVarint(Varint(n) + rest, 5, TWO_32) == Some((n, rest))
  {
    hide ParseVarint, Varint;
    LastByte(n);
    VarintRoundTrip(n, rest, 5, TWO_32);
  }

  lemma {:induction false} TakesNumber(n: nat, rest: Bytes)
    requires n < TWO_64
    ensures TakeNumber(Varint(n) + rest) == Some((n, rest))
  {
    hide ParseVarint, Varint;
    Varint64Fits(n);
    VarintRoundTrip(n, rest, 10, TWO_64);
  }

  lemma {:induction false} TakesSlice(s: Bytes, rest: Bytes)
    requires |s| < TWO_32
    ensures TakeSlice(Prefixed(s) + rest) == Some((s, rest))
    ensures s != [] ==> TakeKey(Prefixed(s) + rest) == Some((s, rest))
  {
    hide ParsePrefixed, Prefixed;
    PrefixedRoundTrip(s, rest);
  }

  lemma {:induction false} TakesFile(f: FileMeta, rest: Bytes)
    requires f.number < TWO_64 && f.size < TWO_64 && KeyFits(f.smallest) && KeyFits(f.largest)
    ensures TakeFile(Varint(f.number) + (Varint(f.size) + (Prefixed(f.smallest) + (Prefixed(f.largest) + rest)))) ==
      Some((f, rest))
  {
    hide TakeNumber, TakeKey, Varint, Prefixed;
    var l := Prefixed(f.largest) + rest;
    var k := Prefixed(f.smallest) + l;
    TakesSlice(f.largest, rest);
    TakesSlice(f.smallest, l);
    TakesNumber(f.size, k);
    TakesNumber(f.number, Varint(f.size) + k);
  }

  lemma {:induction false} TakesLevel(level: nat, rest: Bytes)
    requires level < NUM_LEVELS
    ensures TakeLevel(Varint(level) + rest) == Some((level, rest))
  {
    hide TakeVarint, Varint;
    TakesSmall(level, rest);
  }

  lemma {:induction false} TakesLeveled(i: Item, rest: Bytes)
    requires ItemFits(i) && (i.CompactPointer? || i.DeletedFile? || i.NewFile?)
    ensures TakeItem(TagOf(i), Payload(i) + rest) == Some((i, rest))
  {
    hide TakeNumber, TakeSlice, TakeKey, TakeFile, TakeVarint, TakeLevel, Varint, Prefixed;
    var tail := LeveledTail(i, rest);
    assert Payload(i) + rest == Varint(i.level) + tail;
    TakesLevel(i.level, tail);
    match i
    case CompactPointer(level, key) => TakesSlice(key, rest);
    case DeletedFile(level, n) => TakesNumber(n, rest);
    case NewFile(level, f) => TakesFile(f, rest);
  }

  function LeveledTail(i: Item, rest: Bytes): Bytes
    requires i.CompactPointer? || i.DeletedFile? || i.NewFile?
  {
    match i
    case CompactPointer(level, key) => Prefixed(key) + rest
    case DeletedFile(level, n) => Varint(n) + rest
    case NewFile(level, f) =>
      Varint(f.number) + (Varint(f.size) + (Prefixed(f.smallest) + (Prefixed(f.largest) + rest)))
  }

  lemma {:induction false} TakesItem(i: Item, rest: Bytes)
    requires ItemFits(i)
    ensures TakeItem(TagOf(i), Payload(i) + rest) == Some((i, rest))
  {
    hide TakeNumber, TakeSlice, TakeKey, TakeFile, TakeVarint, TakeLevel, Varint, Prefixed;
    if i.CompactPointer? || i.DeletedFile? || i.NewFile? {
      TakesLeveled(i, rest);
    } else if i.Comparator? {
      TakesSlice(i.name, rest);
    } else {
      TakesNumber(i.number, rest);
    }
  }

  lemma {:induction false} DecodesItem(i: Item, rest: Bytes, e: Edit)
    requires ItemFits(i)
    ensures Decoded(ItemBytes(i) + rest, e) == Decoded(rest, Applied(e, i))
  {
    hide TakeItem, TakeVarint, Varint, Payload, ItemFits;
    assert ItemBytes(i) + rest == Varint(TagOf(i)) + (Payload(i) + rest);
    TakesSmall(TagOf(i), Payload(i) + rest);
    TakesItem(i, rest);
  }

  lemma {:induction false} EncodedFirst(items: seq<Item>)
    requires items != []
    ensures Encoded(items) == ItemBytes(items[0]) + Encoded(items[1..])
  {
    hide ItemBytes;
    var n := |items| - 1;
    if n == 0 {
      assert Encoded(items[..0]) == [] && items[1..] == [];
    } else {
      EncodedFirst(items[..n]);
      assert items[..n][1..] == items[1..][..n - 1];
    }
  }

  lemma {:induction false} DecodesAll(items: seq<Item>, e: Edit)
    requires forall i :: i in items ==> ItemFits(i)
    ensures Decoded(Encoded(items), e) == Some(AppliedAll(e, items))
  {
    hide ItemBytes, ItemFits, Applied, TakeVarint, TakeItem;
    if items == [] {
      NothingDecoded(e);
    } else {
      EncodedFirst(items);
      DecodesItem(items[0], Encoded(items[1..]), e);
      DecodesAll(items[1..], Applied(e, items[0]));
    }
  }

  lemma {:induction false} NothingDecoded(e: Edit)
    ensures Decoded([], e) == Some(e)
  {
  }

  // ----- applying the items gives the edit -----

  lemma {:induction false} AppliedConcat(e: Edit, a: seq<Item>, b: seq<Item>)
    ensures AppliedAll(e, a + b) == AppliedAll(AppliedAll(e, a), b)
    decreases |a|
  {
    hide Applied;
    if a == [] {
      assert a + b == b;
    } else {
      AppliedConcat(Applied(e, a[0]), a[1..], b);
      assert (a + b)[1..] == a[1..] + b;
    }
  }

  lemma {:induction false} AppliedLast(e: Edit, items: seq<Item>, i: Item)
    ensures AppliedAll(e, items + [i]) == Applied(AppliedAll(e, items), i)
  {
    hide Applied;
    AppliedConcat(e, items, [i]);
    assert AppliedAll(AppliedAll(e, items), [i]) == AppliedAll(Applied(AppliedAll(e, items), i), [i][1..]);
  }

  lemma {:induction false} AppliedPointers(e: Edit, ps: seq<(nat, Bytes)>)
    ensures AppliedAll(e, Pointers(ps)) == e.(compactPointers := e.compactPointers + ps)
  {
    if ps == [] {
      assert e.compactPointers + ps == e.compactPointers;
    } else {
      var front, last := ps[..|ps| - 1], ps[|ps| - 1];
      AppliedPointers(e, front);
      AppliedLast(e, Pointers(front), CompactPointer(last.0, last.1));
      assert Pointers(ps) == Pointers(front) + [CompactPointer(last.0, last.1)];
      assert e.compactPointers + ps == e.compactPointers + front + [last];
    }
  }

  lemma {:induction false} AppliedAdditions(e: Edit, fs: seq<(nat, FileMeta)>)
    ensures AppliedAll(e, Additions(fs)) == e.(newFiles := e.newFiles + fs)
  {
    if fs == [] {
      assert e.newFiles + fs == e.newFiles;
    } else {
      var front, last := fs[..|fs| - 1], fs[|fs| - 1];
      AppliedAdditions(e, front);
      AppliedLast(e, Additions(front), NewFile(last.0, last.1));
      assert Additions(fs) == Additions(front) + [NewFile(last.0, last.1)];
      assert e.newFiles + fs == e.newFiles + front + [last];
    }
  }

  lemma {:induction false} InsertLast(s: seq<(nat, nat)>, d: (nat, nat))
    requires forall i :: 0 <= i < |s| ==> PairBefore(s[i], d)
    ensures Insert(s, d) == s + [d]
  {
    if s != [] {
      InsertLast(s[1..], d);
      assert s == [s[0]] + s[1..];
    }
  }

  lemma {:induction false} AppliedDeletions(e: Edit, ds: seq<(nat, nat)>)
    requires InSetOrder(ds) && e.deletedFiles == []
    ensures AppliedAll(e, Deletions(ds)) == e.(deletedFiles := ds)
  {
    if ds != [] {
      var front, last := ds[..|ds| - 1], ds[|ds| - 1];
      AppliedDeletions(e, front);
      AppliedLast(e, Deletions(front), DeletedFile(last.0, last.1));
      assert Deletions(ds) == Deletions(front) + [DeletedFile(last.0, last.1)];
      InsertLast(front, last);
      assert ds == front + [last];
    }
  }

  lemma {:induction false} AppliedScalars(e: Edit, into: Edit)
    requires into == Cleared(into)
    ensures AppliedAll(into, Scalars(e)) ==
      into.(comparator := e.comparator, logNumber := e.logNumber, prevLogNumber := e.prevLogNumber,
            nextFileNumber := e.nextFileNumber, lastSequence := e.lastSequence)
  {
    hide AppliedAll;
    var a := if e.comparator.Some? then [Comparator(e.comparator.value)] else [];
    var b := if e.logNumber.Some? then [LogNumber(e.logNumber.value)] else [];
    var c := if e.prevLogNumber.Some? then [PrevLogNumber(e.prevLogNumber.value)] else [];
    var d := if e.nextFileNumber.Some? then [NextFileNumber(e.nextFileNumber.value)] else [];
    var f := if e.lastSequence.Some? then [LastSequence(e.lastSequence.value)] else [];
    assert Scalars(e) == a + b + c + d + f;
    var x := AppliedAll(into, a);
    var y := AppliedAll(x, b);
    var z := AppliedAll(y, c);
    var w := AppliedAll(z, d);
    AppliedConcat(into, a, b);
    AppliedConcat(into, a + b, c);
    AppliedConcat(into, a + b + c, d);
    AppliedConcat(into, a + b + c + d, f);
    AppliedOne(into, a);
    AppliedOne(x, b);
    AppliedOne(y, c);
    AppliedOne(z, d);
    AppliedOne(w, f);
  }

  lemma {:induction false} AppliedOne(e: Edit, items: seq<Item>)
    requires |items| <= 1
    ensures AppliedAll(e, items) == if items == [] then e else Applied(e, items[0])
  {
    hide Applied;
    if items != [] {
      assert AppliedAll(Applied(e, items[0]), items[1..]) == Applied(e, items[0]);
    }
  }

  // The decoded edit is the encoded one, after the compaction pointers that
  // the decoding edit already had.
  lemma {:induction false} EditRoundTrip(e: Edit, into: Edit)
    requires EditFits(e)
    ensures Decoded(Encoded(Items(e)), Cleared(into)) ==
      Some(e.(compactPointers := into.compactPointers + e.compactPointers))
  {
    hide Encoded, Decoded, AppliedAll, ItemFits, Scalars, Pointers, Deletions, Additions;
    var s, p, d, f := Scalars(e), Pointers(e.compactPointers), Deletions(e.deletedFiles), Additions(e.newFiles);
    DecodesAll(Items(e), Cleared(into));
    AppliedConcat(Cleared(into), s + p + d, f);
    AppliedConcat(Cleared(into), s + p, d);
    AppliedConcat(Cleared(into), s, p);
    AppliedScalars(e, Cleared(into));
    var e1 := AppliedAll(Cleared(into), s);
    AppliedPointers(e1, e.compactPointers);
    var e2 := AppliedAll(e1, p);
    AppliedDeletions(e2, e.deletedFiles);
    AppliedAdditions(AppliedAll(e2, d), e.newFiles);
    assert [] + e.newFiles == e.newFiles;
  }

  // ----- the object -----

  class VersionEdit {
    var comparator: Option<Bytes>
    var logNumber: Option<nat>
    var prevLogNumber: Option<nat>
    var nextFileNumber: Option<nat>
    var lastSequence: Option<nat>
    var compactPointers: seq<(nat, Bytes)>
    var deletedFiles: seq<(nat, nat)>
    var newFiles: seq<(nat, FileMeta)>

    ghost function State(): Edit
      reads this
    {
      Edit(comparator, logNumber, prevLogNumber, nextFileNumber, lastSequence, compactPointers, deletedFiles, newFiles)
    }

    constructor ()
      ensures State() == Edit(None, None, None, None, None, [], [], [])
    {
      comparator, logNumber, prevLogNumber, nextFileNumber, lastSequence := None, None, None, None, None;
      compactPointers, deletedFiles, newFiles := [], [], [];
    }

    method Clear()
      modifies this
      ensures State() == Cleared(old(State()))
    {
      comparator, logNumber, prevLogNumber, nextFileNumber, lastSequence := None, None, None, None, None;
      deletedFiles, newFiles := [], [];
    }

    // RemoveFile keeps the deleted files a set in order.
    method RemoveFile(level: nat, file: nat)
      requires InSetOrder(deletedFiles)
      modifies `deletedFiles
      ensures InSetOrder(deletedFiles)
      ensures forall d :: d in deletedFiles <==> d in old(deletedFiles) || d == (level, file)
    {
      InsertKeepsOrder(deletedFiles, (level, file));
      deletedFiles := Insert(deletedFiles, (level, file));
    }

    method EncodeTo(dst: Bytes) returns (r: Bytes)
      ensures r == dst + Encoded(Items(State()))
    {
      hide Encoded, ItemBytes, Scalars;
      ghost var done: seq<Item>;
      r, done := EncodeScalars(dst);
      for i := 0 to |compactPointers|
        invariant r == dst + Encoded(done) && done == Scalars(State()) + Pointers(compactPointers)[..i]
      {
        r, done := Emit(dst, r, done, CompactPointer(compactPointers[i].0, compactPointers[i].1));
      }
      ghost var pointed := Scalars(State()) + Pointers(compactPointers);
      for i := 0 to |deletedFiles|
        invariant r == dst + Encoded(done) && done == pointed + Deletions(deletedFiles)[..i]
      {
        r, done := Emit(dst, r, done, DeletedFile(deletedFiles[i].0, deletedFiles[i].1));
      }
      ghost var deleted := pointed + Deletions(deletedFiles);
      for i := 0 to |newFiles|
        invariant r == dst + Encoded(done) && done == deleted + Additions(newFiles)[..i]
      {
        r, done := Emit(dst, r, done, NewFile(newFiles[i].0, newFiles[i].1));
      }
      assert done == Items(State());
    }

    method EncodeScalars(dst: Bytes) returns (r: Bytes, ghost done: seq<Item>)
      ensures done == Scalars(State()) && r == dst + Encoded(done)
    {
      hide Encoded, ItemBytes;
      r, done := dst, [];
      NothingEncoded(dst);
      r, done := EmitIf(dst, r, done, if comparator.Some? then Some(Comparator(comparator.value)) else None);
      r, done := EmitIf(dst, r, done, if logNumber.Some? then Some(LogNumber(logNumber.value)) else None);
      r, done := EmitIf(dst, r, done, if prevLogNumber.Some? then Some(PrevLogNumber(prevLogNumber.value)) else None);
      r, done := EmitIf(dst, r, done,
        if nextFileNumber.Some? then Some(NextFileNumber(nextFileNumber.value)) else None);
      r, done := EmitIf(dst, r, done, if lastSequence.Some? then Some(LastSequence(lastSequence.value)) else None);
    }

    // True for well-formed bytes; the edit is then what they hold.
    method DecodeFrom(src: Bytes) returns (ok: bool)
      modifies this
      ensures ok <==> Decoded(src, Cleared(old(State()))).Some?
      ensures ok ==> State() == Decoded(src, Cleared(old(State()))).value
    {
      hide TakeVarint, TakeItem;
      Clear();
      ghost var start := State();
      var input := src;
      while true
        invariant Decoded(src, start) == Decoded(input, State())
        decreases |input|
      {
        var tag := ReadVarint(input, 5, TWO_32);
        if tag.None? {
          return input == [];
        }
        var item := ReadItem(tag.value.0, tag.value.1);
        if item.None? {
          return false;
        }
        Apply(item.value.0);
        input := item.value.1;
      }
    }

    method Apply(i: Item)
      modifies this
      ensures State() == Applied(old(State()), i)
    {
      match i
      case Comparator(name) => comparator := Some(name);
      case LogNumber(n) => logNumber := Some(n);
      case PrevLogNumber(n) => prevLogNumber := Some(n);
      case NextFileNumber(n) => nextFileNumber := Some(n);
      case LastSequence(n) => lastSequence := Some(n);
      case CompactPointer(level, key) => compactPointers := compactPointers + [(level, key)];
      case DeletedFile(level, n) => deletedFiles := Insert(deletedFiles, (level, n));
      case NewFile(level, f) => newFiles := newFiles + [(level, f)];
    }
  }

  lemma {:induction false} NothingEncoded(dst: Bytes)
    ensures dst + Encoded([]) == dst
  {
  }

  method Emit(ghost dst: Bytes, r0: Bytes, ghost done: seq<Item>, i: Item) returns (r: Bytes, ghost done': seq<Item>)
    requires r0 == dst + Encoded(done)
    ensures done' == done + [i] && r == dst + Encoded(done')
  {
    hide ItemBytes;
    r := r0 + ItemBytes(i);
    done' := done + [i];
    assert done'[..|done|] == done;
  }

  method EmitIf(ghost dst: Bytes, r0: Bytes, ghost done: seq<Item>, i: Option<Item>)
    returns (r: Bytes, ghost done': seq<Item>)
    requires r0 == dst + Encoded(done)
    ensures done' == done + (if i.Some? then [i.value] else []) && r == dst + Encoded(done')
  {
    hide ItemBytes, Encoded;
    r, done' := r0, done;
    if i.Some? {
      r, done' := Emit(dst, r, done, i.value);
    }
  }

  lemma {:induction false} InsertKeepsOrder(s: seq<(nat, nat)>, d: (nat, nat))
    requires InSetOrder(s)
    ensures InSetOrder(Insert(s, d)) && forall x :: x in Insert(s, d) <==> x in s || x == d
    decreases |s|
  {
    if s != [] && !PairBefore(d, s[0]) && s[0] != d {
      InsertKeepsOrder(s[1..], d);
      var rest := Insert(s[1..], d);
      assert s == [s[0]] + s[1..];
      forall j | 0 <= j < |rest| ensures PairBefore(s[0], rest[j]) {
        assert rest[j] in rest;
      }
    } else if s != [] && s[0] != d {
      forall j | 0 <= j < |s| ensures PairBefore(d, s[j]) {
      }
    }
  }

  method ReadVarint(input: Bytes, max: nat, word: nat) returns (r: Option<(nat, Bytes)>)
    requires word > 0
    ensures r == TakeVarint(input, max, word)
  {
    hide ParseVarint;
    var v := GetVarint(input, max, word);
    r := if v.None? then None else Some((v.value.0, input[v.value.1..]));
  }

  method ReadKey(input: Bytes) returns (r: Option<(Bytes, Bytes)>)
    ensures r == TakeKey(input)
  {
    hide ParsePrefixed;
    r := GetLengthPrefixedSlice(input);
    if r.Some? && r.value.0 == [] {
      r := None;
    }
  }

  // The field after its tag; none for a tag that is not known.
  method ReadItem(tag: nat, input: Bytes) returns (r: Option<(Item, Bytes)>)
    ensures r == TakeItem(tag, input)
  {
    hide TakeVarint, TakeKey, TakeSlice;
    r := None;
    if tag == 1 {
      var s := ReadSlice(input);
      r := Wrap(s, n => Comparator(n));
    } else if tag == 2 || tag == 9 || tag == 3 || tag == 4 {
      var n := ReadVarint(input, 10, TWO_64);
      r := if tag == 2 then Wrap(n, v => LogNumber(v)) else if tag == 9 then Wrap(n, v => PrevLogNumber(v))
           else if tag == 3 then Wrap(n, v => NextFileNumber(v)) else Wrap(n, v => LastSequence(v));
    } else if 5 <= tag <= 7 {
      var l := ReadVarint(input, 5, TWO_32);
      if l.None? || l.value.0 >= NUM_LEVELS {
        return None;
      }
      if tag == 5 {
        var k := ReadKey(l.value.1);
        r := Wrap(k, v => CompactPointer(l.value.0, v));
      } else if tag == 6 {
        var n := ReadVarint(l.value.1, 10, TWO_64);
        r := Wrap(n, v => DeletedFile(l.value.0, v));
      } else {
        var f := ReadFile(l.value.1);
        r := Wrap(f, v => NewFile(l.value.0, v));
      }
    }
  }

  method ReadSlice(input: Bytes) returns (r: Option<(Bytes, Bytes)>)
    ensures r == TakeSlice(input)
  {
    hide ParsePrefixed;
    r := GetLengthPrefixedSlice(input);
  }

  method ReadFile(input: Bytes) returns (r: Option<(FileMeta, Bytes)>)
    ensures r == TakeFile(input)
  {
    hide TakeVarint, TakeKey;
    r := None;
    var number := ReadVarint(input, 10, TWO_64);
    if number.Some? {
      var size := ReadVarint(number.value.1, 10, TWO_64);
      if size.Some? {
        var smallest := ReadKey(size.value.1);
        if smallest.Some? {
          var largest := ReadKey(smallest.value.1);
          if largest.Some? {
            r := Some((FileMeta(number.value.0, size.value.0, smallest.value.0, largest.value.0), largest.value.1));
          }
        }
      }
    }
  }
}
