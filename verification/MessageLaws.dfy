// What decoding means for any bytes, encoded by this encoder or not: fields take
// effect in the order in which they stand, messages that are put together merge,
// and fields that the descriptor does not know are skipped (pb_decode.c; "Message
// Structure" and "Last One Wins" in the Protocol Buffers Encoding guide).
module MessageLaws {
  import opened Keys
  import opened Codings
  import opened Nanopb

  // ----- what is read does not depend on what follows -----

  lemma {:induction false} TerminatorLocal(b: Bytes, more: Bytes)
    requires TerminatorIndex(b) < |b|
    ensures TerminatorIndex(b + more) == TerminatorIndex(b)
  {
    var n := TerminatorIndex(b);
    hide TerminatorIndex;
    assert forall i :: 0 <= i <= n ==> (b + more)[i] == b[i];
    TerminatesAt(b + more, n);
  }

  lemma Varint32Local(b: Bytes, more: Bytes)
    requires ReadVarint32(b).Some?
    ensures ReadVarint32(b + more) == Some((ReadVarint32(b).value.0, ReadVarint32(b).value.1 + more))
  {
    hide TerminatorIndex, VarintValue, Extends;
    TerminatorLocal(b, more);
    var n := TerminatorIndex(b);
    var m := if n < 5 then n + 1 else 5;
    assert (b + more)[..m] == b[..m] && (b + more)[n + 1..] == b[n + 1..] + more;
    assert forall p :: 0 <= p <= n ==> (b + more)[p] == b[p];
  }

  lemma Varint64Local(b: Bytes, more: Bytes)
    requires ReadVarint64(b).Some?
    ensures ReadVarint64(b + more) == Some((ReadVarint64(b).value.0, ReadVarint64(b).value.1 + more))
  {
    hide TerminatorIndex, VarintValue;
    TerminatorLocal(b, more);
    var n := TerminatorIndex(b);
    assert (b + more)[..n + 1] == b[..n + 1] && (b + more)[n + 1..] == b[n + 1..] + more;
  }

  lemma PartsLocal(b: Bytes, more: Bytes, n: nat)
    requires n <= |b|
    ensures (b + more)[..n] == b[..n] && (b + more)[n..] == b[n..] + more
  {
  }

  lemma CutLocal(b: Bytes, more: Bytes)
    requires Cut(b).Some?
    ensures Cut(b + more) == Some((Cut(b).value.0, Cut(b).value.1 + more))
  {
    hide ReadVarint32;
    Varint32Local(b, more);
    var x := ReadVarint32(b).value;
    PartsLocal(x.1, more, x.0);
  }

  lemma DataLocal(b: Bytes, k: Nanopb.Kind, more: Bytes)
    requires ReadData(b, k).Some?
    ensures ReadData(b + more, k) == Some((ReadData(b, k).value.0, ReadData(b, k).value.1 + more))
  {
    hide ReadVarint32;
    Varint32Local(b, more);
    var x := ReadVarint32(b).value;
    if x.0 <= |x.1| {
      PartsLocal(x.1, more, x.0);
    }
  }

  lemma IntLocal(b: Bytes, k: Nanopb.Kind, more: Bytes)
    requires ReadInt(b, k).Some?
    ensures ReadInt(b + more, k) == Some((ReadInt(b, k).value.0, ReadInt(b, k).value.1 + more))
  {
    hide ReadVarint64, CastInt;
    Varint64Local(b, more);
  }

  lemma ItemLocal(b: Bytes, k: Nanopb.Kind, repeated: bool, cur: Value, more: Bytes)
    requires ReadItem(b, k, repeated, cur).Some?
    ensures ReadItem(b + more, k, repeated, cur) ==
      Some((ReadItem(b, k, repeated, cur).value.0, ReadItem(b, k, repeated, cur).value.1 + more))
  {
    hide ReadVarint32, ReadInt, ReadData, Cut, ReadMessage, FixedValue;
    match k
    case Bool => Varint32Local(b, more);
    case Int(_) => IntLocal(b, k, more);
    case UInt(_) => IntLocal(b, k, more);
    case SInt(_) => IntLocal(b, k, more);
    case Fixed32 => PartsLocal(b, more, 4);
    case Fixed64 => PartsLocal(b, more, 8);
    case Message(_) => CutLocal(b, more);
    case _ => DataLocal(b, k, more);
  }

  lemma FieldLocal(b: Bytes, f: Field, slot: Slot, wireType: nat, more: Bytes)
    requires ReadField(b, f, slot, wireType).Some?
    ensures ReadField(b + more, f, slot, wireType) ==
      Some((ReadField(b, f, slot, wireType).value.0, ReadField(b, f, slot, wireType).value.1 + more))
  {
    hide ReadItem, Cut, ReadElements;
    if f.rule.Repeated? && wireType == 2 && Packable(f.kind) {
      CutLocal(b, more);
    } else if f.rule.Repeated? {
      ItemLocal(b, f.kind, true, DefaultValue(f.kind), more);
    } else {
      ItemLocal(b, f.kind, false, Storage(f, slot), more);
    }
  }

  lemma SkippedLocal(b: Bytes, wireType: nat, more: Bytes)
    requires Skipped(b, wireType).Some?
    ensures Skipped(b + more, wireType) == Some(Skipped(b, wireType).value + more)
  {
    hide Cut, TerminatorIndex;
    match wireType
    case 0 =>
      TerminatorLocal(b, more);
      PartsLocal(b, more, TerminatorIndex(b) + 1);
    case 1 => PartsLocal(b, more, 8);
    case 2 => CutLocal(b, more);
    case 5 => PartsLocal(b, more, 4);
    case _ =>
  }

  lemma OneLocal(b: Bytes, fs: seq<Field>, at: Reading, key: nat, more: Bytes)
    requires ReadingOk(fs, at) && ReadOne(b, fs, at, key).Some?
    ensures ReadOne(b + more, fs, at, key) ==
      Some((ReadOne(b, fs, at, key).value.0, ReadOne(b, fs, at, key).value.1 + more))
  {
    hide ReadField, Skipped, FoundFrom, OnlyMember;
    match FoundFrom(fs, at.pos, |fs|, key / 8)
    case None => SkippedLocal(b, key % 8, more);
    case Some(p) => FieldLocal(b, fs[p], OnlyMember(fs, at.slots, p)[p], key % 8, more);
  }

  // ----- the laws -----

  // Bytes put together take effect one after the other, unless the first ones
  // end with a zero key.
  lemma {:induction false} FieldsMerge(a: Bytes, b: Bytes, fs: seq<Field>, at: Reading)
    requires ReadingOk(fs, at) && !at.ended && ReadFields(a, fs, at).Some? && !ReadFields(a, fs, at).value.ended
    ensures ReadFields(a + b, fs, at) == ReadFields(b, fs, ReadFields(a, fs, at).value)
    decreases |a|
  {
    hide ReadFields, ReadOne, ReadVarint32;
    FieldsStep(a, fs, at);
    FieldsStep(a + b, fs, at);
    if a == [] {
      assert a + b == b;
    } else {
      Varint32Local(a, b);
      var key := ReadVarint32(a).value;
      OneLocal(key.1, fs, at, key.0, b);
      var x := ReadOne(key.1, fs, at, key.0).value;
      EndsOnlyAtZero(key.1, fs, at, key.0);
      FieldsMerge(x.1, b, fs, x.0);
    }
  }

  lemma EndsOnlyAtZero(b: Bytes, fs: seq<Field>, at: Reading, key: nat)
    requires ReadingOk(fs, at) && ReadOne(b, fs, at, key).Some?
    ensures ReadOne(b, fs, at, key).value.0.ended == at.ended
  {
    hide ReadField, Skipped, FoundFrom, OnlyMember;
  }

  // A whole field of a tag that no field has.
  ghost predicate Unknown(u: Bytes, fs: seq<Field>) {
    && ReadVarint32(u).Some? && ReadVarint32(u).value.0 != 0
    && (forall i :: 0 <= i < |fs| ==> fs[i].tag != ReadVarint32(u).value.0 / 8)
    && Skipped(ReadVarint32(u).value.1, ReadVarint32(u).value.0 % 8) == Some([])
  }

  lemma {:induction false} NotFound(fs: seq<Field>, pos: nat, left: nat, tag: nat)
    requires (left > 0 ==> pos < |fs|) && forall i :: 0 <= i < |fs| ==> fs[i].tag != tag
    ensures FoundFrom(fs, pos, left, tag) == None
    decreases left
  {
    if left > 0 {
      NotFound(fs, if pos + 1 < |fs| then pos + 1 else 0, left - 1, tag);
    }
  }

  // It is as if the field were not there.
  lemma {:induction false} UnknownFieldsAreSkipped(u: Bytes, b: Bytes, fs: seq<Field>, at: Reading)
    requires ReadingOk(fs, at) && !at.ended && Unknown(u, fs)
    ensures ReadFields(u + b, fs, at) == ReadFields(b, fs, at)
  {
    hide ReadFields, ReadVarint32, Skipped, FoundFrom, ReadField;
    var key := ReadVarint32(u).value;
    NotFound(fs, at.pos, |fs|, key.0 / 8);
    assert u != [];
    FieldsStep(u, fs, at);
    FieldsStep([], fs, at);
    FieldsMerge(u, b, fs, at);
  }

  // The field that a key and its value set; no other field's slot changes, but
  // for the other members of its union, which are unset.
  lemma OneFieldOnly(b: Bytes, fs: seq<Field>, at: Reading, key: nat, n: nat)
    requires ReadingOk(fs, at) && ReadOne(b, fs, at, key).Some? && n < |fs|
    ensures var at', found := ReadOne(b, fs, at, key).value.0, FoundFrom(fs, at.pos, |fs|, key / 8);
      match found
      case None => at' == at
      case Some(p) =>
        && p < |fs| && fs[p].tag == key / 8 && at'.decoded == at.decoded + {p}
        && (n != p ==>
              at'.slots[n] == if fs[p].rule.Oneof? && fs[n].rule == fs[p].rule then Maybe(None) else at.slots[n])
  {
    hide ReadField, Skipped, FoundFrom;
  }

  // A field that is not seen keeps its slot, if it is no member of a union.
  lemma {:induction false} UnseenStay(b: Bytes, fs: seq<Field>, at: Reading, n: nat)
    requires ReadingOk(fs, at) && ReadFields(b, fs, at).Some? && n < |fs| && !fs[n].rule.Oneof?
    ensures var m := ReadFields(b, fs, at).value;
      at.decoded <= m.decoded && (n !in m.decoded ==> m.slots[n] == at.slots[n])
    decreases |b|
  {
    hide ReadFields, ReadOne, ReadVarint32, FoundFrom;
    FieldsStep(b, fs, at);
    if b != [] && ReadVarint32(b).value.0 != 0 {
      var key := ReadVarint32(b).value;
      var x := ReadOne(key.1, fs, at, key.0).value;
      OneFieldOnly(key.1, fs, at, key.0, n);
      UnseenStay(x.1, fs, x.0, n);
    }
  }

  // A value other than a submessage replaces what was there before.
  lemma ValueReplaces(b: Bytes, f: Field, slot: Slot, slot': Slot, wireType: nat)
    requires !f.rule.Repeated? && !f.kind.Message?
    ensures ReadField(b, f, slot, wireType) == ReadField(b, f, slot', wireType)
  {
    hide ReadVarint32, ReadInt, ReadData, FixedAt;
  }

  // The same but for the slot of field n.
  ghost predicate Alike(at: Reading, at': Reading, n: nat) {
    && |at.slots| == |at'.slots| && at'.decoded == at.decoded && at'.pos == at.pos && at'.ended == at.ended
    && forall i :: 0 <= i < |at.slots| && i != n ==> at'.slots[i] == at.slots[i]
  }

  // One key and value, read from two states alike.
  lemma OneAlike(b: Bytes, fs: seq<Field>, at: Reading, at': Reading, key: nat, n: nat)
    requires ReadingOk(fs, at) && ReadingOk(fs, at') && Alike(at, at', n) && n < |fs|
    requires !fs[n].rule.Repeated? && !fs[n].kind.Message?
    ensures ReadOne(b, fs, at, key).Some? <==> ReadOne(b, fs, at', key).Some?
    ensures ReadOne(b, fs, at, key).Some? ==>
      var x, x' := ReadOne(b, fs, at, key).value, ReadOne(b, fs, at', key).value;
      && x'.1 == x.1 && Alike(x.0, x'.0, n) && at.decoded <= x.0.decoded
      && (n in x.0.decoded && n !in at.decoded ==> x'.0 == x.0)
      && (at'.slots[n] == at.slots[n] ==> x'.0 == x.0)
  {
    hide ReadField, Skipped, FoundFrom;
    match FoundFrom(fs, at.pos, |fs|, key / 8)
    case None =>
      if at'.slots[n] == at.slots[n] {
        assert at'.slots == at.slots;
      }
    case Some(p) =>
      var slots, slots' := OnlyMember(fs, at.slots, p), OnlyMember(fs, at'.slots, p);
      if p == n {
        ValueReplaces(b, fs[p], slots[p], slots'[p], key % 8);
        if ReadField(b, fs[p], slots[p], key % 8).Some? {
          var s := ReadField(b, fs[p], slots[p], key % 8).value.0;
          assert slots'[p := s] == slots[p := s];
        }
      } else {
        assert slots'[p] == slots[p];
        if at'.slots[n] == at.slots[n] {
          assert at'.slots == at.slots;
        }
      }
  }

  // The last one wins: once these bytes have set a singular field that is no
  // submessage, nothing depends on what it was before.
  lemma {:induction false} LastOneWins(b: Bytes, fs: seq<Field>, at: Reading, at': Reading, n: nat)
    requires ReadingOk(fs, at) && ReadingOk(fs, at') && Alike(at, at', n) && n < |fs|
    requires !fs[n].rule.Repeated? && !fs[n].kind.Message?
    ensures ReadFields(b, fs, at).Some? <==> ReadFields(b, fs, at').Some?
    ensures ReadFields(b, fs, at).Some? ==>
      var m, m' := ReadFields(b, fs, at).value, ReadFields(b, fs, at').value;
      && Alike(m, m', n) && (n in m.decoded && n !in at.decoded ==> m' == m)
      && (at'.slots[n] == at.slots[n] ==> m' == m)
    decreases |b|
  {
    hide ReadFields, ReadOne, ReadVarint32, Alike;
    if at'.slots[n] == at.slots[n] {
      AlikeIsSame(at, at', n);
    } else {
      FieldsStep(b, fs, at);
      FieldsStep(b, fs, at');
      if b != [] && ReadVarint32(b).Some? {
        var key := ReadVarint32(b).value;
        if key.0 == 0 {
          AlikeEnds(at, at', n);
        } else {
          OneAlike(key.1, fs, at, at', key.0, n);
          if ReadOne(key.1, fs, at, key.0).Some? {
            var x, x' := ReadOne(key.1, fs, at, key.0).value, ReadOne(key.1, fs, at', key.0).value;
            LastOneWins(x.1, fs, x.0, x'.0, n);
          }
        }
      }
    }
  }

  lemma AlikeIsSame(at: Reading, at': Reading, n: nat)
    requires Alike(at, at', n) && n < |at.slots| == |at'.slots| && at'.slots[n] == at.slots[n]
    ensures at' == at && Alike(at, at, n)
    ensures forall m: Reading :: Alike(m, m, n)
  {
    assert at'.slots == at.slots;
  }

  lemma AlikeEnds(at: Reading, at': Reading, n: nat)
    requires Alike(at, at', n)
    ensures Alike(at.(ended := true), at'.(ended := true), n)
  {
  }

  // ----- submessages merge -----

  // Where the search for a field starts makes no difference.
  lemma FoundAnywhere(fs: seq<Field>, pos: nat, pos': nat, tag: nat)
    requires GoodFields(fs) && (fs != [] ==> pos < |fs| && pos' < |fs|)
    ensures FoundFrom(fs, pos, |fs|, tag) == FoundFrom(fs, pos', |fs|, tag)
  {
    hide FoundFrom, GoodFields;
    if FoundFrom(fs, pos, |fs|, tag).Some? {
      FoundThere(fs, pos', FoundFrom(fs, pos, |fs|, tag).value);
    } else if FoundFrom(fs, pos', |fs|, tag).Some? {
      FoundThere(fs, pos, FoundFrom(fs, pos', |fs|, tag).value);
    }
  }

  // The same message so far, with the fields `e` decoded besides.
  ghost predicate Further(at: Reading, at': Reading, e: set<nat>) {
    at'.slots == at.slots && at'.ended == at.ended && at'.decoded == e + at.decoded
  }

  lemma OneFurther(b: Bytes, fs: seq<Field>, at: Reading, at': Reading, key: nat, e: set<nat>)
    requires GoodFields(fs) && ReadingOk(fs, at) && ReadingOk(fs, at') && Further(at, at', e)
    ensures ReadOne(b, fs, at', key).Some? <==> ReadOne(b, fs, at, key).Some?
    ensures ReadOne(b, fs, at, key).Some? ==>
      var x, x' := ReadOne(b, fs, at, key).value, ReadOne(b, fs, at', key).value;
      x'.1 == x.1 && Further(x.0, x'.0, e)
  {
    hide ReadField, Skipped, FoundFrom, GoodFields, OnlyMember;
    FoundAnywhere(fs, at.pos, at'.pos, key / 8);
  }

  // What bytes mean does not depend on the fields decoded before them.
  lemma {:induction false} FieldsFurther(b: Bytes, fs: seq<Field>, at: Reading, at': Reading, e: set<nat>)
    requires GoodFields(fs) && ReadingOk(fs, at) && ReadingOk(fs, at') && Further(at, at', e)
    ensures ReadFields(b, fs, at').Some? <==> ReadFields(b, fs, at).Some?
    ensures ReadFields(b, fs, at).Some? ==> Further(ReadFields(b, fs, at).value, ReadFields(b, fs, at').value, e)
    decreases |b|
  {
    hide ReadFields, ReadOne, ReadVarint32, GoodFields;
    FieldsStep(b, fs, at);
    FieldsStep(b, fs, at');
    if b != [] && ReadVarint32(b).Some? && ReadVarint32(b).value.0 != 0 {
      var key := ReadVarint32(b).value;
      OneFurther(key.1, fs, at, at', key.0, e);
      if ReadOne(key.1, fs, at, key.0).Some? {
        var x, x' := ReadOne(key.1, fs, at, key.0).value, ReadOne(key.1, fs, at', key.0).value;
        FieldsFurther(x.1, fs, x.0, x'.0, e);
      }
    }
  }

  // Bytes behind a zero key are dropped.
  lemma {:induction false} ZeroKeyEnds(a: Bytes, b: Bytes, fs: seq<Field>, at: Reading)
    requires ReadingOk(fs, at) && !at.ended && ReadFields(a, fs, at).Some? && ReadFields(a, fs, at).value.ended
    ensures ReadFields(a + b, fs, at) == ReadFields(a, fs, at)
    decreases |a|
  {
    hide ReadFields, ReadOne, ReadVarint32;
    FieldsStep(a, fs, at);
    FieldsStep(a + b, fs, at);
    if a != [] {
      Varint32Local(a, b);
      var key := ReadVarint32(a).value;
      if key.0 != 0 {
        OneLocal(key.1, fs, at, key.0, b);
        EndsOnlyAtZero(key.1, fs, at, key.0);
        var x := ReadOne(key.1, fs, at, key.0).value;
        ZeroKeyEnds(x.1, b, fs, x.0);
      }
    }
  }

  // Reading a message into these slots.
  ghost function FieldsInto(b: Bytes, fs: seq<Field>, start: seq<Slot>): (r: Option<Reading>)
    requires |start| == |fs|
    ensures r.Some? ==> |r.value.slots| == |fs|
  {
    ReadFields(b, fs, Reading(start, {}, 0, false))
  }

  // Two messages read one after the other, into the same slots.
  lemma MessagesMerge(a: Bytes, b: Bytes, fs: seq<Field>, start: seq<Slot>)
    requires GoodFields(fs) && |start| == |fs| && FieldsInto(a, fs, start).Some?
    ensures var x := FieldsInto(a, fs, start).value;
      if x.ended then FieldsInto(a + b, fs, start) == Some(x)
      else
        var y := FieldsInto(b, fs, x.slots);
        && (FieldsInto(a + b, fs, start).Some? <==> y.Some?)
        && (y.Some? ==> Further(y.value, FieldsInto(a + b, fs, start).value, x.decoded))
  {
    hide ReadFields, GoodFields;
    var at := Reading(start, {}, 0, false);
    var x := ReadFields(a, fs, at).value;
    if x.ended {
      ZeroKeyEnds(a, b, fs, at);
    } else {
      FieldsMerge(a, b, fs, at);
      FieldsFurther(b, fs, Reading(x.slots, {}, 0, false), x, x.decoded);
    }
  }

  // What a submessage of field f is read into: the one that is there, or its
  // default.
  ghost function Into(f: Field, slot: Slot): (r: seq<Slot>)
    requires f.kind.Message?
    ensures |r| == |f.kind.fields|
  {
    NestedStart(f.kind.fields, false, Storage(f, slot))
  }

  ghost function Holding(f: Field, m: seq<Slot>): Slot {
    if f.rule.Required? then One(Nested(m)) else Maybe(Some(Nested(m)))
  }

  lemma SubmessageRead(a: Bytes, fs: seq<Field>, start: seq<Slot>)
    requires |start| == |fs|
    ensures ReadMessage(a, fs, start) ==
      match FieldsInto(a, fs, start)
      case None => None
      case Some(x) => if NoneMissing(fs, x.decoded) then Some(x.slots) else None
  {
    hide ReadFields, NoneMissing;
  }

  lemma HeldIsRead(f: Field, m: seq<Slot>)
    requires f.kind.Message? && |m| == |f.kind.fields|
    ensures Into(f, Holding(f, m)) == m
  {
  }

  // A singular submessage's field is read on from the submessage that is there.
  lemma SubmessageIs(a: Bytes, tail: Bytes, f: Field, slot: Slot)
    requires !f.rule.Repeated? && f.kind.Message? && |a| < TWO_32
    ensures ReadField(Delimited(a) + tail, f, slot, 2) ==
      match FieldsInto(a, f.kind.fields, Into(f, slot))
      case None => None
      case Some(x) =>
        if NoneMissing(f.kind.fields, x.decoded) then Some((Holding(f, x.slots), tail)) else None
  {
    hide Delimited, Cut, ReadFields, NoneMissing, NestedStart;
    CutRoundTrip(a, tail);
    SubmessageRead(a, f.kind.fields, Into(f, slot));
    assert ReadItem(Delimited(a) + tail, f.kind, false, Storage(f, slot)) ==
      match ReadMessage(a, f.kind.fields, Into(f, slot)) case None => None case Some(m) => Some((Nested(m), tail));
  }

  // No required field of the message is missing from these bytes.
  ghost predicate Complete(b: Bytes, fs: seq<Field>, start: seq<Slot>)
    requires |start| == |fs|
  {
    FieldsInto(b, fs, start).Some? && NoneMissing(fs, FieldsInto(b, fs, start).value.decoded)
  }

  lemma NoneMissingGrows(fs: seq<Field>)
    ensures forall d: set<nat>, e: set<nat> :: NoneMissing(fs, d) ==> NoneMissing(fs, e + d)
  {
  }

  // One occurrence of a field in a message.
  ghost function Occurrence(f: Field, b: Bytes): Bytes {
    FieldTag(f.tag, 2) + Delimited(b)
  }

  lemma OccurrenceIs(b: Bytes, tail: Bytes, fs: seq<Field>, at: Reading, n: nat)
    requires GoodFields(fs) && ReadingOk(fs, at) && n < |fs| && |b| < TWO_32
    ensures ReadFields(Occurrence(fs[n], b) + tail, fs, at) ==
      match ReadField(Delimited(b) + tail, fs[n], at.slots[n], 2)
      case None => None
      case Some(x) =>
        ReadFields(x.1, fs, Reading(OnlyMember(fs, at.slots, n)[n := x.0], at.decoded + {n}, n, at.ended))
  {
    hide ReadFields, ReadField, ReadVarint32, Varint, FoundFrom, Delimited, GoodKind;
    var rest := Delimited(b) + tail;
    assert GoodField(fs[n]);
    hide GoodFields;
    Read32RoundTrip(fs[n].tag * 8 + 2, rest);
    Join(FieldTag(fs[n].tag, 2), Delimited(b), tail);
    assert Occurrence(fs[n], b) + tail == Varint(fs[n].tag * 8 + 2) + rest;
    FieldsStep(Occurrence(fs[n], b) + tail, fs, at);
    FoundThere(fs, at.pos, n);
    assert (fs[n].tag * 8 + 2) / 8 == fs[n].tag && (fs[n].tag * 8 + 2) % 8 == 2;
    assert OnlyMember(fs, at.slots, n)[n] == at.slots[n];
  }

  // Two occurrences in a message, with whatever follows, are read as one with the
  // bytes of both, if both are complete; otherwise they are refused. A zero key
  // that ends the first of them drops the second from the bytes together.
  lemma SubmessagesMerge(a: Bytes, b: Bytes, tail: Bytes, fs: seq<Field>, at: Reading, n: nat)
    requires GoodFields(fs) && ReadingOk(fs, at) && n < |fs| && |a| + |b| < TWO_32
    requires !fs[n].rule.Repeated? && fs[n].kind.Message?
    ensures var sub, start := fs[n].kind.fields, Into(fs[n], at.slots[n]);
      var two := ReadFields(Occurrence(fs[n], a) + (Occurrence(fs[n], b) + tail), fs, at);
      var together := ReadFields(Occurrence(fs[n], a + b) + tail, fs, at);
      if !Complete(a, sub, start) then two == None
      else
        var x := FieldsInto(a, sub, start).value;
        && (!Complete(b, sub, x.slots) ==> two == None)
        && if x.ended then together == ReadFields(Occurrence(fs[n], a) + tail, fs, at)
           else Complete(b, sub, x.slots) || FieldsInto(b, sub, x.slots) == None ==> two == together
  {
    hide ReadFields, ReadField, FieldsInto, NestedStart, GoodFields, Delimited, NoneMissing, Into, Holding, Occurrence;
    var f, slot := fs[n], at.slots[n];
    var start := Into(f, slot);
    GoodKindOf(fs, n);
    OccurrenceIs(a, Occurrence(f, b) + tail, fs, at, n);
    OccurrenceIs(a, tail, fs, at, n);
    OccurrenceIs(a + b, tail, fs, at, n);
    SubmessageIs(a, Occurrence(f, b) + tail, f, slot);
    SubmessageIs(a, tail, f, slot);
    SubmessageIs(a + b, tail, f, slot);
    if Complete(a, f.kind.fields, start) {
      var x := FieldsInto(a, f.kind.fields, start).value;
      var at' := Reading(OnlyMember(fs, at.slots, n)[n := Holding(f, x.slots)], at.decoded + {n}, n, at.ended);
      MessagesMerge(a, b, f.kind.fields, start);
      HeldIsRead(f, x.slots);
      OccurrenceIs(b, tail, fs, at', n);
      SubmessageIs(b, tail, f, Holding(f, x.slots));
      NoneMissingGrows(f.kind.fields);
      var y := FieldsInto(b, f.kind.fields, x.slots);
      if y.Some? {
        MembersAreUnsetOnce(fs, at.slots, n, Holding(f, x.slots), Holding(f, y.value.slots));
      }
    }
  }

  lemma GoodKindOf(fs: seq<Field>, n: nat)
    requires GoodFields(fs) && n < |fs| && fs[n].kind.Message?
    ensures GoodFields(fs[n].kind.fields)
  {
    assert GoodField(fs[n]);
    assert GoodKind(fs[n].kind);
  }

  lemma MembersAreUnsetOnce(fs: seq<Field>, slots: seq<Slot>, n: nat, s: Slot, s': Slot)
    requires |fs| == |slots| && n < |fs|
    ensures OnlyMember(fs, OnlyMember(fs, slots, n)[n := s], n)[n := s'] == OnlyMember(fs, slots, n)[n := s']
  {
    var one, two := OnlyMember(fs, slots, n)[n := s'], OnlyMember(fs, OnlyMember(fs, slots, n)[n := s], n)[n := s'];
    assert |one| == |two| && forall i :: 0 <= i < |one| ==> one[i] == two[i];
  }

  lemma {:induction false} ElementsAppend(b: Bytes, k: Nanopb.Kind, max: nat, items: seq<Value>)
    requires ReadElements(b, k, max, items).Some? && |items| <= max
    ensures items <= ReadElements(b, k, max, items).value && |ReadElements(b, k, max, items).value| <= max
    decreases |b|
  {
    hide ReadItem, ReadElements;
    ElementsStep(b, k, max, items);
    if b != [] {
      var x := ReadItem(b, k, true, DefaultValue(k)).value;
      ElementsAppend(x.1, k, max, items + [x.0]);
      assert items <= items + [x.0];
    }
  }

  // Elements are added at the end of an array, one by one or a packed block at a
  // time, and never more than it has room for.
  lemma {:induction false} ArraysGrow(b: Bytes, f: Field, items: seq<Value>, wireType: nat)
    requires f.rule.Repeated? && |items| <= f.rule.max && ReadField(b, f, Many(items), wireType).Some?
    ensures var slot := ReadField(b, f, Many(items), wireType).value.0;
      slot.Many? && items <= slot.vs && |slot.vs| <= f.rule.max
  {
    hide ReadItem, ReadElements, Cut;
    if wireType == 2 && Packable(f.kind) {
      ElementsAppend(Cut(b).value.0, f.kind, f.rule.max, items);
    }
  }
}
