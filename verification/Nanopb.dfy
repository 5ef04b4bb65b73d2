// nanopb: a descriptor-driven protobuf encoder that runs twice, once for sizes
// and once to write, and the decoder that undoes it (pb_encode.c, pb_decode.c,
// pb_common.c). Messages are static, without callbacks or extensions. The wire
// format is that of "Base 128 Varints" and "Message Structure" in the Protocol
// Buffers Encoding guide.
module Nanopb {
  import opened Keys
  import opened Codings

  // ----- descriptors and messages -----

  // Integers carry the byte size of their C type; byte arrays the most they
  // hold; strings the size of their buffer, terminator included.
  datatype Kind =
    | Bool
    | Int(size: nat)
    | UInt(size: nat)
    | SInt(size: nat)
    | Fixed32
    | Fixed64
    | BytesOf(max: nat)
    | StringOf(size: nat)
    | FixedBytes(n: nat)
    | Message(fields: seq<Field>)

  datatype Rule = Required | Optional | Repeated(max: nat) | Oneof(group: nat)

  datatype Field = Field(tag: nat, kind: Kind, rule: Rule)

  datatype Value = Number(i: int) | Data(b: Bytes) | Nested(slots: seq<Slot>)

  // What the struct holds for a field: a value; a value with its has-flag, or a
  // member of a union with its tag set; or an array with its count.
  datatype Slot = One(v: Value) | Maybe(o: Option<Value>) | Many(vs: seq<Value>)

  // PB_LTYPE_LAST_PACKABLE.
  predicate Packable(k: Kind) {
    k.Bool? || k.Int? || k.UInt? || k.SInt? || k.Fixed32? || k.Fixed64?
  }

  predicate IsSize(size: nat) {
    size == 1 || size == 2 || size == 4 || size == 8
  }

  // How many values an integer of this size has.
  function Span(size: nat): nat {
    if size == 1 then 0x100 else if size == 2 then 0x1_0000 else if size == 4 then TWO_32 else TWO_64
  }

  // What a struct in memory can hold; what the encoder takes; and what comes
  // back whole, with room for every string's terminator.
  datatype Level = InMemory | Encodable | Sound

  ghost predicate Held(l: Level, k: Kind, v: Value)
    decreases k, 1
  {
    match k
    case Bool => v.Number? && 0 <= v.i <= 1
    case Int(size) => v.Number? && IsSize(size) && 0 <= v.i + Span(size) / 2 < Span(size)
    case UInt(size) => v.Number? && IsSize(size) && 0 <= v.i < Span(size)
    case SInt(size) => v.Number? && IsSize(size) && 0 <= v.i + Span(size) / 2 < Span(size)
    case Fixed32 => v.Number? && 0 <= v.i < TWO_32
    case Fixed64 => v.Number? && 0 <= v.i < TWO_64
    case BytesOf(max) => v.Data? && |v.b| < TWO_32 && (l != InMemory ==> |v.b| <= max)
    case StringOf(size) =>
      v.Data? && |v.b| <= size && |v.b| < TWO_32 && (l == Sound ==> |v.b| < size) &&
      forall i :: 0 <= i < |v.b| ==> v.b[i] != 0
    case FixedBytes(n) => v.Data? && |v.b| == n < TWO_32
    case Message(fields) => v.Nested? && AllHeld(l, fields, v.slots)
  }

  ghost predicate SlotHeld(l: Level, f: Field, s: Slot)
    decreases f, 2
  {
    match f.rule
    case Required => s.One? && Held(l, f.kind, s.v)
    case Optional => s.Maybe? && (s.o.Some? ==> Held(l, f.kind, s.o.value))
    case Oneof(_) => s.Maybe? && (s.o.Some? ==> Held(l, f.kind, s.o.value))
    case Repeated(max) =>
      s.Many? && (l != InMemory ==> |s.vs| <= max) && forall j :: 0 <= j < |s.vs| ==> Held(l, f.kind, s.vs[j])
  }

  ghost predicate AllHeld(l: Level, fs: seq<Field>, slots: seq<Slot>)
    decreases fs, 3
  {
    && |slots| == |fs| && OneMember(fs, slots)
    && forall i :: 0 <= i < |fs| ==> SlotHeld(l, fs[i], slots[i])
  }

  // A union holds at most one of its members: its tag names it.
  ghost predicate OneMember(fs: seq<Field>, slots: seq<Slot>)
    requires |fs| == |slots|
  {
    forall i, j ::
      0 <= i < j < |fs| && fs[i].rule.Oneof? && fs[i].rule == fs[j].rule && slots[i].Maybe? && slots[j].Maybe? ==>
      slots[i].o == None || slots[j].o == None
  }

  // ----- the wire format -----

  // WT_VARINT, WT_64BIT, WT_STRING, WT_32BIT.
  function WireType(k: Kind): nat {
    match k
    case Fixed32 => 5
    case Fixed64 => 1
    case BytesOf(_) => 2
    case StringOf(_) => 2
    case FixedBytes(_) => 2
    case Message(_) => 2
    case _ => 0
  }

  function FieldTag(tag: nat, wireType: nat): Bytes {
    Varint(tag * 8 + wireType)
  }

  // The zigzag form of a signed integer.
  function Zigzag(i: int): nat {
    if i < 0 then -2 * i - 1 else 2 * i
  }

  // The 64-bit pattern of an integer.
  function Pattern(i: int): nat
    requires i + TWO_64 >= 0
  {
    if i < 0 then i + TWO_64 else i
  }

  // A length and that many bytes.
  function Delimited(b: Bytes): Bytes {
    Varint(|b|) + b
  }

  function EncodeValue(k: Kind, v: Value): Bytes
    decreases k, 1
  {
    match (k, v)
    case (Bool, Number(i)) => Varint(if i == 0 then 0 else 1)
    case (Int(_), Number(i)) => if i + TWO_64 >= 0 then Varint(Pattern(i)) else []
    case (UInt(_), Number(i)) => if i >= 0 then Varint(i) else []
    case (SInt(_), Number(i)) => Varint(Zigzag(i))
    case (Fixed32, Number(i)) => if i >= 0 then Fixed(i, 4) else []
    case (Fixed64, Number(i)) => if i >= 0 then Fixed(i, 8) else []
    case (BytesOf(_), Data(b)) => Delimited(b)
    case (StringOf(_), Data(b)) => Delimited(b)
    case (FixedBytes(_), Data(b)) => Delimited(b)
    case (Message(fields), Nested(slots)) => Delimited(EncodeFrom(fields, slots, 0))
    case _ => []
  }

  // The elements of an array one after another; each with its tag, or none.
  function EncodeElements(k: Kind, vs: seq<Value>, tag: Bytes): Bytes
    decreases k, 2, |vs|
  {
    if vs == [] then [] else EncodeElements(k, vs[..|vs| - 1], tag) + tag + EncodeValue(k, vs[|vs| - 1])
  }

  function EncodeSlot(f: Field, s: Slot): Bytes
    decreases f, 3
  {
    var tag := FieldTag(f.tag, WireType(f.kind));
    match s
    case One(v) => tag + EncodeValue(f.kind, v)
    case Maybe(None) => []
    case Maybe(Some(v)) => tag + EncodeValue(f.kind, v)
    case Many(vs) =>
      if vs == [] then []
      else if Packable(f.kind) then FieldTag(f.tag, 2) + Delimited(EncodeElements(f.kind, vs, []))
      else EncodeElements(f.kind, vs, tag)
  }

  // The fields from the i-th on.
  function EncodeFrom(fs: seq<Field>, slots: seq<Slot>, i: nat): Bytes
    decreases fs, 4, |fs| - i
  {
    if i < |fs| && i < |slots| then EncodeSlot(fs[i], slots[i]) + EncodeFrom(fs, slots, i + 1) else []
  }

  // ----- the encoder -----

  // An output stream: to a buffer of limited size, or counting bytes only.
  class OutStream {
    const sizing: bool
    const maxSize: nat
    var bytesWritten: nat
    var out: Bytes
    ghost var content: Bytes    // everything written or counted

    ghost predicate Ok()
      reads this
    {
      bytesWritten == |content| && if sizing then out == [] else out == content && |content| <= maxSize
    }

    ghost predicate Room(n: nat)
      reads this
    {
      sizing || bytesWritten + n <= maxSize
    }

    constructor (onlySizing: bool, max: nat)
      ensures Ok() && sizing == onlySizing && maxSize == max && content == []
    {
      sizing, maxSize, bytesWritten, out, content := onlySizing, max, 0, [], [];
    }

    method Write(buf: Bytes) returns (ok: bool)
      requires Ok()
      modifies this
      ensures Ok() && (ok <==> old(Room(|buf|))) && (ok ==> content == old(content) + buf)
    {
      if |buf| > 0 && !sizing {
        if bytesWritten + |buf| > maxSize {
          return false;
        }
        out := out + buf;
      }
      bytesWritten := bytesWritten + |buf|;
      content := content + buf;
      ok := true;
    }

    // pb_write without a buffer, while sizing.
    method Count(n: nat, ghost counted: Bytes)
      requires Ok() && sizing && n == |counted|
      modifies this`bytesWritten, this`content
      ensures Ok() && content == old(content) + counted
    {
      bytesWritten := bytesWritten + n;
      content := content + counted;
    }

    method EncodeVarint(value: nat) returns (ok: bool)
      requires Ok()
      modifies this
      ensures Ok() && (ok <==> old(Room(|Varint(value)|))) && (ok ==> content == old(content) + Varint(value))
    {
      if value <= 0x7f {
        LastByte(value);
        ok := Write([value]);
      } else {
        var buffer := VarintBytes(value);
        ok := Write(buffer);
      }
    }

    method EncodeTag(wireType: nat, tag: nat) returns (ok: bool)
      requires Ok() && wireType < 8
      modifies this
      ensures Ok() && (ok <==> old(Room(|FieldTag(tag, wireType)|)))
      ensures ok ==> content == old(content) + FieldTag(tag, wireType)
    {
      ok := EncodeVarint(tag * 8 + wireType);
    }

    method EncodeString(b: Bytes) returns (ok: bool)
      requires Ok()
      modifies this
      ensures Ok() && (ok <==> old(Room(|Delimited(b)|))) && (ok ==> content == old(content) + Delimited(b))
    {
      hide Varint;
      ok := EncodeVarint(|b|);
      if ok {
        ok := Write(b);
      }
    }
  }

  // The loop that fills the buffer of pb_encode_varint: every byte has its top
  // bit set, which the last one then loses.
  method VarintBytes(value: nat) returns (buffer: Bytes)
    requires value > 0x7f
    ensures buffer == Varint(value)
  {
    hide Varint;
    ghost var w := Varint(value);
    buffer := [];
    var v: nat := value;
    while v > 0
      invariant v > 0 ==> w == buffer + Varint(v)
      invariant v == 0 ==> Topped(w, buffer)
    {
      VarintLoop(w, buffer, v, LowBits(v));
      buffer := buffer + [LowBits(v)];
      v := v / 128;
    }
    var last := |buffer| - 1;
    buffer := buffer[last := buffer[last] - 128];
  }

  // (value & 0x7F) | 0x80.
  function LowBits(v: nat): Byte {
    v % 128 + 128
  }

  // The varint but for the top bit of its last byte.
  ghost predicate Topped(w: Bytes, buffer: Bytes) {
    var last := |buffer| - 1;
    last >= 0 && buffer[last] >= 128 && w == buffer[..last] + [buffer[last] - 128]
  }

  lemma {:induction false} VarintLoop(w: Bytes, buffer: Bytes, v: nat, low: Byte)
    requires v > 0 && w == buffer + Varint(v) && low == LowBits(v)
    ensures v >= 128 ==> w == buffer + [low] + Varint(v / 128)
    ensures v < 128 ==> v / 128 == 0 && Topped(w, buffer + [low])
  {
    hide Varint;
    if v < 128 {
      LastByte(v);
      assert (buffer + [low])[..|buffer|] == buffer;
    } else {
      EncodeStep(buffer, v);
    }
  }

  lemma Join(o: Bytes, a: Bytes, b: Bytes)
    ensures (o + a) + b == o + (a + b)
  {
  }

  lemma JoinThree(o: Bytes, a: Bytes, b: Bytes, c: Bytes)
    ensures ((o + a) + b) + c == o + (a + b + c)
    ensures b == [] ==> (o + a) + c == o + (a + b + c)
  {
  }

  // One value, by the encoder of its kind.
  method EncodeItem(s: OutStream, k: Kind, v: Value) returns (ok: bool)
    requires s.Ok() && Held(InMemory, k, v)
    modifies s
    ensures s.Ok() && (ok <==> Held(Encodable, k, v) && old(s.Room(|EncodeValue(k, v)|)))
    ensures ok ==> s.content == old(s.content) + EncodeValue(k, v)
    decreases k, 1
  {
    hide Varint, AllHeld, EncodeFrom;
    match k
    case Bool => ok := s.EncodeVarint(if v.i != 0 then 1 else 0);
    case Int(_) => ok := s.EncodeVarint(Pattern(v.i));
    case UInt(_) => ok := s.EncodeVarint(v.i);
    case SInt(_) => ok := s.EncodeVarint(Zigzag(v.i));
    case Fixed32 => ok := s.Write(Fixed(v.i, 4));
    case Fixed64 => ok := s.Write(Fixed(v.i, 8));
    case BytesOf(max) =>
      if |v.b| > max {
        return false;
      }
      ok := s.EncodeString(v.b);
    case StringOf(_) => ok := s.EncodeString(v.b);
    case FixedBytes(_) => ok := s.EncodeString(v.b);
    case Message(fields) => ok := EncodeSubmessage(s, fields, v.slots);
  }

  // The size by a stream that only counts, then the bytes by one of exactly
  // that size: at every depth the second pass writes what the first counted.
  method EncodeSubmessage(s: OutStream, fs: seq<Field>, slots: seq<Slot>) returns (ok: bool)
    requires s.Ok() && AllHeld(InMemory, fs, slots)
    modifies s
    ensures s.Ok() && (ok <==> AllHeld(Encodable, fs, slots) && old(s.Room(|Delimited(EncodeFrom(fs, slots, 0))|)))
    ensures ok ==> s.content == old(s.content) + Delimited(EncodeFrom(fs, slots, 0))
    decreases fs, 6
  {
    hide Varint, AllHeld, EncodeFrom;
    var substream := new OutStream(true, 0);
    ok := Encode(substream, fs, slots);
    if !ok {
      return;
    }
    var size := substream.bytesWritten;
    ok := s.EncodeVarint(size);
    if !ok {
      return;
    }
    if s.sizing {
      s.Count(size, EncodeFrom(fs, slots, 0));
      return;
    }
    if s.bytesWritten + size > s.maxSize {
      return false;
    }
    substream := new OutStream(false, size);
    var status := Encode(substream, fs, slots);
    s.bytesWritten := s.bytesWritten + substream.bytesWritten;
    s.out := s.out + substream.out;
    s.content := s.content + substream.content;
    // "submsg size changed" cannot happen.
    assert substream.bytesWritten == size;
    ok := status;
  }

  // One element, after its tag when it has one.
  method EncodeElement(s: OutStream, k: Kind, v: Value, tag: Option<nat>, ghost t: Bytes) returns (ok: bool)
    requires s.Ok() && Held(InMemory, k, v)
    requires t == if tag.Some? then FieldTag(tag.value, WireType(k)) else []
    modifies s
    ensures s.Ok() && (ok <==> Held(Encodable, k, v) && old(s.Room(|t + EncodeValue(k, v)|)))
    ensures ok ==> s.content == old(s.content) + (t + EncodeValue(k, v))
    decreases k, 2
  {
    hide Held, EncodeValue, FieldTag;
    Join(old(s.content), t, EncodeValue(k, v));
    ok := true;
    if tag.Some? {
      ok := s.EncodeTag(WireType(k), tag.value);
    } else {
      assert s.content + [] == s.content;
    }
    if ok {
      ok := EncodeItem(s, k, v);
    }
  }

  // The elements one after another.
  method EncodeEach(s: OutStream, k: Kind, vs: seq<Value>, tag: Option<nat>, ghost t: Bytes) returns (ok: bool)
    requires s.Ok() && forall j :: 0 <= j < |vs| ==> Held(InMemory, k, vs[j])
    requires t == if tag.Some? then FieldTag(tag.value, WireType(k)) else []
    modifies s
    ensures s.Ok()
    ensures ok <==> (forall j :: 0 <= j < |vs| ==> Held(Encodable, k, vs[j])) && old(s.Room(|EncodeElements(k, vs, t)|))
    ensures ok ==> s.content == old(s.content) + EncodeElements(k, vs, t)
    decreases k, 3
  {
    hide Held, EncodeValue, FieldTag, EncodeElements;
    NoElementsTagged(k, vs[..0], t);
    ghost var done: Bytes := [];
    for i := 0 to |vs|
      invariant s.Ok() && s.content == old(s.content) + done
      invariant done == EncodeElements(k, vs[..i], t)
      invariant forall j :: 0 <= j < i ==> Held(Encodable, k, vs[j])
    {
      OneMoreElement(k, vs, i, t);
      Join(old(s.content), done, t + EncodeValue(k, vs[i]));
      Join(done, t, EncodeValue(k, vs[i]));
      done := done + (t + EncodeValue(k, vs[i]));
      ok := EncodeElement(s, k, vs[i], tag, t);
      if !ok {
        return;
      }
    }
    assert vs[..|vs|] == vs;
    ok := true;
  }

  lemma {:induction false} OneMoreElement(k: Kind, vs: seq<Value>, i: nat, tag: Bytes)
    requires i < |vs|
    ensures EncodeElements(k, vs[..i + 1], tag) == EncodeElements(k, vs[..i], tag) + tag + EncodeValue(k, vs[i])
    ensures |EncodeElements(k, vs[..i + 1], tag)| <= |EncodeElements(k, vs, tag)|
    decreases |vs| - i
  {
    hide EncodeValue;
    assert vs[..i + 1][..i] == vs[..i];
    if i + 1 < |vs| {
      OneMoreElement(k, vs, i + 1, tag);
    } else {
      assert vs[..i + 1] == vs;
    }
  }

  // An array: packed when its kind allows it.
  method EncodeArray(s: OutStream, f: Field, vs: seq<Value>) returns (ok: bool)
    requires s.Ok() && f.rule.Repeated? && SlotHeld(InMemory, f, Many(vs))
    modifies s
    ensures s.Ok() && (ok <==> SlotHeld(Encodable, f, Many(vs)) && old(s.Room(|EncodeSlot(f, Many(vs))|)))
    ensures ok ==> s.content == old(s.content) + EncodeSlot(f, Many(vs))
    decreases f, 4
  {
    hide Held, EncodeValue, EncodeElements, FieldTag, Varint;
    if vs == [] {
      return true;
    }
    if |vs| > f.rule.max {
      return false;
    }
    if Packable(f.kind) {
      ok := s.EncodeTag(2, f.tag);
      if !ok {
        return;
      }
      PackableHeld(f.kind, vs);
      var size: nat;
      if f.kind == Fixed32 {
        size := 4 * |vs|;
        FixedSizes(f.kind, vs);
      } else if f.kind == Fixed64 {
        size := 8 * |vs|;
        FixedSizes(f.kind, vs);
      } else {
        var sizestream := new OutStream(true, 0);
        ok := EncodeEach(sizestream, f.kind, vs, None, []);
        size := sizestream.bytesWritten;
      }
      ok := s.EncodeVarint(size);
      if !ok {
        return;
      }
      ghost var tag, elements := FieldTag(f.tag, 2), EncodeElements(f.kind, vs, []);
      JoinThree(old(s.content), tag, Varint(size), elements);
      Join(tag, Varint(size), elements);
      if s.sizing {
        s.Count(size, elements);
        return;
      }
      ok := EncodeEach(s, f.kind, vs, None, []);
    } else {
      ok := EncodeEach(s, f.kind, vs, Some(f.tag), FieldTag(f.tag, WireType(f.kind)));
    }
  }

  lemma PackableHeld(k: Kind, vs: seq<Value>)
    requires Packable(k) && forall j :: 0 <= j < |vs| ==> Held(InMemory, k, vs[j])
    ensures forall j :: 0 <= j < |vs| ==> Held(Encodable, k, vs[j])
  {
  }

  lemma {:induction false} FixedSizes(k: Kind, vs: seq<Value>)
    requires (k == Fixed32 || k == Fixed64) && forall j :: 0 <= j < |vs| ==> Held(InMemory, k, vs[j])
    ensures |EncodeElements(k, vs, [])| == (if k == Fixed32 then 4 else 8) * |vs|
    decreases |vs|
  {
    if vs != [] {
      FixedSizes(k, vs[..|vs| - 1]);
    }
  }

  method EncodeField(s: OutStream, f: Field, slot: Slot) returns (ok: bool)
    requires s.Ok() && SlotHeld(InMemory, f, slot)
    modifies s
    ensures s.Ok() && (ok <==> SlotHeld(Encodable, f, slot) && old(s.Room(|EncodeSlot(f, slot)|)))
    ensures ok ==> s.content == old(s.content) + EncodeSlot(f, slot)
    decreases f, 5
  {
    hide Held, EncodeValue, FieldTag;
    match slot
    case One(v) =>
      ok := s.EncodeTag(WireType(f.kind), f.tag);
      if ok {
        ok := EncodeItem(s, f.kind, v);
      }
    case Maybe(o) =>
      if o.Some? {
        ok := s.EncodeTag(WireType(f.kind), f.tag);
        if ok {
          ok := EncodeItem(s, f.kind, o.value);
        }
      } else {
        ok := true;
      }
    case Many(vs) => ok := EncodeArray(s, f, vs);
  }

  lemma {:induction false} FromStep(fs: seq<Field>, slots: seq<Slot>, i: nat)
    requires |fs| == |slots| && i < |fs|
    ensures EncodeFrom(fs, slots, i) == EncodeSlot(fs[i], slots[i]) + EncodeFrom(fs, slots, i + 1)
  {
  }

  // pb_encode.
  method Encode(s: OutStream, fs: seq<Field>, slots: seq<Slot>) returns (ok: bool)
    requires s.Ok() && AllHeld(InMemory, fs, slots)
    modifies s
    ensures s.Ok() && (ok <==> AllHeld(Encodable, fs, slots) && old(s.Room(|EncodeFrom(fs, slots, 0)|)))
    ensures ok ==> s.content == old(s.content) + EncodeFrom(fs, slots, 0)
    decreases fs, 5
  {
    hide SlotHeld, EncodeSlot, OneMember;
    ghost var all := EncodeFrom(fs, slots, 0);
    ghost var done: Bytes := [];
    for i := 0 to |fs|
      invariant s.Ok() && s.content == old(s.content) + done
      invariant all == done + EncodeFrom(fs, slots, i)
      invariant forall j :: 0 <= j < i ==> SlotHeld(Encodable, fs[j], slots[j])
    {
      ghost var enc := EncodeSlot(fs[i], slots[i]);
      FromStep(fs, slots, i);
      hide EncodeFrom;
      Join(done, enc, EncodeFrom(fs, slots, i + 1));
      Join(old(s.content), done, enc);
      ok := EncodeField(s, fs[i], slots[i]);
      if !ok {
        return;
      }
      done := done + enc;
    }
    ok := true;
  }

  // ----- the decoder -----

  // A byte past the fifth only extends the sign of v to 64 bits.
  predicate Extends(v: nat, p: nat, byte: Byte) {
    byte % 128 == 0 || (v >= 0x8000_0000 && byte == if p < 9 then 0xff else 0x01)
  }

  // The varint at the front as a 32-bit number, and what is left: the value of
  // the first five bytes, of which the last may not pass 32 bits and any more
  // may only extend the sign.
  function ReadVarint32(b: Bytes): (r: Option<(nat, Bytes)>)
    ensures r.Some? ==> r.value.0 < TWO_32 && |r.value.1| < |b|
  {
    var n := TerminatorIndex(b);
    if n == |b| || (n == 4 && b[4] % 128 >= 16) then None
    else
      var v := VarintValue(b[..if n < 5 then n + 1 else 5]) % TWO_32;
      if forall p :: 5 <= p <= n ==> Extends(v, p, b[p]) then Some((v, b[n + 1..])) else None
  }

  lemma {:induction false} TerminatesAt(b: Bytes, n: nat)
    requires n <= |b| && (forall i :: 0 <= i < n ==> b[i] >= 128) && (n < |b| ==> b[n] < 128)
    ensures TerminatorIndex(b) == n
  {
    var m := TerminatorIndex(b);
    hide TerminatorIndex;
    assert !(m < n) && !(n < m);
  }

  lemma {:induction false} FirstByte(b: Bytes)
    requires b != []
    ensures VarintValue(b[..1]) == b[0] % 128 && b[0] % 128 == if b[0] < 128 then b[0] else b[0] - 128
  {
    assert b[..1] == [b[0]];
    assert VarintValue([b[0]]) == b[0] % 128 + 128 * VarintValue([]);
  }

  lemma {:induction false} FewerDigits(b: Bytes, p: nat, result: nat, scale: nat)
    requires p < |b| && result == VarintValue(b[..p]) % TWO_32 && scale == Power(128, p)
    ensures (result + b[p] % 128 * scale) % TWO_32 == VarintValue(b[..p + 1]) % TWO_32
  {
    hide VarintValue, Power;
    VarintValueAppend(b[..p], b[p]);
    assert b[..p + 1] == b[..p] + [b[p]];
    assert |b[..p]| == p;
    AddMod(VarintValue(b[..p]), b[p] % 128 * scale, TWO_32);
  }

  // pb_decode_varint32, with its room for a sign extended to 64 bits.
  method DecodeVarint32(b: Bytes) returns (r: Option<(nat, Bytes)>)
    ensures r == ReadVarint32(b)
  {
    hide VarintValue, Power, Extends, TerminatorIndex;
    if b == [] {
      TerminatesAt(b, 0);
      return None;
    }
    var byte: nat := b[0];
    FirstByte(b);
    var p, result: nat := 1, byte;
    PowerStep(1);
    PowerZero();
    if byte >= 128 {
      var bitpos, scale := 7, 128;
      result := byte - 128;
      while true
        invariant 1 <= p <= |b| && result < TWO_32 && byte == b[p - 1] >= 128
        invariant bitpos == 7 * p && scale == Power(128, p)
        invariant forall i :: 0 <= i < p ==> b[i] >= 128
        invariant result == VarintValue(b[..if p < 5 then p else 5]) % TWO_32
        invariant forall i :: 5 <= i < p ==> Extends(result, i, b[i])
        decreases |b| - p
      {
        if p == |b| {
          TerminatesAt(b, p);
          return None;
        }
        byte := b[p];
        if bitpos >= 32 {
          var signExtension: nat := if bitpos < 63 then 0xff else 0x01;
          if byte % 128 != 0 && (result < 0x8000_0000 || byte != signExtension) {
            DoesExtend(result, p, b[p], signExtension);
            NotExtended(b, p, result);
            return None;
          }
          assert Extends(result, p, b[p]) by {
            DoesExtend(result, p, b[p], signExtension);
          }
        } else {
          FewerDigits(b, p, result, scale);
          result := (result + byte % 128 * scale) % TWO_32;
        }
        p := p + 1;
        PowerStep(p);
        bitpos := bitpos + 7;
        scale := scale * 128;
        if byte < 128 {
          break;
        }
      }
      TerminatesAt(b, p - 1);
      if bitpos == 35 && byte % 128 >= 16 {
        // Only the lowest four bits of the fifth byte fit.
        return None;
      }
    } else {
      TerminatesAt(b, 0);
    }
    r := Some((result, b[p..]));
  }

  lemma DoesExtend(v: nat, p: nat, byte: Byte, sign: nat)
    requires p >= 5 && sign == (if 7 * p < 63 then 0xff else 0x01)
    ensures Extends(v, p, byte) <==> byte % 128 == 0 || (v >= 0x8000_0000 && byte == sign)
  {
  }

  // A byte past the fifth that does not extend the sign is an overflow.
  lemma NotExtended(b: Bytes, p: nat, v: nat)
    requires 5 <= p < |b| && (forall i :: 0 <= i < p ==> b[i] >= 128)
    requires v == VarintValue(b[..5]) % TWO_32 && !Extends(v, p, b[p])
    ensures ReadVarint32(b) == None
  {
    hide VarintValue, TerminatorIndex, Extends;
    var n := TerminatorIndex(b);
    assert n >= p;
  }

  lemma PowerZero()
    ensures Power(128, 0) == 1
  {
  }

  lemma {:induction false} PowerStep(p: nat)
    requires p > 0
    ensures Power(128, p) == 128 * Power(128, p - 1)
  {
  }

  // The encoding of v at the front of b: at most five bytes, whose digits are v.
  lemma {:induction false} Varint32Digits(b: Bytes, v: nat, tail: Bytes)
    requires v < TWO_32 && b == Varint(v) + tail
    ensures 0 < |Varint(v)| <= 5 && b[..|Varint(v)|] == Varint(v) && b[|Varint(v)|..] == tail
    ensures forall p :: 0 <= p < |Varint(v)| ==> (b[p] < 128 <==> p == |Varint(v)| - 1)
    ensures VarintValue(b[..|Varint(v)|]) == v
    ensures b[0] < 128 ==> b[0] == v
    ensures b[0] >= 128 ==> VarintValue(b[..1]) == b[0] - 128
  {
    Varint32Fits(v);
    VarintValueOf(v);
    var w := Varint(v);
    hide Varint;
    assert b[..1] == [b[0]];
    assert VarintValue([b[0]]) == b[0] % 128 + 128 * VarintValue([]);
    if b[0] < 128 {
      assert w == [b[0]];
    }
  }

  // Reading undoes the encoding of a 32-bit number.
  lemma {:induction false} Read32RoundTrip(v: nat, tail: Bytes)
    requires v < TWO_32
    ensures ReadVarint32(Varint(v) + tail) == Some((v, tail))
  {
    var b, n := Varint(v) + tail, |Varint(v)|;
    Varint32Digits(b, v, tail);
    hide Varint, VarintValue, Power, TerminatorIndex;
    TerminatesAt(b, n - 1);
    if n == 5 {
      VarintValueAppend(b[..4], b[4]);
      assert b[..5] == b[..4] + [b[4]] && |b[..4]| == 4;
      PowerFour();
      FifthDigit(VarintValue(b[..4]), b[4] % 128, Power(128, 4), v);
    }
    RemainderIs(v, TWO_32, 0, v);
  }

  lemma FifthDigit(low: nat, digit: nat, scale: nat, v: nat)
    ensures scale == 0x1000_0000 && low + digit * scale <= v < TWO_32 ==> digit < 16
  {
  }

  lemma PowerFour()
    ensures Power(128, 4) == 0x1000_0000
  {
    assert Power(128, 1) == 128;
    assert Power(128, 2) == 0x4000;
    assert Power(128, 3) == 0x20_0000;
  }

  // ----- defaults -----

  function DefaultValue(k: Kind): Value
    decreases k, 1
  {
    match k
    case Message(fields) => Nested(Default(fields))
    case BytesOf(_) => Data([])
    case StringOf(_) => Data([])
    case FixedBytes(n) => Data(seq(n, i => 0))
    case _ => Number(0)
  }

  function DefaultSlot(f: Field): Slot
    decreases f, 2
  {
    match f.rule
    case Required => One(DefaultValue(f.kind))
    case Repeated(_) => Many([])
    case _ => Maybe(None)
  }

  // pb_message_set_to_defaults.
  function Default(fs: seq<Field>): (r: seq<Slot>)
    ensures |r| == |fs|
    decreases fs, 3
  {
    seq(|fs|, i requires 0 <= i < |fs| => DefaultSlot(fs[i]))
  }

  // The storage a singular field is decoded into: an optional one holds its
  // default until it is seen, a union member once its tag is set.
  function Storage(f: Field, s: Slot): Value {
    match s
    case One(v) => v
    case Maybe(Some(v)) => v
    case _ => DefaultValue(f.kind)
  }

  // ----- decoding one field -----

  // Tags are distinct, and fit a 32-bit key with their wire type.
  ghost predicate GoodFields(fs: seq<Field>)
    decreases fs, 1
  {
    && (forall i :: 0 <= i < |fs| ==> GoodField(fs[i]))
    && forall i, j :: 0 <= i < j < |fs| ==> fs[i].tag != fs[j].tag
  }

  ghost predicate GoodField(f: Field)
    decreases f, 0
  {
    0 < f.tag < 0x2000_0000 && GoodKind(f.kind)
  }

  ghost predicate GoodKind(k: Kind)
    decreases k, 0
  {
    k.Message? ==> GoodFields(k.fields)
  }

  // The varint at the front as a 64-bit number, and what is left.
  function ReadVarint64(b: Bytes): (r: Option<(nat, Bytes)>)
    ensures r.Some? ==> r.value.0 < TWO_64 && |r.value.1| < |b|
  {
    match ParseVarint(b, 10, TWO_64) case None => None case Some(p) => Some((p.0, b[p.1..]))
  }

  // What a length cuts out at the front, and what is left.
  function Cut(b: Bytes): (r: Option<(Bytes, Bytes)>)
    ensures r.Some? ==> |r.value.0| + |r.value.1| < |b|
  {
    match ReadVarint32(b)
    case None => None
    case Some(x) => if |x.1| < x.0 then None else Some((x.1[..x.0], x.1[x.0..]))
  }

  method DecodeVarint(b: Bytes) returns (r: Option<(nat, Bytes)>)
    ensures r == ReadVarint64(b)
  {
    hide ParseVarint;
    var x := GetVarint(b, 10, TWO_64);
    r := match x case None => None case Some(p) => Some((p.0, b[p.1..]));
  }

  lemma Read64RoundTrip(v: nat, tail: Bytes)
    requires v < TWO_64
    ensures ReadVarint64(Varint(v) + tail) == Some((v, tail))
  {
    hide Varint, ParseVarint;
    Varint64Fits(v);
    VarintRoundTrip(v, tail, 10, TWO_64);
  }

  // pb_make_string_substream, and the stream after it is closed.
  method Substream(b: Bytes) returns (r: Option<(Bytes, Bytes)>)
    ensures r == Cut(b)
  {
    hide ReadVarint32;
    var size := DecodeVarint32(b);
    match size
    case None => r := None;
    case Some(x) =>
      if |x.1| < x.0 {
        return None;
      }
      r := Some((x.1[..x.0], x.1[x.0..]));
  }

  lemma CutRoundTrip(inner: Bytes, tail: Bytes)
    requires |inner| < TWO_32
    ensures Cut(Delimited(inner) + tail) == Some((inner, tail))
  {
    hide Varint, ReadVarint32;
    Join(Varint(|inner|), inner, tail);
    Read32RoundTrip(|inner|, inner + tail);
    assert (inner + tail)[..|inner|] == inner && (inner + tail)[|inner|..] == tail;
  }

  function FixedAt(b: Bytes, n: nat): (r: Option<(nat, Bytes)>)
    requires n > 0
    ensures r.Some? ==> |r.value.1| < |b|
  {
    if |b| < n then None else Some((FixedValue(b[..n]), b[n..]))
  }

  method ReadFixed(b: Bytes, n: nat) returns (r: Option<(nat, Bytes)>)
    requires n > 0
    ensures r == FixedAt(b, n)
  {
    r := if |b| < n then None else Some((FixedValue(b[..n]), b[n..]));
  }

  lemma FixedAtRoundTrip(v: nat, n: nat, tail: Bytes)
    requires n > 0 && v < Power(256, n)
    ensures FixedAt(Fixed(v, n) + tail, n) == Some((v, tail))
  {
    hide Fixed, FixedValue, Power;
    FixedRoundTrip(v, n);
    RemainderIs(v, Power(256, n), 0, v);
    assert (Fixed(v, n) + tail)[..n] == Fixed(v, n) && (Fixed(v, n) + tail)[n..] == tail;
  }

  function Signed(n: nat, size: nat): int {
    if n >= Span(size) / 2 then n - Span(size) else n
  }

  function Unzigzag(n: nat): int {
    if n % 2 == 1 then -(n / 2) - 1 else n / 2
  }

  // pb_dec_varint, pb_dec_uvarint, pb_dec_svarint: the value cast to the field's
  // size, unless that changes it.
  function CastInt(k: Kind, n: nat): Option<int> {
    match k
    case Int(size) =>
      var wide := if size == 8 then Signed(n, 8) else Signed(n % TWO_32, 4);
      if IsSize(size) && 0 <= wide + Span(size) / 2 < Span(size) then Some(wide) else None
    case UInt(size) => if IsSize(size) && n < Span(size) then Some(n) else None
    case SInt(size) =>
      var i := Unzigzag(n);
      if IsSize(size) && 0 <= i + Span(size) / 2 < Span(size) then Some(i) else None
    case _ => None
  }

  function WireNumber(k: Kind, i: int): nat
    requires i + TWO_64 >= 0
  {
    if k.SInt? then Zigzag(i) else Pattern(i)
  }

  lemma IntRoundTrip(k: Kind, i: int)
    requires (k.Int? || k.UInt? || k.SInt?) && Held(Sound, k, Number(i))
    ensures i + TWO_64 >= 0 && WireNumber(k, i) < TWO_64 && EncodeValue(k, Number(i)) == Varint(WireNumber(k, i))
    ensures CastInt(k, WireNumber(k, i)) == Some(i)
  {
    hide Varint;
    match k
    case Int(size) => SignedCast(size, i);
    case UInt(_) =>
    case SInt(_) => ZigzagCast(i);
  }

  lemma SignedCast(size: nat, i: int)
    requires IsSize(size) && 0 <= i + Span(size) / 2 < Span(size)
    ensures i + TWO_64 >= 0 && Pattern(i) < TWO_64
    ensures size == 8 ==> Signed(Pattern(i), 8) == i
    ensures size != 8 ==> Signed(Pattern(i) % TWO_32, 4) == i
  {
    if size != 8 && i < 0 {
      assert Pattern(i) == (TWO_32 - 1) * TWO_32 + (i + TWO_32);
      RemainderIs(Pattern(i), TWO_32, TWO_32 - 1, i + TWO_32);
    }
  }

  lemma ZigzagCast(i: int)
    ensures Unzigzag(Zigzag(i)) == i
  {
  }

  // ----- what any bytes decode to -----

  function ReadInt(b: Bytes, k: Kind): (r: Option<(Value, Bytes)>)
    ensures r.Some? ==> |r.value.1| < |b|
  {
    match ReadVarint64(b)
    case None => None
    case Some(x) => match CastInt(k, x.0) case None => None case Some(i) => Some((Number(i), x.1))
  }

  // The greatest size of a byte array, string or array of fixed size.
  function DataLimit(k: Kind): int {
    match k
    case BytesOf(max) => max
    case StringOf(size) => size - 1
    case FixedBytes(n) => n
    case _ => -1
  }

  function ReadData(b: Bytes, k: Kind): (r: Option<(Value, Bytes)>)
    ensures r.Some? ==> |r.value.1| < |b|
  {
    match ReadVarint32(b)
    case None => None
    case Some(x) =>
      if k.FixedBytes? && x.0 == 0 then Some((Data(seq(k.n, i => 0)), x.1))
      else if x.0 > DataLimit(k) || (k.FixedBytes? && x.0 != k.n) || |x.1| < x.0 then None
      else Some((Data(x.1[..x.0]), x.1[x.0..]))
  }

  // One value, into storage that holds `cur`, and what is left.
  function ReadItem(b: Bytes, k: Kind, repeated: bool, cur: Value): (r: Option<(Value, Bytes)>)
    ensures r.Some? ==> |r.value.1| < |b|
    decreases |b|, 1
  {
    match k
    case Bool =>
      (match ReadVarint32(b) case None => None case Some(x) => Some((Number(if x.0 != 0 then 1 else 0), x.1)))
    case Int(_) => ReadInt(b, k)
    case UInt(_) => ReadInt(b, k)
    case SInt(_) => ReadInt(b, k)
    case Fixed32 => (match FixedAt(b, 4) case None => None case Some(x) => Some((Number(x.0), x.1)))
    case Fixed64 => (match FixedAt(b, 8) case None => None case Some(x) => Some((Number(x.0), x.1)))
    case Message(fields) =>
      (match Cut(b)
       case None => None
       case Some(x) =>
         match ReadMessage(x.0, fields, NestedStart(fields, repeated, cur))
         case None => None
         case Some(m) => Some((Nested(m), x.1)))
    case _ => ReadData(b, k)
  }

  // A singular submessage is decoded into what is there.
  function NestedStart(fields: seq<Field>, repeated: bool, cur: Value): (r: seq<Slot>)
    ensures |r| == |fields|
  {
    if repeated || !cur.Nested? || |cur.slots| != |fields| then Default(fields) else cur.slots
  }

  // Elements to the end, while there is room.
  function ReadElements(b: Bytes, k: Kind, max: nat, items: seq<Value>): Option<seq<Value>>
    decreases |b|, 2
  {
    if b == [] then Some(items)
    else if |items| >= max then None
    else
      match ReadItem(b, k, true, DefaultValue(k))
      case None => None
      case Some(x) => ReadElements(x.1, k, max, items + [x.0])
  }

  function ReadPacked(b: Bytes, k: Kind, max: nat, start: seq<Value>): (r: Option<(Slot, Bytes)>)
    ensures r.Some? ==> |r.value.1| < |b|
    decreases |b|, 3
  {
    match Cut(b)
    case None => None
    case Some(x) =>
      match ReadElements(x.0, k, max, start) case None => None case Some(items) => Some((Many(items), x.1))
  }

  function ReadField(b: Bytes, f: Field, slot: Slot, wireType: nat): (r: Option<(Slot, Bytes)>)
    ensures r.Some? ==> |r.value.1| < |b|
    decreases |b|, 4
  {
    if f.rule.Repeated? then
      var items := if slot.Many? then slot.vs else [];
      if wireType == 2 && Packable(f.kind) then ReadPacked(b, f.kind, f.rule.max, items)
      else if |items| >= f.rule.max then None
      else
        match ReadItem(b, f.kind, true, DefaultValue(f.kind))
        case None => None
        case Some(x) => Some((Many(items + [x.0]), x.1))
    else
      match ReadItem(b, f.kind, false, Storage(f, slot))
      case None => None
      case Some(x) => Some((if f.rule.Required? then One(x.0) else Maybe(Some(x.0)), x.1))
  }

  // How far decoding has come: the slots, the fields seen, where the search for
  // the next one starts, and whether a zero key has ended it.
  datatype Reading = Reading(slots: seq<Slot>, decoded: set<nat>, pos: nat, ended: bool)

  predicate ReadingOk(fs: seq<Field>, at: Reading) {
    |at.slots| == |fs| && (fs != [] ==> at.pos < |fs|)
  }

  // The first field with the tag, from `pos` on and round.
  function FoundFrom(fs: seq<Field>, pos: nat, left: nat, tag: nat): (r: Option<nat>)
    requires left > 0 ==> pos < |fs|
    ensures r.Some? ==> r.value < |fs| && fs[r.value].tag == tag
    decreases left
  {
    if left == 0 then None
    else if fs[pos].tag == tag then Some(pos)
    else FoundFrom(fs, if pos + 1 < |fs| then pos + 1 else 0, left - 1, tag)
  }

  // What follows a value of the wire type.
  function Skipped(b: Bytes, wireType: nat): (r: Option<Bytes>)
    ensures r.Some? ==> |r.value| <= |b|
  {
    match wireType
    case 0 => var n := TerminatorIndex(b); if n < |b| then Some(b[n + 1..]) else None
    case 1 => if |b| >= 8 then Some(b[8..]) else None
    case 2 => (match Cut(b) case None => None case Some(x) => Some(x.1))
    case 5 => if |b| >= 4 then Some(b[4..]) else None
    case _ => None
  }

  // The value after a key: of a field, or skipped.
  function ReadOne(b: Bytes, fs: seq<Field>, at: Reading, key: nat): (r: Option<(Reading, Bytes)>)
    requires ReadingOk(fs, at)
    ensures r.Some? ==> |r.value.1| <= |b| && ReadingOk(fs, r.value.0)
    decreases |b|, 5
  {
    match FoundFrom(fs, at.pos, |fs|, key / 8)
    case None => (match Skipped(b, key % 8) case None => None case Some(rest) => Some((at, rest)))
    case Some(p) =>
      var slots := OnlyMember(fs, at.slots, p);
      match ReadField(b, fs[p], slots[p], key % 8)
      case None => None
      case Some(x) => Some((Reading(slots[p := x.0], at.decoded + {p}, p, at.ended), x.1))
  }

  // All fields to the end of the bytes, or to a zero key.
  function ReadFields(b: Bytes, fs: seq<Field>, at: Reading): (r: Option<Reading>)
    requires ReadingOk(fs, at)
    ensures r.Some? ==> ReadingOk(fs, r.value)
    decreases |b|, 6
  {
    if b == [] then Some(at)
    else
      match ReadVarint32(b)
      case None => None
      case Some(key) =>
        if key.0 == 0 then Some(at.(ended := true))
        else
          match ReadOne(key.1, fs, at, key.0) case None => None case Some(x) => ReadFields(x.1, fs, x.0)
  }

  function ReadMessage(b: Bytes, fs: seq<Field>, start: seq<Slot>): (r: Option<seq<Slot>>)
    requires |start| == |fs|
    ensures r.Some? ==> |r.value| == |fs|
    decreases |b|, 7
  {
    match ReadFields(b, fs, Reading(start, {}, 0, false))
    case None => None
    case Some(m) => if NoneMissing(fs, m.decoded) then Some(m.slots) else None
  }

  lemma {:induction false} FieldsStep(b: Bytes, fs: seq<Field>, at: Reading)
    requires ReadingOk(fs, at)
    ensures b == [] ==> ReadFields(b, fs, at) == Some(at)
    ensures b != [] && ReadVarint32(b) == None ==> ReadFields(b, fs, at) == None
    ensures b != [] && ReadVarint32(b).Some? ==>
      var key := ReadVarint32(b).value;
      ReadFields(b, fs, at) ==
        if key.0 == 0 then Some(at.(ended := true))
        else match ReadOne(key.1, fs, at, key.0) case None => None case Some(x) => ReadFields(x.1, fs, x.0)
  {
    hide ReadVarint32, ReadOne;
  }

  lemma {:induction false} ElementsStep(b: Bytes, k: Kind, max: nat, items: seq<Value>)
    ensures b == [] ==> ReadElements(b, k, max, items) == Some(items)
    ensures b != [] && |items| >= max ==> ReadElements(b, k, max, items) == None
    ensures b != [] && |items| < max ==>
      var x := ReadItem(b, k, true, DefaultValue(k));
      ReadElements(b, k, max, items) == if x == None then None else ReadElements(x.value.1, k, max, items + [x.value.0])
  {
    hide ReadItem;
  }

  // ----- decoding one value -----

  // Decodes one value into storage that holds `cur`.
  method DecodeItem(b: Bytes, k: Kind, repeated: bool, cur: Value) returns (r: Option<(Value, Bytes)>)
    ensures r == ReadItem(b, k, repeated, cur)
    decreases |b|, 1
  {
    hide ReadVarint32, ReadMessage, ReadInt, ReadData, FixedAt, Cut;
    match k
    case Bool =>
      var x := DecodeVarint32(b);
      r := if x == None then None else Some((Number(if x.value.0 != 0 then 1 else 0), x.value.1));
    case Int(_) => r := DecodeInt(b, k);
    case UInt(_) => r := DecodeInt(b, k);
    case SInt(_) => r := DecodeInt(b, k);
    case Fixed32 =>
      var x := ReadFixed(b, 4);
      r := if x == None then None else Some((Number(x.value.0), x.value.1));
    case Fixed64 =>
      var x := ReadFixed(b, 8);
      r := if x == None then None else Some((Number(x.value.0), x.value.1));
    case Message(fields) =>
      var x := Substream(b);
      if x == None {
        return None;
      }
      var m := Decode(x.value.0, fields, NestedStart(fields, repeated, cur));
      r := if m == None then None else Some((Nested(m.value), x.value.1));
    case _ => r := DecodeData(b, k);
  }

  method DecodeInt(b: Bytes, k: Kind) returns (r: Option<(Value, Bytes)>)
    requires k.Int? || k.UInt? || k.SInt?
    ensures r == ReadInt(b, k)
  {
    hide CastInt, ReadVarint64;
    var x := DecodeVarint(b);
    if x == None {
      return None;
    }
    var i := CastInt(k, x.value.0);
    r := if i == None then None else Some((Number(i.value), x.value.1));
  }

  // An encoded number is read back.
  lemma ReadIntRoundTrip(k: Kind, v: Value, tail: Bytes)
    requires (k.Int? || k.UInt? || k.SInt?) && Held(Sound, k, v)
    ensures ReadInt(EncodeValue(k, v) + tail, k) == Some((v, tail))
  {
    hide Varint, CastInt, ReadVarint64;
    IntRoundTrip(k, v.i);
    hide EncodeValue, WireNumber;
    Read64RoundTrip(WireNumber(k, v.i), tail);
  }

  // What the field's storage holds: a string only with its terminator.
  predicate FitsData(k: Kind, b: Bytes) {
    match k
    case BytesOf(max) => |b| <= max
    case StringOf(size) => |b| < size
    case FixedBytes(n) => |b| == n
    case _ => false
  }

  method DecodeData(b: Bytes, k: Kind) returns (r: Option<(Value, Bytes)>)
    requires k.BytesOf? || k.StringOf? || k.FixedBytes?
    ensures r == ReadData(b, k)
  {
    hide ReadVarint32;
    var x := DecodeVarint32(b);
    if x == None {
      return None;
    }
    var size, rest := x.value.0, x.value.1;
    if k.FixedBytes? && size == 0 {
      // All zeros.
      r := Some((Data(seq(k.n, i => 0)), rest));
      return;
    }
    if size > DataLimit(k) || (k.FixedBytes? && size != k.n) || |rest| < size {
      return None;
    }
    r := Some((Data(rest[..size]), rest[size..]));
  }

  // Bytes come back exactly when they fit the field.
  lemma ReadDataRoundTrip(k: Kind, d: Bytes, tail: Bytes)
    requires (k.BytesOf? || k.StringOf? || k.FixedBytes?) && |d| < TWO_32
    ensures ReadData(Delimited(d) + tail, k) == Some((Data(d), tail)) <==> FitsData(k, d)
  {
    hide Varint, ReadVarint32;
    Join(Varint(|d|), d, tail);
    Read32RoundTrip(|d|, d + tail);
    assert (d + tail)[..|d|] == d && (d + tail)[|d|..] == tail;
    if k.FixedBytes? && d == [] {
      assert |seq(k.n, i => 0)| == k.n && d + tail == tail;
    }
  }

  // ----- decoding a message -----

  // What comes next on the wire for a field: its value, its packed array, or
  // one element of an array.
  datatype Chunk = Whole(v: Value) | Packed(vs: seq<Value>) | Element(v: Value)

  function ChunkBytes(k: Kind, c: Chunk): Bytes {
    match c
    case Whole(v) => EncodeValue(k, v)
    case Packed(vs) => Delimited(EncodeElements(k, vs, []))
    case Element(v) => EncodeValue(k, v)
  }

  function ChunkWire(k: Kind, c: Chunk): nat {
    if c.Packed? then 2 else WireType(k)
  }

  function AddChunk(f: Field, s: Slot, c: Chunk): Slot {
    match c
    case Whole(v) => if f.rule.Required? then One(v) else Maybe(Some(v))
    case Packed(vs) => Many(vs)
    case Element(v) => if s.Many? then Many(s.vs + [v]) else s
  }

  // A chunk the encoder writes for the field, whose slot holds what came before.
  ghost predicate ChunkOk(f: Field, s: Slot, c: Chunk) {
    match c
    case Whole(v) => !f.rule.Repeated? && s == DefaultSlot(f) && Held(Sound, f.kind, v)
    case Packed(vs) =>
      && f.rule.Repeated? && Packable(f.kind) && s == Many([]) && |vs| <= f.rule.max
      && forall j :: 0 <= j < |vs| ==> Held(Sound, f.kind, vs[j])
    case Element(v) =>
      f.rule.Repeated? && !Packable(f.kind) && s.Many? && |s.vs| < f.rule.max && Held(Sound, f.kind, v)
  }

  // decode_static_field.
  method DecodeField(b: Bytes, f: Field, slot: Slot, wireType: nat) returns (r: Option<(Slot, Bytes)>)
    ensures r == ReadField(b, f, slot, wireType)
    decreases |b|, 2
  {
    hide ReadItem, ReadPacked;
    if f.rule.Repeated? {
      var items := if slot.Many? then slot.vs else [];
      if wireType == 2 && Packable(f.kind) {
        r := DecodePacked(b, f.kind, f.rule.max, items);
      } else {
        if |items| >= f.rule.max {
          return None;
        }
        var x := DecodeItem(b, f.kind, true, DefaultValue(f.kind));
        r := if x == None then None else Some((Many(items + [x.value.0]), x.value.1));
      }
    } else {
      var x := DecodeItem(b, f.kind, false, Storage(f, slot));
      r := if x == None then None
           else Some((if f.rule.Required? then One(x.value.0) else Maybe(Some(x.value.0)), x.value.1));
    }
  }

  // The elements from the i-th on.
  function ElementsFrom(k: Kind, vs: seq<Value>, i: nat, tag: Bytes): Bytes
    decreases |vs| - i
  {
    if i < |vs| then tag + EncodeValue(k, vs[i]) + ElementsFrom(k, vs, i + 1, tag) else []
  }

  lemma {:induction false} ElementsSplit(k: Kind, vs: seq<Value>, i: nat, tag: Bytes)
    requires i <= |vs|
    ensures EncodeElements(k, vs, tag) == EncodeElements(k, vs[..i], tag) + ElementsFrom(k, vs, i, tag)
    decreases |vs| - i
  {
    hide EncodeValue;
    if i < |vs| {
      ElementsSplit(k, vs, i + 1, tag);
      OneMoreElement(k, vs, i, tag);
      JoinThree(EncodeElements(k, vs[..i], tag), tag, EncodeValue(k, vs[i]), ElementsFrom(k, vs, i + 1, tag));
    } else {
      assert vs[..i] == vs;
    }
  }

  lemma {:induction false} PackableNotEmpty(k: Kind, v: Value)
    requires Packable(k) && Held(Sound, k, v)
    ensures EncodeValue(k, v) != []
  {
    hide Varint;
  }

  // A packed array, from a substream of its length.
  method DecodePacked(b: Bytes, k: Kind, max: nat, start: seq<Value>) returns (r: Option<(Slot, Bytes)>)
    ensures r == ReadPacked(b, k, max, start)
    decreases |b|, 0
  {
    hide ReadItem, ReadElements, Cut;
    var x := Substream(b);
    if x == None {
      return None;
    }
    var sub, items := x.value.0, start;
    while sub != [] && |items| < max
      invariant |sub| <= |x.value.0|
      invariant ReadElements(x.value.0, k, max, start) == ReadElements(sub, k, max, items)
      decreases |sub|
    {
      ElementsStep(sub, k, max, items);
      var y := DecodeItem(sub, k, true, DefaultValue(k));
      if y == None {
        return None;
      }
      items := items + [y.value.0];
      sub := y.value.1;
    }
    ElementsStep(sub, k, max, items);
    if sub != [] {
      return None;
    }
    r := Some((Many(items), x.value.1));
  }

  lemma {:induction false} NoElements(k: Kind, vs: seq<Value>)
    requires vs == []
    ensures EncodeElements(k, vs, []) == []
  {
  }

  // Something left means an element left, and its encoding in front.
  lemma {:induction false} FromElement(k: Kind, vs: seq<Value>, i: nat)
    requires i <= |vs| && ElementsFrom(k, vs, i, []) != []
    ensures i < |vs| && ElementsFrom(k, vs, i, []) == EncodeValue(k, vs[i]) + ElementsFrom(k, vs, i + 1, [])
  {
    hide EncodeValue;
    assert i < |vs|;
    assert [] + EncodeValue(k, vs[i]) == EncodeValue(k, vs[i]);
  }

  lemma {:induction false} NothingAfter(k: Kind, vs: seq<Value>)
    ensures ElementsFrom(k, vs, |vs|, []) == []
  {
  }

  lemma {:induction false} ElementsLeft(k: Kind, vs: seq<Value>, i: nat)
    requires Packable(k) && i < |vs| && Held(Sound, k, vs[i])
    ensures ElementsFrom(k, vs, i, []) != []
  {
    hide EncodeValue, Held;
    PackableNotEmpty(k, vs[i]);
    assert |ElementsFrom(k, vs, i, [])| >= |EncodeValue(k, vs[i])|;
  }

  lemma AllElements(k: Kind, vs: seq<Value>, i: nat)
    requires Packable(k) && i <= |vs| && ElementsFrom(k, vs, i, []) == []
    requires forall j :: 0 <= j < |vs| ==> Held(Sound, k, vs[j])
    ensures i == |vs| && vs[..i] == vs
  {
    hide ElementsFrom, Held;
    if i < |vs| {
      ElementsLeft(k, vs, i);
    }
  }

  // ----- how far a message has come -----

  // The next chunk of a field of which j elements have come.
  ghost predicate HasChunk(s: Slot, j: nat) {
    match s
    case One(_) => j == 0
    case Maybe(o) => j == 0 && o.Some?
    case Many(vs) => j < |vs|
  }

  function NextChunk(f: Field, s: Slot, j: nat): Chunk {
    match s
    case One(v) => Whole(v)
    case Maybe(Some(v)) => Whole(v)
    case Many(vs) => if Packable(f.kind) || j >= |vs| then Packed(vs) else Element(vs[j])
    case _ => Packed([])
  }

  // What of the field is still to come.
  function SlotRest(f: Field, s: Slot, j: nat): Bytes {
    if j == 0 then EncodeSlot(f, s)
    else if s.Many? then ElementsFrom(f.kind, s.vs, j, FieldTag(f.tag, WireType(f.kind))) else []
  }

  function RestOf(fs: seq<Field>, msg: seq<Slot>, i: nat, j: nat): Bytes
    requires |fs| == |msg|
  {
    if i < |fs| then SlotRest(fs[i], msg[i], j) + EncodeFrom(fs, msg, i + 1) else []
  }

  // The slots by then.
  function SlotSoFar(f: Field, s: Slot, j: nat): Slot {
    if j > 0 && s.Many? && j <= |s.vs| then Many(s.vs[..j]) else DefaultSlot(f)
  }

  function SoFar(fs: seq<Field>, msg: seq<Slot>, i: nat, j: nat): (r: seq<Slot>)
    requires |fs| == |msg|
    ensures |r| == |fs|
  {
    seq(|fs|, n requires 0 <= n < |fs| =>
      if n < i then msg[n] else if n == i then SlotSoFar(fs[n], msg[n], j) else DefaultSlot(fs[n]))
  }

  // At element j of field i.
  ghost predicate At(fs: seq<Field>, msg: seq<Slot>, i: nat, j: nat, rest: Bytes, slots: seq<Slot>)
    requires |fs| == |msg|
  {
    && i <= |fs| && rest == RestOf(fs, msg, i, j) && slots == SoFar(fs, msg, i, j)
    && (j > 0 ==> i < |fs| && msg[i].Many? && !Packable(fs[i].kind) && j <= |msg[i].vs|)
  }

  // A field without another chunk is as it will be.
  lemma {:induction false} NoChunk(fs: seq<Field>, msg: seq<Slot>, i: nat, j: nat, rest: Bytes, slots: seq<Slot>)
    requires AllHeld(Sound, fs, msg) && i < |fs| && At(fs, msg, i, j, rest, slots) && !HasChunk(msg[i], j)
    ensures At(fs, msg, i + 1, 0, rest, slots) && !fs[i].rule.Required?
  {
    hide Held, EncodeValue, FieldTag, EncodeElements;
    assert SlotHeld(Sound, fs[i], msg[i]);
    assert SlotRest(fs[i], msg[i], j) == [];
    assert SlotSoFar(fs[i], msg[i], j) == msg[i];
    FromNext(fs, msg, i + 1);
    assert slots == SoFar(fs, msg, i + 1, 0);
  }

  lemma {:induction false} FromNext(fs: seq<Field>, msg: seq<Slot>, i: nat)
    requires |fs| == |msg| && i <= |fs|
    ensures EncodeFrom(fs, msg, i) == RestOf(fs, msg, i, 0)
  {
  }

  // On to the field whose chunk comes next, when anything does.
  lemma {:induction false} Advance(fs: seq<Field>, msg: seq<Slot>, i: nat, j: nat, rest: Bytes, slots: seq<Slot>)
    returns (i': nat, j': nat)
    requires |fs| == |msg| && i <= |fs| && AllHeld(Sound, fs, msg) && At(fs, msg, i, j, rest, slots)
    ensures i <= i' <= |fs| && At(fs, msg, i', j', rest, slots)
    ensures forall n :: i <= n < i' ==> !fs[n].rule.Required?
    ensures if rest != [] then i' < |fs| && HasChunk(msg[i'], j') else i' == |fs| || HasChunk(msg[i'], j')
    decreases |fs| - i
  {
    assert i == |fs| ==> rest == [];
    hide At, AllHeld, HasChunk;
    if i == |fs| || HasChunk(msg[i], j) {
      i', j' := i, j;
    } else {
      NoChunk(fs, msg, i, j, rest, slots);
      i', j' := Advance(fs, msg, i + 1, 0, rest, slots);
    }
  }

  // The bytes of the chunk are next, after its tag.
  lemma {:induction false} ChunkNext(fs: seq<Field>, msg: seq<Slot>, i: nat, j: nat, rest: Bytes, slots: seq<Slot>)
    returns (c: Chunk, tail: Bytes, i': nat, j': nat)
    requires AllHeld(Sound, fs, msg) && i < |fs| && At(fs, msg, i, j, rest, slots) && HasChunk(msg[i], j)
    ensures c == NextChunk(fs[i], msg[i], j) && ChunkOk(fs[i], slots[i], c)
    ensures rest == FieldTag(fs[i].tag, ChunkWire(fs[i].kind, c)) + (ChunkBytes(fs[i].kind, c) + tail)
    ensures At(fs, msg, i', j', tail, slots[i := AddChunk(fs[i], slots[i], c)])
    ensures if j' == 0 then i' == i + 1 else i' == i
  {
    hide AllHeld, ChunkOk, ChunkBytes, ChunkWire, AddChunk, FieldTag, RestOf, SoFar, HasChunk, NextChunk, At;
    SameLength(fs, msg);
    AtFacts(fs, msg, i, j, rest, slots);
    ChunkBytesNext(fs, msg, i, j);
    ChunkSlots(fs, msg, i, j);
    ElementIsUnpacked(fs[i], msg[i], j);
    c := NextChunk(fs[i], msg[i], j);
    if c.Element? {
      i', j' := i, j + 1;
    } else {
      i', j' := i + 1, 0;
    }
    tail := RestOf(fs, msg, i', j');
    AtIs(fs, msg, i', j');
  }

  lemma SameLength(fs: seq<Field>, msg: seq<Slot>)
    requires AllHeld(Sound, fs, msg)
    ensures |fs| == |msg|
  {
  }

  lemma AtFacts(fs: seq<Field>, msg: seq<Slot>, i: nat, j: nat, rest: Bytes, slots: seq<Slot>)
    requires |fs| == |msg| && At(fs, msg, i, j, rest, slots)
    ensures rest == RestOf(fs, msg, i, j) && slots == SoFar(fs, msg, i, j)
    ensures j > 0 ==> i < |fs| && msg[i].Many? && !Packable(fs[i].kind) && j <= |msg[i].vs|
  {
    hide RestOf, SoFar;
  }

  lemma AtIs(fs: seq<Field>, msg: seq<Slot>, i: nat, j: nat)
    requires |fs| == |msg| && i <= |fs|
    requires j > 0 ==> i < |fs| && msg[i].Many? && !Packable(fs[i].kind) && j <= |msg[i].vs|
    ensures At(fs, msg, i, j, RestOf(fs, msg, i, j), SoFar(fs, msg, i, j))
  {
    hide RestOf, SoFar;
  }

  lemma ElementIsUnpacked(f: Field, s: Slot, j: nat)
    ensures NextChunk(f, s, j).Element? ==> s.Many? && !Packable(f.kind) && j < |s.vs|
  {
  }

  lemma {:induction false} ChunkBytesNext(fs: seq<Field>, msg: seq<Slot>, i: nat, j: nat)
    requires |fs| == |msg| && i < |fs| && HasChunk(msg[i], j) && (j > 0 ==> msg[i].Many? && !Packable(fs[i].kind))
    ensures var c := NextChunk(fs[i], msg[i], j);
      RestOf(fs, msg, i, j) == FieldTag(fs[i].tag, ChunkWire(fs[i].kind, c)) +
        (ChunkBytes(fs[i].kind, c) + if c.Element? then RestOf(fs, msg, i, j + 1) else RestOf(fs, msg, i + 1, 0))
  {
    var f, s, c := fs[i], msg[i], NextChunk(fs[i], msg[i], j);
    var tag := FieldTag(f.tag, ChunkWire(f.kind, c));
    var after := EncodeFrom(fs, msg, i + 1);
    FromNext(fs, msg, i + 1);
    hide EncodeValue, EncodeElements, FieldTag, EncodeFrom, Delimited;
    if c.Element? {
      if j == 0 {
        ElementsSplit(f.kind, s.vs, 0, tag);
        NoElementsTagged(f.kind, s.vs[..0], tag);
        assert SlotRest(f, s, j) == ElementsFrom(f.kind, s.vs, 0, tag);
      }
      assert SlotRest(f, s, j) == tag + EncodeValue(f.kind, s.vs[j]) + SlotRest(f, s, j + 1);
      JoinThree(tag, EncodeValue(f.kind, s.vs[j]), SlotRest(f, s, j + 1), after);
      JoinFour(tag, EncodeValue(f.kind, s.vs[j]), SlotRest(f, s, j + 1), after);
    } else {
      assert SlotRest(f, s, j) == tag + ChunkBytes(f.kind, c);
      Join(tag, ChunkBytes(f.kind, c), after);
    }
  }

  lemma JoinFour(a: Bytes, b: Bytes, c: Bytes, d: Bytes)
    ensures (a + b + c) + d == a + (b + (c + d))
  {
  }

  lemma {:induction false} NoElementsTagged(k: Kind, vs: seq<Value>, tag: Bytes)
    requires vs == []
    ensures EncodeElements(k, vs, tag) == []
  {
  }

  lemma {:induction false} ChunkSlots(fs: seq<Field>, msg: seq<Slot>, i: nat, j: nat)
    requires AllHeld(Sound, fs, msg) && i < |fs| && HasChunk(msg[i], j)
    requires j > 0 ==> msg[i].Many? && !Packable(fs[i].kind) && j <= |msg[i].vs|
    ensures var c, slots := NextChunk(fs[i], msg[i], j), SoFar(fs, msg, i, j);
      && ChunkOk(fs[i], slots[i], c)
      && slots[i := AddChunk(fs[i], slots[i], c)] ==
        if c.Element? then SoFar(fs, msg, i, j + 1) else SoFar(fs, msg, i + 1, 0)
  {
    var f, s, c, slots := fs[i], msg[i], NextChunk(fs[i], msg[i], j), SoFar(fs, msg, i, j);
    assert SlotHeld(Sound, f, s);
    assert slots[i] == SlotSoFar(f, s, j);
    hide Held;
    if c.Element? {
      assert s.vs[..j + 1] == s.vs[..j] + [s.vs[j]];
      assert s.vs[..0] == [];
      assert AddChunk(f, slots[i], c) == SlotSoFar(f, s, j + 1);
      assert slots[i := AddChunk(f, slots[i], c)] == SoFar(fs, msg, i, j + 1);
    } else {
      assert AddChunk(f, slots[i], c) == s;
      assert slots[i := s] == SoFar(fs, msg, i + 1, 0);
    }
  }

  // ----- decoding a message -----

  function KeyOf(f: Field, wireType: nat): nat {
    f.tag * 8 + wireType
  }

  // pb_field_iter_find: from the iterator's position round to it again.
  method FindField(fs: seq<Field>, start: nat, tag: nat) returns (r: Option<nat>)
    requires start < |fs|
    ensures r == FoundFrom(fs, start, |fs|, tag)
    ensures match r
            case Some(pos) => pos < |fs| && fs[pos].tag == tag
            case None => forall n :: 0 <= n < |fs| ==> fs[n].tag != tag
  {
    var pos, steps := start, 0;
    while steps < |fs|
      invariant pos < |fs| && steps <= |fs|
      invariant pos == if start + steps < |fs| then start + steps else start + steps - |fs|
      invariant FoundFrom(fs, start, |fs|, tag) == FoundFrom(fs, pos, |fs| - steps, tag)
      invariant forall n :: start <= n < start + steps && n < |fs| ==> fs[n].tag != tag
      invariant forall n :: 0 <= n < start + steps - |fs| ==> fs[n].tag != tag
    {
      if fs[pos].tag == tag {
        return Some(pos);
      }
      pos := if pos + 1 < |fs| then pos + 1 else 0;
      steps := steps + 1;
    }
    r := None;
  }

  // pb_skip_field.
  method SkipField(b: Bytes, wireType: nat) returns (r: Option<Bytes>)
    ensures r == Skipped(b, wireType)
  {
    hide ReadVarint32, TerminatorIndex;
    if wireType == 0 {
      var p := 0;
      while p < |b| && b[p] >= 128
        invariant p <= |b| && forall i :: 0 <= i < p ==> b[i] >= 128
      {
        p := p + 1;
      }
      TerminatesAt(b, p);
      r := if p < |b| then Some(b[p + 1..]) else None;
    } else if wireType == 1 {
      r := if |b| >= 8 then Some(b[8..]) else None;
    } else if wireType == 2 {
      var x := DecodeVarint32(b);
      r := if x.Some? && x.value.0 <= |x.value.1| then Some(x.value.1[x.value.0..]) else None;
    } else if wireType == 5 {
      r := if |b| >= 4 then Some(b[4..]) else None;
    } else {
      r := None;
    }
  }

  // Setting the tag of a union drops its other members.
  function OnlyMember(fs: seq<Field>, slots: seq<Slot>, pos: nat): (r: seq<Slot>)
    requires |fs| == |slots| && pos < |fs|
    ensures |r| == |slots|
  {
    seq(|slots|, n requires 0 <= n < |slots| =>
      if n != pos && fs[pos].rule.Oneof? && fs[n].rule == fs[pos].rule then Maybe(None) else slots[n])
  }

  lemma OthersAreUnset(fs: seq<Field>, msg: seq<Slot>, i: nat, j: nat)
    requires AllHeld(Sound, fs, msg) && i < |fs| && HasChunk(msg[i], j)
    ensures OnlyMember(fs, SoFar(fs, msg, i, j), i) == SoFar(fs, msg, i, j)
  {
    hide Held, DefaultValue;
    assert SlotHeld(Sound, fs[i], msg[i]);
    assert forall n :: 0 <= n < |fs| ==> SlotHeld(Sound, fs[n], msg[n]);
  }

  // iter.required_field_index.
  function RequiredBefore(fs: seq<Field>, pos: nat): nat
    requires pos <= |fs|
  {
    if pos == 0 then 0 else RequiredBefore(fs, pos - 1) + if fs[pos - 1].rule.Required? then 1 else 0
  }

  lemma {:induction false} RequiredAt(fs: seq<Field>, n: nat, end: nat) returns (p: nat)
    requires end <= |fs| && n < RequiredBefore(fs, end)
    ensures p < end && fs[p].rule.Required? && RequiredBefore(fs, p) == n
    decreases end
  {
    if RequiredBefore(fs, end - 1) == n {
      p := end - 1;
    } else {
      p := RequiredAt(fs, n, end - 1);
    }
  }

  const MAX_REQUIRED_FIELDS: nat := 64

  // Numbers of required fields stand for decoded ones.
  ghost predicate SeenAreDecoded(fs: seq<Field>, seen: set<nat>, decoded: set<nat>) {
    forall n :: n in seen ==> exists p :: p in decoded && p < |fs| && fs[p].rule.Required? && RequiredBefore(fs, p) == n
  }

  ghost predicate DecodedAreSeen(fs: seq<Field>, seen: set<nat>, decoded: set<nat>) {
    forall p :: p in decoded && p < |fs| && fs[p].rule.Required? && RequiredBefore(fs, p) < MAX_REQUIRED_FIELDS ==>
      RequiredBefore(fs, p) in seen
  }

  lemma SeenField(fs: seq<Field>, seen: set<nat>, decoded: set<nat>, p: nat)
    requires DecodedAreSeen(fs, seen, decoded) && p < |fs|
    ensures var counts := fs[p].rule.Required? && RequiredBefore(fs, p) < MAX_REQUIRED_FIELDS;
      DecodedAreSeen(fs, if counts then seen + {RequiredBefore(fs, p)} else seen, decoded + {p})
  {
    hide RequiredBefore;
  }

  // A number that was not seen stands for a required field that is missing.
  lemma NotSeen(fs: seq<Field>, seen: set<nat>, decoded: set<nat>, n: nat)
    requires DecodedAreSeen(fs, seen, decoded) && n < RequiredBefore(fs, |fs|) && n < MAX_REQUIRED_FIELDS && n !in seen
    ensures !NoneMissing(fs, decoded)
  {
    hide RequiredBefore;
    var p := RequiredAt(fs, n, |fs|);
  }

  lemma {:induction false} RequiredRises(fs: seq<Field>, p: nat, q: nat)
    requires p < q <= |fs| && fs[p].rule.Required?
    ensures RequiredBefore(fs, p) < RequiredBefore(fs, q)
    decreases q
  {
    if p < q - 1 {
      RequiredRises(fs, p, q - 1);
    }
  }

  // With all numbers seen, every required field was decoded.
  lemma {:induction false} AllDecoded(fs: seq<Field>, seen: set<nat>, decoded: set<nat>, p: nat)
    requires SeenAreDecoded(fs, seen, decoded) && p < |fs| && fs[p].rule.Required? && RequiredBefore(fs, p) in seen
    ensures p in decoded
  {
    hide RequiredBefore;
    var q :| q in decoded && q < |fs| && fs[q].rule.Required? && RequiredBefore(fs, q) == RequiredBefore(fs, p);
    if q < p {
      RequiredRises(fs, q, p);
    } else if p < q {
      RequiredRises(fs, p, q);
    }
  }

  lemma SeeField(fs: seq<Field>, seen: set<nat>, decoded: set<nat>, p: nat)
    requires SeenAreDecoded(fs, seen, decoded) && p < |fs|
    ensures SeenAreDecoded(fs, seen, decoded + {p})
    ensures fs[p].rule.Required? ==> SeenAreDecoded(fs, seen + {RequiredBefore(fs, p)}, decoded + {p})
  {
    hide RequiredBefore;
  }

  // Success means that every required field was decoded, of which the source
  // keeps track for the first 64.
  predicate NoneMissing(fs: seq<Field>, decoded: set<nat>) {
    forall p :: 0 <= p < |fs| && fs[p].rule.Required? && RequiredBefore(fs, p) < MAX_REQUIRED_FIELDS ==> p in decoded
  }

  lemma CountedMeansDecoded(fs: seq<Field>, seen: set<nat>, decoded: set<nat>, count: nat)
    requires SeenAreDecoded(fs, seen, decoded) && forall n :: 0 <= n < count ==> n in seen
    requires count == if RequiredBefore(fs, |fs|) > MAX_REQUIRED_FIELDS then MAX_REQUIRED_FIELDS
      else RequiredBefore(fs, |fs|)
    ensures NoneMissing(fs, decoded)
  {
    hide RequiredBefore, SeenAreDecoded;
    forall p | 0 <= p < |fs| && fs[p].rule.Required? && RequiredBefore(fs, p) < MAX_REQUIRED_FIELDS
      ensures p in decoded
    {
      RequiredRises(fs, p, |fs|);
      AllDecoded(fs, seen, decoded, p);
    }
  }

  // pb_decode_noinit: decodes fields as they come, in any order, into the
  // slots.
  method Decode(b: Bytes, fs: seq<Field>, start: seq<Slot>) returns (r: Option<seq<Slot>>)
    requires |start| == |fs|
    ensures r == ReadMessage(b, fs, start)
    decreases |b|, 3
  {
    hide SeenAreDecoded, DecodedAreSeen, NoneMissing, RequiredBefore, OnlyMember, ReadFields, ReadField, ReadVarint32,
      Skipped, FoundFrom;
    var rest, slots, pos := b, start, 0;
    var seen: set<nat> := {};
    ghost var decoded: set<nat> := {};
    ghost var ended := false;
    r := None;
    NoneSeen(fs);
    while rest != []
      invariant |slots| == |fs| && |rest| <= |b| && (fs != [] ==> pos < |fs|)
      invariant SeenAreDecoded(fs, seen, decoded) && DecodedAreSeen(fs, seen, decoded)
      invariant ReadFields(b, fs, Reading(start, {}, 0, false)) ==
        ReadFields(rest, fs, Reading(slots, decoded, pos, false))
      decreases |rest|
    {
      FieldsStep(rest, fs, Reading(slots, decoded, pos, false));
      var key := DecodeVarint32(rest);
      if key == None {
        return None;
      }
      rest := key.value.1;
      if key.value.0 == 0 {
        // A zero ends a message.
        ended := true;
        assert ReadFields(b, fs, Reading(start, {}, 0, false)) == Some(Reading(slots, decoded, pos, true));
        break;
      }
      var tag, wireType := key.value.0 / 8, key.value.0 % 8;
      var found := None;
      if fs != [] {
        found := FindField(fs, pos, tag);
      } else {
        NoFields(fs, pos, tag);
      }
      if found == None {
        var skipped := SkipField(rest, wireType);
        if skipped == None {
          return None;
        }
        rest := skipped.value;
      } else {
        pos := found.value;
        SeeField(fs, seen, decoded, pos);
        SeenField(fs, seen, decoded, pos);
        decoded := decoded + {pos};
        if fs[pos].rule.Required? && RequiredBefore(fs, pos) < MAX_REQUIRED_FIELDS {
          seen := seen + {RequiredBefore(fs, pos)};
        }
        slots := OnlyMember(fs, slots, pos);
        var x := DecodeField(rest, fs[pos], slots[pos], wireType);
        if x == None {
          return None;
        }
        slots := slots[pos := x.value.0];
        rest := x.value.1;
      }
    }
    if !ended {
      FieldsStep(rest, fs, Reading(slots, decoded, pos, false));
    }
    assert ReadFields(b, fs, Reading(start, {}, 0, false)) == Some(Reading(slots, decoded, pos, ended));
    var count := RequiredBefore(fs, |fs|);
    if count > MAX_REQUIRED_FIELDS {
      count := MAX_REQUIRED_FIELDS;
    }
    for n := 0 to count
      invariant forall m :: 0 <= m < n ==> m in seen
    {
      if n !in seen {
        NotSeen(fs, seen, decoded, n);
        return None;
      }
    }
    CountedMeansDecoded(fs, seen, decoded, count);
    r := Some(slots);
  }

  lemma NoFields(fs: seq<Field>, pos: nat, tag: nat)
    requires fs == []
    ensures FoundFrom(fs, pos, |fs|, tag) == None
  {
  }

  // ----- decoding undoes encoding -----

  // An encoding of v, read into storage at its default, gives v back and leaves
  // the rest.
  lemma {:induction false} ItemRoundTrip(b: Bytes, k: Kind, repeated: bool, cur: Value, v: Value, tail: Bytes)
    requires GoodKind(k) && Held(Sound, k, v) && |b| < TWO_32 && b == EncodeValue(k, v) + tail
    requires repeated || cur == DefaultValue(k)
    ensures ReadItem(b, k, repeated, cur) == Some((v, tail))
    decreases |b|, 1
  {
    hide Varint, EncodeFrom, AllHeld, GoodFields, ReadVarint32, ReadMessage, ReadInt, ReadData, FixedAt, Cut, Power,
      Fixed;
    match k
    case Bool => Read32RoundTrip(v.i, tail);
    case Int(_) => ReadIntRoundTrip(k, v, tail);
    case UInt(_) => ReadIntRoundTrip(k, v, tail);
    case SInt(_) => ReadIntRoundTrip(k, v, tail);
    case Fixed32 =>
      PowersOf256();
      FixedAtRoundTrip(v.i, 4, tail);
    case Fixed64 =>
      PowersOf256();
      FixedAtRoundTrip(v.i, 8, tail);
    case Message(fields) =>
      CutRoundTrip(EncodeFrom(fields, v.slots, 0), tail);
      MessageRoundTrip(EncodeFrom(fields, v.slots, 0), fields, v.slots);
    case _ => ReadDataRoundTrip(k, v.b, tail);
  }

  lemma {:induction false} ElementsRoundTrip(b: Bytes, k: Kind, max: nat, vs: seq<Value>, i: nat)
    requires Packable(k) && |vs| <= max && i <= |vs| && |b| < TWO_32 && b == ElementsFrom(k, vs, i, [])
    requires forall j :: 0 <= j < |vs| ==> Held(Sound, k, vs[j])
    ensures ReadElements(b, k, max, vs[..i]) == Some(vs)
    decreases |b|, 2
  {
    hide Held, EncodeValue, ReadItem, ReadElements, ElementsFrom;
    ElementsStep(b, k, max, vs[..i]);
    if b == [] {
      AllElements(k, vs, i);
    } else {
      FromElement(k, vs, i);
      var rest := ElementsFrom(k, vs, i + 1, []);
      PackableNotEmpty(k, vs[i]);
      ItemRoundTrip(b, k, true, DefaultValue(k), vs[i], rest);
      assert vs[..i] + [vs[i]] == vs[..i + 1];
      ElementsRoundTrip(rest, k, max, vs, i + 1);
    }
  }

  lemma {:induction false} PackedRoundTrip(b: Bytes, k: Kind, max: nat, vs: seq<Value>, tail: Bytes)
    requires Packable(k) && |vs| <= max && |b| < TWO_32 && b == Delimited(EncodeElements(k, vs, [])) + tail
    requires forall j :: 0 <= j < |vs| ==> Held(Sound, k, vs[j])
    ensures ReadPacked(b, k, max, []) == Some((Many(vs), tail))
    decreases |b|, 3
  {
    hide Held, EncodeValue, EncodeElements, ElementsFrom, ReadElements, Cut, Varint;
    var inner := EncodeElements(k, vs, []);
    CutRoundTrip(inner, tail);
    ElementsSplit(k, vs, 0, []);
    NoElements(k, vs[..0]);
    assert [] + ElementsFrom(k, vs, 0, []) == ElementsFrom(k, vs, 0, []);
    ElementsRoundTrip(inner, k, max, vs, 0);
    assert vs[..0] == [];
  }

  // What the encoder writes for a field is added to what the field holds.
  lemma {:induction false} FieldRoundTrip(b: Bytes, f: Field, slot: Slot, c: Chunk, tail: Bytes)
    requires GoodKind(f.kind) && ChunkOk(f, slot, c) && |b| < TWO_32 && b == ChunkBytes(f.kind, c) + tail
    ensures ReadField(b, f, slot, ChunkWire(f.kind, c)) == Some((AddChunk(f, slot, c), tail))
    decreases |b|, 4
  {
    hide Held, EncodeValue, EncodeElements, Delimited, ReadItem, ReadPacked, GoodKind;
    match c
    case Whole(v) => ItemRoundTrip(b, f.kind, false, Storage(f, slot), v, tail);
    case Packed(vs) => PackedRoundTrip(b, f.kind, f.rule.max, vs, tail);
    case Element(v) => ItemRoundTrip(b, f.kind, true, DefaultValue(f.kind), v, tail);
  }

  ghost predicate DecodedBefore(fs: seq<Field>, i: nat, decoded: set<nat>)
    requires i <= |fs|
  {
    forall p :: 0 <= p < i && fs[p].rule.Required? ==> p in decoded
  }

  // The rest of an encoded message, read from where the slots stand.
  lemma {:induction false} FieldsRoundTrip(rest: Bytes, fs: seq<Field>, msg: seq<Slot>, i: nat, j: nat, at: Reading)
    returns (m: Reading)
    requires GoodFields(fs) && AllHeld(Sound, fs, msg) && |rest| < TWO_32 && ReadingOk(fs, at)
    requires |fs| == |msg| && i <= |fs| && At(fs, msg, i, j, rest, at.slots) && DecodedBefore(fs, i, at.decoded)
    ensures ReadFields(rest, fs, at) == Some(m) && m.slots == msg && DecodedBefore(fs, |fs|, m.decoded)
    decreases |rest|, 6
  {
    hide GoodFields, AllHeld, At, HasChunk, ChunkOk, ChunkBytes, ChunkWire, FieldTag, NextChunk, AddChunk, ReadFields,
      ReadField, ReadVarint32, Varint, FoundFrom, OnlyMember, GoodKind, Skipped;
    FieldsStep(rest, fs, at);
    var i', j' := Advance(fs, msg, i, j, rest, at.slots);
    if rest == [] {
      AtEnd(fs, msg, i', j', rest, at.slots);
      m := at;
    } else {
      var c, tail, i2, j2 := ChunkNext(fs, msg, i', j', rest, at.slots);
      KeyFits(fs, i', c);
      var key := KeyOf(fs[i'], ChunkWire(fs[i'].kind, c));
      Read32RoundTrip(key, ChunkBytes(fs[i'].kind, c) + tail);
      FoundThere(fs, at.pos, i');
      SlotsUnset(fs, msg, i', j', rest, at.slots);
      FieldRoundTrip(ChunkBytes(fs[i'].kind, c) + tail, fs[i'], at.slots[i'], c, tail);
      m := FieldsRoundTrip(tail, fs, msg, i2, j2,
        Reading(at.slots[i' := AddChunk(fs[i'], at.slots[i'], c)], at.decoded + {i'}, i', at.ended));
    }
  }

  // The search finds the field that has the tag.
  lemma FoundThere(fs: seq<Field>, pos: nat, i: nat)
    requires GoodFields(fs) && pos < |fs| && i < |fs|
    ensures FoundFrom(fs, pos, |fs|, fs[i].tag) == Some(i)
  {
    hide FoundFrom;
    FoundSomewhere(fs, pos, |fs|, fs[i].tag, i);
    TagsDiffer(fs, FoundFrom(fs, pos, |fs|, fs[i].tag).value, i);
  }

  lemma {:induction false} FoundSomewhere(fs: seq<Field>, pos: nat, left: nat, tag: nat, i: nat)
    requires pos < |fs| && i < |fs| && fs[i].tag == tag && left <= |fs|
    requires pos <= i < pos + left || pos <= i + |fs| < pos + left
    ensures FoundFrom(fs, pos, left, tag).Some?
    decreases left
  {
    if fs[pos].tag != tag {
      FoundSomewhere(fs, if pos + 1 < |fs| then pos + 1 else 0, left - 1, tag, i);
    }
  }

  // The round trip: an encoded message, read into slots at their defaults.
  lemma {:induction false} MessageRoundTrip(b: Bytes, fs: seq<Field>, msg: seq<Slot>)
    requires GoodFields(fs) && AllHeld(Sound, fs, msg) && |b| < TWO_32 && b == EncodeFrom(fs, msg, 0)
    ensures ReadMessage(b, fs, Default(fs)) == Some(msg)
    decreases |b|, 7
  {
    hide GoodFields, AllHeld, At, EncodeFrom, ReadFields, Default, RequiredBefore;
    SameLength(fs, msg);
    AtStart(fs, msg);
    var m := FieldsRoundTrip(b, fs, msg, 0, 0, Reading(Default(fs), {}, 0, false));
  }

  lemma {:induction false} AtStart(fs: seq<Field>, msg: seq<Slot>)
    requires |fs| == |msg|
    ensures At(fs, msg, 0, 0, EncodeFrom(fs, msg, 0), Default(fs))
  {
    hide DefaultSlot, EncodeSlot;
    FromNext(fs, msg, 0);
    assert SoFar(fs, msg, 0, 0) == Default(fs) by {
      assert forall n :: 0 <= n < |fs| ==> SoFar(fs, msg, 0, 0)[n] == DefaultSlot(fs[n]);
    }
  }

  lemma NoneSeen(fs: seq<Field>)
    ensures SeenAreDecoded(fs, {}, {}) && DecodedAreSeen(fs, {}, {})
  {
  }

  lemma KeyFits(fs: seq<Field>, i: nat, c: Chunk)
    requires GoodFields(fs) && i < |fs|
    ensures 0 < KeyOf(fs[i], ChunkWire(fs[i].kind, c)) < TWO_32 && GoodKind(fs[i].kind)
    ensures KeyOf(fs[i], ChunkWire(fs[i].kind, c)) / 8 == fs[i].tag
    ensures KeyOf(fs[i], ChunkWire(fs[i].kind, c)) % 8 == ChunkWire(fs[i].kind, c)
    ensures FieldTag(fs[i].tag, ChunkWire(fs[i].kind, c)) == Varint(KeyOf(fs[i], ChunkWire(fs[i].kind, c)))
  {
    hide Varint, GoodKind;
    assert GoodField(fs[i]);
  }

  lemma TagsDiffer(fs: seq<Field>, pos: nat, i: nat)
    requires GoodFields(fs) && pos < |fs| && i < |fs| && fs[pos].tag == fs[i].tag
    ensures pos == i
  {
  }

  lemma SlotsUnset(fs: seq<Field>, msg: seq<Slot>, i: nat, j: nat, rest: Bytes, slots: seq<Slot>)
    requires AllHeld(Sound, fs, msg) && i < |fs| && HasChunk(msg[i], j) && At(fs, msg, i, j, rest, slots)
    ensures OnlyMember(fs, slots, i) == slots
  {
    OthersAreUnset(fs, msg, i, j);
  }

  lemma {:induction false} ChunkMeansBytes(fs: seq<Field>, msg: seq<Slot>, i: nat, j: nat, rest: Bytes,
      slots: seq<Slot>)
    requires AllHeld(Sound, fs, msg) && i < |fs| && At(fs, msg, i, j, rest, slots) && HasChunk(msg[i], j)
    ensures rest != []
  {
    hide AllHeld, At, HasChunk;
    var c, tail, i', j' := ChunkNext(fs, msg, i, j, rest, slots);
    assert |FieldTag(fs[i].tag, ChunkWire(fs[i].kind, c))| > 0;
  }

  // With nothing left, the slots are the message.
  lemma {:induction false} AtEnd(fs: seq<Field>, msg: seq<Slot>, i: nat, j: nat, rest: Bytes, slots: seq<Slot>)
    requires AllHeld(Sound, fs, msg) && i <= |fs| && At(fs, msg, i, j, rest, slots) && rest == []
    requires i == |fs| || HasChunk(msg[i], j)
    ensures slots == msg && i == |fs|
  {
    if i < |fs| {
      ChunkMeansBytes(fs, msg, i, j, rest, slots);
    }
    assert slots == msg;
  }

  // The round trip: a message written to a buffer of sufficient size is what
  // decoding the buffer into a fresh struct gives.
  method WriteAndRead(fs: seq<Field>, msg: seq<Slot>, size: nat) returns (ok: bool, r: Option<seq<Slot>>)
    requires AllHeld(InMemory, fs, msg)
    ensures ok <==> AllHeld(Encodable, fs, msg) && |EncodeFrom(fs, msg, 0)| <= size
    ensures ok && GoodFields(fs) && AllHeld(Sound, fs, msg) && |EncodeFrom(fs, msg, 0)| < TWO_32 ==> r == Some(msg)
  {
    hide AllHeld, EncodeFrom, GoodFields, Default;
    var stream := new OutStream(false, size);
    ok := Encode(stream, fs, msg);
    r := None;
    if ok {
      r := Decode(stream.out, fs, Default(fs));
      if GoodFields(fs) && AllHeld(Sound, fs, msg) && |stream.out| < TWO_32 {
        MessageRoundTrip(stream.out, fs, msg);
      }
    }
  }
}
