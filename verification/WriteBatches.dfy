// Write batches and the entries they make (db/write_batch.cc, MemTable::Add and
// MemTable::Get of db/memtable.cc), as bytes.
module WriteBatches {
  import opened Keys
  import opened Codings
  import opened InternalKeys
  import Bytewise
  import Store

  const HEADER: nat := 12

  // A deletion has no value.
  datatype ByteOp = Put(key: Bytes, value: Bytes) | Delete(key: Bytes)

  // ----- records -----

  function Record(op: ByteOp): (r: Bytes)
    ensures |r| > 0
  {
    match op
    case Put(key, value) => [1] + Prefixed(key) + Prefixed(value)
    case Delete(key) => [0] + Prefixed(key)
  }

  predicate OpFits(op: ByteOp) {
    |op.key| < TWO_32 && (op.Put? ==> |op.value| < TWO_32)
  }

  function Body(ops: seq<ByteOp>): Bytes {
    if ops == [] then [] else Record(ops[0]) + Body(ops[1..])
  }

  // The op at the front and how many bytes it took.
  function ParseRecord(b: Bytes): (r: Option<(ByteOp, nat)>)
    requires b != []
    ensures r.Some? ==> 0 < r.value.1 <= |b|
  {
    if b[0] > 1 then None else
    match ParsePrefixed(b[1..])
    case None => None
    case Some(k) =>
      if b[0] == 0 then Some((Delete(k.0), 1 + k.1)) else
      match ParsePrefixed(b[1 + k.1..])
      case None => None
      case Some(v) => Some((Put(k.0, v.0), 1 + k.1 + v.1))
  }

  // The ops handed on before the end or the first bad record, and whether
  // there was none.
  function Records(b: Bytes): (seq<ByteOp>, bool)
    decreases |b|
  {
    if b == [] then ([], true) else
    match ParseRecord(b)
    case None => ([], false)
    case Some(x) => var rest := Records(b[x.1..]); ([x.0] + rest.0, rest.1)
  }

  lemma {:induction false} RecordParses(op: ByteOp, rest: Bytes)
    requires OpFits(op)
    ensures ParseRecord(Record(op) + rest) == Some((op, |Record(op)|))
  {
    hide Prefixed, ParsePrefixed;
    var b := Record(op) + rest;
    var k := Prefixed(op.key);
    if op.Put? {
      var v := Prefixed(op.value);
      PrefixedRoundTrip(op.key, v + rest);
      PrefixedRoundTrip(op.value, rest);
      assert b == [1] + (k + (v + rest));
      assert b[1..] == k + (v + rest) && b[1 + |k|..] == v + rest;
    } else {
      PrefixedRoundTrip(op.key, rest);
      assert b == [0] + (k + rest);
      assert b[1..] == k + rest;
    }
  }

  lemma {:induction false} BodyParses(ops: seq<ByteOp>)
    requires forall op :: op in ops ==> OpFits(op)
    ensures Records(Body(ops)) == (ops, true)
  {
    hide Record, ParseRecord, OpFits, Records;
    if ops != [] {
      RecordParses(ops[0], Body(ops[1..]));
      BodyParses(ops[1..]);
      assert Body(ops)[|Record(ops[0])|..] == Body(ops[1..]);
      assert ops == [ops[0]] + ops[1..];
      RecordsStep(Body(ops));
    } else {
      assert Body(ops) == [];
      RecordsEnd();
    }
  }

  lemma {:induction false} BodyAppend(a: seq<ByteOp>, b: seq<ByteOp>)
    ensures Body(a + b) == Body(a) + Body(b)
  {
    hide Record;
    if a == [] {
      assert a + b == b;
    } else {
      BodyAppend(a[1..], b);
      assert (a + b)[1..] == a[1..] + b;
    }
  }

  // ----- the batch -----

  // An int of 32 bits.
  function AsInt32(n: nat): int
    requires n < TWO_32
  {
    if n < 0x8000_0000 then n else n - TWO_32
  }

  function BatchOf(sn: nat, ops: seq<ByteOp>): Bytes {
    Fixed(sn, 8) + Fixed(|ops| % TWO_32, 4) + Body(ops)
  }

  // What Iterate hands its handler, and whether it ends well.
  function Contents(rep: Bytes): (seq<ByteOp>, bool) {
    if |rep| < HEADER then ([], false) else
    var r := Records(rep[HEADER..]);
    (r.0, r.1 && |r.0| == CountIn(rep))
  }

  function CountIn(rep: Bytes): int
    requires |rep| >= HEADER
  {
    WordFits(rep[8..HEADER]);
    AsInt32(FixedValue(rep[8..HEADER]))
  }

  // A finished batch gives back its ops, in order. The count is compared as a
  // signed 32-bit number, so 2^31 ops are the first that are refused; they are
  // handed on all the same.
  lemma {:induction false} BatchRoundTrip(sn: nat, ops: seq<ByteOp>)
    requires forall op :: op in ops ==> OpFits(op)
    ensures Contents(BatchOf(sn, ops)).0 == ops
    ensures Contents(BatchOf(sn, ops)).1 <==> |ops| < 0x8000_0000
  {
    hide Body, Records, Fixed, FixedValue, OpFits, Power;
    var rep, n := BatchOf(sn, ops), |ops| % TWO_32;
    BodyParses(ops);
    assert rep[HEADER..] == Body(ops) && rep[8..HEADER] == Fixed(n, 4);
    FixedRoundTrip(n, 4);
    PowersOf256();
    RemainderIs(n, TWO_32, 0, n);
    if |ops| < TWO_32 {
      RemainderIs(|ops|, TWO_32, 0, |ops|);
    }
  }

  class WriteBatch {
    var rep: Bytes
    ghost var sn: nat
    ghost var ops: seq<ByteOp>

    ghost predicate Ok()
      reads this
    {
      rep == BatchOf(sn, ops) && sn < TWO_64
    }

    constructor ()
      ensures Ok() && ops == [] && sn == 0
    {
      rep, sn, ops := seq(HEADER, _ => 0), 0, [];
      new;
      Cleared(rep);
    }

    method Clear()
      modifies this
      ensures Ok() && ops == [] && sn == 0
    {
      rep := seq(HEADER, _ => 0);
      sn, ops := 0, [];
      Cleared(rep);
    }

    method Sequence() returns (r: nat)
      requires Ok()
      ensures r == sn
    {
      hide Fixed, FixedValue, Power, Body;
      assert rep[..8] == Fixed(sn, 8);
      FixedRoundTrip(sn, 8);
      PowersOf256();
      RemainderIs(sn, TWO_64, 0, sn);
      r := FixedValue(rep[..8]);
    }

    method SetSequence(s: nat)
      requires Ok() && s < TWO_64
      modifies this
      ensures Ok() && sn == s && ops == old(ops)
    {
      hide Fixed, Body;
      rep := Fixed(s, 8) + rep[8..];
      sn := s;
    }

    method Count() returns (n: int)
      requires Ok()
      ensures n == AsInt32(|ops| % TWO_32)
    {
      hide Fixed, FixedValue, Power, Body;
      assert rep[8..][..4] == Fixed(|ops| % TWO_32, 4);
      FixedRoundTrip(|ops| % TWO_32, 4);
      PowersOf256();
      RemainderIs(|ops| % TWO_32, TWO_32, 0, |ops| % TWO_32);
      var word := DecodeFixed32(rep[8..]);
      n := AsInt32(word);
    }

    // The count in place, cast to 32 bits; the ops are to follow it.
    method SetCount(n: int, ghost more: seq<ByteOp>)
      requires Ok() && n % TWO_32 == (|ops| + |more|) % TWO_32
      modifies `rep
      ensures rep == Fixed(sn, 8) + Fixed(|ops + more| % TWO_32, 4) + Body(ops)
    {
      hide Fixed, Body;
      assert rep[..8] == Fixed(sn, 8) && rep[HEADER..] == Body(ops);
      var word := EncodeFixed32(n % TWO_32);
      rep := rep[..8] + word + rep[HEADER..];
    }

    method Put(key: Bytes, value: Bytes)
      requires Ok()
      modifies this
      ensures Ok() && ops == old(ops) + [ByteOp.Put(key, value)] && sn == old(sn)
    {
      hide Fixed, Body, Prefixed, AsInt32;
      ghost var op := ByteOp.Put(key, value);
      var n := Count();
      SameCount(|ops|, 1, n, 1);
      SetCount(n + 1, [op]);
      Grown(rep, sn, ops, [op], [1] + Prefixed(key) + Prefixed(value));
      rep := rep + ([1] + Prefixed(key) + Prefixed(value));
      ops := ops + [op];
    }

    method Delete(key: Bytes)
      requires Ok()
      modifies this
      ensures Ok() && ops == old(ops) + [ByteOp.Delete(key)] && sn == old(sn)
    {
      hide Fixed, Body, Prefixed, AsInt32;
      ghost var op := ByteOp.Delete(key);
      var n := Count();
      SameCount(|ops|, 1, n, 1);
      SetCount(n + 1, [op]);
      Grown(rep, sn, ops, [op], [0] + Prefixed(key));
      rep := rep + ([0] + Prefixed(key));
      ops := ops + [op];
    }

    // A batch may be appended to itself.
    method Append(source: WriteBatch)
      requires Ok() && source.Ok()
      modifies this
      ensures Ok() && ops == old(ops) + old(source.ops) && sn == old(sn)
    {
      hide Fixed, Body, AsInt32;
      var n := Count();
      var m := source.Count();
      SameCount(|ops|, |source.ops|, n, m);
      SetCount(n + m, source.ops);
      assert source.rep[HEADER..] == Body(source.ops);
      GrownBy(rep, sn, ops, source.ops);
      rep := rep + source.rep[HEADER..];
      ops := ops + source.ops;
    }
  }

  lemma Cleared(rep: Bytes)
    requires rep == seq(HEADER, _ => 0)
    ensures rep == BatchOf(0, [])
  {
    ZerosAre(8);
    ZerosAre(4);
  }

  lemma {:induction false} ZerosAre(n: nat)
    ensures Fixed(0, n) == seq(n, _ => 0)
  {
    if n > 0 {
      ZerosAre(n - 1);
    }
  }

  lemma SameCount(a: nat, b: nat, n: int, m: int)
    requires n == AsInt32(a % TWO_32) && (m == AsInt32(b % TWO_32) || m == b)
    ensures (n + m) % TWO_32 == (a + b) % TWO_32
  {
    hide AsInt32;
    var i := SignedCount(a, n);
    var j := 0;
    if m != b {
      j := SignedCount(b, m);
    }
    SameRemainder(a + b, n + m, i + j);
  }

  lemma SameRemainder(x: nat, y: int, k: nat)
    requires x - y == k * TWO_32
    ensures x % TWO_32 == y % TWO_32
  {
  }

  lemma SignedCount(a: nat, n: int) returns (i: nat)
    requires n == AsInt32(a % TWO_32)
    ensures a - n == i * TWO_32
  {
    i := a / TWO_32 + if n < 0 then 1 else 0;
  }

  lemma GrownBy(rep: Bytes, sn: nat, ops: seq<ByteOp>, more: seq<ByteOp>)
    requires rep == Fixed(sn, 8) + Fixed(|ops + more| % TWO_32, 4) + Body(ops)
    ensures rep + Body(more) == BatchOf(sn, ops + more)
  {
    hide Fixed, Body;
    BodyAppend(ops, more);
  }

  lemma Grown(rep: Bytes, sn: nat, ops: seq<ByteOp>, op: seq<ByteOp>, record: Bytes)
    requires |op| == 1 && record == Record(op[0])
    requires rep == Fixed(sn, 8) + Fixed(|ops + op| % TWO_32, 4) + Body(ops)
    ensures rep + record == BatchOf(sn, ops + op)
  {
    hide Fixed, Record;
    assert Body(op) == record + Body(op[1..]) && op[1..] == [];
    GrownBy(rep, sn, ops, op);
  }

  // WriteBatch::Iterate over any bytes; the ops are those given to the handler.
  method Iterate(rep: Bytes) returns (ops: seq<ByteOp>, ok: bool)
    ensures (ops, ok) == Contents(rep)
  {
    hide Records, ParseRecord;
    if |rep| < HEADER {
      return [], false;
    }
    ops := [];
    var p := HEADER;
    assert [] + Records(rep[HEADER..]).0 == Records(rep[HEADER..]).0;
    while p < |rep|
      invariant HEADER <= p <= |rep|
      invariant Records(rep[HEADER..]) == (ops + Records(rep[p..]).0, Records(rep[p..]).1)
    {
      var input := rep[p..];
      var x := NextRecord(input);
      RecordsStep(input);
      if x.None? {
        assert ops + [] == ops;
        return ops, false;
      }
      ghost var after := rep[p + x.value.1..];
      assert input[x.value.1..] == after;
      assert ops + ([x.value.0] + Records(after).0) == ops + [x.value.0] + Records(after).0;
      ops := ops + [x.value.0];
      p := p + x.value.1;
    }
    RecordsEnd();
    assert rep[p..] == [] && ops + [] == ops;
    var word := DecodeFixed32(rep[8..]);
    assert rep[8..][..4] == rep[8..HEADER];
    ok := |ops| == AsInt32(word);
  }

  lemma {:induction false} RecordsStep(b: Bytes)
    requires b != []
    ensures match ParseRecord(b)
      case None => Records(b) == ([], false)
      case Some(x) => Records(b) == ([x.0] + Records(b[x.1..]).0, Records(b[x.1..]).1)
  {
    hide ParseRecord;
  }

  lemma RecordsEnd()
    ensures Records([]) == ([], true)
  {
  }

  method NextRecord(input: Bytes) returns (r: Option<(ByteOp, nat)>)
    requires input != []
    ensures r == ParseRecord(input)
  {
    hide ParsePrefixed;
    r := None;
    var tag := input[0];
    var rest := input[1..];
    if tag == 1 {
      var key := GetLengthPrefixedSlice(rest);
      if key.Some? {
        var value := GetLengthPrefixedSlice(key.value.1);
        if value.Some? {
          ghost var k := ParsePrefixed(rest).value;
          assert key.value.1 == input[1 + k.1..];
          r := Some((Put(key.value.0, value.value.0), |input| - |value.value.1|));
        }
      }
    } else if tag == 0 {
      var key := GetLengthPrefixedSlice(rest);
      if key.Some? {
        r := Some((Delete(key.value.0), |input| - |key.value.1|));
      }
    }
  }

  // ----- into the memtable -----

  // MemTable::Add: a length-prefixed internal key and a length-prefixed value.
  function MemtableEntry(key: ParsedKey, value: Bytes): Bytes {
    Prefixed(Encode(key)) + Prefixed(value)
  }

  // What MemTable::Get and the memtable iterator cut out of an entry is what
  // was added, if the lengths fit.
  lemma MemtableEntryParses(key: ParsedKey, value: Bytes)
    requires |key.user| + 8 < TWO_32 && |value| < TWO_32
    ensures var e, k := MemtableEntry(key, value), Prefixed(Encode(key));
      ParsePrefixed(e) == Some((Encode(key), |k|)) && ParsePrefixed(e[|k|..]) == Some((value, |Prefixed(value)|))
  {
    hide Prefixed, ParsePrefixed, Encode;
    var k, v := Prefixed(Encode(key)), Prefixed(value);
    PrefixedRoundTrip(Encode(key), v);
    PrefixedRoundTrip(value, []);
    assert (k + v)[|k|..] == v && v + [] == v;
  }

  function KindOf(op: ByteOp): Kind {
    if op.Put? then Value else Deletion
  }

  function ValueOf(op: ByteOp): Bytes {
    if op.Put? then op.value else []
  }

  // InsertInto: the entries added for these ops, numbered from sn on.
  function Numbered(ops: seq<ByteOp>, sn: nat): (r: seq<(ParsedKey, Bytes)>)
    requires sn + |ops| <= MAX_SEQUENCE + 1
    ensures |r| == |ops|
  {
    seq(|ops|, i requires 0 <= i < |ops| => (ParsedKey(ops[i].key, sn + i, KindOf(ops[i])), ValueOf(ops[i])))
  }

  ghost function AbstractOps(ops: seq<ByteOp>): (r: seq<Op>)
    ensures |r| == |ops|
  {
    seq(|ops|, i requires 0 <= i < |ops| => Op(KindOf(ops[i]), Bytewise.Rank(ops[i].key), ValueOf(ops[i])))
  }

  ghost function AbstractEntries(es: seq<(ParsedKey, Bytes)>): set<Entry> {
    set i | 0 <= i < |es| :: Entry(InternalKeys.Abstract(es[i].0), es[i].1)
  }

  // The batch as the store sees it: each op at its own sequence number.
  lemma InsertedEntries(ops: seq<ByteOp>, sn: nat)
    requires sn + |ops| <= MAX_SEQUENCE + 1
    ensures AbstractEntries(Numbered(ops, sn)) == Store.BatchEntries(AbstractOps(ops), sn)
  {
    hide Bytewise.Rank;
    var es, abs := Numbered(ops, sn), AbstractOps(ops);
    forall i | 0 <= i < |ops|
      ensures Entry(InternalKeys.Abstract(es[i].0), es[i].1) ==
        Entry(InternalKey(abs[i].user, sn + i, abs[i].kind), abs[i].value)
    {
    }
  }

  // Applying a finished batch: every op, each under the next sequence number.
  method InsertInto(batch: WriteBatch) returns (added: seq<(ParsedKey, Bytes)>, ok: bool)
    requires batch.Ok() && batch.sn + |batch.ops| <= MAX_SEQUENCE + 1
    requires forall op :: op in batch.ops ==> OpFits(op)
    ensures added == Numbered(batch.ops, batch.sn)
    ensures ok <==> |batch.ops| < 0x8000_0000
  {
    hide BatchOf, Contents, OpFits;
    var next := batch.Sequence();
    BatchRoundTrip(batch.sn, batch.ops);
    var ops, fine := Iterate(batch.rep);
    added, ok := [], fine;
    for i := 0 to |ops|
      invariant next == batch.sn + i && added == Numbered(ops, batch.sn)[..i]
    {
      added := added + [(ParsedKey(ops[i].key, next, KindOf(ops[i])), ValueOf(ops[i]))];
      next := next + 1;
    }
  }
}
