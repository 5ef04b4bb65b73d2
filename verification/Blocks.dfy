// Sorted blocks with prefix-compressed keys and restart points: the builder
// (table/block_builder.cc) and the bidirectional iterator over the finished
// bytes (table/block.cc).
module Blocks {
  import opened Keys
  import opened Codings
  import Bytewise

  datatype Pair = Pair(key: Bytes, value: Bytes)

  // ----- the layout -----

  // How many entries follow the last restart point, once there are n.
  function Counter(interval: nat, n: nat): (c: nat)
    requires interval >= 1
    ensures c <= interval && (c == 0 <==> n == 0)
  {
    if n == 0 then 0 else if Counter(interval, n - 1) < interval then Counter(interval, n - 1) + 1 else 1
  }

  // Entry i is stored with its whole key.
  predicate IsRestart(interval: nat, i: nat)
    requires interval >= 1
  {
    i == 0 || Counter(interval, i) == interval
  }

  // Which entries are restart points, once there are n; the first is there
  // even in an empty block.
  function Starts(interval: nat, n: nat): (r: seq<nat>)
    requires interval >= 1
    ensures |r| >= 1 && r[0] == 0
    ensures forall j :: 0 <= j < |r| ==> IsRestart(interval, r[j]) && (n > 0 ==> r[j] < n) && (n == 0 ==> r[j] == 0)
    ensures forall j, k :: 0 <= j < k < |r| ==> r[j] < r[k]
  {
    if n == 0 then [0]
    else if Counter(interval, n - 1) < interval then Starts(interval, n - 1)
    else Starts(interval, n - 1) + [n - 1]
  }

  // Restart points come every `interval` entries.
  lemma {:induction false} RestartsEvery(interval: nat, n: nat)
    requires interval >= 1
    ensures n > 0 ==> Counter(interval, n) == (n - 1) % interval + 1
    ensures IsRestart(interval, n) <==> n % interval == 0
  {
    if n == 0 {
      assert 0 % interval == 0 by { RemainderIs(0, interval, 0, 0); }
    } else {
      RestartsEvery(interval, n - 1);
      ModSucc(n - 1, interval);
      if n > 1 {
        ModSucc(n - 2, interval);
      } else {
        RemainderIs(0, interval, 0, 0);
      }
    }
  }

  lemma {:induction false} ModSucc(x: nat, m: nat)
    requires m >= 1
    ensures (x + 1) % m == if x % m + 1 == m then 0 else x % m + 1
  {
    var q, r := x / m, x % m;
    assert x == q * m + r;
    if r + 1 == m {
      assert x + 1 == (q + 1) * m;
      RemainderIs(x + 1, m, q + 1, 0);
    } else {
      RemainderIs(x + 1, m, q, r + 1);
    }
  }

  // How much of key i is shared with the key before: nothing at a restart.
  function Shared(es: seq<Pair>, interval: nat, i: nat): (n: nat)
    requires i < |es| && interval >= 1
    ensures n <= |es[i].key|
  {
    if IsRestart(interval, i) then 0 else Bytewise.CommonPrefix(es[i - 1].key, es[i].key)
  }

  function Sizes(shared: nat, nonShared: nat, value: nat): Bytes {
    Varint(shared % TWO_32) + Varint(nonShared % TWO_32) + Varint(value % TWO_32)
  }

  function EntryBytes(shared: nat, e: Pair): (r: Bytes)
    requires shared <= |e.key|
    ensures |r| >= 3 + |e.key| - shared + |e.value|
  {
    Sizes(shared, |e.key| - shared, |e.value|) + e.key[shared..] + e.value
  }

  // The first i entries.
  function Raw(es: seq<Pair>, interval: nat, i: nat): Bytes
    requires i <= |es| && interval >= 1
  {
    if i == 0 then [] else Raw(es, interval, i - 1) + EntryBytes(Shared(es, interval, i - 1), es[i - 1])
  }

  function Offset(es: seq<Pair>, interval: nat, i: nat): nat
    requires i <= |es| && interval >= 1
  {
    |Raw(es, interval, i)|
  }

  function Restarts(es: seq<Pair>, interval: nat): (r: seq<nat>)
    requires interval >= 1
    ensures |r| == |Starts(interval, |es|)|
  {
    var starts := Starts(interval, |es|);
    seq(|starts|, j requires 0 <= j < |starts| => Offset(es, interval, starts[j]))
  }

  // Fixed 32-bit words.
  function Words(ws: seq<nat>): (r: Bytes)
    ensures |r| == 4 * |ws|
  {
    if ws == [] then [] else Words(ws[..|ws| - 1]) + Fixed(ws[|ws| - 1] % TWO_32, 4)
  }

  function BlockOf(es: seq<Pair>, interval: nat): Bytes
    requires interval >= 1
  {
    Raw(es, interval, |es|) + Words(Restarts(es, interval)) + Fixed(|Restarts(es, interval)| % TWO_32, 4)
  }

  // ----- the builder -----

  ghost predicate Increasing(es: seq<Pair>, less: (Bytes, Bytes) -> bool) {
    forall i, j :: 0 <= i < j < |es| ==> less(es[i].key, es[j].key)
  }

  class BlockBuilder {
    const interval: nat
    var buffer: Bytes
    var restarts: seq<nat>
    var counter: nat
    var lastKey: Bytes
    var finished: bool
    ghost var entries: seq<Pair>

    ghost predicate Ok()
      reads this
    {
      && interval >= 1 && !finished
      && buffer == Raw(entries, interval, |entries|)
      && restarts == Restarts(entries, interval)
      && lastKey == (if entries == [] then [] else entries[|entries| - 1].key)
      && counter == Counter(interval, |entries|)
    }

    constructor (blockRestartInterval: nat)
      requires blockRestartInterval >= 1
      ensures Ok() && entries == [] && interval == blockRestartInterval
    {
      interval, buffer, restarts, counter, lastKey, finished := blockRestartInterval, [], [0], 0, [], false;
      entries := [];
      new;
      assert restarts == Restarts(entries, interval);
    }

    method Reset()
      requires interval >= 1
      modifies this
      ensures Ok() && entries == []
    {
      buffer, restarts, counter, lastKey, finished := [], [0], 0, [], false;
      entries := [];
      assert restarts == Restarts(entries, interval);
    }

    method Add(key: Bytes, value: Bytes)
      requires Ok()
      modifies this
      ensures Ok() && entries == old(entries) + [Pair(key, value)]
    {
      hide Sizes, Raw, Restarts, EntryBytes, Bytewise.CommonPrefix, Starts, Counter, Shared;
      ghost var es, n := entries + [Pair(key, value)], |entries|;
      var shared := 0;
      AppendEntry(entries, Pair(key, value), interval);
      AppendRestart(entries, Pair(key, value), interval);
      CounterStep(interval, n);
      if counter < interval {
        shared := Bytewise.SharedLength(lastKey, key);
      } else {
        restarts := restarts + [|buffer|];
        counter := 0;
      }
      var nonShared := |key| - shared;
      buffer := buffer + EntryBytes(shared, Pair(key, value));
      SharedIs(entries, Pair(key, value), interval, lastKey);
      Rebuilt(lastKey, key, shared);
      lastKey := lastKey[..shared] + key[shared..];
      counter := counter + 1;
      entries := es;
    }

    predicate Empty()
      reads this
    {
      buffer == []
    }

    // Exactly the size of the block that Finish would make.
    function CurrentSizeEstimate(): (n: nat)
      requires Ok()
      reads this
      ensures n == |BlockOf(entries, interval)|
    {
      |buffer| + 4 * |restarts| + 4
    }

    lemma EmptyWhenNoEntries()
      requires Ok()
      ensures Empty() <==> entries == []
    {
      RawGrows(entries, interval, 0, |entries|);
    }

    method Finish() returns (r: Bytes)
      requires Ok()
      modifies this
      ensures finished && r == BlockOf(old(entries), interval)
    {
      hide Raw, Restarts;
      ghost var raw := buffer;
      for i := 0 to |restarts|
        invariant restarts == old(restarts) && entries == old(entries)
        invariant buffer == raw + Words(restarts[..i])
      {
        assert restarts[..i + 1][..i] == restarts[..i];
        buffer := buffer + Fixed(restarts[i] % TWO_32, 4);
      }
      assert restarts[..|restarts|] == restarts;
      buffer := buffer + Fixed(|restarts| % TWO_32, 4);
      finished := true;
      r := buffer;
    }
  }

  lemma {:induction false} CounterStep(interval: nat, n: nat)
    requires interval >= 1
    ensures Counter(interval, n + 1) == if Counter(interval, n) < interval then Counter(interval, n) + 1 else 1
  {
  }

  lemma {:induction false} Rebuilt(lastKey: Bytes, key: Bytes, shared: nat)
    requires shared == 0 || shared == Bytewise.CommonPrefix(lastKey, key)
    ensures shared <= |lastKey| && shared <= |key| && lastKey[..shared] + key[shared..] == key
  {
    hide Bytewise.CommonPrefix;
  }

  lemma {:induction false} SharedIs(es: seq<Pair>, e: Pair, interval: nat, lastKey: Bytes)
    requires interval >= 1 && lastKey == (if es == [] then [] else es[|es| - 1].key)
    ensures Shared(es + [e], interval, |es|) ==
      if Counter(interval, |es|) < interval then Bytewise.CommonPrefix(lastKey, e.key) else 0
  {
  }

  lemma {:induction false} RawOfPrefix(es: seq<Pair>, e: Pair, interval: nat, i: nat)
    requires interval >= 1 && i <= |es|
    ensures Raw(es + [e], interval, i) == Raw(es, interval, i)
  {
    hide EntryBytes, Bytewise.CommonPrefix, Counter;
    if i > 0 {
      RawOfPrefix(es, e, interval, i - 1);
      assert Shared(es + [e], interval, i - 1) == Shared(es, interval, i - 1);
    }
  }

  lemma {:induction false} AppendEntry(es: seq<Pair>, e: Pair, interval: nat)
    requires interval >= 1
    ensures Raw(es + [e], interval, |es| + 1) ==
      Raw(es, interval, |es|) + EntryBytes(Shared(es + [e], interval, |es|), e)
  {
    hide EntryBytes, Shared;
    RawOfPrefix(es, e, interval, |es|);
  }

  lemma {:induction false} AppendRestart(es: seq<Pair>, e: Pair, interval: nat)
    requires interval >= 1
    ensures Restarts(es + [e], interval) ==
      Restarts(es, interval) + if Counter(interval, |es|) < interval then [] else [Offset(es, interval, |es|)]
  {
    var n := |es|;
    var starts, starts' := Starts(interval, n), Starts(interval, n + 1);
    assert starts' == if Counter(interval, n) < interval then starts else starts + [n];
    hide Starts, Raw, Counter;
    forall j | 0 <= j < |starts'| ensures Offset(es + [e], interval, starts'[j]) == Offset(es, interval, starts'[j]) {
      RawOfPrefix(es, e, interval, starts'[j]);
    }
  }

  // ----- decoding -----

  datatype Header = Header(shared: nat, nonShared: nat, valueLength: nat, size: nat)

  // The three sizes an entry starts with.
  function ParseSizes(b: Bytes): (r: Option<Header>)
    ensures r.Some? ==> r.value.size <= |b|
  {
    match ParseVarint(b, 5, TWO_32)
    case None => None
    case Some(s) =>
      match ParseVarint(b[s.1..], 5, TWO_32)
      case None => None
      case Some(n) =>
        match ParseVarint(b[s.1 + n.1..], 5, TWO_32)
        case None => None
        case Some(v) => Some(Header(s.0, n.0, v.0, s.1 + n.1 + v.1))
  }

  lemma {:induction false} SizesParse(shared: nat, nonShared: nat, value: nat, rest: Bytes)
    requires shared < TWO_32 && nonShared < TWO_32 && value < TWO_32
    ensures ParseSizes(Sizes(shared, nonShared, value) + rest) ==
      Some(Header(shared, nonShared, value, |Sizes(shared, nonShared, value)|))
  {
    hide *;
    SizesAre(shared, nonShared, value);
    var a, b, c := Varint(shared), Varint(nonShared), Varint(value);
    var all := Sizes(shared, nonShared, value) + rest;
    Varint32Fits(shared);
    Varint32Fits(nonShared);
    Varint32Fits(value);
    VarintRoundTrip(shared, b + c + rest, 5, TWO_32);
    VarintRoundTrip(nonShared, c + rest, 5, TWO_32);
    VarintRoundTrip(value, rest, 5, TWO_32);
    Associate(a, b, c, rest);
    SizesFrom(all, shared, nonShared, value, |a|, |b|, |c|);
  }

  lemma {:induction false} SizesAre(shared: nat, nonShared: nat, value: nat)
    requires shared < TWO_32 && nonShared < TWO_32 && value < TWO_32
    ensures Sizes(shared, nonShared, value) == Varint(shared) + Varint(nonShared) + Varint(value)
  {
    hide Varint;
  }

  lemma {:induction false} Associate(a: Bytes, b: Bytes, c: Bytes, d: Bytes)
    ensures var all := a + b + c + d; all == a + (b + c + d) && all[|a|..] == b + (c + d) && all[|a| + |b|..] == c + d
  {
  }

  lemma {:induction false} SizesFrom(all: Bytes, s: nat, n: nat, v: nat, i: nat, j: nat, k: nat)
    requires i + j <= |all| && ParseVarint(all, 5, TWO_32) == Some((s, i))
    requires ParseVarint(all[i..], 5, TWO_32) == Some((n, j)) && ParseVarint(all[i + j..], 5, TWO_32) == Some((v, k))
    ensures ParseSizes(all) == Some(Header(s, n, v, i + j + k))
  {
    hide ParseVarint;
  }

  lemma {:induction false} OneByteVarint(b: Bytes)
    requires |b| > 0 && b[0] < 128
    ensures ParseVarint(b, 5, TWO_32) == Some((b[0], 1))
  {
    assert b[..1] == [b[0]];
    assert VarintValue([b[0]]) == b[0] % 128 + 128 * VarintValue([]);
  }

  lemma {:induction false} ParseTakesAByte(b: Bytes)
    ensures ParseSizes(b).Some? ==> ParseSizes(b).value.size >= 3 && |b| >= 3
  {
    hide ParseVarint;
  }

  // DecodeEntry: sizes from the bytes at hand, and both byte strings in range.
  method DecodeEntry(b: Bytes) returns (r: Option<Header>)
    ensures r == match ParseSizes(b)
                 case Some(h) => if |b| - h.size < h.nonShared + h.valueLength then None else Some(h)
                 case None => None
  {
    hide ParseVarint;
    ParseTakesAByte(b);
    if |b| < 3 {
      return None;
    }
    var shared, nonShared, valueLength, p := b[0] as nat, b[1] as nat, b[2] as nat, 3;
    if shared < 128 && nonShared < 128 && valueLength < 128 {
      // Fast path: one byte each.
      OneByteVarint(b);
      OneByteVarint(b[1..]);
      OneByteVarint(b[2..]);
    } else {
      var s := GetVarint(b, 5, TWO_32);
      if s == None {
        return None;
      }
      var n := GetVarint(b[s.value.1..], 5, TWO_32);
      if n == None {
        return None;
      }
      var v := GetVarint(b[s.value.1 + n.value.1..], 5, TWO_32);
      if v == None {
        return None;
      }
      shared, nonShared, valueLength, p := s.value.0, n.value.0, v.value.0, s.value.1 + n.value.1 + v.value.1;
    }
    if |b| - p < nonShared + valueLength {
      return None;
    }
    r := Some(Header(shared, nonShared, valueLength, p));
  }

  // ----- what the finished bytes hold, and where -----

  // A block whose offsets and sizes fit their 32 bits.
  ghost predicate IsBlock(data: Bytes, es: seq<Pair>, interval: nat) {
    interval >= 1 && data == BlockOf(es, interval) && |data| < TWO_32
  }

  lemma {:induction false} RawGrows(es: seq<Pair>, interval: nat, i: nat, n: nat)
    requires interval >= 1 && i <= n <= |es|
    ensures Raw(es, interval, i) <= Raw(es, interval, n)
    ensures i < n ==> |Raw(es, interval, i)| + 3 <= |Raw(es, interval, n)|
    decreases n
  {
    hide EntryBytes, Shared;
    if i < n {
      RawGrows(es, interval, i, n - 1);
    }
  }

  lemma {:induction false} EntryAt(es: seq<Pair>, interval: nat, i: nat)
    requires interval >= 1 && i < |es|
    ensures var raw := Raw(es, interval, |es|); var o := Offset(es, interval, i);
      && Offset(es, interval, i + 1) == o + |EntryBytes(Shared(es, interval, i), es[i])| <= |raw|
      && raw[o..] == EntryBytes(Shared(es, interval, i), es[i]) + raw[Offset(es, interval, i + 1)..]
  {
    hide EntryBytes, Shared;
    var raw, upto := Raw(es, interval, |es|), Raw(es, interval, i + 1);
    RawGrows(es, interval, i + 1, |es|);
    assert raw == upto + raw[|upto|..];
    assert upto == Raw(es, interval, i) + EntryBytes(Shared(es, interval, i), es[i]);
  }

  lemma {:induction false} OffsetsOrdered(es: seq<Pair>, interval: nat, i: nat, j: nat)
    requires interval >= 1 && i <= |es| && j <= |es|
    ensures Offset(es, interval, i) < Offset(es, interval, j) <==> i < j
    ensures Offset(es, interval, i) <= Offset(es, interval, |es|)
  {
    hide Raw;
    RawGrows(es, interval, i, |es|);
    if i <= j {
      RawGrows(es, interval, i, j);
    } else {
      RawGrows(es, interval, j, i);
    }
  }

  lemma {:induction false} KeyBounded(es: seq<Pair>, interval: nat, i: nat)
    requires interval >= 1 && i < |es|
    ensures |es[i].key| <= Offset(es, interval, i + 1)
  {
    hide EntryBytes, Bytewise.CommonPrefix, Counter;
    assert |EntryBytes(Shared(es, interval, i), es[i])| >= |es[i].key| - Shared(es, interval, i);
    if !IsRestart(interval, i) {
      KeyBounded(es, interval, i - 1);
    }
  }

  lemma {:induction false} DataAt(data: Bytes, es: seq<Pair>, interval: nat, i: nat)
    requires IsBlock(data, es, interval) && i < |es|
    ensures var s, e, o, limit := Shared(es, interval, i), es[i], Offset(es, interval, i), Offset(es, interval, |es|);
      && o < limit <= |data| < TWO_32 && |e.key| < TWO_32 && |e.value| < TWO_32
      && Offset(es, interval, i + 1) == o + |Sizes(s, |e.key| - s, |e.value|)| + |e.key| - s + |e.value| <= limit
      && data[o..limit] == Sizes(s, |e.key| - s, |e.value|) + e.key[s..] + e.value
        + data[Offset(es, interval, i + 1)..limit]
  {
    var raw := Raw(es, interval, |es|);
    EntryAt(es, interval, i);
    KeyBounded(es, interval, i);
    OffsetsOrdered(es, interval, i, |es|);
    hide Raw, Sizes, Shared, Restarts, Words;
    assert |raw| <= |data| && data[..|raw|] == raw;
    assert forall k :: 0 <= k <= |raw| ==> data[k..|raw|] == raw[k..];
  }

  // The bytes from o decode to an entry that shares s bytes of its key.
  ghost predicate Decodes(data: Bytes, o: nat, limit: nat, s: nat, e: Pair, next: nat) {
    && o < next <= limit <= |data| && s <= |e.key|
    && match ParseSizes(data[o..limit])
       case None => false
       case Some(h) =>
         var p := o + h.size; var q := p + h.nonShared;
         && h.shared == s && h.nonShared == |e.key| - s && h.valueLength == |e.value|
         && q + h.valueLength == next
         && data[p..q] == e.key[s..] && data[q..next] == e.value
  }

  lemma {:induction false} BytesDecode(data: Bytes, o: nat, limit: nat, s: nat, e: Pair, next: nat)
    requires o < limit <= |data| && s <= |e.key| < TWO_32 && |e.value| < TWO_32
    requires next == o + |Sizes(s, |e.key| - s, |e.value|)| + |e.key| - s + |e.value| <= limit
    requires data[o..limit] == Sizes(s, |e.key| - s, |e.value|) + e.key[s..] + e.value + data[next..limit]
    ensures Decodes(data, o, limit, s, e, next)
  {
    var sizes := Sizes(s, |e.key| - s, |e.value|);
    assert |sizes| >= 3;
    var p, q := o + |sizes|, o + |sizes| + |e.key| - s;
    hide Sizes, ParseSizes, Decodes;
    SplitFour(data, o, p, q, next, limit, sizes, e.key[s..], e.value, data[next..limit]);
    SizesParse(s, |e.key| - s, |e.value|, e.key[s..] + e.value + data[next..limit]);
    DecodesIs(data, o, p, q, limit, s, e, next);
  }

  lemma {:induction false} DecodesIs(data: Bytes, o: nat, p: nat, q: nat, limit: nat, s: nat, e: Pair, next: nat)
    requires o < p <= q <= next <= limit <= |data| && s <= |e.key| && q == p + |e.key| - s && next == q + |e.value|
    requires ParseSizes(data[o..limit]) == Some(Header(s, |e.key| - s, |e.value|, p - o))
    requires data[p..q] == e.key[s..] && data[q..next] == e.value
    ensures Decodes(data, o, limit, s, e, next)
  {
    hide ParseSizes;
  }

  // Every entry is found at its offset.
  lemma {:induction false} EntryDecodes(data: Bytes, es: seq<Pair>, interval: nat, i: nat)
    requires IsBlock(data, es, interval) && i < |es|
    ensures Decodes(data, Offset(es, interval, i), Offset(es, interval, |es|), Shared(es, interval, i), es[i],
      Offset(es, interval, i + 1))
  {
    assert interval >= 1;
    hide Raw, Sizes, IsBlock, Shared, Offset, Decodes;
    DataAt(data, es, interval, i);
    BytesDecode(data, Offset(es, interval, i), Offset(es, interval, |es|), Shared(es, interval, i), es[i],
      Offset(es, interval, i + 1));
  }

  lemma {:induction false} SplitFour(data: Bytes, o: nat, p: nat, q: nat, next: nat, limit: nat, a: Bytes, b: Bytes,
      c: Bytes, d: Bytes)
    requires o <= p <= q <= next <= limit <= |data| && data[o..limit] == a + b + c + d
    requires p == o + |a| && q == p + |b| && next == q + |c|
    ensures data[o..limit] == a + (b + c + d) && data[p..q] == b && data[q..next] == c
  {
    var x := data[o..limit];
    SliceOfSlice(data, o, limit, p - o, q - o);
    SliceOfSlice(data, o, limit, q - o, next - o);
    assert x[p - o..q - o] == b;
    assert x[q - o..next - o] == c;
  }

  // ----- the restart array -----

  lemma {:induction false} WordAt(ws: seq<nat>, j: nat)
    requires j < |ws|
    ensures Words(ws)[4 * j..4 * j + 4] == Fixed(ws[j] % TWO_32, 4)
    decreases |ws|
  {
    hide Fixed;
    var front, last := ws[..|ws| - 1], Fixed(ws[|ws| - 1] % TWO_32, 4);
    if j < |front| {
      WordAt(front, j);
      assert Words(ws)[4 * j..4 * j + 4] == Words(front)[4 * j..4 * j + 4];
    } else {
      assert Words(ws)[4 * j..4 * j + 4] == last;
    }
  }

  lemma {:induction false} FixedIs(w: nat)
    requires w < TWO_32
    ensures FixedValue(Fixed(w % TWO_32, 4)) == w
  {
    hide Fixed, FixedValue, Power;
    RemainderIs(w, TWO_32, 0, w);
    FixedRoundTrip(w, 4);
    PowersOf256();
  }

  // The trailer holds the number of restart points and the offset of each.
  lemma {:induction false} TrailerDecodes(data: Bytes, es: seq<Pair>, interval: nat)
    requires IsBlock(data, es, interval)
    ensures var n, limit := |Starts(interval, |es|)|, Offset(es, interval, |es|);
      && |data| == limit + 4 * n + 4 && n < TWO_32
      && FixedValue(data[|data| - 4..]) == n
  {
    var restarts := Restarts(es, interval);
    FixedIs(|restarts|);
    hide Raw, Fixed, Restarts, Words;
    assert data[|data| - 4..] == Fixed(|restarts| % TWO_32, 4);
  }

  lemma {:induction false} RestartDecodes(data: Bytes, es: seq<Pair>, interval: nat, j: nat, at: nat)
    requires IsBlock(data, es, interval) && j < |Starts(interval, |es|)| && at == Offset(es, interval, |es|) + 4 * j
    ensures at + 4 <= |data| && FixedValue(data[at..at + 4]) == Offset(es, interval, Starts(interval, |es|)[j])
  {
    var restarts, raw := Restarts(es, interval), Raw(es, interval, |es|);
    var s := Starts(interval, |es|)[j];
    OffsetsOrdered(es, interval, s, |es|);
    hide Starts, Raw, Words, Fixed, FixedValue;
    RestartWord(data, raw, restarts, j);
  }

  lemma {:induction false} RestartWord(data: Bytes, raw: Bytes, restarts: seq<nat>, j: nat)
    requires data == raw + Words(restarts) + Fixed(|restarts| % TWO_32, 4)
    requires j < |restarts| && restarts[j] < TWO_32
    ensures |raw| + 4 * j + 4 <= |data| && FixedValue(data[|raw| + 4 * j..|raw| + 4 * j + 4]) == restarts[j]
  {
    hide Fixed, Words, FixedValue;
    WordAt(restarts, j);
    FixedIs(restarts[j]);
    MiddleWord(data, raw, Words(restarts), Fixed(|restarts| % TWO_32, 4), 4 * j, Fixed(restarts[j] % TWO_32, 4));
  }

  lemma {:induction false} MiddleWord(data: Bytes, a: Bytes, b: Bytes, c: Bytes, i: nat, w: Bytes)
    requires data == a + b + c && i + 4 <= |b| && b[i..i + 4] == w
    ensures |a| + i + 4 <= |data| && data[|a| + i..|a| + i + 4] == w
  {
  }

  // ----- the iterator -----

  ghost predicate Transitive(less: (Bytes, Bytes) -> bool) {
    forall a, b, c :: less(a, b) && less(b, c) ==> less(a, c)
  }

  // The first entry whose key is not before the target.
  ghost predicate IsLowerBound(es: seq<Pair>, less: (Bytes, Bytes) -> bool, target: Bytes, i: nat) {
    && i <= |es|
    && (forall j :: 0 <= j < i ==> less(es[j].key, target))
    && (i < |es| ==> !less(es[i].key, target))
  }

  // The iterator of a block. It reads any bytes with a restart array at their
  // end; `entries` are what they hold when they are a finished block.
  class Iter {
    const less: (Bytes, Bytes) -> bool
    const data: Bytes
    const restarts: nat
    const numRestarts: nat
    var current: nat
    var restartIndex: nat
    var key: Bytes
    var valueAt: nat
    var valueSize: nat
    var corrupted: bool
    ghost const entries: seq<Pair>
    ghost const interval: nat
    ghost const good: bool
    ghost var pos: nat

    ghost predicate Ok()
      reads this
    {
      && Shape() && current <= restarts && pos <= |entries|
      && (current < restarts ==> restartIndex < numRestarts && current < NextEntryOffset() <= restarts)
      && (good ==> Standing(pos))
    }

    ghost predicate Shape() {
      && restarts + 4 * numRestarts + 4 == |data| && numRestarts >= 1
      && (good ==>
            && interval >= 1 && IsBlock(data, entries, interval)
            && restarts == Offset(entries, interval, |entries|)
            && numRestarts == |Starts(interval, |entries|)|)
    }

    // On entry i, or past the last one.
    ghost predicate Standing(i: nat)
      requires good ==> interval >= 1
      reads `current, `restartIndex, `key, `valueAt, `valueSize
    {
      if i < |entries| then
        good ==>
          && current == Offset(entries, interval, i)
          && key == entries[i].key
          && valueAt + valueSize == Offset(entries, interval, i + 1) <= |data|
          && data[valueAt..valueAt + valueSize] == entries[i].value
          && InRegion(i)
      else
        current == restarts
    }

    // The restart index is that of entry i, or of the one before it when i is
    // itself a restart point.
    ghost predicate InRegion(i: nat)
      requires good ==> interval >= 1
      reads `restartIndex
    {
      good ==>
        && restartIndex < |Starts(interval, |entries|)|
        && Starts(interval, |entries|)[restartIndex] <= i
        && (restartIndex + 1 < |Starts(interval, |entries|)| ==> i <= Starts(interval, |entries|)[restartIndex + 1])
    }

    // About to parse entry i.
    ghost predicate Ready(i: nat)
      requires good ==> interval >= 1
      reads `restartIndex, `key, `valueAt, `valueSize
    {
      good ==>
        && i <= |entries|
        && valueAt + valueSize == Offset(entries, interval, i)
        && (i < |entries| ==>
              && |key| >= Shared(entries, interval, i)
              && key[..Shared(entries, interval, i)] == entries[i].key[..Shared(entries, interval, i)]
              && restartIndex < |Starts(interval, |entries|)|
              && Starts(interval, |entries|)[restartIndex] <= i)
    }

    predicate Valid()
      reads this
    {
      current < restarts
    }

    function NextEntryOffset(): nat
      reads this
    {
      valueAt + valueSize
    }

    method GetRestartPoint(index: nat) returns (r: nat)
      requires Shape() && index < numRestarts
      ensures good ==> r == Offset(entries, interval, Starts(interval, |entries|)[index])
    {
      hide IsBlock, FixedValue, Offset, Starts;
      var at := restarts + index * 4;
      if good {
        RestartDecodes(data, entries, interval, index, at);
      }
      var word := data[at..at + 4];
      assert word[..4] == word;
      r := DecodeFixed32(word);
    }

    method SeekToRestartPoint(index: nat)
      requires Shape() && index < numRestarts
      modifies this`key, this`restartIndex, this`valueAt, this`valueSize
      ensures restartIndex == index
      ensures good ==> Ready(Starts(interval, |entries|)[index])
    {
      key := [];
      restartIndex := index;
      var offset := GetRestartPoint(index);
      valueAt, valueSize := offset, 0;
    }

    method CorruptionError()
      modifies this`current, this`restartIndex, this`corrupted, this`key, this`valueAt, this`valueSize
      ensures current == restarts && restartIndex == numRestarts && corrupted
    {
      current, restartIndex, corrupted := restarts, numRestarts, true;
      key, valueAt, valueSize := [], 0, 0;
    }

    // Reads the next entry.
    method ParseNextKey(ghost i: nat) returns (more: bool)
      requires Shape() && restartIndex < numRestarts && Ready(i)
      modifies this
      ensures Shape() && current <= restarts && (more ==> restartIndex < numRestarts)
      ensures more ==> current == old(NextEntryOffset()) < NextEntryOffset() <= restarts
      ensures !more ==> current == restarts
      ensures good ==>
        corrupted == old(corrupted) && (more <==> i < |entries|) && Standing(i) && (more ==> Ready(i + 1))
      ensures pos == old(pos)
    {
      hide IsBlock, Offset, Starts, Shared, ParseSizes, Decodes, InRegion, Raw;
      if good {
        EntryFacts(i);
      }
      current := NextEntryOffset();
      if current >= restarts {
        current, restartIndex := restarts, numRestarts;
        return false;
      }
      var r := DecodeEntry(data[current..restarts]);
      ParseTakesAByte(data[current..restarts]);
      if good {
        WhatDecodes(i);
      }
      if r == None || |key| < r.value.shared {
        CorruptionError();
        return false;
      }
      var h := r.value;
      var p := current + h.size;
      key := key[..h.shared] + data[p..p + h.nonShared];
      valueAt, valueSize := p + h.nonShared, h.valueLength;
      AdvanceRestartIndex(i);
      more := true;
      if good {
        NextReady(i);
      }
    }

    // From entry i, the next one can be parsed.
    lemma NextReady(i: nat)
      requires Shape() && good && i < |entries| && Standing(i)
      ensures Ready(i + 1)
    {
      hide IsBlock, Offset, Starts;
      if i + 1 < |entries| && !IsRestart(interval, i + 1) {
        var n := Bytewise.CommonPrefix(entries[i].key, entries[i + 1].key);
        assert n == Shared(entries, interval, i + 1);
      }
    }

    lemma EntryFacts(i: nat)
      requires Shape() && good && Ready(i)
      ensures NextEntryOffset() == Offset(entries, interval, i) <= restarts
      ensures i < |entries| <==> Offset(entries, interval, i) < restarts
    {
      OffsetsOrdered(entries, interval, i, |entries|);
    }

    lemma WhatDecodes(i: nat)
      requires Shape() && good && Ready(i) && i < |entries| && current == Offset(entries, interval, i)
      ensures current < restarts
      ensures match ParseSizes(data[current..restarts])
              case None => false
              case Some(h) =>
                var p := current + h.size; var q := p + h.nonShared;
                && q + h.valueLength == Offset(entries, interval, i + 1) <= restarts
                && h.shared <= |key| && key[..h.shared] + data[p..q] == entries[i].key
                && data[q..q + h.valueLength] == entries[i].value
    {
      hide IsBlock, Offset, Starts, Shared, ParseSizes;
      EntryDecodes(data, entries, interval, i);
      var s, k := Shared(entries, interval, i), entries[i].key;
      assert k[..s] + k[s..] == k;
    }

    method AdvanceRestartIndex(ghost i: nat)
      requires Shape() && restartIndex < numRestarts
      requires good ==> i < |entries| && current == Offset(entries, interval, i)
      requires good ==> restartIndex < numRestarts && Starts(interval, |entries|)[restartIndex] <= i
      modifies this`restartIndex
      ensures restartIndex < numRestarts && InRegion(i)
    {
      hide IsBlock, Offset, Starts;
      while restartIndex + 1 < numRestarts
        invariant restartIndex < numRestarts
        invariant good ==> Starts(interval, |entries|)[restartIndex] <= i
      {
        var point := GetRestartPoint(restartIndex + 1);
        if good {
          OffsetsOrdered(entries, interval, Starts(interval, |entries|)[restartIndex + 1], i);
        }
        if point >= current {
          break;
        }
        restartIndex := restartIndex + 1;
      }
    }

    // Over finished bytes, a fresh iterator is invalid.
    constructor (compare: (Bytes, Bytes) -> bool, d: Bytes, restartOffset: nat, n: nat, ghost es: seq<Pair>,
        ghost k: nat)
      requires n >= 1 && restartOffset + 4 * n + 4 == |d|
      requires IsBlock(d, es, k) ==> restartOffset == Offset(es, k, |es|) && n == |Starts(k, |es|)|
      ensures Ok() && !Valid() && less == compare && data == d && !corrupted
      ensures entries == es && interval == k && (good <==> IsBlock(d, es, k)) && pos == |es|
    {
      less, data, restarts, numRestarts := compare, d, restartOffset, n;
      current, restartIndex, key, valueAt, valueSize, corrupted := restartOffset, n, [], 0, 0, false;
      entries, interval, good, pos := es, k, IsBlock(d, es, k), |es|;
    }

    method Next()
      requires Ok() && Valid()
      modifies this
      ensures Ok() && (Valid() ==> current > old(current))
      ensures good ==> pos == old(pos) + 1 && corrupted == old(corrupted)
    {
      hide IsBlock, Offset, Starts, Shared, InRegion;
      if good {
        NextReady(pos);
      }
      var more := ParseNextKey(pos + 1);
      pos := if good then pos + 1 else pos;
    }

    method Prev()
      requires Ok() && Valid()
      modifies this
      ensures Ok()
      ensures good ==> corrupted == old(corrupted) && pos == if old(pos) == 0 then |entries| else old(pos) - 1
    {
      hide IsBlock, Offset, Starts, Shared, InRegion;
      var original := current;
      var found := RestartBefore(original);
      if !found {
        current := restarts;
        restartIndex := numRestarts;
        pos := |entries|;
        return;
      }
      ghost var i: nat := if good then Starts(interval, |entries|)[restartIndex] else 0;
      SeekToRestartPoint(restartIndex);
      ScanTo(original, i, pos);
      pos := if good then pos - 1 else pos;
    }

    // Back to a restart point before the current entry.
    method RestartBefore(original: nat) returns (found: bool)
      requires Ok() && Valid() && original == current
      modifies this`restartIndex
      ensures restartIndex < numRestarts
      ensures good ==> (found <==> pos > 0) && (found ==> Starts(interval, |entries|)[restartIndex] < pos)
    {
      if good {
        RegionOf(pos);
      }
      hide IsBlock, Offset, Starts, Shared, InRegion, Standing;
      while true
        invariant restartIndex < numRestarts
        invariant good ==> Starts(interval, |entries|)[restartIndex] <= pos
        decreases restartIndex
      {
        var point := GetRestartPoint(restartIndex);
        if good {
          OffsetsOrdered(entries, interval, Starts(interval, |entries|)[restartIndex], pos);
        }
        if point < original {
          return true;
        }
        if restartIndex == 0 {
          return false;
        }
        restartIndex := restartIndex - 1;
      }
    }

    lemma RegionOf(i: nat)
      requires Shape() && good && Standing(i) && current < restarts
      ensures i < |entries| && current == Offset(entries, interval, i)
      ensures restartIndex < |Starts(interval, |entries|)| && Starts(interval, |entries|)[restartIndex] <= i
    {
    }

    // On until the end of an entry hits the start of the original one.
    method ScanTo(original: nat, ghost first: nat, ghost was: nat)
      requires Shape() && restartIndex < numRestarts && Ready(first)
      requires good ==> first < was <= |entries| && original == Offset(entries, interval, was)
      modifies this
      ensures Shape() && current <= restarts && pos == old(pos)
      ensures current < restarts ==> restartIndex < numRestarts && current < NextEntryOffset() <= restarts
      ensures good ==> corrupted == old(corrupted) && Standing(was - 1)
    {
      hide IsBlock, Offset, Starts, Shared, InRegion;
      ghost var i: nat := first;
      while true
        invariant Shape() && restartIndex < numRestarts && Ready(i) && pos == old(pos)
        invariant good ==> i < was && corrupted == old(corrupted)
        decreases if NextEntryOffset() <= restarts then restarts - NextEntryOffset() else 0
      {
        var more := ParseNextKey(i);
        if good {
          OffsetsOrdered(entries, interval, i + 1, was);
          if more {
            EntryEnd(i);
          }
        }
        if !more || NextEntryOffset() >= original {
          break;
        }
        i := i + 1;
      }
    }

    lemma EntryEnd(i: nat)
      requires Shape() && good && i < |entries| && Standing(i)
      ensures NextEntryOffset() == Offset(entries, interval, i + 1)
    {
    }

    method SeekToFirst()
      requires Ok()
      modifies this
      ensures Ok()
      ensures good ==> corrupted == old(corrupted) && pos == 0
    {
      hide IsBlock, Offset, Starts, Shared, InRegion;
      SeekToRestartPoint(0);
      var more := ParseNextKey(0);
      pos := 0;
    }

    method SeekToLast()
      requires Ok()
      modifies this
      ensures Ok()
      ensures good ==> corrupted == old(corrupted) && pos == if entries == [] then 0 else |entries| - 1
    {
      hide IsBlock, Offset, Starts, Shared, InRegion;
      SeekToRestartPoint(numRestarts - 1);
      ghost var i: nat := if good then Starts(interval, |entries|)[numRestarts - 1] else 0;
      while true
        invariant Shape() && restartIndex < numRestarts && Ready(i) && pos == old(pos)
        invariant good ==> corrupted == old(corrupted) && (i < |entries| || i == |entries| == 0)
        decreases if NextEntryOffset() <= restarts then restarts - NextEntryOffset() else 0
      {
        var more := ParseNextKey(i);
        if good && more {
          EntryEnd(i);
          OffsetsOrdered(entries, interval, i + 1, |entries|);
        }
        if !more || NextEntryOffset() >= restarts {
          break;
        }
        i := i + 1;
      }
      pos := if good then i else pos;
    }

    // Binary search for the last restart point whose key is before the target.
    method FindRestart(target: Bytes) returns (left: nat, failed: bool)
      requires Shape()
      ensures left < numRestarts
      ensures good ==> !failed && (left == 0 || less(entries[Starts(interval, |entries|)[left]].key, target))
    {
      hide IsBlock, Offset, Starts, Shared, ParseSizes;
      left, failed := 0, false;
      var right := numRestarts - 1;
      while left < right
        invariant left <= right < numRestarts
        invariant good ==> left == 0 || less(entries[Starts(interval, |entries|)[left]].key, target)
      {
        var mid := (left + right + 1) / 2;
        var regionOffset := GetRestartPoint(mid);
        var region := if regionOffset <= restarts then data[regionOffset..restarts] else [];
        var r := DecodeEntry(region);
        ParseTakesAByte(region);
        if good {
          RestartKey(mid);
        }
        if r == None || r.value.shared != 0 {
          return left, true;
        }
        var p := regionOffset + r.value.size;
        var midKey := data[p..p + r.value.nonShared];
        if less(midKey, target) {
          left := mid;
        } else {
          right := mid - 1;
        }
      }
    }

    lemma RestartKey(j: nat)
      requires Shape() && good && 0 < j < numRestarts
      ensures var i := Starts(interval, |entries|)[j]; var o := Offset(entries, interval, i);
        && i < |entries| && o <= restarts
        && match ParseSizes(data[o..restarts])
           case None => false
           case Some(h) =>
             var p := o + h.size; var q := p + h.nonShared;
             h.shared == 0 && q + h.valueLength <= restarts && data[p..q] == entries[i].key
    {
      hide IsBlock, Offset, Starts, ParseSizes;
      var i := Starts(interval, |entries|)[j];
      EntryDecodes(data, entries, interval, i);
      assert Shared(entries, interval, i) == 0;
    }

    // To the first entry whose key is at or after the target.
    method Seek(target: Bytes)
      requires Ok()
      modifies this
      ensures Ok()
      ensures good ==> corrupted == old(corrupted)
      ensures good && Increasing(entries, less) && Transitive(less) ==> IsLowerBound(entries, less, target, pos)
    {
      hide IsBlock, Offset, Starts, Shared, InRegion, Increasing, Transitive, Standing;
      ghost var ordered := good && Increasing(entries, less) && Transitive(less);
      var left, failed := FindRestart(target);
      if failed {
        CorruptionError();
        return;
      }
      SeekToRestartPoint(left);
      ghost var i: nat := if good then Starts(interval, |entries|)[left] else 0;
      if ordered {
        BeforeRestart(target, left);
      }
      while true
        invariant Shape() && restartIndex < numRestarts && pos == old(pos) && Ready(i)
        invariant good ==> corrupted == old(corrupted) && i <= |entries|
        invariant ordered ==> forall j :: 0 <= j < i ==> less(entries[j].key, target)
        decreases if NextEntryOffset() <= restarts then restarts - NextEntryOffset() else 0
      {
        var more := ParseNextKey(i);
        if good {
          KeyHere(i);
        }
        if !more || !less(key, target) {
          break;
        }
        i := i + 1;
      }
      pos := if good then i else pos;
    }

    // What a caller can rely on.
    lemma Facts()
      requires Ok()
      ensures Valid() ==> current <= restarts && valueAt <= NextEntryOffset() <= |data|
      ensures good ==> pos <= |entries| && (Valid() <==> pos < |entries|)
      ensures good && Valid() ==> key == entries[pos].key && data[valueAt..NextEntryOffset()] == entries[pos].value
    {
      hide IsBlock, Offset, Starts;
      if good && pos < |entries| {
        OffsetsOrdered(entries, interval, pos, |entries|);
      }
    }

    lemma KeyHere(i: nat)
      requires Shape() && good && Standing(i)
      ensures i < |entries| ==> key == entries[i].key
    {
    }

    lemma BeforeRestart(target: Bytes, left: nat)
      requires Shape() && good && Increasing(entries, less) && Transitive(less) && left < numRestarts
      requires left == 0 || less(entries[Starts(interval, |entries|)[left]].key, target)
      ensures Starts(interval, |entries|)[left] <= |entries|
      ensures forall j :: 0 <= j < Starts(interval, |entries|)[left] ==> less(entries[j].key, target)
    {
      hide IsBlock, Offset, Starts;
    }
  }

  // The restart array of a block, checked; no iterator for bytes too short for
  // it, or without restart points.
  method NewIterator(compare: (Bytes, Bytes) -> bool, contents: Bytes, ghost es: seq<Pair>, ghost interval: nat)
    returns (it: Iter?)
    ensures it != null ==>
      fresh(it) && it.Ok() && !it.Valid() && it.data == contents && it.less == compare && !it.corrupted
    ensures it != null ==> it.entries == es && it.interval == interval && (it.good <==> IsBlock(contents, es, interval))
    ensures IsBlock(contents, es, interval) ==> it != null
  {
    hide IsBlock, FixedValue, Offset, Starts;
    it := null;
    if IsBlock(contents, es, interval) {
      TrailerDecodes(contents, es, interval);
    }
    if |contents| >= 4 {
      var word := contents[|contents| - 4..];
      assert word[..4] == word;
      var n := DecodeFixed32(word);
      if n <= (|contents| - 4) / 4 {
        if n != 0 {
          it := new Iter(compare, contents, |contents| - (1 + n) * 4, n, es, interval);
        }
      }
    }
  }

  // The round trip: walking the finished block forward yields the pairs added.
  method ReadBlock(compare: (Bytes, Bytes) -> bool, contents: Bytes, ghost es: seq<Pair>, ghost interval: nat)
    returns (result: seq<Pair>)
    ensures IsBlock(contents, es, interval) ==> result == es
  {
    hide IsBlock, Iter.Ok;
    result := [];
    var it := NewIterator(compare, contents, es, interval);
    if it == null {
      return;
    }
    it.SeekToFirst();
    it.Facts();
    while it.Valid()
      invariant it.Ok() && fresh(it)
      invariant it.good ==> it.pos <= |es| && result == es[..it.pos] && (it.Valid() <==> it.pos < |es|)
      decreases it.restarts - it.current
    {
      it.Facts();
      result := result + [Pair(it.key, it.data[it.valueAt..it.valueAt + it.valueSize])];
      it.Next();
      it.Facts();
    }
  }
}
