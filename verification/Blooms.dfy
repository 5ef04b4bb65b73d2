// Bloom filters: the hash (util/hash.cc), the filter of a list of keys and the
// probe of a key (util/bloom.cc).
module Blooms {
  import opened Keys
  import opened Codings

  // ----- the hash -----

  const MULTIPLIER: bv32 := 0xc6a4_a793

  function Little(b0: Byte, b1: Byte, b2: Byte, b3: Byte): bv32 {
    b0 as bv32 | (b1 as bv32 << 8) | (b2 as bv32 << 16) | (b3 as bv32 << 24)
  }

  function MixWord(h: bv32, w: bv32): bv32 {
    var m := (h + w) * MULTIPLIER;
    m ^ (m >> 16)
  }

  function MixTail(h: bv32, t: bv32): bv32 {
    var m := (h + t) * MULTIPLIER;
    m ^ (m >> 24)
  }

  // Four bytes at a time, then the last three, two or one.
  function HashFrom(h: bv32, data: Bytes): bv32
    decreases |data|
  {
    if |data| >= 4 then HashFrom(MixWord(h, Little(data[0], data[1], data[2], data[3])), data[4..])
    else if |data| == 3 then MixTail(h, Little(data[0], data[1], data[2], 0))
    else if |data| == 2 then MixTail(h, Little(data[0], data[1], 0, 0))
    else if |data| == 1 then MixTail(h, Little(data[0], 0, 0, 0))
    else h
  }

  function HashOf(data: Bytes, seed: bv32): bv32 {
    HashFrom(seed ^ (((|data| % TWO_32) as bv32) * MULTIPLIER), data)
  }

  method Hash(data: Bytes, seed: bv32) returns (h: bv32)
    ensures h == HashOf(data, seed)
  {
    hide MixWord, MixTail, Little;
    h := seed ^ (((|data| % TWO_32) as bv32) * MULTIPLIER);
    ghost var h0 := h;
    var p := 0;
    while p + 4 <= |data|
      invariant p <= |data| && HashFrom(h0, data) == HashFrom(h, data[p..])
    {
      assert data[p..][4..] == data[p + 4..];
      h := MixWord(h, Little(data[p], data[p + 1], data[p + 2], data[p + 3]));
      p := p + 4;
    }
    if |data| - p == 3 {
      h := MixTail(h, Little(data[p], data[p + 1], data[p + 2], 0));
    } else if |data| - p == 2 {
      h := MixTail(h, Little(data[p], data[p + 1], 0, 0));
    } else if |data| - p == 1 {
      h := MixTail(h, Little(data[p], 0, 0, 0));
    }
  }

  // ----- bits -----

  // b & (1 << i).
  predicate HasBit(b: nat, i: nat) {
    if i == 0 then b % 2 == 1 else HasBit(b / 2, i - 1)
  }

  // b | (1 << i).
  function WithBit(b: nat, i: nat): nat {
    if i == 0 then b / 2 * 2 + 1 else 2 * WithBit(b / 2, i - 1) + b % 2
  }

  lemma {:induction false} BitsOfWithBit(b: nat, i: nat, j: nat)
    ensures HasBit(WithBit(b, i), j) <==> HasBit(b, j) || i == j
  {
    var r := WithBit(b, i);
    if i == 0 {
      assert r / 2 == b / 2;
    } else {
      assert r / 2 == WithBit(b / 2, i - 1) && r % 2 == b % 2;
      if j > 0 {
        BitsOfWithBit(b / 2, i - 1, j - 1);
      }
    }
  }

  lemma {:induction false} WithBitFits(b: nat, i: nat, n: nat)
    requires i < n && b < Power(2, n)
    ensures WithBit(b, i) < Power(2, n)
  {
    assert Power(2, n) == 2 * Power(2, n - 1);
    if i > 0 {
      WithBitFits(b / 2, i - 1, n - 1);
    }
  }

  lemma {:induction false} NoBitOfZero(i: nat)
    ensures !HasBit(0, i)
  {
    if i > 0 {
      NoBitOfZero(i - 1);
    }
  }

  // Bit p of an array of bytes.
  predicate BitAt(bits: Bytes, p: nat)
    requires p < 8 * |bits|
  {
    HasBit(bits[p / 8], p % 8)
  }

  // ----- probes -----

  function Delta(h: bv32): bv32 {
    (h >> 17) | (h << 15)
  }

  // Wrapping addition.
  function Plus(a: bv32, b: bv32): bv32 {
    a + b
  }

  // The j-th probe by double hashing.
  function ProbeHash(h: bv32, j: nat): bv32 {
    if j == 0 then h else Plus(ProbeHash(h, j - 1), Delta(h))
  }

  function Place(h: bv32, bits: nat): (p: nat)
    requires bits > 0
    ensures p < bits
  {
    h as int % bits
  }

  function BitPosition(h: bv32, j: nat, bits: nat): (p: nat)
    requires bits > 0
    ensures p < bits
  {
    Place(ProbeHash(h, j), bits)
  }

  function BloomHash(key: Bytes): bv32 {
    HashOf(key, 0xbc9f_1d34)
  }

  // One of the first k probes of a hash hits bit p.
  ghost predicate Hits(h: bv32, k: nat, bits: nat, p: nat)
    requires bits > 0
  {
    exists j :: 0 <= j < k && BitPosition(h, j, bits) == p
  }

  ghost predicate SomeKeyHits(keys: seq<Bytes>, k: nat, bits: nat, p: nat)
    requires bits > 0
  {
    exists i :: 0 <= i < |keys| && Hits(BloomHash(keys[i]), k, bits, p)
  }

  // ----- the policy -----

  // Probes a key: 0.69 of the bits a key, between 1 and 30.
  function ProbesFor(bitsPerKey: nat): (k: nat)
    ensures 1 <= k <= 30
  {
    var k := bitsPerKey * 69 / 100;
    if k < 1 then 1 else if k > 30 then 30 else k
  }

  function FilterSize(n: nat, bitsPerKey: nat): (bytes: nat)
    ensures bytes >= 8
  {
    var bits := n * bitsPerKey;
    ((if bits < 64 then 64 else bits) + 7) / 8
  }

  // Exactly the bits that some key's probes hit are set, and the number of
  // probes is the last byte.
  ghost predicate IsFilter(filter: Bytes, keys: seq<Bytes>, bitsPerKey: nat) {
    var bytes, k := FilterSize(|keys|, bitsPerKey), ProbesFor(bitsPerKey);
    && |filter| == bytes + 1
    && filter[bytes] == k
    && forall p :: 0 <= p < 8 * bytes ==> (BitAt(filter, p) <==> SomeKeyHits(keys, k, 8 * bytes, p))
  }

  method CreateFilter(keys: seq<Bytes>, bitsPerKey: nat, dst: Bytes) returns (r: Bytes)
    ensures |dst| <= |r| && r[..|dst|] == dst
    ensures IsFilter(r[|dst|..], keys, bitsPerKey)
  {
    hide BitAt, Hits, SomeKeyHits, HashOf, ProbesFor, FilterSize;
    var bytes, k := FilterSize(|keys|, bitsPerKey), ProbesFor(bitsPerKey);
    var bits := bytes * 8;
    var bitmap := new Byte[bytes](_ => 0);
    AllClear(bitmap[..], k);
    for i := 0 to |keys|
      invariant fresh(bitmap) && bitmap.Length == bytes
      invariant forall p :: 0 <= p < bits ==> (BitAt(bitmap[..], p) <==> SomeKeyHits(keys[..i], k, bits, p))
    {
      ghost var was := bitmap[..];
      var h := Hash(keys[i], 0xbc9f_1d34);
      SetProbes(bitmap, h, k);
      forall p | 0 <= p < bits ensures BitAt(bitmap[..], p) <==> SomeKeyHits(keys[..i + 1], k, bits, p) {
        OneMoreKey(keys, i, k, bits, p);
        assert BitAt(was, p) <==> SomeKeyHits(keys[..i], k, bits, p);
      }
    }
    assert keys[..|keys|] == keys;
    var filter := bitmap[..] + [k];
    r := dst + filter;
    assert r[|dst|..] == filter;
    forall p | 0 <= p < bits ensures BitAt(filter, p) <==> SomeKeyHits(keys, k, bits, p) {
      BitOfFront(bitmap[..], filter, p);
    }
  }

  lemma AllClear(bits: Bytes, k: nat)
    requires |bits| > 0 && forall i :: 0 <= i < |bits| ==> bits[i] == 0
    ensures forall p :: 0 <= p < 8 * |bits| ==> !BitAt(bits, p) && !SomeKeyHits([], k, 8 * |bits|, p)
  {
    forall p | 0 <= p < 8 * |bits| ensures !BitAt(bits, p) {
      NoBitOfZero(p % 8);
    }
  }

  lemma OneMoreKey(keys: seq<Bytes>, i: nat, k: nat, bits: nat, p: nat)
    requires i < |keys| && bits > 0
    ensures SomeKeyHits(keys[..i + 1], k, bits, p) <==>
            SomeKeyHits(keys[..i], k, bits, p) || Hits(BloomHash(keys[i]), k, bits, p)
  {
    hide Hits, HashOf;
    var more := keys[..i + 1];
    assert more[i] == keys[i];
    if SomeKeyHits(keys[..i], k, bits, p) {
      var n :| 0 <= n < i && Hits(BloomHash(keys[..i][n]), k, bits, p);
      assert more[n] == keys[..i][n];
    }
    if SomeKeyHits(more, k, bits, p) {
      var n :| 0 <= n < i + 1 && Hits(BloomHash(more[n]), k, bits, p);
      assert n < i ==> keys[..i][n] == more[n];
    }
  }

  lemma BitOfFront(bits: Bytes, filter: Bytes, p: nat)
    requires |bits| <= |filter| && bits == filter[..|bits|] && p < 8 * |bits|
    ensures BitAt(bits, p) <==> BitAt(filter, p)
  {
  }

  method SetProbes(bits: array<Byte>, h0: bv32, k: nat)
    requires bits.Length > 0
    modifies bits
    ensures forall p :: 0 <= p < 8 * bits.Length ==>
      (BitAt(bits[..], p) <==> old(BitAt(bits[..], p)) || Hits(h0, k, 8 * bits.Length, p))
  {
    hide BitAt, Hits, WithBit, ProbeHash, Delta, Plus, Power, Place;
    var n := 8 * bits.Length;
    var h, delta := h0, Delta(h0);
    ghost var first := bits[..];
    NoProbes(h0, n);
    ProbeSteps(h0, 0);
    for j := 0 to k
      invariant h == ProbeHash(h0, j)
      invariant forall p :: 0 <= p < n ==> (BitAt(bits[..], p) <==> BitAt(first, p) || Hits(h0, j, n, p))
    {
      var bitpos := Place(h, n);
      ProbeSteps(h0, j);
      ghost var was := bits[..];
      SetBit(bits, bitpos);
      forall p | 0 <= p < n ensures BitAt(bits[..], p) <==> BitAt(first, p) || Hits(h0, j + 1, n, p) {
        OneMoreProbe(h0, j, n, p);
        assert BitAt(was, p) <==> BitAt(first, p) || Hits(h0, j, n, p);
      }
      h := Plus(h, delta);
    }
  }

  method SetBit(bits: array<Byte>, bitpos: nat)
    requires bitpos < 8 * bits.Length
    modifies bits
    ensures forall p :: 0 <= p < 8 * bits.Length ==> (BitAt(bits[..], p) <==> old(BitAt(bits[..], p)) || p == bitpos)
  {
    hide BitAt, WithBit, Power;
    ghost var was := bits[..];
    EightBits();
    WithBitFits(bits[bitpos / 8], bitpos % 8, 8);
    bits[bitpos / 8] := WithBit(bits[bitpos / 8], bitpos % 8);
    ghost var now := WithBit(was[bitpos / 8], bitpos % 8);
    assert now < 256 && bits[..] == was[bitpos / 8 := now];
    forall p | 0 <= p < 8 * bits.Length ensures BitAt(bits[..], p) <==> BitAt(was, p) || p == bitpos {
      OneBitSet(was, bits[..], bitpos, p);
    }
  }

  lemma EightBits()
    ensures Power(2, 8) == 256
  {
    assert Power(2, 2) == 4;
    assert Power(2, 4) == 16;
    assert Power(2, 6) == 64;
  }

  lemma {:induction false} ProbeSteps(h: bv32, j: nat)
    ensures ProbeHash(h, 0) == h && ProbeHash(h, j + 1) == Plus(ProbeHash(h, j), Delta(h))
  {
    hide Delta, Plus;
  }

  lemma NoProbes(h: bv32, bits: nat)
    requires bits > 0
    ensures forall p :: !Hits(h, 0, bits, p)
  {
  }

  lemma OneMoreProbe(h: bv32, j: nat, bits: nat, p: nat)
    requires bits > 0
    ensures Hits(h, j + 1, bits, p) <==> Hits(h, j, bits, p) || BitPosition(h, j, bits) == p
  {
    hide BitPosition;
    if Hits(h, j, bits, p) {
      var i :| 0 <= i < j && BitPosition(h, i, bits) == p;
    }
  }

  lemma OneBitSet(was: Bytes, now: Bytes, q: nat, p: nat)
    requires q < 8 * |was| && p < 8 * |was|
    requires WithBit(was[q / 8], q % 8) < 256 && now == was[q / 8 := WithBit(was[q / 8], q % 8)]
    ensures BitAt(now, p) <==> BitAt(was, p) || p == q
  {
    BitsOfWithBit(was[q / 8], q % 8, p % 8);
  }

  // What the reader answers, for any bytes.
  ghost predicate Matches(filter: Bytes, key: Bytes) {
    var n := |filter| - 1;
    && n >= 1
    && (filter[n] > 30 || forall j :: 0 <= j < filter[n] ==> BitAt(filter, BitPosition(BloomHash(key), j, 8 * n)))
  }

  method KeyMayMatch(key: Bytes, filter: Bytes) returns (r: bool)
    ensures r == Matches(filter, key)
  {
    hide BitAt, HashOf, Delta, Plus, ProbeHash, Place;
    if |filter| < 2 {
      return false;
    }
    var n := |filter| - 1;
    var bits := 8 * n;
    var k := filter[n];
    if k > 30 {
      return true;
    }
    var h0 := Hash(key, 0xbc9f_1d34);
    var h, delta := h0, Delta(h0);
    ProbeSteps(h0, 0);
    for j := 0 to k
      invariant h == ProbeHash(h0, j)
      invariant forall i :: 0 <= i < j ==> BitAt(filter, BitPosition(h0, i, bits))
    {
      ProbeSteps(h0, j);
      if !BitAt(filter, Place(h, bits)) {
        assert !BitAt(filter, BitPosition(BloomHash(key), j, 8 * n));
        return false;
      }
      h := Plus(h, delta);
    }
    return true;
  }

  // Every probe of the key lands on a bit some added key hits.
  ghost predicate AllProbesHit(keys: seq<Bytes>, bitsPerKey: nat, key: Bytes) {
    var k, bits := ProbesFor(bitsPerKey), 8 * FilterSize(|keys|, bitsPerKey);
    forall j :: 0 <= j < k ==> SomeKeyHits(keys, k, bits, BitPosition(BloomHash(key), j, bits))
  }

  // A filter answers yes to exactly the keys whose probes are all hit: so
  // always to an added key.
  lemma FilterAnswers(filter: Bytes, keys: seq<Bytes>, bitsPerKey: nat, key: Bytes)
    requires IsFilter(filter, keys, bitsPerKey)
    ensures Matches(filter, key) <==> AllProbesHit(keys, bitsPerKey, key)
  {
    hide BitAt, BitPosition, HashOf, ProbesFor, FilterSize;
  }

  lemma NoFalseNegative(keys: seq<Bytes>, bitsPerKey: nat, key: Bytes)
    requires key in keys
    ensures AllProbesHit(keys, bitsPerKey, key)
  {
    hide BitPosition, HashOf, ProbesFor, FilterSize;
    var k, bits := ProbesFor(bitsPerKey), 8 * FilterSize(|keys|, bitsPerKey);
    var i :| 0 <= i < |keys| && keys[i] == key;
    forall j | 0 <= j < k ensures SomeKeyHits(keys, k, bits, BitPosition(BloomHash(key), j, bits)) {
      assert Hits(BloomHash(keys[i]), k, bits, BitPosition(BloomHash(key), j, bits));
    }
  }
}
