// Fixed-width integers, varints and length-prefixed slices (util/coding.h,
// util/coding.cc). Bytes are 0..255; a shift or mask of the source is written as
// the division, remainder or product it stands for, and the OR of disjoint bits
// as a sum.
module Codings {
  import opened Keys

  const TWO_32: nat := 0x1_0000_0000
  const TWO_64: nat := 0x1_0000_0000_0000_0000

  // ----- fixed width -----

  // The n low bytes of v, least significant first.
  function Fixed(v: nat, n: nat): (r: Bytes)
    ensures |r| == n
  {
    if n == 0 then [] else [v % 256] + Fixed(v / 256, n - 1)
  }

  function FixedValue(b: Bytes): nat {
    if b == [] then 0 else b[0] + 256 * FixedValue(b[1..])
  }

  function Power(base: nat, n: nat): (r: nat)
    ensures base > 0 ==> r > 0
  {
    if n == 0 then 1 else base * Power(base, n - 1)
  }

  lemma {:induction false} FixedRoundTrip(v: nat, n: nat)
    ensures FixedValue(Fixed(v, n)) == v % Power(256, n)
  {
    if n > 0 {
      FixedRoundTrip(v / 256, n - 1);
      assert Fixed(v, n)[1..] == Fixed(v / 256, n - 1);
      DivMod(v, Power(256, n - 1));
    } else {
      assert v % 1 == 0;
    }
  }

  lemma PowersOf256()
    ensures Power(256, 4) == TWO_32 && Power(256, 8) == TWO_64
  {
    assert Power(256, 1) == 0x100;
    assert Power(256, 2) == 0x1_0000;
    assert Power(256, 3) == 0x100_0000;
    assert Power(256, 5) == 0x100_0000_0000;
    assert Power(256, 6) == 0x1_0000_0000_0000;
    assert Power(256, 7) == 0x100_0000_0000_0000;
  }

  lemma DivMod(v: nat, m: nat)
    requires m > 0
    ensures v % 256 + 256 * (v / 256 % m) == v % (256 * m)
  {
    var q := v / 256 / m;
    assert v / 256 == q * m + v / 256 % m;
    var r := v % 256 + 256 * (v / 256 % m);
    assert v == q * (256 * m) + r by {
      assert q * (256 * m) == 256 * (q * m);
    }
    RemainderIs(v, 256 * m, q, r);
  }

  lemma RemainderIs(v: nat, m: nat, q: nat, r: nat)
    requires m > 0 && v == q * m + r && r < m
    ensures v % m == r && v / m == q
  {
    var d := v / m - q;
    assert (v / m) * m == d * m + q * m;
    assert d * m + v % m == r;
    if d >= 1 {
      Grows(d, m);
    } else if d <= -1 {
      assert -d * m == -(d * m);
      Grows(-d, m);
    }
  }

  lemma Grows(a: int, m: nat)
    requires a >= 1
    ensures a * m >= m
  {
    assert a * m == (a - 1) * m + m;
  }

  lemma {:induction false} FixedParse(b: Bytes)
    ensures FixedValue(b) < Power(256, |b|) && Fixed(FixedValue(b), |b|) == b
  {
    if b != [] {
      FixedParse(b[1..]);
      var v := FixedValue(b[1..]);
      RemainderIs(b[0] + 256 * v, 256, v, b[0]);
    }
  }

  lemma WordFits(b: Bytes)
    requires |b| == 4
    ensures FixedValue(b) < TWO_32
  {
    hide FixedValue, Fixed, Power;
    FixedParse(b);
    PowersOf256();
  }

  method EncodeFixed32(value: nat) returns (buffer: Bytes)
    requires value < TWO_32
    ensures buffer == Fixed(value, 4)
  {
    buffer := [value % 256, value / 0x100 % 256, value / 0x1_0000 % 256, value / 0x100_0000 % 256];
    assert value / 0x1_0000 == value / 256 / 256 && value / 0x100_0000 == value / 256 / 256 / 256;
    assert Fixed(value, 4) == [value % 256] + Fixed(value / 256, 3);
    assert Fixed(value / 256, 3) == [value / 256 % 256] + Fixed(value / 256 / 256, 2);
    assert Fixed(value / 256 / 256, 2) == [value / 256 / 256 % 256] + Fixed(value / 256 / 256 / 256, 1);
    assert Fixed(value / 256 / 256 / 256, 1) ==
      [value / 256 / 256 / 256 % 256] + Fixed(value / 256 / 256 / 256 / 256, 0);
  }

  method DecodeFixed32(ptr: Bytes) returns (value: nat)
    requires |ptr| >= 4
    ensures value == FixedValue(ptr[..4]) < TWO_32
  {
    value := ptr[0] as int + ptr[1] as int * 0x100 + ptr[2] as int * 0x1_0000 + ptr[3] as int * 0x100_0000;
    var b := ptr[..4];
    assert b[1..][1..][1..][1..] == [];
    assert FixedValue(b) == b[0] + 256 * FixedValue(b[1..]);
    assert FixedValue(b[1..]) == b[1] + 256 * FixedValue(b[1..][1..]);
    assert FixedValue(b[1..][1..]) == b[2] + 256 * FixedValue(b[1..][1..][1..]);
    assert FixedValue(b[1..][1..][1..]) == b[3] + 256 * FixedValue(b[1..][1..][1..][1..]);
  }

  // ----- varints -----

  // Seven bits a byte, least significant first, the high bit set on all but the last.
  function Varint(v: nat): (r: Bytes)
    ensures 0 < |r| && r[|r| - 1] < 128
    ensures forall i :: 0 <= i < |r| - 1 ==> r[i] >= 128
  {
    if v < 128 then [v] else [v % 128 + 128] + Varint(v / 128)
  }

  function VarintValue(b: Bytes): nat {
    if b == [] then 0 else b[0] % 128 + 128 * VarintValue(b[1..])
  }

  // What a parser limited to `max` bytes and a word of size `word` reads: the
  // value and how many bytes it took.
  function ParseVarint(b: Bytes, max: nat, word: nat): (r: Option<(nat, nat)>)
    requires word > 0
    ensures r.Some? ==> 0 < r.value.1 <= |b| && r.value.1 <= max && r.value.0 < word
  {
    var n := TerminatorIndex(b);
    if n < |b| && n < max then Some((VarintValue(b[..n + 1]) % word, n + 1)) else None
  }

  function TerminatorIndex(b: Bytes): (n: nat)
    ensures n <= |b|
    ensures forall i :: 0 <= i < n ==> b[i] >= 128
    ensures n < |b| ==> b[n] < 128
  {
    if b == [] || b[0] < 128 then 0 else 1 + TerminatorIndex(b[1..])
  }

  lemma {:induction false} VarintValueOf(v: nat)
    ensures VarintValue(Varint(v)) == v
  {
    if v >= 128 {
      VarintValueOf(v / 128);
      assert Varint(v)[1..] == Varint(v / 128);
    }
  }

  lemma {:induction false} VarintLength(v: nat, n: nat)
    requires v < Power(128, n) && n > 0
    ensures |Varint(v)| <= n
  {
    assert Power(128, n) == 128 * Power(128, n - 1);
    if v >= 128 && n > 1 {
      VarintLength(v / 128, n - 1);
    }
  }

  // Decoding an encoding gives the value back and takes exactly its bytes,
  // whatever follows; a cut-off encoding is refused.
  lemma VarintRoundTrip(v: nat, rest: Bytes, max: nat, word: nat)
    requires v < word && |Varint(v)| <= max
    ensures ParseVarint(Varint(v) + rest, max, word) == Some((v, |Varint(v)|))
    ensures forall k :: 0 <= k < |Varint(v)| ==> ParseVarint(Varint(v)[..k], max, word) == None
  {
    var b := Varint(v);
    var n := TerminatorIndex(b + rest);
    assert (b + rest)[|b| - 1] < 128;
    assert n == |b| - 1;
    assert (b + rest)[..n + 1] == b;
    VarintValueOf(v);
    RemainderIs(v, word, 0, v);
  }

  lemma Varint32Fits(v: nat)
    requires v < TWO_32
    ensures |Varint(v)| <= 5
  {
    PowersOf128();
    VarintLength(v, 5);
  }

  lemma Varint64Fits(v: nat)
    requires v < TWO_64
    ensures |Varint(v)| <= 10
  {
    PowersOf128();
    VarintLength(v, 10);
  }

  lemma PowersOf128()
    ensures Power(128, 5) == 0x8_0000_0000
    ensures Power(128, 10) == 0x40_0000_0000_0000_0000
  {
    assert Power(128, 1) == 128;
    assert Power(128, 2) == 0x4000;
    assert Power(128, 3) == 0x20_0000;
    assert Power(128, 4) == 0x1000_0000;
    assert Power(128, 5) == 0x8_0000_0000;
    assert Power(128, 6) == 0x400_0000_0000;
    assert Power(128, 7) == 0x2_0000_0000_0000;
    assert Power(128, 8) == 0x100_0000_0000_0000;
    assert Power(128, 9) == 0x8000_0000_0000_0000;
  }

  method EncodeVarint32(v: nat) returns (dst: Bytes)
    requires v < TWO_32
    ensures dst == Varint(v)
  {
    hide Varint;
    var v7, v14, v21, v28 := v / 0x80, v / 0x4000, v / 0x20_0000, v / 0x1000_0000;
    Shifts(v);
    if v < 0x80 {
      dst := [v];
      LastByte(v);
    } else if v < 0x4000 {
      dst := [v % 128 + 128, v7];
      LastByte(v7);
      MoreBytes(v, [v7]);
    } else if v < 0x20_0000 {
      dst := [v % 128 + 128, v7 % 128 + 128, v14];
      LastByte(v14);
      MoreBytes(v7, [v14]);
      MoreBytes(v, dst[1..]);
    } else if v < 0x1000_0000 {
      dst := [v % 128 + 128, v7 % 128 + 128, v14 % 128 + 128, v21];
      LastByte(v21);
      MoreBytes(v14, [v21]);
      MoreBytes(v7, dst[2..]);
      MoreBytes(v, dst[1..]);
    } else {
      dst := [v % 128 + 128, v7 % 128 + 128, v14 % 128 + 128, v21 % 128 + 128, v28];
      LastByte(v28);
      MoreBytes(v21, [v28]);
      MoreBytes(v14, dst[3..]);
      MoreBytes(v7, dst[2..]);
      MoreBytes(v, dst[1..]);
    }
  }

  lemma Shifts(v: nat)
    ensures v / 0x80 / 128 == v / 0x4000 && v / 0x4000 / 128 == v / 0x20_0000 && v / 0x20_0000 / 128 == v / 0x1000_0000
  {
  }

  lemma LastByte(v: nat)
    requires v < 128
    ensures Varint(v) == [v]
  {
  }

  lemma MoreBytes(v: nat, tail: Bytes)
    requires v >= 128 && Varint(v / 128) == tail
    ensures Varint(v) == [v % 128 + 128] + tail
  {
  }

  method EncodeVarint64(value: nat) returns (dst: Bytes)
    requires value < TWO_64
    ensures dst == Varint(value)
  {
    hide Varint;
    dst := [];
    var v := value;
    while v >= 128
      invariant Varint(value) == dst + Varint(v)
    {
      EncodeStep(dst, v);
      dst := dst + [v % 128 + 128];
      v := v / 128;
    }
    LastByte(v);
    dst := dst + [v];
  }

  lemma EncodeStep(dst: Bytes, v: nat)
    requires v >= 128
    ensures dst + Varint(v) == dst + [v % 128 + 128] + Varint(v / 128)
  {
  }

  // GetVarint32Ptr and GetVarint64Ptr: at most `max` bytes, into a word that
  // drops the bits shifted past it.
  method GetVarint(input: Bytes, max: nat, word: nat) returns (r: Option<(nat, nat)>)
    requires word > 0
    ensures r == ParseVarint(input, max, word)
  {
    var result, scale, p := 0, 1, 0;
    while p < max && p < |input|
      invariant p <= |input| && p <= max
      invariant forall i :: 0 <= i < p ==> input[i] >= 128
      invariant scale == Power(128, p)
      invariant result == VarintValue(input[..p]) % word
    {
      var byte := input[p];
      VarintValueAppend(input[..p], byte);
      assert input[..p + 1] == input[..p] + [byte];
      AddMod(VarintValue(input[..p]), byte % 128 * scale, word);
      result := (result + byte % 128 * scale) % word;
      p := p + 1;
      if byte < 128 {
        r := Some((result, p));
        return;
      }
      assert Power(128, p) == 128 * Power(128, p - 1);
      scale := scale * 128;
    }
    r := None;
  }

  lemma {:induction false} VarintValueAppend(b: Bytes, x: Byte)
    ensures VarintValue(b + [x]) == VarintValue(b) + x % 128 * Power(128, |b|)
  {
    if b == [] {
      assert b + [x] == [x];
    } else {
      var tail := b[1..];
      VarintValueAppend(tail, x);
      assert (b + [x])[1..] == tail + [x];
      assert Power(128, |b|) == 128 * Power(128, |tail|);
      TimesSum(128, VarintValue(tail), x % 128, Power(128, |tail|));
    }
  }

  lemma TimesSum(k: int, a: int, b: int, p: int)
    ensures k * (a + b * p) == k * a + b * (k * p)
  {
  }

  lemma AddMod(a: nat, b: nat, m: nat)
    requires m > 0
    ensures (a % m + b) % m == (a + b) % m
  {
    var q, r := (a % m + b) / m, (a % m + b) % m;
    assert a + b == (a / m + q) * m + r;
    RemainderIs(a + b, m, a / m + q, r);
  }

  // ----- length-prefixed slices -----

  // The size is cast to 32 bits.
  function Prefixed(s: Bytes): Bytes {
    Varint(|s| % TWO_32) + s
  }

  // The slice and how many bytes it took.
  function ParsePrefixed(b: Bytes): (r: Option<(Bytes, nat)>)
    ensures r.Some? ==> 0 < r.value.1 <= |b| && |r.value.0| < r.value.1
  {
    match ParseVarint(b, 5, TWO_32)
    case None => None
    case Some(x) =>
      if x.1 + x.0 <= |b| then Some((b[x.1..x.1 + x.0], x.1 + x.0)) else None
  }

  // The cast makes 4 GiB the exact limit.
  lemma PrefixedRoundTrip(s: Bytes, rest: Bytes)
    ensures ParsePrefixed(Prefixed(s) + rest) == Some((s, |Prefixed(s)|)) <==> |s| < TWO_32
    ensures |s| < TWO_32 ==> forall k :: 0 <= k < |Prefixed(s)| ==> ParsePrefixed(Prefixed(s)[..k]) == None
  {
    hide Varint, ParseVarint;
    var n := |s| % TWO_32;
    var head := Varint(n);
    Varint32Fits(n);
    VarintRoundTrip(n, s + rest, 5, TWO_32);
    assert Prefixed(s) + rest == head + (s + rest);
    if |s| < TWO_32 {
      assert (Prefixed(s) + rest)[|head|..|head| + n] == s;
      forall k | 0 <= k < |Prefixed(s)| ensures ParsePrefixed(Prefixed(s)[..k]) == None {
        CutPrefixed(s, k);
      }
    }
  }

  lemma CutPrefixed(s: Bytes, k: nat)
    requires |s| < TWO_32 && k < |Prefixed(s)|
    ensures ParsePrefixed(Prefixed(s)[..k]) == None
  {
    hide Varint, ParseVarint;
    var head := Varint(|s|);
    Varint32Fits(|s|);
    if k < |head| {
      VarintRoundTrip(|s|, [], 5, TWO_32);
      assert Prefixed(s)[..k] == head[..k];
    } else {
      VarintRoundTrip(|s|, s[..k - |head|], 5, TWO_32);
      assert Prefixed(s)[..k] == head + s[..k - |head|];
    }
  }

  method GetLengthPrefixedSlice(input: Bytes) returns (r: Option<(Bytes, Bytes)>)
    ensures r == match ParsePrefixed(input) case None => None case Some(x) => Some((x.0, input[x.1..]))
  {
    var len := GetVarint(input, 5, TWO_32);
    match len
    case None => r := None;
    case Some(x) =>
      var rest := input[x.1..];
      if |rest| >= x.0 {
        assert rest[..x.0] == input[x.1..x.1 + x.0] && rest[x.0..] == input[x.1 + x.0..];
        r := Some((rest[..x.0], rest[x.0..]));
      } else {
        r := None;
      }
  }

  lemma SliceOfSlice(s: Bytes, a: nat, b: nat, i: nat, j: nat)
    requires a <= b <= |s| && i <= j <= b - a
    ensures s[a..b][i..j] == s[a + i..a + j]
  {
    var l, r := s[a..b][i..j], s[a + i..a + j];
    assert |l| == |r|;
    forall k | 0 <= k < |l| ensures l[k] == r[k] {
      assert l[k] == s[a..b][i + k] == s[a + i + k];
    }
  }
}
