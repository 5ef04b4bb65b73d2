// CRC-32C (util/crc32c.h, util/crc32c.cc): the portable loop over strides
// computes the byte-at-a-time checksum. Tables are given by what they hold: the
// byte table by the remainder of each byte, the stride tables by the image of
// each byte position under sixteen zero bytes.
module Crcs {
  import opened Keys

  // The Castagnoli polynomial, bit-reversed.
  const POLYNOMIAL: bv32 := 0x82f6_3b78

  const ALL_ONES: bv32 := 0xffff_ffff

  // Exclusive or, named so that proofs can treat it as algebra.
  function Xor(a: bv32, b: bv32): bv32 {
    a ^ b
  }

  predicate Odd(l: bv32) {
    l & 1 == 1
  }

  function Half(l: bv32): bv32 {
    l >> 1
  }

  // Shifts by a byte.
  function Down(l: bv32): bv32 {
    l >> 8
  }

  function Up(l: bv32): bv32 {
    l << 8
  }

  function Bit(l: bv32): bv32 {
    if Odd(l) then Xor(Half(l), POLYNOMIAL) else Half(l)
  }

  function EightBits(l: bv32): bv32 {
    Bit(Bit(Bit(Bit(Bit(Bit(Bit(Bit(l))))))))
  }

  // kByteExtensionTable.
  function ByteTable(c: bv32): bv32 {
    EightBits(c)
  }

  // One byte, by the table.
  function Step(l: bv32, b: bv8): bv32 {
    Xor(ByteTable(Xor(l & 0xff, b as bv32)), Down(l))
  }

  // The specification: one byte at a time.
  function Run(l: bv32, data: seq<bv8>): bv32
    decreases |data|
  {
    if |data| == 0 then l else Run(Step(l, data[0]), data[1..])
  }

  function Extended(crc: bv32, data: seq<bv8>): bv32 {
    Xor(Run(Xor(crc, ALL_ONES), data), ALL_ONES)
  }

  // ----- exclusive or -----

  lemma XorAssoc(a: bv32, b: bv32, c: bv32)
    ensures Xor(Xor(a, b), c) == Xor(a, Xor(b, c))
  {
  }

  lemma XorComm(a: bv32, b: bv32)
    ensures Xor(a, b) == Xor(b, a)
  {
  }

  lemma XorCancels(a: bv32, b: bv32)
    ensures Xor(Xor(a, b), b) == a
  {
  }

  lemma XorZero(a: bv32)
    ensures Xor(a, 0) == a
  {
  }

  lemma OddOfXor(a: bv32, b: bv32)
    ensures Odd(Xor(a, b)) <==> Odd(a) != Odd(b)
  {
    assert (a & 1 == 0 || a & 1 == 1) && (b & 1 == 0 || b & 1 == 1);
    assert (a ^ b) & 1 == (a & 1) ^ (b & 1);
  }

  lemma HalfOfXor(a: bv32, b: bv32)
    ensures Half(Xor(a, b)) == Xor(Half(a), Half(b))
  {
  }

  // ----- linearity -----

  lemma BitLinear(a: bv32, b: bv32)
    ensures Bit(Xor(a, b)) == Xor(Bit(a), Bit(b))
  {
    hide Odd, Half, Xor;
    OddOfXor(a, b);
    HalfOfXor(a, b);
    var x, y, p := Half(a), Half(b), POLYNOMIAL;
    XorAssoc(x, y, p);
    XorComm(y, p);
    XorAssoc(x, p, y);
    XorAssoc(x, p, Xor(y, p));
    XorAssoc(p, p, y);
    XorCancels(y, p);
    XorComm(p, Xor(y, p));
  }

  lemma EightLinear(a: bv32, b: bv32)
    ensures EightBits(Xor(a, b)) == Xor(EightBits(a), EightBits(b))
  {
    hide Bit, Xor;
    var a1, b1 := Bit(a), Bit(b);
    var a2, b2 := Bit(a1), Bit(b1);
    var a3, b3 := Bit(a2), Bit(b2);
    var a4, b4 := Bit(a3), Bit(b3);
    var a5, b5 := Bit(a4), Bit(b4);
    var a6, b6 := Bit(a5), Bit(b5);
    var a7, b7 := Bit(a6), Bit(b6);
    BitLinear(a, b);
    BitLinear(a1, b1);
    BitLinear(a2, b2);
    BitLinear(a3, b3);
    BitLinear(a4, b4);
    BitLinear(a5, b5);
    BitLinear(a6, b6);
    BitLinear(a7, b7);
  }

  lemma LowClear(r: bv32)
    ensures Up(r) & 0xff == 0
  {
  }

  lemma Halving(l: bv32, mask: bv32)
    requires l & mask == 0 && mask & 1 == 1
    ensures !Odd(l) && Half(l) & (mask >> 1) == 0
  {
  }

  lemma EightHalves(l: bv32)
    ensures Half(Half(Half(Half(Half(Half(Half(Half(l)))))))) == Down(l)
  {
  }

  // A multiple of 256 loses its low byte without touching the polynomial.
  lemma EightOfUp(r: bv32)
    ensures EightBits(Up(r)) == Down(Up(r))
  {
    hide Odd, Half, Up, Down;
    var l := Up(r);
    LowClear(r);
    Halving(l, 0xff);
    Halving(Half(l), 0x7f);
    Halving(Half(Half(l)), 0x3f);
    Halving(Half(Half(Half(l))), 0x1f);
    Halving(Half(Half(Half(Half(l)))), 0xf);
    Halving(Half(Half(Half(Half(Half(l))))), 0x7);
    Halving(Half(Half(Half(Half(Half(Half(l)))))), 0x3);
    Halving(Half(Half(Half(Half(Half(Half(Half(l))))))), 0x1);
    EightHalves(l);
  }

  lemma SplitByte(l: bv32, b: bv8)
    ensures Xor(l, b as bv32) == Xor(Xor(l & 0xff, b as bv32), Up(Down(l)))
    ensures Down(Up(Down(l))) == Down(l)
  {
  }

  lemma StepIs(l: bv32, b: bv8)
    ensures Step(l, b) == EightBits(Xor(l, b as bv32))
  {
    hide EightBits, Xor, Up, Down;
    SplitByte(l, b);
    EightLinear(Xor(l & 0xff, b as bv32), Up(Down(l)));
    EightOfUp(Down(l));
  }

  // The register after n zero bytes.
  function Zeros(n: nat, l: bv32): bv32 {
    if n == 0 then l else Zeros(n - 1, EightBits(l))
  }

  lemma {:induction false} ZerosLinear(n: nat, a: bv32, b: bv32)
    ensures Zeros(n, Xor(a, b)) == Xor(Zeros(n, a), Zeros(n, b))
    decreases n
  {
    hide EightBits, Xor;
    if n > 0 {
      EightLinear(a, b);
      ZerosLinear(n - 1, EightBits(a), EightBits(b));
    }
  }

  lemma {:induction false} ZerosAdd(m: nat, n: nat, l: bv32)
    ensures Zeros(m, Zeros(n, l)) == Zeros(m + n, l)
    decreases n
  {
    hide EightBits;
    if n > 0 {
      ZerosAdd(m, n - 1, EightBits(l));
    }
  }

  // ----- words -----

  // ReadUint32LE.
  function Word(data: seq<bv8>, i: nat): bv32
    requires i + 4 <= |data|
  {
    Little(data[i], data[i + 1], data[i + 2], data[i + 3])
  }

  function Little(b0: bv8, b1: bv8, b2: bv8, b3: bv8): bv32 {
    (b0 as bv32) | ((b1 as bv32) << 8) | ((b2 as bv32) << 16) | ((b3 as bv32) << 24)
  }

  lemma LittlePeels(b0: bv8, b1: bv8, b2: bv8, b3: bv8)
    ensures Little(b0, b1, b2, b3) == Xor(b0 as bv32, Up(Little(b1, b2, b3, 0)))
    ensures Down(Up(Little(b1, b2, b3, 0))) == Little(b1, b2, b3, 0)
    ensures Little(0, 0, 0, 0) == 0
  {
  }

  lemma FeedByte(l: bv32, b0: bv8, b1: bv8, b2: bv8, b3: bv8)
    ensures EightBits(Xor(l, Little(b0, b1, b2, b3))) == Xor(Step(l, b0), Little(b1, b2, b3, 0))
  {
    hide EightBits, Xor, Step, Little, Up, Down;
    var rest := Little(b1, b2, b3, 0);
    LittlePeels(b0, b1, b2, b3);
    XorAssoc(l, b0 as bv32, Up(rest));
    EightLinear(Xor(l, b0 as bv32), Up(rest));
    EightOfUp(rest);
    StepIs(l, b0);
  }

  // Feeding a word is feeding four zero bytes after mixing the word in.
  lemma FourSteps(l: bv32, b0: bv8, b1: bv8, b2: bv8, b3: bv8)
    ensures Step(Step(Step(Step(l, b0), b1), b2), b3) == Zeros(4, Xor(l, Little(b0, b1, b2, b3)))
  {
    hide EightBits, Xor, Step, Little;
    var l1 := Step(l, b0);
    var l2 := Step(l1, b1);
    var l3 := Step(l2, b2);
    FeedByte(l, b0, b1, b2, b3);
    FeedByte(l1, b1, b2, b3, 0);
    FeedByte(l2, b2, b3, 0, 0);
    FeedByte(l3, b3, 0, 0, 0);
    LittlePeels(0, 0, 0, 0);
    XorZero(Step(l3, b3));
    FourZeros(Xor(l, Little(b0, b1, b2, b3)));
  }

  lemma FourZeros(l: bv32)
    ensures Zeros(4, l) == EightBits(EightBits(EightBits(EightBits(l))))
  {
    hide EightBits;
    var l1 := EightBits(l);
    var l2 := EightBits(l1);
    var l3 := EightBits(l2);
    assert Zeros(1, l3) == Zeros(0, EightBits(l3));
    assert Zeros(2, l2) == Zeros(1, l3);
    assert Zeros(3, l1) == Zeros(2, l2);
  }

  lemma {:induction false} RunAppend(l: bv32, a: seq<bv8>, b: seq<bv8>)
    ensures Run(l, a + b) == Run(Run(l, a), b)
    decreases |a|
  {
    hide Step;
    if |a| == 0 {
      assert a + b == b;
    } else {
      RunAppend(Step(l, a[0]), a[1..], b);
      assert (a + b)[1..] == a[1..] + b;
    }
  }

  // Extending over a concatenation is extending twice.
  lemma ExtendConcat(crc: bv32, a: seq<bv8>, b: seq<bv8>)
    ensures Extended(crc, a + b) == Extended(Extended(crc, a), b)
  {
    hide Run, Xor;
    RunAppend(Xor(crc, ALL_ONES), a, b);
    XorCancels(Run(Xor(crc, ALL_ONES), a), ALL_ONES);
  }

  lemma {:induction false} RunByte(l: bv32, data: seq<bv8>, p: nat)
    requires p < |data|
    ensures Run(l, data[..p + 1]) == Step(Run(l, data[..p]), data[p])
  {
    hide Step;
    RunAppend(l, data[..p], [data[p]]);
    assert data[..p + 1] == data[..p] + [data[p]];
    var l' := Run(l, data[..p]);
    assert Run(l', [data[p]]) == Run(Step(l', data[p]), []);
  }

  lemma {:induction false} RunWord(l: bv32, data: seq<bv8>, p: nat)
    requires p + 4 <= |data|
    ensures Run(l, data[..p + 4]) == Zeros(4, Xor(Run(l, data[..p]), Word(data, p)))
  {
    hide Step, EightBits, Zeros, Run, Xor, Little;
    RunByte(l, data, p);
    RunByte(l, data, p + 1);
    RunByte(l, data, p + 2);
    RunByte(l, data, p + 3);
    FourSteps(Run(l, data[..p]), data[p], data[p + 1], data[p + 2], data[p + 3]);
  }

  // ----- strides -----

  // kStrideExtensionTable0..3: table 3 is for the lowest byte.
  function StrideTable(k: nat, c: bv32): bv32
    requires k < 4
  {
    Zeros(16, if k == 3 then c else if k == 2 then c << 8 else if k == 1 then c << 16 else c << 24)
  }

  // STEP4.
  function Stride(crc: bv32, w: bv32): bv32 {
    Xor(Xor(Xor(Xor(w, StrideTable(3, crc & 0xff)), StrideTable(2, (crc >> 8) & 0xff)),
      StrideTable(1, (crc >> 16) & 0xff)), StrideTable(0, crc >> 24))
  }

  lemma FourBytes(crc: bv32)
    ensures crc == Xor(Xor(Xor(crc & 0xff, ((crc >> 8) & 0xff) << 8), ((crc >> 16) & 0xff) << 16), (crc >> 24) << 24)
  {
  }

  lemma StrideIs(crc: bv32, w: bv32)
    ensures Stride(crc, w) == Xor(w, Zeros(16, crc))
  {
    hide Zeros, Xor;
    var b0, b1, b2, b3 := crc & 0xff, ((crc >> 8) & 0xff) << 8, ((crc >> 16) & 0xff) << 16, (crc >> 24) << 24;
    FourBytes(crc);
    ZerosLinear(16, Xor(Xor(b0, b1), b2), b3);
    ZerosLinear(16, Xor(b0, b1), b2);
    ZerosLinear(16, b0, b1);
    var z0, z1, z2, z3 := Zeros(16, b0), Zeros(16, b1), Zeros(16, b2), Zeros(16, b3);
    XorAssoc(w, z0, z1);
    XorAssoc(w, Xor(z0, z1), z2);
    XorAssoc(w, Xor(Xor(z0, z1), z2), z3);
  }

  // What the four partial results stand for once combined.
  function Combined(c0: bv32, c1: bv32, c2: bv32, c3: bv32): bv32 {
    Zeros(4, Xor(c3, Zeros(4, Xor(c2, Zeros(4, Xor(c1, Zeros(4, c0)))))))
  }

  lemma MixDeeper(n: nat, c: bv32, x: bv32, y: bv32)
    ensures Zeros(4, Xor(c, Xor(x, Zeros(n, y)))) == Xor(Zeros(4, Xor(c, x)), Zeros(4 + n, y))
  {
    hide Zeros, Xor;
    XorAssoc(c, x, Zeros(n, y));
    ZerosLinear(4, Xor(c, x), Zeros(n, y));
    ZerosAdd(4, n, y);
  }

  // Striding one word on and rotating the partial results is feeding the word.
  lemma Rotate(c0: bv32, c1: bv32, c2: bv32, c3: bv32, w: bv32)
    ensures Combined(c1, c2, c3, Stride(c0, w)) == Zeros(4, Xor(Combined(c0, c1, c2, c3), w))
  {
    hide Zeros, Stride, Xor;
    StrideIs(c0, w);
    var t1 := Zeros(4, c1);
    var t2 := Zeros(4, Xor(c2, t1));
    var t3 := Zeros(4, Xor(c3, t2));
    var z := Zeros(16, c0);
    ZerosLinear(4, c1, Zeros(4, c0));
    ZerosAdd(4, 4, c0);
    MixDeeper(8, c2, t1, c0);
    MixDeeper(12, c3, t2, c0);
    assert Combined(c0, c1, c2, c3) == Xor(t3, z);
    XorAssoc(t3, z, w);
    XorComm(z, w);
    XorComm(t3, Xor(w, z));
  }

  // STEP4W.
  method FoldWord(word: bv32, l: bv32) returns (w: bv32)
    ensures w == Zeros(4, Xor(word, l))
  {
    hide EightBits, ByteTable, Xor;
    w := Xor(word, l);
    for i := 0 to 4
      invariant Zeros(4, Xor(word, l)) == Zeros(4 - i, w)
    {
      ByteStep(w);
      w := Xor(Down(w), ByteTable(w & 0xff));
    }
  }

  lemma ByteStep(w: bv32)
    ensures Xor(Down(w), ByteTable(w & 0xff)) == EightBits(w)
  {
    hide EightBits, Xor;
    StepIs(w, 0);
    XorZero(w);
    XorZero(w & 0xff);
    XorComm(Down(w), EightBits(w & 0xff));
  }

  lemma {:induction false} LoadSwath(l: bv32, l0: bv32, data: seq<bv8>, p: nat)
    requires p + 16 <= |data| && l == Run(l0, data[..p])
    ensures Combined(Xor(Word(data, p), l), Word(data, p + 4), Word(data, p + 8), Word(data, p + 12)) ==
      Run(l0, data[..p + 16])
  {
    hide Word, Run, Zeros, Xor;
    RunWord(l0, data, p);
    RunWord(l0, data, p + 4);
    RunWord(l0, data, p + 8);
    RunWord(l0, data, p + 12);
    XorComm(Word(data, p), l);
    XorComm(Word(data, p + 4), Run(l0, data[..p + 4]));
    XorComm(Word(data, p + 8), Run(l0, data[..p + 8]));
    XorComm(Word(data, p + 12), Run(l0, data[..p + 12]));
  }

  lemma {:induction false} StrideOn(c0: bv32, c1: bv32, c2: bv32, c3: bv32, l0: bv32, data: seq<bv8>, p: nat)
    requires p + 4 <= |data| && Combined(c0, c1, c2, c3) == Run(l0, data[..p])
    ensures Combined(c1, c2, c3, Stride(c0, Word(data, p))) == Run(l0, data[..p + 4])
  {
    hide Word, Run, Zeros, Xor, Combined, Stride;
    RunWord(l0, data, p);
    Rotate(c0, c1, c2, c3, Word(data, p));
  }

  // The portable Extend: bytes up to a word boundary of the address, then four
  // interleaved strides, then the rest. It computes the checksum for every
  // length, address and initial value.
  method Extend(crc: bv32, data: seq<bv8>, address: nat) returns (r: bv32)
    ensures r == Extended(crc, data)
  {
    hide Step, Run, Word, Stride, Combined, Zeros, Xor;
    ghost var l0 := Xor(crc, ALL_ONES);
    var n, p, l := |data|, 0, Xor(crc, ALL_ONES);
    RunEmpty(l, data[..0]);
    var x := (4 - address % 4) % 4;
    if x <= n {
      while p != x
        invariant p <= x && l == Run(l0, data[..p])
        decreases x - p
      {
        RunByte(l0, data, p);
        l := Step(l, data[p]);
        p := p + 1;
      }
    }
    if n - p >= 16 {
      var crc0, crc1, crc2, crc3 := Xor(Word(data, p), l), Word(data, p + 4), Word(data, p + 8), Word(data, p + 12);
      LoadSwath(l, l0, data, p);
      p := p + 16;
      while n - p >= 16
        invariant p <= n && Combined(crc0, crc1, crc2, crc3) == Run(l0, data[..p])
      {
        StrideOn(crc0, crc1, crc2, crc3, l0, data, p);
        crc0 := Stride(crc0, Word(data, p));
        StrideOn(crc1, crc2, crc3, crc0, l0, data, p + 4);
        crc1 := Stride(crc1, Word(data, p + 4));
        StrideOn(crc2, crc3, crc0, crc1, l0, data, p + 8);
        crc2 := Stride(crc2, Word(data, p + 8));
        StrideOn(crc3, crc0, crc1, crc2, l0, data, p + 12);
        crc3 := Stride(crc3, Word(data, p + 12));
        p := p + 16;
      }
      while n - p >= 4
        invariant p <= n && Combined(crc0, crc1, crc2, crc3) == Run(l0, data[..p])
      {
        StrideOn(crc0, crc1, crc2, crc3, l0, data, p);
        crc0 := Stride(crc0, Word(data, p));
        var tmp := crc0;
        crc0 := crc1;
        crc1 := crc2;
        crc2 := crc3;
        crc3 := tmp;
        p := p + 4;
      }
      l := Combine(crc0, crc1, crc2, crc3);
    }
    while p != n
      invariant p <= n && l == Run(l0, data[..p])
      decreases n - p
    {
      RunByte(l0, data, p);
      l := Step(l, data[p]);
      p := p + 1;
    }
    assert data[..p] == data;
    r := Xor(l, ALL_ONES);
  }

  // The four STEP4W that join the partial results.
  method Combine(crc0: bv32, crc1: bv32, crc2: bv32, crc3: bv32) returns (l: bv32)
    ensures l == Combined(crc0, crc1, crc2, crc3)
  {
    hide Zeros, Xor;
    XorZero(crc0);
    l := 0;
    l := FoldWord(crc0, l);
    l := FoldWord(crc1, l);
    l := FoldWord(crc2, l);
    l := FoldWord(crc3, l);
  }

  lemma RunEmpty(l: bv32, data: seq<bv8>)
    requires |data| == 0
    ensures Run(l, data) == l
  {
  }

  // The bytes "TestCRCBuffer".
  function CheckData(): seq<bv8> {
    [0x54, 0x65, 0x73, 0x74, 0x43, 0x52, 0x43, 0x42, 0x75, 0x66, 0x66, 0x65, 0x72]
  }

  // The check value that decides whether the accelerated version is used.
  lemma {:induction false} CheckValue()
    ensures Extended(0, CheckData()) == 0xdcbc_59fa
  {
    var data := CheckData();
    assert Xor(0, ALL_ONES) == 0xffff_ffff && Xor(0x2343_a605, ALL_ONES) == 0xdcbc_59fa;
    assert |data| == 13;
    hide Run, Xor, CheckData;
    CheckBytes0To4(data);
    CheckBytes5To8(data);
    CheckBytes9To12(data);
    RunEmpty(0x2343_a605, data[13..]);
    assert data[0..] == data;
  }

  lemma {:induction false} CheckBytes0To4(data: seq<bv8>)
    requires data == CheckData()
    ensures Run(0xffff_ffff, data[0..]) == Run(0x270a_7107, data[5..])
  {
    CheckSteps();
    hide Run, Step;
    RunAt(0xffff_ffff, data, 0, 0x3b3d_e162);
    RunAt(0x3b3d_e162, data, 1, 0xd4f1_590a);
    RunAt(0xd4f1_590a, data, 2, 0x09fe_7e98);
    RunAt(0x09fe_7e98, data, 3, 0xae7a_99b4);
    RunAt(0xae7a_99b4, data, 4, 0x270a_7107);
  }

  lemma {:induction false} CheckBytes5To8(data: seq<bv8>)
    requires data == CheckData()
    ensures Run(0x270a_7107, data[5..]) == Run(0xe831_0e9a, data[9..])
  {
    CheckSteps();
    hide Run, Step;
    RunAt(0x270a_7107, data, 5, 0x64f3_c4be);
    RunAt(0x64f3_c4be, data, 6, 0x4c22_d062);
    RunAt(0x4c22_d062, data, 7, 0x20f1_ac0e);
    RunAt(0x20f1_ac0e, data, 8, 0xe831_0e9a);
  }

  lemma {:induction false} CheckBytes9To12(data: seq<bv8>)
    requires data == CheckData()
    ensures Run(0xe831_0e9a, data[9..]) == Run(0x2343_a605, data[13..])
  {
    CheckSteps();
    hide Run, Step;
    RunAt(0xe831_0e9a, data, 9, 0xbec5_91ab);
    RunAt(0xbec5_91ab, data, 10, 0x7c1b_af86);
    RunAt(0x7c1b_af86, data, 11, 0xf01c_4041);
    RunAt(0xf01c_4041, data, 12, 0x2343_a605);
  }

  lemma CheckSteps()
    ensures Step(0xffff_ffff, 0x54) == 0x3b3d_e162
    ensures Step(0x3b3d_e162, 0x65) == 0xd4f1_590a
    ensures Step(0xd4f1_590a, 0x73) == 0x09fe_7e98
    ensures Step(0x09fe_7e98, 0x74) == 0xae7a_99b4
    ensures Step(0xae7a_99b4, 0x43) == 0x270a_7107
    ensures Step(0x270a_7107, 0x52) == 0x64f3_c4be
    ensures Step(0x64f3_c4be, 0x43) == 0x4c22_d062
    ensures Step(0x4c22_d062, 0x42) == 0x20f1_ac0e
    ensures Step(0x20f1_ac0e, 0x75) == 0xe831_0e9a
    ensures Step(0xe831_0e9a, 0x66) == 0xbec5_91ab
    ensures Step(0xbec5_91ab, 0x66) == 0x7c1b_af86
    ensures Step(0x7c1b_af86, 0x65) == 0xf01c_4041
    ensures Step(0xf01c_4041, 0x72) == 0x2343_a605
  {
  }

  lemma {:induction false} RunAt(l: bv32, data: seq<bv8>, i: nat, l': bv32)
    requires i < |data| && Step(l, data[i]) == l'
    ensures Run(l, data[i..]) == Run(l', data[i + 1..])
  {
    assert data[i..][1..] == data[i + 1..];
  }

  // ----- masking -----

  const MASK_DELTA: bv32 := 0xa282_ead8

  function Mask(crc: bv32): bv32 {
    ((crc >> 15) | (crc << 17)) + MASK_DELTA
  }

  function Unmask(masked: bv32): bv32 {
    var rot := masked - MASK_DELTA;
    (rot >> 17) | (rot << 15)
  }

  lemma MaskInverse(x: bv32)
    ensures Unmask(Mask(x)) == x && Mask(Unmask(x)) == x
  {
    Rotations(x);
    Rotations(x - MASK_DELTA);
    DeltaCancels((x >> 15) | (x << 17));
    DeltaCancels(x);
  }

  lemma Rotations(x: bv32)
    ensures var rot := (x >> 15) | (x << 17); (rot >> 17) | (rot << 15) == x
    ensures var tor := (x >> 17) | (x << 15); (tor >> 15) | (tor << 17) == x
  {
  }

  lemma DeltaCancels(x: bv32)
    ensures (x + MASK_DELTA) - MASK_DELTA == x && (x - MASK_DELTA) + MASK_DELTA == x
  {
  }

  // ----- over integer bytes -----

  function Bits(data: Bytes): (r: seq<bv8>)
    ensures |r| == |data|
  {
    seq(|data|, i requires 0 <= i < |data| => data[i] as bv8)
  }

  function ChecksumOf(data: Bytes): bv32 {
    Extended(0, Bits(data))
  }

  function MaskedChecksum(data: Bytes): (w: nat)
    ensures w < 0x1_0000_0000
  {
    Mask(ChecksumOf(data)) as nat
  }

  predicate ChecksumMatches(stored: nat, data: Bytes)
    requires stored < 0x1_0000_0000
  {
    Unmask(stored as bv32) == ChecksumOf(data)
  }

  lemma MaskedMatches(data: Bytes)
    ensures ChecksumMatches(MaskedChecksum(data), data)
  {
    hide Extended, Mask, Unmask;
    MaskInverse(ChecksumOf(data));
  }

  // Continuing from the checksum of a prefix.
  lemma ChecksumContinues(a: Bytes, b: Bytes)
    ensures ChecksumOf(a + b) == Extended(ChecksumOf(a), Bits(b))
  {
    hide Extended;
    ExtendConcat(0, Bits(a), Bits(b));
    assert Bits(a + b) == Bits(a) + Bits(b);
  }
}
