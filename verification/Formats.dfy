// Block handles, table footers and stored blocks (table/format.h,
// table/format.cc, WriteRawBlock of table/table_builder.cc).
module Formats {
  import opened Keys
  import opened Codings
  import Crcs

  const MAGIC: nat := 0xdb47_7524_8b80_fb57
  const TRAILER_SIZE: nat := 5
  const HANDLE_LIMIT: nat := 20
  const FOOTER_SIZE: nat := 48

  datatype BlockHandle = BlockHandle(offset: nat, size: nat)

  // Both in 64 bits.
  predicate Fits(h: BlockHandle) {
    h.offset < TWO_64 && h.size < TWO_64
  }

  // ----- handles -----

  function EncodeHandle(h: BlockHandle): Bytes {
    Varint(h.offset) + Varint(h.size)
  }

  // The handle and how many bytes it took.
  function ParseHandle(b: Bytes): (r: Option<(BlockHandle, nat)>)
    ensures r.Some? ==> r.value.1 <= |b|
  {
    match ParseVarint(b, 10, TWO_64)
    case None => None
    case Some(x) =>
      match ParseVarint(b[x.1..], 10, TWO_64)
      case None => None
      case Some(y) => Some((BlockHandle(x.0, y.0), x.1 + y.1))
  }

  lemma {:induction false} HandleRoundTrip(h: BlockHandle, rest: Bytes)
    requires Fits(h)
    ensures ParseHandle(EncodeHandle(h) + rest) == Some((h, |EncodeHandle(h)|))
    ensures |EncodeHandle(h)| <= HANDLE_LIMIT
  {
    hide Varint, ParseVarint;
    var o, s := Varint(h.offset), Varint(h.size);
    Varint64Fits(h.offset);
    Varint64Fits(h.size);
    VarintRoundTrip(h.offset, s + rest, 10, TWO_64);
    VarintRoundTrip(h.size, rest, 10, TWO_64);
    assert EncodeHandle(h) + rest == o + (s + rest);
    assert (o + (s + rest))[|o|..] == s + rest;
  }

  lemma {:induction false} HandleIsInjective(g: BlockHandle, h: BlockHandle)
    requires Fits(g) && Fits(h) && EncodeHandle(g) == EncodeHandle(h)
    ensures g == h
  {
    HandleRoundTrip(g, []);
    HandleRoundTrip(h, []);
  }

  method DecodeHandle(input: Bytes) returns (r: Option<(BlockHandle, nat)>)
    ensures r == ParseHandle(input)
  {
    hide ParseVarint;
    r := None;
    var x := GetVarint(input, 10, TWO_64);
    if x.Some? {
      var y := GetVarint(input[x.value.1..], 10, TWO_64);
      if y.Some? {
        r := Some((BlockHandle(x.value.0, y.value.0), x.value.1 + y.value.1));
      }
    }
  }

  // ----- footers -----

  function Zeros(n: nat): (r: Bytes)
    ensures |r| == n && forall i :: 0 <= i < n ==> r[i] == 0
  {
    seq(n, _ => 0)
  }

  function Resized(b: Bytes, n: nat): (r: Bytes)
    ensures |r| == n
  {
    if |b| <= n then b + Zeros(n - |b|) else b[..n]
  }

  // The two handles, padding, and the magic number in two words.
  function FooterOf(metaindex: BlockHandle, index: BlockHandle): (r: Bytes)
    ensures |r| == FOOTER_SIZE
  {
    Resized(EncodeHandle(metaindex) + EncodeHandle(index), 2 * HANDLE_LIMIT)
      + Fixed(MAGIC % TWO_32, 4) + Fixed(MAGIC / TWO_32, 4)
  }

  function ParseFooter(b: Bytes): Option<(BlockHandle, BlockHandle)>
    requires |b| == FOOTER_SIZE
  {
    if FixedValue(b[40..44]) + TWO_32 * FixedValue(b[44..48]) != MAGIC then None else
    match ParseHandle(b)
    case None => None
    case Some(m) =>
      match ParseHandle(b[m.1..])
      case None => None
      case Some(i) => Some((m.0, i.0))
  }

  lemma {:induction false} FooterRoundTrip(metaindex: BlockHandle, index: BlockHandle)
    requires Fits(metaindex) && Fits(index)
    ensures ParseFooter(FooterOf(metaindex, index)) == Some((metaindex, index))
  {
    hide Varint, ParseVarint, Fixed, FixedValue, Power, EncodeHandle, ParseHandle;
    var m, i := EncodeHandle(metaindex), EncodeHandle(index);
    var b := FooterOf(metaindex, index);
    HandleRoundTrip(index, []);
    HandleRoundTrip(metaindex, []);
    var words := Fixed(MAGIC % TWO_32, 4) + Fixed(MAGIC / TWO_32, 4);
    var tail := Zeros(40 - |m + i|) + words;
    assert b == m + (i + tail);
    assert b[|m|..] == i + tail;
    HandleRoundTrip(metaindex, i + tail);
    HandleRoundTrip(index, tail);
    assert b[40..44] == Fixed(MAGIC % TWO_32, 4) && b[44..48] == Fixed(MAGIC / TWO_32, 4);
    FixedRoundTrip(MAGIC % TWO_32, 4);
    FixedRoundTrip(MAGIC / TWO_32, 4);
    PowersOf256();
  }

  method DecodeFooter(input: Bytes) returns (r: Option<(BlockHandle, BlockHandle)>)
    requires |input| == FOOTER_SIZE
    ensures r == ParseFooter(input)
  {
    hide ParseHandle, FixedValue;
    r := None;
    var lo := DecodeFixed32(input[40..]);
    var hi := DecodeFixed32(input[44..]);
    assert input[40..][..4] == input[40..44] && input[44..][..4] == input[44..48];
    if hi * TWO_32 + lo == MAGIC {
      var m := DecodeHandle(input);
      if m.Some? {
        var i := DecodeHandle(input[m.value.1..]);
        if i.Some? {
          r := Some((m.value.0, i.value.0));
        }
      }
    }
  }

  // ----- stored blocks -----

  // A block as it stands in the file: its bytes, the type (none compressed),
  // and a masked checksum of both.
  function Stored(contents: Bytes): (r: Bytes)
    ensures |r| == |contents| + TRAILER_SIZE
  {
    contents + [0] + Fixed(Crcs.MaskedChecksum(contents + [0]), 4)
  }

  function Word(b: Bytes, at: nat): (w: nat)
    requires at + 4 <= |b|
    ensures w < TWO_32
  {
    WordFits(b[at..at + 4]);
    FixedValue(b[at..at + 4])
  }

  ghost predicate StoredAt(file: Bytes, h: BlockHandle, contents: Bytes) {
    && h.size == |contents|
    && h.offset + h.size + TRAILER_SIZE <= |file|
    && file[h.offset..h.offset + h.size + TRAILER_SIZE] == Stored(contents)
  }

  lemma StaysStored(file: Bytes, more: Bytes, h: BlockHandle, contents: Bytes)
    requires StoredAt(file, h, contents)
    ensures StoredAt(file + more, h, contents)
  {
    assert (file + more)[h.offset..h.offset + h.size + TRAILER_SIZE] ==
      file[h.offset..h.offset + h.size + TRAILER_SIZE];
  }

  // A reader with or without checksums; nothing for a range outside the file,
  // a wrong checksum, or another type.
  method ReadBlock(file: Bytes, handle: BlockHandle, verifyChecksums: bool) returns (r: Option<Bytes>)
    ensures forall contents :: StoredAt(file, handle, contents) ==> r == Some(contents)
    ensures r.Some? && verifyChecksums ==>
      && handle.offset + handle.size + TRAILER_SIZE <= |file|
      && r.value == file[handle.offset..handle.offset + handle.size]
      && Crcs.ChecksumMatches(Word(file, handle.offset + handle.size + 1),
        file[handle.offset..handle.offset + handle.size + 1])
  {
    hide FixedValue, Fixed, Crcs.ChecksumMatches, Crcs.MaskedChecksum, Stored, Word;
    var n := handle.size;
    if handle.offset + n + TRAILER_SIZE > |file| {
      return None;
    }
    var data := file[handle.offset..handle.offset + n + TRAILER_SIZE];
    forall contents | StoredAt(file, handle, contents)
      ensures |contents| == n && data[..n] == contents && data[n] == 0
      ensures Crcs.ChecksumMatches(Word(data, n + 1), data[..n + 1])
    {
      StoredDecodes(data, contents);
    }
    DataOf(file, handle.offset, n);
    if verifyChecksums {
      var word := DecodeFixed32(data[n + 1..]);
      WordOf(data, n + 1);
      if !Crcs.ChecksumMatches(word, data[..n + 1]) {
        return None;
      }
    }
    r := if data[n] == 0 then Some(data[..n]) else None;
  }

  // The parts of a stored block are those of the file.
  lemma DataOf(file: Bytes, offset: nat, n: nat)
    requires offset + n + TRAILER_SIZE <= |file|
    ensures var data := file[offset..offset + n + TRAILER_SIZE];
      && |data| == n + TRAILER_SIZE && data[..n] == file[offset..offset + n]
      && data[..n + 1] == file[offset..offset + n + 1]
      && Word(data, n + 1) == Word(file, offset + n + 1)
  {
    hide FixedValue;
    var data := file[offset..offset + n + TRAILER_SIZE];
    assert data[n + 1..n + 5] == file[offset + n + 1..offset + n + 5];
  }

  lemma WordOf(b: Bytes, at: nat)
    requires at + 4 <= |b|
    ensures Word(b, at) == FixedValue(b[at..][..4])
  {
    hide FixedValue;
    assert b[at..][..4] == b[at..at + 4];
  }

  lemma {:induction false} StoredDecodes(data: Bytes, contents: Bytes)
    requires data == Stored(contents)
    ensures data[..|contents|] == contents && data[|contents|] == 0
    ensures Crcs.ChecksumMatches(Word(data, |contents| + 1), data[..|contents| + 1])
  {
    hide Fixed, FixedValue, Crcs.ChecksumMatches, Crcs.MaskedChecksum, Power;
    var n, body := |contents|, contents + [0];
    var crc := Crcs.MaskedChecksum(body);
    assert data[..n + 1] == body && data[n + 1..n + 5] == Fixed(crc, 4);
    assert data[n] == body[n];
    FixedRoundTrip(crc, 4);
    PowersOf256();
    RemainderIs(crc, TWO_32, 0, crc);
    Crcs.MaskedMatches(body);
  }
}
