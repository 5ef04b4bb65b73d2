// The record log: records cut into fragments that never cross a 32 KB block
// (db/log_format.h, db/log_writer.cc), and put together again from whatever
// prefix of the log survives a crash (db/log_reader.cc).
module Logs {
  import opened Keys
  import opened Codings
  import Crcs

  const BLOCK_SIZE: nat := 32768
  const HEADER_SIZE: nat := 7

  // Record types. The reader adds two of its own.
  const ZERO: nat := 0
  const FULL: nat := 1
  const FIRST: nat := 2
  const MIDDLE: nat := 3
  const LAST: nat := 4
  const EOF: nat := 5
  const BAD_RECORD: nat := 6

  // ----- the layout -----

  function Checksummed(t: Byte, payload: Bytes): Bytes {
    [t] + payload
  }

  // Masked checksum of type and payload, length, type.
  function Header(t: Byte, payload: Bytes): (r: Bytes)
    requires |payload| <= 0xffff
    ensures |r| == HEADER_SIZE
  {
    Fixed(Crcs.MaskedChecksum(Checksummed(t, payload)), 4) + [|payload| % 256, |payload| / 256, t]
  }

  // Bytes left unused at the end of a block.
  function Padding(o: nat): nat {
    var leftover := BLOCK_SIZE - o % BLOCK_SIZE;
    if leftover < HEADER_SIZE then leftover else 0
  }

  // Room for payload after a header at `at`.
  function Avail(at: nat): (n: nat)
    ensures n <= 0xffff
  {
    var leftover := BLOCK_SIZE - at % BLOCK_SIZE;
    if leftover < HEADER_SIZE then 0 else leftover - HEADER_SIZE
  }

  function TypeOf(begin: bool, end: bool): Byte {
    if begin && end then FULL else if begin then FIRST else if end then LAST else MIDDLE
  }

  function ZeroBytes(n: nat): (r: Bytes)
    ensures |r| == n
  {
    seq(n, i => 0)
  }

  // Where the next header goes when the log has o bytes.
  function HeadAt(o: nat): (r: nat)
    ensures r >= o
  {
    o + Padding(o)
  }

  // How much of the payload the next fragment takes.
  function Taken(o: nat, payload: Bytes): (n: nat)
    ensures n <= |payload| && n <= 0xffff
  {
    if |payload| < Avail(HeadAt(o)) then |payload| else Avail(HeadAt(o))
  }

  function After(o: nat, payload: Bytes): nat {
    HeadAt(o) + HEADER_SIZE + Taken(o, payload)
  }

  function Head(o: nat, payload: Bytes, begin: bool): Bytes {
    Header(TypeOf(begin, Taken(o, payload) == |payload|), payload[..Taken(o, payload)])
  }

  function Fragment(o: nat, payload: Bytes, begin: bool): (r: Bytes)
    ensures |r| == After(o, payload) - o
  {
    ZeroBytes(Padding(o)) + Head(o, payload, begin) + payload[..Taken(o, payload)]
  }

  // What a record, or the rest of one, looks like when the log has o bytes.
  function Emit(o: nat, payload: Bytes, begin: bool): Bytes
    decreases |payload|, if o % BLOCK_SIZE == BLOCK_SIZE - HEADER_SIZE then 1 else 0
  {
    var n := Taken(o, payload);
    Progress(o, payload);
    Fragment(o, payload, begin) + if n == |payload| then [] else Emit(After(o, payload), payload[n..], false)
  }

  function LogOf(records: seq<Bytes>): Bytes {
    if records == [] then []
    else
      var front := LogOf(records[..|records| - 1]);
      front + Emit(|front|, records[|records| - 1], true)
  }

  // Exactly the first n records lie wholly within the first k bytes of the log.
  ghost predicate IsWhole(records: seq<Bytes>, k: nat, n: nat) {
    && n <= |records| && |LogOf(records[..n])| <= k
    && (n < |records| ==> k < |LogOf(records[..n + 1])|)
  }

  // ----- the writer -----

  class Writer {
    var dest: Bytes
    var blockOffset: nat

    ghost predicate Ok()
      reads this
    {
      blockOffset <= BLOCK_SIZE && blockOffset <= |dest| && (|dest| - blockOffset) % BLOCK_SIZE == 0
    }

    // Starts a log, or goes on with one.
    constructor (file: Bytes)
      ensures Ok() && dest == file
    {
      dest, blockOffset := file, |file| % BLOCK_SIZE;
    }

    method EmitPhysicalRecord(t: Byte, payload: Bytes)
      requires Ok() && blockOffset + HEADER_SIZE + |payload| <= BLOCK_SIZE
      modifies this
      ensures Ok() && dest == old(dest) + Header(t, payload) + payload
      ensures blockOffset == old(blockOffset) + HEADER_SIZE + |payload|
    {
      var crc := Crcs.Extended(Crcs.ChecksumOf([t]), Crcs.Bits(payload));
      Crcs.ChecksumContinues([t], payload);
      var word := EncodeFixed32(Crcs.Mask(crc) as nat);
      var header := word + [|payload| % 256, |payload| / 256, t];
      dest := dest + header;
      dest := dest + payload;
      blockOffset := blockOffset + HEADER_SIZE + |payload|;
    }

    // Fills the trailer of a block too full for a header.
    method SwitchBlock()
      requires Ok()
      modifies this
      ensures Ok() && dest == old(dest) + ZeroBytes(Padding(|old(dest)|))
      ensures |dest| % BLOCK_SIZE == blockOffset <= BLOCK_SIZE - HEADER_SIZE
    {
      BlockOffset(|dest|, blockOffset);
      var leftover := BLOCK_SIZE - blockOffset;
      if leftover < HEADER_SIZE {
        if leftover > 0 {
          dest := dest + ZeroBytes(leftover);
        }
        blockOffset := 0;
      }
    }

    method AddRecord(slice: Bytes)
      requires Ok()
      modifies this
      ensures Ok() && dest == old(dest) + Emit(|old(dest)|, slice, true)
    {
      hide Emit, Head, Header, Padding, HeadAt, Taken, After, TypeOf;
      var left, begin, done := slice, true, false;
      ghost var total := dest + Emit(|dest|, slice, true);
      while !done
        invariant Ok()
        invariant total == dest + if done then [] else Emit(|dest|, left, begin)
        decreases if done then 0 else 1, |left|, if |dest| % BLOCK_SIZE == BLOCK_SIZE - HEADER_SIZE then 1 else 0
      {
        ghost var was := dest;
        SwitchBlock();
        var avail := BLOCK_SIZE - blockOffset - HEADER_SIZE;
        var n := if |left| < avail then |left| else avail;
        TakenIs(|was|, |dest|, left);
        var end := |left| == n;
        EmitUnfolds(was, |was|, left, begin);
        HeadIs(|was|, left, begin);
        TypeIs(begin, end);
        EmitPhysicalRecord(
          if begin && end then FULL else if begin then FIRST else if end then LAST else MIDDLE, left[..n]);
        Progress(|was|, left);
        left := left[n..];
        begin := false;
        done := left == [];
      }
    }
  }

  lemma TypeIs(begin: bool, end: bool)
    ensures TypeOf(begin, end) == if begin && end then FULL else if begin then FIRST else if end then LAST else MIDDLE
  {
  }

  lemma TakenIs(o: nat, at: nat, payload: Bytes)
    requires at == o + Padding(o)
    ensures var avail := BLOCK_SIZE - at % BLOCK_SIZE - HEADER_SIZE;
      var n := if |payload| < avail then |payload| else avail;
      Taken(o, payload) == n && After(o, payload) == at + HEADER_SIZE + n && n <= 0xffff
  {
  }

  lemma HeadIs(o: nat, payload: Bytes, begin: bool)
    ensures Head(o, payload, begin) ==
      Header(TypeOf(begin, Taken(o, payload) == |payload|), payload[..Taken(o, payload)])
  {
  }

  // A fragment is empty only where exactly a header was left of the block.
  lemma Progress(o: nat, payload: Bytes)
    ensures Taken(o, payload) > 0 || payload == [] ||
      (o % BLOCK_SIZE == BLOCK_SIZE - HEADER_SIZE && After(o, payload) % BLOCK_SIZE == 0)
  {
    PaddingFillsBlock(o);
  }

  lemma PaddingFillsBlock(o: nat)
    ensures Padding(o) > 0 ==> HeadAt(o) % BLOCK_SIZE == 0
    ensures o % BLOCK_SIZE == BLOCK_SIZE - HEADER_SIZE ==> (o + HEADER_SIZE) % BLOCK_SIZE == 0
  {
  }

  lemma BlockOffset(o: nat, blockOffset: nat)
    requires blockOffset <= BLOCK_SIZE && blockOffset <= o && (o - blockOffset) % BLOCK_SIZE == 0
    ensures o % BLOCK_SIZE == blockOffset % BLOCK_SIZE
  {
  }

  lemma {:induction false} EmitUnfolds(dest: Bytes, o: nat, payload: Bytes, begin: bool)
    ensures var n := Taken(o, payload);
      dest + Emit(o, payload, begin) ==
      dest + ZeroBytes(Padding(o)) + Head(o, payload, begin) + payload[..n] +
        if n == |payload| then [] else Emit(After(o, payload), payload[n..], false)
  {
    hide Head, Padding, Taken, After;
  }

  // ----- the reader -----

  // The file goes on with `e`, as far as the file goes.
  ghost predicate Agrees(file: Bytes, at: nat, e: Bytes) {
    forall i :: 0 <= i < |e| && at + i < |file| ==> file[at + i] == e[i]
  }

  class Reader {
    const file: Bytes
    var filePos: nat
    var buffer: Bytes
    var eof: bool
    var corruptions: nat

    ghost predicate Ok()
      reads this
    {
      && |buffer| <= filePos <= |file|
      && buffer == file[filePos - |buffer|..filePos]
      && (eof ==> filePos == |file|)
      && (!eof ==> filePos % BLOCK_SIZE == 0)
      && (|buffer| > 0 ==> At() % BLOCK_SIZE + |buffer| <= BLOCK_SIZE)
      && (!eof && |buffer| > 0 ==> At() % BLOCK_SIZE + |buffer| == BLOCK_SIZE)
    }

    // Where the next unread byte is.
    ghost function At(): nat
      reads this
    {
      if |buffer| <= filePos then filePos - |buffer| else 0
    }

    lemma BufferFacts()
      requires Ok()
      ensures At() + |buffer| <= |file| && buffer == file[At()..At() + |buffer|]
      ensures eof ==> At() + |buffer| == |file|
      ensures !eof && |buffer| > 0 ==> At() % BLOCK_SIZE + |buffer| == BLOCK_SIZE
    {
    }

    constructor (f: Bytes)
      ensures Ok() && file == f && At() == 0 && corruptions == 0
    {
      file, filePos, buffer, eof, corruptions := f, 0, [], false, 0;
    }

    method ReportCorruption()
      modifies this`corruptions
      ensures corruptions == old(corruptions) + 1
      ensures old(Ok()) ==> Ok()
      ensures At() == old(At())
    {
      corruptions := corruptions + 1;
    }

    // Drops the buffer, and reads the next block.
    method Refill()
      requires Ok() && !eof
      modifies this`buffer, this`filePos, this`eof
      ensures Ok() && At() == old(filePos)
      ensures eof <==> |buffer| < BLOCK_SIZE
    {
      var n := if |file| - filePos < BLOCK_SIZE then |file| - filePos else BLOCK_SIZE;
      buffer := file[filePos..filePos + n];
      filePos := filePos + n;
      if |buffer| < BLOCK_SIZE {
        eof := true;
      }
    }

    // buffer_.clear().
    method Clear()
      requires Ok()
      modifies this`buffer
      ensures Ok() && buffer == [] && At() == old(At()) + |old(buffer)|
    {
      buffer := [];
    }

    method RemovePrefix(n: nat)
      requires Ok() && n <= |buffer|
      modifies this`buffer
      ensures Ok() && At() == old(At()) + n
    {
      SliceOfSlice(file, filePos - |buffer|, filePos, n, |buffer|);
      if n < |buffer| {
        WithinBlock(At(), n);
      }
      buffer := buffer[n..];
    }

    // Reads on to the next header; false when the file has none.
    method FindHeader() returns (found: bool)
      requires Ok()
      modifies this
      ensures Ok() && corruptions == old(corruptions)
      ensures if found then |buffer| >= HEADER_SIZE && At() == HeadAt(old(At()))
              else At() == |file| && HeadAt(old(At())) + HEADER_SIZE > |file|
    {
      hide Padding;
      ghost var start := At();
      while |buffer| < HEADER_SIZE
        invariant Ok() && corruptions == old(corruptions) && start <= At() <= HeadAt(start)
        invariant At() == start || At() == HeadAt(start)
        decreases (if eof then 0 else 1) + (if |buffer| < HEADER_SIZE then 1 else 0)
      {
        if !eof {
          // The last read was a full one, so this is a trailer to skip.
          TrailerIsPadding(start, At(), |buffer|);
          Refill();
        } else {
          // A truncated header: the writer died while writing it.
          Clear();
          return false;
        }
      }
      NoPaddingHere(At(), |buffer|);
      found := true;
    }

    // One fragment. When the file goes on with the rest of a record, that is
    // its next fragment if the file still holds it, and the end otherwise.
    method ReadPhysicalRecord(ghost payload: Bytes, ghost begin: bool) returns (t: nat, fragment: Bytes)
      requires Ok()
      modifies this
      ensures Ok() && At() >= old(At()) && corruptions >= old(corruptions)
      ensures t != EOF ==> At() > old(At())
      ensures Agrees(file, old(At()), Fragment(old(At()), payload, begin)) ==>
        corruptions == old(corruptions) && IsFragment(file, old(At()), payload, begin, t, fragment, At())
    {
      hide Ok, At, Fragment, Head, Agrees, Taken, Padding, HeadAt, After, TypeOf, Crcs.ChecksumMatches, FixedValue,
        IsFragment;
      ghost var start := At();
      ghost var good := Agrees(file, start, Fragment(start, payload, begin));
      fragment := [];
      BufferFacts();
      var found := FindHeader();
      FitsBlock(start, payload);
      NoFragment(file, start, payload, begin);
      if !found {
        t := EOF;
        return;
      }
      BufferFacts();
      ghost var at := At();
      var length := buffer[4] as nat + buffer[5] as nat * 256;
      t := buffer[6];
      if good {
        HeaderInFile(file, start, payload, begin);
      }
      if HEADER_SIZE + length > |buffer| {
        Clear();
        if !eof {
          ReportCorruption();
          t := BAD_RECORD;
        } else {
          // The writer died in the middle of the record.
          t := EOF;
        }
        return;
      }
      t, fragment := CheckFragment(length, t);
      if good {
        GoodFragment(file, start, payload, begin, t, fragment);
      }
    }

    // The fragment whose header is at hand, unless it is a blank or corrupted.
    method CheckFragment(length: nat, header: Byte) returns (t: nat, fragment: Bytes)
      requires Ok() && HEADER_SIZE + length <= |buffer|
      modifies this
      ensures Ok() && At() > old(At()) && corruptions >= old(corruptions)
      ensures var at := old(At());
        && at + HEADER_SIZE + length <= |file|
        && (header != ZERO && FixedValue(file[at..at + 4]) < TWO_32 &&
            Crcs.ChecksumMatches(FixedValue(file[at..at + 4]), file[at + 6..at + HEADER_SIZE + length]) ==>
              && t == header && fragment == file[at + HEADER_SIZE..at + HEADER_SIZE + length]
              && At() == at + HEADER_SIZE + length && corruptions == old(corruptions))
    {
      hide Crcs.ChecksumMatches, FixedValue;
      ghost var at := At();
      t, fragment := header, [];
      if t == ZERO && length == 0 {
        Clear();
        t := BAD_RECORD;
        return;
      }
      SliceOfSlice(file, at, filePos, 0, 4);
      SliceOfSlice(file, at, filePos, 6, HEADER_SIZE + length);
      SliceOfSlice(file, at, filePos, HEADER_SIZE, HEADER_SIZE + length);
      var stored := DecodeFixed32(buffer);
      if !Crcs.ChecksumMatches(stored, buffer[6..HEADER_SIZE + length]) {
        Clear();
        ReportCorruption();
        t := BAD_RECORD;
        return;
      }
      fragment := buffer[HEADER_SIZE..HEADER_SIZE + length];
      RemovePrefix(HEADER_SIZE + length);
    }

    // One record. When the file goes on with a record's bytes, the record if
    // all of them are there, and the end otherwise; no corruption either way.
    method ReadRecord(ghost expected: Bytes) returns (record: Option<Bytes>)
      requires Ok()
      modifies this
      ensures Ok() && At() >= old(At()) && corruptions >= old(corruptions)
      ensures record.Some? ==> At() > old(At())
      ensures var e := Emit(old(At()), expected, true);
        Agrees(file, old(At()), e) ==>
          && corruptions == old(corruptions)
          && if old(At()) + |e| <= |file| then record == Some(expected) && At() == old(At()) + |e|
             else record == None && At() == |file|
    {
      hide Ok, At, Emit, Agrees, Midway, Taken, After, Fragment, Padding, HeadAt;
      var scratch, inFragmentedRecord := [], false;
      ghost var start, rest := At(), expected;
      ghost var good := Agrees(file, start, Emit(start, expected, true));
      ghost var finish := start + |Emit(start, expected, true)|;
      MidwayStart(file, start, expected);
      while true
        invariant Ok() && At() >= start && corruptions >= old(corruptions)
        invariant good ==> corruptions == old(corruptions)
        invariant good ==> Midway(file, At(), finish, scratch, rest, expected, !inFragmentedRecord)
        decreases |file| - At()
      {
        if good {
          MidwayStep(file, At(), finish, scratch, rest, expected, !inFragmentedRecord);
          MidwayBegin(file, At(), finish, scratch, rest, expected, !inFragmentedRecord);
        }
        BufferFacts();
        ghost var was := rest;
        rest := rest[Taken(At(), rest)..];
        var t, fragment := ReadPhysicalRecord(was, !inFragmentedRecord);
        BufferFacts();
        if scratch == [] {
          assert scratch + fragment == fragment;
        }
        if t == FULL {
          if inFragmentedRecord && scratch != [] {
            ReportCorruption();
          }
          record := Some(fragment);
          return;
        } else if t == FIRST {
          if inFragmentedRecord && scratch != [] {
            ReportCorruption();
          }
          scratch := fragment;
          inFragmentedRecord := true;
        } else if t == MIDDLE {
          if !inFragmentedRecord {
            ReportCorruption();
          } else {
            scratch := scratch + fragment;
          }
        } else if t == LAST {
          if !inFragmentedRecord {
            ReportCorruption();
          } else {
            scratch := scratch + fragment;
            record := Some(scratch);
            return;
          }
        } else if t == EOF {
          record := None;
          return;
        } else if t == BAD_RECORD {
          if inFragmentedRecord {
            ReportCorruption();
            inFragmentedRecord := false;
            scratch := [];
          }
        } else {
          ReportCorruption();
          inFragmentedRecord := false;
          scratch := [];
        }
      }
    }
  }

  // What reading on from `o` yields when the file goes on with a fragment.
  ghost predicate IsFragment(file: Bytes, o: nat, payload: Bytes, begin: bool, t: nat, fragment: Bytes, at: nat) {
    if After(o, payload) <= |file| then
      && at == After(o, payload)
      && t == TypeOf(begin, Taken(o, payload) == |payload|)
      && fragment == payload[..Taken(o, payload)]
    else
      t == EOF && at == |file|
  }

  lemma NoFragment(file: Bytes, o: nat, payload: Bytes, begin: bool)
    ensures After(o, payload) == HeadAt(o) + HEADER_SIZE + Taken(o, payload)
    ensures After(o, payload) > |file| ==> IsFragment(file, o, payload, begin, EOF, [], |file|)
  {
  }

  lemma GoodFragment(file: Bytes, o: nat, payload: Bytes, begin: bool, t: nat, fragment: Bytes)
    requires t == TypeOf(begin, Taken(o, payload) == |payload|) && fragment == payload[..Taken(o, payload)]
    ensures After(o, payload) == HeadAt(o) + HEADER_SIZE + Taken(o, payload)
    ensures After(o, payload) <= |file| ==> IsFragment(file, o, payload, begin, t, fragment, After(o, payload))
  {
  }

  lemma WithinBlock(at: nat, n: nat)
    requires at % BLOCK_SIZE + n < BLOCK_SIZE
    ensures (at + n) % BLOCK_SIZE == at % BLOCK_SIZE + n
  {
    RemainderIs(at + n, BLOCK_SIZE, at / BLOCK_SIZE, at % BLOCK_SIZE + n);
  }

  lemma TrailerIsPadding(start: nat, at: nat, size: nat)
    requires size < HEADER_SIZE && (at + size) % BLOCK_SIZE == 0
    requires size > 0 ==> at % BLOCK_SIZE + size == BLOCK_SIZE
    requires at == start || at == start + Padding(start)
    ensures at + size == start + Padding(start)
  {
  }

  lemma NoPaddingHere(at: nat, size: nat)
    requires size >= HEADER_SIZE && at % BLOCK_SIZE + size <= BLOCK_SIZE
    ensures Padding(at) == 0
  {
  }

  // A fragment stays within its block.
  lemma FitsBlock(o: nat, payload: Bytes)
    ensures HeadAt(o) % BLOCK_SIZE + HEADER_SIZE + Taken(o, payload) <= BLOCK_SIZE
  {
  }

  lemma AgreesAppend(file: Bytes, at: nat, a: Bytes, b: Bytes)
    ensures Agrees(file, at, a + b) <==> Agrees(file, at, a) && Agrees(file, at + |a|, b)
  {
    if Agrees(file, at, a + b) {
      forall i | 0 <= i < |a| && at + i < |file| ensures file[at + i] == a[i] {
        assert (a + b)[i] == a[i];
      }
      forall i | 0 <= i < |b| && at + |a| + i < |file| ensures file[at + |a| + i] == b[i] {
        assert (a + b)[|a| + i] == b[i];
        assert file[at + (|a| + i)] == (a + b)[|a| + i];
      }
    }
    if Agrees(file, at, a) && Agrees(file, at + |a|, b) {
      forall i | 0 <= i < |a + b| && at + i < |file| ensures file[at + i] == (a + b)[i] {
        if i >= |a| {
          assert file[at + |a| + (i - |a|)] == b[i - |a|];
        }
      }
    }
  }

  lemma AgreesWhole(file: Bytes, at: nat, e: Bytes)
    requires Agrees(file, at, e) && at + |e| <= |file|
    ensures file[at..at + |e|] == e
  {
  }

  // What the header in the file says, once it is all there.
  lemma HeaderAt(file: Bytes, o: nat, payload: Bytes, begin: bool)
    requires Agrees(file, o, Fragment(o, payload, begin)) && HeadAt(o) + HEADER_SIZE <= |file|
    ensures file[HeadAt(o)..HeadAt(o) + HEADER_SIZE] == Head(o, payload, begin)
    ensures After(o, payload) <= |file| ==>
      file[HeadAt(o) + HEADER_SIZE..After(o, payload)] == payload[..Taken(o, payload)]
  {
    var pad, head, body := ZeroBytes(Padding(o)), Head(o, payload, begin), payload[..Taken(o, payload)];
    assert Fragment(o, payload, begin) == pad + head + body;
    hide Fragment, Head, Taken, Padding, Agrees;
    AgreesAppend(file, o, pad + head, body);
    AgreesAppend(file, o, pad, head);
    AgreesWhole(file, HeadAt(o), head);
    if After(o, payload) <= |file| {
      AgreesWhole(file, HeadAt(o) + HEADER_SIZE, body);
    }
  }

  // What the reader makes of a header.
  lemma HeaderSays(t: Byte, body: Bytes)
    requires |body| <= 0xffff
    ensures var h := Header(t, body);
      && h[4] as nat + h[5] as nat * 256 == |body| && h[6] == t
      && FixedValue(h[..4]) < TWO_32
      && Crcs.ChecksumMatches(FixedValue(h[..4]), Checksummed(t, body))
  {
    var crc := Crcs.MaskedChecksum(Checksummed(t, body));
    FixedRoundTrip(crc, 4);
    PowersOf256();
    assert Header(t, body)[..4] == Fixed(crc, 4);
    Crcs.MaskedMatches(Checksummed(t, body));
  }

  lemma HeaderInFile(file: Bytes, o: nat, payload: Bytes, begin: bool)
    requires Agrees(file, o, Fragment(o, payload, begin)) && HeadAt(o) + HEADER_SIZE <= |file|
    ensures var at, n := HeadAt(o), Taken(o, payload);
      && file[at + 4] as nat + file[at + 5] as nat * 256 == n
      && file[at + 6] == TypeOf(begin, n == |payload|) && file[at + 6] != ZERO
      && (at + HEADER_SIZE + n <= |file| ==>
            && file[at + HEADER_SIZE..at + HEADER_SIZE + n] == payload[..n]
            && FixedValue(file[at..at + 4]) < TWO_32
            && Crcs.ChecksumMatches(FixedValue(file[at..at + 4]), file[at + 6..at + HEADER_SIZE + n]))
  {
    hide Agrees, Fragment, Head, Header, Taken, HeadAt, TypeOf, Crcs.ChecksumMatches, FixedValue;
    var at, n := HeadAt(o), Taken(o, payload);
    var t := TypeOf(begin, n == |payload|);
    TypeIs(begin, n == |payload|);
    HeadIs(o, payload, begin);
    HeaderSays(t, payload[..n]);
    HeaderAt(file, o, payload, begin);
    Pieces(file, at, n, file[at..at + HEADER_SIZE], payload[..n]);
  }

  lemma Pieces(file: Bytes, at: nat, n: nat, h: Bytes, body: Bytes)
    requires at + HEADER_SIZE <= |file| && file[at..at + HEADER_SIZE] == h
    requires at + HEADER_SIZE + n <= |file| ==> file[at + HEADER_SIZE..at + HEADER_SIZE + n] == body
    ensures file[at + 4] == h[4] && file[at + 5] == h[5] && file[at + 6] == h[6] && file[at..at + 4] == h[..4]
    ensures at + HEADER_SIZE + n <= |file| ==> file[at + 6..at + HEADER_SIZE + n] == [h[6]] + body
  {
    assert h[4] == file[at + 4] && h[5] == file[at + 5] && h[6] == file[at + 6];
  }

  // In the middle of reading a record: what is read and what is left of it.
  ghost predicate Midway(file: Bytes, at: nat, finish: nat, scratch: Bytes, rest: Bytes, expected: Bytes, begin: bool) {
    && scratch + rest == expected && (begin ==> scratch == [])
    && Agrees(file, at, Emit(at, rest, begin))
    && at + |Emit(at, rest, begin)| == finish
  }

  lemma MidwayStart(file: Bytes, at: nat, expected: Bytes)
    ensures Agrees(file, at, Emit(at, expected, true)) ==>
      Midway(file, at, at + |Emit(at, expected, true)|, [], expected, expected, true)
  {
    hide Emit, Agrees;
    assert [] + expected == expected;
  }

  lemma MidwayBegin(file: Bytes, at: nat, finish: nat, scratch: Bytes, rest: Bytes, expected: Bytes, begin: bool)
    requires Midway(file, at, finish, scratch, rest, expected, begin)
    ensures begin ==> scratch == []
  {
    hide Emit, Agrees;
  }

  lemma MidwayStep(file: Bytes, at: nat, finish: nat, scratch: Bytes, rest: Bytes, expected: Bytes, begin: bool)
    requires Midway(file, at, finish, scratch, rest, expected, begin)
    ensures Agrees(file, at, Fragment(at, rest, begin)) && After(at, rest) <= finish
    ensures var n := Taken(at, rest); var scratch' := scratch + rest[..n];
      if n == |rest| then finish == After(at, rest) && scratch' == expected
      else Midway(file, After(at, rest), finish, scratch', rest[n..], expected, false)
  {
    FragmentOf(file, at, rest, begin);
    assert rest == rest[..Taken(at, rest)] + rest[Taken(at, rest)..];
  }

  lemma FragmentOf(file: Bytes, o: nat, payload: Bytes, begin: bool)
    requires Agrees(file, o, Emit(o, payload, begin))
    ensures Agrees(file, o, Fragment(o, payload, begin))
    ensures var e, n, next := Emit(o, payload, begin), Taken(o, payload), After(o, payload);
      && next <= o + |e|
      && if n == |payload| then o + |e| == next
         else var e' := Emit(next, payload[n..], false); Agrees(file, next, e') && next + |e'| == o + |e|
  {
    var n, next := Taken(o, payload), After(o, payload);
    var rest := if n == |payload| then [] else Emit(next, payload[n..], false);
    assert Emit(o, payload, begin) == Fragment(o, payload, begin) + rest;
    hide Fragment, Agrees, Taken, After;
    AgreesAppend(file, o, Fragment(o, payload, begin), rest);
  }

  // ----- the whole log -----

  lemma {:induction false} LogStep(records: seq<Bytes>, i: nat)
    requires i < |records|
    ensures LogOf(records[..i + 1]) == LogOf(records[..i]) + Emit(|LogOf(records[..i])|, records[i], true)
  {
    hide Emit;
    assert records[..i + 1][..i] == records[..i];
  }

  lemma {:induction false} LogGrows(records: seq<Bytes>, i: nat)
    requires i <= |records|
    ensures LogOf(records[..i]) <= LogOf(records)
    decreases |records| - i
  {
    if i == |records| {
      assert records[..i] == records;
    } else {
      LogStep(records, i);
      LogGrows(records, i + 1);
    }
  }

  method WriteAll(w: Writer, records: seq<Bytes>, ghost before: seq<Bytes>)
    requires w.Ok() && w.dest == LogOf(before)
    modifies w
    ensures w.Ok() && w.dest == LogOf(before + records)
  {
    hide LogOf, Emit;
    ghost var all := before + records;
    assert all[..|before|] == before;
    for i := 0 to |records|
      invariant w.Ok() && w.dest == LogOf(all[..|before| + i])
    {
      LogStep(all, |before| + i);
      w.AddRecord(records[i]);
    }
    assert all[..|before| + |records|] == all;
  }

  lemma NextRecord(records: seq<Bytes>, k: nat, i: nat)
    requires i < |records| && |LogOf(records[..i])| <= k <= |LogOf(records)|
    ensures var at := |LogOf(records[..i])|; var e := Emit(at, records[i], true);
      Agrees(LogOf(records)[..k], at, e) && at + |e| == |LogOf(records[..i + 1])|
  {
    hide LogOf, Emit;
    LogStep(records, i);
    LogGrows(records, i + 1);
  }

  lemma {:induction false} EmitNotEmpty(o: nat, payload: Bytes, begin: bool)
    ensures |Emit(o, payload, begin)| >= HEADER_SIZE
  {
  }

  // The round trip: from any prefix of the log of any records, the reader gets
  // exactly the records that lie wholly in it, and reports no corruption.
  method ReadAll(file: Bytes, ghost records: seq<Bytes>) returns (result: seq<Bytes>, corruptions: nat)
    ensures file <= LogOf(records) ==>
      result <= records && IsWhole(records, |file|, |result|) && corruptions == 0
  {
    hide LogOf, Emit, Agrees, Reader.Ok, Reader.At, IsWhole;
    var reader := new Reader(file);
    result := [];
    ghost var k, good := |file|, file <= LogOf(records);
    assert good ==> file == LogOf(records)[..k];
    EmptyLog(records);
    while true
      invariant fresh(reader) && reader.Ok() && reader.file == file
      invariant good ==> reader.corruptions == 0 && result <= records && reader.At() == |LogOf(result)|
      decreases k - reader.At()
    {
      reader.BufferFacts();
      ghost var i := |result|;
      ghost var next := if i < |records| then records[i] else [];
      if good {
        assert records[..i] == result;
        if i < |records| {
          NextRecord(records, k, i);
        } else {
          AtEnd(records, result, file);
          EmitNotEmpty(k, next, true);
        }
      }
      var record := reader.ReadRecord(next);
      reader.BufferFacts();
      match record
      case None =>
        if good {
          ReadToTheEnd(records, k, i);
        }
        corruptions := reader.corruptions;
        return;
      case Some(r) =>
        result := result + [r];
        if good {
          assert i < |records| && r == records[i];
          TakeOne(records, i);
        }
    }
  }

  lemma ReadToTheEnd(records: seq<Bytes>, k: nat, i: nat)
    requires i <= |records| && |LogOf(records[..i])| <= k && (i < |records| ==> k < |LogOf(records[..i + 1])|)
    ensures IsWhole(records, k, i)
  {
  }

  lemma TakeOne(records: seq<Bytes>, i: nat)
    requires i < |records|
    ensures records[..i + 1] == records[..i] + [records[i]] && records[..i + 1] <= records
  {
  }

  lemma EmptyLog(records: seq<Bytes>)
    ensures LogOf([]) == []
  {
  }

  lemma AtEnd(records: seq<Bytes>, result: seq<Bytes>, file: Bytes)
    requires file <= LogOf(records) && result <= records && |result| == |records| && |LogOf(result)| <= |file|
    ensures |LogOf(result)| == |file| && forall e :: Agrees(file, |file|, e)
  {
    assert result == records;
  }
}
