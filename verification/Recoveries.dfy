// Replaying the logs when a database is opened: which groups of writes are read
// back from whatever bytes survived, into which memtables, and the last sequence
// number and file numbers found (db/db_impl.cc, Recover and RecoverLogFile).
module Recoveries {
  import opened Keys
  import opened Codings
  import opened InternalKeys
  import opened WriteBatches
  import Logs
  import Manifests

  // A group of writes, as one record of the log.
  datatype Group = Group(sn: nat, ops: seq<ByteOp>)

  // Sequence numbers start at 1 and do not run out, keys and values are under
  // 4 GiB, and the count is one that the reader accepts.
  predicate GroupOk(g: Group) {
    && 1 <= g.sn && g.sn + |g.ops| <= MAX_SEQUENCE + 1 && |g.ops| < 0x8000_0000
    && forall op :: op in g.ops ==> OpFits(op)
  }

  predicate GroupsOk(gs: seq<Group>) {
    forall i :: 0 <= i < |gs| ==> GroupOk(gs[i])
  }

  function LastOf(g: Group): (n: int)
    ensures n == g.sn + |g.ops| - 1
  {
    g.sn + |g.ops| - 1
  }

  function RecordOf(g: Group): Bytes {
    BatchOf(g.sn, g.ops)
  }

  function RecordsOf(gs: seq<Group>): (r: seq<Bytes>)
    ensures |r| == |gs|
  {
    seq(|gs|, i requires 0 <= i < |gs| => RecordOf(gs[i]))
  }

  function LogBytes(gs: seq<Group>): Bytes {
    Logs.LogOf(RecordsOf(gs))
  }

  // The groups whose records lie wholly within the file.
  function Readable(file: Bytes, gs: seq<Group>): (r: seq<Group>)
    ensures r <= gs
  {
    if gs == [] || |LogBytes(gs)| <= |file| then gs else Readable(file, gs[..|gs| - 1])
  }

  lemma RecordsOfPrefix(gs: seq<Group>, n: nat)
    requires n <= |gs|
    ensures RecordsOf(gs[..n]) == RecordsOf(gs)[..n]
  {
    hide BatchOf;
  }

  lemma {:induction false} LogBytesGrow(gs: seq<Group>, n: nat)
    requires n <= |gs|
    ensures |LogBytes(gs[..n])| <= |LogBytes(gs)| && LogBytes(gs[..n]) <= LogBytes(gs)
    ensures n < |gs| ==> |LogBytes(gs[..n])| < |LogBytes(gs)|
  {
    hide Logs.LogOf, Logs.Emit, RecordOf;
    RecordsOfPrefix(gs, n);
    Logs.LogGrows(RecordsOf(gs), n);
    if n < |gs| {
      RecordsOfPrefix(gs, n + 1);
      Logs.LogStep(RecordsOf(gs), n);
      Logs.EmitNotEmpty(|LogBytes(gs[..n])|, RecordOf(gs[n]), true);
      Logs.LogGrows(RecordsOf(gs), n + 1);
    }
  }

  // The reader's answer, in terms of groups.
  lemma {:induction false} WholeIsReadable(file: Bytes, gs: seq<Group>, n: nat)
    requires Logs.IsWhole(RecordsOf(gs), |file|, n)
    ensures n <= |gs| && Readable(file, gs) == gs[..n]
    decreases |gs|
  {
    hide LogBytes, RecordsOf;
    WholeSays(gs, |file|, n);
    if n == |gs| {
      assert gs[..n] == gs;
    } else {
      LogBytesGrow(gs, n + 1);
      var front := gs[..|gs| - 1];
      assert front[..n] == gs[..n] && (n < |front| ==> front[..n + 1] == gs[..n + 1]);
      WholeSays(front, |file|, n);
      WholeIsReadable(file, front, n);
    }
  }

  lemma WholeSays(gs: seq<Group>, k: nat, n: nat)
    requires n <= |gs|
    ensures Logs.IsWhole(RecordsOf(gs), k, n) <==>
      |LogBytes(gs[..n])| <= k && (n < |gs| ==> k < |LogBytes(gs[..n + 1])|)
  {
    hide Logs.LogOf, RecordOf;
    RecordsOfPrefix(gs, n);
    if n < |gs| {
      RecordsOfPrefix(gs, n + 1);
    }
  }

  // A log written to its end is read whole.
  lemma {:induction false} AllReadable(gs: seq<Group>, file: Bytes)
    requires |LogBytes(gs)| <= |file|
    ensures Readable(file, gs) == gs
  {
  }

  // However a log is cut, what is safely before the cut is read.
  lemma {:induction false} CutReadable(gs: seq<Group>, file: Bytes, safe: nat)
    requires safe <= |gs| && |LogBytes(gs[..safe])| <= |file|
    ensures safe <= |Readable(file, gs)|
    decreases |gs|
  {
    hide LogBytes;
    assert gs[..|gs|] == gs;
    if gs != [] && |LogBytes(gs)| > |file| {
      var front := gs[..|gs| - 1];
      assert front[..safe] == gs[..safe];
      CutReadable(front, file, safe);
    }
  }

  // ----- what replaying puts into memtables -----

  type Memtable = seq<(ParsedKey, Bytes)>

  // The entries of the groups, in the order of writing.
  function Inserted(gs: seq<Group>): Memtable
    requires GroupsOk(gs)
  {
    if gs == [] then []
    else
      var last := gs[|gs| - 1];
      Inserted(gs[..|gs| - 1]) + Numbered(last.ops, last.sn)
  }

  function Concat(memtables: seq<Memtable>): Memtable {
    if memtables == [] then [] else Concat(memtables[..|memtables| - 1]) + memtables[|memtables| - 1]
  }

  // The greatest last sequence number of the groups, and no less than m.
  function MaxLast(gs: seq<Group>, m: nat): (r: nat)
    ensures r >= m && forall i :: 0 <= i < |gs| ==> r >= LastOf(gs[i])
    ensures r == m || exists i :: 0 <= i < |gs| && r == LastOf(gs[i])
  {
    if gs == [] then m
    else
      var front, last := gs[..|gs| - 1], gs[|gs| - 1];
      var rest := MaxLast(front, m);
      assert forall i :: 0 <= i < |front| ==> gs[i] == front[i];
      if LastOf(last) > rest then LastOf(last) else rest
  }

  lemma {:induction false} InsertedStep(gs: seq<Group>, i: nat, m: nat)
    requires GroupsOk(gs) && i < |gs|
    ensures Inserted(gs[..i + 1]) == Inserted(gs[..i]) + Numbered(gs[i].ops, gs[i].sn)
    ensures MaxLast(gs[..i + 1], m) ==
      if LastOf(gs[i]) > MaxLast(gs[..i], m) then LastOf(gs[i]) else MaxLast(gs[..i], m)
  {
    hide Numbered, GroupOk;
    assert gs[..i + 1][..i] == gs[..i] && gs[..i + 1][i] == gs[i];
  }

  lemma {:induction false} ConcatStep(memtables: seq<Memtable>, mem: Memtable)
    ensures Concat(memtables + [mem]) == Concat(memtables) + mem
  {
    assert (memtables + [mem])[..|memtables|] == memtables;
  }

  // The header of a record, and what its body says.
  lemma {:induction false} RecordSays(g: Group)
    requires GroupOk(g)
    ensures var r := RecordOf(g);
      && |r| >= HEADER && FixedValue(r[..8]) == g.sn && CountIn(r) == |g.ops| && Contents(r) == (g.ops, true)
  {
    hide Body, Records, Fixed, FixedValue, OpFits, Power;
    var r := RecordOf(g);
    BatchRoundTrip(g.sn, g.ops);
    assert r[..8] == Fixed(g.sn, 8) && r[8..HEADER] == Fixed(|g.ops| % TWO_32, 4);
    FixedRoundTrip(g.sn, 8);
    FixedRoundTrip(|g.ops|, 4);
    PowersOf256();
    RemainderIs(g.sn, TWO_64, 0, g.sn);
    RemainderIs(|g.ops|, TWO_32, 0, |g.ops|);
  }

  // The sequence number and the ops of one record, put into the memtable.
  method InsertRecord(record: Bytes, mem: Memtable, ghost g: Group) returns (mem': Memtable, last: int, ok: bool)
    requires GroupOk(g) && record == RecordOf(g)
    ensures ok && mem' == mem + Numbered(g.ops, g.sn) && last == LastOf(g)
  {
    RecordSays(g);
    hide Contents, BatchOf, OpFits, FixedValue, RecordOf, CountIn, Records;
    var ops;
    ops, ok := Iterate(record);
    var sn := FixedValue(record[..8]);
    last := sn + CountIn(record) - 1;
    mem' := InsertOps(mem, ops, sn);
  }

  method InsertOps(mem: Memtable, ops: seq<ByteOp>, sn: nat) returns (mem': Memtable)
    requires sn + |ops| <= MAX_SEQUENCE + 1
    ensures mem' == mem + Numbered(ops, sn)
  {
    var added: Memtable := [];
    for i := 0 to |ops|
      invariant added == Numbered(ops, sn)[..i]
    {
      added := added + [(ParsedKey(ops[i].key, sn + i, KindOf(ops[i])), ValueOf(ops[i]))];
    }
    mem' := mem + added;
  }

  function InMemory(mem: Option<Memtable>): Memtable {
    if mem.Some? then mem.value else []
  }

  lemma NothingInserted(m: nat)
    ensures Inserted([]) == [] && Concat([]) == [] && MaxLast([], m) == m
  {
  }

  lemma OneRecordMore(memtables: seq<Memtable>, mem: Memtable, more: Memtable)
    ensures Concat(memtables) + (mem + more) == Concat(memtables) + mem + more
    ensures Concat(memtables + [mem + more]) == Concat(memtables) + mem + more
  {
    ConcatStep(memtables, mem + more);
  }

  // The loop over the records. `full` stands for the comparison of the memtable
  // with the write buffer.
  method ReplayRecords(records: seq<Bytes>, maxSequence: nat, ghost gs: seq<Group>)
    returns (memtables: seq<Memtable>, mem: Option<Memtable>, max: nat)
    requires GroupsOk(gs) && records == RecordsOf(gs)
    ensures Concat(memtables) + InMemory(mem) == Inserted(gs) && max == MaxLast(gs, maxSequence)
  {
    hide Inserted, Concat, MaxLast, RecordOf, OpFits, Numbered;
    memtables, mem, max := [], None, maxSequence;
    NothingInserted(maxSequence);
    assert gs[..0] == [];
    for i := 0 to |records|
      invariant Concat(memtables) + InMemory(mem) == Inserted(gs[..i]) && max == MaxLast(gs[..i], maxSequence)
    {
      ghost var was := InMemory(mem);
      var table, last, ok := InsertRecord(records[i], InMemory(mem), gs[i]);
      InsertedStep(gs, i, maxSequence);
      OneRecordMore(memtables, was, Numbered(gs[i].ops, gs[i].sn));
      max := if last > max then last else max;
      var full: bool := *;
      if full {
        memtables, mem := memtables + [table], None;
      } else {
        mem := Some(table);
      }
    }
    assert gs[..|records|] == gs;
  }

  // RecoverLogFile on a log of which any prefix of the bytes may have survived:
  // the memtables together hold, in order, exactly the groups whose records are
  // whole, and no corruption is found.
  method RecoverLogFile(file: Bytes, maxSequence: nat, ghost gs: seq<Group>)
    returns (memtables: seq<Memtable>, max: nat, corruptions: nat)
    requires GroupsOk(gs) && file <= LogBytes(gs)
    ensures corruptions == 0
    ensures Concat(memtables) == Inserted(Readable(file, gs))
    ensures max == MaxLast(Readable(file, gs), maxSequence)
  {
    hide Logs.LogOf, Logs.IsWhole, Inserted, Concat, MaxLast, Readable, RecordOf, GroupOk;
    var records;
    records, corruptions := Logs.ReadAll(file, RecordsOf(gs));
    WholeIsReadable(file, gs, |records|);
    RecordsOfPrefix(gs, |records|);
    var mem;
    memtables, mem, max := ReplayRecords(records, maxSequence, gs[..|records|]);
    if mem.Some? {
      // What is left becomes a table too.
      ConcatStep(memtables, mem.value);
      memtables := memtables + [mem.value];
    }
  }

  // ----- all logs -----

  ghost predicate Ascending(ns: seq<nat>) {
    forall i, j :: 0 <= i < j < |ns| ==> ns[i] < ns[j]
  }

  lemma {:induction false} LeastExists(s: set<nat>) returns (n: nat)
    requires s != {}
    ensures n in s && forall m :: m in s ==> n <= m
    decreases |s|
  {
    n :| n in s;
    assert forall m :: m in s ==> m == n || m in s - {n};
    if s - {n} != {} {
      var m := LeastExists(s - {n});
      n := if m < n then m else n;
    }
  }

  // std::sort of the log numbers found.
  method SortNumbers(s: set<nat>) returns (ns: seq<nat>)
    ensures Ascending(ns) && forall n :: n in ns <==> n in s
  {
    var rest := s;
    ns := [];
    while rest != {}
      invariant Ascending(ns) && rest <= s && forall n :: n in ns <==> n in s - rest
      invariant forall n, m :: n in ns && m in rest ==> n < m
      decreases |rest|
    {
      ghost var least := LeastExists(rest);
      var n: nat :| n in rest && forall m :: m in rest ==> n <= m;
      assert forall i :: 0 <= i < |ns| ==> ns[i] in ns;
      ns, rest := ns + [n], rest - {n};
    }
  }

  // The groups that can be read from these logs, one log after another.
  ghost function ReadableFrom(ns: seq<nat>, logs: map<nat, Bytes>, groups: map<nat, seq<Group>>): seq<Group> {
    if ns == [] then []
    else
      var n := ns[|ns| - 1];
      ReadableFrom(ns[..|ns| - 1], logs, groups) + if n in logs && n in groups then Readable(logs[n], groups[n]) else []
  }

  // What was appended to each log, of which some bytes survived.
  ghost predicate LogsOk(logs: map<nat, Bytes>, groups: map<nat, seq<Group>>) {
    logs.Keys == groups.Keys && forall n :: n in logs ==> GroupsOk(groups[n]) && logs[n] <= LogBytes(groups[n])
  }

  lemma {:induction false} ReadableOk(ns: seq<nat>, logs: map<nat, Bytes>, groups: map<nat, seq<Group>>)
    requires LogsOk(logs, groups)
    ensures GroupsOk(ReadableFrom(ns, logs, groups))
  {
    hide GroupOk, Readable, LogBytes;
    if ns != [] {
      ReadableOk(ns[..|ns| - 1], logs, groups);
    }
  }

  lemma {:induction false} InsertedTwice(a: seq<Group>, b: seq<Group>, m: nat)
    requires GroupsOk(a) && GroupsOk(b)
    ensures GroupsOk(a + b) && Inserted(a + b) == Inserted(a) + Inserted(b)
    ensures MaxLast(a + b, m) == MaxLast(b, MaxLast(a, m))
    decreases |b|
  {
    hide GroupOk, Numbered;
    assert forall i :: 0 <= i < |a + b| ==> (a + b)[i] == if i < |a| then a[i] else b[i - |a|];
    if b == [] {
      assert a + b == a;
    } else {
      var front := b[..|b| - 1];
      InsertedTwice(a, front, m);
      assert (a + b)[..|a + b| - 1] == a + front;
    }
  }

  lemma {:induction false} ConcatTwice(a: seq<Memtable>, b: seq<Memtable>)
    ensures Concat(a + b) == Concat(a) + Concat(b)
    decreases |b|
  {
    if b == [] {
      assert a + b == a;
    } else {
      ConcatTwice(a, b[..|b| - 1]);
      assert (a + b)[..|a + b| - 1] == a + b[..|b| - 1];
    }
  }

  lemma {:induction false} ReadableStep(ns: seq<nat>, i: nat, logs: map<nat, Bytes>, groups: map<nat, seq<Group>>)
    requires i < |ns| && ns[i] in logs && ns[i] in groups
    ensures ReadableFrom(ns[..i + 1], logs, groups) ==
      ReadableFrom(ns[..i], logs, groups) + Readable(logs[ns[i]], groups[ns[i]])
  {
    assert ns[..i + 1][..i] == ns[..i];
  }

  // DBImpl::Recover after the MANIFEST: every log the MANIFEST still needs, in
  // the order of their numbers. No log number is given out again.
  method Recover(logs: map<nat, Bytes>, minLog: nat, lastSequence: nat, nextFileNumber: nat,
                 ghost groups: map<nat, seq<Group>>)
    returns (memtables: seq<Memtable>, last: nat, next: nat, ghost ns: seq<nat>)
    requires LogsOk(logs, groups)
    ensures Ascending(ns) && forall n :: n in ns <==> n in logs && n >= minLog
    ensures GroupsOk(ReadableFrom(ns, logs, groups)) && Concat(memtables) == Inserted(ReadableFrom(ns, logs, groups))
    ensures last == MaxLast(ReadableFrom(ns, logs, groups), lastSequence)
    ensures next >= nextFileNumber && forall n :: n in ns ==> next > n
  {
    hide Inserted, Concat, MaxLast, Readable, ReadableFrom, LogBytes;
    var numbers := SortNumbers(set n | n in logs && n >= minLog);
    ns := numbers;
    var maxSequence := 0;
    memtables, next := [], nextFileNumber;
    NoLogs(logs, groups);
    assert ns[..0] == [];
    for i := 0 to |numbers|
      invariant GroupsOk(ReadableFrom(ns[..i], logs, groups))
      invariant Concat(memtables) == Inserted(ReadableFrom(ns[..i], logs, groups))
      invariant maxSequence == MaxLast(ReadableFrom(ns[..i], logs, groups), 0)
      invariant next >= nextFileNumber && forall j :: 0 <= j < i ==> next > ns[j]
    {
      var n := numbers[i];
      assert n in ns;
      var more, max, corruptions := RecoverLogFile(logs[n], maxSequence, groups[n]);
      ReadableStep(ns, i, logs, groups);
      InsertedTwice(ReadableFrom(ns[..i], logs, groups), Readable(logs[n], groups[n]), 0);
      ConcatTwice(memtables, more);
      memtables, maxSequence := memtables + more, max;
      next := Manifests.MarkFileNumberUsed(next, n);
    }
    assert ns[..|ns|] == ns;
    MaxStarts(ReadableFrom(ns, logs, groups), lastSequence);
    last := if lastSequence < maxSequence then maxSequence else lastSequence;
  }

  lemma NoLogs(logs: map<nat, Bytes>, groups: map<nat, seq<Group>>)
    ensures ReadableFrom([], logs, groups) == [] && Inserted([]) == [] && Concat([]) == [] && MaxLast([], 0) == 0
  {
  }

  lemma {:induction false} MaxStarts(gs: seq<Group>, m: nat)
    ensures MaxLast(gs, m) == if MaxLast(gs, 0) > m then MaxLast(gs, 0) else m
  {
    if gs != [] {
      MaxStarts(gs[..|gs| - 1], m);
    }
  }

  // ----- the entries of a group -----

  ghost function EntriesOf(g: Group): set<Entry>
    requires GroupOk(g)
  {
    AbstractEntries(Numbered(g.ops, g.sn))
  }

  // They take the sequence numbers of the group, each once.
  lemma GroupFacts(g: Group)
    requires GroupOk(g)
    ensures forall e :: e in EntriesOf(g) ==> g.sn <= e.key.sn <= LastOf(g)
    ensures forall e, f :: e in EntriesOf(g) && f in EntriesOf(g) && e.key.sn == f.key.sn ==> e == f
  {
    hide OpFits;
  }

  lemma AbstractTwice(a: Memtable, b: Memtable)
    ensures AbstractEntries(a + b) == AbstractEntries(a) + AbstractEntries(b)
  {
    var both := a + b;
    forall e | e in AbstractEntries(a) ensures e in AbstractEntries(both) {
      var i :| 0 <= i < |a| && e == Entry(InternalKeys.Abstract(a[i].0), a[i].1);
      assert both[i] == a[i];
    }
    forall e | e in AbstractEntries(b) ensures e in AbstractEntries(both) {
      var i :| 0 <= i < |b| && e == Entry(InternalKeys.Abstract(b[i].0), b[i].1);
      assert both[|a| + i] == b[i];
    }
    forall e | e in AbstractEntries(both) ensures e in AbstractEntries(a) + AbstractEntries(b) {
      var i :| 0 <= i < |both| && e == Entry(InternalKeys.Abstract(both[i].0), both[i].1);
      if i < |a| {
        assert both[i] == a[i];
      } else {
        assert both[i] == b[i - |a|];
      }
    }
  }

  // The replayed memtables hold the entries of the groups and nothing else.
  lemma {:induction false} ReplayedEntries(gs: seq<Group>, e: Entry)
    requires GroupsOk(gs)
    ensures e in AbstractEntries(Inserted(gs)) <==> exists i :: 0 <= i < |gs| && e in EntriesOf(gs[i])
  {
    hide AbstractEntries, OpFits, Numbered;
    if gs == [] {
      NothingAbstract();
    } else {
      var front, last := gs[..|gs| - 1], gs[|gs| - 1];
      ReplayedEntries(front, e);
      AbstractTwice(Inserted(front), Numbered(last.ops, last.sn));
      assert forall i :: 0 <= i < |front| ==> front[i] == gs[i];
      if e in EntriesOf(last) {
        assert e in EntriesOf(gs[|gs| - 1]);
      }
    }
  }

  lemma NothingAbstract()
    ensures AbstractEntries([]) == {} && Inserted([]) == []
  {
  }
}
