// Durability: at every step what is on disk recovers every acknowledged write,
// and garbage collection deletes nothing that is needed (db/db_impl.cc: Write,
// MakeRoomForWrite, BackgroundCall, CompactMemTable, DoCompactionWork,
// RemoveObsoleteFiles, Recover, DB::Open; db/version_set.cc: LogAndApply).
// One writer at the front of the queue and the one background thread take their
// steps in any order; a crash may come between any two and cut the record that
// was being appended anywhere.
module Durability {
  import opened Keys
  import opened Versions
  import opened Inputs
  import opened Picking
  import opened Builders
  import opened Compactions
  import opened Preservation
  import opened LevelInvariant
  import opened Catalog
  import opened Interleavings
  import opened Recoveries
  import opened LogViews
  import opened Commits
  import Logs
  import Manifests
  import Store
  import VersionEdits
  import WriteBatches

  // The bytes of a log file that survive; the groups appended to it say what
  // these bytes should be.
  datatype LogFile = LogFile(bytes: Bytes, groups: seq<Group>)

  // Log files and table files by number, and the records of the MANIFEST with
  // what replaying them gives.
  datatype Disk = Disk(
    logs: map<nat, LogFile>,
    tables: map<nat, seq<Entry>>,
    manifest: seq<Commit>,
    version: Version,
    logNumber: nat,
    nextFile: nat,
    lastSequence: nat)

  // Recovery has replayed the logs before `log` and the first `read` groups of it.
  datatype Mode = Down | Recovering(log: nat, read: nat) | Running

  // A record for the MANIFEST, settled when LogAndApply starts.
  datatype Record = Record(edit: Edit, after: Version, logNumber: nat, nextFile: nat, lastSequence: nat)

  datatype What = AFlush(level: nat, table: Option<File>) | ACompaction | AMove

  // What the background thread is at, within a compaction or outside of one.
  datatype Phase =
    | Resting
    | Building(number: nat)                      // BuildTable for the immutable memtable
    | Built(level: nat, table: Option<File>)     // no longer pending, in no version yet
    | Installing(what: What, record: Record)     // LogAndApply without the mutex
    | Removing(tables: set<nat>, logs: set<nat>) // files RemoveObsoleteFiles has collected

  // A compaction under way: its outputs so far, and the tables flushed meanwhile.
  datatype Work = Work(pick: Pick, outputs: seq<File>, flushed: seq<(nat, File)>)

  datatype State = State(
    disk: Disk,
    mode: Mode,
    mem: set<Entry>,
    imm: Option<set<Entry>>,
    current: Version,
    live: set<Version>,       // versions somebody refers to
    pending: set<nat>,        // pending_outputs_
    logNumber: nat,
    logfile: nat,
    safe: nat,                // groups of the current log whose append has returned
    nextFile: nat,
    lastSequence: nat,
    bgError: bool,
    stuck: bool,              // a write to the MANIFEST has failed
    inflight: Option<Group>,  // appended or being appended, not yet acknowledged
    stored: bool,             // and already in the memtable
    phase: Phase,
    compaction: Option<Work>,
    built: seq<File>,         // tables of the running recovery
    recovered: Version,       // the version they will make
    maxSequence: nat,
    flushed: set<Entry>,      // every entry the durable MANIFEST needs no log for
    acked: set<Entry>,
    horizon: nat,             // the greatest smallest_snapshot of a committed compaction
    spoiled: iset<Point>)     // reads that see a value one of them has uncovered

  function ViewOf(logs: map<nat, LogFile>): View {
    map n | n in logs :: Readable(logs[n].bytes, logs[n].groups)
  }

  // What opening the database finds: the tables of the MANIFEST and what can be
  // read of the logs it still needs.
  ghost function Recoverable(d: Disk): set<Entry> {
    VersionEntries(d.version) + Onward(ViewOf(d.logs), d.logNumber, 0)
  }

  // Every write that is not lost.
  ghost function Appended(s: State): set<Entry> {
    s.flushed + Onward(ViewOf(s.disk.logs), s.disk.logNumber, 0)
  }

  // What can be read of the logs that recovery needs.
  ghost function InLogs(s: State): set<Entry> {
    Onward(ViewOf(s.disk.logs), s.disk.logNumber, 0)
  }

  function ImmSet(imm: Option<set<Entry>>): set<Entry> {
    if imm.Some? then imm.value else {}
  }

  function NumbersOf(v: Version): set<nat> {
    set l, f | 0 <= l < |v| && f in v[l] :: f.number
  }

  // pending_outputs_ and AddLiveFiles.
  function Protected(s: State): set<nat> {
    s.pending + set v, n | v in s.live && n in NumbersOf(v) :: n
  }

  function OutputNumbers(outputs: seq<File>): set<nat> {
    set f | f in outputs :: f.number
  }

  function Later(a: nat, b: nat): nat {
    if a < b then b else a
  }

  function TableOf(number: nat, size: nat, entries: seq<Entry>): File
    requires entries != []
  {
    File(number, size, entries[0].key, entries[|entries| - 1].key, entries)
  }

  // ----- steps -----

  datatype Event =
    | Append(ops: seq<WriteBatches.ByteOp>)
    | InsertGroup
    | Acknowledge
    | FailSync
    | SwitchMemtable
    | StartFlush
    | FinishBuild(level: nat, size: nat, entries: seq<Entry>)
    | FailFlush
    | InstallFlush(after: Version)
    | StartCompaction(pick: Pick)
    | BuildOutput(output: File)
    | AbandonCompaction
    | InstallCompaction(after: Version)
    | InstallMove(level: nat, f: File, lo: UserKey, hi: UserKey, after: Version)
    | FinishInstall(released: set<Version>)
    | FailInstall(written: bool)
    | RemoveTable(number: nat)
    | RemoveLog(number: nat)
    | EndRemoving
    | DropVersion(v: Version)
    | Crash(kept: nat)
    | StartRecovery
    | ReplayGroup
    | SpillMemtable(size: nat, entries: seq<Entry>)
    | LeaveLog(next: nat)
    | CommitRecovery(after: Version)
    | FailRecovery(after: Version, written: bool)

  function Logged(f: LogFile, g: Group): LogFile {
    LogFile(f.bytes + Logs.Emit(|f.bytes|, RecordOf(g), true), f.groups + [g])
  }

  // MakeRoomForWrite's choice of what to do is left open: a switch may come at
  // any time when there is no immutable memtable.
  ghost predicate WriterStep(s: State, event: Event, t: State) {
    s.mode == Running &&
    match event
    case Append(ops) =>
      // The group is numbered from the next sequence number on.
      var g := Group(s.lastSequence + 1, ops);
      && s.inflight == None && !s.bgError && s.logfile in s.disk.logs && GroupOk(g)
      && t == s.(disk := s.disk.(logs := s.disk.logs[s.logfile := Logged(s.disk.logs[s.logfile], g)]),
                 inflight := Some(g), stored := false)
    case InsertGroup =>
      && s.inflight.Some? && !s.stored
      && t == s.(mem := s.mem + Es(s.inflight.value), stored := true)
    case Acknowledge =>
      && s.inflight.Some? && s.stored
      && t == s.(inflight := None, stored := false, lastSequence := s.lastSequence + |s.inflight.value.ops|,
                 safe := s.safe + 1, acked := s.acked + Es(s.inflight.value))
    case FailSync =>
      // The record is in the log or not; the group is not stored.
      && s.inflight.Some? && !s.stored
      && t == s.(inflight := None, lastSequence := s.lastSequence + |s.inflight.value.ops|, bgError := true)
    case SwitchMemtable =>
      && s.inflight == None && s.imm == None && !s.bgError
      && t == s.(disk := s.disk.(logs := s.disk.logs[s.nextFile := LogFile([], [])]), logfile := s.nextFile, safe := 0,
                 imm := Some(s.mem), mem := {}, nextFile := s.nextFile + 1)
    case _ => false
  }

  function FlushEditOf(level: nat, table: Option<File>): Edit {
    if table.Some? then FlushEdit(level, table.value) else Edit({}, [])
  }

  function RecordNow(s: State, edit: Edit, after: Version, logNumber: nat): Record {
    Record(edit, after, logNumber, s.nextFile, s.lastSequence)
  }

  ghost predicate FlushStep(s: State, event: Event, t: State) {
    s.mode == Running &&
    match event
    case StartFlush =>
      // Alone, or in the middle of a compaction, which does not ask for errors.
      && s.phase == Resting && s.imm.Some? && (!s.bgError || s.compaction.Some?)
      && t == s.(phase := Building(s.nextFile), pending := s.pending + {s.nextFile}, nextFile := s.nextFile + 1)
    case FinishBuild(level, size, entries) =>
      // The number is given up here, before the table is in any version. An
      // empty memtable makes no table; otherwise the level is that of
      // PickLevelForMemTableOutput.
      && s.phase.Building? && s.imm.Some? && Sorted(entries) && ToSet(entries) == s.imm.value
      && var n := s.phase.number;
         if entries == [] then t == s.(pending := s.pending - {n}, phase := Built(0, None))
         else
           var f := TableOf(n, size, entries);
           && |s.current| == NUM_LEVELS && level <= 2
           && (level == 0 || forall l :: 0 <= l <= level ==> NoneMeets(s.current[l], f.smallest.user, f.largest.user))
           && t == s.(disk := s.disk.(tables := s.disk.tables[n := entries]), pending := s.pending - {n},
                      phase := Built(level, Some(f)))
    case FailFlush =>
      && (s.phase.Building? || s.phase.Built?)
      && t == s.(pending := if s.phase.Building? then s.pending - {s.phase.number} else s.pending,
                 phase := Resting, bgError := true)
    case InstallFlush(after) =>
      && s.phase.Built?
      && var e := FlushEditOf(s.phase.level, s.phase.table);
         Edited(s.current, e, after)
         && t == s.(phase := Installing(AFlush(s.phase.level, s.phase.table), RecordNow(s, e, after, s.logfile)))
    case _ => false
  }

  // What BackgroundCompaction starts from: a pick of the current version.
  ghost predicate MayStart(s: State, p: Pick) {
    && p.before == s.current && p.smallestSnapshot <= s.lastSequence
    && Picked(p.before, p.level, p.in0, p.in1, p.lo, p.hi)
    && Sorted(p.input) && ToSet(p.input) == LevelEntries(p.in0) + LevelEntries(p.in1)
  }

  function LateOf(w: Work, current: Version, after: Version): Late {
    Late(w.pick, w.outputs, w.flushed, current, after)
  }

  function EditOf(w: Work): Edit {
    CompactionEdit(w.pick.level, w.pick.in0, w.pick.in1, w.outputs)
  }

  ghost predicate CompactionStep(s: State, event: Event, t: State) {
    && s.mode == Running && s.phase == Resting && !s.stuck
    && match event
       case StartCompaction(pick) =>
         && s.imm == None && s.compaction == None && !s.bgError && MayStart(s, pick)
         && t == s.(compaction := Some(Work(pick, [], [])))
       case BuildOutput(f) =>
         && s.compaction.Some? && f.number == s.nextFile
         && t == s.(disk := s.disk.(tables := s.disk.tables[f.number := f.entries]), pending := s.pending + {f.number},
                    compaction := Some(s.compaction.value.(outputs := s.compaction.value.outputs + [f])),
                    nextFile := s.nextFile + 1)
       case AbandonCompaction =>
         && s.compaction.Some?
         && t == s.(compaction := None, pending := s.pending - OutputNumbers(s.compaction.value.outputs),
           bgError := true)
       case InstallCompaction(after) =>
         // No table flushed to the output level meanwhile meets an output.
         && s.compaction.Some? && Outputs(s.compaction.value.pick, s.compaction.value.outputs)
         && Clear(LateOf(s.compaction.value, s.current, after))
         && var e := EditOf(s.compaction.value);
            Edited(s.current, e, after) &&
              t == s.(phase := Installing(ACompaction, RecordNow(s, e, after, s.logNumber)))
       case InstallMove(level, f, lo, hi, after) =>
         && s.imm == None && s.compaction == None && !s.bgError && Picked(s.current, level, [f], [], lo, hi)
         && var e := CompactionEdit(level, [f], [], [f]);
            Edited(s.current, e, after) && t == s.(phase := Installing(AMove, RecordNow(s, e, after, s.logNumber)))
       case _ => false
  }

  function CommitOf(r: Record): Commit {
    Commit(r.edit, Some(Counters(r.logNumber, r.nextFile, r.lastSequence)))
  }

  function Recorded(d: Disk, r: Record): Disk {
    d.(manifest := d.manifest + [CommitOf(r)], version := r.after, logNumber := r.logNumber, nextFile := r.nextFile,
       lastSequence := r.lastSequence)
  }

  // RemoveObsoleteFiles under the mutex: what it is going to delete.
  function Collected(s: State): Phase {
    if s.bgError then Resting
    else
      var tables, logs := s.disk.tables.Keys - Protected(s), set n | n in s.disk.logs && n < s.logNumber;
      Removing(tables, logs)
  }

  // Versions that nobody refers to once the new one is installed: the one before
  // it, and the one whose inputs a finished compaction lets go.
  ghost predicate MayRelease(s: State, r: Record, what: What, released: set<Version>) {
    && r.after !in released
    && (s.compaction.Some? && !what.ACompaction? ==> s.compaction.value.pick.before !in released)
  }

  // The new version is installed and old ones are released, then the step cleans
  // up after itself.
  ghost function Installed(s: State, what: What, r: Record, released: set<Version>): State {
    var base := s.(disk := Recorded(s.disk, r), current := r.after, live := s.live + {r.after} - released,
                   logNumber := r.logNumber, phase := Resting);
    match what
    case AFlush(level, table) =>
      var work := if s.compaction.Some? && table.Some? then
          Some(s.compaction.value.(flushed := s.compaction.value.flushed + [(level, table.value)]))
        else s.compaction;
      var u := base.(imm := None, compaction := work, flushed := s.flushed + ImmSet(s.imm),
                     spoiled := s.spoiled - Store.Decided(ImmSet(s.imm)));
      u.(phase := Collected(u))
    case ACompaction =>
      var u := if s.compaction.Some? then
          base.(compaction := None, pending := s.pending - OutputNumbers(s.compaction.value.outputs),
                horizon := Later(s.horizon, s.compaction.value.pick.smallestSnapshot),
                spoiled := s.spoiled + SpoiledBy(s.compaction.value.pick, s.compaction.value.flushed))
        else base;
      u.(phase := Collected(u))
    case AMove => base
  }

  // The write to the MANIFEST fails; the record may be there all the same.
  ghost function NotInstalled(s: State, what: What, r: Record, written: bool): State {
    var base := s.(bgError := true, stuck := true, phase := Resting, compaction := None);
    if !written then base
    else
      base.(disk := Recorded(s.disk, r),
            flushed := if what.AFlush? then s.flushed + ImmSet(s.imm) else s.flushed,
            horizon := if what.ACompaction? && s.compaction.Some? then
                Later(s.horizon, s.compaction.value.pick.smallestSnapshot)
              else s.horizon,
            spoiled := if what.ACompaction? && s.compaction.Some? then
                s.spoiled + SpoiledBy(s.compaction.value.pick, s.compaction.value.flushed)
              else if what.AFlush? then s.spoiled - Store.Decided(ImmSet(s.imm))
              else s.spoiled)
  }

  ghost predicate EndStep(s: State, event: Event, t: State) {
    s.mode == Running &&
    match event
    case FinishInstall(released) =>
      && s.phase.Installing? && MayRelease(s, s.phase.record, s.phase.what, released)
      && t == Installed(s, s.phase.what, s.phase.record, released)
    case FailInstall(written) => s.phase.Installing? && t == NotInstalled(s, s.phase.what, s.phase.record, written)
    case RemoveTable(n) =>
      && s.phase.Removing? && n in s.phase.tables
      && t == s.(disk := s.disk.(tables := s.disk.tables - {n}), phase := s.phase.(tables := s.phase.tables - {n}))
    case RemoveLog(n) =>
      && s.phase.Removing? && n in s.phase.logs
      && t == s.(disk := s.disk.(logs := s.disk.logs - {n}), phase := s.phase.(logs := s.phase.logs - {n}))
    case EndRemoving => s.phase.Removing? && t == s.(phase := Resting)
    case DropVersion(v) =>
      && v != s.current && (s.compaction.Some? ==> v != s.compaction.value.pick.before)
      && t == s.(live := s.live - {v})
    case _ => false
  }

  // Memory is gone.
  function Fallen(s: State, d: Disk): State {
    s.(disk := d, mode := Down, mem := {}, imm := None, live := {}, pending := {}, bgError := false, stuck := false,
       inflight := None, stored := false, phase := Resting, compaction := None, built := [])
  }

  // Of the current log the bytes written so far survive, except that the record
  // whose append has not returned may be cut anywhere.
  ghost predicate CrashStep(s: State, kept: nat, t: State) {
    match s.mode
    case Down => false
    case Recovering(_, _) => t == Fallen(s, s.disk)
    case Running =>
      && s.logfile in s.disk.logs
      && var f := s.disk.logs[s.logfile];
         && kept <= |f.bytes| && s.safe <= |f.groups| && |LogBytes(f.groups[..s.safe])| <= kept
         && t == Fallen(s, s.disk.(logs := s.disk.logs[s.logfile := f.(bytes := f.bytes[..kept])]))
  }

  function CountersOf(d: Disk): Counters {
    Counters(d.logNumber, d.nextFile, d.lastSequence)
  }

  // What reading the MANIFEST gives.
  function StateOnDisk(d: Disk): Manifests.Recovered {
    StateOf(d.version, CountersOf(d))
  }

  ghost predicate RecoveryStep(s: State, event: Event, t: State) {
    match event
    case StartRecovery =>
      // The recorded next number goes to the new MANIFEST.
      && s.mode == Down
      && var r := StateOnDisk(s.disk);
         t == s.(mode := Recovering(r.logNumber, 0), current := r.version, live := {r.version},
           logNumber := r.logNumber,
                 nextFile := r.nextFileNumber, lastSequence := r.lastSequence, built := [], recovered := r.version,
                 maxSequence := 0)
    case ReplayGroup =>
      && s.mode.Recovering? && s.mode.log in s.disk.logs
      && var gs := ViewOf(s.disk.logs)[s.mode.log];
         && s.mode.read < |gs|
         && var g := gs[s.mode.read];
            t == s.(mode := s.mode.(read := s.mode.read + 1), mem := s.mem + Es(g),
                    maxSequence := if LastOf(g) > s.maxSequence then LastOf(g) else s.maxSequence)
    case SpillMemtable(size, entries) =>
      // WriteLevel0Table when the memtable is full or the log has ended.
      && s.mode.Recovering? && Sorted(entries) && ToSet(entries) == s.mem && entries != []
      && AllInOrder(s.recovered)
      && var f := TableOf(s.nextFile, size, entries);
         t == s.(disk := s.disk.(tables := s.disk.tables[f.number := entries]), mem := {}, built := s.built + [f],
                 recovered := s.recovered[0 := Insert(s.recovered[0], f)], nextFile := s.nextFile + 1)
    case LeaveLog(next) =>
      // On to the least log after it, or past all; its number is marked as used.
      && s.mode.Recovering? && s.mem == {} && s.mode.log < next
      && (s.mode.log in s.disk.logs ==> s.mode.read == |ViewOf(s.disk.logs)[s.mode.log]|)
      && (forall n :: n in s.disk.logs ==> n <= s.mode.log || next <= n)
      && t == s.(mode := Recovering(next, 0),
                 nextFile := if s.mode.log in s.disk.logs then Later(s.nextFile, s.mode.log + 1) else s.nextFile)
    case CommitRecovery(after) =>
      && MayOpen(s, after)
      && var d := Opened(s, after);
         var u := s.(disk := d, mode := Running, current := after, live := {after}, logNumber := s.nextFile,
                     logfile := s.nextFile, safe := 0, nextFile := s.nextFile + 1, lastSequence := d.lastSequence,
                     built := [], flushed := Appended(s), spoiled := s.spoiled - Store.Decided(InLogs(s)));
         t == u.(phase := Collected(u))
    case FailRecovery(after, written) =>
      // The new log is there, and the record or not.
      && MayOpen(s, after)
      && t == if written then
                Fallen(s, Opened(s, after)).(flushed := Appended(s), spoiled := s.spoiled - Store.Decided(InLogs(s)))
              else Fallen(s, s.disk.(logs := s.disk.logs[s.nextFile := LogFile([], [])]))
    case _ => false
  }

  // All logs are replayed and their tables recorded in the edit.
  ghost predicate MayOpen(s: State, after: Version) {
    && s.mode.Recovering? && s.mem == {} && (forall n :: n in s.disk.logs ==> n < s.mode.log)
    && Edited(s.current, Edit({}, Added(s.built, 0)), after)
  }

  // DB::Open: a new log, and LogAndApply with a new MANIFEST that starts from a
  // snapshot.
  function Opened(s: State, after: Version): Disk {
    var last := Later(s.lastSequence, s.maxSequence);
    s.disk.(logs := s.disk.logs[s.nextFile := LogFile([], [])],
            manifest := Reopened(s.current, Edit({}, Added(s.built, 0)), Counters(s.nextFile, s.nextFile + 1, last)),
            version := after, logNumber := s.nextFile, nextFile := s.nextFile + 1, lastSequence := last)
  }

  ghost predicate Next(s: State, event: Event, t: State) {
    match event
    case Append(_) => WriterStep(s, event, t)
    case InsertGroup => WriterStep(s, event, t)
    case Acknowledge => WriterStep(s, event, t)
    case FailSync => WriterStep(s, event, t)
    case SwitchMemtable => WriterStep(s, event, t)
    case StartFlush => FlushStep(s, event, t)
    case FinishBuild(_, _, _) => FlushStep(s, event, t)
    case FailFlush => FlushStep(s, event, t)
    case InstallFlush(_) => FlushStep(s, event, t)
    case StartCompaction(_) => CompactionStep(s, event, t)
    case BuildOutput(_) => CompactionStep(s, event, t)
    case AbandonCompaction => CompactionStep(s, event, t)
    case InstallCompaction(_) => CompactionStep(s, event, t)
    case InstallMove(_, _, _, _, _) => CompactionStep(s, event, t)
    case FinishInstall(_) => EndStep(s, event, t)
    case FailInstall(_) => EndStep(s, event, t)
    case RemoveTable(_) => EndStep(s, event, t)
    case RemoveLog(_) => EndStep(s, event, t)
    case EndRemoving => EndStep(s, event, t)
    case DropVersion(_) => EndStep(s, event, t)
    case Crash(kept) => CrashStep(s, kept, t)
    case _ => RecoveryStep(s, event, t)
  }

  // ----- the invariant -----

  ghost predicate OnDisk(v: Version, tables: map<nat, seq<Entry>>) {
    forall l, f :: 0 <= l < |v| && f in v[l] ==> f.number in tables && tables[f.number] == f.entries
  }

  ghost predicate Below(v: Version, n: nat) {
    forall l, f :: 0 <= l < |v| && f in v[l] ==> f.number < n
  }

  // The tables of the MANIFEST are there and read like everything flushed.
  ghost predicate TreeOk(v: Version, tables: map<nat, seq<Entry>>, nextFile: nat, lastSequence: nat,
                         flushed: set<Entry>, horizon: nat, spoiled: iset<Point>) {
    && VersionOk(v) && Catalogued(v, nextFile) && OnDisk(v, tables)
    && VersionEntries(v) <= flushed && Store.ReadsMatch(VersionEntries(v), flushed, horizon, spoiled)
    && Distinct(flushed)
    && (forall e :: e in flushed ==> e.key.sn <= lastSequence) && horizon <= lastSequence
  }

  // Each log holds some of the bytes of the groups appended to it.
  ghost predicate LogFilesOk(logs: map<nat, LogFile>) {
    forall n :: n in logs ==> GroupsOk(logs[n].groups) && logs[n].bytes <= LogBytes(logs[n].groups)
  }

  // The logs that the MANIFEST needs hold groups in rising order, newer than
  // everything flushed.
  ghost predicate LogsOk(logs: map<nat, LogFile>, logNumber: nat, flushed: set<Entry>) {
    LogFilesOk(logs) && Ordered(ViewOf(logs), logNumber) && Older(flushed, ViewOf(logs), logNumber)
  }

  // The files of every version somebody refers to are there, and no number is
  // given out twice.
  ghost predicate UpOk(current: Version, live: set<Version>, pending: set<nat>, tables: map<nat, seq<Entry>>,
      nextFile: nat) {
    && current in live
    && (forall v :: v in live ==> OnDisk(v, tables) && Below(v, nextFile))
    && forall n :: n in pending ==> n < nextFile
  }

  // The current log is the newest and holds exactly the groups appended to it;
  // all but the one in flight have returned.
  ghost predicate CurrentLogOk(logs: map<nat, LogFile>, logfile: nat, safe: nat, inflight: Option<Group>,
                               lastSequence: nat, bgError: bool) {
    && logfile in logs && (forall n :: n in logs ==> n <= logfile)
    && var f := logs[logfile];
       && f.bytes == LogBytes(f.groups) && safe <= |f.groups| <= safe + 1
       && (inflight.Some? ==>
             |f.groups| == safe + 1 && f.groups[safe] == inflight.value && inflight.value.sn == lastSequence + 1)
       && (inflight.None? && !bgError ==> |f.groups| == safe)
  }

  // What is settled does not reach past the last sequence number.
  ghost predicate SettledOk(logs: map<nat, LogFile>, logNumber: nat, logfile: nat, safe: nat, lastSequence: nat) {
    && logfile in ViewOf(logs) && safe <= |ViewOf(logs)[logfile]|
    && Bounded(ViewOf(logs)[logfile := ViewOf(logs)[logfile][..safe]], logNumber, lastSequence)
  }

  ghost function Missing(inflight: Option<Group>, stored: bool): set<Entry> {
    if inflight.Some? && !stored then Es(inflight.value) else {}
  }

  // The memtable, and a group on its way to it, hold what the current log holds.
  ghost predicate MemOk(mem: set<Entry>, missing: set<Entry>, logs: map<nat, LogFile>, logfile: nat) {
    mem + missing == Onward(ViewOf(logs), logfile, 0)
  }

  // The immutable memtable holds what the logs before the current one hold.
  ghost predicate ImmOk(imm: Option<set<Entry>>, logs: map<nat, LogFile>, logNumber: nat, logfile: nat) {
    ImmSet(imm) == Upto(ViewOf(logs), logNumber, logfile, 0)
  }

  // The number n is newer than all files of all versions and outputs.
  ghost predicate NewNumber(n: nat, live: set<Version>, outputs: seq<File>, nextFile: nat) {
    && n < nextFile && (forall v :: v in live ==> Below(v, n)) && forall f :: f in outputs ==> f.number < n
  }

  // A finished table holds the immutable memtable and stands where no version
  // and no pending output protects it.
  ghost predicate TableOk(level: nat, table: Option<File>, imm: Option<set<Entry>>, current: Version,
                          live: set<Version>, outputs: seq<File>, pending: set<nat>, tables: map<nat, seq<Entry>>,
                          nextFile: nat) {
    && imm.Some? && |current| == NUM_LEVELS
    && match table
       case None => imm.value == {}
       case Some(f) =>
         && NewNumber(f.number, live, outputs, nextFile) && f.number !in pending
         && f.number in tables && tables[f.number] == f.entries && FileOk(f) && ToSet(f.entries) == imm.value
         && level <= 2
         && (level == 0 || forall l :: 0 <= l <= level ==> NoneMeets(current[l], f.smallest.user, f.largest.user))
  }

  // A record that may be committed at any moment.
  ghost predicate RecordOk(r: Record, tables: map<nat, seq<Entry>>, nextFile0: nat, lastSequence0: nat, nextFile: nat,
                         lastSequence: nat) {
    && VersionOk(r.after) && Catalogued(r.after, r.nextFile) && OnDisk(r.after, tables)
    && r.logNumber < r.nextFile && nextFile0 <= r.nextFile <= nextFile
    && lastSequence0 <= r.lastSequence <= lastSequence
  }

  ghost predicate FlushRecordOk(r: Record, level: nat, table: Option<File>, imm: Option<set<Entry>>, current: Version,
                                logfile: nat, outputs: seq<File>, pending: set<nat>, tables: map<nat, seq<Entry>>,
                                live: set<Version>) {
    && imm.Some? && r.logNumber == logfile && VersionEntries(r.after) == VersionEntries(current) + imm.value
    && (forall e :: e in imm.value ==> e.key.sn <= r.lastSequence)
    && match table
       case None => r.after == current
       case Some(f) =>
         && Flushed(current, level, f, r.after) && (forall g :: g in outputs ==> g.number != f.number)
         && f.number !in pending && (forall v :: v in live ==> f.number !in NumbersOf(v))
         && f.number in tables && tables[f.number] == f.entries && ToSet(f.entries) == imm.value
  }

  ghost predicate CompactionRecordOk(r: Record, work: Option<Work>, current: Version, logNumber: nat) {
    && work.Some? && r.logNumber == logNumber && VersionEntries(r.after) <= VersionEntries(current)
    && Replaced(current, work.value.pick.level, work.value.pick.in0, work.value.pick.in1, work.value.outputs, r.after)
    && Store.ReadsMatch(VersionEntries(r.after), VersionEntries(current), work.value.pick.smallestSnapshot,
         SpoiledBy(work.value.pick, work.value.flushed))
    && work.value.pick.smallestSnapshot <= r.lastSequence
  }

  ghost predicate MoveRecordOk(r: Record, work: Option<Work>, current: Version, logNumber: nat) {
    work.None? && r.logNumber == logNumber && VersionEntries(r.after) == VersionEntries(current)
  }

  // The files to be deleted are in no version and not pending, and no log from
  // logNumber on is among them.
  ghost predicate RemovingOk(tables: set<nat>, logs: set<nat>, live: set<Version>, pending: set<nat>, logNumber: nat) {
    && (forall n, v :: n in tables && v in live ==> n !in NumbersOf(v))
    && tables !! pending && forall n :: n in logs ==> n < logNumber
  }

  function OutputsOf(work: Option<Work>): seq<File> {
    if work.Some? then work.value.outputs else []
  }

  ghost predicate PhaseOk(s: State) {
    match s.phase
    case Resting => true
    case Building(n) => s.imm.Some? && n in s.pending && NewNumber(n, s.live, OutputsOf(s.compaction), s.nextFile)
    case Built(level, table) =>
      TableOk(level, table, s.imm, s.current, s.live, OutputsOf(s.compaction), s.pending, s.disk.tables, s.nextFile)
    case Installing(what, r) =>
      && RecordOk(r, s.disk.tables, s.disk.nextFile, s.disk.lastSequence, s.nextFile, s.lastSequence)
      && (match what
          case AFlush(level, table) =>
            FlushRecordOk(r, level, table, s.imm, s.current, s.logfile, OutputsOf(s.compaction), s.pending,
                          s.disk.tables, s.live)
          case ACompaction => CompactionRecordOk(r, s.compaction, s.current, s.logNumber)
          case AMove => MoveRecordOk(r, s.compaction, s.current, s.logNumber))
    case Removing(tables, logs) => RemovingOk(tables, logs, s.live, s.pending, s.logNumber)
  }

  // The compaction under way: picked from a live version, with flushes since,
  // its outputs pending and on disk.
  ghost predicate WorkOk(w: Work, current: Version, live: set<Version>, pending: set<nat>, tables: map<nat,
      seq<Entry>>,
                         lastSequence: nat) {
    && PickOk(w.pick) && w.pick.before in live
    && w.pick.smallestSnapshot <= lastSequence
    && Flushes(w.pick.before, w.flushed, current)
    && FreshNumbers(current, w.outputs)
    && forall f :: f in w.outputs ==> f.number in pending && f.number in tables && tables[f.number] == f.entries
  }

  ghost predicate CommitIsOk(m: seq<Commit>, r: Record) {
    ManifestOk(m + [CommitOf(r)], r.after, Counters(r.logNumber, r.nextFile, r.lastSequence))
  }

  // No number that is given out and not committed yet was ever recorded, and
  // what is being recorded may be.
  ghost predicate NamingOk(m: seq<Commit>, phase: Phase, outputs: seq<File>, nextFile: nat) {
    && NamedBelow(m, nextFile) && (forall f :: f in outputs ==> Unnamed(m, f.number))
    && match phase
       case Building(n) => Unnamed(m, n)
       case Built(_, table) => table.Some? ==> Unnamed(m, table.value.number)
       case Installing(what, r) =>
         && CommitIsOk(m, r) && NamedBelow(m + [CommitOf(r)], nextFile)
         && (what.AFlush? ==> forall f :: f in outputs ==> Unnamed(m + [CommitOf(r)], f.number))
       case _ => true
  }

  // Pending are the outputs of the compaction and the table being built.
  predicate PendingOk(pending: set<nat>, phase: Phase, outputs: seq<File>) {
    pending == OutputNumbers(outputs) + if phase.Building? then {phase.number} else {}
  }

  // Without a failed write to the MANIFEST, memory and MANIFEST agree.
  ghost predicate ThreadOk(s: State) {
    && (s.stuck ==> s.bgError && s.phase == Resting && s.compaction == None)
    && (!s.stuck ==>
          && s.current == s.disk.version && s.logNumber == s.disk.logNumber
          && ImmOk(s.imm, s.disk.logs, s.logNumber, s.logfile)
          && PhaseOk(s)
          && PendingOk(s.pending, s.phase, OutputsOf(s.compaction))
          && NamingOk(s.disk.manifest, s.phase, OutputsOf(s.compaction), s.nextFile)
          && (s.compaction.Some? ==>
                WorkOk(s.compaction.value, s.current, s.live, s.pending, s.disk.tables, s.lastSequence)))
  }

  ghost predicate NumbersOk(s: State) {
    && s.disk.nextFile <= s.nextFile && s.disk.lastSequence <= s.lastSequence
    && s.disk.logNumber <= s.logfile < s.nextFile && s.logNumber <= s.logfile
  }

  ghost predicate RunningOk(s: State) {
    && NumbersOk(s)
    && UpOk(s.current, s.live, s.pending, s.disk.tables, s.nextFile)
    && CurrentLogOk(s.disk.logs, s.logfile, s.safe, s.inflight, s.lastSequence, s.bgError)
    && SettledOk(s.disk.logs, s.disk.logNumber, s.logfile, s.safe, s.lastSequence)
    && s.acked <= s.flushed + Upto(ViewOf(s.disk.logs), s.disk.logNumber, s.logfile, s.safe)
    && (!s.bgError ==> MemOk(s.mem, Missing(s.inflight, s.stored), s.disk.logs, s.logfile))
    && ThreadOk(s)
  }

  // What is replayed is in the tables of the recovery and its memtable; older
  // before newer, and before what is still to be read.
  ghost predicate ReplayOk(d: Disk, log: nat, read: nat, mem: set<Entry>, recovered: Version, lastSequence: nat,
                           maxSequence: nat) {
    && d.logNumber <= log && (log in d.logs ==> read <= |ViewOf(d.logs)[log]|)
    && VersionEntries(recovered) + mem == VersionEntries(d.version) + Upto(ViewOf(d.logs), d.logNumber, log, read)
    && Before(VersionEntries(recovered), mem)
    && Before(VersionEntries(recovered), Onward(ViewOf(d.logs), log, read))
    && Before(mem, Onward(ViewOf(d.logs), log, read)) && Distinct(mem)
    && forall e :: e in Upto(ViewOf(d.logs), d.logNumber, log, read) ==> e.key.sn <= maxSequence
  }

  ghost predicate BuiltOk(current: Version, built: seq<File>, recovered: Version, tables: map<nat, seq<Entry>>,
      nextFile: nat) {
    && VersionOk(recovered) && Catalogued(recovered, nextFile) && OnDisk(recovered, tables)
    && |current| == NUM_LEVELS == |recovered|
    && (forall f :: f in recovered[0] <==> f in current[0] || f in built)
    && (forall f :: f in built ==> f !in current[0])
    && forall l :: 1 <= l < NUM_LEVELS ==> recovered[l] == current[l]
  }

  ghost predicate RecoveringOk(s: State) {
    && s.mode.Recovering?
    && !s.bgError && !s.stuck && s.inflight == None && !s.stored && s.imm == None && s.phase == Resting
    && s.compaction == None && s.pending == {}
    && s.current == s.disk.version && s.live == {s.current} && s.logNumber == s.disk.logNumber
    && s.disk.nextFile <= s.nextFile && s.lastSequence == s.disk.lastSequence
    && (forall n :: n in s.disk.logs && n < s.mode.log ==> n < s.nextFile)
    && ReplayOk(s.disk, s.mode.log, s.mode.read, s.mem, s.recovered, s.lastSequence, s.maxSequence)
    && BuiltOk(s.current, s.built, s.recovered, s.disk.tables, s.nextFile)
  }

  ghost predicate DownOk(s: State) {
    && s.mem == {} && s.inflight == None && !s.stored && s.imm == None && s.phase == Resting && s.compaction == None
    && s.pending == {} && !s.bgError && !s.stuck
  }

  ghost predicate DiskOk(s: State) {
    && TreeOk(s.disk.version, s.disk.tables, s.disk.nextFile, s.disk.lastSequence, s.flushed, s.horizon, s.spoiled)
    && LogsOk(s.disk.logs, s.disk.logNumber, s.flushed)
    && s.disk.logNumber < s.disk.nextFile
    && ManifestOk(s.disk.manifest, s.disk.version, CountersOf(s.disk))
  }

  ghost predicate Inv(s: State) {
    && DiskOk(s)
    && match s.mode
       case Running => RunningOk(s)
       case Recovering(_, _) => RecoveringOk(s) && s.acked <= Appended(s)
       case Down => DownOk(s) && s.acked <= Appended(s)
  }

  // What NewDB leaves.
  function NewDisk(): Disk {
    Disk(map[], map[], [Commit(Edit({}, []), Some(Counters(0, 2, 0)))], EMPTY_VERSION, 0, 2, 0)
  }

  lemma FreshDatabase(s: State)
    requires s.disk == NewDisk() && s.flushed == {} && s.acked == {} && s.horizon == 0
    requires s.spoiled == iset{}
    requires s == Fallen(s, s.disk)
    ensures Inv(s)
  {
    Store.EmptyIsOk();
    NewManifestOk(Counters(0, 2, 0));
    hide VersionOk, Catalogued, VersionEntries, ManifestOk;
    assert ViewOf(s.disk.logs) == map[];
    assert Onward(map[], 0, 0) == {};
    forall l, f | 0 <= l < |EMPTY_VERSION| && f in EMPTY_VERSION[l] ensures false {
      Store.EmptyLevels();
    }
  }

  // ----- recorded numbers -----

  lemma NamingMore(m: seq<Commit>, phase: Phase, outputs: seq<File>, n: nat, n': nat)
    requires NamingOk(m, phase, outputs, n) && n <= n'
    ensures NamingOk(m, phase, outputs, n')
  {
    hide CommitIsOk, Unnamed, AddedBy;
  }

  lemma NamingRests(m: seq<Commit>, phase: Phase, outputs: seq<File>, n: nat, phase': Phase, outputs': seq<File>)
    requires NamingOk(m, phase, outputs, n) && (phase'.Resting? || phase'.Removing?)
    requires forall f :: f in outputs' ==> f in outputs
    ensures NamingOk(m, phase', outputs', n)
  {
    hide CommitIsOk, Unnamed, NamedBelow;
  }

  lemma NamingStarts(m: seq<Commit>, phase: Phase, n: nat)
    requires NamedBelow(m, n) && (phase.Resting? || phase.Removing?)
    ensures NamingOk(m, phase, [], n)
  {
    hide NamedBelow;
  }

  lemma NamingBuilds(m: seq<Commit>, outputs: seq<File>, n: nat)
    requires NamingOk(m, Resting, outputs, n)
    ensures NamingOk(m, Building(n), outputs, n + 1)
    ensures forall f: File :: f.number == n ==> NamingOk(m, Resting, outputs + [f], n + 1)
  {
    hide CommitIsOk, AddedBy;
  }

  lemma NamingBuilt(m: seq<Commit>, outputs: seq<File>, n: nat, next: nat, level: nat, table: Option<File>)
    requires NamingOk(m, Building(n), outputs, next) && (table.Some? ==> table.value.number == n)
    ensures NamingOk(m, Built(level, table), outputs, next)
  {
    hide CommitIsOk, Unnamed, NamedBelow;
  }

  // A record that may be written.
  lemma NamingInstalls(m: seq<Commit>, v: Version, counters: Counters, phase: Phase, outputs: seq<File>, next: nat,
      what: What, r: Record)
    requires NamingOk(m, phase, outputs, next) && ManifestOk(m, v, counters)
    requires EditOk(r.edit) && Edited(v, r.edit, r.after) && AddsNew(m, r.edit) && Below(r.after, next)
    requires what.AFlush? ==> forall l, f, g :: (l, f) in r.edit.added && g in outputs ==> f.number != g.number
    ensures NamingOk(m, Installing(what, r), outputs, next)
  {
    hide ManifestOk, Edited, EditOk, AddsNew, Unnamed, NamedBelow;
    var c := CommitOf(r);
    Recording(m, v, counters, r.edit, r.after, c.counters.value);
    NamedBelowMore(m, v, r.edit, r.after, c.counters, next);
    forall g | g in outputs && what.AFlush? ensures Unnamed(m + [c], g.number) {
      StillUnnamed(m, c, g.number);
    }
  }

  // A record that has been written.
  lemma NamingCommits(m: seq<Commit>, what: What, r: Record, outputs: seq<File>, next: nat, outputs': seq<File>,
      phase': Phase)
    requires NamingOk(m, Installing(what, r), outputs, next) && (phase'.Resting? || phase'.Removing?)
    requires outputs' == [] || (outputs' == outputs && what.AFlush?)
    ensures NamingOk(m + [CommitOf(r)], phase', outputs', next) && CommitIsOk(m, r)
  {
    hide CommitIsOk, Unnamed, NamedBelow, CommitOf;
  }

  lemma FlushNames(m: seq<Commit>, phase: Phase, outputs: seq<File>, next: nat, level: nat, table: Option<File>)
    requires NamingOk(m, phase, outputs, next) && phase == Built(level, table) && (table.Some? ==> level < NUM_LEVELS)
    ensures EditOk(FlushEditOf(level, table)) && AddsNew(m, FlushEditOf(level, table))
    ensures forall l, f :: (l, f) in FlushEditOf(level, table).added ==> table == Some(f)
  {
    hide CommitIsOk, Unnamed, NamedBelow;
  }

  lemma CompactionNames(m: seq<Commit>, phase: Phase, w: Work, next: nat, current: Version)
    requires NamingOk(m, phase, w.outputs, next) && FreshNumbers(current, w.outputs) && w.pick.level + 1 < NUM_LEVELS
    ensures EditOk(EditOf(w)) && AddsNew(m, EditOf(w))
  {
    hide CommitIsOk, Unnamed, NamedBelow;
    Store.DeletedLevels(w.pick.level, w.pick.in0, w.pick.in1, w.outputs);
  }

  lemma MoveNames(m: seq<Commit>, v: Version, counters: Counters, level: nat, f: File)
    requires ManifestOk(m, v, counters) && level + 1 < NUM_LEVELS == |v| && f in v[level]
    ensures EditOk(CompactionEdit(level, [f], [], [f])) && AddsNew(m, CompactionEdit(level, [f], [], [f]))
  {
    hide ManifestOk, Unnamed;
    FileIsNamed(m, v, counters, level, f);
    Store.DeletedLevels(level, [f], [], [f]);
  }

  // ----- the writer -----

  // A log written to its end is read whole.
  lemma WholeView(logs: map<nat, LogFile>, n: nat)
    requires n in logs && logs[n].bytes == LogBytes(logs[n].groups)
    ensures n in ViewOf(logs) && ViewOf(logs)[n] == logs[n].groups
  {
    AllReadable(logs[n].groups, logs[n].bytes);
  }

  lemma LoggedBytes(f: LogFile, g: Group)
    requires f.bytes == LogBytes(f.groups)
    ensures Logged(f, g).bytes == LogBytes(Logged(f, g).groups)
  {
    hide Logs.Emit, RecordOf, Logs.LogOf;
    var groups := f.groups + [g];
    RecordsOfPrefix(groups, |f.groups|);
    Logs.LogStep(RecordsOf(groups), |f.groups|);
    assert groups[..|f.groups|] == f.groups && RecordsOf(groups)[..|groups|] == RecordsOf(groups);
  }

  lemma LoggedView(logs: map<nat, LogFile>, n: nat, g: Group)
    requires n in logs && logs[n].bytes == LogBytes(logs[n].groups)
    ensures ViewOf(logs)[n] == logs[n].groups
    ensures ViewOf(logs[n := Logged(logs[n], g)]) == ViewOf(logs)[n := logs[n].groups + [g]]
  {
    hide LogBytes, Readable, Logged;
    LoggedBytes(logs[n], g);
    LoggedGroups(logs[n], g);
    WholeView(logs, n);
    WholeView(logs[n := Logged(logs[n], g)], n);
  }

  lemma LoggedGroups(f: LogFile, g: Group)
    ensures Logged(f, g).groups == f.groups + [g]
  {
  }

  lemma LoggedFiles(logs: map<nat, LogFile>, n: nat, g: Group)
    requires LogFilesOk(logs) && n in logs && logs[n].bytes == LogBytes(logs[n].groups) && GroupOk(g)
    ensures LogFilesOk(logs[n := Logged(logs[n], g)])
  {
    hide LogBytes, Logged, GroupOk;
    LoggedBytes(logs[n], g);
    LoggedGroups(logs[n], g);
  }

  lemma AllSettled(logs: map<nat, LogFile>, n: nat, safe: nat, last: nat)
    requires CurrentLogOk(logs, n, safe, None, last, false)
    ensures n in logs && logs[n].bytes == LogBytes(logs[n].groups) && n in ViewOf(logs)
    ensures ViewOf(logs)[n] == logs[n].groups && |logs[n].groups| == safe && ViewOf(logs)[n][..safe] == ViewOf(logs)[n]
    ensures ViewOf(logs)[n := ViewOf(logs)[n][..safe]] == ViewOf(logs) && NoneAfter(ViewOf(logs), n)
  {
    WholeView(logs, n);
    hide LogBytes, Readable;
  }

  lemma AppendLogsOk(logs: map<nat, LogFile>, n: nat, g: Group, safe: nat, lo: nat, last: nat, flushed: set<Entry>)
    requires CurrentLogOk(logs, n, safe, None, last, false) && SettledOk(logs, lo, n, safe, last)
    requires LogsOk(logs, lo, flushed) && g.sn == last + 1 && GroupOk(g)
    requires forall e :: e in flushed ==> e.key.sn <= last
    ensures LogsOk(logs[n := Logged(logs[n], g)], lo, flushed)
    ensures SettledOk(logs[n := Logged(logs[n], g)], lo, n, safe, last)
  {
    hide LogBytes, Readable, Logged, GroupOk, Ordered, Older, Bounded, ViewOf, CurrentLogOk, LogFilesOk, NoneAfter,
      ManifestOk, NamingOk;
    AllSettled(logs, n, safe, last);
    LoggedView(logs, n, g);
    LoggedFiles(logs, n, g);
    var v := ViewOf(logs);
    AppendOrdered(v, n, g, lo, last, flushed);
    var v' := v[n := v[n] + [g]];
    assert v'[n][..safe] == v[n] && v'[n := v[n]] == v;
  }

  lemma AppendCurrentOk(logs: map<nat, LogFile>, n: nat, g: Group, safe: nat, last: nat)
    requires CurrentLogOk(logs, n, safe, None, last, false) && g.sn == last + 1
    ensures CurrentLogOk(logs[n := Logged(logs[n], g)], n, safe, Some(g), last, false)
  {
    LoggedBytes(logs[n], g);
    LoggedGroups(logs[n], g);
    hide LogBytes, Logged;
  }

  lemma AppendKeeps(s: State, ops: seq<WriteBatches.ByteOp>, t: State)
    requires Inv(s) && WriterStep(s, Append(ops), t)
    ensures Inv(t)
  {
    hide RecoveringOk, DownOk, CurrentLogOk, SettledOk, LogsOk, TreeOk, UpOk, Es, Upto, Onward, ViewOf, PhaseOk, WorkOk,
      GroupOk, Logged, LogBytes, ManifestOk, NamingOk;
    var g, n, v := Group(s.lastSequence + 1, ops), s.logfile, ViewOf(s.disk.logs);
    FlushedBound(s);
    AppendLogsOk(s.disk.logs, n, g, s.safe, s.disk.logNumber, s.lastSequence, s.flushed);
    AppendCurrentOk(s.disk.logs, n, g, s.safe, s.lastSequence);
    AppendView(s.disk.logs, n, g, s.safe, s.disk.logNumber, s.logNumber, s.lastSequence);
    SamePhase(s, t);
  }

  lemma FlushedBound(s: State)
    requires DiskOk(s)
    ensures forall e :: e in s.flushed ==> e.key.sn <= s.disk.lastSequence
  {
  }

  // What an append changes of the entries in the logs.
  lemma AppendView(logs: map<nat, LogFile>, n: nat, g: Group, safe: nat, lo: nat, lo': nat, last: nat)
    requires CurrentLogOk(logs, n, safe, None, last, false)
    ensures var v, v' := ViewOf(logs), ViewOf(logs[n := Logged(logs[n], g)]);
      && Upto(v', lo, n, safe) == Upto(v, lo, n, safe) && Onward(v', n, 0) == Onward(v, n, 0) + Es(g)
      && Upto(v', lo', n, 0) == Upto(v, lo', n, 0)
  {
    LoggedView(logs, n, g);
    hide Upto, Onward, Es, Logged, LogBytes;
    AppendGroup(ViewOf(logs), n, g, lo, n, safe);
    AppendGroup(ViewOf(logs), n, g, lo', n, 0);
  }

  // A step of the writer leaves the background thread where it was.
  lemma SamePhase(s: State, t: State)
    requires PhaseOk(s) && t.phase == s.phase && t.imm == s.imm && t.pending == s.pending && t.live == s.live
    requires t.compaction == s.compaction && t.nextFile >= s.nextFile && t.current == s.current
    requires t.logNumber == s.logNumber
    requires t.disk.tables == s.disk.tables && t.disk.nextFile == s.disk.nextFile
    requires t.disk.lastSequence == s.disk.lastSequence && t.lastSequence >= s.lastSequence
    requires t.logfile == s.logfile || s.imm == None
    ensures PhaseOk(t)
  {
    hide Below, VersionOk, Catalogued, OnDisk, Flushed, FileOk, NoneMeets, CompactionRecordOk, MoveRecordOk,
      RemovingOk, VersionEntries;
  }

  lemma InsertKeeps(s: State, t: State)
    requires Inv(s) && WriterStep(s, InsertGroup, t)
    ensures Inv(t)
  {
    hide RecoveringOk, DownOk, CurrentLogOk, SettledOk, LogsOk, TreeOk, UpOk, Es, Upto, Onward, ViewOf, PhaseOk, WorkOk,
      ImmOk, ManifestOk, NamingOk;
    if !s.stuck {
      SamePhase(s, t);
    }
  }

  lemma WorkLater(w: Work, current: Version, live: set<Version>, pending: set<nat>, tables: map<nat, seq<Entry>>,
      last: nat, last': nat)
    requires WorkOk(w, current, live, pending, tables, last) && last <= last'
    ensures WorkOk(w, current, live, pending, tables, last')
  {
    hide PickOk, Flushes, FreshNumbers;
  }

  lemma SettledMore(v: View, n: nat, safe: nat, g: Group, lo: nat, last: nat)
    requires n in v && |v[n]| == safe + 1 && v[n][safe] == g && g.sn == last + 1
    requires Bounded(v[n := v[n][..safe]], lo, last)
    ensures v[n][..safe + 1] == v[n] && v[n := v[n][..safe + 1]] == v && Bounded(v, lo, last + |g.ops|)
  {
    assert v[n][..safe + 1] == v[n] && v[n := v[n]] == v;
    var settled := v[n := v[n][..safe]];
    forall m, j | m in v && lo <= m && 0 <= j < |v[m]| ensures LastOf(v[m][j]) <= last + |g.ops| {
      if m != n || j < safe {
        assert v[m][j] == settled[m][j];
      }
    }
  }

  lemma InFlight(logs: map<nat, LogFile>, n: nat, safe: nat, g: Group, last: nat, bgError: bool)
    requires CurrentLogOk(logs, n, safe, Some(g), last, bgError)
    ensures n in logs && n in ViewOf(logs) && ViewOf(logs)[n] == logs[n].groups && |logs[n].groups| == safe + 1
    ensures logs[n].groups[safe] == g && g.sn == last + 1 && NoneAfter(ViewOf(logs), n)
    ensures CurrentLogOk(logs, n, safe + 1, None, last + |g.ops|, bgError)
  {
    WholeView(logs, n);
    hide LogBytes, Readable;
  }

  // The group in flight becomes settled.
  lemma GroupSettles(logs: map<nat, LogFile>, n: nat, safe: nat, g: Group, lo: nat, last: nat, bgError: bool)
    requires CurrentLogOk(logs, n, safe, Some(g), last, bgError) && SettledOk(logs, lo, n, safe, last) && lo <= n
    ensures SettledOk(logs, lo, n, safe + 1, last + |g.ops|)
    ensures CurrentLogOk(logs, n, safe + 1, None, last + |g.ops|, bgError)
    ensures Upto(ViewOf(logs), lo, n, safe + 1) == Upto(ViewOf(logs), lo, n, safe) + Es(g)
  {
    hide LogBytes, Readable, Upto, Onward, Es, ViewOf, Bounded, CurrentLogOk, ManifestOk, NamingOk;
    InFlight(logs, n, safe, g, last, bgError);
    OneGroup(ViewOf(logs), lo, n, safe);
    SettledMore(ViewOf(logs), n, safe, g, lo, last);
  }

  lemma AckKeeps(s: State, t: State)
    requires Inv(s) && WriterStep(s, Acknowledge, t)
    ensures Inv(t)
  {
    hide RecoveringOk, DownOk, CurrentLogOk, SettledOk, LogsOk, TreeOk, UpOk, Es, Upto, Onward, ViewOf, PhaseOk, WorkOk,
      ImmOk, MemOk, ManifestOk, NamingOk;
    GroupSettles(s.disk.logs, s.logfile, s.safe, s.inflight.value, s.disk.logNumber, s.lastSequence, s.bgError);
    if !s.stuck {
      SamePhase(s, t);
      if s.compaction.Some? {
        WorkLater(s.compaction.value, s.current, s.live, s.pending, s.disk.tables, s.lastSequence, t.lastSequence);
      }
    }
  }

  lemma GroupDies(logs: map<nat, LogFile>, n: nat, safe: nat, g: Group, lo: nat, last: nat, bgError: bool)
    requires CurrentLogOk(logs, n, safe, Some(g), last, bgError) && SettledOk(logs, lo, n, safe, last)
    ensures SettledOk(logs, lo, n, safe, last + |g.ops|) && CurrentLogOk(logs, n, safe, None, last + |g.ops|, true)
  {
    hide LogBytes, Readable, LastOf;
  }

  lemma FailSyncKeeps(s: State, t: State)
    requires Inv(s) && WriterStep(s, FailSync, t)
    ensures Inv(t)
  {
    hide RecoveringOk, DownOk, CurrentLogOk, SettledOk, LogsOk, TreeOk, UpOk, Es, Upto, Onward, ViewOf, PhaseOk, WorkOk,
      ImmOk, MemOk, ManifestOk, NamingOk;
    GroupDies(s.disk.logs, s.logfile, s.safe, s.inflight.value, s.disk.logNumber, s.lastSequence, s.bgError);
    if !s.stuck {
      SamePhase(s, t);
      if s.compaction.Some? {
        WorkLater(s.compaction.value, s.current, s.live, s.pending, s.disk.tables, s.lastSequence, t.lastSequence);
      }
    }
  }

  lemma EmptyLog()
    ensures LogBytes([]) == [] && GroupsOk([]) && Readable([], []) == []
  {
    hide Logs.Emit;
  }

  lemma NewLogView(logs: map<nat, LogFile>, m: nat)
    ensures ViewOf(logs[m := LogFile([], [])]) == ViewOf(logs)[m := []]
    ensures LogFilesOk(logs) ==> LogFilesOk(logs[m := LogFile([], [])])
  {
    EmptyLog();
    hide LogBytes, Readable, GroupsOk;
  }

  lemma NewLogSets(v: View, m: nat)
    requires forall n :: n in v ==> n < m
    ensures forall k: nat, i: nat :: Onward(v[m := []], k, i) == Onward(v, k, i)
    ensures forall a: nat, k: nat, i: nat :: Upto(v[m := []], a, k, i) == Upto(v, a, k, i)
    ensures forall a: nat :: Upto(v[m := []], a, m, 0) == Onward(v, a, 0)
    ensures Onward(v[m := []], m, 0) == {}
  {
    hide Onward, Upto;
    forall a: nat, k: nat, i: nat
      ensures Onward(v[m := []], k, i) == Onward(v, k, i) && Upto(v[m := []], a, k, i) == Upto(v, a, k, i)
      ensures Upto(v[m := []], a, m, 0) == Onward(v, a, 0) && Onward(v[m := []], m, 0) == {}
    {
      NewLog(v, m, a, k, i);
    }
    NewLog(v, m, 0, 0, 0);
  }

  lemma NewLogCurrent(logs: map<nat, LogFile>, m: nat, last: nat, bgError: bool)
    requires forall n :: n in logs ==> n < m
    ensures CurrentLogOk(logs[m := LogFile([], [])], m, 0, None, last, bgError)
  {
    EmptyLog();
    hide LogBytes;
  }

  lemma NewLogSettled(v: View, m: nat, lo: nat, last: nat)
    ensures v[m := []][m][..0] == [] && (Bounded(v, lo, last) ==> Bounded(v[m := []], lo, last))
    ensures v[m := []] == (v[m := []])[m := []]
  {
    hide LastOf;
  }

  // A new log, numbered past all others, takes nothing from what is there.
  lemma NewLogOk(logs: map<nat, LogFile>, m: nat, lo: nat, flushed: set<Entry>, last: nat, bgError: bool)
    requires LogsOk(logs, lo, flushed) && forall n :: n in logs ==> n < m
    ensures var logs' := logs[m := LogFile([], [])];
      && LogsOk(logs', lo, flushed) && CurrentLogOk(logs', m, 0, None, last, bgError)
      && (Bounded(ViewOf(logs), lo, last) ==> SettledOk(logs', lo, m, 0, last))
      && ViewOf(logs') == ViewOf(logs)[m := []] && forall n :: n in ViewOf(logs) ==> n < m
  {
    hide LogBytes, Readable, GroupsOk, Ordered, Older, Bounded, LogFilesOk, CurrentLogOk;
    NewLogView(logs, m);
    NewLogCurrent(logs, m, last, bgError);
    NewLogSettled(ViewOf(logs), m, lo, last);
    NewLogKeeps(ViewOf(logs), m, lo, last, flushed);
  }

  lemma UpMore(current: Version, live: set<Version>, pending: set<nat>, tables: map<nat, seq<Entry>>, n: nat, n': nat)
    requires UpOk(current, live, pending, tables, n) && n <= n'
    ensures UpOk(current, live, pending, tables, n')
  {
    hide OnDisk;
  }

  // With no immutable memtable no flush is under way.
  lemma PhaseAfterSwitch(s: State, t: State)
    requires PhaseOk(s) && WriterStep(s, SwitchMemtable, t)
    ensures PhaseOk(t)
  {
    hide NewNumber, VersionOk, Catalogued, OnDisk, Flushed, FileOk, NoneMeets, CompactionRecordOk, MoveRecordOk,
      RemovingOk, VersionEntries, TableOk, FlushRecordOk;
    if s.phase.Built? || (s.phase.Installing? && s.phase.what.AFlush?) {
      NoFlush(s);
    }
  }

  lemma NoFlush(s: State)
    requires PhaseOk(s) && (s.phase.Built? || (s.phase.Installing? && s.phase.what.AFlush?))
    ensures s.imm.Some?
  {
    hide NewNumber, VersionOk, Catalogued, OnDisk, Flushed, FileOk, NoneMeets, VersionEntries;
  }

  lemma SwitchKeeps(s: State, t: State)
    requires Inv(s) && WriterStep(s, SwitchMemtable, t)
    ensures Inv(t)
  {
    hide RecoveringOk, DownOk, CurrentLogOk, SettledOk, LogsOk, TreeOk, UpOk, Es, Upto, Onward, ViewOf, PhaseOk, WorkOk,
      Bounded, NoneAfter, ManifestOk, NamingOk;
    var logs, n, m := s.disk.logs, s.logfile, s.nextFile;
    AllBounded(logs, n, s.safe, s.disk.logNumber, s.lastSequence);
    NewLogOk(logs, m, s.disk.logNumber, s.flushed, s.lastSequence, s.bgError);
    NewLogSets(ViewOf(logs), m);
    Split(ViewOf(logs), s.disk.logNumber, n, s.safe);
    Split(ViewOf(logs), s.logNumber, n, 0);
    UpMore(s.current, s.live, s.pending, s.disk.tables, s.nextFile, t.nextFile);
    PhaseAfterSwitch(s, t);
    NamingMore(s.disk.manifest, s.phase, OutputsOf(s.compaction), s.nextFile, t.nextFile);
  }

  lemma AllBounded(logs: map<nat, LogFile>, n: nat, safe: nat, lo: nat, last: nat)
    requires CurrentLogOk(logs, n, safe, None, last, false) && SettledOk(logs, lo, n, safe, last)
    ensures Bounded(ViewOf(logs), lo, last) && forall k :: k in logs ==> k <= n
  {
    hide Bounded, ViewOf, LogBytes, ManifestOk, NamingOk;
    AllSettled(logs, n, safe, last);
  }

  // ----- flushes -----

  lemma OutputsBelow(s: State)
    requires s.compaction.Some? ==>
      WorkOk(s.compaction.value, s.current, s.live, s.pending, s.disk.tables, s.lastSequence)
    requires UpOk(s.current, s.live, s.pending, s.disk.tables, s.nextFile)
    ensures forall f :: f in OutputsOf(s.compaction) ==> f.number < s.nextFile && f.number in s.pending
  {
    hide PickOk, Flushes, FreshNumbers, OnDisk, Below;
  }

  lemma StartFlushKeeps(s: State, t: State)
    requires Inv(s) && FlushStep(s, StartFlush, t)
    ensures Inv(t)
  {
    hide RecoveringOk, DownOk, CurrentLogOk, SettledOk, LogsOk, TreeOk, Es, Upto, Onward, ViewOf, ImmOk, MemOk, PickOk,
      Flushes, FreshNumbers, OnDisk, Below, ManifestOk, NamingOk;
    OutputsBelow(s);
    NamingBuilds(s.disk.manifest, OutputsOf(s.compaction), s.nextFile);
    BelowMore(s.live, s.nextFile);
  }

  lemma BelowMore(live: set<Version>, n: nat)
    ensures forall v :: v in live && Below(v, n) ==> Below(v, n + 1)
  {
  }

  lemma NewTable(v: Version, tables: map<nat, seq<Entry>>, n: nat, entries: seq<Entry>)
    requires OnDisk(v, tables) && Below(v, n)
    ensures OnDisk(v, tables[n := entries])
  {
  }

  lemma TreeOnDisk(v: Version, tables: map<nat, seq<Entry>>, tables': map<nat, seq<Entry>>, nextFile: nat, last: nat,
      flushed: set<Entry>, horizon: nat, spoiled: iset<Point>)
    requires TreeOk(v, tables, nextFile, last, flushed, horizon, spoiled) && OnDisk(v, tables')
    ensures TreeOk(v, tables', nextFile, last, flushed, horizon, spoiled)
  {
    hide VersionOk, Catalogued, OnDisk, VersionEntries, Store.Decided, Store.ReadsMatch, Distinct;
  }

  lemma TableBuilt(n: nat, size: nat, entries: seq<Entry>)
    requires Sorted(entries) && entries != []
    ensures FileOk(TableOf(n, size, entries))
  {
  }

  lemma NewTableUp(current: Version, live: set<Version>, pending: set<nat>, tables: map<nat, seq<Entry>>,
      nextFile: nat,
      n: nat, entries: seq<Entry>)
    requires UpOk(current, live, pending, tables, nextFile) && forall v :: v in live ==> Below(v, n)
    ensures UpOk(current, live, pending, tables[n := entries], nextFile) && OnDisk(current, tables[n := entries])
  {
    hide OnDisk, Below;
    forall v | v in live ensures OnDisk(v, tables[n := entries]) {
      NewTable(v, tables, n, entries);
    }
  }

  lemma NewTableWork(w: Work, current: Version, live: set<Version>, pending: set<nat>, tables: map<nat, seq<Entry>>,
      last: nat, n: nat, entries: seq<Entry>)
    requires WorkOk(w, current, live, pending, tables, last) && forall f :: f in w.outputs ==> f.number < n
    ensures WorkOk(w, current, live, pending - {n}, tables[n := entries], last)
    ensures WorkOk(w, current, live, pending - {n}, tables, last)
  {
    hide PickOk, Flushes, FreshNumbers;
  }

  lemma UpFewer(current: Version, live: set<Version>, pending: set<nat>, tables: map<nat, seq<Entry>>, n: nat,
      pending': set<nat>)
    requires UpOk(current, live, pending, tables, n) && pending' <= pending
    ensures UpOk(current, live, pending', tables, n)
  {
    hide OnDisk, Below;
  }

  lemma BuildGivesUp(outputs: seq<File>, n: nat)
    requires forall f :: f in outputs ==> f.number < n
    ensures OutputNumbers(outputs) + {n} - {n} == OutputNumbers(outputs)
  {
  }

  lemma FinishBuildKeeps(s: State, level: nat, size: nat, entries: seq<Entry>, t: State)
    requires Inv(s) && FlushStep(s, FinishBuild(level, size, entries), t)
    ensures Inv(t)
  {
    hide RecoveringOk, DownOk, CurrentLogOk, SettledOk, LogsOk, TreeOk, UpOk, Es, Upto, Onward, ViewOf, ImmOk, MemOk,
      WorkOk, Below, OnDisk, NoneMeets, FileOk, Sorted, Versions.VersionEntries, ManifestOk, NamingOk, OutputNumbers;
    var n := s.phase.number;
    BuildGivesUp(OutputsOf(s.compaction), n);
    NamingBuilt(s.disk.manifest, OutputsOf(s.compaction), n, s.nextFile, t.phase.level, t.phase.table);
    UpFewer(s.current, s.live, s.pending, s.disk.tables, s.nextFile, t.pending);
    if s.compaction.Some? {
      NewTableWork(s.compaction.value, s.current, s.live, s.pending, s.disk.tables, s.lastSequence, n, entries);
    }
    if entries != [] {
      NewTableUp(s.current, s.live, t.pending, s.disk.tables, s.nextFile, n, entries);
      TreeOnDisk(s.disk.version, s.disk.tables, t.disk.tables, s.disk.nextFile, s.disk.lastSequence, s.flushed,
        s.horizon, s.spoiled);
      TableBuilt(n, size, entries);
      assert TableOk(level, t.phase.table, t.imm, t.current, t.live, OutputsOf(t.compaction), t.pending, t.disk.tables,
          t.nextFile);
    } else {
      EmptySet(entries);
      TreeFacts(s.disk.version, s.disk.tables, s.disk.nextFile, s.disk.lastSequence, s.flushed, s.horizon, s.spoiled);
    }
  }

  lemma TreeFacts(v: Version, tables: map<nat, seq<Entry>>, nextFile: nat, last: nat, flushed: set<Entry>,
      horizon: nat, spoiled: iset<Point>)
    requires TreeOk(v, tables, nextFile, last, flushed, horizon, spoiled)
    ensures |v| == NUM_LEVELS && VersionOk(v) && Catalogued(v, nextFile) && AllInOrder(v) && OnDisk(v, tables)
    ensures VersionEntries(v) <= flushed && Distinct(flushed)
    ensures Store.ReadsMatch(VersionEntries(v), flushed, horizon, spoiled)
    ensures (forall e :: e in flushed ==> e.key.sn <= last) && horizon <= last
  {
    hide VersionOk, OnDisk, VersionEntries, Store.Decided, Store.ReadsMatch, Distinct, SortedFiles;
  }

  lemma EmptySet(entries: seq<Entry>)
    requires entries == []
    ensures ToSet(entries) == {}
  {
  }

  lemma ErrorKeepsLog(logs: map<nat, LogFile>, n: nat, safe: nat, inflight: Option<Group>, last: nat, bgError: bool)
    requires CurrentLogOk(logs, n, safe, inflight, last, bgError)
    ensures CurrentLogOk(logs, n, safe, inflight, last, true)
  {
    hide LogBytes;
  }

  lemma FailFlushKeeps(s: State, t: State)
    requires Inv(s) && FlushStep(s, FailFlush, t)
    ensures Inv(t)
  {
    hide RecoveringOk, DownOk, CurrentLogOk, SettledOk, LogsOk, TreeOk, UpOk, Es, Upto, Onward, ViewOf, ImmOk, MemOk,
      WorkOk, Below, TableOk, ManifestOk, NamingOk;
    ErrorKeepsLog(s.disk.logs, s.logfile, s.safe, s.inflight, s.lastSequence, s.bgError);
    NamingRests(s.disk.manifest, s.phase, OutputsOf(s.compaction), s.nextFile, t.phase, OutputsOf(s.compaction));
    UpFewer(s.current, s.live, s.pending, s.disk.tables, s.nextFile, t.pending);
    if s.compaction.Some? && s.phase.Building? {
      NewTableWork(s.compaction.value, s.current, s.live, s.pending, s.disk.tables, s.lastSequence, s.phase.number,
        []);
    }
  }

  lemma CataloguedBelow(v: Version, nextFile: nat, n: nat)
    requires Catalogued(v, nextFile) && Below(v, n)
    ensures Catalogued(v, n)
  {
    hide SortedFiles;
  }

  lemma ClearAbove(v: Version, level: nat, f: File)
    requires VersionOk(v) && FileOk(f) && level < |v| == NUM_LEVELS
    requires level == 0 || forall l :: 0 <= l <= level ==> NoneMeets(v[l], f.smallest.user, f.largest.user)
    ensures forall l :: 0 <= l < level ==> Elsewhere(v[l], f)
  {
    LevelsOk(v);
    hide VersionOk, FilesOk, Disjoint, FileOk, NoneMeets, Elsewhere;
    forall l | 0 <= l < level ensures Elsewhere(v[l], f) {
      NoneMeetsElsewhere(v[l], f);
    }
  }

  lemma CataloguedFacts(v: Version, nextFile: nat)
    requires Catalogued(v, nextFile)
    ensures |v| == NUM_LEVELS && AllInOrder(v) && Below(v, nextFile)
  {
    hide SortedFiles;
  }

  lemma EditedInOrder(v: Version, e: Edit, after: Version)
    requires Edited(v, e, after)
    ensures |v| == |after| == NUM_LEVELS && AllInOrder(after)
  {
    hide SortedFiles, Step;
  }

  // The edit of a flush makes a version that keeps the level invariant.
  lemma FlushMakes(v: Version, nextFile: nat, level: nat, f: File, after: Version)
    requires VersionOk(v) && Catalogued(v, nextFile) && Below(v, f.number) && FileOk(f) && level <= 2
    requires level == 0 ||
      (|v| == NUM_LEVELS && forall l :: 0 <= l <= level ==> NoneMeets(v[l], f.smallest.user, f.largest.user))
    requires Distinct(ToSet(f.entries)) && NewerThan(ToSet(f.entries), VersionEntries(v))
    requires Edited(v, FlushEdit(level, f), after)
    ensures Flushed(v, level, f, after) && VersionOk(after) && Catalogued(after, f.number + 1)
    ensures VersionEntries(after) == VersionEntries(v) + ToSet(f.entries)
    ensures |v| == |after| == NUM_LEVELS
    ensures forall l, g :: 0 <= l < NUM_LEVELS ==> (g in after[l] <==> g in v[l] || (l == level && g == f))
  {
    hide VersionOk, Catalogued, FileOk, Distinct, NewerThan, VersionEntries, Edited, NoneMeets, SortedFiles,
      FlushEdit, Elsewhere;
    CataloguedBelow(v, nextFile, f.number);
    CataloguedFacts(v, f.number);
    EditFlushes(v, f.number, level, f, after);
    EditedInOrder(v, FlushEdit(level, f), after);
    ClearAbove(v, level, f);
    assert FlushOk(Flush(v, level, f, after));
    FlushKeepsInvariant(Flush(v, level, f, after));
  }

  lemma FlushOnDisk(v: Version, after: Version, level: nat, f: File, tables: map<nat, seq<Entry>>)
    requires OnDisk(v, tables) && f.number in tables && tables[f.number] == f.entries && |v| == |after| == NUM_LEVELS
    requires forall l, g :: 0 <= l < NUM_LEVELS ==> (g in after[l] <==> g in v[l] || (l == level && g == f))
    ensures OnDisk(after, tables)
  {
  }

  lemma EmptyEdit(v: Version, nextFile: nat, after: Version)
    requires Catalogued(v, nextFile) && Edited(v, Edit({}, []), after)
    ensures after == v
  {
    EditedInOrder(v, Edit({}, []), after);
    hide SortedFiles;
    forall l | 0 <= l < NUM_LEVELS ensures after[l] == v[l] {
      forall f ensures f in after[l] <==> f in v[l] {
        assert f in after[l] <==> f in Step(FilesOf(v[l]), Edit({}, []), l);
      }
      ListIsUnique(after[l], v[l]);
    }
  }

  // The immutable memtable is newer than every table and older than the logs
  // from the current one on.
  lemma ImmFacts(s: State)
    requires DiskOk(s) && RunningOk(s) && !s.stuck
    ensures Before(VersionEntries(s.disk.version), ImmSet(s.imm)) && Before(s.flushed, ImmSet(s.imm))
    ensures Distinct(ImmSet(s.imm)) && Older(ImmSet(s.imm), ViewOf(s.disk.logs), s.logfile)
    ensures forall e :: e in ImmSet(s.imm) ==> e.key.sn <= s.lastSequence
    ensures s.disk.logNumber == s.logNumber <= s.logfile
    ensures Ordered(ViewOf(s.disk.logs), s.logfile) && Older(s.flushed, ViewOf(s.disk.logs), s.logfile)
  {
    hide TreeOk, UpOk, CurrentLogOk, MemOk, PhaseOk, WorkOk, ViewOf, Ordered, Older, Onward, Upto, Bounded, LogFilesOk,
      ManifestOk, NamingOk;
    var v := ViewOf(s.disk.logs);
    TreeFacts(s.disk.version, s.disk.tables, s.disk.nextFile, s.disk.lastSequence, s.flushed, s.horizon, s.spoiled);
    OlderBefore(s.flushed, v, s.disk.logNumber, s.logfile, 0);
    LogsDistinct(v, s.disk.logNumber);
    Split(v, s.disk.logNumber, s.logfile, 0);
    DistinctSubset(Upto(v, s.logNumber, s.logfile, 0), Onward(v, s.disk.logNumber, 0));
    UptoOlder(v, s.disk.logNumber, s.logfile);
    SettledEntries(v, s.logfile, s.safe, s.disk.logNumber, s.lastSequence);
    Narrower(v, s.disk.logNumber, s.logfile, s.flushed, 0);
  }

  lemma BeforeIsNewer(a: set<Entry>, b: set<Entry>)
    requires Before(a, b)
    ensures NewerThan(b, a)
  {
  }

  lemma NotNumbered(live: set<Version>, n: nat)
    requires forall v :: v in live ==> Below(v, n)
    ensures forall v :: v in live ==> n !in NumbersOf(v)
  {
  }

  lemma InstallFlushKeeps(s: State, after: Version, t: State)
    requires Inv(s) && FlushStep(s, InstallFlush(after), t)
    ensures Inv(t)
  {
    hide RecoveringOk, DownOk, TreeOk, LogsOk, UpOk, CurrentLogOk, SettledOk, MemOk, WorkOk, ViewOf, Onward, Upto,
      ImmOk, VersionOk, Catalogued, OnDisk, VersionEntries, Edited, Flushed, FileOk, NoneMeets, Below, Older, Before,
      Distinct, NewerThan, FlushEdit, AllInOrder, ManifestOk, NamingOk;
    var d, level, table := s.disk, s.phase.level, s.phase.table;
    TreeFacts(d.version, d.tables, d.nextFile, d.lastSequence, s.flushed, s.horizon, s.spoiled);
    ImmFacts(s);
    if table.Some? {
      var f := table.value;
      BeforeIsNewer(VersionEntries(d.version), ImmSet(s.imm));
      CurrentIsLive(s.current, s.live, s.pending, d.tables, s.nextFile);
      assert Below(s.current, f.number);
      FlushMakes(s.current, d.nextFile, level, f, after);
      FlushOnDisk(s.current, after, level, f, d.tables);
      CataloguedMore(after, f.number + 1, s.nextFile);
      NotNumbered(s.live, f.number);
    } else {
      EmptyEdit(s.current, d.nextFile, after);
      CataloguedMore(after, d.nextFile, s.nextFile);
    }
    CataloguedFacts(after, s.nextFile);
    FlushNames(s.disk.manifest, s.phase, OutputsOf(s.compaction), s.nextFile, level, table);
    NamingInstalls(s.disk.manifest, s.current, CountersOf(d), s.phase, OutputsOf(s.compaction), s.nextFile,
      AFlush(level, table), t.phase.record);
  }

  lemma CurrentIsLive(current: Version, live: set<Version>, pending: set<nat>, tables: map<nat, seq<Entry>>,
      nextFile: nat)
    requires UpOk(current, live, pending, tables, nextFile)
    ensures current in live && OnDisk(current, tables) && Below(current, nextFile)
  {
    hide OnDisk, Below;
  }

  // ----- compactions -----

  lemma NoOutputs(v: Version)
    ensures FreshNumbers(v, [])
  {
  }

  lemma StartCompactionKeeps(s: State, pick: Pick, t: State)
    requires Inv(s) && CompactionStep(s, StartCompaction(pick), t)
    ensures Inv(t)
  {
    hide RecoveringOk, DownOk, TreeOk, LogsOk, UpOk, CurrentLogOk, SettledOk, MemOk, ViewOf, Onward, Upto, ImmOk,
      VersionOk, Catalogued, OnDisk, VersionEntries, Below, AllInOrder, Picked, Sorted, FreshNumbers, ManifestOk,
      NamingOk;
    var d := s.disk;
    TreeFacts(d.version, d.tables, d.nextFile, d.lastSequence, s.flushed, s.horizon, s.spoiled);
    CurrentIsLive(s.current, s.live, s.pending, d.tables, s.nextFile);
    NoOutputs(s.current);
  }

  lemma MoreFresh(v: Version, outputs: seq<File>, f: File)
    requires FreshNumbers(v, outputs) && Below(v, f.number) && forall g :: g in outputs ==> g.number < f.number
    ensures FreshNumbers(v, outputs + [f])
  {
  }

  lemma OutputWork(w: Work, current: Version, live: set<Version>, pending: set<nat>, tables: map<nat, seq<Entry>>,
      last: nat, f: File)
    requires WorkOk(w, current, live, pending, tables, last) && Below(current, f.number)
    requires forall g :: g in w.outputs ==> g.number < f.number
    ensures WorkOk(w.(outputs := w.outputs + [f]), current, live, pending + {f.number}, tables[f.number := f.entries],
      last)
  {
    hide PickOk, Flushes, FreshNumbers, Below;
    MoreFresh(current, w.outputs, f);
  }

  lemma UpPending(current: Version, live: set<Version>, pending: set<nat>, tables: map<nat, seq<Entry>>, n: nat)
    requires UpOk(current, live, pending, tables, n)
    ensures UpOk(current, live, pending + {n}, tables, n + 1)
  {
    hide OnDisk;
  }

  lemma LiveBelow(current: Version, live: set<Version>, pending: set<nat>, tables: map<nat, seq<Entry>>, nextFile: nat)
    requires UpOk(current, live, pending, tables, nextFile)
    ensures forall v :: v in live ==> Below(v, nextFile)
  {
    hide OnDisk, Below;
  }

  lemma BuildOutputKeeps(s: State, f: File, t: State)
    requires Inv(s) && CompactionStep(s, BuildOutput(f), t)
    ensures Inv(t)
  {
    hide RecoveringOk, DownOk, TreeOk, LogsOk, UpOk, CurrentLogOk, SettledOk, MemOk, WorkOk, ViewOf, Onward, Upto,
      ImmOk, OnDisk, Below, ManifestOk, NamingOk;
    var d, w := s.disk, s.compaction.value;
    OutputsBelow(s);
    NamingBuilds(s.disk.manifest, w.outputs, s.nextFile);
    CurrentIsLive(s.current, s.live, s.pending, d.tables, s.nextFile);
    LiveBelow(s.current, s.live, s.pending, d.tables, s.nextFile);
    OutputWork(w, s.current, s.live, s.pending, d.tables, s.lastSequence, f);
    NewTableUp(s.current, s.live, s.pending, d.tables, s.nextFile, s.nextFile, f.entries);
    UpPending(s.current, s.live, s.pending, t.disk.tables, s.nextFile);
    TreeOnDisk(d.version, d.tables, t.disk.tables, d.nextFile, d.lastSequence, s.flushed, s.horizon, s.spoiled);
  }

  lemma AbandonKeeps(s: State, t: State)
    requires Inv(s) && CompactionStep(s, AbandonCompaction, t)
    ensures Inv(t)
  {
    hide RecoveringOk, DownOk, TreeOk, LogsOk, UpOk, CurrentLogOk, SettledOk, MemOk, WorkOk, ViewOf, Onward, Upto,
      ImmOk, OnDisk, Below, ManifestOk, NamingOk;
    ErrorKeepsLog(s.disk.logs, s.logfile, s.safe, s.inflight, s.lastSequence, s.bgError);
    NamingRests(s.disk.manifest, s.phase, OutputsOf(s.compaction), s.nextFile, t.phase, []);
    UpFewer(s.current, s.live, s.pending, s.disk.tables, s.nextFile, t.pending);
  }

  lemma WorkFacts(w: Work, current: Version, live: set<Version>, pending: set<nat>, tables: map<nat, seq<Entry>>,
      last: nat)
    requires WorkOk(w, current, live, pending, tables, last)
    ensures PickOk(w.pick) && w.pick.before in live
    ensures w.pick.smallestSnapshot <= last && Flushes(w.pick.before, w.flushed, current)
    ensures FreshNumbers(current, w.outputs)
    ensures forall f :: f in w.outputs ==> f.number in pending && f.number in tables && tables[f.number] == f.entries
  {
  }

  // The inputs are still there after the flushes.
  lemma InputsStay(w: Work, current: Version)
    requires PickOk(w.pick) && Flushes(w.pick.before, w.flushed, current)
    ensures w.pick.level + 1 < NUM_LEVELS == |current|
    ensures forall f :: f in w.pick.in0 ==> f in current[w.pick.level]
    ensures forall f :: f in w.pick.in1 ==> f in current[w.pick.level + 1]
  {
    hide VersionOk, AllInOrder, Flushes, PickOk, VersionEntries, NewerThan, Distinct;
    PickFacts(w.pick);
    FlushesKeep(w.pick.before, w.flushed, current);
  }

  lemma OutputsOnDisk(v: Version, level: nat, in0: Level, in1: Level, outputs: seq<File>, after: Version,
      tables: map<nat, seq<Entry>>)
    requires OnDisk(v, tables) && Replaced(v, level, in0, in1, outputs, after)
    requires forall f :: f in outputs ==> f.number in tables && tables[f.number] == f.entries
    ensures OnDisk(after, tables)
  {
    hide SortedFiles;
    forall l, f | 0 <= l < |after| && f in after[l] ensures f.number in tables && tables[f.number] == f.entries {
      WhereFrom(v, level, in0, in1, outputs, after, l, f);
    }
  }

  // The edit of a compaction replaces its inputs by its outputs, whatever was
  // flushed meanwhile.
  lemma CompactionIsLate(w: Work, current: Version, nextFile: nat, after: Version)
    requires PickOk(w.pick) && Flushes(w.pick.before, w.flushed, current)
    requires FreshNumbers(current, w.outputs) && Outputs(w.pick, w.outputs) && Catalogued(current, nextFile)
    requires forall f :: f in w.outputs ==> f.number < nextFile
    requires Edited(current, EditOf(w), after)
    ensures LateOk(LateOf(w, current, after)) && Catalogued(after, nextFile)
    ensures Replaced(current, w.pick.level, w.pick.in0, w.pick.in1, w.outputs, after)
  {
    hide VersionOk, Catalogued, FreshNumbers, Outputs, PickOk, Flushes, Edited, CompactionEdit, Replaced, SortedFiles;
    var p := w.pick;
    InputsStay(w, current);
    EditReplaces(current, nextFile, p.level, p.in0, p.in1, w.outputs, after);
    EditedInOrder(current, CompactionEdit(p.level, p.in0, p.in1, w.outputs), after);
    ReplacedCatalogued(current, p.level, p.in0, p.in1, w.outputs, after, nextFile);
  }

  // Installing the outputs over the current version keeps the level invariant
  // exactly when no table flushed to the output level meets one of them, and in
  // any case the reads of every user key that is not uncovered.
  lemma CompactionMakes(w: Work, current: Version, nextFile: nat, after: Version)
    requires PickOk(w.pick) && Flushes(w.pick.before, w.flushed, current)
    requires FreshNumbers(current, w.outputs) && Outputs(w.pick, w.outputs) && Catalogued(current, nextFile)
    requires forall f :: f in w.outputs ==> f.number < nextFile
    requires Edited(current, EditOf(w), after)
    ensures VersionOk(after) <==> Clear(LateOf(w, current, after))
    ensures Catalogued(after, nextFile) && VersionEntries(after) <= VersionEntries(current)
    ensures Store.ReadsMatch(VersionEntries(after), VersionEntries(current), w.pick.smallestSnapshot,
      SpoiledBy(w.pick, w.flushed))
    ensures Replaced(current, w.pick.level, w.pick.in0, w.pick.in1, w.outputs, after)
  {
    hide VersionOk, Catalogued, FreshNumbers, Outputs, PickOk, Flushes, Edited, EditOf, Replaced, VersionEntries,
      Store.Decided, Store.ReadsMatch, SpoiledBy, Clear, LateOk;
    CompactionIsLate(w, current, nextFile, after);
    InstallOverFlushes(LateOf(w, current, after));
    LateSubset(LateOf(w, current, after));
    LateReads(LateOf(w, current, after));
  }

  // What the store picks by itself may always be installed.
  lemma GaplessMayInstall(s: State, after: Version)
    requires Inv(s) && s.mode == Running && !s.stuck && s.phase == Resting && s.compaction.Some?
    requires var w := s.compaction.value;
      Gapless(w.pick.in0 + w.pick.in1) && Outputs(w.pick, w.outputs) && Edited(s.current, EditOf(w), after)
    ensures CompactionStep(s, InstallCompaction(after),
              s.(phase := Installing(ACompaction, RecordNow(s, EditOf(s.compaction.value), after, s.logNumber))))
  {
    hide RecoveringOk, DownOk, TreeOk, LogsOk, UpOk, CurrentLogOk, SettledOk, MemOk, WorkOk, ViewOf, Onward, Upto,
      ImmOk, Catalogued, Edited, Gapless, PickOk, Flushes, FreshNumbers, Outputs, LateOk, Clear, EditOf, ManifestOk,
      NamingOk, Replaced;
    var d, w := s.disk, s.compaction.value;
    TreeFacts(d.version, d.tables, d.nextFile, d.lastSequence, s.flushed, s.horizon, s.spoiled);
    WorkFacts(w, s.current, s.live, s.pending, d.tables, s.lastSequence);
    OutputsBelow(s);
    CataloguedMore(s.current, d.nextFile, s.nextFile);
    CompactionIsLate(w, s.current, s.nextFile, after);
    GaplessIsClear(LateOf(w, s.current, after));
  }

  lemma InstallCompactionKeeps(s: State, after: Version, t: State)
    requires Inv(s) && CompactionStep(s, InstallCompaction(after), t)
    ensures Inv(t)
  {
    hide RecoveringOk, DownOk, TreeOk, LogsOk, UpOk, CurrentLogOk, SettledOk, MemOk, WorkOk, ViewOf, Onward, Upto,
      ImmOk, VersionOk, Catalogued, OnDisk, VersionEntries, Edited, Below, Distinct, AllInOrder, PickOk, Flushes,
      FreshNumbers, Outputs, Replaced, Store.Decided, Store.ReadsMatch, CompactionEdit, ManifestOk, NamingOk;
    var d, w := s.disk, s.compaction.value;
    TreeFacts(d.version, d.tables, d.nextFile, d.lastSequence, s.flushed, s.horizon, s.spoiled);
    WorkFacts(w, s.current, s.live, s.pending, d.tables, s.lastSequence);
    OutputsBelow(s);
    CataloguedMore(s.current, d.nextFile, s.nextFile);
    CompactionMakes(w, s.current, s.nextFile, after);
    CataloguedFacts(after, s.nextFile);
    PickFacts(w.pick);
    CompactionNames(s.disk.manifest, s.phase, w, s.nextFile, s.current);
    NamingInstalls(s.disk.manifest, s.current, CountersOf(d), s.phase, w.outputs, s.nextFile, ACompaction,
      t.phase.record);
    OutputsOnDisk(s.current, w.pick.level, w.pick.in0, w.pick.in1, w.outputs, after, d.tables);
  }

  // Installing a trivial move.
  lemma MoveMakes(v: Version, nextFile: nat, level: nat, f: File, lo: UserKey, hi: UserKey, after: Version,
      tables: map<nat, seq<Entry>>)
    requires VersionOk(v) && Catalogued(v, nextFile) && Picked(v, level, [f], [], lo, hi) && OnDisk(v, tables)
    requires Edited(v, CompactionEdit(level, [f], [], [f]), after)
    ensures VersionOk(after) && Catalogued(after, nextFile) && VersionEntries(after) == VersionEntries(v)
    ensures OnDisk(after, tables)
  {
    MovedFileIsThere(v, level, f, lo, hi);
    EditReplaces(v, nextFile, level, [f], [], [f], after);
    EditedInOrder(v, CompactionEdit(level, [f], [], [f]), after);
    ReplacedByItself(v, level, f, after);
    hide VersionOk, Catalogued, Picked, OnDisk, Edited, Replaced, Moved, SortedFiles, VersionEntries;
    MovedCatalogued(v, nextFile, level, f, after);
    MoveKeepsEntries(v, level, f, after);
    MoveOnDisk(v, level, f, after, tables);
    Store.MoveIsSwap(v, level, f, lo, hi, after);
  }

  lemma MovedFileIsThere(v: Version, level: nat, f: File, lo: UserKey, hi: UserKey)
    requires Picked(v, level, [f], [], lo, hi)
    ensures level + 1 < NUM_LEVELS == |v| && f in v[level]
  {
    assert f in [f];
  }

  lemma MoveOnDisk(v: Version, level: nat, f: File, after: Version, tables: map<nat, seq<Entry>>)
    requires OnDisk(v, tables) && Moved(v, level, f, after)
    ensures OnDisk(after, tables)
  {
  }

  lemma InstallMoveKeeps(s: State, level: nat, f: File, lo: UserKey, hi: UserKey, after: Version, t: State)
    requires Inv(s) && CompactionStep(s, InstallMove(level, f, lo, hi, after), t)
    ensures Inv(t)
  {
    hide RecoveringOk, DownOk, TreeOk, LogsOk, UpOk, CurrentLogOk, SettledOk, MemOk, WorkOk, ViewOf, Onward, Upto,
      ImmOk, VersionOk, Catalogued, OnDisk, VersionEntries, Edited, Below, Distinct, AllInOrder, Picked,
      Store.Decided, Store.ReadsMatch, CompactionEdit, ManifestOk, NamingOk;
    var d := s.disk;
    TreeFacts(d.version, d.tables, d.nextFile, d.lastSequence, s.flushed, s.horizon, s.spoiled);
    MoveMakes(s.current, d.nextFile, level, f, lo, hi, after, d.tables);
    CataloguedMore(after, d.nextFile, s.nextFile);
    CataloguedFacts(after, s.nextFile);
    MovedFileIsThere(s.current, level, f, lo, hi);
    MoveNames(s.disk.manifest, s.current, CountersOf(d), level, f);
    NamingInstalls(s.disk.manifest, s.current, CountersOf(d), s.phase, [], s.nextFile, AMove, t.phase.record);
  }

  // ----- the end of a background step -----

  // A flush committed: its table for its logs.
  lemma TreeFlush(v: Version, tables: map<nat, seq<Entry>>, nextFile: nat, last: nat, flushed: set<Entry>,
      horizon: nat, spoiled: iset<Point>, after: Version, nextFile': nat, last': nat, es: set<Entry>)
    requires TreeOk(v, tables, nextFile, last, flushed, horizon, spoiled)
    requires VersionOk(after) && Catalogued(after, nextFile') && OnDisk(after, tables)
    requires VersionEntries(after) == VersionEntries(v) + es && Before(flushed, es) && Distinct(es)
    requires last <= last' && forall e :: e in es ==> e.key.sn <= last'
    ensures TreeOk(after, tables, nextFile', last', flushed + es, horizon, spoiled - Store.Decided(es))
  {
    hide VersionOk, Catalogued, OnDisk, VersionEntries, Store.Decided, Store.ReadsMatch, Distinct, NewerThan, Before;
    BeforeIsNewer(flushed, es);
    NewerLayer(es, flushed, VersionEntries(v), horizon, spoiled);
    assert es + flushed == flushed + es;
    DistinctUnion(es, flushed, flushed + es);
  }

  // A compaction committed: fewer entries that read the same.
  lemma TreeCompact(v: Version, tables: map<nat, seq<Entry>>, nextFile: nat, last: nat, flushed: set<Entry>,
      horizon: nat, spoiled: iset<Point>, after: Version, nextFile': nat, last': nat, smallestSnapshot: nat,
      uncovered: iset<Point>)
    requires TreeOk(v, tables, nextFile, last, flushed, horizon, spoiled)
    requires VersionOk(after) && Catalogued(after, nextFile') && OnDisk(after, tables)
    requires VersionEntries(after) <= VersionEntries(v) && last <= last' && smallestSnapshot <= last'
    requires Store.ReadsMatch(VersionEntries(after), VersionEntries(v), smallestSnapshot, uncovered)
    ensures TreeOk(after, tables, nextFile', last', flushed, Later(horizon, smallestSnapshot), spoiled + uncovered)
  {
    hide VersionOk, Catalogued, OnDisk, VersionEntries, Distinct;
    ReadsChain(VersionEntries(after), VersionEntries(v), flushed, smallestSnapshot, uncovered, horizon, spoiled);
  }

  lemma ReadsChain(a: set<Entry>, b: set<Entry>, c: set<Entry>, m: nat, r: iset<Point>, n: nat, q: iset<Point>)
    requires Store.ReadsMatch(a, b, m, r) && Store.ReadsMatch(b, c, n, q)
    ensures Store.ReadsMatch(a, c, Later(n, m), q + r)
  {
    hide Read;
    forall u, k: nat | k >= Later(n, m) && (u, k) !in q + r ensures Read(a, u, k) == Read(c, u, k) {
      assert Read(a, u, k) == Read(b, u, k);
      assert Read(b, u, k) == Read(c, u, k);
    }
  }

  lemma OlderBoth(a: set<Entry>, b: set<Entry>, v: View, lo: nat)
    requires Older(a, v, lo) && Older(b, v, lo)
    ensures Older(a + b, v, lo)
  {
  }

  lemma SettledLater(logs: map<nat, LogFile>, lo: nat, lo': nat, n: nat, safe: nat, last: nat)
    requires SettledOk(logs, lo, n, safe, last) && lo <= lo'
    ensures SettledOk(logs, lo', n, safe, last)
  {
    hide ViewOf, Bounded, ManifestOk, NamingOk;
    var v := ViewOf(logs);
    Narrower(v[n := v[n][..safe]], lo, lo', {}, last);
  }

  // The record of a flush, once it is in the MANIFEST.
  lemma FlushCommits(s: State, level: nat, table: Option<File>, r: Record)
    requires DiskOk(s) && RunningOk(s) && !s.stuck && s.phase == Installing(AFlush(level, table), r)
    ensures r.logNumber == s.logfile < r.nextFile <= s.nextFile && r.lastSequence <= s.lastSequence
    ensures TreeOk(r.after, s.disk.tables, r.nextFile, r.lastSequence, s.flushed + ImmSet(s.imm), s.horizon,
              s.spoiled - Store.Decided(ImmSet(s.imm)))
    ensures LogsOk(s.disk.logs, s.logfile, s.flushed + ImmSet(s.imm))
    ensures SettledOk(s.disk.logs, s.logfile, s.logfile, s.safe, s.lastSequence)
    ensures s.acked <= s.flushed + ImmSet(s.imm) + Upto(ViewOf(s.disk.logs), s.logfile, s.logfile, s.safe)
    ensures OnDisk(r.after, s.disk.tables) && Below(r.after, s.nextFile)
  {
    hide TreeOk, UpOk, CurrentLogOk, MemOk, WorkOk, ViewOf, Onward, Upto, VersionOk, Catalogued, OnDisk, SettledOk,
      LogFilesOk, VersionEntries, Below, Distinct, Flushed, Before, Older, Ordered, NumbersOf, ManifestOk, NamingOk;
    var d, v := s.disk, ViewOf(s.disk.logs);
    ImmFacts(s);
    TreeFlush(d.version, d.tables, d.nextFile, d.lastSequence, s.flushed, s.horizon, s.spoiled, r.after, r.nextFile,
      r.lastSequence, ImmSet(s.imm));
    OlderBoth(s.flushed, ImmSet(s.imm), v, s.logfile);
    SettledLater(d.logs, d.logNumber, s.logfile, s.logfile, s.safe, s.lastSequence);
    SplitUpto(v, d.logNumber, s.logfile, s.safe);
    CataloguedMore(r.after, r.nextFile, s.nextFile);
    CataloguedFacts(r.after, s.nextFile);
  }

  // The record of a compaction or a move.
  lemma CompactionCommits(s: State, what: What, r: Record, smallestSnapshot: nat, uncovered: iset<Point>)
    requires DiskOk(s) && RunningOk(s) && !s.stuck && s.phase == Installing(what, r) && !what.AFlush?
    requires what.ACompaction? ==>
      && s.compaction.Some? && smallestSnapshot == s.compaction.value.pick.smallestSnapshot
      && uncovered == SpoiledBy(s.compaction.value.pick, s.compaction.value.flushed)
    requires what.AMove? ==> smallestSnapshot == 0 && uncovered == iset{}
    ensures r.logNumber == s.logNumber < r.nextFile <= s.nextFile && r.lastSequence <= s.lastSequence
    ensures TreeOk(r.after, s.disk.tables, r.nextFile, r.lastSequence, s.flushed, Later(s.horizon, smallestSnapshot),
              s.spoiled + uncovered)
    ensures OnDisk(r.after, s.disk.tables) && Below(r.after, s.nextFile)
  {
    hide TreeOk, UpOk, CurrentLogOk, MemOk, WorkOk, ViewOf, Onward, Upto, VersionOk, Catalogued, OnDisk, SettledOk,
      LogsOk, VersionEntries, Below, Read, ManifestOk, NamingOk;
    var d := s.disk;
    TreeCompact(d.version, d.tables, d.nextFile, d.lastSequence, s.flushed, s.horizon, s.spoiled, r.after, r.nextFile,
      r.lastSequence, smallestSnapshot, uncovered);
    CataloguedMore(r.after, r.nextFile, s.nextFile);
    CataloguedFacts(r.after, s.nextFile);
  }

  lemma NewVersionUp(current: Version, live: set<Version>, pending: set<nat>, tables: map<nat, seq<Entry>>,
      nextFile: nat,
      after: Version)
    requires UpOk(current, live, pending, tables, nextFile) && OnDisk(after, tables) && Below(after, nextFile)
    ensures UpOk(after, live + {after}, pending, tables, nextFile)
  {
    hide OnDisk, Below;
  }

  // Releasing versions takes nothing from those that stay.
  lemma LessLive(current: Version, live: set<Version>, live': set<Version>, pending: set<nat>,
      tables: map<nat, seq<Entry>>, nextFile: nat)
    requires UpOk(current, live, pending, tables, nextFile) && live' <= live && current in live'
    ensures UpOk(current, live', pending, tables, nextFile)
  {
    hide OnDisk, Below;
  }

  lemma PickedFromLive(w: Work, current: Version, live: set<Version>, pending: set<nat>,
      tables: map<nat, seq<Entry>>, last: nat)
    requires WorkOk(w, current, live, pending, tables, last)
    ensures w.pick.before in live
  {
    hide PickOk, Flushes, FreshNumbers;
  }

  lemma LessLiveWork(w: Work, current: Version, live: set<Version>, live': set<Version>, pending: set<nat>,
      tables: map<nat, seq<Entry>>, last: nat)
    requires WorkOk(w, current, live, pending, tables, last) && w.pick.before in live'
    ensures WorkOk(w, current, live', pending, tables, last)
  {
    hide PickOk, Flushes, FreshNumbers;
  }

  // What RemoveObsoleteFiles collects is safe to delete.
  lemma CollectedOk(s: State)
    ensures PhaseOk(s.(phase := Collected(s))) && (Collected(s).Resting? || Collected(s).Removing?)
  {
    hide NumbersOf;
  }

  lemma AnotherFlush(before: Version, tables: seq<(nat, File)>, v: Version, level: nat, f: File, w: Version)
    requires Flushes(before, tables, v) && Flushed(v, level, f, w)
    ensures Flushes(before, tables + [(level, f)], w)
  {
    hide Flushed;
    var all := tables + [(level, f)];
    assert all[..|all| - 1] == tables && all[|all| - 1] == (level, f);
  }

  lemma PlusFresh(v: Version, level: nat, f: File, w: Version, outputs: seq<File>)
    requires Plus(v, level, f, w) && FreshNumbers(v, outputs) && forall g :: g in outputs ==> g.number != f.number
    ensures FreshNumbers(w, outputs)
  {
    forall l, g, h | 0 <= l < |w| && h in w[l] && g in outputs ensures g.number != h.number {
      assert h in v[l] || h == f;
    }
  }

  lemma FlushedFresh(v: Version, level: nat, f: File, w: Version, outputs: seq<File>)
    requires Flushed(v, level, f, w) && FreshNumbers(v, outputs) && forall g :: g in outputs ==> g.number != f.number
    ensures FreshNumbers(w, outputs)
  {
    hide Flushed, Plus, FreshNumbers;
    FlushedOnce(v, level, f, w);
    PlusFresh(v, level, f, w, outputs);
  }

  lemma WorkAfterFlush(w: Work, current: Version, live: set<Version>, pending: set<nat>, tables: map<nat, seq<Entry>>,
      last: nat, level: nat, f: File, after: Version)
    requires WorkOk(w, current, live, pending, tables, last) && Flushed(current, level, f, after)
    requires forall g :: g in w.outputs ==> g.number != f.number
    ensures WorkOk(w.(flushed := w.flushed + [(level, f)]), after, live + {after}, pending, tables, last)
  {
    hide PickOk, Flushes, FreshNumbers, Flushed;
    AnotherFlush(w.pick.before, w.flushed, current, level, f, after);
    FlushedFresh(current, level, f, after, w.outputs);
  }

  lemma WorkSameVersion(w: Work, current: Version, live: set<Version>, pending: set<nat>, tables: map<nat,
      seq<Entry>>, last: nat)
    requires WorkOk(w, current, live, pending, tables, last)
    ensures WorkOk(w, current, live + {current}, pending, tables, last)
  {
    hide PickOk, Flushes, FreshNumbers;
  }

  lemma FinishFlushKeeps(s: State, level: nat, table: Option<File>, r: Record, released: set<Version>, t: State)
    requires Inv(s) && EndStep(s, FinishInstall(released), t) && s.phase == Installing(AFlush(level, table), r)
    ensures Inv(t)
  {
    hide RecoveringOk, DownOk, TreeOk, LogsOk, UpOk, CurrentLogOk, MemOk, WorkOk, ViewOf, Onward, Upto, VersionOk,
      Catalogued, OnDisk, SettledOk, VersionEntries, Below, Flushed, NumbersOf, Collected, RecordOk, ManifestOk,
      NamingOk;
    FlushCommits(s, level, table, r);
    NewVersionUp(s.current, s.live, s.pending, s.disk.tables, s.nextFile, r.after);
    LessLive(r.after, s.live + {r.after}, t.live, s.pending, s.disk.tables, s.nextFile);
    NothingUpto(ViewOf(s.disk.logs), s.logfile);
    var u := t.(phase := Resting);
    CollectedOk(u);
    assert t == u.(phase := Collected(u)) by {
      CollectedIs(u, t);
    }
    NamingCommits(s.disk.manifest, s.phase.what, r, OutputsOf(s.compaction), s.nextFile, OutputsOf(s.compaction),
      t.phase);
    if s.compaction.Some? {
      if table.Some? {
        WorkAfterFlush(s.compaction.value, s.current, s.live, s.pending, s.disk.tables, s.lastSequence, level,
          table.value, r.after);
      } else {
        WorkSameVersion(s.compaction.value, s.current, s.live, s.pending, s.disk.tables, s.lastSequence);
      }
      PickedFromLive(s.compaction.value, s.current, s.live, s.pending, s.disk.tables, s.lastSequence);
      LessLiveWork(t.compaction.value, t.current, s.live + {r.after}, t.live, s.pending, s.disk.tables, s.lastSequence);
    }
  }

  // Collecting does not depend on the phase.
  lemma CollectedIs(u: State, t: State)
    requires t == u.(phase := t.phase)
    ensures Collected(t) == Collected(u)
  {
    hide NumbersOf;
  }

  lemma FinishCompactionKeeps(s: State, r: Record, released: set<Version>, t: State)
    requires Inv(s) && EndStep(s, FinishInstall(released), t) && s.phase == Installing(ACompaction, r)
    ensures Inv(t)
  {
    hide RecoveringOk, DownOk, TreeOk, LogsOk, UpOk, CurrentLogOk, MemOk, WorkOk, ViewOf, Onward, Upto, VersionOk,
      Catalogued, OnDisk, SettledOk, VersionEntries, Below, Flushed, NumbersOf, Collected, RecordOk, Store.Decided,
      Store.ReadsMatch, ImmOk, ManifestOk, NamingOk;
    CompactionCommits(s, ACompaction, r, s.compaction.value.pick.smallestSnapshot,
      SpoiledBy(s.compaction.value.pick, s.compaction.value.flushed));
    NewVersionUp(s.current, s.live, s.pending, s.disk.tables, s.nextFile, r.after);
    LessLive(r.after, s.live + {r.after}, t.live, s.pending, s.disk.tables, s.nextFile);
    UpFewer(r.after, t.live, s.pending, s.disk.tables, s.nextFile, t.pending);
    var u := t.(phase := Resting);
    CollectedOk(u);
    CollectedIs(u, t);
    NamingCommits(s.disk.manifest, s.phase.what, r, OutputsOf(s.compaction), s.nextFile, [], t.phase);
  }

  lemma FinishMoveKeeps(s: State, r: Record, released: set<Version>, t: State)
    requires Inv(s) && EndStep(s, FinishInstall(released), t) && s.phase == Installing(AMove, r)
    ensures Inv(t)
  {
    hide RecoveringOk, DownOk, TreeOk, LogsOk, UpOk, CurrentLogOk, MemOk, WorkOk, ViewOf, Onward, Upto, VersionOk,
      Catalogued, OnDisk, SettledOk, VersionEntries, Below, Flushed, NumbersOf, Collected, RecordOk, ImmOk, ManifestOk,
      NamingOk;
    CompactionCommits(s, AMove, r, 0, iset{});
    NamingCommits(s.disk.manifest, s.phase.what, r, OutputsOf(s.compaction), s.nextFile, [], t.phase);
    assert s.spoiled + iset{} == s.spoiled;
    NewVersionUp(s.current, s.live, s.pending, s.disk.tables, s.nextFile, r.after);
    LessLive(r.after, s.live + {r.after}, t.live, s.pending, s.disk.tables, s.nextFile);
  }

  lemma FailInstallKeeps(s: State, written: bool, t: State)
    requires Inv(s) && EndStep(s, FailInstall(written), t)
    ensures Inv(t)
  {
    hide RecoveringOk, DownOk, TreeOk, LogsOk, UpOk, CurrentLogOk, MemOk, WorkOk, ViewOf, Onward, Upto, VersionOk,
      Catalogued, OnDisk, SettledOk, VersionEntries, Below, Flushed, NumbersOf, RecordOk, ImmOk, Store.Decided,
      Store.ReadsMatch, ManifestOk, NamingOk;
    var what, r := s.phase.what, s.phase.record;
    ErrorKeepsLog(s.disk.logs, s.logfile, s.safe, s.inflight, s.lastSequence, s.bgError);
    NamingCommits(s.disk.manifest, what, r, OutputsOf(s.compaction), s.nextFile, [], Resting);
    if written {
      match what
      case AFlush(level, table) => FlushCommits(s, level, table, r);
      case ACompaction =>
        CompactionCommits(s, what, r, s.compaction.value.pick.smallestSnapshot,
          SpoiledBy(s.compaction.value.pick, s.compaction.value.flushed));
      case AMove =>
        CompactionCommits(s, what, r, 0, iset{});
        assert s.spoiled + iset{} == s.spoiled;
    }
  }

  // ----- garbage collection -----

  lemma TableGone(v: Version, tables: map<nat, seq<Entry>>, n: nat)
    requires OnDisk(v, tables) && n !in NumbersOf(v)
    ensures OnDisk(v, tables - {n})
  {
    forall l, f | 0 <= l < |v| && f in v[l] ensures f.number in tables - {n} && (tables - {n})[f.number] == f.entries {
      assert f.number in NumbersOf(v);
    }
  }

  lemma TableGoneUp(current: Version, live: set<Version>, pending: set<nat>, tables: map<nat, seq<Entry>>,
      nextFile: nat, n: nat)
    requires UpOk(current, live, pending, tables, nextFile) && forall v :: v in live ==> n !in NumbersOf(v)
    ensures UpOk(current, live, pending, tables - {n}, nextFile) && OnDisk(current, tables - {n})
  {
    hide OnDisk, Below, NumbersOf;
    forall v | v in live ensures OnDisk(v, tables - {n}) {
      TableGone(v, tables, n);
    }
  }

  lemma TableGoneWork(w: Work, current: Version, live: set<Version>, pending: set<nat>, tables: map<nat, seq<Entry>>,
      last: nat, n: nat)
    requires WorkOk(w, current, live, pending, tables, last) && n !in pending
    ensures WorkOk(w, current, live, pending, tables - {n}, last)
  {
    hide PickOk, Flushes, FreshNumbers;
  }

  lemma RemoveTableKeeps(s: State, n: nat, t: State)
    requires Inv(s) && EndStep(s, RemoveTable(n), t)
    ensures Inv(t)
  {
    hide RecoveringOk, DownOk, TreeOk, LogsOk, UpOk, CurrentLogOk, MemOk, WorkOk, ViewOf, Onward, Upto, OnDisk,
      SettledOk, NumbersOf, ImmOk, ManifestOk, NamingOk;
    var d := s.disk;
    NamingRests(s.disk.manifest, s.phase, OutputsOf(s.compaction), s.nextFile, t.phase, OutputsOf(s.compaction));
    TableGoneUp(s.current, s.live, s.pending, d.tables, s.nextFile, n);
    TreeOnDisk(d.version, d.tables, t.disk.tables, d.nextFile, d.lastSequence, s.flushed, s.horizon, s.spoiled);
    if s.compaction.Some? {
      TableGoneWork(s.compaction.value, s.current, s.live, s.pending, d.tables, s.lastSequence, n);
    }
  }

  lemma LogGone(logs: map<nat, LogFile>, n: nat)
    ensures ViewOf(logs - {n}) == ViewOf(logs) - {n}
    ensures LogFilesOk(logs) ==> LogFilesOk(logs - {n})
  {
    hide Readable, LogBytes, GroupsOk;
  }

  // Deleting a log before all that count.
  lemma LogGoneOk(logs: map<nat, LogFile>, k: nat, lo: nat, flushed: set<Entry>, n: nat, safe: nat,
      inflight: Option<Group>, last: nat, bgError: bool)
    requires LogsOk(logs, lo, flushed) && CurrentLogOk(logs, n, safe, inflight, last, bgError)
    requires SettledOk(logs, lo, n, safe, last) && k < lo <= n
    ensures LogsOk(logs - {k}, lo, flushed) && CurrentLogOk(logs - {k}, n, safe, inflight, last, bgError)
    ensures SettledOk(logs - {k}, lo, n, safe, last) && ViewOf(logs - {k}) == ViewOf(logs) - {k}
  {
    hide Readable, LogBytes, Ordered, Older, Bounded, LogFilesOk, ViewOf, ManifestOk, NamingOk;
    LogGone(logs, k);
    DropKeeps(ViewOf(logs), k, lo, last, flushed);
    DropSettled(ViewOf(logs), k, n, safe, lo, last);
    assert (ViewOf(logs) - {k})[n] == ViewOf(logs)[n];
  }

  lemma RemoveLogKeeps(s: State, k: nat, t: State)
    requires Inv(s) && EndStep(s, RemoveLog(k), t)
    ensures Inv(t)
  {
    hide RecoveringOk, DownOk, TreeOk, LogsOk, UpOk, CurrentLogOk, WorkOk, ViewOf, Onward, Upto, OnDisk, SettledOk,
      NumbersOf, ManifestOk, NamingOk;
    var d, v := s.disk, ViewOf(s.disk.logs);
    NamingRests(s.disk.manifest, s.phase, OutputsOf(s.compaction), s.nextFile, t.phase, OutputsOf(s.compaction));
    LogGoneOk(d.logs, k, d.logNumber, s.flushed, s.logfile, s.safe, s.inflight, s.lastSequence, s.bgError);
    DropLog(v, k, d.logNumber, s.logfile, s.safe);
    DropLog(v, k, d.logNumber, s.logfile, 0);
  }

  lemma FewerLive(s: State, t: State, v: Version)
    requires PhaseOk(s) && t == s.(live := s.live - {v})
    ensures PhaseOk(t)
  {
    hide Below, VersionOk, Catalogued, OnDisk, Flushed, FileOk, NoneMeets, CompactionRecordOk, MoveRecordOk,
      VersionEntries, NumbersOf, RecordOk;
  }

  lemma DropVersionKeeps(s: State, v: Version, t: State)
    requires Inv(s) && EndStep(s, DropVersion(v), t)
    ensures Inv(t)
  {
    hide RecoveringOk, DownOk, TreeOk, LogsOk, CurrentLogOk, ViewOf, Onward, Upto, OnDisk, SettledOk, NumbersOf, ImmOk,
      MemOk, PhaseOk, Below, PickOk, Flushes, FreshNumbers, ManifestOk, NamingOk;
    if !s.stuck {
      FewerLive(s, t, v);
    }
  }

  lemma EndRemovingKeeps(s: State, t: State)
    requires Inv(s) && EndStep(s, EndRemoving, t)
    ensures Inv(t)
  {
    hide RecoveringOk, DownOk, TreeOk, LogsOk, UpOk, CurrentLogOk, WorkOk, ViewOf, Onward, Upto, SettledOk, ImmOk,
      MemOk, RemovingOk, ManifestOk, NamingOk;
    NamingRests(s.disk.manifest, s.phase, OutputsOf(s.compaction), s.nextFile, t.phase, OutputsOf(s.compaction));
  }

  // ----- crashes -----

  // What can be read of a log whose last bytes are cut off.
  lemma CutView(logs: map<nat, LogFile>, n: nat, kept: nat, safe: nat) returns (c: nat)
    requires n in logs && logs[n].bytes == LogBytes(logs[n].groups) && kept <= |logs[n].bytes|
    requires safe <= |logs[n].groups| && |LogBytes(logs[n].groups[..safe])| <= kept
    ensures safe <= c <= |logs[n].groups| && n in ViewOf(logs) && ViewOf(logs)[n] == logs[n].groups
    ensures ViewOf(logs[n := logs[n].(bytes := logs[n].bytes[..kept])]) == ViewOf(logs)[n := ViewOf(logs)[n][..c]]
    ensures c == |Readable(logs[n].bytes[..kept], logs[n].groups)|
  {
    hide LogBytes, Readable, GroupsOk;
    var f := logs[n];
    c := |Readable(f.bytes[..kept], f.groups)|;
    WholeView(logs, n);
    CutReadable(f.groups, f.bytes[..kept], safe);
    assert Readable(f.bytes[..kept], f.groups) == f.groups[..c];
    var logs' := logs[n := f.(bytes := f.bytes[..kept])];
    assert ViewOf(logs') == ViewOf(logs)[n := ViewOf(logs)[n][..c]];
  }

  lemma CutFiles(logs: map<nat, LogFile>, n: nat, kept: nat)
    requires LogFilesOk(logs) && n in logs && kept <= |logs[n].bytes|
    ensures LogFilesOk(logs[n := logs[n].(bytes := logs[n].bytes[..kept])])
  {
    hide LogBytes, GroupsOk;
    assert logs[n].bytes[..kept] <= logs[n].bytes;
  }

  lemma CurrentLogFacts(logs: map<nat, LogFile>, n: nat, safe: nat, inflight: Option<Group>, last: nat, bgError: bool)
    requires CurrentLogOk(logs, n, safe, inflight, last, bgError)
    ensures n in logs && logs[n].bytes == LogBytes(logs[n].groups) && safe <= |logs[n].groups| <= safe + 1
    ensures NoneAfter(ViewOf(logs), n) && (inflight.None? && !bgError ==> |logs[n].groups| == safe)
    ensures inflight.Some? ==> |logs[n].groups| == safe + 1 && logs[n].groups[safe] == inflight.value
  {
    hide LogBytes, Readable;
  }

  lemma CrashKeeps(s: State, kept: nat, t: State)
    requires Inv(s) && CrashStep(s, kept, t)
    ensures Inv(t)
  {
    hide TreeOk, UpOk, CurrentLogOk, WorkOk, ViewOf, Onward, Upto, SettledOk, ImmOk, MemOk, PhaseOk, Ordered, Older,
      LogFilesOk, LogBytes, ReplayOk, BuiltOk, ManifestOk, NamingOk;
    if s.mode.Running? {
      var d, n, v := s.disk, s.logfile, ViewOf(s.disk.logs);
      CurrentLogFacts(d.logs, n, s.safe, s.inflight, s.lastSequence, s.bgError);
      var c := CutView(d.logs, n, kept, s.safe);
      CutFiles(d.logs, n, kept);
      CutKeeps(v, n, c, d.logNumber, 0, s.flushed);
      CutLog(v, n, c, d.logNumber, s.safe);
      Split(ViewOf(t.disk.logs), d.logNumber, n, s.safe);
    }
  }

  // ----- recovery -----

  lemma StartRecoveryKeeps(s: State, t: State)
    requires Inv(s) && RecoveryStep(s, StartRecovery, t)
    ensures Inv(t)
  {
    hide RunningOk, TreeOk, ViewOf, Onward, Upto, Ordered, Older, LogFilesOk, VersionEntries, Catalogued, OnDisk,
      VersionOk, Before, AllInOrder, ManifestOk, NamingOk;
    var d, v := s.disk, ViewOf(s.disk.logs);
    TreeFacts(d.version, d.tables, d.nextFile, d.lastSequence, s.flushed, s.horizon, s.spoiled);
    CataloguedMore(d.version, d.nextFile, t.nextFile);
    OlderBefore(s.flushed, v, d.logNumber, d.logNumber, 0);
    BeforeFewer(VersionEntries(d.version), s.flushed, Onward(v, d.logNumber, 0));
    NothingUpto(v, d.logNumber);
    NothingBefore(VersionEntries(d.version), Onward(v, d.logNumber, 0));
  }

  lemma BeforeFewer(a: set<Entry>, a': set<Entry>, b: set<Entry>)
    requires a <= a' && Before(a', b)
    ensures Before(a, b)
  {
  }

  lemma NothingBefore(a: set<Entry>, b: set<Entry>)
    ensures Before(a, {}) && Before({}, b)
  {
  }

  lemma BeforeJoin(a: set<Entry>, a': set<Entry>, b: set<Entry>)
    requires Before(a, b) && Before(a', b)
    ensures Before(a + a', b)
  {
  }

  lemma BeforeParts(a: set<Entry>, b: set<Entry>, b': set<Entry>)
    requires Before(a, b + b')
    ensures Before(a, b) && Before(a, b')
  {
  }

  lemma BeforeBoth(a: set<Entry>, b: set<Entry>, b': set<Entry>)
    requires Before(a, b) && Before(a, b')
    ensures Before(a, b + b')
  {
  }

  lemma GroupDistinct(mem: set<Entry>, g: Group)
    requires Distinct(mem) && Before(mem, Es(g))
    ensures Distinct(mem + Es(g))
  {
    hide Es;
    forall x, y | x in mem + Es(g) && y in mem + Es(g) && x.key.sn == y.key.sn && x.key.user == y.key.user
      ensures x == y
    {
      if x in Es(g) {
        EsFacts(g, x);
      }
      if y in Es(g) {
        EsFacts(g, y);
      }
    }
  }

  lemma GroupBounded(g: Group, m: nat)
    ensures LastOf(g) <= m ==> forall e :: e in Es(g) ==> e.key.sn <= m
  {
    hide Es;
    forall e | LastOf(g) <= m && e in Es(g) ensures e.key.sn <= m {
      EsFacts(g, e);
    }
  }

  // One more group replayed.
  lemma ReplayStep(d: Disk, n: nat, i: nat, mem: set<Entry>, recovered: Version, last: nat, max: nat, max': nat)
    requires ReplayOk(d, n, i, mem, recovered, last, max) && Ordered(ViewOf(d.logs), d.logNumber) && n in d.logs
    requires i < |ViewOf(d.logs)[n]| && max <= max' && LastOf(ViewOf(d.logs)[n][i]) <= max'
    ensures ReplayOk(d, n, i + 1, mem + Es(ViewOf(d.logs)[n][i]), recovered, last, max')
  {
    hide ViewOf, Onward, Upto, Ordered, VersionEntries, Before, Es, Distinct, LastOf, ManifestOk, NamingOk;
    InView(d.logs, n);
    var v := ViewOf(d.logs);
    var g := v[n][i];
    var rec := VersionEntries(recovered);
    OneGroup(v, d.logNumber, n, i);
    BeforeParts(rec, Es(g), Onward(v, n, i + 1));
    BeforeParts(mem, Es(g), Onward(v, n, i + 1));
    UptoBeforeOnward(v, d.logNumber, n, i + 1);
    BeforeFewer(Es(g), Upto(v, d.logNumber, n, i + 1), Onward(v, n, i + 1));
    BeforeJoin(mem, Es(g), Onward(v, n, i + 1));
    BeforeBoth(rec, mem, Es(g));
    GroupDistinct(mem, g);
    GroupBounded(g, max');
    assert rec + (mem + Es(g)) == rec + mem + Es(g);
  }

  lemma ReplayKeeps(s: State, t: State)
    requires Inv(s) && RecoveryStep(s, ReplayGroup, t)
    ensures Inv(t)
  {
    hide RunningOk, TreeOk, ViewOf, Onward, Ordered, Older, LogFilesOk, BuiltOk, Es, LastOf, ReplayOk, ManifestOk,
      NamingOk;
    ReplayStep(s.disk, s.mode.log, s.mode.read, s.mem, s.recovered, s.lastSequence, s.maxSequence, t.maxSequence);
  }

  lemma InView(logs: map<nat, LogFile>, n: nat)
    requires n in logs
    ensures n in ViewOf(logs)
  {
  }

  lemma InsertedHas(files: Level, n: nat, f: File)
    requires SortedFiles(files) && f.number == n && forall g :: g in files ==> g.number < n
    ensures SortedFiles(Insert(files, f)) && forall g :: g in Insert(files, f) <==> g in files || g == f
  {
  }

  lemma InsertedTable(v: Version, nextFile: nat, f: File)
    requires Catalogued(v, nextFile) && AllInOrder(v) && f.number == nextFile
    ensures var w := v[0 := Insert(v[0], f)];
      && |w| == NUM_LEVELS && AllInOrder(w) && Catalogued(w, nextFile + 1)
      && forall l, g :: 0 <= l < NUM_LEVELS ==> (g in w[l] <==> g in v[l] || (l == 0 && g == f))
  {
    hide SortedFiles, Insert;
    InsertedHas(v[0], nextFile, f);
    var w := v[0 := Insert(v[0], f)];
    assert forall l :: 1 <= l < NUM_LEVELS ==> w[l] == v[l];
    assert forall g :: g in w[0] <==> g in v[0] || g == f;
  }

  // A spilled memtable as a table of level 0.
  lemma SpillMakes(v: Version, nextFile: nat, f: File)
    requires VersionOk(v) && Catalogued(v, nextFile) && AllInOrder(v) && f.number == nextFile && FileOk(f)
    requires Distinct(ToSet(f.entries)) && NewerThan(ToSet(f.entries), VersionEntries(v))
    ensures var w := v[0 := Insert(v[0], f)];
      && VersionOk(w) && Catalogued(w, nextFile + 1)
      && VersionEntries(w) == VersionEntries(v) + ToSet(f.entries) && |w| == NUM_LEVELS
      && forall l, g :: 0 <= l < NUM_LEVELS ==> (g in w[l] <==> g in v[l] || (l == 0 && g == f))
  {
    hide VersionOk, FileOk, Distinct, NewerThan, VersionEntries, SortedFiles, Catalogued, Insert, Below;
    var w := v[0 := Insert(v[0], f)];
    CataloguedFacts(v, nextFile);
    InsertedTable(v, nextFile, f);
    AllBelow(v, 0, nextFile);
    assert FlushOk(Flush(v, 0, f, w));
    FlushKeepsInvariant(Flush(v, 0, f, w));
  }

  lemma AllBelow(v: Version, l: nat, n: nat)
    requires Below(v, n) && l < |v|
    ensures forall g :: g in v[l] ==> g.number < n
  {
  }

  lemma SpillBuilt(current: Version, built: seq<File>, recovered: Version, tables: map<nat, seq<Entry>>,
      nextFile: nat, f: File)
    requires BuiltOk(current, built, recovered, tables, nextFile) && AllInOrder(recovered) && f.number == nextFile
    requires FileOk(f)
    requires Distinct(ToSet(f.entries)) && NewerThan(ToSet(f.entries), VersionEntries(recovered))
    ensures var w := recovered[0 := Insert(recovered[0], f)];
      && BuiltOk(current, built + [f], w, tables[f.number := f.entries], nextFile + 1)
      && VersionEntries(w) == VersionEntries(recovered) + ToSet(f.entries)
  {
    hide VersionOk, Catalogued, OnDisk, FileOk, Distinct, NewerThan, VersionEntries, SortedFiles, Below, Insert, ToSet;
    var w := recovered[0 := Insert(recovered[0], f)];
    SpillMakes(recovered, nextFile, f);
    CataloguedFacts(recovered, nextFile);
    NewTable(recovered, tables, f.number, f.entries);
    FlushOnDisk(recovered, w, 0, f, tables[f.number := f.entries]);
    forall g ensures g in w[0] <==> g in current[0] || g in built + [f] {
      assert g in w[0] <==> g in recovered[0] || g == f;
    }
    AllBelow(recovered, 0, nextFile);
  }

  lemma ReplaySpilled(d: Disk, n: nat, i: nat, mem: set<Entry>, recovered: Version, last: nat, max: nat, d': Disk,
      recovered': Version)
    requires ReplayOk(d, n, i, mem, recovered, last, max)
    requires VersionEntries(recovered') == VersionEntries(recovered) + mem
    requires d' == d.(tables := d'.tables)
    ensures ReplayOk(d', n, i, {}, recovered', last, max)
    ensures Distinct(mem) && NewerThan(mem, VersionEntries(recovered))
  {
    hide ViewOf, Onward, Upto, VersionEntries, Before, NewerThan, ManifestOk, NamingOk;
    BeforeIsNewer(VersionEntries(recovered), mem);
    BeforeJoin(VersionEntries(recovered), mem, Onward(ViewOf(d.logs), n, i));
    NothingBefore(VersionEntries(recovered'), Onward(ViewOf(d.logs), n, i));
    assert VersionEntries(recovered') + {} == VersionEntries(recovered) + mem;
  }

  lemma ReplayNewer(d: Disk, n: nat, i: nat, mem: set<Entry>, recovered: Version, last: nat, max: nat)
    requires ReplayOk(d, n, i, mem, recovered, last, max)
    ensures Distinct(mem) && NewerThan(mem, VersionEntries(recovered))
  {
    hide ViewOf, Onward, Upto, VersionEntries, ManifestOk, NamingOk;
  }

  lemma SpillKeeps(s: State, size: nat, entries: seq<Entry>, t: State)
    requires Inv(s) && RecoveryStep(s, SpillMemtable(size, entries), t)
    ensures Inv(t)
  {
    hide RunningOk, TreeOk, ViewOf, Onward, Upto, Ordered, Older, LogFilesOk, VersionEntries, BuiltOk, ReplayOk, LogsOk,
      Sorted, ToSet, AllInOrder, OnDisk, FileOk, Distinct, NewerThan, Catalogued, Below, Insert, ManifestOk, NamingOk;
    var d, f := s.disk, TableOf(s.nextFile, size, entries);
    TableBuilt(s.nextFile, size, entries);
    ReplayNewer(d, s.mode.log, s.mode.read, s.mem, s.recovered, s.lastSequence, s.maxSequence);
    SpillBuilt(s.current, s.built, s.recovered, d.tables, s.nextFile, f);
    ReplaySpilled(d, s.mode.log, s.mode.read, s.mem, s.recovered, s.lastSequence, s.maxSequence, t.disk, t.recovered);
    TreeFacts(d.version, d.tables, d.nextFile, d.lastSequence, s.flushed, s.horizon, s.spoiled);
    CataloguedMore(d.version, d.nextFile, s.nextFile);
    CataloguedFacts(d.version, s.nextFile);
    NewTable(d.version, d.tables, s.nextFile, entries);
    TreeOnDisk(d.version, d.tables, t.disk.tables, d.nextFile, d.lastSequence, s.flushed, s.horizon, s.spoiled);
  }

  lemma BuiltMore(current: Version, built: seq<File>, recovered: Version, tables: map<nat, seq<Entry>>, n: nat,
      n': nat)
    requires BuiltOk(current, built, recovered, tables, n) && n <= n'
    ensures BuiltOk(current, built, recovered, tables, n')
  {
    hide VersionOk, Catalogued, OnDisk;
    CataloguedMore(recovered, n, n');
  }

  lemma ReplaySkipped(d: Disk, n: nat, i: nat, recovered: Version, last: nat, max: nat, n': nat)
    requires ReplayOk(d, n, i, {}, recovered, last, max) && n < n'
    requires n in d.logs ==> i == |ViewOf(d.logs)[n]|
    requires forall m :: m in d.logs ==> m <= n || n' <= m
    ensures ReplayOk(d, n', 0, {}, recovered, last, max)
  {
    hide Onward, Upto, VersionEntries, Before, Readable, Distinct;
    SkipAhead(ViewOf(d.logs), d.logNumber, n, i, n');
  }

  lemma LeaveLogKeeps(s: State, next: nat, t: State)
    requires Inv(s) && RecoveryStep(s, LeaveLog(next), t)
    ensures Inv(t)
  {
    hide RunningOk, TreeOk, ViewOf, Onward, Upto, LogsOk, VersionEntries, BuiltOk, ReplayOk, ManifestOk, NamingOk;
    ReplaySkipped(s.disk, s.mode.log, s.mode.read, s.recovered, s.lastSequence, s.maxSequence, next);
    BuiltMore(s.current, s.built, s.recovered, s.disk.tables, s.nextFile, t.nextFile);
  }

  // The edit of the recovery makes the version with all its tables.
  lemma RecoveredVersion(current: Version, built: seq<File>, recovered: Version, tables: map<nat, seq<Entry>>,
      nextFile: nat,
      after: Version)
    requires BuiltOk(current, built, recovered, tables, nextFile) && Edited(current, Edit({}, Added(built, 0)), after)
    ensures after == recovered
  {
    EditedInOrder(current, Edit({}, Added(built, 0)), after);
    CataloguedFacts(recovered, nextFile);
    hide SortedFiles, VersionOk, OnDisk, Catalogued;
    var e := Edit({}, Added(built, 0));
    forall l | 0 <= l < NUM_LEVELS ensures after[l] == recovered[l] {
      forall f ensures f in after[l] <==> f in recovered[l] {
        assert f in after[l] <==> f in Step(FilesOf(current[l]), e, l);
        assert (l, f) in e.added <==> l == 0 && f in built;
        assert l > 0 ==> recovered[l] == current[l];
      }
      ListIsUnique(after[l], recovered[l]);
    }
  }

  lemma AddedAtLevel0(built: seq<File>)
    ensures EditOk(Edit({}, Added(built, 0)))
  {
  }

  // When all logs are replayed and their tables recorded, the disk is complete
  // without these logs.
  lemma OpenedOk(s: State, after: Version)
    requires DiskOk(s) && RecoveringOk(s) && MayOpen(s, after)
    ensures var d := Opened(s, after);
      && TreeOk(after, d.tables, d.nextFile, d.lastSequence, Appended(s), s.horizon,
           s.spoiled - Store.Decided(InLogs(s)))
      && d.lastSequence >= s.lastSequence && d.lastSequence >= s.maxSequence && d.nextFile == s.nextFile + 1
      && after == s.recovered && OnDisk(after, d.tables) && Below(after, s.nextFile)
      && (forall n :: n in s.disk.logs ==> n < s.nextFile)
      && ManifestOk(d.manifest, after, CountersOf(d)) && NamedBelow(d.manifest, d.nextFile)
  {
    hide NamedBelow, EditOk, Reopened, TreeOk, ViewOf, Onward, Upto, VersionEntries, OnDisk, Catalogued, Below, Edited,
      VersionOk, Before, Ordered, Older, LogFilesOk, Distinct, ManifestOk, NamingOk;
    var d, v := s.disk, ViewOf(s.disk.logs);
    RecoveredVersion(s.current, s.built, s.recovered, d.tables, s.nextFile, after);
    ViewKeys(d.logs);
    NothingOnward(v, s.mode.log, s.mode.read);
    Split(v, d.logNumber, s.mode.log, s.mode.read);
    var es := Onward(v, d.logNumber, 0);
    TreeFacts(d.version, d.tables, d.nextFile, d.lastSequence, s.flushed, s.horizon, s.spoiled);
    OlderBefore(s.flushed, v, d.logNumber, d.logNumber, 0);
    LogsDistinct(v, d.logNumber);
    CataloguedMore(after, s.nextFile, s.nextFile + 1);
    CataloguedFacts(after, s.nextFile);
    TreeFlush(d.version, d.tables, d.nextFile, d.lastSequence, s.flushed, s.horizon, s.spoiled, after, s.nextFile + 1,
      Later(s.lastSequence, s.maxSequence), es);
    AddedAtLevel0(s.built);
    ReopenedOk(s.current, d.nextFile, Edit({}, Added(s.built, 0)), after, s.nextFile + 1, CountersOf(Opened(s, after)));
  }

  lemma ViewKeys(logs: map<nat, LogFile>)
    ensures forall n :: n in ViewOf(logs) <==> n in logs
  {
  }

  // The new log on top of the old ones.
  lemma TopLogOk(logs: map<nat, LogFile>, m: nat, flushed: set<Entry>, last: nat)
    requires LogFilesOk(logs) && forall n :: n in logs ==> n < m
    ensures var logs' := logs[m := LogFile([], [])];
      && LogsOk(logs', m, flushed) && CurrentLogOk(logs', m, 0, None, last, false) && SettledOk(logs', m, m, 0, last)
      && Onward(ViewOf(logs'), m, 0) == {} && Upto(ViewOf(logs'), m, m, 0) == {}
  {
    hide LogBytes, Readable, GroupsOk, Ordered, Older, Bounded, LogFilesOk, CurrentLogOk, Onward, Upto;
    NewLogView(logs, m);
    NewLogCurrent(logs, m, last, false);
    var v := ViewOf(logs);
    EmptyTop(v, m, flushed, last);
    NewLogSettled(v, m, m, last);
    NewLog(v, m, m, m, 0);
    NothingUpto(v[m := []], m);
  }

  lemma CommitRecoveryKeeps(s: State, after: Version, t: State)
    requires Inv(s) && RecoveryStep(s, CommitRecovery(after), t)
    ensures Inv(t)
  {
    hide NamedBelow, TreeOk, ViewOf, Onward, Upto, VersionEntries, OnDisk, Below, Edited, ReplayOk, BuiltOk,
      CurrentLogOk, SettledOk, Ordered, Older, LogFilesOk, NumbersOf, Collected, ManifestOk, NamingOk;
    OpenedOk(s, after);
    TopLogOk(s.disk.logs, s.nextFile, Appended(s), t.lastSequence);
    TreeFacts(s.disk.version, s.disk.tables, s.disk.nextFile, s.disk.lastSequence, s.flushed, s.horizon, s.spoiled);
    CataloguedFacts(s.disk.version, s.disk.nextFile);
    OpenedUp(s, after);
    var u := t.(phase := Resting);
    CollectedOk(u);
    CollectedIs(u, t);
    NamingStarts(t.disk.manifest, t.phase, t.nextFile);
  }

  lemma OpenedUp(s: State, after: Version)
    requires DiskOk(s) && RecoveringOk(s) && OnDisk(after, s.disk.tables) && Below(after, s.nextFile)
    ensures UpOk(after, {after}, s.pending, s.disk.tables, s.nextFile + 1)
  {
    hide OnDisk, ReplayOk, BuiltOk, LogsOk, VersionOk, SortedFiles, ManifestOk, NamingOk;
    TreeFacts(s.disk.version, s.disk.tables, s.disk.nextFile, s.disk.lastSequence, s.flushed, s.horizon, s.spoiled);
    CataloguedFacts(s.disk.version, s.disk.nextFile);
  }

  lemma FailRecoveryKeeps(s: State, after: Version, written: bool, t: State)
    requires Inv(s) && RecoveryStep(s, FailRecovery(after, written), t)
    ensures Inv(t)
  {
    hide TreeOk, ViewOf, Onward, Upto, VersionEntries, OnDisk, Below, Edited, ReplayOk, BuiltOk, CurrentLogOk,
      SettledOk, Ordered, Older, Bounded, LogFilesOk, ManifestOk, NamingOk;
    OpenedOk(s, after);
    TopLogOk(s.disk.logs, s.nextFile, Appended(s), 0);
    NewLogOk(s.disk.logs, s.nextFile, s.disk.logNumber, s.flushed, 0, false);
    NewLogSets(ViewOf(s.disk.logs), s.nextFile);
  }

  // ----- what holds over every run -----

  // Every step keeps the invariant.
  lemma StepKeepsInv(s: State, event: Event, t: State)
    requires Inv(s) && Next(s, event, t)
    ensures Inv(t)
  {
    hide Inv, WriterStep, FlushStep, CompactionStep, EndStep, CrashStep, RecoveryStep, ManifestOk, NamingOk;
    match event
    case Append(ops) => AppendKeeps(s, ops, t);
    case InsertGroup => InsertKeeps(s, t);
    case Acknowledge => AckKeeps(s, t);
    case FailSync => FailSyncKeeps(s, t);
    case SwitchMemtable => SwitchKeeps(s, t);
    case StartFlush => StartFlushKeeps(s, t);
    case FinishBuild(level, size, entries) => FinishBuildKeeps(s, level, size, entries, t);
    case FailFlush => FailFlushKeeps(s, t);
    case InstallFlush(after) => InstallFlushKeeps(s, after, t);
    case StartCompaction(pick) => StartCompactionKeeps(s, pick, t);
    case BuildOutput(f) => BuildOutputKeeps(s, f, t);
    case AbandonCompaction => AbandonKeeps(s, t);
    case InstallCompaction(after) => InstallCompactionKeeps(s, after, t);
    case InstallMove(level, f, lo, hi, after) => InstallMoveKeeps(s, level, f, lo, hi, after, t);
    case FinishInstall(released) => FinishInstallKeeps(s, released, t);
    case FailInstall(written) => FailInstallKeeps(s, written, t);
    case RemoveTable(n) => RemoveTableKeeps(s, n, t);
    case RemoveLog(n) => RemoveLogKeeps(s, n, t);
    case EndRemoving => EndRemovingKeeps(s, t);
    case DropVersion(v) => DropVersionKeeps(s, v, t);
    case Crash(kept) => CrashKeeps(s, kept, t);
    case StartRecovery => StartRecoveryKeeps(s, t);
    case ReplayGroup => ReplayKeeps(s, t);
    case SpillMemtable(size, entries) => SpillKeeps(s, size, entries, t);
    case LeaveLog(next) => LeaveLogKeeps(s, next, t);
    case CommitRecovery(after) => CommitRecoveryKeeps(s, after, t);
    case FailRecovery(after, written) => FailRecoveryKeeps(s, after, written, t);
  }

  lemma FinishInstallKeeps(s: State, released: set<Version>, t: State)
    requires Inv(s) && EndStep(s, FinishInstall(released), t)
    ensures Inv(t)
  {
    hide Inv, Installed, ManifestOk, NamingOk;
    match s.phase.what
    case AFlush(level, table) => FinishFlushKeeps(s, level, table, s.phase.record, released, t);
    case ACompaction => FinishCompactionKeeps(s, s.phase.record, released, t);
    case AMove => FinishMoveKeeps(s, s.phase.record, released, t);
  }

  ghost predicate IsRun(states: seq<State>, events: seq<Event>) {
    && |states| == |events| + 1 && Inv(states[0])
    && forall i :: 0 <= i < |events| ==> Next(states[i], events[i], states[i + 1])
  }

  lemma {:induction false} RunKeepsInv(states: seq<State>, events: seq<Event>, n: nat)
    requires IsRun(states, events) && n <= |events|
    ensures Inv(states[n])
    decreases n
  {
    hide Inv, Next, ManifestOk, NamingOk;
    if n > 0 {
      RunKeepsInv(states, events, n - 1);
      StepKeepsInv(states[n - 1], events[n - 1], states[n]);
    }
  }

  // A new database opens, and takes its first write.
  lemma NewDatabaseOpens(s: State, ops: seq<WriteBatches.ByteOp>) returns (t: State, u: State, w: State)
    requires s.disk == NewDisk() && s.flushed == {} && s.acked == {} && s.horizon == 0
    requires s.spoiled == iset{}
    requires s == Fallen(s, s.disk) && GroupOk(Group(1, ops))
    ensures Next(s, StartRecovery, t) && Next(t, CommitRecovery(EMPTY_VERSION), u) && Next(u, Append(ops), w)
    ensures u.mode == Running && u.lastSequence == 0 && w.inflight == Some(Group(1, ops))
  {
    hide Collected, Logged, ViewOf, Edited, ManifestOk, NamingOk;
    NothingAdded();
    t := s.(mode := Recovering(s.disk.logNumber, 0), current := s.disk.version, live := {s.disk.version},
            logNumber := s.disk.logNumber, nextFile := s.disk.nextFile + 1, lastSequence := s.disk.lastSequence,
            built := [], recovered := s.disk.version, maxSequence := 0);
    var d := Opened(t, EMPTY_VERSION);
    u := t.(disk := d, mode := Running, current := EMPTY_VERSION, live := {EMPTY_VERSION}, logNumber := t.nextFile,
            logfile := t.nextFile, safe := 0, nextFile := t.nextFile + 1, lastSequence := d.lastSequence,
            built := [], flushed := Appended(t), spoiled := t.spoiled - Store.Decided(InLogs(t)));
    u := u.(phase := Collected(u));
    w := u.(disk := u.disk.(logs := u.disk.logs[u.logfile := Logged(u.disk.logs[u.logfile], Group(1, ops))]),
            inflight := Some(Group(1, ops)), stored := false);
  }

  lemma NothingAdded()
    ensures Edited(EMPTY_VERSION, Edit({}, Added([], 0)), EMPTY_VERSION)
  {
    Store.EmptyLevels();
    forall l | 0 <= l < NUM_LEVELS
      ensures Lists(EMPTY_VERSION[l], Builders.Step(FilesOf(EMPTY_VERSION[l]), Edit({}, Added([], 0)), l))
    {
      assert EMPTY_VERSION[l] == [];
    }
    assert |EMPTY_VERSION| == NUM_LEVELS;
  }

  lemma DiskFacts(s: State)
    requires Inv(s)
    ensures DiskOk(s)
    ensures VersionEntries(s.disk.version) <= s.flushed && Distinct(s.flushed)
    ensures Store.ReadsMatch(VersionEntries(s.disk.version), s.flushed, s.horizon, s.spoiled)
    ensures LogFilesOk(s.disk.logs) && Ordered(ViewOf(s.disk.logs), s.disk.logNumber)
    ensures Older(s.flushed, ViewOf(s.disk.logs), s.disk.logNumber)
    ensures s.horizon <= s.disk.lastSequence
  {
    hide RunningOk, RecoveringOk, DownOk, LogFilesOk, Ordered, Older, ViewOf, TreeOk, ManifestOk, NamingOk;
    TreeFacts(s.disk.version, s.disk.tables, s.disk.nextFile, s.disk.lastSequence, s.flushed, s.horizon, s.spoiled);
  }

  // Newer entries on both sides do not change that reads agree.
  lemma JoinReads(t: set<Entry>, f: set<Entry>, l: set<Entry>, horizon: nat, spoiled: iset<Point>)
    requires t <= f && Distinct(f) && Distinct(l) && Before(f, l)
    requires Store.ReadsMatch(t, f, horizon, spoiled)
    ensures Store.ReadsMatch(t + l, f + l, horizon, spoiled - Store.Decided(l))
  {
    hide Distinct, Before, Store.Decided, Store.ReadsMatch, NewerThan;
    BeforeIsNewer(f, l);
    NewerLayer(l, f, t, horizon, spoiled);
  }

  // At every moment, in any mode, the disk alone holds every acknowledged
  // write, and reads of it are reads of everything that is not lost.
  lemma NothingIsLost(s: State)
    requires Inv(s)
    ensures s.acked <= Appended(s)
    ensures Store.ReadsMatch(Recoverable(s.disk), Appended(s), s.horizon, s.spoiled - Store.Decided(InLogs(s)))
  {
    DiskFacts(s);
    AckedAppended(s);
    hide Inv, DiskOk, VersionEntries, ViewOf, Onward, Upto, Ordered, Older, Distinct, Store.Decided, Store.ReadsMatch,
      Before, ManifestOk, NamingOk;
    var v, lo := ViewOf(s.disk.logs), s.disk.logNumber;
    LogsDistinct(v, lo);
    OlderBefore(s.flushed, v, lo, lo, 0);
    JoinReads(VersionEntries(s.disk.version), s.flushed, Onward(v, lo, 0), s.horizon, s.spoiled);
  }

  lemma AckedAppended(s: State)
    requires Inv(s)
    ensures s.acked <= Appended(s)
  {
    hide DiskOk, RecoveringOk, DownOk, ViewOf, Onward, Upto, UpOk, CurrentLogOk, SettledOk, MemOk, ThreadOk, ManifestOk,
      NamingOk;
    if s.mode.Running? {
      Split(ViewOf(s.disk.logs), s.disk.logNumber, s.logfile, s.safe);
    }
  }

  // With bytes missing, the last group at least is not read.
  lemma {:induction false} CutShortensRead(gs: seq<Group>, file: Bytes)
    requires gs != [] && |file| < |LogBytes(gs)|
    ensures |Readable(file, gs)| < |gs|
  {
  }

  // A crash of the running database keeps every group whose append has returned.
  // Of the group in flight it keeps all or nothing: all exactly when every byte
  // of its record survives.
  lemma WholeOrNotAtAll(s: State, kept: nat, t: State)
    requires Inv(s) && s.mode == Running && CrashStep(s, kept, t)
    ensures var groups := s.disk.logs[s.logfile].groups;
      && s.safe <= |groups| <= s.safe + 1
      && (|LogBytes(groups)| <= kept ==> Appended(t) == Appended(s))
      && (kept < |LogBytes(groups)| ==> |groups| == s.safe + 1 && Appended(s) == Appended(t) + Es(groups[s.safe]))
      && (s.inflight.Some? ==> |groups| == s.safe + 1 && groups[s.safe] == s.inflight.value)
      && s.acked <= Appended(t)
  {
    hide DiskOk, RecoveringOk, DownOk, ViewOf, Onward, Upto, UpOk, CurrentLogOk, SettledOk, MemOk, ThreadOk, LogBytes,
      Es, Ordered, Older, LogFilesOk, Readable, ManifestOk, NamingOk;
    DiskFacts(s);
    var d, n, v := s.disk, s.logfile, ViewOf(s.disk.logs);
    CurrentLogFacts(d.logs, n, s.safe, s.inflight, s.lastSequence, s.bgError);
    var groups := d.logs[n].groups;
    var c := CutView(d.logs, n, kept, s.safe);
    CutLog(v, n, c, d.logNumber, s.safe);
    var rest := d.logs[n].bytes[..kept];
    if |LogBytes(groups)| <= kept {
      AllReadable(groups, rest);
    } else {
      assert groups[..|groups|] == groups;
      CutShortensRead(groups, rest);
      OneGroup(v, d.logNumber, n, s.safe);
    }
    NothingAfterLast(v, n);
    Split(v, d.logNumber, n, |groups|);
    Split(ViewOf(t.disk.logs), d.logNumber, n, s.safe);
  }

  lemma NothingAfterLast(v: View, n: nat)
    requires n in v && NoneAfter(v, n)
    ensures Onward(v, n, |v[n]|) == {}
  {
    hide Es;
  }

  // No other step loses anything; an append adds its whole group, and nothing
  // else adds.
  lemma AppendedStays(s: State, event: Event, t: State)
    requires Inv(s) && Next(s, event, t) && !event.Crash?
    ensures Appended(t) == Appended(s) + if event.Append? then Es(Group(s.lastSequence + 1, event.ops)) else {}
  {
    hide Inv, Appended, WriterStep, FlushStep, CompactionStep, EndStep, CrashStep, RecoveryStep, Es, ManifestOk,
      NamingOk;
    if event.Append? || event.SwitchMemtable? {
      WriterStays(s, event, t);
    } else if event.FinishInstall? || event.FailInstall? || event.RemoveLog? {
      EndStays(s, event, t);
    } else if event.CommitRecovery? || event.FailRecovery? {
      OpeningStays(s, event, t);
    } else if WriterStep(s, event, t) {
      OtherWriterSteps(s, event, t);
    } else if FlushStep(s, event, t) {
      FlushSteps(s, event, t);
    } else if CompactionStep(s, event, t) {
      CompactionSteps(s, event, t);
    } else if EndStep(s, event, t) {
      OtherEndSteps(s, event, t);
    } else {
      OtherRecoverySteps(s, event, t);
    }
  }

  lemma WriterStays(s: State, event: Event, t: State)
    requires Inv(s) && WriterStep(s, event, t) && (event.Append? || event.SwitchMemtable?)
    ensures Appended(t) == Appended(s) + if event.Append? then Es(Group(s.lastSequence + 1, event.ops)) else {}
  {
    hide Inv, ViewOf, Onward, Upto, Es, Logged, LogsOk, ManifestOk, NamingOk;
    if event.Append? {
      AppendedFlies(s, event.ops);
    } else {
      LogsBelow(s);
      NewLogOk(s.disk.logs, s.nextFile, s.disk.logNumber, s.flushed, 0, false);
      NewLogSets(ViewOf(s.disk.logs), s.nextFile);
    }
  }

  // What a record leaves to the logs and what it takes from them.
  lemma RecordTakes(s: State)
    requires Inv(s) && s.mode == Running && s.phase.Installing?
    ensures var r, v := s.phase.record, ViewOf(s.disk.logs);
      if s.phase.what.AFlush? then s.flushed + ImmSet(s.imm) + Onward(v, r.logNumber, 0) == Appended(s)
      else r.logNumber == s.disk.logNumber
  {
    hide DiskOk, RecoveringOk, DownOk, ViewOf, Onward, Upto, UpOk, CurrentLogOk, SettledOk, MemOk, WorkOk, RecordOk,
      Flushed, VersionEntries, NumbersOf, Store.Decided, Store.ReadsMatch, ManifestOk, NamingOk;
    Split(ViewOf(s.disk.logs), s.disk.logNumber, s.logfile, 0);
  }

  lemma LogNotNeeded(s: State, n: nat)
    requires Inv(s) && s.mode == Running && s.phase.Removing? && n in s.phase.logs
    ensures n < s.disk.logNumber
  {
    hide DiskOk, RecoveringOk, DownOk, UpOk, CurrentLogOk, SettledOk, MemOk, ImmOk, WorkOk, NumbersOf, ViewOf, Upto,
      ManifestOk, NamingOk;
  }

  lemma InstallShows(s: State, what: What, r: Record, released: set<Version>)
    ensures var t := Installed(s, what, r, released);
      && t.disk.logs == s.disk.logs && t.disk.logNumber == r.logNumber
      && t.flushed == if what.AFlush? then s.flushed + ImmSet(s.imm) else s.flushed
    ensures var t := NotInstalled(s, what, r, true);
      && t.disk.logs == s.disk.logs && t.disk.logNumber == r.logNumber
      && t.flushed == if what.AFlush? then s.flushed + ImmSet(s.imm) else s.flushed
  {
    hide Collected, OutputNumbers, Later, ImmSet;
  }

  lemma InstallStays(s: State, released: set<Version>, t: State)
    requires Inv(s) && s.mode == Running && s.phase.Installing?
    requires t == Installed(s, s.phase.what, s.phase.record, released) ||
      t == NotInstalled(s, s.phase.what, s.phase.record, true)
    ensures Appended(t) == Appended(s)
  {
    hide Inv, ViewOf, Onward, Installed, NotInstalled, ImmSet, ManifestOk, NamingOk;
    RecordTakes(s);
    InstallShows(s, s.phase.what, s.phase.record, released);
  }

  lemma EndStays(s: State, event: Event, t: State)
    requires Inv(s) && EndStep(s, event, t) && (event.FinishInstall? || event.FailInstall? || event.RemoveLog?)
    ensures Appended(t) == Appended(s)
  {
    hide Inv, ViewOf, Onward, Installed, ManifestOk, NamingOk;
    if event.RemoveLog? {
      LogNotNeeded(s, event.number);
      LogGone(s.disk.logs, event.number);
      DropLog(ViewOf(s.disk.logs), event.number, s.disk.logNumber, s.disk.logNumber, 0);
    } else if event.FinishInstall? || event.written {
      InstallStays(s, if event.FinishInstall? then event.released else {}, t);
    }
  }

  lemma OpeningStays(s: State, event: Event, t: State)
    requires Inv(s) && RecoveryStep(s, event, t) && (event.CommitRecovery? || event.FailRecovery?)
    ensures Appended(t) == Appended(s)
  {
    hide Inv, ViewOf, Onward, Upto, Ordered, Older, Collected, Edited, CurrentLogOk, SettledOk, LogFilesOk, ManifestOk,
      NamingOk;
    LogsUnderNext(s, event.after);
    TopLogOk(s.disk.logs, s.nextFile, Appended(s), 0);
    NewLogOk(s.disk.logs, s.nextFile, s.disk.logNumber, s.flushed, 0, false);
    NewLogSets(ViewOf(s.disk.logs), s.nextFile);
  }

  lemma SameLogs(s: State, t: State)
    requires t.disk.logs == s.disk.logs && t.disk.logNumber == s.disk.logNumber && t.flushed == s.flushed
    ensures Appended(t) == Appended(s)
  {
  }

  lemma OtherWriterSteps(s: State, event: Event, t: State)
    requires WriterStep(s, event, t) && !event.Append? && !event.SwitchMemtable?
    ensures Appended(t) == Appended(s)
  {
    hide Appended, Es, GroupOk, Logged;
    SameLogs(s, t);
  }

  lemma FlushSteps(s: State, event: Event, t: State)
    requires FlushStep(s, event, t)
    ensures Appended(t) == Appended(s)
  {
    hide Appended, NoneMeets, Edited, Sorted, ToSet;
    SameLogs(s, t);
  }

  lemma CompactionSteps(s: State, event: Event, t: State)
    requires CompactionStep(s, event, t)
    ensures Appended(t) == Appended(s)
  {
    hide Appended, MayStart, Edited, Picked, Outputs, OutputNumbers, CompactionEdit;
    SameLogs(s, t);
  }

  lemma OtherEndSteps(s: State, event: Event, t: State)
    requires EndStep(s, event, t) && !event.FinishInstall? && !event.FailInstall? && !event.RemoveLog?
    ensures Appended(t) == Appended(s)
  {
    hide Appended, Installed, NotInstalled;
    SameLogs(s, t);
  }

  lemma OtherRecoverySteps(s: State, event: Event, t: State)
    requires RecoveryStep(s, event, t) && !event.CommitRecovery? && !event.FailRecovery?
    ensures Appended(t) == Appended(s)
  {
    hide Appended, ViewOf, Es, LastOf, AllInOrder, Sorted, ToSet, Insert, MayOpen, Opened, Collected, ManifestOk,
      NamingOk;
    SameLogs(s, t);
  }

  lemma AppendedFlies(s: State, ops: seq<WriteBatches.ByteOp>)
    requires Inv(s) && s.mode == Running && s.inflight == None && !s.bgError
    ensures s.logfile in s.disk.logs
    ensures var logs, g := s.disk.logs, Group(s.lastSequence + 1, ops);
      Onward(ViewOf(logs[s.logfile := Logged(logs[s.logfile], g)]), s.disk.logNumber, 0) ==
        Onward(ViewOf(logs), s.disk.logNumber, 0) + Es(g)
  {
    hide DiskOk, RecoveringOk, DownOk, ViewOf, Onward, Upto, UpOk, SettledOk, MemOk, ThreadOk, Es, Logged, LogBytes,
      CurrentLogOk, ManifestOk, NamingOk;
    var g := Group(s.lastSequence + 1, ops);
    AllSettled(s.disk.logs, s.logfile, s.safe, s.lastSequence);
    LoggedView(s.disk.logs, s.logfile, g);
    AppendGroup(ViewOf(s.disk.logs), s.logfile, g, 0, s.disk.logNumber, 0);
  }

  lemma LogsBelow(s: State)
    requires Inv(s) && s.mode == Running
    ensures LogsOk(s.disk.logs, s.disk.logNumber, s.flushed) && forall n :: n in s.disk.logs ==> n < s.nextFile
  {
    hide TreeOk, RecoveringOk, DownOk, ViewOf, UpOk, SettledOk, MemOk, ThreadOk, LogBytes, Upto, LogsOk, ManifestOk,
      NamingOk;
  }

  lemma LogsUnderNext(s: State, after: Version)
    requires Inv(s) && MayOpen(s, after)
    ensures LogsOk(s.disk.logs, s.disk.logNumber, s.flushed) && forall n :: n in s.disk.logs ==> n < s.nextFile
  {
    hide TreeOk, RunningOk, DownOk, ViewOf, LogsOk, BuiltOk, ReplayOk, Edited, ManifestOk, NamingOk;
  }

  // Once recovery has committed, the tables alone read like everything that was
  // not lost, at the recovered sequence number and all others from the horizon
  // on, and writing goes on behind all of it.
  lemma RecoveryReadsAll(s: State, after: Version, t: State)
    requires Inv(s) && Next(s, CommitRecovery(after), t)
    ensures Store.ReadsMatch(VersionEntries(t.current), Appended(s), t.horizon, t.spoiled)
    ensures t.horizon <= t.lastSequence
    ensures forall e :: e in Appended(s) ==> e.key.sn <= t.lastSequence
    ensures t.mem == {} && t.imm == None && s.acked <= Appended(s)
  {
    hide TreeOk, ViewOf, Onward, Upto, Ordered, Older, LogFilesOk, ReplayOk, BuiltOk, Collected, Edited, VersionEntries,
      NumbersOf, Store.Decided, Store.ReadsMatch, RunningOk, ManifestOk, NamingOk;
    OpenedOk(s, after);
    var d := Opened(s, after);
    TreeFacts(after, d.tables, d.nextFile, d.lastSequence, Appended(s), s.horizon,
      s.spoiled - Store.Decided(InLogs(s)));
  }

  // While running without an error, memtables and tables together read like
  // everything appended, once the group in flight is stored.
  lemma MemoryReadsAll(s: State)
    requires Inv(s) && s.mode == Running && !s.bgError && (s.inflight.Some? ==> s.stored)
    ensures Store.ReadsMatch(VersionEntries(s.current) + (ImmSet(s.imm) + s.mem), Appended(s), s.horizon,
              s.spoiled - Store.Decided(ImmSet(s.imm) + s.mem))
  {
    DiskFacts(s);
    MemoryIs(s);
    hide Inv, DiskOk, VersionEntries, ViewOf, Onward, Upto, Ordered, Older, Distinct, Store.Decided, Store.ReadsMatch,
      Before, ManifestOk, NamingOk;
    var v, lo := ViewOf(s.disk.logs), s.disk.logNumber;
    LogsDistinct(v, lo);
    OlderBefore(s.flushed, v, lo, lo, 0);
    JoinReads(VersionEntries(s.disk.version), s.flushed, Onward(v, lo, 0), s.horizon, s.spoiled);
  }

  lemma MemoryIs(s: State)
    requires Inv(s) && s.mode == Running && !s.bgError && (s.inflight.Some? ==> s.stored)
    ensures s.current == s.disk.version
    ensures Onward(ViewOf(s.disk.logs), s.disk.logNumber, 0) == ImmSet(s.imm) + s.mem
  {
    hide DiskOk, RecoveringOk, DownOk, ViewOf, Onward, Upto, UpOk, CurrentLogOk, SettledOk, PhaseOk, WorkOk, Es,
      ManifestOk, NamingOk;
    Split(ViewOf(s.disk.logs), s.disk.logNumber, s.logfile, 0);
  }

  // A table that is built and not yet committed is in no version and not
  // pending: a collection in this window would delete it. It is there all the
  // same, with the entries of the immutable memtable, in every reachable state,
  // since only the thread that is about to commit it collects files.
  lemma BuiltTableStays(s: State, f: File)
    requires Inv(s) && s.mode == Running
    requires match s.phase
      case Built(_, table) => table == Some(f)
      case Installing(AFlush(_, table), _) => table == Some(f)
      case _ => false
    ensures f.number in s.disk.tables.Keys - Protected(s)
    ensures s.disk.tables[f.number] == f.entries && s.imm.Some? && ToSet(f.entries) == s.imm.value
  {
    hide DiskOk, RecoveringOk, DownOk, ViewOf, Onward, Upto, UpOk, CurrentLogOk, SettledOk, MemOk, WorkOk, Es,
      NoneMeets, FileOk, Flushed, VersionEntries, RecordOk, NumbersOf, Below, ManifestOk, NamingOk;
    if s.phase.Built? {
      NotNumbered(s.live, f.number);
    }
  }

  // Garbage collection deletes no table of a version in use, of the durable
  // version, of pending output or of the outputs of a compaction under way, and
  // no log that recovery needs.
  lemma OnlyGarbageIsRemoved(s: State, event: Event, t: State, n: nat)
    requires Inv(s) && EndStep(s, event, t) && (event.RemoveTable? || event.RemoveLog?)
    ensures n in s.disk.tables && (n in Protected(s) || n in NumbersOf(s.disk.version)) ==>
      n in t.disk.tables && t.disk.tables[n] == s.disk.tables[n]
    ensures s.compaction.Some? ==>
      forall f :: f in s.compaction.value.outputs ==> f.number in t.disk.tables && t.disk.tables[f.number] == f.entries
    ensures n in s.disk.logs && n >= s.disk.logNumber ==> n in t.disk.logs && t.disk.logs[n] == s.disk.logs[n]
    ensures Recoverable(t.disk) == Recoverable(s.disk)
  {
    hide DiskOk, RecoveringOk, DownOk, ViewOf, Onward, Upto, CurrentLogOk, SettledOk, MemOk, Es, OnDisk, Below,
      VersionEntries, NumbersOf, PickOk, Flushes, FreshNumbers, ImmOk, ManifestOk, NamingOk;
    if event.RemoveLog? {
      LogGone(s.disk.logs, event.number);
      DropLog(ViewOf(s.disk.logs), event.number, s.disk.logNumber, s.disk.logNumber, 0);
    }
  }

  // An input of a finished compaction has no place in the version it makes.
  lemma InputIsGone(current: Version, nextFile: nat, p: Pick, outputs: seq<File>, after: Version, f: File)
    requires Replaced(current, p.level, p.in0, p.in1, outputs, after) && Catalogued(current, nextFile)
    requires FreshNumbers(current, outputs) && (f in p.in0 || f in p.in1)
    requires |current| == NUM_LEVELS && p.level + 1 < NUM_LEVELS
    requires forall g :: g in p.in0 ==> g in current[p.level]
    requires forall g :: g in p.in1 ==> g in current[p.level + 1]
    ensures f.number !in NumbersOf(after)
  {
    hide SortedFiles;
    var l := if f in p.in0 then p.level else p.level + 1;
    forall m, g | 0 <= m < |after| && g in after[m] ensures g.number != f.number {
      WhereFrom(current, p.level, p.in0, p.in1, outputs, after, m, g);
      assert f in current[l];
    }
  }

  // The collection that ends a compaction deletes each of its inputs, unless a
  // version that somebody still refers to has it: the new version never does, so
  // releasing the old ones is enough.
  lemma InputsAreCollected(s: State, released: set<Version>, t: State, f: File)
    requires Inv(s) && EndStep(s, FinishInstall(released), t) && s.phase.what.ACompaction? && !s.bgError
    requires s.compaction.Some? && (f in s.compaction.value.pick.in0 || f in s.compaction.value.pick.in1)
    ensures f.number in t.disk.tables && f.number !in NumbersOf(t.current)
    ensures t.phase.Removing? && (f.number in t.phase.tables <==> forall v :: v in t.live ==> f.number !in NumbersOf(v))
    ensures released == s.live - {t.current} ==> f.number in t.phase.tables
  {
    hide *;
    WhileInstalling(s, released, t);
    var w := s.compaction.value;
    InstallingFacts(s);
    CurrentFacts(s);
    AfterCompaction(s, released, t);
    InputsStay(w, s.current);
    InputIsGone(s.current, s.disk.nextFile, w.pick, w.outputs, t.current, f);
    TableThere(s.current, s.disk.tables, if f in w.pick.in0 then w.pick.level else w.pick.level + 1, f);
    CollectedHas(t, f.number);
  }

  lemma WhileInstalling(s: State, released: set<Version>, t: State)
    requires EndStep(s, FinishInstall(released), t)
    ensures s.mode == Running && s.phase.Installing?
  {
    hide Installed;
  }

  lemma InstallingFacts(s: State)
    requires Inv(s) && s.mode == Running && s.phase.Installing? && s.phase.what.ACompaction? && s.compaction.Some?
    ensures !s.stuck && s.pending == OutputNumbers(s.compaction.value.outputs) && OnDisk(s.current, s.disk.tables)
    ensures var w := s.compaction.value;
      && PickOk(w.pick) && Flushes(w.pick.before, w.flushed, s.current) && FreshNumbers(s.current, w.outputs)
      && Replaced(s.current, w.pick.level, w.pick.in0, w.pick.in1, w.outputs, s.phase.record.after)
  {
    hide DiskOk, RecoveringOk, DownOk, ViewOf, Onward, Upto, CurrentLogOk, SettledOk, MemOk, ImmOk, ManifestOk,
      NamingOk, VersionOk, Catalogued, OnDisk, Below, NumbersOf, PickOk, Flushes, FreshNumbers, RecordOk,
      VersionEntries, Store.ReadsMatch, SpoiledBy, Replaced, OutputNumbers;
  }

  lemma AfterCompaction(s: State, released: set<Version>, t: State)
    requires EndStep(s, FinishInstall(released), t) && s.phase.what.ACompaction? && s.compaction.Some?
    requires s.pending == OutputNumbers(s.compaction.value.outputs)
    ensures t.pending == {} && t.bgError == s.bgError && t.disk.tables == s.disk.tables && t.phase == Collected(t)
    ensures t.current == s.phase.record.after && t.current in t.live
    ensures released == s.live - {t.current} ==> t.live == {t.current}
  {
    hide Collected, OutputNumbers, Store.Decided, SpoiledBy, Later, Recorded;
    RecordedTables(s.disk, s.phase.record);
    CollectedIs(t.(phase := Resting), t);
  }

  lemma RecordedTables(d: Disk, r: Record)
    ensures Recorded(d, r).tables == d.tables
  {
  }

  lemma CollectedHas(t: State, n: nat)
    requires t.pending == {} && !t.bgError && n in t.disk.tables && t.phase == Collected(t)
    ensures t.phase.Removing? && (n in t.phase.tables <==> forall v :: v in t.live ==> n !in NumbersOf(v))
    ensures t.live == {t.current} && n !in NumbersOf(t.current) ==> n in t.phase.tables
  {
    hide NumbersOf;
    if m: Version, k: nat :| m in t.live && k in NumbersOf(m) && k == n {
      assert n in Protected(t);
    }
  }

  lemma TableThere(v: Version, tables: map<nat, seq<Entry>>, l: nat, f: File)
    requires OnDisk(v, tables) && l < |v| && f in v[l]
    ensures f.number in tables
  {
  }

  // Recovery finds every table of the durable version.
  lemma NoTableIsMissing(s: State, n: nat)
    requires Inv(s) && n in NumbersOf(s.disk.version)
    ensures n in s.disk.tables
  {
    hide RunningOk, RecoveringOk, DownOk, LogsOk, VersionOk, SortedFiles, ManifestOk, NamingOk;
  }

  // ----- LogAndApply -----

  lemma AboveIsFresh(v: Version, f: File)
    requires Below(v, f.number)
    ensures FreshNumbers(v, [f])
  {
  }

  lemma BuiltIsFresh(current: Version, built: seq<File>, recovered: Version, tables: map<nat, seq<Entry>>,
      nextFile: nat)
    requires BuiltOk(current, built, recovered, tables, nextFile)
    ensures FreshNumbers(current, built)
  {
    hide VersionOk, OnDisk, SortedFiles;
    forall l, f, g | 0 <= l < |current| && g in current[l] && f in built ensures f.number != g.number {
      assert f in recovered[0] && g in recovered[l];
    }
    forall f, g | f in built && g in built && f.number == g.number ensures f == g {
      assert f in recovered[0] && g in recovered[0];
    }
  }

  // The edit that each commit hands to LogAndApply is one that Builders.ApplyEdit
  // takes: its files are new to the version, under numbers of their own.
  lemma EditsApply(s: State)
    requires Inv(s) && !s.stuck && s.mode != Down
    ensures s.phase.Built? && s.mode == Running ==> FreshFor(s.current, FlushEditOf(s.phase.level, s.phase.table))
    ensures s.compaction.Some? && s.mode == Running ==>
      var w := s.compaction.value;
      FreshFor(s.current, CompactionEdit(w.pick.level, w.pick.in0, w.pick.in1, w.outputs))
    ensures s.mode.Recovering? ==> FreshFor(s.current, Edit({}, Added(s.built, 0)))
  {
    CurrentFacts(s);
    hide DiskOk, DownOk, ImmOk, MemOk, SettledOk, CurrentLogOk, UpOk, ReplayOk, BuiltOk, WorkOk, Catalogued,
      FreshNumbers, FreshFor, Below, FileOk, NoneMeets, NumbersOf, OnDisk, VersionOk, FlushEdit, CompactionEdit, Onward,
      Upto, ViewOf, ManifestOk, NamingOk;
    if s.phase.Built? && s.mode == Running {
      BuiltEditApplies(s);
    }
    if s.compaction.Some? && s.mode == Running {
      var w := s.compaction.value;
      WorkFacts(w, s.current, s.live, s.pending, s.disk.tables, s.lastSequence);
      CompactionEditApplies(w, s.current, s.disk.nextFile);
    }
    if s.mode.Recovering? {
      BuiltIsFresh(s.current, s.built, s.recovered, s.disk.tables, s.nextFile);
      FreshAdditions(s.current, s.disk.nextFile, s.built, 0, {});
    }
  }

  lemma CurrentFacts(s: State)
    requires Inv(s) && !s.stuck && s.mode != Down
    ensures s.current == s.disk.version && VersionOk(s.current) && Catalogued(s.current, s.disk.nextFile)
    ensures s.mode == Running ==> s.current in s.live
  {
    hide LogsOk, ImmOk, MemOk, SettledOk, CurrentLogOk, ReplayOk, BuiltOk, WorkOk, PhaseOk, VersionOk, Catalogued,
      OnDisk, Below, VersionEntries, Store.Decided, Store.ReadsMatch, Onward, Upto, ViewOf, ManifestOk, NamingOk;
  }

  lemma CompactionEditApplies(w: Work, current: Version, nextFile: nat)
    requires PickOk(w.pick) && Flushes(w.pick.before, w.flushed, current) && FreshNumbers(current, w.outputs)
    requires Catalogued(current, nextFile)
    ensures FreshFor(current, CompactionEdit(w.pick.level, w.pick.in0, w.pick.in1, w.outputs))
  {
    hide PickOk, Flushes, FreshNumbers, Catalogued, FreshFor;
    var p := w.pick;
    InputsStay(w, current);
    Store.DeletedLevels(p.level, p.in0, p.in1, w.outputs);
    FreshAdditions(current, nextFile, w.outputs, p.level + 1, CompactionEdit(p.level, p.in0, p.in1, w.outputs).deleted);
  }

  lemma BuiltEditApplies(s: State)
    requires s.phase.Built? && PhaseOk(s) && s.current in s.live && Catalogued(s.current, s.disk.nextFile)
    ensures FreshFor(s.current, FlushEditOf(s.phase.level, s.phase.table))
  {
    hide Catalogued, FreshNumbers, FreshFor, Below, FileOk, NoneMeets, Added;
    var v, n := s.current, s.disk.nextFile;
    if s.phase.table.Some? {
      AboveIsFresh(v, s.phase.table.value);
      FreshAdditions(v, n, [s.phase.table.value], s.phase.level, {});
    } else {
      NoAdditions(v, n);
    }
  }

  lemma NoAdditions(v: Version, nextFile: nat)
    requires Catalogued(v, nextFile)
    ensures FreshFor(v, Edit({}, []))
  {
    hide SortedFiles;
  }

  // ----- the recovery of the source -----

  // The commit whose record is being written.
  function Writing(s: State): Option<Commit> {
    if s.mode.Running? && s.phase.Installing? then Some(CommitOf(s.phase.record)) else None
  }

  // The disk before the commit, or after it.
  function Either(s: State, after: bool): Disk {
    if after && s.mode.Running? && s.phase.Installing? then Recorded(s.disk, s.phase.record) else s.disk
  }

  lemma ManifestFacts(s: State)
    requires Inv(s)
    ensures ManifestOk(s.disk.manifest, s.disk.version, CountersOf(s.disk))
    ensures ManifestOk(WithLast(s.disk.manifest, Writing(s)), Either(s, true).version, CountersOf(Either(s, true)))
  {
    hide TreeOk, LogsOk, ManifestOk, RecoveringOk, DownOk, ViewOf, UpOk, SettledOk, MemOk, ImmOk, WorkOk, LogBytes,
      Upto, CurrentLogOk, PhaseOk, NamedBelow;
  }

  // What recovery starts from is what VersionSet::Recover reads from the bytes
  // of the MANIFEST; of a record that is being written it reads all or nothing.
  method ReadDurableManifest(file: Bytes, comparator: Bytes, tables: map<nat, seq<Entry>>, ghost s: State,
      ghost es: seq<VersionEdits.Edit>)
    returns (r: Option<Manifests.Recovered>)
    requires Inv(s) && AreRecords(es, WithLast(s.disk.manifest, Writing(s)), tables, comparator)
    requires file <= Logs.LogOf(Manifests.Recorded(es)) && |s.disk.manifest| <= |es|
    requires |Logs.LogOf(Manifests.Recorded(es[..|s.disk.manifest|]))| <= |file|
    ensures r == Some(StateOnDisk(Either(s, file == Logs.LogOf(Manifests.Recorded(es)))))
  {
    hide Inv, AreRecords, Logs.LogOf, Manifests.Recorded, ManifestOk;
    ManifestFacts(s);
    var d := s.disk;
    ghost var d' := Either(s, true);
    r := ReadManifest(file, comparator, tables, es, d.manifest, d.version, CountersOf(d), Writing(s), d'.version,
      CountersOf(d'));
  }

  function BytesOf(logs: map<nat, LogFile>): map<nat, Bytes> {
    map n | n in logs :: logs[n].bytes
  }

  function GroupsOf(logs: map<nat, LogFile>): map<nat, seq<Group>> {
    map n | n in logs :: logs[n].groups
  }

  lemma {:induction false} ReadableHas(ns: seq<nat>, logs: map<nat, LogFile>, g: Group)
    ensures g in ReadableFrom(ns, BytesOf(logs), GroupsOf(logs)) <==>
      exists n :: n in ns && n in logs && g in ViewOf(logs)[n]
  {
    hide Readable;
    if ns != [] {
      var front, n := ns[..|ns| - 1], ns[|ns| - 1];
      assert ns == front + [n];
      ReadableHas(front, logs, g);
    }
  }

  lemma ReplayedThere(logs: map<nat, LogFile>, lo: nat, ns: seq<nat>, gs: seq<Group>, e: Entry)
    requires gs == ReadableFrom(ns, BytesOf(logs), GroupsOf(logs)) && GroupsOk(gs)
    requires forall n :: n in ns <==> n in logs && n >= lo
    ensures e in Onward(ViewOf(logs), lo, 0) ==> exists i :: 0 <= i < |gs| && e in EntriesOf(gs[i])
  {
    hide Readable, LogBytes, GroupOk, ReadableFrom, EntriesOf, ViewOf, Onward, ManifestOk, NamingOk;
    if e in Onward(ViewOf(logs), lo, 0) {
      ViewKeys(logs);
      var m, j := PlaceOnward(ViewOf(logs), lo, 0, e);
      ReadableHas(ns, logs, ViewOf(logs)[m][j]);
      var i :| 0 <= i < |gs| && gs[i] == ViewOf(logs)[m][j];
      assert GroupOk(gs[i]);
    }
  }

  lemma ReplayedFrom(logs: map<nat, LogFile>, lo: nat, ns: seq<nat>, gs: seq<Group>, i: nat, e: Entry)
    requires gs == ReadableFrom(ns, BytesOf(logs), GroupsOf(logs)) && GroupsOk(gs)
    requires (forall n :: n in ns <==> n in logs && n >= lo) && i < |gs| && e in EntriesOf(gs[i])
    ensures e in Onward(ViewOf(logs), lo, 0)
  {
    hide Readable, LogBytes, GroupOk, ReadableFrom, EntriesOf, ViewOf, Onward, ManifestOk, NamingOk;
    ViewKeys(logs);
    ReadableHas(ns, logs, gs[i]);
    var n :| n in ns && n in logs && gs[i] in ViewOf(logs)[n];
    var j :| 0 <= j < |ViewOf(logs)[n]| && ViewOf(logs)[n][j] == gs[i];
    Placed(ViewOf(logs), n, j, e);
  }

  // What the steps of recovery replay is what Recoveries.Recover puts into its
  // memtables.
  lemma ReplaysLikeTheSource(logs: map<nat, LogFile>, lo: nat, ns: seq<nat>)
    requires LogFilesOk(logs) && forall n :: n in ns <==> n in logs && n >= lo
    ensures Recoveries.LogsOk(BytesOf(logs), GroupsOf(logs))
    ensures GroupsOk(ReadableFrom(ns, BytesOf(logs), GroupsOf(logs)))
    ensures Onward(ViewOf(logs), lo, 0) ==
      WriteBatches.AbstractEntries(Inserted(ReadableFrom(ns, BytesOf(logs), GroupsOf(logs))))
  {
    hide Readable, LogBytes, GroupsOk, ReadableFrom, Inserted, WriteBatches.AbstractEntries, EntriesOf, ViewOf, Onward,
      ManifestOk, NamingOk;
    assert Recoveries.LogsOk(BytesOf(logs), GroupsOf(logs));
    ReadableOk(ns, BytesOf(logs), GroupsOf(logs));
    hide LogFilesOk, BytesOf, GroupsOf;
    var gs := ReadableFrom(ns, BytesOf(logs), GroupsOf(logs));
    forall e ensures e in Onward(ViewOf(logs), lo, 0) <==> e in WriteBatches.AbstractEntries(Inserted(gs)) {
      ReplayedEntries(gs, e);
      ReplayedThere(logs, lo, ns, gs, e);
      if e in WriteBatches.AbstractEntries(Inserted(gs)) {
        var i := GroupWith(gs, e);
        ReplayedFrom(logs, lo, ns, gs, i, e);
      }
    }
  }

  lemma GroupWith(gs: seq<Group>, e: Entry) returns (i: nat)
    requires GroupsOk(gs) && e in WriteBatches.AbstractEntries(Inserted(gs))
    ensures i < |gs| && GroupOk(gs[i]) && e in EntriesOf(gs[i])
  {
    hide GroupOk, Inserted, WriteBatches.AbstractEntries, EntriesOf;
    ReplayedEntries(gs, e);
    i :| 0 <= i < |gs| && e in EntriesOf(gs[i]);
  }
}
