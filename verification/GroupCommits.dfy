// Group commit: the writer queue of DBImpl::Write and BuildBatchGroup, as a
// state machine whose steps interleave with new writers and readers
// (db/db_impl.cc). Writers are numbered in the order they join the queue.
module GroupCommits {
  import opened Keys

  // `bytes` is the byte size of the batch; a request without a batch only asks
  // for room in the memtable.
  datatype Request = Request(batch: Option<seq<Op>>, bytes: nat, sync: bool)

  // ----- building a group -----

  function MaxSize(first: nat): nat {
    if first <= 0x2_0000 then first + 0x2_0000 else 0x10_0000
  }

  // Whether the group that has `size` bytes ends before request r.
  predicate Stops(first: Request, size: nat, r: Request) {
    (r.sync && !first.sync) || (r.batch.Some? && size + r.bytes > MaxSize(first.bytes))
  }

  function SizeOf(rs: seq<Request>): nat {
    if rs == [] then 0 else SizeOf(rs[..|rs| - 1]) + if rs[|rs| - 1].batch.Some? then rs[|rs| - 1].bytes else 0
  }

  function OpsOf(rs: seq<Request>): seq<Op> {
    if rs == [] then [] else OpsOf(rs[..|rs| - 1]) + if rs[|rs| - 1].batch.Some? then rs[|rs| - 1].batch.value else []
  }

  // The group is the longest run from the front that nothing stops.
  ghost predicate IsGroup(queue: seq<Request>, n: nat) {
    && 1 <= n <= |queue|
    && (forall i :: 1 <= i < n ==> !Stops(queue[0], SizeOf(queue[..i]), queue[i]))
    && (n < |queue| ==> Stops(queue[0], SizeOf(queue[..n]), queue[n]))
  }

  method BuildBatchGroup(writers: seq<Request>) returns (count: nat, result: seq<Op>)
    requires writers != [] && writers[0].batch.Some?
    ensures IsGroup(writers, count) && result == OpsOf(writers[..count])
  {
    hide SizeOf, OpsOf;
    var first := writers[0];
    result := first.batch.value;
    var size := first.bytes;
    var maxSize := 0x10_0000;
    if size <= 0x2_0000 {
      maxSize := size + 0x2_0000;
    }
    count := 1;
    OneRequest(writers);
    while count < |writers|
      invariant 1 <= count <= |writers|
      invariant forall i :: 1 <= i < count ==> !Stops(first, SizeOf(writers[..i]), writers[i])
      invariant size == SizeOf(writers[..count]) && result == OpsOf(writers[..count])
    {
      var w := writers[count];
      if w.sync && !first.sync {
        break;
      }
      OneMore(writers, count);
      if w.batch != None {
        if size + w.bytes > maxSize {
          break;
        }
        size := size + w.bytes;
        result := result + w.batch.value;
      }
      count := count + 1;
    }
  }

  lemma {:induction false} OneMore(rs: seq<Request>, n: nat)
    requires n < |rs|
    ensures SizeOf(rs[..n + 1]) == SizeOf(rs[..n]) + if rs[n].batch.Some? then rs[n].bytes else 0
    ensures OpsOf(rs[..n + 1]) == OpsOf(rs[..n]) + if rs[n].batch.Some? then rs[n].batch.value else []
  {
    assert rs[..n + 1][..n] == rs[..n];
  }

  lemma {:induction false} OneRequest(rs: seq<Request>)
    requires rs != [] && rs[0].batch.Some?
    ensures SizeOf(rs[..1]) == rs[0].bytes && OpsOf(rs[..1]) == rs[0].batch.value
  {
    assert rs[..1][..0] == [];
  }

  // A sync write never rides in the group of a leader that does not sync.
  lemma SyncRidesOnlyWithSync(queue: seq<Request>, n: nat, i: nat)
    requires IsGroup(queue, n) && i < n && queue[i].sync
    ensures queue[0].sync
  {
    if i > 0 {
      assert !Stops(queue[0], SizeOf(queue[..i]), queue[i]);
    }
  }

  lemma {:induction false} OpsOfBoth(a: seq<Request>, b: seq<Request>)
    ensures OpsOf(a + b) == OpsOf(a) + OpsOf(b) && SizeOf(a + b) == SizeOf(a) + SizeOf(b)
    decreases |b|
  {
    if b == [] {
      assert a + b == a;
    } else {
      OpsOfBoth(a, b[..|b| - 1]);
      assert (a + b)[..|a + b| - 1] == a + b[..|b| - 1];
    }
  }

  // A request for room that waits behind a write rides in the write's group
  // exactly when nothing up to it stops the group; it stops the group itself
  // only by asking for a sync that the write does not ask for. It adds nothing.
  lemma RequestForRoomRides(queue: seq<Request>, n: nat, i: nat)
    requires IsGroup(queue, n) && 0 < i < |queue| && queue[i].batch == None
    ensures i < n <==> forall j :: 1 <= j <= i ==> !Stops(queue[0], SizeOf(queue[..j]), queue[j])
    ensures Stops(queue[0], SizeOf(queue[..i]), queue[i]) <==> queue[i].sync && !queue[0].sync
    ensures i == 1 ==> (i < n <==> !queue[1].sync || queue[0].sync)
    ensures i < n ==> OpsOf(queue[..n]) == OpsOf(queue[..i] + queue[i + 1..n])
    ensures i < n ==> SizeOf(queue[..n]) == SizeOf(queue[..i] + queue[i + 1..n])
  {
    hide SizeOf, OpsOf;
    if i < n {
      OneMore(queue, i);
      OpsOfBoth(queue[..i + 1], queue[i + 1..n]);
      assert queue[..i + 1] + queue[i + 1..n] == queue[..n];
      OpsOfBoth(queue[..i], queue[i + 1..n]);
    }
  }

  // Such a queue: the write's group takes the request in.
  lemma RoomRidesBehindWrite()
    ensures var write := Request(Some([Op(Deletion, 0.0, [])]), 20, false); var room := Request(None, 0, false);
      IsGroup([write, room], 2) && OpsOf([write, room]) == OpsOf([write])
  {
    var write, room := Request(Some([Op(Deletion, 0.0, [])]), 20, false), Request(None, 0, false);
    assert [write, room][..1] == [write];
    assert [write, room][..2] == [write, room];
  }

  // ----- the state machine -----

  datatype Status = Success | Failure

  datatype Stored = Stored(sn: nat, op: Op)

  // What the writer at the front is doing. The lock is free in all of them.
  datatype Phase =
    | Making                    // in MakeRoomForWrite
    | Logging                   // adding the group's record to the log
    | Syncing
    | Inserting(done: nat)      // into the memtable
    | Finishing(status: Status, syncError: bool)

  datatype Leading = Leading(phase: Phase, count: nat, ops: seq<Op>)

  // A group that has left the queue: its writers, its ops, and what became of them.
  datatype Group = Group(start: nat, count: nat, base: nat, ops: seq<Op>, status: Status)

  datatype State = State(
    arrived: seq<Request>,
    queue: seq<nat>,
    results: map<nat, Status>,
    leader: Option<Leading>,
    lastSequence: nat,
    log: seq<(nat, seq<Op>)>,
    stored: set<Stored>,
    groups: seq<Group>,
    snapshots: set<nat>,
    made: set<nat>,             // writers that went through MakeRoomForWrite themselves
    bgError: bool)

  ghost predicate Init(s: State) {
    s == State([], [], map[], None, 0, [], {}, [], {}, {}, false)
  }

  function Requests(s: State): (r: seq<Request>)
    requires forall i :: 0 <= i < |s.queue| ==> s.queue[i] < |s.arrived|
    ensures |r| == |s.queue|
  {
    seq(|s.queue|, i requires 0 <= i < |s.queue| => s.arrived[s.queue[i]])
  }

  datatype Step =
    | Enqueue(r: Request)
    | Lead
    | NoRoom
    | RoomOnly
    | Build(count: nat)
    | AppendLog(ok: bool)
    | Sync(ok: bool)
    | Insert
    | InsertFails
    | Inserted
    | Finish
    | TakeSnapshot
    | BackgroundError

  predicate InPhase(s: State, p: Phase) {
    s.leader.Some? && s.leader.value.phase == p
  }

  function SetPhase(s: State, p: Phase): State
    requires s.leader.Some?
  {
    s.(leader := Some(s.leader.value.(phase := p)))
  }

  ghost predicate Next(s: State, step: Step, t: State) {
    match step
    case Enqueue(r) =>
      t == s.(arrived := s.arrived + [r], queue := s.queue + [|s.arrived|])
    case Lead =>
      && s.leader == None && s.queue != []
      && t == s.(leader := Some(Leading(Making, 1, [])), made := s.made + {s.queue[0]})
    case NoRoom =>
      InPhase(s, Making) && t == SetPhase(s, Finishing(Failure, false))
    case RoomOnly =>
      && InPhase(s, Making) && !s.bgError && s.queue != [] && s.queue[0] < |s.arrived|
      && s.arrived[s.queue[0]].batch == None
      && t == SetPhase(s, Finishing(Success, false))
    case Build(count) =>
      && InPhase(s, Making) && !s.bgError
      && (forall i :: 0 <= i < |s.queue| ==> s.queue[i] < |s.arrived|)
      && IsGroup(Requests(s), count) && Requests(s)[0].batch.Some?
      && t == s.(leader := Some(Leading(Logging, count, OpsOf(Requests(s)[..count]))))
    case AppendLog(ok) =>
      && InPhase(s, Logging) && s.queue != [] && s.queue[0] < |s.arrived|
      && t == if ok then
                SetPhase(s, if s.arrived[s.queue[0]].sync then Syncing else Inserting(0))
                  .(log := s.log + [(s.lastSequence + 1, s.leader.value.ops)])
              else SetPhase(s, Finishing(Failure, false))
    case Sync(ok) =>
      InPhase(s, Syncing) && t == SetPhase(s, if ok then Inserting(0) else Finishing(Failure, true))
    case Insert =>
      && s.leader.Some? && s.leader.value.phase.Inserting? && s.leader.value.phase.done < |s.leader.value.ops|
      && var i := s.leader.value.phase.done;
         t == SetPhase(s, Inserting(i + 1)).(
           stored := s.stored + {Stored(s.lastSequence + 1 + i, s.leader.value.ops[i])})
    case InsertFails =>
      s.leader.Some? && s.leader.value.phase.Inserting? && t == SetPhase(s, Finishing(Failure, false))
    case Inserted =>
      && s.leader.Some? && s.leader.value.phase == Inserting(|s.leader.value.ops|)
      && t == SetPhase(s, Finishing(Success, false))
    case Finish =>
      && s.leader.Some? && s.leader.value.phase.Finishing? && s.leader.value.count <= |s.queue| && s.queue != []
      && var g := s.leader.value;
         t == s.(leader := None,
                 queue := s.queue[g.count..],
                 results := Answered(s.results, s.queue[..g.count], g.phase.status),
                 lastSequence := s.lastSequence + |g.ops|,
                 groups := s.groups + [Group(s.queue[0], g.count, s.lastSequence, g.ops, g.phase.status)],
                 bgError := s.bgError || g.phase.syncError)
    case TakeSnapshot =>
      t == s.(snapshots := s.snapshots + {s.lastSequence})
    case BackgroundError =>
      t == s.(bgError := true)
  }

  function Answered(results: map<nat, Status>, ws: seq<nat>, status: Status): map<nat, Status> {
    results + map w | w in ws :: status
  }

  // ----- the invariant -----

  function GroupEnd(groups: seq<Group>): nat {
    if groups == [] then 0 else groups[|groups| - 1].start + groups[|groups| - 1].count
  }

  function SequenceEnd(groups: seq<Group>): nat {
    if groups == [] then 0 else groups[|groups| - 1].base + |groups[|groups| - 1].ops|
  }

  // Groups take consecutive writers and consecutive sequence numbers.
  ghost predicate Chained(groups: seq<Group>) {
    && (forall i :: 0 <= i < |groups| ==> groups[i].count >= 1)
    && forall i :: 0 <= i < |groups| ==>
         groups[i].start == GroupEnd(groups[..i]) && groups[i].base == SequenceEnd(groups[..i])
  }

  // The queue is everybody who has arrived and is in no finished group.
  ghost predicate QueueOk(arrived: seq<Request>, queue: seq<nat>, end: nat) {
    |arrived| == end + |queue| && forall i :: 0 <= i < |queue| ==> queue[i] == end + i
  }

  // Exactly those in finished groups have left, each with its group's status.
  ghost predicate ResultsOk(results: map<nat, Status>, groups: seq<Group>) {
    && (forall w :: w in results <==> 0 <= w < GroupEnd(groups))
    && forall i, w :: 0 <= i < |groups| && groups[i].start <= w < groups[i].start + groups[i].count ==>
         w in results && results[w] == groups[i].status
  }

  // The ops of a run of writers, in order; its leader has a batch if it is not
  // alone, and syncs if any of them does.
  ghost predicate Faithful(arrived: seq<Request>, start: nat, count: nat, ops: seq<Op>) {
    && start + count <= |arrived|
    && ops == OpsOf(arrived[start..start + count])
    && (count > 1 ==> arrived[start].batch.Some?)
    && forall i :: start <= i < start + count && arrived[i].sync ==> arrived[start].sync
  }

  // A group that never got as far as its batch has one writer and no ops.
  ghost predicate GroupOk(arrived: seq<Request>, g: Group) {
    || Faithful(arrived, g.start, g.count, g.ops)
    || (g.status == Failure && g.count == 1 && g.ops == [] && g.start < |arrived|)
  }

  ghost predicate GroupsOk(arrived: seq<Request>, groups: seq<Group>) {
    forall i :: 0 <= i < |groups| ==> GroupOk(arrived, groups[i])
  }

  ghost predicate Holds(stored: set<Stored>, base: nat, ops: seq<Op>, n: nat)
    requires n <= |ops|
  {
    forall i :: 0 <= i < n ==> Stored(base + 1 + i, ops[i]) in stored
  }

  ghost predicate GroupsHeld(stored: set<Stored>, groups: seq<Group>) {
    forall i :: 0 <= i < |groups| && groups[i].status == Success ==>
      Holds(stored, groups[i].base, groups[i].ops, |groups[i].ops|)
  }

  predicate OpOf(base: nat, ops: seq<Op>, x: Stored) {
    base < x.sn <= base + |ops| && ops[x.sn - base - 1] == x.op
  }

  // The entry is an op of a finished group, at its own sequence number.
  ghost predicate InGroup(groups: seq<Group>, x: Stored) {
    exists i :: 0 <= i < |groups| && OpOf(groups[i].base, groups[i].ops, x)
  }

  function LeaderOps(leader: Option<Leading>): seq<Op> {
    if leader.Some? then leader.value.ops else []
  }

  ghost predicate AllOwned(stored: set<Stored>, groups: seq<Group>, base: nat, ops: seq<Op>) {
    forall x :: x in stored ==> InGroup(groups, x) || OpOf(base, ops, x)
  }

  // A value lastSequence has had: zero, or where some group ended.
  ghost predicate Boundary(groups: seq<Group>, n: nat) {
    exists i :: 0 <= i <= |groups| && n == SequenceEnd(groups[..i])
  }

  ghost predicate SnapshotsOk(snapshots: set<nat>, groups: seq<Group>) {
    forall n :: n in snapshots ==> Boundary(groups, n)
  }

  ghost predicate LeaderOk(arrived: seq<Request>, waiting: nat, end: nat, base: nat, stored: set<Stored>, l: Leading) {
    && 1 <= l.count <= waiting
    && match l.phase
       case Making => l.count == 1 && l.ops == []
       case Logging => Faithful(arrived, end, l.count, l.ops)
       case Syncing => Faithful(arrived, end, l.count, l.ops)
       case Inserting(done) =>
         Faithful(arrived, end, l.count, l.ops) && done <= |l.ops| && Holds(stored, base, l.ops, done)
       case Finishing(status, _) =>
         && GroupOk(arrived, Group(end, l.count, base, l.ops, status))
         && (status == Success ==> Holds(stored, base, l.ops, |l.ops|))
  }

  // Those who made room are the first of each group, and the one leading now.
  ghost predicate MadeOk(made: set<nat>, groups: seq<Group>, end: nat, leading: bool) {
    forall w :: w in made <==> (exists i :: 0 <= i < |groups| && groups[i].start == w) || (leading && w == end)
  }

  ghost predicate Inv(s: State) {
    && QueueOk(s.arrived, s.queue, GroupEnd(s.groups))
    && ResultsOk(s.results, s.groups)
    && Chained(s.groups)
    && s.lastSequence == SequenceEnd(s.groups)
    && GroupsOk(s.arrived, s.groups)
    && GroupsHeld(s.stored, s.groups)
    && AllOwned(s.stored, s.groups, s.lastSequence, LeaderOps(s.leader))
    && SnapshotsOk(s.snapshots, s.groups)
    && MadeOk(s.made, s.groups, GroupEnd(s.groups), s.leader.Some?)
    && (s.leader.Some? ==>
          LeaderOk(s.arrived, |s.queue|, GroupEnd(s.groups), s.lastSequence, s.stored, s.leader.value))
  }

  lemma InitHolds(s: State)
    requires Init(s)
    ensures Inv(s)
  {
  }

  // Every step keeps the invariant.
  lemma StepKeepsInv(s: State, step: Step, t: State)
    requires Inv(s) && Next(s, step, t)
    ensures Inv(t)
  {
    match step
    case Enqueue(r) => EnqueueKeeps(s, r, t);
    case NoRoom => NoRoomKeeps(s, t);
    case RoomOnly => RoomOnlyKeeps(s, t);
    case Build(count) => BuildKeeps(s, count, t);
    case Insert => InsertKeeps(s, t);
    case InsertFails => LogStepKeeps(s, step, t);
    case Inserted => LogStepKeeps(s, step, t);
    case AppendLog(ok) => LogStepKeeps(s, step, t);
    case Sync(ok) => LogStepKeeps(s, step, t);
    case Finish => FinishKeeps(s, t);
    case TakeSnapshot => SnapshotKeeps(s, t);
    case Lead => LeadKeeps(s, t);
    case BackgroundError =>
      hide QueueOk, ResultsOk, Chained, GroupsOk, GroupsHeld, AllOwned, SnapshotsOk, LeaderOk, GroupEnd, SequenceEnd;
  }

  lemma EnqueueKeeps(s: State, r: Request, t: State)
    requires Inv(s) && Next(s, Enqueue(r), t)
    ensures Inv(t)
  {
    hide ResultsOk, Chained, GroupsHeld, AllOwned, SnapshotsOk, GroupEnd, SequenceEnd, Faithful, Holds;
    forall start: nat, count: nat, ops | Faithful(s.arrived, start, count, ops)
      ensures Faithful(t.arrived, start, count, ops)
    {
      FaithfulGrows(s.arrived, r, start, count, ops);
    }
  }

  lemma {:induction false} FaithfulGrows(arrived: seq<Request>, r: Request, start: nat, count: nat, ops: seq<Op>)
    requires Faithful(arrived, start, count, ops)
    ensures Faithful(arrived + [r], start, count, ops)
  {
    hide OpsOf;
    assert (arrived + [r])[start..start + count] == arrived[start..start + count];
  }

  lemma LeadKeeps(s: State, t: State)
    requires Inv(s) && Next(s, Lead, t)
    ensures Inv(t)
  {
    hide ResultsOk, Chained, GroupsOk, GroupsHeld, AllOwned, SnapshotsOk, GroupEnd, SequenceEnd, Faithful, Holds;
  }

  lemma NoRoomKeeps(s: State, t: State)
    requires Inv(s) && Next(s, NoRoom, t)
    ensures Inv(t)
  {
    hide ResultsOk, Chained, GroupsOk, GroupsHeld, AllOwned, SnapshotsOk, GroupEnd, SequenceEnd, Faithful, Holds;
  }

  lemma {:induction false} RoomOnlyKeeps(s: State, t: State)
    requires Inv(s) && Next(s, RoomOnly, t)
    ensures Inv(t)
  {
    hide ResultsOk, Chained, GroupsOk, GroupsHeld, AllOwned, SnapshotsOk, GroupEnd, SequenceEnd;
    var end := GroupEnd(s.groups);
    assert s.arrived[end..end + 1] == [s.arrived[end]];
    OneMore([s.arrived[end]], 0);
    assert [s.arrived[end]][..1] == [s.arrived[end]] && [s.arrived[end]][..0] == [];
  }

  // The requests waiting are the last of those that arrived.
  lemma QueueIsTail(s: State, count: nat)
    requires QueueOk(s.arrived, s.queue, GroupEnd(s.groups)) && count <= |s.queue|
    ensures forall i :: 0 <= i < |s.queue| ==> s.queue[i] < |s.arrived|
    ensures var end := GroupEnd(s.groups);
      && end + |s.queue| == |s.arrived| && Requests(s) == s.arrived[end..]
      && Requests(s)[..count] == s.arrived[end..end + count]
  {
    hide GroupEnd;
  }

  lemma {:induction false} GroupIsFaithful(arrived: seq<Request>, end: nat, count: nat)
    requires end < |arrived| && IsGroup(arrived[end..], count) && arrived[end].batch.Some?
    ensures end + count <= |arrived| && Faithful(arrived, end, count, OpsOf(arrived[end..end + count]))
  {
    hide OpsOf, SizeOf;
    forall i | end <= i < end + count && arrived[i].sync ensures arrived[end].sync {
      SyncRidesOnlyWithSync(arrived[end..], count, i - end);
    }
  }

  lemma BuildKeeps(s: State, count: nat, t: State)
    requires Inv(s) && Next(s, Build(count), t)
    ensures Inv(t)
  {
    hide OpsOf, SizeOf, ResultsOk, Chained, GroupsOk, GroupsHeld, SnapshotsOk, GroupEnd, SequenceEnd, Holds, InGroup,
      OpOf, MadeOk, QueueOk, Faithful, IsGroup, Requests;
    var end := GroupEnd(s.groups);
    GroupFits(Requests(s), count);
    QueueIsTail(s, count);
    GroupIsFaithful(s.arrived, end, count);
    OwnedStays(s.stored, s.groups, s.lastSequence, t.leader.value.ops);
  }

  lemma GroupFits(queue: seq<Request>, n: nat)
    requires IsGroup(queue, n)
    ensures 1 <= n <= |queue|
  {
  }

  // With no ops in the leader's hands all entries belong to finished groups.
  lemma OwnedStays(stored: set<Stored>, groups: seq<Group>, base: nat, ops: seq<Op>)
    requires AllOwned(stored, groups, base, [])
    ensures AllOwned(stored, groups, base, ops)
  {
    hide InGroup;
  }

  lemma LogStepKeeps(s: State, step: Step, t: State)
    requires Inv(s) && Next(s, step, t)
    requires step.AppendLog? || step.Sync? || step.InsertFails? || step.Inserted?
    ensures Inv(t)
  {
    hide QueueOk, ResultsOk, Chained, GroupsOk, GroupsHeld, AllOwned, SnapshotsOk, GroupEnd, SequenceEnd, Faithful;
  }

  lemma InsertKeeps(s: State, t: State)
    requires Inv(s) && Next(s, Insert, t)
    ensures Inv(t)
  {
    hide QueueOk, ResultsOk, Chained, GroupsOk, SnapshotsOk, GroupEnd, SequenceEnd, Faithful, InGroup;
  }

  lemma SnapshotKeeps(s: State, t: State)
    requires Inv(s) && Next(s, TakeSnapshot, t)
    ensures Inv(t)
  {
    hide QueueOk, ResultsOk, Chained, GroupsOk, GroupsHeld, AllOwned, SequenceEnd, GroupEnd, LeaderOk;
    assert s.groups[..|s.groups|] == s.groups;
  }

  lemma FinishKeeps(s: State, t: State)
    requires Inv(s) && Next(s, Finish, t)
    ensures Inv(t)
  {
    hide Chained, ResultsOk, GroupsHeld, AllOwned, SnapshotsOk, MadeOk, Faithful, Holds, GroupEnd, SequenceEnd,
      Answered;
    var l := s.leader.value;
    var g := Group(s.queue[0], l.count, s.lastSequence, l.ops, l.phase.status);
    ChainGrows(s.groups, g);
    ResultsGrow(s.results, s.groups, g, s.queue[..l.count]);
    OwnedGrows(s.stored, s.groups, g);
    SnapshotsGrow(s.snapshots, s.groups, g);
    HeldGrows(s.stored, s.groups, g);
    MadeGrows(s.made, s.groups, g);
  }

  lemma ChainGrows(groups: seq<Group>, g: Group)
    requires Chained(groups) && g.count >= 1 && g.start == GroupEnd(groups) && g.base == SequenceEnd(groups)
    ensures Chained(groups + [g])
    ensures GroupEnd(groups + [g]) == g.start + g.count && SequenceEnd(groups + [g]) == g.base + |g.ops|
  {
    var all := groups + [g];
    assert all[..|groups|] == groups;
    assert forall i :: 0 <= i < |groups| ==> all[..i] == groups[..i];
  }

  lemma ResultsGrow(results: map<nat, Status>, groups: seq<Group>, g: Group, ws: seq<nat>)
    requires ResultsOk(results, groups) && Chained(groups) && g.start == GroupEnd(groups) && |ws| == g.count >= 1
    requires forall i :: 0 <= i < |ws| ==> ws[i] == g.start + i
    ensures ResultsOk(Answered(results, ws, g.status), groups + [g])
  {
    assert GroupEnd(groups + [g]) == g.start + g.count;
    var t := Answered(results, ws, g.status);
    forall w | g.start <= w < g.start + g.count ensures w in ws {
      assert ws[w - g.start] == w;
    }
    hide Chained, GroupEnd;
    forall i | 0 <= i < |groups| ensures groups[i].start + groups[i].count <= GroupEnd(groups) {
      EndsBefore(groups, i);
    }
  }

  lemma ChainPrefix(groups: seq<Group>, n: nat)
    requires Chained(groups) && n <= |groups|
    ensures Chained(groups[..n])
  {
    assert forall i :: 0 <= i < n ==> groups[..n][..i] == groups[..i];
  }

  // Groups end in order.
  lemma {:induction false} EndsOrdered(groups: seq<Group>, i: nat, j: nat)
    requires Chained(groups) && i <= j <= |groups|
    ensures GroupEnd(groups[..i]) <= GroupEnd(groups[..j]) && SequenceEnd(groups[..i]) <= SequenceEnd(groups[..j])
    decreases j
  {
    if i < j {
      EndsOrdered(groups, i, j - 1);
      assert groups[..j][j - 1] == groups[j - 1];
    }
  }

  // Group i starts where the groups before it end, and the next one after it.
  lemma GroupSpan(groups: seq<Group>, i: nat)
    requires Chained(groups) && i < |groups|
    ensures groups[i].start == GroupEnd(groups[..i]) && groups[i].start + groups[i].count == GroupEnd(groups[..i + 1])
    ensures groups[i].base == SequenceEnd(groups[..i])
    ensures groups[i].base + |groups[i].ops| == SequenceEnd(groups[..i + 1])
  {
    assert groups[..i + 1][i] == groups[i];
  }

  lemma EndsBefore(groups: seq<Group>, i: nat)
    requires Chained(groups) && i < |groups|
    ensures groups[i].start + groups[i].count <= GroupEnd(groups)
    ensures groups[i].base + |groups[i].ops| <= SequenceEnd(groups)
  {
    GroupSpan(groups, i);
    EndsOrdered(groups, i + 1, |groups|);
    assert groups[..|groups|] == groups;
  }

  lemma OwnedGrows(stored: set<Stored>, groups: seq<Group>, g: Group)
    requires AllOwned(stored, groups, g.base, g.ops)
    ensures AllOwned(stored, groups + [g], g.base + |g.ops|, [])
  {
    var all := groups + [g];
    forall x | x in stored ensures InGroup(all, x) {
      if InGroup(groups, x) {
        var i :| 0 <= i < |groups| && OpOf(groups[i].base, groups[i].ops, x);
        assert all[i] == groups[i];
      } else {
        assert all[|groups|] == g;
      }
    }
  }

  lemma SnapshotsGrow(snapshots: set<nat>, groups: seq<Group>, g: Group)
    requires SnapshotsOk(snapshots, groups)
    ensures SnapshotsOk(snapshots, groups + [g])
  {
    forall n | n in snapshots ensures Boundary(groups + [g], n) {
      assert Boundary(groups, n);
      var i :| 0 <= i <= |groups| && n == SequenceEnd(groups[..i]);
      assert (groups + [g])[..i] == groups[..i];
    }
  }

  lemma MadeGrows(made: set<nat>, groups: seq<Group>, g: Group)
    requires MadeOk(made, groups, g.start, true)
    ensures forall end :: MadeOk(made, groups + [g], end, false)
  {
    var all := groups + [g];
    forall w ensures w in made <==> exists i :: 0 <= i < |all| && all[i].start == w {
      if i :| 0 <= i < |groups| && groups[i].start == w {
        assert all[i].start == w;
      }
      assert all[|groups|] == g;
    }
  }

  lemma HeldGrows(stored: set<Stored>, groups: seq<Group>, g: Group)
    requires GroupsHeld(stored, groups) && (g.status == Success ==> Holds(stored, g.base, g.ops, |g.ops|))
    ensures GroupsHeld(stored, groups + [g])
  {
  }

  // ----- what holds over every run -----

  ghost predicate IsRun(states: seq<State>, steps: seq<Step>) {
    && |states| == |steps| + 1 && Init(states[0])
    && forall i :: 0 <= i < |steps| ==> Next(states[i], steps[i], states[i + 1])
  }

  lemma {:induction false} RunKeepsInv(states: seq<State>, steps: seq<Step>, n: nat)
    requires IsRun(states, steps) && n <= |steps|
    ensures Inv(states[n])
    decreases n
  {
    hide Inv;
    if n == 0 {
      InitHolds(states[0]);
    } else {
      RunKeepsInv(states, steps, n - 1);
      assert Next(states[n - 1], steps[n - 1], states[n]);
      StepKeepsInv(states[n - 1], steps[n - 1], states[n]);
    }
  }

  // A writer leaves the queue once: an answer given is never changed, and a new
  // one goes to a writer still queued, in queue order, with its group's status.
  lemma LeavesOnce(s: State, step: Step, t: State, w: nat)
    requires Inv(s) && Next(s, step, t)
    ensures w in s.results ==> w in t.results && t.results[w] == s.results[w] && w !in s.queue
    ensures w !in s.results && w in t.results ==>
      step.Finish? && w in s.queue[..s.leader.value.count] && t.results[w] == s.leader.value.phase.status &&
        w !in t.queue
  {
    if step.Finish? {
      var l := s.leader.value;
      var ws := s.queue[..l.count];
      assert forall x :: x in ws ==> x >= GroupEnd(s.groups);
      assert forall x :: x in s.queue[l.count..] ==> x >= GroupEnd(s.groups) + l.count;
    }
  }

  // An answered writer is in exactly one group.
  lemma {:induction false} InOneGroup(groups: seq<Group>, w: nat) returns (i: nat)
    requires Chained(groups) && w < GroupEnd(groups)
    ensures i < |groups| && groups[i].start <= w < groups[i].start + groups[i].count
    ensures forall j :: 0 <= j < |groups| && j != i ==> !(groups[j].start <= w < groups[j].start + groups[j].count)
    decreases |groups|
  {
    var last := |groups| - 1;
    if w >= groups[last].start {
      i := last;
    } else {
      ChainPrefix(groups, last);
      i := InOneGroup(groups[..last], w);
    }
    forall j | 0 <= j < |groups| && j != i ensures !(groups[j].start <= w < groups[j].start + groups[j].count) {
      GroupSpan(groups, i);
      GroupSpan(groups, j);
      if j < i {
        EndsOrdered(groups, j + 1, i);
      } else {
        EndsOrdered(groups, i + 1, j);
      }
    }
  }

  lemma AnswerIsGroups(s: State, w: nat) returns (i: nat)
    requires Inv(s) && w in s.results
    ensures i < |s.groups| && s.groups[i].start <= w < s.groups[i].start + s.groups[i].count
    ensures s.results[w] == s.groups[i].status
  {
    i := InOneGroup(s.groups, w);
  }

  // An answered request went through MakeRoomForWrite itself exactly when it was
  // the first of its group. One without a batch that was not the first is
  // answered with the group of a write; one that was the first is alone in its group.
  lemma OnlyLeadersMakeRoom(s: State, w: nat) returns (i: nat)
    requires Inv(s) && w in s.results
    ensures i < |s.groups| && s.groups[i].start <= w < s.groups[i].start + s.groups[i].count
    ensures s.results[w] == s.groups[i].status
    ensures w in s.made <==> s.groups[i].start == w
    ensures w < |s.arrived| && s.groups[i].start < |s.arrived|
    ensures w in s.made && s.arrived[w].batch == None ==> s.groups[i].count == 1
    ensures w !in s.made ==> s.arrived[s.groups[i].start].batch.Some?
  {
    i := AnswerIsGroups(s, w);
    assert GroupOk(s.arrived, s.groups[i]);
    if w in s.made {
      var j :| 0 <= j < |s.groups| && s.groups[j].start == w;
      FirstOfGroup(s, w, i, j);
    }
  }

  lemma FirstOfGroup(s: State, w: nat, i: nat, j: nat)
    requires Inv(s) && i < |s.groups| && j < |s.groups| && s.groups[j].start == w
    requires s.groups[i].start <= w < s.groups[i].start + s.groups[i].count
    ensures i == j
  {
    assert s.groups[j].count >= 1;
    if i < j {
      RangesDisjoint(s, i, j);
    } else if j < i {
      RangesDisjoint(s, j, i);
    }
  }

  // Sequence numbers of different groups do not meet, and follow queue order.
  lemma RangesDisjoint(s: State, i: nat, j: nat)
    requires Inv(s) && i < j < |s.groups|
    ensures s.groups[i].base + |s.groups[i].ops| <= s.groups[j].base
    ensures s.groups[i].start + s.groups[i].count <= s.groups[j].start
  {
    GroupSpan(s.groups, i);
    GroupSpan(s.groups, j);
    EndsOrdered(s.groups, i + 1, j);
  }

  // A reader, at any value lastSequence has had, sees all of an acknowledged
  // group or nothing of it; what it sees belongs to finished groups.
  lemma AllOrNone(s: State, n: nat, i: nat)
    requires Inv(s) && (n in s.snapshots || n == s.lastSequence) && i < |s.groups|
    ensures s.groups[i].base + |s.groups[i].ops| <= n || n <= s.groups[i].base
    ensures s.groups[i].status == Success && n > s.groups[i].base ==>
      forall k :: 0 <= k < |s.groups[i].ops| ==>
        var x := Stored(s.groups[i].base + 1 + k, s.groups[i].ops[k]); x in s.stored && x.sn <= n
  {
    var groups := s.groups;
    assert groups[..|groups|] == groups;
    assert n == s.lastSequence ==> Boundary(groups, n);
    var j :| 0 <= j <= |groups| && n == SequenceEnd(groups[..j]);
    GroupSpan(groups, i);
    if j <= i {
      EndsOrdered(groups, j, i);
    } else {
      EndsOrdered(groups, i + 1, j);
    }
  }

  lemma VisibleIsFinished(s: State, n: nat, x: Stored)
    requires Inv(s) && (n in s.snapshots || n == s.lastSequence) && x in s.stored && x.sn <= n
    ensures InGroup(s.groups, x)
  {
    if n in s.snapshots {
      assert Boundary(s.groups, n);
      var j :| 0 <= j <= |s.groups| && n == SequenceEnd(s.groups[..j]);
      EndsOrdered(s.groups, j, |s.groups|);
      assert s.groups[..|s.groups|] == s.groups;
    }
  }

  // A writer's own batch is one stretch of its group's ops.
  lemma {:induction false} BatchInGroup(rs: seq<Request>, i: nat) returns (before: seq<Op>, after: seq<Op>)
    requires i < |rs|
    ensures before == OpsOf(rs[..i])
    ensures OpsOf(rs) == before + (if rs[i].batch.Some? then rs[i].batch.value else []) + after
    decreases |rs|
  {
    var last := |rs| - 1;
    if i == last {
      before, after := OpsOf(rs[..i]), [];
      OneMore(rs, i);
      assert rs[..i + 1] == rs;
    } else {
      before, after := BatchInGroup(rs[..last], i);
      assert rs[..last][..i] == rs[..i];
      after := after + if rs[last].batch.Some? then rs[last].batch.value else [];
    }
  }

  // An error is on record and no group is past making room.
  predicate Dead(s: State) {
    && s.bgError
    && match s.leader
       case None => true
       case Some(l) => l.phase == Making || (l.phase.Finishing? && l.phase.status == Failure)
  }

  // Once a failed sync is answered, nothing succeeds, is logged or is stored any more.
  lemma FailedSyncKills(s: State, t: State)
    requires Inv(s) && Next(s, Finish, t) && s.leader.value.phase.syncError
    ensures Dead(t)
  {
  }

  lemma DeadStaysDead(s: State, step: Step, t: State, w: nat)
    requires Inv(s) && Dead(s) && Next(s, step, t)
    ensures Dead(t) && t.log == s.log && t.stored == s.stored
    ensures w !in s.results && w in t.results ==> t.results[w] == Failure
  {
    hide Chained, GroupsOk, GroupsHeld, AllOwned, SnapshotsOk, ResultsOk, QueueOk, LeaderOk;
  }
}
