/**
 * Replicas of the metadata store that share one committed log. They batch differently, read different clocks,
 * crash and restart, exchange snapshots, append and drop uncommitted entries, and purge their logs.
 */
module Replication {
  import opened Wrappers
  import opened Bytes
  import opened OrderedTree
  import opened RaftTypes
  import opened LogStore
  import opened LogRefinement
  import opened StateMachine

  // ------------------------------------------------------------------ states up to the clock

  /** The state without the one field that is read from the local clock. */
  function Erase(st: RaftState): RaftState {
    st.(jobs := map j | j in st.jobs :: st.jobs[j].(updatedAt := ""))
  }

  predicate SameButClock(a: RegisteredJob, b: RegisteredJob) {
    a.(updatedAt := "") == b.(updatedAt := "")
  }

  predicate Agree(a: RaftState, b: RaftState) {
    && a.lastApplied == b.lastApplied && a.lastMembership == b.lastMembership && a.tokens == b.tokens
    && a.jobs.Keys == b.jobs.Keys
    && forall j :: j in a.jobs ==> SameButClock(a.jobs[j], b.jobs[j])
  }

  lemma EraseIsAgree(a: RaftState, b: RaftState)
    ensures Erase(a) == Erase(b) <==> Agree(a, b)
    ensures Erase(a) == Erase(b) <==>
      && a.lastApplied == b.lastApplied && a.lastMembership == b.lastMembership && a.tokens == b.tokens
      && a.jobs.Keys == b.jobs.Keys
      && forall j :: j in a.jobs ==>
           && a.jobs[j].jobId == b.jobs[j].jobId && a.jobs[j].nodeId == b.jobs[j].nodeId
           && a.jobs[j].runtime == b.jobs[j].runtime && a.jobs[j].status == b.jobs[j].status
           && a.jobs[j].createdAt == b.jobs[j].createdAt
  {
    if Erase(a) == Erase(b) {
      assert a.jobs.Keys == Erase(a).jobs.Keys == b.jobs.Keys;
      forall j | j in a.jobs ensures SameButClock(a.jobs[j], b.jobs[j]) {
        assert Erase(a).jobs[j] == Erase(b).jobs[j];
      }
    }
    if Agree(a, b) {
      assert Erase(a).jobs == Erase(b).jobs;
    }
  }

  lemma CommandAgrees(a: RaftState, b: RaftState, cmd: RaftCommand, t: string, u: string)
    requires Agree(a, b)
    ensures Agree(ApplyCommand(a, cmd, t).0, ApplyCommand(b, cmd, u).0)
    ensures ApplyCommand(a, cmd, t).1 == ApplyCommand(b, cmd, u).1
  {
    if cmd.RegisterJob? {
    } else if cmd.UpdateJobStatus? {
      var id := cmd.jobId;
      if id in a.jobs {
        assert SameButClock(a.jobs[id], b.jobs[id]);
        assert SameButClock(ApplyCommand(a, cmd, t).0.jobs[id], ApplyCommand(b, cmd, u).0.jobs[id]);
      }
    }
  }

  lemma EntryAgrees(a: RaftState, b: RaftState, e: Entry, t: string, u: string)
    requires Agree(a, b)
    ensures Agree(ApplyEntry(a, e, t).0, ApplyEntry(b, e, u).0)
    ensures ApplyEntry(a, e, t).1 == ApplyEntry(b, e, u).1
  {
    hide ApplyCommand;
    if e.payload.Normal? {
      CommandAgrees(a.(lastApplied := Some(e.logId)), b.(lastApplied := Some(e.logId)), e.payload.cmd, t, u);
    }
  }

  /** One entry keeps two states equal up to the clock and answers both alike. */
  lemma EntryErased(a: RaftState, b: RaftState, e: Entry, t: string, u: string)
    requires Erase(a) == Erase(b)
    ensures Erase(ApplyEntry(a, e, t).0) == Erase(ApplyEntry(b, e, u).0)
    ensures ApplyEntry(a, e, t).1 == ApplyEntry(b, e, u).1
  {
    hide Erase, ApplyEntry, Agree;
    EraseIsAgree(a, b);
    EntryAgrees(a, b, e, t, u);
    EraseIsAgree(ApplyEntry(a, e, t).0, ApplyEntry(b, e, u).0);
  }

  function Silence(n: nat): (clock: seq<string>)
    ensures |clock| == n
  {
    seq(n, _ => "")
  }

  /** What a machine that never crashed and never saw a snapshot makes of the log, with a clock that stands still. */
  function Reference(log: seq<Entry>): RaftState {
    ApplyAll(DEFAULT_STATE, log, Silence(|log|)).0
  }

  function ReplyTo(log: seq<Entry>, i: nat): Response
    requires i < |log|
  {
    ApplyEntry(Reference(log[..i]), log[i], "").1
  }

  /** How many entries the state has absorbed. */
  function Position(st: RaftState): nat {
    if st.lastApplied.None? then 0 else st.lastApplied.value.index + 1
  }

  /** The state is what the committed log says at the state's own position. */
  ghost predicate Tracks(st: RaftState, log: seq<Entry>) {
    Position(st) <= |log| && Erase(st) == Erase(Reference(log[..Position(st)]))
  }

  lemma ReferenceStep(log: seq<Entry>, c: nat)
    requires 0 < c <= |log|
    ensures Reference(log[..c]) == ApplyEntry(Reference(log[..c - 1]), log[c - 1], "").0
  {
    assert log[..c][..c - 1] == log[..c - 1];
    assert Silence(c)[..c - 1] == Silence(c - 1);
  }

  lemma BatchStep(log: seq<Entry>, st: RaftState, p: nat, c: nat, clock: seq<string>)
    requires p < c <= |log| && |clock| == c - p
    ensures
      var (before, replies) := ApplyAll(st, log[p..c - 1], clock[..c - 1 - p]);
      var (after, reply) := ApplyEntry(before, log[c - 1], clock[c - 1 - p]);
      ApplyAll(st, log[p..c], clock) == (after, replies + [reply])
  {
    assert log[p..c][..c - 1 - p] == log[p..c - 1];
  }

  /** Applying the next entries, in any batch and at any times, tracks the log and gives the reference replies. */
  lemma {:induction false} BatchTracks(log: seq<Entry>, st: RaftState, c: nat, clock: seq<string>)
    requires Consecutive(log, 0)
    requires Tracks(st, log) && Position(st) <= c <= |log| && |clock| == c - Position(st)
    ensures
      var p := Position(st);
      var (after, replies) := ApplyAll(st, log[p..c], clock);
      && Position(after) == c && Tracks(after, log)
      && forall i :: p <= i < c ==> replies[i - p] == ReplyTo(log, i)
    decreases c
  {
    hide Erase, ApplyEntry, Reference;
    var p := Position(st);
    if p == c {
      assert log[p..c] == [];
    } else {
      var n := c - p - 1;
      BatchTracks(log, st, c - 1, clock[..n]);
      BatchStep(log, st, p, c, clock);
      ReferenceStep(log, c);
      var before := ApplyAll(st, log[p..c - 1], clock[..n]).0;
      EntryErased(before, Reference(log[..c - 1]), log[c - 1], clock[n], "");
      EntryMarks(before, log[c - 1], clock[n]);
    }
  }

  // ------------------------------------------------------------------ the system

  /** `mem` is None while the process is down; `known` counts the entries that openraft has told it are committed. */
  datatype Replica = Replica(
    mem: Option<RaftState>, db: Option<Json>, tree: Tree, meta: map<string, Json>, known: nat)

  datatype System = System(replicas: seq<Replica>, snapshots: set<Snapshot>, replies: set<(nat, Response)>)

  datatype Step =
    | Append(es: seq<Entry>, start: nat)
    | Truncate(id: LogId, removals: nat)
    | Commit(count: nat)
    | Purge(id: LogId)
    | CrashedPurge(id: LogId, removals: nat)
    | Apply(count: nat, clock: seq<string>)
    | Crash
    | Restart
    | TakeSnapshot(taken: Snapshot)
    | Install(snapshot: Snapshot)

  const FRESH: Replica := Replica(Some(DEFAULT_STATE), None, map[], map[], 0)

  function Persisted(r: Replica): nat {
    Position(Decoded(r.db))
  }

  /** The unapplied entries below `count`, as a range of the replica's own log. */
  function Pending(r: Replica, count: u64): Range
    requires r.mem.Some? && Position(r.mem.value) < TWO_64
  {
    Range(Included(Position(r.mem.value)), Excluded(count))
  }

  /** openraft's calling discipline. */
  ghost predicate Enabled(log: seq<Entry>, s: System, r: Replica, step: Step)
    requires WellKeyed(r.tree)
  {
    match step
    case Append(es, start) => Consecutive(es, start) && r.known <= start
    case Truncate(id, removals) => r.known <= id.index && removals <= |SortedKeys(KeysIn(r.tree, From(id.index)))|
    case Commit(count) =>
      r.known <= count <= |log| && forall i: u64 :: r.known <= i < count ==> At(r.tree, i) == Some(EntryJson(log[i]))
    case Purge(id) => id.index < Persisted(r)
    case CrashedPurge(id, removals) =>
      id.index < Persisted(r) && removals <= |SortedKeys(KeysIn(r.tree, UpTo(id.index)))|
    case Apply(count, clock) =>
      && r.mem.Some? && Position(r.mem.value) <= count <= r.known && count < TWO_64
      && ReadRange(r.tree, Pending(r, count)).Ok?
      && |clock| == |ReadRange(r.tree, Pending(r, count)).value|
    case Crash => r.mem.Some?
    case Restart => r.mem.None?
    case TakeSnapshot(taken) => r.mem.Some? && Captures(taken, r.mem.value)
    case Install(snapshot) =>
      && r.mem.Some? && snapshot in s.snapshots
      && snapshot.data.StateJson? && Persisted(r) <= Position(Installed(snapshot))
  }

  /** The replica after its step; every branch is a call or an interrupted call of the two stores. */
  ghost function Stepped(r: Replica, step: Step): Replica
    requires WellKeyed(r.tree)
    requires step.Truncate? ==> step.removals <= |SortedKeys(KeysIn(r.tree, From(step.id.index)))|
    requires step.CrashedPurge? ==> step.removals <= |SortedKeys(KeysIn(r.tree, UpTo(step.id.index)))|
    requires step.Apply? ==>
      && r.mem.Some? && Position(r.mem.value) <= step.count < TWO_64
      && ReadRange(r.tree, Pending(r, step.count)).Ok?
      && |step.clock| == |ReadRange(r.tree, Pending(r, step.count)).value|
    requires step.Install? ==> step.snapshot.data.StateJson?
  {
    match step
    case Append(es, _) => r.(tree := InsertAll(r.tree, es))
    case Truncate(id, removals) =>
      var finished := removals == |SortedKeys(KeysIn(r.tree, From(id.index)))|;
      r.(tree := RemovalSteps(r.tree, From(id.index), removals), mem := if finished then r.mem else None)
    case Commit(count) => r.(known := count)
    case Purge(id) =>
      r.(tree := AfterRemoval(r.tree, UpTo(id.index)), meta := r.meta["last_purged" := LogIdJson(id)])
    case CrashedPurge(id, removals) => r.(mem := None, tree := RemovalSteps(r.tree, UpTo(id.index), removals))
    case Apply(count, clock) =>
      var after := ApplyAll(r.mem.value, ReadRange(r.tree, Pending(r, count)).value, clock).0;
      r.(mem := Some(after), db := Some(StateJson(after)))
    case Crash => r.(mem := None)
    case Restart => r.(mem := Some(Decoded(r.db)))
    case TakeSnapshot(_) => r
    case Install(snapshot) =>
      var st := Installed(snapshot);
      r.(mem := Some(st), db := Some(StateJson(st)), known := Max(r.known, Position(st)))
  }

  ghost function Replies(r: Replica, count: nat, clock: seq<string>): set<(nat, Response)>
    requires WellKeyed(r.tree) && r.mem.Some? && Position(r.mem.value) <= count < TWO_64
    requires ReadRange(r.tree, Pending(r, count)).Ok?
    requires |clock| == |ReadRange(r.tree, Pending(r, count)).value|
  {
    var replies := ApplyAll(r.mem.value, ReadRange(r.tree, Pending(r, count)).value, clock).1;
    set i | 0 <= i < |replies| :: (Position(r.mem.value) + i, replies[i])
  }

  /** One step of replica n. */
  ghost predicate Next(log: seq<Entry>, s: System, s': System, n: nat, step: Step) {
    && n < |s.replicas|
    && WellKeyed(s.replicas[n].tree)
    && Enabled(log, s, s.replicas[n], step)
    && s'.replicas == s.replicas[n := Stepped(s.replicas[n], step)]
    && s'.snapshots == (if step.TakeSnapshot? then s.snapshots + {step.taken} else s.snapshots)
    && s'.replies == (if step.Apply? then s.replies + Replies(s.replicas[n], step.count, step.clock) else s.replies)
  }

  ghost predicate Initial(s: System) {
    (forall n :: 0 <= n < |s.replicas| ==> s.replicas[n] == FRESH) && s.snapshots == {} && s.replies == {}
  }

  /** A run: who moved, how, and the system afterwards. */
  ghost predicate IsRun(log: seq<Entry>, states: seq<System>, who: seq<nat>, steps: seq<Step>) {
    && |states| == |steps| + 1 && |who| == |steps|
    && Initial(states[0])
    && forall i :: 0 <= i < |steps| ==> Next(log, states[i], states[i + 1], who[i], steps[i])
  }

  // ------------------------------------------------------------------ the invariant

  ghost predicate ReplicaOk(log: seq<Entry>, r: Replica) {
    && WellKeyed(r.tree)
    && Tracks(Decoded(r.db), log)
    && (r.mem.Some? ==> r.mem.value == Decoded(r.db))
    && Persisted(r) <= r.known <= |log|
    && forall i: u64 :: Persisted(r) <= i < r.known ==> At(r.tree, i) == Some(EntryJson(log[i]))
  }

  ghost predicate SnapshotOk(log: seq<Entry>, s: Snapshot) {
    s.data.StateJson? && Installed(s) == s.data.state && Tracks(s.data.state, log)
  }

  ghost predicate Inv(log: seq<Entry>, s: System) {
    && (forall n :: 0 <= n < |s.replicas| ==> ReplicaOk(log, s.replicas[n]))
    && (forall x :: x in s.snapshots ==> SnapshotOk(log, x))
    && (forall i, reply :: (i, reply) in s.replies ==> i < |log| && reply == ReplyTo(log, i))
  }

  /** The committed log: entry i carries index i. */
  ghost predicate Committed(log: seq<Entry>) {
    Consecutive(log, 0) && |log| < TWO_64
  }

  /** Every read for `apply` finds exactly the committed entries still to be applied. */
  lemma PendingEntries(log: seq<Entry>, r: Replica, count: nat)
    requires Committed(log) && ReplicaOk(log, r)
    requires r.mem.Some? && Persisted(r) <= count <= r.known
    ensures ReadRange(r.tree, Pending(r, count)) == Ok(log[Persisted(r)..count])
  {
    hide At, EncodeIndex, DecodeIndex, ReadRange;
    var es, p := log[Persisted(r)..count], Persisted(r);
    var range := Pending(r, count);
    forall i: nat | i < |es|
      ensures range.Contains(es[i].logId.index) && At(r.tree, es[i].logId.index) == Some(EntryJson(es[i]))
    {
      assert es[i] == log[p + i];
    }
    ReadHeld(r.tree, range, es, p);
  }

  /** Partial removals touch only the range being removed. */
  lemma RemovalSpares(t: Tree, range: Range, n: nat, i: u64)
    requires WellKeyed(t) && n <= |SortedKeys(KeysIn(t, range))|
    ensures !range.Contains(i) ==> At(RemovalSteps(t, range, n), i) == At(t, i)
  {
    SortedKeysMembers(KeysIn(t, range));
    IndexRoundTrip(i);
  }

  lemma StepKeepsReplica(log: seq<Entry>, s: System, r: Replica, step: Step)
    requires Committed(log) && Inv(log, s) && ReplicaOk(log, r) && Enabled(log, s, r, step)
    ensures ReplicaOk(log, Stepped(r, step))
  {
    hide At, EncodeIndex, DecodeIndex, InsertAll, ApplyAll, Reference, Erase, ReadRange, RemovalSteps, AfterRemoval;
    var r' := Stepped(r, step);
    match step {
      case Append(es, start) =>
        forall i: u64 | Persisted(r) <= i < r.known ensures At(r'.tree, i) == At(r.tree, i) {
          AtInsert(r.tree, es, start, i);
        }
      case Truncate(id, removals) =>
        forall i: u64 | Persisted(r) <= i < r.known ensures At(r'.tree, i) == At(r.tree, i) {
          RemovalSpares(r.tree, From(id.index), removals, i);
        }
      case Purge(id) =>
        forall i: u64 | Persisted(r) <= i < r.known ensures At(r'.tree, i) == At(r.tree, i) {
          AtRemoval(r.tree, UpTo(id.index), i);
        }
      case CrashedPurge(id, removals) =>
        forall i: u64 | Persisted(r) <= i < r.known ensures At(r'.tree, i) == At(r.tree, i) {
          RemovalSpares(r.tree, UpTo(id.index), removals, i);
        }
      case Apply(count, clock) =>
        PendingEntries(log, r, count);
        BatchTracks(log, r.mem.value, count, clock);
      case Install(snapshot) =>
        assert SnapshotOk(log, snapshot);
      case Commit(_) =>
      case Crash =>
      case Restart =>
      case TakeSnapshot(_) =>
    }
  }

  lemma NewRepliesOk(log: seq<Entry>, r: Replica, count: nat, clock: seq<string>)
    requires Committed(log) && ReplicaOk(log, r)
    requires r.mem.Some? && Persisted(r) <= count <= r.known && |clock| == count - Persisted(r)
    ensures ReadRange(r.tree, Pending(r, count)) == Ok(log[Persisted(r)..count])
    ensures forall i, reply :: (i, reply) in Replies(r, count, clock) ==> i < |log| && reply == ReplyTo(log, i)
  {
    hide ApplyAll, ReadRange, Reference, Erase;
    PendingEntries(log, r, count);
    BatchTracks(log, r.mem.value, count, clock);
  }

  lemma AppliedRepliesOk(log: seq<Entry>, s: System, r: Replica, step: Step)
    requires Committed(log) && ReplicaOk(log, r) && step.Apply? && Enabled(log, s, r, step)
    ensures forall i, reply :: (i, reply) in Replies(r, step.count, step.clock) ==>
      i < |log| && reply == ReplyTo(log, i)
  {
    hide ReplyTo, Replies, ReadRange;
    PendingEntries(log, r, step.count);
    NewRepliesOk(log, r, step.count, step.clock);
  }

  lemma TakenSnapshotOk(log: seq<Entry>, s: System, r: Replica, step: Step)
    requires ReplicaOk(log, r) && step.TakeSnapshot? && Enabled(log, s, r, step)
    ensures SnapshotOk(log, step.taken)
  {
  }

  lemma StepKeepsInv(log: seq<Entry>, s: System, s': System, n: nat, step: Step)
    requires Committed(log) && Inv(log, s) && Next(log, s, s', n, step)
    ensures Inv(log, s')
  {
    hide Enabled, Stepped, ReplicaOk, ReplyTo, Replies;
    var r := s.replicas[n];
    StepKeepsReplica(log, s, r, step);
    if step.Apply? {
      AppliedRepliesOk(log, s, r, step);
    } else if step.TakeSnapshot? {
      TakenSnapshotOk(log, s, r, step);
    }
  }

  lemma FreshTracks(log: seq<Entry>)
    ensures Position(DEFAULT_STATE) == 0 && Tracks(DEFAULT_STATE, log)
  {
    assert log[..0] == [];
  }

  lemma InitialInv(log: seq<Entry>, s: System)
    requires Initial(s)
    ensures Inv(log, s)
  {
    FreshTracks(log);
  }

  lemma {:induction false} RunKeepsInv(log: seq<Entry>, states: seq<System>, who: seq<nat>, steps: seq<Step>, i: nat)
    requires Committed(log) && IsRun(log, states, who, steps) && i < |states|
    ensures Inv(log, states[i])
  {
    hide Inv, Next, Initial;
    if i == 0 {
      InitialInv(log, states[0]);
    } else {
      RunKeepsInv(log, states, who, steps, i - 1);
      StepKeepsInv(log, states[i - 1], states[i], who[i - 1], steps[i - 1]);
    }
  }

  // ------------------------------------------------------------------ main results

  /** Two running replicas at the same position, at any moments of a run, agree on everything but `updatedAt`. */
  lemma ReplicasAgree(
    log: seq<Entry>, states: seq<System>, who: seq<nat>, steps: seq<Step>, i: nat, j: nat, m: nat, n: nat)
    requires Committed(log) && IsRun(log, states, who, steps) && i < |states| && j < |states|
    requires m < |states[i].replicas| && n < |states[j].replicas|
    requires states[i].replicas[m].mem.Some? && states[j].replicas[n].mem.Some?
    requires Position(states[i].replicas[m].mem.value) == Position(states[j].replicas[n].mem.value)
    ensures Erase(states[i].replicas[m].mem.value) == Erase(states[j].replicas[n].mem.value)
  {
    RunKeepsInv(log, states, who, steps, i);
    RunKeepsInv(log, states, who, steps, j);
    assert ReplicaOk(log, states[i].replicas[m]) && ReplicaOk(log, states[j].replicas[n]);
  }

  /** All replies ever given to one entry, by any replicas and however often it was replayed, are equal. */
  lemma RepliesAgree(
    log: seq<Entry>, states: seq<System>, who: seq<nat>, steps: seq<Step>, i: nat, index: nat, a: Response, b: Response)
    requires Committed(log) && IsRun(log, states, who, steps) && i < |states|
    requires (index, a) in states[i].replies && (index, b) in states[i].replies
    ensures index < |log| && a == b == ReplyTo(log, index)
  {
    RunKeepsInv(log, states, who, steps, i);
  }

  /**
   * At every moment the persisted blob is the fold of a completed prefix of the log, and restarting and replaying
   * what the replica's own log holds reaches the state of a machine that never crashed, whatever the clocks read.
   */
  lemma CrashRecovery(
    log: seq<Entry>, states: seq<System>, who: seq<nat>, steps: seq<Step>, i: nat, n: nat,
    clock: seq<string>, other: seq<string>)
    requires Committed(log) && IsRun(log, states, who, steps) && i < |states| && n < |states[i].replicas|
    requires |clock| == states[i].replicas[n].known - Persisted(states[i].replicas[n])
    requires |other| == states[i].replicas[n].known
    ensures
      var r := states[i].replicas[n];
      var p := Persisted(r);
      && p <= r.known <= |log|
      && Erase(Decoded(r.db)) == Erase(Reference(log[..p]))
      && WellKeyed(r.tree)
      && ReadRange(r.tree, Range(Included(p), Excluded(r.known))) == Ok(log[p..r.known])
      && Erase(ApplyAll(Decoded(r.db), log[p..r.known], clock).0)
         == Erase(ApplyAll(DEFAULT_STATE, log[..r.known], other).0)
  {
    hide ApplyAll, ReadRange, Reference, Erase, At;
    RunKeepsInv(log, states, who, steps, i);
    var r := states[i].replicas[n];
    assert ReplicaOk(log, r);
    var up := r.(mem := Some(Decoded(r.db)));
    assert ReplicaOk(log, up);
    PendingEntries(log, up, r.known);
    BatchTracks(log, Decoded(r.db), r.known, clock);
    FreshTracks(log);
    BatchTracks(log, DEFAULT_STATE, r.known, other);
    assert log[0..r.known] == log[..r.known];
  }
}
