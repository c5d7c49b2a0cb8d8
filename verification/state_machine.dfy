/** The sled-backed state machine: folds committed entries into a job registry and an enrolment-token table. */
module StateMachine {
  import opened Wrappers
  import opened RaftTypes

  const SUCCEEDED: Response := Response(true, None, None)

  function Rejected(reason: string): Response {
    Response(false, Some(reason), None)
  }

  // ------------------------------------------------------------------ specification

  /** The effect of one command on the state; `now` is what the local clock reads. */
  function ApplyCommand(st: RaftState, cmd: RaftCommand, now: string): (RaftState, Response) {
    match cmd
    case RegisterJob(jobId, nodeId, runtime, createdAt) =>
      if jobId in st.jobs then (st, Rejected("already registered"))
      else
        var job := RegisteredJob(jobId, nodeId, runtime, "queued", createdAt, createdAt);
        (st.(jobs := st.jobs[jobId := job]), SUCCEEDED)
    case UpdateJobStatus(jobId, status, _) =>
      if jobId in st.jobs then
        (st.(jobs := st.jobs[jobId := st.jobs[jobId].(status := status, updatedAt := now)]), SUCCEEDED)
      else (st, Rejected("job " + jobId + " not found"))
    case AddMember(_, _) => (st, SUCCEEDED)
    case RemoveMember(_) => (st, SUCCEEDED)
    case StoreEnrollToken(token, expiresAt, issuedBy) =>
      (st.(tokens := st.tokens[token := EnrollToken(token, issuedBy, expiresAt, false)]), SUCCEEDED)
    case ConsumeEnrollToken(token) =>
      if token !in st.tokens then (st, Rejected("token not found"))
      else if st.tokens[token].used then (st, Rejected("token already used"))
      else (st.(tokens := st.tokens[token := st.tokens[token].(used := true)]), SUCCEEDED)
  }

  function ApplyEntry(st: RaftState, e: Entry, now: string): (RaftState, Response) {
    var marked := st.(lastApplied := Some(e.logId));
    match e.payload
    case Blank => (marked, SUCCEEDED)
    case Normal(cmd) => ApplyCommand(marked, cmd, now)
    case Config(m) => (marked.(lastMembership := StoredMembership(Some(e.logId), m)), SUCCEEDED)
  }

  /** Applies the entries in order; clock[i] is read while applying es[i]. */
  function ApplyAll(st: RaftState, es: seq<Entry>, clock: seq<string>): (r: (RaftState, seq<Response>))
    requires |clock| == |es|
    ensures |r.1| == |es|
  {
    if es == [] then (st, [])
    else
      var last := |es| - 1;
      var (before, responses) := ApplyAll(st, es[..last], clock[..last]);
      var (after, response) := ApplyEntry(before, es[last], clock[last]);
      (after, responses + [response])
  }

  lemma EntryMarks(st: RaftState, e: Entry, now: string)
    ensures ApplyEntry(st, e, now).0.lastApplied == Some(e.logId)
    ensures ApplyEntry(st, e, now).0.lastMembership ==
      if e.payload.Config? then StoredMembership(Some(e.logId), e.payload.members) else st.lastMembership
  {
  }

  /** Batching does not matter: two batches in a row do what one batch does. */
  lemma {:induction false} ApplyAllConcat(st: RaftState, es: seq<Entry>, fs: seq<Entry>, c: seq<string>, d: seq<string>)
    requires |es| == |c| && |fs| == |d|
    ensures
      var (mid, rs) := ApplyAll(st, es, c);
      var (end, ss) := ApplyAll(mid, fs, d);
      ApplyAll(st, es + fs, c + d) == (end, rs + ss)
  {
    if fs == [] {
      assert es + fs == es && c + d == c;
      assert ApplyAll(st, es, c).1 + [] == ApplyAll(st, es, c).1;
    } else {
      var last := |fs| - 1;
      ApplyAllConcat(st, es, fs[..last], c, d[..last]);
      assert (es + fs)[..|es| + last] == es + fs[..last];
      assert (c + d)[..|es| + last] == c + d[..last];
      var (mid, rs) := ApplyAll(st, es, c);
      var (before, ss) := ApplyAll(mid, fs[..last], d[..last]);
      var (end, response) := ApplyEntry(before, fs[last], d[last]);
      assert rs + (ss + [response]) == (rs + ss) + [response];
    }
  }

  // ------------------------------------------------------------------ the state machine

  datatype SnapshotMeta = SnapshotMeta(lastLogId: Option<LogId>, lastMembership: StoredMembership, snapshotId: string)

  datatype Snapshot = Snapshot(meta: SnapshotMeta, data: Json)

  /** What `open` makes of the persisted blob. */
  function Decoded(db: Option<Json>): RaftState {
    if db.Some? && db.value.StateJson? then db.value.state else DEFAULT_STATE
  }

  /** The state that installing a decodable snapshot produces. */
  function Installed(s: Snapshot): RaftState
    requires s.data.StateJson?
  {
    s.data.state.(lastApplied := s.meta.lastLogId, lastMembership := s.meta.lastMembership)
  }

  /** Installing the snapshot yields the state; so does decoding its data alone. */
  predicate Captures(s: Snapshot, st: RaftState) {
    s.data.StateJson? && Installed(s) == s.data.state == st
  }

  class SledStateMachine {
    var db: Option<Json>
    var state: RaftState

    constructor Open(db: Option<Json>)
      ensures this.db == db && state == Decoded(db)
      ensures state == if db.Some? && db.value.StateJson? then db.value.state
                       else RaftState(None, StoredMembership(None, Membership([], map[])), map[], map[])
    {
      this.db := db;
      if db.Some? && db.value.StateJson? {
        state := db.value.state;
      } else {
        state := DEFAULT_STATE;
      }
    }

    method Execute(cmd: RaftCommand, now: string) returns (r: Response)
      modifies this`state
      ensures (state, r) == ApplyCommand(old(state), cmd, now)
    {
      match cmd {
        case RegisterJob(jobId, nodeId, runtime, createdAt) =>
          if jobId in state.jobs {
            return Rejected("already registered");
          }
          var job := RegisteredJob(jobId, nodeId, runtime, "queued", createdAt, createdAt);
          state := state.(jobs := state.jobs[jobId := job]);
        case UpdateJobStatus(jobId, status, _) =>
          if jobId !in state.jobs {
            return Rejected("job " + jobId + " not found");
          }
          var job := state.jobs[jobId];
          job := job.(status := status);
          job := job.(updatedAt := now);
          state := state.(jobs := state.jobs[jobId := job]);
        case AddMember(_, _) =>
        case RemoveMember(_) =>
        case StoreEnrollToken(token, expiresAt, issuedBy) =>
          state := state.(tokens := state.tokens[token := EnrollToken(token, issuedBy, expiresAt, false)]);
        case ConsumeEnrollToken(token) =>
          if token !in state.tokens {
            return Rejected("token not found");
          }
          if state.tokens[token].used {
            return Rejected("token already used");
          }
          state := state.(tokens := state.tokens[token := state.tokens[token].(used := true)]);
      }
      r := SUCCEEDED;
    }

    /** Applies a batch, then persists the whole state in one write. */
    method Apply(es: seq<Entry>, clock: seq<string>) returns (responses: seq<Response>)
      requires |clock| == |es|
      modifies this
      ensures (state, responses) == ApplyAll(old(state), es, clock)
      ensures db == Some(StateJson(state))
    {
      responses := [];
      for n := 0 to |es|
        invariant (state, responses) == ApplyAll(old(state), es[..n], clock[..n])
      {
        assert es[..n + 1][..n] == es[..n] && clock[..n + 1][..n] == clock[..n];
        state := state.(lastApplied := Some(es[n].logId));
        var r := SUCCEEDED;
        match es[n].payload {
          case Blank =>
          case Normal(cmd) => r := Execute(cmd, clock[n]);
          case Config(m) => state := state.(lastMembership := StoredMembership(Some(es[n].logId), m));
        }
        responses := responses + [r];
      }
      assert es[..|es|] == es && clock[..|es|] == clock;
      db := Some(StateJson(state));
    }

    /** Installing the snapshot, anywhere, yields this machine's state; so does decoding its data alone. */
    method BuildSnapshot(snapshotId: string) returns (s: Snapshot)
      ensures Captures(s, state)
      ensures s.meta.lastLogId == state.lastApplied && s.meta.snapshotId == snapshotId
    {
      s := Snapshot(SnapshotMeta(state.lastApplied, state.lastMembership, snapshotId), StateJson(state));
    }

    /** There is a current snapshot once something was applied, and installing it yields this machine's state. */
    method GetCurrentSnapshot() returns (s: Option<Snapshot>)
      ensures s.None? <==> state.lastApplied.None?
      ensures s.Some? ==> Captures(s.value, state)
      ensures s.Some? ==> s.value.meta.lastLogId == state.lastApplied && s.value.meta.snapshotId == "latest"
    {
      if state.lastApplied.None? {
        return None;
      }
      s := Some(Snapshot(SnapshotMeta(state.lastApplied, state.lastMembership, "latest"), StateJson(state)));
    }

    method InstallSnapshot(s: Snapshot) returns (r: Result<(), StorageError>)
      modifies this
      ensures r == if s.data.StateJson? then Ok(()) else Err(StateMachineWrite)
      ensures if s.data.StateJson? then state == Installed(s) && db == Some(StateJson(state))
              else state == old(state) && db == old(db)
      ensures r.Ok? ==>
        && state.lastApplied == s.meta.lastLogId && state.lastMembership == s.meta.lastMembership
        && state.jobs == s.data.state.jobs && state.tokens == s.data.state.tokens
    {
      if !s.data.StateJson? {
        return Err(StateMachineWrite);
      }
      state := s.data.state;
      state := state.(lastApplied := s.meta.lastLogId);
      state := state.(lastMembership := s.meta.lastMembership);
      db := Some(StateJson(state));
      r := Ok(());
    }
  }
}
