/** What a whole log makes of one job id and of one enrolment token, stated by positions in the log. */
module RegistryLaws {
  import opened Wrappers
  import opened RaftTypes
  import opened StateMachine

  /** State and responses of a fresh machine that applies the log. */
  function Run(log: seq<Entry>, clock: seq<string>): (r: (RaftState, seq<Response>))
    requires |clock| == |log|
    ensures |r.1| == |log|
  {
    ApplyAll(DEFAULT_STATE, log, clock)
  }

  predicate Registers(e: Entry, job: string) {
    e.payload.Normal? && e.payload.cmd.RegisterJob? && e.payload.cmd.jobId == job
  }

  predicate Updates(e: Entry, job: string) {
    e.payload.Normal? && e.payload.cmd.UpdateJobStatus? && e.payload.cmd.jobId == job
  }

  predicate Stores(e: Entry, token: string) {
    e.payload.Normal? && e.payload.cmd.StoreEnrollToken? && e.payload.cmd.token == token
  }

  predicate Consumes(e: Entry, token: string) {
    e.payload.Normal? && e.payload.cmd.ConsumeEnrollToken? && e.payload.cmd.token == token
  }

  ghost predicate NoConfigFrom(log: seq<Entry>, n: nat) {
    forall i :: n <= i < |log| ==> !log[i].payload.Config?
  }

  /** The last membership entry is at position m. */
  ghost predicate LastConfigAt(log: seq<Entry>, m: nat) {
    m < |log| && log[m].payload.Config? && NoConfigFrom(log, m + 1)
  }

  lemma LastConfigStep(log: seq<Entry>, m: nat)
    requires LastConfigAt(log, m)
    ensures log[|log| - 1].payload.Config? <==> m == |log| - 1
    ensures m < |log| - 1 ==> LastConfigAt(log[..|log| - 1], m)
  {
  }

  lemma RunStep(log: seq<Entry>, clock: seq<string>)
    requires |clock| == |log| && log != []
    ensures
      var last := |log| - 1;
      Run(log, clock).0 == ApplyEntry(Run(log[..last], clock[..last]).0, log[last], clock[last]).0
  {
  }

  /**
   * The machine remembers the last entry applied, and the membership is that of the last membership entry, stored
   * under its log id, or the default one when there is none.
   */
  lemma {:induction false} LastConfig(log: seq<Entry>, clock: seq<string>)
    requires |clock| == |log|
    ensures Run(log, clock).0.lastApplied == if log == [] then None else Some(log[|log| - 1].logId)
    ensures NoConfigFrom(log, 0) ==> Run(log, clock).0.lastMembership == DEFAULT_STATE.lastMembership
    ensures forall m: nat :: LastConfigAt(log, m) ==>
      Run(log, clock).0.lastMembership == StoredMembership(Some(log[m].logId), log[m].payload.members)
  {
    if log == [] {
    } else {
      var last := |log| - 1;
      var init, before := log[..last], Run(log[..last], clock[..last]).0;
      LastConfig(init, clock[..last]);
      RunStep(log, clock);
      hide Run, ApplyEntry, LastConfigAt;
      EntryMarks(before, log[last], clock[last]);
      assert NoConfigFrom(log, 0) ==> NoConfigFrom(init, 0) && !log[last].payload.Config?;
      forall m: nat | LastConfigAt(log, m)
        ensures m < |log|
        ensures Run(log, clock).0.lastMembership == StoredMembership(Some(log[m].logId), log[m].payload.members)
      {
        LastConfigStep(log, m);
      }
    }
  }

  // ------------------------------------------------------------------ jobs

  ghost predicate NeverRegistered(log: seq<Entry>, job: string) {
    forall i :: 0 <= i < |log| ==> !Registers(log[i], job)
  }

  ghost predicate FirstRegisters(log: seq<Entry>, job: string, f: nat) {
    f < |log| && Registers(log[f], job) && NeverRegistered(log[..f], job)
  }

  /** No update of the job from position n on. */
  ghost predicate NoUpdateFrom(log: seq<Entry>, job: string, n: nat) {
    forall i :: n <= i < |log| ==> !Updates(log[i], job)
  }

  /** An unregistered job is not in the registry, and updating it is refused. */
  lemma {:induction false} UnknownJob(log: seq<Entry>, clock: seq<string>, job: string)
    requires |clock| == |log| && NeverRegistered(log, job)
    ensures job !in Run(log, clock).0.jobs
    ensures forall i :: 0 <= i < |log| && Updates(log[i], job) ==>
      Run(log, clock).1[i] == Response(false, Some("job " + job + " not found"), None)
  {
    if log == [] {
    } else {
      UnknownJob(log[..|log| - 1], clock[..|log| - 1], job);
    }
  }

  /** Only an update of its own changes a registered job, and only its status and its update time. */
  lemma JobStep(st: RaftState, e: Entry, now: string, job: string)
    requires job in st.jobs
    ensures job in ApplyEntry(st, e, now).0.jobs
    ensures ApplyEntry(st, e, now).0.jobs[job] ==
      if Updates(e, job) then st.jobs[job].(status := e.payload.cmd.status, updatedAt := now) else st.jobs[job]
  {
  }

  lemma NewJobStep(st: RaftState, e: Entry, now: string, job: string)
    requires job !in st.jobs && Registers(e, job)
    ensures
      var cmd, jobs := e.payload.cmd, ApplyEntry(st, e, now).0.jobs;
      job in jobs
      && jobs[job] == RegisteredJob(job, cmd.nodeId, cmd.runtime, "queued", cmd.createdAt, cmd.createdAt)
  {
  }

  /** The first registration fixes node, runtime and creation time for ever; the last later update fixes the rest. */
  lemma {:induction false} FirstWriterWins(log: seq<Entry>, clock: seq<string>, job: string, f: nat)
    requires |clock| == |log| && FirstRegisters(log, job, f)
    ensures job in Run(log, clock).0.jobs
    ensures
      var cmd, entry := log[f].payload.cmd, Run(log, clock).0.jobs[job];
      && entry.jobId == job && entry.nodeId == cmd.nodeId
      && entry.runtime == cmd.runtime && entry.createdAt == cmd.createdAt
      && (NoUpdateFrom(log, job, f) ==> entry.status == "queued" && entry.updatedAt == cmd.createdAt)
    ensures forall u :: f < u < |log| && Updates(log[u], job) && NoUpdateFrom(log, job, u + 1) ==>
      && Run(log, clock).0.jobs[job].status == log[u].payload.cmd.status
      && Run(log, clock).0.jobs[job].updatedAt == clock[u]
    decreases |log|
  {
    var last := |log| - 1;
    var init, tick := log[..last], clock[..last];
    var before := Run(init, tick).0;
    RunStep(log, clock);
    hide Run, ApplyEntry;
    if f == last {
      assert init == log[..f];
      UnknownJob(init, tick, job);
      NewJobStep(before, log[last], clock[last], job);
    } else {
      assert init[..f] == log[..f];
      FirstWriterWins(init, tick, job, f);
      JobStep(before, log[last], clock[last], job);
      if !Updates(log[last], job) {
        forall u | f < u < |log| && Updates(log[u], job) && NoUpdateFrom(log, job, u + 1)
          ensures Updates(init[u], job) && NoUpdateFrom(init, job, u + 1)
        {
        }
      }
    }
  }

  lemma {:induction false} FirstPosition(log: seq<Entry>, job: string) returns (f: nat)
    requires !NeverRegistered(log, job)
    ensures FirstRegisters(log, job, f)
    decreases |log|
  {
    var last := |log| - 1;
    if NeverRegistered(log[..last], job) {
      f := last;
    } else {
      f := FirstPosition(log[..last], job);
      assert log[..last][..f] == log[..f];
    }
  }

  /** The reply to an entry depends on the entries before it only. */
  lemma {:induction false} ReplyAt(log: seq<Entry>, clock: seq<string>, i: nat)
    requires |clock| == |log| && i < |log|
    ensures Run(log, clock).1[i] == ApplyEntry(Run(log[..i], clock[..i]).0, log[i], clock[i]).1
    decreases |log|
  {
    hide ApplyEntry;
    var last := |log| - 1;
    if i == last {
    } else {
      ReplyAt(log[..last], clock[..last], i);
      assert log[..last][..i] == log[..i] && clock[..last][..i] == clock[..i];
    }
  }

  /** Everything but registrations, updates and consumes succeeds unconditionally. */
  lemma OtherResponses(log: seq<Entry>, clock: seq<string>, i: nat)
    requires |clock| == |log| && i < |log|
    requires !log[i].payload.Normal? || var cmd := log[i].payload.cmd;
      cmd.AddMember? || cmd.RemoveMember? || cmd.StoreEnrollToken?
    ensures Run(log, clock).1[i] == Response(true, None, None)
  {
    ReplyAt(log, clock, i);
    hide Run;
  }

  /** Of all registrations of a job exactly the first succeeds; updates succeed exactly after it. */
  lemma RegistrationResponses(log: seq<Entry>, clock: seq<string>, job: string, i: nat)
    requires |clock| == |log| && i < |log|
    ensures Registers(log[i], job) ==>
      Run(log, clock).1[i] == (
        if FirstRegisters(log, job, i) then Response(true, None, None)
        else Response(false, Some("already registered"), None))
    ensures Updates(log[i], job) ==>
      Run(log, clock).1[i] == (
        if NeverRegistered(log[..i], job) then Response(false, Some("job " + job + " not found"), None)
        else Response(true, None, None))
  {
    ReplyAt(log, clock, i);
    if NeverRegistered(log[..i], job) {
      UnknownJob(log[..i], clock[..i], job);
    } else {
      var f := FirstPosition(log[..i], job);
      FirstWriterWins(log[..i], clock[..i], job, f);
    }
    hide Run;
  }

  // ------------------------------------------------------------------ tokens

  ghost predicate NeverStored(log: seq<Entry>, token: string) {
    forall i :: 0 <= i < |log| ==> !Stores(log[i], token)
  }

  /** The token's last store before position n is at s. */
  ghost predicate LastStore(log: seq<Entry>, token: string, s: nat, n: nat) {
    s < n <= |log| && Stores(log[s], token) && forall i :: s < i < n ==> !Stores(log[i], token)
  }

  ghost predicate ConsumedBetween(log: seq<Entry>, token: string, lo: nat, hi: nat)
    requires hi <= |log|
  {
    exists i :: lo < i < hi && Consumes(log[i], token)
  }

  lemma {:induction false} UnknownToken(log: seq<Entry>, clock: seq<string>, token: string)
    requires |clock| == |log| && NeverStored(log, token)
    ensures token !in Run(log, clock).0.tokens
  {
    if log == [] {
    } else {
      UnknownToken(log[..|log| - 1], clock[..|log| - 1], token);
    }
  }

  /** The table holds what the last store said, marked used exactly when a consume followed it. */
  lemma {:induction false} TokenIsLastStore(log: seq<Entry>, clock: seq<string>, token: string, s: nat)
    requires |clock| == |log| && LastStore(log, token, s, |log|)
    ensures token in Run(log, clock).0.tokens
    ensures
      var cmd := log[s].payload.cmd;
      Run(log, clock).0.tokens[token] ==
        EnrollToken(token, cmd.issuedBy, cmd.expiresAt, ConsumedBetween(log, token, s, |log|))
    decreases |log|
  {
    var last := |log| - 1;
    if s == last {
    } else {
      TokenIsLastStore(log[..last], clock[..last], token, s);
      if ConsumedBetween(log, token, s, |log|) && !Consumes(log[last], token) {
        var i :| s < i < |log| && Consumes(log[i], token);
        assert Consumes(log[..last][i], token);
      }
      if ConsumedBetween(log[..last], token, s, last) {
        var i :| s < i < last && Consumes(log[..last][i], token);
        assert Consumes(log[i], token);
      }
    }
  }

  /** What lies before position i is the same in the log and in a prefix that reaches i. */
  lemma SamePositions(log: seq<Entry>, n: nat, token: string, s: nat, i: nat)
    requires i <= n <= |log|
    ensures LastStore(log, token, s, i) == LastStore(log[..n], token, s, i)
    ensures ConsumedBetween(log, token, s, i) == ConsumedBetween(log[..n], token, s, i)
  {
    assert forall k :: 0 <= k < i ==> log[..n][k] == log[k];
    if ConsumedBetween(log, token, s, i) {
      var k :| s < k < i && Consumes(log[k], token);
      assert Consumes(log[..n][k], token);
    }
    if LastStore(log[..n], token, s, i) {
      assert forall k :: s < k < i ==> !Stores(log[..n][k], token);
    }
  }

  lemma {:induction false} LastStorePosition(log: seq<Entry>, token: string) returns (s: nat)
    requires !NeverStored(log, token)
    ensures LastStore(log, token, s, |log|)
    decreases |log|
  {
    var last := |log| - 1;
    if Stores(log[last], token) {
      s := last;
    } else {
      s := LastStorePosition(log[..last], token);
    }
  }

  /** A consume succeeds exactly when it is the first one after the token's latest store. */
  lemma ConsumeResponses(log: seq<Entry>, clock: seq<string>, token: string, i: nat)
    requires |clock| == |log| && i < |log| && Consumes(log[i], token)
    ensures Run(log, clock).1[i] ==
      if NeverStored(log[..i], token) then Response(false, Some("token not found"), None)
      else if exists s: nat :: LastStore(log, token, s, i) && !ConsumedBetween(log, token, s, i)
      then Response(true, None, None)
      else Response(false, Some("token already used"), None)
  {
    ReplyAt(log, clock, i);
    var init := log[..i];
    if NeverStored(init, token) {
      UnknownToken(init, clock[..i], token);
    } else {
      var s := LastStorePosition(init, token);
      TokenIsLastStore(init, clock[..i], token, s);
      SamePositions(log, i, token, s, i);
      assert forall s': nat :: LastStore(log, token, s', i) ==> s' == s;
    }
    hide Run;
  }

  function Successes(log: seq<Entry>, responses: seq<Response>, token: string): nat
    requires |responses| == |log|
  {
    if log == [] then 0 else
      var last := |log| - 1;
      Successes(log[..last], responses[..last], token)
      + if Consumes(log[last], token) && responses[last].success then 1 else 0
  }

  function StoreCount(log: seq<Entry>, token: string): nat {
    if log == [] then 0 else
      StoreCount(log[..|log| - 1], token) + if Stores(log[|log| - 1], token) then 1 else 0
  }

  /** Successful consumes, plus the one a stored unused token still allows, never exceed the stores. */
  lemma {:induction false} ConsumesAreBacked(log: seq<Entry>, clock: seq<string>, token: string)
    requires |clock| == |log|
    ensures
      var (st, responses) := Run(log, clock);
      Successes(log, responses, token) + (if token in st.tokens && !st.tokens[token].used then 1 else 0)
        <= StoreCount(log, token)
  {
    if log == [] {
    } else {
      var last := |log| - 1;
      ConsumesAreBacked(log[..last], clock[..last], token);
      assert Run(log, clock).1[..last] == Run(log[..last], clock[..last]).1;
    }
  }
}
