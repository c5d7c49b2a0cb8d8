/** Job records of one node, the operations that change them, and the wire format of terminal reports. */
module JobRecords {
  import opened Wrappers
  import opened Nodes
  import opened Decimals

  type JobId = string

  type i32 = x: int | -0x8000_0000 <= x < 0x8000_0000

  datatype JobStatus = Queued | Scheduled | Running | Completed | Failed | Cancelled

  datatype JobRecord = JobRecord(status: JobStatus, assignedTo: NodeId, exitCode: Option<i32>, error: Option<string>)

  /** How a spawned process ended: with a code (none when killed by a signal), or not at all. */
  datatype ProcessResult = Exited(code: Option<i32>) | SpawnFailed(why: string) | WaitFailed(why: string)

  predicate Terminal(s: JobStatus) {
    s.Completed? || s.Failed? || s.Cancelled?
  }

  // ------------------------------------------------------------------ effects on one record

  function Fresh(node: NodeId): JobRecord {
    JobRecord(Queued, node, None, None)
  }

  function Started(r: JobRecord): JobRecord {
    r.(status := Running)
  }

  /** An exit spares a cancelled record; a failed spawn or wait does not. */
  function Ended(r: JobRecord, result: ProcessResult): JobRecord {
    match result
    case SpawnFailed(why) => r.(status := Failed, error := Some("spawn failed: " + why))
    case WaitFailed(why) => r.(status := Failed, error := Some("wait failed: " + why))
    case Exited(code) =>
      var c := if code.Some? then code.value else -1;
      if r.status.Cancelled? then r
      else if c == 0 then r.(status := Completed, exitCode := Some(0))
      else r.(status := Failed, exitCode := Some(c), error := Some("process exited with code " + IntText(c)))
  }

  function Acknowledged(r: JobRecord, node: NodeId): JobRecord {
    if r.status.Queued? then r.(status := Running, assignedTo := node) else r
  }

  function CancelRequested(r: JobRecord): JobRecord {
    if Terminal(r.status) then r else r.(status := Cancelled)
  }

  function Overwritten(r: JobRecord, o: Outcome): JobRecord {
    r.(status := o.status, exitCode := o.exitCode, error := o.error)
  }

  // ------------------------------------------------------------------ reports

  /** What a report is about: status, exit code and error text. */
  datatype Outcome = Outcome(status: JobStatus, exitCode: Option<i32>, error: Option<string>)

  function OutcomeOf(r: JobRecord): Outcome {
    Outcome(r.status, r.exitCode, r.error)
  }

  /** What the executor reports for a process, whatever its own record says. */
  function ReportedOutcome(result: ProcessResult): Outcome {
    match result
    case SpawnFailed(why) => Outcome(Failed, None, Some("spawn failed: " + why))
    case WaitFailed(why) => Outcome(Failed, None, Some("wait failed: " + why))
    case Exited(code) =>
      var c := if code.Some? then code.value else -1;
      if c == 0 then Outcome(Completed, Some(c), None)
      else Outcome(Failed, Some(c), Some("process exited with code " + IntText(c)))
  }

  datatype Report = Report(status: string, exitCode: i32, error: string)

  function StatusText(s: JobStatus): string {
    match s
    case Queued => "queued"
    case Scheduled => "scheduled"
    case Running => "running"
    case Completed => "completed"
    case Failed => "failed"
    case Cancelled => "cancelled"
  }

  /** Unknown texts read as Failed. */
  function StatusFromText(t: string): JobStatus {
    if t == "queued" then Queued
    else if t == "scheduled" then Scheduled
    else if t == "running" then Running
    else if t == "completed" then Completed
    else if t == "failed" then Failed
    else if t == "cancelled" then Cancelled
    else Failed
  }

  lemma StatusTable(t: string)
    ensures StatusText(Queued) == "queued" && StatusText(Scheduled) == "scheduled" && StatusText(Running) == "running"
    ensures StatusText(Completed) == "completed" && StatusText(Failed) == "failed"
    ensures StatusText(Cancelled) == "cancelled"
    ensures t in {"queued", "scheduled", "running", "completed", "cancelled"} <==> StatusFromText(t) != Failed
    ensures StatusFromText(t) != Failed ==> StatusText(StatusFromText(t)) == t
  {
  }

  /** The proto defaults stand for absent values. */
  function EncodeReport(o: Outcome): Report {
    Report(StatusText(o.status),
           if o.exitCode.Some? then o.exitCode.value else 0,
           if o.error.Some? then o.error.value else "")
  }

  /** Unicode white space, which `trim` strips. */
  predicate IsWhitespace(c: char) {
    var n := c as int;
    || 9 <= n <= 13 || n == 0x20 || n == 0x85 || n == 0xA0 || n == 0x1680 || 0x2000 <= n <= 0x200A
    || n == 0x2028 || n == 0x2029 || n == 0x202F || n == 0x205F || n == 0x3000
  }

  /** The characters with the Unicode property White_Space. */
  lemma WhitespaceMeans(c: char)
    ensures IsWhitespace(c) <==> c as int in {
      0x09, 0x0A, 0x0B, 0x0C, 0x0D, 0x20, 0x85, 0xA0, 0x1680, 0x2000, 0x2001, 0x2002, 0x2003, 0x2004, 0x2005, 0x2006,
      0x2007, 0x2008, 0x2009, 0x200A, 0x2028, 0x2029, 0x202F, 0x205F, 0x3000}
  {
  }

  predicate Blank(s: string) {
    forall i :: 0 <= i < |s| ==> IsWhitespace(s[i])
  }

  function DecodeReport(w: Report): Outcome {
    var status := StatusFromText(w.status);
    var exitCode :=
      match status
      case Completed => Some(w.exitCode)
      case Failed => if w.exitCode == 0 then None else Some(w.exitCode)
      case _ => None;
    Outcome(status, exitCode, if Blank(w.error) then None else Some(w.error))
  }

  /** Exactly the outcomes that survive the wire. */
  lemma ReportRoundTrip(o: Outcome)
    ensures DecodeReport(EncodeReport(o)) == o <==>
      && (match o.status
          case Completed => o.exitCode.Some?
          case Failed => o.exitCode != Some(0)
          case _ => o.exitCode.None?)
      && (o.error.Some? ==> !Blank(o.error.value))
  {
    assert StatusFromText(StatusText(o.status)) == o.status;
  }

  /** Every report of an executor arrives as it was meant. */
  lemma ReportedOutcomeArrives(result: ProcessResult)
    ensures DecodeReport(EncodeReport(ReportedOutcome(result))) == ReportedOutcome(result)
    ensures ReportedOutcome(result).status.Completed? || ReportedOutcome(result).status.Failed?
  {
    var o := ReportedOutcome(result);
    if o.error.Some? {
      assert !IsWhitespace(o.error.value[0]);
    }
    ReportRoundTrip(o);
  }

  // ------------------------------------------------------------------ the node's table

  datatype JobError = InvalidResources | UnknownJob | AlreadyFinished

  function Updated(jobs: map<JobId, JobRecord>, id: JobId, f: JobRecord -> JobRecord): map<JobId, JobRecord> {
    if id in jobs then jobs[id := f(jobs[id])] else jobs
  }

  class JobTable {
    const self: NodeId
    var jobs: map<JobId, JobRecord>

    constructor (self: NodeId)
      ensures this.self == self && jobs == map[]
    {
      this.self, jobs := self, map[];
    }

    /** The record of a job accepted from a client; it is assigned to the picked node, or to this one for now. */
    method Enqueue(id: JobId, cpuCores: nat, memoryMb: nat, picked: Option<NodeId>)
      returns (r: Result<JobRecord, JobError>)
      modifies this
      ensures r == if cpuCores == 0 || memoryMb == 0 then Err(InvalidResources)
                   else Ok(Fresh(if picked.Some? then picked.value else self))
      ensures r.Ok? ==> r.value == JobRecord(Queued, if picked.Some? then picked.value else self, None, None)
      ensures jobs == if r.Ok? then old(jobs)[id := r.value] else old(jobs)
    {
      if cpuCores == 0 || memoryMb == 0 {
        return Err(InvalidResources);
      }
      var record := JobRecord(Queued, if picked.Some? then picked.value else self, None, None);
      jobs := jobs[id := record];
      r := Ok(record);
    }

    /** The record of a job delegated by another node; it replaces any earlier record of that id. */
    method EnqueueRemote(id: JobId, cpuCores: nat, memoryMb: nat) returns (r: Result<JobRecord, JobError>)
      modifies this
      ensures r == if cpuCores == 0 || memoryMb == 0 then Err(InvalidResources) else Ok(Fresh(self))
      ensures r.Ok? ==> r.value == JobRecord(Queued, self, None, None)
      ensures jobs == if r.Ok? then old(jobs)[id := r.value] else old(jobs)
    {
      if cpuCores == 0 || memoryMb == 0 {
        return Err(InvalidResources);
      }
      var record := JobRecord(Queued, self, None, None);
      jobs := jobs[id := record];
      r := Ok(record);
    }

    /** The executor's first step; it gives up when the record is gone. */
    method MarkRunning(id: JobId) returns (proceed: bool)
      modifies this
      ensures proceed == (id in old(jobs))
      ensures jobs == Updated(old(jobs), id, Started)
      ensures jobs == if proceed then old(jobs)[id := old(jobs)[id].(status := Running)] else old(jobs)
    {
      if id !in jobs {
        return false;
      }
      var job := jobs[id];
      job := job.(status := Running);
      jobs := jobs[id := job];
      proceed := true;
    }

    /** The executor's last step: settles the record and says what to report to the origin. */
    method Settle(id: JobId, result: ProcessResult) returns (report: Report)
      modifies this
      ensures jobs == Updated(old(jobs), id, r => Ended(r, result))
      ensures id !in old(jobs) ==> jobs == old(jobs)
      ensures id in old(jobs) ==>
        var was := old(jobs)[id];
        jobs == old(jobs)[id :=
          match result
          case SpawnFailed(why) => was.(status := Failed, error := Some("spawn failed: " + why))
          case WaitFailed(why) => was.(status := Failed, error := Some("wait failed: " + why))
          case Exited(code) =>
            if was.status == Cancelled then was
            else if code == Some(0) then was.(status := Completed, exitCode := Some(0))
            else
              var c := if code.Some? then code.value else -1;
              was.(status := Failed, exitCode := Some(c), error := Some("process exited with code " + IntText(c)))]
      ensures report == EncodeReport(ReportedOutcome(result))
      ensures report == match result
        case SpawnFailed(why) => Report("failed", 0, "spawn failed: " + why)
        case WaitFailed(why) => Report("failed", 0, "wait failed: " + why)
        case Exited(code) =>
          if code == Some(0) then Report("completed", 0, "")
          else
            var c := if code.Some? then code.value else -1;
            Report("failed", c, "process exited with code " + IntText(c))
    {
      match result {
        case SpawnFailed(why) =>
          if id in jobs {
            jobs := jobs[id := jobs[id].(status := Failed, error := Some("spawn failed: " + why))];
          }
          report := EncodeReport(Outcome(Failed, None, Some("spawn failed: " + why)));
        case WaitFailed(why) =>
          if id in jobs {
            jobs := jobs[id := jobs[id].(status := Failed, error := Some("wait failed: " + why))];
          }
          report := EncodeReport(Outcome(Failed, None, Some("wait failed: " + why)));
        case Exited(status) =>
          var code := if status.Some? then status.value else -1;
          if id in jobs && !jobs[id].status.Cancelled? {
            var job := jobs[id];
            if code == 0 {
              job := job.(status := Completed);
              job := job.(exitCode := Some(0));
            } else {
              job := job.(status := Failed);
              job := job.(exitCode := Some(code));
              job := job.(error := Some("process exited with code " + IntText(code)));
            }
            jobs := jobs[id := job];
          }
          var error := if code == 0 then None else Some("process exited with code " + IntText(code));
          report := EncodeReport(Outcome(if code == 0 then Completed else Failed, Some(code), error));
      }
    }

    /** The origin learns that a remote node took the job. */
    method AcknowledgeDispatch(id: JobId, node: NodeId)
      modifies this
      ensures jobs == Updated(old(jobs), id, r => Acknowledged(r, node))
      ensures jobs == if id in old(jobs) && old(jobs)[id].status == Queued
                      then old(jobs)[id := old(jobs)[id].(status := Running, assignedTo := node)] else old(jobs)
    {
      if id in jobs && jobs[id].status.Queued? {
        var job := jobs[id];
        job := job.(status := Running);
        job := job.(assignedTo := node);
        jobs := jobs[id := job];
      }
    }

    /** A terminal report overwrites the record unconditionally. */
    method ApplyTerminalUpdate(id: JobId, report: Report) returns (r: Result<(), JobError>)
      modifies this
      ensures r == if id in old(jobs) then Ok(()) else Err(UnknownJob)
      ensures jobs == Updated(old(jobs), id, rec => Overwritten(rec, DecodeReport(report)))
      ensures r.Err? ==> jobs == old(jobs)
      ensures r.Ok? ==>
        var status := StatusFromText(report.status);
        jobs == old(jobs)[id := JobRecord(
          status,
          old(jobs)[id].assignedTo,
          if status == Completed || (status == Failed && report.exitCode != 0) then Some(report.exitCode) else None,
          if Blank(report.error) then None else Some(report.error))]
    {
      if id !in jobs {
        return Err(UnknownJob);
      }
      var o := DecodeReport(report);
      var job := jobs[id];
      job := job.(status := o.status);
      job := job.(exitCode := o.exitCode);
      job := job.(error := o.error);
      jobs := jobs[id := job];
      r := Ok(());
    }

    /** A client's delete request. */
    method Cancel(id: JobId) returns (r: Result<JobRecord, JobError>)
      modifies this
      ensures jobs == Updated(old(jobs), id, CancelRequested)
      ensures r == if id !in old(jobs) then Err(UnknownJob)
                   else if old(jobs)[id].status in {Completed, Failed, Cancelled} then Err(AlreadyFinished)
                   else Ok(old(jobs)[id].(status := Cancelled))
      ensures jobs == if r.Ok? then old(jobs)[id := r.value] else old(jobs)
    {
      if id !in jobs {
        return Err(UnknownJob);
      }
      var existing := jobs[id];
      if existing.status.Completed? || existing.status.Failed? || existing.status.Cancelled? {
        return Err(AlreadyFinished);
      }
      var updated := existing.(status := Cancelled);
      jobs := jobs[id := updated];
      r := Ok(updated);
    }
  }
}
