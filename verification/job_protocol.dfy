/**
 * One delegated job, seen from the node that accepted it (the origin) and the nodes that run it. Submissions,
 * acknowledgements, executions, terminal reports and cancel requests interleave in every way.
 */
module JobProtocol {
  import opened Wrappers
  import opened Nodes
  import opened JobRecords

  datatype Phase = Accepted | Active | Over(result: ProcessResult)

  /** One `spawn_job` task; only delegated ones report back. */
  datatype Task = Task(node: NodeId, delegated: bool, phase: Phase)

  /**
   * `records` holds each node's record of the job; `submits` are submissions on their way, `acks` the nodes that
   * accepted one, `reports` the terminal reports sent. The last two fields record history: which nodes granted a
   * cancel, and whether the origin has applied a report.
   */
  datatype System = System(
    origin: NodeId, records: map<NodeId, JobRecord>, tasks: map<nat, Task>,
    submits: multiset<NodeId>, acks: set<NodeId>, reports: set<Report>,
    cancelled: set<NodeId>, reported: bool)

  datatype Step =
    | Submit(target: NodeId)
    | LoseSubmit(target: NodeId)
    | Deliver(target: NodeId, id: nat)
    | Acknowledge(target: NodeId)
    | DispatchLocally(id: nat)
    | Start(id: nat)
    | End(id: nat, result: ProcessResult)
    | ApplyReport(report: Report)
    | Cancel(node: NodeId)

  /** The origin has just enqueued the job. */
  ghost predicate Initial(s: System) {
    exists picked :: s == System(s.origin, map[s.origin := Fresh(picked)], map[], multiset{}, {}, {}, {}, false)
  }

  /** Tasks act on the record of their node; a record, once made, stays. */
  ghost predicate Enabled(s: System, step: Step) {
    match step
    case Submit(target) => target != s.origin
    case LoseSubmit(target) => target in s.submits
    case Deliver(target, id) => target in s.submits && id !in s.tasks
    case Acknowledge(target) => target in s.acks && s.origin in s.records
    case DispatchLocally(id) => id !in s.tasks
    case Start(id) => id in s.tasks && s.tasks[id].phase.Accepted? && s.tasks[id].node in s.records
    case End(id, _) => id in s.tasks && s.tasks[id].phase.Active? && s.tasks[id].node in s.records
    case ApplyReport(report) => report in s.reports && s.origin in s.records
    case Cancel(node) => node in s.records && !Terminal(s.records[node].status)
  }

  function After(s: System, step: Step): System
    requires Enabled(s, step)
  {
    match step
    case Submit(target) => s.(submits := s.submits + multiset{target})
    case LoseSubmit(target) => s.(submits := s.submits - multiset{target})
    case Deliver(target, id) =>
      s.(submits := s.submits - multiset{target}, acks := s.acks + {target},
         records := s.records[target := Fresh(target)], tasks := s.tasks[id := Task(target, true, Accepted)])
    case Acknowledge(target) => s.(records := s.records[s.origin := Acknowledged(s.records[s.origin], target)])
    case DispatchLocally(id) =>
      s.(tasks := s.tasks[id := Task(s.origin, false, Accepted)])
    case Start(id) =>
      var t := s.tasks[id];
      s.(records := s.records[t.node := Started(s.records[t.node])], tasks := s.tasks[id := t.(phase := Active)])
    case End(id, result) =>
      var t := s.tasks[id];
      s.(records := s.records[t.node := Ended(s.records[t.node], result)],
         tasks := s.tasks[id := t.(phase := Over(result))],
         reports := s.reports + if t.delegated then {EncodeReport(ReportedOutcome(result))} else {})
    case ApplyReport(report) =>
      s.(records := s.records[s.origin := Overwritten(s.records[s.origin], DecodeReport(report))], reported := true)
    case Cancel(node) =>
      s.(records := s.records[node := CancelRequested(s.records[node])], cancelled := s.cancelled + {node})
  }

  ghost predicate IsRun(states: seq<System>, steps: seq<Step>) {
    && |states| == |steps| + 1
    && Initial(states[0])
    && forall i :: 0 <= i < |steps| ==> Enabled(states[i], steps[i]) && states[i + 1] == After(states[i], steps[i])
  }

  /** Status, exit code and error that a node shows for the job. */
  function Shown(s: System, node: NodeId): Option<Outcome> {
    if node in s.records then Some(OutcomeOf(s.records[node])) else None
  }

  predicate Finished(s: System, node: NodeId) {
    node in s.records && Terminal(s.records[node].status)
  }

  predicate OriginFinished(s: System) {
    Finished(s, s.origin)
  }

  // ------------------------------------------------------------------ what holds with any number of submissions

  /** Tasks have records, and exactly the delegated ones run elsewhere. */
  ghost predicate Placed(s: System) {
    && s.origin in s.records && s.origin !in s.submits && s.origin !in s.acks
    && forall id :: id in s.tasks ==>
         s.tasks[id].node in s.records && (s.tasks[id].delegated <==> s.tasks[id].node != s.origin)
  }

  ghost predicate Reports(t: Task, w: Report) {
    t.delegated && t.phase.Over? && w == EncodeReport(ReportedOutcome(t.phase.result))
  }

  /** Every report says how some delegated process ended. */
  ghost predicate Backed(s: System) {
    forall w :: w in s.reports ==> exists id :: id in s.tasks && Reports(s.tasks[id], w)
  }

  ghost predicate Sane(s: System) {
    Placed(s) && Backed(s)
  }

  lemma StepKeepsPlaced(s: System, step: Step)
    requires Placed(s) && Enabled(s, step)
    ensures Placed(After(s, step))
  {
    hide EncodeReport, ReportedOutcome, DecodeReport, Ended, Acknowledged, CancelRequested, Started, Overwritten;
  }

  lemma StepKeepsBacked(s: System, step: Step)
    requires Backed(s) && Enabled(s, step)
    requires forall id :: id in s.tasks ==> s.tasks[id].node in s.records
    ensures Backed(After(s, step))
  {
    hide EncodeReport, ReportedOutcome, DecodeReport, Ended, Acknowledged, CancelRequested, Started, Overwritten;
    var s' := After(s, step);
    forall w | w in s'.reports ensures exists id :: id in s'.tasks && Reports(s'.tasks[id], w) {
      if w in s.reports {
        var id :| id in s.tasks && Reports(s.tasks[id], w);
        assert s'.tasks[id] == s.tasks[id];
      } else {
        assert Reports(s'.tasks[step.id], w);
      }
    }
  }

  lemma StepKeepsSane(s: System, step: Step)
    requires Sane(s) && Enabled(s, step)
    ensures Sane(After(s, step))
  {
    hide After, Enabled, Backed;
    StepKeepsPlaced(s, step);
    StepKeepsBacked(s, step);
  }

  lemma {:induction false} RunIsSane(states: seq<System>, steps: seq<Step>, i: nat)
    requires IsRun(states, steps) && i < |states|
    ensures Sane(states[i])
  {
    if i == 0 {
    } else {
      RunIsSane(states, steps, i - 1);
      StepKeepsSane(states[i - 1], steps[i - 1]);
    }
  }

  /** A task starts on the node, or a submission arrives there. */
  predicate Revives(s: System, step: Step, node: NodeId) {
    || (step.Start? && step.id in s.tasks && s.tasks[step.id].node == node)
    || (step.Deliver? && step.target == node)
  }

  /**
   * A step takes a node's record out of a terminal state exactly if it starts a task there or delivers a submission
   * there; submissions never go to the origin.
   */
  lemma LeavingTerminal(s: System, step: Step, node: NodeId)
    requires Sane(s) && Enabled(s, step) && Finished(s, node)
    ensures !Finished(After(s, step), node) <==> Revives(s, step, node)
    ensures step.Deliver? ==> step.target != s.origin
  {
    if step.ApplyReport? {
      var id :| id in s.tasks && Reports(s.tasks[id], step.report);
      ReportedOutcomeArrives(s.tasks[id].phase.result);
    }
  }

  function Last(states: seq<System>): System
    requires states != []
  {
    states[|states| - 1]
  }

  lemma OneMore(states: seq<System>, steps: seq<Step>, step: Step) returns (more: seq<System>, moreSteps: seq<Step>)
    requires IsRun(states, steps) && Enabled(Last(states), step)
    ensures IsRun(more, moreSteps) && |more| == |states| + 1 && more[|states| - 1] == Last(states)
    ensures more == states + [After(Last(states), step)] && moreSteps == steps + [step]
    ensures Last(more) == After(Last(states), step)
  {
    hide After, Enabled, Initial;
    more, moreSteps := states + [After(Last(states), step)], steps + [step];
  }

  lemma Hand(states: seq<System>, steps: seq<Step>, target: NodeId, id: nat)
    returns (more: seq<System>, moreSteps: seq<Step>)
    requires IsRun(states, steps)
    requires target != Last(states).origin && Last(states).submits == multiset{} && id !in Last(states).tasks
    ensures IsRun(more, moreSteps)
    ensures
      var s := Last(states);
      Last(more) == s.(records := s.records[target := Fresh(target)],
                       tasks := s.tasks[id := Task(target, true, Accepted)],
                       acks := s.acks + {target})
  {
    hide IsRun, Fresh;
    more, moreSteps := OneMore(states, steps, Submit(target));
    more, moreSteps := OneMore(more, moreSteps, Deliver(target, id));
    assert Last(more).submits == multiset{};
  }

  /** A run can go on with a submission that is accepted, executed and reported. */
  lemma Delegate(states: seq<System>, steps: seq<Step>, target: NodeId, id: nat, result: ProcessResult)
    returns (more: seq<System>, moreSteps: seq<Step>)
    requires IsRun(states, steps)
    requires target != Last(states).origin && Last(states).submits == multiset{} && id !in Last(states).tasks
    ensures IsRun(more, moreSteps)
    ensures
      var s := Last(states);
      Last(more) == s.(records := s.records[target := Ended(Started(Fresh(target)), result)],
                       tasks := s.tasks[id := Task(target, true, Over(result))],
                       acks := s.acks + {target},
                       reports := s.reports + {EncodeReport(ReportedOutcome(result))})
  {
    hide IsRun, Ended, Started, Fresh, EncodeReport, ReportedOutcome;
    more, moreSteps := Hand(states, steps, target, id);
    more, moreSteps := OneMore(more, moreSteps, Start(id));
    more, moreSteps := OneMore(more, moreSteps, End(id, result));
  }

  lemma HearReport(states: seq<System>, steps: seq<Step>, result: ProcessResult)
    returns (more: seq<System>, moreSteps: seq<Step>)
    requires IsRun(states, steps) && Last(states).origin in Last(states).records
    requires EncodeReport(ReportedOutcome(result)) in Last(states).reports
    ensures IsRun(more, moreSteps) && |more| == |states| + 1 && more[|states| - 1] == Last(states)
    ensures
      var s := Last(states);
      && Last(more).origin == s.origin && Last(more).tasks == s.tasks
      && Last(more).reports == s.reports && s.origin in Last(more).records
      && Shown(Last(more), s.origin) == Some(ReportedOutcome(result))
  {
    ReportedOutcomeArrives(result);
    hide IsRun, EncodeReport, ReportedOutcome, DecodeReport;
    more, moreSteps := OneMore(states, steps, ApplyReport(EncodeReport(ReportedOutcome(result))));
  }

  lemma FreshRun(origin: NodeId) returns (states: seq<System>, steps: seq<Step>)
    ensures IsRun(states, steps)
    ensures |states| == 1
    ensures states[0] == System(origin, map[origin := Fresh(origin)], map[], multiset{}, {}, {}, {}, false)
  {
    states := [System(origin, map[origin := Fresh(origin)], map[], multiset{}, {}, {}, {}, false)];
    steps := [];
  }

  /** Two submissions, both accepted, executed and reported, one with success and one with failure. */
  lemma TwoExecutions(a: NodeId, b: NodeId, origin: NodeId) returns (states: seq<System>, steps: seq<Step>)
    requires a != origin && b != origin && a != b
    ensures IsRun(states, steps)
    ensures Last(states).origin == origin && origin in Last(states).records && |Last(states).tasks| == 2
    ensures EncodeReport(ReportedOutcome(Exited(Some(0)))) in Last(states).reports
    ensures EncodeReport(ReportedOutcome(Exited(Some(1)))) in Last(states).reports
  {
    hide IsRun, Ended, Started, EncodeReport, ReportedOutcome, DecodeReport, After, Enabled;
    states, steps := FreshRun(origin);
    states, steps := Delegate(states, steps, a, 0, Exited(Some(0)));
    states, steps := Delegate(states, steps, b, 1, Exited(Some(1)));
  }

  /** A retry after a submission that did arrive can do that: the second executor's failure replaces Completed. */
  lemma RetryOverwrites(a: NodeId, b: NodeId, origin: NodeId)
    returns (states: seq<System>, steps: seq<Step>, i: nat)
    requires a != origin && b != origin && a != b
    ensures IsRun(states, steps) && i + 1 < |states| && |states[i + 1].tasks| == 2
    ensures states[i].origin == states[i + 1].origin == origin
    ensures Shown(states[i], origin) == Some(ReportedOutcome(Exited(Some(0))))
    ensures Shown(states[i + 1], origin) == Some(ReportedOutcome(Exited(Some(1))))
  {
    hide IsRun, Shown, EncodeReport, ReportedOutcome, After, Enabled;
    states, steps := TwoExecutions(a, b, origin);
    states, steps := HearReport(states, steps, Exited(Some(0)));
    i := |states| - 1;
    states, steps := HearReport(states, steps, Exited(Some(1)));
  }

  /** As long as no task starts on a node and no submission arrives there, its terminal record stays terminal. */
  lemma {:induction false} TerminalStays(states: seq<System>, steps: seq<Step>, i: nat, j: nat, node: NodeId)
    requires IsRun(states, steps) && i <= j < |states| && Finished(states[i], node)
    requires forall k :: i <= k < j ==> !Revives(states[k], steps[k], node)
    ensures Finished(states[j], node)
  {
    hide Sane, Enabled, After, Initial, Finished;
    if i == j {
    } else {
      TerminalStays(states, steps, i, j - 1, node);
      RunIsSane(states, steps, j - 1);
      LeavingTerminal(states[j - 1], steps[j - 1], node);
    }
  }

  // ------------------------------------------------------------------ who is assigned

  /** Executors assign the job to themselves, the origin to the node first picked or to one that accepted it. */
  ghost predicate Assigned(s: System, picked: NodeId) {
    && s.origin in s.records && s.origin !in s.submits
    && (s.records[s.origin].assignedTo == picked || s.records[s.origin].assignedTo in s.acks)
    && (forall n :: n in s.records && n != s.origin ==> s.records[n].assignedTo == n)
  }

  lemma StepKeepsAssigned(s: System, step: Step, picked: NodeId)
    requires Assigned(s, picked) && Enabled(s, step)
    ensures Assigned(After(s, step), picked) && After(s, step).origin == s.origin
  {
    hide EncodeReport, ReportedOutcome, DecodeReport;
  }

  /** A queued origin shows neither exit code nor error. */
  ghost predicate QueuedIsBare(s: System) {
    s.origin in s.records && s.records[s.origin].status.Queued? ==>
      s.records[s.origin].exitCode.None? && s.records[s.origin].error.None?
  }

  lemma StepKeepsBare(s: System, step: Step)
    requires Sane(s) && QueuedIsBare(s) && Enabled(s, step)
    ensures QueuedIsBare(After(s, step))
  {
    if step.ApplyReport? {
      var id :| id in s.tasks && Reports(s.tasks[id], step.report);
      ReportedOutcomeArrives(s.tasks[id].phase.result);
    }
  }

  lemma {:induction false} QueuedOriginIsBare(states: seq<System>, steps: seq<Step>, i: nat)
    requires IsRun(states, steps) && i < |states|
    ensures QueuedIsBare(states[i])
  {
    hide Sane, Enabled, After;
    if i == 0 {
    } else {
      QueuedOriginIsBare(states, steps, i - 1);
      RunIsSane(states, steps, i - 1);
      StepKeepsBare(states[i - 1], steps[i - 1]);
    }
  }

  /** Over every run: executors assign the job to themselves, the origin to its first pick or a node that accepted. */
  lemma {:induction false} AssignedNodes(states: seq<System>, steps: seq<Step>, i: nat)
    requires IsRun(states, steps) && i < |states|
    ensures
      var s, first := states[i], states[0];
      && s.origin == first.origin && s.origin in first.records && s.origin in s.records && s.origin !in s.submits
      && (s.records[s.origin].assignedTo == first.records[s.origin].assignedTo
          || s.records[s.origin].assignedTo in s.acks)
      && (forall n :: n in s.records && n != s.origin ==> s.records[n].assignedTo == n)
  {
    hide Enabled, After;
    if i == 0 {
    } else {
      AssignedNodes(states, steps, i - 1);
      StepKeepsAssigned(states[i - 1], steps[i - 1], states[0].records[states[0].origin].assignedTo);
    }
  }

  /** An acknowledgement turns a queued origin to Running on the node that accepted, and leaves any other as it is. */
  lemma AcknowledgedOrigin(states: seq<System>, steps: seq<Step>, i: nat, target: NodeId)
    requires IsRun(states, steps) && i < |steps| && steps[i] == Acknowledge(target)
    ensures
      var s, s' := states[i], states[i + 1];
      && s.origin in s.records && s'.origin == s.origin && s.origin in s'.records
      && (if s.records[s.origin].status == Queued
          then Shown(s', s.origin) == Some(Outcome(Running, None, None)) && s'.records[s.origin].assignedTo == target
          else s'.records[s.origin] == s.records[s.origin])
  {
    QueuedOriginIsBare(states, steps, i);
    assert Enabled(states[i], steps[i]) && states[i + 1] == After(states[i], steps[i]);
  }

  ghost predicate AllDelegated(s: System) {
    forall id :: id in s.tasks ==> s.tasks[id].delegated
  }

  lemma TaskPersists(s: System, step: Step)
    requires Enabled(s, step)
    ensures After(s, step).origin == s.origin
    ensures AllDelegated(After(s, step)) ==> AllDelegated(s)
  {
    hide EncodeReport, ReportedOutcome, DecodeReport, Ended, Started, Acknowledged, CancelRequested, Overwritten;
    var s' := After(s, step);
    assert forall id :: id in s.tasks ==> id in s'.tasks && s'.tasks[id].delegated == s.tasks[id].delegated;
  }

  /** Tasks stay, on their nodes and of their kind. */
  lemma {:induction false} TasksPersist(states: seq<System>, steps: seq<Step>, i: nat, j: nat)
    requires IsRun(states, steps) && i <= j < |states|
    ensures states[i].origin == states[j].origin
    ensures AllDelegated(states[j]) ==> AllDelegated(states[i])
  {
    hide Initial;
    if i == j {
    } else {
      TasksPersist(states, steps, i, j - 1);
      TaskPersists(states[j - 1], steps[j - 1]);
    }
  }

  lemma RemoteOnlyRevivesOthers(s: System, step: Step)
    requires Placed(s) && Enabled(s, step) && AllDelegated(s)
    ensures !Revives(s, step, s.origin)
  {
  }

  // ------------------------------------------------------------------ where outcomes come from

  /** The process of task id has ended, and this is what it had to report. */
  ghost predicate EndedWith(s: System, id: nat, o: Outcome) {
    id in s.tasks && s.tasks[id].phase.Over? && o == ReportedOutcome(s.tasks[id].phase.result)
  }

  predicate SettledByExit(s: System) {
    s.origin in s.records && (s.records[s.origin].status.Completed? || s.records[s.origin].status.Failed?)
  }

  /** The origin shows Cancelled only after a cancel there, and Completed or Failed only as some task reported. */
  ghost predicate Sourced(s: System) {
    && s.origin in s.records
    && (s.records[s.origin].status.Cancelled? ==> s.origin in s.cancelled)
    && (SettledByExit(s) ==> exists id :: EndedWith(s, id, OutcomeOf(s.records[s.origin])))
  }

  lemma StepKeepsSourced(s: System, step: Step)
    requires Sane(s) && Sourced(s) && Enabled(s, step) && AllDelegated(s)
    ensures Sourced(After(s, step))
  {
    var s' := After(s, step);
    if step.ApplyReport? {
      var id :| id in s.tasks && Reports(s.tasks[id], step.report);
      ReportedOutcomeArrives(s.tasks[id].phase.result);
      assert EndedWith(s', id, OutcomeOf(s'.records[s'.origin]));
    } else if SettledByExit(s') {
      assert s'.records[s.origin] == s.records[s.origin];
      var id :| EndedWith(s, id, OutcomeOf(s.records[s.origin]));
      assert EndedWith(s', id, OutcomeOf(s'.records[s.origin]));
    }
  }

  /**
   * With remote executors, however many dispatches were accepted: the origin shows Cancelled only after a cancel there,
   * and Completed or Failed only as some task's own outcome.
   */
  lemma {:induction false} OriginIsSourced(states: seq<System>, steps: seq<Step>, i: nat)
    requires IsRun(states, steps) && i < |states| && AllDelegated(states[i])
    ensures Sourced(states[i])
    ensures
      var s := states[i];
      && s.origin in s.records
      && (s.records[s.origin].status == Cancelled ==> s.origin in s.cancelled)
      && (s.records[s.origin].status == Completed || s.records[s.origin].status == Failed ==>
            exists id :: id in s.tasks && s.tasks[id].phase.Over?
                         && Shown(s, s.origin) == Some(ReportedOutcome(s.tasks[id].phase.result)))
  {
    hide Sane, Enabled, After, AllDelegated;
    if i == 0 {
    } else {
      TasksPersist(states, steps, i - 1, i);
      OriginIsSourced(states, steps, i - 1);
      RunIsSane(states, steps, i - 1);
      StepKeepsSourced(states[i - 1], steps[i - 1]);
    }
  }

  /** As long as all executors are remote, a terminal origin stays terminal: no late acknowledgement revives it. */
  lemma {:induction false} OriginStaysTerminal(states: seq<System>, steps: seq<Step>, i: nat, j: nat)
    requires IsRun(states, steps) && i <= j < |states| && AllDelegated(states[j]) && OriginFinished(states[i])
    ensures OriginFinished(states[j])
  {
    hide Backed, Initial, Enabled, After, Finished;
    TasksPersist(states, steps, i, j);
    forall k | i <= k < j ensures !Revives(states[k], steps[k], states[i].origin) {
      TasksPersist(states, steps, i, k);
      TasksPersist(states, steps, k, j);
      RunIsSane(states, steps, k);
      RemoteOnlyRevivesOthers(states[k], steps[k]);
    }
    TerminalStays(states, steps, i, j, states[i].origin);
  }

  /** A cancel granted before a local job has started is lost: the start sets the record to Running again. */
  lemma CancelBeforeStartIsLost(origin: NodeId) returns (states: seq<System>, steps: seq<Step>, i: nat)
    ensures IsRun(states, steps) && i + 1 < |states|
    ensures Shown(states[i], origin) == Some(Outcome(Cancelled, None, None)) && origin in states[i].cancelled
    ensures Shown(states[i + 1], origin) == Some(Outcome(Running, None, None))
  {
    hide IsRun;
    states, steps := FreshRun(origin);
    states, steps := OneMore(states, steps, DispatchLocally(0));
    states, steps := OneMore(states, steps, Cancel(origin));
    i := |states| - 1;
    states, steps := OneMore(states, steps, Start(0));
  }

  // ------------------------------------------------------------------ one submission

  /** A record follows the single task that works on it. */
  ghost predicate Follows(r: JobRecord, phase: Phase) {
    match phase
    case Accepted => (r.status.Queued? || r.status.Cancelled?) && r.exitCode.None? && r.error.None?
    case Active => (r.status.Running? || r.status.Cancelled?) && r.exitCode.None? && r.error.None?
    case Over(result) =>
      || OutcomeOf(r) == ReportedOutcome(result)
      || (result.Exited? && r.status.Cancelled? && r.exitCode.None? && r.error.None?)
  }

  /** The origin's record before any report: not finished, except by a cancel granted there. */
  ghost predicate Pristine(s: System)
    requires s.origin in s.records
  {
    var r := s.records[s.origin];
    && !s.reported && r.exitCode.None? && r.error.None?
    && (r.status.Queued? || r.status.Running? || (r.status.Cancelled? && s.origin in s.cancelled))
  }

  ghost predicate TaskOk(s: System, t: Task)
    requires s.origin in s.records && t.node in s.records
  {
    var r := s.records[t.node];
    && Follows(r, t.phase)
    && (r.status.Cancelled? ==> t.node in s.cancelled)
    && (if !t.delegated then !s.reported && s.acks == {}
        else if s.reported then t.phase.Over? && OutcomeOf(s.records[s.origin]) == ReportedOutcome(t.phase.result)
        else Pristine(s))
  }

  /** At most one dispatch was accepted, however many attempts were made or are on their way. */
  ghost predicate OneTask(s: System) {
    forall i, j :: i in s.tasks && j in s.tasks ==> i == j
  }

  /** Before a dispatch is accepted nothing was acknowledged or changed, except by a cancel. */
  ghost predicate AtMostOne(s: System)
    requires s.origin in s.records
  {
    && OneTask(s)
    && (s.tasks == map[] ==> Pristine(s) && !s.records[s.origin].status.Running? && s.acks == {})
  }

  ghost predicate TasksOk(s: System)
    requires Placed(s)
  {
    forall id :: id in s.tasks ==> TaskOk(s, s.tasks[id])
  }

  ghost predicate Single(s: System) {
    Sane(s) && AtMostOne(s) && TasksOk(s)
  }

  lemma RecordSteps(r: JobRecord, node: NodeId, result: ProcessResult)
    ensures Follows(Fresh(node), Accepted)
    ensures Follows(r, Accepted) ==> Follows(Started(r), Active)
    ensures Follows(r, Active) ==> Follows(Ended(r, result), Over(result))
  {
  }

  lemma CancelFollows(r: JobRecord, phase: Phase)
    requires Follows(r, phase)
    ensures Follows(CancelRequested(r), phase)
  {
    if phase.Over? {
      ReportedOutcomeArrives(phase.result);
    }
  }

  /** What the origin hears about the single task changes its record as the invariant says. */
  lemma NewsKeepsTask(s: System, step: Step, id: nat)
    requires Single(s) && Enabled(s, step) && (step.ApplyReport? || step.Acknowledge?) && id in s.tasks
    ensures TaskOk(After(s, step), s.tasks[id])
  {
    if step.ApplyReport? {
      var k :| k in s.tasks && Reports(s.tasks[k], step.report);
      assert k == id;
      ReportedOutcomeArrives(s.tasks[k].phase.result);
    }
  }

  lemma ReportHasTask(s: System, w: Report)
    requires Sane(s) && w in s.reports
    ensures s.tasks != map[]
  {
    var id :| id in s.tasks && Reports(s.tasks[id], w);
  }

  lemma CancelKeepsTask(s: System, node: NodeId, id: nat)
    requires Single(s) && Enabled(s, Cancel(node)) && id in s.tasks
    ensures TaskOk(After(s, Cancel(node)), s.tasks[id])
  {
    CancelFollows(s.records[s.tasks[id].node], s.tasks[id].phase);
    if s.tasks[id].phase.Over? {
      ReportedOutcomeArrives(s.tasks[id].phase.result);
    }
  }

  lemma ProgressKeepsTask(s: System, step: Step, id: nat)
    requires Single(s) && Enabled(s, step)
    requires (step.Start? || step.End?) && step.id == id
    ensures TaskOk(After(s, step), After(s, step).tasks[id])
  {
    RecordSteps(s.records[s.tasks[id].node], s.origin, if step.End? then step.result else WaitFailed(""));
    if step.End? {
      ReportedOutcomeArrives(step.result);
    }
  }

  lemma TasksStay(s: System, step: Step)
    requires Enabled(s, step)
    ensures s.tasks.Keys <= After(s, step).tasks.Keys
    ensures OneTask(After(s, step)) ==> OneTask(s)
  {
  }

  lemma FirstTaskOk(s: System, step: Step, id: nat)
    requires Single(s) && Enabled(s, step) && OneTask(After(s, step))
    requires (step.Deliver? || step.DispatchLocally?) && step.id == id
    ensures TaskOk(After(s, step), After(s, step).tasks[id])
    ensures s.tasks == map[]
  {
    TasksStay(s, step);
    assert forall k :: k in s.tasks ==> k in After(s, step).tasks && k != id;
    assert id in After(s, step).tasks;
  }

  lemma StepKeepsAtMostOne(s: System, step: Step)
    requires Single(s) && Enabled(s, step) && OneTask(After(s, step))
    ensures After(s, step).origin in After(s, step).records && AtMostOne(After(s, step))
  {
    hide TaskOk, Backed, EncodeReport, ReportedOutcome, DecodeReport, Ended, Started, Overwritten;
    match step {
      case Deliver(_, id) => FirstTaskOk(s, step, id);
      case DispatchLocally(id) => FirstTaskOk(s, step, id);
      case ApplyReport(report) => ReportHasTask(s, report);
      case Start(_) =>
      case End(_, _) =>
      case Acknowledge(_) =>
      case Cancel(_) =>
      case Submit(_) =>
      case LoseSubmit(_) =>
    }
  }

  /** Submissions under way change nothing, whether they are made or lost. */
  lemma MailKeepsTask(s: System, step: Step, id: nat)
    requires Single(s) && Enabled(s, step) && (step.Submit? || step.LoseSubmit?) && id in s.tasks
    ensures TaskOk(After(s, step), s.tasks[id])
  {
  }

  lemma StepKeepsTasks(s: System, step: Step)
    requires Single(s) && Enabled(s, step) && OneTask(After(s, step))
    requires Placed(After(s, step))
    ensures TasksOk(After(s, step))
  {
    hide TaskOk, Backed, EncodeReport, ReportedOutcome, DecodeReport, Ended, Started, Overwritten;
    match step {
      case Start(id) => ProgressKeepsTask(s, step, id);
      case End(id, _) => ProgressKeepsTask(s, step, id);
      case Deliver(_, id) => FirstTaskOk(s, step, id);
      case DispatchLocally(id) => FirstTaskOk(s, step, id);
      case ApplyReport(_) => forall id | id in s.tasks { NewsKeepsTask(s, step, id); }
      case Acknowledge(_) => forall id | id in s.tasks { NewsKeepsTask(s, step, id); }
      case Cancel(node) => forall id | id in s.tasks { CancelKeepsTask(s, node, id); }
      case Submit(_) => forall id | id in s.tasks { MailKeepsTask(s, step, id); }
      case LoseSubmit(_) => forall id | id in s.tasks { MailKeepsTask(s, step, id); }
    }
  }

  lemma StepKeepsSingle(s: System, step: Step)
    requires Single(s) && Enabled(s, step) && OneTask(After(s, step))
    ensures Single(After(s, step))
  {
    hide After, Enabled, AtMostOne, TasksOk, Backed;
    StepKeepsSane(s, step);
    StepKeepsAtMostOne(s, step);
    StepKeepsTasks(s, step);
  }

  lemma InitialIsSingle(s: System)
    requires Initial(s)
    ensures Single(s)
  {
  }

  lemma {:induction false} RunIsSingle(states: seq<System>, steps: seq<Step>, i: nat)
    requires IsRun(states, steps) && i < |states| && OneTask(states[i])
    ensures Single(states[i])
  {
    hide Single, Enabled, Initial;
    RunIsSane(states, steps, i);
    if i == 0 {
      InitialIsSingle(states[0]);
    } else {
      TasksStay(states[i - 1], steps[i - 1]);
      RunIsSingle(states, steps, i - 1);
      StepKeepsSingle(states[i - 1], steps[i - 1]);
    }
  }

  lemma {:induction false} OneTaskBefore(states: seq<System>, steps: seq<Step>, i: nat, j: nat)
    requires IsRun(states, steps) && i <= j < |states| && OneTask(states[j])
    ensures OneTask(states[i])
  {
    hide Enabled, After, Initial, OneTask;
    if i == j {
    } else {
      TasksStay(states[j - 1], steps[j - 1]);
      OneTaskBefore(states, steps, i, j - 1);
    }
  }

  // ------------------------------------------------------------------ main results

  predicate ShowsCancelled(s: System, node: NodeId) {
    node in s.records && s.records[node].status.Cancelled?
  }

  const CANCELLED: Outcome := Outcome(Cancelled, None, None)

  /**
   * One submission accepted, by a remote node, after any number that were lost, and no cancel: whenever the origin's
   * record is terminal, its status, exit code and error are the executor's.
   */
  lemma OriginAgrees(states: seq<System>, steps: seq<Step>, i: nat)
    requires IsRun(states, steps) && i < |states| && OneTask(states[i])
    requires AllDelegated(states[i])
    requires states[i].cancelled == {} && OriginFinished(states[i])
    ensures
      var s := states[i];
      exists id :: id in s.tasks && s.tasks[id].node != s.origin && Shown(s, s.origin) == Shown(s, s.tasks[id].node)
  {
    var s := states[i];
    RunIsSingle(states, steps, i);
    var id :| id in s.tasks;
    assert TaskOk(s, s.tasks[id]);
  }

  /**
   * One submission accepted, cancels anywhere: once a report was applied the origin shows how the process
   * ended, and the executor shows the same exactly unless its own record was cancelled.
   */
  lemma ReportedRecords(states: seq<System>, steps: seq<Step>, i: nat) returns (id: nat, o: Outcome)
    requires IsRun(states, steps) && i < |states| && OneTask(states[i]) && states[i].reported
    ensures
      var s := states[i];
      && EndedWith(s, id, o) && Shown(s, s.origin) == Some(o)
      && (Shown(s, s.tasks[id].node) == Shown(s, s.origin) <==> !ShowsCancelled(s, s.tasks[id].node))
  {
    var s := states[i];
    RunIsSingle(states, steps, i);
    id :| id in s.tasks;
    assert TaskOk(s, s.tasks[id]);
    o := ReportedOutcome(s.tasks[id].phase.result);
    ReportedOutcomeArrives(s.tasks[id].phase.result);
  }

  lemma ReportedStep(s: System, step: Step)
    requires Single(s) && Enabled(s, step) && OneTask(After(s, step)) && s.reported
    ensures After(s, step).reported && After(s, step).origin == s.origin
    ensures Shown(After(s, step), s.origin) == Shown(s, s.origin)
  {
    var id :| id in s.tasks;
    assert TaskOk(s, s.tasks[id]);
    ReportedOutcomeArrives(s.tasks[id].phase.result);
    if step.ApplyReport? {
      NewsKeepsTask(s, step, id);
    }
  }

  /** Once a report was applied, nothing later changes what the origin of a job with one task shows. */
  lemma {:induction false} ReportedIsFinal(states: seq<System>, steps: seq<Step>, i: nat, j: nat)
    requires IsRun(states, steps) && i <= j < |states| && OneTask(states[j]) && states[i].reported
    ensures states[j].reported && states[j].origin == states[i].origin
    ensures Shown(states[j], states[j].origin) == Shown(states[i], states[i].origin)
  {
    hide Single, Shown, Enabled, After, Initial;
    if i == j {
    } else {
      TasksStay(states[j - 1], steps[j - 1]);
      ReportedIsFinal(states, steps, i, j - 1);
      RunIsSingle(states, steps, j - 1);
      ReportedStep(states[j - 1], steps[j - 1]);
    }
  }

  lemma LocalStep(s: System, step: Step, id: nat)
    requires Single(s) && Enabled(s, step) && OneTask(After(s, step))
    requires id in s.tasks && !s.tasks[id].delegated && SettledByExit(s)
    ensures After(s, step).origin == s.origin && Shown(After(s, step), s.origin) == Shown(s, s.origin)
    ensures id in After(s, step).tasks && !After(s, step).tasks[id].delegated
  {
    assert TaskOk(s, s.tasks[id]);
    assert forall w :: w !in s.reports;
  }

  /** A job run on the node that accepted it: Completed and Failed are final, whatever is requested. */
  lemma {:induction false} LocalFinality(states: seq<System>, steps: seq<Step>, i: nat, j: nat, id: nat)
    requires IsRun(states, steps) && i <= j < |states| && OneTask(states[j])
    requires id in states[i].tasks && !states[i].tasks[id].delegated && SettledByExit(states[i])
    ensures states[j].origin == states[i].origin && id in states[j].tasks && !states[j].tasks[id].delegated
    ensures Shown(states[j], states[j].origin) == Shown(states[i], states[i].origin)
  {
    hide Single, Enabled, After, Initial;
    if i == j {
    } else {
      TasksStay(states[j - 1], steps[j - 1]);
      LocalFinality(states, steps, i, j - 1, id);
      RunIsSingle(states, steps, j - 1);
      LocalStep(states[j - 1], steps[j - 1], id);
    }
  }

  /** A cancelled record whose task went on: kept while the task runs and after an exit, replaced by a failed wait. */
  ghost predicate CancelKept(s: System, id: nat) {
    id in s.tasks && !s.tasks[id].phase.Accepted? &&
    var shown := Shown(s, s.tasks[id].node);
    match s.tasks[id].phase
    case Over(result) => shown == Some(if result.Exited? then CANCELLED else ReportedOutcome(result))
    case _ => shown == Some(CANCELLED)
  }

  lemma CancelStep(s: System, step: Step, id: nat)
    requires Single(s) && Enabled(s, step) && OneTask(After(s, step)) && CancelKept(s, id)
    ensures CancelKept(After(s, step), id) && After(s, step).tasks[id].node == s.tasks[id].node
  {
    assert TaskOk(s, s.tasks[id]);
    if step.ApplyReport? {
      var k :| k in s.tasks && Reports(s.tasks[k], step.report);
      assert k == id;
    } else if step.Deliver? || step.DispatchLocally? {
      TasksStay(s, step);
      FirstTaskOk(s, step, step.id);
    } else if s.tasks[id].phase.Over? {
      ReportedOutcomeArrives(s.tasks[id].phase.result);
    }
  }

  lemma CancelLands(s: System, id: nat)
    requires Single(s) && id in s.tasks && s.tasks[id].phase.Active? && Enabled(s, Cancel(s.tasks[id].node))
    ensures CancelKept(After(s, Cancel(s.tasks[id].node)), id)
    ensures After(s, Cancel(s.tasks[id].node)).tasks == s.tasks
  {
    assert TaskOk(s, s.tasks[id]);
  }

  /** The cancelled record stays as `CancelKept` says through the rest of the run. */
  lemma {:induction false} CancelStaysKept(states: seq<System>, steps: seq<Step>, i: nat, j: nat, id: nat)
    requires IsRun(states, steps) && i <= j < |states| && OneTask(states[j]) && CancelKept(states[i], id)
    ensures CancelKept(states[j], id) && states[j].tasks[id].node == states[i].tasks[id].node
  {
    hide Single, Enabled, After, Initial, CancelKept;
    if i == j {
    } else {
      TasksStay(states[j - 1], steps[j - 1]);
      CancelStaysKept(states, steps, i, j - 1, id);
      RunIsSingle(states, steps, j - 1);
      CancelStep(states[j - 1], steps[j - 1], id);
    }
  }

  /**
   * A cancel granted while the task is running, on the node that runs it: from then on, whatever else happens, the node
   * shows Cancelled without exit code and error while the process runs, and after its end exactly if it was an exit.
   */
  lemma CancelAfterStartSurvives(states: seq<System>, steps: seq<Step>, i: nat, j: nat, id: nat)
    requires IsRun(states, steps) && i < j < |states| && OneTask(states[j])
    requires id in states[i].tasks && states[i].tasks[id].phase.Active?
    requires steps[i] == Cancel(states[i].tasks[id].node)
    ensures id in states[j].tasks && states[j].tasks[id].node == states[i].tasks[id].node
    ensures
      var t := states[j].tasks[id];
      var kept := Shown(states[j], t.node) == Some(Outcome(Cancelled, None, None));
      match t.phase
      case Accepted => false
      case Active => kept
      case Over(result) => kept <==> result.Exited?
  {
    hide Single, Enabled, Initial, After;
    OneTaskBefore(states, steps, i + 1, j);
    TasksStay(states[i], steps[i]);
    RunIsSingle(states, steps, i);
    CancelLands(states[i], id);
    CancelStaysKept(states, steps, i + 1, j, id);
    if states[j].tasks[id].phase.Over? {
      ReportedOutcomeArrives(states[j].tasks[id].phase.result);
    }
  }
}
