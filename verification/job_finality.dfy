/** When what the origin of a job shows is final: the exact condition, over all continuations of a run. */
module JobFinality {
  import opened Wrappers
  import opened Nodes
  import opened JobRecords
  import opened JobProtocol

  /** The task is done, and what it may have reported is what the origin shows. */
  ghost predicate Told(s: System, t: Task) {
    t.phase.Over? && (t.delegated ==> Shown(s, s.origin) == Some(ReportedOutcome(t.phase.result)))
  }

  /** The origin is finished and nothing under way can tell it anything new. */
  ghost predicate Quiet(s: System) {
    && OriginFinished(s)
    && s.submits == multiset{}
    && forall id :: id in s.tasks ==> Told(s, s.tasks[id])
  }

  predicate Dispatches(step: Step) {
    step.Submit? || step.DispatchLocally?
  }

  // ------------------------------------------------------------------ quiet means final

  lemma QuietReport(s: System, w: Report)
    requires Sane(s) && Quiet(s) && w in s.reports
    ensures Shown(s, s.origin) == Some(DecodeReport(w))
  {
    var id :| id in s.tasks && Reports(s.tasks[id], w);
    ReportedOutcomeArrives(s.tasks[id].phase.result);
  }

  lemma QuietStep(s: System, step: Step)
    requires Sane(s) && Enabled(s, step) && Quiet(s) && !Dispatches(step)
    ensures
      var s' := After(s, step);
      Quiet(s') && s'.origin == s.origin && Shown(s', s.origin) == Shown(s, s.origin)
  {
    hide EncodeReport, ReportedOutcome, DecodeReport, Ended, Started, Backed;
    if step.ApplyReport? {
      QuietReport(s, step.report);
    }
  }

  /** From a quiet moment on, without new dispatches, the origin shows the same for ever. */
  lemma {:induction false} QuietIsFinal(states: seq<System>, steps: seq<Step>, i: nat, j: nat)
    requires IsRun(states, steps) && i <= j < |states| && Quiet(states[i])
    requires forall k :: i <= k < j ==> !Dispatches(steps[k])
    ensures Quiet(states[j]) && states[j].origin == states[i].origin
    ensures Shown(states[j], states[j].origin) == Shown(states[i], states[i].origin)
  {
    hide Quiet, Sane, Enabled, After, Initial, Dispatches, Shown;
    if i == j {
    } else {
      QuietIsFinal(states, steps, i, j - 1);
      RunIsSane(states, steps, j - 1);
      QuietStep(states[j - 1], steps[j - 1]);
    }
  }

  // ------------------------------------------------------------------ otherwise the outcome can still change

  /** Every delegated task that ended has sent its report. */
  ghost predicate Announced(s: System) {
    forall id :: id in s.tasks && s.tasks[id].delegated && s.tasks[id].phase.Over? ==>
      EncodeReport(ReportedOutcome(s.tasks[id].phase.result)) in s.reports
  }

  lemma StepKeepsAnnounced(s: System, step: Step)
    requires Announced(s) && Enabled(s, step)
    ensures Announced(After(s, step))
  {
    hide EncodeReport, ReportedOutcome, DecodeReport, Ended, Started, Acknowledged, CancelRequested, Overwritten;
  }

  lemma {:induction false} RunIsAnnounced(states: seq<System>, steps: seq<Step>, i: nat)
    requires IsRun(states, steps) && i < |states|
    ensures Announced(states[i])
  {
    hide Enabled, After;
    if i == 0 {
    } else {
      RunIsAnnounced(states, steps, i - 1);
      StepKeepsAnnounced(states[i - 1], steps[i - 1]);
    }
  }

  /** The run goes on without new dispatches. */
  ghost predicate Continues(states: seq<System>, steps: seq<Step>, more: seq<System>, moreSteps: seq<Step>) {
    && IsRun(more, moreSteps)
    && states <= more && steps <= moreSteps
    && forall k :: |steps| <= k < |moreSteps| ==> !Dispatches(moreSteps[k])
  }

  lemma StepOn(states: seq<System>, steps: seq<Step>, step: Step) returns (more: seq<System>, moreSteps: seq<Step>)
    requires IsRun(states, steps) && Enabled(Last(states), step) && !Dispatches(step)
    ensures Continues(states, steps, more, moreSteps) && IsRun(more, moreSteps)
    ensures more != [] && Last(more) == After(Last(states), step)
  {
    hide IsRun, Enabled, After;
    more, moreSteps := OneMore(states, steps, step);
  }

  lemma ContinuesOn(
    a: seq<System>, k: seq<Step>, b: seq<System>, l: seq<Step>, c: seq<System>, m: seq<Step>)
    requires Continues(a, k, b, l) && Continues(b, l, c, m)
    ensures Continues(a, k, c, m)
  {
    hide IsRun;
    forall n | |k| <= n < |m| ensures !Dispatches(m[n]) {
      if n < |l| {
        assert m[n] == l[n];
      }
    }
  }

  /** An ended task's report reaches the origin. */
  lemma Hear(states: seq<System>, steps: seq<Step>, id: nat) returns (more: seq<System>, moreSteps: seq<Step>)
    requires IsRun(states, steps)
    requires id in Last(states).tasks && Last(states).tasks[id].delegated && Last(states).tasks[id].phase.Over?
    ensures Continues(states, steps, more, moreSteps) && more != [] && Last(more).origin == Last(states).origin
    ensures Shown(Last(more), Last(more).origin) == Some(ReportedOutcome(Last(states).tasks[id].phase.result))
  {
    RunIsSane(states, steps, |states| - 1);
    RunIsAnnounced(states, steps, |states| - 1);
    var result := Last(states).tasks[id].phase.result;
    ReportedOutcomeArrives(result);
    hide IsRun, EncodeReport, ReportedOutcome, DecodeReport, Backed, Continues;
    more, moreSteps := StepOn(states, steps, ApplyReport(EncodeReport(ReportedOutcome(result))));
  }

  /** A running task can end and be heard with an outcome other than the one shown. */
  lemma EndOtherwise(states: seq<System>, steps: seq<Step>, id: nat) returns (more: seq<System>, moreSteps: seq<Step>)
    requires IsRun(states, steps)
    requires id in Last(states).tasks && Last(states).tasks[id].delegated && Last(states).tasks[id].phase.Active?
    ensures Continues(states, steps, more, moreSteps) && more != [] && Last(more).origin == Last(states).origin
    ensures Shown(Last(more), Last(more).origin) != Shown(Last(states), Last(states).origin)
  {
    RunIsSane(states, steps, |states| - 1);
    var shown := Shown(Last(states), Last(states).origin);
    var result := if shown == Some(ReportedOutcome(Exited(Some(0)))) then Exited(Some(1)) else Exited(Some(0));
    assert Some(ReportedOutcome(result)) != shown;
    hide IsRun, EncodeReport, ReportedOutcome, Ended, Backed, Continues, Shown;
    var mid, midSteps := StepOn(states, steps, End(id, result));
    more, moreSteps := Hear(mid, midSteps, id);
    ContinuesOn(states, steps, mid, midSteps, more, moreSteps);
  }

  /** A running task of the origin's own can fail to be waited for, with an error text that is not the one shown. */
  lemma FailOtherwise(states: seq<System>, steps: seq<Step>, id: nat) returns (more: seq<System>, moreSteps: seq<Step>)
    requires IsRun(states, steps) && Last(states).origin in Last(states).records
    requires id in Last(states).tasks && !Last(states).tasks[id].delegated && Last(states).tasks[id].phase.Active?
    ensures Continues(states, steps, more, moreSteps) && more != [] && Last(more).origin == Last(states).origin
    ensures Last(more).origin in Last(more).records
    ensures Last(more).records[Last(more).origin].error != Last(states).records[Last(states).origin].error
  {
    RunIsSane(states, steps, |states| - 1);
    hide IsRun, Backed, Continues;
    var shown := Last(states).records[Last(states).origin].error;
    var why := if shown == Some("wait failed: ") then "x" else "";
    assert "wait failed: " + "" == "wait failed: ";
    assert |"wait failed: " + "x"| != |"wait failed: "|;
    more, moreSteps := StepOn(states, steps, End(id, WaitFailed(why)));
  }

  lemma StartOtherwise(states: seq<System>, steps: seq<Step>, id: nat) returns (more: seq<System>, moreSteps: seq<Step>)
    requires IsRun(states, steps)
    requires id in Last(states).tasks && Last(states).tasks[id].phase.Accepted?
    ensures Continues(states, steps, more, moreSteps) && more != [] && Last(more).origin == Last(states).origin
    ensures Shown(Last(more), Last(more).origin) != Shown(Last(states), Last(states).origin)
  {
    RunIsSane(states, steps, |states| - 1);
    hide IsRun, Backed, Continues;
    var mid, midSteps := StepOn(states, steps, Start(id));
    if Last(states).tasks[id].delegated {
      more, moreSteps := EndOtherwise(mid, midSteps, id);
    } else {
      more, moreSteps := FailOtherwise(mid, midSteps, id);
    }
    ContinuesOn(states, steps, mid, midSteps, more, moreSteps);
  }

  /** A number above all of a finite set. */
  lemma {:induction false} Above(s: set<nat>) returns (b: nat)
    ensures forall x :: x in s ==> x < b
    decreases s
  {
    if s == {} {
      b := 0;
    } else {
      var y :| y in s;
      b := Above(s - {y});
      b := if b > y then b else y + 1;
      assert forall x :: x in s ==> x == y || x in s - {y};
    }
  }

  lemma DeliverOtherwise(states: seq<System>, steps: seq<Step>, target: NodeId)
    returns (more: seq<System>, moreSteps: seq<Step>)
    requires IsRun(states, steps) && target in Last(states).submits
    ensures Continues(states, steps, more, moreSteps) && more != [] && Last(more).origin == Last(states).origin
    ensures Shown(Last(more), Last(more).origin) != Shown(Last(states), Last(states).origin)
  {
    RunIsSane(states, steps, |states| - 1);
    hide IsRun, Fresh, Backed, Continues;
    var id := Above(Last(states).tasks.Keys);
    var mid, midSteps := StepOn(states, steps, Deliver(target, id));
    more, moreSteps := StartOtherwise(mid, midSteps, id);
    ContinuesOn(states, steps, mid, midSteps, more, moreSteps);
  }

  /** An unfinished task, or one that ended with something else to report, can change what the origin shows. */
  lemma TaskOtherwise(states: seq<System>, steps: seq<Step>, id: nat) returns (more: seq<System>, moreSteps: seq<Step>)
    requires IsRun(states, steps) && id in Last(states).tasks && !Told(Last(states), Last(states).tasks[id])
    ensures Continues(states, steps, more, moreSteps) && more != [] && Last(more).origin == Last(states).origin
    ensures Shown(Last(more), Last(more).origin) != Shown(Last(states), Last(states).origin)
  {
    RunIsSane(states, steps, |states| - 1);
    var t := Last(states).tasks[id];
    hide IsRun, Continues, ReportedOutcome, Backed;
    match t.phase {
      case Accepted => more, moreSteps := StartOtherwise(states, steps, id);
      case Active =>
        if t.delegated {
          more, moreSteps := EndOtherwise(states, steps, id);
        } else {
          more, moreSteps := FailOtherwise(states, steps, id);
        }
      case Over(_) => more, moreSteps := Hear(states, steps, id);
    }
  }

  /**
   * If the origin is not finished, if anything is still under way, or if some executor ended with another outcome, the
   * run can go on, without any new dispatch, to a moment at which the origin shows something else.
   */
  lemma UnquietCanChange(states: seq<System>, steps: seq<Step>) returns (more: seq<System>, moreSteps: seq<Step>)
    requires IsRun(states, steps) && !Quiet(Last(states))
    ensures Continues(states, steps, more, moreSteps) && more != [] && Last(more).origin == Last(states).origin
    ensures Shown(Last(more), Last(more).origin) != Shown(Last(states), Last(states).origin)
  {
    RunIsSane(states, steps, |states| - 1);
    var s := Last(states);
    hide IsRun, Continues, Told, Backed;
    if !OriginFinished(s) {
      more, moreSteps := StepOn(states, steps, Cancel(s.origin));
    } else if s.submits != multiset{} {
      var target :| target in s.submits;
      more, moreSteps := DeliverOtherwise(states, steps, target);
    } else {
      var id :| id in s.tasks && !Told(s, s.tasks[id]);
      more, moreSteps := TaskOtherwise(states, steps, id);
    }
  }

  /**
   * The exact condition, for every run: what the origin shows is final, over all continuations without new dispatches,
   * iff it is terminal, nothing is under way and every other executor ended with the outcome shown.
   */
  lemma FinalIffQuiet(states: seq<System>, steps: seq<Step>)
    requires IsRun(states, steps)
    ensures Quiet(Last(states)) <==>
      forall more, moreSteps :: Continues(states, steps, more, moreSteps) ==>
        Shown(Last(more), Last(more).origin) == Shown(Last(states), Last(states).origin)
  {
    hide Enabled, After, Initial, Quiet, Shown;
    if Quiet(Last(states)) {
      forall more, moreSteps | Continues(states, steps, more, moreSteps)
        ensures Shown(Last(more), Last(more).origin) == Shown(Last(states), Last(states).origin)
      {
        assert more[|states| - 1] == Last(states);
        QuietIsFinal(more, moreSteps, |states| - 1, |more| - 1);
      }
    } else {
      var more, moreSteps := UnquietCanChange(states, steps);
    }
  }
}
