/** How tasks end: what the fields of a terminal status say, names reused or not, and how long a task
    stays after its end. */
module Endings {
  import opened Types
  import opened Actions
  import opened Tasks
  import opened TaskQueue
  import opened ClaimExclusivity
  import opened TaskLifecycle
  import opened StampedNames

  // ---------------------------------------------------------------- terminal statuses

  /** The event is the end the version shows: a report with its phase and its time, or an expiry. */
  ghost predicate Ends(e: Event, t: Task) {
    || (e.Reported? && e.uid == t.uid && t.status.phase == e.next && t.status.completedAt == ToStamp(e.at))
    || (e.Lapsed? && e.uid == t.uid && t.status.phase == Expired && e.at < Instant(t.status.completedAt) + SECOND)
  }

  ghost predicate EndIn(log: Log, t: Task) {
    exists i :: 0 <= i < |log| && Ends(log[i], t)
  }

  /** A terminal version says whether it succeeded and when it ended; any other says nothing yet. */
  ghost predicate Ended(log: Log, t: Task) {
    if t.status.phase.Terminal() then
      && t.status.result.TaskResult? && (t.status.result.success <==> t.status.phase == Completed)
      && t.status.completedAt.At? && EndIn(log, t)
    else
      t.status.result == NoResult && t.status.completedAt == Absent && t.status.actionsCompleted == 0
  }

  ghost predicate AllEnded(s: State) {
    forall v {:trigger s.history[v]} :: v in s.history ==> Ended(s.log, s.history[v])
  }

  lemma AppendKeepsEnd(log: Log, log': Log, t: Task)
    requires Ended(log, t) && log <= log'
    ensures Ended(log', t)
  {
    if t.status.phase.Terminal() {
      var i :| 0 <= i < |log| && Ends(log[i], t);
      assert log'[i] == log[i];
    }
  }

  /** The claim starts from a version that says nothing yet, and leaves that so. */
  lemma ClaimEnds(s: State, id: nat, actions: seq<ActionConfig>, t: Task, e: Event)
    requires Inv(s) && AllEnded(s) && DoClaim(s, id, actions).store.version != s.store.version
    requires t.version == s.store.version + 1
    requires DoClaim(s, id, actions) == Commit(s, t, e).(attempts := DoClaim(s, id, actions).attempts)
    ensures Ended(s.log + [e], t)
  {
    hide VersionsOk, ClaimsOk;
    assert DoClaim(s, id, actions).history[t.version] == t;
    var a := s.attempts[id];
    assert AttemptHeld(s, a);
    CurrentIsStored(s, a.obj, ClaimStatus(a.obj.status, a.worker, a.at));
    assert Ended(s.log, s.history[a.obj.version]);
  }

  lemma ReportEnds(s: State, id: nat, now: Time, t: Task, e: Event)
    requires Inv(s) && DoReport(s, id, now).store.version != s.store.version
    requires t.version == s.store.version + 1
    requires DoReport(s, id, now) == Commit(s, t, e).(attempts := DoReport(s, id, now).attempts)
    ensures Ended(s.log + [e], t)
  {
    hide VersionsOk, ClaimsOk;
    assert DoReport(s, id, now).history[t.version] == t && DoReport(s, id, now).log[|s.log|] == e;
    var a := s.attempts[id];
    assert AttemptHeld(s, a);
    assert SuccessCount(a.outcomes) <= |a.outcomes|;
    assert (s.log + [e])[|s.log|] == e && Ends(e, t);
  }

  lemma ExpireEnds(cfg: Config, s: State, j: nat, name: string, now: Time, t: Task, e: Event)
    requires Inv(s) && DoExpire(cfg, s, j, name, now).store.version != s.store.version
    requires t.version == s.store.version + 1
    requires DoExpire(cfg, s, j, name, now) == Commit(s, t, e).(attempts := DoExpire(cfg, s, j, name, now).attempts)
    ensures Ended(s.log + [e], t)
  {
    hide VersionsOk, ClaimsOk;
    assert DoExpire(cfg, s, j, name, now).history[t.version] == t && DoExpire(cfg, s, j, name, now).log[|s.log|] == e;
    assert SweepHeld(s, s.sweeps[j]);
    StampTruncates(now);
    assert (s.log + [e])[|s.log|] == e && Ends(e, t);
  }

  lemma WriteEnds(cfg: Config, s: State, step: Step, t: Task, e: Event)
    requires Inv(s) && AllEnded(s) && Exec(cfg, s, step).store.version != s.store.version
    requires t.version == s.store.version + 1
    requires Exec(cfg, s, step) == Commit(s, t, e).(attempts := Exec(cfg, s, step).attempts)
    ensures Ended(s.log + [e], t)
  {
    hide Inv, AllEnded, DoClaim, DoReport, DoExpire;
    match step
    case Claim(id, actions) => ClaimEnds(s, id, actions, t, e);
    case Report(id, now) => ReportEnds(s, id, now, t, e);
    case Expire(j, name, now) => ExpireEnds(cfg, s, j, name, now, t, e);
    case PublishTask(_, _, _) => assert Exec(cfg, s, step).history[t.version] == t;
    case _ =>
  }

  lemma ExecKeepsEnds(cfg: Config, s: State, step: Step)
    requires Inv(s) && AllEnded(s)
    ensures AllEnded(Exec(cfg, s, step))
  {
    hide Exec, VersionsOk, HeldOk, ClaimsOk, Ended;
    var s' := Exec(cfg, s, step);
    ExecExtendsLog(cfg, s, step);
    forall v | v in s'.history ensures Ended(s'.log, s'.history[v]) {
      if s'.store.version == s.store.version {
        OthersKeepHistory(cfg, s, step);
        AppendKeepsEnd(s.log, s'.log, s.history[v]);
      } else {
        var t, e := WriteIsCommit(cfg, s, step);
        if v == t.version {
          WriteEnds(cfg, s, step, t, e);
        } else {
          AppendKeepsEnd(s.log, s'.log, s.history[v]);
        }
      }
    }
  }

  lemma {:induction false} RunEnds(cfg: Config, steps: seq<Step>)
    ensures AllEnded(Run(cfg, steps))
  {
    if steps != [] {
      hide Exec, Inv, AllEnded;
      var init := steps[..|steps| - 1];
      RunEnds(cfg, init);
      RunInv(cfg, init);
      ExecKeepsEnds(cfg, Run(cfg, init), steps[|steps| - 1]);
    }
  }

  /** In every run, names reused or not: a Completed version says success, a Failed or Expired one says
      failure, each with the time of a logged report or expiry; no other version has a result. */
  lemma EndingsAreTrue(cfg: Config, steps: seq<Step>, t: Task)
    requires Committed(Run(cfg, steps), t)
    ensures Ended(Run(cfg, steps).log, t)
  {
    RunEnds(cfg, steps);
  }

  // ---------------------------------------------------------------- retention

  /** The deleted task had ended, by a report or an expiry, for the retention period and rounding. */
  ghost predicate Retained(cfg: Config, log: Log, i: nat)
    requires i < |log|
  {
    log[i].Deleted? ==>
      exists k :: 0 <= k < i && (log[k].Reported? || log[k].Lapsed?) && log[k].uid == log[i].uid
                  && log[i].at + SECOND > log[k].at + MinRetention(cfg)
  }

  ghost predicate AllRetained(cfg: Config, log: Log) {
    forall i {:trigger Retained(cfg, log, i)} :: 0 <= i < |log| ==> Retained(cfg, log, i)
  }

  lemma EndBound(t: Task, e: Event)
    requires Ends(e, t) && t.status.completedAt.At?
    ensures e.at < TerminalInstant(t) + SECOND
  {
    if e.Reported? {
      StampTruncates(e.at);
    }
  }

  lemma DeletedHadEnded(cfg: Config, s: State, j: nat, name: string, tLast: Time) returns (k: nat)
    requires Inv(s) && Dated(s) && Life(cfg, s) && FreshNames(s.log) && AllEnded(s)
    requires DoDelete(cfg, s, j, name, tLast) != s
    ensures k < |s.log| && (s.log[k].Reported? || s.log[k].Lapsed?) && s.log[k].uid == s.store.objects[name].uid
    ensures s.clock + SECOND > s.log[k].at + MinRetention(cfg)
  {
    hide Life, Dated, VersionsOk, ClaimsOk;
    DeletedIsOld(cfg, s, j, name, tLast);
    DeleteHitsTerminal(cfg, s, j, name);
    var t := s.sweeps[j].listed[name];
    assert SweepHeld(s, s.sweeps[j]);
    assert Ended(s.log, s.history[t.version]);
    k :| 0 <= k < |s.log| && Ends(s.log[k], t);
    EndBound(t, s.log[k]);
  }

  lemma DeleteKeepsRetained(cfg: Config, s: State, j: nat, name: string, tLast: Time)
    requires Inv(s) && Dated(s) && Life(cfg, s) && FreshNames(s.log) && AllEnded(s) && AllRetained(cfg, s.log)
    ensures AllRetained(cfg, DoDelete(cfg, s, j, name, tLast).log)
  {
    hide Inv, Dated, Life, AllEnded;
    var s' := DoDelete(cfg, s, j, name, tLast);
    if s' != s {
      var k := DeletedHadEnded(cfg, s, j, name, tLast);
      AppendKeepsRetained(cfg, s.log, s'.log[|s.log|]);
      assert s'.log[k] == s.log[k];
      assert Retained(cfg, s'.log, |s.log|);
    }
  }

  lemma AppendKeepsRetained(cfg: Config, log: Log, e: Event)
    requires AllRetained(cfg, log)
    ensures forall i {:trigger Retained(cfg, log + [e], i)} :: 0 <= i < |log| ==> Retained(cfg, log + [e], i)
    ensures !e.Deleted? ==> AllRetained(cfg, log + [e])
  {
    var log' := log + [e];
    forall i | 0 <= i < |log| ensures Retained(cfg, log', i) {
      assert Retained(cfg, log, i) && log'[i] == log[i];
      if log[i].Deleted? {
        var k :| 0 <= k < i && (log[k].Reported? || log[k].Lapsed?) && log[k].uid == log[i].uid
                 && log[i].at + SECOND > log[k].at + MinRetention(cfg);
        assert log'[k] == log[k];
      }
    }
    assert !e.Deleted? ==> Retained(cfg, log', |log|);
  }

  /** Only deleting logs a deletion. */
  lemma OthersLogNoDelete(cfg: Config, s: State, step: Step)
    requires !step.DeleteTask?
    ensures var s' := Exec(cfg, s, step);
            s'.log == s.log || (|s'.log| == |s.log| + 1 && s'.log == s.log + [s'.log[|s.log|]] && !s'.log[|s.log|].Deleted?)
  {
    hide UpdateStatus, DoReport;
    if step.Report? {
      ReportAttempts(s, step.id, step.now);
    }
  }

  lemma {:induction false} RunRetained(cfg: Config, steps: seq<Step>)
    requires FreshNames(Run(cfg, steps).log)
    ensures AllRetained(cfg, Run(cfg, steps).log)
  {
    if steps != [] {
      hide Inv, Dated, Life, AllEnded, DoDelete, AllRetained;
      var init, step := steps[..|steps| - 1], steps[|steps| - 1];
      var s := Run(cfg, init);
      FreshPrefix(cfg, steps);
      RunRetained(cfg, init);
      if step.DeleteTask? {
        RunInv(cfg, init);
        RunDated(cfg, init);
        RunLife(cfg, init);
        RunEnds(cfg, init);
        DeleteKeepsRetained(cfg, s, step.j, step.name, step.tLast);
      } else {
        OthersLogNoDelete(cfg, s, step);
        if Exec(cfg, s, step).log != s.log {
          AppendKeepsRetained(cfg, s.log, Exec(cfg, s, step).log[|s.log|]);
        }
      }
    }
  }

  /** Under fresh names no janitor deletes a task before its retention is over, counted from a report
      or an expiry of that task, up to the second that stamps round off. */
  lemma FinishedIsRetained(cfg: Config, steps: seq<Step>, i: nat)
    requires FreshNames(Run(cfg, steps).log) && i < |Run(cfg, steps).log|
    ensures Retained(cfg, Run(cfg, steps).log, i)
  {
    RunRetained(cfg, steps);
  }
}
