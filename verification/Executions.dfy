/** What is executed for a task, at every moment of every run and with names freely reused: one
    goroutine runs one sorted action list, each action at most once, up to the first failure. */
module Executions {
  import opened Types
  import opened Actions
  import opened Tasks
  import opened TaskQueue
  import opened ClaimExclusivity
  import opened TaskLifecycle
  import opened NameReuse

  /** Whoever has won a claim has made exactly the calls on record for its task. */
  ghost predicate WinnersRecorded(s: State) {
    forall id {:trigger s.attempts[id].Won()} :: id in s.attempts && s.attempts[id].Won() ==>
      Executed(s.log, s.attempts[id].obj, id, s.attempts[id].actions, s.attempts[id].outcomes)
  }

  ghost predicate IsClaimed(log: Log, uid: nat) {
    exists i :: 0 <= i < |log| && log[i].Claimed? && log[i].uid == uid
  }

  /** Calls are on record only for tasks somebody has claimed. */
  lemma CallsNeedClaim(s: State, uid: nat)
    requires RunnersClaimed(s) && RunsOf(s.log, uid) != []
    ensures IsClaimed(s.log, uid)
  {
    var r := RunsOf(s.log, uid);
    var k :| 0 <= k < |s.log| && s.log[k] == Ran(uid, r[0].attempt, r[0].action, r[0].outcome);
    assert ClaimedBefore(s.log, s.log[k].uid, s.log[k].attempt, k);
  }

  /** A claim step that commits starts the attempt and touches no other winner. */
  lemma ClaimShape(s: State, id: nat, actions: seq<ActionConfig>, k: nat)
    requires k in DoClaim(s, id, actions).attempts && DoClaim(s, id, actions).attempts[k].Won()
    ensures var s' := DoClaim(s, id, actions);
            var a' := s'.attempts[k];
            || (k in s.attempts && a' == s.attempts[k]
                && (s'.log == s.log || (|s'.log| == |s.log| + 1 && s'.log == s.log + [s'.log[|s.log|]] && s'.log[|s.log|].Claimed?)))
            || (k == id && |s'.log| == |s.log| + 1 && s'.log == s.log + [s'.log[|s.log|]]
                && s'.log[|s.log|].Claimed? && s'.log[|s.log|].uid == a'.obj.uid && s'.log[|s.log|].attempt == k
                && a' == Executing(a'.obj, actions, []) && SortedFrom(FromTaskActions(a'.obj.spec.actions), actions))
  {
  }

  /** A fresh claim finds no call on record. */
  lemma ClaimStartsRecord(s: State, e: Event, t: Task, actions: seq<ActionConfig>)
    requires RunnersClaimed(s) && e.Claimed? && e.uid == t.uid && SortedFrom(FromTaskActions(t.spec.actions), actions)
    requires forall i :: 0 <= i < |s.log| && s.log[i].Claimed? ==> s.log[i].uid != e.uid
    ensures Executed(s.log + [e], t, e.attempt, actions, [])
  {
    assert !IsClaimed(s.log, e.uid);
    if RunsOf(s.log, e.uid) != [] {
      CallsNeedClaim(s, e.uid);
    }
    RunsOfAppend(s.log, e, e.uid);
    assert (s.log + [e])[|s.log|] == e;
  }

  lemma ClaimKeepsRecorded(s: State, id: nat, actions: seq<ActionConfig>)
    requires WinnersRecorded(s) && RunnersClaimed(s) && ClaimsOk(DoClaim(s, id, actions))
    ensures WinnersRecorded(DoClaim(s, id, actions))
  {
    var s' := DoClaim(s, id, actions);
    forall k | k in s'.attempts && s'.attempts[k].Won()
      ensures Executed(s'.log, s'.attempts[k].obj, k, s'.attempts[k].actions, s'.attempts[k].outcomes)
    {
      ClaimShape(s, id, actions, k);
      var a' := s'.attempts[k];
      if k in s.attempts && a' == s.attempts[k] {
        if s'.log != s.log {
          AppendKeepsExecuted(s.log, s'.log[|s.log|], a'.obj, k, a'.actions, a'.outcomes);
        }
      } else {
        var e := s'.log[|s.log|];
        forall i | 0 <= i < |s.log| && s.log[i].Claimed? ensures s.log[i].uid != e.uid {
          assert s'.log[i] == s.log[i];
        }
        ClaimStartsRecord(s, e, a'.obj, actions);
      }
    }
  }

  lemma RunKeepsRecorded(s: State, id: nat, outcome: Outcome)
    requires WinnersRecorded(s) && ClaimsOk(s)
    ensures WinnersRecorded(DoRun(s, id, outcome))
  {
    var s' := DoRun(s, id, outcome);
    if s' != s {
      var a := s.attempts[id];
      assert a.Won();
      var e := Ran(a.obj.uid, id, a.actions[|a.outcomes|], outcome);
      forall k | k in s'.attempts && s'.attempts[k].Won()
        ensures Executed(s'.log, s'.attempts[k].obj, k, s'.attempts[k].actions, s'.attempts[k].outcomes)
      {
        if k == id {
          AppendKeepsClaim(s.log, e, a.obj.uid, id);
          RecordGrows(s.log, a.obj.uid, id, a.actions, a.outcomes, outcome);
          assert !AnyFailed(a.outcomes);
        } else {
          assert s.attempts[k].Won();
          if s.attempts[k].obj.uid == a.obj.uid {
            SameTaskSameClaimer(s, a.obj.uid, id, k);
          }
          AppendKeepsExecuted(s.log, e, s.attempts[k].obj, k, s.attempts[k].actions, s.attempts[k].outcomes);
        }
      }
    }
  }

  /** No other step changes what an attempt has run or logs a call. */
  lemma OthersKeepRecorded(cfg: Config, s: State, step: Step)
    requires WinnersRecorded(s) && !step.Claim? && !step.RunAction?
    ensures WinnersRecorded(Exec(cfg, s, step))
  {
    var s' := Exec(cfg, s, step);
    assert s'.log == s.log || (|s'.log| == |s.log| + 1 && s'.log == s.log + [s'.log[|s.log|]] && !s'.log[|s.log|].Ran?);
    forall k | k in s'.attempts && s'.attempts[k].Won()
      ensures Executed(s'.log, s'.attempts[k].obj, k, s'.attempts[k].actions, s'.attempts[k].outcomes)
    {
      OthersKeepRecord(cfg, s, step, k);
      if s'.log != s.log {
        AppendKeepsExecuted(s.log, s'.log[|s.log|], s.attempts[k].obj, k, s.attempts[k].actions, s.attempts[k].outcomes);
      }
    }
  }

  predicate SameRecord(a: Attempt, a': Attempt) {
    && a.Won() && a'.Won()
    && a.obj == a'.obj && a.actions == a'.actions && a.outcomes == a'.outcomes
  }

  lemma OthersKeepRecord(cfg: Config, s: State, step: Step, k: nat)
    requires !step.Claim? && !step.RunAction?
    requires k in Exec(cfg, s, step).attempts && Exec(cfg, s, step).attempts[k].Won()
    ensures k in s.attempts && SameRecord(s.attempts[k], Exec(cfg, s, step).attempts[k])
  {
    hide UpdateStatus, DoReport;
    if step.Report? {
      ReportAttempts(s, step.id, step.now);
    }
  }

  lemma {:induction false} RunRecorded(cfg: Config, steps: seq<Step>)
    ensures WinnersRecorded(Run(cfg, steps))
  {
    if steps != [] {
      var init, step := steps[..|steps| - 1], steps[|steps| - 1];
      var s := Run(cfg, init);
      RunRecorded(cfg, init);
      RunOwners(cfg, init);
      RunRunners(cfg, init);
      RunInv(cfg, init);
      RunInv(cfg, steps);
      if step.Claim? {
        ClaimKeepsRecorded(s, step.id, step.actions);
      } else if step.RunAction? {
        RunKeepsRecorded(s, step.id, step.outcome);
      } else {
        OthersKeepRecorded(cfg, s, step);
      }
    }
  }

  // ---------------------------------------------------------------- theorems

  /** The calls are, one by one, the actions of a prefix of the list, made by one attempt, and none
      but the last returned an error or the status "failed". */
  ghost predicate RunsPrefix(r: seq<Call>, actions: seq<ActionConfig>) {
    && |r| <= |actions|
    && (forall k :: 0 <= k < |r| ==> r[k].action == actions[k] && r[k].attempt == r[0].attempt)
    && (forall k :: 0 <= k < |r| - 1 ==> r[k].outcome.err == None && r[k].outcome.status != ActionFailed)
  }

  ghost predicate RunsAlong(r: seq<Call>, source: seq<ActionConfig>) {
    exists actions :: SortedFrom(source, actions) && RunsPrefix(r, actions)
  }

  /** The attempt that made a committed claim, and its record. */
  lemma ClaimerOf(cfg: Config, steps: seq<Step>, i: nat) returns (a: Attempt)
    requires i < |Run(cfg, steps).log| && Run(cfg, steps).log[i].Claimed?
    ensures var s := Run(cfg, steps);
            && a.Won() && a.obj.uid == s.log[i].uid && Committed(s, a.obj)
            && Executed(s.log, a.obj, s.log[i].attempt, a.actions, a.outcomes)
  {
    var s := Run(cfg, steps);
    RunRecorded(cfg, steps);
    RunOwners(cfg, steps);
    RunInv(cfg, steps);
    a := s.attempts[s.log[i].attempt];
    assert a.Won() && AttemptHeld(s, a);
  }

  /** Whatever the phase of a task and whoever reports on it: what was ever executed for it is a
      prefix of one order-sorted permutation of its action list, run once, by one attempt, up to the
      first failure. */
  lemma RunsOnceInOrder(cfg: Config, steps: seq<Step>, t: Task)
    requires Committed(Run(cfg, steps), t)
    ensures RunsAlong(RunsOf(Run(cfg, steps).log, t.uid), FromTaskActions(t.spec.actions))
  {
    var s := Run(cfg, steps);
    RunInv(cfg, steps);
    RunRunners(cfg, steps);
    var r := RunsOf(s.log, t.uid);
    if r == [] {
      SortByOrderSorts(FromTaskActions(t.spec.actions));
      assert RunsPrefix(r, SortByOrder(FromTaskActions(t.spec.actions)));
    } else {
      CallsNeedClaim(s, t.uid);
      var i :| 0 <= i < |s.log| && s.log[i].Claimed? && s.log[i].uid == t.uid;
      var a := ClaimerOf(cfg, steps, i);
      assert VersionOk(s, a.obj.version) && VersionOk(s, t.version);
      assert RunsPrefix(r, a.actions);
    }
  }

  /** For a published task that list is the detection's: what runs is a prefix of an order-sorted
      permutation of the recommended actions, printed. */
  lemma RecommendedRunInOrder(cfg: Config, steps: seq<Step>, t: Task, render: Json -> string,
                              recommended: seq<ActionConfig>, sorted: seq<ActionConfig>)
    requires Committed(Run(cfg, steps), t)
    requires SortedFrom(recommended, sorted) && t.spec.actions == ToTaskActions(render, sorted)
    ensures RunsAlong(RunsOf(Run(cfg, steps).log, t.uid), PrintedAll(render, recommended))
  {
    RunsOnceInOrder(cfg, steps, t);
    var r := RunsOf(Run(cfg, steps).log, t.uid);
    var actions :| SortedFrom(FromTaskActions(t.spec.actions), actions) && RunsPrefix(r, actions);
    WorkerRunsRecommended(render, recommended, sorted, actions);
  }

  // ---------------------------------------------------------------- call after call

  lemma {:induction false} RunsOfPrefix(log: Log, uid: nat, n: nat)
    requires n <= |log|
    ensures RunsOf(log[..n], uid) <= RunsOf(log, uid)
    decreases |log|
  {
    if n == |log| {
      assert log[..n] == log;
    } else {
      var init := log[..|log| - 1];
      RunsOfPrefix(init, uid, n);
      assert init[..n] == log[..n];
    }
  }

  /** Where the call at position k of the log is among the calls for its task. */
  lemma CallAt(log: Log, k: nat) returns (p: nat)
    requires k < |log| && log[k].Ran?
    ensures p == |RunsOf(log[..k], log[k].uid)| && p + 1 == |RunsOf(log[..k + 1], log[k].uid)|
    ensures p < |RunsOf(log, log[k].uid)| && RunsOf(log, log[k].uid)[p] == Call(log[k].attempt, log[k].action, log[k].outcome)
  {
    p := |RunsOf(log[..k], log[k].uid)|;
    assert log[..k + 1] == log[..k] + [log[k]];
    RunsOfAppend(log[..k], log[k], log[k].uid);
    RunsOfPrefix(log, log[k].uid, k + 1);
  }

  lemma SameAttemptSameTask(cfg: Config, steps: seq<Step>, k: nat, l: nat)
    requires var log := Run(cfg, steps).log;
             k < |log| && l < |log| && log[k].Ran? && log[l].Ran? && log[k].attempt == log[l].attempt
    ensures Run(cfg, steps).log[k].uid == Run(cfg, steps).log[l].uid
  {
    RunRunners(cfg, steps);
    RunOwners(cfg, steps);
    var log := Run(cfg, steps).log;
    assert ClaimedBefore(log, log[k].uid, log[k].attempt, k) && ClaimedBefore(log, log[l].uid, log[l].attempt, l);
  }

  /** The task a call was made for. */
  lemma TaskOfCall(cfg: Config, steps: seq<Step>, k: nat) returns (t: Task)
    requires k < |Run(cfg, steps).log| && Run(cfg, steps).log[k].Ran?
    ensures Committed(Run(cfg, steps), t) && t.uid == Run(cfg, steps).log[k].uid
  {
    hide Inv, Executed;
    RunRunners(cfg, steps);
    var log := Run(cfg, steps).log;
    assert ClaimedBefore(log, log[k].uid, log[k].attempt, k);
    var i :| 0 <= i < k && log[i].Claimed? && log[i].uid == log[k].uid;
    var a := ClaimerOf(cfg, steps, i);
    t := a.obj;
  }

  /** Of two calls for one task the earlier is not the last. */
  lemma EarlierCall(log: Log, k: nat, l: nat) returns (p: nat)
    requires k < l < |log| && log[k].Ran? && log[l].Ran? && log[k].uid == log[l].uid
    ensures p < |RunsOf(log, log[k].uid)| - 1
    ensures RunsOf(log, log[k].uid)[p] == Call(log[k].attempt, log[k].action, log[k].outcome)
  {
    hide RunsOf;
    p := CallAt(log, k);
    var q := CallAt(log, l);
    RunsOfPrefix(log[..l], log[k].uid, k + 1);
    assert log[..l][..k + 1] == log[..k + 1];
  }

  /** An executor call that is followed by another call of its attempt, or for its task, returned no
      error and did not have the status "failed". */
  lemma OnlySuccessGoesOn(cfg: Config, steps: seq<Step>, k: nat, l: nat)
    requires k < l < |Run(cfg, steps).log|
    requires var log := Run(cfg, steps).log;
             log[k].Ran? && log[l].Ran? && (log[k].attempt == log[l].attempt || log[k].uid == log[l].uid)
    ensures Run(cfg, steps).log[k].outcome.err == None && Run(cfg, steps).log[k].outcome.status != ActionFailed
  {
    hide Run, RunsOf, FromTaskActions, SortedFrom;
    if Run(cfg, steps).log[k].attempt == Run(cfg, steps).log[l].attempt {
      SameAttemptSameTask(cfg, steps, k, l);
    }
    var t := TaskOfCall(cfg, steps, k);
    RunsOnceInOrder(cfg, steps, t);
    var p := EarlierCall(Run(cfg, steps).log, k, l);
  }
}
