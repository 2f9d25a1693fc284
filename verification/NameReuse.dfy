/** What is left of the task lifecycle when a task name is used a second time. Claims stay
    exclusive, but the worker's report and the janitor's delete address a task by name alone, so
    they can hit a later task of the same name. */
module NameReuse {
  import opened Types
  import opened Actions
  import opened Tasks
  import opened TaskQueue
  import opened ClaimExclusivity
  import opened TaskLifecycle

  ghost predicate OwnersOk(s: State) {
    && (forall i :: 0 <= i < |s.log| && s.log[i].Claimed? ==>
          s.log[i].attempt in s.attempts && s.attempts[s.log[i].attempt].Won()
          && s.attempts[s.log[i].attempt].obj.uid == s.log[i].uid)
    && (forall id {:trigger HasClaim(s.log, s.attempts[id].obj.uid, id)} ::
          id in s.attempts && s.attempts[id].Won() ==> HasClaim(s.log, s.attempts[id].obj.uid, id))
  }

  /** No version of a task after a terminal one is anything but terminal. */
  ghost predicate TerminalStays(s: State, v: nat)
    requires v in s.history
  {
    var h := s.history[v];
    h.status.phase.Terminal() && h.name in s.store.objects && s.store.objects[h.name].uid == h.uid
    ==> s.store.objects[h.name].status.phase.Terminal()
  }

  ghost predicate TerminalOk(s: State) {
    forall v {:trigger TerminalStays(s, v)} :: v in s.history ==> TerminalStays(s, v)
  }

  lemma ClaimKeepsOwners(s: State, id: nat, actions: seq<ActionConfig>)
    requires OwnersOk(s)
    ensures OwnersOk(DoClaim(s, id, actions))
  {
    var s' := DoClaim(s, id, actions);
    forall k | k in s'.attempts && s'.attempts[k].Won() ensures HasClaim(s'.log, s'.attempts[k].obj.uid, k) {
      if k == id && s'.log != s.log {
        assert s'.log[|s.log|].Claimed?;
      } else {
        assert HasClaim(s.log, s.attempts[k].obj.uid, k);
        if s'.log != s.log {
          AppendKeepsClaim(s.log, s'.log[|s.log|], s.attempts[k].obj.uid, k);
        }
      }
    }
  }

  /** No other step logs a claim, */
  lemma OthersLogNoClaim(cfg: Config, s: State, step: Step)
    requires !step.Claim?
    ensures var s' := Exec(cfg, s, step);
            s'.log == s.log || (|s'.log| == |s.log| + 1 && s'.log == s.log + [s'.log[|s.log|]] && !s'.log[|s.log|].Claimed?)
  {
    hide UpdateStatus, OutcomeStatus;
  }

  /** or unmakes a winner, or changes what it won. */
  lemma WinnersStay(cfg: Config, s: State, step: Step, k: nat)
    requires !step.Claim? && k in s.attempts && s.attempts[k].Won()
    ensures var s' := Exec(cfg, s, step);
            k in s'.attempts && s'.attempts[k].Won() && s'.attempts[k].obj == s.attempts[k].obj
  {
    hide UpdateStatus, DoReport;
    if step.Report? {
      ReportAttempts(s, step.id, step.now);
    }
  }

  lemma OthersKeepOwners(cfg: Config, s: State, step: Step)
    requires OwnersOk(s) && !step.Claim?
    ensures OwnersOk(Exec(cfg, s, step))
  {
    hide Exec;
    var s' := Exec(cfg, s, step);
    OthersLogNoClaim(cfg, s, step);
    forall i | 0 <= i < |s'.log| && s'.log[i].Claimed?
      ensures s'.log[i].attempt in s'.attempts && s'.attempts[s'.log[i].attempt].Won()
              && s'.attempts[s'.log[i].attempt].obj.uid == s'.log[i].uid
    {
      assert s'.log[i] == s.log[i];
      WinnersStay(cfg, s, step, s.log[i].attempt);
    }
    forall id | id in s'.attempts && s'.attempts[id].Won() ensures HasClaim(s'.log, s'.attempts[id].obj.uid, id) {
      OthersWin(cfg, s, step, id);
      assert HasClaim(s.log, s.attempts[id].obj.uid, id);
      if s'.log != s.log {
        AppendKeepsClaim(s.log, s'.log[|s.log|], s.attempts[id].obj.uid, id);
      }
    }
  }

  lemma ExecKeepsOwners(cfg: Config, s: State, step: Step)
    requires OwnersOk(s)
    ensures OwnersOk(Exec(cfg, s, step))
  {
    if step.Claim? {
      ClaimKeepsOwners(s, step.id, step.actions);
    } else {
      OthersKeepOwners(cfg, s, step);
    }
  }

  lemma CommitKeepsTerminal(s: State, t: Task, e: Event, attempts: map<nat, Attempt>)
    requires VersionsOk(s) && TerminalOk(s) && t.version == s.store.version + 1
    requires t.uid == t.version
             || (t.name in s.store.objects && s.store.objects[t.name].uid == t.uid
                 && (s.store.objects[t.name].status.phase.Terminal() ==> t.status.phase.Terminal()))
    ensures TerminalOk(Commit(s, t, e).(attempts := attempts))
  {
    var s' := Commit(s, t, e).(attempts := attempts);
    forall v | v in s'.history ensures TerminalStays(s', v) {
      if v in s.history {
        assert TerminalStays(s, v) && VersionOk(s, v);
      }
    }
  }

  /** The claim, the one write that does not end in a terminal phase, starts from Pending. */
  lemma ClaimKeepsTerminal(s: State, id: nat, actions: seq<ActionConfig>)
    requires Inv(s) && TerminalOk(s)
    ensures TerminalOk(DoClaim(s, id, actions))
  {
    var s' := DoClaim(s, id, actions);
    if s'.store == s.store {
      forall v | v in s'.history ensures TerminalStays(s', v) {
        assert TerminalStays(s, v);
      }
    } else {
      var a := s.attempts[id];
      assert AttemptHeld(s, a);
      var status := ClaimStatus(a.obj.status, a.worker, a.at);
      CurrentIsStored(s, a.obj, status);
      CommitKeepsTerminal(s, a.obj.(version := s.store.version + 1, status := status),
                          Claimed(a.obj.uid, id, a.worker, a.at), s'.attempts);
    }
  }

  /** Any other write ends in a terminal phase, or creates a task. */
  lemma WriteShape(cfg: Config, s: State, step: Step) returns (t: Task, e: Event)
    requires Inv(s) && !step.Claim?
    requires Exec(cfg, s, step).store.version != s.store.version
    ensures t.version == s.store.version + 1
    ensures t.uid == t.version
            || (t.status.phase.Terminal() && t.name in s.store.objects && s.store.objects[t.name].uid == t.uid)
    ensures var s' := Exec(cfg, s, step); s' == Commit(s, t, e).(attempts := s'.attempts)
  {
    hide VersionsOk, ClaimsOk;
    t, e := WriteIsCommit(cfg, s, step);
    assert Exec(cfg, s, step).history[t.version] == t;
    if step.Report? {
      assert AttemptHeld(s, s.attempts[step.id]);
    } else if step.Expire? {
      assert SweepHeld(s, s.sweeps[step.j]);
    }
  }

  /** The steps that write no version can only take objects out of the store. */
  lemma OthersKeepObjects(cfg: Config, s: State, step: Step)
    requires Exec(cfg, s, step).store.version == s.store.version
    ensures var objects := Exec(cfg, s, step).store.objects;
            forall n <- objects :: n in s.store.objects && objects[n] == s.store.objects[n]
  {
    hide OutcomeStatus, ClaimStatus, ExpiredStatus;
  }

  lemma ExecKeepsTerminal(cfg: Config, s: State, step: Step)
    requires Inv(s) && TerminalOk(s)
    ensures TerminalOk(Exec(cfg, s, step))
  {
    var s' := Exec(cfg, s, step);
    if step.Claim? {
      ClaimKeepsTerminal(s, step.id, step.actions);
    } else {
      OthersKeepTerminal(cfg, s, step);
    }
  }

  lemma OthersKeepTerminal(cfg: Config, s: State, step: Step)
    requires Inv(s) && TerminalOk(s) && !step.Claim?
    ensures TerminalOk(Exec(cfg, s, step))
  {
    hide Exec;
    var s' := Exec(cfg, s, step);
    if s'.store.version == s.store.version {
      OthersKeepHistory(cfg, s, step);
      OthersKeepObjects(cfg, s, step);
      forall v | v in s'.history ensures TerminalStays(s', v) {
        assert TerminalStays(s, v);
      }
    } else {
      var t, e := WriteShape(cfg, s, step);
      CommitKeepsTerminal(s, t, e, s'.attempts);
    }
  }

  lemma {:induction false} RunOwners(cfg: Config, steps: seq<Step>)
    ensures OwnersOk(Run(cfg, steps)) && TerminalOk(Run(cfg, steps))
  {
    if steps != [] {
      var init, step := steps[..|steps| - 1], steps[|steps| - 1];
      RunOwners(cfg, init);
      RunInv(cfg, init);
      ExecKeepsOwners(cfg, Run(cfg, init), step);
      ExecKeepsTerminal(cfg, Run(cfg, init), step);
    }
  }

  /** Exactly when a report lands on the task its attempt claimed: when the object re-read by name
      has the uid of the object the attempt was started with. Nothing checks this. */
  lemma ReportHitsOwnTaskIff(cfg: Config, steps: seq<Step>, id: nat, now: Time, e: Event)
    requires var s := Run(cfg, steps); Exec(cfg, s, Report(id, now)).log == s.log + [e]
    ensures e.Reported? && e.attempt == id
    ensures var s := Run(cfg, steps);
            HasClaim(s.log, e.uid, id) <==> s.attempts[id].reread.uid == s.attempts[id].obj.uid
  {
    RunInv(cfg, steps);
    RunOwners(cfg, steps);
    var s := Run(cfg, steps);
    assert |s.log + [e]| == |s.log| + 1;
    var a := s.attempts[id];
    assert AttemptHeld(s, a);
    var status := OutcomeStatus(a.reread.status, now, SuccessCount(a.outcomes), !AnyFailed(a.outcomes), LastOutcome(a.outcomes));
    CurrentIsStored(s, a.reread, status);
    assert (s.log + [e])[|s.log|] == e == Exec(cfg, s, Report(id, now)).log[|s.log|];
    assert e.uid == a.reread.uid;
    assert HasClaim(s.log, a.obj.uid, id);
  }

  /** Exactly when a report overwrites an expiry: when the object as re-read was Expired, which is
      what the code does not check between the read and the write. */
  lemma ReportOverwritesExpiredIff(cfg: Config, steps: seq<Step>, id: nat, now: Time, e: Event)
    requires var s := Run(cfg, steps); Exec(cfg, s, Report(id, now)).log == s.log + [e]
    ensures e.Reported? && e.attempt == id
    ensures var s := Run(cfg, steps);
            (e.prior == Expired <==> s.attempts[id].reread.status.phase == Expired) && e.prior == s.attempts[id].reread.status.phase
  {
    RunInv(cfg, steps);
    var s := Run(cfg, steps);
    assert |s.log + [e]| == |s.log| + 1;
    var a := s.attempts[id];
    assert AttemptHeld(s, a);
    var status := OutcomeStatus(a.reread.status, now, SuccessCount(a.outcomes), !AnyFailed(a.outcomes), LastOutcome(a.outcomes));
    CurrentIsStored(s, a.reread, status);
    assert (s.log + [e])[|s.log|] == e == Exec(cfg, s, Report(id, now)).log[|s.log|];
  }

  /** A delete that hits the very task the janitor listed hits a terminal task, reuse or not. */
  lemma DeleteOfListedIsTerminal(cfg: Config, steps: seq<Step>, j: nat, name: string, tLast: Time, e: Event)
    requires var s := Run(cfg, steps);
             Exec(cfg, s, DeleteTask(j, name, tLast)).log == s.log + [e] && e.uid == s.sweeps[j].listed[name].uid
    ensures e.Deleted? && e.prior.Terminal()
  {
    RunInv(cfg, steps);
    RunOwners(cfg, steps);
    var s := Run(cfg, steps);
    assert |s.log + [e]| == |s.log| + 1;
    assert SweepHeld(s, s.sweeps[j]);
    assert (s.log + [e])[|s.log|] == e == Exec(cfg, s, DeleteTask(j, name, tLast)).log[|s.log|];
    assert TerminalStays(s, s.sweeps[j].listed[name].version);
  }
}
