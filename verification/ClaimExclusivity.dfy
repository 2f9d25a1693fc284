/** At most one claim per task, over every interleaving, with names freely reused. */
module ClaimExclusivity {
  import opened Types
  import opened Actions
  import opened Tasks
  import opened TaskQueue

  /** A committed version descends from the version its task was created with. */
  ghost predicate VersionOk(s: State, v: nat)
    requires v in s.history
  {
    var h := s.history[v];
    && h.version == v && 0 < h.uid <= v <= s.store.version
    && h.uid in s.history && s.history[h.uid].uid == h.uid && s.history[h.uid].name == h.name && s.history[h.uid].spec == h.spec
    && (h.IsPending() <==> v == h.uid)
    && (h.name in s.store.objects && s.store.objects[h.name].uid == h.uid ==> v <= s.store.objects[h.name].version)
  }

  ghost predicate VersionsOk(s: State) {
    forall v {:trigger VersionOk(s, v)} :: v in s.history ==> VersionOk(s, v)
  }

  ghost predicate StoreOk(s: State) {
    forall n <- s.store.objects :: s.store.objects[n].name == n && Committed(s, s.store.objects[n])
  }

  ghost predicate AttemptHeld(s: State, a: Attempt) {
    && Committed(s, a.obj) && a.obj.IsPending()
    && (a.Claiming? ==> a.at <= s.clock)
    && (a.Reporting? ==> Committed(s, a.reread) && a.reread.name == a.obj.name)
  }

  ghost predicate SweepHeld(s: State, w: Sweep) {
    && (forall n <- w.listed :: w.listed[n].name == n && Committed(s, w.listed[n]))
    && (w.now.Some? ==> w.now.value <= s.clock)
  }

  /** Clients hold nothing but committed object versions. */
  ghost predicate HeldOk(s: State) {
    && (forall id {:trigger AttemptHeld(s, s.attempts[id])} :: id in s.attempts ==> AttemptHeld(s, s.attempts[id]))
    && (forall j {:trigger SweepHeld(s, s.sweeps[j])} :: j in s.sweeps ==> SweepHeld(s, s.sweeps[j]))
  }

  /** The task is known, and if it is still stored it is not Pending. */
  ghost predicate Taken(s: State, uid: nat) {
    && uid in s.history
    && (var n := s.history[uid].name;
        n in s.store.objects && s.store.objects[n].uid == uid ==> !s.store.objects[n].IsPending())
  }

  ghost predicate ClaimsOk(s: State) {
    && (forall i, j :: 0 <= i < j < |s.log| && s.log[i].Claimed? && s.log[j].Claimed? ==> s.log[i].uid != s.log[j].uid)
    && (forall i {:trigger Taken(s, s.log[i].uid)} :: 0 <= i < |s.log| && s.log[i].Claimed? ==> Taken(s, s.log[i].uid))
  }

  ghost predicate Inv(s: State) {
    VersionsOk(s) && StoreOk(s) && HeldOk(s) && ClaimsOk(s)
  }

  /** What optimistic concurrency rests on: however stale a held object is, if its version is
      still the stored one, then it is the stored object. */
  lemma CurrentIsStored(s: State, t: Task, status: Status)
    requires StoreOk(s) && Committed(s, t)
    requires Current(s.store, t.(status := status))
    ensures s.store.objects[t.name] == t
  {
    assert Committed(s, s.store.objects[t.name]);
  }

  lemma UpdateKeepsVersions(s: State, name: string, status: Status, e: Event)
    requires VersionsOk(s) && StoreOk(s) && name in s.store.objects
    requires status.phase.Effective() != Pending
    ensures var t := s.store.objects[name].(version := s.store.version + 1, status := status);
            VersionsOk(Commit(s, t, e)) && StoreOk(Commit(s, t, e))
  {
    var t := s.store.objects[name].(version := s.store.version + 1, status := status);
    var s' := Commit(s, t, e);
    assert VersionOk(s, s.store.objects[name].version);
    assert VersionOk(s, t.uid);
    forall v | v in s'.history ensures VersionOk(s', v) {
      if v != t.version {
        assert VersionOk(s, v);
        assert VersionOk(s, s.history[v].uid);
      }
    }
    forall n | n in s'.store.objects ensures s'.store.objects[n].name == n && Committed(s', s'.store.objects[n]) {
      if n != name {
        assert Committed(s, s.store.objects[n]);
        assert VersionOk(s, s.store.objects[n].version);
      }
    }
  }

  lemma CreateKeepsVersions(s: State, name: string, spec: Spec, e: Event)
    requires VersionsOk(s) && StoreOk(s) && name !in s.store.objects
    ensures var t := Create(s.store, name, s.clock, spec).0.objects[name];
            VersionsOk(Commit(s, t, e)) && StoreOk(Commit(s, t, e))
  {
    var t := Create(s.store, name, s.clock, spec).0.objects[name];
    var s' := Commit(s, t, e);
    forall v | v in s'.history ensures VersionOk(s', v) {
      if v in s.history {
        assert VersionOk(s, v);
        assert VersionOk(s, s.history[v].uid);
      }
    }
    forall n | n in s'.store.objects ensures s'.store.objects[n].name == n && Committed(s', s'.store.objects[n]) {
      if n != name {
        assert Committed(s, s.store.objects[n]);
        assert VersionOk(s, s.store.objects[n].version);
      }
    }
  }

  /** What clients hold stays committed. */
  lemma CommitKeepsHeld(s: State, t: Task, e: Event)
    requires VersionsOk(s) && HeldOk(s) && t.version == s.store.version + 1
    ensures HeldOk(Commit(s, t, e))
  {
    var s' := Commit(s, t, e);
    forall id | id in s'.attempts ensures AttemptHeld(s', s'.attempts[id]) {
      var a := s.attempts[id];
      assert AttemptHeld(s, a);
      assert VersionOk(s, a.obj.version);
      if a.Reporting? {
        assert VersionOk(s, a.reread.version);
      }
    }
    forall j | j in s'.sweeps ensures SweepHeld(s', s'.sweeps[j]) {
      var w := s.sweeps[j];
      assert SweepHeld(s, w);
      forall n | n in w.listed ensures w.listed[n].name == n && Committed(s', w.listed[n]) {
        assert VersionOk(s, w.listed[n].version);
      }
    }
  }

  /** A claim-free commit of a non-Pending version, or of a new task, keeps every task taken. */
  lemma CommitKeepsTaken(s: State, t: Task, e: Event, uid: nat)
    requires VersionsOk(s) && Taken(s, uid) && t.version == s.store.version + 1
    requires !t.IsPending() || t.uid == t.version
    ensures Taken(Commit(s, t, e), uid)
  {
    assert VersionOk(s, uid);
  }

  lemma CommitKeepsInv(s: State, t: Task, e: Event)
    requires Inv(s) && t.version == s.store.version + 1
    requires VersionsOk(Commit(s, t, e)) && StoreOk(Commit(s, t, e))
    requires !t.IsPending() || t.uid == t.version
    requires e.Claimed? ==> e.uid == t.uid && !t.IsPending() && t.uid in s.history && t.name == s.history[t.uid].name
    requires e.Claimed? ==> forall i :: 0 <= i < |s.log| && s.log[i].Claimed? ==> s.log[i].uid != e.uid
    ensures Inv(Commit(s, t, e))
  {
    var s' := Commit(s, t, e);
    CommitKeepsHeld(s, t, e);
    forall i | 0 <= i < |s'.log| && s'.log[i].Claimed? ensures Taken(s', s'.log[i].uid) {
      if i < |s.log| {
        assert Taken(s, s.log[i].uid);
        CommitKeepsTaken(s, t, e, s.log[i].uid);
      } else {
        assert VersionOk(s, t.uid);
      }
    }
  }

  /** Replacing one attempt by another that holds committed versions. */
  lemma AttemptKeepsInv(s: State, id: nat, a: Attempt)
    requires Inv(s) && AttemptHeld(s, a)
    ensures Inv(s.(attempts := s.attempts[id := a]))
  {
    var s' := s.(attempts := s.attempts[id := a]);
    forall v | v in s'.history ensures VersionOk(s', v) {
      assert VersionOk(s, v);
    }
    forall k | k in s'.attempts ensures AttemptHeld(s', s'.attempts[k]) {
      if k != id {
        assert AttemptHeld(s, s.attempts[k]);
      }
    }
    forall j | j in s'.sweeps ensures SweepHeld(s', s'.sweeps[j]) {
      assert SweepHeld(s, s.sweeps[j]);
    }
    forall i | 0 <= i < |s'.log| && s'.log[i].Claimed? ensures Taken(s', s'.log[i].uid) {
      assert Taken(s, s.log[i].uid);
    }
  }

  lemma PublishKeepsInv(s: State, name: string, spec: Spec, origin: string)
    requires Inv(s)
    ensures Inv(DoPublish(s, name, spec, origin))
  {
    if name !in s.store.objects {
      var (store, ok) := Create(s.store, name, s.clock, spec);
      var e := Created(store.version, name, origin, s.clock);
      CreateKeepsVersions(s, name, spec, e);
      CommitKeepsInv(s, store.objects[name], e);
    }
  }

  lemma ClaimKeepsInv(s: State, id: nat, actions: seq<ActionConfig>)
    requires Inv(s)
    ensures Inv(DoClaim(s, id, actions))
  {
    if id in s.attempts && s.attempts[id].Claiming? {
      var a := s.attempts[id];
      assert AttemptHeld(s, a);
      var status := ClaimStatus(a.obj.status, a.worker, a.at);
      if !Current(s.store, a.obj.(status := status)) {
        AttemptKeepsInv(s, id, Lost(a.obj));
      } else if SortedFrom(FromTaskActions(a.obj.spec.actions), actions) {
        CurrentIsStored(s, a.obj, status);
        assert VersionOk(s, a.obj.version);
        var e := Claimed(a.obj.uid, id, a.worker, a.at);
        var t := a.obj.(version := s.store.version + 1, status := status);
        UpdateKeepsVersions(s, a.obj.name, status, e);
        forall i | 0 <= i < |s.log| && s.log[i].Claimed? ensures s.log[i].uid != e.uid {
          assert Taken(s, s.log[i].uid);
        }
        CommitKeepsInv(s, t, e);
        AttemptKeepsInv(Commit(s, t, e), id, Executing(a.obj, actions, []));
      }
    }
  }

  lemma ReportKeepsInv(s: State, id: nat, now: Time)
    requires Inv(s)
    ensures Inv(DoReport(s, id, now))
  {
    if id in s.attempts && s.attempts[id].Reporting? && s.attempts[id].readAt <= now <= s.clock {
      var a := s.attempts[id];
      assert AttemptHeld(s, a);
      var finished := Finished(a.obj, a.actions, a.outcomes);
      var status := OutcomeStatus(a.reread.status, now, SuccessCount(a.outcomes), !AnyFailed(a.outcomes), LastOutcome(a.outcomes));
      AttemptKeepsInv(s, id, finished);
      if Current(s.store, a.reread.(status := status)) {
        CurrentIsStored(s, a.reread, status);
        var done := s.(attempts := s.attempts[id := finished]);
        var e := Reported(a.reread.uid, id, a.reread.status.phase, status.phase, now);
        UpdateKeepsVersions(done, a.reread.name, status, e);
        CommitKeepsInv(done, a.reread.(version := s.store.version + 1, status := status), e);
      }
    }
  }

  lemma ExpireKeepsInv(cfg: Config, s: State, j: nat, name: string, now: Time)
    requires Inv(s)
    ensures Inv(DoExpire(cfg, s, j, name, now))
  {
    if DoExpire(cfg, s, j, name, now) != s {
      assert SweepHeld(s, s.sweeps[j]);
      var t := s.sweeps[j].listed[name];
      var status := ExpiredStatus(t.status, now);
      CurrentIsStored(s, t, status);
      var e := Lapsed(t.uid, t.status.phase, s.sweeps[j].now.value);
      UpdateKeepsVersions(s, name, status, e);
      CommitKeepsInv(s, t.(version := s.store.version + 1, status := status), e);
    }
  }

  /** The steps of one attempt that write nothing to the server. */
  lemma LocalKeepsInv(cfg: Config, s: State, step: Step)
    requires Inv(s)
    requires step.Watch? || step.RunAction? || step.Reread?
    ensures Inv(Exec(cfg, s, step))
  {
    var s' := Exec(cfg, s, step);
    if s' != s {
      var id := step.id;
      if id in s.attempts {
        assert AttemptHeld(s, s.attempts[id]);
      }
      if step.RunAction? {
        var logged := s.(log := s'.log);
        LogKeepsInv(s, s'.log[|s.log|]);
        AttemptKeepsInv(logged, id, s'.attempts[id]);
      } else {
        AttemptKeepsInv(s, id, s'.attempts[id]);
      }
    }
  }

  lemma LogKeepsInv(s: State, e: Event)
    requires Inv(s) && !e.Claimed?
    ensures Inv(s.(log := s.log + [e]))
  {
    var s' := s.(log := s.log + [e]);
    forall v | v in s'.history ensures VersionOk(s', v) {
      assert VersionOk(s, v);
    }
    forall k | k in s'.attempts ensures AttemptHeld(s', s'.attempts[k]) {
      assert AttemptHeld(s, s.attempts[k]);
    }
    forall j | j in s'.sweeps ensures SweepHeld(s', s'.sweeps[j]) {
      assert SweepHeld(s, s.sweeps[j]);
    }
    forall i | 0 <= i < |s'.log| && s'.log[i].Claimed? ensures Taken(s', s'.log[i].uid) {
      assert Taken(s, s.log[i].uid);
    }
  }

  /** Time passes and sweeps change; the objects, the attempts and the log stay. */
  lemma ReadingKeepsInv(s: State, s': State)
    requires Inv(s)
    requires s'.store == s.store && s'.history == s.history && s'.attempts == s.attempts && s'.log == s.log && s'.clock >= s.clock
    requires forall j {:trigger SweepHeld(s', s'.sweeps[j])} :: j in s'.sweeps ==> SweepHeld(s', s'.sweeps[j])
    ensures Inv(s')
  {
    forall v | v in s'.history ensures VersionOk(s', v) {
      assert VersionOk(s, v);
    }
    forall k | k in s'.attempts ensures AttemptHeld(s', s'.attempts[k]) {
      assert AttemptHeld(s, s.attempts[k]);
    }
    forall i | 0 <= i < |s'.log| && s'.log[i].Claimed? ensures Taken(s', s'.log[i].uid) {
      assert Taken(s, s.log[i].uid);
    }
  }

  lemma QuietKeepsSweeps(cfg: Config, s: State, step: Step, j: nat)
    requires StoreOk(s) && (j in s.sweeps ==> SweepHeld(s, s.sweeps[j]))
    requires step.Tick? || step.ListTasks? || step.ReadClock?
    requires j in Exec(cfg, s, step).sweeps
    ensures SweepHeld(Exec(cfg, s, step), Exec(cfg, s, step).sweeps[j])
  {
  }

  /** Time passing, and what a janitor reads. */
  lemma QuietKeepsInv(cfg: Config, s: State, step: Step)
    requires Inv(s)
    requires step.Tick? || step.ListTasks? || step.ReadClock?
    ensures Inv(Exec(cfg, s, step))
  {
    hide VersionsOk, ClaimsOk;
    var s' := Exec(cfg, s, step);
    forall j | j in s'.sweeps ensures SweepHeld(s', s'.sweeps[j]) {
      assert j in s.sweeps ==> SweepHeld(s, s.sweeps[j]);
      QuietKeepsSweeps(cfg, s, step, j);
    }
    ReadingKeepsInv(s, s');
  }

  lemma RemovalKeepsInv(s: State, name: string)
    requires Inv(s)
    ensures Inv(s.(store := Tasks.Delete(s.store, name)))
  {
    var s' := s.(store := Tasks.Delete(s.store, name));
    forall v | v in s'.history ensures VersionOk(s', v) {
      assert VersionOk(s, v);
    }
    forall k | k in s'.attempts ensures AttemptHeld(s', s'.attempts[k]) {
      assert AttemptHeld(s, s.attempts[k]);
    }
    forall j | j in s'.sweeps ensures SweepHeld(s', s'.sweeps[j]) {
      assert SweepHeld(s, s.sweeps[j]);
    }
    forall i | 0 <= i < |s'.log| && s'.log[i].Claimed? ensures Taken(s', s'.log[i].uid) {
      assert Taken(s, s.log[i].uid);
    }
  }

  lemma DeleteKeepsInv(cfg: Config, s: State, j: nat, name: string, tLast: Time)
    requires Inv(s)
    ensures Inv(DoDelete(cfg, s, j, name, tLast))
  {
    if DoDelete(cfg, s, j, name, tLast) != s {
      RemovalKeepsInv(s, name);
      LogKeepsInv(s.(store := Tasks.Delete(s.store, name)),
                  Deleted(s.store.objects[name].uid, s.store.objects[name].status.phase, s.clock));
    }
  }

  lemma ExecKeepsInv(cfg: Config, s: State, step: Step)
    requires Inv(s)
    ensures Inv(Exec(cfg, s, step))
  {
    match step
    case PublishTask(name, spec, origin) => PublishKeepsInv(s, name, spec, origin);
    case Claim(id, actions) => ClaimKeepsInv(s, id, actions);
    case Report(id, now) => ReportKeepsInv(s, id, now);
    case Expire(j, name, now) => ExpireKeepsInv(cfg, s, j, name, now);
    case DeleteTask(j, name, tLast) => DeleteKeepsInv(cfg, s, j, name, tLast);
    case Watch(_, _, _) => LocalKeepsInv(cfg, s, step);
    case RunAction(_, _) => LocalKeepsInv(cfg, s, step);
    case Reread(_) => LocalKeepsInv(cfg, s, step);
    case _ => QuietKeepsInv(cfg, s, step);
  }

  lemma {:induction false} RunInv(cfg: Config, steps: seq<Step>)
    ensures Inv(Run(cfg, steps))
  {
    if steps != [] {
      RunInv(cfg, steps[..|steps| - 1]);
      ExecKeepsInv(cfg, Run(cfg, steps[..|steps| - 1]), steps[|steps| - 1]);
    }
  }

  /** In every run at most one claim is ever committed for a task, whatever the number of workers,
      duplicate watch loops and janitors, however stale the watch events, and even if names are
      reused; so at most one goroutine ever starts its action sequence. */
  lemma AtMostOneClaim(cfg: Config, steps: seq<Step>, i: nat, j: nat)
    requires i < j < |Run(cfg, steps).log|
    requires Run(cfg, steps).log[i].Claimed? && Run(cfg, steps).log[j].Claimed?
    ensures Run(cfg, steps).log[i].uid != Run(cfg, steps).log[j].uid
  {
    RunInv(cfg, steps);
  }

  /** No committed write returns a task to Pending: the one Pending version of a task is the one
      it was created with. */
  lemma PendingOnlyAtBirth(cfg: Config, steps: seq<Step>, t: Task)
    requires Committed(Run(cfg, steps), t)
    ensures t.IsPending() <==> t.version == t.uid
  {
    RunInv(cfg, steps);
    assert VersionOk(Run(cfg, steps), t.version);
  }

  // ---------------------------------------------------------------- who runs actions

  ghost predicate ClaimedBefore(log: seq<Event>, uid: nat, id: nat, n: nat)
    requires n <= |log|
  {
    exists i :: 0 <= i < n && log[i].Claimed? && log[i].uid == uid && log[i].attempt == id
  }

  ghost predicate RunnersClaimed(s: State) {
    && (forall id {:trigger s.attempts[id].Won()} :: id in s.attempts && s.attempts[id].Won() ==>
          ClaimedBefore(s.log, s.attempts[id].obj.uid, id, |s.log|))
    && (forall k {:trigger ClaimedBefore(s.log, s.log[k].uid, s.log[k].attempt, k)} :: 0 <= k < |s.log| && s.log[k].Ran? ==>
          ClaimedBefore(s.log, s.log[k].uid, s.log[k].attempt, k))
  }

  lemma ClaimedBeforeGrows(log: seq<Event>, log': seq<Event>, uid: nat, id: nat, n: nat, m: nat)
    requires log <= log' && n <= |log| && n <= m <= |log'| && ClaimedBefore(log, uid, id, n)
    ensures ClaimedBefore(log', uid, id, m)
  {
    var i :| 0 <= i < n && log[i].Claimed? && log[i].uid == uid && log[i].attempt == id;
    assert log'[i] == log[i];
  }

  /** A report, written or refused, ends its attempt and touches no other. */
  lemma ReportAttempts(s: State, id: nat, now: Time)
    ensures DoReport(s, id, now).clock == s.clock
    ensures var s' := DoReport(s, id, now);
            || s'.log == s.log
            || (|s'.log| == |s.log| + 1 && s'.log == s.log + [s'.log[|s.log|]] && s'.log[|s.log|].Reported?)
    ensures var s' := DoReport(s, id, now);
            || s'.attempts == s.attempts
            || (id in s.attempts && s.attempts[id].Reporting?
                && s'.attempts == s.attempts[id := Finished(s.attempts[id].obj, s.attempts[id].actions, s.attempts[id].outcomes)])
  {
    hide UpdateStatus, OutcomeStatus;
  }

  /** What one step adds to the log. */
  lemma ExecLogs(cfg: Config, s: State, step: Step)
    ensures var s' := Exec(cfg, s, step);
            && s.log <= s'.log && |s'.log| <= |s.log| + 1
            && (|s'.log| > |s.log| && s'.log[|s.log|].Ran? ==>
                  step.RunAction? && step.id in s.attempts && s.attempts[step.id].Won()
                  && s'.log[|s.log|].uid == s.attempts[step.id].obj.uid && s'.log[|s.log|].attempt == step.id)
  {
    hide UpdateStatus, DoReport;
    if step.Report? {
      ReportAttempts(s, step.id, step.now);
    }
  }

  /** An attempt that has won had won before, or this step committed its claim. */
  lemma ClaimWins(s: State, id: nat, actions: seq<ActionConfig>, k: nat)
    requires k in DoClaim(s, id, actions).attempts && DoClaim(s, id, actions).attempts[k].Won()
    ensures var s' := DoClaim(s, id, actions);
            || (k in s.attempts && s.attempts[k].Won() && s.attempts[k].obj == s'.attempts[k].obj)
            || (|s'.log| > |s.log| && s'.log[|s.log|] == Claimed(s'.attempts[k].obj.uid, k, s'.log[|s.log|].worker, s'.log[|s.log|].at))
  {
  }

  lemma OthersWin(cfg: Config, s: State, step: Step, k: nat)
    requires !step.Claim?
    requires k in Exec(cfg, s, step).attempts && Exec(cfg, s, step).attempts[k].Won()
    ensures k in s.attempts && s.attempts[k].Won() && s.attempts[k].obj == Exec(cfg, s, step).attempts[k].obj
  {
    hide UpdateStatus, DoReport;
    if step.Report? {
      ReportAttempts(s, step.id, step.now);
    }
  }

  lemma ExecIsClaim(cfg: Config, s: State, step: Step)
    requires step.Claim?
    ensures Exec(cfg, s, step) == DoClaim(s, step.id, step.actions)
  {
  }

  lemma ExecKeepsRunners(cfg: Config, s: State, step: Step)
    requires RunnersClaimed(s)
    ensures RunnersClaimed(Exec(cfg, s, step))
  {
    hide Exec, DoClaim;
    var s' := Exec(cfg, s, step);
    ExecLogs(cfg, s, step);
    forall id | id in s'.attempts && s'.attempts[id].Won() ensures ClaimedBefore(s'.log, s'.attempts[id].obj.uid, id, |s'.log|) {
      if step.Claim? {
        ExecIsClaim(cfg, s, step);
        ClaimWins(s, step.id, step.actions, id);
      } else {
        OthersWin(cfg, s, step, id);
      }
      if id in s.attempts && s.attempts[id].Won() && s.attempts[id].obj == s'.attempts[id].obj {
        ClaimedBeforeGrows(s.log, s'.log, s.attempts[id].obj.uid, id, |s.log|, |s'.log|);
      }
    }
    forall k | 0 <= k < |s'.log| && s'.log[k].Ran? ensures ClaimedBefore(s'.log, s'.log[k].uid, s'.log[k].attempt, k) {
      if k < |s.log| {
        assert s'.log[k] == s.log[k];
      }
      ClaimedBeforeGrows(s.log, s'.log, s'.log[k].uid, s'.log[k].attempt, k, k);
    }
  }

  lemma {:induction false} RunRunners(cfg: Config, steps: seq<Step>)
    ensures RunnersClaimed(Run(cfg, steps))
  {
    if steps != [] {
      RunRunners(cfg, steps[..|steps| - 1]);
      ExecKeepsRunners(cfg, Run(cfg, steps[..|steps| - 1]), steps[|steps| - 1]);
    }
  }

  /** No executor call is made before the claim of its own attempt, and all calls made for a task
      are made by one attempt. */
  lemma OneRunnerPerTask(cfg: Config, steps: seq<Step>, k: nat, l: nat)
    requires k < |Run(cfg, steps).log| && l < |Run(cfg, steps).log|
    requires Run(cfg, steps).log[k].Ran? && Run(cfg, steps).log[l].Ran?
    requires Run(cfg, steps).log[k].uid == Run(cfg, steps).log[l].uid
    ensures ClaimedBefore(Run(cfg, steps).log, Run(cfg, steps).log[k].uid, Run(cfg, steps).log[k].attempt, k)
    ensures Run(cfg, steps).log[k].attempt == Run(cfg, steps).log[l].attempt
  {
    hide Run, VersionsOk, StoreOk, HeldOk;
    RunInv(cfg, steps);
    RunRunners(cfg, steps);
    var log := Run(cfg, steps).log;
    assert ClaimedBefore(log, log[k].uid, log[k].attempt, k);
    assert ClaimedBefore(log, log[l].uid, log[l].attempt, l);
  }
}
