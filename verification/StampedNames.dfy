/** Why task names are not reused in practice. A name ends in the millisecond of its publication, and
    a task is only deleted after it has been retained for a while. If that while is longer than what
    stamps round off and a create call takes, every run has fresh names. */
module StampedNames {
  import opened Types
  import opened Actions
  import opened Tasks
  import opened TaskQueue
  import opened ClaimExclusivity
  import opened TaskLifecycle
  import opened Naming

  // ---------------------------------------------------------------- dates

  /** A version is dated by whole seconds, from its creation to now. */
  ghost predicate VersionDated(history: History, clock: Time, v: nat)
    requires v in history
  {
    var h := history[v];
    && h.created % SECOND == 0
    && h.created <= TerminalInstant(h) <= clock
    && h.uid in history && history[h.uid].created == h.created
  }

  ghost predicate CreationDated(history: History, clock: Time, e: Event) {
    e.Created? ==>
      && e.at <= clock && e.uid in history
      && history[e.uid].name == e.name && history[e.uid].created == e.at / SECOND * SECOND
  }

  predicate AttemptDated(a: Attempt) {
    a.Reporting? ==> a.reread.created <= a.readAt
  }

  predicate SweepDated(clock: Time, w: Sweep) {
    forall n <- w.listed :: w.listed[n].created <= if w.now.Some? then w.now.value else clock
  }

  ghost predicate Dated(s: State) {
    && (forall v {:trigger VersionDated(s.history, s.clock, v)} :: v in s.history ==> VersionDated(s.history, s.clock, v))
    && (forall i {:trigger CreationDated(s.history, s.clock, s.log[i])} :: 0 <= i < |s.log| ==> CreationDated(s.history, s.clock, s.log[i]))
    && (forall id {:trigger AttemptDated(s.attempts[id])} :: id in s.attempts ==> AttemptDated(s.attempts[id]))
    && (forall j {:trigger SweepDated(s.clock, s.sweeps[j])} :: j in s.sweeps ==> SweepDated(s.clock, s.sweeps[j]))
  }

  /** Writing the time of completion keeps a version dated. */
  lemma CompletionDated(t: Task, now: Time, clock: Time)
    requires t.created % SECOND == 0 && t.created <= now <= clock && t.status.completedAt == ToStamp(now)
    ensures t.created <= TerminalInstant(t) <= clock
  {
    var n := t.created / SECOND;
    assert t.created == n * SECOND && n <= now / SECOND;
  }

  lemma CommitKeepsDated(s: State, t: Task, e: Event)
    requires VersionsOk(s) && Dated(s) && t.version == s.store.version + 1
    requires t.created % SECOND == 0 && t.created <= TerminalInstant(t) <= s.clock
    requires t.uid == t.version || (t.uid in s.history && s.history[t.uid].created == t.created)
    requires e.Created? ==> e.at == s.clock && e.uid == t.uid == t.version && e.name == t.name && t.created == e.at / SECOND * SECOND
    ensures Dated(Commit(s, t, e))
  {
    var s' := Commit(s, t, e);
    forall v | v in s'.history ensures VersionDated(s'.history, s'.clock, v) {
      if v in s.history {
        assert VersionOk(s, v) && VersionDated(s.history, s.clock, v);
        assert VersionOk(s, s.history[v].uid);
      } else if t.uid != t.version {
        assert VersionOk(s, t.uid);
      }
    }
    forall i | 0 <= i < |s'.log| ensures CreationDated(s'.history, s'.clock, s'.log[i]) {
      if i < |s.log| {
        assert CreationDated(s.history, s.clock, s.log[i]);
        if s.log[i].Created? {
          assert VersionOk(s, s.log[i].uid);
        }
      }
    }
    assert forall id :: id in s'.attempts ==> AttemptDated(s.attempts[id]);
    assert forall j :: j in s'.sweeps ==> SweepDated(s.clock, s.sweeps[j]);
  }

  lemma PublishKeepsDated(s: State, name: string, spec: Spec, origin: string)
    requires Inv(s) && Dated(s)
    ensures Dated(DoPublish(s, name, spec, origin))
  {
    if name !in s.store.objects {
      var (store, ok) := Create(s.store, name, s.clock, spec);
      CommitKeepsDated(s, store.objects[name], Created(store.version, name, origin, s.clock));
    }
  }

  /** Replacing one attempt. */
  lemma AttemptKeepsDated(s: State, id: nat, a: Attempt)
    requires Dated(s) && AttemptDated(a)
    ensures Dated(s.(attempts := s.attempts[id := a]))
  {
    var s' := s.(attempts := s.attempts[id := a]);
    assert forall v :: v in s'.history ==> VersionDated(s.history, s.clock, v);
    assert forall i :: 0 <= i < |s'.log| ==> CreationDated(s.history, s.clock, s.log[i]);
    assert forall k :: k in s'.attempts && k != id ==> AttemptDated(s.attempts[k]);
    assert forall j :: j in s'.sweeps ==> SweepDated(s.clock, s.sweeps[j]);
  }

  lemma ClaimKeepsDated(s: State, id: nat, actions: seq<ActionConfig>)
    requires Inv(s) && Dated(s)
    ensures Dated(DoClaim(s, id, actions))
  {
    if DoClaim(s, id, actions) != s {
      var a := s.attempts[id];
      assert AttemptHeld(s, a);
      var status := ClaimStatus(a.obj.status, a.worker, a.at);
      if Current(s.store, a.obj.(status := status)) {
        CurrentIsStored(s, a.obj, status);
        assert VersionDated(s.history, s.clock, a.obj.version);
        var t := a.obj.(version := s.store.version + 1, status := status);
        CommitKeepsDated(s, t, Claimed(a.obj.uid, id, a.worker, a.at));
        AttemptKeepsDated(Commit(s, t, Claimed(a.obj.uid, id, a.worker, a.at)), id, Executing(a.obj, actions, []));
      } else {
        AttemptKeepsDated(s, id, Lost(a.obj));
      }
    }
  }

  lemma RereadKeepsDated(s: State, id: nat)
    requires Inv(s) && Dated(s)
    ensures Dated(DoReread(s, id))
  {
    if DoReread(s, id) != s {
      var a' := DoReread(s, id).attempts[id];
      if a'.Reporting? {
        assert Committed(s, a'.reread) && VersionDated(s.history, s.clock, a'.reread.version);
      }
      AttemptKeepsDated(s, id, a');
    }
  }

  lemma ReportKeepsDated(s: State, id: nat, now: Time)
    requires Inv(s) && Dated(s)
    ensures Dated(DoReport(s, id, now))
  {
    if DoReport(s, id, now) != s {
      var a := s.attempts[id];
      assert AttemptHeld(s, a) && AttemptDated(a);
      var status := OutcomeStatus(a.reread.status, now, SuccessCount(a.outcomes), !AnyFailed(a.outcomes), LastOutcome(a.outcomes));
      var done := s.(attempts := s.attempts[id := Finished(a.obj, a.actions, a.outcomes)]);
      AttemptKeepsDated(s, id, Finished(a.obj, a.actions, a.outcomes));
      if Current(s.store, a.reread.(status := status)) {
        CurrentIsStored(s, a.reread, status);
        assert VersionDated(s.history, s.clock, a.reread.version);
        var t := a.reread.(version := s.store.version + 1, status := status);
        CompletionDated(t, now, s.clock);
        AttemptKeepsInv(s, id, Finished(a.obj, a.actions, a.outcomes));
        CommitKeepsDated(done, t, Reported(a.reread.uid, id, a.reread.status.phase, status.phase, now));
      }
    }
  }

  lemma ExpireKeepsDated(cfg: Config, s: State, j: nat, name: string, now: Time)
    requires Inv(s) && Dated(s)
    ensures Dated(DoExpire(cfg, s, j, name, now))
  {
    if DoExpire(cfg, s, j, name, now) != s {
      var w := s.sweeps[j];
      assert SweepHeld(s, w) && SweepDated(s.clock, w);
      var t := w.listed[name];
      var status := ExpiredStatus(t.status, now);
      CurrentIsStored(s, t, status);
      assert VersionDated(s.history, s.clock, t.version);
      CompletionDated(t.(version := s.store.version + 1, status := status), now, s.clock);
      CommitKeepsDated(s, t.(version := s.store.version + 1, status := status), Lapsed(t.uid, t.status.phase, w.now.value));
    }
  }

  lemma ClockKeepsDated(s: State, clock: Time)
    requires Dated(s) && s.clock <= clock
    ensures Dated(s.(clock := clock))
  {
    forall v | v in s.history ensures VersionDated(s.history, clock, v) {
      assert VersionDated(s.history, s.clock, v);
    }
    forall i | 0 <= i < |s.log| ensures CreationDated(s.history, clock, s.log[i]) {
      assert CreationDated(s.history, s.clock, s.log[i]);
    }
    forall j | j in s.sweeps ensures SweepDated(clock, s.sweeps[j]) {
      assert SweepDated(s.clock, s.sweeps[j]);
    }
    assert forall id :: id in s.attempts ==> AttemptDated(s.attempts[id]);
  }

  lemma LogKeepsDated(s: State, e: Event)
    requires Dated(s) && !e.Created?
    ensures Dated(s.(log := s.log + [e]))
  {
    var s' := s.(log := s.log + [e]);
    forall i | 0 <= i < |s'.log| ensures CreationDated(s.history, s.clock, s'.log[i]) {
      assert i < |s.log| ==> CreationDated(s.history, s.clock, s.log[i]);
    }
    assert forall v :: v in s'.history ==> VersionDated(s.history, s.clock, v);
    assert forall id :: id in s'.attempts ==> AttemptDated(s.attempts[id]);
    assert forall j :: j in s'.sweeps ==> SweepDated(s.clock, s.sweeps[j]);
  }

  lemma SweepKeepsDated(s: State, j: nat, w: Sweep)
    requires Dated(s) && SweepDated(s.clock, w)
    ensures Dated(s.(sweeps := s.sweeps[j := w]))
  {
    var s' := s.(sweeps := s.sweeps[j := w]);
    assert forall k :: k in s'.sweeps && k != j ==> SweepDated(s.clock, s.sweeps[k]);
    assert forall v :: v in s'.history ==> VersionDated(s.history, s.clock, v);
    assert forall i :: 0 <= i < |s'.log| ==> CreationDated(s.history, s.clock, s.log[i]);
    assert forall id :: id in s'.attempts ==> AttemptDated(s.attempts[id]);
  }

  lemma StoreKeepsDated(s: State, store: Store)
    requires Dated(s)
    ensures Dated(s.(store := store))
  {
    assert forall v :: v in s.history ==> VersionDated(s.history, s.clock, v);
    assert forall i :: 0 <= i < |s.log| ==> CreationDated(s.history, s.clock, s.log[i]);
    assert forall id :: id in s.attempts ==> AttemptDated(s.attempts[id]);
    assert forall j :: j in s.sweeps ==> SweepDated(s.clock, s.sweeps[j]);
  }

  lemma RunActionKeepsDated(s: State, id: nat, outcome: Outcome)
    requires Dated(s)
    ensures Dated(DoRun(s, id, outcome))
  {
    var s' := DoRun(s, id, outcome);
    if s' != s {
      LogKeepsDated(s, s'.log[|s.log|]);
      AttemptKeepsDated(s.(log := s'.log), id, s'.attempts[id]);
    }
  }

  lemma DeleteKeepsDated(cfg: Config, s: State, j: nat, name: string, tLast: Time)
    requires Dated(s)
    ensures Dated(DoDelete(cfg, s, j, name, tLast))
  {
    var s' := DoDelete(cfg, s, j, name, tLast);
    if s' != s {
      LogKeepsDated(s, s'.log[|s.log|]);
      StoreKeepsDated(s.(log := s'.log), s'.store);
    }
  }

  /** A listing is no older than the clock read after it. */
  lemma ListingDated(s: State)
    requires StoreOk(s) && Dated(s)
    ensures SweepDated(s.clock, Sweep(s.store.objects, None))
  {
    forall n | n in s.store.objects ensures s.store.objects[n].created <= s.clock {
      assert Committed(s, s.store.objects[n]) && VersionDated(s.history, s.clock, s.store.objects[n].version);
    }
  }

  lemma ReadClockKeepsDated(s: State, j: nat)
    requires Dated(s)
    ensures Dated(DoReadClock(s, j))
  {
    if j in s.sweeps && s.sweeps[j].now.None? {
      assert SweepDated(s.clock, s.sweeps[j]);
      SweepKeepsDated(s, j, s.sweeps[j].(now := Some(s.clock)));
    }
  }

  lemma ExecKeepsDated(cfg: Config, s: State, step: Step)
    requires Inv(s) && Dated(s)
    ensures Dated(Exec(cfg, s, step))
  {
    hide VersionsOk, HeldOk, ClaimsOk, Dated;
    match step
    case PublishTask(name, spec, origin) => PublishKeepsDated(s, name, spec, origin);
    case Claim(id, actions) => ClaimKeepsDated(s, id, actions);
    case Reread(id) => RereadKeepsDated(s, id);
    case Report(id, now) => ReportKeepsDated(s, id, now);
    case Expire(j, name, now) => ExpireKeepsDated(cfg, s, j, name, now);
    case Tick(d) => ClockKeepsDated(s, s.clock + d);
    case Watch(id, worker, obj) =>
      if DoWatch(s, id, worker, obj) != s {
        AttemptKeepsDated(s, id, Claiming(obj, worker, s.clock));
      }
    case RunAction(id, outcome) => RunActionKeepsDated(s, id, outcome);
    case ListTasks(j) =>
      ListingDated(s);
      SweepKeepsDated(s, j, Sweep(s.store.objects, None));
    case ReadClock(j) => ReadClockKeepsDated(s, j);
    case DeleteTask(j, name, tLast) => DeleteKeepsDated(cfg, s, j, name, tLast);
  }

  lemma {:induction false} RunDated(cfg: Config, steps: seq<Step>)
    ensures Dated(Run(cfg, steps))
  {
    if steps != [] {
      hide Exec, Inv, Dated;
      var init := steps[..|steps| - 1];
      RunDated(cfg, init);
      RunInv(cfg, init);
      ExecKeepsDated(cfg, Run(cfg, init), steps[|steps| - 1]);
    }
  }

  // ---------------------------------------------------------------- retention

  /** How long a terminal task is kept at least, rounding aside. */
  function MinRetention(cfg: Config): nat {
    if 0 < cfg.trailingRetention < cfg.retentionPeriod then cfg.trailingRetention else cfg.retentionPeriod
  }

  /** A created task is still stored, or was retained for its time since the second of its creation. */
  ghost predicate Lasts(cfg: Config, s: State, e: Event) {
    e.Created? ==>
      || (e.name in s.store.objects && s.store.objects[e.name].uid == e.uid)
      || s.clock > e.at / SECOND * SECOND + MinRetention(cfg)
  }

  ghost predicate Lasting(cfg: Config, s: State) {
    forall i {:trigger Lasts(cfg, s, s.log[i])} :: 0 <= i < |s.log| ==> Lasts(cfg, s, s.log[i])
  }

  /** A task a janitor deletes is old enough. */
  lemma DeletedIsOld(cfg: Config, s: State, j: nat, name: string, tLast: Time)
    requires Inv(s) && Dated(s) && DoDelete(cfg, s, j, name, tLast) != s
    ensures s.clock > s.sweeps[j].listed[name].created + MinRetention(cfg)
    ensures s.clock > TerminalInstant(s.sweeps[j].listed[name]) + MinRetention(cfg)
  {
    var w := s.sweeps[j];
    assert SweepHeld(s, w);
    var t := w.listed[name];
    assert VersionDated(s.history, s.clock, t.version);
    if tLast != 0 {
      var n :| n in w.listed && w.listed[n].status.phase.Terminal() && TerminalInstant(w.listed[n]) == tLast;
      assert VersionDated(s.history, s.clock, w.listed[n].version);
    }
  }

  lemma DeleteKeepsLasting(cfg: Config, s: State, j: nat, name: string, tLast: Time)
    requires Inv(s) && Dated(s) && Life(cfg, s) && FreshNames(s.log) && Lasting(cfg, s)
    ensures Lasting(cfg, DoDelete(cfg, s, j, name, tLast))
  {
    var s' := DoDelete(cfg, s, j, name, tLast);
    if s' != s {
      DeletedIsOld(cfg, s, j, name, tLast);
      DeleteHitsTerminal(cfg, s, j, name);
      var t := s.sweeps[j].listed[name];
      assert SweepHeld(s, s.sweeps[j]);
      assert VersionDated(s.history, s.clock, t.version);
      forall i | 0 <= i < |s'.log| ensures Lasts(cfg, s', s'.log[i]) {
        if i < |s.log| {
          assert Lasts(cfg, s, s.log[i]) && CreationDated(s.history, s.clock, s.log[i]);
        }
      }
    }
  }

  /** Other steps remove nothing and change no uid. */
  lemma OthersKeepLasting(cfg: Config, s: State, step: Step)
    requires Inv(s) && Lasting(cfg, s) && !step.DeleteTask?
    ensures Lasting(cfg, Exec(cfg, s, step))
  {
    hide Exec, Inv;
    var s' := Exec(cfg, s, step);
    OthersKeepStored(cfg, s, step);
    CreationsAreStored(cfg, s, step);
    forall i | 0 <= i < |s'.log| ensures Lasts(cfg, s', s'.log[i]) {
      if i < |s.log| {
        assert s'.log[i] == s.log[i];
        assert Lasts(cfg, s, s.log[i]);
      }
    }
  }

  lemma OthersKeepStored(cfg: Config, s: State, step: Step)
    requires Inv(s) && !step.DeleteTask?
    ensures var s' := Exec(cfg, s, step);
            && s.clock <= s'.clock
            && forall n :: n in s.store.objects ==> n in s'.store.objects && s'.store.objects[n].uid == s.store.objects[n].uid
  {
    hide VersionsOk, ClaimsOk, OutcomeStatus, ClaimStatus, ExpiredStatus;
    match step
    case Claim(id, _) => assert id in s.attempts ==> AttemptHeld(s, s.attempts[id]);
    case Report(id, _) => assert id in s.attempts ==> AttemptHeld(s, s.attempts[id]);
    case Expire(j, _, _) => assert j in s.sweeps ==> SweepHeld(s, s.sweeps[j]);
    case _ =>
  }

  /** A creation found its name unused, and its task is stored. */
  lemma CreationsAreStored(cfg: Config, s: State, step: Step)
    ensures var s' := Exec(cfg, s, step);
            && |s'.log| <= |s.log| + 1 && s'.log[..|s.log|] == s.log
            && (|s'.log| > |s.log| && s'.log[|s.log|].Created? ==>
                  var e := s'.log[|s.log|];
                  && step.PublishTask? && e.name !in s.store.objects && e.at == s.clock
                  && e.name in s'.store.objects && s'.store.objects[e.name].uid == e.uid)
  {
    hide OutcomeStatus, ClaimStatus, ExpiredStatus;
  }

  // ---------------------------------------------------------------- fresh names

  /** The creation's name is generated, stamped in a millisecond in which the publication began, and
      the create call was served before `latency` had passed since that millisecond. */
  ghost predicate Stamped(lower: char -> char, latency: nat, e: Event) {
    e.Created? ==> exists scenarioID, resource, millis :: StampedAs(lower, latency, e.name, e.at, scenarioID, resource, millis)
  }

  predicate StampedAs(lower: char -> char, latency: nat, name: string, at: Time, scenarioID: string, resource: string, millis: nat) {
    name == TaskName(lower, scenarioID, resource, millis) && millis * MILLI <= at < (millis + 1) * MILLI + latency
  }

  ghost predicate AllStamped(lower: char -> char, latency: nat, log: Log) {
    forall i :: 0 <= i < |log| ==> Stamped(lower, latency, log[i])
  }

  /** A millisecond that begins before t ends within the second of t. */
  lemma MillisecondInSecond(m: nat, t: Time)
    requires m * MILLI <= t
    ensures (m + 1) * MILLI <= t / SECOND * SECOND + SECOND
  {
    var q := t / SECOND;
    assert m < (q + 1) * 1000;
  }

  /** Two creations under one name are close to each other in time. */
  lemma SameNameSameTime(lower: char -> char, latency: nat, e: Event, e': Event)
    requires e.Created? && e'.Created?
    ensures Stamped(lower, latency, e) && Stamped(lower, latency, e') && e.name == e'.name ==>
              e'.at < e.at / SECOND * SECOND + SECOND + latency
  {
    if Stamped(lower, latency, e) && Stamped(lower, latency, e') && e.name == e'.name {
      var s, r, m :| StampedAs(lower, latency, e.name, e.at, s, r, m);
      var s', r', m' :| StampedAs(lower, latency, e'.name, e'.at, s', r', m');
      SameNameIff(lower, s, r, m, s', r', m');
      MillisecondInSecond(m, e.at);
    }
  }

  /** A task created earlier under the same name would still be stored. */
  lemma CreationIsFresh(cfg: Config, lower: char -> char, latency: nat, s: State, c: Event, e: Event)
    requires c.Created? && e.Created? && e.name !in s.store.objects && e.at == s.clock
    ensures MinRetention(cfg) + 1 >= SECOND + latency
            && Lasts(cfg, s, c) && Stamped(lower, latency, c) && Stamped(lower, latency, e) ==>
              c.name != e.name
  {
    SameNameSameTime(lower, latency, c, e);
  }

  lemma StepKeepsFresh(cfg: Config, lower: char -> char, latency: nat, s: State, step: Step)
    requires MinRetention(cfg) + 1 >= SECOND + latency
    requires FreshNames(s.log) && Lasting(cfg, s) && AllStamped(lower, latency, Exec(cfg, s, step).log)
    ensures FreshNames(Exec(cfg, s, step).log)
  {
    var log' := Exec(cfg, s, step).log;
    CreationsAreStored(cfg, s, step);
    forall i, j | 0 <= i < j < |log'| && log'[i].Created? && log'[j].Created? ensures log'[i].name != log'[j].name {
      assert log'[i] == s.log[i];
      if j == |s.log| {
        assert Lasts(cfg, s, s.log[i]);
        assert Stamped(lower, latency, log'[i]) && Stamped(lower, latency, log'[j]);
        CreationIsFresh(cfg, lower, latency, s, log'[i], log'[j]);
      } else {
        assert log'[j] == s.log[j];
      }
    }
  }

  lemma {:induction false} StampedRun(cfg: Config, lower: char -> char, latency: nat, steps: seq<Step>)
    requires MinRetention(cfg) + 1 >= SECOND + latency
    requires AllStamped(lower, latency, Run(cfg, steps).log)
    ensures FreshNames(Run(cfg, steps).log) && Lasting(cfg, Run(cfg, steps))
  {
    if steps != [] {
      var init, step := steps[..|steps| - 1], steps[|steps| - 1];
      var s := Run(cfg, init);
      StampedPrefix(cfg, lower, latency, s, step);
      StampedRun(cfg, lower, latency, init);
      RunInv(cfg, init);
      RunDated(cfg, init);
      RunLife(cfg, init);
      StepKeepsFresh(cfg, lower, latency, s, step);
      StepKeepsLasting(cfg, s, step);
    }
  }

  lemma StepKeepsLasting(cfg: Config, s: State, step: Step)
    requires Inv(s) && Dated(s) && Life(cfg, s) && FreshNames(s.log) && Lasting(cfg, s)
    ensures Lasting(cfg, Exec(cfg, s, step))
  {
    if step.DeleteTask? {
      DeleteKeepsLasting(cfg, s, step.j, step.name, step.tLast);
    } else {
      OthersKeepLasting(cfg, s, step);
    }
  }

  lemma StampedPrefix(cfg: Config, lower: char -> char, latency: nat, s: State, step: Step)
    requires AllStamped(lower, latency, Exec(cfg, s, step).log)
    ensures AllStamped(lower, latency, s.log)
  {
    ExecExtendsLog(cfg, s, step);
    forall i | 0 <= i < |s.log| ensures Stamped(lower, latency, s.log[i]) {
      assert s.log[i] == Exec(cfg, s, step).log[i];
    }
  }

  /** With generated names and a retention of a second and the longest create call, no name is ever
      used twice; so everything proved of runs with fresh names holds. */
  lemma GeneratedNamesAreFresh(cfg: Config, lower: char -> char, latency: nat, steps: seq<Step>)
    requires MinRetention(cfg) + 1 >= SECOND + latency
    requires AllStamped(lower, latency, Run(cfg, steps).log)
    ensures FreshNames(Run(cfg, steps).log)
    ensures forall i :: 0 <= i < |Run(cfg, steps).log| ==> LawfulWrite(cfg, Run(cfg, steps).log, Run(cfg, steps).log[i])
    ensures forall t :: Committed(Run(cfg, steps), t) ==> TrueOutcome(Run(cfg, steps).log, t)
  {
    StampedRun(cfg, lower, latency, steps);
    forall i | 0 <= i < |Run(cfg, steps).log| ensures LawfulWrite(cfg, Run(cfg, steps).log, Run(cfg, steps).log[i]) {
      PhaseSafety(cfg, steps, i);
    }
    forall t | Committed(Run(cfg, steps), t) ensures TrueOutcome(Run(cfg, steps).log, t) {
      OutcomesAreTrue(cfg, steps, t);
    }
  }

  /** The default retention of an hour leaves a create call almost all of that hour. */
  lemma DefaultsAreFresh(lower: char -> char, activeDeadline: nat, steps: seq<Step>)
    requires var cfg := Config(activeDeadline, 60 * MINUTE, 0); AllStamped(lower, 59 * MINUTE, Run(cfg, steps).log)
    ensures FreshNames(Run(Config(activeDeadline, 60 * MINUTE, 0), steps).log)
  {
    StampedRun(Config(activeDeadline, 60 * MINUTE, 0), lower, 59 * MINUTE, steps);
  }
}
