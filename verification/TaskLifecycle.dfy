/** The life of a task over whole runs in which no task name is used twice: which phase changes
    are ever committed and by whom, and what a final status says about what was executed. */
module TaskLifecycle {
  import opened Types
  import opened Actions
  import opened Tasks
  import opened TaskQueue
  import opened ClaimExclusivity

  type Log = seq<Event>
  type History = map<nat, Task>

  // ---------------------------------------------------------------- reading the log

  ghost predicate WasCreated(log: Log, uid: nat, name: string) {
    exists i :: 0 <= i < |log| && log[i].Created? && log[i].uid == uid && log[i].name == name
  }

  ghost predicate FreshNames(log: Log) {
    forall i, j :: 0 <= i < j < |log| && log[i].Created? && log[j].Created? ==> log[i].name != log[j].name
  }

  ghost predicate HasClaim(log: Log, uid: nat, attempt: nat) {
    exists i :: 0 <= i < |log| && log[i].Claimed? && log[i].uid == uid && log[i].attempt == attempt
  }

  ghost predicate HasReport(log: Log, uid: nat) {
    exists i :: 0 <= i < |log| && log[i].Reported? && log[i].uid == uid
  }

  /** Some claim of the task wrote exactly these claim fields. */
  ghost predicate StampedByClaim(log: Log, t: Task) {
    exists i :: 0 <= i < |log| && log[i].Claimed? && log[i].uid == t.uid
                && t.status.claimedBy == Some(log[i].worker) && t.status.claimedAt == ToStamp(log[i].at)
  }

  datatype Call = Call(attempt: nat, action: ActionConfig, outcome: Outcome)

  /** The executor calls made for a task, in order, by whichever attempts. */
  ghost function RunsOf(log: Log, uid: nat): (r: seq<Call>)
    ensures r != [] ==> Ran(uid, r[0].attempt, r[0].action, r[0].outcome) in log
  {
    if log == [] then
      []
    else
      RunsOf(log[..|log| - 1], uid) + CallOf(log[|log| - 1], uid)
  }

  function CallOf(e: Event, uid: nat): seq<Call> {
    if e.Ran? && e.uid == uid then [Call(e.attempt, e.action, e.outcome)] else []
  }

  lemma RunsOfAppend(log: Log, e: Event, uid: nat)
    ensures RunsOf(log + [e], uid) == RunsOf(log, uid) + CallOf(e, uid)
  {
    assert (log + [e])[..|log|] == log;
  }

  lemma AppendKeepsEvents(log: Log, e: Event)
    ensures forall u, n {:trigger WasCreated(log + [e], u, n)} :: WasCreated(log, u, n) ==> WasCreated(log + [e], u, n)
    ensures forall u, a {:trigger HasClaim(log + [e], u, a)} :: HasClaim(log, u, a) ==> HasClaim(log + [e], u, a)
    ensures forall u {:trigger HasReport(log + [e], u)} ::
              HasReport(log + [e], u) <==> HasReport(log, u) || (e.Reported? && e.uid == u)
    ensures forall t {:trigger StampedByClaim(log + [e], t)} :: StampedByClaim(log, t) ==> StampedByClaim(log + [e], t)
  {
    var log' := log + [e];
    assert forall i :: 0 <= i < |log| ==> log'[i] == log[i];
    assert log'[|log|] == e;
    forall u | HasReport(log, u) ensures HasReport(log', u) {
      var i :| 0 <= i < |log| && log[i].Reported? && log[i].uid == u;
      assert log'[i].Reported?;
    }
    forall u, a | HasClaim(log, u, a) ensures HasClaim(log', u, a) {
      var i :| 0 <= i < |log| && log[i].Claimed? && log[i].uid == u && log[i].attempt == a;
      assert log'[i].Claimed?;
    }
    forall u, n | WasCreated(log, u, n) ensures WasCreated(log', u, n) {
      var i :| 0 <= i < |log| && log[i].Created? && log[i].uid == u && log[i].name == n;
      assert log'[i].Created?;
    }
    forall t | StampedByClaim(log, t) ensures StampedByClaim(log', t) {
      var i :| 0 <= i < |log| && log[i].Claimed? && log[i].uid == t.uid
               && t.status.claimedBy == Some(log[i].worker) && t.status.claimedAt == ToStamp(log[i].at);
      assert log'[i].Claimed?;
    }
  }

  lemma AppendKeepsClaim(log: Log, e: Event, uid: nat, id: nat)
    requires HasClaim(log, uid, id)
    ensures HasClaim(log + [e], uid, id)
  {
    var i :| 0 <= i < |log| && log[i].Claimed? && log[i].uid == uid && log[i].attempt == id;
    assert (log + [e])[i] == log[i];
  }

  lemma SameNameSameTask(log: Log, u: nat, u': nat, name: string)
    requires FreshNames(log) && WasCreated(log, u, name) && WasCreated(log, u', name)
    ensures u == u'
  {
  }

  lemma SameTaskSameClaimer(s: State, uid: nat, id: nat, id': nat)
    requires ClaimsOk(s) && HasClaim(s.log, uid, id) && HasClaim(s.log, uid, id')
    ensures id == id'
  {
  }

  // ---------------------------------------------------------------- what an execution leaves behind

  /** The calls made for task `uid` are those of attempt `id` running `actions` with `outcomes`. */
  ghost predicate RecordMatches(log: Log, uid: nat, id: nat, actions: seq<ActionConfig>, outcomes: seq<Outcome>)
    requires |outcomes| <= |actions|
  {
    var r := RunsOf(log, uid);
    && |r| == |outcomes|
    && forall k :: 0 <= k < |r| ==> r[k] == Call(id, actions[k], outcomes[k])
  }

  /** Attempt `id` claimed task `t` and these are all the executor calls ever made for it. */
  ghost predicate Executed(log: Log, t: Task, id: nat, actions: seq<ActionConfig>, outcomes: seq<Outcome>) {
    && HasClaim(log, t.uid, id)
    && SortedFrom(FromTaskActions(t.spec.actions), actions)
    && RunsUntilFailure(actions, outcomes)
    && RecordMatches(log, t.uid, id, actions, outcomes)
  }

  /** The result carries this verdict, and the message and the error of the last executor answer: the
      error it was returned with, if any, else the one in its result, if any. */
  ghost predicate TellsLast(result: TaskResult, success: bool, outcomes: seq<Outcome>) {
    && result.TaskResult? && result.success == success
    && (outcomes == [] ==> result.message == "" && result.error == None)
    && (outcomes != [] ==>
          var last := outcomes[|outcomes| - 1];
          && result.message == last.message
          && (last.err.Some? ==> result.error == last.err)
          && (last.err.None? && last.error != "" ==> result.error == Some(last.error))
          && (last.err.None? && last.error == "" ==> result.error == None))
  }

  ghost predicate CompletedTruly(log: Log, t: Task) {
    exists id, actions, outcomes ::
      Executed(log, t, id, actions, outcomes) && !AnyFailed(outcomes) && t.status.actionsCompleted == |outcomes| == |actions|
      && TellsLast(t.status.result, true, outcomes)
  }

  ghost predicate FailedTruly(log: Log, t: Task) {
    exists id, actions, outcomes ::
      Executed(log, t, id, actions, outcomes) && AnyFailed(outcomes) && t.status.actionsCompleted + 1 == |outcomes|
      && TellsLast(t.status.result, false, outcomes)
  }

  // ---------------------------------------------------------------- the invariant

  /** A later version of a task never falls behind in this order. */
  predicate PhaseLe(p: Phase, q: Phase) {
    match p
    case Unset => true
    case Running => q.Running? || q.Terminal()
    case Expired => q.Terminal()
    case _ => p == q
  }

  /** If task `uid` is still stored, its phase is terminal. */
  ghost predicate Beyond(store: Store, history: History, uid: nat) {
    && uid in history
    && (var n := history[uid].name;
        n in store.objects && store.objects[n].uid == uid ==> store.objects[n].status.phase.Terminal())
  }

  ghost predicate VersionLife(store: Store, log: Log, h: Task) {
    && WasCreated(log, h.uid, h.name)
    && (h.status.phase.Unset? || h.status.phase.Running? || h.status.phase.Terminal())
    && (h.status.phase.Unset? ==> h.status == NO_STATUS)
    && (!h.status.phase.Unset? ==> StampedByClaim(log, h))
    && (h.status.phase.Completed? ==> CompletedTruly(log, h) && HasReport(log, h.uid))
    && (h.status.phase.Failed? ==> FailedTruly(log, h) && HasReport(log, h.uid))
    && (h.name in store.objects && store.objects[h.name].uid == h.uid ==> PhaseLe(h.status.phase, store.objects[h.name].status.phase))
  }

  ghost predicate AttemptLife(log: Log, id: nat, a: Attempt) {
    a.Won() ==>
      && Executed(log, a.obj, id, a.actions, a.outcomes)
      && (!a.Executing? ==> Stopped(a.actions, a.outcomes))
      && (!a.Finished? ==> !HasReport(log, a.obj.uid))
      && (a.Reporting? ==> a.reread.uid == a.obj.uid && !a.reread.IsPending())
  }

  ghost predicate Overdue(cfg: Config, log: Log, uid: nat, at: Time) {
    exists k :: 0 <= k < |log| && log[k].Claimed? && log[k].uid == uid && at + SECOND > log[k].at + cfg.activeDeadline
  }

  ghost predicate EventLife(cfg: Config, store: Store, history: History, log: Log, e: Event) {
    match e
    case Created(_, _, _, _) => true
    case Claimed(uid, id, _, _) => true
    case Ran(uid, id, _, _) => HasClaim(log, uid, id)
    case Reported(uid, id, prior, next, _) =>
      (prior.Running? || prior.Expired?) && (next.Completed? || next.Failed?) && HasClaim(log, uid, id) && Beyond(store, history, uid)
    case Lapsed(uid, prior, at) => prior.Running? && Overdue(cfg, log, uid, at) && Beyond(store, history, uid)
    case Deleted(uid, prior, _) => prior.Terminal()
  }

  ghost predicate OncePerTask(log: Log) {
    && (forall i, j :: 0 <= i < j < |log| && log[i].Lapsed? && log[j].Lapsed? ==> log[i].uid != log[j].uid)
    && (forall i, j :: 0 <= i < j < |log| && log[i].Reported? && log[j].Reported? ==> log[i].uid != log[j].uid)
  }

  ghost predicate VersionsLife(store: Store, history: History, log: Log) {
    forall v {:trigger VersionLife(store, log, history[v])} :: v in history ==> VersionLife(store, log, history[v])
  }

  ghost predicate AttemptsLife(attempts: map<nat, Attempt>, log: Log) {
    forall id {:trigger AttemptLife(log, id, attempts[id])} :: id in attempts ==> AttemptLife(log, id, attempts[id])
  }

  ghost predicate EventsLife(cfg: Config, store: Store, history: History, log: Log) {
    forall i {:trigger EventLife(cfg, store, history, log, log[i])} :: 0 <= i < |log| ==> EventLife(cfg, store, history, log, log[i])
  }

  ghost predicate Life(cfg: Config, s: State) {
    && VersionsLife(s.store, s.history, s.log)
    && AttemptsLife(s.attempts, s.log)
    && EventsLife(cfg, s.store, s.history, s.log)
    && OncePerTask(s.log)
  }

  // ---------------------------------------------------------------- growing the log

  lemma AppendKeepsExecuted(log: Log, e: Event, t: Task, id: nat, actions: seq<ActionConfig>, outcomes: seq<Outcome>)
    requires Executed(log, t, id, actions, outcomes)
    requires e.Ran? ==> e.uid != t.uid
    ensures Executed(log + [e], t, id, actions, outcomes)
  {
    AppendKeepsEvents(log, e);
    RunsOfAppend(log, e, t.uid);
    assert RunsOf(log + [e], t.uid) == RunsOf(log, t.uid);
  }

  lemma AppendKeepsTruth(log: Log, e: Event, t: Task)
    requires e.Ran? ==> e.uid != t.uid
    ensures CompletedTruly(log, t) ==> CompletedTruly(log + [e], t)
    ensures FailedTruly(log, t) ==> FailedTruly(log + [e], t)
  {
    if CompletedTruly(log, t) {
      var id, actions, outcomes :|
        Executed(log, t, id, actions, outcomes) && !AnyFailed(outcomes) && t.status.actionsCompleted == |outcomes| == |actions|
        && TellsLast(t.status.result, true, outcomes);
      AppendKeepsExecuted(log, e, t, id, actions, outcomes);
    }
    if FailedTruly(log, t) {
      var id, actions, outcomes :|
        Executed(log, t, id, actions, outcomes) && AnyFailed(outcomes) && t.status.actionsCompleted + 1 == |outcomes|
        && TellsLast(t.status.result, false, outcomes);
      AppendKeepsExecuted(log, e, t, id, actions, outcomes);
    }
  }

  /** Appending an event keeps what is known of a version, if no action runs for a reported task. */
  lemma AppendKeepsVersion(store: Store, log: Log, e: Event, h: Task)
    requires VersionLife(store, log, h)
    requires e.Ran? ==> !HasReport(log, e.uid)
    ensures VersionLife(store, log + [e], h)
  {
    AppendKeepsEvents(log, e);
    if h.status.phase.Completed? || h.status.phase.Failed? {
      assert HasReport(log, h.uid);
      AppendKeepsTruth(log, e, h);
    }
  }

  lemma AppendKeepsAttempt(log: Log, e: Event, id: nat, a: Attempt)
    requires AttemptLife(log, id, a)
    requires a.Won() && e.Ran? ==> e.uid != a.obj.uid
    requires a.Won() && e.Reported? && !a.Finished? ==> e.uid != a.obj.uid
    ensures AttemptLife(log + [e], id, a)
  {
    AppendKeepsEvents(log, e);
    if a.Won() {
      AppendKeepsExecuted(log, e, a.obj, id, a.actions, a.outcomes);
    }
  }

  lemma AppendKeepsEvent(cfg: Config, store: Store, history: History, log: Log, e: Event, d: Event)
    requires EventLife(cfg, store, history, log, d)
    ensures EventLife(cfg, store, history, log + [e], d)
  {
    AppendKeepsEvents(log, e);
    if d.Lapsed? {
      var k :| 0 <= k < |log| && log[k].Claimed? && log[k].uid == d.uid && d.at + SECOND > log[k].at + cfg.activeDeadline;
      assert (log + [e])[k] == log[k];
    }
  }

  // ---------------------------------------------------------------- committing an object version

  lemma PhaseLeTransitive(p: Phase, q: Phase, r: Phase)
    requires PhaseLe(p, q) && PhaseLe(q, r)
    ensures PhaseLe(p, r)
  {
  }

  /** `t` is a new task, or a later version of the stored one. */
  ghost predicate Succeeds(s: State, t: Task) {
    && t.version == s.store.version + 1
    && (t.uid == t.version
        || (t.name in s.store.objects && s.store.objects[t.name].uid == t.uid
            && PhaseLe(s.store.objects[t.name].status.phase, t.status.phase)))
  }

  lemma CommitKeepsVersionsLife(s: State, t: Task, e: Event)
    requires Inv(s) && VersionsLife(s.store, s.history, s.log)
    requires Succeeds(s, t) && !e.Ran?
    requires VersionLife(Commit(s, t, e).store, Commit(s, t, e).log, t)
    ensures VersionsLife(Commit(s, t, e).store, Commit(s, t, e).history, Commit(s, t, e).log)
  {
    var s' := Commit(s, t, e);
    forall v | v in s'.history ensures VersionLife(s'.store, s'.log, s'.history[v]) {
      if v != t.version {
        var h := s.history[v];
        assert VersionOk(s, v);
        assert VersionLife(s.store, s.log, h);
        AppendKeepsVersion(s.store, s.log, e, h);
        if h.name == t.name && h.uid == t.uid {
          PhaseLeTransitive(h.status.phase, s.store.objects[t.name].status.phase, t.status.phase);
        }
      }
    }
  }

  lemma CommitKeepsEventsLife(cfg: Config, s: State, t: Task, e: Event)
    requires Inv(s) && EventsLife(cfg, s.store, s.history, s.log)
    requires Succeeds(s, t)
    requires EventLife(cfg, Commit(s, t, e).store, Commit(s, t, e).history, Commit(s, t, e).log, e)
    ensures EventsLife(cfg, Commit(s, t, e).store, Commit(s, t, e).history, Commit(s, t, e).log)
  {
    var s' := Commit(s, t, e);
    forall i | 0 <= i < |s'.log| ensures EventLife(cfg, s'.store, s'.history, s'.log, s'.log[i]) {
      if i < |s.log| {
        var d := s.log[i];
        assert EventLife(cfg, s.store, s.history, s.log, d);
        AppendKeepsEvent(cfg, s.store, s.history, s.log, e, d);
        if d.Reported? || d.Lapsed? {
          assert VersionOk(s, d.uid);
          assert Beyond(s'.store, s'.history, d.uid);
        }
      }
    }
  }

  lemma AppendKeepsAttempts(s: State, e: Event)
    requires AttemptsLife(s.attempts, s.log)
    requires !e.Ran?
    requires e.Reported? ==> forall id :: id in s.attempts && s.attempts[id].Won() && !s.attempts[id].Finished? ==> s.attempts[id].obj.uid != e.uid
    ensures AttemptsLife(s.attempts, s.log + [e])
  {
    forall id | id in s.attempts ensures AttemptLife(s.log + [e], id, s.attempts[id]) {
      assert AttemptLife(s.log, id, s.attempts[id]);
      AppendKeepsAttempt(s.log, e, id, s.attempts[id]);
    }
  }

  lemma CommitKeepsLife(cfg: Config, s: State, t: Task, e: Event)
    requires Inv(s) && Life(cfg, s) && Succeeds(s, t) && !e.Ran?
    requires VersionLife(Commit(s, t, e).store, s.log + [e], t)
    requires EventLife(cfg, Commit(s, t, e).store, Commit(s, t, e).history, s.log + [e], e)
    requires e.Reported? ==> forall id :: id in s.attempts && s.attempts[id].Won() && !s.attempts[id].Finished? ==> s.attempts[id].obj.uid != e.uid
    requires e.Reported? ==> !HasReport(s.log, e.uid)
    requires e.Lapsed? ==> forall i :: 0 <= i < |s.log| && s.log[i].Lapsed? ==> s.log[i].uid != e.uid
    ensures Life(cfg, Commit(s, t, e))
  {
    CommitKeepsVersionsLife(s, t, e);
    CommitKeepsEventsLife(cfg, s, t, e);
    AppendKeepsAttempts(s, e);
  }

  lemma AttemptKeepsLife(cfg: Config, s: State, id: nat, a: Attempt)
    requires Life(cfg, s) && AttemptLife(s.log, id, a)
    ensures Life(cfg, s.(attempts := s.attempts[id := a]))
  {
    var s' := s.(attempts := s.attempts[id := a]);
    forall k | k in s'.attempts ensures AttemptLife(s'.log, k, s'.attempts[k]) {
      assert k != id ==> AttemptLife(s.log, k, s.attempts[k]);
    }
  }

  // ---------------------------------------------------------------- steps

  lemma PublishKeepsLife(cfg: Config, s: State, name: string, spec: Spec, origin: string)
    requires Inv(s) && Life(cfg, s)
    ensures Life(cfg, DoPublish(s, name, spec, origin))
  {
    if name !in s.store.objects {
      var (store, ok) := Create(s.store, name, s.clock, spec);
      var t := store.objects[name];
      var e := Created(store.version, name, origin, s.clock);
      assert (s.log + [e])[|s.log|] == e;
      CommitKeepsLife(cfg, s, t, e);
    }
  }

  /** Before its claim nothing was executed or reported for a task. */
  lemma UnclaimedIsUntouched(cfg: Config, s: State, t: Task)
    requires Inv(s) && Life(cfg, s)
    requires t.name in s.store.objects && s.store.objects[t.name] == t && t.IsPending()
    ensures RunsOf(s.log, t.uid) == [] && !HasReport(s.log, t.uid)
  {
    assert Committed(s, t);
    assert VersionOk(s, t.version);
    assert !Taken(s, t.uid) && !Beyond(s.store, s.history, t.uid);
    forall e | e in s.log && (e.Ran? || e.Reported?) ensures e.uid != t.uid {
      var i :| 0 <= i < |s.log| && s.log[i] == e;
      assert EventLife(cfg, s.store, s.history, s.log, s.log[i]);
      if s.log[i].Ran? {
        var k :| 0 <= k < |s.log| && s.log[k].Claimed? && s.log[k].uid == s.log[i].uid;
        assert Taken(s, s.log[k].uid);
      }
    }
  }

  ghost predicate Claimable(s: State, id: nat) {
    && id in s.attempts && s.attempts[id].Claiming?
    && (var a := s.attempts[id]; a.obj.name in s.store.objects && s.store.objects[a.obj.name] == a.obj)
  }

  /** The claim commits the task's second version. */
  lemma ClaimCommits(cfg: Config, s: State, id: nat)
    requires Inv(s) && Life(cfg, s) && Claimable(s, id)
    ensures var a := s.attempts[id];
            var t := a.obj.(version := s.store.version + 1, status := ClaimStatus(a.obj.status, a.worker, a.at));
            var e := Claimed(a.obj.uid, id, a.worker, a.at);
            Succeeds(s, t) && VersionLife(Commit(s, t, e).store, s.log + [e], t)
  {
    var a := s.attempts[id];
    assert AttemptHeld(s, a);
    var t := a.obj.(version := s.store.version + 1, status := ClaimStatus(a.obj.status, a.worker, a.at));
    var e := Claimed(a.obj.uid, id, a.worker, a.at);
    var log' := s.log + [e];
    assert VersionLife(s.store, s.log, s.history[a.obj.version]);
    AppendKeepsEvents(s.log, e);
    assert log'[|s.log|] == e;
    assert StampedByClaim(log', t);
  }

  /** It starts an execution with an empty record. */
  lemma ClaimStarts(cfg: Config, s: State, id: nat, actions: seq<ActionConfig>, e: Event)
    requires Inv(s) && Life(cfg, s) && Claimable(s, id)
    requires e.Claimed? && e.uid == s.attempts[id].obj.uid && e.attempt == id
    requires SortedFrom(FromTaskActions(s.attempts[id].obj.spec.actions), actions)
    ensures AttemptLife(s.log + [e], id, Executing(s.attempts[id].obj, actions, []))
  {
    hide VersionsOk, ClaimsOk;
    var obj := s.attempts[id].obj;
    assert AttemptHeld(s, s.attempts[id]);
    UnclaimedIsUntouched(cfg, s, obj);
    RunsOfAppend(s.log, e, obj.uid);
    assert (s.log + [e])[|s.log|] == e;
    assert HasClaim(s.log + [e], obj.uid, id);
    assert !HasReport(s.log + [e], obj.uid) by {
      AppendKeepsEvents(s.log, e);
    }
  }

  lemma ClaimKeepsLife(cfg: Config, s: State, id: nat, actions: seq<ActionConfig>)
    requires Inv(s) && Life(cfg, s)
    ensures Life(cfg, DoClaim(s, id, actions))
  {
    if id in s.attempts && s.attempts[id].Claiming? {
      var a := s.attempts[id];
      assert AttemptHeld(s, a);
      var status := ClaimStatus(a.obj.status, a.worker, a.at);
      if !Current(s.store, a.obj.(status := status)) {
        AttemptKeepsLife(cfg, s, id, Lost(a.obj));
      } else if SortedFrom(FromTaskActions(a.obj.spec.actions), actions) {
        CurrentIsStored(s, a.obj, status);
        var e := Claimed(a.obj.uid, id, a.worker, a.at);
        ClaimCommits(cfg, s, id);
        ClaimStarts(cfg, s, id, actions, e);
        var c := Commit(s, a.obj.(version := s.store.version + 1, status := status), e);
        CommitKeepsLife(cfg, s, a.obj.(version := s.store.version + 1, status := status), e);
        AttemptKeepsLife(cfg, c, id, Executing(a.obj, actions, []));
      }
    }
  }

  lemma RecordGrows(log: Log, uid: nat, id: nat, actions: seq<ActionConfig>, outcomes: seq<Outcome>, outcome: Outcome)
    requires |outcomes| < |actions| && RecordMatches(log, uid, id, actions, outcomes)
    ensures RecordMatches(log + [Ran(uid, id, actions[|outcomes|], outcome)], uid, id, actions, outcomes + [outcome])
  {
    var e := Ran(uid, id, actions[|outcomes|], outcome);
    RunsOfAppend(log, e, uid);
    var r, r' := RunsOf(log, uid), RunsOf(log + [e], uid);
    assert r' == r + [Call(id, actions[|outcomes|], outcome)];
    forall k | 0 <= k < |r'| ensures r'[k] == Call(id, actions[k], (outcomes + [outcome])[k]) {
      assert k < |r| ==> r'[k] == r[k];
    }
  }

  /** The runner itself after one more action. */
  lemma RunKeepsRunner(s: State, id: nat, a: Attempt, outcome: Outcome)
    requires a.Executing? && AttemptLife(s.log, id, a)
    requires !Stopped(a.actions, a.outcomes) && |a.outcomes| < |a.actions|
    ensures var e := Ran(a.obj.uid, id, a.actions[|a.outcomes|], outcome);
            AttemptLife(s.log + [e], id, Executing(a.obj, a.actions, a.outcomes + [outcome]))
  {
    var uid := a.obj.uid;
    var e := Ran(uid, id, a.actions[|a.outcomes|], outcome);
    AppendKeepsEvents(s.log, e);
    assert !AnyFailed(a.outcomes);
    RecordGrows(s.log, uid, id, a.actions, a.outcomes, outcome);
  }

  lemma RunKeepsOthers(s: State, id: nat, e: Event, k: nat)
    requires ClaimsOk(s) && AttemptsLife(s.attempts, s.log) && id in s.attempts && k in s.attempts && k != id
    requires s.attempts[id].Won() && e.Ran? && e.uid == s.attempts[id].obj.uid
    ensures AttemptLife(s.log + [e], k, s.attempts[k])
  {
    assert AttemptLife(s.log, id, s.attempts[id]) && AttemptLife(s.log, k, s.attempts[k]);
    if s.attempts[k].Won() && s.attempts[k].obj.uid == e.uid {
      SameTaskSameClaimer(s, e.uid, id, k);
    }
    AppendKeepsAttempt(s.log, e, k, s.attempts[k]);
  }

  /** Logging without committing keeps what is known of versions and events. */
  lemma LogKeepsLife(cfg: Config, s: State, e: Event)
    requires VersionsLife(s.store, s.history, s.log) && EventsLife(cfg, s.store, s.history, s.log)
    requires e.Ran? ==> !HasReport(s.log, e.uid)
    requires EventLife(cfg, s.store, s.history, s.log + [e], e)
    ensures VersionsLife(s.store, s.history, s.log + [e]) && EventsLife(cfg, s.store, s.history, s.log + [e])
  {
    var log' := s.log + [e];
    forall v | v in s.history ensures VersionLife(s.store, log', s.history[v]) {
      assert VersionLife(s.store, s.log, s.history[v]);
      AppendKeepsVersion(s.store, s.log, e, s.history[v]);
    }
    forall i | 0 <= i < |log'| ensures EventLife(cfg, s.store, s.history, log', log'[i]) {
      if i < |s.log| {
        assert EventLife(cfg, s.store, s.history, s.log, s.log[i]);
        AppendKeepsEvent(cfg, s.store, s.history, s.log, e, s.log[i]);
      }
    }
  }

  lemma RunKeepsLife(cfg: Config, s: State, id: nat, outcome: Outcome)
    requires Inv(s) && Life(cfg, s)
    ensures Life(cfg, DoRun(s, id, outcome))
  {
    var s' := DoRun(s, id, outcome);
    if s' != s {
      var a := s.attempts[id];
      var e := Ran(a.obj.uid, id, a.actions[|a.outcomes|], outcome);
      assert AttemptLife(s.log, id, a);
      RunKeepsRunner(s, id, a, outcome);
      assert EventLife(cfg, s.store, s.history, s'.log, e) by {
        AppendKeepsEvents(s.log, e);
      }
      LogKeepsLife(cfg, s, e);
      forall k | k in s'.attempts ensures AttemptLife(s'.log, k, s'.attempts[k]) {
        if k != id {
          RunKeepsOthers(s, id, e, k);
        }
      }
    }
  }

  /** With fresh names the object re-read under a won task's name is that task, and it has been
      claimed. */
  lemma RereadFindsOwnTask(cfg: Config, s: State, id: nat)
    requires Inv(s) && Life(cfg, s) && FreshNames(s.log)
    requires id in s.attempts && s.attempts[id].Won() && s.attempts[id].obj.name in s.store.objects
    ensures var t := s.store.objects[s.attempts[id].obj.name];
            t.uid == s.attempts[id].obj.uid && !t.IsPending()
  {
    var a := s.attempts[id];
    var t := s.store.objects[a.obj.name];
    assert AttemptHeld(s, a) && AttemptLife(s.log, id, a);
    assert Committed(s, t) && Committed(s, a.obj);
    assert VersionLife(s.store, s.log, s.history[t.version]);
    assert VersionLife(s.store, s.log, s.history[a.obj.version]);
    SameNameSameTask(s.log, t.uid, a.obj.uid, t.name);
    var k :| 0 <= k < |s.log| && s.log[k].Claimed? && s.log[k].uid == t.uid;
    assert Taken(s, s.log[k].uid);
    assert VersionOk(s, t.version);
  }

  lemma RereadKeepsLife(cfg: Config, s: State, id: nat)
    requires Inv(s) && Life(cfg, s) && FreshNames(s.log)
    ensures Life(cfg, DoReread(s, id))
  {
    var s' := DoReread(s, id);
    if s' != s {
      var a := s.attempts[id];
      assert AttemptLife(s.log, id, a);
      if a.obj.name in s.store.objects {
        RereadFindsOwnTask(cfg, s, id);
      }
      AttemptKeepsLife(cfg, s, id, s'.attempts[id]);
    }
  }

  lemma ReportKeepsLife(cfg: Config, s: State, id: nat, now: Time)
    requires Inv(s) && Life(cfg, s)
    ensures Life(cfg, DoReport(s, id, now))
  {
    hide VersionsOk, ClaimsOk, OutcomeStatus, Concludes;
    var s' := DoReport(s, id, now);
    if s' != s {
      var a := s.attempts[id];
      assert AttemptHeld(s, a) && AttemptLife(s.log, id, a);
      OutcomeConcludes(a.reread.status, now, a.outcomes);
      var finished := Finished(a.obj, a.actions, a.outcomes);
      var done := s.(attempts := s.attempts[id := finished]);
      AttemptKeepsLife(cfg, s, id, finished);
      var status := OutcomeStatus(a.reread.status, now, SuccessCount(a.outcomes), !AnyFailed(a.outcomes), LastOutcome(a.outcomes));
      if Current(s.store, a.reread.(status := status)) {
        CurrentIsStored(s, a.reread, status);
        AttemptKeepsInv(s, id, finished);
        ReportCommits(cfg, done, id, a.reread, status, now);
      }
    }
  }

  /** Only the phase, the time of completion, the count and the result change, and they say what happened. */
  ghost predicate Concludes(st: Status, st': Status, outcomes: seq<Outcome>) {
    && st' == st.(phase := st'.phase, completedAt := st'.completedAt, actionsCompleted := SuccessCount(outcomes), result := st'.result)
    && st'.phase == (if AnyFailed(outcomes) then Failed else Completed)
    && TellsLast(st'.result, !AnyFailed(outcomes), outcomes)
  }

  lemma OutcomeConcludes(st: Status, now: Time, outcomes: seq<Outcome>)
    ensures Concludes(st, OutcomeStatus(st, now, SuccessCount(outcomes), !AnyFailed(outcomes), LastOutcome(outcomes)), outcomes)
  {
  }

  /** Attempt `id` has stopped and writes its outcome over the stored version `base` of its task. */
  ghost predicate Reportable(s: State, id: nat, base: Task, status: Status) {
    && id in s.attempts && s.attempts[id].Finished? && Stopped(s.attempts[id].actions, s.attempts[id].outcomes)
    && s.attempts[id].obj.uid == base.uid && !HasReport(s.log, base.uid)
    && base.name in s.store.objects && s.store.objects[base.name] == base && !base.IsPending()
    && Concludes(base.status, status, s.attempts[id].outcomes)
  }

  lemma OutcomeIsTrue(log: Log, t: Task, id: nat, actions: seq<ActionConfig>, outcomes: seq<Outcome>)
    requires Executed(log, t, id, actions, outcomes) && Stopped(actions, outcomes)
    requires t.status.actionsCompleted == SuccessCount(outcomes) && TellsLast(t.status.result, !AnyFailed(outcomes), outcomes)
    ensures if AnyFailed(outcomes) then FailedTruly(log, t) else CompletedTruly(log, t)
  {
    if AnyFailed(outcomes) {
      FailedRunCount(actions, outcomes);
      assert FailedTruly(log, t);
    } else {
      assert CompletedTruly(log, t);
    }
  }

  lemma ReportIsTrue(cfg: Config, s: State, id: nat, base: Task, status: Status, e: Event)
    requires Inv(s) && Life(cfg, s) && Reportable(s, id, base, status)
    requires e.Reported? && e == Reported(base.uid, id, base.status.phase, status.phase, e.at)
    ensures var t := base.(version := s.store.version + 1, status := status);
            VersionLife(Commit(s, t, e).store, Commit(s, t, e).log, t)
  {
    var a := s.attempts[id];
    var t := base.(version := s.store.version + 1, status := status);
    var log' := s.log + [e];
    assert Committed(s, base);
    assert AttemptHeld(s, a) && AttemptLife(s.log, id, a);
    assert VersionLife(s.store, s.log, s.history[base.version]);
    AppendKeepsEvents(s.log, e);
    assert log'[|s.log|] == e && HasReport(log', t.uid);
    assert t.spec == a.obj.spec by {
      assert VersionOk(s, base.version) && VersionOk(s, a.obj.version);
    }
    AppendKeepsExecuted(s.log, e, a.obj, id, a.actions, a.outcomes);
    assert Executed(log', t, id, a.actions, a.outcomes);
    OutcomeIsTrue(log', t, id, a.actions, a.outcomes);
    StampStays(s.log, e, base, t);
  }

  lemma StampStays(log: Log, e: Event, t: Task, t': Task)
    requires StampedByClaim(log, t)
    requires t'.uid == t.uid && t'.status.claimedBy == t.status.claimedBy && t'.status.claimedAt == t.status.claimedAt
    ensures StampedByClaim(log + [e], t')
  {
    var i :| 0 <= i < |log| && log[i].Claimed? && log[i].uid == t.uid
             && t.status.claimedBy == Some(log[i].worker) && t.status.claimedAt == ToStamp(log[i].at);
    assert (log + [e])[i] == log[i];
  }

  lemma ReportSucceeds(cfg: Config, s: State, id: nat, base: Task, status: Status)
    requires Inv(s) && Life(cfg, s) && Reportable(s, id, base, status)
    ensures base.status.phase.Running? || base.status.phase.Expired?
    ensures HasClaim(s.log, base.uid, id) && base.uid in s.history && s.history[base.uid].name == base.name
    ensures forall k :: k in s.attempts && s.attempts[k].Won() && !s.attempts[k].Finished? ==> s.attempts[k].obj.uid != base.uid
  {
    assert Committed(s, base);
    assert VersionOk(s, base.version);
    assert AttemptLife(s.log, id, s.attempts[id]);
    assert VersionLife(s.store, s.log, s.history[base.version]);
    forall k | k in s.attempts && s.attempts[k].Won() && !s.attempts[k].Finished? ensures s.attempts[k].obj.uid != base.uid {
      assert AttemptLife(s.log, k, s.attempts[k]);
      if s.attempts[k].obj.uid == base.uid {
        SameTaskSameClaimer(s, base.uid, id, k);
      }
    }
  }

  lemma ReportIsLawful(cfg: Config, s: State, id: nat, base: Task, status: Status, e: Event)
    requires Inv(s) && Life(cfg, s) && Reportable(s, id, base, status)
    requires e.Reported? && e == Reported(base.uid, id, base.status.phase, status.phase, e.at)
    ensures var c := Commit(s, base.(version := s.store.version + 1, status := status), e);
            EventLife(cfg, c.store, c.history, s.log + [e], e)
  {
    ReportSucceeds(cfg, s, id, base, status);
    AppendKeepsClaim(s.log, e, base.uid, id);
  }

  lemma ReportFollows(s: State, id: nat, base: Task, status: Status)
    requires Reportable(s, id, base, status) && (base.status.phase.Running? || base.status.phase.Expired?)
    ensures Succeeds(s, base.(version := s.store.version + 1, status := status))
  {
  }

  lemma ReportCommits(cfg: Config, s: State, id: nat, base: Task, status: Status, at: Time)
    requires Inv(s) && Life(cfg, s) && Reportable(s, id, base, status)
    ensures Life(cfg, Commit(s, base.(version := s.store.version + 1, status := status),
                             Reported(base.uid, id, base.status.phase, status.phase, at)))
  {
    var t := base.(version := s.store.version + 1, status := status);
    var e := Reported(base.uid, id, base.status.phase, status.phase, at);
    ReportIsTrue(cfg, s, id, base, status, e);
    ReportIsLawful(cfg, s, id, base, status, e);
    ReportSucceeds(cfg, s, id, base, status);
    ReportFollows(s, id, base, status);
    CommitKeepsLife(cfg, s, t, e);
  }

  /** An expiry is late: the claim it ends was stamped more than ActiveDeadline - 1s before. */
  lemma ExpireIsLate(cfg: Config, s: State, base: Task, now: Time, stamp: Time, e: Event)
    requires Inv(s) && Life(cfg, s)
    requires base.name in s.store.objects && s.store.objects[base.name] == base
    requires base.status.phase.Running? && IsStuck(cfg, base, now)
    requires e == Lapsed(base.uid, Running, now)
    ensures var t := base.(version := s.store.version + 1, status := ExpiredStatus(base.status, stamp));
            VersionLife(Commit(s, t, e).store, Commit(s, t, e).log, t)
    ensures Overdue(cfg, s.log + [e], base.uid, now)
    ensures base.uid in s.history && s.history[base.uid].name == base.name
    ensures forall i :: 0 <= i < |s.log| && s.log[i].Lapsed? ==> s.log[i].uid != base.uid
  {
    var t := base.(version := s.store.version + 1, status := ExpiredStatus(base.status, stamp));
    var log' := s.log + [e];
    assert Committed(s, base);
    assert VersionLife(s.store, s.log, s.history[base.version]);
    assert VersionOk(s, base.version);
    AppendKeepsEvents(s.log, e);
    var k :| 0 <= k < |s.log| && s.log[k].Claimed? && s.log[k].uid == base.uid
             && base.status.claimedBy == Some(s.log[k].worker) && base.status.claimedAt == ToStamp(s.log[k].at);
    assert log'[k] == s.log[k];
    assert StampedByClaim(log', t);
    StampTruncates(s.log[k].at);
    forall i | 0 <= i < |s.log| && s.log[i].Lapsed? ensures s.log[i].uid != base.uid {
      assert EventLife(cfg, s.store, s.history, s.log, s.log[i]);
    }
  }

  lemma ExpireKeepsLife(cfg: Config, s: State, j: nat, name: string, now: Time)
    requires Inv(s) && Life(cfg, s)
    ensures Life(cfg, DoExpire(cfg, s, j, name, now))
  {
    var s' := DoExpire(cfg, s, j, name, now);
    if s' != s {
      var w := s.sweeps[j];
      assert SweepHeld(s, w);
      var base := w.listed[name];
      var status := ExpiredStatus(base.status, now);
      CurrentIsStored(s, base, status);
      var e := Lapsed(base.uid, Running, w.now.value);
      var t := base.(version := s.store.version + 1, status := status);
      assert s' == Commit(s, t, e);
      ExpireIsLate(cfg, s, base, w.now.value, now, e);
      CommitKeepsLife(cfg, s, t, e);
    }
  }

  /** With fresh names a delete removes the listed task itself, which is terminal by then too. */
  lemma DeleteHitsTerminal(cfg: Config, s: State, j: nat, name: string)
    requires Inv(s) && Life(cfg, s) && FreshNames(s.log)
    requires j in s.sweeps && name in s.sweeps[j].listed && s.sweeps[j].listed[name].status.phase.Terminal()
    requires name in s.store.objects
    ensures s.store.objects[name].uid == s.sweeps[j].listed[name].uid
    ensures s.store.objects[name].status.phase.Terminal()
  {
    assert SweepHeld(s, s.sweeps[j]);
    var h := s.sweeps[j].listed[name];
    var t := s.store.objects[name];
    assert Committed(s, t) && Committed(s, h);
    assert VersionLife(s.store, s.log, s.history[h.version]);
    assert VersionLife(s.store, s.log, s.history[t.version]);
    SameNameSameTask(s.log, t.uid, h.uid, name);
  }

  lemma RemovalKeepsLife(cfg: Config, s: State, name: string)
    requires Life(cfg, s)
    ensures Life(cfg, s.(store := Tasks.Delete(s.store, name)))
  {
    var s' := s.(store := Tasks.Delete(s.store, name));
    forall v | v in s'.history ensures VersionLife(s'.store, s'.log, s'.history[v]) {
      assert VersionLife(s.store, s.log, s.history[v]);
    }
    forall i | 0 <= i < |s'.log| ensures EventLife(cfg, s'.store, s'.history, s'.log, s'.log[i]) {
      assert EventLife(cfg, s.store, s.history, s.log, s.log[i]);
    }
  }

  lemma DeleteKeepsLife(cfg: Config, s: State, j: nat, name: string, tLast: Time)
    requires Inv(s) && Life(cfg, s) && FreshNames(s.log)
    ensures Life(cfg, DoDelete(cfg, s, j, name, tLast))
  {
    var s' := DoDelete(cfg, s, j, name, tLast);
    if s' != s {
      DeleteHitsTerminal(cfg, s, j, name);
      var e := Deleted(s.store.objects[name].uid, s.store.objects[name].status.phase, s.clock);
      LogKeepsLife(cfg, s, e);
      AppendKeepsAttempts(s, e);
      RemovalKeepsLife(cfg, s.(log := s.log + [e]), name);
    }
  }

  lemma ExecKeepsLife(cfg: Config, s: State, step: Step)
    requires Inv(s) && Life(cfg, s) && FreshNames(s.log)
    ensures Life(cfg, Exec(cfg, s, step))
  {
    match step
    case Tick(d) =>
    case PublishTask(name, spec, origin) => PublishKeepsLife(cfg, s, name, spec, origin);
    case Watch(id, worker, obj) =>
      AttemptKeepsLife(cfg, s, id, Claiming(obj, worker, s.clock));
    case Claim(id, actions) => ClaimKeepsLife(cfg, s, id, actions);
    case RunAction(id, outcome) => RunKeepsLife(cfg, s, id, outcome);
    case Reread(id) => RereadKeepsLife(cfg, s, id);
    case Report(id, now) => ReportKeepsLife(cfg, s, id, now);
    case ListTasks(j) =>
    case ReadClock(j) =>
    case Expire(j, name, now) => ExpireKeepsLife(cfg, s, j, name, now);
    case DeleteTask(j, name, tLast) => DeleteKeepsLife(cfg, s, j, name, tLast);
  }

  /** The log only grows. */
  lemma ExecExtendsLog(cfg: Config, s: State, step: Step)
    ensures s.log <= Exec(cfg, s, step).log
  {
  }

  lemma FreshPrefix(cfg: Config, steps: seq<Step>)
    requires steps != [] && FreshNames(Run(cfg, steps).log)
    ensures FreshNames(Run(cfg, steps[..|steps| - 1]).log)
  {
    var before := Run(cfg, steps[..|steps| - 1]);
    ExecExtendsLog(cfg, before, steps[|steps| - 1]);
    assert forall i :: 0 <= i < |before.log| ==> before.log[i] == Run(cfg, steps).log[i];
  }

  lemma {:induction false} RunLife(cfg: Config, steps: seq<Step>)
    requires FreshNames(Run(cfg, steps).log)
    ensures Life(cfg, Run(cfg, steps))
  {
    if steps != [] {
      var before, step := Run(cfg, steps[..|steps| - 1]), steps[|steps| - 1];
      FreshPrefix(cfg, steps);
      RunLife(cfg, steps[..|steps| - 1]);
      RunInv(cfg, steps[..|steps| - 1]);
      ExecKeepsLife(cfg, before, step);
    }
  }

  // ---------------------------------------------------------------- theorems

  /** A report comes from the unique claimer and moves Running or Expired to Completed or Failed; an
      expiry ends Running only, and only after the deadline as far as whole-second stamps can tell; a
      delete removes only a terminal task. */
  ghost predicate LawfulWrite(cfg: Config, log: Log, e: Event) {
    match e
    case Reported(uid, attempt, prior, next, _) =>
      && (prior == Running || prior == Expired) && (next == Completed || next == Failed)
      && HasClaim(log, uid, attempt)
    case Lapsed(uid, prior, at) =>
      && prior == Running
      && (exists k :: 0 <= k < |log| && log[k].Claimed? && log[k].uid == uid && at + SECOND > log[k].at + cfg.activeDeadline)
    case Deleted(uid, prior, _) => prior == Completed || prior == Failed || prior == Expired
    case _ => true
  }

  /** Every committed write of every run is lawful. */
  lemma PhaseSafety(cfg: Config, steps: seq<Step>, i: nat)
    requires FreshNames(Run(cfg, steps).log) && i < |Run(cfg, steps).log|
    ensures LawfulWrite(cfg, Run(cfg, steps).log, Run(cfg, steps).log[i])
  {
    RunLife(cfg, steps);
    var s := Run(cfg, steps);
    assert EventLife(cfg, s.store, s.history, s.log, s.log[i]);
  }

  /** A step that writes a version commits it. */
  lemma WriteIsCommit(cfg: Config, s: State, step: Step) returns (t: Task, e: Event)
    requires StoreOk(s) && Exec(cfg, s, step).store.version != s.store.version
    ensures t.version == s.store.version + 1
    ensures var s' := Exec(cfg, s, step); s' == Commit(s, t, e).(attempts := s'.attempts)
  {
    hide OutcomeStatus, ClaimStatus, ExpiredStatus;
    var s' := Exec(cfg, s, step);
    t, e := s'.history[s.store.version + 1], s'.log[|s.log|];
  }

  lemma OthersKeepHistory(cfg: Config, s: State, step: Step)
    requires Exec(cfg, s, step).store.version == s.store.version
    ensures Exec(cfg, s, step).history == s.history
  {
    hide OutcomeStatus, ClaimStatus, ExpiredStatus;
  }

  /** A version that a step adds to the history is the stored one, and newer than all before it. */
  lemma NewVersionIsStored(cfg: Config, s: State, step: Step, t: Task)
    requires Inv(s) && Inv(Exec(cfg, s, step)) && Committed(Exec(cfg, s, step), t)
    ensures Committed(s, t)
            || (t.name in Exec(cfg, s, step).store.objects && Exec(cfg, s, step).store.objects[t.name] == t && t.version > s.store.version)
  {
    hide Exec, VersionsOk, HeldOk, ClaimsOk;
    if Exec(cfg, s, step).store.version == s.store.version {
      OthersKeepHistory(cfg, s, step);
    } else {
      var t', e := WriteIsCommit(cfg, s, step);
    }
  }

  /** Along all the versions a task ever had its phase only moves forward: from unset to Running,
      from there to a terminal phase, and from Expired to Completed or Failed, which are final. */
  lemma {:induction false} PhasesMoveForward(cfg: Config, steps: seq<Step>, t: Task, t': Task)
    requires FreshNames(Run(cfg, steps).log)
    requires Committed(Run(cfg, steps), t) && Committed(Run(cfg, steps), t')
    requires t.uid == t'.uid && t.version <= t'.version
    ensures PhaseLe(t.status.phase, t'.status.phase)
  {
    if steps != [] {
      var before, s := Run(cfg, steps[..|steps| - 1]), Run(cfg, steps);
      RunInv(cfg, steps[..|steps| - 1]);
      RunInv(cfg, steps);
      NewVersionIsStored(cfg, before, steps[|steps| - 1], t);
      NewVersionIsStored(cfg, before, steps[|steps| - 1], t');
      if Committed(before, t') {
        assert VersionOk(before, t'.version);
        FreshPrefix(cfg, steps);
        PhasesMoveForward(cfg, steps[..|steps| - 1], t, t');
      } else {
        RunLife(cfg, steps);
        assert VersionOk(s, t.version) && VersionOk(s, t'.version);
        assert VersionLife(s.store, s.log, s.history[t.version]);
      }
    }
  }

  /** A task expires at most once and is reported at most once. */
  lemma ExpiredAndReportedOnce(cfg: Config, steps: seq<Step>, i: nat, j: nat)
    requires FreshNames(Run(cfg, steps).log) && i < j < |Run(cfg, steps).log|
    ensures var log := Run(cfg, steps).log;
            (log[i].Lapsed? && log[j].Lapsed?) || (log[i].Reported? && log[j].Reported?) ==> log[i].uid != log[j].uid
  {
    RunLife(cfg, steps);
  }

  /** Who claimed a task, and when, is written once: every version after the first says the same. */
  lemma ClaimFieldsWrittenOnce(cfg: Config, steps: seq<Step>, t: Task, t': Task)
    requires FreshNames(Run(cfg, steps).log)
    requires Committed(Run(cfg, steps), t) && Committed(Run(cfg, steps), t') && t.uid == t'.uid
    ensures t.IsPending() ==> t.status.claimedBy == None && t.status.claimedAt == Absent
    ensures !t.IsPending() && !t'.IsPending() ==>
              && t.status.claimedBy == t'.status.claimedBy && t.status.claimedAt == t'.status.claimedAt
              && StampedByClaim(Run(cfg, steps).log, t)
  {
    RunInv(cfg, steps);
    RunLife(cfg, steps);
    var s := Run(cfg, steps);
    assert VersionLife(s.store, s.log, s.history[t.version]);
    assert VersionLife(s.store, s.log, s.history[t'.version]);
  }

  /** Every executor call ever made for task `t`, by its claimer, along the sorted action list. */
  ghost predicate RanInOrder(log: Log, t: Task, sorted: seq<ActionConfig>) {
    var r := RunsOf(log, t.uid);
    && SortedFrom(FromTaskActions(t.spec.actions), sorted)
    && |r| <= |sorted|
    && forall k :: 0 <= k < |r| ==> r[k].action == sorted[k] && HasClaim(log, t.uid, r[k].attempt)
  }

  /** No executor call among the first n returned an error or the status "failed". */
  ghost predicate NoneFailed(r: seq<Call>, n: int)
    requires n <= |r|
  {
    forall k :: 0 <= k < n ==> r[k].outcome.err == None && r[k].outcome.status != ActionFailed
  }

  /** The last executor call, and only that, returned an error or the status "failed". */
  ghost predicate OnlyLastFailed(r: seq<Call>) {
    && r != [] && NoneFailed(r, |r| - 1)
    && var last := r[|r| - 1].outcome; last.err != None || last.status == ActionFailed
  }

  ghost function OutcomesOf(r: seq<Call>): seq<Outcome> {
    seq(|r|, k requires 0 <= k < |r| => r[k].outcome)
  }

  lemma ExecutedInOrder(log: Log, t: Task, id: nat, actions: seq<ActionConfig>, outcomes: seq<Outcome>)
    requires Executed(log, t, id, actions, outcomes)
    ensures RanInOrder(log, t, actions) && SortedFrom(FromTaskActions(t.spec.actions), actions) && RunsUntilFailure(actions, outcomes)
    ensures var r := RunsOf(log, t.uid);
            OutcomesOf(r) == outcomes && forall k :: 0 <= k < |r| ==> r[k].outcome == outcomes[k]
  {
    hide RunsOf, HasClaim, SortedFrom, FromTaskActions;
  }

  lemma TruthOfCompleted(log: Log, t: Task)
    requires CompletedTruly(log, t)
    ensures var r := RunsOf(log, t.uid);
            && |r| == t.status.actionsCompleted == |FromTaskActions(t.spec.actions)| && NoneFailed(r, |r|)
            && TellsLast(t.status.result, true, OutcomesOf(r))
    ensures exists sorted :: RanInOrder(log, t, sorted)
  {
    hide RunsOf, Executed, RanInOrder, SortedFrom, FromTaskActions;
    var id, actions, outcomes :| Executed(log, t, id, actions, outcomes) && !AnyFailed(outcomes)
                                 && t.status.actionsCompleted == |outcomes| == |actions|
                                 && TellsLast(t.status.result, true, outcomes);
    ExecutedInOrder(log, t, id, actions, outcomes);
    SortedFromLength(FromTaskActions(t.spec.actions), actions);
  }

  lemma TruthOfFailed(log: Log, t: Task)
    requires FailedTruly(log, t)
    ensures var r := RunsOf(log, t.uid);
            |r| == t.status.actionsCompleted + 1 && OnlyLastFailed(r) && TellsLast(t.status.result, false, OutcomesOf(r))
    ensures exists sorted :: RanInOrder(log, t, sorted)
  {
    hide RunsOf, Executed, RanInOrder, SortedFrom, FromTaskActions, SuccessCount;
    var id, actions, outcomes :| Executed(log, t, id, actions, outcomes) && AnyFailed(outcomes)
                                 && t.status.actionsCompleted + 1 == |outcomes|
                                 && TellsLast(t.status.result, false, outcomes);
    ExecutedInOrder(log, t, id, actions, outcomes);
    FailedRunCount(actions, outcomes);
  }

  /** What a final status says is what was executed. Completed: the unique claimer ran the whole
      action list in order without a failure, and actionsCompleted is its length. Failed: it ran
      exactly one action more than actionsCompleted says, in order; all but the last succeeded and
      the last failed. The result tells which, with the message and the error of the last call. No
      other executor call was made for the task. */
  ghost predicate TrueOutcome(log: Log, t: Task) {
    t.status.phase == Completed || t.status.phase == Failed ==>
      && (exists sorted :: RanInOrder(log, t, sorted))
      && var r := RunsOf(log, t.uid);
         && TellsLast(t.status.result, t.status.phase == Completed, OutcomesOf(r))
         && if t.status.phase == Completed
            then |r| == t.status.actionsCompleted == |FromTaskActions(t.spec.actions)| && NoneFailed(r, |r|)
            else |r| == t.status.actionsCompleted + 1 && OnlyLastFailed(r)
  }

  /** In every reachable store the outcomes are true, even where a report overwrote an expiry. */
  lemma {:induction false} OutcomesAreTrue(cfg: Config, steps: seq<Step>, t: Task)
    requires FreshNames(Run(cfg, steps).log) && Committed(Run(cfg, steps), t)
    ensures TrueOutcome(Run(cfg, steps).log, t)
  {
    RunLife(cfg, steps);
    var s := Run(cfg, steps);
    assert VersionLife(s.store, s.log, s.history[t.version]);
    if t.status.phase == Completed {
      TruthOfCompleted(s.log, t);
    } else if t.status.phase == Failed {
      TruthOfFailed(s.log, t);
    }
  }
}
