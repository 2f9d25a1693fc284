/** Runs of the whole pipeline in which a final phase does not stay final, or a task is hit by a report
    or a delete meant for another one. Every task has an action that runs and succeeds. Where a name
    is used twice the two tasks come from two resources of one name in two namespaces, which the
    generated name does not tell apart. */
module FailingRuns {
  import opened Types
  import opened Actions
  import opened Tasks
  import opened Naming
  import D = Detection
  import Q = TaskQueue
  import R = Remediation
  import P = Pipeline
  import S = StampedNames
  import L = TaskLifecycle

  ghost predicate Reachable(cfg: P.Config, p: P.State) {
    exists steps :: P.Run(cfg, steps) == p
  }

  lemma StepTo(cfg: P.Config, p: P.State, step: P.Step)
    requires Reachable(cfg, p)
    ensures Reachable(cfg, P.Exec(cfg, p, step))
  {
    var steps :| P.Run(cfg, steps) == p;
    assert (steps + [step])[..|steps|] == steps;
    assert P.Run(cfg, steps + [step]) == P.Exec(cfg, p, step);
  }

  lemma QueueStep(cfg: P.Config, p: P.State, q: Q.Step) returns (p': P.State)
    requires Reachable(cfg, p) && !q.PublishTask?
    ensures Reachable(cfg, p') && p' == p.(queue := Q.Exec(cfg.queue, p.queue, q))
  {
    StepTo(cfg, p, P.Queue(q));
    p' := P.Exec(cfg, p, P.Queue(q));
  }

  /** A scenario, an action, and the resources of one name it detects. */
  datatype Scene = Scene(cfg: P.Config, lower: char -> char, scenarioID: string, kind: string, resource: string, action: ActionConfig)
  {
    predicate Valid() {
      cfg.remediation.Validated() && '/' !in scenarioID && '/' !in kind
    }

    function Target(ns: string): ResourceReference {
      ResourceReference("v1", kind, ns, resource, "")
    }

    function Key(ns: string): string {
      StateKey(scenarioID, Target(ns))
    }

    function NameAt(t: Time): string {
      TaskName(lower, scenarioID, resource, t / MILLI)
    }

    /** What the engine reports for it. */
    function Result(ns: string): D.DetectionResult {
      D.DetectionResult(scenarioID, "", Target(ns), "", 0, 0, 1, [action])
    }

    function SpecOf(ns: string): Spec {
      P.TaskSpec(cfg, Result(ns), Target(ns), [action])
    }

    /** The action as the worker reads it. */
    function Read(): ActionConfig {
      Printed(cfg.render, action)
    }
  }

  const DONE := Outcome(ActionSucceeded, "done", "", None)

  lemma KeysOfNamespaces(w: Scene)
    requires w.Valid()
    ensures w.Key("a") != w.Key("b")
  {
    StateKeyEqualIff(w.scenarioID, w.Target("a"), w.scenarioID, w.Target("b"));
    assert ("a" + "/" + w.resource)[0] != ("b" + "/" + w.resource)[0];
  }

  lemma ReadsBack(w: Scene, ns: string)
    ensures FromTaskActions(w.SpecOf(ns).actions) == [w.Read()]
  {
    PublishExtractRoundTrip(w.cfg.render, [w.action]);
  }

  /** A detection for a key without state is published and recorded at once. */
  lemma Publishes(w: Scene, p: P.State, ns: string, name: string) returns (p': P.State)
    requires w.Valid() && Reachable(w.cfg, p) && p.busy.Idle? && w.Key(ns) !in p.states && name !in p.queue.store.objects
    ensures Reachable(w.cfg, p') && p'.busy.Idle?
    ensures p'.queue == Q.DoPublish(p.queue, name, w.SpecOf(ns), w.Key(ns))
    ensures forall k :: k in p'.states ==> k in p.states || k == w.Key(ns)
  {
    var now := p.queue.clock;
    var detect := P.Detect(w.Result(ns), true);
    StepTo(w.cfg, p, detect);
    var p1 := P.Exec(w.cfg, p, detect);
    assert p1 == p.(busy := P.Publishing(w.Result(ns), now));
    var publish := P.Publish(name, w.Target(ns), [w.action], false);
    StepTo(w.cfg, p1, publish);
    var p2 := P.Exec(w.cfg, p1, publish);
    assert p2.busy == P.Acted(w.Key(ns), now, now, None);
    StepTo(w.cfg, p2, P.Record(now));
    p' := P.Exec(w.cfg, p2, P.Record(now));
  }

  /** A status update of the only object stored. */
  lemma StatusWritten(store: Store, t: Task, status: Status)
    requires store.objects == map[t.name := t]
    ensures var v := store.version + 1;
            Tasks.UpdateStatus(store, t.(status := status)) == (Store(map[t.name := t.(version := v, status := status)], v), true)
  {
    var t' := t.(version := store.version + 1, status := status);
    assert store.objects[t.name := t'] == map[t.name := t'];
  }

  lemma FirstPublish(t: Time, name: string, spec: Spec, key: string)
    ensures var b := Task(name, 1, 1, t / SECOND * SECOND, spec, NO_STATUS);
            Q.DoPublish(Q.INIT.(clock := t), name, spec, key)
            == Q.State(t, Store(map[name := b], 1), map[1 := b], map[], map[], [Q.Created(1, name, key, t)])
  {
  }

  /** The first claim of the only task. */
  lemma FirstClaim(t: Time, b: Task, e: Q.Event, action: ActionConfig)
    requires b.version == b.uid == 1 && FromTaskActions(b.spec.actions) == [action]
    ensures var b' := b.(version := 2, status := ClaimStatus(b.status, "worker", t));
            Q.DoClaim(Q.State(t, Store(map[b.name := b], 1), map[1 := b], map[0 := Q.Claiming(b, "worker", t)], map[], [e]), 0, [action])
            == Q.State(t, Store(map[b.name := b'], 2), map[1 := b, 2 := b'], map[0 := Q.Executing(b, [action], [])], map[],
                       [e, Q.Claimed(1, 0, "worker", t)])
  {
    var s := Q.State(t, Store(map[b.name := b], 1), map[1 := b], map[0 := Q.Claiming(b, "worker", t)], map[], [e]);
    var status := ClaimStatus(b.status, "worker", t);
    var b' := b.(version := 2, status := status);
    StatusWritten(s.store, b, status);
    assert SortedFrom([action], [action]);
    var s' := Q.DoClaim(s, 0, [action]);
    assert s'.store.objects == map[b.name := b'];
    assert s'.history == map[1 := b, 2 := b'];
    assert s'.log == [e, Q.Claimed(1, 0, "worker", t)];
  }

  // ---------------------------------------------------------------- the first task

  function Born(w: Scene, t: Time): Task {
    Task(w.NameAt(t), 1, 1, t / SECOND * SECOND, w.SpecOf("a"), NO_STATUS)
  }

  function InWork(w: Scene, t: Time): Task {
    Task(w.NameAt(t), 1, 2, t / SECOND * SECOND, w.SpecOf("a"), ClaimStatus(NO_STATUS, "worker", t))
  }

  function FirstCreated(w: Scene, t: Time): Q.Event {
    Q.Created(1, w.NameAt(t), w.Key("a"), t)
  }

  /** The pipeline is idle, and the second resource has no state yet. */
  predicate Ready(w: Scene, p: P.State) {
    p.busy.Idle? && w.Key("b") !in p.states
  }

  lemma Waited(w: Scene, t: Time) returns (p: P.State)
    ensures Reachable(w.cfg, p) && p == P.INIT.(queue := Q.INIT.(clock := t))
  {
    assert P.Run(w.cfg, []) == P.INIT;
    p := QueueStep(w.cfg, P.INIT, Q.Tick(t));
  }

  /** At time t the leader publishes a task */
  lemma Published(w: Scene, t: Time) returns (p: P.State)
    requires w.Valid()
    ensures Reachable(w.cfg, p) && Ready(w, p)
    ensures p.queue == Q.State(t, Store(map[w.NameAt(t) := Born(w, t)], 1), map[1 := Born(w, t)], map[], map[], [FirstCreated(w, t)])
  {
    hide Reachable, Q.DoPublish;
    p := Waited(w, t);
    KeysOfNamespaces(w);
    FirstPublish(t, w.NameAt(t), w.SpecOf("a"), w.Key("a"));
    p := Publishes(w, p, "a", w.NameAt(t));
  }

  function Watching(w: Scene, t: Time): Q.State {
    Q.State(t, Store(map[w.NameAt(t) := Born(w, t)], 1), map[1 := Born(w, t)],
            map[0 := Q.Claiming(Born(w, t), "worker", t)], map[], [FirstCreated(w, t)])
  }

  /** and a worker sees it, */
  lemma Watched(w: Scene, t: Time) returns (p: P.State)
    requires w.Valid()
    ensures Reachable(w.cfg, p) && Ready(w, p) && p.queue == Watching(w, t)
  {
    p := Published(w, t);
    p := QueueStep(w.cfg, p, Q.Watch(0, "worker", Born(w, t)));
  }

  /** whose claim is committed */
  lemma ClaimCommits(w: Scene, t: Time)
    ensures Q.DoClaim(Watching(w, t), 0, [w.Read()])
         == Q.State(t, Store(map[w.NameAt(t) := InWork(w, t)], 2), map[1 := Born(w, t), 2 := InWork(w, t)],
                    map[0 := Q.Executing(Born(w, t), [w.Read()], [])], map[],
                    [FirstCreated(w, t), Q.Claimed(1, 0, "worker", t)])
  {
    ReadsBack(w, "a");
    FirstClaim(t, Born(w, t), FirstCreated(w, t), w.Read());
  }

  lemma Claimed(w: Scene, t: Time) returns (p: P.State)
    requires w.Valid()
    ensures Reachable(w.cfg, p) && Ready(w, p)
    ensures p.queue == Q.State(t, Store(map[w.NameAt(t) := InWork(w, t)], 2), map[1 := Born(w, t), 2 := InWork(w, t)],
                               map[0 := Q.Executing(Born(w, t), [w.Read()], [])], map[],
                               [FirstCreated(w, t), Q.Claimed(1, 0, "worker", t)])
  {
    p := Watched(w, t);
    ClaimCommits(w, t);
    p := QueueStep(w.cfg, p, Q.Claim(0, [w.Read()]));
  }

  /** and runs its action. */
  lemma Ran(w: Scene, t: Time) returns (p: P.State)
    requires w.Valid()
    ensures Reachable(w.cfg, p) && Ready(w, p)
    ensures p.queue.clock == t && p.queue.store == Store(map[w.NameAt(t) := InWork(w, t)], 2)
    ensures p.queue.attempts == map[0 := Q.Executing(Born(w, t), [w.Read()], [DONE])] && p.queue.sweeps == map[]
    ensures p.queue.log == [FirstCreated(w, t), Q.Claimed(1, 0, "worker", t), Q.Ran(1, 0, w.Read(), DONE)]
  {
    p := Claimed(w, t);
    p := QueueStep(w.cfg, p, Q.RunAction(0, DONE));
    assert [] + [DONE] == [DONE];
  }

  lemma OneSuccess()
    ensures SuccessCount([DONE]) == 1 && !AnyFailed([DONE]) && LastOutcome([DONE]) == DONE
    ensures forall a :: Stopped([a], [DONE])
  {
    assert [DONE][..0] == [];
  }

  /** The worker reports at time `now` on whatever is stored under its task's name. */
  lemma Reports(w: Scene, p: P.State, obj: Task) returns (p': P.State)
    requires Reachable(w.cfg, p)
    requires 0 in p.queue.attempts && p.queue.attempts[0] == Q.Executing(obj, [w.Read()], [DONE])
    requires obj.name in p.queue.store.objects && p.queue.store.objects[obj.name].name == obj.name
    ensures Reachable(w.cfg, p') && p'.busy == p.busy && p'.states == p.states
    ensures var t := p.queue.store.objects[obj.name];
            var t' := t.(version := p.queue.store.version + 1, status := OutcomeStatus(t.status, p.queue.clock, 1, true, DONE));
            && p'.queue.clock == p.queue.clock && p'.queue.sweeps == p.queue.sweeps
            && p'.queue.store == Store(p.queue.store.objects[obj.name := t'], p.queue.store.version + 1)
            && p'.queue.log == p.queue.log + [Q.Reported(t.uid, 0, t.status.phase, Completed, p.queue.clock)]
  {
    OneSuccess();
    p' := QueueStep(w.cfg, p, Q.Reread(0));
    p' := QueueStep(w.cfg, p', Q.Report(0, p.queue.clock));
  }

  lemma Later(w: Scene, p: P.State, t: Time) returns (p': P.State)
    requires Reachable(w.cfg, p) && p.queue.clock <= t
    ensures Reachable(w.cfg, p') && p' == p.(queue := p.queue.(clock := t))
  {
    p' := QueueStep(w.cfg, p, Q.Tick(t - p.queue.clock));
  }

  /** A janitor lists all tasks and reads the clock. */
  lemma SweepStarts(w: Scene, p: P.State, j: nat) returns (p': P.State)
    requires Reachable(w.cfg, p)
    ensures Reachable(w.cfg, p')
    ensures p' == p.(queue := p.queue.(sweeps := p.queue.sweeps[j := Q.Sweep(p.queue.store.objects, Some(p.queue.clock))]))
  {
    p' := QueueStep(w.cfg, p, Q.ListTasks(j));
    p' := QueueStep(w.cfg, p', Q.ReadClock(j));
  }

  /** A janitor deletes what is stored under the name of the one task it listed. */
  lemma Deletes(w: Scene, p: P.State, j: nat, t: Task) returns (p': P.State)
    requires Reachable(w.cfg, p) && w.cfg.queue.trailingRetention == 0
    requires j in p.queue.sweeps && p.queue.sweeps[j].listed == map[t.name := t] && p.queue.sweeps[j].now.Some?
    requires t.status.phase.Terminal() && p.queue.sweeps[j].now.value > Q.TerminalInstant(t) + w.cfg.queue.retentionPeriod
    requires t.name in p.queue.store.objects
    ensures Reachable(w.cfg, p')
    ensures var hit := p.queue.store.objects[t.name];
            p' == p.(queue := p.queue.(store := Tasks.Delete(p.queue.store, t.name),
                                       log := p.queue.log + [Q.Deleted(hit.uid, hit.status.phase, p.queue.clock)]))
  {
    assert t.name in p.queue.sweeps[j].listed && p.queue.sweeps[j].listed[t.name] == t;
    assert Q.IsLastTerminal(p.queue.sweeps[j].listed, Q.TerminalInstant(t));
    p' := QueueStep(w.cfg, p, Q.DeleteTask(j, t.name, Q.TerminalInstant(t)));
  }

  /** The second resource gets a task under the same name. */
  lemma PublishesAgain(w: Scene, p: P.State, name: string) returns (p': P.State)
    requires w.Valid() && Reachable(w.cfg, p) && Ready(w, p) && p.queue.store == Store(map[], 3)
    ensures Reachable(w.cfg, p')
    ensures p'.queue == Q.DoPublish(p.queue, name, w.SpecOf("b"), w.Key("b"))
    ensures p'.queue.store == Store(map[name := Task(name, 4, 4, p.queue.clock / SECOND * SECOND, w.SpecOf("b"), NO_STATUS)], 4)
    ensures p'.queue.log == p.queue.log + [Q.Created(4, name, w.Key("b"), p.queue.clock)]
    ensures p'.queue.attempts == p.queue.attempts && p'.queue.sweeps == p.queue.sweeps && p'.queue.clock == p.queue.clock
  {
    p' := Publishes(w, p, "b", name);
  }

  // ---------------------------------------------------------------- an expiry is overwritten

  function Overran(w: Scene, t: Time, late: Time): Task {
    Task(w.NameAt(t), 1, 3, t / SECOND * SECOND, w.SpecOf("a"), ExpiredStatus(InWork(w, t).status, late))
  }

  /** A janitor expires the one task it listed, which is still as it was. */
  lemma Expires(w: Scene, p: P.State, j: nat, t: Task) returns (p': P.State)
    requires Reachable(w.cfg, p) && p.queue.store.objects == map[t.name := t]
    requires j in p.queue.sweeps && p.queue.sweeps[j] == Q.Sweep(map[t.name := t], Some(p.queue.clock))
    requires t.status.phase == Running && Q.IsStuck(w.cfg.queue, t, p.queue.clock)
    ensures Reachable(w.cfg, p') && p'.busy == p.busy && p'.states == p.states
    ensures p'.queue.clock == p.queue.clock && p'.queue.attempts == p.queue.attempts
    ensures var v := p.queue.store.version + 1;
            p'.queue.store == Store(map[t.name := t.(version := v, status := ExpiredStatus(t.status, p.queue.clock))], v)
    ensures p'.queue.log == p.queue.log + [Q.Lapsed(t.uid, Running, p.queue.clock)]
  {
    StatusWritten(p.queue.store, t, ExpiredStatus(t.status, p.queue.clock));
    p' := QueueStep(w.cfg, p, Q.Expire(j, t.name, p.queue.clock));
  }

  /** While the worker is busy a janitor lists its task, finds it stuck and expires it. */
  lemma ExpiredWhileBusy(w: Scene, t: Time, late: Time) returns (p: P.State)
    requires w.Valid() && t <= late && late > t / SECOND * SECOND + w.cfg.queue.activeDeadline
    ensures Reachable(w.cfg, p) && Ready(w, p)
    ensures p.queue.clock == late && p.queue.store == Store(map[w.NameAt(t) := Overran(w, t, late)], 3)
    ensures p.queue.attempts == map[0 := Q.Executing(Born(w, t), [w.Read()], [DONE])]
    ensures p.queue.log == [FirstCreated(w, t), Q.Claimed(1, 0, "worker", t), Q.Ran(1, 0, w.Read(), DONE), Q.Lapsed(1, Running, late)]
  {
    p := Ran(w, t);
    p := Later(w, p, late);
    p := SweepStarts(w, p, 0);
    p := Expires(w, p, 0, InWork(w, t));
  }

  /** Whatever the configuration, and however long after the deadline: a worker that reports late turns
      Expired into Completed. */
  lemma ExpiredCanBeOverwritten(w: Scene, t: Time, late: Time)
    requires w.Valid() && t <= late && late > t / SECOND * SECOND + w.cfg.queue.activeDeadline
    ensures exists p :: Reachable(w.cfg, p) && p.queue.log == [
              FirstCreated(w, t), Q.Claimed(1, 0, "worker", t), Q.Ran(1, 0, w.Read(), DONE), Q.Lapsed(1, Running, late),
              Q.Reported(1, 0, Expired, Completed, late)]
  {
    var p := ExpiredWhileBusy(w, t, late);
    p := Reports(w, p, Born(w, t));
  }

  // ---------------------------------------------------------------- a name is used twice

  function Finished(w: Scene, t: Time): Task {
    Task(w.NameAt(t), 1, 3, t / SECOND * SECOND, w.SpecOf("a"), OutcomeStatus(InWork(w, t).status, t, 1, true, DONE))
  }

  lemma ReportedAtOnce(w: Scene, t: Time) returns (p: P.State)
    requires w.Valid()
    ensures Reachable(w.cfg, p) && Ready(w, p)
    ensures p.queue.clock == t && p.queue.store == Store(map[w.NameAt(t) := Finished(w, t)], 3) && p.queue.sweeps == map[]
    ensures p.queue.log == [FirstCreated(w, t), Q.Claimed(1, 0, "worker", t), Q.Ran(1, 0, w.Read(), DONE), Q.Reported(1, 0, Running, Completed, t)]
  {
    p := Ran(w, t);
    p := Reports(w, p, Born(w, t));
    assert p.queue.store.objects == map[w.NameAt(t) := Finished(w, t)];
  }

  /** Two janitors list the finished task once its retention is over. */
  lemma ListedTwice(w: Scene, t: Time, t': Time) returns (p: P.State)
    requires w.Valid() && t <= t'
    ensures Reachable(w.cfg, p) && Ready(w, p)
    ensures p.queue.clock == t' && p.queue.store == Store(map[w.NameAt(t) := Finished(w, t)], 3)
    ensures var sweep := Q.Sweep(map[w.NameAt(t) := Finished(w, t)], Some(t')); p.queue.sweeps == map[0 := sweep, 1 := sweep]
    ensures p.queue.log == [FirstCreated(w, t), Q.Claimed(1, 0, "worker", t), Q.Ran(1, 0, w.Read(), DONE), Q.Reported(1, 0, Running, Completed, t)]
  {
    p := ReportedAtOnce(w, t);
    p := Later(w, p, t');
    p := SweepStarts(w, p, 0);
    p := SweepStarts(w, p, 1);
  }

  /** One janitor deletes the finished task, the second resource's task takes its name, */
  lemma NameTakenAgain(w: Scene, t: Time, t': Time) returns (p: P.State)
    requires w.Valid() && t <= t' && w.cfg.queue.trailingRetention == 0
    requires t' > Q.TerminalInstant(Finished(w, t)) + w.cfg.queue.retentionPeriod
    ensures Reachable(w.cfg, p) && p.queue.clock == t'
    ensures p.queue.store == Store(map[w.NameAt(t) := Task(w.NameAt(t), 4, 4, t' / SECOND * SECOND, w.SpecOf("b"), NO_STATUS)], 4)
    ensures 1 in p.queue.sweeps && p.queue.sweeps[1] == Q.Sweep(map[w.NameAt(t) := Finished(w, t)], Some(t'))
    ensures p.queue.log == [FirstCreated(w, t), Q.Claimed(1, 0, "worker", t), Q.Ran(1, 0, w.Read(), DONE), Q.Reported(1, 0, Running, Completed, t),
                            Q.Deleted(1, Completed, t'), Q.Created(4, w.NameAt(t), w.Key("b"), t')]
  {
    p := ListedTwice(w, t, t');
    p := Deletes(w, p, 0, Finished(w, t));
    assert p.queue.store.objects == map[];
    p := PublishesAgain(w, p, w.NameAt(t));
  }

  /** and the other janitor deletes that one while it is still Pending. */
  lemma DeleteCanHitPending(w: Scene, t: Time, t': Time)
    requires w.Valid() && t <= t' && w.cfg.queue.trailingRetention == 0
    requires t' > Q.TerminalInstant(Finished(w, t)) + w.cfg.queue.retentionPeriod
    ensures exists p :: Reachable(w.cfg, p) && p.queue.log == [
              FirstCreated(w, t), Q.Claimed(1, 0, "worker", t), Q.Ran(1, 0, w.Read(), DONE), Q.Reported(1, 0, Running, Completed, t),
              Q.Deleted(1, Completed, t'), Q.Created(4, w.NameAt(t), w.Key("b"), t'), Q.Deleted(4, Phase.Unset, t')]
  {
    var p := NameTakenAgain(w, t, t');
    p := Deletes(w, p, 1, Finished(w, t));
  }

  /** An expired task is deleted and its name taken again while its worker is still busy; */
  lemma ExpiredNameTakenAgain(w: Scene, t: Time, late: Time, t': Time) returns (p: P.State)
    requires w.Valid() && t <= late <= t' && w.cfg.queue.trailingRetention == 0
    requires late > t / SECOND * SECOND + w.cfg.queue.activeDeadline
    requires t' > Q.TerminalInstant(Overran(w, t, late)) + w.cfg.queue.retentionPeriod
    ensures Reachable(w.cfg, p) && p.queue.clock == t'
    ensures p.queue.store == Store(map[w.NameAt(t) := Task(w.NameAt(t), 4, 4, t' / SECOND * SECOND, w.SpecOf("b"), NO_STATUS)], 4)
    ensures p.queue.attempts == map[0 := Q.Executing(Born(w, t), [w.Read()], [DONE])]
    ensures p.queue.log == [FirstCreated(w, t), Q.Claimed(1, 0, "worker", t), Q.Ran(1, 0, w.Read(), DONE), Q.Lapsed(1, Running, late),
                            Q.Deleted(1, Expired, t'), Q.Created(4, w.NameAt(t), w.Key("b"), t')]
  {
    p := ExpiredWhileBusy(w, t, late);
    p := Later(w, p, t');
    p := SweepStarts(w, p, 1);
    p := Deletes(w, p, 1, Overran(w, t, late));
    assert p.queue.store.objects == map[];
    p := PublishesAgain(w, p, w.NameAt(t));
  }

  /** its late report then completes the second resource's task, which nobody ever claimed. */
  lemma ReportCanHitUnclaimed(w: Scene, t: Time, late: Time, t': Time)
    requires w.Valid() && t <= late <= t' && w.cfg.queue.trailingRetention == 0
    requires late > t / SECOND * SECOND + w.cfg.queue.activeDeadline
    requires t' > Q.TerminalInstant(Overran(w, t, late)) + w.cfg.queue.retentionPeriod
    ensures exists p :: Reachable(w.cfg, p) && p.queue.log == [
              FirstCreated(w, t), Q.Claimed(1, 0, "worker", t), Q.Ran(1, 0, w.Read(), DONE), Q.Lapsed(1, Running, late),
              Q.Deleted(1, Expired, t'), Q.Created(4, w.NameAt(t), w.Key("b"), t'), Q.Reported(4, 0, Phase.Unset, Completed, t')]
  {
    var p := ExpiredNameTakenAgain(w, t, late, t');
    p := Reports(w, p, Born(w, t));
  }

  // ---------------------------------------------------------------- when names are used twice

  lemma StampedTwice(w: Scene, latency: nat, t: Time, t': Time, log: seq<Q.Event>)
    requires t <= t' < (t / MILLI + 1) * MILLI + latency
    requires log == [FirstCreated(w, t), Q.Claimed(1, 0, "worker", t), Q.Ran(1, 0, w.Read(), DONE), Q.Reported(1, 0, Running, Completed, t),
                     Q.Deleted(1, Completed, t'), Q.Created(4, w.NameAt(t), w.Key("b"), t'), Q.Deleted(4, Phase.Unset, t')]
    ensures S.AllStamped(w.lower, latency, log) && !L.FreshNames(log)
  {
    var m := t / MILLI;
    assert m * MILLI <= t;
    forall i | 0 <= i < |log| ensures S.Stamped(w.lower, latency, log[i]) {
      if log[i].Created? {
        assert S.StampedAs(w.lower, latency, log[i].name, log[i].at, w.scenarioID, w.resource, m);
      }
    }
    assert log[0].Created? && log[5].Created? && log[0].name == log[5].name;
  }

  /** With a shorter retention a name is used twice although every name is stamped: a task created in the
      last millisecond of a second is dated at its start. */
  lemma ShortRetentionReusesNames(w: Scene, latency: nat) returns (p: P.State)
    requires w.Valid() && w.cfg.queue.trailingRetention == 0 && w.cfg.queue.retentionPeriod + 1 < SECOND + latency
    ensures Reachable(w.cfg, p) && S.AllStamped(w.lower, latency, p.queue.log) && !L.FreshNames(p.queue.log)
  {
    var t, t' := 999 * MILLI, SECOND + latency - 1;
    assert t / MILLI == 999;
    assert Q.TerminalInstant(Finished(w, t)) == 0;
    DeleteCanHitPending(w, t, t');
    p :| Reachable(w.cfg, p) && p.queue.log == [
           FirstCreated(w, t), Q.Claimed(1, 0, "worker", t), Q.Ran(1, 0, w.Read(), DONE), Q.Reported(1, 0, Running, Completed, t),
           Q.Deleted(1, Completed, t'), Q.Created(4, w.NameAt(t), w.Key("b"), t'), Q.Deleted(4, Phase.Unset, t')];
    StampedTwice(w, latency, t, t', p.queue.log);
  }

  /** The exact condition, without trailing retention: in all runs whose names are generated and whose
      create calls are served within the latency no name is used twice, if and only if tasks are
      retained for a second and that latency. */
  lemma NamesAreFreshIff(w: Scene, latency: nat)
    requires w.Valid() && w.cfg.queue.trailingRetention == 0
    ensures (forall p :: Reachable(w.cfg, p) && S.AllStamped(w.lower, latency, p.queue.log) ==> L.FreshNames(p.queue.log))
       <==> w.cfg.queue.retentionPeriod + 1 >= SECOND + latency
  {
    if w.cfg.queue.retentionPeriod + 1 >= SECOND + latency {
      forall p | Reachable(w.cfg, p) && S.AllStamped(w.lower, latency, p.queue.log) ensures L.FreshNames(p.queue.log) {
        var steps :| P.Run(w.cfg, steps) == p;
        var queueSteps := P.QueueRun(w.cfg, steps);
        S.StampedRun(w.cfg.queue, w.lower, latency, queueSteps);
      }
    } else {
      var p := ShortRetentionReusesNames(w, latency);
    }
  }
}
