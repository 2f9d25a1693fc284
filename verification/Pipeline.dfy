/** The leader's controller and the task queue together: detection results become tasks, and tasks
    are claimed and run by the workers.

    The controller handles one result or one cleanup at a time, in several steps, and every step of
    the queue may fall between them. `trace` collects the controller's finished events. */
module Pipeline {
  import opened Types
  import opened Actions
  import opened Tasks
  import D = Detection
  import Q = TaskQueue
  import R = Remediation
  import Arithmetic
  import ClaimExclusivity
  import E = Executions
  import L = TaskLifecycle

  /** `render` is how a parameter value is printed. */
  datatype Config = Config(queue: Q.Config, remediation: R.Config, render: Json -> string)

  function KeyOf(result: D.DetectionResult): string {
    StateKey(result.scenarioID, result.resource)
  }

  datatype Busy =
    | Idle
    | Publishing(result: D.DetectionResult, start: Time)
    | Acted(key: string, start: Time, at: Time, status: Option<ActionStatus>)
  {
    function Key(): string
      requires !Idle?
    {
      if Publishing? then KeyOf(result) else key
    }
  }

  /** A detection and the resource its task is to act on: the detected one or its owner. */
  datatype Request = Request(result: D.DetectionResult, target: ResourceReference)

  /** `asked` remembers the request behind each task. */
  datatype State = State(
    queue: Q.State, states: R.States, busy: Busy, trace: seq<R.Event>, asked: map<nat, Request>)

  const INIT := State(Q.INIT, map[], Idle, [], map[])

  /** A detection result arrives, covered by a policy or not; a task is created for it with some sorted
      permutation of its recommended actions. `lost` says that the create took effect but its answer never arrived;
      NoTask is a result without actions, or a create that never reached the server. */
  datatype Step =
    | Queue(step: Q.Step)
    | Detect(result: D.DetectionResult, covered: bool)
    | Publish(name: string, target: ResourceReference, sorted: seq<ActionConfig>, lost: bool)
    | NoTask
    | Record(acted: Time)
    | Forget

  function Conclude(cfg: Config, s: State, e: R.Event): State {
    s.(states := R.StepStates(cfg.remediation, s.states, e), busy := Idle, trace := s.trace + [e])
  }

  function DoDetect(cfg: Config, s: State, result: D.DetectionResult, covered: bool): State {
    var now := s.queue.clock;
    if !s.busy.Idle? then s
    else if R.Decide(cfg.remediation, R.Lookup(s.states, KeyOf(result)), covered, now).Remediate? then
      s.(busy := Publishing(result, now))
    else Conclude(cfg, s, R.Process(KeyOf(result), covered, now, now, now, None))
  }

  function TaskSpec(cfg: Config, result: D.DetectionResult, target: ResourceReference, sorted: seq<ActionConfig>): Spec {
    Spec(result.scenarioID, target, ToTaskActions(cfg.render, sorted))
  }

  predicate CanPublish(s: State, sorted: seq<ActionConfig>) {
    s.busy.Publishing? && s.busy.result.recommendedActions != [] && SortedFrom(s.busy.result.recommendedActions, sorted)
  }

  function DoPublish(cfg: Config, s: State, name: string, target: ResourceReference, sorted: seq<ActionConfig>, lost: bool): State
    requires s.busy.Publishing?
  {
    var failed := lost || name in s.queue.store.objects;
    s.(queue := Q.DoPublish(s.queue, name, TaskSpec(cfg, s.busy.result, target, sorted), KeyOf(s.busy.result)),
       busy := Acted(KeyOf(s.busy.result), s.busy.start, s.queue.clock, if failed then Some(ActionFailed) else None),
       asked := if name in s.queue.store.objects then s.asked
                else s.asked[s.queue.store.version + 1 := Request(s.busy.result, target)])
  }

  function DoNoTask(s: State): State
    requires s.busy.Publishing?
  {
    s.(busy := Acted(KeyOf(s.busy.result), s.busy.start, s.queue.clock,
                     if s.busy.result.recommendedActions != [] then Some(ActionFailed) else None))
  }

  ghost function Exec(cfg: Config, s: State, step: Step): State {
    match step
    case Queue(q) => if q.PublishTask? then s else s.(queue := Q.Exec(cfg.queue, s.queue, q))
    case Detect(result, covered) => DoDetect(cfg, s, result, covered)
    case Publish(name, target, sorted, lost) =>
      if CanPublish(s, sorted) then DoPublish(cfg, s, name, target, sorted, lost) else s
    case NoTask => if s.busy.Publishing? then DoNoTask(s) else s
    case Record(acted) =>
      if s.busy.Acted? && s.busy.at <= acted <= s.queue.clock then
        Conclude(cfg, s, R.Process(s.busy.key, true, s.busy.start, acted, s.queue.clock, s.busy.status))
      else s
    case Forget => if s.busy.Idle? then Conclude(cfg, s, R.Cleanup(s.queue.clock)) else s
  }

  ghost function Run(cfg: Config, steps: seq<Step>): State {
    if steps == [] then INIT else Exec(cfg, Run(cfg, steps[..|steps| - 1]), steps[|steps| - 1])
  }

  // ---------------------------------------------------------------- the queue's part of a run

  /** What the queue sees of a run is itself a run of the queue. */
  lemma {:induction false} QueueRun(cfg: Config, steps: seq<Step>) returns (queueSteps: seq<Q.Step>)
    ensures Run(cfg, steps).queue == Q.Run(cfg.queue, queueSteps)
  {
    queueSteps := [];
    if steps != [] {
      var step, s := steps[|steps| - 1], Run(cfg, steps[..|steps| - 1]);
      queueSteps := QueueRun(cfg, steps[..|steps| - 1]);
      if step.Queue? && !step.step.PublishTask? {
        assert (queueSteps + [step.step])[..|queueSteps|] == queueSteps;
        queueSteps := queueSteps + [step.step];
      } else if step.Publish? && CanPublish(s, step.sorted) {
        var q := Q.PublishTask(step.name, TaskSpec(cfg, s.busy.result, step.target, step.sorted), KeyOf(s.busy.result));
        assert (queueSteps + [q])[..|queueSteps|] == queueSteps;
        queueSteps := queueSteps + [q];
      }
    }
  }

  /** Only publishing creates tasks, and the clock never goes back. */
  lemma OnlyPublishCreates(cfg: Q.Config, s: Q.State, q: Q.Step)
    requires !q.PublishTask?
    ensures var s' := Q.Exec(cfg, s, q);
            && s'.clock >= s.clock
            && (s'.log == s.log || (|s'.log| == |s.log| + 1 && s'.log[..|s.log|] == s.log && !s'.log[|s.log|].Created?))
  {
    hide UpdateStatus, OutcomeStatus;
  }

  // ---------------------------------------------------------------- the controller's part of a run

  ghost predicate ControllerInv(cfg: Config, s: State) {
    && s.states == R.StatesAfter(cfg.remediation, s.trace)
    && R.Clocked(s.trace)
    && (forall i :: 0 <= i < |s.trace| ==> s.trace[i].Finish() <= (if s.busy.Idle? then s.queue.clock else s.busy.start))
    && (!s.busy.Idle? ==>
          && s.busy.start <= s.queue.clock
          && R.Decide(cfg.remediation, R.Lookup(s.states, s.busy.Key()), true, s.busy.start).Remediate?)
    && (s.busy.Acted? ==> s.busy.start <= s.busy.at <= s.queue.clock)
  }

  lemma ConcludeKeepsController(cfg: Config, s: State, e: R.Event)
    requires ControllerInv(cfg, s) && e.Finish() == s.queue.clock
    requires e.Begin() == (if s.busy.Idle? then s.queue.clock else s.busy.start)
    requires e.Process? ==> e.start <= e.acted <= e.end
    ensures ControllerInv(cfg, Conclude(cfg, s, e))
  {
    assert (s.trace + [e])[..|s.trace|] == s.trace;
  }

  lemma ExecKeepsController(cfg: Config, s: State, step: Step)
    requires ControllerInv(cfg, s)
    ensures ControllerInv(cfg, Exec(cfg, s, step))
  {
    match step
    case Queue(q) =>
      if !q.PublishTask? {
        OnlyPublishCreates(cfg.queue, s.queue, q);
      }
    case Detect(result, covered) =>
      var now := s.queue.clock;
      if s.busy.Idle? && !R.Decide(cfg.remediation, R.Lookup(s.states, KeyOf(result)), covered, now).Remediate? {
        ConcludeKeepsController(cfg, s, R.Process(KeyOf(result), covered, now, now, now, None));
      }
    case Record(acted) =>
      if s.busy.Acted? && s.busy.at <= acted <= s.queue.clock {
        ConcludeKeepsController(cfg, s, R.Process(s.busy.key, true, s.busy.start, acted, s.queue.clock, s.busy.status));
      }
    case Forget =>
      if s.busy.Idle? {
        ConcludeKeepsController(cfg, s, R.Cleanup(s.queue.clock));
      }
    case _ =>
  }

  // ---------------------------------------------------------------- creations

  /** The creation belongs to a remediation that is over, or to the one under way. */
  ghost predicate Accounted(cfg: Config, s: State, e: Q.Event)
    requires e.Created?
  {
    || (exists i :: 0 <= i < |s.trace| && R.DecidesAt(cfg.remediation, e.origin, s.trace, i, R.Remediate) && e.at <= s.trace[i].end)
    || (s.busy.Acted? && s.busy.key == e.origin && e.at <= s.busy.at)
  }

  ghost predicate Spaced(log: seq<Q.Event>, cooldown: nat) {
    forall a, b :: 0 <= a < b < |log| && log[a].Created? && log[b].Created? && log[a].origin == log[b].origin ==>
      log[b].at >= log[a].at + cooldown
  }

  ghost predicate CreationInv(cfg: Config, s: State) {
    && Spaced(s.queue.log, cfg.remediation.cooldown)
    && forall a {:trigger Accounted(cfg, s, s.queue.log[a])} :: 0 <= a < |s.queue.log| && s.queue.log[a].Created? ==>
         Accounted(cfg, s, s.queue.log[a])
  }

  /** A remediation that starts now is a cooldown after every finished one of its key. */
  lemma StartIsSpaced(cfg: Config, s: State, i: nat)
    requires cfg.remediation.Validated() && ControllerInv(cfg, s) && !s.busy.Idle?
    requires R.DecidesAt(cfg.remediation, s.busy.Key(), s.trace, i, R.Remediate)
    ensures s.busy.start >= s.trace[i].end + cfg.remediation.cooldown
  {
    var e := R.Process(s.busy.Key(), true, s.busy.start, s.busy.start, s.busy.start, None);
    var run := s.trace + [e];
    assert run[..|s.trace|] == s.trace && run[..i] == s.trace[..i];
    R.CooldownHolds(cfg.remediation, s.busy.Key(), run, i, |s.trace|);
  }

  lemma DecidesAtPrefix(cfg: R.Config, key: string, run: seq<R.Event>, e: R.Event, i: nat)
    requires R.DecidesAt(cfg, key, run, i, R.Remediate)
    ensures R.DecidesAt(cfg, key, run + [e], i, R.Remediate)
  {
    assert (run + [e])[..i] == run[..i];
  }

  lemma ConcludeKeepsCreations(cfg: Config, s: State, e: R.Event)
    requires ControllerInv(cfg, s) && CreationInv(cfg, s)
    requires s.busy.Acted? ==> e.Process? && e.key == s.busy.key && e.covered && e.start == s.busy.start && e.end >= s.busy.at
    ensures CreationInv(cfg, Conclude(cfg, s, e))
  {
    var s' := Conclude(cfg, s, e);
    assert s'.trace[..|s.trace|] == s.trace;
    forall a | 0 <= a < |s'.queue.log| && s'.queue.log[a].Created? ensures Accounted(cfg, s', s'.queue.log[a]) {
      var c := s.queue.log[a];
      assert Accounted(cfg, s, c);
      if i :| 0 <= i < |s.trace| && R.DecidesAt(cfg.remediation, c.origin, s.trace, i, R.Remediate) && c.at <= s.trace[i].end {
        DecidesAtPrefix(cfg.remediation, c.origin, s.trace, e, i);
      } else {
        assert R.DecidesAt(cfg.remediation, c.origin, s'.trace, |s.trace|, R.Remediate);
      }
    }
  }

  lemma PublishKeepsCreations(cfg: Config, s: State, name: string, target: ResourceReference, sorted: seq<ActionConfig>, lost: bool)
    requires cfg.remediation.Validated() && ControllerInv(cfg, s) && CreationInv(cfg, s) && s.busy.Publishing?
    ensures CreationInv(cfg, DoPublish(cfg, s, name, target, sorted, lost))
  {
    var s' := DoPublish(cfg, s, name, target, sorted, lost);
    var n := |s.queue.log|;
    forall a | 0 <= a < n && s.queue.log[a].Created?
      ensures Accounted(cfg, s', s.queue.log[a])
      ensures s.queue.log[a].origin == s.busy.Key() ==> s.queue.clock >= s.queue.log[a].at + cfg.remediation.cooldown
    {
      var c := s.queue.log[a];
      assert Accounted(cfg, s, c);
      var i :| 0 <= i < |s.trace| && R.DecidesAt(cfg.remediation, c.origin, s.trace, i, R.Remediate) && c.at <= s.trace[i].end;
      if c.origin == s.busy.Key() {
        StartIsSpaced(cfg, s, i);
      }
    }
  }

  lemma SameRecordKeepsCreations(cfg: Config, s: State, busy: Busy)
    requires CreationInv(cfg, s) && !s.busy.Acted?
    ensures CreationInv(cfg, s.(busy := busy))
  {
    var s' := s.(busy := busy);
    forall a | 0 <= a < |s'.queue.log| && s'.queue.log[a].Created? ensures Accounted(cfg, s', s'.queue.log[a]) {
      assert Accounted(cfg, s, s.queue.log[a]);
    }
  }

  lemma QueueKeepsCreations(cfg: Config, s: State, q: Q.Step)
    requires ControllerInv(cfg, s) && CreationInv(cfg, s) && !q.PublishTask?
    ensures CreationInv(cfg, s.(queue := Q.Exec(cfg.queue, s.queue, q)))
  {
    hide Q.Exec, ControllerInv;
    var s' := s.(queue := Q.Exec(cfg.queue, s.queue, q));
    OnlyPublishCreates(cfg.queue, s.queue, q);
    forall a | 0 <= a < |s'.queue.log| && s'.queue.log[a].Created?
      ensures a < |s.queue.log| && s'.queue.log[a] == s.queue.log[a] && Accounted(cfg, s', s'.queue.log[a])
    {
      assert s'.queue.log[a] == s.queue.log[a];
      assert Accounted(cfg, s, s.queue.log[a]);
    }
  }

  lemma DetectKeepsCreations(cfg: Config, s: State, result: D.DetectionResult, covered: bool)
    requires ControllerInv(cfg, s) && CreationInv(cfg, s)
    ensures CreationInv(cfg, DoDetect(cfg, s, result, covered))
  {
    var now := s.queue.clock;
    if s.busy.Idle? {
      ConcludeKeepsCreations(cfg, s, R.Process(KeyOf(result), covered, now, now, now, None));
      SameRecordKeepsCreations(cfg, s, Publishing(result, now));
    }
  }

  lemma ExecKeepsCreations(cfg: Config, s: State, step: Step)
    requires cfg.remediation.Validated() && ControllerInv(cfg, s) && CreationInv(cfg, s)
    ensures CreationInv(cfg, Exec(cfg, s, step))
  {
    match step
    case Publish(name, target, sorted, lost) =>
      if CanPublish(s, sorted) {
        PublishKeepsCreations(cfg, s, name, target, sorted, lost);
      }
    case Queue(q) =>
      if !q.PublishTask? {
        QueueKeepsCreations(cfg, s, q);
      }
    case Detect(result, covered) => DetectKeepsCreations(cfg, s, result, covered);
    case NoTask =>
      if s.busy.Publishing? {
        SameRecordKeepsCreations(cfg, s, Exec(cfg, s, step).busy);
      }
    case Record(acted) =>
      if s.busy.Acted? && s.busy.at <= acted <= s.queue.clock {
        ConcludeKeepsCreations(cfg, s, R.Process(s.busy.key, true, s.busy.start, acted, s.queue.clock, s.busy.status));
      }
    case Forget =>
      if s.busy.Idle? {
        ConcludeKeepsCreations(cfg, s, R.Cleanup(s.queue.clock));
      }
  }

  lemma {:induction false} RunInv(cfg: Config, steps: seq<Step>)
    requires cfg.remediation.Validated()
    ensures ControllerInv(cfg, Run(cfg, steps)) && CreationInv(cfg, Run(cfg, steps))
  {
    if steps != [] {
      var s, step := Run(cfg, steps[..|steps| - 1]), steps[|steps| - 1];
      RunInv(cfg, steps[..|steps| - 1]);
      ExecKeepsController(cfg, s, step);
      ExecKeepsCreations(cfg, s, step);
    }
  }

  /** Tasks created for one key are a full cooldown apart, however the workers, janitors and
      cleanups interleave. */
  lemma CreationsAreSpaced(cfg: Config, steps: seq<Step>, a: nat, b: nat)
    requires cfg.remediation.Validated()
    requires var log := Run(cfg, steps).queue.log;
             a < b < |log| && log[a].Created? && log[b].Created? && log[a].origin == log[b].origin
    ensures var log := Run(cfg, steps).queue.log;
            log[b].at >= log[a].at + cfg.remediation.cooldown
  {
    RunInv(cfg, steps);
  }

  // ---------------------------------------------------------------- executions

  predicate IsBirth(e: Q.Event, key: string, lo: Time, hi: Time) {
    e.Created? && e.origin == key && lo <= e.at <= hi
  }

  /** The tasks created for the key in [lo, hi], among the first n events. */
  function Born(log: seq<Q.Event>, key: string, lo: Time, hi: Time, n: nat): set<nat>
    requires n <= |log|
  {
    if n == 0 then {}
    else Born(log, key, lo, hi, n - 1) + (if IsBirth(log[n - 1], key, lo, hi) then {log[n - 1].uid} else {})
  }

  /** The action sequences ever started for those tasks: the positions of their committed claims. */
  function SequencesStarted(log: seq<Q.Event>, key: string, lo: Time, hi: Time): set<nat> {
    set i | 0 <= i < |log| && log[i].Claimed? && log[i].uid in Born(log, key, lo, hi, |log|)
  }

  /** The latest of the creations among the first n events comes a cooldown for each of the others
      after lo. */
  ghost predicate Latest(log: seq<Q.Event>, cooldown: nat, key: string, lo: Time, hi: Time, n: nat, last: nat)
    requires n <= |log|
  {
    && last < n && IsBirth(log[last], key, lo, hi) && Born(log, key, lo, hi, n) != {}
    && lo + (|Born(log, key, lo, hi, n)| - 1) * cooldown <= log[last].at
  }

  lemma FirstBirth(log: seq<Q.Event>, cooldown: nat, key: string, lo: Time, hi: Time, n: nat)
    requires n < |log| && IsBirth(log[n], key, lo, hi) && Born(log, key, lo, hi, n) == {}
    ensures Latest(log, cooldown, key, lo, hi, n + 1, n)
  {
    assert Born(log, key, lo, hi, n + 1) == {log[n].uid};
  }

  lemma NoBirth(log: seq<Q.Event>, cooldown: nat, key: string, lo: Time, hi: Time, n: nat, last: nat)
    requires n < |log| && !IsBirth(log[n], key, lo, hi)
    ensures Born(log, key, lo, hi, n + 1) == Born(log, key, lo, hi, n)
    ensures Latest(log, cooldown, key, lo, hi, n, last) ==> Latest(log, cooldown, key, lo, hi, n + 1, last)
  {
  }

  lemma NextBirth(log: seq<Q.Event>, cooldown: nat, key: string, lo: Time, hi: Time, n: nat, last: nat)
    requires Spaced(log, cooldown) && n < |log| && IsBirth(log[n], key, lo, hi)
    requires Latest(log, cooldown, key, lo, hi, n, last)
    ensures Latest(log, cooldown, key, lo, hi, n + 1, n)
  {
    assert log[n].at >= log[last].at + cooldown;
    Arithmetic.OneMore(|Born(log, key, lo, hi, n)|, |Born(log, key, lo, hi, n + 1)|, cooldown);
  }

  lemma {:induction false} BirthsSpread(log: seq<Q.Event>, cooldown: nat, key: string, lo: Time, hi: Time, n: nat) returns (last: nat)
    requires Spaced(log, cooldown) && n <= |log|
    ensures Born(log, key, lo, hi, n) != {} ==> Latest(log, cooldown, key, lo, hi, n, last)
  {
    hide Latest, Spaced;
    last := 0;
    if n > 0 {
      last := BirthsSpread(log, cooldown, key, lo, hi, n - 1);
      if !IsBirth(log[n - 1], key, lo, hi) {
        NoBirth(log, cooldown, key, lo, hi, n - 1, last);
      } else if Born(log, key, lo, hi, n - 1) == {} {
        FirstBirth(log, cooldown, key, lo, hi, n - 1);
        last := n - 1;
      } else {
        NextBirth(log, cooldown, key, lo, hi, n - 1, last);
        last := n - 1;
      }
    }
  }

  lemma BornBound(log: seq<Q.Event>, cooldown: nat, key: string, lo: Time, span: nat)
    requires Spaced(log, cooldown) && cooldown > 0
    ensures |Born(log, key, lo, lo + span, |log|)| <= 1 + span / cooldown
  {
    var born := Born(log, key, lo, lo + span, |log|);
    var last := BirthsSpread(log, cooldown, key, lo, lo + span, |log|);
    if born != {} {
      Arithmetic.MultiplesFit(|born|, cooldown, span);
    }
  }

  lemma {:induction false} OneToOne(log: seq<Q.Event>, claims: set<nat>, uids: set<nat>)
    requires forall i :: i in claims ==> i < |log| && log[i].Claimed? && log[i].uid in uids
    requires forall i, j :: i in claims && j in claims && i < j ==> log[i].uid != log[j].uid
    ensures |claims| <= |uids|
    decreases |claims|
  {
    if claims != {} {
      var i :| i in claims;
      OneToOne(log, claims - {i}, uids - {log[i].uid});
    }
  }

  /** End to end: the action sequences ever started for the tasks that one (scenario, resource) key
      got within a time span number at most 1 + span / cooldown. Lost replies, duplicate
      watch events, any number of workers, reused names and forgotten controller state included. */
  lemma ExecutionRate(cfg: Config, steps: seq<Step>, key: string, lo: Time, span: nat)
    requires cfg.remediation.Validated()
    ensures |SequencesStarted(Run(cfg, steps).queue.log, key, lo, lo + span)| <= 1 + span / cfg.remediation.cooldown
  {
    RunInv(cfg, steps);
    var log := Run(cfg, steps).queue.log;
    var born, claims := Born(log, key, lo, lo + span, |log|), SequencesStarted(log, key, lo, lo + span);
    BornBound(log, cfg.remediation.cooldown, key, lo, span);
    var queueSteps := QueueRun(cfg, steps);
    forall i, j | i in claims && j in claims && i < j ensures log[i].uid != log[j].uid {
      ClaimExclusivity.AtMostOneClaim(cfg.queue, queueSteps, i, j);
    }
    OneToOne(log, claims, born);
  }

  // ---------------------------------------------------------------- what the executions run

  /** The task is known, and stores the scenario, the target and some sorted permutation of the actions
      it was asked for. */
  ghost predicate Stores(cfg: Config, s: Q.State, uid: nat, request: Request) {
    && uid in s.history && s.history[uid].uid == uid && s.history[uid].version == uid
    && s.history[uid].spec.scenarioID == request.result.scenarioID && s.history[uid].spec.target == request.target
    && exists sorted :: SortedFrom(request.result.recommendedActions, sorted)
                        && s.history[uid].spec.actions == ToTaskActions(cfg.render, sorted)
  }

  ghost predicate Asked(cfg: Config, s: State, e: Q.Event) {
    e.Created? ==>
      && e.uid in s.asked && Stores(cfg, s.queue, e.uid, s.asked[e.uid])
      && s.queue.history[e.uid].name == e.name && e.origin == KeyOf(s.asked[e.uid].result)
  }

  ghost predicate AskedInv(cfg: Config, s: State) {
    forall a {:trigger Asked(cfg, s, s.queue.log[a])} :: 0 <= a < |s.queue.log| ==> Asked(cfg, s, s.queue.log[a])
  }

  /** Committed versions are never rewritten. */
  lemma HistoryKept(cfg: Q.Config, s: Q.State, q: Q.Step, v: nat)
    requires ClaimExclusivity.VersionsOk(s) && ClaimExclusivity.StoreOk(s) && v in s.history
    ensures v in Q.Exec(cfg, s, q).history && Q.Exec(cfg, s, q).history[v] == s.history[v]
  {
    hide Q.Exec;
    assert ClaimExclusivity.VersionOk(s, v);
    if Q.Exec(cfg, s, q).store.version == s.store.version {
      L.OthersKeepHistory(cfg, s, q);
    } else {
      var t, e := L.WriteIsCommit(cfg, s, q);
    }
  }

  lemma QueueKeepsAsked(cfg: Config, s: State, q: Q.Step)
    requires AskedInv(cfg, s) && ClaimExclusivity.Inv(s.queue) && !q.PublishTask?
    ensures AskedInv(cfg, s.(queue := Q.Exec(cfg.queue, s.queue, q)))
  {
    hide Q.Exec;
    var s' := s.(queue := Q.Exec(cfg.queue, s.queue, q));
    OnlyPublishCreates(cfg.queue, s.queue, q);
    forall a | 0 <= a < |s'.queue.log| ensures Asked(cfg, s', s'.queue.log[a]) {
      if s'.queue.log[a].Created? {
        var e := s.queue.log[a];
        assert s'.queue.log[a] == e && Asked(cfg, s, e);
        HistoryKept(cfg.queue, s.queue, q, e.uid);
      }
    }
  }

  lemma PublishKeepsAsked(cfg: Config, s: State, name: string, target: ResourceReference, sorted: seq<ActionConfig>, lost: bool)
    requires AskedInv(cfg, s) && ClaimExclusivity.Inv(s.queue) && CanPublish(s, sorted)
    ensures AskedInv(cfg, DoPublish(cfg, s, name, target, sorted, lost))
  {
    var s' := DoPublish(cfg, s, name, target, sorted, lost);
    var spec := TaskSpec(cfg, s.busy.result, target, sorted);
    forall a | 0 <= a < |s'.queue.log| ensures Asked(cfg, s', s'.queue.log[a]) {
      if a < |s.queue.log| {
        var e := s.queue.log[a];
        assert s'.queue.log[a] == e && Asked(cfg, s, e);
        if e.Created? {
          assert ClaimExclusivity.VersionOk(s.queue, e.uid);
          HistoryKept(cfg.queue, s.queue, Q.PublishTask(name, spec, KeyOf(s.busy.result)), e.uid);
        }
      } else {
        assert s'.queue.history[s.queue.store.version + 1].spec == spec;
      }
    }
  }

  lemma {:induction false} RunAsked(cfg: Config, steps: seq<Step>)
    ensures AskedInv(cfg, Run(cfg, steps)) && ClaimExclusivity.Inv(Run(cfg, steps).queue)
  {
    var queueSteps := QueueRun(cfg, steps);
    ClaimExclusivity.RunInv(cfg.queue, queueSteps);
    if steps != [] {
      var s, step := Run(cfg, steps[..|steps| - 1]), steps[|steps| - 1];
      RunAsked(cfg, steps[..|steps| - 1]);
      if step.Queue? && !step.step.PublishTask? {
        QueueKeepsAsked(cfg, s, step.step);
      } else if step.Publish? && CanPublish(s, step.sorted) {
        PublishKeepsAsked(cfg, s, step.name, step.target, step.sorted, step.lost);
      } else {
        OthersKeepAsked(cfg, s, step);
      }
    }
  }

  lemma OthersKeepAsked(cfg: Config, s: State, step: Step)
    requires AskedInv(cfg, s)
    requires step.Queue? ==> step.step.PublishTask?
    requires step.Publish? ==> !CanPublish(s, step.sorted)
    ensures AskedInv(cfg, Exec(cfg, s, step))
  {
    var s' := Exec(cfg, s, step);
    assert s'.queue == s.queue && s'.asked == s.asked;
    forall a | 0 <= a < |s'.queue.log| ensures Asked(cfg, s', s'.queue.log[a]) {
      assert Asked(cfg, s, s.queue.log[a]);
    }
  }

  /** End to end: whatever two sorts, any workers and any interference make of it, what is ever
      executed for a task is a prefix of one order-sorted permutation of the actions its detection
      recommended (printed), run once, by one goroutine, up to the first failure. */
  lemma RecommendedActionsRun(cfg: Config, steps: seq<Step>, a: nat)
    requires a < |Run(cfg, steps).queue.log| && Run(cfg, steps).queue.log[a].Created?
    ensures var s := Run(cfg, steps);
            var uid := s.queue.log[a].uid;
            && uid in s.asked
            && E.RunsAlong(L.RunsOf(s.queue.log, uid), PrintedAll(cfg.render, s.asked[uid].result.recommendedActions))
  {
    RunAsked(cfg, steps);
    var s := Run(cfg, steps);
    var uid := s.queue.log[a].uid;
    assert Asked(cfg, s, s.queue.log[a]);
    var recommended := s.asked[uid].result.recommendedActions;
    var sorted :| SortedFrom(recommended, sorted) && s.queue.history[uid].spec.actions == ToTaskActions(cfg.render, sorted);
    var queueSteps := QueueRun(cfg, steps);
    E.RecommendedRunInOrder(cfg.queue, queueSteps, s.queue.history[uid], cfg.render, recommended, sorted);
  }

  // ---------------------------------------------------------------- where tasks come from

  ghost predicate Detected(steps: seq<Step>, result: D.DetectionResult) {
    exists i :: 0 <= i < |steps| && steps[i] == Detect(result, true)
  }

  /** A covered detection arrived, and later a create call for it with this target and name was made. */
  ghost predicate Requested(steps: seq<Step>, request: Request, name: string) {
    exists j :: 0 <= j < |steps| && steps[j].Publish? && steps[j].name == name && steps[j].target == request.target
                && Detected(steps[..j], request.result)
  }

  ghost predicate FromSteps(steps: seq<Step>, s: State) {
    && (s.busy.Publishing? ==> Detected(steps, s.busy.result))
    && (forall uid {:trigger s.asked[uid]} :: uid in s.asked ==>
          uid <= s.queue.store.version && uid in s.queue.history && Requested(steps, s.asked[uid], s.queue.history[uid].name))
  }

  lemma OneStepMore(steps: seq<Step>, step: Step)
    ensures forall r {:trigger Detected(steps + [step], r)} :: Detected(steps, r) ==> Detected(steps + [step], r)
    ensures forall r, n {:trigger Requested(steps + [step], r, n)} :: Requested(steps, r, n) ==> Requested(steps + [step], r, n)
  {
    var steps' := steps + [step];
    forall r | Detected(steps, r) ensures Detected(steps', r) {
      var i :| 0 <= i < |steps| && steps[i] == Detect(r, true);
      assert steps'[i] == steps[i];
    }
    forall r, n | Requested(steps, r, n) ensures Requested(steps', r, n) {
      var j :| 0 <= j < |steps| && steps[j].Publish? && steps[j].name == n && steps[j].target == r.target
               && Detected(steps[..j], r.result);
      assert steps'[j] == steps[j] && steps'[..j] == steps[..j];
    }
  }

  /** A detection that is to be remediated was covered. */
  lemma DetectKeepsFrom(cfg: Config, steps: seq<Step>, s: State, result: D.DetectionResult, covered: bool)
    requires FromSteps(steps, s)
    ensures FromSteps(steps + [Detect(result, covered)], DoDetect(cfg, s, result, covered))
  {
    var steps' := steps + [Detect(result, covered)];
    OneStepMore(steps, Detect(result, covered));
    if s.busy.Idle? && R.Decide(cfg.remediation, R.Lookup(s.states, KeyOf(result)), covered, s.queue.clock).Remediate? {
      assert steps'[|steps|] == Detect(result, true);
    }
  }

  lemma PublishKeepsFrom(cfg: Config, steps: seq<Step>, s: State, name: string, target: ResourceReference,
                         sorted: seq<ActionConfig>, lost: bool)
    requires FromSteps(steps, s) && s.busy.Publishing? && ClaimExclusivity.VersionsOk(s.queue)
    ensures FromSteps(steps + [Publish(name, target, sorted, lost)], DoPublish(cfg, s, name, target, sorted, lost))
  {
    var step, s' := Publish(name, target, sorted, lost), DoPublish(cfg, s, name, target, sorted, lost);
    var steps' := steps + [step];
    OneStepMore(steps, step);
    assert steps'[|steps|] == step && steps'[..|steps|] == steps;
    forall uid | uid in s'.asked
      ensures uid <= s'.queue.store.version && uid in s'.queue.history && Requested(steps', s'.asked[uid], s'.queue.history[uid].name)
    {
      if name !in s.queue.store.objects && uid == s.queue.store.version + 1 {
        assert Detected(steps'[..|steps|], s'.asked[uid].result);
      } else {
        assert uid in s.asked && s'.asked[uid] == s.asked[uid] && s'.queue.history[uid] == s.queue.history[uid];
      }
    }
  }

  lemma QueueKeepsFrom(cfg: Config, steps: seq<Step>, s: State, q: Q.Step)
    requires FromSteps(steps, s) && ClaimExclusivity.Inv(s.queue) && !q.PublishTask?
    ensures FromSteps(steps + [Queue(q)], s.(queue := Q.Exec(cfg.queue, s.queue, q)))
  {
    hide Q.Exec;
    var s' := s.(queue := Q.Exec(cfg.queue, s.queue, q));
    OneStepMore(steps, Queue(q));
    forall uid | uid in s.asked
      ensures uid <= s'.queue.store.version && uid in s'.queue.history && s'.queue.history[uid] == s.queue.history[uid]
    {
      HistoryKept(cfg.queue, s.queue, q, uid);
      VersionGrows(cfg.queue, s.queue, q);
    }
  }

  lemma VersionGrows(cfg: Q.Config, s: Q.State, q: Q.Step)
    requires ClaimExclusivity.StoreOk(s)
    ensures Q.Exec(cfg, s, q).store.version >= s.store.version
  {
    hide Q.Exec;
    if Q.Exec(cfg, s, q).store.version != s.store.version {
      var t, e := L.WriteIsCommit(cfg, s, q);
    }
  }

  lemma ExecKeepsFrom(cfg: Config, steps: seq<Step>, s: State, step: Step)
    requires FromSteps(steps, s) && ClaimExclusivity.Inv(s.queue)
    ensures FromSteps(steps + [step], Exec(cfg, s, step))
  {
    hide Q.Exec, Q.DoPublish;
    match step
    case Queue(q) =>
      if !q.PublishTask? {
        QueueKeepsFrom(cfg, steps, s, q);
      } else {
        OneStepMore(steps, step);
      }
    case Publish(name, target, sorted, lost) =>
      if CanPublish(s, sorted) {
        PublishKeepsFrom(cfg, steps, s, name, target, sorted, lost);
      } else {
        OneStepMore(steps, step);
      }
    case Detect(result, covered) => DetectKeepsFrom(cfg, steps, s, result, covered);
    case _ => OneStepMore(steps, step);
  }

  lemma {:induction false} RunFrom(cfg: Config, steps: seq<Step>)
    ensures FromSteps(steps, Run(cfg, steps))
  {
    if steps != [] {
      hide Exec, FromSteps, ClaimExclusivity.Inv, AskedInv;
      var init := steps[..|steps| - 1];
      RunFrom(cfg, init);
      RunAsked(cfg, init);
      assert steps == init + [steps[|steps| - 1]];
      ExecKeepsFrom(cfg, init, Run(cfg, init), steps[|steps| - 1]);
    }
  }

  /** Every task stems from a detection that a policy covers: it arrived, then a create call was made
      for it under the task's name, and the task stores that detection's scenario, the target of that
      call, and a sorted permutation of the recommended actions; its key is the detection's. */
  lemma TasksStemFromDetections(cfg: Config, steps: seq<Step>, a: nat)
    requires a < |Run(cfg, steps).queue.log| && Run(cfg, steps).queue.log[a].Created?
    ensures var s := Run(cfg, steps);
            var e := s.queue.log[a];
            && e.uid in s.asked && Requested(steps, s.asked[e.uid], e.name)
            && Stores(cfg, s.queue, e.uid, s.asked[e.uid])
            && e.origin == StateKey(s.asked[e.uid].result.scenarioID, s.asked[e.uid].result.resource)
  {
    hide Run;
    RunAsked(cfg, steps);
    RunFrom(cfg, steps);
    assert Asked(cfg, Run(cfg, steps), Run(cfg, steps).queue.log[a]);
  }
}
