/** The claim / execute / report / expire protocol as a state machine.

    Every step is one API call or one executor call of one actor, so all interleavings of any
    number of worker goroutines and janitors are runs: a run is a sequence of steps, and a step
    that is not enabled changes nothing. An attempt is one goroutine started for one watch
    event; a worker may have many, and the same worker may run twice. */
module TaskQueue {
  import opened Types
  import opened Actions
  import opened Tasks

  /** What happened, in commit order. */
  datatype Event =
    | Created(uid: nat, name: string, origin: string, at: Time)
    | Claimed(uid: nat, attempt: nat, worker: string, at: Time)
    | Ran(uid: nat, attempt: nat, action: ActionConfig, outcome: Outcome)
    | Reported(uid: nat, attempt: nat, prior: Phase, next: Phase, at: Time)
    | Lapsed(uid: nat, prior: Phase, at: Time)
    | Deleted(uid: nat, prior: Phase, at: Time)

  /** Where a goroutine is. `obj` is always the watch event's object. */
  datatype Attempt =
    | Claiming(obj: Task, worker: string, at: Time)
    | Lost(obj: Task)
    | Executing(obj: Task, actions: seq<ActionConfig>, outcomes: seq<Outcome>)
    | Reporting(obj: Task, actions: seq<ActionConfig>, outcomes: seq<Outcome>, reread: Task, readAt: Time)
    | Finished(obj: Task, actions: seq<ActionConfig>, outcomes: seq<Outcome>)
  {
    predicate Won() {
      Executing? || Reporting? || Finished?
    }
  }

  /** A janitor's sweep: the objects it listed, and the clock it read afterwards. */
  datatype Sweep = Sweep(listed: map<string, Task>, now: Option<Time>)

  datatype Config = Config(activeDeadline: nat, retentionPeriod: nat, trailingRetention: nat)

  datatype State = State(
    clock: Time, store: Store, history: map<nat, Task>,
    attempts: map<nat, Attempt>, sweeps: map<nat, Sweep>, log: seq<Event>)

  /** `history` keeps every object version ever committed, by version: what a watch may still
      deliver. */
  const INIT := State(0, EMPTY_STORE, map[], map[], map[], [])

  predicate Committed(s: State, t: Task) {
    t.version in s.history && s.history[t.version] == t
  }

  datatype Step =
    | Tick(d: nat)
    | PublishTask(name: string, spec: Spec, origin: string)
    | Watch(id: nat, worker: string, obj: Task)
    | Claim(id: nat, actions: seq<ActionConfig>)
    | RunAction(id: nat, outcome: Outcome)
    | Reread(id: nat)
    | Report(id: nat, now: Time)
    | ListTasks(j: nat)
    | ReadClock(j: nat)
    | Expire(j: nat, name: string, now: Time)
    | DeleteTask(j: nat, name: string, tLast: Time)

  // ---------------------------------------------------------------- janitor decisions

  function TerminalInstant(t: Task): Time {
    if Instant(t.status.completedAt) != 0 then Instant(t.status.completedAt) else t.created
  }

  predicate IsStuck(cfg: Config, t: Task, now: Time) {
    t.status.claimedAt.At? && now > Instant(t.status.claimedAt) + cfg.activeDeadline
  }

  /** The most recent terminal instant in a listing, zero if there is none. */
  predicate IsLastTerminal(listed: map<string, Task>, tLast: Time) {
    && (forall n <- listed :: listed[n].status.phase.Terminal() ==> TerminalInstant(listed[n]) <= tLast)
    && (tLast != 0 ==> exists n <- listed :: listed[n].status.phase.Terminal() && TerminalInstant(listed[n]) == tLast)
  }

  predicate ShouldDelete(cfg: Config, t: Task, now: Time, tLast: Time) {
    if cfg.trailingRetention > 0 && tLast != 0 then
      TerminalInstant(t) < tLast - cfg.trailingRetention
    else
      now > TerminalInstant(t) + cfg.retentionPeriod
  }

  // ---------------------------------------------------------------- steps

  /** Commit object version `t` as the stored one and log `e`. */
  function Commit(s: State, t: Task, e: Event): State {
    s.(store := Store(s.store.objects[t.name := t], t.version),
       history := s.history[t.version := t],
       log := s.log + [e])
  }

  function DoPublish(s: State, name: string, spec: Spec, origin: string): State {
    var (store, ok) := Create(s.store, name, s.clock, spec);
    if ok then
      Commit(s, store.objects[name], Created(store.version, name, origin, s.clock))
    else
      s
  }

  function DoWatch(s: State, id: nat, worker: string, obj: Task): State {
    if id !in s.attempts && Committed(s, obj) && obj.IsPending() then
      s.(attempts := s.attempts[id := Claiming(obj, worker, s.clock)])
    else
      s
  }

  function DoClaim(s: State, id: nat, actions: seq<ActionConfig>): State {
    if id in s.attempts && s.attempts[id].Claiming? then
      var a := s.attempts[id];
      var claimed := a.obj.(status := ClaimStatus(a.obj.status, a.worker, a.at));
      var (store, ok) := UpdateStatus(s.store, claimed);
      if !ok then
        s.(attempts := s.attempts[id := Lost(a.obj)])
      else if SortedFrom(FromTaskActions(a.obj.spec.actions), actions) then
        Commit(s, store.objects[a.obj.name], Claimed(a.obj.uid, id, a.worker, a.at))
          .(attempts := s.attempts[id := Executing(a.obj, actions, [])])
      else
        s
    else
      s
  }

  function DoRun(s: State, id: nat, outcome: Outcome): State {
    if id in s.attempts && s.attempts[id].Executing? && !Stopped(s.attempts[id].actions, s.attempts[id].outcomes)
       && |s.attempts[id].outcomes| < |s.attempts[id].actions|
    then
      var a := s.attempts[id];
      s.(attempts := s.attempts[id := Executing(a.obj, a.actions, a.outcomes + [outcome])],
         log := s.log + [Ran(a.obj.uid, id, a.actions[|a.outcomes|], outcome)])
    else
      s
  }

  /** The worker re-reads its task by name; if it is gone the attempt ends without a report. */
  function DoReread(s: State, id: nat): State {
    if id in s.attempts && s.attempts[id].Executing? && Stopped(s.attempts[id].actions, s.attempts[id].outcomes) then
      var a := s.attempts[id];
      s.(attempts := s.attempts[id :=
        if a.obj.name in s.store.objects then
          Reporting(a.obj, a.actions, a.outcomes, s.store.objects[a.obj.name], s.clock)
        else
          Finished(a.obj, a.actions, a.outcomes)])
    else
      s
  }

  function DoReport(s: State, id: nat, now: Time): State {
    if id in s.attempts && s.attempts[id].Reporting? && s.attempts[id].readAt <= now <= s.clock then
      var a := s.attempts[id];
      var done := s.(attempts := s.attempts[id := Finished(a.obj, a.actions, a.outcomes)]);
      var obj := a.reread.(status := OutcomeStatus(a.reread.status, now, SuccessCount(a.outcomes),
                                                   !AnyFailed(a.outcomes), LastOutcome(a.outcomes)));
      var (store, ok) := UpdateStatus(s.store, obj);
      if ok then
        Commit(done, store.objects[obj.name],
               Reported(s.store.objects[obj.name].uid, id, s.store.objects[obj.name].status.phase, obj.status.phase, now))
      else
        done
    else
      s
  }

  function DoList(s: State, j: nat): State {
    s.(sweeps := s.sweeps[j := Sweep(s.store.objects, None)])
  }

  function DoReadClock(s: State, j: nat): State {
    if j in s.sweeps && s.sweeps[j].now.None? then
      s.(sweeps := s.sweeps[j := s.sweeps[j].(now := Some(s.clock))])
    else
      s
  }

  function DoExpire(cfg: Config, s: State, j: nat, name: string, now: Time): State {
    if j in s.sweeps && name in s.sweeps[j].listed && s.sweeps[j].now.Some? && s.sweeps[j].now.value <= now <= s.clock
       && s.sweeps[j].listed[name].status.phase == Running
       && IsStuck(cfg, s.sweeps[j].listed[name], s.sweeps[j].now.value)
    then
      var t := s.sweeps[j].listed[name];
      var (store, ok) := UpdateStatus(s.store, t.(status := ExpiredStatus(t.status, now)));
      if ok then
        Commit(s, store.objects[t.name],
               Lapsed(s.store.objects[t.name].uid, s.store.objects[t.name].status.phase, s.sweeps[j].now.value))
      else
        s
    else
      s
  }

  /** `tLast` is the reference the sweep computed from its listing. */
  function DoDelete(cfg: Config, s: State, j: nat, name: string, tLast: Time): State {
    if j in s.sweeps && name in s.sweeps[j].listed && s.sweeps[j].now.Some?
       && s.sweeps[j].listed[name].status.phase.Terminal()
       && IsLastTerminal(s.sweeps[j].listed, tLast)
       && ShouldDelete(cfg, s.sweeps[j].listed[name], s.sweeps[j].now.value, tLast)
       && name in s.store.objects
    then
      s.(store := Tasks.Delete(s.store, name),
         log := s.log + [Deleted(s.store.objects[name].uid, s.store.objects[name].status.phase, s.clock)])
    else
      s
  }

  function Exec(cfg: Config, s: State, step: Step): State {
    match step
    case Tick(d) => s.(clock := s.clock + d)
    case PublishTask(name, spec, origin) => DoPublish(s, name, spec, origin)
    case Watch(id, worker, obj) => DoWatch(s, id, worker, obj)
    case Claim(id, actions) => DoClaim(s, id, actions)
    case RunAction(id, outcome) => DoRun(s, id, outcome)
    case Reread(id) => DoReread(s, id)
    case Report(id, now) => DoReport(s, id, now)
    case ListTasks(j) => DoList(s, j)
    case ReadClock(j) => DoReadClock(s, j)
    case Expire(j, name, now) => DoExpire(cfg, s, j, name, now)
    case DeleteTask(j, name, tLast) => DoDelete(cfg, s, j, name, tLast)
  }

  function Run(cfg: Config, steps: seq<Step>): State {
    if steps == [] then INIT else Exec(cfg, Run(cfg, steps[..|steps| - 1]), steps[|steps| - 1])
  }
}
