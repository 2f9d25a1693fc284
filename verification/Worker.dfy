/** The worker's goroutine for one watch event, run against the API server while everybody else
    keeps working: each call it makes is one step of the task queue, so whatever it does is a run. */
module Worker {
  import opened Types
  import opened Actions
  import opened Tasks
  import opened TaskQueue
  import ClaimExclusivity

  /** The attempt a step belongs to. */
  function Actor(step: Step): Option<nat> {
    match step
    case Watch(id, _, _) => Some(id)
    case Claim(id, _) => Some(id)
    case RunAction(id, _) => Some(id)
    case Reread(id) => Some(id)
    case Report(id, _) => Some(id)
    case _ => None
  }

  predicate Foreign(steps: seq<Step>, id: nat) {
    forall i :: 0 <= i < |steps| ==> Actor(steps[i]) != Some(id)
  }

  lemma ForeignLeavesAttempt(cfg: Config, s: State, step: Step, id: nat)
    requires Actor(step) != Some(id)
    ensures var s' := Exec(cfg, s, step);
            && (id in s'.attempts <==> id in s.attempts)
            && (id in s.attempts ==> s'.attempts[id] == s.attempts[id])
            && s.clock <= s'.clock
  {
    hide Tasks.UpdateStatus, DoReport;
    if step.Report? {
      ClaimExclusivity.ReportAttempts(s, step.id, step.now);
    }
  }

  /** The claim call: a status update of the watch event's object. */
  lemma ClaimCall(cfg: Config, s: State, id: nat, actions: seq<ActionConfig>)
    requires ClaimExclusivity.StoreOk(s) && id in s.attempts && s.attempts[id].Claiming?
    requires SortedFrom(FromTaskActions(s.attempts[id].obj.spec.actions), actions)
    ensures var a, s' := s.attempts[id], Exec(cfg, s, Claim(id, actions));
            var (store, ok) := Tasks.UpdateStatus(s.store, a.obj.(status := ClaimStatus(a.obj.status, a.worker, a.at)));
            s'.store == store && s'.attempts == s.attempts[id := if ok then Executing(a.obj, actions, []) else Lost(a.obj)]
  {
  }

  lemma RunCall(cfg: Config, s: State, id: nat, outcome: Outcome)
    requires id in s.attempts && s.attempts[id].Executing? && !Stopped(s.attempts[id].actions, s.attempts[id].outcomes)
    requires |s.attempts[id].outcomes| < |s.attempts[id].actions|
    ensures var a := s.attempts[id];
            Exec(cfg, s, RunAction(id, outcome)).attempts == s.attempts[id := Executing(a.obj, a.actions, a.outcomes + [outcome])]
  {
  }

  lemma RereadCall(cfg: Config, s: State, id: nat)
    requires id in s.attempts && s.attempts[id].Executing? && Stopped(s.attempts[id].actions, s.attempts[id].outcomes)
    ensures var a, s' := s.attempts[id], Exec(cfg, s, Reread(id));
            s'.clock == s.clock
            && s'.attempts == s.attempts[id :=
                 if a.obj.name in s.store.objects then Reporting(a.obj, a.actions, a.outcomes, s.store.objects[a.obj.name], s.clock)
                 else Finished(a.obj, a.actions, a.outcomes)]
  {
  }

  /** The report: a status update of the object as re-read. */
  lemma ReportCall(cfg: Config, s: State, id: nat, now: Time)
    requires ClaimExclusivity.StoreOk(s) && id in s.attempts && s.attempts[id].Reporting? && s.attempts[id].readAt <= now <= s.clock
    ensures var a, s' := s.attempts[id], Exec(cfg, s, Report(id, now));
            var status := OutcomeStatus(a.reread.status, now, SuccessCount(a.outcomes), !AnyFailed(a.outcomes), LastOutcome(a.outcomes));
            s'.store == Tasks.UpdateStatus(s.store, a.reread.(status := status)).0
            && s'.attempts == s.attempts[id := Finished(a.obj, a.actions, a.outcomes)]
  {
  }

  /** The queue as the worker meets it: `trace` is the run so far, everybody's steps included. */
  class Server {
    const cfg: Config
    var state: State
    ghost var trace: seq<Step>

    ghost predicate Valid()
      reads this
    {
      state == Run(cfg, trace)
    }

    constructor (cfg: Config)
      ensures Valid() && this.cfg == cfg && trace == []
    {
      this.cfg, state, trace := cfg, INIT, [];
    }

    lemma StoreIsOk()
      requires Valid()
      ensures ClaimExclusivity.StoreOk(state)
    {
      ClaimExclusivity.RunInv(cfg, trace);
    }

    method Perform(step: Step)
      requires Valid()
      modifies this
      ensures Valid() && state == Exec(cfg, old(state), step) && trace == old(trace) + [step]
    {
      state := Exec(cfg, state, step);
      trace := trace + [step];
      assert trace[..|trace| - 1] == old(trace);
    }

    /** What the other goroutines, janitors, controllers and the clock do in between. */
    method Others(steps: seq<Step>, ghost id: nat)
      requires Valid() && Foreign(steps, id)
      modifies this
      ensures Valid() && trace == old(trace) + steps
      ensures (id in state.attempts <==> id in old(state).attempts)
              && (id in state.attempts ==> state.attempts[id] == old(state).attempts[id])
      ensures state.clock >= old(state).clock
    {
      for i := 0 to |steps|
        invariant Valid() && trace == old(trace) + steps[..i]
        invariant (id in state.attempts <==> id in old(state).attempts)
                  && (id in state.attempts ==> state.attempts[id] == old(state).attempts[id])
        invariant state.clock >= old(state).clock
      {
        ForeignLeavesAttempt(cfg, state, steps[i], id);
        Perform(steps[i]);
      }
      assert steps[..|steps|] == steps;
    }

    /** A status update; `step` is the step of the queue it amounts to. */
    method UpdateStatus(obj: Task, step: Step) returns (ok: bool)
      requires Valid() && Exec(cfg, state, step).store == Tasks.UpdateStatus(state.store, obj).0
      modifies this
      ensures Valid() && state == Exec(cfg, old(state), step) && trace == old(trace) + [step]
      ensures ok == Tasks.UpdateStatus(old(state).store, obj).1
    {
      ok := Current(state.store, obj);
      Perform(step);
    }

    method Get(name: string, step: Step) returns (obj: Option<Task>)
      requires Valid()
      modifies this
      ensures Valid() && state == Exec(cfg, old(state), step) && trace == old(trace) + [step]
      ensures obj == if name in old(state).store.objects then Some(old(state).store.objects[name]) else None
    {
      obj := if name in state.store.objects then Some(state.store.objects[name]) else None;
      Perform(step);
    }
  }

  method SortedActions(raw: seq<Json>) returns (actions: seq<ActionConfig>)
    ensures SortedFrom(FromTaskActions(raw), actions)
  {
    var extracted := ExtractActions(raw);
    var slice := new ActionConfig[|extracted|](i requires 0 <= i < |extracted| => extracted[i]);
    assert slice[..] == extracted;
    SortSlice(slice);
    actions := slice[..];
  }

  /** The attempt is over: it lost the claim, or it ran the task's actions in a right order up to
      the first failure. */
  ghost predicate Over(s: State, id: nat, obj: Task, exec: (nat, ActionConfig) -> Outcome) {
    && id in s.attempts
    && (s.attempts[id].Lost? || s.attempts[id].Finished?)
    && s.attempts[id].obj == obj
    && (s.attempts[id].Finished? ==> RanFully(s.attempts[id].actions, s.attempts[id].outcomes, obj, exec))
  }

  ghost predicate RanFully(actions: seq<ActionConfig>, outcomes: seq<Outcome>, obj: Task, exec: (nat, ActionConfig) -> Outcome) {
    && SortedFrom(FromTaskActions(obj.spec.actions), actions)
    && UpToFailure(actions, outcomes)
    && forall k :: 0 <= k < |outcomes| ==> outcomes[k] == exec(k, actions[k])
  }

  /** Claim the task of a watch event, run its actions, report. `others(n)` are the steps everybody
      else takes before this goroutine's call n, and `exec` is the executor. */
  method ClaimAndExecute(server: Server, id: nat, identity: string, obj: Task,
                         exec: (nat, ActionConfig) -> Outcome, others: nat -> seq<Step>)
    returns (claimed: bool)
    requires server.Valid() && id !in server.state.attempts && Committed(server.state, obj) && obj.IsPending()
    requires forall n :: Foreign(others(n), id)
    modifies server
    ensures server.Valid() && old(server.trace) <= server.trace
    ensures Over(server.state, id, obj, exec)
    ensures claimed <==> server.state.attempts[id].Finished?
  {
    var actions;
    claimed, actions := ClaimTask(server, id, identity, obj, others(0));
    if !claimed {
      return;
    }
    var completed, overallOK, last, calls := RunActions(server, id, obj, actions, exec, others);
    var sent, now := UpdateTaskStatus(server, id, obj.name, completed, overallOK, last, others, calls);
  }

  /** The claim and, for the winner, the task's actions in order. */
  method ClaimTask(server: Server, id: nat, identity: string, obj: Task, others: seq<Step>)
    returns (claimed: bool, actions: seq<ActionConfig>)
    requires server.Valid() && id !in server.state.attempts && Committed(server.state, obj) && obj.IsPending()
    requires Foreign(others, id)
    modifies server
    ensures server.Valid() && old(server.trace) <= server.trace
    ensures SortedFrom(FromTaskActions(obj.spec.actions), actions)
    ensures id in server.state.attempts
    ensures server.state.attempts[id] == if claimed then Executing(obj, actions, []) else Lost(obj)
  {
    server.Perform(Watch(id, identity, obj));
    var now := server.state.clock;
    assert server.state.attempts[id] == Claiming(obj, identity, now);
    var task := new TaskObject(obj);
    task.MarkClaimed(identity, now);
    server.Others(others, id);
    actions := SortedActions(obj.spec.actions);
    server.StoreIsOk();
    ClaimCall(server.cfg, server.state, id, actions);
    claimed := server.UpdateStatus(task.Value(), Claim(id, actions));
  }

  /** The first actions were run, and none has failed. */
  ghost predicate Going(actions: seq<ActionConfig>, outcomes: seq<Outcome>, exec: (nat, ActionConfig) -> Outcome) {
    && |outcomes| <= |actions|
    && forall k :: 0 <= k < |outcomes| ==> outcomes[k] == exec(k, actions[k]) && !outcomes[k].Fails()
  }

  lemma NothingRun(actions: seq<ActionConfig>, exec: (nat, ActionConfig) -> Outcome)
    ensures Going(actions, [], exec)
  {
  }

  /** Everything has succeeded, and the run has stopped once everything was run. */
  lemma GoingOn(actions: seq<ActionConfig>, outcomes: seq<Outcome>, exec: (nat, ActionConfig) -> Outcome)
    requires Going(actions, outcomes, exec)
    ensures SuccessCount(outcomes) == |outcomes| && !AnyFailed(outcomes)
    ensures RunsUntilFailure(actions, outcomes) && (Stopped(actions, outcomes) <==> |outcomes| == |actions|)
    ensures forall k :: 0 <= k < |outcomes| ==> outcomes[k] == exec(k, actions[k])
  {
  }

  lemma OneMoreCall(actions: seq<ActionConfig>, outcomes: seq<Outcome>, exec: (nat, ActionConfig) -> Outcome, last: Outcome)
    requires Going(actions, outcomes, exec) && |outcomes| < |actions| && last == exec(|outcomes|, actions[|outcomes|])
    ensures LastOutcome(outcomes + [last]) == last
    ensures !last.Fails() ==> Going(actions, outcomes + [last], exec)
    ensures last.Fails() ==>
              var outcomes' := outcomes + [last];
              && SuccessCount(outcomes') == |outcomes| && AnyFailed(outcomes')
              && RunsUntilFailure(actions, outcomes') && Stopped(actions, outcomes')
              && forall k :: 0 <= k < |outcomes'| ==> outcomes'[k] == exec(k, actions[k])
  {
    var outcomes' := outcomes + [last];
    assert outcomes'[..|outcomes|] == outcomes && outcomes'[|outcomes|] == last;
    GoingOn(actions, outcomes, exec);
  }

  /** The actions in order, stopping at the first failure. */
  method RunActions(server: Server, id: nat, ghost obj: Task, actions: seq<ActionConfig>,
                    exec: (nat, ActionConfig) -> Outcome, others: nat -> seq<Step>)
    returns (completed: nat, overallOK: bool, last: Outcome, calls: nat)
    requires server.Valid() && id in server.state.attempts && server.state.attempts[id] == Executing(obj, actions, [])
    requires SortedFrom(FromTaskActions(obj.spec.actions), actions)
    requires forall n :: Foreign(others(n), id)
    modifies server
    ensures server.Valid() && old(server.trace) <= server.trace
    ensures id in server.state.attempts && server.state.attempts[id].Executing? && server.state.attempts[id].obj == obj
    ensures var a := server.state.attempts[id];
            && a.actions == actions && RanFully(actions, a.outcomes, obj, exec) && Stopped(actions, a.outcomes)
            && completed == SuccessCount(a.outcomes) && overallOK == !AnyFailed(a.outcomes) && last == LastOutcome(a.outcomes)
    ensures var outcomes := server.state.attempts[id].outcomes;
            && (overallOK <==> NoneFails(outcomes, |outcomes|))
            && completed == (if overallOK then |outcomes| else |outcomes| - 1)
            && (outcomes != [] ==> last == outcomes[|outcomes| - 1])
  {
    hide Run, SortedFrom, SuccessCount, AnyFailed, Stopped, RunsUntilFailure, UpToFailure, NoneFails, Going;
    completed, overallOK, last, calls := 0, true, NO_OUTCOME, 1;
    ghost var outcomes: seq<Outcome> := [];
    var i := 0;
    NothingRun(actions, exec);
    while i < |actions|
      invariant 0 <= i <= |actions| && completed == i == |outcomes| && overallOK
      invariant server.Valid() && old(server.trace) <= server.trace
      invariant id in server.state.attempts && server.state.attempts[id] == Executing(obj, actions, outcomes)
      invariant Going(actions, outcomes, exec) && last == LastOutcome(outcomes)
    {
      GoingOn(actions, outcomes, exec);
      last := CallExecutor(server, id, obj, actions, outcomes, i, exec, others(calls));
      calls := calls + 1;
      OneMoreCall(actions, outcomes, exec, last);
      outcomes := outcomes + [last];
      if last.Fails() {
        overallOK := false;
        break;
      }
      completed := completed + 1;
      i := i + 1;
    }
    if overallOK {
      GoingOn(actions, outcomes, exec);
    }
    StopsAtFailure(actions, outcomes);
  }

  /** One executor call, after others' steps. */
  method CallExecutor(server: Server, id: nat, ghost obj: Task, actions: seq<ActionConfig>, ghost outcomes: seq<Outcome>, i: nat,
                      exec: (nat, ActionConfig) -> Outcome, others: seq<Step>)
    returns (outcome: Outcome)
    requires server.Valid() && id in server.state.attempts && server.state.attempts[id] == Executing(obj, actions, outcomes)
    requires i == |outcomes| < |actions| && !Stopped(actions, outcomes) && Foreign(others, id)
    modifies server
    ensures server.Valid() && old(server.trace) <= server.trace
    ensures outcome == exec(i, actions[i])
    ensures id in server.state.attempts && server.state.attempts[id] == Executing(obj, actions, outcomes + [outcome])
  {
    hide Run;
    server.Others(others, id);
    outcome := exec(i, actions[i]);
    RunCall(server.cfg, server.state, id, outcome);
    server.Perform(RunAction(id, outcome));
  }

  /** The object sent for a task that was re-read as `reread`. */
  function ReportOf(reread: Task, now: Time, completed: nat, success: bool, last: Outcome): Task {
    reread.(status := OutcomeStatus(reread.status, now, completed, success, last))
  }

  /** What reporting adds to the run: after others' steps o1 the task is re-read by name; if it is
      gone nothing more happens, otherwise, after others' steps o2, the outcome is sent once, over the
      object as re-read, at a time between the two calls. */
  ghost predicate ReportsBetween(cfg: Config, before: seq<Step>, o1: seq<Step>, o2: seq<Step>, after: seq<Step>,
                                 id: nat, taskName: string, now: Time, completed: nat, success: bool, last: Outcome, sent: Option<Task>) {
    var t1 := before + o1;
    var s1 := Run(cfg, t1);
    if taskName in s1.store.objects then
      var t2 := t1 + [Reread(id)] + o2;
      && s1.clock <= now <= Run(cfg, t2).clock
      && after == t2 + [Report(id, now)]
      && sent == Some(ReportOf(s1.store.objects[taskName], now, completed, success, last))
      && SaysOutcome(sent.value.status, now, completed, success, last)
      && Run(cfg, after).store == Tasks.UpdateStatus(Run(cfg, t2).store, sent.value).0
    else
      after == t1 + [Reread(id)] && sent == None
  }

  /** Re-read the task by name and write the outcome over whatever status it has by now. */
  method UpdateTaskStatus(server: Server, id: nat, taskName: string, completed: nat, success: bool, last: Outcome,
                          others: nat -> seq<Step>, calls: nat)
    returns (sent: Option<Task>, now: Time)
    requires server.Valid() && id in server.state.attempts && server.state.attempts[id].Executing?
    requires var a := server.state.attempts[id];
             && a.obj.name == taskName && Stopped(a.actions, a.outcomes)
             && completed == SuccessCount(a.outcomes) && success == !AnyFailed(a.outcomes) && last == LastOutcome(a.outcomes)
    requires forall n :: Foreign(others(n), id)
    modifies server
    ensures server.Valid() && id in server.state.attempts
    ensures ReportsBetween(server.cfg, old(server.trace), others(calls), others(calls + 1) + others(calls + 2), server.trace,
                           id, taskName, now, completed, success, last, sent)
    ensures var a := old(server.state).attempts[id];
            server.state.attempts[id] == Finished(a.obj, a.actions, a.outcomes)
  {
    var obj := ReadTask(server, id, taskName, others(calls));
    sent, now := None, 0;
    if obj.Some? {
      sent, now := SendReport(server, id, obj.value, completed, success, last, others(calls + 1), others(calls + 2));
    }
  }

  /** The read call: whatever is stored under the name after others' steps. */
  method ReadTask(server: Server, id: nat, taskName: string, others: seq<Step>) returns (obj: Option<Task>)
    requires server.Valid() && id in server.state.attempts && server.state.attempts[id].Executing?
    requires var a := server.state.attempts[id]; a.obj.name == taskName && Stopped(a.actions, a.outcomes)
    requires Foreign(others, id)
    modifies server
    ensures server.Valid() && server.trace == old(server.trace) + others + [Reread(id)] && id in server.state.attempts
    ensures var a, s := old(server.state).attempts[id], Run(server.cfg, old(server.trace) + others);
            && server.state.clock == s.clock
            && obj == (if taskName in s.store.objects then Some(s.store.objects[taskName]) else None)
            && server.state.attempts[id] == (if obj.Some? then Reporting(a.obj, a.actions, a.outcomes, obj.value, s.clock)
                                             else Finished(a.obj, a.actions, a.outcomes))
  {
    server.Others(others, id);
    RereadCall(server.cfg, server.state, id);
    obj := server.Get(taskName, Reread(id));
  }

  /** The write call: the outcome over the object as read, sent once. */
  method SendReport(server: Server, id: nat, reread: Task, completed: nat, success: bool, last: Outcome,
                    o1: seq<Step>, o2: seq<Step>)
    returns (sent: Option<Task>, now: Time)
    requires server.Valid() && id in server.state.attempts && server.state.attempts[id].Reporting?
    requires var a := server.state.attempts[id];
             && a.reread == reread && a.readAt == server.state.clock
             && completed == SuccessCount(a.outcomes) && success == !AnyFailed(a.outcomes) && last == LastOutcome(a.outcomes)
    requires Foreign(o1, id) && Foreign(o2, id)
    modifies server
    ensures server.Valid() && id in server.state.attempts
    ensures var t2 := old(server.trace) + (o1 + o2);
            && old(server.state).clock <= now <= Run(server.cfg, t2).clock
            && server.trace == t2 + [Report(id, now)]
            && sent == Some(ReportOf(reread, now, completed, success, last))
            && SaysOutcome(sent.value.status, now, completed, success, last)
            && server.state.store == Tasks.UpdateStatus(Run(server.cfg, t2).store, sent.value).0
    ensures var a := old(server.state).attempts[id];
            server.state.attempts[id] == Finished(a.obj, a.actions, a.outcomes)
  {
    server.Others(o1, id);
    now := server.state.clock;
    var task := new TaskObject(reread);
    task.MarkOutcome(now, completed, success, last);
    server.Others(o2, id);
    assert server.trace == old(server.trace) + (o1 + o2);
    server.StoreIsOk();
    ReportCall(server.cfg, server.state, id, now);
    var ok := server.UpdateStatus(task.Value(), Report(id, now));
    sent := Some(task.Value());
  }
}
