/** The remediation controller as it updates its states in place, proved against Remediation's
    steps. */
module RemediationController {
  import opened Types
  import opened Actions
  import opened Maps
  import D = Detection
  import R = Remediation

  class StateCell {
    ghost const key: string
    var lastRemediation: Time
    var remediationCount: int
    var cooldownUntil: Time
    var escalated: bool
    var lastActionStatus: ActionStatus

    constructor (ghost key: string)
      ensures Value() == R.FRESH && this.key == key
    {
      this.key := key;
      lastRemediation, remediationCount, cooldownUntil, escalated, lastActionStatus := 0, 0, 0, false, NoStatus;
    }

    function Value(): R.RemediationState
      reads this
    {
      R.RemediationState(lastRemediation, remediationCount, cooldownUntil, escalated, lastActionStatus)
    }
  }

  /** What the controller sends to its output channel besides action results. */
  datatype Notice = SkippedInCooldown(key: string) | EscalationTriggered(key: string) | ActionDone(key: string, outcome: Outcome)

  /** In leader mode tasks are published, otherwise actions run locally. `publishFails` and `exec`
      are the answers of the API server and of the executor. */
  datatype Mode = Leader(publishFails: bool) | Standalone(exec: (nat, ActionConfig) -> Outcome)

  /** The status the local execution leaves: none without actions, "failed" after an error or that
      status, else the status of the last action run. */
  ghost predicate LeavesStatus(outcomes: seq<Outcome>, status: Option<ActionStatus>) {
    if outcomes == [] then
      status == None
    else
      var last := outcomes[|outcomes| - 1];
      status == Some(if last.err != None || last.status == ActionFailed then ActionFailed else last.status)
  }

  /** One notice was sent for each action run, in order. */
  ghost predicate Notified(key: string, outcomes: seq<Outcome>, sent: seq<Notice>, sent': seq<Notice>) {
    && |sent'| == |sent| + |outcomes| && sent <= sent'
    && forall i :: 0 <= i < |outcomes| ==> sent'[|sent| + i] == ActionDone(key, outcomes[i])
  }

  /** The shared action slice was sorted in place and run up to its first failure. */
  ghost predicate RanLocally(before: seq<ActionConfig>, after: seq<ActionConfig>, exec: (nat, ActionConfig) -> Outcome, outcomes: seq<Outcome>) {
    && SortedFrom(before, after)
    && UpToFailure(after, outcomes)
    && forall i :: 0 <= i < |outcomes| ==> outcomes[i] == exec(i, after[i])
  }

  /** What leaves the controller, besides its states: handed to the publisher and sent. */
  datatype Output = Output(published: seq<D.DetectionResult>, sent: seq<Notice>)

  /** Everything a remediation does outside the state: a leader hands a result with actions to the
      publisher, a standalone controller runs the actions and sends one notice for each action run. */
  ghost predicate Acted(key: string, result: D.DetectionResult, mode: Mode, before: seq<ActionConfig>, after: seq<ActionConfig>,
                        o: Output, o': Output, status: Option<ActionStatus>) {
    match mode
    case Leader(publishFails) =>
      && after == before && o'.sent == o.sent
      && o'.published == o.published + (if result.recommendedActions == [] then [] else [result])
      && status == if result.recommendedActions != [] && publishFails then Some(ActionFailed) else None
    case Standalone(exec) =>
      && o'.published == o.published
      && exists outcomes :: RanLocally(before, after, exec, outcomes)
                            && Notified(key, outcomes, o.sent, o'.sent) && LeavesStatus(outcomes, status)
  }

  /** Everything processing a result does outside the state, by its decision. */
  ghost predicate Answered(decision: R.Decision, key: string, result: D.DetectionResult, mode: Mode,
                           before: seq<ActionConfig>, after: seq<ActionConfig>, o: Output, o': Output, status: Option<ActionStatus>) {
    match decision
    case Remediate => Acted(key, result, mode, before, after, o, o', status)
    case Cooling => after == before && status == None && o' == o.(sent := o.sent + [SkippedInCooldown(key)])
    case Escalate => after == before && status == None && o' == o.(sent := o.sent + [EscalationTriggered(key)])
    case _ => after == before && status == None && o' == o
  }

  class Controller {
    const cfg: R.Config
    var states: map<string, StateCell>
    ghost var cells: set<StateCell>
    /** Results handed to the publisher. */
    var published: seq<D.DetectionResult>
    /** Notices the controller tried to send; a full channel drops them after this point. */
    var sent: seq<Notice>

    ghost predicate Valid()
      reads this
    {
      forall k :: k in states ==> states[k] in cells && states[k].key == k
    }

    ghost function View(): R.States
      requires Valid()
      reads this, cells
    {
      map k | k in states :: states[k].Value()
    }

    ghost function Outputs(): Output
      reads this
    {
      Output(published, sent)
    }

    constructor (cfg: R.Config)
      ensures Valid() && this.cfg == cfg && View() == map[] && published == [] && sent == []
    {
      this.cfg, states, cells, published, sent := cfg, map[], {}, [], [];
    }

    /** The store's write. `before` is the view before the cell's fields were touched. */
    method SetState(key: string, cell: StateCell, ghost before: R.States)
      requires Valid() && cell.key == key
      requires forall k :: k in states && k != key ==> k in before && states[k].Value() == before[k]
      requires forall k :: k in before && k != key ==> k in states
      modifies `states, `cells
      ensures Valid() && cells == old(cells) + {cell}
      ensures View() == before[key := cell.Value()]
    {
      cells := cells + {cell};
      states := states[key := cell];
      assert View().Keys == before[key := cell.Value()].Keys;
    }

    method IsInCooldown(state: StateCell, now: Time) returns (b: bool)
      ensures b <==> R.InCooldown(state.Value(), now)
    {
      if state.cooldownUntil == 0 {
        return false;
      }
      b := now < state.cooldownUntil;
    }

    /** Nothing is published for a result without actions; a failed create marks the state. */
    method PublishTask(result: D.DetectionResult, state: StateCell, publishFails: bool) returns (status: Option<ActionStatus>)
      modifies `published, state`lastActionStatus
      ensures published == old(published) + (if result.recommendedActions == [] then [] else [result])
      ensures status == if result.recommendedActions != [] && publishFails then Some(ActionFailed) else None
      ensures state.lastActionStatus == if status.Some? then status.value else old(state.lastActionStatus)
    {
      status := None;
      if result.recommendedActions == [] {
        return;
      }
      published := published + [result];
      if publishFails {
        status := Some(ActionFailed);
        state.lastActionStatus := ActionFailed;
      }
    }

    /** Sort the shared action slice in place and run it up to the first failure. */
    method ExecuteActions(key: string, actions: array<ActionConfig>, state: StateCell, exec: (nat, ActionConfig) -> Outcome)
      returns (status: Option<ActionStatus>, outcomes: seq<Outcome>)
      modifies actions, `sent, state`lastActionStatus
      ensures RanLocally(old(actions[..]), actions[..], exec, outcomes)
      ensures Notified(key, outcomes, old(sent), sent) && LeavesStatus(outcomes, status)
      ensures state.lastActionStatus == if status.Some? then status.value else old(state.lastActionStatus)
    {
      status, outcomes := None, [];
      SortSlice(actions);
      var i := 0;
      while i < actions.Length
        invariant 0 <= i <= actions.Length && |outcomes| == i
        invariant SortedFrom(old(actions[..]), actions[..])
        invariant forall k :: 0 <= k < i ==> outcomes[k] == exec(k, actions[k]) && !outcomes[k].Fails()
        invariant Notified(key, outcomes, old(sent), sent) && LeavesStatus(outcomes, status)
        invariant state.lastActionStatus == if status.Some? then status.value else old(state.lastActionStatus)
      {
        var outcome := exec(i, actions[i]);
        outcomes := outcomes + [outcome];
        sent := sent + [ActionDone(key, outcome)];
        if outcome.Fails() {
          state.lastActionStatus := ActionFailed;
          status := Some(ActionFailed);
          assert outcomes[i].Fails();
          break;
        }
        state.lastActionStatus := outcome.status;
        status := Some(outcome.status);
        i := i + 1;
      }
    }

    /** The key's stored cell, or a fresh one that is not stored yet. */
    method GetOrCreate(key: string) returns (state: StateCell)
      requires Valid()
      ensures state.key == key && state.Value() == R.Current(R.Lookup(View(), key))
      ensures if key in states then state == states[key] else fresh(state)
    {
      if key in states {
        state := states[key];
      } else {
        state := new StateCell(key);
      }
    }

    /** Publish or execute, then update the state regardless of the mode. */
    method Remediate(key: string, state: StateCell, result: D.DetectionResult, actions: array<ActionConfig>, mode: Mode, acted: Time, end: Time)
      returns (status: Option<ActionStatus>)
      requires Valid() && state.key == key && (key in states ==> state == states[key])
      modifies this, state, actions
      ensures Valid() && cells == old(cells) + {state}
      ensures View() == old(View())[key := R.AfterRemediation(cfg, old(state.Value()), acted, end, status)]
      ensures Acted(key, result, mode, old(actions[..]), actions[..], old(Outputs()), Outputs(), status)
    {
      ghost var before := View();
      if mode.Leader? {
        status := PublishTask(result, state, mode.publishFails);
      } else {
        var outcomes;
        status, outcomes := ExecuteActions(key, actions, state, mode.exec);
        assert RanLocally(old(actions[..]), actions[..], mode.exec, outcomes);
      }
      Record(key, state, acted, end, before, old(state.Value()), status);
    }

    /** The cell's new fields, and the store's write. */
    method Record(key: string, state: StateCell, acted: Time, end: Time, ghost before: R.States, ghost was: R.RemediationState,
                  ghost status: Option<ActionStatus>)
      requires Valid() && state.key == key
      requires forall k :: k in states && k != key ==> k in before && states[k].Value() == before[k]
      requires forall k :: k in before && k != key ==> k in states
      requires state.Value() == was.(lastActionStatus := if status.Some? then status.value else was.lastActionStatus)
      modifies `states, `cells, state
      ensures Valid() && cells == old(cells) + {state}
      ensures View() == before[key := R.AfterRemediation(cfg, was, acted, end, status)]
    {
      state.lastRemediation := acted;
      state.remediationCount := state.remediationCount + 1;
      state.cooldownUntil := end + cfg.cooldown;
      assert state.Value() == R.AfterRemediation(cfg, was, acted, end, status);
      SetState(key, state, before);
    }

    method EscalateOnce(key: string, state: StateCell)
      requires Valid() && state.key == key && (key in states ==> state == states[key])
      modifies this, state
      ensures Valid() && cells <= old(cells) + {state} && published == old(published)
      ensures if old(state.escalated) then View() == old(View()) && sent == old(sent)
              else View() == old(View())[key := old(state.Value()).(escalated := true)] && sent == old(sent) + [EscalationTriggered(key)]
    {
      if !state.escalated {
        ghost var before := View();
        sent := sent + [EscalationTriggered(key)];
        state.escalated := true;
        SetState(key, state, before);
      }
    }

    /** `start`, `acted` and `end` are the clock at the cooldown check, when the actions are done,
        and when the new cooldown is computed. */
    method ProcessKey(key: string, result: D.DetectionResult, actions: array<ActionConfig>, mode: Mode, start: Time, acted: Time, end: Time)
      returns (status: Option<ActionStatus>)
      requires Valid() && actions[..] == result.recommendedActions
      modifies this, cells, actions
      ensures Valid() && fresh(cells - old(cells))
      ensures View() == R.StepStates(cfg, old(View()), R.Process(key, true, start, acted, end, status))
      ensures var decision := R.Decide(cfg, R.Lookup(old(View()), key), true, start);
              Answered(decision, key, result, mode, old(actions[..]), actions[..], old(Outputs()), Outputs(), status)
    {
      hide R.StepStates;
      status := None;
      var state := GetOrCreate(key);
      var cooling := IsInCooldown(state, start);
      if cooling {
        sent := sent + [SkippedInCooldown(key)];
        R.StepByDecision(cfg, old(View()), R.Process(key, true, start, acted, end, status));
        assert View() == old(View());
        return;
      }
      status := RemediateOrEscalate(key, state, result, actions, mode, start, acted, end);
    }

    /** Out of cooldown: while retries are left the key is remediated, then it is escalated. */
    method RemediateOrEscalate(key: string, state: StateCell, result: D.DetectionResult, actions: array<ActionConfig>, mode: Mode,
                               ghost start: Time, acted: Time, end: Time)
      returns (status: Option<ActionStatus>)
      requires Valid() && state.key == key && (key in states ==> state == states[key])
      requires state.Value() == R.Current(R.Lookup(View(), key)) && !R.InCooldown(state.Value(), start)
      modifies this, state, actions
      ensures Valid() && cells <= old(cells) + {state}
      ensures View() == R.StepStates(cfg, old(View()), R.Process(key, true, start, acted, end, status))
      ensures var decision := R.Decide(cfg, R.Lookup(old(View()), key), true, start);
              Answered(decision, key, result, mode, old(actions[..]), actions[..], old(Outputs()), Outputs(), status)
    {
      hide R.StepStates;
      status := None;
      if state.remediationCount >= cfg.maxRetries {
        EscalateOnce(key, state);
      } else {
        status := Remediate(key, state, result, actions, mode, acted, end);
      }
      R.StepByDecision(cfg, old(View()), R.Process(key, true, start, acted, end, status));
    }

    /** The policy gate, and the key. */
    method ProcessResult(result: D.DetectionResult, actions: array<ActionConfig>, covered: bool, mode: Mode, start: Time, acted: Time, end: Time)
      returns (status: Option<ActionStatus>)
      requires Valid() && actions[..] == result.recommendedActions
      modifies this, cells, actions
      ensures Valid() && fresh(cells - old(cells))
      ensures var key := StateKey(result.scenarioID, result.resource);
              && View() == R.StepStates(cfg, old(View()), R.Process(key, covered, start, acted, end, status))
              && Answered(R.Decide(cfg, R.Lookup(old(View()), key), covered, start), key, result, mode,
                          old(actions[..]), actions[..], old(Outputs()), Outputs(), status)
      ensures !covered ==>
                View() == old(View()) && Outputs() == old(Outputs()) && actions[..] == old(actions[..]) && status == None
    {
      status := None;
      if !covered {
        return;
      }
      var stateKey := StateKey(result.scenarioID, result.resource);
      status := ProcessKey(stateKey, result, actions, mode, start, acted, end);
    }

    method Cleanup(now: Time) returns (cleaned: nat)
      requires Valid()
      modifies `states
      ensures Valid()
      ensures View() == R.StepStates(cfg, old(View()), R.Cleanup(now))
      ensures cleaned == |old(states)| - |states|
    {
      hide Swept;
      cleaned := 0;
      ghost var before := states;
      ghost var stale := set k | k in before && R.Forgettable(before[k].Value(), now);
      var keys := states.Keys;
      SweepStarts(before, stale);
      while keys != {}
        invariant keys <= before.Keys && states == Swept(before, stale, keys)
        invariant cleaned == |before| - |states|
      {
        var key :| key in keys;
        Unseen(before, stale, keys, key);
        var state := states[key];
        if state.lastRemediation < now - 30 * MINUTE && now > state.cooldownUntil {
          SweepStale(before, stale, keys, key);
          states := states - {key};
          cleaned := cleaned + 1;
        } else {
          SweepFresh(before, stale, keys, key);
        }
        keys := keys - {key};
      }
      SweepEnds(before, stale);
      assert View().Keys == R.StepStates(cfg, old(View()), R.Cleanup(now)).Keys;
    }
  }
}
