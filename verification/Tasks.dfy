/** RemediationTask objects and the API server that stores them.

    The server keeps one object per name and one version counter for all of them. A status
    update replaces only the status, and only when the version it was computed from is still
    the stored one. */
module Tasks {
  import opened Types
  import opened Actions

  /** The status phase. A task without a status counts as Pending. */
  datatype Phase = Unset | Pending | Running | Completed | Failed | Expired | Unknown(raw: string)
  {
    function Effective(): Phase {
      if Unset? then Pending else this
    }

    predicate Terminal() {
      Completed? || Failed? || Expired?
    }
  }

  /** A timestamp field of the status, written with whole seconds (section 5.6 of RFC 3339). */
  datatype Stamp = Absent | Malformed | At(seconds: nat)

  function ToStamp(t: Time): Stamp {
    At(t / SECOND)
  }

  /** The instant a stamp reads back as; anything unreadable is the zero instant. */
  function Instant(s: Stamp): Time {
    if s.At? then s.seconds * SECOND else 0
  }

  /** Formatting loses less than a second and never rounds up. */
  lemma StampTruncates(t: Time)
    ensures Instant(ToStamp(t)) <= t < Instant(ToStamp(t)) + SECOND
  {
  }

  datatype TaskResult = NoResult | TaskResult(success: bool, message: string, error: Option<string>)

  datatype Status = Status(
    phase: Phase, claimedBy: Option<string>, claimedAt: Stamp, completedAt: Stamp,
    actionsCompleted: nat, result: TaskResult)

  const NO_STATUS := Status(Unset, None, Absent, Absent, 0, NoResult)

  datatype Spec = Spec(scenarioID: string, target: ResourceReference, actions: seq<Json>)

  datatype Task = Task(name: string, uid: nat, version: nat, created: Time, spec: Spec, status: Status)
  {
    predicate IsPending() {
      status.phase.Effective() == Pending
    }
  }

  // ---------------------------------------------------------------- what writers put in the status

  function ClaimStatus(st: Status, worker: string, now: Time): Status {
    st.(phase := Running, claimedBy := Some(worker), claimedAt := ToStamp(now))
  }

  function OutcomeStatus(st: Status, now: Time, completed: nat, success: bool, last: Outcome): Status {
    st.(phase := if success then Completed else Failed,
        completedAt := ToStamp(now),
        actionsCompleted := completed,
        result := TaskResult(success, last.message,
                             if last.err.Some? then last.err
                             else if last.error != "" then Some(last.error) else None))
  }

  /** What a reader of the status learns from a report: the verdict twice, when, how far the actions got,
      the last message, and the error the executor returned, else the one in its result, if any. */
  ghost predicate SaysOutcome(st: Status, now: Time, completed: nat, success: bool, last: Outcome) {
    && (st.phase == Completed <==> success) && (st.phase == Failed <==> !success)
    && st.completedAt == ToStamp(now) && st.actionsCompleted == completed
    && st.result.TaskResult? && (st.result.success <==> success) && st.result.message == last.message
    && (last.err != None ==> st.result.error == last.err)
    && (last.err == None && last.error != "" ==> st.result.error == Some(last.error))
    && (last.err == None && last.error == "" ==> st.result.error == None)
  }

  function ExpiredStatus(st: Status, now: Time): Status {
    st.(phase := Expired, completedAt := ToStamp(now),
        result := TaskResult(false, "Expired: stuck in Running for longer than the active deadline", None))
  }

  /** A task object in the hands of a client, with the status fields it rewrites in place. */
  class TaskObject {
    const name: string
    const uid: nat
    const version: nat
    const created: Time
    const spec: Spec
    var status: Status

    constructor (t: Task)
      ensures Value() == t
    {
      name, uid, version, created, spec, status := t.name, t.uid, t.version, t.created, t.spec, t.status;
    }

    function Value(): Task
      reads this
    {
      Task(name, uid, version, created, spec, status)
    }

    /** The worker's claim: phase, claimedBy and claimedAt. */
    method MarkClaimed(worker: string, now: Time)
      modifies this
      ensures Value() == old(Value()).(status := ClaimStatus(old(status), worker, now))
      ensures status == Status(Running, Some(worker), ToStamp(now), old(status.completedAt), old(status.actionsCompleted), old(status.result))
    {
      status := status.(phase := Running);
      status := status.(claimedBy := Some(worker));
      status := status.(claimedAt := ToStamp(now));
    }

    /** The worker's report: phase, completedAt, actionsCompleted and result. */
    method MarkOutcome(now: Time, completed: nat, success: bool, last: Outcome)
      modifies this
      ensures Value() == old(Value()).(status := OutcomeStatus(old(status), now, completed, success, last))
      ensures SaysOutcome(status, now, completed, success, last)
      ensures status.claimedBy == old(status.claimedBy) && status.claimedAt == old(status.claimedAt)
    {
      var phase := Completed;
      if !success {
        phase := Failed;
      }
      status := status.(phase := phase);
      status := status.(completedAt := ToStamp(now));
      status := status.(actionsCompleted := completed);
      var error: Option<string> := None;
      if last.err.Some? {
        error := last.err;
      } else if last.error != "" {
        error := Some(last.error);
      }
      status := status.(result := TaskResult(success, last.message, error));
    }

    /** The janitor's expiry: phase, completedAt and result. */
    method MarkExpired(now: Time)
      modifies this
      ensures Value() == old(Value()).(status := ExpiredStatus(old(status), now))
      ensures status.phase == Expired && status.completedAt == ToStamp(now)
      ensures status.result.TaskResult? && !status.result.success && status.result.error == None
      ensures status.claimedBy == old(status.claimedBy) && status.claimedAt == old(status.claimedAt)
    {
      status := status.(phase := Expired);
      status := status.(completedAt := ToStamp(now));
      status := status.(result := TaskResult(false, "Expired: stuck in Running for longer than the active deadline", None));
    }
  }

  // ---------------------------------------------------------------- the API server

  datatype Store = Store(objects: map<string, Task>, version: nat)

  const EMPTY_STORE := Store(map[], 0)

  /** A create under a name in use is refused. A new object's uid is the version it is born with. */
  function Create(s: Store, name: string, now: Time, spec: Spec): (r: (Store, bool)) {
    if name in s.objects then
      (s, false)
    else
      var v := s.version + 1;
      (Store(s.objects[name := Task(name, v, v, now / SECOND * SECOND, spec, NO_STATUS)], v), true)
  }

  predicate Current(s: Store, obj: Task) {
    obj.name in s.objects && s.objects[obj.name].version == obj.version
  }

  function UpdateStatus(s: Store, obj: Task): (r: (Store, bool)) {
    if Current(s, obj) then
      var v := s.version + 1;
      (Store(s.objects[obj.name := s.objects[obj.name].(version := v, status := obj.status)], v), true)
    else
      (s, false)
  }

  /** A delete names an object and nothing else: no version, no uid. */
  function Delete(s: Store, name: string): Store {
    s.(objects := s.objects - {name})
  }
}
