/** The remediation controller's cooldown, retry budget and escalation: what processing one result
    and one background cleanup do, and what whole runs of them guarantee although cleanups forget.

    A run is the sequence of results and cleanups of one controller, one at a time. Processing a
    result takes time: it starts, acts (LastRemediation is set when the actions are done) and ends. */
module Remediation {
  import opened Types
  import opened Actions
  import Arithmetic

  const FORGET_AFTER: nat := 30 * MINUTE

  datatype Config = Config(cooldown: nat, maxRetries: int)
  {
    /** What loading the configuration enforces. */
    predicate Validated() {
      cooldown >= MINUTE && maxRetries >= 1
    }
  }

  datatype RemediationState = RemediationState(
    lastRemediation: Time, remediationCount: int, cooldownUntil: Time, escalated: bool, lastActionStatus: ActionStatus)

  const FRESH := RemediationState(0, 0, 0, false, NoStatus)

  type States = map<string, RemediationState>

  datatype Event =
    | Process(key: string, covered: bool, start: Time, acted: Time, end: Time, status: Option<ActionStatus>)
    | Cleanup(now: Time)
  {
    function Begin(): Time {
      if Process? then start else now
    }

    function Finish(): Time {
      if Process? then end else now
    }
  }

  datatype Decision = NotCovered | Cooling | Escalate | Exhausted | Remediate

  // ---------------------------------------------------------------- one event

  predicate InCooldown(st: RemediationState, now: Time) {
    st.cooldownUntil != 0 && now < st.cooldownUntil
  }

  function Current(st: Option<RemediationState>): RemediationState {
    if st.Some? then st.value else FRESH
  }

  function Decide(cfg: Config, st: Option<RemediationState>, covered: bool, now: Time): Decision {
    if !covered then NotCovered
    else if InCooldown(Current(st), now) then Cooling
    else if Current(st).remediationCount >= cfg.maxRetries then
      if Current(st).escalated then Exhausted else Escalate
    else Remediate
  }

  function AfterRemediation(cfg: Config, st: RemediationState, acted: Time, end: Time, status: Option<ActionStatus>): RemediationState {
    RemediationState(acted, st.remediationCount + 1, end + cfg.cooldown, st.escalated,
                     if status.Some? then status.value else st.lastActionStatus)
  }

  function StepOption(cfg: Config, st: Option<RemediationState>, e: Event): Option<RemediationState>
    requires e.Process?
  {
    match Decide(cfg, st, e.covered, e.start)
    case Remediate => Some(AfterRemediation(cfg, Current(st), e.acted, e.end, e.status))
    case Escalate => Some(Current(st).(escalated := true))
    case _ => st
  }

  predicate Forgettable(st: RemediationState, now: Time) {
    st.lastRemediation < now - FORGET_AFTER && now > st.cooldownUntil
  }

  function Lookup(states: States, key: string): Option<RemediationState> {
    if key in states then Some(states[key]) else None
  }

  function StepStates(cfg: Config, states: States, e: Event): States {
    match e
    case Process(key, _, _, _, _, _) =>
      var st := StepOption(cfg, Lookup(states, key), e);
      if st.Some? then states[key := st.value] else states
    case Cleanup(now) =>
      map k | k in states && !Forgettable(states[k], now) :: states[k]
  }

  /** What processing a result does to the states, by its decision. */
  lemma StepByDecision(cfg: Config, states: States, e: Event)
    requires e.Process?
    ensures var st := Lookup(states, e.key);
            StepStates(cfg, states, e)
            == match Decide(cfg, st, e.covered, e.start)
               case Remediate => states[e.key := AfterRemediation(cfg, Current(st), e.acted, e.end, e.status)]
               case Escalate => states[e.key := Current(st).(escalated := true)]
               case _ => states
  {
  }

  // ---------------------------------------------------------------- runs

  function StatesAfter(cfg: Config, run: seq<Event>): States {
    if run == [] then map[] else StepStates(cfg, StatesAfter(cfg, run[..|run| - 1]), run[|run| - 1])
  }

  /** The i-th event of the run makes this decision for the key. */
  predicate DecidesAt(cfg: Config, key: string, run: seq<Event>, i: nat, d: Decision) {
    && i < |run| && run[i].Process? && run[i].key == key
    && Decide(cfg, Lookup(StatesAfter(cfg, run[..i]), key), run[i].covered, run[i].start) == d
  }

  /** The i-th event of the run is a cleanup that deletes the key's state. */
  predicate ForgetsAt(cfg: Config, key: string, run: seq<Event>, i: nat) {
    && i < |run| && run[i].Cleanup? && key in StatesAfter(cfg, run[..i])
    && Forgettable(StatesAfter(cfg, run[..i])[key], run[i].now)
  }

  /** Events follow one another on a monotone clock. */
  predicate Clocked(run: seq<Event>) {
    && (forall i :: 0 <= i < |run| && run[i].Process? ==> run[i].start <= run[i].acted <= run[i].end)
    && (forall i, j :: 0 <= i < j < |run| ==> run[i].Finish() <= run[j].Begin())
  }

  /** Only covered results are remediated, escalated or skipped for a cooldown, and an uncovered one
      leaves all states as they were. */
  lemma OnlyCovered(cfg: Config, key: string, run: seq<Event>, i: nat)
    requires i < |run| && run[i].Process?
    ensures DecidesAt(cfg, key, run, i, Remediate) || DecidesAt(cfg, key, run, i, Escalate) || DecidesAt(cfg, key, run, i, Cooling) ==>
              run[i].covered
    ensures !run[i].covered ==> StatesAfter(cfg, run[..i + 1]) == StatesAfter(cfg, run[..i])
  {
    assert run[..i + 1][..i] == run[..i];
  }

  // ---------------------------------------------------------------- one key's view

  function StepKey(cfg: Config, key: string, st: Option<RemediationState>, e: Event): Option<RemediationState> {
    match e
    case Process(k, _, _, _, _, _) => if k == key then StepOption(cfg, st, e) else st
    case Cleanup(now) => if st.Some? && Forgettable(st.value, now) then None else st
  }

  function KeyAfter(cfg: Config, key: string, run: seq<Event>): Option<RemediationState> {
    if run == [] then None else StepKey(cfg, key, KeyAfter(cfg, key, run[..|run| - 1]), run[|run| - 1])
  }

  /** A key's state in the store of an interleaved run is the fold of its own results and the
      cleanups: results of other keys never matter to it. */
  lemma {:induction false} KeyView(cfg: Config, key: string, run: seq<Event>)
    ensures Lookup(StatesAfter(cfg, run), key) == KeyAfter(cfg, key, run)
  {
    if run != [] {
      KeyView(cfg, key, run[..|run| - 1]);
    }
  }

  lemma {:induction false} KeyStep(cfg: Config, key: string, run: seq<Event>, i: nat)
    requires i < |run|
    ensures KeyAfter(cfg, key, run[..i + 1]) == StepKey(cfg, key, KeyAfter(cfg, key, run[..i]), run[i])
    ensures Lookup(StatesAfter(cfg, run[..i]), key) == KeyAfter(cfg, key, run[..i])
  {
    assert run[..i + 1][..i] == run[..i];
    KeyView(cfg, key, run[..i]);
  }

  // ---------------------------------------------------------------- cooldown

  /** From event n on, the cooldown of a remediation that ended at `end` is still guarded: by the
      state, or, if that was forgotten, by the clock itself. */
  ghost predicate Guarded(cfg: Config, key: string, run: seq<Event>, end: Time, n: nat)
    requires n <= |run|
  {
    || (KeyAfter(cfg, key, run[..n]).Some? && KeyAfter(cfg, key, run[..n]).value.cooldownUntil >= end + cfg.cooldown)
    || OnlyFrom(run, n, end + cfg.cooldown)
  }

  /** One event keeps the stored cooldown, unless it is a cleanup after its end. */
  lemma CooldownKept(cfg: Config, key: string, st: Option<RemediationState>, e: Event, until: Time)
    requires until > 0 && st.Some? && st.value.cooldownUntil >= until && (e.Process? ==> e.start <= e.end)
    ensures var st' := StepKey(cfg, key, st, e);
            (st'.Some? && st'.value.cooldownUntil >= until) || (e.Cleanup? && e.now > until)
  {
  }

  ghost predicate OnlyFrom(run: seq<Event>, n: nat, t: Time) {
    forall m :: n <= m < |run| ==> run[m].Begin() >= t
  }

  lemma FromThenOn(run: seq<Event>, n: nat, t: Time)
    requires Clocked(run) && n < |run| && run[n].Finish() >= t
    ensures OnlyFrom(run, n + 1, t)
  {
    assert forall m :: n < m < |run| ==> run[n].Finish() <= run[m].Begin();
  }

  lemma GuardStarts(cfg: Config, key: string, run: seq<Event>, i: nat)
    requires DecidesAt(cfg, key, run, i, Remediate)
    ensures Guarded(cfg, key, run, run[i].end, i + 1)
  {
    KeyStep(cfg, key, run, i);
  }

  lemma GuardStays(cfg: Config, key: string, run: seq<Event>, end: Time, n: nat)
    requires Clocked(run) && n < |run| && end + cfg.cooldown > 0
    requires Guarded(cfg, key, run, end, n)
    ensures Guarded(cfg, key, run, end, n + 1)
  {
    var st, until := KeyAfter(cfg, key, run[..n]), end + cfg.cooldown;
    if st.Some? && st.value.cooldownUntil >= until {
      KeyStep(cfg, key, run, n);
      CooldownKept(cfg, key, st, run[n], until);
      if run[n].Cleanup? && run[n].now > until {
        FromThenOn(run, n, until);
      }
    }
  }

  lemma {:induction false} CooldownStaysGuarded(cfg: Config, key: string, run: seq<Event>, i: nat, n: nat)
    requires cfg.Validated() && Clocked(run)
    requires DecidesAt(cfg, key, run, i, Remediate) && i < n <= |run|
    ensures Guarded(cfg, key, run, run[i].end, n)
  {
    if n == i + 1 {
      GuardStarts(cfg, key, run, i);
    } else {
      CooldownStaysGuarded(cfg, key, run, i, n - 1);
      GuardStays(cfg, key, run, run[i].end, n - 1);
    }
  }

  /** Two remediations of one key are a full cooldown apart, from the end of the earlier to the
      start of the later, whatever cleanups forgot in between. */
  lemma {:induction false} CooldownHolds(cfg: Config, key: string, run: seq<Event>, i: nat, j: nat)
    requires cfg.Validated() && Clocked(run) && i < j < |run|
    ensures DecidesAt(cfg, key, run, i, Remediate) && DecidesAt(cfg, key, run, j, Remediate) ==>
              run[j].start >= run[i].end + cfg.cooldown
  {
    if DecidesAt(cfg, key, run, i, Remediate) && DecidesAt(cfg, key, run, j, Remediate) {
      CooldownStaysGuarded(cfg, key, run, i, j);
      KeyStep(cfg, key, run, j);
      assert run[j].Begin() == run[j].start;
    }
  }

  /** Remediations of the key among the first n events that start in [lo, hi]. */
  function StartsWithin(cfg: Config, key: string, run: seq<Event>, n: nat, lo: Time, hi: Time): nat
    requires n <= |run|
  {
    if n == 0 then
      0
    else
      StartsWithin(cfg, key, run, n - 1, lo, hi)
      + (if DecidesAt(cfg, key, run, n - 1, Remediate) && lo <= run[n - 1].start <= hi then 1 else 0)
  }

  /** One more start comes one more cooldown later. */
  lemma SpreadOn(cfg: Config, key: string, run: seq<Event>, last: nat, n: nat, lo: Time, c: nat)
    requires cfg.Validated() && Clocked(run) && c > 0 && last < n
    requires DecidesAt(cfg, key, run, last, Remediate) && DecidesAt(cfg, key, run, n, Remediate)
    requires lo + (c - 1) * cfg.cooldown <= run[last].start
    ensures lo + c * cfg.cooldown <= run[n].start
  {
    CooldownHolds(cfg, key, run, last, n);
    Arithmetic.OneMore(c, c + 1, cfg.cooldown);
  }

  /** The latest of c starts comes at least c - 1 cooldowns after lo. */
  lemma {:induction false} StartsSpread(cfg: Config, key: string, run: seq<Event>, n: nat, lo: Time, hi: Time) returns (last: nat)
    requires cfg.Validated() && Clocked(run) && n <= |run|
    ensures var c := StartsWithin(cfg, key, run, n, lo, hi);
            c > 0 ==> last < n && DecidesAt(cfg, key, run, last, Remediate)
                      && lo + (c - 1) * cfg.cooldown <= run[last].start <= hi
  {
    last := 0;
    if n > 0 {
      last := StartsSpread(cfg, key, run, n - 1, lo, hi);
      if DecidesAt(cfg, key, run, n - 1, Remediate) && lo <= run[n - 1].start <= hi {
        var c := StartsWithin(cfg, key, run, n - 1, lo, hi);
        if c > 0 {
          SpreadOn(cfg, key, run, last, n - 1, lo, c);
        }
        last := n - 1;
      }
    }
  }

  /** Any interval of a given length contains at most 1 + length / cooldown starts of remediations
      of one key. */
  lemma {:induction false} RemediationRate(cfg: Config, key: string, run: seq<Event>, lo: Time, length: nat)
    requires cfg.Validated() && Clocked(run)
    ensures StartsWithin(cfg, key, run, |run|, lo, lo + length) <= 1 + length / cfg.cooldown
  {
    var last := StartsSpread(cfg, key, run, |run|, lo, lo + length);
    var c := StartsWithin(cfg, key, run, |run|, lo, lo + length);
    if c > 0 {
      Arithmetic.MultiplesFit(c, cfg.cooldown, length);
    }
  }

  // ---------------------------------------------------------------- retry budget

  /** Remediations of the key since the last cleanup that forgot it. */
  function SinceForgotten(cfg: Config, key: string, run: seq<Event>, n: nat): nat
    requires n <= |run|
  {
    if n == 0 || ForgetsAt(cfg, key, run, n - 1) then 0
    else SinceForgotten(cfg, key, run, n - 1) + (if DecidesAt(cfg, key, run, n - 1, Remediate) then 1 else 0)
  }

  /** The stored count is that number, and it never exceeds the maximum. */
  lemma {:induction false} CountIsExact(cfg: Config, key: string, run: seq<Event>, n: nat)
    requires cfg.Validated() && n <= |run|
    ensures Current(KeyAfter(cfg, key, run[..n])).remediationCount == SinceForgotten(cfg, key, run, n) <= cfg.maxRetries
    ensures Current(KeyAfter(cfg, key, run[..n])).escalated ==> SinceForgotten(cfg, key, run, n) == cfg.maxRetries
  {
    if n > 0 {
      CountIsExact(cfg, key, run, n - 1);
      CountStep(cfg, key, run, n - 1);
    }
  }

  /** What one event does to the count and the escalation mark. */
  lemma CountStep(cfg: Config, key: string, run: seq<Event>, n: nat)
    requires n < |run|
    ensures var st, st' := Current(KeyAfter(cfg, key, run[..n])), Current(KeyAfter(cfg, key, run[..n + 1]));
            if ForgetsAt(cfg, key, run, n) then st' == FRESH
            else st'.remediationCount == st.remediationCount + (if DecidesAt(cfg, key, run, n, Remediate) then 1 else 0)
                 && (DecidesAt(cfg, key, run, n, Remediate) ==> st.remediationCount < cfg.maxRetries)
                 && (st'.escalated ==> st.escalated || st.remediationCount >= cfg.maxRetries)
  {
    KeyStep(cfg, key, run, n);
  }

  lemma {:induction false} RetryBudget(cfg: Config, run: seq<Event>, key: string)
    requires cfg.Validated() && key in StatesAfter(cfg, run)
    ensures 0 <= StatesAfter(cfg, run)[key].remediationCount <= cfg.maxRetries
  {
    assert run[..|run|] == run;
    CountIsExact(cfg, key, run, |run|);
    KeyView(cfg, key, run);
  }

  /** The latest status a remediation of the key left since it was last forgotten. */
  function LatestStatus(cfg: Config, key: string, run: seq<Event>, n: nat): ActionStatus
    requires n <= |run|
  {
    if n == 0 || ForgetsAt(cfg, key, run, n - 1) then NoStatus
    else if DecidesAt(cfg, key, run, n - 1, Remediate) && run[n - 1].status.Some? then run[n - 1].status.value
    else LatestStatus(cfg, key, run, n - 1)
  }

  /** When the latest remediation of the key since then was done. */
  function LatestActed(cfg: Config, key: string, run: seq<Event>, n: nat): Time
    requires n <= |run|
  {
    if n == 0 || ForgetsAt(cfg, key, run, n - 1) then 0
    else if DecidesAt(cfg, key, run, n - 1, Remediate) then run[n - 1].acted
    else LatestActed(cfg, key, run, n - 1)
  }

  /** When the cooldown after it ends; zero without one. */
  function LatestUntil(cfg: Config, key: string, run: seq<Event>, n: nat): Time
    requires n <= |run|
  {
    if n == 0 || ForgetsAt(cfg, key, run, n - 1) then 0
    else if DecidesAt(cfg, key, run, n - 1, Remediate) then run[n - 1].end + cfg.cooldown
    else LatestUntil(cfg, key, run, n - 1)
  }

  /** That is what the state remembers. */
  lemma {:induction false} LatestIsStored(cfg: Config, key: string, run: seq<Event>, n: nat)
    requires n <= |run|
    ensures var st := Current(KeyAfter(cfg, key, run[..n]));
            && st.lastActionStatus == LatestStatus(cfg, key, run, n) && st.lastRemediation == LatestActed(cfg, key, run, n)
            && st.cooldownUntil == LatestUntil(cfg, key, run, n)
  {
    if n > 0 {
      LatestIsStored(cfg, key, run, n - 1);
      KeyStep(cfg, key, run, n - 1);
    }
  }

  /** What a cleanup forgets: exactly the keys whose latest remediation was done more than half an hour
      ago and whose cooldown is over. */
  lemma CleanupForgets(cfg: Config, key: string, run: seq<Event>, i: nat)
    requires i < |run| && run[i].Cleanup?
    ensures key in StatesAfter(cfg, run[..i + 1]) <==>
              key in StatesAfter(cfg, run[..i])
              && (LatestActed(cfg, key, run, i) + 30 * MINUTE >= run[i].now || LatestUntil(cfg, key, run, i) >= run[i].now)
  {
    KeyStep(cfg, key, run, i);
    KeyView(cfg, key, run[..i + 1]);
    LatestIsStored(cfg, key, run, i);
  }

  /** The key was idle for more than half an hour between its remediations i and j. */
  predicate LongPause(run: seq<Event>, i: nat, j: nat) {
    && i < |run| && j < |run| && run[i].Process? && run[j].Process?
    && run[j].start > run[i].acted + FORGET_AFTER
  }

  ghost predicate StillCounted(st: Option<RemediationState>, count: int, acted: Time) {
    st.Some? && st.value.remediationCount >= count && st.value.lastRemediation >= acted
  }

  ghost predicate OnlyLater(run: seq<Event>, n: nat, t: Time) {
    forall m :: n <= m < |run| ==> run[m].Begin() > t
  }

  /** One event after a remediation: the count stays until a cleanup half an hour later. */
  lemma CountKept(cfg: Config, key: string, st: Option<RemediationState>, e: Event, count: int, acted: Time)
    requires StillCounted(st, count, acted) && (e.Process? ==> e.acted >= acted)
    ensures StillCounted(StepKey(cfg, key, st, e), count, acted) || (e.Cleanup? && e.now > acted + FORGET_AFTER)
  {
  }

  lemma LaterOn(run: seq<Event>, n: nat, t: Time)
    requires Clocked(run) && n < |run| && run[n].Finish() > t
    ensures OnlyLater(run, n + 1, t)
  {
    assert forall m :: n < m < |run| ==> run[n].Finish() <= run[m].Begin();
  }

  /** From event n on, a remediation that counted up to `count` is still counted: by the state, or,
      if that was forgotten, the pause after it is over. */
  ghost predicate CountedOn(cfg: Config, key: string, run: seq<Event>, count: int, acted: Time, n: nat)
    requires n <= |run|
  {
    OnlyLater(run, n, acted + FORGET_AFTER) || StillCounted(KeyAfter(cfg, key, run[..n]), count, acted)
  }

  lemma CountStarts(cfg: Config, key: string, run: seq<Event>, i: nat, count: int)
    requires DecidesAt(cfg, key, run, i, Remediate)
    requires Current(KeyAfter(cfg, key, run[..i + 1])).remediationCount >= count
    ensures CountedOn(cfg, key, run, count, run[i].acted, i + 1)
  {
    KeyStep(cfg, key, run, i);
  }

  lemma CountStays(cfg: Config, key: string, run: seq<Event>, count: int, acted: Time, n: nat)
    requires Clocked(run) && n < |run| && acted <= run[n].Begin()
    requires CountedOn(cfg, key, run, count, acted, n)
    ensures CountedOn(cfg, key, run, count, acted, n + 1)
  {
    var st := KeyAfter(cfg, key, run[..n]);
    if StillCounted(st, count, acted) {
      KeyStep(cfg, key, run, n);
      CountKept(cfg, key, st, run[n], count, acted);
      if run[n].Cleanup? && run[n].now > acted + FORGET_AFTER {
        LaterOn(run, n, acted + FORGET_AFTER);
      }
    }
  }

  /** After remediation i the count only grows, until a cleanup half an hour later forgets it. */
  lemma {:induction false} CountGrowsOrPause(cfg: Config, key: string, run: seq<Event>, i: nat, n: nat, count: int)
    requires Clocked(run)
    requires DecidesAt(cfg, key, run, i, Remediate) && i < n <= |run|
    requires Current(KeyAfter(cfg, key, run[..i + 1])).remediationCount >= count
    ensures CountedOn(cfg, key, run, count, run[i].acted, n)
  {
    if n == i + 1 {
      CountStarts(cfg, key, run, i, count);
    } else {
      CountGrowsOrPause(cfg, key, run, i, n - 1, count);
      assert run[i].acted <= run[i].Finish() <= run[n - 1].Begin();
      CountStays(cfg, key, run, count, run[i].acted, n - 1);
    }
  }

  /** A remediation at j counts one more than what is still counted before it. */
  lemma CountsNext(cfg: Config, key: string, run: seq<Event>, i: nat, j: nat, count: int)
    requires Clocked(run) && i < j
    requires DecidesAt(cfg, key, run, i, Remediate) && DecidesAt(cfg, key, run, j, Remediate) && !LongPause(run, i, j)
    requires Current(KeyAfter(cfg, key, run[..i + 1])).remediationCount >= count
    ensures Current(KeyAfter(cfg, key, run[..j + 1])).remediationCount >= count + 1
  {
    CountGrowsOrPause(cfg, key, run, i, j, count);
    KeyStep(cfg, key, run, j);
    assert run[j].Begin() == run[j].start;
  }

  lemma CountsFirst(cfg: Config, key: string, run: seq<Event>, j: nat)
    requires cfg.Validated() && DecidesAt(cfg, key, run, j, Remediate)
    ensures Current(KeyAfter(cfg, key, run[..j + 1])).remediationCount >= 1
  {
    KeyStep(cfg, key, run, j);
    CountIsExact(cfg, key, run, j);
  }

  ghost predicate NextSoon(run: seq<Event>, w: seq<nat>, l: nat)
    requires l + 1 < |w|
  {
    w[l] < w[l + 1] && !LongPause(run, w[l], w[l + 1])
  }

  lemma {:induction false} CountsAlong(cfg: Config, key: string, run: seq<Event>, w: seq<nat>, k: nat)
    requires cfg.Validated() && Clocked(run) && k < |w|
    requires forall l :: 0 <= l < |w| ==> DecidesAt(cfg, key, run, w[l], Remediate)
    requires forall l {:trigger NextSoon(run, w, l)} :: 0 <= l < |w| - 1 ==> NextSoon(run, w, l)
    ensures w[k] < |run| && Current(KeyAfter(cfg, key, run[..w[k] + 1])).remediationCount >= k + 1
  {
    hide KeyAfter, StatesAfter;
    if k == 0 {
      CountsFirst(cfg, key, run, w[0]);
    } else {
      CountsAlong(cfg, key, run, w, k - 1);
      assert NextSoon(run, w, k - 1);
      CountsNext(cfg, key, run, w[k - 1], w[k], k);
    }
  }

  /** Among any maxRetries + 1 remediations of a key, in order, two successive ones are more than
      half an hour apart: forgetting never speeds up a failing key by more than that. */
  lemma {:induction false} BudgetForcesPause(cfg: Config, key: string, run: seq<Event>, w: seq<nat>)
    requires cfg.Validated() && Clocked(run) && |w| == cfg.maxRetries + 1
    requires forall l :: 0 <= l < |w| ==> DecidesAt(cfg, key, run, w[l], Remediate)
    requires forall l :: 0 <= l < |w| - 1 ==> w[l] < w[l + 1]
    ensures exists l :: 0 <= l < |w| - 1 && LongPause(run, w[l], w[l + 1])
  {
    if forall l {:trigger NextSoon(run, w, l)} :: 0 <= l < |w| - 1 ==> NextSoon(run, w, l) {
      CountsAlong(cfg, key, run, w, cfg.maxRetries);
      CountIsExact(cfg, key, run, w[cfg.maxRetries] + 1);
    } else {
      var l :| 0 <= l < |w| - 1 && !NextSoon(run, w, l);
    }
  }

  // ---------------------------------------------------------------- escalation

  /** Escalation comes after exactly maxRetries remediations since the key was last forgotten. */
  lemma {:induction false} EscalatesAfterBudget(cfg: Config, key: string, run: seq<Event>, i: nat)
    requires cfg.Validated() && DecidesAt(cfg, key, run, i, Escalate)
    ensures SinceForgotten(cfg, key, run, i) == cfg.maxRetries
  {
    KeyStep(cfg, key, run, i);
    CountIsExact(cfg, key, run, i);
  }

  lemma {:induction false} EscalatedUntilForgotten(cfg: Config, key: string, run: seq<Event>, i: nat, n: nat)
    requires cfg.Validated() && DecidesAt(cfg, key, run, i, Escalate) && i < n <= |run|
    ensures (exists k :: i < k < n && ForgetsAt(cfg, key, run, k))
            || (KeyAfter(cfg, key, run[..n]).Some? && KeyAfter(cfg, key, run[..n]).value.escalated
                && KeyAfter(cfg, key, run[..n]).value.remediationCount >= cfg.maxRetries)
  {
    KeyStep(cfg, key, run, n - 1);
    if n > i + 1 {
      EscalatedUntilForgotten(cfg, key, run, i, n - 1);
      if KeyAfter(cfg, key, run[..n - 1]).Some? && KeyAfter(cfg, key, run[..n]).None? {
        assert ForgetsAt(cfg, key, run, n - 1);
      }
    }
  }

  /** After an escalation there is neither a second one nor another remediation until a cleanup
      forgets the key. */
  lemma {:induction false} EscalatesOnce(cfg: Config, key: string, run: seq<Event>, i: nat, j: nat)
    requires cfg.Validated() && i < j && DecidesAt(cfg, key, run, i, Escalate)
    requires DecidesAt(cfg, key, run, j, Escalate) || DecidesAt(cfg, key, run, j, Remediate)
    ensures exists k :: i < k < j && ForgetsAt(cfg, key, run, k)
  {
    EscalatedUntilForgotten(cfg, key, run, i, j);
    KeyStep(cfg, key, run, j);
  }

  // ---------------------------------------------------------------- the bounds are met

  /** One result after the other for one key, each just when the cooldown of the one before ends. */
  function SteadyRun(cfg: Config, key: string, n: nat): (run: seq<Event>)
    ensures |run| == n
  {
    seq(n, i requires 0 <= i < n => Process(key, true, i * cfg.cooldown, i * cfg.cooldown, i * cfg.cooldown, None))
  }

  lemma SteadyIsClocked(cfg: Config, key: string, n: nat)
    ensures Clocked(SteadyRun(cfg, key, n))
  {
    forall i, j | 0 <= i < j < n ensures i * cfg.cooldown <= j * cfg.cooldown {
      Arithmetic.ProductsOrdered(i, j, cfg.cooldown);
    }
  }

  /** The state after k remediations. */
  predicate Steady(cfg: Config, st: Option<RemediationState>, k: nat) {
    if k == 0 then st == None
    else st.Some? && st.value.remediationCount == k && st.value.cooldownUntil == k * cfg.cooldown && !st.value.escalated
  }

  lemma SteadyDecides(cfg: Config, key: string, n: nat, k: nat)
    requires cfg.Validated() && k < n && k <= cfg.maxRetries
    requires Steady(cfg, KeyAfter(cfg, key, SteadyRun(cfg, key, n)[..k]), k)
    ensures DecidesAt(cfg, key, SteadyRun(cfg, key, n), k, if k < cfg.maxRetries then Remediate else Escalate)
    ensures k < cfg.maxRetries ==> Steady(cfg, KeyAfter(cfg, key, SteadyRun(cfg, key, n)[..k + 1]), k + 1)
  {
    KeyStep(cfg, key, SteadyRun(cfg, key, n), k);
    assert k * cfg.cooldown + cfg.cooldown == (k + 1) * cfg.cooldown;
  }

  lemma {:induction false} SteadyState(cfg: Config, key: string, n: nat, k: nat)
    requires cfg.Validated() && k <= n && k <= cfg.maxRetries
    ensures Steady(cfg, KeyAfter(cfg, key, SteadyRun(cfg, key, n)[..k]), k)
  {
    if k > 0 {
      SteadyState(cfg, key, n, k - 1);
      SteadyDecides(cfg, key, n, k - 1);
    }
  }

  lemma {:induction false} AllStart(cfg: Config, key: string, run: seq<Event>, n: nat, lo: Time, hi: Time)
    requires n <= |run|
    requires forall i :: 0 <= i < n ==> DecidesAt(cfg, key, run, i, Remediate) && lo <= run[i].start <= hi
    ensures StartsWithin(cfg, key, run, n, lo, hi) == n
  {
    hide StatesAfter;
    if n > 0 {
      AllStart(cfg, key, run, n - 1, lo, hi);
    }
  }

  lemma SteadyStarts(cfg: Config, key: string, n: nat, i: nat)
    requires cfg.Validated() && i < n <= cfg.maxRetries
    ensures var run := SteadyRun(cfg, key, n);
            DecidesAt(cfg, key, run, i, Remediate) && 0 <= run[i].start <= (n - 1) * cfg.cooldown
  {
    SteadyState(cfg, key, n, i);
    SteadyDecides(cfg, key, n, i);
    Arithmetic.ProductsOrdered(i, n - 1, cfg.cooldown);
  }

  /** The rate bound is met: for every configuration and every number of remediations up to the maximum
      there is a run with as many of them as RemediationRate allows in its span. */
  lemma RateIsMet(cfg: Config, key: string, n: nat)
    requires cfg.Validated() && 1 <= n <= cfg.maxRetries
    ensures var run, length := SteadyRun(cfg, key, n), (n - 1) * cfg.cooldown;
            Clocked(run) && StartsWithin(cfg, key, run, |run|, 0, length) == n == 1 + length / cfg.cooldown
  {
    hide Clocked, StatesAfter, SteadyRun, StartsWithin;
    SteadyIsClocked(cfg, key, n);
    var run := SteadyRun(cfg, key, n);
    forall i | 0 <= i < n ensures DecidesAt(cfg, key, run, i, Remediate) && 0 <= run[i].start <= (n - 1) * cfg.cooldown {
      SteadyStarts(cfg, key, n, i);
    }
    AllStart(cfg, key, run, n, 0, (n - 1) * cfg.cooldown);
    Arithmetic.ExactQuotient(n - 1, cfg.cooldown);
  }

  /** And once the maximum is reached the next result escalates. */
  lemma EscalationIsReached(cfg: Config, key: string)
    requires cfg.Validated()
    ensures var run := SteadyRun(cfg, key, cfg.maxRetries + 1);
            Clocked(run) && DecidesAt(cfg, key, run, cfg.maxRetries, Escalate)
  {
    SteadyIsClocked(cfg, key, cfg.maxRetries + 1);
    SteadyState(cfg, key, cfg.maxRetries + 1, cfg.maxRetries);
    SteadyDecides(cfg, key, cfg.maxRetries + 1, cfg.maxRetries);
  }
}
