/** Threshold detection: what one match and one cleanup do to the detection states, and what whole
    interleaved runs of them emit.

    A run is the sequence of matches and cleanups the engine processes, one at a time. A key is a
    (scenario, resource) pair; an event of another key never matters to it. */
module Detection {
  import opened Types
  import opened Actions

  /** Durations and timestamps are signed nanoseconds. */
  datatype Threshold = Threshold(count: int, window: int)

  datatype Scenario = Scenario(
    id: string, name: string, severity: string, threshold: Option<Threshold>, actions: seq<ActionConfig>)

  datatype Input = Input(resource: ResourceReference, timestamp: int)

  datatype DetectionState = DetectionState(
    scenarioID: string, resource: ResourceReference, firstDetected: int, lastDetected: int,
    detectionCount: int, thresholdMet: bool, windowStart: int)

  datatype DetectionResult = DetectionResult(
    scenarioID: string, scenarioName: string, resource: ResourceReference, severity: string,
    firstDetected: int, lastDetected: int, detectionCount: int, recommendedActions: seq<ActionConfig>)

  type States = map<string, DetectionState>

  datatype Event =
    | Match(scenario: Scenario, input: Input)
    | Cleanup(now: int)

  // ---------------------------------------------------------------- one event

  function KeyOf(scenario: Scenario, input: Input): string {
    StateKey(scenario.id, input.resource)
  }

  function Lookup(states: States, key: string): Option<DetectionState> {
    if key in states then Some(states[key]) else None
  }

  /** The state after counting a match, before the threshold is checked. */
  function Counted(st: Option<DetectionState>, scenario: Scenario, input: Input): DetectionState {
    var now := input.timestamp;
    match st
    case None => DetectionState(scenario.id, input.resource, now, now, 1, false, now)
    case Some(d) =>
      if d.thresholdMet then
        d.(lastDetected := now)
      else if scenario.threshold.Some? && now - d.windowStart > scenario.threshold.value.window then
        d.(detectionCount := 1, windowStart := now, firstDetected := now, lastDetected := now)
      else
        d.(detectionCount := d.detectionCount + 1, lastDetected := now)
  }

  predicate Triggers(st: Option<DetectionState>, scenario: Scenario, input: Input) {
    && !(st.Some? && st.value.thresholdMet)
    && (scenario.threshold.None? || Counted(st, scenario, input).detectionCount >= scenario.threshold.value.count)
  }

  function AfterMatch(st: Option<DetectionState>, scenario: Scenario, input: Input): DetectionState {
    var d := Counted(st, scenario, input);
    if Triggers(st, scenario, input) then d.(thresholdMet := true) else d
  }

  function Emission(st: Option<DetectionState>, scenario: Scenario, input: Input): Option<DetectionResult> {
    if Triggers(st, scenario, input) then
      var d := Counted(st, scenario, input);
      Some(DetectionResult(scenario.id, scenario.name, input.resource, scenario.severity,
                           d.firstDetected, d.lastDetected, d.detectionCount, scenario.actions))
    else
      None
  }

  predicate Stale(expiration: int, d: DetectionState, now: int) {
    d.lastDetected < now - expiration
  }

  function StepStates(expiration: int, states: States, e: Event): States {
    match e
    case Match(scenario, input) =>
      var key := KeyOf(scenario, input);
      states[key := AfterMatch(Lookup(states, key), scenario, input)]
    case Cleanup(now) =>
      map k | k in states && !Stale(expiration, states[k], now) :: states[k]
  }

  // ---------------------------------------------------------------- runs

  function Play(expiration: int, states: States, events: seq<Event>): States {
    if events == [] then
      states
    else
      StepStates(expiration, Play(expiration, states, events[..|events| - 1]), events[|events| - 1])
  }

  /** The engine starts with no states. */
  function StatesAfter(expiration: int, run: seq<Event>): States {
    Play(expiration, map[], run)
  }

  /** What the i-th event of a run emits. */
  function Emitted(expiration: int, run: seq<Event>, i: nat): Option<DetectionResult>
    requires i < |run|
  {
    match run[i]
    case Match(scenario, input) =>
      Emission(Lookup(StatesAfter(expiration, run[..i]), KeyOf(scenario, input)), scenario, input)
    case Cleanup(_) => None
  }

  predicate Hits(e: Event, key: string) {
    e.Match? && KeyOf(e.scenario, e.input) == key
  }

  /** The i-th event emits a result for `key`. */
  predicate EmitsAt(expiration: int, key: string, run: seq<Event>, i: nat)
    requires i < |run|
  {
    Hits(run[i], key) && Emitted(expiration, run, i).Some?
  }

  /** One scenario definition for the key throughout the run: no hot reload changes its threshold. */
  predicate FixedThreshold(threshold: Option<Threshold>, key: string, run: seq<Event>) {
    forall i :: 0 <= i < |run| && Hits(run[i], key) ==> run[i].scenario.threshold == threshold
  }

  predicate Nondecreasing(key: string, run: seq<Event>) {
    forall i, j :: 0 <= i < j < |run| && Hits(run[i], key) && Hits(run[j], key) ==> run[i].input.timestamp <= run[j].input.timestamp
  }

  // ---------------------------------------------------------------- one key's view of a run

  function StepKey(expiration: int, key: string, st: Option<DetectionState>, e: Event): Option<DetectionState> {
    match e
    case Match(scenario, input) =>
      if KeyOf(scenario, input) == key then Some(AfterMatch(st, scenario, input)) else st
    case Cleanup(now) =>
      if st.Some? && Stale(expiration, st.value, now) then None else st
  }

  function KeyAfter(expiration: int, key: string, run: seq<Event>): Option<DetectionState> {
    if run == [] then
      None
    else
      StepKey(expiration, key, KeyAfter(expiration, key, run[..|run| - 1]), run[|run| - 1])
  }

  /** A key's state in the store of an interleaved run is the fold of its own events. */
  lemma {:induction false} KeyView(expiration: int, key: string, run: seq<Event>)
    ensures Lookup(StatesAfter(expiration, run), key) == KeyAfter(expiration, key, run)
  {
    if run != [] {
      KeyView(expiration, key, run[..|run| - 1]);
    }
  }

  function Restrict(key: string, run: seq<Event>): seq<Event> {
    if run == [] then
      []
    else
      Restrict(key, run[..|run| - 1]) + (if run[|run| - 1].Cleanup? || Hits(run[|run| - 1], key) then [run[|run| - 1]] else [])
  }

  /** Non-interference: matches of other keys can be dropped from a run without changing the state
      of this key or what its next match emits. */
  lemma {:induction false} NonInterference(expiration: int, key: string, run: seq<Event>, scenario: Scenario, input: Input)
    requires KeyOf(scenario, input) == key
    ensures var alone := Restrict(key, run);
            && Lookup(StatesAfter(expiration, run), key) == Lookup(StatesAfter(expiration, alone), key)
            && Emitted(expiration, run + [Match(scenario, input)], |run|)
               == Emitted(expiration, alone + [Match(scenario, input)], |alone|)
  {
    var alone := Restrict(key, run);
    KeyView(expiration, key, run);
    KeyView(expiration, key, alone);
    RestrictKeepsKey(expiration, key, run);
    assert (run + [Match(scenario, input)])[..|run|] == run;
    assert (alone + [Match(scenario, input)])[..|alone|] == alone;
  }

  lemma {:induction false} RestrictKeepsKey(expiration: int, key: string, run: seq<Event>)
    ensures KeyAfter(expiration, key, Restrict(key, run)) == KeyAfter(expiration, key, run)
  {
    if run != [] {
      var init, e := run[..|run| - 1], run[|run| - 1];
      RestrictKeepsKey(expiration, key, init);
      var kept := Restrict(key, init);
      assert (kept + [e])[..|kept|] == kept;
      assert Restrict(key, run) == (if e.Cleanup? || Hits(e, key) then kept + [e] else kept);
    }
  }

  /** The state before event i, and what event i makes of it. */
  lemma KeyStep(expiration: int, key: string, run: seq<Event>, i: nat)
    requires i < |run|
    ensures KeyAfter(expiration, key, run[..i + 1]) == StepKey(expiration, key, KeyAfter(expiration, key, run[..i]), run[i])
    ensures Lookup(StatesAfter(expiration, run[..i]), key) == KeyAfter(expiration, key, run[..i])
  {
    assert run[..i + 1][..i] == run[..i];
    KeyView(expiration, key, run[..i]);
  }

  /** A stored state says which scenario and which resource its key stands for. */
  lemma {:induction false} StatesTellTheirKeys(expiration: int, key: string, run: seq<Event>)
    requires key in StatesAfter(expiration, run)
    ensures var st := StatesAfter(expiration, run)[key]; StateKey(st.scenarioID, st.resource) == key
  {
    KeyView(expiration, key, run);
    var init, e := run[..|run| - 1], run[|run| - 1];
    KeyView(expiration, key, init);
    if KeyAfter(expiration, key, init).Some? {
      StatesTellTheirKeys(expiration, key, init);
    }
  }

  // ---------------------------------------------------------------- what emissions say

  /** An emitted result names the scenario and the resource of the emitting match, which are those of
      the key, and recommends the scenario's actions. */
  lemma EmissionTells(expiration: int, key: string, run: seq<Event>, i: nat)
    requires i < |run| && EmitsAt(expiration, key, run, i)
    ensures var r, e := Emitted(expiration, run, i).value, run[i];
            && r.scenarioID == e.scenario.id && r.scenarioName == e.scenario.name && r.severity == e.scenario.severity
            && r.recommendedActions == e.scenario.actions && r.resource == e.input.resource
            && StateKey(r.scenarioID, r.resource) == key
  {
  }

  // ---------------------------------------------------------------- soundness of emissions

  /** `w` names as many matches of the key as were counted, in order, from the window's start. */
  ghost predicate Witness(threshold: Option<Threshold>, key: string, run: seq<Event>, w: seq<nat>, count: int, start: int) {
    && |w| == count && count >= 1
    && (forall k :: 0 <= k < |w| ==> w[k] < |run| && Hits(run[w[k]], key))
    && (forall k, l :: 0 <= k < l < |w| ==> w[k] < w[l])
    && run[w[0]].input.timestamp == start
    && (forall k :: 0 <= k < |w| ==> start <= run[w[k]].input.timestamp)
    && (threshold.Some? ==> forall k :: 0 < k < |w| ==> run[w[k]].input.timestamp <= start + threshold.value.window)
  }

  lemma WitnessExtends(threshold: Option<Threshold>, key: string, run: seq<Event>, longer: seq<Event>, w: seq<nat>, count: int, start: int)
    requires Witness(threshold, key, run, w, count, start)
    requires run <= longer
    ensures Witness(threshold, key, longer, w, count, start)
  {
    assert forall i :: 0 <= i < |run| ==> longer[i] == run[i];
  }

  /** A match that opens a window witnesses itself. */
  lemma WitnessStarts(threshold: Option<Threshold>, key: string, run: seq<Event>, i: nat)
    requires i < |run| && Hits(run[i], key)
    ensures Witness(threshold, key, run[..i + 1], [i], 1, run[i].input.timestamp)
  {
    assert run[..i + 1][i] == run[i];
  }

  /** Counting one more match of the key inside the open window. */
  lemma WitnessGrows(threshold: Option<Threshold>, key: string, run: seq<Event>, i: nat, w: seq<nat>, count: int, start: int)
    requires i < |run| && Witness(threshold, key, run[..i], w, count, start)
    requires Hits(run[i], key) && Nondecreasing(key, run)
    requires threshold.Some? ==> run[i].input.timestamp - start <= threshold.value.window
    ensures Witness(threshold, key, run[..i + 1], w + [i], count + 1, start)
  {
    var longer := run[..i + 1];
    assert forall j :: 0 <= j < i ==> longer[j] == run[..i][j] == run[j];
    assert longer[i] == run[i];
    assert run[w[0]].input.timestamp <= run[i].input.timestamp;
  }

  /** Unless the threshold is met, the state counts the matches `w`, and they are too few. */
  ghost predicate Witnessed(threshold: Option<Threshold>, key: string, run: seq<Event>, st: Option<DetectionState>, w: seq<nat>) {
    st.Some? && !st.value.thresholdMet ==>
      && threshold.Some? && st.value.detectionCount < threshold.value.count
      && st.value.firstDetected == st.value.windowStart
      && Witness(threshold, key, run, w, st.value.detectionCount, st.value.windowStart)
  }

  /** A match that opens a window. */
  lemma OpeningWitnessed(threshold: Option<Threshold>, key: string, run: seq<Event>, i: nat, st: Option<DetectionState>)
    requires i < |run| && Hits(run[i], key) && run[i].scenario.threshold == threshold
    requires st.None? || (!st.value.thresholdMet && threshold.Some?
                          && run[i].input.timestamp - st.value.windowStart > threshold.value.window)
    ensures Witnessed(threshold, key, run[..i + 1], Some(AfterMatch(st, run[i].scenario, run[i].input)), [i])
  {
    WitnessStarts(threshold, key, run, i);
  }

  /** A match inside the open window. */
  lemma CountingWitnessed(threshold: Option<Threshold>, key: string, run: seq<Event>, i: nat, st: DetectionState, w: seq<nat>)
    requires i < |run| && Hits(run[i], key) && run[i].scenario.threshold == threshold && Nondecreasing(key, run)
    requires !st.thresholdMet && Witnessed(threshold, key, run[..i], Some(st), w)
    requires run[i].input.timestamp - st.windowStart <= threshold.value.window
    ensures Witnessed(threshold, key, run[..i + 1], Some(AfterMatch(Some(st), run[i].scenario, run[i].input)), w + [i])
  {
    WitnessGrows(threshold, key, run, i, w, st.detectionCount, st.windowStart);
  }

  lemma HitWitnessed(threshold: Option<Threshold>, key: string, run: seq<Event>, i: nat, st: Option<DetectionState>, w: seq<nat>)
    returns (w': seq<nat>)
    requires i < |run| && Hits(run[i], key) && run[i].scenario.threshold == threshold && Nondecreasing(key, run)
    requires Witnessed(threshold, key, run[..i], st, w)
    ensures Witnessed(threshold, key, run[..i + 1], Some(AfterMatch(st, run[i].scenario, run[i].input)), w')
  {
    if st.Some? && st.value.thresholdMet {
      w' := w;
    } else if st.None? || run[i].input.timestamp - st.value.windowStart > threshold.value.window {
      OpeningWitnessed(threshold, key, run, i, st);
      w' := [i];
    } else {
      CountingWitnessed(threshold, key, run, i, st.value, w);
      w' := w + [i];
    }
  }

  lemma LongerWitnessed(threshold: Option<Threshold>, key: string, run: seq<Event>, longer: seq<Event>, st: Option<DetectionState>, w: seq<nat>)
    requires Witnessed(threshold, key, run, st, w) && run <= longer
    ensures Witnessed(threshold, key, longer, st, w)
  {
    if st.Some? && !st.value.thresholdMet {
      WitnessExtends(threshold, key, run, longer, w, st.value.detectionCount, st.value.windowStart);
    }
  }

  /** While the threshold is not met, the counter equals a number of distinct matches since the
      window opened, and it is below the threshold. */
  lemma {:induction false} CounterWitnessed(expiration: int, threshold: Option<Threshold>, key: string, run: seq<Event>, n: nat)
    returns (w: seq<nat>)
    requires n <= |run| && FixedThreshold(threshold, key, run) && Nondecreasing(key, run)
    ensures Witnessed(threshold, key, run[..n], KeyAfter(expiration, key, run[..n]), w)
  {
    w := [];
    if n > 0 {
      w := CounterWitnessed(expiration, threshold, key, run, n - 1);
      KeyStep(expiration, key, run, n - 1);
      var st := KeyAfter(expiration, key, run[..n - 1]);
      if Hits(run[n - 1], key) {
        w := HitWitnessed(threshold, key, run, n - 1, st, w);
      } else {
        LongerWitnessed(threshold, key, run[..n - 1], run[..n], st, w);
      }
    }
  }

  /** Every emission is justified: its count is exactly the threshold (one without a threshold),
      it carries the start of the counting window, and that many distinct matches of the same key,
      the last of them the emitting one, lie in the window. It names that match's scenario and resource
      and recommends that scenario's actions. */
  lemma EmissionSound(expiration: int, threshold: Option<Threshold>, key: string, run: seq<Event>, i: nat)
    returns (w: seq<nat>)
    requires i < |run| && FixedThreshold(threshold, key, run) && Nondecreasing(key, run)
    requires EmitsAt(expiration, key, run, i)
    ensures var r := Emitted(expiration, run, i).value;
            && r.detectionCount == (if threshold.Some? && threshold.value.count > 1 then threshold.value.count else 1)
            && Witness(threshold, key, run[..i + 1], w, r.detectionCount, r.firstDetected)
            && w[|w| - 1] == i && r.lastDetected == run[i].input.timestamp
            && key in StatesAfter(expiration, run[..i + 1])
            && StatesAfter(expiration, run[..i + 1])[key].windowStart == r.firstDetected
    ensures var r, e := Emitted(expiration, run, i).value, run[i];
            && r.scenarioID == e.scenario.id && r.scenarioName == e.scenario.name && r.severity == e.scenario.severity
            && r.recommendedActions == e.scenario.actions && r.resource == e.input.resource
            && StateKey(r.scenarioID, r.resource) == key
  {
    EmissionTells(expiration, key, run, i);
    var before := CounterWitnessed(expiration, threshold, key, run, i);
    KeyStep(expiration, key, run, i);
    KeyView(expiration, key, run[..i + 1]);
    var st, e := KeyAfter(expiration, key, run[..i]), run[i];
    if st.None? || (threshold.Some? && e.input.timestamp - st.value.windowStart > threshold.value.window) {
      w := [i];
    } else {
      WitnessGrows(threshold, key, run, i, before, st.value.detectionCount, st.value.windowStart);
      w := before + [i];
    }
  }

  // ---------------------------------------------------------------- debounce

  /** Event k of the run is a cleanup that forgets the key. */
  ghost predicate ForgetsAt(expiration: int, key: string, run: seq<Event>, k: nat)
    requires k < |run|
  {
    && run[k].Cleanup?
    && key in StatesAfter(expiration, run[..k])
    && StatesAfter(expiration, run[..k])[key].lastDetected < run[k].now - expiration
  }

  /** After an emission the key stays met until a cleanup forgets it. */
  lemma {:induction false} MetUntilForgotten(expiration: int, key: string, run: seq<Event>, i: nat, j: nat)
    requires i < j <= |run| && EmitsAt(expiration, key, run, i)
    ensures (exists k :: i < k < j && ForgetsAt(expiration, key, run, k))
            || (KeyAfter(expiration, key, run[..j]).Some? && KeyAfter(expiration, key, run[..j]).value.thresholdMet)
  {
    KeyStep(expiration, key, run, j - 1);
    if j > i + 1 {
      MetUntilForgotten(expiration, key, run, i, j - 1);
      if KeyAfter(expiration, key, run[..j]).None? && KeyAfter(expiration, key, run[..j - 1]).Some? {
        assert ForgetsAt(expiration, key, run, j - 1);
      }
    }
  }

  /** Between two emissions for one key a cleanup found the key not matched for longer than the
      state expiration. */
  lemma Debounce(expiration: int, key: string, run: seq<Event>, i: nat, j: nat)
    requires i < j < |run| && EmitsAt(expiration, key, run, i) && EmitsAt(expiration, key, run, j)
    ensures exists k :: i < k < j && ForgetsAt(expiration, key, run, k)
  {
    MetUntilForgotten(expiration, key, run, i, j);
    KeyStep(expiration, key, run, j);
  }

  /** Matches carry the time of their input, cleanups read the wall clock. An input handled after a
      cleanup may be older than it by at most `lag`. */
  predicate LagBounded(run: seq<Event>, lag: int) {
    forall i, j :: 0 <= i < j < |run| && run[i].Cleanup? && run[j].Match? ==> run[i].now <= run[j].input.timestamp + lag
  }

  predicate ConsecutiveHits(key: string, run: seq<Event>, p: nat, q: nat) {
    && p < q < |run| && Hits(run[p], key) && Hits(run[q], key)
    && forall m :: p < m < q ==> !Hits(run[m], key)
  }

  /** A live state was last detected at the key's latest match. */
  lemma {:induction false} LastDetectedIsLastHit(expiration: int, key: string, run: seq<Event>, n: nat) returns (p: nat)
    requires n <= |run| && KeyAfter(expiration, key, run[..n]).Some?
    ensures p < n && Hits(run[p], key) && (forall m :: p < m < n ==> !Hits(run[m], key))
    ensures KeyAfter(expiration, key, run[..n]).value.lastDetected == run[p].input.timestamp
  {
    KeyStep(expiration, key, run, n - 1);
    if Hits(run[n - 1], key) {
      p := n - 1;
    } else {
      p := LastDetectedIsLastHit(expiration, key, run, n - 1);
    }
  }

  /** What a cleanup forgets: exactly the keys whose latest match is older than the expiration, whether
      their threshold was met or not. */
  lemma CleanupForgets(expiration: int, key: string, run: seq<Event>, k: nat) returns (p: nat)
    requires k < |run| && run[k].Cleanup?
    ensures key !in StatesAfter(expiration, run[..k]) ==> key !in StatesAfter(expiration, run[..k + 1])
    ensures key in StatesAfter(expiration, run[..k]) ==>
              && p < k && Hits(run[p], key) && (forall m :: p < m < k ==> !Hits(run[m], key))
              && (key in StatesAfter(expiration, run[..k + 1]) <==> run[p].input.timestamp >= run[k].now - expiration)
  {
    KeyStep(expiration, key, run, k);
    KeyView(expiration, key, run[..k + 1]);
    p := 0;
    if key in StatesAfter(expiration, run[..k]) {
      p := LastDetectedIsLastHit(expiration, key, run, k);
    }
  }

  lemma {:induction false} NextHit(key: string, run: seq<Event>, k: nat, j: nat) returns (q: nat)
    requires k <= j < |run| && Hits(run[j], key)
    ensures k <= q <= j && Hits(run[q], key) && forall m :: k <= m < q ==> !Hits(run[m], key)
    decreases j - k
  {
    if Hits(run[k], key) {
      q := k;
    } else {
      q := NextHit(key, run, k + 1, j);
    }
  }

  /** Around a forgetting cleanup the key was not matched for longer than the expiration less the lag. */
  lemma ForgettingNeedsPause(expiration: int, lag: int, key: string, run: seq<Event>, k: nat, j: nat) returns (p: nat, q: nat)
    requires LagBounded(run, lag) && k < j < |run| && ForgetsAt(expiration, key, run, k) && Hits(run[j], key)
    ensures ConsecutiveHits(key, run, p, q) && run[q].input.timestamp - run[p].input.timestamp > expiration - lag
  {
    KeyView(expiration, key, run[..k]);
    p := LastDetectedIsLastHit(expiration, key, run, k);
    q := NextHit(key, run, k, j);
  }

  /** A failure that keeps matching, never pausing longer than the expiration less the lag, is
      reported once. */
  lemma PersistentFailureReportedOnce(expiration: int, lag: int, key: string, run: seq<Event>, i: nat, j: nat)
    requires LagBounded(run, lag)
    requires forall p: nat, q: nat :: ConsecutiveHits(key, run, p, q) ==>
               run[q].input.timestamp - run[p].input.timestamp <= expiration - lag
    requires i < j < |run| && EmitsAt(expiration, key, run, i)
    ensures !EmitsAt(expiration, key, run, j)
  {
    if EmitsAt(expiration, key, run, j) {
      Debounce(expiration, key, run, i, j);
      var k :| i < k < j && ForgetsAt(expiration, key, run, k);
      var p, q := ForgettingNeedsPause(expiration, lag, key, run, k, j);
    }
  }

  ghost predicate GapsWithin(key: string, run: seq<Event>, gap: int) {
    forall p: nat, q: nat :: ConsecutiveHits(key, run, p, q) ==> run[q].input.timestamp - run[p].input.timestamp <= gap
  }

  predicate ReportedOnce(expiration: int, key: string, run: seq<Event>) {
    forall i, j :: 0 <= i < j < |run| && EmitsAt(expiration, key, run, i) ==> !EmitsAt(expiration, key, run, j)
  }

  function Repeat(e: Event, n: nat): (r: seq<Event>)
    ensures |r| == n && forall i :: 0 <= i < n ==> r[i] == e
  {
    seq(n, i requires 0 <= i < n => e)
  }

  function At(scenario: Scenario, resource: ResourceReference, t: int): Event {
    Match(scenario, Input(resource, t))
  }

  /** Some matches make the scenario emit: a count above one needs a window that holds two matches. */
  predicate CanFire(scenario: Scenario) {
    scenario.threshold.None? || scenario.threshold.value.count <= 1 || scenario.threshold.value.window >= 0
  }

  /** How many matches at one instant make it emit. */
  function Needed(scenario: Scenario): nat {
    if scenario.threshold.None? || scenario.threshold.value.count <= 1 then 1 else scenario.threshold.value.count
  }

  /** The state after k matches at time t. */
  predicate Filling(st: Option<DetectionState>, scenario: Scenario, t: int, k: nat) {
    if k == 0 then st == None
    else st.Some? && st.value.detectionCount == k && st.value.windowStart == st.value.lastDetected == t
         && (st.value.thresholdMet <==> k >= Needed(scenario))
  }

  lemma FillStep(st: Option<DetectionState>, scenario: Scenario, resource: ResourceReference, t: int, k: nat)
    requires CanFire(scenario) && Filling(st, scenario, t, k) && k < Needed(scenario)
    ensures Filling(Some(AfterMatch(st, scenario, Input(resource, t))), scenario, t, k + 1)
    ensures k + 1 == Needed(scenario) ==> Triggers(st, scenario, Input(resource, t))
  {
  }

  /** From event m on the run has that many matches at time t. */
  predicate BurstAt(run: seq<Event>, m: nat, scenario: Scenario, resource: ResourceReference, t: int) {
    m + Needed(scenario) <= |run| && forall i :: m <= i < m + Needed(scenario) ==> run[i] == At(scenario, resource, t)
  }

  lemma {:induction false} BurstFills(expiration: int, run: seq<Event>, m: nat, scenario: Scenario, resource: ResourceReference, t: int, k: nat)
    requires CanFire(scenario) && BurstAt(run, m, scenario, resource, t) && k <= Needed(scenario)
    requires KeyAfter(expiration, StateKey(scenario.id, resource), run[..m]) == None
    ensures Filling(KeyAfter(expiration, StateKey(scenario.id, resource), run[..m + k]), scenario, t, k)
  {
    if k > 0 {
      var key := StateKey(scenario.id, resource);
      BurstFills(expiration, run, m, scenario, resource, t, k - 1);
      KeyStep(expiration, key, run, m + k - 1);
      FillStep(KeyAfter(expiration, key, run[..m + k - 1]), scenario, resource, t, k - 1);
    }
  }

  /** The last match of the burst emits. */
  lemma BurstEmits(expiration: int, run: seq<Event>, m: nat, scenario: Scenario, resource: ResourceReference, t: int)
    requires CanFire(scenario) && BurstAt(run, m, scenario, resource, t)
    requires KeyAfter(expiration, StateKey(scenario.id, resource), run[..m]) == None
    ensures EmitsAt(expiration, StateKey(scenario.id, resource), run, m + Needed(scenario) - 1)
  {
    var key, last := StateKey(scenario.id, resource), m + Needed(scenario) - 1;
    BurstFills(expiration, run, m, scenario, resource, t, Needed(scenario) - 1);
    KeyStep(expiration, key, run, last);
    FillStep(KeyAfter(expiration, key, run[..last]), scenario, resource, t, Needed(scenario) - 1);
  }

  lemma BurstForgotten(expiration: int, run: seq<Event>, scenario: Scenario, resource: ResourceReference, t: int)
    requires CanFire(scenario) && BurstAt(run, 0, scenario, resource, t)
    requires Needed(scenario) < |run| && run[Needed(scenario)] == Cleanup(t + expiration + 1)
    ensures KeyAfter(expiration, StateKey(scenario.id, resource), run[..Needed(scenario) + 1]) == None
  {
    BurstFills(expiration, run, 0, scenario, resource, t, Needed(scenario));
    KeyStep(expiration, StateKey(scenario.id, resource), run, Needed(scenario));
  }

  /** As many matches as it takes, a cleanup just when it forgets them, and as many a gap later. */
  function LateRun(expiration: int, gap: int, scenario: Scenario, resource: ResourceReference, t: int): seq<Event> {
    Repeat(At(scenario, resource, t), Needed(scenario)) + [Cleanup(t + expiration + 1)]
    + Repeat(At(scenario, resource, t + gap), Needed(scenario))
  }

  lemma LateRunShape(expiration: int, lag: int, gap: int, scenario: Scenario, resource: ResourceReference, t: int)
    requires gap >= 0 && gap > expiration - lag
    ensures var run, n := LateRun(expiration, gap, scenario, resource, t), Needed(scenario);
            && |run| == 2 * n + 1 && run[n] == Cleanup(t + expiration + 1)
            && BurstAt(run, 0, scenario, resource, t) && BurstAt(run, n + 1, scenario, resource, t + gap)
            && LagBounded(run, lag) && GapsWithin(StateKey(scenario.id, resource), run, gap)
  {
  }

  /** Beyond the bound a failure is reported twice, for every lag, gap, expiration and threshold. */
  lemma LateFailureReportedAgain(expiration: int, lag: int, gap: int, scenario: Scenario, resource: ResourceReference, t: int)
    requires CanFire(scenario) && gap >= 0 && gap > expiration - lag
    ensures var run, key, n := LateRun(expiration, gap, scenario, resource, t), StateKey(scenario.id, resource), Needed(scenario);
            && LagBounded(run, lag) && GapsWithin(key, run, gap) && |run| == 2 * n + 1
            && EmitsAt(expiration, key, run, n - 1) && EmitsAt(expiration, key, run, 2 * n)
  {
    var run, key, n := LateRun(expiration, gap, scenario, resource, t), StateKey(scenario.id, resource), Needed(scenario);
    hide LateRun, LagBounded, GapsWithin, EmitsAt, BurstAt;
    LateRunShape(expiration, lag, gap, scenario, resource, t);
    assert KeyAfter(expiration, key, run[..0]) == None;
    BurstEmits(expiration, run, 0, scenario, resource, t);
    BurstForgotten(expiration, run, scenario, resource, t);
    BurstEmits(expiration, run, n + 1, scenario, resource, t + gap);
  }

  /** In every run with that lag and those gaps the key is reported at most once. */
  ghost predicate AlwaysReportedOnce(expiration: int, lag: int, gap: int, key: string) {
    forall run :: LagBounded(run, lag) && GapsWithin(key, run, gap) ==> ReportedOnce(expiration, key, run)
  }

  /** When a failure that keeps matching is reported once: whatever its matches and the cleanups, if
      and only if its gaps stay within the expiration less the lag of its timestamps. */
  lemma ReportedOnceIff(expiration: int, lag: int, gap: int, scenario: Scenario, resource: ResourceReference)
    requires CanFire(scenario) && gap >= 0
    ensures AlwaysReportedOnce(expiration, lag, gap, StateKey(scenario.id, resource)) <==> gap <= expiration - lag
  {
    var key := StateKey(scenario.id, resource);
    if gap <= expiration - lag {
      forall run | LagBounded(run, lag) && GapsWithin(key, run, gap) ensures ReportedOnce(expiration, key, run) {
        forall i, j | 0 <= i < j < |run| && EmitsAt(expiration, key, run, i) ensures !EmitsAt(expiration, key, run, j) {
          PersistentFailureReportedOnce(expiration, lag, key, run, i, j);
        }
      }
    } else {
      var run := LateRun(expiration, gap, scenario, resource, 0);
      LateFailureReportedAgain(expiration, lag, gap, scenario, resource, 0);
      assert !ReportedOnce(expiration, key, run);
    }
  }

  // ---------------------------------------------------------------- sensitivity of the anchored window

  function HitCount(key: string, run: seq<Event>): nat {
    if run == [] then 0 else HitCount(key, run[..|run| - 1]) + (if Hits(run[|run| - 1], key) then 1 else 0)
  }

  /** From event n on, no cleanup forgets the key. */
  predicate KeptFrom(expiration: int, key: string, run: seq<Event>, n: nat) {
    forall i :: n <= i < |run| && run[i].Cleanup? && key in StatesAfter(expiration, run[..i]) ==>
      key in StatesAfter(expiration, run[..i + 1])
  }

  predicate NotMet(st: Option<DetectionState>) {
    st.Some? ==> !st.value.thresholdMet
  }

  predicate EmitsFrom(expiration: int, key: string, run: seq<Event>, n: nat) {
    exists i :: n <= i < |run| && EmitsAt(expiration, key, run, i)
  }

  /** All the key's matches from event n on lie in [lo, lo + window]. */
  predicate WithinSpan(key: string, run: seq<Event>, n: nat, lo: int, window: int) {
    forall i :: n <= i < |run| && Hits(run[i], key) ==> lo <= run[i].input.timestamp <= lo + window
  }

  lemma HitCountTail(key: string, run: seq<Event>, n: nat)
    requires n < |run|
    ensures HitCount(key, run[n..]) == (if Hits(run[n], key) then 1 else 0) + HitCount(key, run[n + 1..])
  {
    HitCountCons(key, run[n], run[n + 1..]);
    assert run[n..] == [run[n]] + run[n + 1..];
  }

  lemma {:induction false} HitCountCons(key: string, e: Event, rest: seq<Event>)
    ensures HitCount(key, [e] + rest) == (if Hits(e, key) then 1 else 0) + HitCount(key, rest)
  {
    if rest != [] {
      HitCountCons(key, e, rest[..|rest| - 1]);
      assert ([e] + rest)[..|rest|] == [e] + rest[..|rest| - 1];
    }
  }

  /** A window that stays open collects every match until the count is reached. */
  lemma {:induction false} OpenWindowFills(expiration: int, threshold: Threshold, key: string, run: seq<Event>, n: nat)
    requires n <= |run| && FixedThreshold(Some(threshold), key, run) && KeptFrom(expiration, key, run, n)
    requires var st := KeyAfter(expiration, key, run[..n]);
             && st.Some? && !st.value.thresholdMet && st.value.detectionCount < threshold.count
             && (forall i :: n <= i < |run| && Hits(run[i], key) ==> run[i].input.timestamp - st.value.windowStart <= threshold.window)
             && st.value.detectionCount + HitCount(key, run[n..]) >= threshold.count
    ensures EmitsFrom(expiration, key, run, n)
    decreases |run| - n
  {
    if n < |run| {
      KeyStep(expiration, key, run, n);
      KeyView(expiration, key, run[..n + 1]);
      HitCountTail(key, run, n);
      if EmitsAt(expiration, key, run, n) {
      } else {
        OpenWindowFills(expiration, threshold, key, run, n + 1);
      }
    }
  }

  /** With at least 2 * count - 1 - (what is counted already) matches to come, either the old window
      fills or the one that replaces it does. */
  lemma {:induction false} SomeWindowFills(expiration: int, threshold: Threshold, key: string, run: seq<Event>, n: nat, lo: int)
    requires n <= |run| && FixedThreshold(Some(threshold), key, run) && Nondecreasing(key, run) && KeptFrom(expiration, key, run, n)
    requires WithinSpan(key, run, n, lo, threshold.window)
    requires var st := KeyAfter(expiration, key, run[..n]);
             && NotMet(st) && (st.Some? ==> 1 <= st.value.detectionCount < threshold.count)
             && HitCount(key, run[n..]) >= (if st.None? then threshold.count else 2 * threshold.count - 1 - st.value.detectionCount)
    requires threshold.count >= 1
    ensures EmitsFrom(expiration, key, run, n)
    decreases |run| - n
  {
    var st := KeyAfter(expiration, key, run[..n]);
    if n < |run| {
      KeyStep(expiration, key, run, n);
      KeyView(expiration, key, run[..n + 1]);
      HitCountTail(key, run, n);
      if EmitsAt(expiration, key, run, n) {
      } else if Hits(run[n], key) && (st.None? || run[n].input.timestamp - st.value.windowStart > threshold.window) {
        OpenWindowFills(expiration, threshold, key, run, n + 1);
      } else {
        SomeWindowFills(expiration, threshold, key, run, n + 1, lo);
      }
    }
  }

  /** How well the anchored window approximates a sliding one. If a key has not met its threshold,
      then max(count, 2 * count - 2) of its matches within one window length, with no cleanup
      forgetting it on the way, make the engine emit by the last of them. */
  lemma SlidingWindowGuarantee(expiration: int, threshold: Threshold, key: string, run: seq<Event>, n: nat, lo: int)
    requires n <= |run| && threshold.count >= 1
    requires FixedThreshold(Some(threshold), key, run) && Nondecreasing(key, run) && KeptFrom(expiration, key, run, n)
    requires NotMet(Lookup(StatesAfter(expiration, run[..n]), key))
    requires WithinSpan(key, run, n, lo, threshold.window)
    requires HitCount(key, run[n..]) >= threshold.count && HitCount(key, run[n..]) >= 2 * threshold.count - 2
    ensures EmitsFrom(expiration, key, run, n)
  {
    KeyView(expiration, key, run[..n]);
    var _ := CounterWitnessed(expiration, Some(threshold), key, run, n);
    SomeWindowFills(expiration, threshold, key, run, n, lo);
  }

  // ---------------------------------------------------------------- the bound is tight

  /** One match opens a window at 0; count - 2 more at its end; then count - 1 just after it. */
  function UnluckyRun(scenario: Scenario, resource: ResourceReference, count: nat, window: nat): seq<Event>
    requires count >= 2
  {
    [At(scenario, resource, 0)] + Repeat(At(scenario, resource, window), count - 2)
    + Repeat(At(scenario, resource, window + 1), count - 1)
  }

  function UnluckyTime(count: nat, window: nat, n: nat): int {
    if n == 1 then 0 else if n <= count - 1 then window else window + 1
  }

  lemma UnluckyStep(scenario: Scenario, resource: ResourceReference, count: nat, window: nat, n: nat, st: Option<DetectionState>)
    requires count >= 2 && scenario.threshold == Some(Threshold(count, window)) && 0 < n < 2 * count - 1
    requires if n == 1 then st == None else st.Some? && Unlucky(st.value, count, window, n - 1)
    ensures Unlucky(AfterMatch(st, scenario, Input(resource, UnluckyTime(count, window, n))), count, window, n)
  {
  }

  lemma {:induction false} UnluckyState(expiration: int, key: string, scenario: Scenario, resource: ResourceReference, count: nat, window: nat, n: nat)
    requires count >= 2 && scenario.threshold == Some(Threshold(count, window)) && key == StateKey(scenario.id, resource)
    requires n <= |UnluckyRun(scenario, resource, count, window)|
    ensures var st := KeyAfter(expiration, key, UnluckyRun(scenario, resource, count, window)[..n]);
            if n == 0 then st == None else st.Some? && Unlucky(st.value, count, window, n)
  {
    if n > 0 {
      var run := UnluckyRun(scenario, resource, count, window);
      UnluckyState(expiration, key, scenario, resource, count, window, n - 1);
      KeyStep(expiration, key, run, n - 1);
      UnluckyEvent(scenario, resource, count, window, n);
      UnluckyStep(scenario, resource, count, window, n, KeyAfter(expiration, key, run[..n - 1]));
    }
  }

  lemma UnluckyEvent(scenario: Scenario, resource: ResourceReference, count: nat, window: nat, n: nat)
    requires count >= 2 && 0 < n <= |UnluckyRun(scenario, resource, count, window)|
    ensures UnluckyRun(scenario, resource, count, window)[n - 1] == At(scenario, resource, UnluckyTime(count, window, n))
    ensures |UnluckyRun(scenario, resource, count, window)| == 2 * count - 2
  {
  }

  /** None of its events emits: the threshold is not met after any of them. */
  lemma UnluckyIsSilent(expiration: int, scenario: Scenario, resource: ResourceReference, count: nat, window: nat, i: nat)
    requires count >= 2 && scenario.threshold == Some(Threshold(count, window))
    requires i < |UnluckyRun(scenario, resource, count, window)|
    ensures !EmitsAt(expiration, StateKey(scenario.id, resource), UnluckyRun(scenario, resource, count, window), i)
  {
    var key, run := StateKey(scenario.id, resource), UnluckyRun(scenario, resource, count, window);
    UnluckyState(expiration, key, scenario, resource, count, window, i + 1);
    KeyStep(expiration, key, run, i);
    if EmitsAt(expiration, key, run, i) {
      MetByEmission(expiration, key, run, i);
    }
  }

  lemma MetByEmission(expiration: int, key: string, run: seq<Event>, i: nat)
    requires i < |run| && EmitsAt(expiration, key, run, i)
    ensures KeyAfter(expiration, key, run[..i + 1]).Some? && KeyAfter(expiration, key, run[..i + 1]).value.thresholdMet
  {
    KeyStep(expiration, key, run, i);
  }

  /** All its events are matches of the key, in the order of their times. */
  lemma UnluckyShape(scenario: Scenario, resource: ResourceReference, count: nat, window: nat)
    requires count >= 2 && scenario.threshold == Some(Threshold(count, window))
    ensures var key, run := StateKey(scenario.id, resource), UnluckyRun(scenario, resource, count, window);
            && |run| == 2 * count - 2
            && (forall i :: 0 <= i < |run| ==> run[i] == At(scenario, resource, UnluckyTime(count, window, i + 1)) && Hits(run[i], key))
  {
    forall i | 0 <= i < |UnluckyRun(scenario, resource, count, window)|
      ensures UnluckyRun(scenario, resource, count, window)[i] == At(scenario, resource, UnluckyTime(count, window, i + 1))
    {
      UnluckyEvent(scenario, resource, count, window, i + 1);
    }
  }

  /** The counter after n events of the unlucky run. */
  predicate Unlucky(d: DetectionState, count: nat, window: nat, n: nat) {
    && !d.thresholdMet
    && d.detectionCount == (if n < count then n else n - count + 1)
    && d.windowStart == (if n < count then 0 else window + 1)
  }

  /** For every count of at least three and every positive window there is a run in which a key
      that has not met its threshold gets 2 * count - 3 matches within two instants, and nothing is
      emitted. */
  lemma SlidingWindowTight(expiration: int, scenario: Scenario, resource: ResourceReference, count: nat, window: nat)
    requires count >= 3 && window >= 1 && scenario.threshold == Some(Threshold(count, window))
    ensures var key := KeyOf(scenario, Input(resource, 0));
            var run := UnluckyRun(scenario, resource, count, window);
            && FixedThreshold(scenario.threshold, key, run) && Nondecreasing(key, run) && KeptFrom(expiration, key, run, 1)
            && NotMet(Lookup(StatesAfter(expiration, run[..1]), key))
            && WithinSpan(key, run, 1, window, 1)
            && HitCount(key, run[1..]) == 2 * count - 3
            && !EmitsFrom(expiration, key, run, 0)
  {
    var key := KeyOf(scenario, Input(resource, 0));
    var run := UnluckyRun(scenario, resource, count, window);
    UnluckyShape(scenario, resource, count, window);
    forall i | 0 <= i < |run| ensures !EmitsAt(expiration, key, run, i) {
      UnluckyIsSilent(expiration, scenario, resource, count, window, i);
    }
    UnluckyState(expiration, key, scenario, resource, count, window, 1);
    KeyView(expiration, key, run[..1]);
    AllHits(key, run[1..]);
  }

  lemma {:induction false} AllHits(key: string, run: seq<Event>)
    requires forall i :: 0 <= i < |run| ==> Hits(run[i], key)
    ensures HitCount(key, run) == |run|
  {
    if run != [] {
      AllHits(key, run[..|run| - 1]);
    }
  }
}
