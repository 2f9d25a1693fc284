/** The detection engine as it updates its states in place, proved against Detection's steps. */
module DetectionEngine {
  import opened Types
  import opened Maps
  import opened Sequences
  import D = Detection

  /** One entry of the state store, shared between the store and whoever handles a match. */
  class StateCell {
    const scenarioID: string
    const resource: ResourceReference
    var firstDetected: int
    var lastDetected: int
    var detectionCount: int
    var thresholdMet: bool
    var windowStart: int
    ghost const key: string

    constructor (ghost key: string, scenarioID: string, resource: ResourceReference, now: int)
      ensures Value() == D.DetectionState(scenarioID, resource, now, now, 1, false, now) && this.key == key
    {
      this.key := key;
      this.scenarioID, this.resource := scenarioID, resource;
      firstDetected, lastDetected, detectionCount, thresholdMet, windowStart := now, now, 1, false, now;
    }

    function Value(): D.DetectionState
      reads this
    {
      D.DetectionState(scenarioID, resource, firstDetected, lastDetected, detectionCount, thresholdMet, windowStart)
    }
  }

  /** What evaluating a scenario's expression on an input gives. */
  datatype Verdict = Matched | Unmatched | EvaluationError

  function ResultSeq(r: Option<D.DetectionResult>): seq<D.DetectionResult> {
    if r.Some? then [r.value] else []
  }

  /** The matches one input causes, scenario by scenario. */
  function MatchEvents(order: seq<D.Scenario>, verdict: D.Scenario -> Verdict, input: D.Input): seq<D.Event> {
    if order == [] then
      []
    else
      MatchEvents(order[..|order| - 1], verdict, input)
      + (if verdict(order[|order| - 1]).Matched? then [D.Match(order[|order| - 1], input)] else [])
  }

  /** The results a sequence of events sends, each event seeing the states its predecessors left. */
  function Emissions(expiration: int, states: D.States, events: seq<D.Event>): seq<D.DetectionResult> {
    if events == [] then
      []
    else
      var init, last := events[..|events| - 1], events[|events| - 1];
      Emissions(expiration, states, init)
      + (if last.Match? then
           ResultSeq(D.Emission(D.Lookup(D.Play(expiration, states, init), D.KeyOf(last.scenario, last.input)), last.scenario, last.input))
         else [])
  }

  /** One more scenario adds its match, or nothing. */
  lemma MatchEventsNext(order: seq<D.Scenario>, i: nat, verdict: D.Scenario -> Verdict, input: D.Input)
    requires i < |order|
    ensures MatchEvents(order[..i + 1], verdict, input)
         == if verdict(order[i]).Matched? then MatchEvents(order[..i], verdict, input) + [D.Match(order[i], input)]
            else MatchEvents(order[..i], verdict, input)
  {
    assert order[..i + 1][..i] == order[..i] && order[..i + 1][i] == order[i];
  }

  lemma OneMoreMatch(expiration: int, states: D.States, done: seq<D.Event>, scenario: D.Scenario, input: D.Input)
    ensures var before, e := D.Play(expiration, states, done), D.Match(scenario, input);
            && D.Play(expiration, states, done + [e]) == D.StepStates(expiration, before, e)
            && Emissions(expiration, states, done + [e])
               == Emissions(expiration, states, done)
                  + ResultSeq(D.Emission(D.Lookup(before, D.KeyOf(scenario, input)), scenario, input))
  {
    assert (done + [D.Match(scenario, input)])[..|done|] == done;
  }

  class Engine {
    const expiration: int
    var states: map<string, StateCell>
    /** Every result the engine tried to send; a full channel drops it after this point. */
    var sent: seq<D.DetectionResult>
    ghost var cells: set<StateCell>

    /** A cell is stored under its own key, so distinct keys have distinct cells. */
    ghost predicate Valid()
      reads this
    {
      forall k :: k in states ==> states[k] in cells && states[k].key == k
    }

    ghost function View(): D.States
      requires Valid()
      reads this, cells
    {
      map k | k in states :: states[k].Value()
    }

    constructor (expiration: int)
      ensures Valid() && cells == {} && this.expiration == expiration && View() == map[] && sent == []
    {
      this.expiration, states, sent, cells := expiration, map[], [], {};
    }

    method SendResult(result: D.DetectionResult)
      modifies `sent
      ensures sent == old(sent) + [result]
    {
      sent := sent + [result];
    }

    /** The store's write: `cell` becomes the key's cell. `before` is the view before the cell's
        fields were touched; the cells of other keys still show it. */
    method SetState(key: string, cell: StateCell, ghost before: D.States)
      requires Valid() && cell.key == key
      requires forall k :: k in states && k != key ==> k in before && states[k].Value() == before[k]
      requires forall k :: k in before && k != key ==> k in states
      modifies `states, `cells
      ensures Valid() && cells == old(cells) + {cell}
      ensures View() == before[key := cell.Value()]
    {
      cells := cells + {cell};
      states := states[key := cell];
      assert View().Keys == before[key := cell.Value()].Keys;
    }

    /** The counting half of a match, on the key's own cell. */
    method Count(state: StateCell, scenario: D.Scenario, now: int)
      requires !state.thresholdMet
      modifies state
      ensures forall input: D.Input :: input.timestamp == now ==>
                state.Value() == D.Counted(Some(old(state.Value())), scenario, input)
    {
      if scenario.threshold.Some? && now - state.windowStart > scenario.threshold.value.window {
        state.detectionCount := 1;
        state.windowStart := now;
        state.firstDetected := now;
      } else {
        state.detectionCount := state.detectionCount + 1;
      }
      state.lastDetected := now;
    }

    /** The deciding half: emit once the count is reached. */
    method CheckThreshold(state: StateCell, scenario: D.Scenario, input: D.Input, ghost st: Option<D.DetectionState>)
      requires state.Value() == D.Counted(st, scenario, input) && !(st.Some? && st.value.thresholdMet)
      modifies state`thresholdMet, `sent
      ensures state.Value() == D.AfterMatch(st, scenario, input)
      ensures sent == old(sent) + ResultSeq(D.Emission(st, scenario, input))
    {
      var thresholdMet := false;
      if scenario.threshold.None? {
        thresholdMet := true;
      } else if state.detectionCount >= scenario.threshold.value.count {
        thresholdMet := true;
      }
      if thresholdMet {
        state.thresholdMet := true;
        var result := D.DetectionResult(scenario.id, scenario.name, input.resource, scenario.severity,
                                        state.firstDetected, state.lastDetected, state.detectionCount, scenario.actions);
        SendResult(result);
      }
    }

    /** Fetch or create the key's cell and count the match in it. The store itself is not written. */
    method Observe(stateKey: string, scenario: D.Scenario, input: D.Input) returns (state: StateCell, alreadyMet: bool)
      requires Valid() && stateKey == D.KeyOf(scenario, input)
      modifies cells
      ensures state.Value() == D.Counted(D.Lookup(old(View()), stateKey), scenario, input)
      ensures alreadyMet <==> stateKey in states && old(states[stateKey].thresholdMet)
      ensures state.key == stateKey && (if stateKey in states then state == states[stateKey] else fresh(state))
      ensures forall k :: k in states && k != stateKey ==> states[k].Value() == old(states[k].Value())
    {
      var now := input.timestamp;
      alreadyMet := false;
      if stateKey !in states {
        state := new StateCell(stateKey, scenario.id, input.resource, now);
      } else {
        state := states[stateKey];
        if state.thresholdMet {
          alreadyMet := true;
          state.lastDetected := now;
        } else {
          Count(state, scenario, now);
        }
      }
    }

    method HandleMatch(scenario: D.Scenario, input: D.Input)
      requires Valid()
      modifies this, cells
      ensures Valid() && fresh(cells - old(cells))
      ensures View() == D.StepStates(expiration, old(View()), D.Match(scenario, input))
      ensures var key := D.KeyOf(scenario, input);
              sent == old(sent) + ResultSeq(D.Emission(D.Lookup(old(View()), key), scenario, input))
      ensures sent != old(sent) ==>
                var r := sent[|sent| - 1];
                && sent == old(sent) + [r] && r.recommendedActions == scenario.actions
                && r.scenarioID == scenario.id && r.scenarioName == scenario.name && r.severity == scenario.severity
                && r.resource == input.resource
    {
      var stateKey := StateKey(scenario.id, input.resource);
      ghost var before := View();
      ghost var st := D.Lookup(before, stateKey);
      var state, alreadyMet := Observe(stateKey, scenario, input);
      if !alreadyMet {
        CheckThreshold(state, scenario, input, st);
      }
      assert state.Value() == D.AfterMatch(st, scenario, input);
      assert sent == old(sent) + ResultSeq(D.Emission(st, scenario, input));
      SetState(stateKey, state, before);
    }

    /** `order` is the enabled scenarios in the order the map iteration produced. */
    method ProcessInput(order: seq<D.Scenario>, verdict: D.Scenario -> Verdict, input: D.Input)
      requires Valid()
      modifies this, cells
      ensures Valid() && fresh(cells - old(cells))
      ensures View() == D.Play(expiration, old(View()), MatchEvents(order, verdict, input))
      ensures sent == old(sent) + Emissions(expiration, old(View()), MatchEvents(order, verdict, input))
    {
      for i := 0 to |order|
        invariant Valid() && fresh(cells - old(cells))
        invariant View() == D.Play(expiration, old(View()), MatchEvents(order[..i], verdict, input))
        invariant sent == old(sent) + Emissions(expiration, old(View()), MatchEvents(order[..i], verdict, input))
      {
        MatchEventsNext(order, i, verdict, input);
        if verdict(order[i]).EvaluationError? {
          continue;
        }
        if verdict(order[i]).Matched? {
          OneMoreMatch(expiration, old(View()), MatchEvents(order[..i], verdict, input), order[i], input);
          HandleMatch(order[i], input);
        }
      }
      assert order[..|order|] == order;
    }

    method Cleanup(now: int) returns (cleaned: nat)
      requires Valid()
      modifies `states
      ensures Valid()
      ensures View() == D.StepStates(expiration, old(View()), D.Cleanup(now))
      ensures cleaned == |old(states)| - |states|
    {
      var threshold := now - expiration;
      hide Swept;
      cleaned := 0;
      ghost var before := states;
      ghost var stale := set k | k in before && before[k].lastDetected < threshold;
      var keys := states.Keys;
      SweepStarts(before, stale);
      while keys != {}
        invariant keys <= before.Keys && states == Swept(before, stale, keys)
        invariant cleaned == |before| - |states|
      {
        var key :| key in keys;
        Unseen(before, stale, keys, key);
        if states[key].lastDetected < threshold {
          SweepStale(before, stale, keys, key);
          states := states - {key};
          cleaned := cleaned + 1;
        } else {
          SweepFresh(before, stale, keys, key);
        }
        keys := keys - {key};
      }
      SweepEnds(before, stale);
      assert View().Keys == D.StepStates(expiration, old(View()), D.Cleanup(now)).Keys;
    }
  }

  // ---------------------------------------------------------------- the iteration order is irrelevant

  /** Scenario identifiers are distinct, as keys of the scenario map. */
  predicate DistinctScenarios(order: seq<D.Scenario>) {
    forall i, j :: 0 <= i < j < |order| ==> order[i].id != order[j].id
  }

  /** The same resource gives different scenarios different keys, whatever texts they contain. */
  lemma KeysDiffer(s: D.Scenario, s': D.Scenario, input: D.Input)
    requires s.id != s'.id
    ensures D.KeyOf(s, input) != D.KeyOf(s', input)
  {
    if D.KeyOf(s, input) == D.KeyOf(s', input) {
      SameKeySameScenario(s, s', input);
    }
  }

  lemma SameKeySameScenario(s: D.Scenario, s': D.Scenario, input: D.Input)
    requires D.KeyOf(s, input) == D.KeyOf(s', input)
    ensures s.id == s'.id
  {
    var key := D.KeyOf(s, input);
    var n := |s.id|;
    assert |key| == n + 1 + |input.resource.Key()| && |key| == |s'.id| + 1 + |input.resource.Key()|;
    assert s.id == key[..n] && s'.id == key[..n];
  }

  predicate Concerns(s: D.Scenario, verdict: D.Scenario -> Verdict, input: D.Input, key: string) {
    verdict(s).Matched? && D.KeyOf(s, input) == key
  }

  lemma MatchEventsStep(expiration: int, states: D.States, order: seq<D.Scenario>, verdict: D.Scenario -> Verdict, input: D.Input)
    requires order != []
    ensures var init, last := order[..|order| - 1], order[|order| - 1];
            var before := D.Play(expiration, states, MatchEvents(init, verdict, input));
            D.Play(expiration, states, MatchEvents(order, verdict, input))
            == if verdict(last).Matched? then D.StepStates(expiration, before, D.Match(last, input)) else before
  {
    var done := MatchEvents(order[..|order| - 1], verdict, input);
    var e := D.Match(order[|order| - 1], input);
    assert (done + [e])[..|done|] == done;
    if verdict(order[|order| - 1]).Matched? {
      assert MatchEvents(order, verdict, input) == done + [e];
    } else {
      assert MatchEvents(order, verdict, input) == done;
    }
  }

  lemma {:induction false} OthersLeaveKey(expiration: int, states: D.States, order: seq<D.Scenario>,
      verdict: D.Scenario -> Verdict, input: D.Input, key: string)
    requires forall i :: 0 <= i < |order| ==> !Concerns(order[i], verdict, input, key)
    ensures D.Lookup(D.Play(expiration, states, MatchEvents(order, verdict, input)), key) == D.Lookup(states, key)
  {
    if order != [] {
      OthersLeaveKey(expiration, states, order[..|order| - 1], verdict, input, key);
      MatchEventsStep(expiration, states, order, verdict, input);
      assert !Concerns(order[|order| - 1], verdict, input, key);
    }
  }

  /** At most one scenario of an input touches a key, and it sees the key as it was before. */
  lemma {:induction false} OneMatchPerKey(expiration: int, states: D.States, order: seq<D.Scenario>,
      verdict: D.Scenario -> Verdict, input: D.Input, key: string, i: nat)
    requires DistinctScenarios(order) && i < |order| && Concerns(order[i], verdict, input, key)
    ensures D.Lookup(D.Play(expiration, states, MatchEvents(order, verdict, input)), key)
         == Some(D.AfterMatch(D.Lookup(states, key), order[i], input))
  {
    var n := |order| - 1;
    forall j | 0 <= j <= n && j != i ensures !Concerns(order[j], verdict, input, key) {
      KeysDiffer(order[i], order[j], input);
    }
    MatchEventsStep(expiration, states, order, verdict, input);
    if i == n {
      OthersLeaveKey(expiration, states, order[..n], verdict, input, key);
    } else {
      OneMatchPerKey(expiration, states, order[..n], verdict, input, key, i);
      assert !Concerns(order[n], verdict, input, key);
    }
  }

  /** Over a whole run these are the emissions the detection theorems are about. */
  lemma SentIsEmitted(expiration: int, run: seq<D.Event>, i: nat)
    requires i < |run|
    ensures Emissions(expiration, map[], run[..i + 1])
         == Emissions(expiration, map[], run[..i]) + ResultSeq(D.Emitted(expiration, run, i))
  {
    assert run[..i + 1][..i] == run[..i] && run[..i + 1][i] == run[i];
  }

  /** What one scenario sends for an input, seeing the states as they were before the input. */
  function SentBy(states: D.States, verdict: D.Scenario -> Verdict, input: D.Input): D.Scenario -> seq<D.DetectionResult> {
    (s: D.Scenario) =>
      if verdict(s).Matched? then ResultSeq(D.Emission(D.Lookup(states, D.KeyOf(s, input)), s, input)) else []
  }

  function Concat<A, B>(s: seq<A>, f: A -> seq<B>): seq<B> {
    if s == [] then [] else Concat(s[..|s| - 1], f) + f(s[|s| - 1])
  }

  /** Each scenario sends what it would send alone. */
  lemma {:induction false} EmissionsFromStart(expiration: int, states: D.States, order: seq<D.Scenario>,
      verdict: D.Scenario -> Verdict, input: D.Input)
    requires DistinctScenarios(order)
    ensures Emissions(expiration, states, MatchEvents(order, verdict, input)) == Concat(order, SentBy(states, verdict, input))
  {
    if order != [] {
      var n := |order| - 1;
      var init, last := order[..n], order[n];
      EmissionsFromStart(expiration, states, init, verdict, input);
      var done := MatchEvents(init, verdict, input);
      if verdict(last).Matched? {
        var key := D.KeyOf(last, input);
        forall j | 0 <= j < |init| ensures !Concerns(init[j], verdict, input, key) {
          KeysDiffer(order[j], last, input);
        }
        OthersLeaveKey(expiration, states, init, verdict, input, key);
        assert (done + [D.Match(last, input)])[..|done|] == done;
        assert MatchEvents(order, verdict, input) == done + [D.Match(last, input)];
      } else {
        assert MatchEvents(order, verdict, input) == done;
        assert SentBy(states, verdict, input)(last) == [];
      }
    }
  }

  lemma ConcatLast<A, B>(a: seq<A>, b: seq<A>, f: A -> seq<B>)
    requires b != []
    ensures Concat(a + b, f) == Concat(a + b[..|b| - 1], f) + f(b[|b| - 1])
    ensures Concat(b, f) == Concat(b[..|b| - 1], f) + f(b[|b| - 1])
  {
    var c := a + b;
    assert c[..|c| - 1] == a + b[..|b| - 1];
  }

  lemma {:induction false} ConcatAppend<A, B>(a: seq<A>, b: seq<A>, f: A -> seq<B>)
    ensures Concat(a + b, f) == Concat(a, f) + Concat(b, f)
  {
    if b == [] {
      assert a + b == a;
    } else {
      var n := |b| - 1;
      ConcatAppend(a, b[..n], f);
      ConcatLast(a, b, f);
    }
  }

  lemma ConcatAround<A, B>(a: seq<A>, x: A, b: seq<A>, f: A -> seq<B>)
    ensures Concat(a + [x] + b, f) == Concat(a, f) + f(x) + Concat(b, f)
  {
    ConcatAppend(a + [x], b, f);
    assert (a + [x])[..|a|] == a;
  }

  /** Taking one element out takes out its part. */
  lemma ConcatWithout<A, B>(a: seq<A>, x: A, b: seq<A>, f: A -> seq<B>)
    ensures multiset(Concat(a + [x] + b, f)) == multiset(Concat(a + b, f)) + multiset(f(x))
  {
    ConcatAround(a, x, b, f);
    ConcatAppend(a, b, f);
  }

  lemma PartOut<A, B>(s: seq<A>, j: nat, f: A -> seq<B>)
    requires j < |s|
    ensures multiset(Concat(s, f)) == multiset(Concat(s[..j] + s[j + 1..], f)) + multiset(f(s[j]))
    ensures j == |s| - 1 ==> s[..j] + s[j + 1..] == s[..j]
  {
    OneOut(s, j);
    ConcatWithout(s[..j], s[j], s[j + 1..], f);
  }

  /** The last element of s, found in a permutation of s. */
  lemma LastIn<A>(s: seq<A>, t: seq<A>) returns (j: nat)
    requires s != [] && multiset(s) == multiset(t)
    ensures j < |t| && t[j] == s[|s| - 1] && multiset(s[..|s| - 1]) == multiset(t[..j] + t[j + 1..])
  {
    var n := |s| - 1;
    assert s[n] in multiset(t);
    j :| 0 <= j < |t| && t[j] == s[n];
    OneOut(s, n);
    OneOut(t, j);
    assert s[..n] + s[n + 1..] == s[..n];
  }

  lemma {:induction false} ConcatPermutes<A, B>(s: seq<A>, t: seq<A>, f: A -> seq<B>)
    requires multiset(s) == multiset(t)
    ensures multiset(Concat(s, f)) == multiset(Concat(t, f))
  {
    if s == [] {
      assert |multiset(t)| == 0;
    } else {
      var n := |s| - 1;
      var j := LastIn(s, t);
      ConcatPermutes(s[..n], t[..j] + t[j + 1..], f);
      PartOut(s, n, f);
      PartOut(t, j, f);
    }
  }

  lemma SameSent(expiration: int, states: D.States, order: seq<D.Scenario>, order': seq<D.Scenario>,
      verdict: D.Scenario -> Verdict, input: D.Input)
    requires DistinctScenarios(order) && DistinctScenarios(order')
    requires multiset(order) == multiset(order')
    ensures multiset(Emissions(expiration, states, MatchEvents(order, verdict, input)))
         == multiset(Emissions(expiration, states, MatchEvents(order', verdict, input)))
  {
    EmissionsFromStart(expiration, states, order, verdict, input);
    EmissionsFromStart(expiration, states, order', verdict, input);
    ConcatPermutes(order, order', SentBy(states, verdict, input));
  }

  lemma SameStates(expiration: int, states: D.States, order: seq<D.Scenario>, order': seq<D.Scenario>,
      verdict: D.Scenario -> Verdict, input: D.Input)
    requires DistinctScenarios(order) && DistinctScenarios(order')
    requires multiset(order) == multiset(order')
    ensures D.Play(expiration, states, MatchEvents(order, verdict, input))
         == D.Play(expiration, states, MatchEvents(order', verdict, input))
  {
    assert forall s :: s in order <==> s in multiset(order);
    assert forall s :: s in order' <==> s in multiset(order');
    var a := D.Play(expiration, states, MatchEvents(order, verdict, input));
    var b := D.Play(expiration, states, MatchEvents(order', verdict, input));
    forall key ensures D.Lookup(a, key) == D.Lookup(b, key) {
      if i: nat :| i < |order| && Concerns(order[i], verdict, input, key) {
        assert order[i] in order && order[i] in order';
        var j: nat :| j < |order'| && order'[j] == order[i];
        OneMatchPerKey(expiration, states, order, verdict, input, key, i);
        OneMatchPerKey(expiration, states, order', verdict, input, key, j);
      } else {
        forall j | 0 <= j < |order'| ensures !Concerns(order'[j], verdict, input, key) {
          assert order'[j] in order' && order'[j] in order;
          var i: nat :| i < |order| && order[i] == order'[j];
        }
        OthersLeaveKey(expiration, states, order, verdict, input, key);
        OthersLeaveKey(expiration, states, order', verdict, input, key);
      }
    }
    assert forall key :: key in a <==> D.Lookup(a, key).Some?;
    assert forall key :: key in b <==> D.Lookup(b, key).Some?;
    assert forall key :: key in a ==> a[key] == D.Lookup(a, key).value;
  }

  /** Whatever order the scenario map is iterated in, an input leaves the same states behind and
      sends the same results. */
  lemma {:induction false} IterationOrderIrrelevant(expiration: int, states: D.States, order: seq<D.Scenario>, order': seq<D.Scenario>,
      verdict: D.Scenario -> Verdict, input: D.Input)
    requires DistinctScenarios(order) && DistinctScenarios(order')
    requires multiset(order) == multiset(order')
    ensures D.Play(expiration, states, MatchEvents(order, verdict, input))
         == D.Play(expiration, states, MatchEvents(order', verdict, input))
    ensures multiset(Emissions(expiration, states, MatchEvents(order, verdict, input)))
         == multiset(Emissions(expiration, states, MatchEvents(order', verdict, input)))
  {
    SameStates(expiration, states, order, order', verdict, input);
    SameSent(expiration, states, order, order', verdict, input);
  }
}
