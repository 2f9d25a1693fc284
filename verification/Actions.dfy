/** The action list of one remediation on its way from the detection result, through the
    RemediationTask object, to the worker that runs it. */
module Actions {
  import opened Types
  import opened Sequences

  /** JSON-like values: action parameters and the untyped content of a task object. */
  datatype Json = JString(s: string) | JInt(n: int) | JObject(fields: map<string, Json>) | JOther(text: string)

  datatype ActionConfig = ActionConfig(kind: string, order: int, params: map<string, Json>)

  datatype ActionStatus = NoStatus | ActionSucceeded | ActionFailed | ActionSkipped | ActionDryRun

  /** What the executor gives back for one action: a result and possibly an error. */
  datatype Outcome = Outcome(status: ActionStatus, message: string, error: string, err: Option<string>)
  {
    predicate Fails() {
      err.Some? || status.ActionFailed?
    }
  }

  const NO_OUTCOME := Outcome(NoStatus, "", "", None)

  // ---------------------------------------------------------------- ordering

  predicate Ordered(actions: seq<ActionConfig>) {
    forall i, j :: 0 <= i < j < |actions| ==> actions[i].order <= actions[j].order
  }

  /** What sort.Slice promises: the same actions, in nondecreasing order. Actions of equal
      order may come out in any sequence, because that sort is not stable. */
  predicate SortedFrom(source: seq<ActionConfig>, actions: seq<ActionConfig>) {
    multiset(actions) == multiset(source) && Ordered(actions)
  }

  function Insert(a: ActionConfig, s: seq<ActionConfig>): seq<ActionConfig> {
    if s == [] || a.order <= s[0].order then [a] + s else [s[0]] + Insert(a, s[1..])
  }

  lemma {:induction false} InsertKeepsActions(a: ActionConfig, s: seq<ActionConfig>)
    ensures multiset(Insert(a, s)) == multiset{a} + multiset(s)
  {
    if !(s == [] || a.order <= s[0].order) {
      InsertKeepsActions(a, s[1..]);
      assert s == [s[0]] + s[1..];
    }
  }

  lemma InsertAbove(a: ActionConfig, s: seq<ActionConfig>, low: int)
    requires low <= a.order && forall j :: 0 <= j < |s| ==> low <= s[j].order
    ensures forall j :: 0 <= j < |Insert(a, s)| ==> low <= Insert(a, s)[j].order
  {
  }

  lemma OrderedCons(x: ActionConfig, s: seq<ActionConfig>)
    requires Ordered(s) && forall j :: 0 <= j < |s| ==> x.order <= s[j].order
    ensures Ordered([x] + s)
  {
  }

  lemma {:induction false} InsertOrdered(a: ActionConfig, s: seq<ActionConfig>)
    requires Ordered(s)
    ensures Ordered(Insert(a, s))
  {
    if s == [] || a.order <= s[0].order {
      OrderedCons(a, s);
    } else {
      InsertOrdered(a, s[1..]);
      InsertAbove(a, s[1..], s[0].order);
      OrderedCons(s[0], Insert(a, s[1..]));
    }
  }

  function SortByOrder(s: seq<ActionConfig>): seq<ActionConfig> {
    if s == [] then [] else Insert(s[0], SortByOrder(s[1..]))
  }

  lemma {:induction false} SortByOrderSorts(s: seq<ActionConfig>)
    ensures SortedFrom(s, SortByOrder(s))
  {
    if s != [] {
      SortByOrderSorts(s[1..]);
      InsertKeepsActions(s[0], SortByOrder(s[1..]));
      InsertOrdered(s[0], SortByOrder(s[1..]));
      assert s == [s[0]] + s[1..];
    }
  }

  /** The library sort used on the slice in place. Callers rely on SortedFrom alone. */
  method SortSlice(a: array<ActionConfig>)
    modifies a
    ensures SortedFrom(old(a[..]), a[..])
  {
    var s := SortByOrder(a[..]);
    SortByOrderSorts(a[..]);
    SortedFromLength(a[..], s);
    forall i | 0 <= i < a.Length {
      a[i] := s[i];
    }
    assert a[..] == s;
  }

  lemma SortedFromLength(source: seq<ActionConfig>, actions: seq<ActionConfig>)
    requires SortedFrom(source, actions)
    ensures |actions| == |source|
  {
    assert |multiset(actions)| == |multiset(source)|;
  }

  // ---------------------------------------------------------------- publishing and extracting

  /** One action as it is stored in the task object: every parameter printed to text. */
  function ToTaskAction(render: Json -> string, a: ActionConfig): Json {
    JObject(map[
      "type" := JString(a.kind),
      "order" := JInt(a.order),
      "params" := JObject(map k | k in a.params :: JString(render(a.params[k])))
    ])
  }

  function ToTaskActions(render: Json -> string, actions: seq<ActionConfig>): (r: seq<Json>) {
    seq(|actions|, i requires 0 <= i < |actions| => ToTaskAction(render, actions[i]))
  }

  /** One stored action as the worker reads it back; a part of the wrong type reads as its
      zero value. */
  function FromTaskAction(fields: map<string, Json>): ActionConfig {
    ActionConfig(
      if "type" in fields && fields["type"].JString? then fields["type"].s else "",
      if "order" in fields && fields["order"].JInt? then fields["order"].n else 0,
      if "params" in fields && fields["params"].JObject? then fields["params"].fields else map[])
  }

  /** List entries that are not objects are skipped. */
  function FromTaskActions(raw: seq<Json>): seq<ActionConfig> {
    if raw == [] then
      []
    else
      var init := FromTaskActions(raw[..|raw| - 1]);
      var last := raw[|raw| - 1];
      if last.JObject? then init + [FromTaskAction(last.fields)] else init
  }

  /** An action with its parameters printed: all that publishing loses. */
  function Printed(render: Json -> string, a: ActionConfig): ActionConfig {
    a.(params := map k | k in a.params :: JString(render(a.params[k])))
  }

  /** Reading back a published list gives the same actions in the same sequence, each with its
      type and order, and with the same parameter names. */
  lemma {:induction false} PublishExtractRoundTrip(render: Json -> string, actions: seq<ActionConfig>)
    ensures var back := FromTaskActions(ToTaskActions(render, actions));
            && |back| == |actions|
            && forall i :: 0 <= i < |actions| ==>
                 back[i].kind == actions[i].kind
                 && back[i].order == actions[i].order
                 && back[i] == Printed(render, actions[i])
  {
    if actions != [] {
      var init := actions[..|actions| - 1];
      var raw := ToTaskActions(render, actions);
      PublishExtractRoundTrip(render, init);
      assert raw[..|raw| - 1] == ToTaskActions(render, init);
    }
  }

  function PrintedAll(render: Json -> string, actions: seq<ActionConfig>): seq<ActionConfig> {
    seq(|actions|, i requires 0 <= i < |actions| => Printed(render, actions[i]))
  }

  lemma PrintedAround(render: Json -> string, a: seq<ActionConfig>, x: ActionConfig, b: seq<ActionConfig>)
    ensures multiset(PrintedAll(render, a + [x] + b)) == multiset(PrintedAll(render, a + b)) + multiset{Printed(render, x)}
  {
    var pa, pb := PrintedAll(render, a), PrintedAll(render, b);
    assert PrintedAll(render, a + [x] + b) == pa + [Printed(render, x)] + pb;
    assert PrintedAll(render, a + b) == pa + pb;
  }

  /** Printing respects permutations. */
  lemma {:induction false} PrintedPermutes(render: Json -> string, s: seq<ActionConfig>, t: seq<ActionConfig>)
    requires multiset(s) == multiset(t)
    ensures multiset(PrintedAll(render, s)) == multiset(PrintedAll(render, t))
  {
    if s == [] {
      assert |multiset(t)| == 0;
    } else {
      assert s[0] in multiset(t);
      var j :| 0 <= j < |t| && t[j] == s[0];
      OneOut(s, 0);
      OneOut(t, j);
      assert s[..0] + s[1..] == s[1..];
      PrintedPermutes(render, s[1..], t[..j] + t[j + 1..]);
      PrintedAround(render, s[..0], s[0], s[1..]);
      PrintedAround(render, t[..j], t[j], t[j + 1..]);
    }
  }

  /** From the detection to the worker: whatever permutation the publisher's sort and then the
      worker's sort produce, what the worker runs along is an order-sorted permutation of the
      recommended actions, printed. */
  lemma WorkerRunsRecommended(render: Json -> string, recommended: seq<ActionConfig>, sorted: seq<ActionConfig>,
                              actions: seq<ActionConfig>)
    requires SortedFrom(recommended, sorted)
    requires SortedFrom(FromTaskActions(ToTaskActions(render, sorted)), actions)
    ensures SortedFrom(PrintedAll(render, recommended), actions)
  {
    PublishExtractRoundTrip(render, sorted);
    assert FromTaskActions(ToTaskActions(render, sorted)) == PrintedAll(render, sorted);
    PrintedPermutes(render, recommended, sorted);
  }

  /** The publisher copies the recommended actions, sorts the copy and converts it. The
      caller's slice is untouched. */
  method PublishActions(render: Json -> string, recommended: array<ActionConfig>)
    returns (crdActions: seq<Json>)
    ensures exists sorted :: SortedFrom(recommended[..], sorted) && crdActions == ToTaskActions(render, sorted)
  {
    var actions := new ActionConfig[recommended.Length](i requires 0 <= i < recommended.Length reads recommended => recommended[i]);
    assert actions[..] == recommended[..];
    SortSlice(actions);
    crdActions := [];
    for i := 0 to actions.Length
      invariant |crdActions| == i
      invariant forall k :: 0 <= k < i ==> crdActions[k] == ToTaskAction(render, actions[k])
    {
      crdActions := crdActions + [ToTaskAction(render, actions[i])];
    }
    assert crdActions == ToTaskActions(render, actions[..]);
  }

  method ExtractActions(raw: seq<Json>) returns (actions: seq<ActionConfig>)
    ensures actions == FromTaskActions(raw)
  {
    actions := [];
    for i := 0 to |raw|
      invariant actions == FromTaskActions(raw[..i])
    {
      assert raw[..i + 1][..i] == raw[..i];
      if raw[i].JObject? {
        actions := actions + [FromTaskAction(raw[i].fields)];
      }
    }
    assert raw[..|raw|] == raw;
  }

  /** What is read from a stored list: one action for each entry that is an object, in sequence; a part
      that is missing or of the wrong type is read as empty or zero. */
  ghost predicate ReadFrom(raw: seq<Json>, actions: seq<ActionConfig>, at: seq<nat>) {
    && |at| == |actions|
    && (forall k :: 0 <= k < |at| ==> at[k] < |raw| && raw[at[k]].JObject? && ReadAs(raw[at[k]].fields, actions[k]))
    && (forall k, l :: 0 <= k < l < |at| ==> at[k] < at[l])
    && (forall i :: 0 <= i < |raw| && raw[i].JObject? ==> i in at)
  }

  predicate ReadAs(fields: map<string, Json>, a: ActionConfig) {
    && (if "type" in fields && fields["type"].JString? then fields["type"] == JString(a.kind) else a.kind == "")
    && (if "order" in fields && fields["order"].JInt? then fields["order"] == JInt(a.order) else a.order == 0)
    && (if "params" in fields && fields["params"].JObject? then fields["params"] == JObject(a.params) else a.params == map[])
  }

  lemma ReadsOne(fields: map<string, Json>)
    ensures ReadAs(fields, FromTaskAction(fields))
  {
  }

  lemma ReadsMore(init: seq<Json>, last: Json, actions: seq<ActionConfig>, at: seq<nat>)
    requires ReadFrom(init, actions, at)
    ensures last.JObject? ==> ReadFrom(init + [last], actions + [FromTaskAction(last.fields)], at + [|init|])
    ensures !last.JObject? ==> ReadFrom(init + [last], actions, at)
  {
    hide ReadAs, FromTaskAction;
    var raw := init + [last];
    if last.JObject? {
      ReadsOne(last.fields);
      var at' := at + [|init|];
      assert at'[|at|] == |init|;
      forall i | 0 <= i < |raw| && raw[i].JObject? ensures i in at' {
        if i < |init| {
          assert init[i].JObject?;
          var k :| 0 <= k < |at| && at[k] == i;
          assert at'[k] == i;
        }
      }
    } else {
      forall i | 0 <= i < |raw| && raw[i].JObject? ensures i in at {
        assert init[i].JObject?;
      }
    }
  }

  lemma {:induction false} ExtractReads(raw: seq<Json>) returns (at: seq<nat>)
    ensures ReadFrom(raw, FromTaskActions(raw), at)
  {
    at := [];
    if raw != [] {
      hide ReadFrom, FromTaskAction;
      var n := |raw| - 1;
      at := ExtractReads(raw[..n]);
      ReadsMore(raw[..n], raw[n], FromTaskActions(raw[..n]), at);
      assert raw == raw[..n] + [raw[n]];
      at := if raw[n].JObject? then at + [n] else at;
    }
  }

  // ---------------------------------------------------------------- running

  /** No action before the last one run has failed. */
  predicate RunsUntilFailure(actions: seq<ActionConfig>, outcomes: seq<Outcome>) {
    && |outcomes| <= |actions|
    && forall i :: 0 <= i < |outcomes| - 1 ==> !outcomes[i].Fails()
  }

  predicate AnyFailed(outcomes: seq<Outcome>) {
    exists i :: 0 <= i < |outcomes| && outcomes[i].Fails()
  }

  /** Nothing is left to run: every action ran, or one failed. */
  predicate Stopped(actions: seq<ActionConfig>, outcomes: seq<Outcome>) {
    |outcomes| == |actions| || AnyFailed(outcomes)
  }

  /** The executor was called for the actions in turn, and not again after a call that returned an error
      or the status "failed". */
  ghost predicate UpToFailure(actions: seq<ActionConfig>, outcomes: seq<Outcome>) {
    && |outcomes| <= |actions|
    && NoneFails(outcomes, |outcomes| - 1)
    && (|outcomes| < |actions| ==>
          outcomes != [] && (outcomes[|outcomes| - 1].err != None || outcomes[|outcomes| - 1].status == ActionFailed))
  }

  ghost predicate NoneFails(outcomes: seq<Outcome>, n: int)
    requires n <= |outcomes|
  {
    forall k :: 0 <= k < n ==> outcomes[k].err == None && outcomes[k].status != ActionFailed
  }

  /** Running until the first failure is that, and no failure is no error and no status "failed". */
  lemma StopsAtFailure(actions: seq<ActionConfig>, outcomes: seq<Outcome>)
    requires RunsUntilFailure(actions, outcomes) && Stopped(actions, outcomes)
    ensures UpToFailure(actions, outcomes)
    ensures AnyFailed(outcomes) <==> !NoneFails(outcomes, |outcomes|)
  {
  }

  function SuccessCount(outcomes: seq<Outcome>): (n: nat)
    ensures n <= |outcomes|
    ensures n == |outcomes| <==> !AnyFailed(outcomes)
  {
    if outcomes == [] then
      0
    else
      var init := outcomes[..|outcomes| - 1];
      assert forall i :: 0 <= i < |init| ==> init[i] == outcomes[i];
      assert AnyFailed(outcomes) <==> AnyFailed(init) || outcomes[|outcomes| - 1].Fails();
      SuccessCount(init) + (if outcomes[|outcomes| - 1].Fails() then 0 else 1)
  }

  function LastOutcome(outcomes: seq<Outcome>): Outcome {
    if outcomes == [] then NO_OUTCOME else outcomes[|outcomes| - 1]
  }

  /** A sequence that stopped on a failure ran exactly one action more than it completed. */
  lemma FailedRunCount(actions: seq<ActionConfig>, outcomes: seq<Outcome>)
    requires RunsUntilFailure(actions, outcomes) && AnyFailed(outcomes)
    ensures |outcomes| == SuccessCount(outcomes) + 1
    ensures LastOutcome(outcomes).Fails()
  {
    var init := outcomes[..|outcomes| - 1];
    assert forall i :: 0 <= i < |init| ==> init[i] == outcomes[i];
    assert !AnyFailed(init);
  }
}
