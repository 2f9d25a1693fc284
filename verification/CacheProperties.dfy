/** What the cache guarantees in every reachable state and over whole runs of operations. */
module CacheProperties {
  import opened Types
  import opened CacheModel

  // ---------------------------------------------------------------- what is kept

  lemma {:induction false} UnexpiredKeeps<V>(cfg: Config, s: seq<Entry<V>>, now: Time)
    ensures forall e :: e in Unexpired(cfg, s, now) <==> e in s && !IsExpired(cfg, e, now)
    ensures |Unexpired(cfg, s, now)| <= |s|
  {
    if s != [] {
      UnexpiredKeeps(cfg, s[..|s| - 1], now);
      assert s == s[..|s| - 1] + [s[|s| - 1]];
    }
  }

  /** r is s with some entries left out: order and multiplicity are kept. */
  ghost predicate Subsequence<V>(r: seq<Entry<V>>, s: seq<Entry<V>>, at: seq<nat>) {
    && |at| == |r|
    && (forall i :: 0 <= i < |at| ==> at[i] < |s| && r[i] == s[at[i]])
    && (forall i, j :: 0 <= i < j < |at| ==> at[i] < at[j])
  }

  lemma {:induction false} UnexpiredInOrder<V>(cfg: Config, s: seq<Entry<V>>, now: Time) returns (at: seq<nat>)
    ensures Subsequence(Unexpired(cfg, s, now), s, at)
  {
    at := [];
    if s != [] {
      at := UnexpiredInOrder(cfg, s[..|s| - 1], now);
      if !IsExpired(cfg, s[|s| - 1], now) {
        at := at + [|s| - 1];
      }
    }
  }

  ghost predicate Inv<V>(cfg: Config, c: Cache<V>) {
    Distinct(c.entries) && |c.entries| <= cfg.maxEntries
  }

  lemma UnexpiredKeepsInv<V>(cfg: Config, s: seq<Entry<V>>, now: Time)
    requires Distinct(s)
    ensures Distinct(Unexpired(cfg, s, now)) && |Unexpired(cfg, s, now)| <= |s|
  {
    var at := UnexpiredInOrder(cfg, s, now);
    UnexpiredKeeps(cfg, s, now);
  }

  lemma RemoveAtKeepsDistinct<V>(s: seq<Entry<V>>, i: nat)
    requires Distinct(s) && i < |s|
    ensures Distinct(RemoveAt(s, i))
    ensures forall j :: 0 <= j < |s| - 1 ==> RemoveAt(s, i)[j].key != s[i].key
  {
    var r := RemoveAt(s, i);
    assert forall j :: 0 <= j < i ==> r[j] == s[j];
    assert forall j :: i <= j < |r| ==> r[j] == s[j + 1];
  }

  lemma KeptKeepsDistinct<V>(policy: Policy, s: seq<Entry<V>>, k: nat, key: string)
    requires Distinct(s) && k <= |s| && Position(s, key) == |s|
    ensures var kept := Kept(policy, s, k);
            Distinct(kept) && |kept| == k && forall j :: 0 <= j < k ==> kept[j].key != key
  {
    assert forall j :: 0 <= j < |s| ==> s[j].key != key;
  }

  lemma SetKeepsInv<V>(cfg: Config, c: Cache<V>, key: string, value: V, size: int, now: Time)
    requires cfg.maxEntries >= 1 && Inv(cfg, c)
    ensures Inv(cfg, DoSet(cfg, c, key, value, size, now))
  {
    var i := Position(c.entries, key);
    if i < |c.entries| {
      RemoveAtKeepsDistinct(c.entries, i);
    } else {
      KeptKeepsDistinct(cfg.policy, c.entries, KeepCount(cfg, c.entries, size, c.maxSize), key);
    }
  }

  lemma ApplyKeepsInv<V>(cfg: Config, c: Cache<V>, op: Op<V>)
    requires cfg.maxEntries >= 1 && Inv(cfg, c)
    ensures Inv(cfg, Apply(cfg, c, op))
  {
    match op
    case Get(key, _, _) =>
      var i := Position(c.entries, key);
      if i < |c.entries| {
        RemoveAtKeepsDistinct(c.entries, i);
      }
    case Set(key, value, size, now) => SetKeepsInv(cfg, c, key, value, size, now);
    case Delete(key) =>
      var i := Position(c.entries, key);
      if i < |c.entries| {
        RemoveAtKeepsDistinct(c.entries, i);
      }
    case Cleanup(now) => UnexpiredKeepsInv(cfg, c.entries, now);
    case _ =>
  }

  /** Keys stay distinct and the entry limit is never exceeded, whatever the operations. */
  lemma {:induction false} EntryLimit<V>(cfg: Config, maxSize: int, ops: seq<Op<V>>)
    requires cfg.maxEntries >= 1
    ensures Distinct(RunOps(cfg, maxSize, ops).entries)
    ensures |RunOps(cfg, maxSize, ops).entries| <= cfg.maxEntries
  {
    if ops != [] {
      EntryLimit(cfg, maxSize, ops[..|ops| - 1]);
      ApplyKeepsInv(cfg, RunOps(cfg, maxSize, ops[..|ops| - 1]), ops[|ops| - 1]);
    }
  }

  // ---------------------------------------------------------------- byte limit and minimal eviction

  predicate FitsSize<V>(policy: Policy, s: seq<Entry<V>>, newSize: int, maxSize: int, k: nat)
    requires k <= |s|
  {
    Sum(Kept(policy, s, k)) + newSize <= maxSize
  }

  /** Eviction stops at the first count that fits, coming from above. */
  lemma {:induction false} SizeFitIsFirst<V>(policy: Policy, s: seq<Entry<V>>, newSize: int, maxSize: int, k: nat)
    requires k <= |s|
    ensures var r := SizeFit(policy, s, newSize, maxSize, k);
            (r == 0 || FitsSize(policy, s, newSize, maxSize, r))
            && forall m :: r < m <= k ==> !FitsSize(policy, s, newSize, maxSize, m)
  {
    if !(k == 0 || Sum(Kept(policy, s, k)) + newSize <= maxSize) {
      SizeFitIsFirst(policy, s, newSize, maxSize, k - 1);
    }
  }

  lemma {:induction false} KeptSumGrows<V>(policy: Policy, s: seq<Entry<V>>, k: nat, m: nat)
    requires Sized(s) && k <= m <= |s|
    ensures Sum(Kept(policy, s, k)) <= Sum(Kept(policy, s, m))
  {
    hide Sum;
    var more := Kept(policy, s, m);
    if policy.LRU? {
      assert more == s[..k] + s[k..m];
      SumConcat(s[..k], s[k..m]);
      SumNonnegative(s[k..m]);
    } else {
      assert more == s[|s| - m..|s| - k] + s[|s| - k..];
      SumConcat(s[|s| - m..|s| - k], s[|s| - k..]);
      SumNonnegative(s[|s| - m..|s| - k]);
    }
  }

  /** The kept end of the list that eviction settles on: it fits both limits (or is empty), and
      one entry more would break one of them. */
  lemma KeepCountIsMaximal<V>(cfg: Config, s: seq<Entry<V>>, newSize: int, maxSize: int)
    requires cfg.maxEntries >= 1 && Sized(s)
    ensures var k := KeepCount(cfg, s, newSize, maxSize);
            && (k == 0 || FitsSize(cfg.policy, s, newSize, maxSize, k))
            && forall m :: k < m <= |s| ==> m >= cfg.maxEntries || !FitsSize(cfg.policy, s, newSize, maxSize, m)
  {
    SizeFitIsFirst(cfg.policy, s, newSize, maxSize, |s|);
    KeptSumGrows(cfg.policy, s, KeepCount(cfg, s, newSize, maxSize), SizeFit(cfg.policy, s, newSize, maxSize, |s|));
  }

  /** Inserting a new key puts it at its end of the list and evicts as little as the limits allow,
      counting every eviction. */
  lemma InsertionEvictsMinimally<V>(cfg: Config, c: Cache<V>, key: string, value: V, size: int, now: Time)
    requires cfg.maxEntries >= 1 && Sized(c.entries) && !Has(c.entries, key)
    ensures var c' := DoSet(cfg, c, key, value, size, now);
            var k := |c'.entries| - 1;
            && 0 <= k <= |c.entries| && k < cfg.maxEntries
            && c'.entries == (if cfg.policy.LRU? then [Entry(key, value, size, now, now)] + c.entries[..k]
                              else c.entries[|c.entries| - k..] + [Entry(key, value, size, now, now)])
            && (k == 0 || FitsSize(cfg.policy, c.entries, size, c.maxSize, k))
            && (forall m :: k < m <= |c.entries| ==> m >= cfg.maxEntries || !FitsSize(cfg.policy, c.entries, size, c.maxSize, m))
            && c'.evictions - c.evictions == |c.entries| - k
  {
    KeepCountIsMaximal(cfg, c.entries, size, c.maxSize);
  }

  /** So after an insertion the bytes stored are within the limit, unless the entry alone exceeds it. */
  lemma InsertionByteLimit<V>(cfg: Config, c: Cache<V>, key: string, value: V, size: int, now: Time)
    requires cfg.maxEntries >= 1 && Sized(c.entries) && !Has(c.entries, key) && size >= 0
    ensures var after := Sum(DoSet(cfg, c, key, value, size, now).entries); after <= c.maxSize || after == size
  {
    InsertionEvictsMinimally(cfg, c, key, value, size, now);
    var c' := DoSet(cfg, c, key, value, size, now);
    var k := |c'.entries| - 1;
    var e := Entry(key, value, size, now, now);
    SumConcat([e], Kept(cfg.policy, c.entries, k));
    SumConcat(Kept(cfg.policy, c.entries, k), [e]);
  }

  /** Shrinking by 0 to 100 percent ends within the new limit. */
  lemma ReduceByteLimit<V>(cfg: Config, c: Cache<V>, percent: int)
    requires 0 <= percent <= 100 && c.maxSize >= 0
    ensures var c' := DoReduce(cfg, c, percent);
            0 <= c'.maxSize <= c.maxSize && Sum(c'.entries) <= c'.maxSize
  {
    var maxSize := Reduced(c.maxSize, percent);
    assert 0 <= c.maxSize * percent <= c.maxSize * 100;
    SizeFitIsFirst(cfg.policy, c.entries, 0, maxSize, |c.entries|);
  }

  /** Shrinking takes the given hundredths off the limit, in whole bytes and truncated toward zero, and
      evicts the fewest entries that make the rest fit, from the end eviction takes from. */
  lemma ReduceTakesPercent<V>(cfg: Config, c: Cache<V>, percent: int)
    ensures var c' := DoReduce(cfg, c, percent);
            var taken, asked := c.maxSize - c'.maxSize, c.maxSize * percent;
            if asked >= 0 then 100 * taken <= asked < 100 * taken + 100 else 100 * taken - 100 < asked <= 100 * taken
    ensures var c' := DoReduce(cfg, c, percent);
            var k := |c'.entries|;
            && k <= |c.entries| && c'.entries == (if cfg.policy.LRU? then c.entries[..k] else c.entries[|c.entries| - k..])
            && (k == 0 || Sum(c'.entries) <= c'.maxSize)
            && (forall m :: k < m <= |c.entries| ==> !FitsSize(cfg.policy, c.entries, 0, c'.maxSize, m))
            && c'.evictions - c.evictions == |c.entries| - k
  {
    SizeFitIsFirst(cfg.policy, c.entries, 0, Reduced(c.maxSize, percent), |c.entries|);
  }

  predicate WithinLimit<V>(c: Cache<V>) {
    Sized(c.entries) && 0 <= c.maxSize && Sum(c.entries) <= c.maxSize
  }

  /** What the caller of Set could check: a new entry fits by itself, a new size of a present entry
      fits beside the others. */
  predicate SetFits<V>(c: Cache<V>, op: Op<V>) {
    op.Set? ==>
      var i := Position(c.entries, op.key);
      if i < |c.entries| then Sum(c.entries) - c.entries[i].size + op.size <= c.maxSize else op.size <= c.maxSize
  }

  /** Sizes are not negative and shrinking is by 0 to 100 percent. */
  predicate Sensible<V>(op: Op<V>) {
    (op.Set? ==> op.size >= 0) && (op.ReduceSize? ==> 0 <= op.percent <= 100)
  }

  lemma RemoveAtKeepsLimit<V>(s: seq<Entry<V>>, i: nat)
    requires Sized(s) && i < |s|
    ensures Sized(RemoveAt(s, i)) && Sum(RemoveAt(s, i)) == Sum(s) - s[i].size <= Sum(s)
  {
    SumRemoveAt(s, i);
  }

  lemma {:induction false} UnexpiredKeepsLimit<V>(cfg: Config, s: seq<Entry<V>>, now: Time)
    requires Sized(s)
    ensures Sized(Unexpired(cfg, s, now)) && Sum(Unexpired(cfg, s, now)) <= Sum(s)
  {
    if s != [] {
      var init, last := s[..|s| - 1], s[|s| - 1];
      UnexpiredKeepsLimit(cfg, init, now);
      assert s == init + [last];
      SumConcat(init, [last]);
      var kept := Unexpired(cfg, init, now);
      SumConcat(kept, [last]);
      assert Sum([last]) == last.size;
      assert Unexpired(cfg, s, now) == if IsExpired(cfg, last, now) then kept else kept + [last];
    }
  }

  lemma GetKeepsLimit<V>(cfg: Config, c: Cache<V>, key: string, now: Time, later: Time)
    requires WithinLimit(c)
    ensures WithinLimit(DoGet(cfg, c, key, now, later).0)
  {
    var i := Position(c.entries, key);
    if i < |c.entries| {
      RemoveAtKeepsLimit(c.entries, i);
      SumConcat([c.entries[i].(accessedAt := later)], RemoveAt(c.entries, i));
    }
  }

  lemma UpdateSum<V>(cfg: Config, c: Cache<V>, key: string, value: V, size: int, now: Time)
    requires cfg.maxEntries >= 1 && Sized(c.entries) && Has(c.entries, key) && size >= 0
    ensures var i, c' := Position(c.entries, key), DoSet(cfg, c, key, value, size, now);
            Sized(c'.entries) && Sum(c'.entries) == Sum(c.entries) - c.entries[i].size + size
  {
    var i := Position(c.entries, key);
    var e := c.entries[i].(value := value, size := size, accessedAt := now);
    RemoveAtKeepsLimit(c.entries, i);
    SumConcat([e], RemoveAt(c.entries, i));
    assert RemoveAt(c.entries[i := e], i) == RemoveAt(c.entries, i);
    SumRemoveAt(c.entries[i := e], i);
  }

  lemma SumWith<V>(kept: seq<Entry<V>>, e: Entry<V>)
    requires Sized(kept) && e.size >= 0
    ensures Sized([e] + kept) && Sum([e] + kept) >= e.size
    ensures Sized(kept + [e]) && Sum(kept + [e]) >= e.size
  {
    SumNonnegative(kept);
    SumConcat([e], kept);
    SumConcat(kept, [e]);
    assert Sum([e]) == e.size;
  }

  lemma KeptSized<V>(policy: Policy, s: seq<Entry<V>>, k: nat)
    requires Sized(s) && k <= |s|
    ensures Sized(Kept(policy, s, k))
  {
  }

  lemma InsertSum<V>(cfg: Config, c: Cache<V>, key: string, value: V, size: int, now: Time)
    requires cfg.maxEntries >= 1 && Sized(c.entries) && !Has(c.entries, key) && size >= 0
    ensures var c' := DoSet(cfg, c, key, value, size, now); Sized(c'.entries) && Sum(c'.entries) >= size
  {
    var k := KeepCount(cfg, c.entries, size, c.maxSize);
    var kept, e := Kept(cfg.policy, c.entries, k), Entry(key, value, size, now, now);
    KeptSized(cfg.policy, c.entries, k);
    SumWith(kept, e);
    assert DoSet(cfg, c, key, value, size, now).entries == if cfg.policy.LRU? then [e] + kept else kept + [e];
  }

  /** One operation on a cache within its limit stays within it exactly when it is not a Set that
      does not fit. */
  lemma StepWithinLimitIff<V>(cfg: Config, c: Cache<V>, op: Op<V>)
    requires cfg.maxEntries >= 1 && WithinLimit(c) && Sensible(op)
    ensures WithinLimit(Apply(cfg, c, op)) <==> SetFits(c, op)
  {
    match op
    case Get(key, now, later) => GetKeepsLimit(cfg, c, key, now, later);
    case Set(key, value, size, now) =>
      if Has(c.entries, key) {
        UpdateSum(cfg, c, key, value, size, now);
      } else {
        InsertSum(cfg, c, key, value, size, now);
        InsertionByteLimit(cfg, c, key, value, size, now);
      }
    case Delete(key) =>
      if Has(c.entries, key) {
        RemoveAtKeepsLimit(c.entries, Position(c.entries, key));
      }
    case Cleanup(now) => UnexpiredKeepsLimit(cfg, c.entries, now);
    case ReduceSize(percent) => ReduceByteLimit(cfg, c, percent);
    case Clear =>
  }

  ghost predicate AlwaysWithinLimit<V>(cfg: Config, maxSize: int, ops: seq<Op<V>>)
    requires cfg.maxEntries >= 1
  {
    forall n :: 0 <= n <= |ops| ==> WithinLimit(RunOps(cfg, maxSize, ops[..n]))
  }

  ghost predicate EverySetFits<V>(cfg: Config, maxSize: int, ops: seq<Op<V>>)
    requires cfg.maxEntries >= 1
  {
    forall n :: 0 <= n < |ops| ==> SetFits(RunOps(cfg, maxSize, ops[..n]), ops[n])
  }

  lemma RunNext<V>(cfg: Config, maxSize: int, ops: seq<Op<V>>, n: nat)
    requires cfg.maxEntries >= 1 && n < |ops|
    ensures RunOps(cfg, maxSize, ops[..n + 1]) == Apply(cfg, RunOps(cfg, maxSize, ops[..n]), ops[n])
  {
    assert ops[..n + 1][..n] == ops[..n];
  }

  lemma {:induction false} FitsUpTo<V>(cfg: Config, maxSize: int, ops: seq<Op<V>>, n: nat)
    requires cfg.maxEntries >= 1 && maxSize >= 0 && n <= |ops|
    requires forall i :: 0 <= i < |ops| ==> Sensible(ops[i])
    requires EverySetFits(cfg, maxSize, ops)
    ensures WithinLimit(RunOps(cfg, maxSize, ops[..n]))
  {
    if n > 0 {
      FitsUpTo(cfg, maxSize, ops, n - 1);
      RunNext(cfg, maxSize, ops, n - 1);
      StepWithinLimitIff(cfg, RunOps(cfg, maxSize, ops[..n - 1]), ops[n - 1]);
    }
  }

  /** The byte limit is no invariant of the cache; a run keeps it throughout if and only if every
      Set of the run fits when it is called. */
  lemma ByteLimitIff<V>(cfg: Config, maxSize: int, ops: seq<Op<V>>)
    requires cfg.maxEntries >= 1 && maxSize >= 0 && forall i :: 0 <= i < |ops| ==> Sensible(ops[i])
    ensures AlwaysWithinLimit(cfg, maxSize, ops) <==> EverySetFits(cfg, maxSize, ops)
  {
    if AlwaysWithinLimit(cfg, maxSize, ops) {
      forall n | 0 <= n < |ops| ensures SetFits(RunOps(cfg, maxSize, ops[..n]), ops[n]) {
        RunNext(cfg, maxSize, ops, n);
        StepWithinLimitIff(cfg, RunOps(cfg, maxSize, ops[..n]), ops[n]);
      }
    }
    if EverySetFits(cfg, maxSize, ops) {
      forall n | 0 <= n <= |ops| ensures WithinLimit(RunOps(cfg, maxSize, ops[..n])) {
        FitsUpTo(cfg, maxSize, ops, n);
      }
    }
  }

  /** Updating a present key never evicts, so it can leave the cache over its byte limit. */
  lemma UpdateCanExceedLimit()
    ensures exists ops: seq<Op<int>> ::
              var c := RunOps(Config(0, 2, LRU), 10, ops); Sized(c.entries) && Sum(c.entries) > c.maxSize
  {
    var cfg := Config(0, 2, LRU);
    var ops: seq<Op<int>> := [Set("a", 0, 1, 0), Set("a", 0, 11, 0)];
    assert ops[..1] == [Set("a", 0, 1, 0)] && ops[..1][..0] == [];
    var c1 := RunOps(cfg, 10, ops[..1]);
    assert RunOps(cfg, 10, ops[..1][..0]) == New(10);
    assert c1 == Apply(cfg, New(10), Set("a", 0, 1, 0));
    assert c1.entries == [Entry("a", 0, 1, 0, 0)];
    assert RunOps(cfg, 10, ops) == Apply(cfg, c1, Set("a", 0, 11, 0));
    assert RunOps(cfg, 10, ops).entries == [Entry("a", 0, 11, 0, 0)];
  }

  // ---------------------------------------------------------------- conservation

  /** New-key insertions minus the ways an entry can leave, other than by eviction. */
  function NetInserted<V>(cfg: Config, c: Cache<V>, op: Op<V>): int
    requires cfg.maxEntries >= 1
  {
    match op
    case Set(key, _, _, _) => if Has(c.entries, key) then 0 else 1
    case Get(key, now, _) =>
      var i := Position(c.entries, key);
      if i < |c.entries| && IsExpired(cfg, c.entries[i], now) then -1 else 0
    case Delete(key) => if Has(c.entries, key) then -1 else 0
    case Cleanup(now) => 0 - ExpiredCount(cfg, c.entries, now)
    case Clear => 0 - |c.entries|
    case ReduceSize(_) => 0
  }

  function ExpiredCount<V>(cfg: Config, s: seq<Entry<V>>, now: Time): nat {
    if s == [] then 0 else ExpiredCount(cfg, s[..|s| - 1], now) + (if IsExpired(cfg, s[|s| - 1], now) then 1 else 0)
  }

  function Ledger<V>(cfg: Config, maxSize: int, ops: seq<Op<V>>): int
    requires cfg.maxEntries >= 1
  {
    if ops == [] then
      0
    else
      Ledger(cfg, maxSize, ops[..|ops| - 1])
      + NetInserted(cfg, RunOps(cfg, maxSize, ops[..|ops| - 1]), ops[|ops| - 1])
  }

  lemma {:induction false} CleanupCounts<V>(cfg: Config, s: seq<Entry<V>>, now: Time)
    ensures |Unexpired(cfg, s, now)| + ExpiredCount(cfg, s, now) == |s|
  {
    if s != [] {
      CleanupCounts(cfg, s[..|s| - 1], now);
    }
  }

  lemma StepBalances<V>(cfg: Config, c: Cache<V>, op: Op<V>)
    requires cfg.maxEntries >= 1
    ensures var c' := Apply(cfg, c, op);
            |c'.entries| + c'.evictions == |c.entries| + c.evictions + NetInserted(cfg, c, op)
  {
    if op.Cleanup? {
      CleanupCounts(cfg, c.entries, op.now);
    }
  }

  /** No entry is lost or counted twice: insertions of new keys equal the entries present plus
      evictions, deletions, expiries and cleared entries. */
  lemma {:induction false} EntriesConserved<V>(cfg: Config, maxSize: int, ops: seq<Op<V>>)
    requires cfg.maxEntries >= 1
    ensures var c := RunOps(cfg, maxSize, ops); Ledger(cfg, maxSize, ops) == |c.entries| + c.evictions
  {
    if ops != [] {
      EntriesConserved(cfg, maxSize, ops[..|ops| - 1]);
      StepBalances(cfg, RunOps(cfg, maxSize, ops[..|ops| - 1]), ops[|ops| - 1]);
    }
  }

  // ---------------------------------------------------------------- eviction order

  function OpTime<V>(op: Op<V>): Option<Time> {
    match op
    case Get(_, _, later) => Some(later)
    case Set(_, _, _, now) => Some(now)
    case _ => None
  }

  /** Entries are in order of use (LRU, latest first) or of age (FIFO, oldest first), none in the
      future of `clock`. */
  predicate InOrder<V>(policy: Policy, s: seq<Entry<V>>, clock: Time) {
    if policy.LRU? then
      && (forall i :: 0 <= i < |s| ==> s[i].accessedAt <= clock)
      && (forall i, j :: 0 <= i < j < |s| ==> s[i].accessedAt >= s[j].accessedAt)
    else
      && (forall i :: 0 <= i < |s| ==> s[i].createdAt <= clock)
      && (forall i, j :: 0 <= i < j < |s| ==> s[i].createdAt <= s[j].createdAt)
  }

  lemma RemoveAtKeepsOrder<V>(policy: Policy, s: seq<Entry<V>>, i: nat, clock: Time)
    requires InOrder(policy, s, clock) && i < |s|
    ensures InOrder(policy, RemoveAt(s, i), clock)
  {
    var r := RemoveAt(s, i);
    assert forall j :: 0 <= j < i ==> r[j] == s[j];
    assert forall j :: i <= j < |r| ==> r[j] == s[j + 1];
  }

  lemma AddKeepsOrder<V>(policy: Policy, s: seq<Entry<V>>, e: Entry<V>, clock: Time, clock': Time)
    requires InOrder(policy, s, clock) && clock <= clock'
    requires if policy.LRU? then e.accessedAt == clock' else e.createdAt == clock'
    ensures InOrder(policy, if policy.LRU? then [e] + s else s + [e], clock')
  {
  }

  lemma SetKeepsOrder<V>(cfg: Config, c: Cache<V>, key: string, value: V, size: int, clock: Time, now: Time)
    requires cfg.maxEntries >= 1 && InOrder(cfg.policy, c.entries, clock) && clock <= now
    ensures InOrder(cfg.policy, DoSet(cfg, c, key, value, size, now).entries, now)
  {
    var i := Position(c.entries, key);
    if i < |c.entries| {
      if cfg.policy.LRU? {
        RemoveAtKeepsOrder(cfg.policy, c.entries, i, clock);
        AddKeepsOrder(cfg.policy, RemoveAt(c.entries, i), c.entries[i].(value := value, size := size, accessedAt := now), clock, now);
      }
    } else {
      var kept := Kept(cfg.policy, c.entries, KeepCount(cfg, c.entries, size, c.maxSize));
      KeptKeepsOrder(cfg.policy, c.entries, |kept|, clock);
      AddKeepsOrder(cfg.policy, kept, Entry(key, value, size, now, now), clock, now);
    }
  }

  lemma GetKeepsOrder<V>(cfg: Config, c: Cache<V>, key: string, now: Time, later: Time, clock: Time)
    requires InOrder(cfg.policy, c.entries, clock) && clock <= later
    ensures InOrder(cfg.policy, DoGet(cfg, c, key, now, later).0.entries, later)
  {
    var i := Position(c.entries, key);
    if i < |c.entries| {
      RemoveAtKeepsOrder(cfg.policy, c.entries, i, clock);
      if cfg.policy.LRU? {
        AddKeepsOrder(cfg.policy, RemoveAt(c.entries, i), c.entries[i].(accessedAt := later), clock, later);
      }
    }
  }

  lemma CleanupKeepsOrder<V>(cfg: Config, s: seq<Entry<V>>, now: Time, clock: Time)
    requires InOrder(cfg.policy, s, clock)
    ensures InOrder(cfg.policy, Unexpired(cfg, s, now), clock)
  {
    var at := UnexpiredInOrder(cfg, s, now);
  }

  lemma LaterKeepsOrder<V>(policy: Policy, s: seq<Entry<V>>, clock: Time, clock': Time)
    requires InOrder(policy, s, clock) && clock <= clock'
    ensures InOrder(policy, s, clock')
  {
  }

  lemma KeptKeepsOrder<V>(policy: Policy, s: seq<Entry<V>>, k: nat, clock: Time)
    requires InOrder(policy, s, clock) && k <= |s|
    ensures InOrder(policy, Kept(policy, s, k), clock)
  {
  }

  lemma ApplyKeepsOrder<V>(cfg: Config, c: Cache<V>, op: Op<V>, clock: Time, clock': Time)
    requires cfg.maxEntries >= 1 && InOrder(cfg.policy, c.entries, clock) && clock <= clock'
    requires OpTime(op).Some? ==> OpTime(op).value == clock'
    ensures InOrder(cfg.policy, Apply(cfg, c, op).entries, clock')
  {
    match op
    case Get(key, now, later) => GetKeepsOrder(cfg, c, key, now, later, clock);
    case Set(key, value, size, now) => SetKeepsOrder(cfg, c, key, value, size, clock, now);
    case Delete(key) =>
      LaterKeepsOrder(cfg.policy, c.entries, clock, clock');
      if Has(c.entries, key) {
        RemoveAtKeepsOrder(cfg.policy, c.entries, Position(c.entries, key), clock');
      }
    case Cleanup(now) =>
      LaterKeepsOrder(cfg.policy, c.entries, clock, clock');
      CleanupKeepsOrder(cfg, c.entries, now, clock');
    case ReduceSize(percent) =>
      LaterKeepsOrder(cfg.policy, c.entries, clock, clock');
      KeptKeepsOrder(cfg.policy, c.entries, |DoReduce(cfg, c, percent).entries|, clock');
    case Clear =>
  }

  /** The clock never runs backwards from one operation to the next. */
  predicate Monotone<V>(ops: seq<Op<V>>) {
    forall i, j :: 0 <= i < j < |ops| && OpTime(ops[i]).Some? && OpTime(ops[j]).Some? ==>
      OpTime(ops[i]).value <= OpTime(ops[j]).value
  }

  function LastTime<V>(ops: seq<Op<V>>): Time {
    if ops == [] then 0
    else if OpTime(ops[|ops| - 1]).Some? then OpTime(ops[|ops| - 1]).value
    else LastTime(ops[..|ops| - 1])
  }

  lemma {:induction false} LastTimeIsAnOp<V>(ops: seq<Op<V>>)
    ensures LastTime(ops) == 0 || exists i :: 0 <= i < |ops| && OpTime(ops[i]) == Some(LastTime(ops))
  {
    if ops != [] && OpTime(ops[|ops| - 1]).None? {
      LastTimeIsAnOp(ops[..|ops| - 1]);
    }
  }

  /** Under a monotone clock the list order is the order of use or of age, so the end that eviction
      takes from holds a least recently used, or an oldest, entry. */
  lemma {:induction false} ListIsInOrder<V>(cfg: Config, maxSize: int, ops: seq<Op<V>>)
    requires cfg.maxEntries >= 1 && Monotone(ops)
    ensures InOrder(cfg.policy, RunOps(cfg, maxSize, ops).entries, LastTime(ops))
  {
    if ops != [] {
      var init := ops[..|ops| - 1];
      assert Monotone(init) by {
        assert forall i :: 0 <= i < |init| ==> init[i] == ops[i];
      }
      ListIsInOrder(cfg, maxSize, init);
      LastTimeIsAnOp(init);
      ApplyKeepsOrder(cfg, RunOps(cfg, maxSize, init), ops[|ops| - 1], LastTime(init), LastTime(ops));
    }
  }

  lemma KeptAreNewer<V>(policy: Policy, s: seq<Entry<V>>, k: nat, clock: Time, kept: Entry<V>, evicted: Entry<V>)
    requires InOrder(policy, s, clock) && k <= |s|
    requires kept in Kept(policy, s, k) && evicted in s && evicted !in Kept(policy, s, k)
    ensures NoNewer(policy, evicted, kept)
  {
    var left := Kept(policy, s, k);
    var i :| 0 <= i < k && left[i] == kept;
    var j :| 0 <= j < |s| && s[j] == evicted;
    if policy.LRU? {
      assert forall l :: 0 <= l < k ==> s[l] == left[l];
    } else {
      assert forall l :: |s| - k <= l < |s| ==> s[l] == left[l - (|s| - k)];
    }
  }

  lemma AbsentKey<V>(s: seq<Entry<V>>, key: string, e: Entry<V>)
    requires !Has(s, key) && e in s
    ensures e.key != key
  {
  }

  /** Used no later (LRU), or created no later (FIFO). */
  predicate NoNewer<V>(policy: Policy, a: Entry<V>, b: Entry<V>) {
    if policy.LRU? then a.accessedAt <= b.accessedAt else a.createdAt <= b.createdAt
  }

  /** Every entry an insertion evicts is at most as recently used (LRU), or at least as old (FIFO),
      as every entry it keeps. */
  lemma {:induction false} InsertionEvictsLeastRecent<V>(cfg: Config, maxSize: int, ops: seq<Op<V>>,
      key: string, value: V, size: int, now: Time)
    requires cfg.maxEntries >= 1 && Monotone(ops)
    ensures var c := RunOps(cfg, maxSize, ops);
            var c' := DoSet(cfg, c, key, value, size, now);
            !Has(c.entries, key) ==>
              forall kept, evicted ::
                kept in c.entries && kept in c'.entries && evicted in c.entries && evicted !in c'.entries ==>
                  NoNewer(cfg.policy, evicted, kept)
  {
    var c := RunOps(cfg, maxSize, ops);
    var c' := DoSet(cfg, c, key, value, size, now);
    ListIsInOrder(cfg, maxSize, ops);
    if !Has(c.entries, key) {
      forall kept, evicted |
        kept in c.entries && kept in c'.entries && evicted in c.entries && evicted !in c'.entries
        ensures NoNewer(cfg.policy, evicted, kept)
      {
        AbsentKey(c.entries, key, kept);
        KeptAreNewer(cfg.policy, c.entries, KeepCount(cfg, c.entries, size, c.maxSize), LastTime(ops), kept, evicted);
      }
    }
  }
}
