/** The bounded cache as a sequence of entries: for LRU the most recently used entry comes first,
    for FIFO the oldest. */
module CacheModel {
  import opened Types

  datatype Policy = LRU | FIFO

  datatype Entry<V> = Entry(key: string, value: V, size: int, createdAt: Time, accessedAt: Time)

  datatype Config = Config(maxAge: int, maxEntries: int, policy: Policy)

  datatype Cache<V> = Cache(entries: seq<Entry<V>>, maxSize: int, hits: nat, misses: nat, evictions: nat)

  datatype Op<V> =
    | Get(key: string, now: Time, later: Time)
    | Set(key: string, value: V, size: int, now: Time)
    | Delete(key: string)
    | Cleanup(now: Time)
    | ReduceSize(percent: int)
    | Clear

  // ---------------------------------------------------------------- entries

  predicate Distinct<V>(s: seq<Entry<V>>) {
    forall i, j :: 0 <= i < j < |s| ==> s[i].key != s[j].key
  }

  /** The place of a key, or the length if it is absent. */
  function Position<V>(s: seq<Entry<V>>, key: string): (i: nat)
    ensures i <= |s| && (i < |s| ==> s[i].key == key)
    ensures forall j :: 0 <= j < i ==> s[j].key != key
  {
    if s == [] || s[0].key == key then 0 else 1 + Position(s[1..], key)
  }

  predicate Has<V>(s: seq<Entry<V>>, key: string) {
    Position(s, key) < |s|
  }

  function RemoveAt<T>(s: seq<T>, i: nat): seq<T>
    requires i < |s|
  {
    s[..i] + s[i + 1..]
  }

  function Sum<V>(s: seq<Entry<V>>): int {
    if s == [] then 0 else s[0].size + Sum(s[1..])
  }

  predicate Sized<V>(s: seq<Entry<V>>) {
    forall i :: 0 <= i < |s| ==> s[i].size >= 0
  }

  lemma {:induction false} SumConcat<V>(s: seq<Entry<V>>, t: seq<Entry<V>>)
    ensures Sum(s + t) == Sum(s) + Sum(t)
  {
    if s == [] {
      assert s + t == t;
    } else {
      SumConcat(s[1..], t);
      assert (s + t)[1..] == s[1..] + t;
    }
  }

  lemma {:induction false} SumRemoveAt<V>(s: seq<Entry<V>>, i: nat)
    requires i < |s|
    ensures Sum(RemoveAt(s, i)) == Sum(s) - s[i].size
  {
    if i == 0 {
      assert RemoveAt(s, 0) == s[1..];
    } else {
      SumRemoveAt(s[1..], i - 1);
      assert RemoveAt(s, i)[1..] == RemoveAt(s[1..], i - 1);
    }
  }

  lemma {:induction false} SumNonnegative<V>(s: seq<Entry<V>>)
    requires Sized(s)
    ensures Sum(s) >= 0
  {
    if s != [] {
      SumNonnegative(s[1..]);
    }
  }

  predicate IsExpired<V>(cfg: Config, e: Entry<V>, now: Time) {
    now - e.createdAt > cfg.maxAge
  }

  // ---------------------------------------------------------------- eviction

  /** The k entries eviction would leave: LRU takes from the back, FIFO from the front. */
  function Kept<V>(policy: Policy, s: seq<Entry<V>>, k: nat): seq<Entry<V>>
    requires k <= |s|
  {
    if policy.LRU? then s[..k] else s[|s| - k..]
  }

  /** How many of the k entries at the kept end stay once the byte limit is met. */
  function SizeFit<V>(policy: Policy, s: seq<Entry<V>>, newSize: int, maxSize: int, k: nat): (r: nat)
    requires k <= |s|
    ensures r <= k
  {
    if k == 0 || Sum(Kept(policy, s, k)) + newSize <= maxSize then k else SizeFit(policy, s, newSize, maxSize, k - 1)
  }

  function KeepCount<V>(cfg: Config, s: seq<Entry<V>>, newSize: int, maxSize: int): (r: nat)
    requires cfg.maxEntries >= 1
    ensures r <= |s| && r < cfg.maxEntries
  {
    var k := SizeFit(cfg.policy, s, newSize, maxSize, |s|);
    if k >= cfg.maxEntries then cfg.maxEntries - 1 else k
  }

  // ---------------------------------------------------------------- operations

  function DoGet<V>(cfg: Config, c: Cache<V>, key: string, now: Time, later: Time): (Cache<V>, Option<V>) {
    var i := Position(c.entries, key);
    if i == |c.entries| then
      (c.(misses := c.misses + 1), None)
    else if IsExpired(cfg, c.entries[i], now) then
      (c.(entries := RemoveAt(c.entries, i), misses := c.misses + 1), None)
    else
      (c.(entries := if cfg.policy.LRU? then [c.entries[i].(accessedAt := later)] + RemoveAt(c.entries, i) else c.entries,
          hits := c.hits + 1),
       Some(c.entries[i].value))
  }

  function DoSet<V>(cfg: Config, c: Cache<V>, key: string, value: V, size: int, now: Time): Cache<V>
    requires cfg.maxEntries >= 1
  {
    var i := Position(c.entries, key);
    if i < |c.entries| then
      var e := c.entries[i].(value := value, size := size, accessedAt := now);
      c.(entries := if cfg.policy.LRU? then [e] + RemoveAt(c.entries, i) else c.entries[i := e])
    else
      var k := KeepCount(cfg, c.entries, size, c.maxSize);
      var kept := Kept(cfg.policy, c.entries, k);
      var e := Entry(key, value, size, now, now);
      c.(entries := if cfg.policy.LRU? then [e] + kept else kept + [e],
         evictions := c.evictions + (|c.entries| - k))
  }

  function DoDelete<V>(c: Cache<V>, key: string): Cache<V> {
    var i := Position(c.entries, key);
    if i < |c.entries| then c.(entries := RemoveAt(c.entries, i)) else c
  }

  function Unexpired<V>(cfg: Config, s: seq<Entry<V>>, now: Time): seq<Entry<V>> {
    if s == [] then
      []
    else
      Unexpired(cfg, s[..|s| - 1], now) + (if IsExpired(cfg, s[|s| - 1], now) then [] else [s[|s| - 1]])
  }

  /** Go's integer division truncates toward zero. */
  function TruncatedQuotient(a: int, b: int): int
    requires b > 0
  {
    if a >= 0 then a / b else -((-a) / b)
  }

  function Reduced(maxSize: int, percent: int): int {
    maxSize - TruncatedQuotient(maxSize * percent, 100)
  }

  function DoReduce<V>(cfg: Config, c: Cache<V>, percent: int): Cache<V> {
    var maxSize := Reduced(c.maxSize, percent);
    var k := SizeFit(cfg.policy, c.entries, 0, maxSize, |c.entries|);
    c.(entries := Kept(cfg.policy, c.entries, k), maxSize := maxSize, evictions := c.evictions + (|c.entries| - k))
  }

  function Apply<V>(cfg: Config, c: Cache<V>, op: Op<V>): Cache<V>
    requires cfg.maxEntries >= 1
  {
    match op
    case Get(key, now, later) => DoGet(cfg, c, key, now, later).0
    case Set(key, value, size, now) => DoSet(cfg, c, key, value, size, now)
    case Delete(key) => DoDelete(c, key)
    case Cleanup(now) => c.(entries := Unexpired(cfg, c.entries, now))
    case ReduceSize(percent) => DoReduce(cfg, c, percent)
    case Clear => c.(entries := [])
  }

  function New<V>(maxSize: int): Cache<V> {
    Cache([], maxSize, 0, 0, 0)
  }

  function RunOps<V>(cfg: Config, maxSize: int, ops: seq<Op<V>>): Cache<V>
    requires cfg.maxEntries >= 1
  {
    if ops == [] then New(maxSize) else Apply(cfg, RunOps(cfg, maxSize, ops[..|ops| - 1]), ops[|ops| - 1])
  }
}
