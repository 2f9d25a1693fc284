/** Two LRU caches fed the same operations: the smaller never holds a key the larger does not. */
module CacheInclusion {
  import opened Types
  import opened CacheModel
  import opened CacheProperties

  predicate SameItem<V(==)>(a: Entry<V>, b: Entry<V>) {
    a.key == b.key && a.value == b.value
  }

  /** The items of a occur among those of b, in the same relative order. */
  predicate Within<V(==)>(a: seq<Entry<V>>, b: seq<Entry<V>>) {
    a == [] || (b != [] && ((SameItem(a[0], b[0]) && Within(a[1..], b[1..])) || Within(a, b[1..])))
  }

  lemma WithinFront<V>(a: seq<Entry<V>>, b: seq<Entry<V>>, x: Entry<V>, y: Entry<V>)
    requires Within(a, b) && SameItem(x, y)
    ensures Within([x] + a, [y] + b)
  {
    assert ([x] + a)[1..] == a && ([y] + b)[1..] == b;
  }

  lemma WithinMoreBehind<V>(a: seq<Entry<V>>, b: seq<Entry<V>>, y: Entry<V>)
    requires Within(a, b)
    ensures Within(a, [y] + b)
  {
    assert ([y] + b)[1..] == b;
  }

  lemma {:induction false} WithinMembers<V>(a: seq<Entry<V>>, b: seq<Entry<V>>, key: string)
    requires Within(a, b) && Distinct(b)
    ensures |a| <= |b|
    ensures Has(a, key) ==> Has(b, key) && a[Position(a, key)].value == b[Position(b, key)].value
  {
    if a != [] {
      if SameItem(a[0], b[0]) && Within(a[1..], b[1..]) {
        WithinMembers(a[1..], b[1..], key);
      } else {
        WithinMembers(a, b[1..], key);
        if Has(a, key) {
          assert b[1..][Position(b[1..], key)].key == key;
          assert b[Position(b[1..], key) + 1].key == key;
        }
      }
    }
  }

  function Without<V>(s: seq<Entry<V>>, key: string): seq<Entry<V>> {
    var i := Position(s, key);
    if i < |s| then RemoveAt(s, i) else s
  }

  lemma WithoutCons<V>(s: seq<Entry<V>>, key: string)
    requires s != []
    ensures Without(s, key) == if s[0].key == key then s[1..] else [s[0]] + Without(s[1..], key)
  {
    if s[0].key != key && Has(s[1..], key) {
      var i := Position(s[1..], key);
      assert RemoveAt(s, i + 1) == [s[0]] + RemoveAt(s[1..], i);
    }
  }

  lemma AbsentBehind<V>(b: seq<Entry<V>>, key: string)
    requires Distinct(b) && b != [] && b[0].key == key
    ensures Without(b[1..], key) == b[1..]
  {
    var rest := b[1..];
    assert forall i :: 0 <= i < |rest| ==> rest[i] == b[i + 1] && rest[i].key != key;
  }

  lemma WithoutHeads<V>(a: seq<Entry<V>>, b: seq<Entry<V>>, key: string)
    requires a != [] && b != [] && SameItem(a[0], b[0]) && Within(a[1..], b[1..])
    requires Within(Without(a[1..], key), Without(b[1..], key))
    ensures Within(Without(a, key), Without(b, key))
  {
    WithoutCons(a, key);
    WithoutCons(b, key);
    if a[0].key != key {
      WithinFront(Without(a[1..], key), Without(b[1..], key), a[0], b[0]);
    }
  }

  lemma WithoutBehind<V>(a: seq<Entry<V>>, b: seq<Entry<V>>, key: string)
    requires b != [] && Distinct(b) && Within(a, Without(b[1..], key))
    ensures Within(a, Without(b, key))
  {
    WithoutCons(b, key);
    if b[0].key != key {
      WithinMoreBehind(a, Without(b[1..], key), b[0]);
    } else {
      AbsentBehind(b, key);
    }
  }

  /** Removing one key from both keeps the relation. */
  lemma {:induction false} WithinWithout<V>(a: seq<Entry<V>>, b: seq<Entry<V>>, key: string)
    requires Within(a, b) && Distinct(a) && Distinct(b)
    ensures Within(Without(a, key), Without(b, key))
  {
    if a != [] {
      if SameItem(a[0], b[0]) && Within(a[1..], b[1..]) {
        WithinWithout(a[1..], b[1..], key);
        WithoutHeads(a, b, key);
      } else {
        WithinWithout(a, b[1..], key);
        WithoutBehind(Without(a, key), b, key);
      }
    }
  }

  lemma {:induction false} WithinDropSmall<V>(a: seq<Entry<V>>, b: seq<Entry<V>>)
    requires Within(a, b) && a != []
    ensures Within(a[..|a| - 1], b)
  {
    if |a| > 1 {
      if SameItem(a[0], b[0]) && Within(a[1..], b[1..]) {
        WithinDropSmall(a[1..], b[1..]);
        assert a[..|a| - 1][1..] == a[1..][..|a| - 2];
      } else {
        WithinDropSmall(a, b[1..]);
      }
    }
  }

  /** Dropping the last of both keeps the relation: if the last of b is in a, it is the last of a. */
  lemma {:induction false} WithinDropBoth<V>(a: seq<Entry<V>>, b: seq<Entry<V>>)
    requires Within(a, b) && a != []
    ensures b != [] && Within(a[..|a| - 1], b[..|b| - 1])
  {
    if |a| > 1 {
      if SameItem(a[0], b[0]) && Within(a[1..], b[1..]) {
        WithinDropBoth(a[1..], b[1..]);
        WithinFront(a[1..][..|a| - 2], b[1..][..|b| - 2], a[0], b[0]);
        assert a[..|a| - 1] == [a[0]] + a[1..][..|a| - 2] && b[..|b| - 1] == [b[0]] + b[1..][..|b| - 2];
      } else {
        WithinDropBoth(a, b[1..]);
        WithinMoreBehind(a[..|a| - 1], b[1..][..|b| - 2], b[0]);
        assert b[..|b| - 1] == [b[0]] + b[1..][..|b| - 2];
      }
    }
  }

  // ---------------------------------------------------------------- two runs

  /** Sets, gets, deletes and clears that never meet an expired entry or the byte limit. */
  predicate Quiet<V>(cfg: Config, c: Cache<V>, op: Op<V>) {
    match op
    case Get(key, now, _) => Has(c.entries, key) ==> !IsExpired(cfg, c.entries[Position(c.entries, key)], now)
    case Set(key, _, size, _) => Has(c.entries, key) || Sum(c.entries) + size <= c.maxSize
    case Delete(_) => true
    case Clear => true
    case _ => false
  }

  predicate QuietRun<V>(cfg: Config, maxSize: int, ops: seq<Op<V>>)
    requires cfg.maxEntries >= 1
  {
    forall i :: 0 <= i < |ops| ==> Quiet(cfg, RunOps(cfg, maxSize, ops[..i]), ops[i])
  }

  /** The small cache c against the large cache d. */
  ghost predicate Included<V>(m: int, n: int, c: Cache<V>, d: Cache<V>) {
    && Distinct(c.entries) && Distinct(d.entries)
    && |c.entries| <= m && |d.entries| <= n
    && Within(c.entries, d.entries)
    && |d.entries| - |c.entries| <= n - m
    && c.hits <= d.hits && c.hits + c.misses == d.hits + d.misses
  }

  lemma QuietInsert<V>(cfg: Config, c: Cache<V>, key: string, value: V, size: int, now: Time)
    requires cfg.policy.LRU? && cfg.maxEntries >= 1 && |c.entries| <= cfg.maxEntries
    requires !Has(c.entries, key) && Sum(c.entries) + size <= c.maxSize
    ensures var rest := if |c.entries| == cfg.maxEntries then c.entries[..|c.entries| - 1] else c.entries;
            DoSet(cfg, c, key, value, size, now).entries == [Entry(key, value, size, now, now)] + rest
  {
    assert Kept(cfg.policy, c.entries, |c.entries|) == c.entries;
    assert c.entries[..|c.entries|] == c.entries;
  }

  lemma SetKeepsIncluded<V>(cfg: Config, cfg': Config, c: Cache<V>, d: Cache<V>, key: string, value: V, size: int, now: Time)
    requires cfg.policy.LRU? && cfg'.policy.LRU? && 1 <= cfg.maxEntries <= cfg'.maxEntries
    requires Included(cfg.maxEntries, cfg'.maxEntries, c, d)
    requires Quiet(cfg, c, Set(key, value, size, now)) && Quiet(cfg', d, Set(key, value, size, now))
    ensures Within(DoSet(cfg, c, key, value, size, now).entries, DoSet(cfg', d, key, value, size, now).entries)
    ensures |DoSet(cfg', d, key, value, size, now).entries| - |DoSet(cfg, c, key, value, size, now).entries|
         <= cfg'.maxEntries - cfg.maxEntries
  {
    var a, b := c.entries, d.entries;
    var a', b' := DoSet(cfg, c, key, value, size, now).entries, DoSet(cfg', d, key, value, size, now).entries;
    WithinMembers(a, b, key);
    if Has(a, key) {
      WithinWithout(a, b, key);
      WithinFront(Without(a, key), Without(b, key), a'[0], b'[0]);
      assert a' == [a'[0]] + Without(a, key) && b' == [b'[0]] + Without(b, key);
    } else {
      QuietInsert(cfg, c, key, value, size, now);
      if |a| == cfg.maxEntries {
        WithinDropSmall(a, b);
      }
      if Has(b, key) {
        var rest := if |a| == cfg.maxEntries then a[..|a| - 1] else a;
        WithinWithout(a, b, key);
        assert Without(a, key) == a;
        if |a| == cfg.maxEntries {
          WithinDropSmall(a, Without(b, key));
        }
        WithinFront(rest, Without(b, key), a'[0], b'[0]);
        assert b' == [b'[0]] + Without(b, key);
      } else {
        QuietInsert(cfg', d, key, value, size, now);
        if |b| == cfg'.maxEntries {
          WithinDropBoth(a, b);
          WithinFront(a[..|a| - 1], b[..|b| - 1], a'[0], b'[0]);
        } else if |a| == cfg.maxEntries {
          WithinFront(a[..|a| - 1], b, a'[0], b'[0]);
        } else {
          WithinFront(a, b, a'[0], b'[0]);
        }
      }
    }
  }

  lemma GetKeepsIncluded<V>(cfg: Config, cfg': Config, c: Cache<V>, d: Cache<V>, key: string, now: Time, later: Time)
    requires cfg.policy.LRU? && cfg'.policy.LRU?
    requires Included(cfg.maxEntries, cfg'.maxEntries, c, d)
    requires Quiet(cfg, c, Get(key, now, later)) && Quiet(cfg', d, Get(key, now, later))
    ensures var (c', v), (d', v') := DoGet(cfg, c, key, now, later), DoGet(cfg', d, key, now, later);
            && Within(c'.entries, d'.entries) && |c'.entries| == |c.entries| && |d'.entries| == |d.entries|
            && (v.Some? ==> v' == v)
  {
    var a, b := c.entries, d.entries;
    WithinMembers(a, b, key);
    if Has(b, key) {
      WithinWithout(a, b, key);
      var b' := DoGet(cfg', d, key, now, later).0.entries;
      assert b' == [b'[0]] + Without(b, key);
      if Has(a, key) {
        var a' := DoGet(cfg, c, key, now, later).0.entries;
        assert a' == [a'[0]] + Without(a, key);
        WithinFront(Without(a, key), Without(b, key), a'[0], b'[0]);
      } else {
        assert Without(a, key) == a;
        WithinMoreBehind(a, Without(b, key), b'[0]);
      }
    }
  }

  lemma DeleteKeepsIncluded<V>(m: int, n: int, c: Cache<V>, d: Cache<V>, key: string)
    requires Included(m, n, c, d) && m <= n
    ensures Within(DoDelete(c, key).entries, DoDelete(d, key).entries)
    ensures |DoDelete(d, key).entries| - |DoDelete(c, key).entries| <= n - m
  {
    WithinMembers(c.entries, d.entries, key);
    WithinWithout(c.entries, d.entries, key);
  }

  lemma ApplyKeepsIncluded<V>(cfg: Config, cfg': Config, c: Cache<V>, d: Cache<V>, op: Op<V>)
    requires cfg.policy.LRU? && cfg'.policy.LRU? && 1 <= cfg.maxEntries <= cfg'.maxEntries
    requires Included(cfg.maxEntries, cfg'.maxEntries, c, d)
    requires Quiet(cfg, c, op) && Quiet(cfg', d, op)
    ensures Included(cfg.maxEntries, cfg'.maxEntries, Apply(cfg, c, op), Apply(cfg', d, op))
  {
    ApplyKeepsInv(cfg, c, op);
    ApplyKeepsInv(cfg', d, op);
    match op
    case Get(key, now, later) =>
      GetKeepsIncluded(cfg, cfg', c, d, key, now, later);
      WithinMembers(c.entries, d.entries, key);
    case Set(key, value, size, now) => SetKeepsIncluded(cfg, cfg', c, d, key, value, size, now);
    case Delete(key) => DeleteKeepsIncluded(cfg.maxEntries, cfg'.maxEntries, c, d, key);
    case Clear =>
  }

  lemma {:induction false} RunsIncluded<V>(cfg: Config, cfg': Config, maxSize: int, maxSize': int, ops: seq<Op<V>>)
    requires cfg.policy.LRU? && cfg'.policy.LRU? && 1 <= cfg.maxEntries <= cfg'.maxEntries
    requires QuietRun(cfg, maxSize, ops) && QuietRun(cfg', maxSize', ops)
    ensures Included(cfg.maxEntries, cfg'.maxEntries, RunOps(cfg, maxSize, ops), RunOps(cfg', maxSize', ops))
  {
    if ops != [] {
      var init := ops[..|ops| - 1];
      forall i | 0 <= i < |init| ensures Quiet(cfg, RunOps(cfg, maxSize, init[..i]), init[i]) && Quiet(cfg', RunOps(cfg', maxSize', init[..i]), init[i]) {
        assert init[..i] == ops[..i] && init[i] == ops[i];
      }
      RunsIncluded(cfg, cfg', maxSize, maxSize', init);
      ApplyKeepsIncluded(cfg, cfg', RunOps(cfg, maxSize, init), RunOps(cfg', maxSize', init), ops[|ops| - 1]);
    }
  }

  /** The same trace on two LRU caches of at most m <= n entries, where nothing expires and the byte
      limit never binds: what the small cache holds, the large one holds with the same value; it
      holds at most n - m entries more; and it never has fewer hits. */
  lemma {:induction false} LruInclusion<V>(cfg: Config, cfg': Config, maxSize: int, maxSize': int, ops: seq<Op<V>>, key: string)
    requires cfg.policy.LRU? && cfg'.policy.LRU? && 1 <= cfg.maxEntries <= cfg'.maxEntries
    requires QuietRun(cfg, maxSize, ops) && QuietRun(cfg', maxSize', ops)
    ensures var c, d := RunOps(cfg, maxSize, ops), RunOps(cfg', maxSize', ops);
            && Within(c.entries, d.entries)
            && (Has(c.entries, key) ==>
                  Has(d.entries, key) && c.entries[Position(c.entries, key)].value == d.entries[Position(d.entries, key)].value)
            && 0 <= |d.entries| - |c.entries| <= cfg'.maxEntries - cfg.maxEntries
            && c.hits <= d.hits && c.misses >= d.misses
  {
    RunsIncluded(cfg, cfg', maxSize, maxSize', ops);
    WithinMembers(RunOps(cfg, maxSize, ops).entries, RunOps(cfg', maxSize', ops).entries, key);
  }

  // ---------------------------------------------------------------- FIFO has no such property

  function Put(key: string): Op<int> {
    Set(key, 0, 1, 0)
  }

  function Item(key: string): Entry<int> {
    Entry(key, 0, 1, 0, 0)
  }

  function Items(keys: seq<string>): (r: seq<Entry<int>>)
    ensures |r| == |keys|
  {
    seq(|keys|, i requires 0 <= i < |keys| => Item(keys[i]))
  }

  lemma {:induction false} ItemsSum(keys: seq<string>)
    ensures Sum(Items(keys)) == |keys|
  {
    if keys != [] {
      ItemsSum(keys[1..]);
      assert Items(keys)[1..] == Items(keys[1..]);
    }
  }

  /** The keys of a FIFO cache of n entries after one more put. */
  function NextKeys(n: nat, keys: seq<string>, key: string): seq<string>
    requires n >= 1
  {
    if key in keys then keys else (if |keys| == n then keys[1..] else keys) + [key]
  }

  lemma PutPresent(cfg: Config, c: Cache<int>, keys: seq<string>, key: string)
    requires cfg.policy.FIFO? && cfg.maxEntries >= 1 && c.entries == Items(keys) && key in keys
    ensures Apply(cfg, c, Put(key)) == c
  {
    var i := Position(c.entries, key);
    var j :| 0 <= j < |keys| && keys[j] == key;
    assert c.entries[j].key == key;
    assert c.entries[i] == Item(keys[i]);
  }

  lemma PutAbsent(cfg: Config, c: Cache<int>, keys: seq<string>, key: string)
    requires cfg.policy.FIFO? && cfg.maxEntries >= 1 && |keys| <= cfg.maxEntries < 10
    requires c.entries == Items(keys) && c.maxSize == 100 && key !in keys
    ensures var c' := Apply(cfg, c, Put(key));
            c'.entries == Items((if |keys| == cfg.maxEntries then keys[1..] else keys) + [key]) && c'.maxSize == 100
  {
    assert Position(c.entries, key) == |keys|;
    ItemsSum(keys);
    assert Kept(cfg.policy, c.entries, |keys|) == c.entries;
    assert KeepCount(cfg, c.entries, 1, 100) == if |keys| == cfg.maxEntries then |keys| - 1 else |keys|;
  }

  const SMALL := Config(0, 2, FIFO)
  const LARGE := Config(0, 3, FIFO)

  /** Some trace leaves these keys in the small and in the large cache. */
  ghost predicate BothHold(a: seq<string>, b: seq<string>) {
    exists ops: seq<Op<int>> ::
      var c, d := RunOps(SMALL, 100, ops), RunOps(LARGE, 100, ops);
      c.entries == Items(a) && c.maxSize == 100 && d.entries == Items(b) && d.maxSize == 100
  }

  lemma PutEither(cfg: Config, c: Cache<int>, keys: seq<string>, key: string)
    requires cfg.policy.FIFO? && cfg.maxEntries >= 1 && |keys| <= cfg.maxEntries < 10
    requires c.entries == Items(keys) && c.maxSize == 100
    ensures var c' := Apply(cfg, c, Put(key)); c'.entries == Items(NextKeys(cfg.maxEntries, keys, key)) && c'.maxSize == 100
  {
    if key in keys {
      PutPresent(cfg, c, keys, key);
    } else {
      PutAbsent(cfg, c, keys, key);
    }
  }

  lemma BothPut(a: seq<string>, b: seq<string>, key: string, a': seq<string>, b': seq<string>)
    requires |a| <= 2 && |b| <= 3 && BothHold(a, b)
    requires a' == NextKeys(2, a, key) && b' == NextKeys(3, b, key)
    ensures BothHold(a', b')
  {
    var ops: seq<Op<int>> :|
      var c, d := RunOps(SMALL, 100, ops), RunOps(LARGE, 100, ops);
      c.entries == Items(a) && c.maxSize == 100 && d.entries == Items(b) && d.maxSize == 100;
    PutEither(SMALL, RunOps(SMALL, 100, ops), a, key);
    PutEither(LARGE, RunOps(LARGE, 100, ops), b, key);
    var ops' := ops + [Put(key)];
    assert ops'[..|ops|] == ops;
    assert RunOps(SMALL, 100, ops') == Apply(SMALL, RunOps(SMALL, 100, ops), Put(key));
    assert RunOps(LARGE, 100, ops') == Apply(LARGE, RunOps(LARGE, 100, ops), Put(key));
  }

  lemma BothEmpty()
    ensures BothHold([], [])
  {
    var ops: seq<Op<int>> := [];
    assert RunOps(SMALL, 100, ops).entries == Items([]) && RunOps(LARGE, 100, ops).entries == Items([]);
  }

  lemma FifoTrace(p: string, q: string, r: string, s: string)
    requires p != q && p != r && p != s && q != r && q != s && r != s
    ensures BothHold([p, s], [q, r, s])
  {
    BothEmpty();
    BothPut([], [], p, [p], [p]);
    BothPut([p], [p], q, [p, q], [p, q]);
    BothPut([p, q], [p, q], r, [q, r], [p, q, r]);
    BothPut([q, r], [p, q, r], p, [r, p], [p, q, r]);
    BothPut([r, p], [p, q, r], s, [p, s], [q, r, s]);
  }

  /** Two against three FIFO entries, fed p, q, r, p, s: only the smaller cache ends up with p. */
  lemma FifoNotIncluded(p: string, q: string, r: string, s: string)
    requires p != q && p != r && p != s && q != r && q != s && r != s
    ensures exists ops: seq<Op<int>> ::
              Has(RunOps(SMALL, 100, ops).entries, p) && !Has(RunOps(LARGE, 100, ops).entries, p)
  {
    FifoTrace(p, q, r, s);
    var a, b := Items([p, s]), Items([q, r, s]);
    assert a[0].key == p;
    assert forall i :: 0 <= i < 3 ==> b[i].key != p;
    var ops: seq<Op<int>> :| RunOps(SMALL, 100, ops).entries == a && RunOps(LARGE, 100, ops).entries == b;
  }

  // ---------------------------------------------------------------- nor has LRU with a byte limit

  const SMALL_LRU := Config(0, 2, LRU)
  const LARGE_LRU := Config(0, 3, LRU)
  const BYTES := 10

  function Weighs(key: string, size: int): Entry<int> {
    Entry(key, 0, size, 0, 0)
  }

  predicate Absent(s: seq<Entry<int>>, key: string) {
    forall i :: 0 <= i < |s| ==> s[i].key != key
  }

  /** What the cache holds after n operations of the trace. */
  ghost predicate Holds(cfg: Config, ops: seq<Op<int>>, n: nat, s: seq<Entry<int>>)
    requires cfg.maxEntries >= 1 && n <= |ops|
  {
    RunOps(cfg, BYTES, ops[..n]).entries == s && RunOps(cfg, BYTES, ops[..n]).maxSize == BYTES
  }

  lemma AbsentPosition(s: seq<Entry<int>>, key: string)
    requires Absent(s, key)
    ensures Position(s, key) == |s|
  {
  }

  /** A new entry that leaves room for k of the old ones. */
  lemma InsertAt(cfg: Config, ops: seq<Op<int>>, n: nat, s: seq<Entry<int>>, key: string, size: int, now: Time, k: nat)
    requires cfg.policy.LRU? && cfg.maxEntries >= 1 && n < |ops| && ops[n] == Set(key, 0, size, now)
    requires Holds(cfg, ops, n, s) && Absent(s, key) && k <= |s| && KeepCount(cfg, s, size, BYTES) == k
    ensures Holds(cfg, ops, n + 1, [Entry(key, 0, size, now, now)] + s[..k])
  {
    RunNext(cfg, BYTES, ops, n);
    AbsentPosition(s, key);
  }

  lemma MissAt(cfg: Config, ops: seq<Op<int>>, n: nat, s: seq<Entry<int>>, key: string)
    requires cfg.maxEntries >= 1 && n < |ops| && ops[n] == Get(key, 0, 0)
    requires Holds(cfg, ops, n, s) && Absent(s, key)
    ensures Holds(cfg, ops, n + 1, s)
  {
    RunNext(cfg, BYTES, ops, n);
    AbsentPosition(s, key);
  }

  lemma HitLastAt(cfg: Config, ops: seq<Op<int>>, n: nat, s: seq<Entry<int>>, e: Entry<int>)
    requires cfg.policy.LRU? && cfg.maxEntries >= 1 && cfg.maxAge == 0 && e.createdAt == e.accessedAt == 0
    requires n < |ops| && ops[n] == Get(e.key, 0, 0) && Holds(cfg, ops, n, s + [e]) && Absent(s, e.key)
    ensures Holds(cfg, ops, n + 1, [e] + s)
  {
    RunNext(cfg, BYTES, ops, n);
    LastPosition(s, e);
    assert RemoveAt(s + [e], |s|) == s;
  }

  lemma LastPosition(s: seq<Entry<int>>, e: Entry<int>)
    requires Absent(s, e.key)
    ensures Position(s + [e], e.key) == |s|
  {
    var i, t := Position(s + [e], e.key), s + [e];
    assert t[|s|] == e;
    assert forall j :: 0 <= j < |s| ==> t[j] == s[j];
  }

  lemma Sums(x: Entry<int>, y: Entry<int>, z: Entry<int>)
    ensures Sum([x]) == x.size && Sum([x, y]) == x.size + y.size && Sum([x, y, z]) == x.size + y.size + z.size
  {
    assert [x, y][1..] == [y] && [y, z][1..] == [z] && [x, y, z][1..] == [y, z];
    assert Sum([y, z]) == y.size + Sum([z]) && Sum([x, y, z]) == x.size + Sum([y, z]);
  }

  /** Nothing need go for the bytes. */
  lemma BytesFit(cfg: Config, s: seq<Entry<int>>, size: int)
    requires cfg.policy.LRU? && cfg.maxEntries >= 1 && Sum(s) + size <= BYTES
    ensures KeepCount(cfg, s, size, BYTES) == if |s| >= cfg.maxEntries then cfg.maxEntries - 1 else |s|
  {
    assert s[..|s|] == s;
  }

  /** Two against three entries, ten bytes: b (5 bytes), a, c (1 byte each), then b is read and d
      (5 bytes) comes. */
  function BytesTrace(a: string, b: string, c: string, d: string): seq<Op<int>> {
    [Set(b, 0, 5, 0), Set(a, 0, 1, 0), Set(c, 0, 1, 0), Get(b, 0, 0), Set(d, 0, 5, 0)]
  }

  predicate AllDifferent(a: string, b: string, c: string, d: string) {
    a != b && a != c && a != d && b != c && b != d && c != d
  }

  /** Both caches are alike until the third put. */
  lemma FirstTwo(cfg: Config, a: string, b: string, c: string, d: string)
    requires AllDifferent(a, b, c, d) && cfg.policy.LRU? && cfg.maxEntries >= 2
    ensures Holds(cfg, BytesTrace(a, b, c, d), 2, [Weighs(a, 1), Weighs(b, 5)])
  {
    var ops := BytesTrace(a, b, c, d);
    var wa, wb := Weighs(a, 1), Weighs(b, 5);
    Sums(wb, wa, wa);
    assert ops[..0] == [];
    BytesFit(cfg, [], 5);
    InsertAt(cfg, ops, 0, [], b, 5, 0, 0);
    assert [wb] + [][..0] == [wb];
    BytesFit(cfg, [wb], 1);
    InsertAt(cfg, ops, 1, [wb], a, 1, 0, 1);
    assert [wa] + [wb][..1] == [wa, wb];
  }

  lemma SmallThree(a: string, b: string, c: string, d: string)
    requires AllDifferent(a, b, c, d)
    ensures Holds(SMALL_LRU, BytesTrace(a, b, c, d), 3, [Weighs(c, 1), Weighs(a, 1)])
  {
    var ops := BytesTrace(a, b, c, d);
    var wa, wb, wc := Weighs(a, 1), Weighs(b, 5), Weighs(c, 1);
    FirstTwo(SMALL_LRU, a, b, c, d);
    Sums(wa, wb, wb);
    BytesFit(SMALL_LRU, [wa, wb], 1);
    InsertAt(SMALL_LRU, ops, 2, [wa, wb], c, 1, 0, 1);
    assert [wc] + [wa, wb][..1] == [wc, wa];
  }

  lemma SmallTrace(a: string, b: string, c: string, d: string)
    requires AllDifferent(a, b, c, d)
    ensures Holds(SMALL_LRU, BytesTrace(a, b, c, d), 5, [Weighs(d, 5), Weighs(c, 1)])
  {
    hide Holds, RunOps;
    var ops := BytesTrace(a, b, c, d);
    var wa, wc, wd := Weighs(a, 1), Weighs(c, 1), Weighs(d, 5);
    SmallThree(a, b, c, d);
    MissAt(SMALL_LRU, ops, 3, [wc, wa], b);
    Sums(wc, wa, wa);
    BytesFit(SMALL_LRU, [wc, wa], 5);
    InsertAt(SMALL_LRU, ops, 4, [wc, wa], d, 5, 0, 1);
    assert [wd] + [wc, wa][..1] == [wd, wc];
  }

  /** The five bytes of d leave room for b alone. */
  lemma KeepsOne(x: Entry<int>, y: Entry<int>, z: Entry<int>)
    requires x.size == 5 && y.size == 1 && z.size == 1
    ensures KeepCount(LARGE_LRU, [x, y, z], 5, BYTES) == 1
  {
    var s := [x, y, z];
    Sums(x, y, z);
    assert s[..1] == [x] && s[..2] == [x, y] && s[..3] == s;
    assert SizeFit(LRU, s, 5, BYTES, 1) == 1;
    assert SizeFit(LRU, s, 5, BYTES, 2) == 1;
    assert SizeFit(LRU, s, 5, BYTES, 3) == 1;
  }

  lemma LargeTrace(a: string, b: string, c: string, d: string)
    requires AllDifferent(a, b, c, d)
    ensures Holds(LARGE_LRU, BytesTrace(a, b, c, d), 5, [Weighs(d, 5), Weighs(b, 5)])
  {
    hide Holds, RunOps;
    var ops := BytesTrace(a, b, c, d);
    var wa, wb, wc, wd := Weighs(a, 1), Weighs(b, 5), Weighs(c, 1), Weighs(d, 5);
    FirstTwo(LARGE_LRU, a, b, c, d);
    Sums(wa, wb, wb);
    BytesFit(LARGE_LRU, [wa, wb], 1);
    InsertAt(LARGE_LRU, ops, 2, [wa, wb], c, 1, 0, 2);
    assert [wc] + [wa, wb][..2] == [wc, wa] + [wb];
    HitLastAt(LARGE_LRU, ops, 3, [wc, wa], wb);
    assert [wb] + [wc, wa] == [wb, wc, wa];
    KeepsOne(wb, wc, wa);
    InsertAt(LARGE_LRU, ops, 4, [wb, wc, wa], d, 5, 0, 1);
    assert [wd] + [wb, wc, wa][..1] == [wd, wb];
  }

  /** Only the smaller cache ends up with c: with a byte limit that binds, LRU has no inclusion. */
  lemma LruBytesNotIncluded(a: string, b: string, c: string, d: string)
    requires AllDifferent(a, b, c, d)
    ensures Has(RunOps(SMALL_LRU, BYTES, BytesTrace(a, b, c, d)).entries, c)
    ensures !Has(RunOps(LARGE_LRU, BYTES, BytesTrace(a, b, c, d)).entries, c)
  {
    SmallTrace(a, b, c, d);
    LargeTrace(a, b, c, d);
    var ops := BytesTrace(a, b, c, d);
    assert ops[..5] == ops;
    AbsentPosition([Weighs(d, 5), Weighs(b, 5)], c);
    assert [Weighs(d, 5), Weighs(c, 1)][1].key == c;
  }

  // ---------------------------------------------------------------- nor with expiry

  /** One against two entries: a is put, pushed out of the smaller cache by b, put again, and read
      when its first creation has expired but not its second. */
  function AgeTrace(maxAge: nat, a: string, b: string): seq<Op<int>> {
    [Set(a, 0, 0, 0), Set(b, 0, 0, 0), Set(a, 0, 0, 1), Get(a, maxAge + 1, maxAge + 1)]
  }

  function Weightless(key: string, created: Time, accessed: Time): Entry<int> {
    Entry(key, 0, 0, created, accessed)
  }

  lemma HitFirstAt(cfg: Config, ops: seq<Op<int>>, n: nat, e: Entry<int>, s: seq<Entry<int>>, now: Time)
    requires cfg.policy.LRU? && cfg.maxEntries >= 1 && n < |ops| && ops[n] == Get(e.key, now, now)
    requires Holds(cfg, ops, n, [e] + s) && now - e.createdAt <= cfg.maxAge
    ensures Holds(cfg, ops, n + 1, [e.(accessedAt := now)] + s)
  {
    RunNext(cfg, BYTES, ops, n);
    assert RemoveAt([e] + s, 0) == s;
  }

  lemma ExpireFirstAt(cfg: Config, ops: seq<Op<int>>, n: nat, e: Entry<int>, s: seq<Entry<int>>, now: Time)
    requires cfg.maxEntries >= 1 && n < |ops| && ops[n] == Get(e.key, now, now)
    requires Holds(cfg, ops, n, [e] + s) && now - e.createdAt > cfg.maxAge
    ensures Holds(cfg, ops, n + 1, s)
  {
    RunNext(cfg, BYTES, ops, n);
    assert RemoveAt([e] + s, 0) == s;
  }

  lemma UpdateLastAt(cfg: Config, ops: seq<Op<int>>, n: nat, s: seq<Entry<int>>, e: Entry<int>, now: Time)
    requires cfg.policy.LRU? && cfg.maxEntries >= 1 && n < |ops| && ops[n] == Set(e.key, e.value, e.size, now)
    requires Holds(cfg, ops, n, s + [e]) && Absent(s, e.key)
    ensures Holds(cfg, ops, n + 1, [e.(accessedAt := now)] + s)
  {
    RunNext(cfg, BYTES, ops, n);
    LastPosition(s, e);
    assert RemoveAt(s + [e], |s|) == s;
  }

  lemma FirstOfAge(cfg: Config, maxAge: nat, a: string, b: string)
    requires a != b && cfg.policy.LRU? && 1 <= cfg.maxEntries <= 2
    ensures var wa, wb := Weightless(a, 0, 0), Weightless(b, 0, 0);
            Holds(cfg, AgeTrace(maxAge, a, b), 2, if cfg.maxEntries == 1 then [wb] else [wb, wa])
  {
    var ops, wa, wb := AgeTrace(maxAge, a, b), Weightless(a, 0, 0), Weightless(b, 0, 0);
    assert ops[..0] == [];
    BytesFit(cfg, [], 0);
    InsertAt(cfg, ops, 0, [], a, 0, 0, 0);
    assert [wa] + [][..0] == [wa];
    Sums(wa, wb, wa);
    BytesFit(cfg, [wa], 0);
    InsertAt(cfg, ops, 1, [wa], b, 0, 0, cfg.maxEntries - 1);
    assert [wb] + [wa][..1] == [wb, wa];
    assert [wb] + [wa][..0] == [wb];
  }

  /** The smaller cache creates a anew and hits it. */
  lemma SmallAge(maxAge: nat, a: string, b: string)
    requires a != b
    ensures Holds(Config(maxAge, 1, LRU), AgeTrace(maxAge, a, b), 4, [Weightless(a, 1, maxAge + 1)])
  {
    hide Holds, RunOps;
    var cfg, ops, wb, wa := Config(maxAge, 1, LRU), AgeTrace(maxAge, a, b), Weightless(b, 0, 0), Weightless(a, 1, 1);
    FirstOfAge(cfg, maxAge, a, b);
    Sums(wb, wa, wa);
    BytesFit(cfg, [wb], 0);
    InsertAt(cfg, ops, 2, [wb], a, 0, 1, 0);
    assert [wa] + [wb][..0] == [wa];
    assert [wa] == [wa] + [] && [wa.(accessedAt := maxAge + 1)] == [wa.(accessedAt := maxAge + 1)] + [];
    HitFirstAt(cfg, ops, 3, wa, [], maxAge + 1);
  }

  /** The larger one updates it, keeping its creation, and finds it expired. */
  lemma LargeAge(maxAge: nat, a: string, b: string)
    requires a != b
    ensures Holds(Config(maxAge, 2, LRU), AgeTrace(maxAge, a, b), 4, [Weightless(b, 0, 0)])
  {
    var cfg, ops := Config(maxAge, 2, LRU), AgeTrace(maxAge, a, b);
    var wb, wa := Weightless(b, 0, 0), Weightless(a, 0, 0);
    hide Holds, RunOps;
    FirstOfAge(cfg, maxAge, a, b);
    assert [wb, wa] == [wb] + [wa];
    UpdateLastAt(cfg, ops, 2, [wb], wa, 1);
    ExpireFirstAt(cfg, ops, 3, Weightless(a, 0, 1), [wb], maxAge + 1);
  }

  /** Only the smaller cache ends up with a, whatever the maximum age: with expiring entries LRU has
      no inclusion. */
  lemma LruAgeNotIncluded(maxAge: nat, a: string, b: string)
    requires a != b
    ensures Has(RunOps(Config(maxAge, 1, LRU), BYTES, AgeTrace(maxAge, a, b)).entries, a)
    ensures !Has(RunOps(Config(maxAge, 2, LRU), BYTES, AgeTrace(maxAge, a, b)).entries, a)
  {
    SmallAge(maxAge, a, b);
    LargeAge(maxAge, a, b);
    var ops := AgeTrace(maxAge, a, b);
    assert ops[..4] == ops;
    AbsentPosition([Weightless(b, 0, 0)], a);
    assert [Weightless(a, 1, maxAge + 1)][0].key == a;
  }
}
