/** The cache as its callers see it: what each operation does to the item under a key, whatever the
    order of the list, and what a read returns after any run. */
module CacheReads {
  import opened Types
  import opened CacheModel
  import opened CacheProperties

  /** What is stored under a key: the value, its size and when it was created. */
  datatype Item<V> = Item(value: V, size: int, createdAt: Time)

  function Of<V>(e: Entry<V>): Item<V> {
    Item(e.value, e.size, e.createdAt)
  }

  function Find<V>(s: seq<Entry<V>>, key: string): Option<Item<V>> {
    if Has(s, key) then Some(Of(s[Position(s, key)])) else None
  }

  // ---------------------------------------------------------------- finding an item

  lemma FindAt<V>(s: seq<Entry<V>>, i: nat)
    requires Distinct(s) && i < |s|
    ensures Find(s, s[i].key) == Some(Of(s[i]))
  {
    var p := Position(s, s[i].key);
    assert p <= i;
  }

  lemma FindAbsent<V>(s: seq<Entry<V>>, key: string)
    requires forall i :: 0 <= i < |s| ==> s[i].key != key
    ensures Find(s, key) == None
  {
  }

  /** Lists that hold the key together, in possibly different places, and agree on the item. */
  lemma FindSame<V>(s: seq<Entry<V>>, s': seq<Entry<V>>, key: string, place: nat)
    requires Distinct(s) && Distinct(s')
    requires Has(s, key) ==> place < |s'| && s'[place].key == key && Of(s'[place]) == Of(s[Position(s, key)])
    requires !Has(s, key) ==> forall i :: 0 <= i < |s'| ==> s'[i].key != key
    ensures Find(s', key) == Find(s, key)
  {
    if Has(s, key) {
      FindAt(s', place);
    } else {
      FindAbsent(s', key);
    }
  }

  lemma FindWithout<V>(s: seq<Entry<V>>, i: nat, key: string)
    requires Distinct(s) && i < |s|
    ensures Distinct(RemoveAt(s, i))
    ensures Find(RemoveAt(s, i), key) == if key == s[i].key then None else Find(s, key)
  {
    RemoveAtKeepsDistinct(s, i);
    var r, p := RemoveAt(s, i), Position(s, key);
    assert forall j :: 0 <= j < i ==> r[j] == s[j];
    assert forall j :: i <= j < |r| ==> r[j] == s[j + 1];
    if key == s[i].key {
      FindAbsent(r, key);
    } else {
      if p < |s| {
        assert r[if p < i then p else p - 1] == s[p];
      }
      FindSame(s, r, key, if p < i then p else if p == 0 then 0 else p - 1);
    }
  }

  lemma FindFront<V>(s: seq<Entry<V>>, e: Entry<V>, key: string)
    requires Distinct(s) && forall i :: 0 <= i < |s| ==> s[i].key != e.key
    ensures Distinct([e] + s) && Find([e] + s, key) == if key == e.key then Some(Of(e)) else Find(s, key)
  {
    hide Position;
    var t := [e] + s;
    assert forall i :: 0 <= i < |s| ==> t[i + 1] == s[i];
    if key == e.key {
      FindAt(t, 0);
    } else {
      FindSame(s, t, key, Position(s, key) + 1);
    }
  }

  lemma FindBack<V>(s: seq<Entry<V>>, e: Entry<V>, key: string)
    requires Distinct(s) && forall i :: 0 <= i < |s| ==> s[i].key != e.key
    ensures Distinct(s + [e]) && Find(s + [e], key) == if key == e.key then Some(Of(e)) else Find(s, key)
  {
    hide Position;
    var t := s + [e];
    assert forall i :: 0 <= i < |s| ==> t[i] == s[i];
    if key == e.key {
      FindAt(t, |s|);
    } else {
      FindSame(s, t, key, Position(s, key));
    }
  }

  lemma FindReplaced<V>(s: seq<Entry<V>>, i: nat, e: Entry<V>, key: string)
    requires Distinct(s) && i < |s| && e.key == s[i].key
    ensures Distinct(s[i := e]) && Find(s[i := e], key) == if key == e.key then Some(Of(e)) else Find(s, key)
  {
    var s' := s[i := e];
    if key == e.key {
      FindAt(s', i);
    } else {
      FindSame(s, s', key, Position(s, key));
    }
  }

  /** Eviction can lose an item but not change it. */
  lemma FindKept<V>(policy: Policy, s: seq<Entry<V>>, k: nat, key: string)
    requires Distinct(s) && k <= |s|
    ensures Distinct(Kept(policy, s, k))
    ensures Find(Kept(policy, s, k), key) == Find(s, key) || Find(Kept(policy, s, k), key) == None
  {
    var kept := Kept(policy, s, k);
    var p := Position(kept, key);
    if p < |kept| {
      var at := if policy.LRU? then p else |s| - k + p;
      assert s[at] == kept[p];
      FindAt(s, at);
      FindAt(kept, p);
    }
  }

  lemma TooOldGoes<V>(cfg: Config, s: seq<Entry<V>>, now: Time, key: string)
    requires forall j :: 0 <= j < |s| && s[j].key == key ==> now - s[j].createdAt > cfg.maxAge
    ensures Find(Unexpired(cfg, s, now), key) == None
  {
    hide Position, Unexpired;
    var kept := Unexpired(cfg, s, now);
    UnexpiredKeeps(cfg, s, now);
    var at := UnexpiredInOrder(cfg, s, now);
    forall i | 0 <= i < |kept| ensures kept[i].key != key {
      assert kept[i] in Unexpired(cfg, s, now) && kept[i] == s[at[i]];
    }
    FindAbsent(kept, key);
  }

  lemma YoungStays<V>(cfg: Config, s: seq<Entry<V>>, now: Time, i: nat)
    requires Distinct(s) && i < |s| && !(now - s[i].createdAt > cfg.maxAge)
    ensures Find(Unexpired(cfg, s, now), s[i].key) == Some(Of(s[i]))
  {
    hide Position, Unexpired;
    var kept := Unexpired(cfg, s, now);
    UnexpiredKeeps(cfg, s, now);
    UnexpiredKeepsInv(cfg, s, now);
    assert s[i] in Unexpired(cfg, s, now);
    var q :| 0 <= q < |kept| && kept[q] == s[i];
    FindAt(kept, q);
  }

  lemma FindUnexpired<V>(cfg: Config, s: seq<Entry<V>>, now: Time, key: string)
    requires Distinct(s)
    ensures var was := Find(s, key);
            Find(Unexpired(cfg, s, now), key) == if was.Some? && now - was.value.createdAt > cfg.maxAge then None else was
  {
    hide Unexpired;
    var p := Position(s, key);
    if p < |s| && !(now - s[p].createdAt > cfg.maxAge) {
      YoungStays(cfg, s, now, p);
    } else {
      TooOldGoes(cfg, s, now, key);
    }
  }

  // ---------------------------------------------------------------- one operation

  /** A read forgets an item that is too old and changes no other; its value is the item's. */
  lemma GetItems<V>(cfg: Config, c: Cache<V>, key: string, now: Time, later: Time, k: string)
    requires Distinct(c.entries)
    ensures var was := Find(c.entries, key);
            var r := DoGet(cfg, c, key, now, later);
            var after, v := r.0, r.1;
            var young := was.Some? && now - was.value.createdAt <= cfg.maxAge;
            && v == (if young then Some(was.value.value) else None)
            && after.hits == c.hits + (if young then 1 else 0) && after.misses == c.misses + (if young then 0 else 1)
            && Find(after.entries, k) == (if k == key && !young then None else Find(c.entries, k))
            && after.maxSize == c.maxSize && after.evictions == c.evictions
  {
    var i := Position(c.entries, key);
    if i < |c.entries| {
      var e := c.entries[i].(accessedAt := later);
      FindWithout(c.entries, i, k);
      RemoveAtKeepsDistinct(c.entries, i);
      FindFront(RemoveAt(c.entries, i), e, k);
      assert k == key ==> Find(c.entries, k) == Some(Of(c.entries[i]));
    }
  }

  /** A write stores the value under its key and changes no other item; it can lose others only if the
      key is new. A present item keeps its creation time. */
  lemma SetItems<V>(cfg: Config, c: Cache<V>, key: string, value: V, size: int, now: Time, k: string)
    requires cfg.maxEntries >= 1 && Distinct(c.entries)
    ensures var was, after := Find(c.entries, key), Find(DoSet(cfg, c, key, value, size, now).entries, k);
            if k == key then after == Some(Item(value, size, if was.Some? then was.value.createdAt else now))
            else after == Find(c.entries, k) || (was.None? && after.None?)
  {
    var i := Position(c.entries, key);
    if i < |c.entries| {
      var e := c.entries[i].(value := value, size := size, accessedAt := now);
      FindReplaced(c.entries, i, e, k);
      FindWithout(c.entries, i, k);
      RemoveAtKeepsDistinct(c.entries, i);
      FindFront(RemoveAt(c.entries, i), e, k);
    } else {
      var n := KeepCount(cfg, c.entries, size, c.maxSize);
      FindKept(cfg.policy, c.entries, n, k);
      KeptKeepsDistinct(cfg.policy, c.entries, n, key);
      FindFront(Kept(cfg.policy, c.entries, n), Entry(key, value, size, now, now), k);
      FindBack(Kept(cfg.policy, c.entries, n), Entry(key, value, size, now, now), k);
    }
  }

  lemma DeleteItems<V>(c: Cache<V>, key: string, k: string)
    requires Distinct(c.entries)
    ensures Find(DoDelete(c, key).entries, k) == if k == key then None else Find(c.entries, k)
  {
    var i := Position(c.entries, key);
    if i < |c.entries| {
      FindWithout(c.entries, i, k);
    }
  }

  /** What an operation does to the item under a key, for both policies: only a read or a cleanup of an
      item that is too old, a deletion, a clearing, an eviction for a new key and a shrinking lose it,
      and only a write of its key changes it. */
  ghost predicate Follows<V>(cfg: Config, op: Op<V>, k: string, isNew: bool, was: Option<Item<V>>, after: Option<Item<V>>) {
    match op
    case Get(key, now, _) => after == if k == key && was.Some? && now - was.value.createdAt > cfg.maxAge then None else was
    case Set(key, value, size, now) =>
      if k == key then after == Some(Item(value, size, if was.Some? then was.value.createdAt else now))
      else after == was || (isNew && after.None?)
    case Delete(key) => after == if k == key then None else was
    case Cleanup(now) => after == if was.Some? && now - was.value.createdAt > cfg.maxAge then None else was
    case ReduceSize(_) => after == was || after.None?
    case Clear => after.None?
  }

  lemma StepItems<V>(cfg: Config, c: Cache<V>, op: Op<V>, k: string)
    requires cfg.maxEntries >= 1 && Distinct(c.entries)
    ensures Follows(cfg, op, k, op.Set? && !Has(c.entries, op.key), Find(c.entries, k), Find(Apply(cfg, c, op).entries, k))
  {
    match op
    case Get(key, now, later) => GetItems(cfg, c, key, now, later, k);
    case Set(key, value, size, now) => SetItems(cfg, c, key, value, size, now, k);
    case Delete(key) => DeleteItems(c, key, k);
    case Cleanup(now) => FindUnexpired(cfg, c.entries, now, k);
    case ReduceSize(percent) =>
      FindKept(cfg.policy, c.entries, SizeFit(cfg.policy, c.entries, 0, Reduced(c.maxSize, percent), |c.entries|), k);
    case Clear =>
  }

  /** Only reads count hits and misses, only insertions and shrinking count evictions, and only shrinking
      moves the limit; clearing keeps the statistics. */
  lemma StepCounts<V>(cfg: Config, c: Cache<V>, op: Op<V>)
    requires cfg.maxEntries >= 1
    ensures var after := Apply(cfg, c, op);
            && (!op.Get? ==> after.hits == c.hits && after.misses == c.misses)
            && (op.Get? ==> after.hits + after.misses == c.hits + c.misses + 1)
            && after.evictions >= c.evictions
            && (after.evictions > c.evictions ==> op.ReduceSize? || (op.Set? && !Has(c.entries, op.key)))
            && (!op.ReduceSize? ==> after.maxSize == c.maxSize)
  {
  }

  // ---------------------------------------------------------------- runs

  /** The value and size of the last write of the key. */
  function LastWritten<V>(ops: seq<Op<V>>, key: string): Option<(V, int)> {
    if ops == [] then None
    else
      var op := ops[|ops| - 1];
      if op.Set? && op.key == key then Some((op.value, op.size)) else LastWritten(ops[..|ops| - 1], key)
  }

  /** The item was created by the n-th operation, a write of its key when it was absent, and the key has
      been present ever since. */
  ghost predicate CreatedBy<V>(cfg: Config, maxSize: int, ops: seq<Op<V>>, key: string, at: Time, n: nat)
    requires cfg.maxEntries >= 1
  {
    && n < |ops| && ops[n].Set? && ops[n].key == key && ops[n].now == at
    && !Has(RunOps(cfg, maxSize, ops[..n]).entries, key)
    && forall m :: n < m <= |ops| ==> Has(RunOps(cfg, maxSize, ops[..m]).entries, key)
  }

  /** What is stored under the key was last written to it, and created by the n-th operation. */
  ghost predicate Stored<V>(cfg: Config, maxSize: int, ops: seq<Op<V>>, key: string, n: nat)
    requires cfg.maxEntries >= 1
  {
    var item := Find(RunOps(cfg, maxSize, ops).entries, key);
    item.Some? ==>
      && LastWritten(ops, key) == Some((item.value.value, item.value.size))
      && CreatedBy(cfg, maxSize, ops, key, item.value.createdAt, n)
  }

  lemma FindIffHas<V>(s: seq<Entry<V>>, key: string)
    ensures Find(s, key).Some? <==> Has(s, key)
  {
  }

  /** The last operation, seen from one key. */
  lemma LastOp<V>(cfg: Config, maxSize: int, ops: seq<Op<V>>, key: string)
    requires cfg.maxEntries >= 1 && ops != []
    ensures var init, op := ops[..|ops| - 1], ops[|ops| - 1];
            var before := RunOps(cfg, maxSize, init).entries;
            Follows(cfg, op, key, op.Set? && !Has(before, op.key), Find(before, key), Find(RunOps(cfg, maxSize, ops).entries, key))
  {
    EntryLimit(cfg, maxSize, ops[..|ops| - 1]);
    StepItems(cfg, RunOps(cfg, maxSize, ops[..|ops| - 1]), ops[|ops| - 1], key);
  }

  lemma {:induction false} StoredNext<V>(cfg: Config, maxSize: int, ops: seq<Op<V>>, key: string, n: nat) returns (n': nat)
    requires cfg.maxEntries >= 1 && ops != [] && Stored(cfg, maxSize, ops[..|ops| - 1], key, n)
    ensures Stored(cfg, maxSize, ops, key, n')
  {
    hide RunOps, Find, Has;
    var before, after := RunOps(cfg, maxSize, ops[..|ops| - 1]).entries, RunOps(cfg, maxSize, ops).entries;
    LastOp(cfg, maxSize, ops, key);
    FindIffHas(before, key);
    FindIffHas(after, key);
    n' := n;
    if Has(after, key) {
      if Has(before, key) {
        CreatedEarlier(cfg, maxSize, ops, key, Find(before, key).value.createdAt, n);
      } else {
        n' := |ops| - 1;
        assert ops[..|ops|] == ops;
      }
    }
  }

  /** In every run, what is stored under a key is what was last written to it, and its age counts from
      the write that created it. */
  lemma {:induction false} StoredIsLastWritten<V>(cfg: Config, maxSize: int, ops: seq<Op<V>>, key: string) returns (n: nat)
    requires cfg.maxEntries >= 1
    ensures Stored(cfg, maxSize, ops, key, n)
  {
    n := 0;
    if ops != [] {
      n := StoredIsLastWritten(cfg, maxSize, ops[..|ops| - 1], key);
      n := StoredNext(cfg, maxSize, ops, key, n);
    }
  }

  lemma CreatedEarlier<V>(cfg: Config, maxSize: int, ops: seq<Op<V>>, key: string, at: Time, n: nat)
    requires cfg.maxEntries >= 1 && ops != [] && Has(RunOps(cfg, maxSize, ops).entries, key)
    requires CreatedBy(cfg, maxSize, ops[..|ops| - 1], key, at, n)
    ensures CreatedBy(cfg, maxSize, ops, key, at, n)
  {
    hide RunOps, Has;
    var init := ops[..|ops| - 1];
    assert ops[..|ops|] == ops;
    assert init[..n] == ops[..n] && init[n] == ops[n];
    forall m | n < m <= |ops| ensures Has(RunOps(cfg, maxSize, ops[..m]).entries, key) {
      if m < |ops| {
        assert init[..m] == ops[..m];
      }
    }
  }

  /** After any run a read gives a value if and only if the key is present and not older than the maximum
      age, in which case it counts as a hit, else as a miss; and the value is the last one written. */
  lemma ReadsLastWrite<V>(cfg: Config, maxSize: int, ops: seq<Op<V>>, key: string, now: Time, later: Time)
    requires cfg.maxEntries >= 1
    ensures var c := RunOps(cfg, maxSize, ops);
            var item := Find(c.entries, key);
            var r := DoGet(cfg, c, key, now, later);
            var after, v := r.0, r.1;
            && (v.Some? <==> item.Some? && now - item.value.createdAt <= cfg.maxAge)
            && (v.Some? <==> after.hits == c.hits + 1) && (v.None? <==> after.misses == c.misses + 1)
            && (v.Some? ==> LastWritten(ops, key).Some? && LastWritten(ops, key).value.0 == v.value)
  {
    EntryLimit(cfg, maxSize, ops);
    GetItems(cfg, RunOps(cfg, maxSize, ops), key, now, later, key);
    var n := StoredIsLastWritten(cfg, maxSize, ops, key);
  }

  /** What was just written is read back, if its key was absent before and it has not expired yet. */
  lemma SetThenGet<V>(cfg: Config, maxSize: int, ops: seq<Op<V>>, key: string, value: V, size: int, t: Time, now: Time, later: Time)
    requires cfg.maxEntries >= 1
    ensures var before, after := RunOps(cfg, maxSize, ops), RunOps(cfg, maxSize, ops + [Set(key, value, size, t)]);
            var was := Find(before.entries, key);
            var created := if was.Some? then was.value.createdAt else t;
            DoGet(cfg, after, key, now, later).1 == if now - created <= cfg.maxAge then Some(value) else None
  {
    var ops' := ops + [Set(key, value, size, t)];
    assert ops'[..|ops|] == ops;
    EntryLimit(cfg, maxSize, ops);
    EntryLimit(cfg, maxSize, ops');
    SetItems(cfg, RunOps(cfg, maxSize, ops), key, value, size, t, key);
    GetItems(cfg, RunOps(cfg, maxSize, ops'), key, now, later, key);
  }
}
