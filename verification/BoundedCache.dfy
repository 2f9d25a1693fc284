/** The cache as a map and a list that share their cells, updated in place and proved against
    CacheModel. */
module BoundedCache {
  import opened Types
  import M = CacheModel

  /** A list element together with the entry it holds. */
  class Cell<V> {
    const key: string
    const createdAt: Time
    var value: V
    var size: int
    var accessedAt: Time

    constructor (key: string, value: V, size: int, now: Time)
      ensures Entry() == M.Entry(key, value, size, now, now)
    {
      this.key, this.value, this.size, createdAt, accessedAt := key, value, size, now, now;
    }

    function Entry(): M.Entry<V>
      reads this
    {
      M.Entry(key, value, size, createdAt, accessedAt)
    }
  }

  // ---------------------------------------------------------------- keys of a sequence of entries

  ghost function Keys<V>(s: seq<M.Entry<V>>): set<string> {
    set i | 0 <= i < |s| :: s[i].key
  }

  lemma {:induction false} KeysCounted<V>(s: seq<M.Entry<V>>)
    ensures |Keys(s)| <= |s|
    ensures |Keys(s)| == |s| <==> M.Distinct(s)
  {
    if s != [] {
      var rest, last := s[..|s| - 1], s[|s| - 1];
      KeysCounted(rest);
      assert s == rest + [last];
      KeysGrow(rest, last);
    }
  }

  lemma KeysGrow<V>(s: seq<M.Entry<V>>, e: M.Entry<V>)
    ensures Keys(s + [e]) == Keys(s) + {e.key}
    ensures M.Distinct(s + [e]) <==> M.Distinct(s) && e.key !in Keys(s)
  {
    var t := s + [e];
    assert forall i :: 0 <= i < |s| ==> t[i] == s[i];
    forall k | k in Keys(s) + {e.key} ensures k in Keys(t) {
      if k == e.key {
        assert t[|s|].key == k;
      } else {
        var i :| 0 <= i < |s| && s[i].key == k;
        assert t[i].key == k;
      }
    }
    if e.key in Keys(s) {
      var i :| 0 <= i < |s| && s[i].key == e.key;
      assert t[i].key == t[|s|].key;
    }
  }

  lemma KeysWithout<V>(s: seq<M.Entry<V>>, i: nat)
    requires M.Distinct(s) && i < |s|
    ensures M.Distinct(M.RemoveAt(s, i)) && Keys(M.RemoveAt(s, i)) == Keys(s) - {s[i].key}
  {
    var r := M.RemoveAt(s, i);
    assert forall j :: 0 <= j < |r| ==> r[j] == s[if j < i then j else j + 1];
    forall k | k in Keys(s) - {s[i].key} ensures k in Keys(r) {
      var j :| 0 <= j < |s| && s[j].key == k;
      assert r[if j < i then j else j - 1].key == k;
    }
  }

  lemma KeysWith<V>(s: seq<M.Entry<V>>, e: M.Entry<V>)
    requires M.Distinct(s) && e.key !in Keys(s)
    ensures M.Distinct([e] + s) && Keys([e] + s) == Keys(s) + {e.key}
  {
    forall k | k in Keys(s) + {e.key} ensures k in Keys([e] + s) {
      if k == e.key {
        assert ([e] + s)[0].key == k;
      } else {
        var j :| 0 <= j < |s| && s[j].key == k;
        assert ([e] + s)[j + 1].key == k;
      }
    }
  }

  lemma KeysReplaced<V>(s: seq<M.Entry<V>>, i: nat, e: M.Entry<V>)
    requires M.Distinct(s) && i < |s| && s[i].key == e.key
    ensures M.Distinct(s[i := e]) && Keys(s[i := e]) == Keys(s)
  {
    forall k | k in Keys(s) ensures k in Keys(s[i := e]) {
      var j :| 0 <= j < |s| && s[j].key == k;
      assert s[i := e][j].key == k;
    }
  }

  lemma KeysOfKept<V>(policy: M.Policy, s: seq<M.Entry<V>>, k: nat)
    requires k <= |s|
    ensures Keys(M.Kept(policy, s, k)) <= Keys(s)
  {
    var kept := M.Kept(policy, s, k);
    assert forall j :: 0 <= j < k ==> kept[j] == s[if policy.LRU? then j else |s| - k + j];
  }

  lemma KeptShrinks<V>(policy: M.Policy, s: seq<M.Entry<V>>)
    requires s != []
    ensures M.RemoveAt(s, if policy.LRU? then |s| - 1 else 0) == M.Kept(policy, s, |s| - 1)
  {
  }

  lemma KeptAll<V>(policy: M.Policy, s: seq<M.Entry<V>>)
    ensures M.Kept(policy, s, |s|) == s
  {
  }

  lemma KeptOfKept<V>(policy: M.Policy, s: seq<M.Entry<V>>, k: nat)
    requires 1 <= k <= |s|
    ensures |M.Kept(policy, s, k)| == k && M.Kept(policy, M.Kept(policy, s, k), k - 1) == M.Kept(policy, s, k - 1)
  {
  }

  lemma KeptTwice<V>(policy: M.Policy, s: seq<M.Entry<V>>, n: nat, k: nat)
    requires k <= n <= |s|
    ensures |M.Kept(policy, s, n)| == n && M.Kept(policy, M.Kept(policy, s, n), k) == M.Kept(policy, s, k)
  {
  }

  /** The list while Cleanup runs: what stays of the entries seen, then the entries not seen yet. */
  ghost function PartlyCleaned<V>(cfg: M.Config, s: seq<M.Entry<V>>, seen: nat, now: Time): seq<M.Entry<V>>
    requires seen <= |s|
  {
    M.Unexpired(cfg, s[..seen], now) + s[seen..]
  }

  lemma CleanNext<V>(cfg: M.Config, s: seq<M.Entry<V>>, seen: nat, now: Time)
    requires seen < |s|
    ensures var part, at := PartlyCleaned(cfg, s, seen, now), |M.Unexpired(cfg, s[..seen], now)|;
            && at < |part| && part[at] == s[seen]
            && PartlyCleaned(cfg, s, seen + 1, now) == (if M.IsExpired(cfg, s[seen], now) then M.RemoveAt(part, at) else part)
            && |M.Unexpired(cfg, s[..seen + 1], now)| == (if M.IsExpired(cfg, s[seen], now) then at else at + 1)
  {
    assert s[..seen + 1][..seen] == s[..seen];
    assert s[seen..] == [s[seen]] + s[seen + 1..];
  }

  lemma CleanEnds<V>(cfg: M.Config, s: seq<M.Entry<V>>, now: Time)
    ensures PartlyCleaned(cfg, s, 0, now) == s && PartlyCleaned(cfg, s, |s|, now) == M.Unexpired(cfg, s, now)
  {
    assert s[..|s|] == s;
  }

  lemma SumReplaced<V>(s: seq<M.Entry<V>>, i: nat, e: M.Entry<V>)
    requires i < |s|
    ensures M.RemoveAt(s[i := e], i) == M.RemoveAt(s, i)
    ensures M.Sum(s[i := e]) == M.Sum(s) - s[i].size + e.size
  {
    assert M.RemoveAt(s[i := e], i) == M.RemoveAt(s, i);
    M.SumRemoveAt(s, i);
    M.SumRemoveAt(s[i := e], i);
  }

  // ---------------------------------------------------------------- map and list, as values

  /** The map and the list hold the same cells under distinct keys; contents is what the cells store. */
  ghost predicate Linked<V>(items: map<string, Cell<V>>, order: seq<Cell<V>>,
                            stored: map<Cell<V>, M.Entry<V>>, contents: seq<M.Entry<V>>) {
    && |order| == |contents|
    && items.Keys == Keys(contents)
    && forall i {:trigger Placed(items, order, stored, contents, i)} :: 0 <= i < |order| ==>
         Placed(items, order, stored, contents, i)
  }

  ghost predicate Placed<V>(items: map<string, Cell<V>>, order: seq<Cell<V>>,
                            stored: map<Cell<V>, M.Entry<V>>, contents: seq<M.Entry<V>>, i: nat)
    requires i < |order| == |contents|
  {
    && order[i] in stored && stored[order[i]] == contents[i]
    && contents[i].key in items && items[contents[i].key] == order[i]
    && M.Position(contents, contents[i].key) == i
  }

  lemma LinkedIsDistinct<V>(items: map<string, Cell<V>>, order: seq<Cell<V>>,
                            stored: map<Cell<V>, M.Entry<V>>, contents: seq<M.Entry<V>>)
    requires Linked(items, order, stored, contents)
    ensures M.Distinct(contents)
  {
    forall i, j | 0 <= i < j < |contents| ensures contents[i].key != contents[j].key {
      assert Placed(items, order, stored, contents, i) && Placed(items, order, stored, contents, j);
    }
  }

  lemma KeysLinked<V>(items: map<string, Cell<V>>, order: seq<Cell<V>>,
                      stored: map<Cell<V>, M.Entry<V>>, contents: seq<M.Entry<V>>)
    requires Linked(items, order, stored, contents)
    ensures items.Keys == Keys(contents)
  {
  }

  lemma PositionOf<V>(s: seq<M.Entry<V>>, i: nat)
    requires M.Distinct(s) && i < |s|
    ensures M.Position(s, s[i].key) == i
  {
    assert M.Position(s, s[i].key) <= i;
  }

  /** A cell keeps its place relation when it moves together with its entry. */
  lemma MovesTo<V>(items: map<string, Cell<V>>, order: seq<Cell<V>>, stored: map<Cell<V>, M.Entry<V>>,
                   contents: seq<M.Entry<V>>, was: nat,
                   items': map<string, Cell<V>>, order': seq<Cell<V>>, contents': seq<M.Entry<V>>, j: nat)
    requires Linked(items, order, stored, contents) && was < |order|
    requires j < |order'| == |contents'| && M.Distinct(contents')
    requires order'[j] == order[was] && contents'[j] == contents[was]
    requires contents[was].key in items' && (contents[was].key in items ==> items'[contents[was].key] == items[contents[was].key])
    ensures Placed(items', order', stored, contents', j)
  {
    assert Placed(items, order, stored, contents, was);
    PositionOf(contents', j);
  }

  lemma Lookup<V>(items: map<string, Cell<V>>, order: seq<Cell<V>>,
                  stored: map<Cell<V>, M.Entry<V>>, contents: seq<M.Entry<V>>, key: string)
    requires Linked(items, order, stored, contents)
    ensures var i := M.Position(contents, key);
            if key in items then i < |contents| && items[key] == order[i] && items[key] in stored && stored[items[key]] == contents[i]
            else i == |contents|
  {
    var i := M.Position(contents, key);
    if key in items {
      var j :| 0 <= j < |contents| && contents[j].key == key;
      assert i <= j;
      assert Placed(items, order, stored, contents, i);
    }
  }

  lemma Unlink<V>(items: map<string, Cell<V>>, order: seq<Cell<V>>,
                  stored: map<Cell<V>, M.Entry<V>>, contents: seq<M.Entry<V>>, i: nat)
    requires Linked(items, order, stored, contents) && i < |contents|
    ensures Linked(items - {contents[i].key}, M.RemoveAt(order, i), stored, M.RemoveAt(contents, i))
  {
    LinkedIsDistinct(items, order, stored, contents);
    KeysWithout(contents, i);
    var order', contents' := M.RemoveAt(order, i), M.RemoveAt(contents, i);
    forall j | 0 <= j < |order'| ensures Placed(items - {contents[i].key}, order', stored, contents', j) {
      PositionOf(contents', j);
      var was := if j < i then j else j + 1;
      assert order'[j] == order[was] && contents'[j] == contents[was];
      assert Placed(items, order, stored, contents, was);
    }
  }

  lemma LinkFront<V>(items: map<string, Cell<V>>, order: seq<Cell<V>>,
                     stored: map<Cell<V>, M.Entry<V>>, contents: seq<M.Entry<V>>, elem: Cell<V>)
    requires Linked(items, order, stored, contents) && elem in stored && stored[elem].key !in items
    ensures Linked(items[stored[elem].key := elem], [elem] + order, stored, [stored[elem]] + contents)
  {
    var e := stored[elem];
    LinkedIsDistinct(items, order, stored, contents);
    KeysWith(contents, e);
    var items', order', contents' := items[e.key := elem], [elem] + order, [e] + contents;
    PositionOf(contents', 0);
    assert Placed(items', order', stored, contents', 0);
    forall j | 0 < j < |order'| ensures Placed(items', order', stored, contents', j) {
      assert contents[j - 1].key in Keys(contents);
      MovesTo(items, order, stored, contents, j - 1, items', order', contents', j);
    }
  }

  lemma LinkBack<V>(items: map<string, Cell<V>>, order: seq<Cell<V>>,
                    stored: map<Cell<V>, M.Entry<V>>, contents: seq<M.Entry<V>>, elem: Cell<V>)
    requires Linked(items, order, stored, contents) && elem in stored && stored[elem].key !in items
    ensures Linked(items[stored[elem].key := elem], order + [elem], stored, contents + [stored[elem]])
  {
    var e := stored[elem];
    LinkedIsDistinct(items, order, stored, contents);
    KeysGrow(contents, e);
    var items', order', contents' := items[e.key := elem], order + [elem], contents + [e];
    PositionOf(contents', |contents|);
    forall j | 0 <= j < |order'| ensures Placed(items', order', stored, contents', j) {
      if j < |order| {
        assert contents[j].key in Keys(contents);
        MovesTo(items, order, stored, contents, j, items', order', contents', j);
      }
    }
  }

  lemma PutBack<K, T>(m: map<K, T>, k: K)
    requires k in m
    ensures (m - {k})[k := m[k]] == m
  {
  }

  lemma Rotate<V>(items: map<string, Cell<V>>, order: seq<Cell<V>>,
                  stored: map<Cell<V>, M.Entry<V>>, contents: seq<M.Entry<V>>, i: nat)
    requires Linked(items, order, stored, contents) && i < |contents|
    ensures Linked(items, [order[i]] + M.RemoveAt(order, i), stored, [contents[i]] + M.RemoveAt(contents, i))
  {
    var key, elem := contents[i].key, order[i];
    assert Placed(items, order, stored, contents, i);
    Unlink(items, order, stored, contents, i);
    PutBack(items, key);
    LinkFront(items - {key}, M.RemoveAt(order, i), stored, M.RemoveAt(contents, i), elem);
  }

  lemma StoredMore<V>(items: map<string, Cell<V>>, order: seq<Cell<V>>,
                      stored: map<Cell<V>, M.Entry<V>>, contents: seq<M.Entry<V>>, elem: Cell<V>, e: M.Entry<V>)
    requires Linked(items, order, stored, contents) && elem !in stored
    ensures Linked(items, order, stored[elem := e], contents)
  {
    var stored' := stored[elem := e];
    forall j | 0 <= j < |order| ensures Placed(items, order, stored', contents, j) {
      assert Placed(items, order, stored, contents, j);
    }
  }

  /** One cell now stores another entry under the same key. */
  lemma Refresh<V>(items: map<string, Cell<V>>, order: seq<Cell<V>>,
                   stored: map<Cell<V>, M.Entry<V>>, contents: seq<M.Entry<V>>, i: nat, e: M.Entry<V>)
    requires Linked(items, order, stored, contents) && i < |contents| && e.key == contents[i].key
    ensures Linked(items, order, stored[order[i] := e], contents[i := e])
    ensures M.Sum(contents[i := e]) == M.Sum(contents) - contents[i].size + e.size
    ensures M.RemoveAt(contents[i := e], i) == M.RemoveAt(contents, i)
  {
    LinkedIsDistinct(items, order, stored, contents);
    KeysReplaced(contents, i, e);
    SumReplaced(contents, i, e);
    assert Placed(items, order, stored, contents, i);
    var stored', contents' := stored[order[i] := e], contents[i := e];
    forall j | 0 <= j < |order| ensures Placed(items, order, stored', contents', j) {
      PositionOf(contents', j);
      assert Placed(items, order, stored, contents, j);
      if j != i {
        assert order[j] != order[i];
      }
    }
  }

  class BoundedCache<V> {
    const maxAge: int
    const maxEntries: int
    const policy: M.Policy
    var maxSize: int
    var items: map<string, Cell<V>>
    var order: seq<Cell<V>>
    var currentSize: int
    var hits: nat
    var misses: nat
    var evictions: nat
    ghost var contents: seq<M.Entry<V>>
    ghost var stored: map<Cell<V>, M.Entry<V>>

    ghost predicate Valid()
      reads this, stored.Keys
    {
      && maxEntries >= 1
      && Linked(items, order, stored, contents)
      && Synced()
      && currentSize == M.Sum(contents)
    }

    ghost predicate Synced()
      reads `stored, stored.Keys
    {
      forall c {:trigger c.Entry()} :: c in stored ==> c.Entry() == stored[c]
    }

    function Config(): M.Config {
      M.Config(maxAge, maxEntries, policy)
    }

    ghost function State(): M.Cache<V>
      reads this
    {
      M.Cache(contents, maxSize, hits, misses, evictions)
    }

    constructor (maxSize: int, maxAge: int, maxEntries: int, policy: M.Policy)
      requires maxEntries >= 1
      ensures Valid() && stored.Keys == {} && State() == M.New(maxSize)
      ensures Config() == M.Config(maxAge, maxEntries, policy)
    {
      this.maxSize, this.maxAge, this.maxEntries, this.policy := maxSize, maxAge, maxEntries, policy;
      items, order, currentSize, hits, misses, evictions := map[], [], 0, 0, 0, 0;
      contents, stored := [], map[];
    }

    // -------------------------------------------------------------- list surgery

    /** Where in the list a stored cell is. */
    method Find(elem: Cell<V>) returns (i: nat)
      requires Valid() && elem in order
      ensures i < |order| && order[i] == elem && i == M.Position(contents, elem.key)
      ensures elem in stored && contents[i] == elem.Entry()
    {
      i :| 0 <= i < |order| && order[i] == elem;
      assert Placed(items, order, stored, contents, i);
      assert stored[elem] == elem.Entry();
    }

    method RemoveElement(elem: Cell<V>, ghost at: nat)
      requires Valid() && at < |order| && order[at] == elem
      modifies `items, `order, `currentSize, `contents
      ensures Valid()
      ensures contents == M.RemoveAt(old(contents), at) && order == M.RemoveAt(old(order), at)
    {
      var i := Find(elem);
      assert Placed(items, order, stored, contents, at);
      Unlink(items, order, stored, contents, i);
      M.SumRemoveAt(contents, i);
      items := items - {elem.key};
      order := M.RemoveAt(order, i);
      currentSize := currentSize - elem.size;
      contents := M.RemoveAt(contents, i);
    }

    method MoveToFront(i: nat)
      requires Valid() && i < |order|
      modifies `order, `contents
      ensures Valid() && contents == [old(contents)[i]] + M.RemoveAt(old(contents), i)
    {
      Rotate(items, order, stored, contents, i);
      M.SumRemoveAt(contents, i);
      order := [order[i]] + M.RemoveAt(order, i);
      contents := [contents[i]] + M.RemoveAt(contents, i);
    }

    // -------------------------------------------------------------- operations

    method Get(key: string, now: Time, later: Time) returns (value: Option<V>)
      requires Valid()
      modifies `items, `order, `currentSize, `hits, `misses, `contents, `stored, stored.Keys
      ensures Valid() && stored.Keys == old(stored.Keys)
      ensures (State(), value) == M.DoGet(Config(), old(State()), key, now, later)
      ensures value == if old(key in items && now - items[key].createdAt <= maxAge) then Some(old(items[key].value)) else None
    {
      Lookup(items, order, stored, contents, key);
      if key !in items {
        misses := misses + 1;
        return None;
      }
      assert items[key].Entry().key == key;
      value := GetPresent(items[key], now, later);
    }

    method GetPresent(elem: Cell<V>, now: Time, later: Time) returns (value: Option<V>)
      requires Valid() && elem in order
      modifies `items, `order, `currentSize, `hits, `misses, `contents, `stored, elem`accessedAt
      ensures Valid() && stored.Keys == old(stored.Keys)
      ensures (State(), value) == M.DoGet(Config(), old(State()), elem.key, now, later)
      ensures value == if now - elem.createdAt <= maxAge then Some(old(elem.value)) else None
    {
      ghost var i := Find(elem);
      if now - elem.createdAt > maxAge {
        RemoveElement(elem, i);
        misses := misses + 1;
        return None;
      }
      Hit(elem, later);
      return Some(elem.value);
    }

    method Hit(elem: Cell<V>, later: Time)
      requires Valid() && elem in order
      modifies `order, `hits, `contents, `stored, elem`accessedAt
      ensures Valid() && stored.Keys == old(stored.Keys) && hits == old(hits) + 1
      ensures var i := M.Position(old(contents), elem.key);
              i < |old(contents)| && old(contents)[i] == old(elem.Entry())
              && contents == if policy.LRU? then [old(contents)[i].(accessedAt := later)] + M.RemoveAt(old(contents), i)
                             else old(contents)
    {
      if policy.LRU? {
        Touch(elem, later);
      } else {
        var _ := Find(elem);
      }
      hits := hits + 1;
    }

    /** Records an access under LRU: the entry moves to the front. */
    method Touch(elem: Cell<V>, now: Time)
      requires Valid() && elem in order
      modifies `order, `contents, `stored, elem`accessedAt
      ensures Valid() && stored.Keys == old(stored.Keys) && elem.Entry() == old(elem.Entry()).(accessedAt := now)
      ensures var i := M.Position(old(contents), elem.key);
              i < |old(contents)| && old(contents)[i] == old(elem.Entry())
              && contents == [elem.Entry()] + M.RemoveAt(old(contents), i)
    {
      var i := Find(elem);
      Refresh(items, order, stored, contents, i, contents[i].(accessedAt := now));
      elem.accessedAt := now;
      contents, stored := contents[i := elem.Entry()], stored[elem := elem.Entry()];
      MoveToFront(i);
    }

    method Set(key: string, value: V, size: int, now: Time)
      requires Valid()
      modifies this, stored.Keys
      ensures Valid() && fresh(stored.Keys - old(stored.Keys))
      ensures State() == M.DoSet(Config(), old(State()), key, value, size, now)
    {
      Lookup(items, order, stored, contents, key);
      if key in items {
        assert items[key].Entry().key == key;
        Overwrite(items[key], value, size, now);
      } else {
        Add(key, value, size, now);
      }
    }

    /** Stores a value under a new key, after making room for it. */
    method Add(key: string, value: V, size: int, now: Time)
      requires Valid() && key !in items
      modifies `items, `order, `currentSize, `contents, `evictions, `stored
      ensures Valid() && fresh(stored.Keys - old(stored.Keys))
      ensures State() == M.DoSet(Config(), old(State()), key, value, size, now)
    {
      hide Linked, Keys, M.Sum, M.Kept;
      Lookup(items, order, stored, contents, key);
      KeysLinked(items, order, stored, contents);
      EvictIfNeeded(size);
      KeysOfKept(policy, old(contents), M.KeepCount(Config(), old(contents), size, maxSize));
      KeysLinked(items, order, stored, contents);
      var elem := new Cell(key, value, size, now);
      Insert(elem);
    }

    /** Stores a value under a key that is present; nothing is evicted, whatever the new size. */
    method Overwrite(elem: Cell<V>, value: V, size: int, now: Time)
      requires Valid() && elem in order
      modifies `order, `contents, `stored, `currentSize, elem
      ensures Valid() && stored.Keys == old(stored.Keys)
      ensures State() == M.DoSet(Config(), old(State()), elem.key, value, size, now)
    {
      var i := Find(elem);
      Rewrite(elem, i, value, size, now);
      if policy.LRU? {
        MoveToFront(i);
      }
    }

    /** Writes the new fields of the cell at position i of the list. */
    method Rewrite(elem: Cell<V>, ghost i: nat, value: V, size: int, now: Time)
      requires Valid() && i < |order| && order[i] == elem
      modifies `contents, `stored, `currentSize, elem
      ensures Valid() && stored.Keys == old(stored.Keys)
      ensures contents == old(contents)[i := old(contents)[i].(value := value, size := size, accessedAt := now)]
      ensures M.RemoveAt(contents, i) == M.RemoveAt(old(contents), i)
    {
      assert Placed(items, order, stored, contents, i);
      assert stored[elem] == elem.Entry();
      Refresh(items, order, stored, contents, i, contents[i].(value := value, size := size, accessedAt := now));
      currentSize := currentSize - elem.size;
      elem.value := value;
      elem.size := size;
      elem.accessedAt := now;
      currentSize := currentSize + size;
      contents, stored := contents[i := elem.Entry()], stored[elem := elem.Entry()];
    }

    /** Adds a new cell at the end of the list where the policy puts the newest entry. */
    method Insert(elem: Cell<V>)
      requires Valid() && elem.key !in items && elem !in stored
      modifies `items, `order, `currentSize, `contents, `stored
      ensures Valid() && stored.Keys == old(stored.Keys) + {elem}
      ensures contents == if policy.LRU? then [elem.Entry()] + old(contents) else old(contents) + [elem.Entry()]
    {
      M.SumConcat([elem.Entry()], contents);
      M.SumConcat(contents, [elem.Entry()]);
      StoredMore(items, order, stored, contents, elem, elem.Entry());
      stored := stored[elem := elem.Entry()];
      if policy.LRU? {
        LinkFront(items, order, stored, contents, elem);
      } else {
        LinkBack(items, order, stored, contents, elem);
      }
      items := items[elem.key := elem];
      order := if policy.LRU? then [elem] + order else order + [elem];
      contents := if policy.LRU? then [elem.Entry()] + contents else contents + [elem.Entry()];
      currentSize := currentSize + elem.size;
    }

    method Delete(key: string)
      requires Valid()
      modifies `items, `order, `currentSize, `contents
      ensures Valid() && State() == M.DoDelete(old(State()), key)
    {
      Lookup(items, order, stored, contents, key);
      if key in items {
        RemoveElement(items[key], M.Position(contents, key));
      }
    }

    method EvictOne()
      requires Valid()
      modifies `items, `order, `currentSize, `contents, `evictions
      ensures Valid()
      ensures var n := |old(contents)|;
              if n == 0 then State() == old(State())
              else contents == M.Kept(policy, old(contents), n - 1) && evictions == old(evictions) + 1
    {
      if |order| > 0 {
        var i := if policy.LRU? then |order| - 1 else 0;
        KeptShrinks(policy, contents);
        RemoveElement(order[i], i);
        evictions := evictions + 1;
      }
    }

    /** Evicts until the entries and newSize more bytes fit, or nothing is left. */
    method EvictForSize(newSize: int)
      requires Valid()
      modifies `items, `order, `currentSize, `contents, `evictions
      ensures Valid()
      ensures var k := M.SizeFit(policy, old(contents), newSize, maxSize, |old(contents)|);
              contents == M.Kept(policy, old(contents), k) && evictions == old(evictions) + (|old(contents)| - k)
    {
      hide Keys, M.Position;
      ghost var start := contents;
      KeptAll(policy, start);
      while currentSize + newSize > maxSize && |order| > 0
        invariant Valid() && |contents| <= |start|
        invariant contents == M.Kept(policy, start, |contents|) && evictions == old(evictions) + (|start| - |contents|)
        invariant M.SizeFit(policy, start, newSize, maxSize, |start|) == M.SizeFit(policy, start, newSize, maxSize, |contents|)
        decreases |order|
      {
        KeptOfKept(policy, start, |contents|);
        EvictOne();
      }
    }

    method EvictIfNeeded(newSize: int)
      requires Valid()
      modifies `items, `order, `currentSize, `contents, `evictions
      ensures Valid()
      ensures var k := M.KeepCount(Config(), old(contents), newSize, maxSize);
              contents == M.Kept(policy, old(contents), k) && evictions == old(evictions) + (|old(contents)| - k)
    {
      hide Linked, M.Sum, M.SizeFit, M.Kept;
      EvictForSize(newSize);
      ghost var fit := M.SizeFit(policy, old(contents), newSize, maxSize, |old(contents)|);
      KeptTwice(policy, old(contents), fit, M.KeepCount(Config(), old(contents), newSize, maxSize));
      EvictForCount();
    }

    /** Evicts until one more entry fits. */
    method EvictForCount()
      requires Valid()
      modifies `items, `order, `currentSize, `contents, `evictions
      ensures Valid()
      ensures var n := |old(contents)|;
              var k := if n >= maxEntries then maxEntries - 1 else n;
              contents == M.Kept(policy, old(contents), k) && evictions == old(evictions) + (n - k)
    {
      hide Keys, M.Sum, M.Position;
      ghost var start := contents;
      KeptAll(policy, start);
      while |order| >= maxEntries
        invariant Valid() && |contents| <= |start| && (|contents| == |start| || |contents| >= maxEntries - 1)
        invariant contents == M.Kept(policy, start, |contents|) && evictions == old(evictions) + (|start| - |contents|)
        decreases |order|
      {
        KeptOfKept(policy, start, |contents|);
        EvictOne();
      }
    }

    method RemoveIfExpired(elem: Cell<V>, ghost at: nat, now: Time) returns (expired: bool)
      requires Valid() && at < |order| && order[at] == elem
      modifies `items, `order, `currentSize, `contents
      ensures Valid() && expired == M.IsExpired(Config(), old(contents)[at], now)
      ensures contents == (if expired then M.RemoveAt(old(contents), at) else old(contents))
      ensures order == (if expired then M.RemoveAt(old(order), at) else old(order))
    {
      assert Placed(items, order, stored, contents, at);
      assert contents[at] == elem.Entry();
      expired := now - elem.createdAt > maxAge;
      if expired {
        RemoveElement(elem, at);
      }
    }

    /** Cleanup has seen the first `seen` entries of its list; `at` of them are still there. */
    ghost predicate Walked(start: seq<M.Entry<V>>, seen: nat, at: nat, now: Time)
      reads this
    {
      && seen <= |start| && at <= |order| && |start| - seen == |order| - at
      && contents == PartlyCleaned(Config(), start, seen, now) && at == |M.Unexpired(Config(), start[..seen], now)|
    }

    lemma WalkStarts(now: Time)
      requires Valid()
      ensures Walked(contents, 0, 0, now)
    {
      CleanEnds(Config(), contents, now);
    }

    lemma WalkEnds(start: seq<M.Entry<V>>, seen: nat, now: Time)
      requires Walked(start, seen, |order|, now)
      ensures contents == M.Unexpired(Config(), start, now)
    {
      CleanEnds(Config(), start, now);
    }

    method VisitNext(ghost start: seq<M.Entry<V>>, ghost seen: nat, at: nat, now: Time) returns (expired: bool)
      requires Valid() && Walked(start, seen, at, now) && at < |order|
      modifies `items, `order, `currentSize, `contents
      ensures Valid() && Walked(start, seen + 1, if expired then at else at + 1, now)
      ensures |contents| == |old(contents)| - (if expired then 1 else 0)
    {
      CleanNext(Config(), start, seen, now);
      expired := RemoveIfExpired(order[at], at, now);
    }

    /** Removes the expired entries, each next element being known before the current one goes. */
    method Cleanup(now: Time) returns (cleaned: nat)
      requires Valid()
      modifies `items, `order, `currentSize, `contents
      ensures Valid() && contents == M.Unexpired(Config(), old(contents), now)
      ensures cleaned == |old(contents)| - |contents|
    {
      hide Linked, PartlyCleaned, M.Unexpired;
      cleaned := 0;
      var at := 0;
      ghost var start, seen := contents, 0;
      WalkStarts(now);
      while at < |order|
        invariant Valid() && Walked(start, seen, at, now)
        invariant cleaned == |start| - |contents|
        decreases |order| - at
      {
        var expired := VisitNext(start, seen, at, now);
        if expired {
          cleaned := cleaned + 1;
        } else {
          at := at + 1;
        }
        seen := seen + 1;
      }
      WalkEnds(start, seen, now);
    }

    method ReduceSize(percent: int)
      requires Valid()
      modifies `maxSize, `items, `order, `currentSize, `contents, `evictions
      ensures Valid() && State() == M.DoReduce(Config(), old(State()), percent)
    {
      var reduction := M.TruncatedQuotient(maxSize * percent, 100);
      maxSize := maxSize - reduction;
      EvictForSize(0);
    }

    method Clear()
      requires Valid()
      modifies `items, `order, `currentSize, `contents
      ensures Valid() && State() == old(State()).(entries := [])
    {
      items := map[];
      order := [];
      contents := [];
      currentSize := 0;
    }

    // -------------------------------------------------------------- inspection

    method Size() returns (n: int)
      requires Valid()
      ensures n == M.Sum(State().entries)
    {
      n := currentSize;
    }

    /** The map is counted; the list has as many elements. */
    method Len() returns (n: nat)
      requires Valid()
      ensures n == |State().entries| == |order|
    {
      LinkedIsDistinct(items, order, stored, contents);
      KeysCounted(contents);
      n := |items|;
      assert |items| == |items.Keys|;
    }
  }
}
