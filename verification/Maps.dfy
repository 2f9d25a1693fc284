/** Walking over the keys of a map and deleting the stale ones. */
module Maps {
  /** What is left of the map when the keys in `unseen` are still to be visited. */
  ghost function Swept<K, T>(m: map<K, T>, stale: set<K>, unseen: set<K>): map<K, T> {
    map k | k in m && (k in unseen || k !in stale) :: m[k]
  }

  lemma SweepStale<K, T>(m: map<K, T>, stale: set<K>, unseen: set<K>, k: K)
    requires k in m && k in unseen && k in stale
    ensures Swept(m, stale, unseen - {k}) == Swept(m, stale, unseen) - {k}
    ensures |Swept(m, stale, unseen - {k})| == |Swept(m, stale, unseen)| - 1
  {
    var before, after := Swept(m, stale, unseen), Swept(m, stale, unseen - {k});
    assert after.Keys == before.Keys - {k} && k in before;
    assert |after| == |after.Keys| && |before| == |before.Keys|;
  }

  lemma SweepFresh<K, T>(m: map<K, T>, stale: set<K>, unseen: set<K>, k: K)
    requires k !in stale
    ensures Swept(m, stale, unseen - {k}) == Swept(m, stale, unseen)
  {
  }

  lemma SweepStarts<K, T>(m: map<K, T>, stale: set<K>)
    ensures Swept(m, stale, m.Keys) == m
  {
  }

  lemma SweepEnds<K, T>(m: map<K, T>, stale: set<K>)
    ensures Swept(m, stale, {}) == map k | k in m && k !in stale :: m[k]
  {
  }

  lemma Unseen<K, T>(m: map<K, T>, stale: set<K>, unseen: set<K>, k: K)
    requires k in m && k in unseen
    ensures k in Swept(m, stale, unseen) && Swept(m, stale, unseen)[k] == m[k]
  {
  }
}
