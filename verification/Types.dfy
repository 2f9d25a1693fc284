/** Identifiers shared by the pipeline layers, and the string keys that isolate the state of
    one (scenario, resource) pair from every other. */
module Types {

  datatype Option<+T> = None | Some(value: T)

  /** Instants are nanoseconds since the zero value of Go's time.Time, which is instant 0. */
  type Time = nat

  const MILLI: nat := 1_000_000
  const SECOND: nat := 1_000_000_000
  const MINUTE: nat := 60 * SECOND

  datatype ResourceReference = ResourceReference(
    apiVersion: string, kind: string, ns: string, name: string, uid: string)
  {
    function Key(): string {
      kind + "/" + ns + "/" + name
    }
  }

  function StateKey(scenarioID: string, resource: ResourceReference): string {
    scenarioID + "/" + resource.Key()
  }

  /** The text before the first '/' and the text after it are determined by the whole. */
  lemma FirstSlashSplits(a: string, x: string, b: string, y: string)
    requires '/' !in a && '/' !in b
    requires a + "/" + x == b + "/" + y
    ensures a == b && x == y
  {
    var s, t := a + "/" + x, b + "/" + y;
    assert s[|a|] == '/' && t[|b|] == '/';
    assert forall i :: 0 <= i < |a| ==> s[i] == a[i] && a[i] != '/';
    assert forall i :: 0 <= i < |b| ==> t[i] == b[i] && b[i] != '/';
    assert |a| == |b|;
    assert a == s[..|a|] == t[..|b|] == b;
    assert x == s[|a| + 1..] && y == t[|b| + 1..];
  }

  /** Two pairs share state exactly when they agree on scenario, kind, namespace and name,
      provided the first three parts are free of the separator. The apiVersion and the uid
      never matter, so a recreated resource keeps its state. */
  lemma StateKeyInjective(s: string, r: ResourceReference, s': string, r': ResourceReference)
    requires '/' !in s && '/' !in r.kind && '/' !in r.ns
    requires '/' !in s' && '/' !in r'.kind && '/' !in r'.ns
    ensures StateKey(s, r) == StateKey(s', r')
       <==> s == s' && r.kind == r'.kind && r.ns == r'.ns && r.name == r'.name
  {
    if StateKey(s, r) == StateKey(s', r') {
      FirstSlashSplits(s, r.Key(), s', r'.Key());
      assert r.Key() == r.kind + "/" + (r.ns + "/" + r.name);
      assert r'.Key() == r'.kind + "/" + (r'.ns + "/" + r'.name);
      FirstSlashSplits(r.kind, r.ns + "/" + r.name, r'.kind, r'.ns + "/" + r'.name);
      FirstSlashSplits(r.ns, r.name, r'.ns, r'.name);
    }
  }

  /** Scenario identifiers and kinds never contain the separator, but namespaces and names are free
      text: then exactly the joined namespace and name matter besides them. */
  lemma StateKeyEqualIff(s: string, r: ResourceReference, s': string, r': ResourceReference)
    requires '/' !in s && '/' !in r.kind && '/' !in s' && '/' !in r'.kind
    ensures StateKey(s, r) == StateKey(s', r')
       <==> s == s' && r.kind == r'.kind && r.ns + "/" + r.name == r'.ns + "/" + r'.name
  {
    assert r.Key() == r.kind + "/" + (r.ns + "/" + r.name);
    assert r'.Key() == r'.kind + "/" + (r'.ns + "/" + r'.name);
    if StateKey(s, r) == StateKey(s', r') {
      FirstSlashSplits(s, r.Key(), s', r'.Key());
      FirstSlashSplits(r.kind, r.ns + "/" + r.name, r'.kind, r'.ns + "/" + r'.name);
    }
  }

  /** The first text goes on with a separator after the second: ns == other + "/" + more. */
  predicate Extends(ns: string, other: string) {
    |ns| > |other| && ns[..|other|] == other && ns[|other|] == '/'
  }

  predicate Collide(ns: string, name: string, ns': string, name': string) {
    ns + "/" + name == ns' + "/" + name'
  }

  lemma CollisionExtends(ns: string, name: string, ns': string, name': string)
    requires Collide(ns, name, ns', name') && |ns| > |ns'|
    ensures Extends(ns, ns')
  {
    var whole := ns + "/" + name;
    assert whole == ns' + "/" + name';
    assert ns == whole[..|ns|] && ns' == whole[..|ns'|];
    assert whole[|ns'|] == '/';
  }

  lemma EqualLengthsAgree(ns: string, name: string, ns': string, name': string)
    requires Collide(ns, name, ns', name') && |ns| == |ns'|
    ensures ns == ns' && name == name'
  {
    var whole := ns + "/" + name;
    assert whole == ns' + "/" + name';
    assert ns == whole[..|ns|] && ns' == whole[..|ns|];
    assert name == whole[|ns| + 1..] && name' == whole[|ns| + 1..];
  }

  lemma ExtensionCollides(ns: string, ns': string)
    requires Extends(ns, ns')
    ensures Collide(ns, "x", ns', ns[|ns'| + 1..] + "/x")
  {
    assert ns == ns' + "/" + ns[|ns'| + 1..];
  }

  /** Some resources of one kind in two namespaces share the state of a scenario exactly when one
      namespace extends the other by a separator. */
  lemma NamespacesCollideIff(ns: string, ns': string)
    requires ns != ns'
    ensures (exists name, name' :: Collide(ns, name, ns', name')) <==> Extends(ns, ns') || Extends(ns', ns)
  {
    if name, name' :| Collide(ns, name, ns', name') {
      if |ns| > |ns'| {
        CollisionExtends(ns, name, ns', name');
      } else if |ns| < |ns'| {
        CollisionExtends(ns', name', ns, name);
      } else {
        EqualLengthsAgree(ns, name, ns', name');
      }
    }
    if Extends(ns, ns') {
      ExtensionCollides(ns, ns');
    }
    if Extends(ns', ns) {
      ExtensionCollides(ns', ns);
      assert Collide(ns, ns'[|ns| + 1..] + "/x", ns', "x");
    }
  }

  /** Two resources of every scenario that share its state: "c" in "a/b" and "b/c" in "a". */
  lemma StateKeyCollision(scenarioID: string, kind: string, apiVersion: string, uid: string, uid': string)
    ensures StateKey(scenarioID, ResourceReference(apiVersion, kind, "a/b", "c", uid))
         == StateKey(scenarioID, ResourceReference(apiVersion, kind, "a", "b/c", uid'))
  {
    var r := ResourceReference(apiVersion, kind, "a/b", "c", uid);
    var r' := ResourceReference(apiVersion, kind, "a", "b/c", uid');
    assert r.ns + "/" + r.name == "a/b/c" == r'.ns + "/" + r'.name;
    assert r.Key() == kind + "/" + (r.ns + "/" + r.name);
    assert r'.Key() == kind + "/" + (r'.ns + "/" + r'.name);
  }
}
