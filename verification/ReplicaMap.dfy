/** The replica counts of a group: one flat map keyed "namespace/Kind/Name", and the map of maps
    it stands for. */
module ReplicaMap {
  import opened Common

  type Flat = map<string, int>
  type Workloads = map<string, int>

  predicate SlashFree(ns: string) { '/' !in ns }

  /** Everything up to the first slash; the whole key when there is none. */
  function NamespaceOf(key: string): (ns: string)
    ensures SlashFree(ns) && ns <= key
    ensures '/' in key ==> ns + "/" <= key
    ensures '/' !in key ==> ns == key
  {
    if key == [] || key[0] == '/' then []
    else
      var rest := NamespaceOf(key[1..]);
      assert key == [key[0]] + key[1..];
      [key[0]] + rest
  }

  /** The key of a workload. */
  function Key(ns: string, workload: string): string { ns + "/" + workload }

  /** `strings.HasPrefix(k, ns+"/")`. */
  predicate Under(ns: string, k: string) { ns + "/" <= k }

  /** `strings.CutPrefix(k, ns+"/")`. */
  function Rest(ns: string, k: string): (w: string)
    requires Under(ns, k)
    ensures Key(ns, w) == k
  {
    k[|ns| + 1..]
  }

  lemma KeyRest(ns: string, w: string)
    ensures Under(ns, Key(ns, w)) && Rest(ns, Key(ns, w)) == w && '/' in Key(ns, w)
  {
    assert Key(ns, w)[|ns|] == '/';
  }

  /** Under a slash-free namespace, sharing the prefix is belonging to the namespace. */
  lemma {:induction false} PrefixIsNamespace(key: string, ns: string)
    requires SlashFree(ns)
    ensures Under(ns, key) <==> '/' in key && NamespaceOf(key) == ns
  {
    if key == [] {
    } else {
      assert key == [key[0]] + key[1..];
      assert Under(ns, key) ==> (ns + "/")[0] == key[0];
      if key[0] != '/' && ns != [] && ns[0] == key[0] {
        PrefixIsNamespace(key[1..], ns[1..]);
        assert ns == [ns[0]] + ns[1..] && ns + "/" == [ns[0]] + (ns[1..] + "/");
      }
    }
  }

  /** Slash-free namespaces never share a key. */
  lemma KeysApart(ns: string, other: string, w: string)
    requires SlashFree(ns) && SlashFree(other)
    ensures Under(ns, Key(other, w)) <==> ns == other
  {
    KeyRest(other, w);
    PrefixIsNamespace(Key(other, w), ns);
    PrefixIsNamespace(Key(other, w), other);
  }

  ghost predicate WellKeyed(m: Flat) { forall k | k in m :: '/' in k }

  // ---- the operations on the flat map

  function Originals(m: Flat, ns: string): (r: Workloads)
    ensures forall w :: w in r <==> Key(ns, w) in m
    ensures forall w | w in r :: r[w] == m[Key(ns, w)]
  {
    assert forall w :: Under(ns, Key(ns, w)) && Rest(ns, Key(ns, w)) == w by {
      forall w ensures Under(ns, Key(ns, w)) && Rest(ns, Key(ns, w)) == w { KeyRest(ns, w); }
    }
    map w | w in (set k | k in m && Under(ns, k) :: Rest(ns, k)) :: m[Key(ns, w)]
  }

  function Forget(m: Flat, ns: string): Flat {
    map k | k in m && !Under(ns, k) :: m[k]
  }

  function Merge(m: Flat, ns: string, updated: Workloads): (r: Flat)
    ensures forall k :: k in r <==> if Under(ns, k) then Rest(ns, k) in updated else k in m
    ensures forall k | k in r :: r[k] == if Under(ns, k) then updated[Rest(ns, k)] else m[k]
  {
    assert forall w :: Under(ns, Key(ns, w)) && Rest(ns, Key(ns, w)) == w by {
      forall w ensures Under(ns, Key(ns, w)) && Rest(ns, Key(ns, w)) == w { KeyRest(ns, w); }
    }
    Forget(m, ns) + map k | k in (set w | w in updated :: Key(ns, w)) :: updated[Rest(ns, k)]
  }

  function Namespaces(m: Flat): set<string> {
    set k | k in m && '/' in k :: NamespaceOf(k)
  }

  // ---- the loops over the map

  method NamespaceOriginals(m: Flat, ns: string) returns (out: Workloads)
    ensures out == Originals(m, ns)
  {
    out := map[];
    var rest := m.Keys;
    while rest != {}
      invariant rest <= m.Keys
      invariant forall w :: w in out <==> Key(ns, w) in m && Key(ns, w) !in rest
      invariant forall w | w in out :: out[w] == m[Key(ns, w)]
      decreases |rest|
    {
      var k :| k in rest;
      rest := rest - {k};
      if Under(ns, k) {
        out := out[Rest(ns, k) := m[k]];
        forall w | Key(ns, w) == k ensures w == Rest(ns, k) { KeyRest(ns, w); }
      } else {
        forall w ensures Key(ns, w) != k { KeyRest(ns, w); }
      }
    }
  }

  method ForgetOriginals(m: Flat, ns: string) returns (out: Flat)
    ensures out == Forget(m, ns)
  {
    out := m;
    var rest := m.Keys;
    while rest != {}
      invariant rest <= m.Keys
      invariant forall k :: k in out <==> k in m && (k in rest || !Under(ns, k))
      invariant forall k | k in out :: out[k] == m[k]
      decreases |rest|
    {
      var k :| k in rest;
      rest := rest - {k};
      if Under(ns, k) { out := out - {k}; }
    }
  }

  // ---- the map of maps it refines

  /** One entry per namespace with counts. */
  function Nested(m: Flat): map<string, Workloads> {
    map ns | ns in Namespaces(m) :: Originals(m, ns)
  }

  ghost predicate Representable(n: map<string, Workloads>) {
    forall ns | ns in n :: SlashFree(ns) && n[ns] != map[]
  }

  /** A namespace is listed exactly when it has counts. */
  lemma ListedIffCounted(m: Flat, ns: string)
    requires SlashFree(ns)
    ensures ns in Namespaces(m) <==> Originals(m, ns) != map[]
  {
    if ns in Namespaces(m) {
      var key :| key in m && '/' in key && NamespaceOf(key) == ns;
      PrefixIsNamespace(key, ns);
      assert Rest(ns, key) in Originals(m, ns);
    }
    if w :| w in Originals(m, ns) {
      KeyRest(ns, w);
      PrefixIsNamespace(Key(ns, w), ns);
    }
  }

  /** namespaceOriginals is the nested lookup. */
  lemma LookupRefines(m: Flat, ns: string)
    requires SlashFree(ns)
    ensures Originals(m, ns) == if ns in Nested(m) then Nested(m)[ns] else map[]
  {
    ListedIffCounted(m, ns);
  }

  /** A nested map that answers every lookup as the flat map does is its nested map. */
  lemma SameLookups(m: Flat, n: map<string, Workloads>)
    requires Representable(n)
    requires forall ns | SlashFree(ns) :: Originals(m, ns) == if ns in n then n[ns] else map[]
    ensures Nested(m) == n
  {
    forall ns ensures ns in Nested(m) <==> ns in n {
      if SlashFree(ns) { ListedIffCounted(m, ns); }
    }
  }

  lemma NestedRepresentable(m: Flat)
    ensures Representable(Nested(m))
  {
    forall ns | ns in Nested(m) ensures SlashFree(ns) && Nested(m)[ns] != map[] {
      ListedIffCounted(m, ns);
    }
  }

  /** The flat map is recovered from the nested one: two well-keyed maps with the same nested
      map are the same map. */
  lemma NestedIsInjective(a: Flat, b: Flat)
    requires WellKeyed(a) && WellKeyed(b) && Nested(a) == Nested(b)
    ensures a == b
  {
    forall k | k in a || k in b ensures k in a && k in b && a[k] == b[k] {
      var ns := NamespaceOf(k);
      PrefixIsNamespace(k, ns);
      LookupRefines(a, ns);
      LookupRefines(b, ns);
      var w := Rest(ns, k);
      assert w in Originals(a, ns) <==> w in Originals(b, ns);
    }
  }

  lemma ForgetLookup(m: Flat, ns: string, other: string)
    requires SlashFree(ns) && SlashFree(other)
    ensures Originals(Forget(m, ns), other) == if other == ns then map[] else Originals(m, other)
  {
    var f := Originals(Forget(m, ns), other);
    forall w ensures w in f <==> other != ns && w in Originals(m, other) { KeysApart(ns, other, w); }
  }

  lemma MergeLookup(m: Flat, ns: string, updated: Workloads, other: string)
    requires SlashFree(ns) && SlashFree(other)
    ensures Originals(Merge(m, ns, updated), other) == if other == ns then updated else Originals(m, other)
  {
    var r := Originals(Merge(m, ns, updated), other);
    var want := if other == ns then updated else Originals(m, other);
    forall w ensures (w in r <==> w in want) && (w in r ==> r[w] == want[w]) {
      KeysApart(ns, other, w);
      KeyRest(other, w);
    }
  }

  /** forgetOriginals removes one namespace from the nested map and leaves the rest. */
  lemma ForgetRefines(m: Flat, ns: string)
    requires SlashFree(ns)
    ensures Nested(Forget(m, ns)) == Nested(m) - {ns}
  {
    NestedRepresentable(m);
    forall other | SlashFree(other)
      ensures Originals(Forget(m, ns), other) == if other in Nested(m) - {ns} then Nested(m)[other] else map[]
    {
      ForgetLookup(m, ns, other);
      LookupRefines(m, other);
    }
    SameLookups(Forget(m, ns), Nested(m) - {ns});
  }

  /** reconcileK8sTarget's merge replaces one namespace's counts and leaves the rest. */
  lemma MergeRefines(m: Flat, ns: string, updated: Workloads)
    requires SlashFree(ns)
    ensures Nested(Merge(m, ns, updated)) == if updated == map[] then Nested(m) - {ns} else Nested(m)[ns := updated]
  {
    NestedRepresentable(m);
    var want := if updated == map[] then Nested(m) - {ns} else Nested(m)[ns := updated];
    forall other | SlashFree(other)
      ensures Originals(Merge(m, ns, updated), other) == if other in want then want[other] else map[]
    {
      MergeLookup(m, ns, updated, other);
      LookupRefines(m, other);
    }
    SameLookups(Merge(m, ns, updated), want);
  }

  /** Both operations keep every key in the namespace/workload form. */
  lemma StaysWellKeyed(m: Flat, ns: string, updated: Workloads)
    requires WellKeyed(m)
    ensures WellKeyed(Forget(m, ns)) && WellKeyed(Merge(m, ns, updated))
  {
    forall k | k in Merge(m, ns, updated) ensures '/' in k {
      if Under(ns, k) { KeyRest(ns, Rest(ns, k)); }
    }
  }

  // ---- why namespace names must not contain a slash

  predicate Overlap(a: string, b: string) { Under(a, b + "/") || Under(b, a + "/") }

  /** Some key of b falls under a exactly when the names overlap. */
  lemma OverlapIsSharing(a: string, b: string, w: string)
    ensures Under(a, Key(b, w)) ==> Overlap(a, b)
  {
    var k := Key(b, w);
    if Under(a, k) {
      assert k[..|b| + 1] == b + "/";
      if |a| <= |b| {
        assert a + "/" == k[..|a| + 1] == k[..|b| + 1][..|a| + 1];
      } else {
        assert b + "/" == k[..|b| + 1] == k[..|a| + 1][..|b| + 1] && k[..|a| + 1] == a + "/";
      }
    }
  }

  lemma OverlapLoses(a: string, b: string)
    requires Overlap(a, b)
    ensures exists m: Flat :: Originals(Forget(m, a), b) != Originals(m, b)
  {
    var key := if Under(a, b + "/") then b + "/" else a + "/";
    assert Under(a, key) && Under(b, key);
    var w, m := Rest(b, key), map[key := 1];
    assert w in Originals(m, b) && w !in Originals(Forget(m, a), b);
  }

  lemma ApartSpares(a: string, b: string, m: Flat)
    requires !Overlap(a, b)
    ensures Originals(Forget(m, a), b) == Originals(m, b)
  {
    hide Overlap, Key, Under;
    forall w ensures !Under(a, Key(b, w)) { OverlapIsSharing(a, b, w); }
  }

  /** Forgetting one namespace leaves another's counts alone, whatever the counts are, exactly
      when neither name is the other followed by a slash. */
  lemma ForgetSparesExactly(a: string, b: string)
    ensures (forall m: Flat :: Originals(Forget(m, a), b) == Originals(m, b)) <==> !Overlap(a, b)
  {
    hide Forget, Originals;
    if Overlap(a, b) { OverlapLoses(a, b); } else {
      forall m: Flat ensures Originals(Forget(m, a), b) == Originals(m, b) { ApartSpares(a, b, m); }
    }
  }

  /** Slash-free names never overlap, so namespaces cannot lose each other's counts. */
  lemma SlashFreeNeverOverlap(a: string, b: string)
    requires SlashFree(a) && SlashFree(b)
    ensures Overlap(a, b) <==> a == b
  {
    KeysApart(a, b, "");
    KeysApart(b, a, "");
    assert Key(a, "") == a + "/" && Key(b, "") == b + "/";
  }
}
