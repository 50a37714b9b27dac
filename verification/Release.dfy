/** Giving back the namespaces that leave a group: which they are, what happens to each, and what
    the group still has to remember afterwards. */
module Release {
  import opened Common
  import opened ReplicaMap

  /** What the group knows when it releases: its name, what it managed at its last pass, who owns
      each namespace now, the namespaces leaving, and the positions whose restore or handover succeeds. */
  datatype Leaving = Leaving(name: string, managed: seq<string>, owners: map<string, string>,
                             departed: seq<string>, granted: set<nat>)

  /** Another group owns ns. */
  predicate TakenOver(owners: map<string, string>, name: string, ns: string) { ns in owners && owners[ns] != name }

  /** The members an older group owns, which this group must not touch. */
  function Conflicting(members: seq<string>, owners: map<string, string>, name: string): (r: seq<string>)
    ensures forall ns :: ns in r <==> ns in members && TakenOver(owners, name, ns)
  {
    if members == [] then [] else
      assert members == [members[0]] + members[1..];
      (if TakenOver(owners, name, members[0]) then [members[0]] else []) + Conflicting(members[1..], owners, name)
  }

  /** The sorted list of a set. */
  ghost function SortedSet(s: set<string>): (r: seq<string>)
    ensures Ascending(r) && forall x :: x in r <==> x in s
  {
    var r := Enumerate(s);
    SortStringsKeeps(r);
    Compact(SortStrings(r))
  }

  ghost function Enumerate(s: set<string>): (r: seq<string>)
    ensures forall x :: x in r <==> x in s
  {
    if s == {} then [] else var x :| x in s; [x] + Enumerate(s - {x})
  }

  /** The namespaces managed or holding counts that are neither members nor already leaving. */
  ghost function Removed(managed: seq<string>, m: Flat, members: seq<string>, already: seq<string>): (r: seq<string>)
    ensures Ascending(r)
    ensures forall ns :: ns in r <==> (ns in managed || ns in Namespaces(m)) && ns !in members && ns !in already
  {
    SortedSet(set ns | ns in (set x | x in managed) + Namespaces(m) && ns !in members && ns !in already)
  }

  method RemovedNamespaces(managed: seq<string>, m: Flat, members: seq<string>, already: seq<string>)
      returns (out: seq<string>)
    ensures out == Removed(managed, m, members, already)
  {
    var candidates := managed;
    var keys := m.Keys;
    while keys != {}
      invariant keys <= m.Keys
      invariant forall ns :: ns in candidates <==>
                  ns in managed || exists k :: k in m.Keys - keys && '/' in k && NamespaceOf(k) == ns
      decreases |keys|
    {
      var k :| k in keys;
      keys := keys - {k};
      if '/' in k { candidates := candidates + [NamespaceOf(k)]; }
    }
    assert forall ns :: ns in candidates <==> ns in managed || ns in Namespaces(m);
    out := [];
    for i := 0 to |candidates|
      invariant Distinct(out)
      invariant forall ns :: ns in out <==> ns in candidates[..i] && ns !in members && ns !in already
    {
      var ns := candidates[i];
      if !(ns in members || ns in already || ns in out) { out := out + [ns]; }
    }
    assert candidates[..|candidates|] == candidates;
    ghost var listed := out;
    out := SortStrings(out);
    SortStringsKeeps(listed);
    SortedDistinct(out, listed);
    AscendingUnique(out, Removed(managed, m, members, already));
  }

  // ---- one release after the other

  /** The replica counts left and the namespaces to try again. */
  datatype Ledger = Ledger(counts: Flat, unreleased: seq<string>)

  /** The group managed ns at its last pass or holds counts there. */
  predicate WasManaged(managed: seq<string>, m: Flat, ns: string) { ns in managed || Originals(m, ns) != map[] }

  /** Whether the k-th namespace leads to a restore or handover at all. */
  predicate Attempted(l: Leaving, m: Flat, k: nat)
    requires k < |l.departed|
  {
    TakenOver(l.owners, l.name, l.departed[k]) ==> WasManaged(l.managed, m, l.departed[k])
  }

  /** The ledger after the first i namespaces. */
  function Released(l: Leaving, m: Flat, i: nat): Ledger
    requires i <= |l.departed|
    decreases i
  {
    if i == 0 then Ledger(m, [])
    else
      var before := Released(l, m, i - 1);
      var ns := l.departed[i - 1];
      if !Attempted(l, before.counts, i - 1) then before
      else if i - 1 in l.granted then before.(counts := Forget(before.counts, ns))
      else before.(unreleased := before.unreleased + [ns])
  }

  lemma ReleasedFrom(l: Leaving, m: Flat)
    ensures Released(l, m, 0) == Ledger(m, [])
  {
  }

  lemma ReleasedThen(l: Leaving, m: Flat, i: nat, before: Ledger)
    requires i < |l.departed| && before == Released(l, m, i)
    ensures Released(l, m, i + 1) ==
            if !Attempted(l, before.counts, i) then before
            else if i in l.granted then Ledger(Forget(before.counts, l.departed[i]), before.unreleased)
            else Ledger(before.counts, before.unreleased + [l.departed[i]])
  {
    hide Attempted, Forget;
  }

  /** The k-th namespace was restored or handed over. */
  predicate LetGo(l: Leaving, m: Flat, k: nat)
    requires k < |l.departed|
  {
    Attempted(l, Released(l, m, k).counts, k) && k in l.granted
  }

  /** One of the first i departures let ns go. */
  predicate LetGoBy(l: Leaving, m: Flat, i: nat, ns: string)
    requires i <= |l.departed|
    decreases i
  {
    i > 0 && (LetGoBy(l, m, i - 1, ns) || (l.departed[i - 1] == ns && LetGo(l, m, i - 1)))
  }

  lemma {:induction false} LetGoWhere(l: Leaving, m: Flat, i: nat, ns: string) returns (k: nat)
    requires i <= |l.departed| && LetGoBy(l, m, i, ns)
    ensures k < i && l.departed[k] == ns && LetGo(l, m, k)
    decreases i
  {
    if l.departed[i - 1] == ns && LetGo(l, m, i - 1) { k := i - 1; } else { k := LetGoWhere(l, m, i - 1, ns); }
  }

  ghost predicate AllSlashFree(names: seq<string>) { forall k | 0 <= k < |names| :: SlashFree(names[k]) }

  /** Counts of a namespace change only by letting exactly that namespace go. */
  lemma {:induction false} CountsOf(l: Leaving, m: Flat, i: nat, ns: string)
    requires i <= |l.departed| && AllSlashFree(l.departed) && SlashFree(ns)
    ensures LetGoBy(l, m, i, ns) ==> Originals(Released(l, m, i).counts, ns) == map[]
    ensures !LetGoBy(l, m, i, ns) ==> Originals(Released(l, m, i).counts, ns) == Originals(m, ns)
    decreases i
  {
    hide Originals, Attempted, Forget, LetGo, SlashFree;
    if i == 0 {
    } else {
      CountsOf(l, m, i - 1, ns);
      CountsNext(l, m, i, ns);
    }
  }

  lemma CountsNext(l: Leaving, m: Flat, i: nat, ns: string)
    requires 0 < i <= |l.departed| && SlashFree(l.departed[i - 1]) && SlashFree(ns)
    ensures Originals(Released(l, m, i).counts, ns) ==
            if LetGo(l, m, i - 1) && l.departed[i - 1] == ns then map[] else Originals(Released(l, m, i - 1).counts, ns)
  {
    ReleasedNext(l, m, i);
    ForgetLookup(Released(l, m, i - 1).counts, l.departed[i - 1], ns);
  }

  lemma ReleasedNext(l: Leaving, m: Flat, i: nat)
    requires 0 < i <= |l.departed|
    ensures var before, after := Released(l, m, i - 1).counts, Released(l, m, i).counts;
            after == if LetGo(l, m, i - 1) then Forget(before, l.departed[i - 1]) else before
  {
  }

  /** A departing namespace the group managed or holds counts for is restored, handed over, or
      queued for another try. */
  lemma {:induction false} LetGoOrQueued(l: Leaving, m: Flat, i: nat, ns: string)
    requires i <= |l.departed| && AllSlashFree(l.departed)
    requires ns in l.departed[..i] && WasManaged(l.managed, m, ns)
    ensures LetGoBy(l, m, i, ns) || ns in Released(l, m, i).unreleased
    decreases i
  {
    if l.departed[i - 1] == ns {
      LetGoOrQueuedNow(l, m, i, ns);
    } else {
      assert l.departed[..i] == l.departed[..i - 1] + [l.departed[i - 1]];
      LetGoOrQueued(l, m, i - 1, ns);
    }
  }

  lemma LetGoOrQueuedNow(l: Leaving, m: Flat, i: nat, ns: string)
    requires 0 < i <= |l.departed| && AllSlashFree(l.departed)
    requires l.departed[i - 1] == ns && WasManaged(l.managed, m, ns)
    ensures LetGoBy(l, m, i, ns) || ns in Released(l, m, i).unreleased
  {
    hide Originals, Forget, SlashFree;
    CountsOf(l, m, i - 1, ns);
    if !LetGoBy(l, m, i - 1, ns) {
      assert Attempted(l, Released(l, m, i - 1).counts, i - 1);
    }
  }

  /** Only departing namespaces are queued. */
  lemma {:induction false} QueuedDeparted(l: Leaving, m: Flat, i: nat)
    requires i <= |l.departed|
    ensures forall ns | ns in Released(l, m, i).unreleased :: ns in l.departed
    decreases i
  {
    if i == 0 {
    } else {
      QueuedDeparted(l, m, i - 1);
    }
  }

  /** After the release, every count left in a departing namespace is queued for another try. */
  lemma {:induction false} CountsQueued(l: Leaving, m: Flat, ns: string)
    requires AllSlashFree(l.departed) && SlashFree(ns)
    requires ns in l.departed && Originals(Released(l, m, |l.departed|).counts, ns) != map[]
    ensures ns in Released(l, m, |l.departed|).unreleased
  {
    var n := |l.departed|;
    assert l.departed[..n] == l.departed;
    CountsOf(l, m, n, ns);
    LetGoOrQueued(l, m, n, ns);
  }

  lemma {:induction false} ReleasedWellKeyed(l: Leaving, m: Flat, i: nat)
    requires i <= |l.departed| && WellKeyed(m)
    ensures WellKeyed(Released(l, m, i).counts)
    decreases i
  {
    if i == 0 {
    } else {
      ReleasedWellKeyed(l, m, i - 1);
      StaysWellKeyed(Released(l, m, i - 1).counts, l.departed[i - 1], map[]);
    }
  }

  /** The namespaces managed after the release: members another group does not own, and those
      still to be released. */
  function ManagedAfter(members: seq<string>, conflicting: seq<string>, unreleased: seq<string>): (r: seq<string>)
    ensures Ascending(r)
    ensures forall ns :: ns in r <==> (ns in members || ns in unreleased) && ns !in conflicting
  {
    var kept := Without(members + unreleased, conflicting);
    SortStringsKeeps(kept);
    Compact(SortStrings(kept))
  }

  method ManagedNamespaces(members: seq<string>, conflicting: seq<string>, unreleased: seq<string>)
      returns (out: seq<string>)
    ensures out == ManagedAfter(members, conflicting, unreleased)
  {
    var all := members + unreleased;
    out := [];
    for i := 0 to |all|
      invariant Distinct(out)
      invariant forall ns :: ns in out <==> ns in all[..i] && ns !in conflicting
    {
      if all[i] !in conflicting && all[i] !in out { out := out + [all[i]]; }
    }
    ghost var listed := out;
    out := SortStrings(out);
    SortStringsKeeps(listed);
    SortedDistinct(out, listed);
    AscendingUnique(out, ManagedAfter(members, conflicting, unreleased));
  }

  /** A namespace another group owns, that this one neither managed nor holds counts for, was never
      this group's: the release does nothing to it. */
  lemma {:induction false} ForeignUntouched(l: Leaving, m: Flat, i: nat, ns: string)
    requires i <= |l.departed| && AllSlashFree(l.departed) && SlashFree(ns)
    requires TakenOver(l.owners, l.name, ns) && !WasManaged(l.managed, m, ns)
    ensures !LetGoBy(l, m, i, ns) && ns !in Released(l, m, i).unreleased
    decreases i
  {
    hide Originals, Forget, SlashFree, Attempted, Released, WasManaged, TakenOver, LetGo;
    if i == 0 {
      ReleasedFrom(l, m);
    } else {
      ForeignUntouched(l, m, i - 1, ns);
      CountsOf(l, m, i - 1, ns);
      ReleasedThen(l, m, i - 1, Released(l, m, i - 1));
      if l.departed[i - 1] == ns { ForeignSkipped(l, m, i - 1); }
    }
  }

  lemma ForeignSkipped(l: Leaving, m: Flat, k: nat)
    requires k < |l.departed| && TakenOver(l.owners, l.name, l.departed[k]) && !WasManaged(l.managed, m, l.departed[k])
    requires Originals(Released(l, m, k).counts, l.departed[k]) == Originals(m, l.departed[k])
    ensures !Attempted(l, Released(l, m, k).counts, k) && !LetGo(l, m, k)
  {
    hide Originals, Released, TakenOver;
  }

  /** A departing namespace nobody else owns is let go or queued, tracked or not. */
  lemma {:induction false} UnownedLetGoOrQueued(l: Leaving, m: Flat, i: nat, ns: string)
    requires i <= |l.departed| && ns in l.departed[..i]
    requires !(ns in l.owners && l.owners[ns] != l.name)
    ensures LetGoBy(l, m, i, ns) || ns in Released(l, m, i).unreleased
    decreases i
  {
    hide Forget, WasManaged;
    if l.departed[i - 1] == ns {
      assert Attempted(l, Released(l, m, i - 1).counts, i - 1);
    } else {
      assert l.departed[..i] == l.departed[..i - 1] + [l.departed[i - 1]];
      UnownedLetGoOrQueued(l, m, i - 1, ns);
    }
  }
}
