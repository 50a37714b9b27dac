/** No namespace is lost: what every run keeps about the namespaces a group has scaled. */
module Bookkeeping {
  import opened Common
  import opened Release
  import opened ReplicaMap
  import opened Stages
  import opened Passes
  import opened Barrier

  /** The group manages ns or holds replica counts there. */
  predicate Tracks(st: Status, ns: string) { WasManaged(st.managed, st.originals, ns) }

  ghost predicate Clean(names: seq<string>) { forall ns | ns in names :: SlashFree(ns) }

  /** Namespace names contain no slash. */
  ghost predicate NamesClean(st: Status, p: Pass) {
    Clean(st.selected) && Clean(st.managed) && Clean(p.spec.namespaces) && Clean(p.matches)
  }

  /** Another group owns a namespace that is still a member of this one. */
  predicate Ceded(name: string, p: Pass, ns: string) { ns in MembersNow(p) && TakenOver(p.owners, name, ns) }

  /** The pass restored ns or handed it over. */
  ghost predicate GivenBack(name: string, st: Status, p: Pass, ns: string) {
    var l := LeavingNow(name, st, p);
    LetGoBy(l, st.originals, |l.departed|, ns)
  }

  lemma MembersClean(st: Status, p: Pass)
    requires NamesClean(st, p)
    ensures Clean(MembersNow(p))
  {
    hide SlashFree;
  }

  /** What departs: exactly what is no longer a member and was tracked or selected. */
  lemma Departures(name: string, st: Status, p: Pass, ns: string)
    requires NamesClean(st, p)
    ensures var departed := LeavingNow(name, st, p).departed;
            && AllSlashFree(departed)
            && (ns in departed ==> ns !in MembersNow(p))
            && (SlashFree(ns) ==> (ns in departed <==> ns !in MembersNow(p) && (Tracks(st, ns) || ns in st.selected)))
  {
    hide SlashFree, Originals;
    var left := Deselected(st, p);
    var removed := Removed(st.managed, st.originals, MembersNow(p), left);
    var departed := left + removed;
    assert LeavingNow(name, st, p).departed == departed;
    forall k | 0 <= k < |departed| ensures SlashFree(departed[k]) {
      assert departed[k] in left || departed[k] in removed;
    }
    if SlashFree(ns) { ListedIffCounted(st.originals, ns); }
  }

  // ---- the stages change counts only of the members they scale

  ghost predicate OnlyScales(p: Pass, stages: seq<seq<string>>, managed: seq<string>) {
    forall i, j | 0 <= i < |stages| && 0 <= j < |stages[i]| :: IsCloud(stages[i][j]) || stages[i][j] in managed
  }

  lemma StagesOnlyScale(name: string, p: Pass)
    ensures OnlyScales(p, StagesNow(name, p), Without(MembersNow(p), Skipped(name, p)))
  {
    hide StagesFor, MembersNow, Skipped, IsCloud;
    var managed := Without(MembersNow(p), Skipped(name, p));
    var stages := StagesNow(name, p);
    AscendingDistinct(MembersNow(p));
    WithoutDistinct(MembersNow(p), Skipped(name, p));
    forall i, j | 0 <= i < |stages| && 0 <= j < |stages[i]| ensures IsCloud(stages[i][j]) || stages[i][j] in managed {
      assert stages[i][j] in stages[i];
      StagedCount(p.spec.sequence, managed, p.active, stages[i][j]);
    }
  }

  lemma {:induction false} CountsInSpare(p: Pass, i: nat, stage: seq<string>, n: nat, m: Flat, ns: string)
    requires n <= |stage| && SlashFree(ns)
    requires forall j | 0 <= j < n :: IsCloud(stage[j]) || (SlashFree(stage[j]) && stage[j] != ns)
    ensures Originals(CountsIn(p, i, stage, n, m), ns) == Originals(m, ns)
    decreases n
  {
    hide Originals, CountsAfter, SlashFree, IsCloud;
    if n == 0 {
    } else {
      CountsInSpare(p, i, stage, n - 1, m, ns);
      CountsAfterSpare(p, i, n - 1, stage[n - 1], CountsIn(p, i, stage, n - 1, m), ns);
    }
  }

  lemma CountsAfterSpare(p: Pass, i: nat, j: nat, target: string, m: Flat, ns: string)
    requires SlashFree(ns) && (IsCloud(target) || (SlashFree(target) && target != ns))
    ensures Originals(CountsAfter(p, i, j, target, m), ns) == Originals(m, ns)
  {
    hide Originals, Merge, SlashFree, IsCloud;
    if !IsCloud(target) && EngineAt(p, i, j).EngineScaled? { MergeLookup(m, target, EngineAt(p, i, j).counts, ns); }
  }

  lemma CountsAfterTaken(p: Pass, i: nat, j: nat, ns: string, m: Flat)
    requires SlashFree(ns) && !IsCloud(ns)
    ensures Originals(CountsAfter(p, i, j, ns, m), ns) ==
            if EngineAt(p, i, j).EngineScaled? then EngineAt(p, i, j).counts else Originals(m, ns)
  {
    hide Originals, Merge, SlashFree, IsCloud;
    if EngineAt(p, i, j).EngineScaled? { MergeLookup(m, ns, EngineAt(p, i, j).counts, ns); }
  }

  /** Position (i, j) is the only one among the first k stages that scales ns. */
  ghost predicate OnlyAt(stages: seq<seq<string>>, k: nat, ns: string, i: nat, j: nat)
    requires k <= |stages|
  {
    && i < k && j < |stages[i]| && stages[i][j] == ns
    && forall a, b | 0 <= a < k && 0 <= b < |stages[a]| && stages[a][b] == ns :: a == i && b == j
  }

  lemma {:induction false} CountsInTaken(p: Pass, i: nat, stage: seq<string>, n: nat, m: Flat, ns: string, j: nat)
    requires j < n <= |stage| && SlashFree(ns) && !IsCloud(ns) && stage[j] == ns
    requires forall b | 0 <= b < n :: IsCloud(stage[b]) || (SlashFree(stage[b]) && (stage[b] == ns ==> b == j))
    ensures Originals(CountsIn(p, i, stage, n, m), ns) ==
            if EngineAt(p, i, j).EngineScaled? then EngineAt(p, i, j).counts else Originals(m, ns)
    decreases n
  {
    hide Originals, CountsAfter, EngineAt, SlashFree, IsCloud;
    var before := CountsIn(p, i, stage, n - 1, m);
    if j == n - 1 {
      CountsInSpare(p, i, stage, n - 1, m, ns);
      CountsAfterTaken(p, i, j, ns, before);
    } else {
      CountsInTaken(p, i, stage, n - 1, m, ns, j);
      CountsAfterSpare(p, i, n - 1, stage[n - 1], before, ns);
    }
  }

  /** A namespace the stages scale once holds afterwards what the engine answered for it, or its old
      counts if the engine failed. */
  lemma {:induction false} CountsTaken(p: Pass, stages: seq<seq<string>>, managed: seq<string>, k: nat, m: Flat,
      ns: string, i: nat, j: nat)
    requires k <= |stages| && OnlyScales(p, stages, managed) && Clean(managed)
    requires SlashFree(ns) && !IsCloud(ns) && OnlyAt(stages, k, ns, i, j)
    ensures Originals(CountsOver(p, stages, k, m), ns) ==
            if EngineAt(p, i, j).EngineScaled? then EngineAt(p, i, j).counts else Originals(m, ns)
    decreases k
  {
    hide Originals, CountsIn, SlashFree, IsCloud, EngineAt;
    var before, stage := CountsOver(p, stages, k - 1, m), stages[k - 1];
    if i == k - 1 {
      UntouchedBefore(p, stages, managed, k - 1, m, ns);
      CountsInTaken(p, k - 1, stage, |stage|, before, ns, j);
    } else {
      CountsTaken(p, stages, managed, k - 1, m, ns, i, j);
      CountsInSpare(p, k - 1, stage, |stage|, before, ns);
    }
  }

  lemma {:induction false} UntouchedBefore(p: Pass, stages: seq<seq<string>>, managed: seq<string>, k: nat, m: Flat,
      ns: string)
    requires k <= |stages| && OnlyScales(p, stages, managed) && Clean(managed) && SlashFree(ns)
    requires forall a, b | 0 <= a < k && 0 <= b < |stages[a]| :: IsCloud(stages[a][b]) || stages[a][b] != ns
    ensures Originals(CountsOver(p, stages, k, m), ns) == Originals(m, ns)
    decreases k
  {
    hide Originals, CountsIn, SlashFree, IsCloud;
    if k == 0 {
    } else {
      UntouchedBefore(p, stages, managed, k - 1, m, ns);
      CountsInSpare(p, k - 1, stages[k - 1], |stages[k - 1]|, CountsOver(p, stages, k - 1, m), ns);
    }
  }

  /** After a pass, a namespace the stages do not scale has the counts the release left it. */
  lemma UnscaledCounts(name: string, st: Status, p: Pass, ns: string)
    requires NamesClean(st, p) && SlashFree(ns)
    requires ns !in MembersNow(p) || TakenOver(p.owners, name, ns)
    ensures Originals(Reconciled(name, st, p).originals, ns) == Originals(LedgerNow(name, st, p).counts, ns)
  {
    hide Originals, StagesNow, MembersNow, Members, CountsOver, EventsOver, SeenIn, Holding, LedgerNow, RestartEvents,
      SlashFree, IsCloud;
    MembersClean(st, p);
    StagesOnlyScale(name, p);
    var stages := StagesNow(name, p);
    var managed := Without(MembersNow(p), Skipped(name, p));
    assert ns !in managed;
    UntouchedBefore(p, stages, managed, Ran(st, p, stages), LedgerNow(name, st, p).counts, ns);
  }

  // ---- one pass

  lemma ManagedNext(name: string, st: Status, p: Pass, ns: string)
    ensures ns in Reconciled(name, st, p).managed <==>
            (ns in MembersNow(p) && !TakenOver(p.owners, name, ns))
            || (ns in LedgerNow(name, st, p).unreleased && ns !in MembersNow(p))
  {
    hide StagesNow, MembersNow, CountsOver, EventsOver, SeenIn, Holding, LedgerNow, RestartEvents;
  }

  /** A namespace the group manages or holds counts for stays in its books, or the pass gave it
      back, or it is still a member that another group owns now. Counts of such a member are kept. */
  lemma NamespaceKept(name: string, st: Status, p: Pass, ns: string)
    requires NamesClean(st, p) && SlashFree(ns) && Tracks(st, ns)
    ensures Tracks(Reconciled(name, st, p), ns) || GivenBack(name, st, p, ns) || Ceded(name, p, ns)
    ensures Ceded(name, p, ns) ==> Originals(Reconciled(name, st, p).originals, ns) == Originals(st.originals, ns)
  {
    hide Reconciled, MembersNow, Originals, SlashFree, LetGo, LetGoBy, Released;
    var l := LeavingNow(name, st, p);
    var n := |l.departed|;
    Departures(name, st, p, ns);
    ManagedNext(name, st, p, ns);
    if ns in MembersNow(p) {
      if TakenOver(p.owners, name, ns) {
        UnscaledCounts(name, st, p, ns);
        CountsOf(l, st.originals, n, ns);
        NeverLetGo(l, st.originals, n, ns);
      }
    } else {
      assert l.departed[..n] == l.departed;
      LetGoOrQueued(l, st.originals, n, ns);
    }
  }

  lemma {:induction false} NeverLetGo(l: Leaving, m: Flat, i: nat, ns: string)
    requires i <= |l.departed| && ns !in l.departed
    ensures !LetGoBy(l, m, i, ns)
    decreases i
  {
    hide LetGo;
    if i == 0 {
    } else {
      NeverLetGo(l, m, i - 1, ns);
    }
  }

  /** After a pass every recorded count belongs to a member or to a namespace queued for another
      try, and the queued ones stay managed. */
  lemma CountsAccounted(name: string, st: Status, p: Pass, ns: string)
    requires NamesClean(st, p) && SlashFree(ns)
    requires Originals(Reconciled(name, st, p).originals, ns) != map[]
    ensures ns in MembersNow(p) || (ns in LedgerNow(name, st, p).unreleased && ns in Reconciled(name, st, p).managed)
  {
    hide Reconciled, MembersNow, Originals, SlashFree, Released, LetGoBy, LetGo;
    if ns !in MembersNow(p) {
      var l := LeavingNow(name, st, p);
      var n := |l.departed|;
      UnscaledCounts(name, st, p, ns);
      Departures(name, st, p, ns);
      CountsOf(l, st.originals, n, ns);
      assert Tracks(st, ns);
      CountsQueued(l, st.originals, ns);
      ManagedNext(name, st, p, ns);
    }
  }

  // ---- whole runs

  ghost predicate CleanRun(passes: seq<Pass>) {
    forall k | 0 <= k < |passes| :: Clean(passes[k].spec.namespaces) && Clean(passes[k].matches)
  }

  lemma {:induction false} NamesStayClean(name: string, states: seq<Status>, passes: seq<Pass>, k: nat)
    requires Run(name, states, passes) && CleanRun(passes) && k <= |passes|
    ensures Clean(states[k].selected) && Clean(states[k].managed)
    decreases k
  {
    hide Reconciled, MembersNow, SlashFree, LedgerNow;
    if k == 0 {
    } else {
      NamesStayClean(name, states, passes, k - 1);
      var st, p := states[k - 1], passes[k - 1];
      assert states[k - 1 + 1] == Stored(name, st, p);
      MembersClean(st, p);
      SelectedNext(name, st, p);
      forall ns | ns in Reconciled(name, st, p).managed ensures SlashFree(ns) {
        ManagedNext(name, st, p, ns);
        UnreleasedClean(name, st, p);
      }
    }
  }

  lemma SelectedNext(name: string, st: Status, p: Pass)
    ensures Reconciled(name, st, p).selected == SelectedNow(p)
  {
    hide StagesNow, MembersNow, CountsOver, EventsOver, SeenIn, Holding, Ran, LedgerNow, RestartEvents, Reading,
      Skipped, SelectedNow;
  }

  lemma UnreleasedClean(name: string, st: Status, p: Pass)
    requires NamesClean(st, p)
    ensures Clean(LedgerNow(name, st, p).unreleased)
  {
    hide Released, SlashFree, MembersNow;
    var l := LeavingNow(name, st, p);
    Departures(name, st, p, "");
    QueuedDeparted(l, st.originals, |l.departed|);
    forall ns | ns in LedgerNow(name, st, p).unreleased ensures SlashFree(ns) {
      var k :| 0 <= k < |l.departed| && l.departed[k] == ns;
    }
  }

  /** Over any run, a namespace that left the books was given back by some stored pass in between, or
      it held no counts and was still a member when another group owned it. */
  lemma {:induction false} NoNamespaceIsLost(name: string, states: seq<Status>, passes: seq<Pass>, i: nat, j: nat,
      ns: string) returns (k: nat)
    requires Run(name, states, passes) && CleanRun(passes) && i <= j <= |passes| && SlashFree(ns)
    requires Tracks(states[i], ns) && !Tracks(states[j], ns)
    ensures i <= k < j && passes[k].stored
    ensures || GivenBack(name, states[k], passes[k], ns)
            || (Ceded(name, passes[k], ns) && Originals(states[k].originals, ns) == map[])
    decreases j
  {
    hide Reconciled, Originals, GivenBack, Ceded, SlashFree;
    assert j > i;
    if !Tracks(states[j - 1], ns) {
      k := NoNamespaceIsLost(name, states, passes, i, j - 1, ns);
    } else {
      k := j - 1;
      assert states[k + 1] == Stored(name, states[k], passes[k]);
      NamesStayClean(name, states, passes, k);
      NamespaceKept(name, states[k], passes[k], ns);
      FlooredTracks(name, states[k], passes[k], ns);
    }
  }

  lemma FlooredTracks(name: string, st: Status, p: Pass, ns: string)
    ensures Tracks(Stored(name, st, p), ns) == if p.stored then Tracks(Reconciled(name, st, p), ns) else Tracks(st, ns)
  {
    hide Reconciled, Originals;
  }

  /** A dry run, or a group waiting for its dependencies, leaves the counts of all its members alone. */
  lemma HeldBackKeepsCounts(name: string, st: Status, p: Pass, ns: string)
    requires NamesClean(st, p) && SlashFree(ns) && ns in MembersNow(p) && !ActsOnStages(st, p)
    ensures Originals(Reconciled(name, st, p).originals, ns) == Originals(st.originals, ns)
  {
    hide Originals, SlashFree, LetGo, LetGoBy, MembersNow, Released, RestartEvents;
    var l := LeavingNow(name, st, p);
    Departures(name, st, p, ns);
    CountsOf(l, st.originals, |l.departed|, ns);
    NeverLetGo(l, st.originals, |l.departed|, ns);
  }
}
