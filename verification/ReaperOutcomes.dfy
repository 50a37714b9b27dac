/** What a run leaves of each namespace, and whom it deletes, in terms of the namespaces, the budget and
    the replies alone. */
module ReaperOutcomes {
  import opened Common
  import opened Reaper
  import opened ReaperRuns
  import opened ReaperWarnings

  // ---- three kinds of namespaces a run has to do with

  /** The reaper may delete it, as far as its kind goes. */
  predicate Exposed(ns: Preview, ttl: int) { ns.selected && !ns.terminating && MayGo(ns, ttl) }

  /** Somebody was warned about the very expiry it has. */
  predicate Stamped(ns: Preview, ttl: int) { ns.warned == Some(Floor(Expiry(ns, ttl))) }

  /** Expired, and warned about if warnings are given. */
  predicate Ripe(ns: Preview, c: Input, ttl: int) {
    Exposed(ns, ttl) && c.now >= Expiry(ns, ttl) && (c.lead <= 0 || Stamped(ns, ttl))
  }

  /** Expired without a warning. */
  predicate Late(ns: Preview, c: Input, ttl: int) {
    Exposed(ns, ttl) && c.now >= Expiry(ns, ttl) && c.lead > 0 && !Stamped(ns, ttl)
  }

  /** To be warned about now. */
  predicate DueSoon(ns: Preview, c: Input, ttl: int) {
    Exposed(ns, ttl) && Expiry(ns, ttl) - c.lead <= c.now < Expiry(ns, ttl) && c.lead > 0 && !Stamped(ns, ttl)
  }

  lemma DecideMeans(name: string, ns: Preview, c: Input, ttl: int, budget: int)
    requires Planned(ns)
    ensures var action := Decide(EntryOf(name, ns, ttl), c.now, c.lead, budget);
            && (action == Delete <==> Ripe(ns, c, ttl) && budget > 0)
            && (action == Leave <==> Ripe(ns, c, ttl) && budget <= 0)
            && (action == Postpone <==> Late(ns, c, ttl))
            && (action == Warn <==> DueSoon(ns, c, ttl))
  {
    hide EntryOf, MayGo, Expiry;
    EntryMeans(name, ns, ttl);
  }

  // ---- counting the ripe ones in the order of the plan

  predicate RipeAt(q: Progress, c: Input, ttl: int, i: nat)
    requires i < |c.plan| && Covered(c, q.cluster)
  {
    Ripe(q.cluster[c.plan[i].namespace], c, ttl)
  }

  /** The ripe namespaces among the first n entries. */
  function Ripes(q: Progress, c: Input, ttl: int, n: nat): set<string>
    requires n <= |c.plan| && Covered(c, q.cluster)
    decreases n
  {
    if n == 0 then {}
    else Ripes(q, c, ttl, n - 1) + if RipeAt(q, c, ttl, n - 1) then {c.plan[n - 1].namespace} else {}
  }

  /** Those of them the budget is enough for. */
  function Affordable(q: Progress, c: Input, ttl: int, n: nat): set<string>
    requires n <= |c.plan| && Covered(c, q.cluster)
    decreases n
  {
    if n == 0 then {}
    else Affordable(q, c, ttl, n - 1) + if Goes(q, c, ttl, n - 1) then {c.plan[n - 1].namespace} else {}
  }

  predicate Goes(q: Progress, c: Input, ttl: int, i: nat)
    requires i < |c.plan| && Covered(c, q.cluster)
  {
    RipeAt(q, c, ttl, i) && |Ripes(q, c, ttl, i)| < q.budget
  }

  function Least(a: int, b: int): int { if a < b then a else b }

  function AtLeastNone(budget: int): nat { if budget < 0 then 0 else budget }

  lemma {:induction false} InRipes(q: Progress, c: Input, ttl: int, n: nat, name: string)
    requires n <= |c.plan| && Covered(c, q.cluster)
    ensures name in Ripes(q, c, ttl, n) <==> exists i | 0 <= i < n ::
            c.plan[i].namespace == name && RipeAt(q, c, ttl, i)
    ensures name in Affordable(q, c, ttl, n) <==> exists i | 0 <= i < n ::
            c.plan[i].namespace == name && Goes(q, c, ttl, i)
    decreases n
  {
    hide RipeAt, Goes;
    if n == 0 {
    } else {
      InRipes(q, c, ttl, n - 1, name);
    }
  }

  lemma RipesNext(q: Progress, c: Input, ttl: int, n: nat)
    requires n < |c.plan| && Covered(c, q.cluster) && OncePlanned(c.plan)
    ensures |Ripes(q, c, ttl, n + 1)| == |Ripes(q, c, ttl, n)| + if RipeAt(q, c, ttl, n) then 1 else 0
    ensures |Affordable(q, c, ttl, n + 1)| == |Affordable(q, c, ttl, n)| + if Goes(q, c, ttl, n) then 1 else 0
  {
    hide RipeAt, Goes;
    InRipes(q, c, ttl, n, c.plan[n].namespace);
  }

  lemma {:induction false} AffordableSize(q: Progress, c: Input, ttl: int, n: nat)
    requires n <= |c.plan| && Covered(c, q.cluster) && OncePlanned(c.plan)
    ensures |Affordable(q, c, ttl, n)| == Least(|Ripes(q, c, ttl, n)|, AtLeastNone(q.budget))
    decreases n
  {
    hide Ripes, Affordable, RipeAt;
    if n == 0 {
      NoneYet(q, c, ttl);
    } else {
      AffordableSize(q, c, ttl, n - 1);
      RipesNext(q, c, ttl, n - 1);
    }
  }

  lemma NoneYet(q: Progress, c: Input, ttl: int)
    requires Covered(c, q.cluster)
    ensures Ripes(q, c, ttl, 0) == {} && Affordable(q, c, ttl, 0) == {}
  {
  }

  lemma {:induction false} RipesGrow(q: Progress, c: Input, ttl: int, i: nat, j: nat)
    requires i <= j <= |c.plan| && Covered(c, q.cluster) && OncePlanned(c.plan)
    ensures |Ripes(q, c, ttl, i)| <= |Ripes(q, c, ttl, j)|
    decreases j
  {
    hide Ripes;
    if i == j {
    } else {
      RipesGrow(q, c, ttl, i, j - 1);
      RipesNext(q, c, ttl, j - 1);
    }
  }

  // ---- the run itself

  /** The requests for the first n entries go through, but that a namespace to delete may be found gone
      already. */
  ghost predicate Smooth(q: Progress, c: Input, ttl: int, n: nat)
    requires n <= |c.plan| && Covered(c, q.cluster)
  {
    && IsPlan(c.plan, q.cluster, ttl) && !q.aborted
    && forall i | 0 <= i < n :: ReplyAt(c, i) == Done || (ReplyAt(c, i) == Gone && RipeAt(q, c, ttl, i))
  }

  lemma Entry1(q: Progress, c: Input, ttl: int, i: nat)
    requires i < |c.plan| && Covered(c, q.cluster) && IsPlan(c.plan, q.cluster, ttl)
    ensures var name := c.plan[i].namespace;
            c.plan[i] == EntryOf(name, q.cluster[name], ttl) && Planned(q.cluster[name])
  {
    hide EntryOf, Planned, Sooner;
    PlanOf(c, q.cluster, ttl, i);
  }

  lemma StepSpends(q: Progress, c: Input, ttl: int, n: nat)
    requires n < |c.plan| && Covered(c, q.cluster) && Smooth(q, c, ttl, n + 1) && !RunTo(q, c, n).aborted
    ensures var before, after := RunTo(q, c, n), RunTo(q, c, n + 1);
            && !after.aborted
            && after.budget == before.budget - if RipeAt(q, c, ttl, n) && before.budget > 0 then 1 else 0
  {
    hide Decide, IsPlan, EntryOf, Ripe, Late, DueSoon, Planned, Cut;
    Entry1(q, c, ttl, n);
    var name := c.plan[n].namespace;
    DecideMeans(name, q.cluster[name], c, ttl, RunTo(q, c, n).budget);
    Exclusive(q.cluster[name], c, ttl);
    assert RunTo(q, c, n + 1) == Handle(RunTo(q, c, n), c.plan[n], c, ReplyAt(c, n));
  }

  /** The budget falls by one for each ripe namespace, until it is used up. */
  lemma {:induction false} BudgetSpent(q: Progress, c: Input, ttl: int, n: nat)
    requires n <= |c.plan| && Covered(c, q.cluster) && Smooth(q, c, ttl, n)
    ensures var r := RunTo(q, c, n);
            !r.aborted && r.budget == q.budget - Least(|Ripes(q, c, ttl, n)|, AtLeastNone(q.budget))
    decreases n
  {
    hide Ripes, RipeAt, IsPlan, Handle;
    if n == 0 {
      NoneYet(q, c, ttl);
    } else {
      BudgetSpent(q, c, ttl, n - 1);
      StepSpends(q, c, ttl, n - 1);
      PlannedOnce(c.plan, q.cluster, ttl);
      RipesNext(q, c, ttl, n - 1);
    }
  }

  lemma Exclusive(ns: Preview, c: Input, ttl: int)
    ensures !(Ripe(ns, c, ttl) && Late(ns, c, ttl)) && !(Ripe(ns, c, ttl) && DueSoon(ns, c, ttl))
    ensures !(Late(ns, c, ttl) && DueSoon(ns, c, ttl))
  {
  }

  /** What a run makes of a planned namespace: one that is ripe and that the budget reaches goes, unless
      it is found gone; a late one is stamped and postponed to the warning lead from now; one to be
      warned about is stamped; and any other is left as it is. */
  lemma OutcomeAt(q: Progress, c: Input, ttl: int, i: nat)
    requires i < |c.plan| && Covered(c, q.cluster) && Smooth(q, c, ttl, |c.plan|)
    ensures var ns := q.cluster[c.plan[i].namespace];
            RunTo(q, c, |c.plan|).cluster[c.plan[i].namespace] ==
              if Goes(q, c, ttl, i) && ReplyAt(c, i) == Done then ns.(terminating := true)
              else if Late(ns, c, ttl) then
                ns.(warned := Some(Floor(c.now + c.lead)), expires := Some(Floor(c.now + c.lead)))
              else if DueSoon(ns, c, ttl) then ns.(warned := Some(Floor(Expiry(ns, ttl))))
              else ns
  {
    hide Ripes, Decide, IsPlan, EntryOf, Ripe, Late, DueSoon, Planned, RunTo, MayGo, Expiry;
    Entry1(q, c, ttl, i);
    var name := c.plan[i].namespace;
    var ns := q.cluster[name];
    BudgetSpent(q, c, ttl, i);
    DecideMeans(name, ns, c, ttl, RunTo(q, c, i).budget);
    Exclusive(ns, c, ttl);
    Effect(q, c, ttl, i);
    EntryMeans(name, ns, ttl);
    if DueSoon(ns, c, ttl) { assert MayGo(ns, ttl) by { DueMayGo(ns, c, ttl); } }
  }

  lemma DueMayGo(ns: Preview, c: Input, ttl: int)
    requires DueSoon(ns, c, ttl)
    ensures MayGo(ns, ttl)
  {
  }

  // ---- whole runs of the reaper

  /** A run of the reaper in which every request goes through. */
  ghost predicate SmoothReap(w: World, s: Step) {
    s.Reap? && Possible(w, s) && forall i | 0 <= i < |s.plan| :: i in s.replies && s.replies[i] == Done
  }

  /** The namespaces ripe when the run begins. */
  ghost function RipeNow(w: World, s: Step): set<string>
    requires s.Reap?
  {
    set name | name in w.cluster && Ripe(w.cluster[name], InputOf(w, s), s.ttl)
  }

  /** The namespaces the run deletes. */
  ghost function DeletedBy(w: World, s: Step): set<string>
    requires SmoothReap(w, s)
  {
    set name | name in w.cluster && name in Next(w, s).cluster
               && !w.cluster[name].terminating && Next(w, s).cluster[name].terminating
  }

  lemma SmoothRun(w: World, s: Step)
    requires SmoothReap(w, s)
    ensures Covered(InputOf(w, s), w.cluster) && Smooth(StartOf(w, s), InputOf(w, s), s.ttl, |s.plan|)
    ensures Next(w, s).cluster == RunTo(StartOf(w, s), InputOf(w, s), |s.plan|).cluster
    ensures StartOf(w, s).budget == 20 - Recent(w.log, s.now)
  {
    hide IsPlan, RunTo, RipeAt;
    PlanCovers(s.plan, w.cluster, s.ttl);
  }

  /** Ripe namespaces are planned, so counting entries counts them. */
  lemma RipeIsPlanned(w: World, s: Step, name: string)
    requires SmoothReap(w, s) && Covered(InputOf(w, s), w.cluster)
    ensures name in RipeNow(w, s) <==> name in Ripes(StartOf(w, s), InputOf(w, s), s.ttl, |s.plan|)
  {
    hide IsPlan, Ripes, Affordable, RunTo, EntryOf, MayGo, Expiry;
    var q, c := StartOf(w, s), InputOf(w, s);
    InRipes(q, c, s.ttl, |s.plan|, name);
    if name in RipeNow(w, s) {
      var i := Planned1(c, w.cluster, s.ttl, name);
      assert RipeAt(q, c, s.ttl, i);
    }
  }

  lemma DeletedIsAffordable(w: World, s: Step, name: string)
    requires SmoothReap(w, s) && Covered(InputOf(w, s), w.cluster)
    ensures name in DeletedBy(w, s) <==> name in Affordable(StartOf(w, s), InputOf(w, s), s.ttl, |s.plan|)
  {
    hide IsPlan, Ripes, Affordable, RunTo, Next, Possible, Late, DueSoon, Ripe;
    var q, c := StartOf(w, s), InputOf(w, s);
    SmoothRun(w, s);
    InRipes(q, c, s.ttl, |s.plan|, name);
    if i :| 0 <= i < |s.plan| && s.plan[i].namespace == name {
      PlannedOnce(s.plan, w.cluster, s.ttl) by { ReapHasPlan(w, s); }
      Entry1(q, c, s.ttl, i) by { ReapHasPlan(w, s); }
      OutcomeAt(q, c, s.ttl, i);
      assert forall k | 0 <= k < |s.plan| && s.plan[k].namespace == name :: k == i;
    } else if name in w.cluster {
      UnplannedUntouched(q, c, |s.plan|, name);
    }
  }

  lemma ReapHasPlan(w: World, s: Step)
    requires s.Reap? && Possible(w, s)
    ensures IsPlan(s.plan, w.cluster, s.ttl)
  {
  }

  /** A run whose requests go through deletes only ripe namespaces, and as many of them as the budget
      allows: all of them if it is enough, and otherwise as many as are left of twenty within the hour. */
  lemma RipeAreDeleted(w: World, s: Step)
    requires SmoothReap(w, s)
    ensures DeletedBy(w, s) <= RipeNow(w, s)
    ensures var budget := 20 - Recent(w.log, s.now);
            && (|RipeNow(w, s)| <= budget ==> DeletedBy(w, s) == RipeNow(w, s))
            && (|RipeNow(w, s)| > budget ==> |DeletedBy(w, s)| == if budget > 0 then budget else 0)
  {
    hide Ripes, Affordable, RipeNow, DeletedBy, Possible, RunTo;
    var q, c, n := StartOf(w, s), InputOf(w, s), |s.plan|;
    SmoothRun(w, s);
    forall name ensures name in RipeNow(w, s) <==> name in Ripes(q, c, s.ttl, n) { RipeIsPlanned(w, s, name); }
    forall name ensures name in DeletedBy(w, s) <==> name in Affordable(q, c, s.ttl, n) {
      DeletedIsAffordable(w, s, name);
    }
    assert RipeNow(w, s) == Ripes(q, c, s.ttl, n) && DeletedBy(w, s) == Affordable(q, c, s.ttl, n);
    PlannedOnce(s.plan, w.cluster, s.ttl) by { SmoothHasPlan(q, c, s.ttl); }
    AffordableSize(q, c, s.ttl, n);
    forall name | name in Affordable(q, c, s.ttl, n) ensures name in Ripes(q, c, s.ttl, n) {
      InRipes(q, c, s.ttl, n, name);
    }
    SameSizeSubset(DeletedBy(w, s), RipeNow(w, s));
  }

  lemma SmoothHasPlan(q: Progress, c: Input, ttl: int)
    requires Covered(c, q.cluster) && Smooth(q, c, ttl, |c.plan|)
    ensures IsPlan(c.plan, q.cluster, ttl)
  {
  }

  lemma SameSizeSubset(a: set<string>, b: set<string>)
    requires a <= b
    ensures |a| == |b| ==> a == b
  {
    if |a| == |b| && a != b {
      var x :| x in b && x !in a;
      SubsetSize(a, b - {x});
    }
  }

  lemma GoesFirst(q: Progress, c: Input, ttl: int, i: nat, j: nat)
    requires Covered(c, q.cluster) && IsPlan(c.plan, q.cluster, ttl) && i < |c.plan| && j < |c.plan|
    requires Goes(q, c, ttl, i) && RipeAt(q, c, ttl, j) && !Goes(q, c, ttl, j)
    ensures Expiry(q.cluster[c.plan[i].namespace], ttl) <= Expiry(q.cluster[c.plan[j].namespace], ttl)
  {
    hide Ripes, EntryOf, MayGo, Expiry, PlansOne, Planned;
    PlannedOnce(c.plan, q.cluster, ttl);
    if j <= i { RipesGrow(q, c, ttl, j, i); assert false; }
    Entry1(q, c, ttl, i);
    Entry1(q, c, ttl, j);
    EntryMeans(c.plan[i].namespace, q.cluster[c.plan[i].namespace], ttl);
    EntryMeans(c.plan[j].namespace, q.cluster[c.plan[j].namespace], ttl);
    assert !Sooner(c.plan[j], c.plan[i]);
  }

  /** Of the ripe namespaces, none left over expires before one that is deleted. */
  lemma SoonestRipeFirst(w: World, s: Step, gone: string, left: string)
    requires SmoothReap(w, s) && gone in DeletedBy(w, s) && left in RipeNow(w, s) && left !in DeletedBy(w, s)
    ensures gone in w.cluster && left in w.cluster
    ensures Expiry(w.cluster[gone], s.ttl) <= Expiry(w.cluster[left], s.ttl)
  {
    hide Ripes, Affordable, Expiry, Next, IsPlan, Ripe, RunTo, RipeAt, Goes;
    var q, c, n := StartOf(w, s), InputOf(w, s), |s.plan|;
    SmoothRun(w, s);
    DeletedIsAffordable(w, s, gone);
    DeletedIsAffordable(w, s, left);
    RipeIsPlanned(w, s, left);
    InRipes(q, c, s.ttl, n, gone);
    InRipes(q, c, s.ttl, n, left);
    var i :| 0 <= i < n && s.plan[i].namespace == gone && Goes(q, c, s.ttl, i);
    var j :| 0 <= j < n && s.plan[j].namespace == left && RipeAt(q, c, s.ttl, j);
    GoesFirst(q, c, s.ttl, i, j);
  }

  /** What such a run leaves of each namespace: one it deletes is marked as terminating; a late one is
      stamped with, and postponed to, the warning lead from now; one to be warned about is stamped with
      the expiry it keeps; and every other one is as it was. So an expiry changes only for want of a
      warning. */
  lemma WhatEachBecomes(w: World, s: Step, name: string)
    requires SmoothReap(w, s) && name in w.cluster
    ensures var ns, c := w.cluster[name], InputOf(w, s);
            name in Next(w, s).cluster && Next(w, s).cluster[name] ==
              if name in DeletedBy(w, s) then ns.(terminating := true)
              else if Late(ns, c, s.ttl) then
                ns.(warned := Some(Floor(s.now + s.lead)), expires := Some(Floor(s.now + s.lead)))
              else if DueSoon(ns, c, s.ttl) then ns.(warned := Some(Floor(Expiry(ns, s.ttl))))
              else ns
  {
    hide IsPlan, Ripes, Affordable, RunTo, Possible, Late, DueSoon, Ripe, Expiry, Next, DeletedBy;
    var q, c := StartOf(w, s), InputOf(w, s);
    SmoothRun(w, s);
    DeletedIsAffordable(w, s, name);
    InRipes(q, c, s.ttl, |s.plan|, name);
    if i :| 0 <= i < |s.plan| && s.plan[i].namespace == name {
      PlannedOnce(s.plan, w.cluster, s.ttl) by { ReapHasPlan(w, s); }
      assert forall k | 0 <= k < |s.plan| && s.plan[k].namespace == name :: k == i;
      OutcomeAt(q, c, s.ttl, i);
    } else {
      UnplannedUntouched(q, c, |s.plan|, name);
      NotPlannedMeans(w, s, name);
    }
  }

  lemma NotPlannedMeans(w: World, s: Step, name: string)
    requires SmoothReap(w, s) && name in w.cluster && forall i | 0 <= i < |s.plan| :: s.plan[i].namespace != name
    ensures !Late(w.cluster[name], InputOf(w, s), s.ttl) && !DueSoon(w.cluster[name], InputOf(w, s), s.ttl)
  {
    hide EntryOf, MayGo, Expiry;
    if Planned(w.cluster[name]) {
      var i := Planned1(InputOf(w, s), w.cluster, s.ttl, name);
      assert false;
    }
  }

  // ---- runs that meet a failure

  lemma {:induction false} AbortedStays(q: Progress, c: Input, i: nat, n: nat)
    requires i <= n <= |c.plan| && Covered(c, q.cluster) && RunTo(q, c, i).aborted
    ensures RunTo(q, c, n) == RunTo(q, c, i)
    decreases n
  {
    if i == n {
    } else {
      AbortedStays(q, c, i, n - 1);
    }
  }

  /** The request for entry i is made and fails: a warning that does not go out, or a deletion refused. */
  predicate Fails(q: Progress, c: Input, ttl: int, i: nat)
    requires i < |c.plan| && Covered(c, q.cluster)
  {
    var ns := q.cluster[c.plan[i].namespace];
    || ((Late(ns, c, ttl) || DueSoon(ns, c, ttl)) && ReplyAt(c, i) != Done)
    || (Goes(q, c, ttl, i) && ReplyAt(c, i) == Refused)
  }

  /** The first request that fails ends the run: neither the namespace it was for nor any planned after it
      is touched. */
  lemma FailureStopsRun(q: Progress, c: Input, ttl: int, i: nat, j: nat)
    requires i <= j < |c.plan| && Covered(c, q.cluster) && Smooth(q, c, ttl, i) && Fails(q, c, ttl, i)
    ensures RunTo(q, c, |c.plan|).cluster[c.plan[j].namespace] == q.cluster[c.plan[j].namespace]
  {
    hide IsPlan, Decide, EntryOf, Fails, Planned, RunTo, RipeAt;
    PlannedOnce(c.plan, q.cluster, ttl);
    StillUntouched(q, c, i);
    StepAborts(q, c, ttl, i);
    AbortedStays(q, c, i + 1, |c.plan|);
  }

  lemma StepAborts(q: Progress, c: Input, ttl: int, i: nat)
    requires i < |c.plan| && Covered(c, q.cluster) && Smooth(q, c, ttl, i) && Fails(q, c, ttl, i)
    ensures RunTo(q, c, i + 1).aborted && RunTo(q, c, i + 1).cluster == RunTo(q, c, i).cluster
  {
    hide IsPlan, Decide, EntryOf, Ripe, Late, DueSoon, Planned, Ripes;
    Entry1(q, c, ttl, i);
    var name := c.plan[i].namespace;
    BudgetSpent(q, c, ttl, i);
    DecideMeans(name, q.cluster[name], c, ttl, RunTo(q, c, i).budget);
    Exclusive(q.cluster[name], c, ttl);
    assert RunTo(q, c, i + 1) == Handle(RunTo(q, c, i), c.plan[i], c, ReplyAt(c, i));
  }

  // ---- extensions

  /** An extension is made of exactly the namespaces the reaper may delete. It moves the expiry, or now if
      that has passed, clears the stamp, and touches nothing else. */
  lemma ExtendExactly(cluster: Cluster, name: string, ttl: int, extra: int, now: int)
    ensures Extendable(cluster, name, ttl) <==> name in cluster && Exposed(cluster[name], ttl)
    ensures AfterExtend(cluster, name, ttl, extra, now) ==
            if name in cluster && Exposed(cluster[name], ttl) then
              var from := if Expiry(cluster[name], ttl) < now then now else Expiry(cluster[name], ttl);
              cluster[name := cluster[name].(expires := Some(Floor(from + extra)), warned := None)]
            else cluster
  {
    hide EntryOf, MayGo, Expiry;
    if name in cluster { EntryMeans(name, cluster[name], ttl); }
  }

  // ---- the plan and the log

  /** What the reaper may delete is planned before what it may not, and each part soonest first. */
  lemma PlanOrder(plan: seq<Entry>, cluster: Cluster, ttl: int, i: nat, j: nat)
    requires IsPlan(plan, cluster, ttl) && i < j < |plan|
    ensures MayGo(cluster[plan[j].namespace], ttl) ==> MayGo(cluster[plan[i].namespace], ttl)
    ensures (MayGo(cluster[plan[j].namespace], ttl) <==> MayGo(cluster[plan[i].namespace], ttl)) ==>
              plan[i].expiresAt <= plan[j].expiresAt
  {
    hide EntryOf, MayGo, Planned;
    assert PlansOne(plan[i], cluster, ttl) && PlansOne(plan[j], cluster, ttl) && !Sooner(plan[j], plan[i]);
    EntryMeans(plan[i].namespace, cluster[plan[i].namespace], ttl);
    EntryMeans(plan[j].namespace, cluster[plan[j].namespace], ttl);
  }

  /** The log entry for a deletion: the namespace as it was, its expiry and the time of the run. */
  function LogEntry(name: string, ns: Preview, c: Input, ttl: int): Deletion {
    Deletion(name, ns.created, Expiry(ns, ttl), c.now, ns.uid, c.lead, c.run)
  }

  lemma StepLogs(q: Progress, c: Input, ttl: int, n: nat)
    requires n < |c.plan| && Covered(c, q.cluster) && Smooth(q, c, ttl, n + 1)
    ensures var name := c.plan[n].namespace;
            RunTo(q, c, n + 1).history ==
              (if Goes(q, c, ttl, n) && ReplyAt(c, n) == Done then [LogEntry(name, q.cluster[name], c, ttl)] else [])
              + RunTo(q, c, n).history
  {
    hide IsPlan, Decide, EntryOf, Ripe, Late, DueSoon, Planned, Ripes, MayGo, Expiry, Cut;
    Entry1(q, c, ttl, n);
    var name := c.plan[n].namespace;
    var ns := q.cluster[name];
    BudgetSpent(q, c, ttl, n);
    DecideMeans(name, ns, c, ttl, RunTo(q, c, n).budget);
    EntryMeans(name, ns, ttl);
    EntryKeeps(name, ns, ttl);
    Exclusive(ns, c, ttl);
    if Ripe(ns, c, ttl) { RipeMayGo(ns, c, ttl); }
    assert RunTo(q, c, n + 1) == Handle(RunTo(q, c, n), c.plan[n], c, ReplyAt(c, n));
  }

  lemma EntryKeeps(name: string, ns: Preview, ttl: int)
    ensures var e := EntryOf(name, ns, ttl); e.namespace == name && e.uid == ns.uid && e.created == ns.created
  {
  }

  lemma RipeMayGo(ns: Preview, c: Input, ttl: int)
    requires Ripe(ns, c, ttl)
    ensures MayGo(ns, ttl)
  {
  }

  /** The entries a run adds to the log, newest first: one for each namespace it deletes. */
  function Logged(q: Progress, c: Input, ttl: int, n: nat): seq<Deletion>
    requires n <= |c.plan| && Covered(c, q.cluster)
    decreases n
  {
    if n == 0 then []
    else
      var name := c.plan[n - 1].namespace;
      (if Goes(q, c, ttl, n - 1) && ReplyAt(c, n - 1) == Done then [LogEntry(name, q.cluster[name], c, ttl)] else [])
      + Logged(q, c, ttl, n - 1)
  }

  /** A run logs each deletion, as the namespace was, and nothing else. */
  lemma {:induction false} RunLogsDeletions(q: Progress, c: Input, ttl: int, n: nat)
    requires n <= |c.plan| && Covered(c, q.cluster) && Smooth(q, c, ttl, n)
    ensures RunTo(q, c, n).history == Logged(q, c, ttl, n) + q.history
    decreases n
  {
    hide Handle, Goes, IsPlan, RipeAt;
    if n == 0 {
    } else {
      RunLogsDeletions(q, c, ttl, n - 1);
      StepLogs(q, c, ttl, n - 1);
    }
  }
}
