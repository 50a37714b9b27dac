/** What every history of reaper runs, extensions and outside changes keeps. */
module ReaperRuns {
  import opened Common
  import opened Reaper

  /** The stored state with its trace, the time of the last run, and the uids ever used. */
  datatype World = World(cluster: Cluster, log: seq<Deletion>, history: seq<Deletion>, warnings: seq<Warning>,
                         clock: int, runs: nat, used: set<nat>)

  /** A run of the reaper, an extension through the dashboard, or anything other clients do. */
  datatype Step = Reap(now: int, ttl: int, lead: int, plan: seq<Entry>, replies: map<nat, Reply>)
                | Extend(name: string, ttl: int, extra: int, now: int)
                | Change(cluster: Cluster)

  function InputOf(w: World, s: Step): Input
    requires s.Reap?
  {
    Input(s.now, s.lead, s.plan, s.replies, w.runs)
  }

  function StartOf(w: World, s: Step): Progress
    requires s.Reap?
  {
    Start(w.cluster, w.log, w.history, w.warnings, s.now)
  }

  /** Others create, relabel and remove namespaces, but leave the two annotations to the reaper: an
      existing namespace keeps them, and a new one has a new uid and none. */
  ghost predicate OutsideChange(w: World, after: Cluster) {
    && (forall name | name in after ::
          || KeepsItsAnnotations(w.cluster, after, name)
          || (after[name].uid !in w.used && after[name].expires == None && after[name].warned == None))
    && forall a, b | a in after && b in after && a != b :: after[a].uid != after[b].uid
  }

  predicate KeepsItsAnnotations(before: Cluster, after: Cluster, name: string)
    requires name in after
  {
    && name in before && before[name].uid == after[name].uid
    && before[name].expires == after[name].expires && before[name].warned == after[name].warned
  }

  /** Time does not go back between runs, and any sorted plan may come out. An extension may be of any
      length and, as a number of days can wrap around, of any sign. */
  ghost predicate Possible(w: World, s: Step) {
    match s
    case Reap(now, ttl, lead, plan, _) => now >= w.clock && IsPlan(plan, w.cluster, ttl)
    case Extend(_, _, _, _) => true
    case Change(after) => OutsideChange(w, after)
  }

  function Uids(cluster: Cluster): set<nat> { set name | name in cluster :: cluster[name].uid }

  ghost function Next(w: World, s: Step): World
    requires Possible(w, s)
  {
    match s
    case Reap(now, _, _, plan, _) =>
      PlanCovers(plan, w.cluster, s.ttl);
      var end := RunTo(StartOf(w, s), InputOf(w, s), |plan|);
      w.(cluster := end.cluster, log := end.log, history := end.history, warnings := end.warnings, clock := now,
        runs := w.runs + 1)
    case Extend(name, ttl, extra, now) => w.(cluster := AfterExtend(w.cluster, name, ttl, extra, now))
    case Change(after) => w.(cluster := after, used := w.used + Uids(after))
  }

  /** Any history from an empty cluster and no log. */
  ghost predicate History(worlds: seq<World>, steps: seq<Step>) {
    && |worlds| == |steps| + 1
    && worlds[0].cluster == map[] && worlds[0].log == [] && worlds[0].history == [] && worlds[0].warnings == []
    && worlds[0].runs == 0
    && forall k | 0 <= k < |steps| :: Possible(worlds[k], steps[k]) && worlds[k + 1] == Next(worlds[k], steps[k])
  }

  // ---- at most twenty deletions in any hour

  ghost predicate NewestFirst(h: seq<Deletion>) { forall i, j | 0 <= i < j < |h| :: h[i].deletedAt >= h[j].deletedAt }

  /** At each deletion, it and those within the hour before it are at most twenty. */
  predicate Limited(h: seq<Deletion>) {
    h == [] || (Recent(h, h[0].deletedAt) <= MAX_DELETIONS_AN_HOUR && Limited(h[1..]))
  }

  ghost predicate DoneBy(h: seq<Deletion>, now: int) { forall i | 0 <= i < |h| :: h[i].deletedAt <= now }

  ghost predicate LogKept(log: seq<Deletion>, h: seq<Deletion>, now: int) {
    log == Cut(h) && NewestFirst(h) && Limited(h) && DoneBy(h, now)
  }

  lemma {:induction false} NoneRecent(h: seq<Deletion>, now: int)
    requires forall i | 0 <= i < |h| :: now - h[i].deletedAt >= HOUR
    ensures Recent(h, now) == 0
  {
    if h == [] {
    } else {
      NoneRecent(h[1..], now);
    }
  }

  /** Cutting a newest-first log never drops a recent entry, as long as the recent ones fit. */
  lemma {:induction false} CutKeepsRecent(h: seq<Deletion>, now: int, k: nat)
    requires NewestFirst(h) && Recent(h, now) <= k <= |h|
    ensures Recent(h[..k], now) == Recent(h, now)
  {
    if h == [] {
    } else {
      if now - h[0].deletedAt < HOUR {
        CutKeepsRecent(h[1..], now, k - 1);
        assert h[..k][1..] == h[1..][..k - 1];
      } else {
        NoneRecent(h, now);
        NoneRecent(h[..k], now);
      }
    }
  }

  lemma {:induction false} RecentFalls(h: seq<Deletion>, t: int, now: int)
    requires t <= now
    ensures Recent(h, now) <= Recent(h, t)
  {
    if h == [] {
    } else {
      RecentFalls(h[1..], t, now);
    }
  }

  lemma RecentWithinLimit(h: seq<Deletion>, now: int)
    requires NewestFirst(h) && Limited(h) && DoneBy(h, now)
    ensures Recent(h, now) <= MAX_DELETIONS_AN_HOUR && Recent(Cut(h), now) == Recent(h, now)
  {
    if h != [] { RecentFalls(h, h[0].deletedAt, now); }
    if |h| > LOG_SIZE { CutKeepsRecent(h, now, LOG_SIZE); }
  }

  lemma CutAgain(d: Deletion, h: seq<Deletion>)
    ensures Cut([d] + Cut(h)) == Cut([d] + h)
  {
  }

  /** Throughout a run the log stays the newest hundred deletions, newest first, and the budget left
      is at most what the limit leaves. */
  lemma {:induction false} RunKeepsLimit(q: Progress, c: Input, n: nat)
    requires n <= |c.plan| && Covered(c, q.cluster)
    requires LogKept(q.log, q.history, c.now) && q.budget <= MAX_DELETIONS_AN_HOUR - Recent(q.history, c.now)
    ensures var r := RunTo(q, c, n);
            LogKept(r.log, r.history, c.now) && r.budget <= MAX_DELETIONS_AN_HOUR - Recent(r.history, c.now)
    decreases n
  {
    hide Cut, Limited, DoneBy, NewestFirst;
    if n == 0 {
    } else {
      RunKeepsLimit(q, c, n - 1);
      var before, e := RunTo(q, c, n - 1), c.plan[n - 1];
      if !before.aborted && Decide(e, c.now, c.lead, before.budget) == Delete && ReplyAt(c, n - 1) == Done {
        DeletionKept(before, e, c);
      }
    }
  }

  lemma DeletionKept(q: Progress, e: Entry, c: Input)
    requires e.namespace in q.cluster && q.budget > 0
    requires LogKept(q.log, q.history, c.now) && q.budget <= MAX_DELETIONS_AN_HOUR - Recent(q.history, c.now)
    ensures var r := Deleted(q, e, c);
            LogKept(r.log, r.history, c.now) && r.budget <= MAX_DELETIONS_AN_HOUR - Recent(r.history, c.now)
  {
    hide Cut;
    var r := Deleted(q, e, c);
    CutAgain(r.history[0], q.history);
    assert r.history[1..] == q.history;
  }

  lemma {:induction false} LimitKept(worlds: seq<World>, steps: seq<Step>, k: nat)
    requires History(worlds, steps) && k <= |steps|
    ensures LogKept(worlds[k].log, worlds[k].history, worlds[k].clock)
    decreases k
  {
    hide Possible, AfterExtend, RunTo, IsPlan;
    if k == 0 {
    } else {
      LimitKept(worlds, steps, k - 1);
      var w, s := worlds[k - 1], steps[k - 1];
      assert Possible(w, s) && worlds[k - 1 + 1] == Next(w, s);
      if s.Reap? { ReapKeepsLimit(w, s); }
    }
  }

  lemma ReapKeepsLimit(w: World, s: Step)
    requires s.Reap? && Possible(w, s) && LogKept(w.log, w.history, w.clock)
    ensures var n := Next(w, s); LogKept(n.log, n.history, n.clock)
  {
    hide RunTo, Limited, NewestFirst, IsPlan;
    PlanCovers(s.plan, w.cluster, s.ttl);
    RecentWithinLimit(w.history, s.now);
    RunKeepsLimit(StartOf(w, s), InputOf(w, s), |s.plan|);
  }

  /** The deletions of the hour that ends with T, T included. */
  function InHour(h: seq<Deletion>, T: int): nat {
    if h == [] then 0 else (if T - HOUR < h[0].deletedAt <= T then 1 else 0) + InHour(h[1..], T)
  }

  lemma {:induction false} InHourIsRecent(h: seq<Deletion>, T: int)
    requires DoneBy(h, T)
    ensures InHour(h, T) == Recent(h, T)
  {
    if h == [] {
    } else {
      InHourIsRecent(h[1..], T);
    }
  }

  lemma {:induction false} InHourLimited(h: seq<Deletion>, T: int)
    requires NewestFirst(h) && Limited(h)
    ensures InHour(h, T) <= MAX_DELETIONS_AN_HOUR
  {
    if h == [] {
    } else {
      if h[0].deletedAt > T {
        InHourLimited(h[1..], T);
      } else {
        InHourIsRecent(h, T);
        RecentFalls(h, h[0].deletedAt, T);
      }
    }
  }

  /** Whatever happens, and across restarts, at most twenty namespaces are deleted in any one-hour
      window (open at its start), although the budget is worked out from a log cut to 100 entries. */
  lemma AtMostTwentyAnHour(worlds: seq<World>, steps: seq<Step>, k: nat, T: int)
    requires History(worlds, steps) && k <= |steps|
    ensures InHour(worlds[k].history, T) <= 20
  {
    LimitKept(worlds, steps, k);
    InHourLimited(worlds[k].history, T);
  }

  /** And that log is always the newest hundred of all deletions, newest first. */
  lemma LogIsNewestHundred(worlds: seq<World>, steps: seq<Step>, k: nat)
    requires History(worlds, steps) && k <= |steps|
    ensures var log, all := worlds[k].log, worlds[k].history;
            && log == all[..if |all| < 100 then |all| else 100]
            && forall i, j | 0 <= i < j < |log| :: log[i].deletedAt >= log[j].deletedAt
  {
    LimitKept(worlds, steps, k);
  }

  /** The window has to be open on one side: exactly an hour after its twentieth deletion the budget
      is whole again. */
  lemma BudgetIsWholeAfterAnHour(h: seq<Deletion>, now: int)
    requires DoneBy(h, now - HOUR)
    ensures MAX_DELETIONS_AN_HOUR - Recent(h, now) == MAX_DELETIONS_AN_HOUR
  {
    NoneRecent(h, now);
  }
}
