/** The preview-namespace reaper: it plans expiries, warns, postpones the deletion of what nobody was
    warned about, and deletes a few namespaces an hour. */
module Reaper {
  import opened Common

  const LOG_SIZE: nat := 100
  const MAX_DELETIONS_AN_HOUR: int := 20
  const DAY: int := 24 * HOUR

  /** The costdeck.io/ttl label: absent, exactly "off", a parsed time to live (zero for a padded
      "off"), or anything else. */
  datatype Label = NoLabel | Off | Lasts(life: int) | Malformed

  /** A namespace as the API server holds it. The two annotations are instants in whole seconds. */
  datatype Preview = Preview(uid: nat, created: int, ttlLabel: Label, expires: Option<int>, warned: Option<int>,
                             terminating: bool, system: bool, named: bool, selected: bool)

  type Cluster = map<string, Preview>

  datatype Source = FromTTL | FromLabel | Extended
  datatype Protection = Deletable | System | KeptByLabel | Scheduled | BadLabel | NoTTL

  datatype Entry = Entry(namespace: string, uid: nat, created: int, expiresAt: int, source: Source, warned: bool,
      protection: Protection)

  /** A deletion as the log keeps it, with the uid, warning lead and run it happened under. */
  datatype Deletion = Deletion(namespace: string, createdAt: int, expiresAt: int, deletedAt: int, uid: nat, lead: int,
      run: nat)

  /** A warning that was sent and stamped on its namespace. */
  datatype Warning = Warning(uid: nat, expiry: int, at: int, lead: int, postponed: bool, run: nat)

  // ---- ParseTTL

  /** `time.Duration(days) * 24 * time.Hour`, in 64 bits. */
  function DaysToDuration(days: int): int { Wrap64(days * DAY) }

  /** "<n>d" means n days exactly up to 106751 days, and never beyond. */
  lemma DaysExactIff(days: int)
    requires days > 0
    ensures DaysToDuration(days) == days * DAY <==> days <= 106751
  {
  }

  /** Just past that, a label of 213504 days lasts under half an hour. */
  lemma DaysOverflow()
    ensures 0 < DaysToDuration(213504) < 30 * MINUTE
  {
  }

  // ---- the plan

  function Protected(ns: Preview): Protection {
    if ns.system then System else if ns.ttlLabel == Off then KeptByLabel else if ns.named then Scheduled else Deletable
  }

  function EntryOf(name: string, ns: Preview, ttl: int): Entry {
    var labelled := ns.ttlLabel != NoLabel && Protected(ns) == Deletable;
    var life := if labelled && ns.ttlLabel.Lasts? then ns.ttlLabel.life else ttl;
    var source := if ns.expires.Some? then Extended else if labelled && ns.ttlLabel.Lasts? then FromLabel else FromTTL;
    var expiresAt := if ns.expires.Some? then ns.expires.value else ns.created + life;
    var protection := if labelled && ns.ttlLabel == Malformed then BadLabel else Protected(ns);
    Entry(name, ns.uid, ns.created, expiresAt, source, ns.warned == Some(Floor(expiresAt)),
          if life <= 0 && source != Extended && protection == Deletable then NoTTL else protection)
  }

  /** The order of the plan: what will be deleted comes first, soonest first. */
  predicate Sooner(a: Entry, b: Entry) {
    if (a.protection == Deletable) != (b.protection == Deletable) then a.protection == Deletable
      else a.expiresAt < b.expiresAt
  }

  ghost predicate Ordered(plan: seq<Entry>) { forall i, j | 0 <= i < j < |plan| :: !Sooner(plan[j], plan[i]) }

  predicate Planned(ns: Preview) { ns.selected && !ns.terminating }

  /** Any outcome of the unstable sort: every planned namespace once, in order. */
  ghost predicate IsPlan(plan: seq<Entry>, cluster: Cluster, ttl: int) {
    && (forall i | 0 <= i < |plan| :: PlansOne(plan[i], cluster, ttl))
    && (forall i, j | 0 <= i < j < |plan| :: plan[i].namespace != plan[j].namespace)
    && (forall name | name in cluster && Planned(cluster[name]) :: EntryOf(name, cluster[name], ttl) in plan)
    && Ordered(plan)
  }

  predicate PlansOne(e: Entry, cluster: Cluster, ttl: int) {
    e.namespace in cluster && Planned(cluster[e.namespace]) && e == EntryOf(e.namespace, cluster[e.namespace], ttl)
  }

  method Plan(cluster: Cluster, ttl: int) returns (out: seq<Entry>)
    ensures IsPlan(out, cluster, ttl)
  {
    hide EntryOf, Sooner, Planned;
    out := [];
    var rest := cluster.Keys;
    while rest != {}
      invariant rest <= cluster.Keys && Ordered(out)
      invariant forall i | 0 <= i < |out| :: PlansOne(out[i], cluster, ttl) && out[i].namespace !in rest
      invariant forall i, j | 0 <= i < j < |out| :: out[i].namespace != out[j].namespace
      invariant forall name | name in cluster && name !in rest && Planned(cluster[name]) ::
                EntryOf(name, cluster[name], ttl) in out
      decreases |rest|
    {
      var name :| name in rest;
      rest := rest - {name};
      if Planned(cluster[name]) {
        var e := EntryOf(name, cluster[name], ttl);
        EntryNamed(name, cluster[name], ttl);
        var at := Position(out, e);
        out := out[..at] + [e] + out[at..];
      }
    }
  }

  lemma EntryNamed(name: string, ns: Preview, ttl: int)
    ensures EntryOf(name, ns, ttl).namespace == name
  {
  }

  /** Where an entry goes in an ordered plan. */
  method Position(plan: seq<Entry>, e: Entry) returns (at: nat)
    requires Ordered(plan)
    ensures at <= |plan| && Ordered(plan[..at] + [e] + plan[at..])
  {
    at := 0;
    while at < |plan| && Sooner(plan[at], e)
      invariant at <= |plan|
      invariant forall i | 0 <= i < at :: Sooner(plan[i], e)
    {
      at := at + 1;
    }
  }

  // ---- one run

  /** What one request meets: it takes, the namespace is gone or another one by now, or it fails. */
  datatype Reply = Done | Gone | Refused

  datatype Action = Ignore | Postpone | Leave | Delete | Warn

  /** What Run does about an entry. */
  function Decide(e: Entry, now: int, lead: int, budget: int): Action {
    var expired := now >= e.expiresAt;
    if e.protection != Deletable then Ignore
    else if expired && lead > 0 && !e.warned then Postpone
    else if expired && budget <= 0 then Leave
    else if expired then Delete
    else if lead > 0 && !e.warned && now >= e.expiresAt - lead then Warn
    else Ignore
  }

  /** What a run is given: the time, the warning lead, the plan, the replies by position in it, and
      its number. */
  datatype Input = Input(now: int, lead: int, plan: seq<Entry>, replies: map<nat, Reply>, run: nat)

  function ReplyAt(c: Input, i: nat): Reply { if i in c.replies then c.replies[i] else Refused }

  /** The store and the trace of what was done, with the deletions newest first. */
  datatype Progress = Progress(cluster: Cluster, log: seq<Deletion>, history: seq<Deletion>, warnings: seq<Warning>,
                               budget: int, aborted: bool)

  /** The expiry a warning announces: the planned one, or the warning lead from now. */
  function WarnedExpiry(e: Entry, c: Input, postponed: bool): int {
    Floor(if postponed then c.now + c.lead else e.expiresAt)
  }

  function Warned(q: Progress, e: Entry, c: Input, postponed: bool): Progress
    requires e.namespace in q.cluster
  {
    var at := WarnedExpiry(e, c, postponed);
    var ns := q.cluster[e.namespace];
    var stamped := if postponed then ns.(warned := Some(at), expires := Some(at)) else ns.(warned := Some(at));
    q.(cluster := q.cluster[e.namespace := stamped],
       warnings := q.warnings + [Warning(e.uid, at, c.now, c.lead, postponed, c.run)])
  }

  function Cut(history: seq<Deletion>): seq<Deletion> { if |history| > LOG_SIZE then history[..LOG_SIZE] else history }

  function Deleted(q: Progress, e: Entry, c: Input): Progress
    requires e.namespace in q.cluster
  {
    var d := Deletion(e.namespace, e.created, e.expiresAt, c.now, e.uid, c.lead, c.run);
    q.(cluster := q.cluster[e.namespace := q.cluster[e.namespace].(terminating := true)],
       log := Cut([d] + q.log), history := [d] + q.history, budget := q.budget - 1)
  }

  function Handle(q: Progress, e: Entry, c: Input, reply: Reply): Progress
    requires e.namespace in q.cluster
  {
    if q.aborted then q
    else match Decide(e, c.now, c.lead, q.budget)
      case Postpone => if reply == Done then Warned(q, e, c, true) else q.(aborted := true)
      case Warn => if reply == Done then Warned(q, e, c, false) else q.(aborted := true)
      case Delete =>
        if reply == Done then Deleted(q, e, c)
        else if reply == Gone then q.(budget := q.budget - 1)
        else q.(aborted := true)
      case Leave => q
      case Ignore => q
  }

  ghost predicate Covered(c: Input, cluster: Cluster) { forall i | 0 <= i < |c.plan| :: c.plan[i].namespace in cluster }

  function RunTo(q: Progress, c: Input, n: nat): (r: Progress)
    requires n <= |c.plan| && Covered(c, q.cluster)
    ensures r.cluster.Keys == q.cluster.Keys
    decreases n
  {
    if n == 0 then q else Handle(RunTo(q, c, n - 1), c.plan[n - 1], c, ReplyAt(c, n - 1))
  }

  /** How many deletions happened within the hour before now. */
  function Recent(log: seq<Deletion>, now: int): nat {
    if log == [] then 0 else (if now - log[0].deletedAt < HOUR then 1 else 0) + Recent(log[1..], now)
  }

  function Start(cluster: Cluster, log: seq<Deletion>, history: seq<Deletion>, warnings: seq<Warning>,
      now: int): Progress {
    Progress(cluster, log, history, warnings, MAX_DELETIONS_AN_HOUR - Recent(log, now), false)
  }

  lemma PlanCovers(plan: seq<Entry>, cluster: Cluster, ttl: int)
    requires IsPlan(plan, cluster, ttl)
    ensures forall i | 0 <= i < |plan| :: plan[i].namespace in cluster
  {
  }

  class NamespaceReaper {
    var cluster: Cluster
    var log: seq<Deletion>
    var runs: nat
    ghost var history: seq<Deletion>
    ghost var warnings: seq<Warning>

    constructor (cluster: Cluster)
      ensures this.cluster == cluster && log == [] && history == [] && warnings == [] && runs == 0
    {
      this.cluster, log, history, warnings, runs := cluster, [], [], [], 0;
    }

    ghost function Now(budget: int, aborted: bool): Progress
      reads this
    {
      Progress(cluster, log, history, warnings, budget, aborted)
    }

    /** One run over the plan, stopping at the first warning or deletion that fails. */
    method Run(now: int, ttl: int, lead: int, replies: map<nat, Reply>) returns (c: Input)
      modifies this
      ensures c.now == now && c.lead == lead && c.replies == replies && c.run == old(runs) && runs == old(runs) + 1
      ensures IsPlan(c.plan, old(cluster), ttl) && Covered(c, old(cluster))
      ensures var end := RunTo(Start(old(cluster), old(log), old(history), old(warnings), now), c, |c.plan|);
              cluster == end.cluster && log == end.log && history == end.history && warnings == end.warnings
    {
      hide IsPlan, Handle, Decide;
      var plan := Plan(cluster, ttl);
      var budget := DeletionBudget(now);
      c := Input(now, lead, plan, replies, runs);
      ghost var start := Start(cluster, log, history, warnings, now);
      runs := runs + 1;
      PlanCovers(plan, cluster, ttl);
      var aborted := false;
      for i := 0 to |plan|
        invariant Now(budget, aborted) == RunTo(start, c, i) && cluster == RunTo(start, c, i).cluster
        invariant cluster.Keys == old(cluster).Keys && runs == old(runs) + 1
      {
        budget, aborted := Treat(plan[i], budget, aborted, ReplyAt(c, i), c);
      }
    }

    /** What happens to one entry of the plan. */
    method Treat(e: Entry, budget: int, aborted: bool, reply: Reply, c: Input) returns (left: int, failed: bool)
      requires e.namespace in cluster
      modifies this`cluster, this`log, this`history, this`warnings
      ensures Now(left, failed) == Handle(old(Now(budget, aborted)), e, c, reply)
    {
      left, failed := budget, aborted;
      if aborted { return; }
      var expired := c.now >= e.expiresAt;
      if e.protection != Deletable {
        return;
      } else if expired && c.lead > 0 && !e.warned {
        failed := SendWarning(e, c.now + c.lead, true, reply, c, budget);
      } else if expired && budget <= 0 {
        return;
      } else if expired {
        failed := DeleteExpired(e, reply, c, budget);
        if !failed { left := budget - 1; }
      } else if c.lead > 0 && !e.warned && c.now >= e.expiresAt - c.lead {
        failed := SendWarning(e, e.expiresAt, false, reply, c, budget);
      }
    }

    method DeletionBudget(now: int) returns (budget: int)
      ensures budget == MAX_DELETIONS_AN_HOUR - Recent(log, now)
    {
      budget := MAX_DELETIONS_AN_HOUR;
      for i := 0 to |log|
        invariant budget == MAX_DELETIONS_AN_HOUR - Recent(log, now) + Recent(log[i..], now)
      {
        if now - log[i].deletedAt < HOUR { budget := budget - 1; }
        assert log[i..][1..] == log[i + 1..];
      }
    }

    method SendWarning(e: Entry, expiresAt: int, postponed: bool, reply: Reply, c: Input, ghost b: int)
        returns (failed: bool)
      requires e.namespace in cluster && Floor(expiresAt) == WarnedExpiry(e, c, postponed)
      modifies this`cluster, this`warnings
      ensures failed == (reply != Done)
      ensures Now(b, false) == if reply == Done then Warned(old(Now(b, false)), e, c, postponed) else old(Now(b, false))
    {
      if reply != Done { return true; }
      var at := Floor(expiresAt);
      var ns := cluster[e.namespace];
      if postponed { ns := ns.(expires := Some(at)); }
      cluster := cluster[e.namespace := ns.(warned := Some(at))];
      warnings := warnings + [Warning(e.uid, at, c.now, c.lead, postponed, c.run)];
      failed := false;
    }

    method DeleteExpired(e: Entry, reply: Reply, c: Input, ghost b: int) returns (failed: bool)
      requires e.namespace in cluster
      modifies this`cluster, this`log, this`history
      ensures failed == (reply == Refused)
      ensures reply == Done ==> Now(b - 1, false) == Deleted(old(Now(b, false)), e, c)
      ensures reply != Done ==> Now(b, false) == old(Now(b, false))
    {
      if reply != Done { return reply == Refused; }
      cluster := cluster[e.namespace := cluster[e.namespace].(terminating := true)];
      Record(Deletion(e.namespace, e.created, e.expiresAt, c.now, e.uid, c.lead, c.run));
      failed := false;
    }

    /** Adds a deletion to the log, keeping the latest hundred. */
    method Record(d: Deletion)
      modifies this`log, this`history
      ensures log == Cut([d] + old(log)) && history == [d] + old(history)
    {
      log := [d] + log;
      if |log| > LOG_SIZE { log := log[..LOG_SIZE]; }
      history := [d] + history;
    }

    /** Moves a namespace's deletion to `extra` after its expiry, or after now once that has passed. */
    method Extend(name: string, ttl: int, extra: int, now: int) returns (e: Option<Entry>, ok: bool)
      modifies this`cluster
      ensures cluster == AfterExtend(old(cluster), name, ttl, extra, now)
      ensures ok <==> Extendable(old(cluster), name, ttl)
      ensures ok ==> e == Some(ExtendedEntry(EntryOf(name, old(cluster)[name], ttl), extra, now))
    {
      if name !in cluster || !Planned(cluster[name]) { return None, false; }
      var entry := EntryOf(name, cluster[name], ttl);
      if entry.protection != Deletable { return Some(entry), false; }
      var from := entry.expiresAt;
      if from < now { from := now; }
      entry := entry.(expiresAt := Floor(from + extra), source := Extended, warned := false);
      cluster := cluster[name := cluster[name].(expires := Some(entry.expiresAt), warned := None)];
      return Some(entry), true;
    }
  }

  // ---- extending

  predicate Extendable(cluster: Cluster, name: string, ttl: int) {
    name in cluster && Planned(cluster[name]) && EntryOf(name, cluster[name], ttl).protection == Deletable
  }

  function ExtendedEntry(e: Entry, extra: int, now: int): Entry {
    e.(expiresAt := Floor((if e.expiresAt < now then now else e.expiresAt) + extra), source := Extended,
      warned := false)
  }

  function AfterExtend(cluster: Cluster, name: string, ttl: int, extra: int, now: int): Cluster {
    if !Extendable(cluster, name, ttl) then cluster
    else
      var at := ExtendedEntry(EntryOf(name, cluster[name], ttl), extra, now).expiresAt;
      cluster[name := cluster[name].(expires := Some(at), warned := None)]
  }

  /** After an extension of any sign, planning again gives exactly the entry Extend returned, whatever
      the time to live is by then: the returned expiry, not warned about, still to be deleted. It lies
      no earlier than the old expiry, where that is in whole seconds and not past, if and only if the
      extension is not negative. In general it is the extension after the old expiry, or after now if that
      has passed, less a fraction of a second. */
  lemma ReplanAfterExtend(cluster: Cluster, name: string, ttl: int, ttl': int, extra: int, now: int)
    requires Extendable(cluster, name, ttl)
    ensures var e, after := EntryOf(name, cluster[name], ttl), AfterExtend(cluster, name, ttl, extra, now);
            var again := EntryOf(name, after[name], ttl');
            && again == ExtendedEntry(e, extra, now)
            && again.protection == Deletable && !again.warned
            && (e.expiresAt >= now && e.expiresAt % SECOND == 0 ==> (again.expiresAt >= e.expiresAt <==> extra >= 0))
            && (extra >= 0 ==> again.expiresAt > e.expiresAt - SECOND && again.expiresAt > now - SECOND)
            && (extra >= SECOND ==> again.expiresAt > e.expiresAt && again.expiresAt > now)
            && var from := if e.expiresAt < now then now else e.expiresAt;
               from + extra - SECOND < again.expiresAt <= from + extra && again.expiresAt % SECOND == 0
  {
    var e := EntryOf(name, cluster[name], ttl);
    var from := if e.expiresAt < now then now else e.expiresAt;
    if e.expiresAt % SECOND == 0 && extra >= 0 { FloorKeepsWholeBound(from + extra, e.expiresAt); }
  }

  // ---- order within a run

  lemma {:induction false} BudgetOnlyFalls(q: Progress, c: Input, i: nat, n: nat)
    requires i <= n <= |c.plan| && Covered(c, q.cluster)
    ensures RunTo(q, c, n).budget <= RunTo(q, c, i).budget
    decreases n
  {
    hide Handle;
    if i == n {
    } else {
      BudgetOnlyFalls(q, c, i, n - 1);
      HandleSpends(RunTo(q, c, n - 1), c.plan[n - 1], c, ReplyAt(c, n - 1));
    }
  }

  lemma HandleSpends(q: Progress, e: Entry, c: Input, reply: Reply)
    requires e.namespace in q.cluster
    ensures Handle(q, e, c, reply).budget <= q.budget
  {
    hide Decide, Cut;
  }

  /** The action on the i-th entry of a run, or none once the run has stopped. */
  function ActionAt(q: Progress, c: Input, i: nat): Action
    requires i < |c.plan| && Covered(c, q.cluster)
  {
    if RunTo(q, c, i).aborted then Ignore else Decide(c.plan[i], c.now, c.lead, RunTo(q, c, i).budget)
  }

  /** No namespace left for later expires before one the same run deletes. */
  lemma SoonestDeletedFirst(q: Progress, c: Input, ttl: int, i: nat, j: nat)
    requires IsPlan(c.plan, q.cluster, ttl) && Covered(c, q.cluster) && i < |c.plan| && j < |c.plan|
    requires ActionAt(q, c, i) == Delete && ActionAt(q, c, j) == Leave
    ensures i < j && c.plan[i].expiresAt <= c.plan[j].expiresAt
  {
    hide RunTo;
    if j <= i { BudgetOnlyFalls(q, c, j, i); }
    assert !Sooner(c.plan[j], c.plan[i]);
  }
}
