/** Nobody's namespace goes unannounced: what every history keeps about warnings and notice. */
module ReaperWarnings {
  import opened Common
  import opened Reaper
  import opened ReaperRuns

  // ---- warned in an earlier run

  /** A run before this one warned this very namespace object about this very expiry. */
  ghost predicate WarnedBefore(warnings: seq<Warning>, uid: nat, expiry: int, run: nat) {
    exists i | 0 <= i < |warnings| :: warnings[i].uid == uid && warnings[i].expiry == expiry && warnings[i].run < run
  }

  lemma WarnedStill(warnings: seq<Warning>, v: Warning, uid: nat, expiry: int, run: nat, later: nat)
    requires WarnedBefore(warnings, uid, expiry, run) && run <= later
    ensures WarnedBefore(warnings + [v], uid, expiry, later)
  {
    var i :| 0 <= i < |warnings| && warnings[i].uid == uid && warnings[i].expiry == expiry && warnings[i].run < run;
    assert (warnings + [v])[i] == warnings[i];
  }

  /** A stamp on a namespace stands for a warning of an earlier run. */
  ghost predicate StampsTrue(cluster: Cluster, warnings: seq<Warning>, run: nat) {
    forall name | name in cluster && cluster[name].warned.Some? ::
      WarnedBefore(warnings, cluster[name].uid, cluster[name].warned.value, run)
  }

  /** A deletion under a positive lead happened at or after an expiry an earlier run had announced. */
  ghost predicate Announced(d: Deletion, warnings: seq<Warning>) {
    d.deletedAt >= d.expiresAt && (d.lead > 0 ==> WarnedBefore(warnings, d.uid, Floor(d.expiresAt), d.run))
  }

  ghost predicate AllAnnounced(h: seq<Deletion>, warnings: seq<Warning>) {
    forall i | 0 <= i < |h| :: Announced(h[i], warnings)
  }

  /** The plan was made from this cluster, and entries from i on have not been touched. */
  ghost predicate Untouched(cluster: Cluster, now: Cluster, plan: seq<Entry>, i: nat) {
    && cluster.Keys == now.Keys
    && forall k | i <= k < |plan| :: plan[k].namespace in now && now[plan[k].namespace] == cluster[plan[k].namespace]
  }

  ghost predicate OncePlanned(plan: seq<Entry>) {
    forall i, j | 0 <= i < j < |plan| :: plan[i].namespace != plan[j].namespace
  }

  lemma PlannedOnce(plan: seq<Entry>, cluster: Cluster, ttl: int)
    requires IsPlan(plan, cluster, ttl)
    ensures OncePlanned(plan)
  {
    hide PlansOne, EntryOf, Sooner, Planned;
  }

  lemma {:induction false} StillUntouched(q: Progress, c: Input, n: nat)
    requires n <= |c.plan| && OncePlanned(c.plan) && Covered(c, q.cluster)
    ensures Untouched(q.cluster, RunTo(q, c, n).cluster, c.plan, n)
    decreases n
  {
    hide Handle;
    if n == 0 {
    } else {
      StillUntouched(q, c, n - 1);
      HandleTouchesOne(RunTo(q, c, n - 1), c.plan[n - 1], c, ReplyAt(c, n - 1));
      assert forall k | n <= k < |c.plan| :: c.plan[n - 1].namespace != c.plan[k].namespace;
    }
  }

  lemma HandleTouchesOne(q: Progress, e: Entry, c: Input, reply: Reply)
    requires e.namespace in q.cluster
    ensures var r := Handle(q, e, c, reply);
            && r.cluster.Keys == q.cluster.Keys
            && forall name | name in q.cluster && name != e.namespace :: r.cluster[name] == q.cluster[name]
  {
    hide Decide, WarnedExpiry;
  }

  /** What the plan says about an entry, from the namespace it was made of. */
  lemma Plan1(q: Progress, c: Input, ttl: int, n: nat)
    requires 0 < n <= |c.plan| && IsPlan(c.plan, q.cluster, ttl) && Covered(c, q.cluster)
    ensures var e, ns := c.plan[n - 1], q.cluster[c.plan[n - 1].namespace];
            && RunTo(q, c, n - 1).cluster[e.namespace] == ns && e.uid == ns.uid
            && (e.warned <==> ns.warned == Some(Floor(e.expiresAt)))
            && (ns.expires.Some? ==> e.expiresAt == ns.expires.value)
  {
    hide RunTo, Ordered;
    PlannedOnce(c.plan, q.cluster, ttl);
    StillUntouched(q, c, n - 1);
    assert PlansOne(c.plan[n - 1], q.cluster, ttl);
  }

  ghost predicate WarningsKept(q: Progress, run: nat) {
    StampsTrue(q.cluster, q.warnings, run) && AllAnnounced(q.history, q.warnings)
  }

  lemma StampKept(q: Progress, e: Entry, c: Input, postponed: bool)
    requires e.namespace in q.cluster && q.cluster[e.namespace].uid == e.uid
    requires WarningsKept(q, c.run + 1)
    ensures WarningsKept(Warned(q, e, c, postponed), c.run + 1)
  {
    hide WarnedBefore, WarnedExpiry;
    var r := Warned(q, e, c, postponed);
    var v := r.warnings[|q.warnings|];
    assert r.warnings == q.warnings + [v];
    forall name | name in r.cluster && r.cluster[name].warned.Some?
      ensures WarnedBefore(r.warnings, r.cluster[name].uid, r.cluster[name].warned.value, c.run + 1)
    {
      if name == e.namespace {
        JustWarned(q.warnings, v, c.run + 1);
      } else {
        WarnedStill(q.warnings, v, r.cluster[name].uid, r.cluster[name].warned.value, c.run + 1, c.run + 1);
      }
    }
    forall i | 0 <= i < |q.history| ensures Announced(q.history[i], r.warnings) {
      var d := q.history[i];
      if d.lead > 0 { WarnedStill(q.warnings, v, d.uid, Floor(d.expiresAt), d.run, d.run); }
    }
  }

  lemma JustWarned(warnings: seq<Warning>, v: Warning, later: nat)
    requires v.run < later
    ensures WarnedBefore(warnings + [v], v.uid, v.expiry, later)
  {
    assert (warnings + [v])[|warnings|] == v;
  }

  lemma {:induction false} WarningsGrow(q: Progress, c: Input, n: nat, uid: nat, expiry: int, run: nat)
    requires n <= |c.plan| && Covered(c, q.cluster) && WarnedBefore(q.warnings, uid, expiry, run)
    ensures WarnedBefore(RunTo(q, c, n).warnings, uid, expiry, run)
    decreases n
  {
    hide WarnedBefore, Decide, WarnedExpiry;
    if n == 0 {
    } else {
      WarningsGrow(q, c, n - 1, uid, expiry, run);
      var before, e := RunTo(q, c, n - 1), c.plan[n - 1];
      forall postponed ensures WarnedBefore(Warned(before, e, c, postponed).warnings, uid, expiry, run) {
        WarnedStill(before.warnings, Warned(before, e, c, postponed).warnings[|before.warnings|], uid, expiry, run,
          run);
      }
    }
  }

  /** Through a run, given that all stamps at its start come from earlier runs. */
  lemma {:induction false} RunKeepsWarnings(q: Progress, c: Input, ttl: int, n: nat)
    requires n <= |c.plan| && IsPlan(c.plan, q.cluster, ttl) && Covered(c, q.cluster)
    requires StampsTrue(q.cluster, q.warnings, c.run) && AllAnnounced(q.history, q.warnings)
    ensures WarningsKept(RunTo(q, c, n), c.run + 1)
    decreases n
  {
    hide WarnedBefore, Warned, IsPlan, Deleted, WarnedExpiry, StampsTrue, AllAnnounced;
    if n == 0 {
      Later(q.cluster, q.warnings, c.run);
    } else {
      RunKeepsWarnings(q, c, ttl, n - 1);
      var before, e := RunTo(q, c, n - 1), c.plan[n - 1];
      Plan1(q, c, ttl, n);
      match Decide(e, c.now, c.lead, before.budget)
      case Postpone => StampKept(before, e, c, true);
      case Warn => StampKept(before, e, c, false);
      case Delete =>
        if c.lead > 0 && e.warned {
          StampMeans(q.cluster, q.warnings, c.run, e.namespace);
          WarningsGrow(q, c, n - 1, e.uid, Floor(e.expiresAt), c.run);
        }
        DeletionAnnounced(before, e, c);
      case Leave =>
      case Ignore =>
    }
  }

  lemma StampMeans(cluster: Cluster, warnings: seq<Warning>, run: nat, name: string)
    requires StampsTrue(cluster, warnings, run) && name in cluster && cluster[name].warned.Some?
    ensures WarnedBefore(warnings, cluster[name].uid, cluster[name].warned.value, run)
  {
  }

  lemma Later(cluster: Cluster, warnings: seq<Warning>, run: nat)
    requires StampsTrue(cluster, warnings, run)
    ensures StampsTrue(cluster, warnings, run + 1)
  {
  }

  lemma DeletionAnnounced(q: Progress, e: Entry, c: Input)
    requires e.namespace in q.cluster && WarningsKept(q, c.run + 1) && c.now >= e.expiresAt
    requires c.lead > 0 ==> WarnedBefore(q.warnings, e.uid, Floor(e.expiresAt), c.run)
    ensures WarningsKept(Deleted(q, e, c), c.run + 1)
  {
    hide WarnedBefore, Cut;
    var r := Deleted(q, e, c);
    assert r.history[1..] == q.history;
    assert forall i | 0 < i < |r.history| :: r.history[i] == q.history[i - 1];
  }

  lemma {:induction false} WarningsAlwaysKept(worlds: seq<World>, steps: seq<Step>, k: nat)
    requires History(worlds, steps) && k <= |steps|
    ensures StampsTrue(worlds[k].cluster, worlds[k].warnings, worlds[k].runs)
    ensures AllAnnounced(worlds[k].history, worlds[k].warnings)
    decreases k
  {
    hide WarnedBefore, Announced, Next, Possible;
    if k == 0 {
    } else {
      WarningsAlwaysKept(worlds, steps, k - 1);
      var w, s := worlds[k - 1], steps[k - 1];
      assert Possible(w, s) && worlds[k - 1 + 1] == Next(w, s);
      StepKeepsWarnings(w, s);
    }
  }

  lemma StepKeepsWarnings(w: World, s: Step)
    requires Possible(w, s)
    requires StampsTrue(w.cluster, w.warnings, w.runs) && AllAnnounced(w.history, w.warnings)
    ensures var n := Next(w, s); StampsTrue(n.cluster, n.warnings, n.runs) && AllAnnounced(n.history, n.warnings)
  {
    hide WarnedBefore, Announced, IsPlan, RunTo;
    match s
    case Reap(_, ttl, _, plan, _) =>
      PlanCovers(plan, w.cluster, ttl);
      RunKeepsWarnings(StartOf(w, s), InputOf(w, s), ttl, |plan|);
    case Extend(_, _, _, _) =>
    case Change(_) =>
  }

  /** Warning before deletion: over any history, each namespace deleted under a positive lead had been
      warned about in an earlier run, never the same one, for exactly the expiry that has passed. */
  lemma DeletedOnlyAfterWarning(worlds: seq<World>, steps: seq<Step>, k: nat, i: nat) returns (j: nat)
    requires History(worlds, steps) && k <= |steps| && i < |worlds[k].history| && worlds[k].history[i].lead > 0
    ensures var d := worlds[k].history[i];
            && j < |worlds[k].warnings|
            && worlds[k].warnings[j].uid == d.uid && worlds[k].warnings[j].run < d.run
            && worlds[k].warnings[j].expiry == Floor(d.expiresAt) && d.expiresAt <= d.deletedAt
  {
    WarningsAlwaysKept(worlds, steps, k);
    var d, warnings := worlds[k].history[i], worlds[k].warnings;
    assert Announced(d, warnings);
    j :| 0 <= j < |warnings| && warnings[j].uid == d.uid && warnings[j].expiry == Floor(d.expiresAt)
      && warnings[j].run < d.run;
  }

  // ---- the notice a late warning gives

  ghost predicate OneUidEach(cluster: Cluster, used: set<nat>) {
    && (forall name | name in cluster :: cluster[name].uid in used)
    && forall a, b | a in cluster && b in cluster && a != b :: cluster[a].uid != cluster[b].uid
  }

  ghost predicate WholeSeconds(cluster: Cluster) {
    forall name | name in cluster && cluster[name].expires.Some? :: cluster[name].expires.value % SECOND == 0
  }

  /** The late warning v still binds: whoever carries its uid expires no earlier than announced. */
  predicate Binds(v: Warning, ns: Preview) {
    v.postponed && ns.uid == v.uid ==> ns.expires.Some? && ns.expires.value >= v.expiry
  }

  ghost predicate NoticeHeld(cluster: Cluster, warnings: seq<Warning>, used: set<nat>) {
    forall i | 0 <= i < |warnings| ::
      && warnings[i].uid in used
      && (warnings[i].postponed ==> warnings[i].expiry == Floor(warnings[i].at + warnings[i].lead))
      && forall name | name in cluster :: Binds(warnings[i], cluster[name])
  }

  /** Deletions of later runs respect it. */
  ghost predicate NoticeGiven(h: seq<Deletion>, warnings: seq<Warning>, run: nat) {
    forall i, d | 0 <= i < |warnings| && 0 <= d < |h| ::
      h[d].run < run && warnings[i].run < run
      && (warnings[i].postponed && warnings[i].uid == h[d].uid && warnings[i].run < h[d].run ==>
        h[d].deletedAt >= warnings[i].expiry)
  }

  ghost predicate NoticeKept(q: Progress, used: set<nat>, run: nat) {
    OneUidEach(q.cluster, used) && WholeSeconds(q.cluster) && NoticeHeld(q.cluster, q.warnings, used)
    && NoticeGiven(q.history, q.warnings, run) && RunsBefore(q, run)
  }

  ghost predicate RunsBefore(q: Progress, run: nat) {
    && (forall i | 0 <= i < |q.warnings| :: q.warnings[i].run < run)
    && forall d | 0 <= d < |q.history| :: q.history[d].run < run
  }

  lemma WarningKeepsNotice(q: Progress, e: Entry, c: Input, postponed: bool, used: set<nat>)
    requires e.namespace in q.cluster && q.cluster[e.namespace].uid == e.uid
    requires q.cluster[e.namespace].expires.Some? ==> e.expiresAt == q.cluster[e.namespace].expires.value
    requires postponed ==> c.now >= e.expiresAt && c.lead > 0
    requires NoticeKept(q, used, c.run + 1)
    ensures NoticeKept(Warned(q, e, c, postponed), used, c.run + 1)
  {
    hide Floor;
    var r, at := Warned(q, e, c, postponed), WarnedExpiry(e, c, postponed);
    var v := r.warnings[|q.warnings|];
    assert forall i | 0 <= i < |q.warnings| :: r.warnings[i] == q.warnings[i];
    var ns := q.cluster[e.namespace];
    if postponed && ns.expires.Some? { FloorKeepsWholeBound(c.now + c.lead, ns.expires.value); }
    forall i, name | 0 <= i < |r.warnings| && name in r.cluster ensures Binds(r.warnings[i], r.cluster[name]) {
      if i < |q.warnings| { assert Binds(q.warnings[i], q.cluster[name]); }
    }
  }

  lemma DeletionKeepsNotice(q: Progress, e: Entry, c: Input, used: set<nat>)
    requires e.namespace in q.cluster && q.cluster[e.namespace].uid == e.uid && c.now >= e.expiresAt
    requires q.cluster[e.namespace].expires.Some? ==> e.expiresAt == q.cluster[e.namespace].expires.value
    requires NoticeKept(q, used, c.run + 1)
    ensures NoticeKept(Deleted(q, e, c), used, c.run + 1)
  {
    hide Cut;
    var r := Deleted(q, e, c);
    assert forall d | 0 < d < |r.history| :: r.history[d] == q.history[d - 1];
    forall i | 0 <= i < |q.warnings| && q.warnings[i].postponed && q.warnings[i].uid == e.uid
      ensures c.now >= q.warnings[i].expiry
    {
      assert Binds(q.warnings[i], q.cluster[e.namespace]);
    }
    forall i, name | 0 <= i < |r.warnings| && name in r.cluster ensures Binds(r.warnings[i], r.cluster[name]) {
      assert Binds(q.warnings[i], q.cluster[name]);
    }
  }

  lemma {:induction false} RunKeepsNotice(q: Progress, c: Input, ttl: int, used: set<nat>, n: nat)
    requires n <= |c.plan| && IsPlan(c.plan, q.cluster, ttl) && Covered(c, q.cluster)
    requires NoticeKept(q, used, c.run)
    ensures NoticeKept(RunTo(q, c, n), used, c.run + 1)
    decreases n
  {
    hide OneUidEach, WholeSeconds, NoticeHeld, Warned, Deleted, IsPlan;
    if n == 0 {
    } else {
      RunKeepsNotice(q, c, ttl, used, n - 1);
      var before, e := RunTo(q, c, n - 1), c.plan[n - 1];
      Plan1(q, c, ttl, n);
      match Decide(e, c.now, c.lead, before.budget)
      case Postpone => WarningKeepsNotice(before, e, c, true, used);
      case Warn => WarningKeepsNotice(before, e, c, false, used);
      case Delete => DeletionKeepsNotice(before, e, c, used);
      case Leave =>
      case Ignore =>
    }
  }

  ghost predicate NoticeIn(w: World) {
    NoticeKept(Progress(w.cluster, w.log, w.history, w.warnings, 0, false), w.used, w.runs)
  }

  /** No extension in this history is negative. */
  ghost predicate NeverShortens(steps: seq<Step>) {
    forall k | 0 <= k < |steps| && steps[k].Extend? :: steps[k].extra >= 0
  }

  lemma ExtendKeepsNotice(w: World, s: Step)
    requires s.Extend? && s.extra >= 0 && NoticeIn(w)
    ensures NoticeIn(Next(w, s))
  {
    hide Floor;
    if Extendable(w.cluster, s.name, s.ttl) {
      var ns, e := w.cluster[s.name], EntryOf(s.name, w.cluster[s.name], s.ttl);
      if ns.expires.Some? {
        FloorKeepsWholeBound((if e.expiresAt < s.now then s.now else e.expiresAt) + s.extra, ns.expires.value);
      }
      var after := Next(w, s).cluster;
      forall i, name | 0 <= i < |w.warnings| && name in after ensures Binds(w.warnings[i], after[name]) {
        assert Binds(w.warnings[i], w.cluster[name]);
      }
    }
  }

  lemma ChangeKeepsNotice(w: World, s: Step)
    requires s.Change? && Possible(w, s) && NoticeIn(w)
    ensures NoticeIn(Next(w, s))
  {
    var n := Next(w, s);
    forall i, name | 0 <= i < |w.warnings| && name in n.cluster ensures Binds(w.warnings[i], n.cluster[name]) {
      if KeepsItsAnnotations(w.cluster, n.cluster, name) { assert Binds(w.warnings[i], w.cluster[name]); }
    }
  }

  lemma ReapKeepsNotice(w: World, s: Step)
    requires s.Reap? && Possible(w, s) && NoticeIn(w)
    ensures NoticeIn(Next(w, s))
  {
    hide RunTo, IsPlan;
    PlanCovers(s.plan, w.cluster, s.ttl);
    RunKeepsNotice(StartOf(w, s), InputOf(w, s), s.ttl, w.used, |s.plan|);
  }

  lemma {:induction false} NoticeAlwaysKept(worlds: seq<World>, steps: seq<Step>, k: nat)
    requires History(worlds, steps) && NeverShortens(steps) && k <= |steps|
    ensures NoticeIn(worlds[k])
    decreases k
  {
    hide Next, Possible;
    if k == 0 {
    } else {
      hide NoticeKept;
      NoticeAlwaysKept(worlds, steps, k - 1);
      var w, s := worlds[k - 1], steps[k - 1];
      assert Possible(w, s) && worlds[k - 1 + 1] == Next(w, s);
      match s
      case Reap(_, _, _, _, _) => ReapKeepsNotice(w, s);
      case Extend(_, _, _, _) => ExtendKeepsNotice(w, s);
      case Change(_) => ChangeKeepsNotice(w, s);
    }
  }

  /** Deletion i of the history comes later than the late warning j to the same namespace, and no
      earlier than the lead, less the fraction of a second its stored expiry loses, after it. */
  ghost predicate NoticeRespected(w: World, j: nat, i: nat)
    requires j < |w.warnings| && i < |w.history|
  {
    var v, d := w.warnings[j], w.history[i];
    v.postponed && v.uid == d.uid && v.run < d.run ==> d.deletedAt > v.at + v.lead - SECOND
  }

  /** A namespace that expired unwarned gets the whole lead it was promised, less the fraction of a
      second its stored expiry loses, whatever time to live, label or extension that is not negative
      comes in between. */
  lemma LateWarningGivesNotice(worlds: seq<World>, steps: seq<Step>, k: nat, j: nat, i: nat)
    requires History(worlds, steps) && NeverShortens(steps) && k <= |steps|
    requires j < |worlds[k].warnings| && i < |worlds[k].history|
    ensures NoticeRespected(worlds[k], j, i)
  {
    hide History, Next;
    NoticeAlwaysKept(worlds, steps, k);
  }

  // ---- what a run does to each namespace

  lemma {:induction false} SettledOnceHandled(q: Progress, c: Input, i: nat, n: nat)
    requires i < n <= |c.plan| && OncePlanned(c.plan) && Covered(c, q.cluster)
    ensures RunTo(q, c, n).cluster[c.plan[i].namespace] == RunTo(q, c, i + 1).cluster[c.plan[i].namespace]
    decreases n
  {
    hide Handle;
    if n == i + 1 {
    } else {
      SettledOnceHandled(q, c, i, n - 1);
      StepTouchesOne(q, c, n, c.plan[i].namespace);
    }
  }

  lemma StepTouchesOne(q: Progress, c: Input, n: nat, name: string)
    requires 0 < n <= |c.plan| && Covered(c, q.cluster) && name in q.cluster && c.plan[n - 1].namespace != name
    ensures RunTo(q, c, n).cluster[name] == RunTo(q, c, n - 1).cluster[name]
  {
    hide Handle;
    HandleTouchesOne(RunTo(q, c, n - 1), c.plan[n - 1], c, ReplyAt(c, n - 1));
  }

  lemma {:induction false} UnplannedUntouched(q: Progress, c: Input, n: nat, name: string)
    requires n <= |c.plan| && Covered(c, q.cluster) && name in q.cluster
    requires forall i | 0 <= i < n :: c.plan[i].namespace != name
    ensures RunTo(q, c, n).cluster[name] == q.cluster[name]
    decreases n
  {
    hide Handle;
    if n == 0 {
    } else {
      UnplannedUntouched(q, c, n - 1, name);
      StepTouchesOne(q, c, n, name);
    }
  }

  /** What the action on an entry makes of its namespace. */
  function Treated(ns: Preview, e: Entry, c: Input, action: Action, reply: Reply): Preview {
    if reply != Done then ns
    else match action
      case Postpone => ns.(warned := Some(WarnedExpiry(e, c, true)), expires := Some(WarnedExpiry(e, c, true)))
      case Warn => ns.(warned := Some(WarnedExpiry(e, c, false)))
      case Delete => ns.(terminating := true)
      case Leave => ns
      case Ignore => ns
  }

  lemma Effect(q: Progress, c: Input, ttl: int, i: nat)
    requires i < |c.plan| && IsPlan(c.plan, q.cluster, ttl) && Covered(c, q.cluster)
    ensures var e := c.plan[i];
            RunTo(q, c, |c.plan|).cluster[e.namespace] ==
              Treated(q.cluster[e.namespace], e, c, ActionAt(q, c, i), ReplyAt(c, i))
  {
    hide IsPlan, EntryOf, WarnedExpiry, Decide, Cut;
    PlannedOnce(c.plan, q.cluster, ttl);
    SettledOnceHandled(q, c, i, |c.plan|);
    StillUntouched(q, c, i);
  }

  /** When a namespace expires: as extended, else its creation plus its label's or the setting's time. */
  function Expiry(ns: Preview, ttl: int): int {
    match ns.expires
    case Some(at) => at
    case None => ns.created + if ns.ttlLabel.Lasts? then ns.ttlLabel.life else ttl
  }

  /** The reaper may delete it: not a system namespace, not on a schedule, not kept by its label, and
      with a time to live one way or the other. */
  predicate MayGo(ns: Preview, ttl: int) {
    && !ns.system && !ns.named && ns.ttlLabel != Off && ns.ttlLabel != Malformed
    && (ns.expires.Some? || Expiry(ns, ttl) > ns.created)
  }

  lemma EntryMeans(name: string, ns: Preview, ttl: int)
    ensures var e := EntryOf(name, ns, ttl);
            && (e.protection == Deletable <==> MayGo(ns, ttl))
            && (MayGo(ns, ttl) ==> e.expiresAt == Expiry(ns, ttl))
            && (MayGo(ns, ttl) ==> (e.warned <==> ns.warned == Some(Floor(Expiry(ns, ttl)))))
  {
  }

  /** A run deletes only selected namespaces that may go and have expired, and under a positive lead
      only ones stamped with the very expiry that has passed. */
  lemma OnlyExpiredAreDeleted(q: Progress, c: Input, ttl: int, name: string)
    requires IsPlan(c.plan, q.cluster, ttl) && Covered(c, q.cluster) && name in q.cluster
    requires !q.cluster[name].terminating && RunTo(q, c, |c.plan|).cluster[name].terminating
    ensures var ns := q.cluster[name];
            && ns.selected && MayGo(ns, ttl) && c.now >= Expiry(ns, ttl)
            && (c.lead > 0 ==> ns.warned == Some(Floor(Expiry(ns, ttl))))
  {
    hide IsPlan, EntryOf, MayGo, Expiry, RunTo;
    if forall i | 0 <= i < |c.plan| :: c.plan[i].namespace != name {
      UnplannedUntouched(q, c, |c.plan|, name);
      assert false;
    } else {
      var i :| 0 <= i < |c.plan| && c.plan[i].namespace == name;
      Effect(q, c, ttl, i);
      PlanOf(c, q.cluster, ttl, i);
      EntryMeans(name, q.cluster[name], ttl);
    }
  }

  lemma PlanOf(c: Input, cluster: Cluster, ttl: int, i: nat)
    requires IsPlan(c.plan, cluster, ttl) && i < |c.plan|
    ensures PlansOne(c.plan[i], cluster, ttl)
  {
    hide EntryOf, Sooner;
  }

  lemma Planned1(c: Input, cluster: Cluster, ttl: int, name: string) returns (i: nat)
    requires IsPlan(c.plan, cluster, ttl) && name in cluster && Planned(cluster[name])
    ensures i < |c.plan| && c.plan[i] == EntryOf(name, cluster[name], ttl) && c.plan[i].namespace == name
  {
    hide EntryOf, Sooner;
    EntryNamed(name, cluster[name], ttl);
    i :| 0 <= i < |c.plan| && c.plan[i] == EntryOf(name, cluster[name], ttl);
  }

  /** A run that meets no failure leaves nobody unwarned: every selected namespace that may go and
      whose warning time has come is deleted, or stamped with the expiry it now has. */
  lemma DueAreWarned(q: Progress, c: Input, ttl: int, name: string)
    requires IsPlan(c.plan, q.cluster, ttl) && Covered(c, q.cluster) && name in q.cluster && c.lead > 0
    requires !q.aborted && forall i | 0 <= i < |c.plan| :: ReplyAt(c, i) == Done
    requires var ns := q.cluster[name]; Planned(ns) && MayGo(ns, ttl) && c.now >= Expiry(ns, ttl) - c.lead
    ensures var ns := RunTo(q, c, |c.plan|).cluster[name];
            ns.terminating || (MayGo(ns, ttl) && ns.warned == Some(Floor(Expiry(ns, ttl))))
  {
    hide IsPlan, EntryOf, RunTo, Planned;
    var i := Planned1(c, q.cluster, ttl, name);
    EntryMeans(name, q.cluster[name], ttl);
    NeverAborts(q, c, i);
    Effect(q, c, ttl, i);
    FloorKeepsWholeBound(c.now + c.lead, Floor(c.now + c.lead));
  }

  lemma {:induction false} NeverAborts(q: Progress, c: Input, n: nat)
    requires n <= |c.plan| && Covered(c, q.cluster) && !q.aborted
    requires forall i | 0 <= i < |c.plan| :: ReplyAt(c, i) == Done
    ensures !RunTo(q, c, n).aborted
    decreases n
  {
    hide Decide, Cut;
    if n == 0 {
    } else {
      NeverAborts(q, c, n - 1);
    }
  }

  /** Nothing else is touched: one that may not go, or whose warning time has not come, stays as it is. */
  lemma OthersUntouched(q: Progress, c: Input, ttl: int, name: string)
    requires IsPlan(c.plan, q.cluster, ttl) && Covered(c, q.cluster) && name in q.cluster
    requires var ns := q.cluster[name];
             !ns.selected || ns.terminating || !MayGo(ns, ttl)
               || (c.now < Expiry(ns, ttl) && c.now < Expiry(ns, ttl) - c.lead)
    ensures RunTo(q, c, |c.plan|).cluster[name] == q.cluster[name]
  {
    hide IsPlan, EntryOf, MayGo, Expiry, RunTo;
    if forall i | 0 <= i < |c.plan| :: c.plan[i].namespace != name {
      UnplannedUntouched(q, c, |c.plan|, name);
    } else {
      var i :| 0 <= i < |c.plan| && c.plan[i].namespace == name;
      Effect(q, c, ttl, i);
      PlanOf(c, q.cluster, ttl, i);
      EntryMeans(name, q.cluster[name], ttl);
    }
  }
}
