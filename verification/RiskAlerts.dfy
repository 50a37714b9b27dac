/** Performance-risk alerts: which open risks a check announces, and since when each is open. */
module RiskAlerts {
  import opened Common

  const RISK_REALERT_AFTER: int := 24 * HOUR
  const RISK_FIRED_KEPT: int := 7 * 24 * HOUR

  /** What identifies a risk across checks. */
  datatype Key = Key(namespace: string, kind: string, workload: string, container: string, code: string)
  datatype OpenRisk = OpenRisk(message: string, fix: string, since: int)
  datatype State = State(open: map<Key, OpenRisk>, fired: map<Key, int>, checkedAt: int)

  const NO_RISKS := State(map[], map[], 0)

  /** A critical risk a report names. */
  datatype Finding = Finding(kind: string, workload: string, container: string, code: string, message: string,
      fix: string)

  /** What assessing a namespace gives: an error, or its critical risks. */
  datatype Report = Unassessed(namespace: string) | Assessed(namespace: string, findings: seq<Finding>)

  datatype Post = Accepted | NoDestination | Rejected

  /** One check: the time, whether alerts are on, the reports of the namespaces it looks at, how the
      post goes, and whether the state is written. */
  datatype Check = Check(now: int, enabled: bool, reports: seq<Report>, post: Post, saved: bool)

  function KeyOf(ns: string, f: Finding): Key { Key(ns, f.kind, f.workload, f.container, f.code) }

  function Opened(last: map<Key, OpenRisk>, key: Key, f: Finding, now: int): OpenRisk {
    OpenRisk(f.message, f.fix, if key in last then last[key].since else now)
  }

  /** The open risks and the unseen ones, gathered so far. */
  datatype Found = Found(open: map<Key, OpenRisk>, unseen: set<Key>)

  function Of(last: map<Key, OpenRisk>, ns: string): map<Key, OpenRisk> {
    map key | key in last && key.namespace == ns :: last[key]
  }

  function KeptUnseen(found: Found, last: map<Key, OpenRisk>, ns: string): Found {
    Found(found.open + Of(last, ns), found.unseen + Of(last, ns).Keys)
  }

  function WithFindings(found: Found, last: map<Key, OpenRisk>, ns: string, findings: seq<Finding>, n: nat,
      now: int): Found
    requires n <= |findings|
  {
    if n == 0 then found
    else
      var key := KeyOf(ns, findings[n - 1]);
      var before := WithFindings(found, last, ns, findings, n - 1, now);
      before.(open := before.open[key := Opened(last, key, findings[n - 1], now)])
  }

  function Gathered(last: map<Key, OpenRisk>, reports: seq<Report>, n: nat, now: int): Found
    requires n <= |reports|
  {
    if n == 0 then Found(map[], {})
    else
      var before := Gathered(last, reports, n - 1, now);
      match reports[n - 1]
      case Unassessed(ns) => KeptUnseen(before, last, ns)
      case Assessed(ns, findings) => WithFindings(before, last, ns, findings, |findings|, now)
  }

  /** The risks to announce: seen now, and never announced or not in the last day. */
  function Announceable(open: map<Key, OpenRisk>, unseen: set<Key>, fired: map<Key, int>, now: int): set<Key> {
    set key | key in open && key !in unseen && (key !in fired || now - fired[key] >= RISK_REALERT_AFTER)
  }

  function FoundBy(st: State, c: Check): Found { Gathered(st.open, c.reports, |c.reports|, c.now) }

  /** The risks the check marks as announced. */
  function Marked(st: State, c: Check): set<Key> {
    if c.enabled && c.post != Rejected then Announceable(FoundBy(st, c).open, FoundBy(st, c).unseen, st.fired, c.now)
      else {}
  }

  function MarkAll(fired: map<Key, int>, keys: set<Key>, now: int): map<Key, int> {
    fired + map key | key in keys :: now
  }

  function Forgetting(fired: map<Key, int>, open: map<Key, OpenRisk>, now: int): map<Key, int> {
    map key | key in fired && !(key !in open && now - fired[key] > RISK_FIRED_KEPT) :: fired[key]
  }

  function Checked(st: State, c: Check): State {
    if !c.enabled then st.(open := map[])
    else
      var open := FoundBy(st, c).open;
      State(open, Forgetting(MarkAll(st.fired, Marked(st, c), c.now), open, c.now), c.now)
  }

  /** What is stored afterwards: nothing new when a write fails. */
  function Next(st: State, c: Check): State { if c.saved then Checked(st, c) else st }

  class RiskAlerter {
    var state: State

    constructor ()
      ensures state == NO_RISKS
    {
      state := NO_RISKS;
    }

    method RunCheck(c: Check) returns (announced: set<Key>)
      modifies this
      ensures state == Next(old(state), c) && announced == Marked(old(state), c)
    {
      announced := {};
      if !c.enabled {
        if state.open != map[] && c.saved { state := state.(open := map[]); }
        return;
      }
      var open: map<Key, OpenRisk>, unseen: set<Key> := map[], {};
      for i := 0 to |c.reports|
        invariant Found(open, unseen) == Gathered(state.open, c.reports, i, c.now)
        invariant state == old(state)
      {
        match c.reports[i] {
          case Unassessed(ns) => open, unseen := KeepUnseen(open, unseen, state.open, ns);
          case Assessed(ns, findings) => open := AddFindings(open, unseen, ns, findings, c.now);
        }
      }
      var due := Fresh(open, unseen, state.fired, c.now);
      var fired := state.fired;
      if c.post != Rejected {
        announced := due;
        fired := MarkFired(fired, due, c.now);
      }
      fired := DropOld(fired, open, c.now);
      if c.saved { state := State(open, fired, c.now); }
    }

    /** Keeps the risks a namespace had open, unseen this time. */
    method KeepUnseen(open: map<Key, OpenRisk>, unseen: set<Key>, last: map<Key, OpenRisk>, ns: string)
      returns (open': map<Key, OpenRisk>, unseen': set<Key>)
      ensures Found(open', unseen') == KeptUnseen(Found(open, unseen), last, ns)
    {
      var kept := OpenIn(last, ns);
      open', unseen' := open + kept, unseen + kept.Keys;
    }

    method OpenIn(last: map<Key, OpenRisk>, ns: string) returns (kept: map<Key, OpenRisk>)
      ensures kept == Of(last, ns)
    {
      kept := map[];
      var rest := last.Keys;
      while rest != {}
        invariant rest <= last.Keys
        invariant forall key :: key in kept <==> key in last && key !in rest && key.namespace == ns
        invariant forall key | key in kept :: kept[key] == last[key]
        decreases |rest|
      {
        var key :| key in rest;
        rest := rest - {key};
        if key.namespace == ns { kept := kept[key := last[key]]; }
      }
    }

    method AddFindings(open: map<Key, OpenRisk>, ghost unseen: set<Key>, ns: string, findings: seq<Finding>, now: int)
      returns (open': map<Key, OpenRisk>)
      ensures Found(open', unseen) == WithFindings(Found(open, unseen), state.open, ns, findings, |findings|, now)
    {
      open' := open;
      for i := 0 to |findings|
        invariant Found(open', unseen) == WithFindings(Found(open, unseen), state.open, ns, findings, i, now)
      {
        var f := findings[i];
        var risk := OpenRisk(f.message, f.fix, now);
        if KeyOf(ns, f) in state.open { risk := risk.(since := state.open[KeyOf(ns, f)].since); }
        open' := open'[KeyOf(ns, f) := risk];
      }
    }

    method Fresh(open: map<Key, OpenRisk>, unseen: set<Key>, fired: map<Key, int>, now: int) returns (due: set<Key>)
      ensures due == Announceable(open, unseen, fired, now)
    {
      due := {};
      var rest := open.Keys;
      while rest != {}
        invariant rest <= open.Keys
        invariant forall key :: key in due <==> key in Announceable(open, unseen, fired, now) && key !in rest
        decreases |rest|
      {
        var key :| key in rest;
        rest := rest - {key};
        if key !in unseen && (key !in fired || now - fired[key] >= RISK_REALERT_AFTER) { due := due + {key}; }
      }
    }

    method MarkFired(fired: map<Key, int>, due: set<Key>, now: int) returns (fired': map<Key, int>)
      ensures fired' == MarkAll(fired, due, now)
    {
      fired' := fired;
      var rest := due;
      while rest != {}
        invariant rest <= due && fired' == MarkAll(fired, due - rest, now)
        decreases |rest|
      {
        var key :| key in rest;
        assert MarkAll(fired, due - (rest - {key}), now) == MarkAll(fired, due - rest, now)[key := now];
        rest := rest - {key};
        fired' := fired'[key := now];
      }
      assert due - rest == due;
    }

    method DropOld(fired: map<Key, int>, open: map<Key, OpenRisk>, now: int) returns (fired': map<Key, int>)
      ensures fired' == Forgetting(fired, open, now)
    {
      fired' := fired;
      var rest := fired.Keys;
      while rest != {}
        invariant rest <= fired.Keys
        invariant forall key :: key in fired' <==>
                    && key in fired
                    && (key in rest || !(key !in open && now - fired[key] > RISK_FIRED_KEPT))
        invariant forall key | key in fired' :: fired'[key] == fired[key]
        decreases |rest|
      {
        var key :| key in rest;
        rest := rest - {key};
        if key !in open && now - fired[key] > RISK_FIRED_KEPT { fired' := fired' - {key}; }
      }
    }
  }

  // ---- runs

  ghost predicate Run(states: seq<State>, checks: seq<Check>) {
    && |states| == |checks| + 1 && states[0] == NO_RISKS
    && (forall k | 0 <= k < |checks| :: states[k + 1] == Next(states[k], checks[k]))
    && forall i, j | 0 <= i < j < |checks| :: checks[i].now <= checks[j].now
  }

  /** The announcement of a key at time t is on record, was renewed later, or was forgotten when it
      was more than a week old. */
  predicate OnRecord(st: State, key: Key, t: int, now: int) {
    if key in st.fired then st.fired[key] >= t else now - t > RISK_FIRED_KEPT
  }

  lemma RecordNext(st: State, c: Check, key: Key, t: int, now: int)
    requires OnRecord(st, key, t, now) && t <= now <= c.now
    ensures OnRecord(Next(st, c), key, t, c.now)
  {
    hide Announceable, FoundBy;
  }

  lemma RecordFirst(st: State, c: Check, key: Key)
    requires c.saved && key in Marked(st, c)
    ensures OnRecord(Next(st, c), key, c.now, c.now)
  {
    hide FoundBy;
  }

  lemma {:induction false} AnnouncementOnRecord(states: seq<State>, checks: seq<Check>, i: nat, k: nat, key: Key)
    requires Run(states, checks) && i < k <= |checks| && checks[i].saved && key in Marked(states[i], checks[i])
    ensures OnRecord(states[k], key, checks[i].now, checks[k - 1].now)
    decreases k
  {
    hide Next, Marked, OnRecord;
    assert states[k - 1 + 1] == Next(states[k - 1], checks[k - 1]);
    if k == i + 1 {
      RecordFirst(states[i], checks[i], key);
    } else {
      AnnouncementOnRecord(states, checks, i, k - 1, key);
      RecordNext(states[k - 1], checks[k - 1], key, checks[i].now, checks[k - 2].now);
    }
  }

  /** Two announcements of one risk are at least 24 hours apart once the first is written, although
      old entries are pruned, and whatever the writes in between do. */
  lemma AnnouncementsADayApart(states: seq<State>, checks: seq<Check>, i: nat, j: nat, key: Key)
    requires Run(states, checks) && i < j < |checks|
    requires checks[i].saved && key in Marked(states[i], checks[i]) && key in Marked(states[j], checks[j])
    ensures checks[j].now - checks[i].now >= 24 * HOUR
  {
    hide Next, FoundBy;
    AnnouncementOnRecord(states, checks, i, j, key);
  }

  lemma {:induction false} UnsavedKeeps(states: seq<State>, checks: seq<Check>, i: nat, j: nat)
    requires Run(states, checks) && i <= j <= |checks| && forall m | i <= m < j :: !checks[m].saved
    ensures states[j] == states[i]
    decreases j
  {
    hide Checked;
    if i == j {
    } else {
      UnsavedKeeps(states, checks, i, j - 1);
      assert states[j - 1 + 1] == Next(states[j - 1], checks[j - 1]);
    }
  }

  /** An announcement that is not written is made again by the next check whose post goes through and
      that sees the same risk, however soon, until one is written. */
  lemma UnsavedIsRepeated(states: seq<State>, checks: seq<Check>, i: nat, j: nat, key: Key)
    requires Run(states, checks) && i < j < |checks| && key in Marked(states[i], checks[i])
    requires forall m | i <= m < j :: !checks[m].saved
    requires checks[j].enabled && checks[j].post != Rejected
    requires key in FoundBy(states[j], checks[j]).open && key !in FoundBy(states[j], checks[j]).unseen
    ensures key in Marked(states[j], checks[j])
  {
    hide Next, FoundBy;
    UnsavedKeeps(states, checks, i, j);
  }

  /** Two checks a minute apart that both announce the same risk. */
  lemma AnnouncedTwice() returns (states: seq<State>, checks: seq<Check>, key: Key)
    ensures Run(states, checks) && |checks| == 2 && checks[1].now == checks[0].now + MINUTE
    ensures key in Marked(states[0], checks[0]) && key in Marked(states[1], checks[1])
  {
    var f := Finding("Deployment", "web", "app", "OOM", "", "");
    key := KeyOf("shop", f);
    var first := Check(HOUR, true, [Assessed("shop", [f])], Accepted, false);
    var second := first.(now := HOUR + MINUTE);
    states, checks := [NO_RISKS, NO_RISKS, NO_RISKS], [first, second];
    ShownIsOpen(first, f);
    ShownIsOpen(second, f);
  }

  lemma ShownIsOpen(c: Check, f: Finding)
    requires c.reports == [Assessed("shop", [f])]
    ensures var found := FoundBy(NO_RISKS, c); KeyOf("shop", f) in found.open && found.unseen == {}
  {
    var none := Found(map[], {});
    assert Gathered(map[], c.reports, 0, c.now) == none;
    assert WithFindings(none, map[], "shop", [f], 0, c.now) == none;
  }

  // ---- since when a risk is open

  lemma {:induction false} FindingsSince(found: Found, last: map<Key, OpenRisk>, ns: string, findings: seq<Finding>,
      n: nat, now: int, key: Key)
    requires n <= |findings|
    requires key in found.open ==> found.open[key].since == if key in last then last[key].since else now
    ensures var r := WithFindings(found, last, ns, findings, n, now);
            key in r.open ==> r.open[key].since == if key in last then last[key].since else now
    decreases n
  {
    if n == 0 {
    } else {
      FindingsSince(found, last, ns, findings, n - 1, now, key);
    }
  }

  lemma {:induction false} GatheredSince(last: map<Key, OpenRisk>, reports: seq<Report>, n: nat, now: int, key: Key)
    requires n <= |reports|
    ensures var r := Gathered(last, reports, n, now);
            key in r.open ==> r.open[key].since == if key in last then last[key].since else now
    decreases n
  {
    hide WithFindings;
    if n == 0 {
    } else {
      GatheredSince(last, reports, n - 1, now, key);
      var before := Gathered(last, reports, n - 1, now);
      match reports[n - 1]
      case Unassessed(ns) =>
      case Assessed(ns, findings) => FindingsSince(before, last, ns, findings, |findings|, now, key);
    }
  }

  /** An open risk's start is the first check of its unbroken open period: it was not open before that
      check and has been open in every state since, whether or not its namespace could be assessed. */
  lemma {:induction false} SinceFirstCheck(states: seq<State>, checks: seq<Check>, k: nat, key: Key) returns (j: nat)
    requires Run(states, checks) && k <= |checks| && key in states[k].open
    ensures j < k && checks[j].saved && checks[j].enabled && states[k].open[key].since == checks[j].now
    ensures key !in states[j].open && forall m | j < m <= k :: key in states[m].open
    decreases k
  {
    hide Gathered, Marked, Forgetting, MarkAll;
    assert k > 0;
    var st, c := states[k - 1], checks[k - 1];
    assert states[k - 1 + 1] == Next(st, c);
    GatheredSince(st.open, c.reports, |c.reports|, c.now, key);
    if key in st.open { j := SinceFirstCheck(states, checks, k - 1, key); } else { j := k - 1; }
  }

  lemma {:induction false} FindingsKeep(found: Found, last: map<Key, OpenRisk>, ns: string, findings: seq<Finding>,
      n: nat, now: int, key: Key)
    requires n <= |findings|
    ensures WithFindings(found, last, ns, findings, n, now).unseen == found.unseen
    ensures key in WithFindings(found, last, ns, findings, n, now).open <==>
            key in found.open || exists f | 0 <= f < n :: KeyOf(ns, findings[f]) == key
    decreases n
  {
    if n == 0 {
    } else {
      FindingsKeep(found, last, ns, findings, n - 1, now, key);
    }
  }

  /** A namespace that could not be assessed keeps its open risks, and none of them is announced. */
  lemma {:induction false} UnassessedKept(last: map<Key, OpenRisk>, reports: seq<Report>, n: nat, now: int, i: nat,
      key: Key)
    requires i < n <= |reports| && reports[i] == Unassessed(key.namespace) && key in last
    ensures key in Gathered(last, reports, n, now).open && key in Gathered(last, reports, n, now).unseen
    decreases n
  {
    hide WithFindings;
    if i < n - 1 {
      UnassessedKept(last, reports, n - 1, now, i, key);
      if reports[n - 1].Assessed? {
        FindingsKeep(Gathered(last, reports, n - 1, now), last, reports[n - 1].namespace, reports[n - 1].findings,
          |reports[n - 1].findings|, now, key);
      }
    }
  }

  lemma UnassessedNotAnnounced(st: State, c: Check, i: nat, key: Key)
    requires i < |c.reports| && c.reports[i] == Unassessed(key.namespace) && key in st.open && c.enabled
    ensures key in FoundBy(st, c).open && key !in Marked(st, c)
  {
    UnassessedKept(st.open, c.reports, |c.reports|, c.now, i, key);
  }

  // ---- exactly which risks are open and announced

  /** Some assessed namespace shows the risk. */
  ghost predicate SeenIn(reports: seq<Report>, n: nat, key: Key)
    requires n <= |reports|
  {
    exists i | 0 <= i < n :: Shows(reports[i], key)
  }

  ghost predicate Shows(r: Report, key: Key) {
    r.Assessed? && exists f | 0 <= f < |r.findings| :: KeyOf(r.namespace, r.findings[f]) == key
  }

  ghost predicate Unseen(reports: seq<Report>, n: nat, key: Key)
    requires n <= |reports|
  {
    exists i | 0 <= i < n :: reports[i] == Unassessed(key.namespace)
  }

  /** A risk is open after a check exactly when an assessment showed it, or it was open before and its
      namespace could not be assessed. */
  lemma {:induction false} OpenExactly(last: map<Key, OpenRisk>, reports: seq<Report>, n: nat, now: int, key: Key)
    requires n <= |reports|
    ensures var found := Gathered(last, reports, n, now);
            && (key in found.open <==> SeenIn(reports, n, key) || (key in last && Unseen(reports, n, key)))
            && (key in found.unseen <==> key in last && Unseen(reports, n, key))
    decreases n
  {
    hide WithFindings, Shows;
    if n == 0 {
    } else {
      OpenExactly(last, reports, n - 1, now, key);
      var before, r := Gathered(last, reports, n - 1, now), reports[n - 1];
      assert SeenIn(reports, n, key) <==> SeenIn(reports, n - 1, key) || Shows(r, key);
      assert Unseen(reports, n, key) <==> Unseen(reports, n - 1, key) || r == Unassessed(key.namespace);
      ShowsFindings(r, key);
      if r.Assessed? { FindingsKeep(before, last, r.namespace, r.findings, |r.findings|, now, key); }
    }
  }

  lemma ShowsFindings(r: Report, key: Key)
    ensures Shows(r, key) <==> r.Assessed? && exists f | 0 <= f < |r.findings| ::
            KeyOf(r.namespace, r.findings[f]) == key
  {
  }

  /** A time on record is that of an announcement some check made and wrote. */
  lemma {:induction false} FiredWasAnnounced(states: seq<State>, checks: seq<Check>, k: nat, key: Key) returns (i: nat)
    requires Run(states, checks) && k <= |checks| && key in states[k].fired
    ensures i < k && checks[i].saved && key in Marked(states[i], checks[i]) && checks[i].now == states[k].fired[key]
    decreases k
  {
    hide FoundBy, Announceable;
    assert k > 0;
    var st, c := states[k - 1], checks[k - 1];
    assert states[k - 1 + 1] == Next(st, c);
    if c.saved && key in Marked(st, c) { i := k - 1; } else { i := FiredWasAnnounced(states, checks, k - 1, key); }
  }

  /** The pruned memory decides as the whole history would: a check announces exactly the open risks it
      has seen that no written check has announced within the last 24 hours, if alerts are on and the
      post is not rejected. */
  lemma AnnouncedIffQuietForADay(states: seq<State>, checks: seq<Check>, k: nat, key: Key)
    requires Run(states, checks) && k < |checks|
    ensures var st, c := states[k], checks[k];
            key in Marked(st, c) <==>
              && c.enabled && c.post != Rejected && key in FoundBy(st, c).open && key !in FoundBy(st, c).unseen
              && forall i | 0 <= i < k && checks[i].saved && key in Marked(states[i], checks[i]) ::
                c.now - checks[i].now >= 24 * HOUR
  {
    hide FoundBy, Next;
    var st, c := states[k], checks[k];
    if key in Marked(st, c) {
      forall i | 0 <= i < k && checks[i].saved && key in Marked(states[i], checks[i])
        ensures c.now - checks[i].now >= 24 * HOUR
      {
        AnnouncementsADayApart(states, checks, i, k, key);
      }
    } else if key in st.fired {
      var i := FiredWasAnnounced(states, checks, k, key);
    }
  }

  // ---- what a check stores

  /** Turning the alerts off forgets the open risks and keeps when each was announced. */
  lemma DisabledForgetsOpen(states: seq<State>, checks: seq<Check>, k: nat)
    requires Run(states, checks) && k < |checks| && !checks[k].enabled
    ensures Marked(states[k], checks[k]) == {}
    ensures checks[k].saved ==> states[k + 1].open == map[] && states[k + 1].fired == states[k].fired
  {
    assert states[k + 1] == Next(states[k], checks[k]);
  }

  /** Some finding of the reports is about this risk and says this. */
  ghost predicate Told(reports: seq<Report>, n: nat, key: Key, message: string, fix: string)
    requires n <= |reports|
  {
    exists i | 0 <= i < n :: Tells(reports[i], key, message, fix)
  }

  ghost predicate Tells(r: Report, key: Key, message: string, fix: string) {
    r.Assessed? && exists f | 0 <= f < |r.findings| ::
      KeyOf(r.namespace, r.findings[f]) == key && r.findings[f].message == message && r.findings[f].fix == fix
  }

  lemma {:induction false} FindingsTold(found: Found, last: map<Key, OpenRisk>, r: Report, n: nat, now: int, key: Key)
    requires r.Assessed? && n <= |r.findings|
    ensures var open := WithFindings(found, last, r.namespace, r.findings, n, now).open;
            key in open ==>
              || (key in found.open && open[key] == found.open[key])
              || Tells(r, key, open[key].message, open[key].fix)
    decreases n
  {
    if n == 0 {
    } else {
      FindingsTold(found, last, r, n - 1, now, key);
    }
  }

  /** An open risk says what a finding of this check says, or is as the last check left it. */
  lemma {:induction false} OpenAsTold(last: map<Key, OpenRisk>, reports: seq<Report>, n: nat, now: int, key: Key)
    requires n <= |reports|
    ensures var open := Gathered(last, reports, n, now).open;
            key in open ==>
              || Told(reports, n, key, open[key].message, open[key].fix)
              || (key in last && open[key] == last[key] && Unseen(reports, n, key))
    decreases n
  {
    hide WithFindings, Tells;
    if n == 0 {
    } else {
      OpenAsTold(last, reports, n - 1, now, key);
      var before, r := Gathered(last, reports, n - 1, now), reports[n - 1];
      if key in before.open { ToldStill(reports, n, key, before.open[key].message, before.open[key].fix); }
      if r.Assessed? { FindingsTold(before, last, r, |r.findings|, now, key); }
    }
  }

  lemma ToldStill(reports: seq<Report>, n: nat, key: Key, message: string, fix: string)
    requires 0 < n <= |reports|
    ensures Told(reports, n - 1, key, message, fix) ==> Told(reports, n, key, message, fix)
    ensures Unseen(reports, n - 1, key) ==> Unseen(reports, n, key)
  {
    hide Tells;
  }

  /** The memory of announcements is bounded: after a written check it holds only risks that are open and
      ones announced within the last week. */
  lemma OldAnnouncementsForgotten(states: seq<State>, checks: seq<Check>, k: nat, key: Key)
    requires Run(states, checks) && k < |checks| && checks[k].saved && checks[k].enabled
    ensures states[k + 1].checkedAt == checks[k].now
    ensures key in states[k + 1].fired ==>
              key in states[k + 1].open || checks[k].now - states[k + 1].fired[key] <= 7 * 24 * HOUR
  {
    hide FoundBy, MarkAll, Marked;
    assert states[k + 1] == Next(states[k], checks[k]);
  }
}
