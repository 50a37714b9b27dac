/** The assistant's token usage, counted per month in one object that any number of replicas update,
    keeping the twelve latest months. */
module AiUsage {
  import opened Common
  import opened VersionedStore

  const MONTHS: nat := 12
  // retry.DefaultRetry makes five attempts.
  const ATTEMPTS: nat := 5

  /** int64 counters. */
  datatype Usage = Usage(input: int, output: int, requests: int, estimated: bool)

  /** Usage by month, written "YYYY-MM". */
  type Months = map<string, Usage>

  const NO_USAGE := Usage(0, 0, 0, false)

  function Plus(u: Usage, used: Usage): Usage {
    Usage(Wrap64(u.input + used.input), Wrap64(u.output + used.output), Wrap64(u.requests + 1),
      u.estimated || used.estimated)
  }

  // ---- the latest months

  function Above(s: set<string>, x: string): set<string> { set y | y in s && Less(x, y) }

  /** The months with fewer than twelve later ones. */
  function Newest(s: set<string>): set<string> { set x | x in s && |Above(s, x)| < MONTHS }

  lemma NewestWithin(s: set<string>)
    ensures Newest(s) <= s
  {
  }

  function Prune(m: Months): Months { map x | x in Newest(m.Keys) :: m[x] }

  function Added(m: Months, month: string, used: Usage): Months {
    Prune(m[month := Plus(if month in m then m[month] else NO_USAGE, used)])
  }

  method AddUsage(data: Months, month: string, used: Usage) returns (after: Months)
    ensures after == Added(data, month, used)
  {
    hide Newest;
    after := data[month := Plus(if month in data then data[month] else NO_USAGE, used)];
    after := DropOldest(after);
  }

  method DropOldest(full: Months) returns (after: Months)
    ensures after == Prune(full)
  {
    hide Prune, Newest, Less, Ascending, Distinct;
    after := full;
    var all := ListKeys(full.Keys);
    var months := all;
    AscendingDistinct(all);
    while |months| > MONTHS
      invariant |months| <= |all| && months == all[|all| - |months|..] && Distinct(months)
      invariant |months| >= MONTHS || months == all
      invariant forall x :: x in after <==> x in months
      invariant forall x | x in after :: x in full && after[x] == full[x]
    {
      WithoutFirst(months);
      after := after - {months[0]};
      months := months[1..];
    }
    NewestAreLast(all, full.Keys, months);
    IsPruned(full, after);
  }

  lemma IsPruned(full: Months, after: Months)
    requires forall x :: x in after <==> x in Newest(full.Keys)
    requires forall x | x in after :: x in full && after[x] == full[x]
    ensures after == Prune(full)
  {
    hide Newest;
    NewestWithin(full.Keys);
  }

  lemma WithoutFirst(s: seq<string>)
    requires s != [] && Distinct(s)
    ensures Distinct(s[1..]) && forall x :: x in s[1..] <==> x in s && x != s[0]
  {
  }

  lemma NewestAreLast(all: seq<string>, keys: set<string>, months: seq<string>)
    requires Ascending(all) && Distinct(all) && forall y :: y in all <==> y in keys
    requires months == if |all| > MONTHS then all[|all| - MONTHS..] else all
    ensures forall x :: x in months <==> x in Newest(keys)
  {
    hide Newest, Less;
    forall x ensures x in months <==> x in Newest(keys) {
      NewestWithin(keys);
      if x in all { LatestAreNewest(all, keys, x); }
    }
  }

  /** The months in order, as `sort.Strings` leaves them. */
  method ListKeys(keys: set<string>) returns (months: seq<string>)
    ensures Ascending(months) && forall x :: x in months <==> x in keys
  {
    var listed: seq<string> := [];
    var rest := keys;
    while rest != {}
      invariant rest <= keys && forall x :: x in listed <==> x in keys - rest
      invariant Distinct(listed)
      decreases |rest|
    {
      var x :| x in rest;
      rest := rest - {x};
      assert x !in listed;
      listed := listed + [x];
    }
    months := SortStrings(listed);
    SortStringsKeeps(listed);
    SortedDistinct(months, listed);
  }

  lemma {:induction false} SetOfDistinct(s: seq<string>)
    requires Distinct(s)
    ensures |set x | x in s| == |s|
  {
    if s == [] {
    } else {
      SetOfDistinct(s[1..]);
      assert (set x | x in s) == {s[0]} + set x | x in s[1..];
    }
  }

  /** In an ascending list, the newest are the last twelve. */
  lemma LatestAreNewest(all: seq<string>, keys: set<string>, x: string)
    requires Ascending(all) && Distinct(all) && (forall y :: y in all <==> y in keys) && x in all
    ensures x in Newest(keys) <==> x in (if |all| > MONTHS then all[|all| - MONTHS..] else all)
  {
    var i :| 0 <= i < |all| && all[i] == x;
    var later := all[i + 1..];
    forall y ensures y in Above(keys, x) <==> y in later {
      if y in all {
        var j :| 0 <= j < |all| && all[j] == y;
        LessTotal(x, y);
        if j > i { assert y == later[j - i - 1]; }
      }
    }
    assert Above(keys, x) == set y | y in later;
    SetOfDistinct(later);
    if |all| > MONTHS {
      var last := all[|all| - MONTHS..];
      if i >= |all| - MONTHS { assert last[i - (|all| - MONTHS)] == x; }
    }
  }

  // ---- pruning early and often loses nothing that counts

  lemma {:induction false} Lowest(s: set<string>) returns (low: string)
    requires s != {}
    ensures low in s && forall y | y in s && y != low :: Less(low, y)
    decreases |s|
  {
    var x :| x in s;
    low := x;
    if s != {x} {
      var l := Lowest(s - {x});
      LessTotal(x, l);
      if Less(l, x) { low := l; } else {
        forall y | y in s && y != x ensures Less(x, y) { if y != l { LessTransitive(x, l, y); } }
      }
    }
  }

  /** Of at least twelve months, at least twelve are among the newest. */
  lemma {:induction false} TwelveNewest(s: set<string>)
    requires |s| >= MONTHS
    ensures |Newest(s)| >= MONTHS
    decreases |s|
  {
    if |s| == MONTHS {
      forall x | x in s ensures x in Newest(s) {
        LessTotal(x, x);
        SubsetSize(Above(s, x), s - {x});
      }
      assert Newest(s) == s;
    } else {
      var low := Lowest(s);
      var rest := s - {low};
      TwelveNewest(rest);
      forall x | x in Newest(rest) ensures x in Newest(s) {
        LessTotal(low, x);
        assert Above(s, x) == Above(rest, x);
      }
      SubsetSize(Newest(rest), Newest(s));
    }
  }

  /** A month with twelve later ones still has twelve among the newest. */
  lemma StillTwelveAbove(s: set<string>, x: string)
    requires |Above(s, x)| >= MONTHS
    ensures |Above(Newest(s), x)| >= MONTHS
  {
    var later := Above(s, x);
    TwelveNewest(later);
    forall y | y in Newest(later) ensures y in Above(Newest(s), x) {
      forall z | z in Above(s, y) ensures z in later { LessTransitive(x, y, z); }
      assert Above(s, y) == Above(later, y);
    }
    SubsetSize(Newest(later), Above(Newest(s), x));
  }

  lemma AboveShrinks(s: set<string>, t: set<string>, x: string)
    requires s <= t
    ensures |Above(s, x)| <= |Above(t, x)|
  {
    SubsetSize(Above(s, x), Above(t, x));
  }

  /** Adding a month to what was kept keeps the same months as adding it to everything. */
  lemma PruneAsYouGo(s: set<string>, month: string)
    ensures Newest(Newest(s) + {month}) == Newest(s + {month})
  {
    var kept, all := Newest(s) + {month}, s + {month};
    forall x | x in all ensures x in Newest(kept) <==> x in Newest(all) {
      AboveShrinks(kept, all, x);
      AboveShrinks(s, all, x);
      LessTotal(x, x);
      if |Above(s, x)| >= MONTHS {
        StillTwelveAbove(s, x);
        AboveShrinks(Newest(s), kept, x);
      } else {
        forall y | y in Above(s, x) ensures y in Newest(s) { AboveOfNew(s, x, y); }
        assert Above(kept, x) == Above(all, x);
      }
    }
  }

  lemma AboveOfNew(s: set<string>, x: string, y: string)
    requires y in Above(s, x)
    ensures |Above(s, y)| < |Above(s, x)|
  {
    forall z | z in Above(s, y) ensures z in Above(s, x) - {y} { LessTransitive(x, y, z); LessTotal(y, y); }
    SubsetSize(Above(s, y), Above(s, x) - {y});
  }

  /** A month that fell out of the newest stays out. */
  lemma OutForGood(s: set<string>, t: set<string>, x: string)
    requires s <= t && x in s && x !in Newest(s)
    ensures x !in Newest(t)
  {
    AboveShrinks(s, t, x);
  }

  // ---- replicas

  datatype Replica = Trying(attempt: nat, month: string, used: Usage)
                   | Read(attempt: nat, month: string, used: Usage, found: Object<Months>)
                   | Counted
                   | Failed

  /** The object before the write, as the closure builds it from what it read. */
  function Base(found: Object<Months>): Months { if found.Present? then found.data else map[] }

  function CanWrite(store: Store<Months>, found: Object<Months>): bool {
    if found.Present? then CanUpdate(store, found.version) else CanCreate(store)
  }

  /** One API call; `fails` is a failure other than the versioned store's own. Only a changed version
      is retried: a create that finds the object there fails for good. */
  function AfterCall(store: Store<Months>, r: Replica, fails: bool): (Store<Months>, Replica) {
    match r
    case Trying(n, month, used) => (store, if fails then Failed else Read(n, month, used, store.held))
    case Read(n, month, used, found) =>
      if fails then (store, Failed)
      else if CanWrite(store, found) then (Put(store, Added(Base(found), month, used)), Counted)
      else (store, if found.Present? && n + 1 < ATTEMPTS then Trying(n + 1, month, used) else Failed)
    case Counted => (store, r)
    case Failed => (store, r)
  }

  class UsageWriter {
    var at: Replica

    constructor (month: string, used: Usage)
      ensures at == Trying(0, month, used)
    {
      at := Trying(0, month, used);
    }

    method Get(api: ApiServer<Months>, fails: bool)
      requires at.Trying?
      modifies this
      ensures (api.store, at) == AfterCall(old(api.store), old(at), fails)
    {
      var found := api.Get();
      at := if fails then Failed else Read(at.attempt, at.month, at.used, found);
    }

    method Write(api: ApiServer<Months>, fails: bool)
      requires at.Read?
      modifies this, api
      ensures (api.store, at) == AfterCall(old(api.store), old(at), fails)
    {
      if fails { at := Failed; return; }
      var data := if at.found.Present? then at.found.data else map[];
      data := AddUsage(data, at.month, at.used);
      var written;
      if at.found.Present? { written := api.Update(data, at.found.version); } else { written := api.Create(data); }
      at := if written then Counted
            else if at.found.Present? && at.attempt + 1 < ATTEMPTS then Trying(at.attempt + 1, at.month, at.used)
            else Failed;
    }
  }

  // ---- any number of replicas, in any order

  datatype Add = Add(month: string, used: Usage)

  /** The store, the replicas at work, and the adds reported successful so far. */
  datatype World = World(store: Store<Months>, replicas: map<nat, Replica>, adds: seq<Add>)

  datatype Step = Begin(who: nat, month: string, used: Usage) | Act(who: nat, fails: bool)

  function Next(w: World, s: Step): World {
    match s
    case Begin(who, month, used) => if who in w.replicas then w
      else w.(replicas := w.replicas[who := Trying(0, month, used)])
    case Act(who, fails) =>
      if who !in w.replicas then w
      else
        var r := w.replicas[who];
        var (store, after) := AfterCall(w.store, r, fails);
        World(store, w.replicas[who := after], w.adds + if r.Read? && after.Counted? then [Add(r.month, r.used)]
          else [])
  }

  ghost predicate Run(worlds: seq<World>, steps: seq<Step>) {
    && |worlds| == |steps| + 1
    && worlds[0] == World(Store(Absent, worlds[0].store.next), map[], [])
    && forall k | 0 <= k < |steps| :: worlds[k + 1] == Next(worlds[k], steps[k])
  }

  function MonthsOf(adds: seq<Add>): set<string> {
    if adds == [] then {} else MonthsOf(adds[..|adds| - 1]) + {adds[|adds| - 1].month}
  }

  /** The unbounded sum of all successful adds for a month. */
  function Total(adds: seq<Add>, month: string): Usage {
    if adds == [] then NO_USAGE
    else
      var t, last := Total(adds[..|adds| - 1], month), adds[|adds| - 1];
      if last.month != month then t
      else Usage(t.input + last.used.input, t.output + last.used.output, t.requests + 1,
        t.estimated || last.used.estimated)
  }

  function Wrapped(u: Usage): Usage { Usage(Wrap64(u.input), Wrap64(u.output), Wrap64(u.requests), u.estimated) }

  /** The stored months are the twelve latest ever recorded, each holding the sum of its adds. */
  ghost predicate Exact(m: Months, adds: seq<Add>) {
    m.Keys == Newest(MonthsOf(adds)) && forall month | month in m :: m[month] == Wrapped(Total(adds, month))
  }

  lemma {:induction false} NeverAdded(adds: seq<Add>, month: string)
    requires month !in MonthsOf(adds)
    ensures Total(adds, month) == NO_USAGE
    decreases |adds|
  {
    if adds == [] {
    } else {
      NeverAdded(adds[..|adds| - 1], month);
    }
  }

  lemma ExactNext(m: Months, adds: seq<Add>, a: Add)
    requires Exact(m, adds)
    ensures Exact(Added(m, a.month, a.used), adds + [a])
  {
    hide Newest, Wrap64;
    var all, after := adds + [a], Added(m, a.month, a.used);
    assert all[..|all| - 1] == adds;
    PruneAsYouGo(MonthsOf(adds), a.month);
    AddedKeys(m, a.month, a.used);
    forall month | month in after ensures after[month] == Wrapped(Total(all, month)) {
      if month == a.month {
        MonthBefore(m, adds, a.month);
        var t := Total(adds, month);
        WrapTwice(t.input, a.used.input);
        WrapTwice(t.output, a.used.output);
        WrapTwice(t.requests, 1);
        assert after[month] == Plus(Wrapped(t), a.used);
      } else {
        NewestWithin(m.Keys + {a.month});
        assert after[month] == m[month];
      }
    }
  }

  lemma AddedKeys(m: Months, month: string, used: Usage)
    ensures Added(m, month, used).Keys == Newest(m.Keys + {month})
  {
    hide Above;
    assert m[month := used].Keys == m.Keys + {month};
    assert m[month := Plus(if month in m then m[month] else NO_USAGE, used)].Keys == m.Keys + {month};
  }

  /** A month that is kept now and was recorded before had its full sum stored. */
  lemma MonthBefore(m: Months, adds: seq<Add>, month: string)
    requires Exact(m, adds) && month in Newest(MonthsOf(adds) + {month})
    ensures (if month in m then m[month] else NO_USAGE) == Wrapped(Total(adds, month))
  {
    hide Newest;
    if month in MonthsOf(adds) {
      assert MonthsOf(adds) + {month} == MonthsOf(adds);
    } else {
      NewestWithin(MonthsOf(adds));
      NeverAdded(adds, month);
    }
  }

  ghost predicate Counting(w: World) {
    && Fits(w.store)
    && (if w.store.held.Present? then Exact(w.store.held.data, w.adds) else w.adds == [])
    && forall who | who in w.replicas && w.replicas[who].Read? :: Genuine(w.store, w.replicas[who].found)
  }

  /** What was read is current if its version is. */
  predicate Genuine(store: Store<Months>, found: Object<Months>) {
    found.Present? ==>
      && found.version < store.next
      && (store.held.Present? && store.held.version == found.version ==> store.held == found)
  }

  lemma StepCounts(w: World, s: Step)
    requires Counting(w)
    ensures Counting(Next(w, s))
  {
    hide Exact, Added;
    if s.Act? && s.who in w.replicas {
      var r, n := w.replicas[s.who], Next(w, s);
      assert w.adds + [] == w.adds;
      if r.Read? && !s.fails && CanWrite(w.store, r.found) {
        FirstAdd();
        assert Genuine(w.store, r.found);
        ExactNext(Base(r.found), w.adds, Add(r.month, r.used));
      }
      forall who | who in n.replicas && n.replicas[who].Read? ensures Genuine(n.store, n.replicas[who].found) {
        if who != s.who { assert Genuine(w.store, w.replicas[who].found); }
      }
    }
  }

  lemma FirstAdd()
    ensures Exact(map[], [])
  {
    var none: Months := map[];
    assert none.Keys == Newest(MonthsOf([]));
  }

  lemma {:induction false} AlwaysCounts(worlds: seq<World>, steps: seq<Step>, k: nat)
    requires Run(worlds, steps) && k <= |steps|
    ensures Counting(worlds[k])
    decreases k
  {
    hide Next, Exact, Genuine;
    if k == 0 {
    } else {
      AlwaysCounts(worlds, steps, k - 1);
      assert worlds[k - 1 + 1] == Next(worlds[k - 1], steps[k - 1]);
      StepCounts(worlds[k - 1], steps[k - 1]);
    }
  }

  /** For any number of replicas and any interleaving from no record: the stored months are the twelve
      latest ever recorded, and each counter is the sum of all successful adds for its month, as a
      64-bit integer. */
  lemma UsageIsExact(worlds: seq<World>, steps: seq<Step>, k: nat)
    requires Run(worlds, steps) && k <= |steps|
    ensures worlds[k].store.held.Absent? ==> worlds[k].adds == []
    ensures worlds[k].store.held.Present? ==> Exact(worlds[k].store.held.data, worlds[k].adds)
  {
    AlwaysCounts(worlds, steps, k);
  }

  lemma {:induction false} AddsGrow(worlds: seq<World>, steps: seq<Step>, k: nat, m: nat)
    requires Run(worlds, steps) && k <= m <= |steps|
    ensures MonthsOf(worlds[k].adds) <= MonthsOf(worlds[m].adds)
    ensures worlds[k].store.held.Present? ==> worlds[m].store.held.Present?
    decreases m
  {
    hide Added, CanWrite;
    if k == m {
    } else {
      AddsGrow(worlds, steps, k, m - 1);
      var w, s := worlds[m - 1], steps[m - 1];
      assert worlds[m - 1 + 1] == Next(w, s);
      assert w.adds + [] == w.adds;
      if s.Act? && s.who in w.replicas && w.replicas[s.who].Read? {
        var a := Add(w.replicas[s.who].month, w.replicas[s.who].used);
        assert (w.adds + [a])[..|w.adds|] == w.adds;
      }
    }
  }

  /** A month pruned once never comes back. */
  lemma PrunedForGood(worlds: seq<World>, steps: seq<Step>, k: nat, m: nat, month: string)
    requires Run(worlds, steps) && k <= m <= |steps|
    requires month in MonthsOf(worlds[k].adds) && worlds[k].store.held.Present? && month !in worlds[k].store.held.data
    ensures worlds[m].store.held.Present? && month !in worlds[m].store.held.data
  {
    hide Newest, Next;
    UsageIsExact(worlds, steps, k);
    UsageIsExact(worlds, steps, m);
    AddsGrow(worlds, steps, k, m);
    OutForGood(MonthsOf(worlds[k].adds), MonthsOf(worlds[m].adds), month);
  }

  // ---- which months an add keeps

  /** An add keeps the month it is for if and only if fewer than twelve recorded months are later: an
      add for a month before twelve recorded ones is pruned at once, although it succeeds. */
  lemma OwnMonthKeptIff(m: Months, month: string, used: Usage)
    ensures month in Added(m, month, used) <==> |Above(m.Keys, month)| < 12
  {
    AddedKeys(m, month, used);
    LessTotal(month, month);
    assert Above(m.Keys + {month}, month) == Above(m.Keys, month);
  }

  /** Up to twelve months are all kept, whatever their age. */
  lemma FewMonthsAllKept(m: Months, month: string, used: Usage)
    requires |m.Keys + {month}| <= 12
    ensures Added(m, month, used).Keys == m.Keys + {month}
  {
    AddedKeys(m, month, used);
    var all := m.Keys + {month};
    forall x | x in all ensures x in Newest(all) {
      LessTotal(x, x);
      SubsetSize(Above(all, x), all - {x});
    }
    assert Newest(all) == all;
  }

  /** So a month seven years old stays. */
  lemma OldMonthStays(used: Usage)
    ensures "2019-01" in Added(Added(map[], "2019-01", used), "2026-01", used)
  {
    FewMonthsAllKept(map[], "2019-01", used);
    var m := Added(map[], "2019-01", used);
    assert m.Keys == {"2019-01"};
    FewMonthsAllKept(m, "2026-01", used);
  }

  // ---- when the race alone fails an add

  /** No call of this replica fails by itself between two worlds. */
  ghost predicate Spared(steps: seq<Step>, k: nat, m: nat, who: nat)
    requires k <= m <= |steps|
  {
    forall i | k <= i < m && steps[i].Act? && steps[i].who == who :: !steps[i].fails
  }

  /** How far a replica can have got once the record was written d times since it began: each attempt it
      lost stands for one of those writes. */
  predicate WithinWrites(store: Store<Months>, r: Replica, d: int) {
    match r
    case Trying(n, _, _) => n <= d && n < ATTEMPTS
    case Read(n, _, _, found) => found.Present? && n <= d && n < ATTEMPTS && (CanWrite(store, found) || n + 1 <= d)
    case Counted => true
    case Failed => d >= ATTEMPTS
  }

  lemma {:induction false} EachLossIsAWrite(worlds: seq<World>, steps: seq<Step>, k: nat, m: nat, who: nat)
    requires Run(worlds, steps) && k <= m <= |steps| && Spared(steps, k, m, who) && worlds[k].store.held.Present?
    requires who in worlds[k].replicas && worlds[k].replicas[who].Trying? && worlds[k].replicas[who].attempt == 0
    ensures worlds[m].store.held.Present? && who in worlds[m].replicas
    ensures WithinWrites(worlds[m].store, worlds[m].replicas[who], worlds[m].store.next - worlds[k].store.next)
    decreases m
  {
    hide Added, Counting;
    if k == m {
    } else {
      EachLossIsAWrite(worlds, steps, k, m - 1, who);
      AlwaysCounts(worlds, steps, m - 1);
      var w, s := worlds[m - 1], steps[m - 1];
      assert worlds[m - 1 + 1] == Next(w, s);
      StepWithin(w, s, who, w.store.next - worlds[k].store.next);
    }
  }

  lemma StepWithin(w: World, s: Step, who: nat, d: int)
    requires who in w.replicas && w.store.held.Present? && WithinWrites(w.store, w.replicas[who], d) && Counting(w)
    requires s.Act? && s.who == who ==> !s.fails
    ensures var n := Next(w, s);
            && n.store.held.Present? && who in n.replicas
            && WithinWrites(n.store, n.replicas[who], d + n.store.next - w.store.next)
  {
    hide Added, Exact;
  }

  /** From an existing record, an add none of whose calls fails by itself does not fail while at most four
      writes land since it began. */
  lemma FourWritesFailNoAdd(worlds: seq<World>, steps: seq<Step>, k: nat, m: nat, who: nat)
    requires Run(worlds, steps) && k <= m <= |steps| && Spared(steps, k, m, who) && worlds[k].store.held.Present?
    requires who in worlds[k].replicas && worlds[k].replicas[who].Trying? && worlds[k].replicas[who].attempt == 0
    requires worlds[m].store.next - worlds[k].store.next <= 4
    ensures who in worlds[m].replicas && worlds[m].replicas[who] != Failed
  {
    hide Run, Spared;
    EachLossIsAWrite(worlds, steps, k, m, who);
  }

  /** The calls of two first adds at once: both find no record, and both create it. */
  function CreateRace(month: string, used: Usage): seq<Step> {
    [Begin(0, month, used), Begin(1, month, used), Act(0, false), Act(1, false), Act(0, false), Act(1, false)]
  }

  /** The second of two first adds fails for good although no call fails by itself: a create that finds
      the record there is not tried again, unlike an update. */
  lemma SecondCreateFails(month: string, used: Usage) returns (worlds: seq<World>)
    ensures Run(worlds, CreateRace(month, used)) && |worlds| == 7
    ensures 0 in worlds[6].replicas && worlds[6].replicas[0] == Counted
    ensures 1 in worlds[6].replicas && worlds[6].replicas[1] == Failed
    ensures worlds[6].adds == [Add(month, used)]
  {
    hide AfterCall, Added, Put;
    var steps := CreateRace(month, used);
    var first := Store(Absent, 0);
    var created := Put(first, Added(map[], month, used));
    var begun, read := Trying(0, month, used), Read(0, month, used, Absent);
    CreateCalls(first, created, month, used);
    worlds := [World(first, map[], []),
               World(first, map[0 := begun], []),
               World(first, map[0 := begun, 1 := begun], []),
               World(first, map[0 := read, 1 := begun], []),
               World(first, map[0 := read, 1 := read], []),
               World(created, map[0 := Counted, 1 := read], [Add(month, used)]),
               World(created, map[0 := Counted, 1 := Failed], [Add(month, used)])];
    assert [] + [Add(month, used)] == [Add(month, used)];
    assert worlds[1] == Next(worlds[0], steps[0]) && worlds[2] == Next(worlds[1], steps[1]);
    assert worlds[3] == Next(worlds[2], steps[2]) && worlds[4] == Next(worlds[3], steps[3]);
    assert worlds[5] == Next(worlds[4], steps[4]) && worlds[6] == Next(worlds[5], steps[5]);
  }

  lemma CreateCalls(first: Store<Months>, created: Store<Months>, month: string, used: Usage)
    requires first == Store(Absent, 0) && created == Put(first, Added(map[], month, used))
    ensures var begun, read := Trying(0, month, used), Read(0, month, used, Absent);
            && AfterCall(first, begun, false) == (first, read)
            && AfterCall(first, read, false) == (created, Counted)
            && AfterCall(created, read, false) == (created, Failed)
  {
    hide Added;
  }

  lemma Lengths(worlds: seq<World>, steps: seq<Step>)
    requires Run(worlds, steps)
    ensures |worlds| == |steps| + 1
  {
  }

  lemma RunGrows(worlds: seq<World>, steps: seq<Step>, s: Step)
    requires Run(worlds, steps)
    ensures |worlds| == |steps| + 1 && Run(worlds + [Next(worlds[|steps|], s)], steps + [s])
  {
    hide Next;
    var ws, ss := worlds + [Next(worlds[|steps|], s)], steps + [s];
    forall k | 0 <= k < |ss| ensures ws[k + 1] == Next(ws[k], ss[k]) {
      if k < |steps| { assert ws[k + 1] == worlds[k + 1] && ws[k] == worlds[k] && ss[k] == steps[k]; }
    }
  }

  /** Replica 0 is about to start an attempt, the record exists, and ids from n + 2 on are free. */
  ghost predicate AboutToTry(w: World, n: nat, month: string, used: Usage) {
    && 0 in w.replicas && w.replicas[0] == Trying(n, month, used) && w.store.held.Present? && Fits(w.store)
    && forall who | who in w.replicas :: who < n + 2
  }

  /** It reads, another add comes in between, and its write finds the version changed. */
  function LostAttempt(n: nat, month: string, used: Usage): seq<Step> {
    [Act(0, false), Begin(n + 2, month, used), Act(n + 2, false), Act(n + 2, false), Act(0, false)]
  }

  lemma LosesAttempt(w0: World, n: nat, month: string, used: Usage)
      returns (w1: World, w2: World, w3: World, w4: World, w5: World)
    requires AboutToTry(w0, n, month, used) && n < ATTEMPTS
    ensures var s := LostAttempt(n, month, used);
            w1 == Next(w0, s[0]) && w2 == Next(w1, s[1]) && w3 == Next(w2, s[2]) && w4 == Next(w3, s[3])
              && w5 == Next(w4, s[4])
    ensures w5.store.next == w0.store.next + 1 && 0 in w5.replicas
    ensures if n + 1 < ATTEMPTS then AboutToTry(w5, n + 1, month, used) else w5.replicas[0] == Failed
  {
    hide Added;
    var s := LostAttempt(n, month, used);
    w1 := Next(w0, s[0]);
    w2 := Next(w1, s[1]);
    w3 := Next(w2, s[2]);
    w4 := Next(w3, s[3]);
    w5 := Next(w4, s[4]);
  }

  lemma {:induction false} LosesAll(worlds: seq<World>, steps: seq<Step>, n: nat, month: string, used: Usage)
    returns (ws: seq<World>, ss: seq<Step>)
    requires Run(worlds, steps) && n < ATTEMPTS && AboutToTry(worlds[|steps|], n, month, used)
    ensures Run(ws, ss) && |ss| >= |steps| && |ws| == |ss| + 1
    ensures ss[..|steps|] == steps && ws[..|steps| + 1] == worlds[..|steps| + 1] && Spared(ss, |steps|, |ss|, 0)
    ensures 0 in ws[|ss|].replicas && ws[|ss|].replicas[0] == Failed
    ensures ws[|ss|].store.next == worlds[|steps|].store.next + ATTEMPTS - n
    decreases ATTEMPTS - n
  {
    hide Run, Next;
    Lengths(worlds, steps);
    var w1, w2, w3, w4, w5 := LosesAttempt(worlds[|steps|], n, month, used);
    var s := LostAttempt(n, month, used);
    RunGrows(worlds, steps, s[0]);
    RunGrows(worlds + [w1], steps + [s[0]], s[1]);
    RunGrows(worlds + [w1] + [w2], steps + [s[0]] + [s[1]], s[2]);
    RunGrows(worlds + [w1] + [w2] + [w3], steps + [s[0]] + [s[1]] + [s[2]], s[3]);
    RunGrows(worlds + [w1] + [w2] + [w3] + [w4], steps + [s[0]] + [s[1]] + [s[2]] + [s[3]], s[4]);
    ws, ss := worlds + [w1] + [w2] + [w3] + [w4] + [w5], steps + [s[0]] + [s[1]] + [s[2]] + [s[3]] + [s[4]];
    if n + 1 == ATTEMPTS {
    } else {
      var through := |ss|;
      ghost var before := ss;
      ws, ss := LosesAll(ws, ss, n + 1, month, used);
      forall i | |steps| <= i < |ss| && ss[i].Act? && ss[i].who == 0 ensures !ss[i].fails {
        if i < through { assert ss[i] == ss[..through][i] == before[i]; }
      }
    }
  }

  /** Four is exact: an add can fail although none of its calls does once five writes land since it began. */
  lemma FiveWritesCanFail(month: string, used: Usage) returns (worlds: seq<World>, steps: seq<Step>, k: nat)
    ensures Run(worlds, steps) && k < |steps| && |worlds| == |steps| + 1 && Spared(steps, k, |steps|, 0)
    ensures worlds[k].store.held.Present? && 0 in worlds[k].replicas && worlds[k].replicas[0] == Trying(0, month, used)
    ensures worlds[|steps|].store.next == worlds[k].store.next + 5
    ensures 0 in worlds[|steps|].replicas && worlds[|steps|].replicas[0] == Failed
  {
    hide Added, Spared;
    var start := World(Store(Absent, 0), map[], []);
    steps := [Begin(1, month, used), Act(1, false), Act(1, false), Begin(0, month, used)];
    var w1 := Next(start, steps[0]);
    var w2 := Next(w1, steps[1]);
    var w3 := Next(w2, steps[2]);
    worlds := [start, w1, w2, w3, Next(w3, steps[3])];
    k := 4;
    ghost var first := worlds;
    worlds, steps := LosesAll(worlds, steps, 0, month, used);
    assert worlds[k] == worlds[..5][4] == first[4];
  }

  /** Only a changed version is tried again: a call that fails by itself ends the add uncounted. */
  lemma OwnFailureEnds(worlds: seq<World>, steps: seq<Step>, k: nat, who: nat)
    requires Run(worlds, steps) && k < |steps| && steps[k] == Act(who, true) && who in worlds[k].replicas
    requires worlds[k].replicas[who].Trying? || worlds[k].replicas[who].Read?
    ensures who in worlds[k + 1].replicas && worlds[k + 1].replicas[who] == Failed
    ensures worlds[k + 1].store == worlds[k].store && worlds[k + 1].adds == worlds[k].adds
  {
    hide Added;
    assert worlds[k + 1] == Next(worlds[k], steps[k]);
  }
}
