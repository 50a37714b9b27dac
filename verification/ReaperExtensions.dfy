/** Extensions that shorten. A number of days can wrap around to a negative duration, which passes the
    only check there is, and exactly the negative ones can take back the notice a late warning gives. */
module ReaperExtensions {
  import opened Common
  import opened Reaper
  import opened ReaperRuns
  import opened ReaperWarnings

  const NAME := "preview"
  const TTL := SECOND
  const EMPTY := World(map[], [], [], [], 0, 0, {})
  const EXPIRED := Preview(1, 0, NoLabel, None, None, false, false, false, true)

  /** The check an extension passes before it is made. */
  predicate Accepted(extra: int) { extra <= 90 * DAY }

  /** A run over a cluster of one namespace, whose request goes through. */
  lemma ReapAlone(w: World, ns: Preview, now: int, lead: int) returns (s: Step, end: Progress)
    requires w.cluster == map[NAME := ns] && Planned(ns) && now >= w.clock
    ensures s.Reap? && s.now == now && s.lead == lead && Possible(w, s)
    ensures end == Handle(StartOf(w, s), EntryOf(NAME, ns, TTL), InputOf(w, s), Done)
    ensures Next(w, s) == w.(cluster := end.cluster, log := end.log, history := end.history, warnings := end.warnings,
                             clock := now, runs := w.runs + 1)
  {
    hide Handle, EntryOf;
    var e := EntryOf(NAME, ns, TTL);
    EntryNamed(NAME, ns, TTL);
    s := Reap(now, TTL, lead, [e], map[0 := Done]);
    assert e in [e];
    assert IsPlan([e], w.cluster, TTL);
    var start, c := StartOf(w, s), InputOf(w, s);
    assert RunTo(start, c, 0) == start;
    end := RunTo(start, c, 1);
  }

  /** The namespace after the late warning: it expires a lead after the minute it was found expired. */
  function Postponed(lead: int): Preview { EXPIRED.(warned := Some(MINUTE + lead), expires := Some(MINUTE + lead)) }

  function LateWarning(lead: int): Warning { Warning(1, MINUTE + lead, MINUTE, lead, true, 0) }

  function AfterWarning(lead: int): World {
    World(map[NAME := Postponed(lead)], [], [], [LateWarning(lead)], MINUTE, 1, {1})
  }

  lemma Born() returns (s: Step, w: World)
    ensures s == Change(map[NAME := EXPIRED]) && Possible(EMPTY, s) && w == Next(EMPTY, s)
    ensures w == EMPTY.(cluster := map[NAME := EXPIRED], used := {1})
  {
    s := Change(map[NAME := EXPIRED]);
    assert Uids(s.cluster) == {1} by { assert s.cluster[NAME].uid == 1; }
    w := Next(EMPTY, s);
  }

  lemma FoundExpired(w: World, s: Step, lead: int)
    requires w == EMPTY.(cluster := map[NAME := EXPIRED], used := {1}) && s.Reap? && s.now == MINUTE && s.lead == lead
    requires lead > 0 && lead % SECOND == 0
    ensures var end := Handle(StartOf(w, s), EntryOf(NAME, EXPIRED, TTL), InputOf(w, s), Done);
            end == StartOf(w, s).(cluster := map[NAME := Postponed(lead)], warnings := [LateWarning(lead)])
  {
    var e := EntryOf(NAME, EXPIRED, TTL);
    assert e.expiresAt == SECOND && e.protection == Deletable && !e.warned;
    assert map[NAME := EXPIRED][NAME := Postponed(lead)] == map[NAME := Postponed(lead)];
  }

  lemma WarnedLate(lead: int) returns (worlds: seq<World>, steps: seq<Step>)
    requires lead > 0 && lead % SECOND == 0
    ensures History(worlds, steps) && |steps| == 2 && steps[0].Change? && steps[1].Reap? && steps[1].lead == lead
    ensures worlds[2] == AfterWarning(lead)
  {
    hide Possible, Next, Handle, EntryOf, Postponed, LateWarning;
    var born, w := Born();
    var found, end := ReapAlone(w, EXPIRED, MINUTE, lead);
    FoundExpired(w, found, lead);
    worlds, steps := [EMPTY, w, AfterWarning(lead)], [born, found];
  }

  /** Where an extension of that namespace leaves its expiry. */
  function Moved(lead: int, extra: int): int { Floor(MINUTE + lead + extra) }

  function AfterMove(lead: int, extra: int): World {
    AfterWarning(lead).(cluster := map[NAME := EXPIRED.(expires := Some(Moved(lead, extra)))])
  }

  lemma MoveIsExtend(lead: int, extra: int) returns (s: Step)
    requires lead > 0
    ensures s == Extend(NAME, TTL, extra, MINUTE) && Next(AfterWarning(lead), s) == AfterMove(lead, extra)
  {
    s := Extend(NAME, TTL, extra, MINUTE);
    var w := AfterWarning(lead);
    assert EntryOf(NAME, w.cluster[NAME], TTL).expiresAt == MINUTE + lead;
  }

  /** Worlds and steps so far, then one step more. */
  lemma HistoryGrows(worlds: seq<World>, steps: seq<Step>, s: Step, next: World)
    requires History(worlds, steps) && Possible(worlds[|steps|], s) && next == Next(worlds[|steps|], s)
    ensures History(worlds + [next], steps + [s])
  {
    hide Possible, Next;
    var ws, ss := worlds + [next], steps + [s];
    forall k | 0 <= k < |ss| ensures Possible(ws[k], ss[k]) && ws[k + 1] == Next(ws[k], ss[k]) {
      if k < |steps| { assert ws[k] == worlds[k] && ws[k + 1] == worlds[k + 1] && ss[k] == steps[k]; }
    }
  }

  /** The lead never changes and each extension is by `extra`. */
  ghost predicate Steady(steps: seq<Step>, lead: int, extra: int) {
    forall k | 0 <= k < |steps| ::
      (steps[k].Reap? ==> steps[k].lead == lead) && (steps[k].Extend? ==> steps[k].extra == extra)
  }

  /** Warned late, extended by a negative amount, warned again at once and deleted at the earlier expiry. */
  lemma ShortenedNotice(lead: int, extra: int) returns (worlds: seq<World>, steps: seq<Step>)
    requires extra < 0 && lead % SECOND == 0 && lead + extra >= SECOND
    ensures History(worlds, steps) && |steps| == 5 && Steady(steps, lead, extra)
    ensures var end := worlds[5];
            && |end.history| == 1 && |end.warnings| == 2 && end.warnings[0] == LateWarning(lead)
            && end.history[0].deletedAt == Moved(lead, extra)
            && !NoticeRespected(end, 0, 0)
  {
    hide History, Possible, Next;
    worlds, steps := WarnedLate(lead);
    var move := MoveIsExtend(lead, extra);
    assert Possible(AfterWarning(lead), move) by { ExtendPossible(AfterWarning(lead), move); }
    assert |worlds| == 3 by { Lengths(worlds, steps); }
    HistoryGrows(worlds, steps, move, AfterMove(lead, extra));
    var at := Moved(lead, extra);
    MovedEarlier(lead, extra);
    var moved := EXPIRED.(expires := Some(at));
    var warn, warned := ReapAlone(AfterMove(lead, extra), moved, MINUTE, lead);
    var w4 := Next(AfterMove(lead, extra), warn);
    var stamped := moved.(warned := Some(at));
    assert w4.cluster == map[NAME := stamped];
    HistoryGrows(worlds + [AfterMove(lead, extra)], steps + [move], warn, w4);
    var delete, deleted := ReapAlone(w4, stamped, at, lead);
    var w5 := Next(w4, delete);
    HistoryGrows(worlds + [AfterMove(lead, extra)] + [w4], steps + [move] + [warn], delete, w5);
    worlds := worlds + [AfterMove(lead, extra)] + [w4] + [w5];
    steps := steps + [move] + [warn] + [delete];
  }

  lemma Lengths(worlds: seq<World>, steps: seq<Step>)
    requires History(worlds, steps)
    ensures |worlds| == |steps| + 1
  {
  }

  lemma ExtendPossible(w: World, s: Step)
    requires s.Extend?
    ensures Possible(w, s)
  {
  }

  lemma MovedEarlier(lead: int, extra: int)
    requires extra < 0 && lead % SECOND == 0 && lead + extra >= SECOND
    ensures var at := Moved(lead, extra); MINUTE + SECOND <= at <= MINUTE + lead - SECOND && at % SECOND == 0
  {
    var at, l := Moved(lead, extra), lead / SECOND;
    assert lead == l * SECOND;
    FloorKeepsWholeBound(MINUTE + lead + extra, MINUTE + SECOND);
    SecondApart(at, (60 + l) * SECOND);
  }

  lemma SecondApart(a: int, b: int)
    requires a < b && a % SECOND == 0 && b % SECOND == 0
    ensures a <= b - SECOND
  {
    var p, q := a / SECOND, b / SECOND;
    assert a == p * SECOND && b == q * SECOND;
  }

  // ---- exactly which extensions keep the notice

  ghost predicate ExtendsBy(steps: seq<Step>, extra: int) {
    forall m | 0 <= m < |steps| && steps[m].Extend? :: steps[m].extra == extra
  }

  ghost predicate NoticeThroughout(w: World) {
    forall j, i | 0 <= j < |w.warnings| && 0 <= i < |w.history| :: NoticeRespected(w, j, i)
  }

  ghost predicate NoticeAlways(worlds: seq<World>, steps: seq<Step>) {
    forall k | 0 <= k <= |steps| && k < |worlds| :: NoticeThroughout(worlds[k])
  }

  /** In every history whose extensions are all by `extra`, late warnings give their notice. */
  ghost predicate NoticeHolds(extra: int) {
    forall worlds: seq<World>, steps: seq<Step> | History(worlds, steps) && ExtendsBy(steps, extra) ::
      NoticeAlways(worlds, steps)
  }

  lemma NoticeInHistory(worlds: seq<World>, steps: seq<Step>)
    requires History(worlds, steps) && NeverShortens(steps)
    ensures NoticeAlways(worlds, steps)
  {
    hide History, NoticeRespected;
    forall k, j, i | 0 <= k <= |steps| && k < |worlds| && 0 <= j < |worlds[k].warnings| && 0 <= i < |worlds[k].history|
      ensures NoticeRespected(worlds[k], j, i)
    {
      LateWarningGivesNotice(worlds, steps, k, j, i);
    }
  }

  lemma NoticeBroken(worlds: seq<World>, steps: seq<Step>, k: nat, j: nat, i: nat)
    requires k <= |steps| && k < |worlds|
    requires j < |worlds[k].warnings| && i < |worlds[k].history| && !NoticeRespected(worlds[k], j, i)
    ensures !NoticeAlways(worlds, steps)
  {
    hide NoticeRespected;
    assert !NoticeThroughout(worlds[k]);
  }

  lemma NoticeHoldsIff(extra: int)
    ensures NoticeHolds(extra) <==> extra >= 0
  {
    hide NoticeAlways, History, NoticeRespected;
    if extra >= 0 {
      NoticeKeptBy(extra);
    } else {
      var lead := (2 - extra) * SECOND;
      var worlds, steps := ShortenedNotice(lead, extra);
      Lengths(worlds, steps);
      NoticeBroken(worlds, steps, 5, 0, 0);
    }
  }

  lemma NoticeKeptBy(extra: int)
    requires extra >= 0
    ensures NoticeHolds(extra)
  {
    hide History, NoticeAlways;
    forall worlds: seq<World>, steps: seq<Step> | History(worlds, steps) && ExtendsBy(steps, extra)
      ensures NoticeAlways(worlds, steps)
    {
      NoticeInHistory(worlds, steps);
    }
  }

  /** An extension keeps every late warning binding, in every state, if and only if it is not negative. */
  lemma KeepsBindingIff(extra: int)
    ensures (forall w: World, s: Step | s.Extend? && s.extra == extra && NoticeIn(w) :: NoticeIn(Next(w, s))) <==>
            extra >= 0
  {
    hide NoticeIn, Next;
    if extra >= 0 {
      forall w: World, s: Step | s.Extend? && s.extra == extra && NoticeIn(w) ensures NoticeIn(Next(w, s)) {
        ExtendKeepsNotice(w, s);
      }
    } else {
      var lead := (2 - extra) * SECOND;
      var worlds, steps := WarnedLate(lead);
      NoticeAlwaysKept(worlds, steps, 2);
      var s := MoveIsExtend(lead, extra);
      MovedEarlier(lead, extra);
      NoLongerBinds(lead, extra);
      assert s.Extend? && s.extra == extra && NoticeIn(AfterWarning(lead)) && !NoticeIn(Next(AfterWarning(lead), s));
    }
  }

  lemma NoLongerBinds(lead: int, extra: int)
    requires Moved(lead, extra) < MINUTE + lead
    ensures !NoticeIn(AfterMove(lead, extra))
  {
    var w := AfterMove(lead, extra);
    assert NAME in w.cluster && !Binds(w.warnings[0], w.cluster[NAME]);
  }

  /** For an extension by n days: the notice holds if and only if the 64-bit duration came out
      non-negative, as it does up to 106751 days and not for the next. */
  lemma DaysKeepNoticeIff(n: int)
    requires n > 0
    ensures NoticeHolds(DaysToDuration(n)) <==> n * DAY % 0x1_0000_0000_0000_0000 < 0x8000_0000_0000_0000
    ensures n <= 106751 ==> NoticeHolds(DaysToDuration(n))
    ensures n == 106752 ==> !NoticeHolds(DaysToDuration(n))
  {
    hide NoticeHolds, Wrap64;
    NoticeHoldsIff(DaysToDuration(n));
    WrapSign(n * DAY);
  }

  lemma WrapSign(x: int)
    ensures Wrap64(x) >= 0 <==> x % 0x1_0000_0000_0000_0000 < 0x8000_0000_0000_0000
    ensures 0 <= x < 0x8000_0000_0000_0000 ==> Wrap64(x) == x
  {
    var q, r := x / 0x1_0000_0000_0000_0000, x % 0x1_0000_0000_0000_0000;
    assert x == q * 0x1_0000_0000_0000_0000 + r;
  }

  /** With the default lead of a day throughout, an accepted extension by 213503 days gets a namespace
      deleted under 26 minutes after it was promised that day. */
  lemma NoticeTakenBack() returns (worlds: seq<World>, steps: seq<Step>)
    ensures Accepted(DaysToDuration(213503)) && DaysToDuration(213503) < 0
    ensures History(worlds, steps) && |steps| == 5 && Steady(steps, DAY, DaysToDuration(213503))
    ensures var end := worlds[5];
            && |end.history| == 1 && |end.warnings| == 2 && !NoticeRespected(end, 0, 0)
            && end.warnings[0].postponed && end.warnings[0].uid == end.history[0].uid
            && end.history[0].deletedAt < end.warnings[0].at + 26 * MINUTE
  {
    hide History;
    worlds, steps := ShortenedNotice(DAY, DaysToDuration(213503));
  }
}
