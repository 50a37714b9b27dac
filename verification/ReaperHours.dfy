/** The limit on deletions for hours that include both ends: forty, and no fewer. */
module ReaperHours {
  import opened Common
  import opened Reaper
  import opened ReaperRuns
  import opened ReaperExtensions

  /** The deletions of the hour that ends with T, both ends included. */
  function InClosedHour(h: seq<Deletion>, T: int): nat {
    if h == [] then 0 else (if T - HOUR <= h[0].deletedAt <= T then 1 else 0) + InClosedHour(h[1..], T)
  }

  lemma {:induction false} ClosedIsTwoOpen(h: seq<Deletion>, T: int)
    ensures InClosedHour(h, T) <= InHour(h, T - HOUR) + InHour(h, T)
  {
    if h == [] {
    } else {
      ClosedIsTwoOpen(h[1..], T);
    }
  }

  /** Whatever happens, at most forty namespaces are deleted in an hour that includes both its ends. */
  lemma AtMostFortyAClosedHour(worlds: seq<World>, steps: seq<Step>, k: nat, T: int)
    requires History(worlds, steps) && k <= |steps|
    ensures InClosedHour(worlds[k].history, T) <= 40
  {
    hide History;
    Lengths(worlds, steps);
    AtMostTwentyAnHour(worlds, steps, k, T);
    AtMostTwentyAnHour(worlds, steps, k, T - HOUR);
    ClosedIsTwoOpen(worlds[k].history, T);
  }

  // ---- a history with forty

  /** Few deletions so far, all logged, and no uid used beyond their number. */
  ghost predicate Early(w: World, at: int) {
    && w.log == w.history && |w.history| < LOG_SIZE && w.clock <= at && at >= SECOND
    && forall u | u in w.used :: u <= |w.history|
  }

  /** A namespace of a uid of its own is created, and found expired. */
  lemma Created(w: World, at: int) returns (s: Step, next: World, ns: Preview)
    requires Early(w, at)
    ensures ns == EXPIRED.(uid := |w.history| + 1) && s.Change? && Possible(w, s) && next == Next(w, s)
    ensures next == w.(cluster := map[NAME := ns], used := w.used + {ns.uid})
  {
    ns := EXPIRED.(uid := |w.history| + 1);
    s := Change(map[NAME := ns]);
    assert Uids(s.cluster) == {ns.uid} by { assert s.cluster[NAME].uid == ns.uid; }
    next := Next(w, s);
  }

  /** Without a warning lead, and with some budget left, a run deletes it. */
  lemma DeletedAlone(w: World, ns: Preview, at: int) returns (s: Step, next: World)
    requires w.cluster == map[NAME := ns] && ns == EXPIRED.(uid := ns.uid)
    requires w.log == w.history && |w.log| < LOG_SIZE && w.clock <= at && at >= SECOND
    requires Recent(w.log, at) < MAX_DELETIONS_AN_HOUR
    ensures s.Reap? && Possible(w, s) && next == Next(w, s) && next.clock == at && next.used == w.used
    ensures next.log == next.history && |next.history| == |w.history| + 1
    ensures next.history[0].deletedAt == at && next.history[1..] == w.history
  {
    hide Possible, Next;
    var end;
    s, end := ReapAlone(w, ns, at, 0);
    next := Next(w, s);
    var e := EntryOf(NAME, ns, TTL);
    assert Decide(e, at, 0, MAX_DELETIONS_AN_HOUR - Recent(w.log, at)) == Delete;
  }

  /** n more namespaces, created and deleted at one instant, as far as the budget goes. */
  lemma {:induction false} DeleteMore(worlds: seq<World>, steps: seq<Step>, at: int, T: int, n: nat)
    returns (ws: seq<World>, ss: seq<Step>)
    requires History(worlds, steps) && Early(worlds[|steps|], at) && T - HOUR <= at <= T
    requires Recent(worlds[|steps|].log, at) + n <= MAX_DELETIONS_AN_HOUR && |worlds[|steps|].history| + n < LOG_SIZE
    ensures History(ws, ss) && Early(ws[|ss|], at)
    ensures Recent(ws[|ss|].log, at) == Recent(worlds[|steps|].log, at) + n
    ensures |ws[|ss|].history| == |worlds[|steps|].history| + n
    ensures InClosedHour(ws[|ss|].history, T) == InClosedHour(worlds[|steps|].history, T) + n
    ensures n > 0 ==> ws[|ss|].clock == at
    ensures DoneBy(worlds[|steps|].history, at) ==> DoneBy(ws[|ss|].history, at)
    decreases n
  {
    hide History, Possible, Next;
    if n == 0 {
      ws, ss := worlds, steps;
    } else {
      ws, ss := DeleteMore(worlds, steps, at, T, n - 1);
      Lengths(ws, ss);
      var w := ws[|ss|];
      var create, before, ns := Created(w, at);
      HistoryGrows(ws, ss, create, before);
      var delete, after := DeletedAlone(before, ns, at);
      HistoryGrows(ws + [before], ss + [create], delete, after);
      ws, ss := ws + [before] + [after], ss + [create] + [delete];
      assert ws[|ss|] == after;
    }
  }

  /** Twenty at one instant, and twenty more exactly an hour later. */
  lemma FortyInAClosedHour() returns (worlds: seq<World>, steps: seq<Step>)
    ensures History(worlds, steps)
    ensures InClosedHour(worlds[|steps|].history, MINUTE + HOUR) == 40
  {
    hide Possible, Next;
    worlds, steps := [EMPTY], [];
    assert Recent([], MINUTE) == 0 && InClosedHour([], MINUTE + HOUR) == 0;
    worlds, steps := DeleteMore(worlds, steps, MINUTE, MINUTE + HOUR, MAX_DELETIONS_AN_HOUR);
    BudgetIsWholeAfterAnHour(worlds[|steps|].history, MINUTE + HOUR);
    worlds, steps := DeleteMore(worlds, steps, MINUTE + HOUR, MINUTE + HOUR, MAX_DELETIONS_AN_HOUR);
  }
}
