/** Runs of a group, pass by pass, in which a property of the other modules meets its limit. */
module GroupRuns {
  import opened Common
  import opened CloudTargets
  import opened Stages
  import opened Passes
  import opened Barrier
  import opened Conservation

  const GROUP := "group"
  const DATABASE := Target(Id("cloud", "database", "db", "north"), "")
  /** Another target with the same identifier. */
  const MOVED_DATABASE := Target(Id("cloud", "database", "db", "south"), "")

  /** A pass over one cloud reference that the provider answers at once. The selector matches nothing. */
  function CloudPass(targets: seq<Target>, active: bool, stored: bool): Pass {
    Pass(Spec([], true, [["ext:db"]], targets, false, 0, false), [], map[], active, false, {}, map[], map[],
         map[(0, 0) := Scaled(true, false)], [HOUR], stored)
  }

  lemma CloudStages(targets: seq<Target>, active: bool, stored: bool)
    ensures var p := CloudPass(targets, active, stored);
            MembersNow(p) == [] && StagesNow(GROUP, p) == [["ext:db"]]
  {
    var p := CloudPass(targets, active, stored);
    assert forall ns :: ns !in MembersNow(p);
    assert MembersNow(p) == [];
    assert InStage(["ext:db"], []) == ["ext:db"];
    assert FromSequence([["ext:db"]], []) == [["ext:db"]];
    assert UpStages([["ext:db"]], []) == [["ext:db"]];
  }

  lemma SeenOne(p: Pass, i: nat, t: string)
    ensures |[t]| == 1 && forall ready :: Seen(p, i, [t], 1, ready) == if IsReady(p, i, 0, t) == ready then [t] else []
  {
    hide IsReady;
    assert forall ready :: Seen(p, i, [t], 0, ready) == [];
  }

  lemma CloudSettles(st: Status, targets: seq<Target>, active: bool, stored: bool, t: Target)
    requires FirstNamed(targets, "db") == Some(t)
    ensures var p := CloudPass(targets, active, stored);
            && Reconciled(GROUP, st, p).phase == Settled(active)
            && EventsOver(p, StagesNow(GROUP, p), Ran(st, p, StagesNow(GROUP, p))) == [Event(t, active, true)]
  {
    hide StagesNow, Reconciled, IsReady, TargetEvents, Seen, EventsIn;
    var p, stages := CloudPass(targets, active, stored), [["ext:db"]];
    CloudStages(targets, active, stored);
    CloudCall(targets, active, stored, t);
    SeenOne(p, 0, "ext:db");
    assert Waiting(p, stages, 0) == [];
    assert SeenIn(p, stages, 0, false) == [] && SeenIn(p, stages, 1, false) == [];
    assert EventsOver(p, stages, 0) == [] && EventsOver(p, stages, 1) == EventsIn(p, 0, stages[0], 1);
    Settling(GROUP, st, p);
  }

  lemma CloudCall(targets: seq<Target>, active: bool, stored: bool, t: Target)
    requires FirstNamed(targets, "db") == Some(t)
    ensures var p := CloudPass(targets, active, stored);
            IsReady(p, 0, 0, "ext:db") && EventsIn(p, 0, ["ext:db"], 1) == [Event(t, active, true)]
  {
    var p := CloudPass(targets, active, stored);
    assert "ext:db"[4..] == "db";
    assert EventsIn(p, 0, ["ext:db"], 0) == [];
  }

  /** A first scale-down pass stops the database, and its status write fails: the target is down and not
      on record. */
  lemma FailedWriteLosesStop() returns (states: seq<Status>, passes: seq<Pass>)
    ensures Run(GROUP, states, passes) && |passes| == 1 && !passes[0].stored
    ensures states[1].stopped == [] && Outstanding(EventsUpTo(GROUP, states, passes, 1), DATABASE)
    ensures !Conserved(states[1].stopped, EventsUpTo(GROUP, states, passes, 1))
  {
    hide StagesNow, EventsOver, Reconciled;
    var p := CloudPass([DATABASE], false, false);
    states, passes := [NEW_GROUP, NEW_GROUP], [p];
    CloudSettles(NEW_GROUP, [DATABASE], false, false, DATABASE);
    var events := EventsUpTo(GROUP, states, passes, 1);
    assert EventsUpTo(GROUP, states, passes, 0) == [];
    assert PassEvents(GROUP, NEW_GROUP, p) == [] + [Event(DATABASE, false, true)];
    assert events == [Event(DATABASE, false, true)];
    assert StillDownSince(events, DATABASE, 0);
  }

  /** The database is stopped and recorded. Then another entry with its identifier comes to stand before
      it, and the group comes up: it is stored as ScaledUp with a target on record, and down, that its
      sequence names. */
  lemma ShadowedStaysRecorded() returns (states: seq<Status>, passes: seq<Pass>)
    ensures Run(GROUP, states, passes) && |passes| == 2 && passes[1].stored
    ensures states[2].phase == ScaledUp && DATABASE in states[2].stopped
    ensures IsSequenced(passes[1].spec.sequence, passes[1].spec.targets, DATABASE.id)
  {
    hide Reconciled, StagesNow, EventsOver, RecordAll;
    var down, up := CloudPass([DATABASE], false, true), CloudPass([MOVED_DATABASE, DATABASE], true, true);
    CloudSettles(NEW_GROUP, [DATABASE], false, true, DATABASE);
    assert "ext:db" in down.spec.sequence[0] && "ext:" + "db" == "ext:db";
    ScaledDownRecordsAllNamed(GROUP, NEW_GROUP, down, DATABASE);
    var st := Stored(GROUP, NEW_GROUP, down);
    CloudSettles(st, [MOVED_DATABASE, DATABASE], true, true, MOVED_DATABASE);
    assert up.spec.targets[1].id == DATABASE.id && "ext:db" in up.spec.sequence[0];
    states, passes := [NEW_GROUP, st, Stored(GROUP, st, up)], [down, up];
    RecordHasNoRepeats(GROUP, states, passes, 1);
    ScaledUpRecordsOnlyShadowed(GROUP, st, up, DATABASE);
  }

  /** A scale-up pass over two namespaces, one a stage, of which the engine has the first ready or none. */
  function NamespacePass(first: string, second: string, firstReady: bool): Pass {
    Pass(Spec([first, second], false, [[first], [second]], [], false, 0, false), [], map[], true, false, {}, map[],
         if firstReady then map[(0, 0) := EngineScaled(map[], true, ScaledUp)] else map[], map[], [HOUR], true)
  }

  lemma NamespaceStages(first: string, second: string, firstReady: bool)
    requires !IsCloud(first) && !IsCloud(second)
    ensures StagesNow(GROUP, NamespacePass(first, second, firstReady)) == [[first], [second]]
  {
    hide Members;
    var p := NamespacePass(first, second, firstReady);
    var managed := Without(MembersNow(p), Skipped(GROUP, p));
    var q := [[first], [second]];
    assert first in managed && second in managed;
    InStageAlone(first, managed);
    InStageAlone(second, managed);
    assert q[1..] == [[second]] && q[1..][1..] == [];
    assert FromSequence([[second]], managed) == [[second]];
    assert FromSequence(q, managed) == q;
    FlattenHolds(q, first);
    FlattenHolds(q, second);
    assert first in q[0] && second in q[1];
    NothingMissing(managed, Flatten(q));
  }

  lemma InStageAlone(t: string, managed: seq<string>)
    requires t in managed
    ensures InStage([t], managed) == [t]
  {
    assert [t][1..] == [] && InStage([], managed) == [];
  }

  lemma {:induction false} NothingMissing(s: seq<string>, out: seq<string>)
    requires forall x | x in s :: x in out
    ensures Without(s, out) == []
  {
    if s == [] {
    } else {
      NothingMissing(s[1..], out);
    }
  }

  lemma NamespaceWaiting(first: string, second: string, firstReady: bool)
    requires !IsCloud(first) && !IsCloud(second)
    ensures var p, stages := NamespacePass(first, second, firstReady), [[first], [second]];
            && Waiting(p, stages, 0) == (if firstReady then [] else [first])
            && Waiting(p, stages, 1) == [second]
  {
    var p := NamespacePass(first, second, firstReady);
    SeenOne(p, 0, first);
    SeenOne(p, 1, second);
  }

  /** A transition is waiting for its second stage when its first namespace is replaced by another. The
      next pass goes past the new first stage, which was never ready, and acts on the second, although
      no timeout applies. */
  lemma ChangedStagesArePassedOver() returns (states: seq<Status>, passes: seq<Pass>)
    ensures Run(GROUP, states, passes) && |passes| == 2 && Resumes(states[1], passes[1])
    ensures forall k | 0 <= k < 2 ::
            passes[k].stored && ActsOnStages(states[k], passes[k]) && !passes[k].spec.skipOnTimeout
    ensures StagesNow(GROUP, passes[0]) == [["a"], ["b"]] && StagesNow(GROUP, passes[1]) == [["c"], ["b"]]
    ensures !IsReady(passes[1], 0, 0, "c") && Ran(states[1], passes[1], StagesNow(GROUP, passes[1])) == 2
  {
    hide Reconciled, StagesNow, Waiting, Reading;
    var before, after := NamespacePass("a", "b", true), NamespacePass("c", "b", false);
    var st := Stored(GROUP, NEW_GROUP, before);
    NamespaceStages("a", "b", true);
    NamespaceWaiting("a", "b", true);
    NamespaceStages("c", "b", false);
    NamespaceWaiting("c", "b", false);
    NextMark(GROUP, NEW_GROUP, before);
    assert Holding(NEW_GROUP, before, [["a"], ["b"]]) == 1;
    Settling(GROUP, NEW_GROUP, before);
    SeenInTotals(before, [["a"], ["b"]], 2);
    states, passes := [NEW_GROUP, st, Stored(GROUP, st, after)], [before, after];
    PassedOverIff(GROUP, st, after, 0);
  }
}
