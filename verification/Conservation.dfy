/** What every run keeps about the cloud targets a group has stopped. */
module Conservation {
  import opened Common
  import opened CloudTargets
  import opened Stages
  import opened Passes
  import opened Barrier

  /** The calls to cloud providers that took during a pass, in order. */
  function PassEvents(name: string, st: Status, p: Pass): seq<Event> {
    RestartEvents(st, p) +
    if ActsOnStages(st, p) then EventsOver(p, StagesNow(name, p), Ran(st, p, StagesNow(name, p))) else []
  }

  lemma RecordOfPass(name: string, st: Status, p: Pass)
    ensures Reconciled(name, st, p).stopped == RecordAll(st.stopped, PassEvents(name, st, p))
  {
    hide RecordAll, RestartEvents, EventsOver, StagesNow, Ran, CountsOver, SeenIn, Holding, LedgerNow;
    RecordAllAppend(st.stopped, RestartEvents(st, p),
                    if ActsOnStages(st, p) then EventsOver(p, StagesNow(name, p), Ran(st, p, StagesNow(name, p)))
                      else []);
    assert RestartEvents(st, p) + [] == RestartEvents(st, p);
  }

  function EventsUpTo(name: string, states: seq<Status>, passes: seq<Pass>, k: nat): seq<Event>
    requires k <= |passes| && |states| == |passes| + 1
    decreases k
  {
    if k == 0 then [] else EventsUpTo(name, states, passes, k - 1) + PassEvents(name, states[k - 1], passes[k - 1])
  }

  // ---- when a pass has nothing new to record

  /** A call that tells the record nothing new: a stop of a target recorded just so, or a start that
      was not seen ready or whose target is not recorded. */
  predicate Moot(stopped: seq<Target>, e: Event) {
    if e.active then !e.ready || forall k | 0 <= k < |stopped| :: stopped[k].id != e.target.id else e.target in stopped
  }

  ghost predicate AllMoot(stopped: seq<Target>, events: seq<Event>) { forall e | e in events :: Moot(stopped, e) }

  /** The calls on one id all go one way and are about the same target. */
  ghost predicate OneWay(events: seq<Event>) {
    forall x, y | x in events && y in events && x.target.id == y.target.id ::
      x.active == y.active && x.target == y.target
  }

  /** Whether t is on record after one-way calls. */
  lemma {:induction false} OneWayResult(stopped: seq<Target>, events: seq<Event>, t: Target)
    requires NoRepeats(stopped) && OneWay(events)
    ensures var after := RecordAll(stopped, events);
            && NoRepeats(after)
            && ((forall e | e in events :: e.target.id != t.id) ==> (t in after <==> t in stopped))
            && forall e | e in events && e.target.id == t.id ::
                 t in after <==>
                   if e.active then t in stopped && forall x | x in events && x.target.id == t.id :: !x.ready
                   else e.target == t
    decreases |events|
  {
    hide Record;
    if events == [] {
    } else {
      var n := |events| - 1;
      var last := events[n];
      assert events == events[..n] + [last];
      OneWayResult(stopped, events[..n], t);
      RecordStep(RecordAll(stopped, events[..n]), last, t);
    }
  }

  /** One-way calls leave the record as it was if and only if each of them is moot. */
  lemma UnchangedIffMoot(stopped: seq<Target>, events: seq<Event>)
    requires NoRepeats(stopped) && OneWay(events)
    ensures (forall t :: t in RecordAll(stopped, events) <==> t in stopped) <==> AllMoot(stopped, events)
  {
    hide RecordAll;
    if AllMoot(stopped, events) {
      forall t ensures t in RecordAll(stopped, events) <==> t in stopped { MootKeeps(stopped, events, t); }
    } else {
      var e :| e in events && !Moot(stopped, e);
      var t := e.target;
      if e.active { var k :| 0 <= k < |stopped| && stopped[k].id == e.target.id; t := stopped[k]; }
      OneWayResult(stopped, events, t);
    }
  }

  /** Moot calls, one-way or not, leave the record as it was. */
  lemma {:induction false} MootKeeps(stopped: seq<Target>, events: seq<Event>, t: Target)
    requires NoRepeats(stopped) && AllMoot(stopped, events)
    ensures t in RecordAll(stopped, events) <==> t in stopped
    decreases |events|
  {
    hide Record;
    if events == [] {
    } else {
      var n := |events| - 1;
      var last := events[n];
      assert Moot(stopped, last);
      RecordsWithoutRepeats(stopped, events[..n]);
      RecordStep(RecordAll(stopped, events[..n]), last, t);
      MootKeeps(stopped, events[..n], t);
      if last.active { } else if t.id == last.target.id && t in stopped { OnePerId(stopped, t, last.target); }
    }
  }

  /** No namespace name looks like a cloud reference, as names hold no colon. */
  ghost predicate NamespacesProper(p: Pass) { forall ns | ns in MembersNow(p) :: !IsCloud(ns) }

  /** The calls of a pass are one-way: what it restarts no stage names, and the stages all go the same
      way and mean the same entry by the same identifier. */
  lemma PassIsOneWay(name: string, st: Status, p: Pass)
    requires NoRepeats(st.stopped) && NamespacesProper(p)
    ensures OneWay(PassEvents(name, st, p))
  {
    hide NoRepeats, RecordAll, Restarts, StageCall, EventsOver, StagesNow, Ran, IsSequenced;
    var stages := StagesNow(name, p);
    var restarts := RestartEvents(st, p);
    var calls := if ActsOnStages(st, p) then EventsOver(p, stages, Ran(st, p, stages)) else [];
    RestartsFromRecord(st.stopped, p, |st.stopped|);
    EventsOverAreCalls(p, stages, Ran(st, p, stages));
    forall x: Event, y: Event | x in restarts + calls && y in restarts + calls && x.target.id == y.target.id
      ensures x.active == y.active && x.target == y.target
    {
      if x in restarts && y in restarts {
        OnePerId(st.stopped, x.target, y.target);
      } else if x in calls && y in calls {
        CallsAgree(p, x, y);
      } else {
        assert exists r: Event, c: Event :: r in restarts && c in calls && r.target.id == c.target.id by {
          if x in restarts { assert y in calls; } else { assert y in restarts && x in calls; }
        }
        var r: Event, c: Event :| r in restarts && c in calls && r.target.id == c.target.id;
        CallIsSequenced(name, st, p, c);
        assert false;
      }
    }
  }

  lemma OnePerId(stopped: seq<Target>, a: Target, b: Target)
    requires NoRepeats(stopped) && a in stopped && b in stopped && a.id == b.id
    ensures a == b
  {
  }

  lemma CallsAgree(p: Pass, x: Event, y: Event)
    requires StageCall(p, x) && StageCall(p, y) && x.target.id == y.target.id
    ensures x.active == y.active && x.target == y.target
  {
  }

  lemma {:induction false} RestartsFromRecord(recorded: seq<Target>, p: Pass, n: nat)
    requires n <= |recorded|
    ensures forall e | e in Restarts(recorded, p.spec.sequence, p.spec.targets, p.restarts, n) ::
              e.active && e.target in recorded && !IsSequenced(p.spec.sequence, p.spec.targets, e.target.id)
    decreases n
  {
    hide IsSequenced;
    if n == 0 {
    } else {
      RestartsFromRecord(recorded, p, n - 1);
    }
  }

  /** Where a call of the stages comes from. */
  lemma {:induction false} CallFrom(p: Pass, stages: seq<seq<string>>, k: nat, e: Event) returns (t: string)
    requires k <= |stages| && e in EventsOver(p, stages, k)
    ensures Staged(stages, t) && IsCloud(t) && CloudTarget(p, t) == Some(e.target)
    decreases k
  {
    hide TargetEvents, IsCloud, CloudTarget;
    if e in EventsOver(p, stages, k - 1) {
      t := CallFrom(p, stages, k - 1, e);
    } else {
      t := CallFromStage(p, k - 1, stages[k - 1], |stages[k - 1]|, e);
    }
  }

  lemma {:induction false} CallFromStage(p: Pass, i: nat, stage: seq<string>, n: nat, e: Event) returns (t: string)
    requires n <= |stage| && e in EventsIn(p, i, stage, n)
    ensures t in stage && IsCloud(t) && CloudTarget(p, t) == Some(e.target)
    decreases n
  {
    hide IsCloud, CloudTarget;
    if e in EventsIn(p, i, stage, n - 1) {
      t := CallFromStage(p, i, stage, n - 1, e);
    } else {
      t := stage[n - 1];
      assert e in TargetEvents(p, i, n - 1, t);
    }
  }

  lemma CallIsSequenced(name: string, st: Status, p: Pass, e: Event)
    requires NamespacesProper(p) && e in EventsOver(p, StagesNow(name, p), Ran(st, p, StagesNow(name, p)))
    ensures IsSequenced(p.spec.sequence, p.spec.targets, e.target.id)
  {
    hide Ran, EventsOver, StagesFor, MembersNow, Skipped, IsSequenced, Flatten;
    var stages, q := StagesNow(name, p), p.spec.sequence;
    var managed := Without(MembersNow(p), Skipped(name, p));
    var t := CallFrom(p, stages, Ran(st, p, stages), e);
    AscendingDistinct(MembersNow(p));
    WithoutDistinct(MembersNow(p), Skipped(name, p));
    FlattenHolds(stages, t);
    InCount(Flatten(stages), t);
    StageOccurrences(q, managed, p.active, t);
    FirstNamedIs(p.spec.targets, t[4..]);
    assert t == "ext:" + e.target.id.identifier;
    assert t !in managed || t in Flatten(q);
    InCount(Flatten(q), t);
    FlattenHolds(q, t);
    NamedIsSequenced(p, e.target);
  }

  // ---- conservation

  /** A pass keeps the record exact if its status write succeeds or each of its calls was moot for the
      targets it found recorded, and only then. */
  lemma PassConserves(name: string, st: Status, p: Pass, events: seq<Event>)
    requires Conserved(st.stopped, events)
    ensures p.stored || AllMoot(st.stopped, PassEvents(name, st, p)) ==>
              Conserved(Stored(name, st, p).stopped, events + PassEvents(name, st, p))
    ensures NamespacesProper(p) && Conserved(Stored(name, st, p).stopped, events + PassEvents(name, st, p)) ==>
              p.stored || AllMoot(st.stopped, PassEvents(name, st, p))
  {
    hide Reconciled, PassEvents, RecordAll, AllMoot, NamespacesProper;
    RecordOfPass(name, st, p);
    ConservedAll(st.stopped, events, PassEvents(name, st, p));
    if NamespacesProper(p) {
      PassIsOneWay(name, st, p);
      UnchangedIffMoot(st.stopped, PassEvents(name, st, p));
    }
    if AllMoot(st.stopped, PassEvents(name, st, p)) {
      forall t ensures t in RecordAll(st.stopped, PassEvents(name, st, p)) <==> t in st.stopped {
        MootKeeps(st.stopped, PassEvents(name, st, p), t);
      }
    }
  }

  /** Over any run whose status writes succeed where they matter, the recorded targets are exactly
      those whose last stop that took has not been followed by a start seen ready, without repeats,
      each as it was when last stopped. */
  lemma {:induction false} StoppedTargetsConserved(name: string, states: seq<Status>, passes: seq<Pass>, k: nat)
    requires Run(name, states, passes) && k <= |passes|
    requires forall q | 0 <= q < k ::
             passes[q].stored || AllMoot(states[q].stopped, PassEvents(name, states[q], passes[q]))
    ensures Conserved(states[k].stopped, EventsUpTo(name, states, passes, k))
    decreases k
  {
    hide Stored, PassEvents, AllMoot;
    if k == 0 {
    } else {
      StoppedTargetsConserved(name, states, passes, k - 1);
      assert states[k - 1 + 1] == Stored(name, states[k - 1], passes[k - 1]);
      PassConserves(name, states[k - 1], passes[k - 1], EventsUpTo(name, states, passes, k - 1));
    }
  }

  /** The record never lists a target twice, stored or not. */
  lemma {:induction false} RecordHasNoRepeats(name: string, states: seq<Status>, passes: seq<Pass>, k: nat)
    requires Run(name, states, passes) && k <= |passes|
    ensures NoRepeats(states[k].stopped)
    decreases k
  {
    hide Reconciled, PassEvents, RecordAll;
    if k == 0 {
    } else {
      var st, p := states[k - 1], passes[k - 1];
      RecordHasNoRepeats(name, states, passes, k - 1);
      assert states[k - 1 + 1] == Stored(name, st, p);
      RecordOfPass(name, st, p);
      RecordsWithoutRepeats(st.stopped, PassEvents(name, st, p));
    }
  }

  lemma {:induction false} RecordsWithoutRepeats(stopped: seq<Target>, events: seq<Event>)
    requires NoRepeats(stopped)
    ensures NoRepeats(RecordAll(stopped, events))
    decreases |events|
  {
    hide Record;
    if events == [] {
    } else {
      var n := |events| - 1;
      RecordsWithoutRepeats(stopped, events[..n]);
      RecordStep(RecordAll(stopped, events[..n]), events[n], events[n].target);
    }
  }

  // ---- what a group that is up still records

  /** An earlier spec entry with the same identifier hides this target from the stages. */
  predicate Shadowed(targets: seq<Target>, id: Id) {
    FirstNamed(targets, id.identifier).None? || FirstNamed(targets, id.identifier).value.id != id
  }

  lemma Unshadowed(targets: seq<Target>, id: Id) returns (first: Target)
    requires !Shadowed(targets, id)
    ensures first.id == id && FirstNamed(targets, id.identifier) == Some(first)
  {
    first := FirstNamed(targets, id.identifier).value;
  }

  lemma {:induction false} FirstNamedIs(targets: seq<Target>, identifier: string)
    ensures FirstNamed(targets, identifier).Some? ==> FirstNamed(targets, identifier).value.id.identifier == identifier
  {
    if targets == [] || targets[0].id.identifier == identifier {
    } else {
      FirstNamedIs(targets[1..], identifier);
    }
  }

  /** Stage calls name the first entry with the identifier, and go the pass's way. */
  ghost predicate StageCall(p: Pass, e: Event) {
    e.active == p.active && FirstNamed(p.spec.targets, e.target.id.identifier) == Some(e.target)
  }

  lemma CallUnshadowed(p: Pass, e: Event)
    requires StageCall(p, e)
    ensures !Shadowed(p.spec.targets, e.target.id)
  {
  }

  lemma TargetEventsAreCalls(p: Pass, i: nat, j: nat, target: string)
    ensures forall e | e in TargetEvents(p, i, j, target) :: StageCall(p, e)
  {
    if IsCloud(target) { FirstNamedIs(p.spec.targets, target[4..]); }
  }

  lemma {:induction false} EventsInAreCalls(p: Pass, i: nat, stage: seq<string>, n: nat)
    requires n <= |stage|
    ensures forall e | e in EventsIn(p, i, stage, n) :: StageCall(p, e)
    decreases n
  {
    hide TargetEvents, StageCall;
    if n == 0 {
    } else {
      EventsInAreCalls(p, i, stage, n - 1);
      TargetEventsAreCalls(p, i, n - 1, stage[n - 1]);
    }
  }

  lemma {:induction false} EventsOverAreCalls(p: Pass, stages: seq<seq<string>>, k: nat)
    requires k <= |stages|
    ensures forall e | e in EventsOver(p, stages, k) :: StageCall(p, e)
    decreases k
  {
    hide EventsIn, StageCall;
    if k == 0 {
    } else {
      EventsOverAreCalls(p, stages, k - 1);
      EventsInAreCalls(p, k - 1, stages[k - 1], |stages[k - 1]|);
    }
  }

  lemma {:induction false} EventsInHas(p: Pass, i: nat, stage: seq<string>, n: nat, j: nat)
    requires j < n <= |stage|
    ensures forall e | e in TargetEvents(p, i, j, stage[j]) :: e in EventsIn(p, i, stage, n)
    decreases n
  {
    hide TargetEvents;
    if j == n - 1 {
    } else {
      EventsInHas(p, i, stage, n - 1, j);
    }
  }

  lemma {:induction false} EventsOverHas(p: Pass, stages: seq<seq<string>>, k: nat, i: nat, j: nat)
    requires i < k <= |stages| && j < |stages[i]|
    ensures forall e | e in TargetEvents(p, i, j, stages[i][j]) :: e in EventsOver(p, stages, k)
    decreases k
  {
    hide TargetEvents, EventsIn;
    if i < k - 1 { EventsOverHas(p, stages, k - 1, i, j); } else { EventsInHas(p, i, stages[i], |stages[i]|, j); }
  }

  /** A reference in the sequence reaches some stage. */
  lemma ReferenceStaged(q: seq<seq<string>>, managed: seq<string>, active: bool, identifier: string)
    requires Distinct(managed) && Referenced(q, identifier)
    ensures Stages.Staged(StagesFor(q, managed, active), "ext:" + identifier)
  {
    hide StagesFor, Flatten;
    var t := "ext:" + identifier;
    var k :| 0 <= k < |q| && t in q[k];
    FlattenHolds(q, t);
    InCount(Flatten(q), t);
    StageOccurrences(q, managed, active, t);
    InCount(Flatten(StagesFor(q, managed, active)), t);
    FlattenHolds(StagesFor(q, managed, active), t);
  }

  /** A settled pass has called, and seen ready, every unshadowed target its sequence names. */
  lemma CallMade(name: string, st: Status, p: Pass, t: Target) returns (e: Event)
    requires ActsOnStages(st, p) && Reconciled(name, st, p).phase == Settled(p.active)
    requires Referenced(p.spec.sequence, t.id.identifier) && FirstNamed(p.spec.targets, t.id.identifier) == Some(t)
    ensures e in EventsOver(p, StagesNow(name, p), Ran(st, p, StagesNow(name, p)))
    ensures e == Event(t, p.active, true)
  {
    hide Reconciled, Holding, SeenIn, EventsOver, StagesFor, MembersNow, Skipped, Without, Waiting;
    var stages, token := StagesNow(name, p), "ext:" + t.id.identifier;
    AscendingDistinct(MembersNow(p));
    WithoutDistinct(MembersNow(p), Skipped(name, p));
    ReferenceStaged(p.spec.sequence, Without(MembersNow(p), Skipped(name, p)), p.active, t.id.identifier);
    var i :| 0 <= i < |stages| && token in stages[i];
    var j :| 0 <= j < |stages[i]| && stages[i][j] == token;
    Settling(name, st, p);
    NothingWaits(name, st, p, i, j);
    assert token[4..] == t.id.identifier;
    e := Event(t, p.active, true);
    assert e in TargetEvents(p, i, j, token);
    EventsOverHas(p, stages, |stages|, i, j);
  }

  lemma NothingWaits(name: string, st: Status, p: Pass, i: nat, j: nat)
    requires ActsOnStages(st, p) && Reconciled(name, st, p).phase == Settled(p.active)
    requires i < |StagesNow(name, p)| && j < |StagesNow(name, p)[i]|
    ensures IsReady(p, i, j, StagesNow(name, p)[i][j])
  {
    hide SeenIn, EventsOver, CountsOver, StagesNow, Seen, IsReady, LedgerNow, RestartEvents, Total, Holding;
    var stages := StagesNow(name, p);
    Settling(name, st, p);
    SeenInTotals(p, stages, |stages|);
    assert Waiting(p, stages, i) == [];
    SeenNone(p, i, stages[i], |stages[i]|, j);
  }

  /** The targets a group stored as ScaledUp still records although its sequence names them are
      exactly the recorded ones that an earlier spec entry with the same identifier shadows. */
  lemma ScaledUpRecordsOnlyShadowed(name: string, st: Status, p: Pass, t: Target)
    requires NoRepeats(st.stopped) && ActsOnStages(st, p) && p.active && Reconciled(name, st, p).phase == ScaledUp
    requires IsSequenced(p.spec.sequence, p.spec.targets, t.id)
    ensures t in Reconciled(name, st, p).stopped <==> t in st.stopped && Shadowed(p.spec.targets, t.id)
  {
    hide Reconciled, Holding, EventsOver, StagesNow, RecordAll, IsSequenced, Restarts, Ran, Shadowed;
    var stages := StagesNow(name, p);
    var calls := EventsOver(p, stages, Ran(st, p, stages));
    var restarts := RestartEvents(st, p);
    EventsOverAreCalls(p, stages, Ran(st, p, stages));
    RecordOfPass(name, st, p);
    var all := restarts + calls;
    assert forall k | 0 <= k < |all| :: all[k] in restarts || all[k] in calls;
    assert forall e | e in restarts :: e.active && e.target.id != t.id;
    StartsClear(st.stopped, all, t);
    forall e | e in calls ensures !Shadowed(p.spec.targets, e.target.id) { CallUnshadowed(p, e); }
    if !Shadowed(p.spec.targets, t.id) {
      assert Referenced(p.spec.sequence, t.id.identifier) by { SequencedIsReferenced(p, t.id); }
      var first := Unshadowed(p.spec.targets, t.id);
      var e := CallMade(name, st, p, first);
      assert e in all;
    }
  }

  lemma SequencedIsReferenced(p: Pass, id: Id)
    requires IsSequenced(p.spec.sequence, p.spec.targets, id)
    ensures Referenced(p.spec.sequence, id.identifier)
  {
  }

  ghost predicate UniqueIdentifiers(targets: seq<Target>) {
    forall i, j | 0 <= i < j < |targets| :: targets[i].id.identifier != targets[j].id.identifier
  }

  lemma {:induction false} UniqueNeverShadowed(targets: seq<Target>, k: nat)
    requires UniqueIdentifiers(targets) && k < |targets|
    ensures !Shadowed(targets, targets[k].id)
  {
    if k == 0 {
    } else {
      assert targets[0].id.identifier != targets[k].id.identifier;
      UniqueNeverShadowed(targets[1..], k - 1);
    }
  }

  /** With unique identifiers, a group stored as ScaledUp by any run records no cloud target its
      sequence still names. */
  lemma ScaledUpRecordsNothingNamed(name: string, states: seq<Status>, passes: seq<Pass>, k: nat, t: Target)
    requires Run(name, states, passes) && k < |passes| && passes[k].stored
    requires ActsOnStages(states[k], passes[k]) && states[k + 1].phase == ScaledUp
    requires UniqueIdentifiers(passes[k].spec.targets)
    requires IsSequenced(passes[k].spec.sequence, passes[k].spec.targets, t.id)
    ensures t !in states[k + 1].stopped
  {
    hide Reconciled, NoRepeats, Shadowed;
    var p := passes[k];
    NextMark(name, states[k], p);
    RecordHasNoRepeats(name, states, passes, k);
    ScaledUpRecordsOnlyShadowed(name, states[k], p, t);
    var i :| 0 <= i < |p.spec.targets| && p.spec.targets[i].id == t.id;
    UniqueNeverShadowed(p.spec.targets, i);
  }

  // ---- what a group that is down records

  /** A run of stops of one target, at least one of them, leaves it recorded. */
  lemma {:induction false} StopsRecord(stopped: seq<Target>, events: seq<Event>, t: Target)
    requires NoRepeats(stopped)
    requires forall e | e in events && e.target.id == t.id :: !e.active && e.target == t
    requires t in stopped || exists e :: e in events && e.target == t
    ensures t in RecordAll(stopped, events)
    decreases |events|
  {
    hide Record;
    if events == [] {
    } else {
      var n := |events| - 1;
      RecordsWithoutRepeats(stopped, events[..n]);
      RecordStep(RecordAll(stopped, events[..n]), events[n], t);
      if events[n].target.id != t.id { StopsRecord(stopped, events[..n], t); }
    }
  }

  /** A settled scale-down has stopped every cloud target its sequence names, and has all of them on
      record, as the spec describes them. */
  lemma ScaledDownRecordsAllNamed(name: string, st: Status, p: Pass, t: Target)
    requires NoRepeats(st.stopped) && ActsOnStages(st, p) && !p.active && Reconciled(name, st, p).phase == ScaledDown
    requires Referenced(p.spec.sequence, t.id.identifier) && FirstNamed(p.spec.targets, t.id.identifier) == Some(t)
    ensures t in Reconciled(name, st, p).stopped
  {
    hide Reconciled, Holding, EventsOver, StagesNow, RecordAll, Restarts, Ran, Referenced, NoRepeats;
    var stages := StagesNow(name, p);
    var calls, restarts := EventsOver(p, stages, Ran(st, p, stages)), RestartEvents(st, p);
    EventsOverAreCalls(p, stages, Ran(st, p, stages));
    RecordOfPass(name, st, p);
    var e := CallMade(name, st, p, t);
    var all := restarts + calls;
    assert e in all;
    assert IsSequenced(p.spec.sequence, p.spec.targets, t.id) by { NamedIsSequenced(p, t); }
    forall x: Event | x in all && x.target.id == t.id ensures !x.active && x.target == t {
      if x in restarts { assert false; }
    }
    StopsRecord(st.stopped, all, t);
  }

  lemma NamedIsSequenced(p: Pass, t: Target)
    requires Referenced(p.spec.sequence, t.id.identifier) && FirstNamed(p.spec.targets, t.id.identifier) == Some(t)
    ensures IsSequenced(p.spec.sequence, p.spec.targets, t.id)
  {
    FirstNamedIn(p.spec.targets, t.id.identifier);
    var k :| 0 <= k < |p.spec.targets| && p.spec.targets[k] == t;
  }

  lemma {:induction false} FirstNamedIn(targets: seq<Target>, identifier: string)
    ensures FirstNamed(targets, identifier).Some? ==> FirstNamed(targets, identifier).value in targets
  {
    if targets == [] || targets[0].id.identifier == identifier {
    } else {
      FirstNamedIn(targets[1..], identifier);
    }
  }

  // ---- targets that left the sequence

  lemma {:induction false} RestartsKeep(recorded: seq<Target>, p: Pass, n: nat, i: nat)
    requires NoRepeats(recorded) && n <= |recorded| && i < |recorded|
    ensures var after := RecordAll(recorded, Restarts(recorded, p.spec.sequence, p.spec.targets, p.restarts, n));
            && NoRepeats(after)
            && (recorded[i] in after <==>
                  || i >= n || IsSequenced(p.spec.sequence, p.spec.targets, recorded[i].id)
                  || !AnswerAt(p.restarts, i).Scaled? || !AnswerAt(p.restarts, i).ready)
    decreases n
  {
    hide Record, RecordAll, IsSequenced;
    RecordAllNone(recorded);
    if n == 0 {
    } else {
      RestartsKeep(recorded, p, n - 1, i);
      var before := Restarts(recorded, p.spec.sequence, p.spec.targets, p.restarts, n - 1);
      var answer := AnswerAt(p.restarts, n - 1);
      RecordAllNext(recorded, before, recorded[n - 1], true, answer);
      if answer.Scaled? {
        RecordStep(RecordAll(recorded, before), Event(recorded[n - 1], true, answer.ready), recorded[i]);
      }
    }
  }

  /** The spec lists the target and some stage of the sequence names its identifier. */
  predicate StillNamed(spec: Spec, id: Id) {
    && (exists k | 0 <= k < |spec.targets| :: spec.targets[k].id == id)
    && exists s | 0 <= s < |spec.sequence| :: "ext:" + id.identifier in spec.sequence[s]
  }

  lemma NamedStill(spec: Spec, id: Id)
    ensures IsSequenced(spec.sequence, spec.targets, id) <==> StillNamed(spec, id)
  {
  }

  /** A pass starts again each recorded target its sequence no longer names, and that target stays on
      record exactly if the start did not take or was not seen ready. It leaves named ones alone. */
  lemma RestartsExactly(name: string, st: Status, p: Pass, i: nat)
    requires NoRepeats(st.stopped) && i < |st.stopped|
    ensures st.stopped[i] in Prepared(name, st, p).stopped <==>
            || StillNamed(p.spec, st.stopped[i].id)
            || !(i in p.restarts && p.restarts[i].Scaled? && p.restarts[i].ready)
    ensures (exists e :: e in RestartEvents(st, p) && e.target == st.stopped[i]) <==>
            !StillNamed(p.spec, st.stopped[i].id) && i in p.restarts && p.restarts[i].Scaled?
  {
    hide RecordAll, StillNamed, IsSequenced, LedgerNow;
    RestartsKeep(st.stopped, p, |st.stopped|, i);
    RestartCalled(st.stopped, p, |st.stopped|, i);
    NamedStill(p.spec, st.stopped[i].id);
  }

  lemma {:induction false} RestartCalled(recorded: seq<Target>, p: Pass, n: nat, i: nat)
    requires NoRepeats(recorded) && n <= |recorded| && i < |recorded|
    ensures (exists e ::
            e in Restarts(recorded, p.spec.sequence, p.spec.targets, p.restarts, n) && e.target == recorded[i]) <==>
            i < n && !IsSequenced(p.spec.sequence, p.spec.targets, recorded[i].id) && AnswerAt(p.restarts, i).Scaled?
    decreases n
  {
    hide IsSequenced;
    if n == 0 {
    } else {
      RestartCalled(recorded, p, n - 1, i);
      var before := Restarts(recorded, p.spec.sequence, p.spec.targets, p.restarts, n - 1);
      var all := Restarts(recorded, p.spec.sequence, p.spec.targets, p.restarts, n);
      assert forall e | e in before :: e in all;
      if i == n - 1 && i < n && !IsSequenced(p.spec.sequence, p.spec.targets, recorded[i].id)
        && AnswerAt(p.restarts, i).Scaled? {
        assert Event(recorded[i], true, AnswerAt(p.restarts, i).ready) in all;
      }
    }
  }

  /** A dry run, or a group waiting for its dependencies, leaves every cloud target its sequence names
      as recorded as it was. */
  lemma HeldBackKeepsTargets(name: string, st: Status, p: Pass, i: nat)
    requires NoRepeats(st.stopped) && !ActsOnStages(st, p) && i < |st.stopped|
    requires IsSequenced(p.spec.sequence, p.spec.targets, st.stopped[i].id)
    ensures st.stopped[i] in Reconciled(name, st, p).stopped
  {
    hide Reconciled, RecordAll, IsSequenced, Restarts;
    RecordOfPass(name, st, p);
    assert RestartEvents(st, p) + [] == RestartEvents(st, p);
    RestartsKeep(st.stopped, p, |st.stopped|, i);
  }
}
