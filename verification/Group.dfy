/** The reconciler itself: methods that update a group's status in place, loop by loop, proved to
    leave the status that `Passes` describes. */
module Group {
  import opened Common
  import opened CloudTargets
  import opened Release
  import opened ReplicaMap
  import opened Stages
  import opened Passes

  class ScalingGroup {
    const name: string
    var phase: Phase
    var currentStage: nat
    var lastAction: int
    var selected: seq<string>
    var managed: seq<string>
    var originals: Flat
    var stopped: seq<Target>
    var skipped: seq<string>
    var ready: seq<string>
    var namespacesReady: nat
    var namespacesTotal: nat
    var managedCount: nat

    function Value(): Status
      reads this
    {
      Status(phase, currentStage, lastAction, selected, managed, originals, stopped, skipped, ready,
             namespacesReady, namespacesTotal, managedCount)
    }

    constructor (name: string)
      ensures this.name == name && Value() == NEW_GROUP
    {
      this.name := name;
      phase, currentStage, lastAction := Unset, 0, 0;
      selected, managed, originals, stopped, skipped, ready := [], [], map[], [], [], [];
      namespacesReady, namespacesTotal, managedCount := 0, 0, 0;
    }

    /** One pass over the group, up to the status it writes. */
    method Reconcile(p: Pass)
      modifies this
      ensures Value() == Reconciled(name, old(Value()), p)
    {
      hide StagesFor, Members, Conflicting, AfterStages, Without, LedgerNow, RestartEvents, RecordAll, ManagedAfter;
      ghost var before := Value();
      Prepare(p);
      if p.spec.dryRun {
        phase, currentStage, skipped := DryRun, 0, [];
        return;
      }
      if p.active && p.blocked && phase != ScaledUp {
        if phase != WaitingForDependencies {
          phase, lastAction := WaitingForDependencies, Reading(p, 0);
        }
        return;
      }
      var stages := GetScalingStages(p.spec.sequence, MembersNow(p), Conflicting(MembersNow(p), p.owners, name),
        p.active);
      ScaleStages(p, stages, before);
    }

    /** Refreshes the selection, releases what left the group and lists what it manages now. */
    method Prepare(p: Pass)
      modifies this`selected, this`managed, this`originals, this`stopped
      ensures Value() == Prepared(name, old(Value()), p)
    {
      hide Released, Removed, ManagedAfter, Conflicting, Members, RecordAll, Restarts, Without;
      ghost var before := Value();
      var departed := SelectNamespaces(p);
      var members := MembersNow(p);
      var removed := RemovedNamespaces(managed, originals, members, departed);
      departed := departed + removed;
      ghost var l := LeavingNow(name, before, p);
      assert l == Leaving(name, managed, p.owners, departed, p.granted);
      var unreleased := ReleaseDeparted(p, departed, l);
      managed := ManagedNamespaces(members, Conflicting(members, p.owners, name), unreleased);
      ReleaseExternalTargets(p);
    }

    /** Refreshes the selection and returns the namespaces that left it. */
    method SelectNamespaces(p: Pass) returns (departed: seq<string>)
      modifies this`selected
      ensures departed == Without(Without(old(selected), SelectedNow(p)), p.spec.namespaces)
      ensures selected == SelectedNow(p)
    {
      var previous := selected;
      departed := [];
      if !p.spec.hasSelector && previous == [] { return; }
      selected := if p.spec.hasSelector then p.matches else [];
      var gone := Unskipped(previous, selected);
      departed := Unskipped(gone, p.spec.namespaces);
    }

    /** Restores or hands over the departed namespaces and forgets their counts; returns those to
        try again. */
    method ReleaseDeparted(p: Pass, departed: seq<string>, ghost l: Leaving) returns (unreleased: seq<string>)
      requires l == Leaving(name, managed, p.owners, departed, p.granted)
      modifies this`originals
      ensures Ledger(originals, unreleased) == Released(l, old(originals), |departed|)
    {
      hide Released, Forget, Originals;
      unreleased := [];
      ReleasedFrom(l, originals);
      for i := 0 to |departed|
        invariant Ledger(originals, unreleased) == Released(l, old(originals), i)
      {
        var ns := departed[i];
        ReleasedThen(l, old(originals), i, Ledger(originals, unreleased));
        if ns in p.owners && p.owners[ns] != name {
          var counts := NamespaceOriginals(originals, ns);
          if !(ns in managed || counts != map[]) { continue; }
        }
        if i in p.granted {
          originals := ForgetOriginals(originals, ns);
        } else {
          unreleased := unreleased + [ns];
        }
      }
    }

    /** Starts again the recorded cloud targets the sequence no longer names. */
    method ReleaseExternalTargets(p: Pass)
      modifies this`stopped
      ensures stopped == RecordAll(old(stopped),
              Restarts(old(stopped), p.spec.sequence, p.spec.targets, p.restarts, |old(stopped)|))
    {
      hide RecordAll, Record, IsSequenced;
      RecordAllNone(stopped);
      var recorded := stopped;
      for i := 0 to |recorded|
        invariant stopped == RecordAll(recorded, Restarts(recorded, p.spec.sequence, p.spec.targets, p.restarts, i))
      {
        if !IsSequenced(p.spec.sequence, p.spec.targets, recorded[i].id) {
          var answer := AnswerAt(p.restarts, i);
          RecordAllNext(recorded, Restarts(recorded, p.spec.sequence, p.spec.targets, p.restarts, i), recorded[i],
            true, answer);
          var _ := ScaleExternalTarget(recorded[i], true, answer);
        }
      }
    }

    /** Starts or stops a cloud target and keeps the record of stopped ones. */
    method ScaleExternalTarget(target: Target, active: bool, answer: Answer) returns (there: bool)
      modifies this`stopped
      ensures stopped == if answer.Scaled? then Record(old(stopped), Event(target, active, answer.ready))
              else old(stopped)
      ensures there == Arrived(answer)
    {
      if answer.NoProvider? || answer.ScaleFailed? { return false; }
      var i := 0;
      while i < |stopped| && stopped[i].id != target.id
        invariant i <= |stopped|
        invariant IndexOf(stopped, target.id) == i + IndexOf(stopped[i..], target.id)
      {
        i := i + 1;
      }
      if active && answer.ready && i < |stopped| {
        stopped := stopped[..i] + stopped[i + 1..];
      } else if !active && i < |stopped| {
        stopped := stopped[i := target];
      } else if !active {
        stopped := stopped + [target];
      }
      there := answer.ready && !answer.checkFailed;
    }

    /** Scales the j-th target of stage i and reports whether it is there. */
    method ReconcileTarget(p: Pass, i: nat, j: nat, target: string) returns (there: bool)
      modifies this`originals, this`stopped
      ensures there == IsReady(p, i, j, target)
      ensures originals == CountsAfter(p, i, j, target, old(originals))
      ensures stopped == RecordAll(old(stopped), TargetEvents(p, i, j, target))
    {
      if IsCloud(target) {
        var found := CloudTarget(p, target);
        if found.None? { return false; }
        RecordAllNext(stopped, [], found.value, p.active, CloudAt(p, i, j));
        assert [] + TargetEvents(p, i, j, target) == TargetEvents(p, i, j, target);
        there := ScaleExternalTarget(found.value, p.active, CloudAt(p, i, j));
      } else {
        var answer := EngineAt(p, i, j);
        if answer.EngineFailed? { return false; }
        originals := Merge(originals, target, answer.counts);
        there := answer.ready && answer.phase == Settled(p.active);
      }
    }

    /** Scales every target of a stage, ready or not. */
    method ScaleStage(p: Pass, i: nat, stage: seq<string>) returns (waiting: seq<string>, arrived: seq<string>)
      modifies this`originals, this`stopped
      ensures waiting == Seen(p, i, stage, |stage|, false) && arrived == Seen(p, i, stage, |stage|, true)
      ensures originals == CountsIn(p, i, stage, |stage|, old(originals))
      ensures stopped == RecordAll(old(stopped), EventsIn(p, i, stage, |stage|))
    {
      hide RecordAll, IsReady, CountsAfter, TargetEvents;
      RecordAllNone(stopped);
      waiting, arrived := [], [];
      for j := 0 to |stage|
        invariant waiting == Seen(p, i, stage, j, false) && arrived == Seen(p, i, stage, j, true)
        invariant originals == CountsIn(p, i, stage, j, old(originals))
        invariant stopped == RecordAll(old(stopped), EventsIn(p, i, stage, j))
      {
        RecordAllAppend(old(stopped), EventsIn(p, i, stage, j), TargetEvents(p, i, j, stage[j]));
        var there := ReconcileTarget(p, i, j, stage[j]);
        if there { arrived := arrived + [stage[j]]; } else { waiting := waiting + [stage[j]]; }
      }
    }

    /** Works through the stages, starting each once the one before is there or has timed out, and
        derives the phase. */
    method ScaleStages(p: Pass, stages: seq<seq<string>>, ghost st: Status)
      requires phase == st.phase && currentStage == st.currentStage && lastAction == st.lastAction
      modifies this
      ensures Value() == AfterStages(st, old(Value()), p, stages)
    {
      hide SeenIn, CountsOver, RecordAll, EventsOver, Holding, Total, Ran, FirstStage, FirstStarted, Reading;
      var allReady, passedTo, started, arrived, left, count := RunStages(p, stages, st);
      var total := TotalOf(stages);
      // Index and start time outlive the pass only while something is waited for.
      currentStage, skipped := 0, left;
      if !allReady { currentStage, lastAction := passedTo, started; }
      UpdateStatusAndPhase(p, allReady, count, arrived, total, |stages|);
    }

    method RunStages(p: Pass, stages: seq<seq<string>>, ghost st: Status)
      returns (allReady: bool, current: nat, started: int, arrived: seq<string>, left: seq<string>, count: nat)
      requires phase == st.phase && currentStage == st.currentStage && lastAction == st.lastAction
      modifies this`originals, this`stopped
      ensures var h, ran := Holding(st, p, stages), Ran(st, p, stages);
              && allReady == (SeenIn(p, stages, ran, false) == [])
              && current == (if h > FirstStage(st, p) then h else FirstStage(st, p))
              && started == (if h > FirstStage(st, p) then Reading(p, 2 * h) else FirstStarted(st, p))
              && arrived == SeenIn(p, stages, ran, true) && left == SeenIn(p, stages, h, false)
                && count == Total(stages, ran)
              && originals == CountsOver(p, stages, ran, old(originals))
              && stopped == RecordAll(old(stopped), EventsOver(p, stages, ran))
    {
      hide RecordAll, Seen, CountsIn, EventsIn, CountsOver, EventsOver, SeenIn, Total, Timeout;
      StagesNone(p, stages, originals, stopped);
      current, started := currentStage, lastAction;
      if phase != InProgress(p.active) { current, started := 0, Reading(p, 0); }
      allReady, arrived, left, count := true, [], [], 0;
      ghost var first := current;
      for i := 0 to |stages|
        invariant Holding(st, p, stages) == HoldingFrom(st, p, stages, i)
        invariant originals == CountsOver(p, stages, i, old(originals))
        invariant stopped == RecordAll(old(stopped), EventsOver(p, stages, i))
        invariant current == if i > first then i else first
        invariant started == if i > first then Reading(p, 2 * i) else FirstStarted(st, p)
        invariant left == SeenIn(p, stages, i, false) && arrived == SeenIn(p, stages, i, true)
        invariant allReady == (left == []) && count == Total(stages, i)
      {
        var passed := i < current;
        var timedOut := passed || (p.spec.skipOnTimeout && Reading(p, 2 * i + 1) - started > Timeout(p.spec));
        StagesNext(p, stages, i, old(originals), old(stopped));
        var waiting, there := ScaleStage(p, i, stages[i]);
        arrived, count := arrived + there, count + |stages[i]|;
        if waiting != [] {
          allReady := false;
          if !timedOut { return; }
          left := left + waiting;
        }
        if !passed { current, started := i + 1, Reading(p, 2 * i + 2); }
      }
    }

    method UpdateStatusAndPhase(p: Pass, allReady: bool, count: nat, arrived: seq<string>, total: nat, stages: nat)
      modifies this`managedCount, this`namespacesReady, this`namespacesTotal, this`ready, this`phase, this`lastAction
      ensures managedCount == count && ready == arrived && namespacesReady == |arrived| && namespacesTotal == total
      ensures phase == if allReady then Settled(p.active) else InProgress(p.active)
      ensures lastAction == if old(phase) != phase || old(lastAction) == 0 then Reading(p, 2 * stages + 1)
              else old(lastAction)
    {
      managedCount, namespacesReady, namespacesTotal, ready := count, |arrived|, total, arrived;
      var newPhase := ScalingUp;
      if allReady {
        newPhase := if p.active then ScaledUp else ScaledDown;
      } else if !p.active {
        newPhase := ScalingDown;
      }
      if phase != newPhase {
        phase, lastAction := newPhase, Reading(p, 2 * stages + 1);
      } else if lastAction == 0 {
        lastAction := Reading(p, 2 * stages + 1);
      }
    }
  }

  lemma StagesNone(p: Pass, stages: seq<seq<string>>, m: Flat, stopped: seq<Target>)
    ensures CountsOver(p, stages, 0, m) == m && RecordAll(stopped, EventsOver(p, stages, 0)) == stopped
    ensures SeenIn(p, stages, 0, true) == [] == SeenIn(p, stages, 0, false) && Total(stages, 0) == 0
  {
  }

  lemma StagesNext(p: Pass, stages: seq<seq<string>>, i: nat, m: Flat, stopped: seq<Target>)
    requires i < |stages|
    ensures CountsOver(p, stages, i + 1, m) == CountsIn(p, i, stages[i], |stages[i]|, CountsOver(p, stages, i, m))
    ensures RecordAll(stopped, EventsOver(p, stages, i + 1)) ==
            RecordAll(RecordAll(stopped, EventsOver(p, stages, i)), EventsIn(p, i, stages[i], |stages[i]|))
    ensures forall b :: SeenIn(p, stages, i + 1, b) == SeenIn(p, stages, i, b) + Seen(p, i, stages[i], |stages[i]|, b)
    ensures Total(stages, i + 1) == Total(stages, i) + |stages[i]|
  {
    hide RecordAll, Seen, EventsIn, CountsIn;
    RecordAllAppend(stopped, EventsOver(p, stages, i), EventsIn(p, i, stages[i], |stages[i]|));
  }

  method TotalOf(stages: seq<seq<string>>) returns (total: nat)
    ensures total == Total(stages, |stages|)
  {
    total := 0;
    for i := 0 to |stages|
      invariant total == Total(stages, i)
    {
      total := total + |stages[i]|;
    }
  }
}
