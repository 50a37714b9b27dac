/** Where a pass ends, in terms of what it was told and answered: when it is held back, which stages it
    acts on, and when it settles. */
module PassOutcomes {
  import opened Common
  import opened CloudTargets
  import opened Release
  import opened ReplicaMap
  import opened Stages
  import opened Passes
  import opened Barrier
  import opened Conservation
  import opened Bookkeeping

  // ---- held back or not

  /** A group that should come up, whose dependencies are not there and that is not up yet, waits for
      them. It scales nothing: every provider call of the pass starts a target its sequence no longer
      names, and its members keep their counts. */
  lemma BlockedPassWaits(name: string, st: Status, p: Pass, ns: string)
    requires p.active && p.blocked && !p.spec.dryRun && st.phase != ScaledUp
    ensures var r := Reconciled(name, st, p);
            && r.phase == WaitingForDependencies && r.currentStage == st.currentStage && r.skipped == st.skipped
            && r.lastAction == (if st.phase == WaitingForDependencies then st.lastAction else Reading(p, 0))
    ensures forall e | e in PassEvents(name, st, p) ::
              e.active && e.target in st.stopped && !IsSequenced(p.spec.sequence, p.spec.targets, e.target.id)
    ensures NamesClean(st, p) && SlashFree(ns) && ns in MembersNow(p) ==>
              Originals(Reconciled(name, st, p).originals, ns) == Originals(st.originals, ns)
  {
    OnlyRestarts(name, st, p);
    hide LedgerNow, RestartEvents, Originals, MembersNow, NamesClean, SlashFree;
    if NamesClean(st, p) && SlashFree(ns) && ns in MembersNow(p) { HeldBackKeepsCounts(name, st, p, ns); }
  }

  lemma OnlyRestarts(name: string, st: Status, p: Pass)
    requires !ActsOnStages(st, p)
    ensures forall e | e in PassEvents(name, st, p) ::
              e.active && e.target in st.stopped && !IsSequenced(p.spec.sequence, p.spec.targets, e.target.id)
  {
    hide IsSequenced, Restarts;
    RestartsFromRecord(st.stopped, p, |st.stopped|);
    assert RestartEvents(st, p) + [] == RestartEvents(st, p);
  }

  /** A dry run ends in DryRun, forgets stage state and scales as little. */
  lemma DryRunScalesNothing(name: string, st: Status, p: Pass, ns: string)
    requires p.spec.dryRun
    ensures var r := Reconciled(name, st, p);
            r.phase == DryRun && r.currentStage == 0 && r.skipped == [] && r.lastAction == st.lastAction
    ensures forall e | e in PassEvents(name, st, p) ::
              e.active && e.target in st.stopped && !IsSequenced(p.spec.sequence, p.spec.targets, e.target.id)
    ensures NamesClean(st, p) && SlashFree(ns) && ns in MembersNow(p) ==>
              Originals(Reconciled(name, st, p).originals, ns) == Originals(st.originals, ns)
  {
    OnlyRestarts(name, st, p);
    hide LedgerNow, RestartEvents, Originals, MembersNow, NamesClean, SlashFree;
    if NamesClean(st, p) && SlashFree(ns) && ns in MembersNow(p) { HeldBackKeepsCounts(name, st, p, ns); }
  }

  /** Every other pass moves the group towards the desired state: scaling down, and a group that is up,
      never wait for dependencies. */
  lemma FreePassMoves(name: string, st: Status, p: Pass)
    requires !p.spec.dryRun && (!p.active || !p.blocked || st.phase == ScaledUp)
    ensures ActsOnStages(st, p)
    ensures Reconciled(name, st, p).phase in if p.active then {ScalingUp, ScaledUp} else {ScalingDown, ScaledDown}
  {
    hide StagesNow, CountsOver, EventsOver, SeenIn, Holding, LedgerNow, RestartEvents;
  }

  /** Over any run, a group that is not up starts coming up only in a pass that wants it up, whose
      dependencies are there and that is no dry run. */
  lemma UpOnlyWhenFree(name: string, states: seq<Status>, passes: seq<Pass>, k: nat)
    requires Run(name, states, passes) && k < |passes| && passes[k].stored
    requires states[k].phase != ScaledUp && states[k + 1].phase in {ScalingUp, ScaledUp}
    ensures passes[k].active && !passes[k].blocked && !passes[k].spec.dryRun
  {
    hide Reconciled;
    var st, p := states[k], passes[k];
    if p.spec.dryRun {
      DryRunScalesNothing(name, st, p, "");
    } else if p.active && p.blocked {
      BlockedPassWaits(name, st, p, "");
    } else {
      FreePassMoves(name, st, p);
    }
  }

  // ---- settled or not

  /** What a target must have answered in this pass to count as being there: a namespace, an engine
      that has its workloads there and computes the settled phase; a cloud target named in the spec, a
      call that took and a readiness check that said yes. */
  predicate There(p: Pass, i: nat, j: nat, target: string) {
    if "ext:" <= target then
      && FirstNamed(p.spec.targets, target[4..]).Some?
      && (i, j) in p.cloud && p.cloud[(i, j)] == Scaled(true, false)
    else
      && (i, j) in p.engine && p.engine[(i, j)].EngineScaled? && p.engine[(i, j)].ready
      && p.engine[(i, j)].phase == (if p.active then ScaledUp else ScaledDown)
  }

  ghost predicate AllThere(p: Pass, i: nat, stage: seq<string>) {
    forall j | 0 <= j < |stage| :: There(p, i, j, stage[j])
  }

  lemma ThereIsReady(p: Pass, i: nat, j: nat, target: string)
    ensures There(p, i, j, target) <==> IsReady(p, i, j, target)
  {
  }

  lemma {:induction false} SeenAll(p: Pass, i: nat, stage: seq<string>, n: nat)
    requires n <= |stage|
    ensures Seen(p, i, stage, n, false) == [] <==> forall j | 0 <= j < n :: There(p, i, j, stage[j])
    decreases n
  {
    hide There, IsReady;
    if n == 0 {
    } else {
      SeenAll(p, i, stage, n - 1);
      ThereIsReady(p, i, n - 1, stage[n - 1]);
    }
  }

  /** A pass acts on a stage if and only if each stage before it was left behind earlier in the
      transition, is there now, or has used up its minutes under skipOnTimeout, counted from when the
      transition's clock or this pass made it the current one. */
  lemma ActedOnIff(name: string, st: Status, p: Pass, i: nat)
    requires !p.spec.dryRun && (!p.active || !p.blocked || st.phase == ScaledUp) && i < |StagesNow(name, p)|
    ensures var stages := StagesNow(name, p);
            var resumes := st.phase == if p.active then ScalingUp else ScalingDown;
            var current := if resumes then st.currentStage else 0;
            i < Ran(st, p, stages) <==> forall j | 0 <= j < i ::
              || j < current
              || AllThere(p, j, stages[j])
              || (p.spec.skipOnTimeout && OverdueAt(p, j, current, if resumes then st.lastAction else Reading(p, 0)))
  {
    hide StagesNow, There, Reading, IsReady, Seen;
    var stages := StagesNow(name, p);
    var since := if st.phase == (if p.active then ScalingUp else ScalingDown) then st.lastAction else Reading(p, 0);
    forall j | 0 <= j < |stages|
      ensures HoldsBack(st, p, stages, j) <==>
              !(j < FirstStage(st, p) || AllThere(p, j, stages[j])
                || (p.spec.skipOnTimeout && OverdueAt(p, j, FirstStage(st, p), since)))
    {
      SeenAll(p, j, stages[j], |stages[j]|);
    }
  }

  /** Stage j has taken more than the minutes of the spec, or five where it sets none. The current
      stage's clock started at `since`. */
  predicate OverdueAt(p: Pass, j: nat, current: nat, since: int) {
    var minutes := if p.spec.timeoutMinutes > 0 then p.spec.timeoutMinutes else 5;
    Reading(p, 2 * j + 1) - (if j <= current then since else Reading(p, 2 * j)) > minutes * 60 * SECOND
  }

  /** A pass ends up or down if and only if every target of every stage is there. */
  lemma SettledIff(name: string, st: Status, p: Pass)
    requires !p.spec.dryRun && (!p.active || !p.blocked || st.phase == ScaledUp)
    ensures var stages := StagesNow(name, p);
            Reconciled(name, st, p).phase == (if p.active then ScaledUp else ScaledDown) <==>
              forall i | 0 <= i < |stages| :: AllThere(p, i, stages[i])
  {
    hide Reconciled, StagesNow, There, IsReady, Seen;
    var stages := StagesNow(name, p);
    FreePassMoves(name, st, p);
    Settling(name, st, p);
    forall i | 0 <= i < |stages| ensures Waiting(p, stages, i) == [] <==> AllThere(p, i, stages[i]) {
      SeenAll(p, i, stages[i], |stages[i]|);
    }
    if forall i | 0 <= i < |stages| :: AllThere(p, i, stages[i]) {
      NothingSeen(p, stages, Ran(st, p, stages));
    } else {
      SeenInTotals(p, stages, |stages|);
    }
  }

  lemma {:induction false} NothingSeen(p: Pass, stages: seq<seq<string>>, k: nat)
    requires k <= |stages| && forall i | 0 <= i < k :: Waiting(p, stages, i) == []
    ensures SeenIn(p, stages, k, false) == []
    decreases k
  {
    hide Seen;
    if k == 0 {
    } else {
      NothingSeen(p, stages, k - 1);
      assert Waiting(p, stages, k - 1) == [];
    }
  }

  // ---- since when a group is settled

  /** The pass that settles a group stamps the time it ended; one that finds it settled keeps the time. */
  lemma SettledSince(name: string, st: Status, p: Pass)
    requires !p.spec.dryRun && (!p.active || !p.blocked || st.phase == ScaledUp)
    requires Reconciled(name, st, p).phase == if p.active then ScaledUp else ScaledDown
    ensures Reconciled(name, st, p).lastAction ==
            if st.phase == (if p.active then ScaledUp else ScaledDown) && st.lastAction != 0 then st.lastAction
            else Reading(p, 2 * |StagesNow(name, p)| + 1)
  {
    hide StagesNow, CountsOver, EventsOver, SeenIn, Holding, LedgerNow, RestartEvents, Reading;
  }

  /** While a group stays up, or stays down, its stored time stays the one it settled at, so that its
      status can stay as it is between passes. */
  lemma {:induction false} SettledTimeKept(name: string, states: seq<Status>, passes: seq<Pass>, k: nat, m: nat,
      up: bool)
    requires Run(name, states, passes) && k <= m <= |passes|
    requires forall i | k <= i <= m :: states[i].phase == if up then ScaledUp else ScaledDown
    requires states[k].lastAction != 0 && states[k].lastAction % SECOND == 0
    ensures states[m].lastAction == states[k].lastAction
    decreases m
  {
    hide Reconciled;
    if k == m {
    } else {
      SettledTimeKept(name, states, passes, k, m - 1, up);
      var st, p := states[m - 1], passes[m - 1];
      assert states[m - 1 + 1] == Stored(name, st, p);
      if p.stored {
        if p.spec.dryRun {
          DryRunScalesNothing(name, st, p, "");
        } else if p.active && p.blocked && st.phase != ScaledUp {
          BlockedPassWaits(name, st, p, "");
        } else {
          FreePassMoves(name, st, p);
          SettledSince(name, st, p);
        }
      }
    }
  }

  /** Whatever else it does, a pass remembers what the selector matches now, and nothing without one. */
  lemma SelectionRemembered(name: string, st: Status, p: Pass)
    ensures Reconciled(name, st, p).selected == if p.spec.hasSelector then p.matches else []
  {
    hide SelectedNow;
    SelectedNext(name, st, p);
    SelectedMeans(p);
  }

  lemma SelectedMeans(p: Pass)
    ensures SelectedNow(p) == if p.spec.hasSelector then p.matches else []
  {
  }

  // ---- what the stages of a pass are

  /** Who may be scaled: a member that no other group owns. */
  predicate OwnMember(name: string, p: Pass, ns: string) {
    ns in MembersNow(p) && !(ns in p.owners && p.owners[ns] != name)
  }

  /** The stages of a pass hold every member no other group owns, and no other namespace. */
  lemma OwnMembersStaged(name: string, p: Pass, ns: string)
    requires !IsCloud(ns)
    ensures Staged(StagesNow(name, p), ns) <==> OwnMember(name, p, ns)
  {
    hide StagesFor, MembersNow, IsCloud, Staged;
    AscendingDistinct(MembersNow(p));
    StageConstruction(MembersNow(p), p.spec.sequence, Skipped(name, p), p.active, ns);
  }

  /** A pass scales up in the order of the sequence, and down against it. */
  lemma PassFollowsSequence(name: string, p: Pass, i: nat, j: nat, t: string, u: string)
    requires i < j < |p.spec.sequence| && t in p.spec.sequence[i] && u in p.spec.sequence[j]
    requires (IsCloud(t) || OwnMember(name, p, t)) && (IsCloud(u) || OwnMember(name, p, u))
    ensures if p.active then Before(StagesNow(name, p), t, u) else Before(StagesNow(name, p), u, t)
  {
    hide StagesFor, MembersNow, IsCloud;
    var managed := Without(MembersNow(p), Skipped(name, p));
    var a, b := StagesFollowSequence(p.spec.sequence, managed, i, j, t, u);
    assert Before(StagesFor(p.spec.sequence, managed, true), t, u);
    ScaleDownReversesScaleUp(p.spec.sequence, managed, t, u);
  }
}
