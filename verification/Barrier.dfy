/** What every run of passes keeps about the order of the stages, their timeouts and the phase. */
module Barrier {
  import opened Common
  import opened Stages
  import opened Passes

  // ---- runs

  ghost predicate Chain(name: string, states: seq<Status>, passes: seq<Pass>) {
    && |states| == |passes| + 1
    && forall k | 0 <= k < |passes| :: states[k + 1] == Stored(name, states[k], passes[k])
  }

  /** Any run of passes from a group that was never reconciled. */
  ghost predicate Run(name: string, states: seq<Status>, passes: seq<Pass>) {
    Chain(name, states, passes) && states[0] == NEW_GROUP
  }

  /** Clock readings of a pass do not go back, and lie after Go's zero time. */
  ghost predicate Timely(p: Pass) {
    Reading(p, 0) >= SECOND && forall i: nat, j: nat | i <= j :: Reading(p, i) <= Reading(p, j)
  }

  // ---- what one pass stores

  /** The parts of the next status that order and timeouts depend on. */
  lemma NextMark(name: string, st: Status, p: Pass)
    requires p.stored && ActsOnStages(st, p)
    ensures var next, stages := Stored(name, st, p), StagesNow(name, p);
            var first, h := FirstStage(st, p), Holding(st, p, stages);
            && next.phase in {Settled(p.active), InProgress(p.active)}
            && (next.phase == InProgress(p.active) ==>
                  && next.currentStage == (if h > first then h else first)
                  && var kept := if h > first then Reading(p, 2 * h) else FirstStarted(st, p);
                     var read := if !Resumes(st, p) || kept == 0 then Reading(p, 2 * |stages| + 1) else kept;
                     next.lastAction == Floor(read))
  {
    hide StagesNow, SeenIn, CountsOver, EventsOver, Holding, LedgerNow, RestartEvents;
  }

  lemma NextElsewhere(name: string, st: Status, p: Pass)
    requires p.stored && !ActsOnStages(st, p)
    ensures Stored(name, st, p).phase in {DryRun, WaitingForDependencies}
  {
    hide LedgerNow, RestartEvents;
  }

  lemma {:induction false} SeenTotals(p: Pass, i: nat, stage: seq<string>, n: nat)
    requires n <= |stage|
    ensures |Seen(p, i, stage, n, true)| + |Seen(p, i, stage, n, false)| == n
    decreases n
  {
    hide IsReady;
    if n == 0 {
    } else {
      SeenTotals(p, i, stage, n - 1);
    }
  }

  lemma {:induction false} SeenInTotals(p: Pass, stages: seq<seq<string>>, k: nat)
    requires k <= |stages|
    ensures |SeenIn(p, stages, k, true)| + |SeenIn(p, stages, k, false)| == Total(stages, k) <= Total(stages, |stages|)
    ensures forall i | 0 <= i < k :: |Waiting(p, stages, i)| <= |SeenIn(p, stages, k, false)|
    decreases k
  {
    hide Seen;
    TotalGrows(stages, k);
    if k == 0 {
    } else {
      SeenInTotals(p, stages, k - 1);
      SeenTotals(p, k - 1, stages[k - 1], |stages[k - 1]|);
    }
  }

  lemma {:induction false} TotalGrows(stages: seq<seq<string>>, k: nat)
    requires k <= |stages|
    ensures Total(stages, k) <= Total(stages, |stages|)
    decreases |stages| - k
  {
    if k == |stages| {
    } else {
      TotalGrows(stages, k + 1);
    }
  }

  /** Some target of the first k stages is t and is as ready as asked. */
  ghost predicate Met(p: Pass, stages: seq<seq<string>>, k: nat, ready: bool, t: string)
    requires k <= |stages|
  {
    exists i, j | 0 <= i < k && 0 <= j < |stages[i]| :: stages[i][j] == t && IsReady(p, i, j, t) == ready
  }

  lemma {:induction false} SeenExactly(p: Pass, i: nat, stage: seq<string>, n: nat, ready: bool, t: string)
    requires n <= |stage|
    ensures t in Seen(p, i, stage, n, ready) <==> exists j | 0 <= j < n :: stage[j] == t && IsReady(p, i, j, t) == ready
    decreases n
  {
    hide IsReady;
    if n == 0 {
    } else {
      SeenExactly(p, i, stage, n - 1, ready, t);
    }
  }

  lemma {:induction false} SeenInExactly(p: Pass, stages: seq<seq<string>>, k: nat, ready: bool, t: string)
    requires k <= |stages|
    ensures t in SeenIn(p, stages, k, ready) <==> Met(p, stages, k, ready, t)
    decreases k
  {
    hide Seen, IsReady;
    if k == 0 {
    } else {
      SeenInExactly(p, stages, k - 1, ready, t);
      SeenExactly(p, k - 1, stages[k - 1], |stages[k - 1]|, ready, t);
    }
  }

  /** The status lists exactly the targets seen ready, and as skipped exactly those not ready in a
      stage the pass went past. */
  lemma ListsAreExact(name: string, st: Status, p: Pass, t: string)
    requires ActsOnStages(st, p)
    ensures var r, stages := Reconciled(name, st, p), StagesNow(name, p);
            && (t in r.ready <==> Met(p, stages, Ran(st, p, stages), true, t))
            && (t in r.skipped <==> Met(p, stages, Holding(st, p, stages), false, t))
  {
    hide StagesNow, SeenIn, Total, CountsOver, EventsOver, LedgerNow, RestartEvents, Holding, Met;
    var stages := StagesNow(name, p);
    SeenInExactly(p, stages, Ran(st, p, stages), true, t);
    SeenInExactly(p, stages, Holding(st, p, stages), false, t);
  }

  /** A pass ends settled exactly when the ready count equals the total over all stages. It has then
      run every stage and keeps no skipped namespace and no stage index. In every pass the targets
      acted on are the ready ones and the ones waited for. */
  lemma Settling(name: string, st: Status, p: Pass)
    requires ActsOnStages(st, p)
    ensures var r, stages := Reconciled(name, st, p), StagesNow(name, p);
            var ran := Ran(st, p, stages);
            && (r.phase == Settled(p.active) <==> r.namespacesReady == r.namespacesTotal)
            && (r.phase == Settled(p.active) <==> SeenIn(p, stages, ran, false) == [])
            && (r.phase != Settled(p.active) ==> r.phase == InProgress(p.active))
            && (r.phase == Settled(p.active) ==> ran == |stages| && r.skipped == [] && r.currentStage == 0)
            && r.managedCount == r.namespacesReady + |SeenIn(p, stages, ran, false)|
            && r.namespacesTotal == Total(stages, |stages|) && r.namespacesReady == |r.ready|
  {
    hide StagesNow, SeenIn, Total, CountsOver, EventsOver, LedgerNow, RestartEvents, Holding, Waiting;
    var stages := StagesNow(name, p);
    SeenInTotals(p, stages, Ran(st, p, stages));
  }

  // ---- the barrier

  /** This pass, waiting for no later stage, found stage j fully ready, or gave up on it under
      skipOnTimeout. */
  ghost predicate LeftBehind(name: string, st: Status, p: Pass, j: nat) {
    && ActsOnStages(st, p)
    && FirstStage(st, p) <= j < Ran(st, p, StagesNow(name, p))
    && (Waiting(p, StagesNow(name, p), j) == [] || GivenUp(st, p, j))
  }

  /** The pass that began the transition the k-th status is in the middle of. */
  ghost function Begun(states: seq<Status>, passes: seq<Pass>, k: nat): (b: nat)
    requires k <= |passes| && |states| == |passes| + 1
    ensures b <= k
    decreases k
  {
    if k == 0 then 0
    else if !passes[k - 1].stored
      || (ActsOnStages(states[k - 1], passes[k - 1]) && Resumes(states[k - 1], passes[k - 1]))
    then Begun(states, passes, k - 1)
    else k - 1
  }

  /** The first pass of the transition pass k belongs to. */
  ghost function TransitionStart(states: seq<Status>, passes: seq<Pass>, k: nat): nat
    requires k < |passes| && |states| == |passes| + 1
  {
    if Resumes(states[k], passes[k]) then Begun(states, passes, k) else k
  }

  lemma Unstored(name: string, states: seq<Status>, passes: seq<Pass>, k: nat)
    requires Chain(name, states, passes) && 0 < k <= |passes| && !passes[k - 1].stored
    ensures states[k] == states[k - 1]
  {
    hide Reconciled;
    assert states[k - 1 + 1] == Stored(name, states[k - 1], passes[k - 1]);
  }

  /** A stored stage index was earned: each stage below it was left behind by a stored pass of the
      same transition. */
  lemma {:induction false} WhoLeft(name: string, states: seq<Status>, passes: seq<Pass>, k: nat, active: bool, j: nat)
      returns (q: nat)
    requires Run(name, states, passes) && k <= |passes|
    requires states[k].phase == InProgress(active) && j < states[k].currentStage
    ensures Begun(states, passes, k) <= q < k && passes[q].stored && passes[q].active == active
    ensures LeftBehind(name, states[q], passes[q], j)
    decreases k
  {
    hide Stored, StagesNow, Holding, GivenUp, Waiting;
    assert k > 0;
    var st, p := states[k - 1], passes[k - 1];
    assert states[k - 1 + 1] == Stored(name, st, p);
    if !p.stored {
      Unstored(name, states, passes, k);
      q := WhoLeft(name, states, passes, k - 1, active, j);
    } else {
      if !ActsOnStages(st, p) { NextElsewhere(name, st, p); }
      NextMark(name, st, p);
      if j < FirstStage(st, p) {
        q := WhoLeft(name, states, passes, k - 1, active, j);
      } else {
        q := k - 1;
        assert !HoldsBack(st, p, StagesNow(name, p), j);
      }
    }
  }

  /** The stage barrier, over any run of any passes: a pass acts on stage i only if every earlier
      stage was fully ready, or given up on under skipOnTimeout, in some pass of the same transition
      and direction up to this one. */
  lemma StageBarrier(name: string, states: seq<Status>, passes: seq<Pass>, k: nat, i: nat, j: nat) returns (q: nat)
    requires Run(name, states, passes) && k < |passes| && ActsOnStages(states[k], passes[k])
    requires j < i < Ran(states[k], passes[k], StagesNow(name, passes[k]))
    ensures TransitionStart(states, passes, k) <= q <= k && (q == k || passes[q].stored)
            && passes[q].active == passes[k].active
    ensures LeftBehind(name, states[q], passes[q], j)
  {
    hide Stored, StagesNow, GivenUp, Waiting;
    var st, p := states[k], passes[k];
    if j < FirstStage(st, p) {
      q := WhoLeft(name, states, passes, k, p.active, j);
    } else {
      q := k;
      assert !HoldsBack(st, p, StagesNow(name, p), j);
    }
  }

  lemma StageIndexStep(name: string, st: Status, p: Pass)
    requires Resumes(st, p) && ActsOnStages(st, p)
    ensures Stored(name, st, p).phase == InProgress(p.active) ==> Stored(name, st, p).currentStage >= st.currentStage
  {
    hide Reconciled;
    if p.stored { NextMark(name, st, p); }
  }

  /** Over any run, from one status of a transition to any later one of the same transition, the phase
      stays and the stored index does not go back. */
  lemma {:induction false} StageIndexMonotone(name: string, states: seq<Status>, passes: seq<Pass>, k: nat, m: nat,
      active: bool)
    requires Run(name, states, passes) && k <= m <= |passes| && Begun(states, passes, m) < k
    requires states[m].phase == InProgress(active)
    ensures states[k].phase == InProgress(active) && states[k].currentStage <= states[m].currentStage
    decreases m
  {
    hide Stored, Reconciled;
    if k == m {
    } else {
      var st, p := states[m - 1], passes[m - 1];
      assert states[m - 1 + 1] == Stored(name, st, p);
      if !p.stored {
        Unstored(name, states, passes, m);
      } else {
        NextMark(name, st, p);
        StageIndexStep(name, st, p);
      }
      StageIndexMonotone(name, states, passes, k, m - 1, active);
    }
  }

  /** It stays at most the number of stages as long as the transition's passes build equally many. */
  lemma StageIndexBounded(name: string, states: seq<Status>, passes: seq<Pass>, k: nat, active: bool, n: nat)
    requires Run(name, states, passes) && k <= |passes| && states[k].phase == InProgress(active)
    requires forall q | Begun(states, passes, k) <= q < k && passes[q].stored :: |StagesNow(name, passes[q])| == n
    ensures states[k].currentStage <= n
  {
    hide Stored, StagesNow;
    if states[k].currentStage > 0 {
      var q := WhoLeft(name, states, passes, k, active, states[k].currentStage - 1);
    }
  }

  lemma {:induction false} SeenNone(p: Pass, i: nat, stage: seq<string>, n: nat, j: nat)
    requires j < n <= |stage| && Seen(p, i, stage, n, false) == []
    ensures IsReady(p, i, j, stage[j])
    decreases n
  {
    hide IsReady;
    if j == n - 1 {
    } else {
      SeenNone(p, i, stage, n - 1, j);
    }
  }

  /** The barrier in terms of targets, for a transition whose stored passes build the same stages: before
      a target of stage i is acted on, each target of an earlier stage was seen ready, or its stage was
      given up on. */
  lemma TargetBarrier(name: string, states: seq<Status>, passes: seq<Pass>, k: nat, i: nat, j: nat, n: nat)
      returns (q: nat)
    requires Run(name, states, passes) && k < |passes| && ActsOnStages(states[k], passes[k])
    requires j < i < Ran(states[k], passes[k], StagesNow(name, passes[k])) && n < |StagesNow(name, passes[k])[j]|
    requires forall m | TransitionStart(states, passes, k) <= m < k && passes[m].stored ::
             StagesNow(name, passes[m]) == StagesNow(name, passes[k])
    ensures TransitionStart(states, passes, k) <= q <= k && (q == k || passes[q].stored)
            && passes[q].active == passes[k].active
    ensures ActsOnStages(states[q], passes[q])
    ensures FirstStage(states[q], passes[q]) <= j < Ran(states[q], passes[q], StagesNow(name, passes[q]))
    ensures IsReady(passes[q], j, n, StagesNow(name, passes[k])[j][n]) || GivenUp(states[q], passes[q], j)
  {
    hide StagesNow, GivenUp, TransitionStart, Seen, IsReady;
    q := StageBarrier(name, states, passes, k, i, j);
    var stage := StagesNow(name, passes[k])[j];
    if !GivenUp(states[q], passes[q], j) { SeenNone(passes[q], j, stage, |stage|, n); }
  }

  /** The index is positional. Without timeouts, a pass that gets as far as an unready stage goes past it
      if and only if the stage lies below the stored index, whatever that index was earned with. */
  lemma PassedOverIff(name: string, st: Status, p: Pass, j: nat)
    requires ActsOnStages(st, p) && !p.spec.skipOnTimeout
    requires j < |StagesNow(name, p)| && j <= Holding(st, p, StagesNow(name, p))
             && Waiting(p, StagesNow(name, p), j) != []
    ensures j < Holding(st, p, StagesNow(name, p)) <==> Resumes(st, p) && j < st.currentStage
  {
    hide StagesNow, Waiting, Holding;
    assert HoldsBack(st, p, StagesNow(name, p), j) <==> j >= FirstStage(st, p);
  }

  // ---- timeouts

  /** In this pass, at instant t, stage j became the one being waited on. */
  ghost predicate BecameCurrent(name: string, st: Status, p: Pass, j: nat, t: int) {
    && ActsOnStages(st, p)
    && ( || (j == 0 && !Resumes(st, p) && t == Reading(p, 0))
         || (FirstStage(st, p) < j <= Holding(st, p, StagesNow(name, p)) && t == Reading(p, 2 * j)))
  }

  /** The stored time of a running transition is at most a second before the moment its current
      stage became current. */
  lemma {:induction false} SinceWhen(name: string, states: seq<Status>, passes: seq<Pass>, k: nat, active: bool)
      returns (q: nat, t: int)
    requires Run(name, states, passes) && k <= |passes| && states[k].phase == InProgress(active)
    requires forall q | 0 <= q < |passes| :: Timely(passes[q])
    ensures Begun(states, passes, k) <= q < k && passes[q].stored && passes[q].active == active
    ensures BecameCurrent(name, states[q], passes[q], states[k].currentStage, t)
    ensures states[k].lastAction > t - SECOND && states[k].lastAction >= SECOND && states[k].lastAction % SECOND == 0
    decreases k
  {
    hide Stored, StagesNow, Holding, Reading, Floor;
    assert k > 0;
    var st, p := states[k - 1], passes[k - 1];
    assert states[k - 1 + 1] == Stored(name, st, p);
    if !p.stored {
      Unstored(name, states, passes, k);
      q, t := SinceWhen(name, states, passes, k - 1, active);
    } else {
      if !ActsOnStages(st, p) { NextElsewhere(name, st, p); }
      NextMark(name, st, p);
      var first, h := FirstStage(st, p), Holding(st, p, StagesNow(name, p));
      assert Timely(p);
      if h > first || !Resumes(st, p) {
        q, t := k - 1, if h > first then Reading(p, 2 * h) else Reading(p, 0);
        var end := Reading(p, 2 * |StagesNow(name, p)| + 1);
        assert SECOND <= Reading(p, 0) <= t <= end;
        FloorKeepsWholeBound(t, SECOND);
        FloorKeepsWholeBound(end, SECOND);
      } else {
        q, t := SinceWhen(name, states, passes, k - 1, active);
      }
    }
  }

  /** A stage is given up on only more than its full timeout after it became the current one, up to
      the second the stored time may have lost. */
  lemma GivenUpOnlyAfterTimeout(name: string, states: seq<Status>, passes: seq<Pass>, k: nat, j: nat)
      returns (q: nat, t: int)
    requires Run(name, states, passes) && k < |passes| && forall q | 0 <= q < |passes| :: Timely(passes[q])
    requires ActsOnStages(states[k], passes[k]) && GivenUp(states[k], passes[k], j)
    requires FirstStage(states[k], passes[k]) <= j < Ran(states[k], passes[k], StagesNow(name, passes[k]))
    ensures TransitionStart(states, passes, k) <= q <= k && passes[q].active == passes[k].active
    ensures BecameCurrent(name, states[q], passes[q], j, t)
    ensures var minutes := if passes[k].spec.timeoutMinutes > 0 then passes[k].spec.timeoutMinutes else 5;
            Reading(passes[k], 2 * j + 1) - t > minutes * 60 * SECOND - SECOND
  {
    hide Stored, StagesNow, Holding, Reading, Waiting;
    var st, p := states[k], passes[k];
    if j > FirstStage(st, p) {
      q, t := k, Reading(p, 2 * j);
    } else if Resumes(st, p) {
      q, t := SinceWhen(name, states, passes, k, p.active);
    } else {
      q, t := k, Reading(p, 0);
    }
  }

  /** Stored passes towards one state under skipOnTimeout, each over n stages and more than the
      timeout after the one before. */
  ghost predicate Spaced(name: string, states: seq<Status>, passes: seq<Pass>, active: bool, n: nat)
    requires |states| == |passes| + 1
  {
    && (forall k | 0 <= k < |passes| ::
          && passes[k].stored && passes[k].active == active && passes[k].spec.skipOnTimeout
          && ActsOnStages(states[k], passes[k])
          && |StagesNow(name, passes[k])| == n && Timely(passes[k]))
    && forall k | 0 <= k < |passes| - 1 ::
         var minutes := if passes[k + 1].spec.timeoutMinutes > 0 then passes[k + 1].spec.timeoutMinutes else 5;
         Reading(passes[k + 1], 0) - Reading(passes[k], 2 * n + 1) > minutes * 60 * SECOND
  }

  lemma OneStageFurther(name: string, st: Status, p: Pass, n: nat)
    requires p.stored && ActsOnStages(st, p) && p.spec.skipOnTimeout && |StagesNow(name, p)| == n && Timely(p)
    requires Resumes(st, p) ==>
             && st.currentStage <= n && SECOND <= st.lastAction
             && Reading(p, 0) - st.lastAction > Timeout(p.spec)
    ensures var next := Stored(name, st, p);
            next.phase == InProgress(p.active) ==>
              && SECOND <= next.lastAction <= Reading(p, 2 * n + 1) && next.currentStage <= n
              && (Resumes(st, p) && st.currentStage < n ==> next.currentStage > st.currentStage)
              && (Resumes(st, p) ==> next.currentStage >= st.currentStage)
  {
    hide Stored, StagesNow, Holding, Reading, Waiting;
    NextMark(name, st, p);
    var stages, first := StagesNow(name, p), FirstStage(st, p);
    var h := Holding(st, p, stages);
    if Resumes(st, p) && first < n {
      assert Reading(p, 0) <= Reading(p, 2 * first + 1);
      assert GivenUp(st, p, first);
      assert forall j | 0 <= j <= first :: !HoldsBack(st, p, stages, j);
    }
    assert SECOND <= Reading(p, 0) <= Reading(p, 2 * h) <= Reading(p, 2 * n + 1);
    FloorKeepsWholeBound(Reading(p, 2 * h), SECOND);
    FloorKeepsWholeBound(Reading(p, 2 * n + 1), SECOND);
    FloorKeepsWholeBound(st.lastAction, if Resumes(st, p) then SECOND else Floor(st.lastAction));
  }

  lemma {:induction false} StagesPassed(name: string, states: seq<Status>, passes: seq<Pass>, active: bool, n: nat,
      m: nat)
    requires Chain(name, states, passes) && Spaced(name, states, passes, active, n)
    requires m < |passes| && states[0].phase != InProgress(active)
    requires forall k | 0 < k <= m + 1 :: states[k].phase != Settled(active)
    ensures var s := states[m + 1];
            s.phase == InProgress(active) && SECOND <= s.lastAction <= Reading(passes[m], 2 * n + 1)
            && (if m < n then m else n) <= s.currentStage <= n
    decreases m
  {
    hide Stored, StagesNow, Reading, Timely;
    var st, p := states[m], passes[m];
    assert states[m + 1] == Stored(name, st, p);
    if m == 0 {
    } else {
      StagesPassed(name, states, passes, active, n, m - 1);
      var before := passes[m - 1];
      assert Reading(passes[m - 1 + 1], 0) - Reading(before, 2 * n + 1) > Timeout(p.spec);
    }
    OneStageFurther(name, st, p, n);
    NextMark(name, st, p);
  }

  /** With skipOnTimeout, one pass more than there are stages, each more than the timeout after the
      one before, settles the group or passes every stage. */
  lemma EveryStageIsPassed(name: string, states: seq<Status>, passes: seq<Pass>, active: bool, n: nat)
    requires Chain(name, states, passes) && Spaced(name, states, passes, active, n) && |passes| == n + 1
    requires states[0].phase != InProgress(active)
    ensures (exists k | 0 < k <= n + 1 :: states[k].phase == Settled(active)) || states[n + 1].currentStage == n
  {
    hide Stored, StagesNow, Reading;
    if forall k | 0 < k <= n + 1 :: states[k].phase != Settled(active) {
      StagesPassed(name, states, passes, active, n, n);
    }
  }
}
