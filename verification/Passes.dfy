/** One reconcile pass of a scaling group, as a function of the stored status and of everything
    the pass is told: the spec, the plan, the clock and the answers of the cluster and the cloud. */
module Passes {
  import opened Common
  import opened CloudTargets
  import opened Release
  import opened ReplicaMap
  import opened Stages

  datatype Phase = Unset | ScalingUp | ScaledUp | ScalingDown | ScaledDown | WaitingForDependencies | DryRun

  datatype Spec = Spec(namespaces: seq<string>, hasSelector: bool, sequence: seq<seq<string>>, targets: seq<Target>,
                       skipOnTimeout: bool, timeoutMinutes: int, dryRun: bool)

  datatype Status = Status(phase: Phase, currentStage: nat, lastAction: int, selected: seq<string>,
      managed: seq<string>,
                           originals: Flat, stopped: seq<Target>, skipped: seq<string>, ready: seq<string>,
                           namespacesReady: nat, namespacesTotal: nat, managedCount: nat)

  /** A group that has never been reconciled. Time zero is Go's zero time. */
  const NEW_GROUP := Status(Unset, 0, 0, [], [], map[], [], [], [], 0, 0, 0)

  /** What the engine answers when asked to scale a namespace: an error, or the replica counts to
      keep, whether the workloads are there, and the phase computed from them. */
  datatype EngineAnswer = EngineFailed | EngineScaled(counts: Workloads, ready: bool, phase: Phase)

  /** The inputs of a pass. `matches` is what the selector matches now, `owners` the owner of every
      claimed namespace, `blocked` whether dependencies are missing or not up. Answers are by
      position: of the departing namespace, of the recorded cloud target, or of the stage and the
      target in it. `clock` holds the readings of the pass in order, and `stored` tells whether the
      status write at the end succeeded. */
  datatype Pass = Pass(spec: Spec, matches: seq<string>, owners: map<string, string>, active: bool, blocked: bool,
                       granted: set<nat>, restarts: map<nat, Answer>, engine: map<(nat, nat), EngineAnswer>,
                       cloud: map<(nat, nat), Answer>, clock: seq<int>, stored: bool)

  /** The i-th clock reading; a clock that is not read further stands still. */
  function Reading(p: Pass, i: nat): int {
    if i < |p.clock| then p.clock[i] else if p.clock == [] then 0 else p.clock[|p.clock| - 1]
  }

  function EngineAt(p: Pass, i: nat, j: nat): EngineAnswer {
    if (i, j) in p.engine then p.engine[(i, j)] else EngineFailed
  }

  function CloudAt(p: Pass, i: nat, j: nat): Answer { AnswerAt(p.cloud, (i, j)) }

  function InProgress(active: bool): Phase { if active then ScalingUp else ScalingDown }

  function Settled(active: bool): Phase { if active then ScaledUp else ScaledDown }

  function Timeout(s: Spec): int { (if s.timeoutMinutes > 0 then s.timeoutMinutes else 5) * MINUTE }

  // ---- before the stages

  function SelectedNow(p: Pass): seq<string> { if p.spec.hasSelector then p.matches else [] }

  function MembersNow(p: Pass): (r: seq<string>)
    ensures Ascending(r)
  {
    Members(p.spec.namespaces, p.spec.hasSelector, SelectedNow(p))
  }

  /** Namespaces that matched the selector before and neither match now nor are listed by name. */
  function Deselected(st: Status, p: Pass): seq<string> {
    Without(Without(st.selected, SelectedNow(p)), p.spec.namespaces)
  }

  ghost function LeavingNow(name: string, st: Status, p: Pass): Leaving {
    var left := Deselected(st, p);
    Leaving(name, st.managed, p.owners, left + Removed(st.managed, st.originals, MembersNow(p), left), p.granted)
  }

  ghost function LedgerNow(name: string, st: Status, p: Pass): Ledger {
    var l := LeavingNow(name, st, p);
    Released(l, st.originals, |l.departed|)
  }

  function Skipped(name: string, p: Pass): seq<string> { Conflicting(MembersNow(p), p.owners, name) }

  function RestartEvents(st: Status, p: Pass): seq<Event> {
    Restarts(st.stopped, p.spec.sequence, p.spec.targets, p.restarts, |st.stopped|)
  }

  /** The status once the selection is refreshed and what left the group is released. */
  ghost function Prepared(name: string, st: Status, p: Pass): Status {
    var ledger := LedgerNow(name, st, p);
    st.(selected := SelectedNow(p),
        managed := ManagedAfter(MembersNow(p), Skipped(name, p), ledger.unreleased),
        originals := ledger.counts,
        stopped := RecordAll(st.stopped, RestartEvents(st, p)))
  }

  // ---- one target

  function StagesNow(name: string, p: Pass): seq<seq<string>> {
    StagesFor(p.spec.sequence, Without(MembersNow(p), Skipped(name, p)), p.active)
  }

  function CloudTarget(p: Pass, target: string): Option<Target>
    requires IsCloud(target)
  {
    FirstNamed(p.spec.targets, target[4..])
  }

  /** The j-th target of stage i is in the desired state, as far as this pass can tell. */
  predicate IsReady(p: Pass, i: nat, j: nat, target: string) {
    if IsCloud(target) then CloudTarget(p, target).Some? && Arrived(CloudAt(p, i, j))
    else EngineAt(p, i, j).EngineScaled? && EngineAt(p, i, j).ready && EngineAt(p, i, j).phase == Settled(p.active)
  }

  function CountsAfter(p: Pass, i: nat, j: nat, target: string, m: Flat): Flat {
    if !IsCloud(target) && EngineAt(p, i, j).EngineScaled? then Merge(m, target, EngineAt(p, i, j).counts) else m
  }

  function TargetEvents(p: Pass, i: nat, j: nat, target: string): seq<Event> {
    if IsCloud(target) && CloudTarget(p, target).Some? then
      EventsOf(CloudTarget(p, target).value, p.active, CloudAt(p, i, j)) else []
  }

  // ---- the first n targets of a stage, and the first k stages

  /** Those that are ready, or those that are not. */
  function Seen(p: Pass, i: nat, stage: seq<string>, n: nat, ready: bool): seq<string>
    requires n <= |stage|
  {
    if n == 0 then []
    else Seen(p, i, stage, n - 1, ready) + (if IsReady(p, i, n - 1, stage[n - 1]) == ready then [stage[n - 1]] else [])
  }

  function CountsIn(p: Pass, i: nat, stage: seq<string>, n: nat, m: Flat): Flat
    requires n <= |stage|
  {
    if n == 0 then m else CountsAfter(p, i, n - 1, stage[n - 1], CountsIn(p, i, stage, n - 1, m))
  }

  function EventsIn(p: Pass, i: nat, stage: seq<string>, n: nat): seq<Event>
    requires n <= |stage|
  {
    if n == 0 then [] else EventsIn(p, i, stage, n - 1) + TargetEvents(p, i, n - 1, stage[n - 1])
  }

  function SeenIn(p: Pass, stages: seq<seq<string>>, k: nat, ready: bool): seq<string>
    requires k <= |stages|
  {
    if k == 0 then [] else SeenIn(p, stages, k - 1, ready) + Seen(p, k - 1, stages[k - 1], |stages[k - 1]|, ready)
  }

  function CountsOver(p: Pass, stages: seq<seq<string>>, k: nat, m: Flat): Flat
    requires k <= |stages|
  {
    if k == 0 then m else CountsIn(p, k - 1, stages[k - 1], |stages[k - 1]|, CountsOver(p, stages, k - 1, m))
  }

  function EventsOver(p: Pass, stages: seq<seq<string>>, k: nat): seq<Event>
    requires k <= |stages|
  {
    if k == 0 then [] else EventsOver(p, stages, k - 1) + EventsIn(p, k - 1, stages[k - 1], |stages[k - 1]|)
  }

  function Total(stages: seq<seq<string>>, k: nat): nat
    requires k <= |stages|
  {
    if k == 0 then 0 else Total(stages, k - 1) + |stages[k - 1]|
  }

  function Waiting(p: Pass, stages: seq<seq<string>>, i: nat): seq<string>
    requires i < |stages|
  {
    Seen(p, i, stages[i], |stages[i]|, false)
  }

  // ---- which stage holds the pass back

  predicate Resumes(st: Status, p: Pass) { st.phase == InProgress(p.active) }

  /** The stage the pass starts from, and when that stage became the current one. */
  function FirstStage(st: Status, p: Pass): nat { if Resumes(st, p) then st.currentStage else 0 }

  function FirstStarted(st: Status, p: Pass): int { if Resumes(st, p) then st.lastAction else Reading(p, 0) }

  /** When stage j became current: an earlier pass stored it, or this pass just left stage j - 1. */
  function StageStarted(st: Status, p: Pass, j: nat): int {
    if j <= FirstStage(st, p) then FirstStarted(st, p) else Reading(p, 2 * j)
  }

  predicate GivenUp(st: Status, p: Pass, j: nat) {
    p.spec.skipOnTimeout && Reading(p, 2 * j + 1) - StageStarted(st, p, j) > Timeout(p.spec)
  }

  predicate HoldsBack(st: Status, p: Pass, stages: seq<seq<string>>, j: nat)
    requires j < |stages|
  {
    j >= FirstStage(st, p) && Waiting(p, stages, j) != [] && !GivenUp(st, p, j)
  }

  /** The first stage from j on that holds back the ones after it; their number if none does. */
  function HoldingFrom(st: Status, p: Pass, stages: seq<seq<string>>, j: nat): (h: nat)
    requires j <= |stages|
    decreases |stages| - j
    ensures j <= h <= |stages|
    ensures forall i | j <= i < h :: !HoldsBack(st, p, stages, i)
    ensures h < |stages| ==> HoldsBack(st, p, stages, h)
  {
    if j == |stages| || HoldsBack(st, p, stages, j) then j else HoldingFrom(st, p, stages, j + 1)
  }

  function Holding(st: Status, p: Pass, stages: seq<seq<string>>): (h: nat)
    ensures h <= |stages|
    ensures forall i | 0 <= i < h :: !HoldsBack(st, p, stages, i)
    ensures h < |stages| ==> HoldsBack(st, p, stages, h)
  {
    HoldingFrom(st, p, stages, 0)
  }

  /** How many stages the pass acts on: the stage that holds back is the last. */
  function Ran(st: Status, p: Pass, stages: seq<seq<string>>): (r: nat)
    ensures r <= |stages|
  {
    if Holding(st, p, stages) < |stages| then Holding(st, p, stages) + 1 else |stages|
  }

  // ---- the status at the end of the pass

  function AfterStages(st: Status, s: Status, p: Pass, stages: seq<seq<string>>): Status {
    var first, holding, ran := FirstStage(st, p), Holding(st, p, stages), Ran(st, p, stages);
    var allReady := SeenIn(p, stages, ran, false) == [];
    var phase := if allReady then Settled(p.active) else InProgress(p.active);
    var started := if holding > first then Reading(p, 2 * holding) else FirstStarted(st, p);
    var kept := if allReady then st.lastAction else started;
    s.(phase := phase,
       currentStage := if allReady then 0 else if holding > first then holding else first,
       lastAction := if st.phase != phase || kept == 0 then Reading(p, 2 * |stages| + 1) else kept,
       originals := CountsOver(p, stages, ran, s.originals),
       stopped := RecordAll(s.stopped, EventsOver(p, stages, ran)),
       skipped := SeenIn(p, stages, holding, false),
       ready := SeenIn(p, stages, ran, true),
       namespacesReady := |SeenIn(p, stages, ran, true)|,
       namespacesTotal := Total(stages, |stages|),
       managedCount := Total(stages, ran))
  }

  predicate Waits(st: Status, p: Pass) { p.active && p.blocked && st.phase != ScaledUp }

  /** The pass gets as far as the stages. */
  predicate ActsOnStages(st: Status, p: Pass) { !p.spec.dryRun && !Waits(st, p) }

  ghost function Reconciled(name: string, st: Status, p: Pass): Status {
    var s := Prepared(name, st, p);
    if p.spec.dryRun then s.(phase := DryRun, currentStage := 0, skipped := [])
    else if Waits(st, p) then
      if st.phase == WaitingForDependencies then s else s.(phase := WaitingForDependencies, lastAction := Reading(p, 0))
    else AfterStages(st, s, p, StagesNow(name, p))
  }

  /** What the API server holds after the pass: times lose their fraction of a second, and a
      failed write leaves the status as it was. */
  ghost function Stored(name: string, st: Status, p: Pass): Status {
    if p.stored then var r := Reconciled(name, st, p); r.(lastAction := Floor(r.lastAction)) else st
  }
}
