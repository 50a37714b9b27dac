/** Which transitions of a group reach the chat: a memory of one phase per object that answers as
    the whole history would. */
module Announcements {
  import opened Common
  import opened Passes
  import opened Barrier

  predicate IsSettled(phase: Phase) { phase == ScaledUp || phase == ScaledDown }

  /** What the log knows of an object once it has looked at the phase the object comes from. */
  function Learnt(last: Option<Phase>, from: Phase): Option<Phase> {
    if last.None? && IsSettled(from) then Some(from) else last
  }

  function Remembered(last: Option<Phase>, from: Phase, to: Phase): Option<Phase> {
    if IsSettled(to) then Some(to) else Learnt(last, from)
  }

  predicate WorthAnnouncing(last: Option<Phase>, from: Phase, to: Phase) {
    IsSettled(to) && from != Unset && from != to && Learnt(last, from) != Some(to)
  }

  class TransitionLog {
    var last: map<string, Phase>

    constructor ()
      ensures last == map[]
    {
      last := map[];
    }

    function Known(uid: string): Option<Phase>
      reads this
    {
      if uid in last then Some(last[uid]) else None
    }

    method Changed(uid: string, from: Phase, to: Phase) returns (announce: bool)
      modifies this
      ensures announce == WorthAnnouncing(old(Known(uid)), from, to)
      ensures Known(uid) == Remembered(old(Known(uid)), from, to)
      ensures forall other | other != uid :: Known(other) == old(Known(other))
    {
      if uid !in last && IsSettled(from) { last := last[uid := from]; }
      if !IsSettled(to) { return false; }
      var before := Known(uid);
      last := last[uid := to];
      return from != Unset && from != to && before != Some(to);
    }

    method Forget(uid: string)
      modifies this
      ensures Known(uid) == None && forall other | other != uid :: Known(other) == old(Known(other))
    {
      last := last - {uid};
    }
  }

  // ---- the calls of one process about one object

  datatype Call = Call(from: Phase, to: Phase)

  /** A phase the object settled in is the one the call before left it in, and only the first call
      can be about an object without a phase. */
  ghost predicate Continuous(calls: seq<Call>) {
    forall k | 0 < k < |calls| ::
      calls[k].from != Unset && (IsSettled(calls[k].from) ==> calls[k].from == calls[k - 1].to)
  }

  function LogAfter(calls: seq<Call>, k: nat): Option<Phase>
    requires k <= |calls|
  {
    if k == 0 then None else Remembered(LogAfter(calls, k - 1), calls[k - 1].from, calls[k - 1].to)
  }

  /** The last settled phase the first k calls show, in their order. */
  function LastSettled(calls: seq<Call>, k: nat): Option<Phase>
    requires k <= |calls|
  {
    if k == 0 then None
    else if IsSettled(calls[k - 1].to) then Some(calls[k - 1].to)
    else if IsSettled(calls[k - 1].from) then Some(calls[k - 1].from)
    else LastSettled(calls, k - 1)
  }

  predicate Announced(calls: seq<Call>, k: nat)
    requires k < |calls|
  {
    WorthAnnouncing(LogAfter(calls, k), calls[k].from, calls[k].to)
  }

  lemma {:induction false} LogIsHistory(calls: seq<Call>, k: nat)
    requires Continuous(calls) && k <= |calls|
    ensures LogAfter(calls, k) == LastSettled(calls, k)
    decreases k
  {
    if k == 0 {
    } else {
      LogIsHistory(calls, k - 1);
      if k > 1 && IsSettled(calls[k - 1].from) { assert LogAfter(calls, k - 1) == Some(calls[k - 2].to); }
    }
  }

  /** The one remembered phase decides as the whole history would: a transition is announced exactly
      when it settles in a phase other than the last settled one, the first reconcile excepted. */
  lemma AnnouncedIffSettledPhaseChanges(calls: seq<Call>, k: nat)
    requires Continuous(calls) && k < |calls|
    ensures var from, to := calls[k].from, calls[k].to;
            var before := if IsSettled(from) then Some(from) else LastSettled(calls, k);
            Announced(calls, k) <==> IsSettled(to) && from != Unset && before != Some(to)
  {
    LogIsHistory(calls, k);
    if k > 0 && IsSettled(calls[k].from) { assert LogAfter(calls, k) == Some(calls[k - 1].to); }
  }

  lemma {:induction false} QuietKeepsPhase(calls: seq<Call>, i: nat, m: nat)
    requires Continuous(calls) && i < m <= |calls| && Announced(calls, i)
    requires forall q | i < q < m :: !Announced(calls, q)
    ensures LogAfter(calls, m) == Some(calls[i].to)
    decreases m
  {
    if m == i + 1 {
    } else {
      QuietKeepsPhase(calls, i, m - 1);
      AnnouncedIffSettledPhaseChanges(calls, m - 1);
      LogIsHistory(calls, m - 1);
      if IsSettled(calls[m - 1].from) { assert LogAfter(calls, m - 1) == Some(calls[m - 2].to); }
    }
  }

  /** Announcements strictly alternate between up and down. */
  lemma AnnouncementsAlternate(calls: seq<Call>, i: nat, j: nat)
    requires Continuous(calls) && i < j < |calls| && Announced(calls, i) && Announced(calls, j)
    requires forall q | i < q < j :: !Announced(calls, q)
    ensures calls[j].to == if calls[i].to == ScaledUp then ScaledDown else ScaledUp
  {
    QuietKeepsPhase(calls, i, j);
  }

  // ---- the calls a run of the reconciler makes

  /** Passes s to k - 1 as one process sees them: only a pass that reached the stages and wrote its
      status calls the log. */
  function CallsOf(states: seq<Status>, passes: seq<Pass>, s: nat, k: nat): seq<Call>
    requires s <= k <= |passes| && |states| == |passes| + 1
    decreases k
  {
    if k == s then []
    else
      CallsOf(states, passes, s, k - 1) +
      if passes[k - 1].stored && ActsOnStages(states[k - 1], passes[k - 1]) then
        [Call(states[k - 1].phase, states[k].phase)] else []
  }

  /** Continuous calls that end with the object in this phase. */
  ghost predicate ContinuousTo(calls: seq<Call>, phase: Phase) {
    && Continuous(calls)
    && (calls != [] ==> phase != Unset && (IsSettled(phase) ==> phase == calls[|calls| - 1].to))
  }

  lemma ContinuousNext(calls: seq<Call>, from: Phase, to: Phase)
    requires ContinuousTo(calls, from) && to != Unset
    ensures ContinuousTo(calls + [Call(from, to)], to)
  {
  }

  lemma ContinuousUnsettled(calls: seq<Call>, from: Phase, to: Phase)
    requires ContinuousTo(calls, from) && to != Unset && !IsSettled(to)
    ensures ContinuousTo(calls, to)
  {
  }

  lemma NoCalls(phase: Phase)
    ensures ContinuousTo([], phase)
  {
  }

  /** The reconciler's calls are continuous, from wherever a process takes over and whatever dry
      runs, waits and failed writes come in between. */
  lemma {:induction false} RunsAreContinuous(name: string, states: seq<Status>, passes: seq<Pass>, s: nat, k: nat)
    requires Run(name, states, passes) && s <= k <= |passes|
    ensures ContinuousTo(CallsOf(states, passes, s, k), states[k].phase)
    decreases k
  {
    hide Stored, ActsOnStages, ContinuousTo;
    if k == s {
      NoCalls(states[k].phase);
    } else {
      var st, p := states[k - 1], passes[k - 1];
      var calls := CallsOf(states, passes, s, k - 1);
      assert calls + [] == calls;
      RunsAreContinuous(name, states, passes, s, k - 1);
      assert states[k - 1 + 1] == Stored(name, st, p);
      if !p.stored {
        Unstored(name, states, passes, k);
      } else if ActsOnStages(st, p) {
        NextMark(name, st, p);
        ContinuousNext(calls, st.phase, states[k].phase);
      } else {
        NextElsewhere(name, st, p);
        ContinuousUnsettled(calls, st.phase, states[k].phase);
      }
    }
  }
}
