/** Deleting a group: its finalizer holds the object until what it scaled down is given back, or
    until a deadline. */
module Finalizer {
  import opened Common
  import opened CloudTargets
  import opened Release
  import ReplicaMap
  import opened Stages
  import opened Passes

  const RELEASE_GIVE_UP_AFTER: int := 10 * MINUTE
  const RELEASE_RETRY: int := 15 * SECOND

  /** What one finalizing pass meets: whether the groups can be listed, the owner of every
      claimed namespace, which namespaces (by position) are restored or handed over, what starting
      each recorded cloud target answers, whether the sleep page grant can be updated, the time, and
      whether removing the finalizer is written. */
  datatype Attempt = Attempt(listed: bool, owners: map<string, string>, granted: set<nat>,
                             cloud: map<nat, Answer>, grantUpdated: bool, now: int, written: bool)

  /** The namespaces to give back: members and those still tracked. */
  ghost function ToRelease(spec: Spec, st: Status): seq<string> {
    var members := Members(spec.namespaces, spec.hasSelector, st.selected);
    members + Removed(st.managed, st.originals, members, members)
  }

  predicate Owned(name: string, members: seq<string>, a: Attempt, ns: string) {
    ns !in Conflicting(members, a.owners, name)
  }

  /** Every owned namespace was restored or handed over to its successor. */
  ghost predicate NamespacesGivenBack(name: string, spec: Spec, st: Status, a: Attempt) {
    forall i | 0 <= i < |ToRelease(spec, st)| ::
      Owned(name, Members(spec.namespaces, spec.hasSelector, st.selected), a, ToRelease(spec, st)[i]) ==> i in a.granted
  }

  /** The calls that start the first n recorded targets. */
  function Starts(recorded: seq<Target>, a: Attempt, n: nat): seq<Event>
    requires n <= |recorded|
    decreases n
  {
    if n == 0 then [] else Starts(recorded, a, n - 1) + EventsOf(recorded[n - 1], true, AnswerAt(a.cloud, n - 1))
  }

  /** What the pass still holds as stopped once it has started everything. */
  function StoppedAfter(st: Status, a: Attempt): seq<Target> {
    RecordAll(st.stopped, Starts(st.stopped, a, |st.stopped|))
  }

  ghost predicate AllStarted(st: Status, a: Attempt) {
    forall i | 0 <= i < |st.stopped| :: Arrived(AnswerAt(a.cloud, i))
  }

  ghost predicate EverythingReleased(name: string, spec: Spec, st: Status, a: Attempt) {
    a.listed && NamespacesGivenBack(name, spec, st, a) && AllStarted(st, a) && a.grantUpdated
  }

  predicate GiveUp(deletedAt: int, now: int) { now - deletedAt >= RELEASE_GIVE_UP_AFTER }

  /** The finalizer goes in this pass. */
  ghost predicate Drops(name: string, spec: Spec, st: Status, deletedAt: int, a: Attempt) {
    (EverythingReleased(name, spec, st, a) || GiveUp(deletedAt, a.now)) && a.written
  }

  /** All this pass tries works out: the groups are listed, each namespace to give back that no other group
      owns is restored or handed over, each recorded target starts and is seen running without an error,
      and the grant is updated. */
  ghost predicate Succeeds(name: string, spec: Spec, st: Status, a: Attempt) {
    && a.listed && a.grantUpdated
    && (forall i | 0 <= i < |ToRelease(spec, st)| ::
          var ns := ToRelease(spec, st)[i];
          var member := ns in spec.namespaces || (spec.hasSelector && ns in st.selected);
          i in a.granted || (member && ns in a.owners && a.owners[ns] != name))
    && forall i | 0 <= i < |st.stopped| :: i in a.cloud && a.cloud[i] == Scaled(true, false)
  }

  lemma DropsExactly(name: string, spec: Spec, st: Status, deletedAt: int, a: Attempt)
    ensures Drops(name, spec, st, deletedAt, a) <==>
            a.written && (a.now - deletedAt >= 10 * MINUTE || Succeeds(name, spec, st, a))
  {
    hide ToRelease, Owned, Arrived;
    forall i | 0 <= i < |ToRelease(spec, st)|
      ensures var ns := ToRelease(spec, st)[i];
              var member := ns in spec.namespaces || (spec.hasSelector && ns in st.selected);
              !Owned(name, Members(spec.namespaces, spec.hasSelector, st.selected), a, ns) <==>
                member && ns in a.owners && a.owners[ns] != name
    {
      OwnedMeans(name, spec, st, a, ToRelease(spec, st)[i]);
    }
    forall i | 0 <= i < |st.stopped|
      ensures Arrived(AnswerAt(a.cloud, i)) <==> i in a.cloud && a.cloud[i] == Scaled(true, false)
    {
      ArrivedMeans(a, i);
    }
  }

  lemma OwnedMeans(name: string, spec: Spec, st: Status, a: Attempt, ns: string)
    ensures var member := ns in spec.namespaces || (spec.hasSelector && ns in st.selected);
            !Owned(name, Members(spec.namespaces, spec.hasSelector, st.selected), a, ns) <==>
              member && ns in a.owners && a.owners[ns] != name
  {
  }

  lemma ArrivedMeans(a: Attempt, i: nat)
    ensures Arrived(AnswerAt(a.cloud, i)) <==> i in a.cloud && a.cloud[i] == Scaled(true, false)
  {
  }

  class DeletedGroup {
    const name: string
    const spec: Spec
    const deletedAt: int
    // The status a pass reads. Removing the finalizer does not write it.
    const status: Status
    var finalizer: bool

    constructor (name: string, spec: Spec, deletedAt: int, status: Status)
      ensures this.name == name && this.spec == spec && this.deletedAt == deletedAt && this.status == status
              && finalizer
    {
      this.name, this.spec, this.deletedAt, this.status, finalizer := name, spec, deletedAt, status, true;
    }

    method Finalize(a: Attempt)
      modifies this
      ensures finalizer == (old(finalizer) && !Drops(name, spec, status, deletedAt, a))
      ensures a.now - deletedAt < 10 * MINUTE ==>
                (!finalizer <==> !old(finalizer) || (Succeeds(name, spec, status, a) && a.written))
      ensures a.now - deletedAt >= 10 * MINUTE ==> (!finalizer <==> !old(finalizer) || a.written)
    {
      DropsExactly(name, spec, status, deletedAt, a);
      if !finalizer { return; }
      var failed := ReleaseEverything(a);
      if failed && !GiveUp(deletedAt, a.now) { return; }
      if a.written { finalizer := false; }
    }

    method ReleaseEverything(a: Attempt) returns (failed: bool)
      ensures failed == !EverythingReleased(name, spec, status, a)
    {
      hide NamespacesGivenBack, AllStarted;
      if !a.listed { return true; }
      var kept := GiveBackNamespaces(a);
      var stopped, down := StartTargets(a);
      failed := kept || down || !a.grantUpdated;
    }

    /** Hands each owned namespace to its successor, or restores it. */
    method GiveBackNamespaces(a: Attempt) returns (failed: bool)
      ensures failed == !NamespacesGivenBack(name, spec, status, a)
    {
      hide Conflicting, Members, Removed;
      var members := Members(spec.namespaces, spec.hasSelector, status.selected);
      var removed := RemovedNamespaces(status.managed, status.originals, members, members);
      var namespaces := members + removed;
      var conflicting := Conflicting(members, a.owners, name);
      failed := false;
      for i := 0 to |namespaces|
        invariant failed <==> exists k | 0 <= k < i :: namespaces[k] !in conflicting && k !in a.granted
      {
        if namespaces[i] !in conflicting && i !in a.granted { failed := true; }
      }
    }

    /** Starts every target of the record, editing the copy of it the pass works on. */
    method StartTargets(a: Attempt) returns (stopped: seq<Target>, failed: bool)
      ensures stopped == StoppedAfter(status, a) && failed == !AllStarted(status, a)
    {
      hide RecordAll, Record;
      RecordAllNone(status.stopped);
      stopped, failed := status.stopped, false;
      for i := 0 to |status.stopped|
        invariant stopped == RecordAll(status.stopped, Starts(status.stopped, a, i))
        invariant failed <==> exists k | 0 <= k < i :: !Arrived(AnswerAt(a.cloud, k))
      {
        var answer := AnswerAt(a.cloud, i);
        RecordAllNext(status.stopped, Starts(status.stopped, a, i), status.stopped[i], true, answer);
        if answer.Scaled? { stopped := Record(stopped, Event(status.stopped[i], true, answer.ready)); }
        if !Arrived(answer) { failed := true; }
      }
    }
  }

  /** Starting every recorded target and seeing it run empties the record. */
  lemma {:induction false} StartsEmpty(recorded: seq<Target>, a: Attempt, n: nat)
    requires n <= |recorded|
    requires forall i | 0 <= i < n :: Arrived(AnswerAt(a.cloud, i))
    ensures RecordAll(recorded, Starts(recorded, a, n)) == recorded[n..]
    decreases n
  {
    hide Record, RecordAll;
    if n == 0 {
      RecordAllNone(recorded);
    } else {
      StartsEmpty(recorded, a, n - 1);
      RecordAllNext(recorded, Starts(recorded, a, n - 1), recorded[n - 1], true, AnswerAt(a.cloud, n - 1));
      FirstStarted(recorded[n - 1..]);
      assert recorded[n - 1..][0] == recorded[n - 1];
      assert recorded[n - 1..][1..] == recorded[n..];
    }
  }

  lemma FirstStarted(recorded: seq<Target>)
    requires recorded != []
    ensures Record(recorded, Event(recorded[0], true, true)) == recorded[1..]
  {
    assert recorded[..0] + recorded[1..] == recorded[1..];
  }

  /** The finalizer is dropped only when every owned namespace was restored or handed over and the
      stopped targets have all come up and left the record, or when ten minutes have passed. */
  lemma DroppedOnlyWhenReleased(name: string, spec: Spec, st: Status, deletedAt: int, a: Attempt)
    requires Drops(name, spec, st, deletedAt, a)
    ensures || a.now - deletedAt >= 10 * MINUTE
            || (NamespacesGivenBack(name, spec, st, a) && StoppedAfter(st, a) == [])
  {
    hide NamespacesGivenBack, RecordAll, Arrived;
    if EverythingReleased(name, spec, st, a) {
      StartsEmpty(st.stopped, a, |st.stopped|);
    }
  }

  /** The namespaces to give back are exactly the members and what the group still tracks. */
  lemma TrackedIsToRelease(spec: Spec, st: Status, ns: string)
    ensures ns in ToRelease(spec, st) <==>
            || ns in spec.namespaces || (spec.hasSelector && ns in st.selected)
            || ns in st.managed || ns in ReplicaMap.Namespaces(st.originals)
  {
  }

  /** Whether the finalizer is still there after the first n passes. */
  ghost predicate HeldAfter(name: string, spec: Spec, st: Status, deletedAt: int, attempts: seq<Attempt>, n: nat)
    requires n <= |attempts|
  {
    n == 0 || (HeldAfter(name, spec, st, deletedAt, attempts, n - 1)
      && !Drops(name, spec, st, deletedAt, attempts[n - 1]))
  }

  /** Over any passes, the object is gone exactly once one of them succeeded in everything or came ten
      minutes after the deletion, and its update was written. */
  lemma {:induction false} GoneOnceReleased(name: string, spec: Spec, st: Status, deletedAt: int,
      attempts: seq<Attempt>, n: nat)
    requires n <= |attempts|
    ensures !HeldAfter(name, spec, st, deletedAt, attempts, n) <==> exists i | 0 <= i < n ::
              attempts[i].written && (attempts[i].now - deletedAt >= 10 * MINUTE
                || Succeeds(name, spec, st, attempts[i]))
    decreases n
  {
    hide Succeeds, Drops;
    if n == 0 {
    } else {
      GoneOnceReleased(name, spec, st, deletedAt, attempts, n - 1);
      DropsExactly(name, spec, st, deletedAt, attempts[n - 1]);
    }
  }

  /** Passes at least the retry interval apart, starting no earlier than the deletion. */
  ghost predicate Retried(deletedAt: int, attempts: seq<Attempt>) {
    && (attempts != [] ==> attempts[0].now >= deletedAt)
    && forall k | 0 <= k < |attempts| - 1 :: attempts[k + 1].now >= attempts[k].now + 15 * SECOND
  }

  lemma {:induction false} RetryTimes(deletedAt: int, attempts: seq<Attempt>, k: nat)
    requires Retried(deletedAt, attempts) && k < |attempts|
    ensures attempts[k].now >= deletedAt + k * RELEASE_RETRY
    decreases k
  {
    if k == 0 {
    } else {
      RetryTimes(deletedAt, attempts, k - 1);
      assert attempts[k - 1 + 1].now >= attempts[k - 1].now + RELEASE_RETRY;
    }
  }

  /** Whatever fails, the object goes by the 41st pass if that pass's update is written. The bound is
      tight: passes exactly the retry interval apart that never succeed keep the object through the
      40th. */
  lemma GoneByPass41(name: string, spec: Spec, st: Status, deletedAt: int, attempts: seq<Attempt>)
    requires Retried(deletedAt, attempts) && |attempts| >= 41 && attempts[40].written
    ensures Drops(name, spec, st, deletedAt, attempts[40])
  {
    hide EverythingReleased;
    RetryTimes(deletedAt, attempts, 40);
  }

  lemma KeptThroughPass40(name: string, spec: Spec, st: Status, deletedAt: int, a: Attempt, k: nat)
    requires k < 40 && a.now == deletedAt + k * 15 * SECOND && !a.grantUpdated
    ensures !Drops(name, spec, st, deletedAt, a)
  {
    hide NamespacesGivenBack, AllStarted;
  }
}
