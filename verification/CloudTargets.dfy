/** The cloud targets a group has stopped: what status.stoppedExternalTargets records about the
    calls to the cloud provider. */
module CloudTargets {
  import opened Common

  /** What makes two entries the same target: provider, type, identifier and region. */
  datatype Id = Id(provider: string, kind: string, identifier: string, region: string)
  /** A target with its descriptive fields (name, status, stage hint), which do not identify it. */
  datatype Target = Target(id: Id, details: string)

  /** What the provider answers to one start or stop: no provider, a failed call, or a call that
      took, followed by a readiness check that may itself fail. */
  datatype Answer = NoProvider | ScaleFailed | Scaled(ready: bool, checkFailed: bool)

  /** The provider's answer to the i-th call; one it does not answer has failed. */
  function AnswerAt<K>(answers: map<K, Answer>, i: K): Answer { if i in answers then answers[i] else ScaleFailed }

  /** A call that took. */
  datatype Event = Event(target: Target, active: bool, ready: bool)

  function EventsOf(target: Target, active: bool, answer: Answer): seq<Event> {
    if answer.Scaled? then [Event(target, active, answer.ready)] else []
  }

  /** The target counts as being where it should be. */
  predicate Arrived(answer: Answer) { answer.Scaled? && answer.ready && !answer.checkFailed }

  function IndexOf(list: seq<Target>, id: Id): (i: nat)
    ensures i <= |list|
    ensures i < |list| ==> list[i].id == id
    ensures forall j | 0 <= j < i :: list[j].id != id
  {
    if list == [] || list[0].id == id then 0 else 1 + IndexOf(list[1..], id)
  }

  /** The record after one call that took. */
  function Record(stopped: seq<Target>, e: Event): seq<Target> {
    var i := IndexOf(stopped, e.target.id);
    if e.active && e.ready && i < |stopped| then stopped[..i] + stopped[i + 1..]
    else if !e.active && i < |stopped| then stopped[i := e.target]
    else if !e.active then stopped + [e.target]
    else stopped
  }

  function RecordAll(stopped: seq<Target>, events: seq<Event>): seq<Target> {
    if events == [] then stopped else Record(RecordAll(stopped, events[..|events| - 1]), events[|events| - 1])
  }

  lemma RecordAllNone(stopped: seq<Target>)
    ensures RecordAll(stopped, []) == stopped
  {
  }

  lemma RecordAllNext(stopped: seq<Target>, events: seq<Event>, target: Target, active: bool, answer: Answer)
    ensures RecordAll(stopped, events + EventsOf(target, active, answer)) ==
            if answer.Scaled? then Record(RecordAll(stopped, events), Event(target, active, answer.ready))
              else RecordAll(stopped, events)
  {
    var now := EventsOf(target, active, answer);
    if now == [] { assert events + now == events; } else { assert (events + now)[..|events|] == events; }
  }

  lemma {:induction false} RecordAllAppend(stopped: seq<Target>, a: seq<Event>, b: seq<Event>)
    ensures RecordAll(stopped, a + b) == RecordAll(RecordAll(stopped, a), b)
  {
    hide Record;
    if b == [] {
      assert a + b == a;
    } else {
      var n := |b| - 1;
      RecordAllAppend(stopped, a, b[..n]);
      assert (a + b)[..|a + b| - 1] == a + b[..n];
    }
  }

  // ---- conservation

  /** Call i stopped t, and since then the target has at most been started without being seen ready. */
  ghost predicate StillDownSince(events: seq<Event>, t: Target, i: nat) {
    && i < |events|
    && !events[i].active && events[i].target == t
    && forall j | i < j < |events| && events[j].target.id == t.id :: events[j].active && !events[j].ready
  }

  /** The last stop of t that took has not been followed by a start seen ready. */
  ghost predicate Outstanding(events: seq<Event>, t: Target) {
    exists i: nat :: StillDownSince(events, t, i)
  }

  ghost predicate NoRepeats(stopped: seq<Target>) {
    forall i, j | 0 <= i < j < |stopped| :: stopped[i].id != stopped[j].id
  }

  /** The record holds exactly the outstanding targets, each once, as they were last stopped. */
  ghost predicate Conserved(stopped: seq<Target>, events: seq<Event>) {
    NoRepeats(stopped) && forall t :: t in stopped <==> Outstanding(events, t)
  }

  lemma OutstandingStep(events: seq<Event>, e: Event, t: Target)
    ensures Outstanding(events + [e], t) <==>
            if e.target.id != t.id then Outstanding(events, t)
            else if !e.active then e.target == t
            else !e.ready && Outstanding(events, t)
  {
    var all := events + [e];
    forall i: nat | i < |events|
      ensures StillDownSince(all, t, i) <==>
              && StillDownSince(events, t, i)
              && (e.target.id == t.id ==> e.active && !e.ready)
    {
      assert all[|events|] == e;
      assert forall j | 0 <= j < |events| :: all[j] == events[j];
    }
    assert StillDownSince(all, t, |events|) <==> !e.active && e.target == t;
    if Outstanding(all, t) { var i: nat :| StillDownSince(all, t, i); }
    if Outstanding(events, t) { var i: nat :| StillDownSince(events, t, i); assert i < |events|; }
  }

  lemma RecordStep(stopped: seq<Target>, e: Event, t: Target)
    requires NoRepeats(stopped)
    ensures NoRepeats(Record(stopped, e))
    ensures t in Record(stopped, e) <==>
            if e.target.id != t.id then t in stopped
            else if !e.active then e.target == t
            else !e.ready && t in stopped
  {
    var i, r := IndexOf(stopped, e.target.id), Record(stopped, e);
    if i < |stopped| {
      assert t in stopped <==> t == stopped[i] || t in stopped[..i] + stopped[i + 1..];
      if !e.active {
        assert forall j | 0 <= j < |r| :: r[j] == if j == i then e.target else stopped[j];
        assert t in r <==> t == e.target || t in stopped[..i] + stopped[i + 1..];
      }
    }
  }

  lemma ConservedStep(stopped: seq<Target>, events: seq<Event>, e: Event)
    requires Conserved(stopped, events)
    ensures Conserved(Record(stopped, e), events + [e])
  {
    RecordStep(stopped, e, e.target);
    forall t ensures t in Record(stopped, e) <==> Outstanding(events + [e], t) {
      OutstandingStep(events, e, t);
      RecordStep(stopped, e, t);
    }
  }

  /** Whatever the provider answers, the record stays exact. */
  lemma {:induction false} ConservedAll(stopped: seq<Target>, events: seq<Event>, more: seq<Event>)
    requires Conserved(stopped, events)
    ensures Conserved(RecordAll(stopped, more), events + more)
  {
    if more == [] {
      assert events + more == events;
    } else {
      var n := |more| - 1;
      ConservedAll(stopped, events, more[..n]);
      ConservedStep(RecordAll(stopped, more[..n]), events + more[..n], more[n]);
      assert events + more[..n] + [more[n]] == events + more;
    }
  }

  /** A run of starts leaves recorded exactly what none of them saw ready, and adds nothing. */
  lemma {:induction false} StartsClear(stopped: seq<Target>, events: seq<Event>, t: Target)
    requires NoRepeats(stopped)
    requires forall k | 0 <= k < |events| :: events[k].active
    ensures NoRepeats(RecordAll(stopped, events))
    ensures t in RecordAll(stopped, events) <==>
            t in stopped && forall k | 0 <= k < |events| && events[k].target.id == t.id :: !events[k].ready
  {
    hide Record;
    if events == [] {
    } else {
      var n := |events| - 1;
      StartsClear(stopped, events[..n], t);
      RecordStep(RecordAll(stopped, events[..n]), events[n], t);
      assert forall k | 0 <= k < n :: events[k] == events[..n][k];
    }
  }

  // ---- which targets the stages scale

  /** The first spec entry with an identifier, the one an "ext:<id>" reference means. */
  function FirstNamed(targets: seq<Target>, identifier: string): Option<Target> {
    if targets == [] then None
    else if targets[0].id.identifier == identifier then Some(targets[0])
    else FirstNamed(targets[1..], identifier)
  }

  lemma {:induction false} FirstNamedFound(targets: seq<Target>, t: Target)
    requires t in targets
    ensures FirstNamed(targets, t.id.identifier).Some?
    ensures FirstNamed(targets, t.id.identifier).value.id.identifier == t.id.identifier
    ensures FirstNamed(targets, t.id.identifier).value in targets
  {
    if targets[0].id.identifier != t.id.identifier {
      FirstNamedFound(targets[1..], t);
    }
  }

  predicate Referenced(sequence: seq<seq<string>>, identifier: string) {
    exists k | 0 <= k < |sequence| :: "ext:" + identifier in sequence[k]
  }

  /** The spec entries a sequence stage names. */
  function Sequenced(sequence: seq<seq<string>>, targets: seq<Target>): (r: seq<Target>)
    ensures forall t :: t in r <==> t in targets && Referenced(sequence, t.id.identifier)
  {
    if targets == [] then [] else
      assert targets == [targets[0]] + targets[1..];
      (if Referenced(sequence, targets[0].id.identifier) then [targets[0]] else []) + Sequenced(sequence, targets[1..])
  }

  predicate IsSequenced(sequence: seq<seq<string>>, targets: seq<Target>, id: Id) {
    exists k | 0 <= k < |targets| :: targets[k].id == id && Referenced(sequence, id.identifier)
  }

  // ---- starting again what the sequence no longer names

  /** The calls of releaseExternalTargets over the first n recorded targets. */
  function Restarts(recorded: seq<Target>, sequence: seq<seq<string>>, targets: seq<Target>,
      answers: map<nat, Answer>, n: nat): (r: seq<Event>)
    requires n <= |recorded|
    decreases n
    ensures forall k | 0 <= k < |r| :: r[k].active && !IsSequenced(sequence, targets, r[k].target.id)
  {
    if n == 0 then []
    else
      var before := Restarts(recorded, sequence, targets, answers, n - 1);
      if IsSequenced(sequence, targets, recorded[n - 1].id) then before
      else before + EventsOf(recorded[n - 1], true, AnswerAt(answers, n - 1))
  }
}
