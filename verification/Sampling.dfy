/** Usage sampling: points are buffered and written in batches, and the history that results is the
    one writing every point would give. */
module Sampling {
  import opened Common

  const SAMPLE_EVERY: int := MINUTE
  const DEFAULT_FLUSH_EVERY: int := 5 * MINUTE
  const HISTORY_POINTS: nat := 60

  datatype Point = Point(at: int, cpu: string, memory: string)

  /** The status of a tracked namespace, as the API server holds it. */
  datatype Record = Record(history: seq<Point>, lastUpdated: int, insights: seq<string>)

  /** One reconcile: the time, the record the cache returns, whether usage and pods could be read,
      what was sampled, whether the metrics condition changed, and whether a status write goes
      through. The API server refuses a write based on an outdated record. */
  datatype Tick = Tick(now: int, read: Record, usable: bool, cpu: string, memory: string, insights: seq<string>,
                       conditionChanged: bool, accepted: bool, flushEvery: int)

  function Taken(t: Tick): Point { Point(t.now, t.cpu, t.memory) }

  /** Points as the API holds them, in whole seconds. A history that was read is in that form already. */
  function AsStored(s: seq<Point>): (r: seq<Point>)
    ensures |r| == |s| && forall i | 0 <= i < |s| :: r[i] == s[i].(at := Floor(s[i].at))
  {
    if s == [] then [] else [s[0].(at := Floor(s[0].at))] + AsStored(s[1..])
  }

  /** The newest sixty. */
  function Last(s: seq<Point>): seq<Point> { if |s| > HISTORY_POINTS then s[|s| - HISTORY_POINTS..] else s }

  /** At most sixty, all of them if there are no more, and always from the end. */
  lemma LastIsSixty(s: seq<Point>)
    ensures |Last(s)| == (if |s| < 60 then |s| else 60) && Last(s) == s[|s| - |Last(s)|..]
  {
  }

  /** A tracked namespace: its record, its buffer, and when this process last sampled it. */
  datatype Tracked = Tracked(stored: Record, pending: seq<Point>, sampledAt: Option<int>)

  predicate TooSoon(o: Tracked, t: Tick) {
    var last := if o.sampledAt.Some? then o.sampledAt.value else t.read.lastUpdated;
    last != 0 && t.now - last < SAMPLE_EVERY - 5 * SECOND
  }

  /** The reconcile takes a sample. */
  predicate Samples(o: Tracked, t: Tick) { !TooSoon(o, t) && t.usable }

  predicate Flushes(t: Tick) {
    || t.read.lastUpdated == 0
    || t.now - t.read.lastUpdated >= (if t.flushEvery > 0 then t.flushEvery else DEFAULT_FLUSH_EVERY) - 5 * SECOND
    || t.conditionChanged
    || t.insights != t.read.insights
  }

  predicate Writes(o: Tracked, t: Tick) { Flushes(t) && t.accepted && t.read == o.stored }

  function Ticked(o: Tracked, t: Tick): Tracked {
    if !Samples(o, t) then o
    else
      var buffer := Last(o.pending + [Taken(t)]);
      if Writes(o, t) then Tracked(Record(Last(o.stored.history + AsStored(buffer)), Floor(t.now), t.insights), [],
        Some(t.now))
      else Tracked(o.stored, buffer, Some(t.now))
  }

  class Sampler {
    // What the API server holds, which outlives the process.
    var stored: map<string, Record>
    var pending: map<string, seq<Point>>
    var sampledAt: map<string, int>

    constructor (stored: map<string, Record>)
      ensures this.stored == stored && pending == map[] && sampledAt == map[]
    {
      this.stored, pending, sampledAt := stored, map[], map[];
    }

    function Of(name: string): Tracked
      reads this
      requires name in stored
    {
      Tracked(stored[name], if name in pending then pending[name] else [],
              if name in sampledAt then Some(sampledAt[name]) else None)
    }

    method Reconcile(name: string, t: Tick)
      requires name in stored
      modifies this
      ensures stored.Keys == old(stored.Keys) && Of(name) == Ticked(old(Of(name)), t)
      ensures forall other | other in stored && other != name :: Of(other) == old(Of(other))
    {
      hide Last;
      var last := LastSample(name, t.read.lastUpdated);
      if last != 0 && t.now - last < SAMPLE_EVERY - 5 * SECOND { return; }
      if !t.usable { return; }
      var points := AddSample(name, t.now, Taken(t));
      var flushEvery := t.flushEvery;
      if flushEvery <= 0 { flushEvery := DEFAULT_FLUSH_EVERY; }
      var due := t.read.lastUpdated == 0 || t.now - t.read.lastUpdated >= flushEvery - 5 * SECOND;
      if !due && !t.conditionChanged && t.insights == t.read.insights { return; }
      Flush(name, t, points);
    }

    /** Writes the buffered points; a failed write leaves them buffered for the next attempt. */
    method Flush(name: string, t: Tick, points: seq<Point>)
      requires name in stored && name in pending && pending[name] == points
      modifies this`stored, this`pending
      ensures var written := t.accepted && t.read == old(stored)[name];
              && stored == (if written then
                old(stored)[name := Record(Last(t.read.history + AsStored(points)), Floor(t.now), t.insights)]
                else old(stored))
              && pending == (if written then old(pending)[name := []] else old(pending))
    {
      hide Last;
      var history := Newest(t.read.history + AsStored(points));
      if !t.accepted || t.read != stored[name] { return; }
      stored := stored[name := Record(history, Floor(t.now), t.insights)];
      Flushed(name, |points|);
      assert points[|points|..] == [];
    }

    method Newest(points: seq<Point>) returns (kept: seq<Point>)
      ensures kept == Last(points)
    {
      kept := points;
      if |kept| > HISTORY_POINTS { kept := kept[|kept| - HISTORY_POINTS..]; }
    }

    method LastSample(name: string, written: int) returns (at: int)
      ensures at == if name in sampledAt then sampledAt[name] else written
    {
      if name in sampledAt { return sampledAt[name]; }
      return written;
    }

    /** Appends a point to the buffer and hands back what a write would have to take. */
    method AddSample(name: string, at: int, point: Point) returns (buffer: seq<Point>)
      modifies this`pending, this`sampledAt
      ensures buffer == Last((if name in old(pending) then old(pending)[name] else []) + [point])
      ensures pending == old(pending)[name := buffer] && sampledAt == old(sampledAt)[name := at]
    {
      buffer := Newest((if name in pending then pending[name] else []) + [point]);
      pending, sampledAt := pending[name := buffer], sampledAt[name := at];
    }

    /** Takes n points off the front of the buffer, or all there are. */
    method Flushed(name: string, n: nat)
      requires name in pending
      modifies this`pending
      ensures var was := old(pending)[name];
              pending == old(pending)[name := was[(if n < |was| then n else |was|)..]]
    {
      var cut := if n < |pending[name]| then n else |pending[name]|;
      pending := pending[name := pending[name][cut..]];
    }

    /** Forgets an object that is gone, which is to it what a new process is to all. */
    method Forget(name: string)
      modifies this`pending, this`sampledAt
      ensures forall n | n in stored :: Of(n) == if n == name then After(old(Of(n)), Restarted) else old(Of(n))
      ensures pending == old(pending) - {name} && sampledAt == old(sampledAt) - {name}
    {
      pending, sampledAt := pending - {name}, sampledAt - {name};
    }
  }

  // ---- histories of one tracked namespace

  /** A reconcile, or a new process taking over with an empty buffer. */
  datatype Event = Reconciled(tick: Tick) | Restarted

  function After(o: Tracked, e: Event): Tracked {
    match e
    case Reconciled(t) => Ticked(o, t)
    case Restarted => Tracked(o.stored, [], None)
  }

  function At(o: Tracked, events: seq<Event>, k: nat): Tracked
    requires k <= |events|
  {
    if k == 0 then o else After(At(o, events, k - 1), events[k - 1])
  }

  /** The history kept one way or the other: points some write has put down, and points no write has. */
  datatype Kept = Kept(durable: seq<Point>, unsaved: seq<Point>)

  function KeptAfter(o: Tracked, kept: Kept, e: Event): Kept {
    match e
    case Restarted => Kept(kept.durable, [])
    case Reconciled(t) =>
      if !Samples(o, t) then kept
      else if Writes(o, t) then Kept(kept.durable + AsStored(kept.unsaved + [Taken(t)]), [])
      else Kept(kept.durable, kept.unsaved + [Taken(t)])
  }

  function KeptAt(o: Tracked, events: seq<Event>, k: nat): Kept
    requires k <= |events|
  {
    if k == 0 then Kept(o.stored.history, [])
      else KeptAfter(At(o, events, k - 1), KeptAt(o, events, k - 1), events[k - 1])
  }

  lemma LastOfSuffix(front: seq<Point>, s: seq<Point>)
    requires |s| >= HISTORY_POINTS
    ensures Last(front + s) == Last(s)
  {
    assert (front + s)[|front + s| - HISTORY_POINTS..] == s[|s| - HISTORY_POINTS..];
  }

  lemma LastAbsorbs(a: seq<Point>, c: seq<Point>)
    ensures Last(Last(a) + c) == Last(a + c)
  {
    if |a| > HISTORY_POINTS {
      var front, back := a[..|a| - HISTORY_POINTS], a[|a| - HISTORY_POINTS..];
      assert a == front + back;
      FrontIrrelevant(front, back, c);
    }
  }

  lemma FrontIrrelevant(front: seq<Point>, back: seq<Point>, c: seq<Point>)
    requires |back| == HISTORY_POINTS
    ensures Last(front + back) == back && Last(back + c) == Last(front + back + c)
  {
    LastOfSuffix(front, back);
    hide Last;
    LastOfSuffix(front, back + c);
    assert front + (back + c) == front + back + c;
  }

  lemma LastOfSame(a: seq<Point>, b: seq<Point>, c: seq<Point>)
    requires Last(a) == Last(b)
    ensures Last(a + c) == Last(b + c)
  {
    hide Last;
    LastAbsorbs(a, c);
    LastAbsorbs(b, c);
  }

  lemma LastTwice(a: seq<Point>, c: seq<Point>)
    ensures Last(a + Last(c)) == Last(a + c)
  {
    if |c| > HISTORY_POINTS {
      LastOfSuffix(a, c);
      LastOfSuffix(a, Last(c));
    }
  }

  /** The buffer holds the newest of the unsaved points and the record the newest of the durable ones. */
  ghost predicate Agrees(o: Tracked, kept: Kept) {
    Last(o.stored.history) == Last(kept.durable) && o.pending == Last(kept.unsaved)
  }

  lemma AgreesNext(o: Tracked, kept: Kept, t: Tick)
    requires Agrees(o, kept) && Samples(o, t)
    ensures Agrees(Ticked(o, t), KeptAfter(o, kept, Reconciled(t)))
  {
    hide Last, AsStored;
    var buffer, added := Last(o.pending + [Taken(t)]), kept.unsaved + [Taken(t)];
    LastOfSame(Last(kept.unsaved), kept.unsaved, [Taken(t)]) by { LastOfLast(kept.unsaved); }
    if Writes(o, t) {
      LastAsStored(added);
      LastOfSame(o.stored.history, kept.durable, AsStored(buffer));
      LastTwice(kept.durable, AsStored(added));
      LastOfLast(o.stored.history + AsStored(buffer));
      LastOfNone();
    }
  }

  lemma LastAsStored(s: seq<Point>)
    ensures AsStored(Last(s)) == Last(AsStored(s))
  {
  }

  lemma AsStoredAppend(a: seq<Point>, b: seq<Point>)
    ensures AsStored(a + b) == AsStored(a) + AsStored(b)
  {
  }

  lemma LastOfLast(s: seq<Point>)
    ensures Last(Last(s)) == Last(s)
  {
  }

  lemma LastOfNone()
    ensures Last([]) == []
  {
  }

  /** Batched writing agrees, under any pattern of failed writes and restarts: the newest sixty of
      the record followed by the buffer are the newest sixty of everything a write put down followed
      by what was sampled since. A restart loses the points since the last write and nothing else. */
  lemma {:induction false} BatchingKeepsHistory(o: Tracked, events: seq<Event>, k: nat)
    requires k <= |events| && o.pending == []
    ensures Agrees(At(o, events, k), KeptAt(o, events, k))
    ensures var now, kept := At(o, events, k), KeptAt(o, events, k);
            Last(now.stored.history + AsStored(now.pending)) == Last(kept.durable + AsStored(kept.unsaved))
    decreases k
  {
    hide Last, Ticked, Samples, Writes;
    var now, kept := At(o, events, k), KeptAt(o, events, k);
    LastOfNone();
    if k == 0 {
    } else {
      BatchingKeepsHistory(o, events, k - 1);
      var before := At(o, events, k - 1);
      match events[k - 1]
      case Restarted =>
      case Reconciled(t) =>
        if Samples(before, t) { AgreesNext(before, KeptAt(o, events, k - 1), t); } else { Unsampled(before, t); }
    }
    LastAsStored(kept.unsaved);
    LastOfSame(now.stored.history, kept.durable, AsStored(now.pending));
    LastTwice(kept.durable, AsStored(kept.unsaved));
  }

  lemma Unsampled(o: Tracked, t: Tick)
    requires !Samples(o, t)
    ensures Ticked(o, t) == o
  {
  }

  // ---- against writing every point

  /** The points sampled in the first k events. */
  function SampledBy(o: Tracked, events: seq<Event>, k: nat): seq<Point>
    requires k <= |events|
  {
    if k == 0 then []
    else
      var e := events[k - 1];
      SampledBy(o, events, k - 1) + if e.Reconciled? && Samples(At(o, events, k - 1), e.tick) then [Taken(e.tick)]
        else []
  }

  /** The simple version: each point is written at once. */
  function WriteEach(history: seq<Point>, points: seq<Point>): seq<Point> {
    if points == [] then history
    else Last(WriteEach(history, points[..|points| - 1]) + [points[|points| - 1]])
  }

  lemma {:induction false} WriteEachIsLast(history: seq<Point>, points: seq<Point>)
    ensures Last(WriteEach(history, points)) == Last(history + points)
    decreases |points|
  {
    hide Last;
    if points == [] {
      assert history + points == history;
    } else {
      var n := |points| - 1;
      WriteEachIsLast(history, points[..n]);
      LastOfSame(WriteEach(history, points[..n]), history + points[..n], [points[n]]);
      assert history + points[..n] + [points[n]] == history + points;
      LastOfLast(history + points);
    }
  }

  lemma {:induction false} KeptIsEverything(o: Tracked, events: seq<Event>, k: nat)
    requires k <= |events| && forall i | 0 <= i < k :: events[i].Reconciled?
    ensures KeptAt(o, events, k).durable + AsStored(KeptAt(o, events, k).unsaved) == o.stored.history
            + AsStored(SampledBy(o, events, k))
    decreases k
  {
    hide Samples, Writes, Ticked, AsStored;
    assert AsStored([]) == [];
    if k == 0 {
    } else {
      KeptIsEverything(o, events, k - 1);
      var e, before, kept := events[k - 1], SampledBy(o, events, k - 1), KeptAt(o, events, k - 1);
      var point := [Taken(e.tick)];
      AsStoredAppend(before, point);
      AsStoredAppend(kept.unsaved, point);
      assert before + [] == before;
      assert kept.durable + AsStored(kept.unsaved + point) == kept.durable + AsStored(kept.unsaved) + AsStored(point);
      assert o.stored.history + AsStored(before + point) == o.stored.history + AsStored(before) + AsStored(point);
      assert kept.durable + AsStored(kept.unsaved + point) + [] == kept.durable + AsStored(kept.unsaved + point);
    }
  }

  /** Within one process nothing is lost, repeated or reordered: record and buffer together show the
      same sixty points as a record written at every sample. */
  lemma BatchingRefinesWriteEach(o: Tracked, events: seq<Event>, k: nat)
    requires k <= |events| && o.pending == [] && forall i | 0 <= i < k :: events[i].Reconciled?
    ensures var now := At(o, events, k);
            Last(now.stored.history + AsStored(now.pending)) ==
            Last(WriteEach(o.stored.history, AsStored(SampledBy(o, events, k))))
  {
    hide Last;
    BatchingKeepsHistory(o, events, k);
    KeptIsEverything(o, events, k);
    WriteEachIsLast(o.stored.history, AsStored(SampledBy(o, events, k)));
  }

  // ---- how often

  /** Time is at least a second past Go's zero time and does not go back. */
  ghost predicate Timely(events: seq<Event>) {
    && (forall i | 0 <= i < |events| && events[i].Reconciled? :: events[i].tick.now >= SECOND)
    && forall i, j | 0 <= i < j < |events| && events[i].Reconciled? && events[j].Reconciled? ::
      events[i].tick.now <= events[j].tick.now
  }

  lemma {:induction false} RemembersSample(o: Tracked, events: seq<Event>, i: nat, k: nat)
    requires i < k <= |events| && Timely(events) && events[i].Reconciled? && Samples(At(o, events, i), events[i].tick)
    requires forall m | i < m < k :: events[m].Reconciled?
    ensures var s := At(o, events, k).sampledAt;
            s.Some? && exists m | i <= m < k ::
              events[m].Reconciled? && s.value == events[m].tick.now >= events[i].tick.now
    decreases k
  {
    hide TooSoon, Writes, Last;
    assert At(o, events, k) == After(At(o, events, k - 1), events[k - 1]);
    if k > i + 1 {
      RemembersSample(o, events, i, k - 1);
      var before := At(o, events, k - 1);
      if Samples(before, events[k - 1].tick) {
        assert At(o, events, k).sampledAt == Some(events[k - 1].tick.now);
      } else {
        Unsampled(before, events[k - 1].tick);
      }
    } else {
      assert At(o, events, k).sampledAt == Some(events[i].tick.now);
    }
  }

  /** Within one process two samples of a namespace are at least 55 seconds apart, whatever the
      outdated record a reconcile reads says. */
  lemma SamplesSpaced(o: Tracked, events: seq<Event>, i: nat, j: nat)
    requires i < j < |events| && Timely(events) && forall m | i <= m <= j :: events[m].Reconciled?
    requires Samples(At(o, events, i), events[i].tick) && Samples(At(o, events, j), events[j].tick)
    ensures events[j].tick.now - events[i].tick.now >= SAMPLE_EVERY - 5 * SECOND
  {
    hide At, Timely;
    RemembersSample(o, events, i, j);
    var m :| i <= m < j && events[m].Reconciled?
      && At(o, events, j).sampledAt.value == events[m].tick.now >= events[i].tick.now;
    assert events[m].tick.now > 0 by { AfterZero(events, m); }
  }

  lemma AfterZero(events: seq<Event>, m: nat)
    requires Timely(events) && m < |events| && events[m].Reconciled?
    ensures events[m].tick.now > 0
  {
  }

  /** How far the record may lag: a sample taken, on the current record, a flush interval after the
      last write is written with everything before it if the write is accepted, and the record alone
      then shows what writing each sample would show. */
  lemma DueIsWritten(o: Tracked, events: seq<Event>, k: nat)
    requires k < |events| && o.pending == [] && forall i | 0 <= i <= k :: events[i].Reconciled?
    requires var now, t := At(o, events, k), events[k].tick;
             && Samples(now, t) && t.read == now.stored && t.accepted
             && var every := if t.flushEvery > 0 then t.flushEvery else DEFAULT_FLUSH_EVERY;
                t.now - now.stored.lastUpdated >= every - 5 * SECOND
    ensures var next := At(o, events, k + 1);
            && next.pending == [] && next.stored.lastUpdated == Floor(events[k].tick.now)
            && Last(next.stored.history) == Last(WriteEach(o.stored.history, AsStored(SampledBy(o, events, k + 1))))
  {
    hide Last, Samples;
    BatchingRefinesWriteEach(o, events, k + 1);
    var next := At(o, events, k + 1);
    assert next == Ticked(At(o, events, k), events[k].tick);
    assert next.stored.history + AsStored([]) == next.stored.history;
  }

  lemma {:induction false} WriteRemembered(o: Tracked, events: seq<Event>, i: nat, k: nat)
    requires i < k <= |events| && Timely(events) && events[i].Reconciled?
    requires Samples(At(o, events, i), events[i].tick) && Writes(At(o, events, i), events[i].tick)
    ensures var now, t := At(o, events, k), events[i].tick.now;
            now.stored.lastUpdated >= Floor(t) && (now.sampledAt.Some? ==> now.sampledAt.value >= t)
    decreases k
  {
    hide TooSoon, Last;
    assert At(o, events, k) == After(At(o, events, k - 1), events[k - 1]);
    if k == i + 1 {
    } else {
      WriteRemembered(o, events, i, k - 1);
      var before := At(o, events, k - 1);
      match events[k - 1]
      case Restarted =>
      case Reconciled(t) => NextTimes(before, t, events[i].tick.now);
    }
  }

  lemma NextTimes(o: Tracked, t: Tick, since: int)
    requires o.stored.lastUpdated >= Floor(since) && (o.sampledAt.Some? ==> o.sampledAt.value >= since)
             && t.now >= since
    ensures var next := Ticked(o, t);
            next.stored.lastUpdated >= Floor(since) && (next.sampledAt.Some? ==> next.sampledAt.value >= since)
  {
    hide TooSoon, Last, Flushes;
    FloorKeepsWholeBound(t.now, Floor(since));
  }

  /** A new process keeps the distance to what the old one wrote: no sample, on the current record, comes
      within 54 seconds of an earlier one that was written, whatever restarts lie between. */
  lemma SpacedAcrossRestarts(o: Tracked, events: seq<Event>, i: nat, j: nat)
    requires i < j < |events| && Timely(events) && events[i].Reconciled? && events[j].Reconciled?
    requires Samples(At(o, events, i), events[i].tick) && Writes(At(o, events, i), events[i].tick)
    requires Samples(At(o, events, j), events[j].tick) && events[j].tick.read == At(o, events, j).stored
    ensures events[j].tick.now - events[i].tick.now > SAMPLE_EVERY - 6 * SECOND
  {
    hide At, Writes;
    WriteRemembered(o, events, i, j);
    FloorKeepsWholeBound(events[i].tick.now, SECOND);
  }

  // ---- when a sample is taken, and when it is written

  /** A sample is due: usage could be read, and the last sample of this process, or the last write a new
      process finds, is at least 55 seconds old or missing. */
  predicate SampleDue(o: Tracked, t: Tick) {
    var last := if o.sampledAt.Some? then o.sampledAt.value else t.read.lastUpdated;
    t.usable && (last == 0 || t.now - last >= 55 * SECOND)
  }

  /** A write is due: the record was never written, or is at least the flush interval (five minutes where
      none is set) less five seconds old, or the condition or the insights have changed. */
  predicate WriteDue(t: Tick) {
    || t.read.lastUpdated == 0
    || t.now - t.read.lastUpdated >= (if t.flushEvery > 0 then t.flushEvery else 5 * 60 * SECOND) - 5 * SECOND
    || t.conditionChanged
    || t.insights != t.read.insights
  }

  /** A reconcile takes a sample exactly when one is due, and changes nothing otherwise. It writes the
      record exactly when it has sampled, a write is due and accepted, and the record it read is the
      current one; the write takes every buffered point, and without it the point is buffered. */
  lemma ReconcileExactly(o: Tracked, t: Tick)
    ensures var next, writes := Ticked(o, t), SampleDue(o, t) && WriteDue(t) && t.accepted && t.read == o.stored;
            && (!SampleDue(o, t) ==> next == o)
            && (SampleDue(o, t) ==> next.sampledAt == Some(t.now))
            && (!writes ==> next.stored == o.stored)
            && (writes ==> next.stored.lastUpdated == Floor(t.now) && next.stored.insights == t.insights)
            && (writes ==> next.pending == [])
            && (SampleDue(o, t) && !writes ==>
                  next.pending != [] && next.pending[|next.pending| - 1] == Point(t.now, t.cpu, t.memory))
  {
  }

  /** A reconcile later than the last write changes the stored record if and only if it has a due sample,
      a write of it is due and accepted, and the record it read is the current one. */
  lemma RecordChangesIff(o: Tracked, events: seq<Event>, k: nat)
    requires k < |events| && events[k].Reconciled?
    requires At(o, events, k).stored.lastUpdated < Floor(events[k].tick.now)
    ensures var now, t := At(o, events, k), events[k].tick;
            At(o, events, k + 1).stored != now.stored <==>
              SampleDue(now, t) && WriteDue(t) && t.accepted && t.read == now.stored
  {
    hide Ticked, SampleDue, WriteDue;
    assert At(o, events, k + 1) == After(At(o, events, k), events[k]);
    ReconcileExactly(At(o, events, k), events[k].tick);
  }

  /** This event wrote the record. */
  predicate Wrote(o: Tracked, events: seq<Event>, k: nat)
    requires k < |events|
  {
    At(o, events, k + 1).stored != At(o, events, k).stored
  }

  lemma WroteMeans(o: Tracked, events: seq<Event>, k: nat)
    requires k < |events| && Wrote(o, events, k)
    ensures events[k].Reconciled?
    ensures var now, t := At(o, events, k), events[k].tick;
            Samples(now, t) && Writes(now, t) && WriteDue(t) && t.read == now.stored
  {
    hide Last;
    assert At(o, events, k + 1) == After(At(o, events, k), events[k]);
  }

  /** Batching: between two writes, the second of which has nothing but the interval to go by, lies at
      least the flush interval less five seconds, counted from the second the first one stored. */
  lemma WritesSpaced(o: Tracked, events: seq<Event>, i: nat, j: nat)
    requires i < j < |events| && Timely(events) && Wrote(o, events, i) && Wrote(o, events, j)
    requires !events[j].tick.conditionChanged && events[j].tick.insights == events[j].tick.read.insights
    ensures var every := if events[j].tick.flushEvery > 0 then events[j].tick.flushEvery else 5 * 60 * SECOND;
            events[j].tick.now - Floor(events[i].tick.now) >= every - 5 * SECOND
  {
    hide At, Wrote, Samples, Writes;
    WroteMeans(o, events, i);
    WroteMeans(o, events, j);
    WriteRemembered(o, events, i, j);
    FloorKeepsWholeBound(events[i].tick.now, SECOND);
  }
}
