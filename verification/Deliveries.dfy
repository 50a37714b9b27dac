/** Webhook de-duplication: a memory of at most a thousand message IDs, against one that never forgets. */
module Deliveries {
  import opened Common

  const DELIVERIES_KEPT: nat := 1000

  type Seen = map<string, int>

  function Live(seen: Seen, now: int): Seen { map id | id in seen && now - seen[id] < HOUR :: seen[id] }

  predicate Known(seen: Seen, id: string, now: int) { id in seen && now - seen[id] < HOUR }

  /** What making room may leave: everything below the limit; otherwise live IDs only, and of those
      all that fit beside a new one, the choice being arbitrary. */
  ghost predicate Room(seen: Seen, now: int, kept: Seen) {
    if |seen| < DELIVERIES_KEPT then kept == seen
    else
      && (forall id | id in kept :: Known(seen, id, now) && kept[id] == seen[id])
      && (|Live(seen, now)| < DELIVERIES_KEPT ==> kept == Live(seen, now))
      && (|Live(seen, now)| >= DELIVERIES_KEPT ==> |kept| == DELIVERIES_KEPT - 1)
      && |kept| < DELIVERIES_KEPT
  }

  /** One delivery: whether it is answered as new, and the memory afterwards. */
  ghost predicate Delivered(seen: Seen, id: string, now: int, isNew: bool, after: Seen) {
    && isNew == !Known(seen, id, now)
    && (if isNew then exists kept :: Room(seen, now, kept) && after == kept[id := now] else after == seen)
  }

  class RecentDeliveries {
    var seen: Seen

    constructor ()
      ensures seen == map[]
    {
      seen := map[];
    }

    method First(id: string, now: int) returns (isNew: bool)
      modifies this
      ensures Delivered(old(seen), id, now, isNew, seen)
    {
      if id in seen && now - seen[id] < HOUR { return false; }
      MakeRoom(now);
      seen := seen[id := now];
      return true;
    }

    method MakeRoom(now: int)
      modifies this
      ensures Room(old(seen), now, seen)
    {
      if |seen| < DELIVERIES_KEPT { return; }
      DropExpired(now);
      ghost var live := seen;
      while |seen| >= DELIVERIES_KEPT
        invariant seen.Keys <= live.Keys && forall id | id in seen :: seen[id] == live[id]
        invariant |live| < DELIVERIES_KEPT ==> seen == live
        invariant |live| >= DELIVERIES_KEPT ==> |seen| >= DELIVERIES_KEPT - 1
        decreases |seen|
      {
        var id :| id in seen;
        seen := seen - {id};
      }
    }

    method DropExpired(now: int)
      modifies this
      ensures seen == Live(old(seen), now)
    {
      var rest := seen.Keys;
      while rest != {}
        invariant rest <= old(seen).Keys
        invariant forall id :: id in seen <==> id in old(seen) && (id in rest || now - old(seen)[id] < HOUR)
        invariant forall id | id in seen :: seen[id] == old(seen)[id]
        decreases |rest|
      {
        var id :| id in rest;
        rest := rest - {id};
        if now - seen[id] >= HOUR { seen := seen - {id}; }
      }
    }
  }

  // ---- against a memory that never forgets

  /** The same rule with every ID kept. */
  function Remember(all: Seen, id: string, now: int): Seen { if Known(all, id, now) then all else all[id := now] }

  /** The bounded memory holds only what the full one holds, and every ID still live in it. */
  ghost predicate Agrees(seen: Seen, all: Seen, now: int) {
    && (forall id | id in seen :: id in all && seen[id] == all[id])
    && (forall id | Known(all, id, now) :: id in seen)
  }

  /** While they agree, a delivery is answered the same. */
  lemma SameAnswer(seen: Seen, all: Seen, id: string, now: int)
    requires Agrees(seen, all, now)
    ensures Known(seen, id, now) == Known(all, id, now)
  {
  }

  lemma AgreesLater(seen: Seen, all: Seen, now: int, later: int)
    requires Agrees(seen, all, now) && now <= later
    ensures Agrees(seen, all, later)
  {
    forall id | Known(all, id, later) ensures id in seen { assert Known(all, id, now); }
  }

  lemma LiveAgree(seen: Seen, all: Seen, now: int)
    requires Agrees(seen, all, now)
    ensures Live(seen, now) == Live(all, now)
  {
    forall id ensures id in Live(seen, now) <==> id in Live(all, now) { SameAnswer(seen, all, id, now); }
  }

  lemma {:induction false} FewerKeys(a: Seen, b: Seen)
    requires a.Keys <= b.Keys
    ensures |a| <= |b|
  {
    assert |a.Keys| == |a| && |b.Keys| == |b|;
    SubsetSize(a.Keys, b.Keys);
  }

  /** Recording a new ID keeps the two memories in agreement exactly when fewer than a thousand IDs
      are live: then nothing live is dropped, and otherwise something live always is. */
  lemma AgreementKeptIff(seen: Seen, all: Seen, id: string, now: int, after: Seen)
    requires Agrees(seen, all, now) && !Known(all, id, now) && |seen| <= 1000
    requires Delivered(seen, id, now, true, after)
    ensures Agrees(after, Remember(all, id, now), now) <==> |Live(all, now)| < 1000
  {
    LiveAgree(seen, all, now);
    var kept: Seen :| Room(seen, now, kept) && after == kept[id := now];
    var live := Live(all, now);
    if |live| < DELIVERIES_KEPT {
      forall x | Known(all, x, now) ensures x in after {
        assert x in live && Known(seen, x, now);
      }
    } else {
      FewerKeys(live, seen);
      if live.Keys <= kept.Keys { FewerKeys(live, kept); }
      var victim :| victim in live && victim !in kept;
      assert victim != id && Known(Remember(all, id, now), victim, now) && victim !in after;
    }
  }

  /** Once a new ID comes while a thousand are live, some live ID is forgotten: delivered again at that
      instant it is answered as new. */
  lemma FloodForgets(seen: Seen, all: Seen, id: string, now: int, after: Seen) returns (victim: string)
    requires Agrees(seen, all, now) && !Known(all, id, now) && |seen| <= 1000
    requires Delivered(seen, id, now, true, after) && |Live(all, now)| >= 1000
    ensures Known(Remember(all, id, now), victim, now)
    ensures forall isNew, next | Delivered(after, victim, now, isNew, next) :: isNew
  {
    hide Room;
    AgreementKeptIff(seen, all, id, now, after);
    var kept: Seen :| Room(seen, now, kept) && after == kept[id := now];
    assert forall x | x in after :: x in Remember(all, id, now) && after[x] == Remember(all, id, now)[x] by {
      KeptIsSeen(seen, now, kept);
    }
    victim :| Known(Remember(all, id, now), victim, now) && victim !in after;
  }

  lemma KeptIsSeen(seen: Seen, now: int, kept: Seen)
    requires Room(seen, now, kept)
    ensures forall x | x in kept :: x in seen && kept[x] == seen[x]
  {
  }

  lemma SizeBounded(seen: Seen, id: string, now: int, isNew: bool, after: Seen)
    requires |seen| <= DELIVERIES_KEPT && Delivered(seen, id, now, isNew, after)
    ensures |after| <= DELIVERIES_KEPT
  {
    if isNew {
      var kept: Seen :| Room(seen, now, kept) && after == kept[id := now];
      assert after.Keys == kept.Keys + {id};
      assert |after.Keys| == |after| && |kept.Keys| == |kept|;
    }
  }

  // ---- runs

  datatype Delivery = Delivery(id: string, at: int, isNew: bool)

  /** Any run from an empty memory, with whatever choices evictions make. */
  ghost predicate Run(memories: seq<Seen>, calls: seq<Delivery>) {
    && |memories| == |calls| + 1 && memories[0] == map[]
    && (forall k | 0 <= k < |calls| ::
      Delivered(memories[k], calls[k].id, calls[k].at, calls[k].isNew, memories[k + 1]))
    && forall i, j | 0 <= i < j < |calls| :: calls[i].at <= calls[j].at
  }

  function Full(calls: seq<Delivery>, k: nat): Seen
    requires k <= |calls|
  {
    if k == 0 then map[] else Remember(Full(calls, k - 1), calls[k - 1].id, calls[k - 1].at)
  }

  /** Memory stays bounded under any flood. */
  lemma {:induction false} AtMostAThousand(memories: seq<Seen>, calls: seq<Delivery>, k: nat)
    requires Run(memories, calls) && k <= |calls|
    ensures |memories[k]| <= 1000
    decreases k
  {
    hide Delivered;
    if k == 0 {
    } else {
      AtMostAThousand(memories, calls, k - 1);
      var c := calls[k - 1];
      assert Delivered(memories[k - 1], c.id, c.at, c.isNew, memories[k - 1 + 1]);
      SizeBounded(memories[k - 1], c.id, c.at, c.isNew, memories[k]);
    }
  }

  /** No call before k recorded a new ID while a thousand were live. */
  ghost predicate Unflooded(calls: seq<Delivery>, k: nat)
    requires k <= |calls|
  {
    forall i | 0 <= i < k ::
      Known(Full(calls, i), calls[i].id, calls[i].at) || |Live(Full(calls, i), calls[i].at)| < DELIVERIES_KEPT
  }

  lemma {:induction false} AgreesThroughout(memories: seq<Seen>, calls: seq<Delivery>, k: nat)
    requires Run(memories, calls) && k < |calls| && Unflooded(calls, k)
    ensures Agrees(memories[k], Full(calls, k), calls[k].at)
    decreases k
  {
    hide Delivered, Agrees, Known;
    if k == 0 {
      NothingAgrees(calls[0].at);
    } else {
      AgreesThroughout(memories, calls, k - 1);
      AtMostAThousand(memories, calls, k - 1);
      var c, before, all := calls[k - 1], memories[k - 1], Full(calls, k - 1);
      assert Delivered(before, c.id, c.at, c.isNew, memories[k - 1 + 1]);
      SameAnswer(before, all, c.id, c.at);
      DeliveredAnswer(before, c.id, c.at, c.isNew, memories[k]);
      if c.isNew { AgreementKeptIff(before, all, c.id, c.at, memories[k]); }
      AgreesLater(memories[k], Full(calls, k), c.at, calls[k].at);
    }
  }

  lemma NothingAgrees(now: int)
    ensures Agrees(map[], map[], now)
  {
  }

  lemma DeliveredAnswer(seen: Seen, id: string, now: int, isNew: bool, after: Seen)
    requires Delivered(seen, id, now, isNew, after)
    ensures isNew == !Known(seen, id, now) && (!isNew ==> after == seen)
  {
  }

  /** While fewer than a thousand distinct IDs are live whenever a new one comes, every delivery is
      answered as an unbounded one-hour log would answer it. */
  lemma AnswersAsUnbounded(memories: seq<Seen>, calls: seq<Delivery>, k: nat)
    requires Run(memories, calls) && k < |calls| && Unflooded(calls, k)
    ensures calls[k].isNew == !Known(Full(calls, k), calls[k].id, calls[k].at)
  {
    hide Agrees, Known;
    AgreesThroughout(memories, calls, k);
    SameAnswer(memories[k], Full(calls, k), calls[k].id, calls[k].at);
    DeliveredAnswer(memories[k], calls[k].id, calls[k].at, calls[k].isNew, memories[k + 1]);
  }

  // ---- by the times of the deliveries

  /** Delivery i was new to a memory that never forgets. */
  predicate FirstInAnHour(calls: seq<Delivery>, i: nat)
    requires i < |calls|
  {
    !Known(Full(calls, i), calls[i].id, calls[i].at)
  }

  /** An earlier delivery of the ID, less than an hour before this time, was new. */
  ghost predicate NewWithinHour(calls: seq<Delivery>, k: nat, id: string, now: int)
    requires k <= |calls|
  {
    exists i | 0 <= i < k :: calls[i].id == id && FirstInAnHour(calls, i) && now - calls[i].at < 3600 * SECOND
  }

  lemma {:induction false} FullByTimes(calls: seq<Delivery>, k: nat, id: string, now: int)
    requires k <= |calls|
    requires forall i, j | 0 <= i < j < k :: calls[i].at <= calls[j].at
    requires forall i | 0 <= i < k :: calls[i].at <= now
    ensures Known(Full(calls, k), id, now) <==> NewWithinHour(calls, k, id, now)
    decreases k
  {
    if k == 0 {
    } else {
      FullByTimes(calls, k - 1, id, now);
      var last := calls[k - 1];
      assert NewWithinHour(calls, k, id, now) <==>
               || NewWithinHour(calls, k - 1, id, now)
               || (last.id == id && FirstInAnHour(calls, k - 1) && now - last.at < 3600 * SECOND);
    }
  }

  /** A delivery is answered as new if and only if no delivery of the same ID within the hour before it
      was, as long as fewer than a thousand IDs are live whenever a new one comes. */
  lemma NewIffNotWithinHour(memories: seq<Seen>, calls: seq<Delivery>, k: nat)
    requires Run(memories, calls) && k < |calls| && Unflooded(calls, k)
    ensures calls[k].isNew <==>
            !exists i | 0 <= i < k ::
              calls[i].id == calls[k].id && calls[i].isNew && calls[k].at - calls[i].at < 3600 * SECOND
  {
    hide Known, Delivered;
    FullByTimes(calls, k, calls[k].id, calls[k].at);
    AnswersAsUnbounded(memories, calls, k);
    forall i | 0 <= i < k ensures calls[i].isNew == FirstInAnHour(calls, i) { AnswersAsUnbounded(memories, calls, i); }
  }
}
