/** Replicas racing to generate one Secret: whoever returns, returns what the store holds. */
module SecretRace {
  import opened Common
  import opened VersionedStore

  /** Secret data, with the verdict of the caller's validity test. */
  datatype Data = Data(content: string, valid: bool)

  /** Where a replica is in loadOrCreateSecret: before its read, before its write with what it found
      and generated, before the second read after a lost create, or done. */
  datatype Replica = Starting
                   | Generated(found: Object<Data>, data: Data)
                   | Overtaken
                   | Returned(result: Data)
                   | Failed

  /** One API call of a replica. `fails` is any failure other than a missing object, an existing one
      or a changed version; `generated` is what generate() gives, if anything. */
  datatype Call = Call(fails: bool, generated: Option<Data>)

  /** The generator's data passes the test. */
  predicate Sound(call: Call) { call.generated.Some? ==> call.generated.value.valid }

  function AfterCall(store: Store<Data>, r: Replica, call: Call): (Store<Data>, Replica) {
    match r
    case Starting =>
      if call.fails then (store, Failed)
      else if store.held.Present? && store.held.data.valid then (store, Returned(store.held.data))
      else if call.generated.None? then (store, Failed)
      else (store, Generated(store.held, call.generated.value))
    case Generated(Present(_, version), data) =>
      if !call.fails && CanUpdate(store, version) then (Put(store, data), Returned(data)) else (store, Failed)
    case Generated(Absent, data) =>
      if call.fails then (store, Failed)
      else if CanCreate(store) then (Put(store, data), Returned(data))
      else (store, Overtaken)
    case Overtaken =>
      if call.fails || store.held.Absent? then (store, Failed) else (store, Returned(store.held.data))
    case Returned(_) => (store, r)
    case Failed => (store, r)
  }

  class SecretLoader {
    var at: Replica

    constructor ()
      ensures at == Starting
    {
      at := Starting;
    }

    /** Reads the Secret; returns its data, or generates some to write. */
    method Read(api: ApiServer<Data>, call: Call)
      requires at == Starting
      modifies this
      ensures (api.store, at) == AfterCall(old(api.store), old(at), call)
    {
      if call.fails { at := Failed; return; }
      var found := api.Get();
      if found.Present? && found.data.valid { at := Returned(found.data); return; }
      at := if call.generated.None? then Failed else Generated(found, call.generated.value);
    }

    /** Repairs an unusable Secret in place, or creates a missing one. */
    method Write(api: ApiServer<Data>, call: Call)
      requires at.Generated?
      modifies this, api
      ensures (api.store, at) == AfterCall(old(api.store), old(at), call)
    {
      var found, data := at.found, at.data;
      if call.fails { at := Failed; return; }
      if found.Present? {
        var updated := api.Update(data, found.version);
        at := if updated then Returned(data) else Failed;
      } else {
        var created := api.Create(data);
        at := if created then Returned(data) else Overtaken;
      }
    }

    /** After a lost create: takes over what the winner stored. */
    method Reread(api: ApiServer<Data>, call: Call)
      requires at == Overtaken
      modifies this
      ensures (api.store, at) == AfterCall(old(api.store), old(at), call)
    {
      if call.fails { at := Failed; return; }
      var found := api.Get();
      at := if found.Absent? then Failed else Returned(found.data);
    }
  }

  // ---- any number of replicas, in any order

  datatype World = World(store: Store<Data>, replicas: map<nat, Replica>)

  /** A new replica starts, or one makes its next call. */
  datatype Step = Join(who: nat) | Act(who: nat, call: Call)

  function Next(w: World, s: Step): World {
    match s
    case Join(who) => if who in w.replicas then w else w.(replicas := w.replicas[who := Starting])
    case Act(who, call) =>
      if who !in w.replicas then w
      else var (store, r) := AfterCall(w.store, w.replicas[who], call); World(store, w.replicas[who := r])
  }

  ghost predicate Run(worlds: seq<World>, steps: seq<Step>) {
    && |worlds| == |steps| + 1
    && worlds[0].replicas == map[] && Fits(worlds[0].store)
    && forall k | 0 <= k < |steps| ::
      (steps[k].Act? ==> Sound(steps[k].call)) && worlds[k + 1] == Next(worlds[k], steps[k])
  }

  predicate Usable(store: Store<Data>) { store.held.Present? && store.held.data.valid }

  /** What a replica may hold, given the store. Once the Secret is usable nobody can write it again. */
  predicate Consistent(store: Store<Data>, r: Replica) {
    match r
    case Generated(found, data) =>
      data.valid
      && (found.Present? ==> found.version < store.next)
      && (if Usable(store) then found.Present? ==> found.version != store.held.version
        else found.Present? <==> store.held.Present?)
    case Overtaken => Usable(store)
    case Returned(data) => Usable(store) && data == store.held.data
    case Starting => true
    case Failed => true
  }

  ghost predicate Agreement(w: World) {
    Fits(w.store) && forall who | who in w.replicas :: Consistent(w.store, w.replicas[who])
  }

  /** A usable Secret is never replaced. */
  predicate Kept(before: Store<Data>, after: Store<Data>) { Usable(before) ==> after == before }

  lemma StepAgrees(w: World, s: Step)
    requires Agreement(w) && (s.Act? ==> Sound(s.call))
    ensures Agreement(Next(w, s)) && Kept(w.store, Next(w, s).store)
  {
    if s.Act? && s.who in w.replicas {
      assert Consistent(w.store, w.replicas[s.who]);
      var n := Next(w, s);
      forall who | who in n.replicas ensures Consistent(n.store, n.replicas[who]) {
        if who != s.who { assert Consistent(w.store, w.replicas[who]); }
      }
    }
  }

  lemma {:induction false} AlwaysAgree(worlds: seq<World>, steps: seq<Step>, k: nat)
    requires Run(worlds, steps) && k <= |steps|
    ensures Agreement(worlds[k])
    decreases k
  {
    hide Next, Consistent;
    if k == 0 {
    } else {
      AlwaysAgree(worlds, steps, k - 1);
      assert worlds[k - 1 + 1] == Next(worlds[k - 1], steps[k - 1]);
      StepAgrees(worlds[k - 1], steps[k - 1]);
    }
  }

  lemma {:induction false} UsableForGood(worlds: seq<World>, steps: seq<Step>, k: nat, m: nat)
    requires Run(worlds, steps) && k <= m <= |steps| && Usable(worlds[k].store)
    ensures worlds[m].store == worlds[k].store
    decreases m
  {
    hide Next, Agreement;
    if k == m {
    } else {
      UsableForGood(worlds, steps, k, m - 1);
      AlwaysAgree(worlds, steps, m - 1);
      assert worlds[m - 1 + 1] == Next(worlds[m - 1], steps[m - 1]);
      StepAgrees(worlds[m - 1], steps[m - 1]);
    }
  }

  /** Whatever the Secret was at first, and however any number of replicas interleave: one that returns
      successfully returns valid data, and the store holds exactly that data from then on. */
  lemma SecretAgreement(worlds: seq<World>, steps: seq<Step>, k: nat, m: nat, who: nat)
    requires Run(worlds, steps) && k <= m <= |steps|
    requires who in worlds[k].replicas && worlds[k].replicas[who].Returned?
    ensures var data := worlds[k].replicas[who].result;
            data.valid && worlds[m].store.held.Present? && worlds[m].store.held.data == data
  {
    AlwaysAgree(worlds, steps, k);
    assert Consistent(worlds[k].store, worlds[k].replicas[who]);
    UsableForGood(worlds, steps, k, m);
  }

  /** So any two of them agree, whenever each returned. */
  lemma ReplicasAgree(worlds: seq<World>, steps: seq<Step>, k: nat, m: nat, a: nat, b: nat)
    requires Run(worlds, steps) && k <= |steps| && m <= |steps|
    requires a in worlds[k].replicas && worlds[k].replicas[a].Returned?
    requires b in worlds[m].replicas && worlds[m].replicas[b].Returned?
    ensures worlds[k].replicas[a].result == worlds[m].replicas[b].result
  {
    hide Run;
    var last := if k <= m then m else k;
    SecretAgreement(worlds, steps, k, last, a);
    SecretAgreement(worlds, steps, m, last, b);
  }

  // ---- the race alone fails nobody

  /** Every call goes through and every generator works. */
  ghost predicate Unfailing(steps: seq<Step>) {
    forall k | 0 <= k < |steps| && steps[k].Act? :: !steps[k].call.fails && steps[k].call.generated.Some?
  }

  /** The Secret is missing or usable, so replicas only ever create it or find it. */
  ghost predicate OnlyCreating(w: World) {
    && (w.store.held.Present? ==> w.store.held.data.valid)
    && forall who | who in w.replicas ::
      w.replicas[who] != Failed && (w.replicas[who].Generated? ==> w.replicas[who].found.Absent?)
  }

  lemma StepKeepsCreating(w: World, s: Step)
    requires Agreement(w) && OnlyCreating(w)
    requires s.Act? ==> Sound(s.call) && !s.call.fails && s.call.generated.Some?
    ensures OnlyCreating(Next(w, s))
  {
    if s.Act? && s.who in w.replicas {
      assert Consistent(w.store, w.replicas[s.who]);
    }
  }

  /** Starting from a missing or usable Secret, no interleaving makes a replica fail that the API itself
      does not fail: every loser of the race gets the winner's data. */
  lemma {:induction false} RaceFailsNobody(worlds: seq<World>, steps: seq<Step>, k: nat)
    requires Run(worlds, steps) && Unfailing(steps) && Startable(worlds[0].store.held) && k <= |steps|
    ensures OnlyCreating(worlds[k])
    decreases k
  {
    hide Next, Agreement;
    if k == 0 {
    } else {
      RaceFailsNobody(worlds, steps, k - 1);
      AlwaysAgree(worlds, steps, k - 1);
      assert worlds[k - 1 + 1] == Next(worlds[k - 1], steps[k - 1]);
      StepKeepsCreating(worlds[k - 1], steps[k - 1]);
    }
  }

  predicate Startable(first: Object<Data>) { first.Absent? || first.data.valid }

  ghost predicate Unharmed(worlds: seq<World>) {
    forall k, who | 0 <= k < |worlds| && who in worlds[k].replicas :: worlds[k].replicas[who] != Failed
  }

  /** No run whose calls all go through, from this Secret, makes a replica fail. */
  ghost predicate NobodyFails(first: Object<Data>) {
    forall worlds: seq<World>, steps: seq<Step> |
      Run(worlds, steps) && Unfailing(steps) && StartsFrom(worlds, first) :: Unharmed(worlds)
  }

  predicate StartsFrom(worlds: seq<World>, first: Object<Data>) { worlds != [] && worlds[0].store.held == first }

  /** The calls of the race to repair an unusable Secret: both read it, and both write. */
  function RepairRace(good: Data): seq<Step> {
    var call := Call(false, Some(good));
    [Join(0), Join(1), Act(0, call), Act(1, call), Act(0, call), Act(1, call)]
  }

  /** Of two replicas repairing the same unusable Secret, whatever it holds, the second fails although
      no call of either does. */
  lemma RepairLoserFails(bad: Data, version: nat, good: Data) returns (worlds: seq<World>)
    requires !bad.valid && good.valid
    ensures Run(worlds, RepairRace(good)) && Unfailing(RepairRace(good))
    ensures worlds[0].store.held == Present(bad, version)
    ensures 0 in worlds[6].replicas && worlds[6].replicas[0] == Returned(good)
    ensures 1 in worlds[6].replicas && worlds[6].replicas[1] == Failed
  {
    hide AfterCall;
    var steps := RepairRace(good);
    var found := Present(bad, version);
    var first := Store(found, version + 1);
    var repaired := Put(first, good);
    var read := Generated(found, good);
    RepairCalls(first, repaired, steps[2].call, bad, version, good);
    worlds := [World(first, map[]),
               World(first, map[0 := Starting]),
               World(first, map[0 := Starting, 1 := Starting]),
               World(first, map[0 := read, 1 := Starting]),
               World(first, map[0 := read, 1 := read]),
               World(repaired, map[0 := Returned(good), 1 := read]),
               World(repaired, map[0 := Returned(good), 1 := Failed])];
    assert forall k | 0 <= k < 6 :: worlds[k + 1] == Next(worlds[k], steps[k]);
  }

  lemma RepairCalls(first: Store<Data>, repaired: Store<Data>, call: Call, bad: Data, version: nat, good: Data)
    requires !bad.valid && call == Call(false, Some(good))
    requires first == Store(Present(bad, version), version + 1) && repaired == Put(first, good)
    ensures var read := Generated(first.held, good);
            && AfterCall(first, Starting, call) == (first, read)
            && AfterCall(first, read, call) == (repaired, Returned(good))
            && AfterCall(repaired, read, call) == (repaired, Failed)
  {
  }

  /** The race alone fails nobody if and only if the Secret is missing or usable at first. */
  lemma NobodyFailsIff(first: Object<Data>)
    ensures NobodyFails(first) <==> first.Absent? || first.data.valid
  {
    hide Run, Unfailing;
    if Startable(first) {
      forall worlds: seq<World>, steps: seq<Step> | Run(worlds, steps) && Unfailing(steps) && StartsFrom(worlds, first)
        ensures Unharmed(worlds)
      {
        AllUnharmed(worlds, steps);
      }
    } else {
      var good := Data("", true);
      var worlds := RepairLoserFails(first.data, first.version, good);
      Lengths(worlds, RepairRace(good));
      assert !Unharmed(worlds) && StartsFrom(worlds, first);
    }
  }

  lemma Lengths(worlds: seq<World>, steps: seq<Step>)
    requires Run(worlds, steps)
    ensures |worlds| == |steps| + 1
  {
  }

  lemma AllUnharmed(worlds: seq<World>, steps: seq<Step>)
    requires Run(worlds, steps) && Unfailing(steps) && Startable(worlds[0].store.held)
    ensures Unharmed(worlds)
  {
    hide Run;
    Lengths(worlds, steps);
    forall k, who | 0 <= k < |worlds| && who in worlds[k].replicas ensures worlds[k].replicas[who] != Failed {
      RaceFailsNobody(worlds, steps, k);
    }
  }

  // ---- a replica gets there

  /** A replica that reads a usable Secret returns what the store holds, whatever it would generate. */
  lemma UsableIsReturned(worlds: seq<World>, steps: seq<Step>, k: nat, who: nat)
    requires Run(worlds, steps) && k < |steps| && steps[k].Act? && steps[k].who == who && !steps[k].call.fails
    requires who in worlds[k].replicas && worlds[k].replicas[who] == Starting
    requires worlds[k].store.held.Present? && worlds[k].store.held.data.valid
    ensures who in worlds[k + 1].replicas && worlds[k + 1].replicas[who] == Returned(worlds[k].store.held.data)
    ensures worlds[k + 1].store == worlds[k].store
  {
    assert worlds[k + 1] == Next(worlds[k], steps[k]);
  }

  /** How many calls a replica may still make. */
  function CallsLeft(r: Replica): nat {
    match r
    case Starting => 3
    case Generated(_, _) => 2
    case Overtaken => 1
    case Returned(_) => 0
    case Failed => 0
  }

  /** Each call brings a replica nearer its end, so it ends after at most three. */
  lemma EachCallProgresses(store: Store<Data>, r: Replica, call: Call)
    requires !r.Returned? && !r.Failed?
    ensures CallsLeft(AfterCall(store, r, call).1) < CallsLeft(r)
  {
  }

  /** A call that fails by itself ends the replica's attempt and leaves the Secret alone. */
  lemma OwnFailureEnds(worlds: seq<World>, steps: seq<Step>, k: nat, who: nat)
    requires Run(worlds, steps) && k < |steps| && steps[k].Act? && steps[k].who == who && steps[k].call.fails
    requires who in worlds[k].replicas && !worlds[k].replicas[who].Returned?
    ensures who in worlds[k + 1].replicas && worlds[k + 1].replicas[who] == Failed
    ensures worlds[k + 1].store == worlds[k].store
  {
    assert worlds[k + 1] == Next(worlds[k], steps[k]);
  }
}
