/** Which targets a scaling group moves, and in which stages. */
module Stages {
  import opened Common

  /** The namespaces of a group: those its spec lists and, under a selector, those selected. */
  function Members(namespaces: seq<string>, hasSelector: bool, selected: seq<string>): (r: seq<string>)
    ensures Ascending(r)
    ensures forall ns :: ns in r <==> ns in namespaces || (hasSelector && ns in selected)
  {
    var all := namespaces + (if hasSelector then selected else []);
    SortStringsKeeps(all);
    Compact(SortStrings(all))
  }

  /** Order and repetition in the spec or the selection never show: equal sets, equal members. */
  lemma MembersCanonical(a: seq<string>, s: bool, b: seq<string>, a': seq<string>, s': bool, b': seq<string>)
    requires forall ns :: (ns in a || (s && ns in b)) <==> (ns in a' || (s' && ns in b'))
    ensures Members(a, s, b) == Members(a', s', b')
  {
    AscendingUnique(Members(a, s, b), Members(a', s', b'));
  }

  predicate IsCloud(target: string) { "ext:" <= target }

  /** The targets a sequence entry contributes: cloud references and managed namespaces. */
  function InStage(entry: seq<string>, managed: seq<string>): (r: seq<string>)
    ensures forall t :: t in r <==> t in entry && (IsCloud(t) || t in managed)
  {
    if entry == [] then [] else
      assert entry == [entry[0]] + entry[1..];
      (if IsCloud(entry[0]) || entry[0] in managed then [entry[0]] else []) + InStage(entry[1..], managed)
  }

  function FromSequence(sequence: seq<seq<string>>, managed: seq<string>): seq<seq<string>> {
    if sequence == [] then [] else
      var stage := InStage(sequence[0], managed);
      (if stage == [] then [] else [stage]) + FromSequence(sequence[1..], managed)
  }

  function Flatten(stages: seq<seq<string>>): seq<string> {
    if stages == [] then [] else stages[0] + Flatten(stages[1..])
  }

  /** The stages in scale-up order. */
  function UpStages(sequence: seq<seq<string>>, managed: seq<string>): seq<seq<string>> {
    if sequence == [] then [managed] else
      var named := FromSequence(sequence, managed);
      var missing := Without(managed, Flatten(named));
      if missing == [] then named else named + [missing]
  }

  function Reverse<T>(s: seq<T>): (r: seq<T>)
    ensures |r| == |s|
    ensures forall i | 0 <= i < |s| :: r[i] == s[|s| - 1 - i]
  {
    if s == [] then [] else Reverse(s[1..]) + [s[0]]
  }

  function StagesFor(sequence: seq<seq<string>>, managed: seq<string>, active: bool): seq<seq<string>> {
    var up := UpStages(sequence, managed);
    if active then up else Reverse(up)
  }

  // ---- the loops of getScalingStages

  method GetScalingStages(sequence: seq<seq<string>>, members: seq<string>, skip: seq<string>, active: bool)
    returns (stages: seq<seq<string>>)
    ensures stages == StagesFor(sequence, Without(members, skip), active)
    ensures !active ==> var up := UpStages(sequence, Without(members, skip));
                        |stages| == |up| && forall i | 0 <= i < |up| :: stages[i] == up[|up| - 1 - i]
  {
    hide Flatten, FromSequence, Without, Reverse;
    var managed := Unskipped(members, skip);
    if sequence != [] {
      stages := NamedStages(sequence, managed);
      var missing := LeftOut(managed, stages);
      if missing != [] { stages := stages + [missing]; }
    } else {
      stages := [managed];
    }
    if !active {
      stages := ReverseBySwaps(stages);
    }
  }

  method Unskipped(members: seq<string>, skip: seq<string>) returns (managed: seq<string>)
    ensures managed == Without(members, skip)
  {
    managed := [];
    for i := 0 to |members|
      invariant managed == Without(members[..i], skip)
    {
      assert members[..i + 1] == members[..i] + [members[i]];
      WithoutAppend(members[..i], members[i], skip);
      if members[i] !in skip { managed := managed + [members[i]]; }
    }
    assert members[..|members|] == members;
  }

  method NamedStages(sequence: seq<seq<string>>, managed: seq<string>) returns (stages: seq<seq<string>>)
    ensures stages == FromSequence(sequence, managed)
  {
    stages := [];
    for i := 0 to |sequence|
      invariant stages == FromSequence(sequence[..i], managed)
    {
      var stage := StageOf(sequence[i], managed);
      assert sequence[..i + 1] == sequence[..i] + [sequence[i]];
      FromSequenceAppend(sequence[..i], sequence[i], managed);
      if stage != [] { stages := stages + [stage]; }
    }
    assert sequence[..|sequence|] == sequence;
  }

  method LeftOut(managed: seq<string>, stages: seq<seq<string>>) returns (missing: seq<string>)
    ensures missing == Without(managed, Flatten(stages))
  {
    missing := [];
    for i := 0 to |managed|
      invariant missing == Without(managed[..i], Flatten(stages))
    {
      assert managed[..i + 1] == managed[..i] + [managed[i]];
      WithoutAppend(managed[..i], managed[i], Flatten(stages));
      var found := false;
      for k := 0 to |stages|
        invariant found <==> exists s | 0 <= s < k :: managed[i] in stages[s]
      {
        if managed[i] in stages[k] { found := true; }
        if found { break; }
      }
      FlattenHolds(stages, managed[i]);
      if !found { missing := missing + [managed[i]]; }
    }
    assert managed[..|managed|] == managed;
  }

  method StageOf(entry: seq<string>, managed: seq<string>) returns (stage: seq<string>)
    ensures stage == InStage(entry, managed)
  {
    hide InStage;
    stage := [];
    InStageAppend([], "", managed);
    for i := 0 to |entry|
      invariant stage == InStage(entry[..i], managed)
    {
      InStageAppend(entry[..i], entry[i], managed);
      assert entry[..i + 1] == entry[..i] + [entry[i]];
      if IsCloud(entry[i]) || entry[i] in managed { stage := stage + [entry[i]]; }
    }
    assert entry[..|entry|] == entry;
  }

  lemma {:induction false} InStageAppend(entry: seq<string>, t: string, managed: seq<string>)
    ensures InStage([], managed) == []
    ensures InStage(entry + [t], managed) == InStage(entry, managed) + (if IsCloud(t) || t in managed then [t] else [])
  {
    hide IsCloud;
    if entry == [] {
      assert entry + [t] == [t] && [t][1..] == [];
    } else {
      InStageAppend(entry[1..], t, managed);
      assert (entry + [t])[1..] == entry[1..] + [t] && (entry + [t])[0] == entry[0];
    }
  }

  method ReverseBySwaps(s: seq<seq<string>>) returns (r: seq<seq<string>>)
    ensures r == Reverse(s)
  {
    r := s;
    var i, j := 0, |s| - 1;
    while i < j
      invariant 0 <= i && j == |s| - 1 - i && i <= j + 1
      invariant |r| == |s|
      invariant forall k | i <= k <= j :: r[k] == s[k]
      invariant forall k | 0 <= k < i :: r[k] == s[|s| - 1 - k] && r[|s| - 1 - k] == s[k]
    {
      r := r[i := r[j]][j := r[i]];
      i, j := i + 1, j - 1;
    }
    forall k | 0 <= k < |s| ensures r[k] == s[|s| - 1 - k] {
      if k >= i { assert k > j ==> r[|s| - 1 - (|s| - 1 - k)] == s[|s| - 1 - k]; }
    }
    assert r == Reverse(s);
  }

  lemma {:induction false} FromSequenceAppend(q: seq<seq<string>>, e: seq<string>, managed: seq<string>)
    ensures FromSequence(q + [e], managed) == FromSequence(q, managed)
            + (if InStage(e, managed) == [] then [] else [InStage(e, managed)])
  {
    if q == [] {
      assert q + [e] == [e];
    } else {
      FromSequenceAppend(q[1..], e, managed);
      assert (q + [e])[1..] == q[1..] + [e];
    }
  }

  // ---- what the stages hold

  ghost predicate Staged(stages: seq<seq<string>>, t: string) {
    exists i | 0 <= i < |stages| :: t in stages[i]
  }

  lemma {:induction false} FlattenHolds(stages: seq<seq<string>>, t: string)
    ensures t in Flatten(stages) <==> Staged(stages, t)
  {
    if stages == [] {
    } else {
      FlattenHolds(stages[1..], t);
      if t in Flatten(stages) && t !in stages[0] {
        var i :| 0 <= i < |stages| - 1 && t in stages[1..][i];
        assert t in stages[i + 1];
      }
      if i :| 0 < i < |stages| && t in stages[i] {
        assert t in stages[1..][i - 1];
      }
    }
  }

  lemma {:induction false} FlattenAppend(a: seq<seq<string>>, s: seq<string>)
    ensures Flatten(a + [s]) == Flatten(a) + s
  {
    if a == [] {
      assert a + [s] == [s];
    } else {
      FlattenAppend(a[1..], s);
      assert (a + [s])[1..] == a[1..] + [s];
    }
  }

  lemma {:induction false} InStageCount(entry: seq<string>, managed: seq<string>, t: string)
    ensures multiset(InStage(entry, managed))[t] == if IsCloud(t) || t in managed then multiset(entry)[t] else 0
  {
    if entry == [] {
    } else {
      assert entry == [entry[0]] + entry[1..];
      InStageCount(entry[1..], managed, t);
    }
  }

  /** A sequence passes on every mention of a managed namespace or cloud target, and nothing else. */
  lemma {:induction false} FromSequenceCount(q: seq<seq<string>>, managed: seq<string>, t: string)
    ensures multiset(Flatten(FromSequence(q, managed)))[t] ==
            if IsCloud(t) || t in managed then multiset(Flatten(q))[t] else 0
  {
    if q == [] {
    } else {
      FromSequenceCount(q[1..], managed, t);
      InStageCount(q[0], managed, t);
      var stage, rest := InStage(q[0], managed), FromSequence(q[1..], managed);
      assert ([stage] + rest)[1..] == rest && [] + rest == rest;
      assert Flatten(FromSequence(q, managed)) == stage + Flatten(rest);
      assert multiset(Flatten(q)) == multiset(q[0]) + multiset(Flatten(q[1..]));
    }
  }

  lemma {:induction false} DistinctCount(s: seq<string>, t: string)
    requires Distinct(s)
    ensures multiset(s)[t] == if t in s then 1 else 0
  {
    if s == [] {
    } else {
      assert s == [s[0]] + s[1..];
      DistinctCount(s[1..], t);
    }
  }

  lemma {:induction false} ReverseFlatten(s: seq<seq<string>>)
    ensures multiset(Flatten(Reverse(s))) == multiset(Flatten(s))
  {
    if s == [] {
    } else {
      ReverseFlatten(s[1..]);
      FlattenAppend(Reverse(s[1..]), s[0]);
    }
  }

  /** How often a target takes part, in either direction: a managed namespace as often as the
      sequence names it and once if it does not; a cloud target as often as it is named;
      anything else (skipped or foreign) never. */
  lemma {:induction false} StageOccurrences(q: seq<seq<string>>, managed: seq<string>, active: bool, t: string)
    requires Distinct(managed)
    ensures var named := multiset(Flatten(q))[t];
            multiset(Flatten(StagesFor(q, managed, active)))[t] ==
              if t in managed then (if named == 0 then 1 else named)
              else if IsCloud(t) then named
              else 0
  {
    var up := UpStages(q, managed);
    ReverseFlatten(up);
    if q == [] {
      assert Flatten([managed]) == managed + Flatten([]) == managed;
      DistinctCount(managed, t);
    } else {
      var named := FromSequence(q, managed);
      var missing := Without(managed, Flatten(named));
      FromSequenceCount(q, managed, t);
      WithoutDistinct(managed, Flatten(named));
      DistinctCount(missing, t);
      FlattenAppend(named, missing);
      assert t in Flatten(named) <==> multiset(Flatten(named))[t] > 0;
    }
  }

  /** Every unskipped member is in some stage, no skipped or foreign namespace is in any, and a
      member is scaled exactly once if and only if the sequence names it at most once. */
  lemma {:induction false} StageConstruction(members: seq<string>, q: seq<seq<string>>, skip: seq<string>,
      active: bool, ns: string)
    requires Distinct(members)
    ensures var stages := StagesFor(q, Without(members, skip), active);
            && (ns in members && ns !in skip ==> Staged(stages, ns))
            && (!IsCloud(ns) && (ns !in members || ns in skip) ==> !Staged(stages, ns))
            && (ns in members && ns !in skip ==>
                  (multiset(Flatten(stages))[ns] == 1 <==> multiset(Flatten(q))[ns] <= 1))
  {
    var managed := Without(members, skip);
    WithoutDistinct(members, skip);
    StagedCount(q, managed, active, ns);
  }

  lemma {:induction false} StagedCount(q: seq<seq<string>>, managed: seq<string>, active: bool, t: string)
    requires Distinct(managed)
    ensures var stages := StagesFor(q, managed, active);
            && (t in managed ==> Staged(stages, t))
            && (!IsCloud(t) && t !in managed ==> !Staged(stages, t))
            && (t in managed ==> (multiset(Flatten(stages))[t] == 1 <==> multiset(Flatten(q))[t] <= 1))
  {
    var stages := StagesFor(q, managed, active);
    StageOccurrences(q, managed, active, t);
    FlattenHolds(stages, t);
    InCount(Flatten(stages), t);
  }

  lemma InCount(s: seq<string>, x: string)
    ensures x in s <==> multiset(s)[x] > 0
  {
  }

  lemma {:induction false} ReverseTwice<T>(s: seq<T>)
    ensures Reverse(Reverse(s)) == s
  {
    var r := Reverse(s);
    forall i | 0 <= i < |s| ensures Reverse(r)[i] == s[i] {
      assert Reverse(r)[i] == r[|r| - 1 - i] == s[|s| - 1 - (|r| - 1 - i)];
    }
  }

  /** Some stage with t comes before some stage with u. */
  ghost predicate Before(stages: seq<seq<string>>, t: string, u: string) {
    exists a, b | 0 <= a < b < |stages| :: t in stages[a] && u in stages[b]
  }

  lemma MirroredBefore(s: seq<seq<string>>, t: string, u: string)
    requires Before(s, t, u)
    ensures Before(Reverse(s), u, t)
  {
    var a, b :| 0 <= a < b < |s| && t in s[a] && u in s[b];
    var r := Reverse(s);
    assert r[|s| - 1 - b] == s[b] && r[|s| - 1 - a] == s[a];
  }

  lemma MirroredIff(s: seq<seq<string>>, t: string, u: string)
    ensures Before(Reverse(s), u, t) <==> Before(s, t, u)
  {
    hide Before, Reverse;
    if Before(s, t, u) { MirroredBefore(s, t, u); }
    if Before(Reverse(s), u, t) {
      MirroredBefore(Reverse(s), u, t);
      ReverseTwice(s);
    }
  }

  /** Scaling down goes exactly the other way: one target comes before another on the way down if and
      only if it comes after it on the way up. */
  lemma ScaleDownReversesScaleUp(q: seq<seq<string>>, managed: seq<string>, t: string, u: string)
    ensures Before(StagesFor(q, managed, false), u, t) <==> Before(StagesFor(q, managed, true), t, u)
  {
    hide UpStages, Reverse, Before;
    MirroredIff(UpStages(q, managed), t, u);
  }

  // ---- the order of the stages

  /** How many entries before the i-th make a stage. */
  function StageIndex(q: seq<seq<string>>, managed: seq<string>, i: nat): nat
    requires i <= |q|
  {
    if i == 0 then 0 else StageIndex(q, managed, i - 1) + if InStage(q[i - 1], managed) == [] then 0 else 1
  }

  lemma {:induction false} StageOfEntry(q: seq<seq<string>>, managed: seq<string>, n: nat, i: nat)
    requires i < n <= |q| && InStage(q[i], managed) != []
    ensures StageIndex(q, managed, i) < |FromSequence(q[..n], managed)| == StageIndex(q, managed, n)
    ensures FromSequence(q[..n], managed)[StageIndex(q, managed, i)] == InStage(q[i], managed)
    decreases n
  {
    hide InStage, FromSequence;
    assert q[..n] == q[..n - 1] + [q[n - 1]];
    FromSequenceAppend(q[..n - 1], q[n - 1], managed);
    StageNumber(q, managed, n - 1);
    if i < n - 1 { StageOfEntry(q, managed, n - 1, i); }
  }

  lemma {:induction false} StageNumber(q: seq<seq<string>>, managed: seq<string>, n: nat)
    requires n <= |q|
    ensures |FromSequence(q[..n], managed)| == StageIndex(q, managed, n)
    decreases n
  {
    hide InStage, FromSequence;
    if n == 0 {
      NoEntries(managed);
    } else {
      assert q[..n] == q[..n - 1] + [q[n - 1]];
      FromSequenceAppend(q[..n - 1], q[n - 1], managed);
      StageNumber(q, managed, n - 1);
    }
  }

  lemma NoEntries(managed: seq<string>)
    ensures FromSequence([], managed) == []
  {
  }

  lemma {:induction false} StageIndexGrows(q: seq<seq<string>>, managed: seq<string>, i: nat, j: nat)
    requires i < j <= |q| && InStage(q[i], managed) != []
    ensures StageIndex(q, managed, i) < StageIndex(q, managed, j)
    decreases j
  {
    hide InStage;
    if i == j - 1 {
    } else {
      StageIndexGrows(q, managed, i, j - 1);
    }
  }

  /** Scaling up follows the sequence: a target an earlier entry names is in an earlier stage than one
      a later entry names, and both come before every member no entry names. */
  lemma StagesFollowSequence(q: seq<seq<string>>, managed: seq<string>, i: nat, j: nat, t: string, u: string)
      returns (a: nat, b: nat)
    requires i < |q| && t in q[i] && (IsCloud(t) || t in managed)
    requires if j < |q| then i < j && u in q[j] && (IsCloud(u) || u in managed)
             else u in managed && u !in Flatten(FromSequence(q, managed))
    ensures var up := StagesFor(q, managed, true);
            a < b < |up| && t in up[a] && u in up[b] && up[a] == InStage(q[i], managed)
            && if j < |q| then up[b] == InStage(q[j], managed) else b == |up| - 1
  {
    hide InStage, FromSequence, Flatten;
    assert q[..|q|] == q;
    StageOfEntry(q, managed, |q|, i);
    a := StageIndex(q, managed, i);
    if j < |q| {
      StageOfEntry(q, managed, |q|, j);
      StageIndexGrows(q, managed, i, j);
      b := StageIndex(q, managed, j);
    } else {
      b := |FromSequence(q, managed)|;
    }
  }

  // ---- members no entry names

  lemma UnnamedNotStaged(q: seq<seq<string>>, managed: seq<string>, t: string)
    requires t !in Flatten(q)
    ensures t !in Flatten(FromSequence(q, managed))
    ensures forall i | 0 <= i < |FromSequence(q, managed)| :: t !in FromSequence(q, managed)[i]
  {
    hide Flatten, FromSequence;
    var named := FromSequence(q, managed);
    FromSequenceCount(q, managed, t);
    InCount(Flatten(q), t);
    InCount(Flatten(named), t);
    FlattenHolds(named, t);
  }

  /** On the way up, exactly the last stage holds a managed namespace that no entry names. */
  lemma UnnamedLast(q: seq<seq<string>>, managed: seq<string>, t: string)
    requires t in managed && t !in Flatten(q)
    ensures var up := UpStages(q, managed);
            up != [] && forall i | 0 <= i < |up| :: t in up[i] <==> i == |up| - 1
  {
    hide Flatten, FromSequence;
    UnnamedNotStaged(q, managed, t);
  }

  /** All managed namespaces that no entry names share one stage, so none waits for another, in either
      direction and for every sequence, the empty one included. */
  lemma UnnamedTogether(q: seq<seq<string>>, managed: seq<string>, active: bool, t: string, u: string) returns (a: nat)
    requires t in managed && u in managed && t !in Flatten(q) && u !in Flatten(q)
    ensures var stages := StagesFor(q, managed, active);
            && a < |stages| && t in stages[a] && u in stages[a]
            && !Before(stages, t, u) && !Before(stages, u, t)
  {
    hide UpStages, Flatten, Reverse;
    UnnamedLast(q, managed, t);
    UnnamedLast(q, managed, u);
    a := if active then |UpStages(q, managed)| - 1 else 0;
  }

  /** Without a sequence there is one stage, of all managed namespaces. */
  lemma NoSequenceOneStage(managed: seq<string>, active: bool)
    ensures StagesFor([], managed, active) == [managed]
  {
    assert [managed][1..] == [];
  }
}
