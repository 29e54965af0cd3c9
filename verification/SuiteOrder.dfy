/** Building a suite: the effective order of its arms under an arbitrary shuffle of the groups, and each
    arm's dependency on the arm before it in its conversation. */
module SuiteOrder {
  import opened Outcomes
  import Graphs

  datatype ArmSpec = ArmSpec(group: Option<string>, resume: bool, persistent: bool)

  // ---------- grouping keys ----------

  function Decimal(n: nat): string {
    if n < 10 then ["0123456789"[n]] else Decimal(n / 10) + ["0123456789"[n % 10]]
  }

  /** Different indices are written differently. */
  lemma {:induction false} DecimalInjective(m: nat, n: nat)
    requires Decimal(m) == Decimal(n)
    ensures m == n
  {
    var a, b := Decimal(m), Decimal(n);
    assert a[|a| - 1] == "0123456789"[m % 10] && b[|b| - 1] == "0123456789"[n % 10];
    if m >= 10 && n >= 10 {
      assert a[..|a| - 1] == Decimal(m / 10) && b[..|b| - 1] == Decimal(n / 10);
      DecimalInjective(m / 10, n / 10);
    } else if m < 10 && n >= 10 {
      DecimalLength(n / 10);
    } else if m >= 10 && n < 10 {
      DecimalLength(m / 10);
    }
  }

  lemma {:induction false} DecimalLength(n: nat)
    ensures |Decimal(n)| >= 1
  {
    if n >= 10 {
      DecimalLength(n / 10);
    }
  }

  /** The conversation an arm names; an empty name is no name. */
  function Group(a: ArmSpec): Option<string> {
    if a.group == Some("") then None else a.group
  }

  /** The key arms are kept together by: the conversation's name, or a name made from the arm's index. */
  function Key(arms: seq<ArmSpec>, i: nat): string
    requires i < |arms|
  {
    if Group(arms[i]).Some? then Group(arms[i]).value else "independent-" + Decimal(i)
  }

  /** Two arms outside every conversation never share a key. */
  lemma AloneHasOwnKey(arms: seq<ArmSpec>, i: nat, j: nat)
    requires i < |arms| && j < |arms| && Group(arms[i]).None? && Group(arms[j]).None?
    ensures Key(arms, i) == Key(arms, j) ==> i == j
  {
    var a, b := Decimal(i), Decimal(j);
    if Key(arms, i) == Key(arms, j) {
      assert ("independent-" + a)[12..] == a && ("independent-" + b)[12..] == b;
      DecimalInjective(i, j);
    }
  }

  /** The first n indices with a key, in increasing order. */
  ghost function Indices(arms: seq<ArmSpec>, key: string, n: nat): seq<nat>
    requires n <= |arms|
  {
    if n == 0 then []
    else Indices(arms, key, n - 1) + if Key(arms, n - 1) == key then [n - 1] else []
  }

  ghost predicate Increasing(s: seq<nat>) {
    forall i, j :: 0 <= i < j < |s| ==> s[i] < s[j]
  }

  lemma {:induction false} IndicesFacts(arms: seq<ArmSpec>, key: string, n: nat)
    requires n <= |arms|
    ensures forall x :: x in Indices(arms, key, n) <==> 0 <= x < n && Key(arms, x) == key
    ensures Increasing(Indices(arms, key, n))
  {
    hide Key;
    if n > 0 {
      var before := Indices(arms, key, n - 1);
      IndicesFacts(arms, key, n - 1);
      AppendIncreasing(before, n - 1);
      assert Indices(arms, key, n) == before + if Key(arms, n - 1) == key then [n - 1] else [];
    }
  }

  lemma AppendIncreasing(s: seq<nat>, x: nat)
    requires Increasing(s) && forall y :: y in s ==> y < x
    ensures Increasing(s + [x]) && s + [] == s
  {
    forall i | 0 <= i < |s|
      ensures s[i] < x
    {
      assert s[i] in s;
    }
  }

  ghost function Flatten(arms: seq<ArmSpec>, keys: seq<string>): seq<nat> {
    if keys == [] then [] else Indices(arms, keys[0], |arms|) + Flatten(arms, keys[1..])
  }

  ghost predicate DistinctKeys(keys: seq<string>) {
    forall i, j :: 0 <= i < j < |keys| ==> keys[i] != keys[j]
  }

  lemma {:induction false} FlattenMembers(arms: seq<ArmSpec>, keys: seq<string>, x: nat)
    ensures x in Flatten(arms, keys) <==> x < |arms| && Key(arms, x) in keys
  {
    if keys != [] {
      IndicesFacts(arms, keys[0], |arms|);
      FlattenMembers(arms, keys[1..], x);
      assert keys == [keys[0]] + keys[1..];
    }
  }

  /** Arms of one key stand next to each other, in the order they were given. */
  ghost predicate KeptTogether(arms: seq<ArmSpec>, order: seq<nat>) {
    && (forall x :: 0 <= x < |order| ==> order[x] < |arms|)
    && (forall x, y :: 0 <= x < y < |order| && Key(arms, order[x]) == Key(arms, order[y]) ==> order[x] < order[y])
    && (forall x, y, z :: 0 <= x < y < z < |order| && Key(arms, order[x]) == Key(arms, order[z]) ==>
          Key(arms, order[y]) == Key(arms, order[x]))
  }

  lemma {:induction false} FlattenKeepsTogether(arms: seq<ArmSpec>, keys: seq<string>)
    requires DistinctKeys(keys)
    ensures KeptTogether(arms, Flatten(arms, keys))
  {
    if keys != [] {
      var head, tail := Indices(arms, keys[0], |arms|), Flatten(arms, keys[1..]);
      var order := Flatten(arms, keys);
      FlattenKeepsTogether(arms, keys[1..]);
      IndicesFacts(arms, keys[0], |arms|);
      forall x | 0 <= x < |head|
        ensures head[x] < |arms| && Key(arms, head[x]) == keys[0]
      {
        assert head[x] in head;
      }
      forall x | 0 <= x < |tail|
        ensures tail[x] < |arms| && Key(arms, tail[x]) != keys[0]
      {
        assert tail[x] in tail;
        FlattenMembers(arms, keys[1..], tail[x]);
      }
      JoinKeepsTogether(arms, head, tail, keys[0]);
    }
  }

  lemma JoinKeepsTogether(arms: seq<ArmSpec>, head: seq<nat>, tail: seq<nat>, key: string)
    requires Increasing(head) && KeptTogether(arms, tail)
    requires forall x :: 0 <= x < |head| ==> head[x] < |arms| && Key(arms, head[x]) == key
    requires forall x :: 0 <= x < |tail| ==> tail[x] < |arms| && Key(arms, tail[x]) != key
    ensures KeptTogether(arms, head + tail)
  {
  }

  // ---------- the order is a permutation ----------

  ghost predicate Distinct(s: seq<nat>) {
    forall i, j :: 0 <= i < j < |s| ==> s[i] != s[j]
  }

  ghost predicate IsPermutation(s: seq<nat>, n: nat) {
    && |s| == n && Distinct(s)
    && (forall x :: x in s <==> 0 <= x < n)
    && (forall i :: 0 <= i < |s| ==> s[i] < n)
  }

  function Elements(s: seq<nat>): set<nat> {
    set x | x in s
  }

  lemma {:induction false} DistinctCard(s: seq<nat>)
    requires Distinct(s)
    ensures |Elements(s)| == |s|
  {
    if s != [] {
      DistinctCard(s[1..]);
      assert Elements(s) == Elements(s[1..]) + {s[0]};
      assert s[0] !in s[1..];
    }
  }

  lemma DistinctSize(s: seq<nat>, n: nat)
    requires Distinct(s) && forall x :: x in s <==> 0 <= x < n
    ensures |s| == n
  {
    DistinctCard(s);
    assert Elements(s) == Graphs.Vertices(n);
  }

  ghost predicate CoversKeys(arms: seq<ArmSpec>, keys: seq<string>) {
    forall i :: 0 <= i < |arms| ==> Key(arms, i) in keys
  }

  lemma FlattenIsPermutation(arms: seq<ArmSpec>, keys: seq<string>)
    requires DistinctKeys(keys) && CoversKeys(arms, keys)
    ensures IsPermutation(Flatten(arms, keys), |arms|)
  {
    var order := Flatten(arms, keys);
    FlattenKeepsTogether(arms, keys);
    forall x
      ensures x in order <==> 0 <= x < |arms|
    {
      if x >= 0 {
        FlattenMembers(arms, keys, x);
      }
    }
    forall i, j | 0 <= i < j < |order|
      ensures order[i] != order[j]
    {
      if Key(arms, order[i]) == Key(arms, order[j]) {
        assert order[i] < order[j];
      }
    }
    DistinctSize(order, |arms|);
  }

  // ---------- conversation groups ----------

  predicate SameGroup(arms: seq<ArmSpec>, i: nat, j: nat)
    requires i < |arms| && j < |arms|
  {
    Group(arms[i]).Some? && Group(arms[i]) == Group(arms[j])
  }

  /** Each conversation's arms occupy a contiguous stretch of the order. */
  ghost predicate GroupsContiguous(arms: seq<ArmSpec>, order: seq<nat>)
    requires forall x :: 0 <= x < |order| ==> order[x] < |arms|
  {
    forall x, y, z :: 0 <= x < y < z < |order| && SameGroup(arms, order[x], order[z]) ==>
      SameGroup(arms, order[x], order[y])
  }

  /** An ungrouped arm whose made-up key is the name of a conversation with arms on both sides of it. */
  ghost predicate Intrudes(arms: seq<ArmSpec>, a: nat, i: nat, b: nat) {
    && a < i < b < |arms|
    && Group(arms[i]).None? && Group(arms[a]) == Group(arms[b]) == Some("independent-" + Decimal(i))
  }

  /** Conversations stay contiguous exactly when no ungrouped arm's key collides with one around it. */
  lemma ContiguousIffNoIntruder(arms: seq<ArmSpec>, order: seq<nat>)
    requires IsPermutation(order, |arms|) && KeptTogether(arms, order)
    ensures GroupsContiguous(arms, order) <==> !exists a, i, b :: Intrudes(arms, a, i, b)
  {
    if a, i, b :| Intrudes(arms, a, i, b) {
      IntruderSplits(arms, order, a, i, b);
    } else {
      forall x, y, z | 0 <= x < y < z < |order| && SameGroup(arms, order[x], order[z])
        ensures SameGroup(arms, order[x], order[y])
      {
        assert Key(arms, order[x]) == Key(arms, order[z]);
        assert Key(arms, order[y]) == Key(arms, order[x]);
        assert !Intrudes(arms, order[x], order[y], order[z]);
      }
    }
  }

  lemma IntruderShares(arms: seq<ArmSpec>, a: nat, i: nat, b: nat)
    requires Intrudes(arms, a, i, b)
    ensures a < i < b < |arms| && Key(arms, a) == Key(arms, i) == Key(arms, b)
    ensures SameGroup(arms, a, b) && !SameGroup(arms, a, i)
  {
  }

  lemma IntruderSplits(arms: seq<ArmSpec>, order: seq<nat>, a: nat, i: nat, b: nat)
    requires IsPermutation(order, |arms|) && KeptTogether(arms, order) && Intrudes(arms, a, i, b)
    ensures !GroupsContiguous(arms, order)
  {
    hide Key, Group, Decimal, Intrudes, SameGroup, KeptTogether, GroupsContiguous;
    IntruderShares(arms, a, i, b);
    assert a in order && i in order && b in order;
    var x :| 0 <= x < |order| && order[x] == a;
    var y :| 0 <= y < |order| && order[y] == i;
    var z :| 0 <= z < |order| && order[z] == b;
    KeyOrder(arms, order, x, y);
    KeyOrder(arms, order, y, z);
    SplitBy(arms, order, x, y, z);
  }

  /** Positions of one key stand in the order of their arms. */
  lemma KeyOrder(arms: seq<ArmSpec>, order: seq<nat>, x: nat, y: nat)
    requires KeptTogether(arms, order) && x < |order| && y < |order|
    requires order[x] < order[y] < |arms| && Key(arms, order[x]) == Key(arms, order[y])
    ensures x < y
  {
    hide Key;
  }

  lemma SplitBy(arms: seq<ArmSpec>, order: seq<nat>, x: nat, y: nat, z: nat)
    requires forall x :: 0 <= x < |order| ==> order[x] < |arms|
    requires x < y < z < |order| && SameGroup(arms, order[x], order[z]) && !SameGroup(arms, order[x], order[y])
    ensures !GroupsContiguous(arms, order)
  {
    hide SameGroup;
  }

  /** A three-arm suite accepted by the builder whose conversation is split. */
  lemma CollidingNameSplits() returns (arms: seq<ArmSpec>)
    ensures forall order :: IsPermutation(order, |arms|) && KeptTogether(arms, order) ==> !GroupsContiguous(arms, order)
    ensures FirstFault(arms, 0) == None
  {
    arms := [ArmSpec(Some("independent-1"), false, true), ArmSpec(None, false, false),
             ArmSpec(Some("independent-1"), true, true)];
    assert Decimal(1) == "1";
    assert "independent-" + "1" == "independent-1";
    assert Intrudes(arms, 0, 1, 2);
    forall order | IsPermutation(order, |arms|) && KeptTogether(arms, order)
      ensures !GroupsContiguous(arms, order)
    {
      IntruderSplits(arms, order, 0, 1, 2);
    }
    PreviousInSmall(arms);
  }

  lemma PreviousInSmall(arms: seq<ArmSpec>)
    requires arms == [ArmSpec(Some("independent-1"), false, true), ArmSpec(None, false, false),
                      ArmSpec(Some("independent-1"), true, true)]
    ensures FirstFault(arms, 0) == None
  {
    assert Previous(arms, 0, 0) == None && Previous(arms, 1, 1) == None;
    assert Previous(arms, 2, 1) == Some(0) && Previous(arms, 2, 2) == Some(0);
    assert FirstFault(arms, 3) == None;
    assert FirstFault(arms, 2) == None;
    assert FirstFault(arms, 1) == None;
  }

  // ---------- dependencies ----------

  /** The nearest arm before k in the i-th arm's conversation. */
  function Previous(arms: seq<ArmSpec>, i: nat, k: nat): (r: Option<nat>)
    requires i < |arms| && k <= i
    ensures r.Some? ==> r.value < k && Group(arms[i]).Some? && Group(arms[r.value]) == Group(arms[i])
    ensures r.Some? ==> forall j :: r.value < j < k ==> Group(arms[j]) != Group(arms[i])
    ensures r.None? && Group(arms[i]).Some? ==> forall j :: 0 <= j < k ==> Group(arms[j]) != Group(arms[i])
  {
    if k == 0 || Group(arms[i]).None? then None
    else if Group(arms[k - 1]) == Group(arms[i]) then Some(k - 1)
    else Previous(arms, i, k - 1)
  }

  datatype Fault = ResumeNotPersistent | ResumeWithoutEarlier | LaterMustResume

  function ArmFault(arms: seq<ArmSpec>, i: nat): Option<Fault>
    requires i < |arms|
  {
    var previous := Previous(arms, i, i);
    if arms[i].resume && !arms[i].persistent then Some(ResumeNotPersistent)
    else if arms[i].resume && previous.None? then Some(ResumeWithoutEarlier)
    else if !arms[i].resume && previous.Some? then Some(LaterMustResume)
    else None
  }

  /** An arm before the i-th names the same conversation. */
  ghost predicate HasEarlier(arms: seq<ArmSpec>, i: nat)
    requires i < |arms|
  {
    exists j :: 0 <= j < i && arms[j].group == arms[i].group && arms[i].group != None && arms[i].group != Some("")
  }

  lemma EarlierIsPrevious(arms: seq<ArmSpec>, i: nat)
    requires i < |arms|
    ensures HasEarlier(arms, i) <==> Previous(arms, i, i).Some?
  {
    var previous := Previous(arms, i, i);
    if previous.Some? {
      assert Group(arms[previous.value]) == Group(arms[i]);
      assert arms[previous.value].group == arms[i].group;
    }
  }

  /** The complaint about one arm: only persistent arms resume, the first arm of a conversation does not, and every
      later one does. */
  lemma ArmFaultMeaning(arms: seq<ArmSpec>, i: nat)
    requires i < |arms|
    ensures ArmFault(arms, i) == Some(ResumeNotPersistent) <==> arms[i].resume && !arms[i].persistent
    ensures ArmFault(arms, i) == Some(ResumeWithoutEarlier) <==>
            arms[i].resume && arms[i].persistent && !HasEarlier(arms, i)
    ensures ArmFault(arms, i) == Some(LaterMustResume) <==> !arms[i].resume && HasEarlier(arms, i)
    ensures ArmFault(arms, i) == None <==>
            (arms[i].resume <==> HasEarlier(arms, i)) && (arms[i].resume ==> arms[i].persistent)
  {
    EarlierIsPrevious(arms, i);
  }

  /** The first complaint, arm by arm. */
  function FirstFault(arms: seq<ArmSpec>, i: nat): Option<Fault>
    requires i <= |arms|
    decreases |arms| - i
  {
    if i == |arms| then None
    else if ArmFault(arms, i).Some? then ArmFault(arms, i)
    else FirstFault(arms, i + 1)
  }

  /** Exactly which suites are accepted: in every conversation the arms after the first resume, the first does not,
      and the ones that resume are persistent. */
  lemma {:induction false} AcceptedIff(arms: seq<ArmSpec>, i: nat)
    requires i <= |arms|
    ensures FirstFault(arms, i) == None <==>
            forall x :: i <= x < |arms| ==>
              (arms[x].resume <==> HasEarlier(arms, x)) && (arms[x].resume ==> arms[x].persistent)
    decreases |arms| - i
  {
    hide ArmFault, HasEarlier;
    if i < |arms| {
      ArmFaultMeaning(arms, i);
      AcceptedIff(arms, i + 1);
    }
  }

  /** How an arm executes. An arm without a conversation is alone in one named by its own fresh identifier. */
  datatype Execution = Execution(id: nat, group: Option<string>, sequenceIndex: nat, dependsOn: Option<nat>,
                                 requiresPriorSuccess: bool)

  function EarlierInGroup(arms: seq<ArmSpec>, i: nat, k: nat): nat
    requires i < |arms| && k <= i
  {
    if k == 0 || Group(arms[i]).None? then 0
    else EarlierInGroup(arms, i, k - 1) + if Group(arms[k - 1]) == Group(arms[i]) then 1 else 0
  }

  /** An arm's index in its conversation is the number of arms before it there. */
  lemma {:induction false} EarlierInGroupCounts(arms: seq<ArmSpec>, i: nat, k: nat)
    requires i < |arms| && k <= i
    ensures EarlierInGroup(arms, i, k)
         == |set j | 0 <= j < k && Group(arms[i]).Some? && Group(arms[j]) == Group(arms[i])|
  {
    hide Group;
    var group := Group(arms[i]);
    var earlier := set j | 0 <= j < k && group.Some? && Group(arms[j]) == group;
    if k > 0 && group.Some? {
      EarlierInGroupCounts(arms, i, k - 1);
      var before := set j | 0 <= j < k - 1 && group.Some? && Group(arms[j]) == group;
      assert earlier == before + if Group(arms[k - 1]) == group then {k - 1} else {};
    } else {
      assert earlier == {};
    }
  }

  /** An arm that resumes depends on the arm just before it in its conversation, and on no other. */
  ghost predicate ExecutionHolds(arms: seq<ArmSpec>, ids: seq<nat>, i: nat, e: Execution)
    requires i < |arms| == |ids|
  {
    && e.id == ids[i] && e.group == Group(arms[i])
    && (arms[i].resume ==> Previous(arms, i, i).Some? && e.dependsOn == Some(ids[Previous(arms, i, i).value]))
    && (!arms[i].resume ==> e.dependsOn == None)
    && e.requiresPriorSuccess == arms[i].resume
    && e.sequenceIndex == EarlierInGroup(arms, i, i)
  }

  /** A resumed arm comes after the arm it depends on, and a first arm of a conversation never resumes. */
  lemma DependencyComesFirst(arms: seq<ArmSpec>, order: seq<nat>, i: nat, x: nat, y: nat)
    requires IsPermutation(order, |arms|) && KeptTogether(arms, order)
    requires i < |arms| && Previous(arms, i, i).Some?
    requires x < |order| && y < |order| && order[x] == Previous(arms, i, i).value && order[y] == i
    ensures x < y
  {
  }

  // ---------- the builder ----------

  /** Groups the arms by key: each key's indices in order, and the keys in order of first appearance. */
  lemma IndicesNext(arms: seq<ArmSpec>, i: nat)
    requires i < |arms|
    ensures Indices(arms, Key(arms, i), i + 1) == Indices(arms, Key(arms, i), i) + [i]
    ensures forall key :: key != Key(arms, i) ==> Indices(arms, key, i + 1) == Indices(arms, key, i)
  {
  }

  lemma NoIndicesYet(arms: seq<ArmSpec>)
    ensures forall key :: Indices(arms, key, 0) == []
  {
  }

  method GroupArms(arms: seq<ArmSpec>) returns (grouped: map<string, seq<nat>>, keys: seq<string>)
    ensures forall key :: key in grouped <==> key in keys
    ensures DistinctKeys(keys) && CoversKeys(arms, keys)
    ensures forall key :: key in grouped ==> grouped[key] == Indices(arms, key, |arms|)
  {
    NoIndicesYet(arms);
    hide Key, Indices;
    grouped, keys := map[], [];
    var i := 0;
    while i < |arms|
      invariant 0 <= i <= |arms|
      invariant forall key :: key in grouped <==> key in keys
      invariant DistinctKeys(keys)
      invariant forall x :: 0 <= x < i ==> Key(arms, x) in keys
      invariant forall key :: key in grouped ==> grouped[key] == Indices(arms, key, i)
      invariant forall key :: key !in grouped ==> Indices(arms, key, i) == []
    {
      var key := Key(arms, i);
      IndicesNext(arms, i);
      if key !in grouped {
        grouped := grouped[key := []];
        keys := keys + [key];
      }
      grouped := grouped[key := grouped[key] + [i]];
      i := i + 1;
    }
  }

  method ConcatenateGroups(arms: seq<ArmSpec>, grouped: map<string, seq<nat>>, keys: seq<string>)
    returns (order: seq<nat>)
    requires forall key :: key in keys ==> key in grouped && grouped[key] == Indices(arms, key, |arms|)
    ensures order == Flatten(arms, keys)
  {
    order := [];
    var k := 0;
    while k < |keys|
      invariant 0 <= k <= |keys|
      invariant order + Flatten(arms, keys[k..]) == Flatten(arms, keys)
    {
      assert keys[k..][1..] == keys[k + 1..];
      ghost var head := Indices(arms, keys[k], |arms|);
      assert order + (head + Flatten(arms, keys[k + 1..])) == (order + head) + Flatten(arms, keys[k + 1..]);
      order := order + grouped[keys[k]];
      k := k + 1;
    }
    assert Flatten(arms, keys[k..]) == [];
  }

  /** How many earlier records belong to the same conversation. */
  method SequenceIndex(arms: seq<ArmSpec>, ids: seq<nat>, i: nat, executions: seq<Execution>, group: Option<string>)
    returns (count: nat)
    requires i < |arms| == |ids| && |executions| == i && group == Group(arms[i])
    requires forall x :: 0 <= x < i ==> ExecutionHolds(arms, ids, x, executions[x])
    ensures count == EarlierInGroup(arms, i, i)
  {
    count := 0;
    var k := 0;
    while k < |executions|
      invariant 0 <= k <= |executions|
      invariant count == EarlierInGroup(arms, i, k)
    {
      assert ExecutionHolds(arms, ids, k, executions[k]);
      if group.Some? && executions[k].group == group {
        count := count + 1;
      }
      k := k + 1;
    }
  }

  /** Each arm's execution record, with the latest arm of each conversation kept in a table. */
  method LinkArms(arms: seq<ArmSpec>, ids: seq<nat>) returns (r: Result<seq<Execution>, Fault>)
    requires |ids| == |arms|
    ensures r.Ok? <==> FirstFault(arms, 0) == None
    ensures r.Err? ==> FirstFault(arms, 0) == Some(r.error)
    ensures r.Ok? ==> |r.value| == |arms| && forall i :: 0 <= i < |arms| ==> ExecutionHolds(arms, ids, i, r.value[i])
  {
    var previous: map<string, nat> := map[];
    var executions: seq<Execution> := [];
    var i := 0;
    while i < |arms|
      invariant 0 <= i <= |arms| && |executions| == i
      invariant FirstFault(arms, 0) == FirstFault(arms, i)
      invariant forall x :: 0 <= x < i ==> ExecutionHolds(arms, ids, x, executions[x])
      invariant Remembers(arms, i, previous)
    {
      var arm, group := arms[i], Group(arms[i]);
      var before: Option<nat> := if group.Some? && group.value in previous then Some(previous[group.value]) else None;
      RemembersPrevious(arms, i, previous);
      if arm.resume && !arm.persistent {
        return Err(ResumeNotPersistent);
      }
      if arm.resume && before.None? {
        return Err(ResumeWithoutEarlier);
      }
      if !arm.resume && before.Some? {
        return Err(LaterMustResume);
      }
      RemembersNext(arms, i, previous);
      hide Remembers, Group, Previous, EarlierInGroup;
      var depends := if arm.resume then Some(ids[before.value]) else None;
      var sequence := SequenceIndex(arms, ids, i, executions, group);
      executions := executions + [Execution(ids[i], group, sequence, depends, arm.resume)];
      if group.Some? {
        previous := previous[group.value := i];
      }
      i := i + 1;
    }
    r := Ok(executions);
  }

  /** The table of latest arms, after i arms. */
  ghost predicate Remembers(arms: seq<ArmSpec>, i: nat, previous: map<string, nat>) {
    && (forall g :: g in previous ==> LatestOf(arms, i, g, previous[g]))
    && i <= |arms|
    && (forall g, j :: g !in previous && 0 <= j < i ==> Group(arms[j]) != Some(g))
  }

  lemma {:induction false} PreviousIs(arms: seq<ArmSpec>, i: nat, k: nat, g: string, j: nat)
    requires k <= i < |arms| && Group(arms[i]) == Some(g) && LatestOf(arms, k, g, j)
    ensures Previous(arms, i, k) == Some(j)
  {
  }

  lemma {:induction false} PreviousIsNone(arms: seq<ArmSpec>, i: nat, k: nat, g: string)
    requires k <= i < |arms| && Group(arms[i]) == Some(g)
    requires forall j :: 0 <= j < k ==> Group(arms[j]) != Some(g)
    ensures Previous(arms, i, k) == None
  {
  }

  lemma RemembersPrevious(arms: seq<ArmSpec>, i: nat, previous: map<string, nat>)
    requires Remembers(arms, i, previous) && i < |arms|
    ensures Previous(arms, i, i)
         == match Group(arms[i]) case None => None case Some(g) => if g in previous then Some(previous[g]) else None
  {
    if Group(arms[i]).Some? {
      var g := Group(arms[i]).value;
      if g in previous {
        PreviousIs(arms, i, i, g, previous[g]);
      } else {
        PreviousIsNone(arms, i, i, g);
      }
    }
  }

  lemma RemembersNext(arms: seq<ArmSpec>, i: nat, previous: map<string, nat>)
    requires Remembers(arms, i, previous) && i < |arms|
    ensures Remembers(arms, i + 1, if Group(arms[i]).Some? then previous[Group(arms[i]).value := i] else previous)
  {
  }

  ghost predicate LatestOf(arms: seq<ArmSpec>, i: nat, g: string, j: nat) {
    j < i <= |arms| && Group(arms[j]) == Some(g) && forall x :: j < x < i ==> Group(arms[x]) != Some(g)
  }

  /** A shuffle rearranges the keys and does nothing else. */
  ghost predicate IsShuffle(shuffle: seq<string> -> seq<string>) {
    forall s :: multiset(shuffle(s)) == multiset(s)
  }

  lemma ShuffleKeepsKeys(keys: seq<string>, shuffled: seq<string>)
    requires DistinctKeys(keys) && multiset(shuffled) == multiset(keys)
    ensures DistinctKeys(shuffled)
    ensures forall key :: key in shuffled <==> key in keys
  {
    forall key
      ensures key in shuffled <==> key in keys
    {
      assert key in multiset(shuffled) <==> key in multiset(keys);
    }
    forall i, j | 0 <= i < j < |shuffled|
      ensures shuffled[i] != shuffled[j]
    {
      if shuffled[i] == shuffled[j] {
        RepeatedCountsTwice(shuffled, i, j);
        DistinctCountsOnce(keys, shuffled[i]);
        assert false;
      }
    }
  }

  lemma RepeatedCountsTwice(s: seq<string>, i: nat, j: nat)
    requires i < j < |s| && s[i] == s[j]
    ensures multiset(s)[s[i]] >= 2
  {
    assert s == s[..j] + s[j..];
    assert s[i] == s[..j][i] && s[j] == s[j..][0];
    assert s[i] in s[..j] && s[i] in s[j..];
  }

  lemma {:induction false} DistinctCountsOnce(s: seq<string>, key: string)
    requires DistinctKeys(s)
    ensures multiset(s)[key] <= 1
  {
    if s != [] {
      assert s == [s[0]] + s[1..];
      DistinctCountsOnce(s[1..], key);
      if s[0] == key {
        assert key !in s[1..];
      }
    }
  }

  /** The suite: an order that is a permutation keeping keys together, its inverse, and the execution records
      of the arms; or the first complaint. */
  method CreateSuite(arms: seq<ArmSpec>, ids: seq<nat>, shuffle: seq<string> -> seq<string>)
    returns (order: seq<nat>, effective: seq<nat>, r: Result<seq<Execution>, Fault>)
    requires |ids| == |arms| && IsShuffle(shuffle)
    ensures IsPermutation(order, |arms|) && KeptTogether(arms, order)
    ensures |effective| == |arms| && forall x :: 0 <= x < |order| ==> effective[order[x]] == x
    ensures r.Ok? <==> FirstFault(arms, 0) == None
    ensures r.Err? ==> FirstFault(arms, 0) == Some(r.error)
    ensures r.Ok? ==> |r.value| == |arms| && forall i :: 0 <= i < |arms| ==> ExecutionHolds(arms, ids, i, r.value[i])
    ensures forall i :: 0 <= i < |arms| && Previous(arms, i, i).Some? ==>
              effective[Previous(arms, i, i).value] < effective[i]
  {
    var grouped, keys := GroupArms(arms);
    var shuffled := shuffle(keys);
    ShuffleKeepsKeys(keys, shuffled);
    order := ConcatenateGroups(arms, grouped, shuffled);
    FlattenKeepsTogether(arms, shuffled);
    FlattenIsPermutation(arms, shuffled);
    hide KeptTogether, Flatten, Key, Indices, Previous, ExecutionHolds, FirstFault, Group, CoversKeys;
    effective := Invert(order);
    r := LinkArms(arms, ids);
    DependenciesComeFirst(arms, order, effective);
  }

  lemma DependenciesComeFirst(arms: seq<ArmSpec>, order: seq<nat>, effective: seq<nat>)
    requires IsPermutation(order, |arms|) && KeptTogether(arms, order)
    requires |effective| == |arms| && forall x :: 0 <= x < |order| ==> effective[order[x]] == x
    ensures forall i :: 0 <= i < |arms| && Previous(arms, i, i).Some? ==>
              effective[Previous(arms, i, i).value] < effective[i]
  {
    forall i | 0 <= i < |arms| && Previous(arms, i, i).Some?
      ensures effective[Previous(arms, i, i).value] < effective[i]
    {
      var j := Previous(arms, i, i).value;
      assert i in order && j in order;
      var a :| 0 <= a < |order| && order[a] == j;
      var b :| 0 <= b < |order| && order[b] == i;
      DependencyComesFirst(arms, order, i, a, b);
    }
  }

  /** Writing each arm's position at its index inverts the order. */
  method Invert(order: seq<nat>) returns (effective: seq<nat>)
    requires IsPermutation(order, |order|)
    ensures |effective| == |order| && forall x :: 0 <= x < |order| ==> effective[order[x]] == x
  {
    effective := seq(|order|, _ => 0);
    var x := 0;
    while x < |order|
      invariant 0 <= x <= |order| == |effective|
      invariant forall y :: 0 <= y < x ==> effective[order[y]] == y
    {
      assert order[x] in order;
      effective := effective[order[x] := x];
      x := x + 1;
    }
  }
}
