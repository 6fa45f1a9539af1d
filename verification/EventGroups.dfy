/** Grouping events by style and layer and sorting each group by start time. */
module EventGroups {
  import opened PyText
  import opened IndexDeletion
  import opened Subtitles
  import opened HealthSpec

  datatype Group = Group(style: string, layer: int)

  function GroupOf(cue: Cue): Group {
    Group(cue.style, cue.layer)
  }

  // The members of a group among the first n events.
  function Members(cues: seq<Cue>, group: Group, n: nat): (ids: seq<nat>)
    requires n <= |cues|
    ensures Inside(ids, n)
  {
    if n == 0 then []
    else
      var last := if !cues[n - 1].isComment && GroupOf(cues[n - 1]) == group then [n - 1] else [];
      Members(cues, group, n - 1) + last
  }

  predicate IsMember(cues: seq<Cue>, group: Group, i: nat) {
    i < |cues| && !cues[i].isComment && GroupOf(cues[i]) == group
  }

  lemma {:induction false} MembersExact(cues: seq<Cue>, group: Group, n: nat)
    requires n <= |cues|
    ensures Ascending(Members(cues, group, n), n)
    ensures forall i: nat :: i in Members(cues, group, n) <==> i < n && IsMember(cues, group, i)
  {
    if n == 0 {
    } else {
      MembersExact(cues, group, n - 1);
    }
  }

  predicate Inside(ids: seq<nat>, n: nat) {
    forall k :: 0 <= k < |ids| ==> ids[k] < n
  }

  // sorted(events, key=start): a stable insertion sort of positions.
  function InsertByStart(cues: seq<Cue>, sorted: seq<nat>, i: nat): (r: seq<nat>)
    requires i < |cues| && Inside(sorted, |cues|)
    ensures Inside(r, |cues|)
  {
    var n := |sorted|;
    if n > 0 && cues[i].start < cues[sorted[n - 1]].start then InsertByStart(cues, sorted[..n - 1], i) + [sorted[n - 1]]
    else sorted + [i]
  }

  function SortByStart(cues: seq<Cue>, ids: seq<nat>): (r: seq<nat>)
    requires Inside(ids, |cues|)
    ensures Inside(r, |cues|)
  {
    var n := |ids|;
    if n == 0 then [] else InsertByStart(cues, SortByStart(cues, ids[..n - 1]), ids[n - 1])
  }

  lemma {:induction false} InsertSame(cues: seq<Cue>, sorted: seq<nat>, i: nat)
    requires i < |cues| && Inside(sorted, |cues|)
    ensures forall k: nat :: k in InsertByStart(cues, sorted, i) <==> k == i || k in sorted
  {
    var n := |sorted|;
    if n > 0 && cues[i].start < cues[sorted[n - 1]].start {
      InsertSame(cues, sorted[..n - 1], i);
      assert sorted == sorted[..n - 1] + [sorted[n - 1]];
    }
  }

  lemma {:induction false} SortSame(cues: seq<Cue>, ids: seq<nat>)
    requires Inside(ids, |cues|)
    ensures forall k: nat :: k in SortByStart(cues, ids) <==> k in ids
  {
    var n := |ids|;
    if n == 0 {
    } else {
      SortSame(cues, ids[..n - 1]);
      InsertSame(cues, SortByStart(cues, ids[..n - 1]), ids[n - 1]);
      assert ids == ids[..n - 1] + [ids[n - 1]];
    }
  }

  predicate InOrder(cues: seq<Cue>, ids: seq<nat>)
    requires Inside(ids, |cues|)
  {
    forall a, b :: 0 <= a < b < |ids| ==> Before(cues, ids[a], ids[b])
  }

  predicate OneGroup(cues: seq<Cue>, ids: seq<nat>, group: Group)
    requires Inside(ids, |cues|)
  {
    forall k :: 0 <= k < |ids| ==> !cues[ids[k]].isComment && GroupOf(cues[ids[k]]) == group
  }

  lemma {:induction false} InsertInOrder(cues: seq<Cue>, sorted: seq<nat>, i: nat, group: Group)
    requires i < |cues| && Inside(sorted, |cues|) && InOrder(cues, sorted)
    requires OneGroup(cues, sorted, group) && !cues[i].isComment && GroupOf(cues[i]) == group
    requires forall k :: 0 <= k < |sorted| ==> sorted[k] < i
    ensures InOrder(cues, InsertByStart(cues, sorted, i))
    ensures OneGroup(cues, InsertByStart(cues, sorted, i), group)
  {
    var n := |sorted|;
    if n > 0 && cues[i].start < cues[sorted[n - 1]].start {
      var front := InsertByStart(cues, sorted[..n - 1], i);
      InsertInOrder(cues, sorted[..n - 1], i, group);
      InsertSame(cues, sorted[..n - 1], i);
      forall a | 0 <= a < |front|
        ensures Before(cues, front[a], sorted[n - 1])
      {
        assert front[a] in front;
      }
    } else if n > 0 {
      forall a | 0 <= a < n
        ensures Before(cues, sorted[a], i)
      {
        assert a == n - 1 || Before(cues, sorted[a], sorted[n - 1]);
      }
    }
  }

  lemma {:induction false} SortInOrder(cues: seq<Cue>, ids: seq<nat>, group: Group)
    requires Ascending(ids, |cues|) && OneGroup(cues, ids, group)
    ensures InOrder(cues, SortByStart(cues, ids)) && OneGroup(cues, SortByStart(cues, ids), group)
  {
    var n := |ids|;
    if n == 0 {
    } else {
      var front := SortByStart(cues, ids[..n - 1]);
      SortInOrder(cues, ids[..n - 1], group);
      SortSame(cues, ids[..n - 1]);
      forall k | 0 <= k < |front|
        ensures front[k] < ids[n - 1]
      {
        assert front[k] in ids[..n - 1];
      }
      InsertInOrder(cues, front, ids[n - 1], group);
    }
  }

  // A sorted group: every event is directly followed by its successor.
  predicate Chain(cues: seq<Cue>, ids: seq<nat>) {
    && Inside(ids, |cues|)
    && InOrder(cues, ids)
    && forall k :: 0 <= k < |ids| ==> !cues[ids[k]].isComment && Linked(cues, ids, k)
  }

  predicate Linked(cues: seq<Cue>, ids: seq<nat>, k: nat)
    requires Inside(ids, |cues|) && k < |ids|
  {
    Next(cues, ids[k], |cues|) == if k + 1 < |ids| then Some(ids[k + 1]) else None
  }

  lemma {:induction false} SortedGroupIsChain(cues: seq<Cue>, group: Group)
    ensures Chain(cues, SortByStart(cues, Members(cues, group, |cues|)))
  {
    var members := Members(cues, group, |cues|);
    MembersExact(cues, group, |cues|);
    SortSame(cues, members);
    assert forall k :: 0 <= k < |members| ==> members[k] in members;
    SortInOrder(cues, members, group);
    var ids := SortByStart(cues, members);
    forall k | 0 <= k < |ids|
      ensures Linked(cues, ids, k)
    {
      SuccessorIsNext(cues, ids, group, k);
    }
    assert Inside(ids, |cues|) && InOrder(cues, ids);
  }

  lemma {:induction false} SuccessorIsNext(cues: seq<Cue>, ids: seq<nat>, group: Group, k: nat)
    requires Inside(ids, |cues|) && InOrder(cues, ids) && k < |ids|
    requires forall i: nat :: i in ids <==> IsMember(cues, group, i)
    ensures Linked(cues, ids, k)
  {
    var next := Next(cues, ids[k], |cues|);
    assert ids[k] in ids;
    assert k + 1 < |ids| ==> Before(cues, ids[k], ids[k + 1]);
    if next.Some? {
      assert next.value in ids;
      var m :| 0 <= m < |ids| && ids[m] == next.value;
      OrderReflects(cues, ids, k, m);
      if next.value != ids[k + 1] {
        OrderReflects(cues, ids, m, k + 1);
      }
    }
  }

  lemma OrderReflects(cues: seq<Cue>, ids: seq<nat>, a: nat, b: nat)
    requires Inside(ids, |cues|) && InOrder(cues, ids) && a < |ids| && b < |ids|
    requires Before(cues, ids[a], ids[b])
    ensures a < b
  {
  }

  // The positions in the first g chains.
  function Covered(chains: seq<seq<nat>>, g: nat): set<nat>
    requires g <= |chains|
  {
    if g == 0 then {} else Covered(chains, g - 1) + Elements(chains[g - 1])
  }

  // The sorted groups of a file: each non-comment event in exactly one chain.
  ghost predicate IsPartition(cues: seq<Cue>, chains: seq<seq<nat>>) {
    && (forall g :: 0 <= g < |chains| ==> Chain(cues, chains[g]))
    && (forall g :: 0 <= g < |chains| ==> Elements(chains[g]) !! Covered(chains, g))
    && (forall i: nat :: i in Covered(chains, |chains|) <==> i < |cues| && !cues[i].isComment)
  }

  // The dictionary of groups after the first n events, with its keys in insertion order.
  ghost predicate Grouped(cues: seq<Cue>, n: nat, order: seq<Group>, groups: map<Group, seq<nat>>)
    requires n <= |cues|
  {
    && (forall a, b :: 0 <= a < b < |order| ==> order[a] != order[b])
    && (forall group :: group in groups <==> group in order)
    && (forall group :: group in groups ==> groups[group] == Members(cues, group, n))
    && (forall i :: 0 <= i < n && !cues[i].isComment ==> GroupOf(cues[i]) in order)
  }

  // The groups of the first n events, in order of first appearance.
  function GroupsInOrder(cues: seq<Cue>, n: nat): seq<Group>
    requires n <= |cues|
  {
    if n == 0 then []
    else
      var earlier := GroupsInOrder(cues, n - 1);
      if cues[n - 1].isComment || GroupOf(cues[n - 1]) in earlier then earlier
      else earlier + [GroupOf(cues[n - 1])]
  }

  lemma EmptyOrFirst(ids: seq<nat>)
    ensures ids == [] || ids[0] in ids
  {
  }

  lemma {:induction false} NewGroup(cues: seq<Cue>, n: nat, order: seq<Group>, groups: map<Group, seq<nat>>, key: Group)
    requires n <= |cues| && Grouped(cues, n, order, groups) && key !in groups
    ensures Grouped(cues, n, order + [key], groups[key := []])
  {
    MembersExact(cues, key, n);
    EmptyOrFirst(Members(cues, key, n));
  }

  lemma {:induction false} NewMember(cues: seq<Cue>, n: nat, order: seq<Group>, groups: map<Group, seq<nat>>)
    requires n < |cues| && Grouped(cues, n, order, groups)
    requires !cues[n].isComment ==> GroupOf(cues[n]) in groups
    ensures cues[n].isComment ==> Grouped(cues, n + 1, order, groups)
    ensures var key := GroupOf(cues[n]);
      !cues[n].isComment ==> Grouped(cues, n + 1, order, groups[key := groups[key] + [n]])
  {
  }

  lemma NoGroupsYet(cues: seq<Cue>)
    ensures Grouped(cues, 0, [], map[]) && GroupsInOrder(cues, 0) == []
  {
  }

  lemma NextGroupInOrder(cues: seq<Cue>, n: nat)
    requires n < |cues|
    ensures GroupsInOrder(cues, n + 1)
      == if cues[n].isComment || GroupOf(cues[n]) in GroupsInOrder(cues, n) then GroupsInOrder(cues, n)
         else GroupsInOrder(cues, n) + [GroupOf(cues[n])]
  {
  }

  method CollectGroups(file: SubFile) returns (order: seq<Group>, groups: map<Group, seq<nat>>)
    requires file.Valid()
    ensures Grouped(file.Cues(), |file.events|, order, groups)
    ensures order == GroupsInOrder(file.Cues(), |file.events|)
  {
    hide Members, GroupsInOrder, IsMember;
    NoGroupsYet(file.Cues());
    order, groups := [], map[];
    ghost var cues := file.Cues();
    for i := 0 to |file.events|
      invariant Grouped(cues, i, order, groups)
      invariant order == GroupsInOrder(cues, i)
    {
      var event := file.events[i];
      NextGroupInOrder(cues, i);
      if !event.isComment {
        var key := Group(event.style, event.layer);
        assert key == GroupOf(cues[i]);
        if key !in groups {
          NewGroup(cues, i, order, groups, key);
          order := order + [key];
          groups := groups[key := []];
        }
        NewMember(cues, i, order, groups);
        groups := groups[key := groups[key] + [i]];
      } else {
        NewMember(cues, i, order, groups);
      }
    }
  }

  // The sorted members of a group.
  ghost predicate GroupChain(cues: seq<Cue>, group: Group, ids: seq<nat>) {
    Chain(cues, ids) && forall i: nat :: i in ids <==> IsMember(cues, group, i)
  }

  ghost predicate ChainsOf(cues: seq<Cue>, order: seq<Group>, chains: seq<seq<nat>>) {
    |chains| <= |order| && forall h :: 0 <= h < |chains| ==> GroupChain(cues, order[h], chains[h])
  }

  lemma {:induction false} AddChain(cues: seq<Cue>, order: seq<Group>, groups: map<Group, seq<nat>>,
      chains: seq<seq<nat>>)
    requires Grouped(cues, |cues|, order, groups) && ChainsOf(cues, order, chains) && |chains| < |order|
    ensures var group := order[|chains|];
      group in groups && Inside(groups[group], |cues|)
      && ChainsOf(cues, order, chains + [SortByStart(cues, groups[group])])
  {
    var group := order[|chains|];
    assert group in order;
    SortedGroupIsChain(cues, group);
    MembersExact(cues, group, |cues|);
    SortSame(cues, Members(cues, group, |cues|));
  }

  lemma {:induction false} CoveredGroups(cues: seq<Cue>, order: seq<Group>, chains: seq<seq<nat>>, g: nat, i: nat)
    requires ChainsOf(cues, order, chains) && g <= |chains|
    ensures i in Covered(chains, g) <==> i < |cues| && !cues[i].isComment && GroupOf(cues[i]) in order[..g]
  {
    if g > 0 {
      CoveredGroups(cues, order, chains, g - 1, i);
      assert GroupChain(cues, order[g - 1], chains[g - 1]);
      assert order[..g] == order[..g - 1] + [order[g - 1]];
    }
  }

  lemma {:induction false} GroupsPartition(cues: seq<Cue>, order: seq<Group>, groups: map<Group, seq<nat>>,
      chains: seq<seq<nat>>)
    requires Grouped(cues, |cues|, order, groups) && ChainsOf(cues, order, chains) && |order| == |chains|
    ensures IsPartition(cues, chains)
  {
    forall g | 0 <= g < |chains|
      ensures Chain(cues, chains[g]) && Elements(chains[g]) !! Covered(chains, g)
    {
      assert GroupChain(cues, order[g], chains[g]);
      assert order[g] !in order[..g];
      forall i: nat
        ensures !(i in Elements(chains[g]) && i in Covered(chains, g))
      {
        CoveredGroups(cues, order, chains, g, i);
      }
    }
    assert order[..|order|] == order;
    forall i: nat
      ensures i in Covered(chains, |chains|) <==> i < |cues| && !cues[i].isComment
    {
      CoveredGroups(cues, order, chains, |order|, i);
    }
  }

  method SortedGroups(file: SubFile) returns (chains: seq<seq<nat>>)
    requires file.Valid()
    ensures IsPartition(file.Cues(), chains)
  {
    var order, groups := CollectGroups(file);
    chains := SortGroups(file.Cues(), order, groups);
  }

  method SortGroups(cues: seq<Cue>, order: seq<Group>, groups: map<Group, seq<nat>>) returns (chains: seq<seq<nat>>)
    requires Grouped(cues, |cues|, order, groups)
    ensures IsPartition(cues, chains)
  {
    chains := [];
    for g := 0 to |order|
      invariant |chains| == g && ChainsOf(cues, order, chains)
    {
      AddChain(cues, order, groups, chains);
      chains := chains + [SortByStart(cues, groups[order[g]])];
    }
    GroupsPartition(cues, order, groups, chains);
  }
}
