/** Conservative collapse of the canonical automaton: start from groups of one
    core each and spill states out of a group until all its members agree. */
module Collapse {
  import opened Options
  import opened Automaton
  import opened Counting
  import opened MergeCondition
  import opened PlainCollapse

  datatype GroupSignature = GroupSignature(membershipRevision: nat, dependencyRevision: nat)

  datatype Group = Group(origin: nat, members: seq<nat>, membershipRevision: nat, validated: Option<GroupSignature>)

  function MembershipChanged(group: Group): Group {
    group.(membershipRevision := group.membershipRevision + 1, validated := None)
  }

  // ---- the partition -----------------------------------------------------------------

  /** Groups and mapping describe one partition of the `count` states. */
  ghost predicate Partition(groups: seq<Group>, mapping: seq<nat>, count: nat) {
    && |mapping| == count
    && (forall k | 0 <= k < |groups| :: MembersOf(groups[k].members, mapping, k))
    && (forall s | 0 <= s < count :: mapping[s] < |groups| && s in groups[mapping[s]].members)
  }

  /** The members of group `k`: distinct, at least one, and mapped to `k`. */
  ghost predicate MembersOf(members: seq<nat>, mapping: seq<nat>, k: nat) {
    && members != []
    && (forall i | 0 <= i < |members| :: members[i] < |mapping| && mapping[members[i]] == k)
    && (forall i, j | 0 <= i < j < |members| :: members[i] != members[j])
  }

  predicate SameClass(a: State, b: State) {
    && a.startRule.None? && b.startRule.None?
    && a.tokenGroup == b.tokenGroup && a.skip == b.skip && a.core == b.core
  }

  /** States whose groups come from one original group are of one class. */
  ghost predicate OriginsUniform(states: seq<State>, groups: seq<Group>, mapping: seq<nat>) {
    forall s, t | 0 <= s < |states| && 0 <= t < |states| && s < |mapping| && t < |mapping|
      && mapping[s] < |groups| && mapping[t] < |groups| && groups[mapping[s]].origin == groups[mapping[t]].origin ::
      s == t || SameClass(states[s], states[t])
  }

  ghost predicate PairsMerge(g: Grammar, states: seq<State>, mapping: seq<nat>, members: seq<nat>) {
    forall i, j | 0 <= i < j < |members| && members[i] < |states| && members[j] < |states| ::
      CanMerge(g, mapping, states[members[i]], states[members[j]])
  }

  function Sum(mapping: seq<nat>): nat {
    if mapping == [] then 0 else Sum(mapping[..|mapping| - 1]) + mapping[|mapping| - 1]
  }

  lemma {:induction false} SumUpdate(mapping: seq<nat>, s: nat, value: nat)
    requires s < |mapping|
    ensures Sum(mapping[s := value]) == Sum(mapping) - mapping[s] + value
  {
    var n := |mapping| - 1;
    if s < n {
      SumUpdate(mapping[..n], s, value);
      assert mapping[s := value][..n] == mapping[..n][s := value];
    } else {
      assert mapping[s := value][..n] == mapping[..n];
    }
  }

  lemma {:induction false} SumBound(mapping: seq<nat>, bound: nat)
    requires forall s | 0 <= s < |mapping| :: mapping[s] <= bound
    ensures Sum(mapping) <= |mapping| * bound
  {
    if mapping != [] {
      SumBound(mapping[..|mapping| - 1], bound);
    }
  }

  /** Every group keeps a first member of its own, so there are no more groups
      than states. */
  lemma GroupCount(groups: seq<Group>, mapping: seq<nat>, count: nat)
    requires Partition(groups, mapping, count)
    ensures |groups| <= count
  {
    var firsts := seq(|groups|, k requires 0 <= k < |groups| => groups[k].members[0]);
    forall i, j | 0 <= i < j < |firsts|
      ensures firsts[i] != firsts[j]
    {
      assert MembersOf(groups[i].members, mapping, i) && MembersOf(groups[j].members, mapping, j);
    }
    DistinctBound(firsts, count);
  }

  // ---- the memo -------------------------------------------------------------------------

  function MaxRevision(revisions: seq<nat>, members: seq<nat>): nat {
    if members == [] then 0
    else
      var rest := MaxRevision(revisions, members[..|members| - 1]);
      var last := members[|members| - 1];
      var own := if last < |revisions| then revisions[last] else 0;
      if own > rest then own else rest
  }

  lemma {:induction false} MaxRevisionBounds(revisions: seq<nat>, members: seq<nat>, bound: nat)
    requires forall i | 0 <= i < |members| :: members[i] < |revisions|
    requires forall s | 0 <= s < |revisions| :: revisions[s] <= bound
    ensures MaxRevision(revisions, members) <= bound
    ensures forall i | 0 <= i < |members| :: revisions[members[i]] <= MaxRevision(revisions, members)
  {
    if members != [] {
      MaxRevisionBounds(revisions, members[..|members| - 1], bound);
    }
  }

  lemma {:induction false} MaxRevisionFrame(before: seq<nat>, after: seq<nat>, members: seq<nat>)
    requires |before| == |after|
    requires forall i | 0 <= i < |members| && members[i] < |before| :: before[members[i]] == after[members[i]]
    ensures MaxRevision(before, members) == MaxRevision(after, members)
  {
    if members != [] {
      MaxRevisionFrame(before, after, members[..|members| - 1]);
    }
  }

  /** Revisions after the mapping of one state changed: every source that has
      it as a target gets a stamp above all earlier ones. */
  ghost predicate Restamped(states: seq<State>, before: seq<nat>, after: seq<nat>, stamp: nat, target: nat) {
    && |before| == |after| == |states|
    && forall s | 0 <= s < |states| :: after[s] == if DependsOn(states[s], target) then stamp else before[s]
  }

  /** Remapping a state changes nothing for two states that do not have it as a
      target. */
  lemma MergeUnaffected(g: Grammar, mapping: seq<nat>, state: nat, value: nat, left: State, right: State)
    requires state < |mapping| && !DependsOn(left, state) && !DependsOn(right, state)
    requires CanMerge(g, mapping, left, right)
    ensures CanMerge(g, mapping[state := value], left, right)
  {
    hide CanMerge, DependsOn;
    CanMergeFrame(g, mapping, mapping[state := value], left, right);
  }

  class CollapseMemo {
    const reverseDependencies: seq<seq<nat>>
    var dependencyRevisions: seq<nat>
    var nextRevision: nat
    var truePairs: map<(nat, nat), nat>

    /** The reverse index lists the sources of each target, and no stamp has
        been given that `nextRevision` has not reached. */
    ghost predicate Tracks(states: seq<State>)
      reads this
    {
      && |reverseDependencies| == |states| && |dependencyRevisions| == |states|
      && (forall t | 0 <= t < |states| :: forall s: nat :: s in reverseDependencies[t] <==> s < |states| && DependsOn(states[s], t))
      && (forall s | 0 <= s < |states| :: dependencyRevisions[s] <= nextRevision)
    }

    /** A remembered pair with a current stamp can still be merged. */
    ghost predicate Valid(g: Grammar, states: seq<State>, mapping: seq<nat>)
      reads this
    {
      && Tracks(states)
      && forall l, r | (l, r) in truePairs ::
           && l < |states| && r < |states|
           && truePairs[(l, r)] <= PairRevision(l, r)
           && (truePairs[(l, r)] == PairRevision(l, r) ==> CanMerge(g, mapping, states[l], states[r]))
    }

    function PairRevision(left: nat, right: nat): nat
      reads this
      requires left < |dependencyRevisions| && right < |dependencyRevisions|
    {
      if dependencyRevisions[left] > dependencyRevisions[right] then dependencyRevisions[left]
      else dependencyRevisions[right]
    }

    function Signature(group: Group): GroupSignature
      reads this
    {
      GroupSignature(group.membershipRevision, MaxRevision(dependencyRevisions, group.members))
    }

    predicate IsValidated(group: Group)
      reads this
    {
      group.validated == Some(Signature(group))
    }

    /** The mapping of `state` changed to `value`: stamp its sources. Pairs that
        do not depend on it keep their answers. */
    method MappingChanged(state: nat, ghost g: Grammar, ghost states: seq<State>, ghost mapping: seq<nat>, ghost value: nat)
      requires |mapping| == |states| && state < |states|
      requires Valid(g, states, mapping)
      modifies this`dependencyRevisions, this`nextRevision
      ensures nextRevision == old(nextRevision) + 1
      ensures Restamped(states, old(dependencyRevisions), dependencyRevisions, nextRevision, state)
      ensures Valid(g, states, mapping[state := value])
    {
      hide CanMerge, DependsOn, Image;
      nextRevision := nextRevision + 1;
      var sources := reverseDependencies[state];
      var i := 0;
      while i < |sources|
        invariant 0 <= i <= |sources| && nextRevision == old(nextRevision) + 1
        invariant |dependencyRevisions| == |states|
        invariant forall s | 0 <= s < |states| ::
                    dependencyRevisions[s] == if s in sources[..i] then nextRevision else old(dependencyRevisions[s])
      {
        assert sources[i] in sources;
        assert sources[..i + 1] == sources[..i] + [sources[i]];
        dependencyRevisions := dependencyRevisions[sources[i] := nextRevision];
        i := i + 1;
      }
      assert sources[..|sources|] == sources;
      assert forall s | 0 <= s < |states| :: s in sources <==> DependsOn(states[s], state);
      forall l, r | (l, r) in truePairs
        ensures l < |states| && r < |states| && truePairs[(l, r)] <= PairRevision(l, r)
        ensures truePairs[(l, r)] == PairRevision(l, r) ==> CanMerge(g, mapping[state := value], states[l], states[r])
      {
        if truePairs[(l, r)] == PairRevision(l, r) {
          MergeUnaffected(g, mapping, state, value, states[l], states[r]);
        }
      }
    }

    /** A pair that was just compared is remembered with its stamp. */
    method Remember(left: nat, right: nat, ghost g: Grammar, ghost states: seq<State>, ghost mapping: seq<nat>)
      requires Valid(g, states, mapping) && left < |states| && right < |states|
      requires CanMerge(g, mapping, states[left], states[right])
      modifies this`truePairs
      ensures Valid(g, states, mapping)
    {
      truePairs := truePairs[(left, right) := PairRevision(left, right)];
    }

    constructor (states: seq<State>)
      requires forall s | 0 <= s < |states| :: InRange(states[s], |states|)
      ensures Tracks(states) && truePairs == map[] && nextRevision == 0
      ensures forall s | 0 <= s < |states| :: dependencyRevisions[s] == 0
    {
      var reverse: seq<seq<nat>> := seq(|states|, _ => []);
      var source := 0;
      while source < |states|
        invariant 0 <= source <= |states| == |reverse|
        invariant forall t | 0 <= t < |states| :: forall s: nat :: s in reverse[t] <==> s < source && DependsOn(states[s], t)
      {
        var targets := TargetsOf(states[source]);
        ghost var before := reverse;
        var i := 0;
        while i < |targets|
          invariant 0 <= i <= |targets| && |reverse| == |before|
          invariant forall t | 0 <= t < |states| ::
                      reverse[t] == if t in targets[..i] then before[t] + [source] else before[t]
        {
          assert targets[i] in targets;
          reverse := reverse[targets[i] := reverse[targets[i]] + [source]];
          assert targets[i] !in targets[..i];
          assert targets[..i + 1] == targets[..i] + [targets[i]];
          i := i + 1;
        }
        assert targets[..|targets|] == targets;
        source := source + 1;
      }
      reverseDependencies := reverse;
      dependencyRevisions := seq(|states|, _ => 0);
      nextRevision := 0;
      truePairs := map[];
    }
  }

  /** The distinct targets of a state's shifts and gotos. */
  method TargetsOf(state: State) returns (targets: seq<nat>)
    ensures forall t :: t in targets <==> DependsOn(state, t)
    ensures forall i, j | 0 <= i < j < |targets| :: targets[i] != targets[j]
  {
    var all := state.actions + state.gotos;
    targets := [];
    var i := 0;
    while i < |all|
      invariant 0 <= i <= |all|
      invariant forall t :: t in targets <==> exists a | a in all[..i] :: a.Shift? && a.target == t
      invariant forall i, j | 0 <= i < j < |targets| :: targets[i] != targets[j]
    {
      assert all[..i + 1] == all[..i] + [all[i]];
      if all[i].Shift? && all[i].target !in targets {
        targets := targets + [all[i].target];
      }
      i := i + 1;
    }
    assert all[..|all|] == all;
  }

  // ---- validated groups ------------------------------------------------------------------

  /** A group whose signature is still current holds only pairs that merge. */
  ghost predicate GroupValid(g: Grammar, states: seq<State>, mapping: seq<nat>, revisions: seq<nat>, group: Group) {
    group.validated.Some? ==>
      && group.validated.value.membershipRevision == group.membershipRevision
      && group.validated.value.dependencyRevision <= MaxRevision(revisions, group.members)
      && (group.validated.value.dependencyRevision == MaxRevision(revisions, group.members) ==>
            PairsMerge(g, states, mapping, group.members))
  }

  lemma GroupStaysValid(g: Grammar, states: seq<State>, mapping: seq<nat>, state: nat, value: nat,
                        before: seq<nat>, after: seq<nat>, stamp: nat, group: Group)
    requires |mapping| == |states| && state < |states|
    requires Restamped(states, before, after, stamp, state) && stamp > 0
    requires forall s | 0 <= s < |before| :: before[s] < stamp
    requires forall i | 0 <= i < |group.members| :: group.members[i] < |states|
    requires GroupValid(g, states, mapping, before, group)
    ensures GroupValid(g, states, mapping[state := value], after, group)
  {
    hide DependsOn, CanMerge, MaxRevision;
    if group.validated.Some? {
      if i :| 0 <= i < |group.members| && DependsOn(states[group.members[i]], state) {
        MaxRevisionBounds(before, group.members, stamp - 1);
        MaxRevisionBounds(after, group.members, stamp);
        assert after[group.members[i]] == stamp;
      } else {
        MaxRevisionFrame(before, after, group.members);
        if group.validated.value.dependencyRevision == MaxRevision(before, group.members) {
          forall i, j | 0 <= i < j < |group.members|
            ensures CanMerge(g, mapping[state := value], states[group.members[i]], states[group.members[j]])
          {
            MergeUnaffected(g, mapping, state, value, states[group.members[i]], states[group.members[j]]);
          }
        }
      }
    }
  }

  // ---- spilling ---------------------------------------------------------------------------

  /** Groups and mapping without their revisions. */
  function View(groups: seq<Group>, mapping: seq<nat>): (p: Plain)
    ensures |p.groups| == |groups|
  {
    Plain(seq(|groups|, k requires 0 <= k < |groups| => PlainGroup(groups[k].origin, groups[k].members)), mapping)
  }

  /** The groups after moving the member at `index` of group `from` to `to`. */
  function Moved(groups: seq<Group>, from: nat, index: nat, to: nat): (moved: seq<Group>)
    requires from < |groups| && index < |groups[from].members| && to <= |groups| && to != from
    ensures |moved| == if to < |groups| then |groups| else |groups| + 1
  {
    var state := groups[from].members[index];
    var removed := groups[from := groups[from].(members := SwapRemove(groups[from].members, index))];
    if to < |groups| then removed[to := removed[to].(members := removed[to].members + [state])]
    else removed + [Group(groups[from].origin, [state], 0, None)]
  }

  lemma ViewMoved(groups: seq<Group>, mapping: seq<nat>, from: nat, index: nat, to: nat)
    requires from < to <= |groups| && index < |groups[from].members|
    ensures View(Moved(groups, from, index, to), Remapped(mapping, groups[from].members[index], to))
         == PlainMoved(View(groups, mapping), from, index, to)
  {
    hide SwapRemove;
    var moved := View(Moved(groups, from, index, to), Remapped(mapping, groups[from].members[index], to));
    var plain := PlainMoved(View(groups, mapping), from, index, to);
    assert |moved.groups| == |plain.groups|;
    assert forall k :: 0 <= k < |moved.groups| ==> moved.groups[k] == plain.groups[k];
  }

  lemma SwapRemoveMembers(members: seq<nat>, index: nat)
    requires index < |members|
    requires forall i, j | 0 <= i < j < |members| :: members[i] != members[j]
    ensures |SwapRemove(members, index)| == |members| - 1
    ensures forall x :: x in SwapRemove(members, index) <==> x in members && x != members[index]
    ensures forall i, j | 0 <= i < j < |members| - 1 :: SwapRemove(members, index)[i] != SwapRemove(members, index)[j]
    ensures index > 0 ==> |members| > 1 && SwapRemove(members, index)[0] == members[0]
  {
    var removed := SwapRemove(members, index);
    var n := |members| - 1;
    forall x | x in members && x != members[index]
      ensures x in removed
    {
      var i :| 0 <= i < |members| && members[i] == x;
      assert removed[if i == n then index else i] == x;
    }
  }

  lemma PartitionMoved(states: seq<State>, groups: seq<Group>, mapping: seq<nat>, from: nat, index: nat, to: nat)
    requires Partition(groups, mapping, |states|) && OriginsUniform(states, groups, mapping)
    requires from < to <= |groups| && 0 < index < |groups[from].members|
    requires to < |groups| ==> groups[to].origin == groups[from].origin
    ensures var state := groups[from].members[index];
            && state < |states| && mapping[state] == from
            && Partition(Moved(groups, from, index, to), mapping[state := to], |states|)
            && OriginsUniform(states, Moved(groups, from, index, to), mapping[state := to])
  {
    hide OriginsUniform, Moved;
    assert MembersOf(groups[from].members, mapping, from);
    MovedMembers(groups, mapping, |states|, from, index, to);
    MovedMapped(groups, mapping, |states|, from, index, to);
    var state := groups[from].members[index];
    OriginsKept(states, groups, mapping, Moved(groups, from, index, to), mapping[state := to]);
  }

  /** Every state is where the mapping says, in a group of its old origin. */
  lemma MovedMapped(groups: seq<Group>, mapping: seq<nat>, count: nat, from: nat, index: nat, to: nat)
    requires Partition(groups, mapping, count) && from < to <= |groups| && 0 < index < |groups[from].members|
    requires to < |groups| ==> groups[to].origin == groups[from].origin
    requires groups[from].members[index] < |mapping|
    ensures var groups', mapping' := Moved(groups, from, index, to), mapping[groups[from].members[index] := to];
            forall s | 0 <= s < count ::
              && mapping'[s] < |groups'| && s in groups'[mapping'[s]].members
              && groups'[mapping'[s]].origin == groups[mapping[s]].origin
  {
    hide SwapRemove;
    var state := groups[from].members[index];
    var groups', mapping' := Moved(groups, from, index, to), mapping[state := to];
    assert MembersOf(groups[from].members, mapping, from);
    SwapRemoveMembers(groups[from].members, index);
    assert groups'[from].members == SwapRemove(groups[from].members, index);
    forall s | 0 <= s < count
      ensures mapping'[s] < |groups'| && s in groups'[mapping'[s]].members
      ensures groups'[mapping'[s]].origin == groups[mapping[s]].origin
    {
      assert s in groups[mapping[s]].members;
    }
  }

  lemma OriginsKept(states: seq<State>, groups: seq<Group>, mapping: seq<nat>, groups': seq<Group>, mapping': seq<nat>)
    requires OriginsUniform(states, groups, mapping) && |mapping| == |mapping'| == |states|
    requires forall s | 0 <= s < |states| :: mapping[s] < |groups| && mapping'[s] < |groups'|
               && groups'[mapping'[s]].origin == groups[mapping[s]].origin
    ensures OriginsUniform(states, groups', mapping')
  {
    hide SameClass;
  }

  lemma MovedMembers(groups: seq<Group>, mapping: seq<nat>, count: nat, from: nat, index: nat, to: nat)
    requires Partition(groups, mapping, count)
    requires from < to <= |groups| && 0 < index < |groups[from].members|
    ensures var state, groups' := groups[from].members[index], Moved(groups, from, index, to);
            forall k | 0 <= k < |groups'| :: MembersOf(groups'[k].members, mapping[state := to], k)
  {
    hide SwapRemove;
    var state, groups' := groups[from].members[index], Moved(groups, from, index, to);
    assert MembersOf(groups[from].members, mapping, from);
    forall k | 0 <= k < |groups'|
      ensures MembersOf(groups'[k].members, mapping[state := to], k)
    {
      if k == from {
        MembersRemoved(groups[from].members, mapping, from, index, to);
      } else if k == to && to < |groups| {
        assert MembersOf(groups[to].members, mapping, to);
      } else if k < |groups| {
        assert MembersOf(groups[k].members, mapping, k);
      }
    }
  }

  lemma MembersRemoved(members: seq<nat>, mapping: seq<nat>, k: nat, index: nat, to: nat)
    requires MembersOf(members, mapping, k) && 0 < index < |members|
    ensures MembersOf(SwapRemove(members, index), mapping[members[index] := to], k)
  {
    hide SwapRemove;
    SwapRemoveMembers(members, index);
    var left := SwapRemove(members, index);
    forall i | 0 <= i < |left|
      ensures left[i] < |mapping| && mapping[members[index] := to][left[i]] == k
    {
      assert left[i] in left;
      var j :| 0 <= j < |members| && members[j] == left[i];
    }
  }

  datatype Spilled = Spilled(state: nat, destination: nat)

  /** Move the member at `index` to the first later group of the same origin
      that it can join, or to a new one. */
  method Spill(g: Grammar, states: seq<State>, groupId: nat, index: nat, groups: seq<Group>, mapping: seq<nat>)
    returns (groups': seq<Group>, mapping': seq<nat>, spill: Spilled)
    requires Finished(g, states)
    requires Partition(groups, mapping, |states|)
    requires groupId < |groups| && 0 < index < |groups[groupId].members|
    ensures spill.state == groups[groupId].members[index]
    ensures groupId < spill.destination <= |groups|
    ensures groups' == Moved(groups, groupId, index, spill.destination)
    ensures mapping' == mapping[spill.state := spill.destination]
    ensures spill.destination < |groups| ==>
              && groups[spill.destination].origin == groups[groupId].origin
              && forall i | 0 <= i < |groups[spill.destination].members|
                   && groups[spill.destination].members[i] < |states| ::
                   CanMerge(g, mapping', states[spill.state], states[groups[spill.destination].members[i]])
    ensures forall c :: groupId < c < spill.destination ==>
              !CanJoin(g, states, View(groups, mapping), groupId, spill.state, c)
    ensures View(groups', mapping') == PlainSpill(g, states, View(groups, mapping), groupId, index)
  {
    hide CanMerge, Moved, ActionsSorted, GotosSorted;
    ghost var p := View(groups, mapping);
    assert MembersOf(groups[groupId].members, mapping, groupId);
    var state := groups[groupId].members[index];
    var origin := groups[groupId].origin;
    var candidate := groupId + 1;
    while candidate < |groups|
      invariant groupId < candidate <= |groups|
      invariant forall c :: groupId < c < candidate ==> !CanJoin(g, states, p, groupId, state, c)
    {
      if groups[candidate].origin == origin {
        mapping' := mapping[state := candidate];
        var members := groups[candidate].members;
        assert MembersOf(members, mapping, candidate);
        var fits := true;
        var i := 0;
        while i < |members|
          invariant 0 <= i <= |members| && fits
          invariant forall j | 0 <= j < i :: members[j] < |states| && CanMerge(g, mapping', states[state], states[members[j]])
        {
          fits := ComputeCanMerge(g, mapping', states[state], states[members[i]]);
          if !fits {
            assert members[i] in p.groups[candidate].members;
            break;
          }
          i := i + 1;
        }
        if fits {
          DestinationIs(g, states, p, groupId, state, groupId + 1, candidate);
          ViewMoved(groups, mapping, groupId, index, candidate);
          return Moved(groups, groupId, index, candidate), mapping', Spilled(state, candidate);
        }
      }
      candidate := candidate + 1;
    }
    DestinationIs(g, states, p, groupId, state, groupId + 1, |groups|);
    ViewMoved(groups, mapping, groupId, index, |groups|);
    groups' := Moved(groups, groupId, index, |groups|);
    mapping' := mapping[state := |groups|];
    spill := Spilled(state, |groups|);
  }

  ghost predicate Consistent(g: Grammar, states: seq<State>, groups: seq<Group>, mapping: seq<nat>, memo: CollapseMemo)
    reads memo
  {
    && Partition(groups, mapping, |states|)
    && OriginsUniform(states, groups, mapping)
    && memo.Valid(g, states, mapping)
    && forall k | 0 <= k < |groups| :: GroupValid(g, states, mapping, memo.dependencyRevisions, groups[k])
  }

  /** A spill together with its bookkeeping: sources of the moved state get a
      new stamp, and both groups lose their validation. */
  method SpillMember(g: Grammar, states: seq<State>, groupId: nat, index: nat,
                     groups: seq<Group>, mapping: seq<nat>, memo: CollapseMemo)
    returns (groups': seq<Group>, mapping': seq<nat>)
    requires Finished(g, states) && Consistent(g, states, groups, mapping, memo)
    requires groupId < |groups| && 0 < index < |groups[groupId].members|
    modifies memo
    ensures Consistent(g, states, groups', mapping', memo)
    ensures |groups| <= |groups'| && |groups'[groupId].members| < |groups[groupId].members|
    ensures Sum(mapping') > Sum(mapping)
    ensures View(groups', mapping') == PlainSpill(g, states, View(groups, mapping), groupId, index)
  {
    hide OriginsUniform, Sum, PairsMerge, DependsOn, Finished, PlainSpill, CanJoin;
    var spill: Spilled;
    groups', mapping', spill := Spill(g, states, groupId, index, groups, mapping);
    PartitionMoved(states, groups, mapping, groupId, index, spill.destination);
    SumUpdate(mapping, spill.state, spill.destination);
    ghost var before := memo.dependencyRevisions;
    memo.MappingChanged(spill.state, g, states, mapping, spill.destination);
    assert |groups'[groupId].members| == |groups[groupId].members| - 1;
    ghost var moved := groups';
    groups' := groups'[groupId := MembershipChanged(groups'[groupId])];
    groups' := groups'[spill.destination := MembershipChanged(groups'[spill.destination])];
    SameMembers(states, moved, groups', mapping');
    SameView(moved, groups', mapping');
    forall k | 0 <= k < |groups'|
      ensures GroupValid(g, states, mapping', memo.dependencyRevisions, groups'[k])
    {
      if k != groupId && k != spill.destination {
        assert groups'[k] == groups[k];
        assert MembersOf(groups[k].members, mapping, k);
        GroupStaysValid(g, states, mapping, spill.state, spill.destination, before, memo.dependencyRevisions,
                        memo.nextRevision, groups[k]);
      }
    }
  }

  /** Partition and origins do not look at the revision fields. */
  lemma SameMembers(states: seq<State>, groups: seq<Group>, groups': seq<Group>, mapping: seq<nat>)
    requires Partition(groups, mapping, |states|) && OriginsUniform(states, groups, mapping)
    requires |groups| == |groups'|
    requires forall k | 0 <= k < |groups| ::
               groups[k].members == groups'[k].members && groups[k].origin == groups'[k].origin
    ensures Partition(groups', mapping, |states|) && OriginsUniform(states, groups', mapping)
  {
    hide SameClass, MembersOf;
    assert forall k | 0 <= k < |groups'| :: MembersOf(groups'[k].members, mapping, k);
  }

  lemma SameView(groups: seq<Group>, groups': seq<Group>, mapping: seq<nat>)
    requires |groups| == |groups'|
    requires forall k | 0 <= k < |groups| ::
               groups[k].members == groups'[k].members && groups[k].origin == groups'[k].origin
    ensures View(groups, mapping) == View(groups', mapping)
  {}

  ghost predicate PairsMergeTo(g: Grammar, states: seq<State>, mapping: seq<nat>, members: seq<nat>, left: nat, right: nat) {
    forall i, j | 0 <= i < j < |members| && (i < left || (i == left && j < right))
      && members[i] < |states| && members[j] < |states| ::
      CanMerge(g, mapping, states[members[i]], states[members[j]])
  }

  /** One pass over the pairs of a group, spilling every later member that does
      not fit an earlier one; a pass without a spill validates the group. */
  method ScanGroup(g: Grammar, states: seq<State>, groupId: nat, groups: seq<Group>, mapping: seq<nat>, memo: CollapseMemo)
    returns (groups': seq<Group>, mapping': seq<nat>, spilled: bool)
    requires Finished(g, states) && Consistent(g, states, groups, mapping, memo) && groupId < |groups|
    modifies memo
    ensures Consistent(g, states, groups', mapping', memo) && |groups| <= |groups'|
    ensures spilled ==> Sum(mapping') > Sum(mapping)
    ensures !spilled ==>
              && mapping' == mapping && groups' == groups[groupId := groups'[groupId]]
              && groups'[groupId].members == groups[groupId].members
              && PairsMerge(g, states, mapping, groups[groupId].members)
    ensures View(groups', mapping') == PlainScan(g, states, View(groups, mapping), groupId, 0)
  {
    hide *;
    groups', mapping', spilled := groups, mapping, false;
    ghost var p := View(groups, mapping);
    ViewsMembers(p, groups, mapping, groupId);
    ghost var scanned := PlainScan(g, states, p, groupId, 0);
    NoPairs(g, states, mapping, groups[groupId].members);
    var left := 0;
    while left + 1 < |groups'[groupId].members|
      invariant Consistent(g, states, groups', mapping', memo) && |groups| <= |groups'|
      invariant if spilled then Sum(mapping') > Sum(mapping)
                else mapping' == mapping && groups' == groups
                     && PairsMergeTo(g, states, mapping, groups[groupId].members, left, 0)
      invariant p == View(groups', mapping') && groupId < |p.groups| == |groups'| && p.mapping == mapping'
      invariant p.groups[groupId].members == groups'[groupId].members
      invariant PlainScan(g, states, p, groupId, left) == scanned
      decreases |groups'[groupId].members| - left
    {
      var right := left + 1;
      ScanStep(g, states, p, groupId, left);
      ghost var row := PlainRow(g, states, p, groupId, left, right);
      ghost var length := |groups'[groupId].members|;
      FirstRight(g, states, mapping, groups[groupId].members, left);
      while right < |groups'[groupId].members|
        invariant |groups| <= |groups'| && left < right && |groups'[groupId].members| <= length
        invariant Consistent(g, states, groups', mapping', memo)
        invariant if spilled then Sum(mapping') > Sum(mapping)
                  else mapping' == mapping && groups' == groups
                       && PairsMergeTo(g, states, mapping, groups[groupId].members, left, right)
        invariant p == View(groups', mapping') && groupId < |p.groups| == |groups'| && p.mapping == mapping'
        invariant p.groups[groupId].members == groups'[groupId].members
        invariant PlainRow(g, states, p, groupId, left, right) == row
        decreases |groups'[groupId].members| - right
      {
        ConsistentMembers(g, states, groups', mapping', memo, groupId);
        var leftState, rightState := groups'[groupId].members[left], groups'[groupId].members[right];
        var revision := memo.PairRevision(leftState, rightState);
        if (leftState, rightState) in memo.truePairs && memo.truePairs[(leftState, rightState)] == revision {
          Remembered(g, states, groups', mapping', memo, leftState, rightState);
          PairFits(g, states, mapping', leftState, rightState);
          RowFits(g, states, p, groupId, left, right);
          OneMorePair(g, states, mapping', groups'[groupId].members, left, right);
          right := right + 1;
          continue;
        }
        StateSorted(g, states, leftState);
        StateSorted(g, states, rightState);
        var fits := ComputeCanMerge(g, mapping', states[leftState], states[rightState]);
        if fits {
          RememberPair(g, states, groups', mapping', memo, leftState, rightState);
          PairFits(g, states, mapping', leftState, rightState);
          RowFits(g, states, p, groupId, left, right);
          OneMorePair(g, states, mapping', groups'[groupId].members, left, right);
          right := right + 1;
          continue;
        }
        PairFits(g, states, mapping', leftState, rightState);
        RowSpills(g, states, p, groupId, left, right);
        groups', mapping' := SpillMember(g, states, groupId, right, groups', mapping', memo);
        p := PlainSpill(g, states, p, groupId, right);
        ViewsMembers(p, groups', mapping', groupId);
        spilled := true;
      }
      RowEnds(g, states, p, groupId, left, right);
      NextLeft(g, states, mapping, groups[groupId].members, left, right);
      left := left + 1;
    }
    ScanStep(g, states, p, groupId, left);
    if !spilled {
      AllPairs(g, states, mapping, groups[groupId].members, left);
      groups' := MarkValidated(g, states, groups, mapping, memo, groupId);
    }
  }

  lemma ViewsMembers(p: Plain, groups: seq<Group>, mapping: seq<nat>, k: nat)
    requires p == View(groups, mapping) && k < |groups|
    ensures k < |p.groups| == |groups| && p.groups[k].members == groups[k].members && p.mapping == mapping
  {}

  lemma PairFits(g: Grammar, states: seq<State>, mapping: seq<nat>, left: nat, right: nat)
    requires left < |states| && right < |states|
    ensures CanMerge(g, mapping, states[left], states[right]) <==> Fits(g, states, mapping, left, right)
  {}

  /** Give a group whose pairs were all checked its current signature. */
  method MarkValidated(g: Grammar, states: seq<State>, groups: seq<Group>, mapping: seq<nat>, memo: CollapseMemo, k: nat)
    returns (groups': seq<Group>)
    requires Consistent(g, states, groups, mapping, memo) && k < |groups|
    requires PairsMerge(g, states, mapping, groups[k].members)
    ensures Consistent(g, states, groups', mapping, memo) && |groups'| == |groups|
    ensures groups' == groups[k := groups'[k]] && groups'[k].members == groups[k].members
    ensures View(groups', mapping) == View(groups, mapping)
  {
    hide OriginsUniform, Partition, PairsMerge;
    groups' := groups[k := groups[k].(validated := Some(memo.Signature(groups[k])))];
    SameMembers(states, groups, groups', mapping);
    SameView(groups, groups', mapping);
  }

  method RememberPair(g: Grammar, states: seq<State>, groups: seq<Group>, mapping: seq<nat>, memo: CollapseMemo,
                      left: nat, right: nat)
    requires Consistent(g, states, groups, mapping, memo) && left < |states| && right < |states|
    requires CanMerge(g, mapping, states[left], states[right])
    modifies memo`truePairs
    ensures Consistent(g, states, groups, mapping, memo)
  {
    hide OriginsUniform, Partition, PairsMerge, CanMerge, GroupValid;
    memo.Remember(left, right, g, states, mapping);
  }

  lemma ConsistentMembers(g: Grammar, states: seq<State>, groups: seq<Group>, mapping: seq<nat>, memo: CollapseMemo, k: nat)
    requires Consistent(g, states, groups, mapping, memo) && k < |groups|
    ensures |memo.dependencyRevisions| == |states|
    ensures forall i | 0 <= i < |groups[k].members| :: groups[k].members[i] < |states|
  {
    assert MembersOf(groups[k].members, mapping, k);
  }

  lemma Remembered(g: Grammar, states: seq<State>, groups: seq<Group>, mapping: seq<nat>, memo: CollapseMemo, l: nat, r: nat)
    requires Consistent(g, states, groups, mapping, memo) && l < |memo.dependencyRevisions| && r < |memo.dependencyRevisions|
    requires (l, r) in memo.truePairs && memo.truePairs[(l, r)] == memo.PairRevision(l, r)
    ensures l < |states| && r < |states| && CanMerge(g, mapping, states[l], states[r])
  {}

  lemma NoPairs(g: Grammar, states: seq<State>, mapping: seq<nat>, members: seq<nat>)
    ensures PairsMergeTo(g, states, mapping, members, 0, 0)
  {}

  lemma FirstRight(g: Grammar, states: seq<State>, mapping: seq<nat>, members: seq<nat>, left: nat)
    ensures PairsMergeTo(g, states, mapping, members, left, 0) ==>
              PairsMergeTo(g, states, mapping, members, left, left + 1)
  {}

  lemma OneMorePair(g: Grammar, states: seq<State>, mapping: seq<nat>, members: seq<nat>, left: nat, right: nat)
    requires left < right < |members| && members[left] < |states| && members[right] < |states|
    requires CanMerge(g, mapping, states[members[left]], states[members[right]])
    ensures PairsMergeTo(g, states, mapping, members, left, right) ==>
              PairsMergeTo(g, states, mapping, members, left, right + 1)
  {
    hide CanMerge;
  }

  lemma NextLeft(g: Grammar, states: seq<State>, mapping: seq<nat>, members: seq<nat>, left: nat, right: nat)
    ensures left < right && right >= |members| && PairsMergeTo(g, states, mapping, members, left, right) ==>
              PairsMergeTo(g, states, mapping, members, left + 1, 0)
  {}

  lemma StateSorted(g: Grammar, states: seq<State>, s: nat)
    requires Finished(g, states) && s < |states|
    ensures ActionsSorted(g, states[s].actions) && GotosSorted(g, states[s].gotos)
    ensures forall a, b | g.outputId(a) == g.outputId(b) :: a == b
  {}

  lemma AllPairs(g: Grammar, states: seq<State>, mapping: seq<nat>, members: seq<nat>, left: nat)
    requires PairsMergeTo(g, states, mapping, members, left, 0) && left + 1 >= |members|
    ensures PairsMerge(g, states, mapping, members)
  {}

  // ---- collapse -----------------------------------------------------------------------------

  /** No two groups hold states of one class, and groups stand in order of
      their first members. */
  ghost predicate ClassesApart(states: seq<State>, groups: seq<Group>) {
    forall j, k | 0 <= j < k < |groups| && groups[j].members != [] && groups[k].members != []
      && groups[j].members[0] < |states| && groups[k].members[0] < |states| ::
      && !SameClass(states[groups[k].members[0]], states[groups[j].members[0]])
      && groups[j].members[0] < groups[k].members[0]
  }

  /** The members of a group, in ascending order, have the class of the first. */
  ghost predicate OneClass(states: seq<State>, members: seq<nat>) {
    && members != []
    && (forall i, j | 0 <= i < j < |members| :: members[i] < members[j])
    && forall i | 0 < i < |members| && members[0] < |states| && members[i] < |states| ::
         SameClass(states[members[i]], states[members[0]])
  }

  /** One group for each class of states. */
  ghost predicate GroupedByClass(states: seq<State>, groups: seq<Group>) {
    && ClassesApart(states, groups)
    && forall k | 0 <= k < |groups| ::
         groups[k].origin == k && groups[k].validated.None? && OneClass(states, groups[k].members)
  }

  /** The initial groups: one for each class of states, in order of appearance.
      Two states share a group if and only if they are of one class. */
  method InitialGroups(states: seq<State>) returns (groups: seq<Group>, mapping: seq<nat>)
    ensures Partition(groups, mapping, |states|)
    ensures GroupedByClass(states, groups)
    ensures forall s, t | 0 <= s < |states| && 0 <= t < |states| && s != t ::
              mapping[s] == mapping[t] <==> SameClass(states[s], states[t])
  {
    hide SameClass;
    groups, mapping := [], [];
    var stateId := 0;
    while stateId < |states|
      invariant 0 <= stateId <= |states|
      invariant Partition(groups, mapping, stateId)
      invariant GroupedByClass(states, groups)
    {
      var state := states[stateId];
      var matched: Option<nat> := None;
      if state.startRule.None? {
        var groupId := 0;
        while groupId < |groups|
          invariant 0 <= groupId <= |groups| && matched.None?
          invariant NoneOfClass(states, groups, stateId, groupId)
        {
          assert MembersOf(groups[groupId].members, mapping, groupId);
          var other := states[groups[groupId].members[0]];
          if state.tokenGroup == other.tokenGroup && state.skip == other.skip && other.startRule.None?
             && state.core == other.core
          {
            matched := Some(groupId);
            assert SameClass(state, other) by { ClassOf(state, other); }
            break;
          }
          assert !SameClass(state, other) by { NotClassOf(state, other); }
          groupId := groupId + 1;
        }
      } else {
        NoneLikeStart(states, groups, stateId);
      }
      if matched.Some? {
        var k := matched.value;
        JoinGroup(states, groups, mapping, k);
        groups := groups[k := groups[k].(members := groups[k].members + [stateId])];
        mapping := mapping + [k];
      } else {
        NewGroup(states, groups, mapping);
        mapping := mapping + [|groups|];
        groups := groups + [Group(|groups|, [stateId], 0, None)];
      }
      stateId := stateId + 1;
    }
    ClassesShared(states, groups, mapping);
  }

  ghost predicate NoneOfClass(states: seq<State>, groups: seq<Group>, s: nat, n: nat) {
    forall k | 0 <= k < n && k < |groups| && groups[k].members != [] && groups[k].members[0] < |states| && s < |states| ::
      !SameClass(states[s], states[groups[k].members[0]])
  }

  lemma NotClassOf(a: State, b: State)
    requires !(a.tokenGroup == b.tokenGroup && a.skip == b.skip && b.startRule.None? && a.core == b.core)
    ensures !SameClass(a, b)
  {}

  lemma NoneLikeStart(states: seq<State>, groups: seq<Group>, s: nat)
    requires s < |states| && states[s].startRule.Some?
    ensures NoneOfClass(states, groups, s, |groups|)
  {}

  lemma ClassesShared(states: seq<State>, groups: seq<Group>, mapping: seq<nat>)
    requires Partition(groups, mapping, |states|) && GroupedByClass(states, groups)
    ensures forall s, t | 0 <= s < |states| && 0 <= t < |states| && s != t ::
              mapping[s] == mapping[t] <==> SameClass(states[s], states[t])
  {
    InitialUniform(states, groups, mapping);
    forall s, t | 0 <= s < |states| && 0 <= t < |states| && s != t
      ensures mapping[s] == mapping[t] <==> SameClass(states[s], states[t])
    {
      if SameClass(states[s], states[t]) && mapping[s] != mapping[t] {
        var j, k := mapping[s], mapping[t];
        LikeFirst(states, groups, mapping, s);
        LikeFirst(states, groups, mapping, t);
      }
    }
  }

  lemma LikeFirst(states: seq<State>, groups: seq<Group>, mapping: seq<nat>, s: nat)
    requires Partition(groups, mapping, |states|) && GroupedByClass(states, groups) && s < |states|
    ensures var k := mapping[s];
            k < |groups| && groups[k].members != [] && groups[k].members[0] < |states|
            && (s == groups[k].members[0] || SameClass(states[s], states[groups[k].members[0]]))
  {
    hide SameClass;
    var k := mapping[s];
    assert MembersOf(groups[k].members, mapping, k);
    var i :| 0 <= i < |groups[k].members| && groups[k].members[i] == s;
  }

  lemma ClassOf(a: State, b: State)
    requires a.startRule.None? && b.startRule.None?
    requires a.tokenGroup == b.tokenGroup && a.skip == b.skip && a.core == b.core
    ensures SameClass(a, b)
  {}

  lemma JoinGroup(states: seq<State>, groups: seq<Group>, mapping: seq<nat>, k: nat)
    requires Partition(groups, mapping, |mapping|) && GroupedByClass(states, groups) && |mapping| < |states|
    requires k < |groups| && groups[k].members[0] < |states|
    requires SameClass(states[|mapping|], states[groups[k].members[0]])
    ensures var groups' := groups[k := groups[k].(members := groups[k].members + [|mapping|])];
            Partition(groups', mapping + [k], |mapping| + 1) && GroupedByClass(states, groups')
  {
    hide SameClass, OneClass, ClassesApart;
    var groups' := groups[k := groups[k].(members := groups[k].members + [|mapping|])];
    forall j | 0 <= j < |groups'|
      ensures MembersOf(groups'[j].members, mapping + [k], j)
    {
      assert MembersOf(groups[j].members, mapping, j);
    }
    assert MembersOf(groups[k].members, mapping, k);
    OneClassJoined(states, groups[k].members, |mapping|);
    ClassesApartJoined(states, groups, k, |mapping|);
  }

  lemma OneClassJoined(states: seq<State>, members: seq<nat>, s: nat)
    requires OneClass(states, members) && s < |states| && members[0] < |states|
    requires SameClass(states[s], states[members[0]]) && forall i | 0 <= i < |members| :: members[i] < s
    ensures OneClass(states, members + [s])
  {
    hide SameClass;
  }

  lemma ClassesApartJoined(states: seq<State>, groups: seq<Group>, k: nat, s: nat)
    requires ClassesApart(states, groups) && k < |groups| && groups[k].members != []
    ensures ClassesApart(states, groups[k := groups[k].(members := groups[k].members + [s])])
  {
    hide SameClass;
    var groups' := groups[k := groups[k].(members := groups[k].members + [s])];
    assert forall j | 0 <= j < |groups| ::
      (groups[j].members == [] <==> groups'[j].members == [])
      && (groups[j].members != [] ==> groups'[j].members[0] == groups[j].members[0]);
  }

  lemma NewGroup(states: seq<State>, groups: seq<Group>, mapping: seq<nat>)
    requires Partition(groups, mapping, |mapping|) && GroupedByClass(states, groups)
    requires NoneOfClass(states, groups, |mapping|, |groups|)
    ensures var groups' := groups + [Group(|groups|, [|mapping|], 0, None)];
            Partition(groups', mapping + [|groups|], |mapping| + 1) && GroupedByClass(states, groups')
  {
    hide SameClass, ClassesApart;
    var groups' := groups + [Group(|groups|, [|mapping|], 0, None)];
    forall j | 0 <= j < |groups'|
      ensures MembersOf(groups'[j].members, mapping + [|groups|], j)
      ensures OneClass(states, groups'[j].members)
    {
      if j < |groups| {
        assert MembersOf(groups[j].members, mapping, j);
      }
    }
    ClassesApartNew(states, groups, mapping);
  }

  lemma ClassesApartNew(states: seq<State>, groups: seq<Group>, mapping: seq<nat>)
    requires Partition(groups, mapping, |mapping|) && ClassesApart(states, groups)
    requires NoneOfClass(states, groups, |mapping|, |groups|)
    ensures ClassesApart(states, groups + [Group(|groups|, [|mapping|], 0, None)])
  {
    hide SameClass;
    forall k | 0 <= k < |groups| ensures groups[k].members != [] && groups[k].members[0] < |mapping| {
      assert MembersOf(groups[k].members, mapping, k);
    }
  }

  lemma InitialUniform(states: seq<State>, groups: seq<Group>, mapping: seq<nat>)
    requires Partition(groups, mapping, |states|) && GroupedByClass(states, groups)
    ensures OriginsUniform(states, groups, mapping)
  {
    forall s, t | 0 <= s < |states| && 0 <= t < |states| && mapping[s] < |groups| && mapping[t] < |groups|
      && groups[mapping[s]].origin == groups[mapping[t]].origin
      ensures s == t || SameClass(states[s], states[t])
    {
      var k := mapping[s];
      assert MembersOf(groups[k].members, mapping, k);
      assert s in groups[k].members && t in groups[k].members;
      var i :| 0 <= i < |groups[k].members| && groups[k].members[i] == s;
      var j :| 0 <= j < |groups[k].members| && groups[k].members[j] == t;
      assert i > 0 ==> SameClass(states[s], states[groups[k].members[0]]);
      assert j > 0 ==> SameClass(states[t], states[groups[k].members[0]]);
    }
  }

  /** The mapping sum cannot exceed the square of the number of states. */
  lemma SpillBudget(groups: seq<Group>, mapping: seq<nat>, count: nat)
    requires Partition(groups, mapping, count)
    ensures Sum(mapping) <= count * count
  {
    GroupCount(groups, mapping, count);
    SumBound(mapping, count);
  }

  /** Collapse: when it stops, every pair of members of every group passes the
      merge condition under the final mapping. It stops because each spill
      raises the group index of one state. */
  method CollapseMapping(g: Grammar, states: seq<State>)
    returns (mapping: seq<nat>, groups: seq<Group>, ghost initial: seq<Group>, ghost classes: seq<nat>)
    requires Finished(g, states)
    ensures Partition(initial, classes, |states|) && GroupedByClass(states, initial)
    ensures PlainResult(g, states, View(initial, classes), View(groups, mapping))
    ensures Partition(groups, mapping, |states|)
    ensures OriginsUniform(states, groups, mapping)
    ensures forall k | 0 <= k < |groups| :: PairsMerge(g, states, mapping, groups[k].members)
  {
    hide OriginsUniform, Sum, PairsMerge, GroupValid, DependsOn, ActionsSorted, ActionsDistinct, GotosSorted, View,
      PlainPass, GroupedByClass;
    groups, mapping := InitialGroups(states);
    initial, classes := groups, mapping;
    ghost var start := View(groups, mapping);
    ghost var passes: nat := 0;
    InitialUniform(states, groups, mapping);
    var memo := new CollapseMemo(states);
    Unvalidated(states, groups);
    FirstConsistent(g, states, groups, mapping, memo);
    hide Consistent, Partition, Finished;
    while true
      invariant Consistent(g, states, groups, mapping, memo)
      invariant fresh(memo)
      invariant View(groups, mapping) == Passes(g, states, start, passes)
      decreases |states| * |states| - Sum(mapping)
    {
      ConsistentPartition(g, states, groups, mapping, memo);
      SpillBudget(groups, mapping, |states|);
      ghost var before := mapping;
      var conflicts;
      groups, mapping, conflicts := ScanGroups(g, states, groups, mapping, memo);
      ConsistentPartition(g, states, groups, mapping, memo);
      if !conflicts {
        return;
      }
      SpillBudget(groups, mapping, |states|);
      passes := passes + 1;
    }
  }

  /** One pass over the groups there are at its start: what comparing every pair
      anew would do. */
  method ScanGroups(g: Grammar, states: seq<State>, groups: seq<Group>, mapping: seq<nat>, memo: CollapseMemo)
    returns (groups': seq<Group>, mapping': seq<nat>, conflicts: bool)
    requires Finished(g, states) && Consistent(g, states, groups, mapping, memo)
    modifies memo
    ensures Consistent(g, states, groups', mapping', memo)
    ensures View(groups', mapping') == PlainPass(g, states, View(groups, mapping))
    ensures if conflicts then Sum(mapping') > Sum(mapping)
            else View(groups', mapping') == View(groups, mapping)
                 && forall k | 0 <= k < |groups'| :: PairsMerge(g, states, mapping', groups'[k].members)
  {
    hide Consistent, OriginsUniform, Sum, PairsMerge, View, PlainPass, PlainGroups, PlainScan, Partition, Finished;
    groups', mapping', conflicts := groups, mapping, false;
    ghost var plain := View(groups, mapping);
    PassStarts(g, states, plain);
    var groupId := 0;
    while groupId < |groups|
      invariant 0 <= groupId <= |groups| <= |groups'|
      invariant Consistent(g, states, groups', mapping', memo)
      invariant if conflicts then Sum(mapping') > Sum(mapping) else Sum(mapping') == Sum(mapping) && |groups'| == |groups|
      invariant !conflicts ==> forall k | 0 <= k < groupId :: PairsMerge(g, states, mapping', groups'[k].members)
      invariant !conflicts ==> View(groups', mapping') == plain
      invariant PlainGroups(g, states, View(groups', mapping'), groupId, |groups|) == PlainPass(g, states, plain)
    {
      GroupsStep(g, states, View(groups', mapping'), groupId, |groups|);
      ConsistentPartition(g, states, groups', mapping', memo);
      if memo.IsValidated(groups'[groupId]) {
        SkippedGroup(g, states, groups', mapping', memo, groupId);
        SkipChangesNothing(g, states, groups', mapping', groupId);
        groupId := groupId + 1;
        continue;
      }
      var spilled;
      UnspilledChangesNothing(g, states, groups', mapping', groupId);
      groups', mapping', spilled := ScanGroup(g, states, groupId, groups', mapping', memo);
      conflicts := conflicts || spilled;
      groupId := groupId + 1;
    }
    GroupsDone(g, states, View(groups', mapping'), |groups|);
  }

  lemma Unvalidated(states: seq<State>, groups: seq<Group>)
    requires GroupedByClass(states, groups)
    ensures forall k | 0 <= k < |groups| :: groups[k].validated.None?
  {}

  lemma PassStarts(g: Grammar, states: seq<State>, p: Plain)
    ensures PlainPass(g, states, p) == PlainGroups(g, states, p, 0, |p.groups|)
  {}

  lemma GroupsDone(g: Grammar, states: seq<State>, p: Plain, count: nat)
    requires count <= |p.groups|
    ensures PlainGroups(g, states, p, count, count) == p
  {}

  lemma AllMergeFit(g: Grammar, states: seq<State>, groups: seq<Group>, mapping: seq<nat>, k: nat)
    requires Partition(groups, mapping, |states|) && k < |groups|
    requires PairsMerge(g, states, mapping, groups[k].members)
    ensures AllFit(g, states, mapping, View(groups, mapping).groups[k].members)
  {
    hide CanMerge;
    assert MembersOf(groups[k].members, mapping, k);
  }

  /** Skipping a group whose pairs merge is what comparing them anew would do. */
  lemma SkipChangesNothing(g: Grammar, states: seq<State>, groups: seq<Group>, mapping: seq<nat>, k: nat)
    requires Partition(groups, mapping, |states|) && k < |groups|
    requires PairsMerge(g, states, mapping, groups[k].members)
    ensures PlainScan(g, states, View(groups, mapping), k, 0) == View(groups, mapping)
  {
    hide PlainScan;
    AllMergeFit(g, states, groups, mapping, k);
    ScanUnchanged(g, states, View(groups, mapping), k, 0);
  }

  lemma UnspilledChangesNothing(g: Grammar, states: seq<State>, groups: seq<Group>, mapping: seq<nat>, k: nat)
    requires Partition(groups, mapping, |states|) && k < |groups|
    ensures PairsMerge(g, states, mapping, groups[k].members) ==>
              PlainScan(g, states, View(groups, mapping), k, 0) == View(groups, mapping)
  {
    hide PlainScan, View;
    if PairsMerge(g, states, mapping, groups[k].members) {
      SkipChangesNothing(g, states, groups, mapping, k);
    }
  }

  lemma FirstConsistent(g: Grammar, states: seq<State>, groups: seq<Group>, mapping: seq<nat>, memo: CollapseMemo)
    requires Partition(groups, mapping, |states|) && OriginsUniform(states, groups, mapping)
    requires forall k | 0 <= k < |groups| :: groups[k].validated.None?
    requires memo.Tracks(states) && memo.truePairs == map[]
    ensures Consistent(g, states, groups, mapping, memo)
  {}

  lemma ConsistentPartition(g: Grammar, states: seq<State>, groups: seq<Group>, mapping: seq<nat>, memo: CollapseMemo)
    requires Consistent(g, states, groups, mapping, memo)
    ensures Partition(groups, mapping, |states|) && OriginsUniform(states, groups, mapping)
  {}

  /** A skipped group has a current signature, so its pairs still merge. */
  lemma SkippedGroup(g: Grammar, states: seq<State>, groups: seq<Group>, mapping: seq<nat>, memo: CollapseMemo, k: nat)
    requires Consistent(g, states, groups, mapping, memo) && k < |groups| && memo.IsValidated(groups[k])
    ensures PairsMerge(g, states, mapping, groups[k].members)
  {}
}
