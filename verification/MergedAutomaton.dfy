/** What collapse and merge keep of the full automaton. */
module MergedAutomaton {
  import opened Automaton
  import opened Collapse
  import opened Counting
  import opened MergeStates

  /** Two different members of one group pass the merge condition, in one
      order or the other. */
  lemma MembersMerge(g: Grammar, states: seq<State>, mapping: seq<nat>, groups: seq<Group>, s: nat, t: nat)
    requires Partition(groups, mapping, |states|)
    requires forall k | 0 <= k < |groups| :: PairsMerge(g, states, mapping, groups[k].members)
    requires s < |states| && t < |states| && s != t && mapping[s] == mapping[t]
    ensures CanMerge(g, mapping, states[s], states[t]) || CanMerge(g, mapping, states[t], states[s])
  {
    hide CanMerge;
    var members := groups[mapping[s]].members;
    assert s in members && t in members;
    var i :| 0 <= i < |members| && members[i] == s;
    var j :| 0 <= j < |members| && members[j] == t;
    assert PairsMerge(g, states, mapping, members);
  }

  // ---- actions on one term ---------------------------------------------------------------

  lemma {:induction false} OnTermDistinct(g: Grammar, actions: seq<Action>, term: nat)
    requires ActionsDistinct(g, actions)
    ensures ActionsDistinct(g, OnTerm(actions, term))
  {
    if actions != [] {
      var n := |actions| - 1;
      var front := OnTerm(actions[..n], term);
      OnTermDistinct(g, actions[..n], term);
      forall i | 0 <= i < |front|
        ensures front[i] in actions[..n]
      {
        OnTermMember(actions[..n], term, front[i]);
      }
    }
  }

  /** No mapping makes two actions of one state equivalent to the same action. */
  lemma DistinctMapped(g: Grammar, mapping: seq<nat>, actions: seq<Action>, i: nat, k: nat, b: Action)
    requires ActionsDistinct(g, actions) && i < k < |actions|
    ensures !(EquivalentMapped(g, mapping, actions[i], b) && EquivalentMapped(g, mapping, actions[k], b))
    ensures !Equivalent(g, Mapped(mapping, actions[i]), Mapped(mapping, actions[k]))
  {}

  /** The condition on one term is symmetric for actions of finished states: each
      action on either side has an equivalent on the other. */
  lemma TermCompatibleBoth(g: Grammar, mapping: seq<nat>, left: seq<Action>, right: seq<Action>, b: Action)
    requires ActionsDistinct(g, left) && left != [] && right != []
    requires TermCompatible(g, mapping, left, right) && b in right
    ensures exists a | a in left :: EquivalentMapped(g, mapping, a, b)
  {
    hide EquivalentMapped, ActionsDistinct;
    if AllCross(g, mapping, left, right) {
      assert EquivalentMapped(g, mapping, b, left[0]);
      SymmetricMapped(g, mapping, b, left[0]);
    } else {
      var images := MatchImages(g, mapping, left, right);
      forall i, k | 0 <= i < k < |images|
        ensures images[i] != images[k]
      {
        DistinctMapped(g, mapping, left, i, k, right[images[i]]);
      }
      var target :| 0 <= target < |right| && right[target] == b;
      DistinctOnto(images, target);
      var i :| 0 <= i < |images| && images[i] == target;
      assert left[i] in left;
    }
  }

  lemma MatchImages(g: Grammar, mapping: seq<nat>, left: seq<Action>, right: seq<Action>) returns (images: seq<nat>)
    requires EachFound(g, mapping, left, right)
    ensures |images| == |left|
    ensures forall i | 0 <= i < |images| :: images[i] < |right| && EquivalentMapped(g, mapping, left[i], right[images[i]])
  {
    hide EquivalentMapped;
    images := [];
    while |images| < |left|
      invariant |images| <= |left|
      invariant forall i | 0 <= i < |images| :: images[i] < |right| && EquivalentMapped(g, mapping, left[i], right[images[i]])
    {
      var a := left[|images|];
      assert a in left;
      var c :| c in right && EquivalentMapped(g, mapping, a, c);
      var j: nat :| j < |right| && right[j] == c;
      images := images + [j];
    }
  }

  lemma SymmetricMapped(g: Grammar, mapping: seq<nat>, a: Action, b: Action)
    requires EquivalentMapped(g, mapping, a, b)
    ensures EquivalentMapped(g, mapping, b, a)
  {}

  /** Members of a group that act on a term at all act on it alike. */
  lemma GroupActionsAgree(g: Grammar, mapping: seq<nat>, s: State, t: State, a: Action)
    requires CanMerge(g, mapping, s, t) || CanMerge(g, mapping, t, s)
    requires ActionsDistinct(g, s.actions) && ActionsDistinct(g, t.actions)
    requires a in t.actions && OnTerm(s.actions, a.term) != []
    ensures exists c | c in s.actions :: c.term == a.term && EquivalentMapped(g, mapping, c, a)
  {
    hide EquivalentMapped, OnTerm, TermCompatible, ActionsDistinct;
    var left, right := OnTerm(s.actions, a.term), OnTerm(t.actions, a.term);
    OnTermMember(t.actions, a.term, a);
    OnTermDistinct(g, s.actions, a.term);
    if CanMerge(g, mapping, s, t) {
      TermCompatibleBoth(g, mapping, left, right, a);
    } else {
      CompatibleForward(g, mapping, right, left, a);
    }
    var c :| c in left && EquivalentMapped(g, mapping, c, a);
    OnTermMember(s.actions, a.term, c);
  }

  lemma CompatibleForward(g: Grammar, mapping: seq<nat>, left: seq<Action>, right: seq<Action>, a: Action)
    requires TermCompatible(g, mapping, left, right) && a in left && right != []
    ensures exists c | c in right :: EquivalentMapped(g, mapping, c, a)
  {
    hide EquivalentMapped;
    if AllCross(g, mapping, left, right) {
      assert right[0] in right && EquivalentMapped(g, mapping, right[0], a);
    } else {
      var c :| c in right && EquivalentMapped(g, mapping, a, c);
      SymmetricMapped(g, mapping, a, c);
    }
  }

  /** The collapsed automaton: the final groups and the states merged from them. */
  ghost predicate Collapsed(g: Grammar, states: seq<State>, mapping: seq<nat>, groups: seq<Group>, merged: seq<State>) {
    && Finished(g, states)
    && Partition(groups, mapping, |states|)
    && OriginsUniform(states, groups, mapping)
    && (forall k | 0 <= k < |groups| :: PairsMerge(g, states, mapping, groups[k].members))
    && |merged| == |groups| && Merges(g, states, mapping, merged)
  }

  method CollapseAutomaton(g: Grammar, states: seq<State>)
    returns (merged: seq<State>, mapping: seq<nat>, groups: seq<Group>)
    requires Finished(g, states)
    ensures Collapsed(g, states, mapping, groups, merged)
  {
    hide Finished, OriginsUniform, PairsMerge, Merges;
    ghost var initial, classes;
    mapping, groups, initial, classes := CollapseMapping(g, states);
    forall k | 0 <= k < |groups|
      ensures HasMember(mapping, k)
    {
      assert MembersOf(groups[k].members, mapping, k);
      assert mapping[groups[k].members[0]] == k;
    }
    merged := MergeAll(g, states, mapping, |groups|);
  }

  /** Merging keeps of every state its item core, its skip set and its token
      group, and starts a rule exactly where the full automaton does. */
  lemma HeadersKept(g: Grammar, states: seq<State>, mapping: seq<nat>, groups: seq<Group>, merged: seq<State>, s: nat)
    requires Collapsed(g, states, mapping, groups, merged) && s < |states|
    ensures s < |mapping| && mapping[s] < |merged|
    ensures var to := merged[mapping[s]];
            && to.core == states[s].core && to.skip == states[s].skip && to.tokenGroup == states[s].tokenGroup
            && to.startRule == states[s].startRule
    ensures states[s].startRule.Some? ==> forall t | 0 <= t < |states| && t < |mapping| && mapping[t] == mapping[s] :: t == s
  {
    hide PairsMerge, CollectsActions, CollectsGotos, Finished, Partition, Inequivalent;
    PartitionSize(groups, mapping, |states|);
    var k := mapping[s];
    assert k < |groups| by { MappedInRange(groups, mapping, |states|, s); }
    var first :| 0 <= first < |states| && first < |mapping| && mapping[first] == k && SameHeader(merged[k], states[first]);
    assert first == s || SameClass(states[first], states[s]);
  }

  lemma MappedInRange(groups: seq<Group>, mapping: seq<nat>, count: nat, s: nat)
    requires Partition(groups, mapping, count) && s < count
    ensures s < |mapping| && mapping[s] < |groups|
  {}

  // ---- the merged automaton follows the full one ------------------------------------------

  ghost predicate Step(states: seq<State>, s: nat, term: nat, t: nat) {
    s < |states| && Shift(term, t) in states[s].actions + states[s].gotos
  }

  ghost predicate Reaches(states: seq<State>, s: nat, word: seq<nat>, t: nat)
    decreases |word|
  {
    if word == [] then s == t
    else exists u: nat :: Step(states, s, word[0], u) && Reaches(states, u, word[1..], t)
  }

  lemma StepMerged(g: Grammar, states: seq<State>, mapping: seq<nat>, merged: seq<State>, s: nat, term: nat, t: nat)
    requires |mapping| == |states| && Merges(g, states, mapping, merged)
    requires Step(states, s, term, t) && t < |states|
    ensures Step(merged, mapping[s], term, mapping[t])
  {
    hide CollectsActions, CollectsGotos, HeaderOf, HasEquivalent;
    var k := mapping[s];
    var a := Shift(term, t);
    assert CollectsActions(g, states, mapping, k, |states|, merged[k].actions);
    assert CollectsGotos(g, states, mapping, k, |states|, merged[k].gotos);
    CollectedStep(g, states, mapping, k, s, merged[k].actions, merged[k].gotos, a);
  }

  lemma ShiftExact(g: Grammar, known: seq<Action>, mapping: seq<nat>, a: Action)
    requires HasEquivalent(g, known, Mapped(mapping, a)) && a.Shift?
    ensures Mapped(mapping, a) in known
  {}

  lemma CollectedStep(g: Grammar, states: seq<State>, mapping: seq<nat>, k: nat, s: nat,
                      actions: seq<Action>, gotos: seq<Action>, a: Action)
    requires CollectsActions(g, states, mapping, k, |states|, actions)
    requires CollectsGotos(g, states, mapping, k, |states|, gotos)
    requires s < |states| == |mapping| && mapping[s] == k && a in states[s].actions + states[s].gotos && a.Shift?
    ensures Mapped(mapping, a) in actions + gotos
  {
    hide Inequivalent, HasEquivalent, Mapped;
    if a in states[s].actions {
      ShiftExact(g, actions, mapping, a);
    } else {
      ShiftExact(g, gotos, mapping, a);
    }
  }

  /** Every path of the full automaton is a path of the merged one, for symbol
      strings of any length. */
  lemma {:induction false} PathsMerged(g: Grammar, states: seq<State>, mapping: seq<nat>, groups: seq<Group>,
                                       merged: seq<State>, s: nat, word: seq<nat>, t: nat)
    requires Collapsed(g, states, mapping, groups, merged)
    requires s < |states| && Reaches(states, s, word, t)
    ensures t < |states| && Reaches(merged, mapping[s], word, mapping[t])
    decreases |word|
  {
    hide Merges, Partition, OriginsUniform, PairsMerge, ActionsSorted, ActionsDistinct, GotosSorted;
    if word != [] {
      var u :| Step(states, s, word[0], u) && Reaches(states, u, word[1..], t);
      assert InRange(states[s], |states|);
      assert MappingSize(mapping, |states|) by { PartitionSize(groups, mapping, |states|); }
      StepMerged(g, states, mapping, merged, s, word[0], u);
      PathsMerged(g, states, mapping, groups, merged, u, word[1..], t);
    } else {
      PartitionSize(groups, mapping, |states|);
    }
  }

  predicate MappingSize(mapping: seq<nat>, count: nat) {
    |mapping| == count
  }

  lemma PartitionSize(groups: seq<Group>, mapping: seq<nat>, count: nat)
    requires Partition(groups, mapping, count)
    ensures |mapping| == count
  {}

  lemma MergedActionSource(g: Grammar, states: seq<State>, mapping: seq<nat>, k: nat, out: seq<Action>, b: Action)
    requires |mapping| == |states| && CollectsActions(g, states, mapping, k, |states|, out) && b in out
    ensures exists t :: 0 <= t < |states| && mapping[t] == k && exists a | a in states[t].actions :: b == Mapped(mapping, a)
  {}

  /** Merging adds no conflict: if a member acts on a term at all, every merged
      action on the term is the image of one of the member's own actions. */
  lemma NoNewActions(g: Grammar, states: seq<State>, mapping: seq<nat>, groups: seq<Group>, merged: seq<State>,
                     s: nat, b: Action)
    requires Collapsed(g, states, mapping, groups, merged)
    requires s < |states| && b in merged[mapping[s]].actions && OnTerm(states[s].actions, b.term) != []
    ensures exists a | a in states[s].actions :: a.term == b.term && Equivalent(g, Mapped(mapping, a), b)
  {
    hide OnTerm, CanMerge, ActionsDistinct, PairsMerge, OriginsUniform, ActionsSorted, GotosSorted, InRange,
         CollectsActions, CollectsGotos, HeaderOf, Partition, Inequivalent;
    PartitionSize(groups, mapping, |states|);
    MergedActionSource(g, states, mapping, mapping[s], merged[mapping[s]].actions, b);
    var t :| 0 <= t < |states| && mapping[t] == mapping[s] && exists a | a in states[t].actions :: b == Mapped(mapping, a);
    var a :| a in states[t].actions && b == Mapped(mapping, a);
    if t != s {
      MembersMerge(g, states, mapping, groups, s, t);
      GroupActionsAgree(g, mapping, states[s], states[t], a);
      var c :| c in states[s].actions && c.term == a.term && EquivalentMapped(g, mapping, c, a);
      MappedEquivalent(g, mapping, c, a);
    } else {
      SelfEquivalent(g, b);
    }
  }

  /** If no state of the full automaton has two actions on one term, neither
      has a merged state. */
  lemma StaysDeterministic(g: Grammar, states: seq<State>, mapping: seq<nat>, groups: seq<Group>, merged: seq<State>,
                           k: nat, i: nat, j: nat)
    requires Collapsed(g, states, mapping, groups, merged)
    requires forall s, x, y | 0 <= s < |states| && x in states[s].actions && y in states[s].actions && x.term == y.term ::
               x == y
    requires k < |merged| && i < j < |merged[k].actions|
    ensures merged[k].actions[i].term != merged[k].actions[j].term
  {
    hide OnTerm, Finished, PairsMerge, OriginsUniform, HeaderOf, Partition, HasEquivalent, Mapped, Equivalent;
    var b, c := merged[k].actions[i], merged[k].actions[j];
    if b.term == c.term {
      PartitionSize(groups, mapping, |states|);
      MergedActionSource(g, states, mapping, k, merged[k].actions, b);
      var s :| 0 <= s < |states| && mapping[s] == k && exists a | a in states[s].actions :: b == Mapped(mapping, a);
      var x :| x in states[s].actions && b == Mapped(mapping, x);
      MappedTerm(mapping, x);
      OnTermMember(states[s].actions, b.term, x);
      NoNewActions(g, states, mapping, groups, merged, s, c);
    }
  }

  lemma MappedTerm(mapping: seq<nat>, a: Action)
    ensures Mapped(mapping, a).term == a.term
  {}

  /** A merged state has at most one goto on a term. */
  lemma GotosStayUnique(g: Grammar, states: seq<State>, mapping: seq<nat>, groups: seq<Group>, merged: seq<State>,
                        k: nat, b: Action, c: Action)
    requires Collapsed(g, states, mapping, groups, merged)
    requires k < |merged| && b in merged[k].gotos && c in merged[k].gotos && b.term == c.term
    ensures b == c
  {
    hide ActionsSorted, ActionsDistinct, InRange, PairsMerge, OriginsUniform, HeaderOf, Partition, CollectsActions, CollectsGotos,
         HasEquivalent, Inequivalent, ActionsCompatible, Equivalent;
    PartitionSize(groups, mapping, |states|);
    var s, x := MergedGotoSource(g, states, mapping, k, merged[k].gotos, b);
    var t, y := MergedGotoSource(g, states, mapping, k, merged[k].gotos, c);
    GotoShift(g, states[s].gotos, x, x);
    GotoShift(g, states[t].gotos, y, y);
    if s == t {
      GotoShift(g, states[s].gotos, x, y);
    } else {
      MembersMerge(g, states, mapping, groups, s, t);
    }
  }

  lemma MergedGotoSource(g: Grammar, states: seq<State>, mapping: seq<nat>, k: nat, out: seq<Action>, b: Action)
    returns (s: nat, x: Action)
    requires |mapping| == |states| && CollectsGotos(g, states, mapping, k, |states|, out) && b in out
    ensures s < |states| && mapping[s] == k && x in states[s].gotos && b == Mapped(mapping, x)
  {
    s :| 0 <= s < |states| && mapping[s] == k && exists a | a in states[s].gotos :: b == Mapped(mapping, a);
    x :| x in states[s].gotos && b == Mapped(mapping, x);
  }

  lemma GotoShift(g: Grammar, gotos: seq<Action>, x: Action, y: Action)
    requires GotosSorted(g, gotos) && x in gotos && y in gotos && x.term == y.term
    ensures x == y && x.Shift?
  {}
}
