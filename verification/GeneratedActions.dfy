/** What the actions of merged states do, and what the row writer is given of them. */
module GeneratedActions {
  import opened Automaton
  import opened Collapse
  import opened Counting
  import opened MergeStates
  import opened MergedAutomaton
  import W = ActionWriter

  ghost predicate DistinctActions(g: Grammar, states: seq<State>) {
    forall k :: 0 <= k < |states| ==> ActionsDistinct(g, states[k].actions)
  }

  /** Collapse and merge leave no state with two shifts, or two equivalent
      reductions, on one term. */
  lemma MergedDistinct(g: Grammar, states: seq<State>, mapping: seq<nat>, groups: seq<Group>, merged: seq<State>)
    requires Collapsed(g, states, mapping, groups, merged)
    ensures DistinctActions(g, merged)
  {
    hide Collapsed, ActionsDistinct;
    forall k | 0 <= k < |merged| ensures ActionsDistinct(g, merged[k].actions) {
      MergedStateDistinct(g, states, mapping, groups, merged, k);
    }
  }

  lemma MergedStateDistinct(g: Grammar, states: seq<State>, mapping: seq<nat>, groups: seq<Group>, merged: seq<State>,
                            k: nat)
    requires Collapsed(g, states, mapping, groups, merged) && k < |merged|
    ensures ActionsDistinct(g, merged[k].actions)
  {
    var actions := merged[k].actions;
    assert Inequivalent(g, actions);
    hide Collapsed, Inequivalent;
    forall i, j | 0 <= i < j < |actions| && actions[i].term == actions[j].term
      ensures !(actions[i].Shift? && actions[j].Shift?)
      ensures !(actions[i].Reduce? && actions[j].Reduce? && SameReduce(g, actions[i].rule, actions[j].rule))
    {
      InequivalentAt(g, actions, i, j);
      SelfEquivalent(g, actions[i]);
      if actions[i].Shift? && actions[j].Shift? {
        OneShift(g, states, mapping, groups, merged, k, actions[i], actions[j]);
      }
    }
  }

  lemma InequivalentAt(g: Grammar, actions: seq<Action>, i: nat, j: nat)
    requires Inequivalent(g, actions) && i < j < |actions|
    ensures !Equivalent(g, actions[i], actions[j])
  {
    hide Equivalent;
  }

  /** All shifts of a merged state on a term are the same. */
  lemma OneShift(g: Grammar, states: seq<State>, mapping: seq<nat>, groups: seq<Group>, merged: seq<State>,
                 k: nat, b: Action, c: Action)
    requires Collapsed(g, states, mapping, groups, merged) && k < |merged|
    requires b in merged[k].actions && c in merged[k].actions && b.Shift? && c.Shift? && b.term == c.term
    ensures b == c
  {
    hide ActionsSorted, ActionsDistinct, GotosSorted, InRange, PairsMerge, OriginsUniform, HeaderOf, Partition,
      CollectsActions, CollectsGotos, CanMerge, OnTerm;
    PartitionSize(groups, mapping, |states|);
    var s, x := MergedActionFrom(g, states, mapping, k, merged[k].actions, b);
    var t, y := MergedActionFrom(g, states, mapping, k, merged[k].actions, c);
    if s == t {
      ShiftUnique(g, states[s].actions, x, y);
    } else {
      MembersMerge(g, states, mapping, groups, s, t);
      OnTermMember(states[s].actions, x.term, x);
      GroupActionsAgree(g, mapping, states[s], states[t], y);
      var z :| z in states[s].actions && z.term == y.term && EquivalentMapped(g, mapping, z, y);
      ShiftUnique(g, states[s].actions, x, z);
    }
  }

  lemma MergedActionFrom(g: Grammar, states: seq<State>, mapping: seq<nat>, k: nat, out: seq<Action>, b: Action)
    returns (s: nat, x: Action)
    requires |mapping| == |states| && CollectsActions(g, states, mapping, k, |states|, out) && b in out
    ensures s < |states| && mapping[s] == k && x in states[s].actions && b == Mapped(mapping, x)
  {
    s :| 0 <= s < |states| && mapping[s] == k && exists a | a in states[s].actions :: b == Mapped(mapping, a);
    x :| x in states[s].actions && b == Mapped(mapping, x);
  }

  lemma ShiftUnique(g: Grammar, actions: seq<Action>, x: Action, y: Action)
    requires ActionsDistinct(g, actions) && x in actions && y in actions
    requires x.Shift? && y.Shift? && x.term == y.term
    ensures x == y
  {
    var i :| 0 <= i < |actions| && actions[i] == x;
    var j :| 0 <= j < |actions| && actions[j] == y;
  }

  // ---- what the merge condition means to the parser -----------------------

  /** On the same term, two actions lead to the same merged state, or reduce by
      the same code. */
  ghost predicate ActAlike(c: W.Context, mapping: seq<nat>, a: Action, b: Action)
    requires W.Known(c, a) && W.Known(c, b)
  {
    match (a, b)
    case (Shift(t, x), Shift(u, y)) => t == u && Image(mapping, x) == Image(mapping, y)
    case (Reduce(t, r), Reduce(u, s)) => t == u && W.ReduceAction(c, r) == W.ReduceAction(c, s)
    case _ => false
  }

  ghost predicate KnownActions(c: W.Context, actions: seq<Action>) {
    forall a <- actions :: W.Known(c, a)
  }

  /** Rules are short enough for their depth to be stored. */
  ghost predicate Shallow(c: W.Context, actions: seq<Action>)
    requires KnownActions(c, actions)
  {
    forall a <- actions | a.Reduce? :: |c.g.rules[a.rule].parts| < W.DEPTH_LIMIT
  }

  ghost predicate DistinctIds(g: Grammar) {
    forall a, b | g.outputId(a) == g.outputId(b) :: a == b
  }

  lemma EquivalentAlike(c: W.Context, mapping: seq<nat>, a: Action, b: Action)
    requires W.Known(c, a) && W.Known(c, b) && EquivalentMapped(c.g, mapping, a, b)
    ensures ActAlike(c, mapping, a, b)
  {
    hide SameReduce, W.ReduceAction;
    if a.Reduce? { W.SameReduceSameCode(c, a.rule, b.rule); }
  }

  lemma AlikeIffEquivalent(c: W.Context, mapping: seq<nat>, a: Action, b: Action)
    requires W.Known(c, a) && W.Known(c, b) && DistinctIds(c.g)
    requires Shallow(c, [a]) && Shallow(c, [b])
    ensures ActAlike(c, mapping, a, b) <==> EquivalentMapped(c.g, mapping, a, b)
  {
    hide SameReduce, W.ReduceAction;
    assert a in [a] && b in [b];
    if a.Reduce? && b.Reduce? { W.SameReduceIffSameCode(c, a.rule, b.rule); }
  }

  /** Whatever one state does on the term, the other does alike. */
  ghost predicate Covers(c: W.Context, mapping: seq<nat>, left: seq<Action>, right: seq<Action>, term: nat)
    requires KnownActions(c, left) && KnownActions(c, right)
  {
    forall a <- left | a.term == term :: exists b <- right :: ActAlike(c, mapping, a, b)
  }

  ghost predicate ActsOn(actions: seq<Action>, term: nat) {
    exists a <- actions :: a.term == term
  }

  lemma ActsIffOnTerm(actions: seq<Action>, term: nat)
    ensures ActsOn(actions, term) <==> OnTerm(actions, term) != []
  {
    forall a ensures a in OnTerm(actions, term) <==> a in actions && a.term == term {
      OnTermMember(actions, term, a);
    }
    if OnTerm(actions, term) != [] { assert OnTerm(actions, term)[0] in OnTerm(actions, term); }
  }

  /** On every term on which both act, two states do the same, and on every
      common nonterminal they go to the same merged state. */
  ghost predicate StatesAlike(c: W.Context, mapping: seq<nat>, s: State, t: State)
    requires KnownActions(c, s.actions) && KnownActions(c, t.actions)
  {
    && (forall term | ActsOn(s.actions, term) && ActsOn(t.actions, term) ::
          && Covers(c, mapping, s.actions, t.actions, term)
          && Covers(c, mapping, t.actions, s.actions, term))
    && (forall a <- s.gotos, b <- t.gotos | a.term == b.term && a.Shift? && b.Shift? ::
          Image(mapping, a.target) == Image(mapping, b.target))
  }

  lemma MergingCovers(c: W.Context, mapping: seq<nat>, s: State, t: State, term: nat)
    requires CanMerge(c.g, mapping, s, t) || CanMerge(c.g, mapping, t, s)
    requires ActionsDistinct(c.g, s.actions) && ActionsDistinct(c.g, t.actions)
    requires KnownActions(c, s.actions) && KnownActions(c, t.actions) && ActsOn(s.actions, term)
    ensures Covers(c, mapping, t.actions, s.actions, term)
  {
    hide CanMerge, ActionsDistinct, OnTerm, W.Known, ActAlike, EquivalentMapped;
    ActsIffOnTerm(s.actions, term);
    forall a <- t.actions | a.term == term ensures exists b <- s.actions :: ActAlike(c, mapping, a, b) {
      GroupActionsAgree(c.g, mapping, s, t, a);
      var b :| b in s.actions && b.term == a.term && EquivalentMapped(c.g, mapping, b, a);
      SymmetricMapped(c.g, mapping, b, a);
      EquivalentAlike(c, mapping, a, b);
    }
  }

  /** States that may merge do the same wherever both do anything. */
  lemma MergeableAlike(c: W.Context, mapping: seq<nat>, s: State, t: State)
    requires CanMerge(c.g, mapping, s, t) || CanMerge(c.g, mapping, t, s)
    requires ActionsDistinct(c.g, s.actions) && ActionsDistinct(c.g, t.actions)
    requires KnownActions(c, s.actions) && KnownActions(c, t.actions)
    ensures StatesAlike(c, mapping, s, t)
  {
    hide ActionsCompatible, ActionsDistinct, Covers, W.Known;
    forall term | ActsOn(s.actions, term) && ActsOn(t.actions, term)
      ensures Covers(c, mapping, s.actions, t.actions, term) && Covers(c, mapping, t.actions, s.actions, term)
    {
      MergingCovers(c, mapping, s, t, term);
      MergingCovers(c, mapping, t, s, term);
    }
  }

  /** Each action of the one list has its own equivalent in the other. */
  lemma FoundBound(g: Grammar, mapping: seq<nat>, left: seq<Action>, right: seq<Action>)
    requires ActionsDistinct(g, left) && EachFound(g, mapping, left, right)
    ensures |left| <= |right|
  {
    hide EquivalentMapped, ActionsDistinct;
    var images := MatchImages(g, mapping, left, right);
    forall i, k | 0 <= i < k < |images| ensures images[i] != images[k] {
      DistinctMapped(g, mapping, left, i, k, right[images[i]]);
    }
    DistinctBound(images, |right|);
  }

  lemma FoundCompatible(g: Grammar, mapping: seq<nat>, left: seq<Action>, right: seq<Action>)
    requires ActionsDistinct(g, left) && ActionsDistinct(g, right)
    requires EachFound(g, mapping, left, right) && EachFound(g, mapping, right, left)
    ensures TermCompatible(g, mapping, left, right)
  {
    hide EquivalentMapped, ActionsDistinct;
    FoundBound(g, mapping, left, right);
    FoundBound(g, mapping, right, left);
    if |right| == 1 {
      assert right[0] in right && left == [left[0]] && right == [right[0]];
    }
  }

  lemma CoversFound(c: W.Context, mapping: seq<nat>, left: seq<Action>, right: seq<Action>, term: nat)
    requires KnownActions(c, left) && KnownActions(c, right) && DistinctIds(c.g)
    requires Shallow(c, left) && Shallow(c, right) && Covers(c, mapping, left, right, term)
    ensures EachFound(c.g, mapping, OnTerm(left, term), OnTerm(right, term))
  {
    hide EquivalentMapped, W.Known, OnTerm;
    forall a <- OnTerm(left, term) ensures exists b <- OnTerm(right, term) :: EquivalentMapped(c.g, mapping, a, b) {
      OnTermMember(left, term, a);
      var b :| b in right && ActAlike(c, mapping, a, b);
      AlikeIffEquivalent(c, mapping, a, b);
      OnTermMember(right, term, b);
    }
  }

  /** The merge condition holds exactly of states that the parser cannot tell
      apart where both act: the same codes on common terms, the same targets. */
  lemma CanMergeIffAlike(c: W.Context, mapping: seq<nat>, s: State, t: State)
    requires DistinctIds(c.g) && GotosSorted(c.g, s.gotos) && GotosSorted(c.g, t.gotos)
    requires ActionsDistinct(c.g, s.actions) && ActionsDistinct(c.g, t.actions)
    requires KnownActions(c, s.actions) && KnownActions(c, t.actions)
    requires Shallow(c, s.actions) && Shallow(c, t.actions)
    ensures CanMerge(c.g, mapping, s, t) <==> StatesAlike(c, mapping, s, t)
  {
    hide ActionsDistinct, TermCompatible, KnownActions, Covers, OnTerm;
    if CanMerge(c.g, mapping, s, t) {
      MergeableAlike(c, mapping, s, t);
    } else if StatesAlike(c, mapping, s, t) {
      forall term: nat | OnTerm(s.actions, term) != [] && OnTerm(t.actions, term) != []
        ensures TermCompatible(c.g, mapping, OnTerm(s.actions, term), OnTerm(t.actions, term))
      {
        ActsIffOnTerm(s.actions, term);
        ActsIffOnTerm(t.actions, term);
        CoversFound(c, mapping, s.actions, t.actions, term);
        CoversFound(c, mapping, t.actions, s.actions, term);
        OnTermDistinct(c.g, s.actions, term);
        OnTermDistinct(c.g, t.actions, term);
        FoundCompatible(c.g, mapping, OnTerm(s.actions, term), OnTerm(t.actions, term));
      }
      GotosAlike(c.g, mapping, s.gotos, t.gotos);
    }
  }

  lemma GotosAlike(g: Grammar, mapping: seq<nat>, left: seq<Action>, right: seq<Action>)
    requires GotosSorted(g, left) && GotosSorted(g, right)
    requires forall a <- left, b <- right | a.term == b.term && a.Shift? && b.Shift? ::
               Image(mapping, a.target) == Image(mapping, b.target)
    ensures GotosCompatible(g, mapping, left, right)
  {}

  // ---- what merged states do ----------------------------------------------

  /** Members of one group do the same wherever both do anything. */
  lemma GroupMembersAlike(c: W.Context, states: seq<State>, mapping: seq<nat>, groups: seq<Group>, merged: seq<State>,
                          s: nat, t: nat)
    requires Collapsed(c.g, states, mapping, groups, merged)
    requires s < |states| && t < |states| && s != t && s < |mapping| && t < |mapping| && mapping[s] == mapping[t]
    requires KnownActions(c, states[s].actions) && KnownActions(c, states[t].actions)
    ensures StatesAlike(c, mapping, states[s], states[t])
  {
    hide CanMerge, ActionsDistinct, PairsMerge, OriginsUniform, ActionsSorted, GotosSorted, InRange, Merges,
      KnownActions, StatesAlike;
    MembersMerge(c.g, states, mapping, groups, s, t);
    MergeableAlike(c, mapping, states[s], states[t]);
  }

  /** If a member acts on a term at all, whatever its merged state does on the
      term has the code of one of the member's own actions. */
  lemma NoNewCodes(c: W.Context, states: seq<State>, mapping: seq<nat>, groups: seq<Group>, merged: seq<State>,
                   s: nat, b: Action)
    requires Collapsed(c.g, states, mapping, groups, merged)
    requires s < |states| && s < |mapping| && mapping[s] < |merged| && b in merged[mapping[s]].actions
    requires ActsOn(states[s].actions, b.term)
    requires KnownActions(c, states[s].actions) && W.Known(c, b) && W.Codable(b)
    ensures exists a <- states[s].actions ::
              && W.Known(c, Mapped(mapping, a)) && W.Codable(Mapped(mapping, a))
              && W.Code(c, Mapped(mapping, a)) == W.Code(c, b)
  {
    hide Collapsed, OnTerm, SameReduce, W.ReduceAction;
    ActsIffOnTerm(states[s].actions, b.term);
    NoNewActions(c.g, states, mapping, groups, merged, s, b);
    var a :| a in states[s].actions && a.term == b.term && Equivalent(c.g, Mapped(mapping, a), b);
    if a.Reduce? { W.SameReduceSameCode(c, a.rule, b.rule); }
  }

  // ---- states that are dropped and renumbered -----------------------------

  /** Dropping states and renumbering targets makes no two actions alike: each
      term has one shift at most. */
  lemma {:induction false} RetargetedDistinct(g: Grammar, states: seq<State>, mapping: seq<nat>, from: seq<nat>,
                                              after: seq<State>)
    requires DistinctActions(g, states) && |from| == |after|
    requires forall k :: 0 <= k < |after| ==>
               from[k] < |states| && Retargeted(mapping, states[from[k]].actions, after[k].actions)
    ensures DistinctActions(g, after)
  {
    hide SameReduce;
    forall k | 0 <= k < |after| ensures ActionsDistinct(g, after[k].actions) {
      assert ActionsDistinct(g, states[from[k]].actions);
    }
  }

  // ---- what the row writer is given ---------------------------------------

  /** The actions of the writer's states are those of the automaton. */
  ghost predicate SameActions(states: seq<State>, inputs: seq<W.StateInput>) {
    |inputs| == |states| && forall k :: 0 <= k < |states| ==> inputs[k].actions == states[k].actions
  }

  lemma NoneTwice(g: Grammar, actions: seq<Action>)
    requires ActionsDistinct(g, actions)
    ensures W.Distinct(actions)
  {}

  /** So of the states of a generated automaton the row writer only has to ask
      that ids fit and that nothing shifts to state zero. */
  lemma WriterStates(c: W.Context, states: seq<State>, inputs: seq<W.StateInput>)
    requires DistinctActions(c.g, states) && SameActions(states, inputs)
    requires forall s <- inputs :: W.Writable(c, s.actions)
    ensures W.GoodStates(c, inputs)
  {
    hide W.Writable, W.Distinct, ActionsDistinct;
    forall s <- inputs ensures W.Distinct(s.actions) {
      var k :| 0 <= k < |inputs| && inputs[k] == s;
      NoneTwice(c.g, states[k].actions);
    }
  }
}
