/** States and actions of the full canonical LR(1) automaton, and the merge
    condition as a definition over all common terms. */
module Automaton {
  import opened Options

  datatype Action =
    | Shift(term: nat, target: nat)
    | Reduce(term: nat, rule: nat)

  datatype Rule = Rule(name: nat, parts: seq<nat>)

  /** `outputId` is the table id of a term; `repeated` the repeat terms. */
  datatype Grammar = Grammar(rules: seq<Rule>, repeated: set<nat>, outputId: nat -> nat)

  datatype State = State(actions: seq<Action>, gotos: seq<Action>, core: seq<(nat, nat)>,
                         tokenGroup: Option<nat>, skip: nat, startRule: Option<nat>)

  predicate IsRepeatWrap(g: Grammar, rule: Rule) {
    rule.name in g.repeated && |rule.parts| == 2 && rule.parts[0] == rule.name
  }

  predicate SameReduce(g: Grammar, a: nat, b: nat) {
    a == b ||
    (a < |g.rules| && b < |g.rules| &&
     var left, right := g.rules[a], g.rules[b];
     left.name == right.name && |left.parts| == |right.parts| && IsRepeatWrap(g, left) == IsRepeatWrap(g, right))
  }

  /** The group of a target state. Targets are always in range. */
  function Image(mapping: seq<nat>, target: nat): nat {
    if target < |mapping| then mapping[target] else target
  }

  predicate EquivalentMapped(g: Grammar, mapping: seq<nat>, a: Action, b: Action) {
    match (a, b)
    case (Shift(t, x), Shift(u, y)) => t == u && Image(mapping, x) == Image(mapping, y)
    case (Reduce(t, r), Reduce(u, s)) => t == u && SameReduce(g, r, s)
    case _ => false
  }

  predicate Equivalent(g: Grammar, a: Action, b: Action) {
    match (a, b)
    case (Shift(t, x), Shift(u, y)) => t == u && x == y
    case (Reduce(t, r), Reduce(u, s)) => t == u && SameReduce(g, r, s)
    case _ => false
  }

  function Mapped(mapping: seq<nat>, a: Action): Action {
    match a
    case Shift(term, target) => Shift(term, Image(mapping, target))
    case Reduce(term, rule) => Reduce(term, rule)
  }

  /** The same actions, or all of them with targets renumbered. */
  ghost predicate Retargeted(mapping: seq<nat>, before: seq<Action>, after: seq<Action>) {
    after == before || after == seq(|before|, i requires 0 <= i < |before| => Mapped(mapping, before[i]))
  }

  /** The actions on one term, shifts before reductions. */
  function OnTerm(actions: seq<Action>, term: nat): seq<Action> {
    if actions == [] then []
    else OnTerm(actions[..|actions| - 1], term)
         + (if actions[|actions| - 1].term == term then [actions[|actions| - 1]] else [])
  }

  predicate AllCross(g: Grammar, mapping: seq<nat>, left: seq<Action>, right: seq<Action>) {
    forall a, b | a in left && b in right :: EquivalentMapped(g, mapping, b, a)
  }

  predicate EachFound(g: Grammar, mapping: seq<nat>, left: seq<Action>, right: seq<Action>) {
    forall a | a in left :: exists b | b in right :: EquivalentMapped(g, mapping, a, b)
  }

  /** Two lists of actions on the same term do not conflict. */
  predicate TermCompatible(g: Grammar, mapping: seq<nat>, left: seq<Action>, right: seq<Action>) {
    AllCross(g, mapping, left, right) ||
    (|right| != 1 && |left| == |right| && EachFound(g, mapping, left, right))
  }

  ghost predicate GotosCompatible(g: Grammar, mapping: seq<nat>, left: seq<Action>, right: seq<Action>) {
    forall a, b | a in left && b in right && a.term == b.term :: EquivalentMapped(g, mapping, a, b)
  }

  ghost predicate ActionsCompatible(g: Grammar, mapping: seq<nat>, left: seq<Action>, right: seq<Action>) {
    forall term: nat :: OnTerm(left, term) != [] && OnTerm(right, term) != [] ==>
      TermCompatible(g, mapping, OnTerm(left, term), OnTerm(right, term))
  }

  /** Two states may share a group: on every common term their gotos and their
      actions agree under the mapping. */
  ghost predicate CanMerge(g: Grammar, mapping: seq<nat>, left: State, right: State) {
    && GotosCompatible(g, mapping, left.gotos, right.gotos)
    && ActionsCompatible(g, mapping, left.actions, right.actions)
  }

  /** The outgoing shift and goto targets, all that `CanMerge` reads of a mapping. */
  ghost predicate DependsOn(state: State, target: nat) {
    exists a | a in state.actions + state.gotos :: a.Shift? && a.target == target
  }

  // ---- what construction guarantees -------------------------------------------

  /** Shifts come first, and each kind is ordered by output id. */
  ghost predicate ActionsSorted(g: Grammar, actions: seq<Action>) {
    forall i, j | 0 <= i < j < |actions| ::
      && (actions[i].Reduce? ==> actions[j].Reduce?)
      && (actions[i].Reduce? == actions[j].Reduce? ==> g.outputId(actions[i].term) <= g.outputId(actions[j].term))
  }

  ghost predicate GotosSorted(g: Grammar, gotos: seq<Action>) {
    && (forall i | 0 <= i < |gotos| :: gotos[i].Shift?)
    && (forall i, j | 0 <= i < j < |gotos| :: g.outputId(gotos[i].term) < g.outputId(gotos[j].term))
  }

  /** Adding an action drops equivalent ones and a state has one transition per
      term, so no mapping can make two actions of a state equivalent. */
  ghost predicate ActionsDistinct(g: Grammar, actions: seq<Action>) {
    forall i, j | 0 <= i < j < |actions| && actions[i].term == actions[j].term ::
      && !(actions[i].Shift? && actions[j].Shift?)
      && !(actions[i].Reduce? && actions[j].Reduce? && SameReduce(g, actions[i].rule, actions[j].rule))
  }

  ghost predicate InRange(state: State, count: nat) {
    forall a | a in state.actions + state.gotos :: a.Shift? ==> a.target < count
  }

  ghost predicate Finished(g: Grammar, states: seq<State>) {
    && (forall a, b | g.outputId(a) == g.outputId(b) :: a == b)
    && forall s | 0 <= s < |states| ::
         && ActionsSorted(g, states[s].actions)
         && ActionsDistinct(g, states[s].actions)
         && GotosSorted(g, states[s].gotos)
         && InRange(states[s], |states|)
  }

  // ---- equivalence ---------------------------------------------------------------

  lemma MappedEquivalent(g: Grammar, mapping: seq<nat>, a: Action, b: Action)
    ensures EquivalentMapped(g, mapping, a, b) <==> Equivalent(g, Mapped(mapping, a), Mapped(mapping, b))
  {}

  lemma {:induction false} OnTermMember(actions: seq<Action>, term: nat, a: Action)
    ensures a in OnTerm(actions, term) <==> a in actions && a.term == term
  {
    if actions != [] {
      OnTermMember(actions[..|actions| - 1], term, a);
    }
  }

  /** `CanMerge` reads the mapping only at the targets of its two states. */
  lemma CanMergeFrame(g: Grammar, mapping: seq<nat>, mapping': seq<nat>, left: State, right: State)
    requires forall t: nat | DependsOn(left, t) || DependsOn(right, t) :: Image(mapping, t) == Image(mapping', t)
    requires CanMerge(g, mapping, left, right)
    ensures CanMerge(g, mapping', left, right)
  {
    forall a, b | a in left.actions + left.gotos && b in right.actions + right.gotos
      ensures EquivalentMapped(g, mapping, a, b) == EquivalentMapped(g, mapping', a, b)
      ensures EquivalentMapped(g, mapping, b, a) == EquivalentMapped(g, mapping', b, a)
    {
      assert a.Shift? ==> DependsOn(left, a.target);
      assert b.Shift? ==> DependsOn(right, b.target);
    }
    forall term: nat | OnTerm(left.actions, term) != [] && OnTerm(right.actions, term) != []
      ensures TermCompatible(g, mapping', OnTerm(left.actions, term), OnTerm(right.actions, term))
    {
      TermFrame(g, mapping, mapping', left.actions, right.actions, term);
    }
  }

  lemma TermFrame(g: Grammar, mapping: seq<nat>, mapping': seq<nat>, left: seq<Action>, right: seq<Action>, term: nat)
    requires forall a, b | a in left && b in right ::
               && EquivalentMapped(g, mapping, a, b) == EquivalentMapped(g, mapping', a, b)
               && EquivalentMapped(g, mapping, b, a) == EquivalentMapped(g, mapping', b, a)
    requires TermCompatible(g, mapping, OnTerm(left, term), OnTerm(right, term))
    ensures TermCompatible(g, mapping', OnTerm(left, term), OnTerm(right, term))
  {
    hide EquivalentMapped;
    forall a ensures a in OnTerm(left, term) ==> a in left { OnTermMember(left, term, a); }
    forall b ensures b in OnTerm(right, term) ==> b in right { OnTermMember(right, term, b); }
  }
}
