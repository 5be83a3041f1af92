/** Merging the groups of a collapse into states, and what the merged automaton
    keeps of the full one. */
module MergeStates {
  import opened Automaton

  /** Append the mapped images of `actions` that `known` has no equivalent of. */
  method AddMapped(g: Grammar, mapping: seq<nat>, known: seq<Action>, actions: seq<Action>) returns (out: seq<Action>)
    requires Inequivalent(g, known)
    ensures known <= out && Inequivalent(g, out)
    ensures forall a | a in actions :: HasEquivalent(g, out, Mapped(mapping, a))
    ensures forall b | b in out :: b in known || exists a | a in actions :: b == Mapped(mapping, a)
  {
    hide Equivalent, Mapped;
    out := known;
    var i := 0;
    while i < |actions|
      invariant 0 <= i <= |actions|
      invariant known <= out && Inequivalent(g, out)
      invariant forall j | 0 <= j < i :: HasEquivalent(g, out, Mapped(mapping, actions[j]))
      invariant forall b | b in out :: b in known || exists a | a in actions :: b == Mapped(mapping, a)
    {
      var mapped := Mapped(mapping, actions[i]);
      if !HasEquivalent(g, out, mapped) {
        SelfEquivalent(g, mapped);
        PushInequivalent(g, out, mapped);
        assert actions[i] in actions;
        out := out + [mapped];
      }
      i := i + 1;
    }
  }

  predicate HasEquivalent(g: Grammar, known: seq<Action>, a: Action) {
    exists b | b in known :: Equivalent(g, b, a)
  }

  ghost predicate Inequivalent(g: Grammar, actions: seq<Action>) {
    forall i, j | 0 <= i < j < |actions| :: !Equivalent(g, actions[i], actions[j])
  }

  lemma SelfEquivalent(g: Grammar, a: Action)
    ensures Equivalent(g, a, a)
  {}

  lemma PushInequivalent(g: Grammar, known: seq<Action>, a: Action)
    requires Inequivalent(g, known) && !HasEquivalent(g, known, a) && Equivalent(g, a, a)
    ensures Inequivalent(g, known + [a])
    ensures forall x :: HasEquivalent(g, known, x) ==> HasEquivalent(g, known + [a], x)
    ensures HasEquivalent(g, known + [a], a)
  {
    hide Equivalent;
    assert forall i | 0 <= i < |known| :: known[i] in known;
    assert a in known + [a];
    forall b | b in known ensures b in known + [a] {}
  }

  /** `out` collects the images of the actions of the first `n` members of group
      `k`: it has one for each of them, and nothing else. */
  ghost predicate CollectsActions(g: Grammar, states: seq<State>, mapping: seq<nat>, k: nat, n: nat, out: seq<Action>) {
    && Inequivalent(g, out)
    && (forall s, a | 0 <= s < n && s < |states| && s < |mapping| && mapping[s] == k && a in states[s].actions ::
          HasEquivalent(g, out, Mapped(mapping, a)))
    && (forall b | b in out :: exists s :: 0 <= s < n && s < |states| && s < |mapping| && mapping[s] == k
                                        && exists a | a in states[s].actions :: b == Mapped(mapping, a))
  }

  ghost predicate CollectsGotos(g: Grammar, states: seq<State>, mapping: seq<nat>, k: nat, n: nat, out: seq<Action>) {
    && Inequivalent(g, out)
    && (forall s, a | 0 <= s < n && s < |states| && s < |mapping| && mapping[s] == k && a in states[s].gotos ::
          HasEquivalent(g, out, Mapped(mapping, a)))
    && (forall b | b in out :: exists s :: 0 <= s < n && s < |states| && s < |mapping| && mapping[s] == k
                                        && exists a | a in states[s].gotos :: b == Mapped(mapping, a))
  }

  /** The merged automaton: state `k` takes its core from the first member of
      group `k` and its actions and gotos from all of them. */
  ghost predicate Merges(g: Grammar, states: seq<State>, mapping: seq<nat>, merged: seq<State>) {
    && (forall s | 0 <= s < |states| && s < |mapping| :: mapping[s] < |merged|)
    && forall k | 0 <= k < |merged| ::
         && CollectsActions(g, states, mapping, k, |states|, merged[k].actions)
         && CollectsGotos(g, states, mapping, k, |states|, merged[k].gotos)
         && HeaderOf(states, mapping, k, merged[k])
  }

  /** A state's header is that of the first member of its group. */
  ghost predicate HeaderOf(states: seq<State>, mapping: seq<nat>, k: nat, header: State) {
    exists s :: 0 <= s < |states| && s < |mapping| && mapping[s] == k
             && SameHeader(header, states[s]) && forall r | 0 <= r < s && r < |mapping| :: mapping[r] != k
  }

  ghost predicate HasMember(mapping: seq<nat>, k: nat) {
    exists s :: 0 <= s < |mapping| && mapping[s] == k
  }

  predicate SameHeader(a: State, b: State) {
    a.core == b.core && a.skip == b.skip && a.startRule == b.startRule && a.tokenGroup == b.tokenGroup
  }

  method GroupTotal(mapping: seq<nat>, ghost expected: nat) returns (count: nat)
    requires forall s | 0 <= s < |mapping| :: mapping[s] < expected
    requires forall k | 0 <= k < expected :: HasMember(mapping, k)
    ensures count == expected
  {
    count := 0;
    var s := 0;
    while s < |mapping|
      invariant 0 <= s <= |mapping| && count <= expected
      invariant forall r | 0 <= r < s :: mapping[r] < count
    {
      if mapping[s] + 1 > count {
        count := mapping[s] + 1;
      }
      s := s + 1;
    }
    assert count < expected ==> HasMember(mapping, count);
  }

  /** The merge as it is done: headers first, then one pass over all states. */
  method MergeAll(g: Grammar, states: seq<State>, mapping: seq<nat>, ghost expected: nat) returns (merged: seq<State>)
    requires |mapping| == |states|
    requires forall s | 0 <= s < |states| :: mapping[s] < expected
    requires forall k | 0 <= k < expected :: HasMember(mapping, k)
    ensures |merged| == expected && Merges(g, states, mapping, merged)
  {
    hide CollectsActions, CollectsGotos, Mapped, Equivalent;
    var count := GroupTotal(mapping, expected);
    var headers: seq<State> := [];
    while |headers| < count
      invariant |headers| <= count
      invariant forall k | 0 <= k < |headers| ::
                  && headers[k].actions == [] && headers[k].gotos == []
                  && HeaderOf(states, mapping, k, headers[k])
    {
      var id := |headers|;
      assert HasMember(mapping, id);
      var source := 0;
      while mapping[source] != id
        invariant 0 <= source < |states|
        invariant forall r | 0 <= r < source :: mapping[r] != id
        invariant exists s :: source <= s < |states| && mapping[s] == id
        decreases |states| - source
      {
        source := source + 1;
      }
      headers := headers + [states[source].(actions := [], gotos := [])];
      assert HeaderOf(states, mapping, id, headers[id]);
    }
    merged := headers;
    forall k | 0 <= k < count
      ensures CollectsActions(g, states, mapping, k, 0, []) && CollectsGotos(g, states, mapping, k, 0, [])
    {
      NothingCollected(g, states, mapping, k);
    }
    var stateId := 0;
    while stateId < |states|
      invariant 0 <= stateId <= |states| && |merged| == count
      invariant forall k | 0 <= k < count ::
                  && SameHeader(merged[k], headers[k])
                  && CollectsActions(g, states, mapping, k, stateId, merged[k].actions)
                  && CollectsGotos(g, states, mapping, k, stateId, merged[k].gotos)
    {
      var targetId := mapping[stateId];
      var target := merged[targetId];
      ghost var before := merged;
      CollectedDistinct(g, states, mapping, targetId, stateId, target.actions, target.gotos);
      var actions := AddMapped(g, mapping, target.actions, states[stateId].actions);
      var gotos := AddMapped(g, mapping, target.gotos, states[stateId].gotos);
      CollectMember(g, states, mapping, targetId, stateId, target.actions, actions, target.gotos, gotos);
      merged := merged[targetId := target.(actions := actions, gotos := gotos)];
      forall k | 0 <= k < count && k != targetId
        ensures CollectsActions(g, states, mapping, k, stateId + 1, merged[k].actions)
        ensures CollectsGotos(g, states, mapping, k, stateId + 1, merged[k].gotos)
      {
        CollectOther(g, states, mapping, k, stateId, merged[k].actions, merged[k].gotos);
      }
      stateId := stateId + 1;
    }
    assert forall k | 0 <= k < count :: HeaderOf(states, mapping, k, headers[k]);
    HeadersHold(states, mapping, headers, merged);
  }

  lemma HeadersHold(states: seq<State>, mapping: seq<nat>, headers: seq<State>, merged: seq<State>)
    requires |headers| == |merged|
    requires forall k | 0 <= k < |headers| :: HeaderOf(states, mapping, k, headers[k]) && SameHeader(merged[k], headers[k])
    ensures forall k | 0 <= k < |merged| :: HeaderOf(states, mapping, k, merged[k])
  {}

  lemma NothingCollected(g: Grammar, states: seq<State>, mapping: seq<nat>, k: nat)
    ensures CollectsActions(g, states, mapping, k, 0, []) && CollectsGotos(g, states, mapping, k, 0, [])
  {}

  lemma CollectedDistinct(g: Grammar, states: seq<State>, mapping: seq<nat>, k: nat, n: nat,
                          actions: seq<Action>, gotos: seq<Action>)
    requires CollectsActions(g, states, mapping, k, n, actions) && CollectsGotos(g, states, mapping, k, n, gotos)
    ensures Inequivalent(g, actions) && Inequivalent(g, gotos)
  {}

  lemma CollectOther(g: Grammar, states: seq<State>, mapping: seq<nat>, k: nat, s: nat,
                     actions: seq<Action>, gotos: seq<Action>)
    requires s < |mapping| && mapping[s] != k
    requires CollectsActions(g, states, mapping, k, s, actions) && CollectsGotos(g, states, mapping, k, s, gotos)
    ensures CollectsActions(g, states, mapping, k, s + 1, actions) && CollectsGotos(g, states, mapping, k, s + 1, gotos)
  {
    hide Inequivalent, Mapped, HasEquivalent;
  }

  lemma CollectMember(g: Grammar, states: seq<State>, mapping: seq<nat>, k: nat, s: nat,
                      actions: seq<Action>, actions': seq<Action>, gotos: seq<Action>, gotos': seq<Action>)
    requires s < |mapping| == |states| && mapping[s] == k
    requires CollectsActions(g, states, mapping, k, s, actions) && CollectsGotos(g, states, mapping, k, s, gotos)
    requires actions <= actions' && gotos <= gotos' && Inequivalent(g, actions') && Inequivalent(g, gotos')
    requires forall a | a in states[s].actions :: HasEquivalent(g, actions', Mapped(mapping, a))
    requires forall b | b in actions' :: b in actions || exists a | a in states[s].actions :: b == Mapped(mapping, a)
    requires forall a | a in states[s].gotos :: HasEquivalent(g, gotos', Mapped(mapping, a))
    requires forall b | b in gotos' :: b in gotos || exists a | a in states[s].gotos :: b == Mapped(mapping, a)
    ensures CollectsActions(g, states, mapping, k, s + 1, actions') && CollectsGotos(g, states, mapping, k, s + 1, gotos')
  {
    hide Inequivalent, Mapped, Equivalent;
    LongerEquivalent(g, actions, actions');
    LongerEquivalent(g, gotos, gotos');
  }

  lemma LongerEquivalent(g: Grammar, known: seq<Action>, longer: seq<Action>)
    requires known <= longer
    ensures forall x :: HasEquivalent(g, known, x) ==> HasEquivalent(g, longer, x)
  {
    hide Equivalent;
    forall b | b in known ensures b in longer {}
  }
}
