/** The subset automaton accepts the language of its token automaton, exactly
    when no reachable accepting state is dropped by the closures. */
module TokenLanguage {
  import opened Options
  import opened TokenNfa
  import opened SubsetConstruction

  // ---- reachability ----------------------------------------------------------------

  ghost predicate Linked(nfa: Nfa, p: nat, q: nat) {
    p < |nfa.states| && exists e | e in nfa.states[p].edges :: e.target == q
  }

  ghost predicate LinkSteps(nfa: Nfa, p: nat, q: nat, n: nat)
    decreases n
  {
    if n == 0 then p == q else exists r: nat :: Linked(nfa, p, r) && LinkSteps(nfa, r, q, n - 1)
  }

  ghost predicate Reachable(nfa: Nfa, q: nat) {
    exists n: nat :: LinkSteps(nfa, nfa.start, q, n)
  }

  /** No reachable accepting state is dropped. */
  ghost predicate Faithful(nfa: Nfa) {
    forall q: nat :: Reachable(nfa, q) ==> !Dropped(nfa, q)
  }

  lemma {:induction false} LinkPush(nfa: Nfa, p: nat, q: nat, r: nat, n: nat)
    requires LinkSteps(nfa, p, q, n) && Linked(nfa, q, r)
    ensures LinkSteps(nfa, p, r, n + 1)
    decreases n
  {
    if n > 0 {
      var s: nat :| Linked(nfa, p, s) && LinkSteps(nfa, s, q, n - 1);
      LinkPush(nfa, s, q, r, n - 1);
    } else {
      assert LinkSteps(nfa, r, r, 0);
    }
  }

  lemma ReachableLink(nfa: Nfa, q: nat, r: nat)
    requires Reachable(nfa, q) && Linked(nfa, q, r)
    ensures Reachable(nfa, r)
  {
    var n: nat :| LinkSteps(nfa, nfa.start, q, n);
    LinkPush(nfa, nfa.start, q, r, n);
  }

  lemma {:induction false} ReachableEpsilon(nfa: Nfa, p: nat, q: nat, n: nat)
    requires Reachable(nfa, p) && EpsilonSteps(nfa, p, q, n)
    ensures Reachable(nfa, q)
    decreases n
  {
    if n > 0 {
      var r: nat :| EpsilonEdge(nfa, p, r) && EpsilonSteps(nfa, r, q, n - 1);
      assert Epsilon(r).target == r;
      assert Linked(nfa, p, r);
      ReachableLink(nfa, p, r);
      ReachableEpsilon(nfa, r, q, n - 1);
    }
  }

  ghost predicate AllReachable(nfa: Nfa, states: seq<nat>) {
    forall q | q in states :: Reachable(nfa, q)
  }

  /** What a reachable set leads to is reachable. */
  lemma DeltaReachable(nfa: Nfa, states: seq<nat>, x: Symbol, q: nat)
    requires AllReachable(nfa, states) && SetDelta(nfa, states, x, q)
    ensures Reachable(nfa, q)
  {
    hide Reachable, Significant;
    var p :| p in states && p < |nfa.states| && EdgeDelta(nfa, nfa.states[p].edges, x, q);
    var e :| e in nfa.states[p].edges && Matches(e, x) && Enters(nfa, e, q);
    assert Linked(nfa, p, e.target);
    ReachableLink(nfa, p, e.target);
    var n: nat :| EpsilonSteps(nfa, e.target, q, n);
    ReachableEpsilon(nfa, e.target, q, n);
  }

  /** A state that accepts something from where it is, reachable in a faithful
      automaton, is significant. */
  lemma AcceptingSignificant(nfa: Nfa, q: nat, word: seq<Symbol>, term: nat)
    requires WellFormed(nfa) && OneStatePerTerm(nfa) && !Dropped(nfa, q)
    requires AcceptsAt(nfa, q, word, term)
    ensures Significant(nfa, q)
  {
    if word == [] {
      assert nfa.states[q].accepting != [];
      DroppedIffInsignificant(nfa, q);
    } else {
      var e :| e in nfa.states[q].edges && Matches(e, word[0]) && Accepts(nfa, e.target, word[1..], term);
      assert !e.Epsilon?;
    }
  }

  // ---- acceptance --------------------------------------------------------------------

  ghost predicate SetAccepts(nfa: Nfa, states: seq<nat>, word: seq<Symbol>, term: nat) {
    exists p | p in states :: AcceptsAt(nfa, p, word, term)
  }

  /** A set accepts a nonempty word by some state its first symbol leads to. */
  lemma SetAcceptsDelta(nfa: Nfa, states: seq<nat>, word: seq<Symbol>, term: nat, q: nat)
    requires word != [] && SetDelta(nfa, states, word[0], q) && AcceptsAt(nfa, q, word[1..], term)
    ensures SetAccepts(nfa, states, word, term)
  {
    hide EpsilonReaches, Significant;
    var p :| p in states && p < |nfa.states| && EdgeDelta(nfa, nfa.states[p].edges, word[0], q);
    var e :| e in nfa.states[p].edges && Matches(e, word[0]) && Enters(nfa, e, q);
    assert Accepts(nfa, e.target, word[1..], term);
    assert AcceptsAt(nfa, p, word, term);
  }

  lemma SetAcceptsStep(nfa: Nfa, states: seq<nat>, word: seq<Symbol>, term: nat) returns (q: nat)
    requires WellFormed(nfa) && OneStatePerTerm(nfa) && Faithful(nfa) && AllReachable(nfa, states)
    requires word != [] && SetAccepts(nfa, states, word, term)
    ensures SetDelta(nfa, states, word[0], q) && AcceptsAt(nfa, q, word[1..], term)
  {
    hide Reachable, Significant, WellFormed;
    var p :| p in states && AcceptsAt(nfa, p, word, term);
    var e :| e in nfa.states[p].edges && Matches(e, word[0]) && Accepts(nfa, e.target, word[1..], term);
    q :| EpsilonReaches(nfa, e.target, q) && AcceptsAt(nfa, q, word[1..], term);
    assert Linked(nfa, p, e.target);
    ReachableLink(nfa, p, e.target);
    var n: nat :| EpsilonSteps(nfa, e.target, q, n);
    ReachableEpsilon(nfa, e.target, q, n);
    AcceptingSignificant(nfa, q, word[1..], term);
    assert Enters(nfa, e, q);
    assert EdgeDelta(nfa, nfa.states[p].edges, word[0], q);
  }

  /** The deterministic state for a set accepts nothing the set does not. */
  lemma {:induction false} DfaSound(nfa: Nfa, sets: seq<seq<nat>>, dfa: Dfa, i: nat, word: seq<Symbol>, term: nat)
    requires Determinizes(nfa, sets, dfa) && i < |sets| && DfaAccepts(dfa, i, word, term)
    ensures SetAccepts(nfa, sets[i], word, term)
    decreases |word|
  {
    hide SetDelta, EdgesSorted, EpsilonReaches, Significant;
    var d := dfa.states[i];
    assert StandsFor(nfa, sets, sets[i], d);
    if word != [] {
      var next := DfaStep(d, word[0]).value;
      DfaSound(nfa, sets, dfa, next, word[1..], term);
      var q :| q in sets[next] && AcceptsAt(nfa, q, word[1..], term);
      assert StepHas(sets, d, word[0], q);
      SetAcceptsDelta(nfa, sets[i], word, term, q);
    } else {
      var p :| p in sets[i] && p < |nfa.states| && term in nfa.states[p].accepting;
      assert AcceptsAt(nfa, p, word, term);
    }
  }

  /** In a faithful automaton it accepts all that the set does. */
  lemma {:induction false} DfaComplete(nfa: Nfa, sets: seq<seq<nat>>, dfa: Dfa, i: nat, word: seq<Symbol>, term: nat)
    requires WellFormed(nfa) && OneStatePerTerm(nfa) && Faithful(nfa)
    requires Determinizes(nfa, sets, dfa) && i < |sets| && AllReachable(nfa, sets[i])
    requires SetAccepts(nfa, sets[i], word, term)
    ensures DfaAccepts(dfa, i, word, term)
    decreases |word|
  {
    hide SetDelta, EdgesSorted, Reachable, WellFormed, Faithful, OneStatePerTerm;
    var d := dfa.states[i];
    assert StandsFor(nfa, sets, sets[i], d);
    if word != [] {
      var q := SetAcceptsStep(nfa, sets[i], word, term);
      assert StepHas(sets, d, word[0], q);
      var next := DfaStep(d, word[0]).value;
      forall r | r in sets[next]
        ensures Reachable(nfa, r)
      {
        assert StepHas(sets, d, word[0], r);
        DeltaReachable(nfa, sets[i], word[0], r);
      }
      DfaComplete(nfa, sets, dfa, next, word[1..], term);
    }
  }

  /** What a deterministic state accepts is accepted at a significant state. */
  lemma {:induction false} DfaSignificant(nfa: Nfa, sets: seq<seq<nat>>, dfa: Dfa, i: nat, word: seq<Symbol>, term: nat)
    returns (p: nat)
    requires Determinizes(nfa, sets, dfa) && i < |sets| && DfaAccepts(dfa, i, word, term)
    requires AllSignificant(nfa, sets[i])
    ensures p < |nfa.states| && Significant(nfa, p) && term in nfa.states[p].accepting
    decreases |word|
  {
    hide EdgesSorted, EpsilonReaches, Significant;
    var d := dfa.states[i];
    assert StandsFor(nfa, sets, sets[i], d);
    if word == [] {
      p :| p in sets[i] && p < |nfa.states| && term in nfa.states[p].accepting;
    } else {
      var next := DfaStep(d, word[0]).value;
      forall q | q in sets[next]
        ensures q < |nfa.states| && Significant(nfa, q)
      {
        assert StepHas(sets, d, word[0], q);
        SignificantBound(nfa, q);
      }
      p := DfaSignificant(nfa, sets, dfa, next, word[1..], term);
    }
  }

  /** The word that leads to a reachable state. */
  lemma {:induction false} WordTo(nfa: Nfa, p: nat, q: nat, term: nat, n: nat) returns (word: seq<Symbol>)
    requires WellFormed(nfa) && p < |nfa.states| && LinkSteps(nfa, p, q, n)
    requires q < |nfa.states| && term in nfa.states[q].accepting
    ensures Accepts(nfa, p, word, term)
    decreases n
  {
    if n == 0 {
      word := [];
      EpsilonSelf(nfa, p);
      assert AcceptsAt(nfa, p, [], term);
    } else {
      var r: nat :| Linked(nfa, p, r) && LinkSteps(nfa, r, q, n - 1);
      var e :| e in nfa.states[p].edges && e.target == r;
      var rest := WordTo(nfa, r, q, term, n - 1);
      if e.Epsilon? {
        word := rest;
        AcceptsBefore(nfa, p, r, word, term);
      } else {
        var x := if e.CodePoint? then Char(e.from) else EndOfFile;
        word := [x] + rest;
        assert word[1..] == rest && Matches(e, word[0]);
        assert AcceptsAt(nfa, p, word, term);
        EpsilonSelf(nfa, p);
      }
    }
  }

  lemma AcceptsBefore(nfa: Nfa, p: nat, r: nat, word: seq<Symbol>, term: nat)
    requires EpsilonEdge(nfa, p, r) && Accepts(nfa, r, word, term)
    ensures Accepts(nfa, p, word, term)
  {
    hide AcceptsAt;
    var q: nat :| EpsilonReaches(nfa, r, q) && AcceptsAt(nfa, q, word, term);
    var n: nat :| EpsilonSteps(nfa, r, q, n);
    assert EpsilonSteps(nfa, p, q, n + 1);
  }

  ghost predicate SameLanguage(nfa: Nfa, dfa: Dfa) {
    forall word: seq<Symbol>, term: nat :: Accepts(nfa, nfa.start, word, term) <==> DfaAccepts(dfa, dfa.start, word, term)
  }

  /** The subset automaton accepts what the token automaton accepts, for every
      string of code points and end of file, if and only if no reachable
      accepting state without labelled edges has an epsilon edge to itself. */
  lemma SubsetExact(nfa: Nfa, sets: seq<seq<nat>>, dfa: Dfa)
    requires WellFormed(nfa) && OneStatePerTerm(nfa) && Determinizes(nfa, sets, dfa)
    ensures SameLanguage(nfa, dfa) <==> Faithful(nfa)
  {
    hide StandsFor, WellFormed, OneStatePerTerm, Reachable, Dropped, Significant, AcceptsAt, DfaAccepts;
    if Faithful(nfa) {
      FaithfulSame(nfa, sets, dfa);
    } else {
      var q: nat :| Reachable(nfa, q) && Dropped(nfa, q);
      DroppedDiffers(nfa, sets, dfa, q);
    }
  }

  lemma StartReachable(nfa: Nfa, sets: seq<seq<nat>>, dfa: Dfa)
    requires Determinizes(nfa, sets, dfa)
    ensures AllReachable(nfa, sets[0]) && AllSignificant(nfa, sets[0])
  {
    hide StandsFor, Significant;
    assert LinkSteps(nfa, nfa.start, nfa.start, 0);
    forall q | q in sets[0]
      ensures Reachable(nfa, q) && q < |nfa.states| && Significant(nfa, q)
    {
      var n: nat :| EpsilonSteps(nfa, nfa.start, q, n);
      ReachableEpsilon(nfa, nfa.start, q, n);
      SignificantBound(nfa, q);
    }
  }

  lemma FaithfulSame(nfa: Nfa, sets: seq<seq<nat>>, dfa: Dfa)
    requires WellFormed(nfa) && OneStatePerTerm(nfa) && Determinizes(nfa, sets, dfa) && Faithful(nfa)
    ensures SameLanguage(nfa, dfa)
  {
    hide StandsFor, WellFormed, OneStatePerTerm, Dropped, Significant, AcceptsAt, DfaAccepts;
    StartReachable(nfa, sets, dfa);
    forall word: seq<Symbol>, term: nat
      ensures Accepts(nfa, nfa.start, word, term) <==> DfaAccepts(dfa, dfa.start, word, term)
    {
      if Accepts(nfa, nfa.start, word, term) {
        var q: nat :| EpsilonReaches(nfa, nfa.start, q) && AcceptsAt(nfa, q, word, term);
        assert LinkSteps(nfa, nfa.start, nfa.start, 0);
        var n: nat :| EpsilonSteps(nfa, nfa.start, q, n);
        ReachableEpsilon(nfa, nfa.start, q, n);
        AcceptingSignificant(nfa, q, word, term);
        DfaComplete(nfa, sets, dfa, 0, word, term);
      }
      if DfaAccepts(dfa, 0, word, term) {
        DfaSound(nfa, sets, dfa, 0, word, term);
        var p :| p in sets[0] && AcceptsAt(nfa, p, word, term);
      }
    }
  }

  /** Accepting states that nothing leaves are never dropped. */
  lemma EndingFaithful(nfa: Nfa)
    requires forall q :: 0 <= q < |nfa.states| && nfa.states[q].accepting != [] ==> nfa.states[q].edges == []
    ensures Faithful(nfa)
  {}

  /** A single accepting state with an epsilon edge to itself: the automaton
      accepts the empty string and its subset automaton accepts nothing. */
  lemma DroppedExample(term: nat) returns (nfa: Nfa, sets: seq<seq<nat>>, dfa: Dfa)
    ensures nfa == Nfa([NfaState([term], [Epsilon(0)])], 0)
    ensures WellFormed(nfa) && OneStatePerTerm(nfa) && Determinizes(nfa, sets, dfa)
    ensures Dropped(nfa, 0) && Reachable(nfa, 0)
    ensures Accepts(nfa, nfa.start, [], term) && !DfaAccepts(dfa, dfa.start, [], term)
    ensures !SameLanguage(nfa, dfa)
  {
    nfa, sets, dfa := Nfa([NfaState([term], [Epsilon(0)])], 0), [[]], Dfa([DfaState([], [], None)], 0);
    assert LinkSteps(nfa, 0, 0, 0);
    EpsilonSelf(nfa, 0);
    assert AcceptsAt(nfa, 0, [], term);
    assert !Significant(nfa, 0);
    assert StandsFor(nfa, sets, sets[0], dfa.states[0]);
  }

  lemma DroppedDiffers(nfa: Nfa, sets: seq<seq<nat>>, dfa: Dfa, q: nat)
    requires WellFormed(nfa) && OneStatePerTerm(nfa) && Determinizes(nfa, sets, dfa)
    requires Reachable(nfa, q) && Dropped(nfa, q)
    ensures !SameLanguage(nfa, dfa)
  {
    hide StandsFor, AcceptsAt, DfaAccepts;
    StartReachable(nfa, sets, dfa);
    var term := nfa.states[q].accepting[0];
    var n: nat :| LinkSteps(nfa, nfa.start, q, n);
    var word := WordTo(nfa, nfa.start, q, term, n);
    if DfaAccepts(dfa, dfa.start, word, term) {
      var p := DfaSignificant(nfa, sets, dfa, 0, word, term);
      assert term in nfa.states[q].accepting && p == q;
      DroppedIffInsignificant(nfa, q);
    }
  }
}
