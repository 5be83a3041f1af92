/** Token automata with epsilon edges, and the closure that keeps only the
    states that matter to the subset construction. */
module TokenNfa {
  import opened Counting
  import opened Splicing

  const CODE_POINT_LIMIT := 0x11_0000

  datatype Symbol = Char(c: nat) | EndOfFile

  datatype NfaEdge =
    | CodePoint(from: nat, to: nat, target: nat)
    | Eof(target: nat)
    | Epsilon(target: nat)

  datatype NfaState = NfaState(accepting: seq<nat>, edges: seq<NfaEdge>)

  datatype Nfa = Nfa(states: seq<NfaState>, start: nat)

  ghost predicate WellFormed(nfa: Nfa) {
    && nfa.start < |nfa.states|
    && forall q, e | 0 <= q < |nfa.states| && e in nfa.states[q].edges ::
         && e.target < |nfa.states|
         && (e.CodePoint? ==> e.from < e.to <= CODE_POINT_LIMIT)
  }

  /** Each term is accepted by at most one state, as the builders arrange. */
  ghost predicate OneStatePerTerm(nfa: Nfa) {
    forall p, q, t: nat | 0 <= p < |nfa.states| && 0 <= q < |nfa.states|
      && t in nfa.states[p].accepting && t in nfa.states[q].accepting :: p == q
  }

  predicate Matches(e: NfaEdge, x: Symbol) {
    match x
    case Char(c) => e.CodePoint? && e.from <= c < e.to
    case EndOfFile => e.Eof?
  }

  // ---- what the automaton accepts ---------------------------------------------------

  ghost predicate EpsilonEdge(nfa: Nfa, p: nat, q: nat) {
    p < |nfa.states| && Epsilon(q) in nfa.states[p].edges
  }

  ghost predicate EpsilonSteps(nfa: Nfa, p: nat, q: nat, n: nat)
    decreases n
  {
    if n == 0 then p == q else exists r: nat :: EpsilonEdge(nfa, p, r) && EpsilonSteps(nfa, r, q, n - 1)
  }

  ghost predicate EpsilonReaches(nfa: Nfa, p: nat, q: nat) {
    exists n: nat :: EpsilonSteps(nfa, p, q, n)
  }

  /** From `p`, without an epsilon move first, `word` can end at `term`. */
  ghost predicate AcceptsAt(nfa: Nfa, p: nat, word: seq<Symbol>, term: nat)
    decreases |word|, 0
  {
    p < |nfa.states| &&
    if word == [] then term in nfa.states[p].accepting
    else exists e | e in nfa.states[p].edges :: Matches(e, word[0]) && Accepts(nfa, e.target, word[1..], term)
  }

  ghost predicate Accepts(nfa: Nfa, p: nat, word: seq<Symbol>, term: nat)
    decreases |word|, 1
  {
    exists q: nat :: EpsilonReaches(nfa, p, q) && AcceptsAt(nfa, q, word, term)
  }

  // ---- significant states ----------------------------------------------------------

  predicate Labeled(state: NfaState) {
    exists e | e in state.edges :: !e.Epsilon?
  }

  /** The test that decides whether a reached state joins a closure. */
  predicate Significant(nfa: Nfa, q: nat) {
    q < |nfa.states| &&
    (Labeled(nfa.states[q]) ||
     (nfa.states[q].accepting != [] &&
      !exists e | e in nfa.states[q].edges ::
         e.Epsilon? && e.target < |nfa.states| && nfa.states[e.target].accepting == nfa.states[q].accepting))
  }

  /** An accepting state that closures drop although no other state stands in
      for it: unlabelled, with an epsilon edge to itself. */
  predicate Dropped(nfa: Nfa, q: nat) {
    q < |nfa.states| && nfa.states[q].accepting != [] && !Labeled(nfa.states[q]) && Epsilon(q) in nfa.states[q].edges
  }

  lemma DroppedIffInsignificant(nfa: Nfa, q: nat)
    requires WellFormed(nfa) && OneStatePerTerm(nfa)
    requires q < |nfa.states| && nfa.states[q].accepting != []
    ensures Dropped(nfa, q) <==> !Significant(nfa, q)
  {
    var t := nfa.states[q].accepting[0];
    assert t in nfa.states[q].accepting;
    if !Significant(nfa, q) {
      var e :| e in nfa.states[q].edges && e.Epsilon? && e.target < |nfa.states|
        && nfa.states[e.target].accepting == nfa.states[q].accepting;
      assert t in nfa.states[e.target].accepting;
      assert e == Epsilon(q);
    }
  }

  // ---- closure ---------------------------------------------------------------------

  lemma {:induction false} EpsilonPush(nfa: Nfa, p: nat, q: nat, r: nat, n: nat)
    requires EpsilonSteps(nfa, p, q, n) && EpsilonEdge(nfa, q, r)
    ensures EpsilonSteps(nfa, p, r, n + 1)
    decreases n
  {
    if n > 0 {
      var s: nat :| EpsilonEdge(nfa, p, s) && EpsilonSteps(nfa, s, q, n - 1);
      EpsilonPush(nfa, s, q, r, n - 1);
    } else {
      assert EpsilonSteps(nfa, r, r, 0);
    }
  }

  lemma EpsilonExtend(nfa: Nfa, p: nat, q: nat, r: nat)
    requires EpsilonReaches(nfa, p, q) && EpsilonEdge(nfa, q, r)
    ensures EpsilonReaches(nfa, p, r)
  {
    var n: nat :| EpsilonSteps(nfa, p, q, n);
    EpsilonPush(nfa, p, q, r, n);
  }

  lemma EpsilonSelf(nfa: Nfa, p: nat)
    ensures EpsilonReaches(nfa, p, p)
  {
    assert EpsilonSteps(nfa, p, p, 0);
  }

  /** A set closed under epsilon edges holds everything they reach. */
  lemma {:induction false} ClosedReaches(nfa: Nfa, seen: set<nat>, p: nat, q: nat, n: nat)
    requires p in seen && EpsilonSteps(nfa, p, q, n)
    requires forall s, r: nat | s in seen && EpsilonEdge(nfa, s, r) :: r in seen
    ensures q in seen
    decreases n
  {
    if n > 0 {
      var r: nat :| EpsilonEdge(nfa, p, r) && EpsilonSteps(nfa, r, q, n - 1);
      ClosedReaches(nfa, seen, r, q, n - 1);
    }
  }

  predicate Increasing(values: seq<nat>) {
    forall i, j | 0 <= i < j < |values| :: values[i] < values[j]
  }

  /** Sort a list and drop its duplicates. */
  method SortDistinct(values: seq<nat>) returns (sorted: seq<nat>)
    ensures Increasing(sorted)
    ensures forall x :: x in sorted <==> x in values
  {
    sorted := [];
    var i := 0;
    while i < |values|
      invariant 0 <= i <= |values| && Increasing(sorted)
      invariant forall x :: x in sorted <==> x in values[..i]
    {
      assert values[..i + 1] == values[..i] + [values[i]];
      sorted := InsertDistinct(sorted, values[i]);
      i := i + 1;
    }
    assert values[..|values|] == values;
  }

  method InsertDistinct(sorted: seq<nat>, value: nat) returns (out: seq<nat>)
    requires Increasing(sorted)
    ensures Increasing(out)
    ensures forall x :: x in out <==> x == value || x in sorted
  {
    var at := |sorted|;
    while at > 0 && sorted[at - 1] > value
      invariant 0 <= at <= |sorted|
      invariant forall i | at <= i < |sorted| :: sorted[i] > value
    {
      at := at - 1;
    }
    if at > 0 && sorted[at - 1] == value {
      return sorted;
    }
    out := Inserted(sorted, at, value);
    InsertedIncreasing(sorted, at, value);
  }

  lemma InsertedIncreasing(sorted: seq<nat>, at: nat, value: nat)
    requires at <= |sorted| && Increasing(sorted)
    requires at > 0 ==> sorted[at - 1] < value
    requires forall i | at <= i < |sorted| :: sorted[i] > value
    ensures Increasing(Inserted(sorted, at, value))
    ensures forall x :: x in Inserted(sorted, at, value) <==> x == value || x in sorted
  {
    InsertedMembers(sorted, at, value);
  }

  /** The significant states that epsilon edges reach, sorted. */
  ghost predicate IsClosure(nfa: Nfa, start: nat, result: seq<nat>) {
    && Increasing(result)
    && forall q: nat :: q in result <==> EpsilonReaches(nfa, start, q) && Significant(nfa, q)
  }

  method Closure(nfa: Nfa, start: nat) returns (result: seq<nat>)
    requires WellFormed(nfa) && start < |nfa.states|
    ensures IsClosure(nfa, start, result)
  {
    hide EpsilonReaches, Significant;
    var seen: set<nat> := {};
    var found: seq<nat> := [];
    var stack: seq<nat> := [start];
    EpsilonSelf(nfa, start);
    while stack != []
      invariant forall i | 0 <= i < |stack| :: stack[i] < |nfa.states| && EpsilonReaches(nfa, start, stack[i])
      invariant forall q | q in seen :: q < |nfa.states| && EpsilonReaches(nfa, start, q)
      invariant start in seen || start in stack
      invariant forall s, r: nat | s in seen && EpsilonEdge(nfa, s, r) :: r in seen || r in stack
      invariant forall q: nat :: q in found <==> q in seen && Significant(nfa, q)
      decreases Below(|nfa.states|) - seen, |stack|
    {
      var state := stack[|stack| - 1];
      ghost var before := stack;
      stack := stack[..|stack| - 1];
      assert before == stack + [state];
      if state in seen {
        continue;
      }
      assert state in Below(|nfa.states|) - seen;
      seen := seen + {state};
      if Significant(nfa, state) {
        found := found + [state];
      }
      stack := PushTargets(nfa, start, state, stack);
    }
    forall q: nat | EpsilonReaches(nfa, start, q)
      ensures q in seen
    {
      SeenAll(nfa, seen, start, q);
    }
    result := SortDistinct(found);
  }

  lemma SeenAll(nfa: Nfa, seen: set<nat>, start: nat, q: nat)
    requires start in seen && EpsilonReaches(nfa, start, q)
    requires forall s, r: nat | s in seen && EpsilonEdge(nfa, s, r) :: r in seen
    ensures q in seen
  {
    var n: nat :| EpsilonSteps(nfa, start, q, n);
    ClosedReaches(nfa, seen, start, q, n);
  }

  /** Push the epsilon targets of one state. */
  method PushTargets(nfa: Nfa, ghost start: nat, state: nat, stack: seq<nat>) returns (pushed: seq<nat>)
    requires WellFormed(nfa) && state < |nfa.states| && EpsilonReaches(nfa, start, state)
    requires forall i | 0 <= i < |stack| :: stack[i] < |nfa.states| && EpsilonReaches(nfa, start, stack[i])
    ensures forall i | 0 <= i < |pushed| :: pushed[i] < |nfa.states| && EpsilonReaches(nfa, start, pushed[i])
    ensures forall q :: q in stack ==> q in pushed
    ensures forall r: nat :: EpsilonEdge(nfa, state, r) ==> r in pushed
  {
    hide EpsilonReaches;
    var edges := nfa.states[state].edges;
    pushed := stack;
    var i := 0;
    while i < |edges|
      invariant 0 <= i <= |edges|
      invariant forall k | 0 <= k < |pushed| :: pushed[k] < |nfa.states| && EpsilonReaches(nfa, start, pushed[k])
      invariant forall q :: q in stack ==> q in pushed
      invariant forall k | 0 <= k < i && edges[k].Epsilon? :: edges[k].target in pushed
    {
      assert edges[i] in edges;
      if edges[i].Epsilon? {
        EpsilonExtend(nfa, start, state, edges[i].target);
        pushed := pushed + [edges[i].target];
      }
      i := i + 1;
    }
  }
}
