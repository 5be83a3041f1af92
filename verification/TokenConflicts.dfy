/** Token conflicts: terms of which one can be read where the other is, or
    further on. */
module TokenConflicts {
  import opened Options
  import opened TokenNfa
  import opened SubsetConstruction
  import opened Minimize
  import opened TokenTable

  /** The state a word leads to. */
  function Run(dfa: Dfa, s: nat, word: seq<Symbol>): Option<nat>
    decreases |word|
  {
    if s >= |dfa.states| then None
    else if word == [] then Some(s)
    else
      var next := DfaStep(dfa.states[s], word[0]);
      if next.None? then None else Run(dfa, next.value, word[1..])
  }

  lemma {:induction false} RunAccepts(dfa: Dfa, s: nat, word: seq<Symbol>, term: nat)
    ensures DfaAccepts(dfa, s, word, term) <==>
              Run(dfa, s, word).Some? && Run(dfa, s, word).value < |dfa.states|
              && term in dfa.states[Run(dfa, s, word).value].accepting
    decreases |word|
  {
    if s < |dfa.states| && word != [] && DfaStep(dfa.states[s], word[0]).Some? {
      RunAccepts(dfa, DfaStep(dfa.states[s], word[0]).value, word[1..], term);
    }
  }

  lemma {:induction false} RunConcat(dfa: Dfa, s: nat, word: seq<Symbol>, more: seq<Symbol>)
    ensures Run(dfa, s, word + more) ==
              match Run(dfa, s, word) case None => None case Some(q) => Run(dfa, q, more)
    decreases |word|
  {
    if word == [] {
      assert word + more == more;
    } else if s < |dfa.states| && DfaStep(dfa.states[s], word[0]).Some? {
      assert (word + more)[1..] == word[1..] + more;
      RunConcat(dfa, DfaStep(dfa.states[s], word[0]).value, word[1..], more);
    }
  }

  /** Words lead exactly to the states that links reach. */
  lemma {:induction false} RunReaches(dfa: Dfa, s: nat, word: seq<Symbol>)
    requires Run(dfa, s, word).Some?
    ensures DfaReaches(dfa, s, Run(dfa, s, word).value)
    decreases |word|
  {
    if word == [] {
      DfaReachesSelf(dfa, s);
    } else {
      var next := DfaStep(dfa.states[s], word[0]).value;
      if word[0].Char? {
        FindEdgeSome(dfa.states[s].edges, word[0].c);
      }
      RunReaches(dfa, next, word[1..]);
      var n: nat :| DfaSteps(dfa, next, Run(dfa, s, word).value, n);
      assert DfaLink(dfa, s, next);
      assert DfaSteps(dfa, s, Run(dfa, s, word).value, n + 1);
    }
  }

  lemma {:induction false} ReachesRun(dfa: Dfa, s: nat, q: nat, n: nat) returns (word: seq<Symbol>)
    requires DfaWellFormed(dfa) && s < |dfa.states| && DfaSteps(dfa, s, q, n)
    ensures Run(dfa, s, word) == Some(q) && q < |dfa.states|
    decreases n
  {
    if n == 0 {
      word := [];
    } else {
      var r: nat :| DfaLink(dfa, s, r) && DfaSteps(dfa, r, q, n - 1);
      var x := LinkSymbol(dfa, s, r);
      var rest := ReachesRun(dfa, r, q, n - 1);
      word := [x] + rest;
      assert word[1..] == rest;
    }
  }

  lemma LinkSymbol(dfa: Dfa, s: nat, r: nat) returns (x: Symbol)
    requires DfaWellFormed(dfa) && s < |dfa.states| && DfaLink(dfa, s, r)
    ensures DfaStep(dfa.states[s], x) == Some(r) && r < |dfa.states|
  {
    var d := dfa.states[s];
    if d.eof == Some(r) {
      x := EndOfFile;
    } else {
      var i :| 0 <= i < |d.edges| && d.edges[i].target == r;
      x := Char(d.edges[i].from);
      FindEdgeIs(d.edges, d.edges[i].from, i);
    }
  }

  /** Some string is read as `a`, and it or an extension of it as `b`. */
  ghost predicate PrefixConflict(dfa: Dfa, a: nat, b: nat) {
    exists word, more: seq<Symbol> ::
      DfaAccepts(dfa, dfa.start, word, a) && DfaAccepts(dfa, dfa.start, word + more, b)
  }

  ghost predicate StateConflict(dfa: Dfa, a: nat, b: nat) {
    exists s, d: nat :: StatesConflict(dfa, s, d, a, b)
  }

  ghost predicate StatesConflict(dfa: Dfa, s: nat, d: nat, a: nat, b: nat) {
    && DfaReaches(dfa, dfa.start, s) && DfaReaches(dfa, s, d)
    && s < |dfa.states| && d < |dfa.states|
    && a in dfa.states[s].accepting && b in dfa.states[d].accepting
  }

  lemma ConflictByPrefix(dfa: Dfa, a: nat, b: nat)
    requires DfaWellFormed(dfa)
    ensures StateConflict(dfa, a, b) <==> PrefixConflict(dfa, a, b)
  {
    hide DfaReaches, DfaAccepts, DfaWellFormed;
    if StateConflict(dfa, a, b) {
      var s: nat, d: nat :| StatesConflict(dfa, s, d, a, b);
      var word := WordBetween(dfa, dfa.start, s);
      var more := WordBetween(dfa, s, d);
      RunConcat(dfa, dfa.start, word, more);
      RunAccepts(dfa, dfa.start, word, a);
      RunAccepts(dfa, dfa.start, word + more, b);
    }
    if PrefixConflict(dfa, a, b) {
      var word, more :| DfaAccepts(dfa, dfa.start, word, a) && DfaAccepts(dfa, dfa.start, word + more, b);
      RunAccepts(dfa, dfa.start, word, a);
      RunAccepts(dfa, dfa.start, word + more, b);
      RunConcat(dfa, dfa.start, word, more);
      var s := Run(dfa, dfa.start, word).value;
      RunReaches(dfa, dfa.start, word);
      RunReaches(dfa, s, more);
      assert StatesConflict(dfa, s, Run(dfa, s, more).value, a, b);
    }
  }

  lemma WordBetween(dfa: Dfa, s: nat, q: nat) returns (word: seq<Symbol>)
    requires DfaWellFormed(dfa) && DfaReaches(dfa, s, q) && (s < |dfa.states| || s == dfa.start)
    ensures Run(dfa, s, word) == Some(q)
  {
    var n: nat :| DfaSteps(dfa, s, q, n);
    word := ReachesRun(dfa, s, q, n);
  }

  // ---- finding them ------------------------------------------------------------------

  function Ordered(a: nat, b: nat): (nat, nat) {
    if a < b then (b, a) else (a, b)
  }

  method AddConflict(conflicts: seq<(nat, nat)>, a: nat, b: nat) returns (out: seq<(nat, nat)>)
    requires forall i, j | 0 <= i < j < |conflicts| :: conflicts[i] != conflicts[j]
    ensures forall i, j | 0 <= i < j < |out| :: out[i] != out[j]
    ensures forall c :: c in out <==> c in conflicts || c == Ordered(a, b)
  {
    out := if Ordered(a, b) in conflicts then conflicts else conflicts + [Ordered(a, b)];
  }

  /** The conflicts of one state with what is accepted at another. */
  method AddPairs(conflicts: seq<(nat, nat)>, here: seq<nat>, there: seq<nat>) returns (out: seq<(nat, nat)>)
    requires forall i, j | 0 <= i < j < |conflicts| :: conflicts[i] != conflicts[j]
    ensures forall i, j | 0 <= i < j < |out| :: out[i] != out[j]
    ensures forall c :: c in out <==> c in conflicts || Pairs(here, there, c)
  {
    out := conflicts;
    var i := 0;
    while i < |there|
      invariant 0 <= i <= |there|
      invariant forall p, q | 0 <= p < q < |out| :: out[p] != out[q]
      invariant forall c :: c in out <==> c in conflicts || Pairs(here, there[..i], c)
    {
      ghost var before := out;
      var j := 0;
      while j < |here|
        invariant 0 <= j <= |here|
        invariant forall p, q | 0 <= p < q < |out| :: out[p] != out[q]
        invariant forall c :: c in out <==> c in before || Pairs(here[..j], [there[i]], c)
      {
        ghost var last := out;
        if there[i] != here[j] {
          out := AddConflict(out, there[i], here[j]);
        }
        forall c
          ensures Pairs(here[..j + 1], [there[i]], c) <==>
                    Pairs(here[..j], [there[i]], c) || (there[i] != here[j] && c == Ordered(there[i], here[j]))
        {
          assert here[..j + 1] == here[..j] + [here[j]];
        }
        j := j + 1;
      }
      assert here[..|here|] == here;
      forall c
        ensures Pairs(here, there[..i + 1], c) <==> Pairs(here, there[..i], c) || Pairs(here, [there[i]], c)
      {
        assert there[..i + 1] == there[..i] + [there[i]];
      }
      i := i + 1;
    }
    assert there[..|there|] == there;
  }

  predicate Pairs(here: seq<nat>, there: seq<nat>, c: (nat, nat)) {
    exists a, b | a in here && b in there :: a != b && c == Ordered(b, a)
  }

  /** The conflicts among the terms of one state. */
  method AddOwnPairs(conflicts: seq<(nat, nat)>, accepting: seq<nat>) returns (out: seq<(nat, nat)>)
    requires forall i, j | 0 <= i < j < |conflicts| :: conflicts[i] != conflicts[j]
    requires Increasing(accepting)
    ensures forall i, j | 0 <= i < j < |out| :: out[i] != out[j]
    ensures forall c :: c in out <==> c in conflicts || Pairs(accepting, accepting, c)
  {
    out := conflicts;
    var left := 0;
    while left < |accepting|
      invariant 0 <= left <= |accepting|
      invariant forall p, q | 0 <= p < q < |out| :: out[p] != out[q]
      invariant forall c :: c in out <==> c in conflicts || IndexPairs(accepting, left, 0, c)
    {
      var right := left + 1;
      while right < |accepting|
        invariant left < right <= |accepting|
        invariant forall p, q | 0 <= p < q < |out| :: out[p] != out[q]
        invariant forall c :: c in out <==> c in conflicts || IndexPairs(accepting, left, right, c)
      {
        out := AddConflict(out, accepting[left], accepting[right]);
        right := right + 1;
      }
      left := left + 1;
    }
    forall c
      ensures IndexPairs(accepting, left, 0, c) <==> Pairs(accepting, accepting, c)
    {
      OwnPairs(accepting, left, c);
    }
  }

  /** Pairs of places in one list, up to `left` and, there, up to `right`. */
  predicate IndexPairs(accepting: seq<nat>, left: nat, right: nat, c: (nat, nat)) {
    exists i, j | 0 <= i < j < |accepting| ::
      (i < left || (i == left && j < right)) && c == Ordered(accepting[i], accepting[j])
  }

  lemma OwnPairs(accepting: seq<nat>, left: nat, c: (nat, nat))
    requires Increasing(accepting) && left >= |accepting|
    ensures IndexPairs(accepting, left, 0, c) <==> Pairs(accepting, accepting, c)
  {
    if Pairs(accepting, accepting, c) {
      var a, b :| a in accepting && b in accepting && a != b && c == Ordered(b, a);
      var i :| 0 <= i < |accepting| && accepting[i] == a;
      var j :| 0 <= j < |accepting| && accepting[j] == b;
      assert c == Ordered(accepting[i], accepting[j]) == Ordered(accepting[j], accepting[i]);
    }
  }

  /** What the states before `n` of `order` and their descendants yield. */
  ghost predicate FoundFrom(dfa: Dfa, order: seq<nat>, n: nat, c: (nat, nat)) {
    exists i, d: nat :: 0 <= i < n && i < |order| && FoundBetween(dfa, order[i], d, c)
  }

  ghost predicate FoundBetween(dfa: Dfa, s: nat, d: nat, c: (nat, nat)) {
    s < |dfa.states| && d < |dfa.states| && DfaReaches(dfa, s, d) && Pairs(dfa.states[s].accepting, dfa.states[d].accepting, c)
  }

  method DescendantConflicts(dfa: Dfa, state: nat, conflicts: seq<(nat, nat)>) returns (out: seq<(nat, nat)>)
    requires DfaWellFormed(dfa) && state < |dfa.states|
    requires forall i, j | 0 <= i < j < |conflicts| :: conflicts[i] != conflicts[j]
    requires forall c :: Pairs(dfa.states[state].accepting, dfa.states[state].accepting, c) ==> c in conflicts
    ensures forall i, j | 0 <= i < j < |out| :: out[i] != out[j]
    ensures forall c :: c in out <==> c in conflicts || exists d: nat :: FoundBetween(dfa, state, d, c)
  {
    hide DfaReaches, DfaWellFormed, Pairs;
    out := conflicts;
    var descendants := ReachableFrom(dfa, state);
    var i := 0;
    while i < |descendants|
      invariant 0 <= i <= |descendants|
      invariant forall p, q | 0 <= p < q < |out| :: out[p] != out[q]
      invariant forall c :: c in out <==>
                  c in conflicts || exists k :: 0 <= k < i && FoundBetween(dfa, state, descendants[k], c)
    {
      var descendant := descendants[i];
      assert descendant in descendants;
      if descendant != state {
        out := AddPairs(out, dfa.states[state].accepting, dfa.states[descendant].accepting);
      }
      i := i + 1;
    }
    forall c, d: nat | FoundBetween(dfa, state, d, c)
      ensures exists k :: 0 <= k < i && FoundBetween(dfa, state, descendants[k], c)
    {
      assert d in descendants;
      var k :| 0 <= k < |descendants| && descendants[k] == d;
    }
  }

  /** All conflicts of the automaton: a pair of different terms is recorded if
      and only if some string is read as one of them while it, or an extension
      of it, is read as the other. */
  method FindConflicts(dfa: Dfa) returns (conflicts: seq<(nat, nat)>)
    requires DfaWellFormed(dfa) && forall s | 0 <= s < |dfa.states| :: Increasing(dfa.states[s].accepting)
    ensures forall i, j | 0 <= i < j < |conflicts| :: conflicts[i] != conflicts[j]
    ensures forall a: nat, b: nat | a > b ::
              (a, b) in conflicts <==> PrefixConflict(dfa, a, b) || PrefixConflict(dfa, b, a)
  {
    hide DfaReaches, EdgesSorted, Pairs, PrefixConflict, FoundBetween;
    conflicts := [];
    var order := ReachableFrom(dfa, dfa.start);
    var n := 0;
    while n < |order|
      invariant 0 <= n <= |order|
      invariant forall i, j | 0 <= i < j < |conflicts| :: conflicts[i] != conflicts[j]
      invariant forall c :: c in conflicts <==> FoundFrom(dfa, order, n, c)
    {
      var own := AddOwnPairs(conflicts, dfa.states[order[n]].accepting);
      OwnFound(dfa, order[n]);
      ghost var before := conflicts;
      conflicts := DescendantConflicts(dfa, order[n], own);
      n := n + 1;
    }
    forall a: nat, b: nat | a > b
      ensures (a, b) in conflicts <==> PrefixConflict(dfa, a, b) || PrefixConflict(dfa, b, a)
    {
      ConflictByPrefix(dfa, a, b);
      ConflictByPrefix(dfa, b, a);
      FoundIsConflict(dfa, order, a, b);
    }
  }

  lemma OwnFound(dfa: Dfa, s: nat)
    requires s < |dfa.states|
    ensures forall c :: Pairs(dfa.states[s].accepting, dfa.states[s].accepting, c) ==> FoundBetween(dfa, s, s, c)
  {
    DfaReachesSelf(dfa, s);
  }

  lemma FoundIsConflict(dfa: Dfa, order: seq<nat>, a: nat, b: nat)
    requires Reached(dfa, dfa.start, order) && a > b
    ensures FoundFrom(dfa, order, |order|, (a, b)) <==> StateConflict(dfa, a, b) || StateConflict(dfa, b, a)
  {
    hide DfaReaches;
    if FoundFrom(dfa, order, |order|, (a, b)) {
      var i, d: nat :| 0 <= i < |order| && FoundBetween(dfa, order[i], d, (a, b));
      var x, y :| x in dfa.states[order[i]].accepting && y in dfa.states[d].accepting && x != y && (a, b) == Ordered(y, x);
      assert order[i] in order;
      assert StatesConflict(dfa, order[i], d, x, y);
    }
    if StateConflict(dfa, a, b) {
      var s: nat, d: nat :| StatesConflict(dfa, s, d, a, b);
      var i :| 0 <= i < |order| && order[i] == s;
      assert (a, b) == Ordered(b, a);
      assert FoundBetween(dfa, order[i], d, (a, b));
    }
    if StateConflict(dfa, b, a) {
      var s: nat, d: nat :| StatesConflict(dfa, s, d, b, a);
      var i :| 0 <= i < |order| && order[i] == s;
      assert (a, b) == Ordered(a, b);
      assert FoundBetween(dfa, order[i], d, (a, b));
    }
  }
}
