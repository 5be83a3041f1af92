/** From a token automaton to its encoded table: what is accepted stays the
    same through determinisation, minimisation and encoding. */
module TokenCompiler {
  import opened Options
  import opened TokenNfa
  import opened SubsetConstruction
  import opened TokenLanguage
  import opened Minimize
  import opened TokenTable

  // ---- reading a table -----------------------------------------------------------------

  function FindEof(entries: seq<EncodedTokenEof>, state: nat): Option<nat> {
    if entries == [] then None
    else if entries[0].state == state then Some(entries[0].target)
    else FindEof(entries[1..], state)
  }

  function TableStep(table: EncodedTokenTable, i: nat, x: Symbol): Option<nat> {
    if i >= |table.states| then None
    else
      var row := table.states[i];
      match x
      case Char(c) =>
        if row.edgeStart + row.edgeCount <= |table.edges|
        then FindEdge(table.edges[row.edgeStart..row.edgeStart + row.edgeCount], c) else None
      case EndOfFile => FindEof(table.eof, i)
  }

  predicate TableAccepts(table: EncodedTokenTable, i: nat, word: seq<Symbol>, id: nat)
    decreases |word|
  {
    i < |table.states| &&
    if word == [] then
      var row := table.states[i];
      row.acceptStart + row.acceptCount <= |table.accepts| &&
      Lists(table.accepts[row.acceptStart..row.acceptStart + row.acceptCount], id)
    else
      var next := TableStep(table, i, word[0]);
      next.Some? && TableAccepts(table, next.value, word[1..], id)
  }

  lemma {:induction false} FindEofIs(entries: seq<EncodedTokenEof>, state: nat)
    ensures FindEof(entries, state).Some? ==> EncodedTokenEof(state, FindEof(entries, state).value) in entries
    ensures FindEof(entries, state).None? ==> forall k | 0 <= k < |entries| :: entries[k].state != state
  {
    if entries != [] {
      FindEofIs(entries[1..], state);
      if entries[0].state != state && FindEof(entries, state).None? {
        assert forall k | 1 <= k < |entries| :: entries[k] == entries[1..][k - 1];
      }
    }
  }

  /** A row steps where its state steps. */
  lemma RowStep(table: EncodedTokenTable, row: EncodedTokenState, i: nat, d: DfaState, ids: seq<nat>, info: TermInfo, x: Symbol)
    requires i < |table.states| && table.states[i] == row && RowEncodes(table, row, i, d, ids, info)
    ensures TableStep(table, i, x) == match DfaStep(d, x) case None => None case Some(t) => Some(At(ids, t))
  {
    match x
    case Char(c) =>
      var slice := table.edges[row.edgeStart..row.edgeStart + row.edgeCount];
      assert slice == MapEdges(ids, d.edges);
      FindMapped(ids, d.edges, c);
    case EndOfFile =>
      FindEofIs(table.eof, i);
  }

  /** The table accepts from row `i` the ids of what the state encoded there
      accepts. */
  lemma {:induction false} TableExact(dfa: Dfa, order: seq<nat>, ids: seq<nat>, info: TermInfo, table: EncodedTokenTable,
                                      i: nat, word: seq<Symbol>, id: nat)
    requires DfaWellFormed(dfa) && Reached(dfa, dfa.start, order) && Numbering(dfa, order, ids)
    requires TableEncodes(dfa, order, ids, info, |order|, table) && i < |order|
    ensures TableAccepts(table, i, word, id) <==>
              exists t: nat :: info.outputId(t) == id && DfaAccepts(dfa, order[i], word, t)
    decreases |word|
  {
    hide DfaReaches, MaskUnion, EdgesSorted;
    var s := order[i];
    var d := dfa.states[s];
    var row := table.states[i];
    if word == [] {
      EmptyWord(table, row, d, ids, info, i, id);
      forall t: nat ensures DfaAccepts(dfa, s, [], t) <==> t in d.accepting {}
    } else {
      RowStep(table, row, i, d, ids, info, word[0]);
      if DfaStep(d, word[0]).Some? {
        var t := DfaStep(d, word[0]).value;
        StepLinked(dfa, s, word[0]);
        LinksEncodedAt(dfa, order, ids, s, t);
        TableExact(dfa, order, ids, info, table, ids[t], word[1..], id);
        forall u: nat ensures DfaAccepts(dfa, s, word, u) <==> DfaAccepts(dfa, t, word[1..], u) {}
      } else {
        forall u: nat ensures !DfaAccepts(dfa, s, word, u) {}
      }
    }
  }

  lemma EmptyWord(table: EncodedTokenTable, row: EncodedTokenState, d: DfaState, ids: seq<nat>, info: TermInfo, i: nat, id: nat)
    requires i < |table.states| && table.states[i] == row && RowEncodes(table, row, i, d, ids, info)
    ensures TableAccepts(table, i, [], id) <==> exists t | t in d.accepting :: info.outputId(t) == id
  {}

  lemma StepLinked(dfa: Dfa, s: nat, x: Symbol)
    requires s < |dfa.states| && DfaStep(dfa.states[s], x).Some?
    ensures DfaLink(dfa, s, DfaStep(dfa.states[s], x).value)
  {
    if x.Char? {
      FindEdgeSome(dfa.states[s].edges, x.c);
    }
  }

  lemma LinksEncodedAt(dfa: Dfa, order: seq<nat>, ids: seq<nat>, s: nat, t: nat)
    requires Reached(dfa, dfa.start, order) && Numbering(dfa, order, ids)
    requires s in order && DfaLink(dfa, s, t)
    ensures t < |ids| && ids[t] < |order| && order[ids[t]] == t
  {
    hide DfaReaches;
    DfaReachesPush(dfa, dfa.start, s, t);
    var k :| 0 <= k < |order| && order[k] == t;
  }

  /** A subset automaton is well formed. */
  lemma DeterminizedWellFormed(nfa: Nfa, sets: seq<seq<nat>>, dfa: Dfa)
    requires Determinizes(nfa, sets, dfa)
    ensures DfaWellFormed(dfa)
  {
    hide EdgesSorted, SetDelta, EpsilonReaches, Significant;
    forall s | 0 <= s < |dfa.states|
      ensures EdgesSorted(dfa.states[s].edges)
      ensures forall e | e in dfa.states[s].edges :: e.target < |dfa.states|
      ensures dfa.states[s].eof.Some? ==> dfa.states[s].eof.value < |dfa.states|
    {
      assert StandsFor(nfa, sets, sets[s], dfa.states[s]);
    }
  }

  /** The table accepts, for every string of code points and end of file, exactly
      the output ids of the terms that the token automaton accepts. */
  ghost predicate SameTokens(nfa: Nfa, info: TermInfo, table: EncodedTokenTable) {
    forall word: seq<Symbol>, id: nat ::
      TableAccepts(table, 0, word, id) <==>
        exists t: nat :: info.outputId(t) == id && Accepts(nfa, nfa.start, word, t)
  }

  // ---- and only then --------------------------------------------------------------------

  ghost predicate Occurs(nfa: Nfa, term: nat) {
    exists q :: 0 <= q < |nfa.states| && term in nfa.states[q].accepting
  }

  /** Different terms of the automaton have different output ids. */
  ghost predicate DistinctIds(nfa: Nfa, info: TermInfo) {
    forall t, u: nat :: Occurs(nfa, t) && Occurs(nfa, u) && info.outputId(t) == info.outputId(u) ==> t == u
  }

  lemma {:induction false} AcceptedOccurs(nfa: Nfa, p: nat, word: seq<Symbol>, term: nat)
    requires Accepts(nfa, p, word, term)
    ensures Occurs(nfa, term)
    decreases |word|
  {
    var q: nat :| EpsilonReaches(nfa, p, q) && AcceptsAt(nfa, q, word, term);
    if word != [] {
      var e :| e in nfa.states[q].edges && Matches(e, word[0]) && Accepts(nfa, e.target, word[1..], term);
      AcceptedOccurs(nfa, e.target, word[1..], term);
    }
  }

  /** What the subset automaton accepts, the token automaton accepts. */
  lemma StartSound(nfa: Nfa, sets: seq<seq<nat>>, dfa: Dfa, word: seq<Symbol>, term: nat)
    requires WellFormed(nfa) && Determinizes(nfa, sets, dfa) && DfaAccepts(dfa, dfa.start, word, term)
    ensures Accepts(nfa, nfa.start, word, term)
  {
    hide StandsFor, AcceptsAt, DfaAccepts;
    DfaSound(nfa, sets, dfa, 0, word, term);
    var p :| p in sets[0] && AcceptsAt(nfa, p, word, term);
  }

  /** With distinct output ids, tokens that the subset automaton loses are
      missing from the table too. */
  lemma TokensLost(nfa: Nfa, sets: seq<seq<nat>>, dfa: Dfa, partition: seq<nat>, min: Dfa,
                   order: seq<nat>, ids: seq<nat>, info: TermInfo, table: EncodedTokenTable)
    requires WellFormed(nfa) && OneStatePerTerm(nfa) && !Faithful(nfa) && Determinizes(nfa, sets, dfa)
    requires DfaWellFormed(dfa) && Quotient(dfa, partition, min) && DfaWellFormed(min)
    requires Reached(min, min.start, order) && Numbering(min, order, ids)
    requires TableEncodes(min, order, ids, info, |order|, table) && DistinctIds(nfa, info)
    ensures !SameTokens(nfa, info, table)
  {
    SubsetExact(nfa, sets, dfa);
    hide WellFormed, OneStatePerTerm, Faithful, StandsFor, IsClosure, DfaReaches, Numbering, TableEncodes, TableAccepts,
         DfaAccepts, Accepts, EdgesSorted, MapState, Occurs;
    var word: seq<Symbol>, term: nat :|
      !(Accepts(nfa, nfa.start, word, term) <==> DfaAccepts(dfa, dfa.start, word, term));
    if DfaAccepts(dfa, dfa.start, word, term) {
      StartSound(nfa, sets, dfa, word, term);
    }
    AcceptedOccurs(nfa, nfa.start, word, term);
    var id := info.outputId(term);
    TableExact(min, order, ids, info, table, 0, word, id);
    if TableAccepts(table, 0, word, id) {
      var u: nat :| info.outputId(u) == id && DfaAccepts(min, min.start, word, u);
      QuotientAccepts(dfa, partition, min, dfa.start, word, u);
      StartSound(nfa, sets, dfa, word, u);
      AcceptedOccurs(nfa, nfa.start, word, u);
    }
  }

  method CompileTokens(nfa: Nfa, info: TermInfo)
    returns (result: Result<EncodedTokenTable>, ghost sets: seq<seq<nat>>, ghost subsets: Dfa,
             ghost partition: seq<nat>, ghost small: Dfa, ghost order: seq<nat>)
    requires WellFormed(nfa) && OneStatePerTerm(nfa)
    ensures result.Ok? && Faithful(nfa) ==> SameTokens(nfa, info, result.value)
    ensures result.Ok? && DistinctIds(nfa, info) ==> (SameTokens(nfa, info, result.value) <==> Faithful(nfa))
    ensures Determinizes(nfa, sets, subsets) && Quotient(subsets, partition, small)
    ensures result.Err? ==> Reached(small, small.start, order) && Oversized(small, order, result.error)
  {
    hide *;
    var dfa;
    dfa, sets := Determinize(nfa);
    DeterminizedWellFormed(nfa, sets, dfa);
    var min;
    min, partition := MinimizeDfa(dfa);
    QuotientWellFormed(dfa, partition, min);
    subsets, small := dfa, min;
    ghost var ids;
    result, order, ids := ToTable(min, info);
    if result.Ok? {
      assert Faithful(nfa) ==> SameTokens(nfa, info, result.value) by {
        if Faithful(nfa) {
          TokensKept(nfa, sets, dfa, partition, min, order, ids, info, result.value);
        }
      }
      assert !Faithful(nfa) && DistinctIds(nfa, info) ==> !SameTokens(nfa, info, result.value) by {
        if !Faithful(nfa) && DistinctIds(nfa, info) {
          TokensLost(nfa, sets, dfa, partition, min, order, ids, info, result.value);
        }
      }
    }
  }

  lemma TokensKept(nfa: Nfa, sets: seq<seq<nat>>, dfa: Dfa, partition: seq<nat>, min: Dfa,
                   order: seq<nat>, ids: seq<nat>, info: TermInfo, table: EncodedTokenTable)
    requires WellFormed(nfa) && OneStatePerTerm(nfa) && Faithful(nfa) && Determinizes(nfa, sets, dfa)
    requires DfaWellFormed(dfa) && Quotient(dfa, partition, min) && DfaWellFormed(min)
    requires Reached(min, min.start, order) && Numbering(min, order, ids)
    requires TableEncodes(min, order, ids, info, |order|, table)
    ensures SameTokens(nfa, info, table)
  {
    SubsetExact(nfa, sets, dfa);
    hide WellFormed, OneStatePerTerm, Faithful, StandsFor, IsClosure, DfaReaches, Numbering, TableEncodes, TableAccepts,
         DfaAccepts, Accepts, EdgesSorted, MapState;
    forall word: seq<Symbol>, id: nat
      ensures TableAccepts(table, 0, word, id) <==>
                exists t: nat :: info.outputId(t) == id && Accepts(nfa, nfa.start, word, t)
    {
      TableExact(min, order, ids, info, table, 0, word, id);
      forall t: nat
        ensures DfaAccepts(min, min.start, word, t) <==> Accepts(nfa, nfa.start, word, t)
      {
        QuotientAccepts(dfa, partition, min, dfa.start, word, t);
      }
    }
  }
}
