/** From the gotos of a merged automaton to lookups in its index. */
module GeneratedGotos {
  import opened Options
  import opened Varint
  import opened Automaton
  import opened Collapse
  import opened MergeStates
  import opened MergedAutomaton
  import W = GotoWriter
  import R = GotoRoundTrip
  import I = GotoIndex

  /** The gotos of each state are shifts on different terms, whose ids fit. */
  ghost predicate UniqueGotos(g: Grammar, states: seq<State>) {
    forall k :: 0 <= k < |states| ==> StateUnique(g, states[k])
  }

  ghost predicate StateUnique(g: Grammar, state: State) {
    && (forall a <- state.gotos :: a.Shift? && g.outputId(a.term) < 0x1_0000)
    && forall i, j :: 0 <= i < j < |state.gotos| ==> state.gotos[i].term != state.gotos[j].term
  }

  ghost predicate TermsFit(g: Grammar, states: seq<State>) {
    forall s <- states, a <- s.gotos :: g.outputId(a.term) < 0x1_0000
  }

  /** Collapse and merge leave at most one goto per state and term. */
  lemma MergedUnique(g: Grammar, states: seq<State>, mapping: seq<nat>, groups: seq<Group>, merged: seq<State>)
    requires Collapsed(g, states, mapping, groups, merged) && TermsFit(g, states)
    ensures UniqueGotos(g, merged)
  {
    forall k | 0 <= k < |merged| ensures StateUnique(g, merged[k]) {
      MergedStateUnique(g, states, mapping, groups, merged, k);
    }
  }

  lemma MergedStateUnique(g: Grammar, states: seq<State>, mapping: seq<nat>, groups: seq<Group>, merged: seq<State>,
                          k: nat)
    requires Collapsed(g, states, mapping, groups, merged) && TermsFit(g, states) && k < |merged|
    ensures StateUnique(g, merged[k])
  {
    hide ActionsSorted, ActionsDistinct, InRange, PairsMerge, OriginsUniform, HeaderOf, Partition, CollectsActions,
      HasEquivalent, ActionsCompatible, Equivalent;
    PartitionSize(groups, mapping, |states|);
    var gotos := merged[k].gotos;
    forall b <- gotos ensures b.Shift? && g.outputId(b.term) < 0x1_0000 {
      var s, x := MergedGotoSource(g, states, mapping, k, gotos, b);
      GotoShift(g, states[s].gotos, x, x);
      assert states[s] in states;
    }
    forall i, j | 0 <= i < j < |gotos| ensures gotos[i].term != gotos[j].term {
      if gotos[i].term == gotos[j].term {
        GotosStayUnique(g, states, mapping, groups, merged, k, gotos[i], gotos[j]);
        SelfEquivalent(g, gotos[i]);
      }
    }
  }

  /** States that take their gotos from earlier ones, with other targets, as
      dropping and renumbering states does, keep at most one per term. */
  lemma {:induction false} RetargetedUnique(g: Grammar, states: seq<State>, mapping: seq<nat>, from: seq<nat>, after: seq<State>)
    requires UniqueGotos(g, states) && |from| == |after|
    requires forall k :: 0 <= k < |after| ==>
               from[k] < |states| && Retargeted(mapping, states[from[k]].gotos, after[k].gotos)
    ensures UniqueGotos(g, after)
  {
    forall k | 0 <= k < |after| ensures StateUnique(g, after[k]) {
      assert StateUnique(g, states[from[k]]);
    }
  }

  // ---- the gotos as the table writer sees them ----------------------------

  function GotosOf(g: Grammar, gotos: seq<Action>): (r: seq<W.Goto>)
    requires forall a <- gotos :: a.Shift? && g.outputId(a.term) < 0x1_0000
    ensures |r| == |gotos|
    ensures forall i :: 0 <= i < |gotos| ==> r[i] == W.Goto(g.outputId(gotos[i].term), gotos[i].target)
  {
    seq(|gotos|, i requires 0 <= i < |gotos| => W.Goto(g.outputId(gotos[i].term), gotos[i].target))
  }

  ghost function TableStates(g: Grammar, states: seq<State>): (r: seq<W.StateGotos>)
    requires UniqueGotos(g, states)
    ensures |r| == |states|
  {
    if states == [] then []
    else
      var n := |states| - 1;
      assert StateUnique(g, states[n]);
      TableStates(g, states[..n]) + [W.StateGotos(n, GotosOf(g, states[n].gotos))]
  }

  ghost predicate HasEntry(g: Grammar, states: seq<State>, e: W.Entry) {
    && e.source < |states|
    && exists a :: a in states[e.source].gotos && a.Shift? && g.outputId(a.term) == e.term && a.target == e.target
  }

  lemma {:induction false} EntryIff(g: Grammar, states: seq<State>, e: W.Entry)
    requires UniqueGotos(g, states)
    ensures e in W.Entries(TableStates(g, states)) <==> HasEntry(g, states, e)
    decreases |states|
  {
    if states != [] {
      var n := |states| - 1;
      EntryIff(g, states[..n], e);
      assert StateUnique(g, states[n]);
      EntriesLast(g, states);
      OfState(g, n, states[n].gotos, e);
      assert e.source < n ==> states[..n][e.source] == states[e.source];
    }
  }

  lemma EntriesLast(g: Grammar, states: seq<State>)
    requires UniqueGotos(g, states) && states != []
    ensures var n := |states| - 1;
            && StateUnique(g, states[n])
            && W.Entries(TableStates(g, states))
            == W.Entries(TableStates(g, states[..n])) + W.EntriesOf(n, GotosOf(g, states[n].gotos))
  {
    var n := |states| - 1;
    assert StateUnique(g, states[n]);
    assert TableStates(g, states)[..n] == TableStates(g, states[..n]);
  }

  lemma OfState(g: Grammar, id: nat, gotos: seq<Action>, e: W.Entry)
    requires forall a <- gotos :: a.Shift? && g.outputId(a.term) < 0x1_0000
    ensures e in W.EntriesOf(id, GotosOf(g, gotos)) <==>
              e.source == id && exists a :: a in gotos && g.outputId(a.term) == e.term && a.target == e.target
  {
    var all := W.EntriesOf(id, GotosOf(g, gotos));
    if e in all {
      var i :| 0 <= i < |all| && all[i] == e;
      assert gotos[i] in gotos;
    }
    if e.source == id && exists a :: a in gotos && g.outputId(a.term) == e.term && a.target == e.target {
      var a :| a in gotos && g.outputId(a.term) == e.term && a.target == e.target;
      var i :| 0 <= i < |gotos| && gotos[i] == a;
      assert all[i] == e;
    }
  }

  ghost predicate DistinctTermIds(g: Grammar) {
    forall a, b | g.outputId(a) == g.outputId(b) :: a == b
  }

  lemma {:induction false} EntriesUnique(g: Grammar, states: seq<State>)
    requires UniqueGotos(g, states) && DistinctTermIds(g)
    ensures W.Unique(W.Entries(TableStates(g, states)))
    decreases |states|
  {
    if states != [] {
      var n := |states| - 1;
      EntriesUnique(g, states[..n]);
      EntriesLast(g, states);
      var before, last := W.Entries(TableStates(g, states[..n])), W.EntriesOf(n, GotosOf(g, states[n].gotos));
      forall i | 0 <= i < |before| ensures before[i].source < n {
        assert before[i] in before;
        EntryIff(g, states[..n], before[i]);
      }
      LastUnique(g, n, states[n]);
    }
  }

  lemma LastUnique(g: Grammar, n: nat, state: State)
    requires StateUnique(g, state) && DistinctTermIds(g)
    ensures var last := W.EntriesOf(n, GotosOf(g, state.gotos));
            W.Unique(last) && forall i :: 0 <= i < |last| ==> last[i].source == n
  {}

  // ---- lookups ------------------------------------------------------------

  /** The table and its index hold the gotos of the automaton. */
  ghost predicate HoldsGotos(index: I.Index, table: seq<Word>, g: Grammar, states: seq<State>) {
    UniqueGotos(g, states) && R.IndexOf(index, table, W.Entries(TableStates(g, states)))
  }

  /** Writes and indexes the gotos of an automaton. */
  method IndexGotos(g: Grammar, states: seq<State>) returns (ok: bool, ghost table: seq<Word>, index: I.Index)
    requires UniqueGotos(g, states) && DistinctTermIds(g)
    ensures ok ==> HoldsGotos(index, table, g, states)
    ensures !ok ==> var entries := W.Entries(TableStates(g, states));
                    !W.AllWordy(TableStates(g, states)) || !W.RawFits(entries) || !W.AllGroupsStorable(entries)
  {
    EntriesUnique(g, states);
    var gotos := BuildStates(g, states);
    hide R.IndexOf, W.Entries, W.Unique, W.AllWordy, W.RawFits, W.AllGroupsStorable, UniqueGotos, TableStates;
    var data;
    ok, data, index := R.EncodeAndIndex(gotos);
    table := data;
  }

  method BuildStates(g: Grammar, states: seq<State>) returns (r: seq<W.StateGotos>)
    requires UniqueGotos(g, states)
    ensures r == TableStates(g, states)
  {
    r := [];
    while |r| < |states|
      invariant |r| <= |states| && r == TableStates(g, states[..|r|])
    {
      var n := |r|;
      assert StateUnique(g, states[n]);
      assert states[..n + 1][..n] == states[..n];
      r := r + [W.StateGotos(n, GotosOf(g, states[n].gotos))];
    }
    assert states[..|r|] == states;
  }

  /** In the index of an automaton's gotos, a strict lookup of a state and a term
      gives exactly the state's goto on the term, and a loose one agrees wherever
      there is one. */
  method GotoOf(g: Grammar, index: I.Index, state: Word, term: nat, loose: bool,
                ghost table: seq<Word>, ghost states: seq<State>)
    returns (target: Option<Word>)
    requires DistinctTermIds(g) && HoldsGotos(index, table, g, states)
    requires state < |states| && g.outputId(term) < 0x1_0000
    ensures !loose ==> forall x: Word :: target == Some(x) <==> Shift(term, x) in states[state].gotos
    ensures forall x: Word :: Shift(term, x) in states[state].gotos ==> target == Some(x)
  {
    hide R.IndexOf, W.Entries, W.Unique;
    EntriesUnique(g, states);
    var id: Word := g.outputId(term);
    ghost var gotos := TableStates(g, states);
    target := R.LookUp(index, state, id, loose, table, gotos);
    forall x: Word ensures W.Entry(state, id, x) in W.Entries(gotos) <==> Shift(term, x) in states[state].gotos {
      EntryIff(g, states, W.Entry(state, id, x));
      assert StateUnique(g, states[state]);
    }
  }
}
