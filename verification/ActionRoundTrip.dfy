/** From the actions of an automaton's states through rows and index back to the
    same actions. */
module ActionRoundTrip {
  import opened Options
  import opened Counting
  import opened Varint
  import opened Automaton
  import opened GotoTable
  import opened ActionData
  import opened ActionBlock
  import opened ActionRows
  import opened ActionWriter
  import opened SkipRows
  import opened RawWalk
  import opened ActionIndex

  // ---- written rows are accepted ------------------------------------------

  ghost predicate RootsEnd(data: seq<Word>, roots: seq<nat>) {
    forall o <- roots :: ChainEnds(data, o)
  }

  lemma {:induction false} ReachedEnds(data: seq<Word>, roots: seq<nat>, offset: nat, steps: nat)
    requires RootsEnd(data, roots) && ReachedIn(data, roots, offset, steps)
    ensures ChainEnds(data, offset)
    decreases steps
  {
    hide ReadRow;
    if steps > 0 {
      var from: nat :| ReachedIn(data, roots, from, steps - 1) && LinksTo(data, from, offset);
      ReachedEnds(data, roots, from, steps - 1);
      var fuel: nat :| Ends(data, from, fuel);
      assert Ends(data, offset, fuel - 1);
    }
  }

  lemma {:induction false} RowFits(data: seq<Word>, offset: nat)
    requires ReadRow(data, offset).Row?
    ensures offset + 3 * |ReadRow(data, offset).entries| < |data|
    decreases |data| - offset
  {
    if data[offset] != END { RowFits(data, offset + 3); }
  }

  lemma EndingRow(data: seq<Word>, offset: nat)
    requires ChainEnds(data, offset)
    ensures ReadRow(data, offset).Row?
  {
    var fuel: nat :| Ends(data, offset, fuel);
  }

  /** Data of which every state's chains end is never refused: it is too short
      for a row, or a list of rows, to be too long. */
  lemma EndingAccepted(data: seq<Word>, roots: seq<nat>)
    requires RootsEnd(data, roots) && |data| <= TABLE_LIMIT
    ensures !Refused(data, roots)
  {
    hide ReadRow, ChainEnds, RootsEnd;
    forall o: nat | Reached(data, roots, o)
      ensures ChainEnds(data, o) && ReadRow(data, o).Row? && o < |data|
      ensures |ReadRow(data, o).entries| <= 0xFFFF
    {
      var steps: nat :| ReachedIn(data, roots, o, steps);
      ReachedEnds(data, roots, o, steps);
      EndingRow(data, o);
      RowFits(data, o);
    }
    forall offsets: seq<nat> ensures !ManyRows(data, roots, offsets) {
      if ManyRows(data, roots, offsets) {
        forall i | 0 <= i < |offsets| ensures offsets[i] < |data| {
          assert offsets[i] in offsets;
        }
        DistinctBound(offsets, |data|);
      }
    }
  }

  // ---- order does not matter ----------------------------------------------

  function CodesOn(c: Context, actions: seq<Action>, term: Word): seq<nat>
    requires Writable(c, actions) && AllCodable(actions)
  {
    ActionsOn(Encoded(c, actions), term)
  }

  lemma CodesConcat(c: Context, a: seq<Action>, b: seq<Action>, term: Word)
    requires Writable(c, a) && AllCodable(a) && Writable(c, b) && AllCodable(b)
    ensures Writable(c, a + b) && AllCodable(a + b)
    ensures CodesOn(c, a + b, term) == CodesOn(c, a, term) + CodesOn(c, b, term)
  {
    EncodedConcat(c, a, b);
    ActionsOnConcat(Encoded(c, a), Encoded(c, b), term);
  }

  lemma WritableSlice(c: Context, actions: seq<Action>, part: seq<Action>)
    requires Writable(c, actions) && AllCodable(actions)
    requires forall a :: a in part ==> a in actions
    ensures Writable(c, part) && AllCodable(part)
  {}

  lemma RemoveOne<T>(a: seq<T>, b: seq<T>, i: nat)
    requires multiset(a) == multiset(b) && |a| > 0 && i < |b| && b[i] == a[|a| - 1]
    ensures multiset(a[..|a| - 1]) == multiset(b[..i] + b[i + 1..])
  {
    var front, x, left, right := a[..|a| - 1], b[i], b[..i], b[i + 1..];
    assert a == front + [x];
    assert b == left + [x] + right;
    assert multiset(front) == multiset(a) - multiset{x};
    assert multiset(left + right) == multiset(b) - multiset{x};
  }

  lemma MultisetSum<T>(a: seq<T>, b: seq<T>)
    ensures multiset(a + b) == multiset(a) + multiset(b)
  {}

  lemma CodesSplit(c: Context, front: seq<Action>, left: seq<Action>, last: seq<Action>, right: seq<Action>,
                   term: Word)
    requires Writable(c, front) && AllCodable(front) && Writable(c, last) && AllCodable(last)
    requires Writable(c, left) && AllCodable(left) && Writable(c, right) && AllCodable(right)
    requires Writable(c, left + right) && AllCodable(left + right)
    requires multiset(CodesOn(c, front, term)) == multiset(CodesOn(c, left + right, term))
    ensures Writable(c, front + last) && AllCodable(front + last)
    ensures Writable(c, left + last + right) && AllCodable(left + last + right)
    ensures multiset(CodesOn(c, front + last, term)) == multiset(CodesOn(c, left + last + right, term))
  {
    hide Writable, AllCodable, CodesOn;
    CodesConcat(c, front, last, term);
    CodesConcat(c, left, last, term);
    CodesConcat(c, left + last, right, term);
    CodesConcat(c, left, right, term);
    var f, l, m, r := CodesOn(c, front, term), CodesOn(c, left, term), CodesOn(c, last, term), CodesOn(c, right, term);
    MultisetSum(f, m);
    MultisetSum(l, m);
    MultisetSum(l + m, r);
    MultisetSum(l, r);
  }

  /** Rearranging actions rearranges the codes found for a term. */
  lemma {:induction false} CodesPermuted(c: Context, a: seq<Action>, b: seq<Action>, term: Word)
    requires Writable(c, a) && AllCodable(a) && Writable(c, b) && AllCodable(b)
    requires multiset(a) == multiset(b)
    ensures multiset(CodesOn(c, a, term)) == multiset(CodesOn(c, b, term))
    decreases |a|
  {
    hide Writable, AllCodable, CodesOn;
    assert |multiset(a)| == |a| && |multiset(b)| == |b|;
    if |a| == 0 {
      assert a == b;
    } else {
      var front, last := a[..|a| - 1], [a[|a| - 1]];
      assert a == front + last;
      assert last[0] in multiset(b);
      var i :| 0 <= i < |b| && b[i] == last[0];
      var left, right := b[..i], b[i + 1..];
      assert b == (left + last) + right;
      RemoveOne(a, b, i);
      WritableSlice(c, a, front);
      WritableSlice(c, a, last);
      WritableSlice(c, b, left);
      WritableSlice(c, b, right);
      EncodedConcat(c, left, right);
      CodesPermuted(c, front, left + right, term);
      CodesSplit(c, front, left, last, right, term);
    }
  }

  // ---- what the codes of a term do ----------------------------------------

  function ForTerm(c: Context, actions: seq<Action>, term: Word): (own: seq<Action>)
    ensures forall a :: a in own <==> a in actions && c.g.outputId(a.term) == term
  {
    if actions == [] then []
    else
      var front, last := actions[..|actions| - 1], actions[|actions| - 1];
      assert actions == front + [last];
      ForTerm(c, front, term) + if c.g.outputId(last.term) == term then [last] else []
  }

  /** The codes of a term perform the actions on it, one by one. */
  lemma {:induction false} CodesPerform(c: Context, actions: seq<Action>, term: Word)
    requires Writable(c, actions) && AllCodable(actions)
    ensures var codes, own := CodesOn(c, actions, term), ForTerm(c, actions, term);
            |codes| == |own| && forall k :: 0 <= k < |own| ==> Performs(c, own[k], codes[k])
    decreases |actions|
  {
    hide Performs, Code, Known, Codable;
    if actions != [] {
      var front, last := actions[..|actions| - 1], actions[|actions| - 1];
      assert last in actions;
      assert forall a <- front :: a in actions;
      CodesPerform(c, front, term);
      CodePerforms(c, last);
      assert Encoded(c, actions)[..|front|] == Encoded(c, front);
    }
  }

  /** Every code that is visited performs one of the actions on the term, and
      every action on the term is performed by a code or by the fallback. */
  ghost predicate ActsOn(c: Context, actions: seq<Action>, term: Word, visited: seq<nat>, fallback: Option<nat>) {
    && (forall code <- visited :: exists a <- actions :: c.g.outputId(a.term) == term && Performs(c, a, code))
    && (forall a <- actions | c.g.outputId(a.term) == term ::
          (exists code <- visited :: Performs(c, a, code)) || (fallback.Some? && Performs(c, a, fallback.value)))
  }

  lemma VisitedActs(c: Context, actions: seq<Action>, skipReduce: Option<nat>, term: Word, visited: seq<nat>)
    requires Writable(c, actions) && AllCodable(actions)
    requires Writable(c, Kept(c, actions, skipReduce, None)) && AllCodable(Kept(c, actions, skipReduce, None))
    requires multiset(visited) == multiset(CodesOn(c, Kept(c, actions, skipReduce, None), term))
    ensures ActsOn(c, actions, term, visited, skipReduce)
  {
    hide Performs, Writable, AllCodable, Kept, CodesOn, ForTerm;
    KeptOrFallback(c, actions, skipReduce);
    var kept := Kept(c, actions, skipReduce, None);
    var codes, own := CodesOn(c, kept, term), ForTerm(c, kept, term);
    CodesPerform(c, kept, term);
    SameElements(visited, codes);
    forall code <- visited ensures exists a <- actions :: c.g.outputId(a.term) == term && Performs(c, a, code) {
      var k :| 0 <= k < |codes| && codes[k] == code;
      assert own[k] in own;
    }
    forall a <- actions | c.g.outputId(a.term) == term
      ensures (exists code <- visited :: Performs(c, a, code)) || (skipReduce.Some? && Performs(c, a, skipReduce.value))
    {
      if a in kept {
        var k :| 0 <= k < |own| && own[k] == a;
        assert codes[k] in visited;
      }
    }
  }

  lemma SameElements<T>(a: seq<T>, b: seq<T>)
    requires multiset(a) == multiset(b)
    ensures forall x :: x in a <==> x in b
    ensures a == [] <==> b == []
  {
    SameMembers(a, b);
    assert |multiset(a)| == |a| && |multiset(b)| == |b|;
  }

  // ---- the round trip -----------------------------------------------------

  /** A written state row ends, so the index accepts it. */
  lemma StateRowEnds(data: seq<Word>, offset: nat, c: Context, actions: seq<Action>, skipReduce: Option<nat>)
    requires StateRow(data, offset, c, actions, skipReduce)
    ensures ChainEnds(data, offset)
  {
    hide Writable, AllCodable, Kept, Encoded, FullContinuations, ChainEntries, ChainFallback;
    assert Ends(data, offset, 1);
  }

  /** Through the index, a term visits exactly the codes of the state's actions
      on it, each as often as the state has it, and the fallback is the state's
      reduction at the end of input. */
  method VisitState(x: Rows, rowId: nat, term: Word, ghost data: seq<Word>, ghost c: Context,
                    ghost actions: seq<Action>, ghost skipReduce: Option<nat>)
    returns (visited: seq<nat>, fallback: Option<nat>)
    requires Indexed(x, data) && |x.rows| == |x.offsets| && rowId < |x.rows|
    requires StateRow(data, x.offsets[rowId], c, actions, skipReduce)
    requires skipReduce != Some(0)
    ensures Writable(c, Kept(c, actions, skipReduce, None)) && AllCodable(Kept(c, actions, skipReduce, None))
    ensures multiset(visited) == multiset(CodesOn(c, Kept(c, actions, skipReduce, None), term))
    ensures fallback == skipReduce && ActsOn(c, actions, term, visited, fallback)
  {
    hide Indexed, Writable, AllCodable, Kept, Encoded, Ends, FullContinuations, ChainEntries, ChainFallback,
      ActionsOn, ActsOn;
    ghost var offset := x.offsets[rowId];
    ghost var kept := Kept(c, actions, skipReduce, None);
    visited, fallback := VisitRow(x, rowId, term, data, 1);
    LoneKept(data, offset, c, actions, skipReduce);
    ghost var order: seq<Action> :| multiset(order) == multiset(kept) && Writable(c, order) && AllCodable(order)
                                    && ChainEntries(data, offset, 1) == Encoded(c, order);
    CodesPermuted(c, order, kept, term);
    VisitedActs(c, actions, skipReduce, term, visited);
  }

  /** The raw walk sees the default reduction and the codes of the same actions. */
  method WalkState(data: seq<Word>, offset: nat, defaultReduce: nat, ghost c: Context, ghost actions: seq<Action>,
                   ghost skipReduce: Option<nat>)
    returns (visited: seq<nat>)
    requires StateRow(data, offset, c, actions, skipReduce)
    ensures exists order: seq<Action> ::
              && multiset(order) == multiset(Kept(c, actions, skipReduce, None))
              && Writable(c, order) && AllCodable(order)
              && visited == WithDefault(defaultReduce, Actions(Encoded(c, order)))
              && EachPerformed(c, order, Encoded(c, order))
  {
    hide Writable, AllCodable, Kept, Encoded, Ends, FullContinuations, ChainEntries, ChainFallback, Actions,
      WithDefault, EachPerformed;
    forall order: seq<Action> | Writable(c, order) && AllCodable(order) ensures EachPerformed(c, order, Encoded(c, order)) {
      EncodedPerform(c, order);
    }
    var stopped;
    visited, stopped := AllActions(data, offset, defaultReduce, _ => false, 1);
  }

  /** The data and slots of all states: their own rows, and the rows of their
      skip sets. */
  ghost predicate Written(data: seq<Word>, slots: seq<StateSlots>, c: Context, states: seq<StateInput>,
                          infos: seq<SkipInfo>)
    requires GoodStates(c, states) && GoodSkips(c, states, infos)
  {
    && |data| <= TABLE_LIMIT && |slots| == |states|
    && forall s {:trigger slots[s]} :: 0 <= s < |slots| ==> SlotsWritten(data, slots[s], c, states, infos, s)
  }

  ghost predicate SlotsWritten(data: seq<Word>, slots: StateSlots, c: Context, states: seq<StateInput>,
                               infos: seq<SkipInfo>, s: nat)
    requires GoodStates(c, states) && GoodSkips(c, states, infos) && s < |states|
  {
    && states[s] in states && states[s].skip < |infos| && infos[states[s].skip] in infos
    && StateRow(data, slots.actions, c, WrittenActions(states[s]), SkipReduce(c, states[s]))
    && ReadRow(data, slots.skip) == Row(SkipEntries(c, states, infos[states[s].skip]), Done)
  }

  lemma {:induction false} RootsAreSlots(slots: seq<StateSlots>, offset: nat)
    requires offset in Roots(slots)
    ensures exists s :: 0 <= s < |slots| && (slots[s].actions == offset || slots[s].skip == offset)
    decreases |slots|
  {
    if |slots| > 0 {
      var n := |slots| - 1;
      if offset in Roots(slots[..n]) {
        RootsAreSlots(slots[..n], offset);
        var s :| 0 <= s < n && (slots[..n][s].actions == offset || slots[..n][s].skip == offset);
        assert slots[s] == slots[..n][s];
      } else {
        assert slots[n].actions == offset || slots[n].skip == offset;
      }
    }
  }

  lemma WrittenAccepted(data: seq<Word>, slots: seq<StateSlots>, c: Context, states: seq<StateInput>,
                        infos: seq<SkipInfo>)
    requires GoodStates(c, states) && GoodSkips(c, states, infos) && Written(data, slots, c, states, infos)
    ensures !Refused(data, Roots(slots))
  {
    hide StateRow, ReadRow, Refused, SkipReduce, SkipEntries;
    forall o <- Roots(slots) ensures ChainEnds(data, o) {
      RootsAreSlots(slots, o);
      var s :| 0 <= s < |slots| && (slots[s].actions == o || slots[s].skip == o);
      assert SlotsWritten(data, slots[s], c, states, infos, s);
      if slots[s].actions == o {
        StateRowEnds(data, o, c, WrittenActions(states[s]), SkipReduce(c, states[s]));
      } else {
        assert Ends(data, o, 0);
      }
    }
    EndingAccepted(data, Roots(slots));
  }

  /** The rows of all states perform exactly their actions. */
  ghost predicate RowsAct(data: seq<Word>, slots: seq<StateSlots>, c: Context, states: seq<StateInput>) {
    |slots| == |states| && forall s {:trigger slots[s]} :: 0 <= s < |slots| ==>
      RowActs(data, slots[s].actions, c, WrittenActions(states[s]))
  }

  lemma WrittenActs(data: seq<Word>, slots: seq<StateSlots>, c: Context, states: seq<StateInput>,
                    infos: seq<SkipInfo>)
    requires GoodStates(c, states) && GoodSkips(c, states, infos) && Written(data, slots, c, states, infos)
    ensures RowsAct(data, slots, c, states)
  {
    hide StateRow, ReadRow, SkipEntries, EofReduce, RowActs, Writable, Distinct;
    forall s {:trigger slots[s]} | 0 <= s < |slots|
      ensures RowActs(data, slots[s].actions, c, WrittenActions(states[s]))
    {
      assert SlotsWritten(data, slots[s], c, states, infos, s);
      StateRowActs(data, slots[s].actions, c, WrittenActions(states[s]), SkipReduce(c, states[s]));
    }
  }

  lemma SlotsRead(offsets: seq<nat>, skips: seq<nat>, data: seq<Word>, c: Context, states: seq<StateInput>,
                  infos: seq<SkipInfo>, s: nat)
    requires GoodStates(c, states) && GoodSkips(c, states, infos)
    requires |offsets| == |states| && StatesRead(data, offsets, c, states) && s < |states|
    requires states[s].skip < |infos| == |skips| && SkipsRead(data, skips, c, states, infos)
    ensures SlotsWritten(data, StateSlots(offsets[s], skips[states[s].skip]), c, states, infos, s)
  {
    hide StateRow, ReadRow, SkipReduce, SkipEntries;
    assert offsets[s] == offsets[s] && skips[states[s].skip] == skips[states[s].skip];
  }

  /** The columns of the state table that point into the data. */
  method BuildSlots(states: seq<StateInput>, offsets: seq<nat>, skips: seq<nat>, ghost data: seq<Word>,
                    ghost c: Context, ghost infos: seq<SkipInfo>)
    returns (slots: seq<StateSlots>)
    requires GoodStates(c, states) && GoodSkips(c, states, infos) && |data| <= TABLE_LIMIT
    requires |offsets| == |states| && StatesRead(data, offsets, c, states)
    requires |skips| == |infos| && SkipsRead(data, skips, c, states, infos)
    requires forall s <- states :: s.skip < |infos|
    ensures Written(data, slots, c, states, infos)
  {
    hide GoodStates, GoodSkips, StatesRead, SkipsRead, SlotsWritten;
    slots := [];
    while |slots| < |states|
      invariant |slots| <= |states|
      invariant forall s {:trigger slots[s]} :: 0 <= s < |slots| ==> SlotsWritten(data, slots[s], c, states, infos, s)
    {
      var state := states[|slots|];
      assert state in states;
      SlotsRead(offsets, skips, data, c, states, infos, |slots|);
      slots := slots + [StateSlots(offsets[|slots|], skips[state.skip])];
    }
  }

  /** Writes skip rows, state rows and the token precedence list into one data
      array and indexes it. Written data is never refused by the index, and the
      writer only refuses what does not fit. */
  method WriteAndIndex(c: Context, states: seq<StateInput>, infos: seq<SkipInfo>, precedence: seq<Word>)
    returns (ok: bool, data: seq<Word>, slots: seq<StateSlots>, index: Index)
    requires GoodStates(c, states) && GoodSkips(c, states, infos)
    requires forall s <- states :: s.skip < |infos|
    ensures ok ==> Written(data, slots, c, states, infos) && Represents(index, data, slots)
    ensures ok ==> RowsAct(data, slots, c, states)
    ensures !ok ==> |data| > TABLE_LIMIT || exists s :: s in states && !AllCodable(WrittenActions(s))
  {
    hide GoodStates, GoodSkips, StatesRead, SkipsRead, Written, Represents, Refused, AllCodable, OccursAt, RowsAct;
    slots, index := [], Index(Rows([], [], [], [], [], []), [], false, [], false);
    var builder := new DataBuilder();
    var skips, offsets;
    ok, skips := BuildSkipData(c, states, infos, builder);
    data := builder.data;
    if !ok {
      return;
    }
    ok, offsets := FinishStates(c, states, builder);
    SkipsReadLater(data, builder.data, skips, c, states, infos);
    data := builder.data;
    if !ok {
      return;
    }
    var position := builder.StoreArray(precedence + [END]);
    SkipsReadLater(data, builder.data, skips, c, states, infos);
    StatesReadLater(data, builder.data, offsets, c, states);
    data := builder.data;
    if position.None? {
      return false, data, slots, index;
    }
    slots := BuildSlots(states, offsets, skips, data, c, infos);
    WrittenAccepted(data, slots, c, states, infos);
    WrittenActs(data, slots, c, states, infos);
    ok, index := Build(data, slots);
  }

  // ---- what a state does, through the index -------------------------------

  /** Through rows and index, a term visits exactly the codes of the state's
      actions on it, and the fallback is its reduction at the end of input. */
  method StateActionsOn(index: Index, state: nat, term: Word, ghost data: seq<Word>, ghost slots: seq<StateSlots>,
                        ghost c: Context, ghost states: seq<StateInput>, ghost infos: seq<SkipInfo>)
    returns (visited: seq<nat>, fallback: Option<nat>)
    requires GoodStates(c, states) && GoodSkips(c, states, infos) && Written(data, slots, c, states, infos)
    requires Represents(index, data, slots) && state < |slots| && states[state] in states
    ensures multiset(visited) == multiset(OwnCodes(c, states[state], term))
    ensures fallback == SkipReduce(c, states[state])
    ensures ActsOn(c, WrittenActions(states[state]), term, visited, fallback)
    ensures FallsBack(c, states[state], fallback)
  {
    hide Indexed, NoErrors, AllEnd, FilterSound, StateRow, ReadRow, SkipReduce, SkipEntries,
      Kept, CodesOn, Writable, AllCodable, ActsOn, FallsBack;
    assert Rooted(index.x, index.states[state], slots[state]);
    assert SlotsWritten(data, slots[state], c, states, infos, state);
    visited, fallback := VisitState(index.x, index.states[state].actionRow, term, data, c,
                                    WrittenActions(states[state]), SkipReduce(c, states[state]));
    StateRowCodable(data, slots[state].actions, c, WrittenActions(states[state]), SkipReduce(c, states[state]));
    FallbackPerforms(c, states[state]);
  }

  /** Only a state inside a skip expression that has to look at its input falls
      back, and then to one of its reductions on the end of input. */
  ghost predicate FallsBack(c: Context, state: StateInput, fallback: Option<nat>) {
    && (fallback.Some? <==>
          state.defaultReduce.None? && state.isSkip && exists a <- state.actions :: a.Reduce? && a.term == c.eof)
    && (fallback.Some? ==>
          exists a <- state.actions :: a.Reduce? && a.term == c.eof && Performs(c, a, fallback.value))
  }

  lemma FallbackPerforms(c: Context, state: StateInput)
    requires Writable(c, state.actions)
    ensures FallsBack(c, state, SkipReduce(c, state))
  {
    hide Performs, EofReduce;
    EofReducePerforms(c, state.actions);
  }

  lemma StateRowCodable(data: seq<Word>, offset: nat, c: Context, actions: seq<Action>, skipReduce: Option<nat>)
    requires StateRow(data, offset, c, actions, skipReduce)
    ensures Writable(c, actions) && AllCodable(actions)
  {}

  /** The codes that a state itself has for a term, apart from its fallback. */
  ghost function OwnCodes(c: Context, state: StateInput, term: Word): seq<nat>
    requires Writable(c, state.actions)
  {
    if AllCodable(WrittenActions(state)) then
      KeptWritable(c, WrittenActions(state), SkipReduce(c, state));
      CodesOn(c, Kept(c, WrittenActions(state), SkipReduce(c, state), None), term)
    else []
  }

  lemma KeptWritable(c: Context, actions: seq<Action>, skipReduce: Option<nat>)
    requires Writable(c, actions) && AllCodable(actions)
    ensures Writable(c, Kept(c, actions, skipReduce, None)) && AllCodable(Kept(c, actions, skipReduce, None))
  {}

  /** The codes of a state on a term perform its actions on the term. */
  lemma OwnCodesAct(c: Context, state: StateInput, term: Word)
    requires Writable(c, state.actions) && AllCodable(WrittenActions(state))
    ensures ActsOn(c, WrittenActions(state), term, OwnCodes(c, state, term), SkipReduce(c, state))
  {
    hide CodesOn, Kept, EofReduce, ActsOn;
    var actions, skipReduce := WrittenActions(state), SkipReduce(c, state);
    KeptWritable(c, actions, skipReduce);
    VisitedActs(c, actions, skipReduce, term, OwnCodes(c, state, term));
  }

  lemma {:induction false} FirstVisited(entries: seq<Entry>, term: Word)
    ensures FirstOf(entries, term).Some? ==>
              FirstOf(entries, term).value in ActionsOn(entries, term) + ActionsOn(entries, ERROR_TERM)
    ensures FirstOf(entries, term).None? ==> ActionsOn(entries, term) == [] && ActionsOn(entries, ERROR_TERM) == []
    decreases |entries|
  {
    if entries != [] {
      var front, last := entries[..|entries| - 1], entries[|entries| - 1];
      assert entries == front + [last];
      FirstVisited(front, term);
      FirstOfConcat(front, [last], term);
    }
  }

  /** What the first action of a state on a term may be: one of its codes for
      the term or for errors, or else its fallback, or else what its skip set
      does on the term. */
  ghost predicate Answers(c: Context, states: seq<StateInput>, infos: seq<SkipInfo>, state: nat, term: Word, action: nat)
    requires GoodStates(c, states) && GoodSkips(c, states, infos) && state < |states| && states[state] in states
    requires states[state].skip < |infos| && infos[states[state].skip] in infos
  {
    var own := OwnCodes(c, states[state], term) + OwnCodes(c, states[state], ERROR_TERM);
    var fallback := SkipReduce(c, states[state]);
    if own != [] then action in own
    else if fallback.Some? then action == fallback.value
    else match FirstOf(SkipEntries(c, states, infos[states[state].skip]), term)
         case Some(code) => action == code
         case None => action == 0
  }

  /** The first action of a state, through rows and index. */
  method StateFirst(index: Index, state: nat, term: Word, ghost data: seq<Word>, ghost slots: seq<StateSlots>,
                    ghost c: Context, ghost states: seq<StateInput>, ghost infos: seq<SkipInfo>)
    returns (action: nat)
    requires GoodStates(c, states) && GoodSkips(c, states, infos) && Written(data, slots, c, states, infos)
    requires Represents(index, data, slots) && state < |slots| && states[state] in states
    requires states[state].skip < |infos| && infos[states[state].skip] in infos
    ensures Answers(c, states, infos, state, term, action)
  {
    hide Represents, StateRow, ReadRow, SkipReduce, SkipEntries, OwnCodes, FirstOf, PlainFirst;
    assert SlotsWritten(data, slots[state], c, states, infos, state);
    StateRowEndsAt(data, slots[state].actions, c, WrittenActions(states[state]), SkipReduce(c, states[state]));
    assert Ends(data, slots[state].skip, 1);
    action := FirstAction(index, state, term, data, slots, 1);
    OwnFirst(data, slots[state].actions, c, states[state], term);
    SkipFirst(data, slots[state].skip, SkipEntries(c, states, infos[states[state].skip]), term);
  }

  lemma StateRowEndsAt(data: seq<Word>, offset: nat, c: Context, actions: seq<Action>, skipReduce: Option<nat>)
    requires StateRow(data, offset, c, actions, skipReduce)
    ensures Ends(data, offset, 1)
  {}

  lemma SkipFirst(data: seq<Word>, offset: nat, entries: seq<Entry>, term: Word)
    requires ReadRow(data, offset) == Row(entries, Done)
    ensures Ends(data, offset, 1)
    ensures PlainFirst(data, offset, term, 1)
         == match FirstOf(entries, term) case Some(code) => code case None => 0
  {
    hide ReadRow, FirstOf;
    assert ChainEntries(data, offset, 1) == entries + [] == entries;
  }

  /** The plain scan of a written row gives one of the state's codes, never the
      missing action, or its fallback. */
  lemma OwnFirst(data: seq<Word>, offset: nat, c: Context, state: StateInput, term: Word)
    requires Writable(c, state.actions)
    requires StateRow(data, offset, c, WrittenActions(state), SkipReduce(c, state))
    ensures Ends(data, offset, 1)
    ensures var own := OwnCodes(c, state, term) + OwnCodes(c, state, ERROR_TERM);
            var first := PlainFirst(data, offset, term, 1);
            if own != [] then first in own && first != 0
            else first == match SkipReduce(c, state) case Some(code) => code case None => 0
  {
    hide Kept, Encoded, Ends, FullContinuations, ChainEntries, ChainFallback, FirstOf, ActionsOn, Known, Codable,
      SkipReduce;
    var kept := Kept(c, WrittenActions(state), SkipReduce(c, state), None);
    KeptWritable(c, WrittenActions(state), SkipReduce(c, state));
    var order: seq<Action> :|
      multiset(order) == multiset(kept) && Writable(c, order) && AllCodable(order)
      && ChainEntries(data, offset, 1) == Encoded(c, order);
    CodesPermuted(c, order, kept, term);
    CodesPermuted(c, order, kept, ERROR_TERM);
    FirstVisited(Encoded(c, order), term);
    SameElements(CodesOn(c, order, term), CodesOn(c, kept, term));
    SameElements(CodesOn(c, order, ERROR_TERM), CodesOn(c, kept, ERROR_TERM));
    FirstSound(Encoded(c, order), term);
  }

  lemma {:induction false} FirstSound(entries: seq<Entry>, term: Word)
    requires SoundEntries(entries)
    ensures FirstOf(entries, term) != Some(0)
    decreases |entries|
  {
    if entries != [] {
      assert entries[0] in entries;
      assert forall e <- entries[1..] :: e in entries;
      FirstSound(entries[1..], term);
    }
  }
}
