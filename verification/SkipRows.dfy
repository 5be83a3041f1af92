/** The action rows of skip sets, which the states of a set share. */
module SkipRows {
  import opened Options
  import opened Varint
  import opened Automaton
  import opened GotoTable
  import opened ActionData
  import opened ActionWriter

  /** The single tokens of a skip set, and the rule for everything longer. */
  datatype SkipInfo = SkipInfo(tokens: seq<nat>, rule: Option<nat>)

  /** The first state that starts a rule, or the number of states. */
  function StartState(states: seq<StateInput>, rule: nat): (id: nat)
    ensures id <= |states|
    ensures id < |states| ==> states[id].startRule == Some(rule)
    ensures forall j :: 0 <= j < id ==> states[j].startRule != Some(rule)
  {
    if states == [] then 0
    else if states[0].startRule == Some(rule) then 0
    else
      assert forall j :: 0 < j < |states| ==> states[j] == states[1..][j - 1];
      1 + StartState(states[1..], rule)
  }

  /** A skip rule has a start state, with a number of 16 bits. */
  ghost predicate GoodSkip(c: Context, states: seq<StateInput>, info: SkipInfo) {
    && (forall t <- info.tokens :: c.g.outputId(t) < END)
    && (info.rule.Some? ==> StartState(states, info.rule.value) < |states|
                            && StartState(states, info.rule.value) < 0x1_0000)
  }

  ghost predicate GoodSkips(c: Context, states: seq<StateInput>, infos: seq<SkipInfo>) {
    forall info <- infos :: GoodSkip(c, states, info)
  }

  // ---- the entries of a skip row ------------------------------------------

  /** A skipped token stays in its state. */
  function Stays(c: Context, tokens: seq<nat>): (entries: seq<Entry>)
    requires forall t <- tokens :: c.g.outputId(t) < END
    ensures SoundEntries(entries)
  {
    ShiftCodeBack(0, false, true);
    seq(|tokens|, i requires 0 <= i < |tokens| => Entry(c.g.outputId(tokens[i]), ShiftCode(0, false, true)))
  }

  /** A token that starts the skip rule goes to the rule's start state. */
  function Starts(c: Context, start: Word, actions: seq<Action>): (entries: seq<Entry>)
    requires forall a <- actions :: c.g.outputId(a.term) < END
    ensures SoundEntries(entries)
  {
    if actions == [] then []
    else
      var a := actions[|actions| - 1];
      assert a in actions;
      ShiftCodeBack(start, true, false);
      Starts(c, start, actions[..|actions| - 1])
        + if a.Shift? then [Entry(c.g.outputId(a.term), ShiftCode(start, true, false))] else []
  }

  lemma ActionsKnown(c: Context, states: seq<StateInput>, id: nat)
    requires GoodStates(c, states) && id < |states|
    ensures forall a <- states[id].actions :: c.g.outputId(a.term) < END
  {
    assert states[id] in states;
  }

  function SkipEntries(c: Context, states: seq<StateInput>, info: SkipInfo): (entries: seq<Entry>)
    requires GoodStates(c, states) && GoodSkip(c, states, info)
    ensures SoundEntries(entries)
  {
    if info.rule.None? then Stays(c, info.tokens)
    else
      var start := StartState(states, info.rule.value);
      ActionsKnown(c, states, start);
      Stays(c, info.tokens) + Starts(c, start, states[start].actions)
  }

  // ---- what a skip row does -----------------------------------------------

  predicate SkipsToken(c: Context, info: SkipInfo, term: Word) {
    exists t :: t in info.tokens && c.g.outputId(t) == term
  }

  /** The skip rule of the set can begin with the term. */
  predicate StartsRule(c: Context, states: seq<StateInput>, info: SkipInfo, term: Word) {
    && info.rule.Some?
    && var start := StartState(states, info.rule.value);
       start < |states| && exists a :: a in states[start].actions && a.Shift? && c.g.outputId(a.term) == term
  }

  lemma {:induction false} StaysFirst(c: Context, tokens: seq<nat>, term: Word)
    requires forall t <- tokens :: ERROR_TERM < c.g.outputId(t) < END
    ensures FirstOf(Stays(c, tokens), term)
         == if exists t :: t in tokens && c.g.outputId(t) == term then Some(ShiftCode(0, false, true)) else None
    decreases |tokens|
  {
    if tokens != [] {
      assert tokens[0] in tokens && tokens == [tokens[0]] + tokens[1..];
      assert Stays(c, tokens)[1..] == Stays(c, tokens[1..]);
      StaysFirst(c, tokens[1..], term);
    }
  }

  lemma {:induction false} StartsFirst(c: Context, start: Word, actions: seq<Action>, term: Word)
    requires forall a <- actions :: ERROR_TERM < c.g.outputId(a.term) < END
    ensures FirstOf(Starts(c, start, actions), term)
         == if exists a :: a in actions && a.Shift? && c.g.outputId(a.term) == term
            then Some(ShiftCode(start, true, false)) else None
    decreases |actions|
  {
    if actions != [] {
      var front, last := actions[..|actions| - 1], actions[|actions| - 1];
      assert actions == front + [last] && last in actions;
      assert forall a <- front :: a in actions;
      StartsFirst(c, start, front, term);
      FirstOfConcat(Starts(c, start, front), Starts(c, start, actions)[|Starts(c, start, front)|..], term);
      assert Starts(c, start, actions)
          == Starts(c, start, front) + Starts(c, start, actions)[|Starts(c, start, front)|..];
    }
  }

  /** A token of the set is skipped; any other token that can begin the skip
      rule enters it; no other term has an action. */
  lemma SkipRowMeans(c: Context, states: seq<StateInput>, info: SkipInfo, term: Word)
    requires GoodStates(c, states) && GoodSkip(c, states, info)
    requires forall t <- info.tokens :: ERROR_TERM < c.g.outputId(t)
    requires forall s <- states, a <- s.actions :: ERROR_TERM < c.g.outputId(a.term)
    ensures FirstOf(SkipEntries(c, states, info), term)
         == if SkipsToken(c, info, term) then Some(ShiftCode(0, false, true))
            else if StartsRule(c, states, info, term)
            then Some(ShiftCode(StartState(states, info.rule.value), true, false))
            else None
  {
    hide Stays, Starts, FirstOf;
    StaysFirst(c, info.tokens, term);
    if info.rule.Some? {
      var start := StartState(states, info.rule.value);
      assert states[start] in states;
      ActionsKnown(c, states, start);
      StartsFirst(c, start, states[start].actions, term);
      FirstOfConcat(Stays(c, info.tokens), Starts(c, start, states[start].actions), term);
    }
  }

  // ---- writing the rows ---------------------------------------------------

  lemma StaysNext(c: Context, tokens: seq<nat>, i: nat)
    requires i < |tokens| && forall t <- tokens :: c.g.outputId(t) < END
    ensures forall t <- tokens[..i] + [tokens[i]] :: c.g.outputId(t) < END
    ensures tokens[..i + 1] == tokens[..i] + [tokens[i]] && ShiftCode(0, false, true) < U32
    ensures EntryWords(Stays(c, tokens[..i + 1]))
         == EntryWords(Stays(c, tokens[..i])) + [c.g.outputId(tokens[i])] + PairWords(ShiftCode(0, false, true))
  {
    assert tokens[i] in tokens;
    var e := Entry(c.g.outputId(tokens[i]), ShiftCode(0, false, true));
    assert Stays(c, tokens[..i + 1]) == Stays(c, tokens[..i]) + [e];
    EntryWordsAppend(Stays(c, tokens[..i]), e);
  }

  lemma StartsNext(c: Context, stays: seq<Entry>, start: Word, actions: seq<Action>, i: nat)
    requires i < |actions| && SoundEntries(stays) && forall a <- actions :: c.g.outputId(a.term) < END
    ensures ShiftCode(start, true, false) < U32 && actions[i] in actions
    ensures EntryWords(stays + Starts(c, start, actions[..i + 1]))
         == EntryWords(stays + Starts(c, start, actions[..i]))
            + if actions[i].Shift? then [c.g.outputId(actions[i].term)] + PairWords(ShiftCode(start, true, false))
              else []
  {
    hide SoundEntries, EntryWords, ShiftCode;
    ShiftCodeBack(start, true, false);
    var a := actions[i];
    assert a in actions && actions[..i + 1][..i] == actions[..i];
    var e := Entry(c.g.outputId(a.term), ShiftCode(start, true, false));
    var before := stays + Starts(c, start, actions[..i]);
    SoundBoth(stays, Starts(c, start, actions[..i]));
    if a.Shift? {
      assert stays + Starts(c, start, actions[..i + 1]) == before + [e];
      SoundBoth(stays, Starts(c, start, actions[..i + 1]));
      EntryWordsAppend(before, e);
      assert EntryWords(before) + [e.term] + PairWords(e.action) == EntryWords(before) + ([e.term] + PairWords(e.action));
    } else {
      assert stays + Starts(c, start, actions[..i + 1]) == before;
      assert EntryWords(before) + [] == EntryWords(before);
    }
  }

  lemma SoundBoth(a: seq<Entry>, b: seq<Entry>)
    requires SoundEntries(a) && SoundEntries(b)
    ensures SoundEntries(a + b)
  {}

  method EncodeSkip(c: Context, states: seq<StateInput>, info: SkipInfo) returns (words: seq<Word>)
    requires GoodStates(c, states) && GoodSkip(c, states, info)
    ensures words == RowWords(SkipEntries(c, states, info), Done)
  {
    hide GoodStates, EntryWords, SoundEntries, PairWords, ShiftCode, Stays, Starts;
    ShiftCodeBack(0, false, true);
    words := [];
    var i := 0;
    NoSkips(c);
    while i < |info.tokens|
      invariant 0 <= i <= |info.tokens|
      invariant words == EntryWords(Stays(c, info.tokens[..i]))
    {
      StaysNext(c, info.tokens, i);
      words := words + [c.g.outputId(info.tokens[i])] + PairWords(ShiftCode(0, false, true));
      i := i + 1;
    }
    assert info.tokens[..i] == info.tokens;
    ghost var stays := Stays(c, info.tokens);
    if info.rule.Some? {
      var start := StartState(states, info.rule.value);
      var actions := states[start].actions;
      ActionsKnown(c, states, start);
      ShiftCodeBack(start, true, false);
      i := 0;
      NoStarts(c, stays, start);
      while i < |actions|
        invariant 0 <= i <= |actions|
        invariant SoundEntries(stays + Starts(c, start, actions[..i]))
        invariant words == EntryWords(stays + Starts(c, start, actions[..i]))
      {
        StartsNext(c, stays, start, actions, i);
        SoundBoth(stays, Starts(c, start, actions[..i + 1]));
        if actions[i].Shift? {
          words := words + ([c.g.outputId(actions[i].term)] + PairWords(ShiftCode(start, true, false)));
        }
        i := i + 1;
      }
      assert actions[..i] == actions;
    }
    words := words + ([END] + TailWords(Done));
  }

  lemma NoSkips(c: Context)
    ensures Stays(c, []) == [] && EntryWords([]) == []
  {}

  lemma NoStarts(c: Context, stays: seq<Entry>, start: Word)
    ensures Starts(c, start, []) == [] && stays + [] == stays
  {}

  /** Every skip set has its row, without a fallback. */
  ghost predicate SkipsRead(data: seq<Word>, offsets: seq<nat>, c: Context, states: seq<StateInput>, infos: seq<SkipInfo>)
    requires GoodStates(c, states) && GoodSkips(c, states, infos)
  {
    && |offsets| <= |infos|
    && forall i {:trigger offsets[i]} :: 0 <= i < |offsets| ==>
         infos[i] in infos && ReadRow(data, offsets[i]) == Row(SkipEntries(c, states, infos[i]), Done)
  }

  lemma SkipsReadLater(data: seq<Word>, longer: seq<Word>, offsets: seq<nat>, c: Context, states: seq<StateInput>,
                       infos: seq<SkipInfo>)
    requires data <= longer && GoodStates(c, states) && GoodSkips(c, states, infos)
    requires SkipsRead(data, offsets, c, states, infos)
    ensures SkipsRead(longer, offsets, c, states, infos)
  {
    hide ReadRow, SkipEntries, GoodStates;
    forall i {:trigger offsets[i]} | 0 <= i < |offsets|
      ensures infos[i] in infos && ReadRow(longer, offsets[i]) == Row(SkipEntries(c, states, infos[i]), Done)
    {
      ReadRowLater(data, longer, offsets[i]);
    }
  }

  /** Stores the rows of all skip sets; they stay readable while the data grows. */
  method BuildSkipData(c: Context, states: seq<StateInput>, infos: seq<SkipInfo>, builder: DataBuilder)
    returns (ok: bool, offsets: seq<nat>)
    requires GoodStates(c, states) && GoodSkips(c, states, infos) && |builder.data| <= TABLE_LIMIT
    modifies builder
    ensures old(builder.data) <= builder.data
    ensures ok ==> |offsets| == |infos| && SkipsRead(builder.data, offsets, c, states, infos)
    ensures ok <==> |builder.data| <= TABLE_LIMIT
  {
    hide GoodStates, GoodSkip, SkipEntries, RowWords, OccursAt, ReadRow;
    offsets := [];
    var i: nat := 0;
    while i < |infos|
      invariant i <= |infos| && |offsets| == i
      invariant old(builder.data) <= builder.data && |builder.data| <= TABLE_LIMIT
      invariant SkipsRead(builder.data, offsets, c, states, infos)
    {
      ghost var before := builder.data;
      assert infos[i] in infos;
      var words := EncodeSkip(c, states, infos[i]);
      var offset := builder.StoreArray(words);
      if offset.None? {
        return false, [];
      }
      RowReadBack(builder.data, offset.value, SkipEntries(c, states, infos[i]), Done);
      SkipsReadLater(before, builder.data, offsets, c, states, infos);
      offsets := offsets + [offset.value];
      i := i + 1;
    }
    ok := true;
  }
}
