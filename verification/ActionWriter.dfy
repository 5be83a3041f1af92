/** Writing the action rows of an automaton's states, with rows shared between
    states and arrays shared anywhere in the data. */
module ActionWriter {
  import opened Options
  import opened Varint
  import opened Automaton
  import opened GotoTable
  import opened ActionData

  const MIN_SHARED_ACTIONS: nat := 5
  const REDUCE_FLAG: nat := 0x1_0000
  const REPEAT_OR_GOTO_FLAG: nat := 0x2_0000
  const STAY_FLAG: nat := 0x4_0000
  const DEPTH_UNIT: nat := 0x8_0000
  const DEPTH_LIMIT: nat := 0x2000

  // ---- action codes -------------------------------------------------------

  function Flag(on: bool, bit: nat): nat { if on then bit else 0 }

  /** Depths are shifted into the top 13 bits; higher bits are lost. */
  function ReduceCode(term: Word, depth: nat, repeats: bool, stays: bool): nat {
    REDUCE_FLAG + term + Flag(repeats, REPEAT_OR_GOTO_FLAG) + Flag(stays, STAY_FLAG)
    + depth % DEPTH_LIMIT * DEPTH_UNIT
  }

  function ShiftCode(state: Word, goto: bool, stays: bool): nat {
    state + Flag(goto, REPEAT_OR_GOTO_FLAG) + Flag(stays, STAY_FLAG)
  }

  predicate HasFlag(action: nat, bit: nat)
    requires bit > 0
  {
    action / bit % 2 == 1
  }

  function Value(action: nat): Word { action % 0x1_0000 }

  function ReductionDepth(action: nat): nat { action / DEPTH_UNIT }

  lemma Larger(a: nat, c: nat, unit: nat)
    requires a > c
    ensures a * unit >= c * unit + unit
  {
    var k := a - c - 1;
    assert a * unit == (c + 1 + k) * unit == c * unit + unit + k * unit;
  }

  lemma Quotient(value: nat, unit: nat, quotient: nat, rest: nat)
    requires value == quotient * unit + rest && rest < unit
    ensures value / unit == quotient && value % unit == rest
  {
    var a, b := value / unit, value % unit;
    assert a * unit + b == value;
    if a > quotient {
      Larger(a, quotient, unit);
    } else if a < quotient {
      Larger(quotient, a, unit);
    }
  }

  /** A flag is the lowest bit of what stands above the rest. */
  lemma FlagRead(action: nat, bit: nat, above: nat, on: bool, rest: nat)
    requires rest < bit && action == (2 * above + Flag(on, 1)) * bit + rest
    ensures HasFlag(action, bit) == on
  {
    Quotient(action, bit, 2 * above + Flag(on, 1), rest);
  }

  /** Every field of a reduction reads back, the depth below 8192 exactly. */
  lemma ReduceCodeBack(term: Word, depth: nat, repeats: bool, stays: bool)
    ensures var action := ReduceCode(term, depth, repeats, stays);
            && 0 < action < U32
            && HasFlag(action, REDUCE_FLAG)
            && Value(action) == term
            && HasFlag(action, REPEAT_OR_GOTO_FLAG) == repeats
            && HasFlag(action, STAY_FLAG) == stays
            && (ReductionDepth(action) == depth <==> depth < DEPTH_LIMIT)
  {
    hide HasFlag;
    var d := depth % DEPTH_LIMIT;
    var action := ReduceCode(term, depth, repeats, stays);
    var low := term + REDUCE_FLAG;
    var goto := Flag(repeats, REPEAT_OR_GOTO_FLAG);
    FlagRead(action, STAY_FLAG, d, stays, low + goto);
    FlagRead(action, REPEAT_OR_GOTO_FLAG, 2 * d + Flag(stays, 1), repeats, low);
    FlagRead(action, REDUCE_FLAG, 4 * d + Flag(stays, 2) + Flag(repeats, 1), true, term);
    Quotient(action, REDUCE_FLAG, 8 * d + Flag(stays, 4) + Flag(repeats, 2) + 1, term);
    Quotient(action, DEPTH_UNIT, d, low + goto + Flag(stays, STAY_FLAG));
  }

  lemma ShiftCodeBack(state: Word, goto: bool, stays: bool)
    ensures var action := ShiftCode(state, goto, stays);
            && action < U32
            && !HasFlag(action, REDUCE_FLAG)
            && Value(action) == state
            && HasFlag(action, REPEAT_OR_GOTO_FLAG) == goto
            && HasFlag(action, STAY_FLAG) == stays
            && (action == 0 <==> state == 0 && !goto && !stays)
  {
    var action := ShiftCode(state, goto, stays);
    assert action / STAY_FLAG == Flag(stays, 1);
    assert action / REPEAT_OR_GOTO_FLAG == Flag(stays, 2) + Flag(goto, 1);
  }

  // ---- encoding actions ---------------------------------------------------

  /** The grammar with the rules of skip expressions, whose reductions stay. */
  datatype Context = Context(g: Grammar, skipRules: set<nat>, eof: nat)

  /** The generated ids of the action's term and rule fit their fields. */
  ghost predicate Known(c: Context, a: Action) {
    c.g.outputId(a.term) < END && (a.Reduce? ==> KnownRule(c, a.rule))
  }

  ghost predicate KnownRule(c: Context, rule: nat) {
    rule < |c.g.rules| && c.g.outputId(c.g.rules[rule].name) < END
  }

  function ReduceAction(c: Context, rule: nat): nat
    requires KnownRule(c, rule)
  {
    var r := c.g.rules[rule];
    ReduceCode(c.g.outputId(r.name), |r.parts|, IsRepeatWrap(c.g, r), r.name in c.skipRules)
  }

  /** A shift to a state whose number does not fit is refused. */
  predicate Codable(a: Action) {
    a.Shift? ==> a.target < 0x1_0000
  }

  function Code(c: Context, a: Action): Entry
    requires Known(c, a) && Codable(a)
  {
    match a
    case Shift(term, target) => Entry(c.g.outputId(term), ShiftCode(target, false, false))
    case Reduce(term, rule) => Entry(c.g.outputId(term), ReduceAction(c, rule))
  }

  /** No action shifts to state zero, whose code would be the missing action. */
  ghost predicate Writable(c: Context, actions: seq<Action>) {
    forall a <- actions :: Known(c, a) && (a.Shift? ==> a.target > 0)
  }

  predicate AllCodable(actions: seq<Action>) {
    forall a <- actions :: Codable(a)
  }

  function Encoded(c: Context, actions: seq<Action>): (entries: seq<Entry>)
    requires Writable(c, actions) && AllCodable(actions)
    ensures |entries| == |actions| && SoundEntries(entries)
  {
    if actions == [] then []
    else
      var a := actions[|actions| - 1];
      assert a in actions;
      CodeSound(c, a);
      Encoded(c, actions[..|actions| - 1]) + [Code(c, a)]
  }

  lemma CodeSound(c: Context, a: Action)
    requires Known(c, a) && Codable(a) && (a.Shift? ==> a.target > 0)
    ensures Code(c, a).term != END && 0 < Code(c, a).action < U32
  {
    match a
    case Shift(_, target) => ShiftCodeBack(target, false, false);
    case Reduce(_, rule) =>
      var r := c.g.rules[rule];
      ReduceCodeBack(c.g.outputId(r.name), |r.parts|, IsRepeatWrap(c.g, r), r.name in c.skipRules);
  }

  /** What the parser does on a code, in terms of the grammar: shift to a state,
      or reduce as many states as the rule has parts to the rule's nonterminal. */
  ghost predicate Performs(c: Context, a: Action, code: nat) {
    match a
    case Shift(_, target) =>
      && !HasFlag(code, REDUCE_FLAG) && !HasFlag(code, REPEAT_OR_GOTO_FLAG) && !HasFlag(code, STAY_FLAG)
      && Value(code) == target
    case Reduce(_, rule) => PerformsReduce(c, rule, code)
  }

  ghost predicate PerformsReduce(c: Context, rule: nat, code: nat) {
    && rule < |c.g.rules|
    && var name, parts := c.g.rules[rule].name, c.g.rules[rule].parts;
       && HasFlag(code, REDUCE_FLAG)
       && Value(code) == c.g.outputId(name)
       && (ReductionDepth(code) == |parts| <==> |parts| < DEPTH_LIMIT)
       && (HasFlag(code, REPEAT_OR_GOTO_FLAG) <==> name in c.g.repeated && |parts| == 2 && parts[0] == name)
       && (HasFlag(code, STAY_FLAG) <==> name in c.skipRules)
  }

  lemma ReductionPerforms(c: Context, rule: nat)
    requires KnownRule(c, rule)
    ensures PerformsReduce(c, rule, ReduceAction(c, rule))
  {
    hide HasFlag, ReduceCode, Value, ReductionDepth;
    var r := c.g.rules[rule];
    ReduceCodeBack(c.g.outputId(r.name), |r.parts|, IsRepeatWrap(c.g, r), r.name in c.skipRules);
  }

  /** The code of an action is filed under the action's term and performs it. */
  lemma CodePerforms(c: Context, a: Action)
    requires Known(c, a) && Codable(a)
    ensures Code(c, a).term == c.g.outputId(a.term) && Performs(c, a, Code(c, a).action)
  {
    hide HasFlag, ReduceAction, PerformsReduce, ShiftCode, Value;
    match a
    case Shift(_, target) => ShiftCodeBack(target, false, false);
    case Reduce(_, rule) => ReductionPerforms(c, rule);
  }

  /** Entry by entry, the codes perform the actions. */
  ghost predicate EachPerformed(c: Context, actions: seq<Action>, entries: seq<Entry>) {
    && |entries| == |actions|
    && forall i :: 0 <= i < |actions| ==>
         entries[i].term == c.g.outputId(actions[i].term) && Performs(c, actions[i], entries[i].action)
  }

  lemma {:induction false} EncodedPerform(c: Context, actions: seq<Action>)
    requires Writable(c, actions) && AllCodable(actions)
    ensures EachPerformed(c, actions, Encoded(c, actions))
    decreases |actions|
  {
    hide Performs, Code, Known, Codable, EachPerformed;
    if actions == [] {
      assert EachPerformed(c, [], []) by { NonePerformed(c); }
    } else {
      var front, a := actions[..|actions| - 1], actions[|actions| - 1];
      assert a in actions;
      assert forall b <- front :: b in actions;
      EncodedPerform(c, front);
      CodePerforms(c, a);
      OneMorePerformed(c, front, Encoded(c, front), a, Code(c, a));
      assert actions == front + [a];
    }
  }

  lemma NonePerformed(c: Context)
    ensures EachPerformed(c, [], [])
  {}

  lemma OneMorePerformed(c: Context, actions: seq<Action>, entries: seq<Entry>, a: Action, e: Entry)
    requires EachPerformed(c, actions, entries) && e.term == c.g.outputId(a.term) && Performs(c, a, e.action)
    ensures EachPerformed(c, actions + [a], entries + [e])
  {
    hide Performs;
  }

  /** Two rules are taken for the same reduction exactly when the parser cannot
      tell them apart: their codes are equal. */
  lemma SameReduceIffSameCode(c: Context, a: nat, b: nat)
    requires KnownRule(c, a) && KnownRule(c, b)
    requires forall x, y | c.g.outputId(x) == c.g.outputId(y) :: x == y
    requires |c.g.rules[a].parts| < DEPTH_LIMIT && |c.g.rules[b].parts| < DEPTH_LIMIT
    ensures SameReduce(c.g, a, b) <==> ReduceAction(c, a) == ReduceAction(c, b)
  {
    hide HasFlag, ReduceCode, Value, ReductionDepth;
    ReductionPerforms(c, a);
    ReductionPerforms(c, b);
  }

  /** Equal reductions have equal codes whatever the lengths of their rules. */
  lemma SameReduceSameCode(c: Context, a: nat, b: nat)
    requires KnownRule(c, a) && KnownRule(c, b) && SameReduce(c.g, a, b)
    ensures ReduceAction(c, a) == ReduceAction(c, b)
  {
    hide ReduceCode;
  }

  predicate Distinct(actions: seq<Action>) {
    forall i, j :: 0 <= i < j < |actions| ==> actions[i] != actions[j]
  }

  // ---- storing actions ----------------------------------------------------

  datatype Shared = Shared(actions: seq<Action>, address: nat)

  /** A row of plain actions in the data. */
  ghost predicate RowStored(data: seq<Word>, offset: nat, c: Context, actions: seq<Action>, tail: Tail) {
    && Writable(c, actions) && AllCodable(actions) && SoundTail(tail)
    && OccursAt(data, offset, RowWords(Encoded(c, actions), tail))
  }

  ghost predicate SharedStored(data: seq<Word>, c: Context, shared: Shared) {
    && Distinct(shared.actions) && |shared.actions| >= MIN_SHARED_ACTIONS
    && RowStored(data, shared.address, c, shared.actions, Done)
  }

  /** The actions a state still writes itself: not those of the shared row, nor
      the reduction that its fallback performs. */
  predicate Keeps(c: Context, a: Action, skipReduce: Option<nat>, shared: Option<Shared>)
    requires Known(c, a) && Codable(a)
  {
    && (shared.Some? ==> a !in shared.value.actions)
    && Some(Code(c, a).action) != skipReduce
  }

  function Kept(c: Context, actions: seq<Action>, skipReduce: Option<nat>, shared: Option<Shared>): (kept: seq<Action>)
    requires Writable(c, actions) && AllCodable(actions)
    ensures forall a :: a in kept <==> a in actions && Keeps(c, a, skipReduce, shared)
  {
    if actions == [] then []
    else
      var a := actions[|actions| - 1];
      assert actions == actions[..|actions| - 1] + [a];
      Kept(c, actions[..|actions| - 1], skipReduce, shared)
        + if Keeps(c, a, skipReduce, shared) then [a] else []
  }

  function OwnTail(skipReduce: Option<nat>, shared: Option<Shared>): Tail {
    if skipReduce.Some? then Other(skipReduce.value)
    else if shared.Some? then Next(shared.value.address)
    else Done
  }

  /** Where the actions of a state are: in the shared row alone, or in a row of
      its own that leads on. */
  ghost predicate ActionsStored(data: seq<Word>, offset: nat, c: Context, actions: seq<Action>,
                                skipReduce: Option<nat>, shared: Option<Shared>) {
    if skipReduce.None? && shared.Some? && |shared.value.actions| == |actions| then
      offset == shared.value.address
    else
      && Writable(c, actions) && AllCodable(actions)
      && RowStored(data, offset, c, Kept(c, actions, skipReduce, shared), OwnTail(skipReduce, shared))
  }

  method EncodeActions(c: Context, actions: seq<Action>, skipReduce: Option<nat>, shared: Option<Shared>)
    returns (ok: bool, words: seq<Word>)
    requires Writable(c, actions)
    ensures ok == AllCodable(actions)
    ensures ok ==> Writable(c, Kept(c, actions, skipReduce, shared))
    ensures ok ==> AllCodable(Kept(c, actions, skipReduce, shared))
    ensures ok ==> words == EntryWords(Encoded(c, Kept(c, actions, skipReduce, shared)))
    ensures ok ==> EachPerformed(c, Kept(c, actions, skipReduce, shared),
                                 Encoded(c, Kept(c, actions, skipReduce, shared)))
  {
    hide Known, Code, ReduceAction, Kept, Encoded, EntryWords, Writable;
    words := [];
    NothingKept(c, skipReduce, shared);
    var i := 0;
    while i < |actions|
      invariant i <= |actions| && AllCodable(actions[..i]) && Writable(c, actions[..i])
      invariant Writable(c, Kept(c, actions[..i], skipReduce, shared))
      invariant AllCodable(Kept(c, actions[..i], skipReduce, shared))
      invariant words == EntryWords(Encoded(c, Kept(c, actions[..i], skipReduce, shared)))
    {
      var a := actions[i];
      if a.Shift? && a.target > 0xFFFF {
        assert a in actions && !Codable(a);
        return false, [];
      }
      assert actions[..i + 1] == actions[..i] + [a];
      WritablePrefix(c, actions, i);
      KeptNext(c, actions[..i], a, skipReduce, shared);
      if !(shared.Some? && a in shared.value.actions) {
        var code := Code(c, a);
        if Some(code.action) != skipReduce {
          words := words + [code.term] + PairWords(code.action);
        }
      }
      i := i + 1;
    }
    assert actions[..i] == actions;
    EncodedPerform(c, Kept(c, actions, skipReduce, shared));
    ok := true;
  }

  lemma NothingKept(c: Context, skipReduce: Option<nat>, shared: Option<Shared>)
    ensures Writable(c, []) && Kept(c, [], skipReduce, shared) == []
    ensures EntryWords(Encoded(c, [])) == []
  {}

  lemma WritablePrefix(c: Context, actions: seq<Action>, i: nat)
    requires Writable(c, actions) && i < |actions|
    ensures Writable(c, actions[..i] + [actions[i]]) && Known(c, actions[i])
  {
    hide Known;
    assert actions[i] in actions;
    assert forall b :: b in actions[..i] + [actions[i]] ==> b in actions;
  }

  lemma {:induction false} EntryWordsAppend(entries: seq<Entry>, e: Entry)
    requires SoundEntries(entries + [e])
    ensures SoundEntries(entries) && e.action < U32
    ensures EntryWords(entries + [e]) == EntryWords(entries) + [e.term] + PairWords(e.action)
    decreases |entries|
  {
    var all := entries + [e];
    assert e in all;
    assert forall f :: f in entries ==> f in all;
    if entries == [] {
      assert all == [e];
      assert EntryWords(all[1..]) == [];
    } else {
      assert all[1..] == entries[1..] + [e];
      assert forall f :: f in all[1..] ==> f in all;
      EntryWordsAppend(entries[1..], e);
    }
  }

  lemma KeptNext(c: Context, actions: seq<Action>, a: Action, skipReduce: Option<nat>, shared: Option<Shared>)
    requires Writable(c, actions + [a]) && AllCodable(actions) && Codable(a)
    ensures AllCodable(actions + [a]) && Writable(c, actions)
    ensures var next := Kept(c, actions + [a], skipReduce, shared);
            var before := Kept(c, actions, skipReduce, shared);
            var code := (assert a in actions + [a]; Code(c, a));
            && Writable(c, next) && AllCodable(next) && Writable(c, before) && AllCodable(before)
            && (!Keeps(c, a, skipReduce, shared) ==> next == before)
            && (Keeps(c, a, skipReduce, shared) ==>
                  code.action < U32 &&
                  EntryWords(Encoded(c, next))
                  == EntryWords(Encoded(c, before)) + [code.term] + PairWords(code.action))
  {
    hide Known, Codable, Code;
    var all := actions + [a];
    assert a in all;
    assert all[..|actions|] == actions;
    assert forall b :: b in actions ==> b in all;
    var next, before := Kept(c, all, skipReduce, shared), Kept(c, actions, skipReduce, shared);
    if Keeps(c, a, skipReduce, shared) {
      assert next[..|before|] == before;
      assert Encoded(c, next) == Encoded(c, before) + [Code(c, a)];
      EntryWordsAppend(Encoded(c, before), Code(c, a));
    }
  }

  method StoreActions(c: Context, actions: seq<Action>, skipReduce: Option<nat>, shared: Option<Shared>,
                      builder: DataBuilder)
    returns (position: Option<nat>)
    requires Writable(c, actions)
    requires skipReduce.Some? ==> 0 < skipReduce.value < U32
    requires shared.Some? ==> shared.value.address < U32
    modifies builder
    ensures old(builder.data) <= builder.data
    ensures position.Some? ==> ActionsStored(builder.data, position.value, c, actions, skipReduce, shared)
    ensures position.Some? ==> |builder.data| <= TABLE_LIMIT || builder.data == old(builder.data)
    ensures position.None? ==> !AllCodable(actions) || |builder.data| > TABLE_LIMIT
  {
    hide Writable, AllCodable, Kept, Encoded, EntryWords, OccursAt;
    if skipReduce.None? && shared.Some? && |shared.value.actions| == |actions| {
      return Some(shared.value.address);
    }
    var ok, words := EncodeActions(c, actions, skipReduce, shared);
    if !ok {
      return None;
    }
    var tail := OwnTail(skipReduce, shared);
    words := words + ([END] + TailWords(tail));
    position := builder.StoreArray(words);
  }

  // ---- arrangements -------------------------------------------------------

  lemma {:induction false} DistinctCount(actions: seq<Action>, a: Action)
    requires Distinct(actions)
    ensures multiset(actions)[a] == if a in actions then 1 else 0
    decreases |actions|
  {
    if |actions| > 0 {
      var front, last := actions[..|actions| - 1], actions[|actions| - 1];
      DistinctCount(front, a);
      assert actions == front + [last];
    }
  }

  lemma {:induction false} KeptDistinct(c: Context, actions: seq<Action>, skipReduce: Option<nat>, shared: Option<Shared>)
    requires Writable(c, actions) && AllCodable(actions) && Distinct(actions)
    ensures Distinct(Kept(c, actions, skipReduce, shared))
    decreases |actions|
  {
    hide Keeps, Known, Codable;
    if |actions| > 0 {
      var front, last := actions[..|actions| - 1], actions[|actions| - 1];
      assert actions == front + [last];
      KeptDistinct(c, front, skipReduce, shared);
      assert last !in front;
    }
  }

  function SharedActions(shared: Option<Shared>): seq<Action> {
    if shared.Some? then shared.value.actions else []
  }

  ghost predicate Fits(shared: Option<Shared>, actions: seq<Action>) {
    Distinct(SharedActions(shared)) && forall a <- SharedActions(shared) :: a in actions
  }

  /** Own and shared actions together are the state's actions, each once. */
  lemma Rearranged(c: Context, actions: seq<Action>, shared: Option<Shared>)
    requires Writable(c, actions) && AllCodable(actions) && Distinct(actions) && Fits(shared, actions)
    ensures multiset(Kept(c, actions, None, shared) + SharedActions(shared)) == multiset(actions)
  {
    hide Known, Codable;
    var kept, rest := Kept(c, actions, None, shared), SharedActions(shared);
    KeptDistinct(c, actions, None, shared);
    forall a: Action ensures multiset(kept + rest)[a] == multiset(actions)[a] {
      DistinctCount(kept, a);
      DistinctCount(rest, a);
      DistinctCount(actions, a);
      if a in actions { KeepsUnlessShared(c, actions, a, shared); }
    }
  }

  lemma KeepsUnlessShared(c: Context, actions: seq<Action>, a: Action, shared: Option<Shared>)
    requires Writable(c, actions) && AllCodable(actions) && a in actions
    ensures Known(c, a) && Codable(a)
    ensures Keeps(c, a, None, shared) <==> a !in SharedActions(shared)
  {
    hide Known, Codable;
  }

  /** A shared row that fits a state and is as long as its actions is all of
      them. */
  lemma WholeShared(actions: seq<Action>, shared: Option<Shared>)
    requires Distinct(actions) && Fits(shared, actions) && |SharedActions(shared)| == |actions|
    ensures multiset(SharedActions(shared)) == multiset(actions)
    ensures forall a :: a in actions ==> a in SharedActions(shared)
  {
    var rest := SharedActions(shared);
    var all, part := multiset(actions), multiset(rest);
    forall a: Action ensures part[a] <= all[a] {
      DistinctCount(actions, a);
      DistinctCount(rest, a);
    }
    assert part <= all;
    assert all == part + (all - part);
    assert |all - part| == 0;
    forall a | a in actions ensures a in rest {
      assert a in all && a in part;
    }
  }

  // ---- reading back -------------------------------------------------------

  /** What a state's row means to a reader: each of its actions once, apart from
      the fallback reduction, and that fallback for every other term. */
  ghost predicate StateRow(data: seq<Word>, offset: nat, c: Context, actions: seq<Action>, skipReduce: Option<nat>) {
    && Writable(c, actions) && AllCodable(actions)
    && Ends(data, offset, 1) && FullContinuations(data, offset, 1)
    && ChainFallback(data, offset, 1) == (if skipReduce.Some? then skipReduce.value else 0)
    && exists order: seq<Action> ::
         && multiset(order) == multiset(Kept(c, actions, skipReduce, None))
         && Writable(c, order) && AllCodable(order)
         && ChainEntries(data, offset, 1) == Encoded(c, order)
  }

  ghost predicate Files(c: Context, a: Action, e: Entry) {
    e.term == c.g.outputId(a.term) && Performs(c, a, e.action)
  }

  /** What the parser finds from a row on: entries that perform actions on their
      terms, and each action of the state in an entry or as the fallback. */
  ghost predicate RowActs(data: seq<Word>, offset: nat, c: Context, actions: seq<Action>) {
    && Ends(data, offset, 1)
    && (forall e <- ChainEntries(data, offset, 1) :: exists a <- actions :: Files(c, a, e))
    && (forall a <- actions ::
          || (exists e <- ChainEntries(data, offset, 1) :: Files(c, a, e))
          || (ChainFallback(data, offset, 1) != 0 && Performs(c, a, ChainFallback(data, offset, 1))))
  }

  lemma StateRowActs(data: seq<Word>, offset: nat, c: Context, actions: seq<Action>, skipReduce: Option<nat>)
    requires StateRow(data, offset, c, actions, skipReduce) && skipReduce != Some(0)
    ensures RowActs(data, offset, c, actions)
  {
    hide Performs, Files, ChainEntries, ChainFallback, Ends, EachPerformed, StateRow, Writable, AllCodable;
    var order := RowOrder(data, offset, c, actions, skipReduce);
    RowEnding(data, offset, c, actions, skipReduce);
    AllPerformed(c, order, ChainEntries(data, offset, 1));
  }

  lemma RowEnding(data: seq<Word>, offset: nat, c: Context, actions: seq<Action>, skipReduce: Option<nat>)
    requires StateRow(data, offset, c, actions, skipReduce)
    ensures Ends(data, offset, 1)
    ensures ChainFallback(data, offset, 1) == (if skipReduce.Some? then skipReduce.value else 0)
  {}

  /** The actions on the chain of a state's row, in their order there. */
  lemma RowOrder(data: seq<Word>, offset: nat, c: Context, actions: seq<Action>, skipReduce: Option<nat>)
    returns (order: seq<Action>)
    requires StateRow(data, offset, c, actions, skipReduce)
    ensures Ends(data, offset, 1) && EachPerformed(c, order, ChainEntries(data, offset, 1))
    ensures forall a <- order :: a in actions
    ensures forall a <- actions :: a in order || (skipReduce.Some? && Performs(c, a, skipReduce.value))
  {
    hide Writable, AllCodable, Kept, Encoded, Ends, FullContinuations, ChainEntries, ChainFallback, Performs, EachPerformed;
    var kept := Kept(c, actions, skipReduce, None);
    order :| multiset(order) == multiset(kept) && Writable(c, order) && AllCodable(order)
             && ChainEntries(data, offset, 1) == Encoded(c, order);
    EncodedPerform(c, order);
    SameMembers(order, kept);
    KeptOrFallback(c, actions, skipReduce);
  }

  lemma AllPerformed(c: Context, actions: seq<Action>, entries: seq<Entry>)
    requires EachPerformed(c, actions, entries)
    ensures forall e <- entries :: exists a <- actions :: Files(c, a, e)
    ensures forall a <- actions :: exists e <- entries :: Files(c, a, e)
  {
    hide EachPerformed, Files;
    forall e <- entries ensures exists a <- actions :: Files(c, a, e) {
      PerformedBy(c, actions, entries, e);
    }
    forall a <- actions ensures exists e <- entries :: Files(c, a, e) {
      PerformedIn(c, actions, entries, a);
    }
  }

  lemma SameMembers<T>(a: seq<T>, b: seq<T>)
    requires multiset(a) == multiset(b)
    ensures forall x :: x in a <==> x in b
  {
    forall x ensures x in a <==> x in b {
      assert x in a <==> x in multiset(a);
      assert x in b <==> x in multiset(b);
    }
  }

  lemma PerformedBy(c: Context, actions: seq<Action>, entries: seq<Entry>, e: Entry)
    requires EachPerformed(c, actions, entries) && e in entries
    ensures exists a <- actions :: Files(c, a, e)
  {
    hide Performs;
    var i :| 0 <= i < |entries| && entries[i] == e;
    assert Files(c, actions[i], e);
  }

  lemma PerformedIn(c: Context, actions: seq<Action>, entries: seq<Entry>, a: Action)
    requires EachPerformed(c, actions, entries) && a in actions
    ensures exists e <- entries :: Files(c, a, e)
  {
    hide Performs;
    var i :| 0 <= i < |actions| && actions[i] == a;
    assert Files(c, a, entries[i]);
  }

  /** An action that is not kept is what the fallback does. */
  lemma KeptOrFallback(c: Context, actions: seq<Action>, skipReduce: Option<nat>)
    requires Writable(c, actions) && AllCodable(actions)
    ensures forall a <- actions ::
              a in Kept(c, actions, skipReduce, None) || (skipReduce.Some? && Performs(c, a, skipReduce.value))
    ensures forall a <- Kept(c, actions, skipReduce, None) :: a in actions
  {
    hide Performs, Known, Codable, Code;
    forall a <- actions ensures Performs(c, a, Code(c, a).action) {
      CodePerforms(c, a);
    }
  }

  lemma {:induction false} EncodedConcat(c: Context, a: seq<Action>, b: seq<Action>)
    requires Writable(c, a) && AllCodable(a) && Writable(c, b) && AllCodable(b)
    ensures Writable(c, a + b) && AllCodable(a + b)
    ensures Encoded(c, a + b) == Encoded(c, a) + Encoded(c, b)
    decreases |b|
  {
    hide Known, Codable, Code;
    assert forall x :: x in a + b ==> x in a || x in b;
    if b == [] {
      assert a + b == a;
    } else {
      var n := |b| - 1;
      assert (a + b)[..|a + b| - 1] == a + b[..n];
      EncodedConcat(c, a, b[..n]);
    }
  }

  lemma RowChain(data: seq<Word>, offset: nat, c: Context, actions: seq<Action>, tail: Tail)
    requires RowStored(data, offset, c, actions, tail)
    ensures Writable(c, actions) && AllCodable(actions)
    ensures ReadRow(data, offset) == Row(Encoded(c, actions), tail)
  {
    RowReadBack(data, offset, Encoded(c, actions), tail);
  }

  /** A row that stands alone. */
  lemma LoneRow(data: seq<Word>, offset: nat, c: Context, actions: seq<Action>, tail: Tail, fuel: nat)
    requires RowStored(data, offset, c, actions, tail) && !tail.Next?
    ensures Ends(data, offset, fuel) && FullContinuations(data, offset, fuel)
    ensures ChainEntries(data, offset, fuel) == Encoded(c, actions)
    ensures ChainFallback(data, offset, fuel) == if tail.Other? then tail.action else 0
  {
    hide RowStored, Encoded;
    RowChain(data, offset, c, actions, tail);
    assert Encoded(c, actions) + [] == Encoded(c, actions);
  }

  /** A row of its own leading to a shared one. */
  lemma SharedRow(data: seq<Word>, offset: nat, c: Context, own: seq<Action>, shared: Shared)
    requires RowStored(data, offset, c, own, Next(shared.address)) && SharedStored(data, c, shared)
    ensures Ends(data, offset, 1) && FullContinuations(data, offset, 1)
    ensures Writable(c, own + shared.actions) && AllCodable(own + shared.actions)
    ensures ChainEntries(data, offset, 1) == Encoded(c, own + shared.actions)
    ensures ChainFallback(data, offset, 1) == 0
  {
    hide Encoded, Writable, AllCodable, OccursAt;
    RowChain(data, offset, c, own, Next(shared.address));
    RowChain(data, shared.address, c, shared.actions, Done);
    LoneRow(data, shared.address, c, shared.actions, Done, 0);
    EncodedConcat(c, own, shared.actions);
  }

  lemma KeptAll(c: Context, actions: seq<Action>)
    requires Writable(c, actions) && AllCodable(actions)
    ensures Kept(c, actions, None, None) == actions
    decreases |actions|
  {
    hide Known, Codable;
    if |actions| > 0 {
      assert actions == actions[..|actions| - 1] + [actions[|actions| - 1]];
      KeptAll(c, actions[..|actions| - 1]);
    }
  }

  /** However a state's actions were stored, its row means the same. */
  lemma StateReadBack(data: seq<Word>, offset: nat, c: Context, actions: seq<Action>,
                      skipReduce: Option<nat>, shared: Option<Shared>)
    requires ActionsStored(data, offset, c, actions, skipReduce, shared)
    requires Writable(c, actions) && AllCodable(actions) && Distinct(actions)
    requires shared.Some? ==> skipReduce.None? && SharedStored(data, c, shared.value) && Fits(shared, actions)
    ensures StateRow(data, offset, c, actions, skipReduce)
  {
    hide Writable, AllCodable, Kept, Encoded, RowStored, Fits, Distinct, Ends, FullContinuations,
      ChainEntries, ChainFallback;
    if shared.None? {
      LoneRow(data, offset, c, Kept(c, actions, skipReduce, None), OwnTail(skipReduce, None), 1);
      LoneKept(data, offset, c, actions, skipReduce);
    } else {
      KeptAll(c, actions);
      if |shared.value.actions| == |actions| {
        WholeShared(actions, shared);
        LoneRow(data, offset, c, shared.value.actions, Done, 1);
        SharedWritable(data, c, shared.value);
      } else {
        Rearranged(c, actions, shared);
        SharedRow(data, offset, c, Kept(c, actions, None, shared), shared.value);
      }
    }
  }

  lemma SharedWritable(data: seq<Word>, c: Context, shared: Shared)
    requires SharedStored(data, c, shared)
    ensures Writable(c, shared.actions) && AllCodable(shared.actions)
  {}

  lemma LoneKept(data: seq<Word>, offset: nat, c: Context, actions: seq<Action>, skipReduce: Option<nat>)
    requires Writable(c, actions) && AllCodable(actions)
    ensures Writable(c, Kept(c, actions, skipReduce, None)) && AllCodable(Kept(c, actions, skipReduce, None))
  {
    hide Known, Codable, Keeps;
  }

  // ---- sharing rows -------------------------------------------------------

  lemma RowStoredLater(data: seq<Word>, longer: seq<Word>, offset: nat, c: Context, actions: seq<Action>, tail: Tail)
    requires data <= longer && RowStored(data, offset, c, actions, tail)
    ensures RowStored(longer, offset, c, actions, tail)
  {
    hide Writable, AllCodable, Encoded, OccursAt;
    OccursLater(data, longer, offset, RowWords(Encoded(c, actions), tail));
  }

  ghost predicate AllShared(data: seq<Word>, c: Context, rows: seq<Shared>) {
    forall s <- rows :: SharedStored(data, c, s)
  }

  lemma AllSharedLater(data: seq<Word>, longer: seq<Word>, c: Context, rows: seq<Shared>)
    requires data <= longer && AllShared(data, c, rows)
    ensures AllShared(longer, c, rows)
  {
    hide RowStored, Distinct;
    forall s <- rows ensures SharedStored(longer, c, s) {
      RowStoredLater(data, longer, s.address, c, s.actions, Done);
    }
  }

  /** A state as the row writer sees it; `skip` is the number of its skip set. */
  datatype StateInput = StateInput(actions: seq<Action>, defaultReduce: Option<nat>, isSkip: bool,
                                   startRule: Option<nat>, skip: nat)

  predicate Contains(actions: seq<Action>, part: seq<Action>) {
    forall a <- part :: a in actions
  }

  /** The longest shared row that fits. */
  method LongestFit(rows: seq<Shared>, actions: seq<Action>) returns (best: Option<Shared>)
    ensures best.Some? ==> best.value in rows && Contains(actions, best.value.actions)
    ensures forall s <- rows :: Contains(actions, s.actions) ==> best.Some? && |s.actions| <= |best.value.actions|
  {
    hide Contains;
    best := None;
    for k := 0 to |rows|
      invariant best.Some? ==> best.value in rows && Contains(actions, best.value.actions)
      invariant forall s <- rows[..k] ::
                  Contains(actions, s.actions) ==> best.Some? && |s.actions| <= |best.value.actions|
    {
      if Contains(actions, rows[k].actions) {
        if best.None? || |rows[k].actions| >= |best.value.actions| {
          best := Some(rows[k]);
        }
      }
    }
  }

  function Common(actions: seq<Action>, others: seq<Action>): (common: seq<Action>)
    ensures forall a :: a in common <==> a in actions && a in others
  {
    if actions == [] then []
    else
      var last := actions[|actions| - 1];
      assert actions == actions[..|actions| - 1] + [last];
      Common(actions[..|actions| - 1], others) + if last in others then [last] else []
  }

  lemma {:induction false} CommonDistinct(actions: seq<Action>, others: seq<Action>)
    requires Distinct(actions)
    ensures Distinct(Common(actions, others))
    decreases |actions|
  {
    if |actions| > 0 {
      var front, last := actions[..|actions| - 1], actions[|actions| - 1];
      assert actions == front + [last];
      CommonDistinct(front, others);
      assert last !in front;
    }
  }

  /** How many actions the states could share, zero when it is not worth it. */
  function Overlap(states: seq<StateInput>, id: nat, j: nat): nat
    requires id < |states| && j < |states|
  {
    var common := |Common(states[id].actions, states[j].actions)|;
    if states[j].defaultReduce.None? && |states[j].actions| >= MIN_SHARED_ACTIONS && common >= MIN_SHARED_ACTIONS
    then common else 0
  }

  /** The largest overlap with the actions of a later state that also writes
      them out, when it is worth sharing. */
  method LargestOverlap(states: seq<StateInput>, id: nat) returns (best: seq<Action>)
    requires id < |states| && Distinct(states[id].actions)
    ensures Distinct(best) && Contains(states[id].actions, best)
    ensures best != [] ==> |best| >= MIN_SHARED_ACTIONS
    ensures forall j :: id < j < |states| ==> Overlap(states, id, j) <= |best|
  {
    hide Distinct;
    best := [];
    assert Distinct(best) by { NoneDistinct(); }
    for j := id + 1 to |states|
      invariant Distinct(best) && Contains(states[id].actions, best)
      invariant best != [] ==> |best| >= MIN_SHARED_ACTIONS
      invariant forall k :: id < k < j ==> Overlap(states, id, k) <= |best|
    {
      if states[j].defaultReduce.Some? || |states[j].actions| < MIN_SHARED_ACTIONS {
        continue;
      }
      var overlap := Common(states[id].actions, states[j].actions);
      CommonDistinct(states[id].actions, states[j].actions);
      if |overlap| >= MIN_SHARED_ACTIONS && |overlap| > |best| {
        best := overlap;
      }
    }
  }

  lemma NoneDistinct()
    ensures Distinct([])
  {}

  ghost predicate GoodStates(c: Context, states: seq<StateInput>) {
    forall s <- states :: Writable(c, s.actions) && Distinct(s.actions)
  }

  /** Finds, or stores, a row that the state can share. */
  method FindSharedActions(c: Context, states: seq<StateInput>, id: nat, rows: seq<Shared>, builder: DataBuilder)
    returns (ok: bool, shared: Option<Shared>, more: seq<Shared>)
    requires id < |states| && GoodStates(c, states)
    requires AllShared(builder.data, c, rows)
    modifies builder
    ensures old(builder.data) <= builder.data && AllShared(builder.data, c, more)
    ensures ok && shared.Some? ==> shared.value in more && Fits(shared, states[id].actions)
    ensures ok ==> |builder.data| <= TABLE_LIMIT || builder.data == old(builder.data)
    ensures !ok ==> !AllCodable(states[id].actions) || |builder.data| > TABLE_LIMIT
  {
    hide Writable, AllCodable, RowStored, Common, Encoded;
    var actions := states[id].actions;
    assert states[id] in states;
    if |actions| < MIN_SHARED_ACTIONS {
      return true, None, rows;
    }
    var existing := LongestFit(rows, actions);
    if existing.Some? {
      return true, existing, rows;
    }
    var best := LargestOverlap(states, id);
    if best == [] {
      return true, None, rows;
    }
    WritablePart(c, actions, best);
    var address := StoreActions(c, best, None, None, builder);
    AllSharedLater(old(builder.data), builder.data, c, rows);
    if address.None? {
      return false, None, rows;
    }
    KeptStored(c, best);
    var added := Shared(best, address.value);
    return true, Some(added), rows + [added];
  }

  lemma WritablePart(c: Context, actions: seq<Action>, part: seq<Action>)
    requires Writable(c, actions) && Contains(actions, part)
    ensures Writable(c, part) && (AllCodable(actions) ==> AllCodable(part))
  {
    hide Known, Codable;
  }

  lemma KeptStored(c: Context, actions: seq<Action>)
    requires Writable(c, actions)
    ensures AllCodable(actions) ==> Kept(c, actions, None, None) == actions
  {
    if AllCodable(actions) { KeptAll(c, actions); }
  }

  // ---- all states ---------------------------------------------------------

  /** The first reduction on the end of input. */
  function EofReduce(c: Context, actions: seq<Action>): (r: Option<nat>)
    requires Writable(c, actions)
    ensures r.Some? ==> 0 < r.value < U32
  {
    if actions == [] then None
    else
      assert actions[0] in actions;
      if actions[0].Reduce? && actions[0].term == c.eof then
        CodeSound(c, actions[0]);
        Some(ReduceAction(c, actions[0].rule))
      else EofReduce(c, actions[1..])
  }

  /** The fallback performs a reduction of the state on the end of input, and
      there is one whenever the state has such a reduction. */
  lemma {:induction false} EofReducePerforms(c: Context, actions: seq<Action>)
    requires Writable(c, actions)
    ensures EofReduce(c, actions).Some? <==> exists a <- actions :: a.Reduce? && a.term == c.eof
    ensures EofReduce(c, actions).Some? ==>
              exists a <- actions ::
                a.Reduce? && a.term == c.eof && Performs(c, a, EofReduce(c, actions).value)
  {
    hide Performs, ReduceAction;
    if actions != [] {
      assert actions[0] in actions;
      assert forall a :: a in actions <==> a == actions[0] || a in actions[1..];
      if actions[0].Reduce? && actions[0].term == c.eof {
        CodePerforms(c, actions[0]);
      } else {
        EofReducePerforms(c, actions[1..]);
      }
    }
  }

  method FindEofReduce(c: Context, actions: seq<Action>) returns (r: Option<nat>)
    requires Writable(c, actions)
    ensures r == EofReduce(c, actions)
  {
    hide ReduceAction;
    var i := 0;
    while i < |actions|
      invariant i <= |actions|
      invariant Writable(c, actions[i..]) && EofReduce(c, actions) == EofReduce(c, actions[i..])
    {
      assert actions[i] in actions && actions[i..][1..] == actions[i + 1..];
      if actions[i].Reduce? && actions[i].term == c.eof {
        return Some(ReduceAction(c, actions[i].rule));
      }
      i := i + 1;
    }
    return None;
  }

  /** A state inside a skip expression falls back to its reduction at the end of
      input; other states have no fallback. */
  function SkipReduce(c: Context, state: StateInput): (r: Option<nat>)
    requires Writable(c, state.actions)
    ensures r.Some? ==> 0 < r.value < U32
  {
    if state.defaultReduce.None? && state.isSkip then EofReduce(c, state.actions) else None
  }

  /** A state that always reduces needs no actions. */
  function WrittenActions(state: StateInput): seq<Action> {
    if state.defaultReduce.None? then state.actions else []
  }

  ghost predicate StatesRead(data: seq<Word>, offsets: seq<nat>, c: Context, states: seq<StateInput>)
    requires GoodStates(c, states)
  {
    && |offsets| <= |states|
    && forall i {:trigger offsets[i]} :: 0 <= i < |offsets| ==>
         && states[i] in states
         && StateRow(data, offsets[i], c, WrittenActions(states[i]), SkipReduce(c, states[i]))
  }

  lemma StateRowLater(data: seq<Word>, longer: seq<Word>, offset: nat, c: Context, actions: seq<Action>,
                      skipReduce: Option<nat>)
    requires data <= longer && StateRow(data, offset, c, actions, skipReduce)
    ensures StateRow(longer, offset, c, actions, skipReduce)
  {
    hide Writable, AllCodable, Kept, Encoded, Ends, FullContinuations, ChainEntries, ChainFallback;
    ChainLater(data, longer, offset, 1);
  }

  lemma StatesReadLater(data: seq<Word>, longer: seq<Word>, offsets: seq<nat>, c: Context, states: seq<StateInput>)
    requires data <= longer && GoodStates(c, states) && StatesRead(data, offsets, c, states)
    ensures StatesRead(longer, offsets, c, states)
  {
    hide StateRow, SkipReduce;
    forall i {:trigger offsets[i]} | 0 <= i < |offsets|
      ensures states[i] in states && StateRow(longer, offsets[i], c, WrittenActions(states[i]), SkipReduce(c, states[i]))
    {
      StateRowLater(data, longer, offsets[i], c, WrittenActions(states[i]), SkipReduce(c, states[i]));
    }
  }

  method StoreState(c: Context, states: seq<StateInput>, id: nat, rows: seq<Shared>, builder: DataBuilder)
    returns (offset: Option<nat>, more: seq<Shared>)
    requires id < |states| && GoodStates(c, states) && states[id] in states
    requires AllShared(builder.data, c, rows) && |builder.data| <= TABLE_LIMIT
    modifies builder
    ensures old(builder.data) <= builder.data && AllShared(builder.data, c, more)
    ensures offset.Some? ==> |builder.data| <= TABLE_LIMIT
    ensures offset.Some? ==>
              StateRow(builder.data, offset.value, c, WrittenActions(states[id]), SkipReduce(c, states[id]))
    ensures offset.None? ==> !AllCodable(WrittenActions(states[id])) || |builder.data| > TABLE_LIMIT
  {
    hide Writable, AllCodable, Kept, Encoded, RowStored, Fits, Distinct, StateRow, EofReduce, ActionsStored;
    var state := states[id];
    var skipReduce, shared := None, None;
    more := rows;
    if state.defaultReduce.None? {
      if state.isSkip {
        skipReduce := FindEofReduce(c, state.actions);
      }
      if skipReduce.None? {
        var ok;
        ok, shared, more := FindSharedActions(c, states, id, more, builder);
        if !ok {
          return None, more;
        }
      }
    }
    ghost var before := builder.data;
    var actions := if state.defaultReduce.None? then state.actions else [];
    NoActions(c);
    SharedSmall(builder.data, c, shared);
    offset := StoreActions(c, actions, skipReduce, shared, builder);
    AllSharedLater(before, builder.data, c, more);
    if offset.Some? {
      StoredCodable(builder.data, offset.value, c, actions, skipReduce, shared);
      StateReadBack(builder.data, offset.value, c, actions, skipReduce, shared);
    }
  }

  lemma StoredCodable(data: seq<Word>, offset: nat, c: Context, actions: seq<Action>,
                      skipReduce: Option<nat>, shared: Option<Shared>)
    requires ActionsStored(data, offset, c, actions, skipReduce, shared) && Distinct(actions)
    requires shared.Some? ==> SharedStored(data, c, shared.value) && Fits(shared, actions)
    ensures AllCodable(actions)
  {
    hide Writable, Kept, Encoded, Distinct, Fits;
    if skipReduce.None? && shared.Some? && |shared.value.actions| == |actions| {
      WholeShared(actions, shared);
    }
  }

  lemma NoActions(c: Context)
    ensures Writable(c, []) && AllCodable([]) && Distinct([])
  {}

  lemma SharedSmall(data: seq<Word>, c: Context, shared: Option<Shared>)
    requires |data| <= TABLE_LIMIT
    ensures shared.Some? && SharedStored(data, c, shared.value) ==> shared.value.address < U32
  {
    hide Encoded, Writable, AllCodable;
  }

  /** Writes the action rows of all states; each keeps its meaning while the
      data grows. */
  method FinishStates(c: Context, states: seq<StateInput>, builder: DataBuilder)
    returns (ok: bool, offsets: seq<nat>)
    requires GoodStates(c, states) && |builder.data| <= TABLE_LIMIT
    modifies builder
    ensures old(builder.data) <= builder.data
    ensures ok ==> |offsets| == |states| && StatesRead(builder.data, offsets, c, states)
    ensures ok ==> |builder.data| <= TABLE_LIMIT
    ensures !ok ==> |builder.data| > TABLE_LIMIT || exists s :: s in states && !AllCodable(WrittenActions(s))
  {
    hide GoodStates, SkipReduce, StateRow, SharedStored, AllCodable;
    offsets := [];
    var rows: seq<Shared> := [];
    var id: nat := 0;
    while id < |states|
      invariant id <= |states| && |offsets| == id
      invariant old(builder.data) <= builder.data && |builder.data| <= TABLE_LIMIT
      invariant AllShared(builder.data, c, rows)
      invariant StatesRead(builder.data, offsets, c, states)
    {
      ghost var before := builder.data;
      assert states[id] in states;
      var offset;
      offset, rows := StoreState(c, states, id, rows, builder);
      if offset.None? {
        return false, [];
      }
      StatesReadLater(before, builder.data, offsets, c, states);
      offsets := offsets + [offset.value];
      id := id + 1;
    }
    ok := true;
  }
}
