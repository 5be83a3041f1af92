/** Writing the goto table of an automaton: grouping by term and target, the
    most frequent target last, groups shared in one data array. */
module GotoWriter {
  import opened Options
  import opened Varint
  import opened GotoGroups
  import opened GotoHeader
  import opened GotoTable

  const STATE_LIMIT: nat := 0x1_0000

  datatype Goto = Goto(term: Word, target: nat)
  datatype StateGotos = StateGotos(id: nat, gotos: seq<Goto>)
  datatype Entry = Entry(source: nat, term: Word, target: nat)

  function EntriesOf(id: nat, gotos: seq<Goto>): seq<Entry> {
    seq(|gotos|, i requires 0 <= i < |gotos| => Entry(id, gotos[i].term, gotos[i].target))
  }

  /** All gotos, state by state. */
  function Entries(states: seq<StateGotos>): seq<Entry> {
    if states == [] then []
    else
      var last := states[|states| - 1];
      Entries(states[..|states| - 1]) + EntriesOf(last.id, last.gotos)
  }

  /** At most one goto per state and term. */
  predicate Unique(entries: seq<Entry>) {
    forall i, j :: 0 <= i < j < |entries| ==>
      entries[i].source != entries[j].source || entries[i].term != entries[j].term
  }

  predicate Wordy(e: Entry) {
    e.source < STATE_LIMIT && e.target < STATE_LIMIT
  }

  /** The states that go to `target` on `term`, in order. */
  function SourcesOf(entries: seq<Entry>, term: Word, target: nat): seq<Word> {
    if entries == [] then []
    else
      var last := entries[|entries| - 1];
      SourcesOf(entries[..|entries| - 1], term, target) +
        if last.term == term && last.target == target && Wordy(last) then [last.source] else []
  }

  lemma {:induction false} SourcesMember(entries: seq<Entry>, term: Word, target: nat, source: Word)
    ensures source in SourcesOf(entries, term, target)
       <==> target < STATE_LIMIT && Entry(source, term, target) in entries
    decreases |entries|
  {
    if |entries| > 0 {
      SourcesMember(entries[..|entries| - 1], term, target, source);
      assert entries == entries[..|entries| - 1] + [entries[|entries| - 1]];
    }
  }

  /** The groups of a term with targets from `target` up, in target order. */
  function GroupsFrom(entries: seq<Entry>, term: Word, target: nat): seq<Group>
    decreases STATE_LIMIT - target
  {
    if target >= STATE_LIMIT then []
    else
      var sources := SourcesOf(entries, term, target);
      (if sources == [] then [] else [Group(target, sources)]) + GroupsFrom(entries, term, target + 1)
  }

  lemma {:induction false} GroupsFromMember(entries: seq<Entry>, term: Word, target: nat, g: Group)
    ensures g in GroupsFrom(entries, term, target)
       <==> g.target >= target && g.sources == SourcesOf(entries, term, g.target) && g.sources != []
    decreases STATE_LIMIT - target
  {
    hide SourcesOf;
    if target < STATE_LIMIT { GroupsFromMember(entries, term, target + 1, g); }
  }

  // ---- the default group --------------------------------------------------

  /** `b` is at least as frequent as `a`, the larger target winning a tie. */
  predicate NoMoreFrequent(a: Group, b: Group) {
    |a.sources| < |b.sources| || (|a.sources| == |b.sources| && a.target <= b.target)
  }

  function DefaultIndex(groups: seq<Group>): (d: nat)
    requires |groups| > 0
    ensures d < |groups| && forall i :: 0 <= i < |groups| ==> NoMoreFrequent(groups[i], groups[d])
  {
    if |groups| == 1 then 0
    else
      var n := |groups| - 1;
      var d := DefaultIndex(groups[..n]);
      assert forall i :: 0 <= i < n ==> groups[..n][i] == groups[i];
      if NoMoreFrequent(groups[d], groups[n]) then n else d
  }

  function DefaultLast(groups: seq<Group>): seq<Group>
    requires |groups| > 0
  {
    var d := DefaultIndex(groups);
    groups[..d] + groups[d + 1..] + [groups[d]]
  }

  method OrderGroups(groups: seq<Group>) returns (ordered: seq<Group>)
    requires |groups| > 0
    ensures ordered == DefaultLast(groups)
  {
    var d := 0;
    for i := 1 to |groups|
      invariant d < i && d == DefaultIndex(groups[..i])
    {
      assert groups[..i + 1][..i] == groups[..i];
      if NoMoreFrequent(groups[d], groups[i]) {
        d := i;
      }
    }
    assert groups[..|groups|] == groups;
    ordered := groups[..d] + groups[d + 1..] + [groups[d]];
  }

  /** The groups of a term in the order of the table. */
  function TermGroups(entries: seq<Entry>, term: Word): seq<Group> {
    var groups := GroupsFrom(entries, term, 0);
    if groups == [] then [] else DefaultLast(groups)
  }

  lemma TermGroupsMember(entries: seq<Entry>, term: Word, g: Group)
    ensures g in TermGroups(entries, term)
       <==> g.sources == SourcesOf(entries, term, g.target) && g.sources != []
  {
    hide SourcesOf, GroupsFrom, DefaultIndex;
    GroupsFromMember(entries, term, 0, g);
    var groups := GroupsFrom(entries, term, 0);
    if |groups| > 0 {
      var d := DefaultIndex(groups);
      assert groups == groups[..d] + [groups[d]] + groups[d + 1..];
    }
  }

  /** The group stored last is the most frequent one. */
  lemma DefaultMostFrequent(entries: seq<Entry>, term: Word, g: Group)
    requires g in TermGroups(entries, term)
    ensures NoMoreFrequent(g, TermGroups(entries, term)[|TermGroups(entries, term)| - 1])
  {
    hide GroupsFrom, NoMoreFrequent, DefaultIndex;
    var groups := GroupsFrom(entries, term, 0);
    var d := DefaultIndex(groups);
    var ordered := groups[..d] + groups[d + 1..] + [groups[d]];
    assert TermGroups(entries, term) == ordered && ordered[|ordered| - 1] == groups[d];
    assert g in groups[..d] || g in groups[d + 1..] || g == groups[d];
    assert g in groups;
    var i :| 0 <= i < |groups| && groups[i] == g;
  }

  // ---- looking up ---------------------------------------------------------

  lemma {:induction false} FindSourceSound(groups: seq<Group>, state: Word)
    ensures FindSource(groups, state).Some? ==>
              exists g :: g in groups && g.target == FindSource(groups, state).value && state in g.sources
    ensures FindSource(groups, state).None? ==> forall g :: g in groups ==> state !in g.sources
    decreases |groups|
  {
    if |groups| > 0 {
      FindSourceSound(groups[1..], state);
      assert groups == [groups[0]] + groups[1..];
      if state in groups[0].sources {
        assert groups[0] in groups;
      } else if FindSource(groups[1..], state).Some? {
        var g :| g in groups[1..] && g.target == FindSource(groups[1..], state).value && state in g.sources;
        assert g in groups;
      }
    }
  }

  /** A lookup names a group that has the state, and misses none. */
  lemma GotoInGroups(groups: seq<Group>, state: Word)
    requires |groups| > 0
    ensures GotoIn(groups, state, false).Some? ==>
              exists g :: g in groups && g.target == GotoIn(groups, state, false).value && state in g.sources
    ensures GotoIn(groups, state, false).None? ==> forall g :: g in groups ==> state !in g.sources
  {
    hide FindSource;
    var n := |groups| - 1;
    FindSourceSound(groups[..n], state);
    assert groups == groups[..n] + [groups[n]];
    if FindSource(groups[..n], state).Some? {
      var g :| g in groups[..n] && g.target == FindSource(groups[..n], state).value && state in g.sources;
      assert g in groups;
    }
  }

  /** The strict goto read from a term's groups is the automaton's own, and it
      is missing exactly when the automaton has none. */
  lemma StrictGotoExact(entries: seq<Entry>, term: Word, state: Word, target: Word)
    requires Unique(entries) && |TermGroups(entries, term)| > 0
    ensures GotoIn(TermGroups(entries, term), state, false) == Some(target)
       <==> Entry(state, term, target) in entries
  {
    hide TermGroups, GotoIn, SourcesOf;
    var groups := TermGroups(entries, term);
    GotoInGroups(groups, state);
    if GotoIn(groups, state, false).Some? {
      var g :| g in groups && g.target == GotoIn(groups, state, false).value && state in g.sources;
      TermGroupsMember(entries, term, g);
      SourcesMember(entries, term, g.target, state);
      if Entry(state, term, target) in entries {
        UniqueTarget(entries, state, term, g.target, target);
      }
    } else if Entry(state, term, target) in entries {
      SourcesMember(entries, term, target, state);
      var g := Group(target, SourcesOf(entries, term, target));
      TermGroupsMember(entries, term, g);
    }
  }

  lemma UniqueTarget(entries: seq<Entry>, source: nat, term: Word, a: nat, b: nat)
    requires Unique(entries) && Entry(source, term, a) in entries && Entry(source, term, b) in entries
    ensures a == b
  {}

  lemma NoGroupsNoGoto(entries: seq<Entry>, term: Word, state: Word, target: Word)
    requires TermGroups(entries, term) == []
    ensures Entry(state, term, target) !in entries
  {
    hide TermGroups, SourcesOf;
    SourcesMember(entries, term, target, state);
    TermGroupsMember(entries, term, Group(target, SourcesOf(entries, term, target)));
  }

  // ---- collecting gotos ---------------------------------------------------

  type GotoMap = map<Word, map<Word, seq<Word>>>

  function Listed(m: GotoMap, term: Word, target: Word): seq<Word> {
    if term in m && target in m[term] then m[term][target] else []
  }

  /** The nested map holds the sources of every term and target, and nothing
      empty. */
  ghost predicate Grouped(m: GotoMap, entries: seq<Entry>) {
    && (forall e <- entries :: Wordy(e))
    && (forall t: Word, x: Word {:trigger Listed(m, t, x)} :: Listed(m, t, x) == SourcesOf(entries, t, x))
    && Filled(m)
  }

  ghost predicate Filled(m: GotoMap) {
    && (forall t: Word :: t in m ==> m[t] != map[])
    && (forall t: Word, x: Word :: t in m && x in m[t] ==> m[t][x] != [])
  }

  function Added(m: GotoMap, source: Word, term: Word, target: Word): GotoMap {
    var targets: map<Word, seq<Word>> := if term in m then m[term] else map[];
    m[term := targets[target := Listed(m, term, target) + [source]]]
  }

  lemma FilledAdd(m: GotoMap, source: Word, term: Word, target: Word)
    requires Filled(m)
    ensures Filled(Added(m, source, term, target))
  {
    var next := Added(m, source, term, target);
    assert target in next[term];
    forall t: Word | t in next ensures next[t] != map[] {
      if t != term { assert next[t] == m[t]; }
    }
    forall t: Word, x: Word | t in next && x in next[t] ensures next[t][x] != [] {
      if t == term && x == target {
      } else {
        assert t in m && next[t][x] == m[t][x];
      }
    }
  }

  lemma GroupedAdd(m: GotoMap, entries: seq<Entry>, source: Word, term: Word, target: Word)
    requires Grouped(m, entries)
    ensures Grouped(Added(m, source, term, target), entries + [Entry(source, term, target)])
  {
    hide Filled, Added;
    FilledAdd(m, source, term, target);
    var next, more := Added(m, source, term, target), entries + [Entry(source, term, target)];
    assert more[..|entries|] == entries;
    forall t: Word, x: Word ensures Listed(next, t, x) == SourcesOf(more, t, x) {
      assert Listed(m, t, x) == SourcesOf(entries, t, x);
      ListedAdd(m, source, term, target, t, x);
    }
  }

  lemma ListedAdd(m: GotoMap, source: Word, term: Word, target: Word, t: Word, x: Word)
    ensures Listed(Added(m, source, term, target), t, x)
         == Listed(m, t, x) + if t == term && x == target then [source] else []
  {}

  /** The largest term with a goto, or zero. */
  function MaxTerm(entries: seq<Entry>): Word {
    if entries == [] then 0
    else
      var most := MaxTerm(entries[..|entries| - 1]);
      if entries[|entries| - 1].term > most then entries[|entries| - 1].term else most
  }

  lemma MaxTermNext(entries: seq<Entry>, e: Entry)
    ensures MaxTerm(entries + [e]) == if e.term > MaxTerm(entries) then e.term else MaxTerm(entries)
  {
    assert (entries + [e])[..|entries|] == entries;
  }

  lemma NoEntries(before: seq<Entry>, state: StateGotos)
    ensures before + EntriesOf(state.id, state.gotos[..0]) == before
  {}

  lemma EntriesNext(before: seq<Entry>, state: StateGotos, i: nat)
    requires i < |state.gotos|
    ensures before + EntriesOf(state.id, state.gotos[..i + 1])
         == before + EntriesOf(state.id, state.gotos[..i])
            + [Entry(state.id, state.gotos[i].term, state.gotos[i].target)]
  {
    var front := EntriesOf(state.id, state.gotos[..i]);
    var entry := Entry(state.id, state.gotos[i].term, state.gotos[i].target);
    assert EntriesOf(state.id, state.gotos[..i + 1]) == front + [entry];
    assert before + front + [entry] == before + (front + [entry]);
  }

  /** Collects the gotos of one state; fails on a state id or target that does
      not fit 16 bits. */
  method CollectState(m: GotoMap, most: Word, state: StateGotos, ghost before: seq<Entry>)
    returns (ok: bool, next: GotoMap, maxTerm: Word)
    requires Grouped(m, before) && most == MaxTerm(before)
    ensures ok == forall g <- state.gotos :: Wordy(Entry(state.id, g.term, g.target))
    ensures ok ==> Grouped(next, before + EntriesOf(state.id, state.gotos))
    ensures ok ==> maxTerm == MaxTerm(before + EntriesOf(state.id, state.gotos))
  {
    hide Grouped, Added, MaxTerm, EntriesOf;
    next, maxTerm := m, most;
    var i := 0;
    NoEntries(before, state);
    while i < |state.gotos|
      invariant i <= |state.gotos|
      invariant forall j :: 0 <= j < i ==> Wordy(Entry(state.id, state.gotos[j].term, state.gotos[j].target))
      invariant Grouped(next, before + EntriesOf(state.id, state.gotos[..i]))
      invariant maxTerm == MaxTerm(before + EntriesOf(state.id, state.gotos[..i]))
    {
      var g := state.gotos[i];
      if g.target >= STATE_LIMIT || state.id >= STATE_LIMIT {
        assert !Wordy(Entry(state.id, g.term, g.target));
        return false, m, most;
      }
      ghost var so := before + EntriesOf(state.id, state.gotos[..i]);
      ghost var entry := Entry(state.id, g.term, g.target);
      GroupedAdd(next, so, state.id, g.term, g.target);
      EntriesNext(before, state, i);
      MaxTermNext(so, entry);
      maxTerm := if g.term > maxTerm then g.term else maxTerm;
      next := Added(next, state.id, g.term, g.target);
      i := i + 1;
    }
    assert state.gotos[..i] == state.gotos;
    return true, next, maxTerm;
  }

  ghost predicate AllWordy(states: seq<StateGotos>) {
    forall e <- Entries(states) :: Wordy(e)
  }

  method CollectGotos(states: seq<StateGotos>) returns (ok: bool, m: GotoMap, maxTerm: Word)
    ensures ok == AllWordy(states)
    ensures ok ==> Grouped(m, Entries(states)) && maxTerm == MaxTerm(Entries(states))
  {
    hide Grouped, MaxTerm;
    m, maxTerm := map[], 0;
    assert Grouped(m, []) && MaxTerm([]) == 0 by { StartGrouped(); }
    var i := 0;
    while i < |states|
      invariant i <= |states|
      invariant Grouped(m, Entries(states[..i])) && maxTerm == MaxTerm(Entries(states[..i]))
      invariant AllWordy(states[..i])
    {
      assert states[..i + 1][..i] == states[..i];
      var state := states[i];
      ok, m, maxTerm := CollectState(m, maxTerm, state, Entries(states[..i]));
      if !ok {
        WordyPart(states, i);
        return;
      }
      WordyNext(states, i);
      i := i + 1;
    }
    assert states[..i] == states;
    ok := true;
  }

  lemma StartGrouped()
    ensures Grouped(map[], []) && MaxTerm([]) == 0
  {}

  lemma WordyNext(states: seq<StateGotos>, i: nat)
    requires i < |states| && AllWordy(states[..i])
    requires forall g <- states[i].gotos :: Wordy(Entry(states[i].id, g.term, g.target))
    ensures AllWordy(states[..i + 1])
  {
    assert states[..i + 1][..i] == states[..i];
    var added := EntriesOf(states[i].id, states[i].gotos);
    forall e | e in added ensures Wordy(e) {
      var j :| 0 <= j < |added| && added[j] == e;
      assert states[i].gotos[j] in states[i].gotos;
    }
  }

  /** Every state contributes its entries. */
  lemma {:induction false} EntriesMember(states: seq<StateGotos>, i: nat, j: nat)
    requires i < |states| && j < |states[i].gotos|
    ensures Entry(states[i].id, states[i].gotos[j].term, states[i].gotos[j].target) in Entries(states)
    decreases |states|
  {
    var n := |states| - 1;
    if i < n {
      EntriesMember(states[..n], i, j);
    } else {
      assert EntriesOf(states[n].id, states[n].gotos)[j]
          == Entry(states[n].id, states[n].gotos[j].term, states[n].gotos[j].target);
    }
  }

  lemma WordyPart(states: seq<StateGotos>, i: nat)
    requires i < |states|
    requires !forall g <- states[i].gotos :: Wordy(Entry(states[i].id, g.term, g.target))
    ensures !AllWordy(states)
  {
    var g :| g in states[i].gotos && !Wordy(Entry(states[i].id, g.term, g.target));
    var j :| 0 <= j < |states[i].gotos| && states[i].gotos[j] == g;
    EntriesMember(states, i, j);
  }

  // ---- writing terms ------------------------------------------------------

  lemma GroupsFromStep(m: GotoMap, term: Word, entries: seq<Entry>, target: Word)
    requires Grouped(m, entries)
    ensures GroupsFrom(entries, term, target) ==
              (if term in m && target in m[term] then [Group(target, m[term][target])] else [])
              + GroupsFrom(entries, term, target + 1)
  {
    hide SourcesOf;
    assert Listed(m, term, target) == SourcesOf(entries, term, target);
  }

  lemma GroupsFromEnd(entries: seq<Entry>, term: Word)
    ensures GroupsFrom(entries, term, STATE_LIMIT) == []
  {}

  lemma {:induction false} NothingListed(m: GotoMap, term: Word, entries: seq<Entry>, target: nat)
    requires Grouped(m, entries) && term !in m && target <= STATE_LIMIT
    ensures GroupsFrom(entries, term, target) == []
    decreases STATE_LIMIT - target
  {
    hide GroupsFrom, Grouped;
    if target < STATE_LIMIT {
      GroupsFromStep(m, term, entries, target);
      NothingListed(m, term, entries, target + 1);
    } else {
      GroupsFromEnd(entries, term);
    }
  }

  /** Lists the groups of a term in target order. */
  method ListGroups(m: GotoMap, term: Word, ghost entries: seq<Entry>) returns (groups: seq<Group>)
    requires Grouped(m, entries)
    ensures groups == GroupsFrom(entries, term, 0)
  {
    hide GroupsFrom, Grouped;
    groups := [];
    if term !in m {
      NothingListed(m, term, entries, 0);
      return;
    }
    var target: nat := 0;
    while target < STATE_LIMIT
      invariant target <= STATE_LIMIT
      invariant groups + GroupsFrom(entries, term, target) == GroupsFrom(entries, term, 0)
    {
      GroupsFromStep(m, term, entries, target);
      if target in m[term] {
        groups := groups + [Group(target, m[term][target])];
      }
      target := target + 1;
    }
    GroupsFromEnd(entries, term);
  }

  method WriteGroups(groups: seq<Group>) returns (ok: bool, table: seq<Word>)
    ensures ok == AllStorable(groups)
    ensures ok ==> table == GroupsWords(groups)
  {
    hide GroupWords, Storable;
    table := [];
    var i := 0;
    while i < |groups|
      invariant i <= |groups|
      invariant forall j :: 0 <= j < i ==> Storable(groups[j])
      invariant AllStorable(groups) ==> table + GroupsWords(groups[i..]) == GroupsWords(groups)
    {
      var last := i + 1 == |groups|;
      ghost var before := table;
      ok, table := StoreGotoGroup(table, groups[i], last);
      if !ok {
        return;
      }
      if AllStorable(groups) {
        assert groups[i..][1..] == groups[i + 1..];
        assert before + (GroupWords(groups[i], last) + GroupsWords(groups[i + 1..]))
            == table + GroupsWords(groups[i + 1..]);
      }
      i := i + 1;
    }
    ok := true;
  }

  /** The words of a term when nothing is compressed. */
  function RawWords(groups: seq<Group>): nat {
    if groups == [] then 0 else 2 + |groups[0].sources| + RawWords(groups[1..])
  }

  lemma {:induction false} GroupsWordsShort(groups: seq<Group>)
    requires AllStorable(groups)
    ensures |groups| <= |GroupsWords(groups)| <= RawWords(groups)
    decreases |groups|
  {
    if |groups| > 0 { GroupsWordsShort(groups[1..]); }
  }

  function RawTotal(entries: seq<Entry>, terms: nat): nat
    requires terms <= 0x1_0000
  {
    if terms == 0 then 0 else RawTotal(entries, terms - 1) + RawWords(TermGroups(entries, terms - 1))
  }

  lemma {:induction false} RawTotalGrows(entries: seq<Entry>, terms: nat, more: nat)
    requires terms <= more <= 0x1_0000
    ensures RawTotal(entries, terms) <= RawTotal(entries, more)
    decreases more
  {
    hide TermGroups;
    if terms < more { RawTotalGrows(entries, terms, more - 1); }
  }

  /** A term of the table: its groups are somewhere in the data, and a term
      without gotos has no position. */
  ghost predicate Written(data: seq<Word>, position: Option<nat>, groups: seq<Group>) {
    if groups == [] then position.None?
    else position.Some? && AllStorable(groups) && OccursAt(data, position.value, GroupsWords(groups))
  }

  ghost predicate AllWritten(data: seq<Word>, index: Positions, entries: seq<Entry>) {
    && |index| <= 0x1_0000
    && forall t {:trigger index[t]} :: 0 <= t < |index| ==> Written(data, index[t], TermGroups(entries, t))
  }

  method WriteTerm(builder: DataBuilder, m: GotoMap, term: Word, ghost entries: seq<Entry>)
    returns (ok: bool, position: Option<nat>)
    requires Grouped(m, entries)
    modifies builder
    ensures old(builder.data) <= builder.data
    ensures ok ==> Written(builder.data, position, TermGroups(entries, term))
    ensures ok ==> |builder.data| <= TABLE_LIMIT || builder.data == old(builder.data)
    ensures ok ==> |builder.data| <= |old(builder.data)| + RawWords(TermGroups(entries, term))
    ensures !ok ==> !AllStorable(TermGroups(entries, term)) ||
                    |old(builder.data)| + RawWords(TermGroups(entries, term)) > TABLE_LIMIT
  {
    hide Grouped, GroupsFrom, DefaultLast, AllStorable, GroupsWords, OccursAt, RawWords;
    var groups := ListGroups(m, term, entries);
    if groups == [] {
      return true, None;
    }
    groups := OrderGroups(groups);
    assert groups == TermGroups(entries, term) && groups != [] by { OrderedNonempty(entries, term); }
    var table;
    ok, table := WriteGroups(groups);
    if !ok {
      return false, None;
    }
    GroupsWordsShort(groups);
    position := builder.StoreArray(table);
    ok := position.Some?;
  }

  lemma OrderedNonempty(entries: seq<Entry>, term: Word)
    requires GroupsFrom(entries, term, 0) != []
    ensures TermGroups(entries, term) == DefaultLast(GroupsFrom(entries, term, 0)) != []
  {}

  // ---- the whole table ----------------------------------------------------

  lemma WrittenLater(data: seq<Word>, longer: seq<Word>, index: Positions, entries: seq<Entry>)
    requires data <= longer && AllWritten(data, index, entries)
    ensures AllWritten(longer, index, entries)
  {
    hide TermGroups, GroupsWords, OccursAt;
    forall t {:trigger index[t]} | 0 <= t < |index| ensures Written(longer, index[t], TermGroups(entries, t)) {
      assert Written(data, index[t], TermGroups(entries, t));
      if TermGroups(entries, t) != [] {
        OccursLater(data, longer, index[t].value, GroupsWords(TermGroups(entries, t)));
      }
    }
  }

  lemma WrittenNext(data: seq<Word>, index: Positions, position: Option<nat>, entries: seq<Entry>)
    requires AllWritten(data, index, entries) && |index| < 0x1_0000
    requires Written(data, position, TermGroups(entries, |index|))
    ensures AllWritten(data, index + [position], entries)
  {
    hide TermGroups, Written;
  }

  /** Fits an unshared, uncompressed table: the encoder never needs more. */
  ghost predicate RawFits(entries: seq<Entry>) {
    && MaxTerm(entries) + 1 < 0xFFFF
    && MaxTerm(entries) + 2 + RawTotal(entries, MaxTerm(entries) + 1) <= TABLE_LIMIT
  }

  ghost predicate AllGroupsStorable(entries: seq<Entry>) {
    forall t: Word {:trigger TermGroups(entries, t)} :: AllStorable(TermGroups(entries, t))
  }

  method WriteTerms(m: GotoMap, maxTerm: Word, ghost entries: seq<Entry>)
    returns (ok: bool, index: Positions, data: seq<Word>)
    requires Grouped(m, entries) && maxTerm == MaxTerm(entries)
    ensures ok ==> |index| == maxTerm + 1 && AllWritten(data, index, entries)
    ensures ok ==> |data| <= RawTotal(entries, maxTerm + 1) && |data| <= TABLE_LIMIT
    ensures !ok ==> !RawFits(entries) || !AllGroupsStorable(entries)
  {
    hide Grouped, MaxTerm, TermGroups, Written, AllStorable, RawWords;
    var builder := new DataBuilder();
    index := [];
    var term := 0;
    while term <= maxTerm
      invariant term <= maxTerm + 1 && |index| == term
      invariant fresh(builder)
      invariant AllWritten(builder.data, index, entries)
      invariant |builder.data| <= RawTotal(entries, term) && |builder.data| <= TABLE_LIMIT
    {
      ghost var before := builder.data;
      var position;
      RawTotalGrows(entries, term + 1, maxTerm + 1);
      ok, position := WriteTerm(builder, m, term, entries);
      if !ok {
        return false, [], [];
      }
      WrittenLater(before, builder.data, index, entries);
      WrittenNext(builder.data, index, position, entries);
      index := index + [position];
      term := term + 1;
    }
    return true, index, builder.data;
  }

  /** A length word and a word for each position, past the header. */
  method WriteRawHeader(index: Positions) returns (ok: bool, table: seq<Word>)
    requires |index| < 0xFFFF && !Compresses(index)
    ensures ok == HeaderFits(index)
    ensures ok ==> table == HeaderWords(index)
  {
    hide Compresses, HeaderFits, HeaderWords;
    table := [|index|];
    var i := 0;
    while i < |index|
      invariant i <= |index| && |table| == i + 1 && table[0] == |index|
      invariant forall j :: 0 <= j < i && index[j].Some? ==> index[j].value + |index| + 1 < 0x1_0000
      invariant forall j :: 0 <= j < i ==> table[j + 1] == RawEntry(index[j], |index| + 1)
    {
      var position := RawEntry(index[i], |index| + 1);
      if position > 0xFFFF {
        RawTooLarge(index, i);
        return false, [];
      }
      table := table + [position];
      i := i + 1;
    }
    ok := true;
    RawHeaderIs(index, table);
  }

  lemma RawTooLarge(index: Positions, i: nat)
    requires i < |index| && !Compresses(index) && RawEntry(index[i], |index| + 1) > 0xFFFF
    ensures !HeaderFits(index)
  {
    hide Compresses;
  }

  lemma RawHeaderIs(index: Positions, table: seq<Word>)
    requires |index| < 0xFFFF && !Compresses(index) && |table| == |index| + 1 && table[0] == |index|
    requires forall j :: 0 <= j < |index| && index[j].Some? ==> index[j].value + |index| + 1 < 0x1_0000
    requires forall j :: 0 <= j < |index| ==> table[j + 1] == RawEntry(index[j], |index| + 1)
    ensures HeaderFits(index) && table == HeaderWords(index)
  {
    hide Compresses, RawEntry;
    var words := HeaderWords(index);
    assert |words| == |table|;
    forall k | 0 <= k < |table| ensures table[k] == words[k] {
      if k > 0 { assert table[(k - 1) + 1] == RawEntry(index[k - 1], |index| + 1); }
    }
  }

  method FinishGotoTable(index: Positions, data: seq<Word>) returns (ok: bool, table: seq<Word>)
    ensures ok == (HeaderFits(index) && |HeaderWords(index)| + |data| <= TABLE_LIMIT)
    ensures ok ==> table == HeaderWords(index) + data
  {
    hide HeaderBytes, Packed;
    table := [];
    if |index| > 0xFFFF || |index| == COMPRESSED_HEADER {
      return false, table;
    }
    var compressed := EncodeGotoHeader(index);
    if |compressed| + 3 < |index| + 1 {
      if |compressed| > 0xFFFF {
        return false, table;
      }
      table := [COMPRESSED_HEADER, |index|, |compressed|] + compressed;
    } else {
      ok, table := WriteRawHeader(index);
      if !ok {
        return;
      }
    }
    table := table + data;
    ok := |table| <= TABLE_LIMIT;
  }

  /** What a finished table holds: every term up to the largest reads back as
      its groups. */
  ghost predicate TableOf(table: seq<Word>, entries: seq<Entry>) {
    match ReadHeader(table)
    case BadHeader => false
    case Header(positions, dataStart) =>
      && |positions| == MaxTerm(entries) + 1 < 0xFFFF
      && dataStart <= |table|
      && (forall t: Word {:trigger positions[t]} :: t < |positions| ==>
            && AllStorable(TermGroups(entries, t))
            && (positions[t].Some? ==> dataStart <= positions[t].value)
            && TermAt(table, positions, t)
               == if TermGroups(entries, t) == [] then NoGotos else Gotos(TermGroups(entries, t)))
  }

  lemma WrittenAddressable(data: seq<Word>, index: Positions, entries: seq<Entry>)
    requires AllWritten(data, index, entries) && |data| <= TABLE_LIMIT
    ensures forall t :: 0 <= t < |index| && index[t].Some? ==> index[t].value < |data|
    ensures Addressable(index)
  {
    hide TermGroups, GroupsWords;
    forall t | 0 <= t < |index| && index[t].Some? ensures index[t].value < |data| {
      assert Written(data, index[t], TermGroups(entries, t));
      GroupsWordsShort(TermGroups(entries, t));
    }
  }

  lemma TermReadBack(header: seq<Word>, data: seq<Word>, index: Positions, entries: seq<Entry>, t: Word)
    requires AllWritten(data, index, entries) && t < |index|
    ensures TermAt(header + data, Moved(index, |header|), t)
         == if TermGroups(entries, t) == [] then NoGotos else Gotos(TermGroups(entries, t))
    ensures AllStorable(TermGroups(entries, t))
  {
    hide TermGroups, GroupsWords, ReadGroups, OccursAt;
    assert Written(data, index[t], TermGroups(entries, t));
    if TermGroups(entries, t) != [] {
      SharedGroupsReadBack(header, data, index[t].value, TermGroups(entries, t));
    }
  }

  lemma TableReadBack(index: Positions, data: seq<Word>, entries: seq<Entry>)
    requires AllWritten(data, index, entries) && |index| == MaxTerm(entries) + 1
    requires |data| <= TABLE_LIMIT && HeaderFits(index)
    ensures TableOf(HeaderWords(index) + data, entries)
  {
    hide TermGroups, HeaderWords, TermAt, MaxTerm, ReadHeader, AllWritten, AllStorable;
    var header := HeaderWords(index);
    WrittenAddressable(data, index, entries);
    HeaderReadBack(index, data);
    forall t: Word | t < |index|
      ensures TermAt(header + data, Moved(index, |header|), t)
           == if TermGroups(entries, t) == [] then NoGotos else Gotos(TermGroups(entries, t))
      ensures AllStorable(TermGroups(entries, t))
    {
      TermReadBack(header, data, index, entries, t);
    }
  }

  /** The table of an automaton, or a refusal because it does not fit. */
  method ComputeGotoTable(states: seq<StateGotos>) returns (ok: bool, table: seq<Word>)
    ensures ok ==> TableOf(table, Entries(states)) && |table| <= TABLE_LIMIT
    ensures ok ==> AllWordy(states)
    ensures !ok ==> !AllWordy(states) || !RawFits(Entries(states)) || !AllGroupsStorable(Entries(states))
  {
    hide Grouped, MaxTerm, Entries, AllWordy, TableOf, AllWritten, HeaderWords, AllGroupsStorable, RawTotal;
    ghost var entries := Entries(states);
    var m, maxTerm, index, data;
    ok, m, maxTerm := CollectGotos(states);
    if !ok {
      return false, [];
    }
    ok, index, data := WriteTerms(m, maxTerm, entries);
    if !ok {
      return false, [];
    }
    WrittenAddressable(data, index, entries);
    ok, table := FinishGotoTable(index, data);
    if ok {
      TableReadBack(index, data, entries);
    } else if RawFits(entries) {
      HeaderShort(index, data);
    }
  }

  lemma HeaderShort(index: Positions, data: seq<Word>)
    requires forall t :: 0 <= t < |index| && index[t].Some? ==> index[t].value < |data|
    requires |index| < 0xFFFF && |index| + 1 + |data| <= TABLE_LIMIT
    ensures HeaderFits(index) && |HeaderWords(index)| + |data| <= TABLE_LIMIT
  {
    hide HeaderBytes, Packed;
  }

  lemma {:induction false} MaxTermLargest(entries: seq<Entry>, e: Entry)
    requires e in entries
    ensures e.term <= MaxTerm(entries)
    decreases |entries|
  {
    var n := |entries| - 1;
    if e != entries[n] { MaxTermLargest(entries[..n], e); }
  }

  /** Encoding, then reading, is the identity: the table strictly holds the
      automaton's gotos and no others. */
  lemma TableExact(table: seq<Word>, entries: seq<Entry>, state: Word, term: Word, target: Word)
    requires TableOf(table, entries) && Unique(entries)
    ensures PlainGet(table, state, term, false) == Some(target) <==> Entry(state, term, target) in entries
  {
    hide TermGroups, TermAt, MaxTerm, ReadHeader, GotoIn;
    var positions := ReadHeader(table).positions;
    if Entry(state, term, target) in entries {
      MaxTermLargest(entries, Entry(state, term, target));
    }
    if term < |positions| {
      var position := positions[term];
      if TermGroups(entries, term) == [] {
        NoGroupsNoGoto(entries, term, state, target);
      } else {
        StrictGotoExact(entries, term, state, target);
      }
    } else {
      NoPosition(table, positions, term);
    }
  }

  lemma NoPosition(table: seq<Word>, positions: Positions, term: nat)
    requires term >= |positions|
    ensures TermAt(table, positions, term) == NoGotos
  {}

  /** A loose lookup agrees with every strict one that finds a goto. */
  lemma LooseAgrees(table: seq<Word>, state: Word, term: nat)
    requires PlainGet(table, state, term, false).Some?
    ensures PlainGet(table, state, term, true) == PlainGet(table, state, term, false)
  {}
}
