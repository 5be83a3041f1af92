/** From an automaton's gotos through the table and its index back to the same
    gotos. */
module GotoRoundTrip {
  import opened Options
  import opened Counting
  import opened Varint
  import opened GotoGroups
  import opened GotoHeader
  import opened GotoTable
  import opened GotoWriter
  import opened GotoIndex

  // ---- written tables can be loaded ---------------------------------------

  predicate DistinctTargets(groups: seq<Group>) {
    forall i, j :: 0 <= i < j < |groups| ==> groups[i].target != groups[j].target
  }

  lemma {:induction false} GroupsFromDistinct(entries: seq<Entry>, term: Word, target: nat)
    ensures DistinctTargets(GroupsFrom(entries, term, target))
    decreases STATE_LIMIT - target
  {
    hide SourcesOf;
    if target < STATE_LIMIT {
      GroupsFromDistinct(entries, term, target + 1);
      var rest := GroupsFrom(entries, term, target + 1);
      forall i | 0 <= i < |rest| ensures rest[i].target > target {
        GroupsFromMember(entries, term, target + 1, rest[i]);
      }
    }
  }

  lemma TermGroupsDistinct(entries: seq<Entry>, term: Word)
    ensures DistinctTargets(TermGroups(entries, term))
  {
    hide GroupsFrom, DefaultIndex;
    GroupsFromDistinct(entries, term, 0);
  }

  /** No state appears twice among the groups of a term. */
  lemma NoSharedSource(entries: seq<Entry>, term: Word, g: Group, h: Group, source: Word)
    requires Unique(entries) && g in TermGroups(entries, term) && h in TermGroups(entries, term)
    requires source in g.sources && source in h.sources
    ensures g.target == h.target
  {
    hide TermGroups, SourcesOf;
    TermGroupsMember(entries, term, g);
    TermGroupsMember(entries, term, h);
    SourcesMember(entries, term, g.target, source);
    SourcesMember(entries, term, h.target, source);
    UniqueTarget(entries, source, term, g.target, h.target);
  }

  lemma {:induction false} GroupsEntriesMember(groups: seq<Group>, e: GotoEntry)
    requires e in GroupsEntries(groups)
    ensures exists g :: g in groups && g.target == e.target && e.source in g.sources
    decreases |groups|
  {
    if |groups| > 0 {
      var front, last := groups[..|groups| - 1], groups[|groups| - 1];
      if e in GroupsEntries(front) {
        GroupsEntriesMember(front, e);
        var g :| g in front && g.target == e.target && e.source in g.sources;
        assert g in groups;
      } else {
        assert last in groups && e in GroupEntries(last);
      }
    }
  }

  /** The prefixes of a term's groups flatten to distinct sources. */
  lemma {:induction false} GroupsEntriesDistinct(entries: seq<Entry>, term: Word, groups: seq<Group>)
    requires Unique(entries) && AllStorable(groups) && DistinctTargets(groups)
    requires forall g :: g in groups ==> g in TermGroups(entries, term)
    ensures Distinct(GroupsEntries(groups))
    decreases |groups|
  {
    hide TermGroups;
    if |groups| > 0 {
      var front, last := groups[..|groups| - 1], groups[|groups| - 1];
      assert forall g :: g in front ==> g in groups;
      GroupsEntriesDistinct(entries, term, front);
      StorableDistinct(last);
      forall e | e in GroupsEntries(front) ensures e.source !in last.sources {
        GroupsEntriesMember(front, e);
        var g :| g in front && g.target == e.target && e.source in g.sources;
        if e.source in last.sources {
          NoSharedSource(entries, term, g, last, e.source);
        }
      }
      DistinctConcat(GroupsEntries(front), last);
    }
  }

  lemma {:induction false} IncreasingOrder(sources: seq<Word>, i: nat, j: nat)
    requires Increasing(sources) && i < j < |sources|
    ensures sources[i] < sources[j]
    decreases j
  {
    assert sources[j - 1] < sources[j];
    if i < j - 1 { IncreasingOrder(sources, i, j - 1); }
  }

  lemma StorableDistinct(g: Group)
    requires Storable(g)
    ensures Distinct(GroupEntries(g))
  {
    hide Increasing;
    var entries := GroupEntries(g);
    forall i, j | 0 <= i < j < |entries| ensures entries[i].source != entries[j].source {
      IncreasingOrder(g.sources, i, j);
    }
  }

  lemma DistinctConcat(a: seq<GotoEntry>, last: Group)
    requires Distinct(a) && Distinct(GroupEntries(last))
    requires forall e :: e in a ==> e.source !in last.sources
    ensures Distinct(a + GroupEntries(last))
  {
    var b := GroupEntries(last);
    forall i, j | 0 <= i < j < |a + b| ensures (a + b)[i].source != (a + b)[j].source {
      if i < |a| && j >= |a| {
        assert a[i] in a;
        assert b[j - |a|].source == last.sources[j - |a|];
      } else if i >= |a| {
        assert (a + b)[i] == b[i - |a|] && (a + b)[j] == b[j - |a|];
      }
    }
  }

  lemma DistinctLength(entries: seq<GotoEntry>)
    requires Distinct(entries)
    ensures |entries| <= 0x1_0000
  {
    var sources: seq<nat> := seq(|entries|, i requires 0 <= i < |entries| => entries[i].source as nat);
    DistinctBound(sources, 0x1_0000);
  }

  /** Every term of a written table can be loaded, and adds a bounded number of
      entries. */
  lemma TermOfTable(entries: seq<Entry>, term: Word)
    requires Unique(entries) && TermGroups(entries, term) != [] && AllStorable(TermGroups(entries, term))
    ensures var groups := TermGroups(entries, term);
            && Distinct(Exceptions(groups))
            && |Exceptions(groups)| <= 0x1_0000
            && |Default(groups).sources| <= 0x1_0000
  {
    hide TermGroups, Distinct, Increasing;
    var groups := TermGroups(entries, term);
    TermGroupsDistinct(entries, term);
    var front := groups[..|groups| - 1];
    assert forall g :: g in front ==> g in groups;
    GroupsEntriesDistinct(entries, term, front);
    DistinctLength(Exceptions(groups));
    assert Storable(groups[|groups| - 1]);
  }

  lemma {:induction false} TotalsBound(table: seq<Word>, entries: seq<Entry>, k: nat)
    requires TableOf(table, entries) && Unique(entries)
    requires k <= |ReadHeader(table).positions|
    ensures Totals(table, ReadHeader(table).positions, k).0 <= 0x1_0000 * k
    ensures Totals(table, ReadHeader(table).positions, k).1 <= 0x1_0000 * k
  {
    hide TermGroups, AllStorable, Distinct, Exceptions, TermAt, ReadHeader, MaxTerm;
    var positions := ReadHeader(table).positions;
    if k > 0 {
      TotalsBound(table, entries, k - 1);
      var t: Word := k - 1;
      TermEntry(table, entries, t);
      if TermGroups(entries, t) != [] { TermOfTable(entries, t); }
    }
  }

  lemma TermEntry(table: seq<Word>, entries: seq<Entry>, t: Word)
    requires TableOf(table, entries) && t < |ReadHeader(table).positions|
    ensures TermAt(table, ReadHeader(table).positions, t)
         == if TermGroups(entries, t) == [] then NoGotos else Gotos(TermGroups(entries, t))
    ensures AllStorable(TermGroups(entries, t))
  {
    hide TermGroups, TermAt, ReadHeader, MaxTerm, AllStorable;
    var position := ReadHeader(table).positions[t];
  }

  /** Whenever the generator writes a table, the parser can index it. */
  lemma WrittenLoadable(table: seq<Word>, entries: seq<Entry>)
    requires TableOf(table, entries) && Unique(entries)
    ensures Loadable(table)
    ensures Totals(table, ReadHeader(table).positions, |ReadHeader(table).positions|).0 < NO_TERM
  {
    hide TermGroups, AllStorable, Distinct, Exceptions, TermAt, MaxTerm, Totals;
    var positions := ReadHeader(table).positions;
    TotalsBound(table, entries, |positions|);
    forall t: nat | t < |positions| ensures TermLoadable(TermAt(table, positions, t)) {
      TermEntry(table, entries, t);
      if TermGroups(entries, t) != [] { TermOfTable(entries, t); }
    }
  }

  // ---- the round trip -----------------------------------------------------

  /** An index over a written table of these gotos. */
  ghost predicate IndexOf(index: Index, table: seq<Word>, entries: seq<Entry>) {
    && TableOf(table, entries)
    && Indexes(index, table, ReadHeader(table).positions)
    && |index.terms| == |ReadHeader(table).positions|
    && |index.exceptions| < NO_TERM
  }

  /** Writes the table of an automaton with at most one goto per state and term
      and indexes it. A written table is never refused by the index, and the
      writer only refuses what does not fit. */
  method EncodeAndIndex(states: seq<StateGotos>) returns (ok: bool, table: seq<Word>, index: Index)
    requires Unique(Entries(states))
    ensures ok ==> IndexOf(index, table, Entries(states)) && AllWordy(states)
    ensures !ok ==> !AllWordy(states) || !RawFits(Entries(states)) || !AllGroupsStorable(Entries(states))
  {
    hide TableOf, Indexes, Loadable, Unique, AllWordy, RawFits, AllGroupsStorable, Entries, ReadHeader;
    index := Index([], [], []);
    ok, table := ComputeGotoTable(states);
    if ok {
      WrittenLoadable(table, Entries(states));
      ok, index := Build(table);
    }
  }

  /** The strict lookup gives exactly the automaton's goto. A loose one agrees
      wherever there is one, and otherwise guesses the most frequent target. */
  method LookUp(index: Index, state: Word, term: Word, loose: bool,
                ghost table: seq<Word>, ghost states: seq<StateGotos>)
    returns (target: Option<Word>)
    requires Unique(Entries(states)) && IndexOf(index, table, Entries(states))
    ensures !loose ==> forall x: Word :: target == Some(x) <==> Entry(state, term, x) in Entries(states)
    ensures forall x: Word :: Entry(state, term, x) in Entries(states) ==> target == Some(x)
    ensures target.Some? ==> exists s: Word :: Entry(s, term, target.value) in Entries(states)
    ensures loose ==> (target.Some? <==> HasGoto(Entries(states), term))
    ensures target.Some? && !(exists x: Word :: Entry(state, term, x) in Entries(states)) ==>
              MostFrequent(Entries(states), term, target.value)
  {
    hide TableOf, Indexes, Unique, Entries, PlainGet, ReadHeader, MostFrequent;
    TableHeader(table, Entries(states));
    target := Get(index, state, term, loose, table);
    forall x: Word
      ensures PlainGet(table, state, term, false) == Some(x) <==> Entry(state, term, x) in Entries(states)
    {
      TableExact(table, Entries(states), state, term, x);
    }
    GuessWhenAny(table, Entries(states), state, term);
    if PlainGet(table, state, term, false).Some? {
      LooseAgrees(table, state, term);
    } else if target.Some? {
      GuessIsTarget(table, Entries(states), state, term);
      GuessMostFrequent(table, Entries(states), state, term);
    }
  }

  ghost predicate HasGoto(entries: seq<Entry>, term: Word) {
    exists s: Word, x: Word :: Entry(s, term, x) in entries
  }

  /** No target of the term has more source states, and none with as many has
      a larger number. */
  ghost predicate MostFrequent(entries: seq<Entry>, term: Word, target: Word) {
    forall x: Word ::
      var more, here := |SourcesOf(entries, term, x)|, |SourcesOf(entries, term, target)|;
      more < here || (more == here && x <= target)
  }

  lemma GuessMostFrequent(table: seq<Word>, entries: seq<Entry>, state: Word, term: Word)
    requires TableOf(table, entries)
    requires PlainGet(table, state, term, false).None? && PlainGet(table, state, term, true).Some?
    ensures MostFrequent(entries, term, PlainGet(table, state, term, true).value)
  {
    hide TermGroups, SourcesOf, MaxTerm, ReadHeader, AllStorable, FindSource;
    var positions := ReadHeader(table).positions;
    if term < |positions| {
      TermEntry(table, entries, term);
      var groups := TermGroups(entries, term);
      var last := groups[|groups| - 1];
      TermGroupsMember(entries, term, last);
      forall x: Word
        ensures var more, here := |SourcesOf(entries, term, x)|, |SourcesOf(entries, term, last.target)|;
                more < here || (more == here && x <= last.target)
      {
        if SourcesOf(entries, term, x) != [] {
          var g := Group(x, SourcesOf(entries, term, x));
          TermGroupsMember(entries, term, g);
          DefaultMostFrequent(entries, term, g);
        }
      }
    }
  }

  /** A loose lookup answers whenever some state has a goto on the term. */
  lemma GuessWhenAny(table: seq<Word>, entries: seq<Entry>, state: Word, term: Word)
    requires TableOf(table, entries)
    ensures HasGoto(entries, term) ==> PlainGet(table, state, term, true).Some?
  {
    hide TermGroups, SourcesOf, MaxTerm, ReadHeader, AllStorable, FindSource;
    if s: Word, x: Word :| Entry(s, term, x) in entries {
      MaxTermLargest(entries, Entry(s, term, x));
      TermEntry(table, entries, term);
      SourcesMember(entries, term, x, s);
      TermGroupsMember(entries, term, Group(x, SourcesOf(entries, term, x)));
    }
  }

  lemma TableHeader(table: seq<Word>, entries: seq<Entry>)
    requires TableOf(table, entries)
    ensures ReadHeader(table).Header?
  {
    hide TermGroups, TermAt, MaxTerm, ReadHeader;
  }

  /** A loose guess is a target that some state has on the term. */
  lemma GuessIsTarget(table: seq<Word>, entries: seq<Entry>, state: Word, term: Word)
    requires TableOf(table, entries)
    requires PlainGet(table, state, term, false).None? && PlainGet(table, state, term, true).Some?
    ensures exists s: Word :: Entry(s, term, PlainGet(table, state, term, true).value) in entries
  {
    hide TermGroups, SourcesOf, MaxTerm, ReadHeader, AllStorable, FindSource;
    var positions := ReadHeader(table).positions;
    if term < |positions| {
      TermEntry(table, entries, term);
      var groups := TermGroups(entries, term);
      var last := groups[|groups| - 1];
      TermGroupsMember(entries, term, last);
      SourcesMember(entries, term, last.target, last.sources[0]);
    }
  }

  // ---- validation ---------------------------------------------------------

  predicate GroupsWithin(groups: seq<Group>, count: nat) {
    forall g <- groups :: g.target < count && forall s <- g.sources :: s < count
  }

  ghost predicate TermWithin(term: TermRead, count: nat) {
    match term
    case BadTerm => false
    case NoGotos => true
    case Gotos(groups) => GroupsWithin(groups, count)
  }

  ghost predicate ValidTable(table: seq<Word>, count: nat) {
    && ReadHeader(table).Header?
    && forall t: nat :: t < |ReadHeader(table).positions| ==>
         TermWithin(TermAt(table, ReadHeader(table).positions, t), count)
  }

  /** No position points into the header: raw ones that would are empty
      entries, compressed ones are counted from its end. */
  lemma PositionsPastHeader(table: seq<Word>, t: nat)
    requires ReadHeader(table).Header? && t < |ReadHeader(table).positions|
    requires ReadHeader(table).positions[t].Some?
    ensures ReadHeader(table).positions[t].value >= ReadHeader(table).dataStart
  {
    hide ReadPositions, Unpacked;
  }

  /** Checks that every group of a table is complete and names known states. */
  method ValidateGotoTable(table: seq<Word>, stateCount: nat) returns (ok: bool)
    ensures ok == ValidTable(table, stateCount)
  {
    hide ReadHeader, ReadGroups, GroupsWithin;
    var header := DecodeGotoHeader(table);
    if header == BadHeader {
      return false;
    }
    var positions := header.positions;
    var t: nat := 0;
    while t < |positions|
      invariant t <= |positions|
      invariant forall u: nat :: u < t ==> TermWithin(TermAt(table, positions, u), stateCount)
    {
      if positions[t].Some? {
        PositionsPastHeader(table, t);
        if positions[t].value < header.dataStart {
          return false;
        }
        var valid := ValidateTerm(table, positions[t].value, stateCount);
        if !valid {
          assert !TermWithin(TermAt(table, positions, t), stateCount);
          return false;
        }
      }
      t := t + 1;
    }
    return true;
  }

  method ValidateTerm(table: seq<Word>, start: nat, stateCount: nat) returns (ok: bool)
    ensures ok == match ReadGroups(table, start)
                  case BadGroups => false
                  case Groups(groups) => GroupsWithin(groups, stateCount)
  {
    hide ReadList, ReadGroups;
    var position := start;
    ghost var done: seq<Group> := [];
    while true
      invariant position <= |table| || done == []
      invariant GroupsWithin(done, stateCount)
      invariant match ReadGroups(table, position)
                case BadGroups => ReadGroups(table, start) == BadGroups
                case Groups(rest) => ReadGroups(table, start) == Groups(done + rest)
      decreases if position <= |table| then |table| - position else 0
    {
      ReadGroupsStep(table, position);
      if position + 1 >= |table| {
        return false;
      }
      var tag, target := table[position], table[position + 1];
      var list := DecodeGotoSources(table, position + 2, tag);
      ghost var g := if list.ListAt? then Group(target, list.sources) else Group(target, []);
      if target >= stateCount {
        OutOfRange(table, start, done, g, stateCount);
        return false;
      }
      if list.BadList? {
        return false;
      }
      var known := forall s <- list.sources :: s < stateCount;
      if !known {
        OutOfRange(table, start, done, g, stateCount);
        return false;
      }
      if tag % 2 == 1 {
        return true;
      }
      ghost var before := done;
      done := done + [g];
      position := list.end;
      assert forall rest: seq<Group> :: before + ([g] + rest) == done + rest;
    }
  }

  /** A group with an unknown state spoils the term it belongs to. */
  lemma OutOfRange(table: seq<Word>, start: nat, done: seq<Group>, g: Group, count: nat)
    requires g.target >= count || exists s :: s in g.sources && s >= count
    requires ReadGroups(table, start).Groups? ==>
               |ReadGroups(table, start).groups| > |done| && ReadGroups(table, start).groups[|done|] == g
    ensures ReadGroups(table, start).Groups? ==> !GroupsWithin(ReadGroups(table, start).groups, count)
  {
    hide ReadGroups;
  }

  /** A table written for known states passes validation. */
  lemma WrittenValid(table: seq<Word>, entries: seq<Entry>, count: nat)
    requires TableOf(table, entries)
    requires forall e <- entries :: e.source < count && e.target < count
    ensures ValidTable(table, count)
  {
    hide TermGroups, SourcesOf, MaxTerm, ReadHeader, AllStorable, TermAt;
    TableHeader(table, entries);
    forall t: nat | t < |ReadHeader(table).positions|
      ensures TermWithin(TermAt(table, ReadHeader(table).positions, t), count)
    {
      TermEntry(table, entries, t);
      forall g <- TermGroups(entries, t) ensures g.target < count && forall s <- g.sources :: s < count {
        TermGroupsMember(entries, t, g);
        SourcesMember(entries, t, g.target, g.sources[0]);
        forall s <- g.sources ensures s < count { SourcesMember(entries, t, g.target, s); }
      }
    }
  }
}
