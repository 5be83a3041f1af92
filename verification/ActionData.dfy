/** Rows of encoded actions in the shared state data, and chains of rows. */
module ActionData {
  import opened Options
  import opened Varint
  import opened GotoTable

  const END: nat := 0xFFFF
  const DONE: nat := 0
  const NEXT: nat := 1
  const OTHER: nat := 2
  const U32: nat := 0x1_0000_0000

  datatype Entry = Entry(term: Word, action: nat)

  /** How a row ends: nothing more, another row, or an action for every other
      term. */
  datatype Tail = Done | Next(offset: nat) | Other(action: nat)

  datatype RowRead = Row(entries: seq<Entry>, tail: Tail) | BadRow

  function PairWords(value: nat): seq<Word>
    requires value < U32
  {
    [value % 0x1_0000, value / 0x1_0000]
  }

  function Pair(data: seq<Word>, at: nat): nat
    requires at + 1 < |data|
  {
    var low: nat, high: nat := data[at], data[at + 1];
    low + 0x1_0000 * high
  }

  lemma PairBack(data: seq<Word>, at: nat, value: nat)
    requires value < U32 && OccursAt(data, at, PairWords(value))
    ensures Pair(data, at) == value
  {
    assert data[at] == data[at..at + 2][0] == value % 0x1_0000;
    assert data[at + 1] == data[at..at + 2][1] == value / 0x1_0000;
  }

  // ---- writing and reading a row ------------------------------------------

  predicate SoundEntries(entries: seq<Entry>) {
    forall e <- entries :: e.term != END && 0 < e.action < U32
  }

  predicate SoundTail(tail: Tail) {
    match tail
    case Done => true
    case Next(offset) => offset < U32
    case Other(action) => 0 < action < U32
  }

  function EntryWords(entries: seq<Entry>): seq<Word>
    requires SoundEntries(entries)
  {
    if entries == [] then []
    else
      assert entries[0] in entries;
      [entries[0].term] + PairWords(entries[0].action) + EntryWords(entries[1..])
  }

  function TailWords(tail: Tail): seq<Word>
    requires SoundTail(tail)
  {
    match tail
    case Done => [DONE]
    case Next(offset) => [NEXT] + PairWords(offset)
    case Other(action) => [OTHER] + PairWords(action)
  }

  function RowWords(entries: seq<Entry>, tail: Tail): seq<Word>
    requires SoundEntries(entries) && SoundTail(tail)
  {
    EntryWords(entries) + ([END] + TailWords(tail))
  }

  /** The end of a row, from the word after its end mark. */
  function ReadTail(data: seq<Word>, at: nat): Option<Tail> {
    if at >= |data| then None
    else if data[at] == DONE then Some(Done)
    else if (data[at] != NEXT && data[at] != OTHER) || at + 2 >= |data| then None
    else if data[at] == NEXT then Some(Next(Pair(data, at + 1)))
    else if Pair(data, at + 1) == 0 then None
    else Some(Other(Pair(data, at + 1)))
  }

  function ReadRow(data: seq<Word>, offset: nat): RowRead
    decreases |data| - offset
  {
    if offset >= |data| then BadRow
    else if data[offset] == END then
      match ReadTail(data, offset + 1)
      case None => BadRow
      case Some(tail) => Row([], tail)
    else if offset + 2 >= |data| || Pair(data, offset + 1) == 0 then BadRow
    else
      match ReadRow(data, offset + 3)
      case BadRow => BadRow
      case Row(rest, tail) => Row([Entry(data[offset], Pair(data, offset + 1))] + rest, tail)
  }

  lemma OccursPart(data: seq<Word>, at: nat, a: seq<Word>, b: seq<Word>)
    requires OccursAt(data, at, a + b)
    ensures OccursAt(data, at, a) && OccursAt(data, at + |a|, b)
  {
    assert data[at..at + |a|] == (a + b)[..|a|] == a;
    assert data[at + |a|..at + |a| + |b|] == (a + b)[|a|..] == b;
  }

  lemma TailReadBack(data: seq<Word>, at: nat, tail: Tail)
    requires SoundTail(tail) && OccursAt(data, at, TailWords(tail))
    ensures ReadTail(data, at) == Some(tail)
  {
    assert data[at] == data[at..at + |TailWords(tail)|][0] == TailWords(tail)[0];
    match tail
    case Done =>
    case Next(offset) =>
      OccursPart(data, at, [NEXT], PairWords(offset));
      PairBack(data, at + 1, offset);
    case Other(action) =>
      OccursPart(data, at, [OTHER], PairWords(action));
      PairBack(data, at + 1, action);
  }

  /** A row reads back as written wherever its words occur. */
  lemma {:induction false} RowReadBack(data: seq<Word>, at: nat, entries: seq<Entry>, tail: Tail)
    requires SoundEntries(entries) && SoundTail(tail)
    requires OccursAt(data, at, RowWords(entries, tail))
    ensures ReadRow(data, at) == Row(entries, tail)
    decreases |entries|
  {
    hide OccursAt, ReadRow, RowWords;
    if entries == [] {
      EmptyRowReadBack(data, at, tail);
    } else {
      RowSplits(entries, tail);
      EntryReadBack(data, at, entries[0], RowWords(entries[1..], tail));
      RowReadBack(data, at + 3, entries[1..], tail);
      ReadRowEntry(data, at);
      assert entries == [entries[0]] + entries[1..];
    }
  }

  lemma EmptyRowReadBack(data: seq<Word>, at: nat, tail: Tail)
    requires SoundTail(tail) && OccursAt(data, at, RowWords([], tail))
    ensures ReadRow(data, at) == Row([], tail)
  {
    hide OccursAt;
    assert RowWords([], tail) == [END] + TailWords(tail);
    OccursPart(data, at, [END], TailWords(tail));
    TailReadBack(data, at + 1, tail);
    OccursFirst(data, at, END, []);
  }

  lemma RowSplits(entries: seq<Entry>, tail: Tail)
    requires SoundEntries(entries) && SoundTail(tail) && entries != []
    ensures SoundEntries(entries[1..]) && entries[0].term != END && 0 < entries[0].action < U32
    ensures RowWords(entries, tail)
         == [entries[0].term] + (PairWords(entries[0].action) + RowWords(entries[1..], tail))
  {
    assert entries[0] in entries;
  }

  lemma EntryReadBack(data: seq<Word>, at: nat, first: Entry, rest: seq<Word>)
    requires first.action < U32 && OccursAt(data, at, [first.term] + (PairWords(first.action) + rest))
    ensures at + 2 < |data| && data[at] == first.term && Pair(data, at + 1) == first.action
    ensures OccursAt(data, at + 3, rest)
  {
    hide OccursAt, Pair;
    var pair := PairWords(first.action);
    OccursPart(data, at, [first.term], pair + rest);
    OccursPart(data, at + 1, pair, rest);
    OccursFirst(data, at, first.term, []);
    OccursFirst(data, at + 1, pair[0], pair[1..]);
    PairBack(data, at + 1, first.action);
  }

  lemma ReadRowEntry(data: seq<Word>, at: nat)
    requires at + 2 < |data| && data[at] != END && Pair(data, at + 1) != 0
    ensures ReadRow(data, at) ==
      match ReadRow(data, at + 3)
      case BadRow => BadRow
      case Row(rest, tail) => Row([Entry(data[at], Pair(data, at + 1))] + rest, tail)
  {}

  lemma OccursFirst(data: seq<Word>, at: nat, first: Word, rest: seq<Word>)
    requires OccursAt(data, at, [first] + rest)
    ensures at + |rest| < |data| && data[at] == first
  {
    assert data[at] == data[at..at + 1 + |rest|][0];
  }

  method DecodeRow(data: seq<Word>, offset: nat) returns (row: RowRead)
    ensures row == ReadRow(data, offset)
  {
    hide Pair, ReadTail;
    var entries: seq<Entry> := [];
    var index := offset;
    while true
      invariant match ReadRow(data, index)
                case BadRow => ReadRow(data, offset) == BadRow
                case Row(rest, tail) => ReadRow(data, offset) == Row(entries + rest, tail)
      decreases |data| - index
    {
      if index >= |data| {
        return BadRow;
      }
      var term := data[index];
      if term == END {
        var tail := DecodeTail(data, index + 1);
        return if tail.Some? then Row(entries, tail.value) else BadRow;
      }
      if index + 2 >= |data| {
        return BadRow;
      }
      var action := Pair(data, index + 1);
      if action == 0 {
        return BadRow;
      }
      ghost var before := entries;
      entries := entries + [Entry(term, action)];
      assert forall rest: seq<Entry> :: before + ([Entry(term, action)] + rest) == entries + rest;
      index := index + 3;
    }
  }

  method DecodeTail(data: seq<Word>, at: nat) returns (tail: Option<Tail>)
    ensures tail == ReadTail(data, at)
  {
    if at >= |data| {
      return None;
    }
    var code := data[at];
    if code == DONE {
      return Some(Done);
    } else if code == NEXT {
      return if at + 2 >= |data| then None else Some(Next(Pair(data, at + 1)));
    } else if code == OTHER {
      if at + 2 >= |data| {
        return None;
      }
      var fallback := Pair(data, at + 1);
      return if fallback == 0 then None else Some(Other(fallback));
    }
    return None;
  }

  // ---- chains of rows -----------------------------------------------------

  /** The chain of rows from an offset ends within `fuel` more rows. */
  predicate Ends(data: seq<Word>, offset: nat, fuel: nat)
    decreases fuel
  {
    match ReadRow(data, offset)
    case BadRow => false
    case Row(_, Next(next)) => fuel > 0 && Ends(data, next, fuel - 1)
    case Row(_, _) => true
  }

  lemma {:induction false} EndsMore(data: seq<Word>, offset: nat, fuel: nat, more: nat)
    requires Ends(data, offset, fuel) && fuel <= more
    ensures Ends(data, offset, more)
    decreases fuel
  {
    hide ReadRow;
    var row := ReadRow(data, offset);
    if row.tail.Next? { EndsMore(data, row.tail.offset, fuel - 1, more - 1); }
  }

  /** All entries along a chain, in order. */
  function ChainEntries(data: seq<Word>, offset: nat, fuel: nat): seq<Entry>
    requires Ends(data, offset, fuel)
    decreases fuel
  {
    var row := ReadRow(data, offset);
    row.entries + if row.tail.Next? then ChainEntries(data, row.tail.offset, fuel - 1) else []
  }

  /** The action for terms without an entry, zero when there is none. */
  function ChainFallback(data: seq<Word>, offset: nat, fuel: nat): nat
    requires Ends(data, offset, fuel)
    decreases fuel
  {
    match ReadRow(data, offset).tail
    case Done => 0
    case Other(action) => action
    case Next(next) => ChainFallback(data, next, fuel - 1)
  }

  const ERROR_TERM: nat := 0

  /** The first entry of a row for a term; an error entry answers any term. */
  function FirstOf(entries: seq<Entry>, term: Word): Option<nat> {
    if entries == [] then None
    else if entries[0].term == term || entries[0].term == ERROR_TERM then Some(entries[0].action)
    else FirstOf(entries[1..], term)
  }

  /** The first action for a term along a chain, in source order. */
  function PlainFirst(data: seq<Word>, offset: nat, term: Word, fuel: nat): nat
    requires Ends(data, offset, fuel)
  {
    match FirstOf(ChainEntries(data, offset, fuel), term)
    case Some(action) => action
    case None => ChainFallback(data, offset, fuel)
  }

  lemma {:induction false} FirstOfConcat(a: seq<Entry>, b: seq<Entry>, term: Word)
    ensures FirstOf(a + b, term) == if FirstOf(a, term).Some? then FirstOf(a, term) else FirstOf(b, term)
    decreases |a|
  {
    if a == [] {
      assert a + b == b;
    } else {
      assert (a + b)[1..] == a[1..] + b;
      FirstOfConcat(a[1..], b, term);
    }
  }

  /** Row by row: the entries of a row come before those of the next. */
  lemma PlainFirstStep(data: seq<Word>, offset: nat, term: Word, fuel: nat)
    requires Ends(data, offset, fuel)
    ensures var row := ReadRow(data, offset);
            PlainFirst(data, offset, term, fuel)
            == match FirstOf(row.entries, term)
               case Some(action) => action
               case None =>
                 match row.tail
                 case Done => 0
                 case Other(action) => action
                 case Next(next) => PlainFirst(data, next, term, fuel - 1)
  {
    hide ReadRow, FirstOf;
    var row := ReadRow(data, offset);
    if row.tail.Next? {
      FirstOfConcat(row.entries, ChainEntries(data, row.tail.offset, fuel - 1), term);
    } else {
      assert ChainEntries(data, offset, fuel) == row.entries;
    }
  }

  /** Data that grows at its end keeps every row that could be read. */
  lemma {:induction false} ReadRowLater(data: seq<Word>, longer: seq<Word>, offset: nat)
    requires data <= longer && ReadRow(data, offset).Row?
    ensures ReadRow(longer, offset) == ReadRow(data, offset)
    decreases |data| - offset
  {
    if data[offset] != END { ReadRowLater(data, longer, offset + 3); }
  }

  lemma {:induction false} ChainLater(data: seq<Word>, longer: seq<Word>, offset: nat, fuel: nat)
    requires data <= longer && Ends(data, offset, fuel)
    ensures Ends(longer, offset, fuel)
    ensures ChainEntries(longer, offset, fuel) == ChainEntries(data, offset, fuel)
    ensures ChainFallback(longer, offset, fuel) == ChainFallback(data, offset, fuel)
    ensures FullContinuations(longer, offset, fuel) == FullContinuations(data, offset, fuel)
    decreases fuel
  {
    hide ReadRow;
    ReadRowLater(data, longer, offset);
    var row := ReadRow(data, offset);
    if row.tail.Next? {
      ChainRowReads(data, row.tail.offset, fuel - 1);
      ReadRowLater(data, longer, row.tail.offset);
      ChainLater(data, longer, row.tail.offset, fuel - 1);
    }
  }

  lemma ChainRowReads(data: seq<Word>, offset: nat, fuel: nat)
    requires Ends(data, offset, fuel)
    ensures ReadRow(data, offset).Row?
  {}

  // ---- the raw walk -------------------------------------------------------

  predicate FilledRow(row: RowRead) {
    row.Row? && row.entries != []
  }

  /** No row that a chain continues with is empty. */
  predicate FullContinuations(data: seq<Word>, offset: nat, fuel: nat)
    requires Ends(data, offset, fuel)
    decreases fuel
  {
    match ReadRow(data, offset).tail
    case Next(next) =>
      FilledRow(ReadRow(data, next)) && FullContinuations(data, next, fuel - 1)
    case _ => true
  }

  function Actions(entries: seq<Entry>): seq<nat> {
    seq(|entries|, i requires 0 <= i < |entries| => entries[i].action)
  }
}
