/** The index a parser builds over its action rows, against a plain scan of the
    rows in source order. */
module ActionIndex {
  import opened Options
  import opened Varint
  import opened ActionData
  import opened ActionBlock
  import opened ActionRows

  datatype ActionRow = ActionRow(start: nat, filter: set<nat>, fallback: nat, length: nat, next: nat)

  /** All rows, ordered by offset, over shared arrays of sorted entries. */
  datatype Rows = Rows(
    offsets: seq<nat>,
    rows: seq<ActionRow>,
    terms: seq<Word>,
    actions: seq<nat>,
    orders: seq<nat>,
    errors: seq<ErrorEntry>)

  ghost predicate InBounds(x: Rows, row: ActionRow) {
    && |x.terms| == |x.actions| == |x.orders|
    && row.start + row.length <= |x.terms|
  }

  ghost function BlockOf(x: Rows, row: ActionRow): Block
    requires InBounds(x, row)
  {
    var end := row.start + row.length;
    Block(x.terms[row.start..end], x.actions[row.start..end], x.orders[row.start..end])
  }

  ghost predicate NextIndexed(offsets: seq<nat>, next: nat, tail: Tail) {
    if tail.Next? then next < |offsets| && next < NO_ROW && offsets[next] == tail.offset
    else next == NO_ROW
  }

  /** A row of the index holds the row of the data at its offset. */
  ghost predicate RowIndexed(x: Rows, row: ActionRow, error: ErrorEntry, read: RowRead) {
    && read.Row?
    && InBounds(x, row)
    && Sorts(BlockOf(x, row), read.entries)
    && row.filter == TermFilter(read.entries)
    && row.fallback == (if read.tail.Other? then read.tail.action else 0)
    && NextIndexed(x.offsets, row.next, read.tail)
    && FirstError(read.entries, error)
  }

  ghost predicate Indexed(x: Rows, data: seq<Word>) {
    && |x.rows| == |x.errors| <= |x.offsets|
    && |x.terms| == |x.actions| == |x.orders|
    && forall r {:trigger x.rows[r]} :: 0 <= r < |x.rows| ==>
         RowIndexed(x, x.rows[r], x.errors[r], ReadRow(data, x.offsets[r]))
  }

  // ---- lookups ------------------------------------------------------------

  /** Where a row's first entry for a term is. */
  method FirstTerminalIndex(x: Rows, row: ActionRow, term: Word, ghost entries: seq<Entry>)
    returns (index: Option<nat>)
    requires InBounds(x, row) && Sorts(BlockOf(x, row), entries) && row.filter == TermFilter(entries)
    ensures index.None? ==> forall e <- entries :: e.term != term
    ensures index.Some? ==> index.value < |x.terms| && x.orders[index.value] < |entries|
    ensures index.Some? ==> entries[x.orders[index.value]] == Entry(term, x.actions[index.value])
    ensures index.Some? ==> forall o: nat :: o < x.orders[index.value] ==> entries[o].term != term
  {
    hide Sorts, TermFilter;
    ghost var b := BlockOf(x, row);
    if term % 32 !in row.filter {
      FilterPasses(entries, term, b);
      NoPlace(b, entries, term);
      return None;
    }
    SortsAscending(b, entries);
    SortsLength(b, entries);
    var found := FirstTerminal(x.terms[row.start..row.start + row.length], term);
    if found.None? {
      NoPlace(b, entries, term);
      return None;
    }
    FirstPlace(b, entries, term, found.value);
    return Some(row.start + found.value);
  }

  /** The answer of one row when some row has error entries: the error entry, if
      it comes first. */
  method RowWithErrors(x: Rows, row: ActionRow, error: ErrorEntry, term: Word, ghost read: RowRead)
    returns (action: Option<nat>)
    requires RowIndexed(x, row, error, read)
    ensures action == FirstOf(read.entries, term)
  {
    hide Sorts, TermFilter, FirstOf, BlockOf;
    var terminal := FirstTerminalIndex(x, row, term, read.entries);
    if error.order != NO_ENTRY {
      if terminal.None? || error.order <= x.orders[terminal.value] {
        FirstOfAt(read.entries, term, error.order);
        return Some(error.action);
      }
    }
    if terminal.Some? {
      FirstOfAt(read.entries, term, x.orders[terminal.value]);
      return Some(x.actions[terminal.value]);
    }
    FirstOfNone(read.entries, term);
    return None;
  }

  method RowWithoutErrors(x: Rows, row: ActionRow, term: Word, ghost error: ErrorEntry, ghost read: RowRead)
    returns (action: Option<nat>)
    requires RowIndexed(x, row, error, read) && error.order == NO_ENTRY
    ensures action == FirstOf(read.entries, term)
  {
    hide Sorts, TermFilter, FirstOf, BlockOf;
    var terminal := FirstTerminalIndex(x, row, term, read.entries);
    if terminal.Some? {
      FirstOfAt(read.entries, term, x.orders[terminal.value]);
      return Some(x.actions[terminal.value]);
    }
    FirstOfNone(read.entries, term);
    return None;
  }

  ghost predicate NoErrors(x: Rows) {
    forall e <- x.errors :: e.order == NO_ENTRY
  }

  /** The first action of a chain: the plain scan, despite filter, sorting and
      search. */
  method First(x: Rows, hasErrors: bool, rowId: nat, term: Word, ghost data: seq<Word>, ghost fuel: nat)
    returns (action: nat)
    requires Indexed(x, data) && |x.rows| == |x.offsets| && rowId < |x.rows|
    requires !hasErrors ==> NoErrors(x)
    requires Ends(data, x.offsets[rowId], fuel)
    ensures action == PlainFirst(data, x.offsets[rowId], term, fuel)
  {
    hide RowIndexed, ReadRow, FirstOf, PlainFirst, Ends;
    var id: nat := rowId;
    ghost var left := fuel;
    while true
      invariant id < |x.rows| && Ends(data, x.offsets[id], left)
      invariant PlainFirst(data, x.offsets[rowId], term, fuel) == PlainFirst(data, x.offsets[id], term, left)
      decreases left
    {
      ghost var read := ReadRow(data, x.offsets[id]);
      var row := x.rows[id];
      assert RowIndexed(x, row, x.errors[id], read);
      PlainFirstStep(data, x.offsets[id], term, left);
      EndsStep(data, x.offsets[id], left);
      RowLinks(x, row, x.errors[id], read);
      var found;
      if hasErrors {
        found := RowWithErrors(x, row, x.errors[id], term, read);
      } else {
        assert x.errors[id] in x.errors;
        found := RowWithoutErrors(x, row, term, x.errors[id], read);
      }
      if found.Some? {
        return found.value;
      }
      if row.next == NO_ROW {
        return row.fallback;
      }
      id := row.next;
      left := left - 1;
    }
  }

  lemma EndsStep(data: seq<Word>, offset: nat, fuel: nat)
    requires Ends(data, offset, fuel)
    ensures var read := ReadRow(data, offset);
            read.Row? && (read.tail.Next? ==> fuel > 0 && Ends(data, read.tail.offset, fuel - 1))
  {}

  lemma RowLinks(x: Rows, row: ActionRow, error: ErrorEntry, read: RowRead)
    requires RowIndexed(x, row, error, read)
    ensures read.Row?
    ensures row.fallback == if read.tail.Other? then read.tail.action else 0
    ensures NextIndexed(x.offsets, row.next, read.tail)
  {}

  /** All actions of a term along a chain, in source order, and the fallback. */
  method VisitRow(x: Rows, rowId: nat, term: Word, ghost data: seq<Word>, ghost fuel: nat)
    returns (visited: seq<nat>, fallback: Option<nat>)
    requires Indexed(x, data) && |x.rows| == |x.offsets| && rowId < |x.rows|
    requires Ends(data, x.offsets[rowId], fuel)
    ensures visited == ActionsOn(ChainEntries(data, x.offsets[rowId], fuel), term)
    ensures fallback == var action := ChainFallback(data, x.offsets[rowId], fuel);
                        if action == 0 then None else Some(action)
  {
    hide RowIndexed, ReadRow, Ends, ActionsOn, ChainEntries, ChainFallback;
    var id: nat := rowId;
    visited := [];
    ghost var left := fuel;
    while true
      invariant id < |x.rows| && Ends(data, x.offsets[id], left)
      invariant visited + ActionsOn(ChainEntries(data, x.offsets[id], left), term)
             == ActionsOn(ChainEntries(data, x.offsets[rowId], fuel), term)
      invariant ChainFallback(data, x.offsets[rowId], fuel) == ChainFallback(data, x.offsets[id], left)
      decreases left
    {
      ghost var read := ReadRow(data, x.offsets[id]);
      var row := x.rows[id];
      assert RowIndexed(x, row, x.errors[id], read);
      VisitStep(data, x.offsets[id], term, left);
      RowLinks(x, row, x.errors[id], read);
      var here := VisitOneRow(x, row, term, x.errors[id], read);
      visited := visited + here;
      if row.next == NO_ROW {
        assert visited + [] == visited;
        return visited, if row.fallback == 0 then None else Some(row.fallback);
      }
      id := row.next;
      left := left - 1;
    }
  }

  method VisitOneRow(x: Rows, row: ActionRow, term: Word, ghost error: ErrorEntry, ghost read: RowRead)
    returns (visited: seq<nat>)
    requires RowIndexed(x, row, error, read)
    ensures visited == ActionsOn(read.entries, term)
  {
    hide Sorts, TermFilter, ActionsOn;
    var end := row.start + row.length;
    var b := Block(x.terms[row.start..end], x.actions[row.start..end], x.orders[row.start..end]);
    if term % 32 !in row.filter {
      FilterPasses(read.entries, term, b);
      NothingVisited(b, read.entries, term);
      return [];
    }
    visited := VisitTerm(b, term, read.entries);
  }

  lemma VisitStep(data: seq<Word>, offset: nat, term: Word, fuel: nat)
    requires Ends(data, offset, fuel)
    ensures var read := ReadRow(data, offset);
            && read.Row?
            && (read.tail.Next? ==>
                  && fuel > 0 && Ends(data, read.tail.offset, fuel - 1)
                  && ActionsOn(ChainEntries(data, offset, fuel), term)
                     == ActionsOn(read.entries, term)
                        + ActionsOn(ChainEntries(data, read.tail.offset, fuel - 1), term)
                  && ChainFallback(data, offset, fuel) == ChainFallback(data, read.tail.offset, fuel - 1))
            && (!read.tail.Next? ==>
                  && ActionsOn(ChainEntries(data, offset, fuel), term) == ActionsOn(read.entries, term)
                  && ChainFallback(data, offset, fuel) == if read.tail.Other? then read.tail.action else 0)
  {
    hide ReadRow, ActionsOn;
    var read := ReadRow(data, offset);
    if read.tail.Next? {
      ActionsOnConcat(read.entries, ChainEntries(data, read.tail.offset, fuel - 1), term);
    } else {
      assert ChainEntries(data, offset, fuel) == read.entries;
    }
  }

  // ---- rows ---------------------------------------------------------------

  ghost predicate LongRow(data: seq<Word>, roots: seq<nat>, offset: nat) {
    && Reached(data, roots, offset)
    && ReadRow(data, offset).Row?
    && |ReadRow(data, offset).entries| > 0xFFFF
  }

  ghost predicate ManyRows(data: seq<Word>, roots: seq<nat>, offsets: seq<nat>) {
    && |offsets| > NO_ROW
    && (forall i, j :: 0 <= i < j < |offsets| ==> offsets[i] != offsets[j])
    && forall o <- offsets :: Reached(data, roots, o)
  }

  ghost predicate ChainEnds(data: seq<Word>, offset: nat) {
    exists fuel: nat :: Ends(data, offset, fuel)
  }

  ghost predicate EndlessChain(data: seq<Word>, roots: seq<nat>, offset: nat) {
    Reached(data, roots, offset) && !ChainEnds(data, offset)
  }

  /** Why an index can be refused; there is no other reason. */
  ghost predicate Refused(data: seq<Word>, roots: seq<nat>) {
    || (exists o: nat :: BadReached(data, roots, o))
    || (exists o: nat :: LongRow(data, roots, o))
    || (exists offsets: seq<nat> :: ManyRows(data, roots, offsets))
    || (exists o: nat :: EndlessChain(data, roots, o))
  }

  /** The decoded rows in offset order, with the offsets listed beside them. */
  ghost predicate Ordered(data: seq<Word>, roots: seq<nat>, offsets: seq<nat>, rows: seq<Decoded>) {
    && |rows| == |offsets| && AscendingOffsets(offsets)
    && forall i {:trigger rows[i]} :: 0 <= i < |rows| ==>
         && rows[i] == (offsets[i], ReadRow(data, offsets[i]))
         && rows[i].1.Row?
         && Reached(data, roots, offsets[i])
         && (rows[i].1.tail.Next? ==> rows[i].1.tail.offset in offsets)
  }

  method OrderRows(ghost data: seq<Word>, ghost roots: seq<nat>, found: seq<nat>, rows: seq<Decoded>)
    returns (offsets: seq<nat>, sorted: seq<Decoded>)
    requires Followed(data, roots, found, rows) && |rows| == |found|
    requires forall i, j :: 0 <= i < j < |found| ==> found[i] != found[j]
    ensures Ordered(data, roots, offsets, sorted) && |offsets| == |found|
    ensures forall o <- found :: o in offsets
  {
    hide Reached, ReadRow;
    assert forall i {:trigger rows[i]} :: 0 <= i < |rows| ==> rows[i].0 == found[i];
    sorted := SortRows(rows);
    offsets := seq(|sorted|, i requires 0 <= i < |sorted| => sorted[i].0);
    forall o <- found ensures o in offsets {
      var i :| 0 <= i < |found| && found[i] == o;
      assert rows[i] in sorted;
      var k :| 0 <= k < |sorted| && sorted[k] == rows[i];
      assert offsets[k] == o;
    }
    forall i | 0 <= i < |sorted|
      ensures sorted[i] == (offsets[i], ReadRow(data, offsets[i])) && sorted[i].1.Row?
      ensures Reached(data, roots, offsets[i])
      ensures sorted[i].1.tail.Next? ==> sorted[i].1.tail.offset in offsets
    {
      assert sorted[i] in rows;
      var k :| 0 <= k < |rows| && rows[k] == sorted[i];
      assert found[k] in found;
      if rows[k].1.tail.Next? { assert InList(found, rows[k].1.tail.offset); }
    }
  }

  lemma AppendKeeps(x: Rows, y: Rows, row: ActionRow, error: ErrorEntry, read: RowRead)
    requires RowIndexed(x, row, error, read)
    requires y.offsets == x.offsets && |y.terms| == |y.actions| == |y.orders|
    requires x.terms <= y.terms && x.actions <= y.actions && x.orders <= y.orders
    ensures RowIndexed(y, row, error, read)
  {
    hide Sorts, TermFilter, FirstError;
    var end := row.start + row.length;
    assert x.terms[row.start..end] == y.terms[row.start..end];
    assert x.actions[row.start..end] == y.actions[row.start..end];
    assert x.orders[row.start..end] == y.orders[row.start..end];
  }

  /** Adds the row at the next offset; fails only on too many entries. */
  method AddRow(x: Rows, rows: seq<Decoded>, ghost data: seq<Word>, ghost roots: seq<nat>) returns (ok: bool, y: Rows)
    requires Ordered(data, roots, x.offsets, rows) && Indexed(x, data)
    requires |x.rows| < |rows| <= NO_ROW && |x.terms| <= 0xFFFF * |x.rows|
    ensures ok ==> Indexed(y, data) && y.offsets == x.offsets && |y.rows| == |x.rows| + 1
    ensures ok ==> |y.terms| <= 0xFFFF * |y.rows|
    ensures !ok ==> LongRow(data, roots, x.offsets[|x.rows|])
  {
    hide ReadRow, Reached, Sorts, TermFilter, FirstError;
    y := x;
    var read := rows[|x.rows|].1;
    var length := |read.entries|;
    if length > 0xFFFF {
      return false, y;
    }
    var filter := BuildTermFilter(read.entries);
    var error := FindErrorEntry(read.entries);
    var b := SortEntries(read.entries);
    SortsLength(b, read.entries);
    var start := |x.terms|;
    var next := NO_ROW;
    if read.tail.Next? {
      var id := RowId(x.offsets, read.tail.offset);
      next := id.value;
    }
    var row := ActionRow(start, filter, if read.tail.Other? then read.tail.action else 0, length, next);
    y := Rows(x.offsets, x.rows + [row], x.terms + b.terms, x.actions + b.actions, x.orders + b.orders,
              x.errors + [error]);
    assert y.terms[start..start + length] == b.terms;
    assert y.actions[start..start + length] == b.actions;
    assert y.orders[start..start + length] == b.orders;
    assert RowIndexed(y, row, error, read);
    IndexedNext(x, y, data, row, error);
    return true, y;
  }

  lemma IndexedNext(x: Rows, y: Rows, data: seq<Word>, row: ActionRow, error: ErrorEntry)
    requires Indexed(x, data) && |x.rows| < |x.offsets| && y.offsets == x.offsets
    requires y.rows == x.rows + [row] && y.errors == x.errors + [error]
    requires |y.terms| == |y.actions| == |y.orders|
    requires x.terms <= y.terms && x.actions <= y.actions && x.orders <= y.orders
    requires RowIndexed(y, row, error, ReadRow(data, x.offsets[|x.rows|]))
    ensures Indexed(y, data)
  {
    hide ReadRow, RowIndexed;
    forall r {:trigger y.rows[r]} | 0 <= r < |y.rows|
      ensures RowIndexed(y, y.rows[r], y.errors[r], ReadRow(data, y.offsets[r]))
    {
      if r < |x.rows| {
        assert y.rows[r] == x.rows[r] && y.errors[r] == x.errors[r];
        AppendKeeps(x, y, x.rows[r], x.errors[r], ReadRow(data, x.offsets[r]));
      }
    }
  }

  method BuildRows(offsets: seq<nat>, rows: seq<Decoded>, ghost data: seq<Word>, ghost roots: seq<nat>)
    returns (ok: bool, x: Rows)
    requires Ordered(data, roots, offsets, rows) && |rows| <= NO_ROW
    ensures ok ==> Indexed(x, data) && x.offsets == offsets && |x.rows| == |offsets|
    ensures !ok ==> exists o: nat :: LongRow(data, roots, o)
  {
    hide Ordered, Indexed, LongRow;
    x := Rows(offsets, [], [], [], [], []);
    assert Indexed(x, data) by { NothingIndexed(x, data); }
    OrderedLength(data, roots, offsets, rows);
    while |x.rows| < |rows|
      invariant Indexed(x, data) && x.offsets == offsets && |x.rows| <= |rows|
      invariant |x.terms| <= 0xFFFF * |x.rows|
      decreases |rows| - |x.rows|
    {
      ghost var offset := offsets[|x.rows|];
      ok, x := AddRow(x, rows, data, roots);
      if !ok {
        assert LongRow(data, roots, offset);
        return;
      }
    }
    ok := true;
  }

  lemma NothingIndexed(x: Rows, data: seq<Word>)
    requires x == Rows(x.offsets, [], [], [], [], [])
    ensures Indexed(x, data)
  {}

  lemma OrderedLength(data: seq<Word>, roots: seq<nat>, offsets: seq<nat>, rows: seq<Decoded>)
    requires Ordered(data, roots, offsets, rows)
    ensures |rows| == |offsets|
  {}

  // ---- chains -------------------------------------------------------------

  function Nexts(x: Rows): seq<nat> {
    seq(|x.rows|, i requires 0 <= i < |x.rows| => x.rows[i].next)
  }

  /** Links between row numbers are the links between the rows of the data. */
  lemma {:induction false} LinksAgree(x: Rows, data: seq<Word>, r: nat, fuel: nat)
    requires Indexed(x, data) && |x.rows| == |x.offsets| && r < |x.rows|
    ensures EndsFrom(Nexts(x), r, fuel) <==> Ends(data, x.offsets[r], fuel)
    decreases fuel
  {
    hide ReadRow, RowIndexed;
    var read := ReadRow(data, x.offsets[r]);
    assert RowIndexed(x, x.rows[r], x.errors[r], read);
    RowLinks(x, x.rows[r], x.errors[r], read);
    if read.tail.Next? && fuel > 0 { LinksAgree(x, data, x.rows[r].next, fuel - 1); }
  }

  ghost predicate AllEnd(x: Rows, data: seq<Word>) {
    forall r {:trigger x.offsets[r]} :: 0 <= r < |x.offsets| ==> ChainEnds(data, x.offsets[r])
  }

  lemma NextsInside(x: Rows, data: seq<Word>)
    requires Indexed(x, data) && |x.rows| == |x.offsets|
    ensures LinksInside(Nexts(x))
  {
    hide ReadRow, RowIndexed;
    forall r | 0 <= r < |x.rows| ensures Nexts(x)[r] == NO_ROW || Nexts(x)[r] < |x.rows| {
      assert RowIndexed(x, x.rows[r], x.errors[r], ReadRow(data, x.offsets[r]));
      RowLinks(x, x.rows[r], x.errors[r], ReadRow(data, x.offsets[r]));
    }
  }

  /** Refuses exactly the rows of which some chain never ends. */
  method CheckChains(x: Rows, ghost data: seq<Word>) returns (ok: bool)
    requires Indexed(x, data) && |x.rows| == |x.offsets| <= NO_ROW
    ensures ok ==> AllEnd(x, data)
    ensures !ok ==> exists r: nat :: r < |x.offsets| && !ChainEnds(data, x.offsets[r])
  {
    hide Indexed, ChainEnds, Terminates;
    NextsInside(x, data);
    ok := RejectCycles(Nexts(x));
    forall r: nat | r < |x.offsets| ensures Terminates(Nexts(x), r) <==> ChainEnds(data, x.offsets[r]) {
      ChainsAgree(x, data, r);
    }
  }

  lemma ChainsAgree(x: Rows, data: seq<Word>, r: nat)
    requires Indexed(x, data) && |x.rows| == |x.offsets| && r < |x.rows|
    ensures Terminates(Nexts(x), r) <==> ChainEnds(data, x.offsets[r])
  {
    hide Indexed, Ends, EndsFrom;
    forall fuel: nat ensures EndsFrom(Nexts(x), r, fuel) <==> Ends(data, x.offsets[r], fuel) {
      LinksAgree(x, data, r, fuel);
    }
  }

  // ---- the skip filter ----------------------------------------------------

  const WORD_BITS: nat := 64

  /** The bit of a term in a list of 64-bit words, each the set of its bits. */
  predicate HasBit(words: seq<set<nat>>, term: Word) {
    term / WORD_BITS < |words| && term % WORD_BITS in words[term / WORD_BITS]
  }

  method FilterWords(terms: seq<Word>) returns (words: seq<set<nat>>)
    ensures forall t: Word :: HasBit(words, t) <==> t in terms
  {
    var count: nat := 0;
    for i := 0 to |terms|
      invariant forall j :: 0 <= j < i ==> terms[j] / WORD_BITS < count
    {
      if terms[i] / WORD_BITS >= count {
        count := terms[i] / WORD_BITS + 1;
      }
    }
    words := seq(count, _ => {});
    for i := 0 to |terms|
      invariant |words| == count
      invariant forall t: Word :: HasBit(words, t) <==> t in terms[..i]
    {
      ghost var before := words;
      var word, bit := terms[i] / WORD_BITS, terms[i] % WORD_BITS;
      words := words[word := words[word] + {bit}];
      assert terms[..i + 1] == terms[..i] + [terms[i]];
      forall t: Word ensures HasBit(words, t) <==> HasBit(before, t) || t == terms[i] {
        if t / WORD_BITS == word && t % WORD_BITS == bit { SameBit(t, terms[i]); }
      }
    }
    assert terms[..|terms|] == terms;
  }

  lemma SameBit(a: Word, b: Word)
    requires a / WORD_BITS == b / WORD_BITS && a % WORD_BITS == b % WORD_BITS
    ensures a == b
  {}

  datatype Collected = Collected(terms: seq<Word>, catchAll: bool)

  /** What one row contributes to the filter. */
  ghost predicate RowCollected(x: Rows, r: nat, c: Collected)
    requires r < |x.rows| == |x.errors|
  {
    && InBounds(x, x.rows[r])
    && (forall t <- BlockOf(x, x.rows[r]).terms :: t in c.terms)
    && (x.errors[r].order != NO_ENTRY || x.rows[r].fallback != 0 ==> c.catchAll)
  }

  ghost predicate LinkVisited(x: Rows, visited: seq<bool>, r: nat, pending: nat)
    requires r < |x.rows|
  {
    var next := x.rows[r].next;
    next == NO_ROW || next == pending || (next < |visited| && visited[next])
  }

  /** Visited rows are collected, and so are those they lead to, except the one
      about to be visited. */
  ghost predicate Walked(x: Rows, visited: seq<bool>, c: Collected, pending: nat) {
    && |visited| == |x.rows| == |x.errors|
    && forall r: nat :: r < |visited| && visited[r] ==> RowCollected(x, r, c) && LinkVisited(x, visited, r, pending)
  }

  /** A chain of visited rows has no action for a term that the filter lacks. */
  lemma {:induction false} QuietChain(x: Rows, data: seq<Word>, visited: seq<bool>, c: Collected, r: nat, term: Word, fuel: nat)
    requires Indexed(x, data) && |x.rows| == |x.offsets| && r < |x.rows|
    requires Walked(x, visited, c, NO_ROW) && |visited| == |x.rows| && visited[r]
    requires !c.catchAll && term !in c.terms && Ends(data, x.offsets[r], fuel)
    ensures PlainFirst(data, x.offsets[r], term, fuel) == 0
    decreases fuel
  {
    hide ReadRow, RowIndexed, PlainFirst, Ends, FirstOf, Walked, Indexed, RowCollected;
    var read := ReadRow(data, x.offsets[r]);
    IndexedRow(x, data, r);
    WalkedRow(x, visited, c, r);
    PlainFirstStep(data, x.offsets[r], term, fuel);
    EndsStep(data, x.offsets[r], fuel);
    QuietRow(x, r, c, read, term);
    RowLinks(x, x.rows[r], x.errors[r], read);
    if read.tail.Next? { QuietChain(x, data, visited, c, x.rows[r].next, term, fuel - 1); }
  }

  lemma IndexedRow(x: Rows, data: seq<Word>, r: nat)
    requires Indexed(x, data) && |x.rows| == |x.offsets| && r < |x.rows|
    ensures |x.errors| == |x.rows| && RowIndexed(x, x.rows[r], x.errors[r], ReadRow(data, x.offsets[r]))
  {
    hide RowIndexed, ReadRow;
    assert RowIndexed(x, x.rows[r], x.errors[r], ReadRow(data, x.offsets[r]));
  }

  lemma WalkedRow(x: Rows, visited: seq<bool>, c: Collected, r: nat)
    requires Walked(x, visited, c, NO_ROW) && r < |visited| && visited[r]
    ensures |visited| == |x.rows| == |x.errors| && RowCollected(x, r, c)
    ensures x.rows[r].next == NO_ROW || (x.rows[r].next < |visited| && visited[x.rows[r].next])
  {
    hide RowCollected;
  }

  lemma QuietRow(x: Rows, r: nat, c: Collected, read: RowRead, term: Word)
    requires r < |x.rows| == |x.errors| && RowIndexed(x, x.rows[r], x.errors[r], read)
    requires RowCollected(x, r, c) && !c.catchAll && term !in c.terms
    ensures FirstOf(read.entries, term) == None
    ensures read.tail.Other? ==> read.tail.action == 0
  {
    hide Sorts, FirstOf;
    NoPlace(BlockOf(x, x.rows[r]), read.entries, term);
    FirstOfNone(read.entries, term);
  }

  /** Follows the skip rows of one state. */
  method WalkSkip(x: Rows, start: nat, visited: seq<bool>, c: Collected, ghost data: seq<Word>)
    returns (now: seq<bool>, d: Collected)
    requires Indexed(x, data) && |x.rows| == |x.offsets| && start < |x.rows|
    requires Walked(x, visited, c, NO_ROW)
    ensures Walked(x, now, d, NO_ROW) && now[start]
    ensures forall r: nat :: r < |visited| && visited[r] ==> now[r]
  {
    hide ReadRow, RowIndexed, RowCollected;
    now, d := visited, c;
    var current: nat := start;
    ghost var left := set r: nat | r < |visited| && !visited[r];
    while !now[current]
      invariant current < |now| && Walked(x, now, d, current)
      invariant current == start || now[start]
      invariant forall r: nat :: r < |visited| && visited[r] ==> now[r]
      invariant forall r: nat :: r < |now| && !now[r] ==> r in left
      decreases |left|
    {
      var row, error := x.rows[current], x.errors[current];
      assert RowIndexed(x, row, error, ReadRow(data, x.offsets[current]));
      BlockBounds(x, row, error, ReadRow(data, x.offsets[current]));
      var more := Collected(d.terms + x.terms[row.start..row.start + row.length],
                            d.catchAll || error.order != NO_ENTRY || row.fallback != 0);
      CollectsMore(x, now, d, more, current);
      now, d := now[current := true], more;
      left := left - {current};
      if row.next == NO_ROW {
        return;
      }
      current := row.next;
    }
    WalkEnds(x, now, d, current);
  }

  lemma BlockBounds(x: Rows, row: ActionRow, error: ErrorEntry, read: RowRead)
    requires RowIndexed(x, row, error, read)
    ensures InBounds(x, row) && (row.next == NO_ROW || row.next < |x.offsets|)
  {}

  lemma CollectsMore(x: Rows, visited: seq<bool>, c: Collected, d: Collected, current: nat)
    requires Walked(x, visited, c, current) && current < |x.rows| && InBounds(x, x.rows[current])
    requires d.terms == c.terms + BlockOf(x, x.rows[current]).terms
    requires d.catchAll == (c.catchAll || x.errors[current].order != NO_ENTRY || x.rows[current].fallback != 0)
    ensures Walked(x, visited[current := true], d, x.rows[current].next)
  {
    hide BlockOf, InBounds;
    var now := visited[current := true];
    forall r: nat | r < |now| && now[r]
      ensures RowCollected(x, r, d) && LinkVisited(x, now, r, x.rows[current].next)
    {
      if r != current { assert visited[r]; }
    }
  }

  lemma WalkEnds(x: Rows, visited: seq<bool>, c: Collected, current: nat)
    requires Walked(x, visited, c, current) && current < |visited| && visited[current]
    ensures Walked(x, visited, c, NO_ROW)
  {
    hide RowCollected;
  }

  // ---- the whole index ----------------------------------------------------

  /** The offsets of a state's own and skip actions in the data. */
  datatype StateSlots = StateSlots(actions: nat, skip: nat)

  datatype StateActions = StateActions(actionRow: nat, skipRow: nat)

  datatype Index = Index(
    x: Rows,
    states: seq<StateActions>,
    hasErrors: bool,
    skipTerms: seq<set<nat>>,
    skipHasCatchAll: bool)

  function Roots(slots: seq<StateSlots>): seq<nat> {
    if slots == [] then []
    else Roots(slots[..|slots| - 1]) + [slots[|slots| - 1].actions, slots[|slots| - 1].skip]
  }

  ghost predicate Rooted(x: Rows, state: StateActions, slots: StateSlots) {
    && state.actionRow < |x.offsets| && x.offsets[state.actionRow] == slots.actions
    && state.skipRow < |x.offsets| && x.offsets[state.skipRow] == slots.skip
  }

  ghost predicate AllRooted(x: Rows, states: seq<StateActions>, slots: seq<StateSlots>) {
    |states| <= |slots| && forall s {:trigger states[s]} :: 0 <= s < |states| ==> Rooted(x, states[s], slots[s])
  }

  /** Rows, chains and states of the index. */
  ghost predicate Sound(x: Rows, states: seq<StateActions>, slots: seq<StateSlots>, data: seq<Word>) {
    && Indexed(x, data) && |x.rows| == |x.offsets| <= NO_ROW
    && AllEnd(x, data)
    && AllRooted(x, states, slots) && |states| == |slots|
  }

  predicate MayMatch(skipTerms: seq<set<nat>>, catchAll: bool, term: Word) {
    catchAll || HasBit(skipTerms, term)
  }

  /** The filter has no false negatives: a term it lacks has no skip action in
      any state. */
  ghost predicate FilterSound(index: Index, data: seq<Word>, slots: seq<StateSlots>) {
    forall s: nat, term: Word, fuel: nat ::
      s < |slots| && !MayMatch(index.skipTerms, index.skipHasCatchAll, term) && Ends(data, slots[s].skip, fuel) ==>
      PlainFirst(data, slots[s].skip, term, fuel) == 0
  }

  ghost predicate Represents(index: Index, data: seq<Word>, slots: seq<StateSlots>) {
    && Sound(index.x, index.states, slots, data)
    && (!index.hasErrors ==> NoErrors(index.x))
    && FilterSound(index, data, slots)
  }

  method BuildSkipFilter(x: Rows, states: seq<StateActions>, ghost slots: seq<StateSlots>, ghost data: seq<Word>)
    returns (skipTerms: seq<set<nat>>, catchAll: bool)
    requires Sound(x, states, slots, data)
    ensures forall s: nat, term: Word, fuel: nat ::
              s < |slots| && !MayMatch(skipTerms, catchAll, term) && Ends(data, slots[s].skip, fuel) ==>
              PlainFirst(data, slots[s].skip, term, fuel) == 0
  {
    hide Indexed, Walked, PlainFirst, Ends, AllEnd, HasBit;
    var visited := seq(|x.rows|, _ => false);
    var c := Collected([], false);
    assert Walked(x, visited, c, NO_ROW) by { NothingWalked(x, data, visited, c); }
    var i: nat := 0;
    while i < |states|
      invariant i <= |states| && |visited| == |x.rows|
      invariant Walked(x, visited, c, NO_ROW)
      invariant forall s: nat :: s < i ==> visited[states[s].skipRow]
    {
      assert Rooted(x, states[i], slots[i]);
      ghost var before := visited;
      visited, c := WalkSkip(x, states[i].skipRow, visited, c, data);
      WalkedLength(x, visited, c);
      i := i + 1;
    }
    skipTerms := FilterWords(c.terms);
    catchAll := c.catchAll;
    forall s: nat, term: Word, fuel: nat |
      s < |slots| && !MayMatch(skipTerms, catchAll, term) && Ends(data, slots[s].skip, fuel)
      ensures PlainFirst(data, slots[s].skip, term, fuel) == 0
    {
      assert Rooted(x, states[s], slots[s]);
      QuietChain(x, data, visited, c, states[s].skipRow, term, fuel);
    }
  }

  lemma NothingWalked(x: Rows, data: seq<Word>, visited: seq<bool>, c: Collected)
    requires Indexed(x, data) && |visited| == |x.rows|
    requires forall r: nat :: r < |visited| ==> !visited[r]
    ensures Walked(x, visited, c, NO_ROW)
  {
    hide RowIndexed, ReadRow;
  }

  lemma WalkedLength(x: Rows, visited: seq<bool>, c: Collected)
    requires Walked(x, visited, c, NO_ROW)
    ensures |visited| == |x.rows|
  {}

  lemma {:induction false} RootsMember(slots: seq<StateSlots>, s: nat)
    requires s < |slots|
    ensures slots[s].actions in Roots(slots) && slots[s].skip in Roots(slots)
    decreases |slots|
  {
    var n := |slots| - 1;
    if s < n { RootsMember(slots[..n], s); }
  }

  method FindStates(x: Rows, slots: seq<StateSlots>) returns (states: seq<StateActions>)
    requires AscendingOffsets(x.offsets)
    requires forall o <- Roots(slots) :: o in x.offsets
    ensures AllRooted(x, states, slots) && |states| == |slots|
  {
    hide AscendingOffsets;
    states := [];
    for s := 0 to |slots|
      invariant |states| == s && AllRooted(x, states, slots)
    {
      RootsMember(slots, s);
      var action := RowId(x.offsets, slots[s].actions);
      var skip := RowId(x.offsets, slots[s].skip);
      states := states + [StateActions(action.value, skip.value)];
    }
  }

  method AnyErrors(x: Rows) returns (hasErrors: bool)
    ensures !hasErrors ==> NoErrors(x)
  {
    hasErrors := exists e :: e in x.errors && e.order != NO_ENTRY;
  }

  /** Builds the index over the rows that the states reach. Only a broken row, a
      row or a table that is too long, or an endless chain is refused. */
  method Build(data: seq<Word>, slots: seq<StateSlots>) returns (ok: bool, index: Index)
    ensures ok ==> Represents(index, data, slots)
    ensures !ok ==> Refused(data, Roots(slots))
  {
    hide Followed, Ordered, Indexed, BadReached, LongRow, ManyRows, EndlessChain, AllEnd, AllRooted;
    index := Index(Rows([], [], [], [], [], []), [], false, [], false);
    var roots := Roots(slots);
    var found, rows, offsets, x;
    ok, found, rows := CollectRows(data, roots);
    if !ok {
      return;
    }
    offsets, rows := OrderRows(data, roots, found, rows);
    OrderedLength(data, roots, offsets, rows);
    if |rows| > NO_ROW {
      TooMany(data, roots, offsets, rows);
      return false, index;
    }
    ok, x := BuildRows(offsets, rows, data, roots);
    if !ok {
      return;
    }
    ok := CheckChains(x, data);
    if !ok {
      ghost var r: nat :| r < |x.offsets| && !ChainEnds(data, x.offsets[r]);
      OrderedReached(data, roots, offsets, rows, r);
      return;
    }
    OrderedAscending(data, roots, offsets, rows);
    var states := FindStates(x, slots);
    var hasErrors := AnyErrors(x);
    var skipTerms, catchAll := BuildSkipFilter(x, states, slots, data);
    index := Index(x, states, hasErrors, skipTerms, catchAll);
  }

  lemma TooMany(data: seq<Word>, roots: seq<nat>, offsets: seq<nat>, rows: seq<Decoded>)
    requires Ordered(data, roots, offsets, rows) && |offsets| > NO_ROW
    ensures ManyRows(data, roots, offsets)
  {
    hide Reached, ReadRow;
    forall o <- offsets ensures Reached(data, roots, o) {
      var i :| 0 <= i < |offsets| && offsets[i] == o;
      assert rows[i] == rows[i];
    }
  }

  lemma OrderedReached(data: seq<Word>, roots: seq<nat>, offsets: seq<nat>, rows: seq<Decoded>, r: nat)
    requires Ordered(data, roots, offsets, rows) && r < |offsets| && !ChainEnds(data, offsets[r])
    ensures EndlessChain(data, roots, offsets[r])
  {
    hide Reached, ReadRow, ChainEnds;
    var row := rows[r];
  }

  lemma OrderedAscending(data: seq<Word>, roots: seq<nat>, offsets: seq<nat>, rows: seq<Decoded>)
    requires Ordered(data, roots, offsets, rows)
    ensures AscendingOffsets(offsets)
  {}

  // ---- actions of a state -------------------------------------------------

  method SkipMayMatch(index: Index, term: Word) returns (may: bool)
    ensures may == MayMatch(index.skipTerms, index.skipHasCatchAll, term)
  {
    if index.skipHasCatchAll {
      return true;
    }
    var word, bit := term / WORD_BITS, term % WORD_BITS;
    return word < |index.skipTerms| && bit in index.skipTerms[word];
  }

  /** The first action of a state on a term, or else its first skip action: as
      two plain scans of the rows would find it. */
  method FirstAction(index: Index, state: nat, term: Word,
                     ghost data: seq<Word>, ghost slots: seq<StateSlots>, ghost fuel: nat)
    returns (action: nat)
    requires Represents(index, data, slots) && state < |slots|
    requires Ends(data, slots[state].actions, fuel) && Ends(data, slots[state].skip, fuel)
    ensures action == var own := PlainFirst(data, slots[state].actions, term, fuel);
                      if own != 0 then own else PlainFirst(data, slots[state].skip, term, fuel)
  {
    hide Indexed, NoErrors, Ends, PlainFirst, AllEnd, MayMatch;
    assert Rooted(index.x, index.states[state], slots[state]);
    action := First(index.x, index.hasErrors, index.states[state].actionRow, term, data, fuel);
    var may := SkipMayMatch(index, term);
    if action != 0 || !may {
      return;
    }
    action := First(index.x, index.hasErrors, index.states[state].skipRow, term, data, fuel);
  }

  /** In an index the chains of every state end, within a bound common to both
      columns. */
  lemma StateChainsEnd(index: Index, state: nat, data: seq<Word>, slots: seq<StateSlots>)
    requires Represents(index, data, slots) && state < |slots|
    ensures exists fuel: nat :: Ends(data, slots[state].actions, fuel) && Ends(data, slots[state].skip, fuel)
  {
    hide Indexed, NoErrors, Ends, PlainFirst, MayMatch, FilterSound;
    var row := index.states[state];
    assert Rooted(index.x, row, slots[state]);
    assert ChainEnds(data, index.x.offsets[row.actionRow]) && ChainEnds(data, index.x.offsets[row.skipRow]);
    var a: nat :| Ends(data, slots[state].actions, a);
    var b: nat :| Ends(data, slots[state].skip, b);
    EndsMore(data, slots[state].actions, a, a + b);
    EndsMore(data, slots[state].skip, b, a + b);
  }
}
