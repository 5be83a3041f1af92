/** The entries of one row, sorted by term for searching, with their source
    order kept beside them. */
module ActionBlock {
  import opened Options
  import opened Splicing
  import opened Varint
  import opened ActionData

  const LINEAR_SEARCH_LIMIT: nat := 8
  const NO_ENTRY: nat := 0xFFFF

  datatype Block = Block(terms: seq<Word>, actions: seq<nat>, orders: seq<nat>)

  ghost predicate Copies(b: Block, entries: seq<Entry>) {
    && |b.terms| == |b.actions| == |b.orders| == |entries|
    && forall k {:trigger b.orders[k]} :: 0 <= k < |entries| ==>
         && b.orders[k] < |entries|
         && b.terms[k] == entries[b.orders[k]].term
         && b.actions[k] == entries[b.orders[k]].action
  }

  /** By term, entries of one term in source order. */
  ghost predicate Stable(b: Block) {
    && |b.terms| == |b.orders|
    && forall k, l :: 0 <= k < l < |b.terms| ==>
         b.terms[k] < b.terms[l] || (b.terms[k] == b.terms[l] && b.orders[k] < b.orders[l])
  }

  /** The stable sort of the entries. */
  ghost predicate Sorts(b: Block, entries: seq<Entry>) {
    && Copies(b, entries)
    && Stable(b)
    && forall o: nat :: o < |entries| ==> o in b.orders
  }

  function Splice(b: Block, e: Entry, i: nat, at: nat): Block
    requires at <= |b.terms| == |b.actions| == |b.orders|
  {
    Block(Inserted(b.terms, at, e.term), Inserted(b.actions, at, e.action), Inserted(b.orders, at, i))
  }

  /** `next` is `b` with entry `i` put in at `at`. */
  ghost predicate Spliced(b: Block, next: Block, entries: seq<Entry>, i: nat, at: nat) {
    && at <= i < |entries|
    && |b.terms| == |b.actions| == |b.orders| == i
    && |next.terms| == |next.actions| == |next.orders| == i + 1
    && forall k: nat {:trigger next.orders[k]} :: k <= i ==>
         && next.terms[k] == (if k < at then b.terms[k] else if k == at then entries[i].term else b.terms[k - 1])
         && next.actions[k] == (if k < at then b.actions[k] else if k == at then entries[i].action else b.actions[k - 1])
         && next.orders[k] == (if k < at then b.orders[k] else if k == at then i else b.orders[k - 1])
  }

  lemma SpliceSpliced(b: Block, entries: seq<Entry>, i: nat, at: nat)
    requires at <= i < |entries| && |b.terms| == |b.actions| == |b.orders| == i
    ensures Spliced(b, Splice(b, entries[i], i, at), entries, i, at)
  {}

  lemma InsertSorted(b: Block, entries: seq<Entry>, i: nat, at: nat)
    requires at <= i < |entries| && Sorts(b, entries[..i])
    requires forall k :: 0 <= k < at ==> b.terms[k] <= entries[i].term
    requires forall k :: at <= k < i ==> entries[i].term < b.terms[k]
    ensures Sorts(Splice(b, entries[i], i, at), entries[..i + 1])
  {
    hide Splice, Copies, Stable;
    CopiesLength(b, entries[..i]);
    var next := Splice(b, entries[i], i, at);
    SpliceSpliced(b, entries, i, at);
    InsertCopies(b, next, entries, i, at);
    InsertStable(b, next, entries, i, at);
    forall o: nat | o < i + 1 ensures o in next.orders {
      if o == i {
        assert next.orders[at] == i;
      } else {
        assert o in b.orders;
        var k :| 0 <= k < i && b.orders[k] == o;
        assert next.orders[if k < at then k else k + 1] == o;
      }
    }
  }

  lemma CopiesLength(b: Block, entries: seq<Entry>)
    requires Copies(b, entries)
    ensures |b.terms| == |b.actions| == |b.orders| == |entries|
  {}

  lemma InsertCopies(b: Block, next: Block, entries: seq<Entry>, i: nat, at: nat)
    requires i < |entries| && Copies(b, entries[..i]) && Spliced(b, next, entries, i, at)
    ensures Copies(next, entries[..i + 1])
  {
    var more := entries[..i + 1];
    forall k {:trigger next.orders[k]} | 0 <= k < |more|
      ensures next.orders[k] < |more| && next.terms[k] == more[next.orders[k]].term
              && next.actions[k] == more[next.orders[k]].action
    {
      var j := if k < at then k else k - 1;
      if k != at { assert b.orders[j] < i; }
    }
  }

  lemma InsertStable(b: Block, next: Block, entries: seq<Entry>, i: nat, at: nat)
    requires i < |entries| && Copies(b, entries[..i]) && Stable(b) && Spliced(b, next, entries, i, at)
    requires forall k :: 0 <= k < at ==> b.terms[k] <= entries[i].term
    requires forall k :: at <= k < i ==> entries[i].term < b.terms[k]
    ensures Stable(next)
  {
    forall k, l | 0 <= k < l < |next.terms|
      ensures next.terms[k] < next.terms[l] || (next.terms[k] == next.terms[l] && next.orders[k] < next.orders[l])
    {
      var p, q := next.orders[k], next.orders[l];
      if l == at {
        assert b.orders[k] < i;
      }
    }
  }

  /** Sorts the entries of a row by term, keeping the order within a term. */
  method SortEntries(entries: seq<Entry>) returns (b: Block)
    ensures Sorts(b, entries)
  {
    hide Sorts, Splice;
    b := Block([], [], []);
    assert Sorts(b, entries[..0]) by { NothingSorted(entries); }
    for i := 0 to |entries|
      invariant Sorts(b, entries[..i])
    {
      SortsLength(b, entries[..i]);
      var at: nat := i;
      while at > 0 && entries[i].term < b.terms[at - 1]
        invariant 0 <= at <= i
        invariant forall k :: at <= k < i ==> entries[i].term < b.terms[k]
      {
        at := at - 1;
      }
      SortsAscending(b, entries[..i]);
      InsertSorted(b, entries, i, at);
      b := Splice(b, entries[i], i, at);
    }
    assert entries[..|entries|] == entries;
  }

  lemma NothingSorted(entries: seq<Entry>)
    ensures Sorts(Block([], [], []), entries[..0])
  {}

  lemma SortsLength(b: Block, entries: seq<Entry>)
    requires Sorts(b, entries)
    ensures |b.terms| == |b.actions| == |b.orders| == |entries|
  {}

  predicate Ascending(terms: seq<Word>) {
    forall k, l :: 0 <= k < l < |terms| ==> terms[k] <= terms[l]
  }

  lemma SortsAscending(b: Block, entries: seq<Entry>)
    requires Sorts(b, entries)
    ensures Ascending(b.terms)
  {}

  // ---- searching ----------------------------------------------------------

  /** The first position of a sorted list that is not below a term. */
  method PartitionPoint(terms: seq<Word>, term: Word) returns (k: nat)
    requires Ascending(terms)
    ensures k <= |terms|
    ensures forall j :: 0 <= j < k ==> terms[j] < term
    ensures forall j :: k <= j < |terms| ==> terms[j] >= term
  {
    var low, high := 0, |terms|;
    while low < high
      invariant 0 <= low <= high <= |terms|
      invariant forall j :: 0 <= j < low ==> terms[j] < term
      invariant forall j :: high <= j < |terms| ==> terms[j] >= term
    {
      var middle := (low + high) / 2;
      if terms[middle] < term {
        low := middle + 1;
      } else {
        high := middle;
      }
    }
    k := low;
  }

  /** The first place of a term, scanning short rows and bisecting long ones. */
  method FirstTerminal(terms: seq<Word>, term: Word) returns (found: Option<nat>)
    requires Ascending(terms)
    ensures found.None? ==> term !in terms
    ensures found.Some? ==> found.value < |terms| && terms[found.value] == term
    ensures found.Some? ==> forall j :: 0 <= j < found.value ==> terms[j] < term
  {
    if |terms| <= LINEAR_SEARCH_LIMIT {
      var k := 0;
      while k < |terms|
        invariant k <= |terms|
        invariant forall j :: 0 <= j < k ==> terms[j] < term
      {
        if terms[k] > term {
          return None;
        }
        if terms[k] == term {
          return Some(k);
        }
        k := k + 1;
      }
      return None;
    }
    var at := PartitionPoint(terms, term);
    if at < |terms| && terms[at] == term {
      return Some(at);
    }
    return None;
  }

  // ---- the row filter -----------------------------------------------------

  /** The bits of the 32-bit filter that are set, by position. */
  function TermFilter(entries: seq<Entry>): set<nat> {
    set e | e in entries :: e.term % 32
  }

  method BuildTermFilter(entries: seq<Entry>) returns (filter: set<nat>)
    ensures filter == TermFilter(entries)
  {
    filter := {};
    for i := 0 to |entries|
      invariant filter == TermFilter(entries[..i])
    {
      assert entries[..i + 1] == entries[..i] + [entries[i]];
      filter := filter + {entries[i].term % 32};
    }
    assert entries[..|entries|] == entries;
  }

  /** The filter has no false negatives. */
  lemma FilterPasses(entries: seq<Entry>, term: Word, b: Block)
    requires Sorts(b, entries) && term % 32 !in TermFilter(entries)
    ensures term !in b.terms
  {
    forall k | 0 <= k < |b.terms| ensures b.terms[k] != term {
      assert entries[b.orders[k]] in entries;
    }
  }

  // ---- first matches ------------------------------------------------------

  datatype ErrorEntry = ErrorEntry(action: nat, order: nat)

  /** The first error entry of a row, in source order. */
  ghost predicate FirstError(entries: seq<Entry>, error: ErrorEntry) {
    if error.order == NO_ENTRY then forall e <- entries :: e.term != ERROR_TERM
    else
      && error.order < |entries|
      && entries[error.order] == Entry(ERROR_TERM, error.action)
      && forall j :: 0 <= j < error.order ==> entries[j].term != ERROR_TERM
  }

  method FindErrorEntry(entries: seq<Entry>) returns (error: ErrorEntry)
    requires |entries| < NO_ENTRY + 1
    ensures FirstError(entries, error)
  {
    for i := 0 to |entries|
      invariant forall j :: 0 <= j < i ==> entries[j].term != ERROR_TERM
    {
      if entries[i].term == ERROR_TERM {
        return ErrorEntry(entries[i].action, i);
      }
    }
    return ErrorEntry(0, NO_ENTRY);
  }

  lemma {:induction false} FirstOfAt(entries: seq<Entry>, term: Word, o: nat)
    requires o < |entries| && (entries[o].term == term || entries[o].term == ERROR_TERM)
    requires forall j :: 0 <= j < o ==> entries[j].term != term && entries[j].term != ERROR_TERM
    ensures FirstOf(entries, term) == Some(entries[o].action)
    decreases o
  {
    if o > 0 { FirstOfAt(entries[1..], term, o - 1); }
  }

  lemma {:induction false} FirstOfNone(entries: seq<Entry>, term: Word)
    requires forall e <- entries :: e.term != term && e.term != ERROR_TERM
    ensures FirstOf(entries, term) == None
    decreases |entries|
  {
    if entries != [] {
      assert entries[0] in entries;
      FirstOfNone(entries[1..], term);
    }
  }

  /** The first place of a term in the sorted block is its first entry in source
      order. */
  lemma FirstPlace(b: Block, entries: seq<Entry>, term: Word, k: nat)
    requires Sorts(b, entries) && k < |b.terms| && b.terms[k] == term
    requires forall j :: 0 <= j < k ==> b.terms[j] < term
    ensures b.orders[k] < |entries| && entries[b.orders[k]] == Entry(term, b.actions[k])
    ensures forall o: nat :: o < b.orders[k] ==> entries[o].term != term
  {
    forall o: nat | o < b.orders[k] ensures entries[o].term != term {
      assert o in b.orders;
      var l :| 0 <= l < |b.orders| && b.orders[l] == o;
      assert b.terms[l] == entries[o].term;
    }
  }

  lemma NoPlace(b: Block, entries: seq<Entry>, term: Word)
    requires Sorts(b, entries) && term !in b.terms
    ensures forall e <- entries :: e.term != term
  {
    forall e <- entries ensures e.term != term {
      var o :| 0 <= o < |entries| && entries[o] == e;
      assert o in b.orders;
      var l :| 0 <= l < |b.orders| && b.orders[l] == o;
      assert b.terms[l] == e.term;
    }
  }

  // ---- visiting all matches -----------------------------------------------

  /** The actions of a term, in source order. */
  function ActionsOn(entries: seq<Entry>, term: Word): seq<nat> {
    if entries == [] then []
    else
      var last := entries[|entries| - 1];
      ActionsOn(entries[..|entries| - 1], term) + if last.term == term then [last.action] else []
  }

  lemma {:induction false} ActionsOnConcat(a: seq<Entry>, b: seq<Entry>, term: Word)
    ensures ActionsOn(a + b, term) == ActionsOn(a, term) + ActionsOn(b, term)
    decreases |b|
  {
    if b == [] {
      assert a + b == a;
    } else {
      var n := |b| - 1;
      assert (a + b)[..|a + b| - 1] == a + b[..n];
      ActionsOnConcat(a, b[..n], term);
    }
  }

  /** The first `m` entries give the actions that the block lists from `low`,
      as long as its orders stay below `m`. */
  ghost predicate VisitsBelow(b: Block, term: Word, low: nat, high: nat, m: nat) {
    && low <= high <= |b.terms| && |b.terms| == |b.orders| == |b.actions|
    && (forall k :: low <= k < high ==> b.terms[k] == term && b.orders[k] < m)
    && (forall k :: high <= k < |b.terms| && b.terms[k] == term ==> b.orders[k] >= m)
    && (forall k :: 0 <= k < low ==> b.terms[k] != term)
  }

  lemma VisitsBounds(b: Block, term: Word, low: nat, high: nat, m: nat)
    requires VisitsBelow(b, term, low, high, m)
    ensures low <= high <= |b.terms| && |b.terms| == |b.orders| == |b.actions|
  {}

  /** Listing a term's block entries in order is filtering the source. */
  lemma {:induction false} VisitsAll(b: Block, entries: seq<Entry>, term: Word, low: nat, high: nat, m: nat)
    requires Sorts(b, entries) && m <= |entries| && VisitsBelow(b, term, low, high, m)
    ensures ActionsOn(entries[..m], term) == b.actions[low..high]
    decreases m
  {
    hide ActionsOn, VisitsBelow;
    VisitsBounds(b, term, low, high, m);
    if m > 0 {
      var last := entries[m - 1];
      assert entries[..m][..m - 1] == entries[..m - 1];
      assert (m - 1) in b.orders;
      var k :| 0 <= k < |b.orders| && b.orders[k] == m - 1;
      ActionsOnLast(entries[..m], term);
      if last.term == term {
        LastVisited(b, entries, term, low, high, m, k);
        VisitsAll(b, entries, term, low, high - 1, m - 1);
        LastInRange(b.actions, low, high);
      } else {
        NotVisited(b, entries, term, low, high, m);
        VisitsAll(b, entries, term, low, high, m - 1);
      }
    } else {
      NoneBelow(b, entries, term, low, high);
    }
  }

  lemma LastInRange(actions: seq<nat>, low: nat, high: nat)
    requires low < high <= |actions|
    ensures actions[low..high] == actions[low..high - 1] + [actions[high - 1]]
  {}

  lemma ActionsOnLast(entries: seq<Entry>, term: Word)
    requires entries != []
    ensures var last := entries[|entries| - 1];
            ActionsOn(entries, term)
            == ActionsOn(entries[..|entries| - 1], term) + if last.term == term then [last.action] else []
  {}

  lemma FirstBelow(b: Block, term: Word, low: nat, high: nat, m: nat)
    requires VisitsBelow(b, term, low, high, m)
    ensures low < high ==> low < |b.orders| && b.orders[low] < m
  {
    if low < high {
      assert b.terms[low] == term;
    }
  }

  lemma NoneBelow(b: Block, entries: seq<Entry>, term: Word, low: nat, high: nat)
    requires VisitsBelow(b, term, low, high, 0)
    ensures low == high && ActionsOn(entries[..0], term) == b.actions[low..high]
  {
    FirstBelow(b, term, low, high, 0);
  }

  lemma LastVisited(b: Block, entries: seq<Entry>, term: Word, low: nat, high: nat, m: nat, k: nat)
    requires Sorts(b, entries) && 0 < m <= |entries| && VisitsBelow(b, term, low, high, m)
    requires k < |b.orders| && b.orders[k] == m - 1 && entries[m - 1].term == term
    ensures high > low && k == high - 1 && VisitsBelow(b, term, low, high - 1, m - 1)
    ensures b.actions[k] == entries[m - 1].action
  {
    assert b.terms[k] == term;
    assert low <= k < high;
    assert b.terms[high - 1] == term && b.orders[high - 1] < m;
  }

  lemma NotVisited(b: Block, entries: seq<Entry>, term: Word, low: nat, high: nat, m: nat)
    requires Sorts(b, entries) && 0 < m <= |entries| && VisitsBelow(b, term, low, high, m)
    requires entries[m - 1].term != term
    ensures VisitsBelow(b, term, low, high, m - 1)
  {
    forall j | low <= j < high ensures b.orders[j] < m - 1 {
      assert b.terms[j] == entries[b.orders[j]].term;
    }
  }

  lemma NothingVisited(b: Block, entries: seq<Entry>, term: Word)
    requires Sorts(b, entries) && term !in b.terms
    ensures ActionsOn(entries, term) == []
  {
    VisitsAll(b, entries, term, 0, 0, |entries|);
    assert entries[..|entries|] == entries;
  }

  /** All actions of a term in a row, in source order. */
  method VisitTerm(b: Block, term: Word, ghost entries: seq<Entry>) returns (visited: seq<nat>)
    requires Sorts(b, entries)
    ensures visited == ActionsOn(entries, term)
  {
    hide Sorts, ActionsOn;
    SortsAscending(b, entries);
    SortsLength(b, entries);
    var found := FirstTerminal(b.terms, term);
    if found.None? {
      NothingVisited(b, entries, term);
      return [];
    }
    var low := found.value;
    var high := low;
    visited := [];
    while high < |b.terms| && b.terms[high] == term
      invariant low <= high <= |b.terms|
      invariant forall k :: low <= k < high ==> b.terms[k] == term
      invariant visited == b.actions[low..high]
    {
      visited := visited + [b.actions[high]];
      high := high + 1;
    }
    OrdersBound(b, entries);
    VisitsAll(b, entries, term, low, high, |entries|);
    assert entries[..|entries|] == entries;
  }

  lemma OrdersBound(b: Block, entries: seq<Entry>)
    requires Sorts(b, entries)
    ensures forall k :: 0 <= k < |b.orders| ==> b.orders[k] < |entries|
  {}
}
