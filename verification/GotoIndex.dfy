/** The index a parser builds over a goto table: exceptions sorted into an
    implicit search tree when there are many, and a default target per term. */
module GotoIndex {
  import opened Options
  import opened Splicing
  import opened Varint
  import opened GotoGroups
  import opened GotoHeader
  import opened GotoTable

  const NO_TERM: nat := 0xFFFF_FFFF
  const MAX_LINEAR: nat := 16

  datatype GotoEntry = GotoEntry(source: Word, target: Word)

  // ---- sorting ------------------------------------------------------------

  predicate Ascending(entries: seq<GotoEntry>) {
    forall i, j :: 0 <= i < j < |entries| ==> entries[i].source < entries[j].source
  }

  ghost predicate Distinct(entries: seq<GotoEntry>) {
    forall i, j :: 0 <= i < j < |entries| ==> entries[i].source != entries[j].source
  }

  ghost predicate SameMembers(a: seq<GotoEntry>, b: seq<GotoEntry>) {
    |a| == |b| && forall e :: e in a <==> e in b
  }

  /** What the sort has done: an ascending prefix with the same members. */
  ghost predicate SortedTo(was: seq<GotoEntry>, now: seq<GotoEntry>, i: nat) {
    && |was| == |now| && i <= |was|
    && Ascending(now[..i]) && SameMembers(was[..i], now[..i]) && Distinct(was[..i])
    && now[i..] == was[i..]
  }

  lemma InsertedSorted(was: seq<GotoEntry>, now: seq<GotoEntry>, i: nat, k: nat, next: seq<GotoEntry>)
    requires SortedTo(was, now, i) && k <= i < |was|
    requires forall j :: k <= j < i ==> now[i].source < now[j].source
    requires k > 0 ==> now[k - 1].source < now[i].source
    requires next == now[..k] + [now[i]] + now[k..i] + now[i + 1..]
    ensures SortedTo(was, next, i + 1)
  {
    hide Ascending, Distinct, SameMembers, Inserted;
    var entry := now[i];
    assert now[i] == now[i..][0] == was[i..][0] == was[i];
    InsertedPrefix(now, i, k, next);
    assert was[..i + 1] == was[..i] + [was[i]];
    InsertedAscending(now[..i], k, entry);
    InsertedDistinct(was, now, i, k);
    InsertedSame(was[..i], now[..i], k, entry);
    forall j | i < j < |next| ensures next[j] == was[j] {
      assert next[j] == now[j] == now[i..][j - i] == was[i..][j - i];
    }
    assert |next| == |was| && next[i + 1..] == was[i + 1..];
  }

  lemma InsertedDistinct(was: seq<GotoEntry>, now: seq<GotoEntry>, i: nat, k: nat)
    requires SortedTo(was, now, i) && k <= i < |was|
    requires forall j :: k <= j < i ==> now[i].source < now[j].source
    requires k > 0 ==> now[k - 1].source < now[i].source
    ensures Distinct(was[..i + 1])
  {
    assert now[i] == now[i..][0] == was[i..][0] == was[i];
    forall j | 0 <= j < i ensures was[j].source != was[i].source {
      assert was[..i][j] in now[..i];
      var p :| 0 <= p < i && now[..i][p] == was[j];
      if p + 1 < k { assert now[..i][p].source < now[..i][k - 1].source; }
    }
    assert forall j :: 0 <= j < i ==> was[..i + 1][j] == was[..i][j];
  }

  lemma InsertedSame(was: seq<GotoEntry>, now: seq<GotoEntry>, k: nat, entry: GotoEntry)
    requires SameMembers(was, now) && k <= |now|
    ensures SameMembers(was + [entry], Inserted(now, k, entry))
  {
    InsertedMembers(now, k, entry);
  }

  lemma InsertedAscending(sorted: seq<GotoEntry>, k: nat, entry: GotoEntry)
    requires Ascending(sorted) && k <= |sorted|
    requires forall j :: k <= j < |sorted| ==> entry.source < sorted[j].source
    requires k > 0 ==> sorted[k - 1].source < entry.source
    ensures Ascending(Inserted(sorted, k, entry))
  {}

  lemma InsertedPrefix(now: seq<GotoEntry>, i: nat, k: nat, next: seq<GotoEntry>)
    requires k <= i < |now| && next == now[..k] + [now[i]] + now[k..i] + now[i + 1..]
    ensures next[..i + 1] == Inserted(now[..i], k, now[i])
  {
    assert now[..i][..k] == now[..k] && now[..i][k..] == now[k..i];
  }

  lemma DuplicateFound(was: seq<GotoEntry>, now: seq<GotoEntry>, i: nat, k: nat)
    requires SortedTo(was, now, i) && 0 < k <= i < |was| && now[k - 1].source == now[i].source
    ensures !Distinct(was)
  {
    assert now[i] == now[i..][0] == was[i..][0] == was[i];
    assert now[..i][k - 1] in was[..i];
    var j :| 0 <= j < i && was[..i][j] == now[k - 1];
    assert was[j].source == was[i].source;
  }

  /** Insertion sort by source, in place; fails on a source that occurs twice. */
  method SortExceptions(entries: array<GotoEntry>) returns (ok: bool)
    modifies entries
    ensures ok ==> Ascending(entries[..]) && SameMembers(old(entries[..]), entries[..])
    ensures ok == old(Distinct(entries[..]))
  {
    hide SortedTo, Distinct, Ascending, SameMembers;
    ghost var was := entries[..];
    assert SortedTo(was, entries[..], 0) by { NothingSorted(was); }
    if entries.Length == 0 {
      AllSorted(was, entries[..], 0);
      return true;
    }
    var index := 1;
    assert SortedTo(was, entries[..], 1) by { OneSorted(was); }
    while index < entries.Length
      invariant 1 <= index <= entries.Length == |was|
      invariant SortedTo(was, entries[..], index)
    {
      var inserted := InsertEntry(entries, index, was);
      if !inserted {
        return false;
      }
      index := index + 1;
    }
    AllSorted(was, entries[..], index);
    return true;
  }

  lemma NothingSorted(was: seq<GotoEntry>)
    ensures SortedTo(was, was, 0)
  {}

  lemma OneSorted(was: seq<GotoEntry>)
    requires |was| > 0
    ensures SortedTo(was, was, 1)
  {}

  lemma AllSorted(was: seq<GotoEntry>, now: seq<GotoEntry>, i: nat)
    requires SortedTo(was, now, i) && i == |was|
    ensures Ascending(now) && SameMembers(was, now) && Distinct(was)
  {
    assert now[..i] == now && was[..i] == was;
  }

  /** Moves the entry at `index` down to its place among those before it. */
  method InsertEntry(entries: array<GotoEntry>, index: nat, ghost was: seq<GotoEntry>) returns (ok: bool)
    requires index < entries.Length == |was| && SortedTo(was, entries[..], index)
    modifies entries
    ensures ok ==> SortedTo(was, entries[..], index + 1)
    ensures !ok ==> !Distinct(was)
  {
    hide SortedTo, Distinct, Ascending, SameMembers;
    ghost var now := entries[..];
    var entry := entries[index];
    var insertion := index;
    while insertion != 0 && entry.source < entries[insertion - 1].source
      invariant 0 <= insertion <= index
      invariant forall j :: 0 <= j < insertion ==> entries[j] == now[j]
      invariant forall j :: insertion < j <= index ==> entries[j] == now[j - 1]
      invariant forall j :: index < j < entries.Length ==> entries[j] == now[j]
      invariant forall j :: insertion <= j < index ==> entry.source < now[j].source
    {
      entries[insertion] := entries[insertion - 1];
      insertion := insertion - 1;
    }
    if insertion != 0 && entries[insertion - 1].source == entry.source {
      DuplicateFound(was, now, index, insertion);
      return false;
    }
    entries[insertion] := entry;
    ghost var next := now[..insertion] + [entry] + now[insertion..index] + now[index + 1..];
    forall j | 0 <= j < |next| ensures entries[j] == next[j] {}
    assert entries[..] == next;
    InsertedSorted(was, now, index, insertion, next);
    return true;
  }

  // ---- the implicit tree --------------------------------------------------

  /** Position `j` lies below position `i`, whose children are at `2i + 1` and
      `2i + 2`. */
  predicate Below(i: nat, j: nat) {
    j >= i && (j == i || Below(i, (j - 1) / 2))
  }

  /** Every position below another is that one or below exactly one child. */
  lemma {:induction false} BelowSplit(i: nat, j: nat)
    ensures Below(i, j) <==> j == i || Below(2 * i + 1, j) || Below(2 * i + 2, j)
    ensures !(Below(2 * i + 1, j) && Below(2 * i + 2, j))
    decreases j
  {
    if j > i {
      BelowSplit(i, (j - 1) / 2);
    }
  }

  lemma {:induction false} BelowRoot(j: nat)
    ensures Below(0, j)
    decreases j
  {
    if j > 0 { BelowRoot((j - 1) / 2); }
  }

  function SubSize(i: nat, n: nat): nat
    decreases if i < n then n - i else 0
  {
    if i >= n then 0 else SubSize(2 * i + 1, n) + 1 + SubSize(2 * i + 2, n)
  }

  lemma {:induction false} SubSizeGrows(i: nat, n: nat)
    ensures SubSize(i, n + 1) == SubSize(i, n) + if Below(i, n) then 1 else 0
    decreases if i <= n then n + 1 - i else 0
  {
    if i <= n {
      SubSizeGrows(2 * i + 1, n);
      SubSizeGrows(2 * i + 2, n);
      BelowSplit(i, n);
    }
  }

  /** The tree of `n` positions has `n` of them, so filling it uses up the
      sorted list exactly. */
  lemma {:induction false} SubSizeAll(n: nat)
    ensures SubSize(0, n) == n
  {
    if n > 0 {
      SubSizeAll(n - 1);
      SubSizeGrows(0, n - 1);
      BelowRoot(n - 1);
    }
  }

  function InOrder(a: seq<GotoEntry>, i: nat): (r: seq<GotoEntry>)
    ensures |r| == SubSize(i, |a|)
    decreases if i < |a| then |a| - i else 0
  {
    if i >= |a| then [] else InOrder(a, 2 * i + 1) + [a[i]] + InOrder(a, 2 * i + 2)
  }

  lemma {:induction false} InOrderFrame(a: seq<GotoEntry>, b: seq<GotoEntry>, i: nat)
    requires |a| == |b| && forall j :: i <= j < |a| && Below(i, j) ==> a[j] == b[j]
    ensures InOrder(a, i) == InOrder(b, i)
    decreases if i < |a| then |a| - i else 0
  {
    if i < |a| {
      forall j | i <= j < |a| ensures Below(2 * i + 1, j) || Below(2 * i + 2, j) ==> a[j] == b[j] {
        BelowSplit(i, j);
      }
      InOrderFrame(a, b, 2 * i + 1);
      InOrderFrame(a, b, 2 * i + 2);
    }
  }

  lemma {:induction false} InOrderMember(a: seq<GotoEntry>, i: nat, j: nat)
    requires j < |a| && Below(i, j)
    ensures a[j] in InOrder(a, i)
    decreases |a| - i
  {
    if j != i {
      BelowSplit(i, j);
      if Below(2 * i + 1, j) { InOrderMember(a, 2 * i + 1, j); } else { InOrderMember(a, 2 * i + 2, j); }
    }
  }

  lemma InOrderParts(a: seq<GotoEntry>, i: nat, e: GotoEntry)
    requires e in InOrder(a, i)
    ensures i < |a| && (e == a[i] || e in InOrder(a, 2 * i + 1) || e in InOrder(a, 2 * i + 2))
  {
    hide SubSize;
  }

  lemma {:induction false} InOrderSound(a: seq<GotoEntry>, i: nat, e: GotoEntry)
    requires e in InOrder(a, i)
    ensures e in a
    decreases if i < |a| then |a| - i else 0
  {
    hide InOrder, SubSize;
    InOrderParts(a, i, e);
    if e in InOrder(a, 2 * i + 1) {
      InOrderSound(a, 2 * i + 1, e);
    } else if e in InOrder(a, 2 * i + 2) {
      InOrderSound(a, 2 * i + 2, e);
    }
  }

  lemma InOrderSame(a: seq<GotoEntry>)
    ensures SameMembers(a, InOrder(a, 0))
  {
    SubSizeAll(|a|);
    forall e ensures e in a <==> e in InOrder(a, 0) {
      if e in a {
        var j :| 0 <= j < |a| && a[j] == e;
        BelowRoot(j);
        InOrderMember(a, 0, j);
      }
      if e in InOrder(a, 0) { InOrderSound(a, 0, e); }
    }
  }

  /** Writes the sorted entries from `next` on into the tree below `index`, in
      order; nothing outside that tree changes. */
  method FillBalanced(entries: array<GotoEntry>, sorted: seq<GotoEntry>, index: nat, next: nat)
    returns (after: nat)
    requires next + SubSize(index, entries.Length) <= |sorted|
    modifies entries
    ensures after == next + SubSize(index, entries.Length)
    ensures InOrder(entries[..], index) == sorted[next..after]
    ensures forall j :: 0 <= j < entries.Length && !Below(index, j) ==> entries[j] == old(entries[j])
    decreases if index < entries.Length then entries.Length - index else 0
  {
    hide Below, InOrder, SubSize;
    TreeParts(entries[..], index);
    if index >= entries.Length {
      return next;
    }
    var middle := FillBalanced(entries, sorted, 2 * index + 1, next);
    ghost var filled := entries[..];
    entries[index] := sorted[middle];
    KeepsLeft(filled, entries[..], index);
    ghost var placed := entries[..];
    after := FillBalanced(entries, sorted, 2 * index + 2, middle + 1);
    LeftUntouched(placed, entries[..], index);
    TreeParts(entries[..], index);
    assert sorted[next..after] == sorted[next..middle] + [sorted[middle]] + sorted[middle + 1..after];
    forall j | 0 <= j < entries.Length && !Below(index, j) ensures entries[j] == old(entries[j]) {
      BelowSplit(index, j);
      assert entries[j] == placed[j] && placed[j] == filled[j];
    }
  }

  lemma TreeParts(a: seq<GotoEntry>, i: nat)
    ensures i >= |a| ==> SubSize(i, |a|) == 0 && InOrder(a, i) == []
    ensures i < |a| ==> SubSize(i, |a|) == SubSize(2 * i + 1, |a|) + 1 + SubSize(2 * i + 2, |a|)
    ensures i < |a| ==> InOrder(a, i) == InOrder(a, 2 * i + 1) + [a[i]] + InOrder(a, 2 * i + 2)
  {}

  lemma KeepsLeft(a: seq<GotoEntry>, b: seq<GotoEntry>, i: nat)
    requires i < |a| == |b| && b == a[i := b[i]]
    ensures InOrder(a, 2 * i + 1) == InOrder(b, 2 * i + 1)
  {
    InOrderFrame(a, b, 2 * i + 1);
  }

  lemma LeftUntouched(a: seq<GotoEntry>, b: seq<GotoEntry>, i: nat)
    requires i < |a| == |b|
    requires forall j :: 0 <= j < |a| && !Below(2 * i + 2, j) ==> b[j] == a[j]
    ensures InOrder(a, 2 * i + 1) == InOrder(b, 2 * i + 1) && b[i] == a[i]
  {
    forall j | 0 <= j < |a| && Below(2 * i + 1, j) ensures a[j] == b[j] {
      BelowSplit(i, j);
    }
    InOrderFrame(a, b, 2 * i + 1);
  }

  /** A search tree over the same entries. */
  ghost predicate Balanced(was: seq<GotoEntry>, now: seq<GotoEntry>) {
    SameMembers(was, now) && Ascending(InOrder(now, 0))
  }

  method BalanceExceptions(entries: array<GotoEntry>) returns (ok: bool)
    modifies entries
    ensures ok == old(Distinct(entries[..]))
    ensures ok ==> Balanced(old(entries[..]), entries[..])
  {
    hide Distinct, Ascending, SameMembers, InOrder, SubSize, Below;
    ghost var was := entries[..];
    ok := SortExceptions(entries);
    if ok {
      var sorted := entries[..];
      SubSizeAll(entries.Length);
      var next := FillBalanced(entries, sorted, 0, 0);
      assert sorted[0..next] == sorted;
      InOrderSame(entries[..]);
      SameTwice(was, sorted, entries[..]);
    }
  }

  lemma SameTwice(a: seq<GotoEntry>, b: seq<GotoEntry>, c: seq<GotoEntry>)
    requires SameMembers(a, b) && SameMembers(c, b)
    ensures SameMembers(a, c)
  {}

  // ---- searching ----------------------------------------------------------

  /** The first entry of a state in a list. */
  function FirstEntry(entries: seq<GotoEntry>, state: Word): Option<Word> {
    if entries == [] then None
    else if entries[0].source == state then Some(entries[0].target)
    else FirstEntry(entries[1..], state)
  }

  lemma {:induction false} FirstEntrySound(entries: seq<GotoEntry>, state: Word)
    ensures FirstEntry(entries, state).Some? ==> GotoEntry(state, FirstEntry(entries, state).value) in entries
    ensures FirstEntry(entries, state).None? ==> forall e :: e in entries ==> e.source != state
    decreases |entries|
  {
    if |entries| > 0 {
      FirstEntrySound(entries[1..], state);
      assert entries == [entries[0]] + entries[1..];
    }
  }

  lemma OneEntry(entries: seq<GotoEntry>, state: Word, a: Word, b: Word)
    requires Distinct(entries) && GotoEntry(state, a) in entries && GotoEntry(state, b) in entries
    ensures a == b
  {}

  /** One step of the search leaves out no entry of the state. */
  lemma SearchStep(a: seq<GotoEntry>, index: nat, state: Word, next: nat)
    requires index < |a| && a[index].source != state
    requires next == 2 * index + 1 + if a[index].source < state then 1 else 0
    requires Ascending(InOrder(a, index))
    requires forall j :: 0 <= j < |a| && a[j].source == state ==> Below(index, j)
    ensures Ascending(InOrder(a, next))
    ensures forall j :: 0 <= j < |a| && a[j].source == state ==> Below(next, j)
  {
    hide InOrder, Below;
    TreeParts(a, index);
    var left, right := InOrder(a, 2 * index + 1), InOrder(a, 2 * index + 2);
    AscendingParts(left, a[index], right);
    forall j | 0 <= j < |a| && a[j].source == state ensures Below(next, j) {
      BelowSplit(index, j);
      if Below(2 * index + 1, j) { InOrderMember(a, 2 * index + 1, j); }
      if Below(2 * index + 2, j) { InOrderMember(a, 2 * index + 2, j); }
    }
  }

  lemma AscendingParts(left: seq<GotoEntry>, e: GotoEntry, right: seq<GotoEntry>)
    requires Ascending(left + [e] + right)
    ensures Ascending(left) && Ascending(right)
    ensures forall l :: l in left ==> l.source < e.source
    ensures forall r :: r in right ==> e.source < r.source
  {
    var all := left + [e] + right;
    assert all[|left|] == e;
    assert forall j :: 0 <= j < |left| ==> all[j] == left[j];
    assert forall j :: 0 <= j < |right| ==> all[|left| + 1 + j] == right[j];
  }

  /** Descends the tree; the answer is the entry a scan of the original list
      finds. */
  method SearchTree(a: seq<GotoEntry>, state: Word, ghost was: seq<GotoEntry>) returns (found: Option<Word>)
    requires Balanced(was, a) && Distinct(was)
    ensures found == FirstEntry(was, state)
  {
    hide InOrder, Ascending, Distinct, FirstEntry;
    FirstEntrySound(was, state);
    var index := 0;
    assert forall j: nat :: Below(0, j) by {
      forall j: nat ensures Below(0, j) { BelowRoot(j); }
    }
    while index < |a|
      invariant Ascending(InOrder(a, index))
      invariant forall j :: 0 <= j < |a| && a[j].source == state ==> Below(index, j)
      decreases |a| - index
    {
      var entry := a[index];
      if entry.source == state {
        assert entry in was;
        if FirstEntry(was, state).Some? {
          OneEntry(was, state, entry.target, FirstEntry(was, state).value);
        }
        return Some(entry.target);
      }
      var next := 2 * index + 1 + if entry.source < state then 1 else 0;
      SearchStep(a, index, state, next);
      index := next;
    }
    return None;
  }

  method FindLinear(entries: seq<GotoEntry>, state: Word) returns (found: Option<Word>)
    ensures found == FirstEntry(entries, state)
  {
    var i := 0;
    while i < |entries|
      invariant i <= |entries|
      invariant FirstEntry(entries, state) == FirstEntry(entries[i..], state)
    {
      if entries[i].source == state {
        return Some(entries[i].target);
      }
      assert entries[i..][1..] == entries[i + 1..];
      i := i + 1;
    }
    return None;
  }

  // ---- the index ----------------------------------------------------------

  datatype GotoTerm = GotoTerm(
    exceptionStart: nat,
    exceptionEnd: nat,
    defaultStart: nat,
    defaultEnd: nat,
    defaultTarget: Word)

  const EMPTY_TERM := GotoTerm(NO_TERM, NO_TERM, NO_TERM, NO_TERM, 0)

  datatype Index = Index(terms: seq<GotoTerm>, exceptions: seq<GotoEntry>, defaults: seq<Word>)

  function GroupEntries(g: Group): seq<GotoEntry> {
    seq(|g.sources|, i requires 0 <= i < |g.sources| => GotoEntry(g.sources[i], g.target))
  }

  function GroupsEntries(groups: seq<Group>): seq<GotoEntry> {
    if groups == [] then []
    else GroupsEntries(groups[..|groups| - 1]) + GroupEntries(groups[|groups| - 1])
  }

  /** The gotos of a term apart from its last group. */
  function Exceptions(groups: seq<Group>): seq<GotoEntry>
    requires |groups| > 0
  {
    GroupsEntries(groups[..|groups| - 1])
  }

  function Default(groups: seq<Group>): Group
    requires |groups| > 0
  {
    groups[|groups| - 1]
  }

  /** How the exceptions of a term are kept: as listed while they are few, as a
      search tree otherwise. */
  ghost predicate Laid(was: seq<GotoEntry>, now: seq<GotoEntry>) {
    if |was| <= MAX_LINEAR then now == was else Distinct(was) && Balanced(was, now)
  }

  ghost predicate TermIndexed(index: Index, slot: GotoTerm, term: TermRead)
    requires term.Gotos? ==> |term.groups| > 0
  {
    match term
    case BadTerm => false
    case NoGotos => slot == EMPTY_TERM
    case Gotos(groups) =>
      && slot.exceptionStart <= slot.exceptionEnd <= |index.exceptions|
      && slot.defaultStart <= slot.defaultEnd <= |index.defaults|
      && Laid(Exceptions(groups), index.exceptions[slot.exceptionStart..slot.exceptionEnd])
      && slot.defaultTarget == Default(groups).target
      && index.defaults[slot.defaultStart..slot.defaultEnd] == Default(groups).sources
  }

  ghost predicate Indexes(index: Index, table: seq<Word>, positions: Positions) {
    && |index.terms| <= |positions|
    && forall t {:trigger index.terms[t]} :: 0 <= t < |index.terms| ==>
         TermIndexed(index, index.terms[t], TermAt(table, positions, t))
  }

  // ---- lookups ------------------------------------------------------------

  lemma {:induction false} FirstEntryConcat(a: seq<GotoEntry>, b: seq<GotoEntry>, state: Word)
    ensures FirstEntry(a + b, state)
         == if FirstEntry(a, state).Some? then FirstEntry(a, state) else FirstEntry(b, state)
    decreases |a|
  {
    if |a| > 0 {
      assert (a + b)[1..] == a[1..] + b;
      FirstEntryConcat(a[1..], b, state);
    } else {
      assert a + b == b;
    }
  }

  lemma {:induction false} FindSourceConcat(a: seq<Group>, b: seq<Group>, state: Word)
    ensures FindSource(a + b, state)
         == if FindSource(a, state).Some? then FindSource(a, state) else FindSource(b, state)
    decreases |a|
  {
    if |a| > 0 {
      assert (a + b)[1..] == a[1..] + b;
      FindSourceConcat(a[1..], b, state);
    } else {
      assert a + b == b;
    }
  }

  lemma GroupEntryFound(g: Group, state: Word)
    ensures FirstEntry(GroupEntries(g), state) == if state in g.sources then Some(g.target) else None
  {
    hide FirstEntry;
    var entries := GroupEntries(g);
    FirstEntrySound(entries, state);
    if state in g.sources {
      var i :| 0 <= i < |g.sources| && g.sources[i] == state;
      assert entries[i] in entries;
    }
  }

  /** Scanning the flattened exceptions is scanning the groups. */
  lemma {:induction false} ScanGroups(groups: seq<Group>, state: Word)
    ensures FirstEntry(GroupsEntries(groups), state) == FindSource(groups, state)
    decreases |groups|
  {
    hide FirstEntry;
    if |groups| > 0 {
      var front, last := groups[..|groups| - 1], groups[|groups| - 1];
      ScanGroups(front, state);
      FirstEntryConcat(GroupsEntries(front), GroupEntries(last), state);
      GroupEntryFound(last, state);
      FindSourceConcat(front, [last], state);
      assert groups == front + [last];
    } else {
      FirstEntrySound([], state);
    }
  }

  /** The indexed lookup finds what walking the groups of the table finds. */
  method Get(index: Index, state: Word, term: Word, loose: bool, ghost table: seq<Word>)
    returns (target: Option<Word>)
    requires ReadHeader(table).Header?
    requires Indexes(index, table, ReadHeader(table).positions)
    requires |index.terms| == |ReadHeader(table).positions| && |index.exceptions| < NO_TERM
    ensures target == PlainGet(table, state, term, loose)
  {
    hide ReadHeader, ReadGroups, FirstEntry, Balanced, Distinct, GroupsEntries;
    if term >= |index.terms| {
      return None;
    }
    var slot := index.terms[term];
    ghost var read := TermAt(table, ReadHeader(table).positions, term);
    assert TermIndexed(index, slot, read);
    if slot.exceptionStart == NO_TERM {
      return None;
    }
    ghost var groups := read.groups;
    ScanGroups(groups[..|groups| - 1], state);
    var exceptions := index.exceptions[slot.exceptionStart..slot.exceptionEnd];
    LaidLength(Exceptions(groups), exceptions);
    if |exceptions| <= MAX_LINEAR {
      target := FindLinear(exceptions, state);
    } else {
      target := SearchTree(exceptions, state, Exceptions(groups));
    }
    if target.Some? {
      return;
    }
    if loose || state in index.defaults[slot.defaultStart..slot.defaultEnd] {
      return Some(slot.defaultTarget);
    }
  }

  lemma LaidLength(was: seq<GotoEntry>, now: seq<GotoEntry>)
    requires Laid(was, now)
    ensures |was| == |now|
  {}

  // ---- building -----------------------------------------------------------

  ghost predicate TermLoadable(term: TermRead)
    requires term.Gotos? ==> |term.groups| > 0
  {
    match term
    case BadTerm => false
    case NoGotos => true
    case Gotos(groups) => |Exceptions(groups)| <= MAX_LINEAR || Distinct(Exceptions(groups))
  }

  /** Exceptions and default sources of the first `k` terms. */
  function Totals(table: seq<Word>, positions: Positions, k: nat): (t: (nat, nat))
    requires k <= |positions|
  {
    if k == 0 then (0, 0)
    else
      var t := Totals(table, positions, k - 1);
      match TermAt(table, positions, k - 1)
      case Gotos(groups) => (t.0 + |Exceptions(groups)|, t.1 + |Default(groups).sources|)
      case _ => t
  }

  lemma {:induction false} TotalsGrow(table: seq<Word>, positions: Positions, k: nat, n: nat)
    requires k <= n <= |positions|
    ensures Totals(table, positions, k).0 <= Totals(table, positions, n).0
    ensures Totals(table, positions, k).1 <= Totals(table, positions, n).1
    decreases n
  {
    hide TermAt;
    if k < n { TotalsGrow(table, positions, k, n - 1); }
  }

  ghost predicate LoadableTo(table: seq<Word>, positions: Positions, k: nat) {
    forall t: nat :: t < k ==> TermLoadable(TermAt(table, positions, t))
  }

  /** What a table must be for an index to be built over it. */
  ghost predicate Loadable(table: seq<Word>) {
    && ReadHeader(table).Header?
    && var positions := ReadHeader(table).positions;
       && LoadableTo(table, positions, |positions|)
       && Totals(table, positions, |positions|).0 <= NO_TERM
       && Totals(table, positions, |positions|).1 <= NO_TERM
  }

  lemma TermIndexedLater(index: Index, more: Index, slot: GotoTerm, term: TermRead)
    requires term.Gotos? ==> |term.groups| > 0
    requires TermIndexed(index, slot, term)
    requires index.exceptions <= more.exceptions && index.defaults <= more.defaults
    ensures TermIndexed(more, slot, term)
  {
    hide Laid;
    if term.Gotos? {
      assert more.exceptions[slot.exceptionStart..slot.exceptionEnd]
          == index.exceptions[slot.exceptionStart..slot.exceptionEnd];
      assert more.defaults[slot.defaultStart..slot.defaultEnd]
          == index.defaults[slot.defaultStart..slot.defaultEnd];
    }
  }

  lemma IndexesNext(index: Index, more: Index, table: seq<Word>, positions: Positions, slot: GotoTerm)
    requires Indexes(index, table, positions) && |index.terms| < |positions|
    requires index.exceptions <= more.exceptions && index.defaults <= more.defaults
    requires more.terms == index.terms + [slot]
    requires TermIndexed(more, slot, TermAt(table, positions, |index.terms|))
    ensures Indexes(more, table, positions)
  {
    hide TermIndexed, TermAt;
    forall t {:trigger more.terms[t]} | 0 <= t < |more.terms|
      ensures TermIndexed(more, more.terms[t], TermAt(table, positions, t))
    {
      if t < |index.terms| {
        assert more.terms[t] == index.terms[t];
        TermIndexedLater(index, more, index.terms[t], TermAt(table, positions, t));
      }
    }
  }

  /** Lays out the exceptions of a term: many of them become a search tree. */
  method LayOut(was: seq<GotoEntry>) returns (ok: bool, now: seq<GotoEntry>)
    ensures ok == (|was| <= MAX_LINEAR || Distinct(was))
    ensures ok ==> Laid(was, now) && |now| == |was|
  {
    hide Distinct, Balanced, Ascending;
    now := was;
    if |was| <= MAX_LINEAR {
      return true, now;
    }
    var entries := new GotoEntry[|was|](i requires 0 <= i < |was| => was[i]);
    assert entries[..] == was;
    ok := BalanceExceptions(entries);
    now := entries[..];
  }

  /** Reads the groups of a term from its position to its end flag. */
  method CollectTerm(table: seq<Word>, start: nat) returns (read: TermRead, exceptions: seq<GotoEntry>)
    ensures read == match ReadGroups(table, start) case BadGroups => BadTerm case Groups(groups) => Gotos(groups)
    ensures read.Gotos? ==> |read.groups| > 0 && exceptions == Exceptions(read.groups)
  {
    hide ReadList, ReadGroups;
    exceptions := [];
    var done: seq<Group> := [];
    var position := start;
    while true
      invariant exceptions == GroupsEntries(done)
      invariant position <= |table| || done == []
      invariant match ReadGroups(table, position)
                case BadGroups => ReadGroups(table, start) == BadGroups
                case Groups(rest) => ReadGroups(table, start) == Groups(done + rest)
      decreases if position <= |table| then |table| - position else 0
    {
      ReadGroupsStep(table, position);
      if position + 1 >= |table| {
        return BadTerm, [];
      }
      var tag, target := table[position], table[position + 1];
      var list := DecodeGotoSources(table, position + 2, tag);
      if list.BadList? {
        return BadTerm, [];
      }
      var g := Group(target, list.sources);
      assert (done + [g])[..|done|] == done;
      if tag % 2 == 1 {
        return Gotos(done + [g]), exceptions;
      }
      exceptions := exceptions + GroupEntries(g);
      ghost var before := done;
      done := done + [g];
      position := list.end;
      assert forall rest: seq<Group> :: before + ([g] + rest) == done + rest;
    }
  }

  lemma ReadGroupsStep(table: seq<Word>, position: nat)
    ensures ReadGroups(table, position) ==
      match ReadGroup(table, position)
      case BadGroup => BadGroups
      case GroupAt(group, last, end) =>
        if last then Groups([group])
        else
          match ReadGroups(table, end)
          case BadGroups => BadGroups
          case Groups(rest) => Groups([group] + rest)
  {}

  /** Adds one term to the index. */
  method AddTerm(index: Index, table: seq<Word>, position: Option<nat>) returns (ok: bool, more: Index)
    ensures ok ==> index.exceptions <= more.exceptions && index.defaults <= more.defaults
    ensures ok ==> |more.terms| == |index.terms| + 1 && more.terms[..|index.terms|] == index.terms
    ensures var read := TermAt(table, [position], 0);
            && (ok ==> TermIndexed(more, more.terms[|index.terms|], read))
            && (ok ==> TermLoadable(read))
            && (ok ==> (|more.exceptions|, |more.defaults|) == Sizes(index, read))
            && (ok && read.Gotos? ==> |more.exceptions| <= NO_TERM && |more.defaults| <= NO_TERM)
            && (!ok ==> !TermLoadable(read) ||
                        Sizes(index, read).0 > NO_TERM || Sizes(index, read).1 > NO_TERM)
  {
    hide Laid, Distinct, ReadGroups, GroupsEntries;
    more := index;
    if position == None {
      more := index.(terms := index.terms + [EMPTY_TERM]);
      return true, more;
    }
    var exceptionStart := |index.exceptions|;
    if exceptionStart > NO_TERM {
      LargeStart(index, TermAt(table, [position], 0));
      return false, more;
    }
    var read, listed := CollectTerm(table, position.value);
    if read == BadTerm {
      return false, more;
    }
    var laidOut, exceptions := LayOut(listed);
    if !laidOut {
      return false, more;
    }
    var last := Default(read.groups);
    var exceptionEnd := exceptionStart + |exceptions|;
    var defaultStart := |index.defaults|;
    var defaultEnd := defaultStart + |last.sources|;
    if exceptionEnd > NO_TERM || defaultStart > NO_TERM || defaultEnd > NO_TERM {
      return false, more;
    }
    more := Index(
      index.terms + [GotoTerm(exceptionStart, exceptionEnd, defaultStart, defaultEnd, last.target)],
      index.exceptions + exceptions, index.defaults + last.sources);
    assert more.exceptions[exceptionStart..exceptionEnd] == exceptions;
    assert more.defaults[defaultStart..defaultEnd] == last.sources;
    return true, more;
  }

  function Sizes(index: Index, read: TermRead): (t: (nat, nat))
    requires read.Gotos? ==> |read.groups| > 0
  {
    match read
    case Gotos(groups) =>
      (|index.exceptions| + |Exceptions(groups)|, |index.defaults| + |Default(groups).sources|)
    case _ => (|index.exceptions|, |index.defaults|)
  }

  lemma LargeStart(index: Index, read: TermRead)
    requires |index.exceptions| > NO_TERM && (read.Gotos? ==> |read.groups| > 0)
    ensures Sizes(index, read).0 > NO_TERM
  {}

  /** Builds the index of a table, which succeeds exactly when the table can be
      loaded. */
  method Build(table: seq<Word>) returns (ok: bool, index: Index)
    ensures ok == Loadable(table)
    ensures ok ==> Indexes(index, table, ReadHeader(table).positions)
    ensures ok ==> |index.terms| == |ReadHeader(table).positions|
    ensures ok ==> |index.exceptions| == Totals(table, ReadHeader(table).positions, |index.terms|).0
  {
    hide ReadHeader, TermAt, TermIndexed, TermLoadable, Totals;
    index := Index([], [], []);
    var header := DecodeGotoHeader(table);
    if header == BadHeader {
      return false, index;
    }
    var positions := header.positions;
    var k: nat := 0;
    TotalsNone(table, positions);
    while k < |positions|
      invariant k <= |positions| && |index.terms| == k
      invariant Indexes(index, table, positions)
      invariant LoadableTo(table, positions, k)
      invariant (|index.exceptions|, |index.defaults|) == Totals(table, positions, k)
      invariant |index.exceptions| <= NO_TERM && |index.defaults| <= NO_TERM
    {
      SingleTerm(table, positions, k);
      TotalsGrow(table, positions, k + 1, |positions|);
      var added, more := AddTerm(index, table, positions[k]);
      ghost var read := TermAt(table, positions, k);
      TotalsStep(table, positions, k, index);
      if !added {
        assert positions[k] == header.positions[k];
        assert !TermLoadable(read) || Sizes(index, read).0 > NO_TERM || Sizes(index, read).1 > NO_TERM;
        return false, index;
      }
      assert TermLoadable(read);
      NextTerm(index, more, table, positions, k);
      index := more;
      k := k + 1;
    }
    ok := true;
  }

  lemma SingleTerm(table: seq<Word>, positions: Positions, k: nat)
    requires k < |positions|
    ensures TermAt(table, [positions[k]], 0) == TermAt(table, positions, k)
  {}

  lemma TotalsNone(table: seq<Word>, positions: Positions)
    ensures Totals(table, positions, 0) == (0, 0)
  {}

  lemma TotalsStep(table: seq<Word>, positions: Positions, k: nat, index: Index)
    requires k < |positions| && (|index.exceptions|, |index.defaults|) == Totals(table, positions, k)
    ensures Totals(table, positions, k + 1) == Sizes(index, TermAt(table, positions, k))
  {
    hide TermAt;
  }

  lemma NextTerm(index: Index, more: Index, table: seq<Word>, positions: Positions, k: nat)
    requires k < |positions| && |index.terms| == k && Indexes(index, table, positions)
    requires index.exceptions <= more.exceptions && index.defaults <= more.defaults
    requires |more.terms| == k + 1 && more.terms[..k] == index.terms
    requires TermIndexed(more, more.terms[k], TermAt(table, positions, k))
    requires (|index.exceptions|, |index.defaults|) == Totals(table, positions, k)
    requires (|more.exceptions|, |more.defaults|) == Sizes(index, TermAt(table, positions, k))
    ensures Indexes(more, table, positions)
    ensures (|more.exceptions|, |more.defaults|) == Totals(table, positions, k + 1)
  {
    hide TermAt, TermIndexed;
    TotalsStep(table, positions, k, index);
    assert more.terms == index.terms + [more.terms[k]];
    IndexesNext(index, more, table, positions, more.terms[k]);
  }
}
