/** Finding every action row that a parser's states lead to: following links
    once, ordering rows by offset and refusing chains that never end. */
module ActionRows {
  import opened Options
  import opened Splicing
  import opened Counting
  import opened Varint
  import opened ActionData

  const NO_ROW: nat := 0xFFFF

  // ---- reachable rows -----------------------------------------------------

  predicate LinksTo(data: seq<Word>, from: nat, to: nat) {
    ReadRow(data, from).Row? && ReadRow(data, from).tail == Next(to)
  }

  ghost predicate ReachedIn(data: seq<Word>, roots: seq<nat>, offset: nat, steps: nat)
    decreases steps
  {
    if steps == 0 then offset in roots
    else exists from: nat :: ReachedIn(data, roots, from, steps - 1) && LinksTo(data, from, offset)
  }

  ghost predicate Reached(data: seq<Word>, roots: seq<nat>, offset: nat) {
    exists steps: nat :: ReachedIn(data, roots, offset, steps)
  }

  lemma ReachedRoot(data: seq<Word>, roots: seq<nat>, offset: nat)
    requires offset in roots
    ensures Reached(data, roots, offset)
  {
    assert ReachedIn(data, roots, offset, 0);
  }

  lemma ReachedLink(data: seq<Word>, roots: seq<nat>, from: nat, to: nat)
    requires Reached(data, roots, from) && LinksTo(data, from, to)
    ensures Reached(data, roots, to)
  {
    hide LinksTo;
    var steps: nat :| ReachedIn(data, roots, from, steps);
    assert ReachedIn(data, roots, to, steps + 1);
  }

  type Decoded = (nat, RowRead)

  predicate InList(offsets: seq<nat>, offset: nat) {
    offset in offsets
  }

  /** The queue holds distinct offsets inside the data, flagged as queued. */
  ghost predicate Queued(offsets: seq<nat>, queued: seq<bool>) {
    && (forall o <- offsets :: o < |queued|)
    && (forall o: nat :: o < |queued| ==> (queued[o] <==> o in offsets))
    && forall i, j :: 0 <= i < j < |offsets| ==> offsets[i] != offsets[j]
  }

  method QueueOffset(offsets: seq<nat>, queued: seq<bool>, offset: nat)
    returns (ok: bool, more: seq<nat>, flags: seq<bool>)
    requires Queued(offsets, queued)
    ensures ok == (offset < |queued|)
    ensures ok ==> Queued(more, flags) && |flags| == |queued|
    ensures ok ==> more == if offset in offsets then offsets else offsets + [offset]
  {
    more, flags := offsets, queued;
    if offset >= |queued| {
      return false, more, flags;
    }
    if !queued[offset] {
      flags := queued[offset := true];
      more := offsets + [offset];
    }
    ok := true;
  }

  /** All offsets are reachable; the first `k` are decoded and their links are
      in the list. */
  ghost predicate Followed(data: seq<Word>, roots: seq<nat>, offsets: seq<nat>, rows: seq<Decoded>) {
    && |rows| <= |offsets|
    && (forall o <- offsets :: Reached(data, roots, o))
    && (forall i {:trigger rows[i]} :: 0 <= i < |rows| ==>
          && rows[i] == (offsets[i], ReadRow(data, offsets[i]))
          && rows[i].1.Row?
          && (rows[i].1.tail.Next? ==> InList(offsets, rows[i].1.tail.offset)))
  }

  ghost predicate BadReached(data: seq<Word>, roots: seq<nat>, offset: nat) {
    Reached(data, roots, offset) && ReadRow(data, offset) == BadRow
  }

  lemma FollowedMore(data: seq<Word>, roots: seq<nat>, offsets: seq<nat>, more: seq<nat>, rows: seq<Decoded>)
    requires Followed(data, roots, offsets, rows) && offsets <= more
    requires forall o <- more :: o in offsets || Reached(data, roots, o)
    ensures Followed(data, roots, more, rows)
  {
    hide Reached, ReadRow;
    forall i {:trigger rows[i]} | 0 <= i < |rows|
      ensures rows[i] == (more[i], ReadRow(data, more[i])) && rows[i].1.Row?
      ensures rows[i].1.tail.Next? ==> InList(more, rows[i].1.tail.offset)
    {
      assert more[i] == offsets[i];
      if rows[i].1.tail.Next? { assert InList(offsets, rows[i].1.tail.offset); }
    }
  }

  /** Queues the roots; fails on one outside the data. */
  method QueueRoots(data: seq<Word>, roots: seq<nat>) returns (ok: bool, offsets: seq<nat>, queued: seq<bool>)
    ensures ok ==> Queued(offsets, queued) && |queued| == |data| && Followed(data, roots, offsets, [])
    ensures ok ==> forall o <- roots :: o in offsets
    ensures !ok ==> exists o: nat :: BadReached(data, roots, o)
  {
    hide Reached, ReadRow, Queued;
    offsets, queued := [], seq(|data|, _ => false);
    assert Queued(offsets, queued) by { QueueEmpty(queued); }
    for i := 0 to |roots|
      invariant Queued(offsets, queued) && |queued| == |data|
      invariant forall o <- offsets :: Reached(data, roots, o)
      invariant forall j :: 0 <= j < i ==> roots[j] in offsets
    {
      ReachedRoot(data, roots, roots[i]);
      ok, offsets, queued := QueueOffset(offsets, queued, roots[i]);
      if !ok {
        PastEnd(data, roots[i]);
        assert BadReached(data, roots, roots[i]);
        return;
      }
    }
    ok := true;
  }

  lemma QueueEmpty(queued: seq<bool>)
    requires forall o: nat :: o < |queued| ==> !queued[o]
    ensures Queued([], queued)
  {}

  lemma PastEnd(data: seq<Word>, offset: nat)
    requires offset >= |data|
    ensures ReadRow(data, offset) == BadRow
  {}

  lemma QueueShort(offsets: seq<nat>, queued: seq<bool>)
    requires Queued(offsets, queued)
    ensures |offsets| <= |queued|
  {
    forall i | 0 <= i < |offsets| ensures offsets[i] < |queued| {
      assert offsets[i] in offsets;
    }
    DistinctBound(offsets, |queued|);
  }

  /** Decodes every reachable row once, in the order in which they are met. */
  method CollectRows(data: seq<Word>, roots: seq<nat>) returns (ok: bool, offsets: seq<nat>, rows: seq<Decoded>)
    ensures ok ==> Followed(data, roots, offsets, rows) && |rows| == |offsets|
    ensures ok ==> (forall o <- roots :: o in offsets)
    ensures ok ==> forall i, j :: 0 <= i < j < |offsets| ==> offsets[i] != offsets[j]
    ensures !ok ==> exists o: nat :: BadReached(data, roots, o)
  {
    hide Reached, ReadRow;
    rows := [];
    var queued;
    ok, offsets, queued := QueueRoots(data, roots);
    if !ok {
      return;
    }
    while |rows| < |offsets|
      invariant Queued(offsets, queued) && |queued| == |data|
      invariant Followed(data, roots, offsets, rows)
      invariant forall o <- roots :: o in offsets
      decreases |data| - |rows|
    {
      QueueShort(offsets, queued);
      var offset := offsets[|rows|];
      var row := DecodeRow(data, offset);
      if row == BadRow {
        assert BadReached(data, roots, offset);
        return false, offsets, rows;
      }
      if row.tail.Next? {
        var before := offsets;
        var to := row.tail.offset;
        assert LinksTo(data, offset, to);
        ReachedLink(data, roots, offset, to);
        ok, offsets, queued := QueueOffset(offsets, queued, to);
        if !ok {
          PastEnd(data, to);
          assert BadReached(data, roots, to);
          return;
        }
        FollowedMore(data, roots, before, offsets, rows);
      }
      rows := rows + [(offset, row)];
    }
    ok := true;
  }

  // ---- ordering -----------------------------------------------------------

  predicate ByOffset(rows: seq<Decoded>) {
    forall i, j :: 0 <= i < j < |rows| ==> rows[i].0 < rows[j].0
  }

  predicate DistinctOffsets(rows: seq<Decoded>) {
    forall i, j :: 0 <= i < j < |rows| ==> rows[i].0 != rows[j].0
  }

  ghost predicate SameRows(a: seq<Decoded>, b: seq<Decoded>) {
    |a| == |b| && forall r :: r in a <==> r in b
  }

  method SortRows(rows: seq<Decoded>) returns (sorted: seq<Decoded>)
    requires DistinctOffsets(rows)
    ensures ByOffset(sorted) && SameRows(rows, sorted)
  {
    sorted := [];
    for i := 0 to |rows|
      invariant ByOffset(sorted) && SameRows(rows[..i], sorted)
    {
      var at: nat := i;
      while at > 0 && rows[i].0 < sorted[at - 1].0
        invariant 0 <= at <= i
        invariant forall k :: at <= k < i ==> rows[i].0 < sorted[k].0
      {
        at := at - 1;
      }
      NewOffset(rows, sorted, i);
      InsertRow(sorted, at, rows[i]);
      assert rows[..i + 1] == rows[..i] + [rows[i]];
      sorted := Inserted(sorted, at, rows[i]);
    }
    assert rows[..|rows|] == rows;
  }

  lemma NewOffset(rows: seq<Decoded>, sorted: seq<Decoded>, i: nat)
    requires i < |rows| && DistinctOffsets(rows) && SameRows(rows[..i], sorted)
    ensures forall k :: 0 <= k < |sorted| ==> sorted[k].0 != rows[i].0
  {
    forall k | 0 <= k < |sorted| ensures sorted[k].0 != rows[i].0 {
      assert sorted[k] in rows[..i];
      var j :| 0 <= j < i && rows[..i][j] == sorted[k];
      assert rows[j].0 != rows[i].0;
    }
  }

  lemma InsertRow(sorted: seq<Decoded>, at: nat, row: Decoded)
    requires at <= |sorted| && ByOffset(sorted)
    requires forall k :: at <= k < |sorted| ==> row.0 < sorted[k].0
    requires at > 0 ==> sorted[at - 1].0 < row.0
    ensures ByOffset(Inserted(sorted, at, row))
    ensures forall r :: r in Inserted(sorted, at, row) <==> r in sorted || r == row
  {
    InsertedMembers(sorted, at, row);
    InsertedOrder(sorted, at, row);
  }

  lemma InsertedOrder(sorted: seq<Decoded>, at: nat, row: Decoded)
    requires at <= |sorted| && ByOffset(sorted)
    requires forall k :: at <= k < |sorted| ==> row.0 < sorted[k].0
    requires at > 0 ==> sorted[at - 1].0 < row.0
    ensures ByOffset(Inserted(sorted, at, row))
  {}

  predicate AscendingOffsets(offsets: seq<nat>) {
    forall i, j :: 0 <= i < j < |offsets| ==> offsets[i] < offsets[j]
  }

  /** The place of an offset in the ordered list. */
  method RowId(offsets: seq<nat>, offset: nat) returns (id: Option<nat>)
    requires AscendingOffsets(offsets)
    ensures id.Some? ==> id.value < |offsets| && offsets[id.value] == offset
    ensures id.None? ==> offset !in offsets
  {
    var low, high := 0, |offsets|;
    while low < high
      invariant 0 <= low <= high <= |offsets|
      invariant forall j :: 0 <= j < low ==> offsets[j] < offset
      invariant forall j :: high <= j < |offsets| ==> offsets[j] > offset
    {
      var middle: nat := (low + high) / 2;
      if offsets[middle] == offset {
        return Some(middle);
      }
      if offsets[middle] < offset {
        low := middle + 1;
      } else {
        high := middle;
      }
    }
    return None;
  }

  // ---- cycles -------------------------------------------------------------

  predicate LinksInside(nexts: seq<nat>) {
    forall i {:trigger nexts[i]} :: 0 <= i < |nexts| ==> nexts[i] == NO_ROW || nexts[i] < |nexts|
  }

  predicate EndsFrom(nexts: seq<nat>, i: nat, fuel: nat)
    decreases fuel
  {
    i < |nexts| && (nexts[i] == NO_ROW || (fuel > 0 && EndsFrom(nexts, nexts[i], fuel - 1)))
  }

  ghost predicate Terminates(nexts: seq<nat>, i: nat) {
    exists fuel: nat :: EndsFrom(nexts, i, fuel)
  }

  lemma TerminatesStep(nexts: seq<nat>, i: nat)
    requires i < |nexts| && (nexts[i] == NO_ROW || Terminates(nexts, nexts[i]))
    ensures Terminates(nexts, i)
  {
    if nexts[i] == NO_ROW {
      assert EndsFrom(nexts, i, 0);
    } else {
      var fuel: nat :| EndsFrom(nexts, nexts[i], fuel);
      assert EndsFrom(nexts, i, fuel + 1);
    }
  }

  /** Rows of a path link each to the next; the last one leads to `current`. */
  ghost predicate OnPath(nexts: seq<nat>, path: seq<nat>, current: nat) {
    && (forall i {:trigger path[i]} :: 0 <= i < |path| ==> path[i] < |nexts|)
    && (forall i {:trigger path[i]} :: 0 <= i < |path| ==>
          nexts[path[i]] != NO_ROW && nexts[path[i]] == if i + 1 < |path| then path[i + 1] else current)
  }

  /** A path that leads to a row whose chain ends, ends. */
  lemma {:induction false} PathTerminates(nexts: seq<nat>, path: seq<nat>, current: nat, k: nat)
    requires OnPath(nexts, path, current) && Terminates(nexts, current) && k < |path|
    ensures Terminates(nexts, path[k])
    decreases |path| - k
  {
    if k + 1 < |path| { PathTerminates(nexts, path, current, k + 1); }
    TerminatesStep(nexts, path[k]);
  }

  /** A path that leads back into itself never ends. */
  lemma {:induction false} PathCycles(nexts: seq<nat>, path: seq<nat>, current: nat, k: nat, fuel: nat)
    requires OnPath(nexts, path, current) && k < |path| && current in path && NO_ROW >= |nexts|
    ensures !EndsFrom(nexts, path[k], fuel)
    decreases fuel
  {
    if fuel > 0 {
      if k + 1 < |path| {
        PathCycles(nexts, path, current, k + 1, fuel - 1);
      } else {
        var j: nat :| j < |path| && path[j] == current;
        PathCycles(nexts, path, current, j, fuel - 1);
      }
    }
  }

  datatype Colour = Fresh | Active | Finished

  /** Finished rows end, active rows are the current path. */
  ghost predicate Coloured(nexts: seq<nat>, colours: seq<Colour>, path: seq<nat>) {
    && |colours| == |nexts|
    && forall i: nat :: i < |nexts| ==>
         && (colours[i] == Finished ==> Terminates(nexts, i))
         && (colours[i] == Active <==> i in path)
  }

  function CountFresh(colours: seq<Colour>): nat {
    if colours == [] then 0
    else CountFresh(colours[..|colours| - 1]) + if colours[|colours| - 1] == Fresh then 1 else 0
  }

  lemma {:induction false} CountFreshDrops(colours: seq<Colour>, i: nat)
    requires i < |colours| && colours[i] == Fresh
    ensures CountFresh(colours[i := Active]) < CountFresh(colours)
    decreases |colours|
  {
    var n := |colours| - 1;
    if i < n {
      CountFreshDrops(colours[..n], i);
      assert colours[i := Active][..n] == colours[..n][i := Active];
    } else {
      assert colours[i := Active][..n] == colours[..n];
    }
  }

  /** Follows links from a row until they end or meet a row seen before. */
  method FollowLinks(nexts: seq<nat>, start: nat, colours: seq<Colour>)
    returns (ok: bool, now: seq<Colour>, path: seq<nat>)
    requires LinksInside(nexts) && |nexts| <= NO_ROW && start < |nexts|
    requires Coloured(nexts, colours, [])
    ensures ok ==> Coloured(nexts, now, path) && now[start] != Fresh
    ensures ok ==> forall i <- path :: Terminates(nexts, i)
    ensures ok ==> forall i: nat :: i < |nexts| && colours[i] != Fresh ==> now[i] != Fresh
    ensures !ok ==> exists i: nat :: i < |nexts| && !Terminates(nexts, i)
  {
    hide Terminates;
    now, path := colours, [];
    var current: nat := start;
    while now[current] == Fresh
      invariant current < |nexts| == |now|
      invariant Coloured(nexts, now, path) && OnPath(nexts, path, current)
      invariant current == start || now[start] != Fresh
      invariant forall i: nat :: i < |nexts| && colours[i] != Fresh ==> now[i] != Fresh
      decreases CountFresh(now)
    {
      CountFreshDrops(now, current);
      now := now[current := Active];
      var next := nexts[current];
      if next == NO_ROW {
        TerminatesStep(nexts, current);
        PathEnds(nexts, path, current);
        path := path + [current];
        return true, now, path;
      }
      PathGrows(nexts, path, current);
      path := path + [current];
      current := next;
    }
    if nexts[current] != NO_ROW && now[current] == Active {
      CycleFound(nexts, path, current);
      return false, now, path;
    }
    if now[current] == Active {
      ActiveLinks(nexts, path, current);
    }
    PathEnds(nexts, path, current);
    ok := true;
  }

  lemma ActiveLinks(nexts: seq<nat>, path: seq<nat>, current: nat)
    requires OnPath(nexts, path, current) && current in path
    ensures current < |nexts| && nexts[current] != NO_ROW
  {
    var k: nat :| k < |path| && path[k] == current;
  }

  lemma PathGrows(nexts: seq<nat>, path: seq<nat>, current: nat)
    requires OnPath(nexts, path, current) && current < |nexts| && nexts[current] != NO_ROW
    ensures OnPath(nexts, path + [current], nexts[current])
  {}

  lemma PathEnds(nexts: seq<nat>, path: seq<nat>, current: nat)
    requires OnPath(nexts, path, current) && Terminates(nexts, current)
    ensures forall i <- path + [current] :: Terminates(nexts, i)
  {
    hide Terminates;
    forall k: nat | k < |path| ensures Terminates(nexts, path[k]) {
      PathTerminates(nexts, path, current, k);
    }
  }

  lemma CycleFound(nexts: seq<nat>, path: seq<nat>, current: nat)
    requires OnPath(nexts, path, current) && current in path && |nexts| <= NO_ROW
    ensures current < |nexts| && !Terminates(nexts, current)
  {
    var j: nat :| j < |path| && path[j] == current;
    forall fuel: nat ensures !EndsFrom(nexts, current, fuel) {
      PathCycles(nexts, path, current, j, fuel);
    }
  }

  /** Accepts exactly the links of which every chain ends. */
  method RejectCycles(nexts: seq<nat>) returns (ok: bool)
    requires LinksInside(nexts) && |nexts| <= NO_ROW
    ensures ok == forall i: nat :: i < |nexts| ==> Terminates(nexts, i)
  {
    hide Terminates;
    var colours := seq(|nexts|, _ => Fresh);
    var start: nat := 0;
    while start < |nexts|
      invariant start <= |nexts|
      invariant Coloured(nexts, colours, [])
      invariant forall i: nat :: i < start ==> colours[i] != Fresh
    {
      var followed, now, path := FollowLinks(nexts, start, colours);
      if !followed {
        return false;
      }
      colours := now;
      for k := 0 to |path|
        invariant |colours| == |nexts|
        invariant forall i: nat :: i < |nexts| ==> colours[i] == if i in path[..k] then Finished else now[i]
      {
        assert path[..k + 1] == path[..k] + [path[k]];
        InPath(nexts, now, path, k);
        colours := colours[path[k] := Finished];
      }
      assert path[..|path|] == path;
      start := start + 1;
    }
    AllFinished(nexts, colours);
    return true;
  }

  lemma InPath(nexts: seq<nat>, colours: seq<Colour>, path: seq<nat>, k: nat)
    requires forall i <- path :: Terminates(nexts, i)
    requires k < |path|
    ensures path[k] < |nexts|
  {
    assert Terminates(nexts, path[k]);
  }

  lemma AllFinished(nexts: seq<nat>, colours: seq<Colour>)
    requires Coloured(nexts, colours, []) && forall i: nat :: i < |nexts| ==> colours[i] != Fresh
    ensures forall i: nat :: i < |nexts| ==> Terminates(nexts, i)
  {
    hide Terminates;
    forall i: nat | i < |nexts| ensures Terminates(nexts, i) {
      assert colours[i] == Finished;
    }
  }
}
