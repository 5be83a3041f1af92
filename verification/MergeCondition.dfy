/** The merge condition as it is computed: a two-pointer walk over sorted keys
    and a per-state index of the actions on each term. */
module MergeCondition {
  import opened Automaton
  import opened Splicing

  /** Compare only the entries whose keys occur on both sides. */
  method CommonEntriesMatchByKey<Entry>(left: seq<Entry>, right: seq<Entry>, key: Entry -> int,
                                        matches: (Entry, Entry) -> bool)
    returns (ok: bool)
    requires forall i, j | 0 <= i < j < |left| :: key(left[i]) < key(left[j])
    requires forall i, j | 0 <= i < j < |right| :: key(right[i]) < key(right[j])
    ensures ok <==> forall i, j | 0 <= i < |left| && 0 <= j < |right| && key(left[i]) == key(right[j]) ::
                      matches(left[i], right[j])
  {
    var leftIndex, rightIndex := 0, 0;
    while leftIndex < |left| && rightIndex < |right|
      invariant 0 <= leftIndex <= |left| && 0 <= rightIndex <= |right|
      invariant forall i, j | 0 <= i < |left| && 0 <= j < |right| && (i < leftIndex || j < rightIndex)
                  && key(left[i]) == key(right[j]) :: matches(left[i], right[j])
      decreases |left| - leftIndex + |right| - rightIndex
    {
      if key(left[leftIndex]) < key(right[rightIndex]) {
        leftIndex := leftIndex + 1;
      } else if key(left[leftIndex]) > key(right[rightIndex]) {
        rightIndex := rightIndex + 1;
      } else {
        if !matches(left[leftIndex], right[rightIndex]) {
          return false;
        }
        leftIndex, rightIndex := leftIndex + 1, rightIndex + 1;
      }
    }
    return true;
  }

  // ---- the action index -----------------------------------------------------------

  /** Half-open index ranges of the shifts and the reductions on one term. */
  datatype ActionTermRanges = ActionTermRanges(term: nat, shiftStart: nat, shiftEnd: nat, reduceStart: nat, reduceEnd: nat) {
    predicate Shifts() { shiftStart < shiftEnd }
    predicate Reduces() { reduceStart < reduceEnd }
  }

  /** The actions an entry points at. */
  function Entries(actions: seq<Action>, r: ActionTermRanges): seq<Action>
    requires r.shiftStart <= r.shiftEnd <= |actions| && r.reduceStart <= r.reduceEnd <= |actions|
  {
    actions[r.shiftStart..r.shiftEnd] + actions[r.reduceStart..r.reduceEnd]
  }

  /** An entry points at every shift on its term, or at none, and the same for
      reductions; it is not empty. */
  ghost predicate Sound(actions: seq<Action>, first: nat, r: ActionTermRanges)
    requires first <= |actions|
  {
    && r.shiftStart <= r.shiftEnd <= first && r.reduceStart <= r.reduceEnd <= |actions|
    && (r.Shifts() || r.Reduces())
    && (r.Shifts() ==> actions[r.shiftStart..r.shiftEnd] == OnTerm(actions[..first], r.term))
    && (r.Reduces() ==> actions[r.reduceStart..r.reduceEnd] == OnTerm(actions[first..], r.term))
  }

  /** Entries of one term do not overlap in kind. */
  predicate Apart(a: ActionTermRanges, b: ActionTermRanges) {
    a.term == b.term ==> !(a.Shifts() && b.Shifts()) && !(a.Reduces() && b.Reduces())
  }

  ghost predicate AllApart(entries: seq<ActionTermRanges>) {
    forall i, j | 0 <= i < j < |entries| :: Apart(entries[i], entries[j])
  }

  ghost predicate CoversShifts(entries: seq<ActionTermRanges>, term: nat) {
    exists r | r in entries :: r.term == term && r.Shifts()
  }

  ghost predicate CoversReduces(entries: seq<ActionTermRanges>, term: nat) {
    exists r | r in entries :: r.term == term && r.Reduces()
  }

  /** The leading shifts of a sorted action list. */
  method FirstReduce(actions: seq<Action>) returns (first: nat)
    requires forall i, j | 0 <= i < j < |actions| :: actions[i].Reduce? ==> actions[j].Reduce?
    ensures first <= |actions|
    ensures forall i | 0 <= i < |actions| :: actions[i].Shift? <==> i < first
  {
    first := 0;
    while first < |actions| && actions[first].Shift?
      invariant first <= |actions|
      invariant forall i | 0 <= i < first :: actions[i].Shift?
    {
      first := first + 1;
    }
  }

  lemma {:induction false} OnTermConcat(a: seq<Action>, b: seq<Action>, term: nat)
    ensures OnTerm(a + b, term) == OnTerm(a, term) + OnTerm(b, term)
  {
    if b == [] {
      assert a + b == a;
    } else {
      var n := |b| - 1;
      assert (a + b)[..|a| + n] == a + b[..n];
      OnTermConcat(a, b[..n], term);
    }
  }

  lemma {:induction false} OnTermAll(actions: seq<Action>, term: nat)
    requires forall a | a in actions :: a.term == term
    ensures OnTerm(actions, term) == actions
  {
    if actions != [] {
      var n := |actions| - 1;
      assert actions == actions[..n] + [actions[n]] && actions[n] in actions;
      forall a | a in actions[..n] ensures a.term == term { assert a in actions; }
      OnTermAll(actions[..n], term);
    }
  }

  lemma {:induction false} OnTermNone(actions: seq<Action>, term: nat)
    requires forall a | a in actions :: a.term != term
    ensures OnTerm(actions, term) == []
  {
    if actions != [] {
      OnTermNone(actions[..|actions| - 1], term);
    }
  }

  /** A maximal run of one term inside a zone holds all of the zone's actions on
      that term. */
  lemma RunIsOnTerm(actions: seq<Action>, lo: nat, start: nat, end: nat, hi: nat, term: nat)
    requires lo <= start <= end <= hi <= |actions|
    requires forall i | start <= i < end :: actions[i].term == term
    requires forall i | lo <= i < start || end <= i < hi :: actions[i].term != term
    ensures OnTerm(actions[lo..hi], term) == actions[start..end]
  {
    assert actions[lo..hi] == actions[lo..start] + (actions[start..end] + actions[end..hi]);
    OnTermConcat(actions[lo..start], actions[start..end] + actions[end..hi], term);
    OnTermConcat(actions[start..end], actions[end..hi], term);
    OnTermNone(actions[lo..start], term);
    OnTermAll(actions[start..end], term);
    OnTermNone(actions[end..hi], term);
  }

  /** One entry for each maximal run of equal terms, shifts then reductions. */
  method CollectRuns(g: Grammar, actions: seq<Action>, first: nat) returns (runs: seq<ActionTermRanges>)
    requires ActionsSorted(g, actions)
    requires forall a, b | g.outputId(a) == g.outputId(b) :: a == b
    requires first <= |actions| && forall i | 0 <= i < |actions| :: actions[i].Shift? <==> i < first
    ensures forall r | r in runs :: Sound(actions, first, r)
    ensures AllApart(runs)
    ensures forall i | 0 <= i < first :: CoversShifts(runs, actions[i].term)
    ensures forall i | first <= i < |actions| :: CoversReduces(runs, actions[i].term)
  {
    hide Sound, AllApart, CoversShifts, CoversReduces, OnTerm, Collected;
    runs := [];
    var start := 0;
    NothingCollected(actions, first);
    while start < |actions|
      invariant 0 <= start <= |actions|
      invariant Collected(actions, first, runs, start)
      invariant 0 < start < |actions| && start != first ==> actions[start - 1].term != actions[start].term
    {
      var endLimit := if start < first then first else |actions|;
      var term := actions[start].term;
      var end := start + 1;
      while end < endLimit && actions[end].term == term
        invariant start < end <= endLimit
        invariant forall i | start <= i < end :: actions[i].term == term
      {
        end := end + 1;
      }
      var r := if start < first then ActionTermRanges(term, start, end, 0, 0)
               else ActionTermRanges(term, 0, 0, start, end);
      CollectStep(g, actions, first, runs, start, end, endLimit, r);
      runs := runs + [r];
      start := end;
    }
    EverythingCollected(actions, first, runs);
  }

  /** The runs found before `start`. */
  ghost predicate Collected(actions: seq<Action>, first: nat, runs: seq<ActionTermRanges>, start: nat)
    requires first <= |actions|
  {
    && start <= |actions|
    && (forall r | r in runs :: Sound(actions, first, r))
    && AllApart(runs)
    && (forall r | r in runs && r.Shifts() :: r.shiftEnd <= start && actions[r.shiftEnd - 1].term == r.term)
    && (forall r | r in runs && r.Reduces() ::
          first <= r.reduceStart && r.reduceEnd <= start && actions[r.reduceEnd - 1].term == r.term)
    && (forall i | 0 <= i < start && i < first :: CoversShifts(runs, actions[i].term))
    && (forall i | first <= i < start :: CoversReduces(runs, actions[i].term))
  }

  lemma NothingCollected(actions: seq<Action>, first: nat)
    requires first <= |actions|
    ensures Collected(actions, first, [], 0)
  {}

  lemma EverythingCollected(actions: seq<Action>, first: nat, runs: seq<ActionTermRanges>)
    requires first <= |actions| && Collected(actions, first, runs, |actions|)
    ensures forall r | r in runs :: Sound(actions, first, r)
    ensures AllApart(runs)
    ensures forall i | 0 <= i < first :: CoversShifts(runs, actions[i].term)
    ensures forall i | first <= i < |actions| :: CoversReduces(runs, actions[i].term)
  {}

  lemma CollectStep(g: Grammar, actions: seq<Action>, first: nat, runs: seq<ActionTermRanges>,
                    start: nat, end: nat, endLimit: nat, r: ActionTermRanges)
    requires ActionsSorted(g, actions)
    requires forall a, b | g.outputId(a) == g.outputId(b) :: a == b
    requires first <= |actions| && forall i | 0 <= i < |actions| :: actions[i].Shift? <==> i < first
    requires Collected(actions, first, runs, start)
    requires start < end <= endLimit == if start < first then first else |actions|
    requires 0 < start && start != first ==> actions[start - 1].term != actions[start].term
    requires forall i | start <= i < end :: actions[i].term == actions[start].term
    requires end < endLimit ==> actions[end].term != actions[start].term
    requires r == if start < first then ActionTermRanges(actions[start].term, start, end, 0, 0)
                  else ActionTermRanges(actions[start].term, 0, 0, start, end)
    ensures Collected(actions, first, runs + [r], end)
  {
    hide OnTerm, ActionsSorted, CoversShifts, CoversReduces;
    var lo := if start < first then 0 else first;
    RunBounds(g, actions, lo, start, end, endLimit);
    RunIsOnTerm(actions, lo, start, end, endLimit, r.term);
    assert actions[..first] == actions[0..first] && actions[first..] == actions[first..|actions|];
    assert Sound(actions, first, r);
    assert forall r' | r' in runs :: Apart(r', r);
    RunAppended(actions, first, runs, start, end, r);
  }

  lemma RunAppended(actions: seq<Action>, first: nat, runs: seq<ActionTermRanges>, start: nat, end: nat, r: ActionTermRanges)
    requires first <= |actions| && start < end <= |actions| && (start < first ==> end <= first)
    requires Collected(actions, first, runs, start) && Sound(actions, first, r)
    requires forall r' | r' in runs :: Apart(r', r)
    requires forall i | start <= i < end :: actions[i].term == r.term
    requires r == if start < first then ActionTermRanges(r.term, start, end, 0, 0)
                  else ActionTermRanges(r.term, 0, 0, start, end)
    ensures Collected(actions, first, runs + [r], end)
  {
    hide Sound, Apart, CoversShifts, CoversReduces;
    CoverMore(runs, r);
  }

  lemma CoverMore(runs: seq<ActionTermRanges>, r: ActionTermRanges)
    ensures forall t: nat :: CoversShifts(runs, t) ==> CoversShifts(runs + [r], t)
    ensures forall t: nat :: CoversReduces(runs, t) ==> CoversReduces(runs + [r], t)
    ensures r.Shifts() ==> CoversShifts(runs + [r], r.term)
    ensures r.Reduces() ==> CoversReduces(runs + [r], r.term)
  {
    assert r in runs + [r];
    forall x | x in runs ensures x in runs + [r] {}
  }

  /** Sorting by output id keeps equal terms together. */
  lemma RunBounds(g: Grammar, actions: seq<Action>, lo: nat, start: nat, end: nat, hi: nat)
    requires ActionsSorted(g, actions)
    requires forall a, b | g.outputId(a) == g.outputId(b) :: a == b
    requires lo <= start < end <= hi <= |actions|
    requires forall i, j | lo <= i < j < hi :: actions[i].Reduce? == actions[j].Reduce?
    requires start > lo ==> actions[start - 1].term != actions[start].term
    requires forall i | start <= i < end :: actions[i].term == actions[start].term
    requires end < hi ==> actions[end].term != actions[start].term
    ensures forall i | lo <= i < start || end <= i < hi :: actions[i].term != actions[start].term
  {
    forall i | lo <= i < start || end <= i < hi
      ensures actions[i].term != actions[start].term
    {
      if i < start {
        assert g.outputId(actions[i].term) <= g.outputId(actions[start - 1].term) <= g.outputId(actions[start].term);
      } else {
        assert g.outputId(actions[start].term) <= g.outputId(actions[end].term) <= g.outputId(actions[i].term);
      }
    }
  }

  ghost predicate TermsSorted(entries: seq<ActionTermRanges>) {
    forall i, j | 0 <= i < j < |entries| :: entries[i].term <= entries[j].term
  }

  ghost predicate TermsIncreasing(entries: seq<ActionTermRanges>) {
    forall i, j | 0 <= i < j < |entries| :: entries[i].term < entries[j].term
  }

  method InsertByTerm(sorted: seq<ActionTermRanges>, r: ActionTermRanges) returns (out: seq<ActionTermRanges>)
    requires TermsSorted(sorted) && AllApart(sorted) && forall x | x in sorted :: Apart(x, r)
    ensures TermsSorted(out) && AllApart(out)
    ensures forall x :: x in out <==> x == r || x in sorted
  {
    var at := |sorted|;
    while at > 0 && sorted[at - 1].term > r.term
      invariant 0 <= at <= |sorted|
      invariant forall i | at <= i < |sorted| :: sorted[i].term > r.term
    {
      at := at - 1;
    }
    out := Inserted(sorted, at, r);
    InsertedApart(sorted, at, r);
  }

  lemma InsertedApart(sorted: seq<ActionTermRanges>, at: nat, r: ActionTermRanges)
    requires at <= |sorted| && TermsSorted(sorted) && AllApart(sorted) && forall x | x in sorted :: Apart(x, r)
    requires at > 0 ==> sorted[at - 1].term <= r.term
    requires forall i | at <= i < |sorted| :: sorted[i].term > r.term
    ensures var out := Inserted(sorted, at, r);
            TermsSorted(out) && AllApart(out) && forall x :: x in out <==> x == r || x in sorted
  {
    hide Apart;
    var out := Inserted(sorted, at, r);
    assert out[at] == r;
    assert forall i | 0 <= i < at :: out[i] == sorted[i];
    assert forall i | at < i < |out| :: out[i] == sorted[i - 1];
    forall i, j | 0 <= i < j < |out|
      ensures out[i].term <= out[j].term && Apart(out[i], out[j])
    {
      if i == at || j == at {
        ApartSymmetric(out[i], out[j]);
      }
    }
    InsertedMembers(sorted, at, r);
  }

  lemma ApartSymmetric(a: ActionTermRanges, b: ActionTermRanges)
    ensures Apart(a, b) == Apart(b, a)
  {}

  lemma CoverSame(runs: seq<ActionTermRanges>, sorted: seq<ActionTermRanges>)
    requires forall x :: x in sorted <==> x in runs
    ensures forall t: nat :: CoversShifts(runs, t) ==> CoversShifts(sorted, t)
    ensures forall t: nat :: CoversReduces(runs, t) ==> CoversReduces(sorted, t)
  {}

  method SortByTerm(runs: seq<ActionTermRanges>) returns (sorted: seq<ActionTermRanges>)
    requires AllApart(runs)
    ensures TermsSorted(sorted) && AllApart(sorted)
    ensures forall x :: x in sorted <==> x in runs
  {
    sorted := [];
    var i := 0;
    while i < |runs|
      invariant 0 <= i <= |runs|
      invariant TermsSorted(sorted) && AllApart(sorted)
      invariant forall x :: x in sorted <==> x in runs[..i]
    {
      sorted := InsertByTerm(sorted, runs[i]);
      i := i + 1;
    }
    assert runs[..|runs|] == runs;
  }

  /** The entries read so far, merged into one entry for each term. */
  ghost predicate MergedSoFar(actions: seq<Action>, first: nat, sorted: seq<ActionTermRanges>, read: nat,
                              merged: seq<ActionTermRanges>)
    requires first <= |actions|
  {
    && read <= |sorted|
    && TermsIncreasing(merged)
    && (forall r | r in merged :: Sound(actions, first, r))
    && (forall r | r in merged :: exists i :: 0 <= i < read && sorted[i].term == r.term)
    && (forall r | r in merged && r.Shifts() :: exists i :: 0 <= i < read && sorted[i].term == r.term && sorted[i].Shifts())
    && (forall r | r in merged && r.Reduces() :: exists i :: 0 <= i < read && sorted[i].term == r.term && sorted[i].Reduces())
    && (forall i | 0 <= i < read && sorted[i].Shifts() :: CoversShifts(merged, sorted[i].term))
    && (forall i | 0 <= i < read && sorted[i].Reduces() :: CoversReduces(merged, sorted[i].term))
  }

  predicate SameTermLast(merged: seq<ActionTermRanges>, r: ActionTermRanges) {
    merged != [] && merged[|merged| - 1].term == r.term
  }

  /** An entry of a new term is appended. */
  lemma MergeNew(actions: seq<Action>, first: nat, sorted: seq<ActionTermRanges>, read: nat, merged: seq<ActionTermRanges>)
    requires first <= |actions| && read < |sorted| && TermsSorted(sorted)
    requires MergedSoFar(actions, first, sorted, read, merged)
    requires Sound(actions, first, sorted[read]) && !SameTermLast(merged, sorted[read])
    ensures MergedSoFar(actions, first, sorted, read + 1, merged + [sorted[read]])
  {
    hide Sound, CoversShifts, CoversReduces;
    CoverMore(merged, sorted[read]);
    forall i | 0 <= i < |merged|
      ensures merged[i].term < sorted[read].term
    {
      assert merged[i] in merged && merged[|merged| - 1] in merged;
      var k :| 0 <= k < read && sorted[k].term == merged[|merged| - 1].term;
    }
  }

  function Join(a: ActionTermRanges, b: ActionTermRanges): ActionTermRanges {
    var withShifts := if b.shiftStart != b.shiftEnd then a.(shiftStart := b.shiftStart, shiftEnd := b.shiftEnd) else a;
    if b.reduceStart != b.reduceEnd then withShifts.(reduceStart := b.reduceStart, reduceEnd := b.reduceEnd)
    else withShifts
  }

  /** An entry of the last term joins the entry already there; its own kind is
      still empty in that entry. */
  lemma MergeJoin(actions: seq<Action>, first: nat, sorted: seq<ActionTermRanges>, read: nat, merged: seq<ActionTermRanges>)
    requires first <= |actions| && read < |sorted| && AllApart(sorted)
    requires MergedSoFar(actions, first, sorted, read, merged)
    requires Sound(actions, first, sorted[read]) && SameTermLast(merged, sorted[read])
    ensures var last, r := merged[|merged| - 1], sorted[read];
            && (r.Shifts() ==> !last.Shifts()) && (r.Reduces() ==> !last.Reduces())
            && MergedSoFar(actions, first, sorted, read + 1, merged[|merged| - 1 := Join(last, r)])
  {
    hide OnTerm;
    var n := |merged| - 1;
    var last, r := merged[n], sorted[read];
    assert last in merged;
    var merged' := merged[n := Join(last, r)];
    CoverJoin(merged, n, r);
    assert Sound(actions, first, Join(last, r));
    JoinedSoFar(actions, first, sorted, read, merged);
  }

  lemma JoinedSoFar(actions: seq<Action>, first: nat, sorted: seq<ActionTermRanges>, read: nat, merged: seq<ActionTermRanges>)
    requires first <= |actions| && read < |sorted|
    requires MergedSoFar(actions, first, sorted, read, merged) && SameTermLast(merged, sorted[read])
    requires sorted[read].shiftStart <= sorted[read].shiftEnd && sorted[read].reduceStart <= sorted[read].reduceEnd
    requires Sound(actions, first, Join(merged[|merged| - 1], sorted[read]))
    ensures MergedSoFar(actions, first, sorted, read + 1, merged[|merged| - 1 := Join(merged[|merged| - 1], sorted[read])])
  {
    hide Sound, CoversShifts, CoversReduces;
    var n := |merged| - 1;
    var last, r := merged[n], sorted[read];
    assert last in merged;
    var merged' := merged[n := Join(last, r)];
    CoverJoin(merged, n, r);
    forall x | x in merged'
      ensures x == Join(last, r) || x in merged
    {}
  }

  lemma CoverJoin(merged: seq<ActionTermRanges>, n: nat, r: ActionTermRanges)
    requires n < |merged| && merged[n].term == r.term
    requires r.shiftStart <= r.shiftEnd && r.reduceStart <= r.reduceEnd
    ensures var merged' := merged[n := Join(merged[n], r)];
            && (forall t: nat :: CoversShifts(merged, t) ==> CoversShifts(merged', t))
            && (forall t: nat :: CoversReduces(merged, t) ==> CoversReduces(merged', t))
            && (r.Shifts() ==> CoversShifts(merged', r.term)) && (r.Reduces() ==> CoversReduces(merged', r.term))
  {
    var j := Join(merged[n], r);
    var merged' := merged[n := j];
    assert j == merged'[n];
    forall x | x in merged
      ensures x in merged' || x == merged[n]
    {
      var i :| 0 <= i < |merged| && merged[i] == x;
      assert i != n ==> merged'[i] == x;
    }
  }

  /** The index: one entry for each term, in term order, pointing at exactly
      the state's actions on it. */
  ghost predicate Indexes(actions: seq<Action>, index: seq<ActionTermRanges>) {
    && TermsIncreasing(index)
    && (forall r | r in index ::
          && r.shiftStart <= r.shiftEnd <= |actions| && r.reduceStart <= r.reduceEnd <= |actions|
          && Entries(actions, r) == OnTerm(actions, r.term) != [])
    && (forall a | a in actions :: exists r :: r in index && r.term == a.term)
  }

  method BuildActionIndex(g: Grammar, actions: seq<Action>) returns (index: seq<ActionTermRanges>)
    requires ActionsSorted(g, actions)
    requires forall a, b | g.outputId(a) == g.outputId(b) :: a == b
    ensures Indexes(actions, index)
  {
    hide Sound, MergedSoFar, OnTerm, CoversShifts, CoversReduces;
    var first := FirstReduce(actions);
    var runs := CollectRuns(g, actions, first);
    var result := SortByTerm(runs);
    ghost var sorted := result;
    CoverSame(runs, sorted);
    var write, read := 0, 0;
    assert result[..0] == [];
    NothingMerged(actions, first, sorted);
    while read < |result|
      invariant 0 <= write <= read <= |result| == |sorted|
      invariant result[read..] == sorted[read..]
      invariant MergedSoFar(actions, first, sorted, read, result[..write])
    {
      var ranges := result[read];
      assert ranges == result[read..][0] == sorted[read];
      ghost var merged := result[..write];
      if write > 0 && result[write - 1].term == ranges.term {
        MergeJoin(actions, first, sorted, read, merged);
        result := result[write - 1 := Join(result[write - 1], ranges)];
        assert result[..write] == merged[write - 1 := Join(merged[write - 1], ranges)];
      } else {
        MergeNew(actions, first, sorted, read, merged);
        result := result[write := ranges];
        write := write + 1;
        assert result[..write] == merged + [ranges];
      }
      read := read + 1;
    }
    index := result[..write];
    MergedIndexes(actions, first, sorted, index);
  }

  lemma NothingMerged(actions: seq<Action>, first: nat, sorted: seq<ActionTermRanges>)
    requires first <= |actions|
    ensures MergedSoFar(actions, first, sorted, 0, [])
  {}

  lemma MergedIndexes(actions: seq<Action>, first: nat, sorted: seq<ActionTermRanges>, index: seq<ActionTermRanges>)
    requires first <= |actions| && MergedSoFar(actions, first, sorted, |sorted|, index)
    requires forall i | 0 <= i < first :: CoversShifts(sorted, actions[i].term)
    requires forall i | first <= i < |actions| :: CoversReduces(sorted, actions[i].term)
    ensures Indexes(actions, index)
  {
    hide OnTerm, Sound;
    forall i | 0 <= i < |actions|
      ensures i < first ==> CoversShifts(index, actions[i].term)
      ensures i >= first ==> CoversReduces(index, actions[i].term)
    {}
    forall r | r in index
      ensures r.shiftStart <= r.shiftEnd <= |actions| && r.reduceStart <= r.reduceEnd <= |actions|
      ensures Entries(actions, r) == OnTerm(actions, r.term) != []
    {
      EntryComplete(actions, first, index, r);
    }
  }

  lemma EntryComplete(actions: seq<Action>, first: nat, index: seq<ActionTermRanges>, r: ActionTermRanges)
    requires first <= |actions| && TermsIncreasing(index) && r in index && Sound(actions, first, r)
    requires forall i | 0 <= i < first :: CoversShifts(index, actions[i].term)
    requires forall i | first <= i < |actions| :: CoversReduces(index, actions[i].term)
    ensures r.shiftStart <= r.shiftEnd <= |actions| && r.reduceStart <= r.reduceEnd <= |actions|
    ensures Entries(actions, r) == OnTerm(actions, r.term) != []
  {
    hide OnTerm;
    assert actions == actions[..first] + actions[first..];
    OnTermConcat(actions[..first], actions[first..], r.term);
    if !r.Shifts() {
      forall a | a in actions[..first] && a.term == r.term ensures CoversShifts(index, r.term) {}
      NoneOnTerm(actions[..first], index, r, CoversShifts(index, r.term));
    }
    if !r.Reduces() {
      forall a | a in actions[first..] && a.term == r.term ensures CoversReduces(index, r.term) {}
      NoneOnTerm(actions[first..], index, r, CoversReduces(index, r.term));
    }
  }

  lemma NoneOnTerm(actions: seq<Action>, index: seq<ActionTermRanges>, r: ActionTermRanges, covered: bool)
    requires TermsIncreasing(index) && r in index
    requires covered ==> exists x | x in index :: x.term == r.term && x != r
    requires forall a | a in actions && a.term == r.term :: covered
    ensures OnTerm(actions, r.term) == []
  {
    OnTermNone(actions, r.term);
  }

  // ---- the condition ---------------------------------------------------------------

  /** Cross-compare the actions of two states on one term: all equivalent, or
      as many on both sides and each left one matched on the right. */
  method ActionRangesAreCompatible(g: Grammar, mapping: seq<nat>, left: seq<Action>, right: seq<Action>)
    returns (ok: bool)
    requires left != [] && right != []
    ensures ok == TermCompatible(g, mapping, left, right)
  {
    hide EquivalentMapped;
    var allCrossEquivalent := true;
    var i := 0;
    while i < |left| && allCrossEquivalent
      invariant 0 <= i <= |left|
      invariant allCrossEquivalent ==>
                  forall p, q | 0 <= p < i && 0 <= q < |right| :: EquivalentMapped(g, mapping, right[q], left[p])
      invariant !allCrossEquivalent ==> !AllCross(g, mapping, left, right)
    {
      var j := 0;
      while j < |right|
        invariant 0 <= j <= |right|
        invariant forall q | 0 <= q < j :: EquivalentMapped(g, mapping, right[q], left[i])
      {
        if !EquivalentMapped(g, mapping, right[j], left[i]) {
          allCrossEquivalent := false;
          assert left[i] in left && right[j] in right;
          break;
        }
        j := j + 1;
      }
      i := i + 1;
    }
    if allCrossEquivalent {
      return true;
    }
    if |right| == 1 || |left| != |right| {
      return false;
    }
    i := 0;
    while i < |left|
      invariant 0 <= i <= |left|
      invariant forall p | 0 <= p < i :: exists b | b in right :: EquivalentMapped(g, mapping, left[p], b)
    {
      var found := false;
      var j := 0;
      while j < |right|
        invariant 0 <= j <= |right| && !found
        invariant forall q | 0 <= q < j :: !EquivalentMapped(g, mapping, left[i], right[q])
      {
        if EquivalentMapped(g, mapping, left[i], right[j]) {
          found := true;
          break;
        }
        j := j + 1;
      }
      if !found {
        assert left[i] in left;
        return false;
      }
      i := i + 1;
    }
    return true;
  }

  predicate RangesCompatible(g: Grammar, mapping: seq<nat>, left: seq<Action>, a: ActionTermRanges,
                             right: seq<Action>, b: ActionTermRanges)
  {
    && a.shiftStart <= a.shiftEnd <= |left| && a.reduceStart <= a.reduceEnd <= |left|
    && b.shiftStart <= b.shiftEnd <= |right| && b.reduceStart <= b.reduceEnd <= |right|
    && TermCompatible(g, mapping, Entries(left, a), Entries(right, b))
  }

  /** Whether two states may share a group, computed from their sorted gotos and
      their action indexes, is the definition over all common terms. */
  method ComputeCanMerge(g: Grammar, mapping: seq<nat>, left: State, right: State) returns (ok: bool)
    requires forall a, b | g.outputId(a) == g.outputId(b) :: a == b
    requires ActionsSorted(g, left.actions) && GotosSorted(g, left.gotos)
    requires ActionsSorted(g, right.actions) && GotosSorted(g, right.gotos)
    ensures ok <==> CanMerge(g, mapping, left, right)
  {
    hide ActionsSorted, ActionsCompatible, Indexes, RangesCompatible, EquivalentMapped;
    var goto := CommonEntriesMatchByKey(left.gotos, right.gotos,
                                        (a: Action) => g.outputId(a.term),
                                        (a, b) => EquivalentMapped(g, mapping, a, b));
    if !goto {
      return false;
    }
    var leftIndex := BuildActionIndex(g, left.actions);
    var rightIndex := BuildActionIndex(g, right.actions);
    IndexIncreasing(left.actions, leftIndex);
    IndexIncreasing(right.actions, rightIndex);
    // A closure cannot call the loop of `ActionRangesAreCompatible`; it stands
    // for it by the condition that the loop is proved to compute.
    ok := CommonEntriesMatchByKey(leftIndex, rightIndex, (r: ActionTermRanges) => r.term,
                                  (a, b) => RangesCompatible(g, mapping, left.actions, a, right.actions, b));
    IndexedCompatible(g, mapping, left.actions, leftIndex, right.actions, rightIndex);
  }

  lemma IndexIncreasing(actions: seq<Action>, index: seq<ActionTermRanges>)
    requires Indexes(actions, index)
    ensures TermsIncreasing(index)
  {}

  lemma IndexFinds(actions: seq<Action>, index: seq<ActionTermRanges>, term: nat)
    requires Indexes(actions, index)
    ensures OnTerm(actions, term) != [] ==> exists i :: 0 <= i < |index| && index[i].term == term
  {
    if OnTerm(actions, term) != [] {
      var a := OnTerm(actions, term)[0];
      OnTermMember(actions, term, a);
      var r :| r in index && r.term == a.term;
    }
  }

  lemma IndexedCompatible(g: Grammar, mapping: seq<nat>, left: seq<Action>, leftIndex: seq<ActionTermRanges>,
                          right: seq<Action>, rightIndex: seq<ActionTermRanges>)
    requires Indexes(left, leftIndex) && Indexes(right, rightIndex)
    ensures ActionsCompatible(g, mapping, left, right)
       <==> forall i, j | 0 <= i < |leftIndex| && 0 <= j < |rightIndex| && leftIndex[i].term == rightIndex[j].term ::
              RangesCompatible(g, mapping, left, leftIndex[i], right, rightIndex[j])
  {
    hide OnTerm, TermCompatible;
    assert forall i | 0 <= i < |leftIndex| :: leftIndex[i] in leftIndex;
    assert forall j | 0 <= j < |rightIndex| :: rightIndex[j] in rightIndex;
    if forall i, j | 0 <= i < |leftIndex| && 0 <= j < |rightIndex| && leftIndex[i].term == rightIndex[j].term ::
         RangesCompatible(g, mapping, left, leftIndex[i], right, rightIndex[j])
    {
      forall term: nat | OnTerm(left, term) != [] && OnTerm(right, term) != []
        ensures TermCompatible(g, mapping, OnTerm(left, term), OnTerm(right, term))
      {
        IndexFinds(left, leftIndex, term);
        IndexFinds(right, rightIndex, term);
        var i :| 0 <= i < |leftIndex| && leftIndex[i].term == term;
        var j :| 0 <= j < |rightIndex| && rightIndex[j].term == term;
        assert RangesCompatible(g, mapping, left, leftIndex[i], right, rightIndex[j]);
      }
    }
  }
}
