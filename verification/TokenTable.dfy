/** Reachability in a deterministic token automaton and its encoded table. */
module TokenTable {
  import opened Options
  import opened Counting
  import opened Splicing
  import opened TokenNfa
  import opened SubsetConstruction
  import opened Minimize

  // ---- reachability -----------------------------------------------------------------

  ghost predicate DfaLink(dfa: Dfa, p: nat, q: nat) {
    p < |dfa.states| &&
    (dfa.states[p].eof == Some(q) || exists e | e in dfa.states[p].edges :: e.target == q)
  }

  ghost predicate DfaSteps(dfa: Dfa, p: nat, q: nat, n: nat)
    decreases n
  {
    if n == 0 then p == q else exists r: nat :: DfaLink(dfa, p, r) && DfaSteps(dfa, r, q, n - 1)
  }

  ghost predicate DfaReaches(dfa: Dfa, p: nat, q: nat) {
    exists n: nat :: DfaSteps(dfa, p, q, n)
  }

  lemma {:induction false} DfaStepsPush(dfa: Dfa, p: nat, q: nat, r: nat, n: nat)
    requires DfaSteps(dfa, p, q, n) && DfaLink(dfa, q, r)
    ensures DfaSteps(dfa, p, r, n + 1)
    decreases n
  {
    if n > 0 {
      var s: nat :| DfaLink(dfa, p, s) && DfaSteps(dfa, s, q, n - 1);
      DfaStepsPush(dfa, s, q, r, n - 1);
    } else {
      assert DfaSteps(dfa, r, r, 0);
    }
  }

  lemma DfaReachesPush(dfa: Dfa, p: nat, q: nat, r: nat)
    requires DfaReaches(dfa, p, q) && DfaLink(dfa, q, r)
    ensures DfaReaches(dfa, p, r)
  {
    var n: nat :| DfaSteps(dfa, p, q, n);
    DfaStepsPush(dfa, p, q, r, n);
  }

  lemma DfaReachesSelf(dfa: Dfa, p: nat)
    ensures DfaReaches(dfa, p, p)
  {
    assert DfaSteps(dfa, p, p, 0);
  }

  lemma {:induction false} ClosedUnderLinks(dfa: Dfa, seen: set<nat>, p: nat, q: nat, n: nat)
    requires p in seen && DfaSteps(dfa, p, q, n)
    requires forall s, r: nat | s in seen && DfaLink(dfa, s, r) :: r in seen
    ensures q in seen
    decreases n
  {
    if n > 0 {
      var r: nat :| DfaLink(dfa, p, r) && DfaSteps(dfa, r, q, n - 1);
      ClosedUnderLinks(dfa, seen, r, q, n - 1);
    }
  }

  /** The states reached from `start`, each once, `start` first. */
  ghost predicate Reached(dfa: Dfa, start: nat, order: seq<nat>) {
    && order != [] && order[0] == start
    && (forall i, j | 0 <= i < j < |order| :: order[i] != order[j])
    && (forall q: nat :: q in order <==> DfaReaches(dfa, start, q))
    && (forall i | 0 <= i < |order| :: order[i] < |dfa.states|)
  }

  method PushLinks(dfa: Dfa, ghost start: nat, state: nat, stack: seq<nat>) returns (pushed: seq<nat>)
    requires DfaWellFormed(dfa) && state < |dfa.states| && DfaReaches(dfa, start, state)
    requires forall i | 0 <= i < |stack| :: stack[i] < |dfa.states| && DfaReaches(dfa, start, stack[i])
    ensures forall i | 0 <= i < |pushed| :: pushed[i] < |dfa.states| && DfaReaches(dfa, start, pushed[i])
    ensures forall q :: q in stack ==> q in pushed
    ensures forall r: nat :: DfaLink(dfa, state, r) ==> r in pushed
  {
    hide DfaReaches, EdgesSorted;
    var current := dfa.states[state];
    pushed := stack;
    if current.eof.Some? {
      DfaReachesPush(dfa, start, state, current.eof.value);
      pushed := pushed + [current.eof.value];
    }
    var i := |current.edges|;
    while i > 0
      invariant 0 <= i <= |current.edges|
      invariant forall k | 0 <= k < |pushed| :: pushed[k] < |dfa.states| && DfaReaches(dfa, start, pushed[k])
      invariant forall q :: q in stack ==> q in pushed
      invariant current.eof.Some? ==> current.eof.value in pushed
      invariant forall k | i <= k < |current.edges| :: current.edges[k].target in pushed
    {
      i := i - 1;
      assert current.edges[i] in current.edges;
      DfaReachesPush(dfa, start, state, current.edges[i].target);
      pushed := pushed + [current.edges[i].target];
    }
  }

  method ReachableFrom(dfa: Dfa, start: nat) returns (order: seq<nat>)
    requires DfaWellFormed(dfa) && start < |dfa.states|
    ensures Reached(dfa, start, order)
  {
    hide DfaReaches, DfaWellFormed, DfaLink, Answered;
    order := [];
    var seen: set<nat> := {};
    var stack: seq<nat> := [start];
    DfaReachesSelf(dfa, start);
    assert Answered(dfa, {}, [start]) by { NothingSeen(dfa, start); }
    while stack != []
      invariant forall i | 0 <= i < |stack| :: stack[i] < |dfa.states| && DfaReaches(dfa, start, stack[i])
      invariant forall q :: q in order <==> q in seen
      invariant forall i | 0 <= i < |order| :: order[i] < |dfa.states| && DfaReaches(dfa, start, order[i])
      invariant forall i, j | 0 <= i < j < |order| :: order[i] != order[j]
      invariant if order == [] then stack == [start] else order[0] == start
      invariant Answered(dfa, seen, stack)
      decreases Below(|dfa.states|) - seen, |stack|
    {
      var state := stack[|stack| - 1];
      ghost var before := stack;
      stack := stack[..|stack| - 1];
      if state in seen {
        AnsweredPop(dfa, seen, before);
        continue;
      }
      assert state in Below(|dfa.states|) - seen;
      stack := PushLinks(dfa, start, state, stack);
      AnsweredPush(dfa, seen, before, stack);
      seen := seen + {state};
      order := order + [state];
    }
    AllAnswered(dfa, seen);
    forall q: nat | DfaReaches(dfa, start, q)
      ensures q in order
    {
      SeenReached(dfa, seen, start, q);
    }
  }

  /** Every link of a seen state leads to a seen state or to one on the stack. */
  ghost predicate Answered(dfa: Dfa, seen: set<nat>, stack: seq<nat>) {
    forall s, r: nat | s in seen && DfaLink(dfa, s, r) :: r in seen || r in stack
  }

  lemma NothingSeen(dfa: Dfa, start: nat)
    ensures Answered(dfa, {}, [start])
  {}

  lemma AnsweredPop(dfa: Dfa, seen: set<nat>, stack: seq<nat>)
    requires stack != [] && Answered(dfa, seen, stack) && stack[|stack| - 1] in seen
    ensures Answered(dfa, seen, stack[..|stack| - 1])
  {
    hide DfaLink;
    assert stack == stack[..|stack| - 1] + [stack[|stack| - 1]];
  }

  lemma AnsweredPush(dfa: Dfa, seen: set<nat>, stack: seq<nat>, pushed: seq<nat>)
    requires stack != [] && Answered(dfa, seen, stack)
    requires forall q :: q in stack[..|stack| - 1] ==> q in pushed
    requires forall r: nat :: DfaLink(dfa, stack[|stack| - 1], r) ==> r in pushed
    ensures Answered(dfa, seen + {stack[|stack| - 1]}, pushed)
  {
    hide DfaLink;
    assert stack == stack[..|stack| - 1] + [stack[|stack| - 1]];
  }

  lemma AllAnswered(dfa: Dfa, seen: set<nat>)
    requires Answered(dfa, seen, [])
    ensures forall s, r: nat | s in seen && DfaLink(dfa, s, r) :: r in seen
  {}

  lemma SeenReached(dfa: Dfa, seen: set<nat>, start: nat, q: nat)
    requires start in seen && DfaReaches(dfa, start, q)
    requires forall s, r: nat | s in seen && DfaLink(dfa, s, r) :: r in seen
    ensures q in seen
  {
    var n: nat :| DfaSteps(dfa, start, q, n);
    ClosedUnderLinks(dfa, seen, start, q, n);
  }

  // ---- the encoded table ------------------------------------------------------------

  datatype EncodedTokenState = EncodedTokenState(groupMask: bv16, acceptStart: nat, edgeStart: nat,
                                                 acceptCount: nat, edgeCount: nat)

  datatype EncodedTokenAccept = EncodedTokenAccept(term: nat, groupMask: bv16)

  datatype EncodedTokenEof = EncodedTokenEof(state: nat, target: nat)

  datatype EncodedTokenTable = EncodedTokenTable(states: seq<EncodedTokenState>, accepts: seq<EncodedTokenAccept>,
                                                 edges: seq<DfaEdge>, eof: seq<EncodedTokenEof>)

  datatype TableError =
    | TooManyStates
    | IndexTooLarge
    | TooManyAccepts
    | TooManyEdges
    | OutsideDomain
    | NotSorted
    | UnreachableTarget

  datatype Result<+T> = Ok(value: T) | Err(error: TableError)

  const NO_STATE := 0xFFFF

  /** What the table generation knows of terms. */
  datatype TermInfo = TermInfo(outputId: nat -> nat, groupMasks: map<nat, bv16>, precedence: seq<nat>)

  function MaskById(info: TermInfo, id: nat): bv16 {
    if id in info.groupMasks then info.groupMasks[id] else 0xFFFF
  }

  function MaskOf(info: TermInfo, term: nat): bv16 {
    MaskById(info, info.outputId(term))
  }

  predicate Covers(mask: bv16, other: bv16) {
    mask & other == other
  }

  /** A term without a mask of its own belongs to every token group. */
  lemma UnlistedInAllGroups(info: TermInfo, id: nat, group: bv16)
    ensures id !in info.groupMasks ==> Covers(MaskById(info, id), group)
    ensures id in info.groupMasks ==> (Covers(MaskById(info, id), group) <==> Covers(info.groupMasks[id], group))
  {
    hide Covers;
    AllGroups(group);
  }

  lemma AllGroups(group: bv16)
    ensures Covers(0xFFFF, group)
  {}

  function Union(a: bv16, b: bv16): bv16 { a | b }

  lemma UnionCovers(a: bv16, b: bv16, other: bv16)
    requires Covers(a, other) || Covers(b, other)
    ensures Covers(Union(a, b), other)
  {
    hide Covers;
    if Covers(a, other) {
      CoversMore(a, b, other);
    } else {
      CoversMore(b, a, other);
      assert a | b == b | a;
    }
  }

  lemma CoversMore(a: bv16, b: bv16, other: bv16)
    requires Covers(a, other)
    ensures Covers(a | b, other)
  {
    assert a & other == other;
    Distributes(a, b, other);
    Absorbs(other, b);
  }

  lemma Distributes(a: bv16, b: bv16, c: bv16)
    ensures (a | b) & c == (a & c) | (b & c)
  {}

  lemma Absorbs(a: bv16, b: bv16)
    ensures a | (b & a) == a
  {}

  lemma CoversSelf(a: bv16)
    ensures Covers(a, a)
  {}

  /** A mask that covers two covers their union. */
  lemma UnionCovered(a: bv16, b: bv16, other: bv16)
    requires Covers(other, a) && Covers(other, b)
    ensures Covers(other, Union(a, b))
  {
    assert other & (a | b) == (other & a) | (other & b);
  }

  lemma NothingCovered(other: bv16)
    ensures Covers(other, 0)
  {}

  /** The mask covers the mask of every listed term. */
  ghost predicate CoversTerms(mask: bv16, terms: seq<nat>, info: TermInfo) {
    forall t: nat | t in terms :: Covers(mask, MaskOf(info, t))
  }

  /** A mask that covers these terms and is covered by every mask that does. */
  ghost predicate UnionOf(mask: bv16, terms: seq<nat>, info: TermInfo) {
    && CoversTerms(mask, terms, info)
    && forall other: bv16 :: CoversTerms(other, terms, info) ==> Covers(other, mask)
  }

  ghost predicate CoversStates(dfa: Dfa, states: seq<nat>, mask: bv16, info: TermInfo) {
    forall q: nat | q in states && q < |dfa.states| :: CoversTerms(mask, dfa.states[q].accepting, info)
  }

  /** The same for the terms that some states accept. */
  ghost predicate UnionOver(dfa: Dfa, states: seq<nat>, mask: bv16, info: TermInfo) {
    && CoversStates(dfa, states, mask, info)
    && forall other: bv16 :: CoversStates(dfa, states, other, info) ==> Covers(other, mask)
  }

  lemma UnionStep(dfa: Dfa, states: seq<nat>, mask: bv16, q: nat, added: bv16, info: TermInfo)
    requires UnionOver(dfa, states, mask, info) && q < |dfa.states|
    requires UnionOf(added, dfa.states[q].accepting, info)
    ensures UnionOver(dfa, states + [q], Union(mask, added), info)
  {
    hide Covers, MaskOf, Union;
    forall other: bv16 | Covers(mask, other) || Covers(added, other) ensures Covers(Union(mask, added), other) {
      UnionCovers(mask, added, other);
    }
    forall other: bv16 | CoversStates(dfa, states + [q], other, info) ensures Covers(other, Union(mask, added)) {
      assert forall p <- states :: p in states + [q];
      assert q in states + [q];
      assert CoversStates(dfa, states, other, info) && CoversTerms(other, dfa.states[q].accepting, info);
      UnionCovered(mask, added, other);
    }
  }

  lemma UnionNone(dfa: Dfa, info: TermInfo)
    ensures UnionOver(dfa, [], 0, info) && UnionOf(0, [], info)
  {
    hide Covers, MaskOf;
    forall other: bv16 ensures Covers(other, 0) { NothingCovered(other); }
  }

  /** The union of the group masks of everything accepted from a state on. */
  method StateMask(dfa: Dfa, state: nat, info: TermInfo) returns (mask: bv16)
    requires DfaWellFormed(dfa) && state < |dfa.states|
    ensures MaskUnion(dfa, state, mask, info)
  {
    hide DfaReaches, DfaWellFormed, Covers, Union, UnionOver, UnionOf;
    mask := 0;
    var order := ReachableFrom(dfa, state);
    UnionNone(dfa, info);
    var i := 0;
    while i < |order|
      invariant 0 <= i <= |order|
      invariant UnionOver(dfa, order[..i], mask, info)
    {
      var added := AcceptMask(dfa.states[order[i]].accepting, info);
      UnionStep(dfa, order[..i], mask, order[i], added, info);
      assert order[..i + 1] == order[..i] + [order[i]];
      mask := Union(mask, added);
      i := i + 1;
    }
    assert order[..i] == order;
    ReachedUnion(dfa, state, order, mask, info);
  }

  lemma ReachedUnion(dfa: Dfa, state: nat, order: seq<nat>, mask: bv16, info: TermInfo)
    requires Reached(dfa, state, order) && UnionOver(dfa, order, mask, info)
    ensures MaskUnion(dfa, state, mask, info)
  {
    hide DfaReaches, Covers, MaskOf;
    forall other: bv16 ensures CoversStates(dfa, order, other, info) <==> MaskCovers(dfa, state, other, info) {
      forall q: nat ensures q in order <==> DfaReaches(dfa, state, q) {}
    }
  }

  method AcceptMask(accepting: seq<nat>, info: TermInfo) returns (mask: bv16)
    ensures UnionOf(mask, accepting, info)
  {
    hide Covers, MaskOf, Union, UnionOf;
    mask := 0;
    UnionNone(Dfa([], 0), info);
    var i := 0;
    while i < |accepting|
      invariant 0 <= i <= |accepting|
      invariant UnionOf(mask, accepting[..i], info)
    {
      var own := MaskOf(info, accepting[i]);
      AcceptStep(accepting[..i], mask, accepting[i], own, info);
      assert accepting[..i + 1] == accepting[..i] + [accepting[i]];
      mask := Union(mask, own);
      i := i + 1;
    }
    assert accepting[..i] == accepting;
  }

  lemma AcceptStep(terms: seq<nat>, mask: bv16, term: nat, own: bv16, info: TermInfo)
    requires UnionOf(mask, terms, info) && own == MaskOf(info, term)
    ensures UnionOf(Union(mask, own), terms + [term], info)
  {
    hide Covers, MaskOf, Union;
    forall t: nat | t in terms + [term] ensures Covers(Union(mask, own), MaskOf(info, t)) {
      CoversSelf(own);
      assert t in terms || t == term;
      UnionCovers(mask, own, MaskOf(info, t));
    }
    forall other: bv16 | CoversTerms(other, terms + [term], info) ensures Covers(other, Union(mask, own)) {
      assert forall t <- terms :: t in terms + [term];
      assert term in terms + [term];
      assert CoversTerms(other, terms, info);
      UnionCovered(mask, own, other);
    }
  }

  /** The precedence of a term: its place in the list, unlisted terms last. */
  function Rank(info: TermInfo, term: nat): nat {
    PlaceOf(info.precedence, info.outputId(term))
  }

  function PlaceOf(precedence: seq<nat>, id: nat): nat {
    if precedence == [] || precedence[0] == id then 0 else 1 + PlaceOf(precedence[1..], id)
  }

  /** The first place in the list; an id that is not listed comes last. */
  lemma {:induction false} PlaceFirst(precedence: seq<nat>, id: nat)
    ensures var place := PlaceOf(precedence, id);
            && place <= |precedence|
            && (place == |precedence| <==> id !in precedence)
            && (place < |precedence| ==> precedence[place] == id)
            && id !in precedence[..place]
  {
    if precedence != [] && precedence[0] != id {
      PlaceFirst(precedence[1..], id);
      var place := PlaceOf(precedence, id);
      assert precedence[..place] == [precedence[0]] + precedence[1..][..place - 1];
    }
  }

  /** The terms of one precedence, in order. */
  function OfRank(terms: seq<nat>, info: TermInfo, rank: nat): seq<nat> {
    if terms == [] then []
    else
      var n := |terms| - 1;
      OfRank(terms[..n], info, rank) + if Rank(info, terms[n]) == rank then [terms[n]] else []
  }

  lemma {:induction false} OfRankConcat(a: seq<nat>, b: seq<nat>, info: TermInfo, rank: nat)
    ensures OfRank(a + b, info, rank) == OfRank(a, info, rank) + OfRank(b, info, rank)
    decreases |b|
  {
    hide Rank;
    if b == [] {
      assert a + b == a;
    } else {
      assert (a + b)[..|a + b| - 1] == a + b[..|b| - 1];
      OfRankConcat(a, b[..|b| - 1], info, rank);
    }
  }

  lemma {:induction false} NoneOfRank(terms: seq<nat>, info: TermInfo, rank: nat)
    requires forall t <- terms :: Rank(info, t) != rank
    ensures OfRank(terms, info, rank) == []
  {
    hide Rank;
    if terms != [] {
      assert terms[|terms| - 1] in terms;
      NoneOfRank(terms[..|terms| - 1], info, rank);
    }
  }

  /** Ascending precedence; terms of the same precedence keep their order and
      number. */
  ghost predicate StablySorted(sorted: seq<nat>, terms: seq<nat>, info: TermInfo) {
    && (forall i, j | 0 <= i < j < |sorted| :: Rank(info, sorted[i]) <= Rank(info, sorted[j]))
    && (forall rank: nat :: OfRank(sorted, info, rank) == OfRank(terms, info, rank))
    && multiset(sorted) == multiset(terms)
  }

  /** A stable sort by precedence. */
  method SortByPrecedence(accepting: seq<nat>, info: TermInfo) returns (sorted: seq<nat>)
    ensures |sorted| == |accepting| && StablySorted(sorted, accepting, info)
  {
    hide Rank, StablySorted;
    sorted := [];
    assert StablySorted([], accepting[..0], info) by { NothingSorted(info); }
    while |sorted| < |accepting|
      invariant |sorted| <= |accepting|
      invariant StablySorted(sorted, accepting[..|sorted|], info)
    {
      var n := |sorted|;
      var term := accepting[n];
      assert accepting[..n + 1] == accepting[..n] + [term];
      var at := n;
      while at > 0 && Rank(info, sorted[at - 1]) > Rank(info, term)
        invariant 0 <= at <= n
        invariant forall i | at <= i < n :: Rank(info, sorted[i]) > Rank(info, term)
      {
        at := at - 1;
      }
      InsertRanked(sorted, accepting[..n], at, term, info);
      sorted := Inserted(sorted, at, term);
    }
    assert accepting[..|accepting|] == accepting;
  }

  lemma NothingSorted(info: TermInfo)
    ensures StablySorted([], [], info)
  {}

  lemma InsertRanked(sorted: seq<nat>, terms: seq<nat>, at: nat, term: nat, info: TermInfo)
    requires at <= |sorted| && StablySorted(sorted, terms, info)
    requires at > 0 ==> Rank(info, sorted[at - 1]) <= Rank(info, term)
    requires forall i | at <= i < |sorted| :: Rank(info, sorted[i]) > Rank(info, term)
    ensures StablySorted(Inserted(sorted, at, term), terms + [term], info)
  {
    hide Rank, OfRank;
    var left, right := sorted[..at], sorted[at..];
    var out := Inserted(sorted, at, term);
    assert sorted == left + right && out == left + [term] + right;
    InsertContent(sorted, at, term);
    InsertAscending(sorted, at, term, info);
    forall rank: nat ensures OfRank(out, info, rank) == OfRank(terms + [term], info, rank) {
      assert OfRank(sorted, info, rank) == OfRank(terms, info, rank);
      RightHigher(sorted, at, term, info);
      InsertOfRank(left, right, term, info, rank);
      OfRankConcat(terms, [term], info, rank);
    }
  }

  lemma InsertContent(sorted: seq<nat>, at: nat, term: nat)
    requires at <= |sorted|
    ensures multiset(Inserted(sorted, at, term)) == multiset(sorted) + multiset{term}
  {
    assert sorted == sorted[..at] + sorted[at..];
  }

  lemma InsertAscending(sorted: seq<nat>, at: nat, term: nat, info: TermInfo)
    requires at <= |sorted|
    requires forall i, j | 0 <= i < j < |sorted| :: Rank(info, sorted[i]) <= Rank(info, sorted[j])
    requires at > 0 ==> Rank(info, sorted[at - 1]) <= Rank(info, term)
    requires forall i | at <= i < |sorted| :: Rank(info, sorted[i]) > Rank(info, term)
    ensures var out := Inserted(sorted, at, term);
            forall i, j | 0 <= i < j < |out| :: Rank(info, out[i]) <= Rank(info, out[j])
  {
    hide Rank;
    var out := Inserted(sorted, at, term);
    assert forall i | 0 <= i < |out| :: out[i] == if i < at then sorted[i] else if i == at then term else sorted[i - 1];
  }

  lemma RightHigher(sorted: seq<nat>, at: nat, term: nat, info: TermInfo)
    requires at <= |sorted| && forall i | at <= i < |sorted| :: Rank(info, sorted[i]) > Rank(info, term)
    ensures forall i | 0 <= i < |sorted[at..]| :: Rank(info, sorted[at..][i]) > Rank(info, term)
  {}

  /** Passing terms of higher rank does not change the terms of any one rank. */
  lemma InsertOfRank(left: seq<nat>, right: seq<nat>, term: nat, info: TermInfo, rank: nat)
    requires forall i | 0 <= i < |right| :: Rank(info, right[i]) > Rank(info, term)
    ensures OfRank(left + [term] + right, info, rank) == OfRank(left + right, info, rank) + OfRank([term], info, rank)
  {
    hide Rank, OfRank;
    OfRankConcat(left + [term], right, info, rank);
    OfRankConcat(left, [term], info, rank);
    OfRankConcat(left, right, info, rank);
    var l, m, r := OfRank(left, info, rank), OfRank([term], info, rank), OfRank(right, info, rank);
    if rank == Rank(info, term) {
      NoneOfRank(right, info, rank);
      assert (l + m) + [] == l + m && l + [] == l;
    } else {
      NoneOfRank([term], info, rank);
      assert l + [] == l && (l + r) + [] == l + r;
    }
  }

  // ---- encoding ----------------------------------------------------------------------

  /** The table id of each state, its place in the order of encoding. */
  ghost predicate Numbering(dfa: Dfa, order: seq<nat>, ids: seq<nat>) {
    && |ids| == |dfa.states| && |order| < NO_STATE
    && (forall i | 0 <= i < |order| :: order[i] < |ids| && ids[order[i]] == i)
    && forall q | 0 <= q < |ids| && q !in order :: ids[q] == NO_STATE
  }

  predicate Lists(accepts: seq<EncodedTokenAccept>, id: nat) {
    exists a | a in accepts :: a.term == id
  }

  predicate AcceptsId(accepting: seq<nat>, info: TermInfo, id: nat) {
    exists t | t in accepting :: info.outputId(t) == id
  }

  /** The accepted ids, each with its own mask, best precedence first. */
  ghost predicate AcceptsEncode(accepts: seq<EncodedTokenAccept>, accepting: seq<nat>, info: TermInfo) {
    && (forall id: nat :: Lists(accepts, id) <==> AcceptsId(accepting, info, id))
    && (forall a | a in accepts :: a.groupMask == MaskById(info, a.term))
    && forall j, k | 0 <= j < k < |accepts| ::
         PlaceOf(info.precedence, accepts[j].term) <= PlaceOf(info.precedence, accepts[k].term)
  }

  /** Row `i` of the table says what its state says. */
  ghost predicate RowEncodes(table: EncodedTokenTable, row: EncodedTokenState, i: nat, d: DfaState, ids: seq<nat>, info: TermInfo) {
    && row.acceptStart + row.acceptCount <= |table.accepts|
    && AcceptsEncode(table.accepts[row.acceptStart..row.acceptStart + row.acceptCount], d.accepting, info)
    && row.edgeStart + row.edgeCount <= |table.edges| && row.edgeCount == |d.edges|
    && (forall k | 0 <= k < |d.edges| :: table.edges[row.edgeStart + k] == d.edges[k].(target := At(ids, d.edges[k].target)))
    && (forall k | 0 <= k < |table.eof| && table.eof[k].state == i ::
          d.eof.Some? && table.eof[k].target == At(ids, d.eof.value))
    && (d.eof.Some? ==> EncodedTokenEof(i, At(ids, d.eof.value)) in table.eof)
  }

  /** A state's mask leaves out no group of a term accepted from it on. */
  ghost predicate MaskCovers(dfa: Dfa, state: nat, mask: bv16, info: TermInfo) {
    forall q: nat, t: nat | DfaReaches(dfa, state, q) && q < |dfa.states| && t in dfa.states[q].accepting ::
      Covers(mask, MaskOf(info, t))
  }

  /** The union of the masks of the terms accepted from a state on. */
  ghost predicate MaskUnion(dfa: Dfa, state: nat, mask: bv16, info: TermInfo) {
    && MaskCovers(dfa, state, mask, info)
    && forall other: bv16 :: MaskCovers(dfa, state, other, info) ==> Covers(other, mask)
  }

  /** The first `n` rows are done, and nothing is stored for later ones. */
  ghost predicate TableEncodes(dfa: Dfa, order: seq<nat>, ids: seq<nat>, info: TermInfo, n: nat, table: EncodedTokenTable) {
    && n <= |order| && |table.states| == n
    && (forall i | 0 <= i < n && order[i] < |dfa.states| ::
          && RowEncodes(table, table.states[i], i, dfa.states[order[i]], ids, info)
          && MaskUnion(dfa, order[i], table.states[i].groupMask, info))
    && forall k | 0 <= k < |table.eof| :: table.eof[k].state < n
  }

  lemma RowStays(table: EncodedTokenTable, table': EncodedTokenTable, row: EncodedTokenState, i: nat, d: DfaState,
                 ids: seq<nat>, info: TermInfo)
    requires RowEncodes(table, row, i, d, ids, info)
    requires table.accepts <= table'.accepts && table.edges <= table'.edges && table.eof <= table'.eof
    requires forall k | |table.eof| <= k < |table'.eof| :: table'.eof[k].state != i
    ensures RowEncodes(table', row, i, d, ids, info)
  {
    hide AcceptsEncode;
    assert table'.accepts[row.acceptStart..row.acceptStart + row.acceptCount]
        == table.accepts[row.acceptStart..row.acceptStart + row.acceptCount];
  }

  method EncodeAccepts(accepting: seq<nat>, info: TermInfo) returns (accepts: seq<EncodedTokenAccept>)
    ensures |accepts| == |accepting| && AcceptsEncode(accepts, accepting, info)
  {
    hide MaskById, PlaceOf;
    var sorted := SortByPrecedence(accepting, info);
    accepts := [];
    while |accepts| < |sorted|
      invariant |accepts| <= |sorted|
      invariant forall k | 0 <= k < |accepts| ::
                  accepts[k] == EncodedTokenAccept(info.outputId(sorted[k]), MaskOf(info, sorted[k]))
    {
      var term := sorted[|accepts|];
      accepts := accepts + [EncodedTokenAccept(info.outputId(term), MaskOf(info, term))];
    }
    forall t ensures t in sorted <==> t in accepting {
      assert t in sorted <==> t in multiset(sorted);
      assert t in accepting <==> t in multiset(accepting);
    }
    forall k | 0 <= k < |accepts| ensures sorted[k] in accepting { assert sorted[k] in sorted; }
    forall t | t in accepting
      ensures Lists(accepts, info.outputId(t))
    {
      assert t in sorted;
      var k :| 0 <= k < |sorted| && sorted[k] == t;
      assert accepts[k] in accepts && accepts[k].term == info.outputId(t);
    }
    forall j, k | 0 <= j < k < |accepts|
      ensures PlaceOf(info.precedence, accepts[j].term) <= PlaceOf(info.precedence, accepts[k].term)
    {
      assert Rank(info, sorted[j]) <= Rank(info, sorted[k]);
    }
  }

  /** The edges of one state with encoded targets, or the error that stops
      encoding. Sorted edges between encoded states give no error. */
  method EncodeEdges(edges: seq<DfaEdge>, ids: seq<nat>) returns (encoded: seq<DfaEdge>, error: Option<TableError>)
    ensures EdgesSorted(edges) && (forall e | e in edges :: e.target < |ids| && ids[e.target] != NO_STATE) ==> error.None?
    ensures error.None? ==>
              |encoded| == |edges| && forall k | 0 <= k < |edges| :: encoded[k] == edges[k].(target := At(ids, edges[k].target))
  {
    encoded, error := [], None;
    var previousEnd: Option<nat> := None;
    var i := 0;
    while i < |edges|
      invariant 0 <= i <= |edges| == |edges| && |encoded| == i
      invariant forall k | 0 <= k < i :: encoded[k] == edges[k].(target := At(ids, edges[k].target))
      invariant previousEnd == if i == 0 then None else Some(edges[i - 1].to)
    {
      var edge := edges[i];
      assert edge in edges;
      if edge.from >= edge.to || edge.to > CODE_POINT_LIMIT {
        return encoded, Some(OutsideDomain);
      }
      if previousEnd.Some? && edge.from < previousEnd.value {
        return encoded, Some(NotSorted);
      }
      if edge.target >= |ids| || ids[edge.target] == NO_STATE {
        return encoded, Some(UnreachableTarget);
      }
      encoded := encoded + [edge.(target := ids[edge.target])];
      previousEnd := Some(edge.to);
      i := i + 1;
    }
  }

  /** Table ids by order of encoding; states outside it keep the sentinel. */
  method NumberStates(dfa: Dfa, order: seq<nat>) returns (ids: seq<nat>)
    requires |order| < NO_STATE
    requires forall i, j | 0 <= i < j < |order| :: order[i] != order[j]
    requires forall i | 0 <= i < |order| :: order[i] < |dfa.states|
    ensures Numbering(dfa, order, ids)
  {
    ids := seq(|dfa.states|, _ => NO_STATE);
    var i := 0;
    while i < |order|
      invariant 0 <= i <= |order| && |ids| == |dfa.states|
      invariant forall k | 0 <= k < i :: ids[order[k]] == k
      invariant forall q | 0 <= q < |ids| && q !in order[..i] :: ids[q] == NO_STATE
    {
      ids := ids[order[i] := i];
      assert order[..i + 1] == order[..i] + [order[i]];
      i := i + 1;
    }
    assert order[..|order|] == order;
  }

  /** Accepted terms and edges of the first `n` encoded states. */
  function AcceptTotal(dfa: Dfa, order: seq<nat>, n: nat): nat
    requires n <= |order| && forall i | 0 <= i < |order| :: order[i] < |dfa.states|
  {
    if n == 0 then 0 else AcceptTotal(dfa, order, n - 1) + |dfa.states[order[n - 1]].accepting|
  }

  function EdgeTotal(dfa: Dfa, order: seq<nat>, n: nat): nat
    requires n <= |order| && forall i | 0 <= i < |order| :: order[i] < |dfa.states|
  {
    if n == 0 then 0 else EdgeTotal(dfa, order, n - 1) + |dfa.states[order[n - 1]].edges|
  }

  /** The size that an encoding error complains about. */
  ghost predicate Oversized(dfa: Dfa, order: seq<nat>, error: TableError)
    requires forall i | 0 <= i < |order| :: order[i] < |dfa.states|
  {
    match error
    case TooManyStates => |order| >= NO_STATE
    case TooManyAccepts => exists i :: 0 <= i < |order| && |dfa.states[order[i]].accepting| > 255
    case TooManyEdges => exists i :: 0 <= i < |order| && |dfa.states[order[i]].edges| > 255
    case IndexTooLarge =>
      exists n: nat :: n < |order| && (AcceptTotal(dfa, order, n) > 0xFFFF || EdgeTotal(dfa, order, n) > 0xFFFF)
    case _ => false
  }

  /** Encode a deterministic automaton. Only sizes can make it fail: edges are
      in range, sorted and lead to encoded states. */
  method ToTable(dfa: Dfa, info: TermInfo) returns (result: Result<EncodedTokenTable>, ghost order: seq<nat>, ghost ids: seq<nat>)
    requires DfaWellFormed(dfa)
    ensures result.Ok? ==>
              && Reached(dfa, dfa.start, order) && Numbering(dfa, order, ids)
              && TableEncodes(dfa, order, ids, info, |order|, result.value)
    ensures result.Err? ==> Reached(dfa, dfa.start, order) && Oversized(dfa, order, result.error)
  {
    hide Reached, Numbering, TableEncodes, Oversized, Totals, DfaWellFormed;
    WellFormedStart(dfa);
    var reached := ReachableFrom(dfa, dfa.start);
    order, ids := reached, [];
    ReachedBounds(dfa, dfa.start, reached);
    if |reached| >= NO_STATE {
      ManyStates(dfa, reached);
      return Err(TooManyStates), order, ids;
    }
    var stateIds := NumberStates(dfa, reached);
    ids := stateIds;
    var table := EncodedTokenTable([], [], [], []);
    NothingEncoded(dfa, reached, stateIds, info);
    var n := 0;
    while n < |reached|
      invariant 0 <= n <= |reached|
      invariant TableEncodes(dfa, reached, stateIds, info, n, table) && Totals(dfa, reached, n, table)
    {
      var error;
      error, table := EncodeState(dfa, reached, stateIds, info, n, table);
      if error.Some? {
        return Err(error.value), order, ids;
      }
      n := n + 1;
    }
    result := Ok(table);
  }

  /** How much of its two lists the rows so far have filled. */
  ghost predicate Totals(dfa: Dfa, order: seq<nat>, n: nat, table: EncodedTokenTable)
    requires forall i | 0 <= i < |order| :: order[i] < |dfa.states|
  {
    n <= |order| && |table.accepts| == AcceptTotal(dfa, order, n) && |table.edges| == EdgeTotal(dfa, order, n)
  }

  lemma ReachedBounds(dfa: Dfa, start: nat, order: seq<nat>)
    requires Reached(dfa, start, order)
    ensures forall i | 0 <= i < |order| :: order[i] < |dfa.states|
    ensures forall i, j | 0 <= i < j < |order| :: order[i] != order[j]
  {
    hide DfaReaches;
  }

  lemma WellFormedStart(dfa: Dfa)
    requires DfaWellFormed(dfa)
    ensures dfa.start < |dfa.states|
  {}

  lemma ManyStates(dfa: Dfa, order: seq<nat>)
    requires |order| >= NO_STATE && forall i | 0 <= i < |order| :: order[i] < |dfa.states|
    ensures Oversized(dfa, order, TooManyStates)
  {}

  lemma NothingEncoded(dfa: Dfa, order: seq<nat>, ids: seq<nat>, info: TermInfo)
    requires forall i | 0 <= i < |order| :: order[i] < |dfa.states|
    ensures var none := EncodedTokenTable([], [], [], []);
            TableEncodes(dfa, order, ids, info, 0, none) && Totals(dfa, order, 0, none)
  {}

  /** One more row, with its accepted terms, its edges and its end of file. */
  method EncodeState(dfa: Dfa, order: seq<nat>, ids: seq<nat>, info: TermInfo, n: nat, table: EncodedTokenTable)
    returns (error: Option<TableError>, table': EncodedTokenTable)
    requires DfaWellFormed(dfa) && Reached(dfa, dfa.start, order) && Numbering(dfa, order, ids) && n < |order|
    requires forall i | 0 <= i < |order| :: order[i] < |dfa.states|
    requires TableEncodes(dfa, order, ids, info, n, table) && Totals(dfa, order, n, table)
    ensures error.None? ==> TableEncodes(dfa, order, ids, info, n + 1, table') && Totals(dfa, order, n + 1, table')
    ensures error.Some? ==> Oversized(dfa, order, error.value)
  {
    hide Reached, Numbering, RowEncodes, EdgesSorted, At, MaskById, AcceptsEncode, MaskUnion, DfaWellFormed;
    table' := table;
    var state := dfa.states[order[n]];
    var accepts := EncodeAccepts(state.accepting, info);
    var edges;
    edges, error := EncodeEdges(state.edges, ids);
    LinksEncoded(dfa, order, ids, order[n]);
    if |accepts| > 255 {
      return Some(TooManyAccepts), table';
    }
    if |edges| > 255 {
      return Some(TooManyEdges), table';
    }
    var eof := table.eof;
    if state.eof.Some? {
      eof := eof + [EncodedTokenEof(n, ids[state.eof.value])];
    }
    if |table.accepts| > 0xFFFF || |table.edges| > 0xFFFF {
      return Some(IndexTooLarge), table';
    }
    var mask := StateMask(dfa, order[n], info);
    var row := EncodedTokenState(mask, |table.accepts|, |table.edges|, |accepts|, |edges|);
    table' := EncodedTokenTable(table.states + [row], table.accepts + accepts, table.edges + edges, eof);
    RowAdded(table, table', row, n, state, ids, info, accepts, edges);
    TableGrows(dfa, order, ids, info, n, table, table');
  }

  /** A link from an encoded state leads to an encoded state. */
  lemma LinksEncoded(dfa: Dfa, order: seq<nat>, ids: seq<nat>, s: nat)
    requires DfaWellFormed(dfa) && Reached(dfa, dfa.start, order) && Numbering(dfa, order, ids) && s in order && s < |dfa.states|
    ensures EdgesSorted(dfa.states[s].edges)
    ensures forall e | e in dfa.states[s].edges :: e.target < |ids| && ids[e.target] != NO_STATE
    ensures dfa.states[s].eof.Some? ==> dfa.states[s].eof.value < |ids| && ids[dfa.states[s].eof.value] != NO_STATE
  {
    hide DfaReaches, EdgesSorted;
    forall q: nat | DfaLink(dfa, s, q)
      ensures q < |ids| && ids[q] != NO_STATE
    {
      DfaReachesPush(dfa, dfa.start, s, q);
      var i :| 0 <= i < |order| && order[i] == q;
    }
  }

  lemma RowAdded(table: EncodedTokenTable, table': EncodedTokenTable, row: EncodedTokenState, n: nat, d: DfaState,
                 ids: seq<nat>, info: TermInfo, accepts: seq<EncodedTokenAccept>, edges: seq<DfaEdge>)
    requires row.acceptStart == |table.accepts| && row.acceptCount == |accepts|
    requires row.edgeStart == |table.edges| && row.edgeCount == |edges|
    requires table'.accepts == table.accepts + accepts && table'.edges == table.edges + edges
    requires d.eof.Some? ==> d.eof.value < |ids|
    requires table'.eof == if d.eof.Some? then table.eof + [EncodedTokenEof(n, ids[d.eof.value])] else table.eof
    requires forall k | 0 <= k < |table.eof| :: table.eof[k].state < n
    requires AcceptsEncode(accepts, d.accepting, info)
    requires |edges| == |d.edges|
    requires forall k | 0 <= k < |edges| :: edges[k] == d.edges[k].(target := At(ids, d.edges[k].target))
    ensures RowEncodes(table', row, n, d, ids, info)
  {
    hide AcceptsEncode;
    assert table'.accepts[row.acceptStart..row.acceptStart + row.acceptCount] == accepts;
    if d.eof.Some? {
      assert table'.eof[|table.eof|] == EncodedTokenEof(n, At(ids, d.eof.value));
    }
  }

  lemma TableGrows(dfa: Dfa, order: seq<nat>, ids: seq<nat>, info: TermInfo, n: nat,
                   table: EncodedTokenTable, table': EncodedTokenTable)
    requires TableEncodes(dfa, order, ids, info, n, table) && n < |order| && order[n] < |dfa.states|
    requires |table'.states| == n + 1 && table.states <= table'.states
    requires table.accepts <= table'.accepts && table.edges <= table'.edges && table.eof <= table'.eof
    requires forall k | |table.eof| <= k < |table'.eof| :: table'.eof[k].state == n
    requires RowEncodes(table', table'.states[n], n, dfa.states[order[n]], ids, info)
    requires MaskUnion(dfa, order[n], table'.states[n].groupMask, info)
    ensures TableEncodes(dfa, order, ids, info, n + 1, table')
  {
    hide RowEncodes, MaskUnion;
    forall i | 0 <= i < n && order[i] < |dfa.states|
      ensures RowEncodes(table', table'.states[i], i, dfa.states[order[i]], ids, info)
    {
      RowStays(table, table', table.states[i], i, dfa.states[order[i]], ids, info);
    }
  }
}
