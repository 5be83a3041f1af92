/** Subset construction over code-point intervals. */
module SubsetConstruction {
  import opened Options
  import opened TokenNfa

  datatype DfaEdge = DfaEdge(from: nat, to: nat, target: nat)

  datatype DfaState = DfaState(accepting: seq<nat>, edges: seq<DfaEdge>, eof: Option<nat>)

  datatype Dfa = Dfa(states: seq<DfaState>, start: nat)

  datatype MergedEdge = MergedEdge(from: nat, to: nat, targets: seq<nat>)

  // ---- deterministic automata ----------------------------------------------------------

  function FindEdge(edges: seq<DfaEdge>, c: nat): Option<nat> {
    if edges == [] then None
    else if edges[0].from <= c < edges[0].to then Some(edges[0].target)
    else FindEdge(edges[1..], c)
  }

  function DfaStep(state: DfaState, x: Symbol): Option<nat> {
    match x
    case Char(c) => FindEdge(state.edges, c)
    case EndOfFile => state.eof
  }

  predicate DfaAccepts(dfa: Dfa, s: nat, word: seq<Symbol>, term: nat)
    decreases |word|
  {
    s < |dfa.states| &&
    if word == [] then term in dfa.states[s].accepting
    else
      var next := DfaStep(dfa.states[s], word[0]);
      next.Some? && DfaAccepts(dfa, next.value, word[1..], term)
  }

  /** Edges cover disjoint, ascending, nonempty intervals. */
  predicate EdgesSorted(edges: seq<DfaEdge>) {
    && (forall i | 0 <= i < |edges| :: edges[i].from < edges[i].to <= CODE_POINT_LIMIT)
    && (forall i, j | 0 <= i < j < |edges| :: edges[i].to <= edges[j].from)
  }

  ghost predicate DfaWellFormed(dfa: Dfa) {
    && dfa.start < |dfa.states|
    && forall s | 0 <= s < |dfa.states| ::
         && EdgesSorted(dfa.states[s].edges)
         && (forall e | e in dfa.states[s].edges :: e.target < |dfa.states|)
         && (dfa.states[s].eof.Some? ==> dfa.states[s].eof.value < |dfa.states|)
  }

  lemma {:induction false} FindEdgeSome(edges: seq<DfaEdge>, c: nat)
    ensures FindEdge(edges, c).Some? <==> exists i :: 0 <= i < |edges| && edges[i].from <= c < edges[i].to
    ensures FindEdge(edges, c).Some? ==>
              exists i :: 0 <= i < |edges| && edges[i].from <= c < edges[i].to && edges[i].target == FindEdge(edges, c).value
  {
    if edges != [] {
      FindEdgeSome(edges[1..], c);
      if edges[0].from <= c < edges[0].to {
      } else if i :| 0 <= i < |edges| && edges[i].from <= c < edges[i].to {
        assert edges[1..][i - 1] == edges[i];
      }
    }
  }

  /** In sorted edges the interval that holds a code point is the one found. */
  lemma FindEdgeIs(edges: seq<DfaEdge>, c: nat, i: nat)
    requires EdgesSorted(edges) && i < |edges| && edges[i].from <= c < edges[i].to
    ensures FindEdge(edges, c) == Some(edges[i].target)
  {
    FindEdgeSome(edges, c);
    var k :| 0 <= k < |edges| && edges[k].from <= c < edges[k].to && edges[k].target == FindEdge(edges, c).value;
    assert k == i;
  }

  // ---- one step of sets ------------------------------------------------------------------

  /** `q` is significant and reached from the target of `e`. */
  ghost predicate Enters(nfa: Nfa, e: NfaEdge, q: nat) {
    EpsilonReaches(nfa, e.target, q) && Significant(nfa, q)
  }

  ghost predicate EdgeDelta(nfa: Nfa, edges: seq<NfaEdge>, x: Symbol, q: nat) {
    exists e | e in edges :: Matches(e, x) && Enters(nfa, e, q)
  }

  /** The states one symbol leads to from a set of states. */
  ghost predicate SetDelta(nfa: Nfa, states: seq<nat>, x: Symbol, q: nat) {
    exists p | p in states :: p < |nfa.states| && EdgeDelta(nfa, nfa.states[p].edges, x, q)
  }

  ghost predicate MergedHas(merged: seq<MergedEdge>, c: nat, q: nat) {
    exists i :: 0 <= i < |merged| && merged[i].from <= c < merged[i].to && q in merged[i].targets
  }

  predicate MergedSorted(merged: seq<MergedEdge>) {
    && (forall i | 0 <= i < |merged| :: merged[i].from < merged[i].to <= CODE_POINT_LIMIT && merged[i].targets != [])
    && (forall i, j | 0 <= i < j < |merged| :: merged[i].to <= merged[j].from)
  }

  ghost predicate EdgesOk(nfa: Nfa, edges: seq<NfaEdge>) {
    forall e | e in edges :: e.CodePoint? && e.target < |nfa.states| && e.from < e.to <= CODE_POINT_LIMIT
  }

  /** The closures of the edges that overlap one interval. */
  method OverlapTargets(nfa: Nfa, edges: seq<NfaEdge>, from: nat, to: nat) returns (targets: seq<nat>)
    requires WellFormed(nfa) && EdgesOk(nfa, edges)
    ensures forall q: nat :: q in targets <==> exists e | e in edges :: e.CodePoint? && e.to > from && e.from < to && Enters(nfa, e, q)
  {
    hide EpsilonReaches, Significant, WellFormed;
    targets := [];
    var i := 0;
    while i < |edges|
      invariant 0 <= i <= |edges|
      invariant forall q: nat :: q in targets <==>
                  exists k :: 0 <= k < i && edges[k].CodePoint? && edges[k].to > from && edges[k].from < to && Enters(nfa, edges[k], q)
    {
      assert edges[i] in edges;
      if edges[i].to > from && edges[i].from < to {
        var closure := Closure(nfa, edges[i].target);
        targets := targets + closure;
      }
      i := i + 1;
    }
  }

  /** Between neighbouring boundaries, overlapping is containing. */
  lemma OverlapIsMatch(edges: seq<NfaEdge>, boundaries: seq<nat>, k: nat, c: nat, e: NfaEdge)
    requires Increasing(boundaries) && k + 1 < |boundaries|
    requires e.CodePoint? && e.from in boundaries && e.to in boundaries && e.from < e.to
    requires boundaries[k] <= c < boundaries[k + 1]
    ensures Matches(e, Char(c)) <==> e.to > boundaries[k] && e.from < boundaries[k + 1]
  {
    var i :| 0 <= i < |boundaries| && boundaries[i] == e.from;
    var j :| 0 <= j < |boundaries| && boundaries[j] == e.to;
  }

  /** Cut the edges at every boundary into sorted disjoint intervals, each with
      the union of the closures of the edges over it. */
  method MergeEdges(nfa: Nfa, edges: seq<NfaEdge>) returns (merged: seq<MergedEdge>)
    requires WellFormed(nfa) && EdgesOk(nfa, edges)
    ensures MergedSorted(merged)
    ensures forall c: nat, q: nat :: MergedHas(merged, c, q) <==> EdgeDelta(nfa, edges, Char(c), q)
  {
    hide *;
    var boundaries := Boundaries(nfa, edges);
    merged := [];
    if |boundaries| < 2 {
      NoBoundaries(nfa, edges, boundaries);
      return;
    }
    var k := 0;
    NothingMerged(nfa, edges, boundaries);
    while k + 1 < |boundaries|
      invariant 0 <= k < |boundaries|
      invariant MergedUpTo(nfa, edges, merged, boundaries[k])
    {
      var from, to := boundaries[k], boundaries[k + 1];
      var targets := OverlapTargets(nfa, edges, from, to);
      MergeStep(nfa, edges, boundaries, k, merged, targets);
      if targets != [] {
        merged := merged + [MergedEdge(from, to, targets)];
      }
      k := k + 1;
    }
    EverythingMerged(nfa, edges, boundaries, merged);
  }

  /** The intervals below `limit` are done: each code point leads where the
      edges lead. */
  ghost predicate MergedUpTo(nfa: Nfa, edges: seq<NfaEdge>, merged: seq<MergedEdge>, limit: nat) {
    && MergedSorted(merged)
    && (forall i | 0 <= i < |merged| :: merged[i].to <= limit)
    && forall c: nat, q: nat | c < limit :: MergedHas(merged, c, q) <==> EdgeDelta(nfa, edges, Char(c), q)
  }

  lemma NoBoundaries(nfa: Nfa, edges: seq<NfaEdge>, boundaries: seq<nat>)
    requires EdgesOk(nfa, edges) && Bounds(edges, boundaries) && |boundaries| < 2
    ensures MergedSorted([])
    ensures forall c: nat, q: nat :: MergedHas([], c, q) <==> EdgeDelta(nfa, edges, Char(c), q)
  {
    assert forall i | 0 <= i < |edges| :: edges[i] in edges;
  }

  lemma NothingMerged(nfa: Nfa, edges: seq<NfaEdge>, boundaries: seq<nat>)
    requires EdgesOk(nfa, edges) && Bounds(edges, boundaries) && |boundaries| >= 2
    ensures MergedUpTo(nfa, edges, [], boundaries[0])
  {
    hide EdgeDelta, MergedHas;
    forall c: nat, q: nat | c < boundaries[0]
      ensures MergedHas([], c, q) <==> EdgeDelta(nfa, edges, Char(c), q)
    {
      OutsideBoundaries(nfa, edges, boundaries, c, q);
    }
  }

  lemma EverythingMerged(nfa: Nfa, edges: seq<NfaEdge>, boundaries: seq<nat>, merged: seq<MergedEdge>)
    requires EdgesOk(nfa, edges) && Bounds(edges, boundaries) && |boundaries| >= 2
    requires MergedUpTo(nfa, edges, merged, boundaries[|boundaries| - 1])
    ensures MergedSorted(merged)
    ensures forall c: nat, q: nat :: MergedHas(merged, c, q) <==> EdgeDelta(nfa, edges, Char(c), q)
  {
    hide EdgeDelta, MergedHas, MergedSorted, EdgesOk, Bounds;
    var last := boundaries[|boundaries| - 1];
    forall c: nat, q: nat
      ensures MergedHas(merged, c, q) <==> EdgeDelta(nfa, edges, Char(c), q)
    {
      if c >= last {
        OutsideBoundaries(nfa, edges, boundaries, c, q);
        NoInterval(merged, c, q);
      }
    }
  }

  lemma MergeStep(nfa: Nfa, edges: seq<NfaEdge>, boundaries: seq<nat>, k: nat, merged: seq<MergedEdge>, targets: seq<nat>)
    requires EdgesOk(nfa, edges) && Bounds(edges, boundaries) && k + 1 < |boundaries|
    requires MergedUpTo(nfa, edges, merged, boundaries[k])
    requires forall q: nat :: q in targets <==>
               exists e | e in edges :: e.CodePoint? && e.to > boundaries[k] && e.from < boundaries[k + 1] && Enters(nfa, e, q)
    ensures boundaries[k] < boundaries[k + 1] <= CODE_POINT_LIMIT
    ensures MergedUpTo(nfa, edges,
                       if targets != [] then merged + [MergedEdge(boundaries[k], boundaries[k + 1], targets)] else merged,
                       boundaries[k + 1])
  {
    hide EdgeDelta, MergedHas, EdgesOk, Enters;
    var from, to := boundaries[k], boundaries[k + 1];
    assert to in boundaries;
    var edge := MergedEdge(from, to, targets);
    var merged' := if targets != [] then merged + [edge] else merged;
    forall c: nat, q: nat | c < to
      ensures MergedHas(merged', c, q) <==> EdgeDelta(nfa, edges, Char(c), q)
    {
      MergedPush(merged, edge, c, q);
      if c >= from {
        IntervalDelta(nfa, edges, boundaries, k, targets, c, q);
      }
    }
  }

  /** The interval ends of the edges, sorted. */
  method Boundaries(nfa: Nfa, edges: seq<NfaEdge>) returns (boundaries: seq<nat>)
    requires EdgesOk(nfa, edges)
    ensures Bounds(edges, boundaries)
  {
    var ends: seq<nat> := [];
    var i := 0;
    while i < |edges|
      invariant 0 <= i <= |edges|
      invariant forall k | 0 <= k < i && edges[k].CodePoint? :: edges[k].from in ends && edges[k].to in ends
      invariant forall b | b in ends :: b <= CODE_POINT_LIMIT
    {
      var e := edges[i];
      assert e in edges;
      ends := ends + [e.from, e.to];
      i := i + 1;
    }
    boundaries := SortDistinct(ends);
  }

  ghost predicate Bounds(edges: seq<NfaEdge>, boundaries: seq<nat>) {
    && Increasing(boundaries)
    && (forall e | e in edges && e.CodePoint? :: e.from in boundaries && e.to in boundaries)
    && (forall b | b in boundaries :: b <= CODE_POINT_LIMIT)
  }

  lemma MergedPush(merged: seq<MergedEdge>, edge: MergedEdge, c: nat, q: nat)
    requires forall i | 0 <= i < |merged| :: merged[i].to <= edge.from
    ensures c < edge.from ==> (MergedHas(merged + [edge], c, q) <==> MergedHas(merged, c, q))
    ensures edge.from <= c < edge.to ==> (MergedHas(merged + [edge], c, q) <==> q in edge.targets)
    ensures edge.from <= c < edge.to ==> !MergedHas(merged, c, q)
  {
    var all := merged + [edge];
    assert all[|merged|] == edge;
    if c < edge.from && MergedHas(merged, c, q) {
      var i :| 0 <= i < |merged| && merged[i].from <= c < merged[i].to && q in merged[i].targets;
      assert all[i] == merged[i];
    }
  }

  lemma NoInterval(merged: seq<MergedEdge>, c: nat, q: nat)
    requires forall i | 0 <= i < |merged| :: merged[i].to <= c
    ensures !MergedHas(merged, c, q)
  {}

  lemma OutsideBoundaries(nfa: Nfa, edges: seq<NfaEdge>, boundaries: seq<nat>, c: nat, q: nat)
    requires EdgesOk(nfa, edges) && Bounds(edges, boundaries)
    requires boundaries == [] || c < boundaries[0] || c >= boundaries[|boundaries| - 1]
    ensures !EdgeDelta(nfa, edges, Char(c), q) && !MergedHas([], c, q)
  {
    hide Enters;
    forall e | e in edges
      ensures !Matches(e, Char(c))
    {
      var i :| 0 <= i < |boundaries| && boundaries[i] == e.from;
      var j :| 0 <= j < |boundaries| && boundaries[j] == e.to;
    }
  }

  lemma IntervalDelta(nfa: Nfa, edges: seq<NfaEdge>, boundaries: seq<nat>, k: nat, targets: seq<nat>, c: nat, q: nat)
    requires EdgesOk(nfa, edges) && Bounds(edges, boundaries) && k + 1 < |boundaries|
    requires boundaries[k] <= c < boundaries[k + 1]
    requires q in targets <==>
               exists e | e in edges :: e.CodePoint? && e.to > boundaries[k] && e.from < boundaries[k + 1] && Enters(nfa, e, q)
    ensures q in targets <==> EdgeDelta(nfa, edges, Char(c), q)
  {
    hide Enters, Matches;
    forall e | e in edges
      ensures Matches(e, Char(c)) <==> e.to > boundaries[k] && e.from < boundaries[k + 1]
    {
      OverlapIsMatch(edges, boundaries, k, c, e);
    }
  }

  // ---- the construction ----------------------------------------------------------------

  /** The numbered sets found so far, without repetition. */
  ghost predicate Numbered(nfa: Nfa, sets: seq<seq<nat>>, ids: map<seq<nat>, nat>) {
    && (forall i | 0 <= i < |sets| :: IsSet(nfa, sets[i]) && sets[i] in ids && ids[sets[i]] == i)
    && (forall s | s in ids :: ids[s] < |sets| && sets[ids[s]] == s)
  }

  /** Sorted significant states. */
  ghost predicate IsSet(nfa: Nfa, states: seq<nat>) {
    Increasing(states) && forall q | q in states :: q < |nfa.states| && Significant(nfa, q)
  }

  method InternSet(nfa: Nfa, targets: seq<nat>, sets: seq<seq<nat>>, ids: map<seq<nat>, nat>)
    returns (target: nat, sets': seq<seq<nat>>, ids': map<seq<nat>, nat>)
    requires Numbered(nfa, sets, ids) && IsSet(nfa, targets)
    ensures Numbered(nfa, sets', ids')
    ensures target < |sets'| && sets'[target] == targets
    ensures sets <= sets' && ids.Keys <= ids'.Keys
    ensures ids.Keys == ids'.Keys ==> sets' == sets
  {
    hide IsSet;
    if targets in ids {
      return ids[targets], sets, ids;
    }
    target := |sets|;
    sets' := sets + [targets];
    ids' := ids[targets := target];
    assert targets in ids'.Keys;
  }

  /** A deterministic state that stands for a set of states: it accepts what they
      accept and moves to what they move to. */
  ghost predicate StandsFor(nfa: Nfa, sets: seq<seq<nat>>, states: seq<nat>, d: DfaState) {
    && Increasing(d.accepting)
    && (forall t: nat :: t in d.accepting <==> exists p | p in states :: p < |nfa.states| && t in nfa.states[p].accepting)
    && EdgesSorted(d.edges)
    && (forall i | 0 <= i < |d.edges| :: d.edges[i].target < |sets|)
    && (d.eof.Some? ==> d.eof.value < |sets|)
    && forall x, q: nat :: SetDelta(nfa, states, x, q) <==> StepHas(sets, d, x, q)
  }

  ghost predicate StepHas(sets: seq<seq<nat>>, d: DfaState, x: Symbol, q: nat) {
    var next := DfaStep(d, x);
    next.Some? && next.value < |sets| && q in sets[next.value]
  }

  /** New sets do not change what a state stands for. */
  lemma StandsForMore(nfa: Nfa, sets: seq<seq<nat>>, sets': seq<seq<nat>>, states: seq<nat>, d: DfaState)
    requires StandsFor(nfa, sets, states, d) && sets <= sets'
    ensures StandsFor(nfa, sets', states, d)
  {
    hide SetDelta, EdgesSorted;
    forall x, q: nat
      ensures StepHas(sets', d, x, q) <==> StepHas(sets, d, x, q)
    {
      if x.Char? {
        FindEdgeSome(d.edges, x.c);
      }
    }
  }

  /** What the loops over the states of one set collect. */
  method CollectSet(nfa: Nfa, states: seq<nat>)
    returns (accepting: seq<nat>, codePoints: seq<NfaEdge>, eofTargets: seq<nat>)
    requires WellFormed(nfa) && IsSet(nfa, states)
    ensures Increasing(accepting)
    ensures forall t: nat :: t in accepting <==> exists p | p in states :: p < |nfa.states| && t in nfa.states[p].accepting
    ensures EdgesOk(nfa, codePoints)
    ensures forall c: nat, q: nat :: EdgeDelta(nfa, codePoints, Char(c), q) <==> SetDelta(nfa, states, Char(c), q)
    ensures IsSet(nfa, eofTargets)
    ensures forall q: nat :: q in eofTargets <==> SetDelta(nfa, states, EndOfFile, q)
  {
    hide Enters, Significant;
    accepting, codePoints, eofTargets := [], [], [];
    var i := 0;
    while i < |states|
      invariant 0 <= i <= |states|
      invariant forall t: nat :: t in accepting <==> AcceptedBefore(nfa, states, i, t)
      invariant EdgesOk(nfa, codePoints)
      invariant forall e | e in codePoints :: EdgeBefore(nfa, states, i, e)
      invariant forall e: NfaEdge | e.CodePoint? && EdgeBefore(nfa, states, i, e) :: e in codePoints
      invariant forall q: nat :: q in eofTargets <==> EofBefore(nfa, states, i, q)
    {
      var p := states[i];
      assert p in states;
      var edges := nfa.states[p].edges;
      var eof := EofTargets(nfa, edges);
      accepting := accepting + nfa.states[p].accepting;
      var labeled := CodePointEdges(edges);
      codePoints := codePoints + labeled;
      eofTargets := eofTargets + eof;
      i := i + 1;
    }
    CollectedDelta(nfa, states, codePoints);
    EofDelta(nfa, states, eofTargets);
    accepting := SortDistinct(accepting);
    eofTargets := SortDistinct(eofTargets);
  }

  ghost predicate AcceptedBefore(nfa: Nfa, states: seq<nat>, n: nat, t: nat) {
    exists k :: 0 <= k < n && k < |states| && states[k] < |nfa.states| && t in nfa.states[states[k]].accepting
  }

  ghost predicate EdgeBefore(nfa: Nfa, states: seq<nat>, n: nat, e: NfaEdge) {
    exists k :: 0 <= k < n && k < |states| && states[k] < |nfa.states| && e in nfa.states[states[k]].edges
  }

  ghost predicate EofBefore(nfa: Nfa, states: seq<nat>, n: nat, q: nat) {
    exists k :: 0 <= k < n && k < |states| && states[k] < |nfa.states| && EdgeDelta(nfa, nfa.states[states[k]].edges, EndOfFile, q)
  }

  lemma CollectedDelta(nfa: Nfa, states: seq<nat>, codePoints: seq<NfaEdge>)
    requires forall e | e in codePoints :: e.CodePoint? && EdgeBefore(nfa, states, |states|, e)
    requires forall e: NfaEdge | e.CodePoint? && EdgeBefore(nfa, states, |states|, e) :: e in codePoints
    ensures forall c: nat, q: nat :: EdgeDelta(nfa, codePoints, Char(c), q) <==> SetDelta(nfa, states, Char(c), q)
  {
    hide Enters;
    forall c: nat, q: nat
      ensures EdgeDelta(nfa, codePoints, Char(c), q) <==> SetDelta(nfa, states, Char(c), q)
    {
      if EdgeDelta(nfa, codePoints, Char(c), q) {
        var e :| e in codePoints && Matches(e, Char(c)) && Enters(nfa, e, q);
        var k :| 0 <= k < |states| && states[k] < |nfa.states| && e in nfa.states[states[k]].edges;
        assert states[k] in states && EdgeDelta(nfa, nfa.states[states[k]].edges, Char(c), q);
      }
      if SetDelta(nfa, states, Char(c), q) {
        var p :| p in states && p < |nfa.states| && EdgeDelta(nfa, nfa.states[p].edges, Char(c), q);
        var e :| e in nfa.states[p].edges && Matches(e, Char(c)) && Enters(nfa, e, q);
        var k :| 0 <= k < |states| && states[k] == p;
        assert EdgeBefore(nfa, states, |states|, e);
      }
    }
  }

  lemma EofDelta(nfa: Nfa, states: seq<nat>, eofTargets: seq<nat>)
    requires forall q: nat :: q in eofTargets <==> EofBefore(nfa, states, |states|, q)
    ensures forall q: nat :: q in eofTargets <==> SetDelta(nfa, states, EndOfFile, q)
    ensures forall q | q in eofTargets :: q < |nfa.states| && Significant(nfa, q)
  {
    hide EpsilonReaches, Significant;
    forall q: nat
      ensures EofBefore(nfa, states, |states|, q) <==> SetDelta(nfa, states, EndOfFile, q)
    {
      if SetDelta(nfa, states, EndOfFile, q) {
        var p :| p in states && p < |nfa.states| && EdgeDelta(nfa, nfa.states[p].edges, EndOfFile, q);
        var k :| 0 <= k < |states| && states[k] == p;
        assert EdgeDelta(nfa, nfa.states[states[k]].edges, EndOfFile, q);
      }
    }
    forall q: nat | SetDelta(nfa, states, EndOfFile, q)
      ensures q < |nfa.states| && Significant(nfa, q)
    {
      SignificantBound(nfa, q);
    }
  }

  lemma SignificantBound(nfa: Nfa, q: nat)
    ensures Significant(nfa, q) ==> q < |nfa.states|
  {}

  method CodePointEdges(edges: seq<NfaEdge>) returns (labeled: seq<NfaEdge>)
    ensures forall e :: e in labeled <==> e in edges && e.CodePoint?
  {
    labeled := [];
    var i := 0;
    while i < |edges|
      invariant 0 <= i <= |edges|
      invariant forall e :: e in labeled <==> e in edges[..i] && e.CodePoint?
    {
      assert edges[..i + 1] == edges[..i] + [edges[i]];
      if edges[i].CodePoint? {
        labeled := labeled + [edges[i]];
      }
      i := i + 1;
    }
    assert edges[..|edges|] == edges;
  }

  method EofTargets(nfa: Nfa, edges: seq<NfaEdge>) returns (targets: seq<nat>)
    requires WellFormed(nfa) && forall e | e in edges :: e.target < |nfa.states|
    ensures forall q: nat :: q in targets <==> EdgeDelta(nfa, edges, EndOfFile, q)
  {
    hide EpsilonReaches, Significant, WellFormed;
    targets := [];
    var i := 0;
    while i < |edges|
      invariant 0 <= i <= |edges|
      invariant forall q: nat :: q in targets <==> exists k :: 0 <= k < i && Matches(edges[k], EndOfFile) && Enters(nfa, edges[k], q)
    {
      assert edges[i] in edges;
      if edges[i].Eof? {
        var closure := Closure(nfa, edges[i].target);
        targets := targets + closure;
      }
      i := i + 1;
    }
  }

  /** The transitions made from the first `n` merged intervals. */
  ghost predicate TransitionsFor(sets: seq<seq<nat>>, merged: seq<MergedEdge>, n: nat, edges: seq<DfaEdge>) {
    && n <= |merged| && |edges| == n
    && forall i | 0 <= i < n ::
         && edges[i].from == merged[i].from && edges[i].to == merged[i].to && edges[i].target < |sets|
         && forall q: nat :: q in sets[edges[i].target] <==> q in merged[i].targets
  }

  method BuildTransitions(nfa: Nfa, merged: seq<MergedEdge>, sets: seq<seq<nat>>, ids: map<seq<nat>, nat>)
    returns (edges: seq<DfaEdge>, sets': seq<seq<nat>>, ids': map<seq<nat>, nat>)
    requires Numbered(nfa, sets, ids)
    requires forall i | 0 <= i < |merged| :: AllSignificant(nfa, merged[i].targets)
    ensures Numbered(nfa, sets', ids')
    ensures sets <= sets' && ids.Keys <= ids'.Keys && (ids.Keys == ids'.Keys ==> sets' == sets)
    ensures TransitionsFor(sets', merged, |merged|, edges)
  {
    hide Significant, Numbered;
    edges, sets', ids' := [], sets, ids;
    var i := 0;
    while i < |merged|
      invariant 0 <= i <= |merged|
      invariant Numbered(nfa, sets', ids')
      invariant sets <= sets' && ids.Keys <= ids'.Keys && (ids.Keys == ids'.Keys ==> sets' == sets)
      invariant TransitionsFor(sets', merged, i, edges)
    {
      var targets := SortDistinct(merged[i].targets);
      var target, sets'', ids'' := InternSet(nfa, targets, sets', ids');
      edges := edges + [DfaEdge(merged[i].from, merged[i].to, target)];
      sets', ids' := sets'', ids'';
      i := i + 1;
    }
  }

  lemma TransitionsStep(sets: seq<seq<nat>>, merged: seq<MergedEdge>, edges: seq<DfaEdge>, c: nat, q: nat)
    requires TransitionsFor(sets, merged, |merged|, edges) && MergedSorted(merged)
    ensures EdgesSorted(edges)
    ensures MergedHas(merged, c, q) <==>
              (FindEdge(edges, c).Some? && FindEdge(edges, c).value < |sets| && q in sets[FindEdge(edges, c).value])
  {
    FindEdgeSome(edges, c);
    if i :| 0 <= i < |merged| && merged[i].from <= c < merged[i].to {
      FindEdgeIs(edges, c, i);
    }
  }

  /** The deterministic state for one set, with the sets it leads to numbered. */
  method BuildState(nfa: Nfa, states: seq<nat>, sets: seq<seq<nat>>, ids: map<seq<nat>, nat>)
    returns (d: DfaState, sets': seq<seq<nat>>, ids': map<seq<nat>, nat>)
    requires WellFormed(nfa) && Numbered(nfa, sets, ids) && IsSet(nfa, states)
    ensures Numbered(nfa, sets', ids')
    ensures sets <= sets' && ids.Keys <= ids'.Keys && (ids.Keys == ids'.Keys ==> sets' == sets)
    ensures StandsFor(nfa, sets', states, d)
  {
    hide Numbered, WellFormed, IsSet, SetDelta, EdgeDelta, EdgesOk, StandsFor, TransitionsFor, MergedSorted, MergedHas;
    var accepting, codePoints, eofTargets := CollectSet(nfa, states);
    var merged := MergeEdges(nfa, codePoints);
    MergedSignificant(nfa, codePoints, merged);
    var edges;
    edges, sets', ids' := BuildTransitions(nfa, merged, sets, ids);
    var eof: Option<nat> := None;
    ghost var sets1 := sets';
    if eofTargets != [] {
      var target;
      target, sets', ids' := InternSet(nfa, eofTargets, sets', ids');
      eof := Some(target);
    }
    d := DfaState(accepting, edges, eof);
    BuiltStandsFor(nfa, states, sets1, sets', merged, codePoints, eofTargets, d);
  }

  lemma MergedSignificant(nfa: Nfa, edges: seq<NfaEdge>, merged: seq<MergedEdge>)
    requires MergedSorted(merged)
    requires forall c: nat, q: nat :: MergedHas(merged, c, q) <==> EdgeDelta(nfa, edges, Char(c), q)
    ensures forall i | 0 <= i < |merged| :: AllSignificant(nfa, merged[i].targets)
  {
    hide EpsilonReaches;
    forall i | 0 <= i < |merged|
      ensures AllSignificant(nfa, merged[i].targets)
    {
      forall q: nat | q in merged[i].targets
        ensures q < |nfa.states| && Significant(nfa, q)
      {
        assert MergedHas(merged, merged[i].from, q);
        assert EdgeDelta(nfa, edges, Char(merged[i].from), q);
        SignificantBound(nfa, q);
      }
    }
  }

  ghost predicate AllSignificant(nfa: Nfa, states: seq<nat>) {
    forall q | q in states :: q < |nfa.states| && Significant(nfa, q)
  }

  lemma BuiltStandsFor(nfa: Nfa, states: seq<nat>, sets1: seq<seq<nat>>, sets: seq<seq<nat>>, merged: seq<MergedEdge>,
                       codePoints: seq<NfaEdge>, eofTargets: seq<nat>, d: DfaState)
    requires Increasing(d.accepting)
    requires forall t: nat :: t in d.accepting <==> exists p | p in states :: p < |nfa.states| && t in nfa.states[p].accepting
    requires MergedSorted(merged) && TransitionsFor(sets1, merged, |merged|, d.edges) && sets1 <= sets
    requires forall c: nat, q: nat :: MergedHas(merged, c, q) <==> EdgeDelta(nfa, codePoints, Char(c), q)
    requires forall c: nat, q: nat :: EdgeDelta(nfa, codePoints, Char(c), q) <==> SetDelta(nfa, states, Char(c), q)
    requires forall q: nat :: q in eofTargets <==> SetDelta(nfa, states, EndOfFile, q)
    requires if eofTargets == [] then d.eof == None
             else d.eof.Some? && d.eof.value < |sets| && sets[d.eof.value] == eofTargets
    ensures StandsFor(nfa, sets, states, d)
  {
    hide Increasing, MergedSorted, MergedHas, EdgeDelta, SetDelta, EdgesSorted, FindEdge;
    TransitionsStep(sets1, merged, d.edges, 0, 0);
    assert TransitionsFor(sets, merged, |merged|, d.edges);
    forall x, q: nat
      ensures SetDelta(nfa, states, x, q) <==> StepHas(sets, d, x, q)
    {
      match x
      case Char(c) => TransitionsStep(sets, merged, d.edges, c, q);
      case EndOfFile =>
    }
  }

  // ---- termination: there are finitely many sets ---------------------------------------

  function AllSets(count: nat): set<seq<nat>> {
    if count == 0 then {[]}
    else
      var rest := AllSets(count - 1);
      rest + set s | s in rest :: s + [count - 1]
  }

  lemma {:induction false} SetIsListed(states: seq<nat>, count: nat)
    requires Increasing(states) && forall i | 0 <= i < |states| :: states[i] < count
    ensures states in AllSets(count)
  {
    if count > 0 {
      if states != [] && states[|states| - 1] == count - 1 {
        var front := states[..|states| - 1];
        SetIsListed(front, count - 1);
        assert states == front + [count - 1];
      } else {
        SetIsListed(states, count - 1);
      }
    } else {
      assert states == [];
    }
  }

  lemma NumberedListed(nfa: Nfa, sets: seq<seq<nat>>, ids: map<seq<nat>, nat>)
    requires Numbered(nfa, sets, ids)
    ensures ids.Keys <= AllSets(|nfa.states|)
  {
    forall s | s in ids
      ensures s in AllSets(|nfa.states|)
    {
      assert IsSet(nfa, sets[ids[s]]);
      assert forall i | 0 <= i < |s| :: s[i] in s;
      SetIsListed(s, |nfa.states|);
    }
  }

  /** A subset automaton: its state `i` stands for set `i`, and its start for the
      closure of the start state. */
  ghost predicate Determinizes(nfa: Nfa, sets: seq<seq<nat>>, dfa: Dfa) {
    && |dfa.states| == |sets| && dfa.start == 0 && sets != []
    && IsClosure(nfa, nfa.start, sets[0])
    && forall i | 0 <= i < |sets| :: StandsFor(nfa, sets, sets[i], dfa.states[i])
  }

  method Determinize(nfa: Nfa) returns (dfa: Dfa, ghost sets: seq<seq<nat>>)
    requires WellFormed(nfa)
    ensures Determinizes(nfa, sets, dfa)
  {
    hide StandsFor, IsSet, Numbered;
    var startSet := Closure(nfa, nfa.start);
    var found: seq<seq<nat>> := [startSet];
    var ids: map<seq<nat>, nat> := map[startSet := 0];
    StartNumbered(nfa, startSet);
    var states: seq<DfaState> := [];
    var cursor := 0;
    while cursor < |found|
      invariant 0 <= cursor <= |found| && |states| == cursor
      invariant Numbered(nfa, found, ids) && found != [] && found[0] == startSet
      invariant forall i | 0 <= i < cursor :: StandsFor(nfa, found, found[i], states[i])
      decreases AllSets(|nfa.states|) - ids.Keys, |found| - cursor
    {
      NumberedListed(nfa, found, ids);
      NumberedSet(nfa, found, ids, cursor);
      var d, found', ids' := BuildState(nfa, found[cursor], found, ids);
      forall i | 0 <= i < cursor
        ensures StandsFor(nfa, found', found'[i], states[i])
      {
        StandsForMore(nfa, found, found', found[i], states[i]);
      }
      NumberedListed(nfa, found', ids');
      states, found, ids := states + [d], found', ids';
      cursor := cursor + 1;
    }
    dfa, sets := Dfa(states, 0), found;
  }

  lemma StartNumbered(nfa: Nfa, startSet: seq<nat>)
    requires IsClosure(nfa, nfa.start, startSet)
    ensures Numbered(nfa, [startSet], map[startSet := 0])
  {
    hide EpsilonReaches, Significant;
    forall q | q in startSet ensures q < |nfa.states| && Significant(nfa, q) { SignificantBound(nfa, q); }
  }

  lemma NumberedSet(nfa: Nfa, sets: seq<seq<nat>>, ids: map<seq<nat>, nat>, i: nat)
    requires Numbered(nfa, sets, ids) && i < |sets|
    ensures IsSet(nfa, sets[i])
  {}
}
