/** Partition refinement of a deterministic token automaton. */
module Minimize {
  import opened Options
  import opened Counting
  import opened TokenNfa
  import opened SubsetConstruction

  // ---- partitions as group numbers ----------------------------------------------------

  /** The group numbers are exactly `0 .. groups`. */
  ghost predicate Dense(partition: seq<nat>, groups: nat) {
    && (forall s | 0 <= s < |partition| :: partition[s] < groups)
    && forall k | 0 <= k < groups :: k in partition
  }

  /** Groups are numbered in order of their first members: before a number above
      zero comes into use, its predecessor has been used. */
  ghost predicate Canonical(partition: seq<nat>) {
    forall s | 0 <= s < |partition| && partition[s] > 0 ::
      Occurs(partition, s, partition[s] - 1) || Occurs(partition, s, partition[s])
  }

  predicate MapTarget(partition: seq<nat>, a: Option<nat>, b: Option<nat>) {
    match (a, b)
    case (None, None) => true
    case (Some(x), Some(y)) => x < |partition| && y < |partition| && partition[x] == partition[y]
    case _ => false
  }

  predicate MapEdge(partition: seq<nat>, a: DfaEdge, b: DfaEdge) {
    && a.from == b.from && a.to == b.to
    && a.target < |partition| && b.target < |partition| && partition[a.target] == partition[b.target]
  }

  /** The comparison made by a refinement round. */
  predicate EquivalentStates(partition: seq<nat>, a: DfaState, b: DfaState) {
    && MapTarget(partition, a.eof, b.eof)
    && |a.edges| == |b.edges|
    && forall i | 0 <= i < |a.edges| :: MapEdge(partition, a.edges[i], b.edges[i])
  }

  ghost predicate InRange(states: seq<DfaState>) {
    forall s | 0 <= s < |states| ::
      && (forall e | e in states[s].edges :: e.target < |states|)
      && (states[s].eof.Some? ==> states[s].eof.value < |states|)
  }

  lemma EquivalentSelf(states: seq<DfaState>, partition: seq<nat>, s: nat)
    requires InRange(states) && |partition| == |states| && s < |states|
    ensures EquivalentStates(partition, states[s], states[s])
  {
    assert forall i | 0 <= i < |states[s].edges| :: states[s].edges[i] in states[s].edges;
  }

  lemma EquivalentTrans(partition: seq<nat>, a: DfaState, b: DfaState, c: DfaState)
    requires EquivalentStates(partition, a, b) && EquivalentStates(partition, b, c)
    ensures EquivalentStates(partition, a, c)
  {}

  lemma EquivalentSym(partition: seq<nat>, a: DfaState, b: DfaState)
    requires EquivalentStates(partition, a, b)
    ensures EquivalentStates(partition, b, a)
  {}

  /** States of one group accept the same terms. */
  ghost predicate RespectsAccepting(states: seq<DfaState>, partition: seq<nat>) {
    |partition| == |states| &&
    forall s, r | 0 <= s < |states| && 0 <= r < |states| && partition[s] == partition[r] ::
      states[s].accepting == states[r].accepting
  }

  /** Initially: one group for each accepting list. */
  method AcceptingPartition(states: seq<DfaState>) returns (partition: seq<nat>, ghost groups: nat)
    ensures RespectsAccepting(states, partition) && Dense(partition, groups)
  {
    var lists: seq<seq<nat>> := [];
    partition := [];
    while |partition| < |states|
      invariant |partition| <= |states|
      invariant Dense(partition, |lists|)
      invariant forall s | 0 <= s < |partition| :: lists[partition[s]] == states[s].accepting
    {
      var accepting := states[|partition|].accepting;
      var k := 0;
      while k < |lists| && lists[k] != accepting
        invariant 0 <= k <= |lists|
      {
        k := k + 1;
      }
      if k == |lists| {
        lists := lists + [accepting];
      }
      DensePush(partition, |lists|, k);
      partition := partition + [k];
    }
    groups := |lists|;
  }

  lemma DensePush(partition: seq<nat>, groups: nat, k: nat)
    requires k < groups && (Dense(partition, groups) || (k == groups - 1 && Dense(partition, groups - 1)))
    ensures Dense(partition + [k], groups)
  {
    var pushed := partition + [k];
    assert pushed[|partition|] == k;
    forall j | 0 <= j < groups
      ensures j in pushed
    {
      if j != k {
        assert j in partition;
      }
    }
  }

  // ---- one refinement round -------------------------------------------------------------

  /** `next` splits the groups of `partition` by equivalence of their states. */
  ghost predicate Refines(states: seq<DfaState>, partition: seq<nat>, next: seq<nat>) {
    && |partition| == |next| == |states|
    && forall s, r | 0 <= s < |states| && 0 <= r < |states| ::
         next[s] == next[r] <==> partition[s] == partition[r] && EquivalentStates(partition, states[s], states[r])
  }

  /** A round under way: some states have their new group, each new group has a
      leader, and groups were opened while visiting `firsts`. */
  ghost predicate Rounding(states: seq<DfaState>, partition: seq<nat>, next: seq<Option<nat>>,
                           leaders: seq<nat>, firsts: seq<nat>) {
    && |partition| == |next| == |states| && |leaders| == |firsts|
    && (forall s, r | 0 <= s < |states| && 0 <= r < |states| && next[s].Some? && next[r].Some? ::
          next[s] == next[r] <==> partition[s] == partition[r] && EquivalentStates(partition, states[s], states[r]))
    && (forall s | 0 <= s < |states| && next[s].Some? :: next[s].value < |leaders|)
    && (forall k | 0 <= k < |leaders| ::
          && leaders[k] < |states| && next[leaders[k]] == Some(k)
          && firsts[k] < |states| && partition[firsts[k]] == partition[leaders[k]])
    && (forall k, s | 0 <= k < |leaders| && 0 <= s < |states| && next[s] == Some(k) :: leaders[k] <= s)
    && (forall k, s | 0 <= k < |leaders| && 0 <= s < firsts[k] :: partition[s] != partition[firsts[k]])
    && (forall j, k | 0 <= j < k < |leaders| :: firsts[j] <= firsts[k])
  }

  /** Every state of the groups visited before `bound` is assigned, no other is. */
  ghost predicate Visited(partition: seq<nat>, next: seq<Option<nat>>, bound: nat) {
    |partition| == |next| && forall s | 0 <= s < |partition| :: next[s].Some? <==> Occurs(partition, bound, partition[s])
  }

  /** Group `k` has a member before `bound`. */
  predicate Occurs(partition: seq<nat>, bound: nat, k: nat) {
    if bound <= |partition| then k in partition[..bound] else k in partition
  }

  lemma OccursNext(partition: seq<nat>, bound: nat, k: nat)
    requires bound < |partition|
    ensures Occurs(partition, bound + 1, k) <==> Occurs(partition, bound, k) || k == partition[bound]
  {
    assert partition[..bound + 1] == partition[..bound] + [partition[bound]];
  }

  lemma OccursIff(partition: seq<nat>, bound: nat, k: nat)
    requires bound <= |partition|
    ensures Occurs(partition, bound, k) <==> exists s :: 0 <= s < bound && partition[s] == k
  {}

  /** Of the group being visited, the candidates before `candidate` are assigned. */
  ghost predicate Visiting(partition: seq<nat>, next: seq<Option<nat>>, bound: nat, candidate: nat) {
    bound < |partition| == |next| &&
    forall s | 0 <= s < |partition| ::
      next[s].Some? <==>
        if partition[s] == partition[bound] then s < candidate else Occurs(partition, bound, partition[s])
  }

  lemma AssignFound(states: seq<DfaState>, partition: seq<nat>, next: seq<Option<nat>>, leaders: seq<nat>, firsts: seq<nat>,
                    candidate: nat, k: nat)
    requires Rounding(states, partition, next, leaders, firsts) && InRange(states)
    requires candidate < |states| && next[candidate].None? && k < |leaders| && leaders[k] < candidate
    requires partition[leaders[k]] == partition[candidate]
    requires EquivalentStates(partition, states[candidate], states[leaders[k]])
    ensures Rounding(states, partition, next[candidate := Some(k)], leaders, firsts)
  {
    hide EquivalentStates, InRange;
    var leader := leaders[k];
    EquivalentSelf(states, partition, candidate);
    forall s | 0 <= s < |states| && next[s].Some?
      ensures next[s] == Some(k) <==> partition[s] == partition[candidate] && EquivalentStates(partition, states[s], states[candidate])
      ensures next[s] == Some(k) <==> partition[candidate] == partition[s] && EquivalentStates(partition, states[candidate], states[s])
    {
      if next[s] == Some(k) {
        EquivalentSym(partition, states[candidate], states[leader]);
        EquivalentTrans(partition, states[s], states[leader], states[candidate]);
        EquivalentSym(partition, states[s], states[candidate]);
      }
      if partition[s] == partition[candidate] {
        if EquivalentStates(partition, states[s], states[candidate]) {
          EquivalentTrans(partition, states[s], states[candidate], states[leader]);
        }
        if EquivalentStates(partition, states[candidate], states[s]) {
          EquivalentSym(partition, states[candidate], states[s]);
          EquivalentTrans(partition, states[s], states[candidate], states[leader]);
        }
      }
    }
  }

  lemma AssignNew(states: seq<DfaState>, partition: seq<nat>, next: seq<Option<nat>>, leaders: seq<nat>, firsts: seq<nat>,
                  candidate: nat, first: nat)
    requires Rounding(states, partition, next, leaders, firsts) && InRange(states)
    requires candidate < |states| && next[candidate].None? && first <= candidate
    requires partition[first] == partition[candidate] && forall s | 0 <= s < first :: partition[s] != partition[first]
    requires forall k | 0 <= k < |firsts| :: firsts[k] <= first
    requires forall k | 0 <= k < |leaders| && partition[leaders[k]] == partition[candidate] ::
               !EquivalentStates(partition, states[candidate], states[leaders[k]])
    ensures Rounding(states, partition, next[candidate := Some(|leaders|)], leaders + [candidate], firsts + [first])
  {
    hide EquivalentStates, InRange;
    EquivalentSelf(states, partition, candidate);
    forall s | 0 <= s < |states| && next[s].Some? && partition[s] == partition[candidate]
      ensures !EquivalentStates(partition, states[s], states[candidate])
      ensures !EquivalentStates(partition, states[candidate], states[s])
    {
      var leader := leaders[next[s].value];
      assert EquivalentStates(partition, states[s], states[leader]);
      if EquivalentStates(partition, states[s], states[candidate]) {
        EquivalentSym(partition, states[s], states[candidate]);
      }
      if EquivalentStates(partition, states[candidate], states[s]) {
        EquivalentTrans(partition, states[candidate], states[s], states[leader]);
      }
    }
  }

  /** Assign the members of one group, in order, to new groups. */
  method SplitGroup(states: seq<DfaState>, partition: seq<nat>, first: nat, next: seq<Option<nat>>,
                    leaders: seq<nat>, ghost firsts: seq<nat>)
    returns (next': seq<Option<nat>>, leaders': seq<nat>, ghost firsts': seq<nat>)
    requires Rounding(states, partition, next, leaders, firsts) && InRange(states)
    requires first < |states| && next[first].None? && Visited(partition, next, first)
    requires forall k | 0 <= k < |firsts| :: firsts[k] <= first
    ensures Rounding(states, partition, next', leaders', firsts')
    ensures Visited(partition, next', first + 1)
    ensures forall k | 0 <= k < |firsts'| :: firsts'[k] <= first
  {
    hide EquivalentStates, InRange, Rounding, Occurs;
    next', leaders', firsts' := next, leaders, firsts;
    FirstOfGroup(states, partition, next, leaders, firsts, first);
    var original := partition[first];
    var candidate := 0;
    while candidate < |partition|
      invariant 0 <= candidate <= |partition| == |states|
      invariant Rounding(states, partition, next', leaders', firsts')
      invariant Visiting(partition, next', first, candidate)
      invariant forall k | 0 <= k < |firsts'| :: firsts'[k] <= first
    {
      if partition[candidate] == original {
        LeadersInRange(states, partition, next', leaders', firsts');
        var k := 0;
        while k < |leaders'| && !(partition[leaders'[k]] == original
                                  && EquivalentStates(partition, states[candidate], states[leaders'[k]]))
          invariant 0 <= k <= |leaders'|
          invariant forall j | 0 <= j < k && partition[leaders'[j]] == original ::
                      !EquivalentStates(partition, states[candidate], states[leaders'[j]])
        {
          k := k + 1;
        }
        if k == |leaders'| {
          AssignNew(states, partition, next', leaders', firsts', candidate, first);
          leaders', firsts' := leaders' + [candidate], firsts' + [first];
        } else {
          AssignFound(states, partition, next', leaders', firsts', candidate, k);
        }
        next' := next'[candidate := Some(k)];
      }
      candidate := candidate + 1;
    }
    GroupVisited(partition, next', first);
  }

  lemma GroupVisited(partition: seq<nat>, next: seq<Option<nat>>, bound: nat)
    requires Visiting(partition, next, bound, |partition|)
    ensures Visited(partition, next, bound + 1)
  {
    hide Occurs;
    forall s | 0 <= s < |partition|
      ensures next[s].Some? <==> Occurs(partition, bound + 1, partition[s])
    {
      OccursNext(partition, bound, partition[s]);
    }
  }

  lemma FirstOfGroup(states: seq<DfaState>, partition: seq<nat>, next: seq<Option<nat>>, leaders: seq<nat>, firsts: seq<nat>,
                     first: nat)
    requires Rounding(states, partition, next, leaders, firsts)
    requires first < |states| && next[first].None? && Visited(partition, next, first)
    ensures |partition| == |states| && Visiting(partition, next, first, 0)
    ensures forall s | 0 <= s < first :: partition[s] != partition[first]
  {
    hide Occurs;
    OccursIff(partition, first, partition[first]);
  }

  lemma LeadersInRange(states: seq<DfaState>, partition: seq<nat>, next: seq<Option<nat>>, leaders: seq<nat>, firsts: seq<nat>)
    requires Rounding(states, partition, next, leaders, firsts)
    ensures |partition| == |next| == |states|
    ensures forall k | 0 <= k < |leaders| :: leaders[k] < |states| && next[leaders[k]].Some?
  {}

  /** One round: every state gets a new group, numbered in order of creation. */
  method RefineRound(states: seq<DfaState>, partition: seq<nat>)
    returns (next: seq<nat>, ghost groups: nat, ghost leaders: seq<nat>, ghost firsts: seq<nat>)
    requires InRange(states) && |partition| == |states|
    ensures Refines(states, partition, next) && Dense(next, groups)
    ensures Ordered(partition, next, leaders, firsts) && |leaders| == groups
  {
    hide EquivalentStates, InRange, Rounding, Occurs;
    var slots: seq<Option<nat>> := seq(|states|, _ => None);
    var groupLeaders: seq<nat> := [];
    firsts := [];
    NothingAssigned(states, partition, slots);
    var stateId := 0;
    while stateId < |states|
      invariant 0 <= stateId <= |states| == |slots|
      invariant Rounding(states, partition, slots, groupLeaders, firsts)
      invariant Visited(partition, slots, stateId)
      invariant forall k | 0 <= k < |firsts| :: firsts[k] < stateId
    {
      if slots[stateId].None? {
        slots, groupLeaders, firsts := SplitGroup(states, partition, stateId, slots, groupLeaders, firsts);
        SameLength(states, partition, slots, groupLeaders, firsts);
      } else {
        VisitedAgain(partition, slots, stateId);
      }
      stateId := stateId + 1;
    }
    forall s | 0 <= s < |states| ensures slots[s].Some? { OccursIff(partition, |states|, partition[s]); }
    next := seq(|states|, s requires 0 <= s < |states| => slots[s].value);
    leaders, groups := groupLeaders, |groupLeaders|;
    RoundDone(states, partition, slots, leaders, firsts, next);
  }

  /** Group `k` was opened at its leader, its first member, while visiting an
      original group whose first member is `firsts[k]`; later groups were opened
      during later or the same visits. */
  ghost predicate Ordered(partition: seq<nat>, next: seq<nat>, leaders: seq<nat>, firsts: seq<nat>) {
    && |partition| == |next| && |leaders| == |firsts|
    && (forall k | 0 <= k < |leaders| ::
          && leaders[k] < |next| && next[leaders[k]] == k
          && firsts[k] < |next| && partition[firsts[k]] == partition[leaders[k]])
    && (forall k, s | 0 <= k < |leaders| && 0 <= s < |next| && next[s] == k :: leaders[k] <= s)
    && (forall k, s | 0 <= k < |leaders| && 0 <= s < firsts[k] :: partition[s] != partition[firsts[k]])
    && (forall j, k | 0 <= j < k < |leaders| :: firsts[j] <= firsts[k])
  }

  lemma NothingAssigned(states: seq<DfaState>, partition: seq<nat>, next: seq<Option<nat>>)
    requires |partition| == |states| == |next| && forall s | 0 <= s < |next| :: next[s].None?
    ensures Rounding(states, partition, next, [], []) && Visited(partition, next, 0)
  {}

  lemma SameLength(states: seq<DfaState>, partition: seq<nat>, next: seq<Option<nat>>, leaders: seq<nat>, firsts: seq<nat>)
    requires Rounding(states, partition, next, leaders, firsts)
    ensures |next| == |states| && |leaders| == |firsts|
  {}

  lemma VisitedAgain(partition: seq<nat>, next: seq<Option<nat>>, bound: nat)
    requires Visited(partition, next, bound) && bound < |partition| && next[bound].Some?
    ensures Visited(partition, next, bound + 1)
  {
    hide Occurs;
    forall s | 0 <= s < |partition|
      ensures next[s].Some? <==> Occurs(partition, bound + 1, partition[s])
    {
      OccursNext(partition, bound, partition[s]);
    }
  }

  lemma RoundDone(states: seq<DfaState>, partition: seq<nat>, slots: seq<Option<nat>>, leaders: seq<nat>, firsts: seq<nat>,
                  next: seq<nat>)
    requires Rounding(states, partition, slots, leaders, firsts)
    requires |next| == |slots| && forall s | 0 <= s < |next| :: slots[s] == Some(next[s])
    ensures Refines(states, partition, next) && Dense(next, |leaders|)
    ensures Ordered(partition, next, leaders, firsts)
  {
    hide EquivalentStates;
    forall k | 0 <= k < |leaders| ensures k in next { assert next[leaders[k]] == k; }
  }

  // ---- termination ------------------------------------------------------------------------

  function IndexOf(partition: seq<nat>, k: nat): (s: nat)
    requires k in partition
    ensures s < |partition| && partition[s] == k
    ensures forall r | 0 <= r < s :: partition[r] != k
  {
    if partition[0] == k then 0 else 1 + IndexOf(partition[1..], k)
  }

  lemma DenseBound(partition: seq<nat>, groups: nat)
    requires Dense(partition, groups)
    ensures groups <= |partition|
  {
    var members := seq(groups, k requires 0 <= k < groups => IndexOf(partition, k));
    DistinctBound(members, |partition|);
  }

  /** The new group of the first member of each old group: all different. */
  function Images(partition: seq<nat>, next: seq<nat>, groups: nat): (images: seq<nat>)
    requires |partition| == |next| && forall k | 0 <= k < groups :: k in partition
    ensures |images| == groups && forall k | 0 <= k < groups :: images[k] == next[IndexOf(partition, k)]
  {
    seq(groups, k requires 0 <= k < groups => next[IndexOf(partition, k)])
  }

  /** A round does not lose groups, and if it adds none it splits none. */
  lemma RoundGrows(states: seq<DfaState>, partition: seq<nat>, groups: nat, next: seq<nat>, groups': nat)
    requires Refines(states, partition, next) && Dense(partition, groups) && Dense(next, groups')
    ensures groups <= groups'
    ensures groups == groups' ==>
              forall s, r | 0 <= s < |states| && 0 <= r < |states| :: next[s] == next[r] <==> partition[s] == partition[r]
  {
    hide EquivalentStates;
    var images := Images(partition, next, groups);
    ImagesDistinct(states, partition, groups, next);
    DistinctBound(images, groups');
    if groups == groups' {
      forall s | 0 <= s < |states| ensures next[s] == images[partition[s]] {
        ImageOfGroup(states, partition, groups, next, s);
      }
      forall s, r | 0 <= s < |states| && 0 <= r < |states|
        ensures next[s] == next[r] <==> partition[s] == partition[r]
      {
        if partition[s] == partition[r] {
          assert next[s] == images[partition[s]] && next[r] == images[partition[r]];
        }
      }
    }
  }

  lemma ImagesDistinct(states: seq<DfaState>, partition: seq<nat>, groups: nat, next: seq<nat>)
    requires Refines(states, partition, next) && Dense(partition, groups)
    ensures forall i, j | 0 <= i < j < groups :: Images(partition, next, groups)[i] != Images(partition, next, groups)[j]
  {
    hide EquivalentStates;
    var images := Images(partition, next, groups);
    forall i, j | 0 <= i < j < groups ensures images[i] != images[j] {
      assert partition[IndexOf(partition, i)] != partition[IndexOf(partition, j)];
    }
  }

  /** With as many groups as before, each new group is the image of an old one. */
  lemma ImageOfGroup(states: seq<DfaState>, partition: seq<nat>, groups: nat, next: seq<nat>, s: nat)
    requires Refines(states, partition, next) && Dense(partition, groups) && Dense(next, groups)
    requires s < |states|
    ensures next[s] == Images(partition, next, groups)[partition[s]]
  {
    hide EquivalentStates;
    var images := Images(partition, next, groups);
    ImagesDistinct(states, partition, groups, next);
    DistinctOnto(images, next[s]);
    var k :| 0 <= k < groups && images[k] == next[s];
    assert partition[IndexOf(partition, k)] == partition[s];
  }

  /** A round that splits nothing numbers the groups by first member. */
  lemma UnsplitCanonical(partition: seq<nat>, next: seq<nat>, leaders: seq<nat>, firsts: seq<nat>)
    requires Ordered(partition, next, leaders, firsts) && Dense(next, |leaders|)
    requires forall s, r | 0 <= s < |next| && 0 <= r < |next| :: next[s] == next[r] <==> partition[s] == partition[r]
    ensures Canonical(next)
  {
    forall k | 0 <= k < |leaders|
      ensures leaders[k] == firsts[k]
    {
      assert next[firsts[k]] == next[leaders[k]] == k;
    }
    forall s | 0 <= s < |next| && next[s] > 0
      ensures Occurs(next, s, next[s] - 1) || Occurs(next, s, next[s])
    {
      var k := next[s];
      assert leaders[k] <= s && firsts[k - 1] <= firsts[k];
      assert next[leaders[k - 1]] == k - 1;
      assert leaders[k - 1] < s;
      OccursIff(next, s, k - 1);
    }
  }

  /** The numbers used before `n` in a canonical numbering are closed downwards. */
  lemma {:induction false} CanonicalDown(partition: seq<nat>, n: nat, v: nat, w: nat)
    requires Canonical(partition) && n <= |partition| && Occurs(partition, n, v) && w <= v
    ensures Occurs(partition, n, w)
    decreases n
  {
    hide Occurs;
    OccursIff(partition, n, v);
    if n > 0 {
      var x := partition[n - 1];
      OccursNext(partition, n - 1, v);
      OccursNext(partition, n - 1, w);
      if Occurs(partition, n - 1, v) {
        CanonicalDown(partition, n - 1, v, w);
      } else if w < v {
        CanonicalDown(partition, n - 1, x - 1, w);
      }
    }
  }

  /** Two canonical numberings of one partition are equal. */
  lemma {:induction false} CanonicalUnique(p: seq<nat>, q: seq<nat>, n: nat)
    requires Canonical(p) && Canonical(q) && |p| == |q| && n <= |p|
    requires forall s, r | 0 <= s < |p| && 0 <= r < |p| :: p[s] == p[r] <==> q[s] == q[r]
    ensures forall r | 0 <= r < n :: p[r] == q[r]
  {
    hide Occurs;
    if n > 0 {
      var s := n - 1;
      CanonicalUnique(p, q, s);
      OccursIff(p, s, p[s]);
      OccursIff(q, s, q[s]);
      if !Occurs(p, s, p[s]) {
        NotBefore(p, q, s);
        NotBefore(q, p, s);
      }
    }
  }

  lemma NotBefore(p: seq<nat>, q: seq<nat>, s: nat)
    requires Canonical(p) && Canonical(q) && |p| == |q| && s < |p| && forall r | 0 <= r < s :: p[r] == q[r]
    requires !Occurs(p, s, p[s]) && !Occurs(q, s, q[s])
    ensures q[s] >= p[s]
  {
    hide Occurs;
    if q[s] < p[s] {
      CanonicalDown(p, s, p[s] - 1, q[s]);
      OccursIff(p, s, q[s]);
      OccursIff(q, s, q[s]);
    }
  }

  // ---- the minimised automaton ----------------------------------------------------------

  /** No round changes the partition any more. */
  ghost predicate Stable(states: seq<DfaState>, partition: seq<nat>) {
    && RespectsAccepting(states, partition)
    && forall s, r | 0 <= s < |states| && 0 <= r < |states| && partition[s] == partition[r] ::
         EquivalentStates(partition, states[s], states[r])
  }

  lemma RoundRespects(states: seq<DfaState>, partition: seq<nat>, next: seq<nat>)
    requires RespectsAccepting(states, partition) && Refines(states, partition, next)
    ensures RespectsAccepting(states, next)
    ensures next == partition ==> Stable(states, partition)
  {
    hide EquivalentStates;
  }

  /** The measure of a round that does not end the loop: it adds a group, or
      renumbers the groups into canonical order, which it cannot do twice. */
  lemma RoundProgress(states: seq<DfaState>, partition: seq<nat>, groups: nat,
                      next: seq<nat>, groups': nat, leaders: seq<nat>, firsts: seq<nat>)
    requires Refines(states, partition, next) && Dense(partition, groups) && Dense(next, groups')
    requires Ordered(partition, next, leaders, firsts) && |leaders| == groups' && next != partition
    ensures groups < groups' <= |next| || (groups == groups' <= |next| && !Canonical(partition) && Canonical(next))
  {
    hide Dense, Canonical, Ordered;
    RoundGrows(states, partition, groups, next, groups');
    DenseBound(next, groups');
    if groups == groups' {
      UnsplitCanonical(partition, next, leaders, firsts);
      if Canonical(partition) {
        CanonicalUnique(partition, next, |next|);
      }
    }
  }

  method StablePartition(states: seq<DfaState>) returns (partition: seq<nat>, ghost groups: nat)
    requires InRange(states)
    ensures Stable(states, partition) && Dense(partition, groups)
  {
    hide InRange, Dense, Canonical, EquivalentStates, Refines;
    partition, groups := AcceptingPartition(states);
    while true
      invariant RespectsAccepting(states, partition) && Dense(partition, groups)
      decreases |states| - groups, if Canonical(partition) then 0 else 1
    {
      var next;
      ghost var groups', leaders, firsts;
      next, groups', leaders, firsts := RefineRound(states, partition);
      RoundRespects(states, partition, next);
      if next == partition {
        return;
      }
      RoundProgress(states, partition, groups, next, groups', leaders, firsts);
      partition, groups := next, groups';
    }
  }

  function MapState(partition: seq<nat>, state: DfaState): DfaState {
    state.(edges := MapEdges(partition, state.edges),
           eof := if state.eof.Some? then Some(At(partition, state.eof.value)) else None)
  }

  /** Targets are always in range. */
  function At(partition: seq<nat>, s: nat): nat {
    if s < |partition| then partition[s] else s
  }

  function MapEdges(partition: seq<nat>, edges: seq<DfaEdge>): (mapped: seq<DfaEdge>)
    ensures |mapped| == |edges|
    ensures forall i | 0 <= i < |edges| :: mapped[i] == edges[i].(target := At(partition, edges[i].target))
  {
    if edges == [] then [] else [edges[0].(target := At(partition, edges[0].target))] + MapEdges(partition, edges[1..])
  }

  /** Every state of the automaton is represented, edges mapped, in its group. */
  ghost predicate Quotient(dfa: Dfa, partition: seq<nat>, min: Dfa) {
    && |partition| == |dfa.states|
    && min.start == At(partition, dfa.start)
    && (forall s | 0 <= s < |dfa.states| ::
          partition[s] < |min.states| && min.states[partition[s]] == MapState(partition, dfa.states[s]))
    && forall k | 0 <= k < |min.states| :: k in partition
  }

  lemma MapStateSame(partition: seq<nat>, a: DfaState, b: DfaState)
    requires EquivalentStates(partition, a, b) && a.accepting == b.accepting
    ensures MapState(partition, a) == MapState(partition, b)
  {
    assert forall i | 0 <= i < |a.edges| :: MapEdge(partition, a.edges[i], b.edges[i]);
    assert MapEdges(partition, a.edges) == MapEdges(partition, b.edges);
  }

  method MinimizeDfa(dfa: Dfa) returns (min: Dfa, ghost partition: seq<nat>)
    requires DfaWellFormed(dfa)
    ensures Quotient(dfa, partition, min)
  {
    hide EquivalentStates, EdgesSorted;
    var numbers;
    ghost var groups;
    numbers, groups := StablePartition(dfa.states);
    partition := numbers;
    var groupCount := 0;
    var s := 0;
    while s < |numbers|
      invariant 0 <= s <= |numbers| && groupCount <= groups
      invariant forall r | 0 <= r < s :: numbers[r] < groupCount
    {
      if numbers[s] + 1 > groupCount {
        groupCount := numbers[s] + 1;
      }
      s := s + 1;
    }
    assert groupCount < groups ==> groupCount in numbers;
    var states: seq<DfaState> := [];
    while |states| < groupCount
      invariant |states| <= groupCount
      invariant forall k | 0 <= k < |states| :: states[k] == MapState(numbers, dfa.states[IndexOf(numbers, k)])
    {
      var source := IndexOf(numbers, |states|);
      states := states + [MapState(numbers, dfa.states[source])];
    }
    forall r | 0 <= r < |dfa.states|
      ensures states[numbers[r]] == MapState(numbers, dfa.states[r])
    {
      MapStateSame(numbers, dfa.states[IndexOf(numbers, numbers[r])], dfa.states[r]);
    }
    min := Dfa(states, At(numbers, dfa.start));
  }

  lemma {:induction false} FindMapped(partition: seq<nat>, edges: seq<DfaEdge>, c: nat)
    ensures FindEdge(MapEdges(partition, edges), c)
         == match FindEdge(edges, c) case None => None case Some(t) => Some(At(partition, t))
  {
    if edges != [] {
      assert MapEdges(partition, edges)[1..] == MapEdges(partition, edges[1..]);
      FindMapped(partition, edges[1..], c);
    }
  }

  /** Minimising keeps what every state accepts. */
  lemma {:induction false} QuotientAccepts(dfa: Dfa, partition: seq<nat>, min: Dfa, s: nat, word: seq<Symbol>, term: nat)
    requires Quotient(dfa, partition, min) && DfaWellFormed(dfa) && s < |dfa.states|
    ensures DfaAccepts(dfa, s, word, term) <==> DfaAccepts(min, partition[s], word, term)
    decreases |word|
  {
    hide EdgesSorted;
    var a, b := dfa.states[s], min.states[partition[s]];
    if word != [] {
      var x := word[0];
      if x.Char? {
        FindMapped(partition, a.edges, x.c);
        TargetInRange(dfa, s, x);
      }
      assert DfaStep(b, x) == match DfaStep(a, x) case None => None case Some(t) => Some(At(partition, t));
      if DfaStep(a, x).Some? {
        QuotientAccepts(dfa, partition, min, DfaStep(a, x).value, word[1..], term);
      }
    }
  }

  lemma TargetInRange(dfa: Dfa, s: nat, x: Symbol)
    requires DfaWellFormed(dfa) && s < |dfa.states|
    ensures DfaStep(dfa.states[s], x).Some? ==> DfaStep(dfa.states[s], x).value < |dfa.states|
  {
    if x.Char? {
      FindEdgeSome(dfa.states[s].edges, x.c);
    }
  }

  lemma QuotientWellFormed(dfa: Dfa, partition: seq<nat>, min: Dfa)
    requires Quotient(dfa, partition, min) && DfaWellFormed(dfa)
    ensures DfaWellFormed(min)
  {
    hide EdgesSorted, MapState;
    forall k | 0 <= k < |min.states|
      ensures EdgesSorted(min.states[k].edges)
      ensures forall e | e in min.states[k].edges :: e.target < |min.states|
      ensures min.states[k].eof.Some? ==> min.states[k].eof.value < |min.states|
    {
      var s := IndexOf(partition, k);
      MappedState(partition, dfa.states[s], |dfa.states|, |min.states|);
    }
  }

  lemma MappedState(partition: seq<nat>, state: DfaState, count: nat, groups: nat)
    requires |partition| == count && forall s | 0 <= s < count :: partition[s] < groups
    requires EdgesSorted(state.edges) && forall e | e in state.edges :: e.target < count
    requires state.eof.Some? ==> state.eof.value < count
    ensures var mapped := MapState(partition, state);
            && EdgesSorted(mapped.edges)
            && (forall e | e in mapped.edges :: e.target < groups)
            && (mapped.eof.Some? ==> mapped.eof.value < groups)
  {
    hide EdgesSorted;
    MappedSorted(partition, state.edges);
    var mapped := MapState(partition, state).edges;
    forall i | 0 <= i < |mapped| ensures mapped[i].target < groups {
      assert state.edges[i] in state.edges;
    }
  }

  lemma MappedSorted(partition: seq<nat>, edges: seq<DfaEdge>)
    requires EdgesSorted(edges)
    ensures EdgesSorted(MapEdges(partition, edges))
  {
    hide At;
    var mapped := MapEdges(partition, edges);
    assert forall i | 0 <= i < |edges| :: mapped[i].from == edges[i].from && mapped[i].to == edges[i].to;
  }
}
