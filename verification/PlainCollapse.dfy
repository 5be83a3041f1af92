/** The collapse without memory: every pass compares every pair anew. */
module PlainCollapse {
  import opened Automaton

  datatype PlainGroup = PlainGroup(origin: nat, members: seq<nat>)

  datatype Plain = Plain(groups: seq<PlainGroup>, mapping: seq<nat>)

  /** Removal that moves the last member into the gap. */
  function SwapRemove(members: seq<nat>, index: nat): (left: seq<nat>)
    requires index < |members|
    ensures |left| == |members| - 1
  {
    members[index := members[|members| - 1]][..|members| - 1]
  }

  ghost predicate Fits(g: Grammar, states: seq<State>, mapping: seq<nat>, left: nat, right: nat) {
    left < |states| && right < |states| && CanMerge(g, mapping, states[left], states[right])
  }

  function Remapped(mapping: seq<nat>, state: nat, to: nat): seq<nat> {
    if state < |mapping| then mapping[state := to] else mapping
  }

  /** A state of group `from` may join a group of the same origin all of whose
      members it fits, under the mapping that has it there. */
  ghost predicate CanJoin(g: Grammar, states: seq<State>, p: Plain, from: nat, state: nat, to: nat) {
    && from < |p.groups| && to < |p.groups| && p.groups[to].origin == p.groups[from].origin
    && forall m <- p.groups[to].members :: Fits(g, states, Remapped(p.mapping, state, to), state, m)
  }

  /** The first later group that the state can join, or a new one. */
  ghost function Destination(g: Grammar, states: seq<State>, p: Plain, from: nat, state: nat, candidate: nat): (to: nat)
    requires candidate <= |p.groups|
    ensures candidate <= to <= |p.groups|
    decreases |p.groups| - candidate
  {
    if candidate == |p.groups| || CanJoin(g, states, p, from, state, candidate) then candidate
    else Destination(g, states, p, from, state, candidate + 1)
  }

  lemma {:induction false} DestinationIs(g: Grammar, states: seq<State>, p: Plain, from: nat, state: nat,
                                         candidate: nat, to: nat)
    requires candidate <= to <= |p.groups|
    requires forall c :: candidate <= c < to ==> !CanJoin(g, states, p, from, state, c)
    requires to < |p.groups| ==> CanJoin(g, states, p, from, state, to)
    ensures Destination(g, states, p, from, state, candidate) == to
    decreases |p.groups| - candidate
  {
    hide CanJoin;
    if candidate < to {
      DestinationIs(g, states, p, from, state, candidate + 1, to);
    }
  }

  function PlainMoved(p: Plain, from: nat, index: nat, to: nat): (q: Plain)
    requires from < to <= |p.groups| && index < |p.groups[from].members|
    ensures |q.groups| >= |p.groups| && |q.groups[from].members| == |p.groups[from].members| - 1
  {
    var group := p.groups[from];
    var state := group.members[index];
    var removed := p.groups[from := group.(members := SwapRemove(group.members, index))];
    var groups := if to < |p.groups| then removed[to := removed[to].(members := removed[to].members + [state])]
                  else removed + [PlainGroup(group.origin, [state])];
    Plain(groups, Remapped(p.mapping, state, to))
  }

  ghost function PlainSpill(g: Grammar, states: seq<State>, p: Plain, from: nat, index: nat): (q: Plain)
    requires from < |p.groups| && index < |p.groups[from].members|
    ensures |q.groups| >= |p.groups| && |q.groups[from].members| == |p.groups[from].members| - 1
  {
    PlainMoved(p, from, index, Destination(g, states, p, from, p.groups[from].members[index], from + 1))
  }

  /** Compare one member with those from `right` on, spilling what does not fit. */
  ghost function PlainRow(g: Grammar, states: seq<State>, p: Plain, k: nat, left: nat, right: nat): (q: Plain)
    requires k < |p.groups| && left < right
    ensures |q.groups| >= |p.groups| && |q.groups[k].members| <= |p.groups[k].members|
    decreases |p.groups[k].members| - right
  {
    var members := p.groups[k].members;
    if right >= |members| then p
    else if Fits(g, states, p.mapping, members[left], members[right]) then PlainRow(g, states, p, k, left, right + 1)
    else PlainRow(g, states, PlainSpill(g, states, p, k, right), k, left, right)
  }

  ghost function PlainScan(g: Grammar, states: seq<State>, p: Plain, k: nat, left: nat): (q: Plain)
    requires k < |p.groups|
    ensures |q.groups| >= |p.groups|
    decreases |p.groups[k].members| - left
  {
    if left + 1 >= |p.groups[k].members| then p
    else PlainScan(g, states, PlainRow(g, states, p, k, left, left + 1), k, left + 1)
  }

  /** Scan the groups from `k` up to `count`. */
  ghost function PlainGroups(g: Grammar, states: seq<State>, p: Plain, k: nat, count: nat): Plain
    requires k <= count <= |p.groups|
    decreases count - k
  {
    if k == count then p else PlainGroups(g, states, PlainScan(g, states, p, k, 0), k + 1, count)
  }

  ghost function PlainPass(g: Grammar, states: seq<State>, p: Plain): Plain {
    PlainGroups(g, states, p, 0, |p.groups|)
  }

  ghost function Passes(g: Grammar, states: seq<State>, p: Plain, n: nat): Plain {
    if n == 0 then p else PlainPass(g, states, Passes(g, states, p, n - 1))
  }

  /** What the loop returns that repeats passes until one changes nothing. */
  ghost predicate PlainResult(g: Grammar, states: seq<State>, initial: Plain, result: Plain) {
    (exists n: nat :: Passes(g, states, initial, n) == result) && PlainPass(g, states, result) == result
  }

  lemma {:induction false} PassesStay(g: Grammar, states: seq<State>, p: Plain, n: nat, m: nat)
    requires n <= m && PlainPass(g, states, Passes(g, states, p, n)) == Passes(g, states, p, n)
    ensures Passes(g, states, p, m) == Passes(g, states, p, n)
    decreases m
  {
    hide PlainPass;
    if n < m {
      PassesStay(g, states, p, n, m - 1);
    }
  }

  /** There is only one such result. */
  lemma PlainUnique(g: Grammar, states: seq<State>, initial: Plain, a: Plain, b: Plain)
    requires PlainResult(g, states, initial, a) && PlainResult(g, states, initial, b)
    ensures a == b
  {
    hide PlainPass;
    var n: nat :| Passes(g, states, initial, n) == a;
    var m: nat :| Passes(g, states, initial, m) == b;
    PassesStay(g, states, initial, if n <= m then n else m, if n <= m then m else n);
  }

  // ---- groups whose pairs all fit -----------------------------------------

  ghost predicate AllFit(g: Grammar, states: seq<State>, mapping: seq<nat>, members: seq<nat>) {
    forall i, j :: 0 <= i < j < |members| ==> Fits(g, states, mapping, members[i], members[j])
  }

  lemma {:induction false} RowUnchanged(g: Grammar, states: seq<State>, p: Plain, k: nat, left: nat, right: nat)
    requires k < |p.groups| && left < right && AllFit(g, states, p.mapping, p.groups[k].members)
    ensures PlainRow(g, states, p, k, left, right) == p
    decreases |p.groups[k].members| - right
  {
    hide Fits;
    if right < |p.groups[k].members| {
      RowUnchanged(g, states, p, k, left, right + 1);
    }
  }

  /** A group whose pairs all fit could as well be skipped. */
  lemma {:induction false} ScanUnchanged(g: Grammar, states: seq<State>, p: Plain, k: nat, left: nat)
    requires k < |p.groups| && AllFit(g, states, p.mapping, p.groups[k].members)
    ensures PlainScan(g, states, p, k, left) == p
    decreases |p.groups[k].members| - left
  {
    hide Fits, AllFit;
    if left + 1 < |p.groups[k].members| {
      RowUnchanged(g, states, p, k, left, left + 1);
      ScanUnchanged(g, states, p, k, left + 1);
    }
  }

  // ---- one step at a time -------------------------------------------------

  lemma RowFits(g: Grammar, states: seq<State>, p: Plain, k: nat, left: nat, right: nat)
    requires k < |p.groups| && left < right < |p.groups[k].members|
    requires Fits(g, states, p.mapping, p.groups[k].members[left], p.groups[k].members[right])
    ensures PlainRow(g, states, p, k, left, right) == PlainRow(g, states, p, k, left, right + 1)
  {}

  lemma RowSpills(g: Grammar, states: seq<State>, p: Plain, k: nat, left: nat, right: nat)
    requires k < |p.groups| && left < right < |p.groups[k].members|
    requires !Fits(g, states, p.mapping, p.groups[k].members[left], p.groups[k].members[right])
    ensures PlainRow(g, states, p, k, left, right)
         == PlainRow(g, states, PlainSpill(g, states, p, k, right), k, left, right)
  {}

  lemma RowEnds(g: Grammar, states: seq<State>, p: Plain, k: nat, left: nat, right: nat)
    requires k < |p.groups| && left < right && |p.groups[k].members| <= right
    ensures PlainRow(g, states, p, k, left, right) == p
  {}

  lemma ScanStep(g: Grammar, states: seq<State>, p: Plain, k: nat, left: nat)
    requires k < |p.groups|
    ensures PlainScan(g, states, p, k, left)
         == if left + 1 >= |p.groups[k].members| then p
            else PlainScan(g, states, PlainRow(g, states, p, k, left, left + 1), k, left + 1)
  {}

  lemma GroupsStep(g: Grammar, states: seq<State>, p: Plain, k: nat, count: nat)
    requires k < count <= |p.groups|
    ensures PlainGroups(g, states, p, k, count)
         == PlainGroups(g, states, PlainScan(g, states, p, k, 0), k + 1, count)
  {}
}
