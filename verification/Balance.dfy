/** Regrouping of wide child lists into nested nodes of one hidden type. */
module Balance {
  import opened Options
  import opened PostfixForest
  import opened CompactTree

  const BRANCH_FACTOR := 8

  predicate HasType(balanceType: nat, child: TreeChild) {
    child.Node? && child.id == balanceType
  }

  /** A node of the balance type whose children all have that type weighs one
      more than its children together; everything else weighs one. */
  function Weight(balanceType: nat, child: TreeChild): (w: nat)
    ensures w >= 1
    ensures w > 1 ==> HasType(balanceType, child) && w == 1 + TotalWeight(balanceType, child.slots) && child.slots != []
    decreases child, 0
  {
    if HasType(balanceType, child) && child.slots != []
       && forall slot | slot in child.slots :: HasType(balanceType, slot.child)
    then 1 + TotalWeight(balanceType, child.slots)
    else 1
  }

  function TotalWeight(balanceType: nat, slots: seq<Slot>): (w: nat)
    ensures w >= |slots|
    decreases slots, 1
  {
    if slots == [] then 0
    else
      var last := slots[|slots| - 1];
      assert last.child < last;
      TotalWeight(balanceType, slots[..|slots| - 1]) + Weight(balanceType, last.child)
  }

  lemma TotalWeightPush(balanceType: nat, slots: seq<Slot>, from: nat, index: nat)
    requires from <= index < |slots|
    ensures TotalWeight(balanceType, slots[from..index + 1])
         == TotalWeight(balanceType, slots[from..index]) + Weight(balanceType, slots[index].child)
  {
    hide Weight;
    var longer := slots[from..index + 1];
    assert longer[..|longer| - 1] == slots[from..index];
  }

  lemma {:induction false} TotalWeightMonotone(balanceType: nat, slots: seq<Slot>, from: nat, i: nat, to: nat)
    requires from <= i <= to <= |slots|
    ensures TotalWeight(balanceType, slots[from..i]) + (to - i) <= TotalWeight(balanceType, slots[from..to])
    decreases |slots| - i
  {
    if i < to {
      TotalWeightPush(balanceType, slots, from, i);
      TotalWeightMonotone(balanceType, slots, from, i + 1, to);
    }
  }

  lemma ExpandRangeSplit(slots: seq<Slot>, from: nat, mid: nat, to: nat, at: int, m: nat)
    requires from <= mid <= to <= |slots|
    ensures ExpandAll(slots[from..to], at, m)
         == Concat(ExpandAll(slots[from..mid], at, m), ExpandAll(slots[mid..to], at, m))
  {
    assert slots[from..to] == slots[from..mid] + slots[mid..to];
    ExpandAllConcat(slots[from..mid], slots[mid..to], at, m);
  }

  lemma ExpandRangeOne(slots: seq<Slot>, i: nat, at: int, m: nat)
    requires i < |slots|
    ensures ExpandAll(slots[i..i + 1], at, m) == Expand(slots[i].child, at + slots[i].position, m)
  {
    hide ExpandAll, Expand, Concat;
    var one, inner := slots[i..i + 1], Expand(slots[i].child, at + slots[i].position, m);
    assert one == [] + [slots[i]];
    ExpandAllPush([], slots[i], at, m);
    NothingExpands(at, inner, m);
  }

  /** The loop that weighs a child, stopping at the first one of another type. */
  method BalancedNodeSize(balanceType: nat, child: TreeChild) returns (size: nat)
    ensures size == Weight(balanceType, child)
    decreases child
  {
    hide Weight, TotalWeight;
    if !HasType(balanceType, child) || child.slots == [] || !HasType(balanceType, child.slots[0].child) {
      WeighsOne(balanceType, child, 0);
      return 1;
    }
    var slots := child.slots;
    size := 1;
    var i := 0;
    EmptyWeight(balanceType, slots[..0]);
    while i < |slots|
      invariant 0 <= i <= |slots|
      invariant size == 1 + TotalWeight(balanceType, slots[..i])
      invariant forall k | 0 <= k < i :: HasType(balanceType, slots[k].child)
    {
      if !HasType(balanceType, slots[i].child) {
        WeighsOne(balanceType, child, i);
        return 1;
      }
      assert slots[i] in slots && slots[i].child < slots[i];
      var part := BalancedNodeSize(balanceType, slots[i].child);
      assert slots[0..i + 1] == slots[..i + 1] && slots[0..i] == slots[..i];
      TotalWeightPush(balanceType, slots, 0, i);
      size := size + part;
      i := i + 1;
    }
    assert slots[..|slots|] == slots;
    WeighsAll(balanceType, child);
  }

  lemma WeighsOne(balanceType: nat, child: TreeChild, i: nat)
    requires !HasType(balanceType, child) || child.slots == []
             || (i < |child.slots| && !HasType(balanceType, child.slots[i].child))
    ensures Weight(balanceType, child) == 1
  {
    hide TotalWeight;
    if HasType(balanceType, child) && child.slots != [] {
      assert child.slots[i] in child.slots;
    }
  }

  lemma WeighsAll(balanceType: nat, child: TreeChild)
    requires HasType(balanceType, child) && child.slots != []
    requires forall k | 0 <= k < |child.slots| :: HasType(balanceType, child.slots[k].child)
    ensures Weight(balanceType, child) == 1 + TotalWeight(balanceType, child.slots)
  {
    hide TotalWeight;
  }

  // ---- width --------------------------------------------------------------

  const WIDEST := 10

  /** Children that the balancer does not look into. */
  ghost predicate UnitWeights(balanceType: nat, slots: seq<Slot>, from: nat, to: nat) {
    forall i {:trigger slots[i]} :: from <= i < to <= |slots| ==> Weight(balanceType, slots[i].child) == 1
  }

  /** One of the given children, or a node made of two to ten narrow ones. */
  ghost predicate Narrow(child: TreeChild, given: seq<Slot>) {
    || (exists slot :: slot in given && slot.child == child)
    || (&& child.Node? && 2 <= |child.slots| <= WIDEST
        && forall slot | slot in child.slots :: Narrow(slot.child, given))
  }

  ghost predicate AllNarrow(slots: seq<Slot>, given: seq<Slot>) {
    forall slot | slot in slots :: Narrow(slot.child, given)
  }

  lemma NarrowPush(slots: seq<Slot>, slot: Slot, given: seq<Slot>)
    requires AllNarrow(slots, given) && Narrow(slot.child, given)
    ensures AllNarrow(slots + [slot], given)
  {}

  lemma NarrowNode(child: TreeChild, given: seq<Slot>)
    requires child.Node? && 2 <= |child.slots| <= WIDEST && AllNarrow(child.slots, given)
    ensures Narrow(child, given)
  {}

  lemma GivenNarrow(given: seq<Slot>)
    ensures AllNarrow(given, given)
  {}

  /** A group of unit weights has unit weights, and no child of it is opened. */
  lemma UnitGroup(balanceType: nat, slots: seq<Slot>, from: nat, to: nat, groupFrom: nat, index: nat)
    requires from <= groupFrom < index <= to <= |slots| && UnitWeights(balanceType, slots, from, to)
    ensures UnitWeights(balanceType, slots, groupFrom, index)
    ensures Weight(balanceType, slots[groupFrom].child) == 1 && Narrow(slots[groupFrom].child, slots)
  {
    hide Weight;
    assert slots[groupFrom] in slots;
  }

  lemma {:induction false} UnitTotal(balanceType: nat, slots: seq<Slot>, from: nat, to: nat)
    requires from <= to <= |slots| && UnitWeights(balanceType, slots, from, to)
    ensures TotalWeight(balanceType, slots[from..to]) == to - from
    decreases |slots| - from, to
  {
    hide Weight, TotalWeight;
    if from < to {
      UnitTotal(balanceType, slots, from, to - 1);
      TotalWeightPush(balanceType, slots, from, to - 1);
    } else {
      EmptyWeight(balanceType, slots[from..to]);
    }
  }

  /** How many groups the first `taken` children make. Each group but the last
      only stopped because the next child would have filled it up. */
  ghost predicate Width(groups: int, taken: nat, maximumChild: nat, more: bool) {
    && 0 <= groups <= taken
    && (more ==> groups * (maximumChild - 1) <= taken)
    && (taken > 0 ==> (groups - 1) * (maximumChild - 1) < taken)
  }

  lemma WidthStep(groups: nat, taken: nat, group: nat, maximumChild: nat, more: bool)
    requires Width(groups, taken, maximumChild, true) && group >= 1
    requires more ==> group + 1 >= maximumChild
    ensures Width(groups + 1, taken + group, maximumChild, more)
  {
    assert (groups + 1) * (maximumChild - 1) == groups * (maximumChild - 1) + (maximumChild - 1);
  }

  lemma NoGroups(maximumChild: nat)
    ensures Width(0, 0, maximumChild, true) && Width(0, 0, maximumChild, false)
  {}

  lemma Multiplied(a: nat, b: nat, c: int)
    requires a <= b && c >= 0
    ensures a * c <= b * c
  {
    assert b * c == a * c + (b - a) * c;
  }

  /** With groups of three sixteenths of the total there are at most ten. */
  lemma FewGroups(n: nat, maximumChild: nat, groups: nat)
    requires n > 0 && maximumChild == (n * 3 + 15) / (BRANCH_FACTOR * 2)
    requires Width(groups, n, maximumChild, false)
    ensures groups <= WIDEST
  {
    Multiplied(WIDEST, if groups > WIDEST then groups - 1 else WIDEST, maximumChild - 1);
  }

  /** The next group of unit weights. */
  lemma GroupWidth(balanceType: nat, slots: seq<Slot>, from: nat, to: nat, groupFrom: nat, group: (nat, nat),
                   maximumChild: nat, groups: nat)
    requires from <= groupFrom < groupFrom + group.1 <= to <= |slots|
    requires group.0 == TotalWeight(balanceType, slots[groupFrom..groupFrom + group.1])
    requires groupFrom + group.1 < to ==>
               group.0 + Weight(balanceType, slots[groupFrom + group.1].child) >= maximumChild
    requires UnitWeights(balanceType, slots, from, to) ==> Width(groups, groupFrom - from, maximumChild, true)
    ensures UnitWeights(balanceType, slots, from, to) ==>
              group.0 == group.1 && Width(groups + 1, groupFrom + group.1 - from, maximumChild, groupFrom + group.1 < to)
  {
    hide Width, TotalWeight, Weight;
    if UnitWeights(balanceType, slots, from, to) {
      UnitTotal(balanceType, slots, groupFrom, groupFrom + group.1);
      WidthStep(groups, groupFrom - from, group.1, maximumChild, groupFrom + group.1 < to);
    }
  }

  /** The children that a balanced range of unit weights gets. */
  lemma RangeWidth(balanceType: nat, slots: seq<Slot>, from: nat, to: nat, maximumChild: nat, groups: nat)
    requires from < to <= |slots|
    requires maximumChild == (TotalWeight(balanceType, slots[from..to]) * 3 + 15) / (BRANCH_FACTOR * 2)
    requires UnitWeights(balanceType, slots, from, to) ==> Width(groups, to - from, maximumChild, false)
    ensures UnitWeights(balanceType, slots, from, to) ==> groups <= WIDEST
  {
    hide Width, TotalWeight, Weight;
    if UnitWeights(balanceType, slots, from, to) {
      UnitTotal(balanceType, slots, from, to);
      FewGroups(to - from, maximumChild, groups);
    }
  }

  // ---- groups -------------------------------------------------------------

  /** The given children in their order, cut into pieces, `shift` further on. */
  ghost predicate Regroups(out: seq<Slot>, slots: seq<Slot>, from: nat, to: nat, shift: int)
    requires from <= to <= |slots|
    decreases slots, out, to, 2
  {
    if from == to then out == []
    else exists k: nat, n: nat :: from <= k < to && n <= |out| && EndsWith(out, slots, from, k, to, n, shift)
  }

  ghost predicate EndsWith(out: seq<Slot>, slots: seq<Slot>, from: nat, k: nat, to: nat, n: nat, shift: int)
    requires from <= k < to <= |slots| && n <= |out|
    decreases slots, out, to, 1
  {
    assert n == |out| ==> out[..n] == out;
    assert n == 0 ==> out[n..] == out;
    Regroups(out[..n], slots, from, k, shift) && Piece(out[n..], slots, k, to, shift)
  }

  /** One slot for a group of children, from the start of the first to the end of
      the last, or the children of a single one that was opened. */
  ghost predicate Piece(part: seq<Slot>, slots: seq<Slot>, from: nat, to: nat, shift: int)
    requires from < to <= |slots|
    decreases slots, part, to, 0
  {
    || (&& |part| == 1
        && var slot, first, last := part[0], slots[from], slots[to - 1];
           && slot.position == first.position + shift
           && slot.position + slot.child.length == last.position + last.child.length + shift
           && if to == from + 1 then slot.child == first.child
              else (assert slot.child < slot; slot.child.Node? && Regroups(slot.child.slots, slots, from, to, -first.position)))
    || (&& to == from + 1 && slots[from].child.Node?
        && (assert slots[from].child < slots[from];
            Regroups(part, slots[from].child.slots, 0, |slots[from].child.slots|, slots[from].position + shift)))
  }

  lemma NoPieces(slots: seq<Slot>, from: nat, shift: int)
    requires from <= |slots|
    ensures Regroups([], slots, from, from, shift)
  {}

  lemma NextPiece(out: seq<Slot>, part: seq<Slot>, slots: seq<Slot>, from: nat, k: nat, to: nat, shift: int)
    requires from <= k < to <= |slots| && Regroups(out, slots, from, k, shift) && Piece(part, slots, k, to, shift)
    ensures Regroups(out + part, slots, from, to, shift)
  {
    hide Piece;
    var all := out + part;
    assert all[..|out|] == out && all[|out|..] == part;
    assert EndsWith(all, slots, from, k, to, |out|, shift) by {
      hide Regroups;
    }
  }

  lemma OnePiece(slot: Slot, slots: seq<Slot>, from: nat, to: nat, shift: int)
    requires from < to <= |slots|
    requires slot.position == slots[from].position + shift
    requires slot.position + slot.child.length == slots[to - 1].position + slots[to - 1].child.length + shift
    requires if to == from + 1 then slot.child == slots[from].child
             else slot.child.Node? && Regroups(slot.child.slots, slots, from, to, -slots[from].position)
    ensures Piece([slot], slots, from, to, shift)
  {
    hide Regroups;
  }

  lemma OpenedPiece(part: seq<Slot>, slots: seq<Slot>, from: nat, shift: int)
    requires from < |slots| && slots[from].child.Node?
    requires Regroups(part, slots[from].child.slots, 0, |slots[from].child.slots|, slots[from].position + shift)
    ensures Piece(part, slots, from, from + 1, shift)
  {
    hide Regroups;
  }

  /** A forest wrapped in a node, unless the node's type is hidden. */
  function Wrapped(id: nat, at: int, length: int, inner: Forest, m: nat): Forest {
    if id >= m then inner else Single(id, at, at + length, inner)
  }

  method BalanceRange(balanceType: nat, slots: seq<Slot>, from: nat, to: nat, start: int, length: int,
                      topType: Option<nat>, ghost at: int, ghost m: nat)
    returns (tree: TreeChild)
    requires from <= to <= |slots| && balanceType >= m
    ensures var id := if topType.Some? then topType.value else balanceType;
            && HasType(id, tree) && tree.length == length
            && (id >= m || from + 2 <= to ==>
                  Expand(tree, at + start, m) == Wrapped(id, at + start, length, ExpandAll(slots[from..to], at, m), m))
            && (from + 2 <= to && UnitWeights(balanceType, slots, from, to) ==>
                  2 <= |tree.slots| <= WIDEST && AllNarrow(tree.slots, slots))
            && (from + 2 <= to ==> Regroups(tree.slots, slots, from, to, -start))
    decreases TotalWeight(balanceType, slots[from..to]), 1
  {
    hide ExpandAll, Concat, TotalWeight, Weight, Width, UnitWeights, Narrow, AllNarrow, Regroups, Piece;
    var total := 0;
    var i := from;
    assert TotalWeight(balanceType, slots[from..from]) == 0 by { EmptyWeight(balanceType, slots[from..from]); }
    while i < to
      invariant from <= i <= to
      invariant total == TotalWeight(balanceType, slots[from..i])
    {
      var size := BalancedNodeSize(balanceType, slots[i].child);
      TotalWeightPush(balanceType, slots, from, i);
      total := total + size;
      i := i + 1;
    }
    var maximumChild := (total * 3 + 15) / (BRANCH_FACTOR * 2);
    var local := DivideBalanced(balanceType, slots, from, to, 0, start, maximumChild, [], at, m);
    NothingNarrow(slots);
    if from < to {
      RangeWidth(balanceType, slots, from, to, maximumChild, |local|);
    }
    NothingExpands(at + start, ExpandAll(slots[from..to], at, m), m);
    var id := if topType.Some? then topType.value else balanceType;
    if |local| == 1 && local[0].position == 0 && HasType(id, local[0].child) && local[0].child.length == length {
      assert local[0..1] == local;
      ExpandRangeOne(local, 0, at + start, m);
      return local[0].child;
    }
    tree := Node(id, local, length);
  }

  lemma EmptyWeight(balanceType: nat, slots: seq<Slot>)
    requires slots == []
    ensures TotalWeight(balanceType, slots) == 0
  {}

  lemma NothingNarrow(given: seq<Slot>)
    ensures AllNarrow([], given)
  {}

  lemma NothingExpands(at: int, f: Forest, m: nat)
    ensures Concat(ExpandAll([], at, m), f) == f
  {
    ConcatEmpty(f);
  }

  /** Cut `slots[from..to]` into groups lighter than `maximumChild`; a child
      that is too heavy alone is replaced by its own children. */
  method DivideBalanced(balanceType: nat, slots: seq<Slot>, from: nat, to: nat, offset: int, start: int,
                        maximumChild: nat, local: seq<Slot>, ghost at: int, ghost m: nat)
    returns (out: seq<Slot>)
    requires from <= to <= |slots| && balanceType >= m
    requires from < to ==> maximumChild >= 1
    ensures ExpandAll(out, at + start, m)
         == Concat(ExpandAll(local, at + start, m), ExpandAll(slots[from..to], at + offset, m))
    ensures |out| >= |local| + (if from < to then 1 else 0)
    ensures from + 2 <= to && TotalWeight(balanceType, slots[from..to]) >= maximumChild ==> |out| >= |local| + 2
    ensures from < to && UnitWeights(balanceType, slots, from, to) ==>
              Width(|out| - |local|, to - from, maximumChild, false)
    ensures UnitWeights(balanceType, slots, from, to) && AllNarrow(local, slots) ==> AllNarrow(out, slots)
    ensures Regroups(out[|local|..], slots, from, to, offset - start) && out[..|local|] == local
    decreases maximumChild, 0, slots
  {
    hide ExpandAll, Concat, TotalWeight, Weight, Width, UnitWeights, Narrow, AllNarrow, Regroups, Piece;
    out := local;
    var index := from;
    NoGroups(maximumChild);
    ghost var groups := 0;
    ghost var pieces: seq<Slot> := [];
    NoPieces(slots, from, offset - start);
    assert ExpandAll(local, at + start, m)
        == Concat(ExpandAll(local, at + start, m), ExpandAll(slots[from..from], at + offset, m)) by {
      NothingToExpand(slots[from..from], ExpandAll(local, at + start, m), at + offset, m);
    }
    while index < to
      invariant from <= index <= to
      invariant |out| >= |local| + groups && (index > from ==> groups >= 1)
      invariant groups == 1 ==> index == from + 1 || TotalWeight(balanceType, slots[from..index]) < maximumChild
      invariant ExpandAll(out, at + start, m)
             == Concat(ExpandAll(local, at + start, m), ExpandAll(slots[from..index], at + offset, m))
      invariant UnitWeights(balanceType, slots, from, to) ==>
                  |out| == |local| + groups && Width(groups, index - from, maximumChild, index < to)
      invariant UnitWeights(balanceType, slots, from, to) && AllNarrow(local, slots) ==> AllNarrow(out, slots)
      invariant out == local + pieces && Regroups(pieces, slots, from, index, offset - start)
    {
      var groupFrom := index;
      var groupSize := FindGroup(balanceType, slots, groupFrom, to, maximumChild);
      index := groupFrom + groupSize.1;
      GroupWidth(balanceType, slots, from, to, groupFrom, groupSize, maximumChild, groups);
      ExpandRangeSplit(slots, from, groupFrom, index, at + offset, m);
      ConcatAssoc(ExpandAll(local, at + start, m), ExpandAll(slots[from..groupFrom], at + offset, m),
                  ExpandAll(slots[groupFrom..index], at + offset, m));
      groups := groups + 1;
      ghost var narrow := UnitWeights(balanceType, slots, from, to) && AllNarrow(local, slots);
      if narrow {
        UnitGroup(balanceType, slots, from, to, groupFrom, index);
      }
      if index == groupFrom + 1 {
        ExpandRangeOne(slots, groupFrom, at + offset, m);
        if groupSize.0 > maximumChild {
          var only := slots[groupFrom].child;
          assert slots[groupFrom] in slots && only < slots[groupFrom];
          assert only.slots[0..|only.slots|] == only.slots;
          ghost var before := out;
          out := DivideBalanced(balanceType, only.slots, 0, |only.slots|, slots[groupFrom].position + offset, start,
                                maximumChild, out, at, m);
          ghost var part := out[|before|..];
          OpenedPiece(part, slots, groupFrom, offset - start);
          NextPiece(pieces, part, slots, from, groupFrom, index, offset - start);
          pieces := pieces + part;
          assert out == local + pieces;
          continue;
        }
        var moved := Slot(slots[groupFrom].position + offset - start, slots[groupFrom].child);
        ExpandAllPush(out, moved, at + start, m);
        if narrow {
          NarrowPush(out, moved, slots);
        }
        OnePiece(moved, slots, groupFrom, index, offset - start);
        NextPiece(pieces, [moved], slots, from, groupFrom, index, offset - start);
        out, pieces := out + [moved], pieces + [moved];
        assert out == local + pieces;
      } else {
        var groupStart := slots[groupFrom].position;
        var groupLength := slots[index - 1].position + Length(slots[index - 1].child) - groupStart;
        var tree := BalanceRange(balanceType, slots, groupFrom, index, groupStart, groupLength, None, at + offset, m);
        var moved := Slot(groupStart + offset - start, tree);
        ExpandAllPush(out, moved, at + start, m);
        if narrow {
          NarrowNode(tree, slots);
          NarrowPush(out, moved, slots);
        }
        OnePiece(moved, slots, groupFrom, index, offset - start);
        NextPiece(pieces, [moved], slots, from, groupFrom, index, offset - start);
        out, pieces := out + [moved], pieces + [moved];
        assert out == local + pieces;
      }
    }
  }

  function Length(child: TreeChild): int {
    child.length
  }

  lemma NothingToExpand(none: seq<Slot>, f: Forest, at: int, m: nat)
    requires none == []
    ensures Concat(f, ExpandAll(none, at, m)) == f
  {}

  /** The next group: its weight and the number of its members. */
  method FindGroup(balanceType: nat, slots: seq<Slot>, from: nat, to: nat, maximumChild: nat)
    returns (group: (nat, nat))
    requires from < to <= |slots|
    ensures 1 <= group.1 <= to - from
    ensures group.0 == TotalWeight(balanceType, slots[from..from + group.1])
    ensures group.1 >= 2 ==> group.0 < maximumChild
    ensures group.1 == 1 ==> group.0 == Weight(balanceType, slots[from].child)
    ensures from + group.1 < to ==>
              group.0 + Weight(balanceType, slots[from + group.1].child) >= maximumChild
  {
    hide TotalWeight, Weight;
    var groupSize := BalancedNodeSize(balanceType, slots[from].child);
    EmptyWeight(balanceType, slots[from..from]);
    TotalWeightPush(balanceType, slots, from, from);
    var index := from + 1;
    while index < to
      invariant from < index <= to
      invariant groupSize == TotalWeight(balanceType, slots[from..index])
      invariant index >= from + 2 ==> groupSize < maximumChild
    {
      var nextSize := BalancedNodeSize(balanceType, slots[index].child);
      TotalWeightPush(balanceType, slots, from, index);
      if groupSize + nextSize >= maximumChild {
        break;
      }
      groupSize := groupSize + nextSize;
      index := index + 1;
    }
    group := (groupSize, index - from);
  }

  /** Type ids fit 16 bits; the anonymous type groups nodes of any of them. */
  const ANONYMOUS := 0x1_0000

  /** Balancing a wide node keeps its content: only nodes of hidden type are
      added or dissolved. */
  method BalanceTree(tree: TreeChild, ghost at: int, ghost m: nat) returns (balanced: TreeChild)
    requires tree.Node? && m <= ANONYMOUS
    ensures Expand(balanced, at, m) == Expand(tree, at, m)
    ensures balanced.Node? && balanced.id == tree.id
    ensures UnitWeights(ANONYMOUS, tree.slots, 0, |tree.slots|) ==>
              |balanced.slots| <= WIDEST && AllNarrow(balanced.slots, tree.slots)
    ensures balanced.length == tree.length
    ensures balanced == tree || Regroups(balanced.slots, tree.slots, 0, |tree.slots|, 0)
  {
    if |tree.slots| <= BRANCH_FACTOR {
      GivenNarrow(tree.slots);
      return tree;
    }
    assert tree.slots[0..|tree.slots|] == tree.slots;
    balanced := BalanceRange(ANONYMOUS, tree.slots, 0, |tree.slots|, 0, tree.length, Some(tree.id), at, m);
  }
}
