/** Cutting packed buffers: rebased slices, buffer nodes turned into trees, and
    the split of a buffer along a path of records. */
module BufferSlices {
  import opened PostfixForest
  import opened CompactTree
  import opened PackedBuffer

  /** Positions and ends that a slice from record `start` and position `from`
      can subtract; Rezel panics on others. */
  predicate Rebasable(data: seq<Quad>, start: nat, end: nat, from: nat)
    requires start <= end <= |data|
  {
    forall i {:trigger data[i]} :: start <= i < end ==>
      data[i].from >= from && data[i].to >= from && data[i].end >= 4 * start
  }

  function Rebased(q: Quad, start: nat, from: nat): Quad
    requires q.from >= from && q.to >= from && q.end >= 4 * start
  {
    Quad(q.id, q.from - from, q.to - from, q.end - 4 * start)
  }

  /** The latest end in a window, relative to `from`, or zero. */
  function Extent(data: seq<Quad>, start: nat, end: nat, from: nat): nat
    requires start <= end <= |data| && Rebasable(data, start, end, from)
    decreases end - start
  {
    if start == end then 0
    else
      assert data[end - 1].to >= from;
      var before := Extent(data, start, end - 1, from);
      if data[end - 1].to - from > before then data[end - 1].to - from else before
  }

  function Sliced(data: seq<Quad>, start: nat, end: nat, from: nat): (sliced: seq<Quad>)
    requires start <= end <= |data| && Rebasable(data, start, end, from)
    ensures |sliced| == end - start
  {
    seq(end - start, i requires 0 <= i < end - start => Rebased(data[start + i], start, from))
  }

  /** The extent of a slice is the latest of its ends. */
  lemma {:induction false} ExtentLatest(data: seq<Quad>, start: nat, end: nat, from: nat)
    requires start <= end <= |data| && Rebasable(data, start, end, from)
    ensures var sliced, extent := Sliced(data, start, end, from), Extent(data, start, end, from);
            && (forall q <- sliced :: q.to <= extent)
            && (extent == 0 || exists q <- sliced :: q.to == extent)
    decreases end - start
  {
    if start < end {
      ExtentLatest(data, start, end - 1, from);
      var before, sliced := Sliced(data, start, end - 1, from), Sliced(data, start, end, from);
      assert sliced == before + [Rebased(data[end - 1], start, from)];
    }
  }

  /** Copies a window and rebases its records in place. */
  method Slice(data: seq<Quad>, start: nat, end: nat, from: nat) returns (buffer: TreeChild)
    requires start <= end <= |data| && Rebasable(data, start, end, from)
    ensures buffer == Buffer(Sliced(data, start, end, from), Extent(data, start, end, from))
    ensures forall q <- buffer.data :: q.to <= buffer.length
    ensures buffer.length == 0 || exists q <- buffer.data :: q.to == buffer.length
  {
    var records := new Quad[end - start](i requires 0 <= i < end - start => data[start + i]);
    var length := 0;
    var k := 0;
    while k < records.Length
      invariant 0 <= k <= records.Length
      invariant forall i {:trigger records[i]} :: 0 <= i < k ==> records[i] == Rebased(data[start + i], start, from)
      invariant forall i {:trigger records[i]} :: k <= i < records.Length ==> records[i] == data[start + i]
      invariant length == Extent(data, start, start + k, from)
    {
      var q := data[start + k];
      assert records[k] == q;
      records[k] := Quad(q.id, q.from - from, q.to - from, q.end - 4 * start);
      if q.to - from > length {
        length := q.to - from;
      }
      k := k + 1;
    }
    assert records[..] == Sliced(data, start, end, from);
    ExtentLatest(data, start, end, from);
    buffer := Buffer(records[..], length);
  }

  ghost predicate IsRebased(q: Quad, original: Quad, start: nat, from: nat) {
    q.id == original.id && q.from == original.from - from && q.to == original.to - from
    && q.end == original.end - 4 * start
  }

  /** Rebased records hold the same forest, counted from the new base. */
  lemma {:induction false} EncodesRebased(data: seq<Quad>, sliced: seq<Quad>, start: nat, end: nat, from: nat,
                                          lo: nat, hi: nat, base: int, f: Forest)
    requires start <= lo <= hi <= end <= |data| && |sliced| == end - start
    requires forall i: nat :: i < |sliced| ==> IsRebased(sliced[i], data[start + i], start, from)
    requires Encodes(data, lo, hi, base, f)
    ensures Encodes(sliced, lo - start, hi - start, base + from, f)
    decreases f
  {
    hide IsRebased, Encodes, Count;
    if f.Snoc? {
      var at := EncodedParts(data, lo, hi, base, f);
      EncodesRebased(data, sliced, start, end, from, lo, at, base, f.front);
      EncodesRebased(data, sliced, start, end, from, at + 1, hi, base, f.kids);
      var k: nat := at - start;
      assert IsRebased(sliced[k], data[start + k], start, from);
      RebasedRecord(data[start + k], sliced[k], start, from, base, f, hi);
      EncodedWhole(sliced, lo - start, at - start, hi - start, base + from, f);
    } else {
      EncodedNothing(data, sliced, lo, hi, lo - start, hi - start, base, base + from, f);
    }
  }

  lemma EncodedNothing(a: seq<Quad>, b: seq<Quad>, lo: nat, hi: nat, lo': nat, hi': nat, base: int, base': int, f: Forest)
    requires hi <= |a| && hi' <= |b| && f.Empty? && Encodes(a, lo, hi, base, f) && (lo == hi ==> lo' == hi')
    ensures Encodes(b, lo', hi', base', f)
  {}

  lemma RebasedRecord(original: Quad, q: Quad, start: nat, from: nat, base: int, f: Forest, hi: nat)
    requires f.Snoc? && IsRebased(q, original, start, from)
    requires original.id == f.id && original.from == f.start - base && original.to == f.end - base
    requires original.end == 4 * hi
    ensures q.id == f.id && q.from == f.start - (base + from) && q.to == f.end - (base + from)
    ensures q.end == 4 * (hi - start)
  {}

  lemma SlicedRebased(data: seq<Quad>, start: nat, end: nat, from: nat)
    requires start <= end <= |data| && Rebasable(data, start, end, from)
    ensures var sliced := Sliced(data, start, end, from);
            forall i: nat :: i < |sliced| ==> IsRebased(sliced[i], data[start + i], start, from)
  {
    var sliced := Sliced(data, start, end, from);
    forall i: nat | i < |sliced| ensures IsRebased(sliced[i], data[start + i], start, from) {
      assert sliced[i] == Rebased(data[start + i], start, from);
    }
  }

  lemma SliceExpands(data: seq<Quad>, start: nat, end: nat, from: nat, base: int, m: nat)
    requires start <= end <= |data| && Rebasable(data, start, end, from) && Nested(data, start, end)
    ensures Expand(Buffer(Sliced(data, start, end, from), Extent(data, start, end, from)), base + from, m)
         == Parse(data, start, end, base)
  {
    hide Nested, Rebasable;
    NestedEncodes(data, start, end, base);
    var sliced := Sliced(data, start, end, from);
    assert forall i: nat :: i < |sliced| ==> IsRebased(sliced[i], data[start + i], start, from) by {
      SlicedRebased(data, start, end, from);
    }
    EncodesRebased(data, sliced, start, end, from, start, end, base, Parse(data, start, end, base));
    ParseWhole(sliced, base + from, Parse(data, start, end, base));
  }

  /** A slice of a valid buffer between record boundaries passes validation. */
  lemma SliceValid(data: seq<Quad>, start: nat, end: nat, from: nat, typeCount: nat)
    requires start <= end <= |data| && Rebasable(data, start, end, from) && Nested(data, start, end)
    requires Ranged(data, typeCount)
    ensures Nested(Sliced(data, start, end, from), 0, end - start)
    ensures Ranged(Sliced(data, start, end, from), typeCount)
  {
    hide Nested, Rebasable, Encodes;
    var sliced, f := Sliced(data, start, end, from), Parse(data, start, end, 0);
    NestedEncodes(data, start, end, 0);
    SlicedRebased(data, start, end, from);
    EncodesRebased(data, sliced, start, end, from, start, end, 0, f);
    EncodesNested(sliced, 0, end - start, from, f);
    forall i | 0 <= i < |sliced| ensures sliced[i].id < typeCount && sliced[i].from <= sliced[i].to {
      assert IsRebased(sliced[i], data[start + i], start, from);
    }
  }

  // ---- ordered buffers ----------------------------------------------------

  /** Records are in position order and their ranges are not reversed. */
  ghost predicate Ordered(data: seq<Quad>) {
    && (forall i, j :: 0 <= i < j < |data| ==> data[i].from <= data[j].from)
    && (forall i {:trigger data[i]} :: 0 <= i < |data| ==> data[i].from <= data[i].to)
  }

  lemma OrderedRebasable(data: seq<Quad>, start: nat, end: nat, from: nat)
    requires Ordered(data) && start <= end <= |data| && Nested(data, start, end)
    requires start < end ==> from <= data[start].from
    ensures Rebasable(data, start, end, from)
  {
    forall i {:trigger data[i]} | start <= i < end
      ensures data[i].from >= from && data[i].to >= from && data[i].end >= 4 * start
    {
      assert End(data, i) > i;
    }
  }

  /** Ids of buffer records are content, not repeat groups. */
  ghost predicate Content(data: seq<Quad>, m: nat) {
    forall i {:trigger data[i]} :: 0 <= i < |data| ==> data[i].id < m
  }

  /** The node of one record. */
  ghost function RecordForest(data: seq<Quad>, index: nat, base: int): Forest
    requires index < |data| && index < End(data, index) <= |data|
  {
    Single(data[index].id, base + data[index].from, base + data[index].to,
           Parse(data, index + 1, End(data, index), base))
  }

  // ---- records as trees ---------------------------------------------------

  /** Turns a record and all records below it into nodes. */
  method MaterializeBufferNode(data: seq<Quad>, index: nat, ghost base: int, ghost m: nat) returns (tree: TreeChild)
    requires index < |data| && index < End(data, index) <= |data| && Nested(data, index + 1, End(data, index))
    requires Content(data, m)
    ensures tree.Node? && tree.length == data[index].to as int - data[index].from as int
    ensures Expand(tree, base + data[index].from, m) == RecordForest(data, index, base)
    decreases End(data, index) - index
  {
    hide ExpandAll, Concat, Nested;
    var record := data[index];
    var end := record.end / 4;
    var slots: seq<Slot> := [];
    ghost var at := base + record.from;
    var child := index + 1;
    assert ExpandAll(slots, at, m) == Empty && Parse(data, child, end, base) == Concat(Empty, Parse(data, child, end, base)) by {
      NothingYet(Parse(data, child, end, base), at, m);
    }
    while child < end
      invariant index < child <= end && Nested(data, child, end)
      invariant Parse(data, index + 1, end, base) == Concat(ExpandAll(slots, at, m), Parse(data, child, end, base))
      decreases end - child
    {
      WindowStep(data, child, end, base);
      var node := MaterializeBufferNode(data, child, base, m);
      var slot := Slot(data[child].from as int - record.from as int, node);
      ExpandAllPush(slots, slot, at, m);
      ConcatAssoc(ExpandAll(slots, at, m), RecordForest(data, child, base), Parse(data, End(data, child), end, base));
      slots := slots + [slot];
      child := data[child].end / 4;
    }
    WindowEnds(data, end, base, ExpandAll(slots, at, m));
    tree := Node(record.id, slots, record.to - record.from);
  }

  lemma NothingYet(f: Forest, at: int, m: nat)
    ensures ExpandAll([], at, m) == Empty && f == Concat(Empty, f)
  {
    ConcatEmpty(f);
  }

  lemma WindowEnds(data: seq<Quad>, end: nat, base: int, f: Forest)
    requires end <= |data|
    ensures Concat(f, Parse(data, end, end, base)) == f
  {}

  lemma WindowStep(data: seq<Quad>, child: nat, end: nat, base: int)
    requires child < end <= |data| && Nested(data, child, end)
    ensures child < End(data, child) <= end
    ensures Nested(data, child + 1, End(data, child)) && Nested(data, End(data, child), end)
    ensures Parse(data, child, end, base)
         == Concat(RecordForest(data, child, base), Parse(data, End(data, child), end, base))
  {
    InnerWindow(data, child, end);
  }

  /** Turns one record into a node over a slice of the records below it. */
  method BufferNodeToTree(data: seq<Quad>, index: nat, ghost base: int, ghost m: nat) returns (tree: TreeChild)
    requires index < |data| && index < End(data, index) <= |data| && Nested(data, index + 1, End(data, index))
    requires Ordered(data) && Content(data, m)
    ensures tree.Node?
    ensures Expand(tree, base + data[index].from, m) == RecordForest(data, index, base)
  {
    hide ExpandAll, Nested, Ordered, Rebasable, Parse;
    var record := data[index];
    var start, end := index + 1, record.end / 4;
    var slots: seq<Slot> := [];
    ghost var at := base + record.from;
    NothingYet(Empty, at, m);
    if start < end {
      RecordsFollow(data, index, end);
      OrderedRebasable(data, start, end, record.from);
      var slice := Slice(data, start, end, record.from);
      SliceExpands(data, start, end, record.from, base, m);
      slots := [Slot(0, slice)];
      ExpandAllPush([], Slot(0, slice), at, m);
      assert [] + [Slot(0, slice)] == slots;
      ConcatEmpty(Expand(slice, at, m));
    } else {
      WindowEnds(data, end, base, Empty);
    }
    assert Ordered(data) ==> record.from <= record.to by { RangeForward(data, index); }
    tree := Node(record.id, slots, record.to - record.from);
  }

  lemma RangeForward(data: seq<Quad>, index: nat)
    requires index < |data| && Ordered(data)
    ensures data[index].from <= data[index].to
  {}

  lemma RecordsFollow(data: seq<Quad>, index: nat, end: nat)
    requires Ordered(data) && index + 1 < end <= |data|
    ensures data[index].from <= data[index + 1].from
  {}

  // ---- splitting along a path ---------------------------------------------

  /** Each record of the path is a sibling below the one before it. */
  ghost predicate RecordPath(data: seq<Quad>, path: seq<nat>, start: nat, end: nat)
    requires start <= end <= |data| && Nested(data, start, end)
    decreases |path|
  {
    && path != []
    && path[0] in Siblings(data, start, end)
    && (|path| > 1 ==>
          && path[0] < |data|
          && path[0] + 1 <= End(data, path[0]) <= |data|
          && Nested(data, path[0] + 1, End(data, path[0]))
          && RecordPath(data, path[1..], path[0] + 1, End(data, path[0])))
  }

  /** A window around one of its siblings. */
  lemma {:induction false} AroundSibling(data: seq<Quad>, start: nat, end: nat, target: nat, base: int)
    requires start <= end <= |data| && Nested(data, start, end) && target in Siblings(data, start, end)
    ensures start <= target < end && target < End(data, target) <= end
    ensures Nested(data, start, target) && Nested(data, target + 1, End(data, target))
    ensures Nested(data, End(data, target), end)
    ensures Parse(data, start, end, base)
         == Concat(Concat(Parse(data, start, target, base), RecordForest(data, target, base)),
                   Parse(data, End(data, target), end, base))
    decreases end - start
  {
    WindowStep(data, start, end, base);
    var next := End(data, start);
    if target == start {
      ConcatEmpty(RecordForest(data, start, base));
    } else {
      AroundSibling(data, next, end, target, base);
      BeforeSibling(data, start, end, target, base);
      ConcatAssoc(RecordForest(data, start, base), Parse(data, next, target, base), RecordForest(data, target, base));
      ConcatAssoc(RecordForest(data, start, base),
                  Concat(Parse(data, next, target, base), RecordForest(data, target, base)),
                  Parse(data, End(data, target), end, base));
    }
  }

  lemma BeforeSibling(data: seq<Quad>, start: nat, end: nat, target: nat, base: int)
    requires start < target <= end <= |data| && Nested(data, start, end)
    requires End(data, start) <= target && Nested(data, End(data, start), target)
    ensures Nested(data, start, target)
    ensures Parse(data, start, target, base)
         == Concat(RecordForest(data, start, base), Parse(data, End(data, start), target, base))
  {
    assert Nested(data, start, target) by { NestedPrefix(data, start, end, target); }
    WindowStep(data, start, target, base);
  }

  lemma NestedPrefix(data: seq<Quad>, start: nat, end: nat, target: nat)
    requires start < target <= end <= |data| && Nested(data, start, end)
    requires End(data, start) <= target && Nested(data, End(data, start), target)
    ensures Nested(data, start, target)
  {
    forall i | start <= i < target ensures data[i].end % 4 == 0 && i < End(data, i) <= target {
      if start < i < End(data, start) { assert End(data, i) <= End(data, start); }
    }
  }

  /** Follows child indexes, the last one first. */
  function Descend(tree: TreeChild, path: seq<nat>): TreeChild
    decreases |path|
  {
    if path == [] || tree.Buffer? || path[|path| - 1] >= |tree.slots| then tree
    else Descend(tree.slots[path[|path| - 1]].child, path[..|path| - 1])
  }

  /** A slice as a child, unless it is empty. */
  method PushBufferSlice(data: seq<Quad>, start: nat, end: nat, slots: seq<Slot>, offset: nat,
                         ghost at: int, ghost m: nat)
    returns (more: seq<Slot>)
    requires start <= end <= |data| && Nested(data, start, end) && Ordered(data)
    ensures |slots| <= |more| <= |slots| + 1 && more[..|slots|] == slots
    ensures ExpandAll(more, at, m) == Concat(ExpandAll(slots, at, m), Parse(data, start, end, at - offset))
  {
    hide ExpandAll, Nested, Ordered, Rebasable;
    if start >= end {
      WindowEnds(data, end, at - offset, ExpandAll(slots, at, m));
      return slots;
    }
    var from := data[start].from;
    OrderedRebasable(data, start, end, from);
    var slice := Slice(data, start, end, from);
    SliceExpands(data, start, end, from, at - offset, m);
    var slot := Slot(from as int - offset as int, slice);
    ExpandAllPush(slots, slot, at, m);
    more := slots + [slot];
  }

  /** Rebuilds a window as a node in which the records of the path are nodes of
      their own. Its content is the window's, and the returned child path leads
      to the last record. */
  method SplitBufferPath(data: seq<Quad>, path: seq<nat>, start: nat, end: nat, id: nat, offset: nat, length: int,
                         ghost at: int, ghost m: nat)
    returns (tree: TreeChild, target: TreeChild, childPath: seq<nat>)
    requires start <= end <= |data| && Nested(data, start, end) && RecordPath(data, path, start, end)
    requires Ordered(data) && Content(data, m) && id < m
    ensures Expand(tree, at, m) == Single(id, at, at + length, Parse(data, start, end, at - offset))
    ensures |childPath| == |path| && Descend(tree, childPath) == target
    ensures path[|path| - 1] < |data| && path[|path| - 1] < End(data, path[|path| - 1]) <= |data|
    ensures Expand(target, at - offset + data[path[|path| - 1]].from, m)
         == RecordForest(data, path[|path| - 1], at - offset)
    decreases |path|
  {
    hide ExpandAll, Nested, Ordered, Rebasable, Content, RecordForest, Parse, Siblings;
    var record := path[0];
    ghost var base := at - offset;
    AroundSibling(data, start, end, record, base);
    var slots := PushBufferSlice(data, start, record, [], offset, at, m);
    NothingYet(Parse(data, start, record, base), at, m);
    var from, to := data[record].from, data[record].to;
    var childIndex := |slots|;
    var child;
    if |path| == 1 {
      target := BufferNodeToTree(data, record, base, m);
      child, childPath := target, [];
    } else {
      ContentAt(data, record, m);
      child, target, childPath :=
        SplitBufferPath(data, path[1..], record + 1, data[record].end / 4, data[record].id, from, to - from, base + from, m);
      assert path[1..][|path[1..]| - 1] == path[|path| - 1];
      assert Expand(child, base + from, m) == RecordForest(data, record, base) by { RecordIs(data, record, base); }
    }
    var slot := Slot(from as int - offset as int, child);
    ExpandAllPush(slots, slot, at, m);
    var before := slots + [slot];
    slots := PushBufferSlice(data, data[record].end / 4, end, before, offset, at, m);
    assert slots[childIndex] == slots[..|before|][childIndex] == slot;
    tree := Node(id, slots, length);
    assert (childPath + [childIndex])[..|childPath|] == childPath;
    childPath := childPath + [childIndex];
  }

  lemma ContentAt(data: seq<Quad>, index: nat, m: nat)
    requires index < |data| && Content(data, m)
    ensures data[index].id < m
  {}

  lemma RecordIs(data: seq<Quad>, index: nat, base: int)
    requires index < |data| && index < End(data, index) <= |data|
    ensures RecordForest(data, index, base)
         == Single(data[index].id, base + data[index].from, base + data[index].to,
                   Parse(data, index + 1, End(data, index), base))
  {}
}
