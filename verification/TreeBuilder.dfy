/** The compact tree builder: a backward walk over postfix records that packs
    small regions into buffers and regroups long repetitions. */
module TreeBuilder {
  import opened Options
  import opened PostfixForest
  import opened CompactTree
  import opened Balance
  import opened PackedBuffer

  /** 65 532 words of four-word records. */
  const MAX_BUFFER_RECORDS := 16_383

  /** Pending nodes deeper than this are flattened. */
  const FLATTEN_DEPTH := 2_500

  datatype Config = Config(typeCount: nat, minRepeat: nat, maxBufferLength: nat)

  datatype BufferScan = BufferScan(size: nat, start: int, skip: nat)

  datatype NodeRequest = NodeRequest(parentStart: int, minPosition: nat, inRepeat: Option<nat>, depth: nat)

  datatype PendingNode = PendingNode(
    id: nat, start: int, end: int, endPosition: nat, startPosition: int,
    slots: seq<Slot>, repeat: Option<nat>, lastGroup: nat, lastEnd: int, depth: nat)

  datatype StartedNode = Built(slot: Slot) | Pending(node: PendingNode)

  function RepeatOf(id: nat, minRepeat: nat): Option<nat> {
    if id >= minRepeat then Some(id) else None
  }

  /** What the builder asserts of its records, plus the bound under which it
      never flattens: ids are known, ranges are not reversed, and no node is
      requested deeper than one level below `FLATTEN_DEPTH`. A repeat node
      directly inside one of its own kind is transparent and adds no depth. */
  ghost predicate Buildable(f: Forest, config: Config, inRepeat: Option<nat>, depth: nat) {
    match f
    case Empty => true
    case Snoc(front, id, start, end, kids) =>
      && Buildable(front, config, inRepeat, depth)
      && id < config.typeCount
      && 0 <= start <= end
      && if inRepeat == Some(id) then Buildable(kids, config, inRepeat, depth)
         else depth <= FLATTEN_DEPTH + 1 && Buildable(kids, config, RepeatOf(id, config.minRepeat), depth + 1)
  }

  function Max(a: nat, b: nat): nat { if a > b then a else b }

  /** How many nodes a branch of the forest nests at most. */
  ghost function Nesting(f: Forest, minRepeat: nat, inRepeat: Option<nat>): nat {
    match f
    case Empty => 0
    case Snoc(front, id, _, _, kids) =>
      Max(Nesting(front, minRepeat, inRepeat),
          if inRepeat == Some(id) then Nesting(kids, minRepeat, inRepeat)
          else 1 + Nesting(kids, minRepeat, RepeatOf(id, minRepeat)))
  }

  ghost predicate NonNegative(f: Forest) {
    f.Snoc? ==> NonNegative(f.front) && f.start >= 0 && NonNegative(f.kids)
  }

  /** What can be built without flattening: the well-typed forests that nest at
      most two levels deeper than `FLATTEN_DEPTH`. */
  lemma {:induction false} BuildableIffShallow(f: Forest, config: Config, inRepeat: Option<nat>, depth: nat)
    ensures Buildable(f, config, inRepeat, depth) <==>
              && WellTyped(f, config.typeCount) && NonNegative(f)
              && (Nesting(f, config.minRepeat, inRepeat) > 0 ==>
                    depth + Nesting(f, config.minRepeat, inRepeat) <= FLATTEN_DEPTH + 2)
    decreases f
  {
    if f.Snoc? {
      BuildableIffShallow(f.front, config, inRepeat, depth);
      if inRepeat == Some(f.id) {
        BuildableIffShallow(f.kids, config, inRepeat, depth);
      } else {
        BuildableIffShallow(f.kids, config, RepeatOf(f.id, config.minRepeat), depth + 1);
      }
    }
  }

  lemma {:induction false} BuildableConcat(a: Forest, b: Forest, config: Config, inRepeat: Option<nat>, depth: nat)
    requires Buildable(a, config, inRepeat, depth) && Buildable(b, config, inRepeat, depth)
    ensures Buildable(Concat(a, b), config, inRepeat, depth)
    decreases b
  {
    if b.Snoc? { BuildableConcat(a, b.front, config, inRepeat, depth); }
  }

  /** `n` records, `skip` of them repeat records, were scanned off the right of
      `f`; what is left can still be built. */
  ghost predicate Scanned(f: Forest, n: nat, skip: nat, config: Config, inRepeat: Option<nat>, depth: nat) {
    && CanTake(f, n, config.minRepeat)
    && skip <= n
    && Count(Taken(f, n, config.minRepeat)) == n - skip
    && Buildable(Rest(f, n, config.minRepeat), config, inRepeat, depth)
  }

  ghost function Left(f: Forest, n: nat, config: Config): Forest {
    if CanTake(f, n, config.minRepeat) then Rest(f, n, config.minRepeat) else Empty
  }

  lemma ScanNothing(f: Forest, config: Config, inRepeat: Option<nat>, depth: nat)
    requires Buildable(f, config, inRepeat, depth)
    ensures Scanned(f, 0, 0, config, inRepeat, depth) && Left(f, 0, config) == f
  {}

  lemma ScanRepeat(f: Forest, n: nat, skip: nat, rest: Forest, config: Config, inRepeat: Option<nat>, depth: nat)
    requires Scanned(f, n, skip, config, inRepeat, depth) && Left(f, n, config) == rest
    requires rest.Snoc? && inRepeat == Some(rest.id) && rest.id >= config.minRepeat
    ensures Scanned(f, n + 1, skip + 1, config, inRepeat, depth)
    ensures Left(f, n + 1, config) == Concat(rest.front, rest.kids)
  {
    BuildableConcat(rest.front, rest.kids, config, inRepeat, depth);
    TakeTwice(f, n, 1, config.minRepeat);
    ConcatEmpty(Taken(f, n, config.minRepeat));
  }

  lemma ScanNode(f: Forest, n: nat, skip: nat, rest: Forest, config: Config, inRepeat: Option<nat>, depth: nat)
    requires Scanned(f, n, skip, config, inRepeat, depth) && Left(f, n, config) == rest
    requires rest.Snoc?
    ensures var k := 1 + Count(rest.kids);
            var node := Single(rest.id, rest.start, rest.end, rest.kids);
            && Scanned(f, n + k, skip + Repeats(node, config.minRepeat), config, inRepeat, depth)
            && Left(f, n + k, config) == rest.front
  {
    hide CanTake, Rest, Taken, Repeats;
    var m, k := config.minRepeat, 1 + Count(rest.kids);
    EraseCount(Single(rest.id, rest.start, rest.end, rest.kids), m);
    TakeLast(rest, m);
    TakeTwice(f, n, k, m);
    CountConcat(Taken(rest, k, m), Taken(f, n, m));
  }

  /** `n` records off the right, where repeat records of the kind being built are
      passed and other nodes are taken whole: what is left, and the start of the
      leftmost node taken. */
  ghost function Walk(f: Forest, n: nat, inRepeat: Option<nat>, start: int): Option<(Forest, int)>
    decreases n
  {
    if n == 0 then Some((f, start))
    else if f.Empty? then None
    else if inRepeat == Some(f.id) then Walk(Concat(f.front, f.kids), n - 1, inRepeat, start)
    else if 1 + Count(f.kids) <= n then Walk(f.front, n - 1 - Count(f.kids), inRepeat, f.start)
    else None
  }

  lemma {:induction false} WalkOn(f: Forest, n: nat, k: nat, inRepeat: Option<nat>, start: int, rest: Forest, left: int)
    requires Walk(f, n, inRepeat, start) == Some((rest, left))
    ensures Walk(f, n + k, inRepeat, start) == Walk(rest, k, inRepeat, left)
    decreases n
  {
    if n > 0 {
      if inRepeat == Some(f.id) {
        WalkOn(Concat(f.front, f.kids), n - 1, k, inRepeat, start, rest, left);
      } else {
        WalkOn(f.front, n - 1 - Count(f.kids), k, inRepeat, f.start, rest, left);
      }
    }
  }

  lemma WalkRepeat(f: Forest, n: nat, inRepeat: Option<nat>, rest: Forest, left: int)
    requires Walk(f, n, inRepeat, 0) == Some((rest, left)) && rest.Snoc? && inRepeat == Some(rest.id)
    ensures Walk(f, n + 1, inRepeat, 0) == Some((Concat(rest.front, rest.kids), left))
  {
    WalkOn(f, n, 1, inRepeat, 0, rest, left);
  }

  lemma WalkNode(f: Forest, n: nat, inRepeat: Option<nat>, rest: Forest, left: int)
    requires Walk(f, n, inRepeat, 0) == Some((rest, left)) && rest.Snoc? && inRepeat != Some(rest.id)
    ensures Walk(f, n + (1 + Count(rest.kids)), inRepeat, 0) == Some((rest.front, rest.start))
  {
    WalkOn(f, n, 1 + Count(rest.kids), inRepeat, 0, rest, left);
  }

  ghost predicate WalkedTo(f: Forest, n: nat, inRepeat: Option<nat>, start: int) {
    Walk(f, n, inRepeat, 0).Some? && Walk(f, n, inRepeat, 0).value.1 == start
  }

  lemma Walked(f: Forest, n: nat, inRepeat: Option<nat>, rest: Forest, start: int)
    requires Walk(f, n, inRepeat, 0) == Some((rest, start))
    ensures WalkedTo(f, n, inRepeat, start)
  {}

  lemma WalkNothing(f: Forest, inRepeat: Option<nat>)
    ensures Walk(f, 0, inRepeat, 0) == Some((f, 0)) && WalkedTo(f, 0, inRepeat, 0)
  {}

  /** The start of the first of the trees, those of the kind being built opened. */
  ghost function FirstStart(g: Forest, inRepeat: Option<nat>, otherwise: int): int {
    match g
    case Empty => otherwise
    case Snoc(front, id, start, _, kids) =>
      FirstStart(front, inRepeat, if inRepeat == Some(id) then FirstStart(kids, inRepeat, otherwise) else start)
  }

  /** Walking over a whole forest ends at its first start. */
  lemma {:induction false} WalkForest(front: Forest, g: Forest, inRepeat: Option<nat>, start: int)
    ensures Walk(Concat(front, g), Count(g), inRepeat, start) == Some((front, FirstStart(g, inRepeat, start)))
    decreases g
  {
    if g.Snoc? {
      var f := Concat(front, g);
      if inRepeat == Some(g.id) {
        var outer, left := Concat(front, g.front), FirstStart(g.kids, inRepeat, start);
        WalkForest(outer, g.kids, inRepeat, start);
        WalkOn(Concat(outer, g.kids), Count(g.kids), Count(g.front), inRepeat, start, outer, left);
        WalkForest(front, g.front, inRepeat, left);
      } else {
        WalkForest(front, g.front, inRepeat, g.start);
      }
    }
  }

  function ToU16(position: int, start: int): Option<nat> {
    if start <= position < start + U16_LIMIT then Some(position - start) else None
  }

  /** Collapse `slots[index..]`, collected from right to left, into one repeat
      leaf that spans `from .. to`. */
  method MakeRepeatLeaf(slots: seq<Slot>, base: int, index: nat, from: int, to: int, id: nat,
                        ghost minRepeat: nat)
    returns (grouped: seq<Slot>)
    requires index <= |slots| && id >= minRepeat
    ensures ExpandReversed(grouped, base, minRepeat) == ExpandReversed(slots, base, minRepeat)
    ensures |grouped| == index + 1 && grouped[..index] == slots[..index]
    ensures var leaf := grouped[index];
            HasType(id, leaf.child) && base + leaf.position == from && from + leaf.child.length == to
  {
    var local: seq<Slot> := [];
    grouped := slots;
    ConcatEmpty(ExpandReversed(slots, base, minRepeat));
    while |grouped| > index
      invariant index <= |grouped| && grouped[..index] == slots[..index]
      invariant Concat(ExpandAll(local, from, minRepeat), ExpandReversed(grouped, base, minRepeat))
             == ExpandReversed(slots, base, minRepeat)
    {
      var last := grouped[|grouped| - 1];
      var moved := Slot(last.position + base - from, last.child);
      ExpandAllPush(local, moved, from, minRepeat);
      ConcatAssoc(ExpandAll(local, from, minRepeat),
                  Expand(last.child, base + last.position, minRepeat),
                  ExpandReversed(grouped[..|grouped| - 1], base, minRepeat));
      local := local + [moved];
      grouped := grouped[..|grouped| - 1];
    }
    var leaf := Slot(from - base, Node(id, local, to - from));
    ExpandReversedPush(grouped, leaf, base, minRepeat);
    grouped := grouped + [leaf];
  }

  /** Erasing a forest piece by piece from the right: the last node is either
      opened or kept whole. */
  lemma EraseStep(rest: Forest, done: Forest, m: nat)
    requires rest.Snoc?
    ensures var last := Erase(Single(rest.id, rest.start, rest.end, rest.kids), m);
            if rest.id >= m then Erase(Concat(rest.front, rest.kids), m) == Erase(rest, m)
            else
              && Concat(Erase(rest.front, m), Concat(last, done)) == Concat(Erase(rest, m), done)
              && Count(Erase(rest, m)) == Count(Erase(rest.front, m)) + Count(last)
  {
    if rest.id >= m {
      OpenRepeat(rest, m);
    } else {
      var last := Single(rest.id, rest.start, rest.end, rest.kids);
      assert rest == Concat(rest.front, last);
      EraseConcat(rest.front, last, m);
      CountConcat(Erase(rest.front, m), Erase(last, m));
      ConcatAssoc(Erase(rest.front, m), Erase(last, m), done);
    }
  }

  lemma EraseKept(id: nat, start: int, end: int, kids: Forest, m: nat)
    requires id < m
    ensures Erase(Single(id, start, end, kids), m) == Single(id, start, end, Erase(kids, m))
    ensures Count(Single(id, start, end, Erase(kids, m))) == 1 + Count(Erase(kids, m))
  {}

  lemma EmptyForests(done: Forest, m: nat)
    ensures Count(Empty) == 0 && Concat(Empty, done) == done && Concat(done, Empty) == done && Erase(Empty, m) == Empty
  {
    ConcatEmpty(done);
  }

  /** One step of taking: the records of the last node, or a repeat record. */
  lemma TakeStep(f: Forest, n: nat, done: Forest, m: nat)
    requires CanTake(f, n, m) && n > 0
    ensures f.Snoc?
    ensures f.id >= m ==>
              var g := Concat(f.front, f.kids);
              && CanTake(g, n - 1, m) && Rest(g, n - 1, m) == Rest(f, n, m) && Taken(g, n - 1, m) == Taken(f, n, m)
    ensures f.id < m ==>
              var k, last := 1 + Count(f.kids), Erase(Single(f.id, f.start, f.end, f.kids), m);
              && k <= n && CanTake(f.front, n - k, m) && Rest(f.front, n - k, m) == Rest(f, n, m)
              && Concat(Taken(f.front, n - k, m), Concat(last, done)) == Concat(Taken(f, n, m), done)
              && Count(Taken(f, n, m)) == Count(Taken(f.front, n - k, m)) + Count(last)
  {
    if f.id < m {
      var k, last := 1 + Count(f.kids), Single(f.id, f.start, f.end, Erase(f.kids, m));
      ConcatAssoc(Taken(f.front, n - k, m), last, done);
      CountConcat(Taken(f.front, n - k, m), last);
      assert Taken(f, n, m) == Concat(Taken(f.front, n - k, m), last);
    }
  }

  lemma TakeNothing(f: Forest, m: nat)
    ensures CanTake(f, 0, m) && Rest(f, 0, m) == f && Taken(f, 0, m) == Empty && Count(Empty) == 0
    ensures forall done :: Concat(Taken(f, 0, m), done) == done
  {
    forall done {
      ConcatEmpty(done);
    }
  }

  lemma ExpandBuffer(buffer: TreeChild, at: int, m: nat)
    requires buffer.Buffer?
    ensures Expand(buffer, at, m) == Parse(buffer.data, 0, |buffer.data|, at)
  {}

  // ---- the pending stack ------------------------------------------------------

  /** What is being built at one level of the pending stack: `rest` is still to
      the left of the cursor, `done` has been built, and together with the node
      pending above this level they make `want`. */
  datatype Level = Level(lo: nat, rest: Forest, done: Forest, want: Forest,
                         id: nat, start: int, end: int, repeat: Option<nat>)

  function Closed(level: Level, m: nat): Forest {
    Wrapped(level.id, level.start, level.end - level.start, level.want, m)
  }

  ghost function Inner(levels: seq<Level>, k: nat, m: nat): Forest {
    if k + 1 < |levels| then Closed(levels[k + 1], m) else Empty
  }

  ghost predicate LevelHolds(records: seq<Record>, levels: seq<Level>, k: nat, position: nat, config: Config, depth: nat)
    requires k < |levels|
  {
    && Holds(records, levels[k].lo, if k + 1 < |levels| then levels[k + 1].lo else position, levels[k].rest)
    && Concat(Erase(levels[k].rest, config.minRepeat), Concat(Inner(levels, k, config.minRepeat), levels[k].done))
       == levels[k].want
    && Buildable(levels[k].rest, config, levels[k].repeat, depth + k)
  }

  ghost predicate Chain(records: seq<Record>, levels: seq<Level>, position: nat, config: Config, depth: nat) {
    levels != [] && forall k | 0 <= k < |levels| :: LevelHolds(records, levels, k, position, config, depth)
  }

  /** A node becomes pending: its siblings wait below, its children on top. */
  lemma ChainPush(records: seq<Record>, levels: seq<Level>, position: nat, mid: nat, config: Config, depth: nat,
                  top: Level, node: Level)
    requires Chain(records, levels, position, config, depth)
    requires top == levels[|levels| - 1] && top.rest.Snoc? && top.repeat != Some(top.rest.id)
    requires var f := top.rest;
             && node == Level(mid, f.kids, Empty, Erase(f.kids, config.minRepeat), f.id, f.start, f.end,
                              RepeatOf(f.id, config.minRepeat))
             && position > 0 && Holds(records, top.lo, mid, f.front) && Holds(records, mid, position - 1, f.kids)
    ensures Chain(records, levels[|levels| - 1 := top.(rest := top.rest.front)] + [node], position - 1, config, depth)
  {
    hide Holds, Buildable, Erase, Concat;
    var m := config.minRepeat;
    var n := |levels| - 1;
    var levels' := levels[n := top.(rest := top.rest.front)] + [node];
    var f := top.rest;
    assert LevelHolds(records, levels, n, position, config, depth);
    PushContent(f, top.done, m);
    PushBuildable(f, config, top.repeat, depth + n);
    EmptyForests(top.done, m);
    EmptyForests(Empty, m);
    EmptyForests(Erase(f.kids, m), m);
    var position' := position - 1;
    forall k | 0 <= k < |levels'|
      ensures LevelHolds(records, levels', k, position', config, depth)
    {
      if k < n {
        assert LevelHolds(records, levels, k, position, config, depth);
      }
    }
  }

  lemma PushContent(f: Forest, done: Forest, m: nat)
    requires f.Snoc?
    ensures Concat(Erase(f.front, m), Concat(Wrapped(f.id, f.start, f.end - f.start, Erase(f.kids, m), m), done))
         == Concat(Erase(f, m), done)
  {
    ConcatAssoc(Erase(f.front, m), Wrapped(f.id, f.start, f.end - f.start, Erase(f.kids, m), m), done);
  }

  lemma PushBuildable(f: Forest, config: Config, repeat: Option<nat>, depth: nat)
    requires f.Snoc? && Buildable(f, config, repeat, depth) && repeat != Some(f.id)
    ensures Buildable(f.front, config, repeat, depth)
    ensures Buildable(f.kids, config, RepeatOf(f.id, config.minRepeat), depth + 1)
  {}

  /** Something built from the right end of the top level's records. */
  lemma ChainAttach(records: seq<Record>, levels: seq<Level>, position: nat, config: Config, depth: nat,
                    top: Level, rest: Forest, built: Forest, position': nat)
    requires Chain(records, levels, position, config, depth)
    requires top == levels[|levels| - 1]
    requires Holds(records, top.lo, position', rest)
    requires Buildable(rest, config, top.repeat, depth + |levels| - 1)
    requires Concat(Erase(rest, config.minRepeat), built) == Erase(top.rest, config.minRepeat)
    ensures Chain(records, levels[|levels| - 1 := top.(rest := rest, done := Concat(built, top.done))],
                  position', config, depth)
  {
    hide Holds, Buildable, Erase, Concat;
    var m := config.minRepeat;
    var n := |levels| - 1;
    var levels' := levels[n := top.(rest := rest, done := Concat(built, top.done))];
    assert LevelHolds(records, levels, n, position, config, depth);
    ConcatAssoc(Erase(rest, m), built, top.done);
    EmptyForests(top.done, m);
    EmptyForests(Concat(built, top.done), m);
    forall k | 0 <= k < |levels'|
      ensures LevelHolds(records, levels', k, position', config, depth)
    {
      if k < n {
        assert LevelHolds(records, levels, k, position, config, depth);
      }
    }
  }

  /** A repeat record inside a node of its own kind is stepped over. */
  lemma ChainOpen(records: seq<Record>, levels: seq<Level>, position: nat, config: Config, depth: nat, top: Level)
    requires Chain(records, levels, position, config, depth)
    requires top == levels[|levels| - 1] && position > top.lo
    requires top.rest.Snoc? && top.repeat == Some(top.rest.id) && top.rest.id >= config.minRepeat
    ensures Chain(records, levels[|levels| - 1 := top.(rest := Concat(top.rest.front, top.rest.kids))],
                  position - 1, config, depth)
  {
    hide Holds, Erase, Concat;
    var f := top.rest;
    var rest := Concat(f.front, f.kids);
    assert LevelHolds(records, levels, |levels| - 1, position, config, depth);
    LastRecord(records, top.lo, position, f);
    OpenRepeat(f, config.minRepeat);
    BuildableConcat(f.front, f.kids, config, top.repeat, depth + |levels| - 1);
    EmptyForests(Erase(f, config.minRepeat), config.minRepeat);
    ChainAttach(records, levels, position, config, depth, top, rest, Empty, position - 1);
    EmptyForests(top.done, config.minRepeat);
  }

  /** A node with nothing left to the left is complete and moves down. */
  lemma ChainPop(records: seq<Record>, levels: seq<Level>, position: nat, config: Config, depth: nat,
                 top: Level, parent: Level)
    requires Chain(records, levels, position, config, depth) && |levels| >= 2
    requires top == levels[|levels| - 1] && top.lo >= position && parent == levels[|levels| - 2]
    ensures top.done == top.want
    ensures Chain(records, levels[..|levels| - 1][|levels| - 2 := parent.(done := Concat(Closed(top, config.minRepeat), parent.done))],
                  position, config, depth)
  {
    hide Buildable, Erase, Concat, Post;
    var m, n := config.minRepeat, |levels| - 2;
    var levels' := levels[..n + 1][n := parent.(done := Concat(Closed(top, m), parent.done))];
    assert LevelHolds(records, levels, n + 1, position, config, depth);
    assert LevelHolds(records, levels, n, position, config, depth);
    EmptyRange(records, position, top.rest);
    EmptyForests(top.done, m);
    EmptyForests(Concat(Closed(top, m), parent.done), m);
    forall k | 0 <= k < |levels'|
      ensures LevelHolds(records, levels', k, position, config, depth)
    {
      if k < n {
        assert LevelHolds(records, levels, k, position, config, depth);
      }
    }
  }

  /** The pending nodes carry out what the levels say. */
  ghost predicate Linked(pending: seq<PendingNode>, levels: seq<Level>, parentStart: int, depth: nat, m: nat) {
    && |levels| == |pending| + 1
    && levels[0].start == parentStart
    && forall k | 0 <= k < |pending| :: LinkedAt(pending[k], levels[k], levels[k + 1], depth + k, m)
  }

  ghost predicate LinkedAt(node: PendingNode, below: Level, level: Level, depth: nat, m: nat) {
    && level.lo == node.endPosition
    && level.id == node.id && level.start == node.start && level.end == node.end
    && level.repeat == node.repeat == RepeatOf(node.id, m)
    && level.done == ExpandReversed(node.slots, node.start, m)
    && node.startPosition == node.start - below.start
    && node.lastGroup <= |node.slots|
    && node.depth == depth
  }

  /** Close the current group of a long repetition into one repeat leaf. */
  method GroupRepeat(node: PendingNode, end: int, ghost m: nat) returns (grouped: PendingNode)
    requires node.repeat == RepeatOf(node.id, m) && node.repeat.Some? && node.lastGroup <= |node.slots|
    ensures ExpandReversed(grouped.slots, node.start, m) == ExpandReversed(node.slots, node.start, m)
    ensures grouped == node.(slots := grouped.slots, lastGroup := |grouped.slots|, lastEnd := end)
    ensures |grouped.slots| == node.lastGroup + 1
  {
    var slots := MakeRepeatLeaf(node.slots, node.start, node.lastGroup, end, node.lastEnd, node.id, m);
    grouped := node.(slots := slots, lastGroup := |slots|, lastEnd := end);
  }

  lemma ChainStart(records: seq<Record>, level: Level, position: nat, config: Config, depth: nat)
    requires Holds(records, level.lo, position, level.rest) && Buildable(level.rest, config, level.repeat, depth)
    requires level.done == Empty && level.want == Erase(level.rest, config.minRepeat)
    ensures Chain(records, [level], position, config, depth)
  {}

  lemma ChainTop(records: seq<Record>, levels: seq<Level>, position: nat, config: Config, depth: nat)
    requires Chain(records, levels, position, config, depth)
    ensures var top := levels[|levels| - 1];
            && Holds(records, top.lo, position, top.rest)
            && Buildable(top.rest, config, top.repeat, depth + |levels| - 1)
            && Concat(Erase(top.rest, config.minRepeat), top.done) == top.want
  {
    hide Holds, Buildable, Erase, Concat;
    var top := levels[|levels| - 1];
    assert LevelHolds(records, levels, |levels| - 1, position, config, depth);
    EmptyForests(top.done, config.minRepeat);
  }

  lemma LinkedPush(pending: seq<PendingNode>, levels: seq<Level>, parentStart: int, depth: nat, m: nat,
                   below: Level, node: PendingNode, level: Level)
    requires Linked(pending, levels, parentStart, depth, m)
    requires levels[|pending|].(rest := below.rest) == below
    requires LinkedAt(node, below, level, depth + |pending|, m)
    ensures Linked(pending + [node], levels[|pending| := below] + [level], parentStart, depth, m)
  {
    hide ExpandReversed;
    var pending', levels' := pending + [node], levels[|pending| := below] + [level];
    forall k | 0 <= k < |pending'|
      ensures LinkedAt(pending'[k], levels'[k], levels'[k + 1], depth + k, m)
    {
      if k < |pending| {
        assert LinkedAt(pending[k], levels[k], levels[k + 1], depth + k, m);
      }
    }
  }

  /** The top node and its level change together. */
  lemma LinkedUpdate(pending: seq<PendingNode>, levels: seq<Level>, parentStart: int, depth: nat, m: nat,
                     node: PendingNode, level: Level)
    requires Linked(pending, levels, parentStart, depth, m) && pending != []
    requires LinkedAt(node, levels[|pending| - 1], level, depth + |pending| - 1, m)
    ensures Linked(pending[|pending| - 1 := node], levels[|pending| := level], parentStart, depth, m)
  {
    hide ExpandReversed;
    var pending', levels' := pending[|pending| - 1 := node], levels[|pending| := level];
    forall k | 0 <= k < |pending'|
      ensures LinkedAt(pending'[k], levels'[k], levels'[k + 1], depth + k, m)
    {
      if k < |pending| - 1 {
        assert LinkedAt(pending[k], levels[k], levels[k + 1], depth + k, m);
      }
    }
  }

  lemma LinkedDrop(pending: seq<PendingNode>, levels: seq<Level>, parentStart: int, depth: nat, m: nat)
    requires Linked(pending, levels, parentStart, depth, m) && pending != []
    ensures Linked(pending[..|pending| - 1], levels[..|pending|], parentStart, depth, m)
  {
    hide ExpandReversed;
    forall k | 0 <= k < |pending| - 1
      ensures LinkedAt(pending[k], levels[k], levels[k + 1], depth + k, m)
    {}
  }

  method FinishNode(node: PendingNode, ghost m: nat) returns (slot: Slot)
    requires node.repeat == RepeatOf(node.id, m) && node.lastGroup <= |node.slots|
    ensures slot.position == node.startPosition && slot.child.length == node.end - node.start
    ensures Expand(slot.child, node.start, m)
         == Wrapped(node.id, node.start, node.end - node.start, ExpandReversed(node.slots, node.start, m), m)
  {
    hide ExpandAll, ExpandReversed;
    var slots := node.slots;
    if node.repeat.Some? && 0 < node.lastGroup < |slots| {
      slots := MakeRepeatLeaf(slots, node.start, node.lastGroup, node.start, node.lastEnd, node.id, m);
    }
    ExpandReverse(slots, node.start, m);
    slots := Reverse(slots);
    var tree: TreeChild;
    if node.repeat.Some? && node.lastGroup > 0 {
      assert slots[0..|slots|] == slots;
      tree := BalanceRange(node.id, slots, 0, |slots|, 0, node.end - node.start, Some(node.id), node.start, m);
    } else {
      tree := Node(node.id, slots, node.end - node.start);
    }
    slot := Slot(node.startPosition, tree);
  }

  lemma NothingBuilt(at: int, m: nat)
    ensures ExpandReversed([], at, m) == Empty
  {}

  lemma DepthBound(f: Forest, config: Config, repeat: Option<nat>, depth: nat)
    requires f.Snoc? && Buildable(f, config, repeat, depth) && repeat != Some(f.id)
    ensures depth <= FLATTEN_DEPTH + 1
  {}

  lemma HoldsRange(records: seq<Record>, lo: nat, hi: nat, f: Forest)
    requires Holds(records, lo, hi, f)
    ensures lo <= hi <= |records|
  {}

  lemma {:induction false} BuildableTyped(f: Forest, config: Config, inRepeat: Option<nat>, depth: nat)
    requires Buildable(f, config, inRepeat, depth)
    ensures WellTyped(f, config.typeCount)
    decreases f
  {
    if f.Snoc? {
      BuildableTyped(f.front, config, inRepeat, depth);
      if inRepeat == Some(f.id) {
        BuildableTyped(f.kids, config, inRepeat, depth);
      } else {
        BuildableTyped(f.kids, config, RepeatOf(f.id, config.minRepeat), depth + 1);
      }
    }
  }

  /** A packed buffer passes the check made when it is created. */
  lemma PackedIsValid(data: seq<Quad>, base: int, f: Forest, n: nat, config: Config, inRepeat: Option<nat>, depth: nat)
    requires Buildable(f, config, inRepeat, depth) && CanTake(f, n, config.minRepeat)
    requires Encodes(data, 0, |data|, base, Taken(f, n, config.minRepeat))
    ensures Ranged(data, config.typeCount) && Nested(data, 0, |data|)
  {
    var m := config.minRepeat;
    BuildableTyped(f, config, inRepeat, depth);
    WellTypedErase(f, config.typeCount, m);
    TakeSplits(f, n, m);
    WellTypedConcat(Erase(Rest(f, n, m), m), Taken(f, n, m), config.typeCount);
    EncodesRanged(data, 0, |data|, base, Taken(f, n, m), config.typeCount);
    EncodesNested(data, 0, |data|, base, Taken(f, n, m));
  }

  class CompactTreeBuilder {
    const records: seq<Record>
    const config: Config
    var position: nat

    constructor (records: seq<Record>, config: Config)
      requires config.maxBufferLength < U16_LIMIT
      ensures this.records == records && this.config == config && position == |records|
    {
      this.records := records;
      this.config := config;
      position := |records|;
    }

    /** How many records to the left of the cursor fit one packed buffer, and
        how many of them are repeat records, which buffers leave out. */
    method FindBufferSize(maxSize: nat, inRepeat: Option<nat>, ghost f: Forest, ghost depth: nat)
      returns (scan: Option<BufferScan>)
      requires maxSize <= position <= |records|
      requires position > 0
      requires Holds(records, position - maxSize, position, f)
      requires Buildable(f, config, inRepeat, depth)
      requires inRepeat.Some? ==> inRepeat.value >= config.minRepeat
      requires inRepeat != Some(records[position - 1].id)
      ensures scan.Some? ==>
                && 1 < scan.value.size <= maxSize
                && scan.value.size - scan.value.skip <= MAX_BUFFER_RECORDS
                && Scanned(f, scan.value.size, scan.value.skip, config, inRepeat, depth)
                && WalkedTo(f, scan.value.size, inRepeat, scan.value.start)
                && records[position - 1].end - scan.value.start <= config.maxBufferLength
    {
      hide *;
      var cursor := position;
      var minimumPosition := position - maxSize;
      var minimumStart :=
        if records[cursor - 1].end >= config.maxBufferLength then records[cursor - 1].end - config.maxBufferLength
        else 0;
      var size, start, skip := 0, 0, 0;
      var result := BufferScan(0, 0, 0);
      ghost var rest := f;
      ScanNothing(f, config, inRepeat, depth);
      WalkNothing(f, inRepeat);
      while cursor > minimumPosition
        invariant minimumPosition <= cursor == position - size
        invariant Holds(records, minimumPosition, cursor, rest)
        invariant Scanned(f, size, skip, config, inRepeat, depth) && Left(f, size, config) == rest
        invariant result.size <= size
        invariant Scanned(f, result.size, result.skip, config, inRepeat, depth)
        invariant Walk(f, size, inRepeat, 0) == Some((rest, start)) && WalkedTo(f, result.size, inRepeat, result.start)
        invariant (size > 0 ==> start >= minimumStart) && (result.size > 0 ==> result.start >= minimumStart)
        invariant size == 0 ==> cursor == position
      {
        var record := records[cursor - 1];
        LastRecord(records, minimumPosition, cursor, rest);
        var nodeSize := record.size;
        if inRepeat == Some(record.id) {
          result := BufferScan(size, start, skip);
          ScanRepeat(f, size, skip, rest, config, inRepeat, depth);
          Walked(f, size, inRepeat, rest, start);
          WalkRepeat(f, size, inRepeat, rest, start);
          rest := Concat(rest.front, rest.kids);
          skip, size, cursor := skip + 1, size + 1, cursor - 1;
          continue;
        }
        if cursor < nodeSize {
          break;
        }
        var nodeStart := cursor - nodeSize;
        if nodeStart < minimumPosition || record.start < minimumStart {
          break;
        }
        var localSkipped := CountRepeats(nodeStart, cursor, Single(rest.id, rest.start, rest.end, rest.kids));
        ScanNode(f, size, skip, rest, config, inRepeat, depth);
        WalkNode(f, size, inRepeat, rest, start);
        start, size, skip := record.start, size + nodeSize, skip + localSkipped;
        cursor := nodeStart;
        rest := rest.front;
      }
      Walked(f, size, inRepeat, rest, start);
      if inRepeat.None? || size == maxSize {
        result := BufferScan(size, start, skip);
      }
      scan := if result.size > 1 && result.size - result.skip <= MAX_BUFFER_RECORDS then Some(result) else None;
    }

    /** The repeat records of one node, counted walking left. */
    method CountRepeats(nodeStart: nat, nodeEnd: nat, ghost f: Forest) returns (count: nat)
      requires Holds(records, nodeStart, nodeEnd, f)
      ensures count == Repeats(f, config.minRepeat)
    {
      hide Post, Count;
      var cursor := nodeEnd;
      count := 0;
      ghost var rest := f;
      while cursor > nodeStart
        invariant nodeStart <= cursor <= nodeEnd && Holds(records, nodeStart, cursor, rest)
        invariant count + Repeats(rest, config.minRepeat) == Repeats(f, config.minRepeat)
      {
        LastRecord(records, nodeStart, cursor, rest);
        RepeatsConcat(rest.front, rest.kids, config.minRepeat);
        if records[cursor - 1].id >= config.minRepeat {
          count := count + 1;
        }
        cursor := cursor - 1;
        rest := Concat(rest.front, rest.kids);
      }
      EmptyRange(records, nodeStart, rest);
    }

    /** Copy the node left of the cursor to the slots just below `index`. A
        repeat record is only stepped over: its children are copied next. */
    method CopyToBuffer(bufferStart: int, data: array<Quad>, index: nat, ghost lo: nat, ghost f: Forest)
      returns (next: Option<nat>)
      requires lo < position <= |records| && Holds(records, lo, position, f) && f.Snoc?
      requires f.id < config.minRepeat ==>
                 Count(Erase(Single(f.id, f.start, f.end, f.kids), config.minRepeat)) <= index
      requires index <= data.Length <= MAX_BUFFER_RECORDS
      modifies this`position, data
      ensures lo <= position < old(position)
      ensures next.Some? ==>
                && next.value <= index
                && forall i | 0 <= i < next.value || index <= i < data.Length :: data[i] == old(data[i])
      ensures next.Some? && f.id >= config.minRepeat ==>
                && next.value == index && position == old(position) - 1
                && Holds(records, lo, position, Concat(f.front, f.kids))
      ensures next.Some? && f.id < config.minRepeat ==>
                && position == old(position) - 1 - Count(f.kids)
                && Holds(records, lo, position, f.front)
                && Encodes(data[..], next.value, index, bufferStart,
                           Erase(Single(f.id, f.start, f.end, f.kids), config.minRepeat))
      decreases position
    {
      hide Post, Count, Encodes, Erase, Concat, Holds;
      ghost var m := config.minRepeat;
      var record := records[position - 1];
      LastRecord(records, lo, position, f);
      position := position - 1;
      if record.id >= config.minRepeat {
        return Some(index);
      }
      EraseKept(f.id, f.start, f.end, f.kids, m);
      EmptyForests(Erase(f.kids, m), m);
      var at := index;
      ghost var want := Erase(f.kids, m);
      if record.size > 1 {
        var endPosition := position - (record.size - 1);
        ghost var rest, done := f.kids, Empty;
        EncodesEmpty(data[..], at, bufferStart);
        while position > endPosition
          invariant endPosition <= position < old(position)
          invariant Holds(records, endPosition, position, rest)
          invariant at <= index && Count(Erase(rest, m)) < at
          invariant Concat(Erase(rest, m), done) == want
          invariant Encodes(data[..], at, index, bufferStart, done)
          invariant forall i | 0 <= i < at || index <= i < data.Length :: data[i] == old(data[i])
          decreases position
        {
          LastRecord(records, endPosition, position, rest);
          EraseStep(rest, done, m);
          ghost var before := data[..];
          var next := CopyToBuffer(bufferStart, data, at, endPosition, rest);
          if next.None? {
            return None;
          }
          EncodesFrame(before, data[..], at, index, bufferStart, done);
          if rest.id >= m {
            rest := Concat(rest.front, rest.kids);
          } else {
            ghost var last := Erase(Single(rest.id, rest.start, rest.end, rest.kids), m);
            EncodesSize(data[..], next.value, at, bufferStart, last);
            EncodesConcat(data[..], next.value, at, index, bufferStart, last, done);
            done, rest := Concat(last, done), rest.front;
          }
          at := next.value;
        }
        EmptyRange(records, endPosition, rest);
        EmptyForests(done, m);
      } else {
        EmptyRange(records, position, f.kids);
        EncodesEmpty(data[..], at, bufferStart);
      }
      var from, to := ToU16(record.start, bufferStart), ToU16(record.end, bufferStart);
      if from.None? || to.None? || 4 * index >= U16_LIMIT {
        return None;
      }
      EncodesSize(data[..], at, index, bufferStart, want);
      ghost var before := data[..];
      at := at - 1;
      data[at] := Quad(record.id, from.value, to.value, 4 * index);
      EncodesFrame(before, data[..], at + 1, index, bufferStart, want);
      EncodeNode(data[..], at, index, bufferStart, f.id, f.start, f.end, want);
      next := Some(at);
    }

    /** Pack the scanned records into one buffer, or restore the cursor when a
        position does not fit. */
    method PackNode(packed: BufferScan, parentStart: int, end: int,
                    ghost lo: nat, ghost f: Forest, ghost inRepeat: Option<nat>, ghost depth: nat)
      returns (node: Option<Slot>)
      requires lo < position <= |records| && Holds(records, lo, position, f)
      requires 1 < packed.size <= position - lo && Buildable(f, config, inRepeat, depth)
      requires Scanned(f, packed.size, packed.skip, config, inRepeat, depth)
      requires packed.size - packed.skip <= MAX_BUFFER_RECORDS
      modifies this`position
      ensures node.None? ==> position == old(position)
      ensures node.Some? ==>
                && position == old(position) - packed.size
                && Holds(records, lo, position, Left(f, packed.size, config))
                && Concat(Erase(Left(f, packed.size, config), config.minRepeat),
                          Expand(node.value.child, parentStart + node.value.position, config.minRepeat))
                   == Erase(f, config.minRepeat)
                && parentStart + node.value.position == packed.start
                && packed.start + node.value.child.length == end
    {
      hide Post, Count, Encodes, Erase, Concat, Holds, CanTake, Rest, Taken, Buildable, Expand, Ranged, Nested;
      if packed.start < parentStart || end < packed.start {
        return None;
      }
      ghost var m := config.minRepeat;
      var checkpoint := position;
      var data := new Quad[packed.size - packed.skip](_ => Quad(0, 0, 0, 0));
      var endPosition := position - packed.size;
      var index := data.Length;
      ghost var rest, done := f, Empty;
      TakeSplits(f, packed.size, m);
      EmptyForests(Taken(f, packed.size, m), m);
      EncodesEmpty(data[..], index, packed.start);
      while position > endPosition
        invariant endPosition <= position <= old(position)
        invariant lo <= position && Holds(records, lo, position, rest)
        invariant CanTake(rest, position - endPosition, m)
        invariant Rest(rest, position - endPosition, m) == Rest(f, packed.size, m)
        invariant index == Count(Taken(rest, position - endPosition, m)) <= data.Length
        invariant Concat(Taken(rest, position - endPosition, m), done) == Taken(f, packed.size, m)
        invariant Encodes(data[..], index, data.Length, packed.start, done)
      {
        TakeStep(rest, position - endPosition, done, m);
        LastRecord(records, lo, position, rest);
        ghost var before, here := data[..], position;
        var next := CopyToBuffer(packed.start, data, index, lo, rest);
        if next.None? {
          position := checkpoint;
          return None;
        }
        EncodesFrame(before, data[..], index, data.Length, packed.start, done);
        if rest.id >= m {
          rest := Concat(rest.front, rest.kids);
        } else {
          ghost var last := Erase(Single(rest.id, rest.start, rest.end, rest.kids), m);
          EncodesSize(data[..], next.value, index, packed.start, last);
          EncodesConcat(data[..], next.value, index, data.Length, packed.start, last, done);
          done, rest := Concat(last, done), rest.front;
        }
        index := next.value;
      }
      // Rezel asserts here that the buffer was filled.
      TakeNothing(rest, m);
      assert index == 0;
      ParseWhole(data[..], packed.start, done);
      // Creating the buffer validates it again; this check cannot fail.
      PackedIsValid(data[..], packed.start, f, packed.size, config, inRepeat, depth);
      var valid := ValidateBuffer(data[..], config.typeCount);
      assert valid;
      var buffer := Buffer(data[..], end - packed.start);
      assert Expand(buffer, packed.start, m) == done by { ExpandBuffer(buffer, packed.start, m); }
      node := Some(Slot(packed.start - parentStart, buffer));
    }

    /** Pack what fits to the left of the cursor, or make its node pending. */
    method StartNode(request: NodeRequest, ghost f: Forest) returns (started: StartedNode, ghost rest: Forest)
      requires request.minPosition < position <= |records|
      requires Holds(records, request.minPosition, position, f)
      requires Buildable(f, config, request.inRepeat, request.depth)
      requires request.inRepeat.Some? ==> request.inRepeat.value >= config.minRepeat
      requires request.inRepeat != Some(records[position - 1].id)
      modifies this`position
      ensures f.Snoc? && request.minPosition <= position < old(position) && 1 + Count(f.kids) <= old(position)
      ensures started.Built? ==>
                && Holds(records, request.minPosition, position, rest)
                && Buildable(rest, config, request.inRepeat, request.depth)
                && Concat(Erase(rest, config.minRepeat),
                          Expand(started.slot.child, request.parentStart + started.slot.position, config.minRepeat))
                   == Erase(f, config.minRepeat)
                && request.parentStart + started.slot.position + started.slot.child.length == f.end
                && started.slot.child.length <= config.maxBufferLength
                && WalkedTo(f, old(position) - position, request.inRepeat, request.parentStart + started.slot.position)
      ensures started.Pending? ==>
                && position == old(position) - 1
                && started.node == PendingNode(
                     f.id, f.start, f.end, old(position) - 1 - Count(f.kids), f.start - request.parentStart,
                     [], RepeatOf(f.id, config.minRepeat), 0, f.end, request.depth)
                && request.inRepeat != Some(f.id)
                && Holds(records, request.minPosition, started.node.endPosition, f.front)
                && Holds(records, started.node.endPosition, position, f.kids)
    {
      hide Post, Count, Erase, Concat, Holds, CanTake, Rest, Taken, Expand, Walk;
      var record := records[position - 1];
      LastRecord(records, request.minPosition, position, f);
      rest := f;
      assert record.start <= record.end;
      assert 1 <= record.size <= position;
      if record.end - record.start <= config.maxBufferLength {
        var packed := FindBufferSize(position - request.minPosition, request.inRepeat, f, request.depth);
        if packed.Some? {
          var node := PackNode(packed.value, request.parentStart, record.end,
                               request.minPosition, f, request.inRepeat, request.depth);
          if node.Some? {
            rest := Left(f, packed.value.size, config);
            return Built(node.value), rest;
          }
        }
      }
      var endPosition := position - record.size;
      position := position - 1;
      started := Pending(PendingNode(
        record.id, record.start, record.end, endPosition, record.start - request.parentStart,
        [], RepeatOf(record.id, config.minRepeat), 0, record.end, request.depth));
    }

    /** Everything that holds between the steps of `TakeNode`. */
    ghost predicate Building(pending: seq<PendingNode>, levels: seq<Level>, parentStart: int, minPosition: nat,
                             want: Forest, depth: nat)
      reads this`position
    {
      && Chain(records, levels, position, config, depth)
      && Linked(pending, levels, parentStart, depth, config.minRepeat)
      && levels[0].lo == minPosition && levels[0].want == want
      && levels[0].done == Empty && levels[0].repeat == None
    }

    /** Put a finished slot into the node on top of the pending stack. */
    ghost method AttachSlot(pending: seq<PendingNode>, levels: seq<Level>, node: PendingNode, slot: Slot,
                            parentStart: int, minPosition: nat, want: Forest, depth: nat, rest: Forest, before: nat)
      returns (levels': seq<Level>)
      requires pending != [] && node == pending[|pending| - 1]
      requires Chain(records, levels, before, config, depth)
      requires Linked(pending, levels, parentStart, depth, config.minRepeat)
      requires levels[0].lo == minPosition && levels[0].want == want
      requires levels[0].done == Empty && levels[0].repeat == None
      requires var top := levels[|pending|];
               && Holds(records, top.lo, position, rest)
               && Buildable(rest, config, top.repeat, depth + |pending|)
               && Concat(Erase(rest, config.minRepeat),
                         Expand(slot.child, node.start + slot.position, config.minRepeat))
                  == Erase(top.rest, config.minRepeat)
      ensures Building(pending[|pending| - 1 := node.(slots := node.slots + [slot])], levels',
                       parentStart, minPosition, want, depth)
    {
      hide Holds, Buildable, Erase, Concat, Expand, ExpandReversed, LevelHolds;
      var m, n := config.minRepeat, |pending|;
      var top := levels[n];
      var built := Expand(slot.child, node.start + slot.position, m);
      var top' := top.(rest := rest, done := Concat(built, top.done));
      assert LinkedAt(node, levels[n - 1], top, depth + n - 1, m);
      ChainAttach(records, levels, before, config, depth, top, rest, built, position);
      ExpandReversedPush(node.slots, slot, node.start, m);
      LinkedUpdate(pending, levels, parentStart, depth, m, node.(slots := node.slots + [slot]), top');
      levels' := levels[n := top'];
    }

    /** Step over a repeat record inside the top node, of the same kind. */
    ghost method StepOver(pending: seq<PendingNode>, levels: seq<Level>, node: PendingNode,
                          parentStart: int, minPosition: nat, want: Forest, depth: nat)
      returns (levels': seq<Level>)
      requires pending != [] && Building(pending, levels, parentStart, minPosition, want, depth)
      requires var n, top := |pending|, levels[|pending|];
               && LinkedAt(node, levels[n - 1], top, depth + n - 1, config.minRepeat)
               && position > top.lo && top.rest.Snoc? && top.repeat == Some(top.rest.id)
      ensures Linked(pending[|pending| - 1 := node], levels', parentStart, depth, config.minRepeat)
      ensures Chain(records, levels', position - 1, config, depth)
      ensures levels'[0] == levels[0]
    {
      hide Holds, Erase, Concat, Expand, ExpandReversed, LevelHolds, Chain;
      var n, top := |pending|, levels[|pending|];
      var top' := top.(rest := Concat(top.rest.front, top.rest.kids));
      ChainOpen(records, levels, position, config, depth, top);
      LinkedUpdate(pending, levels, parentStart, depth, config.minRepeat, node, top');
      levels' := levels[n := top'];
    }

    /** The top node is finished: hand its slot to the node below, if any. */
    ghost method DropLevel(pending: seq<PendingNode>, levels: seq<Level>, node: PendingNode, built: Slot,
                           parentStart: int, minPosition: nat, want: Forest, depth: nat)
      returns (levels': seq<Level>)
      requires pending != [] && node == pending[|pending| - 1] && position <= node.endPosition
      requires Building(pending, levels, parentStart, minPosition, want, depth)
      requires built.position == node.startPosition
      requires Expand(built.child, node.start, config.minRepeat)
            == Wrapped(node.id, node.start, node.end - node.start,
                       ExpandReversed(node.slots, node.start, config.minRepeat), config.minRepeat)
      ensures Chain(records, levels', position, config, depth)
      ensures levels' != [] && levels'[0].lo == minPosition && levels'[0].want == want
      ensures levels'[0].repeat == None
      ensures |pending| == 1 ==>
                && |levels'| == 1
                && levels'[0].done == Expand(built.child, parentStart + built.position, config.minRepeat)
      ensures |pending| >= 2 ==>
                var below := pending[|pending| - 2];
                && levels'[0].done == Empty
                && Linked(pending[..|pending| - 1][|pending| - 2 := below.(slots := below.slots + [built])], levels',
                          parentStart, depth, config.minRepeat)
    {
      hide Holds, Erase, Concat, Expand, ExpandReversed, LevelHolds, Chain, Buildable;
      var m, n := config.minRepeat, |pending|;
      var top, parent := levels[n], levels[n - 1];
      assert LinkedAt(node, parent, top, depth + n - 1, m);
      ChainPop(records, levels, position, config, depth, top, parent);
      LinkedDrop(pending, levels, parentStart, depth, m);
      var parent' := parent.(done := Concat(Closed(top, m), parent.done));
      levels' := levels[..n][n - 1 := parent'];
      if n == 1 {
        EmptyForests(Closed(top, m), m);
      } else {
        var below := pending[n - 2];
        assert LinkedAt(below, levels[n - 2], parent, depth + n - 2, m);
        ExpandReversedPush(below.slots, built, below.start, m);
        LinkedUpdate(pending[..n - 1], levels[..n], parentStart, depth, m, below.(slots := below.slots + [built]), parent');
      }
    }

    /** Pass a record of the repetition on top of the pending stack, closing its
        current group when that has become long enough. */
    method PassRepeat(pending: seq<PendingNode>, ghost levels: seq<Level>, ghost parentStart: int,
                      ghost minPosition: nat, ghost want: Forest, ghost depth: nat)
      returns (pending': seq<PendingNode>, ghost levels': seq<Level>)
      requires pending != [] && Building(pending, levels, parentStart, minPosition, want, depth)
      requires pending[|pending| - 1].endPosition < position <= |records|
      requires pending[|pending| - 1].repeat == Some(records[position - 1].id)
      modifies this`position
      ensures position == old(position) - 1 && pending' != [] && pending'[0].end == pending[0].end
      ensures |pending'| == |pending|
      ensures var open, end := pending'[|pending| - 1].lastEnd, records[position].end;
              open == end || open < end + config.maxBufferLength
      ensures Building(pending', levels', parentStart, minPosition, want, depth)
    {
      hide Post, Count, Erase, Concat, Holds, Expand, ExpandReversed, Buildable, LevelHolds, Chain;
      ghost var m := config.minRepeat;
      var n := |pending|;
      var node := pending[n - 1];
      ghost var top := levels[n];
      ChainTop(records, levels, position, config, depth);
      assert LinkedAt(node, levels[n - 1], top, depth + n - 1, m);
      LastRecord(records, top.lo, position, top.rest);
      if records[position - 1].end + config.maxBufferLength <= node.lastEnd {
        node := GroupRepeat(node, records[position - 1].end, m);
      }
      levels' := StepOver(pending, levels, node, parentStart, minPosition, want, depth);
      pending', position := pending[n - 1 := node], position - 1;
    }

    /** The request for the next child of the nodes under construction. */
    ghost predicate Requests(request: NodeRequest, pending: seq<PendingNode>, levels: seq<Level>, depth: nat)
      requires |levels| == |pending| + 1
      reads this`position
    {
      var top := levels[|pending|];
      && request == NodeRequest(top.start, top.lo, top.repeat, depth + |pending|)
      && request.minPosition < position <= |records|
      && (request.inRepeat.Some? ==> request.inRepeat.value >= config.minRepeat)
      && (pending == [] || request.inRepeat != Some(records[position - 1].id))
    }

    /** Pass repeat records and finish nodes until a node needs another child, or
        the last one has become the slot. */
    method CloseNodes(unclosed: seq<PendingNode>, ghost stacked: seq<Level>, parentStart: int,
                      ghost minPosition: nat, ghost want: Forest, ghost depth: nat)
      returns (next: Option<NodeRequest>, pending: seq<PendingNode>, ghost levels: seq<Level>, slot: Slot,
               ghost rest: Forest)
      requires unclosed != [] && Building(unclosed, stacked, parentStart, minPosition, want, depth)
      modifies this`position
      ensures position <= old(position)
      ensures next.Some? ==>
                && Building(pending, levels, parentStart, minPosition, want, depth)
                && Requests(next.value, pending, levels, depth)
                && pending != [] && pending[0].end == unclosed[0].end
      ensures next.None? ==>
                && minPosition <= position && Holds(records, minPosition, position, rest)
                && Buildable(rest, config, None, depth)
                && Concat(Erase(rest, config.minRepeat),
                          Expand(slot.child, parentStart + slot.position, config.minRepeat)) == want
                && parentStart + slot.position + slot.child.length == unclosed[0].end
    {
      hide Post, Count, Erase, Concat, Holds, Expand, ExpandReversed, Buildable, LevelHolds, Chain;
      ghost var m := config.minRepeat;
      pending, levels, rest := unclosed, stacked, Empty;
      slot := Slot(0, Node(0, [], 0));
      while true
        invariant pending != [] && pending[0].end == unclosed[0].end
        invariant position <= old(position)
        invariant Building(pending, levels, parentStart, minPosition, want, depth)
        decreases position, |pending|
      {
        var n := |pending|;
        var node := pending[n - 1];
        ghost var top := levels[n];
        ChainTop(records, levels, position, config, depth);
        HoldsRange(records, top.lo, position, top.rest);
        assert LinkedAt(node, levels[n - 1], top, depth + n - 1, m);
        if position > node.endPosition {
          LastRecord(records, top.lo, position, top.rest);
          if node.repeat == Some(records[position - 1].id) {
            pending, levels := PassRepeat(pending, levels, parentStart, minPosition, want, depth);
            continue;
          }
          // Deeper nodes are flattened here; the bound on nesting rules them out.
          DepthBound(top.rest, config, top.repeat, depth + n);
          assert node.depth <= FLATTEN_DEPTH;
          next := Some(NodeRequest(node.start, node.endPosition, node.repeat, node.depth + 1));
          return;
        }
        var built := FinishNode(node, m);
        levels := DropLevel(pending, levels, node, built, parentStart, minPosition, want, depth);
        pending := pending[..n - 1];
        if pending == [] {
          rest := levels[0].rest;
          ChainTop(records, levels, position, config, depth);
          HoldsRange(records, minPosition, position, rest);
          return None, pending, levels, built, rest;
        }
        var below := pending[n - 2];
        pending := pending[n - 2 := below.(slots := below.slots + [built])];
      }
    }

    /** Build one slot from the records left of the cursor: what it takes off
        the right of `f` is what the slot expands to. */
    method TakeNode(parentStart: int, minPosition: nat, ghost f: Forest, depth: nat)
      returns (slot: Slot, ghost rest: Forest)
      requires minPosition < position <= |records|
      requires Holds(records, minPosition, position, f)
      requires Buildable(f, config, None, depth)
      modifies this`position
      ensures minPosition <= position < old(position)
      ensures Holds(records, minPosition, position, rest) && Buildable(rest, config, None, depth)
      ensures Concat(Erase(rest, config.minRepeat), Expand(slot.child, parentStart + slot.position, config.minRepeat))
           == Erase(f, config.minRepeat)
      ensures f.Snoc? && parentStart + slot.position + slot.child.length == f.end
    {
      hide Post, Count, Erase, Concat, Holds, Expand, ExpandReversed, Buildable, LevelHolds, Chain;
      ghost var m := config.minRepeat;
      ghost var want := Erase(f, m);
      var pending: seq<PendingNode> := [];
      var request := NodeRequest(parentStart, minPosition, None, depth);
      ghost var levels := [Level(minPosition, f, Empty, want, 0, parentStart, 0, None)];
      ChainStart(records, levels[0], position, config, depth);
      while true
        invariant position <= old(position)
        invariant Building(pending, levels, parentStart, minPosition, want, depth)
        invariant if pending == [] then levels[0].rest == f
                  else position < old(position) && f.Snoc? && pending[0].end == f.end
        invariant Requests(request, pending, levels, depth)
        decreases position
      {
        ghost var top, before := levels[|pending|], position;
        ChainTop(records, levels, position, config, depth);
        EmptyForests(Erase(top.rest, m), m);
        var started;
        started, rest := StartNode(request, top.rest);
        match started {
          case Built(built) =>
            if pending == [] {
              HoldsRange(records, minPosition, position, rest);
              slot := built;
              return;
            }
            levels := AttachSlot(pending, levels, pending[|pending| - 1], built, parentStart, minPosition, want, depth,
                                 rest, before);
            pending := pending[|pending| - 1 := pending[|pending| - 1].(slots := pending[|pending| - 1].slots + [built])];
          case Pending(node) =>
            ghost var level := Level(node.endPosition, top.rest.kids, Empty, Erase(top.rest.kids, m),
                                     node.id, node.start, node.end, node.repeat);
            ghost var below := top.(rest := top.rest.front);
            ChainPush(records, levels, before, node.endPosition, config, depth, top, level);
            NothingBuilt(node.start, m);
            LinkedPush(pending, levels, parentStart, depth, m, below, node, level);
            levels, pending := levels[|pending| := below] + [level], pending + [node];
        }
        var next;
        next, pending, levels, slot, rest := CloseNodes(pending, levels, parentStart, minPosition, want, depth);
        if next.None? {
          return;
        }
        request := next.value;
      }
    }
  }

  lemma {:induction false} LastReversed(slots: seq<Slot>)
    requires slots != []
    ensures Reverse(slots)[|slots| - 1] == slots[0]
    decreases |slots|
  {
    if |slots| > 1 { LastReversed(slots[..|slots| - 1]); }
  }

  /** Build a whole tree from the postfix records of `f`. Its content is `f`
      without the repeat nodes: the same ids, ranges, order and nesting. */
  method BuildTree(records: seq<Record>, config: Config, topId: nat, start: int, length: Option<int>, ghost f: Forest)
    returns (tree: TreeChild)
    requires config.maxBufferLength < U16_LIMIT
    requires records == Post(f)
    requires WellTyped(f, config.typeCount) && NonNegative(f)
    requires Nesting(f, config.minRepeat, None) <= FLATTEN_DEPTH + 2
    ensures tree.Node? && tree.id == topId
    ensures ExpandAll(tree.slots, start, config.minRepeat) == Erase(f, config.minRepeat)
    ensures tree.length == if length.Some? then length.value else if f.Snoc? then f.end - start else 0
  {
    hide Post, Count, Erase, Concat, Expand, ExpandAll, ExpandReversed, Buildable, Nesting, WellTyped, NonNegative;
    BuildableIffShallow(f, config, None, 0);
    ghost var m := config.minRepeat;
    var builder := new CompactTreeBuilder(records, config);
    var slots: seq<Slot> := [];
    ghost var rest := f;
    NothingBuilt(start, m);
    EmptyForests(Erase(f, m), m);
    while builder.position > 0
      invariant builder.position <= |records|
      invariant Holds(records, 0, builder.position, rest)
      invariant Buildable(rest, config, None, 0)
      invariant Concat(Erase(rest, m), ExpandReversed(slots, start, m)) == Erase(f, m)
      invariant if slots == [] then rest == f
                else f.Snoc? && start + slots[0].position + slots[0].child.length == f.end
      decreases builder.position
    {
      ghost var before := rest;
      var slot;
      slot, rest := builder.TakeNode(start, 0, rest, 0);
      ghost var built := Expand(slot.child, start + slot.position, m);
      ConcatAssoc(Erase(rest, m), built, ExpandReversed(slots, start, m));
      ExpandReversedPush(slots, slot, start, m);
      slots := slots + [slot];
    }
    EmptyRange(records, 0, rest);
    EmptyForests(ExpandReversed(slots, start, m), m);
    ExpandReverse(slots, start, m);
    if slots != [] {
      LastReversed(slots);
    }
    slots := Reverse(slots);
    var inferred := if slots == [] then 0 else slots[|slots| - 1].position + slots[|slots| - 1].child.length;
    tree := Node(topId, slots, if length.Some? then length.value else inferred);
  }
}
