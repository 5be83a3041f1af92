/** The record buffer of one GLR stack, split into shared frozen chunks and a
    private tail, against a stack whose buffer is one flat sequence. */
module StackBuffer {
  import opened PostfixForest

  const ERROR: nat := 0
  const INSERT_PENALTY: int := 200
  const DELETE_PENALTY: int := 190
  const REDUCE_PENALTY: int := 100

  datatype Frame = Frame(state: nat, start: int, bufferOffset: nat)

  /** The parser tables and limits that the buffer operations consult. */
  datatype Core = Core(
    maxNode: nat,
    minRepeat: nat,
    maxDepth: nat,
    maxRecords: nat,
    skipped: set<nat>,
    gotos: map<(nat, nat), nat>,
    precedence: map<nat, int>)

  datatype Reduction = Reduction(term: nat, depth: nat, repeats: bool, stays: bool)

  // ---- the flat stack -----------------------------------------------------

  datatype Flat = Flat(
    frames: seq<Frame>,
    state: nat,
    reducePosition: int,
    position: int,
    score: int,
    records: seq<Record>,
    branchBase: nat,
    parseStart: int)

  datatype Outcome = Done(stack: Flat) | Failed

  /** How many leading records a node that ends at `end` is stored after: the
      trailing records that end later are passed. */
  function SinkIndex(records: seq<Record>, end: int): (k: nat)
    ensures k <= |records|
    ensures forall i :: k <= i < |records| ==> records[i].end > end
    ensures k > 0 ==> records[k - 1].end <= end
  {
    if |records| > 0 && records[|records| - 1].end > end then
      SinkIndex(records[..|records| - 1], end)
    else |records|
  }

  ghost predicate MustMove(records: seq<Record>, end: int) {
    exists i: nat :: SinkIndex(records, end) <= i < |records| && records[i].size > 0
  }

  /** A node that passes `moved` records no longer counts them, but always
      counts itself. */
  function ShrunkSize(size: nat, moved: nat): nat {
    if size <= 1 then size else if moved < size then size - moved else 1
  }

  function Sunk(records: seq<Record>, r: Record): seq<Record> {
    var k := SinkIndex(records, r.end);
    records[..k] + [r.(size := ShrunkSize(r.size, |records| - k))] + records[k..]
  }

  predicate ErrorIsOnTop(frames: seq<Frame>, base: nat, tail: seq<Record>) {
    && (frames == [] || frames[|frames| - 1].bufferOffset < base + |tail|)
    && |tail| > 0
    && tail[|tail| - 1].id == ERROR
  }

  /** The records `tail`, which follow `base` others, once `r` is stored: an
      error joins an error on top, and a node that must sink goes before the
      records that end later, unless an error is on top. */
  ghost function Stored(frames: seq<Frame>, position: int, base: nat, tail: seq<Record>, r: Record,
                        mustSink: bool): seq<Record> {
    var n := |tail|;
    if r.id == ERROR && ErrorIsOnTop(frames, base, tail) && r.start == r.end then tail
    else if r.id == ERROR && ErrorIsOnTop(frames, base, tail) && tail[n - 1].end >= r.start then
      tail[n - 1 := tail[n - 1].(end := r.end)]
    else if !mustSink || position == r.end then tail + [r]
    else if n > 0 && tail[n - 1].id == ERROR then tail + [r]
    else if MustMove(tail, r.end) then Sunk(tail, r)
    else tail + [r]
  }

  ghost function FlatStore(core: Core, s: Flat, r: Record, mustSink: bool): Outcome {
    if |s.records| >= core.maxRecords then Failed
    else Done(s.(records := Stored(s.frames, s.position, 0, s.records, r, mustSink)))
  }

  function FlatPushState(core: Core, s: Flat, state: nat, start: int): Outcome {
    if |s.frames| >= core.maxDepth then Failed
    else Done(s.(frames := s.frames + [Frame(s.state, start, |s.records|)], state := state))
  }

  function FlatGotoShift(core: Core, s: Flat, state: nat): Outcome {
    FlatPushState(core, s, state, s.position)
  }

  function FlatAppend(core: Core, s: Flat, term: nat, start: int, end: int): Flat {
    if term <= core.maxNode then s.(records := s.records + [Record(term, start, end, 1)]) else s
  }

  function FlatShift(core: Core, s: Flat, state: nat, term: nat, start: int, end: int): Outcome {
    var skipped := state in core.skipped;
    var s1 := s.(position := end,
                 reducePosition := if !skipped && (end > start || term <= core.maxNode) then end
                                   else s.reducePosition);
    match FlatPushState(core, s1, state,
                        if skipped || start <= s1.reducePosition then start else s1.reducePosition)
    case Failed => Failed
    case Done(s2) => Done(FlatAppend(core, s2, term, start, end))
  }

  function FlatStayShift(core: Core, s: Flat, term: nat, start: int, end: int): Flat {
    FlatAppend(core, s.(position := end), term, start, end)
  }

  function Precedence(core: Core, term: nat): int {
    if term in core.precedence then core.precedence[term] else 0
  }

  ghost function FlatReduceEmpty(core: Core, s: Flat, term: nat): Outcome {
    var isNode := term < core.minRepeat;
    var at := if isNode && s.reducePosition < s.position then s.position else s.reducePosition;
    if (s.state, term) !in core.gotos then Failed
    else
      match FlatPushState(core, s.(reducePosition := at), core.gotos[(s.state, term)], at)
      case Failed => Failed
      case Done(s1) => if isNode then FlatStore(core, s1, Record(term, at, at, 1), true) else Done(s1)
  }

  /** Drops the frames of a reduction and takes the goto from the state below. */
  function FlatDropFrames(core: Core, s: Flat, base: nat, red: Reduction): Outcome
    requires base <= |s.frames|
  {
    if red.stays then
      if base >= |s.frames| then Failed
      else Done(s.(state := s.frames[base].state, frames := s.frames[..base]))
    else if base == 0 || (s.frames[base - 1].state, red.term) !in core.gotos then Failed
    else Done(s.(state := core.gotos[(s.frames[base - 1].state, red.term)], frames := s.frames[..base]))
  }

  function ConsumedFrames(red: Reduction): nat
    requires red.depth > 0
  {
    red.depth - 1 + if red.stays then 2 else 0
  }

  ghost function FlatReduceSome(core: Core, s: Flat, red: Reduction): Outcome
    requires red.depth > 0
  {
    if ConsumedFrames(red) > |s.frames| then Failed
    else
      var base := |s.frames| - ConsumedFrames(red);
      var isNode := red.term < core.minRepeat;
      var start := if base == 0 then s.parseStart else s.frames[base - 1].start;
      var at := if isNode && start == s.reducePosition && s.reducePosition < s.position
                then s.position else s.reducePosition;
      var first := if base == 0 then 0 else s.frames[base - 1].bufferOffset;
      if first > |s.records| then Failed
      else if isNode || red.repeats then
        var end := if s.state in core.skipped then s.position else at;
        match FlatStore(core, s.(reducePosition := at),
                        Record(red.term, start, end, |s.records| - first + 1), true)
        case Failed => Failed
        case Done(s1) => FlatDropFrames(core, s1, base, red)
      else FlatDropFrames(core, s.(reducePosition := at), base, red)
  }

  ghost function FlatReduce(core: Core, s: Flat, red: Reduction): Outcome {
    var scored := s.(score := s.score + Precedence(core, red.term));
    if red.depth == 0 then FlatReduceEmpty(core, scored, red.term)
    else FlatReduceSome(core, scored, red)
  }

  ghost function FlatDelete(core: Core, s: Flat, term: nat, end: int): Outcome {
    var isNode := term <= core.maxNode;
    match if isNode then FlatStore(core, s, Record(term, s.position, end, 1), false) else Done(s)
    case Failed => Failed
    case Done(s1) =>
      match FlatStore(core, s1, Record(ERROR, s.position, end, if isNode then 2 else 1), false)
      case Failed => Failed
      case Done(s2) =>
        Done(s2.(position := end, reducePosition := end, score := s2.score - DELETE_PENALTY))
  }

  ghost function FlatStoreError(core: Core, s: Flat): Outcome {
    FlatStore(core, s, Record(ERROR, s.position, s.position, 1), true)
  }

  ghost function FlatInsert(core: Core, s: Flat, state: nat): Outcome {
    match FlatPushState(core, s, state, s.position)
    case Failed => Failed
    case Done(s1) =>
      match FlatStoreError(core, s1)
      case Failed => Failed
      case Done(s2) =>
        Done(s2.(reducePosition := s.position, score := s2.score - INSERT_PENALTY))
  }

  ghost function FlatForceReduce(core: Core, s: Flat, red: Reduction, valid: bool): Outcome {
    match if valid then Done(s) else FlatStoreError(core, s)
    case Failed => Failed
    case Done(s1) =>
      var s2 := if valid then s1 else s1.(score := s1.score - REDUCE_PENALTY);
      FlatReduce(core, s2.(reducePosition := s2.position), red)
  }

  ghost function FlatRestart(core: Core, s: Flat): Outcome
    requires |s.frames| > 0
  {
    match FlatStoreError(core, s)
    case Failed => Failed
    case Done(s1) => Done(s1.(state := s.frames[0].state, frames := []))
  }

  // ---- sinking ------------------------------------------------------------

  /** Sinking looks no further than the first record that ends early enough,
      so a prefix whose last record does is out of its reach. */
  lemma {:induction false} SinkIndexAppend(prefix: seq<Record>, tail: seq<Record>, end: int)
    requires |prefix| > 0 ==> prefix[|prefix| - 1].end <= end
    ensures SinkIndex(prefix + tail, end) == |prefix| + SinkIndex(tail, end)
    decreases |tail|
  {
    var all := prefix + tail;
    if |tail| > 0 && tail[|tail| - 1].end > end {
      assert all[..|all| - 1] == prefix + tail[..|tail| - 1];
      SinkIndexAppend(prefix, tail[..|tail| - 1], end);
    } else if |tail| == 0 {
      assert all == prefix;
    }
  }

  lemma MustMoveAppend(prefix: seq<Record>, tail: seq<Record>, end: int)
    requires |prefix| > 0 ==> prefix[|prefix| - 1].end <= end
    ensures MustMove(prefix + tail, end) <==> MustMove(tail, end)
  {
    hide SinkIndex;
    SinkIndexAppend(prefix, tail, end);
    var all := prefix + tail;
    if MustMove(all, end) {
      var i: nat :| SinkIndex(all, end) <= i < |all| && all[i].size > 0;
      var j: nat := i - |prefix|;
      assert tail[j] == all[i];
    }
    if MustMove(tail, end) {
      var j: nat :| SinkIndex(tail, end) <= j < |tail| && tail[j].size > 0;
      assert all[|prefix| + j] == tail[j];
    }
  }

  lemma SunkAppend(prefix: seq<Record>, tail: seq<Record>, r: Record)
    requires |prefix| > 0 ==> prefix[|prefix| - 1].end <= r.end
    ensures Sunk(prefix + tail, r) == prefix + Sunk(tail, r)
  {
    hide SinkIndex, ShrunkSize;
    SinkIndexAppend(prefix, tail, r.end);
    var all, k := prefix + tail, SinkIndex(tail, r.end);
    var sunk := [r.(size := ShrunkSize(r.size, |tail| - k))];
    assert |all| - (|prefix| + k) == |tail| - k;
    CutInside(prefix, tail, k);
    Regroup(prefix, tail[..k], sunk, tail[k..]);
  }

  lemma CutInside(prefix: seq<Record>, tail: seq<Record>, k: nat)
    requires k <= |tail|
    ensures (prefix + tail)[..|prefix| + k] == prefix + tail[..k]
    ensures (prefix + tail)[|prefix| + k..] == tail[k..]
  {}

  lemma Regroup(a: seq<Record>, b: seq<Record>, c: seq<Record>, d: seq<Record>)
    ensures a + b + c + d == a + (b + c + d)
  {}

  /** What a sunk node leaves in place: the records before it end no later
      than it does as far as one can look back without meeting one that does,
      those after it all end later, and none is lost or reordered. */
  lemma SunkPlace(records: seq<Record>, r: Record)
    ensures var k := SinkIndex(records, r.end);
            && |Sunk(records, r)| == |records| + 1
            && Sunk(records, r)[..k] == records[..k]
            && Sunk(records, r)[k + 1..] == records[k..]
            && Sunk(records, r)[k] == r.(size := ShrunkSize(r.size, |records| - k))
            && (k > 0 ==> Sunk(records, r)[k - 1].end <= r.end)
            && forall i :: k < i < |Sunk(records, r)| ==> Sunk(records, r)[i].end > r.end
  {
    var k := SinkIndex(records, r.end);
    var sunk := Sunk(records, r);
    assert sunk[..k] == records[..k];
    assert sunk[k + 1..] == records[k..];
    forall i | k < i < |sunk| ensures sunk[i].end > r.end {
      assert sunk[i] == records[i - 1];
    }
  }

  /** A reduction that starts after `first` records counts all those since. A
      sunk node ends up counting exactly the ones between `first` and its own
      place, and only itself when it sinks below them all. */
  lemma SunkSpan(records: seq<Record>, first: nat, r: Record)
    requires first <= |records| && r.size == |records| - first + 1
    ensures var k := SinkIndex(records, r.end);
            Sunk(records, r)[k].size == if k >= first then k - first + 1 else 1
  {
    SunkPlace(records, r);
  }

  // ---- frozen chunks ------------------------------------------------------

  datatype Chain = Root | Chunk(base: nat, data: seq<Record>, parent: Chain)

  function Frozen(chain: Chain): seq<Record> {
    match chain
    case Root => []
    case Chunk(_, data, parent) => Frozen(parent) + data
  }

  /** Every chunk starts where its parent ends and holds a record. */
  predicate Linked(chain: Chain) {
    chain.Chunk? ==>
      && chain.base == |Frozen(chain.parent)|
      && |chain.data| > 0
      && Linked(chain.parent)
  }

  /** What freezing leaves behind: the last frozen record ends by the reduce
      position, and an error on top is never frozen. */
  predicate Sealed(frozen: seq<Record>, tail: seq<Record>, reducePosition: int) {
    |frozen| > 0 ==>
      && frozen[|frozen| - 1].end <= reducePosition
      && (tail == [] ==> frozen[|frozen| - 1].id != ERROR)
  }

  /** Storing in the private tail is storing in the flat buffer: neither error
      merging nor sinking ever reaches a frozen record. */
  lemma StoredAppend(frames: seq<Frame>, position: int, reducePosition: int, frozen: seq<Record>,
                     tail: seq<Record>, r: Record, mustSink: bool)
    requires Sealed(frozen, tail, reducePosition)
    requires mustSink ==> reducePosition <= r.end
    ensures Stored(frames, position, 0, frozen + tail, r, mustSink)
         == frozen + Stored(frames, position, |frozen|, tail, r, mustSink)
  {
    hide SinkIndex, MustMove, Sunk;
    var all := frozen + tail;
    if |tail| > 0 {
      assert all[|all| - 1] == tail[|tail| - 1];
      assert all[|all| - 1 := all[|all| - 1].(end := r.end)]
          == frozen + tail[|tail| - 1 := tail[|tail| - 1].(end := r.end)];
    } else {
      assert all == frozen;
    }
    assert all + [r] == frozen + (tail + [r]);
    if mustSink {
      MustMoveAppend(frozen, tail, r.end);
      SunkAppend(frozen, tail, r);
    }
  }

  lemma StoredSealed(frames: seq<Frame>, position: int, reducePosition: int, frozen: seq<Record>,
                     tail: seq<Record>, r: Record, mustSink: bool)
    requires Sealed(frozen, tail, reducePosition)
    ensures Sealed(frozen, Stored(frames, position, |frozen|, tail, r, mustSink), reducePosition)
  {
    hide SinkIndex, MustMove;
  }

  // ---- the shared stack ---------------------------------------------------

  class Stack {
    const core: Core
    const parseStart: int
    var frames: seq<Frame>
    var state: nat
    var reducePosition: int
    var position: int
    var score: int
    var buffer: seq<Record>
    var bufferBase: nat
    var branchBase: nat
    var parent: Chain

    predicate Valid()
      reads this
    {
      && Linked(parent)
      && bufferBase == |Frozen(parent)|
      && Sealed(Frozen(parent), buffer, reducePosition)
      && reducePosition <= position
    }

    /** The stack with its chunks and tail joined into one buffer. */
    ghost function View(): Flat
      reads this
    {
      Flat(frames, state, reducePosition, position, score, Frozen(parent) + buffer, branchBase,
           parseStart)
    }

    constructor (core: Core, state: nat, position: int)
      ensures Valid() && this.core == core
      ensures View() == Flat([], state, position, position, 0, [], 0, position)
    {
      this.core, parseStart := core, position;
      frames, this.state, reducePosition, this.position := [], state, position, position;
      score, buffer, bufferBase, branchBase, parent := 0, [], 0, 0, Root;
    }

    method PushState(state: nat, start: int) returns (ok: bool)
      requires Valid()
      modifies this`frames, this`state
      ensures Valid()
      ensures (if ok then Done(View()) else Failed) == FlatPushState(core, old(View()), state, start)
    {
      if |frames| >= core.maxDepth {
        return false;
      }
      frames := frames + [Frame(this.state, start, bufferBase + |buffer|)];
      this.state := state;
      return true;
    }

    /** Passes the tail records that end after `r`, one at a time. */
    method Sink(r: Record)
      modifies this`buffer
      ensures buffer == Sunk(old(buffer), r)
    {
      hide SinkIndex, Linked, Frozen, Sealed, Sunk, ShrunkSize, Sinking, Looked, CopiedUp;
      ghost var tail := buffer;
      ghost var moved: nat := 0;
      ShrunkStart(r.size);
      var index, size := |buffer|, r.size;
      SinkStarts(buffer, r);
      LookStarts(buffer, r.end);
      buffer := buffer + [r];
      while index > 0 && buffer[index - 1].end > r.end
        invariant 0 <= index <= |tail| && |buffer| == |tail| + 1
        invariant Sinking(buffer, tail, index)
        invariant Looked(tail, index, r.end)
        invariant moved + index == |tail| && size == ShrunkSize(r.size, moved)
      {
        ShrunkNext(r.size, moved, size);
        moved := moved + 1;
        if size > 1 {
          size := size - 1;
        }
        MovedUp(buffer, tail, index);
        LookFurther(tail, index, r.end);
        buffer := CopiedUp(buffer, index);
        index := index - 1;
      }
      Filled(buffer, tail, index, r.(size := size));
      LookDone(tail, index, r.end);
      SunkParts(tail, r, index, moved);
      buffer := buffer[index := r.(size := size)];
    }

    /** Whether a record that the node would pass still has a size. */
    method NeedsMove(end: int) returns (move: bool)
      ensures move == MustMove(buffer, end)
    {
      hide SinkIndex, Looked;
      var offset := |buffer|;
      LookStarts(buffer, end);
      while offset > 0 && buffer[offset - 1].end > end
        invariant 0 <= offset <= |buffer|
        invariant Looked(buffer, offset, end)
        invariant forall i: nat :: offset <= i < |buffer| ==> buffer[i].size == 0
      {
        LookFurther(buffer, offset, end);
        LookedPast(buffer, offset - 1, end);
        offset := offset - 1;
        if buffer[offset].size > 0 {
          return true;
        }
      }
      LookDone(buffer, offset, end);
      return false;
    }

    method StoreNode(r: Record, mustSink: bool) returns (ok: bool)
      requires Valid()
      requires mustSink ==> reducePosition <= r.end
      modifies this`buffer
      ensures Valid()
      ensures (if ok then Done(View()) else Failed) == FlatStore(core, old(View()), r, mustSink)
    {
      if bufferBase + |buffer| >= core.maxRecords {
        return false;
      }
      ghost var frozen, tail := Frozen(parent), buffer;
      StoreTail(r, mustSink);
      StoredAppend(frames, position, reducePosition, frozen, tail, r, mustSink);
      StoredSealed(frames, position, reducePosition, frozen, tail, r, mustSink);
      return true;
    }

    method StoreTail(r: Record, mustSink: bool)
      requires Valid()
      modifies this`buffer
      ensures buffer == Stored(frames, position, bufferBase, old(buffer), r, mustSink)
    {
      hide SinkIndex, MustMove, Sunk, Linked, Frozen, Sealed;
      var top := |buffer|;
      var errorIsAboveStack := |frames| > 0 && frames[|frames| - 1].bufferOffset < bufferBase + top;
      var lastIsError := top >= 1 && buffer[top - 1].id == ERROR;
      if r.id == ERROR {
        if (|frames| == 0 || errorIsAboveStack) && lastIsError {
          if r.start == r.end {
            return;
          }
          if buffer[top - 1].end >= r.start {
            buffer := buffer[top - 1 := buffer[top - 1].(end := r.end)];
            return;
          }
        }
      }
      if !mustSink || position == r.end {
        buffer := buffer + [r];
        return;
      }
      if !lastIsError {
        var move := NeedsMove(r.end);
        if move {
          Sink(r);
          return;
        }
      }
      buffer := buffer + [r];
    }

    /** Records pushed by a shift go on top without sinking. */
    method PushRecord(term: nat, start: int, end: int)
      requires Valid()
      modifies this`buffer
      ensures Valid()
      ensures View() == FlatAppend(core, old(View()), term, start, end)
    {
      hide Linked;
      if term <= core.maxNode {
        assert Frozen(parent) + (buffer + [Record(term, start, end, 1)])
            == Frozen(parent) + buffer + [Record(term, start, end, 1)];
        buffer := buffer + [Record(term, start, end, 1)];
      }
    }

    method GotoShift(state: nat) returns (ok: bool)
      requires Valid()
      modifies this
      ensures Valid()
      ensures (if ok then Done(View()) else Failed) == FlatGotoShift(core, old(View()), state)
    {
      ok := PushState(state, position);
    }

    method Shift(state: nat, term: nat, start: int, end: int) returns (ok: bool)
      requires Valid() && position <= end
      modifies this
      ensures Valid()
      ensures (if ok then Done(View()) else Failed) == FlatShift(core, old(View()), state, term, start, end)
    {
      hide Linked, Frozen;
      position := end;
      var skipped := state in core.skipped;
      if !skipped && (end > start || term <= core.maxNode) {
        reducePosition := end;
      }
      ok := PushState(state, if skipped || start <= reducePosition then start else reducePosition);
      if ok {
        PushRecord(term, start, end);
      }
    }

    method StayShift(term: nat, start: int, end: int)
      requires Valid() && position <= end
      modifies this
      ensures Valid()
      ensures View() == FlatStayShift(core, old(View()), term, start, end)
    {
      hide Linked, Frozen;
      position := end;
      PushRecord(term, start, end);
    }

    method Reduce(red: Reduction) returns (ok: bool)
      requires Valid()
      modifies this
      ensures ok ==> Valid()
      ensures ok ==> Done(View()) == FlatReduce(core, old(View()), red)
      ensures !ok ==> FlatReduce(core, old(View()), red) == Failed
    {
      hide Linked, Frozen, Precedence, FlatReduceEmpty, FlatReduceSome;
      score := score + Precedence(core, red.term);
      if red.depth == 0 {
        ok := ReduceEmpty(red.term);
      } else {
        ok := ReduceSome(red);
      }
    }

    method ReduceEmpty(term: nat) returns (ok: bool)
      requires Valid()
      modifies this
      ensures ok ==> Valid()
      ensures ok ==> Done(View()) == FlatReduceEmpty(core, old(View()), term)
      ensures !ok ==> FlatReduceEmpty(core, old(View()), term) == Failed
    {
      hide Linked, Frozen, FlatStore;
      var isNode := term < core.minRepeat;
      if isNode && reducePosition < position {
        reducePosition := position;
      }
      if (state, term) !in core.gotos {
        return false;
      }
      var at := reducePosition;
      ok := PushState(core.gotos[(state, term)], at);
      if ok && isNode {
        ok := StoreNode(Record(term, at, at, 1), true);
      }
    }

    method ReduceSome(red: Reduction) returns (ok: bool)
      requires Valid() && red.depth > 0
      modifies this
      ensures ok ==> Valid()
      ensures ok ==> Done(View()) == FlatReduceSome(core, old(View()), red)
      ensures !ok ==> FlatReduceSome(core, old(View()), red) == Failed
    {
      hide Linked, Frozen, FlatStore, FlatDropFrames;
      var isNode := red.term < core.minRepeat;
      if ConsumedFrames(red) > |frames| {
        return false;
      }
      var base := |frames| - ConsumedFrames(red);
      var start := if base == 0 then parseStart else frames[base - 1].start;
      if isNode && start == reducePosition && reducePosition < position {
        reducePosition := position;
      }
      var first := if base == 0 then 0 else frames[base - 1].bufferOffset;
      var bufferEnd := bufferBase + |buffer|;
      if first > bufferEnd {
        return false;
      }
      if isNode || red.repeats {
        var end := if state in core.skipped then position else reducePosition;
        ok := StoreNode(Record(red.term, start, end, bufferEnd - first + 1), true);
        if !ok {
          return;
        }
      }
      ok := DropFrames(base, red);
    }

    method DropFrames(base: nat, red: Reduction) returns (ok: bool)
      requires Valid() && base <= |frames|
      modifies this`frames, this`state
      ensures ok ==> Valid()
      ensures ok ==> Done(View()) == FlatDropFrames(core, old(View()), base, red)
      ensures !ok ==> FlatDropFrames(core, old(View()), base, red) == Failed
    {
      hide Linked, Frozen;
      if red.stays {
        if base >= |frames| {
          return false;
        }
        state := frames[base].state;
      } else {
        if base == 0 || (frames[base - 1].state, red.term) !in core.gotos {
          return false;
        }
        state := core.gotos[(frames[base - 1].state, red.term)];
      }
      frames := frames[..base];
      return true;
    }

    method StoreError() returns (ok: bool)
      requires Valid()
      modifies this`buffer
      ensures Valid()
      ensures (if ok then Done(View()) else Failed) == FlatStoreError(core, old(View()))
    {
      hide Linked, Frozen, FlatStore;
      ok := StoreNode(Record(ERROR, position, position, 1), true);
    }

    method RecoverByDelete(term: nat, end: int) returns (ok: bool)
      requires Valid() && position <= end
      modifies this
      ensures ok ==> Valid()
      ensures ok ==> Done(View()) == FlatDelete(core, old(View()), term, end)
      ensures !ok ==> FlatDelete(core, old(View()), term, end) == Failed
    {
      hide Linked, Frozen, FlatStore;
      var isNode := term <= core.maxNode;
      if isNode {
        ok := StoreNode(Record(term, position, end, 1), false);
        if !ok {
          return;
        }
      }
      ok := StoreNode(Record(ERROR, position, end, if isNode then 2 else 1), false);
      if !ok {
        return;
      }
      position, reducePosition := end, end;
      score := score - DELETE_PENALTY;
    }

    /** One branch of recovery by insertion, after it was split off. */
    method RecoverByInsert(state: nat) returns (ok: bool)
      requires Valid()
      modifies this
      ensures ok ==> Valid()
      ensures ok ==> Done(View()) == FlatInsert(core, old(View()), state)
      ensures !ok ==> FlatInsert(core, old(View()), state) == Failed
    {
      hide Linked, Frozen, FlatStore;
      ok := PushState(state, position);
      if !ok {
        return;
      }
      ok := StoreError();
      if !ok {
        return;
      }
      reducePosition := position;
      score := score - INSERT_PENALTY;
    }

    method ForceReduce(red: Reduction, valid: bool) returns (ok: bool)
      requires Valid()
      modifies this
      ensures ok ==> Valid()
      ensures ok ==> Done(View()) == FlatForceReduce(core, old(View()), red, valid)
      ensures !ok ==> FlatForceReduce(core, old(View()), red, valid) == Failed
    {
      hide Linked, Frozen, FlatStore, FlatReduce;
      if !valid {
        ok := StoreError();
        if !ok {
          return;
        }
        score := score - REDUCE_PENALTY;
      }
      reducePosition := position;
      ok := Reduce(red);
    }

    method Restart() returns (ok: bool)
      requires Valid() && |frames| > 0
      modifies this
      ensures ok ==> Valid()
      ensures ok ==> Done(View()) == FlatRestart(core, old(View()))
      ensures !ok ==> FlatRestart(core, old(View())) == Failed
    {
      hide Linked, Frozen, FlatStore;
      ok := StoreError();
      if ok {
        state, frames := frames[0].state, [];
      }
    }

    constructor Branch(origin: Stack)
      requires origin.Valid()
      ensures Valid() && core == origin.core && View() == origin.View()
    {
      core, parseStart := origin.core, origin.parseStart;
      frames, state := origin.frames, origin.state;
      reducePosition, position, score := origin.reducePosition, origin.position, origin.score;
      buffer, bufferBase, branchBase := origin.buffer, origin.bufferBase, origin.branchBase;
      parent := origin.parent;
    }

    /** The first `offset` records of the tail may be frozen: the last of them
        ends by the reduce position and is not an error on top. */
    predicate Freezable(offset: nat)
      reads this
    {
      && offset <= |buffer|
      && (offset > 0 ==> buffer[offset - 1].end <= reducePosition)
      && (offset == |buffer| > 0 ==> buffer[offset - 1].id != ERROR)
    }

    /** How much of the tail is frozen: as much as may be. */
    method FreezePoint() returns (offset: nat)
      ensures Freezable(offset)
      ensures forall k: nat :: offset < k ==> !Freezable(k)
    {
      var k := |buffer|;
      if k >= 1 && buffer[k - 1].id == ERROR {
        k := k - 1;
      }
      while k > 0 && buffer[k - 1].end > reducePosition
        invariant 0 <= k <= |buffer|
        invariant k == |buffer| > 0 ==> buffer[k - 1].id != ERROR
        invariant forall j: nat :: k < j ==> !Freezable(j)
      {
        k := k - 1;
      }
      return k;
    }

    /** Moves the frozen part of the tail into a chunk shared with a new
        branch; both read as this stack did. */
    method Split() returns (branch: Stack)
      requires Valid()
      modifies this
      ensures Valid() && branch.Valid() && fresh(branch) && branch.core == core
      ensures View() == old(View()).(branchBase := |old(View()).records|)
      ensures branch.View() == View()
    {
      var offset := FreezePoint();
      if offset > 0 {
        assert Frozen(parent) + buffer[..offset] + buffer[offset..] == Frozen(parent) + buffer;
        parent := Chunk(bufferBase, buffer[..offset], parent);
        bufferBase := bufferBase + offset;
        buffer := buffer[offset..];
      }
      branchBase := bufferBase + |buffer|;
      branch := new Stack.Branch(this);
    }
  }

  lemma ShrunkStart(size: nat)
    ensures ShrunkSize(size, 0) == size
  {}

  lemma ShrunkNext(size: nat, moved: nat, shrunk: nat)
    requires shrunk == ShrunkSize(size, moved)
    ensures shrunk > 1 ==> ShrunkSize(size, moved + 1) == shrunk - 1
    ensures shrunk <= 1 ==> ShrunkSize(size, moved + 1) == shrunk
  {}

  lemma SunkParts(tail: seq<Record>, r: Record, index: nat, moved: nat)
    requires index == SinkIndex(tail, r.end) && moved + index == |tail|
    ensures Sunk(tail, r) == tail[..index] + [r.(size := ShrunkSize(r.size, moved))] + tail[index..]
  {
    hide SinkIndex, ShrunkSize;
  }

  /** The records from `index` on have moved up by one, over a gap. */
  ghost predicate Sinking(buffer: seq<Record>, tail: seq<Record>, index: nat) {
    && |buffer| == |tail| + 1 && index <= |tail|
    && buffer[..index] == tail[..index] && buffer[index + 1..] == tail[index..]
  }

  /** The record below the gap, copied into it. */
  function CopiedUp(buffer: seq<Record>, index: nat): (moved: seq<Record>)
    requires 0 < index < |buffer|
    ensures |moved| == |buffer|
  {
    buffer[index := buffer[index - 1]]
  }

  lemma SinkStarts(tail: seq<Record>, r: Record)
    ensures Sinking(tail + [r], tail, |tail|) && tail[..|tail|] == tail
  {}

  lemma Filled(buffer: seq<Record>, tail: seq<Record>, index: nat, r: Record)
    requires Sinking(buffer, tail, index)
    ensures index < |buffer| && buffer[index := r] == tail[..index] + [r] + tail[index..]
    ensures index > 0 ==> buffer[index - 1] == tail[index - 1]
  {
    assert index > 0 ==> buffer[index - 1] == buffer[..index][index - 1];
    assert buffer[index := r] == buffer[..index] + [r] + buffer[index + 1..];
  }

  /** Moving one record up, into the gap above it. */
  lemma MovedUp(buffer: seq<Record>, tail: seq<Record>, index: nat)
    requires 0 < index <= |tail| && Sinking(buffer, tail, index)
    ensures buffer[index - 1] == tail[index - 1]
    ensures Sinking(CopiedUp(buffer, index), tail, index - 1)
  {
    assert buffer[index - 1] == buffer[..index][index - 1];
    var moved := buffer[index := buffer[index - 1]];
    assert moved[..index - 1] == buffer[..index][..index - 1] == tail[..index - 1];
    assert moved[index..] == [tail[index - 1]] + buffer[index + 1..];
    assert tail[index - 1..] == [tail[index - 1]] + tail[index..];
  }

  /** A node that ends at `end` passes all records from `index` on. */
  ghost predicate Looked(tail: seq<Record>, index: nat, end: int) {
    index <= |tail| && SinkIndex(tail[..index], end) == SinkIndex(tail, end)
  }

  lemma LookStarts(tail: seq<Record>, end: int)
    ensures Looked(tail, |tail|, end)
  {
    assert tail[..|tail|] == tail;
  }

  lemma LookFurther(tail: seq<Record>, index: nat, end: int)
    requires 0 < index <= |tail| && tail[index - 1].end > end && Looked(tail, index, end)
    ensures Looked(tail, index - 1, end)
  {
    assert tail[..index][..index - 1] == tail[..index - 1];
  }

  lemma LookedPast(tail: seq<Record>, index: nat, end: int)
    requires Looked(tail, index, end)
    ensures SinkIndex(tail, end) <= index
  {}

  lemma LookDone(tail: seq<Record>, index: nat, end: int)
    requires Looked(tail, index, end) && (index > 0 ==> tail[index - 1].end <= end)
    ensures SinkIndex(tail, end) == index
  {}

  // ---- walking backwards --------------------------------------------------

  /** The backward cursor that the tree builder reads a stack through. */
  class StackBufferCursor {
    var buffer: seq<Record>
    var base: nat
    var index: nat
    var position: nat
    var parent: Chain

    predicate Valid()
      reads this
    {
      && Linked(parent)
      && base == |Frozen(parent)|
      && index <= |buffer|
      && position == base + index
      && (index == 0 ==> parent == Root)
    }

    /** The records not yet passed. */
    ghost function Remaining(): seq<Record>
      requires Valid()
      reads this
    {
      Frozen(parent) + buffer[..index]
    }

    constructor (stack: Stack)
      requires stack.Valid()
      ensures Valid()
      ensures Remaining() == stack.View().records && position == |Remaining()|
    {
      buffer, base, index := stack.buffer, stack.bufferBase, |stack.buffer|;
      position := stack.bufferBase + |stack.buffer|;
      parent := stack.parent;
      new;
      assert buffer[..index] == buffer;
      MoveToParent();
    }

    method MoveToParent()
      requires Linked(parent) && base == |Frozen(parent)|
      requires index <= |buffer| && position == base + index
      modifies this
      ensures Valid() && position == old(position)
      ensures Remaining() == old(Frozen(parent) + buffer[..index])
    {
      if index != 0 || parent == Root {
        return;
      }
      index := base - parent.base;
      buffer := parent.data;
      base := parent.base;
      parent := parent.parent;
      assert buffer[..index] == buffer;
    }

    /** The record in front of the cursor. */
    function Top(): (r: Record)
      requires Valid() && position > 0
      reads this
      ensures r == Remaining()[position - 1]
    {
      buffer[index - 1]
    }

    method Next()
      requires Valid() && position > 0
      modifies this
      ensures Valid() && position == old(position) - 1
      ensures Remaining() == old(Remaining())[..position]
    {
      assert (Frozen(parent) + buffer[..index])[..position - 1] == Frozen(parent) + buffer[..index - 1];
      index := index - 1;
      position := position - 1;
      MoveToParent();
    }
  }

  // ---- whole runs ---------------------------------------------------------

  datatype Op =
    | OnGotoShift(state: nat)
    | OnShift(state: nat, term: nat, start: int, end: int)
    | OnStayShift(term: nat, start: int, end: int)
    | OnReduce(red: Reduction)
    | OnDelete(term: nat, end: int)
    | OnInsert(state: nat)
    | OnForceReduce(red: Reduction, valid: bool)
    | OnRestart
    | OnSplit

  /** What the scheduler may ask of a stack: it never moves a stack back in the
      input, and restarts only a stack that has a frame. */
  predicate Enabled(s: Flat, op: Op) {
    match op
    case OnShift(_, _, _, end) => s.position <= end
    case OnStayShift(_, _, end) => s.position <= end
    case OnDelete(_, end) => s.position <= end
    case OnRestart => |s.frames| > 0
    case _ => true
  }

  method CanApply(stack: Stack, op: Op) returns (can: bool)
    ensures can == Enabled(stack.View(), op)
  {
    match op
    case OnShift(_, _, _, end) => can := stack.position <= end;
    case OnStayShift(_, _, end) => can := stack.position <= end;
    case OnDelete(_, end) => can := stack.position <= end;
    case OnRestart => can := |stack.frames| > 0;
    case _ => can := true;
  }

  ghost function FlatApply(core: Core, s: Flat, op: Op): Outcome
    requires Enabled(s, op)
  {
    match op
    case OnGotoShift(state) => FlatGotoShift(core, s, state)
    case OnShift(state, term, start, end) => FlatShift(core, s, state, term, start, end)
    case OnStayShift(term, start, end) => Done(FlatStayShift(core, s, term, start, end))
    case OnReduce(red) => FlatReduce(core, s, red)
    case OnDelete(term, end) => FlatDelete(core, s, term, end)
    case OnInsert(state) => FlatInsert(core, s, state)
    case OnForceReduce(red, valid) => FlatForceReduce(core, s, red, valid)
    case OnRestart => FlatRestart(core, s)
    case OnSplit => Done(s.(branchBase := |s.records|))
  }

  datatype Run = Reached(stacks: seq<Flat>) | Stopped

  /** One step of a run of independent flat stacks: one of them moves, and a
      split adds a copy of it; no other stack takes part. */
  ghost function FlatStep(core: Core, stacks: seq<Flat>, who: nat, op: Op): Run {
    if who >= |stacks| || !Enabled(stacks[who], op) then Stopped
    else
      match FlatApply(core, stacks[who], op)
      case Failed => Stopped
      case Done(s) =>
        var moved := stacks[who := s];
        Reached(if op == OnSplit then moved + [s] else moved)
  }

  ghost function FlatRun(core: Core, state: nat, position: int, script: seq<(nat, Op)>): Run {
    if script == [] then Reached([Flat([], state, position, position, 0, [], 0, position)])
    else
      var last := script[|script| - 1];
      match FlatRun(core, state, position, script[..|script| - 1])
      case Stopped => Stopped
      case Reached(stacks) => FlatStep(core, stacks, last.0, last.1)
  }

  /** Applies one step to a stack; a split also gives the new branch. */
  method ApplyOp(stack: Stack, op: Op) returns (ok: bool, branch: Stack?)
    requires stack.Valid() && Enabled(stack.View(), op)
    modifies stack
    ensures ok ==> stack.Valid()
    ensures ok ==> Done(stack.View()) == FlatApply(stack.core, old(stack.View()), op)
    ensures !ok ==> FlatApply(stack.core, old(stack.View()), op) == Failed
    ensures ok && op == OnSplit ==>
      branch != null && fresh(branch) && branch.Valid() && branch.core == stack.core &&
      branch.View() == stack.View()
  {
    hide FlatGotoShift, FlatShift, FlatStayShift, FlatReduce, FlatDelete, FlatInsert,
      FlatForceReduce, FlatRestart;
    ok, branch := true, null;
    match op
    case OnGotoShift(state) => ok := stack.GotoShift(state);
    case OnShift(state, term, start, end) => ok := stack.Shift(state, term, start, end);
    case OnStayShift(term, start, end) => stack.StayShift(term, start, end);
    case OnReduce(red) => ok := stack.Reduce(red);
    case OnDelete(term, end) => ok := stack.RecoverByDelete(term, end);
    case OnInsert(state) => ok := stack.RecoverByInsert(state);
    case OnForceReduce(red, valid) => ok := stack.ForceReduce(red, valid);
    case OnRestart => ok := stack.Restart();
    case OnSplit => branch := stack.Split();
  }

  /** The stacks are distinct objects that read as the flat stacks do. */
  ghost predicate Mirrors(stacks: seq<Stack>, flats: seq<Flat>, core: Core)
    reads stacks
  {
    && |stacks| == |flats|
    && (forall i: nat, j: nat :: i < j < |stacks| ==> stacks[i] != stacks[j])
    && forall i: nat :: i < |stacks| ==>
         stacks[i].Valid() && stacks[i].core == core && stacks[i].View() == flats[i]
  }

  /** One step on one branch leaves its siblings as they were. */
  method StepBranches(core: Core, stacks: seq<Stack>, ghost flats: seq<Flat>, who: nat, op: Op)
    returns (ok: bool, next: seq<Stack>)
    requires Mirrors(stacks, flats, core)
    modifies stacks
    ensures !ok ==> FlatStep(core, flats, who, op) == Stopped
    ensures ok ==> FlatStep(core, flats, who, op).Reached?
    ensures ok ==> Mirrors(next, FlatStep(core, flats, who, op).stacks, core)
    ensures ok ==> |next| >= |stacks| && next[..|stacks|] == stacks
    ensures ok ==> forall i: nat :: |stacks| <= i < |next| ==> fresh(next[i])
  {
    hide FlatApply, Enabled, Stack.View, Stack.Valid;
    ok, next := false, [];
    if who >= |stacks| {
      return;
    }
    var can := CanApply(stacks[who], op);
    if !can {
      return;
    }
    var done, branch := ApplyOp(stacks[who], op);
    if !done {
      return;
    }
    ok, next := true, if op == OnSplit then stacks + [branch] else stacks;
  }

  /** Runs any interleaving of operations over any number of branches. Sharing
      is invisible: every branch reads as if its buffer had always been its
      own. */
  method RunBranches(core: Core, state: nat, position: int, script: seq<(nat, Op)>)
    returns (ok: bool, stacks: seq<Stack>)
    ensures !ok ==> FlatRun(core, state, position, script) == Stopped
    ensures ok ==> FlatRun(core, state, position, script).Reached?
    ensures ok ==> Mirrors(stacks, FlatRun(core, state, position, script).stacks, core)
  {
    hide FlatStep;
    var first := new Stack(core, state, position);
    stacks := [first];
    var k := 0;
    while k < |script|
      invariant k <= |script|
      invariant forall i: nat :: i < |stacks| ==> fresh(stacks[i])
      invariant FlatRun(core, state, position, script[..k]).Reached?
      invariant Mirrors(stacks, FlatRun(core, state, position, script[..k]).stacks, core)
    {
      ghost var flats := FlatRun(core, state, position, script[..k]).stacks;
      assert script[..k + 1][..k] == script[..k];
      var done, next := StepBranches(core, stacks, flats, script[k].0, script[k].1);
      if !done {
        StopsEarly(core, state, position, script, k + 1);
        return false, [];
      }
      forall i: nat | i < |next| ensures fresh(next[i]) {
        if i < |stacks| { assert next[..|stacks|][i] == stacks[i]; }
      }
      stacks := next;
      k := k + 1;
    }
    assert script[..k] == script;
    return true, stacks;
  }

  lemma {:induction false} StopsEarly(core: Core, state: nat, position: int, script: seq<(nat, Op)>, k: nat)
    requires k <= |script|
    requires FlatRun(core, state, position, script[..k]) == Stopped
    ensures FlatRun(core, state, position, script) == Stopped
    decreases |script| - k
  {
    if k == |script| {
      assert script[..k] == script;
    } else {
      assert script[..k + 1][..k] == script[..k];
      StopsEarly(core, state, position, script, k + 1);
    }
  }
}
