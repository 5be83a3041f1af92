/** The records of a GLR stack as the trees they stand for: a reduction puts one
    node over the roots since its base frame, and over whole runs of the parser
    the records of every branch stay a forest that frames cut between roots. */
module StackForest {
  import opened PostfixForest
  import opened StackBuffer
  import opened ForestCuts

  // ---- stacks over a forest -----------------------------------------------

  /** Frames cut the forest between roots, in order. */
  ghost predicate Framed(frames: seq<Frame>, f: Forest) {
    && (forall i :: 0 <= i < |frames| ==> Boundary(f, frames[i].bufferOffset))
    && (forall i, j :: 0 <= i < j < |frames| ==> frames[i].bufferOffset <= frames[j].bufferOffset)
  }

  ghost predicate Rooted(s: Flat, f: Forest) {
    s.records == Post(f) && Framed(s.frames, f)
  }

  ghost predicate Grounded(s: Flat) {
    exists f: Forest :: Rooted(s, f)
  }

  /** Where a node that ends at `end` goes: on top if it ends where the stack is
      or an error is on top, else below the records that end later. */
  ghost function Place(position: int, records: seq<Record>, end: int): nat {
    if position == end || (records != [] && records[|records| - 1].id == ERROR) then |records|
    else SinkIndex(records, end)
  }

  lemma {:induction false} PostSizes(f: Forest)
    ensures forall r <- Post(f) :: r.size > 0
  {
    hide Count;
    if f.Snoc? {
      PostSizes(f.front);
      PostSizes(f.kids);
    }
  }

  lemma MovesIffBelow(f: Forest, end: int)
    ensures MustMove(Post(f), end) <==> SinkIndex(Post(f), end) < |Post(f)|
  {
    hide Post, SinkIndex;
    PostSizes(f);
    if SinkIndex(Post(f), end) < |Post(f)| { assert Post(f)[SinkIndex(Post(f), end)].size > 0; }
  }

  /** A node can be put in at `k`, and what is left of the frames still cuts
      between roots then. */
  ghost predicate CutsStay(frames: seq<Frame>, f: Forest, first: nat, k: nat) {
    && CanPut(f, first, k)
    && forall i :: 0 <= i < |frames| && frames[i].bufferOffset > k ==> Boundary(f, frames[i].bufferOffset - 1)
  }

  ghost predicate UpTo(frames: seq<Frame>, first: nat) {
    forall i :: 0 <= i < |frames| ==> frames[i].bufferOffset <= first
  }

  lemma PutFramed(frames: seq<Frame>, f: Forest, first: nat, k: nat, h: Forest)
    requires Framed(frames, f) && UpTo(frames, first) && CanPut(f, first, k) && CutsBelow(f, first, k, h)
    ensures Framed(frames, h) <==> CutsStay(frames, f, first, k)
  {
    hide Boundary, CanPut;
  }

  // ---- errors that merge --------------------------------------------------

  /** The last tree with another end: the same cuts, one record changed. */
  lemma EndChanged(f: Forest, end: int)
    requires f.Snoc?
    ensures |Post(f)| > 0 && var n := |Post(f)|; Post(f.(end := end)) == Post(f)[n - 1 := Post(f)[n - 1].(end := end)]
    ensures forall n: nat :: Boundary(f.(end := end), n) <==> Boundary(f, n)
  {
    hide Count;
    var g := f.(end := end);
    assert Count(g) == Count(f) by { SameCount(f, g); }
  }

  lemma SameCount(f: Forest, g: Forest)
    requires f.Snoc? && g.Snoc? && f.front == g.front && f.kids == g.kids
    ensures Count(f) == Count(g)
  {}

  lemma NonEmptyPost(f: Forest)
    ensures Post(f) != [] <==> f.Snoc?
  {}

  /** An error on top takes a new one in. */
  predicate Merges(frames: seq<Frame>, tail: seq<Record>, r: Record) {
    && r.id == ERROR && ErrorIsOnTop(frames, 0, tail)
    && (r.start == r.end || tail[|tail| - 1].end >= r.start)
  }

  lemma MergedForest(frames: seq<Frame>, position: int, f: Forest, r: Record, mustSink: bool) returns (g: Forest)
    requires Merges(frames, Post(f), r)
    ensures Post(g) == Stored(frames, position, 0, Post(f), r, mustSink)
    ensures forall kept: seq<Frame> :: Framed(kept, f) ==> Framed(kept, g)
  {
    hide Post, Boundary;
    NonEmptyPost(f);
    if r.start == r.end {
      g := f;
    } else {
      EndChanged(f, r.end);
      g := f.(end := r.end);
    }
  }

  /** Storing a record: the forest that results, and its cuts. */
  lemma StoredForest(frames: seq<Frame>, kept: seq<Frame>, position: int, f: Forest, first: nat, r: Record, mustSink: bool)
    returns (g: Forest)
    requires Boundary(f, first) && first <= Count(f) && r.size == Count(f) - first + 1
    requires Framed(kept, f) && UpTo(kept, first)
    requires mustSink && !Merges(frames, Post(f), r) ==> CutsStay(kept, f, first, Place(position, Post(f), r.end))
    ensures Post(g) == Stored(frames, position, 0, Post(f), r, mustSink)
    ensures Framed(kept, g)
  {
    hide Post, Count, Boundary, Covered, SinkIndex, MustMove, Place, Stored, Framed, UpTo, CutsStay, CanPut, CutsBelow;
    TopBoundary(f);
    if Merges(frames, Post(f), r) {
      g := MergedForest(frames, position, f, r, mustSink);
    } else {
      var k := if mustSink then Place(position, Post(f), r.end) else Count(f);
      NotMerged(frames, position, f, first, r, mustSink);
      if !mustSink { TopStays(kept, f, first); }
      assert CanPut(f, first, k) by { CutsPut(kept, f, first, k); }
      g := PutIn(f, first, k, r.id, r.start, r.end);
      PutFramed(kept, f, first, k, g);
    }
  }

  lemma CutsPut(kept: seq<Frame>, f: Forest, first: nat, k: nat)
    requires CutsStay(kept, f, first, k)
    ensures CanPut(f, first, k)
  {}

  lemma TopStays(kept: seq<Frame>, f: Forest, first: nat)
    requires UpTo(kept, first) && first <= Count(f)
    ensures CutsStay(kept, f, first, Count(f))
  {}

  /** A node that is not taken in is stored at its place, counting what it
      covers. */
  lemma NotMerged(frames: seq<Frame>, position: int, f: Forest, first: nat, r: Record, mustSink: bool)
    requires !Merges(frames, Post(f), r) && first <= |Post(f)| && r.size == |Post(f)| - first + 1
    ensures var k := if mustSink then Place(position, Post(f), r.end) else |Post(f)|;
            && k <= |Post(f)|
            && Stored(frames, position, 0, Post(f), r, mustSink)
               == Post(f)[..k] + [Record(r.id, r.start, r.end, if first <= k then k - first + 1 else 1)] + Post(f)[k..]
  {
    hide Post, SinkIndex, MustMove, ErrorIsOnTop;
    MovesIffBelow(f, r.end);
    var n := |Post(f)|;
    assert Post(f)[..n] == Post(f) && Post(f)[n..] == [];
    assert Post(f) + [r] + [] == Post(f) + [r];
  }

  // ---- reductions ---------------------------------------------------------

  /** How many frames a reduction takes off. */
  function Popped(red: Reduction): int {
    if red.stays then red.depth + 1 else red.depth - 1
  }

  /** The frame a reduction goes back to: where its node starts. */
  function StartOf(s: Flat, red: Reduction): int
    requires Popped(red) <= |s.frames| && red.depth > 0
  {
    var base := |s.frames| - Popped(red);
    if base == 0 then s.parseStart else s.frames[base - 1].start
  }

  /** How many records there were at that frame. */
  function FirstOf(s: Flat, red: Reduction): nat
    requires Popped(red) <= |s.frames| && red.depth > 0
  {
    var base := |s.frames| - Popped(red);
    if base == 0 then 0 else s.frames[base - 1].bufferOffset
  }

  /** An empty node moves up to the position of the stack. */
  function ReducedTo(core: Core, s: Flat, red: Reduction): int
    requires Popped(red) <= |s.frames| && red.depth > 0
  {
    if red.term < core.minRepeat && StartOf(s, red) == s.reducePosition < s.position then s.position
    else s.reducePosition
  }

  function EndOf(core: Core, s: Flat, red: Reduction): int
    requires Popped(red) <= |s.frames| && red.depth > 0
  {
    if s.state in core.skipped then s.position else ReducedTo(core, s, red)
  }

  predicate StoresNode(core: Core, red: Reduction) {
    red.term < core.minRepeat || red.repeats
  }

  /** A reduction of a grounded stack: the frames and the state it leaves, and
      its node over exactly the roots since its base frame, or, where it ends
      before later records, over those below them. */
  lemma ReduceBuilds(core: Core, s: Flat, f: Forest, red: Reduction, t: Flat)
    requires Rooted(s, f) && red.depth > 0 && FlatReduce(core, s, red) == Done(t)
    ensures Popped(red) <= |s.frames| && Boundary(f, FirstOf(s, red))
    ensures t.frames == s.frames[..|s.frames| - Popped(red)]
    ensures if red.stays then t.state == s.frames[|t.frames|].state
            else t.frames != [] && (t.frames[|t.frames| - 1].state, red.term) in core.gotos
                 && t.state == core.gotos[(t.frames[|t.frames| - 1].state, red.term)]
    ensures t.position == s.position && t.reducePosition == ReducedTo(core, s, red)
    ensures t.score == s.score + Precedence(core, red.term)
    ensures !StoresNode(core, red) ==> t.records == s.records
    ensures StoresNode(core, red) && red.term != ERROR ==>
              var k := Place(s.position, s.records, EndOf(core, s, red));
              Boundary(f, k) ==>
                t.records == Post(Covered(f, FirstOf(s, red), k, red.term, StartOf(s, red), EndOf(core, s, red)))
  {
    hide Post, Boundary, Covered, Stored, FlatReduce, Place, Precedence, Framed, StartOf, FirstOf, ReducedTo, EndOf;
    FirstBoundary(core, s, f, red, t);
    ReduceSteps(core, s, f, red, t);
    if StoresNode(core, red) && red.term != ERROR {
      NodeCovers(s, f, FirstOf(s, red), red.term, StartOf(s, red), EndOf(core, s, red));
    }
  }

  lemma NodeCovers(s: Flat, f: Forest, first: nat, id: nat, start: int, end: int)
    requires s.records == Post(f) && Boundary(f, first) && id != ERROR
    ensures first <= |Post(f)|
    ensures var k := Place(s.position, s.records, end);
            Boundary(f, k) ==>
              Stored(s.frames, s.position, 0, Post(f), Record(id, start, end, |Post(f)| - first + 1), true)
              == Post(Covered(f, first, k, id, start, end))
  {
    hide Post, Boundary, Covered, Stored, Place;
    var k := Place(s.position, s.records, end);
    TopBoundary(f);
    CutForest(f, first);
    NodeStored(s, f, first, Record(id, start, end, |Post(f)| - first + 1));
    if Boundary(f, k) {
      CoveredRecords(f, first, k, id, start, end);
    }
  }

  lemma NodeStored(s: Flat, f: Forest, first: nat, r: Record)
    requires s.records == Post(f) && first <= |Post(f)| && r.size == |Post(f)| - first + 1 && r.id != ERROR
    ensures var k := Place(s.position, Post(f), r.end);
            && k <= |Post(f)|
            && Stored(s.frames, s.position, 0, Post(f), r, true)
               == Post(f)[..k] + [Record(r.id, r.start, r.end, if first <= k then k - first + 1 else 1)] + Post(f)[k..]
  {
    hide Post, Place, Stored;
    NotMerged(s.frames, s.position, f, first, r, true);
  }

  lemma FirstBoundary(core: Core, s: Flat, f: Forest, red: Reduction, t: Flat)
    requires Rooted(s, f) && red.depth > 0 && FlatReduce(core, s, red) == Done(t)
    ensures Popped(red) <= |s.frames| && Boundary(f, FirstOf(s, red))
    ensures UpTo(s.frames[..|s.frames| - Popped(red)], FirstOf(s, red))
    ensures Framed(s.frames[..|s.frames| - Popped(red)], f)
  {
    hide Post, Boundary, FlatStore, FlatDropFrames, Precedence;
    ZeroBoundary(f);
  }

  /** The parts of a reduction. */
  lemma ReduceSteps(core: Core, s: Flat, f: Forest, red: Reduction, t: Flat)
    requires s.records == Post(f) && red.depth > 0 && FlatReduce(core, s, red) == Done(t)
    ensures Popped(red) <= |s.frames|
    ensures t.frames == s.frames[..|s.frames| - Popped(red)]
    ensures if red.stays then |t.frames| < |s.frames| && t.state == s.frames[|t.frames|].state
            else t.frames != [] && (t.frames[|t.frames| - 1].state, red.term) in core.gotos
                 && t.state == core.gotos[(t.frames[|t.frames| - 1].state, red.term)]
    ensures t.position == s.position && t.reducePosition == ReducedTo(core, s, red)
    ensures t.score == s.score + Precedence(core, red.term)
    ensures t.records
         == if StoresNode(core, red) then
              Stored(s.frames, s.position, 0, Post(f),
                     Record(red.term, StartOf(s, red), EndOf(core, s, red), |Post(f)| - FirstOf(s, red) + 1), true)
            else s.records
  {
    hide Post, Stored, Precedence;
  }

  /** Where nothing ends later, the node goes over all roots since the frame. */
  lemma OnTop(position: int, f: Forest, first: nat, id: nat, start: int, end: int)
    requires Boundary(f, first) && first <= Count(f)
    requires position == end || Post(f) == [] || Post(f)[|Post(f)| - 1].id == ERROR
             || Post(f)[|Post(f)| - 1].end <= end
    ensures Place(position, Post(f), end) == Count(f) && Boundary(f, Count(f))
    ensures Covered(f, first, Count(f), id, start, end) == Snoc(Before(f, first), id, start, end, Since(f, first))
  {
    hide Post, Before;
    TopBoundary(f);
    assert Before(f, Count(f)) == f by { WholeBefore(f); }
  }

  lemma WholeBefore(f: Forest)
    ensures Boundary(f, Count(f)) && Before(f, Count(f)) == f && Since(f, Count(f)) == Empty
  {}

  // ---- the other operations -----------------------------------------------

  /** A shift opens a frame at the current end and adds a leaf. A skipped token
      leaves the reduce position behind, and so does an empty one without node. */
  lemma ShiftBuilds(core: Core, s: Flat, f: Forest, state: nat, term: nat, start: int, end: int, t: Flat)
    requires Rooted(s, f) && FlatShift(core, s, state, term, start, end) == Done(t)
    ensures Post(if term <= core.maxNode then Snoc(f, term, start, end, Empty) else f) == t.records
    ensures t.reducePosition == if state !in core.skipped && (term <= core.maxNode || start < end) then end else s.reducePosition
    ensures |t.frames| == |s.frames| + 1 && t.frames[..|s.frames|] == s.frames && t.state == state && t.position == end
    ensures var frame := t.frames[|s.frames|];
            && frame.state == s.state && frame.bufferOffset == Count(f)
            && frame.start <= start && (frame.start == start || frame.start == t.reducePosition)
            && (frame.start <= t.reducePosition || state in core.skipped)
    ensures t.score == s.score
  {
    hide Post, Count, Boundary;
    LeafRecords(f, term, start, end);
    PostLength(f);
  }

  /** A token that stays in its state only adds a leaf. */
  lemma StayBuilds(core: Core, s: Flat, f: Forest, term: nat, start: int, end: int)
    requires Rooted(s, f)
    ensures var t := FlatStayShift(core, s, term, start, end);
            && t == s.(position := end, records := t.records)
            && t.records == Post(if term <= core.maxNode then Snoc(f, term, start, end, Empty) else f)
  {
    hide Post, Count, Boundary;
    LeafRecords(f, term, start, end);
  }

  /** An error at the position of the stack is an empty leaf, unless there is an
      error on top already. */
  lemma ErrorBuilds(core: Core, s: Flat, f: Forest, t: Flat)
    requires Rooted(s, f) && FlatStoreError(core, s) == Done(t)
    ensures t == s.(records := t.records)
    ensures t.records == Post(if ErrorIsOnTop(s.frames, 0, s.records) then f
                              else Snoc(f, ERROR, s.position, s.position, Empty))
  {
    hide Post, Count, Boundary, ErrorIsOnTop;
    LeafRecords(f, ERROR, s.position, s.position);
  }

  /** Inserting opens a frame and then adds the error. */
  lemma InsertBuilds(core: Core, s: Flat, f: Forest, state: nat, t: Flat)
    requires Rooted(s, f) && FlatInsert(core, s, state) == Done(t)
    ensures |t.frames| == |s.frames| + 1 && t.frames[..|s.frames|] == s.frames && t.state == state
    ensures t.frames[|s.frames|] == Frame(s.state, s.position, Count(f))
    ensures t.records == Post(Snoc(f, ERROR, s.position, s.position, Empty))
    ensures t.position == t.reducePosition == s.position && t.score == s.score - INSERT_PENALTY
  {
    hide Post, Count, Boundary;
    LeafRecords(f, ERROR, s.position, s.position);
    PostLength(f);
  }

  /** A restart gives up all frames for the state of the first. */
  lemma RestartBuilds(core: Core, s: Flat, f: Forest, t: Flat)
    requires Rooted(s, f) && |s.frames| > 0 && FlatRestart(core, s) == Done(t)
    ensures t.frames == [] && t.state == s.frames[0].state && t.position == s.position
    ensures t.records == Post(if ErrorIsOnTop(s.frames, 0, s.records) then f
                              else Snoc(f, ERROR, s.position, s.position, Empty))
  {
    hide Post, Count, Boundary, ErrorIsOnTop;
    ErrorBuilds(core, s, f, FlatStoreError(core, s).stack);
  }

  /** A forced reduction is a reduction at the position of the stack; one that
      the state does not have costs a penalty and adds an error first. */
  lemma ForceBuilds(core: Core, s: Flat, f: Forest, red: Reduction, valid: bool, t: Flat)
    requires Rooted(s, f) && FlatForceReduce(core, s, red, valid) == Done(t)
    ensures exists u: Flat ::
              && u == s.(reducePosition := s.position, score := u.score, records := u.records)
              && FlatReduce(core, u, red) == Done(t)
              && (if valid then u.score == s.score && u.records == s.records
                  else && u.score == s.score - REDUCE_PENALTY
                       && u.records == Post(if ErrorIsOnTop(s.frames, 0, s.records) then f
                                            else Snoc(f, ERROR, s.position, s.position, Empty)))
  {
    hide Post, Count, Boundary, ErrorIsOnTop, FlatReduce, FlatStoreError;
    var u := s;
    if !valid {
      u := FlatStoreError(core, s).stack;
      ErrorBuilds(core, s, f, u);
      u := u.(score := u.score - REDUCE_PENALTY);
    }
    u := u.(reducePosition := u.position);
    assert FlatReduce(core, u, red) == Done(t);
  }

  /** A reduction of nothing opens a frame and adds an empty leaf at the position
      of the stack. */
  lemma EmptyBuilds(core: Core, s: Flat, f: Forest, red: Reduction, t: Flat)
    requires Rooted(s, f) && Settled(s) && red.depth == 0 && FlatReduce(core, s, red) == Done(t)
    ensures |t.frames| == |s.frames| + 1 && t.frames[..|s.frames|] == s.frames
    ensures t.frames[|s.frames|] == Frame(s.state, t.reducePosition, Count(f))
    ensures (s.state, red.term) in core.gotos && t.state == core.gotos[(s.state, red.term)]
    ensures red.term >= core.minRepeat ==> t.records == s.records && t.reducePosition == s.reducePosition
    ensures red.term < core.minRepeat && red.term != ERROR ==>
              t.reducePosition == s.position && t.records == Post(Snoc(f, red.term, s.position, s.position, Empty))
  {
    hide Post, Count, Boundary, Precedence;
    LeafRecords(f, red.term, s.position, s.position);
    PostLength(f);
  }

  /** A deleted token becomes the child of an error. */
  lemma DeleteBuilds(core: Core, s: Flat, f: Forest, term: nat, end: int, t: Flat)
    requires Rooted(s, f) && FlatDelete(core, s, term, end) == Done(t) && 0 < term <= core.maxNode
    ensures t.records == Post(Snoc(f, ERROR, s.position, end, Single(term, s.position, end, Empty)))
    ensures t.frames == s.frames && t.state == s.state && t.position == t.reducePosition == end
    ensures t.score == s.score - DELETE_PENALTY
  {
    hide Post, Count, Boundary;
    var g := Snoc(f, term, s.position, end, Empty);
    LeafRecords(f, term, s.position, end);
    PostLength(f);
    PostLength(g);
    LeafCount(f, term, s.position, end);
    var r := Record(ERROR, s.position, end, 2);
    assert !ErrorIsOnTop(s.frames, 0, Post(g)) by { assert Post(g)[|Post(f)|] == Record(term, s.position, end, 1); }
    UnderBoundary(f, term, s.position, end);
    OverRecords(g, Count(f), ERROR, s.position, end);
  }

  lemma UnderBoundary(f: Forest, id: nat, start: int, end: int)
    ensures var g := Snoc(f, id, start, end, Empty);
            && Boundary(g, Count(f)) && Before(g, Count(f)) == f && Since(g, Count(f)) == Single(id, start, end, Empty)
  {
    WholeBefore(f);
  }

  // ---- every operation keeps a stack grounded -----------------------------

  ghost predicate Settled(s: Flat) {
    s.reducePosition <= s.position
  }

  /** The node of a reduction goes between roots, and the frames that are left
      still cut between them. */
  ghost predicate CleanReduce(core: Core, s: Flat, f: Forest, red: Reduction) {
    red.depth > 0 && StoresNode(core, red) && Popped(red) <= |s.frames| ==>
      CutsStay(s.frames[..|s.frames| - Popped(red)], f, FirstOf(s, red),
               Place(s.position, s.records, EndOf(core, s, red)))
  }

  lemma ReduceKeeps(core: Core, s: Flat, f: Forest, red: Reduction, t: Flat)
    requires Rooted(s, f) && red.depth > 0 && FlatReduce(core, s, red) == Done(t) && CleanReduce(core, s, f, red)
    ensures Grounded(t)
  {
    hide Post, Boundary, SinkIndex, Stored, FlatReduce, Place, Precedence, Framed, UpTo, CutsStay, Merges, Count;
    FirstBoundary(core, s, f, red, t);
    ReduceSteps(core, s, f, red, t);
    if StoresNode(core, red) {
      var first, end := FirstOf(s, red), EndOf(core, s, red);
      TopBoundary(f);
      assert first <= Count(f) by { CutForest(f, first); }
      var g := StoredForest(s.frames, t.frames, s.position, f, first,
                            Record(red.term, StartOf(s, red), end, Count(f) - first + 1), true);
      assert Rooted(t, g);
    } else {
      assert Rooted(t, f);
    }
  }

  /** A record on top of a grounded stack. */
  lemma TopKeeps(frames: seq<Frame>, position: int, f: Forest, r: Record, mustSink: bool) returns (g: Forest)
    requires Framed(frames, f) && r.size == 1 && (mustSink ==> position == r.end)
    ensures Post(g) == Stored(frames, position, 0, Post(f), r, mustSink) && Framed(frames, g)
  {
    hide Post, SinkIndex, Stored, Boundary, Merges, Count, CutsStay;
    TopBoundary(f);
    BelowTop(frames, f);
    TopStays(frames, f, Count(f));
    g := StoredForest(frames, frames, position, f, Count(f), r, mustSink);
  }

  lemma BelowTop(frames: seq<Frame>, f: Forest)
    requires Framed(frames, f)
    ensures UpTo(frames, Count(f))
  {
    hide Boundary;
    forall i | 0 <= i < |frames| ensures frames[i].bufferOffset <= Count(f) {
      CutForest(f, frames[i].bufferOffset);
    }
  }

  lemma PushedFrame(frames: seq<Frame>, f: Forest, frame: Frame)
    requires Framed(frames, f) && frame.bufferOffset == |Post(f)|
    ensures Framed(frames + [frame], f)
  {
    hide Boundary, Post;
    TopBoundary(f);
    BelowTop(frames, f);
  }

  lemma LeafKeeps(frames: seq<Frame>, f: Forest, id: nat, start: int, end: int)
    requires Framed(frames, f)
    ensures Framed(frames, Snoc(f, id, start, end, Empty))
    ensures Post(Snoc(f, id, start, end, Empty)) == Post(f) + [Record(id, start, end, 1)]
  {
    hide Boundary, Post;
    LeafRecords(f, id, start, end);
    BelowTop(frames, f);
    forall i | 0 <= i < |frames| ensures Boundary(Snoc(f, id, start, end, Empty), frames[i].bufferOffset) {
      RootBoundary(f, id, start, end, Empty, frames[i].bufferOffset);
    }
  }

  lemma EmptyKeeps(core: Core, s: Flat, f: Forest, red: Reduction, t: Flat)
    requires Rooted(s, f) && Settled(s) && red.depth == 0 && FlatReduce(core, s, red) == Done(t)
    ensures Grounded(t)
  {
    hide Post, Boundary, Stored, Precedence, Framed;
    var at := t.reducePosition;
    PushedFrame(s.frames, f, Frame(s.state, at, |s.records|));
    if red.term < core.minRepeat {
      var g := TopKeeps(t.frames, s.position, f, Record(red.term, at, at, 1), true);
      assert Rooted(t, g);
    } else {
      assert Rooted(t, f);
    }
  }

  lemma ShiftKeeps(core: Core, s: Flat, f: Forest, state: nat, term: nat, start: int, end: int, t: Flat)
    requires Rooted(s, f)
    requires FlatShift(core, s, state, term, start, end) == Done(t) || t == FlatStayShift(core, s, term, start, end)
    ensures Grounded(t)
  {
    hide Post, Boundary, Framed;
    if t.frames != s.frames {
      PushedFrame(s.frames, f, t.frames[|s.frames|]);
    }
    if term <= core.maxNode {
      LeafKeeps(t.frames, f, term, start, end);
      assert Rooted(t, Snoc(f, term, start, end, Empty));
    } else {
      assert Rooted(t, f);
    }
  }

  lemma GotoKeeps(core: Core, s: Flat, f: Forest, state: nat, t: Flat)
    requires Rooted(s, f) && FlatGotoShift(core, s, state) == Done(t)
    ensures Rooted(t, f)
  {
    hide Post, Boundary, Framed;
    PushedFrame(s.frames, f, t.frames[|s.frames|]);
  }

  lemma ErrorKeeps(core: Core, s: Flat, f: Forest, t: Flat) returns (g: Forest)
    requires Rooted(s, f) && FlatStoreError(core, s) == Done(t)
    ensures Rooted(t, g) && t == s.(records := t.records)
  {
    hide Post, Boundary, Framed, Stored;
    g := TopKeeps(s.frames, s.position, f, Record(ERROR, s.position, s.position, 1), true);
  }

  lemma ErrorOver(frames: seq<Frame>, position: int, f: Forest, term: nat, end: int) returns (g: Forest)
    requires Framed(frames, f) && position <= end
    ensures var leaf := Stored(frames, position, 0, Post(f), Record(term, position, end, 1), false);
            Post(g) == Stored(frames, position, 0, leaf, Record(ERROR, position, end, 2), false)
    ensures Framed(frames, g)
  {
    hide Post, Boundary, Framed, Count, UpTo, SinkIndex, CutsStay, ErrorIsOnTop;
    var r := Record(term, position, end, 1);
    if Merges(frames, Post(f), r) {
      g := MergeAgain(frames, position, f, end);
    } else {
      LeafKeeps(frames, f, term, position, end);
      BelowTop(frames, f);
      UnderBoundary(f, term, position, end);
      LeafCount(f, term, position, end);
      TopStays(frames, f, Count(f));
      g := StoredForest(frames, frames, position, Snoc(f, term, position, end, Empty), Count(f),
                        Record(ERROR, position, end, 2), false);
    }
  }

  /** The error over a deleted error token is taken in like the token itself. */
  lemma MergeAgain(frames: seq<Frame>, position: int, f: Forest, end: int) returns (g: Forest)
    requires Framed(frames, f) && position <= end
    requires Merges(frames, Post(f), Record(ERROR, position, end, 1))
    ensures var leaf := Stored(frames, position, 0, Post(f), Record(ERROR, position, end, 1), false);
            Post(g) == Stored(frames, position, 0, leaf, Record(ERROR, position, end, 2), false)
    ensures Framed(frames, g)
  {
    hide Post, Boundary, Framed;
    g := MergedForest(frames, position, f, Record(ERROR, position, end, 1), false);
    assert Post(g) == if position == end then Post(f)
                      else Post(f)[|Post(f)| - 1 := Post(f)[|Post(f)| - 1].(end := end)];
    assert Stored(frames, position, 0, Post(g), Record(ERROR, position, end, 2), false) == Post(g);
  }

  lemma DeleteKeeps(core: Core, s: Flat, f: Forest, term: nat, end: int, t: Flat)
    requires Rooted(s, f) && s.position <= end && FlatDelete(core, s, term, end) == Done(t)
    ensures Grounded(t)
  {
    hide Post, Boundary, Framed, Stored;
    var g;
    if term <= core.maxNode {
      g := ErrorOver(s.frames, s.position, f, term, end);
    } else {
      g := TopKeeps(s.frames, s.position, f, Record(ERROR, s.position, end, 1), false);
    }
    assert Rooted(t, g);
  }

  lemma InsertKeeps(core: Core, s: Flat, f: Forest, state: nat, t: Flat)
    requires Rooted(s, f) && FlatInsert(core, s, state) == Done(t)
    ensures Grounded(t)
  {
    hide Post, Boundary, Framed, Stored, FlatStoreError;
    var pushed := s.(frames := s.frames + [Frame(s.state, s.position, |s.records|)], state := state);
    PushedFrame(s.frames, f, Frame(s.state, s.position, |s.records|));
    var stored := FlatStoreError(core, pushed).stack;
    var g := ErrorKeeps(core, pushed, f, stored);
    assert Rooted(t, g);
  }

  /** A forced reduction ends where the stack is, so it never sinks. */
  lemma ForceKeeps(core: Core, s: Flat, f: Forest, red: Reduction, valid: bool, t: Flat)
    requires Rooted(s, f) && FlatForceReduce(core, s, red, valid) == Done(t)
    ensures Grounded(t) && Settled(t)
  {
    hide Post, Boundary, Framed, FlatStoreError, FlatReduce;
    var g, u := f, s;
    if !valid {
      u := FlatStoreError(core, s).stack;
      g := ErrorKeeps(core, s, f, u);
      u := u.(score := u.score - REDUCE_PENALTY);
    }
    u := u.(reducePosition := u.position);
    assert Rooted(u, g);
    ReduceSettled(core, u, red, t);
    if red.depth == 0 {
      EmptyKeeps(core, u, g, red, t);
    } else {
      ForcedClean(core, u, g, red, t);
      ReduceKeeps(core, u, g, red, t);
    }
  }

  lemma ForcedClean(core: Core, s: Flat, f: Forest, red: Reduction, t: Flat)
    requires Rooted(s, f) && s.reducePosition == s.position && red.depth > 0 && FlatReduce(core, s, red) == Done(t)
    ensures CleanReduce(core, s, f, red)
  {
    hide Post, Boundary, Framed, FlatReduce, SinkIndex, UpTo, CutsStay, Count;
    FirstBoundary(core, s, f, red, t);
    TopBoundary(f);
    assert FirstOf(s, red) <= Count(f) by { CutForest(f, FirstOf(s, red)); }
    TopStays(s.frames[..|s.frames| - Popped(red)], f, FirstOf(s, red));
  }

  lemma ReduceSettled(core: Core, s: Flat, red: Reduction, t: Flat)
    requires Settled(s) && FlatReduce(core, s, red) == Done(t)
    ensures Settled(t)
  {
    hide Stored, Precedence;
  }

  /** What is asked of an operation: only a reduction can put its node where it
      tears a tree apart. */
  ghost predicate Clean(core: Core, s: Flat, op: Op) {
    match op
    case OnReduce(red) => exists f: Forest :: Rooted(s, f) && CleanReduce(core, s, f, red)
    case _ => true
  }

  /** An operation keeps a stack grounded exactly when it is clean. */
  lemma StepGrounded(core: Core, s: Flat, op: Op, t: Flat)
    requires Grounded(s) && Settled(s) && Enabled(s, op) && FlatApply(core, s, op) == Done(t)
    ensures Grounded(t) <==> Clean(core, s, op)
  {
    hide Rooted, FlatReduce, FlatForceReduce, FlatDelete, FlatInsert, FlatShift, FlatStayShift, FlatGotoShift, CleanReduce,
      FlatStoreError;
    var f: Forest :| Rooted(s, f);
    match op
    case OnGotoShift(state) => GotoKeeps(core, s, f, state, t);
    case OnShift(state, term, start, end) => ShiftKeeps(core, s, f, state, term, start, end, t);
    case OnStayShift(term, start, end) => ShiftKeeps(core, s, f, 0, term, start, end, t);
    case OnReduce(red) =>
      if red.depth == 0 {
        EmptyKeeps(core, s, f, red, t);
        assert CleanReduce(core, s, f, red) by { EmptyClean(core, s, f, red); }
      } else {
        ReduceKeepsIff(core, s, f, red, t);
        CleanUnique(core, s, f, red);
      }
    case OnDelete(term, end) => DeleteKeeps(core, s, f, term, end, t);
    case OnInsert(state) => InsertKeeps(core, s, f, state, t);
    case OnForceReduce(red, valid) => ForceKeeps(core, s, f, red, valid, t);
    case OnRestart =>
      var u := FlatStoreError(core, s).stack;
      var g := ErrorKeeps(core, s, f, u);
      RestartRooted(u, g, t);
    case OnSplit => SplitRooted(s, f, t);
  }

  lemma EmptyClean(core: Core, s: Flat, f: Forest, red: Reduction)
    requires red.depth == 0
    ensures CleanReduce(core, s, f, red)
  {}

  lemma CleanUnique(core: Core, s: Flat, f: Forest, red: Reduction)
    requires Rooted(s, f)
    ensures Clean(core, s, OnReduce(red)) <==> CleanReduce(core, s, f, red)
  {
    hide Post, Framed, CleanReduce;
    if h: Forest :| Rooted(s, h) && CleanReduce(core, s, h, red) {
      PostInjective(f, h);
    }
  }

  lemma RestartRooted(u: Flat, g: Forest, t: Flat)
    requires Rooted(u, g) && t.records == u.records && t.frames == []
    ensures Grounded(t)
  {
    assert Rooted(t, g);
  }

  lemma SplitRooted(s: Flat, f: Forest, t: Flat)
    requires Rooted(s, f) && t.records == s.records && t.frames == s.frames
    ensures Grounded(t)
  {
    assert Rooted(t, f);
  }

  lemma StepSettled(core: Core, s: Flat, op: Op, t: Flat)
    requires Settled(s) && Enabled(s, op) && FlatApply(core, s, op) == Done(t)
    ensures Settled(t)
  {
    hide Stored, Precedence, FlatReduce;
    match op {
      case OnReduce(red) => ReduceSettled(core, s, red, t);
      case OnForceReduce(red, valid) =>
        var u := if valid then s else FlatStoreError(core, s).stack.(score := s.score - REDUCE_PENALTY);
        ReduceSettled(core, u.(reducePosition := u.position), red, t);
      case _ =>
    }
  }

  // ---- limits and refusals ------------------------------------------------

  /** Exactly when a reduction of a grounded stack is refused. */
  lemma ReduceFailsIff(core: Core, s: Flat, f: Forest, red: Reduction)
    requires Rooted(s, f)
    ensures FlatReduce(core, s, red) == Failed <==>
              var full := |s.records| >= core.maxRecords;
              if red.depth == 0 then
                || (s.state, red.term) !in core.gotos || |s.frames| >= core.maxDepth
                || (red.term < core.minRepeat && full)
              else
                || Popped(red) > |s.frames|
                || (StoresNode(core, red) && full)
                || (!red.stays && (Popped(red) == |s.frames|
                                   || (s.frames[|s.frames| - Popped(red) - 1].state, red.term) !in core.gotos))
  {
    hide Post, Stored, Precedence, Boundary;
    forall i | 0 <= i < |s.frames| ensures s.frames[i].bufferOffset <= |s.records| {
      CutForest(f, s.frames[i].bufferOffset);
      PostLength(f);
    }
  }

  /** No operation takes a stack deeper than the limit. */
  lemma StepLimited(core: Core, s: Flat, op: Op, t: Flat)
    requires Enabled(s, op) && FlatApply(core, s, op) == Done(t) && |s.frames| <= core.maxDepth
    ensures |t.frames| <= core.maxDepth
  {
    hide Stored, Precedence, FlatReduce;
    match op {
      case OnReduce(red) => ReduceLimited(core, s, red, t);
      case OnForceReduce(red, valid) =>
        var u := if valid then s else FlatStoreError(core, s).stack.(score := s.score - REDUCE_PENALTY);
        ReduceLimited(core, u.(reducePosition := u.position), red, t);
      case _ =>
    }
  }

  lemma ReduceLimited(core: Core, s: Flat, red: Reduction, t: Flat)
    requires FlatReduce(core, s, red) == Done(t) && |s.frames| <= core.maxDepth
    ensures |t.frames| <= core.maxDepth
  {
    hide Stored, Precedence;
  }

  lemma {:induction false} RunLimited(core: Core, state: nat, position: int, script: seq<(nat, Op)>)
    requires FlatRun(core, state, position, script).Reached?
    ensures forall s <- FlatRun(core, state, position, script).stacks :: |s.frames| <= core.maxDepth
    decreases |script|
  {
    hide FlatApply, Enabled;
    if script != [] {
      var front, last := script[..|script| - 1], script[|script| - 1];
      RunLimited(core, state, position, front);
      var stacks := FlatRun(core, state, position, front).stacks;
      assert stacks[last.0] in stacks;
      StepLimited(core, stacks[last.0], last.1, FlatApply(core, stacks[last.0], last.1).stack);
    }
  }

  // ---- whole runs ---------------------------------------------------------

  /** Every step of a run is clean for the branch that takes it. */
  ghost predicate CleanRun(core: Core, state: nat, position: int, script: seq<(nat, Op)>) {
    script == [] ||
    var front, last := script[..|script| - 1], script[|script| - 1];
    && CleanRun(core, state, position, front)
    && match FlatRun(core, state, position, front)
       case Stopped => true
       case Reached(stacks) => last.0 < |stacks| ==> Clean(core, stacks[last.0], last.1)
  }

  ghost predicate AllGrounded(stacks: seq<Flat>) {
    forall s <- stacks :: Grounded(s) && Settled(s)
  }

  /** Over any number of branches, the records of each are a forest at every
      moment, which frames cut between roots. */
  lemma {:induction false} RunGrounded(core: Core, state: nat, position: int, script: seq<(nat, Op)>)
    requires FlatRun(core, state, position, script).Reached? && CleanRun(core, state, position, script)
    ensures AllGrounded(FlatRun(core, state, position, script).stacks)
    decreases |script|
  {
    hide Grounded, FlatApply, Clean, Enabled;
    if script == [] {
      StartGrounded(state, position);
    } else {
      var front, last := script[..|script| - 1], script[|script| - 1];
      RunGrounded(core, state, position, front);
      var stacks := FlatRun(core, state, position, front).stacks;
      var s := stacks[last.0];
      assert s in stacks;
      var t := FlatApply(core, s, last.1).stack;
      StepGrounded(core, s, last.1, t);
      StepSettled(core, s, last.1, t);
    }
  }

  lemma StartGrounded(state: nat, position: int)
    ensures var s := Flat([], state, position, position, 0, [], 0, position); Grounded(s) && Settled(s)
  {
    assert Rooted(Flat([], state, position, position, 0, [], 0, position), Empty);
  }

  /** A run on the shared stacks: as long as every step is clean, each branch
      holds the records of a forest, chunk by chunk. */
  method RunTrees(core: Core, state: nat, position: int, script: seq<(nat, Op)>)
    returns (ok: bool, stacks: seq<Stack>)
    ensures ok <==> FlatRun(core, state, position, script).Reached?
    ensures ok ==> Mirrors(stacks, FlatRun(core, state, position, script).stacks, core)
    ensures ok && CleanRun(core, state, position, script) ==>
              forall i: nat :: i < |stacks| ==> Grounded(stacks[i].View())
  {
    hide FlatRun, CleanRun, Grounded, Stack.View, Stack.Valid;
    ok, stacks := RunBranches(core, state, position, script);
    if ok && CleanRun(core, state, position, script) {
      RunGrounded(core, state, position, script);
      ghost var flats := FlatRun(core, state, position, script).stacks;
      forall i: nat | i < |stacks| ensures Grounded(stacks[i].View()) {
        assert stacks[i].View() == flats[i] && flats[i] in flats;
      }
    }
  }

  // ---- when a node tears a tree apart -------------------------------------

  /** Exactly when a reduction keeps a stack grounded: its node can be put in
      where it goes, and the frames that are left cut between roots then. */
  lemma ReduceKeepsIff(core: Core, s: Flat, f: Forest, red: Reduction, t: Flat)
    requires Rooted(s, f) && red.depth > 0 && FlatReduce(core, s, red) == Done(t)
    ensures Grounded(t) <==> CleanReduce(core, s, f, red)
  {
    hide Post, Boundary, SinkIndex, Stored, FlatReduce, Place, Precedence, Framed, UpTo, Count, CutsStay, Merges, Grounded;
    FirstBoundary(core, s, f, red, t);
    ReduceSteps(core, s, f, red, t);
    if CleanReduce(core, s, f, red) {
      ReduceKeeps(core, s, f, red, t);
    } else {
      var first, end := FirstOf(s, red), EndOf(core, s, red);
      TopBoundary(f);
      assert first <= Count(f) by { CutForest(f, first); }
      var r := Record(red.term, StartOf(s, red), end, Count(f) - first + 1);
      if Merges(s.frames, Post(f), r) {
        MergePlace(s.frames, s.position, Post(f), r);
        TopStays(t.frames, f, first);
      } else {
        NotMerged(s.frames, s.position, f, first, r, true);
        UncleanNode(f, first, Place(s.position, s.records, end), r, t);
      }
    }
  }

  lemma MergePlace(frames: seq<Frame>, position: int, records: seq<Record>, r: Record)
    requires Merges(frames, records, r)
    ensures Place(position, records, r.end) == |records|
  {
    hide SinkIndex;
  }

  lemma UncleanNode(f: Forest, first: nat, k: nat, r: Record, t: Flat)
    requires Boundary(f, first) && first <= |Post(f)| && k <= |Post(f)|
    requires Framed(t.frames, f) && UpTo(t.frames, first) && !CutsStay(t.frames, f, first, k)
    requires t.records == Post(f)[..k] + [Record(r.id, r.start, r.end, PutSize(first, k))] + Post(f)[k..]
    ensures !Grounded(t)
  {
    hide Post, Boundary, Framed, UpTo, Count, CanPut, CutsBelow;
    if CanPut(f, first, k) {
      var h := PutIn(f, first, k, r.id, r.start, r.end);
      PutFramed(t.frames, f, first, k, h);
      GroundedUnique(t, h);
    } else if Grounded(t) {
      var g: Forest :| Rooted(t, g);
      PutNeeded(f, first, k, Record(r.id, r.start, r.end, PutSize(first, k)), g);
    }
  }

  lemma GroundedUnique(t: Flat, g: Forest)
    requires t.records == Post(g)
    ensures Grounded(t) <==> Framed(t.frames, g)
  {
    hide Framed, Post;
    if Framed(t.frames, g) {
      assert Rooted(t, g);
    }
    if Grounded(t) {
      var h: Forest :| Rooted(t, h);
      PostInjective(g, h);
    }
  }

  /** A tree of one node over one leaf. */
  lemma SmallTree(f: Forest)
    requires f.Snoc? && f.front == Empty && f.kids.Snoc? && f.kids.front == Empty && f.kids.kids == Empty
    ensures Post(f) == [Record(f.kids.id, f.kids.start, f.kids.end, 1), Record(f.id, f.start, f.end, 2)]
    ensures Boundary(f, 0) && !Boundary(f, 1)
  {}

  /** A stack of one frame over a tree of one leaf, with a goto on term 7. */
  ghost predicate Tearing(core: Core, s: Flat, f: Forest) {
    && Rooted(s, f) && f.Snoc? && f.front == Empty && f.kids.Snoc? && f.kids.front == Empty && f.kids.kids == Empty
    && f.kids.end <= s.reducePosition < f.end && s.reducePosition < s.position && f.id != ERROR
    && |s.frames| == 1 && s.frames[0].bufferOffset == 0 && s.frames[0].start != s.reducePosition
    && s.state !in core.skipped && (s.frames[0].state, 7) in core.gotos && core.maxRecords > 2 && core.minRepeat > 7
  }

  /** A node that ends inside an earlier tree tears it apart: the records are no
      forest any more. */
  lemma Torn(core: Core, s: Flat, f: Forest)
    requires Tearing(core, s, f)
    ensures var t := FlatReduce(core, s, Reduction(7, 1, false, false));
            t.Done? && !Grounded(t.stack)
  {
    hide Post, Boundary, SinkIndex, FlatReduce, Grounded, CleanReduce;
    var red := Reduction(7, 1, false, false);
    SmallTree(f);
    TornPlace(s.records, s.reducePosition);
    ReduceFailsIff(core, s, f, red);
    var t := FlatReduce(core, s, red);
    assert t.Done?;
    ReduceKeepsIff(core, s, f, red, t.stack);
    assert !CleanReduce(core, s, f, red) by { TornUnclean(core, s, f, red); }
  }

  lemma TornUnclean(core: Core, s: Flat, f: Forest, red: Reduction)
    requires Popped(red) <= |s.frames| && red.depth > 0 && StoresNode(core, red)
    requires FirstOf(s, red) <= Place(s.position, s.records, EndOf(core, s, red))
    requires !Boundary(f, Place(s.position, s.records, EndOf(core, s, red)))
    ensures !CleanReduce(core, s, f, red)
  {
    hide Boundary, Place, EndOf;
  }

  lemma TornPlace(records: seq<Record>, end: int)
    requires |records| == 2 && records[0].end <= end < records[1].end
    ensures SinkIndex(records, end) == 1
  {
    assert records[..1] == [records[0]];
    assert SinkIndex(records[..1], end) == 1;
  }

  /** There are such stacks. */
  lemma TornExample()
    ensures exists core, s, f :: Tearing(core, s, f) && Settled(s)
  {
    hide Post, Boundary;
    var f := Single(6, 0, 3, Single(5, 0, 1, Empty));
    SmallTree(f);
    var core := Core(10, 100, 10, 10, {}, map[(0, 7) := 3], map[]);
    var s := Flat([Frame(0, 0, 0)], 2, 2, 3, 0, Post(f), 0, 0);
    assert Tearing(core, s, f) && Settled(s);
  }
}
