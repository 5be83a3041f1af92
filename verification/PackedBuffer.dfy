/** Validation and traversal of packed buffers. */
module PackedBuffer {
  import opened Options
  import opened PostfixForest
  import opened CompactTree

  /** The record index just past the subtree of record `i`. */
  function End(data: seq<Quad>, i: nat): nat
    requires i < |data|
  {
    data[i].end / 4
  }

  /** Every record in `lo .. hi` ends inside the window and inside every record
      of the window that encloses it. */
  ghost predicate Nested(data: seq<Quad>, lo: nat, hi: nat)
    requires hi <= |data|
  {
    && (forall i | lo <= i < hi :: data[i].end % 4 == 0 && i < End(data, i) <= hi)
    && (forall j, i | lo <= j < i < hi && i < End(data, j) :: End(data, i) <= End(data, j))
  }

  ghost predicate Ranged(data: seq<Quad>, typeCount: nat) {
    forall i | 0 <= i < |data| :: data[i].id < typeCount && data[i].from <= data[i].to
  }

  /** `Nested` for the records before `n`, the others being unseen yet. */
  ghost predicate NestedUpTo(data: seq<Quad>, n: nat)
    requires n <= |data|
  {
    && (forall i | 0 <= i < n :: data[i].end % 4 == 0 && i < End(data, i) <= |data|)
    && (forall j, i | 0 <= j < i < n && i < End(data, j) :: End(data, i) <= End(data, j))
  }

  /** The stack holds the ends of the records `owners`, innermost last, among
      them every record before `index` that is still open there. */
  ghost predicate Open(data: seq<Quad>, enclosing: seq<nat>, owners: seq<nat>, index: nat)
    requires index <= |data|
  {
    && |owners| == |enclosing|
    && (forall p | 0 <= p < |owners| :: owners[p] < index && enclosing[p] == End(data, owners[p]))
    && (forall p, q | 0 <= p < q < |owners| :: enclosing[p] >= enclosing[q])
    && (forall j | 0 <= j < index && index < End(data, j) :: j in owners)
  }

  lemma PopOpen(data: seq<Quad>, enclosing: seq<nat>, owners: seq<nat>, index: nat)
    requires index <= |data| && Open(data, enclosing, owners, index)
    requires enclosing != [] && enclosing[|enclosing| - 1] <= index
    ensures |owners| == |enclosing|
    ensures Open(data, enclosing[..|enclosing| - 1], owners[..|owners| - 1], index)
  {}

  /** The innermost open end bounds a record as all enclosing records do. */
  lemma InnermostBounds(data: seq<Quad>, enclosing: seq<nat>, owners: seq<nat>, index: nat)
    requires index < |data| && Open(data, enclosing, owners, index)
    requires enclosing == [] || enclosing[|enclosing| - 1] > index
    ensures (enclosing == [] || End(data, index) <= enclosing[|enclosing| - 1])
       <==> forall j | 0 <= j < index && index < End(data, j) :: End(data, index) <= End(data, j)
  {
    if enclosing != [] {
      var j := owners[|owners| - 1];
      assert index < End(data, j);
    }
  }

  lemma PushOpen(data: seq<Quad>, enclosing: seq<nat>, owners: seq<nat>, index: nat)
    requires index < |data| && Open(data, enclosing, owners, index)
    requires enclosing == [] || End(data, index) <= enclosing[|enclosing| - 1]
    ensures Open(data, enclosing + [End(data, index)], owners + [index], index + 1)
  {}

  /** The check made whenever a buffer is created, with its stack of enclosing
      end indices; `false` stands for a failed assertion. */
  method ValidateBuffer(data: seq<Quad>, typeCount: nat) returns (ok: bool)
    ensures ok <==> Ranged(data, typeCount) && Nested(data, 0, |data|)
  {
    hide Open, Nested, NestedUpTo, End;
    var enclosing: seq<nat> := [];
    ghost var owners: seq<nat> := [];
    var index := 0;
    OpenStart(data);
    NestedAll(data);
    while index < |data|
      invariant 0 <= index <= |data|
      invariant forall i | 0 <= i < index :: data[i].id < typeCount && data[i].from <= data[i].to
      invariant NestedUpTo(data, index)
      invariant Open(data, enclosing, owners, index)
    {
      while enclosing != [] && enclosing[|enclosing| - 1] <= index
        invariant Open(data, enclosing, owners, index)
        decreases |enclosing|
      {
        PopOpen(data, enclosing, owners, index);
        enclosing, owners := enclosing[..|enclosing| - 1], owners[..|owners| - 1];
      }
      var record := data[index];
      if record.id >= typeCount || record.from > record.to {
        return false;
      }
      var end := record.end;
      EndOf(data, index);
      NestedNext(data, index);
      if !(end >= 4 * index + 4 && end <= 4 * |data| && end % 4 == 0) {
        return false;
      }
      InnermostBounds(data, enclosing, owners, index);
      if enclosing != [] && end > 4 * enclosing[|enclosing| - 1] {
        return false;
      }
      PushOpen(data, enclosing, owners, index);
      enclosing, owners := enclosing + [end / 4], owners + [index];
      index := index + 1;
    }
    NestedAll(data);
    return true;
  }

  lemma EndOf(data: seq<Quad>, index: nat)
    requires index < |data|
    ensures End(data, index) == data[index].end / 4
  {}

  /** What one more record needs in order to nest. */
  lemma NestedNext(data: seq<Quad>, index: nat)
    requires index < |data| && NestedUpTo(data, index)
    ensures NestedUpTo(data, index + 1) <==>
              && data[index].end % 4 == 0 && index < End(data, index) <= |data|
              && forall j | 0 <= j < index && index < End(data, j) :: End(data, index) <= End(data, j)
    ensures Nested(data, 0, |data|) ==> NestedUpTo(data, index + 1)
  {
    hide End;
  }

  lemma NestedAll(data: seq<Quad>)
    ensures NestedUpTo(data, 0)
    ensures NestedUpTo(data, |data|) ==> Nested(data, 0, |data|)
  {
    hide End;
  }

  lemma OpenStart(data: seq<Quad>)
    ensures Open(data, [], [], 0)
  {}

  /** A nested window is the image of the forest read from it ... */
  lemma {:induction false} NestedEncodes(data: seq<Quad>, lo: nat, hi: nat, base: int)
    requires lo <= hi <= |data| && Nested(data, lo, hi)
    ensures Encodes(data, lo, hi, base, Parse(data, lo, hi, base))
    decreases hi - lo
  {
    hide Encodes, Concat;
    if lo < hi {
      var end := End(data, lo);
      InnerWindow(data, lo, hi);
      NestedEncodes(data, lo + 1, end, base);
      NestedEncodes(data, end, hi, base);
      var kids := Parse(data, lo + 1, end, base);
      EncodeNode(data, lo, end, base, data[lo].id, base + data[lo].from, base + data[lo].to, kids);
      EncodesConcat(data, lo, end, hi, base, Single(data[lo].id, base + data[lo].from, base + data[lo].to, kids),
                    Parse(data, end, hi, base));
    } else {
      EncodesEmpty(data, lo, base);
    }
  }

  lemma InnerWindow(data: seq<Quad>, lo: nat, hi: nat)
    requires lo < hi <= |data| && Nested(data, lo, hi)
    ensures lo < End(data, lo) <= hi && data[lo].end == 4 * End(data, lo)
    ensures Nested(data, lo + 1, End(data, lo)) && Nested(data, End(data, lo), hi)
  {}

  /** ... and the image of any forest is nested. */
  lemma {:induction false} EncodesNested(data: seq<Quad>, lo: nat, hi: nat, base: int, f: Forest)
    requires hi <= |data| && Encodes(data, lo, hi, base, f)
    ensures Nested(data, lo, hi)
    decreases f
  {
    hide Nested;
    EncodesSize(data, lo, hi, base, f);
    if lo == hi { NothingNested(data, lo); }
    if f.Snoc? {
      var at := hi - 1 - Count(f.kids);
      EncodesNested(data, lo, at, base, f.front);
      EncodesNested(data, at + 1, hi, base, f.kids);
      EncodesSize(data, lo, at, base, f.front);
      NestedNode(data, lo, at, hi);
    }
  }

  lemma NothingNested(data: seq<Quad>, at: nat)
    requires at <= |data|
    ensures Nested(data, at, at)
  {}

  /** A record around a nested window, after another nested window. */
  lemma NestedNode(data: seq<Quad>, lo: nat, at: nat, hi: nat)
    requires lo <= at < hi <= |data| && data[at].end == 4 * hi
    requires Nested(data, lo, at) && Nested(data, at + 1, hi)
    ensures Nested(data, lo, hi)
  {}

  /** Ids are known and ranges are not reversed. */
  ghost predicate WellTyped(f: Forest, typeCount: nat) {
    match f
    case Empty => true
    case Snoc(front, id, start, end, kids) =>
      WellTyped(front, typeCount) && id < typeCount && start <= end && WellTyped(kids, typeCount)
  }

  lemma {:induction false} WellTypedConcat(a: Forest, b: Forest, typeCount: nat)
    ensures WellTyped(Concat(a, b), typeCount) <==> WellTyped(a, typeCount) && WellTyped(b, typeCount)
    decreases b
  {
    if b.Snoc? { WellTypedConcat(a, b.front, typeCount); }
  }

  lemma {:induction false} WellTypedErase(f: Forest, typeCount: nat, m: nat)
    requires WellTyped(f, typeCount)
    ensures WellTyped(Erase(f, m), typeCount)
  {
    if f.Snoc? {
      WellTypedErase(f.front, typeCount, m);
      WellTypedErase(f.kids, typeCount, m);
      WellTypedConcat(Erase(f.front, m), Erase(f.kids, m), typeCount);
    }
  }

  lemma {:induction false} EncodesRanged(data: seq<Quad>, lo: nat, hi: nat, base: int, f: Forest, typeCount: nat)
    requires hi <= |data| && Encodes(data, lo, hi, base, f) && WellTyped(f, typeCount)
    ensures forall i | lo <= i < hi :: data[i].id < typeCount && data[i].from <= data[i].to
    decreases f
  {
    if f.Snoc? {
      var at := hi - 1 - Count(f.kids);
      EncodesRanged(data, lo, at, base, f.front, typeCount);
      EncodesRanged(data, at + 1, hi, base, f.kids, typeCount);
    }
  }

  /** A buffer passes the nesting check exactly when it holds some forest. */
  lemma NestedIffForest(data: seq<Quad>, base: int)
    ensures Nested(data, 0, |data|) <==> exists f :: Encodes(data, 0, |data|, base, f)
  {
    if Nested(data, 0, |data|) {
      NestedEncodes(data, 0, |data|, base);
    }
    if exists f :: Encodes(data, 0, |data|, base, f) {
      var f :| Encodes(data, 0, |data|, base, f);
      EncodesNested(data, 0, |data|, base, f);
    }
  }

  /** The siblings of a window, by hopping from end to end. */
  ghost function Siblings(data: seq<Quad>, lo: nat, hi: nat): seq<nat>
    requires lo <= hi <= |data| && Nested(data, lo, hi)
    decreases hi - lo
  {
    if lo == hi then [] else [lo] + Siblings(data, End(data, lo), hi)
  }

  datatype Side = Before | AtOrBefore | Around | AtOrAfter | After | DontCare

  predicate CheckSide(side: Side, position: int, from: int, to: int) {
    match side
    case Before => from < position
    case AtOrBefore => to >= position && from < position
    case Around => from < position && to > position
    case AtOrAfter => from <= position && to > position
    case After => to > position
    case DontCare => true
  }

  /** How the sides relate to a node's range: around is both before and after,
      the inclusive sides add the nodes that only touch, and the sides that look
      left mirror those that look right. */
  lemma SidesRelate(position: int, from: int, to: int)
    requires from <= to
    ensures CheckSide(Around, position, from, to)
       <==> CheckSide(Before, position, from, to) && CheckSide(After, position, from, to)
    ensures CheckSide(AtOrBefore, position, from, to)
       <==> CheckSide(Around, position, from, to) || from < to == position
    ensures CheckSide(AtOrAfter, position, from, to)
       <==> CheckSide(Around, position, from, to) || position == from < to
    ensures CheckSide(Before, position, from, to) <==> CheckSide(After, -position, -to, -from)
    ensures CheckSide(Before, position, from, to) || CheckSide(After, position, from, to) || from == position == to
    ensures !CheckSide(Before, position, position, to) && CheckSide(DontCare, position, from, to)
  {}

  predicate Touches(data: seq<Quad>, i: nat, side: Side, position: int, start: int)
  {
    i < |data| && CheckSide(side, position, start + data[i].from, start + data[i].to)
  }

  /** The first or last sibling of a window on the wanted side. The loop ends
      only when it lands exactly on `end`, which nesting guarantees. */
  method FindBufferChild(data: seq<Quad>, start: nat, end: nat, forward: bool,
                         position: int, bufferStart: int, side: Side)
    returns (found: Option<nat>)
    requires start <= end <= |data| && Nested(data, start, end)
    ensures found.None? ==>
              forall i | i in Siblings(data, start, end) :: !Touches(data, i, side, position, bufferStart)
    ensures found.Some? ==>
              && found.value in Siblings(data, start, end)
              && Touches(data, found.value, side, position, bufferStart)
              && forall i | i in Siblings(data, start, end) && (if forward then i < found.value else i > found.value) ::
                   !Touches(data, i, side, position, bufferStart)
  {
    hide Nested, Siblings;
    var index := start;
    found := None;
    ghost var all := Siblings(data, start, end);
    SiblingsAhead(data, start, end);
    while index != end
      invariant start <= index <= end && Nested(data, index, end)
      invariant forall i | i in all && i >= index :: i in Siblings(data, index, end)
      invariant forall i | i in Siblings(data, index, end) :: i in all
      invariant found.None? ==>
                  forall i | i in all && i < index :: !Touches(data, i, side, position, bufferStart)
      invariant found.Some? ==>
                  && !forward && found.value in all && found.value < index
                  && Touches(data, found.value, side, position, bufferStart)
                  && forall i | i in all && found.value < i < index :: !Touches(data, i, side, position, bufferStart)
      decreases end - index
    {
      SiblingsStep(data, index, end);
      if Touches(data, index, side, position, bufferStart) {
        found := Some(index);
        if forward {
          break;
        }
      }
      index := data[index].end / 4;
    }
  }

  lemma SiblingsStep(data: seq<Quad>, lo: nat, hi: nat)
    requires lo < hi <= |data| && Nested(data, lo, hi)
    ensures lo < End(data, lo) <= hi && Nested(data, End(data, lo), hi)
    ensures lo in Siblings(data, lo, hi)
    ensures forall i | i in Siblings(data, End(data, lo), hi) :: i in Siblings(data, lo, hi) && i >= End(data, lo)
    ensures forall i | i in Siblings(data, lo, hi) :: i == lo || i in Siblings(data, End(data, lo), hi)
  {
    SiblingsAhead(data, End(data, lo), hi);
  }

  lemma {:induction false} SiblingsAhead(data: seq<Quad>, lo: nat, hi: nat)
    requires lo <= hi <= |data| && Nested(data, lo, hi)
    ensures forall i | i in Siblings(data, lo, hi) :: lo <= i < hi
    decreases hi - lo
  {
    if lo < hi {
      SiblingsAhead(data, End(data, lo), hi);
    }
  }
}
