/** Compact trees: stand-alone nodes and packed buffers, and the forest that
    either of them stands for. */
module CompactTree {
  import opened PostfixForest

  /** One packed record: positions relative to the buffer, and the word index
      just past the record's subtree. */
  datatype Quad = Quad(id: nat, from: nat, to: nat, end: nat)

  /** A child together with its position relative to its parent. */
  datatype Slot = Slot(position: int, child: TreeChild)

  datatype TreeChild =
    | Node(id: nat, slots: seq<Slot>, length: int)
    | Buffer(data: seq<Quad>, length: int)

  const U16_LIMIT := 0x1_0000

  // ---- packed buffers -------------------------------------------------------

  /** The forest held by the records `lo .. hi`, found as the readers find it:
      hop from a record to the end index it stores. */
  function Parse(data: seq<Quad>, lo: nat, hi: nat, base: int): Forest
    requires hi <= |data|
    decreases hi - lo
  {
    if lo >= hi then Empty
    else
      var end := data[lo].end / 4;
      if lo < end <= hi then
        Concat(Single(data[lo].id, base + data[lo].from, base + data[lo].to, Parse(data, lo + 1, end, base)),
               Parse(data, end, hi, base))
      else Empty
  }

  /** The records `lo .. hi` are the prefix-order image of `f`. */
  ghost predicate Encodes(data: seq<Quad>, lo: nat, hi: nat, base: int, f: Forest)
    requires hi <= |data|
    decreases f
  {
    match f
    case Empty => lo == hi
    case Snoc(front, id, start, end, kids) =>
      lo + Count(f) == hi &&
      var at := hi - 1 - Count(kids);
      && Encodes(data, lo, at, base, front)
      && data[at].id == id
      && data[at].from == start - base
      && data[at].to == end - base
      && data[at].end == 4 * hi
      && Encodes(data, at + 1, hi, base, kids)
  }

  lemma {:induction false} EncodesSize(data: seq<Quad>, lo: nat, hi: nat, base: int, f: Forest)
    requires hi <= |data| && Encodes(data, lo, hi, base, f)
    ensures hi == lo + Count(f)
  {}

  lemma EncodesEmpty(data: seq<Quad>, at: nat, base: int)
    requires at <= |data|
    ensures Encodes(data, at, at, base, Empty)
  {}

  lemma {:induction false} EncodesFrame(data: seq<Quad>, data': seq<Quad>, lo: nat, hi: nat, base: int, f: Forest)
    requires hi <= |data| && hi <= |data'| && Encodes(data, lo, hi, base, f)
    requires forall i :: lo <= i < hi ==> data[i] == data'[i]
    ensures Encodes(data', lo, hi, base, f)
    decreases f
  {
    if f.Snoc? {
      var at := hi - 1 - Count(f.kids);
      EncodesBounds(data, lo, hi, base, f);
      EncodesFrame(data, data', lo, at, base, f.front);
      EncodesFrame(data, data', at + 1, hi, base, f.kids);
      assert data'[at] == data[at];
    }
  }

  lemma EncodesBounds(data: seq<Quad>, lo: nat, hi: nat, base: int, f: Forest)
    requires hi <= |data| && Encodes(data, lo, hi, base, f) && f.Snoc?
    ensures lo <= hi - 1 - Count(f.kids)
  {
    hide Count;
    EncodesSize(data, lo, hi - 1 - Count(f.kids), base, f.front);
  }

  lemma {:induction false} EncodesConcat(
    data: seq<Quad>, lo: nat, mid: nat, hi: nat, base: int, a: Forest, b: Forest)
    requires lo <= mid <= hi <= |data|
    requires Encodes(data, lo, mid, base, a) && Encodes(data, mid, hi, base, b)
    ensures Encodes(data, lo, hi, base, Concat(a, b))
    decreases b
  {
    hide Encodes, Count, Concat;
    EncodesSize(data, lo, mid, base, a);
    EncodesSize(data, mid, hi, base, b);
    if b.Snoc? {
      var at := EncodedParts(data, mid, hi, base, b);
      EncodesConcat(data, lo, mid, at, base, a, b.front);
      CountConcat(a, b);
      ConcatSnoc(a, b);
      EncodedWhole(data, lo, at, hi, base, Concat(a, b));
    } else {
      ConcatNone(a, b);
      EncodedEnd(data, mid, hi, base, b);
    }
  }

  lemma EncodedEnd(data: seq<Quad>, lo: nat, hi: nat, base: int, f: Forest)
    requires hi <= |data| && f.Empty? && Encodes(data, lo, hi, base, f)
    ensures lo == hi
  {}

  /** The record of the last node, between those before it and those inside. */
  lemma EncodedParts(data: seq<Quad>, lo: nat, hi: nat, base: int, f: Forest) returns (at: nat)
    requires hi <= |data| && f.Snoc? && Encodes(data, lo, hi, base, f)
    ensures lo <= at < hi && at + 1 + Count(f.kids) == hi && lo + Count(f) == hi
    ensures Encodes(data, lo, at, base, f.front) && Encodes(data, at + 1, hi, base, f.kids)
    ensures data[at].id == f.id && data[at].from == f.start - base && data[at].to == f.end - base && data[at].end == 4 * hi
  {
    at := hi - 1 - Count(f.kids);
    EncodesSize(data, lo, at, base, f.front);
  }

  lemma EncodedWhole(data: seq<Quad>, lo: nat, at: nat, hi: nat, base: int, f: Forest)
    requires lo <= at < hi <= |data| && f.Snoc? && at + 1 + Count(f.kids) == hi && lo + Count(f) == hi
    requires Encodes(data, lo, at, base, f.front) && Encodes(data, at + 1, hi, base, f.kids)
    requires data[at].id == f.id && data[at].from == f.start - base && data[at].to == f.end - base && data[at].end == 4 * hi
    ensures Encodes(data, lo, hi, base, f)
  {}

  /** Writing a node in front of its encoded children. */
  lemma EncodeNode(data: seq<Quad>, at: nat, index: nat, base: int, id: nat, start: int, end: int, kids: Forest)
    requires at < index <= |data| && Encodes(data, at + 1, index, base, kids)
    requires start >= base && end >= base && data[at] == Quad(id, start - base, end - base, 4 * index)
    ensures Encodes(data, at, index, base, Single(id, start, end, kids))
  {
    EncodesSize(data, at + 1, index, base, kids);
    EncodesEmpty(data, at, base);
    assert Count(Single(id, start, end, kids)) == 1 + Count(kids);
  }

  lemma {:induction false} ParseEncoded(data: seq<Quad>, lo: nat, mid: nat, hi: nat, base: int, f: Forest)
    requires lo <= mid <= hi <= |data| && Encodes(data, lo, mid, base, f)
    ensures Parse(data, lo, hi, base) == Concat(f, Parse(data, mid, hi, base))
    decreases f
  {
    if f.Empty? {
      ConcatEmpty(Parse(data, mid, hi, base));
    } else {
      var at := mid - 1 - Count(f.kids);
      ParseEncoded(data, lo, at, hi, base, f.front);
      ParseEncoded(data, at + 1, mid, mid, base, f.kids);
      var node := Single(f.id, f.start, f.end, f.kids);
      assert Parse(data, at + 1, mid, base) == f.kids;
      assert Parse(data, at, hi, base) == Concat(node, Parse(data, mid, hi, base));
      ConcatAssoc(f.front, node, Parse(data, mid, hi, base));
      assert Concat(f.front, node) == f;
    }
  }

  /** A buffer that encodes `f` is read back as `f`. */
  lemma ParseWhole(data: seq<Quad>, base: int, f: Forest)
    requires Encodes(data, 0, |data|, base, f)
    ensures Parse(data, 0, |data|, base) == f
  {
    ParseEncoded(data, 0, |data|, |data|, base, f);
  }

  // ---- the forest of a tree ---------------------------------------------------

  /** Node ids from `minRepeat` on group repetitions and are not content. */
  function Expand(child: TreeChild, at: int, minRepeat: nat): Forest
    decreases child, 0
  {
    match child
    case Buffer(data, _) => Parse(data, 0, |data|, at)
    case Node(id, slots, length) =>
      var inner := ExpandAll(slots, at, minRepeat);
      if id >= minRepeat then inner else Single(id, at, at + length, inner)
  }

  function ExpandAll(slots: seq<Slot>, at: int, minRepeat: nat): Forest
    decreases slots, 1
  {
    if slots == [] then Empty
    else
      var last := slots[|slots| - 1];
      assert last.child < last;
      Concat(ExpandAll(slots[..|slots| - 1], at, minRepeat), Expand(last.child, at + last.position, minRepeat))
  }

  /** The forest of slots collected from right to left. */
  ghost function ExpandReversed(slots: seq<Slot>, at: int, minRepeat: nat): Forest {
    if slots == [] then Empty
    else
      var last := slots[|slots| - 1];
      Concat(Expand(last.child, at + last.position, minRepeat),
             ExpandReversed(slots[..|slots| - 1], at, minRepeat))
  }

  lemma {:induction false} ExpandAllConcat(a: seq<Slot>, b: seq<Slot>, at: int, minRepeat: nat)
    ensures ExpandAll(a + b, at, minRepeat)
         == Concat(ExpandAll(a, at, minRepeat), ExpandAll(b, at, minRepeat))
  {
    if b == [] {
      assert a + b == a;
    } else {
      var n := |b| - 1;
      assert (a + b)[..|a| + n] == a + b[..n];
      ExpandAllConcat(a, b[..n], at, minRepeat);
      ConcatAssoc(ExpandAll(a, at, minRepeat), ExpandAll(b[..n], at, minRepeat),
                  Expand(b[n].child, at + b[n].position, minRepeat));
    }
  }

  lemma ExpandAllPush(slots: seq<Slot>, slot: Slot, at: int, minRepeat: nat)
    ensures ExpandAll(slots + [slot], at, minRepeat)
         == Concat(ExpandAll(slots, at, minRepeat), Expand(slot.child, at + slot.position, minRepeat))
  {
    assert (slots + [slot])[..|slots|] == slots;
  }

  lemma ExpandReversedPush(slots: seq<Slot>, slot: Slot, at: int, minRepeat: nat)
    ensures ExpandReversed(slots + [slot], at, minRepeat)
         == Concat(Expand(slot.child, at + slot.position, minRepeat), ExpandReversed(slots, at, minRepeat))
  {
    assert (slots + [slot])[..|slots|] == slots;
  }

  function Reverse(slots: seq<Slot>): (r: seq<Slot>)
    ensures |r| == |slots|
  {
    if slots == [] then [] else [slots[|slots| - 1]] + Reverse(slots[..|slots| - 1])
  }

  lemma {:induction false} ExpandReverse(slots: seq<Slot>, at: int, minRepeat: nat)
    ensures ExpandAll(Reverse(slots), at, minRepeat) == ExpandReversed(slots, at, minRepeat)
  {
    if slots != [] {
      var n := |slots| - 1;
      ExpandReverse(slots[..n], at, minRepeat);
      ExpandAllConcat([slots[n]], Reverse(slots[..n]), at, minRepeat);
      ExpandAllPush([], slots[n], at, minRepeat);
      assert [] + [slots[n]] == [slots[n]];
      ConcatEmpty(Expand(slots[n].child, at + slots[n].position, minRepeat));
    }
  }

}
