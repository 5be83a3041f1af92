/** Postfix parser records and the forests they serialise.

    Rezel stores a record as four `u32` words; here it is one `Record`, and
    sizes and positions count records. */
module PostfixForest {

  datatype Record = Record(id: nat, start: int, end: int, size: nat)

  /** An ordered forest, growing on the right, the side on which the backward
      cursor meets it. */
  datatype Forest =
    | Empty
    | Snoc(front: Forest, id: nat, start: int, end: int, kids: Forest)

  function Single(id: nat, start: int, end: int, kids: Forest): Forest {
    Snoc(Empty, id, start, end, kids)
  }

  function Concat(a: Forest, b: Forest): Forest {
    match b
    case Empty => a
    case Snoc(front, id, start, end, kids) => Snoc(Concat(a, front), id, start, end, kids)
  }

  function Count(f: Forest): nat {
    match f
    case Empty => 0
    case Snoc(front, _, _, _, kids) => Count(front) + 1 + Count(kids)
  }

  /** The postfix buffer of a forest: children before their parent, each
      record carrying the size of its whole subtree. */
  function Post(f: Forest): seq<Record> {
    match f
    case Empty => []
    case Snoc(front, id, start, end, kids) =>
      Post(front) + Post(kids) + [Record(id, start, end, 1 + Count(kids))]
  }

  /** The forest without its repeat nodes: a node whose id is at least
      `minRepeat` is replaced by its children. */
  function Erase(f: Forest, minRepeat: nat): Forest {
    match f
    case Empty => Empty
    case Snoc(front, id, start, end, kids) =>
      if id >= minRepeat then Concat(Erase(front, minRepeat), Erase(kids, minRepeat))
      else Snoc(Erase(front, minRepeat), id, start, end, Erase(kids, minRepeat))
  }

  /** The repeat nodes of a forest, which `Erase` drops. */
  function Repeats(f: Forest, minRepeat: nat): nat {
    match f
    case Empty => 0
    case Snoc(front, id, _, _, kids) =>
      Repeats(front, minRepeat) + Repeats(kids, minRepeat) + if id >= minRepeat then 1 else 0
  }

  /** The records `lo .. hi` are the postfix image of `f`. */
  ghost predicate Holds(records: seq<Record>, lo: nat, hi: nat, f: Forest) {
    lo <= hi <= |records| && records[lo..hi] == Post(f)
  }

  // ---- concatenation ------------------------------------------------------

  lemma {:induction false} ConcatEmpty(b: Forest)
    ensures Concat(Empty, b) == b
  {
    if b.Snoc? { ConcatEmpty(b.front); }
  }

  lemma ConcatNone(a: Forest, b: Forest)
    requires b.Empty?
    ensures Concat(a, b) == a
  {}

  lemma ConcatSnoc(a: Forest, b: Forest)
    requires b.Snoc?
    ensures Concat(a, b) == Snoc(Concat(a, b.front), b.id, b.start, b.end, b.kids)
  {}

  lemma {:induction false} ConcatAssoc(a: Forest, b: Forest, c: Forest)
    ensures Concat(Concat(a, b), c) == Concat(a, Concat(b, c))
    decreases c
  {
    if c.Snoc? { ConcatAssoc(a, b, c.front); }
  }

  lemma {:induction false} CountConcat(a: Forest, b: Forest)
    ensures Count(Concat(a, b)) == Count(a) + Count(b)
    decreases b
  {
    if b.Snoc? { CountConcat(a, b.front); }
  }

  lemma {:induction false} PostConcat(a: Forest, b: Forest)
    ensures Post(Concat(a, b)) == Post(a) + Post(b)
  {
    hide Post, Count;
    if b.Empty? {
      NoRecords();
    } else {
      PostConcat(a, b.front);
      PostNode(b);
      PostNode(Concat(a, b));
      var tail := Post(b.kids) + [Record(b.id, b.start, b.end, 1 + Count(b.kids))];
      assert Post(a) + Post(b.front) + tail == Post(a) + (Post(b.front) + tail);
    }
  }

  lemma NoRecords()
    ensures Post(Empty) == []
  {}

  lemma PostNode(f: Forest)
    requires f.Snoc?
    ensures Post(f) == Post(f.front) + (Post(f.kids) + [Record(f.id, f.start, f.end, 1 + Count(f.kids))])
  {
    hide Post, Count;
    PostSnoc(f);
    RecordsAssoc(Post(f.front), Post(f.kids), [Record(f.id, f.start, f.end, 1 + Count(f.kids))]);
  }

  lemma RecordsAssoc(a: seq<Record>, b: seq<Record>, c: seq<Record>)
    ensures a + b + c == a + (b + c)
  {}

  lemma {:induction false} EraseConcat(a: Forest, b: Forest, minRepeat: nat)
    ensures Erase(Concat(a, b), minRepeat) == Concat(Erase(a, minRepeat), Erase(b, minRepeat))
  {
    if b.Snoc? {
      EraseConcat(a, b.front, minRepeat);
      ConcatAssoc(Erase(a, minRepeat), Erase(b.front, minRepeat), Erase(b.kids, minRepeat));
    }
  }

  lemma {:induction false} RepeatsConcat(a: Forest, b: Forest, minRepeat: nat)
    ensures Repeats(Concat(a, b), minRepeat) == Repeats(a, minRepeat) + Repeats(b, minRepeat)
    decreases b
  {
    if b.Snoc? { RepeatsConcat(a, b.front, minRepeat); }
  }

  lemma EmptyRange(records: seq<Record>, lo: nat, f: Forest)
    requires Holds(records, lo, lo, f)
    ensures f == Empty
  {}

  lemma {:induction false} PostLength(f: Forest)
    ensures |Post(f)| == Count(f)
  {
    if f.Snoc? {
      PostLength(f.front);
      PostLength(f.kids);
    }
  }

  /** Every node is either erased or kept. */
  lemma {:induction false} EraseCount(f: Forest, minRepeat: nat)
    ensures Count(Erase(f, minRepeat)) + Repeats(f, minRepeat) == Count(f)
  {
    if f.Snoc? {
      EraseCount(f.front, minRepeat);
      EraseCount(f.kids, minRepeat);
      CountConcat(Erase(f.front, minRepeat), Erase(f.kids, minRepeat));
    }
  }

  lemma Slices<T>(a: seq<T>, b: seq<T>, x: T)
    ensures var s := a + b + [x];
            s[|s| - 1] == x && s[..|a|] == a && s[|a|..|s| - 1] == b && s[|a|..] == b + [x] && s[..|s| - 1] == a + b
  {}

  lemma SubSlice<T>(s: seq<T>, lo: nat, hi: nat, i: nat, j: nat)
    requires lo <= hi <= |s| && i <= j <= hi - lo
    ensures s[lo..hi][i..j] == s[lo + i..lo + j]
  {
    var t := s[lo..hi];
    forall k | 0 <= k < j - i
      ensures t[i..j][k] == s[lo + i..lo + j][k]
    {
      assert t[i + k] == s[lo + (i + k)];
    }
  }

  lemma EmptyLeft<T>(b: seq<T>, x: T)
    ensures [] + b + [x] == b + [x]
  {}

  lemma PostSnoc(f: Forest)
    requires Post(f) != [] || f.Snoc?
    ensures f.Snoc? && Post(f) != []
    ensures Post(f) == Post(f.front) + Post(f.kids) + [Record(f.id, f.start, f.end, 1 + Count(f.kids))]
  {}

  lemma PostEmpty()
    ensures Post(Empty) == []
  {}

  lemma PostSingle(id: nat, start: int, end: int, kids: Forest)
    ensures Post(Single(id, start, end, kids)) == Post(kids) + [Record(id, start, end, 1 + Count(kids))]
  {
    PostEmpty();
    PostSnoc(Single(id, start, end, kids));
    hide Post;
    EmptyLeft(Post(kids), Record(id, start, end, 1 + Count(kids)));
  }

  /** The records of the last tree of a nonempty forest, of what precedes it,
      of its children, and of what is left without its own record. */
  lemma LastRecord(records: seq<Record>, lo: nat, hi: nat, f: Forest)
    requires Holds(records, lo, hi, f) && (lo < hi || f.Snoc?)
    ensures f.Snoc? && lo + 1 + Count(f.kids) <= hi
    ensures records[hi - 1] == Record(f.id, f.start, f.end, 1 + Count(f.kids))
    ensures Holds(records, lo, hi - 1 - Count(f.kids), f.front)
    ensures Holds(records, hi - 1 - Count(f.kids), hi - 1, f.kids)
    ensures Holds(records, hi - 1 - Count(f.kids), hi, Single(f.id, f.start, f.end, f.kids))
    ensures Holds(records, lo, hi - 1, Concat(f.front, f.kids))
  {
    hide Post, Count;
    PostSnoc(f);
    PostSingle(f.id, f.start, f.end, f.kids);
    var a, b, x := Post(f.front), Post(f.kids), Record(f.id, f.start, f.end, 1 + Count(f.kids));
    PostConcat(f.front, f.kids);
    PostLength(f.front);
    PostLength(f.kids);
    Slices(a, b, x);
    SubSlice(records, lo, hi, 0, |a|);
    SubSlice(records, lo, hi, |a|, |a| + |b|);
    SubSlice(records, lo, hi, |a|, hi - lo);
    SubSlice(records, lo, hi, 0, |a| + |b|);
    assert records[hi - 1] == records[lo..hi][hi - lo - 1];
  }

  // ---- taking records from the right --------------------------------------

  /** `n` records can be taken from the right of `f` without splitting a
      non-repeat node; a repeat record is taken alone and leaves its children
      in its place. */
  ghost predicate CanTake(f: Forest, n: nat, minRepeat: nat)
    decreases n
  {
    n == 0 ||
    (f.Snoc? &&
     if f.id >= minRepeat then CanTake(Concat(f.front, f.kids), n - 1, minRepeat)
     else 1 + Count(f.kids) <= n && CanTake(f.front, n - 1 - Count(f.kids), minRepeat))
  }

  /** What is left after taking `n` records. */
  ghost function Rest(f: Forest, n: nat, minRepeat: nat): Forest
    requires CanTake(f, n, minRepeat)
    decreases n
  {
    if n == 0 then f
    else if f.id >= minRepeat then Rest(Concat(f.front, f.kids), n - 1, minRepeat)
    else Rest(f.front, n - 1 - Count(f.kids), minRepeat)
  }

  /** The erased forest of the `n` records taken. */
  ghost function Taken(f: Forest, n: nat, minRepeat: nat): Forest
    requires CanTake(f, n, minRepeat)
    decreases n
  {
    if n == 0 then Empty
    else if f.id >= minRepeat then Taken(Concat(f.front, f.kids), n - 1, minRepeat)
    else Snoc(Taken(f.front, n - 1 - Count(f.kids), minRepeat),
              f.id, f.start, f.end, Erase(f.kids, minRepeat))
  }

  /** Opening a repeat node leaves its siblings and children. */
  lemma OpenRepeat(f: Forest, minRepeat: nat)
    requires f.Snoc? && f.id >= minRepeat
    ensures Erase(f, minRepeat) == Erase(Concat(f.front, f.kids), minRepeat)
    ensures Count(f) == Count(Concat(f.front, f.kids)) + 1
  {
    EraseConcat(f.front, f.kids, minRepeat);
    CountConcat(f.front, f.kids);
  }

  lemma {:induction false} TakeSplits(f: Forest, n: nat, minRepeat: nat)
    requires CanTake(f, n, minRepeat)
    ensures Concat(Erase(Rest(f, n, minRepeat), minRepeat), Taken(f, n, minRepeat)) == Erase(f, minRepeat)
    decreases n
  {
    if n == 0 {
    } else if f.id >= minRepeat {
      OpenRepeat(f, minRepeat);
      TakeSplits(Concat(f.front, f.kids), n - 1, minRepeat);
    } else {
      TakeSplits(f.front, n - 1 - Count(f.kids), minRepeat);
    }
  }

  lemma {:induction false} TakeTwice(f: Forest, n: nat, k: nat, minRepeat: nat)
    requires CanTake(f, n, minRepeat) && CanTake(Rest(f, n, minRepeat), k, minRepeat)
    ensures CanTake(f, n + k, minRepeat)
    ensures Rest(f, n + k, minRepeat) == Rest(Rest(f, n, minRepeat), k, minRepeat)
    ensures Taken(f, n + k, minRepeat)
         == Concat(Taken(Rest(f, n, minRepeat), k, minRepeat), Taken(f, n, minRepeat))
    decreases n
  {
    if n == 0 {
    } else if f.id >= minRepeat {
      TakeTwice(Concat(f.front, f.kids), n - 1, k, minRepeat);
    } else {
      TakeTwice(f.front, n - 1 - Count(f.kids), k, minRepeat);
    }
  }

  /** A whole subforest can always be taken, repeat nodes included. */
  lemma {:induction false} TakeForest(front: Forest, g: Forest, minRepeat: nat)
    ensures CanTake(Concat(front, g), Count(g), minRepeat)
    ensures Rest(Concat(front, g), Count(g), minRepeat) == front
    ensures Taken(Concat(front, g), Count(g), minRepeat) == Erase(g, minRepeat)
    decreases g
  {
    hide CanTake, Rest, Taken, Concat, Erase, Count;
    if g.Snoc? {
      TakeForest(front, g.front, minRepeat);
      if g.id >= minRepeat {
        var outer := Concat(front, g.front);
        TakeForest(outer, g.kids, minRepeat);
        TakeTwice(Concat(outer, g.kids), Count(g.kids), Count(g.front), minRepeat);
        TakeRepeat(front, g, minRepeat);
      } else {
        TakeKept(front, g, minRepeat);
      }
    } else {
      TakeNoForest(front, g, minRepeat);
    }
  }

  lemma TakeNoForest(front: Forest, g: Forest, minRepeat: nat)
    requires g.Empty?
    ensures Concat(front, g) == front && Count(g) == 0 && Erase(g, minRepeat) == Empty
    ensures CanTake(front, 0, minRepeat) && Rest(front, 0, minRepeat) == front && Taken(front, 0, minRepeat) == Empty
  {}

  /** Taking a node that is kept is taking its siblings first. */
  lemma TakeKept(front: Forest, g: Forest, minRepeat: nat)
    requires g.Snoc? && g.id < minRepeat && CanTake(Concat(front, g.front), Count(g.front), minRepeat)
    requires Taken(Concat(front, g.front), Count(g.front), minRepeat) == Erase(g.front, minRepeat)
    ensures CanTake(Concat(front, g), Count(g), minRepeat)
    ensures Rest(Concat(front, g), Count(g), minRepeat) == Rest(Concat(front, g.front), Count(g.front), minRepeat)
    ensures Taken(Concat(front, g), Count(g), minRepeat) == Erase(g, minRepeat)
  {
    var f := Concat(front, g);
    assert f == Snoc(Concat(front, g.front), g.id, g.start, g.end, g.kids);
    assert Count(g) - 1 - Count(g.kids) == Count(g.front);
  }

  /** Taking a repeat node is taking its record and then what it groups. */
  lemma TakeRepeat(front: Forest, g: Forest, minRepeat: nat)
    requires g.Snoc? && g.id >= minRepeat
    ensures Erase(g, minRepeat) == Concat(Erase(g.front, minRepeat), Erase(g.kids, minRepeat))
    ensures var f, inner := Concat(front, g), Concat(Concat(front, g.front), g.kids);
            && (CanTake(f, Count(g), minRepeat) <==> CanTake(inner, Count(g.kids) + Count(g.front), minRepeat))
            && (CanTake(f, Count(g), minRepeat) ==>
                  && Rest(f, Count(g), minRepeat) == Rest(inner, Count(g.kids) + Count(g.front), minRepeat)
                  && Taken(f, Count(g), minRepeat) == Taken(inner, Count(g.kids) + Count(g.front), minRepeat))
  {}

  lemma TakeLast(f: Forest, minRepeat: nat)
    requires f.Snoc?
    ensures CanTake(f, 1 + Count(f.kids), minRepeat)
    ensures Rest(f, 1 + Count(f.kids), minRepeat) == f.front
    ensures Taken(f, 1 + Count(f.kids), minRepeat)
         == Erase(Single(f.id, f.start, f.end, f.kids), minRepeat)
  {
    var g := Single(f.id, f.start, f.end, f.kids);
    assert Concat(f.front, g) == f;
    TakeForest(f.front, g, minRepeat);
    assert Concat(Empty, Erase(f.kids, minRepeat)) == Erase(f.kids, minRepeat) by { ConcatEmpty(Erase(f.kids, minRepeat)); }
  }
}
