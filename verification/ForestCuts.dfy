/** Cuts between the roots of a forest, and where a record can be put into its
    postfix image so that it stays the image of a forest. */
module ForestCuts {
  import opened PostfixForest

  // ---- cuts between roots -------------------------------------------------

  /** The first `n` records are whole trees. */
  ghost predicate Boundary(f: Forest, n: nat) {
    n == Count(f) || (f.Snoc? && Boundary(f.front, n))
  }

  /** The roots before a cut. */
  ghost function Before(f: Forest, n: nat): Forest
    requires Boundary(f, n)
  {
    if n == Count(f) then f else Before(f.front, n)
  }

  /** The roots after a cut. */
  ghost function Since(f: Forest, n: nat): Forest
    requires Boundary(f, n)
  {
    if n == Count(f) then Empty else Snoc(Since(f.front, n), f.id, f.start, f.end, f.kids)
  }

  lemma {:induction false} CutForest(f: Forest, n: nat)
    requires Boundary(f, n)
    ensures Concat(Before(f, n), Since(f, n)) == f && n <= Count(f)
    ensures Count(Before(f, n)) == n && Count(Since(f, n)) == Count(f) - n
  {
    if n != Count(f) { CutForest(f.front, n); }
  }

  lemma {:induction false} JoinedBoundary(a: Forest, b: Forest, n: nat)
    ensures Boundary(Concat(a, b), Count(a) + n) <==> Boundary(b, n)
    decreases b
  {
    CountConcat(a, b);
    if b.Snoc? {
      JoinedBoundary(a, b.front, n);
    } else if Boundary(a, Count(a) + n) {
      CutForest(a, Count(a) + n);
    }
  }

  lemma {:induction false} EarlierBoundary(a: Forest, b: Forest, n: nat)
    requires n <= Count(a)
    ensures Boundary(Concat(a, b), n) <==> Boundary(a, n)
    decreases b
  {
    CountConcat(a, b);
    if b.Snoc? { EarlierBoundary(a, b.front, n); }
  }

  lemma {:induction false} CutUnique(a: Forest, b: Forest)
    ensures Boundary(Concat(a, b), Count(a))
    ensures Before(Concat(a, b), Count(a)) == a && Since(Concat(a, b), Count(a)) == b
    decreases b
  {
    CountConcat(a, b);
    if b.Snoc? { CutUnique(a, b.front); }
  }

  lemma CutRecords(f: Forest, n: nat)
    requires Boundary(f, n)
    ensures n <= |Post(f)| == Count(f)
    ensures Post(f)[..n] == Post(Before(f, n)) && Post(f)[n..] == Post(Since(f, n))
  {
    hide Post, Count, Boundary, Before, Since, Concat;
    CutForest(f, n);
    PostConcat(Before(f, n), Since(f, n));
    PostLength(Before(f, n));
    PostLength(f);
  }

  // ---- records determine their forest -------------------------------------

  lemma {:induction false} PostInjective(f: Forest, g: Forest)
    requires Post(f) == Post(g)
    ensures f == g
    decreases f
  {
    hide Post, Count, Concat;
    PostLength(f);
    PostLength(g);
    var n := |Post(f)|;
    if n == 0 {
      assert f.Empty? by { if f.Snoc? { PostSnoc(f); } }
      assert g.Empty? by { if g.Snoc? { PostSnoc(g); } }
    } else {
      assert Holds(Post(f), 0, n, f) && Holds(Post(f), 0, n, g);
      LastRecord(Post(f), 0, n, f);
      LastRecord(Post(f), 0, n, g);
      PostInjective(f.front, g.front);
      PostInjective(f.kids, g.kids);
    }
  }

  // ---- putting a node over roots ------------------------------------------

  /** The forest once a node has been stored `k` records in: over the roots
      between `first` and there, or over none when it went further down. */
  ghost function Covered(f: Forest, first: nat, k: nat, id: nat, start: int, end: int): Forest
    requires Boundary(f, first) && Boundary(f, k)
  {
    var left := Before(f, k);
    if first <= k then
      WithinBefore(f, first, k);
      Concat(Snoc(Before(left, first), id, start, end, Since(left, first)), Since(f, k))
    else Concat(Snoc(left, id, start, end, Empty), Since(f, k))
  }

  lemma WithinBefore(f: Forest, m: nat, n: nat)
    requires Boundary(f, m) && Boundary(f, n) && m <= n
    ensures Boundary(Before(f, n), m)
    ensures Before(Before(f, n), m) == Before(f, m)
  {
    hide Count, Concat, Boundary, Before, Since;
    CutForest(f, n);
    EarlierBoundary(Before(f, n), Since(f, n), m);
    SameBefore(Before(f, n), Since(f, n), m);
  }

  lemma {:induction false} SameBefore(a: Forest, b: Forest, n: nat)
    requires n <= Count(a) && Boundary(a, n)
    ensures Boundary(Concat(a, b), n) && Before(Concat(a, b), n) == Before(a, n)
    decreases b
  {
    CountConcat(a, b);
    if b.Snoc? {
      SameBefore(a, b.front, n);
      assert Concat(a, b).front == Concat(a, b.front);
    }
  }

  lemma OverRecords(f: Forest, first: nat, id: nat, start: int, end: int)
    requires Boundary(f, first)
    ensures first <= Count(f)
    ensures Post(Snoc(Before(f, first), id, start, end, Since(f, first)))
         == Post(f) + [Record(id, start, end, Count(f) - first + 1)]
  {
    hide Post, Count, Boundary, Before, Since;
    CutForest(f, first);
    CutRecords(f, first);
    PostSnoc(Snoc(Before(f, first), id, start, end, Since(f, first)));
    assert Post(f)[..first] + Post(f)[first..] == Post(f);
  }

  lemma LeafRecords(f: Forest, id: nat, start: int, end: int)
    ensures Post(Snoc(f, id, start, end, Empty)) == Post(f) + [Record(id, start, end, 1)]
  {
    hide Post;
    PostSnoc(Snoc(f, id, start, end, Empty));
    PostEmpty();
    assert Post(f) + [] == Post(f);
  }

  /** The records of that forest: the node counts the records it covers. */
  lemma CoveredRecords(f: Forest, first: nat, k: nat, id: nat, start: int, end: int)
    requires Boundary(f, first) && Boundary(f, k)
    ensures k <= |Post(f)|
    ensures Post(Covered(f, first, k, id, start, end))
         == Post(f)[..k] + [Record(id, start, end, if first <= k then k - first + 1 else 1)] + Post(f)[k..]
  {
    hide Post, Count, Boundary, Before, Since, Concat;
    var left, right := Before(f, k), Since(f, k);
    CutForest(f, k);
    CutRecords(f, k);
    if first <= k {
      WithinBefore(f, first, k);
      OverRecords(left, first, id, start, end);
      PostConcat(Snoc(Before(left, first), id, start, end, Since(left, first)), right);
    } else {
      LeafRecords(left, id, start, end);
      PostConcat(Snoc(left, id, start, end, Empty), right);
    }
  }

  /** What the cuts of the roots are once the node is in: those below it stay,
      those above it would have to move up by one. */
  lemma CoveredBoundary(f: Forest, first: nat, k: nat, id: nat, start: int, end: int, n: nat)
    requires Boundary(f, first) && Boundary(f, k) && Boundary(f, n) && n <= first
    ensures n <= k ==> Boundary(Covered(f, first, k, id, start, end), n)
    ensures n > k ==> (Boundary(Covered(f, first, k, id, start, end), n) <==> Boundary(f, n - 1))
  {
    hide Count, Boundary, Before, Since, Concat;
    var left, right := Before(f, k), Since(f, k);
    CutForest(f, k);
    if n <= k {
      WithinBefore(f, n, k);
      if first <= k {
        WithinBefore(f, first, k);
        CutForest(left, first);
        WithinBefore(left, n, first);
        RootBoundary(Before(left, first), id, start, end, Since(left, first), n);
        EarlierBoundary(Snoc(Before(left, first), id, start, end, Since(left, first)), right, n);
      } else {
        RootBoundary(left, id, start, end, Empty, n);
        EarlierBoundary(Snoc(left, id, start, end, Empty), right, n);
      }
    } else {
      LeafCount(left, id, start, end);
      JoinedBoundary(Snoc(left, id, start, end, Empty), right, n - k - 1);
      JoinedBoundary(left, right, n - k - 1);
    }
  }

  lemma RootBoundary(f: Forest, id: nat, start: int, end: int, kids: Forest, n: nat)
    requires Boundary(f, n) && n <= Count(f)
    ensures Boundary(Snoc(f, id, start, end, kids), n) && n <= Count(Snoc(f, id, start, end, kids))
  {}

  lemma LeafCount(f: Forest, id: nat, start: int, end: int)
    ensures Count(Snoc(f, id, start, end, Empty)) == Count(f) + 1
  {}

  lemma TopBoundary(f: Forest)
    ensures Boundary(f, Count(f)) && |Post(f)| == Count(f)
  {
    PostLength(f);
  }

  lemma {:induction false} ZeroBoundary(f: Forest)
    ensures Boundary(f, 0)
  {
    if f.Snoc? { ZeroBoundary(f.front); }
  }

  // ---- room inside trees --------------------------------------------------

  lemma {:induction false} SizeFits(f: Forest, i: nat)
    requires i < |Post(f)|
    ensures Post(f)[i].size <= i + 1
    decreases f
  {
    hide Count;
    if f.Snoc? {
      PostLength(f.front);
      PostLength(f.kids);
      PostSnoc(f);
      if i < |Post(f.front)| {
        SizeFits(f.front, i);
      } else if i < |Post(f.front)| + |Post(f.kids)| {
        SizeFits(f.kids, i - |Post(f.front)|);
      }
    }
  }

  function Ins<T>(a: seq<T>, k: nat, x: T): seq<T>
    requires k <= |a|
  {
    a[..k] + [x] + a[k..]
  }

  lemma InsLength<T>(a: seq<T>, k: nat, x: T)
    requires k <= |a|
    ensures |Ins(a, k, x)| == |a| + 1
  {}

  lemma InsSlices<T>(a: seq<T>, k: nat, x: T, b: seq<T>, c: nat)
    requires k < |a| && c < |a| && b == Ins(a, k, x)
    ensures |b| == |a| + 1 && b[|a|] == a[|a| - 1]
    ensures k < c ==> b[..c + 1] == Ins(a[..c], k, x)
    ensures k > c ==> b[c + 1..|a|][k - c - 1] == x
  {}

  /** The records of the last tree of a forest. */
  lemma LastParts(f: Forest)
    requires f.Snoc? || Post(f) != []
    ensures f.Snoc? && |Post(f)| == Count(f) && Count(f.kids) < Count(f)
    ensures var c: nat := Count(f) - 1 - Count(f.kids);
            && Post(f.front) == Post(f)[..c] && Post(f.kids) == Post(f)[c..|Post(f)| - 1]
            && Post(f)[|Post(f)| - 1].size == 1 + Count(f.kids)
  {
    hide Post, Count;
    PostSnoc(f);
    PostLength(f);
    PostLength(f.front);
    PostLength(f.kids);
    Slices(Post(f.front), Post(f.kids), Record(f.id, f.start, f.end, 1 + Count(f.kids)));
  }

  /** Inside a tree there is no room for a node over roots before it. */
  lemma {:induction false} NoRoom(f: Forest, first: nat, k: nat, r: Record, g: Forest)
    requires Boundary(f, first) && first <= k <= |Post(f)| && r.size == k - first + 1
    requires Post(g) == Ins(Post(f), k, r)
    ensures Boundary(f, k)
    decreases f
  {
    hide Post, Count, Ins;
    InsLength(Post(f), k, r);
    TopBoundary(f);
    if k < Count(f) {
      LastParts(f);
      LastParts(g);
      EarlierCut(f, first, k);
      var c: nat := Count(f) - 1 - Count(f.kids);
      InsSlices(Post(f), k, r, Post(g), c);
      if k < c {
        NoRoom(f.front, first, k, r, g.front);
      } else if k > c {
        SizeFits(g.kids, k - c - 1);
      } else {
        TopBoundary(f.front);
      }
    }
  }

  lemma EarlierCut(f: Forest, first: nat, k: nat)
    requires f.Snoc? && Boundary(f, first) && first <= k < Count(f)
    ensures Boundary(f.front, first) && first <= Count(f.front)
    ensures |Post(f)| - 1 - Count(f.kids) == Count(f.front)
  {
    PostLength(f);
    CutForest(f.front, first);
  }

  // ---- putting a record in ------------------------------------------------

  lemma InsFront<T>(p: seq<T>, q: seq<T>, z: T, k: nat, x: T)
    requires k <= |p|
    ensures Ins(p + q + [z], k, x) == Ins(p, k, x) + q + [z]
  {
    Cuts(p, q + [z], k);
    assert p + q + [z] == p + (q + [z]);
    Joins(p[..k] + [x], p[k..], q, [z]);
  }

  lemma Cuts<T>(p: seq<T>, q: seq<T>, k: nat)
    requires k <= |p|
    ensures (p + q)[..k] == p[..k] && (p + q)[k..] == p[k..] + q
  {}

  lemma CutsLater<T>(p: seq<T>, q: seq<T>, k: nat)
    requires |p| <= k <= |p| + |q|
    ensures (p + q)[..k] == p + q[..k - |p|] && (p + q)[k..] == q[k - |p|..]
  {}

  lemma Joins<T>(a: seq<T>, b: seq<T>, c: seq<T>, d: seq<T>)
    ensures a + (b + (c + d)) == a + b + c + d
  {}

  lemma InsMiddle<T>(p: seq<T>, q: seq<T>, z: T, k: nat, x: T)
    requires |p| <= k <= |p| + |q|
    ensures Ins(p + q + [z], k, x) == p + Ins(q, k - |p|, x) + [z]
  {
    CutsLater(p, q + [z], k);
    Cuts(q, [z], k - |p|);
    assert p + q + [z] == p + (q + [z]);
    var a, b := q[..k - |p|] + [x], q[k - |p|..];
    assert p + q[..k - |p|] + [x] == p + a;
    assert p + a + (b + [z]) == p + (a + b) + [z];
  }

  lemma InsEnd<T>(a: seq<T>, x: T)
    ensures Ins(a, |a|, x) == a + [x]
  {}

  lemma InsHead<T>(a: seq<T>, k: nat, x: T)
    requires 0 < k <= |a|
    ensures Ins(a, k, x) == [a[0]] + Ins(a, k, x)[1..] && |Ins(a, k, x)[1..]| == |a|
  {}

  lemma TailOf<T>(a: seq<T>, b: seq<T>, c: seq<T>)
    requires a != []
    ensures (a + b + c)[1..] == a[1..] + b + c
  {}

  lemma SameParts<T>(a: seq<T>, b: seq<T>, y: T, c: seq<T>, d: seq<T>, z: T)
    requires a + b + [y] == c + d + [z]
    ensures y == z && a + b == c + d
    ensures |b| == |d| ==> a == c && b == d
  {
    var all := a + b + [y];
    assert all[|all| - 1] == y && (c + d + [z])[|c + d + [z]| - 1] == z;
    assert all[..|all| - 1] == a + b && (c + d + [z])[..|c + d + [z]| - 1] == c + d;
    if |b| == |d| {
      assert (a + b)[..|a|] == a && (c + d)[..|c|] == c;
      assert (a + b)[|a|..] == b && (c + d)[|c|..] == d;
    }
  }

  function Own(f: Forest): Record
    requires f.Snoc?
  {
    Record(f.id, f.start, f.end, 1 + Count(f.kids))
  }

  /** The records of a forest, in parts. */
  lemma Parts(f: Forest)
    requires f.Snoc? || Post(f) != []
    ensures f.Snoc? && Post(f) == Post(f.front) + Post(f.kids) + [Own(f)]
    ensures |Post(f)| == Count(f) && |Post(f.front)| == Count(f.front) && |Post(f.kids)| == Count(f.kids)
    ensures Count(f) == Count(f.front) + Count(f.kids) + 1
  {
    hide Post;
    PostSnoc(f);
    PostLength(f);
    PostLength(f.front);
    PostLength(f.kids);
  }

  // ---- the first tree -----------------------------------------------------

  /** The first of the trees is a leaf. */
  ghost predicate LeafFirst(g: Forest) {
    g.Snoc? && if g.front.Empty? then g.kids.Empty? else LeafFirst(g.front)
  }

  /** The trees after the first. */
  ghost function AfterFirst(g: Forest): Forest {
    if g.Empty? || g.front.Empty? then Empty else Snoc(AfterFirst(g.front), g.id, g.start, g.end, g.kids)
  }

  lemma {:induction false} DropLeaf(g: Forest)
    requires LeafFirst(g)
    ensures Post(g) != [] && Post(AfterFirst(g)) == Post(g)[1..]
    decreases g
  {
    hide Post, Count;
    Parts(g);
    PostEmpty();
    if g.front.Empty? {
      assert Post(g)[1..] == [];
    } else {
      DropLeaf(g.front);
      PostSnoc(AfterFirst(g));
      TailOf(Post(g.front), Post(g.kids), [Own(g)]);
    }
  }

  /** The first record of a forest is always a leaf. */
  lemma {:induction false} FirstRecord(g: Forest)
    requires g.Snoc?
    ensures Post(g) != [] && Post(g)[0].size == 1
    decreases g
  {
    hide Post;
    Parts(g);
    PostEmpty();
    if g.front.Snoc? {
      FirstRecord(g.front);
    } else if g.kids.Snoc? {
      FirstRecord(g.kids);
    }
  }

  /** Without its first record a forest is one only if it begins with a leaf. */
  lemma {:induction false} DropWhole(g: Forest, h: Forest)
    requires g.Snoc? && Post(g) != [] && Post(h) == Post(g)[1..]
    ensures LeafFirst(g)
    decreases g
  {
    hide Post, Count;
    Parts(g);
    PostEmpty();
    if g.front.Empty? {
      if g.kids.Snoc? {
        Parts(g.kids);
        var kids := Post(g.kids);
        assert [] + kids + [Own(g)] == kids + [Own(g)];
        assert (kids + [Own(g)])[1..] == kids[1..] + [] + [Own(g)];
        Parts(h);
        SameParts(Post(h.front), Post(h.kids), Own(h), kids[1..], [], Own(g));
      }
    } else {
      Parts(g.front);
      TailOf(Post(g.front), Post(g.kids), [Own(g)]);
      Parts(h);
      SameParts(Post(h.front), Post(h.kids), Own(h), Post(g.front)[1..], Post(g.kids), Own(g));
      DropWhole(g.front, h.front);
    }
  }

  // ---- sinking into a tree ------------------------------------------------

  /** A leaf put in at `k` pushes the first record of the forest out, and what
      is left is a forest: each node around the place, like the forest itself,
      begins with a leaf, or the place is inside its first tree. */
  ghost predicate MakesRoom(g: Forest, k: nat)
    requires 0 < k <= Count(g)
    decreases g
  {
    var c := Count(g.front);
    if k <= c then MakesRoom(g.front, k)
    else if k == Count(g) then LeafFirst(g)
    else (g.front.Empty? || LeafFirst(g.front)) && MakesRoom(g.kids, k - c)
  }

  /** A leaf can be put in at `k`: between roots, or into a tree that makes room. */
  ghost predicate CanSink(f: Forest, k: nat) {
    || Boundary(f, k)
    || (&& f.Snoc?
        && if k < Count(f.front) then CanSink(f.front, k)
           else Count(f.front) < k < Count(f) && MakesRoom(f.kids, k - Count(f.front)))
  }

  lemma {:induction false} RoomMade(g: Forest, k: nat, x: Record) returns (h: Forest)
    requires 0 < k <= Count(g) && MakesRoom(g, k) && x.size == 1
    ensures k <= |Post(g)| && Post(h) == Ins(Post(g), k, x)[1..] && Count(h) == Count(g)
    decreases g
  {
    hide Post, Count, Ins, LeafFirst, AfterFirst;
    assert g.Snoc? by { CountNone(); }
    Parts(g);
    var c := Count(g.front);
    if k <= c {
      var inner := RoomMade(g.front, k, x);
      h := Snoc(inner, g.id, g.start, g.end, g.kids);
      PostSnoc(h);
      InsFront(Post(g.front), Post(g.kids), Own(g), k, x);
      InsHead(Post(g.front), k, x);
      TailOf(Ins(Post(g.front), k, x), Post(g.kids), [Own(g)]);
    } else if k == Count(g) {
      h := RoomAtEnd(g, x);
    } else {
      var inner := RoomMade(g.kids, k - c, x);
      if g.front.Empty? {
        CountNone();
        h := RoomInFirst(g, k, x, inner);
      } else {
        h := RoomInside(g, k, x, inner);
      }
    }
    PostLength(h);
    SameLength(Post(g), k, x);
  }

  lemma CountNone()
    ensures Count(Empty) == 0 && Post(Empty) == []
  {}

  lemma RoomAtEnd(g: Forest, x: Record) returns (h: Forest)
    requires LeafFirst(g) && x.size == 1
    ensures Post(g) != [] && Post(h) == Ins(Post(g), |Post(g)|, x)[1..]
  {
    hide Post, Ins, LeafFirst, AfterFirst;
    DropLeaf(g);
    h := Snoc(AfterFirst(g), x.id, x.start, x.end, Empty);
    LeafRecords(AfterFirst(g), x.id, x.start, x.end);
    InsEnd(Post(g), x);
    assert (Post(g) + [x])[1..] == Post(g)[1..] + [x];
  }

  lemma RoomInFirst(g: Forest, k: nat, x: Record, inner: Forest) returns (h: Forest)
    requires g.Snoc? && g.front.Empty? && 0 < k <= |Post(g.kids)|
    requires Post(inner) == Ins(Post(g.kids), k, x)[1..] && Count(inner) == Count(g.kids)
    ensures k < |Post(g)| && Post(h) == Ins(Post(g), k, x)[1..]
  {
    hide Post, Count, Ins;
    CountNone();
    Parts(g);
    var kids := Post(g.kids);
    InsMiddle([], kids, Own(g), k, x);
    InsHead(kids, k, x);
    h := Snoc(Empty, g.id, g.start, g.end, inner);
    PostSnoc(h);
    assert ([] + Ins(kids, k, x) + [Own(g)])[1..] == [] + Ins(kids, k, x)[1..] + [Own(g)];
  }

  lemma RoomInside(g: Forest, k: nat, x: Record, inner: Forest) returns (h: Forest)
    requires g.Snoc? && LeafFirst(g.front) && Count(g.front) < k <= Count(g.front) + |Post(g.kids)|
    requires Post(inner) == Ins(Post(g.kids), k - Count(g.front), x)[1..] && Count(inner) == Count(g.kids)
    ensures k < |Post(g)| && Post(h) == Ins(Post(g), k, x)[1..]
  {
    hide Post, Count, Ins, LeafFirst, AfterFirst;
    Parts(g);
    var front, kids, j := Post(g.front), Post(g.kids), k - Count(g.front);
    assert g.kids.Snoc? by { CountNone(); }
    FirstRecord(g.kids);
    DropLeaf(g.front);
    InsMiddle(front, kids, Own(g), k, x);
    InsHead(kids, j, x);
    var y := kids[0];
    var left := Snoc(AfterFirst(g.front), y.id, y.start, y.end, Empty);
    LeafRecords(AfterFirst(g.front), y.id, y.start, y.end);
    h := Snoc(left, g.id, g.start, g.end, inner);
    PostSnoc(h);
    TailOf(front, Ins(kids, j, x), [Own(g)]);
    HeadMoved(front[1..], y, Ins(kids, j, x)[1..], Own(g));
  }

  lemma SameLength<T>(a: seq<T>, k: nat, x: T)
    requires 0 < k <= |a|
    ensures |Ins(a, k, x)[1..]| == |a|
  {}

  lemma HeadMoved<T>(a: seq<T>, y: T, b: seq<T>, z: T)
    ensures a + ([y] + b) + [z] == (a + [y]) + b + [z]
  {}

  lemma {:induction false} RoomNeeded(g: Forest, k: nat, x: Record, h: Forest)
    requires 0 < k <= |Post(g)| == Count(g) && x.size == 1
    requires Post(h) == Ins(Post(g), k, x)[1..]
    ensures MakesRoom(g, k)
    decreases g
  {
    hide Post, Count, Ins, LeafFirst;
    PostEmpty();
    SameLength(Post(g), k, x);
    Parts(g);
    Parts(h);
    var front, kids := Post(g.front), Post(g.kids);
    var c := Count(g.front);
    if k <= c {
      InsFront(front, kids, Own(g), k, x);
      InsHead(front, k, x);
      TailOf(Ins(front, k, x), kids, [Own(g)]);
      SameParts(Post(h.front), Post(h.kids), Own(h), Ins(front, k, x)[1..], kids, Own(g));
      RoomNeeded(g.front, k, x, h.front);
    } else if k == Count(g) {
      InsEnd(Post(g), x);
      assert (Post(g) + [x])[1..] == Post(g)[1..] + [] + [x];
      SameParts(Post(h.front), Post(h.kids), Own(h), Post(g)[1..], [], x);
      DropWhole(g, h.front);
    } else {
      InsMiddle(front, kids, Own(g), k, x);
      InsHead(kids, k - c, x);
      if g.front.Empty? {
        assert ([] + Ins(kids, k, x) + [Own(g)])[1..] == [] + Ins(kids, k, x)[1..] + [Own(g)];
        SameParts(Post(h.front), Post(h.kids), Own(h), [], Ins(kids, k, x)[1..], Own(g));
      } else {
        Parts(g.front);
        FirstRecord(g.kids);
        var y := kids[0];
        TailOf(front, Ins(kids, k - c, x), [Own(g)]);
        HeadMoved(front[1..], y, Ins(kids, k - c, x)[1..], Own(g));
        SameParts(Post(h.front), Post(h.kids), Own(h), front[1..] + [y], Ins(kids, k - c, x)[1..], Own(g));
        Parts(h.front);
        assert front[1..] + [y] == front[1..] + [] + [y];
        SameParts(Post(h.front.front), Post(h.front.kids), Own(h.front), front[1..], [], y);
        DropWhole(g.front, h.front.front);
      }
      RoomNeeded(g.kids, k - c, x, h.kids);
    }
  }

  /** What cuts are left once a leaf is in at `k`: those below stay, those above
      move up by one. */
  ghost predicate CutsMoved(f: Forest, k: nat, h: Forest) {
    forall n: nat | Boundary(f, n) ::
      && (n <= k ==> Boundary(h, n))
      && (n > k ==> (Boundary(h, n) <==> Boundary(f, n - 1)))
  }

  lemma {:induction false} SunkInto(f: Forest, k: nat, x: Record) returns (h: Forest)
    requires CanSink(f, k) && !Boundary(f, k) && x.size == 1
    ensures k <= |Post(f)| && Post(h) == Ins(Post(f), k, x) && Count(h) == Count(f) + 1
    ensures CutsMoved(f, k, h)
    decreases f
  {
    hide Post, Count, Ins, MakesRoom, CutsMoved;
    Parts(f);
    var front, kids := Post(f.front), Post(f.kids);
    var c := Count(f.front);
    if k < c {
      var inner := SunkInto(f.front, k, x);
      h := Snoc(inner, f.id, f.start, f.end, f.kids);
      InsFront(front, kids, Own(f), k, x);
      SnocCount(h);
      PostSnoc(h);
      MovedNext(f, k, inner, h);
    } else {
      var inner := RoomMade(f.kids, k - c, x);
      InsMiddle(front, kids, Own(f), k, x);
      InsHead(kids, k - c, x);
      assert f.kids.Snoc? by { PostEmpty(); }
      FirstRecord(f.kids);
      var y := kids[0];
      var left := Snoc(f.front, y.id, y.start, y.end, Empty);
      LeafRecords(f.front, y.id, y.start, y.end);
      LeafCount(f.front, y.id, y.start, y.end);
      h := Snoc(left, f.id, f.start, f.end, inner);
      SnocCount(h);
      PostSnoc(h);
      HeadMoved(front, y, Ins(kids, k - c, x)[1..], Own(f));
      MovedInside(f, k, left, h);
    }
  }

  lemma SnocCount(h: Forest)
    requires h.Snoc?
    ensures Count(h) == Count(h.front) + Count(h.kids) + 1
  {}

  lemma MovedNext(f: Forest, k: nat, inner: Forest, h: Forest)
    requires f.Snoc? && h.Snoc? && h.front == inner && h.kids == f.kids && k < Count(f.front)
    requires CutsMoved(f.front, k, inner) && Count(inner) == Count(f.front) + 1
    ensures CutsMoved(f, k, h)
  {
    hide Count;
    SnocCount(f);
    SnocCount(h);
    forall n: nat | Boundary(f, n)
      ensures (n <= k ==> Boundary(h, n)) && (n > k ==> (Boundary(h, n) <==> Boundary(f, n - 1)))
    {
      if n == Count(f) {
        if Boundary(inner, n) { CutForest(inner, n); }
        if Boundary(f.front, n - 1) { CutForest(f.front, n - 1); }
      } else {
        CutForest(f.front, n);
      }
    }
  }

  lemma MovedInside(f: Forest, k: nat, left: Forest, h: Forest)
    requires f.Snoc? && h.Snoc? && h.front == left && Count(f.front) < k < Count(f)
    requires left.Snoc? && left.front == f.front && Count(left) == Count(f.front) + 1 && Count(h) == Count(f) + 1
    ensures CutsMoved(f, k, h)
  {
    hide Count;
    SnocCount(f);
    forall n: nat | Boundary(f, n)
      ensures (n <= k ==> Boundary(h, n)) && (n > k ==> (Boundary(h, n) <==> Boundary(f, n - 1)))
    {
      if n == Count(f) {
        if Boundary(f.front, n) { CutForest(f.front, n); }
        if Boundary(f.front, n - 1) { CutForest(f.front, n - 1); }
      } else {
        CutForest(f.front, n);
      }
    }
  }

  lemma {:induction false} SunkNeeded(f: Forest, k: nat, x: Record, h: Forest)
    requires k <= |Post(f)| && x.size == 1 && Post(h) == Ins(Post(f), k, x)
    ensures CanSink(f, k)
    decreases f
  {
    hide Post, Count, Ins, MakesRoom;
    PostEmpty();
    PostLength(f);
    if k < Count(f) {
      Parts(f);
      assert Post(h) != [] by { InsLength(Post(f), k, x); }
      Parts(h);
      var front, kids := Post(f.front), Post(f.kids);
      var c := Count(f.front);
      if k < c {
        InsFront(front, kids, Own(f), k, x);
        SameParts(Post(h.front), Post(h.kids), Own(h), Ins(front, k, x), kids, Own(f));
        SunkNeeded(f.front, k, x, h.front);
      } else if k > c {
        InsMiddle(front, kids, Own(f), k, x);
        InsHead(kids, k - c, x);
        HeadMoved(front, kids[0], Ins(kids, k - c, x)[1..], Own(f));
        SameParts(Post(h.front), Post(h.kids), Own(h), front + [kids[0]], Ins(kids, k - c, x)[1..], Own(f));
        RoomNeeded(f.kids, k - c, x, h.kids);
      } else {
        TopBoundary(f.front);
      }
    }
  }

  // ---- exactly where a node can go ----------------------------------------

  /** Where a node over the records since `first` can be put in: between roots;
      or, below `first` as a leaf, also into a tree that makes room. */
  ghost predicate CanPut(f: Forest, first: nat, k: nat) {
    if first <= k then Boundary(f, k) else CanSink(f, k)
  }

  function PutSize(first: nat, k: nat): nat {
    if first <= k then k - first + 1 else 1
  }

  /** Of the cuts up to `first`, those below the node stay, and those above it
      would have to move up by one. */
  ghost predicate CutsBelow(f: Forest, first: nat, k: nat, h: Forest) {
    forall n: nat | Boundary(f, n) && n <= first ::
      && (n <= k ==> Boundary(h, n))
      && (n > k ==> (Boundary(h, n) <==> Boundary(f, n - 1)))
  }

  lemma PutIn(f: Forest, first: nat, k: nat, id: nat, start: int, end: int) returns (h: Forest)
    requires Boundary(f, first) && CanPut(f, first, k)
    ensures k <= |Post(f)| && Post(h) == Ins(Post(f), k, Record(id, start, end, PutSize(first, k)))
    ensures Boundary(f, k) ==> h == Covered(f, first, k, id, start, end)
    ensures CutsBelow(f, first, k, h)
  {
    hide Post, Boundary, Covered, CanSink;
    if Boundary(f, k) {
      h := Covered(f, first, k, id, start, end);
      CoveredRecords(f, first, k, id, start, end);
      forall n: nat | Boundary(f, n) && n <= first
        ensures (n <= k ==> Boundary(h, n)) && (n > k ==> (Boundary(h, n) <==> Boundary(f, n - 1)))
      {
        CoveredBoundary(f, first, k, id, start, end, n);
      }
    } else {
      h := SunkInto(f, k, Record(id, start, end, 1));
    }
  }

  lemma PutNeeded(f: Forest, first: nat, k: nat, r: Record, h: Forest)
    requires Boundary(f, first) && k <= |Post(f)| && r.size == PutSize(first, k)
    requires Post(h) == Ins(Post(f), k, r)
    ensures CanPut(f, first, k)
  {
    hide Post, Boundary, CanSink;
    if first <= k {
      NoRoom(f, first, k, r, h);
    } else {
      SunkNeeded(f, k, r, h);
    }
  }
}
