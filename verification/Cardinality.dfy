/** How many matching direct children a node can have, over all derivations of
    the normalised grammar. */
module Cardinality {
  import opened Counting
  import opened Options

  /** The sentinel for "no finite derivation known". */
  const USIZE_MAX: nat := 0xFFFF_FFFF_FFFF_FFFF

  /** Terms are numbered; `visible[t]` marks syntax nodes, whose own children are
      not looked into, and `productions[t]` lists the alternatives of a term. */
  datatype Grammar = Grammar(visible: seq<bool>, productions: seq<seq<seq<nat>>>)

  ghost predicate WellFormed(g: Grammar) {
    && |g.visible| == |g.productions| <= 0x1_0000
    && forall t, p, i | 0 <= t < |g.productions| && 0 <= p < |g.productions[t]| && 0 <= i < |g.productions[t][p]| ::
         g.productions[t][p][i] < |g.productions|
  }

  /** A term that is expanded through its productions. */
  predicate Expands(g: Grammar, t: nat) {
    t < |g.visible| && t < |g.productions| && !g.visible[t] && g.productions[t] != []
  }

  // ---- derivations --------------------------------------------------------------------

  /** A derivation stops at visible terms and at terms without productions. */
  datatype Derivation = Leaf(term: nat) | Branch(term: nat, production: nat, parts: Derivations)

  datatype Derivations = Nil | Cons(head: Derivation, tail: Derivations)

  ghost predicate Derives(g: Grammar, d: Derivation) {
    match d
    case Leaf(t) => t < |g.productions| && t < |g.visible| && !Expands(g, t)
    case Branch(t, p, parts) =>
      Expands(g, t) && p < |g.productions[t]| && DerivesAll(g, parts, g.productions[t][p])
  }

  ghost predicate DerivesAll(g: Grammar, ds: Derivations, terms: seq<nat>) {
    match ds
    case Nil => terms == []
    case Cons(head, tail) =>
      terms != [] && head.term == terms[0] && Derives(g, head) && DerivesAll(g, tail, terms[1..])
  }

  /** How many leaves of a derivation match: the visible ones in `targets`. */
  ghost function Count(g: Grammar, targets: set<nat>, d: Derivation): nat {
    match d
    case Leaf(t) => LeafCount(g, targets, t)
    case Branch(_, _, parts) => CountAll(g, targets, parts)
  }

  function LeafCount(g: Grammar, targets: set<nat>, t: nat): nat {
    if t < |g.visible| && g.visible[t] && t in targets then 1 else 0
  }

  ghost function CountAll(g: Grammar, targets: set<nat>, ds: Derivations): nat {
    match ds
    case Nil => 0
    case Cons(head, tail) => Count(g, targets, head) + CountAll(g, targets, tail)
  }

  ghost function Height(d: Derivation): nat {
    match d
    case Leaf(_) => 0
    case Branch(_, _, parts) => 1 + HeightAll(parts)
  }

  ghost function HeightAll(ds: Derivations): nat {
    match ds
    case Nil => 0
    case Cons(head, tail) => if Height(head) > HeightAll(tail) then Height(head) else HeightAll(tail)
  }

  // ---- short derivations ----------------------------------------------------------------

  /** The terms expanded in a derivation. */
  ghost function Uses(d: Derivation): set<nat> {
    match d
    case Leaf(_) => {}
    case Branch(t, _, parts) => {t} + UsesAll(parts)
  }

  ghost function UsesAll(ds: Derivations): set<nat> {
    match ds
    case Nil => {}
    case Cons(head, tail) => Uses(head) + UsesAll(tail)
  }

  /** The first derivation of `t` inside `ds` ... */
  ghost function InnerOf(ds: Derivations, t: nat): Derivation
    requires t in UsesAll(ds)
  {
    if t in Uses(ds.head) then
      if ds.head.term == t then ds.head else InnerOf(ds.head.parts, t)
    else InnerOf(ds.tail, t)
  }

  /** ... and `ds` with `x` in its place. */
  ghost function SwapIn(ds: Derivations, t: nat, x: Derivation): Derivations
    requires t in UsesAll(ds)
  {
    if t in Uses(ds.head) then
      if ds.head.term == t then Cons(x, ds.tail)
      else Cons(Branch(ds.head.term, ds.head.production, SwapIn(ds.head.parts, t, x)), ds.tail)
    else Cons(ds.head, SwapIn(ds.tail, t, x))
  }

  lemma {:induction false} Inner(g: Grammar, targets: set<nat>, ds: Derivations, terms: seq<nat>, t: nat)
    requires DerivesAll(g, ds, terms) && t in UsesAll(ds)
    ensures var d := InnerOf(ds, t);
            && Derives(g, d) && d.term == t && d.Branch? && d < ds
            && Uses(d) <= UsesAll(ds) && Count(g, targets, d) <= CountAll(g, targets, ds)
    decreases ds
  {
    if t in Uses(ds.head) {
      if ds.head.term != t {
        Inner(g, targets, ds.head.parts, g.productions[ds.head.term][ds.head.production], t);
      }
    } else {
      Inner(g, targets, ds.tail, terms[1..], t);
    }
  }

  lemma {:induction false} Swap(g: Grammar, targets: set<nat>, ds: Derivations, terms: seq<nat>, t: nat, x: Derivation)
    requires DerivesAll(g, ds, terms) && t in UsesAll(ds) && Derives(g, x) && x.term == t
    ensures DerivesAll(g, SwapIn(ds, t, x), terms)
    ensures CountAll(g, targets, SwapIn(ds, t, x)) + Count(g, targets, InnerOf(ds, t))
         == CountAll(g, targets, ds) + Count(g, targets, x)
    decreases ds
  {
    if t in Uses(ds.head) {
      if ds.head.term != t {
        Swap(g, targets, ds.head.parts, g.productions[ds.head.term][ds.head.production], t, x);
      }
    } else {
      Swap(g, targets, ds.tail, terms[1..], t, x);
    }
  }

  /** No derivation of `t` counts more than `bound`. */
  ghost predicate BoundedBy(g: Grammar, targets: set<nat>, t: nat, bound: nat) {
    forall d | Derives(g, d) && d.term == t :: Count(g, targets, d) <= bound
  }

  /** A derivation that counts more than one of the same term inside it can be
      pumped to any count. */
  lemma {:induction false} Pump(g: Grammar, targets: set<nat>, d: Derivation, n: nat) returns (large: Derivation)
    requires Derives(g, d) && d.Branch? && d.term in UsesAll(d.parts)
    requires Count(g, targets, InnerOf(d.parts, d.term)) < Count(g, targets, d)
    ensures Derives(g, large) && large.term == d.term && Count(g, targets, large) >= n
  {
    if n == 0 {
      large := d;
    } else {
      var smaller := Pump(g, targets, d, n - 1);
      Swap(g, targets, d.parts, g.productions[d.term][d.production], d.term, smaller);
      large := Branch(d.term, d.production, SwapIn(d.parts, d.term, smaller));
    }
  }

  /** Where counts are bounded, shortening a derivation loses nothing. */
  lemma {:induction false} ShortenKeeps(g: Grammar, targets: set<nat>, d: Derivation, allowed: set<nat>, bound: nat)
    returns (short: Derivation)
    requires Derives(g, d) && Uses(d) <= allowed
    requires forall t | t in Uses(d) :: BoundedBy(g, targets, t, bound)
    ensures Derives(g, short) && short.term == d.term
    ensures Count(g, targets, short) == Count(g, targets, d)
    ensures Height(short) <= |allowed|
    decreases |allowed|, d, 1
  {
    match d
    case Leaf(_) => short := d;
    case Branch(t, p, parts) =>
      if t in UsesAll(parts) {
        Inner(g, targets, parts, g.productions[t][p], t);
        if Count(g, targets, InnerOf(parts, t)) < Count(g, targets, d) {
          var large := Pump(g, targets, d, bound + 1);
          assert false;
        }
        short := ShortenKeeps(g, targets, InnerOf(parts, t), allowed, bound);
      } else {
        var shortParts := ShortenKeepsAll(g, targets, parts, g.productions[t][p], allowed - {t}, bound);
        short := Branch(t, p, shortParts);
      }
  }

  lemma {:induction false} ShortenKeepsAll(g: Grammar, targets: set<nat>, ds: Derivations, terms: seq<nat>,
                                           allowed: set<nat>, bound: nat)
    returns (short: Derivations)
    requires DerivesAll(g, ds, terms) && UsesAll(ds) <= allowed
    requires forall t | t in UsesAll(ds) :: BoundedBy(g, targets, t, bound)
    ensures DerivesAll(g, short, terms)
    ensures CountAll(g, targets, short) == CountAll(g, targets, ds)
    ensures HeightAll(short) <= |allowed|
    decreases |allowed|, ds, 0
  {
    match ds
    case Nil => short := Nil;
    case Cons(head, tail) =>
      var first := ShortenKeeps(g, targets, head, allowed, bound);
      var rest := ShortenKeepsAll(g, targets, tail, terms[1..], allowed, bound);
      short := Cons(first, rest);
  }

  /** Every derivation has one of the same term that counts no more and is no
      higher than the number of terms it may expand: cut out what lies between
      two expansions of one term on a path. */
  lemma {:induction false} Shorten(g: Grammar, targets: set<nat>, d: Derivation, allowed: set<nat>)
    returns (short: Derivation)
    requires Derives(g, d) && Uses(d) <= allowed
    ensures Derives(g, short) && short.term == d.term && Uses(short) <= allowed
    ensures Count(g, targets, short) <= Count(g, targets, d)
    ensures Height(short) <= |allowed|
    decreases |allowed|, d, 1
  {
    match d
    case Leaf(_) => short := d;
    case Branch(t, p, parts) =>
      if t in UsesAll(parts) {
        Inner(g, targets, parts, g.productions[t][p], t);
        short := Shorten(g, targets, InnerOf(parts, t), allowed);
      } else {
        var shortParts := ShortenAll(g, targets, parts, g.productions[t][p], allowed - {t});
        short := Branch(t, p, shortParts);
      }
  }

  lemma {:induction false} ShortenAll(g: Grammar, targets: set<nat>, ds: Derivations, terms: seq<nat>, allowed: set<nat>)
    returns (short: Derivations)
    requires DerivesAll(g, ds, terms) && UsesAll(ds) <= allowed
    ensures DerivesAll(g, short, terms) && UsesAll(short) <= allowed
    ensures CountAll(g, targets, short) <= CountAll(g, targets, ds)
    ensures HeightAll(short) <= |allowed|
    decreases |allowed|, ds, 0
  {
    match ds
    case Nil => short := Nil;
    case Cons(head, tail) =>
      var first := Shorten(g, targets, head, allowed);
      var rest := ShortenAll(g, targets, tail, terms[1..], allowed);
      short := Cons(first, rest);
  }

  lemma {:induction false} UsesBelow(g: Grammar, d: Derivation)
    requires Derives(g, d)
    ensures Uses(d) <= Below(|g.productions|)
    decreases d
  {
    if d.Branch? {
      UsesAllBelow(g, d.parts, g.productions[d.term][d.production]);
    }
  }

  lemma {:induction false} UsesAllBelow(g: Grammar, ds: Derivations, terms: seq<nat>)
    requires DerivesAll(g, ds, terms)
    ensures UsesAll(ds) <= Below(|g.productions|)
    decreases ds
  {
    if ds.Cons? {
      UsesBelow(g, ds.head);
      UsesAllBelow(g, ds.tail, terms[1..]);
    }
  }

  // ---- sums of known values ---------------------------------------------------------

  function PlainSum(terms: seq<nat>, values: seq<nat>): nat
    requires forall i | 0 <= i < |terms| :: terms[i] < |values|
  {
    if terms == [] then 0 else PlainSum(terms[..|terms| - 1], values) + values[terms[|terms| - 1]]
  }

  predicate AllKnown(terms: seq<nat>, values: seq<nat>)
    requires forall i | 0 <= i < |terms| :: terms[i] < |values|
  {
    forall i | 0 <= i < |terms| :: values[terms[i]] != USIZE_MAX
  }

  lemma {:induction false} PlainSumMonotone(terms: seq<nat>, values: seq<nat>, n: nat)
    requires forall i | 0 <= i < |terms| :: terms[i] < |values|
    requires n <= |terms|
    ensures PlainSum(terms[..n], values) <= PlainSum(terms, values)
  {
    if n < |terms| {
      assert terms[..|terms| - 1][..n] == terms[..n];
      PlainSumMonotone(terms[..|terms| - 1], values, n);
    } else {
      assert terms[..n] == terms;
    }
  }

  /** The sum over a production, unless a part is unknown or the sum overflows. */
  method SumKnown(terms: seq<nat>, values: seq<nat>) returns (sum: Option<nat>)
    requires forall i | 0 <= i < |terms| :: terms[i] < |values|
    ensures sum == if AllKnown(terms, values) && PlainSum(terms, values) <= USIZE_MAX
                   then Some(PlainSum(terms, values)) else None
  {
    var total := 0;
    var i := 0;
    while i < |terms|
      invariant 0 <= i <= |terms|
      invariant total == PlainSum(terms[..i], values) <= USIZE_MAX
      invariant forall j | 0 <= j < i :: values[terms[j]] != USIZE_MAX
    {
      var value := values[terms[i]];
      if value == USIZE_MAX {
        return None;
      }
      assert terms[..i + 1][..i] == terms[..i];
      if total + value > USIZE_MAX {
        PlainSumMonotone(terms, values, i + 1);
        return None;
      }
      total := total + value;
      i := i + 1;
    }
    assert terms[..|terms|] == terms;
    sum := Some(total);
  }

  lemma {:induction false} PlainSumFirst(terms: seq<nat>, values: seq<nat>)
    requires forall i | 0 <= i < |terms| :: terms[i] < |values|
    requires terms != []
    ensures PlainSum(terms, values) == values[terms[0]] + PlainSum(terms[1..], values)
  {
    var n := |terms| - 1;
    if n > 0 {
      PlainSumFirst(terms[..n], values);
      assert terms[1..][..n - 1] == terms[..n][1..];
    } else {
      assert terms[..0] == [] && terms[1..] == [];
    }
  }

  // ---- the minimum -----------------------------------------------------------------------

  /** `values` is at most the count of every derivation of height up to `k`. */
  ghost predicate UpTo(g: Grammar, targets: set<nat>, values: seq<nat>, k: nat) {
    forall d | Derives(g, d) && Height(d) <= k && d.term < |values| :: values[d.term] <= Count(g, targets, d)
  }

  /** Every known value is the count of some derivation. */
  ghost predicate Attained(g: Grammar, targets: set<nat>, values: seq<nat>) {
    forall t | 0 <= t < |values| && values[t] < USIZE_MAX ::
      exists d :: Derives(g, d) && d.term == t && Count(g, targets, d) == values[t]
  }

  /** `values[t]` is the least count over all derivations of `t`, or the sentinel
      when every derivation counts at least as much as that. */
  ghost predicate IsMinimum(g: Grammar, targets: set<nat>, values: seq<nat>) {
    && |values| == |g.productions| && (forall t | 0 <= t < |values| :: values[t] <= USIZE_MAX)
    && Attained(g, targets, values)
    && forall d | Derives(g, d) && d.term < |values| :: values[d.term] <= Count(g, targets, d)
  }

  lemma {:induction false} SumBelow(g: Grammar, targets: set<nat>, values: seq<nat>, ds: Derivations, terms: seq<nat>, k: nat)
    requires |values| == |g.productions| && forall i | 0 <= i < |terms| :: terms[i] < |values|
    requires DerivesAll(g, ds, terms) && HeightAll(ds) <= k && UpTo(g, targets, values, k)
    requires CountAll(g, targets, ds) < USIZE_MAX
    ensures AllKnown(terms, values) && PlainSum(terms, values) <= CountAll(g, targets, ds)
    decreases ds
  {
    if ds.Cons? {
      SumBelow(g, targets, values, ds.tail, terms[1..], k);
      PlainSumFirst(terms, values);
      forall i | 0 <= i < |terms|
        ensures values[terms[i]] != USIZE_MAX
      {
        assert i > 0 ==> terms[i] == terms[1..][i - 1];
      }
    }
  }

  lemma {:induction false} SumAttained(g: Grammar, targets: set<nat>, values: seq<nat>, terms: seq<nat>) returns (ds: Derivations)
    requires |values| == |g.productions| && forall i | 0 <= i < |terms| :: terms[i] < |values|
    requires Attained(g, targets, values) && AllKnown(terms, values)
    requires forall t | 0 <= t < |values| :: values[t] <= USIZE_MAX
    ensures DerivesAll(g, ds, terms) && CountAll(g, targets, ds) == PlainSum(terms, values)
  {
    if terms == [] {
      ds := Nil;
    } else {
      assert forall i | 0 <= i < |terms[1..]| :: terms[1..][i] == terms[i + 1];
      var tail := SumAttained(g, targets, values, terms[1..]);
      var head :| Derives(g, head) && head.term == terms[0] && Count(g, targets, head) == values[terms[0]];
      PlainSumFirst(terms, values);
      ds := Cons(head, tail);
    }
  }

  /** The best candidate of the productions of one term. */
  method BestCandidate(g: Grammar, alternatives: seq<seq<nat>>, values: seq<nat>) returns (best: Option<nat>)
    requires forall p, i | 0 <= p < |alternatives| && 0 <= i < |alternatives[p]| :: alternatives[p][i] < |values|
    ensures best.Some? ==> exists p :: 0 <= p < |alternatives| && AllKnown(alternatives[p], values)
                                    && best.value == PlainSum(alternatives[p], values) <= USIZE_MAX
    ensures forall p | 0 <= p < |alternatives| && AllKnown(alternatives[p], values)
              && PlainSum(alternatives[p], values) <= USIZE_MAX ::
              best.Some? && best.value <= PlainSum(alternatives[p], values)
  {
    hide AllKnown;
    best := None;
    var p := 0;
    while p < |alternatives|
      invariant 0 <= p <= |alternatives|
      invariant best.Some? ==> exists q :: 0 <= q < p && AllKnown(alternatives[q], values)
                                        && best.value == PlainSum(alternatives[q], values) <= USIZE_MAX
      invariant forall q | 0 <= q < p && AllKnown(alternatives[q], values) && PlainSum(alternatives[q], values) <= USIZE_MAX ::
                  best.Some? && best.value <= PlainSum(alternatives[q], values)
    {
      var sum := SumKnown(alternatives[p], values);
      if sum.Some? && (best.None? || sum.value < best.value) {
        best := sum;
      }
      p := p + 1;
    }
  }

  /** No production of `t` would lower its value. */
  ghost predicate ClosedAt(g: Grammar, values: seq<nat>, t: nat)
    requires WellFormed(g) && |values| == |g.productions| && t < |values|
  {
    Expands(g, t) ==>
      forall p | 0 <= p < |g.productions[t]| && AllKnown(g.productions[t][p], values)
        && PlainSum(g.productions[t][p], values) <= USIZE_MAX ::
        values[t] <= PlainSum(g.productions[t][p], values)
  }

  /** Within a round: terms before `term` are already one level further. */
  ghost predicate InRound(g: Grammar, targets: set<nat>, values: seq<nat>, k: nat, term: nat) {
    forall d | Derives(g, d) && d.term < |values| && Height(d) <= (if d.term < term then k + 1 else k) ::
      values[d.term] <= Count(g, targets, d)
  }

  ghost predicate Sane(g: Grammar, targets: set<nat>, values: seq<nat>) {
    && |values| == |g.productions| && (forall t | 0 <= t < |values| :: values[t] <= USIZE_MAX)
    && Attained(g, targets, values)
    && forall t | 0 <= t < |values| && !Expands(g, t) :: values[t] == LeafCount(g, targets, t)
  }

  /** One update of one term keeps the values sane and gains a level. */
  lemma RoundStep(g: Grammar, targets: set<nat>, values: seq<nat>, k: nat, term: nat, best: Option<nat>)
    requires WellFormed(g) && Sane(g, targets, values) && InRound(g, targets, values, k, term)
    requires term < |values| && Expands(g, term)
    requires best.Some? ==> exists p :: 0 <= p < |g.productions[term]| && AllKnown(g.productions[term][p], values)
                                     && best.value == PlainSum(g.productions[term][p], values) <= USIZE_MAX
    requires forall p | 0 <= p < |g.productions[term]| && AllKnown(g.productions[term][p], values)
               && PlainSum(g.productions[term][p], values) <= USIZE_MAX ::
               best.Some? && best.value <= PlainSum(g.productions[term][p], values)
    ensures var values' := if best.Some? && best.value < values[term] then values[term := best.value] else values;
            Sane(g, targets, values') && InRound(g, targets, values', k, term + 1)
  {
    hide AllKnown, LeafCount, Sane, InRound;
    if best.Some? && best.value < values[term] {
      RoundLowers(g, targets, values, k, term, best.value);
    } else {
      RoundKeeps(g, targets, values, k, term, best);
    }
  }

  /** A derivation of `term` has at least the sum of one of its productions. */
  lemma BranchAbove(g: Grammar, targets: set<nat>, values: seq<nat>, k: nat, term: nat, d: Derivation, bound: nat)
    requires WellFormed(g) && Sane(g, targets, values) && InRound(g, targets, values, k, term)
    requires term < |values| && Expands(g, term) && bound <= USIZE_MAX
    requires forall p | 0 <= p < |g.productions[term]| && AllKnown(g.productions[term][p], values)
               && PlainSum(g.productions[term][p], values) <= USIZE_MAX :: bound <= PlainSum(g.productions[term][p], values)
    requires Derives(g, d) && d.term == term && Height(d) <= k + 1
    ensures bound <= Count(g, targets, d)
  {
    hide AllKnown, LeafCount, Attained;
    if Count(g, targets, d) < USIZE_MAX {
      assert d.Branch?;
      assert UpTo(g, targets, values, k);
      SumBelow(g, targets, values, d.parts, g.productions[term][d.production], k);
    }
  }

  lemma RoundKeeps(g: Grammar, targets: set<nat>, values: seq<nat>, k: nat, term: nat, best: Option<nat>)
    requires WellFormed(g) && Sane(g, targets, values) && InRound(g, targets, values, k, term)
    requires term < |values| && Expands(g, term) && (best.Some? ==> best.value >= values[term])
    requires forall p | 0 <= p < |g.productions[term]| && AllKnown(g.productions[term][p], values)
               && PlainSum(g.productions[term][p], values) <= USIZE_MAX ::
               best.Some? && best.value <= PlainSum(g.productions[term][p], values)
    ensures InRound(g, targets, values, k, term + 1)
  {
    hide AllKnown, LeafCount, Attained;
    forall d | Derives(g, d) && d.term < |values| && Height(d) <= (if d.term < term + 1 then k + 1 else k)
      ensures values[d.term] <= Count(g, targets, d)
    {
      if d.term == term {
        BranchAbove(g, targets, values, k, term, d, values[term]);
      }
    }
  }

  lemma RoundLowers(g: Grammar, targets: set<nat>, values: seq<nat>, k: nat, term: nat, best: nat)
    requires WellFormed(g) && Sane(g, targets, values) && InRound(g, targets, values, k, term)
    requires term < |values| && Expands(g, term) && best < values[term]
    requires exists p :: 0 <= p < |g.productions[term]| && AllKnown(g.productions[term][p], values)
                         && best == PlainSum(g.productions[term][p], values) <= USIZE_MAX
    requires forall p | 0 <= p < |g.productions[term]| && AllKnown(g.productions[term][p], values)
               && PlainSum(g.productions[term][p], values) <= USIZE_MAX :: best <= PlainSum(g.productions[term][p], values)
    ensures Sane(g, targets, values[term := best]) && InRound(g, targets, values[term := best], k, term + 1)
  {
    hide AllKnown, LeafCount;
    var values' := values[term := best];
    forall d | Derives(g, d) && d.term < |values'| && Height(d) <= (if d.term < term + 1 then k + 1 else k)
      ensures values'[d.term] <= Count(g, targets, d)
    {
      if d.term == term {
        BranchAbove(g, targets, values, k, term, d, best);
      }
    }
    LoweredAttained(g, targets, values, term, best);
  }

  lemma LoweredAttained(g: Grammar, targets: set<nat>, values: seq<nat>, term: nat, best: nat)
    requires WellFormed(g) && Sane(g, targets, values)
    requires term < |values| && Expands(g, term) && best < values[term]
    requires exists p :: 0 <= p < |g.productions[term]| && AllKnown(g.productions[term][p], values)
                         && best == PlainSum(g.productions[term][p], values) <= USIZE_MAX
    ensures Sane(g, targets, values[term := best])
  {
    hide AllKnown, LeafCount;
    var values' := values[term := best];
    var p :| 0 <= p < |g.productions[term]| && AllKnown(g.productions[term][p], values)
      && best == PlainSum(g.productions[term][p], values);
    var ds := SumAttained(g, targets, values, g.productions[term][p]);
    var d := Branch(term, p, ds);
    assert Derives(g, d) && Count(g, targets, d) == values'[term];
    forall t | 0 <= t < |values'| && values'[t] < USIZE_MAX
      ensures exists e :: Derives(g, e) && e.term == t && Count(g, targets, e) == values'[t]
    {
      if t != term {
        assert values'[t] == values[t];
      }
    }
  }

  /** The values before the first round. */
  method InitialMinimum(g: Grammar, targets: set<nat>) returns (minimum: seq<nat>)
    requires WellFormed(g)
    ensures Sane(g, targets, minimum) && UpTo(g, targets, minimum, 0)
  {
    hide LeafCount;
    minimum := [];
    while |minimum| < |g.productions|
      invariant |minimum| <= |g.productions|
      invariant forall t | 0 <= t < |minimum| ::
                  minimum[t] == if Expands(g, t) then USIZE_MAX else LeafCount(g, targets, t)
    {
      var term := |minimum|;
      LeafCountIs(g, targets, term);
      if g.visible[term] {
        minimum := minimum + [if term in targets then 1 else 0];
      } else if g.productions[term] == [] {
        minimum := minimum + [0];
      } else {
        minimum := minimum + [USIZE_MAX];
      }
    }
    forall t | 0 <= t < |minimum| && minimum[t] < USIZE_MAX
      ensures exists d :: Derives(g, d) && d.term == t && Count(g, targets, d) == minimum[t]
    {
      assert Derives(g, Leaf(t)) && Count(g, targets, Leaf(t)) == minimum[t];
    }
    forall t | 0 <= t < |minimum| ensures minimum[t] <= USIZE_MAX { LeafCountIs(g, targets, t); }
  }

  lemma LeafCountIs(g: Grammar, targets: set<nat>, t: nat)
    requires t < |g.visible|
    ensures LeafCount(g, targets, t) == (if g.visible[t] && t in targets then 1 else 0)
  {}

  /** When no production lowers any value, the values are below every count. */
  lemma {:induction false} ClosedIsMinimum(g: Grammar, targets: set<nat>, values: seq<nat>, d: Derivation)
    requires WellFormed(g) && Sane(g, targets, values) && forall t | 0 <= t < |values| :: ClosedAt(g, values, t)
    requires Derives(g, d) && d.term < |values|
    ensures values[d.term] <= Count(g, targets, d)
    decreases d, 1
  {
    if d.Branch? {
      if Count(g, targets, d) < USIZE_MAX {
        ClosedSum(g, targets, values, d.parts, g.productions[d.term][d.production]);
        assert ClosedAt(g, values, d.term);
      }
    }
  }

  lemma {:induction false} ClosedSum(g: Grammar, targets: set<nat>, values: seq<nat>, ds: Derivations, terms: seq<nat>)
    requires WellFormed(g) && Sane(g, targets, values) && forall t | 0 <= t < |values| :: ClosedAt(g, values, t)
    requires DerivesAll(g, ds, terms) && CountAll(g, targets, ds) < USIZE_MAX
    requires forall i | 0 <= i < |terms| :: terms[i] < |values|
    ensures AllKnown(terms, values) && PlainSum(terms, values) <= CountAll(g, targets, ds)
    decreases ds, 0
  {
    hide ClosedAt, Sane;
    if ds.Cons? {
      ClosedIsMinimum(g, targets, values, ds.head);
      ClosedSum(g, targets, values, ds.tail, terms[1..]);
      PlainSumFirst(terms, values);
      forall i | 0 <= i < |terms|
        ensures values[terms[i]] != USIZE_MAX
      {
        assert i > 0 ==> terms[i] == terms[1..][i - 1];
      }
    }
  }

  /** As many rounds as there are terms reach every derivation: each has a short
      one that counts no more. */
  lemma RoundsSuffice(g: Grammar, targets: set<nat>, values: seq<nat>, k: nat)
    requires WellFormed(g) && Sane(g, targets, values) && UpTo(g, targets, values, k) && k >= |g.productions|
    ensures IsMinimum(g, targets, values)
  {
    forall d | Derives(g, d) && d.term < |values|
      ensures values[d.term] <= Count(g, targets, d)
    {
      UsesBelow(g, d);
      var short := Shorten(g, targets, d, Below(|g.productions|));
    }
  }

  lemma ClosedSuffices(g: Grammar, targets: set<nat>, values: seq<nat>)
    requires WellFormed(g) && Sane(g, targets, values) && forall t | 0 <= t < |values| :: ClosedAt(g, values, t)
    ensures IsMinimum(g, targets, values)
  {
    hide ClosedAt;
    forall d | Derives(g, d) && d.term < |values|
      ensures values[d.term] <= Count(g, targets, d)
    {
      ClosedIsMinimum(g, targets, values, d);
    }
  }

  lemma RoundEnds(g: Grammar, targets: set<nat>, values: seq<nat>, k: nat)
    requires |values| == |g.productions|
    ensures UpTo(g, targets, values, k) <==> InRound(g, targets, values, k, 0)
    ensures InRound(g, targets, values, k, |values|) ==> UpTo(g, targets, values, k + 1)
  {}

  /** Relax the minimum in place, one round for each term and one more unless a
      round changes nothing first. That always reaches the least count over all
      finite derivations. */
  method ComputeMinimum(g: Grammar, targets: set<nat>) returns (minimum: seq<nat>)
    requires WellFormed(g)
    ensures IsMinimum(g, targets, minimum)
  {
    hide UpTo, InRound, Sane, ClosedAt, AllKnown, IsMinimum;
    var termCount := |g.productions|;
    minimum := InitialMinimum(g, targets);
    SaneLength(g, targets, minimum);
    var round := 0;
    while round <= termCount
      invariant 0 <= round <= termCount + 1 && |minimum| == termCount
      invariant Sane(g, targets, minimum) && UpTo(g, targets, minimum, round)
    {
      var changed := false;
      RoundEnds(g, targets, minimum, round);
      var term := 0;
      while term < termCount
        invariant 0 <= term <= termCount == |minimum|
        invariant Sane(g, targets, minimum) && InRound(g, targets, minimum, round, term)
        invariant !changed ==> forall t | 0 <= t < term :: ClosedAt(g, minimum, t)
      {
        if g.visible[term] || g.productions[term] == [] {
          SkipTerm(g, targets, minimum, round, term);
        } else {
          var candidate := BestCandidate(g, g.productions[term], minimum);
          RoundStep(g, targets, minimum, round, term, candidate);
          if candidate.Some? && candidate.value < minimum[term] {
            minimum := minimum[term := candidate.value];
            changed := true;
          } else {
            CandidateClosed(g, minimum, term, candidate);
          }
        }
        term := term + 1;
      }
      RoundEnds(g, targets, minimum, round);
      round := round + 1;
      if !changed {
        ClosedSuffices(g, targets, minimum);
        return;
      }
    }
    RoundsSuffice(g, targets, minimum, round);
  }

  lemma SaneLength(g: Grammar, targets: set<nat>, values: seq<nat>)
    requires Sane(g, targets, values)
    ensures |values| == |g.productions|
  {}

  lemma SkipTerm(g: Grammar, targets: set<nat>, values: seq<nat>, k: nat, term: nat)
    requires WellFormed(g) && Sane(g, targets, values) && InRound(g, targets, values, k, term)
    requires term < |values| && !Expands(g, term)
    ensures InRound(g, targets, values, k, term + 1) && ClosedAt(g, values, term)
  {
    hide LeafCount;
    forall d | Derives(g, d) && d.term == term
      ensures values[term] == Count(g, targets, d)
    {
      assert d.Leaf?;
    }
  }

  lemma CandidateClosed(g: Grammar, values: seq<nat>, term: nat, best: Option<nat>)
    requires WellFormed(g) && |values| == |g.productions| && term < |values|
    requires best.None? || best.value >= values[term]
    requires forall p | 0 <= p < |g.productions[term]| && AllKnown(g.productions[term][p], values)
               && PlainSum(g.productions[term][p], values) <= USIZE_MAX ::
               best.Some? && best.value <= PlainSum(g.productions[term][p], values)
    ensures ClosedAt(g, values, term)
  {
    hide AllKnown;
  }

  // ---- the maximum -----------------------------------------------------------------------

  function Min(a: nat, b: nat): nat {
    if a < b then a else b
  }

  /** A sum that saturates at `cap`, part by part. */
  method CappedSum(terms: seq<nat>, values: seq<nat>, cap: nat) returns (sum: nat)
    requires forall i | 0 <= i < |terms| :: terms[i] < |values|
    ensures sum == Min(PlainSum(terms, values), cap)
  {
    sum := 0;
    var i := 0;
    while i < |terms|
      invariant 0 <= i <= |terms|
      invariant sum == Min(PlainSum(terms[..i], values), cap)
    {
      assert terms[..i + 1][..i] == terms[..i];
      sum := Min(sum + values[terms[i]], cap);
      i := i + 1;
    }
    assert terms[..|terms|] == terms;
  }

  /** One simultaneous step: every expanded term gets the largest capped sum of
      its productions. */
  ghost predicate IsNext(g: Grammar, current: seq<nat>, cap: nat, next: seq<nat>)
    requires WellFormed(g) && |current| == |g.productions|
  {
    && |next| == |current|
    && (forall t | 0 <= t < |next| && !Expands(g, t) :: next[t] == current[t])
    && (forall t, p | 0 <= t < |next| && Expands(g, t) && 0 <= p < |g.productions[t]| ::
          Min(PlainSum(g.productions[t][p], current), cap) <= next[t])
    && forall t | 0 <= t < |next| && Expands(g, t) :: Reaches(g.productions[t], current, cap, next[t])
  }

  ghost predicate Reaches(alternatives: seq<seq<nat>>, current: seq<nat>, cap: nat, value: nat)
    requires forall p, i | 0 <= p < |alternatives| && 0 <= i < |alternatives[p]| :: alternatives[p][i] < |current|
  {
    exists p :: 0 <= p < |alternatives| && Min(PlainSum(alternatives[p], current), cap) == value
  }

  method LargestSum(alternatives: seq<seq<nat>>, current: seq<nat>, cap: nat) returns (largest: nat)
    requires forall p, i | 0 <= p < |alternatives| && 0 <= i < |alternatives[p]| :: alternatives[p][i] < |current|
    requires alternatives != []
    ensures forall p | 0 <= p < |alternatives| :: Min(PlainSum(alternatives[p], current), cap) <= largest
    ensures Reaches(alternatives, current, cap, largest)
  {
    hide Min;
    largest := CappedSum(alternatives[0], current, cap);
    var p := 1;
    while p < |alternatives|
      invariant 1 <= p <= |alternatives|
      invariant forall q | 0 <= q < p :: Min(PlainSum(alternatives[q], current), cap) <= largest
      invariant exists q :: 0 <= q < p && Min(PlainSum(alternatives[q], current), cap) == largest
    {
      var sum := CappedSum(alternatives[p], current, cap);
      if sum > largest {
        largest := sum;
      }
      p := p + 1;
    }
  }

  method NextMaximum(g: Grammar, current: seq<nat>, cap: nat) returns (next: seq<nat>)
    requires WellFormed(g) && |current| == |g.productions|
    ensures IsNext(g, current, cap, next)
  {
    hide Min, Reaches;
    next := current;
    var term := 0;
    while term < |current|
      invariant 0 <= term <= |current| == |next|
      invariant forall t | 0 <= t < |next| && (t >= term || !Expands(g, t)) :: next[t] == current[t]
      invariant forall t, p | 0 <= t < term && Expands(g, t) && 0 <= p < |g.productions[t]| ::
                  Min(PlainSum(g.productions[t][p], current), cap) <= next[t]
      invariant forall t | 0 <= t < term && Expands(g, t) :: Reaches(g.productions[t], current, cap, next[t])
    {
      if !g.visible[term] && g.productions[term] != [] {
        var largest := LargestSum(g.productions[term], current, cap);
        next := next[term := largest];
      }
      term := term + 1;
    }
  }

  /** The bound of every derivation: `None` is no bound. */
  ghost predicate IsUpperBound(g: Grammar, targets: set<nat>, maximum: seq<Option<nat>>) {
    && |maximum| == |g.productions|
    && forall d | Derives(g, d) && d.term < |maximum| && maximum[d.term].Some? ::
         Count(g, targets, d) <= maximum[d.term].value
  }

  /** Every value is reached by some derivation, if all terms have one. */
  ghost predicate Reached(g: Grammar, targets: set<nat>, values: seq<nat>) {
    forall t | 0 <= t < |values| :: ReachedAt(g, targets, t, values[t])
  }

  ghost predicate ReachedAt(g: Grammar, targets: set<nat>, t: nat, value: nat) {
    exists d :: Derives(g, d) && d.term == t && value <= Count(g, targets, d)
  }

  ghost predicate Productive(g: Grammar) {
    forall t | 0 <= t < |g.productions| :: HasDerivation(g, t)
  }

  ghost predicate HasDerivation(g: Grammar, t: nat) {
    exists d :: Derives(g, d) && d.term == t
  }

  lemma {:induction false} SumReached(g: Grammar, targets: set<nat>, values: seq<nat>, terms: seq<nat>) returns (ds: Derivations)
    requires forall i | 0 <= i < |terms| :: terms[i] < |values|
    requires Reached(g, targets, values)
    ensures DerivesAll(g, ds, terms) && PlainSum(terms, values) <= CountAll(g, targets, ds)
  {
    if terms == [] {
      ds := Nil;
    } else {
      assert forall i | 0 <= i < |terms[1..]| :: terms[1..][i] == terms[i + 1];
      var tail := SumReached(g, targets, values, terms[1..]);
      assert ReachedAt(g, targets, terms[0], values[terms[0]]);
      var head :| Derives(g, head) && head.term == terms[0] && values[terms[0]] <= Count(g, targets, head);
      PlainSumFirst(terms, values);
      ds := Cons(head, tail);
    }
  }

  lemma NextReached(g: Grammar, targets: set<nat>, current: seq<nat>, cap: nat, next: seq<nat>)
    requires WellFormed(g) && |current| == |g.productions| && IsNext(g, current, cap, next)
    requires Reached(g, targets, current)
    ensures Reached(g, targets, next)
  {
    forall t | 0 <= t < |next|
      ensures ReachedAt(g, targets, t, next[t])
    {
      if Expands(g, t) {
        var p :| 0 <= p < |g.productions[t]| && Min(PlainSum(g.productions[t][p], current), cap) == next[t];
        var ds := SumReached(g, targets, current, g.productions[t][p]);
        var d := Branch(t, p, ds);
        assert Derives(g, d) && Count(g, targets, d) == CountAll(g, targets, ds);
      } else {
        assert next[t] == current[t];
      }
    }
  }

  /** Terms not marked form a set closed under productions, on which a step adds
      nothing and the cap is not reached. */
  ghost predicate Settled(g: Grammar, targets: set<nat>, current: seq<nat>, next: seq<nat>, cap: nat, unbounded: seq<bool>)
    requires WellFormed(g) && |current| == |g.productions|
  {
    && |unbounded| == |current| && IsNext(g, current, cap, next)
    && (forall t | 0 <= t < |current| && !Expands(g, t) :: current[t] == LeafCount(g, targets, t))
    && (forall t | 0 <= t < |current| && !unbounded[t] :: current[t] < cap && next[t] <= current[t])
    && (forall t, p, i | 0 <= t < |current| && !unbounded[t] && Expands(g, t) && 0 <= p < |g.productions[t]|
          && 0 <= i < |g.productions[t][p]| :: !unbounded[g.productions[t][p][i]])
  }

  /** On a settled set the values bound every derivation. */
  lemma {:induction false} SettledBounds(g: Grammar, targets: set<nat>, current: seq<nat>, next: seq<nat>, cap: nat,
                                         unbounded: seq<bool>, d: Derivation)
    requires WellFormed(g) && |current| == |g.productions| && Settled(g, targets, current, next, cap, unbounded)
    requires Derives(g, d) && d.term < |current| && !unbounded[d.term]
    ensures Count(g, targets, d) <= current[d.term]
    decreases d, 1
  {
    if d.Branch? {
      SettledSum(g, targets, current, next, cap, unbounded, d.parts, g.productions[d.term][d.production]);
    }
  }

  lemma {:induction false} SettledSum(g: Grammar, targets: set<nat>, current: seq<nat>, next: seq<nat>, cap: nat,
                                      unbounded: seq<bool>, ds: Derivations, terms: seq<nat>)
    requires WellFormed(g) && |current| == |g.productions| && Settled(g, targets, current, next, cap, unbounded)
    requires DerivesAll(g, ds, terms) && forall i | 0 <= i < |terms| :: terms[i] < |current| && !unbounded[terms[i]]
    ensures CountAll(g, targets, ds) <= PlainSum(terms, current)
    decreases ds, 0
  {
    hide Settled;
    if ds.Cons? {
      SettledBounds(g, targets, current, next, cap, unbounded, ds.head);
      assert forall i | 0 <= i < |terms[1..]| :: terms[1..][i] == terms[i + 1];
      SettledSum(g, targets, current, next, cap, unbounded, ds.tail, terms[1..]);
      PlainSumFirst(terms, current);
    }
  }

  /** A set of terms that holds every part of its own productions. */
  ghost predicate ClosedSet(g: Grammar, terms: set<nat>) {
    forall t, p, i | t in terms && Expands(g, t) && 0 <= p < |g.productions[t]| && 0 <= i < |g.productions[t][p]| ::
      g.productions[t][p][i] in terms
  }

  /** `values` is at least the count, up to `cap`, of every derivation of height
      up to `k`. */
  ghost predicate CoversTo(g: Grammar, targets: set<nat>, values: seq<nat>, cap: nat, k: nat) {
    forall d | Derives(g, d) && Height(d) <= k && d.term < |values| :: Min(Count(g, targets, d), cap) <= values[d.term]
  }

  lemma {:induction false} SumCovers(g: Grammar, targets: set<nat>, values: seq<nat>, cap: nat, k: nat,
                                     ds: Derivations, terms: seq<nat>)
    requires CoversTo(g, targets, values, cap, k) && DerivesAll(g, ds, terms) && HeightAll(ds) <= k
    requires forall i | 0 <= i < |terms| :: terms[i] < |values|
    ensures Min(CountAll(g, targets, ds), cap) <= PlainSum(terms, values)
    decreases ds
  {
    if ds.Cons? {
      assert forall i | 0 <= i < |terms[1..]| :: terms[1..][i] == terms[i + 1];
      SumCovers(g, targets, values, cap, k, ds.tail, terms[1..]);
      PlainSumFirst(terms, values);
    }
  }

  /** Each step covers derivations one level higher. */
  lemma NextCovers(g: Grammar, targets: set<nat>, current: seq<nat>, cap: nat, next: seq<nat>, k: nat)
    requires WellFormed(g) && |current| == |g.productions| && IsNext(g, current, cap, next)
    requires CoversTo(g, targets, current, cap, k)
    requires forall t | 0 <= t < |current| && !Expands(g, t) :: current[t] == LeafCount(g, targets, t)
    ensures CoversTo(g, targets, next, cap, k + 1)
  {
    hide LeafCount;
    forall d | Derives(g, d) && Height(d) <= k + 1 && d.term < |next|
      ensures Min(Count(g, targets, d), cap) <= next[d.term]
    {
      if d.Branch? {
        SumCovers(g, targets, current, cap, k, d.parts, g.productions[d.term][d.production]);
      } else {
        assert next[d.term] == current[d.term];
      }
    }
  }

  lemma {:induction false} UsesClosed(g: Grammar, terms: set<nat>, d: Derivation)
    requires ClosedSet(g, terms) && Derives(g, d) && d.term in terms
    ensures Uses(d) <= terms
    decreases d, 1
  {
    if d.Branch? {
      UsesAllClosed(g, terms, d.parts, g.productions[d.term][d.production]);
    }
  }

  lemma {:induction false} UsesAllClosed(g: Grammar, terms: set<nat>, ds: Derivations, parts: seq<nat>)
    requires ClosedSet(g, terms) && DerivesAll(g, ds, parts) && forall i | 0 <= i < |parts| :: parts[i] in terms
    ensures UsesAll(ds) <= terms
    decreases ds, 0
  {
    hide ClosedSet;
    if ds.Cons? {
      UsesClosed(g, terms, ds.head);
      assert forall i | 0 <= i < |parts[1..]| :: parts[1..][i] == parts[i + 1];
      UsesAllClosed(g, terms, ds.tail, parts[1..]);
    }
  }

  /** Where the counts of a closed set stay below the cap, as many steps as there
      are terms have reached them all: the next step adds nothing. */
  lemma BoundedSettles(g: Grammar, targets: set<nat>, current: seq<nat>, cap: nat, next: seq<nat>, k: nat, terms: set<nat>, t: nat)
    requires WellFormed(g) && |current| == |g.productions| <= k && |next| == |current|
    requires CoversTo(g, targets, current, cap, k) && Reached(g, targets, current) && Reached(g, targets, next)
    requires ClosedSet(g, terms) && cap > 0 && forall u | u in terms :: BoundedBy(g, targets, u, cap - 1)
    requires t in terms && t < |current|
    ensures current[t] < cap && next[t] <= current[t]
  {
    assert ReachedAt(g, targets, t, current[t]) && ReachedAt(g, targets, t, next[t]);
    assert BoundedBy(g, targets, t, cap - 1);
    var d :| Derives(g, d) && d.term == t && next[t] <= Count(g, targets, d);
    UsesClosed(g, terms, d);
    UsesBelow(g, d);
    var short := ShortenKeeps(g, targets, d, Below(|g.productions|), cap - 1);
  }

  /** Exactly the closed sets whose counts stay below the cap get finite bounds. */
  ghost predicate FiniteIffBelowCap(g: Grammar, targets: set<nat>, maximum: seq<Option<nat>>, cap: nat)
    requires cap > 0
  {
    forall terms: set<nat> | ClosedSet(g, terms) && terms <= Below(|maximum|) ::
      (forall t | t in terms :: maximum[t].Some?) <==> (forall t | t in terms :: BoundedBy(g, targets, t, cap - 1))
  }

  method InitialMaximum(g: Grammar, targets: set<nat>) returns (values: seq<nat>)
    requires WellFormed(g)
    ensures |values| == |g.productions|
    ensures forall t | 0 <= t < |values| :: values[t] == if Expands(g, t) then 0 else LeafCount(g, targets, t)
  {
    values := [];
    while |values| < |g.productions|
      invariant |values| <= |g.productions|
      invariant forall t | 0 <= t < |values| :: values[t] == if Expands(g, t) then 0 else LeafCount(g, targets, t)
    {
      values := values + [if g.visible[|values|] && |values| in targets then 1 else 0];
    }
  }

  /** Mark every term with a production that mentions a marked term, until no
      more are marked. */
  method MarkUnbounded(g: Grammar, marked: seq<bool>) returns (unbounded: seq<bool>)
    requires WellFormed(g) && |marked| == |g.productions|
    ensures |unbounded| == |marked| && forall t | 0 <= t < |marked| && marked[t] :: unbounded[t]
    ensures forall t, p, i | 0 <= t < |marked| && !unbounded[t] && Expands(g, t) && 0 <= p < |g.productions[t]|
              && 0 <= i < |g.productions[t][p]| :: !unbounded[g.productions[t][p][i]]
    ensures forall terms: set<nat> | ClosedSet(g, terms) && Unmarks(terms, marked) :: Unmarks(terms, unbounded)
  {
    hide ClosedSet;
    unbounded := marked;
    while true
      invariant |unbounded| == |marked| && forall t | 0 <= t < |marked| && marked[t] :: unbounded[t]
      invariant forall terms: set<nat> | ClosedSet(g, terms) && Unmarks(terms, marked) :: Unmarks(terms, unbounded)
      decreases Unmarked(unbounded)
    {
      var changed := false;
      ghost var before := unbounded;
      var term := 0;
      while term < |marked|
        invariant 0 <= term <= |marked| == |unbounded|
        invariant forall t | 0 <= t < |marked| && before[t] :: unbounded[t]
        invariant changed <==> unbounded != before
        invariant forall terms: set<nat> | ClosedSet(g, terms) && Unmarks(terms, marked) :: Unmarks(terms, unbounded)
        invariant !changed ==> forall t | 0 <= t < term && !unbounded[t] && Expands(g, t) :: !MentionsMarked(g.productions[t], unbounded)
      {
        if !g.visible[term] && !unbounded[term] && MentionsMarked(g.productions[term], unbounded) {
          MarkStep(g, unbounded, term);
          unbounded := unbounded[term := true];
          assert unbounded[term] != before[term];
          changed := true;
        }
        term := term + 1;
      }
      if !changed {
        return;
      }
      MoreMarked(before, unbounded);
    }
  }

  ghost predicate Unmarks(terms: set<nat>, unbounded: seq<bool>) {
    forall t | t in terms && t < |unbounded| :: !unbounded[t]
  }

  lemma MarkStep(g: Grammar, unbounded: seq<bool>, term: nat)
    requires WellFormed(g) && term < |unbounded| == |g.productions| && Expands(g, term)
    requires MentionsMarked(g.productions[term], unbounded)
    ensures forall terms: set<nat> | ClosedSet(g, terms) && Unmarks(terms, unbounded) :: Unmarks(terms, unbounded[term := true])
  {}

  predicate MentionsMarked(alternatives: seq<seq<nat>>, unbounded: seq<bool>) {
    exists p, i | 0 <= p < |alternatives| && 0 <= i < |alternatives[p]| ::
      alternatives[p][i] < |unbounded| && unbounded[alternatives[p][i]]
  }

  function Unmarked(unbounded: seq<bool>): nat {
    if unbounded == [] then 0
    else Unmarked(unbounded[..|unbounded| - 1]) + if unbounded[|unbounded| - 1] then 0 else 1
  }

  lemma {:induction false} MoreMarked(before: seq<bool>, after: seq<bool>)
    requires |before| == |after| && forall t | 0 <= t < |before| && before[t] :: after[t]
    ensures Unmarked(after) <= Unmarked(before)
    ensures after != before ==> Unmarked(after) < Unmarked(before)
  {
    if before != [] {
      var n := |before| - 1;
      assert before == before[..n] + [before[n]] && after == after[..n] + [after[n]];
      MoreMarked(before[..n], after[..n]);
    }
  }

  /** The maximum: capped steps, one for each term, then terms that still grow or
      have reached the cap are unbounded, and so is what depends on them. */
  method ComputeMaximum(g: Grammar, targets: set<nat>) returns (maximum: seq<Option<nat>>)
    requires WellFormed(g)
    ensures IsUpperBound(g, targets, maximum)
    ensures Productive(g) ==> IsExactMaximum(g, targets, maximum)
  {
    hide IsNext, Reached, LeafCount, Productive, CoversTo, ClosedSet, FiniteIffBelowCap;
    var termCount := |g.productions|;
    var cap := if termCount + 1 > 2 then termCount + 1 else 2;
    var current: seq<nat> := InitialMaximum(g, targets);
    InitialReached(g, targets, current);
    InitialCovers(g, targets, current, cap);
    var round := 0;
    while round < termCount
      invariant 0 <= round <= termCount == |current|
      invariant CoversTo(g, targets, current, cap, round)
      invariant forall t | 0 <= t < |current| && !Expands(g, t) :: current[t] == LeafCount(g, targets, t)
      invariant Productive(g) ==> Reached(g, targets, current)
    {
      var next := NextMaximum(g, current, cap);
      NextKeeps(g, targets, current, cap, next);
      NextCovers(g, targets, current, cap, next, round);
      current := next;
      round := round + 1;
    }
    var next := NextMaximum(g, current, cap);
    NextKeeps(g, targets, current, cap, next);
    var marked := seq(termCount, t requires 0 <= t < termCount => current[t] >= cap || next[t] > current[t]);
    var unbounded := MarkUnbounded(g, marked);
    maximum := seq(termCount, t requires 0 <= t < termCount => if unbounded[t] then None else Some(current[t]));
    forall d | Derives(g, d) && d.term < |maximum| && maximum[d.term].Some?
      ensures Count(g, targets, d) <= maximum[d.term].value
    {
      SettledBounds(g, targets, current, next, cap, unbounded, d);
    }
    if Productive(g) {
      ReachedExact(g, targets, current, maximum);
      FiniteExactly(g, targets, current, cap, next, marked, unbounded, maximum);
    }
  }

  ghost predicate CountsExactly(g: Grammar, targets: set<nat>, t: nat, value: nat) {
    exists d :: Derives(g, d) && d.term == t && Count(g, targets, d) == value
  }

  /** Finite bounds are attained, and given exactly where counts stay below the
      cap. */
  ghost predicate IsExactMaximum(g: Grammar, targets: set<nat>, maximum: seq<Option<nat>>) {
    && (forall t | 0 <= t < |maximum| && maximum[t].Some? :: CountsExactly(g, targets, t, maximum[t].value))
    && FiniteIffBelowCap(g, targets, maximum, CardinalityCap(g))
  }

  function CardinalityCap(g: Grammar): nat {
    if |g.productions| + 1 > 2 then |g.productions| + 1 else 2
  }

  /** Three children in every derivation, over a grammar of two terms. */
  function ThreeChildren(): Grammar {
    Grammar([false, true], [[[1, 1, 1]], []])
  }

  ghost predicate OnlyOnes(terms: seq<nat>) {
    forall i :: 0 <= i < |terms| ==> terms[i] == 1
  }

  lemma {:induction false} OnesCount(ds: Derivations, terms: seq<nat>)
    requires DerivesAll(ThreeChildren(), ds, terms) && OnlyOnes(terms)
    ensures CountAll(ThreeChildren(), {1}, ds) == |terms|
    decreases ds
  {
    if ds.Cons? {
      assert terms[0] == 1 && ds.head == Leaf(1);
      OnesCount(ds.tail, terms[1..]);
    }
  }

  lemma ThreeAlways(d: Derivation)
    requires Derives(ThreeChildren(), d) && d.term < 2
    ensures Count(ThreeChildren(), {1}, d) == if d.term == 0 then 3 else 1
  {
    if d.Branch? {
      assert ThreeChildren().productions[0] == [[1, 1, 1]] && OnlyOnes([1, 1, 1]);
      OnesCount(d.parts, [1, 1, 1]);
    }
  }

  lemma ThreeDerived() returns (d: Derivation)
    ensures Derives(ThreeChildren(), d) && d.term == 0
    ensures Derives(ThreeChildren(), Leaf(1))
  {
    var g := ThreeChildren();
    assert Derives(g, Leaf(1));
    assert DerivesAll(g, Nil, []);
    assert DerivesAll(g, Cons(Leaf(1), Nil), [1]);
    assert [1, 1][1..] == [1] && DerivesAll(g, Cons(Leaf(1), Cons(Leaf(1), Nil)), [1, 1]);
    assert [1, 1, 1][1..] == [1, 1];
    d := Branch(0, 0, Cons(Leaf(1), Cons(Leaf(1), Cons(Leaf(1), Nil))));
    assert DerivesAll(g, d.parts, g.productions[0][0]);
  }

  lemma ThreeShape()
    ensures WellFormed(ThreeChildren()) && CardinalityCap(ThreeChildren()) == 3
    ensures ClosedSet(ThreeChildren(), {1}) && ClosedSet(ThreeChildren(), {0, 1})
  {}

  lemma ThreeCounts()
    ensures Productive(ThreeChildren())
    ensures BoundedBy(ThreeChildren(), {1}, 0, 3) && !BoundedBy(ThreeChildren(), {1}, 0, 2)
    ensures BoundedBy(ThreeChildren(), {1}, 1, 2)
  {
    var g := ThreeChildren();
    var three := ThreeDerived();
    assert |g.productions| == 2;
    forall d | Derives(g, d) && d.term < 2 ensures Count(g, {1}, d) == if d.term == 0 then 3 else 1 {
      ThreeAlways(d);
    }
    hide Derives, Count, ThreeChildren;
    assert three.term == 0 && Leaf(1).term == 1;
    assert HasDerivation(g, 0) && HasDerivation(g, 1);
  }

  /** Its counts are bounded by three, which is its cap, so it gets no finite
      maximum. */
  lemma CappedExample(maximum: seq<Option<nat>>)
    requires |maximum| == 2 && IsExactMaximum(ThreeChildren(), {1}, maximum)
    ensures WellFormed(ThreeChildren()) && Productive(ThreeChildren())
    ensures BoundedBy(ThreeChildren(), {1}, 0, 3) && maximum[0].None?
  {
    hide WellFormed, Productive, BoundedBy, ClosedSet, ThreeChildren, CountsExactly;
    ThreeShape();
    ThreeCounts();
    assert {1} <= Below(2) && {0, 1} <= Below(2);
    assert 0 in {0, 1} && 1 in {1};
  }

  lemma InitialCovers(g: Grammar, targets: set<nat>, values: seq<nat>, cap: nat)
    requires WellFormed(g) && |values| == |g.productions|
    requires forall t | 0 <= t < |values| :: values[t] == if Expands(g, t) then 0 else LeafCount(g, targets, t)
    ensures CoversTo(g, targets, values, cap, 0)
  {
    hide LeafCount;
  }

  lemma FiniteExactly(g: Grammar, targets: set<nat>, current: seq<nat>, cap: nat, next: seq<nat>,
                      marked: seq<bool>, unbounded: seq<bool>, maximum: seq<Option<nat>>)
    requires WellFormed(g) && |current| == |g.productions| == |marked| == |unbounded| == |maximum| && |next| == |current|
    requires cap > 0 && CoversTo(g, targets, current, cap, |current|)
    requires Reached(g, targets, current) && Reached(g, targets, next)
    requires forall t | 0 <= t < |marked| :: marked[t] <==> current[t] >= cap || next[t] > current[t]
    requires forall t | 0 <= t < |marked| && marked[t] :: unbounded[t]
    requires forall terms: set<nat> | ClosedSet(g, terms) && Unmarks(terms, marked) :: Unmarks(terms, unbounded)
    requires forall t | 0 <= t < |maximum| :: maximum[t] == if unbounded[t] then None else Some(current[t])
    requires IsUpperBound(g, targets, maximum)
    ensures FiniteIffBelowCap(g, targets, maximum, cap)
  {
    hide ClosedSet, CoversTo, Reached;
    forall terms: set<nat> | ClosedSet(g, terms) && terms <= Below(|maximum|)
      ensures (forall t | t in terms :: maximum[t].Some?) <==> (forall t | t in terms :: BoundedBy(g, targets, t, cap - 1))
    {
      if forall t | t in terms :: BoundedBy(g, targets, t, cap - 1) {
        forall t | t in terms
          ensures !marked[t]
        {
          BoundedSettles(g, targets, current, cap, next, |current|, terms, t);
        }
        assert Unmarks(terms, unbounded);
      }
      if forall t | t in terms :: maximum[t].Some? {
        forall t | t in terms
          ensures BoundedBy(g, targets, t, cap - 1)
        {
          assert !unbounded[t] && !marked[t];
        }
      }
    }
  }

  lemma InitialReached(g: Grammar, targets: set<nat>, values: seq<nat>)
    requires WellFormed(g) && |values| == |g.productions|
    requires forall t | 0 <= t < |values| :: values[t] == if Expands(g, t) then 0 else LeafCount(g, targets, t)
    ensures Productive(g) ==> Reached(g, targets, values)
  {
    hide LeafCount;
    if Productive(g) {
      forall t | 0 <= t < |values|
        ensures ReachedAt(g, targets, t, values[t])
      {
        assert HasDerivation(g, t);
        var d :| Derives(g, d) && d.term == t;
      }
    }
  }

  lemma NextKeeps(g: Grammar, targets: set<nat>, current: seq<nat>, cap: nat, next: seq<nat>)
    requires WellFormed(g) && |current| == |g.productions| && IsNext(g, current, cap, next)
    ensures |next| == |current|
    ensures forall t | 0 <= t < |next| && !Expands(g, t) :: next[t] == current[t]
    ensures Reached(g, targets, current) ==> Reached(g, targets, next)
  {
    if Reached(g, targets, current) {
      NextReached(g, targets, current, cap, next);
    }
  }

  lemma ReachedExact(g: Grammar, targets: set<nat>, current: seq<nat>, maximum: seq<Option<nat>>)
    requires Reached(g, targets, current) && |current| == |maximum| && IsUpperBound(g, targets, maximum)
    requires forall t | 0 <= t < |maximum| && maximum[t].Some? :: maximum[t].value == current[t]
    ensures forall t | 0 <= t < |maximum| && maximum[t].Some? :: CountsExactly(g, targets, t, maximum[t].value)
  {
    forall t | 0 <= t < |maximum| && maximum[t].Some?
      ensures CountsExactly(g, targets, t, maximum[t].value)
    {
      assert ReachedAt(g, targets, t, current[t]);
      var d :| Derives(g, d) && d.term == t && current[t] <= Count(g, targets, d);
    }
  }
}
