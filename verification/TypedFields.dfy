/** Validation of typed fields against the cardinality of direct children. */
module TypedFields {
  import opened Counting
  import opened Options
  import opened Cardinality

  datatype Count = Count(min: nat, max: Option<nat>)

  datatype Summaries = Summaries(minimum: seq<nat>, maximum: seq<Option<nat>>)

  datatype Error =
    | UnknownParent
    | NoFiniteDerivation
    | Overflow
    | NoParents
    | Absent
    | AlwaysPresent
    | NotRepeated
    | Unreachable

  datatype Result<+T> = Ok(value: T) | Err(error: Error)

  datatype FieldCardinality = One | Optional | Many

  // ---- direct children ------------------------------------------------------------------

  /** The children of a node: one derivation for each part of a production of
      the parent; a parent without productions has no children. */
  ghost predicate Children(g: Grammar, parent: nat, ds: Derivations) {
    parent < |g.productions| &&
    if g.productions[parent] == [] then ds == Nil
    else exists p :: 0 <= p < |g.productions[parent]| && DerivesAll(g, ds, g.productions[parent][p])
  }

  ghost predicate ChildrenOf(g: Grammar, parents: set<nat>, ds: Derivations) {
    exists parent | parent in parents :: Children(g, parent, ds)
  }

  /** The least number of matching children is attained and no derivation has
      fewer; a finite bound is exceeded by none and, when all terms have
      derivations, attained; without a bound, what some child depends on can
      reach the cap. */
  ghost predicate Counts(g: Grammar, targets: set<nat>, parents: set<nat>, c: Count) {
    && (exists ds :: ChildrenOf(g, parents, ds) && CountAll(g, targets, ds) == c.min)
    && (forall ds | ChildrenOf(g, parents, ds) :: c.min <= CountAll(g, targets, ds))
    && (c.max.Some? ==> forall ds | ChildrenOf(g, parents, ds) :: CountAll(g, targets, ds) <= c.max.value)
    && (c.max.Some? && Productive(g) ==> exists ds :: ChildrenOf(g, parents, ds) && CountAll(g, targets, ds) == c.max.value)
    && (c.max.None? && Productive(g) ==>
          exists parent, p | parent in parents && parent < |g.productions| && 0 <= p < |g.productions[parent]| ::
            MayReachCap(g, targets, g.productions[parent][p]))
  }

  ghost predicate Correct(g: Grammar, targets: set<nat>, s: Summaries) {
    && IsMinimum(g, targets, s.minimum) && IsUpperBound(g, targets, s.maximum)
    && (Productive(g) ==> IsExactMaximum(g, targets, s.maximum))
  }

  /** Some part's dependencies include a term that can reach the cap. */
  ghost predicate MayReachCap(g: Grammar, targets: set<nat>, terms: seq<nat>) {
    exists i | 0 <= i < |terms| ::
      forall needed: set<nat> | ClosedSet(g, needed) && needed <= Below(|g.productions|) && terms[i] in needed ::
        exists t | t in needed :: !BoundedBy(g, targets, t, CardinalityCap(g) - 1)
  }

  /** The bounds of one production. */
  ghost predicate ProductionCounts(g: Grammar, targets: set<nat>, terms: seq<nat>, c: Count) {
    && (exists ds :: DerivesAll(g, ds, terms) && CountAll(g, targets, ds) == c.min)
    && (forall ds | DerivesAll(g, ds, terms) :: c.min <= CountAll(g, targets, ds))
    && (c.max.Some? ==> forall ds | DerivesAll(g, ds, terms) :: CountAll(g, targets, ds) <= c.max.value)
    && (c.max.Some? && Productive(g) ==> exists ds :: DerivesAll(g, ds, terms) && CountAll(g, targets, ds) == c.max.value)
    && (c.max.None? && Productive(g) ==> MayReachCap(g, targets, terms))
  }

  lemma {:induction false} SumIsLeast(g: Grammar, targets: set<nat>, values: seq<nat>, ds: Derivations, terms: seq<nat>)
    requires IsMinimum(g, targets, values) && DerivesAll(g, ds, terms)
    requires forall i | 0 <= i < |terms| :: terms[i] < |values|
    ensures PlainSum(terms, values) <= CountAll(g, targets, ds)
    decreases ds
  {
    if ds.Cons? {
      assert forall i | 0 <= i < |terms[1..]| :: terms[1..][i] == terms[i + 1];
      SumIsLeast(g, targets, values, ds.tail, terms[1..]);
      PlainSumFirst(terms, values);
    }
  }

  /** The sum of bounds, when every part has one. */
  function BoundSum(terms: seq<nat>, maximum: seq<Option<nat>>): Option<nat>
    requires forall i | 0 <= i < |terms| :: terms[i] < |maximum|
  {
    if terms == [] then Some(0)
    else
      var rest := BoundSum(terms[..|terms| - 1], maximum);
      var last := maximum[terms[|terms| - 1]];
      if rest.Some? && last.Some? then Some(rest.value + last.value) else None
  }

  lemma {:induction false} BoundSumFirst(terms: seq<nat>, maximum: seq<Option<nat>>)
    requires forall i | 0 <= i < |terms| :: terms[i] < |maximum|
    requires terms != [] && BoundSum(terms, maximum).Some?
    ensures maximum[terms[0]].Some? && BoundSum(terms[1..], maximum).Some?
    ensures BoundSum(terms, maximum).value == maximum[terms[0]].value + BoundSum(terms[1..], maximum).value
  {
    var n := |terms| - 1;
    if n > 0 {
      BoundSumFirst(terms[..n], maximum);
      assert terms[1..][..n - 1] == terms[..n][1..];
    } else {
      assert terms[1..] == [] && terms[..0] == [];
    }
  }

  lemma {:induction false} BoundSumBounds(g: Grammar, targets: set<nat>, maximum: seq<Option<nat>>, ds: Derivations, terms: seq<nat>)
    requires IsUpperBound(g, targets, maximum) && DerivesAll(g, ds, terms)
    requires forall i | 0 <= i < |terms| :: terms[i] < |maximum|
    requires BoundSum(terms, maximum).Some?
    ensures CountAll(g, targets, ds) <= BoundSum(terms, maximum).value
    decreases ds
  {
    if ds.Cons? {
      assert forall i | 0 <= i < |terms[1..]| :: terms[1..][i] == terms[i + 1];
      BoundSumFirst(terms, maximum);
      BoundSumBounds(g, targets, maximum, ds.tail, terms[1..]);
    }
  }

  lemma {:induction false} BoundSumAttained(g: Grammar, targets: set<nat>, maximum: seq<Option<nat>>, terms: seq<nat>)
    returns (ds: Derivations)
    requires IsExactMaximum(g, targets, maximum) && forall i | 0 <= i < |terms| :: terms[i] < |maximum|
    requires BoundSum(terms, maximum).Some?
    ensures DerivesAll(g, ds, terms) && CountAll(g, targets, ds) == BoundSum(terms, maximum).value
  {
    if terms == [] {
      ds := Nil;
    } else {
      assert forall i | 0 <= i < |terms[1..]| :: terms[1..][i] == terms[i + 1];
      BoundSumFirst(terms, maximum);
      var tail := BoundSumAttained(g, targets, maximum, terms[1..]);
      assert CountsExactly(g, targets, terms[0], maximum[terms[0]].value);
      var head :| Derives(g, head) && head.term == terms[0] && Cardinality.Count(g, targets, head) == maximum[terms[0]].value;
      ds := Cons(head, tail);
    }
  }

  lemma {:induction false} NoBoundPart(terms: seq<nat>, maximum: seq<Option<nat>>) returns (i: nat)
    requires forall i | 0 <= i < |terms| :: terms[i] < |maximum|
    requires BoundSum(terms, maximum).None?
    ensures i < |terms| && maximum[terms[i]].None?
  {
    var n := |terms| - 1;
    i := n;
    if maximum[terms[n]].Some? {
      i := NoBoundPart(terms[..n], maximum);
    }
  }

  lemma NoBoundReaches(g: Grammar, targets: set<nat>, maximum: seq<Option<nat>>, terms: seq<nat>)
    requires |maximum| == |g.productions| && IsExactMaximum(g, targets, maximum)
    requires (forall i | 0 <= i < |terms| :: terms[i] < |maximum|) && BoundSum(terms, maximum).None?
    ensures MayReachCap(g, targets, terms)
  {
    hide ClosedSet, BoundedBy, BoundSum;
    var i := NoBoundPart(terms, maximum);
    forall needed: set<nat> | ClosedSet(g, needed) && needed <= Below(|g.productions|) && terms[i] in needed
      ensures exists t | t in needed :: !BoundedBy(g, targets, t, CardinalityCap(g) - 1)
    {
      assert !(forall t | t in needed :: maximum[t].Some?);
    }
  }

  lemma SumsCount(g: Grammar, targets: set<nat>, s: Summaries, terms: seq<nat>)
    requires WellFormed(g) && Correct(g, targets, s)
    requires forall i | 0 <= i < |terms| :: terms[i] < |s.minimum| && terms[i] < |s.maximum|
    requires AllKnown(terms, s.minimum)
    ensures ProductionCounts(g, targets, terms, Count(PlainSum(terms, s.minimum), BoundSum(terms, s.maximum)))
  {
    hide AllKnown, Productive, MayReachCap, FiniteIffBelowCap;
    var ds := SumAttained(g, targets, s.minimum, terms);
    if Productive(g) {
      if BoundSum(terms, s.maximum).Some? {
        var most := BoundSumAttained(g, targets, s.maximum, terms);
      } else {
        NoBoundReaches(g, targets, s.maximum, terms);
      }
    }
    forall e | DerivesAll(g, e, terms)
      ensures PlainSum(terms, s.minimum) <= CountAll(g, targets, e)
      ensures BoundSum(terms, s.maximum).Some? ==> CountAll(g, targets, e) <= BoundSum(terms, s.maximum).value
    {
      SumIsLeast(g, targets, s.minimum, e, terms);
      if BoundSum(terms, s.maximum).Some? {
        BoundSumBounds(g, targets, s.maximum, e, terms);
      }
    }
  }

  // ---- refusals -------------------------------------------------------------------------

  /** No derivation of the term counts less than the sentinel. */
  ghost predicate NoSmallDerivation(g: Grammar, targets: set<nat>, t: nat) {
    forall d | Derives(g, d) && d.term == t :: Cardinality.Count(g, targets, d) >= USIZE_MAX
  }

  ghost predicate CountsBeyond(g: Grammar, targets: set<nat>, terms: seq<nat>) {
    exists ds :: DerivesAll(g, ds, terms) && CountAll(g, targets, ds) > USIZE_MAX
  }

  /** Why a production is refused: a part has no derivation that can be counted,
      or, if all terms have derivations, the production has one that counts too
      much. */
  ghost predicate ProductionRefused(g: Grammar, targets: set<nat>, terms: seq<nat>, error: Error) {
    match error
    case NoFiniteDerivation => exists t :: t in terms && NoSmallDerivation(g, targets, t)
    case Overflow => Productive(g) ==> CountsBeyond(g, targets, terms)
    case _ => false
  }

  ghost predicate ParentRefused(g: Grammar, targets: set<nat>, parent: nat, error: Error) {
    if error == UnknownParent then parent >= |g.productions|
    else
      parent < |g.productions| && exists terms :: terms in g.productions[parent] && ProductionRefused(g, targets, terms, error)
  }

  lemma SentinelMeans(g: Grammar, targets: set<nat>, values: seq<nat>, t: nat)
    requires IsMinimum(g, targets, values) && t < |values| && values[t] == USIZE_MAX
    ensures NoSmallDerivation(g, targets, t)
  {}

  lemma {:induction false} Completed(g: Grammar, targets: set<nat>, terms: seq<nat>, n: nat, ds: Derivations)
    returns (all: Derivations)
    requires Productive(g) && n <= |terms| && forall i | 0 <= i < |terms| :: terms[i] < |g.productions|
    requires DerivesAll(g, ds, terms[..n])
    ensures DerivesAll(g, all, terms) && CountAll(g, targets, all) >= CountAll(g, targets, ds)
    decreases |terms|
  {
    if terms == [] {
      all := ds;
    } else {
      assert forall i | 0 <= i < |terms[1..]| :: terms[1..][i] == terms[i + 1];
      if n == 0 {
        assert HasDerivation(g, terms[0]);
        var head :| Derives(g, head) && head.term == terms[0];
        var tail := Completed(g, targets, terms[1..], 0, Nil);
        all := Cons(head, tail);
      } else {
        assert terms[..n][1..] == terms[1..][..n - 1];
        var tail := Completed(g, targets, terms[1..], n - 1, ds.tail);
        all := Cons(ds.head, tail);
      }
    }
  }

  /** A least or greatest sum over the first parts that does not fit. */
  lemma SumOverflows(g: Grammar, targets: set<nat>, s: Summaries, terms: seq<nat>, n: nat)
    requires WellFormed(g) && Correct(g, targets, s) && n <= |terms|
    requires forall i | 0 <= i < |terms| :: terms[i] < |s.minimum| && terms[i] < |s.maximum|
    requires AllKnown(terms[..n], s.minimum)
    requires PlainSum(terms[..n], s.minimum) > USIZE_MAX
             || (BoundSum(terms[..n], s.maximum).Some? && BoundSum(terms[..n], s.maximum).value > USIZE_MAX)
    ensures ProductionRefused(g, targets, terms, Overflow)
  {
    hide Productive, AllKnown;
    if Productive(g) {
      var ds;
      if PlainSum(terms[..n], s.minimum) > USIZE_MAX {
        ds := SumAttained(g, targets, s.minimum, terms[..n]);
      } else {
        ds := BoundSumAttained(g, targets, s.maximum, terms[..n]);
      }
      var all := Completed(g, targets, terms, n, ds);
    }
  }

  /** The bounds of one production, added up part by part. */
  method ProductionCardinality(g: Grammar, ghost targets: set<nat>, s: Summaries, terms: seq<nat>) returns (r: Result<Count>)
    requires WellFormed(g) && Correct(g, targets, s)
    requires forall i | 0 <= i < |terms| :: terms[i] < |g.productions|
    ensures r.Ok? ==> ProductionCounts(g, targets, terms, r.value)
    ensures r.Err? ==> ProductionRefused(g, targets, terms, r.error)
  {
    hide Attained, ProductionCounts, NoSmallDerivation, Productive, CountsBeyond;
    var minimum := 0;
    var maximum: Option<nat> := Some(0);
    var i := 0;
    while i < |terms|
      invariant 0 <= i <= |terms|
      invariant minimum == PlainSum(terms[..i], s.minimum)
      invariant maximum == BoundSum(terms[..i], s.maximum)
      invariant forall j | 0 <= j < i :: s.minimum[terms[j]] != USIZE_MAX
    {
      var index := terms[i];
      assert terms[..i + 1][..i] == terms[..i];
      if s.minimum[index] == USIZE_MAX {
        SentinelMeans(g, targets, s.minimum, index);
        assert index in terms;
        return Err(NoFiniteDerivation);
      }
      minimum := minimum + s.minimum[index];
      if minimum > USIZE_MAX {
        SumOverflows(g, targets, s, terms, i + 1);
        return Err(Overflow);
      }
      if maximum.Some? && s.maximum[index].Some? {
        maximum := Some(maximum.value + s.maximum[index].value);
        if maximum.value > USIZE_MAX {
          SumOverflows(g, targets, s, terms, i + 1);
          return Err(Overflow);
        }
      } else {
        maximum := None;
      }
      i := i + 1;
    }
    assert terms[..|terms|] == terms;
    SumsCount(g, targets, s, terms);
    r := Ok(Count(minimum, maximum));
  }

  function Widen(a: Count, b: Count): Count {
    Count(if a.min < b.min then a.min else b.min,
          if a.max.Some? && b.max.Some? then Some(if a.max.value > b.max.value then a.max.value else b.max.value) else None)
  }

  /** The bounds over the productions before `n`. */
  ghost predicate CountsBefore(g: Grammar, targets: set<nat>, alternatives: seq<seq<nat>>, n: nat, c: Count) {
    && (exists p, ds :: 0 <= p < n && p < |alternatives| && DerivesAll(g, ds, alternatives[p]) && CountAll(g, targets, ds) == c.min)
    && (forall p, ds | 0 <= p < n && p < |alternatives| && DerivesAll(g, ds, alternatives[p]) :: c.min <= CountAll(g, targets, ds))
    && (c.max.Some? ==>
          forall p, ds | 0 <= p < n && p < |alternatives| && DerivesAll(g, ds, alternatives[p]) ::
            CountAll(g, targets, ds) <= c.max.value)
    && (c.max.Some? && Productive(g) ==>
          exists p, ds :: 0 <= p < n && p < |alternatives| && DerivesAll(g, ds, alternatives[p]) && CountAll(g, targets, ds) == c.max.value)
    && (c.max.None? && Productive(g) ==> exists p :: 0 <= p < n && p < |alternatives| && MayReachCap(g, targets, alternatives[p]))
  }

  /** The bounds over all productions of one parent. */
  method DirectCardinality(g: Grammar, ghost targets: set<nat>, s: Summaries, parent: nat) returns (r: Result<Count>)
    requires WellFormed(g) && Correct(g, targets, s)
    ensures r.Ok? ==> Counts(g, targets, {parent}, r.value)
    ensures r.Err? ==> ParentRefused(g, targets, parent, r.error)
  {
    hide Attained, CountsBefore, ProductionCounts, AllKnown;
    if parent >= |g.productions| {
      return Err(UnknownParent);
    }
    var alternatives := g.productions[parent];
    if alternatives == [] {
      NoChildren(g, targets, parent);
      return Ok(Count(0, Some(0)));
    }
    var combined := Count(0, Some(0));
    var p := 0;
    while p < |alternatives|
      invariant 0 <= p <= |alternatives|
      invariant p > 0 ==> CountsBefore(g, targets, alternatives, p, combined)
    {
      var production := ProductionCardinality(g, targets, s, alternatives[p]);
      if production.Err? {
        assert alternatives[p] in alternatives && ProductionRefused(g, targets, alternatives[p], production.error);
        return Err(production.error);
      }
      ghost var before := combined;
      combined := if p == 0 then production.value else Widen(combined, production.value);
      OneMoreProduction(g, targets, alternatives, p, before, production.value);
      p := p + 1;
    }
    ProductionsAreChildren(g, targets, parent, combined);
    r := Ok(combined);
  }

  lemma NoChildren(g: Grammar, targets: set<nat>, parent: nat)
    requires parent < |g.productions| && g.productions[parent] == []
    ensures Counts(g, targets, {parent}, Count(0, Some(0)))
  {
    assert Children(g, parent, Nil);
    assert ChildrenOf(g, {parent}, Nil);
  }

  lemma OneMoreProduction(g: Grammar, targets: set<nat>, alternatives: seq<seq<nat>>, n: nat, before: Count, c: Count)
    requires n < |alternatives| && (n > 0 ==> CountsBefore(g, targets, alternatives, n, before))
    requires ProductionCounts(g, targets, alternatives[n], c)
    ensures CountsBefore(g, targets, alternatives, n + 1, if n == 0 then c else Widen(before, c))
  {
    hide DerivesAll, CountAll, Productive, MayReachCap;
  }

  lemma ProductionsAreChildren(g: Grammar, targets: set<nat>, parent: nat, c: Count)
    requires parent < |g.productions| && g.productions[parent] != []
    requires CountsBefore(g, targets, g.productions[parent], |g.productions[parent]|, c)
    ensures Counts(g, targets, {parent}, c)
  {
    hide DerivesAll, CountAll, Productive, MayReachCap;
    if c.max.Some? && Productive(g) {
      var q, most :| 0 <= q < |g.productions[parent]| && DerivesAll(g, most, g.productions[parent][q])
        && CountAll(g, targets, most) == c.max.value;
      assert Children(g, parent, most);
      assert ChildrenOf(g, {parent}, most);
    }
    var p, ds :| 0 <= p < |g.productions[parent]| && DerivesAll(g, ds, g.productions[parent][p]) && CountAll(g, targets, ds) == c.min;
    assert Children(g, parent, ds);
    assert ChildrenOf(g, {parent}, ds);
  }

  lemma OneMoreParent(g: Grammar, targets: set<nat>, parents: set<nat>, before: Count, parent: nat, c: Count)
    requires Counts(g, targets, parents, before) && Counts(g, targets, {parent}, c)
    ensures Counts(g, targets, parents + {parent}, Widen(before, c))
  {
    hide Children, CountAll, Productive, MayReachCap;
    forall ds
      ensures ChildrenOf(g, parents + {parent}, ds) <==> ChildrenOf(g, parents, ds) || ChildrenOf(g, {parent}, ds)
    {
      if ChildrenOf(g, parents, ds) {
        var q :| q in parents && Children(g, q, ds);
        assert q in parents + {parent};
      }
      if ChildrenOf(g, {parent}, ds) {
        assert parent in parents + {parent};
      }
    }
  }

  function KindSet(parents: seq<nat>): set<nat> {
    set p: nat | p in parents
  }

  // ---- the cache ------------------------------------------------------------------------

  class NormalizedGrammar {
    const grammar: Grammar
    var summaries: map<set<nat>, Summaries>

    ghost predicate Valid()
      reads this
    {
      WellFormed(grammar) && forall targets | targets in summaries :: Correct(grammar, targets, summaries[targets])
    }

    constructor (grammar: Grammar)
      requires WellFormed(grammar)
      ensures Valid() && this.grammar == grammar && summaries == map[]
    {
      this.grammar := grammar;
      summaries := map[];
    }

    method EnsureSummaries(targets: set<nat>)
      requires Valid()
      modifies this
      ensures Valid() && targets in summaries
      ensures forall other | other in old(summaries) :: other in summaries && summaries[other] == old(summaries)[other]
    {
      if targets !in summaries {
        var minimum := ComputeMinimum(grammar, targets);
        var maximum := ComputeMaximum(grammar, targets);
        summaries := summaries[targets := Summaries(minimum, maximum)];
      }
    }

    /** The bounds over all kinds of a typed node. */
    method DirectCardinalityFor(parents: seq<nat>, targets: set<nat>) returns (r: Result<Count>)
      requires Valid()
      modifies this
      ensures Valid()
      ensures r.Ok? ==> Counts(grammar, targets, KindSet(parents), r.value)
      ensures r == Err(NoParents) <==> parents == []
      ensures r.Err? && parents != [] ==> exists parent :: parent in parents && ParentRefused(grammar, targets, parent, r.error)
    {
      hide Counts, NoSmallDerivation, CountsBeyond, Productive;
      if parents == [] {
        return Err(NoParents);
      }
      EnsureSummaries(targets);
      var s := summaries[targets];
      var first := DirectCardinality(grammar, targets, s, parents[0]);
      if first.Err? {
        return first;
      }
      var combined := first.value;
      var i := 1;
      assert KindSet(parents[..1]) == {parents[0]};
      while i < |parents|
        invariant 1 <= i <= |parents| && Valid()
        invariant Counts(grammar, targets, KindSet(parents[..i]), combined)
      {
        var next := DirectCardinality(grammar, targets, s, parents[i]);
        if next.Err? {
          return next;
        }
        assert parents[..i + 1] == parents[..i] + [parents[i]];
        assert KindSet(parents[..i + 1]) == KindSet(parents[..i]) + {parents[i]};
        OneMoreParent(grammar, targets, KindSet(parents[..i]), combined, parents[i], next.value);
        combined := Widen(combined, next.value);
        i := i + 1;
      }
      assert parents[..|parents|] == parents;
      r := Ok(combined);
    }
  }

  // ---- validation ---------------------------------------------------------------------------

  /** Whether a field declaration fits the bounds of its matches. */
  function ValidateCardinality(field: FieldCardinality, occurrence: nat, actual: Count): Option<Error> {
    var reachesOccurrence := actual.max.None? || actual.max.value > occurrence;
    if field == One && actual.min <= occurrence then Some(Absent)
    else if field == Optional && actual.min > occurrence then Some(AlwaysPresent)
    else if field == Many && actual.max.Some? && actual.max.value <= 1 then Some(NotRepeated)
    else if !reachesOccurrence then Some(Unreachable)
    else None
  }

  /** A required field is accepted if and only if every derivation of every kind
      of the parent has more matches than the occurrence it selects. */
  lemma RequiredIffAlwaysPresent(g: Grammar, targets: set<nat>, parents: set<nat>, occurrence: nat, c: Count)
    requires Counts(g, targets, parents, c)
    ensures ValidateCardinality(One, occurrence, c) == None <==>
              forall ds | ChildrenOf(g, parents, ds) :: CountAll(g, targets, ds) > occurrence
  {
    hide ChildrenOf, CountAll, Productive, MayReachCap;
  }

  /** An optional field is refused as always present if and only if it is so in
      every derivation, and refused as unreachable only if no derivation has it. */
  lemma OptionalRefusals(g: Grammar, targets: set<nat>, parents: set<nat>, occurrence: nat, c: Count)
    requires Counts(g, targets, parents, c)
    ensures ValidateCardinality(Optional, occurrence, c) == Some(AlwaysPresent) <==>
              forall ds | ChildrenOf(g, parents, ds) :: CountAll(g, targets, ds) > occurrence
    ensures ValidateCardinality(Optional, occurrence, c) == Some(Unreachable) ==>
              forall ds | ChildrenOf(g, parents, ds) :: CountAll(g, targets, ds) <= occurrence
    ensures Productive(g) && c.max.Some? ==>
              (ValidateCardinality(Optional, occurrence, c) == Some(Unreachable) <==>
                 forall ds | ChildrenOf(g, parents, ds) :: CountAll(g, targets, ds) <= occurrence)
    ensures ValidateCardinality(Optional, occurrence, c) == None ==>
              exists ds :: ChildrenOf(g, parents, ds) && CountAll(g, targets, ds) <= occurrence
    ensures c.max.None? && (exists ds :: ChildrenOf(g, parents, ds) && CountAll(g, targets, ds) <= occurrence) ==>
              ValidateCardinality(Optional, occurrence, c) == None
  {
    hide ChildrenOf, CountAll, Productive, MayReachCap;
  }

  /** A repeated field is accepted if the matches have no bound; with one, if and
      only if some derivation has two matches and reaches the occurrence. */
  lemma RepeatedAccepted(g: Grammar, targets: set<nat>, parents: set<nat>, occurrence: nat, c: Count)
    requires Counts(g, targets, parents, c)
    ensures c.max.None? ==> ValidateCardinality(Many, occurrence, c) == None
    ensures Productive(g) && c.max.Some? ==>
              (ValidateCardinality(Many, occurrence, c) == None <==>
                 exists ds :: ChildrenOf(g, parents, ds) && CountAll(g, targets, ds) > 1 && CountAll(g, targets, ds) > occurrence)
  {
    hide ChildrenOf, CountAll, Productive, MayReachCap;
  }

  /** A repeated field is refused only if no derivation has two matches. */
  lemma RepeatedRefusals(g: Grammar, targets: set<nat>, parents: set<nat>, occurrence: nat, c: Count)
    requires Counts(g, targets, parents, c)
    ensures ValidateCardinality(Many, occurrence, c) == Some(NotRepeated) ==>
              forall ds | ChildrenOf(g, parents, ds) :: CountAll(g, targets, ds) <= 1
    ensures Productive(g) && c.max.Some? ==>
              (ValidateCardinality(Many, 0, c).Some? <==>
                 forall ds | ChildrenOf(g, parents, ds) :: CountAll(g, targets, ds) <= 1)
  {
    hide ChildrenOf, CountAll, Productive, MayReachCap;
  }
}
