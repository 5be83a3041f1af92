/** What a closure has to contain, traced back through productions to the core:
    the least closed family holds exactly that. */
module LookaheadChains {
  import opened Options
  import opened FirstSets
  import opened LookaheadFamily

  /** Something that the zero-dot position of a rule can have; `Listed` is that
      there is one. */
  datatype Item = Listed | Ahead(term: nat) | Group(group: nat) | Skip(skip: nat)

  predicate Has(look: Look, item: Item) {
    match item
    case Listed => true
    case Ahead(t) => t in look.ahead
    case Group(x) => x in look.ambiguity
    case Skip(s) => s == look.skipAhead
  }

  // ---- what a production does for its parts -------------------------------

  /** Rule `n` expands the part of rule `r` at `dot`. */
  predicate Expanding(g: Syntax, r: nat, dot: nat, n: nat) {
    && r < |g.rules| && n < |g.rules|
    && dot < |g.rules[r].parts| && g.rules[r].parts[dot] == g.rules[n].name
  }

  /** What the production itself gives to a part: the terminals that the rest
      can begin with, the ambiguity groups after the part, and its skip set
      unless the part is the last. */
  ghost predicate Gives(g: Syntax, r: nat, dot: nat, item: Item)
    requires WellFormed(g) && r < |g.rules| && dot < |g.rules[r].parts|
  {
    assert GoodRule(g, r);
    var rule := g.rules[r];
    match item
    case Listed => true
    case Ahead(t) => t < |g.terminal| && g.terminal[t] && Begins(g, rule.parts[dot + 1..], t)
    case Group(x) => x in rule.groups[dot + 1]
    case Skip(s) => dot + 1 < |rule.parts| && s == rule.skip
  }

  /** When the part gets what the whole production has: lookahead if the rest
      can vanish, groups and skip set if there is no rest. */
  ghost predicate Passes(g: Syntax, r: nat, dot: nat, item: Item)
    requires r < |g.rules| && dot < |g.rules[r].parts|
  {
    match item
    case Listed => false
    case Ahead(_) => Derivable(g, g.rules[r].parts[dot + 1..], [])
    case Group(_) => dot + 1 == |g.rules[r].parts|
    case Skip(_) => dot + 1 == |g.rules[r].parts|
  }

  ghost predicate Asks(g: Syntax, p: Position, n: nat, item: Item)
    requires WellFormed(g)
  {
    && Expanding(g, p.rule, p.dot, n)
    && (Gives(g, p.rule, p.dot, item) || (Passes(g, p.rule, p.dot, item) && Has(LookOf(p), item)))
  }

  lemma NestedIffExpanding(g: Syntax, p: Position, n: nat)
    requires WellFormed(g) && InRule(g, p)
    ensures n in Nested(g, p) <==> Expanding(g, p.rule, p.dot, n)
  {
    assert GoodRule(g, p.rule);
    if n < |g.rules| { assert GoodRule(g, n); }
    if p.dot < |g.rules[p.rule].parts| {
      assert g.rules[p.rule].parts[p.dot] in g.rules[p.rule].parts;
      assert Term(g, g.rules[p.rule].parts[p.dot]);
    }
  }

  /** The lookahead that a position hands on is what it asks for. */
  lemma ContributionExact(g: Syntax, first: Table, p: Position, n: nat, item: Item)
    requires WellFormed(g) && Exact(g, first) && InRule(g, p) && n in Nested(g, p)
    ensures NextTerm(g, p).Some? && Expanding(g, p.rule, p.dot, n)
    ensures Has(Contribution(g, first, p), item) <==> Asks(g, p, n, item)
  {
    hide WellFormed, Exact, Begins, Derivable, TermsAheadOf, Nested;
    HasNext(g, p, n);
    NestedIffExpanding(g, p, n);
    assert GoodRule(g, p.rule) by { RuleGood(g, p.rule); }
    if item.Ahead? {
      TermsAheadExact(g, first, g.rules[p.rule].parts, p.dot, p.ahead, item.term);
    }
  }

  lemma RuleGood(g: Syntax, r: nat)
    requires WellFormed(g) && r < |g.rules|
    ensures GoodRule(g, r)
  {}

  // ---- chains -------------------------------------------------------------

  /** What one position of the core brings: a growing one what it has, any other
      what it asks for. */
  ghost predicate FromCore(g: Syntax, core: seq<Position>, i: nat, n: nat, item: Item)
    requires WellFormed(g) && i < |core|
  {
    if Grows(core, i) then core[i].rule == n && Has(LookOf(core[i]), item) else Asks(g, core[i], n, item)
  }

  /** The rule's position has the item by the core, or by a production that is
      in the closure by fewer steps and gives it or passes it on. */
  ghost predicate AskedIn(g: Syntax, core: seq<Position>, n: nat, item: Item, steps: nat)
    requires WellFormed(g)
    decreases steps
  {
    || (exists i: nat :: i < |core| && FromCore(g, core, i, n, item))
    || (steps > 0 && exists r: nat ::
          && Expanding(g, r, 0, n)
          && (|| (Gives(g, r, 0, item) && AskedIn(g, core, r, Listed, steps - 1))
              || (Passes(g, r, 0, item) && AskedIn(g, core, r, item, steps - 1))))
  }

  ghost predicate Asked(g: Syntax, core: seq<Position>, n: nat, item: Item)
    requires WellFormed(g)
  {
    exists steps: nat :: AskedIn(g, core, n, item, steps)
  }

  /** No rule is asked for two skip contexts. */
  ghost predicate Consistent(g: Syntax, core: seq<Position>)
    requires WellFormed(g)
  {
    forall n: nat, s: nat, t: nat :: Asked(g, core, n, Skip(s)) && Asked(g, core, n, Skip(t)) ==> s == t
  }

  /** The positions of the closure: the fixed ones of the core, and one for each
      rule asked for, with exactly what is asked of it. */
  ghost predicate Expected(g: Syntax, core: seq<Position>, p: Position)
    requires WellFormed(g)
  {
    || (exists i: nat :: i < |core| && !Grows(core, i) && core[i] == p)
    || (&& p.dot == 0 && Asked(g, core, p.rule, Listed)
        && forall item :: Has(LookOf(p), item) <==> Asked(g, core, p.rule, item))
  }

  // ---- every closed family has what is asked ------------------------------

  predicate InFamily(f: Family, n: nat, item: Item) {
    n in f && Has(f[n], item)
  }

  lemma WithinHas(a: Look, b: Look, item: Item)
    requires Within(a, b) && Has(a, item)
    ensures Has(b, item)
  {}

  lemma AnswerHas(g: Syntax, first: Table, p: Position, f: Family, n: nat, item: Item)
    requires WellFormed(g) && Exact(g, first) && Includes(g, first, p, f) && InRule(g, p) && Asks(g, p, n, item)
    ensures InFamily(f, n, item)
  {
    hide WellFormed, Exact, Nested, Contribution, Gives, Passes;
    NestedIffExpanding(g, p, n);
    ContributionExact(g, first, p, n, item);
    WithinHas(Contribution(g, first, p), f[n], item);
  }

  lemma {:induction false} AskedHas(g: Syntax, first: Table, core: seq<Position>, f: Family, n: nat, item: Item,
                                    steps: nat)
    requires WellFormed(g) && Exact(g, first) && (forall p <- core :: InRule(g, p))
    requires ClosedFamily(g, first, core, f) && AskedIn(g, core, n, item, steps)
    ensures InFamily(f, n, item)
    decreases steps
  {
    hide WellFormed, Exact, Includes, Gives, Passes, Has;
    if i: nat :| i < |core| && FromCore(g, core, i, n, item) {
      if Grows(core, i) {
        WithinHas(LookOf(core[i]), f[n], item);
      } else {
        AnswerHas(g, first, core[i], f, n, item);
      }
    } else {
      var r: nat :| Expanding(g, r, 0, n) &&
        (|| (Gives(g, r, 0, item) && AskedIn(g, core, r, Listed, steps - 1))
         || (Passes(g, r, 0, item) && AskedIn(g, core, r, item, steps - 1)));
      if Gives(g, r, 0, item) && AskedIn(g, core, r, Listed, steps - 1) {
        AskedHas(g, first, core, f, r, Listed, steps - 1);
      } else {
        AskedHas(g, first, core, f, r, item, steps - 1);
      }
      AnswerHas(g, first, ZeroDot(r, f[r]), f, n, item);
    }
  }

  /** So where there is a closed family, what is asked is consistent. */
  lemma ClosedConsistent(g: Syntax, first: Table, core: seq<Position>, f: Family)
    requires WellFormed(g) && Exact(g, first) && (forall p <- core :: InRule(g, p))
    requires ClosedFamily(g, first, core, f)
    ensures Consistent(g, core)
  {
    hide WellFormed, Exact, ClosedFamily, AskedIn, InRule;
    forall n: nat, s: nat, t: nat | Asked(g, core, n, Skip(s)) && Asked(g, core, n, Skip(t)) ensures s == t {
      var k: nat :| AskedIn(g, core, n, Skip(s), k);
      var m: nat :| AskedIn(g, core, n, Skip(t), m);
      AskedHas(g, first, core, f, n, Skip(s), k);
      AskedHas(g, first, core, f, n, Skip(t), m);
    }
  }

  // ---- what is asked is a closed family -----------------------------------

  lemma CoreAsked(g: Syntax, core: seq<Position>, i: nat, n: nat, item: Item)
    requires WellFormed(g) && i < |core| && FromCore(g, core, i, n, item)
    ensures Asked(g, core, n, item)
  {
    hide WellFormed, FromCore;
    assert AskedIn(g, core, n, item, 0);
  }

  lemma GivenAsked(g: Syntax, core: seq<Position>, r: nat, n: nat, item: Item)
    requires WellFormed(g) && Expanding(g, r, 0, n)
    requires Asked(g, core, r, Listed) && Gives(g, r, 0, item)
    ensures Asked(g, core, n, item)
  {
    hide WellFormed, FromCore, Gives, Passes;
    var k: nat :| AskedIn(g, core, r, Listed, k);
    assert AskedIn(g, core, n, item, k + 1);
  }

  lemma PassedAsked(g: Syntax, core: seq<Position>, r: nat, n: nat, item: Item)
    requires WellFormed(g) && Expanding(g, r, 0, n)
    requires Asked(g, core, r, item) && Passes(g, r, 0, item)
    ensures Asked(g, core, n, item)
  {
    hide WellFormed, FromCore, Gives, Passes;
    var k: nat :| AskedIn(g, core, r, item, k);
    assert AskedIn(g, core, n, item, k + 1);
  }

  /** A rule that is asked for at all is asked for some skip context. */
  lemma {:induction false} SkipAsked(g: Syntax, core: seq<Position>, n: nat, steps: nat) returns (s: nat)
    requires WellFormed(g) && AskedIn(g, core, n, Listed, steps)
    ensures Asked(g, core, n, Skip(s))
    decreases steps
  {
    hide WellFormed, Asked;
    if i: nat :| i < |core| && FromCore(g, core, i, n, Listed) {
      s := if Grows(core, i) || core[i].dot + 1 == |g.rules[core[i].rule].parts| then core[i].skipAhead
           else g.rules[core[i].rule].skip;
      CoreAsked(g, core, i, n, Skip(s));
    } else {
      var r: nat :| Expanding(g, r, 0, n) && AskedIn(g, core, r, Listed, steps - 1);
      if |g.rules[r].parts| == 1 {
        s := SkipAsked(g, core, r, steps - 1);
        PassedAsked(g, core, r, n, Skip(s));
      } else {
        s := g.rules[r].skip;
        ListedAsked(g, core, r, steps - 1);
        GivenAsked(g, core, r, n, Skip(s));
      }
    }
  }

  lemma ListedAsked(g: Syntax, core: seq<Position>, n: nat, steps: nat)
    requires WellFormed(g) && AskedIn(g, core, n, Listed, steps)
    ensures Asked(g, core, n, Listed)
  {
    hide WellFormed, AskedIn;
  }

  /** Only what the grammar and the core have is ever asked for. */
  ghost predicate Known(g: Syntax, n: nat, item: Item, terms: set<nat>, groups: set<nat>) {
    n < |g.rules| && match item
                     case Ahead(t) => t in terms
                     case Group(x) => x in groups
                     case _ => true
  }

  lemma HadKnown(g: Syntax, core: seq<Position>, p: Position, n: nat, item: Item, terms: set<nat>, groups: set<nat>)
    requires Universe(g, core, terms, groups) && p in core && n < |g.rules| && Has(LookOf(p), item)
    ensures Known(g, n, item, terms, groups)
  {}

  lemma GivenKnown(g: Syntax, core: seq<Position>, r: nat, dot: nat, n: nat, item: Item, terms: set<nat>,
                   groups: set<nat>)
    requires WellFormed(g) && Universe(g, core, terms, groups) && Expanding(g, r, dot, n) && Gives(g, r, dot, item)
    ensures Known(g, n, item, terms, groups)
  {
    hide WellFormed;
    assert GoodRule(g, r) by { RuleGood(g, r); }
    if item.Group? { assert g.rules[r].groups[dot + 1] <= groups; }
  }

  lemma {:induction false} AskedKnown(g: Syntax, core: seq<Position>, n: nat, item: Item, steps: nat, terms: set<nat>,
                                      groups: set<nat>)
    requires WellFormed(g) && Universe(g, core, terms, groups) && (forall p <- core :: InRule(g, p))
    requires AskedIn(g, core, n, item, steps)
    ensures Known(g, n, item, terms, groups)
    decreases steps
  {
    hide WellFormed, Universe, Gives, Passes, Has;
    if i: nat :| i < |core| && FromCore(g, core, i, n, item) {
      var p := core[i];
      assert p in core;
      if !Grows(core, i) && Gives(g, p.rule, p.dot, item) {
        GivenKnown(g, core, p.rule, p.dot, n, item, terms, groups);
      } else {
        HadKnown(g, core, p, n, item, terms, groups);
      }
    } else {
      var r: nat :| Expanding(g, r, 0, n) &&
        (|| (Gives(g, r, 0, item) && AskedIn(g, core, r, Listed, steps - 1))
         || (Passes(g, r, 0, item) && AskedIn(g, core, r, item, steps - 1)));
      if Gives(g, r, 0, item) && AskedIn(g, core, r, Listed, steps - 1) {
        GivenKnown(g, core, r, 0, n, item, terms, groups);
      } else {
        AskedKnown(g, core, r, item, steps - 1, terms, groups);
      }
    }
  }

  /** A family that has exactly what is asked. */
  ghost predicate ExactFamily(g: Syntax, core: seq<Position>, f: Family)
    requires WellFormed(g)
  {
    && (forall n: nat :: n in f <==> Asked(g, core, n, Listed))
    && (forall n: nat, item :: n in f ==> (Has(f[n], item) <==> Asked(g, core, n, item)))
  }

  lemma AskedFamily(g: Syntax, core: seq<Position>) returns (f: Family)
    requires WellFormed(g) && Consistent(g, core) && (forall p <- core :: InRule(g, p))
    ensures ExactFamily(g, core, f)
  {
    hide WellFormed, AskedIn, InRule, Universe, Consistent, ExactFamily;
    var terms, groups := UniverseExists(g, core);
    forall n: nat, item | Asked(g, core, n, item) ensures Known(g, n, item, terms, groups) {
      var k: nat :| AskedIn(g, core, n, item, k);
      AskedKnown(g, core, n, item, k, terms, groups);
    }
    forall n: nat | Asked(g, core, n, Listed) ensures exists s: nat :: Asked(g, core, n, Skip(s)) {
      var k: nat :| AskedIn(g, core, n, Listed, k);
      var s := SkipAsked(g, core, n, k);
    }
    f := map n: nat | n < |g.rules| && Asked(g, core, n, Listed) :: AskedLook(g, core, n, terms, groups);
    forall n: nat ensures n in f <==> Asked(g, core, n, Listed) {
      if Asked(g, core, n, Listed) { assert Known(g, n, Listed, terms, groups); }
    }
    forall n: nat, item | n in f ensures Has(f[n], item) <==> Asked(g, core, n, item) {
      AskedLookExact(g, core, n, item, terms, groups);
    }
    assert ExactFamily(g, core, f) by { FamilyExact(g, core, f); }
  }

  lemma FamilyExact(g: Syntax, core: seq<Position>, f: Family)
    requires WellFormed(g)
    requires forall n: nat :: n in f <==> Asked(g, core, n, Listed)
    requires forall n: nat, item :: n in f ==> (Has(f[n], item) <==> Asked(g, core, n, item))
    ensures ExactFamily(g, core, f)
  {
    hide WellFormed, Asked, Has;
  }

  ghost function AskedLook(g: Syntax, core: seq<Position>, n: nat, terms: set<nat>, groups: set<nat>): (look: Look)
    requires WellFormed(g) && exists s: nat :: Asked(g, core, n, Skip(s))
  {
    var s: nat :| Asked(g, core, n, Skip(s));
    Look((set t | t in terms && Asked(g, core, n, Ahead(t))), (set x | x in groups && Asked(g, core, n, Group(x))), s)
  }

  lemma AskedLookExact(g: Syntax, core: seq<Position>, n: nat, item: Item, terms: set<nat>, groups: set<nat>)
    requires WellFormed(g) && Consistent(g, core) && Asked(g, core, n, Listed)
    requires exists s: nat :: Asked(g, core, n, Skip(s))
    requires Asked(g, core, n, item) ==> Known(g, n, item, terms, groups)
    ensures Has(AskedLook(g, core, n, terms, groups), item) <==> Asked(g, core, n, item)
  {
    hide WellFormed, Asked;
    if item.Skip? && Has(AskedLook(g, core, n, terms, groups), item) {
      assert Asked(g, core, n, Skip(AskedLook(g, core, n, terms, groups).skipAhead));
    }
  }

  lemma HasWithin(a: Look, b: Look)
    requires forall item :: Has(a, item) ==> Has(b, item)
    ensures Within(a, b)
  {
    assert Has(a, Skip(a.skipAhead));
    forall t | t in a.ahead ensures t in b.ahead {
      assert Has(a, Ahead(t));
    }
    forall x | x in a.ambiguity ensures x in b.ambiguity {
      assert Has(a, Group(x));
    }
  }

  /** A position all of whose requests are asked is answered by an exact family. */
  lemma AskedIncludes(g: Syntax, first: Table, core: seq<Position>, f: Family, p: Position)
    requires WellFormed(g) && Exact(g, first) && ExactFamily(g, core, f) && InRule(g, p)
    requires forall n: nat, item :: Asks(g, p, n, item) ==> Asked(g, core, n, item)
    ensures Includes(g, first, p, f)
  {
    hide WellFormed, Exact, Asked, Nested, Contribution, Has, Gives, Passes, Asks;
    forall n <- Nested(g, p) ensures NextTerm(g, p).Some? { HasNext(g, p, n); }
    forall n <- Nested(g, p) ensures n in f && Within(Contribution(g, first, p), f[n]) {
      ContributionExact(g, first, p, n, Listed);
      ListedAsks(g, p, n);
      assert Asked(g, core, n, Listed);
      forall item | Has(Contribution(g, first, p), item) ensures Has(f[n], item) {
        ContributionExact(g, first, p, n, item);
      }
      HasWithin(Contribution(g, first, p), f[n]);
    }
  }

  lemma ListedAsks(g: Syntax, p: Position, n: nat)
    requires WellFormed(g) && Expanding(g, p.rule, p.dot, n)
    ensures Asks(g, p, n, Listed)
  {
    hide WellFormed;
  }

  lemma ExactClosed(g: Syntax, first: Table, core: seq<Position>, f: Family)
    requires WellFormed(g) && Exact(g, first) && (forall p <- core :: InRule(g, p)) && ExactFamily(g, core, f)
    ensures ClosedFamily(g, first, core, f)
  {
    hide WellFormed, Exact, Asked, Includes, Has, Gives, Passes;
    forall i: nat {:trigger core[i]} | i < |core|
      ensures if Grows(core, i) then core[i].rule in f && Within(LookOf(core[i]), f[core[i].rule])
              else Includes(g, first, core[i], f)
    {
      assert core[i] in core;
      if Grows(core, i) {
        GrowingWithin(g, core, f, i);
      } else {
        forall n: nat, item | Asks(g, core[i], n, item) ensures Asked(g, core, n, item) {
          CoreAsked(g, core, i, n, item);
        }
        AskedIncludes(g, first, core, f, core[i]);
      }
    }
    forall r | r in f ensures Includes(g, first, ZeroDot(r, f[r]), f) {
      ExactMember(g, first, core, f, r);
    }
  }

  lemma GrowingWithin(g: Syntax, core: seq<Position>, f: Family, i: nat)
    requires WellFormed(g) && ExactFamily(g, core, f) && i < |core| && Grows(core, i)
    ensures core[i].rule in f && Within(LookOf(core[i]), f[core[i].rule])
  {
    hide WellFormed, Asked, Asks;
    CoreAsked(g, core, i, core[i].rule, Listed);
    forall item | Has(LookOf(core[i]), item) ensures Has(f[core[i].rule], item) {
      CoreAsked(g, core, i, core[i].rule, item);
    }
    HasWithin(LookOf(core[i]), f[core[i].rule]);
  }

  lemma ExactMember(g: Syntax, first: Table, core: seq<Position>, f: Family, r: nat)
    requires WellFormed(g) && Exact(g, first) && ExactFamily(g, core, f) && r in f
    ensures Includes(g, first, ZeroDot(r, f[r]), f)
  {
    hide WellFormed, Exact, Asked, Nested, Contribution, Gives, Passes;
    var p := ZeroDot(r, f[r]);
    if InRule(g, p) {
      forall n: nat, item | Asks(g, p, n, item) ensures Asked(g, core, n, item) {
        if Gives(g, r, 0, item) {
          GivenAsked(g, core, r, n, item);
        } else {
          PassedAsked(g, core, r, n, item);
        }
      }
      AskedIncludes(g, first, core, f, p);
    }
  }

  // ---- the least family ---------------------------------------------------

  /** There is a closed family exactly when no rule is asked for two skip
      contexts. */
  lemma ClosedIffConsistent(g: Syntax, first: Table, core: seq<Position>)
    requires WellFormed(g) && Exact(g, first) && (forall p <- core :: InRule(g, p))
    ensures (exists f: Family :: ClosedFamily(g, first, core, f)) <==> Consistent(g, core)
  {
    hide WellFormed, Exact, ClosedFamily, InRule, Consistent;
    if f: Family :| ClosedFamily(g, first, core, f) {
      ClosedConsistent(g, first, core, f);
    } else if Consistent(g, core) {
      var f := AskedFamily(g, core);
      ExactClosed(g, first, core, f);
    }
  }

  /** The least closed family holds exactly what is asked. */
  lemma LeastExact(g: Syntax, first: Table, core: seq<Position>, z: Family)
    requires WellFormed(g) && Exact(g, first) && (forall p <- core :: InRule(g, p))
    requires ClosedFamily(g, first, core, z) && Least(g, first, core, z)
    ensures ExactFamily(g, core, z)
  {
    hide WellFormed, Exact, ClosedFamily, InRule, Consistent, AskedIn, Has, Within;
    ClosedConsistent(g, first, core, z);
    var f := AskedFamily(g, core);
    ExactClosed(g, first, core, f);
    forall n: nat, item | Asked(g, core, n, item) ensures InFamily(z, n, item) {
      var k: nat :| AskedIn(g, core, n, item, k);
      AskedHas(g, first, core, z, n, item, k);
    }
    forall n: nat | n in z ensures Asked(g, core, n, Listed) {
      assert Forced(g, first, core, n, z[n]);
    }
    forall n: nat, item | n in z && Has(z[n], item) ensures Asked(g, core, n, item) {
      assert Forced(g, first, core, n, z[n]);
      WithinHas(z[n], f[n], item);
    }
  }

  lemma SameLook(a: Look, b: Look)
    requires forall item :: Has(a, item) <==> Has(b, item)
    ensures a == b
  {
    HasWithin(a, b);
    HasWithin(b, a);
  }

  /** So its positions are the expected ones. */
  lemma MemberExpected(g: Syntax, core: seq<Position>, z: Family, p: Position)
    requires WellFormed(g) && ExactFamily(g, core, z)
    ensures Member(core, z, p) <==> Expected(g, core, p)
  {
    hide WellFormed, Asked, Has, Grows;
    if Expected(g, core, p) && p.rule in z && p.dot == 0 {
      if forall item :: Has(LookOf(p), item) <==> Asked(g, core, p.rule, item) {
        SameLook(LookOf(p), z[p.rule]);
      }
    }
  }
}
