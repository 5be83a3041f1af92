/** LR(1) positions, what each asks of the rules of its next term, and the
    families of lookaheads that answer everything asked. */
module LookaheadFamily {
  import opened Options
  import opened FirstSets

  datatype Position = Position(rule: nat, dot: nat, ahead: set<nat>, ambiguity: set<nat>, skipAhead: nat)

  /** The part of a position that the closure grows. */
  datatype Look = Look(ahead: set<nat>, ambiguity: set<nat>, skipAhead: nat)

  predicate InRule(g: Syntax, p: Position) {
    p.rule < |g.rules| && p.dot <= |g.rules[p.rule].parts|
  }

  function LookOf(p: Position): Look {
    Look(p.ahead, p.ambiguity, p.skipAhead)
  }

  function ZeroDot(rule: nat, look: Look): Position {
    Position(rule, 0, look.ahead, look.ambiguity, look.skipAhead)
  }

  predicate Within(a: Look, b: Look) {
    a.ahead <= b.ahead && a.ambiguity <= b.ambiguity && a.skipAhead == b.skipAhead
  }

  // ---- what a position asks of others -------------------------------------

  /** What can follow the part at `dot`: how the rest begins, and what follows
      the whole if the rest can vanish. */
  function TermsAheadOf(g: Syntax, first: Table, parts: seq<nat>, dot: nat, after: set<nat>): set<nat>
    requires dot < |parts|
  {
    var begins := FirstOf(g, first, parts[dot + 1..]);
    (set e | e in begins && e.Some? :: e.value) + if None in begins then after else {}
  }

  method TermsAhead(g: Syntax, first: Table, parts: seq<nat>, dot: nat, after: set<nat>) returns (found: set<nat>)
    requires dot < |parts| && |first| == |g.terminal| && forall p <- parts :: p < |g.terminal|
    ensures found == TermsAheadOf(g, first, parts, dot, after)
  {
    found := {};
    var i := dot + 1;
    ghost var whole := FirstOf(g, first, parts[dot + 1..]);
    while i < |parts|
      invariant dot < i <= |parts|
      invariant whole == (set t | t in found :: Some(t)) + FirstOf(g, first, parts[i..])
    {
      var next := parts[i];
      assert next in parts;
      assert parts[i..][1..] == parts[i + 1..];
      ghost var before := found;
      var nullable := false;
      if g.terminal[next] {
        found := found + {next};
      } else {
        found := found + set e | e in first[next] && e.Some? :: e.value;
        nullable := None in first[next];
      }
      FoundMore(g, first, before, found, parts[i..], whole);
      if !nullable {
        FoundAll(found, whole);
        return;
      }
      i := i + 1;
    }
    assert parts[i..] == [];
    FoundNull(found, whole);
    found := found + after;
  }

  lemma FoundMore(g: Syntax, first: Table, before: set<nat>, found: set<nat>, rest: seq<nat>, whole: set<Option<nat>>)
    requires |first| == |g.terminal| && rest != [] && rest[0] < |g.terminal|
    requires whole == (set t | t in before :: Some(t)) + FirstOf(g, first, rest)
    requires found == before + if g.terminal[rest[0]] then {rest[0]}
                               else set e | e in first[rest[0]] && e.Some? :: e.value
    ensures !g.terminal[rest[0]] && None in first[rest[0]] ==>
              whole == (set t | t in found :: Some(t)) + FirstOf(g, first, rest[1..])
    ensures g.terminal[rest[0]] || None !in first[rest[0]] ==> whole == set t | t in found :: Some(t)
  {
    var here := set t | t in found :: Some(t);
    if !g.terminal[rest[0]] {
      forall e | e in first[rest[0]] && e.Some? ensures e in here {
        assert e.value in found && e == Some(e.value);
      }
    }
  }

  lemma FoundAll(found: set<nat>, whole: set<Option<nat>>)
    requires whole == set t | t in found :: Some(t)
    ensures found == set e | e in whole && e.Some? :: e.value
    ensures None !in whole
  {
    forall t | t in found ensures t in set e | e in whole && e.Some? :: e.value {
      assert Some(t) in whole;
    }
  }

  lemma FoundNull(found: set<nat>, whole: set<Option<nat>>)
    requires whole == (set t | t in found :: Some(t)) + {None}
    ensures found == set e | e in whole && e.Some? :: e.value
  {
    forall t | t in found ensures t in set e | e in whole && e.Some? :: e.value {
      assert Some(t) in whole;
    }
  }

  /** With exact first sets, a term is ahead exactly when it is a terminal that
      the rest can begin with, or comes after and the rest can vanish. */
  lemma TermsAheadExact(g: Syntax, first: Table, parts: seq<nat>, dot: nat, after: set<nat>, t: nat)
    requires WellFormed(g) && Exact(g, first) && dot < |parts|
    ensures t in TermsAheadOf(g, first, parts, dot, after)
       <==> (t < |g.terminal| && g.terminal[t] && Begins(g, parts[dot + 1..], t))
            || (Derivable(g, parts[dot + 1..], []) && t in after)
  {
    hide WellFormed, FirstOf, Begins, Derivable, Sound, Closed;
    var rest := parts[dot + 1..];
    var begins := FirstOf(g, first, rest);
    ExactFirst(g, first, rest, None);
    if t < |g.terminal| && g.terminal[t] {
      ExactFirst(g, first, rest, Some(t));
    } else if Some(t) in begins {
      FirstOfSound(g, first, rest, Some(t));
    }
    if Some(t) in begins { assert t in set e | e in begins && e.Some? :: e.value; }
  }

  /** The nonterminal after the dot. */
  function NextTerm(g: Syntax, p: Position): Option<nat>
    requires InRule(g, p)
  {
    if p.dot < |g.rules[p.rule].parts| then
      var t := g.rules[p.rule].parts[p.dot];
      if t < |g.terminal| && t < |g.rulesOf| && !g.terminal[t] then Some(t) else None
    else None
  }

  function Nested(g: Syntax, p: Position): seq<nat>
    requires InRule(g, p)
  {
    match NextTerm(g, p)
    case None => []
    case Some(t) => g.rulesOf[t]
  }

  /** The lookahead that a position hands to the rules of its next term. */
  function Contribution(g: Syntax, first: Table, p: Position): Look
    requires WellFormed(g) && InRule(g, p) && NextTerm(g, p).Some?
  {
    assert GoodRule(g, p.rule);
    var rule := g.rules[p.rule];
    Look(TermsAheadOf(g, first, rule.parts, p.dot, p.ahead),
         rule.groups[p.dot + 1] + if p.dot + 1 == |rule.parts| then p.ambiguity else {},
         if p.dot + 1 == |rule.parts| then p.skipAhead else rule.skip)
  }

  // ---- closed families ----------------------------------------------------

  type Family = map<nat, Look>

  ghost predicate Includes(g: Syntax, first: Table, p: Position, f: Family)
    requires WellFormed(g)
  {
    InRule(g, p) ==> forall r <- Nested(g, p) :: r in f && Within(Contribution(g, first, p), f[r])
  }

  /** The first position of its rule with the dot at the start; only these grow. */
  predicate Grows(core: seq<Position>, i: nat)
    requires i < |core|
  {
    core[i].dot == 0 && forall j :: 0 <= j < i ==> core[j].dot != 0 || core[j].rule != core[i].rule
  }

  /** A family of zero-dot lookaheads that contains the core and everything that
      its positions and its own members ask for. */
  ghost predicate ClosedFamily(g: Syntax, first: Table, core: seq<Position>, f: Family)
    requires WellFormed(g)
  {
    && (forall i {:trigger core[i]} :: 0 <= i < |core| ==>
          if Grows(core, i) then core[i].rule in f && Within(LookOf(core[i]), f[core[i].rule])
          else Includes(g, first, core[i], f))
    && (forall r :: r in f ==> Includes(g, first, ZeroDot(r, f[r]), f))
  }

  /** Every closed family contains at least this. */
  ghost predicate Forced(g: Syntax, first: Table, core: seq<Position>, r: nat, look: Look)
    requires WellFormed(g)
  {
    forall f: Family :: ClosedFamily(g, first, core, f) ==> r in f && Within(look, f[r])
  }

  ghost predicate Least(g: Syntax, first: Table, core: seq<Position>, f: Family)
    requires WellFormed(g)
  {
    forall r :: r in f ==> Forced(g, first, core, r, f[r])
  }

  lemma ContributionMonotone(g: Syntax, first: Table, p: Position, q: Position)
    requires WellFormed(g) && InRule(g, p) && p.rule == q.rule && p.dot == q.dot && NextTerm(g, p).Some?
    requires Within(LookOf(p), LookOf(q))
    ensures InRule(g, q) && NextTerm(g, q) == NextTerm(g, p) && Nested(g, q) == Nested(g, p)
    ensures Within(Contribution(g, first, p), Contribution(g, first, q))
  {}

  /** What a member of the least family asks for is forced as well. */
  lemma ForcedNested(g: Syntax, first: Table, core: seq<Position>, z: Family, r: nat, n: nat)
    requires WellFormed(g) && Least(g, first, core, z) && r in z && InRule(g, ZeroDot(r, z[r]))
    requires n in Nested(g, ZeroDot(r, z[r]))
    ensures NextTerm(g, ZeroDot(r, z[r])).Some?
    ensures Forced(g, first, core, n, Contribution(g, first, ZeroDot(r, z[r])))
  {
    hide Nested, Contribution, WellFormed;
    HasNext(g, ZeroDot(r, z[r]), n);
    forall f: Family | ClosedFamily(g, first, core, f)
      ensures n in f && Within(Contribution(g, first, ZeroDot(r, z[r])), f[n])
    {
      assert Forced(g, first, core, r, z[r]);
      ContributionMonotone(g, first, ZeroDot(r, z[r]), ZeroDot(r, f[r]));
      assert Includes(g, first, ZeroDot(r, f[r]), f);
    }
  }

  lemma HasNext(g: Syntax, p: Position, n: nat)
    requires InRule(g, p) && n in Nested(g, p)
    ensures NextTerm(g, p).Some?
  {}

  /** What a fixed core position asks for is forced. */
  lemma ForcedByCore(g: Syntax, first: Table, core: seq<Position>, i: nat, n: nat)
    requires WellFormed(g) && i < |core| && !Grows(core, i) && InRule(g, core[i]) && n in Nested(g, core[i])
    ensures NextTerm(g, core[i]).Some?
    ensures Forced(g, first, core, n, Contribution(g, first, core[i]))
  {
    hide Nested, Contribution, WellFormed;
    HasNext(g, core[i], n);
    forall f: Family | ClosedFamily(g, first, core, f)
      ensures n in f && Within(Contribution(g, first, core[i]), f[n])
    {
      assert Includes(g, first, core[i], f);
    }
  }

  function Joined(a: Look, b: Look): Look {
    Look(a.ahead + b.ahead, a.ambiguity + b.ambiguity, a.skipAhead)
  }

  lemma ForcedJoin(g: Syntax, first: Table, core: seq<Position>, r: nat, a: Look, b: Look)
    requires WellFormed(g) && Forced(g, first, core, r, a) && Forced(g, first, core, r, b)
    ensures a.skipAhead == b.skipAhead ==> Forced(g, first, core, r, Joined(a, b))
    ensures a.skipAhead != b.skipAhead ==> forall f: Family :: !ClosedFamily(g, first, core, f)
  {
    hide ClosedFamily;
  }

  /** The positions of a family beside the fixed positions of the core. */
  ghost predicate Member(core: seq<Position>, z: Family, p: Position) {
    || (exists i: nat :: i < |core| && !Grows(core, i) && core[i] == p)
    || (p.rule in z && p == ZeroDot(p.rule, z[p.rule]))
  }

  // ---- universes ----------------------------------------------------------

  /** All terms and groups that lookaheads can hold. */
  ghost predicate Universe(g: Syntax, core: seq<Position>, terms: set<nat>, groups: set<nat>) {
    && (forall t: nat :: t < |g.terminal| ==> t in terms)
    && (forall p <- core :: p.ahead <= terms && p.ambiguity <= groups)
    && (forall r: nat, k: nat :: r < |g.rules| && k < |g.rules[r].groups| ==> g.rules[r].groups[k] <= groups)
  }

  lemma UniverseExists(g: Syntax, core: seq<Position>) returns (terms: set<nat>, groups: set<nat>)
    ensures Universe(g, core, terms, groups)
  {
    var entries := Entries(|g.terminal|);
    terms := (set e | e in entries && e.Some? :: e.value) + set p, t | p in core && t in p.ahead :: t;
    groups := (set p, x | p in core && x in p.ambiguity :: x)
      + set r, k, x | 0 <= r < |g.rules| && 0 <= k < |g.rules[r].groups| && x in g.rules[r].groups[k] :: x;
    forall t: nat | t < |g.terminal| ensures t in terms {
      assert Some(t) in entries;
    }
  }

  lemma SoundBounded(g: Syntax, first: Table, s: seq<nat>)
    requires Sound(g, first)
    ensures forall e <- FirstOf(g, first, s) :: e.Some? ==> e.value < |g.terminal|
  {
    hide FirstOf, Begins;
    forall e <- FirstOf(g, first, s) ensures e.Some? ==> e.value < |g.terminal| {
      FirstOfSound(g, first, s, e);
    }
  }

  lemma ContributionInside(g: Syntax, first: Table, core: seq<Position>, p: Position, terms: set<nat>, groups: set<nat>)
    requires WellFormed(g) && Sound(g, first) && Universe(g, core, terms, groups)
    requires InRule(g, p) && NextTerm(g, p).Some? && p.ahead <= terms && p.ambiguity <= groups
    ensures Contribution(g, first, p).ahead <= terms && Contribution(g, first, p).ambiguity <= groups
  {
    hide FirstOf, Sound;
    assert GoodRule(g, p.rule);
    SoundBounded(g, first, g.rules[p.rule].parts[p.dot + 1..]);
  }
}
