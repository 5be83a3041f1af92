/** First sets of nonterminals: what the relaxation computes, and what
    sentential forms really begin with. */
module FirstSets {
  import opened Options

  /** `groups` holds the ambiguity groups at each position of the production. */
  datatype Production = Production(name: nat, parts: seq<nat>, groups: seq<set<nat>>, skip: nat)

  datatype Syntax = Syntax(terminal: seq<bool>, rulesOf: seq<seq<nat>>, rules: seq<Production>)

  predicate Term(g: Syntax, t: nat) {
    t < |g.terminal| && t < |g.rulesOf|
  }

  predicate GoodRule(g: Syntax, r: nat) {
    && r < |g.rules|
    && Term(g, g.rules[r].name) && !g.terminal[g.rules[r].name]
    && (forall p <- g.rules[r].parts :: Term(g, p))
    && |g.rules[r].groups| == |g.rules[r].parts| + 1
    && r in g.rulesOf[g.rules[r].name]
  }

  ghost predicate WellFormed(g: Syntax) {
    && |g.terminal| == |g.rulesOf|
    && (forall r: nat :: r < |g.rules| ==> GoodRule(g, r))
    && (forall t: nat :: Term(g, t) && !g.terminal[t] ==>
          forall r <- g.rulesOf[t] :: r < |g.rules| && g.rules[r].name == t)
  }

  // ---- derivations --------------------------------------------------------

  function Replaced(s: seq<nat>, i: nat, parts: seq<nat>): seq<nat>
    requires i < |s|
  {
    s[..i] + parts + s[i + 1..]
  }

  ghost predicate Expands(g: Syntax, s: seq<nat>, m: seq<nat>, i: nat, r: nat) {
    i < |s| && r < |g.rules| && g.rules[r].name == s[i] && m == Replaced(s, i, g.rules[r].parts)
  }

  ghost predicate Step(g: Syntax, s: seq<nat>, m: seq<nat>) {
    exists i: nat, r: nat :: Expands(g, s, m, i, r)
  }

  ghost predicate Derives(g: Syntax, s: seq<nat>, d: seq<nat>, n: nat)
    decreases n
  {
    if n == 0 then s == d else exists m: seq<nat> :: Step(g, s, m) && Derives(g, m, d, n - 1)
  }

  ghost predicate Derivable(g: Syntax, s: seq<nat>, d: seq<nat>) {
    exists n: nat :: Derives(g, s, d, n)
  }

  /** Some sentential form derived from `s` begins with `t`. */
  ghost predicate Begins(g: Syntax, s: seq<nat>, t: nat) {
    exists rest: seq<nat> :: Derivable(g, s, [t] + rest)
  }

  lemma DerivesFirst(g: Syntax, s: seq<nat>, m: seq<nat>, d: seq<nat>, n: nat)
    requires n > 0 && Step(g, s, m) && Derives(g, m, d, n - 1)
    ensures Derives(g, s, d, n)
  {
    hide Step;
  }

  lemma {:induction false} DerivesAfter(g: Syntax, s: seq<nat>, d: seq<nat>, after: seq<nat>, n: nat)
    requires Derives(g, s, d, n)
    ensures Derives(g, s + after, d + after, n)
    decreases n
  {
    if n > 0 {
      var m: seq<nat> :| Step(g, s, m) && Derives(g, m, d, n - 1);
      var i: nat, r: nat :| Expands(g, s, m, i, r);
      var longer: seq<nat> := m + after;
      assert Replaced(s + after, i, g.rules[r].parts) == longer;
      assert Expands(g, s + after, longer, i, r);
      DerivesAfter(g, m, d, after, n - 1);
      DerivesFirst(g, s + after, longer, d + after, n);
    }
  }

  lemma {:induction false} DerivesTwice(g: Syntax, s: seq<nat>, m: seq<nat>, d: seq<nat>, a: nat, b: nat)
    requires Derives(g, s, m, a) && Derives(g, m, d, b)
    ensures Derives(g, s, d, a + b)
    decreases a
  {
    hide Step;
    if a > 0 {
      var k: seq<nat> :| Step(g, s, k) && Derives(g, k, m, a - 1);
      DerivesTwice(g, k, m, d, a - 1, b);
    }
  }

  lemma RuleDerives(g: Syntax, r: nat, d: seq<nat>)
    requires r < |g.rules| && Derivable(g, g.rules[r].parts, d)
    ensures Derivable(g, [g.rules[r].name], d)
  {
    var parts, name := g.rules[r].parts, g.rules[r].name;
    assert Replaced([name], 0, parts) == parts;
    assert Expands(g, [name], parts, 0, r);
    var n: nat :| Derives(g, parts, d, n);
    DerivesFirst(g, [name], parts, d, n + 1);
  }

  // ---- first sets of sequences --------------------------------------------

  type Table = seq<set<Option<nat>>>

  /** The table's first set of a sequence; `None` stands for the empty one. */
  function FirstOf(g: Syntax, table: Table, s: seq<nat>): set<Option<nat>> {
    if s == [] then {None}
    else if s[0] < |g.terminal| && g.terminal[s[0]] then {Some(s[0])}
    else if s[0] >= |table| then {}
    else (table[s[0]] - {None}) + if None in table[s[0]] then FirstOf(g, table, s[1..]) else {}
  }

  lemma {:induction false} FirstOfConcat(g: Syntax, table: Table, a: seq<nat>, b: seq<nat>)
    ensures FirstOf(g, table, a + b)
         == (FirstOf(g, table, a) - {None})
            + if None in FirstOf(g, table, a) then FirstOf(g, table, b) else {}
    decreases |a|
  {
    if a == [] {
      assert a + b == b;
    } else {
      assert (a + b)[1..] == a[1..] + b;
      FirstOfConcat(g, table, a[1..], b);
    }
  }

  ghost predicate Covers(g: Syntax, table: Table, r: nat)
    requires r < |g.rules|
  {
    g.rules[r].name < |table| && FirstOf(g, table, g.rules[r].parts) <= table[g.rules[r].name]
  }

  /** Every production of a nonterminal contributes to its set. */
  ghost predicate Closed(g: Syntax, table: Table) {
    && |table| == |g.terminal|
    && forall r: nat :: r < |g.rules| ==> Covers(g, table, r)
  }

  /** Deriving from a sequence can only lose first symbols. */
  lemma StepShrinks(g: Syntax, table: Table, s: seq<nat>, m: seq<nat>)
    requires WellFormed(g) && Closed(g, table) && Step(g, s, m)
    ensures FirstOf(g, table, m) <= FirstOf(g, table, s)
  {
    hide FirstOf;
    var i: nat, r: nat :| Expands(g, s, m, i, r);
    assert GoodRule(g, r) && Covers(g, table, r);
    var before, parts, after := s[..i], g.rules[r].parts, s[i + 1..];
    assert s == before + ([s[i]] + after);
    assert m == before + (parts + after);
    FirstOfConcat(g, table, before, [s[i]] + after);
    FirstOfConcat(g, table, before, parts + after);
    FirstOfConcat(g, table, [s[i]], after);
    FirstOfConcat(g, table, parts, after);
    FirstOfOne(g, table, s[i]);
  }

  lemma FirstOfOne(g: Syntax, table: Table, t: nat)
    requires t < |g.terminal| && t < |table| && !g.terminal[t]
    ensures FirstOf(g, table, [t]) == table[t]
  {
    assert [t][1..] == [];
  }

  lemma {:induction false} DerivesShrinks(g: Syntax, table: Table, s: seq<nat>, d: seq<nat>, n: nat)
    requires WellFormed(g) && Closed(g, table) && Derives(g, s, d, n)
    ensures FirstOf(g, table, d) <= FirstOf(g, table, s)
    decreases n
  {
    hide WellFormed, Closed, Step, FirstOf;
    if n > 0 {
      var m: seq<nat> :| Step(g, s, m) && Derives(g, m, d, n - 1);
      StepShrinks(g, table, s, m);
      DerivesShrinks(g, table, m, d, n - 1);
    }
  }

  // ---- soundness ----------------------------------------------------------

  /** What an entry claims about a sequence. */
  ghost predicate Claim(g: Syntax, s: seq<nat>, e: Option<nat>) {
    match e
    case None => Derivable(g, s, [])
    case Some(t) => t < |g.terminal| && g.terminal[t] && Begins(g, s, t)
  }

  ghost predicate Sound(g: Syntax, table: Table) {
    && |table| == |g.terminal|
    && forall t: nat, e :: t < |table| && e in table[t] ==> Claim(g, [t], e)
  }

  lemma BeginsItself(g: Syntax, t: nat, after: seq<nat>)
    ensures Begins(g, [t] + after, t)
  {
    assert Derives(g, [t] + after, [t] + after, 0);
    assert Derivable(g, [t] + after, [t] + after);
  }

  /** What one symbol begins with, the sequence does. */
  lemma ClaimHead(g: Syntax, t: nat, after: seq<nat>, e: Option<nat>)
    requires Claim(g, [t], e) && e.Some?
    ensures Claim(g, [t] + after, e)
  {
    hide Derives;
    var rest: seq<nat> :| Derivable(g, [t], [e.value] + rest);
    var n: nat :| Derives(g, [t], [e.value] + rest, n);
    DerivesAfter(g, [t], [e.value] + rest, after, n);
    assert [e.value] + rest + after == [e.value] + (rest + after);
    assert Derivable(g, [t] + after, [e.value] + (rest + after));
  }

  /** When the head can vanish, what the tail begins with counts. */
  lemma ClaimTail(g: Syntax, t: nat, after: seq<nat>, e: Option<nat>)
    requires Derivable(g, [t], []) && Claim(g, after, e)
    ensures Claim(g, [t] + after, e)
  {
    hide Derives;
    var n: nat :| Derives(g, [t], [], n);
    DerivesAfter(g, [t], [], after, n);
    assert [] + after == after;
    match e
    case None =>
      var k: nat :| Derives(g, after, [], k);
      DerivesTwice(g, [t] + after, after, [], n, k);
    case Some(first) =>
      var rest: seq<nat> :| Derivable(g, after, [first] + rest);
      var k: nat :| Derives(g, after, [first] + rest, k);
      DerivesTwice(g, [t] + after, after, [first] + rest, n, k);
      assert Derivable(g, [t] + after, [first] + rest);
  }

  lemma {:induction false} FirstOfSound(g: Syntax, table: Table, s: seq<nat>, e: Option<nat>)
    requires Sound(g, table) && e in FirstOf(g, table, s)
    ensures Claim(g, s, e)
    decreases |s|
  {
    hide Claim;
    if s == [] {
      EmptyClaim(g);
    } else {
      var t, after := s[0], s[1..];
      assert s == [t] + after;
      if t < |g.terminal| && g.terminal[t] {
        TerminalClaim(g, t, after);
      } else if e in table[t] && e.Some? {
        assert Claim(g, [t], e);
        ClaimHead(g, t, after, e);
      } else {
        assert Claim(g, [t], None);
        FirstOfSound(g, table, after, e);
        NoneClaim(g, t);
        ClaimTail(g, t, after, e);
      }
    }
  }

  lemma EmptyClaim(g: Syntax)
    ensures Claim(g, [], None)
  {
    assert Derives(g, [], [], 0);
  }

  lemma TerminalClaim(g: Syntax, t: nat, after: seq<nat>)
    requires t < |g.terminal| && g.terminal[t]
    ensures Claim(g, [t] + after, Some(t))
  {
    BeginsItself(g, t, after);
  }

  lemma NoneClaim(g: Syntax, t: nat)
    requires Claim(g, [t], None)
    ensures Derivable(g, [t], [])
  {}

  lemma RuleClaim(g: Syntax, r: nat, e: Option<nat>)
    requires r < |g.rules| && Claim(g, g.rules[r].parts, e)
    ensures Claim(g, [g.rules[r].name], e)
  {
    hide Derivable;
    match e
    case None => RuleDerives(g, r, []);
    case Some(t) =>
      var rest: seq<nat> :| Derivable(g, g.rules[r].parts, [t] + rest);
      RuleDerives(g, r, [t] + rest);
  }

  // ---- exactness ----------------------------------------------------------

  /** An entry is in the set exactly when the nonterminal can vanish, or derive
      a form that begins with the terminal. */
  ghost predicate Exact(g: Syntax, table: Table) {
    && Sound(g, table)
    && Closed(g, table)
  }

  lemma ExactFirst(g: Syntax, table: Table, s: seq<nat>, e: Option<nat>)
    requires WellFormed(g) && Exact(g, table) && (e.Some? ==> e.value < |g.terminal| && g.terminal[e.value])
    ensures e in FirstOf(g, table, s) <==> Claim(g, s, e)
  {
    hide WellFormed, Sound, Closed, Derives, FirstOf;
    if e in FirstOf(g, table, s) { FirstOfSound(g, table, s, e); }
    if Claim(g, s, e) {
      match e {
        case None =>
          var n: nat :| Derives(g, s, [], n);
          DerivesShrinks(g, table, s, [], n);
          FirstOfEmpty(g, table);
        case Some(t) =>
          var rest: seq<nat> :| Derivable(g, s, [t] + rest);
          var n: nat :| Derives(g, s, [t] + rest, n);
          DerivesShrinks(g, table, s, [t] + rest, n);
          FirstOfTerminal(g, table, t, rest);
      }
    }
  }

  lemma FirstOfEmpty(g: Syntax, table: Table)
    ensures FirstOf(g, table, []) == {None}
  {}

  lemma FirstOfTerminal(g: Syntax, table: Table, t: nat, rest: seq<nat>)
    requires t < |g.terminal| && g.terminal[t]
    ensures FirstOf(g, table, [t] + rest) == {Some(t)}
  {}

  /** The entry of a nonterminal in an exact table. */
  lemma ExactEntry(g: Syntax, table: Table, t: nat, e: Option<nat>)
    requires WellFormed(g) && Exact(g, table) && t < |g.terminal| && !g.terminal[t]
    requires e.Some? ==> e.value < |g.terminal| && g.terminal[e.value]
    ensures e in table[t] <==> Claim(g, [t], e)
  {
    hide WellFormed, FirstOf, Claim, Closed;
    FirstOfOne(g, table, t);
    ExactFirst(g, table, [t], e);
  }

  // ---- relaxation ---------------------------------------------------------

  /** The first set of a production under the table so far. */
  method RuleFirst(g: Syntax, table: Table, parts: seq<nat>) returns (additions: set<Option<nat>>)
    requires |table| == |g.terminal| && forall p <- parts :: p < |g.terminal|
    ensures additions == FirstOf(g, table, parts)
  {
    additions := {};
    var found := false;
    var i := 0;
    while i < |parts|
      invariant i <= |parts| && !found && None !in additions
      invariant FirstOf(g, table, parts) == additions + FirstOf(g, table, parts[i..])
    {
      var part := parts[i];
      assert part in parts;
      assert parts[i..][1..] == parts[i + 1..];
      found := true;
      if g.terminal[part] {
        additions := additions + {Some(part)};
      } else {
        if None in table[part] {
          found := false;
        }
        additions := additions + (table[part] - {None});
      }
      if found {
        return;
      }
      i := i + 1;
    }
    additions := additions + {None};
  }

  function Entries(n: nat): set<Option<nat>> {
    {None} + set t: nat | t < n :: Some(t)
  }

  /** How many entries the table could still gain. */
  function Missing(n: nat, table: Table): nat {
    if table == [] then 0
    else Missing(n, table[..|table| - 1]) + |Entries(n) - table[|table| - 1]|
  }

  lemma {:induction false} MissingDrops(n: nat, table: Table, t: nat, more: set<Option<nat>>)
    requires t < |table| && table[t] < more <= Entries(n)
    ensures Missing(n, table[t := more]) < Missing(n, table)
    decreases |table|
  {
    hide Entries;
    var last := |table| - 1;
    if t < last {
      MissingDrops(n, table[..last], t, more);
      assert table[t := more][..last] == table[..last][t := more];
    } else {
      assert table[t := more][..last] == table[..last];
      var e :| e in more && e !in table[t];
      SmallerSet(Entries(n) - more, Entries(n) - table[t], e);
    }
  }

  lemma SmallerSet<T>(a: set<T>, b: set<T>, e: T)
    requires a <= b && e in b && e !in a
    ensures |a| < |b|
  {
    assert b == a + (b - a);
    assert |b| == |a| + |b - a|;
    assert e in b - a;
  }

  ghost predicate Bounded(table: Table, n: nat) {
    forall s <- table :: s <= Entries(n)
  }

  lemma FirstOfBounded(g: Syntax, table: Table, s: seq<nat>)
    requires Bounded(table, |g.terminal|)
    ensures FirstOf(g, table, s) <= Entries(|g.terminal|)
    decreases |s|
  {
    if s != [] {
      FirstOfBounded(g, table, s[1..]);
      if s[0] < |table| { assert table[s[0]] in table; }
    }
  }

  /** The productions of the first `t` terms contribute nothing new. */
  ghost predicate CoveredTo(g: Syntax, table: Table, t: nat) {
    forall u: nat, r: nat :: u < t && Term(g, u) && !g.terminal[u] && r in g.rulesOf[u] ==>
      r < |g.rules| && Covers(g, table, r)
  }

  ghost predicate Good(g: Syntax, table: Table) {
    Sound(g, table) && Bounded(table, |g.terminal|)
  }

  lemma GoodNext(g: Syntax, table: Table, r: nat)
    requires WellFormed(g) && Good(g, table) && r < |g.rules|
    ensures g.rules[r].name < |table|
    ensures var t := g.rules[r].name;
            Good(g, table[t := table[t] + FirstOf(g, table, g.rules[r].parts)])
  {
    hide FirstOf, Claim, Entries;
    assert GoodRule(g, r);
    var t, additions := g.rules[r].name, FirstOf(g, table, g.rules[r].parts);
    FirstOfBounded(g, table, g.rules[r].parts);
    var next := table[t := table[t] + additions];
    forall u: nat, e | u < |next| && e in next[u] ensures Claim(g, [u], e) {
      if u == t && e in additions {
        FirstOfSound(g, table, g.rules[r].parts, e);
        RuleClaim(g, r, e);
      } else {
        assert e in table[u];
      }
    }
    assert table[t] in table;
  }

  /** Relaxes one production. */
  method RelaxRule(g: Syntax, table: Table, r: nat) returns (next: Table, changed: bool)
    requires WellFormed(g) && Good(g, table) && r < |g.rules|
    ensures Good(g, next)
    ensures changed ==> Missing(|g.terminal|, next) < Missing(|g.terminal|, table)
    ensures !changed ==> next == table && Covers(g, table, r)
  {
    hide FirstOf, Sound, Entries;
    assert GoodRule(g, r);
    SoundLength(g, table);
    GoodNext(g, table, r);
    var t := g.rules[r].name;
    var additions := RuleFirst(g, table, g.rules[r].parts);
    next := table[t := table[t] + additions];
    changed := next[t] != table[t];
    if changed {
      assert next[t] in next;
      MissingDrops(|g.terminal|, table, t, next[t]);
    } else {
      assert next == table;
    }
  }

  /** One pass over all productions. */
  method RelaxAll(g: Syntax, table: Table) returns (next: Table, changed: bool)
    requires WellFormed(g) && Good(g, table)
    ensures Good(g, next)
    ensures changed ==> Missing(|g.terminal|, next) < Missing(|g.terminal|, table)
    ensures !changed ==> next == table && CoveredTo(g, table, |g.terminal|)
  {
    hide Good, Covers, Missing;
    next, changed := table, false;
    var t: nat := 0;
    while t < |g.terminal|
      invariant t <= |g.terminal| && Good(g, next)
      invariant changed ==> Missing(|g.terminal|, next) < Missing(|g.terminal|, table)
      invariant !changed ==> next == table && CoveredTo(g, table, t)
    {
      if !g.terminal[t] {
        var k := 0;
        while k < |g.rulesOf[t]|
          invariant k <= |g.rulesOf[t]| && Good(g, next)
          invariant changed ==> Missing(|g.terminal|, next) < Missing(|g.terminal|, table)
          invariant !changed ==> next == table && CoveredTo(g, table, t)
          invariant !changed ==> forall j :: 0 <= j < k ==>
                      g.rulesOf[t][j] < |g.rules| && Covers(g, table, g.rulesOf[t][j])
        {
          var r := g.rulesOf[t][k];
          assert Term(g, t) && r in g.rulesOf[t];
          var grew;
          next, grew := RelaxRule(g, next, r);
          changed := changed || grew;
          k := k + 1;
        }
      }
      t := t + 1;
    }
  }

  /** Relaxes until nothing changes; the result is exact. */
  method ComputeFirstSets(g: Syntax) returns (table: Table)
    requires WellFormed(g)
    ensures Exact(g, table)
  {
    hide Sound, Entries, Covers;
    table := seq(|g.terminal|, _ => {});
    assert Sound(g, table) by { EmptySound(g, table); }
    var changed := true;
    while changed
      invariant Good(g, table)
      invariant !changed ==> CoveredTo(g, table, |g.terminal|)
      decreases Missing(|g.terminal|, table), changed
    {
      table, changed := RelaxAll(g, table);
    }
    assert |table| == |g.terminal| by { SoundLength(g, table); }
    forall r: nat | r < |g.rules| ensures Covers(g, table, r) {
      assert GoodRule(g, r);
    }
  }

  lemma EmptySound(g: Syntax, table: Table)
    requires |table| == |g.terminal| && forall s <- table :: s == {}
    ensures Sound(g, table)
  {
    assert forall t: nat :: t < |table| ==> table[t] in table;
  }

  lemma SoundLength(g: Syntax, table: Table)
    requires Sound(g, table)
    ensures |table| == |g.terminal|
  {}
}
