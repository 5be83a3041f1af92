/** Building the automaton of a token set, expression by expression, in place. */
module TokenRules {
  import opened Options
  import opened Counting
  import opened TokenNfa
  import opened TokenLanguage
  import opened TokenExpressions
  import opened TokenBuilder

  datatype BuildError = UnknownRule | NonTailRecursion

  // ---- names in rules -----------------------------------------------------

  ghost function Names(e: TokenExpr): set<nat> {
    match e
    case RuleName(k) => {k}
    case Choice(exprs) => set x, k | x in exprs && k in Names(x) :: k
    case Sequence(exprs) => set x, k | x in exprs && k in Names(x) :: k
    case Repeat(expr, _) => Names(expr)
    case _ => {}
  }

  ghost predicate Mentions(rules: seq<TokenExpr>, j: nat, k: nat) {
    j < |rules| && k in Names(rules[j])
  }

  ghost predicate Leads(rules: seq<TokenExpr>, j: nat, k: nat, n: nat)
    decreases n
  {
    if n == 0 then j == k else exists i: nat :: Leads(rules, j, i, n - 1) && Mentions(rules, i, k)
  }

  /** A rule whose expansion mentions the rule again. */
  ghost predicate Recursive(rules: seq<TokenExpr>) {
    exists k: nat, n: nat :: n > 0 && Leads(rules, k, k, n)
  }

  /** A name without a rule, in the expression or in a rule. */
  ghost predicate Unresolved(rules: seq<TokenExpr>, e: TokenExpr, k: nat) {
    k >= |rules| && (k in Names(e) || exists j :: 0 <= j < |rules| && Mentions(rules, j, k))
  }

  ghost predicate Explains(rules: seq<TokenExpr>, e: TokenExpr, error: BuildError) {
    match error
    case UnknownRule => exists k: nat :: Unresolved(rules, e, k)
    case NonTailRecursion => Recursive(rules)
  }

  lemma PartExplains(rules: seq<TokenExpr>, e: TokenExpr, part: TokenExpr, error: BuildError)
    requires Explains(rules, part, error) && Names(part) <= Names(e)
    ensures Explains(rules, e, error)
  {
    if error == UnknownRule {
      var k: nat :| Unresolved(rules, part, k);
      assert Unresolved(rules, e, k);
    }
  }

  lemma RuleExplains(rules: seq<TokenExpr>, k: nat, error: BuildError)
    requires k < |rules| && Explains(rules, rules[k], error)
    ensures Explains(rules, RuleName(k), error)
  {
    if error == UnknownRule {
      var j: nat :| Unresolved(rules, rules[k], j);
      if j in Names(rules[k]) {
        assert Mentions(rules, k, j);
      }
      assert Unresolved(rules, RuleName(k), j);
    }
  }

  // ---- rules under construction -------------------------------------------

  ghost predicate EntryFits(rules: seq<TokenExpr>, notes: Notes, b: Building) {
    && b.rule < |rules| && 0 < b.start < |notes.rest| == |notes.owners| && 0 < b.target < |notes.rest|
    && notes.owners[b.start] == notes.owners[b.target]
    && notes.rest[b.start] == [rules[b.rule]] + notes.rest[b.target]
  }

  /** Each rule is mentioned by the one it is built for, and none is built
      inside itself. */
  ghost predicate StackFits(rules: seq<TokenExpr>, notes: Notes, building: seq<Building>) {
    && (forall b <- building :: EntryFits(rules, notes, b))
    && (forall i, j :: 0 <= i < j < |building| ==> building[i].rule != building[j].rule)
    && forall i :: 0 < i < |building| ==> Mentions(rules, building[i - 1].rule, building[i].rule)
  }

  lemma StackSize(rules: seq<TokenExpr>, notes: Notes, building: seq<Building>)
    requires StackFits(rules, notes, building)
    ensures |building| <= |rules|
  {
    var numbers := seq(|building|, i requires 0 <= i < |building| => building[i].rule);
    forall i | 0 <= i < |numbers| ensures numbers[i] < |rules| {
      assert EntryFits(rules, notes, building[i]);
    }
    DistinctBound(numbers, |rules|);
  }

  lemma StackLater(rules: seq<TokenExpr>, notes: Notes, larger: Notes, building: seq<Building>)
    requires StackFits(rules, notes, building) && Grows(notes, larger) && |larger.rest| == |larger.owners|
    ensures StackFits(rules, larger, building)
  {
    forall b <- building ensures EntryFits(rules, larger, b) {
      assert EntryFits(rules, notes, b);
    }
  }

  /** The expression belongs to the rule on top. */
  ghost predicate Within(rules: seq<TokenExpr>, building: seq<Building>, e: TokenExpr) {
    building != [] ==> forall k <- Names(e) :: Mentions(rules, building[|building| - 1].rule, k)
  }

  lemma {:induction false} StackLeads(rules: seq<TokenExpr>, notes: Notes, building: seq<Building>, i: nat, j: nat)
    requires StackFits(rules, notes, building) && i <= j < |building|
    ensures Leads(rules, building[i].rule, building[j].rule, j - i)
    decreases j
  {
    hide EntryFits, Mentions;
    if i < j {
      StackLeads(rules, notes, building, i, j - 1);
      assert Mentions(rules, building[j - 1].rule, building[j].rule);
    }
  }

  lemma FoundRecursion(rules: seq<TokenExpr>, notes: Notes, building: seq<Building>, i: nat, k: nat)
    requires StackFits(rules, notes, building) && i < |building| && building[i].rule == k
    requires Within(rules, building, RuleName(k))
    ensures Recursive(rules)
  {
    hide EntryFits, Mentions;
    var top := |building| - 1;
    StackLeads(rules, notes, building, i, top);
    assert k in Names(RuleName(k));
    assert Leads(rules, k, k, top - i + 1);
  }

  // ---- what an expression is built between --------------------------------

  /** Reading the parts leads from what is to be read at `from` to what is to be
      read at `target`. */
  ghost predicate CanBuild(rules: seq<TokenExpr>, notes: Notes, parts: seq<TokenExpr>, from: nat, target: nat) {
    && from < |notes.rest| == |notes.owners| && 0 < target < |notes.rest|
    && notes.owners[target] in notes.roots
    && (from > 0 ==> notes.owners[from] == notes.owners[target] && notes.rest[from] != [])
    && Covers(rules, RestAt(notes, from, notes.owners[target]), parts + notes.rest[target])
  }

  lemma CanBuildLater(rules: seq<TokenExpr>, notes: Notes, larger: Notes, parts: seq<TokenExpr>, from: nat, target: nat)
    requires CanBuild(rules, notes, parts, from, target) && Grows(notes, larger) && |larger.rest| == |larger.owners|
    ensures CanBuild(rules, larger, parts, from, target)
    ensures larger.rest[target] == notes.rest[target] && larger.owners[target] == notes.owners[target]
  {
    hide Covers;
  }

  /** What an expression includes may be built in its place. */
  lemma CanBuildParts(rules: seq<TokenExpr>, notes: Notes, e: TokenExpr, from: nat, target: nat, parts: seq<TokenExpr>)
    requires CanBuild(rules, notes, [e], from, target) && Includes(rules, e, parts)
    ensures CanBuild(rules, notes, parts, from, target)
  {
    hide Covers, Includes;
    CoversInFront(rules, e, parts, notes.rest[target]);
    CoversTrans(rules, RestAt(notes, from, notes.owners[target]), [e] + notes.rest[target], parts + notes.rest[target]);
  }

  /** A state from which the other parts are still to be read. */
  ghost predicate Between(notes: Notes, middle: nat, parts: seq<TokenExpr>, target: nat) {
    && 0 < middle < |notes.rest| == |notes.owners| && target < |notes.rest|
    && notes.owners[middle] == notes.owners[target] && notes.rest[middle] == parts + notes.rest[target]
  }

  lemma CanBuildFirst(rules: seq<TokenExpr>, notes: Notes, parts: seq<TokenExpr>, from: nat, target: nat, middle: nat)
    requires parts != [] && CanBuild(rules, notes, parts, from, target) && Between(notes, middle, parts[1..], target)
    ensures CanBuild(rules, notes, [parts[0]], from, middle)
  {
    hide Covers;
    assert [parts[0]] + (parts[1..] + notes.rest[target]) == parts + notes.rest[target];
  }

  lemma CanBuildRest(rules: seq<TokenExpr>, notes: Notes, parts: seq<TokenExpr>, target: nat, middle: nat)
    requires parts != [] && Between(notes, middle, parts, target) && 0 < target
    requires notes.owners[target] in notes.roots
    ensures CanBuild(rules, notes, parts, middle, target)
  {
    hide LangAll;
  }

  lemma EpsilonFits(rules: seq<TokenExpr>, notes: Notes, parts: seq<TokenExpr>, from: nat, target: nat, middle: nat)
    requires CanBuild(rules, notes, parts, from, target) && Between(notes, middle, parts, target)
    ensures EdgeFits(rules, notes, from, Epsilon(middle))
  {
    hide Covers;
  }

  lemma LabelFits(rules: seq<TokenExpr>, notes: Notes, e: TokenExpr, from: nat, target: nat, edge: NfaEdge)
    requires CanBuild(rules, notes, [e], from, target) && edge.target == target && !edge.Epsilon?
    requires edge.CodePoint? ==> edge.from < edge.to <= CODE_POINT_LIMIT
    requires forall x :: Matches(edge, x) ==> Lang(rules, e, [x])
    ensures EdgeFits(rules, notes, from, edge)
  {
    hide LangAll, Lang;
    forall x, word | Matches(edge, x) && LangAll(rules, notes.rest[target], word)
      ensures LangAll(rules, RestAt(notes, from, notes.owners[target]), [x] + word)
    {
      Joined(rules, e, notes.rest[target], [x], word);
    }
  }

  /** The first character of a literal, when more follow. */
  lemma SpellFits(rules: seq<TokenExpr>, notes: Notes, chars: seq<nat>, from: nat, target: nat, next: nat)
    requires |chars| > 1 && chars[0] < CODE_POINT_LIMIT && CanBuild(rules, notes, [Literal(chars)], from, target)
    requires Between(notes, next, [Literal(chars[1..])], target)
    ensures EdgeFits(rules, notes, from, CodePoint(chars[0], chars[0] + 1, next))
  {
    hide LangAll;
    var edge := CodePoint(chars[0], chars[0] + 1, next);
    forall x, word | Matches(edge, x) && LangAll(rules, notes.rest[next], word)
      ensures LangAll(rules, RestAt(notes, from, notes.owners[target]), [x] + word)
    {
      var i := Parted(rules, Literal(chars[1..]), notes.rest[target], word);
      assert word[..i] == Chars(chars[1..]);
      assert [x] + word[..i] == Chars(chars);
      assert Denotes(rules, Literal(chars), [x] + word[..i], 0);
      Joined(rules, Literal(chars), notes.rest[target], [x] + word[..i], word[i..]);
      assert [x] + word[..i] + word[i..] == [x] + word;
    }
  }

  lemma LastCharFits(rules: seq<TokenExpr>, notes: Notes, c: nat, from: nat, target: nat)
    requires c < CODE_POINT_LIMIT && CanBuild(rules, notes, [Literal([c])], from, target)
    ensures EdgeFits(rules, notes, from, CodePoint(c, c + 1, target))
  {
    var edge := CodePoint(c, c + 1, target);
    forall x | Matches(edge, x) ensures Lang(rules, Literal([c]), [x]) {
      assert [x] == Chars([c]);
      assert Denotes(rules, Literal([c]), [x], 0);
    }
    LabelFits(rules, notes, Literal([c]), from, target, edge);
  }

  lemma GrowsTrans(a: Notes, b: Notes, c: Notes)
    requires Grows(a, b) && Grows(b, c)
    ensures Grows(a, c)
  {}

  lemma SameExtends(a: Nfa)
    ensures Extends(a, a)
  {}

  // ---- one step of the builder --------------------------------------------

  lemma UnknownExplains(rules: seq<TokenExpr>, k: nat)
    requires k >= |rules|
    ensures Explains(rules, RuleName(k), UnknownRule)
  {
    assert Unresolved(rules, RuleName(k), k);
  }

  lemma RecursiveExplains(rules: seq<TokenExpr>, k: nat)
    requires Recursive(rules)
    ensures Explains(rules, RuleName(k), NonTailRecursion)
  {}

  lemma WithinPart(rules: seq<TokenExpr>, building: seq<Building>, e: TokenExpr, part: TokenExpr)
    requires Within(rules, building, e)
    requires (e.Choice? || e.Sequence?) && part in e.exprs
    ensures Within(rules, building, part) && Names(part) <= Names(e)
  {
    NamesPart(e.exprs, part);
  }

  /** The names in a part are names in the whole. */
  lemma NamesPart(exprs: seq<TokenExpr>, part: TokenExpr)
    requires part in exprs
    ensures Names(part) <= Names(Choice(exprs)) && Names(part) <= Names(Sequence(exprs))
  {
    forall k <- Names(part) ensures k in Names(Choice(exprs)) && k in Names(Sequence(exprs)) {
      assert part in exprs && k in Names(part);
    }
  }

  lemma WithinRepeat(rules: seq<TokenExpr>, building: seq<Building>, expr: TokenExpr, kind: RepeatKind)
    requires Within(rules, building, Repeat(expr, kind))
    ensures Within(rules, building, expr) && Names(expr) <= Names(Repeat(expr, kind))
  {}

  lemma OwnerKnown(rules: seq<TokenExpr>, notes: Notes, parts: seq<TokenExpr>, from: nat, target: nat)
    requires CanBuild(rules, notes, parts, from, target)
    ensures from < |notes.rest| && 0 < target < |notes.rest| == |notes.owners|
    ensures notes.owners[target] in notes.roots
  {}

  lemma TargetBetween(rules: seq<TokenExpr>, notes: Notes, parts: seq<TokenExpr>, from: nat, target: nat)
    requires CanBuild(rules, notes, parts, from, target)
    ensures Between(notes, target, [], target)
  {
    assert [] + notes.rest[target] == notes.rest[target];
  }

  lemma TailFits(rules: seq<TokenExpr>, notes: Notes, b: Building, from: nat)
    requires EntryFits(rules, notes, b) && CanBuild(rules, notes, [RuleName(b.rule)], from, b.target)
    ensures EdgeFits(rules, notes, from, Epsilon(b.start))
  {
    hide CanBuild, EdgeFits;
    RuleIncludes(rules, b.rule);
    CanBuildParts(rules, notes, RuleName(b.rule), from, b.target, [rules[b.rule]]);
    EpsilonFits(rules, notes, [rules[b.rule]], from, b.target, b.start);
  }

  /** A new state stands between, and what could be built still can. */
  lemma MiddleState(rules: seq<TokenExpr>, before: Notes, after: Notes, parts: seq<TokenExpr>, rest: seq<TokenExpr>,
                    from: nat, target: nat, middle: nat)
    requires CanBuild(rules, before, parts, from, target) && Grows(before, after) && |after.rest| == |after.owners|
    requires |before.rest| == |before.owners| && 0 < middle < |after.rest|
    requires after.rest[middle] == rest + before.rest[target] && after.owners[middle] == before.owners[target]
    ensures Between(after, middle, rest, target) && CanBuild(rules, after, parts, from, target)
    ensures after.owners[target] in after.roots && 0 < target < |after.rest|
    ensures after.rest[target] == before.rest[target] && after.owners[target] == before.owners[target]
  {
    hide Covers;
    CanBuildLater(rules, before, after, parts, from, target);
  }

  lemma RuleStarts(rules: seq<TokenExpr>, before: Notes, after: Notes, k: nat, from: nat, target: nat, start: nat)
    requires CanBuild(rules, before, [RuleName(k)], from, target) && Grows(before, after) && k < |rules|
    requires |before.rest| == |before.owners| && |after.rest| == |after.owners| && 0 < start < |after.rest|
    requires after.rest[start] == [rules[k]] + before.rest[target] && after.owners[start] == before.owners[target]
    ensures EdgeFits(rules, after, from, Epsilon(start)) && CanBuild(rules, after, [rules[k]], start, target)
    ensures EntryFits(rules, after, Building(k, start, target))
  {
    hide CanBuild, EdgeFits, Grows, Includes;
    MiddleState(rules, before, after, [RuleName(k)], [rules[k]], from, target, start);
    RuleIncludes(rules, k);
    CanBuildParts(rules, after, RuleName(k), from, target, [rules[k]]);
    EpsilonFits(rules, after, [rules[k]], from, target, start);
    CanBuildRest(rules, after, [rules[k]], target, start);
  }

  lemma StackPushed(rules: seq<TokenExpr>, notes: Notes, building: seq<Building>, b: Building)
    requires StackFits(rules, notes, building) && EntryFits(rules, notes, b)
    requires forall i :: 0 <= i < |building| ==> building[i].rule != b.rule
    requires Within(rules, building, RuleName(b.rule))
    ensures StackFits(rules, notes, building + [b]) && Within(rules, building + [b], rules[b.rule])
  {
    assert b.rule in Names(RuleName(b.rule));
    forall k <- Names(rules[b.rule]) ensures Mentions(rules, b.rule, k) {}
  }

  lemma StackPopped(rules: seq<TokenExpr>, notes: Notes, building: seq<Building>, b: Building)
    requires StackFits(rules, notes, building + [b])
    ensures StackFits(rules, notes, building)
  {
    hide EntryFits, Mentions;
    var all := building + [b];
    forall c <- building ensures EntryFits(rules, notes, c) { assert c in all; }
    assert forall i :: 0 <= i < |building| ==> all[i] == building[i];
  }

  lemma RangeFits(rules: seq<TokenExpr>, notes: Notes, ranges: seq<(nat, nat)>, inverted: bool, all: seq<(nat, nat)>,
                  i: nat, from: nat, target: nat)
    requires i < |all| && GoodRanges(all) && CanBuild(rules, notes, [CharSet(ranges, inverted)], from, target)
    requires forall c: nat :: c < CODE_POINT_LIMIT ==> (InRanges(all, c) <==> InRanges(ranges, c) != inverted)
    ensures all[i].0 < all[i].1 <= CODE_POINT_LIMIT
    ensures EdgeFits(rules, notes, from, CodePoint(all[i].0, all[i].1, target))
  {
    var edge, e := CodePoint(all[i].0, all[i].1, target), CharSet(ranges, inverted);
    forall x | Matches(edge, x) ensures Lang(rules, e, [x]) {
      assert InRanges(all, x.c);
      assert Denotes(rules, e, [x], 0);
    }
    LabelFits(rules, notes, e, from, target, edge);
  }

  lemma SetBuilt(rules: seq<TokenExpr>, nfa: Nfa, building: seq<Building>, ranges: seq<(nat, nat)>, inverted: bool,
                 all: seq<(nat, nat)>, from: nat, target: nat)
    requires forall j :: 0 <= j < |all| ==> HasEdge(nfa, from, CodePoint(all[j].0, all[j].1, target))
    requires forall c: nat :: c < CODE_POINT_LIMIT ==> (InRanges(all, c) <==> InRanges(ranges, c) != inverted)
    ensures Built(rules, nfa, building, CharSet(ranges, inverted), from, target)
  {
    hide HasEdge, Built;
    var e := CharSet(ranges, inverted);
    forall w: seq<Symbol>, n: nat | Denotes(rules, e, w, n) ensures |w| == 1 && EdgeFor(nfa, from, w[0], target) {
      assert InRanges(all, w[0].c);
      var j :| 0 <= j < |all| && all[j].0 <= w[0].c < all[j].1;
      assert HasEdge(nfa, from, CodePoint(all[j].0, all[j].1, target));
      assert Matches(CodePoint(all[j].0, all[j].1, target), w[0]);
    }
    BuiltEdges(rules, nfa, building, e, from, target);
  }

  /** The state of a repetition reads the expression again, ... */
  lemma LoopFits(rules: seq<TokenExpr>, notes: Notes, expr: TokenExpr, target: nat, loop: nat)
    requires Between(notes, loop, [Repeat(expr, ZeroOrMore)], target) && 0 < target && notes.owners[target] in notes.roots
    ensures CanBuild(rules, notes, [expr], loop, loop)
  {
    hide CanBuild, Between, Includes;
    var all := Repeat(expr, ZeroOrMore);
    var again := [expr, all];
    assert again[1..] == [all];
    RepeatIncludes(rules, expr);
    CanBuildRest(rules, notes, [all], target, loop);
    CanBuildParts(rules, notes, all, loop, target, again);
    CanBuildFirst(rules, notes, again, loop, target, loop);
  }

  /** ... or goes on to what follows it. */
  lemma LoopEndFits(rules: seq<TokenExpr>, before: Notes, notes: Notes, expr: TokenExpr, target: nat, loop: nat)
    requires Between(before, loop, [Repeat(expr, ZeroOrMore)], target) && 0 < target
    requires before.owners[target] in before.roots && Grows(before, notes) && |notes.rest| == |notes.owners|
    ensures EdgeFits(rules, notes, loop, Epsilon(target))
  {
    hide CanBuild, EdgeFits, Includes;
    var all := Repeat(expr, ZeroOrMore);
    RepeatIncludes(rules, expr);
    BetweenLater(rules, before, notes, expr, target, loop);
    CanBuildRest(rules, notes, [all], target, loop);
    CanBuildParts(rules, notes, all, loop, target, []);
    TargetBetween(rules, notes, [all], loop, target);
    EpsilonFits(rules, notes, [], loop, target, target);
  }

  lemma BetweenLater(rules: seq<TokenExpr>, before: Notes, after: Notes, expr: TokenExpr, target: nat, loop: nat)
    requires Between(before, loop, [Repeat(expr, ZeroOrMore)], target) && Grows(before, after)
    requires |after.rest| == |after.owners| && before.owners[target] in before.roots
    ensures Between(after, loop, [Repeat(expr, ZeroOrMore)], target)
    ensures target < |after.owners| && after.owners[target] in after.roots
  {}

  /** The expression leads from the start to a state that accepts the term. */
  ghost predicate TokenBuilt(rules: seq<TokenExpr>, nfa: Nfa, term: nat, root: TokenExpr) {
    exists target :: 0 <= target < |nfa.states| && nfa.states[target].accepting == [term]
                     && Built(rules, nfa, [], root, 0, target)
  }

  // ---- the builder --------------------------------------------------------

  class TokenNfaBuilder {
    const rules: seq<TokenExpr>
    var nfa: Nfa
    var building: seq<Building>
    ghost var notes: Notes

    ghost predicate Valid()
      reads this
    {
      && Sound(rules, nfa, notes) && |notes.rest| == |notes.owners|
      && StackFits(rules, notes, building)
      && forall r <- rules :: GoodExpr(r)
    }

    /** Nothing but growth since the given automaton. */
    ghost predicate Since(before: Nfa, noted: Notes)
      reads this
    {
      Extends(before, nfa) && Grows(noted, notes)
    }

    constructor (rules: seq<TokenExpr>)
      requires forall r <- rules :: GoodExpr(r)
      ensures Valid() && this.rules == rules && building == [] && notes.roots == map[]
    {
      this.rules := rules;
      nfa := Nfa([NfaState([], [])], 0);
      building := [];
      notes := Notes([[]], [0], map[]);
    }

    /** The accepting state of a new term. */
    method AcceptingState(term: nat, ghost root: TokenExpr) returns (id: nat)
      requires Valid() && term !in notes.roots && building == []
      modifies this`nfa, this`notes
      ensures Valid() && Extends(old(nfa), nfa) && 0 < id < |nfa.states| && nfa.states[id].accepting == [term]
      ensures notes.roots == old(notes).roots[term := root]
      ensures CanBuild(rules, notes, [root], 0, id)
    {
      hide StateFits;
      AcceptingSound(rules, nfa, notes, term, root);
      id := |nfa.states|;
      nfa := nfa.(states := nfa.states + [NfaState([term], [])]);
      notes := Notes(notes.rest + [[]], notes.owners + [term], notes.roots[term := root]);
      assert [root] + [] == [root];
    }

    /** A token with its own accepting state, reached from the start. */
    method GetToken(term: nat, root: TokenExpr) returns (error: Option<BuildError>)
      requires Valid() && GoodExpr(root) && term !in notes.roots && building == []
      modifies this`nfa, this`notes, this`building
      ensures error.None? ==> Valid() && Extends(old(nfa), nfa) && building == []
      ensures error.None? ==> notes.roots == old(notes).roots[term := root] && TokenBuilt(rules, nfa, term, root)
      ensures error.Some? ==> Explains(rules, root, error.value)
    {
      hide Sound, CanBuild, Built, EdgeFits, StackFits, Explains, GoodExpr, Names;
      ghost var before := nfa;
      var target := AcceptingState(term, root);
      ghost var early, known := nfa, notes.roots;
      error := BuildExpression(root, 0, target);
      if error.None? {
        ExtendsTrans(before, early, nfa);
        assert nfa.states[target].accepting == [term];
      }
    }

    method State(ghost rest: seq<TokenExpr>, ghost owner: nat) returns (id: nat)
      requires Valid() && rest != [] && owner in notes.roots
      modifies this`nfa, this`notes
      ensures Valid() && Since(old(nfa), old(notes)) && id == |old(notes.rest)| == |notes.rest| - 1 > 0
      ensures notes.rest[id] == rest && notes.owners[id] == owner
    {
      hide StateFits;
      StateSound(rules, nfa, notes, rest, owner);
      id := |nfa.states|;
      ghost var before := notes;
      nfa := nfa.(states := nfa.states + [NfaState([], [])]);
      notes := notes.(rest := notes.rest + [rest], owners := notes.owners + [owner]);
      StackLater(rules, before, notes, building);
    }

    method AddEdge(from: nat, edge: NfaEdge)
      requires Valid() && EdgeFits(rules, notes, from, edge)
      modifies this`nfa
      ensures Valid() && Since(old(nfa), notes) && HasEdge(nfa, from, edge)
      ensures nfa == Pushed(old(nfa), from, edge)
    {
      hide StateFits, NotesFit, StackFits;
      PushedSound(rules, nfa, notes, from, edge);
      PushedExtends(nfa, from, edge);
      nfa := nfa.(states := nfa.states[from := nfa.states[from].(edges := nfa.states[from].edges + [edge])]);
    }

    method BuildRule(k: nat, from: nat, target: nat) returns (error: Option<BuildError>)
      requires Valid() && CanBuild(rules, notes, [RuleName(k)], from, target) && Within(rules, building, RuleName(k))
      modifies this`nfa, this`notes, this`building
      ensures error.None? ==> Valid() && Since(old(nfa), old(notes)) && building == old(building)
      ensures error.None? ==> Built(rules, nfa, building, RuleName(k), from, target)
      ensures error.Some? ==> Explains(rules, RuleName(k), error.value)
      decreases |rules| - |building|, RuleName(k), 0
    {
      hide Sound, NotesFit, StateFits, EdgeFits, Covers, Built, Extends, Grows, EntryFits, GoodExpr, Mentions,
        Explains, CanBuild, Between, StackCompletes, Names, Recursive;
      if k >= |rules| {
        UnknownExplains(rules, k);
        return Some(UnknownRule);
      }
      var i := 0;
      while i < |building| && building[i].rule != k
        invariant 0 <= i <= |building|
        invariant forall j :: 0 <= j < i ==> building[j].rule != k
      {
        i := i + 1;
      }
      if i < |building| {
        var b := building[i];
        if b.target != target {
          FoundRecursion(rules, notes, building, i, k);
          RecursiveExplains(rules, k);
          return Some(NonTailRecursion);
        }
        TailFits(rules, notes, b, from);
        AddEdge(from, Epsilon(b.start));
        BuiltTail(rules, nfa, building, b, from);
        return None;
      }
      ghost var before, noted, stack := nfa, notes, building;
      OwnerKnown(rules, notes, [RuleName(k)], from, target);
      var start := State([rules[k]] + notes.rest[target], notes.owners[target]);
      ghost var early, started := nfa, notes;
      RuleStarts(rules, noted, notes, k, from, target, start);
      AddEdge(from, Epsilon(start));
      StackPushed(rules, notes, building, Building(k, start, target));
      building := building + [Building(k, start, target)];
      StackSize(rules, notes, building);
      ghost var linked := nfa;
      error := BuildExpression(rules[k], start, target);
      if error.Some? {
        RuleExplains(rules, k, error.value);
        return;
      }
      assert building == stack + [Building(k, start, target)];
      StackPopped(rules, notes, stack, Building(k, start, target));
      building := building[..|building| - 1];
      assert building == stack;
      EdgeStays(linked, nfa, from, Epsilon(start));
      BuiltRule(rules, nfa, building, k, from, start, target);
      ExtendsTrans(before, early, linked);
      ExtendsTrans(before, linked, nfa);
      GrowsTrans(noted, started, notes);
    }

    method BuildLiteral(chars: seq<nat>, from: nat, target: nat)
      requires Valid() && GoodExpr(Literal(chars)) && CanBuild(rules, notes, [Literal(chars)], from, target)
      modifies this`nfa, this`notes
      ensures Valid() && Since(old(nfa), old(notes))
      ensures Built(rules, nfa, building, Literal(chars), from, target)
    {
      hide Sound, CanBuild, Covers, Built, BuiltAll, Extends, Grows, EdgeFits, Between, StackFits, Includes, Spelled, Names,
        Mentions, Explains, Pushed, HasEdge, Lang, InRanges, EdgeFor;
      ghost var before, noted := nfa, notes;
      OwnerKnown(rules, notes, [Literal(chars)], from, target);
      SameSince(nfa, notes);
      SpelledNone(nfa, from);
      var current := from;
      var i := 0;
      assert chars[0..] == chars;
      while i < |chars|
        invariant 0 <= i <= |chars| && Valid() && Since(before, noted)
        invariant i < |chars| ==> CanBuild(rules, notes, [Literal(chars[i..])], current, target)
        invariant Spelled(nfa, chars[..i], from, current)
        invariant i == |chars| > 0 ==> current == target
      {
        ghost var early, seen := nfa, notes;
        var c := chars[i];
        assert c in chars && chars[i..][0] == c && chars[i..][1..] == chars[i + 1..];
        assert chars[..i] + [c] == chars[..i + 1];
        OwnerKnown(rules, notes, [Literal(chars[i..])], current, target);
        var next := target;
        if i + 1 == |chars| {
          assert chars[i..] == [c];
          LastCharFits(rules, notes, c, current, target);
        } else {
          next := State([Literal(chars[i + 1..])] + notes.rest[target], notes.owners[target]);
          MiddleState(rules, seen, notes, [Literal(chars[i..])], [Literal(chars[i + 1..])], current, target, next);
          SpellFits(rules, notes, chars[i..], current, target, next);
          CanBuildRest(rules, notes, [Literal(chars[i + 1..])], target, next);
        }
        ghost var grown := nfa;
        AddEdge(current, CodePoint(c, c + 1, next));
        ExtendsTrans(early, grown, nfa);
        ExtendsTrans(before, early, nfa);
        GrowsTrans(noted, seen, notes);
        SpelledNext(early, nfa, chars[..i], c, from, current, next);
        current := next;
        i := i + 1;
      }
      assert chars[..i] == chars;
      BuiltLiteral(rules, nfa, building, chars, from, target);
    }

    method BuildSet(ranges: seq<(nat, nat)>, inverted: bool, from: nat, target: nat)
      requires Valid() && GoodExpr(CharSet(ranges, inverted))
      requires CanBuild(rules, notes, [CharSet(ranges, inverted)], from, target)
      modifies this`nfa
      ensures Valid() && Since(old(nfa), notes)
      ensures Built(rules, nfa, building, CharSet(ranges, inverted), from, target)
    {
      hide Sound, CanBuild, Covers, Built, BuiltAll, Extends, Grows, EdgeFits, Between, StackFits, Includes, Spelled, Names,
        Mentions, Explains, Pushed, HasEdge, Lang, InRanges, EdgeFor;
      ghost var before := nfa;
      SameSince(nfa, notes);
      var all := ranges;
      if inverted {
        all := InvertRanges(ranges);
      }
      var i := 0;
      while i < |all|
        invariant 0 <= i <= |all| && Valid() && Since(before, notes)
        invariant forall j :: 0 <= j < i ==> HasEdge(nfa, from, CodePoint(all[j].0, all[j].1, target))
      {
        ghost var early := nfa;
        var low, high := all[i].0, all[i].1;
        if low < high {
          var to := if high < CODE_POINT_LIMIT then high else CODE_POINT_LIMIT;
          RangeFits(rules, notes, ranges, inverted, all, i, from, target);
          AddEdge(from, CodePoint(low, to, target));
          ExtendsTrans(before, early, nfa);
          forall j | 0 <= j < i ensures HasEdge(nfa, from, CodePoint(all[j].0, all[j].1, target)) {
            EdgeStays(early, nfa, from, CodePoint(all[j].0, all[j].1, target));
          }
        }
        i := i + 1;
      }
      SetBuilt(rules, nfa, building, ranges, inverted, all, from, target);
    }

    method BuildChoice(exprs: seq<TokenExpr>, from: nat, target: nat) returns (error: Option<BuildError>)
      requires Valid() && GoodExpr(Choice(exprs)) && CanBuild(rules, notes, [Choice(exprs)], from, target)
      requires Within(rules, building, Choice(exprs))
      modifies this`nfa, this`notes, this`building
      ensures error.None? ==> Valid() && Since(old(nfa), old(notes)) && building == old(building)
      ensures error.None? ==> Built(rules, nfa, building, Choice(exprs), from, target)
      ensures error.Some? ==> Explains(rules, Choice(exprs), error.value)
      decreases |rules| - |building|, Choice(exprs), 0
    {
      hide Sound, CanBuild, Covers, Built, BuiltAll, Extends, Grows, EdgeFits, Between, StackFits, Includes, Spelled, Within, Names,
        Mentions, Explains, Pushed, HasEdge, Lang, InRanges, EdgeFor;
      ghost var before, noted, stack := nfa, notes, building;
      SameSince(nfa, notes);
      var i := 0;
      while i < |exprs|
        invariant 0 <= i <= |exprs| && Valid() && Since(before, noted) && building == stack
        invariant CanBuild(rules, notes, [Choice(exprs)], from, target)
        invariant forall j :: 0 <= j < i ==> Built(rules, nfa, building, exprs[j], from, target)
      {
        ghost var early, seen := nfa, notes;
        assert exprs[i] in exprs;
        ChoiceIncludes(rules, exprs, exprs[i]);
        CanBuildParts(rules, notes, Choice(exprs), from, target, [exprs[i]]);
        WithinPart(rules, building, Choice(exprs), exprs[i]);
        error := BuildExpression(exprs[i], from, target);
        if error.Some? {
          PartExplains(rules, Choice(exprs), exprs[i], error.value);
          return;
        }
        ExtendsTrans(before, early, nfa);
        GrowsTrans(noted, seen, notes);
        CanBuildLater(rules, seen, notes, [Choice(exprs)], from, target);
        forall j | 0 <= j < i ensures Built(rules, nfa, building, exprs[j], from, target) {
          BuiltLater(rules, early, nfa, building, exprs[j], from, target);
        }
        i := i + 1;
      }
      BuiltChoice(rules, nfa, building, exprs, from, target);
      error := None;
    }

    method BuildSequence(exprs: seq<TokenExpr>, from: nat, target: nat) returns (error: Option<BuildError>)
      requires Valid() && GoodExpr(Sequence(exprs)) && CanBuild(rules, notes, [Sequence(exprs)], from, target)
      requires Within(rules, building, Sequence(exprs))
      modifies this`nfa, this`notes, this`building
      ensures error.None? ==> Valid() && Since(old(nfa), old(notes)) && building == old(building)
      ensures error.None? ==> Built(rules, nfa, building, Sequence(exprs), from, target)
      ensures error.Some? ==> Explains(rules, Sequence(exprs), error.value)
      decreases |rules| - |building|, Sequence(exprs), 0
    {
      hide Sound, CanBuild, Covers, Built, BuiltAll, Extends, Grows, EdgeFits, Between, StackFits, Includes, Spelled, Within, Names,
        Mentions, Explains, Pushed, HasEdge, Lang, InRanges, EdgeFor;
      ghost var before, noted, stack := nfa, notes, building;
      SameSince(nfa, notes);
      SequenceIncludes(rules, exprs);
      CanBuildParts(rules, notes, Sequence(exprs), from, target, exprs);
      if exprs == [] {
        TargetBetween(rules, notes, exprs, from, target);
        EpsilonFits(rules, notes, [], from, target, target);
        AddEdge(from, Epsilon(target));
        BuiltEmpty(rules, nfa, building, from, target);
        BuiltSequence(rules, nfa, building, exprs, from, target);
        return None;
      }
      BuiltNone(rules, nfa, building, from);
      var current := from;
      var i := 0;
      assert exprs[0..] == exprs;
      while i < |exprs|
        invariant 0 <= i <= |exprs| && Valid() && Since(before, noted) && building == stack
        invariant i < |exprs| ==> CanBuild(rules, notes, exprs[i..], current, target)
        invariant BuiltAll(rules, nfa, building, exprs[..i], from, current)
        invariant i == |exprs| ==> current == target
      {
        ghost var early, seen := nfa, notes;
        assert exprs[i] in exprs && exprs[i..][0] == exprs[i] && exprs[i..][1..] == exprs[i + 1..];
        OwnerKnown(rules, notes, exprs[i..], current, target);
        var next := target;
        if i + 1 == |exprs| {
          TargetBetween(rules, notes, exprs[i..], current, target);
          assert exprs[i + 1..] == [];
        } else {
          next := State(exprs[i + 1..] + notes.rest[target], notes.owners[target]);
          MiddleState(rules, seen, notes, exprs[i..], exprs[i + 1..], current, target, next);
          CanBuildRest(rules, notes, exprs[i + 1..], target, next);
        }
        ghost var grown, known := nfa, notes;
        SameSince(nfa, notes);
        CanBuildFirst(rules, notes, exprs[i..], current, target, next);
        WithinPart(rules, building, Sequence(exprs), exprs[i]);
        error := BuildExpression(exprs[i], current, next);
        if error.Some? {
          PartExplains(rules, Sequence(exprs), exprs[i], error.value);
          return;
        }
        if next == target && i + 1 == |exprs| {
          SameExtends(early);
        }
        ExtendsTrans(early, grown, nfa);
        ExtendsTrans(before, early, nfa);
        GrowsTrans(seen, known, notes);
        GrowsTrans(noted, seen, notes);
        BuiltNext(rules, early, nfa, building, exprs[..i], exprs[i], from, current, next);
        assert exprs[..i] + [exprs[i]] == exprs[..i + 1];
        if i + 1 < |exprs| {
          CanBuildLater(rules, known, notes, exprs[i + 1..], next, target);
        }
        current := next;
        i := i + 1;
      }
      assert exprs[..i] == exprs;
      BuiltSequence(rules, nfa, building, exprs, from, target);
      error := None;
    }

    method BuildRepeat(expr: TokenExpr, kind: RepeatKind, from: nat, target: nat) returns (error: Option<BuildError>)
      requires Valid() && GoodExpr(expr) && CanBuild(rules, notes, [Repeat(expr, kind)], from, target)
      requires Within(rules, building, expr)
      modifies this`nfa, this`notes, this`building
      ensures error.None? ==> Valid() && Since(old(nfa), old(notes)) && building == old(building)
      ensures error.None? ==> Built(rules, nfa, building, Repeat(expr, kind), from, target)
      ensures error.Some? ==> Explains(rules, expr, error.value)
      decreases |rules| - |building|, Repeat(expr, kind), 0
    {
      hide Sound, CanBuild, Covers, Built, BuiltAll, Extends, Grows, EdgeFits, Between, StackFits, Includes, Spelled, Within, Names,
        Mentions, Explains, Pushed, HasEdge, GoodExpr, Lang, InRanges, EdgeFor;
      ghost var n0, m0 := nfa, notes;
      ghost var all := Repeat(expr, ZeroOrMore);
      ghost var again := [expr, all];
      assert again[0] == expr && again[1..] == [all];
      RepeatIncludes(rules, expr);
      OptionalIncludes(rules, expr);
      OwnerKnown(rules, notes, [Repeat(expr, kind)], from, target);
      match kind {
        case Optional =>
          CanBuildParts(rules, notes, Repeat(expr, Optional), from, target, []);
          CanBuildParts(rules, notes, Repeat(expr, Optional), from, target, [expr]);
          TargetBetween(rules, notes, [], from, target);
          EpsilonFits(rules, notes, [], from, target, target);
          AddEdge(from, Epsilon(target));
          ghost var n1 := nfa;
          error := BuildExpression(expr, from, target);
          if error.Some? {
            return;
          }
          EdgeStays(n1, nfa, from, Epsilon(target));
          BuiltOptional(rules, nfa, building, expr, from, target);
          ExtendsTrans(n0, n1, nfa);
        case ZeroOrMore =>
          var loop := State([all] + notes.rest[target], notes.owners[target]);
          ghost var n1, m1 := nfa, notes;
          MiddleState(rules, m0, m1, [all], [all], from, target, loop);
          EpsilonFits(rules, notes, [all], from, target, loop);
          AddEdge(from, Epsilon(loop));
          ghost var n2 := nfa;
          LoopFits(rules, notes, expr, target, loop);
          error := BuildExpression(expr, loop, loop);
          if error.Some? {
            return;
          }
          ghost var n3, m3 := nfa, notes;
          LoopEndFits(rules, m1, m3, expr, target, loop);
          AddEdge(loop, Epsilon(target));
          EdgeStays(n2, n3, from, Epsilon(loop));
          EdgeStays(n3, nfa, from, Epsilon(loop));
          BuiltLater(rules, n3, nfa, building, expr, loop, loop);
          BuiltZeroOrMore(rules, nfa, building, expr, from, loop, target);
          ExtendsTrans(n0, n1, n2);
          ExtendsTrans(n0, n2, n3);
          ExtendsTrans(n0, n3, nfa);
          GrowsTrans(m0, m1, m3);
        case OneOrMore =>
          var loop := State([all] + notes.rest[target], notes.owners[target]);
          ghost var n1, m1 := nfa, notes;
          CanBuildParts(rules, m0, Repeat(expr, OneOrMore), from, target, again);
          MiddleState(rules, m0, m1, again, [all], from, target, loop);
          CanBuildFirst(rules, notes, again, from, target, loop);
          error := BuildExpression(expr, from, loop);
          if error.Some? {
            return;
          }
          ghost var n2, m2 := nfa, notes;
          BetweenLater(rules, m1, m2, expr, target, loop);
          LoopFits(rules, notes, expr, target, loop);
          error := BuildExpression(expr, loop, loop);
          if error.Some? {
            return;
          }
          ghost var n3, m3 := nfa, notes;
          LoopEndFits(rules, m2, m3, expr, target, loop);
          AddEdge(loop, Epsilon(target));
          ExtendsTrans(n2, n3, nfa);
          BuiltLater(rules, n2, nfa, building, expr, from, loop);
          BuiltLater(rules, n3, nfa, building, expr, loop, loop);
          BuiltOneOrMore(rules, nfa, building, expr, from, loop, target);
          ExtendsTrans(n0, n1, n2);
          ExtendsTrans(n0, n2, nfa);
          GrowsTrans(m0, m1, m2);
          GrowsTrans(m0, m2, m3);
      }
    }

    lemma SameSince(before: Nfa, noted: Notes)
      requires before == nfa && noted == notes
      ensures Since(before, noted)
    {}

    method BuildExpression(e: TokenExpr, from: nat, target: nat) returns (error: Option<BuildError>)
      requires Valid() && GoodExpr(e) && CanBuild(rules, notes, [e], from, target) && Within(rules, building, e)
      modifies this`nfa, this`notes, this`building
      ensures error.None? ==> Valid() && Since(old(nfa), old(notes)) && building == old(building)
      ensures error.None? ==> Built(rules, nfa, building, e, from, target)
      ensures error.Some? ==> Explains(rules, e, error.value)
      decreases |rules| - |building|, e, 1
    {
      hide Sound, CanBuild, Covers, Built, BuiltAll, Extends, Grows, EdgeFits, Between, StackFits, Includes, Spelled, Names,
        Mentions, Explains, Pushed, HasEdge, Lang, InRanges, EdgeFor;
      match e
      case RuleName(k) => error := BuildRule(k, from, target);
      case EndOfInput =>
        EndFits(rules, notes, from, target);
        AddEdge(from, Eof(target));
        EndBuilt(rules, nfa, building, from, target);
        error := None;
      case CharSet(ranges, inverted) =>
        BuildSet(ranges, inverted, from, target);
        error := None;
      case AnyChar =>
        AnyFits(rules, notes, from, target);
        AddEdge(from, CodePoint(0, CODE_POINT_LIMIT, target));
        AnyBuilt(rules, nfa, building, from, target);
        error := None;
      case Literal(chars) =>
        BuildLiteral(chars, from, target);
        error := None;
      case Choice(exprs) => error := BuildChoice(exprs, from, target);
      case Sequence(exprs) => error := BuildSequence(exprs, from, target);
      case Repeat(expr, kind) =>
        WithinRepeat(rules, building, expr, kind);
        error := BuildRepeat(expr, kind, from, target);
        if error.Some? {
          PartExplains(rules, e, expr, error.value);
        }
    }
  }

  lemma EndFits(rules: seq<TokenExpr>, notes: Notes, from: nat, target: nat)
    requires CanBuild(rules, notes, [EndOfInput], from, target)
    ensures EdgeFits(rules, notes, from, Eof(target))
  {
    forall x | Matches(Eof(target), x) ensures Lang(rules, EndOfInput, [x]) {
      assert Denotes(rules, EndOfInput, [x], 0);
    }
    LabelFits(rules, notes, EndOfInput, from, target, Eof(target));
  }

  lemma EndBuilt(rules: seq<TokenExpr>, nfa: Nfa, building: seq<Building>, from: nat, target: nat)
    requires HasEdge(nfa, from, Eof(target))
    ensures Built(rules, nfa, building, EndOfInput, from, target)
  {
    forall w, n: nat | Denotes(rules, EndOfInput, w, n) ensures |w| == 1 && EdgeFor(nfa, from, w[0], target) {
      assert HasEdge(nfa, from, Eof(target)) && Matches(Eof(target), w[0]);
    }
    BuiltEdges(rules, nfa, building, EndOfInput, from, target);
  }

  lemma AnyFits(rules: seq<TokenExpr>, notes: Notes, from: nat, target: nat)
    requires CanBuild(rules, notes, [AnyChar], from, target)
    ensures EdgeFits(rules, notes, from, CodePoint(0, CODE_POINT_LIMIT, target))
  {
    var edge := CodePoint(0, CODE_POINT_LIMIT, target);
    forall x | Matches(edge, x) ensures Lang(rules, AnyChar, [x]) {
      assert Denotes(rules, AnyChar, [x], 0);
    }
    LabelFits(rules, notes, AnyChar, from, target, edge);
  }

  lemma AnyBuilt(rules: seq<TokenExpr>, nfa: Nfa, building: seq<Building>, from: nat, target: nat)
    requires HasEdge(nfa, from, CodePoint(0, CODE_POINT_LIMIT, target))
    ensures Built(rules, nfa, building, AnyChar, from, target)
  {
    var edge := CodePoint(0, CODE_POINT_LIMIT, target);
    forall w, n: nat | Denotes(rules, AnyChar, w, n) ensures |w| == 1 && EdgeFor(nfa, from, w[0], target) {
      assert HasEdge(nfa, from, edge) && Matches(edge, w[0]);
    }
    BuiltEdges(rules, nfa, building, AnyChar, from, target);
  }
}
