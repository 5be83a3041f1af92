/** Token automata built from token expressions. */
module TokenBuilder {
  import opened TokenNfa
  import opened TokenLanguage
  import opened TokenExpressions

  // ---- what a state is there for ------------------------------------------

  /** For each state but the start the expressions still to be read, and the
      term that is accepted then; for each term its expression. */
  datatype Notes = Notes(rest: seq<seq<TokenExpr>>, owners: seq<nat>, roots: map<nat, TokenExpr>)

  function RestAt(notes: Notes, p: nat, term: nat): seq<TokenExpr> {
    if p > 0 && p < |notes.rest| then notes.rest[p]
    else if term in notes.roots then [notes.roots[term]] else []
  }

  /** Reading the edge and then what `after` denotes is reading what `before`
      denotes. */
  ghost predicate EdgeSound(rules: seq<TokenExpr>, before: seq<TokenExpr>, e: NfaEdge, after: seq<TokenExpr>) {
    if e.Epsilon? then Covers(rules, before, after)
    else forall x, word :: Matches(e, x) && LangAll(rules, after, word) ==> LangAll(rules, before, [x] + word)
  }

  ghost predicate EdgeFits(rules: seq<TokenExpr>, notes: Notes, p: nat, e: NfaEdge) {
    && p < |notes.rest| && 0 < e.target < |notes.rest| == |notes.owners|
    && (e.CodePoint? ==> e.from < e.to <= CODE_POINT_LIMIT)
    && (p > 0 ==> notes.owners[p] == notes.owners[e.target] && notes.rest[p] != [])
    && EdgeSound(rules, RestAt(notes, p, notes.owners[e.target]), e, notes.rest[e.target])
  }

  ghost predicate StateFits(rules: seq<TokenExpr>, notes: Notes, p: nat, state: NfaState) {
    && p < |notes.rest| == |notes.owners|
    && state.accepting == (if p > 0 && notes.rest[p] == [] then [notes.owners[p]] else [])
    && forall e <- state.edges :: EdgeFits(rules, notes, p, e)
  }

  /** All states have an owner, and each owner one state with nothing to read. */
  ghost predicate NotesFit(notes: Notes) {
    && |notes.rest| == |notes.owners| > 0
    && (forall p :: 0 < p < |notes.owners| ==> notes.owners[p] in notes.roots)
    && forall p, q :: 0 < p < q < |notes.rest| && notes.rest[p] == [] && notes.rest[q] == [] ==>
         notes.owners[p] != notes.owners[q]
  }

  ghost predicate Sound(rules: seq<TokenExpr>, nfa: Nfa, notes: Notes) {
    && nfa.start == 0 && |nfa.states| == |notes.rest| && NotesFit(notes)
    && forall p :: 0 <= p < |nfa.states| ==> StateFits(rules, notes, p, nfa.states[p])
  }

  // ---- growing automata ---------------------------------------------------

  /** Only states and edges are added. */
  ghost predicate Extends(nfa: Nfa, larger: Nfa) {
    && nfa.start == larger.start && |nfa.states| <= |larger.states|
    && forall p :: 0 <= p < |nfa.states| ==>
         && larger.states[p].accepting == nfa.states[p].accepting
         && nfa.states[p].edges <= larger.states[p].edges
  }

  ghost predicate Grows(notes: Notes, larger: Notes) {
    && notes.rest <= larger.rest && notes.owners <= larger.owners && notes.roots == larger.roots
  }

  lemma ExtendsTrans(a: Nfa, b: Nfa, c: Nfa)
    requires Extends(a, b) && Extends(b, c)
    ensures Extends(a, c)
  {}

  function Pushed(nfa: Nfa, p: nat, e: NfaEdge): Nfa
    requires p < |nfa.states|
  {
    nfa.(states := nfa.states[p := nfa.states[p].(edges := nfa.states[p].edges + [e])])
  }

  predicate HasEdge(nfa: Nfa, p: nat, e: NfaEdge) {
    p < |nfa.states| && e in nfa.states[p].edges
  }

  lemma EdgeStays(nfa: Nfa, larger: Nfa, p: nat, e: NfaEdge)
    requires HasEdge(nfa, p, e) && Extends(nfa, larger)
    ensures HasEdge(larger, p, e)
  {}

  lemma PushedExtends(nfa: Nfa, p: nat, e: NfaEdge)
    requires p < |nfa.states|
    ensures Extends(nfa, Pushed(nfa, p, e)) && HasEdge(Pushed(nfa, p, e), p, e)
  {}

  lemma PushedSound(rules: seq<TokenExpr>, nfa: Nfa, notes: Notes, p: nat, e: NfaEdge)
    requires Sound(rules, nfa, notes) && p < |nfa.states| && EdgeFits(rules, notes, p, e)
    ensures Sound(rules, Pushed(nfa, p, e), notes)
  {
    hide EdgeFits;
    forall q | 0 <= q < |nfa.states| ensures StateFits(rules, notes, q, Pushed(nfa, p, e).states[q]) {
      assert StateFits(rules, notes, q, nfa.states[q]);
    }
  }

  /** A state with something left to read. */
  lemma StateSound(rules: seq<TokenExpr>, nfa: Nfa, notes: Notes, rest: seq<TokenExpr>, owner: nat)
    requires Sound(rules, nfa, notes) && rest != [] && owner in notes.roots
    ensures Sound(rules, nfa.(states := nfa.states + [NfaState([], [])]),
                  notes.(rest := notes.rest + [rest], owners := notes.owners + [owner]))
    ensures Extends(nfa, nfa.(states := nfa.states + [NfaState([], [])]))
  {
    var larger := notes.(rest := notes.rest + [rest], owners := notes.owners + [owner]);
    forall q | 0 <= q < |nfa.states| ensures StateFits(rules, larger, q, nfa.states[q]) {
      StateFitsLater(rules, notes, larger, q, nfa.states[q]);
    }
  }

  lemma StateFitsLater(rules: seq<TokenExpr>, notes: Notes, larger: Notes, q: nat, state: NfaState)
    requires StateFits(rules, notes, q, state) && |larger.rest| == |larger.owners| && NotesFit(notes)
    requires notes.rest <= larger.rest && notes.owners <= larger.owners
    requires forall t <- notes.roots :: t in larger.roots && larger.roots[t] == notes.roots[t]
    ensures StateFits(rules, larger, q, state)
  {
    hide EdgeSound;
  }

  /** The accepting state of a new term. */
  lemma AcceptingSound(rules: seq<TokenExpr>, nfa: Nfa, notes: Notes, term: nat, root: TokenExpr)
    requires Sound(rules, nfa, notes) && term !in notes.roots
    ensures Sound(rules, nfa.(states := nfa.states + [NfaState([term], [])]),
                  Notes(notes.rest + [[]], notes.owners + [term], notes.roots[term := root]))
  {
    var larger := Notes(notes.rest + [[]], notes.owners + [term], notes.roots[term := root]);
    forall q | 0 <= q < |nfa.states| ensures StateFits(rules, larger, q, nfa.states[q]) {
      StateFitsLater(rules, notes, larger, q, nfa.states[q]);
    }
  }

  // ---- accepted words are denoted -----------------------------------------

  /** What a word accepted from a state for a term means. */
  ghost predicate Explained(rules: seq<TokenExpr>, notes: Notes, p: nat, word: seq<Symbol>, term: nat) {
    && (p > 0 ==> p < |notes.owners| && notes.owners[p] == term)
    && term in notes.roots && LangAll(rules, RestAt(notes, p, term), word)
  }

  lemma {:induction false} AcceptsAtExplained(rules: seq<TokenExpr>, nfa: Nfa, notes: Notes, p: nat,
                                              word: seq<Symbol>, term: nat)
    requires Sound(rules, nfa, notes) && AcceptsAt(nfa, p, word, term)
    ensures Explained(rules, notes, p, word, term)
    decreases |word|, 0
  {
    hide LangAll, Covers, Explained, EdgeFits, Accepts;
    assert StateFits(rules, notes, p, nfa.states[p]);
    if word == [] {
      RestExplained(rules, notes, p, nfa.states[p], term);
    } else {
      var e :| e in nfa.states[p].edges && Matches(e, word[0]) && Accepts(nfa, e.target, word[1..], term);
      assert EdgeFits(rules, notes, p, e);
      AcceptsExplained(rules, nfa, notes, e.target, word[1..], term);
      EdgeExplained(rules, notes, p, e, word[0], word[1..], term);
      assert [word[0]] + word[1..] == word;
    }
  }

  lemma RestExplained(rules: seq<TokenExpr>, notes: Notes, p: nat, state: NfaState, term: nat)
    requires NotesFit(notes) && StateFits(rules, notes, p, state) && term in state.accepting
    ensures Explained(rules, notes, p, [], term)
  {
    hide LangAll, EdgeFits;
    EmptyLang(rules);
  }

  lemma EdgeExplained(rules: seq<TokenExpr>, notes: Notes, p: nat, e: NfaEdge, x: Symbol, word: seq<Symbol>, term: nat)
    requires EdgeFits(rules, notes, p, e) && Matches(e, x) && Explained(rules, notes, e.target, word, term)
    ensures Explained(rules, notes, p, [x] + word, term)
  {
    hide LangAll, Covers;
  }

  lemma {:induction false} AcceptsExplained(rules: seq<TokenExpr>, nfa: Nfa, notes: Notes, p: nat,
                                            word: seq<Symbol>, term: nat)
    requires Sound(rules, nfa, notes) && Accepts(nfa, p, word, term)
    ensures Explained(rules, notes, p, word, term)
    decreases |word|, 1
  {
    hide Sound, Explained;
    var q: nat :| EpsilonReaches(nfa, p, q) && AcceptsAt(nfa, q, word, term);
    AcceptsAtExplained(rules, nfa, notes, q, word, term);
    var n: nat :| EpsilonSteps(nfa, p, q, n);
    EpsilonExplained(rules, nfa, notes, p, q, n, word, term);
  }

  lemma {:induction false} EpsilonExplained(rules: seq<TokenExpr>, nfa: Nfa, notes: Notes, p: nat, q: nat, n: nat,
                                            word: seq<Symbol>, term: nat)
    requires Sound(rules, nfa, notes) && EpsilonSteps(nfa, p, q, n) && Explained(rules, notes, q, word, term)
    ensures Explained(rules, notes, p, word, term)
    decreases n
  {
    hide LangAll;
    if n > 0 {
      var r: nat :| EpsilonEdge(nfa, p, r) && EpsilonSteps(nfa, r, q, n - 1);
      EpsilonExplained(rules, nfa, notes, r, q, n - 1, word, term);
      assert StateFits(rules, notes, p, nfa.states[p]);
      assert EdgeFits(rules, notes, p, Epsilon(r));
    }
  }

  // ---- denoted words are accepted -----------------------------------------

  /** A word of the expression leads from `from` to `target`. */
  ghost predicate Completes(rules: seq<TokenExpr>, nfa: Nfa, e: TokenExpr, from: nat, target: nat, n: nat) {
    forall w, v, t :: Denotes(rules, e, w, n) && Accepts(nfa, target, v, t) ==> Accepts(nfa, from, w + v, t)
  }

  ghost predicate CompletesAll(rules: seq<TokenExpr>, nfa: Nfa, exprs: seq<TokenExpr>, from: nat, target: nat, n: nat) {
    forall w, v, t :: DenotesAll(rules, exprs, w, n) && Accepts(nfa, target, v, t) ==> Accepts(nfa, from, w + v, t)
  }

  /** A rule under construction, from its start to its target. */
  datatype Building = Building(rule: nat, start: nat, target: nat)

  ghost predicate StackCompletes(rules: seq<TokenExpr>, nfa: Nfa, building: seq<Building>, n: nat) {
    forall b <- building, m: nat :: m < n && b.rule < |rules| ==> Completes(rules, nfa, rules[b.rule], b.start, b.target, m)
  }

  /** However the automaton grows: as soon as the rules under construction are
      complete, so is the expression. */
  ghost predicate Built(rules: seq<TokenExpr>, nfa: Nfa, building: seq<Building>, e: TokenExpr, from: nat, target: nat) {
    forall larger, n: nat :: Extends(nfa, larger) && StackCompletes(rules, larger, building, n) ==>
      Completes(rules, larger, e, from, target, n)
  }

  ghost predicate BuiltAll(rules: seq<TokenExpr>, nfa: Nfa, building: seq<Building>, exprs: seq<TokenExpr>,
                           from: nat, target: nat) {
    forall larger, n: nat :: Extends(nfa, larger) && StackCompletes(rules, larger, building, n) ==>
      CompletesAll(rules, larger, exprs, from, target, n)
  }

  lemma BuiltLater(rules: seq<TokenExpr>, nfa: Nfa, larger: Nfa, building: seq<Building>, e: TokenExpr,
                   from: nat, target: nat)
    requires Built(rules, nfa, building, e, from, target) && Extends(nfa, larger)
    ensures Built(rules, larger, building, e, from, target)
  {
    hide StackCompletes, Completes;
    forall largest | Extends(larger, largest) ensures Extends(nfa, largest) {
      ExtendsTrans(nfa, larger, largest);
    }
  }

  lemma LabelAccepts(nfa: Nfa, p: nat, e: NfaEdge, x: Symbol, word: seq<Symbol>, term: nat)
    requires HasEdge(nfa, p, e) && Matches(e, x) && Accepts(nfa, e.target, word, term)
    ensures Accepts(nfa, p, [x] + word, term)
  {
    assert ([x] + word)[1..] == word;
    assert AcceptsAt(nfa, p, [x] + word, term);
    EpsilonSelf(nfa, p);
  }

  lemma EpsilonAccepts(nfa: Nfa, p: nat, r: nat, word: seq<Symbol>, term: nat)
    requires HasEdge(nfa, p, Epsilon(r)) && Accepts(nfa, r, word, term)
    ensures Accepts(nfa, p, word, term)
  {
    AcceptsBefore(nfa, p, r, word, term);
  }

  lemma BuiltChoice(rules: seq<TokenExpr>, nfa: Nfa, building: seq<Building>, exprs: seq<TokenExpr>,
                    from: nat, target: nat)
    requires forall x <- exprs :: Built(rules, nfa, building, x, from, target)
    ensures Built(rules, nfa, building, Choice(exprs), from, target)
  {
    hide Extends, StackCompletes, Accepts;
    forall larger, n: nat | Extends(nfa, larger) && StackCompletes(rules, larger, building, n)
      ensures Completes(rules, larger, Choice(exprs), from, target, n)
    {
      forall w, v, t | Denotes(rules, Choice(exprs), w, n) && Accepts(larger, target, v, t)
        ensures Accepts(larger, from, w + v, t)
      {
        var x :| x in exprs && Denotes(rules, x, w, n);
        assert Built(rules, nfa, building, x, from, target);
        assert Completes(rules, larger, x, from, target, n);
      }
    }
  }

  lemma BuiltSequence(rules: seq<TokenExpr>, nfa: Nfa, building: seq<Building>, exprs: seq<TokenExpr>,
                      from: nat, target: nat)
    requires BuiltAll(rules, nfa, building, exprs, from, target)
    ensures Built(rules, nfa, building, Sequence(exprs), from, target)
  {
    hide Extends, StackCompletes, Accepts;
    forall larger, n: nat | Extends(nfa, larger) && StackCompletes(rules, larger, building, n)
      ensures Completes(rules, larger, Sequence(exprs), from, target, n)
    {
      assert CompletesAll(rules, larger, exprs, from, target, n);
    }
  }

  lemma BuiltNone(rules: seq<TokenExpr>, nfa: Nfa, building: seq<Building>, from: nat)
    ensures BuiltAll(rules, nfa, building, [], from, from)
  {
    hide Accepts;
    forall w: seq<Symbol>, v: seq<Symbol> | w == [] ensures w + v == v {}
  }

  lemma BuiltNext(rules: seq<TokenExpr>, nfa: Nfa, larger: Nfa, building: seq<Building>, exprs: seq<TokenExpr>,
                  e: TokenExpr, from: nat, middle: nat, target: nat)
    requires BuiltAll(rules, nfa, building, exprs, from, middle) && Extends(nfa, larger)
    requires Built(rules, larger, building, e, middle, target)
    ensures BuiltAll(rules, larger, building, exprs + [e], from, target)
  {
    hide StackCompletes, Accepts, Extends, Denotes;
    forall largest, n: nat | Extends(larger, largest) && StackCompletes(rules, largest, building, n)
      ensures CompletesAll(rules, largest, exprs + [e], from, target, n)
    {
      ExtendsTrans(nfa, larger, largest);
      assert CompletesAll(rules, largest, exprs, from, middle, n);
      assert Completes(rules, largest, e, middle, target, n);
      forall w, v, t | DenotesAll(rules, exprs + [e], w, n) && Accepts(largest, target, v, t)
        ensures Accepts(largest, from, w + v, t)
      {
        var i := PartedAt(rules, exprs, [e], w, n);
        OneOfAll(rules, e, w[i..], n);
        assert Accepts(largest, middle, w[i..] + v, t);
        assert w[..i] + (w[i..] + v) == w + v;
      }
    }
  }

  lemma BuiltEmpty(rules: seq<TokenExpr>, nfa: Nfa, building: seq<Building>, from: nat, target: nat)
    requires HasEdge(nfa, from, Epsilon(target))
    ensures BuiltAll(rules, nfa, building, [], from, target)
  {
    hide Accepts, StackCompletes, Extends;
    forall larger, n: nat | Extends(nfa, larger) && StackCompletes(rules, larger, building, n)
      ensures CompletesAll(rules, larger, [], from, target, n)
    {
      EdgeStays(nfa, larger, from, Epsilon(target));
      forall w, v, t | DenotesAll(rules, [], w, n) && Accepts(larger, target, v, t)
        ensures Accepts(larger, from, w + v, t)
      {
        EpsilonAccepts(larger, from, target, v, t);
        assert w + v == v;
      }
    }
  }

  lemma {:induction false} TimesComplete(rules: seq<TokenExpr>, nfa: Nfa, e: TokenExpr, loop: nat, n: nat, m: nat,
                                         w: seq<Symbol>, v: seq<Symbol>, t: nat)
    requires Completes(rules, nfa, e, loop, loop, n) && Times(rules, e, w, n, m) && Accepts(nfa, loop, v, t)
    ensures Accepts(nfa, loop, w + v, t)
    decreases m
  {
    hide Accepts, Denotes, Times, Completes;
    if m > 0 {
      var i := TimesFirst(rules, e, w, n, m);
      TimesComplete(rules, nfa, e, loop, n, m - 1, w[i..], v, t);
      CompletesOne(rules, nfa, e, loop, loop, n, w[..i], w[i..] + v, t);
      assert w[..i] + (w[i..] + v) == w + v;
    } else {
      NoneTimes(rules, e, w, n);
      assert w + v == v;
    }
  }

  lemma CompletesOne(rules: seq<TokenExpr>, nfa: Nfa, e: TokenExpr, from: nat, target: nat, n: nat,
                     w: seq<Symbol>, v: seq<Symbol>, t: nat)
    requires Completes(rules, nfa, e, from, target, n) && Denotes(rules, e, w, n) && Accepts(nfa, target, v, t)
    ensures Accepts(nfa, from, w + v, t)
  {
    hide Accepts, Denotes;
  }

  lemma BuiltZeroOrMore(rules: seq<TokenExpr>, nfa: Nfa, building: seq<Building>, e: TokenExpr,
                        from: nat, loop: nat, target: nat)
    requires HasEdge(nfa, from, Epsilon(loop)) && HasEdge(nfa, loop, Epsilon(target))
    requires Built(rules, nfa, building, e, loop, loop)
    ensures Built(rules, nfa, building, Repeat(e, ZeroOrMore), from, target)
  {
    hide Accepts, StackCompletes, Extends, Denotes, Times;
    forall larger, n: nat | Extends(nfa, larger) && StackCompletes(rules, larger, building, n)
      ensures Completes(rules, larger, Repeat(e, ZeroOrMore), from, target, n)
    {
      EdgeStays(nfa, larger, from, Epsilon(loop));
      EdgeStays(nfa, larger, loop, Epsilon(target));
      assert Completes(rules, larger, e, loop, loop, n);
      forall w, v, t | Denotes(rules, Repeat(e, ZeroOrMore), w, n) && Accepts(larger, target, v, t)
        ensures Accepts(larger, from, w + v, t)
      {
        var m := RepeatTimes(rules, e, ZeroOrMore, w, n);
        EpsilonAccepts(larger, loop, target, v, t);
        TimesComplete(rules, larger, e, loop, n, m, w, v, t);
        EpsilonAccepts(larger, from, loop, w + v, t);
      }
    }
  }

  lemma BuiltOneOrMore(rules: seq<TokenExpr>, nfa: Nfa, building: seq<Building>, e: TokenExpr,
                       from: nat, loop: nat, target: nat)
    requires HasEdge(nfa, loop, Epsilon(target)) && Built(rules, nfa, building, e, from, loop)
    requires Built(rules, nfa, building, e, loop, loop)
    ensures Built(rules, nfa, building, Repeat(e, OneOrMore), from, target)
  {
    hide Accepts, StackCompletes, Extends, Denotes, Times;
    forall larger, n: nat | Extends(nfa, larger) && StackCompletes(rules, larger, building, n)
      ensures Completes(rules, larger, Repeat(e, OneOrMore), from, target, n)
    {
      EdgeStays(nfa, larger, loop, Epsilon(target));
      assert Completes(rules, larger, e, loop, loop, n) && Completes(rules, larger, e, from, loop, n);
      forall w, v, t | Denotes(rules, Repeat(e, OneOrMore), w, n) && Accepts(larger, target, v, t)
        ensures Accepts(larger, from, w + v, t)
      {
        var m := RepeatTimes(rules, e, OneOrMore, w, n);
        var i := TimesFirst(rules, e, w, n, m);
        EpsilonAccepts(larger, loop, target, v, t);
        TimesComplete(rules, larger, e, loop, n, m - 1, w[i..], v, t);
        assert w[..i] + (w[i..] + v) == w + v;
      }
    }
  }

  lemma BuiltOptional(rules: seq<TokenExpr>, nfa: Nfa, building: seq<Building>, e: TokenExpr, from: nat, target: nat)
    requires HasEdge(nfa, from, Epsilon(target)) && Built(rules, nfa, building, e, from, target)
    ensures Built(rules, nfa, building, Repeat(e, Optional), from, target)
  {
    hide Accepts, StackCompletes, Extends;
    forall larger, n: nat | Extends(nfa, larger) && StackCompletes(rules, larger, building, n)
      ensures Completes(rules, larger, Repeat(e, Optional), from, target, n)
    {
      EdgeStays(nfa, larger, from, Epsilon(target));
      assert Completes(rules, larger, e, from, target, n);
      forall w, v, t | Denotes(rules, Repeat(e, Optional), w, n) && Accepts(larger, target, v, t)
        ensures Accepts(larger, from, w + v, t)
      {
        if w == [] {
          EpsilonAccepts(larger, from, target, v, t);
          assert w + v == v;
        }
      }
    }
  }

  /** A rule built from a state of its own. Its own name in its body, at the
      same target, leads back to that state. */
  lemma BuiltRule(rules: seq<TokenExpr>, nfa: Nfa, building: seq<Building>, k: nat, from: nat, start: nat, target: nat)
    requires k < |rules| && HasEdge(nfa, from, Epsilon(start))
    requires Built(rules, nfa, building + [Building(k, start, target)], rules[k], start, target)
    ensures Built(rules, nfa, building, RuleName(k), from, target)
  {
    hide Accepts, StackCompletes, Extends;
    forall larger, n: nat | Extends(nfa, larger) && StackCompletes(rules, larger, building, n)
      ensures Completes(rules, larger, RuleName(k), from, target, n)
    {
      EdgeStays(nfa, larger, from, Epsilon(start));
      if n > 0 {
        RuleCompletes(rules, nfa, larger, building, k, start, target, n, n - 1);
      }
      forall w, v, t | Denotes(rules, RuleName(k), w, n) && Accepts(larger, target, v, t)
        ensures Accepts(larger, from, w + v, t)
      {
        EpsilonAccepts(larger, from, start, w + v, t);
      }
    }
  }

  lemma {:induction false} RuleCompletes(rules: seq<TokenExpr>, nfa: Nfa, larger: Nfa, building: seq<Building>, k: nat,
                                         start: nat, target: nat, n: nat, m: nat)
    requires k < |rules| && m <= n && Extends(nfa, larger) && StackCompletes(rules, larger, building, n)
    requires Built(rules, nfa, building + [Building(k, start, target)], rules[k], start, target)
    ensures Completes(rules, larger, rules[k], start, target, m)
    decreases m
  {
    hide Accepts, Extends, Completes, Denotes;
    forall j: nat | j < m ensures Completes(rules, larger, rules[k], start, target, j) {
      RuleCompletes(rules, nfa, larger, building, k, start, target, n, j);
    }
    assert StackCompletes(rules, larger, building + [Building(k, start, target)], m);
  }

  lemma BuiltTail(rules: seq<TokenExpr>, nfa: Nfa, building: seq<Building>, b: Building, from: nat)
    requires b in building && b.rule < |rules| && HasEdge(nfa, from, Epsilon(b.start))
    ensures Built(rules, nfa, building, RuleName(b.rule), from, b.target)
  {
    hide Accepts, Extends;
    forall larger, n: nat | Extends(nfa, larger) && StackCompletes(rules, larger, building, n)
      ensures Completes(rules, larger, RuleName(b.rule), from, b.target, n)
    {
      EdgeStays(nfa, larger, from, Epsilon(b.start));
      forall w, v, t | Denotes(rules, RuleName(b.rule), w, n) && Accepts(larger, b.target, v, t)
        ensures Accepts(larger, from, w + v, t)
      {
        assert Completes(rules, larger, rules[b.rule], b.start, b.target, n - 1);
        EpsilonAccepts(larger, from, b.start, w + v, t);
      }
    }
  }

  /** One edge for every character of the expression. */
  lemma BuiltEdges(rules: seq<TokenExpr>, nfa: Nfa, building: seq<Building>, e: TokenExpr, from: nat, target: nat)
    requires forall w, n: nat :: Denotes(rules, e, w, n) ==> |w| == 1 && EdgeFor(nfa, from, w[0], target)
    ensures Built(rules, nfa, building, e, from, target)
  {
    hide Accepts, StackCompletes, Extends, Denotes;
    forall larger, n: nat | Extends(nfa, larger) && StackCompletes(rules, larger, building, n)
      ensures Completes(rules, larger, e, from, target, n)
    {
      forall w, v, t | Denotes(rules, e, w, n) && Accepts(larger, target, v, t)
        ensures Accepts(larger, from, w + v, t)
      {
        assert EdgeFor(nfa, from, w[0], target);
        var edge :| HasEdge(nfa, from, edge) && Matches(edge, w[0]) && edge.target == target;
        EdgeStays(nfa, larger, from, edge);
        LabelAccepts(larger, from, edge, w[0], v, t);
        assert w + v == [w[0]] + v;
      }
    }
  }

  ghost predicate EdgeFor(nfa: Nfa, from: nat, x: Symbol, target: nat) {
    exists edge :: HasEdge(nfa, from, edge) && Matches(edge, x) && edge.target == target
  }

  /** Characters one after the other. */
  ghost predicate Spelled(nfa: Nfa, chars: seq<nat>, from: nat, target: nat) {
    forall larger, v, t :: Extends(nfa, larger) && Accepts(larger, target, v, t) ==>
      Accepts(larger, from, Chars(chars) + v, t)
  }

  lemma SpelledNone(nfa: Nfa, from: nat)
    ensures Spelled(nfa, [], from, from)
  {
    hide Accepts;
    forall v: seq<Symbol> ensures Chars([]) + v == v {}
  }

  lemma SpelledNext(nfa: Nfa, larger: Nfa, chars: seq<nat>, c: nat, from: nat, middle: nat, target: nat)
    requires Spelled(nfa, chars, from, middle) && Extends(nfa, larger)
    requires HasEdge(larger, middle, CodePoint(c, c + 1, target))
    ensures Spelled(larger, chars + [c], from, target)
  {
    hide Accepts, Extends;
    forall largest, v, t | Extends(larger, largest) && Accepts(largest, target, v, t)
      ensures Accepts(largest, from, Chars(chars + [c]) + v, t)
    {
      ExtendsTrans(nfa, larger, largest);
      EdgeStays(larger, largest, middle, CodePoint(c, c + 1, target));
      LabelAccepts(largest, middle, CodePoint(c, c + 1, target), Char(c), v, t);
      assert Chars(chars + [c]) + v == Chars(chars) + ([Char(c)] + v);
    }
  }

  lemma BuiltLiteral(rules: seq<TokenExpr>, nfa: Nfa, building: seq<Building>, chars: seq<nat>, from: nat, target: nat)
    requires Spelled(nfa, chars, from, target)
    ensures Built(rules, nfa, building, Literal(chars), from, target)
  {
    hide Accepts, Extends, StackCompletes;
  }
}
