/** From the token expressions of a grammar to the encoded table. */
module TokenSets {
  import opened Options
  import opened TokenNfa
  import opened TokenLanguage
  import opened TokenExpressions
  import opened TokenBuilder
  import opened TokenRules
  import T = TokenTable
  import C = TokenCompiler

  lemma TokenBuiltLater(rules: seq<TokenExpr>, nfa: Nfa, larger: Nfa, term: nat, root: TokenExpr)
    requires TokenBuilt(rules, nfa, term, root) && Extends(nfa, larger)
    ensures TokenBuilt(rules, larger, term, root)
  {
    hide Built;
    var target :| 0 <= target < |nfa.states| && nfa.states[target].accepting == [term]
                  && Built(rules, nfa, [], root, 0, target);
    BuiltLater(rules, nfa, larger, [], root, 0, target);
  }

  lemma DenotedAccepted(rules: seq<TokenExpr>, nfa: Nfa, term: nat, root: TokenExpr, word: seq<Symbol>)
    requires TokenBuilt(rules, nfa, term, root) && Lang(rules, root, word)
    ensures Accepts(nfa, 0, word, term)
  {
    hide Denotes;
    var target :| 0 <= target < |nfa.states| && nfa.states[target].accepting == [term]
                  && Built(rules, nfa, [], root, 0, target);
    var n: nat :| Denotes(rules, root, word, n);
    assert Extends(nfa, nfa) && StackCompletes(rules, nfa, [], n);
    EpsilonSelf(nfa, target);
    assert AcceptsAt(nfa, target, [], term) && Accepts(nfa, target, [], term);
    assert Accepts(nfa, 0, word + [], term);
    assert word + [] == word;
  }

  lemma AcceptedDenoted(rules: seq<TokenExpr>, nfa: Nfa, notes: Notes, word: seq<Symbol>, term: nat)
    requires Sound(rules, nfa, notes) && Accepts(nfa, 0, word, term)
    ensures term in notes.roots && Lang(rules, notes.roots[term], word)
  {
    hide Sound, Accepts, Denotes;
    AcceptsExplained(rules, nfa, notes, 0, word, term);
    var n: nat :| DenotesAll(rules, [notes.roots[term]], word, n);
    OneOfAll(rules, notes.roots[term], word, n);
  }

  /** What the expressions of a token set promise of its automaton. */
  ghost predicate Recognises(rules: seq<TokenExpr>, tokens: seq<(nat, TokenExpr)>, nfa: Nfa) {
    forall word, term: nat :: Accepts(nfa, nfa.start, word, term) <==> HasToken(rules, tokens, term, word)
  }

  ghost predicate HasToken(rules: seq<TokenExpr>, tokens: seq<(nat, TokenExpr)>, term: nat, word: seq<Symbol>) {
    exists i :: 0 <= i < |tokens| && tokens[i].0 == term && Lang(rules, tokens[i].1, word)
  }

  lemma LeavingRejects(rules: seq<TokenExpr>, notes: Notes, q: nat, state: NfaState, e: NfaEdge)
    requires StateFits(rules, notes, q, state) && e in state.edges
    ensures state.accepting == []
  {
    hide EdgeSound;
    assert EdgeFits(rules, notes, q, e);
  }

  /** No edge leaves an accepting state of a built automaton, and each term has
      one, so that the subset construction loses nothing. */
  lemma {:induction false} BuiltFaithful(rules: seq<TokenExpr>, nfa: Nfa, notes: Notes)
    requires Sound(rules, nfa, notes)
    ensures WellFormed(nfa) && OneStatePerTerm(nfa) && Faithful(nfa)
  {
    forall q | 0 <= q < |nfa.states| ensures StateFits(rules, notes, q, nfa.states[q]) {}
    hide EdgeSound;
    forall q | 0 <= q < |nfa.states| && nfa.states[q].accepting != [] ensures nfa.states[q].edges == [] {
      if nfa.states[q].edges != [] {
        LeavingRejects(rules, notes, q, nfa.states[q], nfa.states[q].edges[0]);
      }
    }
    EndingFaithful(nfa);
  }

  ghost predicate RootsAre(roots: map<nat, TokenExpr>, tokens: seq<(nat, TokenExpr)>) {
    && (forall i :: 0 <= i < |tokens| ==> tokens[i].0 in roots && roots[tokens[i].0] == tokens[i].1)
    && forall t <- roots :: exists i :: 0 <= i < |tokens| && tokens[i].0 == t
  }

  lemma RootsNext(roots: map<nat, TokenExpr>, tokens: seq<(nat, TokenExpr)>, i: nat)
    requires i < |tokens| && RootsAre(roots, tokens[..i]) && tokens[i].0 !in roots
    ensures RootsAre(roots[tokens[i].0 := tokens[i].1], tokens[..i + 1])
  {
    var next, before, after := roots[tokens[i].0 := tokens[i].1], tokens[..i], tokens[..i + 1];
    assert after == before + [tokens[i]] && after[i] == tokens[i];
    forall t <- next ensures exists j :: 0 <= j < |after| && after[j].0 == t {
      if t in roots {
        var j :| 0 <= j < |before| && before[j].0 == t;
        assert after[j].0 == t;
      }
    }
  }

  /** The automaton of a token set recognises exactly what its expressions
      denote. Only a name without a rule, or a rule inside itself, is refused. */
  method BuildTokens(rules: seq<TokenExpr>, tokens: seq<(nat, TokenExpr)>)
    returns (error: Option<BuildError>, nfa: Nfa)
    requires (forall r <- rules :: GoodExpr(r)) && forall t <- tokens :: GoodExpr(t.1)
    requires forall i, j :: 0 <= i < j < |tokens| ==> tokens[i].0 != tokens[j].0
    ensures error.None? ==> WellFormed(nfa) && OneStatePerTerm(nfa) && Faithful(nfa)
    ensures error.None? ==> Recognises(rules, tokens, nfa)
    ensures error.Some? ==> exists t :: t in tokens && Explains(rules, t.1, error.value)
  {
    hide Sound, TokenBuilt, GoodExpr, Explains, StackFits, Extends, WellFormed, OneStatePerTerm, Faithful, Recognises;
    var builder := new TokenNfaBuilder(rules);
    error := None;
    var i := 0;
    while i < |tokens|
      invariant error.None? && 0 <= i <= |tokens| && builder.Valid() && builder.building == [] && builder.rules == rules && fresh(builder)
      invariant RootsAre(builder.notes.roots, tokens[..i])
      invariant forall j :: 0 <= j < i ==> TokenBuilt(rules, builder.nfa, tokens[j].0, tokens[j].1)
    {
      ghost var before := builder.nfa;
      ghost var roots := builder.notes.roots;
      assert tokens[i] in tokens;
      NewTerm(roots, tokens, i);
      error := builder.GetToken(tokens[i].0, tokens[i].1);
      if error.Some? {
        assert Explains(rules, tokens[i].1, error.value);
        return error, builder.nfa;
      }
      RootsNext(roots, tokens, i);
      forall j | 0 <= j < i ensures TokenBuilt(rules, builder.nfa, tokens[j].0, tokens[j].1) {
        TokenBuiltLater(rules, before, builder.nfa, tokens[j].0, tokens[j].1);
      }
      i := i + 1;
    }
    assert tokens[..i] == tokens;
    nfa := builder.nfa;
    BuiltFaithful(rules, nfa, builder.notes);
    BuiltRecognises(rules, tokens, nfa, builder.notes);
  }

  lemma NewTerm(roots: map<nat, TokenExpr>, tokens: seq<(nat, TokenExpr)>, i: nat)
    requires i < |tokens| && RootsAre(roots, tokens[..i])
    requires forall i, j :: 0 <= i < j < |tokens| ==> tokens[i].0 != tokens[j].0
    ensures tokens[i].0 !in roots
  {}

  lemma BuiltRecognises(rules: seq<TokenExpr>, tokens: seq<(nat, TokenExpr)>, nfa: Nfa, notes: Notes)
    requires Sound(rules, nfa, notes) && RootsAre(notes.roots, tokens)
    requires forall j :: 0 <= j < |tokens| ==> TokenBuilt(rules, nfa, tokens[j].0, tokens[j].1)
    ensures Recognises(rules, tokens, nfa)
  {
    assert nfa.start == 0;
    hide Sound, TokenBuilt, Accepts, Lang;
    forall word, term: nat
      ensures Accepts(nfa, 0, word, term) <==> HasToken(rules, tokens, term, word)
    {
      if Accepts(nfa, 0, word, term) {
        AcceptedDenoted(rules, nfa, notes, word, term);
      }
      if HasToken(rules, tokens, term, word) {
        var i :| 0 <= i < |tokens| && tokens[i].0 == term && Lang(rules, tokens[i].1, word);
        DenotedAccepted(rules, nfa, term, tokens[i].1, word);
      }
    }
  }

  /** From expressions to the encoded table: the table accepts, for every string
      of code points and end of file, exactly the output ids of the tokens whose
      expressions denote it. */
  method CompileTokenSet(rules: seq<TokenExpr>, tokens: seq<(nat, TokenExpr)>, info: T.TermInfo)
    returns (error: Option<BuildError>, result: T.Result<T.EncodedTokenTable>)
    requires (forall r <- rules :: GoodExpr(r)) && forall t <- tokens :: GoodExpr(t.1)
    requires forall i, j :: 0 <= i < j < |tokens| ==> tokens[i].0 != tokens[j].0
    ensures error.None? && result.Ok? ==>
              forall word: seq<Symbol>, id: nat :: C.TableAccepts(result.value, 0, word, id) <==>
                exists t :: t in tokens && info.outputId(t.0) == id && Lang(rules, t.1, word)
    ensures error.Some? ==> exists t :: t in tokens && Explains(rules, t.1, error.value)
  {
    hide WellFormed, OneStatePerTerm, Faithful, Recognises, Explains, GoodExpr, C.SameTokens, C.TableAccepts, Lang;
    result := T.Err(T.NotSorted);
    var nfa;
    error, nfa := BuildTokens(rules, tokens);
    if error.Some? {
      return;
    }
    ghost var sets, subsets, partition, small, order;
    result, sets, subsets, partition, small, order := C.CompileTokens(nfa, info);
    if result.Ok? {
      TableRecognises(rules, tokens, nfa, info, result.value);
    }
  }

  lemma TableRecognises(rules: seq<TokenExpr>, tokens: seq<(nat, TokenExpr)>, nfa: Nfa, info: T.TermInfo,
                        table: T.EncodedTokenTable)
    requires Recognises(rules, tokens, nfa) && C.SameTokens(nfa, info, table)
    ensures forall word: seq<Symbol>, id: nat :: C.TableAccepts(table, 0, word, id) <==>
              exists t :: t in tokens && info.outputId(t.0) == id && Lang(rules, t.1, word)
  {
    hide C.TableAccepts, Accepts, Lang;
    forall word: seq<Symbol>, id: nat
      ensures C.TableAccepts(table, 0, word, id) <==>
                exists t :: t in tokens && info.outputId(t.0) == id && Lang(rules, t.1, word)
    {
      if C.TableAccepts(table, 0, word, id) {
        var term: nat :| info.outputId(term) == id && Accepts(nfa, nfa.start, word, term);
        assert HasToken(rules, tokens, term, word);
        var i :| 0 <= i < |tokens| && tokens[i].0 == term && Lang(rules, tokens[i].1, word);
        assert tokens[i] in tokens;
      }
      if t :| t in tokens && info.outputId(t.0) == id && Lang(rules, t.1, word) {
        var i :| 0 <= i < |tokens| && tokens[i] == t;
        assert HasToken(rules, tokens, t.0, word);
      }
    }
  }
}
