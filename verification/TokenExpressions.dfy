/** The strings that token expressions denote. */
module TokenExpressions {
  import opened TokenNfa

  datatype RepeatKind = ZeroOrMore | OneOrMore | Optional

  /** `RuleName` stands for the expression of another token rule, by number. */
  datatype TokenExpr =
    | RuleName(rule: nat)
    | EndOfInput
    | CharSet(ranges: seq<(nat, nat)>, inverted: bool)
    | AnyChar
    | Literal(chars: seq<nat>)
    | Choice(exprs: seq<TokenExpr>)
    | Sequence(exprs: seq<TokenExpr>)
    | Repeat(expr: TokenExpr, kind: RepeatKind)

  predicate InRanges(ranges: seq<(nat, nat)>, c: nat) {
    exists i :: 0 <= i < |ranges| && ranges[i].0 <= c < ranges[i].1
  }

  /** Ranges of code points as they are parsed: not empty, ascending, apart. */
  predicate GoodRanges(ranges: seq<(nat, nat)>) {
    && (forall i :: 0 <= i < |ranges| ==> ranges[i].0 < ranges[i].1 <= CODE_POINT_LIMIT)
    && forall i, j :: 0 <= i < j < |ranges| ==> ranges[i].1 <= ranges[j].0
  }

  /** What the parser guarantees; an empty literal is parsed as an empty
      sequence. */
  predicate GoodExpr(e: TokenExpr) {
    match e
    case CharSet(ranges, _) => GoodRanges(ranges)
    case Literal(chars) => chars != [] && forall c <- chars :: c < CODE_POINT_LIMIT
    case Choice(exprs) => forall x <- exprs :: GoodExpr(x)
    case Sequence(exprs) => forall x <- exprs :: GoodExpr(x)
    case Repeat(expr, _) => GoodExpr(expr)
    case _ => true
  }

  function Chars(chars: seq<nat>): seq<Symbol> {
    seq(|chars|, i requires 0 <= i < |chars| => Char(chars[i]))
  }

  predicate OneChar(word: seq<Symbol>) {
    |word| == 1 && word[0].Char? && word[0].c < CODE_POINT_LIMIT
  }

  // ---- denotation ---------------------------------------------------------

  /** With rule names replaced at most `n` deep, the expression denotes the
      word. */
  ghost predicate Denotes(rules: seq<TokenExpr>, e: TokenExpr, word: seq<Symbol>, n: nat)
    decreases n, e, 0, 0
  {
    match e
    case RuleName(k) => n > 0 && k < |rules| && Denotes(rules, rules[k], word, n - 1)
    case EndOfInput => word == [EndOfFile]
    case CharSet(ranges, inverted) => OneChar(word) && InRanges(ranges, word[0].c) != inverted
    case AnyChar => OneChar(word)
    case Literal(chars) => word == Chars(chars)
    case Choice(exprs) => exists x :: x in exprs && Denotes(rules, x, word, n)
    case Sequence(exprs) => DenotesAll(rules, exprs, word, n)
    case Repeat(expr, kind) =>
      match kind
      case ZeroOrMore => exists m: nat :: Times(rules, expr, word, n, m)
      case OneOrMore => exists m: nat :: m > 0 && Times(rules, expr, word, n, m)
      case Optional => word == [] || Denotes(rules, expr, word, n)
  }

  ghost predicate DenotesAll(rules: seq<TokenExpr>, exprs: seq<TokenExpr>, word: seq<Symbol>, n: nat)
    decreases n, exprs, 1, 0
  {
    if exprs == [] then word == []
    else exists i :: 0 <= i <= |word| && Denotes(rules, exprs[0], word[..i], n) && DenotesAll(rules, exprs[1..], word[i..], n)
  }

  /** The word is `m` words of the expression. */
  ghost predicate Times(rules: seq<TokenExpr>, e: TokenExpr, word: seq<Symbol>, n: nat, m: nat)
    decreases n, e, 1, m
  {
    if m == 0 then word == []
    else exists i :: 0 <= i <= |word| && Denotes(rules, e, word[..i], n) && Times(rules, e, word[i..], n, m - 1)
  }

  /** The words of an expression, and of expressions one after the other. */
  ghost predicate Lang(rules: seq<TokenExpr>, e: TokenExpr, word: seq<Symbol>) {
    exists n: nat :: Denotes(rules, e, word, n)
  }

  ghost predicate LangAll(rules: seq<TokenExpr>, exprs: seq<TokenExpr>, word: seq<Symbol>) {
    exists n: nat :: DenotesAll(rules, exprs, word, n)
  }

  lemma {:induction false} More(rules: seq<TokenExpr>, e: TokenExpr, word: seq<Symbol>, n: nat, more: nat)
    requires Denotes(rules, e, word, n) && n <= more
    ensures Denotes(rules, e, word, more)
    decreases n, e, 0, 0
  {
    match e
    case RuleName(k) => More(rules, rules[k], word, n - 1, more - 1);
    case Choice(exprs) =>
      var x :| x in exprs && Denotes(rules, x, word, n);
      More(rules, x, word, n, more);
    case Sequence(exprs) => MoreAll(rules, exprs, word, n, more);
    case Repeat(expr, kind) =>
      match kind {
        case ZeroOrMore =>
          var m: nat :| Times(rules, expr, word, n, m);
          MoreTimes(rules, expr, word, n, more, m);
        case OneOrMore =>
          var m: nat :| m > 0 && Times(rules, expr, word, n, m);
          MoreTimes(rules, expr, word, n, more, m);
        case Optional =>
          if word != [] { More(rules, expr, word, n, more); }
      }
    case _ =>
  }

  lemma {:induction false} MoreAll(rules: seq<TokenExpr>, exprs: seq<TokenExpr>, word: seq<Symbol>, n: nat, more: nat)
    requires DenotesAll(rules, exprs, word, n) && n <= more
    ensures DenotesAll(rules, exprs, word, more)
    decreases n, exprs, 1, 0
  {
    if exprs != [] {
      var i :| 0 <= i <= |word| && Denotes(rules, exprs[0], word[..i], n) && DenotesAll(rules, exprs[1..], word[i..], n);
      More(rules, exprs[0], word[..i], n, more);
      MoreAll(rules, exprs[1..], word[i..], n, more);
    }
  }

  lemma {:induction false} MoreTimes(rules: seq<TokenExpr>, e: TokenExpr, word: seq<Symbol>, n: nat, more: nat, m: nat)
    requires Times(rules, e, word, n, m) && n <= more
    ensures Times(rules, e, word, more, m)
    decreases n, e, 1, m
  {
    if m > 0 {
      var i :| 0 <= i <= |word| && Denotes(rules, e, word[..i], n) && Times(rules, e, word[i..], n, m - 1);
      More(rules, e, word[..i], n, more);
      MoreTimes(rules, e, word[i..], n, more, m - 1);
    }
  }

  // ---- words one after the other ------------------------------------------

  lemma Joined(rules: seq<TokenExpr>, e: TokenExpr, rest: seq<TokenExpr>, u: seq<Symbol>, v: seq<Symbol>)
    requires Lang(rules, e, u) && LangAll(rules, rest, v)
    ensures LangAll(rules, [e] + rest, u + v)
  {
    var n: nat :| Denotes(rules, e, u, n);
    var m: nat :| DenotesAll(rules, rest, v, m);
    var k := if n > m then n else m;
    More(rules, e, u, n, k);
    MoreAll(rules, rest, v, m, k);
    DenotesJoin(rules, e, rest, u, v, k);
  }

  lemma DenotesJoin(rules: seq<TokenExpr>, e: TokenExpr, rest: seq<TokenExpr>, u: seq<Symbol>, v: seq<Symbol>, n: nat)
    requires Denotes(rules, e, u, n) && DenotesAll(rules, rest, v, n)
    ensures DenotesAll(rules, [e] + rest, u + v, n)
  {
    hide Denotes;
    var all := [e] + rest;
    assert all[0] == e && all[1..] == rest;
    assert (u + v)[..|u|] == u && (u + v)[|u|..] == v;
  }

  lemma Parted(rules: seq<TokenExpr>, e: TokenExpr, rest: seq<TokenExpr>, word: seq<Symbol>) returns (i: nat)
    requires LangAll(rules, [e] + rest, word)
    ensures i <= |word| && Lang(rules, e, word[..i]) && LangAll(rules, rest, word[i..])
  {
    hide Denotes;
    var n: nat :| DenotesAll(rules, [e] + rest, word, n);
    var all := [e] + rest;
    assert all[0] == e && all[1..] == rest;
    i :| 0 <= i <= |word| && Denotes(rules, all[0], word[..i], n) && DenotesAll(rules, all[1..], word[i..], n);
  }

  /** A word of two lists is a word of one and a word of the other. */
  lemma {:induction false} PartedAt(rules: seq<TokenExpr>, a: seq<TokenExpr>, b: seq<TokenExpr>, word: seq<Symbol>, n: nat)
    returns (i: nat)
    requires DenotesAll(rules, a + b, word, n)
    ensures i <= |word| && DenotesAll(rules, a, word[..i], n) && DenotesAll(rules, b, word[i..], n)
    decreases |a|
  {
    hide Denotes;
    if a == [] {
      assert a + b == b && word[0..] == word;
      i := 0;
    } else {
      assert (a + b)[0] == a[0] && (a + b)[1..] == a[1..] + b;
      var j :| 0 <= j <= |word| && Denotes(rules, (a + b)[0], word[..j], n) && DenotesAll(rules, (a + b)[1..], word[j..], n);
      var k := PartedAt(rules, a[1..], b, word[j..], n);
      i := j + k;
      assert word[..i][..j] == word[..j] && word[..i][j..] == word[j..][..k] && word[i..] == word[j..][k..];
    }
  }

  lemma {:induction false} JoinedAll(rules: seq<TokenExpr>, a: seq<TokenExpr>, b: seq<TokenExpr>, u: seq<Symbol>, v: seq<Symbol>)
    requires LangAll(rules, a, u) && LangAll(rules, b, v)
    ensures LangAll(rules, a + b, u + v)
    decreases |a|
  {
    if a == [] {
      assert a + b == b && u + v == v;
    } else {
      assert a == [a[0]] + a[1..] && a + b == [a[0]] + (a[1..] + b);
      var i := Parted(rules, a[0], a[1..], u);
      JoinedAll(rules, a[1..], b, u[i..], v);
      Joined(rules, a[0], a[1..] + b, u[..i], u[i..] + v);
      assert u[..i] + (u[i..] + v) == u + v;
    }
  }

  lemma EmptyLang(rules: seq<TokenExpr>)
    ensures LangAll(rules, [], [])
  {
    assert DenotesAll(rules, [], [], 0);
  }

  // ---- what one kind of expression covers ---------------------------------

  /** `whole` denotes every word that `part` does. */
  ghost predicate Covers(rules: seq<TokenExpr>, whole: seq<TokenExpr>, part: seq<TokenExpr>) {
    forall word :: LangAll(rules, part, word) ==> LangAll(rules, whole, word)
  }

  lemma CoversTrans(rules: seq<TokenExpr>, a: seq<TokenExpr>, b: seq<TokenExpr>, c: seq<TokenExpr>)
    requires Covers(rules, a, b) && Covers(rules, b, c)
    ensures Covers(rules, a, c)
  {}

  lemma CoversSelf(rules: seq<TokenExpr>, a: seq<TokenExpr>)
    ensures Covers(rules, a, a)
  {}

  ghost predicate Includes(rules: seq<TokenExpr>, e: TokenExpr, part: seq<TokenExpr>) {
    forall word :: LangAll(rules, part, word) ==> Lang(rules, e, word)
  }

  /** What follows does not matter. */
  lemma CoversInFront(rules: seq<TokenExpr>, e: TokenExpr, part: seq<TokenExpr>, rest: seq<TokenExpr>)
    requires Includes(rules, e, part)
    ensures Covers(rules, [e] + rest, part + rest)
  {
    forall word | LangAll(rules, part + rest, word) ensures LangAll(rules, [e] + rest, word) {
      var n: nat :| DenotesAll(rules, part + rest, word, n);
      var i := PartedAt(rules, part, rest, word, n);
      Joined(rules, e, rest, word[..i], word[i..]);
      assert word[..i] + word[i..] == word;
    }
  }

  lemma OneOfAll(rules: seq<TokenExpr>, x: TokenExpr, word: seq<Symbol>, n: nat)
    ensures DenotesAll(rules, [x], word, n) <==> Denotes(rules, x, word, n)
  {
    hide Denotes;
    if DenotesAll(rules, [x], word, n) {
      var i :| 0 <= i <= |word| && Denotes(rules, [x][0], word[..i], n) && DenotesAll(rules, [x][1..], word[i..], n);
      assert word[..i] == word;
    }
    if Denotes(rules, x, word, n) {
      assert word[..|word|] == word;
      assert DenotesAll(rules, [x][1..], word[|word|..], n);
    }
  }

  lemma ChoiceIncludes(rules: seq<TokenExpr>, exprs: seq<TokenExpr>, x: TokenExpr)
    requires x in exprs
    ensures Includes(rules, Choice(exprs), [x])
  {
    forall word | LangAll(rules, [x], word) ensures Lang(rules, Choice(exprs), word) {
      var n: nat :| DenotesAll(rules, [x], word, n);
      OneOfAll(rules, x, word, n);
      assert Denotes(rules, Choice(exprs), word, n);
    }
  }

  lemma SequenceIncludes(rules: seq<TokenExpr>, exprs: seq<TokenExpr>)
    ensures Includes(rules, Sequence(exprs), exprs)
  {
    forall word | LangAll(rules, exprs, word) ensures Lang(rules, Sequence(exprs), word) {
      var n: nat :| DenotesAll(rules, exprs, word, n);
      assert Denotes(rules, Sequence(exprs), word, n);
    }
  }

  lemma RuleIncludes(rules: seq<TokenExpr>, k: nat)
    requires k < |rules|
    ensures Includes(rules, RuleName(k), [rules[k]])
  {
    forall word | LangAll(rules, [rules[k]], word) ensures Lang(rules, RuleName(k), word) {
      var n: nat :| DenotesAll(rules, [rules[k]], word, n);
      OneOfAll(rules, rules[k], word, n);
      assert Denotes(rules, RuleName(k), word, n + 1);
    }
  }

  lemma OptionalIncludes(rules: seq<TokenExpr>, e: TokenExpr)
    ensures Includes(rules, Repeat(e, Optional), []) && Includes(rules, Repeat(e, Optional), [e])
  {
    forall word | LangAll(rules, [], word) ensures Lang(rules, Repeat(e, Optional), word) {
      assert Denotes(rules, Repeat(e, Optional), word, 0);
    }
    forall word | LangAll(rules, [e], word) ensures Lang(rules, Repeat(e, Optional), word) {
      var n: nat :| DenotesAll(rules, [e], word, n);
      OneOfAll(rules, e, word, n);
      assert Denotes(rules, Repeat(e, Optional), word, n);
    }
  }

  lemma NoTimes(rules: seq<TokenExpr>, e: TokenExpr)
    ensures Denotes(rules, Repeat(e, ZeroOrMore), [], 0)
  {
    assert Times(rules, e, [], 0, 0);
  }

  lemma TimesNext(rules: seq<TokenExpr>, e: TokenExpr, u: seq<Symbol>, v: seq<Symbol>, n: nat, m: nat)
    requires Denotes(rules, e, u, n) && Times(rules, e, v, n, m)
    ensures Times(rules, e, u + v, n, m + 1)
  {
    hide Denotes;
    assert (u + v)[..|u|] == u && (u + v)[|u|..] == v;
  }

  lemma RepeatDenotes(rules: seq<TokenExpr>, e: TokenExpr, word: seq<Symbol>, n: nat, m: nat)
    requires m > 0 && Times(rules, e, word, n, m)
    ensures Denotes(rules, Repeat(e, ZeroOrMore), word, n) && Denotes(rules, Repeat(e, OneOrMore), word, n)
  {
    hide Times;
  }

  /** A repetition is nothing, or one word and a repetition again. */
  lemma RepeatIncludes(rules: seq<TokenExpr>, e: TokenExpr)
    ensures Includes(rules, Repeat(e, ZeroOrMore), [])
    ensures Includes(rules, Repeat(e, ZeroOrMore), [e, Repeat(e, ZeroOrMore)])
    ensures Includes(rules, Repeat(e, OneOrMore), [e, Repeat(e, ZeroOrMore)])
  {
    hide LangAll, Lang;
    forall word | LangAll(rules, [], word) ensures Lang(rules, Repeat(e, ZeroOrMore), word) {
      RepeatNothing(rules, e, word);
    }
    forall word | LangAll(rules, [e, Repeat(e, ZeroOrMore)], word)
      ensures Lang(rules, Repeat(e, ZeroOrMore), word) && Lang(rules, Repeat(e, OneOrMore), word)
    {
      RepeatAgain(rules, e, word);
    }
  }

  lemma RepeatNothing(rules: seq<TokenExpr>, e: TokenExpr, word: seq<Symbol>)
    requires LangAll(rules, [], word)
    ensures Lang(rules, Repeat(e, ZeroOrMore), word)
  {
    hide Denotes;
    NoTimes(rules, e);
  }

  lemma RepeatAgain(rules: seq<TokenExpr>, e: TokenExpr, word: seq<Symbol>)
    requires LangAll(rules, [e, Repeat(e, ZeroOrMore)], word)
    ensures Lang(rules, Repeat(e, ZeroOrMore), word) && Lang(rules, Repeat(e, OneOrMore), word)
  {
    hide Denotes, DenotesAll, Times;
    var all := Repeat(e, ZeroOrMore);
    assert [e, all] == [e] + [all];
    var n: nat :| DenotesAll(rules, [e] + [all], word, n);
    var i := PartedAt(rules, [e], [all], word, n);
    OneOfAll(rules, e, word[..i], n);
    OneOfAll(rules, all, word[i..], n);
    var m := RepeatTimes(rules, e, ZeroOrMore, word[i..], n);
    TimesNext(rules, e, word[..i], word[i..], n, m);
    assert word[..i] + word[i..] == word;
    RepeatDenotes(rules, e, word, n, m + 1);
  }

  lemma RepeatTimes(rules: seq<TokenExpr>, e: TokenExpr, kind: RepeatKind, word: seq<Symbol>, n: nat) returns (m: nat)
    requires kind != Optional && Denotes(rules, Repeat(e, kind), word, n)
    ensures Times(rules, e, word, n, m) && (kind == OneOrMore ==> m > 0)
  {
    if kind == ZeroOrMore {
      assert exists k: nat :: Times(rules, e, word, n, k);
      m :| Times(rules, e, word, n, m);
    } else {
      assert exists k: nat :: k > 0 && Times(rules, e, word, n, k);
      m :| m > 0 && Times(rules, e, word, n, m);
    }
  }

  lemma NoneTimes(rules: seq<TokenExpr>, e: TokenExpr, word: seq<Symbol>, n: nat)
    requires Times(rules, e, word, n, 0)
    ensures word == []
  {}

  lemma TimesFirst(rules: seq<TokenExpr>, e: TokenExpr, word: seq<Symbol>, n: nat, m: nat) returns (i: nat)
    requires m > 0 && Times(rules, e, word, n, m)
    ensures i <= |word| && Denotes(rules, e, word[..i], n) && Times(rules, e, word[i..], n, m - 1)
  {
    hide Denotes;
    i :| 0 <= i <= |word| && Denotes(rules, e, word[..i], n) && Times(rules, e, word[i..], n, m - 1);
  }

  // ---- inverted sets ------------------------------------------------------

  /** Between and around ascending ranges lies exactly what is in none of them. */
  method InvertRanges(ranges: seq<(nat, nat)>) returns (result: seq<(nat, nat)>)
    requires GoodRanges(ranges)
    ensures GoodRanges(result)
    ensures forall c: nat :: c < CODE_POINT_LIMIT ==> (InRanges(result, c) <==> !InRanges(ranges, c))
  {
    hide InRanges, GoodRanges;
    var position := 0;
    result := [];
    var i := 0;
    NoRanges();
    while i < |ranges|
      invariant 0 <= i <= |ranges| && position <= CODE_POINT_LIMIT
      invariant position == if i == 0 then 0 else ranges[i - 1].1
      invariant GoodRanges(result) && forall k :: 0 <= k < |result| ==> result[k].1 <= position
      invariant forall c: nat :: c < position ==> (InRanges(result, c) <==> !InRanges(ranges[..i], c))
    {
      var low, high := ranges[i].0, ranges[i].1;
      ghost var before := result;
      RangeBounds(ranges, i);
      if low > position {
        GoodPushed(result, (position, low));
        result := result + [(position, low)];
      }
      InvertStep(ranges, i, position, before, result);
      position := high;
      i := i + 1;
    }
    assert ranges[..i] == ranges;
    ghost var before := result;
    if position < CODE_POINT_LIMIT {
      GoodPushed(result, (position, CODE_POINT_LIMIT));
      result := result + [(position, CODE_POINT_LIMIT)];
    }
    InvertEnd(ranges, position, before, result);
  }

  lemma NoRanges()
    ensures GoodRanges([])
  {}

  lemma RangeBounds(ranges: seq<(nat, nat)>, i: nat)
    requires GoodRanges(ranges) && i < |ranges|
    ensures ranges[i].0 < ranges[i].1 <= CODE_POINT_LIMIT && (i > 0 ==> ranges[i - 1].1 <= ranges[i].0)
  {}

  lemma GoodPushed(ranges: seq<(nat, nat)>, r: (nat, nat))
    requires GoodRanges(ranges) && r.0 < r.1 <= CODE_POINT_LIMIT
    requires forall k :: 0 <= k < |ranges| ==> ranges[k].1 <= r.0
    ensures GoodRanges(ranges + [r])
  {}

  lemma PushedRange(ranges: seq<(nat, nat)>, r: (nat, nat), c: nat)
    ensures InRanges(ranges + [r], c) <==> InRanges(ranges, c) || r.0 <= c < r.1
  {
    var all := ranges + [r];
    if InRanges(ranges, c) {
      var i :| 0 <= i < |ranges| && ranges[i].0 <= c < ranges[i].1;
      assert all[i] == ranges[i];
    }
    if r.0 <= c < r.1 {
      assert all[|ranges|] == r;
    }
  }

  lemma InvertStep(ranges: seq<(nat, nat)>, i: nat, position: nat, before: seq<(nat, nat)>, after: seq<(nat, nat)>)
    requires i < |ranges| && GoodRanges(ranges) && position == if i == 0 then 0 else ranges[i - 1].1
    requires forall k :: 0 <= k < |before| ==> before[k].1 <= position
    requires forall c: nat :: c < position ==> (InRanges(before, c) <==> !InRanges(ranges[..i], c))
    requires after == if ranges[i].0 > position then before + [(position, ranges[i].0)] else before
    ensures forall c: nat :: c < ranges[i].1 ==> (InRanges(after, c) <==> !InRanges(ranges[..i + 1], c))
  {
    assert ranges[..i + 1] == ranges[..i] + [ranges[i]];
    forall c: nat | c < ranges[i].1 ensures InRanges(after, c) <==> !InRanges(ranges[..i + 1], c) {
      PushedRange(ranges[..i], ranges[i], c);
      PushedRange(before, (position, ranges[i].0), c);
    }
  }

  lemma InvertEnd(ranges: seq<(nat, nat)>, position: nat, before: seq<(nat, nat)>, after: seq<(nat, nat)>)
    requires GoodRanges(ranges) && position == if ranges == [] then 0 else ranges[|ranges| - 1].1
    requires forall k :: 0 <= k < |before| ==> before[k].1 <= position
    requires forall c: nat :: c < position ==> (InRanges(before, c) <==> !InRanges(ranges, c))
    requires after == if position < CODE_POINT_LIMIT then before + [(position, CODE_POINT_LIMIT)] else before
    ensures forall c: nat :: c < CODE_POINT_LIMIT ==> (InRanges(after, c) <==> !InRanges(ranges, c))
  {
    forall c: nat | c < CODE_POINT_LIMIT ensures InRanges(after, c) <==> !InRanges(ranges, c) {
      PushedRange(before, (position, CODE_POINT_LIMIT), c);
    }
  }
}
