/** The closure of a set of LR(1) positions: a worklist that revisits only what
    changed, against the least closed family of lookaheads. */
module LookaheadClosure {
  import opened Options
  import opened FirstSets
  import opened LookaheadFamily
  import opened LookaheadChains

  // ---- termination --------------------------------------------------------

  /** How much the lookahead of a rule can still grow. */
  function Room(z: Family, r: nat, terms: set<nat>, groups: set<nat>): nat {
    if r in z then |terms - z[r].ahead| + |groups - z[r].ambiguity| else |terms| + |groups| + 1
  }

  function Potential(z: Family, n: nat, terms: set<nat>, groups: set<nat>): nat {
    if n == 0 then 0 else Potential(z, n - 1, terms, groups) + Room(z, n - 1, terms, groups)
  }

  lemma {:induction false} PotentialSame(z: Family, r: nat, look: Look, n: nat, terms: set<nat>, groups: set<nat>)
    requires r >= n
    ensures Potential(z[r := look], n, terms, groups) == Potential(z, n, terms, groups)
  {
    if n > 0 { PotentialSame(z, r, look, n - 1, terms, groups); }
  }

  lemma {:induction false} PotentialDrops(z: Family, r: nat, look: Look, n: nat, terms: set<nat>, groups: set<nat>)
    requires r < n && Room(z[r := look], r, terms, groups) < Room(z, r, terms, groups)
    ensures Potential(z[r := look], n, terms, groups) < Potential(z, n, terms, groups)
  {
    hide Room;
    if r == n - 1 {
      PotentialSame(z, r, look, n - 1, terms, groups);
    } else {
      PotentialDrops(z, r, look, n - 1, terms, groups);
      RoomSame(z, r, look, n - 1, terms, groups);
    }
  }

  lemma RoomSame(z: Family, r: nat, look: Look, n: nat, terms: set<nat>, groups: set<nat>)
    requires r != n
    ensures Room(z[r := look], n, terms, groups) == Room(z, n, terms, groups)
  {}

  lemma RoomDrops(z: Family, r: nat, look: Look, terms: set<nat>, groups: set<nat>)
    requires look.ahead <= terms && look.ambiguity <= groups
    requires r in z ==> z[r].ahead <= look.ahead && z[r].ambiguity <= look.ambiguity
    requires r in z ==> z[r].ahead != look.ahead || z[r].ambiguity != look.ambiguity
    ensures Room(z[r := look], r, terms, groups) < Room(z, r, terms, groups)
  {
    Fewer(look.ahead, {}, terms);
    Fewer(look.ambiguity, {}, groups);
    if r in z {
      Fewer(look.ahead, z[r].ahead, terms);
      Fewer(look.ambiguity, z[r].ambiguity, groups);
    }
  }

  lemma Fewer(more: set<nat>, some: set<nat>, all: set<nat>)
    requires some <= more <= all
    ensures |all - more| <= |all - some| && (some != more ==> |all - more| < |all - some|)
    ensures |all - some| <= |all|
  {
    assert all - some == (all - more) + (more - some);
    assert |all - some| == |all - more| + |more - some|;
    assert all == (all - some) + some;
    assert |all| == |all - some| + |some|;
    if some != more {
      var x :| x in more && x !in some;
      assert x in more - some;
    }
  }

  // ---- the worklist -------------------------------------------------------

  /** The lookaheads of the zero-dot positions. */
  function Zero(result: seq<Position>, zeroDot: map<nat, nat>): Family {
    map r | r in zeroDot && zeroDot[r] < |result| :: LookOf(result[zeroDot[r]])
  }

  /** The list: core positions in place, then new ones, each growing position
      filed under its rule. */
  ghost predicate Shape(g: Syntax, core: seq<Position>, result: seq<Position>, zeroDot: map<nat, nat>) {
    && |core| <= |result|
    && (forall r :: r in zeroDot ==>
          zeroDot[r] < |result| && result[zeroDot[r]].rule == r && result[zeroDot[r]].dot == 0)
    && (forall i: nat :: i < |result| ==> InRule(g, result[i]) && Filed(core, result, zeroDot, i))
  }

  ghost predicate Filed(core: seq<Position>, result: seq<Position>, zeroDot: map<nat, nat>, i: nat)
    requires i < |result|
  {
    if i < |core| && !Grows(core, i) then
      result[i] == core[i] && (result[i].rule in zeroDot ==> zeroDot[result[i].rule] != i)
    else
      && result[i].dot == 0 && result[i].rule in zeroDot && zeroDot[result[i].rule] == i
      && (i < |core| ==> core[i].rule == result[i].rule && Within(LookOf(core[i]), LookOf(result[i])))
  }

  /** Queued positions are flagged; all others, but for the one being handled,
      have been answered. */
  ghost predicate Waiting(g: Syntax, first: Table, result: seq<Position>, z: Family, pending: seq<nat>,
                          queued: seq<bool>, current: nat)
    requires WellFormed(g)
  {
    && |queued| == |result|
    && (forall i: nat :: i < |result| ==> (queued[i] <==> i in pending))
    && (forall i <- pending :: i < |result|)
    && (forall i, j :: 0 <= i < j < |pending| ==> pending[i] != pending[j])
    && (forall i: nat :: i < |result| && !queued[i] && i != current ==> Includes(g, first, result[i], z))
  }

  ghost predicate Grown(z: Family, more: Family) {
    forall r :: r in z ==> r in more && Within(z[r], more[r])
  }

  lemma IncludesMore(g: Syntax, first: Table, p: Position, z: Family, more: Family)
    requires WellFormed(g) && Includes(g, first, p, z) && Grown(z, more)
    ensures Includes(g, first, p, more)
  {
    hide Nested, Contribution;
  }

  /** Changing the lookahead of one filed position changes its rule alone. */
  lemma ZeroUpdated(g: Syntax, core: seq<Position>, result: seq<Position>, zeroDot: map<nat, nat>, n: nat, look: Look)
    requires Shape(g, core, result, zeroDot) && n in zeroDot && Within(LookOf(result[zeroDot[n]]), look)
    ensures var next := result[zeroDot[n] := ZeroDot(n, look)];
            && Zero(next, zeroDot) == Zero(result, zeroDot)[n := look]
            && Shape(g, core, next, zeroDot)
  {
    var k := zeroDot[n];
    var next := result[k := ZeroDot(n, look)];
    forall i: nat | i < |next| ensures InRule(g, next[i]) && Filed(core, next, zeroDot, i) {
      assert InRule(g, result[i]) && Filed(core, result, zeroDot, i);
    }
  }

  lemma ZeroAdded(g: Syntax, core: seq<Position>, result: seq<Position>, zeroDot: map<nat, nat>, n: nat, look: Look)
    requires Shape(g, core, result, zeroDot) && n !in zeroDot && n < |g.rules|
    ensures var next, filed := result + [ZeroDot(n, look)], zeroDot[n := |result|];
            && Zero(next, filed) == Zero(result, zeroDot)[n := look]
            && Shape(g, core, next, filed)
  {
    var next, filed := result + [ZeroDot(n, look)], zeroDot[n := |result|];
    forall i: nat | i < |next| ensures InRule(g, next[i]) && Filed(core, next, filed, i) {
      if i < |result| { assert InRule(g, result[i]) && Filed(core, result, zeroDot, i); }
    }
  }

  /** The lookaheads stay within the terms and groups of the grammar and core. */
  ghost predicate Inside(z: Family, terms: set<nat>, groups: set<nat>) {
    forall r :: r in z ==> z[r].ahead <= terms && z[r].ambiguity <= groups
  }

  /** Everything the loop keeps about the list and its lookaheads. */
  ghost predicate Working(g: Syntax, first: Table, core: seq<Position>, result: seq<Position>,
                          zeroDot: map<nat, nat>, terms: set<nat>, groups: set<nat>)
    requires WellFormed(g)
  {
    && Shape(g, core, result, zeroDot)
    && Least(g, first, core, Zero(result, zeroDot))
    && Inside(Zero(result, zeroDot), terms, groups)
  }

  lemma LeastNext(g: Syntax, first: Table, core: seq<Position>, z: Family, n: nat, look: Look)
    requires WellFormed(g) && Least(g, first, core, z) && Forced(g, first, core, n, look)
    ensures Least(g, first, core, z[n := look])
  {
    hide Forced;
  }

  lemma InsideNext(z: Family, n: nat, look: Look, terms: set<nat>, groups: set<nat>)
    requires Inside(z, terms, groups) && look.ahead <= terms && look.ambiguity <= groups
    ensures Inside(z[n := look], terms, groups)
  {}

  lemma WaitingNext(g: Syntax, first: Table, result: seq<Position>, next: seq<Position>, z: Family, more: Family,
                    pending: seq<nat>, queued: seq<bool>, waiting: seq<nat>, flags: seq<bool>, current: nat, k: nat)
    requires WellFormed(g) && Waiting(g, first, result, z, pending, queued, current) && Grown(z, more)
    requires |next| == |flags| && |result| <= |next| <= |result| + 1 && k < |next|
    requires |result| < |next| ==> k == |result|
    requires forall i: nat :: i < |result| && i != k ==> next[i] == result[i] && flags[i] == queued[i]
    requires flags[k] && waiting == if k < |queued| && queued[k] then pending else pending + [k]
    ensures Waiting(g, first, next, more, waiting, flags, current)
  {
    hide Includes;
    forall i: nat | i < |next| && !flags[i] && i != current ensures Includes(g, first, next[i], more) {
      IncludesMore(g, first, result[i], z, more);
    }
    forall i, j | 0 <= i < j < |waiting| ensures waiting[i] != waiting[j] {
      if j == |pending| { assert pending[i] in pending; }
    }
    assert forall i: nat :: i in waiting <==> i in pending || i == k;
  }

  lemma JoinInside(z: Family, n: nat, look: Look, terms: set<nat>, groups: set<nat>)
    requires Inside(z, terms, groups) && n in z && look.ahead <= terms && look.ambiguity <= groups
    ensures Joined(z[n], look).ahead <= terms && Joined(z[n], look).ambiguity <= groups
    ensures Within(z[n], Joined(z[n], look))
  {}

  lemma GrownNext(z: Family, n: nat, look: Look)
    requires n in z ==> Within(z[n], look)
    ensures Grown(z, z[n := look])
  {}

  /** Files what one position asks of one rule. It grows an existing lookahead
      or appends a position, and queues what has changed; skip contexts that
      disagree mean that there is no closed family. */
  method AddNested(g: Syntax, ghost first: Table, ghost core: seq<Position>, result: seq<Position>,
                   zeroDot: map<nat, nat>, pending: seq<nat>, queued: seq<bool>, n: nat, look: Look,
                   ghost current: nat, ghost terms: set<nat>, ghost groups: set<nat>)
    returns (ok: bool, next: seq<Position>, filed: map<nat, nat>, waiting: seq<nat>, flags: seq<bool>)
    requires WellFormed(g) && n < |g.rules|
    requires Working(g, first, core, result, zeroDot, terms, groups)
    requires Waiting(g, first, result, Zero(result, zeroDot), pending, queued, current)
    requires Forced(g, first, core, n, look) && look.ahead <= terms && look.ambiguity <= groups
    ensures !ok ==> forall f: Family :: !ClosedFamily(g, first, core, f)
    ensures ok ==> Working(g, first, core, next, filed, terms, groups)
    ensures ok ==> Waiting(g, first, next, Zero(next, filed), waiting, flags, current)
    ensures ok ==> Grown(Zero(result, zeroDot), Zero(next, filed))
    ensures ok ==> n in Zero(next, filed) && Within(look, Zero(next, filed)[n])
    ensures ok ==> |result| <= |next| == |flags|
    ensures ok ==> forall i: nat :: i < |result| && !flags[i] ==> next[i] == result[i] && !queued[i]
    ensures ok && (next, filed, waiting, flags) != (result, zeroDot, pending, queued) ==>
              Potential(Zero(next, filed), |g.rules|, terms, groups)
              < Potential(Zero(result, zeroDot), |g.rules|, terms, groups)
  {
    hide Forced, Least, Shape, Includes, Room, Potential, Zero, ClosedFamily, Waiting, Grown, Inside;
    next, filed, waiting, flags := result, zeroDot, pending, queued;
    ghost var z := Zero(result, zeroDot);
    WaitingLength(g, first, result, z, pending, queued, current);
    if n in zeroDot {
      var k := zeroDot[n];
      FiledAt(g, core, result, zeroDot, n);
      var existing := result[k];
      assert z[n] == LookOf(existing);
      assert Forced(g, first, core, n, z[n]) by { LeastAt(g, first, core, z, n); }
      ForcedJoin(g, first, core, n, z[n], look);
      if existing.skipAhead != look.skipAhead {
        return false, result, zeroDot, pending, queued;
      }
      ok := true;
      JoinInside(z, n, look, terms, groups);
      var joined := Joined(LookOf(existing), look);
      if joined.ahead == existing.ahead && joined.ambiguity == existing.ambiguity {
        GrownSame(z);
        return;
      }
      next := result[k := ZeroDot(n, joined)];
      ZeroUpdated(g, core, result, zeroDot, n, joined);
      if !queued[k] {
        flags := queued[k := true];
        waiting := pending + [k];
      }
      Settle(g, first, core, z, n, joined, terms, groups);
      WaitingNext(g, first, result, next, z, Zero(next, filed), pending, queued, waiting, flags, current, k);
    } else {
      ok := true;
      next := result + [ZeroDot(n, look)];
      filed := zeroDot[n := |result|];
      flags := queued + [true];
      waiting := pending + [|result|];
      NotFiled(result, zeroDot, n);
      ZeroAdded(g, core, result, zeroDot, n, look);
      Settle(g, first, core, z, n, look, terms, groups);
      WaitingNext(g, first, result, next, z, Zero(next, filed), pending, queued, waiting, flags, current, |result|);
    }
  }

  /** What growing one lookahead to a forced value keeps. */
  lemma Settle(g: Syntax, first: Table, core: seq<Position>, z: Family, n: nat, look: Look,
               terms: set<nat>, groups: set<nat>)
    requires WellFormed(g) && n < |g.rules| && Least(g, first, core, z) && Inside(z, terms, groups)
    requires Forced(g, first, core, n, look) && look.ahead <= terms && look.ambiguity <= groups
    requires n in z ==> Within(z[n], look) && (z[n].ahead != look.ahead || z[n].ambiguity != look.ambiguity)
    ensures Least(g, first, core, z[n := look]) && Inside(z[n := look], terms, groups)
    ensures Grown(z, z[n := look])
    ensures Potential(z[n := look], |g.rules|, terms, groups) < Potential(z, |g.rules|, terms, groups)
  {
    hide Forced, Least, Inside, Grown, Room, Potential;
    LeastNext(g, first, core, z, n, look);
    InsideNext(z, n, look, terms, groups);
    GrownNext(z, n, look);
    RoomDrops(z, n, look, terms, groups);
    PotentialDrops(z, n, look, |g.rules|, terms, groups);
  }

  lemma WaitingLength(g: Syntax, first: Table, result: seq<Position>, z: Family, pending: seq<nat>,
                      queued: seq<bool>, current: nat)
    requires WellFormed(g) && Waiting(g, first, result, z, pending, queued, current)
    ensures |queued| == |result|
    ensures forall i <- pending :: i < |result| && queued[i]
  {
    hide Includes;
  }

  lemma FiledAt(g: Syntax, core: seq<Position>, result: seq<Position>, zeroDot: map<nat, nat>, n: nat)
    requires Shape(g, core, result, zeroDot) && n in zeroDot
    ensures zeroDot[n] < |result| && result[zeroDot[n]] == ZeroDot(n, LookOf(result[zeroDot[n]]))
    ensures n in Zero(result, zeroDot) && Zero(result, zeroDot)[n] == LookOf(result[zeroDot[n]])
  {}

  lemma NotFiled(result: seq<Position>, zeroDot: map<nat, nat>, n: nat)
    requires n !in zeroDot
    ensures n !in Zero(result, zeroDot)
  {}

  lemma LeastAt(g: Syntax, first: Table, core: seq<Position>, z: Family, n: nat)
    requires WellFormed(g) && Least(g, first, core, z) && n in z
    ensures Forced(g, first, core, n, z[n])
  {
    hide Forced;
  }

  lemma GrownSame(z: Family)
    ensures Grown(z, z)
  {}

  // ---- handling one position ----------------------------------------------

  /** A listed position asks only for what is forced. */
  lemma ListedForced(g: Syntax, first: Table, core: seq<Position>, result: seq<Position>, zeroDot: map<nat, nat>,
                     index: nat, terms: set<nat>, groups: set<nat>)
    requires WellFormed(g) && Working(g, first, core, result, zeroDot, terms, groups)
    requires Universe(g, core, terms, groups) && index < |result| && NextTermOf(g, result[index]).Some?
    ensures InRule(g, result[index]) && NextTerm(g, result[index]).Some?
    ensures result[index].ahead <= terms && result[index].ambiguity <= groups
    ensures forall n <- Nested(g, result[index]) ::
              Forced(g, first, core, n, Contribution(g, first, result[index]))
  {
    hide Nested, Contribution, Forced, WellFormed;
    var p := result[index];
    assert InRule(g, p) && Filed(core, result, zeroDot, index);
    if index < |core| && !Grows(core, index) {
      assert core[index] in core;
      forall n <- Nested(g, p) ensures Forced(g, first, core, n, Contribution(g, first, p)) {
        ForcedByCore(g, first, core, index, n);
      }
    } else {
      var z := Zero(result, zeroDot);
      assert p == ZeroDot(p.rule, z[p.rule]);
      forall n <- Nested(g, p) ensures Forced(g, first, core, n, Contribution(g, first, p)) {
        ForcedNested(g, first, core, z, p.rule, n);
      }
    }
  }

  function NextTermOf(g: Syntax, p: Position): Option<nat> {
    if InRule(g, p) then NextTerm(g, p) else None
  }

  method Contribute(g: Syntax, first: Table, p: Position) returns (look: Look)
    requires WellFormed(g) && |first| == |g.terminal| && InRule(g, p) && NextTerm(g, p).Some?
    ensures look == Contribution(g, first, p)
  {
    assert GoodRule(g, p.rule);
    var rule := g.rules[p.rule];
    var ahead := TermsAhead(g, first, rule.parts, p.dot, p.ahead);
    var ambiguity := rule.groups[p.dot + 1] + if p.dot + 1 == |rule.parts| then p.ambiguity else {};
    var skip := if p.dot == |rule.parts| - 1 then p.skipAhead else rule.skip;
    look := Look(ahead, ambiguity, skip);
  }

  lemma IncludesAll(g: Syntax, first: Table, p: Position, z: Family)
    requires WellFormed(g) && (InRule(g, p) && NextTerm(g, p).Some? ==>
               forall j: nat :: j < |Nested(g, p)| ==>
                 Nested(g, p)[j] in z && Within(Contribution(g, first, p), z[Nested(g, p)[j]]))
    ensures Includes(g, first, p, z)
  {
    hide Contribution;
  }

  lemma WaitingDone(g: Syntax, first: Table, result: seq<Position>, z: Family, pending: seq<nat>,
                    queued: seq<bool>, current: nat)
    requires WellFormed(g) && Waiting(g, first, result, z, pending, queued, current)
    requires current < |result| && !queued[current] ==> Includes(g, first, result[current], z)
    ensures Waiting(g, first, result, z, pending, queued, |result|)
  {
    hide Includes;
  }

  lemma WithinMore(look: Look, z: Family, more: Family, n: nat)
    requires n in z && Within(look, z[n]) && Grown(z, more)
    ensures n in more && Within(look, more[n])
  {}

  /** Answers everything one position asks for. */
  method Answer(g: Syntax, first: Table, ghost core: seq<Position>, result: seq<Position>, zeroDot: map<nat, nat>,
                pending: seq<nat>, queued: seq<bool>, index: nat, ghost terms: set<nat>, ghost groups: set<nat>)
    returns (ok: bool, next: seq<Position>, filed: map<nat, nat>, waiting: seq<nat>, flags: seq<bool>)
    requires WellFormed(g) && Sound(g, first) && Universe(g, core, terms, groups)
    requires Working(g, first, core, result, zeroDot, terms, groups) && index < |result|
    requires InRule(g, result[index])
    requires Waiting(g, first, result, Zero(result, zeroDot), pending, queued, index)
    ensures !ok ==> forall f: Family :: !ClosedFamily(g, first, core, f)
    ensures ok ==> Working(g, first, core, next, filed, terms, groups)
    ensures ok ==> Waiting(g, first, next, Zero(next, filed), waiting, flags, |next|)
    ensures ok && (next, filed, waiting, flags) != (result, zeroDot, pending, queued) ==>
              Potential(Zero(next, filed), |g.rules|, terms, groups)
              < Potential(Zero(result, zeroDot), |g.rules|, terms, groups)
  {
    hide Forced, Working, Includes, Potential, Zero, ClosedFamily, Waiting, Grown, Sound, Universe, Contribution,
      WellFormed, InRule;
    next, filed, waiting, flags := result, zeroDot, pending, queued;
    ok := true;
    var position := result[index];
    if NextTerm(g, position) == None {
      IncludesAll(g, first, position, Zero(next, filed));
      WaitingDone(g, first, next, Zero(next, filed), waiting, flags, index);
      return;
    }
    assert |first| == |g.terminal| by { SoundLength(g, first); }
    var look := Contribute(g, first, position);
    ListedForced(g, first, core, result, zeroDot, index, terms, groups);
    ContributionInside(g, first, core, position, terms, groups);
    var nested: seq<nat> := Nested(g, position);
    assert forall n <- nested :: n < |g.rules| by { NestedRules(g, position); }
    var k: nat := 0;
    WaitingLength(g, first, result, Zero(result, zeroDot), pending, queued, index);
    while k < |nested|
      invariant k <= |nested|
      invariant Working(g, first, core, next, filed, terms, groups)
      invariant Waiting(g, first, next, Zero(next, filed), waiting, flags, index)
      invariant index < |next| == |flags| && (!flags[index] ==> next[index] == position)
      invariant forall j: nat :: j < k ==> nested[j] in Zero(next, filed) && Within(look, Zero(next, filed)[nested[j]])
      invariant (next, filed, waiting, flags) != (result, zeroDot, pending, queued) ==>
                  Potential(Zero(next, filed), |g.rules|, terms, groups)
                  < Potential(Zero(result, zeroDot), |g.rules|, terms, groups)
    {
      ghost var z := Zero(next, filed);
      assert nested[k] in nested;
      ok, next, filed, waiting, flags :=
        AddNested(g, first, core, next, filed, waiting, flags, nested[k], look, index, terms, groups);
      if !ok {
        return;
      }
      WaitingLength(g, first, next, Zero(next, filed), waiting, flags, index);
      forall j: nat | j < k + 1 ensures nested[j] in Zero(next, filed) && Within(look, Zero(next, filed)[nested[j]]) {
        if j < k { WithinMore(look, z, Zero(next, filed), nested[j]); }
      }
      k := k + 1;
    }
    if !flags[index] {
      IncludesAll(g, first, position, Zero(next, filed));
    }
    WaitingDone(g, first, next, Zero(next, filed), waiting, flags, index);
  }

  lemma NestedRules(g: Syntax, p: Position)
    requires WellFormed(g) && InRule(g, p)
    ensures forall n <- Nested(g, p) :: n < |g.rules|
  {
    if NextTerm(g, p).Some? {
      var t := NextTerm(g, p).value;
      assert Term(g, t);
    }
  }

  // ---- the closure --------------------------------------------------------

  method FileCore(g: Syntax, ghost first: Table, core: seq<Position>, ghost terms: set<nat>, ghost groups: set<nat>)
    returns (zeroDot: map<nat, nat>)
    requires WellFormed(g) && Universe(g, core, terms, groups)
    requires forall p <- core :: InRule(g, p)
    ensures Working(g, first, core, core, zeroDot, terms, groups)
  {
    hide WellFormed, InRule, ClosedFamily;
    zeroDot := map[];
    var i: nat := 0;
    while i < |core|
      invariant i <= |core|
      invariant forall r :: r in zeroDot ==> zeroDot[r] < i && core[zeroDot[r]].rule == r && Grows(core, zeroDot[r])
      invariant forall j: nat :: j < i && core[j].dot == 0 ==> core[j].rule in zeroDot && zeroDot[core[j].rule] <= j
    {
      if core[i].dot == 0 && core[i].rule !in zeroDot {
        zeroDot := zeroDot[core[i].rule := i];
      }
      i := i + 1;
    }
    CoreShape(g, core, zeroDot);
    CoreForced(g, first, core, zeroDot);
    forall r | r in Zero(core, zeroDot)
      ensures Zero(core, zeroDot)[r].ahead <= terms && Zero(core, zeroDot)[r].ambiguity <= groups
    {
      assert core[zeroDot[r]] in core;
    }
  }

  lemma CoreShape(g: Syntax, core: seq<Position>, zeroDot: map<nat, nat>)
    requires forall p <- core :: InRule(g, p)
    requires forall r :: r in zeroDot ==> zeroDot[r] < |core| && core[zeroDot[r]].rule == r && Grows(core, zeroDot[r])
    requires forall j: nat :: j < |core| && core[j].dot == 0 ==> core[j].rule in zeroDot && zeroDot[core[j].rule] <= j
    ensures Shape(g, core, core, zeroDot)
  {
    hide InRule;
    forall i: nat | i < |core| ensures InRule(g, core[i]) && Filed(core, core, zeroDot, i) {
      assert core[i] in core;
    }
  }

  lemma CoreForced(g: Syntax, first: Table, core: seq<Position>, zeroDot: map<nat, nat>)
    requires WellFormed(g)
    requires forall r :: r in zeroDot ==> zeroDot[r] < |core| && core[zeroDot[r]].rule == r && Grows(core, zeroDot[r])
    ensures Least(g, first, core, Zero(core, zeroDot))
  {
    hide WellFormed, Includes;
    var z := Zero(core, zeroDot);
    forall r | r in z ensures Forced(g, first, core, r, z[r]) {
      forall f: Family | ClosedFamily(g, first, core, f) ensures r in f && Within(z[r], f[r]) {
        assert core[zeroDot[r]].rule == r;
      }
    }
  }

  lemma ClosedWhenEmpty(g: Syntax, first: Table, core: seq<Position>, result: seq<Position>, zeroDot: map<nat, nat>,
                        queued: seq<bool>, terms: set<nat>, groups: set<nat>)
    requires WellFormed(g) && Working(g, first, core, result, zeroDot, terms, groups)
    requires Waiting(g, first, result, Zero(result, zeroDot), [], queued, |result|)
    ensures ClosedFamily(g, first, core, Zero(result, zeroDot))
    ensures forall p :: p in result <==> Member(core, Zero(result, zeroDot), p)
  {
    hide WellFormed, Includes, InRule, Least;
    var z := Zero(result, zeroDot);
    forall i: nat | i < |core|
      ensures if Grows(core, i) then core[i].rule in z && Within(LookOf(core[i]), z[core[i].rule])
              else Includes(g, first, core[i], z)
    {
      assert Filed(core, result, zeroDot, i) && Includes(g, first, result[i], z);
    }
    forall r | r in z ensures Includes(g, first, ZeroDot(r, z[r]), z) {
      assert Includes(g, first, result[zeroDot[r]], z);
    }
    forall p ensures p in result <==> Member(core, z, p) {
      if p in result {
        var i: nat :| i < |result| && result[i] == p;
        assert Filed(core, result, zeroDot, i);
      }
      if Member(core, z, p) { ListedMember(g, core, result, zeroDot, p); }
    }
  }

  lemma ListedMember(g: Syntax, core: seq<Position>, result: seq<Position>, zeroDot: map<nat, nat>, p: Position)
    requires Shape(g, core, result, zeroDot) && Member(core, Zero(result, zeroDot), p)
    ensures p in result
  {
    hide InRule;
    var z := Zero(result, zeroDot);
    if i: nat :| i < |core| && !Grows(core, i) && core[i] == p {
      assert Filed(core, result, zeroDot, i);
    } else {
      assert result[zeroDot[p.rule]] == p;
    }
  }

  /** The closure of a core. It fails exactly when some rule is asked for two
      skip contexts; else it adds the least closed family, which holds exactly
      what the productions ask for. */
  method Closure(g: Syntax, first: Table, core: seq<Position>) returns (ok: bool, result: set<Position>, ghost z: Family)
    requires WellFormed(g) && Exact(g, first)
    requires forall p <- core :: InRule(g, p)
    ensures ok == Consistent(g, core)
    ensures ok ==> forall p :: p in result <==> Expected(g, core, p)
    ensures ok ==> ClosedFamily(g, first, core, z) && Least(g, first, core, z)
  {
    hide WellFormed, Working, Waiting, ClosedFamily, Least, Universe, Zero, Member, InRule, Sound, Closed, Potential,
      Consistent, ExactFamily, Expected;
    ClosedIffConsistent(g, first, core);
    result, z := {}, map[];
    ghost var terms, groups := UniverseExists(g, core);
    var zeroDot := FileCore(g, first, core, terms, groups);
    var list := core;
    var pending: seq<nat> := seq(|core|, i => i);
    var queued := seq(|core|, _ => true);
    assert Waiting(g, first, list, Zero(list, zeroDot), pending, queued, |list|) by {
      StartWaiting(g, first, list, Zero(list, zeroDot), pending, queued);
    }
    while pending != []
      invariant Working(g, first, core, list, zeroDot, terms, groups)
      invariant Waiting(g, first, list, Zero(list, zeroDot), pending, queued, |list|)
      decreases Potential(Zero(list, zeroDot), |g.rules|, terms, groups), |pending|
    {
      WaitingLength(g, first, list, Zero(list, zeroDot), pending, queued, |list|);
      var index := pending[0];
      assert index in pending;
      WaitingPop(g, first, list, Zero(list, zeroDot), pending, queued);
      pending := pending[1..];
      queued := queued[index := false];
      assert InRule(g, list[index]) by { WorkingGood(g, first, core, list, zeroDot, terms, groups, index); }
      ok, list, zeroDot, pending, queued := Answer(g, first, core, list, zeroDot, pending, queued, index, terms, groups);
      if !ok {
        return;
      }
    }
    ok, z := true, Zero(list, zeroDot);
    ClosedWhenEmpty(g, first, core, list, zeroDot, queued, terms, groups);
    WorkingLeast(g, first, core, list, zeroDot, terms, groups);
    LeastExact(g, first, core, z);
    result := set p | p in list;
    forall p ensures p in result <==> Expected(g, core, p) {
      MemberExpected(g, core, z, p);
    }
  }

  lemma StartWaiting(g: Syntax, first: Table, list: seq<Position>, z: Family, pending: seq<nat>, queued: seq<bool>)
    requires WellFormed(g) && |pending| == |list| == |queued|
    requires forall i: nat :: i < |list| ==> pending[i] == i && queued[i]
    ensures Waiting(g, first, list, z, pending, queued, |list|)
  {
    hide Includes;
    assert forall i: nat :: i < |list| ==> pending[i] in pending;
  }

  /** Taking the first index off the queue; it was queued only once. */
  lemma WaitingPop(g: Syntax, first: Table, list: seq<Position>, z: Family, pending: seq<nat>, queued: seq<bool>)
    requires WellFormed(g) && Waiting(g, first, list, z, pending, queued, |list|) && pending != []
    requires pending[0] < |list|
    ensures Waiting(g, first, list, z, pending[1..], queued[pending[0] := false], pending[0])
  {
    hide Includes;
    assert pending == [pending[0]] + pending[1..];
    var rest := pending[1..];
    forall i, j | 0 <= i < j < |rest| ensures rest[i] != rest[j] {
      assert rest[i] == pending[i + 1] && rest[j] == pending[j + 1];
    }
    assert forall j :: 0 <= j < |rest| ==> rest[j] == pending[j + 1];
    assert pending[0] !in rest;
    forall i: nat | i in pending && i != pending[0] ensures i in rest {
      var j :| 0 <= j < |pending| && pending[j] == i;
      assert rest[j - 1] == i;
    }
    forall i <- rest ensures i in pending {}
  }

  lemma WorkingGood(g: Syntax, first: Table, core: seq<Position>, list: seq<Position>, zeroDot: map<nat, nat>,
                    terms: set<nat>, groups: set<nat>, index: nat)
    requires WellFormed(g) && Working(g, first, core, list, zeroDot, terms, groups) && index < |list|
    ensures InRule(g, list[index])
  {
    hide WellFormed, Least, InRule;
  }

  lemma WorkingLeast(g: Syntax, first: Table, core: seq<Position>, list: seq<Position>, zeroDot: map<nat, nat>,
                     terms: set<nat>, groups: set<nat>)
    requires WellFormed(g) && Working(g, first, core, list, zeroDot, terms, groups)
    ensures Least(g, first, core, Zero(list, zeroDot))
  {
    hide WellFormed, Least;
  }
}
