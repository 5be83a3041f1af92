/** The walks over raw action rows that recovery uses, without the index. */
module RawWalk {
  import opened Varint
  import opened ActionData
  import opened ActionWriter

  /** What an empty row means for the chain it starts. */
  lemma ChainRow(data: seq<Word>, index: nat, left: nat)
    requires Ends(data, index, left) && FullContinuations(data, index, left)
    ensures var row := ReadRow(data, index);
            && row.Row?
            && (row.tail.Next? ==>
                  && left > 0
                  && Ends(data, row.tail.offset, left - 1)
                  && FullContinuations(data, row.tail.offset, left - 1)
                  && FilledRow(ReadRow(data, row.tail.offset)))
            && (row.entries == [] && row.tail.Next? ==>
                  ChainEntries(data, index, left) == ChainEntries(data, row.tail.offset, left - 1))
            && (row.entries == [] && !row.tail.Next? ==>
                  ChainEntries(data, index, left) == [] && Actions(ChainEntries(data, index, left)) == [])
  {
    hide ReadRow;
    var row := ReadRow(data, index);
    if row.entries == [] && row.tail.Next? {
      assert [] + ChainEntries(data, row.tail.offset, left - 1) == ChainEntries(data, row.tail.offset, left - 1);
    }
  }

  lemma RowBounds(data: seq<Word>, offset: nat)
    requires ReadRow(data, offset).Row?
    ensures offset + 1 < |data|
    ensures data[offset] == END ==> ReadRow(data, offset).entries == []
    ensures data[offset] == END && data[offset + 1] == NEXT ==>
              offset + 3 < |data| && ReadRow(data, offset).tail == Next(Pair(data, offset + 2))
    ensures data[offset] == END && data[offset + 1] != NEXT ==> !ReadRow(data, offset).tail.Next?
    ensures data[offset] != END ==>
              offset + 2 < |data| && ReadRow(data, offset + 3).Row? &&
              ReadRow(data, offset)
              == Row([Entry(data[offset], Pair(data, offset + 1))] + ReadRow(data, offset + 3).entries,
                     ReadRow(data, offset + 3).tail)
  {}

  lemma WalkStep(data: seq<Word>, index: nat, left: nat, visited: seq<nat>)
    requires Ends(data, index, left) && FullContinuations(data, index, left)
    requires index + 2 < |data| && data[index] != END
    ensures Ends(data, index + 3, left) && FullContinuations(data, index + 3, left)
    ensures ChainEntries(data, index, left)
         == [Entry(data[index], Pair(data, index + 1))] + ChainEntries(data, index + 3, left)
    ensures visited + Actions(ChainEntries(data, index, left))
         == visited + [Pair(data, index + 1)] + Actions(ChainEntries(data, index + 3, left))
  {
    hide ReadRow, Pair;
    RowBounds(data, index);
    var first := Entry(data[index], Pair(data, index + 1));
    assert ChainEntries(data, index, left) == [first] + ChainEntries(data, index + 3, left);
    assert Actions(ChainEntries(data, index, left))
        == [first.action] + Actions(ChainEntries(data, index + 3, left));
  }

  // ---- all actions --------------------------------------------------------

  /** A state's default reduction comes before its actions. */
  function WithDefault(defaultReduce: nat, actions: seq<nat>): seq<nat> {
    (if defaultReduce == 0 then [] else [defaultReduce]) + actions
  }

  /** Visits the actions of a state up to the first that the visitor stops at.
      After following a link the walk takes the word at the target for a term
      without looking for an end mark again. */
  method AllActions(data: seq<Word>, offset: nat, defaultReduce: nat, stop: nat -> bool, ghost fuel: nat)
    returns (visited: seq<nat>, stopped: bool)
    requires Ends(data, offset, fuel) && FullContinuations(data, offset, fuel)
    ensures var all := WithDefault(defaultReduce, Actions(ChainEntries(data, offset, fuel)));
            && visited <= all
            && (!stopped ==> visited == all && forall a <- all :: !stop(a))
            && (stopped ==> |visited| > 0 && stop(visited[|visited| - 1])
                            && forall a <- visited[..|visited| - 1] :: !stop(a))
  {
    hide ReadRow, Ends, FullContinuations, ChainEntries, Actions;
    ghost var all := WithDefault(defaultReduce, Actions(ChainEntries(data, offset, fuel)));
    visited := [];
    if defaultReduce != 0 {
      visited := [defaultReduce];
      if stop(defaultReduce) {
        return visited, true;
      }
    }
    var index: nat := offset;
    ghost var left := fuel;
    while true
      invariant Ends(data, index, left) && FullContinuations(data, index, left)
      invariant visited + Actions(ChainEntries(data, index, left)) == all
      invariant forall a <- visited :: !stop(a)
      decreases left, |data| - index
    {
      ChainRow(data, index, left);
      RowBounds(data, index);
      if data[index] == END {
        if data[index + 1] == NEXT {
          index := Pair(data, index + 2);
          left := left - 1;
          RowBounds(data, index);
        } else {
          assert visited + [] == visited;
          return visited, false;
        }
      }
      var action := Pair(data, index + 1);
      WalkStep(data, index, left, visited);
      visited := visited + [action];
      if stop(action) {
        assert visited[..|visited| - 1] + [action] == visited;
        return visited, true;
      }
      index := index + 3;
    }
  }

  /** Whether an action is one of a state's. */
  method ValidAction(data: seq<Word>, offset: nat, defaultReduce: nat, action: nat, ghost fuel: nat)
    returns (valid: bool)
    requires Ends(data, offset, fuel) && FullContinuations(data, offset, fuel)
    ensures valid <==> action in WithDefault(defaultReduce, Actions(ChainEntries(data, offset, fuel)))
  {
    hide Ends, FullContinuations, ChainEntries, Actions, WithDefault;
    var visited;
    visited, valid := AllActions(data, offset, defaultReduce, candidate => candidate == action, fuel);
  }

  // ---- next states --------------------------------------------------------

  /** The targets of all shifts, each once, with a term that leads to it. */
  ghost predicate NextOf(entries: seq<Entry>, next: seq<(Word, Word)>) {
    && (forall i, j :: 0 <= i < j < |next| ==> next[i].1 != next[j].1)
    && (forall n <- next :: exists e :: e in entries && ShiftsTo(e, n.1) && e.term == n.0)
    && (forall e <- entries :: !HasFlag(e.action, REDUCE_FLAG) ==> HasTarget(next, Value(e.action)))
  }

  predicate ShiftsTo(e: Entry, target: Word) {
    !HasFlag(e.action, REDUCE_FLAG) && Value(e.action) == target
  }

  predicate HasTarget(next: seq<(Word, Word)>, target: Word) {
    exists i :: 0 <= i < |next| && next[i].1 == target
  }

  lemma NextStep(seen: seq<Entry>, next: seq<(Word, Word)>, e: Entry)
    requires NextOf(seen, next)
    ensures HasFlag(e.action, REDUCE_FLAG) || HasTarget(next, Value(e.action)) ==> NextOf(seen + [e], next)
    ensures !HasFlag(e.action, REDUCE_FLAG) && !HasTarget(next, Value(e.action)) ==>
              NextOf(seen + [e], next + [(e.term, Value(e.action))])
  {
    hide HasFlag, Value;
    if !HasFlag(e.action, REDUCE_FLAG) && !HasTarget(next, Value(e.action)) {
      var more := next + [(e.term, Value(e.action))];
      assert more[|next|].1 == Value(e.action);
      forall f <- seen + [e] | !HasFlag(f.action, REDUCE_FLAG) ensures HasTarget(more, Value(f.action)) {
        if f in seen {
          var i :| 0 <= i < |next| && next[i].1 == Value(f.action);
          assert more[i].1 == Value(f.action);
        }
      }
      forall n <- more ensures exists f :: f in seen + [e] && ShiftsTo(f, n.1) && f.term == n.0 {
        if n in next {
          var f :| f in seen && ShiftsTo(f, n.1) && f.term == n.0;
          assert f in seen + [e];
        } else {
          assert e in seen + [e] && ShiftsTo(e, n.1);
        }
      }
    } else {
      forall n <- next ensures exists f :: f in seen + [e] && ShiftsTo(f, n.1) && f.term == n.0 {
        var f :| f in seen && ShiftsTo(f, n.1) && f.term == n.0;
        assert f in seen + [e];
      }
    }
  }

  method NextStates(data: seq<Word>, offset: nat, ghost fuel: nat) returns (next: seq<(Word, Word)>)
    requires Ends(data, offset, fuel) && FullContinuations(data, offset, fuel)
    ensures NextOf(ChainEntries(data, offset, fuel), next)
  {
    hide ReadRow, Ends, FullContinuations, ChainEntries, NextOf, HasFlag, Value, Actions;
    next := [];
    var index: nat := offset;
    ghost var left := fuel;
    ghost var seen: seq<Entry> := [];
    assert NextOf(seen, next) by { NothingNext(); }
    assert seen + ChainEntries(data, offset, fuel) == ChainEntries(data, offset, fuel);
    while true
      invariant Ends(data, index, left) && FullContinuations(data, index, left)
      invariant seen + ChainEntries(data, index, left) == ChainEntries(data, offset, fuel)
      invariant NextOf(seen, next)
      decreases left, |data| - index
    {
      ChainRow(data, index, left);
      RowBounds(data, index);
      if data[index] == END {
        if data[index + 1] == NEXT {
          index := Pair(data, index + 2);
          left := left - 1;
          RowBounds(data, index);
        } else {
          assert seen + [] == seen;
          break;
        }
      }
      ghost var entry := Entry(data[index], Pair(data, index + 1));
      var action := Pair(data, index + 1);
      WalkStep(data, index, left, []);
      NextStep(seen, next, entry);
      if !HasFlag(action, REDUCE_FLAG) {
        var term, target := data[index], Value(action);
        if !HasTarget(next, target) {
          next := next + [(term, target)];
        }
      }
      assert seen + [entry] + ChainEntries(data, index + 3, left) == seen + ([entry] + ChainEntries(data, index + 3, left));
      seen := seen + [entry];
      index := index + 3;
    }
  }

  lemma NothingNext()
    ensures NextOf([], [])
  {}
}
