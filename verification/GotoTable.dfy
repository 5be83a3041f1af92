/** The goto table as the generator writes it, and as a plain reader that walks
    the groups of a term sees it. */
module GotoTable {
  import opened Options
  import opened Varint
  import opened GotoGroups
  import opened GotoHeader

  const TABLE_LIMIT: nat := 0xFFFF

  // ---- reading a term -----------------------------------------------------

  predicate AllStorable(groups: seq<Group>) {
    forall i :: 0 <= i < |groups| ==> Storable(groups[i])
  }

  /** The words of a term's groups; only the last carries the end flag. */
  function GroupsWords(groups: seq<Group>): seq<Word>
    requires AllStorable(groups)
  {
    if groups == [] then [] else GroupWords(groups[0], |groups| == 1) + GroupsWords(groups[1..])
  }

  datatype GroupsRead = Groups(groups: seq<Group>) | BadGroups

  function ReadGroups(table: seq<Word>, position: nat): (r: GroupsRead)
    ensures r.Groups? ==> |r.groups| > 0
    decreases |table| - position
  {
    match ReadGroup(table, position)
    case BadGroup => BadGroups
    case GroupAt(group, last, end) =>
      if last then Groups([group])
      else
        match ReadGroups(table, end)
        case BadGroups => BadGroups
        case Groups(rest) => Groups([group] + rest)
  }

  lemma {:induction false} GroupsReadBack(before: seq<Word>, groups: seq<Group>, after: seq<Word>)
    requires AllStorable(groups) && |groups| > 0
    ensures ReadGroups(before + GroupsWords(groups) + after, |before|) == Groups(groups)
    decreases |groups|
  {
    hide ReadGroup, GroupWords;
    var first, last := GroupWords(groups[0], |groups| == 1), |groups| == 1;
    var all := before + GroupsWords(groups) + after;
    assert all == before + first + (GroupsWords(groups[1..]) + after);
    GroupReadBack(before, groups[0], last, GroupsWords(groups[1..]) + after);
    if !last {
      assert all == (before + first) + GroupsWords(groups[1..]) + after;
      GroupsReadBack(before + first, groups[1..], after);
      assert groups == [groups[0]] + groups[1..];
    } else {
      assert groups == [groups[0]];
    }
  }

  datatype TermRead = NoGotos | Gotos(groups: seq<Group>) | BadTerm

  function TermAt(table: seq<Word>, positions: Positions, term: nat): (r: TermRead)
    ensures r.Gotos? ==> |r.groups| > 0
  {
    if term >= |positions| || positions[term] == None then NoGotos
    else
      match ReadGroups(table, positions[term].value)
      case BadGroups => BadTerm
      case Groups(groups) => Gotos(groups)
  }

  /** The goto of a state among the groups of a term. */
  function FindSource(groups: seq<Group>, state: Word): Option<Word> {
    if groups == [] then None
    else if state in groups[0].sources then Some(groups[0].target)
    else FindSource(groups[1..], state)
  }

  /** The strict goto, or loosely the last group's target when no earlier group
      has the state. */
  function GotoIn(groups: seq<Group>, state: Word, loose: bool): Option<Word>
    requires |groups| > 0
  {
    var n := |groups| - 1;
    var exception := FindSource(groups[..n], state);
    if exception.Some? then exception
    else if loose || state in groups[n].sources then Some(groups[n].target)
    else None
  }

  function PlainGet(table: seq<Word>, state: Word, term: nat, loose: bool): Option<Word> {
    match ReadHeader(table)
    case BadHeader => None
    case Header(positions, _) =>
      match TermAt(table, positions, term)
      case Gotos(groups) => GotoIn(groups, state, loose)
      case _ => None
  }

  // ---- shared arrays ------------------------------------------------------

  ghost predicate OccursAt(data: seq<Word>, position: nat, value: seq<Word>) {
    position + |value| <= |data| && data[position..position + |value|] == value
  }

  /** The first place where an array already occurs. */
  method FindArray(data: seq<Word>, value: seq<Word>) returns (found: Option<nat>)
    ensures found.Some? ==> OccursAt(data, found.value, value)
    ensures found.Some? ==> forall p: nat :: p < found.value ==> !OccursAt(data, p, value)
    ensures found.None? ==> forall p: nat :: !OccursAt(data, p, value)
  {
    if value == [] {
      return Some(0);
    }
    var p: nat := 0;
    while p + |value| <= |data|
      invariant forall q: nat :: q < p ==> !OccursAt(data, q, value)
      decreases |data| - p
    {
      if data[p..p + |value|] == value {
        return Some(p);
      }
      p := p + 1;
    }
    return None;
  }

  /** The data shared by all stored arrays; it only ever grows. */
  class DataBuilder {
    var data: seq<Word>

    constructor ()
      ensures data == []
    {
      data := [];
    }

    /** Stores an array unless it already occurs somewhere, across the borders
        of earlier arrays if need be. */
    method StoreArray(value: seq<Word>) returns (position: Option<nat>)
      modifies this
      ensures old(data) <= data && |data| <= |old(data)| + |value|
      ensures position.Some? ==> OccursAt(data, position.value, value)
      ensures position.Some? ==> |data| <= TABLE_LIMIT || data == old(data)
      ensures position.None? ==> |data| > TABLE_LIMIT
      ensures data == old(data) || (data == old(data) + value && forall p: nat :: !OccursAt(old(data), p, value))
    {
      var found := FindArray(data, value);
      if found.Some? {
        return found;
      }
      var at := |data|;
      data := data + value;
      if |data| > TABLE_LIMIT {
        return None;
      }
      return Some(at);
    }
  }

  lemma OccursLater(data: seq<Word>, longer: seq<Word>, position: nat, value: seq<Word>)
    requires data <= longer && OccursAt(data, position, value)
    ensures OccursAt(longer, position, value)
  {
    assert longer[position..position + |value|] == data[position..position + |value|];
  }

  /** Groups found anywhere in the data read back from the finished table. */
  lemma SharedGroupsReadBack(header: seq<Word>, data: seq<Word>, position: nat, groups: seq<Group>)
    requires AllStorable(groups) && |groups| > 0
    requires OccursAt(data, position, GroupsWords(groups))
    ensures ReadGroups(header + data, |header| + position) == Groups(groups)
  {
    hide ReadGroups, GroupsWords;
    var words := GroupsWords(groups);
    var before, after := header + data[..position], data[position + |words|..];
    assert data == data[..position] + data[position..position + |words|] + data[position + |words|..];
    assert before + words + after == header + data;
    GroupsReadBack(before, groups, after);
  }
}
