/** Goto groups: a target state with the source states that go to it, stored
    as a plain list or as packed differences. */
module GotoGroups {
  import opened Varint

  const COMPRESSED_TAG: nat := 0x8000

  datatype Group = Group(target: Word, sources: seq<Word>)

  predicate Increasing(sources: seq<Word>) {
    forall i {:trigger sources[i]} :: 0 < i < |sources| ==> sources[i - 1] < sources[i]
  }

  function LastDelta(sources: seq<Word>): nat
    requires Increasing(sources) && |sources| > 0
  {
    if |sources| == 1 then sources[0] else sources[|sources| - 1] - sources[|sources| - 2]
  }

  /** The digits of the first source and of every step to the next. */
  function DeltaBytes(sources: seq<Word>): seq<Byte>
    requires Increasing(sources)
  {
    if sources == [] then []
    else DeltaBytes(sources[..|sources| - 1]) + Digits(LastDelta(sources))
  }

  lemma NoDeltas(sources: seq<Word>)
    ensures Increasing(sources[..0]) && DeltaBytes(sources[..0]) == []
  {}

  lemma DeltasNext(sources: seq<Word>, i: nat)
    requires i < |sources| && Increasing(sources[..i]) && (i > 0 ==> sources[i - 1] < sources[i])
    ensures Increasing(sources[..i + 1])
    ensures DeltaBytes(sources[..i + 1])
         == DeltaBytes(sources[..i]) + Digits(if i == 0 then sources[i] else sources[i] - sources[i - 1])
  {
    hide Digits, Increasing;
    var longer := sources[..i + 1];
    assert longer[..i] == sources[..i];
    IncreasingNext(sources, i);
    assert LastDelta(longer) == if i == 0 then sources[i] else sources[i] - sources[i - 1] by {
      LastDeltaOf(sources, i);
    }
  }

  lemma IncreasingNext(sources: seq<Word>, i: nat)
    requires i < |sources| && Increasing(sources[..i]) && (i > 0 ==> sources[i - 1] < sources[i])
    ensures Increasing(sources[..i + 1])
  {
    var longer := sources[..i + 1];
    forall k | 0 < k < |longer| ensures longer[k - 1] < longer[k] {
      if k < i { assert longer[k - 1] == sources[..i][k - 1] && longer[k] == sources[..i][k]; }
    }
  }

  lemma LastDeltaOf(sources: seq<Word>, i: nat)
    requires i < |sources| && Increasing(sources[..i + 1])
    ensures LastDelta(sources[..i + 1]) == if i == 0 then sources[i] else sources[i] - sources[i - 1]
  {}

  method EncodeSourceDeltas(sources: seq<Word>) returns (ok: bool, words: seq<Word>)
    ensures ok == Increasing(sources)
    ensures ok ==> words == Packed(DeltaBytes(sources))
  {
    hide Digits, DeltaBytes, Packed;
    words := [];
    var bytes: seq<Byte> := [];
    NoDeltas(sources);
    var previous: Word := 0;
    var i := 0;
    while i < |sources|
      invariant i <= |sources| && Increasing(sources[..i])
      invariant previous == if i == 0 then 0 else sources[i - 1]
      invariant bytes == DeltaBytes(sources[..i])
    {
      var source := sources[i];
      if i > 0 && source <= previous {
        assert sources[i - 1] >= sources[i];
        return false, [];
      }
      DeltasNext(sources, i);
      bytes := EncodeVarint(bytes, if i == 0 then source else source - previous);
      previous := source;
      i := i + 1;
    }
    assert sources[..i] == sources;
    words := Packed(bytes);
    return true, words;
  }

  // ---- reading sources ----------------------------------------------------

  datatype SourceRead = Sources(list: seq<Word>, next: nat) | BadSources

  const SOURCE_DIGITS: nat := 3

  /** The sources that `count` differences at the start of `bytes` stand for. */
  function ReadSources(bytes: seq<Byte>, count: nat): (r: SourceRead)
    ensures r.Sources? ==> |r.list| == count && r.next <= |bytes|
  {
    if count == 0 then Sources([], 0)
    else
      match ReadSources(bytes, count - 1)
      case BadSources => BadSources
      case Sources(list, next) =>
        match ReadBounded(bytes, next, SOURCE_DIGITS, 0x1_0000)
        case Bad => BadSources
        case Read(delta, after) => AddSource(list, delta, after)
  }

  function AddSource(list: seq<Word>, delta: Word, next: nat): SourceRead {
    if list == [] then Sources([delta], next)
    else
      var previous: nat := list[|list| - 1];
      if delta == 0 || previous + delta >= 0x1_0000 then BadSources
      else Sources(list + [previous + delta], next)
  }

  /** The width that a source difference needs, and three bytes are enough. */
  lemma DeltaDigits(delta: nat)
    requires delta < 0x1_0000
    ensures |Digits(delta)| <= SOURCE_DIGITS
    ensures 128 * |Digits(delta)| <= 128 + delta
  {
    if delta >= 128 {
      assert |Digits(delta / 128)| <= 2 by {
        if delta / 128 >= 128 { assert delta / 128 / 128 < 128; }
      }
    }
  }

  lemma BoundedDigits(before: seq<Byte>, value: nat, after: seq<Byte>, digits: nat, limit: nat)
    requires |Digits(value)| <= digits && value < limit
    ensures ReadBounded(before + Digits(value) + after, |before|, digits, limit)
         == Read(value, |before| + |Digits(value)|)
  {
    DigitsRead(before, value, after);
  }

  /** Reading back what was written gives the sources, whatever follows. */
  lemma {:induction false} SourcesReadBack(sources: seq<Word>, after: seq<Byte>)
    requires Increasing(sources)
    ensures ReadSources(DeltaBytes(sources) + after, |sources|) == Sources(sources, |DeltaBytes(sources)|)
    decreases |sources|
  {
    hide Digits, ReadBounded, DeltaBytes, ReadSources;
    if |sources| > 0 {
      var front, delta := sources[..|sources| - 1], LastDelta(sources);
      DeltaDigits(delta);
      SourcesReadBack(front, Digits(delta) + after);
      DeltaBytesLast(sources);
      assert DeltaBytes(front) + Digits(delta) + after == DeltaBytes(front) + (Digits(delta) + after);
      BoundedDigits(DeltaBytes(front), delta, after, SOURCE_DIGITS, 0x1_0000);
      ReadSourcesNext(DeltaBytes(sources) + after, sources, |DeltaBytes(front)|, |DeltaBytes(sources)|);
    } else {
      NothingRead(after);
    }
  }

  lemma DeltaBytesLast(sources: seq<Word>)
    requires Increasing(sources) && |sources| > 0
    ensures DeltaBytes(sources) == DeltaBytes(sources[..|sources| - 1]) + Digits(LastDelta(sources))
  {}

  lemma NothingRead(after: seq<Byte>)
    ensures DeltaBytes([]) == [] && ReadSources([] + after, 0) == Sources([], 0)
  {}

  /** One more source, from all but the last and its difference. */
  lemma ReadSourcesNext(bytes: seq<Byte>, sources: seq<Word>, at: nat, next: nat)
    requires Increasing(sources) && |sources| > 0
    requires ReadSources(bytes, |sources| - 1) == Sources(sources[..|sources| - 1], at)
    requires ReadBounded(bytes, at, SOURCE_DIGITS, 0x1_0000) == Read(LastDelta(sources), next)
    ensures ReadSources(bytes, |sources|) == Sources(sources, next)
  {
    hide ReadSources, ReadBounded, AddSource, Increasing, LastDelta;
    AddLastSource(sources, next);
    ReadSourcesStep(bytes, |sources|);
  }

  lemma ReadSourcesStep(bytes: seq<Byte>, count: nat)
    requires count > 0
    ensures ReadSources(bytes, count) ==
      match ReadSources(bytes, count - 1)
      case BadSources => BadSources
      case Sources(list, next) =>
        match ReadBounded(bytes, next, SOURCE_DIGITS, 0x1_0000)
        case Bad => BadSources
        case Read(delta, after) => AddSource(list, delta, after)
  {
    hide ReadBounded, AddSource;
  }

  lemma AddLastSource(sources: seq<Word>, next: nat)
    requires Increasing(sources) && |sources| > 0
    ensures AddSource(sources[..|sources| - 1], LastDelta(sources), next) == Sources(sources, next)
  {
    var front := sources[..|sources| - 1];
    assert sources == front + [sources[|sources| - 1]];
    if front != [] {
      assert sources[|sources| - 2] < sources[|sources| - 1];
    }
  }

  /** Strictly increasing 16-bit sources take little more than a byte each. */
  lemma {:induction false} DeltaBytesShort(sources: seq<Word>)
    requires Increasing(sources)
    ensures |sources| > 0 ==> 128 * |DeltaBytes(sources)| <= 128 * |sources| + sources[|sources| - 1]
    ensures sources == [] ==> DeltaBytes(sources) == []
    decreases |sources|
  {
    if |sources| > 0 {
      DeltaBytesShort(sources[..|sources| - 1]);
      DeltaDigits(LastDelta(sources));
    }
  }

  /** So a list stored raw is short: its tag can neither overflow a word nor
      be taken for the compressed tag, which stands for 16384 raw sources. */
  lemma RawIsShort(sources: seq<Word>)
    requires Increasing(sources)
    requires |Packed(DeltaBytes(sources))| + 1 >= |sources|
    ensures |sources| <= 515
  {
    DeltaBytesShort(sources);
  }

  // ---- groups -------------------------------------------------------------

  predicate Storable(g: Group) {
    Increasing(g.sources) && |g.sources| < 0x1_0000
  }

  function LastFlag(last: bool): Word { if last then 1 else 0 }

  /** The words of a group: whichever form is shorter. */
  function GroupWords(g: Group, last: bool): seq<Word>
    requires Storable(g)
  {
    var packed := Packed(DeltaBytes(g.sources));
    if |packed| + 1 < |g.sources| then
      [COMPRESSED_TAG + LastFlag(last), g.target, |g.sources|] + packed
    else
      RawIsShort(g.sources);
      [2 * |g.sources| + LastFlag(last), g.target] + g.sources
  }

  method StoreGotoGroup(table: seq<Word>, g: Group, last: bool) returns (ok: bool, longer: seq<Word>)
    ensures ok == Storable(g)
    ensures ok ==> longer == table + GroupWords(g, last)
  {
    hide Increasing, DeltaBytes, Packed;
    longer := table;
    if |g.sources| > 0xFFFF {
      return false, table;
    }
    var encoded, compressed := EncodeSourceDeltas(g.sources);
    if !encoded {
      return false, table;
    }
    if |compressed| + 1 < |g.sources| {
      longer := table + [COMPRESSED_TAG + LastFlag(last), g.target, |g.sources|] + compressed;
      return true, longer;
    }
    RawIsShort(g.sources);
    var tag := 2 * |g.sources| + LastFlag(last);
    if tag > 0xFFFF {
      return false, table;
    }
    longer := table + [tag, g.target] + g.sources;
    return true, longer;
  }

  datatype ListRead = ListAt(sources: seq<Word>, end: nat) | BadList

  /** The sources that start at a position, in the form that the tag names. */
  function ReadList(table: seq<Word>, position: nat, tag: Word): (r: ListRead)
    ensures r.ListAt? ==> position <= r.end <= |table|
  {
    if tag - tag % 2 != COMPRESSED_TAG then
      var end := position + tag / 2;
      if end > |table| then BadList else ListAt(table[position..end], end)
    else if position >= |table| || table[position] == 0 then BadList
    else
      match ReadSources(Unpacked(table[position + 1..]), table[position])
      case BadSources => BadList
      case Sources(list, next) => ListAt(list, position + 1 + (next + 1) / 2)
  }

  datatype GroupRead = GroupAt(group: Group, last: bool, end: nat) | BadGroup

  /** The group that starts at a position of a table. */
  function ReadGroup(table: seq<Word>, position: nat): (r: GroupRead)
    ensures r.GroupAt? ==> position < r.end <= |table|
  {
    if position + 1 >= |table| then BadGroup
    else
      match ReadList(table, position + 2, table[position])
      case BadList => BadGroup
      case ListAt(sources, end) =>
        GroupAt(Group(table[position + 1], sources), table[position] % 2 == 1, end)
  }

  lemma PackedListReadBack(before: seq<Word>, g: Group, tag: Word, after: seq<Word>)
    requires Storable(g) && 0 < |g.sources| && tag - tag % 2 == COMPRESSED_TAG
    ensures ReadList(before + ([|g.sources|] + Packed(DeltaBytes(g.sources))) + after, |before|, tag)
         == ListAt(g.sources, |before| + 1 + |Packed(DeltaBytes(g.sources))|)
  {
    hide ReadSources, DeltaBytes, Packed, Unpacked, Increasing;
    var packed := Packed(DeltaBytes(g.sources));
    var all := before + ([|g.sources|] + packed) + after;
    assert all[|before|] == |g.sources|;
    assert all[|before| + 1..] == packed + after;
    PackedSourcesReadBack(g.sources, after);
  }

  lemma RawListReadBack(before: seq<Word>, sources: seq<Word>, tag: Word, after: seq<Word>)
    requires tag / 2 == |sources| < 0x4000
    ensures ReadList(before + sources + after, |before|, tag) == ListAt(sources, |before| + |sources|)
  {
    hide ReadSources, Unpacked;
    assert (before + sources + after)[|before|..|before| + |sources|] == sources;
  }

  /** A stored group reads back as itself, wherever it stands. */
  lemma GroupReadBack(before: seq<Word>, g: Group, last: bool, after: seq<Word>)
    requires Storable(g)
    ensures ReadGroup(before + GroupWords(g, last) + after, |before|)
         == GroupAt(g, last, |before| + |GroupWords(g, last)|)
  {
    hide ReadList, DeltaBytes, Packed, Increasing;
    var words := GroupWords(g, last);
    var all := before + words + after;
    var head := [words[0], words[1]];
    var packed := Packed(DeltaBytes(g.sources));
    assert all[|before|] == words[0] && all[|before| + 1] == words[1];
    if |packed| + 1 < |g.sources| {
      assert all == (before + head) + ([|g.sources|] + packed) + after;
      PackedListReadBack(before + head, g, words[0], after);
    } else {
      RawIsShort(g.sources);
      assert all == (before + head) + g.sources + after;
      RawListReadBack(before + head, g.sources, words[0], after);
    }
  }

  lemma PackedSourcesReadBack(sources: seq<Word>, after: seq<Word>)
    requires Increasing(sources)
    ensures var packed := Packed(DeltaBytes(sources));
            && ReadSources(Unpacked(packed + after), |sources|) == Sources(sources, |DeltaBytes(sources)|)
            && |packed| == (|DeltaBytes(sources)| + 1) / 2
  {
    hide ReadSources, DeltaBytes, Packed, Unpacked, Increasing;
    var bytes := DeltaBytes(sources);
    var pad: seq<Byte> := if |bytes| % 2 == 1 then [0] else [];
    UnpackedPacked(bytes);
    UnpackedConcat(Packed(bytes), after);
    assert Unpacked(Packed(bytes) + after) == bytes + (pad + Unpacked(after));
    SourcesReadBack(sources, pad + Unpacked(after));
  }

  // ---- decoding -----------------------------------------------------------

  /** Reads one source difference of at most three bytes. */
  method DecodeDelta(table: seq<Word>, position: nat, start: nat) returns (r: Read)
    requires position <= |table|
    ensures r == ReadBounded(Unpacked(table[position..]), start, SOURCE_DIGITS, 0x1_0000)
  {
    hide ReadDigits, Unpacked;
    ghost var bytes := Unpacked(table[position..]);
    var value: nat, shift: nat, at: nat := 0, 0, start;
    while true
      invariant shift == 7 * (at - start) && shift <= 14
      invariant Partial(bytes, start, at, value) && value < Shl(1, shift)
      decreases 21 - shift
    {
      if position + at / 2 >= |table| {
        PartialEnds(bytes, start, at, value);
        return Bad;
      }
      var byte := PackedByte(table, position, at);
      UnpackedAt(table, position, at);
      if byte < 128 {
        PartialDone(bytes, start, at, value);
        value := value + Shl(byte, shift);
        return if value < 0x1_0000 then Read(value, at + 1) else Bad;
      }
      PartialNext(bytes, start, at, value);
      ShlStep(byte - 128, shift);
      value := value + Shl(byte - 128, shift);
      at := at + 1;
      shift := shift + 7;
      if shift > 14 {
        PartialLong(bytes, start, at, value);
        return Bad;
      }
    }
  }

  method DecodeSourceDeltas(table: seq<Word>, position: nat, count: nat) returns (r: ListRead)
    requires position <= |table|
    ensures r == match ReadSources(Unpacked(table[position..]), count)
                 case BadSources => BadList
                 case Sources(list, next) => ListAt(list, position + (next + 1) / 2)
  {
    hide Unpacked, ReadBounded;
    ghost var bytes := Unpacked(table[position..]);
    var sources: seq<Word> := [];
    var byteIndex, previous, k := 0, 0, 0;
    while k < count
      invariant k <= count
      invariant ReadSources(bytes, k) == Sources(sources, byteIndex)
      invariant k > 0 ==> previous == sources[k - 1]
    {
      var read := DecodeDelta(table, position, byteIndex);
      if read.Bad? {
        SourcesEndBad(bytes, k + 1, count);
        return BadList;
      }
      var delta := read.value;
      if k > 0 {
        if delta == 0 || previous + delta > 0xFFFF {
          SourcesEndBad(bytes, k + 1, count);
          return BadList;
        }
        previous := previous + delta;
      } else {
        previous := delta;
      }
      sources := sources + [previous];
      byteIndex := read.next;
      k := k + 1;
    }
    return ListAt(sources, position + (byteIndex + 1) / 2);
  }

  lemma {:induction false} SourcesEndBad(bytes: seq<Byte>, k: nat, count: nat)
    requires k <= count && ReadSources(bytes, k) == BadSources
    ensures ReadSources(bytes, count) == BadSources
    decreases count
  {
    if k < count { SourcesEndBad(bytes, k, count - 1); }
  }

  method DecodeGotoSources(table: seq<Word>, position: nat, tag: Word) returns (r: ListRead)
    ensures r == ReadList(table, position, tag)
  {
    hide ReadSources, Unpacked;
    if tag - tag % 2 != COMPRESSED_TAG {
      var end := position + tag / 2;
      if end > |table| {
        return BadList;
      }
      return ListAt(table[position..end], end);
    }
    if position >= |table| || table[position] == 0 {
      return BadList;
    }
    r := DecodeSourceDeltas(table, position + 1, table[position]);
  }
}
