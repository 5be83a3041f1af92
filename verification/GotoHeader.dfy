/** The header of a goto table: where the groups of every term start, raw or as
    packed zigzag differences. */
module GotoHeader {
  import opened Options
  import opened Varint
  import opened GotoGroups

  const COMPRESSED_HEADER: nat := 0xFFFF
  const HEADER_DIGITS: nat := 10
  const U64: nat := 0x1_0000_0000_0000_0000
  const I64: nat := 0x8000_0000_0000_0000

  type Positions = seq<Option<nat>>

  function Zigzag(delta: int): nat {
    if delta >= 0 then 2 * delta else -2 * delta - 1
  }

  function Unzigzag(code: nat): int {
    if code % 2 == 0 then code / 2 else -(code / 2) - 1
  }

  lemma ZigzagBack(delta: int)
    ensures Unzigzag(Zigzag(delta)) == delta
  {}

  /** The last stored position, from which the next difference is taken. */
  function Previous(index: Positions): nat {
    if index == [] then 0
    else
      match index[|index| - 1]
      case Some(position) => position
      case None => Previous(index[..|index| - 1])
  }

  /** Zero for a missing entry, one more than the zigzag difference otherwise. */
  function EntryCode(entry: Option<nat>, previous: nat): nat {
    match entry
    case None => 0
    case Some(position) => Zigzag(position - previous) + 1
  }

  function HeaderBytes(index: Positions): seq<Byte> {
    if index == [] then []
    else
      var front := index[..|index| - 1];
      HeaderBytes(front) + Digits(EntryCode(index[|index| - 1], Previous(front)))
  }

  method EncodeGotoHeader(index: Positions) returns (words: seq<Word>)
    ensures words == Packed(HeaderBytes(index))
  {
    hide Digits;
    var bytes: seq<Byte> := [];
    var previous: nat := 0;
    for i := 0 to |index|
      invariant bytes == HeaderBytes(index[..i])
      invariant previous == Previous(index[..i])
    {
      assert index[..i + 1][..i] == index[..i];
      match index[i] {
        case None =>
          bytes := EncodeVarint(bytes, 0);
        case Some(position) =>
          var delta := position - previous;
          bytes := EncodeVarint(bytes, Zigzag(delta) + 1);
          previous := position;
      }
    }
    assert index[..|index|] == index;
    words := Packed(bytes);
  }

  // ---- reading positions --------------------------------------------------

  datatype PositionRead = PositionsTo(index: Positions, next: nat) | BadPositions

  /** The relative positions of `count` terms at the start of `bytes`. */
  function ReadPositions(bytes: seq<Byte>, count: nat): (r: PositionRead)
    ensures r.PositionsTo? ==> |r.index| == count && r.next <= |bytes|
  {
    if count == 0 then PositionsTo([], 0)
    else
      match ReadPositions(bytes, count - 1)
      case BadPositions => BadPositions
      case PositionsTo(index, next) =>
        match ReadBounded(bytes, next, HEADER_DIGITS, U64)
        case Bad => BadPositions
        case Read(code, after) => AddPosition(index, code, after)
  }

  function AddPosition(index: Positions, code: nat, next: nat): PositionRead {
    if code == 0 then PositionsTo(index + [None], next)
    else
      var position := Previous(index) + Unzigzag(code - 1);
      if 0 <= position < I64 then PositionsTo(index + [Some(position)], next) else BadPositions
  }

  ghost predicate Addressable(index: Positions) {
    forall i :: 0 <= i < |index| && index[i].Some? ==> index[i].value < 0x1_0000
  }

  lemma {:induction false} PreviousBound(index: Positions)
    requires Addressable(index)
    ensures Previous(index) < 0x1_0000
  {
    if index != [] && index[|index| - 1].None? { PreviousBound(index[..|index| - 1]); }
  }

  lemma CodeDigits(code: nat)
    requires code <= 0x2_0000
    ensures |Digits(code)| <= HEADER_DIGITS
  {
    if code >= 128 {
      DeltaDigits(code / 128);
    }
  }

  lemma EntryReadBack(front: Positions, entry: Option<nat>, next: nat)
    requires Addressable(front) && (entry.Some? ==> entry.value < 0x1_0000)
    ensures AddPosition(front, EntryCode(entry, Previous(front)), next) == PositionsTo(front + [entry], next)
    ensures EntryCode(entry, Previous(front)) <= 0x2_0000
  {
    PreviousBound(front);
    if entry.Some? { ZigzagBack(entry.value - Previous(front)); }
  }

  lemma {:induction false} PositionsReadBack(index: Positions, after: seq<Byte>)
    requires Addressable(index)
    ensures ReadPositions(HeaderBytes(index) + after, |index|) == PositionsTo(index, |HeaderBytes(index)|)
    decreases |index|
  {
    hide Digits, ReadBounded, AddPosition, EntryCode, Previous;
    if |index| > 0 {
      var front, entry := index[..|index| - 1], index[|index| - 1];
      var code := EntryCode(entry, Previous(front));
      EntryReadBack(front, entry, |HeaderBytes(index)|);
      CodeDigits(code);
      PositionsReadBack(front, Digits(code) + after);
      assert HeaderBytes(index) + after == HeaderBytes(front) + (Digits(code) + after);
      assert HeaderBytes(index) + after == HeaderBytes(front) + Digits(code) + after;
      BoundedDigits(HeaderBytes(front), code, after, HEADER_DIGITS, U64);
      assert index == front + [entry];
    }
  }

  // ---- whole headers ------------------------------------------------------

  function Moved(index: Positions, offset: nat): (moved: Positions)
    ensures |moved| == |index|
  {
    seq(|index|, i requires 0 <= i < |index| =>
      match index[i] case None => None case Some(position) => Some(position + offset))
  }

  datatype HeaderRead = Header(positions: Positions, dataStart: nat) | BadHeader

  function ReadRawPosition(word: Word, headerLength: nat): Option<nat> {
    if word < headerLength then None else Some(word)
  }

  predicate GoodRawHeader(table: seq<Word>, headerLength: nat)
    requires headerLength <= |table|
  {
    forall i :: 1 <= i < headerLength ==> table[i] < headerLength ==> table[i] == 1
  }

  function ReadRawHeader(table: seq<Word>, headerLength: nat): HeaderRead
    requires headerLength > 0
  {
    if headerLength > |table| || !GoodRawHeader(table, headerLength) then BadHeader
    else
      Header(seq(headerLength - 1, i requires 0 <= i < headerLength - 1 =>
               ReadRawPosition(table[i + 1], headerLength)), headerLength)
  }

  function ReadCompressedHeader(table: seq<Word>): HeaderRead {
    if |table| < 3 || 3 + table[2] > |table| then BadHeader
    else
      var words: nat := table[2];
      var dataStart := 3 + words;
      var bytes := Unpacked(table[3..dataStart]);
      match ReadPositions(bytes, table[1])
      case BadPositions => BadHeader
      case PositionsTo(index, next) =>
        if |bytes| - next > 1 || (|bytes| - next == 1 && bytes[next] != 0) then BadHeader
        else Header(Moved(index, dataStart), dataStart)
  }

  function ReadHeader(table: seq<Word>): HeaderRead {
    if |table| == 0 then BadHeader
    else if table[0] == COMPRESSED_HEADER then ReadCompressedHeader(table)
    else ReadRawHeader(table, table[0] + 1)
  }

  /** Whether the compressed header is the shorter one. */
  predicate Compresses(index: Positions) {
    |Packed(HeaderBytes(index))| + 3 < |index| + 1
  }

  /** A header for `index` can be written: term ids and, in a raw header, the
      positions after it fit a word. */
  predicate HeaderFits(index: Positions) {
    && |index| < 0xFFFF
    && (!Compresses(index) ==>
          forall i :: 0 <= i < |index| && index[i].Some? ==> index[i].value + |index| + 1 < 0x1_0000)
  }

  function RawEntry(entry: Option<nat>, headerLength: nat): nat {
    match entry case None => 1 case Some(position) => position + headerLength
  }

  function HeaderWords(index: Positions): seq<Word>
    requires HeaderFits(index)
  {
    var packed := Packed(HeaderBytes(index));
    if Compresses(index) then [COMPRESSED_HEADER, |index|, |packed|] + packed
    else
      [|index|] + seq(|index|, i requires 0 <= i < |index| => RawEntry(index[i], |index| + 1) as Word)
  }

  lemma RawHeaderReadBack(index: Positions, data: seq<Word>)
    requires HeaderFits(index) && !Compresses(index)
    ensures ReadHeader(HeaderWords(index) + data) == Header(Moved(index, |index| + 1), |index| + 1)
  {
    hide HeaderBytes, Packed, Compresses;
    var table, length := HeaderWords(index) + data, |index| + 1;
    assert |HeaderWords(index)| == length;
    forall i | 0 <= i < |index|
      ensures table[i + 1] == RawEntry(index[i], length)
    {
      assert table[i + 1] == HeaderWords(index)[i + 1];
    }
    RawPositions(table, index, data);
  }

  lemma RawPositions(table: seq<Word>, index: Positions, data: seq<Word>)
    requires |table| == |index| + 1 + |data| && table[0] == |index| < COMPRESSED_HEADER
    requires forall i :: 0 <= i < |index| ==> table[i + 1] == RawEntry(index[i], |index| + 1)
    ensures ReadHeader(table) == Header(Moved(index, |index| + 1), |index| + 1)
  {
    var length := |index| + 1;
    forall i | 1 <= i < length ensures table[i] < length ==> table[i] == 1 {
      assert table[i] == RawEntry(index[i - 1], length);
    }
    var positions := seq(length - 1, i requires 0 <= i < length - 1 => ReadRawPosition(table[i + 1], length));
    forall i | 0 <= i < |index| ensures positions[i] == Moved(index, length)[i] {
      assert table[i + 1] == RawEntry(index[i], length);
    }
    assert positions == Moved(index, length);
  }

  lemma CompressedHeaderReadBack(index: Positions, data: seq<Word>)
    requires HeaderFits(index) && Compresses(index) && Addressable(index)
    ensures var length := |HeaderWords(index)|;
            ReadHeader(HeaderWords(index) + data) == Header(Moved(index, length), length)
  {
    hide HeaderBytes, Packed, Unpacked, ReadPositions, Addressable, Moved;
    var bytes := HeaderBytes(index);
    var packed := Packed(bytes);
    var table, length := HeaderWords(index) + data, 3 + |packed|;
    assert table[0] == COMPRESSED_HEADER && table[1] == |index| && table[2] == |packed|;
    assert table[3..length] == packed;
    UnpackedPacked(bytes);
    PositionsReadBack(index, if |bytes| % 2 == 1 then [0] else []);
  }

  /** A header reads back as the positions it was written for, shifted past
      itself, whatever data follows. */
  lemma HeaderReadBack(index: Positions, data: seq<Word>)
    requires HeaderFits(index) && Addressable(index)
    ensures ReadHeader(HeaderWords(index) + data)
         == Header(Moved(index, |HeaderWords(index)|), |HeaderWords(index)|)
  {
    hide ReadHeader;
    if Compresses(index) { CompressedHeaderReadBack(index, data); } else { RawHeaderReadBack(index, data); }
  }

  // ---- decoding -----------------------------------------------------------

  /** The value that a 64-bit shift register would lose bits of. */
  lemma ShlWide()
    ensures Shl(2, 63) == U64
  {
    hide Shl;
    ShlGroup(2, 56);
    ShlGroup(0x100, 49);
    ShlGroup(0x8000, 42);
    ShlGroup(0x40_0000, 35);
    ShlGroup(0x2000_0000, 28);
    ShlGroup(0x10_0000_0000, 21);
    ShlGroup(0x800_0000_0000, 14);
    ShlGroup(0x4_0000_0000_0000, 7);
    ShlGroup(0x200_0000_0000_0000, 0);
    ShlZero(U64);
  }

  /** At the last shift only the lowest bit of a digit still fits 64 bits. */
  lemma PartialOverflow(bytes: seq<Byte>, start: nat, at: nat, value: nat)
    requires Partial(bytes, start, at, value)
    requires at < |bytes| && at == start + 9 && bytes[at] % 128 >= 2
    ensures ReadDigits(bytes, start).Read? ==> ReadDigits(bytes, start).value >= U64
  {
    match ReadDigits(bytes, at)
    case Bad =>
    case Read(rest, next) =>
      assert rest >= 2;
      ShlMono(2, rest, 63);
      ShlWide();
  }

  /** The width reached by a value with `bits` bits below its next digit. */
  lemma PartialFits(value: nat, digit: nat, bits: nat)
    requires value < Shl(1, bits) && bits <= 63 && bits % 7 == 0
    requires digit < if bits == 63 then 2 else 128
    ensures value + Shl(digit, bits) < U64
    decreases 63 - bits
  {
    if bits == 63 {
      ShlSum(1, digit, 63);
      ShlMono(1 + digit, 2, 63);
      ShlWide();
    } else {
      ShlStep(digit, bits);
      PartialFits(value + Shl(digit, bits), 0, bits + 7);
    }
  }

  /** Reads one header code of at most 64 bits. */
  method DecodeHeaderVarint(table: seq<Word>, wordStart: nat, start: nat, byteLimit: nat)
    returns (r: Read)
    requires byteLimit % 2 == 0 && wordStart + byteLimit / 2 <= |table|
    ensures r == ReadBounded(Unpacked(table[wordStart..wordStart + byteLimit / 2]), start, HEADER_DIGITS, U64)
  {
    hide ReadDigits, Unpacked, Partial;
    ghost var bytes := Unpacked(table[wordStart..wordStart + byteLimit / 2]);
    var value: nat, shift: nat, at: nat := 0, 0, start;
    assert Partial(bytes, start, at, value) by { PartialStart(bytes, start); }
    while true
      invariant shift == 7 * (at - start) && shift <= 63
      invariant Partial(bytes, start, at, value) && value < Shl(1, shift)
      decreases 70 - shift
    {
      if at >= byteLimit {
        PartialEnds(bytes, start, at, value);
        return Bad;
      }
      var byte := PackedByte(table, wordStart, at);
      UnpackedSlice(table, wordStart, byteLimit / 2, at);
      if shift == 63 && byte % 128 >= 2 {
        PartialOverflow(bytes, start, at, value);
        return Bad;
      }
      PartialFits(value, byte % 128, shift);
      if byte < 128 {
        PartialDone(bytes, start, at, value);
        return Read(value + Shl(byte, shift), at + 1);
      }
      PartialNext(bytes, start, at, value);
      ShlStep(byte - 128, shift);
      value := value + Shl(byte - 128, shift);
      at := at + 1;
      shift := shift + 7;
      if shift >= 64 {
        PartialLong(bytes, start, at, value);
        return Bad;
      }
    }
  }

  lemma {:induction false} PositionsEndBad(bytes: seq<Byte>, k: nat, count: nat)
    requires k <= count && ReadPositions(bytes, k) == BadPositions
    ensures ReadPositions(bytes, count) == BadPositions
    decreases count
  {
    if k < count { PositionsEndBad(bytes, k, count - 1); }
  }

  method DecodeGotoHeader(table: seq<Word>) returns (r: HeaderRead)
    ensures r == ReadHeader(table)
  {
    if |table| == 0 {
      return BadHeader;
    }
    if table[0] != COMPRESSED_HEADER {
      r := DecodeRawHeader(table, table[0]);
    } else {
      r := DecodeCompressedHeader(table);
    }
  }

  method DecodeRawHeader(table: seq<Word>, termCount: nat) returns (r: HeaderRead)
    ensures r == ReadRawHeader(table, termCount + 1)
  {
    var headerLength := termCount + 1;
    if headerLength > |table| {
      return BadHeader;
    }
    var positions: Positions := [];
    for i := 1 to headerLength
      invariant |positions| == i - 1
      invariant forall j :: 1 <= j < i ==> table[j] < headerLength ==> table[j] == 1
      invariant forall j :: 0 <= j < i - 1 ==> positions[j] == ReadRawPosition(table[j + 1], headerLength)
    {
      var position := table[i];
      if position < headerLength {
        if position != 1 {
          return BadHeader;
        }
        positions := positions + [None];
      } else {
        positions := positions + [Some(position)];
      }
    }
    return Header(positions, headerLength);
  }

  /** Reads the positions of all terms, rebased past the header. */
  method DecodePositions(table: seq<Word>, termCount: nat, headerWords: nat, ghost bytes: seq<Byte>)
    returns (ok: bool, positions: Positions, byteIndex: nat)
    requires 3 + headerWords <= |table| && bytes == Unpacked(table[3..3 + headerWords])
    ensures ok == ReadPositions(bytes, termCount).PositionsTo?
    ensures ok ==> byteIndex == ReadPositions(bytes, termCount).next
    ensures ok ==> positions == Moved(ReadPositions(bytes, termCount).index, 3 + headerWords)
  {
    hide Unpacked, ReadBounded, Unzigzag, Moved, Previous, ReadPositions;
    var dataStart, byteLimit := 3 + headerWords, 2 * headerWords;
    assert byteLimit / 2 == headerWords;
    ghost var index: Positions := [];
    var previous: nat := 0;
    positions, byteIndex := [], 0;
    NothingRead(bytes, dataStart);
    for i := 0 to termCount
      invariant ReadPositions(bytes, i) == PositionsTo(index, byteIndex)
      invariant positions == Moved(index, dataStart) && previous == Previous(index)
    {
      ReadPositionsStep(bytes, i);
      var read := DecodeHeaderVarint(table, 3, byteIndex, byteLimit);
      if read.Bad? {
        PositionsEndBad(bytes, i + 1, termCount);
        return false, [], 0;
      }
      byteIndex := read.next;
      if read.value == 0 {
        PreviousNext(index, None, dataStart);
        index := index + [None];
        positions := positions + [None];
      } else {
        var relative := previous + Unzigzag(read.value - 1);
        if !(0 <= relative < I64) {
          PositionsEndBad(bytes, i + 1, termCount);
          return false, [], 0;
        }
        PreviousNext(index, Some(relative), dataStart);
        index := index + [Some(relative)];
        positions := positions + [Some(dataStart + relative)];
        previous := relative;
      }
    }
    ok := true;
  }

  lemma NothingRead(bytes: seq<Byte>, offset: nat)
    ensures ReadPositions(bytes, 0) == PositionsTo([], 0) && Moved([], offset) == [] && Previous([]) == 0
  {}

  lemma ReadPositionsStep(bytes: seq<Byte>, i: nat)
    ensures ReadPositions(bytes, i + 1) ==
      match ReadPositions(bytes, i)
      case BadPositions => BadPositions
      case PositionsTo(index, next) =>
        match ReadBounded(bytes, next, HEADER_DIGITS, U64)
        case Bad => BadPositions
        case Read(code, after) => AddPosition(index, code, after)
  {}

  method DecodeCompressedHeader(table: seq<Word>) returns (r: HeaderRead)
    ensures r == ReadCompressedHeader(table)
  {
    hide Unpacked, ReadPositions, Moved;
    if |table| < 3 {
      return BadHeader;
    }
    var termCount: nat, headerWords: nat := table[1], table[2];
    var dataStart := 3 + headerWords;
    if dataStart > |table| {
      return BadHeader;
    }
    ghost var bytes := Unpacked(table[3..dataStart]);
    var ok, positions, byteIndex := DecodePositions(table, termCount, headerWords, bytes);
    if !ok {
      return BadHeader;
    }
    var remaining := 2 * headerWords - byteIndex;
    if remaining > 1 {
      return BadHeader;
    }
    if remaining == 1 {
      var padding := PackedByte(table, 3, byteIndex);
      UnpackedSlice(table, 3, headerWords, byteIndex);
      if padding != 0 {
        return BadHeader;
      }
    }
    return Header(positions, dataStart);
  }

  lemma PreviousNext(index: Positions, entry: Option<nat>, offset: nat)
    ensures Previous(index + [entry]) == match entry case None => Previous(index) case Some(p) => p
    ensures Moved(index + [entry], offset)
         == Moved(index, offset) + [match entry case None => None case Some(p) => Some(offset + p)]
  {
    assert (index + [entry])[..|index|] == index;
  }
}
