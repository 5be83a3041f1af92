/** Base-128 numbers, low digit first, and their packing into 16-bit words. */
module Varint {

  type Byte = b: nat | b < 256
  type Word = w: nat | w < 0x1_0000

  /** Every byte but the last has its high bit set. */
  function Digits(value: nat): (bytes: seq<Byte>)
    ensures |bytes| > 0
  {
    if value < 128 then [value] else [128 + value % 128] + Digits(value / 128)
  }

  datatype Read = Read(value: nat, next: nat) | Bad

  /** The number whose digits start at `at`, of any width. */
  function ReadDigits(bytes: seq<Byte>, at: nat): (r: Read)
    ensures r.Read? ==> at < r.next <= |bytes|
    decreases |bytes| - at
  {
    if at >= |bytes| then Bad
    else if bytes[at] < 128 then Read(bytes[at], at + 1)
    else
      match ReadDigits(bytes, at + 1)
      case Bad => Bad
      case Read(value, next) => Read(bytes[at] - 128 + 128 * value, next)
  }

  /** Appends the digits of a number. */
  method EncodeVarint(bytes: seq<Byte>, value: nat) returns (longer: seq<Byte>)
    ensures longer == bytes + Digits(value)
  {
    longer := bytes;
    var rest := value;
    while true
      invariant longer + Digits(rest) == bytes + Digits(value)
      decreases rest
    {
      var digit: Byte := rest % 128;
      ghost var before := longer;
      if rest < 128 {
        longer := longer + [digit];
        return;
      }
      longer := longer + [128 + digit];
      assert longer + Digits(rest / 128) == before + ([128 + digit] + Digits(rest / 128));
      rest := rest / 128;
    }
  }

  lemma {:induction false} DigitsRead(before: seq<Byte>, value: nat, after: seq<Byte>)
    ensures ReadDigits(before + Digits(value) + after, |before|)
         == Read(value, |before| + |Digits(value)|)
    decreases value
  {
    var all := before + Digits(value) + after;
    if value >= 128 {
      var digit: Byte := 128 + value % 128;
      assert all == (before + [digit]) + Digits(value / 128) + after;
      DigitsRead(before + [digit], value / 128, after);
    }
  }

  /** `value << bits` */
  function Shl(value: nat, bits: nat): nat {
    if bits == 0 then value else 2 * Shl(value, bits - 1)
  }

  lemma ShlZero(value: nat)
    ensures Shl(value, 0) == value
  {}

  lemma {:induction false} ShlSum(a: nat, b: nat, bits: nat)
    ensures Shl(a + b, bits) == Shl(a, bits) + Shl(b, bits)
  {
    if bits > 0 { ShlSum(a, b, bits - 1); }
  }

  lemma {:induction false} ShlGroup(a: nat, bits: nat)
    ensures Shl(128 * a, bits) == Shl(a, bits + 7)
  {
    if bits > 0 {
      ShlGroup(a, bits - 1);
    } else {
      assert Shl(a, 7) == 2 * Shl(a, 6) == 4 * Shl(a, 5) == 8 * Shl(a, 4) == 16 * Shl(a, 3);
      assert Shl(a, 3) == 2 * Shl(a, 2) == 4 * Shl(a, 1) == 8 * Shl(a, 0);
    }
  }

  /** Reading a number of bounded width: at most `digits` bytes, and a value
      below `limit`. */
  function ReadBounded(bytes: seq<Byte>, at: nat, digits: nat, limit: nat): (r: Read)
    ensures r.Read? ==> at < r.next <= |bytes| && r.value < limit
  {
    match ReadDigits(bytes, at)
    case Bad => Bad
    case Read(value, next) => if next - at <= digits && value < limit then Read(value, next) else Bad
  }

  /** Where a partly read number stands: `value` holds the digits from
      `start` to `at`. */
  ghost predicate Partial(bytes: seq<Byte>, start: nat, at: nat, value: nat) {
    && start <= at
    && match ReadDigits(bytes, at)
       case Bad => ReadDigits(bytes, start) == Bad
       case Read(rest, next) =>
         ReadDigits(bytes, start) == Read(value + Shl(rest, 7 * (at - start)), next)
  }

  lemma PartialNext(bytes: seq<Byte>, start: nat, at: nat, value: nat)
    requires Partial(bytes, start, at, value)
    requires at < |bytes| && bytes[at] >= 128
    ensures Partial(bytes, start, at + 1, value + Shl(bytes[at] - 128, 7 * (at - start)))
  {
    match ReadDigits(bytes, at + 1)
    case Bad =>
    case Read(rest, next) =>
      ShlSum(bytes[at] - 128, 128 * rest, 7 * (at - start));
      ShlGroup(rest, 7 * (at - start));
  }

  lemma PartialStart(bytes: seq<Byte>, start: nat)
    ensures Partial(bytes, start, start, 0)
  {}

  lemma PartialEnds(bytes: seq<Byte>, start: nat, at: nat, value: nat)
    requires Partial(bytes, start, at, value) && at >= |bytes|
    ensures ReadDigits(bytes, start) == Bad
  {}

  lemma PartialDone(bytes: seq<Byte>, start: nat, at: nat, value: nat)
    requires Partial(bytes, start, at, value) && at < |bytes| && bytes[at] < 128
    ensures ReadDigits(bytes, start) == Read(value + Shl(bytes[at], 7 * (at - start)), at + 1)
  {}

  /** A number with a digit still to come is longer than what was read. */
  lemma PartialLong(bytes: seq<Byte>, start: nat, at: nat, value: nat)
    requires Partial(bytes, start, at, value)
    ensures ReadDigits(bytes, start).Read? ==> ReadDigits(bytes, start).next > at
  {}

  lemma {:induction false} ShlMono(a: nat, b: nat, bits: nat)
    requires a <= b
    ensures Shl(a, bits) <= Shl(b, bits)
  {
    if bits > 0 { ShlMono(a, b, bits - 1); }
  }

  /** Adding the next seven bits keeps a value below the next power. */
  lemma ShlStep(digit: nat, bits: nat)
    requires digit < 128
    ensures Shl(1, bits) + Shl(digit, bits) <= Shl(1, bits + 7)
  {
    ShlSum(1, digit, bits);
    ShlMono(1 + digit, 128, bits);
    ShlGroup(1, bits);
  }

  // ---- packing ------------------------------------------------------------

  /** Two bytes a word, low byte first, an odd last byte padded with zero. */
  function Packed(bytes: seq<Byte>): (words: seq<Word>)
    ensures |words| == (|bytes| + 1) / 2
  {
    seq((|bytes| + 1) / 2, (i: nat) requires i < (|bytes| + 1) / 2 => PackedWord(bytes, i))
  }

  function PackedWord(bytes: seq<Byte>, i: nat): Word
    requires 2 * i < |bytes|
  {
    var low: nat := bytes[2 * i];
    var high: nat := if 2 * i + 1 < |bytes| then bytes[2 * i + 1] else 0;
    low + 256 * high
  }

  function PackedByte(table: seq<Word>, wordStart: nat, byteIndex: nat): Byte
    requires wordStart + byteIndex / 2 < |table|
  {
    if byteIndex % 2 == 0 then table[wordStart + byteIndex / 2] % 256
    else table[wordStart + byteIndex / 2] / 256
  }

  function Unpacked(words: seq<Word>): (bytes: seq<Byte>)
    ensures |bytes| == 2 * |words|
  {
    seq(2 * |words|, (i: nat) requires i < 2 * |words| => PackedByte(words, 0, i))
  }

  /** Unpacking gives the bytes back, and a zero where one was padded. */
  lemma {:induction false} UnpackedPacked(bytes: seq<Byte>)
    ensures Unpacked(Packed(bytes)) == bytes + if |bytes| % 2 == 1 then [0] else []
  {
    var all: seq<Byte> := bytes + if |bytes| % 2 == 1 then [0] else [];
    forall i: nat | i < |all| ensures Unpacked(Packed(bytes))[i] == all[i] {
      var j := i / 2;
      assert Packed(bytes)[j] == PackedWord(bytes, j);
      if i % 2 == 0 { assert i == 2 * j; } else { assert i == 2 * j + 1; }
    }
  }

  lemma UnpackedConcat(a: seq<Word>, b: seq<Word>)
    ensures Unpacked(a + b) == Unpacked(a) + Unpacked(b)
  {
    forall i: nat | i < 2 * |a + b| ensures Unpacked(a + b)[i] == (Unpacked(a) + Unpacked(b))[i] {
      if i >= 2 * |a| {
        var j: nat := i - 2 * |a|;
        assert (a + b)[i / 2] == b[j / 2];
        assert i % 2 == j % 2;
      }
    }
  }

  lemma UnpackedAt(table: seq<Word>, wordStart: nat, byteIndex: nat)
    requires wordStart + byteIndex / 2 < |table|
    ensures byteIndex < |Unpacked(table[wordStart..])|
    ensures Unpacked(table[wordStart..])[byteIndex] == PackedByte(table, wordStart, byteIndex)
  {}

  lemma UnpackedSlice(table: seq<Word>, wordStart: nat, words: nat, byteIndex: nat)
    requires wordStart + words <= |table| && byteIndex < 2 * words
    ensures byteIndex < |Unpacked(table[wordStart..wordStart + words])|
    ensures Unpacked(table[wordStart..wordStart + words])[byteIndex] == PackedByte(table, wordStart, byteIndex)
  {}
}
