/** The Turris media blob: a length, a tagged header of varints, then the raw H.264 stream. */
module Mxhd {
  import opened Bytes

  const MAGIC := 0x4D58_4844
  const VERSION := 1
  const FPS := 30
  const WIDTH := 1280
  const HEIGHT := 720
  const DESCRIPTION := "Tryx media header v1, fps=30, size=1280x720"

  datatype MediaKind = Image | Video

  datatype Header = Header(kind: MediaKind, frames: U64, width: U64, height: U64, fps: U64)

  // ----- Varints: base-128 digits, least significant first, all but the last with the high bit set.

  function Varint(value: nat): ByteString {
    if value < 128 then [value] else [value % 128 + 128] + Varint(value / 128)
  }

  method PushVarint(out: Buffer, value: U64)
    modifies out
    ensures out.data == old(out.data) + Varint(value)
  {
    var rest: nat := value;
    while rest >= 0x80
      invariant out.data + Varint(rest) == old(out.data) + Varint(value)
    {
      ghost var before := out.data;
      out.data := out.data + [rest % 128 + 128];
      assert before + ([rest % 128 + 128] + Varint(rest / 128)) == out.data + Varint(rest / 128);
      rest := rest / 128;
    }
    out.data := out.data + [rest];
  }

  /** The weight 2^(7k) of the k-th digit. */
  function Weight(k: nat): nat {
    if k == 0 then 1 else 128 * Weight(k - 1)
  }

  /** Adding digit `k`; what is shifted past bit 63 is lost. */
  function Gather(value: nat, byte: Byte, weight: nat): nat {
    value + (byte % 128 * weight) % TWO_TO_64
  }

  /** Reading on at digit `k` with `value` gathered so far. */
  function ReadDigits(bytes: ByteString, at: nat, value: nat, k: nat): Option<(nat, nat)>
    decreases 10 - k
  {
    if at >= |bytes| || k > 9 then None
    else
      var gathered := Gather(value, bytes[at], Weight(k));
      if bytes[at] < 128 then Some((gathered, at + 1)) else ReadDigits(bytes, at + 1, gathered, k + 1)
  }

  /** The varint at a position, and the position after it. */
  function VarintAt(bytes: ByteString, at: nat): (read: Option<(nat, nat)>)
    ensures read.Some? ==> at < read.value.1 <= |bytes| && read.value.0 < TWO_TO_64
  {
    ReadDigitsAdvance(bytes, at, 0, 0);
    WeightStart();
    ReadDigitsFit(bytes, at, 0, 0);
    ReadDigits(bytes, at, 0, 0)
  }

  lemma {:induction false} ReadDigitsAdvance(bytes: ByteString, at: nat, value: nat, k: nat)
    ensures var read := ReadDigits(bytes, at, value, k); read.Some? ==> at < read.value.1 <= |bytes|
    decreases 10 - k
  {
    hide Weight;
    if at < |bytes| && k <= 9 {
      ReadDigitsAdvance(bytes, at + 1, Gather(value, bytes[at], Weight(k)), k + 1);
    }
  }

  lemma {:induction false} ReadDigitsFit(bytes: ByteString, at: nat, value: nat, k: nat)
    requires k > 9 || value < Weight(k)
    ensures var read := ReadDigits(bytes, at, value, k); read.Some? ==> read.value.0 < TWO_TO_64
    decreases 10 - k
  {
    hide Weight, Gather;
    if at < |bytes| && k <= 9 {
      GatherFits(value, bytes[at], Weight(k), k);
      ReadDigitsFit(bytes, at + 1, Gather(value, bytes[at], Weight(k)), k + 1);
    }
  }

  lemma GatherFits(value: nat, byte: Byte, weight: nat, k: nat)
    requires k <= 9 && weight == Weight(k) && value < weight
    ensures Gather(value, byte, weight) < TWO_TO_64
    ensures k < 9 ==> Gather(value, byte, weight) < Weight(k + 1)
  {
    hide Weight, Gather;
    WeightStep(k);
    Weights();
    if k < 9 {
      WeightGrows(k + 1, 9);
      DigitBound(byte % 128, weight);
      GatherExact(value, byte, weight);
    } else {
      TopDigit(value, byte);
    }
  }

  lemma DigitBound(digit: nat, weight: nat)
    requires digit < 128
    ensures digit * weight <= 127 * weight
  {
  }

  /** A digit that fits is added exactly. */
  lemma GatherExact(value: nat, byte: Byte, weight: nat)
    requires byte % 128 * weight < TWO_TO_64
    ensures Gather(value, byte, weight) == value + byte % 128 * weight
  {
  }

  /** Of the tenth digit only the lowest bit stays. */
  lemma TopDigit(value: nat, byte: Byte)
    requires value < 0x8000_0000_0000_0000
    ensures Gather(value, byte, 0x8000_0000_0000_0000) < TWO_TO_64
  {
  }

  method ReadVarint(bytes: ByteString, start: nat) returns (read: Option<(nat, nat)>)
    ensures read == VarintAt(bytes, start)
  {
    hide Weight, Gather;
    var at: nat, value: nat, k: nat, weight: nat := start, 0, 0, 1;
    WeightStart();
    while true
      invariant k <= 9 && weight == Weight(k)
      invariant ReadDigits(bytes, at, value, k) == VarintAt(bytes, start)
      decreases 10 - k
    {
      if at >= |bytes| {
        return None;
      }
      var byte := bytes[at];
      at := at + 1;
      value := Gather(value, byte, weight);
      if byte < 128 {
        return Some((value, at));
      }
      WeightStep(k);
      k, weight := k + 1, 128 * weight;
      if 7 * k > 63 {
        return None;
      }
    }
  }

  lemma WeightStart()
    ensures Weight(0) == 1
  {
  }

  lemma WeightStep(k: nat)
    ensures Weight(k + 1) == 128 * Weight(k)
  {
  }

  lemma Weights()
    ensures 2 * Weight(9) == TWO_TO_64
  {
  }

  lemma {:induction false} WeightGrows(j: nat, k: nat)
    requires j <= k
    ensures 0 < Weight(j) <= Weight(k)
    decreases k
  {
    if j < k {
      WeightGrows(j, k - 1);
    } else if k > 0 {
      WeightGrows(k - 1, k - 1);
    }
  }

  /** Reading the digits of a number that fits in 64 bits gives it back. */
  lemma {:induction false} ReadDigitsOf(bytes: ByteString, at: nat, value: nat, k: nat, number: nat)
    requires at <= |bytes| && Varint(number) <= bytes[at..] && k <= 9
    requires number * Weight(k) < TWO_TO_64
    ensures ReadDigits(bytes, at, value, k) == Some((value + number * Weight(k), at + |Varint(number)|))
    decreases number
  {
    hide Weight, Gather;
    var digits := Varint(number);
    var weight := Weight(k);
    assert bytes[at] == digits[0];
    assert bytes[at] % 128 == number % 128;
    if number < 128 {
      GatherExact(value, bytes[at], weight);
    } else {
      var low, high := number % 128, number / 128;
      DigitSplit(low, high, weight);
      GatherExact(value, bytes[at], weight);
      assert number == low + 128 * high;
      assert digits[1..] == Varint(high) && digits[1..] <= bytes[at..][1..] == bytes[at + 1..];
      WeightStep(k);
      RoomForDigit(weight, k, high);
      ReadDigitsOf(bytes, at + 1, value + low * weight, k + 1, high);
    }
  }

  lemma DigitSplit(low: nat, high: nat, weight: nat)
    ensures (low + 128 * high) * weight == low * weight + high * (128 * weight)
    ensures low * weight <= (low + 128 * high) * weight
    ensures high * (128 * weight) <= (low + 128 * high) * weight
  {
  }

  /** A number with a further digit leaves room for it within 64 bits. */
  lemma RoomForDigit(weight: nat, k: nat, high: nat)
    requires weight == Weight(k) && k <= 9 && high >= 1 && high * (128 * weight) < TWO_TO_64
    ensures k < 9
  {
  }

  /** `ReadVarint` undoes `PushVarint` for every 64-bit value, whatever surrounds it. */
  lemma VarintRoundTrip(before: ByteString, value: U64, after: ByteString)
    ensures VarintAt(before + Varint(value) + after, |before|) == Some((value, |before| + |Varint(value)|))
  {
    var bytes := before + Varint(value) + after;
    assert bytes[|before|..] == Varint(value) + after;
    WeightStart();
    ReadDigitsOf(bytes, |before|, 0, 0, value);
  }

  lemma {:induction false} VarintLength(value: nat, k: nat)
    requires k > 0 && value < Weight(k)
    ensures 1 <= |Varint(value)| <= k
    decreases k
  {
    if value >= 128 {
      VarintLength(value / 128, k - 1);
    }
  }

  // ----- Tagged fields.

  datatype Field = Number(field: nat, value: nat) | Text(field: nat, data: ByteString)

  predicate FitsWire(f: Field) {
    && f.field * 8 + 7 < TWO_TO_64
    && match f { case Number(_, value) => value < TWO_TO_64 case Text(_, data) => |data| < TWO_TO_64 }
  }

  function FieldBytes(f: Field): ByteString {
    match f
    case Number(field, value) => Varint(field * 8) + Varint(value)
    case Text(field, data) => Varint(field * 8 + 2) + Varint(|data|) + data
  }

  function FieldsBytes(fields: seq<Field>): ByteString {
    if fields == [] then [] else FieldBytes(fields[0]) + FieldsBytes(fields[1..])
  }

  method PushField(out: Buffer, f: Field)
    requires FitsWire(f)
    modifies out
    ensures out.data == old(out.data) + FieldBytes(f)
  {
    hide Varint;
    match f
    case Number(field, value) =>
      PushVarint(out, field * 8);
      PushVarint(out, value);
    case Text(field, data) =>
      PushVarint(out, field * 8 + 2);
      PushVarint(out, |data|);
      out.data := out.data + data;
  }

  /** What the parser has gathered: the header, and the magic number seen. */
  datatype Parsed = Parsed(header: Header, magic: U64)

  const BLANK := Parsed(Header(Video, 0, 0, 0, 0), 0)

  /** The effect of one field; only an unknown media kind is an error. */
  function Take(parsed: Parsed, field: nat, value: U64): Option<Parsed> {
    match field
    case 1 => Some(parsed.(magic := value))
    case 3 =>
      if value == 2 then Some(parsed.(header := parsed.header.(kind := Image)))
      else if value == 4 then Some(parsed.(header := parsed.header.(kind := Video)))
      else None
    case 5 => Some(parsed.(header := parsed.header.(fps := value)))
    case 6 => Some(parsed.(header := parsed.header.(width := value)))
    case 7 => Some(parsed.(header := parsed.header.(height := value)))
    case 8 => Some(parsed.(header := parsed.header.(frames := value)))
    case _ => Some(parsed)
  }

  /** The field at a position, and the position after it, which a text field may put past the end. */
  function FieldAt(bytes: ByteString, at: nat): (read: Option<(Field, nat)>)
    ensures read.Some? ==> at < read.value.1
  {
    var tag := VarintAt(bytes, at);
    if tag.None? then None
    else
      var (number, after) := tag.value;
      var value := VarintAt(bytes, after);
      if value.None? || number % 8 !in {0, 2} then None
      else if number % 8 == 0 then Some((Number(number / 8, value.value.0), value.value.1))
      else
        var end := value.value.1 + value.value.0;
        // A position past 64 bits is an overflow.
        if end >= TWO_TO_64 then None else Some((Text(number / 8, []), end))
  }

  function Parse(metadata: ByteString, at: nat, parsed: Parsed): Option<Parsed>
    decreases |metadata| - at
  {
    if at >= |metadata| then Some(parsed)
    else
      var read := FieldAt(metadata, at);
      if read.None? then None
      else
        var (f, after) := read.value;
        if f.Text? then Parse(metadata, after, parsed)
        else
          var next := Take(parsed, f.field, f.value);
          if next.None? then None else Parse(metadata, after, next.value)
  }

  /** The loop form: a position that every field read advances. */
  method ParseFields(metadata: ByteString) returns (parsed: Option<Parsed>)
    ensures parsed == Parse(metadata, 0, BLANK)
  {
    hide VarintAt, Take;
    var at: nat, gathered := 0, BLANK;
    while at < |metadata|
      invariant Parse(metadata, at, gathered) == Parse(metadata, 0, BLANK)
      decreases |metadata| - at
    {
      var tag := ReadVarint(metadata, at);
      if tag.None? {
        return None;
      }
      var number, after := tag.value.0, tag.value.1;
      if number % 8 != 0 && number % 8 != 2 {
        return None;
      }
      var value := ReadVarint(metadata, after);
      if value.None? {
        return None;
      }
      if number % 8 == 0 {
        var next := Take(gathered, number / 8, value.value.0);
        if next.None? {
          return None;
        }
        at, gathered := value.value.1, next.value;
      } else {
        at := value.value.1 + value.value.0;
        if at >= TWO_TO_64 {
          return None;
        }
      }
    }
    return Some(gathered);
  }

  /** What a list of fields adds up to. */
  function Fold(fields: seq<Field>, parsed: Parsed): Option<Parsed>
    requires forall i :: 0 <= i < |fields| ==> FitsWire(fields[i])
  {
    if fields == [] then Some(parsed)
    else if fields[0].Text? then Fold(fields[1..], parsed)
    else
      assert FitsWire(fields[0]);
      var next := Take(parsed, fields[0].field, fields[0].value);
      if next.None? then None else Fold(fields[1..], next.value)
  }

  lemma FieldRoundTrip(before: ByteString, f: Field, after: ByteString)
    requires FitsWire(f) && |before| + |FieldBytes(f)| < TWO_TO_64
    ensures var read := FieldAt(before + FieldBytes(f) + after, |before|);
            && read.Some? && read.value.1 == |before| + |FieldBytes(f)|
            && (if f.Number? then read.value.0 == f else read.value.0.Text?)
  {
    hide Varint, VarintAt;
    var bytes := before + FieldBytes(f) + after;
    match f
    case Number(field, value) =>
      VarintRoundTrip(before, field * 8, Varint(value) + after);
      assert bytes == before + Varint(field * 8) + (Varint(value) + after);
      VarintRoundTrip(before + Varint(field * 8), value, after);
      assert bytes == before + Varint(field * 8) + Varint(value) + after;
      TagSplits(field);
    case Text(field, data) =>
      VarintRoundTrip(before, field * 8 + 2, Varint(|data|) + data + after);
      assert bytes == before + Varint(field * 8 + 2) + (Varint(|data|) + data + after);
      VarintRoundTrip(before + Varint(field * 8 + 2), |data|, data + after);
      assert bytes == before + Varint(field * 8 + 2) + Varint(|data|) + (data + after);
      TagSplits(field);
  }

  lemma TagSplits(field: nat)
    ensures field * 8 / 8 == field && field * 8 % 8 == 0
    ensures (field * 8 + 2) / 8 == field && (field * 8 + 2) % 8 == 2
  {
  }

  /** Parsing the bytes of any list of fields adds up the fields. */
  lemma {:induction false} ParseUndoesFields(before: ByteString, fields: seq<Field>, parsed: Parsed)
    requires forall i :: 0 <= i < |fields| ==> FitsWire(fields[i])
    requires |before| + |FieldsBytes(fields)| < TWO_TO_64
    ensures Parse(before + FieldsBytes(fields), |before|, parsed) == Fold(fields, parsed)
    decreases |fields|
  {
    hide FieldBytes, FieldAt, Take, FitsWire;
    if fields != [] {
      var f, rest := fields[0], FieldsBytes(fields[1..]);
      FieldRoundTrip(before, f, rest);
      var front := before + FieldBytes(f);
      assert before + FieldsBytes(fields) == front + rest;
      FieldNotEmpty(f);
      if f.Text? {
        ParseUndoesFields(front, fields[1..], parsed);
      } else {
        assert FitsWire(fields[0]);
        NumberFits(f);
        var next := Take(parsed, f.field, f.value);
        if next.Some? {
          ParseUndoesFields(front, fields[1..], next.value);
        }
      }
    }
  }

  lemma FieldNotEmpty(f: Field)
    ensures FieldBytes(f) != []
  {
  }

  lemma NumberFits(f: Field)
    requires f.Number? && FitsWire(f)
    ensures f.value < TWO_TO_64
  {
  }

  // ----- The header.

  function AsciiBytes(s: string): ByteString {
    seq(|s|, i requires 0 <= i < |s| => s[i] as int % 256)
  }

  function KindCode(kind: MediaKind): nat {
    match kind case Image => 2 case Video => 4
  }

  function HeaderFields(kind: MediaKind, frames: U64): seq<Field> {
    [Number(1, MAGIC), Text(2, AsciiBytes(DESCRIPTION)), Number(3, KindCode(kind)), Number(4, VERSION),
     Number(5, FPS), Number(6, WIDTH), Number(7, HEIGHT), Number(8, frames)]
  }

  function Metadata(kind: MediaKind, frames: U64): ByteString {
    FieldsBytes(HeaderFields(kind, frames))
  }

  lemma HeaderFieldsFit(kind: MediaKind, frames: U64)
    ensures forall i :: 0 <= i < |HeaderFields(kind, frames)| ==>
      FitsWire(HeaderFields(kind, frames)[i]) && |FieldBytes(HeaderFields(kind, frames)[i])| <= 64
  {
    hide Varint;
    forall i | 0 <= i < |HeaderFields(kind, frames)|
      ensures FitsWire(HeaderFields(kind, frames)[i]) && |FieldBytes(HeaderFields(kind, frames)[i])| <= 64
    {
      var f := HeaderFields(kind, frames)[i];
      AnyVarintLength(f.field * 8);
      AnyVarintLength(f.field * 8 + 2);
      AnyVarintLength(if f.Number? then f.value else |f.data|);
    }
  }

  lemma AnyVarintLength(value: U64)
    ensures 1 <= |Varint(value)| <= 10
  {
    hide Weight;
    Weights();
    WeightStep(9);
    VarintLength(value, 10);
  }

  lemma {:induction false} FieldsLength(fields: seq<Field>)
    requires forall i :: 0 <= i < |fields| ==> |FieldBytes(fields[i])| <= 64
    ensures |FieldsBytes(fields)| <= 64 * |fields|
  {
    if fields != [] {
      FieldsLength(fields[1..]);
    }
  }

  function Prefix(kind: MediaKind, frames: U64): ByteString {
    MetadataFits(kind, frames);
    U32ToLe(|Metadata(kind, frames)|) + Metadata(kind, frames)
  }

  lemma MetadataFits(kind: MediaKind, frames: U64)
    ensures |Metadata(kind, frames)| <= 512
  {
    hide FieldBytes;
    HeaderFieldsFit(kind, frames);
    FieldsLength(HeaderFields(kind, frames));
  }

  /** The header bytes, length prefix included, built by pushing field after field. */
  method BuildPrefix(kind: MediaKind, frames: U64) returns (out: ByteString)
    ensures out == Prefix(kind, frames)
  {
    hide FieldBytes, FitsWire;
    HeaderFieldsFit(kind, frames);
    MetadataFits(kind, frames);
    var metadata := new Buffer([]);
    var fields := HeaderFields(kind, frames);
    var i := 0;
    while i < |fields|
      invariant i <= |fields| && metadata.data + FieldsBytes(fields[i..]) == FieldsBytes(fields)
    {
      ghost var before := metadata.data;
      PushField(metadata, fields[i]);
      assert fields[i..][1..] == fields[i + 1..];
      ghost var rest := FieldsBytes(fields[i + 1..]);
      assert before + (FieldBytes(fields[i]) + rest) == metadata.data + rest;
      i := i + 1;
    }
    assert fields[i..] == [];
    out := U32ToLe(|metadata.data|) + metadata.data;
  }

  /** The header a blob begins with, if its length fits and its fields parse under the right magic number. */
  function ReadHeader(blob: ByteString): Option<Header> {
    if |blob| < 4 then None
    else
      var length := U32FromLe(blob[..4]);
      if |blob| < 4 + length then None
      else
        var parsed := Parse(blob[4..4 + length], 0, BLANK);
        if parsed.None? || parsed.value.magic != MAGIC then None else Some(parsed.value.header)
  }

  lemma HeaderFold(kind: MediaKind, frames: U64)
    ensures var fields := HeaderFields(kind, frames);
            && (forall i :: 0 <= i < |fields| ==> FitsWire(fields[i]))
            && Fold(fields, BLANK) == Some(Parsed(Header(kind, frames, WIDTH, HEIGHT, FPS), MAGIC))
  {
    var fields := HeaderFields(kind, frames);
    FoldTwo(fields[6..], Parsed(Header(kind, 0, WIDTH, 0, FPS), MAGIC));
    FoldTwo(fields[4..], Parsed(Header(kind, 0, 0, 0, 0), MAGIC));
    FoldTwo(fields[2..], Parsed(Header(Video, 0, 0, 0, 0), MAGIC));
    FoldTwo(fields, BLANK);
  }

  lemma FoldTwo(fields: seq<Field>, parsed: Parsed)
    requires |fields| >= 2 && forall i :: 0 <= i < |fields| ==> FitsWire(fields[i])
    ensures Fold(fields, parsed) ==
            var one := if fields[0].Text? then Some(parsed) else Take(parsed, fields[0].field, fields[0].value);
            if one.None? then None
            else
              var two := if fields[1].Text? then one else Take(one.value, fields[1].field, fields[1].value);
              if two.None? then None else Fold(fields[2..], two.value)
  {
  }

  /** `ReadHeader` undoes `Prefix` for every media kind, frame count and stream behind it. */
  lemma HeaderRoundTrip(kind: MediaKind, frames: U64, stream: ByteString)
    ensures ReadHeader(Prefix(kind, frames) + stream) == Some(Header(kind, frames, WIDTH, HEIGHT, FPS))
  {
    hide FieldsBytes, Fold, Parse, FitsWire, HeaderFields;
    var metadata := Metadata(kind, frames);
    var blob := Prefix(kind, frames) + stream;
    MetadataFits(kind, frames);
    assert blob[..4] == U32ToLe(|metadata|);
    assert blob[4..4 + |metadata|] == metadata;
    HeaderFold(kind, frames);
    ParseWhole(HeaderFields(kind, frames));
  }

  lemma ParseWhole(fields: seq<Field>)
    requires (forall i :: 0 <= i < |fields| ==> FitsWire(fields[i])) && |FieldsBytes(fields)| < TWO_TO_64
    ensures Parse(FieldsBytes(fields), 0, BLANK) == Fold(fields, BLANK)
  {
    hide FieldsBytes, Parse, Fold, FitsWire;
    ParseUndoesFields([], fields, BLANK);
    assert [] + FieldsBytes(fields) == FieldsBytes(fields);
  }

  // ----- Counting access units.

  /** A start code followed by an access unit delimiter, NAL type 9. */
  predicate IsDelimiter(stream: ByteString, i: nat) {
    i + 3 < |stream| && stream[i] == 0 && stream[i + 1] == 0 && stream[i + 2] == 1 && stream[i + 3] % 32 == 9
  }

  /** How many positions from `start` up to `end` hold a delimiter. */
  function Delimiters(stream: ByteString, start: nat, end: nat): nat
    decreases end - start
  {
    if start >= end then 0
    else (if IsDelimiter(stream, start) then 1 else 0) + Delimiters(stream, start + 1, end)
  }

  function AccessUnits(stream: ByteString): nat {
    Delimiters(stream, 0, |stream|)
  }

  /** Skipping a start code's three bytes misses no delimiter, for start codes do not overlap. */
  method CountAccessUnits(stream: ByteString) returns (count: nat)
    ensures count == AccessUnits(stream)
  {
    count := 0;
    var i := 0;
    while i + 3 < |stream|
      invariant count + Delimiters(stream, i, |stream|) == AccessUnits(stream)
    {
      if stream[i] == 0 && stream[i + 1] == 0 && stream[i + 2] == 1 {
        if stream[i + 3] % 32 == 9 {
          count := count + 1;
        }
        assert !IsDelimiter(stream, i + 1) && !IsDelimiter(stream, i + 2);
        assert Delimiters(stream, i + 1, |stream|) == Delimiters(stream, i + 2, |stream|);
        assert Delimiters(stream, i + 2, |stream|) == Delimiters(stream, i + 3, |stream|);
        i := i + 3;
      } else {
        i := i + 1;
      }
    }
    NoneLeft(stream, i);
  }

  lemma {:induction false} NoneLeft(stream: ByteString, start: nat)
    requires start + 3 >= |stream|
    ensures Delimiters(stream, start, |stream|) == 0
    decreases |stream| - start
  {
    if start < |stream| {
      NoneLeft(stream, start + 1);
    }
  }

  lemma {:induction false} DelimitersSplit(stream: ByteString, start: nat, middle: nat, end: nat)
    requires start <= middle <= end
    ensures Delimiters(stream, start, end) == Delimiters(stream, start, middle) + Delimiters(stream, middle, end)
    decreases middle - start
  {
    if start < middle {
      DelimitersSplit(stream, start + 1, middle, end);
    }
  }

  /** Equal windows hold equally many delimiters. */
  lemma {:induction false} DelimitersShift(s: ByteString, t: ByteString, start: nat, end: nat, shift: int)
    requires 0 <= start + shift && start <= end
    requires forall i :: start <= i < end ==> IsDelimiter(s, i) == IsDelimiter(t, i + shift)
    ensures Delimiters(s, start, end) == Delimiters(t, start + shift, end + shift)
    decreases end - start
  {
    if start < end {
      DelimitersShift(s, t, start + 1, end, shift);
    }
  }

  /** Delimiters of a concatenation that span the seam. */
  function Spanning(front: ByteString, back: ByteString): nat {
    Delimiters(front + back, if |front| < 3 then 0 else |front| - 3, |front|)
  }

  /** The count of a concatenation is the parts' counts and the delimiters that span the seam. */
  lemma CountConcat(front: ByteString, back: ByteString)
    ensures AccessUnits(front + back) == AccessUnits(front) + Spanning(front, back) + AccessUnits(back)
  {
    var whole := front + back;
    var seam := if |front| < 3 then 0 else |front| - 3;
    DelimitersSplit(whole, 0, seam, |whole|);
    DelimitersSplit(whole, seam, |front|, |whole|);
    DelimitersSplit(front, 0, seam, |front|);
    DelimitersShift(front, whole, 0, seam, 0);
    DelimitersShift(back, whole, 0, |back|, |front|);
    NoneLeft(front, seam);
  }

  /** No delimiter spans a seam whose second part begins with two zero bytes. */
  lemma ZeroesKeepSeam(front: ByteString, back: ByteString)
    requires |back| >= 2 && back[0] == 0 && back[1] == 0
    ensures Spanning(front, back) == 0
  {
    var whole := front + back;
    var n := |front|;
    assert whole[n] == 0 && whole[n + 1] == 0;
    assert Delimiters(whole, n, n) == 0;
    assert n >= 1 ==> !IsDelimiter(whole, n - 1) && Delimiters(whole, n - 1, n) == 0;
    assert n >= 2 ==> !IsDelimiter(whole, n - 2) && Delimiters(whole, n - 2, n) == 0;
    assert n >= 3 ==> !IsDelimiter(whole, n - 3) && Delimiters(whole, n - 3, n) == 0;
  }

  predicate IsUnit(unit: ByteString) {
    |unit| >= 2 && unit[0] == 0 && unit[1] == 0 && AccessUnits(unit) == 1
  }

  /** A stream of units that each hold one delimiter counts as many frames as it has units. */
  lemma {:induction false} CountUnits(units: seq<ByteString>)
    requires forall i :: 0 <= i < |units| ==> IsUnit(units[i])
    ensures AccessUnits(Flatten(units)) == |units|
    decreases |units|
  {
    hide AccessUnits, Spanning;
    if units == [] {
      NothingCounted();
    } else {
      var last := |units| - 1;
      CountUnits(units[..last]);
      assert units == units[..last] + [units[last]];
      FlattenAppend(units[..last], [units[last]]);
      assert Flatten([units[last]]) == units[last];
      CountConcat(Flatten(units[..last]), units[last]);
      ZeroesKeepSeam(Flatten(units[..last]), units[last]);
    }
  }

  lemma NothingCounted()
    ensures AccessUnits([]) == 0
  {
  }

  datatype WrapError = EmptyStream | NoDelimiters | ImageNeedsOneFrame(found: nat)

  /** Puts the header before the stream; says how many frames it announced. */
  method Wrap(stream: ByteString, kind: MediaKind) returns (result: Result<(ByteString, nat), WrapError>)
    requires |stream| < TWO_TO_64
    ensures result.Ok? <==> AccessUnits(stream) > 0 && (kind.Image? ==> AccessUnits(stream) == 1)
    ensures result.Ok? ==>
      var (blob, frames) := result.value;
      && frames == AccessUnits(stream)
      && frames < TWO_TO_64
      && blob == Prefix(kind, frames) + stream
      && ReadHeader(blob) == Some(Header(kind, frames, WIDTH, HEIGHT, FPS))
  {
    hide Prefix, ReadHeader, AccessUnits;
    var frames := CountAccessUnits(stream);
    CountBounded(stream);
    if stream == [] {
      NothingCounted();
      return Err(EmptyStream);
    }
    if frames == 0 {
      return Err(NoDelimiters);
    }
    if kind.Image? && frames != 1 {
      return Err(ImageNeedsOneFrame(frames));
    }
    var blob := BuildPrefix(kind, frames);
    HeaderRoundTrip(kind, frames, stream);
    return Ok((blob + stream, frames));
  }

  lemma CountBounded(stream: ByteString)
    ensures AccessUnits(stream) <= |stream|
  {
    DelimitersBounded(stream, 0);
  }

  lemma {:induction false} DelimitersBounded(stream: ByteString, start: nat)
    requires start <= |stream|
    ensures Delimiters(stream, start, |stream|) <= |stream| - start
    decreases |stream| - start
  {
    if start < |stream| {
      DelimitersBounded(stream, start + 1);
    }
  }

  // ----- What else is read, and what is refused.

  /** A blob whose header is any list of fields reads as their sum, if it has the right magic number, whatever follows. */
  lemma ReadHeaderOf(fields: seq<Field>, stream: ByteString)
    requires (forall i :: 0 <= i < |fields| ==> FitsWire(fields[i])) && |FieldsBytes(fields)| < 0x1_0000_0000
    ensures var blob, sum := U32ToLe(|FieldsBytes(fields)|) + FieldsBytes(fields) + stream, Fold(fields, BLANK);
      ReadHeader(blob) == if sum.Some? && sum.value.magic == 0x4D58_4844 then Some(sum.value.header) else None
  {
    hide FieldsBytes, Fold, Parse, FitsWire;
    var metadata := FieldsBytes(fields);
    var blob := U32ToLe(|metadata|) + metadata + stream;
    assert blob[..4] == U32ToLe(|metadata|);
    assert blob[4..4 + |metadata|] == metadata;
    ParseWhole(fields);
  }

  /** A blob shorter than its header is refused. */
  lemma CutHeaderRefused(metadata: ByteString, cut: nat)
    requires |metadata| < 0x1_0000_0000 && cut < 4 + |metadata|
    ensures ReadHeader((U32ToLe(|metadata|) + metadata)[..cut]).None?
  {
    var blob := (U32ToLe(|metadata|) + metadata)[..cut];
    if |blob| >= 4 {
      assert blob[..4] == U32ToLe(|metadata|);
    }
  }

  /** An unknown kind is refused wherever it comes, a later field of the same number wins, and other numbers are passed over. */
  lemma FoldMeans(field: nat, value: U64, parsed: Parsed)
    ensures Take(parsed, field, value).None? <==> field == 3 && value !in {2, 4}
    ensures Take(parsed, field, value).Some? ==>
      var after := Take(parsed, field, value).value;
      && after.magic == (if field == 1 then value else parsed.magic)
      && after.header.kind == (if field == 3 then (if value == 2 then Image else Video) else parsed.header.kind)
      && after.header.fps == (if field == 5 then value else parsed.header.fps)
      && after.header.width == (if field == 6 then value else parsed.header.width)
      && after.header.height == (if field == 7 then value else parsed.header.height)
      && after.header.frames == (if field == 8 then value else parsed.header.frames)
  {
  }

  lemma SmallVarint(value: nat)
    ensures value < 128 ==> Varint(value) == [value]
    ensures 128 <= value < 16_384 ==> Varint(value) == [value % 128 + 128, value / 128]
  {
  }

  lemma MagicVarint()
    ensures Varint(MAGIC) == [0xC4, 0x90, 0xE1, 0xEA, 0x04]
  {
    assert Varint(0x4) == [0x04];
    assert Varint(0x26A) == [0xEA, 0x04];
    assert Varint(0x1_3561) == [0xE1, 0xEA, 0x04];
    assert Varint(0x9A_B090) == [0x90, 0xE1, 0xEA, 0x04];
  }

  /** The header of an image of one frame, byte for byte as the vendor writes it. */
  lemma ImageHeaderBytes()
    ensures Prefix(Image, 1) ==
      [0x41, 0, 0, 0, 0x08, 0xC4, 0x90, 0xE1, 0xEA, 0x04, 0x12, 0x2B] + AsciiBytes(DESCRIPTION)
      + [0x18, 0x02, 0x20, 0x01, 0x28, 0x1E, 0x30, 0x80, 0x0A, 0x38, 0xD0, 0x05, 0x40, 0x01]
  {
    hide Varint, AsciiBytes, FieldsBytes, U32ToLe;
    FirstFields();
    LastFields();
    var fields := HeaderFields(Image, 1);
    FieldsAppend(fields[..2], fields[2..]);
    assert fields == fields[..2] + fields[2..];
    LengthField();
  }

  lemma LengthField()
    ensures U32ToLe(65) == [0x41, 0, 0, 0]
  {
  }

  lemma FirstFields()
    ensures |AsciiBytes(DESCRIPTION)| == 43
    ensures FieldsBytes(HeaderFields(Image, 1)[..2])
            == [0x08, 0xC4, 0x90, 0xE1, 0xEA, 0x04, 0x12, 0x2B] + AsciiBytes(DESCRIPTION)
  {
    hide Varint;
    MagicVarint();
    SmallVarint(8);
    SmallVarint(18);
    SmallVarint(43);
    var fields := HeaderFields(Image, 1)[..2];
    assert fields == [Number(1, MAGIC), Text(2, AsciiBytes(DESCRIPTION))];
    assert FieldsBytes(fields[1..]) == FieldBytes(fields[1]) + FieldsBytes(fields[1..][1..]);
  }

  lemma LastFields()
    ensures FieldsBytes(HeaderFields(Image, 1)[2..])
            == [0x18, 0x02, 0x20, 0x01, 0x28, 0x1E, 0x30, 0x80, 0x0A, 0x38, 0xD0, 0x05, 0x40, 0x01]
  {
    hide FieldBytes, FieldsBytes;
    var fields := HeaderFields(Image, 1)[2..];
    assert fields == [Number(3, 2), Number(4, 1), Number(5, 30), Number(6, 1280), Number(7, 720), Number(8, 1)];
    FieldsAppend(fields[..3], fields[3..]);
    assert fields == fields[..3] + fields[3..];
    ThreeFields(fields[..3]);
    ThreeFields(fields[3..]);
    NumberBytes(3, 2);
    NumberBytes(4, 1);
    NumberBytes(5, 30);
    NumberBytes(6, 1280);
    NumberBytes(7, 720);
    NumberBytes(8, 1);
  }

  lemma NumberBytes(field: nat, value: nat)
    requires field < 16
    ensures value < 128 ==> FieldBytes(Number(field, value)) == [field * 8, value]
    ensures 128 <= value < 16_384 ==> FieldBytes(Number(field, value)) == [field * 8, value % 128 + 128, value / 128]
  {
    hide Varint;
    SmallVarint(field * 8);
    SmallVarint(value);
  }

  lemma ThreeFields(fields: seq<Field>)
    requires |fields| == 3
    ensures FieldsBytes(fields) == FieldBytes(fields[0]) + FieldBytes(fields[1]) + FieldBytes(fields[2])
  {
    assert fields[1..][1..] == [fields[2]];
    assert FieldsBytes([fields[2]]) == FieldBytes(fields[2]) + FieldsBytes([fields[2]][1..]);
  }

  lemma {:induction false} FieldsAppend(front: seq<Field>, back: seq<Field>)
    ensures FieldsBytes(front + back) == FieldsBytes(front) + FieldsBytes(back)
  {
    if front == [] {
      assert front + back == back;
    } else {
      assert (front + back)[1..] == front[1..] + back;
      FieldsAppend(front[1..], back);
    }
  }
}
