/** Byte-stuffed frames of the legacy protocol, and the second codec written against them. */
module LegacyFrame {
  import opened Bytes

  const FRAME_MARKER: Byte := 0x5A
  const ESCAPE_MARKER: Byte := 0x5B
  const ESCAPED_FRAME_MARKER: Byte := 0x01
  const ESCAPED_ESCAPE_MARKER: Byte := 0x02
  const FRAMING_OVERHEAD := 5

  /** The checksum: all bytes added up, the carries dropped. */
  function Crc8(data: ByteString): Byte {
    if data == [] then 0 else (Crc8(data[..|data| - 1]) + data[|data| - 1] as int) % 256
  }

  function EscapeByte(byte: Byte): ByteString {
    if byte == FRAME_MARKER then [ESCAPE_MARKER, ESCAPED_FRAME_MARKER]
    else if byte == ESCAPE_MARKER then [ESCAPE_MARKER, ESCAPED_ESCAPE_MARKER]
    else [byte]
  }

  function Escaped(data: ByteString): ByteString {
    if data == [] then [] else EscapeByte(data[0]) + Escaped(data[1..])
  }

  /** Undoes the stuffing; an escape byte before any other byte stays. */
  function Unescaped(data: ByteString): ByteString {
    if data == [] then []
    else if data[0] == ESCAPE_MARKER && |data| > 1 && data[1] == ESCAPED_FRAME_MARKER then
      [FRAME_MARKER] + Unescaped(data[2..])
    else if data[0] == ESCAPE_MARKER && |data| > 1 && data[1] == ESCAPED_ESCAPE_MARKER then
      [ESCAPE_MARKER] + Unescaped(data[2..])
    else [data[0]] + Unescaped(data[1..])
  }

  lemma EscapedStep(data: ByteString, i: nat)
    requires i < |data|
    ensures Escaped(data[i..]) == EscapeByte(data[i]) + Escaped(data[i + 1..])
  {
  }

  method Escape(data: ByteString) returns (out: ByteString)
    ensures out == Escaped(data)
  {
    hide Escaped;
    out := [];
    var i := 0;
    while i < |data|
      invariant i <= |data| && out + Escaped(data[i..]) == Escaped(data)
    {
      EscapedStep(data, i);
      ghost var rest := Escaped(data[i + 1..]);
      assert out + (EscapeByte(data[i]) + rest) == out + EscapeByte(data[i]) + rest;
      if data[i] == FRAME_MARKER {
        out := out + [ESCAPE_MARKER, ESCAPED_FRAME_MARKER];
      } else if data[i] == ESCAPE_MARKER {
        out := out + [ESCAPE_MARKER, ESCAPED_ESCAPE_MARKER];
      } else {
        out := out + [data[i]];
      }
      i := i + 1;
    }
    NothingStuffed(data[i..]);
  }

  lemma NothingStuffed(data: ByteString)
    requires data == []
    ensures Escaped(data) == [] && Unescaped(data) == []
  {
  }

  /** The byte an unstuffing step puts out, and how many bytes it takes in. */
  function UnescapeStep(data: ByteString, index: nat): (Byte, nat)
    requires index < |data|
  {
    if data[index] == ESCAPE_MARKER && index + 1 < |data| && data[index + 1] == ESCAPED_FRAME_MARKER then (FRAME_MARKER, 2)
    else if data[index] == ESCAPE_MARKER && index + 1 < |data| && data[index + 1] == ESCAPED_ESCAPE_MARKER then (ESCAPE_MARKER, 2)
    else (data[index], 1)
  }

  lemma UnescapedStep(data: ByteString, index: nat)
    requires index < |data|
    ensures var (byte, taken) := UnescapeStep(data, index);
            index + taken <= |data| && Unescaped(data[index..]) == [byte] + Unescaped(data[index + taken..])
  {
  }

  method Unescape(data: ByteString) returns (out: ByteString)
    ensures out == Unescaped(data)
  {
    hide Unescaped;
    out := [];
    var index := 0;
    while index < |data|
      invariant 0 <= index <= |data| && out + Unescaped(data[index..]) == Unescaped(data)
    {
      UnescapedStep(data, index);
      ghost var (byte, taken) := UnescapeStep(data, index);
      ghost var rest := Unescaped(data[index + taken..]);
      assert out + ([byte] + rest) == out + [byte] + rest;
      if data[index] == ESCAPE_MARKER && index + 1 < |data| {
        if data[index + 1] == ESCAPED_FRAME_MARKER {
          out := out + [FRAME_MARKER];
          index := index + 2;
          continue;
        }
        if data[index + 1] == ESCAPED_ESCAPE_MARKER {
          out := out + [ESCAPE_MARKER];
          index := index + 2;
          continue;
        }
      }
      out := out + [data[index]];
      index := index + 1;
    }
    NothingStuffed(data[index..]);
  }

  /** Unstuffing undoes stuffing; stuffed data holds no frame marker and is at most twice as long. */
  lemma {:induction false} StuffingRoundTrip(data: ByteString)
    ensures Unescaped(Escaped(data)) == data
    ensures FRAME_MARKER !in Escaped(data)
    ensures |data| <= |Escaped(data)| <= 2 * |data|
  {
    if data != [] {
      StuffingRoundTrip(data[1..]);
      var rest := Escaped(data[1..]);
      var first := EscapeByte(data[0]);
      assert (first + rest)[|first|..] == rest;
    }
  }

  // ----- Framing.

  function U16ToBe(n: nat): ByteString
    requires n < 0x1_0000
  {
    [n / 256, n % 256]
  }

  function Raw(text: ByteString): ByteString
    requires |text| + FRAMING_OVERHEAD < 0x1_0000
  {
    var payload := U16ToBe(|text| + FRAMING_OVERHEAD) + text;
    payload + [Crc8(payload)]
  }

  function Framed(text: ByteString): ByteString
    requires |text| + FRAMING_OVERHEAD < 0x1_0000
  {
    [FRAME_MARKER] + Escaped(Raw(text)) + [FRAME_MARKER]
  }

  datatype RequestTooLong = RequestTooLong(length: nat)

  /** The frame of a text, or its length if that cannot be announced in 16 bits. */
  method Wrap(text: ByteString) returns (frame: Result<ByteString, RequestTooLong>)
    ensures if |text| + FRAMING_OVERHEAD < 0x1_0000 then frame == Ok(Framed(text))
            else frame == Err(RequestTooLong(|text|))
  {
    if |text| + FRAMING_OVERHEAD >= 0x1_0000 {
      return Err(RequestTooLong(|text|));
    }
    var raw := U16ToBe(|text| + FRAMING_OVERHEAD);
    raw := raw + text;
    raw := raw + [Crc8(raw)];
    var stuffed := Escape(raw);
    return Ok([FRAME_MARKER] + stuffed + [FRAME_MARKER]);
  }

  /** What the two sides read out of an unstuffed frame. */
  datatype Contents = Contents(text: ByteString, checksumOk: bool, lengthOk: bool)

  function Inspect(raw: ByteString): Option<Contents> {
    if |raw| < 3 then None
    else
      var payload := raw[..|raw| - 1];
      var text := payload[2..];
      Some(Contents(text, Crc8(payload) == raw[|raw| - 1], payload[0] * 256 + payload[1] as int == |text| + FRAMING_OVERHEAD))
  }

  function Opened(frame: ByteString): Option<Contents> {
    if |frame| < 4 || frame[0] != FRAME_MARKER || frame[|frame| - 1] != FRAME_MARKER then None
    else Inspect(Unescaped(frame[1..|frame| - 1]))
  }

  /** A framed text is read back with its length and checksum good. */
  lemma FramedOpens(text: ByteString)
    requires |text| + FRAMING_OVERHEAD < 0x1_0000
    ensures Opened(Framed(text)) == Some(Contents(text, true, true))
  {
    var raw := Raw(text);
    StuffingRoundTrip(raw);
    var frame := Framed(text);
    assert frame[1..|frame| - 1] == Escaped(raw);
    assert raw[..|raw| - 1] == U16ToBe(|text| + FRAMING_OVERHEAD) + text;
    assert raw[..|raw| - 1][2..] == text;
  }

  function Sum(data: ByteString): nat {
    if data == [] then 0 else Sum(data[..|data| - 1]) + data[|data| - 1]
  }

  lemma {:induction false} CrcIsSum(data: ByteString)
    ensures Crc8(data) == Sum(data) % 256
  {
    if data != [] {
      CrcIsSum(data[..|data| - 1]);
      CrcStep(Sum(data[..|data| - 1]), data[|data| - 1]);
    }
  }

  lemma CrcStep(sum: nat, byte: Byte)
    ensures (sum % 256 + byte as int) % 256 == (sum + byte as int) % 256
  {
  }

  lemma {:induction false} SumOfUpdate(data: ByteString, i: nat, byte: Byte)
    requires i < |data|
    ensures Sum(data[i := byte]) + data[i] as int == Sum(data) + byte as int
    decreases |data|
  {
    var last := |data| - 1;
    if i < last {
      SumOfUpdate(data[..last], i, byte);
      assert data[i := byte][..last] == data[..last][i := byte];
    } else {
      assert data[i := byte][..last] == data[..last];
    }
  }

  lemma CrcOfUpdate(data: ByteString, i: nat, byte: Byte)
    requires i < |data| && byte != data[i]
    ensures Crc8(data[i := byte]) != Crc8(data)
  {
    hide Crc8, Sum;
    SumOfUpdate(data, i, byte);
    CrcIsSum(data);
    CrcIsSum(data[i := byte]);
  }

  /** Changing any single byte of the length or text makes the checksum fail. */
  lemma OneByteChangeDetected(text: ByteString, i: nat, byte: Byte)
    requires |text| + FRAMING_OVERHEAD < 0x1_0000 && i < |text| + 2 && byte != Raw(text)[i]
    ensures Inspect(Raw(text)[i := byte]).Some? && !Inspect(Raw(text)[i := byte]).value.checksumOk
  {
    var raw := Raw(text);
    var payload := raw[..|raw| - 1];
    assert raw[i := byte][..|raw| - 1] == payload[i := byte];
    CrcOfUpdate(payload, i, byte);
  }

  // ----- Reassembly.

  function Markers(data: ByteString): nat {
    multiset(data)[FRAME_MARKER]
  }

  function FindMarker(data: ByteString): Option<nat> {
    Find(data, [FRAME_MARKER])
  }

  /** The first frame of a stream and what follows it. */
  function FirstFrame(stream: ByteString): (first: Option<(ByteString, ByteString)>)
    ensures first.Some? ==> |first.value.1| < |stream|
  {
    var start := FindMarker(stream);
    if start.None? then None
    else
      var end := FindMarker(stream[start.value + 1..]);
      if end.None? then None
      else Some((stream[start.value..start.value + end.value + 2], stream[start.value + end.value + 2..]))
  }

  /** Splits off the first delimited run; noise before it goes too. */
  method TakeFrame(buffer: Buffer) returns (frame: Option<ByteString>)
    modifies buffer
    ensures var first := FirstFrame(old(buffer.data));
            if first.None? then frame == None && buffer.data == old(buffer.data)
            else frame == Some(first.value.0) && buffer.data == first.value.1
  {
    var start := FindMarker(buffer.data);
    if start.None? {
      return None;
    }
    var offset := FindMarker(buffer.data[start.value + 1..]);
    if offset.None? {
      return None;
    }
    var end := start.value + 1 + offset.value;
    frame := Some(buffer.data[start.value..end + 1]);
    buffer.data := buffer.data[end + 1..];
  }

  datatype Reassembled = Reassembled(frames: seq<ByteString>, left: ByteString)

  function Reassemble(stream: ByteString): Reassembled
    decreases |stream|
  {
    var first := FirstFrame(stream);
    if first.None? then Reassembled([], stream)
    else
      var rest := Reassemble(first.value.1);
      Reassembled([first.value.0] + rest.frames, rest.left)
  }

  /** Taking frames until none is whole, as both ends do after each read. */
  method TakeAll(buffer: Buffer) returns (frames: seq<ByteString>)
    modifies buffer
    ensures Reassembled(frames, buffer.data) == Reassemble(old(buffer.data))
  {
    hide FirstFrame;
    frames := [];
    ghost var start := buffer.data;
    while true
      invariant Reassemble(start) ==
        var rest := Reassemble(buffer.data); Reassembled(frames + rest.frames, rest.left)
      decreases |buffer.data|
    {
      var frame := TakeFrame(buffer);
      if frame.None? {
        return;
      }
      ghost var rest := Reassemble(buffer.data).frames;
      assert frames + ([frame.value] + rest) == frames + [frame.value] + rest;
      frames := frames + [frame.value];
    }
  }

  lemma MarkerFound(stream: ByteString, at: nat)
    requires at < |stream| && stream[at] == FRAME_MARKER && FRAME_MARKER !in stream[..at]
    ensures FindMarker(stream) == Some(at)
  {
    assert OccursAt(stream, [FRAME_MARKER], at);
    forall k: nat | k < at ensures !OccursAt(stream, [FRAME_MARKER], k) {
      assert stream[..at][k] == stream[k..k + 1][0];
    }
  }

  lemma MarkerFoundMeans(stream: ByteString)
    ensures FindMarker(stream).Some? ==>
      var at := FindMarker(stream).value;
      at < |stream| && stream[at] == FRAME_MARKER && FRAME_MARKER !in stream[..at]
    ensures FindMarker(stream).None? ==> FRAME_MARKER !in stream
  {
    var found := FindMarker(stream);
    if found.Some? {
      var at := found.value;
      assert stream[at..at + 1][0] == stream[at];
      forall k | 0 <= k < at ensures stream[k] != FRAME_MARKER {
        assert !OccursAt(stream, [FRAME_MARKER], k);
      }
    } else {
      forall k | 0 <= k < |stream| ensures stream[k] != FRAME_MARKER {
        assert !OccursAt(stream, [FRAME_MARKER], k);
      }
    }
  }

  /** A stream has a first frame exactly when it is marker-free noise, a delimited run, and a rest. */
  lemma FirstFrameIs(stream: ByteString, noise: ByteString, inner: ByteString, rest: ByteString)
    requires FRAME_MARKER !in noise && FRAME_MARKER !in inner
    requires stream == noise + [FRAME_MARKER] + inner + [FRAME_MARKER] + rest
    ensures FirstFrame(stream) == Some(([FRAME_MARKER] + inner + [FRAME_MARKER], rest))
  {
    assert stream[..|noise|] == noise;
    MarkerFound(stream, |noise|);
    var tail := stream[|noise| + 1..];
    assert tail == inner + [FRAME_MARKER] + rest;
    assert tail[..|inner|] == inner;
    MarkerFound(tail, |inner|);
    var frame := [FRAME_MARKER] + inner + [FRAME_MARKER];
    assert stream == noise + frame + rest;
    assert stream[|noise|..|noise| + |frame|] == frame;
    assert stream[|noise| + |frame|..] == rest;
  }

  lemma FirstFrameSplits(stream: ByteString) returns (noise: ByteString, inner: ByteString)
    requires FirstFrame(stream).Some?
    ensures FRAME_MARKER !in noise && FRAME_MARKER !in inner
    ensures var (frame, rest) := FirstFrame(stream).value;
            frame == [FRAME_MARKER] + inner + [FRAME_MARKER] && stream == noise + frame + rest
  {
    MarkerFoundMeans(stream);
    var start := FindMarker(stream).value;
    var tail := stream[start + 1..];
    MarkerFoundMeans(tail);
    var end := FindMarker(tail).value;
    noise, inner := stream[..start], tail[..end];
    var (frame, rest) := FirstFrame(stream).value;
    assert tail[end] == stream[start + 1 + end];
    assert frame == [FRAME_MARKER] + inner + [FRAME_MARKER];
    assert noise + frame == stream[..start + end + 2];
  }

  lemma FirstFrameExtends(stream: ByteString, more: ByteString)
    requires FirstFrame(stream).Some?
    ensures FirstFrame(stream + more) == Some((FirstFrame(stream).value.0, FirstFrame(stream).value.1 + more))
  {
    hide FirstFrame;
    var noise, inner := FirstFrameSplits(stream);
    var rest := FirstFrame(stream).value.1;
    assert stream + more == noise + [FRAME_MARKER] + inner + [FRAME_MARKER] + (rest + more);
    FirstFrameIs(stream + more, noise, inner, rest + more);
  }

  /** Cutting the stream changes nothing: reassembly goes on from what it left. */
  lemma {:induction false} ReassembleCut(stream: ByteString, more: ByteString)
    ensures var first := Reassemble(stream);
            var next := Reassemble(first.left + more);
            Reassemble(stream + more) == Reassembled(first.frames + next.frames, next.left)
    decreases |stream|
  {
    hide FirstFrame;
    if FirstFrame(stream).Some? {
      FirstFrameExtends(stream, more);
      ReassembleCut(FirstFrame(stream).value.1, more);
    }
  }

  /** Feeding a stream piece by piece. */
  function ReassemblePieces(left: ByteString, pieces: seq<ByteString>): Reassembled
    decreases |pieces|
  {
    if pieces == [] then Reassemble(left)
    else
      var now := Reassemble(left);
      var next := ReassemblePieces(now.left + pieces[0], pieces[1..]);
      Reassembled(now.frames + next.frames, next.left)
  }

  lemma {:induction false} ReassembleAnyCuts(left: ByteString, pieces: seq<ByteString>)
    ensures ReassemblePieces(left, pieces) == Reassemble(left + Flatten(pieces))
    decreases |pieces|
  {
    hide Reassemble;
    if pieces == [] {
      assert left + Flatten(pieces) == left;
    } else {
      var now := Reassemble(left);
      ReassembleAnyCuts(now.left + pieces[0], pieces[1..]);
      assert now.left + pieces[0] + Flatten(pieces[1..]) == now.left + Flatten(pieces);
      ReassembleCut(left, Flatten(pieces));
    }
  }

  predicate IsFrame(frame: ByteString) {
    && |frame| >= 2 && frame[0] == FRAME_MARKER && frame[|frame| - 1] == FRAME_MARKER
    && FRAME_MARKER !in frame[1..|frame| - 1]
  }

  lemma FramedIsFrame(text: ByteString)
    requires |text| + FRAMING_OVERHEAD < 0x1_0000
    ensures IsFrame(Framed(text))
  {
    StuffingRoundTrip(Raw(text));
    assert Framed(text)[1..|Framed(text)| - 1] == Escaped(Raw(text));
  }

  predicate AllFrames(frames: seq<ByteString>) {
    forall i :: 0 <= i < |frames| ==> IsFrame(frames[i])
  }

  lemma {:induction false} ReassembleFrames(noise: ByteString, frames: seq<ByteString>)
    requires FRAME_MARKER !in noise && AllFrames(frames)
    ensures Reassemble(noise + Flatten(frames)) ==
            if frames == [] then Reassembled([], noise) else Reassembled(frames, [])
    decreases |frames|
  {
    hide FirstFrame;
    var stream := noise + Flatten(frames);
    if frames == [] {
      assert stream == noise;
      NoFirstFrame(stream);
    } else {
      var frame, rest := frames[0], Flatten(frames[1..]);
      var inner := frame[1..|frame| - 1];
      assert frame == [FRAME_MARKER] + inner + [FRAME_MARKER];
      assert stream == noise + [FRAME_MARKER] + inner + [FRAME_MARKER] + rest;
      FirstFrameIs(stream, noise, inner, rest);
      assert [] + rest == rest;
      ReassembleFrames([], frames[1..]);
    }
  }

  lemma NoFirstFrame(stream: ByteString)
    requires FRAME_MARKER !in stream
    ensures FirstFrame(stream).None?
  {
    MarkerFoundMeans(stream);
  }

  lemma MarkersOfConcat(a: ByteString, b: ByteString)
    ensures Markers(a + b) == Markers(a) + Markers(b)
  {
  }

  lemma MarkersOfFrame(inner: ByteString)
    requires FRAME_MARKER !in inner
    ensures Markers([FRAME_MARKER] + inner + [FRAME_MARKER]) == 2
  {
  }

  /** Reassembly uses up markers in pairs. */
  lemma {:induction false} MarkersPair(stream: ByteString)
    ensures Markers(stream) == 2 * |Reassemble(stream).frames| + Markers(Reassemble(stream).left)
    decreases |stream|
  {
    hide Markers, FirstFrame;
    if FirstFrame(stream).Some? {
      var noise, inner := FirstFrameSplits(stream);
      var (frame, rest) := FirstFrame(stream).value;
      MarkersPair(rest);
      MarkersOfConcat(noise + frame, rest);
      MarkersOfConcat(noise, frame);
      MarkersOfFrame(inner);
      NoMarkers(noise);
    }
  }

  lemma NoMarkers(data: ByteString)
    ensures Markers(data) == 0 <==> FRAME_MARKER !in data
  {
  }

  lemma {:induction false} MarkersOfFrames(frames: seq<ByteString>)
    requires AllFrames(frames)
    ensures Markers(Flatten(frames)) == 2 * |frames|
    decreases |frames|
  {
    hide Markers;
    if frames == [] {
      NoMarkers(Flatten(frames));
    } else {
      var frame := frames[0];
      MarkersOfFrames(frames[1..]);
      MarkersOfConcat(frame, Flatten(frames[1..]));
      MarkersOfFrame(frame[1..|frame| - 1]);
      assert frame == [FRAME_MARKER] + frame[1..|frame| - 1] + [FRAME_MARKER];
    }
  }

  /** Exactly marker-free noise ahead of the frames lets them all through and leaves the buffer empty. */
  lemma NoiseHarmlessIff(noise: ByteString, frames: seq<ByteString>, pieces: seq<ByteString>)
    requires frames != [] && AllFrames(frames) && Flatten(pieces) == noise + Flatten(frames)
    ensures ReassemblePieces([], pieces) == Reassembled(frames, []) <==> FRAME_MARKER !in noise
  {
    hide Reassemble, Markers, AllFrames;
    var stream := noise + Flatten(frames);
    assert [] + Flatten(pieces) == stream;
    ReassembleAnyCuts([], pieces);
    if FRAME_MARKER !in noise {
      ReassembleFrames(noise, frames);
    }
    MarkersPair(stream);
    MarkersOfConcat(noise, Flatten(frames));
    MarkersOfFrames(frames);
    NoMarkers(noise);
    NoMarkers([]);
  }

  /** What is read out of an unstuffed frame: its text, whether the bytes add up, and whether the length is the text's. */
  lemma InspectMeans(raw: ByteString)
    ensures Inspect(raw).Some? <==> |raw| >= 3
    ensures |raw| >= 3 ==>
      var c, last := Inspect(raw).value, |raw| - 1;
      && c.text == raw[2..last]
      && (c.checksumOk <==> Sum(raw[..last]) % 256 == raw[last])
      && (c.lengthOk <==> 256 * raw[0] + raw[1] as int == |raw| + 2)
  {
    if |raw| >= 3 {
      CrcIsSum(raw[..|raw| - 1]);
      assert raw[..|raw| - 1][2..] == raw[2..|raw| - 1];
    }
  }

  /** A frame is opened exactly when it has markers at both ends and three bytes or more between them, unstuffed. */
  lemma OpenedIff(frame: ByteString)
    ensures Opened(frame).Some? <==>
      && |frame| >= 4 && frame[0] == 0x5A && frame[|frame| - 1] == 0x5A && |Unescaped(frame[1..|frame| - 1])| >= 3
  {
    hide Unescaped;
  }
}
