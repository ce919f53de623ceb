/** The peer's codec for the same frames, written independently, and its agreement with the first. */
module LegacyPeer {
  import opened Bytes
  import opened LegacyFrame

  /** Stuffs the text with its length and checksum between markers, byte after byte. */
  method Encode(text: ByteString) returns (wire: ByteString)
    requires |text| + 5 < 0x1_0000
    ensures wire == Framed(text)
  {
    var raw := U16ToBe(|text| + 5);
    raw := raw + text;
    raw := raw + [Crc8(raw)];
    assert raw == Raw(text);
    wire := [FRAME_MARKER];
    hide Raw, Escaped;
    var i := 0;
    while i < |raw|
      invariant i <= |raw| && wire + Escaped(raw[i..]) == [FRAME_MARKER] + Escaped(raw)
    {
      EscapedStep(raw, i);
      ghost var rest := Escaped(raw[i + 1..]);
      assert wire + (EscapeByte(raw[i]) + rest) == wire + EscapeByte(raw[i]) + rest;
      if raw[i] == FRAME_MARKER {
        wire := wire + [ESCAPE_MARKER, 0x01];
      } else if raw[i] == ESCAPE_MARKER {
        wire := wire + [ESCAPE_MARKER, 0x02];
      } else {
        wire := wire + [raw[i]];
      }
      i := i + 1;
    }
    NothingStuffed(raw[i..]);
    wire := wire + [FRAME_MARKER];
  }

  /** The peer unstuffs in pairs: an escape byte always takes the byte after it along. */
  function Unpaired(data: ByteString): ByteString {
    if data == [] then []
    else if data[0] != ESCAPE_MARKER then [data[0]] + Unpaired(data[1..])
    else if |data| == 1 then [ESCAPE_MARKER]
    else if data[1] == 0x01 then [FRAME_MARKER] + Unpaired(data[2..])
    else if data[1] == 0x02 then [ESCAPE_MARKER] + Unpaired(data[2..])
    else [ESCAPE_MARKER, data[1]] + Unpaired(data[2..])
  }

  /** One step of the scan, which looks at one byte, or at two behind an escape byte. */
  lemma UnpairedStep(data: ByteString)
    requires data != []
    ensures Unpaired(data) ==
      if data[0] != ESCAPE_MARKER || |data| == 1 then [data[0]] + Unpaired(data[1..])
      else
        var other := data[1..][0];
        (if other == 0x01 then [FRAME_MARKER] else if other == 0x02 then [ESCAPE_MARKER] else [ESCAPE_MARKER, other])
        + Unpaired(data[1..][1..])
  {
    if |data| > 1 {
      assert data[1..][1..] == data[2..];
    } else {
      assert Unpaired(data[1..]) == [];
    }
  }

  lemma PieceMoves(front: ByteString, piece: ByteString, back: ByteString)
    ensures front + (piece + back) == front + piece + back
  {
  }

  lemma NothingPaired(data: ByteString)
    requires data == []
    ensures Unpaired(data) == []
  {
  }

  method Unpair(data: ByteString) returns (raw: ByteString)
    ensures raw == Unpaired(data)
  {
    hide Unpaired;
    raw := [];
    var rest := data;
    assert raw + Unpaired(rest) == Unpaired(data);
    while rest != []
      invariant raw + Unpaired(rest) == Unpaired(data)
      decreases |rest|
    {
      UnpairedStep(rest);
      var byte := rest[0];
      rest := rest[1..];
      if byte != ESCAPE_MARKER {
        PieceMoves(raw, [byte], Unpaired(rest));
        raw := raw + [byte];
        continue;
      }
      if rest == [] {
        PieceMoves(raw, [ESCAPE_MARKER], Unpaired(rest));
        raw := raw + [ESCAPE_MARKER];
        continue;
      }
      var other := rest[0];
      rest := rest[1..];
      if other == 0x01 {
        PieceMoves(raw, [FRAME_MARKER], Unpaired(rest));
        raw := raw + [FRAME_MARKER];
      } else if other == 0x02 {
        PieceMoves(raw, [ESCAPE_MARKER], Unpaired(rest));
        raw := raw + [ESCAPE_MARKER];
      } else {
        PieceMoves(raw, [ESCAPE_MARKER, other], Unpaired(rest));
        raw := raw + [ESCAPE_MARKER, other];
      }
    }
    NothingPaired(rest);
  }

  /** Removes the first frame and returns its contents unstuffed. */
  method TakeContents(buffer: Buffer) returns (raw: Option<ByteString>)
    modifies buffer
    ensures var first := FirstFrame(old(buffer.data));
            if first.None? then raw == None && buffer.data == old(buffer.data)
            else raw == Some(Unpaired(first.value.0[1..|first.value.0| - 1])) && buffer.data == first.value.1
  {
    var start := FindMarker(buffer.data);
    if start.None? {
      return None;
    }
    var offset := FindMarker(buffer.data[start.value + 1..]);
    if offset.None? {
      return None;
    }
    var end := start.value + 1 + offset.value;
    var inner := buffer.data[start.value + 1..end];
    InnerOfSlice(buffer.data, start.value, end);
    buffer.data := buffer.data[end + 1..];
    var unstuffed := Unpair(inner);
    return Some(unstuffed);
  }

  lemma InnerOfSlice(data: ByteString, start: nat, end: nat)
    requires start < end < |data|
    ensures var frame := data[start..end + 1]; frame[1..|frame| - 1] == data[start + 1..end]
  {
    var frame := data[start..end + 1];
    var n := |frame| - 1;
    forall k | 0 <= k < n - 1 ensures frame[1..n][k] == data[start + 1..end][k] {
      assert frame[1..n][k] == frame[k + 1];
      assert frame[k + 1] == data[start + k + 1];
    }
    assert frame[1..n] == data[start + 1..end];
  }

  // ----- Agreement.

  /** How many escape bytes stand directly before position `at`. */
  function RunBefore(data: ByteString, at: nat): nat
    requires at <= |data|
  {
    if at == 0 || data[at - 1] != ESCAPE_MARKER then 0 else 1 + RunBefore(data, at - 1)
  }

  /** An escape code right after an even, nonempty run of escape bytes. */
  predicate Ambiguous(data: ByteString, at: nat)
    requires at < |data|
  {
    && data[at] in {ESCAPED_FRAME_MARKER, ESCAPED_ESCAPE_MARKER}
    && RunBefore(data, at) > 0 && RunBefore(data, at) % 2 == 0
  }

  predicate Unambiguous(data: ByteString) {
    forall at :: 0 <= at < |data| ==> !Ambiguous(data, at)
  }

  /** Whether the pairwise scan meets an escape code directly after a pair of escape bytes. */
  predicate PairClash(data: ByteString) {
    if |data| < 2 then false
    else if data[0] != ESCAPE_MARKER then PairClash(data[1..])
    else if data[1] == ESCAPE_MARKER && |data| > 2 && data[2] in {ESCAPED_FRAME_MARKER, ESCAPED_ESCAPE_MARKER} then true
    else PairClash(data[2..])
  }

  /** The two scans never drift apart by more than the clashing byte, so they agree exactly without a clash. */
  lemma {:induction false} AgreeIffNoClash(data: ByteString)
    ensures |Unescaped(data)| <= |Unpaired(data)|
    ensures |Unescaped(data)| == |Unpaired(data)| ==> Unescaped(data) == Unpaired(data)
    ensures |Unescaped(data)| == |Unpaired(data)| <==> !PairClash(data)
    decreases |data|
  {
    if |data| >= 2 {
      assert data[1..][1..] == data[2..];
      if data[0] != ESCAPE_MARKER {
        AgreeIffNoClash(data[1..]);
      } else if data[1] == ESCAPE_MARKER && |data| > 2 && data[2] in {ESCAPED_FRAME_MARKER, ESCAPED_ESCAPE_MARKER} {
        assert data[1..][2..] == data[3..] == data[2..][1..];
        AgreeIffNoClash(data[3..]);
      } else {
        AgreeIffNoClash(data[2..]);
      }
    }
  }

  lemma {:induction false} ClashIffAmbiguous(data: ByteString, start: nat)
    requires start <= |data| && RunBefore(data, start) % 2 == 0
    ensures PairClash(data[start..]) <==> exists at :: start < at < |data| && Ambiguous(data, at)
    decreases |data| - start
  {
    var rest := data[start..];
    if |rest| >= 2 {
      assert rest[1..] == data[start + 1..] && rest[2..] == data[start + 2..];
      if data[start] != ESCAPE_MARKER {
        assert !Ambiguous(data, start + 1);
        ClashIffAmbiguous(data, start + 1);
      } else if data[start + 1] == ESCAPE_MARKER && |rest| > 2
                && data[start + 2] in {ESCAPED_FRAME_MARKER, ESCAPED_ESCAPE_MARKER} {
        assert RunBefore(data, start + 2) == 1 + RunBefore(data, start + 1) == 2 + RunBefore(data, start);
        assert Ambiguous(data, start + 2);
      } else {
        assert RunBefore(data, start + 1) == 1 + RunBefore(data, start);
        assert RunBefore(data, start + 2) == if data[start + 1] == ESCAPE_MARKER then 2 + RunBefore(data, start) else 0;
        assert !Ambiguous(data, start + 1);
        assert start + 2 < |data| ==> !Ambiguous(data, start + 2);
        ClashIffAmbiguous(data, start + 2);
      }
    }
  }

  /**
   * The two unstuffings give the same bytes exactly when no escape code follows an even, nonempty
   * run of escape bytes.
   */
  lemma UnstuffingsAgreeIff(data: ByteString)
    ensures Unescaped(data) == Unpaired(data) <==> Unambiguous(data)
  {
    hide Unescaped, Unpaired, PairClash, Ambiguous;
    AgreeIffNoClash(data);
    ClashIffAmbiguous(data, 0);
    assert data[0..] == data;
    if |data| > 0 {
      NotAmbiguousFirst(data);
    }
  }

  /** No input shorter than `5B 5B 01` tells the two apart, and that one does. */
  lemma ShortestDisagreement(data: ByteString)
    ensures |data| < 3 ==> Unescaped(data) == Unpaired(data)
    ensures Unescaped([0x5B, 0x5B, 0x01]) == [0x5B, 0x5A] && Unpaired([0x5B, 0x5B, 0x01]) == [0x5B, 0x5B, 0x01]
  {
    var shortest: ByteString := [0x5B, 0x5B, 0x01];
    assert shortest[1..] == [0x5B, 0x01] && shortest[2..] == [0x01] && shortest[1..][2..] == [] && shortest[2..][1..] == [];
    if |data| < 3 {
      AgreeIffNoClash(data);
    }
  }

  lemma NotAmbiguousFirst(data: ByteString)
    requires data != []
    ensures !Ambiguous(data, 0)
  {
  }

  lemma {:induction false} UnpairedRoundTrip(data: ByteString)
    ensures Unpaired(Escaped(data)) == data
  {
    if data != [] {
      UnpairedRoundTrip(data[1..]);
      var first := EscapeByte(data[0]);
      assert (first + Escaped(data[1..]))[|first|..] == Escaped(data[1..]);
    }
  }

  /** Whatever one codec frames, the other reads back with length and checksum good. */
  lemma CodecsReadEachOther(text: ByteString)
    requires |text| + FRAMING_OVERHEAD < 0x1_0000
    ensures var frame := Framed(text);
            && Opened(frame) == Some(Contents(text, true, true))
            && FirstFrame(frame) == Some((frame, []))
            && Inspect(Unpaired(frame[1..|frame| - 1])) == Some(Contents(text, true, true))
  {
    hide Raw, Inspect, Unpaired, Unescaped, Escaped, FirstFrame;
    FramedOpens(text);
    StuffingRoundTrip(Raw(text));
    UnpairedRoundTrip(Raw(text));
    var frame, inner := Framed(text), Escaped(Raw(text));
    assert frame[1..|frame| - 1] == inner;
    FirstFrameIs(frame, [], inner, []);
    assert [] + [FRAME_MARKER] + inner + [FRAME_MARKER] + [] == frame;
  }
}
