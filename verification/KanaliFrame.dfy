/** The TRYX frame codec and its stream resynchronisation. */
module KanaliFrame {
  import opened Bytes

  const MAGIC: ByteString := [0x54, 0x52, 0x59, 0x58]
  const HEADER_LEN := 8
  const MAX_PAYLOAD_LEN := 1024 * 1024

  type Payload = p: ByteString | |p| <= MAX_PAYLOAD_LEN

  datatype MalformedFrame = BadMagic | PayloadTooLarge(length: nat)

  /** The wire bytes of one frame. */
  function Wire(payload: Payload): (frame: ByteString)
    ensures |frame| == HEADER_LEN + |payload|
  {
    MAGIC + U32ToLe(|payload|) + payload
  }

  function WireAll(payloads: seq<Payload>): ByteString {
    if payloads == [] then [] else Wire(payloads[0]) + WireAll(payloads[1..])
  }

  function Encode(payload: ByteString): (frame: Option<ByteString>)
    ensures frame.Some? <==> |payload| <= MAX_PAYLOAD_LEN
    ensures frame.Some? ==> frame.value == Wire(payload)
  {
    if |payload| > MAX_PAYLOAD_LEN then None
    else Some(MAGIC + U32ToLe(|payload|) + payload)
  }

  function PayloadLen(header: ByteString): nat
    requires |header| >= HEADER_LEN
  {
    U32FromLe(header[4..8])
  }

  /** `tail` agrees with the magic as far as both reach. */
  predicate Opening(tail: ByteString) {
    tail <= MAGIC || MAGIC <= tail
  }

  /** `tail` may be, or grow into, a frame of an accepted size. */
  predicate Viable(tail: ByteString) {
    Opening(tail) && (|tail| >= HEADER_LEN ==> PayloadLen(tail) <= MAX_PAYLOAD_LEN)
  }

  /** `tail` begins with a header of an accepted size. */
  predicate Plausible(tail: ByteString) {
    |tail| >= HEADER_LEN && Viable(tail)
  }

  /** `tail` begins with a whole frame. */
  predicate Complete(tail: ByteString) {
    Plausible(tail) && |tail| >= HEADER_LEN + PayloadLen(tail)
  }

  function FirstPayload(tail: ByteString): Payload
    requires Complete(tail)
  {
    tail[HEADER_LEN..HEADER_LEN + PayloadLen(tail)]
  }

  function AfterFirst(tail: ByteString): ByteString
    requires Complete(tail)
  {
    tail[HEADER_LEN + PayloadLen(tail)..]
  }

  /** A whole frame at the front is wire bytes. */
  lemma CompleteSplits(tail: ByteString)
    requires Complete(tail)
    ensures tail == Wire(FirstPayload(tail)) + AfterFirst(tail)
  {
    U32LeUnique(tail[4..8]);
    assert tail[..4] == MAGIC;
    assert tail == tail[..4] + tail[4..8] + FirstPayload(tail) + AfterFirst(tail);
  }

  /** Wire bytes at the front are a whole frame. */
  lemma WireIsComplete(tail: ByteString, payload: Payload, rest: ByteString)
    requires tail == Wire(payload) + rest
    ensures Complete(tail) && FirstPayload(tail) == payload && AfterFirst(tail) == rest
  {
    assert tail[..4] == MAGIC;
    assert tail[4..8] == U32ToLe(|payload|);
    assert PayloadLen(tail) == |payload|;
  }

  /** A string begins with a whole frame exactly when it is that frame's wire bytes and a rest. */
  lemma CompleteIsWire(tail: ByteString)
    ensures Complete(tail) ==> tail == Wire(FirstPayload(tail)) + AfterFirst(tail)
    ensures forall payload: Payload, rest ::
      tail == Wire(payload) + rest ==> Complete(tail) && FirstPayload(tail) == payload && AfterFirst(tail) == rest
  {
    hide Complete, Wire, FirstPayload, AfterFirst;
    if Complete(tail) {
      CompleteSplits(tail);
    }
    forall payload: Payload, rest | tail == Wire(payload) + rest
      ensures Complete(tail) && FirstPayload(tail) == payload && AfterFirst(tail) == rest
    {
      WireIsComplete(tail, payload, rest);
    }
  }

  // ----- The reference decoder: drop a byte that cannot begin a frame, read a frame that is whole, else wait.

  /** What a stream decodes to: its payloads, how many bytes were garbage, and the unread rest. */
  datatype Decoded = Decoded(payloads: seq<Payload>, dropped: nat, left: ByteString)

  function Decode(stream: ByteString): Decoded
    decreases |stream|
  {
    if !Viable(stream) then
      var rest := Decode(stream[1..]);
      rest.(dropped := 1 + rest.dropped)
    else if Complete(stream) then
      var rest := Decode(AfterFirst(stream));
      rest.(payloads := [FirstPayload(stream)] + rest.payloads)
    else Decoded([], 0, stream)
  }

  lemma DecodeEmpty(stream: ByteString)
    requires stream == []
    ensures Decode(stream) == Decoded([], 0, stream)
  {
  }

  /** Decoding `first` and then going on with what comes `next`. */
  function Then(first: Decoded, next: Decoded): Decoded {
    Decoded(first.payloads + next.payloads, first.dropped + next.dropped, next.left)
  }

  lemma ViableStaysOut(tail: ByteString, more: ByteString)
    requires !Viable(tail)
    ensures !Viable(tail + more)
  {
  }

  lemma CompleteExtends(tail: ByteString, more: ByteString)
    requires Complete(tail)
    ensures Complete(tail + more) && FirstPayload(tail + more) == FirstPayload(tail)
    ensures AfterFirst(tail + more) == AfterFirst(tail) + more
  {
  }

  /** Cutting the stream anywhere changes nothing: the decoder may go on from what it left over. */
  lemma {:induction false} DecodeCut(stream: ByteString, more: ByteString)
    ensures Decode(stream + more) == Then(Decode(stream), Decode(Decode(stream).left + more))
    decreases |stream|
  {
    hide Viable, Complete, FirstPayload, AfterFirst;
    if !Viable(stream) {
      ViableStaysOut(stream, more);
      NotEmptyHanded(stream);
      assert (stream + more)[1..] == stream[1..] + more;
      DecodeCut(stream[1..], more);
    } else if Complete(stream) {
      CompleteExtends(stream, more);
      NotEmptyHanded(stream + more);
      FirstShrinks(stream);
      DecodeCut(AfterFirst(stream), more);
    }
  }

  lemma NotEmptyHanded(stream: ByteString)
    ensures !Viable(stream) ==> stream != []
    ensures Complete(stream) ==> Viable(stream)
  {
  }

  lemma FirstShrinks(stream: ByteString)
    requires Complete(stream)
    ensures |AfterFirst(stream)| < |stream|
  {
  }

  /** Feeding a stream to the decoder piece by piece, each time keeping only its leftover. */
  function DecodePieces(left: ByteString, pieces: seq<ByteString>): Decoded
    decreases |pieces|
  {
    if pieces == [] then Decode(left)
    else
      var now := Decode(left);
      Then(now, DecodePieces(now.left + pieces[0], pieces[1..]))
  }

  /** Every way of cutting a stream into reads decodes to the same payloads, losses and leftover. */
  lemma {:induction false} DecodeAnyCuts(left: ByteString, pieces: seq<ByteString>)
    ensures DecodePieces(left, pieces) == Decode(left + Flatten(pieces))
    decreases |pieces|
  {
    hide Decode, Viable;
    if pieces == [] {
      assert left + Flatten(pieces) == left;
    } else {
      var now := Decode(left);
      DecodeAnyCuts(now.left + pieces[0], pieces[1..]);
      assert now.left + pieces[0] + Flatten(pieces[1..]) == now.left + Flatten(pieces);
      DecodeCut(left, Flatten(pieces));
    }
  }

  function WireLen(payloads: seq<Payload>): nat {
    if payloads == [] then 0 else HEADER_LEN + |payloads[0]| + WireLen(payloads[1..])
  }

  /** Every byte is in a frame, dropped, or left over; and what is left over has no whole frame. */
  lemma {:induction false} DecodeAccounts(stream: ByteString)
    ensures var d := Decode(stream);
            && |stream| == WireLen(d.payloads) + d.dropped + |d.left|
            && Viable(d.left) && !Complete(d.left)
            && Decode(d.left) == Decoded([], 0, d.left)
    decreases |stream|
  {
    if !Viable(stream) {
      DecodeAccounts(stream[1..]);
    } else if Complete(stream) {
      DecodeAccounts(AfterFirst(stream));
      assert Decode(stream).payloads[1..] == Decode(AfterFirst(stream)).payloads;
    }
  }

  // ----- The codec's functions on the pending buffer.

  /** Removes one whole frame from the front; a header that cannot be one empties it. */
  method TakeFrame(buffer: Buffer) returns (taken: Result<Option<Payload>, MalformedFrame>)
    modifies buffer
    ensures taken.Err? <==> |old(buffer.data)| >= |MAGIC| && !Viable(old(buffer.data))
    ensures taken.Err? ==> buffer.data == [] && (taken.error.BadMagic? <==> !Opening(old(buffer.data)))
    ensures taken == Ok(None) ==> buffer.data == old(buffer.data) && !Complete(buffer.data)
    ensures taken.Ok? && taken.value.Some? ==> old(buffer.data) == Wire(taken.value.value) + buffer.data
  {
    if |buffer.data| < |MAGIC| {
      return Ok(None);
    }
    if !(MAGIC <= buffer.data) {
      buffer.data := [];
      return Err(BadMagic);
    }
    if |buffer.data| < HEADER_LEN {
      return Ok(None);
    }
    var len := PayloadLen(buffer.data);
    if len > MAX_PAYLOAD_LEN {
      buffer.data := [];
      return Err(PayloadTooLarge(len));
    }
    var frameLen := HEADER_LEN + len;
    if |buffer.data| < frameLen {
      return Ok(None);
    }
    CompleteIsWire(buffer.data);
    var payload := buffer.data[HEADER_LEN..frameLen];
    buffer.data := buffer.data[frameLen..];
    return Ok(Some(payload));
  }

  /** Drops bytes until the buffer agrees with the magic as far as both reach. */
  method DiscardBytesBeforeFrameMagic(buffer: Buffer) returns (discarded: nat)
    modifies buffer
    ensures discarded <= |old(buffer.data)| && buffer.data == old(buffer.data)[discarded..]
    ensures Opening(buffer.data)
    ensures forall k :: 0 <= k < discarded ==> !Opening(old(buffer.data)[k..])
  {
    ghost var before := buffer.data;
    if buffer.data == [] || MAGIC <= buffer.data {
      return 0;
    }
    var found := Find(buffer.data, MAGIC);
    NoMagicNotOpening(before);
    if found.Some? {
      buffer.data := buffer.data[found.value..];
      assert buffer.data[..4] == MAGIC;
      return found.value;
    }
    var preserved := if |buffer.data| < |MAGIC| - 1 then |buffer.data| else |MAGIC| - 1;
    while preserved > 0 && buffer.data[|buffer.data| - preserved..] != MAGIC[..preserved]
      invariant 0 <= preserved <= |before|
      invariant forall k :: 0 <= k < |before| - preserved ==> !Opening(before[k..])
    {
      preserved := preserved - 1;
    }
    discarded := |buffer.data| - preserved;
    buffer.data := buffer.data[discarded..];
  }

  lemma NoMagicNotOpening(stream: ByteString)
    ensures forall k: nat :: k + |MAGIC| <= |stream| && !OccursAt(stream, MAGIC, k) ==> !Opening(stream[k..])
  {
  }

  /** Drops bytes until the buffer begins with what may still become a frame. */
  method DiscardBytesBeforePlausibleFrame(buffer: Buffer) returns (discarded: nat)
    modifies buffer
    ensures discarded <= |old(buffer.data)| && buffer.data == old(buffer.data)[discarded..]
    ensures Viable(buffer.data)
    ensures forall k :: 0 <= k < discarded ==> !Viable(old(buffer.data)[k..])
  {
    ghost var before := buffer.data;
    discarded := 0;
    while buffer.data != []
      invariant discarded <= |before| && buffer.data == before[discarded..]
      invariant forall k :: 0 <= k < discarded ==> !Viable(before[k..])
      decreases |buffer.data|
    {
      ghost var start := discarded;
      var more := DiscardBytesBeforeFrameMagic(buffer);
      discarded := discarded + more;
      forall k | start <= k < discarded ensures !Viable(before[k..]) {
        assert before[k..] == before[start..][k - start..];
      }
      assert buffer.data == before[discarded..];
      if |buffer.data| < HEADER_LEN {
        return discarded;
      }
      if PayloadLen(buffer.data) <= MAX_PAYLOAD_LEN {
        return discarded;
      }
      buffer.data := buffer.data[1..];
      discarded := discarded + 1;
    }
  }

  /** The discard is what the reference decoder drops before its first frame. */
  lemma {:induction false} DiscardIsDecode(stream: ByteString, discarded: nat)
    requires discarded <= |stream| && forall k :: 0 <= k < discarded ==> !Viable(stream[k..])
    ensures var rest := Decode(stream[discarded..]);
            Decode(stream) == rest.(dropped := discarded + rest.dropped)
    decreases discarded
  {
    if discarded == 0 {
      assert stream[0..] == stream;
    } else {
      assert stream[0..] == stream;
      assert forall k :: 0 <= k < discarded ==> stream[1..][k..] == stream[k + 1..];
      DiscardIsDecode(stream[1..], discarded - 1);
    }
  }

  /** No whole frame begins before `limit`. */
  ghost predicate NoFrameBefore(stream: ByteString, limit: nat) {
    forall k :: 0 <= k <= |stream| && k < limit ==> !Complete(stream[k..])
  }

  /** The position of the first whole frame of an accepted size. */
  method CompletePlausibleFrameIndex(stream: ByteString) returns (found: Option<nat>)
    ensures found.Some? ==> found.value <= |stream| && Complete(stream[found.value..])
    ensures NoFrameBefore(stream, if found.Some? then found.value else |stream| + 1)
  {
    var start := 0;
    var offset := Find(stream[start..], MAGIC);
    while offset.Some?
      invariant start <= |stream| && offset == Find(stream[start..], MAGIC)
      invariant NoFrameBefore(stream, start)
      decreases |stream| - start
    {
      var index := start + offset.value;
      FrameNeedsMagic(stream, start);
      var remaining := |stream| - index;
      if remaining >= HEADER_LEN {
        var len := PayloadLen(stream[index..]);
        if len <= MAX_PAYLOAD_LEN && remaining >= HEADER_LEN + len {
          return Some(index);
        }
      }
      NoFrameNext(stream, index);
      start := index + 1;
      offset := Find(stream[start..], MAGIC);
    }
    FrameNeedsMagic(stream, start);
    return None;
  }

  lemma NoFrameNext(stream: ByteString, index: nat)
    requires index <= |stream| && NoFrameBefore(stream, index) && !Complete(stream[index..])
    ensures NoFrameBefore(stream, index + 1)
  {
  }

  lemma FrameNeedsMagic(stream: ByteString, start: nat)
    requires start <= |stream| && NoFrameBefore(stream, start)
    ensures var found := Find(stream[start..], MAGIC);
            && (found.Some? ==> MAGIC <= stream[start + found.value..])
            && NoFrameBefore(stream, if found.Some? then start + found.value else |stream| + 1)
  {
    FindInTail(stream, MAGIC, start);
    NoMagicNotOpening(stream);
    var found := Find(stream[start..], MAGIC);
    if found.Some? {
      assert stream[start + found.value..][..4] == MAGIC;
    }
  }

  // ----- Resynchronisation loses only garbage.

  lemma {:induction false} DecodeFrames(payloads: seq<Payload>)
    ensures Decode(WireAll(payloads)) == Decoded(payloads, 0, [])
    decreases |payloads|
  {
    hide Viable, Complete, FirstPayload, AfterFirst, Wire;
    if payloads == [] {
      DecodeEmpty([]);
    } else {
      CompleteIsWire(WireAll(payloads));
      NotEmptyHanded(WireAll(payloads));
      DecodeFrames(payloads[1..]);
    }
  }

  /** No position of the garbage heads eight bytes that read as a frame of an accepted size. */
  ghost predicate NoPlausibleHeader(garbage: ByteString) {
    forall k :: 0 <= k <= |garbage| ==> !Plausible(garbage[k..])
  }

  /**
   * A short garbage tail cannot borrow the next frame's bytes: the magic has no border, and a
   * length field that overlaps it exceeds the largest payload.
   */
  lemma ShortTailNotViable(tail: ByteString, frames: ByteString)
    requires 0 < |tail| < HEADER_LEN <= |frames| && MAGIC <= frames
    ensures !Viable(tail + frames)
  {
  }

  lemma {:induction false} GarbageLosesNothing(garbage: ByteString, payloads: seq<Payload>)
    requires payloads != [] && NoPlausibleHeader(garbage)
    ensures Decode(garbage + WireAll(payloads)) == Decoded(payloads, |garbage|, [])
    decreases |garbage|
  {
    var frames := WireAll(payloads);
    if garbage == [] {
      assert garbage + frames == frames;
      DecodeFrames(payloads);
    } else {
      assert garbage[0..] == garbage;
      if |garbage| < HEADER_LEN {
        assert MAGIC <= frames;
        ShortTailNotViable(garbage, frames);
      } else {
        ViableStaysOut(garbage, frames);
      }
      assert (garbage + frames)[1..] == garbage[1..] + frames;
      assert forall k :: 0 <= k < |garbage| ==> garbage[1..][k..] == garbage[k + 1..];
      GarbageLosesNothing(garbage[1..], payloads);
    }
  }

  /** A plausible header in the garbage takes bytes of the frames behind it, or counts as a frame itself. */
  lemma PlausibleHeaderLoses(garbage: ByteString) returns (payloads: seq<Payload>)
    requires !NoPlausibleHeader(garbage)
    ensures payloads != [] && Decode(garbage + WireAll(payloads)).payloads != payloads
  {
    hide Decode;
    var d := Decode(garbage);
    if d.payloads != [] {
      payloads := [Other(d.payloads[0])];
    } else {
      PendingHeader(garbage);
      payloads := PendingHeaderLoses(d.left);
    }
    DecodeCut(garbage, WireAll(payloads));
  }

  function Other(payload: Payload): (other: Payload)
    ensures other != payload && |other| == 1
  {
    if payload == [0] then [1] else [0]
  }

  /** A header still waiting for its payload swallows the start of the next frame. */
  lemma PendingHeaderLoses(left: ByteString) returns (payloads: seq<Payload>)
    requires Plausible(left) && !Complete(left)
    ensures payloads != [] && Decode(left + WireAll(payloads)).payloads != payloads
  {
    hide Decode, Complete, WireAll;
    var missing := HEADER_LEN + PayloadLen(left) - |left|;
    MissingBytes(left);
    if missing > HEADER_LEN {
      payloads := [[]];
      StillPending(left);
    } else {
      var swallowed: Payload := left[8..] + (MAGIC + U32ToLe(1))[..missing];
      payloads := [Other(swallowed)];
      Swallowed(left, payloads[0]);
    }
  }

  lemma MissingBytes(left: ByteString)
    requires Plausible(left) && !Complete(left)
    ensures |left| < HEADER_LEN + PayloadLen(left) <= HEADER_LEN + MAX_PAYLOAD_LEN
  {
  }

  lemma WireAllOne(payload: Payload)
    ensures WireAll([payload]) == Wire(payload)
  {
    assert WireAll([payload]) == Wire(payload) + WireAll([payload][1..]);
  }

  /** An empty frame is too short to complete it. */
  lemma StillPending(left: ByteString)
    requires Plausible(left) && HEADER_LEN + PayloadLen(left) - |left| > HEADER_LEN
    ensures Decode(left + WireAll([[]])).payloads == []
  {
    hide WireAll, Wire;
    WireAllOne([]);
    PendingHeaderGrows(left, Wire([]));
  }

  /** A frame's header completes it, and is taken for its payload. */
  lemma Swallowed(left: ByteString, payload: Payload)
    requires Plausible(left) && |payload| == 1
    requires var missing := HEADER_LEN + PayloadLen(left) - |left|;
             0 < missing <= HEADER_LEN && left[8..] + (MAGIC + U32ToLe(1))[..missing] != payload
    ensures Decode(left + WireAll([payload])).payloads != [payload]
  {
    hide WireAll, Wire, Decode, Viable, Complete, FirstPayload;
    WireAllOne(payload);
    var frame, missing := Wire(payload), HEADER_LEN + PayloadLen(left) - |left|;
    WireStarts(payload);
    Completed(left, frame);
    assert frame[..missing] == frame[..8][..missing];
    DecodesFirst(left + frame);
  }

  lemma WireStarts(payload: Payload)
    ensures Wire(payload)[..HEADER_LEN] == MAGIC + U32ToLe(|payload|)
  {
  }

  /** Enough bytes behind a header complete its frame. */
  lemma Completed(left: ByteString, more: ByteString)
    requires Plausible(left)
    requires var missing := HEADER_LEN + PayloadLen(left) - |left|; 0 <= missing <= |more|
    ensures Complete(left + more)
    ensures FirstPayload(left + more) == left[8..] + more[..HEADER_LEN + PayloadLen(left) - |left|]
  {
    PendingHeaderGrows(left, more);
  }

  lemma DecodesFirst(stream: ByteString)
    requires Complete(stream)
    ensures Decode(stream).payloads != [] && Decode(stream).payloads[0] == FirstPayload(stream)
  {
  }

  lemma PendingHeaderGrows(left: ByteString, more: ByteString)
    requires Plausible(left)
    ensures Plausible(left + more) && PayloadLen(left + more) == PayloadLen(left)
  {
  }

  /** Garbage with a plausible header but no whole frame leaves the decoder waiting behind a header. */
  lemma {:induction false} PendingHeader(garbage: ByteString)
    requires !NoPlausibleHeader(garbage) && Decode(garbage).payloads == []
    ensures Plausible(Decode(garbage).left) && !Complete(Decode(garbage).left)
    decreases |garbage|
  {
    var k :| 0 <= k <= |garbage| && Plausible(garbage[k..]);
    assert garbage[0..] == garbage;
    if !Viable(garbage) {
      assert garbage[1..][k - 1..] == garbage[k..];
      PendingHeader(garbage[1..]);
    }
  }

  /** Exactly the garbage without a plausible header lets every list of frames behind it through. */
  lemma LosslessIff(garbage: ByteString)
    ensures NoPlausibleHeader(garbage) <==>
            forall payloads: seq<Payload> :: payloads != [] ==> Decode(garbage + WireAll(payloads)).payloads == payloads
  {
    if NoPlausibleHeader(garbage) {
      forall payloads: seq<Payload> | payloads != []
        ensures Decode(garbage + WireAll(payloads)).payloads == payloads
      {
        GarbageLosesNothing(garbage, payloads);
      }
    } else {
      var payloads := PlausibleHeaderLoses(garbage);
    }
  }

  /** Garbage holding no magic, then a frame cut inside its header, has no plausible header. */
  lemma GarbageThenCutHeader(garbage: ByteString, payload: Payload, cut: nat)
    requires Find(garbage, MAGIC).None? && cut < HEADER_LEN
    ensures NoPlausibleHeader(garbage + Wire(payload)[..cut])
  {
    var header := Wire(payload)[..cut];
    var whole := garbage + header;
    assert cut > 0 ==> whole[|garbage|] == MAGIC[0];
    forall k | 0 <= k <= |whole| - HEADER_LEN ensures !(MAGIC <= whole[k..]) {
      assert forall j :: 0 <= j < 4 ==> whole[k..][j] == whole[k + j];
      if k + 4 <= |garbage| {
        assert garbage[k..k + 4] == whole[k..][..4];
        assert !OccursAt(garbage, MAGIC, k);
      }
    }
  }
}
