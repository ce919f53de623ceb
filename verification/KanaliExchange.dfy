/** An exchange over bytes, seen at message level: the frames and the stream amount to one of the fates a link knows. */
module KanaliExchange {
  import opened Bytes
  import opened KanaliFrame
  import opened KanaliTracks
  import opened KanaliWire
  import opened KanaliSession
  import opened KanaliDisplay
  import opened KanaliServe
  import opened KanaliLink

  /** The host's half of the protobuf codec, and how long replies are. */
  datatype HostCodec = HostCodec(encode: Request -> ByteString, decode: Payload -> Option<Response>, sizeOf: Response -> nat)

  function Tagged(used: U64, body: RequestBody): Request {
    Request(Some(WireHeader(1, used, 0)), body)
  }

  /** The request fits a frame and the display reads it as it was meant. */
  predicate Understood(host: HostCodec, codec: Codec, request: Request) {
    |host.encode(request)| <= MAX_PAYLOAD_LEN && codec.readRequest(host.encode(request)) == Asks(request)
  }

  /** The display's reply to a request it got, as the host reads it. */
  predicate IsReply(host: HostCodec, codec: Codec, held: Held, request: Request, payload: Payload) {
    && ReplyPayload(codec, held, request) == [payload]
    && host.decode(payload) == ReplyTo(held, TrackOf(request), request.body)
    && host.sizeOf(host.decode(payload).value) == |payload|
  }

  /** Of a frame the display got a part or all. */
  lemma FrameServed(codec: Codec, held: Held, payload: Payload, request: Request, got: ByteString)
    requires codec.readRequest(payload) == Asks(request) && got <= Wire(payload)
    ensures var service := Served(codec, held, got);
      if got == Wire(payload)
      then service.held == After(held, TrackOf(request), request.body) && service.open && service.left == []
      else service.held == held
  {
    hide After, ReplyPayload, Wire, Served;
    if got == Wire(payload) {
      assert Wire(payload) + [] == got;
      ServedFrame(codec, held, payload, []);
      NothingServed(codec, After(held, TrackOf(request), request.body), []);
    } else {
      CutNotWhole(payload, got);
      ServedNoFrame(codec, held, got);
    }
  }

  lemma CutNotWhole(payload: Payload, got: ByteString)
    requires got <= Wire(payload) && got != Wire(payload)
    ensures !Complete(got)
  {
    assert got == Wire(payload)[..|got|];
    if |got| >= HEADER_LEN {
      assert got[4..8] == Wire(payload)[4..8] == U32ToLe(|payload|);
    }
  }

  /**
   * Whatever part of a request's frame the display got, and whatever the host then read up to the
   * outcome, there is a fate under which one exchange of a link does the same to the display and
   * has the same outcome; it is honest exactly when no frame but the display's reply poses as one.
   */
  lemma ExchangeHasFate(
      host: HostCodec, codec: Codec, held: Held, used: U64, body: RequestBody, expected: Expect,
      got: ByteString, taken: seq<Payload>, own: Option<nat>, result: Result<Response, KanaliError>)
    returns (fate: Fate)
    requires Understood(host, codec, Tagged(used, body)) && got <= Wire(host.encode(Tagged(used, body)))
    requires SettledBy(host.decode, used, expected, taken, result)
    requires own.Some? ==>
      && got == Wire(host.encode(Tagged(used, body))) && own.value < |taken|
      && IsReply(host, codec, held, Tagged(used, body), taken[own.value])
    ensures Served(codec, held, got).held == if fate.reaches then After(held, used, body) else held
    ensures result == Outcome(fate, host.sizeOf, held, used, body, expected)
    ensures var arrivals := ArrivalsOf(host.decode, taken);
      ForOthers(used, expected.ExpectPong?, fate.noise(used)) <==>
      forall i :: 0 <= i < |taken| && own != Some(i) ==> !Poses(used, expected.ExpectPong?, arrivals[i])
  {
    hide After, Settle, Wire, Served;
    var arrivals, last := ArrivalsOf(host.decode, taken), |taken| - 1;
    FrameServed(codec, held, host.encode(Tagged(used, body)), Tagged(used, body), got);
    var reaches, breaks := got == Wire(host.encode(Tagged(used, body))), result == Err(Transport);
    if own == Some(last) {
      fate := Fate(reaches, _ => arrivals[..last], true, breaks);
      var reply := ReplyTo(held, used, body);
      assert arrivals == arrivals[..last] + [Arrival(host.sizeOf(reply.value), reply)];
    } else {
      fate := Fate(reaches, _ => arrivals, false, breaks);
      assert arrivals + [] == arrivals;
      if own.Some? {
        assert Skippable(used, expected, arrivals[..last]);
        assert Unrelated(used, expected, arrivals[own.value]) by {
          assert arrivals[..last][own.value] == arrivals[own.value];
        }
      }
    }
  }
}
