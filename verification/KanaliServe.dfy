/** The display's end of the byte stream: frames in, requests handled in order, reply frames out. */
module KanaliServe {
  import opened Bytes
  import opened KanaliFrame
  import opened KanaliTracks
  import opened KanaliWire
  import opened KanaliDisplay
  import opened KanaliSession

  /** The display's reading of a payload. */
  datatype Incoming = Unreadable | NoBody | Asks(request: Request)

  /** The display's half of the protobuf codec. */
  datatype Codec = Codec(readRequest: Payload -> Incoming, writeResponse: Response -> ByteString)

  function TrackOf(request: Request): U64 {
    if request.header.Some? then request.header.value.trackId else 0
  }

  /** The reply's payload, unless there is none or it is too long for a frame. */
  function ReplyPayload(codec: Codec, held: Held, request: Request): seq<Payload> {
    var reply := ReplyTo(held, TrackOf(request), request.body);
    if reply.None? || |codec.writeResponse(reply.value)| > MAX_PAYLOAD_LEN then []
    else [codec.writeResponse(reply.value)]
  }

  /** Where a connection stands: what the display holds, what it replied, what is unread, and whether it goes on. */
  datatype Service = Service(held: Held, replies: seq<Payload>, left: ByteString, open: bool)

  function Preceded(replies: seq<Payload>, service: Service): Service {
    service.(replies := replies + service.replies)
  }

  /**
   * A stream served in one go. A malformed header or an unreadable payload closes the connection:
   * this end does not look for the next frame.
   */
  function Served(codec: Codec, held: Held, stream: ByteString): Service
    decreases |stream|
  {
    if |stream| >= |MAGIC| && !Viable(stream) then Service(held, [], [], false)
    else if !Complete(stream) then Service(held, [], stream, true)
    else
      match codec.readRequest(FirstPayload(stream))
      case Unreadable => Service(held, [], [], false)
      case NoBody => Served(codec, held, AfterFirst(stream))
      case Asks(request) =>
        Preceded(
          ReplyPayload(codec, held, request),
          Served(codec, After(held, TrackOf(request), request.body), AfterFirst(stream)))
  }

  /** A first frame's request is handled before the rest is served. */
  lemma ServedFrame(codec: Codec, held: Held, payload: Payload, rest: ByteString)
    ensures Served(codec, held, Wire(payload) + rest) ==
      match codec.readRequest(payload)
      case Unreadable => Service(held, [], [], false)
      case NoBody => Served(codec, held, rest)
      case Asks(request) =>
        Preceded(
          ReplyPayload(codec, held, request), Served(codec, After(held, TrackOf(request), request.body), rest))
  {
    hide After, ReplyPayload, Wire;
    var stream := Wire(payload) + rest;
    CompleteIsWire(stream);
    WholeIsViable(stream);
  }

  lemma ServedNoFrame(codec: Codec, held: Held, stream: ByteString)
    requires !Complete(stream)
    ensures Served(codec, held, stream) ==
      if |stream| >= |MAGIC| && !Viable(stream) then Service(held, [], [], false) else Service(held, [], stream, true)
  {
  }

  /** Serving more bytes on a connection that may have closed. */
  function GoOn(codec: Codec, service: Service, more: ByteString): Service {
    if !service.open then service
    else
      Preceded(service.replies, Served(codec, service.held, service.left + more))
  }

  lemma {:induction false} ServedCut(codec: Codec, held: Held, stream: ByteString, more: ByteString)
    ensures Served(codec, held, stream + more) == GoOn(codec, Served(codec, held, stream), more)
    decreases |stream|
  {
    hide After, ReplyPayload, Complete, Viable, Wire, Served;
    if !Complete(stream) {
      ServedNoFrame(codec, held, stream);
      if |stream| >= |MAGIC| && !Viable(stream) {
        ViableStaysOut(stream, more);
        WholeIsViable(stream + more);
        ServedNoFrame(codec, held, stream + more);
      } else {
        assert [] + Served(codec, held, stream + more).replies == Served(codec, held, stream + more).replies;
      }
    } else {
      CompleteIsWire(stream);
      var payload, rest := FirstPayload(stream), AfterFirst(stream);
      assert stream + more == Wire(payload) + (rest + more);
      ServedFrame(codec, held, payload, rest);
      ServedFrame(codec, held, payload, rest + more);
      match codec.readRequest(payload)
      case Unreadable =>
      case NoBody => ServedCut(codec, held, rest, more);
      case Asks(request) =>
        var held' := After(held, TrackOf(request), request.body);
        ServedCut(codec, held', rest, more);
        GoOnAfter(codec, ReplyPayload(codec, held, request), Served(codec, held', rest), more);
    }
  }

  lemma GoOnAfter(codec: Codec, replies: seq<Payload>, service: Service, more: ByteString)
    ensures GoOn(codec, Preceded(replies, service), more) == Preceded(replies, GoOn(codec, service, more))
  {
    hide Served;
    var next := Served(codec, service.held, service.left + more).replies;
    assert replies + (service.replies + next) == replies + service.replies + next;
  }

  lemma WholeIsViable(stream: ByteString)
    ensures Complete(stream) ==> Viable(stream)
  {
  }

  function ServedPieces(codec: Codec, service: Service, pieces: seq<ByteString>): Service
    decreases |pieces|
  {
    if pieces == [] then service else ServedPieces(codec, GoOn(codec, service, pieces[0]), pieces[1..])
  }

  /** However the stream is cut into reads, it is served the same. */
  lemma {:induction false} ServedAnyCuts(codec: Codec, held: Held, stream: ByteString, pieces: seq<ByteString>)
    ensures ServedPieces(codec, Served(codec, held, stream), pieces) == Served(codec, held, stream + Flatten(pieces))
    decreases |pieces|
  {
    hide Served;
    if pieces == [] {
      assert stream + Flatten(pieces) == stream;
    } else {
      ServedCut(codec, held, stream, pieces[0]);
      ServedAnyCuts(codec, held, stream + pieces[0], pieces[1..]);
      assert stream + pieces[0] + Flatten(pieces[1..]) == stream + Flatten(pieces);
    }
  }

  /** The pieces read until the connection ends. */
  function Heard(outcomes: seq<ReadOutcome>): seq<ByteString> {
    if outcomes == [] then []
    else
      match outcomes[0]
      case Received(chunk) => if chunk == [] then [] else [chunk] + Heard(outcomes[1..])
      case ReadTimeout => Heard(outcomes[1..])
      case ReadFailed => []
  }

  lemma {:induction false} WireAllAppend(front: seq<Payload>, back: seq<Payload>)
    ensures WireAll(front + back) == WireAll(front) + WireAll(back)
  {
    if front == [] {
      assert front + back == back;
    } else {
      assert (front + back)[1..] == front[1..] + back;
      WireAllAppend(front[1..], back);
    }
  }

  class Server {
    const display: Display
    const codec: Codec
    const pending: Buffer
    /** The bytes written to the stream. */
    var written: ByteString

    constructor (display: Display, codec: Codec)
      ensures this.display == display && this.codec == codec && fresh(pending) && pending.data == [] && written == []
    {
      this.display := display;
      this.codec := codec;
      pending := new Buffer([]);
      written := [];
    }

    method Send(reply: Option<Response>, ghost held: Held, ghost request: Request)
      requires reply == ReplyTo(held, TrackOf(request), request.body)
      modifies this`written
      ensures written == old(written) + WireAll(ReplyPayload(codec, held, request))
    {
      hide ReplyTo;
      if reply.Some? {
        var bytes := codec.writeResponse(reply.value);
        var frame := Encode(bytes);
        if frame.Some? {
          assert WireAll([bytes]) == Wire(bytes) + WireAll([bytes][1..]);
          written := written + frame.value;
        }
      }
    }

    /** Handles the whole frames that are pending. */
    method TakeRequests() returns (open: bool)
      modifies display, pending, this`written
      ensures var s := Served(codec, old(display.State()), old(pending.data));
        && display.State() == s.held && open == s.open && (open ==> pending.data == s.left)
        && written == old(written) + WireAll(s.replies)
    {
      hide After, ReplyTo, ReplyPayload, Viable, Complete, Wire, WireAll, Served;
      ghost var all := Served(codec, display.State(), pending.data);
      ghost var done: seq<Payload> := [];
      NothingServed(codec, display.State(), []);
      while true
        invariant written == old(written) + WireAll(done)
        invariant all == Preceded(done, Served(codec, display.State(), pending.data))
        decreases |pending.data|
      {
        ghost var held, stream := display.State(), pending.data;
        var frame := TakeFrame(pending);
        if frame.Err? || frame.value.None? {
          WholeIsViable(stream);
          ServedNoFrame(codec, held, stream);
          assert done + [] == done;
          return frame.Ok?;
        }
        ServedFrame(codec, held, frame.value.value, pending.data);
        var incoming := codec.readRequest(frame.value.value);
        match incoming
        case Unreadable =>
          assert done + [] == done;
          return false;
        case NoBody =>
        case Asks(request) =>
          var reply := display.Handle(request);
          Send(reply, held, request);
          ghost var mine := ReplyPayload(codec, held, request);
          assert done + (mine + Served(codec, display.State(), pending.data).replies)
              == done + mine + Served(codec, display.State(), pending.data).replies;
          WireAllAppend(done, mine);
          done := done + mine;
      }
    }

    /** Serves one connection; every transfer begins anew. */
    method Serve(outcomes: seq<ReadOutcome>)
      requires pending.data == [] && written == []
      modifies display, pending, this`written
      ensures var s := Served(codec, old(display.State()).(inflight := None), Flatten(Heard(outcomes)));
        display.State() == s.held && written == WireAll(s.replies)
    {
      hide Served, WireAll;
      display.inflight := None;
      ghost var start := display.State();
      ghost var heard: ByteString := [];
      NothingServed(codec, start, heard);
      var i := 0;
      while i < |outcomes|
        invariant i <= |outcomes| && heard + Flatten(Heard(outcomes[i..])) == Flatten(Heard(outcomes))
        invariant Served(codec, start, heard).open && pending.data == Served(codec, start, heard).left
        invariant display.State() == Served(codec, start, heard).held
        invariant written == WireAll(Served(codec, start, heard).replies)
        decreases |outcomes| - i
      {
        assert outcomes[i..][1..] == outcomes[i + 1..];
        match outcomes[i] {
          case Received(chunk) =>
            if chunk == [] {
              break;
            }
            ghost var rest := Flatten(Heard(outcomes[i + 1..]));
            ghost var before := Served(codec, start, heard);
            ServedCut(codec, start, heard, chunk);
            pending.data := pending.data + chunk;
            var open := TakeRequests();
            WireAllAppend(before.replies, Served(codec, before.held, before.left + chunk).replies);
            heard := heard + chunk;
            assert heard + rest == Flatten(Heard(outcomes));
            if !open {
              ServedCut(codec, start, heard, rest);
              return;
            }
          case ReadTimeout =>
          case ReadFailed =>
            break;
        }
        i := i + 1;
      }
      assert heard == Flatten(Heard(outcomes));
    }
  }

  lemma NothingServed(codec: Codec, held: Held, nothing: ByteString)
    requires nothing == []
    ensures Served(codec, held, nothing) == Service(held, [], [], true) && WireAll([]) == []
  {
  }

  // ----- Both ends together.

  function AfterAll(held: Held, requests: seq<Request>): Held
    decreases |requests|
  {
    if requests == [] then held
    else AfterAll(After(held, TrackOf(requests[0]), requests[0].body), requests[1..])
  }

  function Replies(codec: Codec, held: Held, requests: seq<Request>): seq<Payload>
    decreases |requests|
  {
    if requests == [] then []
    else ReplyPayload(codec, held, requests[0])
         + Replies(codec, After(held, TrackOf(requests[0]), requests[0].body), requests[1..])
  }

  /** The payloads read as these requests. */
  predicate Carry(codec: Codec, payloads: seq<Payload>, requests: seq<Request>) {
    |payloads| == |requests| && forall i :: 0 <= i < |requests| ==> codec.readRequest(payloads[i]) == Asks(requests[i])
  }

  lemma {:induction false} FramesServed(codec: Codec, held: Held, payloads: seq<Payload>, requests: seq<Request>)
    requires Carry(codec, payloads, requests)
    ensures Served(codec, held, WireAll(payloads)) == Service(AfterAll(held, requests), Replies(codec, held, requests), [], true)
    decreases |payloads|
  {
    hide After, ReplyPayload, Wire, Served;
    if payloads == [] {
      NothingServed(codec, held, []);
    } else {
      ServedFrame(codec, held, payloads[0], WireAll(payloads[1..]));
      FramesServed(codec, After(held, TrackOf(requests[0]), requests[0].body), payloads[1..], requests[1..]);
    }
  }

  /**
   * However both directions are cut into reads, the display handles exactly the requests that were
   * framed, in order, and the host decodes exactly its replies, in order, with nothing dropped or left.
   */
  lemma BothWays(
      codec: Codec, held: Held, payloads: seq<Payload>, requests: seq<Request>, outcomes: seq<ReadOutcome>, back: seq<ByteString>)
    requires Carry(codec, payloads, requests) && Flatten(Heard(outcomes)) == WireAll(payloads)
    requires Flatten(back) == WireAll(Served(codec, held, Flatten(Heard(outcomes))).replies)
    ensures Served(codec, held, Flatten(Heard(outcomes))).held == AfterAll(held, requests)
    ensures DecodePieces([], back) == Decoded(Replies(codec, held, requests), 0, [])
  {
    hide Served, Decode;
    FramesServed(codec, held, payloads, requests);
    DecodeAnyCuts([], back);
    assert [] + Flatten(back) == Flatten(back);
    DecodeFrames(Replies(codec, held, requests));
  }

  /** Timeouts bring nothing. */
  lemma {:induction false} HeardUntil(front: seq<ReadOutcome>, back: seq<ReadOutcome>)
    requires forall i :: 0 <= i < |front| ==> Continues(front[i])
    ensures Flatten(Heard(front + back)) == Brought(front) + Flatten(Heard(back))
    decreases |front|
  {
    hide Heard, Flatten, Chunk, Continues;
    if front == [] {
      assert front + back == back;
    } else {
      hide Brought;
      HeardUntil(front[1..], back);
      HeardFirst(front[0], front[1..] + back);
      BroughtFirst(front);
      assert front + back == [front[0]] + (front[1..] + back);
    }
  }

  lemma BroughtFirst(outcomes: seq<ReadOutcome>)
    requires outcomes != []
    ensures Brought(outcomes) == Chunk(outcomes[0]) + Brought(outcomes[1..])
  {
  }

  /** A connection hears all that was brought up to the first empty read or failure, and nothing after. */
  lemma HeardToTheEnd(front: seq<ReadOutcome>, last: ReadOutcome, after: seq<ReadOutcome>)
    requires (forall i :: 0 <= i < |front| ==> Continues(front[i])) && !Continues(last)
    ensures Flatten(Heard(front)) == Brought(front) == Flatten(Heard(front + ([last] + after)))
  {
    HeardUntil(front, []);
    assert front + [] == front;
    HeardUntil(front, [last] + after);
    assert Heard([last] + after) == [];
  }

  /** A read after which a connection is still listened to. */
  predicate Continues(outcome: ReadOutcome) {
    outcome.ReadTimeout? || (outcome.Received? && outcome.chunk != [])
  }

  lemma HeardFirst(first: ReadOutcome, rest: seq<ReadOutcome>)
    requires Continues(first)
    ensures Flatten(Heard([first] + rest)) == Chunk(first) + Flatten(Heard(rest))
  {
    assert ([first] + rest)[1..] == rest;
    if first.Received? {
      assert ([first.chunk] + Heard(rest))[1..] == Heard(rest);
    }
  }
}
