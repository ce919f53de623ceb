/** A session over a byte pipe: frames in and out, and the tracked request/reply exchange. */
module KanaliSession {
  import opened Bytes
  import opened KanaliFrame
  import opened KanaliTracks
  import opened KanaliWire

  datatype ReadOutcome = Received(chunk: ByteString) | ReadTimeout | ReadFailed

  datatype WriteOutcome = Accepted(count: nat) | WriteFailed

  /**
   * The transport, scripted: what each read and write call yields and whether each look at the
   * clock finds the deadline passed. A script that runs out times out.
   */
  class Pipe {
    var incoming: seq<ReadOutcome>
    var outgoing: seq<WriteOutcome>
    var clock: seq<bool>
    var sent: ByteString

    method Expired() returns (late: bool)
      modifies this
      ensures incoming == old(incoming) && outgoing == old(outgoing) && sent == old(sent)
      ensures late == Late(old(clock)) && clock == Tail(old(clock))
    {
      if clock == [] {
        return true;
      }
      late := clock[0];
      clock := clock[1..];
    }

    method Read() returns (outcome: ReadOutcome)
      modifies this
      ensures outgoing == old(outgoing) && sent == old(sent) && clock == old(clock)
      ensures outcome == Next(old(incoming)) && incoming == Tail(old(incoming))
    {
      if incoming == [] {
        return ReadTimeout;
      }
      outcome := incoming[0];
      incoming := incoming[1..];
    }

    /** Accepts a prefix of the bytes, or fails. */
    method Write(data: ByteString) returns (outcome: WriteOutcome)
      requires data != []
      modifies this
      ensures incoming == old(incoming) && clock == old(clock)
      ensures outgoing == Tail(old(outgoing)) && outcome == Taken(old(outgoing), |data|)
      ensures sent == old(sent) + if outcome.Accepted? then data[..outcome.count] else []
    {
      if outgoing == [] {
        assert sent + [] == sent;
        return WriteFailed;
      }
      outcome := outgoing[0];
      outgoing := outgoing[1..];
      if outcome.Accepted? {
        outcome := Accepted(if outcome.count <= |data| then outcome.count else |data|);
        sent := sent + data[..outcome.count];
      } else {
        assert sent + [] == sent;
      }
    }
  }

  // ----- What a script comes to.

  function Tail<T>(script: seq<T>): seq<T> {
    if script == [] then [] else script[1..]
  }

  function Late(clock: seq<bool>): bool {
    clock == [] || clock[0]
  }

  function Next(incoming: seq<ReadOutcome>): ReadOutcome {
    if incoming == [] then ReadTimeout else incoming[0]
  }

  /** What becomes of a write of so many bytes. */
  function Taken(outgoing: seq<WriteOutcome>, size: nat): WriteOutcome {
    if outgoing == [] then WriteFailed
    else
      match outgoing[0]
      case Accepted(count) => Accepted(if count <= size then count else size)
      case WriteFailed => WriteFailed
  }

  /** Whether all of so many bytes can be written. */
  predicate Writable(size: nat, outgoing: seq<WriteOutcome>)
    decreases |outgoing|
  {
    size == 0 || (Taken(outgoing, size).Accepted? && Writable(size - Taken(outgoing, size).count, Tail(outgoing)))
  }

  /** The bytes that a read brings. */
  function Chunk(outcome: ReadOutcome): ByteString {
    if outcome.Received? then outcome.chunk else []
  }

  function Brought(outcomes: seq<ReadOutcome>): ByteString {
    if outcomes == [] then [] else Chunk(outcomes[0]) + Brought(outcomes[1..])
  }

  /** The reads and the looks at the clock to come. */
  datatype Supply = Supply(incoming: seq<ReadOutcome>, clock: seq<bool>)

  /** What is left once the reads of a moment are discarded: up to the deadline, or a read that brings nothing. */
  function Drained(supply: Supply): Supply
    decreases |supply.clock|, 0
  {
    var looked := supply.(clock := Tail(supply.clock));
    if Late(supply.clock) then looked else DrainedInTime(looked)
  }

  function DrainedInTime(supply: Supply): Supply
    decreases |supply.clock|, 1
  {
    var next := supply.(incoming := Tail(supply.incoming));
    if Next(supply.incoming).Received? then Drained(next) else next
  }

  datatype Fetched = Fetched(result: Result<Payload, KanaliError>, received: ByteString, supply: Supply)

  /** The payload number `n` of the stream that begins with what was received, read on as far as needed. */
  function Fetch(received: ByteString, n: nat, supply: Supply): Fetched
    decreases |supply.clock|
  {
    var payloads, next := Decode(received).payloads, Supply(Tail(supply.incoming), Tail(supply.clock));
    if n < |payloads| then Fetched(Ok(payloads[n]), received, supply)
    else if Late(supply.clock) then Fetched(Err(NoResponse), received, supply.(clock := next.clock))
    else if Next(supply.incoming).ReadFailed? then Fetched(Err(Transport), received, next)
    else Fetch(received + Chunk(Next(supply.incoming)), n, next)
  }

  datatype Awaited = Awaited(result: Result<Response, KanaliError>, received: ByteString, supply: Supply)

  /** The outcome of waiting, with `n` frames and so many bytes skipped already. */
  function Await(
      decode: Payload -> Option<Response>, used: U64, expected: Expect, received: ByteString, n: nat, bytes: nat, supply: Supply)
    : Awaited
    decreases MAX_SKIPPED_FRAMES + 1 - n
  {
    if !MayRead(n, bytes) then Awaited(Err(TooManyUnrelated), received, supply)
    else if Late(supply.clock) then Awaited(Err(NoResponse), received, supply.(clock := Tail(supply.clock)))
    else
      var next := Fetch(received, n, supply.(clock := Tail(supply.clock)));
      if next.result.Err? then Awaited(Err(next.result.error), next.received, next.supply)
      else
        var arrival := ArrivalOf(decode, next.result.value);
        if Unrelated(used, expected, arrival) then
          Await(decode, used, expected, next.received, n + 1, bytes + arrival.size + 8, next.supply)
        else Awaited(Answer(used, expected, arrival), next.received, next.supply)
  }

  /** A deadline that has passed ends the wait, whatever is pending. */
  lemma AwaitLate(
      decode: Payload -> Option<Response>, used: U64, expected: Expect, received: ByteString, n: nat, bytes: nat, supply: Supply)
    requires Late(supply.clock)
    ensures Await(decode, used, expected, received, n, bytes, supply).result
            == Err(if n > 256 || bytes > 4_194_304 then TooManyUnrelated else NoResponse)
    ensures Await(decode, used, expected, received, n, bytes, supply).received == received
  {
  }

  /** How many looks at the clock find time left. */
  function Looks(clock: seq<bool>): nat {
    if Late(clock) then 0 else 1 + Looks(clock[1..])
  }

  predicate NoFailure(incoming: seq<ReadOutcome>) {
    forall i :: 0 <= i < |incoming| ==> !incoming[i].ReadFailed?
  }

  /**
   * What a read of a frame does to the script: it makes `count` reads, whose bytes it receives. It
   * ends in NoResponse only once a look at the clock finds the deadline passed, and in Transport
   * exactly when its last read failed; and it makes no read after the frame is there.
   */
  lemma {:induction false} FetchMeans(received: ByteString, n: nat, supply: Supply) returns (count: nat)
    ensures FetchedWith(received, n, supply, Fetch(received, n, supply), count)
    decreases |supply.clock|
  {
    hide Decode, Fetch, FetchedWith;
    FetchStep(received, n, supply);
    FetchedAtOnce(received, n, supply);
    if n < |Decode(received).payloads| || Late(supply.clock) {
      count := 0;
    } else if Next(supply.incoming).ReadFailed? {
      count := 1;
    } else {
      var next := Supply(Tail(supply.incoming), Tail(supply.clock));
      var more := FetchMeans(received + Chunk(Next(supply.incoming)), n, next);
      count := 1 + more;
      FetchedLater(received, n, supply, Fetch(received, n, supply), more);
    }
  }

  /** A read of a frame ended so after this many reads. */
  ghost predicate FetchedWith(received: ByteString, n: nat, supply: Supply, f: Fetched, count: nat) {
    && count <= |supply.clock| && (forall i :: 0 <= i < count ==> !supply.clock[i])
    && var made := Made(supply.incoming, count);
       && f.received == received + Brought(made)
       && f.supply.incoming == supply.incoming[|made|..]
       && f.supply.clock == (if f.result == Err(NoResponse) then Tail(supply.clock[count..]) else supply.clock[count..])
       && (count > 0 ==> |Decode(received + Brought(Made(supply.incoming, count - 1))).payloads| <= n)
       && (f.result == Err(Transport) <==> !NoFailure(made))
       && (f.result == Err(NoResponse) ==> count == |supply.clock| || supply.clock[count])
       && (f.result.Ok? ==> n < |Decode(f.received).payloads| && f.result.value == Decode(f.received).payloads[n])
       && (f.result.Err? ==> f.result.error in {NoResponse, Transport} && |Decode(f.received).payloads| <= n)
  }

  lemma FetchedAtOnce(received: ByteString, n: nat, supply: Supply)
    ensures var f := Fetch(received, n, supply);
      && (n < |Decode(received).payloads| || Late(supply.clock) ==> FetchedWith(received, n, supply, f, 0))
      && (|Decode(received).payloads| <= n && !Late(supply.clock) && Next(supply.incoming).ReadFailed? ==>
            FetchedWith(received, n, supply, f, 1))
  {
    hide Decode, NoFailure;
    NoReadsFail();
    NothingMade(supply.incoming);
    OneMoreRead(supply.incoming, 0);
    assert received + [] == received;
  }

  lemma FetchedLater(received: ByteString, n: nat, supply: Supply, f: Fetched, more: nat)
    requires !Late(supply.clock) && !Next(supply.incoming).ReadFailed? && |Decode(received).payloads| <= n
    requires FetchedWith(
      received + Chunk(Next(supply.incoming)), n, Supply(Tail(supply.incoming), Tail(supply.clock)), f, more)
    ensures FetchedWith(received, n, supply, f, 1 + more)
  {
    hide Decode, NoFailure, Brought, Made;
    OneMoreRead(supply.incoming, more);
    var head, rest := Chunk(Next(supply.incoming)), Brought(Made(Tail(supply.incoming), more));
    assert received + (head + rest) == received + head + rest;
    assert Tail(supply.clock)[more..] == supply.clock[1 + more..];
    NotYet(received, supply.incoming, more);
  }

  lemma NotYet(received: ByteString, incoming: seq<ReadOutcome>, more: nat)
    ensures received + Brought(Made(incoming, more))
            == if more == 0 then received else received + Chunk(Next(incoming)) + Brought(Made(Tail(incoming), more - 1))
  {
    hide Made, Brought;
    if more == 0 {
      NothingMade(incoming);
      assert received + [] == received;
    } else {
      OneMoreRead(incoming, more - 1);
      var head, rest := Chunk(Next(incoming)), Brought(Made(Tail(incoming), more - 1));
      assert received + (head + rest) == received + head + rest;
    }
  }

  lemma NothingMade(incoming: seq<ReadOutcome>)
    ensures Brought(Made(incoming, 0)) == []
  {
  }

  /** The part of the script that so many reads use up. */
  function Made(incoming: seq<ReadOutcome>, count: nat): seq<ReadOutcome> {
    incoming[..if count <= |incoming| then count else |incoming|]
  }

  lemma NoReadsFail()
    ensures NoFailure([])
  {
  }

  lemma OneMoreRead(incoming: seq<ReadOutcome>, more: nat)
    ensures var made, rest := Made(incoming, 1 + more), Made(Tail(incoming), more);
      && Brought(made) == Chunk(Next(incoming)) + Brought(rest)
      && (NoFailure(made) <==> !Next(incoming).ReadFailed? && NoFailure(rest))
      && incoming[|made|..] == Tail(incoming)[|rest|..]
  {
    var made, rest := Made(incoming, 1 + more), Made(Tail(incoming), more);
    if incoming != [] {
      assert made == [incoming[0]] + rest;
    }
  }

  /** While time is left and no read fails, a payload of the whole stream is read, and its reads are all that is used up. */
  lemma {:induction false} FetchTimely(received: ByteString, n: nat, supply: Supply)
    requires NoFailure(supply.incoming) && |supply.incoming| <= Looks(supply.clock)
    requires n < |Decode(received + Brought(supply.incoming)).payloads|
    ensures var f := Fetch(received, n, supply);
      && f.result == Ok(Decode(received + Brought(supply.incoming)).payloads[n])
      && f.received + Brought(f.supply.incoming) == received + Brought(supply.incoming)
      && NoFailure(f.supply.incoming)
      && Looks(f.supply.clock) + |supply.incoming| == Looks(supply.clock) + |f.supply.incoming|
    decreases |supply.clock|
  {
    hide Decode;
    var all := received + Brought(supply.incoming);
    if supply.incoming == [] {
      assert all == received;
    }
    if n < |Decode(received).payloads| {
      PayloadsGrow(received, Brought(supply.incoming));
    } else if supply.incoming != [] {
      var head := supply.incoming[0];
      assert received + Chunk(head) + Brought(supply.incoming[1..]) == all;
      FetchTimely(received + Chunk(head), n, Supply(supply.incoming[1..], supply.clock[1..]));
    }
  }

  lemma PayloadsGrow(received: ByteString, more: ByteString)
    ensures Decode(received).payloads <= Decode(received + more).payloads
  {
    hide Decode;
    DecodeCut(received, more);
  }

  /**
   * If the deadline does not pass first and no read fails, the request ends as the whole stream
   * settles it, however the reads cut that stream and whatever timeouts come between them.
   */
  lemma {:induction false} AwaitTimely(
      decode: Payload -> Option<Response>, used: U64, expected: Expect, received: ByteString, n: nat, bytes: nat, supply: Supply)
    requires NoFailure(supply.incoming)
    requires var payloads := Decode(received + Brought(supply.incoming)).payloads;
      && n <= |payloads| && |supply.incoming| + |payloads| - n <= Looks(supply.clock)
      && Settle(used, expected, ArrivalsOf(decode, payloads[n..]), n, bytes) != Err(NoResponse)
    ensures var payloads := Decode(received + Brought(supply.incoming)).payloads;
      Await(decode, used, expected, received, n, bytes, supply).result
      == Settle(used, expected, ArrivalsOf(decode, payloads[n..]), n, bytes)
    decreases MAX_SKIPPED_FRAMES + 1 - n
  {
    hide Decode, Unrelated, Answer;
    var payloads := Decode(received + Brought(supply.incoming)).payloads;
    if MayRead(n, bytes) && n < |payloads| {
      var looked := supply.(clock := Tail(supply.clock));
      FetchTimely(received, n, looked);
      var next := Fetch(received, n, looked);
      var arrival := ArrivalOf(decode, payloads[n]);
      assert ArrivalsOf(decode, payloads[n..])[0] == arrival;
      assert ArrivalsOf(decode, payloads[n..])[1..] == ArrivalsOf(decode, payloads[n + 1..]);
      if Unrelated(used, expected, arrival) {
        AwaitTimely(decode, used, expected, next.received, n + 1, bytes + arrival.size + 8, next.supply);
      }
    }
  }

  /**
   * However the frames of a reply and of what passes by before it are cut into reads, and whatever
   * timeouts come between them, the request ends with that reply if time is left for the reads.
   */
  lemma ReplyComesThrough(
      decode: Payload -> Option<Response>, used: U64, expected: Expect, before: seq<Payload>, payload: Payload,
      reply: Response, supply: Supply)
    requires NoFailure(supply.incoming) && Brought(supply.incoming) == WireAll(before + [payload])
    requires |supply.incoming| + |before| + 1 <= Looks(supply.clock)
    requires AllPassBy(used, expected.ExpectPong?, ArrivalsOf(decode, before))
    requires |before| <= 256 && Cost(ArrivalsOf(decode, before)) <= 4_194_304
    requires decode(payload) == Some(reply) && !PassesBy(used, expected.ExpectPong?, reply)
    requires reply.header.Some? && (reply.error.Some? ==> reply.error.value.code == 0) && expected.Matches(reply.body)
    ensures Await(decode, used, expected, [], 0, 0, supply).result == Ok(reply)
  {
    hide Decode, Settle, Await, Cost, AllPassBy, PassesBy, NoFailure, Looks;
    var payloads := before + [payload];
    DecodeFrames(payloads);
    assert [] + Brought(supply.incoming) == WireAll(payloads);
    assert payloads[0..] == payloads;
    assert ArrivalsOf(decode, payloads) == ArrivalsOf(decode, before) + [Arrival(|payload|, Some(reply))];
    SettlesOnReply(used, expected, ArrivalsOf(decode, before), |payload|, reply);
    AwaitTimely(decode, used, expected, [], 0, 0, supply);
  }

  /** What was on its way before a request is discarded: reads that bring something, while the moment lasts. */
  lemma {:induction false} DrainedIs(front: seq<ReadOutcome>, after: seq<ReadOutcome>, clock: seq<bool>)
    requires |front| <= Looks(clock) && forall i :: 0 <= i < |front| ==> front[i].Received?
    ensures |front| <= |clock|
    ensures Drained(Supply(front + after, clock)) == Drained(Supply(after, clock[|front|..]))
    ensures Late(clock) ==> Drained(Supply(after, clock)) == Supply(after, Tail(clock))
    ensures !Late(clock) && !Next(after).Received? ==> Drained(Supply(after, clock)) == Supply(Tail(after), Tail(clock))
    decreases |front|
  {
    if front == [] {
      assert front + after == after && clock[0..] == clock;
    } else {
      assert (front + after)[1..] == front[1..] + after;
      DrainedIs(front[1..], after, clock[1..]);
      assert clock[1..][|front| - 1..] == clock[|front|..];
    }
  }

  /** A script that takes enough bytes before it fails lets them all be written. */
  lemma {:induction false} EnoughIsWritable(size: nat, counts: seq<nat>, after: seq<WriteOutcome>)
    requires size <= Sum(counts)
    ensures Writable(size, Accepting(counts) + after)
    decreases |counts|
  {
    if size > 0 {
      var outgoing := Accepting(counts) + after;
      assert outgoing[1..] == Accepting(counts[1..]) + after;
      EnoughIsWritable(if counts[0] <= size then size - counts[0] else 0, counts[1..], after);
    }
  }

  function Sum(counts: seq<nat>): nat {
    if counts == [] then 0 else counts[0] + Sum(counts[1..])
  }

  function Accepting(counts: seq<nat>): seq<WriteOutcome> {
    if counts == [] then [] else [Accepted(counts[0])] + Accepting(counts[1..])
  }

  /** A stream read so far decodes to the payloads taken, the bytes dropped, and what is pending. */
  ghost predicate Follows(received: ByteString, taken: seq<Payload>, dropped: nat, pending: ByteString) {
    Decode(received) == Then(Decoded(taken, dropped, []), Decode(pending))
  }

  lemma FollowsNothing(nothing: ByteString)
    requires nothing == []
    ensures Follows(nothing, [], 0, nothing)
  {
    hide Decode;
    DecodeEmpty(nothing);
  }

  lemma FollowsDrop(received: ByteString, taken: seq<Payload>, dropped: nat, pending: ByteString, garbage: nat)
    requires Follows(received, taken, dropped, pending)
    requires garbage <= |pending| && forall k :: 0 <= k < garbage ==> !Viable(pending[k..])
    ensures Follows(received, taken, dropped + garbage, pending[garbage..])
  {
    hide Decode, Viable;
    DiscardIsDecode(pending, garbage);
  }

  lemma FollowsTake(received: ByteString, taken: seq<Payload>, dropped: nat, payload: Payload, rest: ByteString)
    requires Follows(received, taken, dropped, Wire(payload) + rest)
    ensures Follows(received, taken + [payload], dropped, rest)
  {
    CompleteIsWire(Wire(payload) + rest);
    assert taken + ([payload] + Decode(rest).payloads) == taken + [payload] + Decode(rest).payloads;
  }

  lemma FollowsReceive(received: ByteString, taken: seq<Payload>, dropped: nat, pending: ByteString, chunk: ByteString)
    requires Follows(received, taken, dropped, pending)
    ensures Follows(received + chunk, taken, dropped, pending + chunk)
  {
    hide Decode;
    DecodeCut(received, chunk);
    DecodeCut(pending, chunk);
    var d, more := Decode(pending), Decode(Decode(pending).left + chunk);
    assert taken + d.payloads + more.payloads == taken + (d.payloads + more.payloads);
  }

  lemma AwaitStep(
      decode: Payload -> Option<Response>, used: U64, expected: Expect, received: ByteString, n: nat, bytes: nat, supply: Supply)
    ensures Await(decode, used, expected, received, n, bytes, supply) ==
      if !MayRead(n, bytes) then Awaited(Err(TooManyUnrelated), received, supply)
      else if Late(supply.clock) then Awaited(Err(NoResponse), received, supply.(clock := Tail(supply.clock)))
      else
        var next := Fetch(received, n, supply.(clock := Tail(supply.clock)));
        if next.result.Err? then Awaited(Err(next.result.error), next.received, next.supply)
        else
          var arrival := ArrivalOf(decode, next.result.value);
          if Unrelated(used, expected, arrival) then
            Await(decode, used, expected, next.received, n + 1, bytes + arrival.size + 8, next.supply)
          else Awaited(Answer(used, expected, arrival), next.received, next.supply)
  {
    hide Fetch, Unrelated, Answer;
  }

  lemma FetchStep(received: ByteString, n: nat, supply: Supply)
    ensures Fetch(received, n, supply) ==
      var payloads, next := Decode(received).payloads, Supply(Tail(supply.incoming), Tail(supply.clock));
      if n < |payloads| then Fetched(Ok(payloads[n]), received, supply)
      else if Late(supply.clock) then Fetched(Err(NoResponse), received, supply.(clock := next.clock))
      else if Next(supply.incoming).ReadFailed? then Fetched(Err(Transport), received, next)
      else Fetch(received + Chunk(Next(supply.incoming)), n, next)
  {
    hide Decode;
  }

  lemma FollowsPayloads(received: ByteString, taken: seq<Payload>, dropped: nat, pending: ByteString)
    requires Follows(received, taken, dropped, pending)
    ensures Decode(received).payloads == taken + Decode(pending).payloads
  {
  }

  lemma NothingToTake(pending: ByteString)
    requires Viable(pending) && !Complete(pending)
    ensures Decode(pending).payloads == []
  {
  }

  function ArrivalOf(decode: Payload -> Option<Response>, payload: Payload): Arrival {
    Arrival(|payload|, decode(payload))
  }

  /** The frames handed out, as the exchange sees them. */
  function ArrivalsOf(decode: Payload -> Option<Response>, payloads: seq<Payload>): (arrivals: seq<Arrival>)
    ensures |arrivals| == |payloads|
    ensures forall i :: 0 <= i < |payloads| ==> arrivals[i] == ArrivalOf(decode, payloads[i])
  {
    seq(|payloads|, i requires 0 <= i < |payloads| => ArrivalOf(decode, payloads[i]))
  }

  /** Every frame so far was unrelated, so the request waits on, or has given up. */
  ghost predicate OnTheWay(decode: Payload -> Option<Response>, track: U64, expected: Expect, taken: seq<Payload>) {
    var arrivals := ArrivalsOf(decode, taken);
    && AllUnrelated(track, expected, arrivals)
    && Settle(track, expected, arrivals, 0, 0)
       == Err(if MayRead(|taken|, Cost(arrivals)) then NoResponse else TooManyUnrelated)
    && (taken != [] ==> Skippable(track, expected, arrivals[..|taken| - 1]))
  }

  lemma OnTheWayStart(decode: Payload -> Option<Response>, track: U64, expected: Expect)
    ensures OnTheWay(decode, track, expected, []) && Cost(ArrivalsOf(decode, [])) == 0
  {
  }

  lemma OnTheWayNext(
      decode: Payload -> Option<Response>, track: U64, expected: Expect, taken: seq<Payload>, payload: Payload)
    requires OnTheWay(decode, track, expected, taken) && MayRead(|taken|, Cost(ArrivalsOf(decode, taken)))
    ensures var arrival := ArrivalOf(decode, payload);
            var arrivals := ArrivalsOf(decode, taken + [payload]);
            && Skippable(track, expected, arrivals[..|taken|])
            && Cost(arrivals) == Cost(ArrivalsOf(decode, taken)) + |payload| + 8
            && (if Unrelated(track, expected, arrival) then OnTheWay(decode, track, expected, taken + [payload])
                else Settle(track, expected, arrivals, 0, 0) == Answer(track, expected, arrival))
  {
    hide Unrelated, Answer, Settle, Cost;
    var arrival := ArrivalOf(decode, payload);
    var before, after := ArrivalsOf(decode, taken), ArrivalsOf(decode, taken + [payload]);
    assert after == before + [arrival];
    assert after[..|taken|] == before;
    SettleOneMore(track, expected, before, arrival);
  }

  class Session {
    const pipe: Pipe
    const pending: Buffer
    var track: bv64
    /** The protobuf codec. */
    const encode: Request -> ByteString
    const decode: Payload -> Option<Response>

    /** Since the input was last discarded: the bytes read, the payloads handed out, the bytes dropped. */
    ghost var received: ByteString
    ghost var taken: seq<Payload>
    ghost var dropped: nat

    /** What was read so far decodes to the payloads handed out and whatever is still pending. */
    ghost predicate Valid()
      reads this, pending
    {
      Follows(received, taken, dropped, pending.data)
    }

    constructor (pipe: Pipe, seed: bv64, encode: Request -> ByteString, decode: Payload -> Option<Response>)
      ensures Valid() && taken == [] && received == [] && fresh(pending) && pending.data == []
      ensures this.pipe == pipe && track == seed | 1 && this.encode == encode && this.decode == decode
    {
      hide Follows;
      this.pipe := pipe;
      pending := new Buffer([]);
      track := seed | 1;
      this.encode := encode;
      this.decode := decode;
      received, taken, dropped := [], [], 0;
      new;
      FollowsNothing(received);
    }

    method NextTrack() returns (id: U64)
      modifies this`track
      ensures track == Step(old(track)) && id == IdOf(track)
    {
      hide Xor, Right12, Left25, Right27, Multiply, ToU64;
      var x := track;
      x := Xor(x, Right12(x));
      x := Xor(x, Left25(x));
      x := Xor(x, Right27(x));
      track := x;
      id := Multiply(ToU64(x));
      if id == 0 {
        id := 1;
      }
    }

    /** Writes all bytes, or fails with a prefix written. */
    method WriteAll(bytes: ByteString) returns (result: Result<(), KanaliError>)
      modifies pipe
      ensures pipe.incoming == old(pipe.incoming) && pipe.clock == old(pipe.clock)
      ensures result == if Writable(|bytes|, old(pipe.outgoing)) then Ok(()) else Err(Transport)
      ensures result.Ok? ==> pipe.sent == old(pipe.sent) + bytes
      ensures result.Err? ==> exists n: nat :: n < |bytes| && pipe.sent == old(pipe.sent) + bytes[..n]
    {
      var written: nat := 0;
      while written < |bytes|
        invariant written <= |bytes| && pipe.sent == old(pipe.sent) + bytes[..written]
        invariant pipe.incoming == old(pipe.incoming) && pipe.clock == old(pipe.clock)
        invariant Writable(|bytes| - written, pipe.outgoing) <==> Writable(|bytes|, old(pipe.outgoing))
        decreases |pipe.outgoing|, |bytes| - written
      {
        var outcome := pipe.Write(bytes[written..]);
        if outcome.WriteFailed? {
          return Err(Transport);
        }
        assert bytes[..written] + bytes[written..][..outcome.count] == bytes[..written + outcome.count];
        written := written + outcome.count;
      }
      assert bytes[..written] == bytes;
      return Ok(());
    }

    ghost function Ahead(): Supply
      reads this, pipe
    {
      Supply(pipe.incoming, pipe.clock)
    }

    /** The next whole frame's payload, or an error, after which no whole frame is pending. */
    method ReadFrame() returns (result: Result<Payload, KanaliError>)
      requires Valid()
      modifies pipe, pending, this`received, this`taken, this`dropped
      ensures Valid() && pipe.sent == old(pipe.sent)
      ensures old(received) <= received
      ensures result.Ok? ==> taken == old(taken) + [result.value]
      ensures result.Err? ==> taken == old(taken) && Decode(pending.data).payloads == []
      ensures result.Err? ==> result.error in {NoResponse, Transport}
      ensures Fetched(result, received, Ahead()) == Fetch(old(received), |old(taken)|, old(Ahead()))
    {
      hide Follows, Decode, Viable, Complete, Wire;
      while true
        invariant Valid() && taken == old(taken) && old(received) <= received && pipe.sent == old(pipe.sent)
        invariant Fetch(received, |taken|, Ahead()) == Fetch(old(received), |old(taken)|, old(Ahead()))
        decreases |pipe.clock|
      {
        FetchStep(received, |taken|, Ahead());
        ghost var start := pending.data;
        var garbage := DiscardBytesBeforePlausibleFrame(pending);
        FollowsDrop(received, taken, dropped, start, garbage);
        dropped := dropped + garbage;
        var frame := TakeFrame(pending);
        if frame.Ok? && frame.value.Some? {
          FollowsTake(received, taken, dropped, frame.value.value, pending.data);
          taken := taken + [frame.value.value];
          FollowsPayloads(received, taken, dropped, pending.data);
          return Ok(frame.value.value);
        }
        NothingToTake(pending.data);
        FollowsPayloads(received, taken, dropped, pending.data);
        var late := pipe.Expired();
        if late {
          return Err(NoResponse);
        }
        var outcome := pipe.Read();
        match outcome
        case Received(chunk) =>
          FollowsReceive(received, taken, dropped, pending.data, chunk);
          pending.data := pending.data + chunk;
          received := received + chunk;
        case ReadTimeout =>
          assert received + [] == received;
        case ReadFailed =>
          return Err(Transport);
      }
    }

    /** Discards what arrives within a window, and all that was pending. */
    method Drain()
      modifies pipe, pending, this`received, this`taken, this`dropped
      ensures Valid() && received == [] && taken == [] && dropped == 0
      ensures pipe.sent == old(pipe.sent) && pipe.outgoing == old(pipe.outgoing) && Ahead() == Drained(old(Ahead()))
    {
      hide Follows;
      var late := pipe.Expired();
      while !late
        invariant pipe.sent == old(pipe.sent) && pipe.outgoing == old(pipe.outgoing)
        invariant Drained(old(Ahead())) == if late then Ahead() else DrainedInTime(Ahead())
        decreases |pipe.clock|, !late
      {
        var outcome := pipe.Read();
        if !outcome.Received? {
          break;
        }
        late := pipe.Expired();
      }
      pending.data := [];
      received, taken, dropped := [], [], 0;
      FollowsNothing(received);
    }

    ghost function Arrivals(): (arrivals: seq<Arrival>)
      reads this
      ensures |arrivals| == |taken|
    {
      ArrivalsOf(decode, taken)
    }

    /** Reads frames until one settles the request, the bounds are reached, or no more arrive. */
    method AwaitReply(used: U64, expected: Expect) returns (result: Result<Response, KanaliError>)
      requires Valid() && taken == []
      modifies pipe, pending, this`received, this`taken, this`dropped
      ensures Valid() && pipe.sent == old(pipe.sent)
      ensures SettledBy(decode, used, expected, taken, result)
      ensures Awaited(result, received, Ahead()) == Await(decode, used, expected, old(received), 0, 0, old(Ahead()))
    {
      hide Follows, OnTheWay, Unrelated, Answer, Settle, ArrivalsOf, Fetch, Await, Decode, Cost, Late, Tail;
      var skippedFrames, skippedBytes := 0, 0;
      OnTheWayStart(decode, used, expected);
      while MayRead(skippedFrames, skippedBytes)
        invariant Valid() && pipe.sent == old(pipe.sent)
        invariant skippedFrames == |taken| && skippedBytes == Cost(Arrivals())
        invariant OnTheWay(decode, used, expected, taken)
        invariant Await(decode, used, expected, received, skippedFrames, skippedBytes, Ahead())
                  == Await(decode, used, expected, old(received), 0, 0, old(Ahead()))
        decreases MAX_SKIPPED_FRAMES + 1 - skippedFrames
      {
        ghost var before := taken;
        AwaitStep(decode, used, expected, received, skippedFrames, skippedBytes, Ahead());
        var late := pipe.Expired();
        if late {
          Outcome(used, expected);
          return Err(NoResponse);
        }
        var frame := ReadFrame();
        if frame.Err? {
          Outcome(used, expected);
          return Err(frame.error);
        }
        OnTheWayNext(decode, used, expected, before, frame.value);
        var arrival := ArrivalOf(decode, frame.value);
        if !Unrelated(used, expected, arrival) {
          return Answer(used, expected, arrival);
        }
        skippedFrames := skippedFrames + 1;
        skippedBytes := skippedBytes + |frame.value| + 8;
      }
      AwaitStep(decode, used, expected, received, skippedFrames, skippedBytes, Ahead());
      Outcome(used, expected);
      return Err(TooManyUnrelated);
    }

    lemma Outcome(used: U64, expected: Expect)
      requires OnTheWay(decode, used, expected, taken)
      ensures Settle(used, expected, Arrivals(), 0, 0)
              == Err(if MayRead(|taken|, Cost(Arrivals())) then NoResponse else TooManyUnrelated)
      ensures taken != [] ==> Skippable(used, expected, Arrivals()[..|taken| - 1])
    {
    }

    method Stamp(fixedTrack: Option<U64>) returns (used: U64)
      modifies this`track
      ensures if fixedTrack.Some? then used == fixedTrack.value && track == old(track)
              else track == Step(old(track)) && used == IdOf(track)
    {
      if fixedTrack.Some? {
        used := fixedTrack.value;
      } else {
        used := NextTrack();
      }
    }

    /**
     * Sends a tracked request and waits for its reply. The outcome is the one the frames read since
     * the request settle on, and no frame is read once they have.
     */
    method Execute(body: RequestBody, expected: Expect, fixedTrack: Option<U64>)
      returns (result: Result<Response, KanaliError>, used: U64)
      requires Valid()
      modifies pipe, pending, this`track, this`received, this`taken, this`dropped
      ensures Valid()
      ensures if fixedTrack.Some? then used == fixedTrack.value && track == old(track)
              else track == Step(old(track)) && used == IdOf(track)
      ensures var payload := encode(Request(Some(WireHeader(1, used, 0)), body));
              if |payload| > MAX_PAYLOAD_LEN then result == Err(Invalid) && pipe.sent == old(pipe.sent)
              else (
                && result != Err(Invalid)
                && SentOrCut(old(pipe.sent), pipe.sent, Wire(payload), result)
                && SettledBy(decode, used, expected, taken, result)
                && result == if Writable(|Wire(payload)|, old(pipe.outgoing))
                             then Await(decode, used, expected, [], 0, 0, Drained(old(Ahead()))).result
                             else Err(Transport))
    {
      hide Follows, Settle, Wire, Skippable, ArrivalsOf, Step, IdOf, Await, Drained, Writable;
      used := Stamp(fixedTrack);
      var bytes := Encode(encode(Request(Some(WireHeader(1, used, 0)), body)));
      if bytes.None? {
        return Err(Invalid), used;
      }
      Drain();
      var written := WriteAll(bytes.value);
      if written.Err? {
        WaitingIff(used, expected, Arrivals(), 0, 0);
        return Err(Transport), used;
      }
      NeverInvalid(used, expected, Arrivals(), 0, 0);
      result := AwaitReply(used, expected);
      NeverInvalid(used, expected, Arrivals(), 0, 0);
    }
  }

  /**
   * The result is what the frames read settle on, unless the transport failed while the request
   * still waited; and no frame was read after they had.
   */
  ghost predicate SettledBy(
      decode: Payload -> Option<Response>, used: U64, expected: Expect, taken: seq<Payload>, result: Result<Response, KanaliError>)
  {
    var arrivals := ArrivalsOf(decode, taken);
    && (result == Settle(used, expected, arrivals, 0, 0)
        || (result == Err(Transport) && Settle(used, expected, arrivals, 0, 0) == Err(NoResponse)))
    && (taken != [] ==> Skippable(used, expected, arrivals[..|taken| - 1]))
  }

  /** The frame went out whole, or the write failed part of the way. */
  ghost predicate SentOrCut(before: ByteString, after: ByteString, frame: ByteString, result: Result<Response, KanaliError>) {
    || after == before + frame
    || (result == Err(Transport) && exists n: nat :: n < |frame| && after == before + frame[..n])
  }

  /** However the pipe behaves, an exchange reads at most 257 frames, the last of any size. */
  lemma ReadBound(track: U64, expected: Expect, decode: Payload -> Option<Response>, taken: seq<Payload>)
    requires taken != [] ==> Skippable(track, expected, ArrivalsOf(decode, taken)[..|taken| - 1])
    ensures |taken| <= MAX_SKIPPED_FRAMES + 1
    ensures Cost(ArrivalsOf(decode, taken)) <= MAX_SKIPPED_BYTES + MAX_PAYLOAD_LEN + HEADER_LEN
  {
    if taken != [] {
      var arrivals := ArrivalsOf(decode, taken);
      var last := |taken| - 1;
      assert arrivals == arrivals[..last] + [arrivals[last]];
      SettleOneMore(track, expected, arrivals[..last], arrivals[last]);
    }
  }

  /**
   * The frames read are the first ones the received bytes decode to, so an outcome that settled is
   * the one the whole stream settles on, however the reads cut it.
   */
  lemma OutcomeFromStream(
      decode: Payload -> Option<Response>, track: U64, expected: Expect,
      received: ByteString, taken: seq<Payload>, dropped: nat, pending: ByteString)
    requires Follows(received, taken, dropped, pending)
    ensures taken <= Decode(received).payloads
    ensures var outcome := Settle(track, expected, ArrivalsOf(decode, taken), 0, 0);
            outcome != Err(NoResponse) ==>
              Settle(track, expected, ArrivalsOf(decode, Decode(received).payloads), 0, 0) == outcome
  {
    hide Decode, Settle;
    var more := Decode(pending).payloads;
    if Settle(track, expected, ArrivalsOf(decode, taken), 0, 0) != Err(NoResponse) {
      SettledStays(track, expected, ArrivalsOf(decode, taken), ArrivalsOf(decode, more), 0, 0);
      assert ArrivalsOf(decode, taken + more) == ArrivalsOf(decode, taken) + ArrivalsOf(decode, more);
    }
  }
}
