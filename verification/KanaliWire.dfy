/** The messages of the KANALI protocol; their protobuf encoding is a parameter of the session. */
module KanaliWire {
  import opened Bytes
  import opened KanaliTracks
  import Overlay

  datatype WireHeader = WireHeader(version: nat, trackId: U64, payloadCrc32: nat)

  datatype MediaMode = MediaSingle | MediaDual | MediaKaleidoscope

  datatype LoopMode = LoopSingle | LoopAll | LoopRandom

  datatype StandbyConfiguration = StandbyConfiguration(enable: bool, mediaFile: string)

  datatype DisplayConfiguration = DisplayConfiguration(
    backlightEnable: bool, backlightBrightness: nat, mirror: bool, uiRotation: nat, mediaRotation: nat)

  datatype WorkConfiguration = WorkConfiguration(
    mediaMode: MediaMode, loopMode: LoopMode,
    singleFile: string, dualLeftFile: string, dualRightFile: string, kaleidoscopeFile: string)

  /** Filter settings travel unread. */
  datatype FilterConfiguration = FilterConfiguration(raw: ByteString)

  datatype UserConfiguration = UserConfiguration(
    powerOn: Option<string>,
    standby: Option<StandbyConfiguration>,
    work: Option<WorkConfiguration>,
    filter: Option<FilterConfiguration>,
    display: Option<DisplayConfiguration>)

  const DEFAULT_DISPLAY := DisplayConfiguration(false, 0, false, 0, 0)
  const DEFAULT_WORK := WorkConfiguration(MediaSingle, LoopSingle, "", "", "", "")

  datatype RequestBody =
    | Ping(payload: ByteString)
    | DeviceInformationQuery
    | DeviceAuthenticationQuery
    | SystemConfigurationQuery
    | MediaCatalogQuery
    | UserConfigurationQuery
    | UserConfigurationWrite(config: UserConfiguration)
    | OverlayLayout(groups: seq<Overlay.Group>)
    | MetricBatch(updates: seq<Overlay.Update>)
    | TransferBegin(fileName: string, fileSize: nat)
    | TransferChunk(fileData: ByteString)
    | TransferEnd
    | FileRemoval(fileName: string)
    | MediaReadChunkQuery

  datatype Request = Request(header: Option<WireHeader>, body: RequestBody)

  datatype ResponseBody =
    | Pong(payload: ByteString)
    | DeviceInformation(serial: string)
    | DeviceAuthentication
    | SystemConfiguration
    | MediaCatalog(names: set<string>)
    | UserConfigurationReport(config: UserConfiguration)
    | Acknowledgement
    | TransferBeginStatus(status: int)
    | TransferChunkStatus(status: int)
    | TransferEndStatus(status: int)
    | MediaReadChunk(data: ByteString)
    | AsynchronousEvent

  const SUCCESS := 0

  datatype ProtocolError = ProtocolError(code: int, why: string)

  datatype Response = Response(header: Option<WireHeader>, error: Option<ProtocolError>, body: Option<ResponseBody>)

  /** The body a request waits for. */
  datatype Expect =
    | ExpectPong
    | ExpectDeviceInformation
    | ExpectDeviceAuthentication
    | ExpectSystemConfiguration
    | ExpectMediaCatalog
    | ExpectUserConfiguration
    | ExpectAcknowledgement
    | ExpectTransferBeginStatus
    | ExpectTransferChunkStatus
    | ExpectTransferEndStatus
    | ExpectMediaReadChunk
  {
    predicate Matches(body: Option<ResponseBody>) {
      match body
      case None => false
      case Some(b) =>
        match this
        case ExpectPong => b.Pong?
        case ExpectDeviceInformation => b.DeviceInformation?
        case ExpectDeviceAuthentication => b.DeviceAuthentication?
        case ExpectSystemConfiguration => b.SystemConfiguration?
        case ExpectMediaCatalog => b.MediaCatalog?
        case ExpectUserConfiguration => b.UserConfigurationReport?
        case ExpectAcknowledgement => b.Acknowledgement?
        case ExpectTransferBeginStatus => b.TransferBeginStatus?
        case ExpectTransferChunkStatus => b.TransferChunkStatus?
        case ExpectTransferEndStatus => b.TransferEndStatus?
        case ExpectMediaReadChunk => b.MediaReadChunk?
    }
  }

  datatype KanaliError =
    | NoResponse
    | Rejected(why: string)
    | NotProtobuf
    | NoHeader
    | WrongBody
    | TooManyUnrelated
    | Transport
    | Unsupported
    | Invalid
    | TransferFailed(status: int)
    | NoConfiguration
    | Mismatch
    | Io

  // ----- How a tracked request settles on its reply.

  const MAX_SKIPPED_FRAMES := 256
  const MAX_SKIPPED_BYTES := 4 * 1024 * 1024

  /** A received frame: its payload's length and, if it is protobuf, its message. */
  datatype Arrival = Arrival(size: nat, message: Option<Response>)

  /** An event, a pong nobody waits for, or a reply to another request. */
  predicate Unrelated(track: U64, expected: Expect, arrival: Arrival) {
    && arrival.message.Some?
    && var r := arrival.message.value;
       || r.body == Some(AsynchronousEvent)
       || (r.body.Some? && r.body.value.Pong? && !expected.ExpectPong?)
       || (r.header.Some? && r.header.value.trackId != track)
  }

  /** What the first frame that is not skipped means. */
  function Answer(track: U64, expected: Expect, arrival: Arrival): Result<Response, KanaliError>
    requires !Unrelated(track, expected, arrival)
  {
    if arrival.message.None? then Err(NotProtobuf)
    else
      var r := arrival.message.value;
      if r.header.None? then Err(NoHeader)
      else if r.error.Some? && r.error.value.code != SUCCESS then Err(Rejected(r.error.value.why))
      else if !expected.Matches(r.body) then Err(WrongBody)
      else Ok(r)
  }

  predicate MayRead(skippedFrames: nat, skippedBytes: nat) {
    skippedFrames <= MAX_SKIPPED_FRAMES && skippedBytes <= MAX_SKIPPED_BYTES
  }

  /** The outcome once `arrivals` have come in, given what was skipped before them. */
  function Settle(track: U64, expected: Expect, arrivals: seq<Arrival>, skippedFrames: nat, skippedBytes: nat)
    : Result<Response, KanaliError>
    decreases |arrivals|
  {
    if !MayRead(skippedFrames, skippedBytes) then Err(TooManyUnrelated)
    else if arrivals == [] then Err(NoResponse)
    else if Unrelated(track, expected, arrivals[0]) then
      Settle(track, expected, arrivals[1..], skippedFrames + 1, skippedBytes + arrivals[0].size + 8)
    else Answer(track, expected, arrivals[0])
  }

  function Cost(arrivals: seq<Arrival>): nat {
    if arrivals == [] then 0 else arrivals[0].size + 8 + Cost(arrivals[1..])
  }

  predicate AllUnrelated(track: U64, expected: Expect, arrivals: seq<Arrival>) {
    forall i :: 0 <= i < |arrivals| ==> Unrelated(track, expected, arrivals[i])
  }

  /** Whether the host reads on after skipping exactly these frames. */
  predicate Skippable(track: U64, expected: Expect, arrivals: seq<Arrival>) {
    AllUnrelated(track, expected, arrivals) && MayRead(|arrivals|, Cost(arrivals))
  }

  /** Skipping unrelated frames within bounds leaves the outcome to what follows them. */
  lemma {:induction false} SettleSkips(
      track: U64, expected: Expect, noise: seq<Arrival>, rest: seq<Arrival>, frames: nat, bytes: nat)
    requires AllUnrelated(track, expected, noise) && MayRead(frames + |noise|, bytes + Cost(noise))
    ensures Settle(track, expected, noise + rest, frames, bytes)
            == Settle(track, expected, rest, frames + |noise|, bytes + Cost(noise))
    decreases |noise|
  {
    if noise == [] {
      assert noise + rest == rest;
    } else {
      assert (noise + rest)[1..] == noise[1..] + rest;
      SettleSkips(track, expected, noise[1..], rest, frames + 1, bytes + noise[0].size + 8);
    }
  }

  /**
   * A reply is accepted exactly when only unrelated frames, few and small enough, come before it,
   * and it carries the request's track, no error and the expected body.
   */
  lemma SettleOkIff(track: U64, expected: Expect, arrivals: seq<Arrival>, reply: Response)
    ensures Settle(track, expected, arrivals, 0, 0) == Ok(reply) <==>
            exists n :: 0 <= n < |arrivals|
              && Skippable(track, expected, arrivals[..n])
              && !Unrelated(track, expected, arrivals[n])
              && Answer(track, expected, arrivals[n]) == Ok(reply)
  {
    if Settle(track, expected, arrivals, 0, 0) == Ok(reply) {
      var n := AnswerPosition(track, expected, arrivals, 0, 0);
    }
    if n :| 0 <= n < |arrivals|
            && Skippable(track, expected, arrivals[..n])
            && !Unrelated(track, expected, arrivals[n])
            && Answer(track, expected, arrivals[n]) == Ok(reply)
    {
      assert arrivals == arrivals[..n] + arrivals[n..];
      SettleSkips(track, expected, arrivals[..n], arrivals[n..], 0, 0);
    }
  }

  lemma {:induction false} AnswerPosition(track: U64, expected: Expect, arrivals: seq<Arrival>, frames: nat, bytes: nat)
    returns (n: nat)
    requires Settle(track, expected, arrivals, frames, bytes).Ok?
    ensures n < |arrivals| && AllUnrelated(track, expected, arrivals[..n])
    ensures MayRead(frames + n, bytes + Cost(arrivals[..n]))
    ensures !Unrelated(track, expected, arrivals[n])
    ensures Answer(track, expected, arrivals[n]) == Settle(track, expected, arrivals, frames, bytes)
    decreases |arrivals|
  {
    if Unrelated(track, expected, arrivals[0]) {
      n := AnswerPosition(track, expected, arrivals[1..], frames + 1, bytes + arrivals[0].size + 8);
      n := n + 1;
      assert arrivals[..n] == [arrivals[0]] + arrivals[1..][..n - 1];
    } else {
      n := 0;
    }
  }

  /** What an accepted reply carries. */
  lemma AcceptedReply(track: U64, expected: Expect, arrival: Arrival, reply: Response)
    requires !Unrelated(track, expected, arrival) && Answer(track, expected, arrival) == Ok(reply)
    ensures arrival.message == Some(reply)
    ensures reply.header.Some? && reply.header.value.trackId == track
    ensures reply.error.Some? ==> reply.error.value.code == SUCCESS
    ensures expected.Matches(reply.body)
  {
  }

  /** Still waiting means that every frame so far was unrelated and the bounds are not reached. */
  lemma {:induction false} WaitingIff(track: U64, expected: Expect, arrivals: seq<Arrival>, frames: nat, bytes: nat)
    ensures Settle(track, expected, arrivals, frames, bytes) == Err(NoResponse) <==>
            AllUnrelated(track, expected, arrivals) && MayRead(frames + |arrivals|, bytes + Cost(arrivals))
    decreases |arrivals|
  {
    if arrivals != [] {
      if Unrelated(track, expected, arrivals[0]) {
        WaitingIff(track, expected, arrivals[1..], frames + 1, bytes + arrivals[0].size + 8);
        assert forall i :: 1 <= i < |arrivals| ==> arrivals[1..][i - 1] == arrivals[i];
      }
    }
  }

  /** One more frame either settles the request or was unrelated. */
  lemma SettleOneMore(track: U64, expected: Expect, before: seq<Arrival>, arrival: Arrival)
    requires Skippable(track, expected, before)
    ensures Settle(track, expected, before + [arrival], 0, 0) ==
            if !Unrelated(track, expected, arrival) then Answer(track, expected, arrival)
            else if MayRead(|before| + 1, Cost(before) + arrival.size + 8) then Err(NoResponse)
            else Err(TooManyUnrelated)
    ensures Cost(before + [arrival]) == Cost(before) + arrival.size + 8
  {
    SettleSkips(track, expected, before, [arrival], 0, 0);
    CostAppend(before, [arrival]);
    assert Cost([arrival]) == arrival.size + 8 + Cost([arrival][1..]);
  }

  lemma {:induction false} CostAppend(front: seq<Arrival>, back: seq<Arrival>)
    ensures Cost(front + back) == Cost(front) + Cost(back)
  {
    if front == [] {
      assert front + back == back;
    } else {
      assert (front + back)[1..] == front[1..] + back;
      CostAppend(front[1..], back);
    }
  }

  /** Once settled, later frames change nothing. */
  lemma {:induction false} SettledStays(
      track: U64, expected: Expect, arrivals: seq<Arrival>, more: seq<Arrival>, frames: nat, bytes: nat)
    requires Settle(track, expected, arrivals, frames, bytes) != Err(NoResponse)
    ensures Settle(track, expected, arrivals + more, frames, bytes) == Settle(track, expected, arrivals, frames, bytes)
    decreases |arrivals|
  {
    if arrivals != [] {
      assert (arrivals + more)[1..] == arrivals[1..] + more;
      if MayRead(frames, bytes) && Unrelated(track, expected, arrivals[0]) {
        SettledStays(track, expected, arrivals[1..], more, frames + 1, bytes + arrivals[0].size + 8);
      }
    }
  }

  // ----- What is skipped, and what is not, by the fields of the message.

  /** An event, a pong nobody waits for, or a message under another track. */
  predicate PassesBy(track: U64, pong: bool, r: Response) {
    || r.body == Some(AsynchronousEvent)
    || (!pong && r.body.Some? && r.body.value.Pong?)
    || (r.header.Some? && r.header.value.trackId != track)
  }

  /**
   * Such a message leaves the outcome to what follows, at the price of one frame and its size; any
   * other frame decides it at once, by its header, its error and its body in this order.
   */
  lemma SettleByFields(
      track: U64, expected: Expect, size: nat, message: Option<Response>, rest: seq<Arrival>, frames: nat, bytes: nat)
    requires frames <= 256 && bytes <= 4_194_304
    ensures Settle(track, expected, [Arrival(size, message)] + rest, frames, bytes) ==
      match message
      case None => Err(NotProtobuf)
      case Some(r) =>
        if PassesBy(track, expected.ExpectPong?, r) then Settle(track, expected, rest, frames + 1, bytes + size + 8)
        else if r.header.None? then Err(NoHeader)
        else if r.error.Some? && r.error.value.code != 0 then Err(Rejected(r.error.value.why))
        else if !expected.Matches(r.body) then Err(WrongBody)
        else Ok(r)
  {
    assert ([Arrival(size, message)] + rest)[1..] == rest;
  }

  /** Past the bounds no frame is looked at. */
  lemma SettleBounds(track: U64, expected: Expect, arrivals: seq<Arrival>, frames: nat, bytes: nat)
    ensures frames > 256 || bytes > 4_194_304 ==> Settle(track, expected, arrivals, frames, bytes) == Err(TooManyUnrelated)
  {
  }

  ghost predicate AllPassBy(track: U64, pong: bool, arrivals: seq<Arrival>) {
    forall i :: 0 <= i < |arrivals| ==> arrivals[i].message.Some? && PassesBy(track, pong, arrivals[i].message.value)
  }

  lemma PassingIsUnrelated(track: U64, expected: Expect, arrivals: seq<Arrival>)
    ensures AllPassBy(track, expected.ExpectPong?, arrivals) <==> AllUnrelated(track, expected, arrivals)
  {
    forall i | 0 <= i < |arrivals|
      ensures Unrelated(track, expected, arrivals[i])
              <==> arrivals[i].message.Some? && PassesBy(track, expected.ExpectPong?, arrivals[i].message.value)
    {
    }
  }

  /** A reply behind messages that pass by, not too many, is the outcome. */
  lemma SettlesOnReply(track: U64, expected: Expect, noise: seq<Arrival>, size: nat, reply: Response)
    requires AllPassBy(track, expected.ExpectPong?, noise) && |noise| <= 256 && Cost(noise) <= 4_194_304
    requires !PassesBy(track, expected.ExpectPong?, reply) && expected.Matches(reply.body)
    requires reply.header.Some? && (reply.error.Some? ==> reply.error.value.code == 0)
    ensures Settle(track, expected, noise + [Arrival(size, Some(reply))], 0, 0) == Ok(reply)
  {
    hide Settle, Unrelated, Answer;
    var own := [Arrival(size, Some(reply))];
    PassingIsUnrelated(track, expected, noise);
    SettleSkips(track, expected, noise, own, 0, 0);
    assert own + [] == own;
    SettleByFields(track, expected, size, Some(reply), [], |noise|, Cost(noise));
  }

  /** Each body but an event answers exactly one kind of request; an event and a missing body answer none. */
  lemma MatchesOne(body: Option<ResponseBody>, e: Expect, e': Expect)
    ensures e.Matches(body) && e'.Matches(body) ==> e == e'
    ensures body.None? || body.value.AsynchronousEvent? ==> !e.Matches(body)
    ensures body.Some? && !body.value.AsynchronousEvent? ==> exists one: Expect :: one.Matches(body)
  {
    if body.Some? {
      match body.value
      case Pong(_) => assert ExpectPong.Matches(body);
      case DeviceInformation(_) => assert ExpectDeviceInformation.Matches(body);
      case DeviceAuthentication => assert ExpectDeviceAuthentication.Matches(body);
      case SystemConfiguration => assert ExpectSystemConfiguration.Matches(body);
      case MediaCatalog(_) => assert ExpectMediaCatalog.Matches(body);
      case UserConfigurationReport(_) => assert ExpectUserConfiguration.Matches(body);
      case Acknowledgement => assert ExpectAcknowledgement.Matches(body);
      case TransferBeginStatus(_) => assert ExpectTransferBeginStatus.Matches(body);
      case TransferChunkStatus(_) => assert ExpectTransferChunkStatus.Matches(body);
      case TransferEndStatus(_) => assert ExpectTransferEndStatus.Matches(body);
      case MediaReadChunk(_) => assert ExpectMediaReadChunk.Matches(body);
      case AsynchronousEvent =>
    }
  }

  lemma {:induction false} NeverInvalid(track: U64, expected: Expect, arrivals: seq<Arrival>, frames: nat, bytes: nat)
    ensures Settle(track, expected, arrivals, frames, bytes) != Err(Invalid)
    decreases |arrivals|
  {
    if arrivals != [] {
      NeverInvalid(track, expected, arrivals[1..], frames + 1, bytes + arrivals[0].size + 8);
    }
  }

  // ----- Bootstrap replies carry track zero, which no tracked request uses.

  predicate BootstrapAccepts(expected: Expect, arrival: Arrival) {
    && arrival.message.Some?
    && arrival.message.value.header == Some(WireHeader(1, 0, 0))
    && expected.Matches(arrival.message.value.body)
  }

  /** No frame answers both a bootstrap query and a tracked request. */
  lemma BootstrapAndTrackedApart(track: U64, expected: Expect, expected': Expect, arrival: Arrival)
    requires track != 0 && BootstrapAccepts(expected', arrival)
    ensures Unrelated(track, expected, arrival)
  {
  }
}
