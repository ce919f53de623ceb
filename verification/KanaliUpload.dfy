/** Uploads: begin, chunk and end exchanges that leave the display with the whole file or none of it. */
module KanaliUpload {
  import opened Bytes
  import opened Text
  import opened KanaliTracks
  import opened KanaliWire
  import opened KanaliDisplay
  import opened KanaliLink

  datatype Product = PanoramaSe | Panorama | Turris620
  {
    function MediaNameSuffix(): string {
      match this
      case Turris620 => ".h264_1280x720"
      case _ => ".h264_2240x1080"
    }

    /** Products that show a session; the Turris only takes uploads. */
    predicate HasDisplayConfiguration() {
      !Turris620?
    }

    /** The Turris takes every transfer under one track. */
    function TransferTrack(): Option<U64> {
      if Turris620? then Some(TURRIS_TRANSFER_TRACK_ID) else None
    }
  }

  const CHUNK_SIZE := 0x4_0000
  const MAX_UPLOAD_BYTES := 500 * 1024 * 1024
  const TURRIS_TRANSFER_TRACK_ID: U64 := 981_521

  predicate EndsWith(s: string, suffix: string) {
    |suffix| <= |s| && s[|s| - |suffix|..] == suffix
  }

  predicate AcceptsUpload(product: Product, name: string, content: ByteString) {
    && IsSafeName(name) && EndsWith(name, product.MediaNameSuffix())
    && 0 < |content| <= MAX_UPLOAD_BYTES
  }

  function CheckTransfer(response: Response): Result<(), KanaliError> {
    match response.body
    case Some(TransferBeginStatus(status)) => CheckStatus(status)
    case Some(TransferChunkStatus(status)) => CheckStatus(status)
    case Some(TransferEndStatus(status)) => CheckStatus(status)
    case _ => Err(WrongBody)
  }

  function CheckStatus(status: int): Result<(), KanaliError> {
    if status == 0 then Ok(()) else Err(TransferFailed(status))
  }

  // ----- The requests an upload consists of.

  function Min(a: nat, b: nat): nat { if a < b then a else b }

  /** How many bytes the next chunk takes. */
  function Wanted(content: ByteString, sent: nat): nat
    requires sent < |content|
  {
    Min(|content| - sent, CHUNK_SIZE)
  }

  function Chunk(content: ByteString, sent: nat): RequestBody
    requires sent < |content|
  {
    TransferChunk(content[sent..sent + Wanted(content, sent)])
  }

  /** The requests from position `sent` on; they stop at the first chunk that cannot be read. */
  function Rest(content: ByteString, sent: nat, readable: nat): seq<RequestBody>
    requires sent <= |content|
    decreases |content| - sent
  {
    if sent == |content| then [TransferEnd]
    else if readable < sent + Wanted(content, sent) then []
    else [Chunk(content, sent)] + Rest(content, sent + Wanted(content, sent), readable)
  }

  function Requests(name: string, content: ByteString, readable: nat): seq<RequestBody> {
    [TransferBegin(name, |content|)] + Rest(content, 0, readable)
  }

  /** The requests of an upload whose file can be read to its end. */
  function Script(name: string, content: ByteString): seq<RequestBody> {
    Requests(name, content, |content|)
  }

  /** The file data that requests carry. */
  function Data(requests: seq<RequestBody>): ByteString {
    if requests == [] then []
    else (if requests[0].TransferChunk? then requests[0].fileData else []) + Data(requests[1..])
  }

  /** The chunks concatenate to the file; each is nonempty and at most 256 KiB; the end comes last and once. */
  lemma {:induction false} ChunksMakeTheFile(content: ByteString, sent: nat)
    requires sent <= |content|
    ensures var rest := Rest(content, sent, |content|);
            && Data(rest) == content[sent..]
            && |rest| > 0 && rest[|rest| - 1] == TransferEnd
            && forall i :: 0 <= i < |rest| - 1 ==> rest[i].TransferChunk? && 0 < |rest[i].fileData| <= CHUNK_SIZE
    decreases |content| - sent
  {
    if sent < |content| {
      var next := sent + Wanted(content, sent);
      ChunksMakeTheFile(content, next);
      assert content[sent..next] + content[next..] == content[sent..];
    }
  }

  // ----- What becomes of an upload, whatever befalls each of its requests.

  /** The display's state, what awaits the requests to come, and the track generator. */
  datatype Moment = Moment(held: Held, fates: seq<Fate>, state: bv64)

  /** How a run of requests ends, and the display's state after each request that reached it. */
  datatype Run = Run(result: Result<(), KanaliError>, end: Moment, history: seq<Held>)

  /** What a session knows besides: how long replies are, and the track transfers are bound to. */
  datatype Setting = Setting(sizeOf: Response -> nat, fixedTrack: Option<U64>)

  function StatusOf(body: RequestBody): Expect {
    if body.TransferBegin? then ExpectTransferBeginStatus
    else if body.TransferChunk? then ExpectTransferChunkStatus
    else ExpectTransferEndStatus
  }

  /** One exchange and the check of its status. */
  function Exchanged(setting: Setting, body: RequestBody, now: Moment): Run {
    var fate, used := FirstFate(now.fates), UsedId(now.state, setting.fixedTrack);
    var held := if fate.reaches then After(now.held, used, body) else now.held;
    var reply := Outcome(fate, setting.sizeOf, now.held, used, body, StatusOf(body));
    Run(
      if reply.Err? then Err(reply.error) else CheckTransfer(reply.value),
      Moment(held, Later(now.fates), NextState(now.state, setting.fixedTrack)),
      if fate.reaches then [held] else [])
  }

  function Preceded(history: seq<Held>, run: Run): Run {
    run.(history := history + run.history)
  }

  /** Requests one after the other, until one fails. */
  function Transfers(setting: Setting, requests: seq<RequestBody>, now: Moment): Run
    decreases |requests|
  {
    if requests == [] then Run(Ok(()), now, [])
    else
      var first := Exchanged(setting, requests[0], now);
      if first.result.Err? then first
      else Preceded(first.history, Transfers(setting, requests[1..], first.end))
  }

  /** `readable` is how much of the file can be read before an I/O error. */
  function UploadRun(
      sizeOf: Response -> nat, product: Product, name: string, content: ByteString, readable: nat, now: Moment): Run
  {
    if !AcceptsUpload(product, name, content) then Run(Err(Invalid), now, [])
    else
      var run := Transfers(Setting(sizeOf, product.TransferTrack()), Requests(name, content, readable), now);
      if run.result.Ok? && readable < |content| then run.(result := Err(Io)) else run
  }

  class Uploader {
    const product: Product
    const link: Link

    constructor (product: Product, link: Link)
      ensures this.product == product && this.link == link
    {
      this.product := product;
      this.link := link;
    }

    ghost function Now(): Moment
      reads this, link, link.display
    {
      Moment(link.display.State(), link.fates, link.track)
    }

    method Exchange(body: RequestBody) returns (result: Result<(), KanaliError>)
      modifies link, link.display
      ensures var run := Exchanged(Setting(link.sizeOf, product.TransferTrack()), body, old(Now()));
        result == run.result && Now() == run.end && link.history == old(link.history) + run.history
    {
      hide After, Outcome, Step, IdOf;
      var response := link.Ask(body, StatusOf(body), product.TransferTrack());
      if response.Err? {
        return Err(response.error);
      }
      result := CheckTransfer(response.value);
    }

    method Upload(name: string, content: ByteString, readable: nat) returns (result: Result<(), KanaliError>)
      modifies link, link.display
      ensures var run := UploadRun(link.sizeOf, product, name, content, readable, old(Now()));
        result == run.result && Now() == run.end && link.history == old(link.history) + run.history
    {
      hide Now, Exchanged, Transfers, AcceptsUpload, UploadRun, Rest;
      ghost var start, history := Now(), link.history;
      UploadBegins(link.sizeOf, product, name, content, readable, start);
      if !AcceptsUpload(product, name, content) {
        assert history + [] == history;
        return Err(Invalid);
      }
      result := Exchange(TransferBegin(name, |content|));
      if result.Err? {
        return;
      }
      ghost var past := link.history;
      result := SendRest(content, readable);
      assert link.history == history + (past[|history|..] + link.history[|past|..]);
    }

    /** The chunks and the end. */
    method SendRest(content: ByteString, readable: nat) returns (result: Result<(), KanaliError>)
      requires content != []
      modifies link, link.display
      ensures RestDone(
        Setting(link.sizeOf, product.TransferTrack()), content, readable, old(Now()), Now(),
        old(link.history), link.history, result)
    {
      hide Now, Exchanged, Transfers, Rest, Chunk, Wanted, Continues, RestDone;
      ghost var setting, start, before := Setting(link.sizeOf, product.TransferTrack()), Now(), link.history;
      ghost var now, past := start, [];
      var sent := 0;
      ContinuesFirst(setting, content, readable, start);
      while sent < |content|
        invariant sent <= |content| && (sent == 0 || sent <= readable)
        invariant now == Now() && link.history == before + past
        invariant Continues(setting, content, readable, start, past, sent, now)
      {
        WantedFits(content, sent);
        var wanted := Wanted(content, sent);
        ghost var first := Exchanged(setting, Chunk(content, sent), now);
        ContinuesOn(setting, content, readable, start, before, past, sent, now);
        if readable < sent + wanted {
          return Err(Io);
        }
        result := Exchange(Chunk(content, sent));
        if result.Err? {
          return;
        }
        sent := sent + wanted;
        past, now := past + first.history, first.end;
      }
      ContinuesToEnd(setting, content, readable, start, before, past, now);
      result := Exchange(TransferEnd);
      if result.Ok? {
        return Ok(());
      }
    }
  }

  /** The rest of an upload has ended as its run does. */
  ghost predicate RestDone(
      setting: Setting, content: ByteString, readable: nat, start: Moment, end: Moment,
      before: seq<Held>, after: seq<Held>, result: Result<(), KanaliError>)
  {
    var run := Transfers(setting, Rest(content, 0, readable), start);
    && result == (if run.result.Ok? && readable < |content| then Err(Io) else run.result)
    && end == run.end && after == before + run.history
  }

  /** The rest of an upload has come to position `sent` through these states, and goes on from here. */
  ghost predicate Continues(
      setting: Setting, content: ByteString, readable: nat, start: Moment, past: seq<Held>, sent: nat, now: Moment)
  {
    sent <= |content| &&
    Transfers(setting, Rest(content, 0, readable), start) == Preceded(past, Transfers(setting, Rest(content, sent, readable), now))
  }

  lemma ContinuesFirst(setting: Setting, content: ByteString, readable: nat, start: Moment)
    ensures Continues(setting, content, readable, start, [], 0, start)
  {
    hide Transfers, Rest;
    var history := Transfers(setting, Rest(content, 0, readable), start).history;
    assert [] + history == history;
  }

  lemma ContinuesOn(
      setting: Setting, content: ByteString, readable: nat, start: Moment, before: seq<Held>, past: seq<Held>, sent: nat, now: Moment)
    requires sent < |content| && Continues(setting, content, readable, start, past, sent, now)
    ensures var first := Exchanged(setting, Chunk(content, sent), now);
      if readable < sent + Wanted(content, sent)
      then RestDone(setting, content, readable, start, now, before, before + past, Err(Io))
      else if first.result.Err?
      then RestDone(setting, content, readable, start, first.end, before, before + past + first.history, first.result)
      else Continues(setting, content, readable, start, past + first.history, sent + Wanted(content, sent), first.end)
  {
    hide Exchanged, Transfers, Rest, Chunk;
    RestRun(setting, content, sent, readable, now);
    var first, next := Exchanged(setting, Chunk(content, sent), now), sent + Wanted(content, sent);
    var more := Transfers(setting, Rest(content, next, readable), first.end).history;
    assert past + (first.history + more) == past + first.history + more;
    assert before + past + first.history == before + (past + first.history);
    assert past + [] == past;
  }

  lemma ContinuesToEnd(
      setting: Setting, content: ByteString, readable: nat, start: Moment, before: seq<Held>, past: seq<Held>, now: Moment)
    requires |content| <= readable && Continues(setting, content, readable, start, past, |content|, now)
    ensures var first := Exchanged(setting, TransferEnd, now);
      RestDone(setting, content, readable, start, first.end, before, before + past + first.history,
        if first.result.Err? then first.result else Ok(()))
  {
    hide Exchanged, Transfers, Rest;
    RestRun(setting, content, |content|, readable, now);
    var first := Exchanged(setting, TransferEnd, now);
    assert before + past + first.history == before + (past + first.history);
  }

  lemma WantedFits(content: ByteString, sent: nat)
    requires sent < |content|
    ensures 0 < Wanted(content, sent) <= |content| - sent
  {
  }

  /** An upload is its first exchange and then the rest. */
  lemma UploadBegins(sizeOf: Response -> nat, product: Product, name: string, content: ByteString, readable: nat, now: Moment)
    ensures AcceptsUpload(product, name, content) ==> content != []
    ensures UploadRun(sizeOf, product, name, content, readable, now) ==
      var setting := Setting(sizeOf, product.TransferTrack());
      if !AcceptsUpload(product, name, content) then Run(Err(Invalid), now, [])
      else
        var first := Exchanged(setting, TransferBegin(name, |content|), now);
        if first.result.Err? then first
        else
          var rest := Transfers(setting, Rest(content, 0, readable), first.end);
          Preceded(first.history, rest.(result := if rest.result.Ok? && readable < |content| then Err(Io) else rest.result))
  {
    hide Exchanged, Rest;
    var requests := Requests(name, content, readable);
    assert requests[1..] == Rest(content, 0, readable);
  }

  /** The rest of an upload is one exchange and the rest after it, unless a chunk cannot be read. */
  lemma RestRun(setting: Setting, content: ByteString, sent: nat, readable: nat, now: Moment)
    requires sent <= |content|
    ensures var run := Transfers(setting, Rest(content, sent, readable), now);
      if sent < |content| && readable < sent + Wanted(content, sent) then run == Run(Ok(()), now, [])
      else
        var first := Exchanged(setting, if sent < |content| then Chunk(content, sent) else TransferEnd, now);
        if first.result.Err? then run == first
        else if sent == |content| then run == first.(result := Ok(()))
        else run == Preceded(first.history, Transfers(setting, Rest(content, sent + Wanted(content, sent), readable), first.end))
  {
    hide Exchanged;
    if sent == |content| {
      var first := Exchanged(setting, TransferEnd, now);
      assert Rest(content, sent, readable)[1..] == [];
      assert Transfers(setting, [], first.end) == Run(Ok(()), first.end, []);
      assert first.history + [] == first.history;
    } else if readable >= sent + Wanted(content, sent) {
      assert Rest(content, sent, readable)[1..] == Rest(content, sent + Wanted(content, sent), readable);
    }
  }

  lemma ExchangedState(setting: Setting, body: RequestBody, now: Moment)
    ensures var run := Exchanged(setting, body, now);
      && run.end.fates == Later(now.fates) && run.end.state == NextState(now.state, setting.fixedTrack)
      && if FirstFate(now.fates).reaches
         then run.end.held == After(now.held, UsedId(now.state, setting.fixedTrack), body) && run.history == [run.end.held]
         else run.end.held == now.held && run.history == []
  {
  }

  // ----- All or nothing, whatever befalls each request.

  /** The files are as they were or with the whole new file, and the settings are untouched. */
  predicate FilesWhole(start: Held, now: Held, name: string, content: ByteString) {
    && (now.files == start.files || now.files == start.files[name := content])
    && now.config == start.config && now.transferStatus == start.transferStatus
  }

  ghost predicate RunWhole(start: Held, run: Run, name: string, content: ByteString) {
    && FilesWhole(start, run.end.held, name, content)
    && forall i :: 0 <= i < |run.history| ==> FilesWhole(start, run.history[i], name, content)
  }

  /** What is in flight, if anything, has this name and size, and as many bytes as were sent only if they are the file's. */
  predicate Begun(start: Held, now: Held, name: string, content: ByteString, sent: nat)
    requires sent <= |content|
  {
    && now.files == start.files && now.config == start.config && now.transferStatus == start.transferStatus
    && (now.inflight.Some? ==>
          var f := now.inflight.value;
          && f.name == name && f.declared == |content| && |f.bytes| <= sent
          && (|f.bytes| == sent ==> f.bytes == content[..sent]))
  }

  lemma BegunChunk(start: Held, now: Held, track: U64, name: string, content: ByteString, sent: nat)
    requires sent < |content| && Begun(start, now, name, content, sent)
    ensures Begun(start, now, name, content, sent + Wanted(content, sent))
    ensures Begun(start, After(now, track, Chunk(content, sent)), name, content, sent + Wanted(content, sent))
  {
    assert content[..sent] + content[sent..sent + Wanted(content, sent)] == content[..sent + Wanted(content, sent)];
  }

  lemma BegunEnd(start: Held, now: Held, track: U64, name: string, content: ByteString)
    requires Begun(start, now, name, content, |content|)
    ensures FilesWhole(start, After(now, track, TransferEnd), name, content)
  {
    assert content[..|content|] == content;
  }

  lemma {:induction false} RestAllOrNothing(
      setting: Setting, start: Held, name: string, content: ByteString, sent: nat, readable: nat, now: Moment)
    requires sent <= |content| && Begun(start, now.held, name, content, sent)
    ensures RunWhole(start, Transfers(setting, Rest(content, sent, readable), now), name, content)
    decreases |content| - sent
  {
    hide Exchanged, Transfers, Rest, After, Chunk, Wanted;
    RestRun(setting, content, sent, readable, now);
    if sent < |content| {
      WantedFits(content, sent);
      var first := Exchanged(setting, Chunk(content, sent), now);
      ExchangedState(setting, Chunk(content, sent), now);
      BegunChunk(start, now.held, UsedId(now.state, setting.fixedTrack), name, content, sent);
      RestAllOrNothing(setting, start, name, content, sent + Wanted(content, sent), readable, first.end);
    } else {
      ExchangedState(setting, TransferEnd, now);
      BegunEnd(start, now.held, UsedId(now.state, setting.fixedTrack), name, content);
    }
  }

  lemma BegunFirst(start: Held, track: U64, name: string, content: ByteString)
    ensures Begun(start, After(start, track, TransferBegin(name, |content|)), name, content, 0)
    ensures start.inflight.None? ==> Begun(start, start, name, content, 0)
    ensures FilesWhole(start, start, name, content)
  {
  }

  /** An accepted status of an honest pipe is the display's own, so the request arrived. */
  lemma HonestArrives(setting: Setting, body: RequestBody, now: Moment)
    requires HonestAt(FirstFate(now.fates), UsedId(now.state, setting.fixedTrack))
    requires Exchanged(setting, body, now).result.Ok?
    ensures FirstFate(now.fates).reaches
    ensures var reply := ReplyTo(now.held, UsedId(now.state, setting.fixedTrack), body);
            reply.Some? && CheckTransfer(reply.value).Ok?
  {
    hide After, ReplyTo, Outcome, Step, IdOf;
    var fate, used := FirstFate(now.fates), UsedId(now.state, setting.fixedTrack);
    var reply := Outcome(fate, setting.sizeOf, now.held, used, body, StatusOf(body));
    HonestReply(fate, setting.sizeOf, now.held, used, body, StatusOf(body), reply.value);
  }

  /**
   * Whatever the pipe does, late replies under the transfer track included, no state on the way
   * holds a part of the file, if no transfer was in flight, the new one's beginning arrives, or it
   * meets no impostor. `AllOrNothingIff` says what the rest is exactly.
   */
  lemma UploadAllOrNothing(
      sizeOf: Response -> nat, product: Product, name: string, content: ByteString, readable: nat, now: Moment)
    requires now.held.inflight.None? || FirstFate(now.fates).reaches
             || HonestAt(FirstFate(now.fates), UsedId(now.state, product.TransferTrack()))
    ensures RunWhole(now.held, UploadRun(sizeOf, product, name, content, readable, now), name, content)
  {
    hide Exchanged, Transfers, Rest, After, Begun, HonestAt, AcceptsUpload, UploadRun, FilesWhole;
    var setting, begin := Setting(sizeOf, product.TransferTrack()), TransferBegin(name, |content|);
    UploadBegins(sizeOf, product, name, content, readable, now);
    BegunFirst(now.held, UsedId(now.state, setting.fixedTrack), name, content);
    BegunWhole(now.held, After(now.held, UsedId(now.state, setting.fixedTrack), begin), name, content);
    ExchangedState(setting, begin, now);
    var first := Exchanged(setting, begin, now);
    if first.result.Ok? {
      if now.held.inflight.Some? && !FirstFate(now.fates).reaches {
        HonestArrives(setting, begin, now);
      }
      RestAllOrNothing(setting, now.held, name, content, 0, readable, first.end);
    }
  }

  lemma BegunWhole(start: Held, now: Held, name: string, content: ByteString)
    ensures Begun(start, now, name, content, 0) ==> FilesWhole(start, now, name, content)
  {
  }

  // ----- When a success is true.

  /** Every request so far has arrived. */
  predicate Caught(start: Held, now: Held, name: string, content: ByteString, sent: nat)
    requires sent <= |content|
  {
    && now.received + Rest(content, sent, |content|) == start.received + Script(name, content)
    && now.inflight == Some(Inflight(name, |content|, content[..sent]))
  }

  /** Some request so far has not arrived, and what is in flight lacks bytes. */
  predicate Missed(start: Held, now: Held, name: string, content: ByteString, sent: nat)
    requires sent <= |content|
  {
    && |now.received| + |Rest(content, sent, |content|)| < |start.received| + |Script(name, content)|
    && (now.inflight.Some? ==> |now.inflight.value.bytes| < sent)
  }

  lemma RestWhole(content: ByteString, sent: nat)
    requires sent <= |content|
    ensures Rest(content, sent, |content|) ==
      if sent == |content| then [TransferEnd]
      else [Chunk(content, sent)] + Rest(content, sent + Wanted(content, sent), |content|)
  {
  }

  lemma ChunkCaught(start: Held, now: Held, track: U64, name: string, content: ByteString, sent: nat)
    requires sent < |content| && Caught(start, now, name, content, sent)
    ensures Caught(start, After(now, track, Chunk(content, sent)), name, content, sent + Wanted(content, sent))
    ensures Missed(start, now, name, content, sent + Wanted(content, sent))
  {
    hide Script, Rest, After, Chunk, Wanted;
    RestWhole(content, sent);
    WantedFits(content, sent);
    var next := sent + Wanted(content, sent);
    var rest := Rest(content, next, |content|);
    ChunkInFlight(now, track, content, sent);
    Arrived(now, track, Chunk(content, sent));
    assert now.received + ([Chunk(content, sent)] + rest) == now.received + [Chunk(content, sent)] + rest;
    assert |now.received + ([Chunk(content, sent)] + rest)| == |now.received| + 1 + |rest|;
  }

  lemma ChunkInFlight(now: Held, track: U64, content: ByteString, sent: nat)
    requires sent < |content| && now.inflight.Some? && now.inflight.value.bytes == content[..sent]
    ensures After(now, track, Chunk(content, sent)).inflight
            == Some(now.inflight.value.(bytes := content[..sent + Wanted(content, sent)]))
  {
    assert content[..sent] + content[sent..sent + Wanted(content, sent)] == content[..sent + Wanted(content, sent)];
  }

  lemma ChunkMissed(start: Held, now: Held, track: U64, name: string, content: ByteString, sent: nat)
    requires sent < |content| && Missed(start, now, name, content, sent)
    ensures Missed(start, After(now, track, Chunk(content, sent)), name, content, sent + Wanted(content, sent))
    ensures Missed(start, now, name, content, sent + Wanted(content, sent))
  {
    hide Script;
    RestWhole(content, sent);
  }

  /** The whole script arrived and the file was stored, if the display takes files; or less arrived, and nothing was. */
  ghost predicate Truthful(start: Held, now: Held, name: string, content: ByteString) {
    || (now.received == start.received + Script(name, content)
        && (start.transferStatus == 0 ==> now.files == start.files[name := content]))
    || (|now.received| < |start.received| + |Script(name, content)| && now.files == start.files)
  }

  lemma EndTruthful(start: Held, now: Held, track: U64, name: string, content: ByteString)
    requires Begun(start, now, name, content, |content|)
    requires Caught(start, now, name, content, |content|) || Missed(start, now, name, content, |content|)
    ensures Truthful(start, now, name, content) && Truthful(start, After(now, track, TransferEnd), name, content)
    ensures Caught(start, now, name, content, |content|) ==>
      After(now, track, TransferEnd).received == start.received + Script(name, content)
  {
    hide Script;
    RestWhole(content, |content|);
    assert content[..|content|] == content;
    if Caught(start, now, name, content, |content|) {
      assert |now.received| + 1 == |start.received| + |Script(name, content)|;
    }
  }

  lemma {:induction false} RestTruthful(
      setting: Setting, start: Held, name: string, content: ByteString, sent: nat, readable: nat, now: Moment)
    requires sent <= |content| <= readable && Begun(start, now.held, name, content, sent)
    requires Caught(start, now.held, name, content, sent) || Missed(start, now.held, name, content, sent)
    ensures var run := Transfers(setting, Rest(content, sent, readable), now);
            run.result.Ok? ==> Truthful(start, run.end.held, name, content)
    decreases |content| - sent
  {
    hide Exchanged, Transfers, Rest, After, Chunk, Wanted, Begun, Caught, Missed, Truthful;
    RestRun(setting, content, sent, readable, now);
    var used := UsedId(now.state, setting.fixedTrack);
    if sent < |content| {
      WantedFits(content, sent);
      var first := Exchanged(setting, Chunk(content, sent), now);
      ExchangedState(setting, Chunk(content, sent), now);
      BegunChunk(start, now.held, used, name, content, sent);
      if Caught(start, now.held, name, content, sent) {
        ChunkCaught(start, now.held, used, name, content, sent);
      } else {
        ChunkMissed(start, now.held, used, name, content, sent);
      }
      RestTruthful(setting, start, name, content, sent + Wanted(content, sent), readable, first.end);
    } else {
      ExchangedState(setting, TransferEnd, now);
      EndTruthful(start, now.held, used, name, content);
    }
  }

  lemma BeginCaught(start: Held, track: U64, name: string, content: ByteString)
    ensures Caught(start, After(start, track, TransferBegin(name, |content|)), name, content, 0)
    ensures start.inflight.None? ==> Missed(start, start, name, content, 0)
  {
    hide Rest;
    var begin, rest := TransferBegin(name, |content|), Rest(content, 0, |content|);
    assert start.received + [begin] + rest == start.received + ([begin] + rest);
    assert content[..0] == [];
  }

  /** No request succeeds once the fates have run out. */
  lemma SuccessHasFate(setting: Setting, body: RequestBody, now: Moment)
    requires Exchanged(setting, body, now).result.Ok?
    ensures now.fates != []
  {
    hide After, ReplyTo, Step, IdOf;
  }

  /** Of requests that all succeeded, as many were received as arrived. */
  lemma {:induction false} SuccessesReceived(setting: Setting, requests: seq<RequestBody>, now: Moment)
    requires Transfers(setting, requests, now).result.Ok?
    ensures |requests| <= |now.fates|
    ensures var n := |Transfers(setting, requests, now).end.held.received| - |now.held.received|;
      n <= |requests| && (n == |requests| <==> forall i :: 0 <= i < |requests| ==> now.fates[i].reaches)
    decreases |requests|
  {
    hide Exchanged, After;
    if requests != [] {
      var first := Exchanged(setting, requests[0], now);
      SuccessHasFate(setting, requests[0], now);
      ExchangedState(setting, requests[0], now);
      Arrived(now.held, UsedId(now.state, setting.fixedTrack), requests[0]);
      SuccessesReceived(setting, requests[1..], first.end);
      FatesShift(now.fates, |requests|);
    }
  }

  lemma FatesShift(fates: seq<Fate>, n: nat)
    requires 0 < n <= |fates|
    ensures (forall i :: 0 <= i < n ==> fates[i].reaches)
            <==> fates[0].reaches && forall i :: 0 <= i < n - 1 ==> Later(fates)[i].reaches
  {
    if forall i :: 0 <= i < n - 1 ==> Later(fates)[i].reaches {
      assert forall i :: 0 < i < n ==> fates[i] == Later(fates)[i - 1];
    }
  }

  /** Of a file that can be read whole, all of it is sent. */
  lemma {:induction false} RestReadable(content: ByteString, sent: nat, readable: nat)
    requires sent <= |content| <= readable
    ensures Rest(content, sent, readable) == Rest(content, sent, |content|)
    decreases |content| - sent
  {
    if sent < |content| {
      RestReadable(content, sent + Wanted(content, sent), readable);
    }
  }

  /**
   * On a display that takes files and does not hold this one yet, a reported success is true exactly
   * when every request of the script reached it; otherwise nothing was stored.
   */
  lemma UploadTrueIff(
      sizeOf: Response -> nat, product: Product, name: string, content: ByteString, readable: nat, now: Moment)
    requires now.held.inflight.None? && now.held.transferStatus == 0 && now.held.files[name := content] != now.held.files
    ensures var run := UploadRun(sizeOf, product, name, content, readable, now); var end := run.end.held;
      run.result.Ok? ==>
      && (end.files == now.held.files[name := content] <==>
            |Script(name, content)| <= |now.fates| && forall i :: 0 <= i < |Script(name, content)| ==> now.fates[i].reaches)
      && (end.files == now.held.files[name := content] <==> end.received == now.held.received + Script(name, content))
      && (end.files == now.held.files[name := content] || end.files == now.held.files)
  {
    hide Exchanged, Transfers, Rest, After, Begun, Caught, Missed, AcceptsUpload, UploadRun, Script;
    var setting, begin := Setting(sizeOf, product.TransferTrack()), TransferBegin(name, |content|);
    UploadBegins(sizeOf, product, name, content, readable, now);
    var first := Exchanged(setting, begin, now);
    ExchangedState(setting, begin, now);
    BegunFirst(now.held, UsedId(now.state, setting.fixedTrack), name, content);
    BeginCaught(now.held, UsedId(now.state, setting.fixedTrack), name, content);
    if |content| <= readable && first.result.Ok? {
      RestTruthful(setting, now.held, name, content, 0, readable, first.end);
      UploadIsScript(sizeOf, product, name, content, readable, now);
      if UploadRun(sizeOf, product, name, content, readable, now).result.Ok? {
        SuccessesReceived(setting, Script(name, content), now);
      }
    }
  }

  lemma UploadIsScript(
      sizeOf: Response -> nat, product: Product, name: string, content: ByteString, readable: nat, now: Moment)
    requires |content| <= readable
    ensures UploadRun(sizeOf, product, name, content, readable, now) ==
      if !AcceptsUpload(product, name, content) then Run(Err(Invalid), now, [])
      else Transfers(Setting(sizeOf, product.TransferTrack()), Script(name, content), now)
  {
    hide Transfers, Rest, AcceptsUpload;
    RestReadable(content, 0, readable);
  }

  // ----- Over honest pipes, and over harmless ones.

  /** The requests that reached the display are the script's, in order, without gaps. */
  predicate InOrder(start: Held, now: Held, script: seq<RequestBody>) {
    start.received <= now.received && now.received[|start.received|..] <= script
  }

  ghost predicate RunInOrder(start: Held, run: Run, script: seq<RequestBody>) {
    && InOrder(start, run.end.held, script)
    && forall i :: 0 <= i < |run.history| ==> InOrder(start, run.history[i], script)
  }

  lemma CaughtInOrder(start: Held, now: Held, script: seq<RequestBody>, rest: seq<RequestBody>)
    requires now.received + rest == start.received + script && |start.received| <= |now.received|
    ensures InOrder(start, now, script)
  {
    var n, k := |start.received|, |now.received|;
    assert now.received == (start.received + script)[..k];
    assert now.received[..n] == start.received;
    assert now.received[n..] == script[..k - n];
  }

  lemma {:induction false} RestHonest(
      setting: Setting, start: Held, name: string, content: ByteString, sent: nat, readable: nat, now: Moment)
    requires sent <= |content| && Begun(start, now.held, name, content, sent) && Caught(start, now.held, name, content, sent)
    requires |start.received| <= |now.held.received| && HonestRun(now.state, setting.fixedTrack, now.fates)
    ensures var run := Transfers(setting, Rest(content, sent, readable), now);
      && RunInOrder(start, run, Script(name, content))
      && (run.result.Ok? && |content| <= readable ==>
            start.transferStatus == 0 && run.end.held.received == start.received + Script(name, content))
    decreases |content| - sent
  {
    hide Exchanged, Transfers, Rest, After, Chunk, Wanted, Begun, HonestRun, InOrder, Script;
    RestRun(setting, content, sent, readable, now);
    HonestNext(now.state, setting.fixedTrack, now.fates);
    var used := UsedId(now.state, setting.fixedTrack);
    CaughtInOrder(start, now.held, Script(name, content), Rest(content, sent, |content|));
    if sent < |content| {
      WantedFits(content, sent);
      var first := Exchanged(setting, Chunk(content, sent), now);
      ExchangedState(setting, Chunk(content, sent), now);
      BegunChunk(start, now.held, used, name, content, sent);
      ChunkCaught(start, now.held, used, name, content, sent);
      var arrived, next := After(now.held, used, Chunk(content, sent)), sent + Wanted(content, sent);
      Arrived(now.held, used, Chunk(content, sent));
      CaughtInOrder(start, arrived, Script(name, content), Rest(content, next, |content|));
      if first.result.Ok? {
        HonestArrives(setting, Chunk(content, sent), now);
        RestHonest(setting, start, name, content, next, readable, first.end);
      }
    } else {
      ExchangedState(setting, TransferEnd, now);
      EndTruthful(start, now.held, used, name, content);
      var arrived := After(now.held, used, TransferEnd);
      Arrived(now.held, used, TransferEnd);
      assert arrived.received + [] == arrived.received;
      CaughtInOrder(start, arrived, Script(name, content), []);
      if Exchanged(setting, TransferEnd, now).result.Ok? {
        HonestArrives(setting, TransferEnd, now);
        EndReply(start, now.held, used, name, content);
      }
    }
  }

  lemma Arrived(held: Held, track: U64, body: RequestBody)
    ensures After(held, track, body).received == held.received + [body]
  {
  }

  lemma EndReply(start: Held, now: Held, track: U64, name: string, content: ByteString)
    requires Begun(start, now, name, content, |content|) && Caught(start, now, name, content, |content|)
    ensures ReplyTo(now, track, TransferEnd) == Some(Tracked(track, TransferEndStatus(start.transferStatus)))
    ensures CheckTransfer(Tracked(track, TransferEndStatus(start.transferStatus))) == CheckStatus(start.transferStatus)
  {
  }

  /**
   * Over a pipe that brings no impostor, the requests arrive in the script's order without gaps, and
   * success means that the display holds the file byte for byte.
   */
  lemma UploadHonest(
      sizeOf: Response -> nat, product: Product, name: string, content: ByteString, readable: nat, now: Moment)
    requires HonestRun(now.state, product.TransferTrack(), now.fates)
    ensures var run := UploadRun(sizeOf, product, name, content, readable, now);
      && RunInOrder(now.held, run, Script(name, content))
      && (run.result.Ok? ==>
            && run.end.held.files == now.held.files[name := content]
            && run.end.held.received == now.held.received + Script(name, content))
  {
    hide Exchanged, Transfers, Rest, After, Begun, Caught, HonestRun, HonestAt, AcceptsUpload, UploadRun, Script, InOrder;
    var setting, begin := Setting(sizeOf, product.TransferTrack()), TransferBegin(name, |content|);
    UploadBegins(sizeOf, product, name, content, readable, now);
    HonestNext(now.state, setting.fixedTrack, now.fates);
    var used := UsedId(now.state, setting.fixedTrack);
    var first := Exchanged(setting, begin, now);
    ExchangedState(setting, begin, now);
    BegunFirst(now.held, used, name, content);
    BeginCaught(now.held, used, name, content);
    BeginInOrder(now.held, used, name, content);
    if first.result.Ok? {
      HonestArrives(setting, begin, now);
      Arrived(now.held, used, begin);
      RestHonest(setting, now.held, name, content, 0, readable, first.end);
      if |content| <= readable {
        RestTruthful(setting, now.held, name, content, 0, readable, first.end);
      }
    }
  }

  lemma BeginInOrder(start: Held, track: U64, name: string, content: ByteString)
    ensures InOrder(start, start, Script(name, content))
    ensures InOrder(start, After(start, track, TransferBegin(name, |content|)), Script(name, content))
  {
    hide Rest;
    assert Script(name, content)[0] == TransferBegin(name, |content|);
  }

  /** Under generated tracks late replies, events and untracked frames leave a success true. */
  lemma UploadAmongStaleFrames(
      sizeOf: Response -> nat, product: Product, name: string, content: ByteString, readable: nat,
      held: Held, seed: bv64, issued: nat, fates: seq<Fate>)
    requires !product.Turris620? && seed != 0 && NoFullCycle(seed, issued + |fates|) && StaleRun(seed, issued, fates)
    ensures var run := UploadRun(sizeOf, product, name, content, readable, Moment(held, fates, StateAfter(seed, issued)));
      run.result.Ok? ==> run.end.held.files == held.files[name := content]
  {
    hide UploadRun, HonestRun, StaleRun, NoFullCycle, RunInOrder, Script;
    StaleRunIsHonest(seed, issued, fates);
    UploadHonest(sizeOf, product, name, content, readable, Moment(held, fates, StateAfter(seed, issued)));
  }

  /** Over a harmless pipe an upload succeeds exactly when the display takes it. */
  lemma {:induction false} RestHarmless(
      setting: Setting, start: Held, name: string, content: ByteString, sent: nat, readable: nat, now: Moment)
    requires sent <= |content| <= readable
    requires Begun(start, now.held, name, content, sent) && Caught(start, now.held, name, content, sent)
    requires HarmlessRun(now.state, setting.fixedTrack, now.fates, |Rest(content, sent, |content|)|)
    ensures var run := Transfers(setting, Rest(content, sent, readable), now);
      run.result == CheckStatus(start.transferStatus) && run.end.held.received == start.received + Script(name, content)
    decreases |content| - sent
  {
    hide Exchanged, Transfers, Rest, After, Chunk, Wanted, Begun, Caught, Script, HarmlessAt;
    RestRun(setting, content, sent, readable, now);
    RestWhole(content, sent);
    var used := UsedId(now.state, setting.fixedTrack);
    if sent < |content| {
      WantedFits(content, sent);
      var first := Exchanged(setting, Chunk(content, sent), now);
      ExchangedState(setting, Chunk(content, sent), now);
      ChunkReply(now.held, used, content, sent);
      HarmlessExchange(setting, Chunk(content, sent), now, TransferChunkStatus(0));
      BegunChunk(start, now.held, used, name, content, sent);
      ChunkCaught(start, now.held, used, name, content, sent);
      RestHarmless(setting, start, name, content, sent + Wanted(content, sent), readable, first.end);
    } else {
      ExchangedState(setting, TransferEnd, now);
      EndReply(start, now.held, used, name, content);
      HarmlessExchange(setting, TransferEnd, now, TransferEndStatus(start.transferStatus));
      EndTruthful(start, now.held, used, name, content);
    }
  }

  lemma ChunkReply(held: Held, track: U64, content: ByteString, sent: nat)
    requires sent < |content|
    ensures Chunk(content, sent).TransferChunk?
    ensures ReplyTo(held, track, Chunk(content, sent)) == Some(Tracked(track, TransferChunkStatus(0)))
  {
  }

  lemma HarmlessExchange(setting: Setting, body: RequestBody, now: Moment, answer: ResponseBody)
    requires now.fates != [] && HarmlessAt(now.fates[0], UsedId(now.state, setting.fixedTrack))
    requires StatusOf(body).Matches(Some(answer))
    requires var track := UsedId(now.state, setting.fixedTrack); ReplyTo(now.held, track, body) == Some(Tracked(track, answer))
    ensures FirstFate(now.fates).reaches
    ensures Exchanged(setting, body, now).result == CheckTransfer(Tracked(UsedId(now.state, setting.fixedTrack), answer))
  {
    hide After, ReplyTo, Outcome, Step, IdOf;
    HarmlessReply(now.fates[0], setting.sizeOf, now.held, UsedId(now.state, setting.fixedTrack), body, StatusOf(body), answer);
  }

  lemma HarmlessNext(state: bv64, fixedTrack: Option<U64>, fates: seq<Fate>, n: nat)
    requires HarmlessRun(state, fixedTrack, fates, n + 1)
    ensures fates != [] && HarmlessAt(fates[0], UsedId(state, fixedTrack))
    ensures HarmlessRun(NextState(state, fixedTrack), fixedTrack, Later(fates), n)
  {
    hide HarmlessAt;
  }

  lemma ScriptLength(name: string, content: ByteString)
    ensures |Script(name, content)| == |Rest(content, 0, |content|)| + 1
  {
  }

  lemma UploadHarmless(
      sizeOf: Response -> nat, product: Product, name: string, content: ByteString, readable: nat, now: Moment)
    requires AcceptsUpload(product, name, content) && |content| <= readable
    requires HarmlessRun(now.state, product.TransferTrack(), now.fates, |Script(name, content)|)
    ensures var run := UploadRun(sizeOf, product, name, content, readable, now);
      && run.result == CheckStatus(now.held.transferStatus)
      && run.end.held.received == now.held.received + Script(name, content)
      && (now.held.transferStatus == 0 ==> run.end.held.files == now.held.files[name := content])
  {
    hide Exchanged, Transfers, Rest, After, Begun, Caught, AcceptsUpload, UploadRun, HarmlessAt, HarmlessRun, Script;
    var setting, begin := Setting(sizeOf, product.TransferTrack()), TransferBegin(name, |content|);
    UploadBegins(sizeOf, product, name, content, readable, now);
    ScriptLength(name, content);
    HarmlessNext(now.state, setting.fixedTrack, now.fates, |Rest(content, 0, |content|)|);
    var used := UsedId(now.state, setting.fixedTrack);
    var first := Exchanged(setting, begin, now);
    ExchangedState(setting, begin, now);
    BeginReply(now.held, used, begin);
    HarmlessExchange(setting, begin, now, TransferBeginStatus(0));
    BegunFirst(now.held, used, name, content);
    BeginCaught(now.held, used, name, content);
    RestHarmless(setting, now.held, name, content, 0, readable, first.end);
    RestTruthful(setting, now.held, name, content, 0, readable, first.end);
  }

  lemma BeginReply(held: Held, track: U64, body: RequestBody)
    requires body.TransferBegin?
    ensures ReplyTo(held, track, body) == Some(Tracked(track, TransferBeginStatus(0)))
  {
  }

  // ----- A success that is not true.

  function GoodStatus(body: RequestBody): ResponseBody {
    if body.TransferBegin? then TransferBeginStatus(0)
    else if body.TransferChunk? then TransferChunkStatus(0)
    else TransferEndStatus(0)
  }

  /** The request is lost and a late status under the same track comes instead. */
  function Deceit(track: U64, body: RequestBody): Fate {
    Fate(false, _ => [Arrival(0, Some(Tracked(track, GoodStatus(body))))], false, false)
  }

  function Deceits(track: U64, requests: seq<RequestBody>): seq<Fate> {
    if requests == [] then [] else [Deceit(track, requests[0])] + Deceits(track, requests[1..])
  }

  lemma DeceivedExchange(setting: Setting, body: RequestBody, now: Moment, rest: seq<Fate>)
    requires now.fates == [Deceit(UsedId(now.state, setting.fixedTrack), body)] + rest
    ensures Exchanged(setting, body, now) ==
            Run(Ok(()), Moment(now.held, rest, NextState(now.state, setting.fixedTrack)), [])
  {
    hide Outcome, After, Step, IdOf;
    var used := UsedId(now.state, setting.fixedTrack);
    ImpostorAccepted(now.fates[0], setting.sizeOf, now.held, used, body, StatusOf(body), GoodStatus(body));
  }

  lemma {:induction false} DeceivedTransfers(setting: Setting, requests: seq<RequestBody>, now: Moment)
    requires setting.fixedTrack.Some? && now.fates == Deceits(setting.fixedTrack.value, requests)
    ensures Transfers(setting, requests, now) == Run(Ok(()), Moment(now.held, [], now.state), [])
    decreases |requests|
  {
    hide Exchanged, Deceit;
    if requests != [] {
      var rest := Deceits(setting.fixedTrack.value, requests[1..]);
      DeceivedExchange(setting, requests[0], now, rest);
      DeceivedTransfers(setting, requests[1..], Moment(now.held, rest, now.state));
    }
  }

  /**
   * Every upload to a Turris can be reported a success though nothing of it arrived: it takes one
   * late status under the fixed track for each request.
   */
  lemma TurrisUploadDeceived(sizeOf: Response -> nat, name: string, content: ByteString, held: Held, state: bv64)
    returns (fates: seq<Fate>)
    requires AcceptsUpload(Turris620, name, content)
    ensures UploadRun(sizeOf, Turris620, name, content, |content|, Moment(held, fates, state))
            == Run(Ok(()), Moment(held, [], state), [])
  {
    hide Transfers, Requests;
    fates := Deceits(TURRIS_TRANSFER_TRACK_ID, Script(name, content));
    DeceivedTransfers(Setting(sizeOf, Turris620.TransferTrack()), Script(name, content), Moment(held, fates, state));
  }

  function Smooth(): Fate {
    Fate(true, _ => [], true, false)
  }

  lemma SmoothIsHarmless(track: U64)
    ensures HarmlessAt(Smooth(), track)
  {
  }

  // ----- What a transfer left in flight can do.

  /** Appending or losing each chunk from position `sent` on turns `bytes` into `b`. */
  predicate MayHold(content: ByteString, sent: nat, bytes: ByteString, b: ByteString)
    requires sent <= |content|
    decreases |content| - sent
  {
    if sent == |content| then b == bytes
    else
      var next := sent + Wanted(content, sent);
      MayHold(content, next, bytes, b) || MayHold(content, next, bytes + content[sent..next], b)
  }

  /** Completing the transfer in flight with `b` leaves files that are neither the old ones nor those with the new file. */
  predicate Spoils(held: Held, name: string, content: ByteString, b: ByteString)
    requires held.inflight.Some?
  {
    var f := held.inflight.value;
    && |b| == f.declared && held.transferStatus == 0
    && held.files[f.name := b] != held.files && held.files[f.name := b] != held.files[name := content]
  }

  /** Some way of keeping and losing chunks spoils the files. */
  ghost predicate Spoilable(held: Held, name: string, content: ByteString, sent: nat, bytes: ByteString)
    requires held.inflight.Some? && sent <= |content|
  {
    exists b :: MayHold(content, sent, bytes, b) && Spoils(held, name, content, b)
  }

  /** As at the start but for the bytes in flight. */
  predicate Leftover(start: Held, now: Held, bytes: ByteString)
    requires start.inflight.Some?
  {
    && now.files == start.files && now.config == start.config && now.transferStatus == start.transferStatus
    && now.inflight == Some(start.inflight.value.(bytes := bytes))
  }

  lemma LeftoverChunk(start: Held, now: Held, track: U64, content: ByteString, sent: nat, bytes: ByteString)
    requires start.inflight.Some? && sent < |content| && Leftover(start, now, bytes)
    ensures Leftover(start, After(now, track, Chunk(content, sent)), bytes + content[sent..sent + Wanted(content, sent)])
  {
  }

  lemma LeftoverEnd(start: Held, now: Held, track: U64, name: string, content: ByteString, b: ByteString)
    requires start.inflight.Some? && Leftover(start, now, b)
    ensures FilesWhole(start, now, name, content)
    ensures FilesWhole(start, After(now, track, TransferEnd), name, content) <==> !Spoils(start, name, content, b)
    ensures |b| == start.inflight.value.declared && start.transferStatus == 0 ==>
      && After(now, track, TransferEnd).files == start.files[start.inflight.value.name := b]
      && ReplyTo(now, track, TransferEnd) == Some(Tracked(track, TransferEndStatus(0)))
  {
  }

  /** A chunk more or less keeps the leftover from spoiling anything, if nothing could to begin with. */
  lemma SpoilableStep(held: Held, name: string, content: ByteString, sent: nat, bytes: ByteString)
    requires held.inflight.Some? && sent <= |content| && !Spoilable(held, name, content, sent, bytes)
    ensures sent == |content| ==> !Spoils(held, name, content, bytes)
    ensures sent < |content| ==>
      var next := sent + Wanted(content, sent);
      && !Spoilable(held, name, content, next, bytes)
      && !Spoilable(held, name, content, next, bytes + content[sent..next])
  {
    hide Spoils;
    if sent == |content| {
      assert MayHold(content, sent, bytes, bytes);
    } else {
      var next := sent + Wanted(content, sent);
      forall b | MayHold(content, next, bytes, b) || MayHold(content, next, bytes + content[sent..next], b)
        ensures MayHold(content, sent, bytes, b)
      {
      }
    }
  }

  lemma {:induction false} RestUnspoiled(
      setting: Setting, start: Held, name: string, content: ByteString, sent: nat, readable: nat, now: Moment, bytes: ByteString)
    requires start.inflight.Some? && sent <= |content| && content != [] && (sent == 0 || sent <= readable)
    requires Leftover(start, now.held, bytes)
    requires |content| <= readable ==> !Spoilable(start, name, content, sent, bytes)
    ensures RunWhole(start, Transfers(setting, Rest(content, sent, readable), now), name, content)
    decreases |content| - sent
  {
    hide Exchanged, Transfers, Rest, After, Chunk, Wanted, Leftover, Spoilable, Spoils, FilesWhole, MayHold;
    RestRun(setting, content, sent, readable, now);
    var used := UsedId(now.state, setting.fixedTrack);
    LeftoverEnd(start, now.held, used, name, content, bytes);
    if |content| <= readable {
      SpoilableStep(start, name, content, sent, bytes);
    }
    if sent == |content| {
      ExchangedState(setting, TransferEnd, now);
    } else {
      WantedFits(content, sent);
      var next := sent + Wanted(content, sent);
      if next <= readable {
        var first := Exchanged(setting, Chunk(content, sent), now);
        ExchangedState(setting, Chunk(content, sent), now);
        LeftoverChunk(start, now.held, used, content, sent, bytes);
        var more := if FirstFate(now.fates).reaches then bytes + content[sent..next] else bytes;
        LeftoverEnd(start, first.end.held, used, name, content, more);
        RestUnspoiled(setting, start, name, content, next, readable, first.end, more);
      }
    }
  }

  /** The fates that keep and lose chunks so that the leftover comes to hold `b`, every request succeeding. */
  lemma {:induction false} SpoilingRest(
      setting: Setting, start: Held, content: ByteString, sent: nat, readable: nat, held: Held, state: bv64,
      bytes: ByteString, b: ByteString)
    returns (fates: seq<Fate>)
    requires start.inflight.Some? && sent <= |content| <= readable && Leftover(start, held, bytes)
    requires MayHold(content, sent, bytes, b) && |b| == start.inflight.value.declared && start.transferStatus == 0
    ensures var run := Transfers(setting, Rest(content, sent, readable), Moment(held, fates, state));
      run.result == Ok(()) && run.end.held.files == start.files[start.inflight.value.name := b]
    decreases |content| - sent
  {
    hide Exchanged, Transfers, Rest, After, Chunk, Wanted, Leftover, Deceit, HarmlessAt, Step, IdOf;
    var used, state' := UsedId(state, setting.fixedTrack), NextState(state, setting.fixedTrack);
    if sent == |content| {
      fates := [Smooth()];
      var now := Moment(held, fates, state);
      RestRun(setting, content, sent, readable, now);
      SmoothIsHarmless(used);
      LeftoverEnd(start, held, used, "", [], b);
      HarmlessExchange(setting, TransferEnd, now, TransferEndStatus(0));
      ExchangedState(setting, TransferEnd, now);
    } else {
      WantedFits(content, sent);
      var next := sent + Wanted(content, sent);
      if MayHold(content, next, bytes, b) {
        var rest := SpoilingRest(setting, start, content, next, readable, held, state', bytes, b);
        fates := [Deceit(used, Chunk(content, sent))] + rest;
        RestRun(setting, content, sent, readable, Moment(held, fates, state));
        DeceivedExchange(setting, Chunk(content, sent), Moment(held, fates, state), rest);
      } else {
        var held' := After(held, used, Chunk(content, sent));
        LeftoverChunk(start, held, used, content, sent, bytes);
        var rest := SpoilingRest(setting, start, content, next, readable, held', state', bytes + content[sent..next], b);
        fates := [Smooth()] + rest;
        RestRun(setting, content, sent, readable, Moment(held, fates, state));
        ChunkKept(setting, content, sent, Moment(held, fates, state), rest);
      }
    }
  }

  lemma ChunkKept(setting: Setting, content: ByteString, sent: nat, now: Moment, rest: seq<Fate>)
    requires sent < |content| && now.fates == [Smooth()] + rest
    ensures var first := Exchanged(setting, Chunk(content, sent), now);
      && first.result.Ok?
      && first.end == Moment(
           After(now.held, UsedId(now.state, setting.fixedTrack), Chunk(content, sent)), rest,
           NextState(now.state, setting.fixedTrack))
  {
    hide Exchanged, After, Chunk, HarmlessAt, Step, IdOf;
    var used := UsedId(now.state, setting.fixedTrack);
    SmoothIsHarmless(used);
    ChunkReply(now.held, used, content, sent);
    HarmlessExchange(setting, Chunk(content, sent), now, TransferChunkStatus(0));
    ExchangedState(setting, Chunk(content, sent), now);
  }

  /**
   * Whatever bytes the leftover may come to hold, once they are as many as it declared, a lost
   * beginning lets them be stored under its name, and the upload reports success.
   */
  lemma LeftoverStored(
      sizeOf: Response -> nat, product: Product, name: string, content: ByteString, readable: nat, held: Held, state: bv64,
      b: ByteString)
    returns (fates: seq<Fate>)
    requires AcceptsUpload(product, name, content) && |content| <= readable
    requires held.inflight.Some? && MayHold(content, 0, held.inflight.value.bytes, b)
    requires |b| == held.inflight.value.declared && held.transferStatus == 0
    ensures var run := UploadRun(sizeOf, product, name, content, readable, Moment(held, fates, state));
      run.result == Ok(()) && run.end.held.files == held.files[held.inflight.value.name := b]
  {
    hide Exchanged, Transfers, Rest, AcceptsUpload, UploadRun, Deceit, MayHold, Step, IdOf;
    var setting, begin := Setting(sizeOf, product.TransferTrack()), TransferBegin(name, |content|);
    var rest := SpoilingRest(
      setting, held, content, 0, readable, held, NextState(state, setting.fixedTrack), held.inflight.value.bytes, b);
    fates := [Deceit(UsedId(state, setting.fixedTrack), begin)] + rest;
    UploadBegins(sizeOf, product, name, content, readable, Moment(held, fates, state));
    DeceivedExchange(setting, begin, Moment(held, fates, state), rest);
  }

  /**
   * Exactly when all-or-nothing holds over every pipe: nothing is in flight, or the upload sends no
   * end, or no way of keeping and losing chunks completes what is in flight to anything but the old
   * or the new files.
   */
  lemma AllOrNothingIff(
      sizeOf: Response -> nat, product: Product, name: string, content: ByteString, readable: nat, held: Held, state: bv64)
    ensures
      (forall fates :: RunWhole(held, UploadRun(sizeOf, product, name, content, readable, Moment(held, fates, state)), name, content))
      <==>
      (held.inflight.Some? && AcceptsUpload(product, name, content) && |content| <= readable ==>
         forall b :: MayHold(content, 0, held.inflight.value.bytes, b) ==> !Spoils(held, name, content, b))
  {
    hide UploadRun, AcceptsUpload, MayHold, Spoils, RunWhole;
    var risky := held.inflight.Some? && AcceptsUpload(product, name, content) && |content| <= readable;
    if risky && exists b :: MayHold(content, 0, held.inflight.value.bytes, b) && Spoils(held, name, content, b) {
      var b :| MayHold(content, 0, held.inflight.value.bytes, b) && Spoils(held, name, content, b);
      var fates := LeftoverSpoils(sizeOf, product, name, content, readable, held, state, b);
      assert !RunWhole(held, UploadRun(sizeOf, product, name, content, readable, Moment(held, fates, state)), name, content);
    } else {
      forall fates
        ensures RunWhole(held, UploadRun(sizeOf, product, name, content, readable, Moment(held, fates, state)), name, content)
      {
        UploadUnspoiled(sizeOf, product, name, content, readable, Moment(held, fates, state));
      }
    }
  }

  lemma LeftoverSpoils(
      sizeOf: Response -> nat, product: Product, name: string, content: ByteString, readable: nat, held: Held, state: bv64,
      b: ByteString)
    returns (fates: seq<Fate>)
    requires AcceptsUpload(product, name, content) && |content| <= readable
    requires held.inflight.Some? && MayHold(content, 0, held.inflight.value.bytes, b) && Spoils(held, name, content, b)
    ensures !RunWhole(held, UploadRun(sizeOf, product, name, content, readable, Moment(held, fates, state)), name, content)
  {
    hide UploadRun, AcceptsUpload, MayHold;
    fates := LeftoverStored(sizeOf, product, name, content, readable, held, state, b);
  }

  lemma UploadUnspoiled(
      sizeOf: Response -> nat, product: Product, name: string, content: ByteString, readable: nat, now: Moment)
    requires now.held.inflight.Some? && AcceptsUpload(product, name, content) && |content| <= readable ==>
      !Spoilable(now.held, name, content, 0, now.held.inflight.value.bytes)
    ensures RunWhole(now.held, UploadRun(sizeOf, product, name, content, readable, now), name, content)
  {
    hide Exchanged, Transfers, Rest, After, AcceptsUpload, UploadRun, Spoilable, HonestAt, FilesWhole;
    if now.held.inflight.None? || FirstFate(now.fates).reaches {
      UploadAllOrNothing(sizeOf, product, name, content, readable, now);
    } else {
      var setting, begin := Setting(sizeOf, product.TransferTrack()), TransferBegin(name, |content|);
      UploadBegins(sizeOf, product, name, content, readable, now);
      ExchangedState(setting, begin, now);
      BegunFirst(now.held, 0, name, content);
      if AcceptsUpload(product, name, content) {
        RestUnspoiled(setting, now.held, name, content, 0, readable, Exchanged(setting, begin, now).end,
          now.held.inflight.value.bytes);
      }
    }
  }

  /**
   * A retry on the same connection is such a case: with the first chunk already in flight, a lost
   * beginning and a lost second chunk put the first chunk twice under the file's own name.
   */
  lemma RetryStoresMixture(
      sizeOf: Response -> nat, product: Product, name: string, content: ByteString, held: Held, state: bv64)
    returns (fates: seq<Fate>)
    requires AcceptsUpload(product, name, content) && |content| == 2 * CHUNK_SIZE && content[..CHUNK_SIZE] != content[CHUNK_SIZE..]
    requires held.inflight == Some(Inflight(name, |content|, content[..CHUNK_SIZE])) && held.transferStatus == 0
    ensures var run := UploadRun(sizeOf, product, name, content, |content|, Moment(held, fates, state));
      var mixture := content[..CHUNK_SIZE] + content[..CHUNK_SIZE];
      run.result == Ok(()) && run.end.held.files == held.files[name := mixture] && mixture != content
  {
    hide UploadRun, AcceptsUpload;
    var mixture := content[..CHUNK_SIZE] + content[..CHUNK_SIZE];
    TwoChunks(content, content[..CHUNK_SIZE]);
    assert mixture[CHUNK_SIZE..] == content[..CHUNK_SIZE];
    fates := LeftoverStored(sizeOf, product, name, content, |content|, held, state, mixture);
  }

  lemma TwoChunks(content: ByteString, bytes: ByteString)
    requires |content| == 2 * CHUNK_SIZE
    ensures MayHold(content, 0, bytes, bytes + content[..CHUNK_SIZE])
  {
    var kept := bytes + content[0..CHUNK_SIZE];
    assert MayHold(content, |content|, kept, kept);
    assert MayHold(content, CHUNK_SIZE, kept, kept);
  }

  // ----- What is refused.

  predicate IsNameChar(c: char) {
    'a' <= c <= 'z' || 'A' <= c <= 'Z' || '0' <= c <= '9' || c == '.' || c == '_' || c == '-'
  }

  lemma {:induction false} TransfersNotInvalid(setting: Setting, requests: seq<RequestBody>, now: Moment)
    ensures Transfers(setting, requests, now).result != Err(Invalid)
    decreases |requests|
  {
    hide Exchanged;
    if requests != [] {
      ExchangeNotInvalid(setting, requests[0], now);
      TransfersNotInvalid(setting, requests[1..], Exchanged(setting, requests[0], now).end);
    }
  }

  lemma ExchangeNotInvalid(setting: Setting, body: RequestBody, now: Moment)
    ensures Exchanged(setting, body, now).result != Err(Invalid)
  {
    hide After, ReplyTo, Settle, Step, IdOf;
    var fate, used := FirstFate(now.fates), UsedId(now.state, setting.fixedTrack);
    var reply := if fate.reaches && fate.answered then ReplyTo(now.held, used, body) else None;
    NeverInvalid(used, StatusOf(body),
      fate.noise(used) + if reply.Some? then [Arrival(setting.sizeOf(reply.value), reply)] else [], 0, 0);
  }

  /** One to 128 plain characters without a leading dot and with the product's ending, on a file of 1 byte to 500 MiB. */
  predicate Uploadable(product: Product, name: string, content: ByteString) {
    var ending := if product.Turris620? then ".h264_1280x720" else ".h264_2240x1080";
    && |ending| <= |name| <= 128 && name[|name| - |ending|..] == ending && name[0] != '.'
    && (forall i :: 0 <= i < |name| ==> IsNameChar(name[i]))
    && 0 < |content| <= 524_288_000
  }

  /** An upload is refused, with nothing sent, exactly when name or file is not of that kind. */
  lemma UploadRefusedIff(
      sizeOf: Response -> nat, product: Product, name: string, content: ByteString, readable: nat, now: Moment)
    ensures var run := UploadRun(sizeOf, product, name, content, readable, now);
      && (run.result == Err(Invalid) <==> !Uploadable(product, name, content))
      && (!Uploadable(product, name, content) ==> run.end == now && run.history == [])
  {
    hide Transfers, Requests, AcceptsUpload, Uploadable;
    AcceptsPlain(product, name, content);
    TransfersNotInvalid(Setting(sizeOf, product.TransferTrack()), Requests(name, content, readable), now);
  }

  lemma AcceptsPlain(product: Product, name: string, content: ByteString)
    ensures AcceptsUpload(product, name, content) <==> Uploadable(product, name, content)
  {
    hide IsNameChar, IsSafeName;
    NamePlain(name);
  }

  lemma NamePlain(name: string)
    ensures IsSafeName(name) <==> 0 < |name| <= 128 && name[0] != '.' && forall i :: 0 <= i < |name| ==> IsNameChar(name[i])
  {
    assert forall c :: c in "._-" <==> c == '.' || c == '_' || c == '-';
  }
}
