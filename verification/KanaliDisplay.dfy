/** The device half of the protocol: a display that stores what it is sent. */
module KanaliDisplay {
  import opened Bytes
  import opened KanaliTracks
  import opened KanaliWire
  import Overlay

  datatype Inflight = Inflight(name: string, declared: nat, bytes: ByteString)

  /** A display's state, with a record of what reached it. */
  datatype Held = Held(
    config: UserConfiguration,
    files: map<string, ByteString>,
    inflight: Option<Inflight>,
    /** What the display answers to the end of a complete transfer; only zero stores the file. */
    transferStatus: int,
    received: seq<RequestBody>,
    layouts: seq<seq<Overlay.Group>>,
    transferTracks: seq<U64>)

  const SERIAL := "KNL0000000000001"
  const PRESET := "default_01.mp4.h264_2240x1080"

  function Tracked(track: U64, body: ResponseBody): Response {
    Response(Some(WireHeader(1, track, 0)), None, Some(body))
  }

  /** What becomes of the display when a request arrives. */
  function After(held: Held, track: U64, body: RequestBody): Held {
    var h := held.(received := held.received + [body]);
    match body
    case UserConfigurationWrite(config) => h.(config := config)
    case OverlayLayout(groups) => h.(layouts := h.layouts + [groups])
    case TransferBegin(name, size) =>
      h.(transferTracks := h.transferTracks + [track], inflight := Some(Inflight(name, size, [])))
    case TransferChunk(data) =>
      if h.inflight.None? then h
      else h.(inflight := Some(h.inflight.value.(bytes := h.inflight.value.bytes + data)))
    case TransferEnd =>
      var stored := h.inflight.Some? && |h.inflight.value.bytes| == h.inflight.value.declared && h.transferStatus == 0;
      h.(inflight := None, files := if stored then h.files[h.inflight.value.name := h.inflight.value.bytes] else h.files)
    case FileRemoval(name) => h.(files := h.files - {name})
    case _ => h
  }

  /** The reply, if the request gets one. */
  function ReplyTo(held: Held, track: U64, body: RequestBody): Option<Response> {
    match body
    case Ping(payload) => Some(Response(None, None, Some(Pong(payload))))
    case DeviceInformationQuery => Some(Tracked(0, DeviceInformation(SERIAL)))
    case SystemConfigurationQuery => Some(Tracked(0, SystemConfiguration))
    case DeviceAuthenticationQuery => Some(Tracked(0, DeviceAuthentication))
    case MediaCatalogQuery => Some(Tracked(track, MediaCatalog(held.files.Keys + {PRESET})))
    case UserConfigurationQuery => Some(Tracked(track, UserConfigurationReport(held.config)))
    case UserConfigurationWrite(_) => Some(Tracked(track, Acknowledgement))
    case OverlayLayout(_) => Some(Tracked(track, Acknowledgement))
    case MetricBatch(_) => None
    case TransferBegin(_, _) => Some(Tracked(track, TransferBeginStatus(0)))
    case TransferChunk(_) => Some(Tracked(track, TransferChunkStatus(0)))
    case TransferEnd =>
      var whole := held.inflight.Some? && |held.inflight.value.bytes| == held.inflight.value.declared;
      Some(Tracked(track, TransferEndStatus(if whole then held.transferStatus else 3)))
    case FileRemoval(_) => Some(Tracked(track, Acknowledgement))
    case MediaReadChunkQuery => None
  }

  class Display {
    var config: UserConfiguration
    var files: map<string, ByteString>
    var inflight: Option<Inflight>
    var transferStatus: int
    var received: seq<RequestBody>
    var layouts: seq<seq<Overlay.Group>>
    var transferTracks: seq<U64>

    function State(): Held
      reads this
    {
      Held(config, files, inflight, transferStatus, received, layouts, transferTracks)
    }

    method Handle(request: Request) returns (reply: Option<Response>)
      modifies this
      ensures var track := if request.header.Some? then request.header.value.trackId else 0;
              State() == After(old(State()), track, request.body)
              && reply == ReplyTo(old(State()), track, request.body)
    {
      var track := if request.header.Some? then request.header.value.trackId else 0;
      received := received + [request.body];
      match request.body
      case Ping(payload) =>
        reply := Some(Response(None, None, Some(Pong(payload))));
      case DeviceInformationQuery =>
        reply := Some(Tracked(0, DeviceInformation(SERIAL)));
      case SystemConfigurationQuery =>
        reply := Some(Tracked(0, SystemConfiguration));
      case DeviceAuthenticationQuery =>
        reply := Some(Tracked(0, DeviceAuthentication));
      case MediaCatalogQuery =>
        reply := Some(Tracked(track, MediaCatalog(files.Keys + {PRESET})));
      case UserConfigurationQuery =>
        reply := Some(Tracked(track, UserConfigurationReport(config)));
      case UserConfigurationWrite(update) =>
        config := update;
        reply := Some(Tracked(track, Acknowledgement));
      case OverlayLayout(groups) =>
        layouts := layouts + [groups];
        reply := Some(Tracked(track, Acknowledgement));
      case MetricBatch(_) =>
        reply := None;
      case TransferBegin(name, size) =>
        transferTracks := transferTracks + [track];
        inflight := Some(Inflight(name, size, []));
        reply := Some(Tracked(track, TransferBeginStatus(0)));
      case TransferChunk(data) =>
        if inflight.Some? {
          inflight := Some(inflight.value.(bytes := inflight.value.bytes + data));
        }
        reply := Some(Tracked(track, TransferChunkStatus(0)));
      case TransferEnd =>
        var outcome := 3;
        if inflight.Some? && |inflight.value.bytes| == inflight.value.declared {
          if transferStatus == 0 {
            files := files[inflight.value.name := inflight.value.bytes];
          }
          outcome := transferStatus;
        }
        inflight := None;
        reply := Some(Tracked(track, TransferEndStatus(outcome)));
      case FileRemoval(name) =>
        files := files - {name};
        reply := Some(Tracked(track, Acknowledgement));
      case MediaReadChunkQuery =>
        reply := None;
    }
  }

  // ----- What the display is, seen from outside.

  /** A configuration written is the one reported, until the next is written. */
  lemma ConfigurationLaw(held: Held, t: U64, t': U64, body: RequestBody)
    ensures ReplyTo(held, t, UserConfigurationQuery) == Some(Tracked(t, UserConfigurationReport(held.config)))
    ensures After(held, t', body).config == if body.UserConfigurationWrite? then body.config else held.config
  {
  }

  /** A removed file is gone from the catalog and every other one stays; only a completed transfer adds one. */
  lemma CatalogLaw(held: Held, t: U64, t': U64, body: RequestBody, name: string)
    ensures var after := After(held, t, body);
      && ReplyTo(after, t', MediaCatalogQuery) == Some(Tracked(t', MediaCatalog(after.files.Keys + {PRESET})))
      && (body == FileRemoval(name) ==> name !in after.files)
      && (body != FileRemoval(name) && name in held.files ==> name in after.files)
      && (name in after.files && (name !in held.files || after.files[name] != held.files[name]) ==>
            && body.TransferEnd? && held.inflight.Some? && held.inflight.value.name == name && held.transferStatus == 0
            && after.files[name] == held.inflight.value.bytes && |after.files[name]| == held.inflight.value.declared)
  {
  }

  /** Only transfers touch what is in flight, and every end leaves nothing in flight. */
  lemma InflightLaw(held: Held, t: U64, body: RequestBody)
    ensures var after := After(held, t, body);
      && (after.inflight != held.inflight ==> body.TransferBegin? || body.TransferChunk? || body.TransferEnd?)
      && (body.TransferBegin? ==>
            after.inflight == Some(Inflight(body.fileName, body.fileSize, [])) && after.transferTracks == held.transferTracks + [t])
      && (body.TransferChunk? && held.inflight.Some? ==>
            after.inflight == Some(held.inflight.value.(bytes := held.inflight.value.bytes + body.fileData)))
      && (body.TransferEnd? ==> after.inflight == None)
      && after.received == held.received + [body] && after.transferStatus == held.transferStatus
      && after.layouts == held.layouts + if body.OverlayLayout? then [body.groups] else []
  {
  }

  /**
   * Replies: a ping's carries its payload and no header, the three first queries' carry track zero,
   * every other's the request's own track; updates and reads of media get none.
   */
  lemma ReplyLaw(held: Held, track: U64, body: RequestBody)
    ensures var reply := ReplyTo(held, track, body);
      && (reply.None? <==> body.MetricBatch? || body.MediaReadChunkQuery?)
      && (body.Ping? ==> reply == Some(Response(None, None, Some(Pong(body.payload)))))
      && (reply.Some? && !body.Ping? ==>
            && reply.value.error.None?
            && var own := if body.DeviceInformationQuery? || body.SystemConfigurationQuery? || body.DeviceAuthenticationQuery? then 0 else track;
               reply.value.header == Some(WireHeader(1, own, 0)))
      && (body.TransferEnd? ==>
            reply.value.body == Some(TransferEndStatus(
              if held.inflight.Some? && |held.inflight.value.bytes| == held.inflight.value.declared then held.transferStatus
              else 3)))
  {
  }
}
