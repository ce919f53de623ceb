/** Applying a change: read the configuration, edit it, write it back, activate it, and check the readback. */
module KanaliApply {
  import opened Bytes
  import opened Text
  import opened KanaliTracks
  import opened KanaliWire
  import opened KanaliDisplay
  import opened KanaliLink
  import opened KanaliUpload
  import Overlay

  /** What a caller wants different; `None` asks for nothing. */
  datatype Change = Change(
    media: Option<seq<string>>, splitScreen: bool, playMode: Option<string>,
    brightness: Option<nat>, backlight: Option<bool>, waterfall: Option<bool>, rotation: Option<nat>)

  datatype DisplayState = DisplayState(
    backlightEnabled: bool, brightness: nat, standbyEnabled: bool, standbyMedia: string,
    mirror: bool, waterfall: bool, screenMode: string, playMode: string, media: seq<string>)

  function StateFrom(config: UserConfiguration): Option<DisplayState> {
    if config.display.None? || config.work.None? then None
    else
      var display, work := config.display.value, config.work.value;
      var (screenMode, playMode, media) :=
        match work.mediaMode
        case MediaDual => ("Screen Splitting", "Single", [work.dualLeftFile, work.dualRightFile])
        case MediaKaleidoscope => ("Kaleidoscope", "Single", [work.kaleidoscopeFile])
        case MediaSingle =>
          ("Full Screen",
           match work.loopMode { case LoopAll => "Loop" case LoopRandom => "Shuffle" case LoopSingle => "Single" },
           [work.singleFile]);
      Some(DisplayState(
        display.backlightEnable,
        if display.backlightBrightness <= 100 then display.backlightBrightness else 100,
        config.standby.Some? && config.standby.value.enable,
        if config.standby.Some? then config.standby.value.mediaFile else "",
        display.mediaRotation == 180, display.uiRotation == 90, screenMode, playMode, media))
  }

  /** What is shown of any configuration: brightness at most 100, standby only if set, and the files of the mode in use. */
  lemma StateShows(config: UserConfiguration)
    ensures StateFrom(config).Some? <==> config.display.Some? && config.work.Some?
    ensures StateFrom(config).Some? ==>
      var state, display, work := StateFrom(config).value, config.display.value, config.work.value;
      && state.brightness <= 100 && (display.backlightBrightness <= 100 ==> state.brightness == display.backlightBrightness)
      && (display.backlightBrightness > 100 ==> state.brightness == 100)
      && state.backlightEnabled == display.backlightEnable
      && (state.mirror <==> display.mediaRotation == 180) && (state.waterfall <==> display.uiRotation == 90)
      && (state.standbyEnabled <==> config.standby.Some? && config.standby.value.enable)
      && state.standbyMedia == (match config.standby { case Some(standby) => standby.mediaFile case None => "" })
      && (work.mediaMode == MediaDual <==> state.screenMode == "Screen Splitting")
      && (work.mediaMode == MediaKaleidoscope <==> state.screenMode == "Kaleidoscope")
      && (work.mediaMode == MediaSingle <==> state.screenMode == "Full Screen")
      && state.media == (match work.mediaMode
           case MediaDual => [work.dualLeftFile, work.dualRightFile]
           case MediaKaleidoscope => [work.kaleidoscopeFile]
           case MediaSingle => [work.singleFile])
      && (state.playMode == "Loop" <==> work.mediaMode == MediaSingle && work.loopMode == LoopAll)
      && (state.playMode == "Shuffle" <==> work.mediaMode == MediaSingle && work.loopMode == LoopRandom)
      && state.playMode in {"Single", "Loop", "Shuffle"}
  {
  }

  // ----- Which changes are accepted.

  predicate TouchesDisplay(change: Change) {
    change.brightness.Some? || change.backlight.Some? || change.waterfall.Some? || change.rotation.Some?
  }

  /** The checks made before anything is sent. */
  predicate WellFormed(change: Change) {
    && (change.media.Some? || TouchesDisplay(change))
    && (change.rotation.Some? ==> change.rotation.value in {0, 90, 180, 270})
    && (change.brightness.Some? ==> change.brightness.value <= 100)
  }

  predicate MediaAccepted(change: Change) {
    change.media.Some? ==>
      && |change.media.value| == (if change.splitScreen then 2 else 1)
      && forall i :: 0 <= i < |change.media.value| ==> IsSafeName(change.media.value[i])
  }

  predicate ValidChange(change: Change) {
    WellFormed(change) && MediaAccepted(change)
  }

  /** Once changed, both configurations a readback needs are there. */
  predicate Readable(config: UserConfiguration, change: Change) {
    (config.work.Some? || change.media.Some?) && (config.display.Some? || TouchesDisplay(change))
  }

  // ----- The edit.

  function LoopModeFor(change: Change): LoopMode {
    if change.playMode == Some("Loop") then LoopAll
    else if change.playMode == Some("Shuffle") then LoopRandom
    else LoopSingle
  }

  function EditWork(work: WorkConfiguration, change: Change): WorkConfiguration
    requires change.media.Some? && MediaAccepted(change)
  {
    var media := change.media.value;
    if change.splitScreen then
      work.(mediaMode := MediaDual, loopMode := LoopSingle, dualLeftFile := media[0], dualRightFile := media[1])
    else
      work.(mediaMode := MediaSingle, loopMode := LoopModeFor(change), singleFile := media[0])
  }

  function Or<T>(given: Option<T>, otherwise: T): T {
    if given.Some? then given.value else otherwise
  }

  function EditDisplay(display: DisplayConfiguration, change: Change): DisplayConfiguration {
    display.(
      backlightBrightness := Or(change.brightness, display.backlightBrightness),
      backlightEnable := Or(change.backlight, display.backlightEnable),
      uiRotation := if change.waterfall.Some? then (if change.waterfall.value then 90 else 0) else display.uiRotation,
      mediaRotation := Or(change.rotation, display.mediaRotation))
  }

  /** The configuration after the change. */
  function Edited(config: UserConfiguration, change: Change): UserConfiguration
    requires MediaAccepted(change)
  {
    config.(
      work := if change.media.Some? then Some(EditWork(Or(config.work, DEFAULT_WORK), change)) else config.work,
      display := if TouchesDisplay(change) then Some(EditDisplay(Or(config.display, DEFAULT_DISPLAY), change)) else config.display)
  }

  /** The readback check. */
  predicate Shows(state: DisplayState, change: Change) {
    && (change.media.Some? ==>
          state.media == change.media.value
          && state.screenMode == if change.splitScreen then "Screen Splitting" else "Full Screen")
    && (change.brightness.Some? ==> state.brightness == change.brightness.value)
    && (change.waterfall.Some? ==> state.waterfall == change.waterfall.value)
  }

  /** A valid change shows in the readback, and so do the fields the check leaves out. */
  lemma EditedShows(config: UserConfiguration, change: Change)
    requires ValidChange(change)
    ensures StateFrom(Edited(config, change)).Some? <==> Readable(config, change)
    ensures Readable(config, change) ==>
      var state := StateFrom(Edited(config, change)).value;
      && Shows(state, change)
      && (change.backlight.Some? ==> state.backlightEnabled == change.backlight.value)
      && (change.rotation.Some? ==> state.mirror == (change.rotation.value == 180))
      && (change.media.Some? ==>
            state.playMode == if !change.splitScreen && change.playMode in {Some("Loop"), Some("Shuffle")}
                              then change.playMode.value else "Single")
  {
  }

  /** The readback is accepted exactly when making the change to what was read would show no other picture, mode, brightness or layout. */
  lemma ShowsIff(config: UserConfiguration, change: Change)
    requires ValidChange(change) && config.display.Some? && config.work.Some?
    ensures var read, made := StateFrom(config).value, StateFrom(Edited(config, change)).value;
      Shows(read, change) <==>
        read.media == made.media && read.screenMode == made.screenMode && read.brightness == made.brightness
        && read.waterfall == made.waterfall
  {
  }

  /** A configuration the display can hold. */
  predicate InLimits(config: UserConfiguration) {
    && config.display.Some? && config.display.value.mediaRotation in {0, 90, 180, 270}
    && StateFrom(config).Some?
    && forall i :: 0 <= i < |StateFrom(config).value.media| ==> IsSafeName(StateFrom(config).value.media[i])
  }

  predicate Satisfies(config: UserConfiguration, change: Change) {
    && config.display.Some? && StateFrom(config).Some? && Shows(StateFrom(config).value, change)
    && (change.rotation.Some? ==> config.display.value.mediaRotation == change.rotation.value)
  }

  lemma PlainName()
    ensures IsSafeName("a")
  {
  }

  /** A change that asks for something is refused exactly when nothing the display can hold satisfies it. */
  lemma ValidIff(change: Change)
    ensures ValidChange(change) <==>
              change != Change(None, change.splitScreen, change.playMode, None, None, None, None)
              && exists config :: InLimits(config) && Satisfies(config, change)
  {
    hide IsSafeName;
    PlainName();
    if ValidChange(change) {
      var work := DEFAULT_WORK.(singleFile := "a");
      var plain := UserConfiguration(None, None, Some(work), None, Some(DEFAULT_DISPLAY));
      assert InLimits(plain);
      EditedShows(plain, change);
      assert InLimits(Edited(plain, change)) && Satisfies(Edited(plain, change), change);
    }
  }

  /** What the change does not cover keeps its value. */
  lemma EditedKeeps(config: UserConfiguration, change: Change)
    requires ValidChange(change)
    ensures var after := Edited(config, change);
            && after.powerOn == config.powerOn && after.standby == config.standby && after.filter == config.filter
            && (change.media.None? ==> after.work == config.work)
            && (!TouchesDisplay(change) ==> after.display == config.display)
            && (config.work.Some? && after.work.Some? ==>
                  var w, w' := config.work.value, after.work.value;
                  && w'.kaleidoscopeFile == w.kaleidoscopeFile
                  && (change.media.None? || change.splitScreen ==> w'.singleFile == w.singleFile)
                  && (change.media.None? || !change.splitScreen ==>
                        w'.dualLeftFile == w.dualLeftFile && w'.dualRightFile == w.dualRightFile))
            && (config.display.Some? && after.display.Some? ==>
                  var d, d' := config.display.value, after.display.value;
                  && d'.mirror == d.mirror
                  && (change.brightness.None? ==> d'.backlightBrightness == d.backlightBrightness)
                  && (change.backlight.None? ==> d'.backlightEnable == d.backlightEnable)
                  && (change.waterfall.None? ==> d'.uiRotation == d.uiRotation)
                  && (change.rotation.None? ==> d'.mediaRotation == d.mediaRotation))
  {
  }

  /** Applying a change twice is applying it once. */
  lemma EditedTwice(config: UserConfiguration, change: Change)
    requires ValidChange(change)
    ensures Edited(Edited(config, change), change) == Edited(config, change)
  {
  }

  // ----- Applying over a pipe.

  /**
   * The display's configuration is the one it had or the change made to `base`, the configuration
   * that was read; an invalid change never gets written.
   */
  ghost predicate UntouchedOrEdited(start: Held, now: Held, change: Change, base: UserConfiguration) {
    && (now.config == start.config || (ValidChange(change) && now.config == Edited(base, change)))
    && now.files == start.files && now.transferStatus == start.transferStatus && now.inflight == start.inflight
    && start.received <= now.received
    && forall i :: |start.received| <= i < |now.received| && now.received[i].UserConfigurationWrite? ==>
         ValidChange(change) && now.received[i].config == Edited(base, change)
  }

  ghost predicate ApplySafe(
      start: Held, past: seq<Held>, now: Held, history: seq<Held>, change: Change, base: UserConfiguration)
  {
    && past <= history && UntouchedOrEdited(start, now, change, base)
    && forall i :: |past| <= i < |history| ==> UntouchedOrEdited(start, history[i], change, base)
  }

  // ----- Which requests are sent, in which order.

  /** The requests of a change, for the configuration that was read. */
  function Steps(base: UserConfiguration, change: Change, groups: seq<Overlay.Group>): seq<RequestBody> {
    [UserConfigurationQuery]
    + if ValidChange(change)
      then [UserConfigurationWrite(Edited(base, change)), OverlayLayout(groups), UserConfigurationQuery]
      else []
  }

  /** The requests among these that reach the display. */
  function Kept(requests: seq<RequestBody>, fates: seq<Fate>): seq<RequestBody>
    decreases |requests|
  {
    if requests == [] then []
    else (if FirstFate(fates).reaches then [requests[0]] else []) + Kept(requests[1..], Later(fates))
  }

  function Nth(fates: seq<Fate>, n: nat): seq<Fate> {
    if n == 0 then fates else Nth(Later(fates), n - 1)
  }

  /** The layouts among these requests. */
  function LayoutsIn(requests: seq<RequestBody>): seq<seq<Overlay.Group>> {
    if requests == [] then []
    else (if requests[0].OverlayLayout? then [requests[0].groups] else []) + LayoutsIn(requests[1..])
  }

  /** So many requests of a list were sent, and those that arrived were received, in order. */
  ghost predicate Sent(start: Held, now: Held, requests: seq<RequestBody>, before: seq<Fate>, fates: seq<Fate>) {
    && now.received == start.received + Kept(requests, before)
    && now.layouts == start.layouts + LayoutsIn(Kept(requests, before))
    && fates == Nth(before, |requests|)
  }

  lemma SentNone(start: Held, fates: seq<Fate>)
    ensures Sent(start, start, [], fates, fates)
  {
  }

  lemma {:induction false} NthOneMore(fates: seq<Fate>, n: nat)
    ensures Nth(fates, n + 1) == Later(Nth(fates, n))
  {
    if n > 0 {
      NthOneMore(Later(fates), n - 1);
    }
  }

  lemma {:induction false} KeptOneMore(requests: seq<RequestBody>, body: RequestBody, fates: seq<Fate>)
    ensures Kept(requests + [body], fates)
            == Kept(requests, fates) + if FirstFate(Nth(fates, |requests|)).reaches then [body] else []
    decreases |requests|
  {
    hide FirstFate, Later;
    if requests == [] {
      assert [] + [body] == [body];
    } else {
      var whole, last := requests + [body], if FirstFate(Nth(fates, |requests|)).reaches then [body] else [];
      assert whole[1..] == requests[1..] + [body] && whole[0] == requests[0];
      KeptOneMore(requests[1..], body, Later(fates));
      assert Kept(whole, fates)
        == (if FirstFate(fates).reaches then [whole[0]] else []) + (Kept(requests[1..], Later(fates)) + last);
    }
  }

  lemma {:induction false} LayoutsAppend(front: seq<RequestBody>, back: seq<RequestBody>)
    ensures LayoutsIn(front + back) == LayoutsIn(front) + LayoutsIn(back)
  {
    if front == [] {
      assert front + back == back;
    } else {
      assert (front + back)[1..] == front[1..] + back;
      LayoutsAppend(front[1..], back);
    }
  }

  lemma SentOneMore(
      start: Held, before: Held, now: Held, requests: seq<RequestBody>, first: seq<Fate>, fates: seq<Fate>, state: bv64,
      body: RequestBody)
    requires Sent(start, before, requests, first, fates) && Went(before, now, state, body, FirstFate(fates).reaches)
    requires !body.TransferBegin? && !body.TransferChunk? && !body.TransferEnd?
    ensures Sent(start, now, requests + [body], first, Later(fates))
  {
    hide Kept, Nth;
    KeptOneMore(requests, body, first);
    NthOneMore(first, |requests|);
    if FirstFate(fates).reaches {
      LayoutsAppend(Kept(requests, first), [body]);
      assert LayoutsIn([body]) == if body.OverlayLayout? then [body.groups] else [];
      assert now.received == before.received + [body];
    } else {
      assert Kept(requests, first) + [] == Kept(requests, first);
    }
  }

  /** A change being applied: where it began, and the configuration that was read. */
  datatype Going = Going(start: Held, past: seq<Held>, fates: seq<Fate>, change: Change, base: UserConfiguration)
  {
    /** These requests were sent, and every state on the way was safe. */
    ghost predicate At(now: Held, history: seq<Held>, requests: seq<RequestBody>, left: seq<Fate>) {
      ApplySafe(start, past, now, history, change, base) && Sent(start, now, requests, fates, left)
    }

    lemma Begins()
      ensures At(start, past, [], fates)
    {
      Untouched(start, past, change, base);
      SentNone(start, fates);
    }

    lemma Means(now: Held, history: seq<Held>, requests: seq<RequestBody>, left: seq<Fate>)
      requires At(now, history, requests, left)
      ensures ApplySafe(start, past, now, history, change, base) && Sent(start, now, requests, fates, left)
    {
    }

    /** One more request, which is a query, the valid change's write, or a layout. */
    lemma On(
        before: Held, history: seq<Held>, requests: seq<RequestBody>, left: seq<Fate>, now: Held, history': seq<Held>,
        state: bv64, body: RequestBody)
      requires At(before, history, requests, left)
      requires body == UserConfigurationQuery || body.OverlayLayout?
               || (ValidChange(change) && body == UserConfigurationWrite(Edited(base, change)))
      requires Went(before, now, state, body, FirstFate(left).reaches)
      requires history' == history + if FirstFate(left).reaches then [now] else []
      ensures At(now, history', requests + [body], Later(left))
      ensures now.config == if body.UserConfigurationWrite? && FirstFate(left).reaches then body.config else before.config
    {
      hide ApplySafe, Sent, Edited, ValidChange, After;
      SentOneMore(start, before, now, requests, fates, left, state, body);
      if body == UserConfigurationQuery {
        StillQuery(start, past, before, history, now, history', state, change, base, FirstFate(left).reaches);
      } else if body.OverlayLayout? {
        StillLayout(start, past, before, history, now, history', state, body, change, base, FirstFate(left).reaches);
      } else {
        StillWrite(start, past, before, history, now, history', state, change, base, FirstFate(left).reaches);
      }
    }
  }

  /** How activation and readback can end, given what the display holds and how the readback fares. */
  ghost predicate ReadBackAs(
      result: Result<DisplayState, KanaliError>, held: Option<DisplayState>, change: Change, fate: Fate, used: U64, broken: bool)
  {
    && (result.Ok? && HonestAt(fate, used) ==> held == Some(result.value))
    && (HarmlessAt(fate, used) && !broken ==> (result.Ok? <==> held.Some? && Shows(held.value, change)))
  }

  /** The write went out under this fate and track and its acknowledgement was accepted. */
  predicate Acknowledged(sizeOf: Response -> nat, held: Held, state: bv64, fate: Fate, config: UserConfiguration) {
    Outcome(fate, sizeOf, held, UsedId(state, None), UserConfigurationWrite(config), ExpectAcknowledgement).Ok?
  }

  /** What the display holds once the first query was sent. */
  function AfterQuery(held: Held, state: bv64, reaches: bool): Held {
    if reaches then After(held, UsedId(state, None), UserConfigurationQuery) else held
  }

  lemma WentQuery(before: Held, after: Held, state: bv64, reaches: bool)
    requires Went(before, after, state, UserConfigurationQuery, reaches)
    ensures after == AfterQuery(before, state, reaches)
  {
  }

  lemma {:induction false} AllKept(requests: seq<RequestBody>, state: bv64, fates: seq<Fate>)
    requires HarmlessRun(state, None, fates, |requests|)
    ensures Kept(requests, fates) == requests
    decreases |requests|
  {
    hide HarmlessAt, Step, IdOf;
    if requests != [] {
      HarmlessArrives(fates[0], UsedId(state, None));
      AllKept(requests[1..], NextState(state, None), fates[1..]);
    }
  }

  class Device {
    const product: Product
    const link: Link

    constructor (product: Product, link: Link)
      ensures this.product == product && this.link == link
    {
      this.product := product;
      this.link := link;
    }

    /** One exchange: over an honest pipe an accepted reply is the display's answer, over a harmless one it comes. */
    method Exchange(body: RequestBody, expected: Expect, ghost answer: ResponseBody) returns (result: Result<Response, KanaliError>)
      requires Configures(link.display.State(), body, expected, answer)
      modifies link, link.display
      ensures link.fates == Later(old(link.fates)) && link.track == NextState(old(link.track), None)
      ensures Went(old(link.display.State()), link.display.State(), old(link.track), body, FirstFate(old(link.fates)).reaches)
      ensures link.history == old(link.history)
              + if FirstFate(old(link.fates)).reaches then [link.display.State()] else []
      ensures result == Outcome(
        FirstFate(old(link.fates)), link.sizeOf, old(link.display.State()), UsedId(old(link.track), None), body, expected)
      ensures result.Ok? ==> expected.Matches(result.value.body)
      ensures HonestAt(FirstFate(old(link.fates)), UsedId(old(link.track), None)) && result.Ok? ==>
        FirstFate(old(link.fates)).reaches && result.value.body == Some(answer)
      ensures HarmlessAt(FirstFate(old(link.fates)), UsedId(old(link.track), None)) ==>
        FirstFate(old(link.fates)).reaches && result.Ok? && result.value.body == Some(answer)
    {
      hide After, Outcome, HarmlessAt, Step, IdOf;
      ghost var held, fate, used := link.display.State(), FirstFate(link.fates), UsedId(link.track, None);
      result := link.Ask(body, expected, None);
      if HarmlessAt(fate, used) {
        HarmlessReply(fate, link.sizeOf, held, used, body, expected, answer);
        HarmlessArrives(fate, used);
      }
      if result.Ok? {
        HonestReply(fate, link.sizeOf, held, used, body, expected, result.value);
      }
    }

    /** Sends the overlay layout that activates a configuration, without waiting for its acknowledgement. */
    method Activate(overlay: Option<Overlay.Config>, clock: Overlay.Clock) returns (result: Result<(), KanaliError>)
      modifies link, link.display
      ensures link.fates == Later(old(link.fates)) && link.track == NextState(old(link.track), None)
      ensures Went(
        old(link.display.State()), link.display.State(), old(link.track), Activation(overlay, clock),
        FirstFate(old(link.fates)).reaches)
      ensures link.history == old(link.history)
              + if FirstFate(old(link.fates)).reaches then [link.display.State()] else []
      ensures result == if FirstFate(old(link.fates)).breaks then Err(Transport) else Ok(())
    {
      hide Overlay.RunConfig, After, Step, IdOf;
      var groups := [];
      if overlay.Some? {
        groups := Overlay.BuildRunConfig(overlay.value, clock);
      }
      result := link.WriteTrackedOnly(OverlayLayout(groups));
    }

    /**
     * Read-modify-write of the configuration, activation, and a readback that must match. `base` is
     * the configuration that was read; over an honest pipe that is the display's own.
     */
    method Apply(change: Change, overlay: Option<Overlay.Config>, clock: Overlay.Clock)
      returns (result: Result<DisplayState, KanaliError>, ghost base: UserConfiguration, ghost sent: nat)
      modifies link, link.display
      ensures var steps := Steps(base, change, if overlay.Some? then Overlay.RunConfig(overlay.value, clock) else []);
        sent <= |steps| && Sent(old(link.display.State()), link.display.State(), steps[..sent], old(link.fates), link.fates)
      ensures sent > 2 ==>
        Acknowledged(
          link.sizeOf, AfterQuery(old(link.display.State()), old(link.track), FirstFate(old(link.fates)).reaches),
          NextState(old(link.track), None), FirstFate(Later(old(link.fates))), Edited(base, change))
      ensures result.Ok? ==> sent == 4
      ensures HarmlessRun(old(link.track), None, old(link.fates), 4) && result.Ok? ==>
        var groups := if overlay.Some? then Overlay.RunConfig(overlay.value, clock) else [];
        && link.display.layouts == old(link.display.layouts) + [groups]
        && link.display.received == old(link.display.received)
             + [UserConfigurationQuery, UserConfigurationWrite(Edited(base, change)), OverlayLayout(groups), UserConfigurationQuery]
      ensures ApplySafe(old(link.display.State()), old(link.history), link.display.State(), link.history, change, base)
      ensures HonestAt(FirstFate(old(link.fates)), UsedId(old(link.track), None)) ==> base == old(link.display.config)
      ensures !product.HasDisplayConfiguration() || !WellFormed(change) ==> link.display.State() == old(link.display.State())
      ensures result.Ok? ==> ValidChange(change) && Shows(result.value, change)
      ensures result.Ok? && HonestRun(old(link.track), None, old(link.fates)) ==>
        && link.display.config == Edited(old(link.display.config), change)
        && StateFrom(link.display.config) == Some(result.value)
      ensures HarmlessRun(old(link.track), None, old(link.fates), 4) ==>
        && (result.Ok? <==> product.HasDisplayConfiguration() && ValidChange(change) && Readable(old(link.display.config), change))
        && (result.Ok? ==> link.display.config == Edited(old(link.display.config), change))
    {
      hide After, HonestAt, HarmlessAt, HonestRun, HarmlessRun, StateFrom, Shows, IsSafeName, Edited, WellFormed,
        MediaAccepted, Step, IdOf, Going.At, Acknowledged, Steps, Outcome, Went, Overlay.RunConfig, Readable, ApplySafe, Sent;
      ghost var start, past, state, fates := link.display.State(), link.history, link.track, link.fates;
      base, sent := start.config, 0;
      ghost var run := Going(start, past, fates, change, base);
      run.Begins();
      run.Means(start, past, [], fates);
      StepsBegin(base, change, overlay, clock);
      HarmlessFirst(state, fates);
      if !product.HasDisplayConfiguration() {
        return Err(Unsupported), base, sent;
      }
      if !WellFormed(change) {
        return Err(Invalid), base, sent;
      }
      var report := Exchange(UserConfigurationQuery, ExpectUserConfiguration, UserConfigurationReport(start.config));
      sent := 1;
      if report.Ok? {
        base := report.value.body.value.config;
      }
      run := Going(start, past, fates, change, base);
      run.Begins();
      run.On(start, past, [], fates, link.display.State(), link.history, state, UserConfigurationQuery);
      run.Means(link.display.State(), link.history, [UserConfigurationQuery], link.fates);
      WentQuery(start, link.display.State(), state, FirstFate(fates).reaches);
      StepsBegin(base, change, overlay, clock);
      if report.Err? {
        return Err(report.error), base, sent;
      }
      var config := report.value.body.value.config;
      if !MediaAccepted(change) {
        return Err(Invalid), base, sent;
      }
      config := Edit(config, change);
      if HonestRun(state, None, fates) {
        HonestNext(state, None, fates);
      }
      result, sent := WriteAndCheck(config, change, overlay, clock, run);
      run.Means(link.display.State(), link.history,
        Steps(base, change, if overlay.Some? then Overlay.RunConfig(overlay.value, clock) else [])[..sent], link.fates);
      if HarmlessRun(state, None, fates, 4) && result.Ok? {
        AllSent(start, link.display.State(), base, change,
          if overlay.Some? then Overlay.RunConfig(overlay.value, clock) else [], state, fates, link.fates);
      }
    }

    /** The second half of `Apply`, from the write on. */
    method WriteAndCheck(
        config: UserConfiguration, change: Change, overlay: Option<Overlay.Config>, clock: Overlay.Clock, ghost run: Going)
      returns (result: Result<DisplayState, KanaliError>, ghost sent: nat)
      requires ValidChange(change) && config == Edited(run.base, change) && run.change == change
      requires run.At(link.display.State(), link.history, [UserConfigurationQuery], link.fates)
      modifies link, link.display
      ensures var steps := Steps(run.base, change, if overlay.Some? then Overlay.RunConfig(overlay.value, clock) else []);
        && |steps| == 4 && 1 <= sent <= 4 && run.At(link.display.State(), link.history, steps[..sent], link.fates)
      ensures sent > 2 ==>
        Acknowledged(link.sizeOf, old(link.display.State()), old(link.track), FirstFate(old(link.fates)), config)
      ensures result.Ok? ==> sent == 4 && Shows(result.value, change)
      ensures result.Ok? && HonestRun(old(link.track), None, old(link.fates)) ==>
        link.display.config == config && StateFrom(config) == Some(result.value)
      ensures HarmlessRun(old(link.track), None, old(link.fates), 3) ==>
        (result.Ok? <==> Readable(run.base, change)) && (result.Ok? ==> link.display.config == config)
    {
      hide After, HonestAt, HarmlessAt, HonestRun, HarmlessRun, StateFrom, Shows, IsSafeName, Edited, WellFormed,
        MediaAccepted, Readable, Step, IdOf, run.At, Steps, Outcome, Went, Overlay.RunConfig;
      ghost var state, fates, before, history := link.track, link.fates, link.display.State(), link.history;
      StepsInTurn(run.base, change, overlay, clock);
      FateOfEach(state, fates);
      EditedShows(run.base, change);
      var report := Exchange(UserConfigurationWrite(config), ExpectAcknowledgement, Acknowledgement);
      sent := 2;
      run.On(before, history, [UserConfigurationQuery], fates, link.display.State(), link.history, state,
        UserConfigurationWrite(config));
      if report.Err? {
        return Err(report.error), sent;
      }
      result, sent := ActivateAndCheck(change, overlay, clock, run);
    }

    /** Activation, and what follows it. */
    method ActivateAndCheck(change: Change, overlay: Option<Overlay.Config>, clock: Overlay.Clock, ghost run: Going)
      returns (result: Result<DisplayState, KanaliError>, ghost sent: nat)
      requires ValidChange(change) && run.change == change
      requires run.At(
        link.display.State(), link.history,
        [UserConfigurationQuery, UserConfigurationWrite(Edited(run.base, change))], link.fates)
      modifies link, link.display
      ensures var steps := Steps(run.base, change, if overlay.Some? then Overlay.RunConfig(overlay.value, clock) else []);
        && |steps| == 4 && 3 <= sent <= 4 && run.At(link.display.State(), link.history, steps[..sent], link.fates)
      ensures link.display.config == old(link.display.config)
      ensures result.Ok? ==> sent == 4 && Shows(result.value, change)
      ensures ReadBackAs(
        result, StateFrom(old(link.display.config)), change, FirstFate(Later(old(link.fates))),
        UsedId(NextState(old(link.track), None), None), FirstFate(old(link.fates)).breaks)
    {
      hide After, HonestAt, HarmlessAt, StateFrom, Shows, IsSafeName, Edited, WellFormed, MediaAccepted, Activation, Step, IdOf, run.At, Steps,
        Outcome, Went, Overlay.RunConfig;
      ghost var state, fates, before, history := link.track, link.fates, link.display.State(), link.history;
      StepsInTurn(run.base, change, overlay, clock);
      var activated := Activate(overlay, clock);
      sent := 3;
      run.On(before, history, [UserConfigurationQuery, UserConfigurationWrite(Edited(run.base, change))], fates,
        link.display.State(), link.history, state, Activation(overlay, clock));
      if activated.Err? {
        return Err(activated.error), sent;
      }
      state, fates, before, history := link.track, link.fates, link.display.State(), link.history;
      var report := Exchange(UserConfigurationQuery, ExpectUserConfiguration, UserConfigurationReport(before.config));
      sent := 4;
      run.On(before, history,
        [UserConfigurationQuery, UserConfigurationWrite(Edited(run.base, change)), Activation(overlay, clock)], fates,
        link.display.State(), link.history, state, UserConfigurationQuery);
      if report.Err? {
        return Err(report.error), sent;
      }
      var shown := StateFrom(report.value.body.value.config);
      if shown.None? {
        return Err(NoConfiguration), sent;
      }
      if !Shows(shown.value, change) {
        return Err(Mismatch), sent;
      }
      return Ok(shown.value), sent;
    }

    /** The edit of a configuration, field by field. */
    method Edit(config: UserConfiguration, change: Change) returns (edited: UserConfiguration)
      requires MediaAccepted(change)
      ensures edited == Edited(config, change)
    {
      hide IsSafeName, EditWork, EditDisplay;
      edited := config;
      if change.media.Some? {
        var work := if edited.work.Some? then edited.work.value else DEFAULT_WORK;
        work := ChangeWork(work, change);
        edited := edited.(work := Some(work));
      }
      if TouchesDisplay(change) {
        var display := if edited.display.Some? then edited.display.value else DEFAULT_DISPLAY;
        display := ChangeDisplay(display, change);
        edited := edited.(display := Some(display));
      }
    }

    method ChangeWork(before: WorkConfiguration, change: Change) returns (work: WorkConfiguration)
      requires change.media.Some? && MediaAccepted(change)
      ensures work == EditWork(before, change)
    {
      hide IsSafeName;
      var media := change.media.value;
      work := before;
      if change.splitScreen {
        work := work.(mediaMode := MediaDual);
        work := work.(loopMode := LoopSingle);
        work := work.(dualLeftFile := media[0]);
        work := work.(dualRightFile := media[1]);
      } else {
        work := work.(mediaMode := MediaSingle);
        work := work.(loopMode := LoopModeFor(change));
        work := work.(singleFile := media[0]);
      }
    }

    method ChangeDisplay(before: DisplayConfiguration, change: Change) returns (display: DisplayConfiguration)
      ensures display == EditDisplay(before, change)
    {
      display := before;
      if change.brightness.Some? {
        display := display.(backlightBrightness := change.brightness.value);
      }
      if change.backlight.Some? {
        display := display.(backlightEnable := change.backlight.value);
      }
      if change.waterfall.Some? {
        display := display.(uiRotation := if change.waterfall.value then 90 else 0);
      }
      if change.rotation.Some? {
        display := display.(mediaRotation := change.rotation.value);
      }
    }
  }

  function Activation(overlay: Option<Overlay.Config>, clock: Overlay.Clock): (layout: RequestBody)
    ensures layout.OverlayLayout?
  {
    OverlayLayout(if overlay.Some? then Overlay.RunConfig(overlay.value, clock) else [])
  }

  /** The request took effect exactly if it reached the display. */
  predicate Went(before: Held, after: Held, state: bv64, body: RequestBody, reaches: bool) {
    after == if reaches then After(before, UsedId(state, None), body) else before
  }

  lemma HarmlessArrives(fate: Fate, track: U64)
    requires HarmlessAt(fate, track)
    ensures fate.reaches && !fate.breaks && HonestAt(fate, track)
  {
  }

  lemma StepsBegin(base: UserConfiguration, change: Change, overlay: Option<Overlay.Config>, clock: Overlay.Clock)
    ensures var steps := Steps(base, change, if overlay.Some? then Overlay.RunConfig(overlay.value, clock) else []);
      |steps| > 0 && steps[..0] == [] && steps[..1] == [] + [UserConfigurationQuery] == [UserConfigurationQuery]
  {
    hide Overlay.RunConfig, ValidChange;
  }

  lemma StepsInTurn(base: UserConfiguration, change: Change, overlay: Option<Overlay.Config>, clock: Overlay.Clock)
    requires ValidChange(change)
    ensures var steps := Steps(base, change, if overlay.Some? then Overlay.RunConfig(overlay.value, clock) else []);
      && |steps| == 4 && steps[..1] == [UserConfigurationQuery]
      && (forall k :: 0 <= k < 4 ==> steps[..k + 1] == steps[..k] + [steps[k]])
      && steps[1] == UserConfigurationWrite(Edited(base, change)) && steps[2] == Activation(overlay, clock)
      && steps[3] == UserConfigurationQuery
      && steps[..2] == [UserConfigurationQuery, UserConfigurationWrite(Edited(base, change))]
      && steps[..3] == steps[..2] + [Activation(overlay, clock)]
      && steps[..3] == [UserConfigurationQuery, UserConfigurationWrite(Edited(base, change)), Activation(overlay, clock)]
      && steps[..1] + [steps[1]] == steps[..2] && steps[..3] + [UserConfigurationQuery] == steps[..4]
  {
    hide Overlay.RunConfig, Edited;
  }

  lemma AllSent(
      start: Held, now: Held, base: UserConfiguration, change: Change, groups: seq<Overlay.Group>, state: bv64, fates: seq<Fate>,
      after: seq<Fate>)
    requires HarmlessRun(state, None, fates, 4) && ValidChange(change)
    requires Sent(start, now, Steps(base, change, groups)[..4], fates, after)
    ensures now.layouts == start.layouts + [groups]
    ensures now.received == start.received
            + [UserConfigurationQuery, UserConfigurationWrite(Edited(base, change)), OverlayLayout(groups), UserConfigurationQuery]
  {
    hide WellFormed, MediaAccepted, Edited, HarmlessRun;
    var write := UserConfigurationWrite(Edited(base, change));
    var steps := Steps(base, change, groups);
    assert steps[..4] == steps == [UserConfigurationQuery, write, OverlayLayout(groups), UserConfigurationQuery];
    AllKept(steps, state, fates);
    LayoutsAppend([UserConfigurationQuery, write], [OverlayLayout(groups), UserConfigurationQuery]);
    assert steps == [UserConfigurationQuery, write] + [OverlayLayout(groups), UserConfigurationQuery];
    assert LayoutsIn([UserConfigurationQuery, write]) == [];
    assert LayoutsIn([OverlayLayout(groups), UserConfigurationQuery]) == [groups];
  }

  lemma HarmlessFirst(state: bv64, fates: seq<Fate>)
    ensures HarmlessRun(state, None, fates, 4) ==>
      && fates != [] && HarmlessAt(FirstFate(fates), UsedId(state, None))
      && HonestAt(FirstFate(fates), UsedId(state, None))
      && HarmlessRun(NextState(state, None), None, Later(fates), 3)
    ensures HonestRun(state, None, fates) ==> HonestAt(FirstFate(fates), UsedId(state, None))
  {
    hide HarmlessAt, HonestAt, Step, IdOf;
    if HarmlessRun(state, None, fates, 4) {
      HarmlessArrives(fates[0], UsedId(state, None));
    }
    if HonestRun(state, None, fates) {
      HonestNext(state, None, fates);
    }
  }

  /** What honest and harmless runs give the three requests after the first. */
  lemma FateOfEach(state: bv64, fates: seq<Fate>)
    ensures var state1 := NextState(state, None); var state2 := NextState(state1, None);
      var f0, f1, f2 := FirstFate(fates), FirstFate(Later(fates)), FirstFate(Later(Later(fates)));
      && (HonestRun(state, None, fates) ==> HonestAt(f0, UsedId(state, None)) && HonestAt(f2, UsedId(state2, None)))
      && (HarmlessRun(state, None, fates, 3) ==>
            HarmlessAt(f0, UsedId(state, None)) && !f1.breaks && HarmlessAt(f2, UsedId(state2, None)))
  {
    hide HarmlessAt, HonestAt, Step, IdOf;
    var state1 := NextState(state, None);
    var state2 := NextState(state1, None);
    if HonestRun(state, None, fates) {
      HonestNext(state, None, fates);
      HonestNext(state1, None, Later(fates));
      HonestNext(state2, None, Later(Later(fates)));
    }
    if HarmlessRun(state, None, fates, 3) {
      assert HarmlessRun(state1, None, fates[1..], 2);
      HarmlessArrives(fates[1], UsedId(state1, None));
      assert HarmlessRun(state2, None, fates[1..][1..], 1);
    }
  }

  lemma Untouched(start: Held, past: seq<Held>, change: Change, base: UserConfiguration)
    ensures ApplySafe(start, past, start, past, change, base)
  {
  }

  lemma StillQuery(
      start: Held, past: seq<Held>, before: Held, history: seq<Held>, now: Held, history': seq<Held>, state: bv64,
      change: Change, base: UserConfiguration, reaches: bool)
    requires ApplySafe(start, past, before, history, change, base)
    requires Went(before, now, state, UserConfigurationQuery, reaches)
    requires history' == history + if reaches then [now] else []
    ensures ApplySafe(start, past, now, history', change, base) && now.config == before.config
  {
  }

  lemma StillLayout(
      start: Held, past: seq<Held>, before: Held, history: seq<Held>, now: Held, history': seq<Held>, state: bv64,
      layout: RequestBody, change: Change, base: UserConfiguration, reaches: bool)
    requires ApplySafe(start, past, before, history, change, base) && layout.OverlayLayout?
    requires Went(before, now, state, layout, reaches)
    requires history' == history + if reaches then [now] else []
    ensures ApplySafe(start, past, now, history', change, base) && now.config == before.config
  {
  }

  lemma StillWrite(
      start: Held, past: seq<Held>, before: Held, history: seq<Held>, now: Held, history': seq<Held>, state: bv64,
      change: Change, base: UserConfiguration, reaches: bool)
    requires ApplySafe(start, past, before, history, change, base) && ValidChange(change)
    requires Went(before, now, state, UserConfigurationWrite(Edited(base, change)), reaches)
    requires history' == history + if reaches then [now] else []
    ensures ApplySafe(start, past, now, history', change, base)
    ensures now.config == if reaches then Edited(base, change) else before.config
  {
  }

  predicate Configures(held: Held, body: RequestBody, expected: Expect, answer: ResponseBody) {
    || (body.UserConfigurationQuery? && expected.ExpectUserConfiguration? && answer == UserConfigurationReport(held.config))
    || (body.UserConfigurationWrite? && expected.ExpectAcknowledgement? && answer == Acknowledgement)
  }
}
