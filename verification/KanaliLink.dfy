/** Exchanges with a display over a pipe that may lose, delay and interleave messages. */
module KanaliLink {
  import opened Bytes
  import opened KanaliTracks
  import opened KanaliWire
  import opened KanaliDisplay

  /**
   * What the pipe does with one request: whether it reaches the display, which other frames arrive
   * before the reply (they may depend on the track it went out under), whether the reply arrives,
   * and whether the write, or a wait that would end in a timeout, fails.
   */
  datatype Fate = Fate(reaches: bool, noise: U64 -> seq<Arrival>, answered: bool, breaks: bool)

  /** What befalls a request once the script has run out. */
  function Lost(): Fate {
    Fate(false, _ => [], false, false)
  }

  function FirstFate(fates: seq<Fate>): Fate {
    if fates == [] then Lost() else fates[0]
  }

  function Later(fates: seq<Fate>): seq<Fate> {
    if fates == [] then [] else fates[1..]
  }

  /** The track the next request goes out under, and the generator's state after it. */
  function UsedId(state: bv64, fixedTrack: Option<U64>): U64 {
    if fixedTrack.Some? then fixedTrack.value else IdOf(Step(state))
  }

  function NextState(state: bv64, fixedTrack: Option<U64>): bv64 {
    if fixedTrack.Some? then state else Step(state)
  }

  // ----- Pipes that bring no impostor, and pipes that do no harm.

  /** The frame carries this track and would not be skipped for being an event or a pong. */
  predicate Poses(track: U64, pong: bool, arrival: Arrival) {
    && arrival.message.Some?
    && var r := arrival.message.value;
       && r.header.Some? && r.header.value.trackId == track
       && r.body != Some(AsynchronousEvent) && (pong || !(r.body.Some? && r.body.value.Pong?))
  }

  /** No frame among the noise could pass for the reply under this track. */
  predicate ForOthers(track: U64, pong: bool, noise: seq<Arrival>) {
    forall i :: 0 <= i < |noise| ==> !Poses(track, pong, noise[i])
  }

  /** Of a request under this track the pipe brings no other reply than the display's own. */
  predicate HonestAt(fate: Fate, track: U64) {
    ForOthers(track, false, fate.noise(track))
  }

  /** The request and its reply get through; what comes between are events, pongs and frames under other tracks, not too many. */
  ghost predicate HarmlessAt(fate: Fate, track: U64) {
    && fate.reaches && fate.answered && !fate.breaks
    && AllPassBy(track, false, fate.noise(track))
    && |fate.noise(track)| <= 256 && Cost(fate.noise(track)) <= 4_194_304
  }

  /** Each request in turn meets an honest pipe under the track it goes out under. */
  predicate HonestRun(state: bv64, fixedTrack: Option<U64>, fates: seq<Fate>)
    decreases |fates|
  {
    fates == [] ||
      (HonestAt(fates[0], UsedId(state, fixedTrack)) && HonestRun(NextState(state, fixedTrack), fixedTrack, fates[1..]))
  }

  /** Each of the next `n` requests meets a harmless pipe. */
  ghost predicate HarmlessRun(state: bv64, fixedTrack: Option<U64>, fates: seq<Fate>, n: nat)
    decreases n
  {
    n == 0 ||
      (fates != [] && HarmlessAt(fates[0], UsedId(state, fixedTrack))
       && HarmlessRun(NextState(state, fixedTrack), fixedTrack, fates[1..], n - 1))
  }

  lemma HonestNext(state: bv64, fixedTrack: Option<U64>, fates: seq<Fate>)
    requires HonestRun(state, fixedTrack, fates)
    ensures HonestAt(FirstFate(fates), UsedId(state, fixedTrack))
    ensures HonestRun(NextState(state, fixedTrack), fixedTrack, Later(fates))
  {
  }

  // ----- Honesty follows from the generator.

  /**
   * Frames a pipe may bring late: events, pongs, untracked frames, replies under track zero, and
   * replies under any of the first `issued` ids of the generator.
   */
  ghost predicate Stale(seed: bv64, issued: nat, arrival: Arrival) {
    arrival.message.Some? && arrival.message.value.header.Some? ==>
      var r := arrival.message.value;
      || r.body == Some(AsynchronousEvent)
      || (r.body.Some? && r.body.value.Pong?)
      || r.header.value.trackId == 0
      || exists j :: 0 < j <= issued && r.header.value.trackId == IdOf(StateAfter(seed, j))
  }

  ghost predicate AllStale(seed: bv64, issued: nat, noise: seq<Arrival>) {
    forall i :: 0 <= i < |noise| ==> Stale(seed, issued, noise[i])
  }

  /** The noise of each request in turn is stale when the request goes out. */
  ghost predicate StaleRun(seed: bv64, issued: nat, fates: seq<Fate>)
    decreases |fates|
  {
    fates == [] ||
      (AllStale(seed, issued, fates[0].noise(IdOf(StateAfter(seed, issued + 1)))) && StaleRun(seed, issued + 1, fates[1..]))
  }

  /** The generator does not return to its seed within so many steps. */
  ghost predicate NoFullCycle(seed: bv64, steps: nat) {
    forall d :: 0 < d <= steps ==> StateAfter(seed, d) != seed
  }

  lemma StaleIsForOthers(seed: bv64, issued: nat, noise: seq<Arrival>)
    requires seed != 0 && NoFullCycle(seed, issued) && AllStale(seed, issued, noise)
    ensures ForOthers(IdOf(StateAfter(seed, issued + 1)), false, noise)
  {
    hide IdOf, Step;
    var track := IdOf(StateAfter(seed, issued + 1));
    forall i | 0 <= i < |noise| ensures !Poses(track, false, noise[i]) {
      assert Stale(seed, issued, noise[i]);
      if Poses(track, false, noise[i]) {
        var j :| 0 < j <= issued && track == IdOf(StateAfter(seed, j));
        IdRepeatsOnlyOnFullCycle(seed, j, issued + 1);
      }
    }
  }

  /**
   * Under generated tracks every pipe that brings only stale frames is honest throughout, however
   * many requests go out, short of a full cycle of the generator.
   */
  lemma {:induction false} StaleRunIsHonest(seed: bv64, issued: nat, fates: seq<Fate>)
    requires seed != 0 && NoFullCycle(seed, issued + |fates|) && StaleRun(seed, issued, fates)
    ensures HonestRun(StateAfter(seed, issued), None, fates)
    decreases |fates|
  {
    hide IdOf, Step, AllStale;
    if fates != [] {
      StaleIsForOthers(seed, issued, fates[0].noise(IdOf(StateAfter(seed, issued + 1))));
      StaleRunIsHonest(seed, issued + 1, fates[1..]);
    }
  }

  // ----- Outcomes.

  /** What a request settles on, given its fate. */
  function Outcome(fate: Fate, sizeOf: Response -> nat, held: Held, track: U64, body: RequestBody, expected: Expect)
    : Result<Response, KanaliError>
  {
    var reply := if fate.reaches && fate.answered then ReplyTo(held, track, body) else None;
    var arrivals := fate.noise(track) + if reply.Some? then [Arrival(sizeOf(reply.value), reply)] else [];
    var settled := Settle(track, expected, arrivals, 0, 0);
    if settled == Err(NoResponse) && fate.breaks then Err(Transport) else settled
  }

  /** An accepted reply has the expected body, and is the display's own unless another frame poses as it. */
  lemma HonestReply(
      fate: Fate, sizeOf: Response -> nat, held: Held, track: U64, body: RequestBody, expected: Expect, reply: Response)
    requires Outcome(fate, sizeOf, held, track, body, expected) == Ok(reply)
    ensures expected.Matches(reply.body)
    ensures ForOthers(track, expected.ExpectPong?, fate.noise(track)) ==>
      fate.reaches && fate.answered && ReplyTo(held, track, body) == Some(reply)
  {
    hide ReplyTo, Settle, Skippable, Unrelated, Answer;
    var own := if fate.reaches && fate.answered then ReplyTo(held, track, body) else None;
    var noise := fate.noise(track);
    var arrivals := noise + if own.Some? then [Arrival(sizeOf(own.value), own)] else [];
    SettleOkIff(track, expected, arrivals, reply);
    var n :| 0 <= n < |arrivals| && Skippable(track, expected, arrivals[..n])
             && !Unrelated(track, expected, arrivals[n]) && Answer(track, expected, arrivals[n]) == Ok(reply);
    AcceptedReply(track, expected, arrivals[n], reply);
    assert Poses(track, expected.ExpectPong?, arrivals[n]);
    assert forall i :: 0 <= i < |noise| ==> arrivals[i] == noise[i];
  }

  /** Over a harmless pipe, a request that is answered under its track settles on the answer. */
  lemma HarmlessReply(
      fate: Fate, sizeOf: Response -> nat, held: Held, track: U64, body: RequestBody, expected: Expect, answer: ResponseBody)
    requires HarmlessAt(fate, track) && !expected.ExpectPong? && expected.Matches(Some(answer))
    requires ReplyTo(held, track, body) == Some(Tracked(track, answer))
    ensures Outcome(fate, sizeOf, held, track, body, expected) == Ok(Tracked(track, answer))
  {
    var own := Arrival(sizeOf(Tracked(track, answer)), Some(Tracked(track, answer)));
    PassingIsUnrelated(track, expected, fate.noise(track));
    assert Skippable(track, expected, fate.noise(track));
    SettleOneMore(track, expected, fate.noise(track), own);
  }

  /** The display's answers to the first queries are what a bootstrap waits for; nothing else it sends under a track is. */
  lemma BootstrapAnswered(held: Held, track: U64, body: RequestBody, expected: Expect, size: nat)
    ensures var arrival := Arrival(size, ReplyTo(held, track, body));
      && (body.DeviceInformationQuery? ==> BootstrapAccepts(ExpectDeviceInformation, arrival))
      && (body.SystemConfigurationQuery? ==> BootstrapAccepts(ExpectSystemConfiguration, arrival))
      && (body.DeviceAuthenticationQuery? ==> BootstrapAccepts(ExpectDeviceAuthentication, arrival))
      && (BootstrapAccepts(expected, arrival) && track != 0 ==>
            || (body.DeviceInformationQuery? && expected.ExpectDeviceInformation?)
            || (body.SystemConfigurationQuery? && expected.ExpectSystemConfiguration?)
            || (body.DeviceAuthenticationQuery? && expected.ExpectDeviceAuthentication?))
  {
  }

  /** A late reply to an earlier request is skipped, unless the id generator came all the way round in between. */
  lemma LateReplySkipped(seed: bv64, i: nat, j: nat, expected: Expect, late: Arrival)
    requires seed != 0 && i < j && StateAfter(seed, j - i) != seed
    requires late.message.Some? && late.message.value.header.Some?
    requires late.message.value.header.value.trackId == IdOf(StateAfter(seed, i))
    ensures Unrelated(IdOf(StateAfter(seed, j)), expected, late)
  {
    hide IdOf, Step;
    if IdOf(StateAfter(seed, i)) == IdOf(StateAfter(seed, j)) {
      IdRepeatsOnlyOnFullCycle(seed, i, j);
    }
  }

  /** A frame that carries the request's track and the expected body, and arrives first, is accepted as the reply. */
  lemma ImpostorAccepted(fate: Fate, sizeOf: Response -> nat, held: Held, track: U64, body: RequestBody, expected: Expect, answer: ResponseBody)
    requires !fate.reaches && fate.noise(track) == [Arrival(0, Some(Tracked(track, answer)))]
    requires expected.Matches(Some(answer)) && !answer.AsynchronousEvent? && (answer.Pong? ==> expected.ExpectPong?)
    ensures Outcome(fate, sizeOf, held, track, body, expected) == Ok(Tracked(track, answer))
  {
    assert fate.noise(track) + [] == fate.noise(track);
  }

  class Link {
    const display: Display
    const sizeOf: Response -> nat
    var track: bv64
    var fates: seq<Fate>
    /** The display's state after each request that reached it. */
    ghost var history: seq<Held>

    constructor (display: Display, sizeOf: Response -> nat, seed: bv64, fates: seq<Fate>)
      ensures this.display == display && this.sizeOf == sizeOf && this.fates == fates && track == seed | 1 && history == []
    {
      this.display := display;
      this.sizeOf := sizeOf;
      this.track := seed | 1;
      this.fates := fates;
      history := [];
    }

    method NextFate() returns (fate: Fate)
      modifies this`fates
      ensures fate == FirstFate(old(fates)) && fates == Later(old(fates))
    {
      if fates == [] {
        return Lost();
      }
      fate := fates[0];
      fates := fates[1..];
    }

    /** Hands a request that gets there to the display. */
    method Deliver(reaches: bool, id: U64, body: RequestBody) returns (reply: Option<Response>)
      modifies this`history, display
      ensures display.State() == (if reaches then After(old(display.State()), id, body) else old(display.State()))
      ensures history == old(history) + (if reaches then [display.State()] else [])
      ensures reply == if reaches then ReplyTo(old(display.State()), id, body) else None
    {
      hide After, ReplyTo;
      if !reaches {
        return None;
      }
      reply := display.Handle(Request(Some(WireHeader(1, id, 0)), body));
      history := history + [display.State()];
    }

    /** One tracked exchange. */
    method Ask(body: RequestBody, expected: Expect, fixedTrack: Option<U64>)
      returns (result: Result<Response, KanaliError>)
      modifies this, display
      ensures fates == Later(old(fates)) && track == NextState(old(track), fixedTrack)
      ensures var fate, used := FirstFate(old(fates)), UsedId(old(track), fixedTrack);
        && display.State() == (if fate.reaches then After(old(display.State()), used, body) else old(display.State()))
        && history == old(history) + (if fate.reaches then [display.State()] else [])
        && result == Outcome(fate, sizeOf, old(display.State()), used, body, expected)
    {
      hide Settle, After, ReplyTo, Step, IdOf;
      var fate := NextFate();
      var id: U64;
      if fixedTrack.Some? {
        id := fixedTrack.value;
      } else {
        track := Step(track);
        id := IdOf(track);
      }
      var reply := Deliver(fate.reaches, id, body);
      if !fate.answered {
        reply := None;
      }
      var arrivals := fate.noise(id) + if reply.Some? then [Arrival(sizeOf(reply.value), reply)] else [];
      result := Settle(id, expected, arrivals, 0, 0);
      if result == Err(NoResponse) && fate.breaks {
        result := Err(Transport);
      }
    }

    /** Sends a request and goes on at once: the write may succeed and the request still be lost. */
    method WriteTrackedOnly(body: RequestBody) returns (result: Result<(), KanaliError>)
      modifies this, display
      ensures fates == Later(old(fates)) && track == NextState(old(track), None)
      ensures var fate, used := FirstFate(old(fates)), UsedId(old(track), None);
        && result == (if fate.breaks then Err(Transport) else Ok(()))
        && display.State() == (if fate.reaches then After(old(display.State()), used, body) else old(display.State()))
        && history == old(history) + (if fate.reaches then [display.State()] else [])
    {
      hide After, ReplyTo, Step, IdOf;
      var fate := NextFate();
      track := Step(track);
      var _ := Deliver(fate.reaches, IdOf(track), body);
      if fate.breaks {
        return Err(Transport);
      }
      return Ok(());
    }
  }
}
