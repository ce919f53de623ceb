/** The daemon's main loop: a timer-driven machine that keeps one display link open. Times are milliseconds. */
module Daemon {
  import opened Bytes

  const RECONNECT_INTERVAL := 3000
  const KEEPALIVE_INTERVAL := 2000
  const SILENT_PUSH_LIMIT := 3
  /** Seconds a wait must overrun by to count as a suspend. */
  const RESUME_GAP := 30

  datatype Backend = Legacy | Kanali

  datatype OpenOutcome = Opened(backend: Backend) | OpenFailed(message: string)

  /** An operation on the link; `lost` says the error means that the link itself is gone. */
  datatype LinkOutcome = Fine | Failed(message: string, lost: bool)

  /** What one pass of the loop meets. */
  datatype Event =
    | Asked(handled: LinkOutcome)
    | TimedOut(open: OpenOutcome, keepalive: LinkOutcome, push: LinkOutcome)

  /**
   * One pass: what happens, how late the wait returns, how long restoring the screen takes, whether
   * it fails, by how many seconds the wall clock overran, and how long the rest of the pass works.
   */
  datatype Turn = Turn(
    event: Event, delay: nat, overran: nat, restoring: nat, restoreError: Option<string>, work: nat)

  function PushInterval(backend: Backend, interval: nat): (ms: nat)
    ensures ms >= 1000 && (backend.Kanali? ==> ms <= 2000)
    ensures ms == 1000 * interval <==> interval >= 1 && (backend.Kanali? ==> interval <= 2)
    ensures interval == 0 ==> ms == 1000
    ensures backend.Kanali? && interval > 2 ==> ms == 2000
  {
    match backend
    case Legacy => 1000 * (if interval < 1 then 1 else interval)
    case Kanali => 1000 * (if interval < 1 then 1 else if interval > 2 then 2 else interval)
  }

  function Min(a: nat, b: nat): nat { if a < b then a else b }

  function Max(a: nat, b: nat): nat { if a < b then b else a }

  /** How many pushes have failed since the last good one. */
  function TrailingFailures(pushes: seq<bool>): nat {
    if pushes == [] || pushes[|pushes| - 1] then 0 else 1 + TrailingFailures(pushes[..|pushes| - 1])
  }

  /** The loop's variables, and below them a record of the run that the loop itself does not keep. */
  datatype State = State(
    interval: nat,
    owned: Option<Backend>,
    connected: bool,
    lastError: Option<string>,
    reconnects: nat,
    silentPushes: nat,
    nextPush: nat,
    nextKeepalive: nat,
    nextReconnect: nat,
    /** The present time. */
    clock: nat,
    /** Whether the display was there at the start, and how many links were dropped since. */
    openedFirst: bool,
    drops: nat,
    /** The pushes tried on the present link, in order, and whether each went through. */
    pushed: seq<bool>,
    /** When the present link last had a keepalive, or was opened. */
    lastKeepalive: nat,
    /** When the last pass read the clock, and whether that pass was a timeout. */
    tick: nat,
    ticked: bool)
  {
    function Deadline(): nat {
      match owned
      case Some(Legacy) => nextPush
      case Some(Kanali) => Min(nextPush, nextKeepalive)
      case None => nextReconnect
    }

    predicate Resumed(turn: Turn) {
      turn.overran >= RESUME_GAP && owned.Some?
    }

    /** When a pass reads the clock: a timeout comes no earlier than its deadline. */
    function Now(turn: Turn): nat {
      (if turn.event.TimedOut? then Max(Deadline(), clock) else clock) + turn.delay
      + if Resumed(turn) then turn.restoring else 0
    }

    predicate JustOpened() {
      owned.Some? && lastKeepalive == tick && nextKeepalive == tick && nextPush == tick
    }

    /** After a timeout something is a second or more away, and nothing is due, except right after opening. */
    predicate Rested() {
      match owned
      case None => nextReconnect >= tick + RECONNECT_INTERVAL
      case Some(Legacy) => JustOpened() || nextPush >= tick + 1000
      case Some(Kanali) =>
        || JustOpened()
        || (Deadline() > tick && (nextPush >= tick + 1000 || nextKeepalive >= tick + KEEPALIVE_INTERVAL))
    }

    /** A link is owned exactly when connected; a missing one has an error on record; failed pushes stay below the limit. */
    predicate LinkSound() {
      && (connected <==> owned.Some?)
      && (owned.None? ==> lastError.Some?)
      && (owned.Some? ==> silentPushes == TrailingFailures(pushed) && silentPushes < SILENT_PUSH_LIMIT)
    }

    /** Opens minus drops is one when connected, else zero. */
    predicate CountsSound() {
      reconnects + (if openedFirst then 1 else 0) == drops + (if connected then 1 else 0)
    }

    predicate TimesSound() {
      && tick <= clock
      && (owned == Some(Kanali) ==> nextKeepalive <= lastKeepalive + KEEPALIVE_INTERVAL)
      && (ticked ==> Rested())
    }

    /** The facts every reachable state keeps. */
    predicate Sound() {
      LinkSound() && CountsSound() && TimesSound()
    }
  }

  function Start(interval: nat, first: OpenOutcome, restoreError: Option<string>, now: nat): State {
    State(
      interval,
      if first.Opened? then Some(first.backend) else None,
      first.Opened?,
      if first.Opened? then restoreError else Some(first.message),
      0, 0, now, now, now + RECONNECT_INTERVAL, now,
      first.Opened?, 0, [], now, now, false)
  }

  /** Drops the link so a later pass looks for the display again. */
  function Disconnect(s: State): State {
    if s.owned.Some? then s.(owned := None, connected := false, drops := s.drops + 1) else s
  }

  predicate LostBy(outcome: LinkOutcome) {
    outcome.Failed? && outcome.lost
  }

  // ----- What one pass does, step by step.

  /** Looking for the display again. */
  function Opening(s: State, now: nat, open: OpenOutcome, restoreError: Option<string>): State {
    match open
    case Opened(backend) =>
      s.(owned := Some(backend), connected := true, lastError := restoreError, reconnects := s.reconnects + 1,
         silentPushes := 0, nextPush := now, nextKeepalive := now, pushed := [], lastKeepalive := now)
    case OpenFailed(message) => s.(lastError := Some(message), nextReconnect := now + RECONNECT_INTERVAL)
  }

  predicate KeepaliveDue(s: State, now: nat) {
    s.owned == Some(Kanali) && s.nextKeepalive <= now
  }

  function Keeping(s: State, now: nat, keepalive: LinkOutcome): State {
    if !KeepaliveDue(s, now) then s
    else s.(lastError := if keepalive.Failed? then Some(keepalive.message) else s.lastError,
            nextKeepalive := now + KEEPALIVE_INTERVAL, lastKeepalive := now)
  }

  /** A push falls due unless the same pass has just lost the link to a keepalive. */
  predicate PushDue(s: State, now: nat, keepalive: LinkOutcome) {
    s.nextPush <= now && !(KeepaliveDue(s, now) && LostBy(keepalive))
  }

  function Pushing(s: State, now: nat, push: LinkOutcome): State
    requires s.owned.Some?
  {
    s.(lastError := if push.Fine? then None else Some(push.message),
       silentPushes := if push.Fine? then 0 else s.silentPushes + 1,
       pushed := s.pushed + [push.Fine?],
       nextPush := now + PushInterval(s.owned.value, s.interval))
  }

  function Losing(s: State, now: nat): State {
    Disconnect(s).(nextReconnect := now + RECONNECT_INTERVAL, silentPushes := 0)
  }

  /** The timers of an open link that are due. */
  function Serving(s: State, now: nat, keepalive: LinkOutcome, push: LinkOutcome): State
    requires s.owned.Some?
  {
    var k := Keeping(s, now, keepalive);
    if !PushDue(s, now, keepalive) then
      if KeepaliveDue(s, now) && LostBy(keepalive) then Losing(k, now) else k
    else
      var p := Pushing(k, now, push);
      if push.Failed? && (push.lost || p.silentPushes >= SILENT_PUSH_LIMIT) then Losing(p, now) else p
  }

  /** The host was away: the screen is applied again and a push falls due. */
  function Resuming(s: State, turn: Turn): State {
    if !s.Resumed(turn) then s
    else s.(nextPush := s.Now(turn), lastError := if turn.restoreError.Some? then turn.restoreError else s.lastError)
  }

  function Answering(s: State, end: nat, handled: LinkOutcome): State {
    if s.owned.None? || handled.Fine? then s
    else
      var failed := s.(lastError := Some(handled.message));
      if handled.lost then Disconnect(failed).(nextReconnect := end + RECONNECT_INTERVAL) else failed
  }

  function Timing(s: State, now: nat, event: Event, restoreError: Option<string>): State
    requires event.TimedOut?
  {
    if s.owned.None? then Opening(s, now, event.open, restoreError) else Serving(s, now, event.keepalive, event.push)
  }

  function Passing(before: State, turn: Turn): State {
    var now := before.Now(turn);
    var s := Resuming(before, turn);
    var t := if turn.event.Asked? then Answering(s, now + turn.work, turn.event.handled)
             else Timing(s, now, turn.event, turn.restoreError);
    t.(tick := now, clock := now + turn.work, ticked := turn.event.TimedOut?)
  }

  method Serve(before: State, now: nat, keepalive: LinkOutcome, push: LinkOutcome) returns (s: State)
    requires before.owned.Some?
    ensures s == Serving(before, now, keepalive, push)
  {
    hide PushInterval;
    s := before;
    var backend := s.owned.value;
    var lost := false;
    if backend.Kanali? && now >= s.nextKeepalive {
      if keepalive.Failed? {
        lost := lost || keepalive.lost;
        s := s.(lastError := Some(keepalive.message));
      }
      s := s.(nextKeepalive := now + KEEPALIVE_INTERVAL, lastKeepalive := now);
    }
    assert s == Keeping(before, now, keepalive) && lost == (KeepaliveDue(before, now) && LostBy(keepalive));
    if !lost && now >= s.nextPush {
      s := Push(s, now, push);
      lost := push.Failed? && (push.lost || s.silentPushes >= SILENT_PUSH_LIMIT);
    }
    if lost {
      s := Losing(s, now);
    }
  }

  method Push(before: State, now: nat, push: LinkOutcome) returns (s: State)
    requires before.owned.Some?
    ensures s == Pushing(before, now, push)
  {
    s := before.(pushed := before.pushed + [push.Fine?]);
    if push.Fine? {
      s := s.(lastError := None, silentPushes := 0);
    } else {
      s := s.(lastError := Some(push.message), silentPushes := s.silentPushes + 1);
    }
    s := s.(nextPush := now + PushInterval(before.owned.value, before.interval));
  }

  /** One pass of the loop. */
  method Pass(before: State, turn: Turn) returns (s: State)
    ensures s == Passing(before, turn)
  {
    hide Serving, Opening, Answering;
    var now := before.Now(turn);
    s := Resuming(before, turn);
    match turn.event {
      case Asked(handled) =>
        s := Answering(s, now + turn.work, handled);
      case TimedOut(open, keepalive, push) =>
        if s.owned.None? {
          s := Opening(s, now, open, turn.restoreError);
        } else {
          s := Serve(s, now, keepalive, push);
        }
    }
    s := s.(tick := now, clock := now + turn.work, ticked := turn.event.TimedOut?);
  }

  // ----- What every pass keeps.

  lemma PushKeepsLink(s: State, now: nat, push: LinkOutcome)
    requires s.LinkSound() && s.owned.Some?
    ensures var p := Pushing(s, now, push);
            p.connected && p.silentPushes == TrailingFailures(p.pushed) && (push.Failed? ==> p.lastError.Some?)
            && p.silentPushes <= SILENT_PUSH_LIMIT
  {
  }

  lemma ServingKeepsLink(s: State, now: nat, keepalive: LinkOutcome, push: LinkOutcome)
    requires s.LinkSound() && s.owned.Some?
    ensures Serving(s, now, keepalive, push).LinkSound()
  {
    hide TrailingFailures, PushInterval, Pushing;
    var k := Keeping(s, now, keepalive);
    PushKeepsLink(k, now, push);
    PushingFrame(k, now, push);
  }

  lemma PushingFrame(s: State, now: nat, push: LinkOutcome)
    requires s.owned.Some?
    ensures var p := Pushing(s, now, push);
            && p == s.(lastError := p.lastError, silentPushes := p.silentPushes, pushed := p.pushed, nextPush := p.nextPush)
            && p.nextPush == now + PushInterval(s.owned.value, s.interval) && p.pushed == s.pushed + [push.Fine?]
            && (push.Fine? ==> p.silentPushes == 0)
  {
  }

  /** The first two facts: connected means a link is owned, and a missing link has an error on record. */
  lemma PassKeepsLink(before: State, turn: Turn)
    requires before.LinkSound()
    ensures Passing(before, turn).LinkSound()
  {
    hide TrailingFailures, Serving;
    var s := Resuming(before, turn);
    assert s.LinkSound();
    if turn.event.TimedOut? && s.owned.Some? {
      ServingKeepsLink(s, before.Now(turn), turn.event.keepalive, turn.event.push);
    } else {
      NoFailures();
    }
  }

  lemma NoFailures()
    ensures TrailingFailures([]) == 0
  {
  }

  lemma ServingKeepsCounts(s: State, now: nat, keepalive: LinkOutcome, push: LinkOutcome)
    requires s.owned.Some? && s.connected && s.CountsSound()
    ensures Serving(s, now, keepalive, push).CountsSound()
  {
    hide PushInterval, Pushing;
    PushingFrame(Keeping(s, now, keepalive), now, push);
  }

  /** Opens minus drops is one when connected and zero otherwise. */
  lemma PassKeepsCounts(before: State, turn: Turn)
    requires before.LinkSound() && before.CountsSound()
    ensures Passing(before, turn).CountsSound()
  {
    hide TrailingFailures, Serving;
    var s := Resuming(before, turn);
    if turn.event.TimedOut? && s.owned.Some? {
      ServingKeepsCounts(s, before.Now(turn), turn.event.keepalive, turn.event.push);
    }
  }

  /** The timers after serving an open link, or that it was dropped. */
  lemma ServingTimers(s: State, now: nat, keepalive: LinkOutcome, push: LinkOutcome)
    requires s.owned.Some?
    ensures var t := Serving(s, now, keepalive, push);
            && (t.owned == s.owned || t.owned == None)
            && (t.owned == None ==> t.nextReconnect == now + RECONNECT_INTERVAL)
            && t.interval == s.interval
            && t.nextKeepalive == (if KeepaliveDue(s, now) then now + KEEPALIVE_INTERVAL else s.nextKeepalive)
            && t.lastKeepalive == (if KeepaliveDue(s, now) then now else s.lastKeepalive)
            && t.nextPush == (if PushDue(s, now, keepalive) then now + PushInterval(s.owned.value, s.interval) else s.nextPush)
            && t.pushed == (if PushDue(s, now, keepalive) then s.pushed + [push.Fine?] else s.pushed)
            && (KeepaliveDue(s, now) && LostBy(keepalive) ==> t.owned == None && t.lastError == Some(keepalive.message))
  {
    hide TrailingFailures, PushInterval, Pushing;
    PushingFrame(Keeping(s, now, keepalive), now, push);
  }

  /** What an open link's timeout does, in terms of the pass. */
  lemma TimeoutServes(before: State, turn: Turn)
    requires turn.event.TimedOut? && before.owned.Some?
    ensures var now, s, t := before.Now(turn), Resuming(before, turn), Passing(before, turn);
            && s.owned == before.owned && s.nextKeepalive == before.nextKeepalive && s.lastKeepalive == before.lastKeepalive
            && s.nextPush == (if before.Resumed(turn) then now else before.nextPush) && s.pushed == before.pushed
            && t == Serving(s, now, turn.event.keepalive, turn.event.push).(tick := now, clock := now + turn.work, ticked := true)
  {
  }

  /** A timeout comes no earlier than its deadline. */
  lemma TimeoutNotEarly(before: State, turn: Turn)
    requires turn.event.TimedOut?
    ensures before.Now(turn) >= before.Deadline() && before.Now(turn) >= before.clock
  {
  }

  /**
   * A timeout on an open link does what is due: a KANALI link gets its keepalive, and a push follows
   * if that is due too and the keepalive did not find the link dead; a legacy link is always pushed
   * to. The keepalive that finds it dead drops the link and leaves its own error on record.
   */
  lemma TimeoutDoesDueWork(before: State, turn: Turn)
    requires turn.event.TimedOut? && before.owned.Some?
    ensures var s := Passing(before, turn);
            var kept := before.owned == Some(Kanali) && before.nextKeepalive <= s.tick;
            var tried := (before.nextPush <= s.tick || before.Resumed(turn)) && !(kept && LostBy(turn.event.keepalive));
            && (kept || tried)
            && s.lastKeepalive == (if kept then s.tick else before.lastKeepalive)
            && s.pushed == (if tried then before.pushed + [turn.event.push.Fine?] else before.pushed)
            && (kept && LostBy(turn.event.keepalive) ==> s.owned == None && s.lastError == Some(turn.event.keepalive.message))
  {
    hide Serving, Passing;
    TimeoutServes(before, turn);
    TimeoutNotEarly(before, turn);
    ServingTimers(Resuming(before, turn), before.Now(turn), turn.event.keepalive, turn.event.push);
  }

  /**
   * After a timeout the next deadline lies strictly beyond the moment the pass began, exactly when
   * the pass did not just open the link; then it is that very moment.
   */
  lemma TimeoutMovesDeadline(before: State, turn: Turn)
    requires turn.event.TimedOut?
    ensures var s := Passing(before, turn);
            && s.tick >= before.Deadline() && s.Deadline() >= s.tick
            && (s.Deadline() > s.tick <==> !(before.owned.None? && s.owned.Some?))
            && (before.owned.None? ==> (s.owned.Some? <==> turn.event.open.Opened?))
            && s.Rested()
  {
    hide Serving;
    TimeoutNotEarly(before, turn);
    if before.owned.Some? {
      hide Passing, Resuming;
      TimeoutServes(before, turn);
      ServingTimers(Resuming(before, turn), before.Now(turn), turn.event.keepalive, turn.event.push);
    }
  }

  /** Three timeouts in a row span at least a second: the third comes that much after the first. */
  lemma ThreeTimeoutsSpanASecond(first: State, turn: Turn)
    requires first.ticked && first.Rested() && turn.event.TimedOut?
    ensures Passing(first, turn).Deadline() >= first.tick + 1000
  {
    hide Serving;
    TimeoutNotEarly(first, turn);
    if first.owned.Some? {
      hide Passing, Resuming;
      TimeoutServes(first, turn);
      ServingTimers(Resuming(first, turn), first.Now(turn), turn.event.keepalive, turn.event.push);
    }
  }

  /** The remaining facts about times. */
  lemma PassKeepsTimes(before: State, turn: Turn)
    requires before.TimesSound()
    ensures Passing(before, turn).TimesSound()
  {
    hide Serving;
    if turn.event.TimedOut? {
      TimeoutMovesDeadline(before, turn);
      if before.owned.Some? {
        hide Passing, Resuming;
        TimeoutServes(before, turn);
        ServingTimers(Resuming(before, turn), before.Now(turn), turn.event.keepalive, turn.event.push);
      }
    }
  }

  /** Between timeouts, keepalives are at most their interval, one pass's work and one delay apart. */
  lemma KeepaliveGap(before: State, turn: Turn)
    requires before.TimesSound() && before.ticked && turn.event.TimedOut? && before.owned == Some(Kanali)
    requires before.nextKeepalive <= before.Now(turn)
    ensures Passing(before, turn).lastKeepalive == Passing(before, turn).tick
    ensures Passing(before, turn).tick - before.lastKeepalive
            <= KEEPALIVE_INTERVAL + (before.clock - before.tick) + turn.delay + turn.restoring
  {
    hide Passing;
    TimeoutDoesDueWork(before, turn);
    TimeoutServes(before, turn);
  }

  /** A request never gives a keepalive and never puts one off. */
  lemma RequestsLeaveKeepalive(before: State, turn: Turn)
    requires turn.event.Asked?
    ensures Passing(before, turn).nextKeepalive == before.nextKeepalive
    ensures Passing(before, turn).lastKeepalive == before.lastKeepalive
  {
  }

  // ----- What one pass does to the link and to the record of errors.

  /**
   * An open link is dropped exactly when a request reports it gone, a due keepalive does, a push
   * that was tried does, or that push is the third failure in a row; dropping it disconnects, counts
   * the drop, and has the display looked for one interval later.
   */
  lemma LinkDroppedIff(before: State, turn: Turn)
    requires before.owned.Some?
    ensures var s, event := Passing(before, turn), turn.event;
      var kept := event.TimedOut? && before.owned == Some(Kanali) && before.nextKeepalive <= s.tick;
      var dead := kept && event.keepalive.Failed? && event.keepalive.lost;
      var tried := event.TimedOut? && (before.nextPush <= s.tick || before.Resumed(turn)) && !dead;
      && (s.owned == None <==>
            || (event.Asked? && event.handled.Failed? && event.handled.lost)
            || dead
            || (tried && event.push.Failed? && (event.push.lost || before.silentPushes + 1 >= 3)))
      && (s.owned.Some? ==> s.owned == before.owned && s.drops == before.drops && s.connected == before.connected)
      && (s.owned == None ==>
            && !s.connected && s.drops == before.drops + 1
            && s.nextReconnect == (if event.Asked? then s.clock else s.tick) + 3000
            && (event.TimedOut? ==> s.silentPushes == 0))
  {
    if turn.event.Asked? {
      hide Passing;
      RequestPass(before, turn);
    } else {
      hide Passing, Serving;
      TimeoutServes(before, turn);
      ResumeKeeps(before, turn);
      ServingDrops(Resuming(before, turn), before.Now(turn), turn.event.keepalive, turn.event.push);
    }
  }

  lemma ResumeKeeps(before: State, turn: Turn)
    ensures var s := Resuming(before, turn);
      && s.owned == before.owned && s.connected == before.connected && s.drops == before.drops
      && s.silentPushes == before.silentPushes
      && (before.owned.Some? ==>
            s.lastError == if turn.overran >= 30 && turn.restoreError.Some? then turn.restoreError else before.lastError)
  {
  }

  /** When serving an open link drops it, and the error it leaves. */
  lemma ServingDrops(s: State, now: nat, keepalive: LinkOutcome, push: LinkOutcome)
    requires s.owned.Some?
    ensures var t := Serving(s, now, keepalive, push);
      var kept := s.owned == Some(Kanali) && s.nextKeepalive <= now;
      var dead := kept && keepalive.Failed? && keepalive.lost;
      var tried := s.nextPush <= now && !dead;
      && (t.owned == None <==> dead || (tried && push.Failed? && (push.lost || s.silentPushes + 1 >= 3)))
      && (t.owned.Some? ==> t.owned == s.owned && t.drops == s.drops && t.connected == s.connected)
      && (t.owned == None ==> !t.connected && t.drops == s.drops + 1 && t.nextReconnect == now + 3000)
      && t.lastError == (
           if tried then (if push.Fine? then None else Some(push.message))
           else if kept && keepalive.Failed? then Some(keepalive.message)
           else s.lastError)
  {
    hide Keeping, Pushing, Losing;
    var k := Keeping(s, now, keepalive);
    KeepingMeans(s, now, keepalive);
    LosingMeans(k, now);
    PushingMeans(k, now, push);
    LosingMeans(Pushing(k, now, push), now);
  }

  lemma KeepingMeans(s: State, now: nat, keepalive: LinkOutcome)
    ensures var k := Keeping(s, now, keepalive);
      && k.owned == s.owned && k.drops == s.drops && k.connected == s.connected && k.silentPushes == s.silentPushes
      && k.nextPush == s.nextPush
      && k.lastError == if KeepaliveDue(s, now) && keepalive.Failed? then Some(keepalive.message) else s.lastError
  {
  }

  lemma PushingMeans(s: State, now: nat, push: LinkOutcome)
    requires s.owned.Some?
    ensures var p := Pushing(s, now, push);
      && p.owned == s.owned && p.drops == s.drops && p.connected == s.connected
      && p.silentPushes == (if push.Fine? then 0 else s.silentPushes + 1)
      && p.lastError == if push.Fine? then None else Some(push.message)
  {
  }

  lemma LosingMeans(s: State, now: nat)
    requires s.owned.Some?
    ensures var t := Losing(s, now);
      t.owned == None && !t.connected && t.drops == s.drops + 1 && t.nextReconnect == now + 3000 && t.lastError == s.lastError
  {
  }

  /** What a request does, and all it does, besides the passing of time and a return from suspend. */
  lemma RequestPass(before: State, turn: Turn)
    requires turn.event.Asked?
    ensures var s, handled := Passing(before, turn), turn.event.handled;
      var resumed := before.owned.Some? && turn.overran >= 30;
      var gone := before.owned.Some? && handled.Failed? && handled.lost;
      && s.lastError == (if before.owned.Some? && handled.Failed? then Some(handled.message)
                         else if resumed && turn.restoreError.Some? then turn.restoreError
                         else before.lastError)
      && s.nextPush == (if resumed then s.tick else before.nextPush)
      && s == before.(
           owned := if gone then None else before.owned,
           connected := if gone then false else before.connected,
           drops := if gone then before.drops + 1 else before.drops,
           nextReconnect := if gone then s.clock + 3000 else before.nextReconnect,
           lastError := s.lastError, nextPush := s.nextPush, tick := s.tick, clock := s.clock, ticked := false)
      && s.clock == s.tick + turn.work && s.tick == before.clock + turn.delay + if resumed then turn.restoring else 0
  {
  }

  /** Looking for an absent display: found, it is connected with its timers due at once; else it is looked for again later. */
  lemma AbsentPass(before: State, turn: Turn)
    requires turn.event.TimedOut? && before.owned.None?
    ensures var s, open := Passing(before, turn), turn.event.open;
      match open
      case Opened(backend) =>
        && s.owned == Some(backend) && s.connected && s.reconnects == before.reconnects + 1 && s.drops == before.drops
        && s.lastError == turn.restoreError && s.silentPushes == 0 && s.pushed == []
        && s.nextPush == s.tick && s.nextKeepalive == s.tick
      case OpenFailed(message) =>
        s == before.(lastError := Some(message), nextReconnect := s.tick + 3000, tick := s.tick, clock := s.clock, ticked := true)
  {
  }

  /** The error on record after a timeout on an open link: the push's word is last, then the keepalive's, then the restore's. */
  lemma TimeoutErrors(before: State, turn: Turn)
    requires turn.event.TimedOut? && before.owned.Some?
    ensures var s, event := Passing(before, turn), turn.event;
      var kept := before.owned == Some(Kanali) && before.nextKeepalive <= s.tick;
      var tried := (before.nextPush <= s.tick || before.Resumed(turn)) && !(kept && event.keepalive.Failed? && event.keepalive.lost);
      s.lastError ==
        if tried then (if event.push.Fine? then None else Some(event.push.message))
        else if kept && event.keepalive.Failed? then Some(event.keepalive.message)
        else if turn.overran >= 30 && turn.restoreError.Some? then turn.restoreError
        else before.lastError
  {
    hide Passing, Serving;
    TimeoutServes(before, turn);
    ResumeKeeps(before, turn);
    ServingDrops(Resuming(before, turn), before.Now(turn), turn.event.keepalive, turn.event.push);
  }

  /** How the loop begins, with or without a display. */
  lemma StartMeans(interval: nat, first: OpenOutcome, restoreError: Option<string>, now: nat)
    ensures var s := Start(interval, first, restoreError, now);
      && s.connected == first.Opened? && s.owned == (if first.Opened? then Some(first.backend) else None)
      && s.lastError == (if first.Opened? then restoreError else Some(first.message))
      && s.Deadline() == (if first.Opened? then now else now + 3000)
      && s.reconnects == 0 && s.drops == 0 && s.silentPushes == 0 && s.pushed == [] && !s.ticked
  {
  }

  // ----- Whole runs.

  function StateAfter(start: State, turns: seq<Turn>): State {
    if turns == [] then start else Passing(StateAfter(start, turns[..|turns| - 1]), turns[|turns| - 1])
  }

  lemma StartSound(interval: nat, first: OpenOutcome, restoreError: Option<string>, now: nat)
    ensures Start(interval, first, restoreError, now).Sound()
  {
  }

  /** Every state that any run reaches keeps the facts. */
  lemma {:induction false} EveryRunSound(interval: nat, first: OpenOutcome, restoreError: Option<string>, now: nat, turns: seq<Turn>)
    ensures StateAfter(Start(interval, first, restoreError, now), turns).Sound()
    decreases |turns|
  {
    hide Passing, Start;
    if turns == [] {
      StartSound(interval, first, restoreError, now);
    } else {
      var front := turns[..|turns| - 1];
      EveryRunSound(interval, first, restoreError, now, front);
      var before, turn := StateAfter(Start(interval, first, restoreError, now), front), turns[|turns| - 1];
      PassKeepsLink(before, turn);
      PassKeepsCounts(before, turn);
      PassKeepsTimes(before, turn);
    }
  }

  /**
   * In every run, two keepalives that no request comes between are at most their interval, the work
   * of the pass between them and one delay apart.
   */
  lemma KeepalivesInEveryRun(
      interval: nat, first: OpenOutcome, restoreError: Option<string>, now: nat, turns: seq<Turn>, turn: Turn)
    requires turns != [] && turns[|turns| - 1].event.TimedOut? && turn.event.TimedOut?
    requires var s := StateAfter(Start(interval, first, restoreError, now), turns);
             s.owned == Some(Kanali) && s.nextKeepalive <= s.Now(turn)
    ensures var s := StateAfter(Start(interval, first, restoreError, now), turns);
            Passing(s, turn).lastKeepalive - s.lastKeepalive
              <= KEEPALIVE_INTERVAL + turns[|turns| - 1].work + turn.delay + turn.restoring
  {
    hide Start, Timing, Resuming;
    EveryRunSound(interval, first, restoreError, now, turns);
    KeepaliveGap(StateAfter(Start(interval, first, restoreError, now), turns), turn);
  }

  /** The main loop, until the request channel closes. */
  method Run(interval: nat, first: OpenOutcome, restoreError: Option<string>, now: nat, turns: seq<Turn>) returns (s: State)
    ensures s == StateAfter(Start(interval, first, restoreError, now), turns)
    ensures s.Sound()
  {
    hide Passing, Start;
    s := Start(interval, first, restoreError, now);
    var i := 0;
    while i < |turns|
      invariant i <= |turns| && s == StateAfter(Start(interval, first, restoreError, now), turns[..i])
    {
      s := Pass(s, turns[i]);
      assert turns[..i + 1][..i] == turns[..i];
      i := i + 1;
    }
    assert turns[..i] == turns;
    EveryRunSound(interval, first, restoreError, now, turns);
  }
}
