/**
  Being hosted through an exchange: one maintenance loop that renews a claim, replaces a
  signalling transport that drops, and rebuilds the listener before its credentials lapse.

  The endpoint is a state machine whose states are its await points.  What the network, the
  hooks, the clock and the caller do are events; an event that is not possible changes nothing.
 */
module Hosting {
  import opened Wrappers

  const MIN_RECONNECT_BACKOFF := 1.0
  const MAX_RECONNECT_BACKOFF := 30.0
  const DISCONNECT_SETTLE_SECONDS := 1.0
  const RENEW_POLL_SECONDS := 30.0
  const HEALTH_CHECK_SECONDS := 60.0
  const REBIND_MARGIN_SECONDS := 120.0

  /** A hosting claim: when each relay credential with an expiry lapses, and when to renew. */
  datatype Claim = Claim(expiries: seq<real>, renewAfter: Option<real>)

  /** Why the transport is being replaced. */
  datatype Reason = Rebind(newer: real) | Reconnect

  /** Where the maintenance loop is awaiting something. */
  datatype Maintainer =
    | NotStarted
    | Polling(until: real)
    | Renewing
    | Dropping(reason: Reason)
    | Settling(reason: Reason, until: real)
    | Connecting(reason: Reason)
    | Hooking(reason: Reason)
    | Checking
    | GivingUp
    | Ended

  /** Where the owner of the endpoint is, in `start` or in `aclose`. */
  datatype Owner =
    | Claiming
    | StartConnecting
    | StartHooking
    | Started
    | StartFailed
    | Joining
    | CloseDropping
    | Releasing
    | Closed

  /** The signalling transport, the event that says it is up, and all transports not closed yet. */
  datatype Link = Link(transport: Option<nat>, alive: bool, connected: bool, unclosed: set<nat>, made: nat)

  /** An attempt to connect: when, how long after the last close, and whether hosting had stopped. */
  datatype Attempt = Attempt(at: real, lastClose: Option<real>, stopped: bool)

  /** A close: of which transport, whether a drop hook was set, and whether it was tried on it before. */
  datatype Close = Close(transport: nat, hookSet: bool, hookTried: bool)

  /**
    What has happened so far: `tried` are the transports a drop hook was tried on, `rebinds` holds
    for each successful rebind how many renewals came before it, `failures` counts failed
    reconnects in a row, `lastCheck` is when the loop last considered a rebind, and `slept` how
    long it has been polling since.
   */
  datatype History = History(attempts: seq<Attempt>, closes: seq<Close>, lastClose: Option<real>, tried: set<nat>,
                             renewals: nat, rebinds: seq<nat>, gaveUp: bool,
                             failures: nat, lastCheck: real, slept: real)

  datatype State = State(now: real, wall: real, claim: Option<Claim>, link: Link, boundExpiry: Option<real>,
                         checkedAt: real, backoff: real, stopped: bool, fatal: bool, cancelRequested: bool,
                         dropHook: bool, transportHook: bool, maintainer: Maintainer, owner: Owner, history: History)

  /** Time passes, or the wall clock is set; sockets drop; hooks are set; a configuration is asked for. */
  datatype Event =
    | Tick(elapsed: real)
    | SetClock(wall: real)
    | SocketDrops
    | SetHooks(dropHook: bool, transportHook: bool)
    | Configure
    // What the maintenance loop awaits comes about; a connection may be down again by the time it is looked at.
    | PollEnds
    | Renewed(claim: Claim)
    | RenewFails(hopeless: bool)
    | DropHookReturns
    | SettleEnds
    | Connects(up: bool)
    | ConnectFails
    | TransportHookReturns
    | TransportHookRaises
    | CheckAnswers(online: bool)
    | CancelLands
    // What the owner does, and what it awaits comes about.
    | Granted(claim: Claim, named: bool)
    | ClaimFails
    | StartConnects(up: bool)
    | StartConnectFails
    | StartHookReturns
    | StartHookRaises
    | CallClose
    | Joined
    | CloseHookReturns
    | Released

  /** The earliest expiry among a claim's credentials. */
  function ExpireAt(claim: Option<Claim>): Option<real> {
    if claim.None? || claim.value.expiries == [] then None else Some(Earliest(claim.value.expiries))
  }

  function Earliest(times: seq<real>): (t: real)
    requires times != []
    ensures t in times && forall x | x in times :: t <= x
  {
    if |times| == 1 then times[0]
    else
      var rest := Earliest(times[1..]);
      assert times == [times[0]] + times[1..];
      if times[0] <= rest then times[0] else rest
  }

  predicate IsConnected(s: State) {
    s.link.transport.Some? && s.link.alive
  }

  /** Nothing undoes a stop or an end, and no attempt to connect follows a stop. */
  ghost predicate Onward(s: State, r: State) {
    && (s.stopped ==> r.stopped && r.history.attempts == s.history.attempts)
    && (s.history.gaveUp ==> r.history.gaveUp)
  }

  /** What going on within a pass leaves alone. */
  ghost predicate SamePass(s: State, r: State) {
    && r.now == s.now && r.wall == s.wall && r.claim == s.claim && r.boundExpiry == s.boundExpiry
    && r.dropHook == s.dropHook && r.owner == s.owner && r.history.lastCheck == s.history.lastCheck
  }

  /** The transport there is, or is made in a step. */
  function Held(s: State, r: State): Option<nat> {
    if r.link.made > s.link.made then Some(s.link.made) else s.link.transport
  }

  /** Losing the transport is recorded as a close of it, now; anything else is none. */
  ghost predicate CloseRecorded(s: State, r: State) {
    if Held(s, r).Some? && r.link.transport != Held(s, r) then
      var id := Held(s, r).value;
      && r.history.closes == s.history.closes + [Close(id, s.dropHook, id in s.history.tried)]
      && r.history.lastClose == Some(s.now)
    else r.history.closes == s.history.closes && r.history.lastClose == s.history.lastClose
  }

  /** Coming to await a connection is recorded as an attempt, made now; anything else is none. */
  ghost predicate Recorded(s: State, r: State) {
    && CloseRecorded(s, r)
    && r.history.attempts == s.history.attempts
       + if r.maintainer.Connecting? then [Attempt(s.now, r.history.lastClose, s.stopped)] else []
  }

  /** Going on within a pass counts nothing; getting back to polling ends a row of failures. */
  ghost predicate PassCounted(s: State, r: State) {
    && r.history.renewals == s.history.renewals && r.history.rebinds == s.history.rebinds
    && r.history.gaveUp == s.history.gaveUp
    && r.history.tried == s.history.tried
                          + (if r.maintainer.Dropping? && r.link.transport.Some? then {r.link.transport.value} else {})
    && (!r.stopped ==> r.history.failures == if r.maintainer.Polling? then 0 else s.history.failures)
    && (r.maintainer.Polling? ==> r.maintainer.until > s.now) && !r.maintainer.GivingUp?
  }

  /** Nor does closing. */
  ghost predicate CloseCounted(s: State, r: State) {
    && r.history.renewals == s.history.renewals && r.history.rebinds == s.history.rebinds
    && r.history.gaveUp == s.history.gaveUp && r.stopped
    && r.history.tried == s.history.tried
                          + (if r.owner.CloseDropping? && r.link.transport.Some? then {r.link.transport.value} else {})
  }

  // The straight-line code between one await of the maintenance loop and the next.

  /** The head of the loop. */
  function LoopTop(s: State): (r: State)
    ensures Onward(s, r) && SamePass(s, r)
    ensures Recorded(s, r) && r.link.made == s.link.made
    ensures r.history == s.history && (if s.stopped then r.maintainer.Ended? else r.maintainer.Polling?)
  {
    if s.stopped then s.(maintainer := Ended)
    else s.(maintainer := Polling(s.now + if IsConnected(s) then RENEW_POLL_SECONDS else s.backoff))
  }

  function AfterPoll(s: State): (r: State)
    ensures Onward(s, r) && r.owner == s.owner
    ensures Recorded(s, r) && r.link.made == s.link.made
    ensures PassCounted(s, r)
  {
    if s.stopped then s.(maintainer := Ended)
    else if s.claim.None? || (s.claim.value.renewAfter.Some? && s.wall < s.claim.value.renewAfter.value)
    then AfterRenew(s)
    else s.(maintainer := Renewing)
  }

  /** Whether the listener should be rebuilt now, with credentials newer than it holds. */
  predicate RebindDue(s: State) {
    s.dropHook && s.boundExpiry.Some? && s.boundExpiry.value - s.wall <= REBIND_MARGIN_SECONDS
    && ExpireAt(s.claim).Some? && ExpireAt(s.claim).value > s.boundExpiry.value
  }

  function AfterRenew(s: State): (r: State)
    ensures Onward(s, r) && r.owner == s.owner
    ensures Recorded(s, r) && r.link.made == s.link.made
    ensures PassCounted(s, r)
  {
    var s' := s.(history := s.history.(lastCheck := s.now, slept := 0.0));
    if RebindDue(s) then BeginReplace(s', Rebind(ExpireAt(s.claim).value)) else AfterRebind(s')
  }

  /** Replacing a transport starts with letting go of the one there is. */
  function BeginReplace(s: State, reason: Reason): (r: State)
    ensures Onward(s, r) && SamePass(s, r)
    ensures Recorded(s, r) && r.link.made == s.link.made
    ensures PassCounted(s, r)
    ensures r.maintainer.Connecting? && reason.Reconnect? ==> r.maintainer == Connecting(Reconnect)
    ensures r.maintainer.Dropping? && reason.Reconnect? ==> r.maintainer == Dropping(Reconnect)
    decreases if reason.Rebind? then 1 else 0, 3
  {
    if s.dropHook then TryDropHook(s).(maintainer := Dropping(reason)) else AfterDropHook(s, reason)
  }

  function TryDropHook(s: State): (r: State)
    ensures Onward(s, r) && SamePass(s, r)
  {
    if s.link.transport.Some? then s.(history := s.history.(tried := s.history.tried + {s.link.transport.value})) else s
  }

  /** Close the transport, if any. */
  function CloseTransport(s: State): (r: State)
    ensures Onward(s, r) && SamePass(s, r) && CloseRecorded(s, r)
  {
    match s.link.transport
    case None => s.(link := s.link.(connected := false))
    case Some(id) =>
      s.(link := s.link.(transport := None, connected := false, unclosed := s.link.unclosed - {id}),
         history := s.history.(closes := s.history.closes + [Close(id, s.dropHook, id in s.history.tried)],
                               lastClose := Some(s.now)))
  }

  function AfterDropHook(s: State, reason: Reason): (r: State)
    ensures Onward(s, r) && SamePass(s, r)
    ensures Recorded(s, r) && r.link.made == s.link.made
    ensures PassCounted(s, r)
    ensures r.maintainer.Connecting? && reason.Reconnect? ==> r.maintainer == Connecting(Reconnect)
    ensures r.maintainer.Dropping? ==> reason.Rebind? && r.maintainer == Dropping(Reconnect)
    decreases if reason.Rebind? then 1 else 0, 2
  {
    var s' := CloseTransport(s);
    if s.link.transport.Some? then s'.(maintainer := Settling(reason, s.now + DISCONNECT_SETTLE_SECONDS))
    else AfterSettle(s', reason)
  }

  function AfterSettle(s: State, reason: Reason): (r: State)
    ensures Onward(s, r) && SamePass(s, r)
    ensures Recorded(s, r) && r.link.made == s.link.made
    ensures PassCounted(s, r)
    ensures r.maintainer.Connecting? && reason.Reconnect? ==> r.maintainer == Connecting(Reconnect)
    ensures r.maintainer.Dropping? ==> reason.Rebind? && r.maintainer == Dropping(Reconnect)
    decreases if reason.Rebind? then 1 else 0, 1
  {
    if s.stopped then
      match reason
      case Rebind(_) => AfterRebind(s)
      case Reconnect => s.(maintainer := Ended)
    else Attempted(s).(maintainer := Connecting(reason))
  }

  function Attempted(s: State): State {
    s.(history := s.history.(attempts := s.history.attempts + [Attempt(s.now, s.history.lastClose, s.stopped)]))
  }

  function Established(s: State, up: bool): (r: State)
    ensures Onward(s, r) && r.owner == s.owner
  {
    s.(link := Link(Some(s.link.made), up, true, s.link.unclosed + {s.link.made}, s.link.made + 1),
       checkedAt := s.wall)
  }

  /** The listener has been rebuilt with newer credentials. */
  function Rebound(s: State, newer: real): State {
    s.(boundExpiry := Some(newer), history := s.history.(rebinds := s.history.rebinds + [s.history.renewals]))
  }

  function AfterConnect(s: State, reason: Reason): (r: State)
    ensures Onward(s, r) && r.owner == s.owner
    ensures Recorded(s, r) && r.link.made == s.link.made
    ensures PassCounted(if reason.Rebind? then Rebound(s, reason.newer) else s, r)
  {
    match reason
    case Rebind(newer) => AfterRebind(Rebound(s, newer))
    case Reconnect => LoopTop(Confirmed(s))
  }

  /** A reconnect that worked, or a registration that holds. */
  function Confirmed(s: State): (r: State)
    ensures Onward(s, r) && SamePass(s, r)
  {
    s.(backoff := MIN_RECONNECT_BACKOFF, history := s.history.(failures := 0))
  }

  function AfterFailedConnect(s: State, reason: Reason): (r: State)
    ensures Onward(s, r) && SamePass(s, r)
    ensures Recorded(s, r) && r.link.made == s.link.made
    ensures if reason.Rebind? then PassCounted(s, r)
            else && r.history == s.history.(failures := s.history.failures + 1)
                 && (r.maintainer.Polling? || r.maintainer.Ended?)
  {
    match reason
    case Rebind(_) => AfterRebind(s)
    case Reconnect =>
      LoopTop(s.(backoff := if s.backoff * 2.0 < MAX_RECONNECT_BACKOFF then s.backoff * 2.0 else MAX_RECONNECT_BACKOFF,
                 history := s.history.(failures := s.history.failures + 1)))
  }

  /** The rest of the pass once rebinding is out of the way. */
  function AfterRebind(s: State): (r: State)
    ensures Onward(s, r) && SamePass(s, r)
    ensures Recorded(s, r) && r.link.made == s.link.made
    ensures PassCounted(s, r)
    ensures r.maintainer.Connecting? ==> r.maintainer == Connecting(Reconnect)
    ensures r.maintainer.Dropping? ==> r.maintainer == Dropping(Reconnect)
    decreases 0, 4
  {
    if IsConnected(s) then
      if s.wall - s.checkedAt < HEALTH_CHECK_SECONDS then LoopTop(Confirmed(s))
      else s.(checkedAt := s.wall, maintainer := Checking)
    else BeginReplace(s.(link := s.link.(connected := false)), Reconnect)
  }

  /** Hosting ends for good. */
  function GiveUp(s: State): (r: State)
    ensures Onward(s, r) && r.owner == s.owner
    ensures Recorded(s, r) && r.link.made == s.link.made
  {
    var s' := s.(fatal := true, stopped := true);
    if s.dropHook then TryDropHook(s').(maintainer := GivingUp) else AfterGiveUpHook(s')
  }

  function AfterGiveUpHook(s: State): (r: State)
    ensures Onward(s, r) && r.owner == s.owner
    ensures Recorded(s, r) && r.link.made == s.link.made
  {
    var s' := CloseTransport(s);
    s'.(maintainer := Ended, history := s'.history.(gaveUp := true))
  }

  // The same for the owner.

  function AfterStartConnect(s: State): (r: State)
    ensures Onward(s, r) && !r.owner.Claiming? && !r.owner.StartConnecting? && r.history.attempts == s.history.attempts
    ensures r.link == s.link && r.history.closes == s.history.closes && r.history.lastClose == s.history.lastClose
  {
    if s.transportHook then s.(owner := StartHooking) else AfterStart(s)
  }

  function AfterStart(s: State): (r: State)
    ensures Onward(s, r) && !r.owner.Claiming? && !r.owner.StartConnecting? && r.history.attempts == s.history.attempts
    ensures r.link == s.link && r.history.closes == s.history.closes && r.history.lastClose == s.history.lastClose
  {
    LoopTop(s.(owner := Started, history := s.history.(lastCheck := s.now, slept := 0.0)))
  }

  function BeginClose(s: State): (r: State)
    ensures Onward(s, r) && !r.owner.Claiming? && !r.owner.StartConnecting? && r.maintainer == s.maintainer
    ensures CloseRecorded(s, r) && r.link.made == s.link.made && r.history.attempts == s.history.attempts
    ensures CloseCounted(s, r)
  {
    var s' := s.(stopped := true);
    if s.maintainer.NotStarted? then AfterJoin(s') else s'.(cancelRequested := true, owner := Joining)
  }

  function AfterJoin(s: State): (r: State)
    ensures Onward(s, r) && !r.owner.Claiming? && !r.owner.StartConnecting? && r.maintainer == s.maintainer
    ensures CloseRecorded(s, r) && r.link.made == s.link.made && r.history.attempts == s.history.attempts
    ensures s.stopped ==> CloseCounted(s, r)
  {
    if s.dropHook then TryDropHook(s).(owner := CloseDropping) else AfterCloseHook(s)
  }

  function AfterCloseHook(s: State): (r: State)
    ensures Onward(s, r) && !r.owner.Claiming? && !r.owner.StartConnecting? && r.maintainer == s.maintainer
    ensures CloseRecorded(s, r) && r.link.made == s.link.made && r.history.attempts == s.history.attempts
    ensures s.stopped ==> CloseCounted(s, r) && !r.owner.CloseDropping?
  {
    var s' := CloseTransport(s);
    assert CloseRecorded(s, s') && s'.maintainer == s.maintainer && s'.history.tried == s.history.tried;
    if s.claim.Some? then s'.(owner := Releasing) else s'.(owner := Closed)
  }

  /** The part of a stretch of time that a poll was due to last. */
  function Asleep(s: State, elapsed: real): real {
    match s.maintainer
    case Polling(until) =>
      if until <= s.now then 0.0 else if s.now + elapsed <= until then elapsed else until - s.now
    case _ => 0.0
  }

  function Passed(s: State, elapsed: real): (r: State)
    ensures Onward(s, r)
  {
    s.(now := s.now + elapsed, wall := s.wall + elapsed,
       history := s.history.(slept := s.history.slept + Asleep(s, elapsed)))
  }

  predicate MaintainerAwaits(s: State) {
    !s.maintainer.NotStarted? && !s.maintainer.Ended?
  }

  function NextEnvironment(s: State, event: Event): (r: State)
    ensures Onward(s, r) && r.owner == s.owner
  {
    match event
    case Tick(elapsed) => if elapsed >= 0.0 then Passed(s, elapsed) else s
    case SetClock(wall) => s.(wall := wall)
    case SocketDrops => s.(link := s.link.(alive := false))
    case SetHooks(dropHook, transportHook) => s.(dropHook := dropHook, transportHook := transportHook)
    case Configure => s.(boundExpiry := ExpireAt(s.claim))
    case _ => s
  }

  function WhenRenewing(s: State, event: Event): (r: State)
    ensures Onward(s, r) && r.owner == s.owner
    ensures (r == s || Recorded(s, r)) && r.link.made == s.link.made
  {
    match event
    case Renewed(claim) =>
      AfterRenew(s.(claim := Some(claim), history := s.history.(renewals := s.history.renewals + 1)))
    case RenewFails(hopeless) => if hopeless then GiveUp(s) else AfterRenew(s)
    case _ => s
  }

  function WhenConnecting(s: State, reason: Reason, event: Event): (r: State)
    ensures Onward(s, r) && r.owner == s.owner
    ensures s.link.transport.None? ==> r == s || Recorded(s, r)
  {
    match event
    case Connects(up) =>
      if s.transportHook then Established(s, up).(maintainer := Hooking(reason))
      else AfterConnect(Established(s, up), reason)
    case ConnectFails => AfterFailedConnect(s, reason)
    case _ => s
  }

  function WhenHooking(s: State, reason: Reason, event: Event): (r: State)
    ensures Onward(s, r) && r.owner == s.owner
    ensures (r == s || Recorded(s, r)) && r.link.made == s.link.made
  {
    match event
    case TransportHookReturns => AfterConnect(s, reason)
    case TransportHookRaises => AfterFailedConnect(s, reason)
    case _ => s
  }

  function WhenChecking(s: State, event: Event): (r: State)
    ensures Onward(s, r) && r.owner == s.owner
    ensures (r == s || Recorded(s, r)) && r.link.made == s.link.made
  {
    match event
    case CheckAnswers(online) =>
      if online then LoopTop(Confirmed(s)) else BeginReplace(s.(link := s.link.(connected := false)), Reconnect)
    case _ => s
  }

  /** A cancellation ends the loop at whatever it is awaiting. */
  function NextMaintainer(s: State, event: Event): (r: State)
    ensures Onward(s, r) && r.owner == s.owner
    ensures (s.maintainer.Connecting? && s.link.transport.Some?) || r == s || Recorded(s, r)
    ensures s.maintainer.Connecting? || r.link.made == s.link.made
  {
    if event.CancelLands? then
      if s.cancelRequested && MaintainerAwaits(s) then s.(maintainer := Ended) else s
    else
      match s.maintainer
      case Polling(until) => if event.PollEnds? && (until <= s.now || s.stopped) then AfterPoll(s) else s
      case Renewing => WhenRenewing(s, event)
      case Dropping(reason) => if event.DropHookReturns? then AfterDropHook(s, reason) else s
      case Settling(reason, until) =>
        if event.SettleEnds? && (until <= s.now || s.stopped) then AfterSettle(s, reason) else s
      case Connecting(reason) => WhenConnecting(s, reason, event)
      case Hooking(reason) => WhenHooking(s, reason, event)
      case Checking => WhenChecking(s, event)
      case GivingUp => if event.DropHookReturns? then AfterGiveUpHook(s) else s
      case NotStarted => s
      case Ended => s
  }

  function WhenClaiming(s: State, event: Event): (r: State)
    requires s.owner.Claiming?
    ensures CloseRecorded(s, r) && r.link.made == s.link.made && r.maintainer == s.maintainer
    ensures r.history.attempts == s.history.attempts
            + if r.owner.StartConnecting? then [Attempt(s.now, r.history.lastClose, s.stopped)] else []
  {
    match event
    case Granted(claim, named) =>
      var s' := s.(claim := Some(claim));
      if named then Attempted(s').(owner := StartConnecting) else s'.(owner := StartFailed)
    case ClaimFails => s.(owner := StartFailed)
    case _ => s
  }

  function WhenStartConnecting(s: State, event: Event): (r: State)
    requires s.owner.StartConnecting?
    ensures Onward(s, r) && !r.owner.Claiming? && r.history.attempts == s.history.attempts
    ensures r.maintainer.Connecting? ==> r.maintainer == s.maintainer
  {
    match event
    case StartConnects(up) => AfterStartConnect(Established(s, up))
    case StartConnectFails => s.(owner := StartFailed)
    case _ => s
  }

  function WhenStartHooking(s: State, event: Event): (r: State)
    requires s.owner.StartHooking?
    ensures Onward(s, r) && !r.owner.Claiming? && r.history.attempts == s.history.attempts
    ensures CloseRecorded(s, r) && r.link.made == s.link.made
    ensures (r.maintainer.Connecting? ==> r.maintainer == s.maintainer) && !r.owner.StartConnecting?
  {
    match event
    case StartHookReturns => AfterStart(s)
    case StartHookRaises => s.(owner := StartFailed)
    case _ => s
  }

  /** `start` resumes. */
  function NextStarting(s: State, event: Event): (r: State)
    ensures !s.owner.Claiming? ==> Onward(s, r) && !r.owner.Claiming? && r.history.attempts == s.history.attempts
    ensures !s.owner.StartConnecting? ==> CloseRecorded(s, r) && r.link.made == s.link.made
    ensures r.maintainer.Connecting? ==> r.maintainer == s.maintainer
    ensures r.owner.StartConnecting? && r.owner != s.owner ==>
              r.history.attempts == s.history.attempts + [Attempt(s.now, r.history.lastClose, s.stopped)]
  {
    match s.owner
    case Claiming => WhenClaiming(s, event)
    case StartConnecting => WhenStartConnecting(s, event)
    case StartHooking => WhenStartHooking(s, event)
    case _ => s
  }

  /** `aclose` is called, or resumes. */
  function NextClosing(s: State, event: Event): (r: State)
    requires !s.owner.Claiming? && !s.owner.StartConnecting? && !s.owner.StartHooking?
    ensures Onward(s, r) && !r.owner.Claiming? && r.history.attempts == s.history.attempts
    ensures CloseRecorded(s, r) && r.link.made == s.link.made
    ensures r.maintainer == s.maintainer && !r.owner.StartConnecting?
  {
    match s.owner
    case Started => if event.CallClose? then BeginClose(s) else s
    case StartFailed => if event.CallClose? then BeginClose(s) else s
    case Joining => if event.Joined? && s.maintainer.Ended? then AfterJoin(s) else s
    case CloseDropping => if event.CloseHookReturns? then AfterCloseHook(s) else s
    case Releasing => if event.Released? then s.(owner := Closed, claim := None) else s
    case Closed => s
  }

  function NextOwner(s: State, event: Event): (r: State)
    ensures !s.owner.Claiming? ==> Onward(s, r) && !r.owner.Claiming? && r.history.attempts == s.history.attempts
    ensures !s.owner.StartConnecting? ==> CloseRecorded(s, r) && r.link.made == s.link.made
    ensures s.owner.Closed? ==> r == s
    ensures r.maintainer.Connecting? ==> r.maintainer == s.maintainer
    ensures r.owner.StartConnecting? && r.owner != s.owner ==>
              r.history.attempts == s.history.attempts + [Attempt(s.now, r.history.lastClose, s.stopped)]
  {
    if s.owner.Claiming? || s.owner.StartConnecting? || s.owner.StartHooking? then NextStarting(s, event)
    else NextClosing(s, event)
  }

  predicate IsEnvironment(event: Event) {
    event.Tick? || event.SetClock? || event.SocketDrops? || event.SetHooks? || event.Configure?
  }

  predicate IsOwner(event: Event) {
    || event.Granted? || event.ClaimFails? || event.StartConnects? || event.StartConnectFails?
    || event.StartHookReturns? || event.StartHookRaises?
    || event.CallClose? || event.Joined? || event.CloseHookReturns? || event.Released?
  }

  function Next(s: State, event: Event): State {
    if IsEnvironment(event) then NextEnvironment(s, event)
    else if IsOwner(event) then NextOwner(s, event)
    else NextMaintainer(s, event)
  }

  /** An endpoint just made, with `start` awaiting its claim. */
  function Initial(now: real, wall: real, dropHook: bool, transportHook: bool): State {
    State(now, wall, None, Link(None, false, false, {}, 0), None, 0.0, MIN_RECONNECT_BACKOFF, false, false, false,
          dropHook, transportHook, NotStarted, Claiming,
          History([], [], None, {}, 0, [], false, 0, now, 0.0))
  }

  function Run(s: State, events: seq<Event>): State
    decreases |events|
  {
    if events == [] then s else Run(Next(s, events[0]), events[1..])
  }
}
