/** What holds at every await point of a hosted endpoint, over every run. */
module HostingSafety {
  import opened Wrappers
  import opened Hosting

  function Pow2(k: nat): real {
    if k == 0 then 1.0 else 2.0 * Pow2(k - 1)
  }

  /** The backoff after `k` failed reconnects in a row. */
  function BackoffAfter(k: nat): real {
    if Pow2(k) < MAX_RECONNECT_BACKOFF then Pow2(k) else MAX_RECONNECT_BACKOFF
  }

  lemma {:induction false} BackoffDoubles(k: nat)
    ensures var doubled := BackoffAfter(k) * 2.0;
            BackoffAfter(k + 1) == if doubled < MAX_RECONNECT_BACKOFF then doubled else MAX_RECONNECT_BACKOFF
    ensures MIN_RECONNECT_BACKOFF <= BackoffAfter(k) <= MAX_RECONNECT_BACKOFF
  {
    Pow2AtLeastOne(k);
  }

  lemma Pow2AtLeastOne(k: nat)
    ensures Pow2(k) >= 1.0
  {
  }

  /** The settle interval has passed since the last close. */
  ghost predicate Settled(s: State) {
    s.history.lastClose.Some? ==> s.now >= s.history.lastClose.value + DISCONNECT_SETTLE_SECONDS
  }

  /** An attempt to connect that was made neither too early nor too late. */
  ghost predicate GoodAttempt(a: Attempt) {
    !a.stopped && (a.lastClose.Some? ==> a.at >= a.lastClose.value + DISCONNECT_SETTLE_SECONDS)
  }

  ghost predicate GoodClose(c: Close) {
    c.hookSet ==> c.hookTried
  }

  /** The only transport not closed is the current one, and the event is set only while there is one. */
  ghost predicate LinkOk(link: Link) {
    && link.unclosed == (if link.transport.Some? then {link.transport.value} else {})
    && (link.connected ==> link.transport.Some?)
    && (link.transport.Some? ==> link.transport.value < link.made)
  }

  ghost predicate HistoryOk(h: History) {
    && (forall i | 0 <= i < |h.attempts| :: GoodAttempt(h.attempts[i]))
    && (forall i | 0 <= i < |h.closes| :: GoodClose(h.closes[i]))
    && (forall i | 0 <= i < |h.rebinds| :: h.rebinds[i] <= h.renewals)
    && (forall i, j | 0 <= i < j < |h.rebinds| :: h.rebinds[i] < h.rebinds[j])
  }

  /** There has been a renewal since the last successful rebind, or no such rebind yet. */
  ghost predicate RenewedSince(h: History) {
    h.rebinds == [] || h.rebinds[|h.rebinds| - 1] < h.renewals
  }

  /** Without such a renewal the bound credentials are the newest there are. */
  ghost predicate BoundOk(s: State) {
    !RenewedSince(s.history) ==> s.claim.None? || s.boundExpiry == ExpireAt(s.claim)
  }

  ghost predicate Core(s: State) {
    && LinkOk(s.link) && HistoryOk(s.history) && BoundOk(s)
    && s.backoff == BackoffAfter(s.history.failures)
    && (s.fatal ==> s.stopped)
    && (s.history.lastClose.Some? ==> s.history.lastClose.value <= s.now)
    && s.history.lastCheck <= s.now && s.history.slept >= 0.0
  }

  /** A transport that is missing has been for long enough. */
  ghost predicate Quiet(s: State) {
    s.link.transport.None? && !s.stopped ==> Settled(s)
  }

  ghost predicate Tried(s: State) {
    s.link.transport.Some? ==> s.link.transport.value in s.history.tried
  }

  ghost predicate ReasonOk(s: State, reason: Reason) {
    reason.Rebind? ==> ExpireAt(s.claim) == Some(reason.newer) && RenewedSince(s.history)
  }

  ghost predicate MaintainerOk(s: State) {
    match s.maintainer
    case NotStarted => true
    case Polling(until) =>
      && Quiet(s) && s.history.slept <= RENEW_POLL_SECONDS
      && s.history.slept + (until - s.now) <= RENEW_POLL_SECONDS
    case Renewing => Quiet(s) && s.history.slept <= RENEW_POLL_SECONDS
    case Dropping(reason) => Quiet(s) && Tried(s) && s.history.slept == 0.0 && ReasonOk(s, reason)
    case Settling(reason, until) =>
      && s.link.transport.None? && s.history.slept == 0.0 && ReasonOk(s, reason)
      && s.history.lastClose == Some(until - DISCONNECT_SETTLE_SECONDS)
    case Connecting(reason) => s.link.transport.None? && Settled(s) && s.history.slept == 0.0 && ReasonOk(s, reason)
    case Hooking(reason) => s.link.transport.Some? && s.history.slept == 0.0 && ReasonOk(s, reason)
    case Checking => s.link.transport.Some? && s.history.slept == 0.0
    case GivingUp => s.stopped && Tried(s)
    case Ended => s.history.gaveUp ==> s.stopped && s.link.transport.None?
  }

  /** Nothing has been closed or stopped yet. */
  ghost predicate Fresh(s: State) {
    && s.maintainer.NotStarted? && !s.stopped && !s.cancelRequested
    && s.history.lastClose.None? && s.history.rebinds == [] && s.history.failures == 0
  }

  ghost predicate OwnerOk(s: State) {
    match s.owner
    case Claiming => Fresh(s) && s.link.transport.None?
    case StartConnecting => Fresh(s) && s.link.transport.None?
    case StartHooking => Fresh(s) && s.link.transport.Some?
    case Started => !s.maintainer.NotStarted? && !s.cancelRequested
    case StartFailed => Fresh(s)
    case Joining => s.stopped && !s.maintainer.NotStarted?
    case CloseDropping => s.stopped && !MaintainerAwaits(s) && Tried(s)
    case Releasing => s.stopped && !MaintainerAwaits(s) && s.link.transport.None?
    case Closed => s.stopped && !MaintainerAwaits(s) && s.link.transport.None?
  }

  ghost predicate Inv(s: State) {
    Core(s) && MaintainerOk(s) && OwnerOk(s) && (s.history.gaveUp ==> s.maintainer.Ended?)
  }

  /** What the loop may rely on between two awaits: it is running, whatever its owner does. */
  ghost predicate Mid(s: State) {
    && Core(s) && Quiet(s) && !s.history.gaveUp
    && (s.owner.Started? || s.owner.Joining?) && (s.owner.Joining? ==> s.stopped)
    && (s.owner.Started? ==> !s.cancelRequested)
  }

  lemma {:induction false} LoopTopInv(s: State)
    requires Mid(s) && s.history.slept == 0.0
    ensures Inv(LoopTop(s))
  {
    BackoffDoubles(s.history.failures);
  }

  lemma {:induction false} ConfirmedMid(s: State)
    requires Mid(s)
    ensures Mid(Confirmed(s)) && Confirmed(s).history.slept == s.history.slept
  {
  }

  lemma {:induction false} CloseTransportCore(s: State)
    requires Core(s) && (s.dropHook ==> Tried(s))
    ensures var s' := CloseTransport(s);
            && Core(s') && s'.link.transport.None?
            && (s.link.transport.None? ==> s'.history == s.history)
            && (s.link.transport.Some? ==> s'.history.lastClose == Some(s.now))
  {
  }

  lemma {:induction false} TryDropHookCore(s: State)
    requires Core(s)
    ensures Core(TryDropHook(s)) && Tried(TryDropHook(s))
  {
  }

  lemma {:induction false} BeginReplaceInv(s: State, reason: Reason)
    requires Mid(s) && s.history.slept == 0.0 && ReasonOk(s, reason)
    ensures Inv(BeginReplace(s, reason))
    decreases if reason.Rebind? then 1 else 0, 3
  {
    if s.dropHook {
      TryDropHookCore(s);
    } else {
      AfterDropHookInv(s, reason);
    }
  }

  lemma {:induction false} AfterDropHookInv(s: State, reason: Reason)
    requires Mid(s) && s.history.slept == 0.0 && ReasonOk(s, reason) && (s.dropHook ==> Tried(s))
    ensures Inv(AfterDropHook(s, reason))
    decreases if reason.Rebind? then 1 else 0, 2
  {
    CloseTransportCore(s);
    if s.link.transport.None? {
      AfterSettleInv(CloseTransport(s), reason);
    }
  }

  lemma {:induction false} AfterSettleInv(s: State, reason: Reason)
    requires Mid(s) && s.history.slept == 0.0 && ReasonOk(s, reason) && s.link.transport.None?
    ensures Inv(AfterSettle(s, reason))
    decreases if reason.Rebind? then 1 else 0, 1
  {
    if s.stopped {
      if reason.Rebind? {
        AfterRebindInv(s);
      }
    } else {
    }
  }

  lemma {:induction false} AfterRebindInv(s: State)
    requires Mid(s) && s.history.slept == 0.0
    ensures Inv(AfterRebind(s))
    decreases 0, 4
  {
    if IsConnected(s) {
      if s.wall - s.checkedAt < HEALTH_CHECK_SECONDS {
        ConfirmedMid(s);
        LoopTopInv(Confirmed(s));
      }
    } else {
      BeginReplaceInv(s.(link := s.link.(connected := false)), Reconnect);
    }
  }

  lemma {:induction false} AfterRenewInv(s: State)
    requires Mid(s)
    ensures Inv(AfterRenew(s))
  {
    var s' := s.(history := s.history.(lastCheck := s.now, slept := 0.0));
    assert Mid(s');
    if RebindDue(s) {
      BeginReplaceInv(s', Rebind(ExpireAt(s.claim).value));
    } else {
      AfterRebindInv(s');
    }
  }

  lemma {:induction false} AfterPollInv(s: State)
    requires Mid(s) && s.history.slept <= RENEW_POLL_SECONDS
    ensures Inv(AfterPoll(s))
  {
    if !s.stopped {
      AfterRenewInv(s);
    }
  }

  lemma {:induction false} AfterConnectInv(s: State, reason: Reason)
    requires Mid(s) && s.history.slept == 0.0 && ReasonOk(s, reason) && s.link.transport.Some?
    ensures Inv(AfterConnect(s, reason))
  {
    match reason
    case Rebind(newer) =>
      AfterRebindInv(Rebound(s, newer));
    case Reconnect =>
      ConfirmedMid(s);
      LoopTopInv(Confirmed(s));
  }

  lemma {:induction false} AfterFailedConnectInv(s: State, reason: Reason)
    requires Mid(s) && s.history.slept == 0.0
    ensures Inv(AfterFailedConnect(s, reason))
  {
    hide AfterRebind, LoopTop, BackoffAfter;
    match reason
    case Rebind(_) => AfterRebindInv(s);
    case Reconnect =>
      BackoffDoubles(s.history.failures);
      LoopTopInv(s.(backoff := BackoffAfter(s.history.failures + 1),
                    history := s.history.(failures := s.history.failures + 1)));
  }

  lemma {:induction false} AfterGiveUpHookInv(s: State)
    requires Core(s) && s.stopped && (s.dropHook ==> Tried(s))
    requires (s.owner.Started? && !s.cancelRequested) || s.owner.Joining?
    ensures Inv(AfterGiveUpHook(s))
  {
    CloseTransportCore(s);
  }

  lemma {:induction false} GiveUpInv(s: State)
    requires Mid(s)
    ensures Inv(GiveUp(s))
  {
    var s' := s.(fatal := true, stopped := true);
    if s.dropHook {
      TryDropHookCore(s');
    } else {
      AfterGiveUpHookInv(s');
    }
  }

  /** Where the loop is awaiting something it can rely on what it may between awaits. */
  lemma {:induction false} AwaitingIsMid(s: State)
    requires Inv(s) && MaintainerAwaits(s) && !s.maintainer.Settling? && !s.maintainer.GivingUp?
    ensures Mid(s)
  {
  }

  lemma {:induction false} PollKeeps(s: State, event: Event)
    requires Inv(s) && s.maintainer.Polling?
    ensures Inv(NextMaintainer(s, event))
  {
    AwaitingIsMid(s);
    AfterPollInv(s);
  }

  lemma {:induction false} RenewedKeeps(s: State, claim: Claim)
    requires Inv(s) && s.maintainer.Renewing?
    ensures Inv(WhenRenewing(s, Renewed(claim)))
  {
    hide AfterRenew;
    AwaitingIsMid(s);
    AfterRenewInv(s.(claim := Some(claim), history := s.history.(renewals := s.history.renewals + 1)));
  }

  lemma {:induction false} RenewKeeps(s: State, event: Event)
    requires Inv(s) && s.maintainer.Renewing?
    ensures Inv(NextMaintainer(s, event))
  {
    if event.Renewed? {
      RenewedKeeps(s, event.claim);
    } else if event.RenewFails? {
      AwaitingIsMid(s);
      if event.hopeless {
        GiveUpInv(s);
      } else {
        AfterRenewInv(s);
      }
    }
  }

  lemma {:induction false} DropKeeps(s: State, event: Event)
    requires Inv(s) && s.maintainer.Dropping?
    ensures Inv(NextMaintainer(s, event))
  {
    AwaitingIsMid(s);
    AfterDropHookInv(s, s.maintainer.reason);
  }

  lemma {:induction false} SettleKeeps(s: State, event: Event)
    requires Inv(s) && s.maintainer.Settling?
    ensures Inv(NextMaintainer(s, event))
  {
    if s.maintainer.until <= s.now || s.stopped {
      AfterSettleInv(s, s.maintainer.reason);
    }
  }

  lemma {:induction false} ConnectKeeps(s: State, event: Event)
    requires Inv(s) && s.maintainer.Connecting?
    ensures Inv(NextMaintainer(s, event))
  {
    if event.Connects? {
      ConnectsKeeps(s, event.up);
    } else if event.ConnectFails? {
      AwaitingIsMid(s);
      AfterFailedConnectInv(s, s.maintainer.reason);
    }
  }

  lemma {:induction false} HookKeeps(s: State, event: Event)
    requires Inv(s) && s.maintainer.Hooking?
    ensures Inv(NextMaintainer(s, event))
  {
    AwaitingIsMid(s);
    if event.TransportHookReturns? {
      AfterConnectInv(s, s.maintainer.reason);
    } else if event.TransportHookRaises? {
      AfterFailedConnectInv(s, s.maintainer.reason);
    }
  }

  lemma {:induction false} GivingUpKeeps(s: State, event: Event)
    requires Inv(s) && s.maintainer.GivingUp?
    ensures Inv(NextMaintainer(s, event))
  {
    AfterGiveUpHookInv(s);
  }

  lemma {:induction false} MaintainerKeeps(s: State, event: Event)
    requires Inv(s)
    ensures Inv(NextMaintainer(s, event))
  {
    match s.maintainer
    case NotStarted =>
    case Polling(_) => PollKeeps(s, event);
    case Renewing => RenewKeeps(s, event);
    case Dropping(_) => DropKeeps(s, event);
    case Settling(_, _) => SettleKeeps(s, event);
    case Connecting(_) => ConnectKeeps(s, event);
    case Hooking(_) => HookKeeps(s, event);
    case Checking => if event.CheckAnswers? { CheckKeeps(s, event.online); }
    case GivingUp => GivingUpKeeps(s, event);
    case Ended =>
  }

  lemma {:induction false} ConnectsKeeps(s: State, up: bool)
    requires Inv(s) && s.maintainer.Connecting?
    ensures Inv(NextMaintainer(s, Connects(up)))
  {
    AwaitingIsMid(s);
    if !s.transportHook {
      AfterConnectInv(Established(s, up), s.maintainer.reason);
    }
  }

  lemma {:induction false} CheckKeeps(s: State, online: bool)
    requires Inv(s) && s.maintainer.Checking?
    ensures Inv(NextMaintainer(s, CheckAnswers(online)))
  {
    AwaitingIsMid(s);
    if online {
      ConfirmedMid(s);
      LoopTopInv(Confirmed(s));
    } else {
      BeginReplaceInv(s.(link := s.link.(connected := false)), Reconnect);
    }
  }

  lemma {:induction false} PassedKeeps(s: State, elapsed: real)
    requires Inv(s) && elapsed >= 0.0
    ensures Inv(Passed(s, elapsed))
  {
    match s.maintainer
    case Polling(until) =>
    case _ => assert Asleep(s, elapsed) == 0.0;
  }

  lemma {:induction false} LostKeeps(s: State)
    requires Inv(s)
    ensures Inv(s.(link := s.link.(alive := false)))
  {
  }

  lemma {:induction false} ConfiguredKeeps(s: State)
    requires Inv(s)
    ensures Inv(s.(boundExpiry := ExpireAt(s.claim)))
  {
  }

  lemma {:induction false} ResetKeeps(s: State, wall: real, dropHook: bool, transportHook: bool)
    requires Inv(s)
    ensures Inv(s.(wall := wall)) && Inv(s.(dropHook := dropHook, transportHook := transportHook))
  {
  }

  lemma {:induction false} EnvironmentKeeps(s: State, event: Event)
    requires Inv(s)
    ensures Inv(NextEnvironment(s, event))
  {
    match event
    case Tick(elapsed) => if elapsed >= 0.0 { PassedKeeps(s, elapsed); }
    case SetClock(wall) => ResetKeeps(s, wall, s.dropHook, s.transportHook);
    case SocketDrops => LostKeeps(s);
    case SetHooks(dropHook, transportHook) => ResetKeeps(s, s.wall, dropHook, transportHook);
    case Configure => ConfiguredKeeps(s);
    case _ =>
  }

  lemma {:induction false} AfterCloseHookInv(s: State)
    requires Core(s) && s.stopped && !MaintainerAwaits(s) && (s.dropHook ==> Tried(s))
    requires MaintainerOk(s) && (s.history.gaveUp ==> s.maintainer.Ended?)
    ensures Inv(AfterCloseHook(s))
  {
    CloseTransportCore(s);
    ClosedInv(CloseTransport(s), if s.claim.Some? then Releasing else Closed);
  }

  lemma {:induction false} ClosedInv(s: State, owner: Owner)
    requires Core(s) && s.stopped && !MaintainerAwaits(s) && s.link.transport.None?
    requires owner.Releasing? || owner.Closed?
    requires s.history.gaveUp ==> s.maintainer.Ended?
    ensures Inv(s.(owner := owner))
  {
    assert s.maintainer.NotStarted? || s.maintainer.Ended?;
  }

  lemma {:induction false} AfterJoinInv(s: State)
    requires Core(s) && s.stopped && !MaintainerAwaits(s)
    requires MaintainerOk(s) && (s.history.gaveUp ==> s.maintainer.Ended?)
    ensures Inv(AfterJoin(s))
  {
    if s.dropHook {
      TryDropHookCore(s);
    } else {
      AfterCloseHookInv(s);
    }
  }

  lemma {:induction false} BeginCloseInv(s: State)
    requires Inv(s) && (s.owner.Started? || s.owner.StartFailed?)
    ensures Inv(BeginClose(s))
  {
    if s.maintainer.NotStarted? {
      AfterJoinInv(s.(stopped := true));
    }
  }

  lemma {:induction false} ClaimingKeeps(s: State, event: Event)
    requires Inv(s) && s.owner.Claiming?
    ensures Inv(WhenClaiming(s, event))
  {
  }

  lemma {:induction false} StartConnectingKeeps(s: State, event: Event)
    requires Inv(s) && s.owner.StartConnecting?
    ensures Inv(WhenStartConnecting(s, event))
  {
  }

  lemma {:induction false} StartHookingKeeps(s: State, event: Event)
    requires Inv(s) && s.owner.StartHooking?
    ensures Inv(WhenStartHooking(s, event))
  {
  }

  lemma {:induction false} StartingKeeps(s: State, event: Event)
    requires Inv(s)
    ensures Inv(NextStarting(s, event))
  {
    hide WhenClaiming, WhenStartConnecting, WhenStartHooking, Inv;
    match s.owner
    case Claiming => ClaimingKeeps(s, event);
    case StartConnecting => StartConnectingKeeps(s, event);
    case StartHooking => StartHookingKeeps(s, event);
    case _ =>
  }

  lemma {:induction false} JoiningKeeps(s: State)
    requires Inv(s) && s.owner.Joining? && s.maintainer.Ended?
    ensures Inv(AfterJoin(s))
  {
    AfterJoinInv(s);
  }

  lemma {:induction false} CloseDroppingKeeps(s: State)
    requires Inv(s) && s.owner.CloseDropping?
    ensures Inv(AfterCloseHook(s))
  {
    AfterCloseHookInv(s);
  }

  lemma {:induction false} ReleaseKeeps(s: State)
    requires Inv(s) && s.owner.Releasing?
    ensures Inv(s.(owner := Closed, claim := None))
  {
    assert s.maintainer.NotStarted? || s.maintainer.Ended?;
  }

  lemma {:induction false} ClosingKeeps(s: State, event: Event)
    requires Inv(s) && !s.owner.Claiming? && !s.owner.StartConnecting? && !s.owner.StartHooking?
    ensures Inv(NextClosing(s, event))
  {
    hide BeginClose, AfterJoin, AfterCloseHook, Inv;
    match s.owner
    case Started => BeginCloseInv(s);
    case StartFailed => BeginCloseInv(s);
    case Joining => if s.maintainer.Ended? { JoiningKeeps(s); }
    case CloseDropping => CloseDroppingKeeps(s);
    case Releasing => ReleaseKeeps(s);
    case Closed =>
  }

  lemma {:induction false} OwnerKeeps(s: State, event: Event)
    requires Inv(s)
    ensures Inv(NextOwner(s, event))
  {
    hide NextStarting, NextClosing, Inv;
    if s.owner.Claiming? || s.owner.StartConnecting? || s.owner.StartHooking? {
      StartingKeeps(s, event);
    } else {
      ClosingKeeps(s, event);
    }
  }

  lemma {:induction false} NextKeeps(s: State, event: Event)
    requires Inv(s)
    ensures Inv(Next(s, event))
  {
    hide NextEnvironment, NextMaintainer, NextOwner, Inv;
    EnvironmentKeeps(s, event);
    MaintainerKeeps(s, event);
    OwnerKeeps(s, event);
  }

  lemma {:induction false} RunKeeps(s: State, events: seq<Event>)
    requires Inv(s)
    ensures Inv(Run(s, events))
    decreases |events|
  {
    if events != [] {
      NextKeeps(s, events[0]);
      RunKeeps(Next(s, events[0]), events[1..]);
    }
  }

}
