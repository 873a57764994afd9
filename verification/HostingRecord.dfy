/**
  The history a hosted endpoint keeps says what happened: each of its entries is tied to the
  events of the run and the await points they come at, none of which are part of the history.
 */
module HostingRecord {
  import opened Wrappers
  import opened Hosting
  import opened HostingSafety

  /** A renewal is accepted. */
  predicate Renews(s: State, event: Event) {
    s.maintainer.Renewing? && event.Renewed?
  }

  /** A reconnect fails, at the connection or at the hook that follows it. */
  predicate FailsToReconnect(s: State, event: Event) {
    (s.maintainer == Connecting(Reconnect) && event.ConnectFails?)
    || (s.maintainer == Hooking(Reconnect) && event.TransportHookRaises?)
  }

  /** A rebind succeeds: connected, and the hook has returned if there is one. */
  predicate Rebinds(s: State, event: Event) {
    (s.maintainer.Connecting? && s.maintainer.reason.Rebind? && event.Connects? && !s.transportHook)
    || (s.maintainer.Hooking? && s.maintainer.reason.Rebind? && event.TransportHookReturns?)
  }

  /** Hosting ends for good and the transport has been let go of. */
  predicate GivesUp(s: State, event: Event) {
    (s.maintainer.Renewing? && event.RenewFails? && event.hopeless && !s.dropHook)
    || (s.maintainer.GivingUp? && event.DropHookReturns?)
  }

  /** A step comes to await a connection, the drop hook, or the next poll. */
  predicate BeginsAttempt(s: State, s': State) {
    (s'.maintainer.Connecting? && s'.maintainer != s.maintainer) || (s'.owner.StartConnecting? && s'.owner != s.owner)
  }

  predicate BeginsDrop(s: State, s': State) {
    ((s'.maintainer.Dropping? || s'.maintainer.GivingUp?) && s'.maintainer != s.maintainer)
    || (s'.owner.CloseDropping? && s'.owner != s.owner)
  }

  predicate BeginsPoll(s: State, s': State) {
    s'.maintainer.Polling? && s'.maintainer != s.maintainer
  }

  /** Transports and attempts to make one. */
  ghost predicate AttemptsAccounted(s: State, s': State) {
    && (s'.link.made == s.link.made || s.maintainer.Connecting? || s.owner.StartConnecting?)
    && s'.history.attempts == s.history.attempts
       + (if BeginsAttempt(s, s') then [Attempt(s.now, s'.history.lastClose, s.stopped)] else [])
    && CloseRecorded(s, s')
  }

  /** Failed reconnects in a row: one more, or none once the loop is back to polling another way. */
  function FailuresAfter(s: State, event: Event, s': State, failures: nat): nat {
    if FailsToReconnect(s, event) then failures + 1 else if BeginsPoll(s, s') then 0 else failures
  }

  ghost predicate CountsAccounted(s: State, event: Event, s': State) {
    && s'.history.renewals == s.history.renewals + (if Renews(s, event) then 1 else 0)
    && s'.history.rebinds == s.history.rebinds + (if Rebinds(s, event) then [s'.history.renewals] else [])
    && s'.history.tried == s.history.tried
                           + (if BeginsDrop(s, s') && s'.link.transport.Some? then {s'.link.transport.value} else {})
    && (s'.history.gaveUp <==> s.history.gaveUp || GivesUp(s, event))
    && (!s'.stopped ==> s'.history.failures == FailuresAfter(s, event, s', s.history.failures))
  }

  /** What a pass goes on from: the step's own event has been counted, and nothing else. */
  ghost predicate GoesOnFrom(s: State, event: Event, s0: State) {
    && s0.now == s.now && s0.owner == s.owner && s0.history.tried == s.history.tried
    && s0.history.renewals == s.history.renewals + (if Renews(s, event) then 1 else 0)
    && s0.history.rebinds == s.history.rebinds + (if Rebinds(s, event) then [s0.history.renewals] else [])
    && s0.history.gaveUp == s.history.gaveUp && s0.history.failures == s.history.failures
    && !GivesUp(s, event) && !FailsToReconnect(s, event)
  }

  lemma {:induction false} PassAccounted(s: State, event: Event, s0: State, s': State)
    requires GoesOnFrom(s, event, s0) && PassCounted(s0, s') && s'.owner == s.owner && (s.stopped ==> s'.stopped)
    requires s.maintainer.Polling? ==> s.maintainer.until <= s.now || s.stopped
    requires s'.maintainer.Dropping? ==> s'.maintainer != s.maintainer
    ensures CountsAccounted(s, event, s')
  {
  }

  lemma {:induction false} PollCounted(s: State)
    requires s.maintainer.Polling? && (s.maintainer.until <= s.now || s.stopped)
    ensures CountsAccounted(s, PollEnds, AfterPoll(s))
  {
    hide AfterPoll, Recorded, PassCounted, CountsAccounted;
    PassAccounted(s, PollEnds, s, AfterPoll(s));
  }

  lemma {:induction false} RenewedCounted(s: State, claim: Claim)
    requires s.maintainer.Renewing?
    ensures CountsAccounted(s, Renewed(claim), WhenRenewing(s, Renewed(claim)))
  {
    hide AfterRenew, Recorded, PassCounted, CountsAccounted;
    var s0 := s.(claim := Some(claim), history := s.history.(renewals := s.history.renewals + 1));
    PassAccounted(s, Renewed(claim), s0, AfterRenew(s0));
  }

  lemma {:induction false} RenewFailedCounted(s: State, hopeless: bool)
    requires s.maintainer.Renewing?
    ensures CountsAccounted(s, RenewFails(hopeless), WhenRenewing(s, RenewFails(hopeless)))
  {
    hide AfterRenew, Recorded, PassCounted, AfterGiveUpHook;
    if hopeless {
      hide GiveUp;
      GiveUpCounted(s);
    } else {
      PassAccounted(s, RenewFails(hopeless), s, AfterRenew(s));
    }
  }

  lemma {:induction false} GiveUpCounted(s: State)
    requires s.maintainer.Renewing?
    ensures CountsAccounted(s, RenewFails(true), GiveUp(s))
  {
    hide Recorded, Onward, SamePass;
  }

  lemma {:induction false} DropCounted(s: State)
    requires s.maintainer.Dropping?
    ensures CountsAccounted(s, DropHookReturns, AfterDropHook(s, s.maintainer.reason))
  {
    hide AfterDropHook, Recorded, PassCounted, CountsAccounted;
    PassAccounted(s, DropHookReturns, s, AfterDropHook(s, s.maintainer.reason));
  }

  lemma {:induction false} SettleCounted(s: State)
    requires s.maintainer.Settling?
    ensures CountsAccounted(s, SettleEnds, AfterSettle(s, s.maintainer.reason))
  {
    hide AfterSettle, Recorded, PassCounted, CountsAccounted;
    PassAccounted(s, SettleEnds, s, AfterSettle(s, s.maintainer.reason));
  }

  /** A connection that comes about, or whose hook returns. */
  lemma {:induction false} ConnectedCounted(s: State, event: Event, reason: Reason, s0: State)
    requires !s.maintainer.Polling? && !s.maintainer.Dropping? && Rebinds(s, event) == reason.Rebind?
    requires !Renews(s, event) && !GivesUp(s, event) && !FailsToReconnect(s, event)
    requires s0.history == s.history && s0.now == s.now && s0.owner == s.owner && s0.stopped == s.stopped
    ensures CountsAccounted(s, event, AfterConnect(s0, reason))
  {
    hide AfterConnect, Recorded, PassCounted, CountsAccounted;
    PassAccounted(s, event, if reason.Rebind? then Rebound(s0, reason.newer) else s0, AfterConnect(s0, reason));
  }

  /** A connection that does not come about, or whose hook raises. */
  lemma {:induction false} FailedCounted(s: State, event: Event, reason: Reason)
    requires !s.maintainer.Polling? && !s.maintainer.Dropping? && FailsToReconnect(s, event) == reason.Reconnect?
    requires !Renews(s, event) && !GivesUp(s, event) && !Rebinds(s, event)
    ensures CountsAccounted(s, event, AfterFailedConnect(s, reason))
  {
    hide AfterFailedConnect, Recorded, PassCounted;
    if reason.Rebind? {
      PassAccounted(s, event, s, AfterFailedConnect(s, reason));
    }
  }

  lemma {:induction false} HookingCounted(s: State, reason: Reason, up: bool)
    requires s.maintainer == Connecting(reason) && s.transportHook
    ensures CountsAccounted(s, Connects(up), Established(s, up).(maintainer := Hooking(reason)))
  {
  }

  lemma {:induction false} CheckedCounted(s: State, online: bool)
    requires s.maintainer.Checking?
    ensures CountsAccounted(s, CheckAnswers(online), WhenChecking(s, CheckAnswers(online)))
  {
    hide BeginReplace, LoopTop, Recorded, PassCounted;
    if !online {
      var s0 := s.(link := s.link.(connected := false));
      PassAccounted(s, CheckAnswers(online), s0, BeginReplace(s0, Reconnect));
    }
  }

  lemma ClosingCountsNothing(s: State)
    ensures var r := CloseTransport(s);
            && r.history.renewals == s.history.renewals && r.history.rebinds == s.history.rebinds
            && r.history.tried == s.history.tried && r.stopped == s.stopped && r.history.failures == s.history.failures
  {
  }

  lemma {:induction false} GivingUpCounted(s: State)
    requires s.maintainer.GivingUp?
    ensures CountsAccounted(s, DropHookReturns, AfterGiveUpHook(s))
  {
    hide CloseTransport, Recorded, Onward;
    ClosingCountsNothing(s);
  }

  /** What does not concern the loop where it is, and its cancellation, count for nothing. */
  lemma {:induction false} IdleCounted(s: State, event: Event, s': State)
    requires s' == s || s' == s.(maintainer := Ended)
    requires !Renews(s, event) && !FailsToReconnect(s, event) && !Rebinds(s, event) && !GivesUp(s, event)
    ensures CountsAccounted(s, event, s')
  {
  }

  lemma {:induction false} MaintainerCounted(s: State, event: Event)
    requires !IsEnvironment(event) && !IsOwner(event)
    ensures CountsAccounted(s, event, NextMaintainer(s, event))
  {
    hide AfterPoll, AfterDropHook, AfterSettle, AfterGiveUpHook, AfterRenew, GiveUp, AfterConnect, AfterFailedConnect,
      BeginReplace, LoopTop, Recorded, Onward, SamePass, PassCounted, CountsAccounted;
    if s.maintainer.Polling? && event.PollEnds? && (s.maintainer.until <= s.now || s.stopped) {
      PollCounted(s);
    } else if s.maintainer.Dropping? && event.DropHookReturns? {
      DropCounted(s);
    } else if s.maintainer.Settling? && event.SettleEnds? && (s.maintainer.until <= s.now || s.stopped) {
      SettleCounted(s);
    } else if s.maintainer.GivingUp? && event.DropHookReturns? {
      GivingUpCounted(s);
    } else if s.maintainer.Connecting? && event.Connects? {
      if s.transportHook {
        HookingCounted(s, s.maintainer.reason, event.up);
      } else {
        ConnectedCounted(s, event, s.maintainer.reason, Established(s, event.up));
      }
    } else if s.maintainer.Hooking? && event.TransportHookReturns? {
      ConnectedCounted(s, event, s.maintainer.reason, s);
    } else if (s.maintainer.Connecting? && event.ConnectFails?)
              || (s.maintainer.Hooking? && event.TransportHookRaises?) {
      FailedCounted(s, event, s.maintainer.reason);
    } else if s.maintainer.Renewing? && event.Renewed? {
      RenewedCounted(s, event.claim);
    } else if s.maintainer.Renewing? && event.RenewFails? {
      RenewFailedCounted(s, event.hopeless);
    } else if s.maintainer.Checking? && event.CheckAnswers? {
      CheckedCounted(s, event.online);
    } else {
      IdleCounted(s, event, NextMaintainer(s, event));
    }
  }

  lemma {:induction false} ClaimingCounted(s: State, event: Event)
    requires Inv(s) && IsOwner(event) && s.owner.Claiming?
    ensures CountsAccounted(s, event, WhenClaiming(s, event))
  {
    hide Onward, CloseRecorded, Recorded, Core;
  }

  lemma {:induction false} StartConnectingCounted(s: State, event: Event)
    requires Inv(s) && IsOwner(event) && s.owner.StartConnecting?
    ensures CountsAccounted(s, event, WhenStartConnecting(s, event))
  {
    hide LoopTop, Onward, CloseRecorded, Recorded, Core;
  }

  lemma {:induction false} StartHookingCounted(s: State, event: Event)
    requires Inv(s) && IsOwner(event) && s.owner.StartHooking?
    ensures CountsAccounted(s, event, WhenStartHooking(s, event))
  {
    hide LoopTop, Onward, CloseRecorded, Recorded, Core;
  }

  lemma {:induction false} StartingCounted(s: State, event: Event)
    requires Inv(s) && IsOwner(event) && (s.owner.Claiming? || s.owner.StartConnecting? || s.owner.StartHooking?)
    ensures CountsAccounted(s, event, NextStarting(s, event))
  {
    hide WhenClaiming, WhenStartConnecting, WhenStartHooking, CountsAccounted, Inv;
    match s.owner
    case Claiming => ClaimingCounted(s, event);
    case StartConnecting => StartConnectingCounted(s, event);
    case StartHooking => StartHookingCounted(s, event);
  }

  lemma {:induction false} ClosingCounted(s: State, event: Event)
    requires Inv(s) && IsOwner(event) && !s.owner.Claiming? && !s.owner.StartConnecting? && !s.owner.StartHooking?
    ensures CountsAccounted(s, event, NextClosing(s, event))
  {
    hide BeginClose, AfterJoin, AfterCloseHook, Onward, CloseRecorded, CountsAccounted, Inv;
    var s' := NextClosing(s, event);
    if s' == s {
      IdleCounted(s, event, s');
    } else if s.owner.Releasing? {
      ReleaseCounted(s, event);
    } else {
      ClosingIsStopped(s);
      ClosedCounted(s, event, s');
    }
  }

  lemma {:induction false} ReleaseCounted(s: State, event: Event)
    requires s.owner.Releasing? && IsOwner(event)
    ensures CountsAccounted(s, event, s.(owner := Closed, claim := None))
  {
  }

  lemma {:induction false} ClosedCounted(s: State, event: Event, s': State)
    requires IsOwner(event) && CloseCounted(s, s') && s'.maintainer == s.maintainer
    requires s.owner.CloseDropping? ==> !s'.owner.CloseDropping?
    ensures CountsAccounted(s, event, s')
  {
  }

  lemma ClosingIsStopped(s: State)
    requires Inv(s)
    ensures s.owner.Joining? || s.owner.CloseDropping? ==> s.stopped
  {
  }

  lemma {:induction false} EnvironmentCounted(s: State, event: Event)
    requires IsEnvironment(event)
    ensures CountsAccounted(s, event, NextEnvironment(s, event))
  {
  }

  /** Every step counts exactly what happens in it. */
  lemma {:induction false} NextCounted(s: State, event: Event)
    requires Inv(s)
    ensures CountsAccounted(s, event, Next(s, event))
  {
    hide NextEnvironment, NextMaintainer, NextStarting, NextClosing, CountsAccounted, Inv;
    if IsEnvironment(event) {
      EnvironmentCounted(s, event);
    } else if !IsOwner(event) {
      MaintainerCounted(s, event);
    } else if s.owner.Claiming? || s.owner.StartConnecting? || s.owner.StartHooking? {
      StartingCounted(s, event);
    } else {
      ClosingCounted(s, event);
    }
  }

  lemma {:induction false} EnvironmentAccounted(s: State, event: Event)
    ensures AttemptsAccounted(s, NextEnvironment(s, event))
  {
  }

  /** Awaiting a connection is never followed by awaiting another for the same reason. */
  lemma {:induction false} ConnectingMovesOn(s: State, event: Event)
    requires s.maintainer.Connecting?
    ensures var r := NextMaintainer(s, event);
            r.maintainer == s.maintainer ==> r.history.attempts == s.history.attempts
  {
    hide AfterRebind, LoopTop, Recorded, Onward, PassCounted;
  }

  /** Whoever awaits a connection has no transport. */
  lemma ConnectingHasNone(s: State)
    requires Inv(s)
    ensures s.maintainer.Connecting? || s.owner.StartConnecting? ==> s.link.transport.None?
  {
  }

  lemma {:induction false} MaintainerAccounted(s: State, event: Event)
    requires s.maintainer.Connecting? ==> s.link.transport.None?
    ensures AttemptsAccounted(s, NextMaintainer(s, event))
  {
    hide NextMaintainer;
    if s.maintainer.Connecting? {
      ConnectingMovesOn(s, event);
    }
  }

  lemma {:induction false} OwnerAccounted(s: State, event: Event)
    requires s.owner.StartConnecting? ==> s.link.transport.None?
    ensures AttemptsAccounted(s, NextOwner(s, event))
  {
    if s.owner.StartConnecting? {
    } else {
      hide NextOwner;
    }
  }

  /** Every step records the attempt it makes and the close it causes, and counts what happens in it. */
  lemma {:induction false} NextRecorded(s: State, event: Event)
    requires Inv(s)
    ensures AttemptsAccounted(s, Next(s, event)) && CountsAccounted(s, event, Next(s, event))
  {
    ConnectingHasNone(s);
    hide NextEnvironment, NextMaintainer, NextOwner, AttemptsAccounted, CountsAccounted, Inv;
    NextCounted(s, event);
    EnvironmentAccounted(s, event);
    MaintainerAccounted(s, event);
    OwnerAccounted(s, event);
  }
}
