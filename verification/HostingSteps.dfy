/**
  What an endpoint does when what it awaits comes about, told by the fields before and after alone:
  when a claim is renewed, a listener rebuilt, a registration checked, a transport replaced, and
  how long the loop waits in between.
 */
module HostingSteps {
  import opened Wrappers
  import opened Hosting

  /** A claim that is to be renewed: there is one, and it does not ask to be left alone for now. */
  predicate RenewalDue(s: State) {
    s.claim.Some? && (s.claim.value.renewAfter.Some? ==> s.claim.value.renewAfter.value <= s.wall)
  }

  /** A listener whose credentials lapse within two minutes while the claim has only newer ones. */
  ghost predicate BoundLapses(s: State) {
    && s.dropHook && s.boundExpiry.Some? && s.boundExpiry.value - s.wall <= 120.0
    && s.claim.Some? && s.claim.value.expiries != []
    && forall x | x in s.claim.value.expiries :: x > s.boundExpiry.value
  }

  predicate Up(link: Link) {
    link.transport.Some? && link.alive
  }

  /** What a pass leaves alone, whatever it comes to. */
  predicate Alike(s: State, r: State) {
    && r.now == s.now && r.wall == s.wall && r.claim == s.claim && r.boundExpiry == s.boundExpiry
    && r.stopped == s.stopped && r.fatal == s.fatal && r.owner == s.owner
    && r.dropHook == s.dropHook && r.transportHook == s.transportHook
  }

  /** The loop comes round: it has ended, or waits half a minute while connected and its backoff otherwise. */
  predicate ComesRound(s: State, r: State) {
    && Alike(s, r)
    && r.maintainer == if s.stopped then Ended else Polling(s.now + if Up(s.link) then 30.0 else r.backoff)
  }

  /** Letting go of what there is to replace it: the hook first, then the close, then a second to settle. */
  predicate LetsGo(s: State, r: State, reason: Reason) {
    if s.dropHook then Alike(s, r) && r.maintainer == Dropping(reason) && r.link.transport == s.link.transport
    else Released(s, r, reason)
  }

  predicate Released(s: State, r: State, reason: Reason) {
    && Alike(s, r) && r.link.transport.None?
    && r.maintainer == if s.link.transport.Some? then Settling(reason, s.now + 1.0)
                       else if s.stopped then Ended else Connecting(reason)
  }

  /** The rest of a pass: a connection is checked once a minute, and one that is down is replaced. */
  predicate GoesOn(s: State, r: State) {
    if Up(s.link) then
      && r.link == s.link
      && (if s.wall - s.checkedAt < 60.0 then r.backoff == 1.0 && r.checkedAt == s.checkedAt && ComesRound(s, r)
          else Alike(s, r) && r.checkedAt == s.wall && r.maintainer == Checking)
    else !r.link.connected && r.checkedAt == s.checkedAt && LetsGo(s, r, Reconnect)
  }

  /** A pass once renewing is out of the way. */
  ghost predicate LooksOn(s: State, r: State) {
    if BoundLapses(s) then
      && Alike(s, r) && r.maintainer.Dropping? && r.maintainer.reason.Rebind? && r.link == s.link
      && r.maintainer.reason.newer in s.claim.value.expiries
      && (forall x | x in s.claim.value.expiries :: r.maintainer.reason.newer <= x)
    else GoesOn(s, r)
  }

  lemma DueExactly(s: State)
    ensures RebindDue(s) <==> BoundLapses(s)
  {
  }

  lemma CloseMeans(s: State)
    ensures var r := CloseTransport(s);
            && Alike(s, r) && r.link.transport.None? && !r.link.connected && r.checkedAt == s.checkedAt
            && r.backoff == s.backoff
  {
    hide Onward, SamePass, CloseRecorded;
  }

  lemma ReconnectReleased(s: State)
    ensures Released(s, AfterDropHook(s, Reconnect), Reconnect)
    ensures var r := AfterDropHook(s, Reconnect); !r.link.connected && r.checkedAt == s.checkedAt
  {
    hide Recorded, PassCounted, Onward, SamePass, CloseRecorded, AfterRebind, CloseTransport;
    CloseMeans(s);
  }

  lemma ReconnectLetsGo(s: State)
    requires !s.link.connected
    ensures LetsGo(s, BeginReplace(s, Reconnect), Reconnect)
    ensures var r := BeginReplace(s, Reconnect); !r.link.connected && r.checkedAt == s.checkedAt
  {
    hide Recorded, PassCounted, Onward, SamePass, AfterDropHook, Released;
    ReconnectReleased(s);
  }

  /** Clearing the event changes nothing about how a transport is let go of. */
  lemma ClearedLetsGo(s: State, s': State, r: State)
    requires s' == s.(link := s.link.(connected := false)) && LetsGo(s', r, Reconnect)
    ensures LetsGo(s, r, Reconnect)
  {
  }

  lemma ConfirmedComesRound(s: State)
    ensures var r := LoopTop(Confirmed(s));
            r.backoff == 1.0 && r.link == s.link && r.checkedAt == s.checkedAt && ComesRound(s, r)
  {
    hide Recorded, Onward, SamePass;
  }

  lemma RestGoesOn(s: State)
    ensures GoesOn(s, AfterRebind(s))
  {
    hide Recorded, PassCounted, Onward, SamePass, BeginReplace, LetsGo, LoopTop, Confirmed, ComesRound;
    ConfirmedComesRound(s);
    var s' := s.(link := s.link.(connected := false));
    ReconnectLetsGo(s');
    ClearedLetsGo(s, s', BeginReplace(s', Reconnect));
  }

  /** Noting when the loop last looked changes nothing about how it goes on. */
  lemma LookedGoesOn(s: State, s': State, r: State)
    requires s' == s.(history := s'.history) && GoesOn(s', r)
    ensures GoesOn(s, r)
  {
  }

  lemma LookGoesOn(s: State)
    ensures LooksOn(s, AfterRenew(s))
  {
    DueExactly(s);
    hide Recorded, PassCounted, Onward, SamePass, AfterRebind, GoesOn;
    if !RebindDue(s) {
      var s' := s.(history := s.history.(lastCheck := s.now, slept := 0.0));
      RestGoesOn(s');
      LookedGoesOn(s, s', AfterRebind(s'));
    }
  }

  // The maintenance loop, await point by await point.

  /** A poll that is over ends the loop, renews a claim that is due, or else goes on with the pass. */
  lemma PollGoes(s: State)
    requires s.maintainer.Polling?
    ensures var r := Next(s, PollEnds);
            if s.maintainer.until > s.now && !s.stopped then r == s
            else if s.stopped then r == s.(maintainer := Ended)
            else if RenewalDue(s) then r == s.(maintainer := Renewing)
            else LooksOn(s, r)
  {
    hide AfterRenew, LooksOn;
    LookGoesOn(s);
  }

  /** A renewal brings a new claim; one refused for good ends hosting; either way but the last the pass goes on. */
  lemma RenewGoes(s: State, event: Event)
    requires s.maintainer.Renewing?
    ensures event.Renewed? ==>
              var r := Next(s, event);
              LooksOn(s.(claim := Some(event.claim)), r)
    ensures event.RenewFails? && !event.hopeless ==> LooksOn(s, Next(s, event))
    ensures event.RenewFails? && event.hopeless ==>
              var r := Next(s, event);
              && Alike(s.(stopped := true, fatal := true), r)
              && (if s.dropHook then r.maintainer == GivingUp && r.link == s.link
                  else r.maintainer == Ended && r.link.transport.None? && !r.link.connected)
  {
    hide Recorded, PassCounted, Onward, SamePass, CloseRecorded;
    if event.Renewed? {
      hide AfterRenew;
      var s' := s.(claim := Some(event.claim), history := s.history.(renewals := s.history.renewals + 1));
      LookGoesOn(s');
      LookedLooksOn(s.(claim := Some(event.claim)), s', AfterRenew(s'));
    } else if event.RenewFails? && !event.hopeless {
      hide AfterRenew;
      LookGoesOn(s);
    }
  }

  lemma LookedLooksOn(s: State, s': State, r: State)
    requires s' == s.(history := s'.history) && LooksOn(s', r)
    ensures LooksOn(s, r)
  {
  }

  /** With the transport gone and a second gone by the next attempt begins, unless hosting has stopped. */
  lemma SettledGoes(s: State, reason: Reason)
    ensures var r := AfterSettle(s, reason);
            if !s.stopped then Alike(s, r) && r.maintainer == Connecting(reason) && r.link == s.link
            else if reason.Reconnect? then r == s.(maintainer := Ended)
            else GoesOn(s, r)
  {
    hide Recorded, PassCounted, Onward, SamePass, CloseRecorded, AfterRebind, GoesOn;
    RestGoesOn(s);
  }

  lemma DroppedGoes(s: State, reason: Reason)
    ensures var r := AfterDropHook(s, reason);
            if reason.Rebind? && s.link.transport.None? && s.stopped then GoesOn(s, r) else Released(s, r, reason)
  {
    hide Recorded, PassCounted, Onward, SamePass, CloseRecorded, AfterSettle, GoesOn;
    var s' := CloseTransport(s);
    SettledGoes(s', reason);
    if s.link.transport.None? && reason.Rebind? && s.stopped {
      ClosedGoesOn(s, s', AfterSettle(s', reason));
    }
  }

  /** Once the drop hook has returned the transport is closed, and a second goes by if there was one. */
  lemma DropGoes(s: State)
    requires s.maintainer.Dropping?
    ensures var r, reason := Next(s, DropHookReturns), s.maintainer.reason;
            if reason.Rebind? && s.link.transport.None? && s.stopped then GoesOn(s, r) else Released(s, r, reason)
  {
    hide AfterDropHook, GoesOn, Released;
    DroppedGoes(s, s.maintainer.reason);
  }

  lemma ClosedGoesOn(s: State, s': State, r: State)
    requires s.link.transport.None? && s' == s.(link := s.link.(connected := false)) && GoesOn(s', r)
    ensures GoesOn(s, r)
  {
  }

  /** A settle interval that is over, or cut short by a stop. */
  lemma SettleGoes(s: State)
    requires s.maintainer.Settling?
    ensures var r, reason := Next(s, SettleEnds), s.maintainer.reason;
            if s.maintainer.until > s.now && !s.stopped then r == s
            else if !s.stopped then Alike(s, r) && r.maintainer == Connecting(reason) && r.link == s.link
            else if reason.Reconnect? then r == s.(maintainer := Ended)
            else GoesOn(s, r)
  {
    hide AfterSettle, GoesOn;
    SettledGoes(s, s.maintainer.reason);
  }

  /** The transport is replaced: a rebind is bound to the newer credentials and goes on, a reconnect comes round. */
  predicate Replaced(s: State, r: State, reason: Reason) {
    match reason
    case Rebind(newer) => GoesOn(s.(boundExpiry := Some(newer)), r)
    case Reconnect => r.backoff == 1.0 && r.link == s.link && ComesRound(s, r)
  }

  /** It is not: a rebind stays bound to the old ones, a reconnect waits twice as long, half a minute at most. */
  predicate NotReplaced(s: State, r: State, reason: Reason) {
    match reason
    case Rebind(_) => GoesOn(s, r)
    case Reconnect =>
      && r.backoff == (if s.backoff * 2.0 < 30.0 then s.backoff * 2.0 else 30.0)
      && r.link == s.link && ComesRound(s, r)
  }

  lemma ConnectReplaces(s: State, reason: Reason)
    ensures Replaced(s, AfterConnect(s, reason), reason)
  {
    hide Recorded, PassCounted, Onward, CloseRecorded, AfterRebind, GoesOn;
    if reason.Rebind? {
      var s' := Rebound(s, reason.newer);
      RestGoesOn(s');
      LookedGoesOn(s.(boundExpiry := Some(reason.newer)), s', AfterRebind(s'));
    }
  }

  lemma FailureReplacesNothing(s: State, reason: Reason)
    ensures NotReplaced(s, AfterFailedConnect(s, reason), reason)
  {
    hide Recorded, PassCounted, Onward, CloseRecorded, AfterRebind, GoesOn;
    RestGoesOn(s);
  }

  /** A connection makes a transport, checked as of now, and calls the hook for it if there is one. */
  lemma ConnectGoes(s: State, event: Event)
    requires s.maintainer.Connecting?
    ensures event.Connects? ==>
              var reason, link := s.maintainer.reason, s.link;
              var made := s.(link := Link(Some(link.made), event.up, true, link.unclosed + {link.made}, link.made + 1),
                             checkedAt := s.wall);
              if s.transportHook then Next(s, event) == made.(maintainer := Hooking(reason))
              else Replaced(made, Next(s, event), reason)
    ensures event.ConnectFails? ==> NotReplaced(s, Next(s, event), s.maintainer.reason)
  {
    hide AfterConnect, AfterFailedConnect, Replaced, NotReplaced, Recorded, PassCounted;
    if event.Connects? {
      ConnectReplaces(Established(s, event.up), s.maintainer.reason);
    }
    FailureReplacesNothing(s, s.maintainer.reason);
  }

  /** The hook decides: if it raises, the transport stays but counts as not replaced. */
  lemma HookGoes(s: State)
    requires s.maintainer.Hooking?
    ensures Replaced(s, Next(s, TransportHookReturns), s.maintainer.reason)
    ensures NotReplaced(s, Next(s, TransportHookRaises), s.maintainer.reason)
  {
    hide AfterConnect, AfterFailedConnect, Replaced, NotReplaced, Recorded, PassCounted;
    ConnectReplaces(s, s.maintainer.reason);
    FailureReplacesNothing(s, s.maintainer.reason);
  }

  /** A registration that holds ends the pass; one that does not has the transport replaced. */
  lemma CheckGoes(s: State, online: bool)
    requires s.maintainer.Checking?
    ensures var r := Next(s, CheckAnswers(online));
            if online then r.backoff == 1.0 && r.link == s.link && ComesRound(s, r)
            else !r.link.connected && LetsGo(s, r, Reconnect)
  {
    hide Recorded, PassCounted, Onward, SamePass, BeginReplace;
    ReconnectLetsGo(s.(link := s.link.(connected := false)));
  }

  /** Giving up ends with the transport closed, and the loop over. */
  lemma GiveUpGoes(s: State)
    requires s.maintainer.GivingUp?
    ensures var r := Next(s, DropHookReturns);
            Alike(s, r) && r.maintainer == Ended && r.link.transport.None? && !r.link.connected
  {
    hide Recorded, CloseRecorded, Onward, CloseTransport;
    CloseMeans(s);
  }

  /** Time moves both clocks alike, setting the wall clock only that one, and neither anything that is awaited. */
  lemma OutsideMoves(s: State, event: Event)
    requires event.Tick? || event.SetClock? || event.SocketDrops? || event.SetHooks?
    ensures var r := Next(s, event);
            && r == s.(now := r.now, wall := r.wall, link := r.link, dropHook := r.dropHook,
                       transportHook := r.transportHook, history := s.history.(slept := r.history.slept))
            && (event.Tick? && event.elapsed >= 0.0 ==> r.now - s.now == r.wall - s.wall == event.elapsed)
            && (event.SetClock? ==> r.now == s.now && r.wall == event.wall)
            && (!event.SocketDrops? ==> r.link == s.link)
            && (event.SocketDrops? ==> r == s.(link := s.link.(alive := false)))
            && (event.SetHooks? ==> r.dropHook == event.dropHook && r.transportHook == event.transportHook)
  {
  }

  /** A cancellation that was asked for ends the loop wherever it waits, and touches nothing else. */
  lemma CancelGoes(s: State)
    ensures Next(s, CancelLands)
            == if s.cancelRequested && !s.maintainer.NotStarted? && !s.maintainer.Ended? then s.(maintainer := Ended)
               else s
  {
  }

  // The owner.

  /** The claim is taken; a claim that names nobody, and a claim refused, end the start. */
  lemma ClaimGoes(s: State, event: Event)
    requires s.owner.Claiming?
    ensures event.Granted? ==>
              Next(s, event).claim == Some(event.claim)
              && Next(s, event).owner == if event.named then StartConnecting else StartFailed
    ensures event.ClaimFails? ==> Next(s, event) == s.(owner := StartFailed)
  {
  }

  lemma StartComesRound(s: State)
    ensures var r := AfterStart(s);
            && r.link == s.link && r.backoff == s.backoff && r.checkedAt == s.checkedAt && r.claim == s.claim
            && ComesRound(s.(owner := Started), r)
  {
    hide Recorded, Onward, SamePass;
  }

  /** The first connection calls the hook if there is one, and else the loop starts; without it the start has failed. */
  lemma StartGoes(s: State, event: Event)
    requires s.owner.StartConnecting?
    ensures event.StartConnects? ==>
              var r := Next(s, event);
              var made := s.(link := Link(Some(s.link.made), event.up, true, s.link.unclosed + {s.link.made},
                                          s.link.made + 1));
              && r.link == made.link && r.checkedAt == s.wall && r.backoff == s.backoff && r.claim == s.claim
              && (if s.transportHook then r.owner == StartHooking && r.maintainer == s.maintainer
                  else ComesRound(made.(owner := Started), r))
    ensures event.StartConnectFails? ==> Next(s, event) == s.(owner := StartFailed)
  {
    hide Recorded, Onward, SamePass, CloseRecorded, AfterStart, ComesRound;
    if event.StartConnects? {
      var s' := Established(s, event.up);
      StartComesRound(s');
      CheckedComesRound(s.(link := s'.link, owner := Started), s'.(owner := Started), AfterStart(s'));
    }
  }

  /** When the registration was last checked says nothing about how the loop comes round. */
  lemma CheckedComesRound(s: State, s': State, r: State)
    requires s' == s.(checkedAt := s'.checkedAt) && ComesRound(s', r)
    ensures ComesRound(s, r)
  {
  }

  /** Once the hook has returned the loop starts; if it raises, the start has failed. */
  lemma StartHookGoes(s: State)
    requires s.owner.StartHooking?
    ensures var r := Next(s, StartHookReturns);
            r.link == s.link && r.backoff == s.backoff && r.claim == s.claim && ComesRound(s.(owner := Started), r)
    ensures Next(s, StartHookRaises) == s.(owner := StartFailed)
  {
    hide Recorded, Onward, SamePass, CloseRecorded, AfterStart, ComesRound;
    StartComesRound(s);
  }

  predicate LetsGoAtLast(s: State, r: State) {
    if s.dropHook then Alike(s.(owner := CloseDropping), r) && r.link == s.link else LetGoAtLast(s, r)
  }

  predicate LetGoAtLast(s: State, r: State) {
    Alike(s.(owner := if s.claim.Some? then Releasing else Closed), r) && r.link.transport.None? && !r.link.connected
  }

  lemma LetGoOfAtLast(s: State)
    ensures LetGoAtLast(s, AfterCloseHook(s))
  {
    hide Onward, SamePass, CloseRecorded, CloseCounted, CloseTransport;
    CloseMeans(s);
  }

  lemma ClosedAtLast(s: State)
    ensures LetsGoAtLast(s, AfterJoin(s))
  {
    hide Onward, SamePass, CloseRecorded, CloseCounted, AfterCloseHook, LetGoAtLast;
    LetGoOfAtLast(s);
  }

  /** Closing stops hosting, and cancels the loop to wait for it. */
  lemma CloseGoes(s: State)
    requires s.owner.Started? || s.owner.StartFailed?
    ensures var r := Next(s, CallClose);
            if s.maintainer.NotStarted? then LetsGoAtLast(s.(stopped := true), r)
            else r == s.(stopped := true, cancelRequested := true, owner := Joining)
  {
    hide AfterJoin, Onward, CloseRecorded, CloseCounted;
    ClosedAtLast(s.(stopped := true));
  }

  /** Then it lets go of the transport, the hook first, and releases a claim that is held. */
  lemma JoinGoes(s: State, event: Event)
    ensures s.owner.Joining? && event.Joined? ==>
              if s.maintainer.Ended? then LetsGoAtLast(s, Next(s, event)) else Next(s, event) == s
    ensures s.owner.CloseDropping? && event.CloseHookReturns? ==> LetGoAtLast(s, Next(s, event))
    ensures s.owner.Releasing? && event.Released? ==> Next(s, event) == s.(owner := Closed, claim := None)
  {
    hide AfterJoin, AfterCloseHook, Onward, CloseRecorded, CloseCounted, LetsGoAtLast, LetGoAtLast;
    ClosedAtLast(s);
    LetGoOfAtLast(s);
  }

  // What moves at all, and when.

  /** A listener is bound to what the claim holds when its configuration is asked for: the earliest expiry, if any. */
  lemma ConfigureBinds(s: State)
    ensures var r := Next(s, Configure);
            && r == s.(boundExpiry := r.boundExpiry)
            && (r.boundExpiry.Some? <==> s.claim.Some? && s.claim.value.expiries != [])
            && (r.boundExpiry.Some? ==>
                  && r.boundExpiry.value in s.claim.value.expiries
                  && forall x | x in s.claim.value.expiries :: r.boundExpiry.value <= x)
  {
  }

  // What comes to be awaited only so.

  /** A maintainer that is awaiting something other than a renewal. */
  lemma NotRenewing(s: State, r: State, reason: Reason)
    requires || LooksOn(s, r) || GoesOn(s, r) || LetsGo(s, r, reason) || ComesRound(s, r) || Released(s, r, reason)
             || Replaced(s, r, reason) || NotReplaced(s, r, reason)
    ensures !r.maintainer.Renewing?
  {
  }

  lemma RenewsNothing(s: State)
    ensures !AfterRenew(s).maintainer.Renewing?
  {
    hide AfterRenew, LooksOn;
    LookGoesOn(s);
    NotRenewing(s, AfterRenew(s), Reconnect);
  }

  /** A step comes to await a renewal at the end of a poll, when the claim is due, and never otherwise. */
  lemma RenewsExactlyWhenDue(s: State, event: Event)
    ensures Next(s, event).maintainer.Renewing? && !s.maintainer.Renewing?
            <==> s.maintainer.Polling? && event.PollEnds? && s.maintainer.until <= s.now && !s.stopped && RenewalDue(s)
  {
    var r := Next(s, event);
    if IsEnvironment(event) || event.CancelLands? {
    } else if IsOwner(event) {
      OwnerRenewsNothing(s, event);
    } else {
      LoopRenewsWhenDue(s, event);
    }
  }

  lemma OwnerRenewsNothing(s: State, event: Event)
    requires IsOwner(event)
    ensures Next(s, event).maintainer.Renewing? ==> s.maintainer.Renewing?
  {
    if s.owner.StartConnecting? || s.owner.StartHooking? {
      StartingRenewsNothing(s, event);
    } else {
      hide NextClosing, WhenClaiming, Recorded, CloseRecorded, Onward;
    }
  }

  lemma StartingRenewsNothing(s: State, event: Event)
    requires IsOwner(event) && (s.owner.StartConnecting? || s.owner.StartHooking?)
    ensures Next(s, event).maintainer.Renewing? ==> s.maintainer.Renewing?
  {
    hide AfterStart, Recorded, CloseRecorded, Onward;
    var s' := if event.StartConnects? then Established(s, event.up) else s;
    StartedPolls(s');
  }

  lemma StartedPolls(s: State)
    ensures !AfterStart(s).maintainer.Renewing?
  {
    hide Recorded, CloseRecorded, Onward;
  }

  lemma LoopRenewsWhenDue(s: State, event: Event)
    requires !IsOwner(event) && !IsEnvironment(event)
    ensures Next(s, event).maintainer.Renewing? && !s.maintainer.Renewing?
            <==> s.maintainer.Polling? && event.PollEnds? && s.maintainer.until <= s.now && !s.stopped && RenewalDue(s)
  {
    hide AfterPoll, AfterDropHook, AfterSettle, WhenConnecting, WhenHooking, WhenChecking, AfterGiveUpHook,
      WhenRenewing, LooksOn, GoesOn, LetsGo, ComesRound, Released, Replaced, NotReplaced, Recorded, Onward;
    var r := Next(s, event);
    if event.CancelLands? {
    } else if s.maintainer.Polling? && event.PollEnds? {
      PollGoes(s);
      if LooksOn(s, r) {
        NotRenewing(s, r, Reconnect);
      }
    } else if s.maintainer.Dropping? && event.DropHookReturns? {
      DropGoes(s);
      NotRenewing(s, r, s.maintainer.reason);
    } else if s.maintainer.Settling? && event.SettleEnds? {
      SettleGoes(s);
      if GoesOn(s, r) {
        NotRenewing(s, r, Reconnect);
      }
    } else if s.maintainer.Connecting? || s.maintainer.Hooking? {
      ConnectingRenewsNothing(s, event);
    } else if s.maintainer.Checking? {
      CheckingRenewsNothing(s, event);
    } else if s.maintainer.GivingUp? && event.DropHookReturns? {
      EndedAtLast(s);
    }
  }

  lemma EndedAtLast(s: State)
    ensures AfterGiveUpHook(s).maintainer.Ended?
  {
  }

  lemma CheckingRenewsNothing(s: State, event: Event)
    requires s.maintainer.Checking?
    ensures !WhenChecking(s, event).maintainer.Renewing?
  {
    hide BeginReplace, Recorded, Onward, LetsGo;
    if event.CheckAnswers? && !event.online {
      var s' := s.(link := s.link.(connected := false));
      ReconnectLetsGo(s');
      NotRenewing(s', BeginReplace(s', Reconnect), Reconnect);
    }
  }

  lemma ConnectingRenewsNothing(s: State, event: Event)
    requires s.maintainer.Connecting? || s.maintainer.Hooking?
    ensures s.maintainer.Connecting? ==> !WhenConnecting(s, s.maintainer.reason, event).maintainer.Renewing?
    ensures s.maintainer.Hooking? ==> !WhenHooking(s, s.maintainer.reason, event).maintainer.Renewing?
  {
    hide AfterConnect, AfterFailedConnect, Replaced, NotReplaced, Recorded, Onward;
    var reason := s.maintainer.reason;
    if event.Connects? || event.TransportHookReturns? {
      var s' := if event.Connects? then Established(s, event.up) else s;
      ConnectReplaces(s', reason);
      NotRenewing(s', AfterConnect(s', reason), reason);
    } else if event.ConnectFails? || event.TransportHookRaises? {
      FailureReplacesNothing(s, reason);
      NotRenewing(s, AfterFailedConnect(s, reason), reason);
    }
  }

  lemma OthersIgnored(s: State, event: Event)
    requires IsOwner(event) || IsEnvironment(event)
    ensures NextMaintainer(s, event) == s
  {
    hide BeginReplace, LoopTop, Recorded, Onward;
  }

  /** The same of the loop by itself, whatever it is given. */
  lemma ResumedRenewsWhenDue(s: State, event: Event)
    ensures NextMaintainer(s, event).maintainer.Renewing? && !s.maintainer.Renewing?
            <==> s.maintainer.Polling? && event.PollEnds? && s.maintainer.until <= s.now && !s.stopped && RenewalDue(s)
  {
    if IsOwner(event) || IsEnvironment(event) {
      OthersIgnored(s, event);
    } else {
      hide NextMaintainer;
      LoopRenewsWhenDue(s, event);
    }
  }
}
