/**
  The endpoint as it runs: an object whose fields change between one await and the next.  What
  holds at every await point is `Valid`; what the code of a pass relies on in between is stated as
  the precondition of its parts.
 */
module HostedEndpoint {
  import opened Wrappers
  import opened Hosting
  import opened HostingSafety
  import opened HostingGuarantees
  import opened HostingSteps

  lemma MidBounds(s: State)
    requires Mid(s)
    ensures Core(s) && LinkOk(s.link) && MIN_RECONNECT_BACKOFF <= s.backoff <= MAX_RECONNECT_BACKOFF
  {
    BackoffDoubles(s.history.failures);
  }

  /** Clearing the event changes nothing a pass relies on. */
  lemma DisconnectedMid(s: State)
    requires Mid(s)
    ensures Mid(s.(link := s.link.(connected := false)))
  {
  }

  lemma NothingToLetGo(s: State, reason: Reason)
    requires Mid(s) && ReasonOk(s, reason)
    ensures s.link.transport.None? ==>
              var s' := CloseTransport(s); Mid(s') && s'.history == s.history && ReasonOk(s', reason)
  {
  }

  /** Letting go leaves nothing unclosed, and the hook had its turn if there is one. */
  lemma LetGoLink(s: State)
    requires Core(s) && (s.dropHook ==> Tried(s))
    ensures var r := CloseTransport(s);
            && r.link.unclosed == {}
            && (s.link.transport.Some? && s.dropHook ==> s.link.transport.value in s.history.tried)
  {
  }

  lemma AdoptedLink(s: State, up: bool)
    requires LinkOk(s.link) && s.link.transport.None?
    ensures LinkOk(Established(s, up).link) && Established(s, up).link.unclosed == {s.link.made}
  {
  }

  lemma LookedMid(s: State)
    requires Mid(s)
    ensures Mid(s.(history := s.history.(lastCheck := s.now, slept := 0.0)))
  {
  }

  lemma ReboundMid(s: State, newer: real)
    requires Mid(s) && ReasonOk(s, Rebind(newer)) && s.link.transport.Some?
    ensures Mid(Rebound(s, newer))
  {
  }

  lemma RenewedMid(s: State, claim: Claim)
    requires Mid(s)
    ensures Mid(s.(claim := Some(claim), history := s.history.(renewals := s.history.renewals + 1)))
  {
  }

  lemma StartedCore(s: State)
    requires Core(s)
    ensures Core(s.(owner := Started, history := s.history.(lastCheck := s.now, slept := 0.0)))
  {
  }

  lemma StoppedCore(s: State)
    requires Inv(s)
    ensures Core(s.(stopped := true)) && (s.maintainer.NotStarted? ==> MaintainerOk(s.(stopped := true)))
    ensures s.history.gaveUp ==> s.maintainer.Ended?
  {
  }

  lemma FatalCore(s: State)
    requires Mid(s)
    ensures Core(s.(fatal := true, stopped := true))
  {
  }

  lemma DoubledMid(s: State)
    requires Mid(s)
    ensures var doubled := if s.backoff * 2.0 < MAX_RECONNECT_BACKOFF then s.backoff * 2.0 else MAX_RECONNECT_BACKOFF;
            Mid(s.(backoff := doubled, history := s.history.(failures := s.history.failures + 1)))
  {
    BackoffDoubles(s.history.failures);
  }

  /** A rebind that is due has had a renewal since the last one. */
  lemma DueIsRenewed(s: State)
    requires Mid(s) && RebindDue(s)
    ensures ReasonOk(s, Rebind(ExpireAt(s.claim).value))
  {
  }

  lemma ValidLink(s: State)
    requires Inv(s)
    ensures LinkOk(s.link)
  {
  }

  lemma ClosedParts(s: State)
    requires Inv(s)
    ensures LinkOk(s.link) && (s.owner.Closed? ==> s.link.transport.None?)
  {
  }

  // What the endpoint relies on where it resumes.

  lemma PollingParts(s: State)
    requires Inv(s) && s.maintainer.Polling?
    ensures Mid(s) && s.history.slept <= RENEW_POLL_SECONDS
  {
    AwaitingIsMid(s);
  }

  lemma DroppingParts(s: State)
    requires Inv(s) && s.maintainer.Dropping?
    ensures Mid(s) && s.history.slept == 0.0 && ReasonOk(s, s.maintainer.reason) && Tried(s)
  {
    AwaitingIsMid(s);
  }

  lemma SettlingParts(s: State)
    requires Inv(s) && s.maintainer.Settling? && (s.maintainer.until <= s.now || s.stopped)
    ensures Mid(s) && s.history.slept == 0.0 && ReasonOk(s, s.maintainer.reason)
    ensures s.link.transport.None? && s.link.unclosed == {}
  {
  }

  lemma ConnectingParts(s: State, up: bool)
    requires Inv(s) && s.maintainer.Connecting?
    ensures Mid(s) && s.history.slept == 0.0 && LinkOk(s.link) && s.link.transport.None?
    ensures Mid(Established(s, up)) && ReasonOk(Established(s, up), s.maintainer.reason)
    ensures Inv(Established(s, up).(maintainer := Hooking(s.maintainer.reason)))
  {
    AwaitingIsMid(s);
  }

  lemma HookingParts(s: State)
    requires Inv(s) && s.maintainer.Hooking?
    ensures Mid(s) && s.history.slept == 0.0 && ReasonOk(s, s.maintainer.reason) && s.link.transport.Some?
  {
    AwaitingIsMid(s);
  }

  lemma CheckingParts(s: State)
    requires Inv(s) && s.maintainer.Checking?
    ensures Mid(s) && s.history.slept == 0.0
  {
    AwaitingIsMid(s);
  }

  lemma GivingUpParts(s: State)
    requires Inv(s) && s.maintainer.GivingUp?
    ensures Core(s) && s.stopped && Tried(s) && ((s.owner.Started? && !s.cancelRequested) || s.owner.Joining?)
  {
  }

  lemma StartConnectingParts(s: State, up: bool)
    requires Inv(s) && s.owner.StartConnecting?
    ensures LinkOk(s.link) && s.link.transport.None?
    ensures Core(Established(s, up)) && !s.stopped && !s.history.gaveUp && !s.cancelRequested
  {
  }

  lemma StartHookingParts(s: State)
    requires Inv(s) && s.owner.StartHooking?
    ensures Core(s) && s.link.transport.Some? && !s.stopped && !s.history.gaveUp && !s.cancelRequested
  {
  }

  lemma JoiningParts(s: State)
    requires Inv(s) && ((s.owner.Joining? && s.maintainer.Ended?) || s.owner.CloseDropping?)
    ensures Core(s) && s.stopped && !MaintainerAwaits(s) && MaintainerOk(s)
    ensures s.history.gaveUp ==> s.maintainer.Ended?
    ensures s.owner.CloseDropping? ==> Tried(s)
  {
  }

  class HostedEndpoint {
    var now: real
    var wall: real
    var claim: Option<Claim>
    var transport: Option<nat>
    var alive: bool
    var connected: bool
    var boundExpiry: Option<real>
    var checkedAt: real
    var backoff: real
    var stopped: bool
    var fatal: bool
    var cancelRequested: bool
    var dropHook: bool
    var transportHook: bool
    var maintainer: Maintainer
    var owner: Owner
    var made: nat
    ghost var unclosed: set<nat>
    ghost var history: History

    ghost function View(): State
      reads this
    {
      State(now, wall, claim, Link(transport, alive, connected, unclosed, made), boundExpiry, checkedAt, backoff,
            stopped, fatal, cancelRequested, dropHook, transportHook, maintainer, owner, history)
    }

    /** What holds whenever the endpoint is awaiting something. */
    ghost predicate Valid()
      reads this
    {
      Inv(View())
    }

    /** What holds inside a pass of the loop, once it has looked at the credentials. */
    ghost predicate InPass()
      reads this
    {
      Mid(View()) && history.slept == 0.0
    }

    constructor (now: real, wall: real, dropHook: bool, transportHook: bool)
      ensures View() == Initial(now, wall, dropHook, transportHook) && Valid()
    {
      this.now, this.wall, this.dropHook, this.transportHook := now, wall, dropHook, transportHook;
      claim, boundExpiry, checkedAt := None, None, 0.0;
      transport, alive, connected, made, unclosed := None, false, false, 0, {};
      backoff, stopped, fatal, cancelRequested := MIN_RECONNECT_BACKOFF, false, false, false;
      maintainer, owner := NotStarted, Claiming;
      history := History([], [], None, {}, 0, [], false, 0, now, 0.0);
      new;
    }

    /** The head of the loop: the next poll is due within the poll interval. */
    method Loop()
      requires InPass()
      modifies this`maintainer
      ensures View() == LoopTop(old(View())) && Valid()
      ensures if stopped then maintainer.Ended?
              else maintainer.Polling? && now < maintainer.until <= now + RENEW_POLL_SECONDS
    {
      hide Recorded, CloseRecorded, SamePass, Onward, Inv, Mid;
      MidBounds(View());
      LoopTopInv(View());
      if stopped {
        maintainer := Ended;
      } else {
        maintainer := Polling(now + if transport.Some? && alive then RENEW_POLL_SECONDS else backoff);
      }
    }

    method FinishPoll()
      requires Mid(View()) && history.slept <= RENEW_POLL_SECONDS
      modifies this
      ensures View() == AfterPoll(old(View())) && Valid()
      ensures old(stopped) ==> maintainer.Ended? && history == old(history)
      ensures !old(stopped) ==>
                (maintainer.Renewing? <==>
                 && old(claim).Some?
                 && (old(claim).value.renewAfter.Some? ==> old(claim).value.renewAfter.value <= old(wall)))
    {
      hide Recorded, CloseRecorded, SamePass, Onward, PassCounted, Inv, Mid, AfterRenew;
      AfterPollInv(View());
      RenewsNothing(View());
      if stopped {
        maintainer := Ended;
      } else if claim.None? || (claim.value.renewAfter.Some? && wall < claim.value.renewAfter.value) {
        RebindIfLapsing();
      } else {
        maintainer := Renewing;
      }
    }

    /** A rebind begins here exactly when it is due. */
    method RebindIfLapsing()
      requires Mid(View())
      modifies this
      ensures View() == AfterRenew(old(View())) && Valid()
      ensures Rebinding(maintainer) <==> old(RebindDue(View()))
      ensures old(RebindDue(View())) ==> maintainer == Dropping(Rebind(ExpireAt(old(claim)).value))
    {
      hide Recorded, CloseRecorded, SamePass, Onward, PassCounted, Inv, Mid, BeginReplace, AfterRebind;
      AfterRenewInv(View());
      LookedMid(View());
      history := history.(lastCheck := now, slept := 0.0);
      var newer := ExpireAt(claim);
      if dropHook && boundExpiry.Some? && boundExpiry.value - wall <= REBIND_MARGIN_SECONDS
         && newer.Some? && newer.value > boundExpiry.value {
        assert ReasonOk(View(), Rebind(newer.value)) by { DueIsRenewed(View()); }
        ReplaceTransport(Rebind(newer.value));
      } else {
        CheckRegistration();
      }
    }

    /** The drop hook is tried before anything else; without one the transport goes at once. */
    method ReplaceTransport(reason: Reason)
      requires InPass() && ReasonOk(View(), reason)
      modifies this
      ensures View() == BeginReplace(old(View()), reason) && Valid()
      ensures if old(dropHook) then maintainer == Dropping(reason) && transport == old(transport) && Tried(View())
              else transport.None? && unclosed == {}
      ensures old(transport).None? ==> transport.None?
      ensures Rebinding(maintainer) ==> reason.Rebind?
      ensures old(stopped) ==> history.attempts == old(history.attempts) && !maintainer.Connecting?
      decreases if reason.Rebind? then 1 else 0, 3
    {
      hide Recorded, CloseRecorded, SamePass, Onward, PassCounted, Inv, Core, AfterDropHook, TryDropHook;
      BeginReplaceInv(View(), reason);
      if dropHook {
        CallDropHook();
        maintainer := Dropping(reason);
      } else {
        FinishRelinquish(reason);
      }
    }

    method CallDropHook()
      requires Core(View())
      modifies this`history
      ensures View() == TryDropHook(old(View())) && Core(View()) && Tried(View())
      ensures history.attempts == old(history.attempts)
    {
      hide SamePass, Onward, Core;
      TryDropHookCore(View());
      if transport.Some? {
        history := history.(tried := history.tried + {transport.value});
      }
    }

    /** Take the transport out, close it, clear the event: nothing is left unclosed, and the hook had its turn. */
    method LetGo() returns (had: bool)
      requires Core(View()) && (dropHook ==> Tried(View()))
      modifies this`transport, this`alive, this`connected, this`made, this`unclosed, this`history
      ensures View() == CloseTransport(old(View())) && Core(View()) && had == old(transport).Some?
      ensures transport.None? && !connected && unclosed == {} && history.attempts == old(history.attempts)
      ensures had ==>
                var hookTried := dropHook || old(transport).value in history.tried;
                && history.lastClose == Some(now)
                && history.closes == old(history.closes) + [Close(old(transport).value, dropHook, hookTried)]
    {
      hide SamePass, Onward, CloseRecorded, Core, Tried;
      CloseTransportCore(View());
      LetGoLink(View());
      had := transport.Some?;
      if had {
        CloseHeld(transport.value);
      } else {
        connected := false;
      }
    }

    method CloseHeld(id: nat)
      requires transport == Some(id)
      modifies this`transport, this`alive, this`connected, this`made, this`unclosed, this`history
      ensures View() == CloseTransport(old(View()))
    {
      hide SamePass, Onward, CloseRecorded;
      var hookTried := id in history.tried;
      history := history.(closes := history.closes + [Close(id, dropHook, hookTried)], lastClose := Some(now));
      SetLink(None, alive, false, made, unclosed - {id});
    }

    /** What there is of a transport, all at once. */
    method SetLink(transport: Option<nat>, alive: bool, connected: bool, made: nat, ghost unclosed: set<nat>)
      modifies this`transport, this`alive, this`connected, this`made, this`unclosed
      ensures View().link == Link(transport, alive, connected, unclosed, made)
    {
      this.transport, this.alive, this.connected, this.made := transport, alive, connected, made;
      this.unclosed := unclosed;
    }

    /** The transport is gone; if there was one the settle interval follows, and no attempt before it. */
    method FinishRelinquish(reason: Reason)
      requires InPass() && ReasonOk(View(), reason) && (dropHook ==> Tried(View()))
      modifies this
      ensures View() == AfterDropHook(old(View()), reason) && Valid() && transport.None? && unclosed == {}
      ensures old(transport).Some? ==>
                && maintainer == Settling(reason, now + DISCONNECT_SETTLE_SECONDS)
                && history.attempts == old(history.attempts)
      ensures Rebinding(maintainer) ==> reason.Rebind?
      ensures old(stopped) ==> history.attempts == old(history.attempts) && !maintainer.Connecting?
      decreases if reason.Rebind? then 1 else 0, 2
    {
      hide Recorded, CloseRecorded, SamePass, Onward, PassCounted, Inv, Core, Mid, CloseTransport, AfterSettle,
        Tried, ReasonOk, LinkOk;
      AfterDropHookInv(View(), reason);
      MidBounds(View());
      NothingToLetGo(View(), reason);
      var had := LetGo();
      if had {
        maintainer := Settling(reason, now + DISCONNECT_SETTLE_SECONDS);
      } else {
        Connect(reason);
      }
    }

    /** An attempt is made only while hosting goes on, and only once the settle interval has passed. */
    method Connect(reason: Reason)
      requires InPass() && ReasonOk(View(), reason) && transport.None? && unclosed == {}
      modifies this
      ensures View() == AfterSettle(old(View()), reason) && Valid() && transport.None? && unclosed == {}
      ensures if old(stopped) then history.attempts == old(history.attempts) && !maintainer.Connecting?
              else maintainer == Connecting(reason)
                   && history.attempts == old(history.attempts) + [Attempt(now, history.lastClose, false)]
                   && GoodAttempt(Attempt(now, history.lastClose, false))
      ensures Rebinding(maintainer) ==> reason.Rebind?
      decreases if reason.Rebind? then 1 else 0, 1
    {
      hide Recorded, CloseRecorded, SamePass, Onward, PassCounted, Inv, Core, AfterRebind;
      AfterSettleInv(View(), reason);
      if stopped {
        if reason.Rebind? {
          CheckRegistration();
        } else {
          maintainer := Ended;
        }
      } else {
        history := history.(attempts := history.attempts + [Attempt(now, history.lastClose, stopped)]);
        maintainer := Connecting(reason);
      }
    }

    /** The rest of a pass: it never begins a rebind, and a missing transport stays missing until it is replaced. */
    method CheckRegistration()
      requires InPass()
      modifies this
      ensures View() == AfterRebind(old(View())) && Valid() && !Rebinding(maintainer)
      ensures old(transport).None? ==> transport.None? && unclosed == {}
      ensures old(transport.Some? && alive) ==> unchanged(`transport, `connected, `unclosed)
      ensures old(stopped) ==> history.attempts == old(history.attempts) && !maintainer.Connecting?
      decreases 0, 5
    {
      hide Recorded, CloseRecorded, SamePass, Onward, PassCounted, Inv, Core, Mid, BeginReplace, LoopTop, Confirmed;
      AfterRebindInv(View());
      if transport.Some? && alive {
        if wall - checkedAt < HEALTH_CHECK_SECONDS {
          Confirm();
          Loop();
        } else {
          checkedAt := wall;
          maintainer := Checking;
        }
      } else {
        Reregister();
      }
    }

    /** The registration is gone: the event is cleared and the transport replaced. */
    method Reregister()
      requires InPass()
      modifies this
      ensures View() == BeginReplace(old(View()).(link := old(View()).link.(connected := false)), Reconnect)
      ensures Valid() && !Rebinding(maintainer)
      ensures old(transport).None? ==> transport.None? && unclosed == {}
      ensures old(stopped) ==> history.attempts == old(history.attempts) && !maintainer.Connecting?
      decreases 0, 4
    {
      hide Recorded, CloseRecorded, SamePass, Onward, PassCounted, BeginReplace, Inv, Core, Mid;
      DisconnectedMid(View());
      connected := false;
      ReplaceTransport(Reconnect);
      ValidLink(View());
    }

    method Confirm()
      requires InPass()
      modifies this`backoff, this`history
      ensures View() == Confirmed(old(View())) && InPass() && backoff == MIN_RECONNECT_BACKOFF
      ensures history.attempts == old(history.attempts)
    {
      hide SamePass, Onward, Mid;
      ConfirmedMid(View());
      backoff := MIN_RECONNECT_BACKOFF;
      history := history.(failures := 0);
    }

    /** A transport has been established: adopt it and set the event.  It is the only one not closed. */
    method Adopt(up: bool)
      requires LinkOk(View().link) && transport.None?
      modifies this`transport, this`alive, this`connected, this`unclosed, this`made, this`checkedAt
      ensures View() == Established(old(View()), up) && LinkOk(View().link)
      ensures connected && alive == up && transport.Some? && unclosed == {transport.value}
    {
      hide Onward, LinkOk;
      AdoptedLink(View(), up);
      checkedAt := wall;
      SetLink(Some(made), up, true, made + 1, unclosed + {made});
    }

    method FinishConnect(reason: Reason)
      requires InPass() && ReasonOk(View(), reason) && transport.Some?
      modifies this
      ensures View() == AfterConnect(old(View()), reason) && Valid()
      ensures if reason.Rebind? then !Rebinding(maintainer) else backoff == MIN_RECONNECT_BACKOFF
      ensures old(alive) || reason.Reconnect? ==> unchanged(`transport, `connected, `unclosed)
    {
      hide Recorded, CloseRecorded, SamePass, Onward, PassCounted, Inv, Mid, AfterRebind, LoopTop, Confirmed;
      AfterConnectInv(View(), reason);
      match reason
      case Rebind(newer) =>
        ReboundMid(View(), newer);
        boundExpiry := Some(newer);
        history := history.(rebinds := history.rebinds + [history.renewals]);
        CheckRegistration();
      case Reconnect =>
        Confirm();
        Loop();
    }

    method FailConnect(reason: Reason)
      requires InPass()
      modifies this
      ensures View() == AfterFailedConnect(old(View()), reason) && Valid()
    {
      if reason.Rebind? {
        hide Recorded, CloseRecorded, SamePass, Onward, PassCounted, AfterRebind, Inv, Mid;
        AfterFailedConnectInv(View(), reason);
        CheckRegistration();
      } else {
        hide AfterFailedConnect, Inv, Mid;
        FailReconnect();
      }
    }

    /** One more failed reconnect doubles the backoff, up to 30 seconds. */
    method FailReconnect()
      requires InPass()
      modifies this`backoff, this`history, this`maintainer
      ensures View() == AfterFailedConnect(old(View()), Reconnect) && Valid()
      ensures var doubled := old(backoff) * 2.0;
              backoff == if doubled < MAX_RECONNECT_BACKOFF then doubled else MAX_RECONNECT_BACKOFF
    {
      hide Recorded, CloseRecorded, SamePass, Onward, PassCounted, LoopTop, Inv, Mid;
      AfterFailedConnectInv(View(), Reconnect);
      DoubledMid(View());
      backoff := if backoff * 2.0 < MAX_RECONNECT_BACKOFF then backoff * 2.0 else MAX_RECONNECT_BACKOFF;
      history := history.(failures := history.failures + 1);
      Loop();
    }

    /** Hosting ends for good: no attempt follows, and what is left of the transport goes. */
    method StopForGood()
      requires Mid(View())
      modifies this
      ensures View() == GiveUp(old(View())) && Valid() && stopped && fatal
      ensures !old(dropHook) ==> transport.None? && unclosed == {}
    {
      hide Recorded, CloseRecorded, SamePass, Onward, Inv, Core, TryDropHook, AfterGiveUpHook;
      GiveUpInv(View());
      FatalCore(View());
      fatal, stopped := true, true;
      if dropHook {
        CallDropHook();
        maintainer := GivingUp;
      } else {
        FinishGiveUp();
      }
    }

    method FinishGiveUp()
      requires Core(View()) && stopped && (dropHook ==> Tried(View()))
      requires (owner.Started? && !cancelRequested) || owner.Joining?
      modifies this
      ensures View() == AfterGiveUpHook(old(View())) && Valid()
      ensures transport.None? && unclosed == {} && maintainer.Ended? && stopped && fatal == old(fatal)
    {
      hide Recorded, CloseRecorded, SamePass, Onward, Inv, Core, CloseTransport;
      AfterGiveUpHookInv(View());
      var _ := LetGo();
      maintainer := Ended;
      history := history.(gaveUp := true);
    }

    /** `start` is done: the loop polls. */
    method FinishStart()
      requires Core(View()) && !stopped && transport.Some? && !history.gaveUp && !cancelRequested
      modifies this
      ensures View() == AfterStart(old(View())) && Valid() && maintainer.Polling?
    {
      hide Recorded, CloseRecorded, SamePass, Onward, Inv, Core, LoopTop;
      StartedCore(View());
      owner := Started;
      history := history.(lastCheck := now, slept := 0.0);
      Loop();
    }

    method BeginAclose()
      requires Valid() && (owner.Started? || owner.StartFailed?)
      modifies this
      ensures View() == BeginClose(old(View())) && Valid() && stopped
    {
      hide CloseRecorded, Onward, CloseCounted, Inv, MaintainerOk, Core, AfterJoin;
      BeginCloseInv(View());
      StoppedCore(View());
      stopped := true;
      if maintainer.NotStarted? {
        FinishJoin();
      } else {
        cancelRequested := true;
        owner := Joining;
      }
    }

    method FinishJoin()
      requires Core(View()) && stopped && !MaintainerAwaits(View()) && MaintainerOk(View())
      requires history.gaveUp ==> maintainer.Ended?
      modifies this
      ensures View() == AfterJoin(old(View())) && Valid() && stopped
    {
      hide CloseRecorded, Onward, CloseCounted, SamePass, Inv, Core, MaintainerOk, TryDropHook, AfterCloseHook;
      AfterJoinInv(View());
      if dropHook {
        CallDropHook();
        owner := CloseDropping;
      } else {
        FinishAclose();
      }
    }

    method FinishAclose()
      requires Core(View()) && stopped && !MaintainerAwaits(View()) && MaintainerOk(View())
      requires dropHook ==> Tried(View())
      requires history.gaveUp ==> maintainer.Ended?
      modifies this
      ensures View() == AfterCloseHook(old(View())) && Valid() && stopped && transport.None? && unclosed == {}
    {
      hide CloseRecorded, Onward, CloseCounted, SamePass, Inv, Core, MaintainerOk, CloseTransport;
      AfterCloseHookInv(View());
      var _ := LetGo();
      owner := if claim.Some? then Releasing else Closed;
    }

    method AcceptRenewal(renewed: Claim)
      requires Valid() && maintainer.Renewing?
      modifies this
      ensures View() == WhenRenewing(old(View()), Renewed(renewed)) && Valid()
    {
      hide Recorded, CloseRecorded, SamePass, Onward, PassCounted, AfterRenew, Inv, Mid;
      AwaitingIsMid(View());
      RenewedMid(View(), renewed);
      claim := Some(renewed);
      history := history.(renewals := history.renewals + 1);
      RebindIfLapsing();
    }

    method HandleRenewing(event: Event)
      requires Valid() && maintainer.Renewing?
      modifies this
      ensures View() == WhenRenewing(old(View()), event) && Valid()
      ensures event == RenewFails(true) ==> stopped && fatal
    {
      hide Recorded, CloseRecorded, SamePass, Onward, PassCounted, AfterRenew, GiveUp, Inv, Mid;
      AwaitingIsMid(View());
      match event
      case Renewed(renewed) =>
        AcceptRenewal(renewed);
      case RenewFails(hopeless) =>
        if hopeless {
          StopForGood();
        } else {
          RebindIfLapsing();
        }
      case _ =>
    }

    /** A connection comes about: the transport is adopted, and stays if it is up or only the hook is left. */
    method HandleConnected(reason: Reason, up: bool)
      requires Valid() && maintainer == Connecting(reason)
      modifies this
      ensures View() == WhenConnecting(old(View()), reason, Connects(up)) && Valid()
      ensures up || old(transportHook) || reason.Reconnect? ==>
                connected && transport.Some? && unclosed == {transport.value}
    {
      hide Recorded, CloseRecorded, SamePass, Onward, PassCounted, AfterConnect, AfterFailedConnect,
        Inv, Mid, LinkOk, Established;
      ConnectingParts(View(), up);
      Adopt(up);
      if transportHook {
        maintainer := Hooking(reason);
      } else {
        FinishConnect(reason);
      }
    }

    method HandleConnecting(reason: Reason, event: Event)
      requires Valid() && maintainer == Connecting(reason)
      modifies this
      ensures View() == WhenConnecting(old(View()), reason, event) && Valid()
    {
      hide Recorded, CloseRecorded, SamePass, Onward, PassCounted, AfterConnect, AfterFailedConnect,
        Inv, Mid, LinkOk, Established;
      if event.Connects? {
        HandleConnected(reason, event.up);
      } else if event.ConnectFails? {
        ConnectingParts(View(), false);
        FailConnect(reason);
      }
    }

    method HandleHooking(reason: Reason, event: Event)
      requires Valid() && maintainer == Hooking(reason)
      modifies this
      ensures View() == WhenHooking(old(View()), reason, event) && Valid()
    {
      hide Recorded, CloseRecorded, SamePass, Onward, PassCounted, AfterConnect, AfterFailedConnect, Inv, Mid;
      HookingParts(View());
      match event
      case TransportHookReturns =>
        FinishConnect(reason);
      case TransportHookRaises =>
        FailConnect(reason);
      case _ =>
    }

    method HandleChecking(event: Event)
      requires Valid() && maintainer.Checking?
      modifies this
      ensures View() == WhenChecking(old(View()), event) && Valid()
      ensures event == CheckAnswers(true) ==> backoff == MIN_RECONNECT_BACKOFF && transport == old(transport)
    {
      hide Recorded, CloseRecorded, SamePass, Onward, PassCounted, BeginReplace, Inv, Mid, LoopTop, Confirmed;
      CheckingParts(View());
      match event
      case CheckAnswers(online) =>
        if online {
          Confirm();
          Loop();
        } else {
          Reregister();
        }
      case _ =>
    }

    /** The maintenance loop resumes from what it was awaiting. */
    method ResumeMaintainer(event: Event)
      requires Valid()
      modifies this
      ensures View() == NextMaintainer(old(View()), event) && Valid()
      ensures maintainer.Renewing? && !old(maintainer).Renewing? <==>
                && old(maintainer).Polling? && event.PollEnds? && old(maintainer).until <= old(now) && !old(stopped)
                && old(claim).Some?
                && (old(claim).value.renewAfter.Some? ==> old(claim).value.renewAfter.value <= old(wall))
    {
      ResumedRenewsWhenDue(View(), event);
      hide AfterPoll, AfterDropHook, AfterSettle, AfterGiveUpHook,
        WhenRenewing, WhenConnecting, WhenHooking, WhenChecking,
        Recorded, CloseRecorded, SamePass, Onward, PassCounted, Inv, Mid;
      MaintainerKeeps(View(), event);
      if event.CancelLands? {
        if cancelRequested && !maintainer.NotStarted? && !maintainer.Ended? {
          maintainer := Ended;
        }
        return;
      }
      match maintainer
      case Polling(until) =>
        if event.PollEnds? && (until <= now || stopped) {
          PollingParts(View());
          FinishPoll();
        }
      case Renewing =>
        HandleRenewing(event);
      case Dropping(reason) =>
        if event.DropHookReturns? {
          DroppingParts(View());
          FinishRelinquish(reason);
        }
      case Settling(reason, until) =>
        if event.SettleEnds? && (until <= now || stopped) {
          SettlingParts(View());
          Connect(reason);
        }
      case Connecting(reason) =>
        HandleConnecting(reason, event);
      case Hooking(reason) =>
        HandleHooking(reason, event);
      case Checking =>
        HandleChecking(event);
      case GivingUp =>
        if event.DropHookReturns? {
          GivingUpParts(View());
          FinishGiveUp();
        }
      case NotStarted =>
      case Ended =>
    }

    /** A claim is granted: the first attempt follows, unless the claim names nobody. */
    method TakeClaim(granted: Claim, named: bool)
      requires Valid() && owner.Claiming?
      modifies this`claim, this`history, this`owner
      ensures View() == WhenClaiming(old(View()), Granted(granted, named)) && Valid()
    {
      hide Recorded, CloseRecorded, Inv;
      ClaimingKeeps(View(), Granted(granted, named));
      claim := Some(granted);
      if named {
        history := history.(attempts := history.attempts + [Attempt(now, history.lastClose, stopped)]);
        owner := StartConnecting;
      } else {
        owner := StartFailed;
      }
    }

    method HandleClaiming(event: Event)
      requires Valid() && owner.Claiming?
      modifies this`claim, this`history, this`owner
      ensures View() == WhenClaiming(old(View()), event) && Valid()
    {
      hide Recorded, CloseRecorded, Attempted, Inv;
      ClaimingKeeps(View(), event);
      if event.Granted? {
        TakeClaim(event.claim, event.named);
      } else if event.ClaimFails? {
        owner := StartFailed;
      }
    }

    method HandleStartConnecting(event: Event)
      requires Valid() && owner.StartConnecting?
      modifies this
      ensures View() == WhenStartConnecting(old(View()), event) && Valid()
      ensures event.StartConnects? ==> connected && transport.Some? && unclosed == {transport.value}
    {
      hide Recorded, CloseRecorded, SamePass, Onward, AfterStart, Inv, Core, Established;
      StartConnectingKeeps(View(), event);
      StartConnectingParts(View(), event.StartConnects? && event.up);
      match event
      case StartConnects(up) =>
        Adopt(up);
        if transportHook {
          owner := StartHooking;
        } else {
          FinishStart();
        }
      case StartConnectFails =>
        owner := StartFailed;
      case _ =>
    }

    method HandleStartHooking(event: Event)
      requires Valid() && owner.StartHooking?
      modifies this
      ensures View() == WhenStartHooking(old(View()), event) && Valid()
    {
      hide Recorded, CloseRecorded, SamePass, Onward, AfterStart, Inv, Core;
      StartHookingKeeps(View(), event);
      StartHookingParts(View());
      match event
      case StartHookReturns =>
        FinishStart();
      case StartHookRaises =>
        owner := StartFailed;
      case _ =>
    }

    /** `start` resumes from what it was awaiting. */
    method ResumeStart(event: Event)
      requires Valid()
      modifies this
      ensures View() == NextStarting(old(View()), event) && Valid()
    {
      hide WhenClaiming, WhenStartConnecting, WhenStartHooking, CloseRecorded, Onward, Inv;
      match owner
      case Claiming =>
        HandleClaiming(event);
      case StartConnecting =>
        HandleStartConnecting(event);
      case StartHooking =>
        HandleStartHooking(event);
      case _ =>
    }

    /** `aclose` is called, or resumes from what it was awaiting. */
    method ResumeClose(event: Event)
      requires Valid() && !owner.Claiming? && !owner.StartConnecting? && !owner.StartHooking?
      modifies this
      ensures View() == NextClosing(old(View()), event) && Valid()
    {
      hide BeginClose, AfterJoin, AfterCloseHook, CloseRecorded, Onward, CloseCounted, Inv, Core, MaintainerOk, Tried;
      if owner.Started? || owner.StartFailed? {
        if event.CallClose? {
          BeginAclose();
        }
      } else if owner.Joining? {
        if event.Joined? && maintainer.Ended? {
          JoiningParts(View());
          FinishJoin();
        }
      } else if owner.CloseDropping? {
        if event.CloseHookReturns? {
          JoiningParts(View());
          FinishAclose();
        }
      } else if owner.Releasing? && event.Released? {
        ReleaseKeeps(View());
        owner, claim := Closed, None;
      }
    }

    method ResumeOwner(event: Event)
      requires Valid()
      modifies this
      ensures View() == NextOwner(old(View()), event) && Valid()
      ensures owner.Closed? ==> transport.None? && unclosed == {}
    {
      hide NextStarting, NextClosing, CloseRecorded, Onward, Inv;
      if owner.Claiming? || owner.StartConnecting? || owner.StartHooking? {
        ResumeStart(event);
      } else {
        ResumeClose(event);
      }
      ClosedParts(View());
    }

    /** Time passes, or somebody sets the clock. */
    method PassTime(event: Event)
      requires event.Tick? || event.SetClock?
      modifies this`now, this`wall, this`history
      ensures View() == NextEnvironment(old(View()), event)
    {
      hide Onward;
      if event.SetClock? {
        wall := event.wall;
      } else if event.elapsed >= 0.0 {
        history := history.(slept := history.slept + Asleep(View(), event.elapsed));
        now, wall := now + event.elapsed, wall + event.elapsed;
      }
    }

    /** A socket drops, somebody sets a hook, or asks for a configuration. */
    method Happen(event: Event)
      requires Valid() && IsEnvironment(event)
      modifies this`now, this`wall, this`alive, this`dropHook, this`transportHook, this`boundExpiry, this`history
      ensures View() == NextEnvironment(old(View()), event) && Valid()
    {
      hide Onward, Passed, ExpireAt, Inv;
      EnvironmentKeeps(View(), event);
      if event.SocketDrops? {
        alive := false;
      } else if event.SetHooks? {
        dropHook, transportHook := event.dropHook, event.transportHook;
      } else if event.Configure? {
        boundExpiry := ExpireAt(claim);
      } else {
        PassTime(event);
      }
    }

    /** Whatever happens keeps the endpoint valid: one transport at most, and none after `aclose`. */
    method Handle(event: Event)
      requires Valid()
      modifies this
      ensures View() == Next(old(View()), event) && Valid()
      ensures unclosed == (if transport.Some? then {transport.value} else {}) && (connected ==> transport.Some?)
      ensures owner.Closed? ==> transport.None?
      ensures old(stopped) ==> stopped && history.attempts == old(history.attempts)
    {
      hide NextEnvironment, NextMaintainer, NextOwner, Inv;
      if stopped {
        StoppedNext(View(), event);
      }
      if IsEnvironment(event) {
        Happen(event);
      } else if IsOwner(event) {
        ResumeOwner(event);
      } else {
        ResumeMaintainer(event);
      }
      ClosedParts(View());
    }
  }

  /** A whole run: what its owner finds at the end of it, and what happened on the way. */
  method Host(now: real, wall: real, dropHook: bool, transportHook: bool, events: seq<Event>)
    returns (transport: Option<nat>, connected: bool, closed: bool, stopped: bool, backoff: real,
             ghost unclosed: set<nat>, ghost history: History)
    ensures var s := Reached(now, wall, dropHook, transportHook, events);
            transport == s.link.transport && unclosed == s.link.unclosed && history == s.history
    ensures unclosed == (if transport.Some? then {transport.value} else {}) && (connected ==> transport.Some?)
    ensures closed || history.gaveUp ==> stopped && transport.None?
    ensures forall a | a in history.attempts :: GoodAttempt(a)
    ensures forall c | c in history.closes :: GoodClose(c)
    ensures RebindsApart(history)
    ensures MIN_RECONNECT_BACKOFF <= backoff <= MAX_RECONNECT_BACKOFF
    ensures !stopped ==> backoff == BackoffAfter(FailedInARow(Initial(now, wall, dropHook, transportHook), events, 0))
  {
    hide Next, Inv, FailedInARow, RebindsApart, GoodAttempt, GoodClose, Initial;
    var endpoint := new HostedEndpoint(now, wall, dropHook, transportHook);
    assert events[0..] == events;
    for n := 0 to |events|
      invariant fresh(endpoint) && endpoint.Valid()
      invariant Run(endpoint.View(), events[n..]) == Reached(now, wall, dropHook, transportHook, events)
    {
      assert events[n..][0] == events[n] && events[n..][1..] == events[n + 1..];
      endpoint.Handle(events[n]);
    }
    assert events[|events|..] == [];
    OneTransport(now, wall, dropHook, transportHook, events);
    AttemptsAreSettled(now, wall, dropHook, transportHook, events);
    RebindsAreCounted(now, wall, dropHook, transportHook, events);
    BackoffIsExact(now, wall, dropHook, transportHook, events);
    return endpoint.transport, endpoint.connected, endpoint.owner.Closed?, endpoint.stopped, endpoint.backoff,
      endpoint.unclosed, endpoint.history;
  }
}
