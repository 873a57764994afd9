/** What an endpoint's owner can count on, over every run. */
module HostingGuarantees {
  import opened Wrappers
  import opened Hosting
  import opened HostingSafety
  import opened HostingRecord

  /** The state a run of a new endpoint leads to. */
  function Reached(now: real, wall: real, dropHook: bool, transportHook: bool, events: seq<Event>): State {
    Run(Initial(now, wall, dropHook, transportHook), events)
  }

  /** Hosting has ended for good: it gave up, or `aclose` has returned. */
  predicate Over(s: State) {
    s.history.gaveUp || s.owner.Closed?
  }

  lemma ReachedInv(now: real, wall: real, dropHook: bool, transportHook: bool, events: seq<Event>)
    ensures Inv(Reached(now, wall, dropHook, transportHook, events))
  {
    RunKeeps(Initial(now, wall, dropHook, transportHook), events);
  }

  /**
    At every await point at most one transport is unclosed and it is the current one; the
    connected event is set only while there is one; every close of a transport came after
    the drop hook had been tried on it, if there was one; and nothing is left open once
    hosting is over.
   */
  lemma OneTransport(now: real, wall: real, dropHook: bool, transportHook: bool, events: seq<Event>)
    ensures var s := Reached(now, wall, dropHook, transportHook, events);
            && s.link.unclosed == (if s.link.transport.Some? then {s.link.transport.value} else {})
            && (s.link.connected ==> s.link.transport.Some?)
            && (forall i | 0 <= i < |s.history.closes| :: GoodClose(s.history.closes[i]))
            && (Over(s) ==> s.stopped && s.link.transport.None? && s.link.unclosed == {})
  {
    ReachedInv(now, wall, dropHook, transportHook, events);
  }

  /**
    Every attempt to connect was made before hosting stopped, and at least the settle interval
    after the latest close.
   */
  lemma AttemptsAreSettled(now: real, wall: real, dropHook: bool, transportHook: bool, events: seq<Event>)
    ensures var s := Reached(now, wall, dropHook, transportHook, events);
            forall i | 0 <= i < |s.history.attempts| :: GoodAttempt(s.history.attempts[i])
  {
    ReachedInv(now, wall, dropHook, transportHook, events);
  }

  /**
    The record leaves nothing out and adds nothing.  A transport comes only of an attempt, coming
    to await a connection adds an attempt made now, losing a transport adds its close, now, and
    coming to await the drop hook adds the transport to those it was tried on.  Renewals, rebinds
    and giving up are counted at the events that bring them about and at no other, and failed
    reconnects are counted until the loop gets back to polling some other way.
   */
  lemma StepsAreRecorded(now: real, wall: real, dropHook: bool, transportHook: bool, events: seq<Event>, event: Event)
    ensures var s := Reached(now, wall, dropHook, transportHook, events);
            AttemptsAccounted(s, Next(s, event)) && CountsAccounted(s, event, Next(s, event))
  {
    ReachedInv(now, wall, dropHook, transportHook, events);
    NextRecorded(Reached(now, wall, dropHook, transportHook, events), event);
  }

  /** Failed reconnects in a row at the end of a run, from the events alone. */
  function FailedInARow(s: State, events: seq<Event>, failures: nat): nat
    decreases |events|
  {
    if events == [] then failures
    else
      var s' := Next(s, events[0]);
      FailedInARow(s', events[1..], FailuresAfter(s, events[0], s', failures))
  }

  lemma {:induction false} FailuresCounted(s: State, events: seq<Event>)
    requires Inv(s) && !Run(s, events).stopped
    ensures Run(s, events).history.failures == FailedInARow(s, events, s.history.failures)
    decreases |events|
  {
    if events != [] {
      hide Next, FailuresAfter, Inv;
      var s' := Next(s, events[0]);
      NextKeeps(s, events[0]);
      NextCounted(s, events[0]);
      if s'.stopped {
        StopIsFinal(s', events[1..]);
      }
      FailuresCounted(s', events[1..]);
    }
  }

  /**
    While hosting has not been stopped: after `k` failed reconnects in a row the backoff is
    min(2^k, 30) seconds, where a reconnect that works, and a pass that finds the registration
    in order, put an end to the row.
   */
  lemma BackoffIsExact(now: real, wall: real, dropHook: bool, transportHook: bool, events: seq<Event>)
    ensures var first := Initial(now, wall, dropHook, transportHook);
            var s := Reached(now, wall, dropHook, transportHook, events);
            && (!s.stopped ==> s.backoff == BackoffAfter(FailedInARow(first, events, 0)))
            && MIN_RECONNECT_BACKOFF <= s.backoff <= MAX_RECONNECT_BACKOFF
  {
    ReachedInv(now, wall, dropHook, transportHook, events);
    var s, first := Reached(now, wall, dropHook, transportHook, events), Initial(now, wall, dropHook, transportHook);
    BackoffDoubles(s.history.failures);
    if !s.stopped {
      FailuresCounted(first, events);
    }
  }

  /** Each successful rebind came after more renewals than the one before it. */
  ghost predicate RebindsApart(h: History) {
    forall i, j | 0 <= i < j < |h.rebinds| :: h.rebinds[i] < h.rebinds[j] <= h.renewals
  }

  lemma RebindsAreCounted(now: real, wall: real, dropHook: bool, transportHook: bool, events: seq<Event>)
    ensures RebindsApart(Reached(now, wall, dropHook, transportHook, events).history)
  {
    ReachedInv(now, wall, dropHook, transportHook, events);
  }

  /** Without a renewal since the last successful rebind there is no further one. */
  lemma {:induction false} NoRenewalNoRebind(s: State, events: seq<Event>)
    requires Inv(s) && !RenewedSince(s.history)
    requires forall k | 0 <= k < |events| :: !Renews(Run(s, events[..k]), events[k])
    ensures !RenewedSince(Run(s, events).history)
    decreases |events|
  {
    if events != [] {
      hide Next, Inv, Renews;
      var s', rest := Next(s, events[0]), events[1..];
      assert events[..0] == [] && Run(s, []) == s;
      NextKeeps(s, events[0]);
      NextCounted(s, events[0]);
      forall k | 0 <= k < |rest| ensures !Renews(Run(s', rest[..k]), rest[k]) {
        assert events[..k + 1][0] == events[0] && events[..k + 1][1..] == rest[..k];
        assert rest[k] == events[k + 1];
      }
      NoRenewalNoRebind(s', rest);
    }
  }

  lemma RebindsOnceRenewed(s: State, event: Event)
    requires Inv(s) && Rebinds(s, event)
    ensures RenewedSince(s.history) && !RenewedSince(Next(s, event).history)
  {
    NextCounted(s, event);
    hide Next;
  }

  lemma RenewalBetween(s: State, event: Event, between: seq<Event>, last: Event) returns (k: nat)
    requires Inv(s) && Rebinds(s, event) && Rebinds(Run(Next(s, event), between), last)
    ensures k < |between| && Renews(Run(Next(s, event), between[..k]), between[k])
  {
    hide Next, Run, Inv, Rebinds, Renews;
    var s' := Next(s, event);
    NextKeeps(s, event);
    RunKeeps(s', between);
    RebindsOnceRenewed(s, event);
    RebindsOnceRenewed(Run(s', between), last);
    if forall k | 0 <= k < |between| :: !Renews(Run(s', between[..k]), between[k]) {
      NoRenewalNoRebind(s', between);
    }
    k :| 0 <= k < |between| && Renews(Run(s', between[..k]), between[k]);
  }

  /** A run read on from one of its events. */
  lemma RunOnFrom(first: State, events: seq<Event>, i: nat, n: nat)
    requires i < n <= |events|
    ensures Run(first, events[..n]) == Run(Next(Run(first, events[..i]), events[i]), events[i + 1..n])
  {
    assert events[..n] == events[..i] + events[i..n];
    RunConcat(first, events[..i], events[i..n]);
    assert events[i..n][0] == events[i] && events[i..n][1..] == events[i + 1..n];
  }

  /** Between any two successful rebinds a renewal was accepted. */
  lemma RebindsNeedRenewals(now: real, wall: real, dropHook: bool, transportHook: bool, events: seq<Event>,
                            i: nat, j: nat)
    requires i < j < |events|
    requires Rebinds(Reached(now, wall, dropHook, transportHook, events[..i]), events[i])
    requires Rebinds(Reached(now, wall, dropHook, transportHook, events[..j]), events[j])
    ensures exists k :: i < k < j && Renews(Reached(now, wall, dropHook, transportHook, events[..k]), events[k])
  {
    hide Next, Run, Inv, Rebinds, Renews, Initial;
    var first, between := Initial(now, wall, dropHook, transportHook), events[i + 1..j];
    ReachedInv(now, wall, dropHook, transportHook, events[..i]);
    RunOnFrom(first, events, i, j);
    var k := RenewalBetween(Run(first, events[..i]), events[i], between, events[j]);
    assert between[..k] == events[i + 1..i + 1 + k] && between[k] == events[i + 1 + k];
    RunOnFrom(first, events, i, i + 1 + k);
  }

  lemma {:induction false} StoppedNext(s: State, event: Event)
    requires Inv(s) && s.stopped
    ensures var s' := Next(s, event);
            s'.stopped && s'.history.attempts == s.history.attempts && (Over(s) ==> Over(s'))
  {
    hide NextEnvironment, NextMaintainer;
    assert !s.owner.Claiming?;
  }

  lemma {:induction false} StopIsFinal(s: State, events: seq<Event>)
    requires Inv(s) && s.stopped
    ensures var s' := Run(s, events);
            s'.stopped && s'.history.attempts == s.history.attempts && (Over(s) ==> Over(s'))
    decreases |events|
  {
    if events != [] {
      StoppedNext(s, events[0]);
      NextKeeps(s, events[0]);
      StopIsFinal(Next(s, events[0]), events[1..]);
    }
  }

  /** Once hosting is over there is never a transport again, nor an attempt to make one. */
  lemma OverIsOver(now: real, wall: real, dropHook: bool, transportHook: bool, events: seq<Event>, more: seq<Event>)
    requires Over(Reached(now, wall, dropHook, transportHook, events))
    ensures var s := Reached(now, wall, dropHook, transportHook, events);
            var s' := Reached(now, wall, dropHook, transportHook, events + more);
            Over(s') && s'.link.transport.None? && s'.history.attempts == s.history.attempts
  {
    hide Run;
    var s := Reached(now, wall, dropHook, transportHook, events);
    ReachedInv(now, wall, dropHook, transportHook, events);
    ReachedInv(now, wall, dropHook, transportHook, events + more);
    RunConcat(Initial(now, wall, dropHook, transportHook), events, more);
    StopIsFinal(s, more);
  }

  lemma {:induction false} RunConcat(s: State, a: seq<Event>, b: seq<Event>)
    ensures Run(s, a + b) == Run(Run(s, a), b)
    decreases |a|
  {
    if a == [] {
      assert a + b == b;
    } else {
      assert (a + b)[1..] == a[1..] + b;
      RunConcat(Next(s, a[0]), a[1..], b);
    }
  }

  // Rebinding in time.

  /** Since the loop last considered a rebind: the time it has spent other than polling. */
  function Working(s: State): real {
    s.now - s.history.lastCheck - s.history.slept
  }

  /** Where the wall clock stood when the loop last considered a rebind. */
  function CheckedAtWall(s: State): real {
    s.wall - (s.now - s.history.lastCheck)
  }

  predicate Rebinding(m: Maintainer) {
    (m.Dropping? || m.Settling? || m.Connecting? || m.Hooking?) && m.reason.Rebind?
  }

  /** The loop runs with a listener bound until `bound`, holds newer credentials, and has not begun to rebind. */
  predicate Lapsing(s: State, bound: real) {
    && s.boundExpiry == Some(bound) && ExpireAt(s.claim).Some? && ExpireAt(s.claim).value > bound
    && s.dropHook && !s.stopped && MaintainerAwaits(s) && !Rebinding(s.maintainer)
  }

  /** The first time the loop looks with the margin reached and newer credentials held, it begins to rebind. */
  lemma {:induction false} CheckBeginsRebind(s: State, bound: real)
    requires s.boundExpiry == Some(bound) && s.dropHook
    requires ExpireAt(s.claim).Some? && ExpireAt(s.claim).value > bound
    ensures bound - s.wall <= REBIND_MARGIN_SECONDS ==> Rebinding(AfterRenew(s).maintainer)
    ensures bound - s.wall > REBIND_MARGIN_SECONDS ==>
              AfterRenew(s).history.lastCheck == s.now && AfterRenew(s).now == s.now && AfterRenew(s).wall == s.wall
  {
  }

  /** The loop's last look was while the margin had not been reached. */
  predicate Timely(s: State, bound: real) {
    CheckedAtWall(s) <= bound - REBIND_MARGIN_SECONDS
  }

  lemma {:induction false} LookStaysTimely(s: State, event: Event, bound: real)
    requires Lapsing(s, bound) && Timely(s, bound) && Lapsing(NextMaintainer(s, event), bound)
    requires s.maintainer.Polling? || s.maintainer.Renewing?
    ensures Timely(NextMaintainer(s, event), bound)
  {
    hide AfterRebind, AfterDropHook, Recorded, CloseRecorded, PassCounted, CloseTransport;
  }

  /** Only these two await points lead to a look. */
  lemma {:induction false} RestStaysTimely(s: State, event: Event, bound: real)
    requires Lapsing(s, bound) && Timely(s, bound) && Lapsing(NextMaintainer(s, event), bound)
    requires !s.maintainer.Polling? && !s.maintainer.Renewing?
    ensures Timely(NextMaintainer(s, event), bound)
  {
    hide AfterRebind, AfterDropHook, AfterSettle, BeginReplace, LoopTop, Recorded, CloseRecorded, PassCounted;
  }

  lemma {:induction false} NextStaysTimely(s: State, event: Event, bound: real)
    requires Inv(s) && Lapsing(s, bound) && Timely(s, bound) && !event.SetClock?
    requires Lapsing(Next(s, event), bound)
    ensures Timely(Next(s, event), bound)
  {
    hide NextMaintainer, Core;
    if !IsEnvironment(event) && !IsOwner(event) {
      if s.maintainer.Polling? || s.maintainer.Renewing? {
        LookStaysTimely(s, event, bound);
      } else {
        RestStaysTimely(s, event, bound);
      }
    }
  }

  /**
    Along a run in which nobody sets the clock: newer credentials are held from when the bound
    ones have 120 seconds left, the loop works for at most `work` seconds between one look and
    the next, and no rebind has begun yet.  Then at least 90 - `work` seconds are left.
   */
  lemma {:induction false} RebindsInTime(s: State, events: seq<Event>, bound: real, work: real)
    requires Inv(s) && Timely(s, bound)
    requires forall i | 0 <= i <= |events| ::
               Lapsing(Run(s, events[..i]), bound) && Working(Run(s, events[..i])) <= work
    requires forall i | 0 <= i < |events| :: !events[i].SetClock?
    ensures var s' := Run(s, events);
            bound - s'.wall >= REBIND_MARGIN_SECONDS - RENEW_POLL_SECONDS - work
    decreases |events|
  {
    assert events[..0] == [] && Lapsing(s, bound) && Working(s) <= work;
    if events != [] {
      var s', rest := Next(s, events[0]), events[1..];
      forall i | 0 <= i <= |rest| ensures Run(s', rest[..i]) == Run(s, events[..i + 1]) {
        assert events[..i + 1][0] == events[0] && events[..i + 1][1..] == rest[..i];
      }
      assert rest[..0] == [] && Run(s', rest[..0]) == s';
      NextKeeps(s, events[0]);
      NextStaysTimely(s, events[0], bound);
      RebindsInTime(s', rest, bound, work);
    }
  }

  /** The same for an endpoint that has run from its start. */
  lemma ReachedRebindsInTime(now: real, wall: real, dropHook: bool, transportHook: bool,
                             before: seq<Event>, events: seq<Event>, bound: real, work: real)
    requires Reached(now, wall, dropHook, transportHook, before).wall <= bound - REBIND_MARGIN_SECONDS
    requires forall i | 0 <= i <= |events| ::
               var s := Run(Reached(now, wall, dropHook, transportHook, before), events[..i]);
               Lapsing(s, bound) && Working(s) <= work
    requires forall i | 0 <= i < |events| :: !events[i].SetClock?
    ensures bound - Reached(now, wall, dropHook, transportHook, before + events).wall
            >= REBIND_MARGIN_SECONDS - RENEW_POLL_SECONDS - work
  {
    ReachedInv(now, wall, dropHook, transportHook, before);
    RunConcat(Initial(now, wall, dropHook, transportHook), before, events);
    RebindsInTime(Reached(now, wall, dropHook, transportHook, before), events, bound, work);
  }
}
