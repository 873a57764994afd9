/**
  Running an awaitable on an event loop from another thread.

  The loop is a first-in first-out queue of callbacks that any thread appends to.  Starting a
  coroutine and cancelling it are both posted there, and the coroutine's own steps go through it too.
 */
module Scheduling {

  /** `Step` runs the coroutine's next slice; `Foreign` stands for anybody else's callback. */
  datatype Callback = Start | Apply | Step | Foreign

  /** A task whose next slice is queued, or that is parked on something, or that has ended. */
  datatype Task = NoTask | Queued(entered: bool, mustCancel: bool) | Parked | Ended

  /**
    `task` and `cancellationRequested` are the variables the closures share.  The rest is
    history: whether `Start` has run, whether it failed to create a task, whether the
    awaitable took a step, whether `cancel` was called before `Start` ran, and how often the
    completion was invoked.  An `inert` schedule found its future already done.
   */
  datatype State = State(queue: seq<Callback>, task: Task, cancellationRequested: bool, inert: bool,
                         started: bool, failed: bool, stepped: bool, cancelledEarly: bool, completions: nat)

  /** How a slice of the awaitable ends. */
  datatype Slice = Suspends | Yields | Finishes

  /**
    How the callback the loop takes next turns out: whether a coroutine can be created, how a
    slice ends, whether a completion raises, and whether a parked coroutine awaits a task of its
    own, so that a cancellation is passed on to that and leaves the coroutine parked.
   */
  datatype Outcome = Outcome(createFails: bool, slice: Slice, completionRaises: bool, passedOn: bool)

  /** What the threads and the loop may do next. */
  datatype Event =
    | CallCancel
    | PostForeign
    | Wake
    | RunNext(outcome: Outcome)

  function Scheduled(queue: seq<Callback>, done: bool, completionRaises: bool): State {
    if done then
      Complete(State(queue, NoTask, false, true, false, false, false, false, 0), completionRaises)
    else
      State(queue + [Start], NoTask, false, false, false, false, false, false, 0)
  }

  function Post(s: State, callback: Callback): State {
    s.(queue := s.queue + [callback])
  }

  /** Invoke the completion; one that raises has the loop's exception handler posted. */
  function Complete(s: State, raises: bool): (r: State)
    ensures r.inert == s.inert && r.cancelledEarly == s.cancelledEarly
  {
    var s' := s.(completions := s.completions + 1);
    if raises then Post(s', Foreign) else s'
  }

  function RunStart(s: State, createFails: bool, completionRaises: bool): (r: State)
    ensures r.inert == s.inert && r.cancelledEarly == s.cancelledEarly
  {
    var s' := s.(started := true);
    if createFails then Complete(s'.(failed := true), completionRaises)
    else Post(s'.(task := Queued(false, s.cancellationRequested)), Step)
  }

  /** Cancelling a parked coroutine cancels what it waits on, which queues its next slice, unless that is a task. */
  function RunApply(s: State, passedOn: bool): (r: State)
    ensures r.inert == s.inert && r.cancelledEarly == s.cancelledEarly
  {
    var s' := s.(cancellationRequested := true);
    match s.task
    case Queued(entered, _) => s'.(task := Queued(entered, true))
    case Parked => if passedOn then s' else Post(s'.(task := Queued(true, true)), Step)
    case _ => s'
  }

  /** A task cancelled before its first slice ends without entering the wrapper. */
  function RunStep(s: State, slice: Slice, completionRaises: bool): (r: State)
    ensures r.inert == s.inert && r.cancelledEarly == s.cancelledEarly
  {
    match s.task
    case Queued(entered, mustCancel) =>
      if !entered && mustCancel then s.(task := Ended)
      else
        var s' := s.(stepped := true);
        (match slice
         case Suspends => s'.(task := Parked)
         case Yields => Post(s'.(task := Queued(true, false)), Step)
         case Finishes => Complete(s'.(task := Ended), completionRaises))
    case _ => s
  }

  function RunCallback(s: State, callback: Callback, outcome: Outcome): (r: State)
    ensures r.inert == s.inert && r.cancelledEarly == s.cancelledEarly
  {
    match callback
    case Start => RunStart(s, outcome.createFails, outcome.completionRaises)
    case Apply => RunApply(s, outcome.passedOn)
    case Step => RunStep(s, outcome.slice, outcome.completionRaises)
    case Foreign => s
  }

  /** One step never forgets an early cancellation, and only such a call makes one. */
  function Next(s: State, event: Event): (r: State)
    ensures r.inert == s.inert
    ensures r.cancelledEarly <==> s.cancelledEarly || (event == CallCancel && !s.started && !s.inert)
  {
    match event
    case CallCancel =>
      if s.inert then s else Post(s.(cancelledEarly := s.cancelledEarly || !s.started), Apply)
    case PostForeign => Post(s, Foreign)
    case Wake =>
      if s.task.Parked? then Post(s.(task := Queued(true, false)), Step) else s
    case RunNext(outcome) =>
      if s.queue == [] then s else RunCallback(s.(queue := s.queue[1..]), s.queue[0], outcome)
  }

  function Run(s: State, events: seq<Event>): State
    decreases |events|
  {
    if events == [] then s else Run(Next(s, events[0]), events[1..])
  }

  /** A cancellation comes up before the marker does. */
  predicate ApplyAhead(queue: seq<Callback>, marker: Callback) {
    queue != [] && queue[0] != marker && (queue[0] == Apply || ApplyAhead(queue[1..], marker))
  }

  lemma {:induction false} AheadOfEnd(queue: seq<Callback>, marker: Callback)
    requires marker !in queue && marker != Apply
    ensures ApplyAhead(queue + [marker], marker) <==> Apply in queue
  {
    if queue != [] {
      assert (queue + [marker])[1..] == queue[1..] + [marker];
      AheadOfEnd(queue[1..], marker);
    }
  }

  lemma {:induction false} AheadUnmoved(queue: seq<Callback>, marker: Callback, later: Callback)
    requires marker in queue
    ensures ApplyAhead(queue + [later], marker) <==> ApplyAhead(queue, marker)
  {
    assert (queue + [later])[1..] == queue[1..] + [later];
    if queue[0] != marker {
      AheadUnmoved(queue[1..], marker, later);
    }
  }

  function Count(queue: seq<Callback>, callback: Callback): nat {
    multiset(queue)[callback]
  }

  lemma CountPop(queue: seq<Callback>, callback: Callback)
    requires queue != []
    ensures Count(queue[1..], callback) == Count(queue, callback) - if queue[0] == callback then 1 else 0
  {
    assert queue == [queue[0]] + queue[1..];
  }

  /** What every interleaving keeps. */
  ghost predicate Inv(s: State) {
    && Count(s.queue, Start) == (if s.inert || s.started then 0 else 1)
    && Count(s.queue, Step) == (if s.task.Queued? then 1 else 0)
    && (s.inert ==> !s.started && Apply !in s.queue && s.completions == 1)
    && (!s.started ==> s.task.NoTask? && !s.cancellationRequested && !s.failed && !s.stepped
                       && (!s.inert ==> s.completions == 0)
                       && !ApplyAhead(s.queue, Start)
                       && (s.cancelledEarly <==> Apply in s.queue))
    && (s.started ==> s.completions == if s.failed || (s.stepped && s.task.Ended?) then 1 else 0)
    && (s.started ==> (s.task.NoTask? <==> s.failed))
    && (s.failed ==> !s.stepped)
    && (s.task.Queued? && !s.task.entered ==>
          !s.stepped && (s.cancelledEarly <==> s.task.mustCancel || ApplyAhead(s.queue, Step)))
    && (s.task.Parked? || (s.task.Queued? && s.task.entered) ==> s.stepped)
    && (s.stepped ==> !s.cancelledEarly)
    && (s.task.Ended? && !s.stepped ==> s.cancelledEarly)
  }

  ghost predicate OnlyForeign(queue: seq<Callback>) {
    forall c | c in queue :: c == Foreign
  }

  lemma {:induction false} ForeignCounts(queue: seq<Callback>)
    requires OnlyForeign(queue)
    ensures Count(queue, Start) == Count(queue, Step) == 0 && Apply !in queue && Start !in queue
  {
    InCount(queue, Start);
    InCount(queue, Step);
  }

  lemma ScheduledInv(queue: seq<Callback>, done: bool, completionRaises: bool)
    requires OnlyForeign(queue)
    ensures Inv(Scheduled(queue, done, completionRaises))
  {
    ForeignCounts(queue);
    AheadOfEnd(queue, Start);
    if done {
      NothingAhead(queue);
      NothingAhead(queue + [Foreign]);
    } else {
    }
  }

  lemma {:induction false} NothingAhead(queue: seq<Callback>)
    requires Apply !in queue
    ensures !ApplyAhead(queue, Start)
  {
    if queue != [] {
      NothingAhead(queue[1..]);
    }
  }

  lemma InCount(queue: seq<Callback>, callback: Callback)
    ensures callback in queue <==> Count(queue, callback) > 0
  {
  }

  /** Posting something that is neither `Start` nor `Step`. */
  lemma PostKeeps(s: State, callback: Callback)
    requires Inv(s) && (callback == Foreign || (callback == Apply && !s.inert))
    ensures Inv(Post(s.(cancelledEarly := s.cancelledEarly || (callback == Apply && !s.started)), callback))
  {
    InCount(s.queue, Start);
    InCount(s.queue, Step);
    if !s.started {
      if s.inert {
        NothingAhead(s.queue + [callback]);
      } else {
        AheadUnmoved(s.queue, Start, callback);
      }
    }
    if s.task.Queued? {
      AheadUnmoved(s.queue, Step, callback);
    }
  }

  lemma WakeKeeps(s: State)
    requires Inv(s)
    ensures Inv(Next(s, Wake))
  {
  }

  lemma CompleteKeeps(s: State, raises: bool)
    requires Inv(s.(completions := s.completions + 1))
    ensures Inv(Complete(s, raises))
  {
    PostKeeps(s.(completions := s.completions + 1), Foreign);
  }

  lemma StartKeeps(s: State, createFails: bool, completionRaises: bool)
    requires Inv(s) && s.queue != [] && s.queue[0] == Start
    ensures Inv(RunStart(s.(queue := s.queue[1..]), createFails, completionRaises))
  {
    var rest := s.queue[1..];
    CountPop(s.queue, Start);
    CountPop(s.queue, Step);
    InCount(s.queue, Start);
    InCount(rest, Step);
    var s' := s.(queue := rest, started := true);
    if createFails {
      CompleteKeeps(s'.(failed := true), completionRaises);
    } else {
      AheadOfEnd(rest, Step);
    }
  }

  lemma ApplyKeeps(s: State, passedOn: bool)
    requires Inv(s) && s.queue != [] && s.queue[0] == Apply
    ensures Inv(RunApply(s.(queue := s.queue[1..]), passedOn))
  {
    CountPop(s.queue, Start);
    CountPop(s.queue, Step);
    InCount(s.queue, Start);
    assert s.started;
  }

  lemma StepKeeps(s: State, slice: Slice, completionRaises: bool)
    requires Inv(s) && s.queue != [] && s.queue[0] == Step
    ensures Inv(RunStep(s.(queue := s.queue[1..]), slice, completionRaises))
  {
    var rest := s.queue[1..];
    CountPop(s.queue, Start);
    CountPop(s.queue, Step);
    InCount(s.queue, Step);
    assert s.task.Queued? && s.started;
    if s.task.entered || !s.task.mustCancel {
      var s' := s.(queue := rest, stepped := true);
      if slice.Finishes? {
        CompleteKeeps(s'.(task := Ended), completionRaises);
      }
    }
  }

  lemma ForeignKeeps(s: State)
    requires Inv(s) && s.queue != [] && s.queue[0] == Foreign
    ensures Inv(s.(queue := s.queue[1..]))
  {
    CountPop(s.queue, Start);
    CountPop(s.queue, Step);
  }

  lemma CallbackKeeps(s: State, outcome: Outcome)
    requires Inv(s) && s.queue != []
    ensures Inv(RunCallback(s.(queue := s.queue[1..]), s.queue[0], outcome))
  {
    match s.queue[0]
    case Start => StartKeeps(s, outcome.createFails, outcome.completionRaises);
    case Apply => ApplyKeeps(s, outcome.passedOn);
    case Step => StepKeeps(s, outcome.slice, outcome.completionRaises);
    case Foreign => ForeignKeeps(s);
  }

  lemma NextKeeps(s: State, event: Event)
    requires Inv(s)
    ensures Inv(Next(s, event))
  {
    match event
    case CallCancel => if !s.inert { PostKeeps(s, Apply); }
    case PostForeign => PostKeeps(s, Foreign);
    case Wake => WakeKeeps(s);
    case RunNext(outcome) =>
      if s.queue != [] {
        CallbackKeeps(s, outcome);
      }
  }

  lemma {:induction false} RunKeeps(s: State, events: seq<Event>)
    requires Inv(s)
    ensures Inv(Run(s, events))
    decreases |events|
  {
    if events != [] {
      NextKeeps(s, events[0]);
      RunKeeps(Next(s, events[0]), events[1..]);
    }
  }

  /**
    In every interleaving the completion is invoked at most once, and it has been exactly when
    the future was done from the start, its coroutine could not be created, or the awaitable took a
    step and the coroutine has ended.
   */
  lemma CompletesOnce(queue: seq<Callback>, done: bool, raises: bool, events: seq<Event>)
    requires OnlyForeign(queue)
    ensures var s := Run(Scheduled(queue, done, raises), events);
            s.completions <= 1
            && (s.completions == 1 <==> s.inert || s.failed || (s.stepped && s.task.Ended?))
  {
    ScheduledInv(queue, done, raises);
    RunKeeps(Scheduled(queue, done, raises), events);
  }

  /** When `Start` comes up no cancellation has been applied, so its own check never fires. */
  lemma StartFindsNoCancellation(queue: seq<Callback>, done: bool, raises: bool, events: seq<Event>)
    requires OnlyForeign(queue)
    ensures var s := Run(Scheduled(queue, done, raises), events);
            s.queue != [] && s.queue[0] == Start ==> !s.cancellationRequested && s.task.NoTask?
  {
    ScheduledInv(queue, done, raises);
    RunKeeps(Scheduled(queue, done, raises), events);
    InCount(Run(Scheduled(queue, done, raises), events).queue, Start);
  }

  lemma {:induction false} RunConcat(s: State, a: seq<Event>, b: seq<Event>)
    ensures Run(s, a + b) == Run(Run(s, a), b)
    decreases |a|
  {
    if a == [] {
      assert a + b == b;
    } else {
      assert (a + b)[1..] == a[1..] + b;
      RunConcat(Next(s, a[0]), a[1..], b);
    }
  }

  lemma {:induction false} EarlyStays(s: State, events: seq<Event>)
    ensures Run(s, events).inert == s.inert
    ensures s.cancelledEarly ==> Run(s, events).cancelledEarly
    decreases |events|
  {
    if events != [] {
      var s' := Next(s, events[0]);
      EarlyStays(s', events[1..]);
    }
  }

  lemma {:induction false} EarlyOnlyBeforeStart(s: State, events: seq<Event>) returns (i: nat)
    requires !s.cancelledEarly && Run(s, events).cancelledEarly
    ensures i < |events| && events[i] == CallCancel && !Run(s, events[..i]).started
    decreases |events|
  {
    var s' := Next(s, events[0]);
    if s'.cancelledEarly {
      i := 0;
      assert events[..0] == [];
    } else {
      var j := EarlyOnlyBeforeStart(s', events[1..]);
      i := j + 1;
      assert events[..i][0] == events[0] && events[..i][1..] == events[1..][..j];
    }
  }

  /** `cancel` was called, in this run, before the posted start had run. */
  ghost predicate CancelledBeforeStart(s: State, events: seq<Event>) {
    exists i :: 0 <= i < |events| && events[i] == CallCancel && !Run(s, events[..i]).started
  }

  /**
    Once the coroutine has ended or failed to be created: the awaitable was stepped exactly when no
    `cancel` was called before the posted start ran.  Before that, and whatever the
    interleaving, such a call means that the awaitable has not been stepped.
   */
  lemma SteppedUnlessCancelledEarly(queue: seq<Callback>, raises: bool, events: seq<Event>)
    requires OnlyForeign(queue)
    ensures var s0 := Scheduled(queue, false, raises);
            var s := Run(s0, events);
            && (CancelledBeforeStart(s0, events) ==> !s.stepped)
            && (s.task.Ended? ==> (s.stepped <==> !CancelledBeforeStart(s0, events)))
  {
    var s0 := Scheduled(queue, false, raises);
    ScheduledInv(queue, false, raises);
    RunKeeps(s0, events);
    if CancelledBeforeStart(s0, events) {
      var i :| 0 <= i < |events| && events[i] == CallCancel && !Run(s0, events[..i]).started;
      CancelMarksEarly(s0, events, i);
    } else if Run(s0, events).cancelledEarly {
      var i := EarlyOnlyBeforeStart(s0, events);
    }
  }

  lemma CancelMarksEarly(s0: State, events: seq<Event>, i: nat)
    requires !s0.inert && i < |events| && events[i] == CallCancel && !Run(s0, events[..i]).started
    ensures Run(s0, events).cancelledEarly
  {
    var rest := events[i..];
    assert events == events[..i] + rest && rest[0] == CallCancel;
    RunConcat(s0, events[..i], rest);
    EarlyStays(s0, events[..i]);
    EarlyStays(Next(Run(s0, events[..i]), CallCancel), rest[1..]);
  }

  // What the loop does with each callback.

  lemma CompleteMeans(s: State, raises: bool)
    ensures Complete(s, raises) == s.(completions := s.completions + 1,
                                      queue := s.queue + if raises then [Foreign] else [])
  {
  }

  /** The start posts the first slice of a new coroutine, or, if there can be none, completes. */
  lemma StartRuns(s: State, o: Outcome)
    requires s.queue != [] && s.queue[0] == Start
    ensures var r := Next(s, RunNext(o));
            && r.started && r.stepped == s.stepped && r.cancellationRequested == s.cancellationRequested
            && (if o.createFails then
                  && r.failed && r.task == s.task && r.completions == s.completions + 1
                  && r.queue == s.queue[1..] + if o.completionRaises then [Foreign] else []
                else
                  && r.failed == s.failed && r.task == Queued(false, s.cancellationRequested)
                  && r.completions == s.completions && r.queue == s.queue[1..] + [Step])
  {
    hide Complete;
    CompleteMeans(s.(queue := s.queue[1..], started := true, failed := true), o.completionRaises);
  }

  /**
    A cancellation marks a slice that is queued, and queues one for a coroutine that is parked,
    unless it was passed on to a task that the coroutine awaits; it reaches nothing else.
   */
  lemma CancellationReaches(s: State, o: Outcome)
    requires s.queue != [] && s.queue[0] == Apply
    ensures var r := Next(s, RunNext(o));
            && r.cancellationRequested && r.stepped == s.stepped && r.completions == s.completions
            && (s.task.Queued? ==> r.task == Queued(s.task.entered, true) && r.queue == s.queue[1..])
            && (s.task.Parked? && !o.passedOn ==> r.task == Queued(true, true) && r.queue == s.queue[1..] + [Step])
            && (s.task.Parked? && o.passedOn ==> r.task == Parked && r.queue == s.queue[1..])
            && (s.task.NoTask? || s.task.Ended? ==> r.task == s.task && r.queue == s.queue[1..])
  {
    hide RunStart, RunStep;
  }

  /** A slice parks the coroutine, queues the next, or ends it and completes; one cancelled unentered just ends it. */
  lemma SliceRuns(s: State, o: Outcome)
    requires s.queue != [] && s.queue[0] == Step && s.task.Queued?
    ensures var r := Next(s, RunNext(o));
            var rest := s.queue[1..];
            if s.task == Queued(false, true) then r == s.(queue := rest, task := Ended)
            else
              match o.slice
              case Suspends => r == s.(queue := rest, task := Parked, stepped := true)
              case Yields => r == s.(queue := rest + [Step], task := Queued(true, false), stepped := true)
              case Finishes => r == s.(queue := rest + if o.completionRaises then [Foreign] else [], task := Ended,
                                       stepped := true, completions := s.completions + 1)
  {
    hide Complete, RunStart, RunApply;
    CompleteMeans(s.(queue := s.queue[1..], stepped := true, task := Ended), o.completionRaises);
  }

  /** A wake-up queues the next slice of a coroutine that is parked, and does nothing to any other. */
  lemma WakeQueues(s: State)
    ensures var r := Next(s, Wake);
            && (s.task.Parked? ==> r == s.(task := Queued(true, false), queue := s.queue + [Step]))
            && (!s.task.Parked? ==> r == s)
  {
  }

  /** A cancellation that was called for has been applied, or waits in the queue. */
  ghost predicate CancelSeen(s: State) {
    s.cancellationRequested || Apply in s.queue
  }

  lemma PostSeen(s: State, callback: Callback)
    requires CancelSeen(s)
    ensures CancelSeen(Post(s, callback))
  {
  }

  lemma CompleteSeen(s: State, raises: bool)
    requires CancelSeen(s)
    ensures CancelSeen(Complete(s, raises))
  {
  }

  lemma StartSeen(s: State, createFails: bool, raises: bool)
    requires CancelSeen(s)
    ensures CancelSeen(RunStart(s, createFails, raises))
  {
    hide Post, Complete;
    CompleteSeen(s.(started := true, failed := true), raises);
    PostSeen(s.(started := true, task := Queued(false, s.cancellationRequested)), Step);
  }

  lemma StepSeen(s: State, slice: Slice, raises: bool)
    requires CancelSeen(s)
    ensures CancelSeen(RunStep(s, slice, raises))
  {
    hide Post, Complete;
    CompleteSeen(s.(stepped := true, task := Ended), raises);
    PostSeen(s.(stepped := true, task := Queued(true, false)), Step);
  }

  lemma CallbackSeen(s: State, callback: Callback, outcome: Outcome)
    requires callback == Apply || CancelSeen(s)
    ensures CancelSeen(RunCallback(s, callback, outcome))
  {
    match callback
    case Start =>
      hide RunStart;
      StartSeen(s, outcome.createFails, outcome.completionRaises);
    case Apply => assert RunApply(s, outcome.passedOn).cancellationRequested;
    case Step =>
      hide RunStep;
      StepSeen(s, outcome.slice, outcome.completionRaises);
    case Foreign =>
  }

  lemma CancelSeenNext(s: State, event: Event)
    requires CancelSeen(s)
    ensures CancelSeen(Next(s, event))
  {
    if event.RunNext? && s.queue != [] {
      hide RunCallback;
      assert s.queue == [s.queue[0]] + s.queue[1..];
      CallbackSeen(s.(queue := s.queue[1..]), s.queue[0], event.outcome);
    }
  }

  /** No call to cancel is lost, whatever comes between it and the loop. */
  lemma {:induction false} CancelIsNotLost(s: State, events: seq<Event>)
    requires !s.inert
    ensures CancelSeen(s) || CallCancel in events ==> CancelSeen(Run(s, events))
    decreases |events|
  {
    if events != [] {
      var s' := Next(s, events[0]);
      if CancelSeen(s) {
        CancelSeenNext(s, events[0]);
      }
      CancelIsNotLost(s', events[1..]);
    }
  }
}
