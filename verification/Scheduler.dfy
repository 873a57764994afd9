/** The closures that schedule one awaitable, updating what they share as their callbacks run. */
module Scheduler {
  import opened Scheduling

  /** The state before the loop took a callback off the head of its queue. */
  function Untaken(s: State, callback: Callback): State {
    s.(queue := [callback] + s.queue)
  }

  lemma StartTaken(s: State, createFails: bool, completionRaises: bool)
    requires Inv(Untaken(s, Start))
    ensures Inv(RunStart(s, createFails, completionRaises))
    ensures !s.cancellationRequested && s.completions == 0
  {
    assert Untaken(s, Start).queue[1..] == s.queue;
    StartKeeps(Untaken(s, Start), createFails, completionRaises);
    InCount(Untaken(s, Start).queue, Start);
  }

  lemma ApplyTaken(s: State, passedOn: bool)
    requires Inv(Untaken(s, Apply))
    ensures Inv(RunApply(s, passedOn)) && s.started
  {
    assert Untaken(s, Apply).queue[1..] == s.queue;
    ApplyKeeps(Untaken(s, Apply), passedOn);
    InCount(Untaken(s, Apply).queue, Start);
  }

  lemma StepTaken(s: State, slice: Slice, completionRaises: bool)
    requires Inv(Untaken(s, Step))
    ensures var r := RunStep(s, slice, completionRaises);
            && Inv(r) && (r.cancelledEarly ==> !r.stepped)
            && r.completions == if r.stepped && r.task.Ended? then 1 else 0
    ensures s.task.Queued?
  {
    assert Untaken(s, Step).queue[1..] == s.queue;
    StepKeeps(Untaken(s, Step), slice, completionRaises);
    InCount(Untaken(s, Step).queue, Step);
  }

  class Schedule {
    var queue: seq<Callback>
    var task: Task
    var cancellationRequested: bool
    const inert: bool
    ghost var started: bool
    ghost var failed: bool
    ghost var stepped: bool
    ghost var cancelledEarly: bool
    ghost var completions: nat

    ghost function View(): State
      reads this
    {
      State(queue, task, cancellationRequested, inert, started, failed, stepped, cancelledEarly, completions)
    }

    ghost predicate Valid()
      reads this
    {
      Inv(View())
    }

    /** The loop has just taken this callback off the head of its queue. */
    ghost predicate Taken(callback: Callback)
      reads this
    {
      Inv(Untaken(View(), callback))
    }

    /** A future that is done is consumed at once; anything else is posted. */
    constructor (ready: seq<Callback>, done: bool, completionRaises: bool)
      requires OnlyForeign(ready)
      ensures View() == Scheduled(ready, done, completionRaises) && Valid()
      ensures completions == if done then 1 else 0
    {
      queue, task, cancellationRequested, inert := ready, NoTask, false, done;
      started, failed, stepped, cancelledEarly, completions := false, false, false, false, 0;
      new;
      ScheduledInv(ready, done, completionRaises);
      if done {
        InvokeCompletion(completionRaises);
      } else {
        queue := queue + [Start];
      }
    }

    method InvokeCompletion(raises: bool)
      modifies this
      ensures View() == Complete(old(View()), raises)
    {
      completions := completions + 1;
      if raises {
        queue := queue + [Foreign];
      }
    }

    /** The callable handed back: it posts, whichever thread it is called on, and steps nothing itself. */
    method Cancel()
      requires Valid()
      modifies this
      ensures View() == Next(old(View()), CallCancel) && Valid()
      ensures task == old(task) && stepped == old(stepped) && completions == old(completions)
      ensures !inert && !started ==> cancelledEarly
    {
      NextKeeps(View(), CallCancel);
      if !inert {
        cancelledEarly := cancelledEarly || !started;
        queue := queue + [Apply];
      }
    }

    /** Anybody else's callback is posted. */
    method PostOther()
      requires Valid()
      modifies this
      ensures View() == Next(old(View()), PostForeign) && Valid()
    {
      NextKeeps(View(), PostForeign);
      queue := queue + [Foreign];
    }

    /** What a parked coroutine waits on comes about. */
    method WakeTask()
      requires Valid()
      modifies this
      ensures View() == Next(old(View()), Wake) && Valid()
    {
      NextKeeps(View(), Wake);
      if task.Parked? {
        task, queue := Queued(true, false), queue + [Step];
      }
    }

    /** The coroutine's own cancellation, as the loop library defines it. */
    method CancelTask(passedOn: bool)
      modifies this`task, this`queue
      ensures task == RunApply(old(View()), passedOn).task && queue == RunApply(old(View()), passedOn).queue
    {
      if task.Queued? {
        task := Queued(task.entered, true);
      } else if task.Parked? && !passedOn {
        task, queue := Queued(true, true), queue + [Step];
      }
    }

    /** A posted cancellation comes up: the start has run by then. */
    method ApplyCancellation(passedOn: bool)
      requires Taken(Apply)
      modifies this
      ensures View() == RunApply(old(View()), passedOn) && Valid()
      ensures started && cancellationRequested && stepped == old(stepped) && completions == old(completions)
    {
      hide Inv;
      ApplyTaken(View(), passedOn);
      cancellationRequested := true;
      CancelTask(passedOn);
    }

    /** The posted start comes up: no cancellation has been applied, so the coroutine starts uncancelled. */
    method StartTask(createFails: bool, completionRaises: bool)
      requires Taken(Start)
      modifies this
      ensures View() == RunStart(old(View()), createFails, completionRaises) && Valid()
      ensures if createFails then failed && completions == 1 else task == Queued(false, false) && completions == 0
    {
      hide Inv;
      StartTaken(View(), createFails, completionRaises);
      started := true;
      if createFails {
        failed := true;
        InvokeCompletion(completionRaises);
        return;
      }
      task, queue := Queued(false, false), queue + [Step];
      CancelIfRequested();
    }

    /** The check the start makes after creating the coroutine. */
    method CancelIfRequested()
      modifies this`task, this`queue
      ensures var s := if cancellationRequested then RunApply(old(View()), false) else old(View());
              task == s.task && queue == s.queue
    {
      if cancellationRequested {
        CancelTask(false);
      }
    }

    /** A slice of the wrapper: the completion is invoked as it finishes, and not before. */
    method StepTask(slice: Slice, completionRaises: bool)
      requires Taken(Step)
      modifies this
      ensures View() == RunStep(old(View()), slice, completionRaises) && Valid()
      ensures cancelledEarly ==> !stepped
      ensures completions == if stepped && task.Ended? then 1 else 0
    {
      hide Inv;
      StepTaken(View(), slice, completionRaises);
      if !task.entered && task.mustCancel {
        task := Ended;
        return;
      }
      stepped := true;
      match slice
      case Suspends =>
        task := Parked;
      case Yields =>
        task, queue := Queued(true, false), queue + [Step];
      case Finishes =>
        task := Ended;
        InvokeCompletion(completionRaises);
    }

    method RunOne(callback: Callback, outcome: Outcome)
      requires Taken(callback)
      modifies this
      ensures View() == RunCallback(old(View()), callback, outcome) && Valid()
    {
      match callback
      case Start =>
        StartTask(outcome.createFails, outcome.completionRaises);
      case Apply =>
        ApplyCancellation(outcome.passedOn);
      case Step =>
        StepTask(outcome.slice, outcome.completionRaises);
      case Foreign =>
    }

    /** The loop takes the callback at the head of its queue. */
    method RunHead(outcome: Outcome)
      requires Valid()
      modifies this
      ensures View() == Next(old(View()), RunNext(outcome)) && Valid()
    {
      if queue != [] {
        var head := queue[0];
        assert [head] + queue[1..] == queue;
        queue := queue[1..];
        RunOne(head, outcome);
      }
    }

    method Handle(event: Event)
      requires Valid()
      modifies this
      ensures View() == Next(old(View()), event) && Valid()
    {
      match event
      case CallCancel =>
        Cancel();
      case PostForeign =>
        PostOther();
      case Wake =>
        WakeTask();
      case RunNext(outcome) =>
        RunHead(outcome);
    }
  }

  /**
    One awaitable scheduled, and then any interleaving of what the threads and the loop do.  Its
    completion is invoked at most once, and has been exactly when the future was done from the
    start, its coroutine could not be created, or it was stepped and has ended; and it was stepped,
    once it has ended, exactly when nobody cancelled before the posted start ran.
   */
  method RunInterleaving(ready: seq<Callback>, done: bool, raises: bool, events: seq<Event>)
    returns (task: Task, ghost failed: bool, ghost stepped: bool, ghost completions: nat)
    requires OnlyForeign(ready)
    ensures task == Run(Scheduled(ready, done, raises), events).task
    ensures completions <= 1 && (completions == 1 <==> done || failed || (stepped && task.Ended?))
    ensures done || failed ==> task.NoTask? && !stepped
    ensures !done ==>
              var early := CancelledBeforeStart(Scheduled(ready, false, raises), events);
              (early ==> !stepped) && (task.Ended? ==> (stepped <==> !early))
  {
    var schedule := new Schedule(ready, done, raises);
    ghost var first := Scheduled(ready, done, raises);
    for n := 0 to |events|
      invariant fresh(schedule) && schedule.Valid() && schedule.inert == done
      invariant schedule.View() == Run(first, events[..n])
    {
      assert events[..n + 1] == events[..n] + [events[n]];
      RunConcat(first, events[..n], [events[n]]);
      schedule.Handle(events[n]);
    }
    assert events[..|events|] == events;
    CompletesOnce(ready, done, raises, events);
    SteppedUnlessCancelledEarly(ready, raises, events);
    return schedule.task, schedule.failed, schedule.stepped, schedule.completions;
  }
}
