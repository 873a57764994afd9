/** A future that tells native code when it is cancelled and lets an awaiting caller flush first. */
module NativeFuture {
  import opened Wrappers

  datatype Status = Pending | Cancelled | Resolved | Failed

  /**
    `onCancel` says whether the cancel hook is still installed and `onAwait` which await hook is.
    The rest is history: how many await hooks have been installed (they are numbered in that
    order), how often the cancel hook ran, and which await hooks ran.
   */
  datatype Future = Future(status: Status, onCancel: bool, onAwait: Option<nat>,
                           installed: nat, cancelRuns: nat, awaitRuns: seq<nat>)

  const NEW_FUTURE := Future(Pending, true, None, 0, 0, [])

  /**
    Everything that may be done to a future, in any order; some of it the future refuses.  An
    exception may be one that the base class does not take, such as an object that is none.
   */
  datatype Op =
    | Cancel
    | SetResult
    | SetException(fit: bool)
    | Install
    | Await
    | Complete(raises: bool, fit: bool)

  predicate Done(f: Future) {
    !f.status.Pending?
  }

  /** Both setters drop the cancel hook before the base class refuses: a future that is done, or an exception unfit. */
  function Settle(f: Future, status: Status, fit: bool): Future {
    var f' := f.(onCancel := false);
    if Done(f) || !fit then f' else f'.(status := status)
  }

  function Do(f: Future, op: Op): Future {
    match op
    case Cancel =>
      if Done(f) then f
      else if f.onCancel then f.(status := Cancelled, onCancel := false, cancelRuns := f.cancelRuns + 1)
      else f.(status := Cancelled)
    case SetResult => Settle(f, Resolved, true)
    case SetException(fit) => Settle(f, Failed, fit)
    case Install =>
      if Done(f) then f else f.(onAwait := Some(f.installed), installed := f.installed + 1)
    case Await =>
      if f.onAwait.Some? && !Done(f) then f.(onAwait := None, awaitRuns := f.awaitRuns + [f.onAwait.value])
      else f.(onAwait := None)
    case Complete(raises, fit) =>
      if Done(f) then f else if raises then Settle(f, Failed, fit) else Settle(f, Resolved, true)
  }

  function DoAll(f: Future, ops: seq<Op>): Future
    decreases |ops|
  {
    if ops == [] then f else DoAll(Do(f, ops[0]), ops[1..])
  }

  ghost predicate Inv(f: Future) {
    && f.cancelRuns <= (if f.status.Cancelled? then 1 else 0)
    && (f.onCancel ==> f.status.Pending?)
    && (forall i | 0 <= i < |f.awaitRuns| :: f.awaitRuns[i] < f.installed)
    && (forall i, j | 0 <= i < j < |f.awaitRuns| :: f.awaitRuns[i] < f.awaitRuns[j])
    && (f.onAwait.Some? ==> f.onAwait.value < f.installed
                            && forall i | 0 <= i < |f.awaitRuns| :: f.awaitRuns[i] < f.onAwait.value)
  }

  /** Once a future is done it has its ending, and no hook runs any more. */
  ghost predicate Final(f: Future, g: Future) {
    Done(f) ==> g.status == f.status && g.cancelRuns == f.cancelRuns && g.awaitRuns == f.awaitRuns
  }

  lemma {:induction false} DoKeeps(f: Future, op: Op)
    requires Inv(f)
    ensures Inv(Do(f, op)) && Final(f, Do(f, op))
  {
  }

  lemma {:induction false} DoAllKeeps(f: Future, ops: seq<Op>)
    requires Inv(f)
    ensures Inv(DoAll(f, ops)) && Final(f, DoAll(f, ops))
    decreases |ops|
  {
    if ops != [] {
      DoKeeps(f, ops[0]);
      DoAllKeeps(Do(f, ops[0]), ops[1..]);
    }
  }

  /** An exception is refused although the future is pending: the cancel hook is gone all the same. */
  predicate Disarms(f: Future, op: Op) {
    !Done(f) && ((op.SetException? && !op.fit) || (op.Complete? && op.raises && !op.fit))
  }

  ghost predicate Disarmed(f: Future, ops: seq<Op>) {
    exists i :: 0 <= i < |ops| && Disarms(DoAll(f, ops[..i]), ops[i])
  }

  lemma {:induction false} DisarmedFirst(f: Future, ops: seq<Op>)
    requires ops != []
    ensures Disarmed(f, ops) <==> Disarms(f, ops[0]) || Disarmed(Do(f, ops[0]), ops[1..])
  {
    hide Do, Disarms;
    var f', rest := Do(f, ops[0]), ops[1..];
    assert ops[..0] == [] && DoAll(f, ops[..0]) == f;
    forall i | 0 <= i < |rest| ensures DoAll(f, ops[..i + 1]) == DoAll(f', rest[..i]) && ops[i + 1] == rest[i] {
      assert ops[..i + 1][0] == ops[0] && ops[..i + 1][1..] == rest[..i];
    }
    if Disarmed(f, ops) {
      var i :| 0 <= i < |ops| && Disarms(DoAll(f, ops[..i]), ops[i]);
      if i > 0 {
        assert Disarms(DoAll(f', rest[..i - 1]), rest[i - 1]);
      }
    }
    if Disarmed(f', rest) {
      var i :| 0 <= i < |rest| && Disarms(DoAll(f', rest[..i]), rest[i]);
      assert Disarms(DoAll(f, ops[..i + 1]), ops[i + 1]);
    }
  }

  /** From a pending future on, the hook that is there runs when it is cancelled, unless it was disarmed. */
  lemma {:induction false} HookRuns(f: Future, ops: seq<Op>)
    requires Inv(f) && !Done(f)
    ensures var g := DoAll(f, ops);
            && g.cancelRuns == (if g.status.Cancelled? && f.onCancel && !Disarmed(f, ops) then 1 else 0)
            && (!Done(g) ==> (g.onCancel <==> f.onCancel && !Disarmed(f, ops)))
    decreases |ops|
  {
    if ops != [] {
      var f', rest := Do(f, ops[0]), ops[1..];
      DisarmedFirst(f, ops);
      DoKeeps(f, ops[0]);
      DoAllKeeps(f', rest);
      if Done(f') {
        NotDisarmed(f', rest);
      } else {
        HookRuns(f', rest);
      }
    }
  }

  lemma {:induction false} NotDisarmed(f: Future, ops: seq<Op>)
    requires Inv(f) && Done(f)
    ensures !Disarmed(f, ops)
  {
    forall i | 0 <= i < |ops| ensures !Disarms(DoAll(f, ops[..i]), ops[i]) {
      DoAllKeeps(f, ops[..i]);
    }
  }

  /**
    Whatever is done to a future: the cancel hook has run once if the future ended cancelled and
    no exception had been refused while it was pending, and never otherwise; and no await hook
    has run twice.
   */
  lemma HooksRunOnce(ops: seq<Op>)
    ensures var f := DoAll(NEW_FUTURE, ops);
            && f.cancelRuns == (if f.status.Cancelled? && !Disarmed(NEW_FUTURE, ops) then 1 else 0)
            && forall i, j | 0 <= i < j < |f.awaitRuns| :: f.awaitRuns[i] != f.awaitRuns[j]
  {
    DoAllKeeps(NEW_FUTURE, ops);
    HookRuns(NEW_FUTURE, ops);
  }

  /** A refused exception takes the hook with it: the future ends cancelled and nobody is told. */
  lemma RefusedThenCancelled()
    ensures var ops := [SetException(false), Cancel];
            var f := DoAll(NEW_FUTURE, ops);
            f.status == Cancelled && f.cancelRuns == 0 && Disarmed(NEW_FUTURE, ops)
  {
    var ops := [SetException(false), Cancel];
    assert ops[1..] == [Cancel] && ops[1..][1..] == [];
    DisarmedFirst(NEW_FUTURE, ops);
  }

  /** Once a future is done nothing more happens to it: no other ending, no further hook. */
  lemma DoneIsFinal(ops: seq<Op>, more: seq<Op>)
    requires Done(DoAll(NEW_FUTURE, ops))
    ensures Final(DoAll(NEW_FUTURE, ops), DoAll(NEW_FUTURE, ops + more))
  {
    DoAllConcat(NEW_FUTURE, ops, more);
    DoAllKeeps(NEW_FUTURE, ops);
    DoAllKeeps(DoAll(NEW_FUTURE, ops), more);
  }

  lemma {:induction false} DoAllConcat(f: Future, a: seq<Op>, b: seq<Op>)
    ensures DoAll(f, a + b) == DoAll(DoAll(f, a), b)
    decreases |a|
  {
    if a == [] {
      assert a + b == b;
    } else {
      assert (a + b)[1..] == a[1..] + b;
      DoAllConcat(Do(f, a[0]), a[1..], b);
    }
  }

  /** The ending that an operation brings to a future that is pending. */
  function EndingOf(op: Op): Option<Status> {
    match op
    case Cancel => Some(Cancelled)
    case SetResult => Some(Resolved)
    case SetException(fit) => if fit then Some(Failed) else None
    case Install => None
    case Await => None
    case Complete(raises, fit) => if !raises then Some(Resolved) else if fit then Some(Failed) else None
  }

  /** The first operation that brings an ending. */
  ghost predicate EndsAt(ops: seq<Op>, i: int) {
    0 <= i < |ops| && EndingOf(ops[i]).Some? && forall j | 0 <= j < i :: EndingOf(ops[j]).None?
  }

  /** A future ends the way the first operation that can end it does, and stays pending without one. */
  lemma {:induction false} EndsByFirst(f: Future, ops: seq<Op>)
    requires Inv(f) && !Done(f)
    ensures (forall i :: !EndsAt(ops, i)) ==> DoAll(f, ops).status == Pending
    ensures forall i | EndsAt(ops, i) :: DoAll(f, ops).status == EndingOf(ops[i]).value
    decreases |ops|
  {
    if ops != [] {
      var f', rest := Do(f, ops[0]), ops[1..];
      DoKeeps(f, ops[0]);
      if EndingOf(ops[0]).Some? {
        DoAllKeeps(f', rest);
        assert EndsAt(ops, 0);
      } else {
        EndsByFirst(f', rest);
        assert forall i | EndsAt(rest, i) :: EndsAt(ops, i + 1);
        forall i | EndsAt(ops, i) ensures EndsAt(rest, i - 1) && rest[i - 1] == ops[i] {
          assert forall j | 0 <= j < i - 1 :: rest[j] == ops[j + 1];
        }
      }
    }
  }

  /** An operation that neither ends a future nor touches its await hook. */
  predicate Idle(op: Op) {
    EndingOf(op).None? && !op.Install? && !op.Await?
  }

  lemma {:induction false} IdleWaits(f: Future, ops: seq<Op>)
    requires !Done(f) && forall op | op in ops :: Idle(op)
    ensures var g := DoAll(f, ops);
            !Done(g) && g.onAwait == f.onAwait && g.awaitRuns == f.awaitRuns && g.installed == f.installed
    decreases |ops|
  {
    if ops != [] {
      assert ops[0] in ops;
      IdleWaits(Do(f, ops[0]), ops[1..]);
    }
  }

  /** The hook installed last runs at the next await of a future that is still pending, and at none after. */
  lemma LastHookRuns(f: Future, idle: seq<Op>, later: seq<Op>)
    requires !Done(f) && (forall op | op in idle :: Idle(op)) && forall op | op in later :: Idle(op)
    ensures var g := DoAll(f, [Install] + idle + [Await] + later + [Await]);
            g.awaitRuns == f.awaitRuns + [f.installed] && g.onAwait == None
  {
    var f1 := Do(f, Install);
    var f2 := DoAll(f1, idle);
    var f3 := Do(f2, Await);
    assert DoAll(f, [Install]) == f1 && DoAll(f2, [Await]) == f3;
    IdleWaits(f1, idle);
    IdleWaits(f3, later);
    DoAllConcat(f, [Install], idle);
    DoAllConcat(f, [Install] + idle, [Await]);
    DoAllConcat(f, [Install] + idle + [Await], later);
    DoAllConcat(f, [Install] + idle + [Await] + later, [Await]);
    assert DoAll(DoAll(f3, later), [Await]) == Do(DoAll(f3, later), Await);
  }

  /** The future itself, whose setters return false where the base class raises. */
  class NativeFuture {
    var status: Status
    var onCancel: bool
    var onAwait: Option<nat>
    var installed: nat
    ghost var cancelRuns: nat
    ghost var awaitRuns: seq<nat>

    ghost function View(): Future
      reads this
    {
      Future(status, onCancel, onAwait, installed, cancelRuns, awaitRuns)
    }

    ghost predicate Valid()
      reads this
    {
      Inv(View())
    }

    constructor ()
      ensures View() == NEW_FUTURE && Valid()
    {
      status, onCancel, onAwait := Pending, true, None;
      installed, cancelRuns, awaitRuns := 0, 0, [];
    }

    /** The base class cancels first; only then, and only once, does the hook run, if it is still there. */
    method Cancel() returns (cancelled: bool)
      requires Valid()
      modifies this
      ensures View() == Do(old(View()), Op.Cancel) && Valid() && Final(old(View()), View())
      ensures cancelled <==> old(status).Pending?
      ensures cancelled ==> status == Cancelled && cancelRuns == if old(onCancel) then 1 else 0
    {
      DoKeeps(View(), Op.Cancel);
      cancelled := status.Pending?;
      if cancelled {
        status := Cancelled;
        var hook := onCancel;
        onCancel := false;
        if hook {
          cancelRuns := cancelRuns + 1;
        }
      }
    }

    method SetResult() returns (accepted: bool)
      requires Valid()
      modifies this
      ensures View() == Do(old(View()), Op.SetResult) && Valid() && Final(old(View()), View())
      ensures (accepted <==> old(status).Pending?) && !onCancel && status == if accepted then Resolved else old(status)
    {
      DoKeeps(View(), Op.SetResult);
      onCancel := false;
      accepted := status.Pending?;
      if accepted {
        status := Resolved;
      }
    }

    /** An exception that is refused leaves a pending future pending, and without its cancel hook. */
    method SetException(fit: bool) returns (accepted: bool)
      requires Valid()
      modifies this
      ensures View() == Do(old(View()), Op.SetException(fit)) && Valid() && Final(old(View()), View())
      ensures accepted <==> old(status).Pending? && fit
      ensures !onCancel && (accepted ==> status == Failed) && (!accepted ==> status == old(status))
    {
      DoKeeps(View(), Op.SetException(fit));
      onCancel := false;
      accepted := status.Pending? && fit;
      if accepted {
        status := Failed;
      }
    }

    /** Install a hook for the first await; a future that is done is left alone. */
    method FlushBeforeAwaiting()
      requires Valid()
      modifies this
      ensures View() == Do(old(View()), Install) && Valid() && Final(old(View()), View())
      ensures old(status).Pending? ==> onAwait == Some(old(installed)) && onAwait.value !in awaitRuns
    {
      DoKeeps(View(), Install);
      if status.Pending? {
        onAwait := Some(installed);
        installed := installed + 1;
      }
    }

    /** The hook is taken out before it is considered, so it can never run again. */
    method Await() returns (flushed: bool)
      requires Valid()
      modifies this
      ensures View() == Do(old(View()), Op.Await) && Valid() && Final(old(View()), View())
      ensures onAwait.None? && (flushed <==> old(onAwait).Some? && old(status).Pending?)
      ensures flushed ==> old(onAwait).value !in old(awaitRuns)
      ensures awaitRuns == old(awaitRuns) + (if flushed then [old(onAwait).value] else []) && status == old(status)
    {
      DoKeeps(View(), Op.Await);
      var hook := onAwait;
      onAwait := None;
      flushed := hook.Some? && status.Pending?;
      if flushed {
        awaitRuns := awaitRuns + [hook.value];
      }
    }

    /** A future that is done is left alone; any other is settled, unless the exception is refused. */
    method CompleteFuture(raises: bool, fit: bool)
      requires Valid()
      modifies this
      ensures View() == Do(old(View()), Complete(raises, fit)) && Valid() && Final(old(View()), View())
      ensures old(status).Pending? ==>
                !onCancel && status == if !raises then Resolved else if fit then Failed else Pending
    {
      if !status.Pending? {
        return;
      }
      if raises {
        var _ := SetException(fit);
      } else {
        var _ := SetResult();
      }
    }

    method Handle(op: Op)
      requires Valid()
      modifies this
      ensures View() == Do(old(View()), op) && Valid() && Final(old(View()), View())
    {
      match op
      case Cancel =>
        var _ := Cancel();
      case SetResult =>
        var _ := SetResult();
      case SetException(fit) =>
        var _ := SetException(fit);
      case Install =>
        FlushBeforeAwaiting();
      case Await =>
        var _ := Await();
      case Complete(raises, fit) =>
        CompleteFuture(raises, fit);
    }
  }

  /**
    A future and whatever is done to it: how it ended, that its cancel hook ran once or never and
    which, that no await hook ran twice, and that its ending was the first there was.
   */
  method Operate(ops: seq<Op>) returns (status: Status, ghost cancelRuns: nat, ghost awaitRuns: seq<nat>)
    ensures status == DoAll(NEW_FUTURE, ops).status
    ensures cancelRuns == if status.Cancelled? && !Disarmed(NEW_FUTURE, ops) then 1 else 0
    ensures forall i, j | 0 <= i < j < |awaitRuns| :: awaitRuns[i] != awaitRuns[j]
    ensures forall n | 0 <= n <= |ops| && Done(DoAll(NEW_FUTURE, ops[..n])) ::
              status == DoAll(NEW_FUTURE, ops[..n]).status
    ensures (forall i :: !EndsAt(ops, i)) ==> status == Pending
    ensures forall i | EndsAt(ops, i) :: status == EndingOf(ops[i]).value
  {
    var future := new NativeFuture();
    for n := 0 to |ops|
      invariant fresh(future) && future.Valid() && future.View() == DoAll(NEW_FUTURE, ops[..n])
    {
      assert ops[..n + 1] == ops[..n] + [ops[n]];
      DoAllConcat(NEW_FUTURE, ops[..n], [ops[n]]);
      future.Handle(ops[n]);
    }
    assert ops[..|ops|] == ops;
    HooksRunOnce(ops);
    EndsByFirst(NEW_FUTURE, ops);
    forall n | 0 <= n <= |ops| && Done(DoAll(NEW_FUTURE, ops[..n]))
      ensures DoAll(NEW_FUTURE, ops).status == DoAll(NEW_FUTURE, ops[..n]).status
    {
      assert ops[..n] + ops[n..] == ops;
      DoneIsFinal(ops[..n], ops[n..]);
    }
    return future.status, future.cancelRuns, future.awaitRuns;
  }
}
