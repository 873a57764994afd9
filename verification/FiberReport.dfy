/** From the records in a target's memory to its deadlocks and parked stacks. */
module FiberReport {
  import opened Wrappers
  import opened WaitCycles

  datatype Fiber = Fiber(address: nat, id: nat, context: nat, joining: bool, waitObject: nat, waitOwner: nat)

  /** The last fiber before `n` that runs on a context.  A fiber without a context has 0. */
  ghost function LastOnContext(fibers: seq<Fiber>, n: nat, context: nat): Option<nat>
    requires n <= |fibers|
  {
    if n == 0 || context == 0 then None
    else if fibers[n - 1].context == context then Some(fibers[n - 1].id)
    else LastOnContext(fibers, n - 1, context)
  }

  ghost function LastAtAddress(fibers: seq<Fiber>, n: nat, address: nat): Option<nat>
    requires n <= |fibers|
  {
    if n == 0 then None
    else if fibers[n - 1].address == address then Some(fibers[n - 1].id)
    else LastAtAddress(fibers, n - 1, address)
  }

  /** The fiber that blocks one: the owner of what it waits on, or the fiber it joins. */
  ghost function Blocker(fibers: seq<Fiber>, fiber: Fiber): Option<nat> {
    var owner := LastOnContext(fibers, |fibers|, fiber.waitOwner);
    if owner.None? && fiber.joining then LastAtAddress(fibers, |fibers|, fiber.waitObject) else owner
  }

  /** A fiber blocked by another. */
  ghost predicate Blocked(fibers: seq<Fiber>, fiber: Fiber, other: int) {
    Blocker(fibers, fiber) == Some(other) && other != fiber.id
  }

  /** The last record of a fiber that runs on a context, and the last one at an address. */
  ghost predicate OwnsAt(fibers: seq<Fiber>, context: nat, i: int) {
    && 0 <= i < |fibers| && context != 0 && fibers[i].context == context
    && forall j | i < j < |fibers| :: fibers[j].context != context
  }

  ghost predicate LivesAt(fibers: seq<Fiber>, address: nat, i: int) {
    && 0 <= i < |fibers| && fibers[i].address == address
    && forall j | i < j < |fibers| :: fibers[j].address != address
  }

  lemma {:induction false} OwnerExactly(fibers: seq<Fiber>, n: nat, context: nat)
    requires n <= |fibers| && (context != 0 ==> forall j | n <= j < |fibers| :: fibers[j].context != context)
    ensures match LastOnContext(fibers, n, context)
            case None => forall i :: !OwnsAt(fibers, context, i)
            case Some(id) => exists i :: OwnsAt(fibers, context, i) && fibers[i].id == id
    decreases n
  {
    if n > 0 && context != 0 {
      if fibers[n - 1].context == context {
        assert OwnsAt(fibers, context, n - 1);
      } else {
        OwnerExactly(fibers, n - 1, context);
      }
    }
  }

  lemma {:induction false} TenantExactly(fibers: seq<Fiber>, n: nat, address: nat)
    requires n <= |fibers| && forall j | n <= j < |fibers| :: fibers[j].address != address
    ensures match LastAtAddress(fibers, n, address)
            case None => forall i :: !LivesAt(fibers, address, i)
            case Some(id) => exists i :: LivesAt(fibers, address, i) && fibers[i].id == id
    decreases n
  {
    if n > 0 {
      if fibers[n - 1].address == address {
        assert LivesAt(fibers, address, n - 1);
      } else {
        TenantExactly(fibers, n - 1, address);
      }
    }
  }

  /** A fiber is blocked by the owner of what it waits on, and without one, if it joins, by the one it joins. */
  lemma BlockerExactly(fibers: seq<Fiber>, fiber: Fiber, id: nat)
    ensures Blocker(fibers, fiber) == Some(id) <==>
              || (exists i :: OwnsAt(fibers, fiber.waitOwner, i) && fibers[i].id == id)
              || ((forall i :: !OwnsAt(fibers, fiber.waitOwner, i)) && fiber.joining
                  && exists i :: LivesAt(fibers, fiber.waitObject, i) && fibers[i].id == id)
  {
    OwnerExactly(fibers, |fibers|, fiber.waitOwner);
    TenantExactly(fibers, |fibers|, fiber.waitObject);
  }

  method IndexFibers(fibers: seq<Fiber>) returns (byContext: map<nat, nat>, byAddress: map<nat, nat>)
    ensures forall c :: (c in byContext <==> LastOnContext(fibers, |fibers|, c).Some?)
                        && (c in byContext ==> LastOnContext(fibers, |fibers|, c) == Some(byContext[c]))
    ensures forall a :: (a in byAddress <==> LastAtAddress(fibers, |fibers|, a).Some?)
                        && (a in byAddress ==> LastAtAddress(fibers, |fibers|, a) == Some(byAddress[a]))
  {
    byContext, byAddress := map[], map[];
    for n := 0 to |fibers|
      invariant forall c :: (c in byContext <==> LastOnContext(fibers, n, c).Some?)
                            && (c in byContext ==> LastOnContext(fibers, n, c) == Some(byContext[c]))
      invariant forall a :: (a in byAddress <==> LastAtAddress(fibers, n, a).Some?)
                            && (a in byAddress ==> LastAtAddress(fibers, n, a) == Some(byAddress[a]))
    {
      if fibers[n].context != 0 {
        byContext := byContext[fibers[n].context := fibers[n].id];
      }
      byAddress := byAddress[fibers[n].address := fibers[n].id];
    }
  }

  /** An edge for each id: that of the last of its records to be blocked by another fiber. */
  ghost predicate EdgesOf(fibers: seq<Fiber>, n: nat, waits: Waits)
    requires n <= |fibers|
  {
    && (forall id | id in waits ::
          exists i :: 0 <= i < n && fibers[i].id == id && Blocked(fibers, fibers[i], waits[id])
                      && forall j, other | i < j < n && fibers[j].id == id :: !Blocked(fibers, fibers[j], other))
    && (forall i, other | 0 <= i < n && Blocked(fibers, fibers[i], other) :: fibers[i].id in waits)
  }

  lemma EdgesGrow(fibers: seq<Fiber>, n: nat, waits: Waits)
    requires n < |fibers| && EdgesOf(fibers, n, waits)
    ensures var blocker := Blocker(fibers, fibers[n]);
            EdgesOf(fibers, n + 1, if blocker.Some? && blocker.value != fibers[n].id
                                   then waits[fibers[n].id := blocker.value] else waits)
  {
    var id, blocker := fibers[n].id, Blocker(fibers, fibers[n]);
    if blocker.Some? && blocker.value != id {
      var more := waits[id := blocker.value];
      forall x | x in more
        ensures exists i :: 0 <= i < n + 1 && fibers[i].id == x && Blocked(fibers, fibers[i], more[x])
                            && forall j, other | i < j < n + 1 && fibers[j].id == x ::
                                 !Blocked(fibers, fibers[j], other)
      {
        if x == id {
          assert Blocked(fibers, fibers[n], more[x]);
        } else {
          var i :| 0 <= i < n && fibers[i].id == x && Blocked(fibers, fibers[i], waits[x])
                   && forall j, other | i < j < n && fibers[j].id == x :: !Blocked(fibers, fibers[j], other);
        }
      }
    }
  }

  /** Who waits for whom, with the ids in the order they were first entered. */
  method BuildWaits(fibers: seq<Fiber>) returns (waits: Waits, order: seq<int>)
    ensures EdgesOf(fibers, |fibers|, waits) && Elements(order) == waits.Keys
  {
    var byContext, byAddress := IndexFibers(fibers);
    waits, order := map[], [];
    for n := 0 to |fibers|
      invariant EdgesOf(fibers, n, waits) && Elements(order) == waits.Keys
    {
      var fiber := fibers[n];
      var blocker := if fiber.waitOwner in byContext then Some(byContext[fiber.waitOwner]) else None;
      if blocker.None? && fiber.joining {
        blocker := if fiber.waitObject in byAddress then Some(byAddress[fiber.waitObject]) else None;
      }
      EdgesGrow(fibers, n, waits);
      if blocker.Some? && blocker.value != fiber.id {
        if fiber.id !in waits {
          order := order + [fiber.id];
        }
        waits := waits[fiber.id := blocker.value];
      }
    }
  }

  /** The deadlocks of a report: exactly the fibers that wait for themselves, through at least one other. */
  method Deadlocks(fibers: seq<Fiber>) returns (waits: Waits, cycles: seq<seq<int>>)
    ensures EdgesOf(fibers, |fibers|, waits)
    ensures forall c | 0 <= c < |cycles| :: IsCycle(waits, cycles[c]) && |cycles[c]| >= 2
    ensures forall c, d, x | 0 <= c < d < |cycles| && x in cycles[c] :: x !in cycles[d]
    ensures forall x :: OnCycle(waits, x) <==> exists c :: 0 <= c < |cycles| && x in cycles[c]
  {
    var order;
    waits, order := BuildWaits(fibers);
    ghost var pushed;
    cycles, pushed := FindCycles(waits, order);
    forall c | 0 <= c < |cycles| ensures |cycles[c]| >= 2 {
      var first := cycles[c][0];
      assert first in waits && waits[first] != first;
    }
  }

  const REGISTRY_LIMIT := 100_000

  /** Readable records linked as the registry links them, from `head` on. */
  ghost predicate IsChain(memory: map<nat, nat>, head: nat, chain: seq<nat>) {
    && (forall i | 0 <= i < |chain| :: chain[i] != 0 && chain[i] in memory)
    && (chain != [] ==> chain[0] == head)
    && (forall i | 0 < i < |chain| :: chain[i] == memory[chain[i - 1]])
  }

  /** What the registry links to after a chain of its records. */
  function NextInChain(memory: map<nat, nat>, head: nat, chain: seq<nat>): nat
    requires forall i | 0 <= i < |chain| :: chain[i] in memory
  {
    if chain == [] then head else memory[chain[|chain| - 1]]
  }

  ghost predicate NoRepeats(chain: seq<nat>) {
    forall i, j | 0 <= i < j < |chain| :: chain[i] != chain[j]
  }

  /** A chain in which nothing repeats is part of every complete list from the same head. */
  lemma {:induction false} ChainIsPrefix(memory: map<nat, nat>, head: nat, chain: seq<nat>, whole: seq<nat>, n: nat)
    requires IsChain(memory, head, chain) && IsChain(memory, head, whole) && NextInChain(memory, head, whole) == 0
    requires n <= |chain|
    ensures n <= |whole| && chain[..n] == whole[..n]
    decreases n
  {
    if n > 0 {
      ChainIsPrefix(memory, head, chain, whole, n - 1);
      assert NextInChain(memory, head, chain[..n - 1]) == chain[n - 1] && whole[..|whole|] == whole;
      if n > 1 {
        assert chain[..n - 1][n - 2] == whole[..n - 1][n - 2];
      }
      assert chain[..n] == chain[..n - 1] + [chain[n - 1]] && whole[..n] == whole[..n - 1] + [whole[n - 1]];
    }
  }

  /** A complete list repeats nothing: it would never end. */
  lemma {:induction false} WholeRepeatsNothing(memory: map<nat, nat>, head: nat, whole: seq<nat>, i: nat, j: nat)
    requires IsChain(memory, head, whole) && NextInChain(memory, head, whole) == 0 && i < j < |whole|
    ensures whole[i] != whole[j]
    decreases |whole| - j
  {
    assert whole[i + 1] == memory[whole[i]];
    if j + 1 < |whole| {
      WholeRepeatsNothing(memory, head, whole, i + 1, j + 1);
    }
  }

  /**
    Walk the registry.  What comes back is linked, readable and repeats nothing; the walk stops
    only at the end, at a repeat, at something unreadable or at the limit; and a complete
    readable list within the limit comes back whole.
   */
  method ReadRegistry(memory: map<nat, nat>, head: nat) returns (records: seq<nat>)
    ensures IsChain(memory, head, records) && NoRepeats(records) && |records| <= 100_000
    ensures var next := NextInChain(memory, head, records);
            next == 0 || next in records || next !in memory || |records| == 100_000
    ensures forall whole | IsChain(memory, head, whole) && NextInChain(memory, head, whole) == 0
                           && |whole| <= 100_000 :: records == whole
  {
    records := [];
    var seen: set<nat> := {};
    var address := head;
    while address != 0 && address !in seen && |records| < REGISTRY_LIMIT
      invariant IsChain(memory, head, records) && NoRepeats(records) && |records| <= REGISTRY_LIMIT
      invariant address == NextInChain(memory, head, records)
      invariant forall a :: a in seen <==> a in records
      decreases REGISTRY_LIMIT - |records|
    {
      if address !in memory {
        break;
      }
      seen := seen + {address};
      records := records + [address];
      address := memory[address];
    }
    forall whole | IsChain(memory, head, whole) && NextInChain(memory, head, whole) == 0 && |whole| <= REGISTRY_LIMIT
      ensures records == whole
    {
      StoppedAtEnd(memory, head, records, whole);
    }
  }

  lemma StoppedAtEnd(memory: map<nat, nat>, head: nat, records: seq<nat>, whole: seq<nat>)
    requires IsChain(memory, head, records) && |records| <= REGISTRY_LIMIT
    requires IsChain(memory, head, whole) && NextInChain(memory, head, whole) == 0 && |whole| <= REGISTRY_LIMIT
    requires var next := NextInChain(memory, head, records);
             next == 0 || next in records || next !in memory || |records| == REGISTRY_LIMIT
    ensures records == whole
  {
    ChainIsPrefix(memory, head, records, whole, |records|);
    assert records == whole[..|records|];
    if |records| < |whole| {
      var next := NextInChain(memory, head, records);
      assert whole[|records|] == next;
      if next in records {
        var i :| 0 <= i < |records| && records[i] == next;
        WholeRepeatsNothing(memory, head, whole, i, |records|);
      }
    }
  }

  const MAX_FRAMES := 128
  const FALLBACK_SPAN_LIMIT := 16 * 1024 * 1024

  datatype Frame = Frame(next: nat, returnAddress: nat)

  datatype Stack = Stack(parked: bool, waitFp: nat, stackLo: nat, stackHi: nat)

  /** The bits of a word that address memory: on ARM the top byte does not. */
  function Masked(word: nat, arm: bool): nat {
    if arm then word % 0x100_0000_0000_0000 else word % 0x1_0000_0000_0000_0000
  }

  predicate Aligned(frame: nat, arm: bool) {
    if arm then frame % 16 == 0 else frame % 8 == 0
  }

  /** A frame worth reading: aligned, above the one before it, and inside the stack or near enough. */
  predicate Plausible(stack: Stack, arm: bool, previous: nat, frame: nat) {
    var low, high := Masked(stack.stackLo, arm), Masked(stack.stackHi, arm);
    && frame != 0 && Aligned(frame, arm) && previous < frame
    && (if low != 0 || high != 0 then low <= frame && frame + 16 <= high else frame - previous < FALLBACK_SPAN_LIMIT)
  }

  /** Frames read one after the other, each where the one before points to. */
  ghost predicate IsUnwinding(memory: map<nat, Frame>, stack: Stack, arm: bool, frames: seq<nat>) {
    && (forall i | 0 <= i < |frames| :: frames[i] in memory && memory[frames[i]].returnAddress != 0)
    && (frames != [] ==> frames[0] == Masked(stack.waitFp, arm) && Plausible(stack, arm, 0, frames[0]))
    && (forall i | 0 < i < |frames| ::
          frames[i] == Masked(memory[frames[i - 1]].next, arm) && Plausible(stack, arm, frames[i - 1], frames[i]))
  }

  /** The frame before the next, and where the unwinding would go on. */
  function Previous(frames: seq<nat>): nat {
    if frames == [] then 0 else frames[|frames| - 1]
  }

  function NextFrame(memory: map<nat, Frame>, stack: Stack, arm: bool, frames: seq<nat>): nat
    requires frames == [] || frames[|frames| - 1] in memory
  {
    Masked(if frames == [] then stack.waitFp else memory[frames[|frames| - 1]].next, arm)
  }

  /** Why an unwinding can go no further. */
  ghost predicate Stuck(memory: map<nat, Frame>, stack: Stack, arm: bool, frames: seq<nat>)
    requires frames == [] || frames[|frames| - 1] in memory
  {
    var next := NextFrame(memory, stack, arm, frames);
    !Plausible(stack, arm, Previous(frames), next) || next !in memory || memory[next].returnAddress == 0
  }

  lemma UnwindingExtends(memory: map<nat, Frame>, stack: Stack, arm: bool, frames: seq<nat>)
    requires IsUnwinding(memory, stack, arm, frames) && !Stuck(memory, stack, arm, frames)
    ensures IsUnwinding(memory, stack, arm, frames + [NextFrame(memory, stack, arm, frames)])
  {
    var longer := frames + [NextFrame(memory, stack, arm, frames)];
    assert forall i | 0 <= i < |frames| :: longer[i] == frames[i];
  }

  /** Frames are read upwards, so none twice. */
  lemma {:induction false} UnwindingClimbs(memory: map<nat, Frame>, stack: Stack, arm: bool, frames: seq<nat>,
                                           i: nat, j: nat)
    requires IsUnwinding(memory, stack, arm, frames) && i < j < |frames|
    ensures frames[i] < frames[j]
    decreases j
  {
    assert frames[j - 1] < frames[j];
    if i < j - 1 {
      UnwindingClimbs(memory, stack, arm, frames, i, j - 1);
    }
  }

  predicate BoundsUnknown(stack: Stack, arm: bool) {
    Masked(stack.stackLo, arm) == 0 && Masked(stack.stackHi, arm) == 0
  }

  /**
    With unknown bounds the span is measured from address 0 on, so the first frame has to lie in the
    lowest 16 MiB, and each further one within as much of the one before.
   */
  lemma {:induction false} UnboundedFramesAreLow(memory: map<nat, Frame>, stack: Stack, arm: bool, frames: seq<nat>,
                                                 i: nat)
    requires IsUnwinding(memory, stack, arm, frames) && BoundsUnknown(stack, arm) && i < |frames|
    ensures frames[i] < (i + 1) * FALLBACK_SPAN_LIMIT
    decreases i
  {
    if i > 0 {
      UnboundedFramesAreLow(memory, stack, arm, frames, i - 1);
      assert Plausible(stack, arm, frames[i - 1], frames[i]);
    }
  }

  /** Unwindings of one stack agree as far as they both go. */
  lemma {:induction false} OneUnwinding(memory: map<nat, Frame>, stack: Stack, arm: bool,
                                        a: seq<nat>, b: seq<nat>, n: nat)
    requires IsUnwinding(memory, stack, arm, a) && IsUnwinding(memory, stack, arm, b)
    requires n <= |a| && n <= |b|
    ensures a[..n] == b[..n]
    decreases n
  {
    if n > 0 {
      OneUnwinding(memory, stack, arm, a, b, n - 1);
      if n > 1 {
        assert a[..n - 1][n - 2] == b[..n - 1][n - 2];
      }
      assert a[..n] == a[..n - 1] + [a[n - 1]] && b[..n] == b[..n - 1] + [b[n - 1]];
    }
  }

  /** What part of a word addresses memory: 56 bits of it on ARM, all 64 elsewhere. */
  ghost function AddressOf(word: nat, arm: bool): nat {
    word % (if arm then 0x100_0000_0000_0000 else 0x1_0000_0000_0000_0000)
  }

  /** Where a frame can be: aligned, and inside the recorded bounds if either of them is. */
  ghost predicate InStack(stack: Stack, arm: bool, frame: nat) {
    var low, high := AddressOf(stack.stackLo, arm), AddressOf(stack.stackHi, arm);
    && frame % (if arm then 16 else 8) == 0
    && (low != 0 || high != 0 ==> low <= frame && frame + 16 <= high)
  }

  /** Too far from the frame before it, for a stack of which nothing is recorded. */
  ghost predicate TooFar(stack: Stack, arm: bool, previous: nat, frame: nat) {
    AddressOf(stack.stackLo, arm) == 0 && AddressOf(stack.stackHi, arm) == 0 && frame >= previous + 0x100_0000
  }

  lemma PlausibleExactly(stack: Stack, arm: bool, previous: nat, frame: nat)
    ensures Plausible(stack, arm, previous, frame) <==>
              frame > previous && InStack(stack, arm, frame) && !TooFar(stack, arm, previous, frame)
  {
  }

  /** A frame where the one before it points to, or the recorded one, and one that can be there. */
  ghost predicate Follows(memory: map<nat, Frame>, stack: Stack, arm: bool, frames: seq<nat>, i: nat)
    requires i < |frames| && (i > 0 ==> frames[i - 1] in memory)
  {
    && frames[i] == AddressOf(if i == 0 then stack.waitFp else memory[frames[i - 1]].next, arm)
    && InStack(stack, arm, frames[i]) && !TooFar(stack, arm, if i == 0 then 0 else frames[i - 1], frames[i])
  }

  /** Nothing to go on to: no frame, none above the last, none that can be there, or none that can be read. */
  ghost predicate Halts(memory: map<nat, Frame>, stack: Stack, arm: bool, last: nat, next: nat) {
    || next == 0 || next <= last || !InStack(stack, arm, next) || TooFar(stack, arm, last, next)
    || next !in memory || memory[next].returnAddress == 0
  }

  lemma UnwindingFollows(memory: map<nat, Frame>, stack: Stack, arm: bool, frames: seq<nat>)
    requires IsUnwinding(memory, stack, arm, frames)
    ensures forall i | 0 <= i < |frames| :: Follows(memory, stack, arm, frames, i)
  {
    forall i | 0 <= i < |frames| ensures Follows(memory, stack, arm, frames, i) {
      PlausibleExactly(stack, arm, if i == 0 then 0 else frames[i - 1], frames[i]);
    }
  }

  lemma StuckHalts(memory: map<nat, Frame>, stack: Stack, arm: bool, frames: seq<nat>)
    requires frames == [] || frames[|frames| - 1] in memory
    ensures var last := if frames == [] then 0 else frames[|frames| - 1];
            var next := AddressOf(if frames == [] then stack.waitFp else memory[last].next, arm);
            Stuck(memory, stack, arm, frames) ==> Halts(memory, stack, arm, last, next)
  {
    PlausibleExactly(stack, arm, Previous(frames), NextFrame(memory, stack, arm, frames));
  }

  /**
    Unwind a parked stack whatever its memory holds: the addresses are those of plausible frames
    read in order, at most 128 of them, and the walk stops short of that only when stuck.
   */
  method WalkFrames(memory: map<nat, Frame>, stack: Stack, arm: bool) returns (pcs: seq<nat>, ghost frames: seq<nat>)
    ensures |pcs| == |frames| <= 128 && IsUnwinding(memory, stack, arm, frames)
    ensures forall i | 0 <= i < |pcs| :: pcs[i] == memory[frames[i]].returnAddress
    ensures forall i | 0 <= i < |frames| :: Follows(memory, stack, arm, frames, i)
    ensures forall i, j | 0 <= i < j < |frames| :: frames[i] < frames[j]
    ensures !stack.parked || stack.waitFp == 0 ==> pcs == []
    ensures stack.parked && stack.waitFp != 0 && |pcs| < 128 ==>
              var last := if frames == [] then 0 else frames[|frames| - 1];
              var next := AddressOf(if frames == [] then stack.waitFp else memory[last].next, arm);
              Halts(memory, stack, arm, last, next)
    ensures BoundsUnknown(stack, arm) && Masked(stack.waitFp, arm) >= FALLBACK_SPAN_LIMIT ==> pcs == []
  {
    hide Follows, Halts, AddressOf, Plausible;
    pcs, frames := [], [];
    if !stack.parked || stack.waitFp == 0 {
      return;
    }
    var previous, frame := 0, Masked(stack.waitFp, arm);
    while |pcs| < MAX_FRAMES
      invariant |pcs| == |frames| <= MAX_FRAMES && IsUnwinding(memory, stack, arm, frames)
      invariant previous == Previous(frames) && frame == NextFrame(memory, stack, arm, frames)
      invariant forall i | 0 <= i < |pcs| :: pcs[i] == memory[frames[i]].returnAddress
    {
      if !Plausible(stack, arm, previous, frame) || frame !in memory {
        break;
      }
      var read := memory[frame];
      if read.returnAddress == 0 {
        break;
      }
      UnwindingExtends(memory, stack, arm, frames);
      pcs, frames := pcs + [read.returnAddress], frames + [frame];
      previous, frame := frame, Masked(read.next, arm);
    }
    forall i, j | 0 <= i < j < |frames| ensures frames[i] < frames[j] {
      UnwindingClimbs(memory, stack, arm, frames, i, j);
    }
    UnwindingFollows(memory, stack, arm, frames);
    StuckHalts(memory, stack, arm, frames);
    if BoundsUnknown(stack, arm) && frames != [] {
      UnboundedFramesAreLow(memory, stack, arm, frames, 0);
    }
  }
}
