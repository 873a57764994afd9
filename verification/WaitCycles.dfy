/** Finding deadlocks: the cycles of a map from each blocked fiber to the one it waits for. */
module WaitCycles {
  import opened Wrappers

  type Waits = map<int, int>

  /** Where `steps` waits lead from a fiber. */
  ghost function Follow(waits: Waits, fiber: int, steps: nat): Option<int>
    decreases steps
  {
    if steps == 0 then Some(fiber)
    else if fiber in waits then Follow(waits, waits[fiber], steps - 1)
    else None
  }

  /** A fiber that, through others, waits for itself. */
  ghost predicate OnCycle(waits: Waits, fiber: int) {
    exists steps: nat :: steps > 0 && Follow(waits, fiber, steps) == Some(fiber)
  }

  predicate Distinct(s: seq<int>) {
    forall i, j | 0 <= i < j < |s| :: s[i] != s[j]
  }

  /** The fiber after the `i`th, where `end` comes after the last. */
  function After(path: seq<int>, end: int, i: nat): int
    requires i < |path|
  {
    if i + 1 < |path| then path[i + 1] else end
  }

  /** Distinct fibers, each waiting for the next and the last for the first. */
  predicate IsCycle(waits: Waits, cycle: seq<int>) {
    |cycle| > 0 && Distinct(cycle)
    && forall i | 0 <= i < |cycle| ::
         cycle[i] in waits && waits[cycle[i]] == After(cycle, cycle[0], i)
  }

  /** Fibers that lead nowhere else. */
  ghost predicate Trap(waits: Waits, fibers: set<int>) {
    forall f | f in fibers && f in waits :: waits[f] in fibers
  }

  lemma {:induction false} FollowAdds(waits: Waits, fiber: int, a: nat, b: nat)
    requires Follow(waits, fiber, a).Some?
    ensures Follow(waits, fiber, a + b) == Follow(waits, Follow(waits, fiber, a).value, b)
    decreases a
  {
    if a > 0 {
      FollowAdds(waits, waits[fiber], a - 1, b);
    }
  }

  lemma {:induction false} FollowTrapped(waits: Waits, fibers: set<int>, fiber: int, steps: nat)
    requires Trap(waits, fibers) && fiber in fibers && Follow(waits, fiber, steps).Some?
    ensures Follow(waits, fiber, steps).value in fibers
    decreases steps
  {
    if steps > 0 {
      FollowTrapped(waits, fibers, waits[fiber], steps - 1);
    }
  }

  lemma {:induction false} FollowRounds(waits: Waits, fiber: int, steps: nat, rounds: nat)
    requires Follow(waits, fiber, steps) == Some(fiber)
    ensures Follow(waits, fiber, steps * rounds) == Some(fiber)
    decreases rounds
  {
    if rounds > 0 {
      FollowRounds(waits, fiber, steps, rounds - 1);
      FollowAdds(waits, fiber, steps, steps * (rounds - 1));
      assert steps + steps * (rounds - 1) == steps * rounds;
    }
  }

  /** A fiber outside a trap that it leads into is on no cycle. */
  lemma LeadsIntoTrap(waits: Waits, fibers: set<int>, fiber: int, steps: nat)
    requires Trap(waits, fibers) && fiber !in fibers
    requires Follow(waits, fiber, steps).Some? && Follow(waits, fiber, steps).value in fibers
    ensures !OnCycle(waits, fiber)
  {
    if OnCycle(waits, fiber) {
      var round: nat :| round > 0 && Follow(waits, fiber, round) == Some(fiber);
      FollowRounds(waits, fiber, round, steps);
      var rest := round * steps - steps;
      assert rest >= 0;
      FollowAdds(waits, fiber, steps, rest);
      FollowTrapped(waits, fibers, Follow(waits, fiber, steps).value, rest);
    }
  }

  /** Every fiber of a cycle waits for itself. */
  lemma CycleReturns(waits: Waits, cycle: seq<int>, i: nat)
    requires IsCycle(waits, cycle) && i < |cycle|
    ensures OnCycle(waits, cycle[i])
  {
    FollowAlong(waits, cycle, i, |cycle| - i);
    FollowAlong(waits, cycle, 0, i);
    FollowAdds(waits, cycle[i], |cycle| - i, i);
    assert Follow(waits, cycle[i], |cycle|) == Some(cycle[i]);
  }

  lemma {:induction false} FollowAlong(waits: Waits, cycle: seq<int>, i: nat, steps: nat)
    requires IsCycle(waits, cycle) && i < |cycle| && i + steps <= |cycle|
    ensures Follow(waits, cycle[i], steps) == Some(cycle[if i + steps < |cycle| then i + steps else 0])
    decreases steps
  {
    if steps == 0 {
    } else if i + 1 < |cycle| {
      FollowAlong(waits, cycle, i + 1, steps - 1);
    }
  }

  /** A walk: distinct fibers not seen before, each waiting for the next. */
  ghost predicate IsWalk(waits: Waits, path: seq<int>, next: int, done: set<int>) {
    && Distinct(path)
    && (forall i | 0 <= i < |path| :: path[i] in waits && path[i] !in done)
    && (forall i | 0 <= i < |path| :: waits[path[i]] == After(path, next, i))
  }

  lemma {:induction false} FollowWalk(waits: Waits, path: seq<int>, next: int, done: set<int>, i: nat, j: nat)
    requires IsWalk(waits, path, next, done) && i <= j <= |path|
    ensures i < |path| ==> Follow(waits, path[i], j - i) == Some(if j < |path| then path[j] else next)
    decreases j - i
  {
    if i < j && i + 1 < |path| {
      FollowWalk(waits, path, next, done, i + 1, j);
    }
  }

  function Elements(s: seq<int>): set<int> {
    set x | x in s
  }

  /** A walk that ends in a trap outside itself has met no cycle. */
  lemma WalkIntoTrap(waits: Waits, path: seq<int>, next: int, done: set<int>, trap: set<int>)
    requires IsWalk(waits, path, next, done) && Trap(waits, trap) && next in trap
    requires forall x | x in path :: x !in trap
    ensures forall x | x in path :: !OnCycle(waits, x)
  {
    forall x | x in path ensures !OnCycle(waits, x) {
      var i :| 0 <= i < |path| && path[i] == x;
      FollowWalk(waits, path, next, done, i, |path|);
      LeadsIntoTrap(waits, trap, x, |path| - i);
    }
  }

  lemma BeforeCycle(waits: Waits, path: seq<int>, next: int, done: set<int>, from: nat, i: nat)
    requires IsWalk(waits, path, next, done) && i < from < |path| && path[from] == next
    ensures path[i] !in path[from..] && !OnCycle(waits, path[i])
  {
    var cycle := path[from..];
    FollowWalk(waits, path, next, done, i, from);
    assert cycle[0] == path[from];
    LeadsIntoTrap(waits, Elements(cycle), path[i], from - i);
  }

  lemma WithinCycle(waits: Waits, path: seq<int>, next: int, done: set<int>, from: nat, i: nat)
    requires IsWalk(waits, path, next, done) && from <= i < |path| && path[from] == next
    ensures path[i] in path[from..] && OnCycle(waits, path[i])
  {
    assert path[from..][i - from] == path[i];
    CycleReturns(waits, path[from..], i - from);
  }

  /** A walk that returns to itself closes a cycle, and only the fibers of that are on one. */
  lemma WalkCloses(waits: Waits, path: seq<int>, next: int, done: set<int>, from: nat)
    requires IsWalk(waits, path, next, done) && from < |path| && path[from] == next
    ensures IsCycle(waits, path[from..])
    ensures forall x | x in path :: OnCycle(waits, x) <==> x in path[from..]
  {
    forall x | x in path ensures OnCycle(waits, x) <==> x in path[from..] {
      var i :| 0 <= i < |path| && path[i] == x;
      if i < from {
        BeforeCycle(waits, path, next, done, from, i);
      } else {
        WithinCycle(waits, path, next, done, from, i);
      }
    }
  }

  /** The cycles found are cycles, share no fiber, and hold every fiber of `done` that is on one. */
  ghost predicate CyclesOf(waits: Waits, cycles: seq<seq<int>>, done: set<int>) {
    && (forall c | 0 <= c < |cycles| :: IsCycle(waits, cycles[c]) && forall x | x in cycles[c] :: x in done)
    && (forall c, d, x | 0 <= c < d < |cycles| && x in cycles[c] :: x !in cycles[d])
    && (forall x | x in done :: OnCycle(waits, x) <==> exists c :: 0 <= c < |cycles| && x in cycles[c])
  }

  lemma CyclesGrow(waits: Waits, cycles: seq<seq<int>>, done: set<int>, path: seq<int>, found: seq<seq<int>>)
    requires CyclesOf(waits, cycles, done)
    requires forall x | x in path :: x !in done
    requires |found| <= 1
    requires forall c | 0 <= c < |found| :: IsCycle(waits, found[c]) && forall x | x in found[c] :: x in path
    requires forall x | x in path :: OnCycle(waits, x) <==> (|found| == 1 && x in found[0])
    ensures CyclesOf(waits, cycles + found, done + Elements(path))
  {
    var all := cycles + found;
    forall x | x in done + Elements(path)
      ensures OnCycle(waits, x) <==> exists c :: 0 <= c < |all| && x in all[c]
    {
      if x in done {
        assert forall c | 0 <= c < |cycles| :: all[c] == cycles[c];
        if exists c :: 0 <= c < |all| && x in all[c] {
          var c :| 0 <= c < |all| && x in all[c];
          assert c < |cycles|;
        }
      } else {
        if OnCycle(waits, x) {
          assert all[|cycles|] == found[0];
        }
      }
    }
  }

  /** Fibers dealt with: whatever they wait for is dealt with too, or waits for nothing. */
  ghost predicate Settled(waits: Waits, done: set<int>) {
    done <= waits.Keys && forall f | f in done && waits[f] in waits :: waits[f] in done
  }

  lemma WalkExtends(waits: Waits, path: seq<int>, next: int, done: set<int>)
    requires IsWalk(waits, path, next, done) && next in waits && next !in path && next !in done
    ensures IsWalk(waits, path + [next], waits[next], done)
  {
    var longer := path + [next];
    forall i | 0 <= i < |longer|
      ensures waits[longer[i]] == After(longer, waits[next], i)
    {
      if i < |path| {
        assert longer[i] == path[i];
      }
    }
  }

  /** What one start adds: the fibers it pushed, and the cycle it closed if it did. */
  ghost predicate Traced(waits: Waits, done: set<int>, path: seq<int>, found: seq<seq<int>>) {
    && Distinct(path) && (forall x | x in path :: x !in done && x in waits)
    && Settled(waits, done + Elements(path))
    && |found| <= 1
    && (forall c | 0 <= c < |found| :: IsCycle(waits, found[c]) && forall x | x in found[c] :: x in path)
    && (forall x | x in path :: OnCycle(waits, x) <==> (|found| == 1 && x in found[0]))
  }

  lemma TraceCloses(waits: Waits, path: seq<int>, next: int, done: set<int>, from: nat)
    requires IsWalk(waits, path, next, done) && Settled(waits, done) && from < |path| && path[from] == next
    ensures Traced(waits, done, path, [path[from..]])
  {
    WalkCloses(waits, path, next, done, from);
  }

  lemma TraceEnds(waits: Waits, path: seq<int>, next: int, done: set<int>)
    requires IsWalk(waits, path, next, done) && Settled(waits, done)
    requires next in done || next in waits.Values - waits.Keys
    ensures Traced(waits, done, path, [])
  {
    WalkIntoTrap(waits, path, next, done, done + (waits.Values - waits.Keys));
  }

  /** Follow the waits from one fiber until they come back to the walk or leave what is left. */
  method Trace(waits: Waits, start: int, done: set<int>) returns (path: seq<int>, found: seq<seq<int>>)
    requires start in waits && start !in done && Settled(waits, done)
    ensures Traced(waits, done, path, found) && start in path
  {
    path, found := [], [];
    var position: map<int, nat> := map[];
    var node := start;
    while true
      invariant IsWalk(waits, path, node, done)
      invariant if path == [] then node == start else path[0] == start && node in waits.Values
      invariant position.Keys == Elements(path)
      invariant forall x | x in position :: position[x] < |path| && path[position[x]] == x
      decreases waits.Keys - position.Keys
    {
      if node in position {
        found := [path[position[node]..]];
        TraceCloses(waits, path, node, done, position[node]);
        break;
      }
      if node in done || node !in waits {
        TraceEnds(waits, path, node, done);
        break;
      }
      WalkExtends(waits, path, node, done);
      assert Elements(path + [node]) == Elements(path) + {node};
      ghost var left := waits.Keys - position.Keys;
      position := position[node := |path|];
      assert node in left && node !in waits.Keys - position.Keys;
      path := path + [node];
      node := waits[node];
    }
  }

  lemma DistinctConcat(a: seq<int>, b: seq<int>)
    requires Distinct(a) && Distinct(b) && forall x | x in b :: x !in Elements(a)
    ensures Distinct(a + b) && Elements(a + b) == Elements(a) + Elements(b)
  {
    forall i, j | 0 <= i < j < |a + b| ensures (a + b)[i] != (a + b)[j] {
      if i < |a| <= j {
        assert a[i] in Elements(a) && b[j - |a|] in b;
      }
    }
  }

  /**
    The lists returned are exactly the cycles of the map, and no fiber is pushed onto a walk
    more than once over all the starts.
   */
  method FindCycles(waits: Waits, order: seq<int>) returns (cycles: seq<seq<int>>, ghost pushed: seq<int>)
    requires Elements(order) == waits.Keys
    ensures forall c | 0 <= c < |cycles| :: IsCycle(waits, cycles[c])
    ensures forall c, d, x | 0 <= c < d < |cycles| && x in cycles[c] :: x !in cycles[d]
    ensures forall x :: OnCycle(waits, x) <==> exists c :: 0 <= c < |cycles| && x in cycles[c]
    ensures Distinct(pushed) && Elements(pushed) == waits.Keys
  {
    cycles, pushed := [], [];
    var done: set<int> := {};
    for n := 0 to |order|
      invariant CyclesOf(waits, cycles, done) && Settled(waits, done)
      invariant forall i | 0 <= i < n :: order[i] in done
      invariant Distinct(pushed) && Elements(pushed) == done
    {
      if order[n] !in done {
        assert order[n] in Elements(order);
        var path, found := Trace(waits, order[n], done);
        CyclesGrow(waits, cycles, done, path, found);
        DistinctConcat(pushed, path);
        cycles, done, pushed := cycles + found, done + Elements(path), pushed + path;
      }
    }
    assert done == waits.Keys;
  }
}
