/**
  Reconciling reported usage with a provider's own counters, for harnesses that give running totals:
  each turn is told as the difference from the totals of the turn before.
 */
module UsageEvidence {
  import opened Wrappers

  // The counters of the library, and those of a source under its own names.

  datatype Counter = Input | Cached | Written | Output | Reasoning | Total

  datatype Counts = Counts(input: Option<int>, cached: Option<int>, written: Option<int>, output: Option<int>,
                           reasoning: Option<int>, total: Option<int>)
  {
    function Get(c: Counter): Option<int> {
      match c
      case Input => input
      case Cached => cached
      case Written => written
      case Output => output
      case Reasoning => reasoning
      case Total => total
    }
  }

  type Snapshot = map<string, int>

  function Told(s: Snapshot, name: string): Option<int> {
    if name in s then Some(s[name]) else None
  }

  function CodexName(c: Counter): string {
    match c
    case Input => "inputTokens"
    case Cached => "cachedInputTokens"
    case Written => "cacheWriteInputTokens"
    case Output => "outputTokens"
    case Reasoning => "reasoningOutputTokens"
    case Total => "totalTokens"
  }

  /** The prompt includes what was read from and written to the cache; the input does not. */
  function CodexCounts(s: Snapshot): Counts {
    var prompt := Told(s, CodexName(Input));
    var cached, written := Told(s, CodexName(Cached)), Told(s, CodexName(Written));
    Counts(if prompt.Some? then Some(prompt.value - OrZero(cached) - OrZero(written)) else None, cached, written,
           Told(s, CodexName(Output)), Told(s, CodexName(Reasoning)), Told(s, CodexName(Total)))
  }

  // Dictionaries, whose entries stay in the order in which their keys first came.

  datatype Entry<+V> = Entry(key: string, value: V)

  function Find<V>(d: seq<Entry<V>>, key: string): Option<V> {
    if d == [] then None else if d[0].key == key then Some(d[0].value) else Find(d[1..], key)
  }

  function Put<V>(d: seq<Entry<V>>, key: string, value: V): seq<Entry<V>> {
    if d == [] then [Entry(key, value)]
    else if d[0].key == key then [Entry(key, value)] + d[1..]
    else [d[0]] + Put(d[1..], key, value)
  }

  predicate Distinct<V>(d: seq<Entry<V>>) {
    forall i, j | 0 <= i < j < |d| :: d[i].key != d[j].key
  }

  lemma {:induction false} FoundAt<V>(d: seq<Entry<V>>, i: nat)
    requires Distinct(d) && i < |d|
    ensures Find(d, d[i].key) == Some(d[i].value)
  {
    if i > 0 {
      FoundAt(d[1..], i - 1);
    }
  }

  lemma {:induction false} NotFound<V>(d: seq<Entry<V>>, key: string)
    requires forall i | 0 <= i < |d| :: d[i].key != key
    ensures Find(d, key).None?
  {
    if d != [] {
      NotFound(d[1..], key);
    }
  }

  lemma {:induction false} FindPut<V>(d: seq<Entry<V>>, key: string, value: V, other: string)
    ensures Find(Put(d, key, value), other) == if other == key then Some(value) else Find(d, other)
  {
    if d != [] && d[0].key != key {
      FindPut(d[1..], key, value, other);
    }
  }

  lemma {:induction false} PutDistinct<V>(d: seq<Entry<V>>, key: string, value: V)
    requires Distinct(d)
    ensures Distinct(Put(d, key, value))
  {
    if d != [] && d[0].key != key {
      var rest := Put(d[1..], key, value);
      PutDistinct(d[1..], key, value);
      forall j | 0 <= j < |rest| ensures rest[j].key != d[0].key {
        FoundAt(rest, j);
        FindPut(d[1..], key, value, rest[j].key);
        NotFound(d[1..], d[0].key);
      }
    }
  }

  // The events of a turn.

  datatype Report = Report(revision: int, contextOnly: bool, invalidated: bool, usage: Counts)

  datatype Event = Totals(thread: string, totals: Snapshot) | Update(id: string, report: Report) | Other

  /** What came before: nothing, one thread's totals, or the totals of the threads of the turn before. */
  datatype Baseline = Nothing | Single(totals: Snapshot) | Threads(threads: seq<Entry<Snapshot>>)

  predicate Consumes(e: Event) {
    e.Update? && !e.report.contextOnly && !e.report.invalidated
  }

  function WithTotals(d: seq<Entry<Snapshot>>, e: Event): seq<Entry<Snapshot>> {
    if e.Totals? then Put(d, e.thread, e.totals) else d
  }

  function ThreadTotals(events: seq<Event>): seq<Entry<Snapshot>> {
    if events == [] then []
    else WithTotals(ThreadTotals(events[..|events| - 1]), events[|events| - 1])
  }

  function WithUpdate(d: seq<Entry<Report>>, e: Event): seq<Entry<Report>> {
    if !Consumes(e) then d
    else
      var previous := Find(d, e.id);
      if previous.Some? && e.report.revision <= previous.value.revision then d else Put(d, e.id, e.report)
  }

  function LatestUpdates(events: seq<Event>): seq<Entry<Report>> {
    if events == [] then []
    else WithUpdate(LatestUpdates(events[..|events| - 1]), events[|events| - 1])
  }

  /** The last totals a turn reports for a thread. */
  function LastTotals(events: seq<Event>, thread: string): Option<Snapshot> {
    if events == [] then None
    else
      var last := events[|events| - 1];
      if last.Totals? && last.thread == thread then Some(last.totals)
      else LastTotals(events[..|events| - 1], thread)
  }

  lemma {:induction false} TotalsAreLast(events: seq<Event>, thread: string)
    ensures Distinct(ThreadTotals(events))
    ensures Find(ThreadTotals(events), thread) == LastTotals(events, thread)
  {
    if events != [] {
      var earlier, last := events[..|events| - 1], events[|events| - 1];
      TotalsAreLast(earlier, thread);
      if last.Totals? {
        PutDistinct(ThreadTotals(earlier), last.thread, last.totals);
        FindPut(ThreadTotals(earlier), last.thread, last.totals, thread);
      }
    }
  }

  /** The update kept for an id is one of the turn's for that id, and none that consumes outdates it. */
  ghost predicate KeepsLatest(kept: Option<Report>, events: seq<Event>, id: string) {
    && (kept.Some? ==> Update(id, kept.value) in events && Consumes(Update(id, kept.value)))
    && (forall e | e in events && Consumes(e) && e.id == id ::
          kept.Some? && e.report.revision <= kept.value.revision)
  }

  lemma {:induction false} UpdatesAreLatest(events: seq<Event>, id: string)
    ensures Distinct(LatestUpdates(events))
    ensures KeepsLatest(Find(LatestUpdates(events), id), events, id)
  {
    if events != [] {
      var earlier, last := events[..|events| - 1], events[|events| - 1];
      assert events == earlier + [last];
      var d := LatestUpdates(earlier);
      UpdatesAreLatest(earlier, id);
      if Consumes(last) {
        UpdatesAreLatest(earlier, last.id);
        PutDistinct(d, last.id, last.report);
        FindPut(d, last.id, last.report, id);
      }
    }
  }

  // One turn.

  function Before(baseline: Baseline, thread: string, index: nat): Snapshot {
    match baseline
    case Nothing => map[]
    case Single(totals) => if index == 0 then totals else map[]
    case Threads(d) => var found := Find(d, thread); if found.Some? then found.value else map[]
  }

  function Less(totals: Snapshot, before: Snapshot): Snapshot {
    map name | name in totals :: totals[name] - OrZero(Told(before, name))
  }

  predicate Agrees(expected: Counts, actual: Counts) {
    && (expected.input.Some? ==> actual.input == expected.input)
    && (expected.cached.Some? ==> actual.cached == expected.cached)
    && (expected.written.Some? ==> actual.written == expected.written)
    && (expected.output.Some? ==> actual.output == expected.output)
    && (expected.reasoning.Some? ==> actual.reasoning == expected.reasoning)
    && (expected.total.Some? ==> actual.total == expected.total)
  }

  datatype Row = Row(source: Snapshot, expected: Counts, actual: Counts)

  /** The row of the i-th thread of a turn. */
  function RowFor(events: seq<Event>, baseline: Baseline, i: nat): Row
    requires i < |ThreadTotals(events)| && i < |LatestUpdates(events)|
  {
    var entry := ThreadTotals(events)[i];
    var source := Less(entry.value, Before(baseline, entry.key, i));
    Row(source, CodexCounts(source), LatestUpdates(events)[i].value.usage)
  }

  /** The usage reported for a turn covers its threads one for one and agrees with each. */
  ghost predicate Reconciles(events: seq<Event>, baseline: Baseline) {
    && 0 < |ThreadTotals(events)| == |LatestUpdates(events)|
    && (forall i | 0 <= i < |ThreadTotals(events)| ::
          Agrees(RowFor(events, baseline, i).expected, RowFor(events, baseline, i).actual))
  }

  ghost predicate RowsFor(rows: seq<Row>, events: seq<Event>, baseline: Baseline) {
    && |rows| == |ThreadTotals(events)| == |LatestUpdates(events)|
    && (forall i | 0 <= i < |rows| :: rows[i] == RowFor(events, baseline, i))
  }

  method CollectTotals(events: seq<Event>) returns (threads: seq<Entry<Snapshot>>)
    ensures threads == ThreadTotals(events)
  {
    threads := [];
    for n := 0 to |events|
      invariant threads == ThreadTotals(events[..n])
    {
      assert events[..n + 1][..n] == events[..n];
      if events[n].Totals? {
        threads := Put(threads, events[n].thread, events[n].totals);
      }
    }
    assert events[..|events|] == events;
  }

  method CollectUpdates(events: seq<Event>) returns (latest: seq<Entry<Report>>)
    ensures latest == LatestUpdates(events)
  {
    latest := [];
    for n := 0 to |events|
      invariant latest == LatestUpdates(events[..n])
    {
      assert events[..n + 1][..n] == events[..n];
      latest := WithUpdate(latest, events[n]);
    }
    assert events[..|events|] == events;
  }

  // What a run of turns counts, given what each turn tells of one counter of one thread.

  /** The differences a run adds up: each value told less the one told the turn before, if it was. */
  function Counted(before: int, tells: seq<Option<int>>): int
    decreases |tells|
  {
    if tells == [] then 0
    else (if tells[0].Some? then tells[0].value - before else 0) + Counted(OrZero(tells[0]), tells[1..])
  }

  predicate AnyTold(tells: seq<Option<int>>) {
    exists i :: 0 <= i < |tells| && tells[i].Some?
  }

  /** The last value told. */
  function LastTold(tells: seq<Option<int>>): int
    requires AnyTold(tells)
    decreases |tells|
  {
    var last := tells[|tells| - 1];
    if last.Some? then last.value
    else
      assert forall i | 0 <= i < |tells| - 1 :: tells[..|tells| - 1][i] == tells[i];
      LastTold(tells[..|tells| - 1])
  }

  /** What was used: the last value told less what came before, if any was told at all. */
  function Used(before: int, tells: seq<Option<int>>): int {
    if AnyTold(tells) then LastTold(tells) - before else 0
  }

  /** Values that a turn of silence made forgotten, although the counter was told again later. */
  function Forgotten(before: int, tells: seq<Option<int>>): int
    decreases |tells|
  {
    if tells == [] then 0
    else (if tells[0].None? && AnyTold(tells[1..]) then before else 0) + Forgotten(OrZero(tells[0]), tells[1..])
  }

  lemma {:induction false} LastToldRest(tells: seq<Option<int>>)
    requires tells != [] && AnyTold(tells[1..])
    ensures AnyTold(tells) && LastTold(tells) == LastTold(tells[1..])
    decreases |tells|
  {
    var i :| 0 <= i < |tells[1..]| && tells[1..][i].Some?;
    assert tells[i + 1].Some?;
    var n := |tells| - 1;
    if tells[n].None? {
      var cut := tells[..n];
      assert i + 1 < n && cut[1..] == tells[1..][..n - 1] && cut[1..][i].Some?;
      LastToldRest(cut);
    }
  }

  /**
    Over any number of turns what is counted is what was used and, once more, all that was
    forgotten on the way.
   */
  lemma {:induction false} CountedIsUsed(before: int, tells: seq<Option<int>>)
    ensures Counted(before, tells) == Used(before, tells) + Forgotten(before, tells)
    decreases |tells|
  {
    if tells != [] {
      CountedIsUsed(OrZero(tells[0]), tells[1..]);
      if AnyTold(tells[1..]) {
        LastToldRest(tells);
      } else if tells[0].Some? {
        SilentLast(tells);
      } else {
        assert !AnyTold(tells) by {
          assert forall i | 0 < i < |tells| :: tells[i] == tells[1..][i - 1];
        }
      }
    }
  }

  lemma {:induction false} SilentLast(tells: seq<Option<int>>)
    requires tells != [] && tells[0].Some? && !AnyTold(tells[1..])
    ensures AnyTold(tells) && LastTold(tells) == tells[0].value
    decreases |tells|
  {
    var n := |tells| - 1;
    if n > 0 {
      assert tells[n] == tells[1..][n - 1];
      var cut := tells[..n];
      assert forall i | 0 <= i < n - 1 :: cut[1..][i] == tells[1..][i];
      SilentLast(cut);
    }
  }

  /** No turn of silence between two that tell: only zeros are forgotten. */
  ghost predicate NeverSilenced(before: int, tells: seq<Option<int>>) {
    && (|tells| > 0 && tells[0].None? && AnyTold(tells) ==> before == 0)
    && (forall i | 0 <= i < |tells| - 1 ::
          tells[i].Some? && tells[i + 1].None? && AnyTold(tells[i + 1..]) ==> tells[i].value == 0)
  }

  /**
    With counters that are not negative the differences add up to what was used if and only if no
    turn is silent about a counter that was above zero and is told again.
   */
  lemma {:induction false} CountedExactly(before: int, tells: seq<Option<int>>)
    requires before >= 0 && forall i | 0 <= i < |tells| :: OrZero(tells[i]) >= 0
    ensures Forgotten(before, tells) >= 0
    ensures Counted(before, tells) == Used(before, tells) <==> NeverSilenced(before, tells)
    decreases |tells|
  {
    CountedIsUsed(before, tells);
    if tells != [] {
      var first, rest := OrZero(tells[0]), tells[1..];
      CountedIsUsed(first, rest);
      CountedExactly(first, rest);
      AnyToldRest(tells);
      assert forall i | 0 < i < |tells| :: tells[i] == rest[i - 1] && tells[i..] == rest[i - 1..];
      if NeverSilenced(first, rest) && (tells[0].None? && AnyTold(rest) ==> before == 0) {
        forall i | 0 <= i < |tells| - 1 && tells[i].Some? && tells[i + 1].None? && AnyTold(tells[i + 1..])
          ensures tells[i].value == 0
        {
          if i > 0 {
            assert rest[i - 1].Some? && rest[i].None? && rest[i..] == tells[i + 1..];
          } else {
            assert rest[0].None? && rest == tells[1..];
          }
        }
      }
      if NeverSilenced(before, tells) {
        forall i | 0 <= i < |rest| - 1 && rest[i].Some? && rest[i + 1].None? && AnyTold(rest[i + 1..])
          ensures rest[i].value == 0
        {
          assert tells[i + 1].Some? && tells[i + 2].None? && tells[i + 2..] == rest[i + 1..];
        }
        if |rest| > 0 && rest[0].None? && AnyTold(rest) && tells[0].Some? {
          assert tells[1].None? && tells[1..] == rest;
        }
      }
    }
  }

  lemma AnyToldRest(tells: seq<Option<int>>)
    requires tells != []
    ensures AnyTold(tells) <==> tells[0].Some? || AnyTold(tells[1..])
  {
    if AnyTold(tells) && tells[0].None? {
      var i :| 0 <= i < |tells| && tells[i].Some?;
      assert tells[1..][i - 1].Some?;
    }
    if AnyTold(tells[1..]) {
      var i :| 0 <= i < |tells[1..]| && tells[1..][i].Some?;
      assert tells[i + 1].Some?;
    }
  }

  // Runs of turns, each starting from the totals of the one before.

  function BaselineAt(turns: seq<seq<Event>>, baseline: Baseline, i: nat): Baseline
    requires i <= |turns|
  {
    if i == 0 then baseline else Threads(ThreadTotals(turns[i - 1]))
  }

  ghost predicate AllReconcile(turns: seq<seq<Event>>, baseline: Baseline) {
    forall i | 0 <= i < |turns| :: Reconciles(turns[i], BaselineAt(turns, baseline, i))
  }

  ghost predicate RunFor(run: seq<seq<Row>>, turns: seq<seq<Event>>, baseline: Baseline) {
    && |run| == |turns| && AllReconcile(turns, baseline)
    && (forall i | 0 <= i < |run| :: RowsFor(run[i], turns[i], BaselineAt(turns, baseline, i)))
  }

  /** What a turn tells of a counter of a thread, by its last report. */
  function Tell(events: seq<Event>, thread: string, name: string): Option<int> {
    var totals := LastTotals(events, thread);
    if totals.Some? then Told(totals.value, name) else None
  }

  function Tells(turns: seq<seq<Event>>, thread: string, name: string): seq<Option<int>> {
    if turns == [] then [] else [Tell(turns[0], thread, name)] + Tells(turns[1..], thread, name)
  }

  /** What a run starts from; a single thread's totals are those of the first thread to report. */
  function Start(baseline: Baseline, turns: seq<seq<Event>>, thread: string, name: string): int {
    if turns == [] then 0
    else
      var threads := ThreadTotals(turns[0]);
      OrZero(Told(Before(baseline, thread, if threads != [] && threads[0].key == thread then 0 else 1), name))
  }

  function Index<V>(d: seq<Entry<V>>, key: string): nat {
    if d == [] || d[0].key == key then 0 else 1 + Index(d[1..], key)
  }

  lemma {:induction false} IndexFinds<V>(d: seq<Entry<V>>, key: string)
    ensures Index(d, key) < |d| <==> Find(d, key).Some?
    ensures Index(d, key) < |d| ==> d[Index(d, key)] == Entry(key, Find(d, key).value)
  {
    if d != [] && d[0].key != key {
      IndexFinds(d[1..], key);
    }
  }

  /** The usage that a row vouches for: what was reported, where the source has the counter. */
  function Vouched(rows: seq<Row>, events: seq<Event>, thread: string, c: Counter): int {
    var i := Index(ThreadTotals(events), thread);
    if i < |rows| && rows[i].expected.Get(c).Some? then OrZero(rows[i].actual.Get(c)) else 0
  }

  function SumVouched(run: seq<seq<Row>>, turns: seq<seq<Event>>, thread: string, c: Counter): int
    requires |run| == |turns|
  {
    if turns == [] then 0
    else Vouched(run[0], turns[0], thread, c) + SumVouched(run[1..], turns[1..], thread, c)
  }

  /** What one turn adds to a counter, given what came before. */
  function Step(before: int, tell: Option<int>): int {
    if tell.Some? then tell.value - before else 0
  }

  function StepOf(baseline: Baseline, turns: seq<seq<Event>>, thread: string, c: Counter): int
    requires turns != []
  {
    Step(Start(baseline, turns, thread, CodexName(c)), Tell(turns[0], thread, CodexName(c)))
  }

  /** The row of a thread holds the steps of its counters. */
  lemma SourceSteps(rows: seq<Row>, turns: seq<seq<Event>>, baseline: Baseline, thread: string, name: string)
    requires turns != [] && RowsFor(rows, turns[0], baseline)
    ensures var i, tell := Index(ThreadTotals(turns[0]), thread), Tell(turns[0], thread, name);
            if i < |rows| then
              LastTotals(turns[0], thread).Some? &&
              Told(rows[i].source, name)
              == if tell.Some? then Some(Step(Start(baseline, turns, thread, name), tell)) else None
            else tell.None?
  {
    var threads := ThreadTotals(turns[0]);
    var i := Index(threads, thread);
    TotalsAreLast(turns[0], thread);
    IndexFinds(threads, thread);
    if i < |rows| {
      assert rows[i] == RowFor(turns[0], baseline, i);
      assert Before(baseline, thread, i)
             == Before(baseline, thread, if threads != [] && threads[0].key == thread then 0 else 1);
    }
  }

  /** What a turn adds to the cache counts of a thread whose prompt it does not tell. */
  function UnpromptedStep(baseline: Baseline, turns: seq<seq<Event>>, thread: string): int
    requires turns != []
  {
    if Tell(turns[0], thread, CodexName(Input)).Some? then 0
    else StepOf(baseline, turns, thread, Cached) + StepOf(baseline, turns, thread, Written)
  }

  lemma TurnVouches(rows: seq<Row>, turns: seq<seq<Event>>, baseline: Baseline, thread: string, c: Counter)
    requires turns != [] && Reconciles(turns[0], baseline) && RowsFor(rows, turns[0], baseline)
    ensures Vouched(rows, turns[0], thread, c)
            == if c.Input? then
                 StepOf(baseline, turns, thread, Input) - StepOf(baseline, turns, thread, Cached)
                 - StepOf(baseline, turns, thread, Written) + UnpromptedStep(baseline, turns, thread)
               else StepOf(baseline, turns, thread, c)
  {
    var i := Index(ThreadTotals(turns[0]), thread);
    SourceSteps(rows, turns, baseline, thread, CodexName(c));
    SourceSteps(rows, turns, baseline, thread, CodexName(Cached));
    SourceSteps(rows, turns, baseline, thread, CodexName(Written));
    hide Start, Tell, Index;
    if i < |rows| {
      assert rows[i] == RowFor(turns[0], baseline, i);
      RowAgrees(rows[i], c);
    }
  }

  lemma RowAgrees(row: Row, c: Counter)
    requires row.expected == CodexCounts(row.source) && Agrees(row.expected, row.actual)
    ensures row.expected.Get(c).Some? ==> row.actual.Get(c) == row.expected.Get(c)
    ensures !c.Input? ==> row.expected.Get(c) == Told(row.source, CodexName(c))
    ensures c.Input? ==>
              row.expected.Get(c)
              == var prompt := Told(row.source, CodexName(Input));
                 if prompt.None? then None
                 else Some(prompt.value - OrZero(Told(row.source, CodexName(Cached)))
                           - OrZero(Told(row.source, CodexName(Written))))
  {
  }

  lemma StartOfRest(turns: seq<seq<Event>>, thread: string, name: string)
    requires turns != []
    ensures turns[1..] == [] ||
            Start(Threads(ThreadTotals(turns[0])), turns[1..], thread, name) == OrZero(Tell(turns[0], thread, name))
  {
    TotalsAreLast(turns[0], thread);
  }

  function CountedOf(baseline: Baseline, turns: seq<seq<Event>>, thread: string, c: Counter): int {
    Counted(Start(baseline, turns, thread, CodexName(c)), Tells(turns, thread, CodexName(c)))
  }

  lemma CountedRest(baseline: Baseline, turns: seq<seq<Event>>, thread: string, c: Counter)
    requires turns != []
    ensures CountedOf(baseline, turns, thread, c)
            == StepOf(baseline, turns, thread, c) + CountedOf(Threads(ThreadTotals(turns[0])), turns[1..], thread, c)
  {
    var tells := Tells(turns, thread, CodexName(c));
    StartOfRest(turns, thread, CodexName(c));
    assert tells[1..] == Tells(turns[1..], thread, CodexName(c)) && tells[0] == Tell(turns[0], thread, CodexName(c));
    if turns[1..] == [] {
      assert tells[1..] == [] && Counted(OrZero(tells[0]), []) == 0;
    }
  }

  /** What a run adds to the cache counts of a thread in turns that do not tell its prompt. */
  function Unprompted(baseline: Baseline, turns: seq<seq<Event>>, thread: string): int
    decreases |turns|
  {
    if turns == [] then 0
    else UnpromptedStep(baseline, turns, thread) + Unprompted(Threads(ThreadTotals(turns[0])), turns[1..], thread)
  }

  /** The usage vouched for over a run is what the differences of the totals add up to. */
  lemma {:induction false} RunVouches(run: seq<seq<Row>>, turns: seq<seq<Event>>, baseline: Baseline, thread: string,
                                      c: Counter)
    requires RunFor(run, turns, baseline)
    ensures SumVouched(run, turns, thread, c)
            == if c.Input? then
                 CountedOf(baseline, turns, thread, Input) - CountedOf(baseline, turns, thread, Cached)
                 - CountedOf(baseline, turns, thread, Written) + Unprompted(baseline, turns, thread)
               else CountedOf(baseline, turns, thread, c)
    decreases |turns|
  {
    if turns != [] {
      var next := Threads(ThreadTotals(turns[0]));
      assert BaselineAt(turns, baseline, 0) == baseline;
      TurnVouches(run[0], turns, baseline, thread, c);
      assert forall i | 0 <= i < |turns| - 1 :: turns[1..][i] == turns[i + 1];
      hide StepOf, CountedOf, UnpromptedStep, Vouched;
      RunVouches(run[1..], turns[1..], next, thread, c);
      CountedRest(baseline, turns, thread, c);
      CountedRest(baseline, turns, thread, Cached);
      CountedRest(baseline, turns, thread, Written);
    } else {
      assert Tells(turns, thread, CodexName(c)) == Tells(turns, thread, CodexName(Cached)) == [];
      assert Tells(turns, thread, CodexName(Written)) == [];
    }
  }

  /** Whenever a turn reports a thread it tells its prompt. */
  ghost predicate PromptsTold(turns: seq<seq<Event>>, thread: string) {
    forall i | 0 <= i < |turns| && LastTotals(turns[i], thread).Some? :: Tell(turns[i], thread, CodexName(Input)).Some?
  }

  lemma {:induction false} NoneUnprompted(baseline: Baseline, turns: seq<seq<Event>>, thread: string)
    requires PromptsTold(turns, thread)
    ensures Unprompted(baseline, turns, thread) == 0
    decreases |turns|
  {
    if turns != [] {
      assert forall i | 0 <= i < |turns| - 1 :: turns[1..][i] == turns[i + 1];
      NoneUnprompted(Threads(ThreadTotals(turns[0])), turns[1..], thread);
    }
  }

  /** What was used of a counter, and once more what was forgotten of it. */
  function DueOf(baseline: Baseline, turns: seq<seq<Event>>, thread: string, c: Counter): int {
    UsedOf(baseline, turns, thread, c) + ForgottenOf(baseline, turns, thread, c)
  }

  function UsedOf(baseline: Baseline, turns: seq<seq<Event>>, thread: string, c: Counter): int {
    Used(Start(baseline, turns, thread, CodexName(c)), Tells(turns, thread, CodexName(c)))
  }

  function ForgottenOf(baseline: Baseline, turns: seq<seq<Event>>, thread: string, c: Counter): int {
    Forgotten(Start(baseline, turns, thread, CodexName(c)), Tells(turns, thread, CodexName(c)))
  }

  /**
    Over any run that reconciles, the usage reported for a thread is what its running totals say
    was used, and once more what was forgotten in turns of silence; the input likewise, which
    leaves out of the prompt what was read from and written to the cache in the turns that tell it.
   */
  lemma UsageAddsUp(run: seq<seq<Row>>, turns: seq<seq<Event>>, baseline: Baseline, thread: string, c: Counter)
    requires RunFor(run, turns, baseline)
    ensures SumVouched(run, turns, thread, c)
            == if c.Input? then
                 DueOf(baseline, turns, thread, Input) - DueOf(baseline, turns, thread, Cached)
                 - DueOf(baseline, turns, thread, Written) + Unprompted(baseline, turns, thread)
               else DueOf(baseline, turns, thread, c)
  {
    RunVouches(run, turns, baseline, thread, c);
    CountedIsUsed(Start(baseline, turns, thread, CodexName(c)), Tells(turns, thread, CodexName(c)));
    CountedIsUsed(Start(baseline, turns, thread, CodexName(Cached)), Tells(turns, thread, CodexName(Cached)));
    CountedIsUsed(Start(baseline, turns, thread, CodexName(Written)), Tells(turns, thread, CodexName(Written)));
  }

  /**
    The input reported is what was used of the prompt less what was used of the cache if and only if
    what was forgotten of the prompt makes up for what was forgotten of the cache and for the turns
    that do not tell the prompt.
   */
  lemma InputIsExact(run: seq<seq<Row>>, turns: seq<seq<Event>>, baseline: Baseline, thread: string)
    requires RunFor(run, turns, baseline)
    ensures SumVouched(run, turns, thread, Input)
            == UsedOf(baseline, turns, thread, Input) - UsedOf(baseline, turns, thread, Cached)
               - UsedOf(baseline, turns, thread, Written)
            <==> ForgottenOf(baseline, turns, thread, Input) + Unprompted(baseline, turns, thread)
                 == ForgottenOf(baseline, turns, thread, Cached) + ForgottenOf(baseline, turns, thread, Written)
    ensures PromptsTold(turns, thread) ==> Unprompted(baseline, turns, thread) == 0
  {
    UsageAddsUp(run, turns, baseline, thread, Input);
    if PromptsTold(turns, thread) {
      NoneUnprompted(baseline, turns, thread);
    }
  }

  /**
    With totals that are not negative the usage reported for a thread is what was used if and only
    if no turn is silent about a counter that was above zero and is told again.
   */
  lemma UsageIsExact(run: seq<seq<Row>>, turns: seq<seq<Event>>, baseline: Baseline, thread: string, c: Counter)
    requires RunFor(run, turns, baseline) && c != Input
    requires Start(baseline, turns, thread, CodexName(c)) >= 0
    requires forall tell | tell in Tells(turns, thread, CodexName(c)) :: OrZero(tell) >= 0
    ensures SumVouched(run, turns, thread, c) >= UsedOf(baseline, turns, thread, c)
    ensures SumVouched(run, turns, thread, c) == UsedOf(baseline, turns, thread, c) <==>
            NeverSilenced(Start(baseline, turns, thread, CodexName(c)), Tells(turns, thread, CodexName(c)))
  {
    var before, tells := Start(baseline, turns, thread, CodexName(c)), Tells(turns, thread, CodexName(c));
    assert forall i | 0 <= i < |tells| :: tells[i] in tells;
    UsageAddsUp(run, turns, baseline, thread, c);
    CountedIsUsed(before, tells);
    CountedExactly(before, tells);
  }

  const OUTPUT := "outputTokens"

  /** A turn in which one thread reports a total output, and the library the same as usage. */
  function SoleTurn(thread: string, output: int): seq<Event> {
    [Totals(thread, map[OUTPUT := output]),
     Update("u", Report(1, false, false, Counts(None, None, None, Some(output), None, None)))]
  }

  lemma SoleTurnTotals(thread: string, output: int)
    ensures ThreadTotals(SoleTurn(thread, output)) == [Entry(thread, map[OUTPUT := output])]
    ensures forall t ::
              LastTotals(SoleTurn(thread, output), t) == if t == thread then Some(map[OUTPUT := output]) else None
  {
    var events := SoleTurn(thread, output);
    assert events[..1] == [events[0]] && events[..1][..0] == [];
    assert ThreadTotals(events[..1]) == [Entry(thread, map[OUTPUT := output])];
    forall t ensures LastTotals(events, t) == if t == thread then Some(map[OUTPUT := output]) else None {
      assert LastTotals(events[..1], t) == if t == thread then Some(map[OUTPUT := output]) else None;
    }
  }

  /** Such a turn reconciles when the baseline knows nothing of its thread. */
  lemma SoleTurnReconciles(thread: string, output: int, baseline: Baseline)
    requires Before(baseline, thread, 0) == map[]
    ensures Reconciles(SoleTurn(thread, output), baseline)
  {
    var events := SoleTurn(thread, output);
    SoleTurnTotals(thread, output);
    assert LatestUpdates(events) == [Entry("u", events[1].report)] by {
      assert events[..1] == [events[0]] && events[..1][..0] == [];
      assert LatestUpdates(events[..1]) == [];
    }
    var source := RowFor(events, baseline, 0).source;
    assert source == map[OUTPUT := output];
    assert CodexCounts(source) == Counts(None, None, None, Some(output), None, None);
  }

  const SILENCED := [SoleTurn("a", 5), SoleTurn("b", 1), SoleTurn("a", 7)]

  lemma SilencedTells()
    ensures Start(Nothing, SILENCED, "a", OUTPUT) == 0
    ensures Tells(SILENCED, "a", OUTPUT) == [Some(5), None, Some(7)]
  {
    SoleTurnTotals("a", 5);
    SoleTurnTotals("b", 1);
    SoleTurnTotals("a", 7);
    assert SILENCED[1..][1..] == SILENCED[2..] && SILENCED[2..][1..] == [];
    assert Tells(SILENCED[2..], "a", OUTPUT) == [Some(7)];
    assert Tells(SILENCED[1..], "a", OUTPUT) == [None, Some(7)];
  }

  lemma SilencedReconciles()
    ensures AllReconcile(SILENCED, Nothing)
  {
    SoleTurnTotals("a", 5);
    SoleTurnTotals("b", 1);
    SoleTurnReconciles("a", 5, Nothing);
    SoleTurnReconciles("b", 1, BaselineAt(SILENCED, Nothing, 1));
    SoleTurnReconciles("a", 7, BaselineAt(SILENCED, Nothing, 2));
  }

  lemma GapForgets(tells: seq<Option<int>>)
    requires tells == [Some(5), None, Some(7)]
    ensures Used(0, tells) == 7 && Forgotten(0, tells) == 5
  {
    var last := tells[2..];
    assert tells[1..][1..] == last && last[1..] == [] && last[0].Some? && AnyTold(last);
    assert Forgotten(0, last) == 0;
    assert Forgotten(5, tells[1..]) == 5;
    assert tells[2].Some? && AnyTold(tells) && LastTold(tells) == 7;
  }

  /** A thread that skips a turn is counted from zero when it comes back, and the run reconciles all the same. */
  lemma SilenceCountsAgain() returns (run: seq<seq<Row>>)
    ensures RunFor(run, SILENCED, Nothing)
    ensures SumVouched(run, SILENCED, "a", Output) == 12
    ensures UsedOf(Nothing, SILENCED, "a", Output) == 7
    ensures ForgottenOf(Nothing, SILENCED, "a", Output) == 5
  {
    hide AllReconcile, RunFor, SumVouched, Tells, Start, Used, Forgotten, SoleTurn;
    SilencedReconciles();
    run := RunOf(SILENCED, Nothing);
    SilencedTells();
    GapForgets(Tells(SILENCED, "a", OUTPUT));
    UsageAddsUp(run, SILENCED, Nothing, "a", Output);
  }

  /** The rows of a run that reconciles. */
  ghost function RunOf(turns: seq<seq<Event>>, baseline: Baseline): (run: seq<seq<Row>>)
    requires AllReconcile(turns, baseline)
    ensures RunFor(run, turns, baseline)
  {
    seq(|turns|, i requires 0 <= i < |turns| => RowsOf(turns[i], BaselineAt(turns, baseline, i)))
  }

  ghost function RowsOf(events: seq<Event>, baseline: Baseline): (rows: seq<Row>)
    requires |ThreadTotals(events)| == |LatestUpdates(events)|
    ensures RowsFor(rows, events, baseline)
  {
    seq(|ThreadTotals(events)|, i requires 0 <= i < |ThreadTotals(events)| => RowFor(events, baseline, i))
  }

  // Claude Code, whose snapshots leave the cache out of the input.

  datatype Claude = Claude(input: Option<int>, cached: Option<int>, written: Option<int>, output: Option<int>,
                           thinking: Option<int>)

  function ClaudeCounts(raw: Claude): Counts {
    var cache := OrZero(raw.cached) + OrZero(raw.written);
    var total := if raw.input.Some? && raw.output.Some? then Some(raw.input.value + cache + raw.output.value) else None;
    var prompt := if raw.input.Some? then Some(raw.input.value + cache) else None;
    Counts(if prompt.Some? then Some(prompt.value - OrZero(raw.cached) - OrZero(raw.written)) else None,
           raw.cached, raw.written, raw.output, raw.thinking, total)
  }

  function Minus(after: Option<int>, before: Option<int>): Option<int> {
    if after.Some? && before.Some? then Some(after.value - before.value) else None
  }

  /** The source of a turn: the difference of the normalised snapshots, under the source's names. */
  function ClaudeDifference(before: Claude, after: Claude): Claude {
    var b, a := ClaudeCounts(before), ClaudeCounts(after);
    Claude(Minus(a.input, b.input), Minus(a.cached, b.cached), Minus(a.written, b.written), Minus(a.output, b.output),
           Minus(a.reasoning, b.reasoning))
  }

  /** A count that only one of two snapshots has. */
  function Stray(after: Option<int>, before: Option<int>): int {
    if after.Some? == before.Some? then 0 else OrZero(after) - OrZero(before)
  }

  /** The cache counts that only one of two snapshots has. */
  function Strays(after: Claude, before: Claude): int {
    Stray(after.cached, before.cached) + Stray(after.written, before.written)
  }

  /**
    Normalising the difference is differencing the normalised, for every counter but the total; the
    total comes out smaller by the cache counts that only one snapshot has.
   */
  lemma DifferenceCommutes(before: Claude, after: Claude)
    ensures var d, b, a := ClaudeCounts(ClaudeDifference(before, after)), ClaudeCounts(before), ClaudeCounts(after);
            && (forall c: Counter | c != Total :: d.Get(c) == Minus(a.Get(c), b.Get(c)))
            && (d.total.Some? <==> Minus(a.total, b.total).Some?)
            && (d.total.Some? ==> d.total.value == Minus(a.total, b.total).value - Strays(after, before))
            && (d.total == Minus(a.total, b.total) <==> (d.total.Some? ==> Strays(after, before) == 0))
  {
  }

  /** What is expected of each turn, each snapshot less the one before it. */
  function ClaudeExpected(baseline: Option<Claude>, snapshots: seq<Claude>): seq<Counts>
    decreases |snapshots|
  {
    if snapshots == [] then []
    else
      [ClaudeCounts(if baseline.Some? then ClaudeDifference(baseline.value, snapshots[0]) else snapshots[0])]
      + ClaudeExpected(Some(snapshots[0]), snapshots[1..])
  }

  function SumOf(counts: seq<Counts>, c: Counter): int {
    if counts == [] then 0 else OrZero(counts[0].Get(c)) + SumOf(counts[1..], c)
  }

  function ClaudeTell(s: Claude, c: Counter): Option<int> {
    ClaudeCounts(s).Get(c)
  }

  /** What a run starts from: the baseline, or zero without one. */
  function ClaudeStart(baseline: Option<Claude>, c: Counter): Option<int> {
    if baseline.Some? then ClaudeTell(baseline.value, c) else Some(0)
  }

  /** The value a counter had last, given the one seen before. */
  function Last(seen: Option<int>, snapshots: seq<Claude>, c: Counter): Option<int>
    decreases |snapshots|
  {
    if snapshots == [] then seen
    else
      var tell := ClaudeTell(snapshots[0], c);
      Last(if tell.Some? then tell else seen, snapshots[1..], c)
  }

  /** The value a counter had first. */
  function First(seen: Option<int>, snapshots: seq<Claude>, c: Counter): Option<int>
    decreases |snapshots|
  {
    if seen.Some? || snapshots == [] then seen else First(ClaudeTell(snapshots[0], c), snapshots[1..], c)
  }

  /** By how much a counter moved while snapshots did not have it. */
  function Skipped(seen: Option<int>, before: Option<int>, snapshots: seq<Claude>, c: Counter): int
    decreases |snapshots|
  {
    if snapshots == [] then 0
    else
      var tell := ClaudeTell(snapshots[0], c);
      (if tell.Some? && before.None? && seen.Some? then tell.value - seen.value else 0)
      + Skipped(if tell.Some? then tell else seen, tell, snapshots[1..], c)
  }

  /** The cache counts that come and go between snapshots with a total. */
  function StraysOf(baseline: Option<Claude>, snapshots: seq<Claude>): int
    decreases |snapshots|
  {
    if snapshots == [] then 0
    else
      (if baseline.Some? && ClaudeTell(baseline.value, Total).Some? && ClaudeTell(snapshots[0], Total).Some?
       then Strays(snapshots[0], baseline.value) else 0)
      + StraysOf(Some(snapshots[0]), snapshots[1..])
  }

  lemma {:induction false} ClaudeAddsUpFrom(baseline: Option<Claude>, snapshots: seq<Claude>, c: Counter,
                                            seen: Option<int>)
    requires ClaudeStart(baseline, c).Some? ==> seen == ClaudeStart(baseline, c)
    ensures SumOf(ClaudeExpected(baseline, snapshots), c)
            == OrZero(Last(seen, snapshots, c)) - OrZero(First(seen, snapshots, c))
               - Skipped(seen, ClaudeStart(baseline, c), snapshots, c)
               - (if c.Total? then StraysOf(baseline, snapshots) else 0)
    decreases |snapshots|
  {
    if snapshots != [] {
      var first, rest := snapshots[0], snapshots[1..];
      var expected, tell := ClaudeExpected(baseline, snapshots), ClaudeTell(first, c);
      assert expected[1..] == ClaudeExpected(Some(first), rest);
      ClaudeAddsUpFrom(Some(first), rest, c, if tell.Some? then tell else seen);
      if baseline.Some? {
        DifferenceCommutes(baseline.value, first);
      }
      hide ClaudeDifference, ClaudeCounts;
    }
  }

  /**
    Over any number of turns the expected counts of a counter add up to its last value less its
    first, without what it moved while snapshots did not have it, and for the total without the
    cache counts that came and went.
   */
  lemma ClaudeAddsUp(baseline: Option<Claude>, snapshots: seq<Claude>, c: Counter)
    ensures var start := ClaudeStart(baseline, c);
            SumOf(ClaudeExpected(baseline, snapshots), c)
            == OrZero(Last(start, snapshots, c)) - OrZero(First(start, snapshots, c))
               - Skipped(start, start, snapshots, c) - (if c.Total? then StraysOf(baseline, snapshots) else 0)
  {
    ClaudeAddsUpFrom(baseline, snapshots, c, ClaudeStart(baseline, c));
  }

  /** Every snapshot has the counter, and for the total the same cache counts too. */
  predicate Steady(all: seq<Claude>, c: Counter) {
    && (forall s | s in all :: ClaudeTell(s, c).Some?)
    && (c.Total? ==> forall s, t | s in all && t in all ::
          s.cached.Some? == t.cached.Some? && s.written.Some? == t.written.Some?)
  }

  /** With the counter in every snapshot nothing is skipped and nothing comes and goes. */
  lemma {:induction false} SteadyAddsUp(baseline: Option<Claude>, snapshots: seq<Claude>, c: Counter)
    requires Steady((if baseline.Some? then [baseline.value] else []) + snapshots, c)
    ensures var start := ClaudeStart(baseline, c);
            && Skipped(start, start, snapshots, c) == 0 && (c.Total? ==> StraysOf(baseline, snapshots) == 0)
            && First(start, snapshots, c) == start
            && Last(start, snapshots, c)
               == if snapshots == [] then start else ClaudeTell(snapshots[|snapshots| - 1], c)
    decreases |snapshots|
  {
    var all := (if baseline.Some? then [baseline.value] else []) + snapshots;
    assert baseline.Some? ==> baseline.value in all;
    if snapshots != [] {
      var first, rest := snapshots[0], snapshots[1..];
      assert first in all;
      hide ClaudeCounts;
      forall s | s in [first] + rest ensures s in all {
      }
      SteadyAddsUp(Some(first), rest, c);
    }
  }
}
