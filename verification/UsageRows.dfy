/**
  The rows of a reconciled turn told by the events and the baseline alone: which thread and which
  update each is about, what it takes off, and under which names.
 */
module UsageRows {
  import opened Wrappers
  import opened UsageEvidence

  // The order of rows: threads as they first report, updates as they first come.

  lemma {:induction false} PutInPlace<V>(d: seq<Entry<V>>, key: string, value: V)
    ensures Find(d, key).None? ==> Put(d, key, value) == d + [Entry(key, value)]
    ensures Find(d, key).Some? ==>
              |Put(d, key, value)| == |d| && forall i | 0 <= i < |d| :: Put(d, key, value)[i].key == d[i].key
  {
    if d != [] && d[0].key != key {
      PutInPlace(d[1..], key, value);
      assert Put(d, key, value) == [d[0]] + Put(d[1..], key, value);
    }
  }

  ghost predicate ReportsAt(events: seq<Event>, thread: string, m: int) {
    0 <= m < |events| && events[m].Totals? && events[m].thread == thread
  }

  /** One thread reports before another does. */
  ghost predicate ReportsBefore(events: seq<Event>, thread: string, other: string) {
    exists m :: ReportsAt(events, thread, m) && forall k | 0 <= k <= m :: !ReportsAt(events, other, k)
  }

  /** The thread of the first totals there are. */
  ghost predicate FirstToReport(events: seq<Event>, thread: string) {
    exists m :: ReportsAt(events, thread, m) && forall k | 0 <= k < m :: !events[k].Totals?
  }

  lemma {:induction false} ReportedOnce(events: seq<Event>, thread: string)
    ensures LastTotals(events, thread).Some? <==> exists m :: ReportsAt(events, thread, m)
  {
    if events != [] {
      var n := |events| - 1;
      ReportedOnce(events[..n], thread);
      if m :| ReportsAt(events[..n], thread, m) {
        assert ReportsAt(events, thread, m);
      }
      if m :| ReportsAt(events, thread, m) {
        assert m == n || ReportsAt(events[..n], thread, m);
      }
      assert events[n].Totals? && events[n].thread == thread ==> ReportsAt(events, thread, n);
    }
  }

  lemma StillBefore(earlier: seq<Event>, events: seq<Event>, thread: string, other: string)
    requires earlier <= events && ReportsBefore(earlier, thread, other)
    ensures ReportsBefore(events, thread, other)
  {
    var m :| ReportsAt(earlier, thread, m) && forall k | 0 <= k <= m :: !ReportsAt(earlier, other, k);
    assert ReportsAt(events, thread, m);
    assert forall k | 0 <= k <= m :: events[k] == earlier[k];
    assert forall k | 0 <= k <= m && ReportsAt(events, other, k) :: ReportsAt(earlier, other, k);
  }

  lemma NewComesLast(events: seq<Event>, thread: string)
    requires events != [] && events[|events| - 1].Totals?
    requires LastTotals(events[..|events| - 1], thread).Some?
    requires LastTotals(events[..|events| - 1], events[|events| - 1].thread).None?
    ensures ReportsBefore(events, thread, events[|events| - 1].thread)
  {
    var n := |events| - 1;
    var other := events[n].thread;
    ReportedOnce(events[..n], thread);
    ReportedOnce(events[..n], other);
    var m :| ReportsAt(events[..n], thread, m);
    assert ReportsAt(events, thread, m);
    assert forall k | 0 <= k <= m && ReportsAt(events, other, k) :: ReportsAt(events[..n], other, k);
  }

  /** Threads come in the order of their first reports. */
  lemma {:induction false} ThreadsInOrder(events: seq<Event>, i: nat, j: nat)
    requires i < j < |ThreadTotals(events)|
    ensures ReportsBefore(events, ThreadTotals(events)[i].key, ThreadTotals(events)[j].key)
    decreases |events|
  {
    var n := |events| - 1;
    var earlier, last, d := events[..n], events[n], ThreadTotals(events[..n]);
    if last.Totals? {
      PutInPlace(d, last.thread, last.totals);
      TotalsAreLast(earlier, last.thread);
    }
    if j < |d| {
      ThreadsInOrder(earlier, i, j);
      StillBefore(earlier, events, d[i].key, d[j].key);
    } else {
      TotalsAreLast(earlier, d[i].key);
      FoundAt(d, i);
      NewComesLast(events, d[i].key);
    }
  }

  /** The first row is that of the first thread to report. */
  lemma {:induction false} FirstIsFirst(events: seq<Event>, thread: string)
    ensures FirstToReport(events, thread) <==> ThreadTotals(events) != [] && ThreadTotals(events)[0].key == thread
    ensures ThreadTotals(events) == [] <==> forall e | e in events :: !e.Totals?
  {
    if events != [] {
      var n := |events| - 1;
      var earlier, last, d := events[..n], events[n], ThreadTotals(events[..n]);
      FirstIsFirst(earlier, thread);
      assert events == earlier + [last];
      if last.Totals? {
        PutInPlace(d, last.thread, last.totals);
      }
      FirstOfPrefix(events, thread);
    }
  }

  lemma FirstOfPrefix(events: seq<Event>, thread: string)
    requires events != []
    ensures var n := |events| - 1;
            FirstToReport(events, thread) <==>
              || FirstToReport(events[..n], thread)
              || ((forall e | e in events[..n] :: !e.Totals?) && ReportsAt(events, thread, n))
  {
    var n := |events| - 1;
    var earlier := events[..n];
    if FirstToReport(earlier, thread) {
      var m :| ReportsAt(earlier, thread, m) && forall k | 0 <= k < m :: !earlier[k].Totals?;
      assert ReportsAt(events, thread, m) && forall k | 0 <= k < m :: events[k] == earlier[k];
    }
    if FirstToReport(events, thread) {
      var m :| ReportsAt(events, thread, m) && forall k | 0 <= k < m :: !events[k].Totals?;
      if m < n {
        assert ReportsAt(earlier, thread, m) && forall k | 0 <= k < m :: events[k] == earlier[k];
      } else {
        assert forall k | 0 <= k < n :: events[k] == earlier[k];
      }
    }
  }

  // Which updates count.

  /** An update for an id that says what was used, and has not been taken back. */
  ghost predicate CountsAt(events: seq<Event>, id: string, m: int) {
    && 0 <= m < |events| && events[m].Update? && events[m].id == id
    && !events[m].report.contextOnly && !events[m].report.invalidated
  }

  /** The update kept for an id: of those that count the first with the highest revision. */
  ghost predicate KeptAt(events: seq<Event>, id: string, report: Report, m: int) {
    && CountsAt(events, id, m) && events[m].report == report
    && (forall k | CountsAt(events, id, k) :: events[k].report.revision <= report.revision)
    && (forall k | CountsAt(events, id, k) && k < m :: events[k].report.revision < report.revision)
  }

  lemma {:induction false} LatestExactly(events: seq<Event>, id: string)
    ensures var kept := Find(LatestUpdates(events), id);
            if kept.Some? then exists m :: KeptAt(events, id, kept.value, m)
            else forall m :: !CountsAt(events, id, m)
  {
    if events != [] {
      var n := |events| - 1;
      var earlier, last, d := events[..n], events[n], LatestUpdates(events[..n]);
      LatestExactly(earlier, id);
      assert forall m :: CountsAt(events, id, m) <==> CountsAt(earlier, id, m) || (m == n && CountsAt(events, id, n));
      if Consumes(last) {
        FindPut(d, last.id, last.report, id);
      }
      var before := Find(d, id);
      if CountsAt(events, id, n) && (before.None? || last.report.revision > before.value.revision) {
        assert KeptAt(events, id, last.report, n);
      } else if before.Some? {
        var m :| KeptAt(earlier, id, before.value, m);
        assert KeptAt(events, id, before.value, m);
      }
    }
  }

  /** One update comes before another does. */
  ghost predicate CountsBefore(events: seq<Event>, id: string, other: string) {
    exists m :: CountsAt(events, id, m) && forall k | 0 <= k <= m :: !CountsAt(events, other, k)
  }

  lemma StillCountsBefore(earlier: seq<Event>, events: seq<Event>, id: string, other: string)
    requires earlier <= events && CountsBefore(earlier, id, other)
    ensures CountsBefore(events, id, other)
  {
    var m :| CountsAt(earlier, id, m) && forall k | 0 <= k <= m :: !CountsAt(earlier, other, k);
    assert CountsAt(events, id, m);
    assert forall k | 0 <= k <= m && CountsAt(events, other, k) :: CountsAt(earlier, other, k);
  }

  lemma NewCountsLast(events: seq<Event>, id: string)
    requires events != [] && events[|events| - 1].Update?
    requires CountsAt(events, events[|events| - 1].id, |events| - 1)
    requires Find(LatestUpdates(events[..|events| - 1]), id).Some?
    requires Find(LatestUpdates(events[..|events| - 1]), events[|events| - 1].id).None?
    ensures CountsBefore(events, id, events[|events| - 1].id)
  {
    var n := |events| - 1;
    var earlier, other := events[..n], events[n].id;
    LatestExactly(earlier, id);
    LatestExactly(earlier, other);
    var m :| KeptAt(earlier, id, Find(LatestUpdates(earlier), id).value, m);
    assert CountsAt(events, id, m);
    assert forall k | 0 <= k <= m && CountsAt(events, other, k) :: CountsAt(earlier, other, k);
  }

  /** Updates come in the order in which their ids first count. */
  lemma {:induction false} UpdatesInOrder(events: seq<Event>, i: nat, j: nat)
    requires i < j < |LatestUpdates(events)|
    ensures CountsBefore(events, LatestUpdates(events)[i].key, LatestUpdates(events)[j].key)
    decreases |events|
  {
    var n := |events| - 1;
    var earlier, last, d := events[..n], events[n], LatestUpdates(events[..n]);
    if Consumes(last) {
      PutInPlace(d, last.id, last.report);
    }
    if j < |d| {
      UpdatesInOrder(earlier, i, j);
      StillCountsBefore(earlier, events, d[i].key, d[j].key);
    } else {
      UpdatesAreLatest(earlier, d[i].key);
      FoundAt(d, i);
      NewCountsLast(events, d[i].key);
    }
  }

  // What a row says.

  /** What a thread had used of a counter before a turn. */
  ghost function UsedBefore(baseline: Baseline, events: seq<Event>, thread: string, name: string): int {
    match baseline
    case Nothing => 0
    case Single(totals) => if FirstToReport(events, thread) && name in totals then totals[name] else 0
    case Threads(d) =>
      var found := Find(d, thread);
      if found.Some? && name in found.value then found.value[name] else 0
  }

  /** The counts of a source under its own names; the prompt includes the cache, the input does not. */
  ghost predicate CountsOf(source: Snapshot, counts: Counts) {
    && (counts.input.Some? <==> "inputTokens" in source)
    && (counts.input.Some? ==>
          counts.input.value == source["inputTokens"]
                                - (if "cachedInputTokens" in source then source["cachedInputTokens"] else 0)
                                - (if "cacheWriteInputTokens" in source then source["cacheWriteInputTokens"] else 0))
    && counts.cached == (if "cachedInputTokens" in source then Some(source["cachedInputTokens"]) else None)
    && counts.written == (if "cacheWriteInputTokens" in source then Some(source["cacheWriteInputTokens"]) else None)
    && counts.output == (if "outputTokens" in source then Some(source["outputTokens"]) else None)
    && counts.reasoning == (if "reasoningOutputTokens" in source then Some(source["reasoningOutputTokens"]) else None)
    && counts.total == (if "totalTokens" in source then Some(source["totalTokens"]) else None)
  }

  lemma CountsExactly(source: Snapshot)
    ensures CountsOf(source, CodexCounts(source))
  {
  }

  /** Two counts agree where the expected one has a counter at all. */
  lemma AgreesExactly(expected: Counts, actual: Counts)
    ensures Agrees(expected, actual) <==>
              forall c: Counter | expected.Get(c).Some? :: actual.Get(c) == expected.Get(c)
  {
    if forall c: Counter | expected.Get(c).Some? :: actual.Get(c) == expected.Get(c) {
      assert expected.Get(Input).Some? ==> actual.Get(Input) == expected.Get(Input);
      assert expected.Get(Cached).Some? ==> actual.Get(Cached) == expected.Get(Cached);
      assert expected.Get(Written).Some? ==> actual.Get(Written) == expected.Get(Written);
      assert expected.Get(Output).Some? ==> actual.Get(Output) == expected.Get(Output);
      assert expected.Get(Reasoning).Some? ==> actual.Get(Reasoning) == expected.Get(Reasoning);
      assert expected.Get(Total).Some? ==> actual.Get(Total) == expected.Get(Total);
    }
  }

  lemma BeforeExactly(events: seq<Event>, baseline: Baseline, i: nat, name: string)
    requires i < |ThreadTotals(events)|
    ensures OrZero(Told(Before(baseline, ThreadTotals(events)[i].key, i), name))
            == UsedBefore(baseline, events, ThreadTotals(events)[i].key, name)
  {
    FirstIsFirst(events, ThreadTotals(events)[i].key);
    TotalsAreLast(events, ThreadTotals(events)[i].key);
  }

  /** What the row of one thread and one update says. */
  ghost predicate RowTells(row: Row, events: seq<Event>, baseline: Baseline, thread: string, id: string) {
    var last := LastTotals(events, thread);
    && last.Some? && row.source.Keys == last.value.Keys
    && (forall name | name in last.value ::
          row.source[name] == last.value[name] - UsedBefore(baseline, events, thread, name))
    && CountsOf(row.source, row.expected)
    && exists m, report :: KeptAt(events, id, report, m) && row.actual == report.usage
  }

  /**
    A row is about one thread and one update: it holds for each counter in the thread's last totals
    how much it rose since before the turn, what that comes to in counts, and what was reported.
   */
  lemma RowsExactly(rows: seq<Row>, events: seq<Event>, baseline: Baseline, i: nat)
    requires RowsFor(rows, events, baseline) && i < |rows|
    ensures RowTells(rows[i], events, baseline, ThreadTotals(events)[i].key, LatestUpdates(events)[i].key)
  {
    var d := ThreadTotals(events);
    TotalsAreLast(events, d[i].key);
    FoundAt(d, i);
    CountsExactly(rows[i].source);
    forall name | name in d[i].value
      ensures rows[i].source[name] == d[i].value[name] - UsedBefore(baseline, events, d[i].key, name)
    {
      BeforeExactly(events, baseline, i, name);
    }
    var updates := LatestUpdates(events);
    UpdatesAreLatest(events, updates[i].key);
    FoundAt(updates, i);
    LatestExactly(events, updates[i].key);
  }

  /** With one thread's totals before it, only the first thread to report has anything taken off. */
  lemma SingleRows(rows: seq<Row>, events: seq<Event>, totals: Snapshot, i: nat)
    requires RowsFor(rows, events, Single(totals)) && i < |rows|
    ensures var last := LastTotals(events, ThreadTotals(events)[i].key);
            && last.Some? && rows[i].source.Keys == last.value.Keys
            && (i > 0 ==> rows[i].source == last.value)
            && (i == 0 ==> forall name | name in last.value ::
                  rows[0].source[name] == last.value[name] - if name in totals then totals[name] else 0)
    ensures FirstToReport(events, ThreadTotals(events)[i].key) <==> i == 0
  {
    var thread := ThreadTotals(events)[i].key;
    RowsExactly(rows, events, Single(totals), i);
    FirstIsFirst(events, thread);
    TotalsAreLast(events, thread);
  }

  // What a run starts from.

  lemma StartExactly(baseline: Baseline, turns: seq<seq<Event>>, thread: string, name: string)
    ensures Start(baseline, turns, thread, name)
            == if turns == [] then 0 else UsedBefore(baseline, turns[0], thread, name)
  {
    if turns != [] {
      FirstIsFirst(turns[0], thread);
    }
  }

  /** What the usage of a counter comes to over a run that starts from a value. */
  function Due(before: int, tells: seq<Option<int>>): int {
    (if AnyTold(tells) then LastTold(tells) - before else 0) + Forgotten(before, tells)
  }

  ghost function DueFrom(baseline: Baseline, turns: seq<seq<Event>>, thread: string, name: string): int
    requires turns != []
  {
    Due(UsedBefore(baseline, turns[0], thread, name), Tells(turns, thread, name))
  }

  /** The usage of a run adds up from what the baseline itself says of the thread. */
  lemma AddsUpFromBaseline(run: seq<seq<Row>>, turns: seq<seq<Event>>, baseline: Baseline, thread: string)
    requires turns != [] && RunFor(run, turns, baseline)
    ensures SumVouched(run, turns, thread, Cached) == DueFrom(baseline, turns, thread, "cachedInputTokens")
    ensures SumVouched(run, turns, thread, Written) == DueFrom(baseline, turns, thread, "cacheWriteInputTokens")
    ensures SumVouched(run, turns, thread, Output) == DueFrom(baseline, turns, thread, "outputTokens")
    ensures SumVouched(run, turns, thread, Reasoning) == DueFrom(baseline, turns, thread, "reasoningOutputTokens")
    ensures SumVouched(run, turns, thread, Total) == DueFrom(baseline, turns, thread, "totalTokens")
    ensures SumVouched(run, turns, thread, Input)
            == DueFrom(baseline, turns, thread, "inputTokens") - DueFrom(baseline, turns, thread, "cachedInputTokens")
               - DueFrom(baseline, turns, thread, "cacheWriteInputTokens") + Unprompted(baseline, turns, thread)
  {
    hide RunFor, SumVouched, Unprompted, DueFrom, DueOf;
    forall c: Counter ensures DueOf(baseline, turns, thread, c) == DueFrom(baseline, turns, thread, CodexName(c)) {
      DueExactly(baseline, turns, thread, c);
    }
    UsageAddsUp(run, turns, baseline, thread, Cached);
    UsageAddsUp(run, turns, baseline, thread, Written);
    UsageAddsUp(run, turns, baseline, thread, Output);
    UsageAddsUp(run, turns, baseline, thread, Reasoning);
    UsageAddsUp(run, turns, baseline, thread, Total);
    UsageAddsUp(run, turns, baseline, thread, Input);
  }

  lemma DueExactly(baseline: Baseline, turns: seq<seq<Event>>, thread: string, c: Counter)
    requires turns != []
    ensures DueOf(baseline, turns, thread, c) == DueFrom(baseline, turns, thread, CodexName(c))
  {
    StartExactly(baseline, turns, thread, CodexName(c));
  }

  /** For one thread's totals: they are what its counters start from, and those of any other thread from zero. */
  lemma SingleAddsUp(run: seq<seq<Row>>, turns: seq<seq<Event>>, totals: Snapshot, thread: string, c: Counter)
    requires turns != [] && RunFor(run, turns, Single(totals)) && c != Input
    ensures var name, first := CodexName(c), FirstToReport(turns[0], thread);
            SumVouched(run, turns, thread, c)
            == Due(if first && name in totals then totals[name] else 0, Tells(turns, thread, name))
  {
    UsageAddsUp(run, turns, Single(totals), thread, c);
    DueExactly(Single(totals), turns, thread, c);
  }

  // The reconciler.

  /** One turn: its rows and the baseline for the next, unless the reports do not reconcile. */
  method Reconcile(events: seq<Event>, baseline: Baseline) returns (rows: Option<seq<Row>>, next: Baseline)
    ensures rows.Some? <==> Reconciles(events, baseline)
    ensures rows.Some? ==> RowsFor(rows.value, events, baseline) && next == Threads(ThreadTotals(events))
    ensures rows.Some? ==>
              forall i | 0 <= i < |rows.value| ::
                RowTells(rows.value[i], events, baseline, ThreadTotals(events)[i].key, LatestUpdates(events)[i].key)
  {
    var threads := CollectTotals(events);
    var latest := CollectUpdates(events);
    next := baseline;
    if |threads| == 0 || |threads| != |latest| {
      return None, next;
    }
    var done: seq<Row> := [];
    for i := 0 to |threads|
      invariant |done| == i
      invariant forall j | 0 <= j < i ::
                  done[j] == RowFor(events, baseline, j) && Agrees(done[j].expected, done[j].actual)
    {
      var row := RowFor(events, baseline, i);
      if !Agrees(row.expected, row.actual) {
        return None, next;
      }
      done := done + [row];
    }
    forall i | 0 <= i < |done|
      ensures RowTells(done[i], events, baseline, ThreadTotals(events)[i].key, LatestUpdates(events)[i].key)
    {
      RowsExactly(done, events, baseline, i);
    }
    return Some(done), Threads(threads);
  }

  /** A run of turns, reconciled one after the other until one does not reconcile. */
  method ReconcileRun(turns: seq<seq<Event>>, baseline: Baseline) returns (run: Option<seq<seq<Row>>>)
    ensures run.Some? <==> AllReconcile(turns, baseline)
    ensures run.Some? ==>
              && RunFor(run.value, turns, baseline)
              && (forall thread, c: Counter | c != Input ::
                    SumVouched(run.value, turns, thread, c) == DueOf(baseline, turns, thread, c))
              && (forall thread ::
                    SumVouched(run.value, turns, thread, Input)
                    == DueOf(baseline, turns, thread, Input) - DueOf(baseline, turns, thread, Cached)
                       - DueOf(baseline, turns, thread, Written) + Unprompted(baseline, turns, thread))
              && (turns != [] ==> forall thread, c: Counter ::
                    DueOf(baseline, turns, thread, c) == DueFrom(baseline, turns, thread, CodexName(c)))
  {
    hide Reconciles, RowsFor, SumVouched, DueOf, Unprompted;
    var done: seq<seq<Row>> := [];
    var next := baseline;
    for i := 0 to |turns|
      invariant |done| == i && next == BaselineAt(turns, baseline, i)
      invariant forall j | 0 <= j < i ::
                  && Reconciles(turns[j], BaselineAt(turns, baseline, j))
                  && RowsFor(done[j], turns[j], BaselineAt(turns, baseline, j))
    {
      var rows;
      rows, next := Reconcile(turns[i], next);
      if rows.None? {
        return None;
      }
      done := done + [rows.value];
    }
    forall thread, c: Counter | c != Input
      ensures SumVouched(done, turns, thread, c) == DueOf(baseline, turns, thread, c)
    {
      UsageAddsUp(done, turns, baseline, thread, c);
    }
    forall thread
      ensures SumVouched(done, turns, thread, Input)
              == DueOf(baseline, turns, thread, Input) - DueOf(baseline, turns, thread, Cached)
                 - DueOf(baseline, turns, thread, Written) + Unprompted(baseline, turns, thread)
    {
      UsageAddsUp(done, turns, baseline, thread, Input);
    }
    forall thread, c: Counter | turns != []
      ensures DueOf(baseline, turns, thread, c) == DueFrom(baseline, turns, thread, CodexName(c))
    {
      DueExactly(baseline, turns, thread, c);
    }
    return Some(done);
  }

  // Claude Code.

  /** The counts of a snapshot; the total takes in the cache, and there is one if prompt and output are known. */
  lemma ClaudeExactly(raw: Claude)
    ensures var counts := ClaudeCounts(raw);
            && counts.input == raw.input && counts.cached == raw.cached && counts.written == raw.written
            && counts.output == raw.output && counts.reasoning == raw.thinking
            && (counts.total.Some? <==> raw.input.Some? && raw.output.Some?)
            && (counts.total.Some? ==>
                  counts.total.value == raw.input.value + (if raw.cached.Some? then raw.cached.value else 0)
                                        + (if raw.written.Some? then raw.written.value else 0) + raw.output.value)
  {
  }
}
