/** Token counters of a chat turn, kept from usage reports that repeat and arrive out of order. */
module ChatTokens {
  import opened Wrappers

  /** A usage report is filed under its usage id, its interaction id, or the block it came in. */
  datatype Key = Named(name: string) | Object(block: nat)

  datatype Usage = Usage(revision: int, output: Option<int>, invalidated: bool, complete: bool, contextOnly: bool,
                         estimated: bool, contextTokens: Option<int>, perTurn: bool, incremental: bool,
                         total: Option<int>, input: Option<int>, cached: Option<int>, written: Option<int>)

  datatype Block =
    | Spoken(block: nat, length: nat)
    | Report(block: nat, usageId: string, interactionId: string, usage: Usage)
    | Other

  datatype Turn = Turn(lengths: map<nat, nat>, usages: map<Key, Usage>, characters: nat, reported: nat,
                       output: int, hasOutput: bool)

  const NEW_TURN := Turn(map[], map[], 0, 0, 0, false)

  function KeyOf(report: Block): Key
    requires report.Report?
  {
    if report.usageId != "" then Named(report.usageId)
    else if report.interactionId != "" then Named(report.interactionId)
    else Object(report.block)
  }

  /** The output a key is on record with. */
  function OnRecord(usages: map<Key, Usage>, key: Key): int {
    if key in usages then OrZero(usages[key].output) else 0
  }

  /** A report that is news: the first for its key, or a later revision than the one on record. */
  predicate IsNews(usages: map<Key, Usage>, report: Block)
    requires report.Report?
  {
    KeyOf(report) in usages ==> usages[KeyOf(report)].revision < report.usage.revision
  }

  /** A report whose output goes into the total. */
  predicate Counts(usage: Usage) {
    !usage.invalidated && usage.output.Some?
  }

  function Observed(t: Turn, block: Block): Turn {
    match block
    case Spoken(id, length) =>
      var before := if id in t.lengths then t.lengths[id] else 0;
      t.(lengths := t.lengths[id := length],
         characters := t.characters + if length > before then length - before else 0)
    case Report(_, _, _, usage) =>
      if !IsNews(t.usages, block) then t
      else
        var t' := t.(usages := t.usages[KeyOf(block) := usage]);
        if Counts(usage) then
          t'.(output := t.output + usage.output.value - OnRecord(t.usages, KeyOf(block)),
              hasOutput := true, reported := t.characters)
        else t'
    case Other => t
  }

  function ObservedAll(t: Turn, blocks: seq<Block>): Turn
    decreases |blocks|
  {
    if blocks == [] then t else ObservedAll(Observed(t, blocks[0]), blocks[1..])
  }

  lemma {:induction false} ObservedLast(t: Turn, blocks: seq<Block>)
    requires blocks != []
    ensures ObservedAll(t, blocks) == Observed(ObservedAll(t, blocks[..|blocks| - 1]), blocks[|blocks| - 1])
    decreases |blocks|
  {
    if |blocks| > 1 {
      assert blocks[1..][..|blocks| - 2] == blocks[..|blocks| - 1][1..];
      ObservedLast(Observed(t, blocks[0]), blocks[1..]);
    }
  }

  // The total.

  /** The sum of the outputs on record. */
  ghost function SumOnRecord(usages: map<Key, Usage>): int
    decreases |usages|
  {
    if usages == map[] then 0
    else
      var key :| key in usages;
      OnRecord(usages, key) + SumOnRecord(usages - {key})
  }

  lemma {:induction false} SumWithout(usages: map<Key, Usage>, key: Key)
    requires key in usages
    ensures SumOnRecord(usages) == OnRecord(usages, key) + SumOnRecord(usages - {key})
    decreases |usages|
  {
    var first :| first in usages && SumOnRecord(usages) == OnRecord(usages, first) + SumOnRecord(usages - {first});
    if first != key {
      SumWithout(usages - {first}, key);
      SumWithout(usages - {key}, first);
      var least := usages - {first} - {key};
      assert least == usages - {key} - {first};
      assert OnRecord(usages - {first}, key) == OnRecord(usages, key);
      assert OnRecord(usages - {key}, first) == OnRecord(usages, first);
    }
  }

  lemma SumUpdated(usages: map<Key, Usage>, key: Key, usage: Usage)
    ensures SumOnRecord(usages[key := usage]) == SumOnRecord(usages) - OnRecord(usages, key) + OrZero(usage.output)
  {
    var after := usages[key := usage];
    SumWithout(after, key);
    if key in usages {
      SumWithout(usages, key);
      assert after - {key} == usages - {key};
    } else {
      assert after - {key} == usages;
    }
  }

  /** By how much news that does not count moves the record without moving the total. */
  function Drift(t: Turn, blocks: seq<Block>): int
    decreases |blocks|
  {
    if blocks == [] then 0
    else
      var block := blocks[0];
      (if block.Report? && IsNews(t.usages, block) && !Counts(block.usage)
       then OrZero(block.usage.output) - OnRecord(t.usages, KeyOf(block)) else 0)
      + Drift(Observed(t, block), blocks[1..])
  }

  lemma {:induction false} TotalFrom(t: Turn, blocks: seq<Block>)
    ensures var t' := ObservedAll(t, blocks);
            t'.output - SumOnRecord(t'.usages) == t.output - SumOnRecord(t.usages) - Drift(t, blocks)
    decreases |blocks|
  {
    if blocks != [] {
      if blocks[0].Report? {
        SumUpdated(t.usages, KeyOf(blocks[0]), blocks[0].usage);
      }
      TotalFrom(Observed(t, blocks[0]), blocks[1..]);
    }
  }

  /**
    After any sequence of blocks the total is the sum of the outputs on record less the drift,
    so it is that sum exactly when the drift is zero, which it is when every report counts.
   */
  lemma TotalIsSumOnRecord(blocks: seq<Block>)
    ensures var t := ObservedAll(NEW_TURN, blocks);
            && t.output == SumOnRecord(t.usages) - Drift(NEW_TURN, blocks)
            && (t.output == SumOnRecord(t.usages) <==> Drift(NEW_TURN, blocks) == 0)
    ensures (forall b | b in blocks && b.Report? :: Counts(b.usage)) ==> Drift(NEW_TURN, blocks) == 0
  {
    TotalFrom(NEW_TURN, blocks);
    if forall b | b in blocks && b.Report? :: Counts(b.usage) {
      NoDrift(NEW_TURN, blocks);
    }
  }

  lemma {:induction false} NoDrift(t: Turn, blocks: seq<Block>)
    requires forall b | b in blocks && b.Report? :: Counts(b.usage)
    ensures Drift(t, blocks) == 0
    decreases |blocks|
  {
    if blocks != [] {
      assert blocks[0] in blocks;
      NoDrift(Observed(t, blocks[0]), blocks[1..]);
    }
  }

  const FIRST_REPORT := Usage(1, Some(10), false, true, false, false, None, false, false, None, None, None, None)
  const WITHDRAWN := FIRST_REPORT.(revision := 2, output := None, invalidated := true)
  const RESTATED := FIRST_REPORT.(revision := 3)
  const THREE_REPORTS :=
    [Report(0, "u", "", FIRST_REPORT), Report(1, "u", "", WITHDRAWN), Report(2, "u", "", RESTATED)]

  /** A count that is withdrawn and then restated is added twice. */
  lemma WithdrawnIsCountedAgain()
    ensures var t := ObservedAll(NEW_TURN, THREE_REPORTS);
            t.output == 20 && SumOnRecord(t.usages) == 10 && Drift(NEW_TURN, THREE_REPORTS) == -10
  {
    var blocks := THREE_REPORTS;
    var key := Named("u");
    assert KeyOf(blocks[0]) == KeyOf(blocks[1]) == KeyOf(blocks[2]) == key;
    var one := Observed(NEW_TURN, blocks[0]);
    var two := Observed(one, blocks[1]);
    var three := Observed(two, blocks[2]);
    assert one.output == 10 && two.output == 10 && three.output == 20;
    assert ObservedAll(three, []) == three;
    assert ObservedAll(two, blocks[2..]) == three by { assert blocks[2..][1..] == []; }
    assert ObservedAll(one, blocks[1..]) == three by { assert blocks[1..][1..] == blocks[2..]; }
    SumUpdated(map[], key, FIRST_REPORT);
    SumUpdated(one.usages, key, WITHDRAWN);
    SumUpdated(two.usages, key, RESTATED);
    TotalIsSumOnRecord(blocks);
  }

  // What is on record.

  /** A usage was reported for a key. */
  ghost predicate Reported(blocks: seq<Block>, key: Key, usage: Usage) {
    exists i :: 0 <= i < |blocks| && blocks[i].Report? && KeyOf(blocks[i]) == key && blocks[i].usage == usage
  }

  /** Each key reported is on record with a usage reported for it that no other outdates. */
  ghost predicate HoldsLatest(usages: map<Key, Usage>, blocks: seq<Block>) {
    && (forall key | key in usages :: Reported(blocks, key, usages[key]))
    && (forall key, usage | Reported(blocks, key, usage) :: key in usages && usage.revision <= usages[key].revision)
  }

  lemma {:induction false} LatestOnRecord(blocks: seq<Block>)
    ensures HoldsLatest(ObservedAll(NEW_TURN, blocks).usages, blocks)
    decreases |blocks|
  {
    if blocks != [] {
      var n := |blocks| - 1;
      LatestOnRecord(blocks[..n]);
      ObservedLast(NEW_TURN, blocks);
      LatestStep(ObservedAll(NEW_TURN, blocks[..n]), blocks);
    }
  }

  /** One block more reports what it reports and nothing else. */
  lemma ReportedLast(blocks: seq<Block>, key: Key, usage: Usage)
    requires blocks != []
    ensures var last := blocks[|blocks| - 1];
            Reported(blocks, key, usage)
            <==> Reported(blocks[..|blocks| - 1], key, usage)
                 || (last.Report? && KeyOf(last) == key && last.usage == usage)
  {
    var n := |blocks| - 1;
    var earlier := blocks[..n];
    assert forall i | 0 <= i < n :: earlier[i] == blocks[i];
    if Reported(earlier, key, usage) {
      var i :| 0 <= i < n && earlier[i].Report? && KeyOf(earlier[i]) == key && earlier[i].usage == usage;
      assert blocks[i] == earlier[i];
    }
  }

  lemma LatestStep(t: Turn, blocks: seq<Block>)
    requires blocks != [] && HoldsLatest(t.usages, blocks[..|blocks| - 1])
    ensures HoldsLatest(Observed(t, blocks[|blocks| - 1]).usages, blocks)
  {
    hide Reported;
    var usages := Observed(t, blocks[|blocks| - 1]).usages;
    forall key, usage | Reported(blocks, key, usage) ensures key in usages && usage.revision <= usages[key].revision {
      ReportedLast(blocks, key, usage);
    }
    forall key | key in usages ensures Reported(blocks, key, usages[key]) {
      ReportedLast(blocks, key, usages[key]);
    }
  }

  /** The same reports, whatever their order and however often each arrives. */
  ghost predicate SameReports(a: seq<Block>, b: seq<Block>) {
    forall key, usage :: Reported(a, key, usage) <==> Reported(b, key, usage)
  }

  /** No two different reports for a key carry the same revision. */
  ghost predicate NoTies(blocks: seq<Block>) {
    forall key, u, v | Reported(blocks, key, u) && Reported(blocks, key, v) && u.revision == v.revision :: u == v
  }

  /** The record, and with reports that all count the total too, do not depend on the order of arrival. */
  lemma OrderDoesNotMatter(a: seq<Block>, b: seq<Block>)
    requires SameReports(a, b) && NoTies(a)
    ensures ObservedAll(NEW_TURN, a).usages == ObservedAll(NEW_TURN, b).usages
    ensures (forall x | x in a && x.Report? :: Counts(x.usage))
            && (forall x | x in b && x.Report? :: Counts(x.usage)) ==>
              ObservedAll(NEW_TURN, a).output == ObservedAll(NEW_TURN, b).output
  {
    var s, t := ObservedAll(NEW_TURN, a).usages, ObservedAll(NEW_TURN, b).usages;
    LatestOnRecord(a);
    LatestOnRecord(b);
    forall key | key in s ensures key in t && t[key] == s[key] {
      assert Reported(a, key, s[key]) && Reported(b, key, s[key]);
      assert Reported(b, key, t[key]) && Reported(a, key, t[key]);
    }
    forall key | key in t ensures key in s {
      assert Reported(b, key, t[key]) && Reported(a, key, t[key]);
    }
    assert s == t;
    TotalIsSumOnRecord(a);
    TotalIsSumOnRecord(b);
  }

  /** Characters reported on never exceed those seen, so the estimate of the rest is never negative. */
  lemma {:induction false} PendingIsNotNegative(t: Turn, blocks: seq<Block>)
    requires t.reported <= t.characters
    ensures ObservedAll(t, blocks).reported <= ObservedAll(t, blocks).characters
    decreases |blocks|
  {
    if blocks != [] {
      PendingIsNotNegative(Observed(t, blocks[0]), blocks[1..]);
    }
  }

  /** The context a report leaves on display, if any. */
  function RestoredContext(usage: Usage): Option<int> {
    if usage.invalidated then None
    else if usage.contextTokens.Some? then usage.contextTokens
    else if usage.perTurn || usage.incremental then None
    else if usage.total.Some? then usage.total
    else if usage.input.Some? && usage.output.Some? then
      Some(usage.input.value + OrZero(usage.cached) + OrZero(usage.written) + usage.output.value)
    else None
  }

  /** Whether a report tells how full the context is: outright, or by the counts of a whole request. */
  predicate TellsContext(usage: Usage) {
    !usage.invalidated
    && (usage.contextTokens.Some?
        || (!usage.perTurn && !usage.incremental && (usage.total.Some? || (usage.input.Some? && usage.output.Some?))))
  }

  /** Counts that are not negative, with no sum below the output it includes. */
  predicate Plausible(usage: Usage) {
    && OrZero(usage.input) >= 0 && OrZero(usage.cached) >= 0 && OrZero(usage.written) >= 0
    && (usage.contextTokens.Some? ==> usage.contextTokens.value >= OrZero(usage.output))
    && (usage.total.Some? ==> usage.total.value >= OrZero(usage.output))
  }

  /** What is on display comes from a report on record, or from before the turn when there is none. */
  ghost predicate Displays(context: Option<int>, estimated: bool, usages: map<Key, Usage>) {
    if usages == map[] then context.None? && !estimated
    else exists key :: key in usages && context == RestoredContext(usages[key]) && estimated == usages[key].estimated
  }

  /** What the activity line shows: how many tokens, and whether that is an estimate. */
  function OutputLabel(t: Turn, finished: bool): (int, bool) {
    var pending := if t.characters > t.reported then t.characters - t.reported else 0;
    var complete :=
      forall k | k in t.usages && !t.usages[k].invalidated && !t.usages[k].contextOnly :: t.usages[k].complete;
    if finished && t.hasOutput && complete then (t.output, false)
    else (t.output + (pending + 3) / 4, pending > 0 || !t.hasOutput || !complete)
  }

  /**
    A finished turn whose reports all count and are complete shows, unmarked, the sum of the
    latest outputs; otherwise what is shown exceeds the total by the estimate of what is pending.
   */
  lemma LabelIsTotal(blocks: seq<Block>, finished: bool)
    requires forall b | b in blocks && b.Report? :: Counts(b.usage)
    ensures var t := ObservedAll(NEW_TURN, blocks);
            var (shown, estimated) := OutputLabel(t, finished);
            && shown >= SumOnRecord(t.usages)
            && (!estimated ==> shown == SumOnRecord(t.usages))
  {
    TotalIsSumOnRecord(blocks);
    PendingIsNotNegative(NEW_TURN, blocks);
  }

  class ChatTokens {
    var context: Option<int>
    var contextEstimated: bool
    var lengths: map<nat, nat>
    var usages: map<Key, Usage>
    var characters: nat
    var reportedCharacters: nat
    var output: int
    var hasOutput: bool
    var finished: bool

    ghost function View(): Turn
      reads this
    {
      Turn(lengths, usages, characters, reportedCharacters, output, hasOutput)
    }

    constructor ()
      ensures View() == NEW_TURN && !finished && context == None && !contextEstimated
    {
      context, contextEstimated := None, false;
      new;
      BeginTurn();
    }

    method BeginTurn()
      modifies this
      ensures View() == NEW_TURN && !finished && context == old(context) && contextEstimated == old(contextEstimated)
    {
      lengths, usages := map[], map[];
      characters, reportedCharacters, output := 0, 0, 0;
      hasOutput, finished := false, false;
    }

    method RestoreContext(usage: Usage)
      modifies this`context, this`contextEstimated
      ensures context == RestoredContext(usage) && contextEstimated == usage.estimated
      ensures context.Some? <==> TellsContext(usage)
      ensures context.Some? && usage.contextTokens.Some? ==> context == usage.contextTokens
      ensures context.Some? && Plausible(usage) ==> context.value >= OrZero(usage.output)
    {
      contextEstimated := usage.estimated;
      if usage.invalidated {
        context := None;
      } else if usage.contextTokens.Some? {
        context := usage.contextTokens;
      } else if usage.perTurn || usage.incremental {
        context := None;
      } else if usage.total.Some? {
        context := usage.total;
      } else if usage.input.Some? && usage.output.Some? {
        context := Some(usage.input.value + OrZero(usage.cached) + OrZero(usage.written) + usage.output.value);
      } else {
        context := None;
      }
    }

    method Observe(block: Block)
      modifies this
      ensures View() == Observed(old(View()), block) && finished == old(finished)
      ensures if block.Report? && IsNews(old(usages), block)
              then context == RestoredContext(block.usage) && contextEstimated == block.usage.estimated
              else context == old(context) && contextEstimated == old(contextEstimated)
    {
      if block.Spoken? {
        var before := if block.block in lengths then lengths[block.block] else 0;
        if block.length > before {
          characters := characters + (block.length - before);
        }
        lengths := lengths[block.block := block.length];
      } else if block.Report? {
        var usage, key := block.usage, KeyOf(block);
        if key in usages && usage.revision <= usages[key].revision {
          return;
        }
        var before := OnRecord(usages, key);
        usages := usages[key := usage];
        RestoreContext(usage);
        if Counts(usage) {
          output := output + usage.output.value - before;
          hasOutput := true;
          reportedCharacters := characters;
        }
      }
    }

    method Finish(complete: bool)
      modifies this`finished
      ensures finished == complete
    {
      finished := complete;
    }

    method Label() returns (shown: int, estimated: bool)
      ensures (shown, estimated) == OutputLabel(View(), finished)
    {
      var pending := if characters > reportedCharacters then characters - reportedCharacters else 0;
      var complete := forall k | k in usages && !usages[k].invalidated && !usages[k].contextOnly :: usages[k].complete;
      if finished && hasOutput && complete {
        return output, false;
      }
      return output + (pending + 3) / 4, pending > 0 || !hasOutput || !complete;
    }
  }

  /**
    A whole turn: what is on record and in total afterwards follows from the reports alone, and
    the context on display is that of a report that no other outdates.
   */
  method ObserveTurn(blocks: seq<Block>)
    returns (output: int, usages: map<Key, Usage>, context: Option<int>, estimated: bool)
    ensures HoldsLatest(usages, blocks) && Displays(context, estimated, usages)
    ensures output == SumOnRecord(usages) - Drift(NEW_TURN, blocks)
  {
    var tokens := new ChatTokens();
    for n := 0 to |blocks|
      invariant fresh(tokens) && tokens.View() == ObservedAll(NEW_TURN, blocks[..n])
      invariant Displays(tokens.context, tokens.contextEstimated, tokens.usages)
    {
      assert blocks[..n + 1][..n] == blocks[..n];
      ObservedLast(NEW_TURN, blocks[..n + 1]);
      ghost var before := tokens.usages;
      tokens.Observe(blocks[n]);
      assert tokens.usages == before
             || (blocks[n].Report? && KeyOf(blocks[n]) in tokens.usages
                 && tokens.usages[KeyOf(blocks[n])] == blocks[n].usage);
    }
    assert blocks[..|blocks|] == blocks;
    LatestOnRecord(blocks);
    TotalIsSumOnRecord(blocks);
    return tokens.output, tokens.usages, tokens.context, tokens.contextEstimated;
  }
}
