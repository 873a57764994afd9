/**
  What a chat turn counts, told by its blocks alone: which reports are filed together, which are
  news, how the totals move, and what is on display.
 */
module ChatReports {
  import opened Wrappers
  import opened ChatTokens

  /** The name a report goes by: its usage id, or else its interaction id; without either it has none. */
  ghost predicate GoesBy(report: Block, name: string)
    requires report.Report?
  {
    name != "" && (report.usageId == name || (report.usageId == "" && report.interactionId == name))
  }

  /** Reports are filed together if they go by the same name, or came in the same block and have none. */
  lemma FiledTogether(a: Block, b: Block)
    requires a.Report? && b.Report?
    ensures KeyOf(a) == KeyOf(b) <==>
              || (exists name :: GoesBy(a, name) && GoesBy(b, name))
              || (a.block == b.block && forall name :: !GoesBy(a, name) && !GoesBy(b, name))
  {
    NameExactly(a);
    NameExactly(b);
    hide KeyOf, GoesBy;
    if KeyOf(a).Named? {
      assert GoesBy(a, KeyOf(a).name);
    }
    if KeyOf(b).Named? {
      assert GoesBy(b, KeyOf(b).name);
    }
  }

  lemma NameExactly(report: Block)
    requires report.Report?
    ensures match KeyOf(report)
            case Named(name) => forall other :: GoesBy(report, other) <==> other == name
            case Object(block) => block == report.block && forall other :: !GoesBy(report, other)
  {
  }

  /** No earlier report that is filed with it has as high a revision. */
  ghost predicate NewsAt(blocks: seq<Block>, i: nat)
    requires i < |blocks|
  {
    && blocks[i].Report?
    && forall j | 0 <= j < i && blocks[j].Report? && KeyOf(blocks[j]) == KeyOf(blocks[i]) ::
         blocks[j].usage.revision < blocks[i].usage.revision
  }

  lemma NewsExactly(blocks: seq<Block>, i: nat)
    requires i < |blocks| && blocks[i].Report?
    ensures IsNews(ObservedAll(NEW_TURN, blocks[..i]).usages, blocks[i]) <==> NewsAt(blocks, i)
  {
    var earlier, key := blocks[..i], KeyOf(blocks[i]);
    var usages := ObservedAll(NEW_TURN, earlier).usages;
    LatestOnRecord(earlier);
    if key in usages {
      assert Reported(earlier, key, usages[key]);
      var j :| 0 <= j < i && earlier[j].Report? && KeyOf(earlier[j]) == key && earlier[j].usage == usages[key];
      assert blocks[j] == earlier[j];
    }
    forall j | 0 <= j < i && blocks[j].Report? && KeyOf(blocks[j]) == key
      ensures key in usages && blocks[j].usage.revision <= usages[key].revision
    {
      assert earlier[j] == blocks[j];
      assert Reported(earlier, key, blocks[j].usage);
    }
  }

  /** A report whose output goes into the total. */
  ghost predicate IsCounted(block: Block) {
    block.Report? && !block.usage.invalidated && block.usage.output.Some?
  }

  /** The output on record for the key of a report, before it comes. */
  ghost function Replaces(t: Turn, block: Block): int
    requires block.Report?
  {
    if KeyOf(block) in t.usages && t.usages[KeyOf(block)].output.Some? then t.usages[KeyOf(block)].output.value else 0
  }

  /** A report that is news goes on record; if it counts it replaces the output there was, and covers all characters. */
  lemma ReportMoves(t: Turn, block: Block)
    requires block.Report?
    ensures var r := Observed(t, block);
            var news := KeyOf(block) in t.usages ==> t.usages[KeyOf(block)].revision < block.usage.revision;
            && r.lengths == t.lengths && r.characters == t.characters
            && r.usages == (if news then t.usages[KeyOf(block) := block.usage] else t.usages)
            && (news && IsCounted(block) ==>
                  r.hasOutput && r.reported == t.characters
                  && r.output == t.output + block.usage.output.value - Replaces(t, block))
            && (!news || !IsCounted(block) ==>
                  r.hasOutput == t.hasOutput && r.reported == t.reported && r.output == t.output)
  {
  }

  /** There is an output once a report has come that counts and is the first of those filed with it. */
  lemma {:induction false} OutputIsKnown(blocks: seq<Block>)
    ensures var t := ObservedAll(NEW_TURN, blocks);
            t.hasOutput <==> exists i :: 0 <= i < |blocks| && IsCounted(blocks[i]) && NewsAt(blocks, i)
  {
    if blocks != [] {
      var n := |blocks| - 1;
      var earlier := blocks[..n];
      OutputIsKnown(earlier);
      ObservedLast(NEW_TURN, blocks);
      if blocks[n].Report? {
        NewsExactly(blocks, n);
      }
      assert forall i | 0 <= i < n :: earlier[i] == blocks[i];
      assert forall i | 0 <= i < n :: NewsAt(earlier, i) <==> NewsAt(blocks, i);
      if i :| 0 <= i < n && IsCounted(earlier[i]) && NewsAt(earlier, i) {
        assert IsCounted(blocks[i]) && NewsAt(blocks, i);
      }
    }
  }

  // Characters.

  /** How long a spoken block was when it was last seen. */
  ghost function LengthAfter(blocks: seq<Block>, id: nat): nat {
    if blocks == [] then 0
    else
      var last := blocks[|blocks| - 1];
      if last.Spoken? && last.block == id then last.length else LengthAfter(blocks[..|blocks| - 1], id)
  }

  /** The characters spoken: every rise of a block over the length it was last seen with. */
  ghost function Rises(blocks: seq<Block>): nat {
    if blocks == [] then 0
    else
      var n := |blocks| - 1;
      var last := blocks[n];
      Rises(blocks[..n])
      + if last.Spoken? && last.length > LengthAfter(blocks[..n], last.block)
        then last.length - LengthAfter(blocks[..n], last.block) else 0
  }

  lemma {:induction false} LengthsExactly(blocks: seq<Block>, id: nat)
    ensures var t := ObservedAll(NEW_TURN, blocks);
            (if id in t.lengths then t.lengths[id] else 0) == LengthAfter(blocks, id)
  {
    if blocks != [] {
      LengthsExactly(blocks[..|blocks| - 1], id);
      ObservedLast(NEW_TURN, blocks);
    }
  }

  lemma {:induction false} CharactersExactly(blocks: seq<Block>)
    ensures ObservedAll(NEW_TURN, blocks).characters == Rises(blocks)
  {
    if blocks != [] {
      var n := |blocks| - 1;
      CharactersExactly(blocks[..n]);
      ObservedLast(NEW_TURN, blocks);
      if blocks[n].Spoken? {
        LengthsExactly(blocks[..n], blocks[n].block);
      }
    }
  }

  /** The characters that the last report to count has covered. */
  ghost predicate Covers(blocks: seq<Block>, i: nat)
    requires i < |blocks|
  {
    && IsCounted(blocks[i]) && NewsAt(blocks, i)
    && forall j | i < j < |blocks| && IsCounted(blocks[j]) :: !NewsAt(blocks, j)
  }

  lemma {:induction false} CoveredExactly(blocks: seq<Block>)
    ensures forall i | 0 <= i < |blocks| && Covers(blocks, i) ::
              ObservedAll(NEW_TURN, blocks).reported == Rises(blocks[..i])
    ensures !ObservedAll(NEW_TURN, blocks).hasOutput ==> ObservedAll(NEW_TURN, blocks).reported == 0
  {
    if blocks != [] {
      var n := |blocks| - 1;
      var earlier := blocks[..n];
      CoveredExactly(earlier);
      CharactersExactly(earlier);
      ObservedLast(NEW_TURN, blocks);
      if blocks[n].Report? {
        NewsExactly(blocks, n);
      }
      forall i | 0 <= i < n && Covers(blocks, i) ensures Covers(earlier, i) && earlier[..i] == blocks[..i] {
        CoversEarlier(blocks, i);
      }
    }
  }

  lemma CoversEarlier(blocks: seq<Block>, i: nat)
    requires i < |blocks| - 1 && Covers(blocks, i)
    ensures Covers(blocks[..|blocks| - 1], i) && !(IsCounted(blocks[|blocks| - 1]) && NewsAt(blocks, |blocks| - 1))
  {
    var earlier := blocks[..|blocks| - 1];
    assert forall j | 0 <= j < |earlier| :: earlier[j] == blocks[j];
    assert forall j | 0 <= j < |earlier| :: NewsAt(earlier, j) <==> NewsAt(blocks, j);
  }

  // What is shown.

  /** A usage on record that says how much was used and has not been taken back. */
  ghost predicate Considered(t: Turn, key: Key) {
    key in t.usages && !t.usages[key].invalidated && !t.usages[key].contextOnly
  }

  /**
    What is shown is the total and a token for every four characters not covered yet, or part of
    them; none is added to a finished turn with an output and no incomplete report.  It is marked
    as an estimate exactly if there is something pending, no output yet, or an incomplete report.
   */
  ghost predicate IsShown(t: Turn, finished: bool, shown: int, estimated: bool) {
    var complete := forall key | Considered(t, key) :: t.usages[key].complete;
    var pending := t.characters - t.reported;
    if finished && t.hasOutput && complete then shown == t.output && !estimated
    else
      && pending <= 4 * (shown - t.output) < pending + 4
      && (estimated <==> pending > 0 || !t.hasOutput || !complete)
  }

  lemma LabelExactly(blocks: seq<Block>, finished: bool)
    ensures var t := ObservedAll(NEW_TURN, blocks);
            IsShown(t, finished, OutputLabel(t, finished).0, OutputLabel(t, finished).1)
  {
    PendingIsNotNegative(NEW_TURN, blocks);
    var t := ObservedAll(NEW_TURN, blocks);
    assert (forall key | Considered(t, key) :: t.usages[key].complete) <==>
           forall k | k in t.usages && !t.usages[k].invalidated && !t.usages[k].contextOnly :: t.usages[k].complete by {
      assert forall k | k in t.usages && !t.usages[k].invalidated && !t.usages[k].contextOnly :: Considered(t, k);
    }
  }

  /** The context of a report: as told; or else, of a whole request, its total, or else the sum of its parts. */
  ghost predicate ContextOf(usage: Usage, context: Option<int>) {
    if usage.invalidated then context == None
    else if usage.contextTokens != None then context == usage.contextTokens
    else if usage.perTurn || usage.incremental then context == None
    else if usage.total != None then context == usage.total
    else if usage.input == None || usage.output == None then context == None
    else
      && context.Some?
      && context.value - usage.input.value - usage.output.value
         == (if usage.cached.Some? then usage.cached.value else 0)
            + (if usage.written.Some? then usage.written.value else 0)
  }

  lemma ContextExactly(usage: Usage)
    ensures ContextOf(usage, RestoredContext(usage))
  {
  }

  /** The last of the reports that are news. */
  ghost predicate LastNews(blocks: seq<Block>, i: nat)
    requires i < |blocks|
  {
    NewsAt(blocks, i) && forall j | i < j < |blocks| :: !NewsAt(blocks, j)
  }

  /** What a turn leaves on display: what its last news says, or what was there before if it has none. */
  ghost predicate Shows(blocks: seq<Block>, before: Option<int>, context: Option<int>, estimated: bool) {
    && ((forall i | 0 <= i < |blocks| :: !NewsAt(blocks, i)) ==> context == before)
    && (forall i | 0 <= i < |blocks| && LastNews(blocks, i) ::
          ContextOf(blocks[i].usage, context) && estimated == blocks[i].usage.estimated)
  }

  /** One block more. */
  lemma ShowsNext(blocks: seq<Block>, before: Option<int>, context: Option<int>, estimated: bool,
                  context': Option<int>, estimated': bool)
    requires blocks != [] && Shows(blocks[..|blocks| - 1], before, context, estimated)
    requires if NewsAt(blocks, |blocks| - 1)
             then context' == RestoredContext(blocks[|blocks| - 1].usage)
                  && estimated' == blocks[|blocks| - 1].usage.estimated
             else context' == context && estimated' == estimated
    ensures Shows(blocks, before, context', estimated')
  {
    hide ContextOf, RestoredContext;
    var n := |blocks| - 1;
    var earlier := blocks[..n];
    assert forall j | 0 <= j < n :: earlier[j] == blocks[j];
    assert forall j | 0 <= j < n :: NewsAt(earlier, j) <==> NewsAt(blocks, j);
    forall i | 0 <= i < |blocks| && LastNews(blocks, i)
      ensures ContextOf(blocks[i].usage, context') && estimated' == blocks[i].usage.estimated
    {
      if i < n {
        assert LastNews(earlier, i);
      } else {
        ContextExactly(blocks[n].usage);
      }
    }
  }

  /** A whole turn, shown as it ends. */
  method ShowTurn(blocks: seq<Block>, finished: bool)
    returns (context: Option<int>, estimated: bool, shown: int, marked: bool)
    ensures Shows(blocks, None, context, estimated)
    ensures IsShown(ObservedAll(NEW_TURN, blocks), finished, shown, marked)
  {
    var tokens := new ChatTokens();
    assert tokens.View() == ObservedAll(NEW_TURN, blocks[..0]) && Shows(blocks[..0], None, None, false);
    hide Shows, NewsAt, IsNews, Observed, ObservedAll, RestoredContext, OutputLabel, IsShown, KeyOf;
    for n := 0 to |blocks|
      invariant fresh(tokens) && tokens.View() == ObservedAll(NEW_TURN, blocks[..n])
      invariant Shows(blocks[..n], None, tokens.context, tokens.contextEstimated)
    {
      assert blocks[..n + 1][..n] == blocks[..n];
      ObservedLast(NEW_TURN, blocks[..n + 1]);
      ghost var context, estimated := tokens.context, tokens.contextEstimated;
      if blocks[n].Report? {
        NewsExactly(blocks[..n + 1], n);
      }
      tokens.Observe(blocks[n]);
      ShowsNext(blocks[..n + 1], None, context, estimated, tokens.context, tokens.contextEstimated);
    }
    assert blocks[..|blocks|] == blocks;
    tokens.Finish(finished);
    LabelExactly(blocks, finished);
    context, estimated := tokens.context, tokens.contextEstimated;
    shown, marked := tokens.Label();
  }
}
