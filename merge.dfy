// The merge fold of main.py:21-29: consecutive candidate blocks are folded
// left to right into a running accumulator, which is emitted whenever the next
// block cannot be combined with it.
//
// Runs reads the fold as a recursive function; MergeFold is the loop as
// written (it never emits the last accumulator) and MergeAll the corrected
// loop.  Segments over RunStarts is an independent description of the same
// result for blocks in generation order: one span per maximal stretch of
// pairwise-joinable neighbours.
module Merge {
  import opened Calendar

  /** The fold from a given accumulator: every emitted span, and the final accumulator last. */
  function Runs(current: Block, rest: seq<Block>): (r: seq<Block>)
    ensures 1 <= |r| <= |rest| + 1
    decreases |rest|
  {
    if rest == [] then [current]
    else if CanCombine(current, rest[0]) then Runs(Combine(current, rest[0]), rest[1..])
    else [current] + Runs(rest[0], rest[1..])
  }

  /** All runs of a non-empty block sequence, the final one included. */
  function MergeRuns(blocks: seq<Block>): (r: seq<Block>)
    requires |blocks| > 0
    ensures 1 <= |r| <= |blocks|
  {
    Runs(blocks[0], blocks[1..])
  }

  /**
   * The fold as main.py writes it: it reads blocks[0] unconditionally and
   * never appends the accumulator left over when the loop ends.
   */
  method MergeFold(timeBlocks: seq<Block>) returns (combined: seq<Block>)
    requires |timeBlocks| > 0
    ensures combined + [MergeRuns(timeBlocks)[|MergeRuns(timeBlocks)| - 1]] == MergeRuns(timeBlocks)
    ensures |combined| == |MergeRuns(timeBlocks)| - 1
  {
    combined := [];
    var current := timeBlocks[0];
    for i := 1 to |timeBlocks|
      invariant combined + Runs(current, timeBlocks[i..]) == MergeRuns(timeBlocks)
    {
      var block := timeBlocks[i];
      assert timeBlocks[i..][0] == block && timeBlocks[i..][1..] == timeBlocks[i + 1..];
      if CanCombine(current, block) {
        current := Combine(current, block);
      } else {
        combined := combined + [current];
        current := block;
      }
    }
  }

  /** The fold with the final accumulator emitted, as the merge is meant to behave. */
  method MergeAll(timeBlocks: seq<Block>) returns (combined: seq<Block>)
    requires |timeBlocks| > 0
    ensures combined == MergeRuns(timeBlocks)
  {
    combined := [];
    var current := timeBlocks[0];
    for i := 1 to |timeBlocks|
      invariant combined + Runs(current, timeBlocks[i..]) == MergeRuns(timeBlocks)
    {
      var block := timeBlocks[i];
      assert timeBlocks[i..][0] == block && timeBlocks[i..][1..] == timeBlocks[i + 1..];
      if CanCombine(current, block) {
        current := Combine(current, block);
      } else {
        combined := combined + [current];
        current := block;
      }
    }
    combined := combined + [current];
  }

  // ---------------------------------------------------------------------
  // Reference description of the runs

  /** Neighbours that belong to the same run: same day, touching, same availability. */
  predicate Joinable(a: Block, b: Block) {
    a.time.day == b.time.day && a.time.end == b.time.start && SameAvailability(a, b)
  }

  /**
   * In generation order the either-order combine rule only ever joins a
   * block to the one that starts where it ends: for non-empty blocks where
   * b never starts before a ends on their shared day, can_combine is Joinable.
   */
  lemma CombineIsForward(a: Block, b: Block)
    requires a.time.start < a.time.end && b.time.start < b.time.end
    requires a.time.day == b.time.day ==> a.time.end <= b.time.start
    ensures CanCombine(a, b) <==> Joinable(a, b)
  {
  }

  /**
   * Blocks in generation order: each block is non-empty, and a block never
   * starts before the end of its predecessor on the same day.
   */
  predicate Chronological(bs: seq<Block>) {
    && (forall i :: 0 <= i < |bs| ==> bs[i].time.start < bs[i].time.end)
    && (forall i :: 0 < i < |bs| && bs[i - 1].time.day == bs[i].time.day ==>
          bs[i - 1].time.end <= bs[i].time.start)
  }

  /** The indices j >= i at which a new run starts (bs[j-1] and bs[j] are not joinable), ascending. */
  function Breaks(bs: seq<Block>, i: nat): (r: seq<nat>)
    requires 1 <= i <= |bs|
    ensures forall k :: 0 <= k < |r| ==> i <= r[k] < |bs|
    ensures forall k, l :: 0 <= k < l < |r| ==> r[k] < r[l]
    decreases |bs| - i
  {
    if i == |bs| then []
    else if Joinable(bs[i - 1], bs[i]) then Breaks(bs, i + 1)
    else [i] + Breaks(bs, i + 1)
  }

  /** Breaks lists exactly the positions where joinability fails. */
  lemma {:induction false} BreaksExact(bs: seq<Block>, i: nat, j: nat)
    requires 1 <= i <= |bs|
    ensures j in Breaks(bs, i) <==> i <= j < |bs| && !Joinable(bs[j - 1], bs[j])
    decreases |bs| - i
  {
    if i < |bs| {
      BreaksExact(bs, i + 1, j);
    }
  }

  /** The first index of every run. */
  function RunStarts(bs: seq<Block>): seq<nat>
    requires |bs| > 0
  {
    [0] + Breaks(bs, 1)
  }

  /** Ascending start indices of runs within bs. */
  predicate Cuts(bs: seq<Block>, cuts: seq<nat>) {
    && |cuts| > 0
    && (forall k :: 0 <= k < |cuts| ==> cuts[k] < |bs|)
    && (forall k, l :: 0 <= k < l < |cuts| ==> cuts[k] < cuts[l])
  }

  /** One past the last block of run k. */
  function RunEnd(bs: seq<Block>, cuts: seq<nat>, k: nat): (e: nat)
    requires Cuts(bs, cuts) && k < |cuts|
    ensures cuts[k] < e <= |bs|
  {
    if k + 1 < |cuts| then cuts[k + 1] else |bs|
  }

  /** The span from the start of bs[a] to the end of bs[b-1], with bs[a]'s availability. */
  function SpanOf(bs: seq<Block>, a: nat, b: nat): Block
    requires a < b <= |bs|
  {
    Block(TimeSpan(bs[a].time.day, bs[a].time.start, bs[b - 1].time.end),
          bs[a].available, bs[a].notAvailable)
  }

  /** One span per run delimited by `cuts`. */
  function Segments(bs: seq<Block>, cuts: seq<nat>): (r: seq<Block>)
    requires Cuts(bs, cuts)
    ensures |r| == |cuts|
    decreases |cuts|
  {
    if |cuts| == 1 then [SpanOf(bs, cuts[0], |bs|)]
    else [SpanOf(bs, cuts[0], cuts[1])] + Segments(bs, cuts[1..])
  }

  lemma {:induction false} SegmentsAt(bs: seq<Block>, cuts: seq<nat>, k: nat)
    requires Cuts(bs, cuts) && k < |cuts|
    ensures Segments(bs, cuts)[k] == SpanOf(bs, cuts[k], RunEnd(bs, cuts, k))
    decreases k
  {
    if k > 0 {
      SegmentsAt(bs, cuts[1..], k - 1);
    }
  }

  /** A run start placed before the cuts of the later runs. */
  lemma ConsCut(bs: seq<Block>, a: nat, cuts: seq<nat>)
    requires Cuts(bs, cuts) && a < cuts[0]
    ensures Cuts(bs, [a] + cuts)
    ensures Segments(bs, [a] + cuts) == [SpanOf(bs, a, cuts[0])] + Segments(bs, cuts)
  {
    var c := [a] + cuts;
    assert c[1..] == cuts;
    forall k, l | 0 <= k < l < |c|
      ensures c[k] < c[l]
    {
      if k > 0 {
        assert c[k] == cuts[k - 1] && c[l] == cuts[l - 1];
      } else {
        assert cuts[0] <= cuts[l - 1];
      }
    }
  }

  /** The breaks after i, preceded by the start a < i, are valid cuts. */
  lemma BreakCuts(bs: seq<Block>, a: nat, i: nat)
    requires a < i <= |bs| && 1 <= i
    ensures Cuts(bs, [a] + Breaks(bs, i))
  {
    var r := Breaks(bs, i);
    if r == [] {
    } else {
      ConsCut(bs, a, r);
    }
  }

  /** The fold takes one step: combine with the next block, or emit and restart from it. */
  lemma RunsStep(current: Block, rest: seq<Block>)
    requires rest != []
    ensures Runs(current, rest) ==
      if CanCombine(current, rest[0]) then Runs(Combine(current, rest[0]), rest[1..])
      else [current] + Runs(rest[0], rest[1..])
  {
  }

  /** Joining the next block of a run extends the accumulator to that block's end. */
  lemma JoinStep(acc: Block, prev: Block, next: Block)
    requires acc.time.day == prev.time.day && SameAvailability(acc, prev)
    requires acc.time.start <= prev.time.start && acc.time.end == prev.time.end
    requires prev.time.start < prev.time.end && next.time.start < next.time.end
    requires Joinable(prev, next)
    ensures CanCombine(acc, next)
    ensures Combine(acc, next) == Block(TimeSpan(acc.time.day, acc.time.start, next.time.end),
                                        acc.available, acc.notAvailable)
  {
  }

  /** At a break the accumulator cannot absorb the next block. */
  lemma BreakStep(acc: Block, prev: Block, next: Block)
    requires acc.time.day == prev.time.day && SameAvailability(acc, prev)
    requires acc.time.start <= prev.time.start && acc.time.end == prev.time.end
    requires prev.time.start < prev.time.end && next.time.start < next.time.end
    requires prev.time.day == next.time.day ==> prev.time.end <= next.time.start
    requires !Joinable(prev, next)
    ensures !CanCombine(acc, next)
  {
  }

  /**
   * From an accumulator covering bs[a..i), the fold yields exactly the spans of
   * the runs that start at a and at every later break.
   */
  lemma {:induction false} RunsFrom(bs: seq<Block>, a: nat, i: nat)
    requires Chronological(bs)
    requires a < i <= |bs|
    requires bs[a].time.day == bs[i - 1].time.day && SameAvailability(bs[a], bs[i - 1])
    requires bs[a].time.start <= bs[i - 1].time.start
    ensures Cuts(bs, [a] + Breaks(bs, i))
    ensures Runs(SpanOf(bs, a, i), bs[i..]) == Segments(bs, [a] + Breaks(bs, i))
    decreases |bs| - i
  {
    BreakCuts(bs, a, i);
    if i < |bs| {
      var acc, prev, next := SpanOf(bs, a, i), bs[i - 1], bs[i];
      var rest := bs[i + 1..];
      assert bs[i..] == [next] + rest;
      RunsStep(acc, bs[i..]);
      assert prev.time.start < prev.time.end && next.time.start < next.time.end;
      if Joinable(prev, next) {
        JoinStep(acc, prev, next);
        assert Runs(acc, bs[i..]) == Runs(SpanOf(bs, a, i + 1), rest);
        RunsFrom(bs, a, i + 1);
      } else {
        assert prev.time.day == next.time.day ==> prev.time.end <= next.time.start;
        BreakStep(acc, prev, next);
        assert next == SpanOf(bs, i, i + 1);
        assert Runs(acc, bs[i..]) == [acc] + Runs(SpanOf(bs, i, i + 1), rest);
        RunsFrom(bs, i, i + 1);
        var later := [i] + Breaks(bs, i + 1);
        assert Breaks(bs, i) == later;
        ConsCut(bs, a, later);
      }
    }
  }

  /** For blocks in generation order, the fold's runs are the maximal joinable stretches. */
  lemma MergeRunsAreSegments(bs: seq<Block>)
    requires |bs| > 0 && Chronological(bs)
    ensures Cuts(bs, RunStarts(bs))
    ensures MergeRuns(bs) == Segments(bs, RunStarts(bs))
  {
    assert bs[0] == SpanOf(bs, 0, 1);
    RunsFrom(bs, 0, 1);
  }

  /** There is one run per break, plus the first: the number of runs. */
  lemma RunCount(bs: seq<Block>)
    requires |bs| > 0 && Chronological(bs)
    ensures |MergeRuns(bs)| == |Breaks(bs, 1)| + 1
  {
    MergeRunsAreSegments(bs);
  }

  /** Along a stretch with no break, day and availability stay fixed and starts and ends grow. */
  lemma {:induction false} Stretch(bs: seq<Block>, x: nat, y: nat)
    requires Chronological(bs)
    requires x <= y < |bs|
    requires forall j :: x < j <= y ==> Joinable(bs[j - 1], bs[j])
    ensures bs[x].time.day == bs[y].time.day && SameAvailability(bs[x], bs[y])
    ensures bs[x].time.start <= bs[y].time.start && bs[x].time.end <= bs[y].time.end
    decreases y - x
  {
    if x < y {
      Stretch(bs, x, y - 1);
      assert Joinable(bs[y - 1], bs[y]);
      assert bs[y - 1].time.start < bs[y - 1].time.end;
      assert bs[y].time.start < bs[y].time.end;
    }
  }

  /** A value strictly between two neighbouring entries of an ascending sequence is not in it. */
  lemma NotACut(cuts: seq<nat>, k: nat, x: nat)
    requires forall m, l :: 0 <= m < l < |cuts| ==> cuts[m] < cuts[l]
    requires k < |cuts| && cuts[k] < x
    requires k + 1 < |cuts| ==> x < cuts[k + 1]
    ensures x !in cuts
  {
    forall l | 0 <= l < |cuts|
      ensures cuts[l] != x
    {
      if l < k {
        assert cuts[l] < cuts[k];
      } else if l > k + 1 {
        assert cuts[k + 1] < cuts[l];
      }
    }
  }

  /** No break lies strictly inside a run. */
  lemma InsideRun(bs: seq<Block>, k: nat)
    requires |bs| > 0 && k < |RunStarts(bs)|
    ensures Cuts(bs, RunStarts(bs))
    ensures forall j :: RunStarts(bs)[k] < j < RunEnd(bs, RunStarts(bs), k) ==> Joinable(bs[j - 1], bs[j])
  {
    var cuts := RunStarts(bs);
    BreakCuts(bs, 0, 1);
    var e := RunEnd(bs, cuts, k);
    forall j | cuts[k] < j < e
      ensures Joinable(bs[j - 1], bs[j])
    {
      NotACut(cuts, k, j);
      assert j !in Breaks(bs, 1) by {
        assert cuts[1..] == Breaks(bs, 1);
      }
      BreaksExact(bs, 1, j);
    }
  }

  /**
   * Merge soundness: the k-th run's span has the same day and availability as
   * every block inside it and covers each of them.
   */
  lemma RunCoversItsBlocks(bs: seq<Block>, k: nat, j: nat)
    requires |bs| > 0 && Chronological(bs)
    requires k < |RunStarts(bs)|
    requires RunStarts(bs)[k] <= j < RunEnd(bs, RunStarts(bs), k)
    ensures k < |MergeRuns(bs)|
    ensures SameAvailability(MergeRuns(bs)[k], bs[j])
    ensures Contains(MergeRuns(bs)[k].time, bs[j].time)
  {
    var cuts := RunStarts(bs);
    var e := RunEnd(bs, cuts, k);
    MergeRunsAreSegments(bs);
    SegmentsAt(bs, cuts, k);
    InsideRun(bs, k);
    Stretch(bs, cuts[k], j);
    Stretch(bs, j, e - 1);
  }

  /** The span of the k-th run, whose first and last blocks agree on day and availability. */
  lemma RunSpan(bs: seq<Block>, k: nat)
    requires |bs| > 0 && Chronological(bs)
    requires k < |RunStarts(bs)|
    ensures k < |MergeRuns(bs)|
    ensures MergeRuns(bs)[k] == SpanOf(bs, RunStarts(bs)[k], RunEnd(bs, RunStarts(bs), k))
    ensures bs[RunStarts(bs)[k]].time.day == bs[RunEnd(bs, RunStarts(bs), k) - 1].time.day
    ensures SameAvailability(bs[RunStarts(bs)[k]], bs[RunEnd(bs, RunStarts(bs), k) - 1])
    ensures bs[RunStarts(bs)[k]].time.start < bs[RunEnd(bs, RunStarts(bs), k) - 1].time.end
  {
    var cuts := RunStarts(bs);
    var e := RunEnd(bs, cuts, k);
    MergeRunsAreSegments(bs);
    SegmentsAt(bs, cuts, k);
    InsideRun(bs, k);
    Stretch(bs, cuts[k], e - 1);
  }

  /** The spans of two runs that meet at a break cannot be joined. */
  lemma SeparatedSpans(bs: seq<Block>, a: nat, c: nat, e: nat)
    requires Chronological(bs)
    requires a < c < e <= |bs|
    requires bs[a].time.day == bs[c - 1].time.day && SameAvailability(bs[a], bs[c - 1])
    requires !Joinable(bs[c - 1], bs[c])
    ensures !Joinable(SpanOf(bs, a, c), SpanOf(bs, c, e))
    ensures SpanOf(bs, a, c).time.day == SpanOf(bs, c, e).time.day ==>
              SpanOf(bs, a, c).time.end <= SpanOf(bs, c, e).time.start
  {
    assert bs[c - 1].time.day == bs[c].time.day ==> bs[c - 1].time.end <= bs[c].time.start;
  }

  /** Maximality: two consecutive merged spans could never be joined. */
  lemma RunsAreMaximal(bs: seq<Block>, k: nat)
    requires |bs| > 0 && Chronological(bs)
    requires k + 1 < |MergeRuns(bs)|
    ensures !Joinable(MergeRuns(bs)[k], MergeRuns(bs)[k + 1])
    ensures MergeRuns(bs)[k].time.day == MergeRuns(bs)[k + 1].time.day ==>
              MergeRuns(bs)[k].time.end <= MergeRuns(bs)[k + 1].time.start
  {
    var cuts := RunStarts(bs);
    RunCount(bs);
    var c := cuts[k + 1];
    assert RunEnd(bs, cuts, k) == c;
    assert c == Breaks(bs, 1)[k];
    BreaksExact(bs, 1, c);
    RunSpan(bs, k);
    RunSpan(bs, k + 1);
    var e := RunEnd(bs, cuts, k + 1);
    assert bs[cuts[k]].time.day == bs[c - 1].time.day && SameAvailability(bs[cuts[k]], bs[c - 1]);
    SeparatedSpans(bs, cuts[k], c, e);
    assert MergeRuns(bs)[k] == SpanOf(bs, cuts[k], c);
    assert MergeRuns(bs)[k + 1] == SpanOf(bs, c, e);
  }

  /** The merged spans are themselves in generation order. */
  lemma MergedChronological(bs: seq<Block>)
    requires |bs| > 0 && Chronological(bs)
    ensures Chronological(MergeRuns(bs))
  {
    var rs := MergeRuns(bs);
    RunCount(bs);
    forall k | 0 <= k < |rs|
      ensures rs[k].time.start < rs[k].time.end
    {
      RunSpan(bs, k);
    }
    forall k | 0 < k < |rs| && rs[k - 1].time.day == rs[k].time.day
      ensures rs[k - 1].time.end <= rs[k].time.start
    {
      RunsAreMaximal(bs, k - 1);
    }
  }

  /** A sequence with no joinable neighbours is its own merge. */
  lemma {:induction false} RunsOfSeparated(ts: seq<Block>, i: nat)
    requires Chronological(ts)
    requires 0 < i <= |ts|
    requires forall k :: 0 < k < |ts| ==> !Joinable(ts[k - 1], ts[k])
    ensures Runs(ts[i - 1], ts[i..]) == ts[i - 1..]
    decreases |ts| - i
  {
    if i < |ts| {
      assert ts[i..][0] == ts[i] && ts[i..][1..] == ts[i + 1..];
      assert ts[i - 1].time.start < ts[i - 1].time.end;
      assert ts[i].time.start < ts[i].time.end;
      assert !CanCombine(ts[i - 1], ts[i]);
      RunsOfSeparated(ts, i + 1);
      assert ts[i - 1..] == [ts[i - 1]] + ts[i..];
    }
  }

  /** Merging an already merged sequence changes nothing. */
  lemma MergeIdempotent(bs: seq<Block>)
    requires |bs| > 0 && Chronological(bs)
    ensures MergeRuns(MergeRuns(bs)) == MergeRuns(bs)
  {
    var rs := MergeRuns(bs);
    MergedChronological(bs);
    forall k | 0 < k < |rs|
      ensures !Joinable(rs[k - 1], rs[k])
    {
      RunsAreMaximal(bs, k - 1);
    }
    RunsOfSeparated(rs, 1);
  }

  /**
   * The run MergeFold leaves out is the one holding the last block: its span
   * ends where the last block ends, on the same day.
   */
  lemma FinalRunHoldsLastBlock(bs: seq<Block>)
    requires |bs| > 0 && Chronological(bs)
    ensures var last := MergeRuns(bs)[|MergeRuns(bs)| - 1];
      last.time.day == bs[|bs| - 1].time.day && last.time.end == bs[|bs| - 1].time.end
  {
    RunCount(bs);
    RunSpan(bs, |RunStarts(bs)| - 1);
  }

  // ---------------------------------------------------------------------
  // Total duration

  /** The summed length of the spans in bs, in hours. */
  function TotalDuration(bs: seq<Block>): real
  {
    if bs == [] then 0.0 else Duration(bs[0]) + TotalDuration(bs[1..])
  }

  /** The total of a concatenation is the sum of the totals. */
  lemma {:induction false} TotalSplit(x: seq<Block>, y: seq<Block>)
    ensures TotalDuration(x + y) == TotalDuration(x) + TotalDuration(y)
  {
    if x != [] {
      assert (x + y)[1..] == x[1..] + y;
      TotalSplit(x[1..], y);
    } else {
      assert x + y == y;
    }
  }

  /** Blocks that follow each other without a gap add up to the span from the first start to the last end. */
  lemma {:induction false} Telescope(bs: seq<Block>, a: nat, b: nat)
    requires a < b <= |bs|
    requires forall j :: a < j < b ==> bs[j - 1].time.end == bs[j].time.start
    ensures TotalDuration(bs[a..b]) == bs[b - 1].time.end - bs[a].time.start
    decreases b - a
  {
    assert bs[a..b][1..] == bs[a + 1..b];
    if a + 1 < b {
      Telescope(bs, a + 1, b);
    }
  }

  /** The first run's span is as long as its blocks together, and the rest follows it. */
  lemma FirstRunTotal(bs: seq<Block>, cuts: seq<nat>)
    requires Cuts(bs, cuts)
    requires forall j :: cuts[0] < j < |bs| && j !in cuts ==> bs[j - 1].time.end == bs[j].time.start
    ensures Duration(SpanOf(bs, cuts[0], RunEnd(bs, cuts, 0))) == TotalDuration(bs[cuts[0]..RunEnd(bs, cuts, 0)])
    ensures TotalDuration(bs[cuts[0]..]) ==
      TotalDuration(bs[cuts[0]..RunEnd(bs, cuts, 0)]) + TotalDuration(bs[RunEnd(bs, cuts, 0)..])
  {
    var a := cuts[0];
    var b := RunEnd(bs, cuts, 0);
    forall j | a < j < b
      ensures bs[j - 1].time.end == bs[j].time.start
    {
      NotACut(cuts, 0, j);
    }
    Telescope(bs, a, b);
    assert bs[a..] == bs[a..b] + bs[b..];
    TotalSplit(bs[a..b], bs[b..]);
  }

  /** When no gap lies inside a run, the runs' spans add up to the blocks from the first cut on. */
  lemma {:induction false} SegmentsTotal(bs: seq<Block>, cuts: seq<nat>)
    requires Cuts(bs, cuts)
    requires forall j :: cuts[0] < j < |bs| && j !in cuts ==> bs[j - 1].time.end == bs[j].time.start
    ensures TotalDuration(Segments(bs, cuts)) == TotalDuration(bs[cuts[0]..])
    decreases |cuts|
  {
    var a := cuts[0];
    var b := RunEnd(bs, cuts, 0);
    FirstRunTotal(bs, cuts);
    var first := SpanOf(bs, a, b);
    assert TotalDuration([first]) == Duration(first);
    if |cuts| > 1 {
      var rest := cuts[1..];
      assert Cuts(bs, rest);
      forall j | rest[0] < j < |bs| && j !in rest
        ensures bs[j - 1].time.end == bs[j].time.start
      {
        assert j !in cuts;
      }
      SegmentsTotal(bs, rest);
      assert Segments(bs, cuts) == [first] + Segments(bs, rest);
      TotalSplit([first], Segments(bs, rest));
    } else {
      assert bs[b..] == [];
    }
  }

  /**
   * Merging loses no time and adds none: for blocks in generation order the
   * merged spans add up to the same number of hours as the blocks.
   */
  lemma MergeKeepsDuration(bs: seq<Block>)
    requires |bs| > 0 && Chronological(bs)
    ensures TotalDuration(MergeRuns(bs)) == TotalDuration(bs)
  {
    var cuts := RunStarts(bs);
    MergeRunsAreSegments(bs);
    forall j | cuts[0] < j < |bs| && j !in cuts
      ensures bs[j - 1].time.end == bs[j].time.start
    {
      assert j !in Breaks(bs, 1) by {
        assert cuts[1..] == Breaks(bs, 1);
      }
      BreaksExact(bs, 1, j);
    }
    SegmentsTotal(bs, cuts);
    assert bs[0..] == bs;
  }
}
