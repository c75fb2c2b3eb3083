// main.py: the quarter-hour grid (lines 10-19), offering every block to every
// attendee, and the ranking of the merged spans by attendance (lines 31-33).
module MeetingGrid {
  import opened Calendar
  import opened Merge
  import opened Ranking

  const Workdays: seq<Weekday> := [Monday, Tuesday, Wednesday, Thursday, Friday]
  /** range(8, 17): start hours 8 to 16. */
  const FirstHour: int := 8
  const EndHour: int := 17
  const QuarterOffsets: seq<real> := [0.0, 0.25, 0.5, 0.75]
  const BlockLength: real := 0.25
  const BlocksPerDay: nat := 36
  const GridSize: nat := 180

  /** The i-th block of the grid: day-major, then hour, then quarter. */
  function GridSpan(i: nat): TimeSpan
    requires i < GridSize
  {
    var hour := FirstHour + (i % BlocksPerDay) / 4;
    var start := hour as real + QuarterOffsets[(i % BlocksPerDay) % 4];
    TimeSpan(Workdays[i / BlocksPerDay], start, start + BlockLength)
  }

  /** The block after every attendee has been offered it, in list order. */
  function Offered(b: Block, people: seq<Attendee>): (r: Block)
    ensures r.time == b.time
    decreases |people|
  {
    if people == [] then b
    else AddAttendee(Offered(b, people[..|people| - 1]), people[|people| - 1])
  }

  /** The quarter hour the loops visit for day d, hour 8 + h and quarter q. */
  function Slot(d: nat, h: nat, q: nat): TimeSpan
    requires d < |Workdays| && q < |QuarterOffsets|
  {
    TimeSpan(Workdays[d], (FirstHour + h) as real + QuarterOffsets[q],
             (FirstHour + h) as real + QuarterOffsets[q] + BlockLength)
  }

  /** The blocks of the first qs quarters of hour 8 + h on day d, offered to everyone. */
  function HourRow(d: nat, h: nat, qs: nat, people: seq<Attendee>): (r: seq<Block>)
    requires d < |Workdays| && qs <= |QuarterOffsets|
    ensures |r| == qs
  {
    if qs == 0 then []
    else HourRow(d, h, qs - 1, people) + [Offered(Candidate(Slot(d, h, qs - 1)), people)]
  }

  /** The blocks of the first hs hours of day d. */
  function DayRow(d: nat, hs: nat, people: seq<Attendee>): (r: seq<Block>)
    requires d < |Workdays|
    ensures |r| == 4 * hs
  {
    if hs == 0 then []
    else DayRow(d, hs - 1, people) + HourRow(d, hs - 1, |QuarterOffsets|, people)
  }

  /** The blocks of the first ds workdays. */
  function Week(ds: nat, people: seq<Attendee>): (r: seq<Block>)
    requires ds <= |Workdays|
    ensures |r| == BlocksPerDay * ds
  {
    if ds == 0 then []
    else Week(ds - 1, people) + DayRow(ds - 1, EndHour - FirstHour, people)
  }

  /** What the generation loop builds: every workday, hour and quarter, in that nesting. */
  function Grid(people: seq<Attendee>): (r: seq<Block>)
    ensures |r| == GridSize
  {
    Week(|Workdays|, people)
  }

  /** The q-th block of an hour row is that quarter, offered to everyone. */
  lemma {:induction false} HourRowAt(d: nat, h: nat, qs: nat, q: nat, people: seq<Attendee>)
    requires d < |Workdays| && q < qs <= |QuarterOffsets|
    ensures HourRow(d, h, qs, people)[q] == Offered(Candidate(Slot(d, h, q)), people)
  {
    if q < qs - 1 {
      HourRowAt(d, h, qs - 1, q, people);
    }
  }

  /** The j-th block of a day row is quarter j % 4 of hour j / 4. */
  lemma {:induction false} DayRowAt(d: nat, hs: nat, j: nat, people: seq<Attendee>)
    requires d < |Workdays| && j < 4 * hs
    ensures DayRow(d, hs, people)[j] == Offered(Candidate(Slot(d, j / 4, j % 4)), people)
  {
    var before := DayRow(d, hs - 1, people);
    if j < 4 * (hs - 1) {
      DayRowAt(d, hs - 1, j, people);
      assert DayRow(d, hs, people)[j] == before[j];
    } else {
      var q := j - 4 * (hs - 1);
      assert j / 4 == hs - 1 && j % 4 == q;
      HourRowAt(d, hs - 1, |QuarterOffsets|, q, people);
      assert DayRow(d, hs, people)[j] == HourRow(d, hs - 1, |QuarterOffsets|, people)[q];
    }
  }

  /** The i-th block of the first ds days is the slot at day i / 36, offset i % 36. */
  lemma {:induction false} WeekAt(ds: nat, i: nat, people: seq<Attendee>)
    requires ds <= |Workdays| && i < BlocksPerDay * ds
    ensures i / BlocksPerDay < |Workdays|
    ensures Week(ds, people)[i] ==
      Offered(Candidate(Slot(i / BlocksPerDay, (i % BlocksPerDay) / 4, (i % BlocksPerDay) % 4)), people)
  {
    var before := Week(ds - 1, people);
    if i < BlocksPerDay * (ds - 1) {
      WeekAt(ds - 1, i, people);
      assert Week(ds, people)[i] == before[i];
    } else {
      var j := i - BlocksPerDay * (ds - 1);
      assert i / BlocksPerDay == ds - 1 && i % BlocksPerDay == j;
      DayRowAt(ds - 1, EndHour - FirstHour, j, people);
      assert Week(ds, people)[i] == DayRow(ds - 1, EndHour - FirstHour, people)[j];
    }
  }

  /** The (day, hour, quarter) triple visited at step d*36 + h*4 + q sits at that index of the grid. */
  lemma GridIndex(n: nat, d: nat, h: nat, q: nat)
    requires d < |Workdays| && h < EndHour - FirstHour && q < |QuarterOffsets|
    requires n == d * BlocksPerDay + h * 4 + q
    ensures n < GridSize
    ensures GridSpan(n) == Slot(d, h, q)
  {
    assert n / BlocksPerDay == d && n % BlocksPerDay == h * 4 + q;
    assert (h * 4 + q) / 4 == h && (h * 4 + q) % 4 == q;
  }

  /** The i-th block of the generated grid is the i-th slot, offered to everyone. */
  lemma GridBlock(people: seq<Attendee>, i: nat)
    requires i < GridSize
    ensures Grid(people)[i] == Offered(Candidate(GridSpan(i)), people)
    ensures Grid(people)[i].time == GridSpan(i)
  {
    WeekAt(|Workdays|, i, people);
    var r := i % BlocksPerDay;
    GridIndex(i, i / BlocksPerDay, r / 4, r % 4);
  }

  /** The triple-nested generation loop of main.py:10-19; the body of the day loop is AppendDay. */
  method GenerateBlocks(people: seq<Attendee>) returns (timeBlocks: seq<Block>)
    ensures timeBlocks == Grid(people)
  {
    timeBlocks := [];
    for d := 0 to |Workdays|
      invariant timeBlocks == Week(d, people)
    {
      timeBlocks := AppendDay(timeBlocks, d, people);
    }
  }

  /** One pass of the day loop (main.py:12-19): the day's quarter hours, in order, appended to the list. */
  method AppendDay(timeBlocks: seq<Block>, d: nat, people: seq<Attendee>) returns (extended: seq<Block>)
    requires d < |Workdays|
    ensures extended == timeBlocks + DayRow(d, EndHour - FirstHour, people)
  {
    var day := Workdays[d];
    extended := timeBlocks;
    for h := 0 to EndHour - FirstHour
      invariant extended == timeBlocks + DayRow(d, h, people)
    {
      var startHour := FirstHour + h;
      ghost var hourStart := extended;
      for q := 0 to |QuarterOffsets|
        invariant extended == hourStart + HourRow(d, h, q, people)
      {
        var start := startHour as real + QuarterOffsets[q];
        var end := start + BlockLength;
        var span := TimeSpan(day, start, end);
        assert span == Slot(d, h, q);
        var event := OfferToAll(span, people);
        assert HourRow(d, h, q + 1, people) == HourRow(d, h, q, people) + [event];
        extended := extended + [event];
      }
      assert DayRow(d, h + 1, people) == DayRow(d, h, people) + HourRow(d, h, |QuarterOffsets|, people);
    }
  }

  /** The innermost loop of main.py:16-18: a fresh block offered to each attendee in turn. */
  method OfferToAll(span: TimeSpan, people: seq<Attendee>) returns (event: Block)
    ensures event == Offered(Candidate(span), people)
  {
    event := Candidate(span);
    for j := 0 to |people|
      invariant event == Offered(Candidate(span), people[..j])
    {
      assert people[..j + 1][..j] == people[..j];
      event := AddAttendee(event, people[j]);
    }
    assert people[..|people|] == people;
  }

  // ---------------------------------------------------------------------
  // The shape of the grid

  /** Every block is a quarter hour on a workday, starting in [8, 17). */
  lemma GridSlot(i: nat)
    requires i < GridSize
    ensures GridSpan(i).day == Workdays[i / BlocksPerDay]
    ensures GridSpan(i).start == FirstHour as real + (i % BlocksPerDay) as real / 4.0
    ensures GridSpan(i).end == GridSpan(i).start + 0.25
    ensures 8.0 <= GridSpan(i).start < 17.0
  {
    var r := i % BlocksPerDay;
    assert r == 4 * (r / 4) + r % 4;
  }

  /** Workdays run Monday (enum value 1) to Friday (5). */
  lemma WorkdayOrdinal(d: nat)
    requires d < |Workdays|
    ensures Workdays[d].Ordinal() == d + 1
  {
  }

  /** Neighbours share a day exactly within a day's 36 blocks, and then they touch. */
  lemma GridAdjacency(i: nat)
    requires i + 1 < GridSize
    ensures GridSpan(i).day == GridSpan(i + 1).day <==> (i + 1) % BlocksPerDay != 0
    ensures GridSpan(i).day == GridSpan(i + 1).day ==> GridSpan(i).end == GridSpan(i + 1).start
  {
    GridSlot(i);
    GridSlot(i + 1);
    WorkdayOrdinal(i / BlocksPerDay);
    WorkdayOrdinal((i + 1) / BlocksPerDay);
  }

  /** Generation order: an earlier block is on an earlier day, or earlier on the same day. */
  lemma GridOrder(i: nat, j: nat)
    requires i < j < GridSize
    ensures || GridSpan(i).day.Ordinal() < GridSpan(j).day.Ordinal()
            || (GridSpan(i).day == GridSpan(j).day && GridSpan(i).start < GridSpan(j).start)
  {
    GridSlot(i);
    GridSlot(j);
    WorkdayOrdinal(i / BlocksPerDay);
    WorkdayOrdinal(j / BlocksPerDay);
  }

  /** The grid lists each (day, start) slot once. */
  lemma GridDistinct(i: nat, j: nat)
    requires i < j < GridSize
    ensures GridSpan(i) != GridSpan(j)
  {
    GridOrder(i, j);
  }

  /** Whatever the attendees, the generated blocks are in the order the merge expects. */
  lemma GridChronological(people: seq<Attendee>)
    ensures Chronological(Grid(people))
  {
    var g := Grid(people);
    forall i | 0 <= i < |g|
      ensures g[i].time.start < g[i].time.end
    {
      GridBlock(people, i);
      GridSlot(i);
    }
    forall i | 0 < i < |g| && g[i - 1].time.day == g[i].time.day
      ensures g[i - 1].time.end <= g[i].time.start
    {
      GridBlock(people, i - 1);
      GridBlock(people, i);
      GridAdjacency(i - 1);
    }
  }

  // ---------------------------------------------------------------------
  // Offering a block to the attendees

  /** The names of the attendees. */
  function Names(people: seq<Attendee>): set<string> {
    set k | 0 <= k < |people| :: people[k].name
  }

  /** After the offer, a name is listed as available iff some attendee of that name is available for the block. */
  lemma {:induction false} OfferedAvailable(span: TimeSpan, people: seq<Attendee>, n: string)
    ensures n in Offered(Candidate(span), people).available <==>
              exists k :: 0 <= k < |people| && people[k].name == n && IsAvailable(people[k], span)
    decreases |people|
  {
    if people != [] {
      var init := people[..|people| - 1];
      OfferedAvailable(span, init, n);
      if exists k :: 0 <= k < |people| && people[k].name == n && IsAvailable(people[k], span) {
        var k :| 0 <= k < |people| && people[k].name == n && IsAvailable(people[k], span);
        if k < |people| - 1 {
          assert init[k] == people[k];
        }
      }
      if exists k :: 0 <= k < |init| && init[k].name == n && IsAvailable(init[k], span) {
        var k :| 0 <= k < |init| && init[k].name == n && IsAvailable(init[k], span);
        assert people[k] == init[k];
      }
    }
  }

  /** After the offer, a name is listed as not available iff some attendee of that name is not available. */
  lemma {:induction false} OfferedUnavailable(span: TimeSpan, people: seq<Attendee>, n: string)
    ensures n in Offered(Candidate(span), people).notAvailable <==>
              exists k :: 0 <= k < |people| && people[k].name == n && !IsAvailable(people[k], span)
    decreases |people|
  {
    if people != [] {
      var init := people[..|people| - 1];
      OfferedUnavailable(span, init, n);
      if exists k :: 0 <= k < |people| && people[k].name == n && !IsAvailable(people[k], span) {
        var k :| 0 <= k < |people| && people[k].name == n && !IsAvailable(people[k], span);
        if k < |people| - 1 {
          assert init[k] == people[k];
        }
      }
      if exists k :: 0 <= k < |init| && init[k].name == n && !IsAvailable(init[k], span) {
        var k :| 0 <= k < |init| && init[k].name == n && !IsAvailable(init[k], span);
        assert people[k] == init[k];
      }
    }
  }

  /**
   * Every attendee is offered the block: the two sets together hold exactly the
   * attendees' names, and with distinct names they are disjoint.
   */
  lemma OfferedPartition(span: TimeSpan, people: seq<Attendee>)
    ensures var b := Offered(Candidate(span), people);
      b.available + b.notAvailable == Names(people)
    ensures (forall k, l :: 0 <= k < l < |people| ==> people[k].name != people[l].name) ==>
      Offered(Candidate(span), people).available * Offered(Candidate(span), people).notAvailable == {}
  {
    var b := Offered(Candidate(span), people);
    forall n
      ensures n in b.available + b.notAvailable <==> n in Names(people)
    {
      OfferedAvailable(span, people, n);
      OfferedUnavailable(span, people, n);
    }
    if forall k, l :: 0 <= k < l < |people| ==> people[k].name != people[l].name {
      forall n | n in b.available
        ensures n !in b.notAvailable
      {
        OfferedAvailable(span, people, n);
        OfferedUnavailable(span, people, n);
      }
    }
  }

  /**
   * Merge soundness on the grid: a name is in the k-th merged span's available
   * set iff an attendee of that name is available for every block of the run,
   * and in its not-available set iff an attendee of that name is not.
   */
  lemma MergedGridSound(people: seq<Attendee>, k: nat, j: nat, n: string)
    requires k < |RunStarts(Grid(people))|
    requires RunStarts(Grid(people))[k] <= j < RunEnd(Grid(people), RunStarts(Grid(people)), k)
    ensures k < |MergeRuns(Grid(people))|
    ensures n in MergeRuns(Grid(people))[k].available <==>
              exists p :: 0 <= p < |people| && people[p].name == n && IsAvailable(people[p], GridSpan(j))
    ensures n in MergeRuns(Grid(people))[k].notAvailable <==>
              exists p :: 0 <= p < |people| && people[p].name == n && !IsAvailable(people[p], GridSpan(j))
    ensures Contains(MergeRuns(Grid(people))[k].time, GridSpan(j))
  {
    GridChronological(people);
    RunCoversItsBlocks(Grid(people), k, j);
    GridBlock(people, j);
    OfferedAvailable(GridSpan(j), people, n);
    OfferedUnavailable(GridSpan(j), people, n);
  }

  /** The merge's non-empty precondition always holds for the grid main.py builds. */
  lemma GridNonEmpty(people: seq<Attendee>)
    ensures |Grid(people)| == GridSize > 0
  {
  }

  /** Only the last block of the grid is a Friday block ending at 17:00. */
  lemma FridayCloseIsLast(i: nat)
    requires i < GridSize
    requires GridSpan(i).day == Friday && GridSpan(i).end == 17.0
    ensures i == GridSize - 1
  {
    GridSlot(i);
    WorkdayOrdinal(i / BlocksPerDay);
  }

  /** A run other than the last ends at a block before the grid's last one. */
  lemma EarlierRunEndsEarlier(people: seq<Attendee>, k: nat)
    requires k + 1 < |MergeRuns(Grid(people))|
    ensures !(MergeRuns(Grid(people))[k].time.day == Friday && MergeRuns(Grid(people))[k].time.end == 17.0)
  {
    var g := Grid(people);
    GridChronological(people);
    RunCount(g);
    var cuts := RunStarts(g);
    RunSpan(g, k);
    var e := RunEnd(g, cuts, k);
    assert e == cuts[k + 1] < GridSize;
    assert MergeRuns(g)[k].time.day == g[e - 1].time.day;
    assert MergeRuns(g)[k].time.end == g[e - 1].time.end;
    GridBlock(people, e - 1);
    if g[e - 1].time.day == Friday && g[e - 1].time.end == 17.0 {
      FridayCloseIsLast(e - 1);
    }
  }

  /**
   * The run main.py never emits ends at 17:00 on Friday, and no span it does
   * emit ends there: the Friday afternoon tail of the week is lost.
   */
  lemma FridayTailLost(people: seq<Attendee>)
    ensures var rs := MergeRuns(Grid(people));
      && rs[|rs| - 1].time.day == Friday && rs[|rs| - 1].time.end == 17.0
      && forall k :: 0 <= k < |rs| - 1 ==> !(rs[k].time.day == Friday && rs[k].time.end == 17.0)
  {
    var g := Grid(people);
    GridChronological(people);
    FinalRunHoldsLastBlock(g);
    GridBlock(people, GridSize - 1);
    GridSlot(GridSize - 1);
    forall k | 0 <= k < |MergeRuns(g)| - 1
      ensures !(MergeRuns(g)[k].time.day == Friday && MergeRuns(g)[k].time.end == 17.0)
    {
      EarlierRunEndsEarlier(people, k);
    }
  }

  /** Blocks of equal length d add up to d times their number. */
  lemma {:induction false} UniformTotal(bs: seq<Block>, d: real)
    requires forall i :: 0 <= i < |bs| ==> Duration(bs[i]) == d
    ensures TotalDuration(bs) == d * |bs| as real
  {
    if bs != [] {
      UniformTotal(bs[1..], d);
    }
  }

  /** The grid covers 5 days of 9 hours: 45 hours in all, and so do the merged spans. */
  lemma GridHours(people: seq<Attendee>)
    ensures TotalDuration(Grid(people)) == 45.0
    ensures TotalDuration(MergeRuns(Grid(people))) == 45.0
  {
    var g := Grid(people);
    forall i | 0 <= i < |g|
      ensures Duration(g[i]) == 0.25
    {
      GridBlock(people, i);
      GridSlot(i);
    }
    UniformTotal(g, 0.25);
    GridChronological(people);
    MergeKeepsDuration(g);
  }

  /**
   * The spans main.py keeps add up to 45 hours less the dropped final run,
   * which is at least one quarter hour long.
   */
  lemma DroppedHours(people: seq<Attendee>)
    ensures var rs := MergeRuns(Grid(people));
      TotalDuration(rs[..|rs| - 1]) == 45.0 - Duration(rs[|rs| - 1]) && Duration(rs[|rs| - 1]) >= 0.25
  {
    var g := Grid(people);
    var rs := MergeRuns(g);
    GridHours(people);
    assert rs == rs[..|rs| - 1] + [rs[|rs| - 1]];
    TotalSplit(rs[..|rs| - 1], [rs[|rs| - 1]]);
    assert TotalDuration([rs[|rs| - 1]]) == Duration(rs[|rs| - 1]);
    GridChronological(people);
    RunCount(g);
    var k := |RunStarts(g)| - 1;
    RunCoversItsBlocks(g, k, GridSize - 1);
    GridBlock(people, GridSize - 1);
    GridSlot(GridSize - 1);
  }

  // ---------------------------------------------------------------------
  // Ranking, main.py:31-33

  /**
   * by_attendees: the merged spans, most attendees first, ties in merge order.
   * (by_length at line 32 is computed and never used.)
   */
  function ByAttendees(combined: seq<Block>): (r: seq<Block>)
    ensures multiset(r) == multiset(combined)
    ensures forall i, j :: 0 <= i < j < |r| ==> NumAvailable(r[i]) >= NumAvailable(r[j])
    ensures forall v :: KeyClass(ByAvailable(Descending), r, v) == KeyClass(ByAvailable(Descending), combined, v)
  {
    Apply(ByAvailable(Descending), combined)
  }
}
