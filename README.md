# calendar-overlap: the meeting-slot pipeline in Dafny

This project models the meeting-slot pipeline of calendar-overlap and proves properties of it. The pipeline has four stages.

- **Block generation** (`main.py:10-19`). The program builds a grid of quarter-hour candidate blocks: Monday to Friday, start hours 8 to 16, four quarters each. Every attendee is offered every block. The block records who is available and who is not.
- **Merge fold** (`main.py:21-29`). A running accumulator absorbs each following block that it can combine with. When it cannot, the accumulator is emitted and the block starts a new run.
- **Ranking and filtering** (`main.py:31-33`, `find_time/main.py:7-44`, `find_time/main.py:95-125`). These cover:
  - the table of stable sorts (`none`, `available<`/`>`, `length<`/`>`, `start<`/`>`);
  - the `minh`/`maxh` duration filters;
  - `event_filter` and `build_filter`;
  - the loop that applies the sorts in order;
  - the selection loop, which caps output at `nprint`, skips empty blocks, skips rejected blocks and numbers the printed blocks.
- **Weekday projection** (`find_time/to_ics.py:15-17`). `next_weekday_after_date` returns the first date on or after a date that falls on a given weekday.

Modules, one per file:

| file | module | contents |
|---|---|---|
| `wrappers.dfy` | `Wrappers` | `Option` and `Result` |
| `calendar.dfy` | `Calendar` | weekdays, time spans, attendees, blocks; `add_attendee`, `can_combine`, `combine` |
| `merge.dfy` | `Merge` | the fold as written, the corrected fold, and a reference description of its runs |
| `grid.dfy` | `MeetingGrid` | the generation loop, the grid's shape, offering blocks to attendees, `by_attendees` |
| `ranking.dfy` | `Ranking` | the sort table, stable sorting, and the loop applying the sorts |
| `filtering.dfy` | `Filtering` | filters, `event_filter`, `build_filter`, the selection loop |
| `projection.dfy` | `Projection` | `next_weekday_after_date` |

Modelling choices:
- Times are `real` hours. Every quarter-hour value the program uses is exact in binary floating point, so no rounding is lost.
- A block (`EventTime`) is a datatype value. Each block is created fresh, updated by `add_attendee` before it is appended, and never shared. Updating a value is therefore observationally the same as updating the object in place.
- The generation loop is a method with three nested loops. The body of the day loop is `AppendDay`, and the attendee loop is `OfferToAll`. The method is proved to build `Grid`, which is defined by the same day/hour/quarter nesting. `GridBlock` connects index `i` of the grid to the slot `GridSpan(i)`.
- The merge has three forms:
  - `Runs` reads the fold as a recursive function.
  - `MergeFold` is the loop as written.
  - `MergeAll` is the loop with the final accumulator emitted.
  - `Segments(bs, RunStarts(bs))` is an independent description: one span per maximal stretch of touching neighbours that agree on availability. `MergeRunsAreSegments` proves that it equals the fold for blocks in generation order.
- Python's `sorted` is stable, also with `reverse=True`. Each sort is therefore a stable insertion sort. Stability is stated as follows: for every key value, the blocks with that key appear in the same order in input and output (`KeyClass`).
- `build_filter` is modelled with its laziness. Filter strings are converted for each block, in list order, and the first rejection ends the test. A malformed filter therefore raises only when it is reached. In `event_filter`, `float(val)` is evaluated before `partial(...)` is applied. So a bad threshold is reported even when the key is unknown too.
- A date is its proleptic Gregorian day number (`toordinal()`, where day 1 is a Monday) plus its time of day. `isoweekday()` is `(ordinal - 1) % 7 + 1`. Python's floored `%` and Dafny's Euclidean `%` agree for the divisor 7.

The classes module (`EventTime`, `Attendee`, `Day`) is not part of this model. The model assumes these rules for it:
- An attendee is available for a block iff one of their spans covers the whole block (`Calendar.IsAvailable`).
- Two blocks can be combined iff they are on the same day, one ends where the other starts (in either order), and their availability sets are equal (`Calendar.CanCombine`).
- Combining keeps the first block's day and availability and spans from the earlier start to the later end (`Calendar.Combine`).
- The weekday enumeration numbers Sunday as 0 and Saturday as 6. The `start` sort key uses these values, and `SundayIsSeven` shows that weekday 0 projects to ISO weekday 7.

## Model

| member | source | states |
|---|---|---|
| Calendar.AvailableWithin | main.py:18 | availability (`IsAvailable`) for a span carries over to every span inside it |
| Calendar.CanCombineSymmetric | main.py:25 | `can_combine` reads both orders alike |
| Calendar.DayTestMatters | main.py:25 | a Monday run from 08:15 to 17:00 and the Tuesday 08:00-08:15 block touch start-to-end with equal availability, and `can_combine` still refuses them |
| Calendar.AddAttendee | main.py:18 | the span is unchanged; if one of the attendee's spans covers the block, the available set gains exactly their name and the not-available set is unchanged; otherwise the not-available set gains exactly their name and the available set is unchanged |
| Calendar.Combine | main.py:26 | the combined span is on the first block's day, starts at the earlier start and ends at the later end, covers both blocks when they share a day, and keeps the first block's availability |
| MeetingGrid.GenerateBlocks | main.py:10-19 | the triple-nested loop builds exactly `Grid(people)`: 180 blocks, day-major, then hour, then quarter, each offered to everyone |
| MeetingGrid.AppendDay | main.py:12-19 | one pass of the day loop appends that day's 36 quarter-hour blocks, hour by hour and quarter by quarter, to the list |
| MeetingGrid.OfferToAll | main.py:16-18 | the block is offered to the attendees one at a time in list order, and the result is `Offered(Candidate(span), people)` |
| MeetingGrid.Offered | main.py:17-18 | offering a block to attendees never changes its span |
| MeetingGrid.Grid | main.py:10-19 | the generated list has 180 = 5 × 9 × 4 blocks |
| MeetingGrid.GridBlock | main.py:11-16 | block i of the generated list is slot i (day i / 36, quarter i % 36 of the day), offered to everyone |
| MeetingGrid.GridSlot | main.py:12-15 | every block is on a workday, lasts a quarter hour (end = start + 0.25) and starts in [8, 17) |
| MeetingGrid.GridAdjacency | main.py:11-16 | consecutive blocks share a day exactly when they are within the same day's 36 blocks, and then one ends where the next starts |
| MeetingGrid.GridOrder | main.py:11-15 | an earlier block is on an earlier weekday, or on the same day with an earlier start |
| MeetingGrid.GridDistinct | main.py:11-15 | no (day, start) slot is generated twice |
| MeetingGrid.GridChronological | main.py:10-19 | the generated list is in the order the merge relies on: each block is non-empty and none starts before its predecessor on the same day ends |
| MeetingGrid.OfferedAvailable | main.py:17-18 | a name is in the available set iff some attendee of that name is available for the block |
| MeetingGrid.OfferedUnavailable | main.py:17-18 | a name is in the not-available set iff some attendee of that name is not available for the block |
| MeetingGrid.OfferedPartition | main.py:17-18 | the two sets together hold exactly the attendees' names, and they are disjoint when names are distinct |
| MeetingGrid.GridNonEmpty | main.py:23 | the list the fold reads element 0 of is never empty |
| MeetingGrid.MergedGridSound | main.py:10-29 | for every grid block of a run, a name is in the merged span's available set iff an attendee of that name is available for that block, in its not-available set iff an attendee of that name is not, and the span covers the block |
| MeetingGrid.FridayTailLost | main.py:22-29 | the run the loop never emits is the one ending at 17:00 on Friday, and no emitted span ends there |
| MeetingGrid.GridHours | main.py:10-29 | the grid adds up to 45 hours, and so do all its merged runs |
| MeetingGrid.DroppedHours | main.py:22-29 | the spans the loop keeps add up to 45 hours minus the dropped final run, which lasts at least a quarter hour |
| MeetingGrid.ByAttendees | main.py:31 | `by_attendees` is a permutation of the merged spans, non-increasing in `num_available`, and keeps merge order among spans with equal counts |
| Merge.Runs | main.py:22-29 | the fold from an accumulator emits at least one span and at most one per block |
| Merge.MergeRuns | main.py:22-29 | merging n > 0 blocks yields between 1 and n spans |
| Merge.MergeFold | main.py:21-29 | the loop as written emits every run except the final accumulator: its output plus the last run is the full list of runs, one element shorter |
| Merge.MergeAll | main.py:21-29 | the loop with the final accumulator appended yields exactly the runs of the input |
| Merge.CombineIsForward | main.py:25 | for non-empty blocks in generation order, `can_combine` (`CanCombine`) holds iff the second block starts where the first ends on the same day with equal availability |
| Merge.BreaksExact | main.py:25-29 | a new run starts at block j exactly when block j cannot be joined to block j-1 |
| Merge.MergeRunsAreSegments | main.py:21-29 | for blocks in generation order, the fold's runs are the maximal stretches of touching, same-availability neighbours, in input order |
| Merge.RunCount | main.py:21-29 | the number of runs is one more than the number of breaks |
| Merge.RunCoversItsBlocks | main.py:24-29 | each merged span has the availability of every block in its run and covers each of them |
| Merge.RunSpan | main.py:24-29 | run k spans from its first block's start to its last block's end, and those blocks agree on day and availability |
| Merge.InsideRun | main.py:25-26 | every block inside a run can be joined to its predecessor |
| Merge.RunsAreMaximal | main.py:25-29 | two consecutive merged spans could never be joined, and on the same day they do not overlap |
| Merge.MergedChronological | main.py:24-29 | the merged spans are themselves in generation order, without overlaps |
| Merge.MergeIdempotent | main.py:21-29 | merging the merged spans again changes nothing |
| Merge.FinalRunHoldsLastBlock | main.py:22-29 | the final run ends where the last block ends, on the same day |
| Merge.MergeKeepsDuration | main.py:21-29 | the merged spans add up to as many hours as the blocks |
| Merge.Telescope | main.py:24-26 | gap-free consecutive blocks add up to the span from the first start to the last end |
| Ranking.LookupIsTable | find_time/main.py:7-19 | looking a name up succeeds exactly for the seven table names, and inverts the naming of sorts |
| Ranking.Apply | find_time/main.py:7-19 | a registered sort returns a permutation of its input, ordered by its key (non-decreasing for `<`, non-increasing for `>`), stable within equal keys; `none` returns the input unchanged |
| Ranking.SortPermutes | find_time/main.py:9-18 | `sorted` (`StableSort`) returns a permutation of its input |
| Ranking.SortSorted | find_time/main.py:9-18 | the output of `sorted` (`StableSort`) is ordered by the table's key (`KeyValue`) in the key's direction |
| Ranking.StartKeyChronological | find_time/main.py:14-18 | for start hours within the day, the `start` key (`StartKey`) orders blocks by weekday, then by start hour |
| Ranking.SortStable | find_time/main.py:9-18 | `sorted` (`StableSort`) is stable: blocks with equal keys keep their input order |
| Ranking.InsertPermutes | find_time/main.py:9-18 | inserting adds the element and nothing else |
| Ranking.InsertSorted | find_time/main.py:9-18 | inserting into an ordered list keeps it ordered |
| Ranking.InsertKeyClass | find_time/main.py:9-18 | inserting keeps the relative order of the blocks sharing any key |
| Ranking.KeyClassMembers | find_time/main.py:9-18 | a key class holds only blocks of the list that have that key |
| Ranking.SortOfSorted | find_time/main.py:9-18 | a list already in order is returned unchanged |
| Ranking.ApplyIdempotent | find_time/main.py:7-19 | applying the same sort twice equals applying it once |
| Ranking.KeyClassOfSorted | find_time/main.py:9-18 | the blocks of a sorted list that share some other key are still sorted |
| Ranking.LaterSortBreaksTiesByEarlier | find_time/main.py:95-96 | sorting by k1 then k2 orders by k2, and blocks with equal k2 keys stay ordered by k1 |
| Ranking.ApplySorts | find_time/main.py:95-96 | the sorts are applied in the order given, each to the previous result; the result is a permutation of the input, ordered by the last key |
| Filtering.PartitionFinds | find_time/main.py:31 | `Partition`, the model of `partition('=')`, finds the separator iff the string holds one, and the key never contains it |
| Filtering.PartitionJoins | find_time/main.py:31 | key + '=' + value rebuilds the string when the separator is found; otherwise the key is the whole string and the value is empty |
| Filtering.PartitionAtFirst | find_time/main.py:31 | the split happens at the first '=' |
| Filtering.NoneInAnyCase | find_time/main.py:28-29 | `event_filter` (`EventFilter`): the lower-cased string is 'none' iff the string spells n-o-n-e in some mix of cases, and such a string accepts every block, whatever the threshold parser does |
| Filtering.KeyValueSplit | find_time/main.py:31 | a string built from a table key and a threshold splits back into that key and threshold |
| Filtering.ThresholdFilter | find_time/main.py:21-33 | `event_filter` (`EventFilter`) with the filter table (`Accepts`): `minh=t` and `maxh=t` succeed iff t parses, and then give that threshold filter (minh accepts spans of at least t hours, maxh spans of at most t hours) |
| Filtering.UnknownKeyRejected | find_time/main.py:21-33 | `event_filter` (`EventFilter`): with a valid number, a filter string fails iff its key is neither `minh` nor `maxh` |
| Filtering.ApplyFilterIsConjunction | find_time/main.py:36-44 | `build_filter` (`ApplyFilter`): with well-formed filters, a block passes iff every listed filter accepts it; an empty list accepts everything |
| Filtering.ApplyFilterAppend | find_time/main.py:36-44 | the filters of a concatenated list are tried first to last: the second list is tried only when the first lets the block through |
| Filtering.PairIsConjunction | find_time/main.py:36-44 | a block passes two filters iff it passes each of them |
| Filtering.FailureFromSomeFilter | find_time/main.py:36-44 | an error raised by `build_filter`'s filter (`ApplyFilter`) is the conversion error of one of the listed filter strings |
| Filtering.Take | find_time/main.py:108-111 | the printed list is a prefix of the wanted blocks, at most `nprint` long |
| Filtering.KeepMembers | find_time/main.py:113-119 | the blocks the loop would print without a limit (`Keep`) are exactly the input blocks that are non-empty (unless `show_empty`) and pass the filter, and there are no more of them than input blocks |
| Filtering.KeepGrows | find_time/main.py:113-119 | a longer prefix of the input never yields fewer wanted blocks |
| Filtering.KeepPrefix | find_time/main.py:108-119 | the blocks wanted from a prefix of the input are a prefix of those wanted from all of it |
| Filtering.SelectBlocks | find_time/main.py:101-125 | prints the first `nprint` (all when negative) non-empty (unless `show_empty`) blocks that pass the filter, in order, numbered 1, 2, ...; `failure` is set iff the filter raises on some block the loop reaches (fewer than `nprint` printed before it, and not skipped as empty); it is the error of the first such block, and the blocks printed before it are kept; well-formed filters never fail |
| Filtering.NothingWhenNobodyFree | find_time/main.py:113-115 | with empty blocks hidden and nobody available anywhere, nothing is printed |
| Projection.IsoWeekday | find_time/to_ics.py:16 | `isoweekday()` lies in 1..7 |
| Projection.Offset | find_time/to_ics.py:16 | the offset `(weekday - isoweekday) % 7` lies in 0..6 |
| Projection.IsoWeekdayShift | find_time/to_ics.py:16-17 | moving n days forward advances the ISO weekday by n modulo 7 |
| Projection.NextWeekdayAfterDate | find_time/to_ics.py:15-17 | `next_weekday_after_date` returns the given date or a date at most six days later, at the same time of day |
| Projection.LandsOnWeekday | find_time/to_ics.py:15-17 | the result's ISO weekday is congruent to the requested weekday modulo 7 |
| Projection.SundayIsSeven | find_time/to_ics.py:15-17 | weekday 0 (Sunday's enum value) lands on ISO weekday 7 |
| Projection.FirstSuchDate | find_time/to_ics.py:15-17 | no date between the given date and the result falls on the weekday: the result is the first such date |
| Projection.AlreadyOnWeekday | find_time/to_ics.py:15-17 | a date already on the weekday is returned unchanged |
| Projection.ProjectionIdempotent | find_time/to_ics.py:15-17 | projecting the result again returns it unchanged |

## Left out

- Reading the availability file (`load_availability`, `find_time.load`), argument parsing, and all printing. These are I/O. The selection loop returns the numbered blocks it would print, not the printed text.
- The ICS export of find_time/to_ics.py, apart from `next_weekday_after_date`. It consists of calls into the `ics` and `dateutil` libraries.
- The classes module (`EventTime`, `Attendee`, `Day`, `calc_overlap`, `str_to_day`) is not part of this model. Its `add_attendee`, `can_combine` and `combine` follow the assumed rules listed above.
- Calendar.CanCombine: the same-day test is an assumption about the unseen `can_combine`, and it matters. With one attendee A free only on Monday 08:00-08:15, the first run of the grid after that block is Monday 08:15-17:00 with A unavailable, and the next grid block is Tuesday 08:00-08:15 with A unavailable. The run's start equals that block's end and the sets agree, so a rule that checks only the touch in either order would fold Tuesday into the Monday run. `Calendar.DayTestMatters` states this pair. On blocks in generation order the model's rule is the one-way rule: the second block starts where the first ends, on the same day, with equal sets (`Merge.CombineIsForward`).
- `float(val)` in `event_filter` is a parameter `parse` of the filter functions. It returns None where Python raises `ValueError`. NaN and infinite thresholds are not modelled: thresholds are real numbers, while in Python `minh=nan` or `maxh=nan` rejects every block.
- Filtering.Lower lowercases ASCII letters only. Python's `str.lower` also lowercases other scripts and can change a string's length. Only the comparison with 'none' depends on it.
- `by_length` (`main.py:32`) is computed and never used. Only `by_attendees` is modelled.
- The sort names are lowercased by `argparse` before the table lookup, and an unknown name is rejected there. `ApplySorts` therefore takes sort keys that have already been looked up.
- Python dates are limited to years 1 to 9999. Adding days beyond that range raises `OverflowError`, and Projection.AddDays does not model this.
- Floating-point rounding is not modelled. All values the program builds are exact quarter hours.
- Updating `EventTime` objects in place and aliasing between them are not modelled. Each block is a fresh value, as explained above.

## Findings

| source | as written | input that shows it | evidently intended | confidence | as-written member | corrected member |
|---|---|---|---|---|---|---|
| main.py:22-29 | after the loop the last accumulator `current` is never appended to `combined`, so the final run of the week is lost | any attendee list: the run that holds the Friday 16:45-17:00 block is never emitted, and the emitted spans add up to less than 45 hours | append `current` after the loop, so that every run is emitted: the loop is introduced as combining adjacent time blocks (`main.py:21`), and the last run is built by the same combine steps as the others and then discarded | not executed | Merge.MergeFold, MeetingGrid.FridayTailLost, MeetingGrid.DroppedHours | Merge.MergeAll |
