// The value types the meeting-slot pipeline works on: weekdays, time spans,
// attendees and candidate blocks, and the block operations the pipeline calls
// (add_attendee, can_combine, combine).  The classes module that defines them
// in the repository is not part of this model, so their rules here are
// assumptions of the model: an attendee is available when one of their
// stated spans covers the whole block, blocks combine when they touch (end to
// start, in either order) on the same day with identical availability sets,
// combining widens the span, and the weekdays are numbered from Sunday = 0.
module Calendar {

  /** The seven days of the week; Ordinal is the enum value (Sunday = 0). */
  datatype Weekday = Sunday | Monday | Tuesday | Wednesday | Thursday | Friday | Saturday {
    function Ordinal(): (n: nat)
      ensures n < 7
      ensures n == 0 <==> this == Sunday
    {
      match this
      case Sunday => 0
      case Monday => 1
      case Tuesday => 2
      case Wednesday => 3
      case Thursday => 4
      case Friday => 5
      case Saturday => 6
    }
  }

  /** A half-open interval [start, end) of hours on one weekday. */
  datatype TimeSpan = TimeSpan(day: Weekday, start: real, end: real)

  /** True iff `inner` lies entirely within `outer` on the same day. */
  predicate Contains(outer: TimeSpan, inner: TimeSpan) {
    inner.day == outer.day && outer.start <= inner.start && inner.end <= outer.end
  }

  /** A person and the spans during which they are free. */
  datatype Attendee = Attendee(name: string, spans: seq<TimeSpan>)

  /** An attendee is available for a span iff one of their spans covers it. */
  predicate IsAvailable(p: Attendee, span: TimeSpan) {
    exists k :: 0 <= k < |p.spans| && Contains(p.spans[k], span)
  }

  /** A candidate (or merged) time block with the names of who can and cannot attend. */
  datatype Block = Block(time: TimeSpan, available: set<string>, notAvailable: set<string>)

  function NumAvailable(b: Block): nat {
    |b.available|
  }

  function NumInvited(b: Block): nat {
    |b.available| + |b.notAvailable|
  }

  /** The length of a block in hours. */
  function Duration(b: Block): real {
    b.time.end - b.time.start
  }

  /** A fresh block for `span` that nobody has been offered yet. */
  function Candidate(span: TimeSpan): (b: Block)
    ensures b.time == span && NumInvited(b) == 0
  {
    Block(span, {}, {})
  }

  /** Offers the block to one attendee: the name joins exactly the side that matches. */
  function AddAttendee(b: Block, p: Attendee): (r: Block)
    ensures r.time == b.time
    ensures IsAvailable(p, b.time) ==> r.available == b.available + {p.name} && r.notAvailable == b.notAvailable
    ensures !IsAvailable(p, b.time) ==> r.notAvailable == b.notAvailable + {p.name} && r.available == b.available
  {
    if IsAvailable(p, b.time) then b.(available := b.available + {p.name})
    else b.(notAvailable := b.notAvailable + {p.name})
  }

  predicate SameAvailability(a: Block, b: Block) {
    a.available == b.available && a.notAvailable == b.notAvailable
  }

  /** Two blocks may be combined when they touch on the same day and agree on who is free. */
  predicate CanCombine(a: Block, b: Block) {
    && a.time.day == b.time.day
    && (a.time.end == b.time.start || a.time.start == b.time.end)
    && SameAvailability(a, b)
  }

  function Min(x: real, y: real): real {
    if x <= y then x else y
  }

  function Max(x: real, y: real): real {
    if x <= y then y else x
  }

  /** The smallest span on a's day covering both blocks, with a's availability. */
  function Combine(a: Block, b: Block): (r: Block)
    ensures r.time.day == a.time.day && SameAvailability(r, a)
    ensures r.time.start <= a.time.start && r.time.start <= b.time.start
    ensures r.time.start == a.time.start || r.time.start == b.time.start
    ensures r.time.end >= a.time.end && r.time.end >= b.time.end
    ensures r.time.end == a.time.end || r.time.end == b.time.end
    ensures a.time.day == b.time.day ==> Contains(r.time, a.time) && Contains(r.time, b.time)
  {
    Block(TimeSpan(a.time.day, Min(a.time.start, b.time.start), Max(a.time.end, b.time.end)),
          a.available, a.notAvailable)
  }

  /** Availability for a span carries over to every span inside it. */
  lemma AvailableWithin(p: Attendee, outer: TimeSpan, inner: TimeSpan)
    requires IsAvailable(p, outer) && Contains(outer, inner)
    ensures IsAvailable(p, inner)
  {
    var k :| 0 <= k < |p.spans| && Contains(p.spans[k], outer);
    assert Contains(p.spans[k], inner);
  }

  /** The combine rule reads both orders alike. */
  lemma CanCombineSymmetric(a: Block, b: Block)
    ensures CanCombine(a, b) <==> CanCombine(b, a)
  {
  }

  /**
   * The same-day test matters: a run from Monday 08:15 to 17:00 and the
   * Tuesday 08:00-08:15 block touch start-to-end and agree on availability,
   * yet they must not combine.
   */
  lemma DayTestMatters()
    ensures var run := Block(TimeSpan(Monday, 8.25, 17.0), {}, {"A"});
            var next := Block(TimeSpan(Tuesday, 8.0, 8.25), {}, {"A"});
            run.time.start == next.time.end && SameAvailability(run, next) && !CanCombine(run, next)
  {
  }
}
