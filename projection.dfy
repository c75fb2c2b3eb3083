// next_weekday_after_date of find_time/to_ics.py:15-17: the first date on or
// after a given date that falls on a given weekday.
//
// A datetime is its proleptic Gregorian day number (Python's toordinal(),
// where day 1 is Monday 0001-01-01) with its time of day, which adding a
// timedelta of whole days carries over unchanged.
module Projection {

  datatype DateTime = DateTime(ordinal: int, clock: nat)

  /** date.isoweekday(): Monday = 1 ... Sunday = 7. */
  function IsoWeekday(d: DateTime): (w: int)
    ensures 1 <= w <= 7
  {
    (d.ordinal - 1) % 7 + 1
  }

  /** date + timedelta(days). */
  function AddDays(d: DateTime, days: int): (r: DateTime)
    ensures r.ordinal - d.ordinal == days && r.clock == d.clock
  {
    DateTime(d.ordinal + days, d.clock)
  }

  /** (weekday - date.isoweekday()) % 7; Python's % is floored, which for the divisor 7 agrees with Dafny's. */
  function Offset(weekday: int, date: DateTime): (n: int)
    ensures 0 <= n < 7
  {
    (weekday - IsoWeekday(date)) % 7
  }

  /** The result is on the given date or up to six days later, at the same time of day. */
  function NextWeekdayAfterDate(weekday: int, date: DateTime): (r: DateTime)
    ensures date.ordinal <= r.ordinal < date.ordinal + 7
    ensures r.clock == date.clock
  {
    AddDays(date, Offset(weekday, date))
  }

  /** Moving forward n days advances the ISO weekday by n, modulo 7. */
  lemma IsoWeekdayShift(d: DateTime, n: int)
    ensures (IsoWeekday(AddDays(d, n)) - IsoWeekday(d) - n) % 7 == 0
  {
    var a := d.ordinal - 1;
    assert a == 7 * (a / 7) + a % 7;
    assert a + n == 7 * ((a + n) / 7) + (a + n) % 7;
    var diff := (a + n) % 7 - a % 7 - n;
    assert diff == 7 * (a / 7 - (a + n) / 7);
  }

  /** The result falls on the requested weekday, counted modulo 7 (so 0 and 7 both mean Sunday). */
  lemma LandsOnWeekday(weekday: int, date: DateTime)
    ensures IsoWeekday(NextWeekdayAfterDate(weekday, date)) % 7 == weekday % 7
  {
    var n := Offset(weekday, date);
    var w := IsoWeekday(date);
    IsoWeekdayShift(date, n);
    var w2 := IsoWeekday(NextWeekdayAfterDate(weekday, date));
    assert (weekday - w) == 7 * ((weekday - w) / 7) + n;
    ModEqual(w2, weekday, (w2 - w - n) / 7 - (weekday - w) / 7);
  }

  /** Numbers that differ by a multiple of 7 leave the same remainder. */
  lemma ModEqual(x: int, y: int, q: int)
    requires x - y == 7 * q
    ensures x % 7 == y % 7
  {
    assert x == 7 * (y / 7 + q) + y % 7;
  }

  /** Weekday 0 (Sunday's enum value) lands on ISO weekday 7. */
  lemma SundayIsSeven(date: DateTime)
    ensures IsoWeekday(NextWeekdayAfterDate(0, date)) == 7
  {
    LandsOnWeekday(0, date);
  }

  /** No earlier date in the window falls on the weekday: the result is the first one. */
  lemma FirstSuchDate(weekday: int, date: DateTime, n: int)
    requires 0 <= n < Offset(weekday, date)
    ensures IsoWeekday(AddDays(date, n)) % 7 != weekday % 7
  {
    IsoWeekdayShift(date, n);
  }

  /** A date already on the weekday is its own answer. */
  lemma AlreadyOnWeekday(weekday: int, date: DateTime)
    requires IsoWeekday(date) % 7 == weekday % 7
    ensures NextWeekdayAfterDate(weekday, date) == date
  {
    ModEqual(weekday - IsoWeekday(date), 0, (weekday - IsoWeekday(date)) / 7);
  }

  /** Projecting a projected date again changes nothing. */
  lemma ProjectionIdempotent(weekday: int, date: DateTime)
    ensures NextWeekdayAfterDate(weekday, NextWeekdayAfterDate(weekday, date)) == NextWeekdayAfterDate(weekday, date)
  {
    LandsOnWeekday(weekday, date);
    AlreadyOnWeekday(weekday, NextWeekdayAfterDate(weekday, date));
  }
}
