/** Wall-clock instants and the weekly "next run" rule that both digest
    schedulers use. A naive datetime is a proleptic Gregorian day number
    (day 1 is 0001-01-01, a Monday) plus a time of day; naive datetimes
    carry no time zone, so there is no daylight-saving jump to model. */
module Schedule {
  import opened Wrappers

  datatype DateTime = DateTime(day: int, hour: int, minute: int, second: int, microsecond: int)
  {
    /** The field ranges every datetime value keeps. */
    predicate Valid() {
      0 <= hour < 24 && 0 <= minute < 60 && 0 <= second < 60 && 0 <= microsecond < 1000000
    }
  }

  const MicrosPerDay: int := 86400000000

  /** Microseconds since midnight. */
  function TimeOfDay(t: DateTime): (r: int)
    requires t.Valid()
    ensures 0 <= r < MicrosPerDay
  {
    ((t.hour * 60 + t.minute) * 60 + t.second) * 1000000 + t.microsecond
  }

  /** A single number per instant: comparing instants is comparing these. */
  function Micros(t: DateTime): int
    requires t.Valid()
  {
    t.day * MicrosPerDay + TimeOfDay(t)
  }

  /** `date.weekday()`: 0 is Monday, 6 is Sunday. */
  function Weekday(day: int): (r: int)
    ensures 0 <= r < 7
  {
    (day + 6) % 7
  }

  predicate IsLeap(year: int) {
    year % 4 == 0 && (year % 100 != 0 || year % 400 == 0)
  }

  function DaysInMonth(year: int, month: int): (r: int)
    requires 1 <= month <= 12
    ensures 28 <= r <= 31
  {
    if month == 2 then (if IsLeap(year) then 29 else 28)
    else if month in {4, 6, 9, 11} then 30
    else 31
  }

  function DaysBeforeMonth(year: int, month: int): int
    requires 1 <= month <= 12
    decreases month
  {
    if month == 1 then 0 else DaysBeforeMonth(year, month - 1) + DaysInMonth(year, month - 1)
  }

  /** `date(year, month, day).toordinal()`. */
  function Ordinal(year: int, month: int, day: int): int
    requires 1 <= month <= 12
  {
    var y := year - 1;
    y * 365 + y / 4 - y / 100 + y / 400 + DaysBeforeMonth(year, month) + day
  }

  /** Python's tuple comparison `(a1, b1) >= (a2, b2)`. */
  predicate PairAtLeast(a1: int, b1: int, a2: int, b2: int) {
    a1 > a2 || (a1 == a2 && b1 >= b2)
  }

  /** The configured slot: a weekday (0 = Monday) and a time of day. */
  datatype WeeklySlot = WeeklySlot(weekday: int, hour: int, minute: int)
  {
    /** Hour and minute that `datetime.replace` accepts. */
    predicate Replaceable() {
      0 <= hour < 24 && 0 <= minute < 60
    }
    /** A slot that names a real weekday. */
    predicate Valid() {
      0 <= weekday < 7 && Replaceable()
    }
  }

  /** Days to add: the weekday difference, or a week when the slot is today
      and its minute has been reached, or the difference plus a week when the
      weekday has already passed. */
  function DaysAhead(now: DateTime, slot: WeeklySlot): (r: int)
    ensures slot.weekday - Weekday(now.day) <= r
    ensures 0 <= slot.weekday < 7 ==> 0 <= r <= 7
  {
    var ahead := slot.weekday - Weekday(now.day);
    if ahead == 0 && PairAtLeast(now.hour, now.minute, slot.hour, slot.minute) then 7
    else if ahead < 0 then ahead + 7
    else ahead
  }

  /** `_calculate_next_run`: `now` moved ahead by whole days, then its
      hour and minute replaced by the slot's and its seconds and
      microseconds cleared. `None` stands for the `ValueError` that
      `replace` raises on an hour or minute out of range. */
  function NextRun(now: DateTime, slot: WeeklySlot): (r: Option<DateTime>)
    ensures r.Some? <==> slot.Replaceable()
    ensures r.Some? ==>
      && r.value.Valid() && r.value.day == now.day + DaysAhead(now, slot)
      && r.value.hour == slot.hour && r.value.minute == slot.minute
      && r.value.second == 0 && r.value.microsecond == 0
  {
    if !slot.Replaceable() then None
    else Some(DateTime(now.day + DaysAhead(now, slot), slot.hour, slot.minute, 0, 0))
  }

  /** An instant that is exactly the slot: its weekday, hour and minute,
      with zero seconds and microseconds. */
  predicate OnSlot(t: DateTime, slot: WeeklySlot) {
    t.Valid() && Weekday(t.day) == slot.weekday && t.hour == slot.hour
    && t.minute == slot.minute && t.second == 0 && t.microsecond == 0
  }

  /** Two days with the same weekday lie a whole number of weeks apart. */
  lemma SameWeekday(a: int, b: int)
    requires Weekday(a) == Weekday(b) && a < b
    ensures a + 7 <= b
  {
    var qa, qb := (a + 6) / 7, (b + 6) / 7;
    assert a + 6 == 7 * qa + Weekday(a);
    assert b + 6 == 7 * qb + Weekday(b);
    assert b - a == 7 * (qb - qa);
  }

  /** Adding the weekday difference lands on the slot's weekday. */
  lemma LandsOnWeekday(now: DateTime, slot: WeeklySlot)
    requires 0 <= slot.weekday < 7
    ensures Weekday(now.day + DaysAhead(now, slot)) == slot.weekday
  {
    var w := Weekday(now.day);
    var q := (now.day + 6) / 7;
    assert now.day + 6 == 7 * q + w;
    var d := now.day + DaysAhead(now, slot);
    var ahead := slot.weekday - w;
    if ahead == 0 && PairAtLeast(now.hour, now.minute, slot.hour, slot.minute) {
      assert d + 6 == 7 * (q + 1) + slot.weekday;
    } else if ahead < 0 {
      assert d + 6 == 7 * (q + 1) + slot.weekday;
    } else {
      assert d + 6 == 7 * q + slot.weekday;
    }
  }

  /** For a valid slot the next run is the earliest instant on the slot
      strictly after `now`: it is on the slot, later than `now`, at most a
      week later, and no other slot instant falls in between. */
  lemma NextRunIsEarliestSlot(now: DateTime, slot: WeeklySlot)
    requires now.Valid() && slot.Valid()
    ensures NextRun(now, slot).Some?
    ensures OnSlot(NextRun(now, slot).value, slot)
    ensures Micros(now) < Micros(NextRun(now, slot).value) <= Micros(now) + 7 * MicrosPerDay
    ensures forall t :: OnSlot(t, slot) && Micros(now) < Micros(t) ==>
      Micros(NextRun(now, slot).value) <= Micros(t)
  {
    var r := NextRun(now, slot).value;
    LandsOnWeekday(now, slot);
    var k := DaysAhead(now, slot);
    assert r.day == now.day + k;
    assert Micros(now) < Micros(r) by {
      if k == 0 {
        assert !PairAtLeast(now.hour, now.minute, slot.hour, slot.minute);
        assert TimeOfDay(now) < TimeOfDay(r);
      }
    }
    forall t | OnSlot(t, slot) && Micros(now) < Micros(t)
      ensures Micros(r) <= Micros(t)
    {
      if t.day < r.day {
        SameWeekday(t.day, r.day);
        assert false;
      }
      assert TimeOfDay(r) == TimeOfDay(t);
    }
  }

  /** Reaching the slot's minute on the slot's weekday, or any later minute
      of that day, moves the run to the same weekday of the next week. */
  lemma SlotMinuteReachedMeansNextWeek(now: DateTime, slot: WeeklySlot)
    requires now.Valid() && slot.Valid() && Weekday(now.day) == slot.weekday
    requires PairAtLeast(now.hour, now.minute, slot.hour, slot.minute)
    ensures NextRun(now, slot).Some? && NextRun(now, slot).value.day == now.day + 7
  {
  }

  /** A Sunday 20:00 slot seen from Wednesday 2026-02-11 10:00 is
      2026-02-15 20:00:00; seen from Monday 2026-02-16 10:00 it is
      2026-02-22 20:00:00. */
  lemma NewsletterExamples()
    ensures NextRun(DateTime(Ordinal(2026, 2, 11), 10, 0, 0, 0), WeeklySlot(6, 20, 0))
      == Some(DateTime(Ordinal(2026, 2, 15), 20, 0, 0, 0))
    ensures NextRun(DateTime(Ordinal(2026, 2, 16), 10, 0, 0, 0), WeeklySlot(6, 20, 0))
      == Some(DateTime(Ordinal(2026, 2, 22), 20, 0, 0, 0))
  {
    assert Ordinal(2026, 2, 11) == 739658;
    assert Ordinal(2026, 2, 15) == 739662;
    assert Ordinal(2026, 2, 16) == 739663;
    assert Ordinal(2026, 2, 22) == 739669;
  }

  /** A Sunday 21:00 slot seen from Sunday 2026-02-15 19:00 is the same day;
      seen from 22:00 that day it is Sunday 2026-02-22. */
  lemma BlogExamples()
    ensures NextRun(DateTime(Ordinal(2026, 2, 15), 19, 0, 0, 0), WeeklySlot(6, 21, 0))
      == Some(DateTime(Ordinal(2026, 2, 15), 21, 0, 0, 0))
    ensures NextRun(DateTime(Ordinal(2026, 2, 15), 22, 0, 0, 0), WeeklySlot(6, 21, 0))
      == Some(DateTime(Ordinal(2026, 2, 22), 21, 0, 0, 0))
  {
    assert Ordinal(2026, 2, 15) == 739662;
    assert Ordinal(2026, 2, 22) == 739669;
  }
}
