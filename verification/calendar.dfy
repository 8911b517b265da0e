/**
 * Calendar arithmetic on UTC timestamps in seconds since 1970-01-01, as
 * pandas computes `Timestamp.weekday()` and `Timestamp.week` (the ISO 8601
 * week number) in the proleptic Gregorian calendar.
 */
module Calendar {
  const SecondsPerDay: int := 86400

  /** Whole days since the epoch; floor division, so times before 1970 round down. */
  function Days(t: int): int
  {
    t / SecondsPerDay
  }

  /** `weekday()`: Monday is 0 and Sunday 6; 1970-01-01 was a Thursday. */
  function Weekday(t: int): (wd: int)
    ensures 0 <= wd < 7
  {
    (Days(t) + 3) % 7
  }

  /** Moving back by whole days moves the weekday back by as many, modulo 7. */
  lemma WeekdayBack(t: int, n: int)
    ensures Weekday(t - n * SecondsPerDay) == (Weekday(t) - n) % 7
  {
    assert Days(t - n * SecondsPerDay) == Days(t) - n;
  }

  /** Day number of January 1st of year `y` (days since 1970-01-01). */
  function JanFirst(y: int): int
  {
    var p := y - 1;
    365 * p + p / 4 - p / 100 + p / 400 - 719162
  }

  /** The Gregorian year holding the day with number `z` (civil-from-days). */
  function CivilYear(z: int): int
  {
    var z1 := z + 719468;
    var era := z1 / 146097;
    var doe := z1 - era * 146097;
    var yoe := (doe - doe / 1460 + doe / 36524 - doe / 146096) / 365;
    var doy := doe - (365 * yoe + yoe / 4 - yoe / 100);
    var mp := (5 * doy + 2) / 153;
    var y := yoe + era * 400;
    if mp >= 10 then y + 1 else y
  }

  /**
   * `Timestamp.week`: the ISO week is the one holding that week's Thursday,
   * numbered from the week holding the Thursday's year's first Thursday.
   */
  function IsoWeek(t: int): int
  {
    var d := Days(t);
    var thursday := d - (d + 3) % 7 + 3;
    (thursday - JanFirst(CivilYear(thursday))) / 7 + 1
  }

  /** Weeks counted from Monday 1969-12-29, running on across year boundaries. */
  function WeekIndex(t: int): int
  {
    (Days(t) + 3) / 7
  }

  /** Timestamps in the same Monday-to-Sunday week share their week index, and later weeks have larger ones. */
  lemma WeekIndexMonotone(s: int, t: int)
    requires s <= t
    ensures WeekIndex(s) <= WeekIndex(t)
  {
  }

  /** 2023-12-02 (a Saturday) lies in ISO week 48. */
  lemma SaturdayDecember2nd2023()
    ensures Days(1701475200) == 19693
    ensures Weekday(1701475200) == 5 && IsoWeek(1701475200) == 48
  {
    assert CivilYear(19691) == 2023 by { CivilYearSteps(19691, 5, 8674, 23, 274, 8); }
    assert JanFirst(2023) == 19358;
  }

  /** 2024-01-01 (a Monday) lies in ISO week 1. */
  lemma MondayJanuary1st2024()
    ensures Days(1704067200) == 19723
    ensures Weekday(1704067200) == 0 && IsoWeek(1704067200) == 1
  {
    assert CivilYear(19726) == 2024 by { CivilYearSteps(19726, 5, 8709, 23, 309, 10); }
    assert JanFirst(2024) == 19723;
  }

  /** 2023-12-31 (a Sunday) lies in ISO week 52 of 2023. */
  lemma SundayDecember31st2023()
    ensures Weekday(1703980800) == 6 && IsoWeek(1703980800) == 52
  {
    assert CivilYear(19719) == 2023 by { CivilYearSteps(19719, 5, 8702, 23, 302, 9); }
    assert JanFirst(2023) == 19358;
  }

  /** 2024-04-21 was a Sunday and 2023-11-17 a Friday. */
  lemma SundayAndFriday()
    ensures Weekday(1713657600) == 6 && Weekday(1700179200) == 4
  {
    assert Days(1713657600) == 19834;
    assert Days(1700179200) == 19678;
  }

  /** Evaluates `CivilYear` one intermediate value at a time. */
  lemma CivilYearSteps(z: int, era: int, doe: int, yoe: int, doy: int, mp: int)
    requires era == (z + 719468) / 146097 && doe == z + 719468 - era * 146097
    requires yoe == (doe - doe / 1460 + doe / 36524 - doe / 146096) / 365
    requires doy == doe - (365 * yoe + yoe / 4 - yoe / 100) && mp == (5 * doy + 2) / 153
    ensures CivilYear(z) == if mp >= 10 then yoe + era * 400 + 1 else yoe + era * 400
  {
  }
}
