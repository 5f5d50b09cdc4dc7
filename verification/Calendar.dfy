/**
 * The arithmetic calendar: a closed form from a day count to a date, against
 * the calendar counted a day at a time by the Gregorian leap rules.
 */
module Calendar {
  import opened Words

  // ----- The calendar as the leap rules define it -----

  datatype Date = Date(year: int, month: int, day: int)

  const EPOCH := Date(1970, 1, 1)

  predicate Leap(year: int) {
    (year % 4 == 0 && year % 100 != 0) || year % 400 == 0
  }

  function MonthLength(year: int, month: int): int {
    if month == 2 then (if Leap(year) then 29 else 28)
    else if month == 4 || month == 6 || month == 9 || month == 11 then 30
    else 31
  }

  predicate ValidDate(date: Date) {
    && 1970 <= date.year
    && 1 <= date.month <= 12
    && 1 <= date.day <= MonthLength(date.year, date.month)
  }

  function NextDay(date: Date): Date {
    if date.day < MonthLength(date.year, date.month) then Date(date.year, date.month, date.day + 1)
    else if date.month < 12 then Date(date.year, date.month + 1, 1)
    else Date(date.year + 1, 1, 1)
  }

  /** The date reached from the epoch by `days` steps of one day. */
  function Walk(days: nat): Date {
    if days == 0 then EPOCH else NextDay(Walk(days - 1))
  }

  // ----- The closed form -----

  /** Days from 0000-03-01 to the epoch. */
  const EPOCH_SHIFT: u64 := 719_468

  /** The largest day count whose shift stays in a word. */
  const LAST_DAY: u64 := 0xFFFF_FFFF_FFFF_FFFF - EPOCH_SHIFT

  function CivilFromDays(days: u64): Date
    requires days <= LAST_DAY
  {
    var z := days + EPOCH_SHIFT;
    var era := z / 146_097;
    var doe := z - era * 146_097;
    var (yoe, doy) := YearAndDay(doe);
    DateInEra(era, yoe, doy)
  }

  /** The March year of a day of an era, and the day of that year. */
  function YearAndDay(doe: u64): (r: (u64, u64))
    requires doe < 146_097
    ensures r.0 as int == YearOfEra(doe as int) <= 399
    ensures r.1 as int == doe as int - YearStartInEra(YearOfEra(doe as int)) <= 365
  {
    InEra(doe as int);
    var yoe := (doe - doe / 1_460 + doe / 36_524 - doe / 146_096) / 365;
    var doy := doe - (365 * yoe + yoe / 4 - yoe / 100);
    (yoe, doy)
  }

  /** The date on day `doy` of a March year: the months from March on, by the fifth of 153 days. */
  function DateInEra(era: u64, yoe: u64, doy: u64): Date
    requires era <= 0xFFFF_FFFF_FFFF_FFFF / 146_097 && yoe <= 399 && doy <= 365
  {
    var mp := (5 * doy + 2) / 153;
    var day := doy - (153 * mp + 2) / 5 + 1;
    var month := if mp < 10 then mp + 3 else mp - 9;
    var year := yoe + era * 400 + (if month <= 2 then 1 else 0);
    Date(year as int, month as int, day as int)
  }

  /** Every step of the closed form stays in its small range, so no subtraction goes below zero. */
  lemma InEra(doe: int)
    requires 0 <= doe < 146_097
    ensures doe / 1_460 <= doe && doe / 146_096 <= doe / 36_524 <= 4
    ensures 0 <= YearOfEra(doe) <= 399
    ensures 0 <= doe - YearStartInEra(YearOfEra(doe)) <= 365
  {
    var c, q, y, d := EveryDayIsCut(doe);
    YearOfCut(doe, c, q, y, d);
  }

  // ----- March years: the leap day falls at the end of each -----

  function YearOfEra(doe: int): int {
    (doe - doe / 1_460 + doe / 36_524 - doe / 146_096) / 365
  }

  /** Days of an era before its March year `yoe`. */
  function YearStartInEra(yoe: int): int {
    365 * yoe + yoe / 4 - yoe / 100
  }

  /** The length of the March year that starts in year `march` and ends in February of the next. */
  function MarchYearLength(march: int): int {
    if Leap(march + 1) then 366 else 365
  }

  /** The date `doy` days after the first of March of year `march`. */
  function MarchDate(march: int, doy: int): Date {
    var mp := (5 * doy + 2) / 153;
    Date(
      march + (if mp < 10 then 0 else 1),
      if mp < 10 then mp + 3 else mp - 9,
      doy - (153 * mp + 2) / 5 + 1)
  }

  /** The next March day is the next day, through every month end. */
  lemma MarchDateSteps(march: int, doy: int)
    requires 0 <= doy < MarchYearLength(march)
    ensures doy + 1 < MarchYearLength(march) ==> NextDay(MarchDate(march, doy)) == MarchDate(march, doy + 1)
    ensures doy + 1 == MarchYearLength(march) ==> NextDay(MarchDate(march, doy)) == MarchDate(march + 1, 0)
  {
    var mp := (5 * doy + 2) / 153;
    assert mp == 0 || mp == 1 || mp == 2 || mp == 3 || mp == 4 || mp == 5
        || mp == 6 || mp == 7 || mp == 8 || mp == 9 || mp == 10 || mp == 11;
    if doy + 1 < MarchYearLength(march) {
      var next := (5 * (doy + 1) + 2) / 153;
      assert next == mp || next == mp + 1;
    }
  }

  /**
   * A day of an era, cut into whole centuries, four-year cycles and years:
   * only the last of each kind is a day longer.
   */
  function CutLength(c: int, q: int, y: int): int {
    if y == 3 && (q < 24 || c == 3) then 366 else 365
  }

  predicate Cut(doe: int, c: int, q: int, y: int, d: int) {
    && 0 <= c <= 3 && 0 <= q <= 24 && 0 <= y <= 3 && 0 <= d < CutLength(c, q, y)
    && doe == 36_524 * c + 1_461 * q + 365 * y + d
  }

  lemma EveryDayIsCut(doe: int) returns (c: int, q: int, y: int, d: int)
    requires 0 <= doe < 146_097
    ensures Cut(doe, c, q, y, d) && 0 <= d < CutLength(c, q, y) && 0 <= c <= 3 && 0 <= q <= 24 && 0 <= y <= 3
  {
    c := if doe / 36_524 < 4 then doe / 36_524 else 3;
    var inCentury := doe - 36_524 * c;
    q := inCentury / 1_461;
    var inCycle := inCentury - 1_461 * q;
    y := if inCycle / 365 < 4 then inCycle / 365 else 3;
    d := inCycle - 365 * y;
  }

  lemma QuotientIs(dividend: int, divisor: int, quotient: int)
    requires divisor > 0
    requires divisor * quotient <= dividend < divisor * quotient + divisor
    ensures dividend / divisor == quotient
  {
    var actual := dividend / divisor;
    assert dividend == divisor * actual + dividend % divisor;
    if actual < quotient {
      Product(divisor, actual, quotient - 1);
    } else if actual > quotient {
      Product(divisor, quotient + 1, actual);
    }
  }

  lemma Product(factor: int, a: int, b: int)
    requires factor > 0 && a <= b
    ensures factor * a <= factor * b
  {
  }

  /** Whether one more than `divisor * quotient + before` is a multiple of the divisor. */
  lemma RemainderIs(dividend: int, divisor: int, quotient: int, before: int)
    requires 0 <= before < divisor && dividend == divisor * quotient + before + 1
    ensures dividend % divisor == 0 <==> before == divisor - 1
  {
    if before < divisor - 1 {
      QuotientIs(dividend, divisor, quotient);
    } else {
      QuotientIs(dividend, divisor, quotient + 1);
    }
  }

  /** The closed form's year of the era is the one the cut names. */
  lemma YearOfCut(doe: int, c: int, q: int, y: int, d: int)
    requires Cut(doe, c, q, y, d)
    ensures YearOfEra(doe) == 100 * c + 4 * q + y
    ensures YearStartInEra(100 * c + 4 * q + y) == doe - d
  {
    var carry := if 24 * c + q + 365 * y + d < 1_460 then 0 else 1;
    var last := if doe == 146_096 then 1 else 0;
    QuotientIs(doe, 1_460, 25 * c + q + carry);
    QuotientIs(doe, 36_524, c + last);
    QuotientIs(doe, 146_096, last);
    QuotientIs(36_500 * c + 1_460 * q + 365 * y + d - carry, 365, 100 * c + 4 * q + y);
    QuotientIs(100 * c + 4 * q + y, 4, 25 * c + q);
    QuotientIs(100 * c + 4 * q + y, 100, c);
  }

  lemma LengthOfCut(era: int, c: int, q: int, y: int)
    requires 0 <= c <= 3 && 0 <= q <= 24 && 0 <= y <= 3
    ensures MarchYearLength(400 * era + 100 * c + 4 * q + y) == CutLength(c, q, y)
  {
    var next := 400 * era + 100 * c + 4 * q + y + 1;
    RemainderIs(next, 4, 100 * era + 25 * c + q, y);
    RemainderIs(next, 100, 4 * era + c, 4 * q + y);
    RemainderIs(next, 400, era, 100 * c + 4 * q + y);
  }

  lemma CivilByParts(days: u64, era: int, doe: int)
    requires days <= LAST_DAY
    requires days as int + 719_468 == 146_097 * era + doe && 0 <= doe < 146_097
    ensures CivilFromDays(days)
         == MarchDate(400 * era + YearOfEra(doe), doe - YearStartInEra(YearOfEra(doe)))
  {
    hide YearOfEra, YearStartInEra, DateInEra, MarchDate, YearAndDay;
    InEra(doe);
    var z := days + EPOCH_SHIFT;
    QuotientIs(z as int, 146_097, era);
    var rest := z - (z / 146_097) * 146_097;
    assert (z / 146_097) as int == era && rest as int == doe;
    DateIsMarchDate(z / 146_097, YearAndDay(rest).0, YearAndDay(rest).1);
  }

  lemma DateIsMarchDate(era: u64, yoe: u64, doy: u64)
    requires era <= 0xFFFF_FFFF_FFFF_FFFF / 146_097 && yoe <= 399 && doy <= 365
    ensures DateInEra(era, yoe, doy) == MarchDate(400 * (era as int) + yoe as int, doy as int)
  {
  }

  /** The closed form names the day its cut names. */
  lemma CivilOfCut(days: u64, era: int, doe: int, c: int, q: int, y: int, d: int)
    requires days <= LAST_DAY
    requires days as int + 719_468 == 146_097 * era + doe
    requires Cut(doe, c, q, y, d)
    ensures CivilFromDays(days) == MarchDate(400 * era + 100 * c + 4 * q + y, d)
    ensures d < MarchYearLength(400 * era + 100 * c + 4 * q + y)
  {
    CutIsInEra(doe, c, q, y, d);
    hide *;
    YearOfCut(doe, c, q, y, d);
    LengthOfCut(era, c, q, y);
    CivilByParts(days, era, doe);
    assert 400 * era + YearOfEra(doe) == 400 * era + 100 * c + 4 * q + y;
    assert doe - YearStartInEra(YearOfEra(doe)) == d;
  }

  lemma CutIsInEra(doe: int, c: int, q: int, y: int, d: int)
    requires Cut(doe, c, q, y, d)
    ensures 0 <= doe < 146_097 && 0 <= c <= 3 && 0 <= q <= 24 && 0 <= y <= 3 && d < CutLength(c, q, y)
  {
  }

  /** The day after a cut day is cut too: in the same year, or first in the next year, cycle, century or era. */
  lemma NextCut(era: int, doe: int, c: int, q: int, y: int, d: int)
      returns (era': int, doe': int, c': int, q': int, y': int, d': int)
    requires Cut(doe, c, q, y, d)
    ensures Cut(doe', c', q', y', d')
    ensures 146_097 * era' + doe' == 146_097 * era + doe + 1
    ensures d + 1 < CutLength(c, q, y) ==>
      400 * era' + 100 * c' + 4 * q' + y' == 400 * era + 100 * c + 4 * q + y && d' == d + 1
    ensures d + 1 == CutLength(c, q, y) ==>
      400 * era' + 100 * c' + 4 * q' + y' == 400 * era + 100 * c + 4 * q + y + 1 && d' == 0
  {
    era', doe' := era, doe + 1;
    if d + 1 < CutLength(c, q, y) {
      c', q', y', d' := c, q, y, d + 1;
    } else if y < 3 {
      c', q', y', d' := c, q, y + 1, 0;
    } else if q < 24 {
      c', q', y', d' := c, q + 1, 0, 0;
    } else if c < 3 {
      c', q', y', d' := c + 1, 0, 0, 0;
    } else {
      era', doe', c', q', y', d' := era + 1, 0, 0, 0, 0, 0;
    }
  }

  /** One more day in the closed form is one step of the calendar. */
  lemma ClosedFormSteps(days: u64)
    requires days < LAST_DAY
    ensures CivilFromDays(days + 1) == NextDay(CivilFromDays(days))
  {
    hide CivilFromDays, MarchDate, NextDay, Cut, CutLength, MarchYearLength;
    var z := days as int + 719_468;
    var era, doe := z / 146_097, z % 146_097;
    var c, q, y, d := EveryDayIsCut(doe);
    var era', doe', c', q', y', d' := NextCut(era, doe, c, q, y, d);
    CivilOfCut(days, era, doe, c, q, y, d);
    CivilOfCut(days + 1, era', doe', c', q', y', d');
    LengthOfCut(era, c, q, y);
    MarchDateSteps(400 * era + 100 * c + 4 * q + y, d);
  }

  lemma EpochIsDayZero()
    ensures CivilFromDays(0) == EPOCH
  {
  }

  /** The closed form is the calendar, on every day count whose shift fits the word. */
  lemma {:induction false} ClosedFormIsTheWalk(days: u64)
    requires days <= LAST_DAY
    ensures CivilFromDays(days) == Walk(days as int)
    decreases days as int
  {
    hide CivilFromDays, NextDay;
    EpochIsDayZero();
    if days > 0 {
      ClosedFormIsTheWalk(days - 1);
      ClosedFormSteps(days - 1);
    }
  }

  // ----- Counting the days back -----

  /** Days from the epoch to the first of January. */
  function YearStart(year: int): int
    decreases year - 1970
  {
    if year <= 1970 then 0 else YearStart(year - 1) + (if Leap(year - 1) then 366 else 365)
  }

  /** Days from the first of January to the first of the month. */
  function MonthStart(year: int, month: int): int
    decreases month
  {
    if month <= 1 then 0 else MonthStart(year, month - 1) + MonthLength(year, month - 1)
  }

  function DayNumber(date: Date): int {
    YearStart(date.year) + MonthStart(date.year, date.month) + date.day - 1
  }

  lemma MonthStarts(year: int)
    ensures MonthStart(year, 2) == 31
    ensures var f := MonthLength(year, 2);
      && MonthStart(year, 3) == 31 + f && MonthStart(year, 4) == 62 + f && MonthStart(year, 5) == 92 + f
      && MonthStart(year, 6) == 123 + f && MonthStart(year, 7) == 153 + f && MonthStart(year, 8) == 184 + f
      && MonthStart(year, 9) == 215 + f && MonthStart(year, 10) == 245 + f && MonthStart(year, 11) == 276 + f
      && MonthStart(year, 12) == 306 + f
  {
    assert MonthStart(year, 1) == 0;
    assert MonthStart(year, 4) == 62 + MonthLength(year, 2);
    assert MonthStart(year, 7) == 153 + MonthLength(year, 2);
    assert MonthStart(year, 10) == 245 + MonthLength(year, 2);
  }

  lemma NextDayCounts(date: Date)
    requires ValidDate(date)
    ensures ValidDate(NextDay(date)) && DayNumber(NextDay(date)) == DayNumber(date) + 1
  {
    MonthStarts(date.year);
    MonthStarts(date.year + 1);
    assert MonthStart(date.year + 1, 1) == 0;
  }

  /** The `n`-th day of the calendar is a date whose day number is `n`. */
  lemma {:induction false} WalkCounts(n: nat)
    ensures ValidDate(Walk(n)) && DayNumber(Walk(n)) == n
  {
    if n > 0 {
      WalkCounts(n - 1);
      NextDayCounts(Walk(n - 1));
    } else {
      assert MonthStart(1970, 1) == 0 && YearStart(1970) == 0;
    }
  }

  lemma DayBefore(date: Date) returns (before: Date)
    requires ValidDate(date) && date != EPOCH
    ensures ValidDate(before) && NextDay(before) == date
    ensures before.year < date.year
         || (before.year == date.year && before.month < date.month)
         || (before.year == date.year && before.month == date.month && before.day == date.day - 1 >= 0)
  {
    before :=
      if date.day > 1 then Date(date.year, date.month, date.day - 1)
      else if date.month > 1 then Date(date.year, date.month - 1, MonthLength(date.year, date.month - 1))
      else Date(date.year - 1, 12, 31);
  }

  /** Every date from 1970 on is reached by the walk. */
  lemma {:induction false} WalkReaches(date: Date)
    requires ValidDate(date)
    ensures DayNumber(date) >= 0 && Walk(DayNumber(date)) == date
    decreases date.year, date.month, date.day
  {
    if date != EPOCH {
      var before := DayBefore(date);
      hide ValidDate, NextDay, DayNumber;
      WalkReaches(before);
      NextDayCounts(before);
    } else {
      assert MonthStart(1970, 1) == 0 && YearStart(1970) == 0;
    }
  }

  predicate EarlierDate(a: Date, b: Date) {
    || a.year < b.year
    || (a.year == b.year && a.month < b.month)
    || (a.year == b.year && a.month == b.month && a.day < b.day)
  }

  /** Walking on never goes back. */
  lemma {:induction false} WalkIsOrdered(m: nat, n: nat)
    requires m < n
    ensures EarlierDate(Walk(m), Walk(n))
  {
    WalkCounts(n - 1);
    assert EarlierDate(Walk(n - 1), Walk(n));
    if m < n - 1 {
      WalkIsOrdered(m, n - 1);
    }
  }

  /** The closed form and the day number undo each other, on every date the word can reach. */
  lemma ClosedFormInvertsDayNumber(date: Date)
    requires ValidDate(date) && 0 <= DayNumber(date) <= LAST_DAY as int
    ensures CivilFromDays(DayNumber(date) as u64) == date
  {
    WalkReaches(date);
    ClosedFormIsTheWalk(DayNumber(date) as u64);
  }

  // ----- Whole timestamps -----

  datatype Timestamp = Timestamp(date: Date, hour: int, minute: int, second: int, millis: int)

  predicate ValidTimestamp(t: Timestamp) {
    && ValidDate(t.date)
    && 0 <= t.hour < 24 && 0 <= t.minute < 60 && 0 <= t.second < 60 && 0 <= t.millis < 1_000
  }

  /** The milliseconds of a timestamp since the epoch. */
  function Recompose(t: Timestamp): int {
    (((DayNumber(t.date) * 24 + t.hour) * 60 + t.minute) * 60 + t.second) * 1_000 + t.millis
  }

  /** The lexicographic order of the seven fields. */
  predicate Earlier(a: Timestamp, b: Timestamp) {
    || EarlierDate(a.date, b.date)
    || (a.date == b.date && a.hour < b.hour)
    || (a.date == b.date && a.hour == b.hour && a.minute < b.minute)
    || (a.date == b.date && a.hour == b.hour && a.minute == b.minute && a.second < b.second)
    || (a.date == b.date && a.hour == b.hour && a.minute == b.minute && a.second == b.second && a.millis < b.millis)
  }

  /** The fields name exactly one moment: they are valid, and they add up to the input. */
  method DecomposeEpochMs(epochMs: u64) returns (t: Timestamp)
    ensures ValidTimestamp(t)
    ensures Recompose(t) == epochMs as int
  {
    var remaining := epochMs;
    var ms := remaining % 1_000;
    remaining := remaining / 1_000;
    var sec := remaining % 60;
    remaining := remaining / 60;
    var min := remaining % 60;
    remaining := remaining / 60;
    var hour := remaining % 24;
    var date := CivilFromDays(remaining / 24);
    ClosedFormIsTheWalk(remaining / 24);
    WalkCounts((remaining / 24) as int);
    t := Timestamp(date, hour as int, min as int, sec as int, ms as int);
  }

  /** Comparing the seven fields left to right compares the moments, so no two moments share their fields. */
  lemma FieldsKeepTheOrder(a: Timestamp, b: Timestamp)
    requires ValidTimestamp(a) && ValidTimestamp(b)
    ensures Recompose(a) < Recompose(b) <==> Earlier(a, b)
    ensures Recompose(a) == Recompose(b) <==> a == b
  {
    WalkReaches(a.date);
    WalkReaches(b.date);
    var m, n := DayNumber(a.date), DayNumber(b.date);
    if m < n {
      WalkIsOrdered(m, n);
      assert Recompose(a) < Recompose(b);
    } else if n < m {
      WalkIsOrdered(n, m);
      assert Recompose(b) < Recompose(a);
    } else {
      assert a.date == b.date;
    }
  }
}
