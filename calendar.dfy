/** Proleptic Gregorian calendar arithmetic on naive timestamps.

    A timestamp is a whole number of seconds since 1970-01-01 00:00:00, with no
    time zone: the calendar fields are those of the wall-clock reading. The date
    conversion counts days in 400-year eras of 146097 days whose years start on
    1 March, so that the leap day is the last day of its year. */
module Calendar {

  type Timestamp = int

  const SecondsPerDay: int := 86400
  const SecondsPerHour: int := 3600

  /** Days from 0000-03-01 to 1970-01-01. */
  const EpochShift: int := 719468

  datatype Civil = Civil(year: int, month: int, day: int)

  predicate IsLeapYear(y: int) {
    y % 4 == 0 && (y % 100 != 0 || y % 400 == 0)
  }

  function DaysInMonth(y: int, m: int): int {
    if m == 2 then (if IsLeapYear(y) then 29 else 28)
    else if m == 4 || m == 6 || m == 9 || m == 11 then 30
    else 31
  }

  predicate ValidDate(c: Civil) {
    1 <= c.month <= 12 && 1 <= c.day <= DaysInMonth(c.year, c.month)
  }

  /** The calendar's own successor: the date that follows `c`. */
  function NextDay(c: Civil): Civil {
    if c.day < DaysInMonth(c.year, c.month) then Civil(c.year, c.month, c.day + 1)
    else if c.month < 12 then Civil(c.year, c.month + 1, 1)
    else Civil(c.year + 1, 1, 1)
  }

  // ---------------------------------------------------------------------------
  // Years and months inside one era (years counted from 1 March)

  /** Day of the era on which year `yoe` of the era starts. */
  function YearStart(yoe: int): int { 365 * yoe + yoe / 4 - yoe / 100 }

  /** Length of year `yoe` of the era; year 399 ends on the era's 400-year leap day. */
  function YearLen(yoe: int): int {
    if yoe == 399 then 366 else YearStart(yoe + 1) - YearStart(yoe)
  }

  /** The year of the era that holds day `doe` of the era. */
  function YearOfEra(doe: int): int {
    (doe - doe / 1460 + doe / 36524 - doe / 146096) / 365
  }

  /** Day of the year on which month `mp` starts (0 = March, ..., 11 = February). */
  function MonthStart(mp: int): int { (153 * mp + 2) / 5 }

  /** The month (0 = March) that holds day `doy` of the year. */
  function MonthOfYear(doy: int): int { (5 * doy + 2) / 153 }

  function CivilMonth(mp: int): int { if mp < 10 then mp + 3 else mp - 9 }

  function ShiftedMonth(m: int): int { if m > 2 then m - 3 else m + 9 }

  // ---------------------------------------------------------------------------
  // The conversions

  /** The date of day `z`, counted from 1970-01-01 = day 0. */
  function CivilFromDays(z: int): Civil {
    DateInEra((z + EpochShift) / 146097, (z + EpochShift) % 146097)
  }

  /** The date of day `doe` of era `era` (era 0 starts on 0000-03-01). */
  function DateInEra(era: int, doe: int): Civil {
    var yoe := YearOfEra(doe);
    DateInYear(era, yoe, doe - YearStart(yoe))
  }

  /** The date of day `doy` of year `yoe` of era `era`. */
  function DateInYear(era: int, yoe: int, doy: int): Civil {
    var mp := MonthOfYear(doy);
    var m := CivilMonth(mp);
    Civil(era * 400 + yoe + (if m <= 2 then 1 else 0), m, doy - MonthStart(mp) + 1)
  }

  /** The day number of date `c`, counted from 1970-01-01 = day 0. */
  function DaysFromCivil(c: Civil): int {
    var y := if c.month <= 2 then c.year - 1 else c.year;
    DayNumber(y / 400, y % 400, MonthStart(ShiftedMonth(c.month)) + c.day - 1)
  }

  /** The day number of day `doy` of year `yoe` of era `era`. */
  function DayNumber(era: int, yoe: int, doy: int): int {
    era * 146097 + YearStart(yoe) + doy - EpochShift
  }

  // ---------------------------------------------------------------------------
  // Lemmas about years inside an era

  lemma YearOfEraSplit(b: int, q: int, s: int)
    requires 0 <= b <= 3 && 0 <= q <= 24 && 0 <= s <= 1460 && (q == 24 ==> s <= 1459)
    ensures YearOfEra(36524 * b + 1461 * q + s) == 100 * b + 4 * q + (if s < 1460 then s / 365 else 3)
  {
    var doe := 36524 * b + 1461 * q + s;
    var e := if 24 * b + q + s >= 1460 then 1 else 0;
    assert doe / 1460 == 25 * b + q + e;
    assert doe / 36524 == b;
    assert doe / 146096 == 0;
    assert e == 1 ==> s >= 1364;
    assert (36500 * b + 1460 * q + s - e) / 365 == 100 * b + 4 * q + (if s < 1460 then s / 365 else 3);
  }

  lemma YearStartSplit(b: int, q: int, t: int)
    requires 0 <= b <= 3 && 0 <= q <= 24 && 0 <= t <= 3
    ensures YearStart(100 * b + 4 * q + t) == 36524 * b + 1461 * q + 365 * t
  {
    var y := 100 * b + 4 * q + t;
    assert y / 4 == 25 * b + q;
    assert y / 100 == b;
  }

  /** Consecutive years of an era follow each other without gap or overlap. */
  lemma YearStartNext(yoe: int)
    requires 0 <= yoe < 399
    ensures YearStart(yoe + 1) == YearStart(yoe) + YearLen(yoe)
  {
  }

  /** Euclidean division by a positive constant has a unique quotient and remainder. */
  lemma DivMod(x: int, n: int, q: int, r: int)
    requires n == 4 || n == 100 || n == 400 || n == 146097
    requires 0 <= r < n && x == q * n + r
    ensures x / n == q && x % n == r
  {
    if n == 4 {
      assert x == 4 * q + r;
    } else if n == 100 {
      assert x == 100 * q + r;
    } else if n == 400 {
      assert x == 400 * q + r;
    } else {
      assert x == 146097 * q + r;
    }
  }

  /** The leap-year rule repeats every 400 years. */
  lemma LeapYearPeriodic(era: int, k: int)
    ensures IsLeapYear(era * 400 + k) == IsLeapYear(k)
  {
    var y := era * 400 + k;
    DivMod(k, 4, k / 4, k % 4);
    DivMod(y, 4, era * 100 + k / 4, k % 4);
    DivMod(k, 100, k / 100, k % 100);
    DivMod(y, 100, era * 4 + k / 100, k % 100);
    DivMod(k, 400, k / 400, k % 400);
    DivMod(y, 400, era + k / 400, k % 400);
  }

  lemma YearLenSplit(b: int, q: int, t: int)
    requires 0 <= b <= 3 && 0 <= q <= 24 && 0 <= t <= 3 && 100 * b + 4 * q + t < 399
    ensures YearLen(100 * b + 4 * q + t) == if t == 3 && q < 24 then 366 else 365
  {
    YearStartSplit(b, q, t);
    if t < 3 {
      YearStartSplit(b, q, t + 1);
    } else if q < 24 {
      YearStartSplit(b, q + 1, 0);
    } else {
      YearStartSplit(b + 1, 0, 0);
    }
  }

  /** Inside an era, the civil year that closes year `100 * b + 4 * q + t` is a
      leap year exactly when that year is the last of a four-year cycle that is
      not the last of its century. */
  lemma LeapYearInCycle(b: int, q: int, t: int)
    requires 0 <= b <= 3 && 0 <= q <= 24 && 0 <= t <= 3 && 100 * b + 4 * q + t < 399
    ensures IsLeapYear(100 * b + 4 * q + t + 1) <==> t == 3 && q < 24
  {
    var y := 100 * b + 4 * q + t + 1;
    if t < 3 {
      DivMod(y, 4, 25 * b + q, t + 1);
    } else if q < 24 {
      DivMod(y, 4, 25 * b + q + 1, 0);
      DivMod(y, 100, b, 4 * q + 4);
    } else {
      DivMod(y, 4, 25 * b + 25, 0);
      DivMod(y, 100, b + 1, 0);
      DivMod(y, 400, 0, y);
    }
  }

  /** Year `yoe` of an era is 366 days long exactly when the civil year in which
      it ends (the one holding its February) is a leap year. */
  lemma YearLenLeap(era: int, yoe: int)
    requires 0 <= yoe <= 399
    ensures YearLen(yoe) == if IsLeapYear(era * 400 + yoe + 1) then 366 else 365
  {
    LeapYearPeriodic(era, yoe + 1);
    if yoe < 399 {
      var b := yoe / 100;
      var q := (yoe % 100) / 4;
      var t := yoe % 4;
      assert yoe == 100 * b + 4 * q + t;
      YearLenSplit(b, q, t);
      LeapYearInCycle(b, q, t);
    } else {
      DivMod(400, 400, 1, 0);
    }
  }

  /** Day `doe` of an era lies in year YearOfEra(doe) of that era. */
  lemma YearOfEraBounds(doe: int)
    requires 0 <= doe < 146097
    ensures 0 <= YearOfEra(doe) <= 399
    ensures YearStart(YearOfEra(doe)) <= doe < YearStart(YearOfEra(doe)) + YearLen(YearOfEra(doe))
  {
    if doe == 146096 {
      assert YearOfEra(doe) == 399;
    } else {
      var b := doe / 36524;
      var r := doe % 36524;
      var q := r / 1461;
      var s := r % 1461;
      assert doe == 36524 * b + 1461 * q + s;
      assert 0 <= b <= 3 && 0 <= q <= 24 && 0 <= s <= 1460;
      assert q == 24 ==> s <= 1459;
      var t := if s < 1460 then s / 365 else 3;
      YearOfEraSplit(b, q, s);
      YearStartSplit(b, q, t);
      if 100 * b + 4 * q + t != 399 {
        if t < 3 {
          YearStartSplit(b, q, t + 1);
        } else if q < 24 {
          YearStartSplit(b, q + 1, 0);
        } else {
          YearStartSplit(b + 1, 0, 0);
        }
      }
    }
  }

  lemma YearStartMonotone(a: int, b: int)
    requires 0 <= a <= b <= 400
    ensures YearStart(a) <= YearStart(b)
  {
  }

  /** A day of the era lies in exactly one year of the era. */
  lemma YearOfEraUnique(doe: int, yoe: int)
    requires 0 <= yoe <= 399
    requires YearStart(yoe) <= doe < YearStart(yoe) + YearLen(yoe)
    ensures YearOfEra(doe) == yoe
  {
    assert 0 <= doe < 146097;
    YearOfEraBounds(doe);
    var k := YearOfEra(doe);
    if k < yoe {
      YearStartNext(k);
      YearStartMonotone(k + 1, yoe);
    } else if yoe < k {
      YearStartNext(yoe);
      YearStartMonotone(yoe + 1, k);
    }
  }

  // ---------------------------------------------------------------------------
  // Lemmas about months inside a year

  lemma MonthOfYearBounds(doy: int)
    requires 0 <= doy <= 365
    ensures 0 <= MonthOfYear(doy) <= 11
    ensures MonthStart(MonthOfYear(doy)) <= doy < MonthStart(MonthOfYear(doy) + 1)
  {
  }

  /** Month `mp` has as many days as the civil month it names, given whether the
      February that closes the year is a leap one. */
  lemma MonthLength(mp: int, y: int)
    requires 0 <= mp <= 10
    ensures MonthStart(mp + 1) - MonthStart(mp) == DaysInMonth(y, CivilMonth(mp))
  {
  }

  lemma MonthOfYearUnique(doy: int, mp: int)
    requires 0 <= mp <= 11
    requires MonthStart(mp) <= doy < MonthStart(mp + 1)
    ensures MonthOfYear(doy) == mp
  {
  }

  lemma DateInYearValid(era: int, yoe: int, doy: int)
    requires 0 <= yoe <= 399
    requires 0 <= doy < YearLen(yoe)
    ensures ValidDate(DateInYear(era, yoe, doy))
  {
    YearLenLeap(era, yoe);
    MonthOfYearBounds(doy);
    var mp := MonthOfYear(doy);
    if mp < 11 {
      MonthLength(mp, era * 400 + yoe + (if CivilMonth(mp) <= 2 then 1 else 0));
    }
  }

  /** Every day number is given a valid date. */
  lemma CivilFromDaysValid(z: int)
    ensures ValidDate(CivilFromDays(z))
  {
    var doe := (z + EpochShift) % 146097;
    YearOfEraBounds(doe);
    var yoe := YearOfEra(doe);
    DateInYearValid((z + EpochShift) / 146097, yoe, doe - YearStart(yoe));
  }

  // ---------------------------------------------------------------------------
  // The two conversions are inverse to each other and follow the calendar

  /** DaysFromCivil undoes DateInYear. */
  lemma DaysFromDateInYear(era: int, yoe: int, doy: int)
    requires 0 <= yoe <= 399 && 0 <= doy < YearLen(yoe)
    ensures DaysFromCivil(DateInYear(era, yoe, doy)) == DayNumber(era, yoe, doy)
  {
    MonthOfYearBounds(doy);
    var mp := MonthOfYear(doy);
    var m := CivilMonth(mp);
    assert ShiftedMonth(m) == mp;
    var y := era * 400 + yoe;
    assert y / 400 == era && y % 400 == yoe;
  }

  /** Converting a day number to a date and back gives the day number again. */
  lemma DaysFromCivilFromDays(z: int)
    ensures DaysFromCivil(CivilFromDays(z)) == z
  {
    var era := (z + EpochShift) / 146097;
    var doe := (z + EpochShift) % 146097;
    YearOfEraBounds(doe);
    var yoe := YearOfEra(doe);
    var doy := doe - YearStart(yoe);
    assert CivilFromDays(z) == DateInYear(era, yoe, doy);
    DaysFromDateInYear(era, yoe, doy);
    assert z == era * 146097 + doe - EpochShift;
  }

  /** The era, year of era and day of year of a valid date place it inside its era. */
  lemma DayOfEraBounds(era: int, yoe: int, mp: int, d: int, y: int)
    requires 0 <= yoe <= 399 && 0 <= mp <= 11 && 1 <= d
    requires y == era * 400 + yoe + (if mp >= 10 then 1 else 0)
    requires d <= DaysInMonth(y, CivilMonth(mp))
    ensures MonthStart(mp) + d - 1 < MonthStart(mp + 1)
    ensures MonthStart(mp) + d - 1 < YearLen(yoe)
    ensures YearStart(yoe) + YearLen(yoe) <= 146097
  {
    YearLenLeap(era, yoe);
    if mp < 11 {
      MonthLength(mp, y);
    }
    if yoe < 399 {
      YearStartNext(yoe);
      YearStartMonotone(yoe + 1, 399);
    }
  }

  /** Day `doe` of era `era` has the day number era * 146097 + doe - EpochShift. */
  lemma CivilFromDaysInEra(era: int, doe: int)
    requires 0 <= doe < 146097
    ensures CivilFromDays(era * 146097 + doe - EpochShift) == DateInEra(era, doe)
  {
    DivMod(era * 146097 + doe, 146097, era, doe);
  }

  /** Day `doy` of year `yoe` is day YearStart(yoe) + doy of the era. */
  lemma DateInEraOfYear(era: int, yoe: int, doy: int)
    requires 0 <= yoe <= 399 && 0 <= doy < YearLen(yoe)
    ensures DateInEra(era, YearStart(yoe) + doy) == DateInYear(era, yoe, doy)
  {
    YearOfEraUnique(YearStart(yoe) + doy, yoe);
  }

  /** CivilFromDays undoes DayNumber. */
  lemma CivilFromDayNumber(era: int, yoe: int, doy: int)
    requires 0 <= yoe <= 399 && 0 <= doy < YearLen(yoe)
    requires YearStart(yoe) + YearLen(yoe) <= 146097
    ensures CivilFromDays(DayNumber(era, yoe, doy)) == DateInYear(era, yoe, doy)
  {
    var doe := YearStart(yoe) + doy;
    assert DayNumber(era, yoe, doy) == era * 146097 + doe - EpochShift;
    CivilFromDaysInEra(era, doe);
    DateInEraOfYear(era, yoe, doy);
  }

  /** DateInYear undoes the day-of-year computation of DaysFromCivil. */
  lemma DateInYearOfMonthDay(era: int, yoe: int, mp: int, d: int)
    requires 0 <= yoe <= 399 && 0 <= mp <= 11 && 1 <= d
    requires MonthStart(mp) + d - 1 < MonthStart(mp + 1)
    requires MonthStart(mp) + d - 1 < YearLen(yoe)
    ensures DateInYear(era, yoe, MonthStart(mp) + d - 1)
         == Civil(era * 400 + yoe + (if mp >= 10 then 1 else 0), CivilMonth(mp), d)
  {
    MonthOfYearUnique(MonthStart(mp) + d - 1, mp);
  }

  /** Converting a valid date to a day number and back gives the date again. */
  lemma CivilFromDaysFromCivil(c: Civil)
    requires ValidDate(c)
    ensures CivilFromDays(DaysFromCivil(c)) == c
  {
    var y := if c.month <= 2 then c.year - 1 else c.year;
    var era := y / 400;
    var yoe := y % 400;
    var mp := ShiftedMonth(c.month);
    var doy := MonthStart(mp) + c.day - 1;
    assert y == era * 400 + yoe;
    assert CivilMonth(mp) == c.month;
    DayOfEraBounds(era, yoe, mp, c.day, c.year);
    assert DaysFromCivil(c) == DayNumber(era, yoe, doy);
    CivilFromDayNumber(era, yoe, doy);
    DateInYearOfMonthDay(era, yoe, mp, c.day);
    assert era * 400 + yoe + (if mp >= 10 then 1 else 0) == c.year;
  }

  /** The day after the last day of year `yoe` of an era is the first day of the next year. */
  lemma YearEndNext(era: int, yoe: int)
    requires 0 <= yoe <= 399
    ensures DayNumber(era, yoe, YearLen(yoe) - 1) + 1
         == if yoe < 399 then DayNumber(era, yoe + 1, 0) else DayNumber(era + 1, 0, 0)
  {
    if yoe < 399 {
      YearStartNext(yoe);
    }
  }

  /** The last day of February is followed by 1 March, the first day of the next year of the era. */
  lemma DaysFromCivilMarchFirst(c: Civil)
    requires c.month == 2 && c.day == DaysInMonth(c.year, 2)
    ensures DaysFromCivil(Civil(c.year, 3, 1)) == DaysFromCivil(c) + 1
  {
    var y := c.year - 1;
    var era := y / 400;
    var yoe := y % 400;
    assert DaysFromCivil(c) == DayNumber(era, yoe, YearLen(yoe) - 1) by {
      assert y == era * 400 + yoe;
      YearLenLeap(era, yoe);
    }
    assert DaysFromCivil(Civil(c.year, 3, 1)) == DayNumber(c.year / 400, c.year % 400, 0);
    YearEndNext(era, yoe);
    if yoe < 399 {
      DivMod(c.year, 400, era, yoe + 1);
    } else {
      DivMod(c.year, 400, era + 1, 0);
    }
  }

  /** Inside one year of an era, the next day has the next day of the year. */
  lemma DaysFromCivilNextInYear(c: Civil)
    requires ValidDate(c) && !(c.month == 2 && c.day == DaysInMonth(c.year, 2))
    ensures DaysFromCivil(NextDay(c)) == DaysFromCivil(c) + 1
  {
    var n := NextDay(c);
    var y := if c.month <= 2 then c.year - 1 else c.year;
    assert y == if n.month <= 2 then n.year - 1 else n.year;
    var mp := ShiftedMonth(c.month);
    if c.day == DaysInMonth(c.year, c.month) {
      assert ShiftedMonth(n.month) == mp + 1;
      MonthLength(mp, c.year);
      assert CivilMonth(mp) == c.month;
    }
    assert MonthStart(ShiftedMonth(n.month)) + n.day == MonthStart(mp) + c.day + 1;
  }

  /** The day after a valid date has the next day number. */
  lemma DaysFromCivilNext(c: Civil)
    requires ValidDate(c)
    ensures DaysFromCivil(NextDay(c)) == DaysFromCivil(c) + 1
  {
    if c.month == 2 && c.day == DaysInMonth(c.year, 2) {
      DaysFromCivilMarchFirst(c);
    } else {
      DaysFromCivilNextInYear(c);
    }
  }

  /** Day 0 is 1 January 1970. */
  lemma EpochIsNewYear1970()
    ensures CivilFromDays(0) == Civil(1970, 1, 1)
  {
    DivMod(1969, 400, 4, 369);
    assert YearStart(369) == 134774 && MonthStart(10) == 306;
    assert DaysFromCivil(Civil(1970, 1, 1)) == DayNumber(4, 369, 306) == 0;
    CivilFromDaysFromCivil(Civil(1970, 1, 1));
  }

  /** The date of the next day number is the calendar's next day. Together with
      EpochIsNewYear1970 this fixes CivilFromDays on every integer. */
  lemma CivilFromDaysNext(z: int)
    ensures CivilFromDays(z + 1) == NextDay(CivilFromDays(z))
  {
    var c := CivilFromDays(z);
    var n := NextDay(c);
    assert DaysFromCivil(n) == z + 1 by {
      CivilFromDaysValid(z);
      DaysFromCivilFromDays(z);
      DaysFromCivilNext(c);
    }
    assert CivilFromDays(DaysFromCivil(n)) == n by {
      CivilFromDaysValid(z);
      assert ValidDate(n);
      CivilFromDaysFromCivil(n);
    }
  }

  // ---------------------------------------------------------------------------
  // The fields read off a timestamp

  /** The day number of the day that holds `t` (rounded down, also before 1970). */
  function EpochDay(t: Timestamp): int { t / SecondsPerDay }

  function Date(t: Timestamp): Civil { CivilFromDays(EpochDay(t)) }

  function Hour(t: Timestamp): (h: int)
    ensures 0 <= h < 24
  {
    (t % SecondsPerDay) / SecondsPerHour
  }

  function Day(t: Timestamp): int { Date(t).day }

  function Month(t: Timestamp): int { Date(t).month }

  function Year(t: Timestamp): int { Date(t).year }

  /** The day of the week, 0 = Monday, ..., 6 = Sunday; 1970-01-01 was a Thursday. */
  function Weekday(t: Timestamp): (w: int)
    ensures 0 <= w < 7
  {
    (EpochDay(t) + 3) % 7
  }

  /** The fields of a timestamp name an existing calendar day. */
  lemma TimestampFieldsValid(t: Timestamp)
    ensures 1 <= Month(t) <= 12
    ensures 1 <= Day(t) <= DaysInMonth(Year(t), Month(t))
  {
    CivilFromDaysValid(EpochDay(t));
  }

  /** `t` lies in hour Hour(t) of its day. */
  lemma HourOfDay(t: Timestamp)
    ensures SecondsPerDay * EpochDay(t) + SecondsPerHour * Hour(t) <= t
    ensures t < SecondsPerDay * EpochDay(t) + SecondsPerHour * (Hour(t) + 1)
  {
  }

  /** One day later the date is the calendar's next day. */
  lemma DateOneDayLater(t: Timestamp)
    ensures Date(t + SecondsPerDay) == NextDay(Date(t))
  {
    assert EpochDay(t + SecondsPerDay) == EpochDay(t) + 1;
    CivilFromDaysNext(EpochDay(t));
  }

  /** One day later the weekday is the next weekday and the hour is the same. */
  lemma WeekdayOneDayLater(t: Timestamp)
    ensures Weekday(t + SecondsPerDay) == (Weekday(t) + 1) % 7
    ensures Hour(t + SecondsPerDay) == Hour(t)
  {
    assert EpochDay(t + SecondsPerDay) == EpochDay(t) + 1;
  }

  /** The Unix epoch: Thursday 1 January 1970, hour 0. */
  lemma EpochFields()
    ensures Year(0) == 1970 && Month(0) == 1 && Day(0) == 1
    ensures Hour(0) == 0 && Weekday(0) == 3
  {
    assert EpochDay(0) == 0;
    EpochIsNewYear1970();
  }
}
