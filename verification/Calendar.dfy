/** Gregorian dates from day counts; day 0 is 1970-01-01. */
module Calendar {

  datatype Date = Date(year: int, month: int, day: int)

  predicate IsLeap(year: int) {
    year % 4 == 0 && (year % 100 != 0 || year % 400 == 0)
  }

  function DaysInMonth(year: int, month: int): int {
    if month == 2 then if IsLeap(year) then 29 else 28
    else if month == 4 || month == 6 || month == 9 || month == 11 then 30
    else 31
  }

  predicate ValidDate(d: Date) {
    1 <= d.month <= 12 && 1 <= d.day <= DaysInMonth(d.year, d.month)
  }

  /** The calendar itself: what comes after a date. */
  function NextDate(d: Date): Date {
    if d.day < DaysInMonth(d.year, d.month) then d.(day := d.day + 1)
    else if d.month < 12 then Date(d.year, d.month + 1, 1)
    else Date(d.year + 1, 1, 1)
  }

  /** Division that truncates toward zero. */
  function TruncatedDiv(a: int, b: int): int
    requires b > 0
  {
    if a >= 0 then a / b else -((-a) / b)
  }

  /** `civil_from_days`. Dividends after the era are never negative. */
  function CivilFromDays(days: int): Date {
    var z := days + 719_468;
    var era := TruncatedDiv(if z >= 0 then z else z - 146_096, 146_097);
    CivilInEra(era, z - era * 146_097)
  }

  /** The date of day `doe` of an era. */
  function CivilInEra(era: int, doe: int): Date {
    var yoe := TruncatedDiv(
      doe - TruncatedDiv(doe, 1460) + TruncatedDiv(doe, 36_524) - TruncatedDiv(doe, 146_096), 365);
    var doy := doe - (365 * yoe + TruncatedDiv(yoe, 4) - TruncatedDiv(yoe, 100));
    var mp := TruncatedDiv(5 * doy + 2, 153);
    var day := doy - TruncatedDiv(153 * mp + 2, 5) + 1;
    var month := mp + if mp < 10 then 3 else -9;
    Date(yoe + era * 400 + if month <= 2 then 1 else 0, month, day)
  }

  /** The usual inverse, counting years from March. */
  function DaysFromCivil(d: Date): int {
    var year := if d.month <= 2 then d.year - 1 else d.year;
    var era := year / 400;
    var yoe := year % 400;
    var mp := if d.month > 2 then d.month - 3 else d.month + 9;
    var doy := (153 * mp + 2) / 5 + d.day - 1;
    era * 146_097 + 365 * yoe + yoe / 4 - yoe / 100 + doy - 719_468
  }

  /* ----- a day in March-based parts ----- */

  /** Day of the era, as year of the era and day of the March-based year. */
  function DayOfEra(yoe: int, doy: int): int {
    365 * yoe + yoe / 4 - yoe / 100 + doy
  }

  /** The March-based year `yoe` ends with a 29 February. */
  predicate LongYear(yoe: int) {
    (yoe + 1) % 4 == 0 && ((yoe + 1) % 100 != 0 || (yoe + 1) % 400 == 0)
  }

  predicate InYear(yoe: int, doy: int) {
    0 <= yoe < 400 && 0 <= doy <= (if LongYear(yoe) then 365 else 364)
  }

  function YearOfEra(doe: int): int {
    (doe - doe / 1460 + doe / 36_524 - doe / 146_096) / 365
  }

  lemma CenturyParts(yoe: int) returns (c: int, q: int, r: int)
    requires 0 <= yoe < 400
    ensures 0 <= c < 4 && 0 <= q < 25 && 0 <= r < 4 && yoe == 100 * c + 4 * q + r
    ensures yoe / 4 == 25 * c + q && yoe / 100 == c
    ensures LongYear(yoe) <==> r == 3 && (q < 24 || c == 3)
  {
    c := yoe / 100;
    q := (yoe - 100 * c) / 4;
    r := yoe - 100 * c - 4 * q;
  }

  /** The correction terms recover the year exactly. */
  lemma {:induction false} YearIsRecovered(yoe: int, doy: int)
    requires InYear(yoe, doy)
    ensures var doe := DayOfEra(yoe, doy);
            0 <= doe < 146_097 && YearOfEra(doe) == yoe
  {
    var c, q, r := CenturyParts(yoe);
    var doe := DayOfEra(yoe, doy);
    assert doe == 36_524 * c + 1461 * q + 365 * r + doy;
    var e1, e2, e3 := doe / 1460 - 25 * c - q, doe / 36_524 - c, doe / 146_096;
    var rest := 24 * c + q + 365 * r + doy;
    assert doe == 1460 * (25 * c + q) + rest;
    assert 0 <= rest < 2920;
    assert e1 == if rest >= 1460 then 1 else 0;
    var tail := 1461 * q + 365 * r + doy;
    assert doe == 36_524 * c + tail && 0 <= tail <= 36_524;
    assert e2 == if tail == 36_524 then 1 else 0;
    assert tail == 36_524 ==> c == 3;
    assert e3 == if c == 3 && tail == 36_524 then 1 else 0;
    assert doe - doe / 1460 + doe / 36_524 - doe / 146_096 == 365 * yoe + (doy - e1);
    assert 0 <= doy - e1 < 365;
  }

  /** Every day of an era lies in one of its years. */
  lemma {:induction false} DayHasYear(doe: int) returns (yoe: int, doy: int)
    requires 0 <= doe < 146_097
    ensures InYear(yoe, doy) && doe == DayOfEra(yoe, doy)
  {
    var c := if doe / 36_524 < 4 then doe / 36_524 else 3;
    var tail := doe - 36_524 * c;
    var q := tail / 1461;
    var rest := tail - 1461 * q;
    var r := if rest / 365 < 4 then rest / 365 else 3;
    yoe := 100 * c + 4 * q + r;
    doy := rest - 365 * r;
    assert yoe / 4 == 25 * c + q && yoe / 100 == c;
    var c', q', r' := CenturyParts(yoe);
    assert c' == c && q' == q && r' == r;
  }

  /* ----- months of the March-based year ----- */

  function MonthStart(mp: int): int {
    (153 * mp + 2) / 5
  }

  lemma {:induction false} MonthIsRecovered(doy: int)
    requires 0 <= doy <= 365
    ensures var mp := (5 * doy + 2) / 153;
            0 <= mp < 12 && MonthStart(mp) <= doy && (mp < 11 ==> doy < MonthStart(mp + 1))
  {
  }

  lemma MonthOfDay(mp: int, doy: int)
    requires 0 <= mp < 12 && MonthStart(mp) <= doy && (if mp < 11 then doy < MonthStart(mp + 1) else doy <= 365)
    ensures (5 * doy + 2) / 153 == mp
  {
  }

  /** A date built from its March-based parts. */
  function Assemble(era: int, yoe: int, doy: int): Date {
    var mp := (5 * doy + 2) / 153;
    var month := mp + if mp < 10 then 3 else -9;
    Date(yoe + era * 400 + if month <= 2 then 1 else 0, month, doy - MonthStart(mp) + 1)
  }

  lemma {:induction false} CivilInParts(era: int, doe: int, yoe: int, doy: int)
    requires InYear(yoe, doy) && 0 <= doe < 146_097 && YearOfEra(doe) == yoe && DayOfEra(yoe, doy) == doe
    ensures CivilInEra(era, doe) == Assemble(era, yoe, doy)
  {
    assert 0 <= doe - doe / 1460 + doe / 36_524 - doe / 146_096;
  }

  lemma CivilTakesEra(era: int, doe: int)
    requires 0 <= doe < 146_097
    ensures CivilFromDays(era * 146_097 + doe - 719_468) == CivilInEra(era, doe)
  {
    hide CivilInEra;
    EraIsRecovered(era, doe);
    hide TruncatedDiv;
    assert (era * 146_097 + doe - 719_468) + 719_468 == era * 146_097 + doe;
  }

  /** The conversion takes a day count apart the only way there is. */
  lemma {:induction false} CivilIsAssembled(era: int, yoe: int, doy: int)
    requires InYear(yoe, doy)
    ensures CivilFromDays(era * 146_097 + DayOfEra(yoe, doy) - 719_468) == Assemble(era, yoe, doy)
  {
    hide *;
    YearIsRecovered(yoe, doy);
    CivilInParts(era, DayOfEra(yoe, doy), yoe, doy);
    CivilTakesEra(era, DayOfEra(yoe, doy));
  }

  lemma EraIsRecovered(era: int, doe: int)
    requires 0 <= doe < 146_097
    ensures var z := era * 146_097 + doe;
            TruncatedDiv(if z >= 0 then z else z - 146_096, 146_097) == era
  {
  }

  lemma {:induction false} DaysHaveParts(days: int) returns (era: int, yoe: int, doy: int)
    ensures InYear(yoe, doy) && days == era * 146_097 + DayOfEra(yoe, doy) - 719_468
  {
    era := (days + 719_468) / 146_097;
    yoe, doy := DayHasYear((days + 719_468) % 146_097);
  }

  lemma Mod4(a: int, era: int)
    ensures (a + era * 400) % 4 == a % 4
  {
    assert a + era * 400 == a + 4 * (era * 100);
  }

  lemma Mod100(a: int, era: int)
    ensures (a + era * 400) % 100 == a % 100
  {
    assert a + era * 400 == a + 100 * (era * 4);
  }

  lemma Mod400(a: int, era: int)
    ensures (a + era * 400) % 400 == a % 400
    ensures 0 <= a < 400 ==> (a + era * 400) / 400 == era
  {
  }

  lemma LeapFromYear(era: int, yoe: int)
    requires 0 <= yoe < 400
    ensures IsLeap(yoe + era * 400 + 1) <==> LongYear(yoe)
  {
    Mod4(yoe + 1, era);
    Mod100(yoe + 1, era);
    Mod400(yoe + 1, era);
    assert yoe + 1 + era * 400 == yoe + era * 400 + 1;
  }

  lemma MonthLengths(mp: int)
    requires 0 <= mp < 11
    ensures MonthStart(mp + 1) - MonthStart(mp) == if mp == 1 || mp == 3 || mp == 6 || mp == 8 then 30 else 31
    ensures MonthStart(11) == 337 && MonthStart(0) == 0
  {
  }

  /** Length of the March-based month. */
  lemma {:induction false} MonthFits(era: int, yoe: int, mp: int)
    requires 0 <= yoe < 400 && 0 <= mp < 12
    ensures var month := mp + if mp < 10 then 3 else -9;
            var year := yoe + era * 400 + if month <= 2 then 1 else 0;
            DaysInMonth(year, month) ==
            if mp < 11 then MonthStart(mp + 1) - MonthStart(mp) else if LongYear(yoe) then 29 else 28
  {
    hide IsLeap, LongYear, MonthStart;
    if mp < 11 { MonthLengths(mp); }
    LeapFromYear(era, yoe);
  }

  lemma {:induction false} AssembledIsValid(era: int, yoe: int, doy: int)
    requires InYear(yoe, doy)
    ensures ValidDate(Assemble(era, yoe, doy))
    ensures DaysFromCivil(Assemble(era, yoe, doy)) == era * 146_097 + DayOfEra(yoe, doy) - 719_468
  {
    hide DaysInMonth, LongYear, IsLeap;
    MonthIsRecovered(doy);
    var mp := (5 * doy + 2) / 153;
    MonthLengths(0);
    MonthFits(era, yoe, mp);
    Mod400(yoe, era);
    LongYearOnly(yoe, doy);
  }

  lemma LongYearOnly(yoe: int, doy: int)
    requires InYear(yoe, doy)
    ensures doy <= 364 || (LongYear(yoe) && doy == 365)
  {
  }

  /* ----- theorems ----- */

  /** Every day count gives a valid date, and the usual inverse gives the day count back. */
  lemma {:induction false} CivilRoundTrip(days: int)
    ensures ValidDate(CivilFromDays(days)) && DaysFromCivil(CivilFromDays(days)) == days
  {
    hide *;
    var era, yoe, doy := DaysHaveParts(days);
    CivilIsAssembled(era, yoe, doy);
    AssembledIsValid(era, yoe, doy);
  }

  /** A valid date in March-based parts. */
  lemma {:induction false} DateHasParts(d: Date) returns (era: int, yoe: int, doy: int)
    requires ValidDate(d)
    ensures InYear(yoe, doy) && Assemble(era, yoe, doy) == d
    ensures DaysFromCivil(d) == era * 146_097 + DayOfEra(yoe, doy) - 719_468
  {
    var year := if d.month <= 2 then d.year - 1 else d.year;
    era, yoe := year / 400, year % 400;
    var mp := if d.month > 2 then d.month - 3 else d.month + 9;
    doy := MonthStart(mp) + d.day - 1;
    assert year == yoe + era * 400;
    MonthFits(era, yoe, mp);
    MonthLengths(0);
    hide DaysInMonth, LongYear, IsLeap;
    if mp < 11 {
      MonthEnds(mp);
    }
    MonthOfDay(mp, doy);
  }

  lemma MonthEnds(mp: int)
    requires 0 <= mp < 11
    ensures MonthStart(mp) < MonthStart(mp + 1) <= 337
  {
  }

  /** Every valid date comes from its day count: the conversion is onto. */
  lemma {:induction false} DateRoundTrip(d: Date)
    requires ValidDate(d)
    ensures CivilFromDays(DaysFromCivil(d)) == d
  {
    hide *;
    var era, yoe, doy := DateHasParts(d);
    CivilIsAssembled(era, yoe, doy);
  }

  lemma EpochIsDayZero()
    ensures CivilFromDays(0) == Date(1970, 1, 1)
  {
    assert Assemble(4, 369, 306) == Date(1970, 1, 1);
    assert 4 * 146_097 + DayOfEra(369, 306) - 719_468 == 0;
    hide CivilFromDays, Assemble;
    CivilIsAssembled(4, 369, 306);
  }

  /** Consecutive day counts are consecutive dates, starting at 1970-01-01. */
  lemma {:induction false} CivilFollowsCalendar(days: int)
    ensures CivilFromDays(0) == Date(1970, 1, 1)
    ensures CivilFromDays(days + 1) == NextDate(CivilFromDays(days))
  {
    hide CivilFromDays, DaysFromCivil, NextDate, ValidDate;
    EpochIsDayZero();
    CivilRoundTrip(days);
    var d := CivilFromDays(days);
    NextDateIsNextDay(d);
    DateRoundTrip(NextDate(d));
  }

  lemma {:induction false} NextInYear(era: int, yoe: int, doy: int)
    requires InYear(yoe, doy) && InYear(yoe, doy + 1)
    ensures NextDate(Assemble(era, yoe, doy)) == Assemble(era, yoe, doy + 1)
  {
    MonthIsRecovered(doy);
    var mp := (5 * doy + 2) / 153;
    MonthFits(era, yoe, mp);
    MonthLengths(0);
    if mp < 11 {
      MonthEnds(mp);
      MonthLengths(mp);
      if mp < 10 { MonthEnds(mp + 1); }
    }
    hide DaysInMonth;
    var m := if mp < 11 && doy + 1 == MonthStart(mp + 1) then mp + 1 else mp;
    MonthOfDay(m, doy + 1);
    LongYearOnly(yoe, doy + 1);
  }

  lemma {:induction false} NextYear(era: int, yoe: int)
    requires 0 <= yoe < 400
    ensures var last := if LongYear(yoe) then 365 else 364;
            NextDate(Assemble(era, yoe, last)) ==
            if yoe == 399 then Assemble(era + 1, 0, 0) else Assemble(era, yoe + 1, 0)
  {
    var last := if LongYear(yoe) then 365 else 364;
    MonthFits(era, yoe, 11);
    MonthLengths(0);
    MonthOfDay(11, last);
    MonthOfDay(0, 0);
  }

  lemma YearEnd(yoe: int)
    requires 0 <= yoe < 400
    ensures var last := if LongYear(yoe) then 365 else 364;
            DayOfEra(yoe, last) + 1 == if yoe == 399 then 146_097 else DayOfEra(yoe + 1, 0)
  {
    var c, q, r := CenturyParts(yoe);
    if yoe < 399 {
      var c', q', r' := CenturyParts(yoe + 1);
    }
  }

  lemma NextDayInYear(yoe: int, doy: int)
    ensures DayOfEra(yoe, doy + 1) == DayOfEra(yoe, doy) + 1
  {
  }

  /** The date after a date in March-based parts. */
  lemma {:induction false} NextAssembled(era: int, yoe: int, doy: int)
    requires InYear(yoe, doy)
    ensures var next := NextDate(Assemble(era, yoe, doy));
            ValidDate(next) && DaysFromCivil(next) == era * 146_097 + DayOfEra(yoe, doy) + 1 - 719_468
  {
    var last := if LongYear(yoe) then 365 else 364;
    hide Assemble, DaysFromCivil, NextDate, ValidDate, LongYear;
    LongYearOnly(yoe, doy);
    if doy < last {
      AssembledIsValid(era, yoe, doy + 1);
      NextInYear(era, yoe, doy);
      NextDayInYear(yoe, doy);
      hide *;
    } else {
      NextYear(era, yoe);
      YearEnd(yoe);
      if yoe == 399 {
        AssembledIsValid(era + 1, 0, 0);
      } else {
        AssembledIsValid(era, yoe + 1, 0);
      }
    }
  }

  lemma {:induction false} NextDateIsNextDay(d: Date)
    requires ValidDate(d)
    ensures ValidDate(NextDate(d)) && DaysFromCivil(NextDate(d)) == DaysFromCivil(d) + 1
  {
    hide *;
    var era, yoe, doy := DateHasParts(d);
    NextAssembled(era, yoe, doy);
  }

  /** Earlier days have earlier dates: different day counts never share a date. */
  lemma CivilIsInjective(a: int, b: int)
    ensures CivilFromDays(a) == CivilFromDays(b) ==> a == b
  {
    CivilRoundTrip(a);
    CivilRoundTrip(b);
  }

  /* ----- time of day ----- */

  datatype Timestamp = Timestamp(date: Date, hour: nat, minute: nat, second: nat)

  /** The fields of `unix_seconds_to_utc`. */
  function UtcFromUnixSeconds(seconds: nat): Timestamp {
    var ofDay := seconds % 86_400;
    Timestamp(CivilFromDays(seconds / 86_400), ofDay / 3_600, (ofDay % 3_600) / 60, ofDay % 60)
  }

  lemma TimeOfDay(seconds: nat)
    ensures var ofDay := seconds % 86_400;
            && ofDay / 3_600 < 24 && (ofDay % 3_600) / 60 < 60 && ofDay % 60 < 60
            && ofDay == ofDay / 3_600 * 3_600 + (ofDay % 3_600) / 60 * 60 + ofDay % 60
            && seconds == seconds / 86_400 * 86_400 + ofDay
  {
    var ofDay := seconds % 86_400;
    assert ofDay % 60 == (ofDay % 3_600) % 60;
  }

  /** The fields are in range and add up to the seconds. */
  lemma {:induction false} UtcRoundTrip(seconds: nat)
    ensures var t := UtcFromUnixSeconds(seconds);
            && ValidDate(t.date) && t.hour < 24 && t.minute < 60 && t.second < 60
            && seconds == DaysFromCivil(t.date) * 86_400 + t.hour * 3_600 + t.minute * 60 + t.second
  {
    hide CivilFromDays, DaysFromCivil, ValidDate;
    CivilRoundTrip(seconds / 86_400);
    TimeOfDay(seconds);
  }
}
