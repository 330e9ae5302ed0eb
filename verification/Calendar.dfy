/**
 The two calendar conversions: from a day count to a date (`utc_stamp`) and from
 a date to a day count (`epoch`), against a calendar that only knows how long a
 month is and what day comes next.
 */
module Calendar {
  datatype Date = Date(year: int, month: int, day: int)

  predicate IsLeap(year: int) {
    year % 4 == 0 && (year % 100 != 0 || year % 400 == 0)
  }

  function MonthLength(year: int, month: int): int {
    if month == 2 then (if IsLeap(year) then 29 else 28)
    else if month == 4 || month == 6 || month == 9 || month == 11 then 30
    else 31
  }

  predicate IsDate(d: Date) {
    1 <= d.month <= 12 && 1 <= d.day <= MonthLength(d.year, d.month)
  }

  /** The day after: the next of the month, else the first of the next month. */
  function NextDay(d: Date): (next: Date)
    requires IsDate(d)
    ensures IsDate(next)
  {
    if d.day < MonthLength(d.year, d.month) then d.(day := d.day + 1)
    else if d.month < 12 then Date(d.year, d.month + 1, 1)
    else Date(d.year + 1, 1, 1)
  }

  /** The date `days` days after 1970-01-01. */
  function DateOf(days: nat): (d: Date)
    ensures IsDate(d)
  {
    if days == 0 then Date(1970, 1, 1) else NextDay(DateOf(days - 1))
  }

  // --- The conversions, over the integers ---

  /** Of a day of the 400-year era that starts on a March 1st, its year in the era. */
  function YearOfEra(doe: int): int {
    (doe - doe / 1460 + doe / 36524 - doe / 146096) / 365
  }

  /** The days of an era before its year `yoe`. */
  function DaysBefore(yoe: int): int {
    yoe * 365 + yoe / 4 - yoe / 100
  }

  /** The month of a day of a March-first year, March being 0. */
  function MonthOfYear(doy: int): int {
    (5 * doy + 2) / 153
  }

  /** The days of a March-first year before its month `mp`. */
  function MonthsBefore(mp: int): int {
    (153 * mp + 2) / 5
  }

  /** `utc_stamp`'s date. */
  function Civil(days: int): Date {
    var z := days + 719468;
    var era := z / 146097;
    OfEra(era, z - era * 146097)
  }

  /** The date of a day of an era. */
  function OfEra(era: int, doe: int): Date {
    var yoe := YearOfEra(doe);
    var doy := doe - DaysBefore(yoe);
    var mp := MonthOfYear(doy);
    var month := if mp < 10 then mp + 3 else mp - 9;
    Date(yoe + era * 400 + (if month <= 2 then 1 else 0), month, doy - MonthsBefore(mp) + 1)
  }

  /** `epoch`'s days. */
  function DaysFromCivil(d: Date): int {
    YearStart(MarchYear(d)) + DayOfYear(d) - 719468
  }

  /** The March-first year a date is in, its month there, and its day of it. */
  function MarchYear(d: Date): int {
    if d.month <= 2 then d.year - 1 else d.year
  }

  function MarchMonth(month: int): int {
    if month > 2 then month - 3 else month + 9
  }

  function DayOfYear(d: Date): int {
    MonthsBefore(MarchMonth(d.month)) + d.day - 1
  }

  /** The days, from the start of era 0, to the March 1st of `year`. */
  function YearStart(year: int): int {
    var era := year / 400;
    era * 146097 + DaysBefore(year - era * 400)
  }

  // --- A day is one more than the day before ---

  lemma YearLength(year: int)
    ensures YearStart(year + 1) == YearStart(year) + (if IsLeap(year + 1) then 366 else 365)
  {
    var era := year / 400;
    var yoe := year - era * 400;
    EraLeap(year, era, yoe);
    if yoe < 399 {
      assert (year + 1) / 400 == era;
      YearOfEraLength(yoe);
    } else {
      assert (year + 1) / 400 == era + 1;
    }
  }

  lemma EraLeap(year: int, era: int, yoe: int)
    requires year == era * 400 + yoe
    ensures IsLeap(year + 1) == IsLeap(yoe + 1)
  {
    By4(yoe + 1, 100 * era);
    By100(yoe + 1, 4 * era);
    By400(yoe + 1, era);
  }

  lemma By4(x: int, k: int)
    ensures (x + 4 * k) % 4 == x % 4
  {
  }

  lemma By100(x: int, k: int)
    ensures (x + 100 * k) % 100 == x % 100
  {
  }

  lemma By400(x: int, k: int)
    ensures (x + 400 * k) % 400 == x % 400
  {
  }

  lemma YearOfEraLength(yoe: int)
    requires 0 <= yoe < 399
    ensures DaysBefore(yoe + 1) == DaysBefore(yoe) + (if IsLeap(yoe + 1) then 366 else 365)
  {
    FourthsNext(yoe);
    HundredthsNext(yoe);
    LeapWithin(yoe + 1);
  }

  lemma FourthsNext(x: int)
    ensures (x + 1) / 4 == x / 4 + if (x + 1) % 4 == 0 then 1 else 0
  {
  }

  lemma HundredthsNext(x: int)
    ensures (x + 1) / 100 == x / 100 + if (x + 1) % 100 == 0 then 1 else 0
  {
  }

  /** In an era, no year but its last is a fourth hundredth. */
  lemma LeapWithin(year: int)
    requires 0 < year < 400
    ensures IsLeap(year) <==> year % 4 == 0 && year % 100 != 0
    ensures year % 100 == 0 ==> year % 4 == 0
  {
  }

  lemma NextDayCounts(d: Date)
    requires IsDate(d)
    ensures DaysFromCivil(NextDay(d)) == DaysFromCivil(d) + 1
  {
    if d.month == 2 && d.day == MonthLength(d.year, 2) {
      YearLength(d.year - 1);
      assert DayOfYear(NextDay(d)) == 0;
    } else {
      assert MarchYear(NextDay(d)) == MarchYear(d);
      NextInYear(d);
    }
  }

  lemma NextInYear(d: Date)
    requires IsDate(d) && !(d.month == 2 && d.day == MonthLength(d.year, 2))
    ensures DayOfYear(NextDay(d)) == DayOfYear(d) + 1
  {
  }

  lemma EpochIsDayZero()
    ensures DaysFromCivil(Date(1970, 1, 1)) == 0
  {
    assert YearStart(1969) == 4 * 146097 + DaysBefore(369);
    assert DaysBefore(369) == 134774;
  }

  /** `epoch` counts the days of the calendar. */
  lemma {:induction false} CountsDays(days: nat)
    ensures DaysFromCivil(DateOf(days)) == days
  {
    if days == 0 {
      EpochIsDayZero();
    } else {
      CountsDays(days - 1);
      NextDayCounts(DateOf(days - 1));
    }
  }

  // --- A date is read back from its day ---

  /** A century of a 400-year era, and a 4-year cycle and a year of it. */
  function Year(c: int, q: int, s: int): int {
    100 * c + 4 * q + s
  }

  lemma YearParts(yoe: int)
    requires 0 <= yoe < 400
    ensures var c, q, s := yoe / 100, yoe % 100 / 4, yoe % 4;
      0 <= c < 4 && 0 <= q < 25 && 0 <= s < 4 && yoe == Year(c, q, s)
      && DaysBefore(yoe) == 36524 * c + 1461 * q + 365 * s
  {
  }

  /** A year of the era, from a day of it: day 365 only in a year whose February has 29. */
  lemma YearRecovered(yoe: int, doy: int)
    requires 0 <= yoe < 400 && 0 <= doy < 366
    requires doy == 365 ==> IsLeap(yoe + 1)
    ensures YearOfEra(DaysBefore(yoe) + doy) == yoe
    ensures 0 <= DaysBefore(yoe) + doy < 146097
  {
    YearParts(yoe);
    var c, q, s := yoe / 100, yoe % 100 / 4, yoe % 4;
    var doe := DaysBefore(yoe) + doy;
    assert doy == 365 ==> s == 3 && (q < 24 || c == 3);
    Centuries(c, q, s, doy, doe);
    Cycles(c, q, s, doy, doe);
    assert YearOfEra(doe) == yoe;
  }

  lemma Centuries(c: int, q: int, s: int, doy: int, doe: int)
    requires 0 <= c < 4 && 0 <= q < 25 && 0 <= s < 4 && 0 <= doy < 366
    requires doe == 36524 * c + 1461 * q + 365 * s + doy
    requires doy == 365 ==> s == 3 && (q < 24 || c == 3)
    ensures 0 <= doe < 146097
    ensures doe / 36524 - doe / 146096 == c
  {
  }

  /** What 1460 counts too much for the leap days stays inside the year. */
  lemma Cycles(c: int, q: int, s: int, doy: int, doe: int)
    requires 0 <= c < 4 && 0 <= q < 25 && 0 <= s < 4 && 0 <= doy < 366
    requires doe == 36524 * c + 1461 * q + 365 * s + doy
    requires doy == 365 ==> s == 3 && (q < 24 || c == 3)
    ensures 365 * Year(c, q, s) <= doe - doe / 1460 + c < 365 * Year(c, q, s) + 365
  {
  }

  lemma MonthRecovered(mp: int, day: int)
    requires 0 <= mp < 12 && 1 <= day <= 31
    requires mp in {1, 3, 6, 8} ==> day <= 30
    requires mp == 11 ==> day <= 29
    ensures MonthOfYear(MonthsBefore(mp) + day - 1) == mp
  {
  }

  lemma DayIsInYear(d: Date)
    requires IsDate(d)
    ensures 0 <= DayOfYear(d) < 366 && MonthOfYear(DayOfYear(d)) == MarchMonth(d.month)
    ensures DayOfYear(d) == 365 ==> IsLeap(MarchYear(d) + 1)
  {
    MonthRecovered(MarchMonth(d.month), d.day);
  }

  lemma Recovered(d: Date)
    requires IsDate(d)
    ensures Civil(DaysFromCivil(d)) == d
  {
    var era := MarchYear(d) / 400;
    var yoe := MarchYear(d) - era * 400;
    DayIsInYear(d);
    EraLeap(MarchYear(d), era, yoe);
    YearRecovered(yoe, DayOfYear(d));
    var doe := DaysBefore(yoe) + DayOfYear(d);
    EraSplit(DaysFromCivil(d) + 719468, era, doe);
    OfEraIs(d, era, yoe, doe);
  }

  lemma OfEraIs(d: Date, era: int, yoe: int, doe: int)
    requires 1 <= d.month <= 12 && MarchYear(d) == era * 400 + yoe
    requires doe == DaysBefore(yoe) + DayOfYear(d)
    requires YearOfEra(doe) == yoe && MonthOfYear(DayOfYear(d)) == MarchMonth(d.month)
    ensures OfEra(era, doe) == d
  {
  }

  lemma EraSplit(z: int, era: int, doe: int)
    requires z == era * 146097 + doe && 0 <= doe < 146097
    ensures z / 146097 == era
  {
  }

  /** For every day count, `utc_stamp`'s date is the one the calendar reaches. */
  lemma CivilIsTheCalendar(days: nat)
    ensures Civil(days) == DateOf(days)
  {
    CountsDays(days);
    Recovered(DateOf(days));
  }

  /** And `epoch`'s arithmetic takes it back to the same day. */
  lemma EpochInverts(days: nat)
    ensures IsDate(Civil(days)) && DaysFromCivil(Civil(days)) == days
  {
    CivilIsTheCalendar(days);
    CountsDays(days);
  }
}
