/** The stamp as text, `YYYYMMDDTHHMMZ`, and how far it sorts as time does. */
module StampText {
  import opened Machine
  import opened Calendar
  import opened Decimal
  import opened Stamp

  function Text(m: Minute): string
    requires IsTime(m, 0) && 0 <= m.date.year
  {
    Write(Pad(m.date.year, 4), Pad(m.date.month, 2), Pad(m.date.day, 2), Pad(m.hour, 2), Pad(m.minute, 2))
  }

  function Write(year: string, month: string, day: string, hour: string, minute: string): string {
    year + month + day + "T" + hour + minute + "Z"
  }

  lemma {:induction false} YearsFrom1970(days: nat)
    ensures 1970 <= DateOf(days).year
  {
    if days > 0 {
      YearsFrom1970(days - 1);
    }
  }

  lemma StampsAreTimes(seconds: u64)
    ensures IsTime(StampFields(seconds), 0) && 1970 <= StampFields(seconds).date.year
    ensures StampFields(seconds) == MinuteOf(seconds)
  {
    StampIsTheCalendar(seconds);
    MinuteOfIsTime(seconds);
    YearsFrom1970(seconds / 86400);
  }

  /** `utc_stamp`. */
  function UtcStamp(seconds: u64): string {
    StampsAreTimes(seconds);
    Text(StampFields(seconds))
  }

  // --- The date and the clock as one number each ---

  function DateNumber(d: Date): nat
    requires IsDate(d) && 0 <= d.year
  {
    100 * (100 * d.year + d.month) + d.day
  }

  function ClockNumber(m: Minute): nat
    requires IsTime(m, 0)
  {
    100 * m.hour + m.minute
  }

  lemma DateText(year: nat, month: nat, day: nat)
    requires month < 100 && day < 100
    ensures Pad(100 * (100 * year + month) + day, 8) == Pad(year, 4) + Pad(month, 2) + Pad(day, 2)
  {
    PadPair(year, month, 4);
    PadPair(100 * year + month, day, 6);
  }

  lemma TextAsNumbers(m: Minute)
    requires IsTime(m, 0) && 0 <= m.date.year
    ensures Text(m) == Pad(DateNumber(m.date), 8) + ("T" + Pad(ClockNumber(m), 4) + "Z")
  {
    TwoDigits(m);
    FieldsAsNumbers(m.date.year, m.date.month, m.date.day, m.hour, m.minute);
  }

  lemma TwoDigits(m: Minute)
    requires IsTime(m, 0)
    ensures 0 <= m.date.month < 100 && 0 <= m.date.day < 100 && 0 <= m.minute < 100 && 0 <= m.hour
  {
  }

  lemma FieldsAsNumbers(year: nat, month: nat, day: nat, hour: nat, minute: nat)
    requires month < 100 && day < 100 && minute < 100
    ensures Write(Pad(year, 4), Pad(month, 2), Pad(day, 2), Pad(hour, 2), Pad(minute, 2))
         == Pad(100 * (100 * year + month) + day, 8) + ("T" + Pad(100 * hour + minute, 4) + "Z")
  {
    DateText(year, month, day);
    PadPair(hour, minute, 2);
    Joined(Pad(year, 4), Pad(month, 2), Pad(day, 2), Pad(hour, 2), Pad(minute, 2),
           Pad(100 * (100 * year + month) + day, 8), Pad(100 * hour + minute, 4));
  }

  lemma Joined(year: string, month: string, day: string, hour: string, minute: string, date: string, clock: string)
    requires date == year + month + day && clock == hour + minute
    ensures Write(year, month, day, hour, minute) == date + ("T" + clock + "Z")
  {
  }

  lemma TextSpells(m: Minute, date: nat, clock: nat)
    requires IsTime(m, 0) && 0 <= m.date.year
    requires date == 10_000 * m.date.year + 100 * m.date.month + m.date.day && clock == 100 * m.hour + m.minute
    ensures Text(m) == Pad(date, 8) + ("T" + Pad(clock, 4) + "Z")
  {
    TextAsNumbers(m);
    assert date == DateNumber(m.date) && clock == ClockNumber(m);
  }

  /** The stamp is the date as one number of eight digits, a T, the clock as one of four and a Z. */
  lemma StampSpells(seconds: u64, date: nat, clock: nat)
    requires var m := MinuteOf(seconds);
      date == 10_000 * m.date.year + 100 * m.date.month + m.date.day && clock == 100 * m.hour + m.minute
    ensures UtcStamp(seconds) == Pad(date, 8) + ("T" + Pad(clock, 4) + "Z")
  {
    StampsAreTimes(seconds);
    TextSpells(StampFields(seconds), date, clock);
  }

  lemma NextDateNumber(d: Date)
    requires IsDate(d) && 0 <= d.year
    ensures DateNumber(d) < DateNumber(NextDay(d))
  {
  }

  lemma {:induction false} DateNumbersGrow(a: nat, b: nat)
    requires a < b
    ensures 0 <= DateOf(a).year && 0 <= DateOf(b).year
    ensures DateNumber(DateOf(a)) < DateNumber(DateOf(b))
    decreases b
  {
    YearsFrom1970(a);
    YearsFrom1970(b - 1);
    YearsFrom1970(b);
    NextDateNumber(DateOf(b - 1));
    if a < b - 1 {
      DateNumbersGrow(a, b - 1);
    }
  }

  lemma EightDigits(d: Date)
    requires IsDate(d) && 0 <= d.year
    ensures DateNumber(d) < Pow10(8) <==> d.year <= 9999
  {
    Hundred();
    assert Pow10(8) == 100_000_000;
  }

  lemma Hundred()
    ensures Pow10(4) == 10_000 && Pow10(8) == 100_000_000
  {
    assert Pow10(2) == 100;
    assert Pow10(4) == 100 * Pow10(2);
    assert Pow10(6) == 100 * Pow10(4);
    assert Pow10(8) == 100 * Pow10(6);
  }

  // --- The order ---

  lemma {:induction false} NotBeforeItself(s: string)
    ensures !Before(s, s)
  {
    if s != [] {
      NotBeforeItself(s[1..]);
    }
  }

  lemma ClockSorts(a: Minute, b: Minute)
    requires IsTime(a, 0) && IsTime(b, 0) && ClockNumber(a) < ClockNumber(b)
    ensures Before("T" + Pad(ClockNumber(a), 4) + "Z", "T" + Pad(ClockNumber(b), 4) + "Z")
    ensures !Before("T" + Pad(ClockNumber(b), 4) + "Z", "T" + Pad(ClockNumber(a), 4) + "Z")
  {
    Hundred();
    var x, y := Pad(ClockNumber(a), 4), Pad(ClockNumber(b), 4);
    PadSorts(ClockNumber(a), ClockNumber(b), 4);
    StartDecides(x, y, "Z", "Z");
    SameStart("T", x + "Z", y + "Z");
    SameStart("T", y + "Z", x + "Z");
    assert "T" + (x + "Z") == "T" + x + "Z" && "T" + (y + "Z") == "T" + y + "Z";
  }

  /** An earlier minute stamps an earlier string, through the year 9999. */
  lemma EarlierSorts(a: u64, b: u64)
    requires a / 60 < b / 60 && StampFields(b).date.year <= 9999
    ensures Before(UtcStamp(a), UtcStamp(b)) && !Before(UtcStamp(b), UtcStamp(a))
  {
    StampsAreTimes(a);
    StampsAreTimes(b);
    var m, n := StampFields(a), StampFields(b);
    TextAsNumbers(m);
    TextAsNumbers(n);
    var x, y := Pad(DateNumber(m.date), 8), Pad(DateNumber(n.date), 8);
    var p, q := "T" + Pad(ClockNumber(m), 4) + "Z", "T" + Pad(ClockNumber(n), 4) + "Z";
    EightDigits(n.date);
    if a / 86400 < b / 86400 {
      DateNumbersGrow(a / 86400, b / 86400);
      PadSorts(DateNumber(m.date), DateNumber(n.date), 8);
      StartDecides(x, y, p, q);
    } else {
      SameDay(a, b);
      ClockSorts(m, n);
      SameStart(x, p, q);
      SameStart(x, q, p);
    }
  }

  lemma SameDay(a: u64, b: u64)
    requires a / 60 < b / 60 && a / 86400 >= b / 86400
    ensures a / 86400 == b / 86400
    ensures 100 * (a % 86400 / 3600) + a % 86400 % 3600 / 60 < 100 * (b % 86400 / 3600) + b % 86400 % 3600 / 60
  {
    TimeOfDay(a);
    TimeOfDay(b);
  }

  lemma SameMinute(a: u64, b: u64)
    requires a / 60 == b / 60
    ensures UtcStamp(a) == UtcStamp(b)
  {
    StampsAreTimes(a);
    StampsAreTimes(b);
    ByMinutes(a);
    ByMinutes(b);
  }

  /** A time's minute is read from its minutes alone. */
  lemma ByMinutes(seconds: nat)
    ensures seconds / 86400 == seconds / 60 / 1440
    ensures seconds % 86400 / 3600 == seconds / 60 % 1440 / 60
    ensures seconds % 86400 % 3600 / 60 == seconds / 60 % 60
  {
    var m := seconds / 60;
    assert m == m / 1440 * 1440 + m % 1440 / 60 * 60 + m % 60;
    Clock(seconds, m / 1440, m % 1440 / 60, m % 60, seconds % 60);
  }

  /**
   Through the year 9999 the stamp is fourteen characters, its string order is the
   order of the minutes, and two stamps are equal exactly when the minutes are.
   */
  lemma StampsSort(a: u64, b: u64)
    requires StampFields(a).date.year <= 9999 && StampFields(b).date.year <= 9999
    ensures |UtcStamp(a)| == 14
    ensures Before(UtcStamp(a), UtcStamp(b)) <==> a / 60 < b / 60
    ensures UtcStamp(a) == UtcStamp(b) <==> a / 60 == b / 60
  {
    StampsAreTimes(a);
    TextAsNumbers(StampFields(a));
    EightDigits(StampFields(a).date);
    PadWidth(DateNumber(StampFields(a).date), 8);
    Hundred();
    PadWidth(ClockNumber(StampFields(a)), 4);
    NotBeforeItself(UtcStamp(a));
    if a / 60 < b / 60 {
      EarlierSorts(a, b);
    } else if b / 60 < a / 60 {
      EarlierSorts(b, a);
    } else {
      SameMinute(a, b);
    }
  }

  // --- Where it stops ---

  /** No two times up to `seconds` stamp in the wrong order. */
  ghost predicate SortsUpTo(seconds: u64) {
    forall a: u64, b: u64 | a <= b <= seconds :: !Before(UtcStamp(b), UtcStamp(a))
  }

  /** The first second of the year 10000. */
  const TEN_THOUSAND: u64 := 253_402_300_800

  lemma TenThousand()
    ensures StampFields(TEN_THOUSAND) == Minute(Date(10000, 1, 1), 0, 0)
    ensures StampFields(TEN_THOUSAND - 1) == Minute(Date(9999, 12, 31), 23, 59)
  {
    var last, first := Date(9999, 12, 31), Date(10000, 1, 1);
    LastDayOf9999(last);
    NextDayCounts(last);
    StampWritesTheEpoch(Minute(last, 23, 59), 59);
    StampWritesTheEpoch(Minute(first, 0, 0), 0);
  }

  lemma LastDayOf9999(d: Date)
    requires d == Date(9999, 12, 31)
    ensures DaysFromCivil(d) == 2932896
  {
    assert DaysBefore(399) == 145731;
    assert YearStart(9999) == 24 * 146097 + DaysBefore(399);
    assert DayOfYear(d) == 305;
  }

  /** A later time is of no earlier year. */
  lemma YearsGrow(a: u64, b: u64)
    requires a <= b
    ensures StampFields(a).date.year <= StampFields(b).date.year
  {
    StampsAreTimes(a);
    StampsAreTimes(b);
    if a / 86400 < b / 86400 {
      DateNumbersGrow(a / 86400, b / 86400);
    }
  }

  /** The stamp of the year 10000 is before the one of the minute before it. */
  lemma TenThousandMisplaced()
    ensures Before(UtcStamp(TEN_THOUSAND), UtcStamp(TEN_THOUSAND - 1))
  {
    TenThousand();
    OneDigit(100, 0, 3);
    PadFirst(10000, 4);
    PadFirst(9999, 4);
  }

  /** A padded number starts with its leading digit. */
  lemma PadFirst(n: nat, width: nat)
    requires width == 4 && (n == 10000 || n == 9999)
    ensures Pad(n, width)[0] == if n == 10000 then '1' else '9'
  {
    assert Pad(n, 4) == Pad(n / 10, 3) + [Digit(n % 10)];
    assert Pad(n / 10, 3) == Pad(n / 100, 2) + [Digit(n / 10 % 10)];
    assert Pad(n / 100, 2) == Pad(n / 1000, 1) + [Digit(n / 100 % 10)];
    if n == 10000 {
      assert Pad(10, 1) == Pad(1, 0) + [Digit(0)];
    }
  }

  /** So the stamps up to a time sort as time does exactly when its year has four digits. */
  lemma SortsExactly(seconds: u64)
    ensures SortsUpTo(seconds) <==> StampFields(seconds).date.year <= 9999
  {
    TenThousand();
    if StampFields(seconds).date.year <= 9999 {
      forall a: u64, b: u64 | a <= b <= seconds ensures !Before(UtcStamp(b), UtcStamp(a)) {
        YearsGrow(a, seconds);
        YearsGrow(b, seconds);
        StampsSort(b, a);
      }
    } else {
      if seconds < TEN_THOUSAND {
        YearsGrow(seconds, TEN_THOUSAND - 1);
      }
      TenThousandMisplaced();
    }
  }
}
