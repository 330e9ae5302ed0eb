/**
 `utc_stamp` in the machine's 64-bit arithmetic, and as text that should sort as
 time does; and `epoch` on the fields of an RFC 3339 time (section 5.6).
 */
module Stamp {
  import opened Machine
  import opened Calendar

  /** A time to the minute, as the stamp writes it. */
  datatype Minute = Minute(date: Date, hour: int, minute: int)

  // --- utc_stamp, every operation wrapping ---

  function WrappingAdd(a: u64, b: u64): u64 {
    (a + b) % U64_LIMIT
  }

  function WrappingSub(a: u64, b: u64): u64 {
    (a - b) % U64_LIMIT
  }

  function WrappingMul(a: u64, b: u64): u64 {
    (a * b) % U64_LIMIT
  }

  /** The date of a day count, step by step. */
  function WrappingDayOfEra(z: u64): u64 {
    WrappingSub(z, WrappingMul(z / 146097, 146097))
  }

  function WrappingYearOfEra(doe: u64): u64 {
    WrappingSub(WrappingAdd(WrappingSub(doe, doe / 1460), doe / 36524), doe / 146096) / 365
  }

  function WrappingDayOfYear(doe: u64, yoe: u64): u64 {
    WrappingSub(doe, WrappingSub(WrappingAdd(WrappingMul(yoe, 365), yoe / 4), yoe / 100))
  }

  function WrappingMonthOfYear(doy: u64): u64 {
    WrappingAdd(WrappingMul(doy, 5), 2) / 153
  }

  function WrappingDay(doy: u64, mp: u64): u64 {
    WrappingAdd(WrappingSub(doy, WrappingAdd(WrappingMul(mp, 153), 2) / 5), 1)
  }

  function WrappingMonth(mp: u64): u64 {
    if mp < 10 then WrappingAdd(mp, 3) else WrappingSub(mp, 9)
  }

  function WrappingYear(yoe: u64, era: u64, month: u64): u64 {
    WrappingAdd(WrappingAdd(yoe, WrappingMul(era, 400)), if month <= 2 then 1 else 0)
  }

  function WrappingOfEra(era: u64, doe: u64): Date {
    var yoe := WrappingYearOfEra(doe);
    var doy := WrappingDayOfYear(doe, yoe);
    var mp := WrappingMonthOfYear(doy);
    var month := WrappingMonth(mp);
    Date(WrappingYear(yoe, era, month), month, WrappingDay(doy, mp))
  }

  function WrappingDate(days: u64): Date {
    var z := WrappingAdd(days, 719468);
    WrappingOfEra(z / 146097, WrappingDayOfEra(z))
  }

  function StampFields(seconds: u64): Minute {
    Minute(WrappingDate(seconds / 86400), seconds % 86400 / 3600, seconds % 86400 % 3600 / 60)
  }

  // --- No step wraps ---

  lemma Small(x: int)
    requires 0 <= x < U64_LIMIT
    ensures x % U64_LIMIT == x
  {
  }

  /** What 64 bits hold without a sign: a result that is this did not wrap. */
  predicate Fits(x: int) {
    0 <= x < U64_LIMIT
  }

  predicate EraFits(z: int) {
    Fits(z / 146097 * 146097) && Fits(z - z / 146097 * 146097)
  }

  predicate YearOfEraFits(doe: int) {
    && Fits(doe - doe / 1460) && Fits(doe - doe / 1460 + doe / 36524)
    && Fits(doe - doe / 1460 + doe / 36524 - doe / 146096)
  }

  predicate DayOfYearFits(doe: int, yoe: int) {
    && Fits(yoe * 365) && Fits(yoe * 365 + yoe / 4) && Fits(yoe * 365 + yoe / 4 - yoe / 100)
    && Fits(doe - DaysBefore(yoe))
  }

  predicate MonthOfYearFits(doy: int) {
    Fits(doy * 5) && Fits(doy * 5 + 2)
  }

  predicate DayFits(doy: int, mp: int) {
    && Fits(mp * 153) && Fits(mp * 153 + 2) && Fits(doy - MonthsBefore(mp)) && Fits(doy - MonthsBefore(mp) + 1)
    && Fits(if mp < 10 then mp + 3 else mp - 9)
  }

  predicate YearFits(yoe: int, era: int) {
    Fits(era * 400) && Fits(yoe + era * 400) && Fits(yoe + era * 400 + 1)
  }

  predicate OfEraFits(era: int, doe: int) {
    var yoe := YearOfEra(doe);
    var doy := doe - DaysBefore(yoe);
    && YearOfEraFits(doe) && DayOfYearFits(doe, yoe) && MonthOfYearFits(doy)
    && DayFits(doy, MonthOfYear(doy)) && YearFits(yoe, era)
  }

  /** Every sum, product and difference of `utc_stamp` on this day count, in turn, fits. */
  predicate NothingWraps(days: int) {
    var z := days + 719468;
    Fits(z) && EraFits(z) && OfEraFits(z / 146097, z - z / 146097 * 146097)
  }

  lemma EraExact(z: u64)
    ensures EraFits(z)
    ensures WrappingDayOfEra(z) == z - z / 146097 * 146097
  {
    Small(z / 146097 * 146097);
    Small(z - z / 146097 * 146097);
  }

  lemma YearExact(doe: u64)
    requires doe < 146097
    ensures WrappingYearOfEra(doe) == YearOfEra(doe) && YearOfEraFits(doe)
  {
    Small(doe - doe / 1460);
    Small(doe - doe / 1460 + doe / 36524);
    Small(doe - doe / 1460 + doe / 36524 - doe / 146096);
  }

  lemma DayOfYearExact(doe: u64, yoe: u64)
    requires doe < 146097 && yoe < 400 && DaysBefore(yoe) <= doe
    ensures WrappingDayOfYear(doe, yoe) == doe - DaysBefore(yoe) && DayOfYearFits(doe, yoe)
  {
    Small(yoe * 365);
    Small(yoe * 365 + yoe / 4);
    Small(DaysBefore(yoe));
    Small(doe - DaysBefore(yoe));
  }

  lemma MonthExact(doy: u64)
    requires doy < 366
    ensures WrappingMonthOfYear(doy) == MonthOfYear(doy) && MonthOfYearFits(doy)
  {
    Small(doy * 5);
    Small(doy * 5 + 2);
  }

  lemma DayExact(doy: u64, mp: u64)
    requires doy < 366 && mp < 12 && MonthsBefore(mp) <= doy
    ensures WrappingDay(doy, mp) == doy - MonthsBefore(mp) + 1
    ensures WrappingMonth(mp) == if mp < 10 then mp + 3 else mp - 9
    ensures DayFits(doy, mp)
  {
    Small(mp * 153);
    Small(mp * 153 + 2);
    Small(doy - MonthsBefore(mp));
    Small(doy - MonthsBefore(mp) + 1);
  }

  lemma YearIsExact(yoe: u64, era: u64)
    requires yoe < 400 && era * 400 + 401 < U64_LIMIT
    ensures YearFits(yoe, era)
    ensures forall month: u64 :: WrappingYear(yoe, era, month) == yoe + era * 400 + if month <= 2 then 1 else 0
  {
    Small(era * 400);
    Small(yoe + era * 400);
    Small(yoe + era * 400 + 1);
  }

  /** The minute a time is in, by the calendar alone. */
  function MinuteOf(seconds: nat): Minute {
    Minute(DateOf(seconds / 86400), seconds % 86400 / 3600, seconds % 86400 % 3600 / 60)
  }

  /** The parts of a day of an era are in range, so nothing subtracted goes below zero. */
  predicate PartsInRange(doe: int) {
    var yoe := YearOfEra(doe);
    var doy := doe - DaysBefore(yoe);
    && 0 <= doe < 146097
    && 0 <= yoe < 400
    && 0 <= doy < 366
    && 0 <= MonthOfYear(doy) < 12
    && MonthsBefore(MonthOfYear(doy)) <= doy
  }

  lemma InRange(days: nat)
    ensures PartsInRange(days + 719468 - (days + 719468) / 146097 * 146097)
  {
    var d := DateOf(days);
    CountsDays(days);
    DayIsInYear(d);
    var era := MarchYear(d) / 400;
    var yoe := MarchYear(d) - era * 400;
    EraLeap(MarchYear(d), era, yoe);
    var doe := DaysBefore(yoe) + DayOfYear(d);
    YearRecovered(yoe, DayOfYear(d));
    EraSplit(days + 719468, era, doe);
    PartsOf(d, yoe, doe);
  }

  lemma PartsOf(d: Date, yoe: int, doe: int)
    requires IsDate(d) && 0 <= yoe < 400 && 0 <= doe < 146097
    requires doe == DaysBefore(yoe) + DayOfYear(d) && YearOfEra(doe) == yoe
    requires 0 <= DayOfYear(d) < 366 && MonthOfYear(DayOfYear(d)) == MarchMonth(d.month)
    ensures PartsInRange(doe)
  {
  }

  lemma OfEraExact(era: u64, doe: u64)
    requires PartsInRange(doe) && era * 400 + 401 < U64_LIMIT
    ensures WrappingOfEra(era, doe) == OfEra(era, doe) && OfEraFits(era, doe)
  {
    YearExact(doe);
    var yoe := YearOfEra(doe);
    DayOfYearExact(doe, yoe);
    var doy := doe - DaysBefore(yoe);
    MonthExact(doy);
    DayExact(doy, MonthOfYear(doy));
    YearIsExact(yoe, era);
  }

  lemma DateIsExact(days: u64)
    requires days <= U64_LIMIT / 86400
    ensures WrappingDate(days) == Civil(days) && NothingWraps(days)
  {
    Small(days + 719468);
    InRange(days);
    EraDateExact(days + 719468);
  }

  lemma EraDateExact(z: u64)
    requires z <= U64_LIMIT / 86400 + 719468 && PartsInRange(z - z / 146097 * 146097)
    ensures WrappingOfEra(z / 146097, WrappingDayOfEra(z)) == OfEra(z / 146097, z - z / 146097 * 146097)
    ensures EraFits(z) && OfEraFits(z / 146097, z - z / 146097 * 146097)
  {
    EraExact(z);
    EraSmall(z, z / 146097);
    OfEraExact(z / 146097, z - z / 146097 * 146097);
  }

  lemma EraSmall(z: nat, era: nat)
    requires z <= U64_LIMIT / 86400 + 719468 && era == z / 146097
    ensures era * 400 + 401 < U64_LIMIT
  {
  }

  /** No operation of `utc_stamp` wraps, whatever the seconds: it is the calendar's minute. */
  lemma StampIsTheCalendar(seconds: u64)
    ensures NothingWraps(seconds / 86400)
    ensures StampFields(seconds) == MinuteOf(seconds)
  {
    DateIsExact(seconds / 86400);
    CivilIsTheCalendar(seconds / 86400);
  }

  // --- epoch, every operation wrapping ---

  function SignedDayOfEra(yoe: i64, doy: i64): i64 {
    Signed(Signed(Signed(Signed(yoe * 365) + yoe / 4) - yoe / 100) + doy)
  }

  function SignedYearStart(era: i64, doe: i64): i64 {
    Signed(Signed(Signed(era * 146097) + doe) - 719468)
  }

  function SignedDayOfYear(month: i64, day: i64): i64 {
    var mp := if month > 2 then Signed(month - 3) else Signed(month + 9);
    Signed(Signed((Signed(Signed(mp * 153) + 2)) / 5 + day) - 1)
  }

  function SignedDaysOfYear(y: i64, doy: i64): i64 {
    var era: i64 := y / 400;
    SignedYearStart(era, SignedDayOfEra(Signed(y - Signed(era * 400)), doy))
  }

  function SignedDays(year: i64, month: i64, day: i64): i64 {
    SignedDaysOfYear(if month <= 2 then Signed(year - 1) else year, SignedDayOfYear(month, day))
  }

  function Epoch(year: i64, month: i64, day: i64, hour: i64, minute: i64, second: i64): i64 {
    SignedSeconds(SignedDays(year, month, day), hour, minute, second)
  }

  function SignedSeconds(days: i64, hour: i64, minute: i64, second: i64): i64 {
    Signed(Signed(Signed(Signed(days * 86400) + Signed(hour * 3600)) + Signed(minute * 60)) + second)
  }

  lemma SignedSmall(x: int)
    requires -I64_LIMIT <= x < I64_LIMIT
    ensures Signed(x) == x
  {
  }

  const YEARS := 1_000_000_000_000

  lemma SignedDayOfYearExact(month: i64, day: i64)
    requires 1 <= month <= 12 && 1 <= day <= 31
    ensures SignedDayOfYear(month, day) == MonthsBefore(MarchMonth(month)) + day - 1
  {
    SignedSmall(month - 3);
    SignedSmall(month + 9);
    var mp := MarchMonth(month);
    SignedSmall(mp * 153);
    SignedSmall(mp * 153 + 2);
    SignedSmall(MonthsBefore(mp) + day);
    SignedSmall(MonthsBefore(mp) + day - 1);
  }

  lemma SignedDayOfEraExact(yoe: i64, doy: i64)
    requires 0 <= yoe < 400 && 0 <= doy < 400
    ensures SignedDayOfEra(yoe, doy) == DaysBefore(yoe) + doy
  {
    SignedSmall(yoe * 365);
    SignedSmall(yoe * 365 + yoe / 4);
    SignedSmall(DaysBefore(yoe));
    SignedSmall(DaysBefore(yoe) + doy);
  }

  lemma SignedYearStartExact(era: i64, doe: i64)
    requires -YEARS <= era <= YEARS && 0 <= doe < 200000
    ensures SignedYearStart(era, doe) == era * 146097 + doe - 719468
  {
    SignedSmall(era * 146097);
    SignedSmall(era * 146097 + doe);
    SignedSmall(era * 146097 + doe - 719468);
  }

  lemma SignedDaysOfYearExact(y: i64, doy: i64)
    requires -YEARS <= y <= YEARS && 0 <= doy < 366
    ensures SignedDaysOfYear(y, doy) == YearStart(y) + doy - 719468
  {
    var era := y / 400;
    SignedSmall(era * 400);
    SignedSmall(y - era * 400);
    SignedDayOfEraExact(y - era * 400, doy);
    SignedYearStartExact(era, DaysBefore(y - era * 400) + doy);
  }

  lemma SignedDaysExact(d: Date)
    requires IsDate(d) && -YEARS < d.year < YEARS
    ensures SignedDays(d.year, d.month, d.day) == DaysFromCivil(d)
  {
    SignedSmall(d.year - 1);
    SignedDayOfYearExact(d.month, d.day);
    DayIsInYear(d);
    SignedDaysOfYearExact(MarchYear(d), DayOfYear(d));
  }

  function SecondsOf(m: Minute, second: int): int {
    DaysFromCivil(m.date) * 86400 + m.hour * 3600 + m.minute * 60 + second
  }

  ghost predicate IsTime(m: Minute, second: int) {
    IsDate(m.date) && 0 <= m.hour < 24 && 0 <= m.minute < 60 && 0 <= second < 60
  }

  /** A date whose seconds 64 bits hold is within the years whose days `epoch` counts without wrapping. */
  lemma YearBound(d: Date)
    requires IsDate(d) && -I64_LIMIT - 86400 <= DaysFromCivil(d) * 86400 < I64_LIMIT
    ensures -YEARS < d.year < YEARS
  {
    var year := MarchYear(d);
    var era := year / 400;
    DayIsInYear(d);
    assert YearStart(year) == era * 146097 + DaysBefore(year - era * 400);
    assert 0 <= DaysBefore(year - era * 400) <= 146097;
  }

  /** The seconds of a time are 64 bits, before 1970 too. */
  predicate IsHeld(seconds: int) {
    -I64_LIMIT <= seconds < I64_LIMIT
  }

  /**
   On every valid time whose year the code can read, `epoch` is the calendar's
   seconds exactly when 64 bits hold those; a step that wraps on the way there is
   undone by the next.
   */
  lemma EpochIsExact(m: Minute, second: int)
    requires IsTime(m, second) && IsHeld(m.date.year)
    ensures Epoch(m.date.year, m.date.month, m.date.day, m.hour, m.minute, second) == SecondsOf(m, second)
            <==> IsHeld(SecondsOf(m, second))
  {
    if IsHeld(SecondsOf(m, second)) {
      YearBound(m.date);
      SignedDaysExact(m.date);
      SignedSecondsSum(DaysFromCivil(m.date), m.hour, m.minute, second);
      SignedSmall(SecondsOf(m, second));
    }
  }

  /** A year `epoch` does not read is one of no time that 64 bits hold. */
  lemma HeldYear(m: Minute, second: int)
    requires IsTime(m, second) && IsHeld(SecondsOf(m, second))
    ensures IsHeld(m.date.year)
  {
    YearBound(m.date);
  }

  /** Cutting early changes nothing of a sum cut at the end. */
  lemma CutSum(a: int, b: int)
    ensures Signed(Signed(a) + b) == Signed(a + b)
  {
    CutOff(a);
    CutOff(a + b);
    CutOff(Signed(a) + b);
  }

  lemma CutOff(x: int)
    ensures (x - Signed(x)) % U64_LIMIT == 0
  {
  }

  lemma SignedSecondsSum(days: i64, hour: i64, minute: i64, second: i64)
    requires 0 <= hour < 24 && 0 <= minute < 60 && 0 <= second < 60
    ensures SignedSeconds(days, hour, minute, second) == Signed(days * 86400 + hour * 3600 + minute * 60 + second)
  {
    SignedSmall(hour * 3600);
    SignedSmall(minute * 60);
    CutSum(days * 86400, hour * 3600);
    CutSum(days * 86400 + hour * 3600, minute * 60);
    CutSum(days * 86400 + hour * 3600 + minute * 60, second);
  }

  lemma MinuteOfIsTime(seconds: nat)
    ensures IsTime(MinuteOf(seconds), seconds % 60)
    ensures SecondsOf(MinuteOf(seconds), seconds % 60) == seconds
    ensures DaysFromCivil(MinuteOf(seconds).date) == seconds / 86400
  {
    CountsDays(seconds / 86400);
    TimeOfDay(seconds);
  }

  lemma TimeOfDay(seconds: nat)
    ensures seconds / 86400 * 86400 + seconds % 86400 / 3600 * 3600
            + seconds % 86400 % 3600 / 60 * 60 + seconds % 60 == seconds
    ensures 0 <= seconds % 86400 / 3600 < 24 && 0 <= seconds % 86400 % 3600 / 60 < 60
  {
    var h := seconds % 86400;
    assert h % 3600 % 60 == seconds % 60;
  }

  /** Reading back what was stamped gives the seconds again, for every 63-bit time. */
  lemma EpochReadsTheStamp(seconds: u64)
    requires seconds < I64_LIMIT
    ensures var m := StampFields(seconds);
      && IsTime(m, seconds % 60)
      && IsHeld(m.date.year)
      && Epoch(m.date.year, m.date.month, m.date.day, m.hour, m.minute, seconds % 60) == seconds
  {
    StampIsTheCalendar(seconds);
    MinuteOfIsTime(seconds);
    HeldYear(MinuteOf(seconds), seconds % 60);
    EpochIsExact(MinuteOf(seconds), seconds % 60);
  }

  /** And stamping what was read gives the time again, for every valid time from 1970 on. */
  lemma StampWritesTheEpoch(m: Minute, second: int)
    requires IsTime(m, second) && 0 <= DaysFromCivil(m.date) && SecondsOf(m, second) < I64_LIMIT
    ensures StampFields(SecondsOf(m, second)) == m
  {
    var seconds := SecondsOf(m, second);
    StampIsTheCalendar(seconds);
    assert seconds / 86400 == DaysFromCivil(m.date);
    CivilIsTheCalendar(seconds / 86400);
    Recovered(m.date);
    Clock(seconds, DaysFromCivil(m.date), m.hour, m.minute, second);
  }

  lemma Clock(seconds: int, days: int, hour: int, minute: int, second: int)
    requires 0 <= hour < 24 && 0 <= minute < 60 && 0 <= second < 60
    requires seconds == days * 86400 + hour * 3600 + minute * 60 + second
    ensures seconds / 86400 == days && seconds % 86400 / 3600 == hour && seconds % 86400 % 3600 / 60 == minute
  {
  }
}
