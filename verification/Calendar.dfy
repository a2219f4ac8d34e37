/** The proleptic Gregorian calendar of crates/msgriver-connectors/src/retry_after.rs: the
    era formula against a calendar that only knows how to step to the next day. */
module Calendar {

  datatype Date = Date(year: int, month: int, day: int)

  // ---------- The program's functions ----------

  predicate IsLeapYear(year: int) {
    year % 4 == 0 && (year % 100 != 0 || year % 400 == 0)
  }

  function DaysInMonth(year: int, month: int): int {
    if month in {1, 3, 5, 7, 8, 10, 12} then 31
    else if month in {4, 6, 9, 11} then 30
    else if month == 2 then if IsLeapYear(year) then 29 else 28
    else 0
  }

  /** Rust's `/` truncates toward zero; Dafny's rounds down for a positive divisor. */
  function TruncDiv(a: int, b: int): int
    requires b > 0
  {
    if a >= 0 then a / b else -(-a / b)
  }

  /** The day count of `epoch_millis`. */
  function EraDays(d: Date): int {
    var y := if d.month <= 2 then d.year - 1 else d.year;
    var era := TruncDiv(if y >= 0 then y else y - 399, 400);
    var yearOfEra := y - era * 400;
    var monthFromMarch := if d.month > 2 then d.month - 3 else d.month + 9;
    var dayOfYear := (153 * monthFromMarch + 2) / 5 + d.day - 1;
    var dayOfEra := yearOfEra * 365 + yearOfEra / 4 - yearOfEra / 100 + dayOfYear;
    era * 146_097 + dayOfEra - 719_468
  }

  // ---------- The stepping calendar ----------

  predicate Valid(d: Date) {
    0 <= d.year && 1 <= d.month <= 12 && 1 <= d.day <= DaysInMonth(d.year, d.month)
  }

  function NextDay(d: Date): Date {
    if d.day < DaysInMonth(d.year, d.month) then d.(day := d.day + 1)
    else if d.month < 12 then Date(d.year, d.month + 1, 1)
    else Date(d.year + 1, 1, 1)
  }

  /** `n` steps from `d`. */
  function Stepped(d: Date, n: nat): Date {
    if n == 0 then d else NextDay(Stepped(d, n - 1))
  }

  const EPOCH := Date(1970, 1, 1)
  const YEAR_ZERO := Date(0, 1, 1)
  const YEAR_ZERO_DAYS: int := -719_528

  // ---------- The formula is the step count ----------

  /** Days before 1 March of year `y`, up to a constant. */
  function MarchDays(y: int): int {
    var era := y / 400;
    var yearOfEra := y - era * 400;
    era * 146_097 + yearOfEra * 365 + yearOfEra / 4 - yearOfEra / 100
  }

  function MarchYear(d: Date): int { if d.month <= 2 then d.year - 1 else d.year }
  function MarchMonth(d: Date): int { if d.month > 2 then d.month - 3 else d.month + 9 }
  function MarchDay(d: Date): int { (153 * MarchMonth(d) + 2) / 5 + d.day - 1 }

  lemma EraFloors(y: int)
    requires y >= -1
    ensures TruncDiv(if y >= 0 then y else y - 399, 400) == y / 400
  {
  }

  lemma EraByMarch(d: Date)
    requires Valid(d)
    ensures EraDays(d) == MarchDays(MarchYear(d)) + MarchDay(d) - 719_468
  {
    EraFloors(MarchYear(d));
  }

  lemma LeapPeriod(era: int, r: int)
    ensures IsLeapYear(400 * era + r) == IsLeapYear(r)
  {
    ModFour(100 * era, r);
    ModHundred(4 * era, r);
    ModFourHundred(era, r);
  }

  lemma ModFour(a: int, r: int)
    ensures (4 * a + r) % 4 == r % 4
  {
  }

  lemma ModHundred(a: int, r: int)
    ensures (100 * a + r) % 100 == r % 100
  {
  }

  lemma ModFourHundred(a: int, r: int)
    ensures (400 * a + r) % 400 == r % 400
  {
  }

  function YearOfEraDays(r: int): int { r * 365 + r / 4 - r / 100 }

  lemma QuarterStep(r: int)
    requires 0 <= r < 399
    ensures (r + 1) / 4 - r / 4 == if (r + 1) % 4 == 0 then 1 else 0
    ensures (r + 1) / 100 - r / 100 == if (r + 1) % 100 == 0 then 1 else 0
  {
  }

  lemma YearOfEraStep(r: int)
    requires 0 <= r < 399
    ensures YearOfEraDays(r + 1) - YearOfEraDays(r) == if IsLeapYear(r + 1) then 366 else 365
  {
    QuarterStep(r);
  }

  /** From one March to the next there are 365 days, or 366 around a 29 February. */
  lemma MarchStep(y: int)
    requires y >= -1
    ensures MarchDays(y + 1) - MarchDays(y) == if IsLeapYear(y + 1) then 366 else 365
  {
    var era, r := y / 400, y % 400;
    assert MarchDays(y) == era * 146_097 + YearOfEraDays(r);
    if r < 399 {
      assert (y + 1) / 400 == era && y + 1 == 400 * era + (r + 1);
      LeapPeriod(era, r + 1);
      YearOfEraStep(r);
    } else {
      assert (y + 1) / 400 == era + 1 && y + 1 == 400 * (era + 1) + 0;
      LeapPeriod(era + 1, 0);
    }
  }

  /** Month ends: the next month of the March year starts where this one stops. */
  lemma MonthEnd(d: Date)
    requires Valid(d) && d.month != 2 && d.day == DaysInMonth(d.year, d.month)
    ensures MarchYear(NextDay(d)) == MarchYear(d) && MarchDay(NextDay(d)) == MarchDay(d) + 1
  {
    var m := MarchMonth(d);
    assert MarchMonth(NextDay(d)) == m + 1 && d.month == if m < 10 then m + 3 else m - 9;
  }

  lemma FebruaryEnd(d: Date)
    requires Valid(d) && d.month == 2 && d.day == DaysInMonth(d.year, 2)
    ensures MarchYear(NextDay(d)) == MarchYear(d) + 1 && MarchDay(NextDay(d)) == 0
    ensures MarchDay(d) + 1 == MarchDays(MarchYear(d) + 1) - MarchDays(MarchYear(d))
  {
    MarchStep(d.year - 1);
  }

  lemma NextIsValid(d: Date)
    requires Valid(d)
    ensures Valid(NextDay(d))
  {
  }

  lemma MarchNext(d: Date)
    requires Valid(d)
    ensures MarchDays(MarchYear(NextDay(d))) + MarchDay(NextDay(d)) == MarchDays(MarchYear(d)) + MarchDay(d) + 1
  {
    if d.day == DaysInMonth(d.year, d.month) {
      if d.month == 2 {
        FebruaryEnd(d);
      } else {
        MonthEnd(d);
      }
    }
  }

  /** The formula advances by one with every step. */
  lemma EraStep(d: Date)
    requires Valid(d)
    ensures Valid(NextDay(d)) && EraDays(NextDay(d)) == EraDays(d) + 1
  {
    NextIsValid(d);
    EraByMarch(d);
    EraByMarch(NextDay(d));
    MarchNext(d);
  }

  lemma {:induction false} SteppedFromYearZero(n: nat)
    ensures Valid(Stepped(YEAR_ZERO, n)) && EraDays(Stepped(YEAR_ZERO, n)) == YEAR_ZERO_DAYS + n
  {
    if n > 0 {
      SteppedFromYearZero(n - 1);
      EraStep(Stepped(YEAR_ZERO, n - 1));
    }
  }

  // ---------- The formula determines the date ----------

  lemma {:induction false} MarchDaysGrow(x: int, y: int)
    requires -1 <= x < y
    ensures MarchDays(x + 1) <= MarchDays(y)
    decreases y - x
  {
    if x + 1 < y {
      MarchDaysGrow(x, y - 1);
      MarchStep(y - 1);
    }
  }

  lemma MarchDayRange(d: Date)
    requires Valid(d)
    ensures 0 <= MarchDay(d) < MarchDays(MarchYear(d) + 1) - MarchDays(MarchYear(d))
  {
    MarchStep(MarchYear(d));
  }

  lemma EraOrder(a: Date, b: Date)
    requires Valid(a) && Valid(b) && MarchYear(a) < MarchYear(b)
    ensures EraDays(a) < EraDays(b)
  {
    EraByMarch(a);
    EraByMarch(b);
    MarchDayRange(a);
    MarchDayRange(b);
    MarchDaysGrow(MarchYear(a), MarchYear(b));
  }

  /** Within a March year, months come in order and do not overlap. */
  lemma MonthsInOrder(a: Date, b: Date)
    requires Valid(a) && Valid(b) && MarchYear(a) == MarchYear(b) && MarchMonth(a) < MarchMonth(b)
    ensures MarchDay(a) < MarchDay(b)
  {
    var m := MarchMonth(a);
    assert a.month == if m < 10 then m + 3 else m - 9;
    assert (153 * (m + 1) + 2) / 5 - (153 * m + 2) / 5 >= DaysInMonth(a.year, a.month);
  }

  lemma EraInjective(a: Date, b: Date)
    requires Valid(a) && Valid(b) && EraDays(a) == EraDays(b)
    ensures a == b
  {
    if MarchYear(a) < MarchYear(b) {
      EraOrder(a, b);
    } else if MarchYear(b) < MarchYear(a) {
      EraOrder(b, a);
    } else {
      EraByMarch(a);
      EraByMarch(b);
      if MarchMonth(a) < MarchMonth(b) {
        MonthsInOrder(a, b);
      } else if MarchMonth(b) < MarchMonth(a) {
        MonthsInOrder(b, a);
      }
    }
  }

  lemma EraFromYearZero(d: Date)
    requires Valid(d)
    ensures EraDays(d) >= YEAR_ZERO_DAYS
  {
    EraByMarch(d);
    MarchDayRange(d);
    if MarchYear(d) > -1 {
      MarchDaysGrow(-1, MarchYear(d));
    }
  }

  /** For every date from the year 0 on, the formula is the number of next-day steps that lead
      from 0000-01-01 to it, counted from the steps that lead to 1970-01-01. */
  lemma EraIsStepCount(d: Date)
    requires Valid(d)
    ensures EraDays(d) >= YEAR_ZERO_DAYS && Stepped(YEAR_ZERO, EraDays(d) - YEAR_ZERO_DAYS) == d
  {
    EraFromYearZero(d);
    var n := EraDays(d) - YEAR_ZERO_DAYS;
    SteppedFromYearZero(n);
    EraInjective(Stepped(YEAR_ZERO, n), d);
  }

  lemma {:induction false} SteppedAdds(d: Date, m: nat, n: nat)
    ensures Stepped(Stepped(d, m), n) == Stepped(d, m + n)
  {
    if n > 0 {
      SteppedAdds(d, m, n - 1);
    }
  }

  lemma EpochIsZero()
    ensures EraDays(EPOCH) == 0 && Valid(EPOCH)
  {
  }

  /** In particular from the epoch on: n steps from 1970-01-01 give n. */
  lemma {:induction false} EraFromEpoch(n: nat)
    ensures Valid(Stepped(EPOCH, n)) && EraDays(Stepped(EPOCH, n)) == n
  {
    EpochIsZero();
    EraIsStepCount(EPOCH);
    SteppedAdds(YEAR_ZERO, EraDays(EPOCH) - YEAR_ZERO_DAYS, n);
    SteppedFromYearZero(EraDays(EPOCH) - YEAR_ZERO_DAYS + n);
  }

  // ---------- Weekdays ----------

  /** Days of the week (Monday 0) by stepping: 0000-01-01 was a Saturday. */
  function SteppedWeekday(n: nat): int {
    if n == 0 then 5 else (SteppedWeekday(n - 1) + 1) % 7
  }

  /** The program's weekday test agrees with stepping, and 1970-01-01 was a Thursday. */
  lemma {:induction false} WeekdayAgrees(n: nat)
    ensures SteppedWeekday(n) == (YEAR_ZERO_DAYS + n + 3) % 7
    ensures n == -YEAR_ZERO_DAYS ==> SteppedWeekday(n) == 3
  {
    if n > 0 {
      WeekdayAgrees(n - 1);
    }
  }
}
