/** `Retry-After` parsing of crates/msgriver-connectors/src/retry_after.rs: delta-seconds, or an
    IMF-fixdate (RFC 7231, section 7.1.1.1), against a safe instant. */
module RetryAfter {
  import opened Wrappers
  import opened Bytes
  import opened Calendar

  const I64_MIN: int := -0x8000_0000_0000_0000
  const I64_MAX: int := 0x7FFF_FFFF_FFFF_FFFF

  /** A checked i64 result. */
  function Checked(x: int): Option<int> {
    if I64_MIN <= x <= I64_MAX then Some(x) else None
  }

  function Clamp(x: int): int {
    if x < 1_000 then 1_000 else if x > 3_600_000 then 3_600_000 else x
  }

  predicate IsDigit(b: byte) { 48 <= b <= 57 }

  predicate AllDigits(b: bytes) { forall i :: 0 <= i < |b| ==> IsDigit(b[i]) }

  /** The fold of `digits_value`: each step checks both the product and the sum. */
  function Fold(b: bytes): Option<int>
    requires AllDigits(b)
  {
    if b == [] then Some(0)
    else match Fold(b[..|b| - 1])
      case None => None
      case Some(value) =>
        if Checked(value * 10).None? then None else Checked(value * 10 + (b[|b| - 1] - 48))
  }

  function DigitsValue(b: bytes): Option<int> {
    if b == [] || !AllDigits(b) then None else Fold(b)
  }

  /** The number a digit string denotes. */
  function Decimal(b: bytes): nat
    requires AllDigits(b)
  {
    if b == [] then 0 else Decimal(b[..|b| - 1]) * 10 + (b[|b| - 1] - 48)
  }

  /** Digits are read exactly when their number fits in 63 bits, however many zeros lead. */
  lemma {:induction false} FoldIsDecimal(b: bytes)
    requires AllDigits(b)
    ensures Fold(b) == if Decimal(b) <= I64_MAX then Some(Decimal(b)) else None
  {
    if b != [] {
      FoldIsDecimal(b[..|b| - 1]);
    }
  }

  function DeltaMillis(b: bytes): Option<int> {
    match DigitsValue(b)
    case None => None
    case Some(seconds) => Checked(seconds * 1_000)
  }

  // "Mon" .. "Sun" and "Jan" .. "Dec".
  const WEEKDAYS: seq<bytes> := [[77, 111, 110], [84, 117, 101], [87, 101, 100], [84, 104, 117],
                                 [70, 114, 105], [83, 97, 116], [83, 117, 110]]
  const MONTHS: seq<bytes> :=
    [[74, 97, 110], [70, 101, 98], [77, 97, 114], [65, 112, 114], [77, 97, 121], [74, 117, 110],
     [74, 117, 108], [65, 117, 103], [83, 101, 112], [79, 99, 116], [78, 111, 118], [68, 101, 99]]

  function IndexOf(name: bytes, names: seq<bytes>): (r: Option<nat>)
    ensures r.Some? ==> r.value < |names| && names[r.value] == name
    ensures r.None? ==> name !in names
  {
    if names == [] then None
    else if names[|names| - 1] == name then Some(|names| - 1)
    else IndexOf(name, names[..|names| - 1])
  }

  function WeekdayIndex(b: bytes): Option<nat> { IndexOf(b, WEEKDAYS) }

  function MonthNumber(b: bytes): Option<nat> {
    match IndexOf(b, MONTHS)
    case None => None
    case Some(i) => Some(i + 1)
  }

  datatype Moment = Moment(date: Date, hour: int, minute: int, second: int)

  /** A civil date-time the grammar can name; second 60 is the leap second. */
  predicate ValidMoment(m: Moment) {
    Valid(m.date) && m.date.year <= 9999 && 0 <= m.hour <= 23 && 0 <= m.minute <= 59 && 0 <= m.second <= 60
  }

  function EpochMillis(m: Moment, expectedWeekday: int): Option<int> {
    if (EraDays(m.date) + 3) % 7 != expectedWeekday then None
    else match Checked(EraDays(m.date) * 86_400)
      case None => None
      case Some(a) =>
        match Checked(a + (m.hour * 3_600 + m.minute * 60 + m.second))
        case None => None
        case Some(b) => Checked(b * 1_000)
  }

  /** Milliseconds since the epoch, unbounded. */
  function Instant(m: Moment): int {
    (EraDays(m.date) * 86_400 + m.hour * 3_600 + m.minute * 60 + m.second) * 1_000
  }

  function WeekdayOf(d: Date): int { (EraDays(d) + 3) % 7 }

  /** The weekday the program demands is the one that stepping day by day gives. */
  lemma WeekdayIsStepped(d: Date)
    requires Valid(d)
    ensures EraDays(d) >= YEAR_ZERO_DAYS
    ensures var n := EraDays(d) - YEAR_ZERO_DAYS; Stepped(YEAR_ZERO, n) == d && WeekdayOf(d) == SteppedWeekday(n)
  {
    EraIsStepCount(d);
    WeekdayAgrees(EraDays(d) - YEAR_ZERO_DAYS);
  }

  /** The punctuation of an IMF-fixdate. */
  predicate Punctuated(b: bytes) {
    && |b| == 29 && b[3] == 44 && b[4] == 32 && b[7] == 32 && b[11] == 32 && b[16] == 32
    && b[19] == 58 && b[22] == 58 && b[25] == 32 && b[26] == 71 && b[27] == 77 && b[28] == 84
  }

  function FutureDateMillis(b: bytes, now: int): Option<int> {
    if |b| != 29 || !(b[3] == 44 && b[4] == 32) then None
    else
      var weekday, day, month := WeekdayIndex(b[..3]), DigitsValue(b[5..7]), MonthNumber(b[8..11]);
      var year, hour, minute := DigitsValue(b[12..16]), DigitsValue(b[17..19]), DigitsValue(b[20..22]);
      var second := DigitsValue(b[23..25]);
      if weekday.None? || day.None? || month.None? || year.None? || hour.None? || minute.None? || second.None? then None
      else if !Punctuated(b) then None
      else if hour.value > 23 || minute.value > 59 || second.value > 60
              || day.value > DaysInMonth(year.value, month.value) || day.value == 0 then None
      else
        match EpochMillis(Moment(Date(year.value, month.value, day.value), hour.value, minute.value, second.value),
                          weekday.value)
        case None => None
        case Some(instant) =>
          match Checked(instant - now)
          case None => None
          case Some(delta) => if delta > 0 then Some(delta) else None
  }

  /** `parse_retry_after`, on the bytes of the header. */
  function ParseRetryAfter(b: bytes, now: int): (delay: Option<int>)
    ensures delay.Some? ==> 1_000 <= delay.value <= 3_600_000
  {
    match DeltaMillis(b)
    case Some(millis) => Some(Clamp(millis))
    case None =>
      match FutureDateMillis(b, now)
      case Some(millis) => Some(Clamp(millis))
      case None => None
  }

  // ---------- Delta-seconds ----------

  /** A non-empty digit string is clamped seconds, or ignored when its milliseconds overflow. */
  lemma {:induction false} DeltaExact(b: bytes, now: int)
    requires b != [] && AllDigits(b)
    ensures ParseRetryAfter(b, now) ==
      if Decimal(b) * 1_000 <= I64_MAX then Some(Clamp(Decimal(b) * 1_000)) else None
  {
    FoldIsDecimal(b);
    if |b| == 29 {
      assert IsDigit(b[3]);
    }
  }

  // ---------- Dates ----------

  function Two(n: int): bytes
    requires 0 <= n < 100
  {
    [48 + n / 10, 48 + n % 10]
  }

  function Four(n: int): bytes
    requires 0 <= n < 10_000
  {
    [48 + n / 1000, 48 + n / 100 % 10, 48 + n / 10 % 10, 48 + n % 10]
  }

  /** The IMF-fixdate of a moment: `Sun, 06 Nov 1994 08:49:37 GMT`. */
  function Format(m: Moment): (b: bytes)
    requires ValidMoment(m)
  {
    var w, n := WEEKDAYS[WeekdayOf(m.date)], MONTHS[m.date.month - 1];
    w + [44, 32] + Two(m.date.day) + [32] + n + [32] + Four(m.date.year) + [32]
    + Two(m.hour) + [58] + Two(m.minute) + [58] + Two(m.second) + [32, 71, 77, 84]
  }

  lemma {:induction false} IndexOfDistinct(names: seq<bytes>, i: nat)
    requires i < |names| && forall a, b :: 0 <= a < b < |names| ==> names[a] != names[b]
    ensures IndexOf(names[i], names) == Some(i)
  {
    if i < |names| - 1 {
      IndexOfDistinct(names[..|names| - 1], i);
    }
  }

  function Code(name: bytes): int
    requires |name| == 3
  {
    var x: int, y: int, z: int := name[0], name[1], name[2];
    (x * 256 + y) * 256 + z
  }

  lemma NamesAreDistinct()
    ensures |WEEKDAYS| == 7 && |MONTHS| == 12
    ensures forall a :: 0 <= a < 7 ==> |WEEKDAYS[a]| == 3 && !IsDigit(WEEKDAYS[a][0])
    ensures forall a :: 0 <= a < 12 ==> |MONTHS[a]| == 3
    ensures forall a, b :: 0 <= a < b < 7 ==> WEEKDAYS[a] != WEEKDAYS[b]
    ensures forall a, b :: 0 <= a < b < 12 ==> MONTHS[a] != MONTHS[b]
  {
    assert forall a, b :: 0 <= a < b < 7 ==> Code(WEEKDAYS[a]) != Code(WEEKDAYS[b]);
    assert forall a, b :: 0 <= a < b < 12 ==> Code(MONTHS[a]) != Code(MONTHS[b]);
  }

  lemma TwoDigits(n: int)
    requires 0 <= n < 100
    ensures DigitsValue(Two(n)) == Some(n)
  {
    var b := Two(n);
    assert b[..1] == [48 + n / 10] && b[..1][..0] == [];
    FoldIsDecimal(b);
    assert Decimal(b[..1]) == n / 10;
  }

  lemma {:induction false} DecimalOfFour(b: bytes)
    requires |b| == 4 && AllDigits(b)
    ensures Decimal(b) == (var d3: int, d2: int, d1: int, d0: int := b[0] - 48, b[1] - 48, b[2] - 48, b[3] - 48;
      ((d3 * 10 + d2) * 10 + d1) * 10 + d0)
  {
    assert b[..3][..2] == b[..2] && b[..2][..1] == b[..1] && b[..1][..0] == [];
    assert Decimal(b[..1]) == b[0] - 48;
    assert Decimal(b[..2]) == Decimal(b[..1]) * 10 + (b[1] - 48);
    assert Decimal(b[..3]) == Decimal(b[..2]) * 10 + (b[2] - 48);
  }

  lemma SplitFour(d3: int, d2: int, d1: int, d0: int)
    requires 0 <= d3 < 10 && 0 <= d2 < 10 && 0 <= d1 < 10 && 0 <= d0 < 10
    ensures var n := ((d3 * 10 + d2) * 10 + d1) * 10 + d0;
      0 <= n < 10_000 && n / 1000 == d3 && n / 100 % 10 == d2 && n / 10 % 10 == d1 && n % 10 == d0
  {
  }

  lemma JoinFour(n: int)
    requires 0 <= n < 10_000
    ensures n == ((n / 1000 * 10 + n / 100 % 10) * 10 + n / 10 % 10) * 10 + n % 10
  {
  }

  lemma FourDigits(n: int)
    requires 0 <= n < 10_000
    ensures DigitsValue(Four(n)) == Some(n)
  {
    JoinFour(n);
    DecimalOfFour(Four(n));
    FoldIsDecimal(Four(n));
  }

  lemma TwoDigitsBack(b: bytes)
    requires |b| == 2 && DigitsValue(b).Some?
    ensures 0 <= DigitsValue(b).value < 100 && b == Two(DigitsValue(b).value)
  {
    FoldIsDecimal(b);
    assert b[..1][..0] == [];
    assert Decimal(b[..1]) == b[0] - 48;
  }

  lemma FourDigitsBack(b: bytes)
    requires |b| == 4 && DigitsValue(b).Some?
    ensures 0 <= DigitsValue(b).value < 10_000 && b == Four(DigitsValue(b).value)
  {
    FoldIsDecimal(b);
    DecimalOfFour(b);
    SplitFour(b[0] - 48, b[1] - 48, b[2] - 48, b[3] - 48);
  }

  /** Nothing overflows for the dates the grammar can name. */
  lemma MomentFits(m: Moment, weekday: int)
    requires ValidMoment(m)
    ensures I64_MIN <= Instant(m) <= I64_MAX
    ensures EpochMillis(m, weekday) == if weekday == WeekdayOf(m.date) then Some(Instant(m)) else None
  {
    EraFromYearZero(m.date);
    EraByMarch(m.date);
    MarchDayRange(m.date);
    if MarchYear(m.date) < 10_000 {
      MarchDaysGrow(MarchYear(m.date), 10_000);
    }
    assert EraDays(m.date) <= 3_000_000;
  }

  /** Byte by byte, what the parser looks at in a formatted date. */
  lemma FormatSlices(m: Moment)
    requires ValidMoment(m)
    ensures var b := Format(m);
      && Punctuated(b) && b[..3] == WEEKDAYS[WeekdayOf(m.date)] && b[5..7] == Two(m.date.day)
      && b[8..11] == MONTHS[m.date.month - 1] && b[12..16] == Four(m.date.year)
      && b[17..19] == Two(m.hour) && b[20..22] == Two(m.minute) && b[23..25] == Two(m.second)
  {
    NamesAreDistinct();
  }

  /** Formatting a moment and parsing it gives the strictly positive difference from now, if that
      difference is a 64-bit number. */
  lemma ParseFormat(m: Moment, now: int)
    requires ValidMoment(m)
    ensures var delta := Instant(m) - now;
      FutureDateMillis(Format(m), now) == if 0 < delta <= I64_MAX then Some(delta) else None
  {
    NamesAreDistinct();
    FormatSlices(m);
    IndexOfDistinct(WEEKDAYS, WeekdayOf(m.date));
    IndexOfDistinct(MONTHS, m.date.month - 1);
    TwoDigits(m.date.day);
    FourDigits(m.date.year);
    TwoDigits(m.hour);
    TwoDigits(m.minute);
    TwoDigits(m.second);
    MomentFits(m, WeekdayOf(m.date));
  }

  lemma ParseFormattedHeader(m: Moment, now: int)
    requires ValidMoment(m)
    ensures var delta := Instant(m) - now;
      ParseRetryAfter(Format(m), now) == if 0 < delta <= I64_MAX then Some(Clamp(delta)) else None
  {
    NamesAreDistinct();
    FormatSlices(m);
    assert Format(m)[0] == Format(m)[..3][0];
    ParseFormat(m, now);
  }

  /** Only formatted moments are read as dates: the weekday must be the one the calendar gives,
      and the result is the distance to that very instant. */
  lemma OnlyFormatsParse(b: bytes, now: int) returns (m: Moment)
    requires FutureDateMillis(b, now).Some?
    ensures ValidMoment(m) && b == Format(m) && FutureDateMillis(b, now) == Some(Instant(m) - now)
  {
    NamesAreDistinct();
    TwoDigitsBack(b[5..7]);
    FourDigitsBack(b[12..16]);
    TwoDigitsBack(b[17..19]);
    TwoDigitsBack(b[20..22]);
    TwoDigitsBack(b[23..25]);
    m := Moment(Date(DigitsValue(b[12..16]).value, MonthNumber(b[8..11]).value, DigitsValue(b[5..7]).value),
                DigitsValue(b[17..19]).value, DigitsValue(b[20..22]).value, DigitsValue(b[23..25]).value);
    MomentFits(m, WeekdayIndex(b[..3]).value);
    FormatSlices(m);
    SamePieces(b, Format(m));
  }

  lemma SamePieces(b: bytes, c: bytes)
    requires Punctuated(b) && Punctuated(c)
    requires b[..3] == c[..3] && b[5..7] == c[5..7] && b[8..11] == c[8..11] && b[12..16] == c[12..16]
    requires b[17..19] == c[17..19] && b[20..22] == c[20..22] && b[23..25] == c[23..25]
    ensures b == c
  {
  }

  // ---------- The names, and a date of the RFC ----------

  ghost predicate Spells(b: bytes, text: string) {
    |b| == |text| && forall i :: 0 <= i < |b| ==> b[i] == text[i] as int
  }

  /** The names in the order of the days and months they stand for. */
  lemma NamesSpell()
    ensures Spells(WEEKDAYS[0], "Mon") && Spells(WEEKDAYS[1], "Tue") && Spells(WEEKDAYS[2], "Wed")
    ensures Spells(WEEKDAYS[3], "Thu") && Spells(WEEKDAYS[4], "Fri") && Spells(WEEKDAYS[5], "Sat")
    ensures Spells(WEEKDAYS[6], "Sun")
    ensures Spells(MONTHS[0], "Jan") && Spells(MONTHS[1], "Feb") && Spells(MONTHS[2], "Mar")
    ensures Spells(MONTHS[3], "Apr") && Spells(MONTHS[4], "May") && Spells(MONTHS[5], "Jun")
    ensures Spells(MONTHS[6], "Jul") && Spells(MONTHS[7], "Aug") && Spells(MONTHS[8], "Sep")
    ensures Spells(MONTHS[9], "Oct") && Spells(MONTHS[10], "Nov") && Spells(MONTHS[11], "Dec")
  {
  }

  const EXAMPLE := Moment(Date(1994, 11, 6), 8, 49, 37)

  lemma {:induction false} ExampleMoment()
    ensures ValidMoment(EXAMPLE) && WeekdayOf(EXAMPLE.date) == 6 && Instant(EXAMPLE) == 784_111_777_000
  {
  }

  /** `Sun, 06 Nov 1994 08:49:37 GMT`. */
  ghost predicate ExampleSpelt(b: bytes) {
    |b| == 29 && Spells(b[..16], "Sun, 06 Nov 1994") && Spells(b[16..], " 08:49:37 GMT")
  }

  lemma ExampleDay(b: bytes)
    requires Spells(b, "Sun, 06 Nov 1994")
    ensures b[..3] == WEEKDAYS[6] && b[3] == 44 && b[4] == 32 && b[5..7] == Two(6) && b[7] == 32
    ensures b[8..11] == MONTHS[10] && b[11] == 32 && b[12..16] == Four(1994)
  {
  }

  lemma ExampleHour(b: bytes)
    requires Spells(b, " 08:49:37 GMT")
    ensures b[0] == 32 && b[1..3] == Two(8) && b[3] == 58 && b[4..6] == Two(49) && b[6] == 58
    ensures b[7..9] == Two(37) && b[9] == 32 && b[10] == 71 && b[11] == 77 && b[12] == 84
  {
  }

  lemma {:induction false} ExampleText(b: bytes)
    requires ExampleSpelt(b) && ValidMoment(EXAMPLE) && WeekdayOf(EXAMPLE.date) == 6
    ensures b == Format(EXAMPLE)
  {
    var day, time := b[..16], b[16..];
    ExampleDay(day);
    ExampleHour(time);
    assert b == day + time;
    FormatSlices(EXAMPLE);
    SamePieces(b, Format(EXAMPLE));
  }

  /** The example of RFC 7231, section 7.1.1.1, seen five seconds before its instant. */
  lemma {:induction false} ExampleParses(b: bytes, now: int)
    requires ExampleSpelt(b) && now == 784_111_777_000 - 5_000
    ensures ParseRetryAfter(b, now) == Some(5_000)
  {
    ExampleMoment();
    ExampleText(b);
    ParseFormattedHeader(EXAMPLE, now);
  }
}
