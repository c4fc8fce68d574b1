/**
 * Observation times: `_normalized_time` turns an aware datetime into the UTC
 * `isoformat()` text the scan table is ordered by.
 * `datetime.fromisoformat` is foreign: its outcome is the input here.
 */
module Times {
  import opened Text

  datatype Civil = Civil(year: nat, month: nat, day: nat, hour: nat, minute: nat, second: nat, micro: nat)

  /** What `datetime.fromisoformat` made of the (stripped, `Z`-replaced) text. */
  datatype ParsedTime =
    | Unparsable
    | Naive(local: Civil)
    | Aware(civil: Civil, offset: int)   // UTC offset in microseconds

  datatype TimeError = FormatInvalid | TimezoneRequired | OutOfRange

  const MICROS_PER_DAY: int := 86_400_000_000

  predicate Leap(y: nat) {
    y % 4 == 0 && (y % 100 != 0 || y % 400 == 0)
  }

  function MonthLength(y: nat, m: nat): (d: nat)
    requires 1 <= m <= 12
    ensures 28 <= d <= 31
  {
    if m == 2 then (if Leap(y) then 29 else 28)
    else if m in {4, 6, 9, 11} then 30 else 31
  }

  function DaysBeforeMonth(y: nat, m: nat): (d: nat)
    requires 1 <= m <= 13
  {
    if m == 1 then 0 else DaysBeforeMonth(y, m - 1) + MonthLength(y, m - 1)
  }

  function DaysBeforeYear(y: nat): (d: nat)
    requires 1 <= y
  {
    if y == 1 then 0 else DaysBeforeYear(y - 1) + DaysBeforeMonth(y - 1, 13)
  }

  predicate ValidCivil(c: Civil) {
    1 <= c.year <= 9999 && 1 <= c.month <= 12 && 1 <= c.day <= MonthLength(c.year, c.month)
    && c.hour < 24 && c.minute < 60 && c.second < 60 && c.micro < 1_000_000
  }

  /** Days since 0001-01-01. */
  function DayNumber(c: Civil): nat
    requires ValidCivil(c)
  {
    DaysBeforeYear(c.year) + DaysBeforeMonth(c.year, c.month) + c.day - 1
  }

  function TimeOfDay(c: Civil): (t: int)
    requires ValidCivil(c)
    ensures 0 <= t < MICROS_PER_DAY
  {
    ((c.hour * 60 + c.minute) * 60 + c.second) * 1_000_000 + c.micro
  }

  /** Microseconds since 0001-01-01T00:00:00. */
  function Micros(c: Civil): int
    requires ValidCivil(c)
  {
    DayNumber(c) * MICROS_PER_DAY + TimeOfDay(c)
  }

  predicate CivilLess(a: Civil, b: Civil) {
    a.year < b.year || (a.year == b.year && (
    a.month < b.month || (a.month == b.month && (
    a.day < b.day || (a.day == b.day && (
    a.hour < b.hour || (a.hour == b.hour && (
    a.minute < b.minute || (a.minute == b.minute && (
    a.second < b.second || (a.second == b.second && a.micro < b.micro)))))))))))
  }

  lemma {:induction false} MonthsGrow(y: nat, m: nat, n: nat)
    requires 1 <= m < n <= 13
    ensures DaysBeforeMonth(y, m) + MonthLength(y, m) <= DaysBeforeMonth(y, n)
    decreases n
  {
    if m + 1 < n { MonthsGrow(y, m, n - 1); }
  }

  lemma {:induction false} YearsGrow(y: nat, z: nat)
    requires 1 <= y < z
    ensures DaysBeforeYear(y) + DaysBeforeMonth(y, 13) <= DaysBeforeYear(z)
    decreases z
  {
    if y + 1 < z { YearsGrow(y, z - 1); }
  }

  lemma DayNumberGrows(a: Civil, b: Civil)
    requires ValidCivil(a) && ValidCivil(b)
    requires a.year < b.year || (a.year == b.year && (a.month < b.month || (a.month == b.month && a.day < b.day)))
    ensures DayNumber(a) < DayNumber(b)
  {
    MonthsGrow(a.year, a.month, 13);
    if a.year < b.year {
      YearsGrow(a.year, b.year);
    } else if a.month < b.month {
      MonthsGrow(a.year, a.month, b.month);
    }
  }

  lemma MicrosGrows(a: Civil, b: Civil)
    requires ValidCivil(a) && ValidCivil(b) && CivilLess(a, b)
    ensures Micros(a) < Micros(b)
  {
    if a.year == b.year && a.month == b.month && a.day == b.day {
      assert DayNumber(a) == DayNumber(b) && TimeOfDay(a) < TimeOfDay(b);
    } else {
      DayNumberGrows(a, b);
      assert DayNumber(a) + 1 <= DayNumber(b);
    }
  }

  // ------------------------------------------------- instant to civil time

  function YearOf(day: nat, y: nat): (r: nat)
    requires 1 <= y && DaysBeforeYear(y) <= day
    ensures y <= r && DaysBeforeYear(r) <= day < DaysBeforeYear(r + 1)
    decreases day - DaysBeforeYear(y)
  {
    if day < DaysBeforeYear(y + 1) then y else YearOf(day, y + 1)
  }

  function MonthOf(y: nat, day: nat, m: nat): (r: nat)
    requires 1 <= m <= 12 && DaysBeforeMonth(y, m) <= day < DaysBeforeMonth(y, 13)
    ensures m <= r <= 12 && DaysBeforeMonth(y, r) <= day < DaysBeforeMonth(y, r + 1)
    decreases 12 - m
  {
    if day < DaysBeforeMonth(y, m + 1) then m else MonthOf(y, day, m + 1)
  }

  /** Hours, minutes, seconds and microseconds of a time of day. */
  function WithTimeOfDay(year: nat, month: nat, day: nat, t: nat): (c: Civil)
    requires t < MICROS_PER_DAY
    requires 1 <= year <= 9999 && 1 <= month <= 12 && 1 <= day <= MonthLength(year, month)
    ensures ValidCivil(c) && TimeOfDay(c) == t
    ensures c.year == year && c.month == month && c.day == day
  {
    var s := t / 1_000_000;
    var m := s / 60;
    Civil(year, month, day, m / 60, m % 60, s % 60, t % 1_000_000)
  }

  /** The UTC fields of an instant, when a datetime can name it (years 1 to 9999). */
  function FromMicros(n: int): (r: Option<Civil>)
    ensures r.Some? ==> ValidCivil(r.value) && Micros(r.value) == n
  {
    if n < 0 then None
    else
      var day := n / MICROS_PER_DAY;
      var y := YearOf(day, 1);
      if y > 9999 then None
      else
        var inYear := day - DaysBeforeYear(y);
        var m := MonthOf(y, inYear, 1);
        Some(WithTimeOfDay(y, m, inYear - DaysBeforeMonth(y, m) + 1, n % MICROS_PER_DAY))
  }

  /** `FromMicros` finds every instant that has a calendar date. */
  lemma FromMicrosComplete(c: Civil)
    ensures ValidCivil(c) ==> FromMicros(Micros(c)) == Some(c)
  {
    if ValidCivil(c) {
      var day := Micros(c) / MICROS_PER_DAY;
      assert day == DayNumber(c);
      MonthsGrow(c.year, c.month, 13);
      var y := YearOf(day, 1);
      if y < c.year { YearsGrow(y, c.year); }
      if c.year < y { YearsGrow(c.year, y); }
      MicrosInjective(FromMicros(Micros(c)).value, c);
    }
  }

  lemma MicrosInjective(a: Civil, b: Civil)
    requires ValidCivil(a) && ValidCivil(b) && Micros(a) == Micros(b)
    ensures a == b
  {
    if CivilLess(a, b) { MicrosGrows(a, b); }
    if CivilLess(b, a) { MicrosGrows(b, a); }
  }

  // --------------------------------------------------------- isoformat()

  function Pad(n: nat, w: nat): (r: string)
    ensures |r| == w
  {
    if w == 0 then "" else Pad(n / 10, w - 1) + [DigitChar(n % 10)]
  }

  lemma {:induction false} PadOrder(n: nat, m: nat, w: nat)
    requires n < m < Pow10(w)
    ensures Less(Pad(n, w), Pad(m, w))
  {
    if n / 10 == m / 10 {
      LessPrefix(Pad(n / 10, w - 1), [DigitChar(n % 10)], [DigitChar(m % 10)]);
    } else {
      PadOrder(n / 10, m / 10, w - 1);
      LessExtends(Pad(n / 10, w - 1), Pad(m / 10, w - 1), [DigitChar(n % 10)], [DigitChar(m % 10)]);
    }
  }

  /** One zero-padded field decides, unless it is equal: then the rest decides. */
  lemma FieldDecides(n: nat, m: nat, w: nat, sep: string, x: string, y: string)
    requires n < Pow10(w) && m < Pow10(w)
    ensures Less(Pad(n, w) + sep + x, Pad(m, w) + sep + y) <==> n < m || (n == m && Less(x, y))
  {
    var a, b := Pad(n, w) + sep + x, Pad(m, w) + sep + y;
    assert a == Pad(n, w) + (sep + x) && b == Pad(m, w) + (sep + y);
    if n == m {
      LessPrefix(Pad(n, w) + sep, x, y);
    } else if n < m {
      PadOrder(n, m, w);
      LessExtends(Pad(n, w), Pad(m, w), sep + x, sep + y);
    } else {
      PadOrder(m, n, w);
      LessExtends(Pad(m, w), Pad(n, w), sep + y, sep + x);
      LessAsymmetric(b, a);
    }
  }

  /** `isoformat` writes no fraction when there are no microseconds. */
  function FractionText(micro: nat): string {
    if micro == 0 then "+00:00" else "." + (Pad(micro, 6) + "+00:00" + "")
  }

  function ClockText(c: Civil): string {
    Pad(c.hour, 2) + ":" + (Pad(c.minute, 2) + ":" + (Pad(c.second, 2) + "" + FractionText(c.micro)))
  }

  function IsoText(c: Civil): string {
    Pad(c.year, 4) + "-" + (Pad(c.month, 2) + "-" + (Pad(c.day, 2) + "T" + ClockText(c)))
  }

  lemma FractionOrder(a: nat, b: nat)
    requires a < 1_000_000 && b < 1_000_000
    ensures Less(FractionText(a), FractionText(b)) <==> a < b
  {
    assert Pow10(2) == 100;
    assert Pow10(4) == 10_000;
    assert Pow10(6) == 1_000_000;
    LessIrreflexive("+00:00");
    if a != 0 && b != 0 {
      FieldDecides(a, b, 6, "+00:00", "", "");
      LessPrefix(".", Pad(a, 6) + "+00:00" + "", Pad(b, 6) + "+00:00" + "");
    }
  }

  lemma ClockOrder(a: Civil, b: Civil)
    requires ValidCivil(a) && ValidCivil(b)
    ensures Less(ClockText(a), ClockText(b)) <==>
              a.hour < b.hour || (a.hour == b.hour && (
              a.minute < b.minute || (a.minute == b.minute && (
              a.second < b.second || (a.second == b.second && a.micro < b.micro)))))
  {
    assert Pow10(2) == 100;
    FractionOrder(a.micro, b.micro);
    FieldDecides(a.second, b.second, 2, "", FractionText(a.micro), FractionText(b.micro));
    var sa, sb := Pad(a.second, 2) + "" + FractionText(a.micro), Pad(b.second, 2) + "" + FractionText(b.micro);
    FieldDecides(a.minute, b.minute, 2, ":", sa, sb);
    FieldDecides(a.hour, b.hour, 2, ":", Pad(a.minute, 2) + ":" + sa, Pad(b.minute, 2) + ":" + sb);
  }

  lemma IsoOrder(a: Civil, b: Civil)
    requires ValidCivil(a) && ValidCivil(b)
    ensures Less(IsoText(a), IsoText(b)) <==> CivilLess(a, b)
  {
    assert Pow10(2) == 100;
    assert Pow10(4) == 10_000;
    ClockOrder(a, b);
    FieldDecides(a.day, b.day, 2, "T", ClockText(a), ClockText(b));
    var da, db := Pad(a.day, 2) + "T" + ClockText(a), Pad(b.day, 2) + "T" + ClockText(b);
    FieldDecides(a.month, b.month, 2, "-", da, db);
    FieldDecides(a.year, b.year, 4, "-", Pad(a.month, 2) + "-" + da, Pad(b.month, 2) + "-" + db);
  }

  // --------------------------------------------------- _normalized_time

  function Instant(p: ParsedTime): int
    requires p.Aware? && ValidCivil(p.civil)
  {
    Micros(p.civil) - p.offset
  }

  predicate WellFormedTime(p: ParsedTime) {
    p.Aware? ==> ValidCivil(p.civil) && -MICROS_PER_DAY < p.offset < MICROS_PER_DAY
  }

  type ObservedTime = p: ParsedTime | WellFormedTime(p) witness Unparsable

  function NormalizedTime(p: ObservedTime): Result<string, TimeError> {
    match p
    case Unparsable => Err(FormatInvalid)
    case Naive(_) => Err(TimezoneRequired)
    case Aware(_, _) =>
      match FromMicros(Instant(p))
      case None => Err(OutOfRange)
      case Some(utc) => Ok(IsoText(utc))
  }

  /**
   * What is stored for an aware time: the text of that UTC time which lies the offset
   * before the civil time, when a calendar date names it.
   */
  lemma NormalizedExact(civil: Civil, offset: int, t: string)
    requires WellFormedTime(Aware(civil, offset))
    ensures NormalizedTime(Aware(civil, offset)) == Ok(t) <==>
              exists utc: Civil :: ValidCivil(utc) && t == IsoText(utc) && Micros(utc) + offset == Micros(civil)
  {
    hide IsoText, FromMicros, DayNumber, TimeOfDay;
    forall utc: Civil | ValidCivil(utc) && Micros(utc) + offset == Micros(civil)
      ensures FromMicros(Instant(Aware(civil, offset))) == Some(utc)
    {
      FromMicrosComplete(utc);
    }
  }

  /** Only aware times are stored. */
  lemma OnlyAwareTimes(p: ObservedTime)
    ensures p.Unparsable? ==> NormalizedTime(p) == Err(FormatInvalid)
    ensures p.Naive? ==> NormalizedTime(p) == Err(TimezoneRequired)
    ensures NormalizedTime(p).Ok? ==> p.Aware?
  {
  }

  /** The order SQLite sees on the stored texts is the order of the moments: civil time less offset. */
  lemma TextOrderIsTimeOrder(p: ObservedTime, q: ObservedTime)
    requires NormalizedTime(p).Ok? && NormalizedTime(q).Ok?
    ensures p.Aware? && q.Aware?
    ensures Less(NormalizedTime(p).value, NormalizedTime(q).value) <==> Micros(p.civil) - p.offset < Micros(q.civil) - q.offset
    ensures NormalizedTime(p) == NormalizedTime(q) <==> Micros(p.civil) - p.offset == Micros(q.civil) - q.offset
  {
    hide IsoText, FromMicros, DayNumber, TimeOfDay;
    var a, b := FromMicros(Instant(p)).value, FromMicros(Instant(q)).value;
    IsoOrder(a, b);
    IsoOrder(b, a);
    if CivilLess(a, b) { MicrosGrows(a, b); LessAsymmetric(IsoText(a), IsoText(b)); }
    if CivilLess(b, a) { MicrosGrows(b, a); LessAsymmetric(IsoText(b), IsoText(a)); }
  }

  /** Normalising what was already normalised changes nothing. */
  lemma {:induction false} NormalizeTwice(p: ObservedTime)
    requires NormalizedTime(p).Ok?
    ensures var again := Aware(FromMicros(Instant(p)).value, 0);
            WellFormedTime(again) && NormalizedTime(again) == NormalizedTime(p)
  {
    FromMicrosComplete(FromMicros(Instant(p)).value);
  }

  /** Of one civil time read at two offsets, the one further east came first. */
  lemma FurtherEastIsEarlier(civil: Civil, west: int, east: int)
    requires WellFormedTime(Aware(civil, west)) && WellFormedTime(Aware(civil, east)) && west < east
    requires NormalizedTime(Aware(civil, west)).Ok? && NormalizedTime(Aware(civil, east)).Ok?
    ensures Less(NormalizedTime(Aware(civil, east)).value, NormalizedTime(Aware(civil, west)).value)
  {
    hide IsoText, FromMicros, DayNumber, TimeOfDay;
    TextOrderIsTimeOrder(Aware(civil, east), Aware(civil, west));
  }

  // ------------------------------------------------- the calendar, in closed form

  /** The days of a common year before month `m`. */
  const CUMULATIVE: seq<nat> := [0, 31, 59, 90, 120, 151, 181, 212, 243, 273, 304, 334, 365]

  lemma DaysBeforeMonthIs(y: nat, m: nat)
    requires 1 <= m <= 13
    ensures DaysBeforeMonth(y, m) == CUMULATIVE[m - 1] + if m > 2 && Leap(y) then 1 else 0
  {
    hide Leap;
    if m > 1 { DaysBeforeMonthIs(y, m - 1); }
  }

  /** Leap days of the years up to `n`, by the Gregorian rule. */
  function LeapDays(n: nat): int {
    n / 4 - n / 100 + n / 400
  }

  lemma OneMoreLeapDay(n: nat)
    requires n >= 1
    ensures LeapDays(n) == LeapDays(n - 1) + if n % 4 == 0 && (n % 100 != 0 || n % 400 == 0) then 1 else 0
  {
    QuotientStep(n, 4);
    QuotientStep(n, 100);
    QuotientStep(n, 400);
  }

  lemma QuotientStep(n: nat, d: nat)
    requires n >= 1 && d >= 1
    ensures n / d == (n - 1) / d + if n % d == 0 then 1 else 0
  {
    var q, r := (n - 1) / d, (n - 1) % d;
    assert n == q * d + (r + 1);
    if r + 1 == d {
      assert n == (q + 1) * d;
      ExactQuotient(q + 1, d, 0);
    } else {
      ExactQuotient(q, d, r + 1);
    }
  }

  lemma ExactQuotient(q: nat, d: nat, r: nat)
    requires r < d
    ensures (q * d + r) / d == q && (q * d + r) % d == r
  {
    var n := q * d + r;
    var p, t := n / d, n % d;
    assert n == p * d + t;
    if p < q { ProductGrows(p + 1, q, d); }
    if q < p { ProductGrows(q + 1, p, d); }
  }

  lemma ProductGrows(a: nat, b: nat, d: nat)
    requires a <= b
    ensures a * d <= b * d
  {
  }

  lemma {:induction false} DaysBeforeYearIs(y: nat)
    requires y >= 1
    ensures DaysBeforeYear(y) == 365 * (y - 1) + LeapDays(y - 1)
  {
    hide LeapDays, DaysBeforeMonth;
    if y == 1 {
      assert LeapDays(0) == 0 by { NoLeapDays(); }
    } else {
      DaysBeforeYearIs(y - 1);
      DaysBeforeMonthIs(y - 1, 13);
      OneMoreLeapDay(y - 1);
    }
  }

  lemma NoLeapDays()
    ensures LeapDays(0) == 0
  {
  }

  /** Microseconds since 0001-01-01, by the Gregorian calendar. */
  lemma MicrosIs(c: Civil)
    requires ValidCivil(c)
    ensures var leap := c.year % 4 == 0 && (c.year % 100 != 0 || c.year % 400 == 0);
            var days := 365 * (c.year - 1) + LeapDays(c.year - 1) + CUMULATIVE[c.month - 1]
                        + (if c.month > 2 && leap then 1 else 0) + c.day - 1;
            Micros(c) == days * 86_400_000_000 + c.hour * 3_600_000_000 + c.minute * 60_000_000 + c.second * 1_000_000 + c.micro
  {
    hide DaysBeforeYear, DaysBeforeMonth, LeapDays;
    DaysBeforeYearIs(c.year);
    DaysBeforeMonthIs(c.year, c.month);
  }

  // ------------------------------------------------- two times, to the letter

  /** The digits as Python writes them. */
  lemma DigitChars()
    ensures DigitChar(0) == '0' && DigitChar(1) == '1' && DigitChar(2) == '2' && DigitChar(3) == '3' && DigitChar(4) == '4'
    ensures DigitChar(5) == '5' && DigitChar(6) == '6' && DigitChar(7) == '7' && DigitChar(8) == '8' && DigitChar(9) == '9'
  {
  }

  lemma PadGrows(n: nat, w: nat)
    requires w > 0
    ensures Pad(n, w) == Pad(n / 10, w - 1) + [DigitChar(n % 10)]
  {
    hide DigitChar;
  }

  lemma DateToTheLetter()
    ensures Pad(2026, 4) == "2026" && Pad(1, 2) == "01"
  {
    hide Pad, DigitChar;
    DigitChars();
    PadGrows(2026, 4);
    PadGrows(202, 3);
    PadGrows(20, 2);
    PadGrows(2, 1);
    NoPad();
    PadGrows(1, 2);
    PadGrows(0, 1);
  }

  lemma NoPad()
    ensures forall n: nat :: Pad(n, 0) == ""
  {
  }

  lemma ClockToTheLetter()
    ensures Pad(0, 2) == "00" && Pad(5, 2) == "05" && Pad(500_000, 6) == "500000"
  {
    hide Pad, DigitChar;
    DigitChars();
    NoPad();
    PadGrows(0, 2);
    PadGrows(0, 1);
    PadGrows(5, 2);
    PadGrows(500_000, 6);
    PadGrows(50_000, 5);
    PadGrows(5_000, 4);
    PadGrows(500, 3);
    PadGrows(50, 2);
    PadGrows(5, 1);
  }

  const MIDNIGHT := Civil(2026, 1, 1, 0, 0, 0, 0)

  const LATER := Civil(2026, 1, 1, 0, 0, 5, 500_000)

  lemma ClockTexts()
    ensures ClockText(MIDNIGHT) == "00:00:00+00:00" && ClockText(LATER) == "00:00:05.500000+00:00"
  {
    hide Pad;
    ClockToTheLetter();
    assert FractionText(0) == "+00:00";
    assert FractionText(500_000) == ".500000+00:00";
    assert "00" + ":" + ("00" + ":" + ("00" + "" + "+00:00")) == "00:00:00+00:00";
    assert "00" + ":" + ("00" + ":" + ("05" + "" + ".500000+00:00")) == "00:00:05.500000+00:00";
  }

  lemma DatePart(c: Civil, clock: string)
    requires c.year == 2026 && c.month == 1 && c.day == 1 && ClockText(c) == clock
    ensures IsoText(c) == "2026-01-01T" + clock
  {
    hide Pad, ClockText;
    DateToTheLetter();
    assert "2026" + "-" + ("01" + "-" + ("01" + "T" + clock)) == "2026-01-01T" + clock;
  }

  lemma IsoToTheLetter()
    ensures IsoText(MIDNIGHT) == "2026-01-01T00:00:00+00:00" && IsoText(LATER) == "2026-01-01T00:00:05.500000+00:00"
  {
    hide IsoText, ClockText;
    ClockTexts();
    DatePart(MIDNIGHT, "00:00:00+00:00");
    DatePart(LATER, "00:00:05.500000+00:00");
    assert "2026-01-01T" + "00:00:00+00:00" == "2026-01-01T00:00:00+00:00";
    assert "2026-01-01T" + "00:00:05.500000+00:00" == "2026-01-01T00:00:05.500000+00:00";
  }

  /** Nine in the morning nine hours east of Greenwich is midnight; half a second shows as six digits. */
  lemma TimesToTheLetter(p: ObservedTime, q: ObservedTime)
    requires p == Aware(Civil(2026, 1, 1, 9, 0, 0, 0), 32_400_000_000)
    requires q == Aware(Civil(2026, 1, 1, 9, 0, 5, 500_000), 32_400_000_000)
    ensures NormalizedTime(p) == Ok("2026-01-01T00:00:00+00:00")
    ensures NormalizedTime(q) == Ok("2026-01-01T00:00:05.500000+00:00")
  {
    hide NormalizedTime, DayNumber, IsoText;
    IsoToTheLetter();
    SameDay(MIDNIGHT, p.civil);
    SameDay(LATER, q.civil);
    NormalizedExact(p.civil, p.offset, "2026-01-01T00:00:00+00:00");
    NormalizedExact(q.civil, q.offset, "2026-01-01T00:00:05.500000+00:00");
  }

  lemma SameDay(a: Civil, b: Civil)
    requires ValidCivil(a) && ValidCivil(b) && a.year == b.year && a.month == b.month && a.day == b.day
    ensures Micros(a) - Micros(b) == TimeOfDay(a) - TimeOfDay(b)
  {
    assert DayNumber(a) == DayNumber(b);
  }
}
