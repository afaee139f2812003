/** The part of Python's `datetime` that the execution-time extractor relies on:
    the proleptic Gregorian calendar (`_ymd2ord`), `datetime.fromisoformat` on the
    text the log pattern captures, and the difference of two naive datetimes,
    kept in integer microseconds instead of `timedelta.total_seconds()`'s float. */
module PyDateTime {
  import opened Wrappers
  import opened Decimal

  const MinYear: int := 1
  const MaxYear: int := 9999
  const MicrosPerSecond: int := 1000000
  const SecondsPerDay: int := 86400

  predicate IsLeap(year: int) { year % 4 == 0 && (year % 100 != 0 || year % 400 == 0) }

  function DaysInYear(year: int): int { if IsLeap(year) then 366 else 365 }

  function DaysInMonth(year: int, month: int): (n: int)
    requires 1 <= month <= 12
    ensures 28 <= n <= 31
  {
    if month == 2 then (if IsLeap(year) then 29 else 28)
    else if month == 4 || month == 6 || month == 9 || month == 11 then 30
    else 31
  }

  /** Days in the years before `year` (year 1 starts at day 0). */
  function DaysBeforeYear(year: int): int
    requires year >= 1
  {
    var y := year - 1;
    y * 365 + y / 4 - y / 100 + y / 400
  }

  /** Days in the months of `year` before `month`. */
  function DaysBeforeMonth(year: int, month: int): int
    requires 1 <= month <= 12
  {
    [0, 31, 59, 90, 120, 151, 181, 212, 243, 273, 304, 334][month - 1]
    + (if month > 2 && IsLeap(year) then 1 else 0)
  }

  predicate ValidDate(year: int, month: int, day: int)
  {
    MinYear <= year <= MaxYear && 1 <= month <= 12 && 1 <= day <= DaysInMonth(year, month)
  }

  /** Proleptic Gregorian ordinal, 0001-01-01 being day 1. */
  function Ordinal(year: int, month: int, day: int): int
    requires year >= 1 && 1 <= month <= 12
  {
    DaysBeforeYear(year) + DaysBeforeMonth(year, month) + day
  }

  /** The closed form of `DaysBeforeYear` grows by the length of each year. */
  lemma DaysBeforeYearStep(year: int)
    requires year >= 1
    ensures DaysBeforeYear(year + 1) == DaysBeforeYear(year) + DaysInYear(year)
  {
    var y := year - 1;
    QuotientStep(y, 4);
    QuotientStep(y, 100);
    QuotientStep(y, 400);
    MultipleChain(year);
    assert DaysBeforeYear(year + 1) == year * 365 + year / 4 - year / 100 + year / 400;
  }

  /** A multiple of 400 is one of 100, and a multiple of 100 is one of 4. */
  lemma MultipleChain(n: int)
    ensures n % 400 == 0 ==> n % 100 == 0
    ensures n % 100 == 0 ==> n % 4 == 0
  {
    if n % 400 == 0 {
      assert n == 400 * (n / 400);
      assert n == 100 * (4 * (n / 400));
    }
    if n % 100 == 0 {
      assert n == 100 * (n / 100);
      assert n == 4 * (25 * (n / 100));
    }
  }

  /** Counting the multiples of `d` up to `y + 1` adds one exactly when `d` divides `y + 1`. */
  lemma QuotientStep(y: nat, d: nat)
    requires d == 4 || d == 100 || d == 400
    ensures (y + 1) / d == y / d + (if (y + 1) % d == 0 then 1 else 0)
  {
    if d == 4 {
      assert (y + 1) / 4 == y / 4 + (if (y + 1) % 4 == 0 then 1 else 0);
    } else if d == 100 {
      assert (y + 1) / 100 == y / 100 + (if (y + 1) % 100 == 0 then 1 else 0);
    } else {
      assert (y + 1) / 400 == y / 400 + (if (y + 1) % 400 == 0 then 1 else 0);
    }
  }

  lemma {:induction false} DaysBeforeYearMonotone(y1: int, y2: int)
    requires 1 <= y1 < y2
    ensures DaysBeforeYear(y1) + DaysInYear(y1) <= DaysBeforeYear(y2)
    decreases y2 - y1
  {
    DaysBeforeYearStep(y1);
    if y1 + 1 < y2 {
      DaysBeforeYearMonotone(y1 + 1, y2);
    }
  }

  /** The month table accumulates the month lengths, and the year ends after December. */
  lemma DaysBeforeMonthStep(year: int, month: int)
    requires 1 <= month <= 12
    ensures month < 12 ==> DaysBeforeMonth(year, month + 1) == DaysBeforeMonth(year, month) + DaysInMonth(year, month)
    ensures month == 12 ==> DaysBeforeMonth(year, month) + DaysInMonth(year, month) == DaysInYear(year)
  {
  }

  /** The calendar day after a valid date, stepping the month and the year by hand. */
  function NextDay(year: int, month: int, day: int): (int, int, int)
    requires ValidDate(year, month, day)
  {
    if day < DaysInMonth(year, month) then (year, month, day + 1)
    else if month < 12 then (year, month + 1, 1)
    else (year + 1, 1, 1)
  }

  /** The ordinal counts days: the next calendar day has the next ordinal. */
  lemma OrdinalNextDay(year: int, month: int, day: int)
    requires ValidDate(year, month, day)
    ensures var (y, m, d) := NextDay(year, month, day); Ordinal(y, m, d) == Ordinal(year, month, day) + 1
  {
    DaysBeforeMonthStep(year, month);
    if day == DaysInMonth(year, month) && month == 12 {
      DaysBeforeYearStep(year);
    }
  }

  /** A valid date lies inside its year. */
  lemma DayOfYearBound(year: int, month: int, day: int)
    requires ValidDate(year, month, day)
    ensures DaysBeforeMonth(year, month) + day <= DaysInYear(year)
  {
  }

  lemma {:induction false} DaysBeforeMonthMonotone(year: int, m1: int, m2: int)
    requires 1 <= m1 < m2 <= 12
    ensures DaysBeforeMonth(year, m1) + DaysInMonth(year, m1) <= DaysBeforeMonth(year, m2)
  {
    DaysBeforeMonthStep(year, m1);
  }

  predicate DateBefore(y1: int, m1: int, d1: int, y2: int, m2: int, d2: int)
  {
    y1 < y2 || (y1 == y2 && (m1 < m2 || (m1 == m2 && d1 < d2)))
  }

  /** Earlier calendar dates have smaller ordinals. */
  lemma OrdinalMonotone(y1: int, m1: int, d1: int, y2: int, m2: int, d2: int)
    requires ValidDate(y1, m1, d1) && ValidDate(y2, m2, d2)
    requires DateBefore(y1, m1, d1, y2, m2, d2)
    ensures Ordinal(y1, m1, d1) < Ordinal(y2, m2, d2)
  {
    if y1 < y2 {
      DayOfYearBound(y1, m1, d1);
      DaysBeforeYearMonotone(y1, y2);
    } else if m1 < m2 {
      DaysBeforeMonthMonotone(y1, m1, m2);
    }
  }

  /** A naive `datetime` (no tzinfo). */
  datatype DateTime = DateTime(year: int, month: int, day: int,
                               hour: int, minute: int, second: int, microsecond: int)

  /** The ranges the `datetime` constructor enforces (it raises ValueError otherwise). */
  predicate Valid(t: DateTime)
  {
    && ValidDate(t.year, t.month, t.day)
    && 0 <= t.hour < 24 && 0 <= t.minute < 60 && 0 <= t.second < 60
    && 0 <= t.microsecond < MicrosPerSecond
  }

  /** Strict chronological order of two datetimes, field by field. */
  predicate Before(a: DateTime, b: DateTime)
  {
    || DateBefore(a.year, a.month, a.day, b.year, b.month, b.day)
    || ((a.year, a.month, a.day) == (b.year, b.month, b.day) &&
        (a.hour < b.hour || (a.hour == b.hour &&
          (a.minute < b.minute || (a.minute == b.minute &&
            (a.second < b.second || (a.second == b.second && a.microsecond < b.microsecond)))))))
  }

  function SecondOfDay(t: DateTime): int { t.hour * 3600 + t.minute * 60 + t.second }

  /** `a - b` as CPython computes it (ordinal days, seconds of day, microseconds),
      expressed as a whole number of microseconds. */
  function Subtract(a: DateTime, b: DateTime): int
    requires Valid(a) && Valid(b)
  {
    var days := Ordinal(a.year, a.month, a.day) - Ordinal(b.year, b.month, b.day);
    var seconds := SecondOfDay(a) - SecondOfDay(b);
    (days * SecondsPerDay + seconds) * MicrosPerSecond + (a.microsecond - b.microsecond)
  }

  /** The difference is positive exactly when the first datetime is later, zero exactly
      when the two are equal, and negative exactly when it is earlier. */
  lemma SubtractSign(a: DateTime, b: DateTime)
    requires Valid(a) && Valid(b)
    ensures Subtract(a, b) > 0 <==> Before(b, a)
    ensures Subtract(a, b) == 0 <==> a == b
    ensures Subtract(a, b) < 0 <==> Before(a, b)
  {
    var oa := Ordinal(a.year, a.month, a.day);
    var ob := Ordinal(b.year, b.month, b.day);
    if DateBefore(a.year, a.month, a.day, b.year, b.month, b.day) {
      OrdinalMonotone(a.year, a.month, a.day, b.year, b.month, b.day);
      assert Subtract(a, b) < 0;
    } else if DateBefore(b.year, b.month, b.day, a.year, a.month, a.day) {
      OrdinalMonotone(b.year, b.month, b.day, a.year, a.month, a.day);
      assert Subtract(a, b) > 0;
    } else {
      assert oa == ob;
    }
  }

  /** The same clock time on the next calendar day is one day of microseconds later. */
  lemma SubtractNextDay(t: DateTime)
    requires Valid(t)
    ensures var (y, m, d) := NextDay(t.year, t.month, t.day);
      var u := t.(year := y, month := m, day := d);
      Valid(u) ==> Subtract(u, t) == SecondsPerDay * MicrosPerSecond
  {
    OrdinalNextDay(t.year, t.month, t.day);
  }

  /** The shape of an ISO date-time with microseconds: `YYYY-MM-DD?HH:MM:SS.ffffff`,
      where `?` is any single separator character. */
  predicate IsoShape(s: string)
  {
    && |s| == 26
    && AllDigits(s[0..4]) && s[4] == '-' && AllDigits(s[5..7]) && s[7] == '-' && AllDigits(s[8..10])
    && AllDigits(s[11..13]) && s[13] == ':' && AllDigits(s[14..16]) && s[16] == ':'
    && AllDigits(s[17..19]) && s[19] == '.' && AllDigits(s[20..26])
  }

  /** `datetime.fromisoformat(s)`: `None` stands for the ValueError it raises. */
  function FromIsoFormat(s: string): (r: Option<DateTime>)
    ensures r.Some? ==> Valid(r.value)
  {
    if !IsoShape(s) then None
    else
      var t := DateTime(Value(s[0..4]), Value(s[5..7]), Value(s[8..10]),
                        Value(s[11..13]), Value(s[14..16]), Value(s[17..19]), Value(s[20..26]));
      if Valid(t) then Some(t) else None
  }

  /** `YYYY-MM-DD<sep>HH:MM:SS.ffffff` from its seven digit fields. */
  function IsoLayout(y: string, mo: string, d: string, sep: char, h: string, mi: string, se: string, us: string): string
  {
    y + "-" + mo + "-" + d + [sep] + h + ":" + mi + ":" + se + "." + us
  }

  lemma IsoLayoutFields(y: string, mo: string, d: string, sep: char, h: string, mi: string, se: string, us: string)
    requires |y| == 4 && |mo| == 2 && |d| == 2 && |h| == 2 && |mi| == 2 && |se| == 2 && |us| == 6
    ensures var s := IsoLayout(y, mo, d, sep, h, mi, se, us);
      && |s| == 26 && s[4] == '-' && s[7] == '-' && s[10] == sep && s[13] == ':' && s[16] == ':' && s[19] == '.'
      && s[0..4] == y && s[5..7] == mo && s[8..10] == d && s[11..13] == h
      && s[14..16] == mi && s[17..19] == se && s[20..26] == us
  {
    var date := y + "-" + mo + "-" + d;
    var time := h + ":" + mi + ":" + se + "." + us;
    assert IsoLayout(y, mo, d, sep, h, mi, se, us) == date + [sep] + time;
    assert date[0..4] == y && date[5..7] == mo && date[8..10] == d;
    assert time[0..2] == h && time[3..5] == mi && time[6..8] == se && time[9..15] == us;
  }

  lemma IsoLayoutOfFields(s: string)
    requires |s| == 26 && s[4] == '-' && s[7] == '-' && s[13] == ':' && s[16] == ':' && s[19] == '.'
    ensures IsoLayout(s[0..4], s[5..7], s[8..10], s[10], s[11..13], s[14..16], s[17..19], s[20..26]) == s
  {
    assert s == s[0..4] + [s[4]] + s[5..7] + [s[7]] + s[8..10] + [s[10]] + s[11..13] + [s[13]]
                + s[14..16] + [s[16]] + s[17..19] + [s[19]] + s[20..26];
  }

  /** `t.isoformat(sep, timespec="microseconds")`. */
  function IsoFormat(t: DateTime, sep: char): (s: string)
    requires Valid(t)
  {
    IsoLayout(Pad(t.year, 4), Pad(t.month, 2), Pad(t.day, 2), sep,
              Pad(t.hour, 2), Pad(t.minute, 2), Pad(t.second, 2), Pad(t.microsecond, 6))
  }

  /** Every valid datetime is read back from its ISO form, whatever the separator. */
  lemma FromIsoFormatOfIsoFormat(t: DateTime, sep: char)
    requires Valid(t)
    ensures FromIsoFormat(IsoFormat(t, sep)) == Some(t)
  {
    IsoLayoutFields(Pad(t.year, 4), Pad(t.month, 2), Pad(t.day, 2), sep,
                    Pad(t.hour, 2), Pad(t.minute, 2), Pad(t.second, 2), Pad(t.microsecond, 6));
    PadValue(t.year, 4);
    PadValue(t.month, 2);
    PadValue(t.day, 2);
    PadValue(t.hour, 2);
    PadValue(t.minute, 2);
    PadValue(t.second, 2);
    PadValue(t.microsecond, 6);
  }

  /** Conversely, the only texts `fromisoformat` accepts are ISO forms of the datetime it returns. */
  lemma IsoFormatOfFromIsoFormat(s: string)
    requires FromIsoFormat(s).Some?
    ensures IsoFormat(FromIsoFormat(s).value, s[10]) == s
  {
    ValuePad(s[0..4]);
    ValuePad(s[5..7]);
    ValuePad(s[8..10]);
    ValuePad(s[11..13]);
    ValuePad(s[14..16]);
    ValuePad(s[17..19]);
    ValuePad(s[20..26]);
    IsoLayoutOfFields(s);
  }
}
