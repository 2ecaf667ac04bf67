/** The timestamp normaliser of `app/core/time_utils.py`: a fixed-width parser
    for `YYYY-MM-DD HH:mm[:ss]` that checks the proleptic Gregorian calendar,
    normalises the text to its 19-character form and maps it to UTC epoch
    seconds. Fields are ASCII digits; the epoch is a days-from-civil count. */
module TimeUtils {
  import opened Wrappers

  datatype TimeError =
    | EmptyTimestamp       // "Timestamp must be a non-empty string."
    | MalformedTimestamp   // "Invalid timestamp format. Expected 'YYYY-MM-DD HH:mm:ss' (or HH:mm)."

  datatype DateTime = DateTime(year: int, month: int, day: int, hour: int, minute: int, second: int)

  /** A normalised timestamp: its 19-character text and its UTC epoch second. */
  datatype Instant = Instant(text: string, epoch: int)

  // ---------------------------------------------------------------- whitespace

  /** Characters Python's `str.strip()` removes: the code points `str.isspace()` accepts. */
  predicate IsWhitespace(c: char) {
    var n := c as int;
    || n == 32 || 9 <= n <= 13 || 28 <= n <= 31 || n == 0x85 || n == 0xA0
    || n == 0x1680 || 0x2000 <= n <= 0x200A || n == 0x2028 || n == 0x2029
    || n == 0x202F || n == 0x205F || n == 0x3000
  }

  function StripLeft(s: string): (r: string)
    ensures |r| <= |s| && r == s[|s| - |r|..]
    ensures |r| > 0 ==> !IsWhitespace(r[0])
    ensures forall i :: 0 <= i < |s| - |r| ==> IsWhitespace(s[i])
  {
    if |s| > 0 && IsWhitespace(s[0]) then StripLeft(s[1..]) else s
  }

  function StripRight(s: string): (r: string)
    ensures |r| <= |s| && r == s[..|r|]
    ensures |r| > 0 ==> !IsWhitespace(r[|r| - 1])
    ensures forall i :: |r| <= i < |s| ==> IsWhitespace(s[i])
  {
    if |s| > 0 && IsWhitespace(s[|s| - 1]) then StripRight(s[..|s| - 1]) else s
  }

  /** `str.strip()`: drop surrounding whitespace. */
  function Strip(s: string): string {
    StripRight(StripLeft(s))
  }

  lemma StripIdentity(s: string)
    requires |s| > 0 && !IsWhitespace(s[0]) && !IsWhitespace(s[|s| - 1])
    ensures Strip(s) == s
  {
  }

  /** One whitespace character on each side of a string with non-whitespace ends is
      stripped away, whichever whitespace characters they are. */
  lemma StripSurrounded(w: char, t: string, w': char)
    requires IsWhitespace(w) && IsWhitespace(w')
    requires |t| > 0 && !IsWhitespace(t[0]) && !IsWhitespace(t[|t| - 1])
    ensures Strip([w] + t + [w']) == t
  {
    assert ([w] + t + [w'])[1..] == t + [w'];
    assert StripLeft(t + [w']) == t + [w'];
    assert (t + [w'])[..|t|] == t;
  }

  /** Unicode spaces beyond Latin-1 count: an ideographic space before a timestamp
      and a line separator after it are stripped, and the padded text parses as the
      bare one does. */
  lemma StripUnicodeSpaces()
    ensures Strip(['\U{3000}'] + "2024-01-01 10:00" + ['\U{2028}']) == "2024-01-01 10:00"
    ensures ParseTimestamp(['\U{3000}'] + "2024-01-01 10:00" + ['\U{2028}']) == ParseTimestamp("2024-01-01 10:00")
  {
    var t := "2024-01-01 10:00";
    var padded := ['\U{3000}'] + t + ['\U{2028}'];
    StripSurrounded('\U{3000}', t, '\U{2028}');
    StripIdentity(t);
    ParseReadsStripped(padded, t);
  }

  /** The parse sees only the stripped text. */
  lemma ParseReadsStripped(a: string, b: string)
    requires Strip(a) == Strip(b)
    ensures ParseTimestamp(a) == ParseTimestamp(b)
  {
    hide ParseComponents, EpochOf;
  }

  // ---------------------------------------------------------------- digits

  predicate IsDigit(c: char) {
    '0' <= c <= '9'
  }

  predicate AllDigits(s: string) {
    forall i :: 0 <= i < |s| ==> IsDigit(s[i])
  }

  function DigitChar(d: nat): char
    requires d < 10
  {
    ('0' as int + d) as char
  }

  function Pow10(n: nat): nat {
    if n == 0 then 1 else 10 * Pow10(n - 1)
  }

  /** The decimal value of a string of ASCII digits (what `int()` gives it). */
  function DecimalValue(s: string): nat
    requires AllDigits(s)
  {
    if |s| == 0 then 0 else 10 * DecimalValue(s[..|s| - 1]) + (s[|s| - 1] as int - '0' as int)
  }

  /** The `width` lowest decimal digits of `n`, zero padded (what `%0<width>d` prints). */
  function Digits(n: nat, width: nat): (s: string)
    ensures |s| == width && AllDigits(s)
  {
    if width == 0 then "" else Digits(n / 10, width - 1) + [DigitChar(n % 10)]
  }

  /** Rendering a number that fits in `width` digits and reading it back gives it again. */
  lemma {:induction false} DecimalValueOfDigits(n: nat, width: nat)
    requires n < Pow10(width)
    ensures DecimalValue(Digits(n, width)) == n
  {
    if width > 0 {
      assert n / 10 < Pow10(width - 1);
      DecimalValueOfDigits(n / 10, width - 1);
      var s := Digits(n, width);
      assert s[..|s| - 1] == Digits(n / 10, width - 1);
    }
  }

  /** Reading a digit string and rendering it at the same width gives the string again. */
  lemma {:induction false} DigitsOfDecimalValue(s: string)
    requires AllDigits(s)
    ensures DecimalValue(s) < Pow10(|s|)
    ensures Digits(DecimalValue(s), |s|) == s
  {
    if |s| > 0 {
      var init := s[..|s| - 1];
      var d := s[|s| - 1] as int - '0' as int;
      DigitsOfDecimalValue(init);
      var v := DecimalValue(s);
      assert v == 10 * DecimalValue(init) + d;
      assert v / 10 == DecimalValue(init) && v % 10 == d;
      assert s == init + [s[|s| - 1]];
    }
  }

  // ---------------------------------------------------------------- calendar

  predicate IsLeapYear(y: int) {
    y % 4 == 0 && (y % 100 != 0 || y % 400 == 0)
  }

  function DaysInMonth(y: int, m: int): int
    requires 1 <= m <= 12
  {
    if m == 2 then (if IsLeapYear(y) then 29 else 28)
    else if m == 4 || m == 6 || m == 9 || m == 11 then 30
    else 31
  }

  function DaysInYear(y: int): int {
    if IsLeapYear(y) then 366 else 365
  }

  /** The field ranges Python's `datetime(...)` constructor accepts. */
  predicate ValidDateTime(dt: DateTime) {
    && 1 <= dt.year <= 9999
    && 1 <= dt.month <= 12
    && 1 <= dt.day <= DaysInMonth(dt.year, dt.month)
    && 0 <= dt.hour <= 23
    && 0 <= dt.minute <= 59
    && 0 <= dt.second <= 59
  }

  /** Days in the years 1 .. y - 1 of the proleptic Gregorian calendar. */
  function DaysBeforeYear(y: int): int
    requires y >= 1
  {
    var n := y - 1;
    365 * n + n / 4 - n / 100 + n / 400
  }

  function DaysBeforeMonth(y: int, m: int): int
    requires 1 <= m <= 12
  {
    var common :=
      if m == 1 then 0 else if m == 2 then 31 else if m == 3 then 59
      else if m == 4 then 90 else if m == 5 then 120 else if m == 6 then 151
      else if m == 7 then 181 else if m == 8 then 212 else if m == 9 then 243
      else if m == 10 then 273 else if m == 11 then 304 else 334;
    common + (if m > 2 && IsLeapYear(y) then 1 else 0)
  }

  /** Proleptic Gregorian ordinal: 0001-01-01 is day 1 (Python's `date.toordinal`). */
  function DayNumber(dt: DateTime): int
    requires ValidDateTime(dt)
  {
    DaysBeforeYear(dt.year) + DaysBeforeMonth(dt.year, dt.month) + dt.day
  }

  /** Ordinal of 1970-01-01. */
  const UnixEpochDay: int := 719163

  /** `to_epoch_seconds`: the datetime read as UTC, in seconds since 1970-01-01 00:00:00. */
  function EpochOf(dt: DateTime): int
    requires ValidDateTime(dt)
  {
    (DayNumber(dt) - UnixEpochDay) * 86400 + dt.hour * 3600 + dt.minute * 60 + dt.second
  }

  /** Chronological order on calendar fields: lexicographic in (Y, M, D, h, m, s). */
  predicate Before(a: DateTime, b: DateTime) {
    || a.year < b.year
    || (a.year == b.year && a.month < b.month)
    || (a.year == b.year && a.month == b.month && a.day < b.day)
    || (a.year == b.year && a.month == b.month && a.day == b.day && a.hour < b.hour)
    || (a.year == b.year && a.month == b.month && a.day == b.day && a.hour == b.hour && a.minute < b.minute)
    || (a.year == b.year && a.month == b.month && a.day == b.day && a.hour == b.hour && a.minute == b.minute
        && a.second < b.second)
  }

  lemma {:induction false} MulAtLeast(k: int, d: int)
    requires k >= 1 && d > 0
    ensures k * d >= d
    decreases k
  {
    if k > 1 {
      MulAtLeast(k - 1, d);
      assert k * d == (k - 1) * d + d;
    }
  }

  /** Quotient and remainder are determined by the division equation. */
  lemma DivUnique(n: int, d: int, q: int, r: int)
    requires d > 0 && 0 <= r < d && n == q * d + r
    ensures n / d == q && n % d == r
  {
    var q', r' := n / d, n % d;
    assert q * d - q' * d == (q - q') * d;
    if q > q' {
      MulAtLeast(q - q', d);
    } else if q < q' {
      assert q' * d - q * d == (q' - q) * d;
      MulAtLeast(q' - q, d);
    }
  }

  /** Counting multiples of `d`: the quotient goes up by one exactly at a multiple. */
  lemma DivStep(n: int, d: int)
    requires n >= 0 && d > 0
    ensures (n + 1) / d == n / d + (if (n + 1) % d == 0 then 1 else 0)
  {
    var q, r := n / d, n % d;
    if r == d - 1 {
      DivUnique(n + 1, d, q + 1, 0);
    } else {
      DivUnique(n + 1, d, q, r + 1);
    }
  }

  lemma YearStep(y: int)
    requires y >= 1
    ensures DaysBeforeYear(y + 1) == DaysBeforeYear(y) + DaysInYear(y)
  {
    DivStep(y - 1, 4);
    DivStep(y - 1, 100);
    DivStep(y - 1, 400);
    if y % 100 == 0 {
      DivUnique(y, 4, 25 * (y / 100), 0);
    }
    if y % 400 == 0 {
      DivUnique(y, 100, 4 * (y / 400), 0);
    }
  }

  lemma {:induction false} YearsAdvance(a: int, b: int)
    requires 1 <= a < b
    ensures DaysBeforeYear(a) + DaysInYear(a) <= DaysBeforeYear(b)
    decreases b - a
  {
    YearStep(a);
    if a + 1 < b {
      YearsAdvance(a + 1, b);
    }
  }

  lemma MonthsAdvance(y: int, m1: int, m2: int)
    requires 1 <= m1 < m2 <= 12
    ensures DaysBeforeMonth(y, m1) + DaysInMonth(y, m1) <= DaysBeforeMonth(y, m2)
  {
  }

  lemma LastMonth(y: int, m: int)
    requires 1 <= m <= 12
    ensures DaysBeforeMonth(y, m) + DaysInMonth(y, m) <= DaysInYear(y)
  {
  }

  lemma DayNumberIncreasing(a: DateTime, b: DateTime)
    requires ValidDateTime(a) && ValidDateTime(b)
    requires a.year < b.year || (a.year == b.year && a.month < b.month)
             || (a.year == b.year && a.month == b.month && a.day < b.day)
    ensures DayNumber(a) < DayNumber(b)
  {
    if a.year < b.year {
      LastMonth(a.year, a.month);
      YearsAdvance(a.year, b.year);
    } else if a.month < b.month {
      MonthsAdvance(a.year, a.month, b.month);
    }
  }

  /** `to_epoch_seconds` is strictly increasing in chronological order. */
  lemma EpochStrictlyIncreasing(a: DateTime, b: DateTime)
    requires ValidDateTime(a) && ValidDateTime(b)
    requires Before(a, b)
    ensures EpochOf(a) < EpochOf(b)
  {
    if a.year < b.year || (a.year == b.year && a.month < b.month)
       || (a.year == b.year && a.month == b.month && a.day < b.day) {
      DayNumberIncreasing(a, b);
    }
  }

  /** The epoch orders valid datetimes exactly as the calendar does, and identifies them. */
  lemma EpochOrderIsChronological(a: DateTime, b: DateTime)
    requires ValidDateTime(a) && ValidDateTime(b)
    ensures EpochOf(a) < EpochOf(b) <==> Before(a, b)
    ensures EpochOf(a) == EpochOf(b) <==> a == b
  {
    if Before(a, b) {
      EpochStrictlyIncreasing(a, b);
    } else if Before(b, a) {
      EpochStrictlyIncreasing(b, a);
    }
  }

  // ---------------------------------------------------------------- rendering

  /** The canonical 19-character form `YYYY-MM-DD HH:mm:ss`. */
  function Render(dt: DateTime): (s: string)
    requires ValidDateTime(dt)
    ensures |s| == 19
  {
    Digits(dt.year, 4) + "-" + Digits(dt.month, 2) + "-" + Digits(dt.day, 2) + " "
    + Digits(dt.hour, 2) + ":" + Digits(dt.minute, 2) + ":" + Digits(dt.second, 2)
  }

  // ---------------------------------------------------------------- parsing

  /** The separators at positions 4, 7, 10, 13 (and 16 for the long form). */
  predicate HasShape(c: string) {
    && (|c| == 16 || |c| == 19)
    && c[4] == '-' && c[7] == '-' && c[10] == ' ' && c[13] == ':'
    && (|c| == 19 ==> c[16] == ':')
  }

  predicate NumericFields(c: string)
    requires HasShape(c)
  {
    && AllDigits(c[0..4]) && AllDigits(c[5..7]) && AllDigits(c[8..10])
    && AllDigits(c[11..13]) && AllDigits(c[14..16])
    && (|c| == 19 ==> AllDigits(c[17..19]))
  }

  function FieldsOf(c: string): DateTime
    requires HasShape(c) && NumericFields(c)
  {
    DateTime(DecimalValue(c[0..4]), DecimalValue(c[5..7]), DecimalValue(c[8..10]),
             DecimalValue(c[11..13]), DecimalValue(c[14..16]),
             if |c| == 19 then DecimalValue(c[17..19]) else 0)
  }

  /** `_parse_timestamp_components` on an already stripped string: the datetime and
      the normalised text. A successful parse's text is the canonical rendering of the
      datetime it read, and extends the input by `:00` exactly when seconds were absent. */
  function ParseComponents(c: string): (r: Result<(DateTime, string), TimeError>)
    ensures r.Success? ==> ValidDateTime(r.value.0) && r.value.1 == Render(r.value.0)
    ensures r.Success? ==> |c| == 19 ==> r.value.1 == c
    ensures r.Success? ==> |c| == 16 ==> r.value.1 == c + ":00" && r.value.0.second == 0
    ensures r.Failure? ==> r.error == MalformedTimestamp
  {
    if |c| != 16 && |c| != 19 then Failure(MalformedTimestamp)
    else if !HasShape(c) then Failure(MalformedTimestamp)
    else if !NumericFields(c) then Failure(MalformedTimestamp)
    else
      var dt := FieldsOf(c);
      if !ValidDateTime(dt) then Failure(MalformedTimestamp)
      else
        var normalized := if |c| == 19 then c else c + ":00";
        RenderOfFields(c);
        Success((dt, normalized))
  }

  /** The canonical text re-read from a well-formed string's own fields. */
  lemma RenderOfFields(c: string)
    requires HasShape(c) && NumericFields(c) && ValidDateTime(FieldsOf(c))
    ensures Render(FieldsOf(c)) == if |c| == 19 then c else c + ":00"
  {
    var n := if |c| == 19 then c else c + ":00";
    FieldsRerender(c);
    JoinFields(n);
  }

  /** Each field of a well-formed string, re-rendered, is the text it was read from
      (the seconds of the short form render as `00`). */
  lemma FieldsRerender(c: string)
    requires HasShape(c) && NumericFields(c)
    ensures var dt, n := FieldsOf(c), if |c| == 19 then c else c + ":00";
      && |n| == 19 && HasShape(n)
      && Digits(dt.year, 4) == n[0..4] && Digits(dt.month, 2) == n[5..7] && Digits(dt.day, 2) == n[8..10]
      && Digits(dt.hour, 2) == n[11..13] && Digits(dt.minute, 2) == n[14..16] && Digits(dt.second, 2) == n[17..19]
  {
    if |c| == 19 {
      LongFieldsRerender(c);
    } else {
      ShortAndLongAgree(c);
      LongFieldsRerender(c + ":00");
    }
  }

  lemma LongFieldsRerender(n: string)
    requires |n| == 19 && HasShape(n) && NumericFields(n)
    ensures var dt := FieldsOf(n);
      && Digits(dt.year, 4) == n[0..4] && Digits(dt.month, 2) == n[5..7] && Digits(dt.day, 2) == n[8..10]
      && Digits(dt.hour, 2) == n[11..13] && Digits(dt.minute, 2) == n[14..16] && Digits(dt.second, 2) == n[17..19]
  {
    DigitsOfDecimalValue(n[0..4]);
    DigitsOfDecimalValue(n[5..7]);
    DigitsOfDecimalValue(n[8..10]);
    DigitsOfDecimalValue(n[11..13]);
    DigitsOfDecimalValue(n[14..16]);
    DigitsOfDecimalValue(n[17..19]);
  }

  /** A 19-character string of the long shape is its fields joined by its separators. */
  lemma JoinFields(n: string)
    requires |n| == 19 && HasShape(n)
    ensures n == n[0..4] + "-" + n[5..7] + "-" + n[8..10] + " " + n[11..13] + ":" + n[14..16] + ":" + n[17..19]
  {
    assert n[0..4] + "-" == n[0..5];
    assert n[0..5] + n[5..7] == n[0..7];
    assert n[0..7] + "-" == n[0..8];
    assert n[0..8] + n[8..10] == n[0..10];
    assert n[0..10] + " " == n[0..11];
    assert n[0..11] + n[11..13] == n[0..13];
    assert n[0..13] + ":" == n[0..14];
    assert n[0..14] + n[14..16] == n[0..16];
    assert n[0..16] + ":" == n[0..17];
    assert n[0..17] + n[17..19] == n[0..19] == n;
  }

  /** `parse_timestamp_to_epoch`: strip, parse, normalise, convert to epoch seconds. */
  function ParseTimestamp(value: string): (r: Result<Instant, TimeError>)
    ensures r.Success? ==> |r.value.text| == 19
    ensures r.Failure? ==> (r.error == EmptyTimestamp <==> |Strip(value)| == 0)
  {
    var cleaned := Strip(value);
    if |cleaned| == 0 then Failure(EmptyTimestamp)
    else
      match ParseComponents(cleaned)
      case Failure(e) => Failure(e)
      case Success((dt, normalized)) => Success(Instant(normalized, EpochOf(dt)))
  }

  /** A successful parse is exactly a stripped string of the right shape, with
      numeric fields that name a real calendar instant. */
  lemma ParseAcceptsExactly(value: string)
    ensures ParseTimestamp(value).Success? <==>
      var c := Strip(value);
      HasShape(c) && NumericFields(c) && ValidDateTime(FieldsOf(c))
  {
  }

  /** Where each field and separator sits in the rendering. */
  lemma RenderLayout(dt: DateTime)
    requires ValidDateTime(dt)
    ensures var s := Render(dt);
      && s[0..4] == Digits(dt.year, 4) && s[5..7] == Digits(dt.month, 2) && s[8..10] == Digits(dt.day, 2)
      && s[11..13] == Digits(dt.hour, 2) && s[14..16] == Digits(dt.minute, 2) && s[17..19] == Digits(dt.second, 2)
      && s[4] == '-' && s[7] == '-' && s[10] == ' ' && s[13] == ':' && s[16] == ':'
  {
  }

  /** The rendering has the long shape and reads back as the same fields. */
  lemma ReadRender(dt: DateTime)
    requires ValidDateTime(dt)
    ensures HasShape(Render(dt)) && NumericFields(Render(dt)) && FieldsOf(Render(dt)) == dt
  {
    RenderLayout(dt);
    hide Render;
    DecimalValueOfDigits(dt.year, 4);
    DecimalValueOfDigits(dt.month, 2);
    DecimalValueOfDigits(dt.day, 2);
    DecimalValueOfDigits(dt.hour, 2);
    DecimalValueOfDigits(dt.minute, 2);
    DecimalValueOfDigits(dt.second, 2);
  }

  /** Rendering a valid datetime and parsing it back gives the same instant. */
  lemma ParseRender(dt: DateTime)
    requires ValidDateTime(dt)
    ensures ParseTimestamp(Render(dt)) == Success(Instant(Render(dt), EpochOf(dt)))
  {
    var s := Render(dt);
    ReadRender(dt);
    RenderStripped(dt);
    hide Render, Strip;
  }

  /** The canonical rendering has no surrounding whitespace. */
  lemma RenderStripped(dt: DateTime)
    requires ValidDateTime(dt)
    ensures Strip(Render(dt)) == Render(dt)
  {
    var s := Render(dt);
    RenderLayout(dt);
    assert IsDigit(s[0]) && IsDigit(s[18]) by {
      assert s[0] == s[0..4][0] && s[18] == s[17..19][1];
    }
    StripIdentity(s);
  }

  /** Normalisation is idempotent: the normalised text parses to itself and the same epoch. */
  lemma ParseIdempotent(value: string)
    requires ParseTimestamp(value).Success?
    ensures ParseTimestamp(ParseTimestamp(value).value.text) == ParseTimestamp(value)
  {
    var c := Strip(value);
    var dt := ParseComponents(c).value.0;
    ParseRender(dt);
  }

  /** The short and long forms of the same minute have the same shape, digits and fields. */
  lemma ShortAndLongAgree(c: string)
    requires |c| == 16
    ensures HasShape(c) && NumericFields(c) <==> HasShape(c + ":00") && NumericFields(c + ":00")
    ensures HasShape(c) && NumericFields(c) ==> FieldsOf(c) == FieldsOf(c + ":00")
  {
    var long := c + ":00";
    assert long[0..4] == c[0..4] && long[5..7] == c[5..7] && long[8..10] == c[8..10];
    assert long[11..13] == c[11..13] && long[14..16] == c[14..16];
    assert long[17..19] == "00";
    assert long[16] == ':';
    assert DecimalValue("00") == 0 by {
      assert "00"[..1] == "0";
    }
  }

  /** An `HH:mm` timestamp reads as the same instant as `HH:mm:00`. */
  lemma ShortFormMeansZeroSeconds(c: string)
    requires |c| == 16 && !IsWhitespace(c[0]) && !IsWhitespace(c[15])
    ensures ParseTimestamp(c) == ParseTimestamp(c + ":00")
  {
    var long := c + ":00";
    StripIdentity(c);
    StripIdentity(long);
    ShortAndLongAgree(c);
  }

  /** Epoch zero is 1970-01-01 00:00:00, and reads back from its canonical text. */
  lemma UnixEpochIsZero()
    ensures EpochOf(DateTime(1970, 1, 1, 0, 0, 0)) == 0
    ensures ParseTimestamp("1970-01-01 00:00:00") == Success(Instant("1970-01-01 00:00:00", 0))
  {
    var dt := DateTime(1970, 1, 1, 0, 0, 0);
    assert DaysBeforeYear(1970) == 719162;
    RenderUnixEpoch();
    ParseRender(dt);
  }

  lemma RenderUnixEpoch()
    ensures Render(DateTime(1970, 1, 1, 0, 0, 0)) == "1970-01-01 00:00:00"
  {
    DigitsOf1970();
    assert Digits(1, 2) == "01" && Digits(0, 2) == "00";
  }

  lemma DigitsOf1970()
    ensures Digits(1970, 4) == "1970"
  {
    assert Digits(1, 1) == "1";
    assert Digits(19, 2) == "19";
    assert Digits(197, 3) == "197";
  }
}
