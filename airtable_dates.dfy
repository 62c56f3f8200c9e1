/**
 * Dates as the dashboard back end handles them: `datetime.strptime(s,
 * "%Y-%m-%d")` with the regular expressions CPython's `_strptime` uses for
 * those directives, the two `strftime` renderings ("%m/%d/%Y" for Airtable,
 * "%Y-%m" for chart months), `date.toordinal`, and `format_date_to_airtable`
 * with its HTTP 400 error.
 */
module AirtableDates {
  import opened Wrappers
  import opened Text

  /** An `HTTPException`: a status code and its detail text. */
  datatype HttpError = HttpError(status: int, detail: string)

  /** A calendar date (`datetime` at midnight). */
  datatype Date = Date(year: nat, month: nat, day: nat)

  predicate IsLeap(y: nat) {
    y % 4 == 0 && (y % 100 != 0 || y % 400 == 0)
  }

  function DaysInMonth(y: nat, m: nat): (n: nat)
    requires 1 <= m <= 12
    ensures 28 <= n <= 31
  {
    if m == 2 then (if IsLeap(y) then 29 else 28)
    else if m == 4 || m == 6 || m == 9 || m == 11 then 30
    else 31
  }

  /** The dates `datetime` can hold: years 1 .. 9999 and real calendar days. */
  predicate ValidDate(d: Date) {
    1 <= d.year <= 9999 && 1 <= d.month <= 12 && 1 <= d.day <= DaysInMonth(d.year, d.month)
  }

  // ---------------------------------------------------------------------
  // strptime(s, "%Y-%m-%d").

  /**
   * The `%m` group `1[0-2]|0[1-9]|[1-9]` followed by the literal '-': the month
   * and the text after the dash.
   */
  function MonthField(t: string): (r: Option<(nat, string)>)
    ensures r.Some? ==> 1 <= r.value.0 <= 12 && |r.value.1| < |t|
  {
    if |t| >= 3 && t[2] == '-' && ((t[0] == '1' && '0' <= t[1] <= '2') || (t[0] == '0' && '1' <= t[1] <= '9')) then
      Some((10 * DigitValue(t[0]) + DigitValue(t[1]), t[3..]))
    else if |t| >= 2 && t[1] == '-' && '1' <= t[0] <= '9' then
      Some((DigitValue(t[0]), t[2..]))
    else None
  }

  /**
   * The `%d` group `3[0-1]|[1-2]\d|0[1-9]|[1-9]| [1-9]`, which must take up the
   * rest of the text ("unconverted data remains" otherwise).
   */
  function DayField(t: string): (r: Option<nat>)
    ensures r.Some? ==> 1 <= r.value <= 31
  {
    if |t| == 2 && ((t[0] == '3' && '0' <= t[1] <= '1') || ('1' <= t[0] <= '2' && IsDigit(t[1])) || (t[0] == '0' && '1' <= t[1] <= '9')) then
      Some(10 * DigitValue(t[0]) + DigitValue(t[1]))
    else if |t| == 2 && t[0] == ' ' && '1' <= t[1] <= '9' then
      Some(DigitValue(t[1]))
    else if |t| == 1 && '1' <= t[0] <= '9' then
      Some(DigitValue(t[0]))
    else None
  }

  /**
   * `datetime.strptime(s, "%Y-%m-%d")`: four year digits, a dash, the month
   * field, the day field; None stands for the ValueError raised on text that
   * does not match, on year 0 and on a day past the end of the month.
   */
  function ParseIso(s: string): (r: Option<Date>)
    ensures r.Some? ==> ValidDate(r.value)
  {
    if |s| < 5 || !AllDigits(s[..4]) || s[4] != '-' then None
    else
      var year := DecimalValue(s[..4]);
      DecimalValueBound(s[..4]);
      match MonthField(s[5..])
      case None => None
      case Some((month, rest)) =>
        match DayField(rest)
        case None => None
        case Some(day) =>
          if 1 <= year && day <= DaysInMonth(year, month) then Some(Date(year, month, day)) else None
  }

  // ---------------------------------------------------------------------
  // strftime.

  /** The canonical "YYYY-MM-DD" text of a date. */
  function IsoText(d: Date): (s: string)
    requires ValidDate(d)
    ensures |s| == 10
  {
    PadDecimal(d.year, 4) + "-" + PadDecimal(d.month, 2) + "-" + PadDecimal(d.day, 2)
  }

  /** `strftime("%m/%d/%Y")`. */
  function AirtableText(d: Date): (s: string)
    requires ValidDate(d)
    ensures |s| == 10
  {
    PadDecimal(d.month, 2) + "/" + PadDecimal(d.day, 2) + "/" + PadDecimal(d.year, 4)
  }

  /** `strftime("%Y-%m")`, the month key of the charts. */
  function MonthKey(d: Date): (s: string)
    requires ValidDate(d)
    ensures |s| == 7
  {
    PadDecimal(d.year, 4) + "-" + PadDecimal(d.month, 2)
  }

  /** `format_date_to_airtable`: reformat "YYYY-MM-DD" as "MM/DD/YYYY", or raise 400. */
  function FormatDateToAirtable(s: string): (r: Result<string, HttpError>)
  {
    match ParseIso(s)
    case Some(d) => Ok(AirtableText(d))
    case None => Err(HttpError(400, "Invalid date format: " + s))
  }

  // ---------------------------------------------------------------------
  // Properties of parsing and formatting.

  /** Two-digit zero-padded numbers, character by character. */
  lemma PadTwo(n: nat)
    requires n < 100
    ensures PadDecimal(n, 2) == [DigitChar(n / 10), DigitChar(n % 10)]
  {
    assert PadDecimal(n / 10, 1) == [DigitChar(n / 10)];
  }

  /** The canonical text of a date parses back to the date. */
  lemma ParseIsoText(d: Date)
    requires ValidDate(d)
    ensures ParseIso(IsoText(d)) == Some(d)
  {
    var s := IsoText(d);
    var y, m, dd := PadDecimal(d.year, 4), PadDecimal(d.month, 2), PadDecimal(d.day, 2);
    PadTwo(d.month);
    PadTwo(d.day);
    PadDecimalValue(d.year, 4);
    assert s[..4] == y;
    assert s[5..] == m + "-" + dd;
    assert MonthField(s[5..]) == Some((d.month, dd));
    assert DayField(dd) == Some(d.day);
  }

  /** Two digits read as a number. */
  lemma TwoDigits(t: string)
    requires |t| == 2 && AllDigits(t)
    ensures DecimalValue(t) == 10 * DigitValue(t[0]) + DigitValue(t[1])
  {
    var h := t[..1];
    assert t[..|t| - 1] == h;
    assert h[..|h| - 1] == [];
    assert DecimalValue(h) == DigitValue(t[0]);
  }

  /** The fields of a ten-character text that parses, its day written without a leading space. */
  lemma ParsedFields(s: string)
    requires |s| == 10 && s[8] != ' ' && ParseIso(s).Some?
    ensures s[4] == '-' && s[7] == '-'
    ensures AllDigits(s[..4]) && AllDigits(s[5..7]) && AllDigits(s[8..])
    ensures ParseIso(s).value == Date(DecimalValue(s[..4]), DecimalValue(s[5..7]), DecimalValue(s[8..]))
  {
    var t := s[5..];
    assert t[2] == '-' && MonthField(t) == Some((10 * DigitValue(t[0]) + DigitValue(t[1]), s[8..]));
    assert s[5..7] == t[..2];
    TwoDigits(s[5..7]);
    TwoDigits(s[8..]);
  }

  /**
   * A ten-character text that parses, and whose day is not written with a
   * leading space, is the canonical text of its date.
   */
  lemma IsoTextOfParse(s: string)
    requires |s| == 10 && s[8] != ' ' && ParseIso(s).Some?
    ensures IsoText(ParseIso(s).value) == s
  {
    ParsedFields(s);
    DecimalValuePad(s[..4]);
    DecimalValuePad(s[5..7]);
    DecimalValuePad(s[8..]);
    assert s == s[..4] + "-" + s[5..7] + "-" + s[8..];
  }

  /** The Airtable text reads back as month, day and year, separated by '/'. */
  lemma AirtableTextFields(d: Date)
    requires ValidDate(d)
    ensures var s := AirtableText(d);
      s[2] == '/' && s[5] == '/'
      && AllDigits(s[..2]) && DecimalValue(s[..2]) == d.month
      && AllDigits(s[3..5]) && DecimalValue(s[3..5]) == d.day
      && AllDigits(s[6..]) && DecimalValue(s[6..]) == d.year
  {
    var s := AirtableText(d);
    PadDecimalValue(d.month, 2);
    PadDecimalValue(d.day, 2);
    PadDecimalValue(d.year, 4);
    assert s[..2] == PadDecimal(d.month, 2);
    assert s[3..5] == PadDecimal(d.day, 2);
    assert s[6..] == PadDecimal(d.year, 4);
  }

  /** `format_date_to_airtable` succeeds exactly on the texts strptime accepts, and fails with 400 otherwise. */
  lemma FormatDateOutcome(s: string)
    ensures FormatDateToAirtable(s).Ok? <==> ParseIso(s).Some?
    ensures FormatDateToAirtable(s).Ok? ==> |FormatDateToAirtable(s).value| == 10
    ensures FormatDateToAirtable(s).Err? ==> FormatDateToAirtable(s).error.status == 400
  {
  }

  /** Canonical input is turned around field by field: "YYYY-MM-DD" becomes "MM/DD/YYYY". */
  lemma FormatCanonical(d: Date)
    requires ValidDate(d)
    ensures FormatDateToAirtable(IsoText(d)) ==
      Ok(IsoText(d)[5..7] + "/" + IsoText(d)[8..10] + "/" + IsoText(d)[..4])
  {
    ParseIsoText(d);
    var s := IsoText(d);
    assert s[..4] == PadDecimal(d.year, 4);
    assert s[5..7] == PadDecimal(d.month, 2);
    assert s[8..10] == PadDecimal(d.day, 2);
  }

  /** strptime also takes unpadded fields: "2024-1-5" is 5 January 2024. */
  lemma UnpaddedAccepted()
    ensures FormatDateToAirtable("2024-1-5") == Ok("01/05/2024")
  {
    var s := "2024-1-5";
    Year2024();
    YearValue(s, 2024);
    assert s[5..] == "1-5";
    assert MonthField("1-5") == Some((1, "5"));
    var d := Date(2024, 1, 5);
    assert ParseIso(s) == Some(d);
    PadTwo(1);
    PadTwo(5);
    assert DigitChar(0) == '0' && DigitChar(1) == '1' && DigitChar(5) == '5';
    assert PadDecimal(1, 2) == "01" && PadDecimal(5, 2) == "05";
    assert AirtableText(d) == "01" + "/" + "05" + "/" + "2024" == "01/05/2024";
    assert FormatDateToAirtable(s) == Ok(AirtableText(d));
  }

  lemma Year2024()
    ensures PadDecimal(2024, 4) == "2024"
  {
    assert PadDecimal(2, 1) == "2";
    assert PadDecimal(20, 2) == "20";
    assert PadDecimal(202, 3) == "202";
  }

  lemma Year2023()
    ensures PadDecimal(2023, 4) == "2023"
  {
    assert PadDecimal(2, 1) == "2";
    assert PadDecimal(20, 2) == "20";
    assert PadDecimal(202, 3) == "202";
  }

  /** The year field of a literal date text. */
  lemma YearValue(s: string, y: nat)
    requires y < 10000 && |s| >= 4 && s[..4] == PadDecimal(y, 4)
    ensures AllDigits(s[..4]) && DecimalValue(s[..4]) == y
  {
    PadDecimalValue(y, 4);
  }

  /** A day past the end of the month is rejected: 2023 is not a leap year. */
  lemma NoLeapDay()
    ensures FormatDateToAirtable("2023-02-29").Err?
    ensures FormatDateToAirtable("2023-02-29").error.status == 400
  {
    var s := "2023-02-29";
    Year2023();
    YearValue(s, 2023);
    assert s[5..] == "02-29";
    assert "02-29"[3..] == "29";
    assert MonthField("02-29") == Some((2, "29"));
  }

  // ---------------------------------------------------------------------
  // Order.

  /** Calendar order. */
  predicate Before(a: Date, b: Date) {
    a.year < b.year || (a.year == b.year && (a.month < b.month || (a.month == b.month && a.day < b.day)))
  }

  /** Texts joined by '-' compare field by field when the first fields have equal widths. */
  lemma DashOrder(a: string, x: string, c: string, y: string)
    requires |a| == |c|
    ensures LexLess(a + "-" + x, c + "-" + y) <==> LexLess(a, c) || (a == c && LexLess(x, y))
  {
    assert a + "-" + x == a + ("-" + x);
    assert c + "-" + y == c + ("-" + y);
    LexLessIrreflexive(a);
    LexLessConcat(a, "-" + x, c, "-" + y);
    LexLessConcat("-", x, "-", y);
  }

  /** Equal-width numbers are equal exactly when their padded texts are. */
  lemma PadInjective(m: nat, n: nat, w: nat)
    requires m < Pow10(w) && n < Pow10(w)
    ensures PadDecimal(m, w) == PadDecimal(n, w) <==> m == n
  {
    PadDecimalValue(m, w);
    PadDecimalValue(n, w);
  }

  /** One field of two dates: string order of the padded texts is numeric order. */
  lemma FieldOrder(m: nat, n: nat, w: nat)
    requires m < Pow10(w) && n < Pow10(w)
    ensures LexLess(PadDecimal(m, w), PadDecimal(n, w)) <==> m < n
    ensures PadDecimal(m, w) == PadDecimal(n, w) <==> m == n
  {
    LexLessDigits(PadDecimal(m, w), PadDecimal(n, w));
    PadDecimalValue(m, w);
    PadDecimalValue(n, w);
  }

  /** Zero-padded date texts compare as strings exactly as their dates compare in time. */
  lemma IsoOrder(a: Date, b: Date)
    requires ValidDate(a) && ValidDate(b)
    ensures LexLess(IsoText(a), IsoText(b)) <==> Before(a, b)
  {
    var ya, ma, da := PadDecimal(a.year, 4), PadDecimal(a.month, 2), PadDecimal(a.day, 2);
    var yb, mb, db := PadDecimal(b.year, 4), PadDecimal(b.month, 2), PadDecimal(b.day, 2);
    FieldOrder(a.year, b.year, 4);
    FieldOrder(a.month, b.month, 2);
    FieldOrder(a.day, b.day, 2);
    assert IsoText(a) == ya + "-" + (ma + "-" + da);
    assert IsoText(b) == yb + "-" + (mb + "-" + db);
    DashOrder(ya, ma + "-" + da, yb, mb + "-" + db);
    DashOrder(ma, da, mb, db);
  }

  /**
   * Texts strptime accepts without padding do not compare as their dates:
   * "2024-10-01" sorts before "2024-9-1" although 1 October follows 1 September.
   */
  lemma UnpaddedMisorder()
    ensures ParseIso("2024-9-1") == Some(Date(2024, 9, 1))
    ensures ParseIso("2024-10-01") == Some(Date(2024, 10, 1))
    ensures LexLess("2024-10-01", "2024-9-1") && Before(Date(2024, 9, 1), Date(2024, 10, 1))
  {
    var s, t := "2024-9-1", "2024-10-01";
    Year2024();
    YearValue(s, 2024);
    YearValue(t, 2024);
    assert s[5..] == "9-1";
    assert t[5..] == "10-01";
    assert MonthField("9-1") == Some((9, "1"));
    assert "10-01"[3..] == "01";
    assert MonthField("10-01") == Some((10, "01"));
    MisorderedTexts();
  }

  lemma MisorderedTexts()
    ensures LexLess("2024-10-01", "2024-9-1")
  {
    assert "2024-10-01" == "2024-" + "10-01" && "2024-9-1" == "2024-" + "9-1";
    LexLessConcat("2024-", "10-01", "2024-", "9-1");
  }

  // ---------------------------------------------------------------------
  // Day numbers.

  function YearDays(y: nat): nat {
    if IsLeap(y) then 366 else 365
  }

  /** Days in the years before year y, counted from 1 January of year 1. */
  function DaysBeforeYear(y: nat): nat
    requires y >= 1
  {
    if y == 1 then 0 else DaysBeforeYear(y - 1) + YearDays(y - 1)
  }

  function DaysBeforeMonth(y: nat, m: nat): nat
    requires 1 <= m <= 13
    decreases m
  {
    if m == 1 then 0 else DaysBeforeMonth(y, m - 1) + DaysInMonth(y, m - 1)
  }

  /** `date.toordinal()`: 1 January of year 1 is day 1. */
  function Ordinal(d: Date): int
    requires ValidDate(d)
  {
    DaysBeforeYear(d.year) + DaysBeforeMonth(d.year, d.month) + d.day
  }

  /** The day after d in the calendar. */
  function NextDay(d: Date): Date
    requires ValidDate(d)
  {
    if d.day < DaysInMonth(d.year, d.month) then Date(d.year, d.month, d.day + 1)
    else if d.month < 12 then Date(d.year, d.month + 1, 1)
    else Date(d.year + 1, 1, 1)
  }

  /** A year has 366 days when it is a leap year and 365 otherwise. */
  lemma {:induction false} YearLength(y: nat)
    ensures DaysBeforeMonth(y, 13) == YearDays(y)
  {
    var f := DaysInMonth(y, 2);
    assert DaysBeforeMonth(y, 3) == 31 + f;
    assert DaysBeforeMonth(y, 5) == 92 + f;
    assert DaysBeforeMonth(y, 7) == 153 + f;
    assert DaysBeforeMonth(y, 9) == 215 + f;
    assert DaysBeforeMonth(y, 11) == 276 + f;
  }

  /** Consecutive days have consecutive ordinals, so ordinal differences count days. */
  lemma OrdinalNext(d: Date)
    requires ValidDate(d) && d.year < 9999
    ensures ValidDate(NextDay(d)) && Ordinal(NextDay(d)) == Ordinal(d) + 1
  {
    if d.day == DaysInMonth(d.year, d.month) && d.month == 12 {
      YearLength(d.year);
    }
  }
}
