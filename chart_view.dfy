/**
 * The chart page's data shaping: the latest month over all charts, the
 * twelve month labels ending there, and each chart's rows aligned to those
 * labels. A JavaScript month timestamp is modelled by its month number
 * year * 12 + (month - 1), which orders months as the timestamps do; times
 * are taken in UTC.
 */
module ChartView {
  import opened Wrappers
  import opened Text
  import opened AirtableDates
  import opened ChartJson

  // ---------------------------------------------------------------------
  // Month numbers.

  /** `new Date(year, ...)` reads the years 0 to 99 as 1900 to 1999. */
  function JsYear(y: nat): nat {
    if y <= 99 then 1900 + y else y
  }

  /**
   * The month number of a "YYYY-MM" text, as `new Date(year, month - 1)`
   * gives it: a month field past 12 (or 00) rolls into the next (or previous)
   * year. None stands for NaN.
   */
  function MonthIndex(s: string): Option<int> {
    if |s| == 7 && AllDigits(s[..4]) && s[4] == '-' && AllDigits(s[5..])
    then Some(JsYear(DecimalValue(s[..4])) * 12 + DecimalValue(s[5..]) - 1)
    else None
  }

  /** A JavaScript number as `Math.max` sees it. */
  datatype JsNumber = NegInfinity | NaN | Finite(v: int)

  /** `Math.max` of two numbers: NaN wins, minus infinity loses. */
  function JsMax(a: JsNumber, b: JsNumber): JsNumber {
    if a.NaN? || b.NaN? then NaN
    else if a.NegInfinity? then b
    else if b.NegInfinity? then a
    else if a.v < b.v then b
    else a
  }

  function Stamp(month: string): JsNumber {
    match MonthIndex(month)
    case None => NaN
    case Some(x) => Finite(x)
  }

  /** `Math.max(...)` over the months of one chart's rows. */
  function MaxMonth(rows: seq<MonthRow>): JsNumber
    decreases |rows|
  {
    if rows == [] then NegInfinity else JsMax(MaxMonth(rows[..|rows| - 1]), Stamp(rows[|rows| - 1].month))
  }

  /** The month number of timestamp 0, the reduction's start: January 1970. */
  const Epoch: int := 1970 * 12

  /** `maxMonth > latest ? maxMonth : latest`: minus infinity and NaN never win. */
  function Later(latest: int, m: JsNumber): int {
    if m.Finite? && m.v > latest then m.v else latest
  }

  /** The latest-month reduction over the charts. */
  function LatestMonth(charts: seq<Chart>): int
    decreases |charts|
  {
    if charts == [] then Epoch else Later(LatestMonth(charts[..|charts| - 1]), MaxMonth(charts[|charts| - 1].data))
  }

  /** The year and month (1 to 12) of the `Date` that `getLast12Months` steps back. */
  datatype YearMonth = YearMonth(year: int, month: int)

  predicate ValidMonth(ym: YearMonth) {
    1 <= ym.month <= 12
  }

  /** The month number of a year and month. */
  function Index(ym: YearMonth): int {
    ym.year * 12 + ym.month - 1
  }

  /** `new Date(latestMonth)`: the year and month of a month number. */
  function FromIndex(i: int): (ym: YearMonth)
    ensures ValidMonth(ym) && Index(ym) == i
  {
    YearMonth(i / 12, i % 12 + 1)
  }

  /** `setMonth(getMonth() - 1)` on the first of a month. */
  function Prev(ym: YearMonth): (r: YearMonth)
    requires ValidMonth(ym)
    ensures ValidMonth(r) && Index(r) == Index(ym) - 1
  {
    if ym.month == 1 then YearMonth(ym.year - 1, 12) else YearMonth(ym.year, ym.month - 1)
  }

  /** The month after. */
  function Next(ym: YearMonth): (r: YearMonth)
    requires ValidMonth(ym)
    ensures ValidMonth(r) && Index(r) == Index(ym) + 1
  {
    if ym.month == 12 then YearMonth(ym.year + 1, 1) else YearMonth(ym.year, ym.month + 1)
  }

  /** A month is fixed by its month number. */
  lemma IndexInjective(a: YearMonth, b: YearMonth)
    requires ValidMonth(a) && ValidMonth(b) && Index(a) == Index(b)
    ensures a == b
  {

  }

  /** A month number that a label can be written for: years 0 to 999999. */
  predicate InRange(ym: YearMonth) {
    ValidMonth(ym) && 0 <= Index(ym) < 12 * 1000000
  }

  /** The digits of a label's year and month. */
  const YearDigits: nat := 4
  const MonthDigits: nat := 2
  /** The digits of an expanded year (section 21.4.1.32 of ECMA-262: a sign and six digits). */
  const ExpandedYearDigits: nat := 6

  /** `toISOString().slice(0, 7)` of the first of a month: "YYYY-MM", or "+YYYYYY" past year 9999. */
  function Label(ym: YearMonth): string
    requires InRange(ym)
  {
    if ym.year < 10000 then PadDecimal(ym.year, YearDigits) + "-" + PadDecimal(ym.month, MonthDigits)
    else "+" + PadDecimal(ym.year, ExpandedYearDigits)
  }

  // ---------------------------------------------------------------------
  // formatDataForChart.

  /** One bar pair of a chart. */
  datatype Point = Point(purchased: nat, used: nat)

  /** `chartData.find(item => item.month === month)`. */
  function Find(rows: seq<MonthRow>, month: string): Option<MonthRow>
    decreases |rows|
  {
    if rows == [] then None else if rows[0].month == month then Some(rows[0]) else Find(rows[1..], month)
  }

  /** `formatDataForChart`: one point per month, taken from the first row for that month, zero when none. */
  function FormatDataForChart(rows: seq<MonthRow>, months: seq<string>): (r: seq<Point>)
    ensures |r| == |months|
  {
    seq(|months|, k requires 0 <= k < |months| =>
      match Find(rows, months[k])
      case None => Point(0, 0)
      case Some(row) => Point(row.orders, row.usages))
  }

  // ---------------------------------------------------------------------
  // Properties of the latest month.

  /** Math.max is NaN when a month does not parse and minus infinity exactly for no rows. */
  lemma {:induction false} MaxMonthKinds(rows: seq<MonthRow>)
    ensures MaxMonth(rows).NegInfinity? <==> rows == []
    ensures MaxMonth(rows).NaN? <==> exists j :: 0 <= j < |rows| && MonthIndex(rows[j].month).None?
    decreases |rows|
  {
    if rows != [] {
      var init := rows[..|rows| - 1];
      MaxMonthKinds(init);
      assert forall j :: 0 <= j < |init| ==> init[j] == rows[j];
    }
  }

  /** When every month parses, Math.max is the largest month number, and some row has it. */
  lemma {:induction false} MaxMonthSpec(rows: seq<MonthRow>)
    ensures MaxMonth(rows).Finite? ==>
      (forall j :: 0 <= j < |rows| ==> MonthIndex(rows[j].month).Some? && MonthIndex(rows[j].month).value <= MaxMonth(rows).v)
      && exists j :: 0 <= j < |rows| && MonthIndex(rows[j].month) == Some(MaxMonth(rows).v)
    decreases |rows|
  {
    if rows != [] {
      var init := rows[..|rows| - 1];
      MaxMonthSpec(init);
      MaxMonthKinds(init);
      assert forall j :: 0 <= j < |init| ==> init[j] == rows[j];
    }
  }

  /**
   * The latest month is the largest month number over the charts whose
   * months all parse, and January 1970 when no chart has a later one.
   */
  lemma {:induction false} LatestMonthSpec(charts: seq<Chart>)
    ensures LatestMonth(charts) >= Epoch
    ensures forall i :: 0 <= i < |charts| && MaxMonth(charts[i].data).Finite? ==> MaxMonth(charts[i].data).v <= LatestMonth(charts)
    ensures LatestMonth(charts) == Epoch || exists i :: 0 <= i < |charts| && MaxMonth(charts[i].data) == Finite(LatestMonth(charts))
    decreases |charts|
  {
    if charts != [] {
      var init := charts[..|charts| - 1];
      LatestMonthSpec(init);
      assert forall i :: 0 <= i < |init| ==> init[i] == charts[i];
    }
  }

  /** Month numbers read from "YYYY-MM" texts stay below year 10008, so every label is defined. */
  lemma {:induction false} LatestMonthBound(charts: seq<Chart>)
    ensures LatestMonth(charts) < 12 * 10008
    decreases |charts|
  {
    if charts != [] {
      var init := charts[..|charts| - 1];
      LatestMonthBound(init);
      var m := MaxMonth(charts[|charts| - 1].data);
      if m.Finite? {
        MaxMonthSpec(charts[|charts| - 1].data);
        var rows := charts[|charts| - 1].data;
        var j :| 0 <= j < |rows| && MonthIndex(rows[j].month) == Some(m.v);
        var s := rows[j].month;
        DecimalValueBound(s[..4]);
        DecimalValueBound(s[5..]);
      }
    }
  }

  /** The latest month lies between January 1970 and year 10008. */
  lemma LatestMonthRange(charts: seq<Chart>)
    ensures Epoch <= LatestMonth(charts) < 12 * 10008
  {
    LatestMonthSpec(charts);
    LatestMonthBound(charts);
  }

  // ---------------------------------------------------------------------
  // getLast12Months.

  /** The labels of n consecutive months from `ym` on. */
  function Labels(ym: YearMonth, n: nat): (r: seq<string>)
    requires ValidMonth(ym) && 0 <= Index(ym) && Index(ym) + n <= 12 * 1000000
    ensures |r| == n
    decreases n
  {
    if n == 0 then [] else [Label(ym)] + Labels(Next(ym), n - 1)
  }

  /** How many months the chart shows. */
  const WindowMonths: nat := 12

  /** The labels of the twelve months that end with month number `latest`. */
  function Window(latest: int): (r: seq<string>)
    requires 11 <= latest < 12 * 1000000
    ensures |r| == 12
  {
    Labels(FromIndex(latest - 11), WindowMonths)
  }

  /**
   * `getLast12Months`: take the latest month over all charts and list the
   * labels of the twelve months that end with it.
   */
  method Last12Months(charts: seq<Chart>) returns (labels: seq<string>)
    ensures 12 * 1970 <= LatestMonth(charts) < 12 * 10008
    ensures labels == Window(LatestMonth(charts))
  {
    LatestMonthRange(charts);
    labels := MonthsEndingAt(LatestMonth(charts));
  }

  /**
   * The loop of `getLast12Months`: starting at month number `latest`,
   * twelve times put the month's label in front and step one month back.
   */
  method MonthsEndingAt(latest: int) returns (labels: seq<string>)
    requires 11 <= latest < 12 * 1000000
    ensures labels == Window(latest)
  {
    labels := [];
    var current := FromIndex(latest);
    for i := 0 to WindowMonths
      invariant ValidMonth(current) && Index(current) == latest - i
      invariant labels == Labels(Next(current), i)
    {
      labels := [Label(current)] + labels;
      IndexInjective(Next(Prev(current)), current);
      current := Prev(current);
    }
    IndexInjective(Next(current), FromIndex(latest - 11));
  }

  /** A label of a month from year 100 to 9999 reads back as the same month number. */
  lemma LabelIndex(ym: YearMonth)
    requires ValidMonth(ym) && 100 <= ym.year < 10000
    ensures MonthIndex(Label(ym)) == Some(Index(ym))
  {
    var y, m := PadDecimal(ym.year, 4), PadDecimal(ym.month, 2);
    var s := Label(ym);
    assert s[..4] == y && s[4] == '-' && s[5..] == m;
    PadDecimalValue(ym.year, 4);
    PadDecimalValue(ym.month, 2);
  }

  /** A month's label sorts before the next month's label. */
  lemma LabelOrder(ym: YearMonth)
    requires ValidMonth(ym) && 0 <= ym.year && Next(ym).year < 10000
    ensures LexLess(Label(ym), Label(Next(ym)))
  {
    var n := Next(ym);
    DashOrder(PadDecimal(ym.year, 4), PadDecimal(ym.month, 2), PadDecimal(n.year, 4), PadDecimal(n.month, 2));
    FieldOrder(ym.year, n.year, 4);
    FieldOrder(ym.month, n.month, 2);
  }

  /** A month key written by the back end labels the same month. */
  lemma MonthKeyLabel(d: Date)
    requires ValidDate(d)
    ensures Label(YearMonth(d.year, d.month)) == MonthKey(d)
  {
  }

  /** A run of labels within the years 100 to 9999 names consecutive month numbers. */
  lemma LabelsIndexed(ym: YearMonth, n: nat)
    requires ValidMonth(ym) && 12 * 100 <= Index(ym) && Index(ym) + n <= 12 * 10000
    ensures forall k :: 0 <= k < n ==> MonthIndex(Labels(ym, n)[k]) == Some(Index(ym) + k)
  {
    forall k | 0 <= k < n
      ensures MonthIndex(Labels(ym, n)[k]) == Some(Index(ym) + k)
    {
      LabelIndexAt(ym, n, k);
    }
  }

  /** The k-th label of a run reads back as the k-th month after the first. */
  lemma {:induction false} LabelIndexAt(ym: YearMonth, n: nat, k: nat)
    requires ValidMonth(ym) && 12 * 100 <= Index(ym) && Index(ym) + n <= 12 * 10000 && k < n
    ensures MonthIndex(Labels(ym, n)[k]) == Some(Index(ym) + k)
    decreases k
  {
    var ls, rest := Labels(ym, n), Labels(Next(ym), n - 1);
    assert ls == [Label(ym)] + rest;
    if k == 0 {
      LabelIndex(ym);
    } else {
      LabelIndexAt(Next(ym), n - 1, k - 1);
      assert ls[k] == rest[k - 1];
      var m := MonthIndex(rest[k - 1]);
      assert m.Some? && m.value == Index(ym) + k;
    }
  }

  /** A run of labels within the years 0 to 9999 is strictly ascending in string order. */
  lemma {:induction false} LabelsAscending(ym: YearMonth, n: nat)
    requires ValidMonth(ym) && 0 <= Index(ym) && Index(ym) + n <= 12 * 10000
    ensures Ascending(Labels(ym, n))
    decreases n
  {
    if n > 1 {
      LabelOrder(ym);
      LabelsAscending(Next(ym), n - 1);
      AscendingCons(Label(ym), Labels(Next(ym), n - 1));
    }
  }

  /** A text sorting before the head of an ascending run extends it. */
  lemma AscendingCons(x: string, s: seq<string>)
    requires Ascending(s) && s != [] && LexLess(x, s[0])
    ensures Ascending([x] + s)
  {
    var r := [x] + s;
    forall i, j | 0 <= i < j < |r|
      ensures LexLess(r[i], r[j])
    {
      if i > 0 {
        assert r[i] == s[i - 1] && r[j] == s[j - 1];
      } else if j > 1 {
        assert r[j] == s[j - 1];
        LexLessTransitive(x, s[0], s[j - 1]);
      }
    }
  }

  /**
   * The window ending with month number `latest` is the run of twelve labels
   * from eleven months earlier on, so LabelsIndexed and LabelsAscending
   * describe it.
   */
  lemma WindowStart(latest: int) returns (start: YearMonth)
    requires 11 <= latest < 12 * 1000000
    ensures ValidMonth(start) && Index(start) == latest - 11
    ensures Window(latest) == Labels(start, WindowMonths)
  {
    start := FromIndex(latest - 11);
  }

  // ---------------------------------------------------------------------
  // Properties of formatDataForChart.

  /** find returns the first row for the month. */
  lemma {:induction false} FindFirst(rows: seq<MonthRow>, month: string, j: nat)
    requires j < |rows| && rows[j].month == month && forall l :: 0 <= l < j ==> rows[l].month != month
    ensures Find(rows, month) == Some(rows[j])
    decreases j
  {
    if j > 0 {
      FindFirst(rows[1..], month, j - 1);
    }
  }

  /** find returns undefined exactly when no row has the month. */
  lemma {:induction false} FindNone(rows: seq<MonthRow>, month: string)
    ensures Find(rows, month).None? <==> forall l :: 0 <= l < |rows| ==> rows[l].month != month
    decreases |rows|
  {
    if rows != [] {
      FindNone(rows[1..], month);
      assert forall l :: 1 <= l < |rows| ==> rows[1..][l - 1] == rows[l];
    }
  }

  /**
   * Point k of a formatted chart belongs to month k: zero bars when no row
   * has that month, else the first such row's two counts.
   */
  lemma FormatPoint(rows: seq<MonthRow>, months: seq<string>, k: nat)
    requires k < |months|
    ensures (forall l :: 0 <= l < |rows| ==> rows[l].month != months[k]) ==> FormatDataForChart(rows, months)[k] == Point(0, 0)
    ensures forall j :: 0 <= j < |rows| && rows[j].month == months[k] && (forall l :: 0 <= l < j ==> rows[l].month != months[k]) ==>
      FormatDataForChart(rows, months)[k] == Point(rows[j].orders, rows[j].usages)
  {
    FindNone(rows, months[k]);
    forall j | 0 <= j < |rows| && rows[j].month == months[k] && (forall l :: 0 <= l < j ==> rows[l].month != months[k])
      ensures FormatDataForChart(rows, months)[k] == Point(rows[j].orders, rows[j].usages)
    {
      FindFirst(rows, months[k], j);
    }
  }

  /** A row find returns is a row of the chart for that month. */
  lemma {:induction false} FindIn(rows: seq<MonthRow>, month: string)
    requires Find(rows, month).Some?
    ensures Find(rows, month).value in rows && Find(rows, month).value.month == month
    decreases |rows|
  {
    if rows[0].month != month {
      FindIn(rows[1..], month);
    }
  }

  /**
   * A chart built by the back end shows, for every month of the window, the
   * category's order and usage counts for that month, zero included.
   */
  lemma ChartPoints(cid: string, name: string, orders: map<string, Tally>, usages: map<string, Tally>, months: seq<string>, k: nat)
    requires KeysCounted(orders) && KeysCounted(usages) && k < |months|
    ensures FormatDataForChart(ChartOf(cid, name, orders, usages).data, months)[k]
      == Point(Get(orders, cid, months[k]), Get(usages, cid, months[k]))
  {
    var rows := ChartOf(cid, name, orders, usages).data;
    ChartRows(cid, name, orders, usages);
    var m := months[k];
    if Find(rows, m).Some? {
      FindIn(rows, m);
      var j :| 0 <= j < |rows| && rows[j] == Find(rows, m).value;
    } else {
      FindNone(rows, m);
    }
  }
}
