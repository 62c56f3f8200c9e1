/**
 * `parse_chart_json`: the per-category, per-month order and usage counts
 * behind the dashboard charts. Records arrive as Airtable returns them; a
 * missing key raises KeyError and a malformed date raises ValueError, either
 * of which ends the request.
 */
module ChartJson {
  import opened Wrappers
  import opened Text
  import opened AirtableDates

  /** The exception that ends `parse_chart_json` early. */
  datatype ParseError = KeyError(key: string) | ValueError(text: string)

  /** A Categories record: `fields.id`, `fields.name` (either may be missing) and `fields.products`. */
  datatype CategoryRecord = CategoryRecord(id: Option<string>, name: Option<string>, products: seq<string>)

  /** An Orders or Usages record: `fields.product` and its date field, which may be missing. */
  datatype EventRecord = EventRecord(products: seq<string>, date: Option<string>)

  /** One entry of a chart's `data` list. */
  datatype MonthRow = MonthRow(month: string, orders: nat, usages: nat)

  /** One element of `charts`. */
  datatype Chart = Chart(category: string, data: seq<MonthRow>)

  // ---------------------------------------------------------------------
  // Step 1: the category tables.

  /**
   * `category_names` (its keys in insertion order, and the map) and
   * `category_map` from product to category id.
   */
  datatype Categories = Categories(ids: seq<string>, names: map<string, string>, categoryOf: map<string, string>)

  /** The inner loop `for product in ...: category_map[product] = category_id`. */
  function AssignAll(m: map<string, string>, ps: seq<string>, v: string): map<string, string>
    decreases |ps|
  {
    if ps == [] then m else AssignAll(m, ps[..|ps| - 1], v)[ps[|ps| - 1] := v]
  }

  /** One category record: KeyError on a missing id, then on a missing name. */
  function AddCategory(t: Categories, c: CategoryRecord): Result<Categories, ParseError> {
    if c.id.None? then Err(KeyError("id"))
    else if c.name.None? then Err(KeyError("name"))
    else
      var id := c.id.value;
      Ok(Categories(if id in t.names then t.ids else t.ids + [id], t.names[id := c.name.value], AssignAll(t.categoryOf, c.products, id)))
  }

  /** Every id listed once, and listed exactly when it has a name. */
  ghost predicate IdsListed(t: Categories) {
    (forall i, j :: 0 <= i < j < |t.ids| ==> t.ids[i] != t.ids[j])
    && (forall x :: x in t.names <==> x in t.ids)
  }

  /** The loop over the category records. */
  function ReadCategories(cs: seq<CategoryRecord>): (r: Result<Categories, ParseError>)
    ensures r.Ok? ==> IdsListed(r.value)
    decreases |cs|
  {
    if cs == [] then Ok(Categories([], map[], map[]))
    else
      match ReadCategories(cs[..|cs| - 1])
      case Err(e) => Err(e)
      case Ok(t) =>
        var r := AddCategory(t, cs[|cs| - 1]);
        assert r.Ok? ==> IdsListed(r.value) by {
          if r.Ok? {
            var id := cs[|cs| - 1].id.value;
            if id !in t.names {
              assert forall i :: 0 <= i < |t.ids| ==> t.ids[i] != id;
            }
          }
        }
        r
  }

  // ---------------------------------------------------------------------
  // Steps 2 and 3: counting orders and usages.

  /** A `defaultdict(int)` of month counts: its keys in insertion order and the counts. */
  datatype Tally = Tally(keys: seq<string>, count: map<string, nat>)

  /** `tally[k] += 1`. */
  function Bump(t: Tally, k: string): Tally {
    if k in t.count then Tally(t.keys, t.count[k := t.count[k] + 1]) else Tally(t.keys + [k], t.count[k := 1])
  }

  /** `counts[cid][month] += 1` on the outer `defaultdict`. */
  function BumpAt(ts: map<string, Tally>, cid: string, month: string): map<string, Tally> {
    ts[cid := Bump(if cid in ts then ts[cid] else Tally([], map[]), month)]
  }

  /** `counts[cid].get(month, 0)`. */
  function Get(ts: map<string, Tally>, cid: string, month: string): nat {
    if cid in ts && month in ts[cid].count then ts[cid].count[month] else 0
  }

  /** The months recorded for a category, in insertion order. */
  function MonthsOf(ts: map<string, Tally>, cid: string): seq<string> {
    if cid in ts then ts[cid].keys else []
  }

  /** `extract_month(record['fields'][key])`: "%Y-%m" of the parsed date. */
  function RecordMonth(r: EventRecord, key: string): Result<string, ParseError> {
    if r.date.None? then Err(KeyError(key))
    else
      match ParseIso(r.date.value)
      case None => Err(ValueError(r.date.value))
      case Some(d) => Ok(MonthKey(d))
  }

  /** A product counts for a category when it maps to it and the id is truthy (`if category_id:`). */
  predicate CountsFor(categoryOf: map<string, string>, p: string, cid: string) {
    p in categoryOf && categoryOf[p] == cid && cid != ""
  }

  /** The inner loop over one record's products. */
  function CountProducts(ts: map<string, Tally>, ps: seq<string>, categoryOf: map<string, string>, month: string): map<string, Tally>
    decreases |ps|
  {
    if ps == [] then ts
    else
      var before := CountProducts(ts, ps[..|ps| - 1], categoryOf, month);
      var p := ps[|ps| - 1];
      if p in categoryOf && categoryOf[p] != "" then BumpAt(before, categoryOf[p], month) else before
  }

  /** The loop over the order (or usage) records; every record's date is read, whatever its products. */
  function CountRecords(rs: seq<EventRecord>, categoryOf: map<string, string>, key: string): Result<map<string, Tally>, ParseError>
    decreases |rs|
  {
    if rs == [] then Ok(map[])
    else
      match CountRecords(rs[..|rs| - 1], categoryOf, key)
      case Err(e) => Err(e)
      case Ok(ts) =>
        match RecordMonth(rs[|rs| - 1], key)
        case Err(e) => Err(e)
        case Ok(month) => Ok(CountProducts(ts, rs[|rs| - 1].products, categoryOf, month))
  }

  // ---------------------------------------------------------------------
  // Step 4: the charts.

  /** Strictly ascending in Python's string order. */
  predicate Ascending(s: seq<string>) {
    forall i, j :: 0 <= i < j < |s| ==> LexLess(s[i], s[j])
  }

  /** Insert into an ascending list, dropping a duplicate. */
  function InsertSorted(x: string, s: seq<string>): seq<string>
    decreases |s|
  {
    if s == [] then [x]
    else if x == s[0] then s
    else if LexLess(x, s[0]) then [x] + s
    else [s[0]] + InsertSorted(x, s[1..])
  }

  /** `sorted(set(...))`. */
  function SortUnique(s: seq<string>): seq<string>
    decreases |s|
  {
    if s == [] then [] else InsertSorted(s[|s| - 1], SortUnique(s[..|s| - 1]))
  }

  /** One chart: the sorted union of the category's order and usage months, each with both counts. */
  function ChartOf(cid: string, name: string, orders: map<string, Tally>, usages: map<string, Tally>): Chart {
    var months := SortUnique(MonthsOf(orders, cid) + MonthsOf(usages, cid));
    Chart(name, seq(|months|, i requires 0 <= i < |months| => MonthRow(months[i], Get(orders, cid, months[i]), Get(usages, cid, months[i]))))
  }

  /** One chart per category id, in the order the ids were first seen. */
  function ChartsOf(t: Categories, orders: map<string, Tally>, usages: map<string, Tally>): seq<Chart>
    requires IdsListed(t)
  {
    seq(|t.ids|, i requires 0 <= i < |t.ids| => ChartOf(t.ids[i], t.names[t.ids[i]], orders, usages))
  }

  /** `parse_chart_json`. */
  function ParseChartJson(cs: seq<CategoryRecord>, os: seq<EventRecord>, us: seq<EventRecord>): Result<seq<Chart>, ParseError> {
    match ReadCategories(cs)
    case Err(e) => Err(e)
    case Ok(t) =>
      match CountRecords(os, t.categoryOf, "order-date")
      case Err(e) => Err(e)
      case Ok(orders) =>
        match CountRecords(us, t.categoryOf, "usage-date")
        case Err(e) => Err(e)
        case Ok(usages) => Ok(ChartsOf(t, orders, usages))
  }

  // ---------------------------------------------------------------------
  // Reference definitions.

  /** How many of the products count for the category. */
  function Matches(ps: seq<string>, categoryOf: map<string, string>, cid: string): nat
    decreases |ps|
  {
    if ps == [] then 0
    else Matches(ps[..|ps| - 1], categoryOf, cid) + (if CountsFor(categoryOf, ps[|ps| - 1], cid) then 1 else 0)
  }

  /** The number of (record, product) pairs whose product counts for the category and whose date falls in the month. */
  function Pairs(rs: seq<EventRecord>, categoryOf: map<string, string>, key: string, cid: string, month: string): nat
    decreases |rs|
  {
    if rs == [] then 0
    else
      Pairs(rs[..|rs| - 1], categoryOf, key, cid, month)
      + (if RecordMonth(rs[|rs| - 1], key) == Ok(month) then Matches(rs[|rs| - 1].products, categoryOf, cid) else 0)
  }

  // ---------------------------------------------------------------------
  // Properties of the category tables.

  /** The product loop maps exactly the listed products to the id and leaves the others alone. */
  lemma {:induction false} AssignAllSpec(m: map<string, string>, ps: seq<string>, v: string, p: string)
    ensures p in ps ==> p in AssignAll(m, ps, v) && AssignAll(m, ps, v)[p] == v
    ensures p !in ps ==> (p in AssignAll(m, ps, v) <==> p in m) && (p in m ==> AssignAll(m, ps, v)[p] == m[p])
    decreases |ps|
  {
    if ps != [] {
      var init := ps[..|ps| - 1];
      AssignAllSpec(m, init, v, p);
      assert ps == init + [ps[|ps| - 1]];
    }
  }

  /**
   * A product listed by several categories belongs to the last one that
   * lists it.
   */
  lemma {:induction false} LastCategoryWins(cs: seq<CategoryRecord>, p: string, k: nat)
    requires ReadCategories(cs).Ok?
    requires k < |cs| && p in cs[k].products && forall l :: k < l < |cs| ==> p !in cs[l].products
    ensures p in ReadCategories(cs).value.categoryOf && Some(ReadCategories(cs).value.categoryOf[p]) == cs[k].id
    decreases |cs|
  {
    var init := cs[..|cs| - 1];
    var last := cs[|cs| - 1];
    var t := ReadCategories(init).value;
    AssignAllSpec(t.categoryOf, last.products, last.id.value, p);
    if k < |cs| - 1 {
      assert init[k] == cs[k];
      assert forall l :: k < l < |init| ==> init[l] == cs[l];
      LastCategoryWins(init, p, k);
    }
  }

  /** A product no category lists has no category. */
  lemma {:induction false} UnlistedProduct(cs: seq<CategoryRecord>, p: string)
    requires ReadCategories(cs).Ok?
    requires forall k :: 0 <= k < |cs| ==> p !in cs[k].products
    ensures p !in ReadCategories(cs).value.categoryOf
    decreases |cs|
  {
    if cs != [] {
      var init := cs[..|cs| - 1];
      var last := cs[|cs| - 1];
      assert forall k :: 0 <= k < |init| ==> init[k] == cs[k];
      UnlistedProduct(init, p);
      AssignAllSpec(ReadCategories(init).value.categoryOf, last.products, last.id.value, p);
    }
  }

  /** Once a prefix of the category records fails, the whole loop fails with the same error. */
  lemma {:induction false} CategoriesErrSticks(cs: seq<CategoryRecord>, i: nat)
    requires i <= |cs| && ReadCategories(cs[..i]).Err?
    ensures ReadCategories(cs) == ReadCategories(cs[..i])
    decreases |cs| - i
  {
    if i < |cs| {
      assert cs[..i + 1][..i] == cs[..i];
      CategoriesErrSticks(cs, i + 1);
    } else {
      assert cs[..i] == cs;
    }
  }

  /** The category loop succeeds exactly when every category record has an id and a name. */
  lemma {:induction false} ReadCategoriesOk(cs: seq<CategoryRecord>)
    ensures ReadCategories(cs).Ok? <==> forall k :: 0 <= k < |cs| ==> cs[k].id.Some? && cs[k].name.Some?
    decreases |cs|
  {
    if cs != [] {
      var init := cs[..|cs| - 1];
      ReadCategoriesOk(init);
      assert forall k :: 0 <= k < |init| ==> init[k] == cs[k];
    }
  }

  /** The ids that get a chart are exactly the ids of the category records. */
  lemma {:induction false} CategoryIds(cs: seq<CategoryRecord>, x: string)
    requires ReadCategories(cs).Ok?
    ensures x in ReadCategories(cs).value.ids <==> exists k :: 0 <= k < |cs| && cs[k].id == Some(x)
    decreases |cs|
  {
    if cs != [] {
      var init := cs[..|cs| - 1];
      CategoryIds(init, x);
      if exists k :: 0 <= k < |cs| && cs[k].id == Some(x) {
        var k :| 0 <= k < |cs| && cs[k].id == Some(x);
        if k < |cs| - 1 {
          assert init[k].id == Some(x);
        }
      }
      if exists k :: 0 <= k < |init| && init[k].id == Some(x) {
        var k :| 0 <= k < |init| && init[k].id == Some(x);
        assert cs[k] == init[k];
      }
    }
  }

  /** A category's chart is named after the last record carrying its id. */
  lemma {:induction false} LastNameWins(cs: seq<CategoryRecord>, x: string, k: nat)
    requires ReadCategories(cs).Ok?
    requires k < |cs| && cs[k].id == Some(x) && forall l :: k < l < |cs| ==> cs[l].id != Some(x)
    ensures x in ReadCategories(cs).value.names && Some(ReadCategories(cs).value.names[x]) == cs[k].name
    decreases |cs|
  {
    if k < |cs| - 1 {
      var init := cs[..|cs| - 1];
      assert init[k] == cs[k];
      assert forall l :: k < l < |init| ==> init[l] == cs[l];
      LastNameWins(init, x, k);
    }
  }

  // ---------------------------------------------------------------------
  // Properties of the counts.

  /** Every recorded month has a positive count, and only recorded months do. */
  ghost predicate KeysCounted(ts: map<string, Tally>) {
    forall cid, m :: m in MonthsOf(ts, cid) <==> Get(ts, cid, m) > 0
  }

  /** At one category and month, the month is listed exactly when it has a count, and that count is positive. */
  predicate Listed(ts: map<string, Tally>, cid: string, m: string) {
    (m in MonthsOf(ts, cid) <==> cid in ts && m in ts[cid].count)
    && (cid in ts && m in ts[cid].count ==> ts[cid].count[m] > 0)
  }

  /** One product: the count of its category in the record's month goes up by one, nothing else changes. */
  lemma BumpAtGet(ts: map<string, Tally>, c: string, month: string, cid: string, m: string)
    requires Listed(ts, cid, m)
    ensures Listed(BumpAt(ts, c, month), cid, m)
    ensures Get(BumpAt(ts, c, month), cid, m) == Get(ts, cid, m) + (if cid == c && m == month then 1 else 0)
  {
  }

  /** The product loop adds the record's matching products to the record's month only. */
  lemma {:induction false} CountProductsGet(ts: map<string, Tally>, ps: seq<string>, categoryOf: map<string, string>, month: string, cid: string, m: string)
    requires Listed(ts, cid, m)
    ensures Listed(CountProducts(ts, ps, categoryOf, month), cid, m)
    ensures Get(CountProducts(ts, ps, categoryOf, month), cid, m)
         == Get(ts, cid, m) + (if m == month then Matches(ps, categoryOf, cid) else 0)
    decreases |ps|
  {
    if ps != [] {
      var init := ps[..|ps| - 1];
      var p := ps[|ps| - 1];
      CountProductsGet(ts, init, categoryOf, month, cid, m);
      if p in categoryOf && categoryOf[p] != "" {
        BumpAtGet(CountProducts(ts, init, categoryOf, month), categoryOf[p], month, cid, m);
      }
    }
  }

  /**
   * The orders count for a category and month is the number of (order,
   * product) pairs whose product belongs to that category and whose order
   * date falls in that month; the months recorded are those with a positive
   * count. Usages are counted by the same loop.
   */
  lemma {:induction false} CountsArePairs(rs: seq<EventRecord>, categoryOf: map<string, string>, key: string, cid: string, m: string)
    requires CountRecords(rs, categoryOf, key).Ok?
    ensures Get(CountRecords(rs, categoryOf, key).value, cid, m) == Pairs(rs, categoryOf, key, cid, m)
    ensures m in MonthsOf(CountRecords(rs, categoryOf, key).value, cid) <==> Pairs(rs, categoryOf, key, cid, m) > 0
    ensures Listed(CountRecords(rs, categoryOf, key).value, cid, m)
    decreases |rs|
  {
    if rs != [] {
      var init := rs[..|rs| - 1];
      var r := rs[|rs| - 1];
      CountsArePairs(init, categoryOf, key, cid, m);
      var month := RecordMonth(r, key).value;
      CountProductsGet(CountRecords(init, categoryOf, key).value, r.products, categoryOf, month, cid, m);
    }
  }

  /** Once a prefix of the records fails, the whole loop fails with the same error. */
  lemma {:induction false} CountErrSticks(rs: seq<EventRecord>, categoryOf: map<string, string>, key: string, i: nat)
    requires i <= |rs| && CountRecords(rs[..i], categoryOf, key).Err?
    ensures CountRecords(rs, categoryOf, key) == CountRecords(rs[..i], categoryOf, key)
    decreases |rs| - i
  {
    if i < |rs| {
      assert rs[..i + 1][..i] == rs[..i];
      CountErrSticks(rs, categoryOf, key, i + 1);
    } else {
      assert rs[..i] == rs;
    }
  }

  /** The counting loop succeeds exactly when every record has a date strptime accepts. */
  lemma {:induction false} CountRecordsOk(rs: seq<EventRecord>, categoryOf: map<string, string>, key: string)
    ensures CountRecords(rs, categoryOf, key).Ok? <==> forall k :: 0 <= k < |rs| ==> RecordMonth(rs[k], key).Ok?
    decreases |rs|
  {
    if rs != [] {
      var init := rs[..|rs| - 1];
      CountRecordsOk(init, categoryOf, key);
      assert forall k :: 0 <= k < |init| ==> init[k] == rs[k];
    }
  }

  /** Products with no category, or whose category id is empty, count for nothing. */
  lemma {:induction false} UncategorisedIgnored(ps: seq<string>, categoryOf: map<string, string>, p: string, cid: string)
    requires p !in categoryOf || categoryOf[p] == ""
    ensures Matches(ps + [p], categoryOf, cid) == Matches(ps, categoryOf, cid)
  {
    assert (ps + [p])[..|ps|] == ps;
  }

  // ---------------------------------------------------------------------
  // Properties of the sort.

  lemma {:induction false} InsertSortedSpec(x: string, s: seq<string>)
    requires Ascending(s)
    ensures Ascending(InsertSorted(x, s))
    ensures forall m :: m in InsertSorted(x, s) <==> m in s || m == x
    decreases |s|
  {
    if s != [] && x != s[0] {
      if LexLess(x, s[0]) {
        forall j | 0 < j < |s| ensures LexLess(x, s[j]) {
          LexLessTransitive(x, s[0], s[j]);
        }
      } else {
        LexLessTotal(x, s[0]);
        InsertSortedSpec(x, s[1..]);
        var r := InsertSorted(x, s[1..]);
        forall m | m in r ensures LexLess(s[0], m) {
          if m != x {
            var j :| 0 <= j < |s[1..]| && s[1..][j] == m;
            assert s[j + 1] == m;
          }
        }
        assert s == [s[0]] + s[1..];
      }
    }
  }

  /** `sorted(set(s))` is strictly ascending and holds exactly the elements of s. */
  lemma {:induction false} SortUniqueSpec(s: seq<string>)
    ensures Ascending(SortUnique(s))
    ensures forall m :: m in SortUnique(s) <==> m in s
    decreases |s|
  {
    if s != [] {
      var init := s[..|s| - 1];
      SortUniqueSpec(init);
      InsertSortedSpec(s[|s| - 1], SortUnique(init));
      assert s == init + [s[|s| - 1]];
    }
  }

  // ---------------------------------------------------------------------
  // Properties of the charts.

  /** The months of a chart's rows. */
  function RowMonths(rows: seq<MonthRow>): seq<string> {
    seq(|rows|, j requires 0 <= j < |rows| => rows[j].month)
  }

  /**
   * In one chart the months are strictly ascending, a month appears exactly
   * when it has orders or usages for the category, and each row carries the
   * two counts, at least one of them positive.
   */
  lemma ChartRows(cid: string, name: string, orders: map<string, Tally>, usages: map<string, Tally>)
    requires KeysCounted(orders) && KeysCounted(usages)
    ensures var c := ChartOf(cid, name, orders, usages);
      c.category == name
      && Ascending(RowMonths(c.data))
      && (forall m :: m in RowMonths(c.data) <==> Get(orders, cid, m) > 0 || Get(usages, cid, m) > 0)
      && (forall j :: 0 <= j < |c.data| ==>
            c.data[j].orders == Get(orders, cid, c.data[j].month)
            && c.data[j].usages == Get(usages, cid, c.data[j].month)
            && c.data[j].orders + c.data[j].usages > 0)
  {
    var months := SortUnique(MonthsOf(orders, cid) + MonthsOf(usages, cid));
    SortUniqueSpec(MonthsOf(orders, cid) + MonthsOf(usages, cid));
    var c := ChartOf(cid, name, orders, usages);
    assert RowMonths(c.data) == months;
  }

  /** The counting loops leave every recorded month with a positive count. */
  lemma CountRecordsKeys(rs: seq<EventRecord>, categoryOf: map<string, string>, key: string)
    requires CountRecords(rs, categoryOf, key).Ok?
    ensures KeysCounted(CountRecords(rs, categoryOf, key).value)
  {
    forall cid, m
      ensures m in MonthsOf(CountRecords(rs, categoryOf, key).value, cid) <==> Get(CountRecords(rs, categoryOf, key).value, cid, m) > 0
    {
      CountsArePairs(rs, categoryOf, key, cid, m);
    }
  }

  /**
   * `parse_chart_json` end to end: one chart per category id, in the order
   * the ids first appear, named after the category; each chart lists, in
   * ascending order, exactly the months with at least one order or usage
   * pair for the category, with both counts.
   */
  lemma ChartJsonSpec(cs: seq<CategoryRecord>, os: seq<EventRecord>, us: seq<EventRecord>, i: nat)
    requires ParseChartJson(cs, os, us).Ok?
    ensures var t := ReadCategories(cs).value;
      var charts := ParseChartJson(cs, os, us).value;
      |charts| == |t.ids|
      && (i < |charts| ==>
        var cid := t.ids[i];
        var c := charts[i];
        c.category == t.names[cid]
        && Ascending(RowMonths(c.data))
        && (forall m :: m in RowMonths(c.data) <==>
              Pairs(os, t.categoryOf, "order-date", cid, m) > 0 || Pairs(us, t.categoryOf, "usage-date", cid, m) > 0)
        && (forall j :: 0 <= j < |c.data| ==>
              c.data[j].orders == Pairs(os, t.categoryOf, "order-date", cid, c.data[j].month)
              && c.data[j].usages == Pairs(us, t.categoryOf, "usage-date", cid, c.data[j].month)))
  {
    var t := ReadCategories(cs).value;
    var orders := CountRecords(os, t.categoryOf, "order-date").value;
    var usages := CountRecords(us, t.categoryOf, "usage-date").value;
    if i < |t.ids| {
      var cid := t.ids[i];
      CountRecordsKeys(os, t.categoryOf, "order-date");
      CountRecordsKeys(us, t.categoryOf, "usage-date");
      ChartRows(cid, t.names[cid], orders, usages);
      forall m ensures Get(orders, cid, m) == Pairs(os, t.categoryOf, "order-date", cid, m)
                    && Get(usages, cid, m) == Pairs(us, t.categoryOf, "usage-date", cid, m)
      {
        CountsArePairs(os, t.categoryOf, "order-date", cid, m);
        CountsArePairs(us, t.categoryOf, "usage-date", cid, m);
      }
    }
  }

  // ---------------------------------------------------------------------
  // The loops.

  /** The category loop, with its inner product loop. */
  method ReadCategoryRecords(cs: seq<CategoryRecord>) returns (r: Result<Categories, ParseError>)
    ensures r == ReadCategories(cs)
  {
    var ids: seq<string> := [];
    var names: map<string, string> := map[];
    var categoryOf: map<string, string> := map[];
    for i := 0 to |cs|
      invariant ReadCategories(cs[..i]) == Ok(Categories(ids, names, categoryOf))
    {
      assert cs[..i + 1][..i] == cs[..i];
      var c := cs[i];
      if c.id.None? || c.name.None? {
        CategoriesErrSticks(cs, i + 1);
        return if c.id.None? then Err(KeyError("id")) else Err(KeyError("name"));
      }
      var id := c.id.value;
      if id !in names {
        ids := ids + [id];
      }
      names := names[id := c.name.value];
      ghost var start := categoryOf;
      for j := 0 to |c.products|
        invariant categoryOf == AssignAll(start, c.products[..j], id)
      {
        assert c.products[..j + 1][..j] == c.products[..j];
        categoryOf := categoryOf[c.products[j] := id];
      }
      assert c.products[..|c.products|] == c.products;
    }
    assert cs[..|cs|] == cs;
    r := Ok(Categories(ids, names, categoryOf));
  }

  /** The loop over order (or usage) records, with its inner product loop. */
  method CountEventRecords(rs: seq<EventRecord>, categoryOf: map<string, string>, key: string) returns (r: Result<map<string, Tally>, ParseError>)
    ensures r == CountRecords(rs, categoryOf, key)
  {
    var counts: map<string, Tally> := map[];
    for i := 0 to |rs|
      invariant CountRecords(rs[..i], categoryOf, key) == Ok(counts)
    {
      assert rs[..i + 1][..i] == rs[..i];
      var month := RecordMonth(rs[i], key);
      if month.Err? {
        CountErrSticks(rs, categoryOf, key, i + 1);
        return Err(month.error);
      }
      ghost var start := counts;
      var ps := rs[i].products;
      for j := 0 to |ps|
        invariant counts == CountProducts(start, ps[..j], categoryOf, month.value)
      {
        assert ps[..j + 1][..j] == ps[..j];
        var p := ps[j];
        if p in categoryOf && categoryOf[p] != "" {
          counts := BumpAt(counts, categoryOf[p], month.value);
        }
      }
      assert ps[..|ps|] == ps;
    }
    assert rs[..|rs|] == rs;
    r := Ok(counts);
  }

  /** `parse_chart_json` as the handler runs it: the four loops in turn. */
  method ParseChartRecords(cs: seq<CategoryRecord>, os: seq<EventRecord>, us: seq<EventRecord>) returns (r: Result<seq<Chart>, ParseError>)
    ensures r == ParseChartJson(cs, os, us)
  {
    var categories := ReadCategoryRecords(cs);
    if categories.Err? {
      return Err(categories.error);
    }
    var t := categories.value;
    var orders := CountEventRecords(os, t.categoryOf, "order-date");
    if orders.Err? {
      return Err(orders.error);
    }
    var usages := CountEventRecords(us, t.categoryOf, "usage-date");
    if usages.Err? {
      return Err(usages.error);
    }
    var charts: seq<Chart> := [];
    for i := 0 to |t.ids|
      invariant |charts| == i
      invariant forall k :: 0 <= k < i ==> charts[k] == ChartOf(t.ids[k], t.names[t.ids[k]], orders.value, usages.value)
    {
      var cid := t.ids[i];
      charts := charts + [ChartOf(cid, t.names[cid], orders.value, usages.value)];
    }
    assert charts == ChartsOf(t, orders.value, usages.value);
    r := Ok(charts);
  }
}
