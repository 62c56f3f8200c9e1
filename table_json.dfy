/**
 * `parse_table_json`: the expiration alerts of the dashboard table. Each
 * categorised product is checked against the earliest expiration date its
 * orders carry and classed Critical or Warning by the days left. The clock is
 * a parameter: today's date and whether the current time is past midnight.
 */
module TableJson {
  import opened Wrappers
  import opened Text
  import opened AirtableDates
  import C = ChartJson

  /** The exception that ends `parse_table_json` early. */
  datatype TableError = KeyError(key: string) | ValueError(text: string) | TypeError

  /** An Orders record: `fields.product` (KeyError when missing) and `fields.expiration-date` (None when missing). */
  datatype OrderRecord = OrderRecord(products: Option<seq<string>>, expiration: Option<string>)

  /** A Usages record: `fields.product` and `fields.usage-date`, either may be missing. */
  datatype UsageRecord = UsageRecord(products: Option<seq<string>>, date: Option<string>)

  /** A Products record: its record `id` and `fields.name`, which may be missing. */
  datatype ProductRecord = ProductRecord(id: string, name: Option<string>)

  datatype Urgency = Critical | Warning

  /** One element of `alerts`; its `type` is always "Expiration". */
  datatype Alert = Alert(urgency: Urgency, kind: string, category: string, product: string, effectiveDate: string)

  /** Python truthiness of an optional string. */
  predicate Truthy(v: Option<string>) {
    v.Some? && v.value != ""
  }

  /** The positions of p among the products, each carrying x, in order. */
  function Occur<T>(ps: seq<string>, p: string, x: T): seq<T>
    decreases |ps|
  {
    if ps == [] then [] else Occur(ps[..|ps| - 1], p, x) + (if ps[|ps| - 1] == p then [x] else [])
  }

  // ---------------------------------------------------------------------
  // Step 1: product to category name.

  /** A dict: its keys in insertion order and its contents. */
  datatype OrderedMap = OrderedMap(keys: seq<string>, values: map<string, string>)

  /** Keys listed once each, and exactly the keys of the contents. */
  ghost predicate WellKeyed(d: OrderedMap) {
    (forall i, j :: 0 <= i < j < |d.keys| ==> d.keys[i] != d.keys[j])
    && (forall k :: k in d.values <==> k in d.keys)
  }

  /** `d[k] = v`: a new key goes to the end, an existing one keeps its place. */
  function Put(d: OrderedMap, k: string, v: string): (r: OrderedMap)
    ensures WellKeyed(d) ==> WellKeyed(r)
  {
    OrderedMap(if k in d.values then d.keys else d.keys + [k], d.values[k := v])
  }

  function PutAll(d: OrderedMap, ks: seq<string>, v: string): (r: OrderedMap)
    ensures WellKeyed(d) ==> WellKeyed(r)
    decreases |ks|
  {
    if ks == [] then d else Put(PutAll(d, ks[..|ks| - 1], v), ks[|ks| - 1], v)
  }

  /** The loop over the category records: KeyError when a category has no name. */
  function ProductCategories(cs: seq<C.CategoryRecord>): (r: Result<OrderedMap, TableError>)
    ensures r.Ok? ==> WellKeyed(r.value)
    decreases |cs|
  {
    if cs == [] then Ok(OrderedMap([], map[]))
    else
      match ProductCategories(cs[..|cs| - 1])
      case Err(e) => Err(e)
      case Ok(d) =>
        var c := cs[|cs| - 1];
        if c.name.None? then Err(KeyError("name")) else Ok(PutAll(d, c.products, c.name.value))
  }

  // ---------------------------------------------------------------------
  // Step 2: the expiration date of each product.

  /** What the dict holds for p: None when p is not a key, else the stored value (itself possibly None). */
  function Lookup(m: map<string, Option<string>>, p: string): Option<Option<string>> {
    if p in m then Some(m[p]) else None
  }

  /**
   * One listing of a product: the first listing stores its date, possibly
   * None; a later non-empty date replaces the stored one when it sorts first
   * as a string, and comparing it with a stored None raises TypeError.
   */
  function Track(stored: Option<Option<string>>, e: Option<string>): Result<Option<string>, TableError> {
    if stored.None? then Ok(e)
    else if !Truthy(e) then Ok(stored.value)
    else if stored.value.None? then Err(TypeError)
    else if LexLess(e.value, stored.value.value) then Ok(e)
    else Ok(stored.value)
  }

  function Expire(m: map<string, Option<string>>, p: string, e: Option<string>): Result<map<string, Option<string>>, TableError> {
    match Track(Lookup(m, p), e)
    case Err(err) => Err(err)
    case Ok(v) => Ok(m[p := v])
  }

  /** The inner loop over one order's products. */
  function ExpireAll(m: map<string, Option<string>>, ps: seq<string>, e: Option<string>): Result<map<string, Option<string>>, TableError>
    decreases |ps|
  {
    if ps == [] then Ok(m)
    else
      match ExpireAll(m, ps[..|ps| - 1], e)
      case Err(err) => Err(err)
      case Ok(m') => Expire(m', ps[|ps| - 1], e)
  }

  /** The loop over the order records: KeyError when an order has no product field. */
  function Expirations(os: seq<OrderRecord>): Result<map<string, Option<string>>, TableError>
    decreases |os|
  {
    if os == [] then Ok(map[])
    else
      match Expirations(os[..|os| - 1])
      case Err(e) => Err(e)
      case Ok(m) =>
        var o := os[|os| - 1];
        if o.products.None? then Err(KeyError("product")) else ExpireAll(m, o.products.value, o.expiration)
  }

  /** The dates of the orders listing p, once per listing, in order. */
  function Listings(os: seq<OrderRecord>, p: string): seq<Option<string>>
    decreases |os|
  {
    if os == [] then []
    else
      var o := os[|os| - 1];
      Listings(os[..|os| - 1], p) + (if o.products.Some? then Occur(o.products.value, p, o.expiration) else [])
  }

  /** Track over one product's listings, from a given stored state. */
  function TrackFrom(stored: Option<Option<string>>, es: seq<Option<string>>): Result<Option<Option<string>>, TableError>
    decreases |es|
  {
    if es == [] then Ok(stored)
    else
      match TrackFrom(stored, es[..|es| - 1])
      case Err(e) => Err(e)
      case Ok(st) =>
        match Track(st, es[|es| - 1])
        case Err(e) => Err(e)
        case Ok(v) => Ok(Some(v))
  }

  /** What the order loop keeps for one product with these listings. */
  function Earliest(es: seq<Option<string>>): Result<Option<Option<string>>, TableError> {
    TrackFrom(None, es)
  }

  // ---------------------------------------------------------------------
  // Step 3: the usage dates (collected, never read afterwards).

  function Dates(m: map<string, seq<string>>, p: string): seq<string> {
    if p in m then m[p] else []
  }

  function AppendAll(m: map<string, seq<string>>, ps: seq<string>, date: string): map<string, seq<string>>
    decreases |ps|
  {
    if ps == [] then m
    else
      var m' := AppendAll(m, ps[..|ps| - 1], date);
      var p := ps[|ps| - 1];
      m'[p := Dates(m', p) + [date]]
  }

  /** The loop over the usage records: KeyError on a missing product field, or on a missing date once a product is seen. */
  function UsageDates(us: seq<UsageRecord>): Result<map<string, seq<string>>, TableError>
    decreases |us|
  {
    if us == [] then Ok(map[])
    else
      match UsageDates(us[..|us| - 1])
      case Err(e) => Err(e)
      case Ok(m) =>
        var u := us[|us| - 1];
        if u.products.None? then Err(KeyError("product"))
        else if u.products.value == [] then Ok(m)
        else if u.date.None? then Err(KeyError("usage-date"))
        else Ok(AppendAll(m, u.products.value, u.date.value))
  }

  /** The usage dates of the records listing p, once per listing, in order. */
  function UsageOf(us: seq<UsageRecord>, p: string): seq<string>
    decreases |us|
  {
    if us == [] then []
    else
      var u := us[|us| - 1];
      UsageOf(us[..|us| - 1], p) + (if u.products.Some? && u.date.Some? then Occur(u.products.value, p, u.date.value) else [])
  }

  // ---------------------------------------------------------------------
  // Step 4: the alerts.

  /**
   * `(expiration_date - datetime.now()).days`: whole days from now to the
   * expiration's midnight, rounded down, so one less once today's midnight
   * has passed.
   */
  function DaysToExpire(expiration: Date, today: Date, pastMidnight: bool): int
    requires ValidDate(expiration) && ValidDate(today)
  {
    Ordinal(expiration) - Ordinal(today) - (if pastMidnight then 1 else 0)
  }

  /** The two thresholds, checked in turn. */
  function Classify(days: int, critical: int, warning: int): Option<Urgency> {
    if days <= critical then Some(Critical) else if days <= warning then Some(Warning) else None
  }

  /** The name loop: the first product record with the id; KeyError when it has no name. */
  function ProductName(products: seq<ProductRecord>, pid: string): Result<Option<string>, TableError>
    decreases |products|
  {
    if products == [] then Ok(None)
    else if products[0].id == pid then
      (if products[0].name.None? then Err(KeyError("name")) else Ok(products[0].name))
    else ProductName(products[1..], pid)
  }

  /** The clock (today's date, whether midnight has passed) and `CRITICAL_DAYS`, `WARNING_DAYS`. */
  datatype Settings = Settings(today: Date, pastMidnight: bool, critical: int, warning: int)

  /** The body of the alert loop for one product. */
  function AlertFor(pid: string, category: string, expirations: map<string, Option<string>>, products: seq<ProductRecord>, s: Settings): Result<Option<Alert>, TableError>
    requires ValidDate(s.today)
  {
    var exp := if pid in expirations then expirations[pid] else None;
    if !Truthy(exp) then Ok(None)
    else
      match ParseIso(exp.value)
      case None => Err(ValueError(exp.value))
      case Some(d) =>
        match Classify(DaysToExpire(d, s.today, s.pastMidnight), s.critical, s.warning)
        case None => Ok(None)
        case Some(urgency) =>
          match ProductName(products, pid)
          case Err(e) => Err(e)
          case Ok(name) =>
            if !Truthy(name) then Ok(None)
            else Ok(Some(Alert(urgency, "Expiration", category, name.value, exp.value)))
  }

  /** The alert loop over `product_to_category.items()`. */
  function Alerts(keys: seq<string>, categories: map<string, string>, expirations: map<string, Option<string>>, products: seq<ProductRecord>, s: Settings): Result<seq<Alert>, TableError>
    requires ValidDate(s.today) && forall k :: k in keys ==> k in categories
    decreases |keys|
  {
    if keys == [] then Ok([])
    else
      match Alerts(keys[..|keys| - 1], categories, expirations, products, s)
      case Err(e) => Err(e)
      case Ok(alerts) =>
        var pid := keys[|keys| - 1];
        match AlertFor(pid, categories[pid], expirations, products, s)
        case Err(e) => Err(e)
        case Ok(None) => Ok(alerts)
        case Ok(Some(a)) => Ok(alerts + [a])
  }

  /** `parse_table_json`. */
  function ParseTableJson(cs: seq<C.CategoryRecord>, products: seq<ProductRecord>, os: seq<OrderRecord>, us: seq<UsageRecord>, s: Settings): Result<seq<Alert>, TableError>
    requires ValidDate(s.today)
  {
    match ProductCategories(cs)
    case Err(e) => Err(e)
    case Ok(d) =>
      match Expirations(os)
      case Err(e) => Err(e)
      case Ok(expirations) =>
        match UsageDates(us)
        case Err(e) => Err(e)
        case Ok(_) => Alerts(d.keys, d.values, expirations, products, s)
  }

  // ---------------------------------------------------------------------
  // Properties of the product-to-category map.

  /** The product loop maps exactly the listed products to the name and leaves the others alone. */
  lemma {:induction false} PutAllSpec(d: OrderedMap, ks: seq<string>, v: string, k: string)
    ensures k in ks ==> k in PutAll(d, ks, v).values && PutAll(d, ks, v).values[k] == v
    ensures k !in ks ==> (k in PutAll(d, ks, v).values <==> k in d.values) && (k in d.values ==> PutAll(d, ks, v).values[k] == d.values[k])
    decreases |ks|
  {
    if ks != [] {
      var init := ks[..|ks| - 1];
      PutAllSpec(d, init, v, k);
      assert ks == init + [ks[|ks| - 1]];
    }
  }

  /** The category loop succeeds exactly when every category record has a name. */
  lemma {:induction false} ProductCategoriesOk(cs: seq<C.CategoryRecord>)
    ensures ProductCategories(cs).Ok? <==> forall k :: 0 <= k < |cs| ==> cs[k].name.Some?
    decreases |cs|
  {
    if cs != [] {
      var init := cs[..|cs| - 1];
      ProductCategoriesOk(init);
      assert forall k :: 0 <= k < |init| ==> init[k] == cs[k];
    }
  }

  /**
   * A product listed by several categories gets the name of the last one
   * that lists it.
   */
  lemma {:induction false} LastCategoryName(cs: seq<C.CategoryRecord>, p: string, k: nat)
    requires ProductCategories(cs).Ok?
    requires k < |cs| && p in cs[k].products && forall l :: k < l < |cs| ==> p !in cs[l].products
    ensures p in ProductCategories(cs).value.values && Some(ProductCategories(cs).value.values[p]) == cs[k].name
    decreases |cs|
  {
    var init := cs[..|cs| - 1];
    var last := cs[|cs| - 1];
    PutAllSpec(ProductCategories(init).value, last.products, last.name.value, p);
    if k < |cs| - 1 {
      assert init[k] == cs[k];
      assert forall l :: k < l < |init| ==> init[l] == cs[l];
      LastCategoryName(init, p, k);
    }
  }

  /** A product no category lists gets no alert entry. */
  lemma {:induction false} UncategorisedProduct(cs: seq<C.CategoryRecord>, p: string)
    requires ProductCategories(cs).Ok?
    requires forall k :: 0 <= k < |cs| ==> p !in cs[k].products
    ensures p !in ProductCategories(cs).value.keys
    decreases |cs|
  {
    if cs != [] {
      var init := cs[..|cs| - 1];
      var last := cs[|cs| - 1];
      assert forall k :: 0 <= k < |init| ==> init[k] == cs[k];
      UncategorisedProduct(init, p);
      PutAllSpec(ProductCategories(init).value, last.products, last.name.value, p);
    }
  }

  // ---------------------------------------------------------------------
  // Properties of the expiration dates.

  lemma {:induction false} OccurMember<T>(ps: seq<string>, p: string, x: T, y: T)
    ensures y in Occur(ps, p, x) <==> p in ps && y == x
    decreases |ps|
  {
    if ps != [] {
      var init := ps[..|ps| - 1];
      OccurMember(init, p, x, y);
      assert ps == init + [ps[|ps| - 1]];
    }
  }

  /** The listings of p are the dates of exactly the orders that list p. */
  lemma {:induction false} ListingsMember(os: seq<OrderRecord>, p: string, e: Option<string>)
    ensures e in Listings(os, p) <==> exists k :: 0 <= k < |os| && os[k].products.Some? && p in os[k].products.value && os[k].expiration == e
    decreases |os|
  {
    if os != [] {
      var init := os[..|os| - 1];
      var o := os[|os| - 1];
      ListingsMember(init, p, e);
      assert forall k :: 0 <= k < |init| ==> init[k] == os[k];
      if o.products.Some? {
        OccurMember(o.products.value, p, o.expiration, e);
      }
    }
  }

  /** Tracking over two runs of listings is tracking over the first, then from there over the second. */
  lemma {:induction false} TrackFromAppend(st: Option<Option<string>>, a: seq<Option<string>>, b: seq<Option<string>>)
    ensures TrackFrom(st, a + b) == match TrackFrom(st, a) { case Err(e) => Err(e) case Ok(st') => TrackFrom(st', b) }
    decreases |b|
  {
    if b == [] {
      assert a + b == a;
    } else {
      var init := b[..|b| - 1];
      TrackFromAppend(st, a, init);
      assert (a + b)[..|a + b| - 1] == a + init;
    }
  }

  /** One product of one order, seen from product q: only p's entry moves, as Track says. */
  lemma ExpireAt(m: map<string, Option<string>>, p: string, e: Option<string>, q: string)
    ensures Expire(m, p, e).Ok? <==> Track(Lookup(m, p), e).Ok?
    ensures Expire(m, p, e).Ok? ==> Lookup(Expire(m, p, e).value, q) == if p == q then Some(Track(Lookup(m, q), e).value) else Lookup(m, q)
  {
  }

  /** Tracking one more listing. */
  lemma TrackFromSnoc(st: Option<Option<string>>, es: seq<Option<string>>, e: Option<string>)
    ensures TrackFrom(st, es + [e]) == match TrackFrom(st, es) { case Err(err) => Err(err) case Ok(st') => match Track(st', e) { case Err(err) => Err(err) case Ok(v) => Ok(Some(v)) } }
  {
    assert (es + [e])[..|es + [e]| - 1] == es;
  }

  /** The inner product loop, seen from one product q: it tracks q over q's listings in this order. */
  lemma {:induction false} ExpireAllAt(m: map<string, Option<string>>, ps: seq<string>, e: Option<string>, q: string)
    ensures ExpireAll(m, ps, e).Ok? ==> TrackFrom(Lookup(m, q), Occur(ps, q, e)) == Ok(Lookup(ExpireAll(m, ps, e).value, q))
    decreases |ps|
  {
    if ps != [] && ExpireAll(m, ps, e).Ok? {
      var init := ps[..|ps| - 1];
      var x := ps[|ps| - 1];
      ExpireAllAt(m, init, e, q);
      var m1 := ExpireAll(m, init, e).value;
      assert ExpireAll(m, ps, e) == Expire(m1, x, e);
      ExpireAt(m1, x, e, q);
      if x == q {
        TrackFromSnoc(Lookup(m, q), Occur(init, q, e), e);
      } else {
        assert Occur(ps, q, e) == Occur(init, q, e) + [];
        assert Occur(init, q, e) + [] == Occur(init, q, e);
      }
    }
  }

  /** When the inner product loop fails, the tracking of some product fails. */
  lemma {:induction false} ExpireAllErr(m: map<string, Option<string>>, ps: seq<string>, e: Option<string>) returns (q: string)
    ensures ExpireAll(m, ps, e).Err? ==> TrackFrom(Lookup(m, q), Occur(ps, q, e)).Err?
    decreases |ps|
  {
    q := "";
    if ps != [] && ExpireAll(m, ps, e).Err? {
      var init := ps[..|ps| - 1];
      var x := ps[|ps| - 1];
      if ExpireAll(m, init, e).Err? {
        q := ExpireAllErr(m, init, e);
      } else {
        q := x;
        ExpireAllAt(m, init, e, x);
        ExpireAt(ExpireAll(m, init, e).value, x, e, x);
      }
      if x == q {
        TrackFromSnoc(Lookup(m, q), Occur(init, q, e), e);
      } else {
        assert Occur(ps, q, e) == Occur(init, q, e) + [];
        assert Occur(init, q, e) + [] == Occur(init, q, e);
      }
    }
  }

  /** Seen from one product q, the order loop tracks q over q's listings. */
  lemma {:induction false} ExpirationsAt(os: seq<OrderRecord>, q: string)
    ensures Expirations(os).Ok? ==> Earliest(Listings(os, q)) == Ok(Lookup(Expirations(os).value, q))
    decreases |os|
  {
    if os != [] && Expirations(os).Ok? {
      var init := os[..|os| - 1];
      var o := os[|os| - 1];
      ExpirationsAt(init, q);
      ExpireAllAt(Expirations(init).value, o.products.value, o.expiration, q);
      TrackFromAppend(None, Listings(init, q), Occur(o.products.value, q, o.expiration));
    }
  }

  /** An order without a product field fails the loop. */
  lemma {:induction false} ExpirationsNeedProducts(os: seq<OrderRecord>)
    ensures Expirations(os).Ok? ==> forall k :: 0 <= k < |os| ==> os[k].products.Some?
    decreases |os|
  {
    if os != [] {
      var init := os[..|os| - 1];
      ExpirationsNeedProducts(init);
      assert forall k :: 0 <= k < |init| ==> init[k] == os[k];
    }
  }

  /** When every order has products and the loop fails, the tracking of some product fails. */
  lemma {:induction false} ExpirationsErr(os: seq<OrderRecord>) returns (q: string)
    requires forall k :: 0 <= k < |os| ==> os[k].products.Some?
    ensures Expirations(os).Err? ==> Earliest(Listings(os, q)).Err?
    decreases |os|
  {
    q := "";
    if os != [] {
      var init := os[..|os| - 1];
      var o := os[|os| - 1];
      assert forall k :: 0 <= k < |init| ==> init[k] == os[k];
      if Expirations(init).Err? {
        q := ExpirationsErr(init);
      } else {
        q := ExpireAllErr(Expirations(init).value, o.products.value, o.expiration);
        ExpirationsAt(init, q);
      }
      TrackFromAppend(None, Listings(init, q), Occur(o.products.value, q, o.expiration));
    }
  }

  /**
   * The order loop succeeds exactly when every order has a product field and
   * no product's listings raise TypeError.
   */
  lemma ExpirationsOk(os: seq<OrderRecord>)
    ensures Expirations(os).Ok? <==> (forall k :: 0 <= k < |os| ==> os[k].products.Some?) && forall q :: Earliest(Listings(os, q)).Ok?
  {
    ExpirationsNeedProducts(os);
    if Expirations(os).Ok? {
      forall q {
        ExpirationsAt(os, q);
      }
    } else if forall k :: 0 <= k < |os| ==> os[k].products.Some? {
      var q := ExpirationsErr(os);
    }
  }

  /**
   * The tracking of one product fails exactly when its first listing has no
   * date and a later one has a non-empty date.
   */
  lemma {:induction false} EarliestOk(es: seq<Option<string>>)
    ensures Earliest(es).Ok? <==> es == [] || es[0].Some? || forall k :: 0 <= k < |es| ==> !Truthy(es[k])
    decreases |es|
  {
    if es != [] {
      var init := es[..|es| - 1];
      EarliestOk(init);
      assert forall k :: 0 <= k < |init| ==> init[k] == es[k];
      if init != [] && Earliest(init).Ok? {
        EarliestFirst(init);
      }
    }
  }

  /** Once a product has a listing, what is stored is None exactly when its first listing had no date. */
  lemma {:induction false} EarliestFirst(es: seq<Option<string>>)
    requires Earliest(es).Ok?
    ensures Earliest(es).value.None? <==> es == []
    ensures es != [] ==> (Earliest(es).value.value.None? <==> es[0].None?)
    decreases |es|
  {
    if es != [] {
      var init := es[..|es| - 1];
      EarliestFirst(init);
      if init != [] {
        assert init[0] == es[0];
      }
    }
  }

  /**
   * The stored date is one of the product's listed dates, and no non-empty
   * listed date sorts before it: the earliest date, as strings compare.
   */
  lemma {:induction false} EarliestIsMinimum(es: seq<Option<string>>, v: string)
    requires Earliest(es) == Ok(Some(Some(v)))
    ensures exists k :: 0 <= k < |es| && es[k] == Some(v)
    ensures forall k :: 0 <= k < |es| && Truthy(es[k]) ==> !LexLess(es[k].value, v)
    decreases |es|
  {
    var init := es[..|es| - 1];
    var e := es[|es| - 1];
    assert forall k :: 0 <= k < |init| ==> init[k] == es[k];
    LexLessIrreflexive(v);
    if init == [] {
      assert Earliest(init) == Ok(None);
      assert es[0] == e == Some(v);
    } else {
      EarliestFirst(init);
      var cur := Earliest(init).value.value;
      if cur.Some? {
        EarliestIsMinimum(init, cur.value);
        if e == Some(v) && LexLess(v, cur.value) {
          forall k | 0 <= k < |init| && Truthy(es[k])
            ensures !LexLess(es[k].value, v)
          {
            if LexLess(es[k].value, v) {
              LexLessTransitive(es[k].value, v, cur.value);
            }
          }
        }
      }
    }
  }

  /**
   * Per product: an order-loop result holds a product exactly when some
   * order lists it, and then holds the earliest date of its listings (or
   * None when its first order has no date).
   */
  lemma EarliestExpiration(os: seq<OrderRecord>, q: string)
    requires Expirations(os).Ok?
    ensures q in Expirations(os).value <==> exists k :: 0 <= k < |os| && os[k].products.Some? && q in os[k].products.value
    ensures q in Expirations(os).value ==> Earliest(Listings(os, q)) == Ok(Some(Expirations(os).value[q]))
  {
    ExpirationsAt(os, q);
    ExpirationsNeedProducts(os);
    EarliestFirst(Listings(os, q));
    if Listings(os, q) != [] {
      ListingsMember(os, q, Listings(os, q)[0]);
    }
    if exists k :: 0 <= k < |os| && os[k].products.Some? && q in os[k].products.value {
      var k :| 0 <= k < |os| && os[k].products.Some? && q in os[k].products.value;
      ListingsMember(os, q, os[k].expiration);
    }
  }

  // ---------------------------------------------------------------------
  // Properties of the usage dates.

  lemma {:induction false} AppendAllAt(m: map<string, seq<string>>, ps: seq<string>, date: string, q: string)
    ensures Dates(AppendAll(m, ps, date), q) == Dates(m, q) + Occur(ps, q, date)
    decreases |ps|
  {
    if ps != [] {
      var init := ps[..|ps| - 1];
      AppendAllAt(m, init, date, q);
    }
  }

  /** Each product's usage dates are the dates of the usage records listing it, in order. */
  lemma {:induction false} UsageDatesAt(us: seq<UsageRecord>, q: string)
    ensures UsageDates(us).Ok? ==> Dates(UsageDates(us).value, q) == UsageOf(us, q)
    decreases |us|
  {
    if us != [] && UsageDates(us).Ok? {
      var init := us[..|us| - 1];
      var u := us[|us| - 1];
      UsageDatesAt(init, q);
      if u.date.Some? {
        AppendAllAt(UsageDates(init).value, u.products.value, u.date.value, q);
        if u.products.value == [] {
          assert Occur(u.products.value, q, u.date.value) == [];
        }
      }
    }
  }

  /**
   * The usage loop succeeds exactly when every usage record has a product
   * field and every record with products has a date.
   */
  lemma {:induction false} UsageDatesOk(us: seq<UsageRecord>)
    ensures UsageDates(us).Ok? <==> forall k :: 0 <= k < |us| ==> us[k].products.Some? && (us[k].products.value != [] ==> us[k].date.Some?)
    decreases |us|
  {
    if us != [] {
      var init := us[..|us| - 1];
      UsageDatesOk(init);
      assert forall k :: 0 <= k < |init| ==> init[k] == us[k];
    }
  }

  // ---------------------------------------------------------------------
  // Properties of the alerts.

  /** The name comes from the first product record carrying the id. */
  lemma {:induction false} ProductNameFirst(products: seq<ProductRecord>, pid: string, k: nat)
    requires k < |products| && products[k].id == pid && forall l :: 0 <= l < k ==> products[l].id != pid
    ensures ProductName(products, pid) == if products[k].name.None? then Err(KeyError("name")) else Ok(products[k].name)
    decreases k
  {
    if k > 0 {
      ProductNameFirst(products[1..], pid, k - 1);
    }
  }

  /** No record with the id: no name, and no error. */
  lemma {:induction false} ProductNameMissing(products: seq<ProductRecord>, pid: string)
    requires forall l :: 0 <= l < |products| ==> products[l].id != pid
    ensures ProductName(products, pid) == Ok(None)
    decreases |products|
  {
    if products != [] {
      ProductNameMissing(products[1..], pid);
    }
  }

  /** A found name is the name of the first record with the id. */
  lemma {:induction false} ProductNameFound(products: seq<ProductRecord>, pid: string, n: string) returns (k: nat)
    requires ProductName(products, pid) == Ok(Some(n))
    ensures k < |products| && products[k].id == pid && (forall l :: 0 <= l < k ==> products[l].id != pid) && products[k].name == Some(n)
    decreases |products|
  {
    if products[0].id == pid {
      k := 0;
    } else {
      var k' := ProductNameFound(products[1..], pid, n);
      k := k' + 1;
    }
  }

  /**
   * Critical at or below the critical threshold, Warning above it up to the
   * warning threshold, nothing beyond; with the thresholds the wrong way
   * round there is never a Warning.
   */
  lemma ClassifySpec(days: int, critical: int, warning: int)
    ensures Classify(days, critical, warning) == Some(Critical) <==> days <= critical
    ensures Classify(days, critical, warning) == Some(Warning) <==> critical < days <= warning
    ensures Classify(days, critical, warning) == None <==> critical < days && warning < days
    ensures warning <= critical ==> Classify(days, critical, warning) != Some(Warning)
  {
  }

  /**
   * The day count moves one for one with the expiration date, and an item
   * expiring today counts 0 days at midnight and -1 days after it.
   */
  lemma DaysCount(expiration: Date, today: Date, pastMidnight: bool)
    requires ValidDate(expiration) && ValidDate(today) && expiration.year < 9999
    ensures ValidDate(NextDay(expiration))
    ensures DaysToExpire(NextDay(expiration), today, pastMidnight) == DaysToExpire(expiration, today, pastMidnight) + 1
    ensures DaysToExpire(today, today, pastMidnight) == if pastMidnight then -1 else 0
  {
    OrdinalNext(expiration);
  }

  /**
   * What an alert says: it is an expiration alert for the product's category,
   * dated with the product's stored expiration date, which parses; its
   * urgency follows the thresholds; and its product name is the non-empty
   * name of the first product record with the id.
   */
  lemma AlertFacts(pid: string, category: string, expirations: map<string, Option<string>>, products: seq<ProductRecord>, s: Settings, a: Alert)
    requires ValidDate(s.today) && AlertFor(pid, category, expirations, products, s) == Ok(Some(a))
    ensures a.kind == "Expiration" && a.category == category && a.product != ""
    ensures pid in expirations && expirations[pid] == Some(a.effectiveDate)
    ensures ParseIso(a.effectiveDate).Some?
    ensures var days := DaysToExpire(ParseIso(a.effectiveDate).value, s.today, s.pastMidnight);
      (a.urgency == Critical <==> days <= s.critical) && (a.urgency == Warning ==> days <= s.warning)
    ensures exists k :: 0 <= k < |products| && products[k].id == pid && (forall l :: 0 <= l < k ==> products[l].id != pid) && products[k].name == Some(a.product)
  {
    var k := ProductNameFound(products, pid, a.product);
  }

  /**
   * A product gets an alert when its stored date is non-empty and parses, the
   * day count is within a threshold, and the first product record with the
   * id has a non-empty name.
   */
  lemma AlertDue(pid: string, category: string, expirations: map<string, Option<string>>, products: seq<ProductRecord>, s: Settings, k: nat)
    requires ValidDate(s.today) && pid in expirations && Truthy(expirations[pid])
    requires ParseIso(expirations[pid].value).Some?
    requires DaysToExpire(ParseIso(expirations[pid].value).value, s.today, s.pastMidnight) <= if s.critical < s.warning then s.warning else s.critical
    requires k < |products| && products[k].id == pid && (forall l :: 0 <= l < k ==> products[l].id != pid) && Truthy(products[k].name)
    ensures var days := DaysToExpire(ParseIso(expirations[pid].value).value, s.today, s.pastMidnight);
      AlertFor(pid, category, expirations, products, s)
      == Ok(Some(Alert(if days <= s.critical then Critical else Warning, "Expiration", category, products[k].name.value, expirations[pid].value)))
  {
    ProductNameFirst(products, pid, k);
  }

  /**
   * No alert, and no error, for a product without a non-empty stored date,
   * for one whose day count is past both thresholds, or for one no product
   * record carries (once the date parses); a stored date that does not
   * parse raises ValueError.
   */
  lemma AlertSkipped(pid: string, category: string, expirations: map<string, Option<string>>, products: seq<ProductRecord>, s: Settings)
    requires ValidDate(s.today)
    ensures (pid !in expirations || !Truthy(expirations[pid])) ==> AlertFor(pid, category, expirations, products, s) == Ok(None)
    ensures pid in expirations && Truthy(expirations[pid]) && ParseIso(expirations[pid].value).None? ==>
      AlertFor(pid, category, expirations, products, s) == Err(ValueError(expirations[pid].value))
    ensures (pid in expirations && Truthy(expirations[pid]) && ParseIso(expirations[pid].value).Some? &&
      (var days := DaysToExpire(ParseIso(expirations[pid].value).value, s.today, s.pastMidnight); s.critical < days && s.warning < days)) ==>
      AlertFor(pid, category, expirations, products, s) == Ok(None)
    ensures ((forall l :: 0 <= l < |products| ==> products[l].id != pid) && (pid in expirations && Truthy(expirations[pid]) ==> ParseIso(expirations[pid].value).Some?)) ==>
      AlertFor(pid, category, expirations, products, s) == Ok(None)
  {
    if forall l :: 0 <= l < |products| ==> products[l].id != pid {
      ProductNameMissing(products, pid);
    }
  }

  /** The alert loop succeeds exactly when its body succeeds for every key. */
  lemma {:induction false} AlertsOk(keys: seq<string>, categories: map<string, string>, expirations: map<string, Option<string>>, products: seq<ProductRecord>, s: Settings)
    requires ValidDate(s.today) && forall k :: k in keys ==> k in categories
    ensures Alerts(keys, categories, expirations, products, s).Ok? <==> forall i :: 0 <= i < |keys| ==> AlertFor(keys[i], categories[keys[i]], expirations, products, s).Ok?
    decreases |keys|
  {
    if keys != [] {
      var init := keys[..|keys| - 1];
      AlertsOk(init, categories, expirations, products, s);
      assert forall i :: 0 <= i < |init| ==> init[i] == keys[i];
    }
  }

  /**
   * A successful alert loop holds exactly the alerts its body produces, at
   * most one per key.
   */
  lemma {:induction false} AlertsCollect(keys: seq<string>, categories: map<string, string>, expirations: map<string, Option<string>>, products: seq<ProductRecord>, s: Settings, a: Alert)
    requires ValidDate(s.today) && forall k :: k in keys ==> k in categories
    requires Alerts(keys, categories, expirations, products, s).Ok?
    ensures |Alerts(keys, categories, expirations, products, s).value| <= |keys|
    ensures a in Alerts(keys, categories, expirations, products, s).value <==>
      exists i :: 0 <= i < |keys| && AlertFor(keys[i], categories[keys[i]], expirations, products, s) == Ok(Some(a))
    decreases |keys|
  {
    if keys != [] {
      var init := keys[..|keys| - 1];
      AlertsCollect(init, categories, expirations, products, s, a);
      assert forall i :: 0 <= i < |init| ==> init[i] == keys[i];
    }
  }

  // ---------------------------------------------------------------------
  // An exception ends the loops: a failed prefix fails the whole loop.

  lemma {:induction false} CategoriesErrSticks(cs: seq<C.CategoryRecord>, i: nat)
    requires i <= |cs| && ProductCategories(cs[..i]).Err?
    ensures ProductCategories(cs) == ProductCategories(cs[..i])
    decreases |cs| - i
  {
    if i < |cs| {
      assert cs[..i + 1][..i] == cs[..i];
      CategoriesErrSticks(cs, i + 1);
    } else {
      assert cs[..i] == cs;
    }
  }

  lemma {:induction false} ExpireAllErrSticks(m: map<string, Option<string>>, ps: seq<string>, e: Option<string>, j: nat)
    requires j <= |ps| && ExpireAll(m, ps[..j], e).Err?
    ensures ExpireAll(m, ps, e) == ExpireAll(m, ps[..j], e)
    decreases |ps| - j
  {
    if j < |ps| {
      assert ps[..j + 1][..j] == ps[..j];
      ExpireAllErrSticks(m, ps, e, j + 1);
    } else {
      assert ps[..j] == ps;
    }
  }

  lemma {:induction false} ExpirationsErrSticks(os: seq<OrderRecord>, i: nat)
    requires i <= |os| && Expirations(os[..i]).Err?
    ensures Expirations(os) == Expirations(os[..i])
    decreases |os| - i
  {
    if i < |os| {
      assert os[..i + 1][..i] == os[..i];
      ExpirationsErrSticks(os, i + 1);
    } else {
      assert os[..i] == os;
    }
  }

  lemma {:induction false} UsageErrSticks(us: seq<UsageRecord>, i: nat)
    requires i <= |us| && UsageDates(us[..i]).Err?
    ensures UsageDates(us) == UsageDates(us[..i])
    decreases |us| - i
  {
    if i < |us| {
      assert us[..i + 1][..i] == us[..i];
      UsageErrSticks(us, i + 1);
    } else {
      assert us[..i] == us;
    }
  }

  lemma {:induction false} AlertsErrSticks(keys: seq<string>, categories: map<string, string>, expirations: map<string, Option<string>>, products: seq<ProductRecord>, s: Settings, i: nat)
    requires ValidDate(s.today) && forall k :: k in keys ==> k in categories
    requires i <= |keys| && Alerts(keys[..i], categories, expirations, products, s).Err?
    ensures Alerts(keys, categories, expirations, products, s) == Alerts(keys[..i], categories, expirations, products, s)
    decreases |keys| - i
  {
    if i < |keys| {
      assert keys[..i + 1][..i] == keys[..i];
      AlertsErrSticks(keys, categories, expirations, products, s, i + 1);
    } else {
      assert keys[..i] == keys;
    }
  }

  // ---------------------------------------------------------------------
  // The loops of `parse_table_json`.

  /** Step 1: the category loop and its product loop. */
  method MapProductCategories(cs: seq<C.CategoryRecord>) returns (r: Result<OrderedMap, TableError>)
    ensures r == ProductCategories(cs)
  {
    var keys: seq<string> := [];
    var values: map<string, string> := map[];
    for i := 0 to |cs|
      invariant ProductCategories(cs[..i]) == Ok(OrderedMap(keys, values))
    {
      assert cs[..i + 1][..i] == cs[..i];
      var c := cs[i];
      if c.name.None? {
        CategoriesErrSticks(cs, i + 1);
        return Err(KeyError("name"));
      }
      var name := c.name.value;
      ghost var start := OrderedMap(keys, values);
      for j := 0 to |c.products|
        invariant OrderedMap(keys, values) == PutAll(start, c.products[..j], name)
      {
        assert c.products[..j + 1][..j] == c.products[..j];
        var p := c.products[j];
        if p !in values {
          keys := keys + [p];
        }
        values := values[p := name];
      }
      assert c.products[..|c.products|] == c.products;
    }
    assert cs[..|cs|] == cs;
    r := Ok(OrderedMap(keys, values));
  }

  /** Step 2: the order loop and its product loop. */
  method ExpirationDates(os: seq<OrderRecord>) returns (r: Result<map<string, Option<string>>, TableError>)
    ensures r == Expirations(os)
  {
    var m: map<string, Option<string>> := map[];
    for i := 0 to |os|
      invariant Expirations(os[..i]) == Ok(m)
    {
      assert os[..i + 1][..i] == os[..i];
      var o := os[i];
      if o.products.None? {
        ExpirationsErrSticks(os, i + 1);
        return Err(KeyError("product"));
      }
      var ps := o.products.value;
      var e := o.expiration;
      ghost var start := m;
      for j := 0 to |ps|
        invariant ExpireAll(start, ps[..j], e) == Ok(m)
      {
        assert ps[..j + 1][..j] == ps[..j];
        var p := ps[j];
        if p !in m {
          m := m[p := e];
        } else if e.Some? && e.value != "" {
          if m[p].None? {
            ExpireAllErrSticks(start, ps, e, j + 1);
            ExpirationsErrSticks(os, i + 1);
            return Err(TypeError);
          }
          if LexLess(e.value, m[p].value) {
            m := m[p := e];
          } else {
            assert m[p := m[p]] == m;
          }
        } else {
          assert m[p := m[p]] == m;
        }
      }
      assert ps[..|ps|] == ps;
    }
    assert os[..|os|] == os;
    r := Ok(m);
  }

  /** Step 3: the usage loop and its product loop. */
  method CollectUsageDates(us: seq<UsageRecord>) returns (r: Result<map<string, seq<string>>, TableError>)
    ensures r == UsageDates(us)
  {
    var m: map<string, seq<string>> := map[];
    for i := 0 to |us|
      invariant UsageDates(us[..i]) == Ok(m)
    {
      assert us[..i + 1][..i] == us[..i];
      var u := us[i];
      if u.products.None? {
        UsageErrSticks(us, i + 1);
        return Err(KeyError("product"));
      }
      var ps := u.products.value;
      ghost var start := m;
      for j := 0 to |ps|
        invariant u.date.Some? ==> m == AppendAll(start, ps[..j], u.date.value)
        invariant u.date.None? ==> j == 0 && m == start
      {
        if u.date.None? {
          UsageErrSticks(us, i + 1);
          return Err(KeyError("usage-date"));
        }
        assert ps[..j + 1][..j] == ps[..j];
        var p := ps[j];
        m := m[p := Dates(m, p) + [u.date.value]];
      }
      assert ps[..|ps|] == ps;
    }
    assert us[..|us|] == us;
    r := Ok(m);
  }

  /** The name loop: stops at the first product record with the id. */
  method FindProductName(products: seq<ProductRecord>, pid: string) returns (r: Result<Option<string>, TableError>)
    ensures r == ProductName(products, pid)
  {
    var i := 0;
    while i < |products|
      invariant 0 <= i <= |products|
      invariant ProductName(products[i..], pid) == ProductName(products, pid)
    {
      if products[i].id == pid {
        if products[i].name.None? {
          return Err(KeyError("name"));
        }
        return Ok(products[i].name);
      }
      assert products[i..][1..] == products[i + 1..];
      i := i + 1;
    }
    r := Ok(None);
  }

  /** Step 4: the alert loop. */
  method BuildAlerts(keys: seq<string>, categories: map<string, string>, expirations: map<string, Option<string>>, products: seq<ProductRecord>, s: Settings)
    returns (r: Result<seq<Alert>, TableError>)
    requires ValidDate(s.today) && forall k :: k in keys ==> k in categories
    ensures r == Alerts(keys, categories, expirations, products, s)
  {
    var alerts: seq<Alert> := [];
    for i := 0 to |keys|
      invariant Alerts(keys[..i], categories, expirations, products, s) == Ok(alerts)
    {
      assert keys[..i + 1][..i] == keys[..i];
      var pid := keys[i];
      var category := categories[pid];
      var exp := if pid in expirations then expirations[pid] else None;
      var found: Option<Alert> := None;
      if exp.Some? && exp.value != "" {
        var date := ParseIso(exp.value);
        if date.None? {
          AlertsErrSticks(keys, categories, expirations, products, s, i + 1);
          return Err(ValueError(exp.value));
        }
        var days := DaysToExpire(date.value, s.today, s.pastMidnight);
        var urgency: Option<Urgency> := None;
        if days <= s.critical {
          urgency := Some(Critical);
        } else if days <= s.warning {
          urgency := Some(Warning);
        }
        if urgency.Some? {
          var name := FindProductName(products, pid);
          if name.Err? {
            AlertsErrSticks(keys, categories, expirations, products, s, i + 1);
            return Err(name.error);
          }
          if name.value.Some? && name.value.value != "" {
            found := Some(Alert(urgency.value, "Expiration", category, name.value.value, exp.value));
          }
        }
      }
      assert AlertFor(pid, category, expirations, products, s) == Ok(found);
      if found.Some? {
        alerts := alerts + [found.value];
      }
    }
    assert keys[..|keys|] == keys;
    r := Ok(alerts);
  }

  /** `parse_table_json`: the four loops in turn. */
  method ParseTableRecords(cs: seq<C.CategoryRecord>, products: seq<ProductRecord>, os: seq<OrderRecord>, us: seq<UsageRecord>, s: Settings)
    returns (r: Result<seq<Alert>, TableError>)
    requires ValidDate(s.today)
    ensures r == ParseTableJson(cs, products, os, us, s)
  {
    var categories := MapProductCategories(cs);
    if categories.Err? {
      return Err(categories.error);
    }
    var expirations := ExpirationDates(os);
    if expirations.Err? {
      return Err(expirations.error);
    }
    var usage := CollectUsageDates(us);
    if usage.Err? {
      return Err(usage.error);
    }
    r := BuildAlerts(categories.value.keys, categories.value.values, expirations.value, products, s);
  }
}
