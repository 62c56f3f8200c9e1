/**
 * The two report endpoints of the dashboard back end, `purchase_report` and
 * `usage_report`: validation of the `items` field, the per-item checks and
 * date reformatting, and the loop that writes the items to Airtable one by
 * one and stops at the first failure.
 */
module Reports {
  import opened Wrappers
  import opened Text
  import opened AirtableDates
  import opened SeqUtil

  /** A JSON value read with `item.get(key)`: None when the key is absent or null. */
  type Field = Option<string>

  /** Python truthiness of such a value: present, not null and not the empty string. */
  predicate Truthy(v: Field) {
    v.Some? && v.value != ""
  }

  /** The `items` member of the request body. */
  datatype ItemsField<T> = Absent | NotAList | Items(list: seq<T>)

  datatype PurchaseItem = PurchaseItem(product: Field, orderDate: Field, expirationDate: Field)
  datatype UsageItem = UsageItem(product: Field, usageDate: Field)

  /** The `fields` object written to the Orders table. */
  datatype OrderFields = OrderFields(product: seq<string>, orderDate: string, expirationDate: Option<string>)
  /** The `fields` object written to the Usages table. */
  datatype UsageFields = UsageFields(product: seq<string>, usageDate: string)

  /** What `airtable_write` hands back: the status code and the body's `message`, if any. */
  datatype WriteReply = WriteReply(status: int, message: Option<string>)

  /** The JSON body of a successful report. */
  datatype Reply = Reply(status: int, message: string)

  const InvalidItems := HttpError(400, "Invalid data or missing items")
  const MissingOrder := HttpError(400, "Missing product or order date")
  const MissingUsage := HttpError(400, "Missing product or usage date")
  const ExpiresEarly := HttpError(400, "Expiration date cannot be earlier than order date")

  /** `f"Error writing to Airtable: {response_data.get('message')}"`: a missing message prints as None. */
  function WriteError(w: WriteReply): HttpError {
    HttpError(500, "Error writing to Airtable: " + (match w.message case Some(m) => m case None => "None"))
  }

  // ---------------------------------------------------------------------
  // Per-item checks.

  /**
   * One purchase item: both required fields present, the order date and (when
   * given) the expiration date reformatted, and then the expiration date
   * compared with the order date as strings.
   */
  function CheckPurchase(item: PurchaseItem): Result<OrderFields, HttpError> {
    if !Truthy(item.product) || !Truthy(item.orderDate) then Err(MissingOrder)
    else
      match FormatDateToAirtable(item.orderDate.value)
      case Err(e) => Err(e)
      case Ok(order) =>
        var expiration :=
          if Truthy(item.expirationDate) then FormatDateToAirtable(item.expirationDate.value) else Ok("");
        match expiration
        case Err(e) => Err(e)
        case Ok(exp) =>
          if Truthy(item.expirationDate) && LexLess(item.expirationDate.value, item.orderDate.value) then Err(ExpiresEarly)
          else Ok(OrderFields([item.product.value], order, if Truthy(item.expirationDate) then Some(exp) else None))
  }

  /** One usage item: both fields present and the usage date reformatted. */
  function CheckUsage(item: UsageItem): Result<UsageFields, HttpError> {
    if !Truthy(item.product) || !Truthy(item.usageDate) then Err(MissingUsage)
    else
      match FormatDateToAirtable(item.usageDate.value)
      case Err(e) => Err(e)
      case Ok(usage) => Ok(UsageFields([item.product.value], usage))
  }

  // ---------------------------------------------------------------------
  // Writing the items.

  /** The records written and the error raised, if any. */
  datatype Outcome<F> = Outcome(sent: seq<F>, error: Option<HttpError>)

  /**
   * The loop over the items: each is checked, then written; a failed check
   * raises before the write, a reply other than 200 raises after it. The
   * n-th write of the table gets `reply(n)`.
   */
  function Writes<T, F>(items: seq<T>, check: T -> Result<F, HttpError>, reply: nat -> WriteReply, n: nat): Outcome<F>
    decreases |items|
  {
    if items == [] then Outcome([], None)
    else
      match check(items[0])
      case Err(e) => Outcome([], Some(e))
      case Ok(f) =>
        if reply(n).status != 200 then Outcome([f], Some(WriteError(reply(n))))
        else
          var rest := Writes(items[1..], check, reply, n + 1);
          Outcome([f] + rest.sent, rest.error)
  }

  /** The first k items pass their checks, and the records sent for them are their checked fields, in order. */
  ghost predicate SentInOrder<T, F>(items: seq<T>, check: T -> Result<F, HttpError>, sent: seq<F>) {
    |sent| <= |items| && forall k :: 0 <= k < |sent| ==> check(items[k]) == Ok(sent[k])
  }

  /** The replies to writes n .. n+k-1 are all 200. */
  ghost predicate Accepted(reply: nat -> WriteReply, n: nat, k: nat) {
    forall j :: n <= j < n + k ==> reply(j).status == 200
  }

  /**
   * Items are written strictly in order: what was sent is the checked fields
   * of a prefix of the items. Success means every item was checked and
   * written and every write was accepted; a failed check stops the loop
   * before that item is written; a rejected write raises 500 after it.
   */
  lemma {:induction false} WritesInOrder<T, F>(items: seq<T>, check: T -> Result<F, HttpError>, reply: nat -> WriteReply, n: nat)
    ensures var o := Writes(items, check, reply, n);
      SentInOrder(items, check, o.sent)
      && (o.error.None? <==> |o.sent| == |items| && Accepted(reply, n, |items|))
      && (o.error.Some? && o.error.value.status != 500 ==>
            |o.sent| < |items| && check(items[|o.sent|]) == Err(o.error.value) && Accepted(reply, n, |o.sent|))
      && (o.error.Some? && o.error.value.status == 500 && (forall t :: check(t).Err? ==> check(t).error.status != 500) ==>
            |o.sent| >= 1 && o.error.value == WriteError(reply(n + |o.sent| - 1))
            && reply(n + |o.sent| - 1).status != 200 && Accepted(reply, n, |o.sent| - 1))
    decreases |items|
  {
    if items != [] && check(items[0]).Ok? && reply(n).status == 200 {
      WritesInOrder(items[1..], check, reply, n + 1);
      var rest := Writes(items[1..], check, reply, n + 1);
      var f := check(items[0]).value;
      var sent := [f] + rest.sent;
      forall k | 0 <= k < |sent|
        ensures check(items[k]) == Ok(sent[k])
      {
        if k > 0 {
          assert items[k] == items[1..][k - 1];
        }
      }
    }
  }

  // ---------------------------------------------------------------------
  // The endpoints as functions of the request and the table's replies.

  /** The whole request: 400 for a missing, non-list or empty `items`, else the write loop and its reply. */
  function Report<T, F>(data: ItemsField<T>, check: T -> Result<F, HttpError>, reply: nat -> WriteReply, n: nat, success: string): (Result<Reply, HttpError>, seq<F>) {
    if !data.Items? || |data.list| == 0 then (Err(InvalidItems), [])
    else
      var o := Writes(data.list, check, reply, n);
      match o.error
      case Some(e) => (Err(e), o.sent)
      case None => (Ok(Reply(200, success)), o.sent)
  }

  const PurchaseSuccess := "Report submitted successfully"
  const UsageSuccess := "Usage report submitted successfully"

  function PurchaseReport(data: ItemsField<PurchaseItem>, reply: nat -> WriteReply, n: nat): (Result<Reply, HttpError>, seq<OrderFields>) {
    Report(data, CheckPurchase, reply, n, PurchaseSuccess)
  }

  function UsageReport(data: ItemsField<UsageItem>, reply: nat -> WriteReply, n: nat): (Result<Reply, HttpError>, seq<UsageFields>) {
    Report(data, CheckUsage, reply, n, UsageSuccess)
  }

  // ---------------------------------------------------------------------
  // Properties of the endpoints.

  /**
   * A purchase item is rejected with 400 when its product or order date is
   * missing or empty, whatever else it holds; an accepted item names exactly
   * its product and carries a reformatted order date.
   */
  lemma PurchaseItemRequired(item: PurchaseItem)
    ensures !Truthy(item.product) || !Truthy(item.orderDate) ==> CheckPurchase(item) == Err(MissingOrder)
    ensures CheckPurchase(item).Err? ==> CheckPurchase(item).error.status == 400
    ensures CheckPurchase(item).Ok? ==>
      CheckPurchase(item).value.product == [item.product.value]
      && FormatDateToAirtable(item.orderDate.value) == Ok(CheckPurchase(item).value.orderDate)
      && (CheckPurchase(item).value.expirationDate.Some? <==> Truthy(item.expirationDate))
  {
  }

  /**
   * Both dates are reformatted before they are compared: an item is turned
   * down for an early expiration only when both its dates are valid, and a
   * malformed expiration date is reported as such even when it sorts first.
   */
  lemma FormatBeforeCompare(item: PurchaseItem)
    requires Truthy(item.product) && Truthy(item.orderDate)
    ensures ParseIso(item.orderDate.value).None? ==>
      CheckPurchase(item) == Err(HttpError(400, "Invalid date format: " + item.orderDate.value))
    ensures (ParseIso(item.orderDate.value).Some? && Truthy(item.expirationDate)
             && ParseIso(item.expirationDate.value).None?) ==>
      CheckPurchase(item) == Err(HttpError(400, "Invalid date format: " + item.expirationDate.value))
    ensures (ParseIso(item.orderDate.value).Some?
             && (!Truthy(item.expirationDate) || ParseIso(item.expirationDate.value).Some?)) ==>
      ((CheckPurchase(item).Ok? <==> !(Truthy(item.expirationDate) && LexLess(item.expirationDate.value, item.orderDate.value)))
       && (CheckPurchase(item).Err? ==> CheckPurchase(item) == Err(ExpiresEarly)))
  {
  }

  /**
   * For dates written the canonical "YYYY-MM-DD" way the string comparison
   * is the calendar one: such an item is accepted exactly when it does not
   * expire before it was ordered.
   */
  lemma CanonicalExpiration(product: string, order: Date, expiration: Date)
    requires product != "" && ValidDate(order) && ValidDate(expiration)
    ensures CheckPurchase(PurchaseItem(Some(product), Some(IsoText(order)), Some(IsoText(expiration)))).Ok?
      <==> !Before(expiration, order)
  {
    ParseIsoText(order);
    ParseIsoText(expiration);
    IsoOrder(expiration, order);
  }

  /** A usage item is accepted exactly when it names a product and a date strptime takes. */
  lemma UsageItemAccepted(item: UsageItem)
    ensures CheckUsage(item).Ok? <==> Truthy(item.product) && Truthy(item.usageDate) && ParseIso(item.usageDate.value).Some?
    ensures CheckUsage(item).Ok? ==>
      (CheckUsage(item).value.product == [item.product.value]
       && FormatDateToAirtable(item.usageDate.value) == Ok(CheckUsage(item).value.usageDate))
    ensures CheckUsage(item).Err? ==> CheckUsage(item).error.status == 400
  {
  }

  /** No item check raises 500: that code is kept for rejected writes. */
  lemma ChecksNeverServerError()
    ensures forall i :: CheckPurchase(i).Err? ==> CheckPurchase(i).error.status != 500
    ensures forall i :: CheckUsage(i).Err? ==> CheckUsage(i).error.status != 500
  {
    forall i | CheckPurchase(i).Err? ensures CheckPurchase(i).error.status == 400 {
      PurchaseItemRequired(i);
    }
    forall i | CheckUsage(i).Err? ensures CheckUsage(i).error.status == 400 {
      UsageItemAccepted(i);
    }
  }

  /**
   * A request succeeds exactly when `items` is a non-empty list, every item
   * passes its check and every write is accepted; it then has written one
   * record per item, in order. A missing, non-list or empty `items` writes
   * nothing.
   */
  lemma ReportSucceeds<T, F>(data: ItemsField<T>, check: T -> Result<F, HttpError>, reply: nat -> WriteReply, n: nat, success: string)
    ensures var (r, sent) := Report(data, check, reply, n, success);
      (r.Ok? <==> data.Items? && |data.list| > 0 && (forall k :: 0 <= k < |data.list| ==> check(data.list[k]).Ok?)
                  && Accepted(reply, n, |data.list|))
      && (r.Ok? ==> r.value == Reply(200, success) && |sent| == |data.list| && SentInOrder(data.list, check, sent))
      && (!data.Items? || |data.list| == 0 ==> r == Err(InvalidItems) && sent == [])
  {
    if data.Items? && |data.list| > 0 {
      WritesInOrder(data.list, check, reply, n);
      if forall k :: 0 <= k < |data.list| ==> check(data.list[k]).Ok? {
        AllChecksOkWrites(data.list, check, reply, n);
      }
    }
  }

  /** When every item passes its check, the loop stops only at a rejected write. */
  lemma {:induction false} AllChecksOkWrites<T, F>(items: seq<T>, check: T -> Result<F, HttpError>, reply: nat -> WriteReply, n: nat)
    requires forall k :: 0 <= k < |items| ==> check(items[k]).Ok?
    ensures Writes(items, check, reply, n).error.None? <==> Accepted(reply, n, |items|)
    decreases |items|
  {
    if items != [] {
      assert check(items[0]).Ok?;
      if reply(n).status == 200 {
        forall k | 0 <= k < |items[1..]| ensures check(items[1..][k]).Ok? {
          assert items[1..][k] == items[k + 1];
        }
        AllChecksOkWrites(items[1..], check, reply, n + 1);
      }
    }
  }

  /**
   * A purchase request that fails on its k-th item has already written the
   * items before it: the records sent are the checked fields of a prefix.
   */
  lemma PurchasePartialWrites(data: ItemsField<PurchaseItem>, reply: nat -> WriteReply, n: nat)
    requires data.Items?
    ensures var (r, sent) := PurchaseReport(data, reply, n);
      SentInOrder(data.list, CheckPurchase, sent)
      && (r.Err? && r.error.status == 400 && |data.list| > 0 ==>
            |sent| < |data.list| && CheckPurchase(data.list[|sent|]) == Err(r.error))
      && (r.Err? && r.error.status == 500 ==>
            |sent| >= 1 && reply(n + |sent| - 1).status != 200 && r.error == WriteError(reply(n + |sent| - 1)))
  {
    WritesInOrder(data.list, CheckPurchase, reply, n);
    ChecksNeverServerError();
  }

  // ---------------------------------------------------------------------
  // The handlers as they run against a table.

  /** An Airtable table: the records written to it so far, and the reply it gives to its n-th write. */
  class Table<F> {
    var written: seq<F>
    const reply: nat -> WriteReply

    constructor (reply: nat -> WriteReply)
      ensures written == [] && this.reply == reply
    {
      written := [];
      this.reply := reply;
    }

    /** `airtable_write`: append one record and hand back the table's reply to it. */
    method Write(f: F) returns (w: WriteReply)
      modifies this
      ensures written == old(written) + [f]
      ensures w == reply(|old(written)|)
    {
      w := reply(|written|);
      written := written + [f];
    }
  }

  /** The outcome `o` preceded by records already sent. */
  function After<F>(done: seq<F>, o: Outcome<F>): Outcome<F> {
    Outcome(done + o.sent, o.error)
  }

  /**
   * Once the first i items have passed their checks and been accepted, the
   * loop's outcome is theirs followed by that of the remaining items.
   */
  lemma {:induction false} WritesPrefix<T, F>(items: seq<T>, i: nat, check: T -> Result<F, HttpError>, reply: nat -> WriteReply, m: nat, done: seq<F>)
    requires i <= |items| && |done| == i
    requires forall k :: 0 <= k < i ==> check(items[k]) == Ok(done[k])
    requires Accepted(reply, m, i)
    ensures Writes(items, check, reply, m) == After(done, Writes(items[i..], check, reply, m + i))
    decreases i
  {
    if i == 0 {
      assert items[0..] == items && done == [];
    } else {
      assert check(items[0]) == Ok(done[0]) && reply(m).status == 200;
      var tail := Writes(items[i..], check, reply, m + i);
      assert items[1..][i - 1..] == items[i..];
      forall k | 0 <= k < i - 1 ensures check(items[1..][k]) == Ok(done[1..][k]) {
        assert items[1..][k] == items[k + 1];
      }
      WritesPrefix(items[1..], i - 1, check, reply, m + 1, done[1..]);
      assert [done[0]] + (done[1..] + tail.sent) == done + tail.sent;
    }
  }

  /** The loop stops at an item that fails its check, or at a write that is refused. */
  lemma WritesStop<T, F>(items: seq<T>, i: nat, check: T -> Result<F, HttpError>, reply: nat -> WriteReply, m: nat)
    requires i < |items|
    ensures check(items[i]).Err? ==>
      Writes(items[i..], check, reply, m) == Outcome([], Some(check(items[i]).error))
    ensures check(items[i]).Ok? && reply(m).status != 200 ==>
      Writes(items[i..], check, reply, m) == Outcome([check(items[i]).value], Some(WriteError(reply(m))))
  {
    assert items[i..][0] == items[i];
  }

  /** The handler body shared by both endpoints: validate `items`, then check and write item by item. */
  method Submit<T, F>(data: ItemsField<T>, check: T -> Result<F, HttpError>, table: Table<F>, success: string)
    returns (r: Result<Reply, HttpError>)
    modifies table
    ensures var (expected, sent) := Report(data, check, table.reply, |old(table.written)|, success);
      r == expected && table.written == old(table.written) + sent
  {
    ghost var start := table.written;
    if !data.Items? || |data.list| == 0 {
      return Err(InvalidItems);
    }
    var items := data.list;
    ghost var reply, m := table.reply, |start|;
    ghost var done: seq<F> := [];
    var i := 0;
    while i < |items|
      invariant 0 <= i <= |items|
      invariant table.written == start + done && |done| == i && table.reply == reply
      invariant forall k :: 0 <= k < i ==> check(items[k]) == Ok(done[k])
      invariant Accepted(reply, m, i)
    {
      var checked := check(items[i]);
      if checked.Err? {
        WritesPrefix(items, i, check, reply, m, done);
        WritesStop(items, i, check, reply, m + i);
        assert done + [] == done;
        r := Err(checked.error);
        return;
      }
      var w := table.Write(checked.value);
      if w.status != 200 {
        WritesPrefix(items, i, check, reply, m, done);
        WritesStop(items, i, check, reply, m + i);
        ConcatAssoc(start, done, [checked.value]);
        r := Err(WriteError(w));
        return;
      }
      ConcatAssoc(start, done, [checked.value]);
      done := done + [checked.value];
      i := i + 1;
    }
    WritesPrefix(items, i, check, reply, m, done);
    assert items[i..] == [] && done + [] == done;
    r := Ok(Reply(200, success));
  }

  /** `purchase_report` against the Orders table. */
  method SubmitPurchaseReport(data: ItemsField<PurchaseItem>, orders: Table<OrderFields>) returns (r: Result<Reply, HttpError>)
    modifies orders
    ensures var (expected, sent) := PurchaseReport(data, orders.reply, |old(orders.written)|);
      r == expected && orders.written == old(orders.written) + sent
  {
    r := Submit(data, CheckPurchase, orders, PurchaseSuccess);
  }

  /** `usage_report` against the Usages table. */
  method SubmitUsageReport(data: ItemsField<UsageItem>, usages: Table<UsageFields>) returns (r: Result<Reply, HttpError>)
    modifies usages
    ensures var (expected, sent) := UsageReport(data, usages.reply, |old(usages.written)|);
      r == expected && usages.written == old(usages.written) + sent
  {
    r := Submit(data, CheckUsage, usages, UsageSuccess);
  }
}
