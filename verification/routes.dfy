/** The order HTTP handlers: placing an order, reconciling a payment with
    the gateway's reply, and canceling an order. The gateway is an input:
    its approval reply and its cancel outcome are parameters, and the calls
    a handler makes to it are part of the outcome. */
module Routes {
  import opened Wrappers
  import opened Errors
  import opened OrderTypes
  import opened Store
  import Js
  import Decimal
  import Validation
  import Orders

  /** A call to the payment gateway. */
  datatype GatewayCall =
    | Approve(orderId: string, paymentKey: string, amount: int)
    | CancelPayment(orderId: string, reason: string)

  /** The gateway's JSON reply to a payment approval; absent fields are `Undefined`. */
  datatype ApproveReply = ApproveReply(
    code: Js.Value,
    message: Js.Value,
    cancels: Js.Value,
    status: Js.Value,
    totalAmount: Js.Value,
    virtualAccount: Js.Value)

  /** How the gateway's payment cancellation settled. */
  datatype CancelReply = CancelSucceeded | CancelRejected(message: string)

  /** What a handler leaves behind: the store, the gateway calls made, and
      the response or the error thrown. A handler can write and then throw. */
  datatype RouteOutcome<T> = RouteOutcome(store: Store, calls: seq<GatewayCall>, reply: Result<T, Error>)

  function Reject<T>(s: Store, e: Error): (out: RouteOutcome<T>)
    ensures out.store == s && out.calls == [] && out.reply == Failure(e)
  {
    RouteOutcome(s, [], Failure(e))
  }

  // ---------------------------------------------------------------------
  // Item validation, as the loop the handler module runs
  // ---------------------------------------------------------------------

  function Prepend(prefix: seq<ItemWithAmount>, r: Result<seq<ItemWithAmount>, Error>): Result<seq<ItemWithAmount>, Error> {
    match r
    case Success(rest) => Success(prefix + rest)
    case Failure(e) => Failure(e)
  }

  lemma PrependNil(r: Result<seq<ItemWithAmount>, Error>)
    ensures Prepend([], r) == r
  {
    if r.Success? {
      assert [] + r.value == r.value;
    }
  }

  lemma PrependTwice(a: seq<ItemWithAmount>, b: seq<ItemWithAmount>, r: Result<seq<ItemWithAmount>, Error>)
    ensures Prepend(a, Prepend(b, r)) == Prepend(a + b, r)
  {
    if r.Success? {
      assert a + (b + r.value) == (a + b) + r.value;
    }
  }

  /** One step of the item loop: how the check of the entries from `i` on
      depends on entry `i`. */
  lemma CheckEntriesAt(entries: seq<Js.Value>, i: nat, catalog: Catalog, seen: set<string>)
    requires i < |entries|
    ensures var e := entries[i];
      var r := Validation.CheckEntries(entries[i..], catalog, seen);
      && (Js.Nullish(e) ==> r == Failure(NullishAccess))
      && (!Js.Nullish(e) && !Validation.WellShaped(e) ==> r == Failure(BadItemEntry))
      && (Validation.WellShaped(e) && Validation.QuantityOf(e) == 0 ==> r == Failure(ZeroQuantity))
      && (var unseen := Validation.WellShaped(e) && Validation.QuantityOf(e) != 0 && Validation.ItemIdOf(e) !in seen;
          && (Validation.WellShaped(e) && Validation.QuantityOf(e) != 0 && !unseen
              ==> r == Failure(DuplicateItem(Validation.ItemIdOf(e))))
          && (unseen && Validation.ItemIdOf(e) !in catalog
              ==> r == Failure(UnknownItem(Validation.ItemIdOf(e))))
          && (unseen && Validation.ItemIdOf(e) in catalog
              ==> var item := catalog[Validation.ItemIdOf(e)];
                  r == Prepend([ItemWithAmount(item, Validation.QuantityOf(e))],
                               Validation.CheckEntries(entries[i + 1..], catalog, seen + {item.id}))))
  {
    assert entries[i..][0] == entries[i];
    assert entries[i..][1..] == entries[i + 1..];
  }

  /** `validateItems(items, payWith)`: resolves each `[quantity, id]` entry
      against the catalog in one pass, then prices the order. It behaves
      exactly as `validateOrderItems` does. */
  method ValidateItems(items: Js.Value, payWith: PaymentMethod, catalog: Catalog) returns (r: Result<VerifiedRequest, Error>)
    ensures r == Validation.ValidateOrderItems(items, payWith, catalog)
    ensures r.Success? ==> r.value.price == Validation.TotalPrice(r.value.items) && r.value.payWith == payWith
  {
    if Js.Nullish(items) || Js.TypeOf(items) != Js.TObject {
      return Failure(ItemsNotObject);
    }
    if !items.Array? {
      return Failure(ItemsNotArray);
    }
    var entries := items.elems;
    var lines: seq<ItemWithAmount> := [];
    var seen: set<string> := {};
    var i := 0;
    assert entries[0..] == entries;
    PrependNil(Validation.CheckEntries(entries, catalog, {}));
    while i < |entries|
      invariant 0 <= i <= |entries|
      invariant Validation.CheckEntries(entries, catalog, {})
        == Prepend(lines, Validation.CheckEntries(entries[i..], catalog, seen))
    {
      var e := entries[i];
      CheckEntriesAt(entries, i, catalog, seen);
      if Js.Nullish(e) {
        return Failure(NullishAccess);
      }
      var quantity := Js.Elem(e, 0);
      var itemId := Js.Elem(e, 1);
      if !quantity.Number? || !itemId.Str? {
        return Failure(BadItemEntry);
      }
      if quantity.n == 0 {
        return Failure(ZeroQuantity);
      }
      if itemId.s in seen {
        return Failure(DuplicateItem(itemId.s));
      }
      if itemId.s !in catalog {
        return Failure(UnknownItem(itemId.s));
      }
      var item := catalog[itemId.s];
      var line := ItemWithAmount(item, quantity.n);
      PrependTwice(lines, [line], Validation.CheckEntries(entries[i + 1..], catalog, seen + {item.id}));
      seen := seen + {item.id};
      lines := lines + [line];
      i := i + 1;
    }
    assert entries[i..] == [];
    assert lines + [] == lines;
    assert Validation.CheckEntries(entries, catalog, {}) == Success(lines);
    var price := 0;
    var j := 0;
    while j < |lines|
      invariant 0 <= j <= |lines|
      invariant price == Validation.TotalPrice(lines[..j])
    {
      assert lines[..j + 1][..j] == lines[..j];
      price := price + Validation.LineTotal(lines[j]);
      j := j + 1;
    }
    assert lines[..|lines|] == lines;
    return Success(VerifiedRequest(price, payWith, lines));
  }

  // ---------------------------------------------------------------------
  // POST /order
  // ---------------------------------------------------------------------

  datatype TossInfo = TossInfo(amount: int, orderId: string, orderName: string, customerName: string)

  datatype PlaceResponse = PlaceResponse(order: StoreOrder, toss: TossInfo)

  const CustomerName := "키오스크 결제"

  /** The order name shown by the payment widget: the first item's name,
      followed by " 외 <n-1>건" when there are more items. An empty list
      has no first item, and reading its name throws. */
  function OrderName(items: seq<ItemWithAmount>): (r: Result<string, Error>)
    ensures r.Failure? <==> items == []
    ensures |items| == 1 ==> r == Success(items[0].item.name)
    ensures |items| > 1 ==> exists count: string ::
      && r == Success(items[0].item.name + " 외 " + count + "건")
      && Decimal.Canonical(count)
      && Decimal.StringToNumber(count) == Decimal.Int(|items| - 1)
  {
    if items == [] then Failure(NullishAccess)
    else if |items| > 1 then
      var count := Decimal.IntToString(|items| - 1);
      Decimal.IntToStringRoundTrip(|items| - 1);
      Success(items[0].item.name + " 외 " + count + "건")
    else Success(items[0].item.name)
  }

  /** A request body that passes the handler's own checks before validation. */
  predicate PlaceBodyShaped(body: Js.Value) {
    !body.Str? && !Js.Nullish(body)
    && Js.Truthy(Js.Field(body, "items")) && !Js.Nullish(Js.Field(body, "payWith"))
  }

  /** A body the handler accepts up to and including item validation. */
  predicate PlaceValidates(body: Js.Value, catalog: Catalog) {
    && PlaceBodyShaped(body)
    && Validation.ValidatePayMethod(Js.Field(body, "payWith")).Success?
    && Validation.ValidateOrderItems(Js.Field(body, "items"),
         Validation.ValidatePayMethod(Js.Field(body, "payWith")).value, catalog).Success?
  }

  /** The verified request a validating body yields. */
  function PlacedRequest(body: Js.Value, catalog: Catalog): VerifiedRequest
    requires PlaceValidates(body, catalog)
  {
    Validation.ValidateOrderItems(Js.Field(body, "items"),
      Validation.ValidatePayMethod(Js.Field(body, "payWith")).value, catalog).value
  }

  /** `POST /order`: validates the payment method and the items, stores a
      pre-order waiting for payment and answers with the order and the
      payment widget's parameters. Nothing is stored unless the request
      validates. */
  function PlaceOrder(s: Store, body: Js.Value, catalog: Catalog, id: string, date: Timestamp): (out: RouteOutcome<PlaceResponse>)
    requires Fresh(s, id)
    ensures out.calls == []
    ensures out.store != s <==> PlaceValidates(body, catalog)
    ensures out.reply.Success? <==> PlaceValidates(body, catalog) && PlacedRequest(body, catalog).items != []
    ensures out.store != s ==>
      && PlaceBodyShaped(body)
      && Validation.ValidatePayMethod(Js.Field(body, "payWith")).Success?
      && Validation.ValidateOrderItems(Js.Field(body, "items"),
           Validation.ValidatePayMethod(Js.Field(body, "payWith")).value, catalog).Success?
      && out.store == s.(pending := s.pending[id := MakeOrder(
           Validation.ValidateOrderItems(Js.Field(body, "items"),
             Validation.ValidatePayMethod(Js.Field(body, "payWith")).value, catalog).value,
           id, date, WaitingPayment)])
    ensures out.reply.Success? ==>
      var o := out.reply.value.order;
      && out.store == s.(pending := s.pending[id := o])
      && o.id == id && o.date == date && o.state == WaitingPayment && o.cancel.None?
      && o.price == Validation.TotalPrice(o.items)
      && o.items != []
      && out.reply.value.toss == TossInfo(o.price, id, OrderName(o.items).value, CustomerName)
  {
    if body.Str? then Reject(s, BodyIsString)
    else if Js.Nullish(body) then Reject(s, NullishAccess)
    else if !Js.Truthy(Js.Field(body, "items")) then Reject(s, ItemsMissing)
    else if Js.Nullish(Js.Field(body, "payWith")) then Reject(s, PayWithMissing)
    else match Validation.ValidatePayMethod(Js.Field(body, "payWith"))
      case Failure(e) => Reject(s, e)
      case Success(m) =>
        match Validation.ValidateOrderItems(Js.Field(body, "items"), m, catalog)
        case Failure(e) => Reject(s, e)
        case Success(req) =>
          var (s1, order) := MakeAnPreOrder(s, req, WaitingPayment, id, date);
          match OrderName(order.items)
          case Failure(e) => RouteOutcome(s1, [], Failure(e))
          case Success(name) =>
            RouteOutcome(s1, [], Success(PlaceResponse(order, TossInfo(order.price, order.id, name, CustomerName))))
  }

  /** An empty item array passes validation, so the handler stores a
      pre-order priced 0 and only then fails reading the first item's name. */
  lemma EmptyCartLeavesPreOrder(s: Store, payWith: PaymentMethod, catalog: Catalog, id: string, date: Timestamp)
    requires Fresh(s, id)
    ensures var body := Js.Object(map["items" := Js.Array([]), "payWith" := Js.Number(MethodCode(payWith))]);
      var out := PlaceOrder(s, body, catalog, id, date);
      && out.reply == Failure(NullishAccess)
      && id in out.store.pending
      && out.store.pending[id] == MakeOrder(VerifiedRequest(0, payWith, []), id, date, WaitingPayment)
  {
    var body := Js.Object(map["items" := Js.Array([]), "payWith" := Js.Number(MethodCode(payWith))]);
    assert Js.Field(body, "items") == Js.Array([]);
    assert Js.Field(body, "payWith") == Js.Number(MethodCode(payWith));
    MethodCodeRoundTrip(payWith);
    assert Validation.ValidatePayMethod(Js.Field(body, "payWith")) == Success(payWith);
  }

  /** `POST /order` rejecting an empty item list before anything is stored. */
  function PlaceOrderChecked(s: Store, body: Js.Value, catalog: Catalog, id: string, date: Timestamp): (out: RouteOutcome<PlaceResponse>)
    requires Fresh(s, id)
    ensures out.calls == []
    ensures out.reply.Success? <==> PlaceValidates(body, catalog) && PlacedRequest(body, catalog).items != []
    ensures PlaceValidates(body, catalog) && out.reply.Success? ==>
      out.reply.value.order == MakeOrder(PlacedRequest(body, catalog), id, date, WaitingPayment)
    ensures out.reply.Failure? ==> out.store == s
    ensures out.reply.Success? ==>
      var o := out.reply.value.order;
      && o.items != []
      && out.store == s.(pending := s.pending[id := o])
      && o.id == id && o.date == date && o.state == WaitingPayment && o.cancel.None?
      && o.price == Validation.TotalPrice(o.items)
      && out.reply.value.toss == TossInfo(o.price, id, OrderName(o.items).value, CustomerName)
  {
    if body.Str? then Reject(s, BodyIsString)
    else if Js.Nullish(body) then Reject(s, NullishAccess)
    else if !Js.Truthy(Js.Field(body, "items")) then Reject(s, ItemsMissing)
    else if Js.Nullish(Js.Field(body, "payWith")) then Reject(s, PayWithMissing)
    else match Validation.ValidatePayMethod(Js.Field(body, "payWith"))
      case Failure(e) => Reject(s, e)
      case Success(m) =>
        match Validation.ValidateOrderItems(Js.Field(body, "items"), m, catalog)
        case Failure(e) => Reject(s, e)
        case Success(req) =>
          if req.items == [] then Reject(s, EmptyOrder)
          else
            var (s1, order) := MakeAnPreOrder(s, req, WaitingPayment, id, date);
            RouteOutcome(s1, [], Success(PlaceResponse(order, TossInfo(order.price, order.id, OrderName(order.items).value, CustomerName))))
  }

  /** The corrected handler answers every request the original answers, in
      the same way, and a request it refuses leaves the store as it was. */
  lemma PlaceOrderCheckedAgrees(s: Store, body: Js.Value, catalog: Catalog, id: string, date: Timestamp)
    requires Fresh(s, id)
    ensures PlaceOrder(s, body, catalog, id, date).reply.Success? ==>
      PlaceOrderChecked(s, body, catalog, id, date) == PlaceOrder(s, body, catalog, id, date)
    ensures PlaceOrderChecked(s, body, catalog, id, date).reply.Failure? ==>
      PlaceOrderChecked(s, body, catalog, id, date).store == s
  {
  }

  // ---------------------------------------------------------------------
  // POST /order/:orderId/payment
  // ---------------------------------------------------------------------

  datatype PaymentResponse = PaymentResponse(state: OrderState, price: Js.Value, virtualAccount: Js.Value)

  /** Gateway statuses that mean the payment did not complete. */
  predicate FailedStatus(status: Js.Value) {
    status == Js.Str("CANCELED") || status == Js.Str("PARTIAL_CANCELED")
    || status == Js.Str("ABORTED") || status == Js.Str("EXPIRED")
  }

  /** A reply the handler does not reject: no error code with a message, no
      cancellations, and not a failed status. */
  predicate AcceptedReply(reply: ApproveReply) {
    !(Js.Truthy(reply.code) && !reply.message.Undefined?)
    && !Js.Truthy(reply.cancels)
    && !FailedStatus(reply.status)
  }

  /** The state an accepted reply leads to: a completed payment awaits
      acceptance, anything else still awaits payment. */
  function StateAfter(reply: ApproveReply): (st: OrderState)
    ensures st == WaitingAccept <==> reply.status == Js.Str("DONE")
    ensures st != WaitingAccept ==> st == WaitingPayment
  {
    if reply.status == Js.Str("DONE") then WaitingAccept else WaitingPayment
  }

  /** A payment body with a string payment key and a numeric string amount. */
  predicate PaymentBodyShaped(body: Js.Value) {
    !body.Str? && !Js.Nullish(body)
    && Js.Field(body, "paymentKey").Str?
    && Js.Field(body, "amount").Str?
    && Js.ToNumber(Js.Field(body, "amount")).Int?
  }

  function SubmittedAmount(body: Js.Value): int
    requires PaymentBodyShaped(body)
  {
    Js.ToNumber(Js.Field(body, "amount")).n
  }

  /** `POST /order/:orderId/payment`: only the pending collection is
      consulted; the submitted amount is compared with the order's price
      before the state is checked; only then is the gateway asked to approve.
      An accepted reply with status DONE promotes the order to the confirmed
      collection awaiting acceptance; any other accepted reply rewrites the
      pre-order awaiting payment. */
  function Payment(s: Store, orderId: string, body: Js.Value, reply: ApproveReply): (out: RouteOutcome<PaymentResponse>)
    ensures out.reply.Failure? ==> out.store == s
    ensures orderId !in s.pending ==> out.reply.Failure? && out.calls == []
    ensures orderId != "" && PaymentBodyShaped(body) && orderId in s.pending
            && SubmittedAmount(body) != s.pending[orderId].price
      ==> out.reply == Failure(AmountMismatch) && out.calls == []
    ensures orderId != "" && PaymentBodyShaped(body) && orderId in s.pending
            && SubmittedAmount(body) == s.pending[orderId].price && s.pending[orderId].state != WaitingPayment
      ==> out.reply == Failure(NotPayable) && out.calls == []
    ensures out.calls != [] <==>
      && orderId != "" && PaymentBodyShaped(body) && orderId in s.pending
      && SubmittedAmount(body) == s.pending[orderId].price && s.pending[orderId].state == WaitingPayment
    ensures out.calls != [] ==>
      var o := s.pending[orderId];
      out.calls == [Approve(o.id, Js.Field(body, "paymentKey").s, o.price)]
    ensures out.reply.Success? <==> out.calls != [] && AcceptedReply(reply)
    ensures out.reply.Success? ==>
      var o := s.pending[orderId];
      var st := StateAfter(reply);
      && out.reply.value == PaymentResponse(st, reply.totalAmount, reply.virtualAccount)
      && (st == WaitingAccept ==> out.store == PromotePreOrderToOrder(s, o.(state := WaitingAccept)))
      && (st == WaitingPayment ==> out.store == UpdatePreOrder(s, o.id, o.(state := WaitingPayment)))
  {
    if body.Str? then Reject(s, BodyIsString)
    else if orderId == "" then Reject(s, OrderIdMissing)
    else if Js.Nullish(body) then Reject(s, NullishAccess)
    else
      var key := Js.Field(body, "paymentKey");
      var amount := Js.Field(body, "amount");
      if !key.Str? || !amount.Str? || Js.ToNumber(amount).NaN? then Reject(s, BadPaymentData)
      else match GetPreOrder(s, orderId)
        case None => Reject(s, OrderNotFound)
        case Some(order) =>
          if Js.ToNumber(amount) != Decimal.Int(order.price) then Reject(s, AmountMismatch)
          else if order.state != WaitingPayment then Reject(s, NotPayable)
          else
            var calls := [Approve(order.id, key.s, order.price)];
            if Js.Truthy(reply.code) && !reply.message.Undefined? then RouteOutcome(s, calls, Failure(GatewayError))
            else if Js.Truthy(reply.cancels) then RouteOutcome(s, calls, Failure(PaymentCanceled))
            else if FailedStatus(reply.status) then RouteOutcome(s, calls, Failure(PaymentNotCompleted))
            else
              var st := StateAfter(reply);
              var updated := order.(state := st);
              var s' := if st == WaitingPayment then UpdatePreOrder(s, order.id, updated)
                        else PromotePreOrderToOrder(s, updated);
              RouteOutcome(s', calls, Success(PaymentResponse(st, reply.totalAmount, reply.virtualAccount)))
  }

  /** In a valid store a successful payment keeps the store valid. With
      status DONE the order is afterwards found only in the confirmed
      collection, awaiting acceptance; otherwise it stays a pre-order
      awaiting payment. No other order changes. */
  lemma PaymentEffect(s: Store, orderId: string, body: Js.Value, reply: ApproveReply, k: string)
    requires Valid(s)
    requires Payment(s, orderId, body, reply).reply.Success?
    ensures var s' := Payment(s, orderId, body, reply).store;
      var o := s.pending[orderId];
      && Valid(s')
      && (reply.status == Js.Str("DONE") ==>
            orderId !in s'.pending && FindOrder(s', orderId) == Some(FoundOrder(false, o.(state := WaitingAccept))))
      && (reply.status != Js.Str("DONE") ==>
            FindOrder(s', orderId) == Some(FoundOrder(true, o)))
      && (k != orderId ==> FindOrder(s', k) == FindOrder(s, k))
  {
  }

  /** A completed payment followed by acceptance leaves the order Done in
      the confirmed collection. */
  lemma PayThenAccept(s: Store, orderId: string, body: Js.Value, reply: ApproveReply)
    requires Valid(s)
    requires Payment(s, orderId, body, reply).reply.Success?
    requires reply.status == Js.Str("DONE")
    ensures var s' := Payment(s, orderId, body, reply).store;
      && Orders.Accept(s', orderId).Success?
      && Orders.Accept(s', orderId).value.store.confirmed[orderId].state == Done
      && Valid(Orders.Accept(s', orderId).value.store)
  {
    PaymentEffect(s, orderId, body, reply, orderId);
  }

  /** A pre-order awaiting payment, paid with its own price and a completed
      gateway reply, is approved once for that price and then accepted into
      Done, the store staying valid. */
  lemma PayPendingThenAccept(s: Store, id: string, key: string, reply: ApproveReply)
    requires Valid(s) && id != "" && id in s.pending && s.pending[id].state == WaitingPayment
    requires AcceptedReply(reply) && reply.status == Js.Str("DONE")
    ensures var o := s.pending[id];
      var payBody := Js.Object(map["paymentKey" := Js.Str(key), "amount" := Js.Str(Decimal.IntToString(o.price))]);
      var paid := Payment(s, id, payBody, reply);
      && paid.reply.Success? && paid.reply.value.state == WaitingAccept
      && paid.calls == [Approve(id, key, o.price)]
      && Orders.Accept(paid.store, id).Success?
      && Orders.Accept(paid.store, id).value.store.confirmed[id] == o.(state := Done)
      && Valid(Orders.Accept(paid.store, id).value.store)
  {
    var o := s.pending[id];
    var payBody := Js.Object(map["paymentKey" := Js.Str(key), "amount" := Js.Str(Decimal.IntToString(o.price))]);
    Decimal.IntToStringRoundTrip(o.price);
    assert Js.Field(payBody, "paymentKey") == Js.Str(key);
    assert Js.Field(payBody, "amount") == Js.Str(Decimal.IntToString(o.price));
    assert PaymentBodyShaped(payBody) && SubmittedAmount(payBody) == o.price;
    var paid := Payment(s, id, payBody, reply);
    assert paid.calls != [];
    assert paid.reply.Success?;
    PayThenAccept(s, id, payBody, reply);
  }

  /** The whole happy path: a body that validates with a non-empty cart is
      placed; the order, paid with its own price and a
      completed gateway reply, is promoted awaiting acceptance, and then
      accepted into state Done, the store staying valid throughout. */
  lemma PlacePayAccept(s: Store, body: Js.Value, catalog: Catalog, id: string, date: Timestamp,
                       key: string, reply: ApproveReply)
    requires Valid(s) && Fresh(s, id) && id != ""
    requires PlaceValidates(body, catalog) && PlacedRequest(body, catalog).items != []
    requires AcceptedReply(reply) && reply.status == Js.Str("DONE")
    ensures PlaceOrderChecked(s, body, catalog, id, date).reply.Success?
    ensures var placed := PlaceOrderChecked(s, body, catalog, id, date);
      var o := placed.reply.value.order;
      var payBody := Js.Object(map["paymentKey" := Js.Str(key), "amount" := Js.Str(Decimal.IntToString(o.price))]);
      var paid := Payment(placed.store, id, payBody, reply);
      && Valid(placed.store)
      && paid.reply.Success? && paid.reply.value.state == WaitingAccept
      && paid.calls == [Approve(id, key, o.price)]
      && Orders.Accept(paid.store, id).Success?
      && Orders.Accept(paid.store, id).value.store.confirmed[id] == o.(state := Done)
      && Valid(Orders.Accept(paid.store, id).value.store)
  {
    var placed := PlaceOrderChecked(s, body, catalog, id, date);
    var o := placed.reply.value.order;
    assert placed.store == s.(pending := s.pending[id := o]) && o.id == id;
    assert Valid(placed.store);
    PayPendingThenAccept(placed.store, id, key, reply);
  }

  // ---------------------------------------------------------------------
  // POST /order/:orderId/cancel
  // ---------------------------------------------------------------------

  /** The handler's lookup: the pending collection first, then the
      confirmed one. */
  function LookupPendingFirst(s: Store, id: string): (r: Option<FoundOrder>)
    ensures r.None? <==> id !in s.pending && id !in s.confirmed
    ensures id in s.pending ==> r == Some(FoundOrder(true, s.pending[id]))
    ensures id !in s.pending && id in s.confirmed ==> r == Some(FoundOrder(false, s.confirmed[id]))
  {
    match GetPreOrder(s, id)
    case Some(o) => Some(FoundOrder(true, o))
    case None =>
      match GetOrder(s, id)
      case Some(o) => Some(FoundOrder(false, o))
      case None => None
  }

  /** In a valid store the order of the two lookups does not matter. */
  lemma LookupOrderIrrelevant(s: Store, id: string)
    requires Valid(s)
    ensures LookupPendingFirst(s, id) == FindOrder(s, id)
  {
  }

  /** A request the cancel handler gets past its lookup with: an id, an
      object body, and a stored order that is not already canceled. */
  predicate CancelAdmissible(s: Store, orderId: string, body: Js.Value) {
    && orderId != ""
    && Js.TypeOf(body) == Js.TObject
    && LookupPendingFirst(s, orderId).Some?
    && LookupPendingFirst(s, orderId).value.order.state != Canceled
  }

  /** A body carrying a non-empty string `cancelReason`. */
  predicate ReasonGiven(body: Js.Value) {
    !Js.Nullish(body) && Js.Truthy(Js.Field(body, "cancelReason")) && Js.Field(body, "cancelReason").Str?
  }

  /** `POST /order/:orderId/cancel`: an order waiting for acceptance needs a
      non-empty string reason and a successful gateway cancellation first;
      then the state becomes Canceled, a pre-order is deleted and a confirmed
      order is rewritten. No cancel record is attached and no event is
      published. */
  function CancelOrder(s: Store, orderId: string, body: Js.Value, gateway: CancelReply): (out: RouteOutcome<bool>)
    ensures out.reply.Failure? ==> out.store == s
    ensures orderId != "" && Js.TypeOf(body) == Js.TObject && LookupPendingFirst(s, orderId).Some?
            && LookupPendingFirst(s, orderId).value.order.state == Canceled
      ==> out.reply == Failure(AlreadyCanceled)
    ensures out.calls != [] ==>
      && CancelAdmissible(s, orderId, body)
      && LookupPendingFirst(s, orderId).value.order.state == WaitingAccept
      && !Js.Nullish(body)
      && Js.Field(body, "cancelReason").Str? && Js.Field(body, "cancelReason").s != ""
      && out.calls == [CancelPayment(LookupPendingFirst(s, orderId).value.order.id, Js.Field(body, "cancelReason").s)]
    ensures out.reply.Success? <==>
      && CancelAdmissible(s, orderId, body)
      && (LookupPendingFirst(s, orderId).value.order.state == WaitingAccept ==>
            ReasonGiven(body) && gateway == CancelSucceeded)
    ensures CancelAdmissible(s, orderId, body) && LookupPendingFirst(s, orderId).value.order.state == WaitingAccept
            && ReasonGiven(body)
      ==> out.calls == [CancelPayment(LookupPendingFirst(s, orderId).value.order.id, Js.Field(body, "cancelReason").s)]
    ensures out.reply.Success? ==> LookupPendingFirst(s, orderId).Some?
    ensures out.reply.Success? && LookupPendingFirst(s, orderId).Some? ==>
      var f := LookupPendingFirst(s, orderId).value;
      && orderId != ""
      && f.order.state != Canceled
      && (f.order.state == WaitingAccept <==> out.calls != [])
      && (f.order.state == WaitingAccept ==> gateway == CancelSucceeded)
      && (f.preOrder ==> out.store == DeletePreOrder(s, f.order.id))
      && (!f.preOrder ==> out.store == UpdateOrder(s, f.order.id, f.order.(state := Canceled)))
  {
    if orderId == "" then Reject(s, OrderIdMissing)
    else if Js.TypeOf(body) != Js.TObject then Reject(s, BodyNotObject)
    else match LookupPendingFirst(s, orderId)
      case None => Reject(s, OrderNotFound)
      case Some(f) =>
        if f.order.state == Canceled then Reject(s, AlreadyCanceled)
        else
          var gatewayOutcome: RouteOutcome<bool> :=
            if f.order.state != WaitingAccept then RouteOutcome(s, [], Success(true))
            else if body.Null? then Reject(s, NullishAccess)
            else
              var reason := Js.Field(body, "cancelReason");
              if !Js.Truthy(reason) || !reason.Str? then Reject(s, ReasonMissing)
              else
                var calls := [CancelPayment(f.order.id, reason.s)];
                match gateway
                case CancelRejected(m) => RouteOutcome(s, calls, Failure(GatewayCancelFailed(m)))
                case CancelSucceeded => RouteOutcome(s, calls, Success(true));
          if gatewayOutcome.reply.Failure? then gatewayOutcome
          else
            var canceled := f.order.(state := Canceled);
            var s' := if f.preOrder then DeletePreOrder(s, f.order.id) else UpdateOrder(s, f.order.id, canceled);
            RouteOutcome(s', gatewayOutcome.calls, Success(true))
  }

  /** In a valid store a successful cancel through the handler keeps the
      store valid; a confirmed order is afterwards found Canceled with its
      cancel record unchanged, a pre-order is gone, and no other order changes. */
  lemma CancelOrderEffect(s: Store, orderId: string, body: Js.Value, gateway: CancelReply, k: string)
    requires Valid(s)
    requires CancelOrder(s, orderId, body, gateway).reply.Success?
    ensures var s' := CancelOrder(s, orderId, body, gateway).store;
      && Valid(s')
      && (orderId in s.pending ==> FindOrder(s', orderId).None?)
      && (orderId in s.confirmed ==>
            FindOrder(s', orderId) == Some(FoundOrder(false, s.confirmed[orderId].(state := Canceled))))
      && (k != orderId ==> FindOrder(s', k) == FindOrder(s, k))
  {
  }
}
