/** The order entities: state and payment-method codes, catalog items, the
    verified order request, stored orders, cancel records, lookup results and
    order events. */
module OrderTypes {
  import opened Wrappers

  /** An order's lifecycle state; `StateCode` gives its numeric code. */
  datatype OrderState =
    | Expired
    | Aborted
    | Canceled
    | Failed
    | Done
    | WaitingPayment
    | WaitingAccept

  function StateCode(s: OrderState): int {
    match s
    case Expired => -400
    case Aborted => -300
    case Canceled => -200
    case Failed => -100
    case Done => 0
    case WaitingPayment => 100
    case WaitingAccept => 200
  }

  /** The states that report an error. */
  predicate IsErrorState(s: OrderState) {
    s.Expired? || s.Aborted? || s.Canceled? || s.Failed?
  }

  function StateOfCode(c: int): (r: Option<OrderState>)
    ensures r.Some? ==> StateCode(r.value) == c
  {
    if c == -400 then Some(Expired)
    else if c == -300 then Some(Aborted)
    else if c == -200 then Some(Canceled)
    else if c == -100 then Some(Failed)
    else if c == 0 then Some(Done)
    else if c == 100 then Some(WaitingPayment)
    else if c == 200 then Some(WaitingAccept)
    else None
  }

  /** Each state has its own code, and the code identifies the state. */
  lemma StateCodeRoundTrip(s: OrderState)
    ensures StateOfCode(StateCode(s)) == Some(s)
  {
  }

  lemma StateCodesDistinct(s: OrderState, t: OrderState)
    requires StateCode(s) == StateCode(t)
    ensures s == t
  {
    StateCodeRoundTrip(s);
    StateCodeRoundTrip(t);
  }

  /** Error states have negative codes; the others are non-negative. */
  lemma ErrorStatesNegative(s: OrderState)
    ensures IsErrorState(s) <==> StateCode(s) < 0
  {
  }

  datatype PaymentMethod = Card | Toss | Mobile | VirtualAccount | Direct

  function MethodCode(m: PaymentMethod): int {
    match m
    case Card => 100
    case Toss => 150
    case Mobile => 200
    case VirtualAccount => 300
    case Direct => 1000
  }

  function MethodOfCode(c: int): (r: Option<PaymentMethod>)
    ensures r.Some? ==> MethodCode(r.value) == c
  {
    if c == 100 then Some(Card)
    else if c == 150 then Some(Toss)
    else if c == 200 then Some(Mobile)
    else if c == 300 then Some(VirtualAccount)
    else if c == 1000 then Some(Direct)
    else None
  }

  lemma MethodCodeRoundTrip(m: PaymentMethod)
    ensures MethodOfCode(MethodCode(m)) == Some(m)
  {
  }

  lemma MethodCodesDistinct(m: PaymentMethod, n: PaymentMethod)
    requires MethodCode(m) == MethodCode(n)
    ensures m == n
  {
    MethodCodeRoundTrip(m);
    MethodCodeRoundTrip(n);
  }

  /** A value of a catalog item's `options` record. */
  datatype OptionValue = OptText(text: string) | OptNumber(num: int)

  /** A catalog (menu) item, as stored. */
  datatype StoreItem = StoreItem(
    id: string,
    name: string,
    description: Option<string>,
    image: Option<string>,
    discount: Option<int>,
    price: int,
    options: Option<map<string, OptionValue>>)

  /** A copy of a catalog item together with the ordered quantity. */
  datatype ItemWithAmount = ItemWithAmount(item: StoreItem, amount: int)

  /** Milliseconds since the epoch; the ISO text of a date is not modelled. */
  type Timestamp = int

  /** An order request whose items were resolved against the catalog. */
  datatype VerifiedRequest = VerifiedRequest(price: int, payWith: PaymentMethod, items: seq<ItemWithAmount>)

  datatype CancelRecord = CancelRecord(reason: string, date: Timestamp)

  datatype StoreOrder = StoreOrder(
    id: string,
    date: Timestamp,
    price: int,
    payWith: PaymentMethod,
    items: seq<ItemWithAmount>,
    state: OrderState,
    cancel: Option<CancelRecord>)

  /** The request part of a stored order. */
  function RequestOf(o: StoreOrder): VerifiedRequest {
    VerifiedRequest(o.price, o.payWith, o.items)
  }

  /** A new order: the request spread into a record with an id, a date and a
      state, and no cancel record. */
  function MakeOrder(req: VerifiedRequest, id: string, date: Timestamp, state: OrderState): (o: StoreOrder)
    ensures o.cancel.None?
  {
    StoreOrder(id, date, req.price, req.payWith, req.items, state, None)
  }

  /** A stored order is exactly a verified request plus id, date, state and
      an optional cancel record. */
  lemma OrderIsRequestPlus(o: StoreOrder, req: VerifiedRequest, id: string, date: Timestamp, state: OrderState)
    ensures RequestOf(MakeOrder(req, id, date, state)) == req
    ensures o == MakeOrder(RequestOf(o), o.id, o.date, o.state).(cancel := o.cancel)
  {
  }

  /** The result of looking an order up: which collection it came from. */
  datatype FoundOrder = FoundOrder(preOrder: bool, order: StoreOrder)

  /** The names under which order events are published. */
  datatype EventName = OnAccepted | OnCanceled | OnPlaced | OnPayments | OnStatusUpdate

  /** An order event; its `type` field is always 'STATUS_UPDATE'. */
  datatype OrderEvent = OrderEvent(id: string, order: StoreOrder)

  datatype Published = Published(name: EventName, event: OrderEvent)

  /** The catalog, keyed by item id. */
  type Catalog = map<string, StoreItem>

  /** Every catalog entry carries its own key as its id. */
  predicate WellFormedCatalog(catalog: Catalog) {
    forall k :: k in catalog ==> catalog[k].id == k
  }
}
