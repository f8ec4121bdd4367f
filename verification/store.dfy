/** The order store as pure maps: the "pending" collection (pre-orders,
    before payment), the "confirmed" collection, and the date index used for
    range listings. Each operation has the plain map meaning of the
    database call of the same name. */
module Store {
  import opened Wrappers
  import opened OrderTypes

  datatype DateEntry = DateEntry(id: string, time: Timestamp)

  datatype Store = Store(
    pending: map<string, StoreOrder>,
    confirmed: map<string, StoreOrder>,
    dates: seq<DateEntry>)

  /** Every order is stored under its own id, and no id is in both collections. */
  predicate Valid(s: Store) {
    && (forall k :: k in s.pending ==> s.pending[k].id == k)
    && (forall k :: k in s.confirmed ==> s.confirmed[k].id == k)
    && s.pending.Keys !! s.confirmed.Keys
  }

  /** `findOrder`: the confirmed collection first, then the pending one. */
  function FindOrder(s: Store, id: string): (r: Option<FoundOrder>)
    ensures r.None? <==> id !in s.pending && id !in s.confirmed
    ensures r.Some? && r.value.preOrder ==> id in s.pending && id !in s.confirmed && r.value.order == s.pending[id]
    ensures r.Some? && !r.value.preOrder ==> id in s.confirmed && r.value.order == s.confirmed[id]
  {
    if id in s.confirmed then Some(FoundOrder(false, s.confirmed[id]))
    else if id in s.pending then Some(FoundOrder(true, s.pending[id]))
    else None
  }

  /** `getPreOrder`. */
  function GetPreOrder(s: Store, id: string): Option<StoreOrder> {
    if id in s.pending then Some(s.pending[id]) else None
  }

  /** `getOrder`. */
  function GetOrder(s: Store, id: string): Option<StoreOrder> {
    if id in s.confirmed then Some(s.confirmed[id]) else None
  }

  predicate Fresh(s: Store, id: string) {
    id !in s.pending && id !in s.confirmed
  }

  /** `makeAnPreOrder`: stores a new pre-order under a fresh id. */
  function MakeAnPreOrder(s: Store, req: VerifiedRequest, state: OrderState, id: string, date: Timestamp): (r: (Store, StoreOrder))
    requires Fresh(s, id)
    ensures r.1 == MakeOrder(req, id, date, state)
    ensures r.0 == s.(pending := s.pending[id := r.1])
  {
    var o := MakeOrder(req, id, date, state);
    (s.(pending := s.pending[id := o]), o)
  }

  /** `makeAnOrderDate`: indexes an order by its date. */
  function MakeAnOrderDate(s: Store, o: StoreOrder): Store {
    s.(dates := s.dates + [DateEntry(o.id, o.date)])
  }

  /** `updatePreOrder`. */
  function UpdatePreOrder(s: Store, id: string, o: StoreOrder): Store {
    s.(pending := s.pending[id := o])
  }

  /** `updateOrder`. */
  function UpdateOrder(s: Store, id: string, o: StoreOrder): Store {
    s.(confirmed := s.confirmed[id := o])
  }

  /** `promotePreOrderToOrder`: the pending record is removed and the given
      order written to the confirmed collection. */
  function PromotePreOrderToOrder(s: Store, o: StoreOrder): Store {
    s.(pending := s.pending - {o.id}, confirmed := s.confirmed[o.id := o])
  }

  /** `deletePreOrder`. */
  function DeletePreOrder(s: Store, id: string): Store {
    s.(pending := s.pending - {id})
  }

  /** `findOrderRange`: ids indexed with a time in the inclusive range, in index order. */
  function FindOrderRange(s: Store, start: Timestamp, end: Timestamp): (r: seq<string>)
    ensures |r| <= |s.dates|
    ensures forall i :: 0 <= i < |r| ==> exists e :: e in s.dates && e.id == r[i] && start <= e.time <= end
    ensures forall e :: e in s.dates && start <= e.time <= end ==> e.id in r
  {
    InRange(s.dates, start, end)
  }

  function InRange(es: seq<DateEntry>, start: Timestamp, end: Timestamp): (r: seq<string>)
    ensures |r| <= |es|
    ensures forall i :: 0 <= i < |r| ==> exists e :: e in es && e.id == r[i] && start <= e.time <= end
    ensures forall e :: e in es && start <= e.time <= end ==> e.id in r
    ensures (forall e :: e in es ==> !(start <= e.time <= end)) ==> r == []
  {
    if es == [] then []
    else
      var rest := InRange(es[1..], start, end);
      if start <= es[0].time <= end then [es[0].id] + rest else rest
  }

  /** The range query distributes over the index: the ids of the first
      part's entries in range come first, in index order. */
  lemma {:induction false} InRangeAppend(a: seq<DateEntry>, b: seq<DateEntry>, start: Timestamp, end: Timestamp)
    ensures InRange(a + b, start, end) == InRange(a, start, end) + InRange(b, start, end)
  {
    if a != [] {
      var head: seq<string> := if start <= a[0].time <= end then [a[0].id] else [];
      var ab := a + b;
      assert ab[0] == a[0] && ab[1..] == a[1..] + b;
      assert InRange(ab, start, end) == head + InRange(ab[1..], start, end);
      assert InRange(a, start, end) == head + InRange(a[1..], start, end);
      InRangeAppend(a[1..], b, start, end);
      assert head + (InRange(a[1..], start, end) + InRange(b, start, end))
          == (head + InRange(a[1..], start, end)) + InRange(b, start, end);
    } else {
      assert a + b == b;
    }
  }

  /** One index entry yields its id exactly when its time is in range. */
  lemma InRangeSingle(e: DateEntry, start: Timestamp, end: Timestamp)
    ensures InRange([e], start, end) == if start <= e.time <= end then [e.id] else []
  {
    assert [e][1..] == [];
  }

  /** `getOrders`: one lookup per id, null where none is stored. */
  function GetOrders(s: Store, ids: seq<string>): (r: seq<Option<StoreOrder>>)
    ensures |r| == |ids|
    ensures forall i :: 0 <= i < |ids| ==> (r[i].Some? <==> FindOrder(s, ids[i]).Some?)
    ensures forall i :: 0 <= i < |ids| && r[i].Some? ==> r[i].value == FindOrder(s, ids[i]).value.order
  {
    seq(|ids|, i requires 0 <= i < |ids| =>
      match FindOrder(s, ids[i])
      case Some(f) => Some(f.order)
      case None => None)
  }

  /** After a promotion the order is found in the confirmed collection and is
      gone from the pending one; every other id is looked up as before. */
  lemma PromoteThenFind(s: Store, o: StoreOrder, k: string)
    ensures FindOrder(PromotePreOrderToOrder(s, o), o.id) == Some(FoundOrder(false, o))
    ensures o.id !in PromotePreOrderToOrder(s, o).pending
    ensures k != o.id ==> FindOrder(PromotePreOrderToOrder(s, o), k) == FindOrder(s, k)
  {
  }

  /** Promotion keeps the store valid. */
  lemma PromotePreservesValid(s: Store, o: StoreOrder)
    requires Valid(s)
    ensures Valid(PromotePreOrderToOrder(s, o))
  {
  }
}
