/** The order commands: lookup, listing, placement, cancellation with an
    optional guard, status update and acceptance. Each command returns the
    new store together with the events it publishes, or the error it throws
    (in which case nothing was written). */
module Orders {
  import opened Wrappers
  import opened Errors
  import opened OrderTypes
  import opened Store
  import Js
  import Uuid

  /** A successful command: the store afterwards and the events published. */
  datatype Step = Step(store: Store, published: seq<Published>)

  /** What the cancel guard (`cancelValidation`) settles to: a returned
      value, or a rejection. */
  datatype GuardReply =
    | ReturnsTrue
    | ReturnsFalse
    | ReturnsError(message: string)  // an `Error` instance, which is truthy
    | ReturnsOtherTruthy
    | ReturnsOtherFalsy
    | Throws(message: string)

  type CancelGuard = (StoreOrder, string) -> GuardReply

  predicate ReplyTruthy(g: GuardReply) {
    g.ReturnsTrue? || g.ReturnsError? || g.ReturnsOtherTruthy?
  }

  /** The longest accepted cancel reason, in UTF-16 code units (2 ** 8). */
  const MaxReasonLength := 256

  /** `get`. */
  function Get(s: Store, id: string): (r: Option<StoreOrder>)
    ensures r.Some? <==> id in s.pending || id in s.confirmed
    ensures r.Some? && id in s.confirmed ==> r.value == s.confirmed[id]
    ensures r.Some? && id !in s.confirmed ==> r.value == s.pending[id]
  {
    match FindOrder(s, id)
    case Some(f) => Some(f.order)
    case None => None
  }

  // ---------------------------------------------------------------------
  // Listing
  // ---------------------------------------------------------------------

  /** Newest first. */
  predicate SortedByDateDesc(os: seq<StoreOrder>) {
    forall i, j :: 0 <= i < j < |os| ==> os[i].date >= os[j].date
  }

  /** Every order of a permutation of `os` plus `o` is no newer than a bound
      that holds for `os` and `o`. */
  lemma PermutationBounded(r: seq<StoreOrder>, os: seq<StoreOrder>, o: StoreOrder, d: Timestamp)
    requires multiset(r) == multiset(os) + multiset{o}
    requires o.date <= d
    requires forall k :: 0 <= k < |os| ==> os[k].date <= d
    ensures forall j :: 0 <= j < |r| ==> r[j].date <= d
  {
    forall j | 0 <= j < |r|
      ensures r[j].date <= d
    {
      assert r[j] in multiset(r);
      if r[j] != o {
        assert r[j] in multiset(os);
        var k :| 0 <= k < |os| && os[k] == r[j];
      }
    }
  }

  lemma SortedCons(x: StoreOrder, rest: seq<StoreOrder>)
    requires SortedByDateDesc(rest)
    requires forall j :: 0 <= j < |rest| ==> rest[j].date <= x.date
    ensures SortedByDateDesc([x] + rest)
  {
    var r := [x] + rest;
    forall i, j | 0 <= i < j < |r|
      ensures r[i].date >= r[j].date
    {
      assert r[j] == rest[j - 1];
      if i > 0 {
        assert r[i] == rest[i - 1];
      }
    }
  }

  /** Places `o` before the first order that is not newer than it. */
  function Insert(o: StoreOrder, sorted: seq<StoreOrder>): (r: seq<StoreOrder>)
    requires SortedByDateDesc(sorted)
    ensures SortedByDateDesc(r)
    ensures multiset(r) == multiset(sorted) + multiset{o}
  {
    if sorted == [] then [o]
    else if sorted[0].date <= o.date then
      SortedCons(o, sorted);
      [o] + sorted
    else
      var tail := sorted[1..];
      assert sorted == [sorted[0]] + tail;
      assert forall k :: 0 <= k < |tail| ==> tail[k] == sorted[k + 1];
      var rest := Insert(o, tail);
      PermutationBounded(rest, tail, o, sorted[0].date);
      SortedCons(sorted[0], rest);
      [sorted[0]] + rest
  }

  /** The comparator sort `(a, b) => b.date - a.date`: newest first. */
  function SortByDateDesc(os: seq<StoreOrder>): (r: seq<StoreOrder>)
    ensures SortedByDateDesc(r)
    ensures multiset(r) == multiset(os)
  {
    if os == [] then []
    else
      assert os == [os[0]] + os[1..];
      Insert(os[0], SortByDateDesc(os[1..]))
  }

  /** `all`: the orders newest first; a missing list stays missing. */
  function All(list: Option<seq<StoreOrder>>): (r: Option<seq<StoreOrder>>)
    ensures r.Some? <==> list.Some?
    ensures r.Some? ==> SortedByDateDesc(r.value) && multiset(r.value) == multiset(list.value)
  {
    match list
    case None => None
    case Some(os) => Some(SortByDateDesc(os))
  }

  /** Drops the null entries of a lookup result (`filter(v => v !== null)`). */
  function PresentOnly(os: seq<Option<StoreOrder>>): (r: seq<StoreOrder>)
    ensures |r| <= |os|
    ensures forall o :: multiset(r)[o] == multiset(os)[Some(o)]
  {
    if os == [] then []
    else
      var rest := PresentOnly(os[1..]);
      assert os == [os[0]] + os[1..];
      if os[0].Some? then [os[0].value] + rest else rest
  }

  /** Dropping nulls distributes over concatenation: the surviving orders
      keep their relative order, as `filter` does. */
  lemma {:induction false} PresentOnlyAppend(a: seq<Option<StoreOrder>>, b: seq<Option<StoreOrder>>)
    ensures PresentOnly(a + b) == PresentOnly(a) + PresentOnly(b)
  {
    if a != [] {
      var head: seq<StoreOrder> := if a[0].Some? then [a[0].value] else [];
      var ab := a + b;
      assert ab[0] == a[0] && ab[1..] == a[1..] + b;
      assert PresentOnly(ab) == head + PresentOnly(ab[1..]);
      assert PresentOnly(a) == head + PresentOnly(a[1..]);
      PresentOnlyAppend(a[1..], b);
      assert head + (PresentOnly(a[1..]) + PresentOnly(b)) == (head + PresentOnly(a[1..])) + PresentOnly(b);
    } else {
      assert a + b == b;
    }
  }

  /** A single entry survives exactly when it is present. */
  lemma PresentOnlySingle(x: Option<StoreOrder>)
    ensures PresentOnly([x]) == if x.Some? then [x.value] else []
  {
    assert [x][1..] == [];
  }

  /** `findByDate`: the stored orders indexed in the range, newest first,
      with the ids that are no longer stored skipped. */
  function FindByDate(s: Store, start: Timestamp, end: Timestamp): (r: seq<StoreOrder>)
    ensures SortedByDateDesc(r)
    ensures forall o :: multiset(r)[o] == multiset(GetOrders(s, FindOrderRange(s, start, end)))[Some(o)]
    ensures (forall e :: e in s.dates ==> !(start <= e.time <= end)) ==> r == []
  {
    SortByDateDesc(PresentOnly(GetOrders(s, FindOrderRange(s, start, end))))
  }

  /** Every listed order is stored under an id the index holds in range. */
  lemma FindByDateListsStoredOrders(s: Store, start: Timestamp, end: Timestamp, o: StoreOrder)
    ensures o in FindByDate(s, start, end) ==>
      exists e :: e in s.dates && start <= e.time <= end && Get(s, e.id) == Some(o)
  {
    if o !in FindByDate(s, start, end) {
      return;
    }
    var ids := FindOrderRange(s, start, end);
    var os := GetOrders(s, ids);
    assert multiset(FindByDate(s, start, end))[o] > 0;
    assert Some(o) in multiset(os);
    var i :| 0 <= i < |os| && os[i] == Some(o);
    assert FindOrder(s, ids[i]).Some? && FindOrder(s, ids[i]).value.order == o;
    var e :| e in s.dates && e.id == ids[i] && start <= e.time <= end;
    assert Get(s, e.id) == Some(o);
  }

  // ---------------------------------------------------------------------
  // Placement
  // ---------------------------------------------------------------------

  /** `place(data, state)`: stores a pre-order in the given state under a
      fresh id, indexes it by date and publishes `placed`. */
  function Place(s: Store, data: VerifiedRequest, state: OrderState, id: string, date: Timestamp): (r: (Step, StoreOrder))
    requires Fresh(s, id)
    ensures RequestOf(r.1) == data && r.1.id == id && r.1.date == date && r.1.state == state && r.1.cancel.None?
    ensures FindOrder(r.0.store, id) == Some(FoundOrder(true, r.1))
    ensures r.0.store.pending == s.pending[id := r.1]
    ensures r.0.store.confirmed == s.confirmed
    ensures r.0.store.dates == s.dates + [DateEntry(id, date)]
    ensures r.0.published == [Published(OnPlaced, OrderEvent(id, r.1))]
  {
    var (s1, order) := MakeAnPreOrder(s, data, state, id, date);
    var s2 := MakeAnOrderDate(s1, order);
    (Step(s2, [Published(OnPlaced, OrderEvent(order.id, order))]), order)
  }

  lemma PlacePreservesValid(s: Store, data: VerifiedRequest, state: OrderState, id: string, date: Timestamp)
    requires Valid(s) && Fresh(s, id)
    ensures Valid(Place(s, data, state, id, date).0.store)
  {
  }

  // ---------------------------------------------------------------------
  // Cancellation
  // ---------------------------------------------------------------------

  /** The canceled copy of an order. */
  function CanceledCopy(o: StoreOrder, reason: string, now: Timestamp): (c: StoreOrder)
    ensures c.state == Canceled && c.cancel == Some(CancelRecord(reason, now))
    ensures c.id == o.id && c.date == o.date && RequestOf(c) == RequestOf(o)
  {
    o.(state := Canceled, cancel := Some(CancelRecord(reason, now)))
  }

  /** Writes a cancellation: a pre-order is deleted, a confirmed order is
      overwritten with its canceled copy. */
  function CommitCancel(s: Store, f: FoundOrder, canceled: StoreOrder): (r: Store)
    ensures f.preOrder ==> r == s.(pending := s.pending - {f.order.id})
    ensures !f.preOrder ==> r == s.(confirmed := s.confirmed[f.order.id := canceled])
  {
    if f.preOrder then DeletePreOrder(s, f.order.id)
    else UpdateOrder(s, f.order.id, canceled)
  }

  /** The checks `cancel` makes before the guard, in order: id shape,
      existence, reason length, already canceled. */
  function CancelChecks(s: Store, id: string, reason: string): (r: Result<FoundOrder, Error>)
    ensures !Uuid.ValidUUID(id) ==> r == Failure(InvalidOrderId)
    ensures Uuid.ValidUUID(id) && FindOrder(s, id).None? ==> r == Failure(OrderNotFound)
    ensures Uuid.ValidUUID(id) && FindOrder(s, id).Some? && Js.Utf16Length(reason) > MaxReasonLength
      ==> r == Failure(ReasonTooLong)
    ensures r.Success? <==>
      && Uuid.ValidUUID(id)
      && FindOrder(s, id).Some?
      && Js.Utf16Length(reason) <= MaxReasonLength
      && FindOrder(s, id).value.order.state != Canceled
    ensures r.Success? ==> r.value == FindOrder(s, id).value
    ensures r.Failure? && Uuid.ValidUUID(id) && FindOrder(s, id).Some? && Js.Utf16Length(reason) <= MaxReasonLength
      ==> r == Failure(AlreadyCanceled)
  {
    if !Uuid.ValidUUID(id) then Failure(InvalidOrderId)
    else match FindOrder(s, id)
      case None => Failure(OrderNotFound)
      case Some(f) =>
        if Js.Utf16Length(reason) > MaxReasonLength then Failure(ReasonTooLong)
        else if f.order.state == Canceled then Failure(AlreadyCanceled)
        else Success(f)
  }

  /** How `cancel` reads the guard's reply: a rejection or an error value is
      rethrown, any other truthy value other than `true` fails, and `true`
      or a falsy value (including `false`) lets the cancellation proceed. */
  function GuardVerdict(g: GuardReply): (r: Option<Error>)
    ensures r.None? <==> g.ReturnsTrue? || !(ReplyTruthy(g) || g.Throws?)
    ensures g.Throws? || g.ReturnsError? ==> r == Some(GuardError(g.message))
    ensures g.ReturnsOtherTruthy? ==> r == Some(CancelValidationFailed)
  {
    match g
    case Throws(m) => Some(GuardError(m))
    case ReturnsError(m) => Some(GuardError(m))
    case ReturnsOtherTruthy => Some(CancelValidationFailed)
    case ReturnsTrue => None
    case ReturnsFalse => None
    case ReturnsOtherFalsy => None
  }

  /** `cancel(id, reason, guard)`. */
  function Cancel(s: Store, id: string, reason: string, guard: Option<CancelGuard>, now: Timestamp): (r: Result<Step, Error>)
    ensures CancelChecks(s, id, reason).Failure? ==> r == Failure(CancelChecks(s, id, reason).error)
    ensures r.Success? <==>
      && CancelChecks(s, id, reason).Success?
      && (guard.Some? ==> GuardVerdict(guard.value(FindOrder(s, id).value.order, reason)).None?)
    ensures CancelChecks(s, id, reason).Success? && guard.Some?
            && GuardVerdict(guard.value(FindOrder(s, id).value.order, reason)).Some?
      ==> r == Failure(GuardVerdict(guard.value(FindOrder(s, id).value.order, reason)).value)
    ensures r.Success? ==>
      var f := FindOrder(s, id).value;
      var c := CanceledCopy(f.order, reason, now);
      && r.value.store == CommitCancel(s, f, c)
      && r.value.published == [Published(OnCanceled, OrderEvent(c.id, c))]
  {
    match CancelChecks(s, id, reason)
    case Failure(e) => Failure(e)
    case Success(f) =>
      var verdict := if guard.Some? then GuardVerdict(guard.value(f.order, reason)) else None;
      if verdict.Some? then Failure(verdict.value)
      else
        var c := CanceledCopy(f.order, reason, now);
        Success(Step(CommitCancel(s, f, c), [Published(OnCanceled, OrderEvent(c.id, c))]))
  }

  /** After a successful cancel of an order in a valid store: a pre-order is
      gone from both collections, a confirmed order is found canceled with
      the given reason, and every other id is looked up as before. */
  lemma CancelEffect(s: Store, id: string, reason: string, guard: Option<CancelGuard>, now: Timestamp, k: string)
    requires Valid(s)
    requires Cancel(s, id, reason, guard, now).Success?
    ensures var s' := Cancel(s, id, reason, guard, now).value.store;
      && Valid(s')
      && (id in s.pending ==> FindOrder(s', id).None?)
      && (id in s.confirmed ==>
            FindOrder(s', id) == Some(FoundOrder(false, CanceledCopy(s.confirmed[id], reason, now))))
      && (k != id ==> FindOrder(s', k) == FindOrder(s, k))
  {
  }

  /** An order that is already canceled can never be canceled again. */
  lemma CancelCanceledFails(s: Store, id: string, reason: string, guard: Option<CancelGuard>, now: Timestamp)
    requires FindOrder(s, id).Some? && FindOrder(s, id).value.order.state == Canceled
    ensures Cancel(s, id, reason, guard, now).Failure?
  {
  }

  /** A second cancel of the same order fails: with "already canceled" for
      a confirmed order, with "not found" for a pre-order, which was deleted. */
  lemma CancelTwiceFails(s: Store, id: string, reason: string, guard: Option<CancelGuard>, now: Timestamp,
                         reason2: string, guard2: Option<CancelGuard>, now2: Timestamp)
    requires Valid(s)
    requires Cancel(s, id, reason, guard, now).Success?
    ensures var s' := Cancel(s, id, reason, guard, now).value.store;
      var again := Cancel(s', id, reason2, guard2, now2);
      && (id in s.confirmed && Js.Utf16Length(reason2) <= MaxReasonLength ==> again == Failure(AlreadyCanceled))
      && (id in s.pending ==> again == Failure(OrderNotFound))
  {
  }

  // ---------------------------------------------------------------------
  // Status update and acceptance
  // ---------------------------------------------------------------------

  /** `updateStatus(id, status)`: the found order with only its state
      replaced, published as `statusUpdate` and written back to the
      collection it was found in. */
  function UpdateStatus(s: Store, id: string, status: OrderState): (r: Result<Step, Error>)
    ensures r.Failure? <==> FindOrder(s, id).None?
    ensures r.Failure? ==> r.error == OrderNotFound
    ensures r.Success? ==>
      var f := FindOrder(s, id).value;
      var updated := f.order.(state := status);
      && r.value.published == [Published(OnStatusUpdate, OrderEvent(f.order.id, updated))]
      && (f.preOrder ==> r.value.store == s.(pending := s.pending[id := updated]))
      && (!f.preOrder ==> r.value.store == s.(confirmed := s.confirmed[id := updated]))
  {
    match FindOrder(s, id)
    case None => Failure(OrderNotFound)
    case Some(f) =>
      var updated := f.order.(state := status);
      var events := [Published(OnStatusUpdate, OrderEvent(f.order.id, updated))];
      if f.preOrder then Success(Step(UpdatePreOrder(s, id, updated), events))
      else Success(Step(UpdateOrder(s, id, updated), events))
  }

  /** A status update keeps the store valid, keeps the order in the same
      collection with every field but the state unchanged, and leaves all
      other ids alone. */
  lemma UpdateStatusOnlyState(s: Store, id: string, status: OrderState, k: string)
    requires Valid(s)
    requires UpdateStatus(s, id, status).Success?
    ensures var s' := UpdateStatus(s, id, status).value.store;
      var before := FindOrder(s, id).value;
      var after := FindOrder(s', id).value;
      && Valid(s')
      && FindOrder(s', id).Some?
      && after.preOrder == before.preOrder
      && after.order.state == status
      && after.order == before.order.(state := status)
      && (k != id ==> FindOrder(s', k) == FindOrder(s, k))
  {
  }

  /** `accept(id)`: only an order waiting for acceptance is accepted; its
      copy in state Done is written to the confirmed collection and
      published as `accepted`. */
  function Accept(s: Store, id: string): (r: Result<Step, Error>)
    ensures FindOrder(s, id).None? ==> r == Failure(OrderNotFound)
    ensures FindOrder(s, id).Some? && FindOrder(s, id).value.order.state == Done ==> r == Failure(AlreadyAccepted)
    ensures FindOrder(s, id).Some? && FindOrder(s, id).value.order.state !in {Done, WaitingAccept}
      ==> r == Failure(NotWaitingAccept)
    ensures r.Success? <==> FindOrder(s, id).Some? && FindOrder(s, id).value.order.state == WaitingAccept
    ensures r.Success? ==>
      var o := FindOrder(s, id).value.order;
      var accepted := o.(state := Done);
      && r.value.store == s.(confirmed := s.confirmed[o.id := accepted])
      && r.value.published == [Published(OnAccepted, OrderEvent(o.id, accepted))]
  {
    match FindOrder(s, id)
    case None => Failure(OrderNotFound)
    case Some(f) =>
      if f.order.state == Done then Failure(AlreadyAccepted)
      else if f.order.state != WaitingAccept then Failure(NotWaitingAccept)
      else
        var accepted := f.order.(state := Done);
        Success(Step(UpdateOrder(s, f.order.id, accepted), [Published(OnAccepted, OrderEvent(f.order.id, accepted))]))
  }

  /** Accepting twice fails the second time with "already accepted". */
  lemma AcceptTwiceFails(s: Store, id: string)
    requires Valid(s)
    requires Accept(s, id).Success?
    ensures Accept(Accept(s, id).value.store, id) == Failure(AlreadyAccepted)
  {
  }

  /** Acceptance keeps the store valid exactly when the order was confirmed:
      an order accepted while still in the pending collection ends up in
      both collections. */
  lemma AcceptKeepsOneCollection(s: Store, id: string)
    requires Valid(s)
    requires Accept(s, id).Success?
    ensures Valid(Accept(s, id).value.store) <==> id !in s.pending
    ensures FindOrder(Accept(s, id).value.store, id).value.order.state == Done
  {
    var s' := Accept(s, id).value.store;
    if id in s.pending {
      assert id in s'.pending && id in s'.confirmed;
    }
  }
}
