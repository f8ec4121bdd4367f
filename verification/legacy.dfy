/** The older `cancel` command. It makes the same checks as the current one
    and writes the same way, but reads the guard differently (any falsy
    reply aborts, any truthy one proceeds) and publishes no event. */
module LegacyOrder {
  import opened Wrappers
  import opened Errors
  import opened OrderTypes
  import opened Store
  import Js
  import Uuid
  import Orders

  /** How the older `cancel` reads the guard: a rejection is rethrown, a
      falsy reply fails validation, a truthy one (an `Error` value included)
      lets the cancellation proceed. */
  function LegacyGuardVerdict(g: Orders.GuardReply): (r: Option<Error>)
    ensures r.None? <==> Orders.ReplyTruthy(g)
    ensures g.Throws? ==> r == Some(GuardError(g.message))
    ensures !Orders.ReplyTruthy(g) && !g.Throws? ==> r == Some(CancelValidationFailed)
  {
    match g
    case Throws(m) => Some(GuardError(m))
    case ReturnsFalse => Some(CancelValidationFailed)
    case ReturnsOtherFalsy => Some(CancelValidationFailed)
    case ReturnsTrue => None
    case ReturnsError(_) => None
    case ReturnsOtherTruthy => None
  }

  /** `cancel(id, reason, guard)` of the older command module. */
  function Cancel(s: Store, id: string, reason: string, guard: Option<Orders.CancelGuard>, now: Timestamp): (r: Result<Store, Error>)
    ensures !Uuid.ValidUUID(id) ==> r == Failure(InvalidOrderId)
    ensures Uuid.ValidUUID(id) && FindOrder(s, id).None? ==> r == Failure(OrderNotFound)
    ensures Uuid.ValidUUID(id) && FindOrder(s, id).Some? && Js.Utf16Length(reason) > Orders.MaxReasonLength
      ==> r == Failure(ReasonTooLong)
    ensures Uuid.ValidUUID(id) && FindOrder(s, id).Some? && Js.Utf16Length(reason) <= Orders.MaxReasonLength
            && FindOrder(s, id).value.order.state == Canceled
      ==> r == Failure(AlreadyCanceled)
    ensures r.Success? <==>
      && Orders.CancelChecks(s, id, reason).Success?
      && (guard.Some? ==> Orders.ReplyTruthy(guard.value(FindOrder(s, id).value.order, reason)))
    ensures Orders.CancelChecks(s, id, reason).Success? && guard.Some?
            && LegacyGuardVerdict(guard.value(FindOrder(s, id).value.order, reason)).Some?
      ==> r == Failure(LegacyGuardVerdict(guard.value(FindOrder(s, id).value.order, reason)).value)
    ensures r.Success? ==>
      var f := FindOrder(s, id).value;
      r.value == Orders.CommitCancel(s, f, Orders.CanceledCopy(f.order, reason, now))
  {
    match Orders.CancelChecks(s, id, reason)
    case Failure(e) => Failure(e)
    case Success(f) =>
      var verdict := if guard.Some? then LegacyGuardVerdict(guard.value(f.order, reason)) else None;
      if verdict.Some? then Failure(verdict.value)
      else Success(Orders.CommitCancel(s, f, Orders.CanceledCopy(f.order, reason, now)))
  }

  /** The two commands differ only in how they read the guard: a guard
      answering `false` aborts the older command but not the current one,
      and a guard answering with an `Error` value aborts the current command
      but not the older one. Without a guard they agree. */
  lemma GuardSemanticsDiffer(s: Store, id: string, reason: string, now: Timestamp)
    requires Orders.CancelChecks(s, id, reason).Success?
    ensures var no: Orders.CancelGuard := (o, r) => Orders.ReturnsFalse;
      Cancel(s, id, reason, Some(no), now) == Failure(CancelValidationFailed)
      && Orders.Cancel(s, id, reason, Some(no), now).Success?
    ensures var err: Orders.CancelGuard := (o, r) => Orders.ReturnsError("refund failed");
      Cancel(s, id, reason, Some(err), now).Success?
      && Orders.Cancel(s, id, reason, Some(err), now) == Failure(GuardError("refund failed"))
    ensures Cancel(s, id, reason, None, now).Success?
      && Cancel(s, id, reason, None, now).value == Orders.Cancel(s, id, reason, None, now).value.store
  {
  }
}
