/** The errors the order core throws. Each constructor stands for one `throw`
    site (or one family of identical messages) of the TypeScript source. */
module Errors {

  datatype Error =
      // reading a property of `null` or `undefined` (a JavaScript TypeError)
    | NullishAccess
      // commands: cancel / accept / updateStatus
    | InvalidOrderId
    | OrderNotFound
    | ReasonTooLong
    | AlreadyCanceled
    | CancelValidationFailed
    | GuardError(message: string)
    | AlreadyAccepted
    | NotWaitingAccept
      // payment-method and item validation
    | PayMethodMissing
    | PayMethodInvalid
    | ItemsNotObject
    | ItemsNotArray
    | BadItemEntry
    | ZeroQuantity
    | DuplicateItem(id: string)
    | UnknownItem(id: string)
      // HTTP routes
    | BodyIsString
    | ItemsMissing
    | PayWithMissing
    | OrderIdMissing
    | BadPaymentData
    | AmountMismatch
    | NotPayable
    | GatewayError
    | PaymentCanceled
    | PaymentNotCompleted
    | BodyNotObject
    | ReasonMissing
    | GatewayCancelFailed(message: string)
    | EmptyOrder
}
