/** The payment gateway (Chapa) as the core sees it: the initialisation
    request it sends and the answers it can get back. The gateway itself is
    not modelled; every operation that talks to it takes it as a function
    parameter. */
module Gateway {

  /** The gateway's `status` field: `success` or anything else. */
  datatype Verdict = Success | Failure

  /** The body of `initializePayment`. The callback and return URLs come from
      configuration and are not part of the model. */
  datatype InitRequest = InitRequest(
    amount: real,
    currency: string,
    email: string,
    firstName: string,
    lastName: string,
    txRef: string,
    description: string)

  /** An answer to `initializePayment`, or the exception it raised. */
  datatype InitAnswer =
    | Answered(verdict: Verdict, checkoutUrl: string, raw: string)
    | Threw(error: string)

  /** An answer to `verifyTransaction`, or the exception it raised. */
  datatype VerifyAnswer =
    | Verified(verdict: Verdict, raw: string)
    | VerifyThrew(error: string)
}
