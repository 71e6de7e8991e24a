/**
 * `POST /api/sideshift/create`: the gate in front of the payment
 * aggregator. The four order fields are checked first (400), then the
 * aggregator credentials in the environment (500), and only then is the
 * aggregator asked for an order, which is returned as it comes. A failure
 * of the aggregator call becomes a 500 whose message is taken from the
 * aggregator's response, else from the error, else a default text.
 */
module SideShiftCreate {
  import opened Common

  /** The order fields of the request body; None when absent. */
  datatype OrderBody = OrderBody(
    depositCoin: Option<string>,
    settleCoin: Option<string>,
    settleAddress: Option<string>,
    settleAmount: Option<string>)

  /** The data of an aggregator error response, with the message it may carry. */
  datatype ErrorData = ErrorData(message: Option<string>, raw: string)

  /** The HTTP response attached to a failed aggregator call, if any. */
  datatype ErrorResponse = ErrorResponse(status: Option<int>, data: Option<ErrorData>)

  /** A thrown error: its own message and the aggregator's response, if any. */
  datatype CallError = CallError(message: Option<string>, response: Option<ErrorResponse>)

  /** What one aggregator call gives: an order, or an error. */
  datatype CallResult<O> = Created(order: O) | Threw(error: CallError)

  /** The handler's answers. */
  datatype Reply<O> =
    | Order(order: O)
    | MissingFields
    | CredentialsMissing(hasSecret: bool, hasAffiliateId: bool)
    | Failed(message: string, details: Option<ErrorData>, statusCode: Option<int>)

  const CredentialsText := "SideShift API credentials not configured. Please check environment variables."
  const DefaultFailureText := "Failed to create SideShift order"

  /** The HTTP status of a reply. */
  function Status<O>(r: Reply<O>): (s: int)
    ensures s == 200 <==> r.Order?
    ensures s == 400 <==> r.MissingFields?
  {
    match r
    case Order(_) => 200
    case MissingFields => 400
    case CredentialsMissing(_, _) => 500
    case Failed(_, _, _) => 500
  }

  /** The error text of a reply, as the JSON body carries it. */
  function ErrorText<O>(r: Reply<O>): string
  {
    match r
    case Order(_) => ""
    case MissingFields => MissingFieldsText
    case CredentialsMissing(_, _) => CredentialsText
    case Failed(m, _, _) => m
  }

  predicate HasOrderFields(b: OrderBody)
  {
    StrTruthy(b.depositCoin) && StrTruthy(b.settleCoin) && StrTruthy(b.settleAddress) && StrTruthy(b.settleAmount)
  }

  predicate HasCredentials(env: Env)
  {
    StrTruthy(EnvGet(env, "SIDESHIFT_SECRET")) && StrTruthy(EnvGet(env, "SIDESHIFT_AFFILIATE_ID"))
  }

  /** `error.response?.data?.message`. */
  function ResponseMessage(e: CallError): Option<string>
  {
    if e.response.Some? && e.response.value.data.Some? then e.response.value.data.value.message else None
  }

  /** `response.data.message || error.message || default`. */
  function FailureMessage(e: CallError): (m: string)
    ensures m != ""
  {
    if StrTruthy(ResponseMessage(e)) then ResponseMessage(e).value
    else if StrTruthy(e.message) then e.message.value
    else DefaultFailureText
  }

  /** The 500 reply for a failed aggregator call. */
  function FailureReply<O>(e: CallError): Reply<O>
  {
    Failed(FailureMessage(e),
           if e.response.Some? then e.response.value.data else None,
           if e.response.Some? then e.response.value.status else None)
  }

  /**
   * The reply to one request. `aggregator` stands for the aggregator call
   * with (depositCoin, settleCoin, settleAddress, settleAmount).
   */
  function CreateOrder<O>(b: OrderBody, env: Env, aggregator: (string, string, string, string) -> CallResult<O>): (r: Reply<O>)
    ensures Status(r) == 400 <==> !HasOrderFields(b)
    ensures r.CredentialsMissing? <==> HasOrderFields(b) && !HasCredentials(env)
    ensures r.Order? || r.Failed? ==> HasOrderFields(b) && HasCredentials(env)
  {
    if !HasOrderFields(b) then MissingFields
    else if !HasCredentials(env) then
      CredentialsMissing(StrTruthy(EnvGet(env, "SIDESHIFT_SECRET")), StrTruthy(EnvGet(env, "SIDESHIFT_AFFILIATE_ID")))
    else
      match aggregator(b.depositCoin.value, b.settleCoin.value, b.settleAddress.value, b.settleAmount.value)
      case Created(o) => Order(o)
      case Threw(e) => FailureReply(e)
  }

  /** A missing order field gives 400, whatever the environment holds. */
  lemma MissingFieldsFirst<O>(b: OrderBody, env: Env, aggregator: (string, string, string, string) -> CallResult<O>)
    requires !HasOrderFields(b)
    ensures CreateOrder(b, env, aggregator) == MissingFields
    ensures Status(CreateOrder(b, env, aggregator)) == 400
  {
  }

  /** With all fields but a credential missing, the reply is 500 with the credentials text. */
  lemma CredentialsChecked<O>(b: OrderBody, env: Env, aggregator: (string, string, string, string) -> CallResult<O>)
    requires HasOrderFields(b) && !HasCredentials(env)
    ensures var r := CreateOrder(b, env, aggregator);
      Status(r) == 500 && ErrorText(r) == "SideShift API credentials not configured. Please check environment variables."
  {
  }

  /** The aggregator is consulted only when both checks pass: otherwise the
      reply is the same whatever the aggregator would do. */
  lemma AggregatorOnlyAfterGates<O>(b: OrderBody, env: Env,
                                    a1: (string, string, string, string) -> CallResult<O>,
                                    a2: (string, string, string, string) -> CallResult<O>)
    requires !HasOrderFields(b) || !HasCredentials(env)
    ensures CreateOrder(b, env, a1) == CreateOrder(b, env, a2)
    ensures !CreateOrder(b, env, a1).Order?
  {
  }

  /** When both checks pass, the aggregator's order for the four fields, in
      order, is the reply, unchanged. */
  lemma OrderPassedThrough<O>(b: OrderBody, env: Env, aggregator: (string, string, string, string) -> CallResult<O>, o: O)
    requires HasOrderFields(b) && HasCredentials(env)
    requires aggregator(b.depositCoin.value, b.settleCoin.value, b.settleAddress.value, b.settleAmount.value) == Created(o)
    ensures CreateOrder(b, env, aggregator) == Order(o)
  {
  }

  /** The failure message prefers the aggregator's message, then the error's own. */
  lemma FailureMessageOrder(e: CallError)
    ensures e.response.Some? && e.response.value.data.Some? && StrTruthy(e.response.value.data.value.message) ==>
      FailureMessage(e) == e.response.value.data.value.message.value
    ensures !StrTruthy(ResponseMessage(e)) && StrTruthy(e.message) ==> FailureMessage(e) == e.message.value
    ensures !StrTruthy(ResponseMessage(e)) && !StrTruthy(e.message) ==>
      FailureMessage(e) == "Failed to create SideShift order"
  {
  }

  /** A failed call gives 500 with the aggregator's data and status passed along. */
  lemma FailureReported<O>(b: OrderBody, env: Env, aggregator: (string, string, string, string) -> CallResult<O>, e: CallError)
    requires HasOrderFields(b) && HasCredentials(env)
    requires aggregator(b.depositCoin.value, b.settleCoin.value, b.settleAddress.value, b.settleAmount.value) == Threw(e)
    ensures var r := CreateOrder(b, env, aggregator);
      && Status(r) == 500
      && r == Failed(FailureMessage(e),
                     if e.response.Some? then e.response.value.data else None,
                     if e.response.Some? then e.response.value.status else None)
  {
  }
}
