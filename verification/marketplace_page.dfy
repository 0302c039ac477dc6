/** The logic inside the marketplace page's interaction modal
    (src/app/marketplace/page.tsx): the default request body when the modal
    opens, and, when an API is called, the proxy URL, the request body
    decision and the classification of the response. React state updates
    become the fields of a returned outcome; the network call is a function
    parameter. */
module MarketplacePage {
  import opened Wrappers
  import opened Text
  import Json
  import MarketplaceAdd

  /** An entry as the page receives it from the listing. */
  type Entry = MarketplaceAdd.PublicEntry

  /** The methods for which the page sends a body (compared case-sensitively). */
  predicate SendsBody(httpMethod: string) {
    httpMethod == "POST" || httpMethod == "PUT" || httpMethod == "PATCH"
  }

  // ----- opening the modal -----

  /** `api.parametersSchema?.body` when it is truthy. */
  function SchemaBody(api: Entry): (r: Option<Json.Json>)
    ensures r.Some? <==> Json.Member(api.parametersSchema, "body").Some?
                         && Json.Truthy(Json.Member(api.parametersSchema, "body").value)
    ensures r.Some? ==> Some(r.value) == Json.Member(api.parametersSchema, "body")
  {
    match Json.Member(api.parametersSchema, "body")
    case Some(b) => if Json.Truthy(b) then Some(b) else None
    case None => None
  }

  const EmptyBodyText: string := "{}"

  /** The body text the modal starts with; `stringify` is
      `JSON.stringify(_, null, 2)`. */
  function InitialRequestBody(api: Entry, stringify: Json.Json -> string): (r: string)
    ensures SendsBody(api.httpMethod) && SchemaBody(api).Some? ==> r == stringify(SchemaBody(api).value)
    ensures !SendsBody(api.httpMethod) || SchemaBody(api).None? ==> r == EmptyBodyText
  {
    if SendsBody(api.httpMethod) && SchemaBody(api).Some? then stringify(SchemaBody(api).value)
    else EmptyBodyText
  }

  // ----- building the request -----

  predicate IsQuerySeparator(c: char) {
    c == '?' || c == '&'
  }

  /** `q.replace(/^[?&]/, '')`: at most one leading separator goes. */
  function StripLeadingSeparator(q: string): (r: string)
    ensures q == [] || !IsQuerySeparator(q[0]) ==> r == q
    ensures q != [] && IsQuerySeparator(q[0]) ==> q == [q[0]] + r
  {
    if q != [] && IsQuerySeparator(q[0]) then q[1..] else q
  }

  /** The URL the call goes to: the proxy path, and when a query string is
      given, '&' if the path already has a '?', else '?', then the query
      without its leading separator. */
  function TargetProxyUrl(wrapped: string, query: string): (r: string)
    ensures query == "" ==> r == wrapped
    ensures query != "" ==> && |r| > |wrapped| && r[..|wrapped|] == wrapped
                            && r[|wrapped|] == (if '?' in wrapped then '&' else '?')
                            && r[|wrapped| + 1..] == StripLeadingSeparator(query)
    ensures query != "" ==> '?' in r
  {
    if query == "" then wrapped
    else
      var separator := if '?' in wrapped then '&' else '?';
      var r := wrapped + [separator] + StripLeadingSeparator(query);
      assert r[|wrapped|] == separator;
      r
  }

  /** The request handed to the payment-aware HTTP client. */
  datatype HttpRequest = HttpRequest(url: string, httpMethod: string, body: Option<string>, headers: map<string, string>)

  const ContentTypeHeader: string := "Content-Type"
  const JsonMediaType: string := "application/json"
  const InvalidBodyMessage: string := "Request body is not valid JSON."

  /** The `interactionResult` shown in the modal. `error` holds whatever value
      the page put there (for the payment path, a field of the response). */
  datatype InteractionResult = InteractionResult(
    data: Option<Json.Json>,
    error: Option<Json.Json>,
    status: Option<int>,
    statusText: Option<string>,
    isError: bool
  )

  const InvalidBodyResult: InteractionResult :=
    InteractionResult(None, Some(Json.JStr(InvalidBodyMessage)), Some(400), None, true)

  /** Lines 122-158 up to the network call: a body-carrying method needs body
      text that parses, and then sends it verbatim as JSON; other methods send
      neither body nor Content-Type. The method is sent lower-cased. */
  function PrepareRequest(api: Entry, query: string, bodyText: string, parse: Json.Parser)
    : (r: Result<HttpRequest, InteractionResult>)
    ensures r.Failure? <==> SendsBody(api.httpMethod) && parse(bodyText).None?
    ensures r.Failure? ==> r.error == InvalidBodyResult
    ensures r.Success? ==> && r.value.url == TargetProxyUrl(api.x402WrappedUrl, query)
                           && r.value.httpMethod == LowerAscii(api.httpMethod)
                           && (r.value.body.Some? <==> SendsBody(api.httpMethod))
    ensures r.Success? && r.value.body.Some?
            ==> r.value.body.value == bodyText && r.value.headers == map[ContentTypeHeader := JsonMediaType]
    ensures r.Success? && r.value.body.None? ==> r.value.headers == map[]
  {
    var url := TargetProxyUrl(api.x402WrappedUrl, query);
    var verb := LowerAscii(api.httpMethod);
    if SendsBody(api.httpMethod) then
      if parse(bodyText).None? then Failure(InvalidBodyResult)
      else Success(HttpRequest(url, verb, Some(bodyText), map[ContentTypeHeader := JsonMediaType]))
    else Success(HttpRequest(url, verb, None, map[]))
  }

  /** The body the modal starts with is always accepted, provided `parse`
      reads back what `stringify` writes and accepts "{}". */
  lemma InitialBodyIsSendable(api: Entry, query: string, stringify: Json.Json -> string, parse: Json.Parser)
    requires forall j :: parse(stringify(j)) == Some(j)
    requires parse(EmptyBodyText) == Some(Json.EmptyObject)
    ensures PrepareRequest(api, query, InitialRequestBody(api, stringify), parse).Success?
  {
    if SendsBody(api.httpMethod) && SchemaBody(api).Some? {
      assert parse(stringify(SchemaBody(api).value)) == Some(SchemaBody(api).value);
    }
  }

  // ----- classifying the response -----

  const DefaultPaymentError: string := "Payment is required."
  const PaymentAdvice: string := " Please check your wallet balance and fund if necessary. Go to /wallet."
  const ApiErrorPrefix: string := "API Error: "
  const FetchFailed: string := "Failed to fetch"
  const CostPrefix: string := "Successfully called API. Cost: "
  const CostSuffix: string := ". Your wallet balance has been updated."
  const UnknownNetworkError: string := "An unknown network error occurred."

  predicate IsSuccess(status: int) {
    200 <= status < 300
  }

  predicate IsPaymentStatus(status: int) {
    status == 401 || status == 402
  }

  /** The reason shown on the payment path: a truthy `error` member of an
      object body, else a string body itself, else the default text.
      `None` stands for an undefined body. */
  function PaymentError(data: Option<Json.Json>): (r: Json.Json)
    ensures data.Some? && Json.Member(data.value, "error").Some?
            && Json.Truthy(Json.Member(data.value, "error").value)
            ==> Some(r) == Json.Member(data.value, "error")
    ensures data.Some? && data.value.JStr? ==> r == data.value
    ensures r == Json.JStr(DefaultPaymentError)
        <== data.None? || (!data.value.JStr? && (Json.Member(data.value, "error").None?
                                                || !Json.Truthy(Json.Member(data.value, "error").value)))
  {
    match data
    case Some(j) =>
      if Json.IsObjectType(j) && Json.Member(j, "error").Some? && Json.Truthy(Json.Member(j, "error").value) then
        Json.Member(j, "error").value
      else if j.JStr? then j
      else Json.JStr(DefaultPaymentError)
    case None => Json.JStr(DefaultPaymentError)
  }

  function UnitWord(price: int): string {
    if price == 1 then "unit" else "units"
  }

  /** The message after a successful paid call. */
  function CostMessage(price: int): string {
    CostPrefix + IntToString(price) + " " + UnitWord(price) + CostSuffix
  }

  /** What the page shows: the interaction result and the payment message. */
  datatype Outcome = Outcome(result: InteractionResult, paymentMessage: Option<string>)

  /** Lines 171-211: a status in [200, 300) is a success, with a cost message
      only for a priced API; 401 and 402 are payment failures with advice;
      anything else is a generic API error. */
  function ClassifyResponse(status: int, statusText: string, data: Option<Json.Json>, price: int): (r: Outcome)
    ensures r.result.isError <==> !IsSuccess(status)
    ensures r.result.data == data && r.result.status == Some(status) && r.result.statusText == Some(statusText)
    ensures r.result.error.None? <==> IsSuccess(status)
    ensures r.paymentMessage.Some? <==> (IsSuccess(status) && price > 0) || IsPaymentStatus(status)
    ensures IsSuccess(status) && price > 0 ==> r.paymentMessage == Some(CostMessage(price))
    ensures IsPaymentStatus(status)
            ==> && r.result.error == Some(PaymentError(data))
                && r.paymentMessage == Some(Json.Display(PaymentError(data)) + PaymentAdvice)
    ensures !IsSuccess(status) && !IsPaymentStatus(status)
            ==> r.result.error == Some(Json.JStr(ApiErrorPrefix + (if statusText != "" then statusText else FetchFailed)))
  {
    if IsSuccess(status) then
      Outcome(InteractionResult(data, None, Some(status), Some(statusText), false),
              if price > 0 then Some(CostMessage(price)) else None)
    else if IsPaymentStatus(status) then
      var reason := PaymentError(data);
      Outcome(InteractionResult(data, Some(reason), Some(status), Some(statusText), true),
              Some(Json.Display(reason) + PaymentAdvice))
    else
      var text := if statusText != "" then statusText else FetchFailed;
      Outcome(InteractionResult(data, Some(Json.JStr(ApiErrorPrefix + text)), Some(status), Some(statusText), true),
              None)
  }

  /** The cost message names the price in decimal digits that read back as
      the price, followed by "unit" exactly when the price is 1. */
  lemma {:induction false} CostMessageStatesPrice(price: int)
    requires price > 0
    ensures exists digits: string, word: string ::
              && CostMessage(price) == CostPrefix + digits + " " + word + CostSuffix
              && |digits| > 0 && (forall i :: 0 <= i < |digits| ==> IsDigit(digits[i]))
              && (|digits| > 1 ==> digits[0] != '0')
              && DecimalValue(digits) == price
              && (word == "unit" <==> price == 1)
  {
    NatToStringRoundTrip(price);
    var digits := NatToString(price);
    var word := UnitWord(price);
    assert CostMessage(price) == CostPrefix + digits + " " + word + CostSuffix;
  }

  // ----- the whole call -----

  /** What the HTTP client gives back: a response, or a thrown error with its
      `message` when it is an `Error`. */
  datatype Transport =
    | Responded(status: int, statusText: string, data: Option<Json.Json>)
    | Threw(message: Option<string>)

  /** The request that went out (if any) and what the page shows. */
  datatype CallOutcome = CallOutcome(sent: Option<HttpRequest>, outcome: Outcome)

  /** `handleApiCall` for the selected API: `query` and `bodyText` are the
      modal's inputs, `parse` is `JSON.parse`, `send` is the network call. */
  function HandleApiCall(api: Entry, query: string, bodyText: string, parse: Json.Parser,
                         send: HttpRequest -> Transport): (r: CallOutcome)
    ensures r.sent.None? <==> SendsBody(api.httpMethod) && parse(bodyText).None?
    ensures r.sent.None? ==> r.outcome == Outcome(InvalidBodyResult, None)
    ensures r.sent.Some? ==> && r.sent.value.url == TargetProxyUrl(api.x402WrappedUrl, query)
                             && r.sent.value.httpMethod == LowerAscii(api.httpMethod)
                             && (r.sent.value.body.Some? <==> SendsBody(api.httpMethod))
    ensures r.sent.Some? && r.sent.value.body.Some?
            ==> && r.sent.value.body.value == bodyText
                && r.sent.value.headers == map[ContentTypeHeader := JsonMediaType]
    ensures r.sent.Some? && r.sent.value.body.None? ==> r.sent.value.headers == map[]
    ensures r.sent.Some? && send(r.sent.value).Responded?
            ==> var t := send(r.sent.value);
                r.outcome == ClassifyResponse(t.status, t.statusText, t.data, api.pricePerCall)
    ensures r.sent.Some? && send(r.sent.value).Threw?
            ==> && r.outcome.paymentMessage.None? && r.outcome.result.isError
                && r.outcome.result.error
                   == Some(Json.JStr(send(r.sent.value).message.GetOr(UnknownNetworkError)))
                && r.outcome.result.data.None? && r.outcome.result.status.None?
                && r.outcome.result.statusText.None?
  {
    match PrepareRequest(api, query, bodyText, parse)
    case Failure(invalid) => CallOutcome(None, Outcome(invalid, None))
    case Success(request) =>
      var outcome := match send(request)
        case Responded(status, statusText, data) => ClassifyResponse(status, statusText, data, api.pricePerCall)
        case Threw(message) =>
          Outcome(InteractionResult(None, Some(Json.JStr(message.GetOr(UnknownNetworkError))), None, None, true), None);
      CallOutcome(Some(request), outcome)
  }

  /** A free API never shows a payment message after a successful call, and a
      priced one always does. */
  lemma PaymentMessageOnlyForPricedSuccess(api: Entry, query: string, bodyText: string, parse: Json.Parser,
                                           send: HttpRequest -> Transport)
    requires HandleApiCall(api, query, bodyText, parse, send).sent.Some?
    requires send(HandleApiCall(api, query, bodyText, parse, send).sent.value).Responded?
    requires IsSuccess(send(HandleApiCall(api, query, bodyText, parse, send).sent.value).status)
    ensures HandleApiCall(api, query, bodyText, parse, send).outcome.paymentMessage.Some?
        <==> api.pricePerCall > 0
  {
  }
}
