/** The registration route (src/app/api/marketplace/add/route.ts): `POST`
    validates a submitted API through an ordered ladder of checks, builds the
    entry with its defaults and proxy URL, appends it to the registry and
    answers with the entry minus its upstream secret; `GET` lists the
    registry, redacted the same way. Route handlers are state transitions that
    take the registry and return the new one. */
module MarketplaceAdd {
  import opened Wrappers
  import opened Text
  import Json
  import Slug
  import opened MarketplaceStore

  /** The fields destructured from the request's JSON body; `None` stands for
      a field that is absent (`undefined`) or `null`. */
  datatype AddRequest = AddRequest(
    name: Option<string>,
    description: Option<string>,
    endpointUrl: Option<string>,
    httpMethod: Option<string>,
    parametersSchema: Option<string>,
    pricePerCall: Option<int>,
    creatorWalletAddress: Option<string>,
    authType: Option<string>,
    apiKeyName: Option<string>,
    apiKeySecret: Option<string>,
    paymentNetwork: Option<string>,
    paymentCurrencySymbol: Option<string>
  )

  const ProxyPrefix: string := "/api/x402-proxy/"
  const NoAuth: string := "NONE"
  const DefaultNetwork: string := "base-sepolia"
  const DefaultCurrency: string := "ETH"
  const AddedMessage: string := "API added to marketplace successfully"

  /** The four ways the ladder rejects a request, in the order they are tried. */
  datatype Rejection = MissingFieldsOrPrice | MissingPayoutAddress | MissingCredentials | InvalidSchema

  function RejectionMessage(r: Rejection): string {
    match r
    case MissingFieldsOrPrice => "Missing required fields or invalid price."
    case MissingPayoutAddress => "creatorWalletAddress is required for paid APIs."
    case MissingCredentials => "apiKeyName and apiKeySecret are required when authType is not NONE."
    case InvalidSchema => "Invalid parametersSchema JSON format."
  }

  /** Name, endpoint and method are present and non-empty, and a price is
      given that is not negative. */
  predicate HasRequiredFields(req: AddRequest) {
    && Truthy(req.name) && Truthy(req.endpointUrl) && Truthy(req.httpMethod)
    && req.pricePerCall.Some? && req.pricePerCall.value >= 0
  }

  predicate IsPaid(req: AddRequest) {
    req.pricePerCall.Some? && req.pricePerCall.value > 0
  }

  /** A payout address with at least one non-whitespace character. */
  predicate HasPayoutAddress(req: AddRequest) {
    Truthy(req.creatorWalletAddress) && !IsBlank(req.creatorWalletAddress.value)
  }

  /** `authType || 'NONE'`. */
  function FinalAuthType(req: AddRequest): string {
    if Truthy(req.authType) then req.authType.value else NoAuth
  }

  predicate HasCredentials(req: AddRequest) {
    Truthy(req.apiKeyName) && Truthy(req.apiKeySecret)
  }

  /** Schema text with at least one non-whitespace character; anything else
      stands for the empty object. */
  predicate SchemaGiven(req: AddRequest) {
    Truthy(req.parametersSchema) && !IsBlank(req.parametersSchema.value)
  }

  /** Every check of the ladder passes, whatever the order. */
  predicate Acceptable(req: AddRequest, parse: Json.Parser) {
    && HasRequiredFields(req)
    && (IsPaid(req) ==> HasPayoutAddress(req))
    && (FinalAuthType(req) != NoAuth ==> HasCredentials(req))
    && (SchemaGiven(req) ==> parse(req.parametersSchema.value).Some?)
  }

  /** The validation ladder of lines 29-53, written with `trim` as the route
      does. Succeeds with the parsed parameter schema. */
  function CheckRequest(req: AddRequest, parse: Json.Parser): (r: Result<Json.Json, Rejection>)
    ensures !HasRequiredFields(req) ==> r == Failure(MissingFieldsOrPrice)
    ensures HasRequiredFields(req) && IsPaid(req) && !HasPayoutAddress(req)
            ==> r == Failure(MissingPayoutAddress)
    ensures HasRequiredFields(req) && (IsPaid(req) ==> HasPayoutAddress(req))
            && FinalAuthType(req) != NoAuth && !HasCredentials(req)
            ==> r == Failure(MissingCredentials)
    ensures HasRequiredFields(req) && (IsPaid(req) ==> HasPayoutAddress(req))
            && (FinalAuthType(req) != NoAuth ==> HasCredentials(req))
            && SchemaGiven(req) && parse(req.parametersSchema.value).None?
            ==> r == Failure(InvalidSchema)
    ensures r.Success? <==> Acceptable(req, parse)
    ensures r.Success? && SchemaGiven(req) ==> Some(r.value) == parse(req.parametersSchema.value)
    ensures r.Success? && !SchemaGiven(req) ==> r.value == Json.EmptyObject
  {
    TrimEmptyIffBlank(req.creatorWalletAddress.GetOr(""));
    TrimEmptyIffBlank(req.parametersSchema.GetOr(""));
    if || !Truthy(req.name) || !Truthy(req.endpointUrl) || !Truthy(req.httpMethod)
       || req.pricePerCall.None? || req.pricePerCall.value < 0
    then Failure(MissingFieldsOrPrice)
    else if req.pricePerCall.value > 0
            && (!Truthy(req.creatorWalletAddress) || Trim(req.creatorWalletAddress.value) == "")
    then Failure(MissingPayoutAddress)
    else if FinalAuthType(req) != NoAuth && (!Truthy(req.apiKeyName) || !Truthy(req.apiKeySecret))
    then Failure(MissingCredentials)
    else if Truthy(req.parametersSchema) && Trim(req.parametersSchema.value) != "" then
      match parse(req.parametersSchema.value)
      case None => Failure(InvalidSchema)
      case Some(schema) => Success(schema)
    else Success(Json.EmptyObject)
  }

  /** The stored entry for an accepted request (lines 55-74). */
  function BuildEntry(req: AddRequest, schema: Json.Json, id: string, now: string): (e: ApiEntry)
    requires HasRequiredFields(req)
    ensures e.id == id && e.createdAt == now
    ensures Some(e.name) == req.name && e.description == req.description
    ensures Some(e.endpointUrl) == req.endpointUrl && Some(e.httpMethod) == req.httpMethod
    ensures e.parametersSchema == schema && Some(e.pricePerCall) == req.pricePerCall
    ensures e.creatorWalletAddress == req.creatorWalletAddress.GetOr("")
    ensures e.authType == FinalAuthType(req)
    ensures e.authType == NoAuth ==> e.apiKeyName.None? && e.apiKeySecret.None?
    ensures e.authType != NoAuth ==> e.apiKeyName == req.apiKeyName && e.apiKeySecret == req.apiKeySecret
    ensures e.paymentNetwork == (if Truthy(req.paymentNetwork) then req.paymentNetwork.value else DefaultNetwork)
    ensures e.paymentCurrencySymbol
         == (if Truthy(req.paymentCurrencySymbol) then req.paymentCurrencySymbol.value else DefaultCurrency)
    ensures e.x402WrappedUrl == ProxyPrefix + Slug.Normalize(e.name)
    ensures Slug.IsSlug(e.x402WrappedUrl[|ProxyPrefix|..])
  {
    var auth := FinalAuthType(req);
    var url := ProxyPrefix + Slug.Normalize(req.name.value);
    assert url[|ProxyPrefix|..] == Slug.Normalize(req.name.value);
    ApiEntry(
      id := id,
      name := req.name.value,
      description := req.description,
      endpointUrl := req.endpointUrl.value,
      httpMethod := req.httpMethod.value,
      parametersSchema := schema,
      pricePerCall := req.pricePerCall.value,
      creatorWalletAddress := req.creatorWalletAddress.GetOr(""),
      authType := auth,
      apiKeyName := if auth == NoAuth then None else req.apiKeyName,
      apiKeySecret := if auth == NoAuth then None else req.apiKeySecret,
      paymentNetwork := if Truthy(req.paymentNetwork) then req.paymentNetwork.value else DefaultNetwork,
      paymentCurrencySymbol :=
        if Truthy(req.paymentCurrencySymbol) then req.paymentCurrencySymbol.value else DefaultCurrency,
      x402WrappedUrl := url,
      createdAt := now
    )
  }

  /** An entry as it leaves the server: every field but `apiKeySecret`. */
  datatype PublicEntry = PublicEntry(
    id: string,
    name: string,
    description: Option<string>,
    endpointUrl: string,
    httpMethod: string,
    parametersSchema: Json.Json,
    pricePerCall: int,
    creatorWalletAddress: string,
    authType: string,
    apiKeyName: Option<string>,
    paymentNetwork: string,
    paymentCurrencySymbol: string,
    x402WrappedUrl: string,
    createdAt: string
  )

  /** Puts a secret back into a public entry. */
  function Restore(p: PublicEntry, secret: Option<string>): ApiEntry {
    ApiEntry(p.id, p.name, p.description, p.endpointUrl, p.httpMethod, p.parametersSchema,
             p.pricePerCall, p.creatorWalletAddress, p.authType, p.apiKeyName, secret,
             p.paymentNetwork, p.paymentCurrencySymbol, p.x402WrappedUrl, p.createdAt)
  }

  /** `const { apiKeySecret: _, ...rest } = entry`: drops the secret and
      nothing else, so restoring the secret gives the entry back. */
  function Redact(e: ApiEntry): (p: PublicEntry)
    ensures Restore(p, e.apiKeySecret) == e
  {
    PublicEntry(e.id, e.name, e.description, e.endpointUrl, e.httpMethod, e.parametersSchema,
                e.pricePerCall, e.creatorWalletAddress, e.authType, e.apiKeyName,
                e.paymentNetwork, e.paymentCurrencySymbol, e.x402WrappedUrl, e.createdAt)
  }

  /** Two entries with the same public view differ at most in their secret. */
  lemma RedactForgetsOnlySecret(e1: ApiEntry, e2: ApiEntry)
    requires Redact(e1) == Redact(e2)
    ensures e1 == e2 <==> e1.apiKeySecret == e2.apiKeySecret
  {
    assert e1 == Restore(Redact(e1), e1.apiKeySecret);
    assert e2 == Restore(Redact(e2), e2.apiKeySecret);
  }

  datatype AddResponse =
    | Added(message: string, apiId: string, entry: PublicEntry)
    | Rejected(error: string)

  /** HTTP status, JSON body and the registry afterwards. */
  datatype AddOutcome = AddOutcome(status: int, body: AddResponse, registry: Store)

  /** `POST /api/marketplace/add`. `body` is the result of `request.json()`
      (a failure carries the thrown error's message); `parse` is `JSON.parse`;
      `id` and `now` stand for the generated identifier and the ISO timestamp. */
  function Post(store: Store, body: Result<AddRequest, string>, parse: Json.Parser,
                id: string, now: string): (r: AddOutcome)
    ensures body.Failure? ==> r == AddOutcome(500, Rejected(body.error), store)
    ensures body.Success? && !Acceptable(body.value, parse)
            ==> r.status == 400 && r.registry == store && r.body.Rejected?
    ensures body.Success? && CheckRequest(body.value, parse).Failure?
            ==> r == AddOutcome(400, Rejected(RejectionMessage(CheckRequest(body.value, parse).error)), store)
    ensures r.status == 200 <==> body.Success? && Acceptable(body.value, parse)
    ensures r.status == 200 ==>
              && r.body.Added? && |r.registry| == |store| + 1
              && r.registry[..|store|] == store
              && r.body == Added(AddedMessage, id, Redact(r.registry[|store|]))
              && r.registry[|store|].id == id
              && Some(r.registry[|store|].name) == body.value.name
  {
    match body
    case Failure(msg) => AddOutcome(500, Rejected(msg), store)
    case Success(req) =>
      match CheckRequest(req, parse)
      case Failure(why) => AddOutcome(400, Rejected(RejectionMessage(why)), store)
      case Success(schema) =>
        var entry := BuildEntry(req, schema, id, now);
        AddOutcome(200, Added(AddedMessage, entry.id, Redact(entry)), AddApiToStore(store, entry))
  }

  /** `GET /api/marketplace/add`: every stored entry, redacted, in order. */
  function Get(store: Store): (r: seq<PublicEntry>)
    ensures |r| == |store|
    ensures forall i :: 0 <= i < |store| ==> r[i] == Redact(store[i])
  {
    if store == [] then [] else [Redact(store[0])] + Get(store[1..])
  }

  /** The stored entry of a successful registration is the one `BuildEntry`
      makes from the request and the parsed schema. */
  lemma PostStoresBuiltEntry(store: Store, req: AddRequest, parse: Json.Parser, id: string, now: string)
    requires Acceptable(req, parse)
    ensures var r := Post(store, Success(req), parse, id, now);
            r.registry == AddApiToStore(store, BuildEntry(req, CheckRequest(req, parse).value, id, now))
  {
  }

  /** After a successful registration the listing grows by exactly the
      returned entry. */
  lemma GetAfterPost(store: Store, req: AddRequest, parse: Json.Parser, id: string, now: string)
    requires Acceptable(req, parse)
    ensures var r := Post(store, Success(req), parse, id, now);
            Get(r.registry) == Get(store) + [r.body.entry]
  {
    var r := Post(store, Success(req), parse, id, now);
    assert r.registry[..|store|] == store;
    assert Get(r.registry)[|store|] == Redact(r.registry[|store|]);
  }

  /** A registered API is found again by the slug of its own name; when no
      earlier entry ends with that slug, the lookup returns the new entry. */
  lemma FindRegisteredBySlug(store: Store, req: AddRequest, parse: Json.Parser, id: string, now: string)
    requires Acceptable(req, parse)
    ensures var r := Post(store, Success(req), parse, id, now);
            var slug := Slug.Normalize(req.name.value);
            && FindApiBySlug(r.registry, slug).Some?
            && (FindApiBySlug(store, slug).None? ==> FindApiBySlug(r.registry, slug).value == r.registry[|store|])
  {
    var r := Post(store, Success(req), parse, id, now);
    var e := r.registry[|store|];
    var slug := Slug.Normalize(req.name.value);
    PostStoresBuiltEntry(store, req, parse, id, now);
    assert e.x402WrappedUrl == ProxyPrefix + slug;
    assert e.x402WrappedUrl[|e.x402WrappedUrl| - |slug|..] == slug;
    assert MatchesSlug(e, slug);
    if FindApiBySlug(store, slug).None? {
      FindAfterAddToMiss(store, e, slug);
    } else {
      FindStableUnderAdd(store, e, slug);
    }
  }
}
