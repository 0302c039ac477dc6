# x402 marketplace core, modelled in Dafny

This project models the server-side core of the x402 marketplace. Creators
register HTTP APIs in an in-memory registry, each with a price per call and a
proxy path derived from its name. A single CDP wallet account holds a
simulated balance that a faucet credits. The marketplace page builds a call to
a registered API and classifies the answer. The model has three parts:

- **Registration.** The `POST` route validates a submitted API through an
  ordered ladder of checks. It builds the entry with its defaults and the
  proxy path `/api/x402-proxy/<slug>`, appends it to the registry, and answers
  with the entry minus `apiKeySecret`. `GET` lists the registry, redacted the
  same way. The registry is append-only, and lookup by slug returns the first
  entry whose proxy path ends with the slug (modules `Slug`,
  `MarketplaceStore`, `MarketplaceAdd`).
- **Wallet.** The store holds at most one account, and
  `updateMockBalance` adds to its balance. The `create` route creates an
  account when none exists. The `faucet` route requests funds, then credits
  1000 (modules `WalletStore`, `WalletApi`, `WalletCreate`, `WalletFaucet`).
- **Page logic.** This covers the default request body when the interaction
  modal opens, the proxy URL with the user's query string, the decision
  whether to send a body, and the classification of the response into
  success, payment-required or error, with its messages (module
  `MarketplacePage`).

Route handlers are pure state transitions: they take the registry or the wallet
state and return the status, the JSON body and the new state. The following
are function parameters rather than modelled computations:

- JSON parsing and serialisation;
- the CDP SDK calls;
- the network call of the page;
- generated identifiers and timestamps.

`Text` models the JavaScript string primitives the code relies on: truthiness,
`trim`, `toLowerCase`, `endsWith` and `String(n)`. `Json` models parsed JSON
values, optional member access, and the `String(v)` conversion that template
literals apply.

## Model

| member | source | states |
|---|---|---|
| Text.TrimEmptyIffBlank | src/app/api/marketplace/add/route.ts:34 | `s.trim() === ''` holds exactly when every character of `s` is ECMAScript whitespace (both directions) |
| Text.LowerAscii | src/app/api/marketplace/add/route.ts:72 | lower-casing keeps the length and maps each character independently, 'A'..'Z' to 'a'..'z' |
| Text.LowerAsciiAppend | src/app/api/marketplace/add/route.ts:72 | lower-casing distributes over concatenation |
| Text.NatToStringRoundTrip | src/app/marketplace/page.tsx:211 | the decimal rendering of a price reads back as the same number |
| Json.Display | src/app/marketplace/page.tsx:182 | the template-literal conversion `String(v)` leaves a string as it is. An object prints as `[object Object]`, `null` as `null`, and a boolean as `true` or `false`. An integer prints as decimal digits, with a leading `-` when it is negative, and the digits read back as its magnitude |
| Json.Member | src/app/marketplace/page.tsx:98 | optional member access finds a value exactly when the value is an object that has that key |
| Slug.Literal | src/app/api/marketplace/add/route.ts:72 | the slug of line 72 as written contains only `[a-z0-9-]` |
| Slug.LiteralDropsWhitespace | src/app/api/marketplace/add/route.ts:72 | as written, a whitespace character inside a name is deleted: the slug of `a + ws + b` is the slug of `a` followed by the slug of `b` |
| Slug.LiteralMergesWords | src/app/api/marketplace/add/route.ts:72 | as written, "a b" and "ab" get the same slug "ab" |
| Slug.LiteralIdempotent | src/app/api/marketplace/add/route.ts:72 | deriving the slug of a slug changes nothing |
| Slug.Normalize | src/app/api/marketplace/add/route.ts:72 | the intended slug contains only `[a-z0-9-]` |
| Slug.NormalizeHyphenatesWhitespace | src/app/api/marketplace/add/route.ts:72 | under the intended rule, a whitespace run between two parts of a name becomes exactly one '-' |
| Slug.NormalizeSeparatesWords | src/app/api/marketplace/add/route.ts:72 | under the intended rule, "a b" gives "a-b", which differs from the slug of "ab" |
| Slug.NormalizeIdempotent | src/app/api/marketplace/add/route.ts:72 | normalising a normalised name again changes nothing |
| Slug.KeepSlugCharsDrops | src/app/api/marketplace/add/route.ts:72 | the final `.replace(/[^a-z0-9-]/g, '')` deletes a character outside `[a-z0-9-]` wherever it stands, and what surrounds it is filtered independently |
| Slug.NormalizeStripsNonSlug | src/app/api/marketplace/add/route.ts:72 | under the intended rule, a character that is not whitespace and is not a slug character once lower-cased (punctuation such as '!', '_', non-ASCII letters) is stripped: the slug of `a + c + b` is the slug of `a` followed by the slug of `b` |
| Slug.LiteralStripsNonSlug | src/app/api/marketplace/add/route.ts:72 | as written, such a character (other than a backslash) is stripped the same way |
| Slug.ThreeWords | src/app/api/marketplace/add/route.ts:72 | three ASCII words separated by single spaces and followed by such a mark: the intended rule gives the lower-cased words joined by '-', the literal rule gives them run together, and both drop the mark |
| Slug.MyCoolApiExample | src/app/api/marketplace/add/route.ts:72 | "My Cool API!" gives "my-cool-api" under the intended rule and "mycoolapi" as written |
| Slug.SlugIsFixed | src/app/api/marketplace/add/route.ts:72 | every stage of the derivation leaves a string of slug characters unchanged |
| MarketplaceStore.AddApiToStore | src/lib/marketplaceStore.ts:19 | an append grows the registry by one, puts the new entry last and leaves every earlier entry in place |
| MarketplaceStore.FirstMatch | src/lib/marketplaceStore.ts:20 | the position found is the first whose proxy path ends with the slug; none is found exactly when no entry matches |
| MarketplaceStore.FindApiBySlug | src/lib/marketplaceStore.ts:20 | the lookup returns the earliest entry whose proxy path ends with the slug, and returns nothing exactly when no entry's path ends with it |
| MarketplaceStore.FindStableUnderAdd | src/lib/marketplaceStore.ts:19-20 | appending never changes a lookup that already succeeded |
| MarketplaceStore.FindAfterAddToMiss | src/lib/marketplaceStore.ts:19-20 | a lookup that failed before an append finds the new entry exactly when it matches |
| MarketplaceStore.LaterDuplicateShadowed | src/lib/marketplaceStore.ts:20 | of two entries matching the same slug, the later one is shadowed by the earlier |
| MarketplaceAdd.CheckRequest | src/app/api/marketplace/add/route.ts:29-53 | the first failing check decides the rejection, in this order: missing fields or negative price, then a missing or blank payout address on a paid API, then missing credentials when `authType` is not `NONE`, then an unparsable schema; it succeeds exactly when all four conditions hold, with the parsed schema, or `{}` for absent or blank schema text |
| MarketplaceAdd.BuildEntry | src/app/api/marketplace/add/route.ts:55-74 | the stored entry takes its fields from the request, with these defaults: payout address `''`, `authType` `NONE`, network `base-sepolia`, currency `ETH`. The key name and secret are dropped when `authType` is `NONE`. The proxy path is `/api/x402-proxy/` followed by the corrected slug `Slug.Normalize` of the name, not the as-written `Slug.Literal` (see Findings) |
| MarketplaceAdd.Redact | src/app/api/marketplace/add/route.ts:83 | redaction removes the secret and nothing else: restoring the secret gives the stored entry back |
| MarketplaceAdd.RedactForgetsOnlySecret | src/app/api/marketplace/add/route.ts:83 | two entries with the same public view are equal exactly when their secrets are equal |
| MarketplaceAdd.Post | src/app/api/marketplace/add/route.ts:10-93 | an unreadable body gives 500 with the error's message. A rejected request gives 400, with the message of the first failing check, and leaves the registry unchanged. 200 is returned exactly when every check passes, and then exactly one entry is appended and returned redacted under the success message |
| MarketplaceAdd.Get | src/app/api/marketplace/add/route.ts:96-98 | the listing has the registry's length and order, and each item is the stored entry redacted |
| MarketplaceAdd.PostStoresBuiltEntry | src/app/api/marketplace/add/route.ts:55-76 | an accepted request appends exactly the entry built from it |
| MarketplaceAdd.GetAfterPost | src/app/api/marketplace/add/route.ts:76-98 | after a successful registration, the listing is the old listing plus the returned entry |
| MarketplaceAdd.FindRegisteredBySlug | src/app/api/marketplace/add/route.ts:72-76 | a registered API is found by the slug of its own name, and it is the entry found when no earlier entry matched that slug |
| WalletStore.GetCdpAccount | src/lib/walletStore.ts:14-16 | reading returns the stored account, if any |
| WalletStore.SetCdpAccount | src/lib/walletStore.ts:19-28 | setting replaces any account with one that has the given address and network, balance 0, and currency `ETH_TEST` for EVM or `SOL_TEST` otherwise; the returned account is the stored one |
| WalletStore.ClearCdpAccount | src/lib/walletStore.ts:31-34 | clearing leaves no account |
| WalletStore.UpdateMockBalance | src/lib/walletStore.ts:37-45 | with no account, the update returns null and changes nothing. Otherwise the balance, with undefined counting as 0, grows by exactly the amount, with no lower bound; every other field is kept, and the returned account is the new state |
| WalletStore.UpdateAdditive | src/lib/walletStore.ts:37-45 | two balance updates in a row equal one update by their sum |
| WalletStore.UpdateUndo | src/lib/walletStore.ts:40 | a credit followed by the opposite debit restores the account, once its balance is defined |
| WalletStore.SetThenUpdate | src/lib/walletStore.ts:19-45 | a freshly set account reads back as stored, and its balance after one update equals that amount |
| WalletApi.ErrorMessage | src/app/api/wallet/create/route.ts:38-44 | the error text prefers a truthy `response.data.message`, then a truthy `message`, then the route's default; it is never empty when the default is not. The faucet route's catch block (src/app/api/wallet/faucet/route.ts:53-58) follows the same precedence, with the default "Failed to request funds from eth faucet." |
| WalletCreate.Post | src/app/api/wallet/create/route.ts:5-46 | no client gives 503; an existing account is returned with 200 and nothing changes; a failed SDK call gives 500 with the state unchanged. The state changes only on a successful creation, which stores exactly what `setCdpAccount` stores for the SDK's address on EVM: a defined balance of 0, `ETH_TEST` and the current time as `createdAt` |
| WalletCreate.CreateSkipsSdkWhenStored | src/app/api/wallet/create/route.ts:12-21 | with an account stored, or with no client, the reply does not depend on the SDK's result |
| WalletCreate.CreateIdempotent | src/app/api/wallet/create/route.ts:12-17 | a second call after a successful one returns the same account and changes nothing |
| WalletFaucet.RequestFor | src/app/api/wallet/faucet/route.ts:31-35 | the faucet is asked for `eth` on `base-sepolia` for the stored account's address |
| WalletFaucet.Post | src/app/api/wallet/faucet/route.ts:11-60 | the statuses come in this order: 503, then 404 with no account, then 400 for a non-EVM account. 200 is returned exactly when the faucet call succeeds; then the balance grows by exactly 1000, every other field is kept, and the reply carries the SDK's hash and the new account. On any other status the state is unchanged |
| WalletFaucet.FaucetErrorOnlyFromSdk | src/app/api/wallet/faucet/route.ts:39-43 | a 500 comes only from a failed faucet call and carries that call's message; the "failed to update" branch cannot be reached |
| WalletFaucet.TwoFaucetCalls | src/app/api/wallet/faucet/route.ts:7-39 | two successful calls credit exactly twice the increment and change nothing else |
| MarketplacePage.SchemaBody | src/app/marketplace/page.tsx:98 | the schema's `body` is used exactly when the schema is an object with a truthy `body` member |
| MarketplacePage.InitialRequestBody | src/app/marketplace/page.tsx:98-102 | the modal pre-fills the serialised schema body only for POST, PUT or PATCH with a truthy schema body; otherwise it pre-fills `{}` |
| MarketplacePage.StripLeadingSeparator | src/app/marketplace/page.tsx:126 | exactly one leading `?` or `&` is removed if present, and nothing otherwise |
| MarketplacePage.TargetProxyUrl | src/app/marketplace/page.tsx:122-127 | an empty query leaves the proxy path unchanged. Otherwise the path is kept as a prefix, followed by `&` if the path already has a `?` or by `?` if not, then the query without its leading separator; the URL then always has a `?` |
| MarketplacePage.PrepareRequest | src/app/marketplace/page.tsx:122-158 | the request is refused, with the 400 "not valid JSON" result, exactly when the method is POST, PUT or PATCH and the body text does not parse. A body is sent exactly for those methods: verbatim, with `Content-Type: application/json`. Other methods send no body and no headers, and the method is sent lower-cased |
| MarketplacePage.InitialBodyIsSendable | src/app/marketplace/page.tsx:98-149 | the pre-filled body always passes the body check, given that parsing reads back serialisation and accepts `{}` |
| MarketplacePage.PaymentError | src/app/marketplace/page.tsx:176-181 | the payment reason is an object body's truthy `error` member, else a string body, else "Payment is required." |
| MarketplacePage.ClassifyResponse | src/app/marketplace/page.tsx:171-211 | an error is reported exactly when the status is outside [200, 300). There is a payment message exactly for a successful call to a priced API, or for 401 and 402, which state the reason and the wallet advice. Other failures report `API Error: ` with the status text, or `Failed to fetch` when it is empty |
| MarketplacePage.CostMessageStatesPrice | src/app/marketplace/page.tsx:211 | the cost message names the price in digits that read back as the price, followed by "unit" exactly when the price is 1 |
| MarketplacePage.HandleApiCall | src/app/marketplace/page.tsx:114-226 | nothing is sent exactly when the body check fails. Otherwise the request sent is exactly the prepared one: it goes to the proxy URL with the method lower-cased. Body methods carry the body text verbatim with `Content-Type: application/json`; other methods carry no body and no headers. A response is classified against the API's price. A thrown error shows its message, or a generic one, with no payment message, no data, no status and no status text (so the modal shows "Status: N/A") |
| MarketplacePage.PaymentMessageOnlyForPricedSuccess | src/app/marketplace/page.tsx:208-211 | after a successful call, a payment message appears exactly when the price is positive |

## Left out

- The x402 proxy route that registered paths point to (`/api/x402-proxy/...`) is not part of this model. Nothing about its authorisation, debit or forwarding is modelled.
- The following are not modelled: React rendering, hooks and JSX; the static home page; the add-API form; the wallet page; and the page's initial fetch of the listing.
- `src/lib/cdpClient.ts` is not part of this model. Whether the client was initialised is a boolean parameter of both wallet routes. `createAccount` and `requestFaucet` are abstract outcomes: a value or a thrown error.
- The wallet status route is a pass-through read of the stored account and has no logic of its own.
- The payment-signing HTTP client and the network are a function parameter of `MarketplacePage.HandleApiCall`. Its own handling of statuses is not modelled: by default it throws on a non-2xx status, which makes the page's non-2xx branches unreachable in practice. The stringify-then-parse round trip of the response data (page.tsx:160-169) is taken as the identity.
- JSON parsing and serialisation are function parameters (`Json.Parser`, `stringify`). `JSON.parse` of the request body is a `Result` parameter of `MarketplaceAdd.Post`.
- Identifiers built from `Date.now` and `Math.random`, and ISO timestamps, are opaque string parameters.
- Prices and balances are integers, not floating-point numbers.
- Json.Display: JSON numbers are integers in this model (`Json.JNum`). So `String(v)` of a fractional number such as 1.5 cannot be expressed. Integers of magnitude 10^21 or more print as plain digits, where JavaScript switches to exponent form ("1e+21").
- Logging is left out. Module-level mutable state is passed in and out explicitly, and concurrency is not modelled.
- `addApiToStore` and `findApiBySlug` exist only as comments in `src/lib/marketplaceStore.ts`, yet the route imports `addApiToStore`. They are modelled from those comment definitions. As the files stand, the route imports a binding that the store module does not export, so the call at route.ts:76 would fail. This was read from the source, not executed.
- MarketplaceAdd.CheckRequest: request fields are absent or of their declared type (string, integer price). A `null` and an absent field are the same `None`. So a `null` price, which the route lets through because `null === undefined` is false and `null < 0` is false, is rejected here. Values of other JSON types are not modelled either. In the route they behave differently by field:
  - A truthy non-string `name` throws at `toLowerCase` (route.ts:72), and the route answers 500.
  - A truthy non-string `creatorWalletAddress` on a paid API throws at `trim` (route.ts:34), and the route answers 500.
  - A truthy non-string `parametersSchema` throws at `trim` inside the inner `try` (route.ts:47-50), and the route answers 400 "Invalid parametersSchema JSON format." (route.ts:51-52).
  - A non-string `endpointUrl`, `httpMethod`, `authType`, `apiKeyName`, `apiKeySecret`, `paymentNetwork` or `paymentCurrencySymbol` does not throw and is stored as given.
- Text.LowerAscii: only ASCII letters are lower-cased. JavaScript's `toLowerCase` also maps other letters, some of them (U+0130, U+212A) to ASCII letters that would survive into the slug.
- WalletStore.SetCdpAccount: the spread keeps any extra fields of its argument; the model's argument has only address and network.
- MarketplacePage.HandleApiCall: the early return when no API is selected is left out, since the modal calls it only with a selected API. The loading flags are left out too.

## Findings

| source | as written | input that shows it | evidently intended | confidence | as-written member | corrected member |
|---|---|---|---|---|---|---|
| src/app/api/marketplace/add/route.ts:72 | `.replace(/\\s+/g, '-')`: inside a regular-expression literal, `\\` is a backslash, so the pattern matches a backslash followed by one or more `s` and never matches whitespace. The later `.replace(/[^a-z0-9-]/g, '')` then deletes the spaces. | the name "a b" gives the slug "ab", the same as "ab" (and "My Cool API!" gives "mycoolapi"), so two distinct names share one proxy path and lookup returns the older one | every whitespace run becomes one '-' ("a b" gives "a-b"; "My Cool API!" gives "my-cool-api") | high; not executed | Slug.Literal, with Slug.LiteralDropsWhitespace, Slug.LiteralMergesWords and Slug.MyCoolApiExample | Slug.Normalize, with Slug.NormalizeHyphenatesWhitespace, Slug.NormalizeSeparatesWords and Slug.MyCoolApiExample |

`MarketplaceAdd.BuildEntry`, and therefore `MarketplaceAdd.Post`, derives the proxy path with the corrected `Slug.Normalize`.
