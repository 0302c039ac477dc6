/** The in-memory registry of published APIs (src/lib/marketplaceStore.ts):
    an insertion-ordered sequence, the append used by registration, and the
    lookup by proxy slug that the file defines in comments. The module-level
    array is passed in and out explicitly. */
module MarketplaceStore {
  import opened Wrappers
  import opened Text
  import Json

  /** One published API as the registration route stores it. */
  datatype ApiEntry = ApiEntry(
    id: string,
    name: string,
    description: Option<string>,
    endpointUrl: string,
    httpMethod: string,
    parametersSchema: Json.Json,
    pricePerCall: int,
    creatorWalletAddress: string,
    authType: string,
    apiKeyName: Option<string>,
    apiKeySecret: Option<string>,
    paymentNetwork: string,
    paymentCurrencySymbol: string,
    x402WrappedUrl: string,
    createdAt: string
  )

  type Store = seq<ApiEntry>

  /** The registry when the server starts. */
  const Initial: Store := []

  /** `addApiToStore`: `marketplaceApis.push(api)`. */
  function AddApiToStore(store: Store, api: ApiEntry): (r: Store)
    ensures |r| == |store| + 1
    ensures r[|store|] == api
    ensures r[..|store|] == store
  {
    store + [api]
  }

  /** The lookup criterion: the entry's proxy URL ends with the slug. */
  predicate MatchesSlug(api: ApiEntry, slug: string) {
    EndsWith(api.x402WrappedUrl, slug)
  }

  /** The position of the first entry matching `slug`, if any. */
  function FirstMatch(store: Store, slug: string): (r: Option<nat>)
    ensures r.Some? ==> r.value < |store| && MatchesSlug(store[r.value], slug)
    ensures r.Some? ==> forall j :: 0 <= j < r.value ==> !MatchesSlug(store[j], slug)
    ensures r.None? <==> forall j :: 0 <= j < |store| ==> !MatchesSlug(store[j], slug)
    decreases |store|
  {
    if store == [] then None
    else if MatchesSlug(store[0], slug) then Some(0)
    else
      match FirstMatch(store[1..], slug)
      case None => None
      case Some(k) => Some(k + 1)
  }

  /** `findApiBySlug`: `Array.prototype.find` with the `endsWith` criterion —
      the earliest matching entry wins. */
  function FindApiBySlug(store: Store, slug: string): (r: Option<ApiEntry>)
    ensures r.None? <==> forall j :: 0 <= j < |store| ==> !MatchesSlug(store[j], slug)
    ensures r.Some? ==> exists i :: 0 <= i < |store| && store[i] == r.value
                          && MatchesSlug(store[i], slug)
                          && forall j :: 0 <= j < i ==> !MatchesSlug(store[j], slug)
  {
    match FirstMatch(store, slug)
    case None => None
    case Some(i) => Some(store[i])
  }

  /** Appending never changes a lookup that already succeeded: the earlier
      match still comes first. */
  lemma FindStableUnderAdd(store: Store, api: ApiEntry, slug: string)
    requires FindApiBySlug(store, slug).Some?
    ensures FindApiBySlug(AddApiToStore(store, api), slug) == FindApiBySlug(store, slug)
  {
    var s' := AddApiToStore(store, api);
    var k := FirstMatch(store, slug).value;
    assert s'[k] == store[k];
    var k' := FirstMatch(s', slug);
    assert k'.Some? && k'.value <= k;
    assert s'[k'.value] == store[k'.value];
  }

  /** A lookup that failed before an append finds the new entry exactly when
      the new entry matches. */
  lemma FindAfterAddToMiss(store: Store, api: ApiEntry, slug: string)
    requires FindApiBySlug(store, slug).None?
    ensures FindApiBySlug(AddApiToStore(store, api), slug)
         == (if MatchesSlug(api, slug) then Some(api) else None)
  {
    var s' := AddApiToStore(store, api);
    assert forall j :: 0 <= j < |store| ==> s'[j] == store[j];
  }

  /** Of two matching entries the later one is never the lookup's answer
      position: it is shadowed by the earlier one. */
  lemma LaterDuplicateShadowed(store: Store, i: nat, j: nat, slug: string)
    requires i < j < |store|
    requires MatchesSlug(store[i], slug) && MatchesSlug(store[j], slug)
    ensures FirstMatch(store, slug).Some? && FirstMatch(store, slug).value <= i
  {
  }
}
