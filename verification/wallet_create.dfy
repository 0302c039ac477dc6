/** `POST /api/wallet/create` (src/app/api/wallet/create/route.ts): create an
    EVM account through the CDP SDK unless one is already stored. */
module WalletCreate {
  import opened Wrappers
  import opened WalletStore
  import opened WalletApi

  const ExistsMessage: string := "An account already exists in the current session."
  const CreatedMessage: string := "EVM Account created successfully via CDP SDK."
  const DefaultError: string := "Failed to create EVM account."

  /** The route. `sdkReady` is whether the CDP client was initialised;
      `created` is what `cdp.evm.createAccount()` would give (the new address
      or the error it throws) and is consulted only when no account is stored;
      `now` is the timestamp `setCdpAccount` records. */
  function Post(s: WalletState, sdkReady: bool, created: SdkResult<string>, now: string): (r: Reply)
    ensures !sdkReady ==> r == Reply(503, ErrorReply(UnavailableMessage), s)
    ensures sdkReady && s.Some? ==> r == Reply(200, AccountReply(ExistsMessage, s.value), s)
    ensures r.state != s ==> && sdkReady && s.None? && created.Ok? && r.status == 200
                             && r.state.Some? && r.body == AccountReply(CreatedMessage, r.state.value)
                             && r.state.value.address == created.value
                             && r.state.value.networkType == Evm
                             && Balance(r.state.value) == 0
                             && r.state.value.currency == Some(EvmCurrency)
    ensures sdkReady && s.None? && created.Ok?
            ==> && r.state.Some? && r.state == SetCdpAccount(s, NewAccount(created.value, Evm), now).state
                && r.state.value.createdAt == now && r.state.value.mockBalance == Some(0)
    ensures r.status == 500 <==> sdkReady && s.None? && created.Err?
    ensures r.status == 500 ==> r.state == s && r.body == ErrorReply(ErrorMessage(created.error, DefaultError))
  {
    if !sdkReady then Reply(503, ErrorReply(UnavailableMessage), s)
    else match GetCdpAccount(s)
      case Some(existing) => Reply(200, AccountReply(ExistsMessage, existing), s)
      case None =>
        match created
        case Err(e) => Reply(500, ErrorReply(ErrorMessage(e, DefaultError)), s)
        case Ok(address) =>
          var st := SetCdpAccount(s, NewAccount(address, Evm), now);
          Reply(200, AccountReply(CreatedMessage, st.account), st.state)
  }

  /** The SDK is consulted only when a new account is needed: with an account
      stored (or no client) the reply does not depend on it. */
  lemma CreateSkipsSdkWhenStored(s: WalletState, sdkReady: bool, c1: SdkResult<string>, c2: SdkResult<string>,
                                 now1: string, now2: string)
    requires !sdkReady || s.Some?
    ensures Post(s, sdkReady, c1, now1) == Post(s, sdkReady, c2, now2)
  {
  }

  /** Calling the route twice stores one account: the second call returns the
      account the first stored and changes nothing. */
  lemma CreateIdempotent(s: WalletState, c1: SdkResult<string>, c2: SdkResult<string>, now1: string, now2: string)
    requires Post(s, true, c1, now1).status == 200
    ensures var first := Post(s, true, c1, now1);
            var second := Post(first.state, true, c2, now2);
            && first.state.Some?
            && second == Reply(200, AccountReply(ExistsMessage, first.state.value), first.state)
  {
  }
}
