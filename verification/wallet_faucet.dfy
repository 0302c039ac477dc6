/** `POST /api/wallet/faucet` (src/app/api/wallet/faucet/route.ts): request
    test funds for the stored EVM account and credit the simulated balance. */
module WalletFaucet {
  import opened Wrappers
  import opened Text
  import opened WalletStore
  import opened WalletApi

  /** `MOCK_FAUCET_INCREMENT`, `FAUCET_NETWORK`, `FAUCET_TOKEN`. */
  const FaucetIncrement: int := 1000
  const FaucetNetwork: string := "base-sepolia"
  const FaucetToken: string := "eth"

  const NoAccountMessage: string := "No active CDP account. Please create one first."
  const UpdateFailedMessage: string := "Failed to update mock wallet balance after faucet request."

  /** The arguments of `cdp.evm.requestFaucet`. */
  datatype FaucetRequest = FaucetRequest(address: string, network: string, token: string)

  /** The faucet call: the transaction hash, or the error it throws. */
  type Faucet = FaucetRequest -> SdkResult<string>

  function UnsupportedMessage(n: NetworkType): string {
    "Faucet not supported for " + NetworkName(n) + " accounts via this endpoint yet."
  }

  function DefaultError(): string {
    "Failed to request funds from " + FaucetToken + " faucet."
  }

  function SuccessMessage(txHash: string): string {
    "Successfully requested " + FaucetToken + " from " + FaucetNetwork + " faucet. Transaction: "
    + txHash + ". Mock balance updated."
  }

  /** The request the route makes for a stored account. */
  function RequestFor(a: CdpAccount): (q: FaucetRequest)
    ensures q.address == a.address && q.network == "base-sepolia" && q.token == "eth"
  {
    FaucetRequest(a.address, FaucetNetwork, FaucetToken)
  }

  /** The route. `sdkReady` is whether the CDP client was initialised. */
  function Post(s: WalletState, sdkReady: bool, requestFaucet: Faucet): (r: Reply)
    ensures !sdkReady ==> r == Reply(503, ErrorReply(UnavailableMessage), s)
    ensures sdkReady && s.None? ==> r == Reply(404, ErrorReply(NoAccountMessage), s)
    ensures sdkReady && s.Some? && s.value.networkType != Evm
            ==> r == Reply(400, ErrorReply(UnsupportedMessage(s.value.networkType)), s)
    ensures r.state != s ==> r.status == 200
    ensures r.status == 200 <==> sdkReady && s.Some? && s.value.networkType == Evm
                                 && requestFaucet(RequestFor(s.value)).Ok?
    ensures r.status == 200 ==>
              && r.state.Some? && SameButBalance(r.state.value, s.value)
              && Balance(r.state.value) == Balance(s.value) + FaucetIncrement
              && r.body == FaucetReply(SuccessMessage(requestFaucet(RequestFor(s.value)).value),
                                       r.state.value, requestFaucet(RequestFor(s.value)).value)
    ensures r.status == 500 ==> r.state == s && r.body.ErrorReply?
    ensures r.status in {200, 400, 404, 500, 503}
  {
    if !sdkReady then Reply(503, ErrorReply(UnavailableMessage), s)
    else match GetCdpAccount(s)
      case None => Reply(404, ErrorReply(NoAccountMessage), s)
      case Some(account) =>
        if account.networkType != Evm then Reply(400, ErrorReply(UnsupportedMessage(account.networkType)), s)
        else match requestFaucet(RequestFor(account))
          case Err(e) => Reply(500, ErrorReply(ErrorMessage(e, DefaultError())), s)
          case Ok(txHash) =>
            var u := UpdateMockBalance(s, FaucetIncrement);
            match u.result
            case None => Reply(500, ErrorReply(UpdateFailedMessage), s)
            case Some(updated) => Reply(200, FaucetReply(SuccessMessage(txHash), updated, txHash), u.state)
  }

  /** A 500 comes only from a failed faucet call, with that call's message:
      the route's "failed to update" branch cannot be reached, since an
      account was found before the credit. */
  lemma FaucetErrorOnlyFromSdk(s: WalletState, sdkReady: bool, requestFaucet: Faucet)
    requires Post(s, sdkReady, requestFaucet).status == 500
    ensures s.Some? && requestFaucet(RequestFor(s.value)).Err?
    ensures Post(s, sdkReady, requestFaucet).body
         == ErrorReply(ErrorMessage(requestFaucet(RequestFor(s.value)).error, DefaultError()))
  {
  }

  /** Each successful faucet call credits exactly one increment: two calls in
      a row add twice the increment. */
  lemma TwoFaucetCalls(s: WalletState, f1: Faucet, f2: Faucet)
    requires Post(s, true, f1).status == 200
    requires Post(Post(s, true, f1).state, true, f2).status == 200
    ensures var second := Post(Post(s, true, f1).state, true, f2).state;
            second.Some? && SameButBalance(second.value, s.value)
            && Balance(second.value) == Balance(s.value) + 2 * FaucetIncrement
  {
  }
}
