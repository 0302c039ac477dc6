/** What the two wallet routes share: the shape of a CDP SDK outcome, the
    error-message precedence of their `catch` blocks, and the reply type. */
module WalletApi {
  import opened Wrappers
  import opened Text
  import opened WalletStore

  /** The parts of a thrown SDK error the routes look at:
      `error.response.data.message` and `error.message`. */
  datatype SdkError = SdkError(responseDataMessage: Option<string>, message: Option<string>)

  /** An awaited SDK call: its value, or the error it threw. */
  datatype SdkResult<T> = Ok(value: T) | Err(error: SdkError)

  const UnavailableMessage: string := "Wallet service is currently unavailable. CDP Client not initialized."

  /** The message of a `catch` block: the SDK's response message when truthy,
      else the error's own message when truthy, else the route's default. */
  function ErrorMessage(e: SdkError, fallback: string): (r: string)
    ensures Truthy(e.responseDataMessage) ==> Some(r) == e.responseDataMessage
    ensures !Truthy(e.responseDataMessage) && Truthy(e.message) ==> Some(r) == e.message
    ensures r == fallback <== !Truthy(e.responseDataMessage) && !Truthy(e.message)
    ensures fallback != "" ==> r != ""
  {
    if Truthy(e.responseDataMessage) then e.responseDataMessage.value
    else if Truthy(e.message) then e.message.value
    else fallback
  }

  /** The JSON body of a wallet route's response. */
  datatype ReplyBody =
    | AccountReply(message: string, account: CdpAccount)
    | FaucetReply(message: string, account: CdpAccount, faucetTransactionHash: string)
    | ErrorReply(error: string)

  /** HTTP status, JSON body, and the wallet state afterwards. */
  datatype Reply = Reply(status: int, body: ReplyBody, state: WalletState)
}
