/** The single-account wallet store (src/lib/walletStore.ts): at most one CDP
    account, with a simulated balance that the faucet credits. The module-level
    variable is passed in and out explicitly as a `WalletState`. */
module WalletStore {
  import opened Wrappers

  datatype NetworkType = Evm | Solana

  /** The string value of the `networkType` field. */
  function NetworkName(n: NetworkType): string {
    match n
    case Evm => "evm"
    case Solana => "solana"
  }

  /** A stored account; balance and currency are optional fields. */
  datatype CdpAccount = CdpAccount(
    address: string,
    networkType: NetworkType,
    createdAt: string,
    mockBalance: Option<int>,
    currency: Option<string>
  )

  /** What `setCdpAccount` receives: an account without the fields it fills in. */
  datatype NewAccount = NewAccount(address: string, networkType: NetworkType)

  /** `currentCdpAccount`: `None` is `null`. */
  type WalletState = Option<CdpAccount>

  /** The state when the server starts. */
  const Initial: WalletState := None

  const EvmCurrency: string := "ETH_TEST"
  const SolanaCurrency: string := "SOL_TEST"

  /** The balance an update starts from: an undefined balance counts as 0. */
  function Balance(a: CdpAccount): int {
    a.mockBalance.GetOr(0)
  }

  /** Two accounts agree on every field except possibly the balance. */
  predicate SameButBalance(a: CdpAccount, b: CdpAccount) {
    && a.address == b.address && a.networkType == b.networkType
    && a.createdAt == b.createdAt && a.currency == b.currency
  }

  /** `getCdpAccount`: the account if there is one; reading changes nothing. */
  function GetCdpAccount(s: WalletState): (r: Option<CdpAccount>)
    ensures r.Some? <==> s.Some?
    ensures r.Some? ==> r.value == s.value
  {
    s
  }

  /** An account returned together with the state it was stored into. */
  datatype Stored = Stored(account: CdpAccount, state: WalletState)

  /** `setCdpAccount`: replaces whatever was stored; `now` is the ISO
      timestamp of the call. */
  function SetCdpAccount(s: WalletState, account: NewAccount, now: string): (r: Stored)
    ensures r.state == Some(r.account)
    ensures r.account.address == account.address && r.account.networkType == account.networkType
    ensures r.account.createdAt == now
    ensures r.account.mockBalance == Some(0) && Balance(r.account) == 0
    ensures r.account.currency == Some(if account.networkType == Evm then EvmCurrency else SolanaCurrency)
  {
    var stored := CdpAccount(
      account.address, account.networkType, now, Some(0),
      Some(if account.networkType == Evm then EvmCurrency else SolanaCurrency));
    Stored(stored, Some(stored))
  }

  /** `clearCdpAccount`. */
  function ClearCdpAccount(s: WalletState): (r: WalletState)
    ensures r.None?
    ensures GetCdpAccount(r).None?
  {
    None
  }

  /** The value `updateMockBalance` returns and the state it leaves. */
  datatype Update = Update(result: Option<CdpAccount>, state: WalletState)

  /** `updateMockBalance(amount)`: no account gives `null` and no change;
      otherwise the balance (undefined counting as 0) grows by `amount`,
      with no lower bound, and the updated account is returned. */
  function UpdateMockBalance(s: WalletState, amount: int): (r: Update)
    ensures s.None? <==> r.result.None?
    ensures s.None? ==> r.state == s
    ensures s.Some? ==> r.state == r.result
    ensures s.Some? ==> && r.state.Some? && SameButBalance(r.state.value, s.value)
                        && r.state.value.mockBalance == Some(Balance(s.value) + amount)
  {
    match s
    case None => Update(None, None)
    case Some(a) =>
      var updated := a.(mockBalance := Some(Balance(a) + amount));
      Update(Some(updated), Some(updated))
  }

  /** Two updates in a row add up. */
  lemma UpdateAdditive(s: WalletState, a: int, b: int)
    ensures UpdateMockBalance(UpdateMockBalance(s, a).state, b).state == UpdateMockBalance(s, a + b).state
  {
  }

  /** Crediting and then debiting the same amount restores the account, once
      its balance is defined. */
  lemma UpdateUndo(s: WalletState, a: int)
    requires s.Some? ==> s.value.mockBalance.Some?
    ensures UpdateMockBalance(UpdateMockBalance(s, a).state, -a).state == s
  {
  }

  /** A fresh account reads back with zero balance, and credits accumulate
      from there. */
  lemma SetThenUpdate(s: WalletState, account: NewAccount, now: string, amount: int)
    ensures var st := SetCdpAccount(s, account, now);
            var u := UpdateMockBalance(st.state, amount);
            && GetCdpAccount(st.state) == Some(st.account)
            && u.result.Some? && Balance(u.result.value) == amount
            && SameButBalance(u.result.value, st.account)
  {
  }
}
