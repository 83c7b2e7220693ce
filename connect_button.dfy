/**
 * The custom connect button: it offers "Connect Wallet" until a wallet is
 * connected, the wrong-network dropdown while the wallet is on an unsupported
 * chain or on a chain other than the target network, and otherwise a link to
 * the page that creates an archive.
 */
module ConnectButton {
  import opened JsText

  const CreateArchiveHref := "/archive/new"

  /** The wallet's chain as the connect kit reports it. */
  datatype Chain = Chain(id: nat, unsupported: bool)

  /** What the button renders. */
  datatype Choice = ConnectWallet | WrongNetwork | CreateArchiveLink(href: string)

  /** `mounted && account && chain`: the kit is mounted and reports both an account and a chain. */
  predicate Connected(mounted: bool, account: Option<string>, chain: Option<Chain>) {
    mounted && account.Some? && chain.Some?
  }

  /** No wallet to act for yet: the kit is not mounted or reports no account or no chain. */
  predicate NeedsConnection(mounted: bool, account: Option<string>, chain: Option<Chain>) {
    !mounted || account.None? || chain.None?
  }

  /** A connected wallet on a chain the dApp cannot use: unsupported, or not the target network. */
  predicate OnWrongNetwork(mounted: bool, account: Option<string>, chain: Option<Chain>, targetId: nat) {
    Connected(mounted, account, chain) && (chain.value.unsupported || chain.value.id != targetId)
  }

  /** A connected wallet on the target network, which the kit supports. */
  predicate OnTargetNetwork(mounted: bool, account: Option<string>, chain: Option<Chain>, targetId: nat) {
    mounted && account.Some? && chain.Some? && !chain.value.unsupported && chain.value.id == targetId
  }

  /** The render function's choice. */
  function Choose(mounted: bool, account: Option<string>, chain: Option<Chain>, targetId: nat): Choice {
    if !Connected(mounted, account, chain) then ConnectWallet
    else if chain.value.unsupported || chain.value.id != targetId then WrongNetwork
    else CreateArchiveLink(CreateArchiveHref)
  }

  /** The three situations cover every input, and exactly one of them holds. */
  lemma CasesPartition(mounted: bool, account: Option<string>, chain: Option<Chain>, targetId: nat)
    ensures (if NeedsConnection(mounted, account, chain) then 1 else 0)
            + (if OnWrongNetwork(mounted, account, chain, targetId) then 1 else 0)
            + (if OnTargetNetwork(mounted, account, chain, targetId) then 1 else 0) == 1
  {
  }

  /**
   * The button shows the choice of the situation that holds: "Connect
   * Wallet", the wrong-network dropdown, or the link to /archive/new.
   */
  lemma ChooseMatchesCase(mounted: bool, account: Option<string>, chain: Option<Chain>, targetId: nat)
    ensures Choose(mounted, account, chain, targetId) == ConnectWallet <==> NeedsConnection(mounted, account, chain)
    ensures Choose(mounted, account, chain, targetId) == WrongNetwork <==>
              OnWrongNetwork(mounted, account, chain, targetId)
    ensures Choose(mounted, account, chain, targetId) == CreateArchiveLink(CreateArchiveHref) <==>
              OnTargetNetwork(mounted, account, chain, targetId)
  {
  }

  /** Before the kit has mounted, whatever account and chain it reports, only "Connect Wallet" shows. */
  lemma UnmountedOffersConnect(account: Option<string>, chain: Option<Chain>, targetId: nat)
    ensures Choose(false, account, chain, targetId) == ConnectWallet
  {
  }

  /** The link to create an archive appears for exactly one chain id, the target network's. */
  lemma LinkOnlyOnTarget(account: string, chain: Chain, targetId: nat)
    requires !chain.unsupported
    ensures Choose(true, Some(account), Some(chain), targetId).CreateArchiveLink? <==> chain.id == targetId
  {
  }
}
