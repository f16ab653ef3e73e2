/** Backing checks for Global orders and the header/dynamic split of an
    account's bytes. */
module Utils {
  import opened Types
  import opened Wrappers
  import opened Accounts
  import opened GlobalLedger

  /** The bundle of accounts a caller supplies to service Global orders on
      one side. Only the global account matters here: the borrow state of its
      data and the ledger that data holds. */
  datatype GlobalTradeAccounts = GlobalTradeAccounts(globalBorrow: BorrowState, global: GlobalValue)

  /** The ledger of a supplied bundle can be read. */
  predicate Readable(opt: Option<GlobalTradeAccounts>) {
    opt.Some? ==> Linked(opt.value.global)
  }

  /** `can_back_order`: whether the trader's global deposit covers
      `desiredAtoms`. Without a bundle, or while the global account's data is
      borrowed elsewhere, the answer is conservatively no. */
  function CanBackOrder(opt: Option<GlobalTradeAccounts>, trader: Pubkey, desiredAtoms: u64): (r: bool)
    requires Readable(opt)
    ensures r ==> opt.Some? && opt.value.globalBorrow == Unborrowed
    ensures opt.Some? && opt.value.globalBorrow == Unborrowed ==>
              (r <==> desiredAtoms <= GetBalanceAtoms(opt.value.global, trader))
  {
    match opt
    case None => false
    case Some(accounts) =>
      if accounts.globalBorrow != Unborrowed then false
      else desiredAtoms <= GetBalanceAtoms(accounts.global, trader)
  }

  /** A trader with no entry in the ledger backs only an empty fill. */
  lemma AbsentTraderBacksOnlyZero(opt: Option<GlobalTradeAccounts>, trader: Pubkey, desiredAtoms: u64)
    requires Readable(opt) && opt.Some? && opt.value.globalBorrow == Unborrowed
    requires forall i :: 0 <= i < |opt.value.global.traders| ==> opt.value.global.traders[i].trader != trader
    ensures CanBackOrder(opt, trader, desiredAtoms) <==> desiredAtoms == 0
  {
  }

  /** A trader present in the ledger backs exactly the amounts up to the
      balance of its linked deposit. */
  lemma PresentTraderBacking(opt: Option<GlobalTradeAccounts>, i: nat, desiredAtoms: u64)
    requires Readable(opt) && opt.Some? && opt.value.globalBorrow == Unborrowed
    requires UniqueTraders(opt.value.global) && i < |opt.value.global.traders|
    ensures var g := opt.value.global;
            (CanBackOrder(opt, g.traders[i].trader, desiredAtoms) <==>
             desiredAtoms <= g.deposits[g.traders[i].depositIndex].balanceAtoms)
  {
    BalanceOfPresentTrader(opt.value.global, i);
  }

  /** Backing is downward closed: whatever backs an amount backs less. */
  lemma CanBackOrderMonotone(opt: Option<GlobalTradeAccounts>, trader: Pubkey, more: u64, less: u64)
    requires Readable(opt) && less <= more
    ensures CanBackOrder(opt, trader, more) ==> CanBackOrder(opt, trader, less)
  {
  }

  /** An account's bytes viewed as its fixed header and its dynamic region. */
  datatype DynamicAccount = DynamicAccount(fixed: seq<u8>, dynamic: seq<u8>)

  /** `get_mut_dynamic_account`: split the bytes after the header of
      `headerSize` bytes; a buffer shorter than the header aborts the split. */
  function GetMutDynamicAccount(data: seq<u8>, headerSize: nat): (r: Result<DynamicAccount>)
    ensures r.Err? <==> headerSize > |data|
    ensures r.Err? ==> r.error == Panic
    ensures r.Ok? ==> |r.value.fixed| == headerSize && r.value.fixed + r.value.dynamic == data
  {
    if headerSize > |data| then Err(Panic)
    else Ok(DynamicAccount(data[..headerSize], data[headerSize..]))
  }
}
