/** A market account: its header, its two book sides in iteration order, its
    seats and its free list, with the read-only queries on them. */
module Market {
  import opened Types
  import opened Wrappers
  import opened Constants
  import opened RestingOrders
  import opened Accounts
  import ClaimedSeats
  import opened GlobalLedger
  import opened Utils

  /** `MarketFixed`, the header of a market account (padding left out). */
  datatype MarketFixed = MarketFixed(
    discriminant: u64,
    version: u8,
    baseMintDecimals: u8,
    quoteMintDecimals: u8,
    baseVaultBump: u8,
    quoteVaultBump: u8,
    baseMint: Pubkey,
    quoteMint: Pubkey,
    baseVault: Pubkey,
    quoteVault: Pubkey,
    orderSequenceNumber: u64,
    numBytesAllocated: u32,
    bidsRootIndex: DataIndex,
    bidsBestIndex: DataIndex,
    asksRootIndex: DataIndex,
    asksBestIndex: DataIndex,
    claimedSeatsRootIndex: DataIndex,
    freeListHeadIndex: DataIndex,
    quoteVolume: u64)

  /** `MarketFixed::verify_discriminant`. */
  function VerifyDiscriminant(f: MarketFixed): (r: Result<()>)
    ensures r.Ok? <==> f.discriminant == MARKET_FIXED_DISCRIMINANT
    ensures r.Err? ==> r.error == InvalidAccountData
  {
    Require(f.discriminant == MARKET_FIXED_DISCRIMINANT, InvalidAccountData)
  }

  /** A market: the header, each book side as the sequence its tree iterates
      (best order first), the seat payloads by block index, and the `next`
      link of every free block by block index. */
  datatype MarketValue = MarketValue(
    fixed: MarketFixed,
    bids: seq<RestingOrder>,
    asks: seq<RestingOrder>,
    seats: map<DataIndex, ClaimedSeats.ClaimedSeat>,
    freeNext: map<DataIndex, DataIndex>)

  /** A read-only view of one book side: the tree's root and best node, and
      its orders in iteration order. */
  datatype Bookside = Bookside(rootIndex: DataIndex, bestIndex: DataIndex, orders: seq<RestingOrder>)

  /** `get_bids`: the bid tree, rooted and started where the header says. */
  function GetBids(m: MarketValue): (b: Bookside)
    ensures b.rootIndex == m.fixed.bidsRootIndex && b.bestIndex == m.fixed.bidsBestIndex
    ensures b.orders == m.bids
  {
    Bookside(m.fixed.bidsRootIndex, m.fixed.bidsBestIndex, m.bids)
  }

  /** `get_asks`: the ask tree, rooted and started where the header says. */
  function GetAsks(m: MarketValue): (b: Bookside)
    ensures b.rootIndex == m.fixed.asksRootIndex && b.bestIndex == m.fixed.asksBestIndex
    ensures b.orders == m.asks
  {
    Bookside(m.fixed.asksRootIndex, m.fixed.asksBestIndex, m.asks)
  }

  /** A book side as its tree iterates it: every order on the side, and each
      order at least as good as the next by the side's comparator. */
  predicate InIterationOrder(orders: seq<RestingOrder>, isBid: bool) {
    (forall i :: 0 <= i < |orders| ==> orders[i].isBid == isBid)
    && forall i, j :: 0 <= i < j < |orders| ==> Cmp(orders[i], orders[j]) != Less
  }

  /** Walking a book side in iteration order meets bids from the highest
      price down and asks from the lowest price up. */
  lemma IterationIsPricePriority(orders: seq<RestingOrder>, isBid: bool, i: nat, j: nat)
    requires InIterationOrder(orders, isBid) && i <= j < |orders|
    ensures isBid ==> orders[i].price.inner >= orders[j].price.inner
    ensures !isBid ==> orders[i].price.inner <= orders[j].price.inner
  {
    if i < j {
      var c := Cmp(orders[i], orders[j]);
      assert c != Less;
    }
  }

  /** `has_free_block`. */
  function HasFreeBlock(m: MarketValue): (r: bool)
    ensures r <==> m.fixed.freeListHeadIndex != NIL
  {
    m.fixed.freeListHeadIndex != NIL
  }

  /** The free list's head block, when there is one, can be read. */
  predicate FreeHeadReadable(m: MarketValue) {
    m.fixed.freeListHeadIndex != NIL ==> m.fixed.freeListHeadIndex in m.freeNext
  }

  /** `has_two_free_blocks`: the head block exists and links to another. */
  function HasTwoFreeBlocks(m: MarketValue): (r: bool)
    requires FreeHeadReadable(m)
    ensures r <==> m.fixed.freeListHeadIndex != NIL && m.freeNext[m.fixed.freeListHeadIndex] != NIL
  {
    if m.fixed.freeListHeadIndex == NIL then false
    else m.freeNext[m.fixed.freeListHeadIndex] != NIL
  }

  /** `chain` is the free list of `m`, in link order from the head. */
  predicate IsFreeList(m: MarketValue, chain: seq<DataIndex>) {
    (forall k :: 0 <= k < |chain| ==> chain[k] != NIL && chain[k] in m.freeNext)
    && (if |chain| == 0 then m.fixed.freeListHeadIndex == NIL else m.fixed.freeListHeadIndex == chain[0])
    && (forall k :: 0 <= k < |chain| - 1 ==> m.freeNext[chain[k]] == chain[k + 1])
    && (|chain| > 0 ==> m.freeNext[chain[|chain| - 1]] == NIL)
  }

  /** The two free-block queries count the free list: one block or more,
      and two blocks or more. */
  lemma FreeBlockCount(m: MarketValue, chain: seq<DataIndex>)
    requires IsFreeList(m, chain)
    ensures FreeHeadReadable(m)
    ensures HasFreeBlock(m) <==> |chain| >= 1
    ensures HasTwoFreeBlocks(m) <==> |chain| >= 2
  {
    if |chain| >= 2 {
      assert m.freeNext[chain[0]] == chain[1];
    }
  }

  /** Every seat a Global order on `orders` names can be read. */
  predicate SeatsResolve(m: MarketValue, orders: seq<RestingOrder>) {
    forall o :: o in orders && IsGlobal(o) ==> o.traderIndex in m.seats
  }

  /** `get_trader_key_by_index`: the trader of the seat at a block. */
  function GetTraderKeyByIndex(m: MarketValue, index: DataIndex): (k: Pubkey)
    requires index in m.seats
    ensures k == m.seats[index].trader
  {
    m.seats[index].trader
  }

  /** `is_unbacked_global_order`: a Global order that gets no fill, because
      no global context was given or its owner's global deposit cannot back
      the fill. A bid taker receives base, so the owner must back the matched
      base atoms; an ask taker receives quote, so the matched quote atoms. */
  function IsUnbackedGlobalOrder(
    m: MarketValue,
    o: RestingOrder,
    isBid: bool,
    opt: Option<GlobalTradeAccounts>,
    matchedBase: u64,
    matchedQuote: u64): (r: bool)
    requires Readable(opt)
    requires IsGlobal(o) && opt.Some? ==> o.traderIndex in m.seats
    ensures !IsGlobal(o) ==> !r
    ensures IsGlobal(o) && opt.None? ==> r
    ensures IsGlobal(o) && opt.Some? ==>
              (r <==> !CanBackOrder(opt, m.seats[o.traderIndex].trader, if isBid then matchedBase else matchedQuote))
  {
    if IsGlobal(o) then
      if opt.None? then true
      else
        var owner := GetTraderKeyByIndex(m, o.traderIndex);
        !CanBackOrder(opt, owner, if isBid then matchedBase else matchedQuote)
    else false
  }

  /** A Global order whose owner has no deposit in the ledger is unbacked
      for every nonzero fill; one whose owner's deposit covers the fill, on
      an unborrowed global account, is backed. */
  lemma UnbackedGlobalOrderByDeposit(
    m: MarketValue,
    o: RestingOrder,
    isBid: bool,
    opt: Option<GlobalTradeAccounts>,
    matchedBase: u64,
    matchedQuote: u64)
    requires Readable(opt) && opt.Some? && IsGlobal(o) && o.traderIndex in m.seats
    ensures var owner := m.seats[o.traderIndex].trader;
            var desired := if isBid then matchedBase else matchedQuote;
            var g := opt.value.global;
            ((forall i :: 0 <= i < |g.traders| ==> g.traders[i].trader != owner) && desired > 0 ==>
               IsUnbackedGlobalOrder(m, o, isBid, opt, matchedBase, matchedQuote))
            && (opt.value.globalBorrow == Unborrowed && desired <= GetBalanceAtoms(g, owner) ==>
               !IsUnbackedGlobalOrder(m, o, isBid, opt, matchedBase, matchedQuote))
  {
    var owner := m.seats[o.traderIndex].trader;
    var desired: u64 := if isBid then matchedBase else matchedQuote;
    if opt.value.globalBorrow == Unborrowed
       && (forall i :: 0 <= i < |opt.value.global.traders| ==> opt.value.global.traders[i].trader != owner) {
      AbsentTraderBacksOnlyZero(opt, owner, desired);
    }
  }
}
