/** The global ledger: per-mint deposits that back Global orders on every
    market, kept as a tree of traders each linking to a node of a tree of
    deposits sorted by balance. */
module GlobalLedger {
  import opened Types
  import opened Wrappers
  import opened Constants

  /** `GlobalFixed`, the header of a global account. */
  datatype GlobalFixed = GlobalFixed(
    discriminant: u64,
    mint: Pubkey,
    vault: Pubkey,
    globalTradersRootIndex: DataIndex,
    globalDepositsRootIndex: DataIndex,
    // The tree's maximum, which the reversed deposit order makes the smallest balance.
    globalDepositsMaxIndex: DataIndex,
    freeListHeadIndex: DataIndex,
    numBytesAllocated: DataIndex,
    vaultBump: u8,
    globalBump: u8,
    numSeatsClaimed: u16)

  /** `GlobalFixed::new_empty`. The vault address and both bump seeds come
      from address derivation, which is given here as parameters. */
  function NewEmpty(mint: Pubkey, vault: Pubkey, vaultBump: u8, globalBump: u8): (g: GlobalFixed)
    ensures g.discriminant == GLOBAL_FIXED_DISCRIMINANT
    ensures g.mint == mint && g.vault == vault && g.vaultBump == vaultBump && g.globalBump == globalBump
    ensures g.globalTradersRootIndex == NIL && g.globalDepositsRootIndex == NIL
    ensures g.globalDepositsMaxIndex == NIL && g.freeListHeadIndex == NIL
    ensures g.numBytesAllocated == 0 && g.numSeatsClaimed == 0
    ensures VerifyDiscriminant(g).Ok?
  {
    GlobalFixed(GLOBAL_FIXED_DISCRIMINANT, mint, vault, NIL, NIL, NIL, NIL, 0, vaultBump, globalBump, 0)
  }

  /** `GlobalFixed::verify_discriminant`. */
  function VerifyDiscriminant(g: GlobalFixed): (r: Result<()>)
    ensures r.Ok? <==> g.discriminant == GLOBAL_FIXED_DISCRIMINANT
    ensures r.Err? ==> r.error == InvalidAccountData
  {
    Require(g.discriminant == GLOBAL_FIXED_DISCRIMINANT, InvalidAccountData)
  }

  /** A trader's deposited balance in the global account. */
  datatype GlobalDeposit = GlobalDeposit(trader: Pubkey, balanceAtoms: u64)

  /** `Ord::cmp` for deposits, reversed on balance: a larger balance sorts
      first, so the deposit tree's maximum is the smallest balance. */
  function CmpDeposit(a: GlobalDeposit, b: GlobalDeposit): (r: Ordering)
    ensures r == Less <==> a.balanceAtoms > b.balanceAtoms
    ensures r == Equal <==> a.balanceAtoms == b.balanceAtoms
    ensures r == Greater <==> a.balanceAtoms < b.balanceAtoms
  {
    CompareInt(b.balanceAtoms, a.balanceAtoms)
  }

  /** `PartialEq::eq` for deposits: by trader only, whatever the balance.
      This disagrees with `CmpDeposit`, which looks at balances only: two
      deposits of one trader with different balances are equal but do not
      compare Equal, and deposits of two traders with the same balance
      compare Equal without being equal. */
  predicate EqDeposit(a: GlobalDeposit, b: GlobalDeposit) {
    a.trader == b.trader
  }

  /** A deposit tree in ascending tree order (`cmp` never decreases). */
  predicate DepositsInTreeOrder(ds: seq<GlobalDeposit>) {
    forall i, j :: 0 <= i < j < |ds| ==> CmpDeposit(ds[i], ds[j]) != Greater
  }

  /** The deposit at the tree's maximum holds the smallest balance, the one
      evicted first when seats run out. */
  lemma TreeMaxIsSmallestBalance(ds: seq<GlobalDeposit>)
    requires |ds| > 0 && DepositsInTreeOrder(ds)
    ensures forall j :: 0 <= j < |ds| ==> ds[|ds| - 1].balanceAtoms <= ds[j].balanceAtoms
  {
    forall j | 0 <= j < |ds|
      ensures ds[|ds| - 1].balanceAtoms <= ds[j].balanceAtoms
    {
      if j < |ds| - 1 {
        assert CmpDeposit(ds[j], ds[|ds| - 1]) != Greater;
      }
    }
  }

  /** An entry of the trader tree: the trader and the block of its deposit. */
  datatype GlobalTrader = GlobalTrader(trader: Pubkey, depositIndex: DataIndex)

  /** `Ord::cmp` for trader entries: by trader key only. */
  function CmpTrader(a: GlobalTrader, b: GlobalTrader): (r: Ordering)
    ensures r == Equal <==> a.trader == b.trader
  {
    CompareBytesEqual(a.trader, b.trader);
    CompareBytes(a.trader, b.trader)
  }

  /** `PartialEq::eq` for trader entries: by trader only, so a lookup probe
      built with a NIL deposit index finds the stored entry. */
  predicate EqTrader(a: GlobalTrader, b: GlobalTrader) {
    a.trader == b.trader
  }

  /** A global account: its header, the trader tree in iteration order and
      the deposit nodes by block index. */
  datatype GlobalValue = GlobalValue(
    fixed: GlobalFixed,
    traders: seq<GlobalTrader>,
    deposits: map<DataIndex, GlobalDeposit>)

  /** Every trader entry links to an allocated deposit node. */
  predicate Linked(g: GlobalValue) {
    forall i :: 0 <= i < |g.traders| ==> g.traders[i].depositIndex in g.deposits
  }

  /** The trader tree holds each trader at most once. */
  predicate UniqueTraders(g: GlobalValue) {
    forall i, j :: 0 <= i < j < |g.traders| ==> g.traders[i].trader != g.traders[j].trader
  }

  /** `lookup_index` on the trader tree: the position of an entry equal to
      the probe, if any. */
  function LookupTrader(traders: seq<GlobalTrader>, probe: GlobalTrader): (r: Option<nat>)
    ensures r.Some? ==> r.value < |traders| && EqTrader(traders[r.value], probe)
    ensures r.None? <==> forall i :: 0 <= i < |traders| ==> !EqTrader(traders[i], probe)
    decreases |traders|
  {
    if |traders| == 0 then None
    else if EqTrader(traders[0], probe) then Some(0)
    else
      match LookupTrader(traders[1..], probe)
      case None => None
      case Some(i) => Some(i + 1)
  }

  /** `get_global_deposit`: look the trader up with a NIL-indexed probe,
      then follow the entry's link to its deposit node. */
  function GetGlobalDeposit(g: GlobalValue, trader: Pubkey): (r: Option<GlobalDeposit>)
    requires Linked(g)
    ensures r.None? <==> forall i :: 0 <= i < |g.traders| ==> g.traders[i].trader != trader
    ensures r.Some? ==> exists i :: 0 <= i < |g.traders| && g.traders[i].trader == trader
                                    && r.value == g.deposits[g.traders[i].depositIndex]
  {
    match LookupTrader(g.traders, GlobalTrader(trader, NIL))
    case None => None
    case Some(i) => Some(g.deposits[g.traders[i].depositIndex])
  }

  /** `get_balance_atoms`: the trader's deposited balance; a trader who is
      not in the ledger (never deposited, or evicted) has balance zero. */
  function GetBalanceAtoms(g: GlobalValue, trader: Pubkey): (b: u64)
    requires Linked(g)
    ensures (forall i :: 0 <= i < |g.traders| ==> g.traders[i].trader != trader) ==> b == 0
  {
    match GetGlobalDeposit(g, trader)
    case None => 0
    case Some(d) => d.balanceAtoms
  }

  /** A trader present in the ledger has exactly the balance of the deposit
      node its entry links to. */
  lemma BalanceOfPresentTrader(g: GlobalValue, i: nat)
    requires Linked(g) && UniqueTraders(g) && i < |g.traders|
    ensures GetBalanceAtoms(g, g.traders[i].trader) == g.deposits[g.traders[i].depositIndex].balanceAtoms
  {
    var t := g.traders[i].trader;
    var found := LookupTrader(g.traders, GlobalTrader(t, NIL));
    assert found.Some?;
    var k := found.value;
    assert g.traders[k].trader == g.traders[i].trader;
    assert k == i;
  }
}
