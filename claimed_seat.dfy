/** A trader's seat on a market: withdrawable balances keyed by trader. */
module ClaimedSeats {
  import opened Types

  datatype ClaimedSeat = ClaimedSeat(
    trader: Pubkey,
    // Withdrawable balances; funds locked in open orders are not included.
    baseWithdrawableBalance: u64,
    quoteWithdrawableBalance: u64,
    // Informational lifetime volume; may wrap and secures nothing.
    quoteVolume: u64)

  /** `ClaimedSeat::new_empty`: the trader's seat with nothing in it. */
  function NewEmpty(trader: Pubkey): (s: ClaimedSeat)
    ensures s.trader == trader
    ensures s.baseWithdrawableBalance == 0 && s.quoteWithdrawableBalance == 0 && s.quoteVolume == 0
  {
    ClaimedSeat(trader, 0, 0, 0)
  }

  /** `Ord::cmp`: seats are ordered by trader key alone. */
  function Cmp(a: ClaimedSeat, b: ClaimedSeat): (r: Ordering)
    ensures r == Equal <==> a.trader == b.trader
  {
    CompareBytesEqual(a.trader, b.trader);
    CompareBytes(a.trader, b.trader)
  }

  /** `PartialEq::eq`: seats are equal when their traders are, whatever
      their balances. */
  predicate Eq(a: ClaimedSeat, b: ClaimedSeat) {
    a.trader == b.trader
  }

  /** The seat comparator is a total order on traders that `eq` agrees with:
      Equal exactly when `eq` holds, reversed by swapping the operands, and
      transitive. */
  lemma CmpIsTotalOrder(a: ClaimedSeat, b: ClaimedSeat, c: ClaimedSeat)
    ensures Cmp(a, b) == Equal <==> Eq(a, b)
    ensures Cmp(b, a) == Cmp(a, b).Reverse()
    ensures Cmp(a, b) == Less && Cmp(b, c) == Less ==> Cmp(a, c) == Less
    ensures Cmp(a, b) == Greater && Cmp(b, c) == Greater ==> Cmp(a, c) == Greater
  {
    CompareBytesAntisymmetric(a.trader, b.trader);
    if Cmp(a, b) == Cmp(b, c) && Cmp(a, b) != Equal {
      CompareBytesTransitive(a.trader, b.trader, c.trader, Cmp(a, b));
    }
  }
}
