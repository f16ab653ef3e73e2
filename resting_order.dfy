/** A resting order on one side of a market's book: its order types, the
    expiration rule, the price a reverse order re-quotes at, checked size
    updates, and the comparator and equality its book side is keyed by. */
module RestingOrders {
  import opened Types
  import opened Wrappers
  import opened Constants
  import opened Quantities

  datatype OrderType =
    | Limit              // rests unconditionally
    | ImmediateOrCancel  // takes only, never rests
    | PostOnly           // fails if it would cross the book
    | Global             // post only, funded from the global account
    | Reverse            // re-quotes on the other side after a fill
    | ReverseTight       // a reverse order with a finer spread unit
  {
    /** `OrderType::is_reversible`. */
    predicate IsReversible() {
      this == Reverse || this == ReverseTight
    }
  }

  datatype RestingOrder = RestingOrder(
    price: Price,
    numBaseAtoms: u64,
    sequenceNumber: u64,
    traderIndex: DataIndex,
    lastValidSlot: u32,
    isBid: bool,
    orderType: OrderType,
    reverseSpread: u16)

  /** `RestingOrder::is_global`. */
  predicate IsGlobal(o: RestingOrder) {
    o.orderType == Global
  }

  /** `RestingOrder::is_expired`: an order with a last valid slot is expired
      once the current slot has passed it. */
  predicate IsExpired(o: RestingOrder, currentSlot: u32) {
    o.lastValidSlot != NO_EXPIRATION_LAST_VALID_SLOT && o.lastValidSlot < currentSlot
  }

  /** `RestingOrder::new`. A reversible order with an expiration is a failed
      assertion, the only way construction fails; otherwise the fields are
      stored as given and the reverse spread starts at zero. */
  function New(
    traderIndex: DataIndex,
    numBaseAtoms: u64,
    price: Price,
    sequenceNumber: u64,
    lastValidSlot: u32,
    isBid: bool,
    orderType: OrderType): (r: Result<RestingOrder>)
    ensures r.Err? <==> orderType.IsReversible() && lastValidSlot != NO_EXPIRATION_LAST_VALID_SLOT
    ensures r.Err? ==> r.error == Panic
    ensures r.Ok? ==> r.value.price == price && r.value.numBaseAtoms == numBaseAtoms
                      && r.value.sequenceNumber == sequenceNumber && r.value.traderIndex == traderIndex
                      && r.value.lastValidSlot == lastValidSlot && r.value.isBid == isBid
                      && r.value.orderType == orderType && r.value.reverseSpread == 0
    ensures r.Ok? && orderType.IsReversible() ==> forall s: u32 :: !IsExpired(r.value, s)
  {
    if orderType.IsReversible() && lastValidSlot != NO_EXPIRATION_LAST_VALID_SLOT then
      Err(Panic)
    else
      Ok(RestingOrder(price, numBaseAtoms, sequenceNumber, traderIndex, lastValidSlot, isBid, orderType, 0))
  }

  /** Expiration is permanent: an order expired at one slot stays expired at
      every later slot, and an order without a last valid slot never
      expires. */
  lemma ExpirationIsPermanent(o: RestingOrder, s: u32, later: u32)
    requires s <= later
    ensures IsExpired(o, s) ==> IsExpired(o, later)
    ensures o.lastValidSlot == NO_EXPIRATION_LAST_VALID_SLOT ==> !IsExpired(o, later)
  {
  }

  /** Spread unit of a reversible order type: spreads are counted in
      hundred-thousandths for Reverse and hundred-millionths for ReverseTight. */
  function SpreadDenominator(t: OrderType): (d: u32)
    requires t.IsReversible()
    ensures d > 65535
  {
    if t == Reverse then 100_000 else 100_000_000
  }

  /** `RestingOrder::reverse_price`: the price at which a filled reversible
      order re-quotes on the other side. A bid at P re-quotes as an ask at
      P / (1 - spread), rounded down; an ask at P re-quotes as a bid at
      P * (1 - spread), rounded up. Other order types keep their price. */
  function ReversePrice(o: RestingOrder): (r: Result<Price>)
    ensures !o.orderType.IsReversible() ==> r == Ok(o.price)
    ensures o.orderType.IsReversible() && r.Ok? ==>
              var base: nat := SpreadDenominator(o.orderType);
              var den: nat := base - o.reverseSpread;
              if o.isBid
              then IsRoundedQuotient(o.price.inner * base, den, false, r.value.inner)
              else IsRoundedQuotient(o.price.inner * den, base, true, r.value.inner)
  {
    if !o.orderType.IsReversible() then Ok(o.price)
    else
      var base := SpreadDenominator(o.orderType);
      if o.isBid then MultiplyRational(o.price, base, base - o.reverseSpread, false)
      else MultiplyRational(o.price, base - o.reverseSpread, base, true)
  }

  /** The re-quoted price never favours the taker over the market maker: a
      bid re-quotes as an ask at or above its price, an ask as a bid at or
      below its price (which never overflows). */
  lemma ReversePriceConservative(o: RestingOrder)
    requires o.orderType.IsReversible()
    ensures o.isBid && ReversePrice(o).Ok? ==> o.price.inner <= ReversePrice(o).value.inner
    ensures !o.isBid ==> ReversePrice(o).Ok? && ReversePrice(o).value.inner <= o.price.inner
  {
    var base: nat := SpreadDenominator(o.orderType);
    var den: nat := base - o.reverseSpread;
    if o.isBid {
      if ReversePrice(o).Ok? {
        ScaleUpRoundedDown(o.price.inner, base, den, ReversePrice(o).value.inner);
      }
    } else {
      var q := DivRound(o.price.inner * den, base, true);
      ScaleDownRoundedUp(o.price.inner, den, base, q);
      assert ReversePrice(o) == Ok(Price(q));
    }
  }

  /** With a zero spread a reversible order re-quotes at its own price. */
  lemma ReversePriceZeroSpread(o: RestingOrder)
    requires o.orderType.IsReversible() && o.reverseSpread == 0
    ensures ReversePrice(o) == Ok(o.price)
  {
    var base: nat := SpreadDenominator(o.orderType);
    var q := DivRound(o.price.inner * base, base, !o.isBid);
    ExactQuotient(o.price.inner, base, !o.isBid, q);
  }

  /** Re-quoting twice never gains the maker a better price: a bid that
      re-quotes as an ask, and that ask re-quoting back as a bid with the
      same spread, lands at or below the original bid price. */
  lemma ReversePriceRoundTrip(o: RestingOrder)
    requires o.orderType.IsReversible() && o.isBid && ReversePrice(o).Ok?
    ensures var ask := o.(isBid := false, price := ReversePrice(o).value);
            ReversePrice(ask).Ok? && ReversePrice(ask).value.inner <= o.price.inner
  {
    var base: nat := SpreadDenominator(o.orderType);
    var den: nat := base - o.reverseSpread;
    var p: nat := o.price.inner;
    var ask := o.(isBid := false, price := ReversePrice(o).value);
    var p1: nat := ask.price.inner;
    ReversePriceConservative(ask);
    var p2: nat := ReversePrice(ask).value.inner;
    assert p1 * den <= p * base;
    assert p2 * base < p1 * den + base;
    assert (p + 1) * base == p * base + base;
    MulCancelLt(p2, p + 1, base);
  }

  /** `RestingOrder::reduce` as a value: subtract, failing on underflow. */
  function ReduceOrder(o: RestingOrder, size: u64): (r: Result<RestingOrder>)
    ensures r.Ok? <==> size <= o.numBaseAtoms
    ensures r.Ok? ==> r.value.numBaseAtoms + size == o.numBaseAtoms
                      && r.value == o.(numBaseAtoms := r.value.numBaseAtoms)
    ensures r.Err? ==> r.error == ArithmeticOverflow
  {
    if size <= o.numBaseAtoms then Ok(o.(numBaseAtoms := o.numBaseAtoms - size))
    else Err(ArithmeticOverflow)
  }

  /** `RestingOrder::increase` as a value: add, failing on overflow. */
  function IncreaseOrder(o: RestingOrder, size: u64): (r: Result<RestingOrder>)
    ensures r.Ok? <==> o.numBaseAtoms + size <= U64_MAX
    ensures r.Ok? ==> r.value.numBaseAtoms == o.numBaseAtoms + size
                      && r.value == o.(numBaseAtoms := r.value.numBaseAtoms)
    ensures r.Err? ==> r.error == ArithmeticOverflow
  {
    if o.numBaseAtoms + size <= U64_MAX then Ok(o.(numBaseAtoms := o.numBaseAtoms + size))
    else Err(ArithmeticOverflow)
  }

  /** Reducing by what was just added restores the order. */
  lemma ReduceUndoesIncrease(o: RestingOrder, size: u64)
    requires IncreaseOrder(o, size).Ok?
    ensures ReduceOrder(IncreaseOrder(o, size).value, size) == Ok(o)
  {
  }

  /** The storage a `&mut RestingOrder` designates (the payload of a book
      node), for the operations that update an order in place. */
  class RestingOrderSlot {
    var order: RestingOrder

    constructor (o: RestingOrder)
      ensures order == o
    {
      order := o;
    }

    /** `reduce`: on underflow the order is left as it was. */
    method Reduce(size: u64) returns (r: Result<()>)
      modifies this
      ensures r.Ok? <==> ReduceOrder(old(order), size).Ok?
      ensures order == if r.Ok? then ReduceOrder(old(order), size).value else old(order)
    {
      if size > order.numBaseAtoms {
        return Err(ArithmeticOverflow);
      }
      order := order.(numBaseAtoms := order.numBaseAtoms - size);
      r := Ok(());
    }

    /** `increase`: on overflow the order is left as it was. */
    method Increase(size: u64) returns (r: Result<()>)
      modifies this
      ensures r.Ok? <==> IncreaseOrder(old(order), size).Ok?
      ensures order == if r.Ok? then IncreaseOrder(old(order), size).value else old(order)
    {
      if order.numBaseAtoms + size > U64_MAX {
        return Err(ArithmeticOverflow);
      }
      order := order.(numBaseAtoms := order.numBaseAtoms + size);
      r := Ok(());
    }

    /** `set_reverse_spread`. */
    method SetReverseSpread(spread: u16)
      modifies this
      ensures order == old(order).(reverseSpread := spread)
    {
      order := order.(reverseSpread := spread);
    }
  }

  /** `Ord::cmp` for resting orders of the same side: bids by ascending
      price, asks by descending price, so the tree's maximum is the best
      price on either side. Size, sequence number and trader are ignored. */
  function Cmp(a: RestingOrder, b: RestingOrder): (r: Ordering)
    requires a.isBid == b.isBid
    ensures r == Equal <==> a.price == b.price
    ensures r == Greater <==> (if a.isBid then a.price.inner > b.price.inner else a.price.inner < b.price.inner)
  {
    if a.isBid then CompareInt(a.price.inner, b.price.inner)
    else CompareInt(b.price.inner, a.price.inner)
  }

  /** The `+ 1` and `- 1` on the 128-bit price in `eq` do not overflow. They
      are evaluated only for reversible orders of the same trader and type
      whose prices differ; `- 1` only when `+ 1` did not match. */
  predicate EqDefined(a: RestingOrder, b: RestingOrder) {
    !(a.traderIndex == b.traderIndex && a.orderType == b.orderType && a.orderType.IsReversible()
      && a.price != b.price
      && (a.price.inner == U128_MAX || (a.price.inner + 1 != b.price.inner && a.price.inner == 0)))
  }

  /** `PartialEq::eq` for resting orders, used when looking orders up and
      coalescing them: same trader and order type, and the same price, or
      for reversible orders a price at most one unit away. */
  function Eq(a: RestingOrder, b: RestingOrder): (r: bool)
    requires EqDefined(a, b)
    ensures r <==> a.traderIndex == b.traderIndex && a.orderType == b.orderType
                   && if a.orderType.IsReversible()
                      then -1 <= a.price.inner - b.price.inner <= 1
                      else a.price == b.price
  {
    if a.traderIndex != b.traderIndex || a.orderType != b.orderType then false
    else if a.orderType.IsReversible() then
      a.price == b.price || a.price.inner + 1 == b.price.inner || a.price.inner - 1 == b.price.inner
    else a.price == b.price
  }

  /** Swapping two same-side orders reverses their comparison. */
  lemma CmpAntisymmetric(a: RestingOrder, b: RestingOrder)
    requires a.isBid == b.isBid
    ensures Cmp(a, b) == Cmp(b, a).Reverse()
  {
  }

  /** Equality is symmetric, and for non-reversible orders of one side it is
      exactly the comparator's Equal, once trader and type agree. */
  lemma EqAgreesWithCmp(a: RestingOrder, b: RestingOrder)
    requires EqDefined(a, b) && EqDefined(b, a)
    ensures Eq(a, b) == Eq(b, a)
    ensures a.isBid == b.isBid && !a.orderType.IsReversible()
            && a.traderIndex == b.traderIndex && a.orderType == b.orderType
            ==> (Eq(a, b) <==> Cmp(a, b) == Equal)
  {
  }
}
