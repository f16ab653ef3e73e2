/** What the impact walks promise: the rules each iteration applies, read
    off the whole walk, and the worked scenarios of the simulators. */
module ImpactProperties {
  import opened Types
  import opened Wrappers
  import opened Quantities
  import opened RestingOrders
  import opened Accounts
  import opened GlobalLedger
  import opened Utils
  import opened Market
  import opened Impact

  /** The walk from position `i` of `book` is the walk over the orders from
      `i` on, started afresh. */
  lemma {:induction false} WalkShift(w: Walker, book: seq<RestingOrder>, i: nat, limit: u64, acc: Tally)
    requires i <= |book| && Ready(w, book) && Spent(w.kind, acc) <= limit
    ensures Ready(w, book[i..])
    ensures Walk(w, book, i, limit, acc) == Walk(w, book[i..], 0, limit, acc)
    decreases |book| - i
  {
    var tail := book[i..];
    assert forall o :: o in tail ==> o in book;
    if i < |book| {
      assert tail[0] == book[i] && tail[1..] == book[i + 1..];
      ReadyAt(w, book, i);
      match Advance(w, book[i], limit, acc)
      case Done(_) =>
      case Continue(next) =>
        WalkShift(w, book, i + 1, limit, next);
        WalkShift(w, tail, 1, limit, next);
    }
  }

  /** A walk over a non-empty book meets its first order and, unless that
      ends it, walks the rest of the book. */
  lemma WalkHead(w: Walker, book: seq<RestingOrder>, limit: u64, acc: Tally)
    requires 0 < |book| && Ready(w, book) && Spent(w.kind, acc) <= limit
    ensures Ready(w, book[1..]) && Readable(w.global)
    ensures IsGlobal(book[0]) && w.global.Some? ==> book[0].traderIndex in w.market.seats
    ensures Walk(w, book, 0, limit, acc) ==
              match Advance(w, book[0], limit, acc)
              case Done(r) => r
              case Continue(next) => Walk(w, book[1..], 0, limit, next)
  {
    ReadyAt(w, book, 0);
    match Advance(w, book[0], limit, acc)
    case Done(_) =>
      WalkShift(w, book, 1, limit, acc);
    case Continue(next) =>
      WalkShift(w, book, 1, limit, next);
  }

  /** The orders of `book` that have not expired at `nowSlot`, in order. */
  function Live(book: seq<RestingOrder>, nowSlot: u32): (r: seq<RestingOrder>)
    ensures forall o :: o in r ==> o in book && !IsExpired(o, nowSlot)
    ensures forall o :: o in book && !IsExpired(o, nowSlot) ==> o in r
    decreases |book|
  {
    if |book| == 0 then []
    else if IsExpired(book[0], nowSlot) then Live(book[1..], nowSlot)
    else [book[0]] + Live(book[1..], nowSlot)
  }

  /** Expired orders take no part in a walk: walking the book gives what
      walking its live orders alone gives. */
  lemma {:induction false} WalkIgnoresExpired(w: Walker, book: seq<RestingOrder>, limit: u64, acc: Tally)
    requires Ready(w, book) && Spent(w.kind, acc) <= limit
    ensures Ready(w, Live(book, w.nowSlot))
    ensures Walk(w, book, 0, limit, acc) == Walk(w, Live(book, w.nowSlot), 0, limit, acc)
    decreases |book|
  {
    if |book| > 0 {
      var rest := book[1..];
      assert forall o :: o in rest ==> o in book;
      var live := Live(book, w.nowSlot);
      WalkHead(w, book, limit, acc);
      if IsExpired(book[0], w.nowSlot) {
        WalkIgnoresExpired(w, rest, limit, acc);
      } else {
        assert live[0] == book[0] && live[1..] == Live(rest, w.nowSlot);
        WalkIgnoresExpired(w, rest, limit, acc);
        WalkHead(w, live, limit, acc);
        match Advance(w, book[0], limit, acc)
        case Done(_) =>
        case Continue(next) =>
          WalkIgnoresExpired(w, rest, limit, next);
      }
    }
  }

  /** Without a global context, the first live Global order ends the walk:
      the result is exactly that of the orders before it. */
  lemma {:induction false} WalkStopsAtUnservicedGlobal(w: Walker, book: seq<RestingOrder>, limit: u64, acc: Tally, k: nat)
    requires Ready(w, book) && Spent(w.kind, acc) <= limit
    requires w.global.None? && k < |book| && IsGlobal(book[k]) && !IsExpired(book[k], w.nowSlot)
    ensures Ready(w, book[..k])
    ensures Walk(w, book, 0, limit, acc) == Walk(w, book[..k], 0, limit, acc)
    decreases k
  {
    assert forall o :: o in book[..k] ==> o in book;
    if k == 0 {
      WalkHead(w, book, limit, acc);
    } else {
      var rest := book[1..];
      assert forall o :: o in rest ==> o in book;
      assert book[..k][0] == book[0] && book[..k][1..] == rest[..k - 1];
      WalkHead(w, book, limit, acc);
      WalkHead(w, book[..k], limit, acc);
      match Advance(w, book[0], limit, acc)
      case Done(_) =>
      case Continue(next) =>
        WalkStopsAtUnservicedGlobal(w, rest, limit, next, k - 1);
    }
  }

  /** In particular, when every order before it has expired, the walk
      matches nothing at all. */
  lemma UnservicedGlobalFirstMatchesNothing(w: Walker, book: seq<RestingOrder>, limit: u64, k: nat)
    requires Ready(w, book)
    requires w.global.None? && k < |book| && IsGlobal(book[k]) && !IsExpired(book[k], w.nowSlot)
    requires forall j :: 0 <= j < k ==> IsExpired(book[j], w.nowSlot)
    ensures Walk(w, book, 0, limit, Tally(0, 0)) == Ok(Tally(0, 0))
  {
    WalkStopsAtUnservicedGlobal(w, book, limit, Tally(0, 0), k);
    WalkIgnoresExpired(w, book[..k], limit, Tally(0, 0));
    LiveOfExpiredIsEmpty(book[..k], w.nowSlot);
  }

  /** A book whose orders have all expired has no live orders. */
  lemma {:induction false} LiveOfExpiredIsEmpty(book: seq<RestingOrder>, nowSlot: u32)
    requires forall j :: 0 <= j < |book| ==> IsExpired(book[j], nowSlot)
    ensures Live(book, nowSlot) == []
    decreases |book|
  {
    if |book| > 0 {
      LiveOfExpiredIsEmpty(book[1..], nowSlot);
    }
  }

  /** Total resting base atoms of `book` from position `i` on. */
  function SumBase(book: seq<RestingOrder>, i: nat): nat
    requires i <= |book|
    decreases |book| - i
  {
    if i == |book| then 0 else book[i].numBaseAtoms + SumBase(book, i + 1)
  }

  /** On a book of live orders that are not Global, the quote impact takes
      base atoms up to its cap: all of the book when the cap covers it, and
      exactly the cap otherwise. */
  lemma {:induction false} BaseLimitTakesUpToCap(w: Walker, book: seq<RestingOrder>, i: nat, limit: u64, acc: Tally)
    requires i <= |book| && Ready(w, book) && w.kind == BaseLimit && acc.base <= limit
    requires forall j :: i <= j < |book| ==> !IsGlobal(book[j]) && !IsExpired(book[j], w.nowSlot)
    requires Walk(w, book, i, limit, acc).Ok?
    ensures Walk(w, book, i, limit, acc).value.base == Min(limit, acc.base + SumBase(book, i))
    decreases |book| - i
  {
    if i < |book| {
      ReadyAt(w, book, i);
      BaseLimitAdvance(w, book[i], limit, acc);
      match Advance(w, book[i], limit, acc)
      case Done(r) =>
        WalkEnds(w, book, i, limit, acc, r);
      case Continue(next) =>
        WalkContinues(w, book, i, limit, acc, next);
        BaseLimitTakesUpToCap(w, book, i + 1, limit, next);
    }
  }

  /** Under a base cap, a live order that is not Global is either taken
      whole, or taken up to the cap, which ends the walk. */
  lemma BaseLimitAdvance(w: Walker, o: RestingOrder, limit: u64, acc: Tally)
    requires Readable(w.global) && w.kind == BaseLimit && acc.base <= limit
    requires !IsGlobal(o) && !IsExpired(o, w.nowSlot)
    ensures var c := Advance(w, o, limit, acc);
            (c.Continue? ==> c.acc.base == acc.base + o.numBaseAtoms)
            && (c.Done? && c.result.Ok? ==> c.result.value.base == limit < acc.base + o.numBaseAtoms)
  {
    var step := MatchOrder(w, o, limit - acc.base);
    if step.Ok? && step.value.Take? {
      MatchOrderTake(w, o, limit - acc.base);
    }
  }

  /** On a book of live orders that are not Global, the base impact never
      takes more base atoms than the book holds. */
  lemma {:induction false} QuoteLimitTakesAtMostBook(w: Walker, book: seq<RestingOrder>, i: nat, limit: u64, acc: Tally)
    requires i <= |book| && Ready(w, book) && w.kind == QuoteLimit && acc.quote <= limit
    requires forall j :: i <= j < |book| ==> !IsGlobal(book[j]) && !IsExpired(book[j], w.nowSlot)
    requires Walk(w, book, i, limit, acc).Ok?
    ensures Walk(w, book, i, limit, acc).value.base <= acc.base + SumBase(book, i)
    decreases |book| - i
  {
    if i < |book| {
      ReadyAt(w, book, i);
      QuoteLimitAdvance(w, book[i], limit, acc);
      match Advance(w, book[i], limit, acc)
      case Done(r) =>
        WalkEnds(w, book, i, limit, acc, r);
      case Continue(next) =>
        WalkContinues(w, book, i, limit, acc, next);
        QuoteLimitTakesAtMostBook(w, book, i + 1, limit, next);
    }
  }

  /** Under a quote cap, an order that is neither Global nor expired is
      taken whole while the cap leaves quote atoms over, and then the walk
      goes on; otherwise the walk ends, after a partial fill or with the
      quote cap used up exactly. */
  lemma QuoteLimitAdvance(w: Walker, o: RestingOrder, limit: u64, acc: Tally)
    requires Readable(w.global) && w.kind == QuoteLimit && acc.quote <= limit
    requires !IsGlobal(o) && !IsExpired(o, w.nowSlot)
    ensures var c := Advance(w, o, limit, acc);
            (c.Continue? ==> c.acc.base == acc.base + o.numBaseAtoms && c.acc.quote < limit)
            && (c.Done? && c.result.Ok? ==>
                  c.result.value.base <= acc.base + o.numBaseAtoms
                  && (c.result.value.base < acc.base + o.numBaseAtoms || c.result.value.quote == limit))
  {
    var remaining: u64 := limit - acc.quote;
    var step := MatchOrder(w, o, remaining);
    if step.Ok? && step.value.Take? {
      MatchOrderTake(w, o, remaining);
      var t := step.value;
      assert Advance(w, o, limit, acc) == AfterFill(QuoteLimit, limit, acc, t.base, t.quote, t.full);
      if t.full {
        assert t.base == o.numBaseAtoms;
      } else {
        assert t.base < o.numBaseAtoms;
      }
    } else {
      assert step.Err?;
      assert Advance(w, o, limit, acc) == Done(Err(step.error));
    }
  }

  /** Once the base cap of the quote impact is used up, the rest of the
      book adds nothing, though the walk goes on until it meets an order it
      can only partly fill. */
  lemma {:induction false} ExhaustedBaseCapAddsNothing(w: Walker, book: seq<RestingOrder>, i: nat, limit: u64, acc: Tally)
    requires i <= |book| && Ready(w, book) && w.kind == BaseLimit && acc.base == limit
    requires Walk(w, book, i, limit, acc).Ok?
    ensures Walk(w, book, i, limit, acc) == Ok(acc)
    decreases |book| - i
  {
    if i < |book| {
      ReadyAt(w, book, i);
      ExhaustedBaseCapAdvance(w, book[i], limit, acc);
      match Advance(w, book[i], limit, acc)
      case Done(r) =>
        WalkEnds(w, book, i, limit, acc, r);
      case Continue(next) =>
        WalkContinues(w, book, i, limit, acc, next);
        ExhaustedBaseCapAddsNothing(w, book, i + 1, limit, acc);
    }
  }

  /** With the base cap used up, meeting one order matches nothing. */
  lemma ExhaustedBaseCapAdvance(w: Walker, o: RestingOrder, limit: u64, acc: Tally)
    requires Readable(w.global) && (IsGlobal(o) && w.global.Some? ==> o.traderIndex in w.market.seats)
    requires w.kind == BaseLimit && acc.base == limit
    ensures var c := Advance(w, o, limit, acc);
            c == Continue(acc) || c == Done(Ok(acc)) || (c.Done? && c.result.Err?)
  {
    var step := MatchOrder(w, o, 0);
    if step.Ok? && step.value.Take? {
      MatchOrderTake(w, o, 0);
      RoundedQuotientUnique(0, D18, w.isBid != step.value.full, step.value.quote, 0);
    }
  }

  /** A bid taker capped in quote atoms never matches more quote atoms at
      one order than it has left: the base cap is rounded down, so neither a
      full fill nor the final partial fill can overspend. */
  lemma BidTakerStepWithinRemaining(w: Walker, o: RestingOrder, remaining: u64)
    requires Readable(w.global) && (IsGlobal(o) && w.global.Some? ==> o.traderIndex in w.market.seats)
    requires w.kind == QuoteLimit && w.isBid
    requires MatchOrder(w, o, remaining).Ok? && MatchOrder(w, o, remaining).value.Take?
    ensures MatchOrder(w, o, remaining).value.quote <= remaining
  {
    var step := MatchOrder(w, o, remaining).value;
    MatchOrderTake(w, o, remaining);
    AffordableBaseWithinBudget(o.price.inner, remaining, BaseCap(w, o, remaining).value,
                               step.base, w.isBid != step.full, step.quote);
  }

  /** Consequently a bid taker's base impact never spends more quote atoms
      than its cap. */
  lemma {:induction false} BidTakerQuoteWithinLimit(w: Walker, book: seq<RestingOrder>, i: nat, limit: u64, acc: Tally)
    requires i <= |book| && Ready(w, book) && w.kind == QuoteLimit && w.isBid && acc.quote <= limit
    requires Walk(w, book, i, limit, acc).Ok?
    ensures Walk(w, book, i, limit, acc).value.quote <= limit
    decreases |book| - i
  {
    if i < |book| {
      ReadyAt(w, book, i);
      BidTakerAdvanceWithinLimit(w, book[i], limit, acc);
      match Advance(w, book[i], limit, acc)
      case Done(r) =>
        WalkEnds(w, book, i, limit, acc, r);
      case Continue(next) =>
        WalkContinues(w, book, i, limit, acc, next);
        BidTakerQuoteWithinLimit(w, book, i + 1, limit, next);
    }
  }

  /** A bid taker's walk that ends at one order has spent no more quote
      atoms than its cap. */
  lemma BidTakerAdvanceWithinLimit(w: Walker, o: RestingOrder, limit: u64, acc: Tally)
    requires Readable(w.global) && (IsGlobal(o) && w.global.Some? ==> o.traderIndex in w.market.seats)
    requires w.kind == QuoteLimit && w.isBid && acc.quote <= limit
    ensures var c := Advance(w, o, limit, acc);
            c.Done? && c.result.Ok? ==> c.result.value.quote <= limit
  {
    var step := MatchOrder(w, o, limit - acc.quote);
    if step.Ok? && step.value.Take? {
      BidTakerStepWithinRemaining(w, o, limit - acc.quote);
    }
  }

  /** Meeting one order reads the market only through its seats. */
  lemma MatchOrderReadsOnlySeats(w: Walker, other: MarketValue, o: RestingOrder, remaining: u64)
    requires Readable(w.global) && (IsGlobal(o) && w.global.Some? ==> o.traderIndex in w.market.seats)
    requires other.seats == w.market.seats
    ensures MatchOrder(w, o, remaining) == MatchOrder(w.(market := other), o, remaining)
  {
    var w2 := w.(market := other);
    if !IsExpired(o, w.nowSlot) && !(o.orderType == Global && w.global.None?) {
      var cap := BaseCap(w, o, remaining);
      assert cap == BaseCap(w2, o, remaining);
      if cap.Ok? {
        var matchedBase: u64 := Min(o.numBaseAtoms, cap.value);
        var matchedQuote := QuoteForBase(o.price, matchedBase, w.isBid != (cap.value >= o.numBaseAtoms));
        if matchedQuote.Ok? {
          assert IsUnbackedGlobalOrder(w.market, o, w.isBid, w.global, matchedBase, matchedQuote.value)
              == IsUnbackedGlobalOrder(other, o, w.isBid, w.global, matchedBase, matchedQuote.value);
        }
      }
    }
  }

  /** So does one iteration's effect on the walk. */
  lemma AdvanceReadsOnlySeats(w: Walker, other: MarketValue, o: RestingOrder, limit: u64, acc: Tally)
    requires Readable(w.global) && (IsGlobal(o) && w.global.Some? ==> o.traderIndex in w.market.seats)
    requires other.seats == w.market.seats && Spent(w.kind, acc) <= limit
    ensures Advance(w, o, limit, acc) == Advance(w.(market := other), o, limit, acc)
  {
    var w2 := w.(market := other);
    var remaining: u64 := limit - Spent(w.kind, acc);
    MatchOrderReadsOnlySeats(w, other, o, remaining);
    var step := MatchOrder(w, o, remaining);
    assert step == MatchOrder(w2, o, remaining);
    match step
    case Err(e) =>
      assert Advance(w, o, limit, acc) == Done(Err(e)) == Advance(w2, o, limit, acc);
    case Ok(Skip) =>
      assert Advance(w, o, limit, acc) == Continue(acc) == Advance(w2, o, limit, acc);
    case Ok(Stop) =>
      assert Advance(w, o, limit, acc) == Done(Ok(acc)) == Advance(w2, o, limit, acc);
    case Ok(Take(b, q, full)) =>
      var c := AfterFill(w.kind, limit, acc, b, q, full);
      assert Advance(w, o, limit, acc) == c;
      assert Advance(w2, o, limit, acc) == c;
  }

  /** A walk reads the market only through its seats: markets with the same
      seats walk the same book alike. */
  lemma {:induction false} WalkReadsOnlySeats(w: Walker, other: MarketValue, book: seq<RestingOrder>, limit: u64, acc: Tally)
    requires Ready(w, book) && other.seats == w.market.seats && Spent(w.kind, acc) <= limit
    ensures Ready(w.(market := other), book)
    ensures Walk(w, book, 0, limit, acc) == Walk(w.(market := other), book, 0, limit, acc)
    decreases |book|
  {
    var w2 := w.(market := other);
    if |book| > 0 {
      var rest := book[1..];
      assert forall o :: o in rest ==> o in book;
      assert book[0] in book;
      AdvanceReadsOnlySeats(w, other, book[0], limit, acc);
      WalkHead(w, book, limit, acc);
      WalkHead(w2, book, limit, acc);
      match Advance(w, book[0], limit, acc)
      case Done(_) =>
      case Continue(next) =>
        WalkReadsOnlySeats(w, other, rest, limit, next);
    }
  }

  /** Both simulators read only the side the taker crosses and the context
      for it: a bid taker sees the asks and the first context, an ask taker
      the bids and the second. */
  lemma ImpactReadsCrossedSideOnly(
    m1: MarketValue, m2: MarketValue, isBid: bool, limit: u64,
    opts1: (Option<GlobalTradeAccounts>, Option<GlobalTradeAccounts>),
    opts2: (Option<GlobalTradeAccounts>, Option<GlobalTradeAccounts>),
    nowSlot: u32)
    requires MarketReady(m1, opts1) && MarketReady(m2, opts2)
    requires m1.seats == m2.seats
    requires isBid ==> m1.asks == m2.asks && opts1.0 == opts2.0
    requires !isBid ==> m1.bids == m2.bids && opts1.1 == opts2.1
    ensures QuoteImpact(m1, isBid, limit, opts1, nowSlot) == QuoteImpact(m2, isBid, limit, opts2, nowSlot)
    ensures BaseImpact(m1, isBid, limit, opts1, nowSlot) == BaseImpact(m2, isBid, limit, opts2, nowSlot)
  {
    var book := CrossedSide(m1, isBid);
    WalkReadsOnlySeats(SideWalker(m1, isBid, opts1, nowSlot, BaseLimit), m2, book, limit, Tally(0, 0));
    WalkReadsOnlySeats(SideWalker(m1, isBid, opts1, nowSlot, QuoteLimit), m2, book, limit, Tally(0, 0));
  }

  /** A live Global order whose owner cannot back the proposed fill is
      skipped and the walk goes on to the orders behind it, whichever side
      the taker is on and whichever axis is capped. The owner cannot back
      it when the global account is borrowed elsewhere, or when the fill
      needs more than the owner's balance, which is zero for an owner with
      no deposit at all. */
  lemma UnfundedGlobalOrderIsSkipped(w: Walker, g: RestingOrder, rest: seq<RestingOrder>, limit: u64, acc: Tally)
    requires Ready(w, [g] + rest) && Spent(w.kind, acc) <= limit
    requires w.global.Some? && IsGlobal(g) && !IsExpired(g, w.nowSlot) && g.traderIndex in w.market.seats
    requires ProposedFill(w, g, limit - Spent(w.kind, acc)).Ok?
    requires var t := ProposedFill(w, g, limit - Spent(w.kind, acc)).value;
             var owner := w.market.seats[g.traderIndex].trader;
             w.global.value.globalBorrow != Unborrowed
             || (if w.isBid then t.base else t.quote) > GetBalanceAtoms(w.global.value.global, owner)
    ensures Ready(w, rest)
    ensures Walk(w, [g] + rest, 0, limit, acc) == Walk(w, rest, 0, limit, acc)
  {
    assert forall o :: o in rest ==> o in [g] + rest;
    var remaining: u64 := limit - Spent(w.kind, acc);
    var t := ProposedFill(w, g, remaining).value;
    assert IsUnbackedGlobalOrder(w.market, g, w.isBid, w.global, t.base, t.quote);
    assert MatchOrder(w, g, remaining) == Ok(Skip);
    assert ([g] + rest)[1..] == rest;
    WalkHead(w, [g] + rest, limit, acc);
  }


  /** The price 2.0 quote atoms per base atom. */
  const PRICE_TWO: Price := Price(2 * D18)

  /** A live ask for 100 base atoms at price 2.0. */
  function AskAtTwo(kind: OrderType, traderIndex: DataIndex): RestingOrder {
    RestingOrder(PRICE_TWO, 100, 0, traderIndex, 0, false, kind, 0)
  }

  /** A bid taker capped at 50 base atoms against one ask of 100 at 2.0
      fills it partly and trades 100 quote atoms. */
  lemma PartialFillScenario(m: MarketValue, opts: (Option<GlobalTradeAccounts>, Option<GlobalTradeAccounts>), nowSlot: u32)
    requires MarketReady(m, opts) && m.asks == [AskAtTwo(Limit, 0)]
    ensures QuoteImpact(m, true, 50, opts, nowSlot) == Ok(100)
  {
    var w := SideWalker(m, true, opts, nowSlot, BaseLimit);
    var o := AskAtTwo(Limit, 0);
    RoundedQuotientUnique(o.price.inner * 50, D18, true, QuoteForBase(o.price, 50, true).value, 100);
    assert MatchOrder(w, o, 50) == Ok(Take(50, 100, false));
  }

  /** With a cap of 200 base atoms the one ask is taken whole: 200 quote
      atoms, with nothing signalling that the cap was not reached. */
  lemma ThinBookScenario(m: MarketValue, opts: (Option<GlobalTradeAccounts>, Option<GlobalTradeAccounts>), nowSlot: u32)
    requires MarketReady(m, opts) && m.asks == [AskAtTwo(Limit, 0)]
    ensures QuoteImpact(m, true, 200, opts, nowSlot) == Ok(200)
  {
    var w := SideWalker(m, true, opts, nowSlot, BaseLimit);
    var o := AskAtTwo(Limit, 0);
    RoundedQuotientUnique(o.price.inner * 100, D18, false, QuoteForBase(o.price, 100, false).value, 200);
    assert MatchOrder(w, o, 200) == Ok(Take(100, 200, true));
    WalkTakesAndContinues(w, [o], 0, 200, Tally(0, 0), 200, 100, 200, true, Tally(100, 200));
  }

  /** When the one ask is Global and no context is given, the impact is 0. */
  lemma GlobalWithoutContextScenario(m: MarketValue, nowSlot: u32, traderIndex: DataIndex)
    requires MarketReady(m, (None, None)) && m.asks == [AskAtTwo(Global, traderIndex)]
    ensures QuoteImpact(m, true, 50, (None, None), nowSlot) == Ok(0)
  {
  }

  /** An ask taker capped at 1 quote atom against a bid for 1 base atom at
      price 1.5: the base cap, rounded up, is 1 base atom, so the order
      counts as fully matched; its quote, rounded up too, is 2 atoms, and
      taking 2 from the 1 remaining fails. The base impact reports an
      arithmetic error rather than a fill. */
  lemma AskTakerOverdrawScenario(m: MarketValue, opts: (Option<GlobalTradeAccounts>, Option<GlobalTradeAccounts>), nowSlot: u32)
    requires MarketReady(m, opts)
    requires m.bids == [RestingOrder(Price(15 * D18 / 10), 1, 0, 0, 0, true, Limit, 0)]
    ensures BaseImpact(m, false, 1, opts, nowSlot) == Err(ArithmeticOverflow)
  {
    var w := SideWalker(m, false, opts, nowSlot, QuoteLimit);
    var o := m.bids[0];
    RoundedQuotientUnique(1 * D18, o.price.inner, true, BaseForQuote(o.price, 1, true).value, 1);
    RoundedQuotientUnique(o.price.inner * 1, D18, true, QuoteForBase(o.price, 1, true).value, 2);
    assert MatchOrder(w, o, 1) == Ok(Take(1, 2, true));
  }
}
