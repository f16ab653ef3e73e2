/** The two impact simulators: how much a taker would receive if it swept
    one side of the book, capped on the base axis (`impact_quote_atoms`) or
    on the quote axis (`impact_base_atoms`). Both walk the side the taker
    would cross in iteration order, skipping expired orders, stopping at a
    Global order they cannot service, skipping Global orders their owners
    cannot back, and clamping each fill to what remains of the cap.

    `Walk` is the reference definition of both walks; the two methods are the
    loops of the program, proved to compute it. */
module Impact {
  import opened Types
  import opened Wrappers
  import opened Quantities
  import opened RestingOrders
  import opened Accounts
  import opened GlobalLedger
  import opened Utils
  import opened Market

  /** Which axis the caller caps: base atoms for the quote impact, quote
      atoms for the base impact. */
  datatype LimitKind = BaseLimit | QuoteLimit

  /** Everything that stays fixed during one walk: the market, the taker's
      side, the global context for the side walked, the current slot and the
      capped axis. */
  datatype Walker = Walker(
    market: MarketValue,
    isBid: bool,
    global: Option<GlobalTradeAccounts>,
    nowSlot: u32,
    kind: LimitKind)

  /** What a walk has matched so far on each axis. */
  datatype Tally = Tally(base: nat, quote: nat)

  /** The outcome of meeting one resting order. */
  datatype Step =
    | Skip                                  // no fill, walk on
    | Stop                                  // no fill, end the walk
    | Take(base: u64, quote: u64, full: bool) // a fill; `full` when the whole order is taken

  /** The axis the walk's cap is spent on. */
  function Spent(kind: LimitKind, t: Tally): nat {
    if kind == BaseLimit then t.base else t.quote
  }

  /** The axis the simulator reports. */
  function Reported(kind: LimitKind, t: Tally): nat {
    if kind == BaseLimit then t.quote else t.base
  }

  /** The global ledger, if given, can be read, and the owner of every Global
      order on the book has a seat. */
  predicate Ready(w: Walker, book: seq<RestingOrder>) {
    Readable(w.global) && SeatsResolve(w.market, book)
  }

  /** The most base atoms the remaining cap lets the taker match against
      `o`: the remaining base atoms themselves, or the remaining quote
      atoms converted at the order's price, rounded in the taker's favour
      (up when the taker sells base, down when it buys). */
  function BaseCap(w: Walker, o: RestingOrder, remaining: u64): (r: Result<u64>)
    ensures w.kind == BaseLimit ==> r == Ok(remaining)
    ensures w.kind == QuoteLimit && r.Ok? && o.price.inner > 0 ==>
              IsRoundedQuotient(remaining * D18, o.price.inner, !w.isBid, r.value)
    ensures w.kind == QuoteLimit && o.price.inner == 0 ==> r == Ok(0)
    ensures r.Err? ==> r.error == PriceConversion
  {
    if w.kind == BaseLimit then Ok(remaining)
    else BaseForQuote(o.price, remaining, !w.isBid)
  }

  /** The fill the remaining cap allows against a live order `o`, before
      its owner's backing is checked: the resting size clamped to the cap,
      full when the cap covers the order, priced in quote atoms rounded in
      the taker's favour on a full fill (`is_bid != full`). */
  function ProposedFill(w: Walker, o: RestingOrder, remaining: u64): (r: Result<Step>)
    ensures BaseCap(w, o, remaining).Err? ==> r == Err(BaseCap(w, o, remaining).error)
    ensures r.Ok? ==>
              r.value.Take? && BaseCap(w, o, remaining).Ok?
              && r.value.base == Min(o.numBaseAtoms, BaseCap(w, o, remaining).value)
              && (r.value.full <==> BaseCap(w, o, remaining).value >= o.numBaseAtoms)
              && QuoteForBase(o.price, r.value.base, w.isBid != r.value.full) == Ok(r.value.quote)
    ensures r.Err? && BaseCap(w, o, remaining).Ok? ==>
              var cap := BaseCap(w, o, remaining).value;
              QuoteForBase(o.price, Min(o.numBaseAtoms, cap), w.isBid != (cap >= o.numBaseAtoms)).Err?
    ensures r.Err? ==> r.error == PriceConversion
    ensures r.Ok? && w.kind == BaseLimit ==> r.value.base <= remaining
  {
    var cap :- BaseCap(w, o, remaining);
    var matchedBase: u64 := Min(o.numBaseAtoms, cap);
    var full := cap >= o.numBaseAtoms;
    var matchedQuote :- QuoteForBase(o.price, matchedBase, w.isBid != full);
    Ok(Take(matchedBase, matchedQuote, full))
  }

  /** One iteration of either simulator against the resting order `o`: an
      expired order is skipped, a Global order without context stops the
      walk, and otherwise the proposed fill is taken unless the order is an
      unbacked Global order, which is skipped. */
  function MatchOrder(w: Walker, o: RestingOrder, remaining: u64): (r: Result<Step>)
    requires Readable(w.global)
    requires IsGlobal(o) && w.global.Some? ==> o.traderIndex in w.market.seats
    ensures IsExpired(o, w.nowSlot) ==> r == Ok(Skip)
    ensures r == Ok(Stop) <==> !IsExpired(o, w.nowSlot) && IsGlobal(o) && w.global.None?
    ensures r == Ok(Skip) ==> IsExpired(o, w.nowSlot) || (IsGlobal(o) && w.global.Some?)
    ensures r.Err? ==> r.error == PriceConversion
    ensures !IsExpired(o, w.nowSlot) && !(IsGlobal(o) && w.global.None?) ==>
              (r.Err? <==> ProposedFill(w, o, remaining).Err?)
              && (r.Ok? ==>
                    var t := ProposedFill(w, o, remaining).value;
                    (r.value == Skip <==> IsUnbackedGlobalOrder(w.market, o, w.isBid, w.global, t.base, t.quote))
                    && (r.value != Skip ==> r.value == t))
  {
    if IsExpired(o, w.nowSlot) then Ok(Skip)
    else if o.orderType == Global && w.global.None? then Ok(Stop)
    else
      var t :- ProposedFill(w, o, remaining);
      if IsUnbackedGlobalOrder(w.market, o, w.isBid, w.global, t.base, t.quote) then Ok(Skip)
      else Ok(t)
  }

  /** A fill against `o` clamps the resting size to the cap, is full exactly
      when the cap covers the order, prices its quote atoms rounded in the
      taker's favour on a full fill, and is backed by the order's owner. */
  lemma MatchOrderTake(w: Walker, o: RestingOrder, remaining: u64)
    requires Readable(w.global)
    requires IsGlobal(o) && w.global.Some? ==> o.traderIndex in w.market.seats
    requires MatchOrder(w, o, remaining).Ok? && MatchOrder(w, o, remaining).value.Take?
    ensures var t := MatchOrder(w, o, remaining).value;
            !IsExpired(o, w.nowSlot) && BaseCap(w, o, remaining).Ok?
            && t.base == Min(o.numBaseAtoms, BaseCap(w, o, remaining).value)
            && (t.full <==> BaseCap(w, o, remaining).value >= o.numBaseAtoms)
            && QuoteForBase(o.price, t.base, w.isBid != t.full) == Ok(t.quote)
            && !IsUnbackedGlobalOrder(w.market, o, w.isBid, w.global, t.base, t.quote)
            && (w.kind == BaseLimit ==> t.base <= remaining)
  {
  }

  /** What a walk does after meeting one order: end with a result, or walk
      on with a new tally. */
  datatype Continuation = Done(result: Result<Tally>) | Continue(acc: Tally)

  /** The effect of a fill of `matchedBase` base and `matchedQuote` quote
      atoms on a walk that has matched `acc` of cap `limit`. The reported
      total is checked for overflow; a full fill spends its atoms of the cap
      (checked too) and hands the walk on, a partial fill ends it, and the
      base impact also ends once the quote cap is used up exactly. */
  function AfterFill(kind: LimitKind, limit: u64, acc: Tally, matchedBase: u64, matchedQuote: u64, full: bool): (c: Continuation)
    requires Spent(kind, acc) <= limit
    ensures c.Continue? ==>
              c.acc == Tally(acc.base + matchedBase, acc.quote + matchedQuote)
              && Spent(kind, c.acc) <= limit && Reported(kind, c.acc) <= U64_MAX
    ensures c.Done? && c.result.Ok? ==>
              c.result.value == Tally(acc.base + matchedBase, acc.quote + matchedQuote)
              && Reported(kind, c.result.value) <= U64_MAX
    ensures c.Done? && c.result.Ok? && kind == BaseLimit && matchedBase <= limit - Spent(kind, acc) ==>
              c.result.value.base <= limit
    ensures c.Done? && c.result.Err? ==> c.result.error == ArithmeticOverflow
    // The stop rules, with `next` the tallies grown by the fill and `spent`
    // the fill's atoms on the capped axis.
    ensures var next := Tally(acc.base + matchedBase, acc.quote + matchedQuote);
            var spent := if kind == BaseLimit then matchedBase else matchedQuote;
            var remaining := limit - Spent(kind, acc);
            (Reported(kind, next) > U64_MAX ==> c == Done(Err(ArithmeticOverflow)))
            && (Reported(kind, next) <= U64_MAX ==>
                  (!full ==> c == Done(Ok(next)))
                  && (full && spent > remaining ==> c == Done(Err(ArithmeticOverflow)))
                  && (full && spent < remaining ==> c == Continue(next))
                  && (full && spent == remaining && kind == BaseLimit ==> c == Continue(next))
                  && (full && spent == remaining && kind == QuoteLimit ==> c == Done(Ok(next))))
  {
    var remaining := limit - Spent(kind, acc);
    var gained := if kind == BaseLimit then matchedQuote else matchedBase;
    if Reported(kind, acc) + gained > U64_MAX then Done(Err(ArithmeticOverflow))
    else
      var next := Tally(acc.base + matchedBase, acc.quote + matchedQuote);
      if !full then Done(Ok(next))
      else
        var spent := if kind == BaseLimit then matchedBase else matchedQuote;
        if spent > remaining then Done(Err(ArithmeticOverflow))
        else if kind == QuoteLimit && remaining - spent == 0 then Done(Ok(next))
        else Continue(next)
  }

  /** One iteration's effect on the walk, having matched `acc` of cap
      `limit`. */
  function Advance(w: Walker, o: RestingOrder, limit: u64, acc: Tally): (c: Continuation)
    requires Readable(w.global) && (IsGlobal(o) && w.global.Some? ==> o.traderIndex in w.market.seats)
    requires Spent(w.kind, acc) <= limit
    ensures c.Continue? ==> acc.base <= c.acc.base && acc.quote <= c.acc.quote && Spent(w.kind, c.acc) <= limit
    ensures c.Continue? && Reported(w.kind, acc) <= U64_MAX ==> Reported(w.kind, c.acc) <= U64_MAX
    ensures c.Done? && c.result.Ok? ==> acc.base <= c.result.value.base && acc.quote <= c.result.value.quote
    ensures c.Done? && c.result.Ok? && Reported(w.kind, acc) <= U64_MAX ==> Reported(w.kind, c.result.value) <= U64_MAX
    ensures c.Done? && c.result.Ok? && w.kind == BaseLimit ==> c.result.value.base <= limit
    ensures c.Done? && c.result.Err? ==> c.result.error == PriceConversion || c.result.error == ArithmeticOverflow
  {
    var remaining: u64 := limit - Spent(w.kind, acc);
    match MatchOrder(w, o, remaining)
    case Err(e) => Done(Err(e))
    case Ok(Skip) => Continue(acc)
    case Ok(Stop) => Done(Ok(acc))
    case Ok(Take(matchedBase, matchedQuote, full)) =>
      MatchOrderTake(w, o, remaining);
      assert w.kind == BaseLimit ==> matchedBase <= remaining;
      AfterFill(w.kind, limit, acc, matchedBase, matchedQuote, full)
  }

  /** The walk over `book` from position `i` with cap `limit`, having
      matched `acc` so far: each order in turn either ends the walk or hands
      it on. */
  function Walk(w: Walker, book: seq<RestingOrder>, i: nat, limit: u64, acc: Tally): (r: Result<Tally>)
    requires i <= |book| && Ready(w, book)
    requires Spent(w.kind, acc) <= limit
    ensures r.Ok? ==> acc.base <= r.value.base && acc.quote <= r.value.quote
    ensures r.Ok? && Reported(w.kind, acc) <= U64_MAX ==> Reported(w.kind, r.value) <= U64_MAX
    ensures r.Ok? && w.kind == BaseLimit ==> r.value.base <= limit
    ensures r.Err? ==> r.error == PriceConversion || r.error == ArithmeticOverflow
    decreases |book| - i
  {
    if i == |book| then Ok(acc)
    else
      assert book[i] in book;
      match Advance(w, book[i], limit, acc)
      case Done(result) => result
      case Continue(next) => Walk(w, book, i + 1, limit, next)
  }

  /** The order at position `i` of `book` can be met, with the seat its
      match needs resolved. */
  lemma ReadyAt(w: Walker, book: seq<RestingOrder>, i: nat)
    requires i < |book| && Ready(w, book)
    ensures Readable(w.global) && (IsGlobal(book[i]) && w.global.Some? ==> book[i].traderIndex in w.market.seats)
  {
    assert book[i] in book;
  }

  /** A walk from position `i` whose order hands the walk on is the walk
      from the next position. */
  lemma WalkContinues(w: Walker, book: seq<RestingOrder>, i: nat, limit: u64, acc: Tally, next: Tally)
    requires i < |book| && Ready(w, book) && Spent(w.kind, acc) <= limit
    requires Readable(w.global) && (IsGlobal(book[i]) && w.global.Some? ==> book[i].traderIndex in w.market.seats)
    requires Advance(w, book[i], limit, acc) == Continue(next)
    ensures Spent(w.kind, next) <= limit
    ensures Walk(w, book, i, limit, acc) == Walk(w, book, i + 1, limit, next)
  {
  }

  /** A walk from position `i` whose order ends the walk has that order's
      result. */
  lemma WalkEnds(w: Walker, book: seq<RestingOrder>, i: nat, limit: u64, acc: Tally, result: Result<Tally>)
    requires i < |book| && Ready(w, book) && Spent(w.kind, acc) <= limit
    requires Readable(w.global) && (IsGlobal(book[i]) && w.global.Some? ==> book[i].traderIndex in w.market.seats)
    requires Advance(w, book[i], limit, acc) == Done(result)
    ensures Walk(w, book, i, limit, acc) == result
  {
  }

  /** A walk from position `i` whose order is skipped is the walk from the
      next position with the same tally. */
  lemma WalkSkips(w: Walker, book: seq<RestingOrder>, i: nat, limit: u64, acc: Tally, remaining: u64)
    requires i < |book| && Ready(w, book) && Spent(w.kind, acc) <= limit
    requires remaining == limit - Spent(w.kind, acc)
    requires Readable(w.global) && (IsGlobal(book[i]) && w.global.Some? ==> book[i].traderIndex in w.market.seats)
    requires MatchOrder(w, book[i], remaining) == Ok(Skip)
    ensures Walk(w, book, i, limit, acc) == Walk(w, book, i + 1, limit, acc)
  {
    WalkContinues(w, book, i, limit, acc, acc);
  }

  /** A walk from position `i` whose order stops it, or fails to be priced,
      ends there. */
  lemma WalkHalts(w: Walker, book: seq<RestingOrder>, i: nat, limit: u64, acc: Tally, remaining: u64)
    requires i < |book| && Ready(w, book) && Spent(w.kind, acc) <= limit
    requires remaining == limit - Spent(w.kind, acc)
    requires Readable(w.global) && (IsGlobal(book[i]) && w.global.Some? ==> book[i].traderIndex in w.market.seats)
    requires MatchOrder(w, book[i], remaining) == Ok(Stop) || MatchOrder(w, book[i], remaining).Err?
    ensures MatchOrder(w, book[i], remaining) == Ok(Stop) ==> Walk(w, book, i, limit, acc) == Ok(acc)
    ensures MatchOrder(w, book[i], remaining).Err? ==>
              Walk(w, book, i, limit, acc) == Err(MatchOrder(w, book[i], remaining).error)
  {
    if MatchOrder(w, book[i], remaining) == Ok(Stop) {
      WalkEnds(w, book, i, limit, acc, Ok(acc));
    } else {
      WalkEnds(w, book, i, limit, acc, Err(MatchOrder(w, book[i], remaining).error));
    }
  }

  /** The walk from position `i`, whose order is filled and the fill ends
      the walk, has the result `AfterFill` gives. */
  lemma WalkTakesAndEnds(w: Walker, book: seq<RestingOrder>, i: nat, limit: u64, acc: Tally, remaining: u64,
                         matchedBase: u64, matchedQuote: u64, full: bool, result: Result<Tally>)
    requires i < |book| && Ready(w, book) && Spent(w.kind, acc) <= limit
    requires remaining == limit - Spent(w.kind, acc)
    requires Readable(w.global) && (IsGlobal(book[i]) && w.global.Some? ==> book[i].traderIndex in w.market.seats)
    requires MatchOrder(w, book[i], remaining) == Ok(Take(matchedBase, matchedQuote, full))
    requires AfterFill(w.kind, limit, acc, matchedBase, matchedQuote, full) == Done(result)
    ensures Walk(w, book, i, limit, acc) == result
  {
    WalkEnds(w, book, i, limit, acc, result);
  }

  /** The walk from position `i`, whose order is filled and the walk goes
      on, is the walk from the next position with the tally `AfterFill`
      gives. */
  lemma WalkTakesAndContinues(w: Walker, book: seq<RestingOrder>, i: nat, limit: u64, acc: Tally, remaining: u64,
                              matchedBase: u64, matchedQuote: u64, full: bool, next: Tally)
    requires i < |book| && Ready(w, book) && Spent(w.kind, acc) <= limit
    requires remaining == limit - Spent(w.kind, acc)
    requires Readable(w.global) && (IsGlobal(book[i]) && w.global.Some? ==> book[i].traderIndex in w.market.seats)
    requires MatchOrder(w, book[i], remaining) == Ok(Take(matchedBase, matchedQuote, full))
    requires AfterFill(w.kind, limit, acc, matchedBase, matchedQuote, full) == Continue(next)
    ensures Spent(w.kind, next) <= limit
    ensures Walk(w, book, i, limit, acc) == Walk(w, book, i + 1, limit, next)
  {
    WalkContinues(w, book, i, limit, acc, next);
  }

  /** The side a taker crosses and the global context used for it: a bid
      taker walks the asks with the first context, an ask taker the bids
      with the second. */
  function SideWalker(m: MarketValue, isBid: bool, opts: (Option<GlobalTradeAccounts>, Option<GlobalTradeAccounts>),
                      nowSlot: u32, kind: LimitKind): (w: Walker)
    ensures w.global == (if isBid then opts.0 else opts.1)
    ensures w.market == m && w.isBid == isBid && w.nowSlot == nowSlot && w.kind == kind
  {
    Walker(m, isBid, if isBid then opts.0 else opts.1, nowSlot, kind)
  }

  function CrossedSide(m: MarketValue, isBid: bool): (book: seq<RestingOrder>)
    ensures book == (if isBid then GetAsks(m).orders else GetBids(m).orders)
  {
    if isBid then GetAsks(m).orders else GetBids(m).orders
  }

  /** Both book sides and both contexts can be walked. */
  predicate MarketReady(m: MarketValue, opts: (Option<GlobalTradeAccounts>, Option<GlobalTradeAccounts>)) {
    Readable(opts.0) && Readable(opts.1) && SeatsResolve(m, m.bids) && SeatsResolve(m, m.asks)
  }

  /** The simulator's answer from a walk's outcome: the reported axis. */
  function Report(kind: LimitKind, outcome: Result<Tally>): (r: Result<u64>)
    requires outcome.Ok? ==> Reported(kind, outcome.value) <= U64_MAX
    ensures r.Ok? <==> outcome.Ok?
    ensures r.Ok? ==> r.value == Reported(kind, outcome.value)
    ensures r.Err? ==> r.error == outcome.error
  {
    match outcome
    case Ok(t) => Ok(Reported(kind, t))
    case Err(e) => Err(e)
  }

  /** The quote impact as a value: the quote atoms of the walk over the
      crossed side capped at `limitBaseAtoms` base atoms. */
  function QuoteImpact(m: MarketValue, isBid: bool, limitBaseAtoms: u64,
                       opts: (Option<GlobalTradeAccounts>, Option<GlobalTradeAccounts>), nowSlot: u32): (r: Result<u64>)
    requires MarketReady(m, opts)
    ensures var outcome := Walk(SideWalker(m, isBid, opts, nowSlot, BaseLimit), CrossedSide(m, isBid), 0, limitBaseAtoms, Tally(0, 0));
            (r.Ok? <==> outcome.Ok?) && (r.Ok? ==> r.value == outcome.value.quote)
  {
    var w := SideWalker(m, isBid, opts, nowSlot, BaseLimit);
    Report(BaseLimit, Walk(w, CrossedSide(m, isBid), 0, limitBaseAtoms, Tally(0, 0)))
  }

  /** The base impact as a value: the base atoms of the walk over the
      crossed side capped at `limitQuoteAtoms` quote atoms. */
  function BaseImpact(m: MarketValue, isBid: bool, limitQuoteAtoms: u64,
                      opts: (Option<GlobalTradeAccounts>, Option<GlobalTradeAccounts>), nowSlot: u32): (r: Result<u64>)
    requires MarketReady(m, opts)
    ensures var outcome := Walk(SideWalker(m, isBid, opts, nowSlot, QuoteLimit), CrossedSide(m, isBid), 0, limitQuoteAtoms, Tally(0, 0));
            (r.Ok? <==> outcome.Ok?) && (r.Ok? ==> r.value == outcome.value.base)
  {
    var w := SideWalker(m, isBid, opts, nowSlot, QuoteLimit);
    Report(QuoteLimit, Walk(w, CrossedSide(m, isBid), 0, limitQuoteAtoms, Tally(0, 0)))
  }

  /** One pass of the loop of `impact_quote_atoms_with_slot`, over the
      order at position `i` with `totalMatchedQuoteAtoms` matched so far and
      `remainingBaseAtoms` of the cap left. `halt` is the value the simulator
      returns when this pass ends the walk (a `break` or an error); otherwise
      the new totals go on to the next order. */
  method QuoteImpactPass(w: Walker, book: seq<RestingOrder>, i: nat, limitBaseAtoms: u64,
                         totalMatchedQuoteAtoms: u64, remainingBaseAtoms: u64, ghost countedBase: nat)
    returns (halt: Option<Result<u64>>, total: u64, remaining: u64, ghost counted: nat)
    requires w.kind == BaseLimit && i < |book| && Ready(w, book)
    requires countedBase + remainingBaseAtoms == limitBaseAtoms
    ensures var walk := Walk(w, book, i, limitBaseAtoms, Tally(countedBase, totalMatchedQuoteAtoms));
            (halt.Some? ==> halt.value == Report(BaseLimit, walk))
            && (halt.None? ==> counted + remaining == limitBaseAtoms
                               && walk == Walk(w, book, i + 1, limitBaseAtoms, Tally(counted, total)))
  {
    var o := book[i];
    ghost var acc := Tally(countedBase, totalMatchedQuoteAtoms);
    ReadyAt(w, book, i);
    total, remaining, counted := totalMatchedQuoteAtoms, remainingBaseAtoms, countedBase;
    var step := MatchOrder(w, o, remaining);
    if step.Err? {
      WalkHalts(w, book, i, limitBaseAtoms, acc, remaining);
      return Some(Err(step.error)), total, remaining, counted;
    }
    match step.value
    case Skip =>
      WalkSkips(w, book, i, limitBaseAtoms, acc, remaining);
      return None, total, remaining, counted;
    case Stop =>
      WalkHalts(w, book, i, limitBaseAtoms, acc, remaining);
      return Some(Ok(total)), total, remaining, counted;
    case Take(matchedBase, matchedQuote, full) =>
      halt, total, remaining, counted :=
        QuoteImpactFill(limitBaseAtoms, totalMatchedQuoteAtoms, remainingBaseAtoms, countedBase,
                        matchedBase, matchedQuote, full);
      match AfterFill(BaseLimit, limitBaseAtoms, acc, matchedBase, matchedQuote, full)
      case Done(r) =>
        WalkTakesAndEnds(w, book, i, limitBaseAtoms, acc, remainingBaseAtoms, matchedBase, matchedQuote, full, r);
      case Continue(next) =>
        WalkTakesAndContinues(w, book, i, limitBaseAtoms, acc, remainingBaseAtoms, matchedBase, matchedQuote, full,
                              next);
  }

  /** The fill part of one pass of `impact_quote_atoms_with_slot`: add the
      matched quote atoms to the total (checked), end the walk on a partial
      fill, and otherwise spend the matched base atoms of the cap (checked). */
  method QuoteImpactFill(limitBaseAtoms: u64, totalMatchedQuoteAtoms: u64, remainingBaseAtoms: u64,
                         ghost countedBase: nat, matchedBase: u64, matchedQuote: u64, full: bool)
    returns (halt: Option<Result<u64>>, total: u64, remaining: u64, ghost counted: nat)
    requires countedBase + remainingBaseAtoms == limitBaseAtoms
    ensures var c := AfterFill(BaseLimit, limitBaseAtoms, Tally(countedBase, totalMatchedQuoteAtoms),
                               matchedBase, matchedQuote, full);
            (halt.Some? ==> c.Done? && halt.value == Report(BaseLimit, c.result))
            && (halt.None? ==> c == Continue(Tally(counted, total)) && counted + remaining == limitBaseAtoms)
  {
    total, remaining, counted := totalMatchedQuoteAtoms, remainingBaseAtoms, countedBase;
    if total + matchedQuote > U64_MAX {
      return Some(Err(ArithmeticOverflow)), total, remaining, counted;
    }
    total := total + matchedQuote;
    counted := counted + matchedBase;
    if !full {
      return Some(Ok(total)), total, remaining, counted;
    }
    if matchedBase > remaining {
      return Some(Err(ArithmeticOverflow)), total, remaining, counted;
    }
    remaining := remaining - matchedBase;
    return None, total, remaining, counted;
  }

  /** `impact_quote_atoms_with_slot`: the quote atoms a taker would trade by
      sweeping the crossed side up to `limitBaseAtoms` base atoms. */
  method ImpactQuoteAtomsWithSlot(
    m: MarketValue,
    isBid: bool,
    limitBaseAtoms: u64,
    opts: (Option<GlobalTradeAccounts>, Option<GlobalTradeAccounts>),
    nowSlot: u32) returns (r: Result<u64>)
    requires MarketReady(m, opts)
    ensures r == QuoteImpact(m, isBid, limitBaseAtoms, opts, nowSlot)
  {
    var book := if isBid then GetAsks(m).orders else GetBids(m).orders;
    var requiredGlobal := if isBid then opts.0 else opts.1;
    var w := Walker(m, isBid, requiredGlobal, nowSlot, BaseLimit);
    ghost var outcome := Walk(w, book, 0, limitBaseAtoms, Tally(0, 0));
    assert QuoteImpact(m, isBid, limitBaseAtoms, opts, nowSlot) == Report(BaseLimit, outcome);

    var totalMatchedQuoteAtoms: u64 := 0;
    var remainingBaseAtoms: u64 := limitBaseAtoms;
    ghost var countedBase: nat := 0;
    var i := 0;
    while i < |book|
      invariant 0 <= i <= |book|
      invariant countedBase + remainingBaseAtoms == limitBaseAtoms
      invariant outcome == Walk(w, book, i, limitBaseAtoms, Tally(countedBase, totalMatchedQuoteAtoms))
    {
      var halt;
      halt, totalMatchedQuoteAtoms, remainingBaseAtoms, countedBase :=
        QuoteImpactPass(w, book, i, limitBaseAtoms, totalMatchedQuoteAtoms, remainingBaseAtoms, countedBase);
      if halt.Some? {
        return halt.value;
      }
      assert countedBase <= limitBaseAtoms;
      assert outcome == Walk(w, book, i + 1, limitBaseAtoms, Tally(countedBase, totalMatchedQuoteAtoms));
      i := i + 1;
    }
    return Ok(totalMatchedQuoteAtoms);
  }

  /** One pass of the loop of `impact_base_atoms_with_slot`, over the order
      at position `i` with `totalMatchedBaseAtoms` matched so far and
      `remainingQuoteAtoms` of the cap left; `halt` as for the quote
      impact. */
  method BaseImpactPass(w: Walker, book: seq<RestingOrder>, i: nat, limitQuoteAtoms: u64,
                        totalMatchedBaseAtoms: u64, remainingQuoteAtoms: u64, ghost countedQuote: nat)
    returns (halt: Option<Result<u64>>, total: u64, remaining: u64, ghost counted: nat)
    requires w.kind == QuoteLimit && i < |book| && Ready(w, book)
    requires countedQuote + remainingQuoteAtoms == limitQuoteAtoms
    ensures var walk := Walk(w, book, i, limitQuoteAtoms, Tally(totalMatchedBaseAtoms, countedQuote));
            (halt.Some? ==> halt.value == Report(QuoteLimit, walk))
            && (halt.None? ==> counted + remaining == limitQuoteAtoms
                               && walk == Walk(w, book, i + 1, limitQuoteAtoms, Tally(total, counted)))
  {
    var o := book[i];
    ghost var acc := Tally(totalMatchedBaseAtoms, countedQuote);
    ReadyAt(w, book, i);
    total, remaining, counted := totalMatchedBaseAtoms, remainingQuoteAtoms, countedQuote;
    var step := MatchOrder(w, o, remaining);
    if step.Err? {
      WalkHalts(w, book, i, limitQuoteAtoms, acc, remaining);
      return Some(Err(step.error)), total, remaining, counted;
    }
    match step.value
    case Skip =>
      WalkSkips(w, book, i, limitQuoteAtoms, acc, remaining);
      return None, total, remaining, counted;
    case Stop =>
      WalkHalts(w, book, i, limitQuoteAtoms, acc, remaining);
      return Some(Ok(total)), total, remaining, counted;
    case Take(matchedBase, matchedQuote, full) =>
      halt, total, remaining, counted :=
        BaseImpactFill(limitQuoteAtoms, totalMatchedBaseAtoms, remainingQuoteAtoms, countedQuote,
                       matchedBase, matchedQuote, full);
      match AfterFill(QuoteLimit, limitQuoteAtoms, acc, matchedBase, matchedQuote, full)
      case Done(r) =>
        WalkTakesAndEnds(w, book, i, limitQuoteAtoms, acc, remainingQuoteAtoms, matchedBase, matchedQuote, full, r);
      case Continue(next) =>
        WalkTakesAndContinues(w, book, i, limitQuoteAtoms, acc, remainingQuoteAtoms, matchedBase, matchedQuote, full,
                              next);
  }

  /** The fill part of one pass of `impact_base_atoms_with_slot`: add the
      matched base atoms to the total (checked), end the walk on a partial
      fill, and otherwise spend the matched quote atoms of the cap (checked),
      ending the walk once the cap is used up exactly. */
  method BaseImpactFill(limitQuoteAtoms: u64, totalMatchedBaseAtoms: u64, remainingQuoteAtoms: u64,
                        ghost countedQuote: nat, matchedBase: u64, matchedQuote: u64, full: bool)
    returns (halt: Option<Result<u64>>, total: u64, remaining: u64, ghost counted: nat)
    requires countedQuote + remainingQuoteAtoms == limitQuoteAtoms
    ensures var c := AfterFill(QuoteLimit, limitQuoteAtoms, Tally(totalMatchedBaseAtoms, countedQuote),
                               matchedBase, matchedQuote, full);
            (halt.Some? ==> c.Done? && halt.value == Report(QuoteLimit, c.result))
            && (halt.None? ==> c == Continue(Tally(total, counted)) && counted + remaining == limitQuoteAtoms)
  {
    total, remaining, counted := totalMatchedBaseAtoms, remainingQuoteAtoms, countedQuote;
    if total + matchedBase > U64_MAX {
      return Some(Err(ArithmeticOverflow)), total, remaining, counted;
    }
    total := total + matchedBase;
    counted := counted + matchedQuote;
    if !full {
      return Some(Ok(total)), total, remaining, counted;
    }
    if matchedQuote > remaining {
      return Some(Err(ArithmeticOverflow)), total, remaining, counted;
    }
    remaining := remaining - matchedQuote;
    if remaining == 0 {
      return Some(Ok(total)), total, remaining, counted;
    }
    return None, total, remaining, counted;
  }

  /** `impact_base_atoms_with_slot`: the base atoms a taker would trade by
      sweeping the crossed side up to `limitQuoteAtoms` quote atoms. */
  method ImpactBaseAtomsWithSlot(
    m: MarketValue,
    isBid: bool,
    limitQuoteAtoms: u64,
    opts: (Option<GlobalTradeAccounts>, Option<GlobalTradeAccounts>),
    nowSlot: u32) returns (r: Result<u64>)
    requires MarketReady(m, opts)
    ensures r == BaseImpact(m, isBid, limitQuoteAtoms, opts, nowSlot)
  {
    var book := if isBid then GetAsks(m).orders else GetBids(m).orders;
    var requiredGlobal := if isBid then opts.0 else opts.1;
    var w := Walker(m, isBid, requiredGlobal, nowSlot, QuoteLimit);
    ghost var outcome := Walk(w, book, 0, limitQuoteAtoms, Tally(0, 0));
    assert BaseImpact(m, isBid, limitQuoteAtoms, opts, nowSlot) == Report(QuoteLimit, outcome);

    var totalMatchedBaseAtoms: u64 := 0;
    var remainingQuoteAtoms: u64 := limitQuoteAtoms;
    ghost var countedQuote: nat := 0;
    var i := 0;
    while i < |book|
      invariant 0 <= i <= |book|
      invariant countedQuote + remainingQuoteAtoms == limitQuoteAtoms
      invariant outcome == Walk(w, book, i, limitQuoteAtoms, Tally(totalMatchedBaseAtoms, countedQuote))
    {
      var halt;
      halt, totalMatchedBaseAtoms, remainingQuoteAtoms, countedQuote :=
        BaseImpactPass(w, book, i, limitQuoteAtoms, totalMatchedBaseAtoms, remainingQuoteAtoms, countedQuote);
      if halt.Some? {
        return halt.value;
      }
      assert countedQuote <= limitQuoteAtoms;
      assert outcome == Walk(w, book, i + 1, limitQuoteAtoms, Tally(totalMatchedBaseAtoms, countedQuote));
      i := i + 1;
    }
    return Ok(totalMatchedBaseAtoms);
  }
}
