# Manifest order book, read side

A Dafny model of the read side of the Manifest market, an on-chain limit
order book. It covers:

- the two impact simulators, `impact_quote_atoms_with_slot` and
  `impact_base_atoms_with_slot`. Each walks the book side a taker would
  cross and reports how much the taker would receive within a cap;
- the resting-order value type. This covers its order types, the expiration
  rule, the re-quote price of reverse orders, checked size updates, and the
  comparator and equality a book side is keyed by;
- the seat and global-ledger payloads. This covers their comparators, empty
  constructors and the balance lookup. An absent trader has balance zero;
- the backing check for Global orders;
- the validators for accounts this program owns (`ManifestAccountInfo`) and
  for SPL Token accounts (`TokenAccountInfo`).

Modules follow the source files:

- `RestingOrders`: `resting_order.rs`.
- `ClaimedSeats`: `claimed_seat.rs`.
- `GlobalLedger`: `global.rs`.
- `Utils`: `utils.rs`.
- `Market`: `market.rs`, minus the simulators.
- `Impact` and `ImpactProperties`: the simulators.
- `ManifestChecker`: `manifest_checker.rs`.
- `TokenCheckers`: `token_checkers.rs`.
- Shared support: `Types`, `Wrappers`, `Constants`, `Accounts` and
  `Quantities`.

How the model is built:

- **Book sides.** A book side is the sequence its red-black tree iterates,
  best order first. The tree itself lives in a library outside this
  repository.
- **Errors and panics.** Errors are `Result` values. A panic (a failed
  `assert!`, an out-of-range slice or split, an `unwrap` of an error) is
  the error `Panic`.
- **The impact walk.** Both simulators are specified by one function,
  `Impact.Walk`. It is parameterised by the capped axis: base atoms for the
  quote impact, quote atoms for the base impact.
- **The simulator methods.** They are the source's loops. Each is proved
  to compute `Walk`.
  - One pass of each loop is a method of its own (`QuoteImpactPass`,
    `BaseImpactPass`). It returns the value the simulator returns when the
    pass ends the walk, and the new totals otherwise.
  - The bookkeeping after a fill is a method of its own as well
    (`QuoteImpactFill`, `BaseImpactFill`).
- **Properties.** `ImpactProperties` proves the rules of the loop body
  about the whole walk.

Two behaviours of the code are easy to misread:

- **The order comparator.** Bids compare in ascending price order and asks
  in descending price order (`resting_order.rs:171-183`). That way the
  tree's maximum is the best price on both sides.
- **A used-up cap.** Only the base impact stops when its remaining cap
  reaches exactly zero (`market.rs:397-400`).
  - The quote impact with no base atoms left walks on. Whole orders of size
    zero can still be filled, and the walk ends at the first order it can
    fill only partly.
  - `ImpactProperties.ExhaustedBaseCapAddsNothing` proves that this extra
    walking adds nothing.
- **Deposit comparison and equality.** The deposit comparator looks at
  balances, and deposit equality looks at traders (`global.rs:145-160`).
  The two disagree: two deposits of one trader with different balances are
  equal but do not compare Equal. The model keeps both as written.

## Model

| member | source | states |
|---|---|---|
| Impact.SideWalker | sdk/src/state/market.rs:207-211 | a bid taker uses the first global context, an ask taker the second; `ImpactProperties.ImpactReadsCrossedSideOnly` shows the simulators read no other context |
| Impact.CrossedSide | sdk/src/state/market.rs:202-206 | a bid taker walks the asks, an ask taker the bids; `ImpactProperties.ImpactReadsCrossedSideOnly` shows the simulators read no other side |
| Impact.BaseCap | sdk/src/state/market.rs:362-363 | the base atoms a fill may take: the remaining base atoms under a base cap; under a quote cap, the remaining quote atoms converted at the order's price, rounded up exactly when the taker sells; 0 at price 0; conversion failures are PriceConversion |
| Impact.ProposedFill | sdk/src/state/market.rs:228-238 | the fill the cap allows before backing is checked: min(resting, cap) base atoms, full iff the cap covers the order, quote atoms rounded up iff `is_bid != full`; it fails, with PriceConversion, exactly when one of the two conversions fails |
| Impact.MatchOrder | sdk/src/state/market.rs:215-249 | an expired order is skipped; a live Global order without context stops the walk, and that is the only way to stop; otherwise the result fails iff the proposed fill does, the order is skipped iff it is an unbacked Global order, and the proposed fill is taken otherwise |
| Impact.MatchOrderTake | sdk/src/state/market.rs:228-249 | a fill takes min(resting, cap) base atoms; it is full iff the cap covers the order; its quote atoms are rounded up iff `is_bid != full`; its owner backs it; under a base cap it never exceeds the remaining atoms |
| Impact.AfterFill | sdk/src/state/market.rs:388-400 | the stop rules: a reported total past u64 is ArithmeticOverflow; a partial fill ends the walk with the grown totals; a full fill spending more than the remaining cap is ArithmeticOverflow; a full fill spending less hands the walk on; one spending exactly the rest hands it on under a base cap and ends it under a quote cap |
| Impact.Advance | sdk/src/state/market.rs:215-262 | one order never lowers either tally, never overspends the cap, and keeps the reported total within u64 |
| Impact.Walk | sdk/src/state/market.rs:215-262 | a walk's tallies only grow; the reported total stays within u64; under a base cap the base atoms taken never exceed the limit; the only errors are PriceConversion and ArithmeticOverflow |
| Impact.WalkSkips | sdk/src/state/market.rs:240-249 | a skipped order leaves the totals and the remaining cap unchanged, and the walk goes on to the next order |
| Impact.WalkHalts | sdk/src/state/market.rs:221-224 | a stop ends the walk with exactly the totals before it; a conversion failure ends it with that error |
| Impact.WalkContinues | sdk/src/state/market.rs:215-262 | an order after which the walk goes on leaves the cap within bounds, and the outcome is that of the rest of the book from the new totals |
| Impact.WalkEnds | sdk/src/state/market.rs:215-262 | an order that ends the walk decides its outcome |
| Impact.WalkTakesAndEnds | sdk/src/state/market.rs:251-259 | a fill that ends the walk decides its outcome as `AfterFill` says |
| Impact.WalkTakesAndContinues | sdk/src/state/market.rs:251-259 | a full fill that keeps the walk going hands the rest of the book the totals grown by the fill |
| Impact.Report | sdk/src/state/market.rs:260-266 | the simulator answers with the reported axis of a successful walk and passes its error on |
| Impact.QuoteImpact | sdk/src/state/market.rs:195-267 | the quote impact succeeds iff the walk over the crossed side under a base cap does, and is then the walk's quote atoms |
| Impact.BaseImpact | sdk/src/state/market.rs:322-408 | the base impact succeeds iff the walk over the crossed side under a quote cap does, and is then the walk's base atoms |
| Impact.QuoteImpactFill | sdk/src/state/market.rs:251-259 | the fill bookkeeping of the quote impact is exactly `AfterFill` under a base cap, and keeps counted base plus remaining equal to the limit |
| Impact.QuoteImpactPass | sdk/src/state/market.rs:215-260 | one pass either returns the simulator's final answer for the walk from this order, or hands on totals whose walk from the next order has the same outcome; counted base plus remaining stays equal to the limit |
| Impact.ImpactQuoteAtomsWithSlot | sdk/src/state/market.rs:195-267 | the simulator returns exactly the quote atoms of the walk over the crossed side capped at `limit_base_atoms` |
| Impact.BaseImpactFill | sdk/src/state/market.rs:388-400 | the fill bookkeeping of the base impact is exactly `AfterFill` under a quote cap: a checked add, a stop on a partial fill, a checked subtraction, and a stop when the quote cap is used up exactly |
| Impact.BaseImpactPass | sdk/src/state/market.rs:343-401 | as for the quote impact, with counted quote plus remaining equal to the limit |
| Impact.ImpactBaseAtomsWithSlot | sdk/src/state/market.rs:322-408 | the simulator returns exactly the base atoms of the walk over the crossed side capped at `limit_quote_atoms` |
| ImpactProperties.WalkShift | sdk/src/state/market.rs:215 | the walk from position i is the walk over the orders from i on |
| ImpactProperties.WalkIgnoresExpired | sdk/src/state/market.rs:217-219 | walking a book gives exactly what walking its unexpired orders gives |
| ImpactProperties.WalkStopsAtUnservicedGlobal | sdk/src/state/market.rs:221-224 | without context, the walk's outcome is exactly that of the orders before the first live Global order |
| ImpactProperties.UnservicedGlobalFirstMatchesNothing | sdk/src/state/market.rs:221-224 | when that Global order is the first live one, the walk matches nothing |
| ImpactProperties.BaseLimitTakesUpToCap | sdk/src/state/market.rs:228-259 | on live orders that are not Global, the quote impact takes min(limit, total resting base atoms) base atoms |
| ImpactProperties.BaseLimitAdvance | sdk/src/state/market.rs:228-259 | under a base cap, one such order is taken whole, or up to the cap, which ends the walk |
| ImpactProperties.QuoteLimitAdvance | sdk/src/state/market.rs:362-400 | under a quote cap, a live order that is not Global is taken whole and the walk goes on only while quote atoms remain; otherwise the walk ends after a partial fill or with the quote cap used up exactly |
| ImpactProperties.QuoteLimitTakesAtMostBook | sdk/src/state/market.rs:322-408 | on live orders that are not Global, the base impact never takes more base atoms than the book holds |
| ImpactProperties.ExhaustedBaseCapAddsNothing | sdk/src/state/market.rs:251-259 | once the base cap is used up, the rest of the walk adds nothing to either total |
| ImpactProperties.ExhaustedBaseCapAdvance | sdk/src/state/market.rs:228-259 | with no base atoms left, one order matches nothing |
| ImpactProperties.BidTakerStepWithinRemaining | sdk/src/state/market.rs:362-375 | a bid taker under a quote cap never matches more quote atoms at one order than it has left |
| ImpactProperties.BidTakerAdvanceWithinLimit | sdk/src/state/market.rs:388-400 | a bid taker's walk that ends at one order has spent no more quote atoms than its cap |
| ImpactProperties.BidTakerQuoteWithinLimit | sdk/src/state/market.rs:322-408 | a bid taker's base impact never spends more quote atoms than its cap |
| ImpactProperties.MatchOrderReadsOnlySeats | sdk/src/state/market.rs:287-314 | meeting an order reads the market only through its seats |
| ImpactProperties.WalkReadsOnlySeats | sdk/src/state/market.rs:215-262 | markets with the same seats walk a book alike |
| ImpactProperties.ImpactReadsCrossedSideOnly | sdk/src/state/market.rs:202-211 | both simulators depend only on the crossed side, its context and the seats |
| ImpactProperties.UnfundedGlobalOrderIsSkipped | sdk/src/state/market.rs:240-249 | for either taker side and either cap, a live Global order is skipped, and the walk goes on to the orders behind it, when the global account is borrowed or its owner's balance (zero without a deposit) is below the atoms the fill needs |
| ImpactProperties.PartialFillScenario | sdk/src/state/market.rs:251-255 | a bid for 50 base atoms against an ask of 100 at 2.0 trades 100 quote atoms |
| ImpactProperties.ThinBookScenario | sdk/src/state/market.rs:263-265 | a cap of 200 base atoms against that one ask trades 200 quote atoms, without signalling the shortfall |
| ImpactProperties.GlobalWithoutContextScenario | sdk/src/state/market.rs:221-224 | a lone Global ask and no context give 0 |
| ImpactProperties.AskTakerOverdrawScenario | sdk/src/state/market.rs:394-395 | an ask taker with 1 quote atom against a bid for 1 base atom at 1.5 fails with ArithmeticOverflow |
| Market.VerifyDiscriminant | sdk/src/state/market.rs:91-100 | succeeds iff the discriminant is the market's, otherwise InvalidAccountData |
| Market.GetBids | sdk/src/state/market.rs:269-276 | the bid side, rooted and started at the header's bid indices |
| Market.GetAsks | sdk/src/state/market.rs:278-285 | the ask side, rooted and started at the header's ask indices |
| Market.IterationIsPricePriority | sdk/src/state/resting_order.rs:171-183 | iterating a side meets bids from the highest price down and asks from the lowest price up |
| Market.HasFreeBlock | sdk/src/state/market.rs:178-182 | holds iff the free-list head is not NIL |
| Market.HasTwoFreeBlocks | sdk/src/state/market.rs:184-193 | holds iff the head is not NIL and links to a next block |
| Market.FreeBlockCount | sdk/src/state/market.rs:178-193 | the two queries answer "at least one" and "at least two" free blocks |
| Market.GetTraderKeyByIndex | sdk/src/state/market.rs:316-320 | the trader of the seat at the index |
| Market.IsUnbackedGlobalOrder | sdk/src/state/market.rs:287-314 | only Global orders are unbacked: always without context, otherwise iff the owner cannot back the matched base atoms (bid taker) or matched quote atoms (ask taker) |
| Market.UnbackedGlobalOrderByDeposit | sdk/src/state/market.rs:287-314 | an owner absent from the ledger backs no nonzero fill; a deposit covering the fill on an unborrowed ledger backs it |
| RestingOrders.New | sdk/src/state/resting_order.rs:63-89 | fails (a panic) iff the type is reversible and the order has an expiration slot; otherwise stores the fields unchanged with zero spread, and a reversible order never expires |
| RestingOrders.ExpirationIsPermanent | sdk/src/state/resting_order.rs:151-153 | an expired order stays expired at later slots; slot 0 never expires |
| RestingOrders.SpreadDenominator | sdk/src/state/resting_order.rs:120-124 | the spread unit exceeds any u16 spread, so `base - spread` is positive |
| RestingOrders.ReversePrice | sdk/src/state/resting_order.rs:119-137 | the price unchanged for other types; for a bid, price × base / (base − spread) rounded down; for an ask, price × (base − spread) / base rounded up |
| RestingOrders.ReversePriceConservative | sdk/src/state/resting_order.rs:126-136 | a bid re-quotes at or above its price, an ask at or below its price, and an ask's re-quote never fails |
| RestingOrders.ReversePriceZeroSpread | sdk/src/state/resting_order.rs:119-137 | with zero spread the re-quote is the order's own price |
| RestingOrders.ReversePriceRoundTrip | sdk/src/state/resting_order.rs:126-136 | re-quoting a bid and then its ask lands at or below the original bid price |
| RestingOrders.ReduceOrder | sdk/src/state/resting_order.rs:159-162 | succeeds iff the size covers the amount, and then subtracts it and changes nothing else |
| RestingOrders.IncreaseOrder | sdk/src/state/resting_order.rs:165-168 | succeeds iff the sum fits in u64, and then adds it and changes nothing else |
| RestingOrders.ReduceUndoesIncrease | sdk/src/state/resting_order.rs:159-168 | reducing by what was just added restores the order |
| RestingOrders.RestingOrderSlot.Reduce | sdk/src/state/resting_order.rs:159-162 | the in-place reduce: the stored order becomes `ReduceOrder`'s result, or is left unchanged on failure |
| RestingOrders.RestingOrderSlot.Increase | sdk/src/state/resting_order.rs:165-168 | the in-place increase, likewise |
| RestingOrders.RestingOrderSlot.SetReverseSpread | sdk/src/state/resting_order.rs:143-145 | only the spread changes |
| RestingOrders.Cmp | sdk/src/state/resting_order.rs:171-183 | Equal iff the prices are equal; Greater iff the price is better for the side |
| RestingOrders.CmpAntisymmetric | sdk/src/state/resting_order.rs:171-189 | swapping the operands reverses the comparison |
| RestingOrders.Eq | sdk/src/state/resting_order.rs:191-206 | false unless trader and type agree; then equal prices, or for reversible types prices at most one unit apart |
| RestingOrders.EqAgreesWithCmp | sdk/src/state/resting_order.rs:191-206 | `eq` is symmetric, and for non-reversible same-side orders of one trader and type it is `cmp == Equal` |
| ClaimedSeats.NewEmpty | sdk/src/state/claimed_seat.rs:24-30 | the trader's seat with zero balances and zero volume |
| ClaimedSeats.Cmp | sdk/src/state/claimed_seat.rs:32-36 | Equal iff the traders are equal |
| ClaimedSeats.CmpIsTotalOrder | sdk/src/state/claimed_seat.rs:32-48 | the comparator is antisymmetric and transitive, and Equal iff `eq` |
| GlobalLedger.NewEmpty | sdk/src/state/global.rs:91-107 | the global discriminant, every tree and free-list index NIL, no bytes allocated, no seats claimed |
| GlobalLedger.VerifyDiscriminant | sdk/src/state/global.rs:119-131 | succeeds iff the discriminant is the global one, otherwise InvalidAccountData |
| GlobalLedger.CmpDeposit | sdk/src/state/global.rs:145-150 | deposits compare reversed on balance: Less iff the balance is larger |
| GlobalLedger.TreeMaxIsSmallestBalance | sdk/src/state/global.rs:145-150 | the deposit tree's maximum holds the smallest balance |
| GlobalLedger.CmpTrader | sdk/src/state/global.rs:190-194 | Equal iff the traders are equal |
| GlobalLedger.LookupTrader | sdk/src/state/global.rs:219-220 | finds an entry equal to the probe by trader, whatever the probe's deposit index, or reports that none exists |
| GlobalLedger.GetGlobalDeposit | sdk/src/state/global.rs:212-228 | none iff the trader has no entry; otherwise the deposit that an entry of the trader links to |
| GlobalLedger.GetBalanceAtoms | sdk/src/state/global.rs:41-50 | an absent trader has balance zero |
| GlobalLedger.BalanceOfPresentTrader | sdk/src/state/global.rs:41-50 | a present trader has exactly its linked deposit's balance |
| Utils.CanBackOrder | sdk/src/utils.rs:28-48 | false without a bundle or while the global data is borrowed; otherwise true iff the desired atoms are at most the trader's balance |
| Utils.AbsentTraderBacksOnlyZero | sdk/src/utils.rs:45-47 | an absent trader backs exactly the amount 0 |
| Utils.PresentTraderBacking | sdk/src/utils.rs:43-47 | a present trader backs exactly the amounts up to its deposit's balance |
| Utils.CanBackOrderMonotone | sdk/src/utils.rs:45-47 | whatever backs an amount backs less |
| Utils.GetMutDynamicAccount | sdk/src/utils.rs:51-60 | the header is the first `size_of` bytes, and header plus dynamic part is the whole buffer; a shorter buffer panics |
| Quantities.QuoteForBase | sdk/src/state/market.rs:235-238 | quote atoms for base atoms at a price, rounded in the given direction; fails only when out of range |
| Quantities.BaseForQuote | sdk/src/state/market.rs:362-363 | base atoms bought by quote atoms at a price, rounded in the given direction; 0 at price 0 |
| Quantities.QuoteForBaseRoundingGap | sdk/src/state/market.rs:235-238 | rounding up never gives fewer quote atoms than rounding down |
| Quantities.QuoteForBaseMonotone | sdk/src/state/market.rs:235-238 | more base atoms never cost fewer quote atoms |
| Quantities.MultiplyRational | sdk/src/state/resting_order.rs:126-136 | price × num / den, rounded in the given direction |
| ManifestChecker.VerifyOwnedByManifest | sdk/src/validation/manifest_checker.rs:66-75 | succeeds iff this program owns the account, otherwise IllegalOwner |
| ManifestChecker.VerifyHeaderDiscriminant | sdk/src/validation/manifest_checker.rs:24-27 | succeeds iff the header's first eight bytes decode to the expected discriminant, otherwise InvalidAccountData |
| ManifestChecker.New | sdk/src/validation/manifest_checker.rs:19-33 | IllegalOwner before the data is read; then a borrow failure, a panic on data shorter than a header, or InvalidAccountData for a wrong discriminant; succeeds exactly otherwise |
| ManifestChecker.VerifyUninitialized | sdk/src/validation/manifest_checker.rs:77-97 | succeeds iff the data is exactly one header long and all zero, otherwise InvalidAccountData |
| ManifestChecker.NewInit | sdk/src/validation/manifest_checker.rs:35-44 | the owner check first; then succeeds iff the data is a zeroed header |
| ManifestChecker.NewInitExcludesNew | sdk/src/validation/manifest_checker.rs:77-97 | an account `new_init` accepts is rejected by `new` with InvalidAccountData |
| ManifestChecker.NewAcceptsEncodedHeader | sdk/src/validation/manifest_checker.rs:19-33 | an owned, readable account that starts with the encoded discriminant and is at least a header long is accepted |
| ManifestChecker.NewReadsOnlyHeader | sdk/src/validation/manifest_checker.rs:24-27 | `new` depends on the header bytes alone |
| TokenCheckers.New | sdk/src/validation/token_checkers.rs:38-55 | IllegalOwner unless a token program owns the account; then succeeds iff bytes 0..32 are the mint, with InvalidAccountData on a mismatch |
| TokenCheckers.GetOwner | sdk/src/validation/token_checkers.rs:57-63 | bytes 32..64, or a panic |
| TokenCheckers.GetBalanceAtoms | sdk/src/validation/token_checkers.rs:65-71 | the little-endian value of bytes 64..72, or a panic |
| TokenCheckers.NewWithOwner | sdk/src/validation/token_checkers.rs:73-86 | `new` first; then succeeds iff bytes 32..64 are the owner, with IllegalOwner on a mismatch |
| TokenCheckers.NewWithOwnerAndKey | sdk/src/validation/token_checkers.rs:88-101 | InvalidInstructionData on a key mismatch before any other check; otherwise `new_with_owner` |
| TokenCheckers.NewWithOwnerThenGetOwner | sdk/src/validation/token_checkers.rs:73-86 | an account accepted for an owner reports that owner |
| TokenCheckers.TokenAccountRoundTrip | sdk/src/validation/token_checkers.rs:57-86 | an account laid out from a mint, an owner and a balance is accepted and reads back that owner and balance |

## Left out

- **Red-black trees and the free-list allocator.** They live in a library
  outside this repository.
  - A book side is the sequence its tree iterates.
  - The trader tree is a sequence searched by trader.
  - Seats and deposit nodes are maps from block index.
  - The free list is a map of `next` links.
  - Balancing, insertion and removal are not modelled.
- **Price arithmetic.** The quantities module is not part of this model.
  `Quantities` assumes a fixed-point price: an unsigned 128-bit value
  scaled by 10^18.
  - Its conversions fail with PriceConversion when a result leaves its
    integer range.
  - `checked_base_for_quote` at price 0 is taken to give 0.
  - The error of a checked add or subtract on atom amounts is taken to be
    ArithmeticOverflow.
- **Discriminant hashing and address derivation.** `get_discriminant`
  (Keccak-256) and `pda.rs` are foreign code. The discriminants are the
  constants from `constants.rs`. Program ids are parameters.
- **Mint unpacking.** `MintAccountInfo::new` is a foreign Token-2022
  unpack.
- **The global context bundle.** It is reduced to the global account's
  borrow state and the ledger its data holds. Reading that ledger from the
  account's bytes is not modelled.
- **`RefCell` borrows.** A borrow is an input state. The data does not
  change between the borrows of one call.
- **Layout code.** Byte layout, padding, `Display` impls, getters that only
  return a field, and `get_fixed` are not modelled.
- **The `quote_volume` counter.** It is informational and is not updated
  here.
- Utils.CanBackOrder: the ledger is a value, not decoded from the borrowed
  bytes.
- Impact.QuoteImpactPass and Impact.BaseImpactPass: each source loop body
  is split into a pass method and a fill method. The loop still returns
  what the source returns, order by order.
- RestingOrders.Cmp: requires two orders of the same side. The source
  checks this only with `debug_assert!`.
- RestingOrders.Eq: requires that the 128-bit `+ 1` and `- 1` do not
  overflow. The source's behaviour there depends on the build's overflow
  checks.
