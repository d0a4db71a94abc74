# Verification of the Goosey exchange

Dafny models of the parts of Goosey in which money, orders and irreversible steps meet, and proofs about
them. `dafny verify dfyconfig.toml` checks everything.

**The order book program** (`Fees`, `Orders`, `Matching`, `Placing`, `Heap`, `Slab`, `Planner`, `Matcher`,
`HeapRemoval`, `BookStorage`, `Escrow`, `Settlement`, `Staging`, `Exchange`, `Oracle`, `Invariants`). The
matching program keeps orders in a slab of slots with two array heaps and a free list, plans a placement in
patch lists over those arrays, settles it on copies of seats, and only then writes. The set-level account of a
placement is `Matching.Sweep` and `Placing.Place`; `Matcher` and `BookStorage` prove that the array loops
compute it; `Settlement` proves that settling it cannot fail and leaves the ledger backed by exactly the orders
that rest; the class `Exchange.Market` puts the three together. Two independent references from the
end-to-end tests are modelled next to it: the oracle of one placement (`Oracle`) and the checker of a whole
market (`Invariants`).

**The market maker and the repair of its history** (`Curve`, `Quotes`, `Positions`, `Ledger`, `Replay`,
`Cleanup`, `Remediation`). Trades are priced from a cost function by one of two engines. A script removes some
accounts from a market: it proves that the stored log reproduces everything stored, reprices the trades that
stay, and rewrites balances, journals and positions in one transaction with a closing reconciliation.

**Operational scripts** (`Receipts`, `Spending`, `Provisioning`, `Retirement`). Receipts are retained before a
transaction is sent; two serializable spenders race for one balance; accounts are provisioned by runs that can
stop anywhere; house markets are seeded and retired, and the ledger is reconciled.

**The schema comparison** (`SchemaText`, `SchemaParity`, `SchemaCompare`, `SchemaRuns`, `SchemaCanonical`,
`SchemaInvariance`, `SchemaVerdict`, `SchemaOrder`, `SchemaGrammar`, `SchemaSample`). Character scanners, the statement
splitter, canonical statements and the comparison of two schema files, with what the verdict does and does not
depend on.

Amounts the program keeps in 64 bits are `U64`, and every checked operation on them is written out. Curves and
floating-point results are real-valued functions with a stated error bound. `Result` and `Option` carry the
error returns of the sources.

**Reading the larger contracts.** `Market.Valid` says that slots, heaps and free list are in order, that no two
resting orders cross, and that the ledger is at rest: each seat reserves exactly what its resting orders need,
cash plus collateral plus revenue is the accounted total, and collateral is the payout for each open pair.
`Settles` and `Blames` in `Cleanup` spell out when a cleanup goes through and what each fault means. `Free` in
`SchemaVerdict` says when a run of whitespace does not matter, and `Loose` in `SchemaCanonical` is the test at
its centre: outside quotes in the joined statement with native types left out, or at its end.
Lemmas named `…Exactly` or `…Rightly` say in the fields of the input alone, without the functions that decide it,
when a step goes through, what it does and what each refusal means; the contracts of the classes state the same of
the old and the new state.

## Model

| member | source | states |
|---|---|---|
| Fees.CumulativeFeeIsFee | chain/programs/goosey-exchange/src/arithmetic.rs:3-8 | the quotient-and-remainder computation in 64 bits yields the rounded-up fee for every notional, and nothing for an illegal rate |
| Fees.FeeIsCeiling | scripts/solana-exchange-e2e.ts:55 | the fee is the least whole amount that is at least the exact rate |
| Fees.FeeDeltaIsCharge | chain/programs/goosey-exchange/src/arithmetic.rs:9-13 | the fee of a fill fails only when the lifetime notional leaves 64 bits, and is otherwise the difference of two cumulative fees |
| Fees.FeesTelescope | chain/programs/goosey-exchange/src/arithmetic.rs:29-41 | however an order is split into fills, the fees it pays are the fee of the total notional |
| Fees.BuyReserveCoversFill | chain/programs/goosey-exchange/src/arithmetic.rs:14-17 | what a buyer reserved at the limit covers any execution at or below it, its fee, and the whole reserve of what is left, with nothing over at exactly the limit |
| Orders.PlanFillSucceeds | chain/programs/goosey-exchange/src/matching.rs:782-798 | between two plausible orders on opposite sides no checked step of a fill can fail, and both orders stay plausible |
| Orders.EconomicsMeetOracle | chain/programs/goosey-exchange/src/matching.rs:321-349 | cash, shares, collateral and revenue of a fill are what the end-to-end tests compute from outcome, action, price and quantity |
| Orders.EconomicsBalance | chain/programs/goosey-exchange/src/matching.rs:321-349 | all deltas of a fill sum to zero, YES and NO change by the same number, and collateral moves by the payout for each pair |
| Orders.PrincipalsExactly | chain/programs/goosey-exchange/src/matching.rs:295-303 | a trade has a worth exactly within the limits on payout, price and quantity, and then each outcome costs its share of the pair |
| Orders.KindTells | chain/programs/goosey-exchange/src/matching.rs:321-349 | what a fill is called says whether pairs are made, destroyed or shares of one outcome change hands; buyers pay from what they reserved, sellers are paid into free cash |
| Orders.LimitIsHonoured | chain/programs/goosey-exchange/src/matching.rs:38-51 | a taker meets a price exactly if, for the outcome it deals in, a buyer pays no more or a seller gets no less than the limit, whichever way the order is folded into the book |
| Orders.FillCarriesOn | chain/programs/goosey-exchange/src/matching.rs:782-798 | both orders carry on from a fill smaller by what was traded, with the traded value added to their lifetime notional and the reserve of what is left |
| Matching.SweepConserves | chain/programs/goosey-exchange/src/matching.rs:137-228 | quantity filled plus quantity left is the incoming quantity, and each effect costs at least one of the permitted touches |
| Matching.SweepIsFair | chain/programs/goosey-exchange/src/matching.rs:137-228 | every effect of a sweep is justified by a maker that rested before, at the price of that maker and within the limit of the taker, and effects follow strict price-time priority |
| Matching.SweepLeavesNothingCrossing | chain/programs/goosey-exchange/src/matching.rs:137-228 | a taker that is left unfinished when the loop ends by itself faces no order it could still trade with |
| Matching.SweepNeverOverflows | chain/programs/goosey-exchange/src/matching.rs:137-228 | on a plausible book the only error a sweep can report is running out of touches |
| Matching.SweepStopsRightly | chain/programs/goosey-exchange/src/matching.rs:137-228 | a sweep stops only for want of quantity, makers, reach or touches, at an order a post-only taker would trade with, or for a self-trade as asked: cancel-resting never stops for one, cancel-both stops at the first and removes it last, cancel-aggressor removes none and stops at it |
| Matching.SweepLeavesRest | chain/programs/goosey-exchange/src/matching.rs:137-228 | exactly the orders touched are gone, all better than every order that was not, but for the rest of one the taker could not use up; each fill finds the taker as the fills before left it |
| Matching.LimitIsTheOnlyError | chain/programs/goosey-exchange/src/matching.rs:137-228 | the kind of order changes a sweep only in that running out of touches before an order in the way is an error unless the order is immediate; each touch shows |
| Placing.PlacementConserves | chain/programs/goosey-exchange/src/matching.rs:488-561 | filled, canceled and rested add up to the quantity of the order, filled is the sum of the fills, and the disposition says exactly which happened |
| Placing.TimeInForceHonoured | chain/programs/goosey-exchange/src/matching.rs:137-228 | fill-or-kill fills completely or changes nothing, immediate orders never rest, post-only orders never trade, and a rejected order leaves the book as it was, expired makers included |
| Placing.PlacementKeepsBook | chain/programs/goosey-exchange/src/matching.rs:137-228 | every accepted placement keeps the whole book in order: both sides well formed, identifiers distinct and below the next one, no two resting orders crossing, capacity respected |
| Placing.AdmittedExactly | chain/programs/goosey-exchange/src/matching.rs:488-495 | exactly the admissible orders get to the book, and a refusal names a condition that fails |
| Placing.PlacementTells | chain/programs/goosey-exchange/src/matching.rs:521-557 | own orders are kept out of the way as asked, nothing is canceled without the reason its kind allows, post-only is refused exactly if a live order is in reach, and the disposition is the right word |
| Placing.PlacementRefusals | chain/programs/goosey-exchange/src/matching.rs:137-228 | an admissible order is refused exactly for touches, room or full counters, in that order |
| Placing.PlacementLeaves | chain/programs/goosey-exchange/src/matching.rs:137-228 | an admitted placement takes orders off the top of the other side, adds to its own only its remainder, and shows every touch |
| Heap.RootIsBest | chain/programs/goosey-exchange/src/matching.rs:715-725 | an array in which every entry respects its parent has its best entry at the root |
| Heap.BookDepth | chain/programs/goosey-exchange/src/matching.rs:371-374 | in a book of 1024 cells repairs take at most ten steps, and nine from any position but the last |
| Slab.RootHoldsBest | scripts/solana-exchange-e2e.ts:390-404 | in a stored book the root of each heap is the one best order of its whole side by price, then sequence |
| Slab.RemovingKeepsBook | chain/programs/goosey-exchange/src/cancellation.rs:97-128 | removing any live order, wherever it stands in its heap, keeps slots, both heaps and free list in order and takes out exactly that order |
| Slab.InsertingKeepsBook | chain/programs/goosey-exchange/src/matching.rs:757-778 | inserting under a fresh identifier keeps the stored layout in order and adds exactly that order, in the slot that was first free |
| Slab.ShrinkingKeepsBook | chain/programs/goosey-exchange/src/matching.rs:704-714 | a partial fill recorded in place keeps the stored layout in order and changes only that order |
| Planner.Plan.Pop | chain/programs/goosey-exchange/src/matching.rs:726-756 | popping through the patches takes the best order of a side out, puts its slot first in the free list, and writes no more cells than the room reserved |
| Planner.Plan.Insert | chain/programs/goosey-exchange/src/matching.rs:757-778 | inserting through the patches adds exactly the order given, in the first free slot, and keeps the patched book in order |
| Planner.Plan.Shrink | chain/programs/goosey-exchange/src/matching.rs:704-714 | a partial fill is recorded in the patches: the one order is replaced by its smaller self |
| Matcher.TouchIsSweepStep | chain/programs/goosey-exchange/src/matching.rs:488-561 | the body of the array loop takes exactly the step of the set-level sweep, whichever of its exits it takes |
| Matcher.SweepBook | chain/programs/goosey-exchange/src/matching.rs:488-561 | the loop over the patched arrays computes the set-level sweep, errors included, and its patch lists never run out of room |
| BookStorage.Storage.constructor | chain/programs/goosey-exchange/src/matching.rs:447-462 | an initialized book is empty and in order, with every slot in the free list |
| BookStorage.Storage.Prepare | chain/programs/goosey-exchange/src/matching.rs:488-561 | planning on the arrays reports exactly what the set-level placement says, writes nothing stored, and plans a book in order; a rejection plans no change; a remainder that rests without any maker touched takes the slot that was first free |
| BookStorage.Storage.Commit | chain/programs/goosey-exchange/src/matching.rs:566-598 | writing a plan makes the stored arrays exactly what its patches mean and leaves the book in order |
| BookStorage.Storage.Remove | chain/programs/goosey-exchange/src/cancellation.rs:146-200 | removal takes out exactly the order at the heap position given, heads the free list with its slot, changes no other slot and writes a bounded number of cells |
| HeapRemoval.PlanRemoval | chain/programs/goosey-exchange/src/cancellation.rs:97-128 | the repair of a heap after removing any entry, up or down, leaves an ordered heap of the remaining entries and writes at most the cells provided |
| Escrow.LocksExactly | chain/programs/goosey-exchange/src/exchange.rs:96-103 | exactly what is free can be locked: cash on hand, and shares no other order reserves; each refusal says what is short |
| Escrow.SettleSeatSucceeds | chain/programs/goosey-exchange/src/exchange.rs:112-124 | settling a funded party cannot fail, moves cash and shares by exactly its deltas, and leaves its reserve at what its orders still need |
| Settlement.SweepSettles | chain/programs/goosey-exchange/src/exchange.rs:193-216 | settling everything a sweep did cannot fail, and afterwards reserves equal what the orders left resting need |
| Settlement.PlacementSettles | chain/programs/goosey-exchange/src/exchange.rs:188-223 | once the reserve of an admitted order can be locked, every later check of the ledger succeeds and the ledger is backed by exactly the orders then resting; locking fails only for too little cash or too few shares |
| Settlement.EffectsMeetOracle | scripts/solana-exchange-e2e.ts:526-557 | settling any effects moves each seat by the deltas the tests compute from the trades alone |
| Settlement.PlacementMeetsOracle | scripts/solana-exchange-e2e.ts:517-557 | a whole placement moves each seat by those deltas, keeps every wallet, and raises only the nonce of the submitter |
| Settlement.SweepTelescopes | scripts/solana-exchange-e2e.ts:537-540 | over the fills that actually happen the taker pays the fee of its total notional, whatever is removed in between |
| Settlement.RemovalRefunds | chain/programs/goosey-exchange/src/cancellation.rs:146-200 | taking out any resting order refunds exactly its current reserve and leaves the ledger backed by the others |
| Staging.ApplyEffects | chain/programs/goosey-exchange/src/exchange.rs:193-216 | settling on copies of at most as many seats as were provided for refines settling on the ledger, faults included |
| Exchange.Recount | chain/programs/goosey-exchange/src/exchange.rs:127-148 | totals corrected seat by seat for the staged copies are the totals of the ledger after the placement |
| Exchange.PlacementOutcome | chain/programs/goosey-exchange/src/exchange.rs:155-232 | on a market in order an admitted placement fails only in the matcher, for its own conditions, or for too little cash or too few shares; the audits never fail |
| Exchange.DecodesWhatIsSaid | chain/programs/goosey-exchange/src/exchange.rs:170-181 | the numbers of a command say one order or none, and decoding finds it |
| Exchange.ScreensExactly | chain/programs/goosey-exchange/src/exchange.rs:158-175 | exactly the owner of a seat, in turn, before the close and over a funded vault may place an order; each refusal names what is wrong |
| Exchange.AdmitsExactly | chain/programs/goosey-exchange/src/exchange.rs:158-177 | a command reaches the book exactly if it may be placed and the ledger is in balance with every seat covered; a failed audit is named as such |
| Exchange.TouchesSuffice | chain/programs/goosey-exchange/src/exchange.rs:170-182 | no order that asks for sixteen touches or fewer, or leaves them open, is refused for its touches |
| Exchange.AuthorizesExactly | chain/programs/goosey-exchange/src/cancellation.rs:163-176 | exactly who may take an order out, for which reason and with which nonce, and why nobody else may |
| Exchange.TargetsExactly | chain/programs/goosey-exchange/src/cancellation.rs:151-158 | a target is good exactly if order, side and heap position agree |
| Exchange.Market.constructor | chain/programs/goosey-exchange/src/escrow.rs:7-22 | a new market has no seats, no money and an empty book, and is in order |
| Exchange.Market.PlaceOrder | chain/programs/goosey-exchange/src/exchange.rs:155-232 | keeps the market valid; a refusal or failure changes nothing; otherwise book, seats, collateral and revenue are exactly what planning and settling on values gives; only who may place an order can, it is the order the command says, under the next identifier, all of it accounted for within the touches allowed, and it uses the nonce up |
| Exchange.Market.RemoveOrder | chain/programs/goosey-exchange/src/cancellation.rs:132-200 | keeps the market valid; exactly the order the target names goes, for exactly those who may take it out: its owner with wallet, locator and current nonce, or anyone once it lapsed or the market closed, with the reason that holds; the owner gets the reserve back and only a cancellation uses a nonce; a refusal changes nothing and says what is wrong |
| Exchange.Market.Deposit | chain/programs/goosey-exchange/src/escrow.rs:42-60 | positive cash over a funded vault enters the seat its owner names in turn and the accounted total alike, and uses one nonce; anything else is refused for what is wrong |
| Exchange.Market.Withdraw | chain/programs/goosey-exchange/src/escrow.rs:62-85 | only unreserved cash leaves, the seat and the accounted total alike, for the owner in turn, and uses one nonce; shortage is refused as such |
| Exchange.Market.Register | chain/programs/goosey-exchange/src/escrow.rs:24-40 | the next seat index goes to the wallet for good, unless all are taken |
| Exchange.DepositWithdraws | chain/programs/goosey-exchange/src/escrow.rs:42-85 | withdrawing what was deposited restores the ledger but for two nonces |
| Oracle.SweepIsCharged | scripts/solana-exchange-e2e.ts:538-540 | every fill of a sweep is charged as the tests expect, the taker chain running through all of them |
| Oracle.ExecutionMeetsOracle | scripts/solana-exchange-e2e.ts:517-557 | every executed placement meets the oracle of the tests: priority and justification of each trade, chained fees, deltas of each seat, nonces, collateral and revenue |
| Oracle.AnswerMeetsOracle | scripts/solana-exchange-e2e.ts:499-559 | so does every placement that the market answers with a report |
| Oracle.ExecutionTells | chain/programs/goosey-exchange/src/exchange.rs:182-187 | whatever is executed, settlement included, spared own orders as asked and names rightly what it canceled and how it ended |
| Oracle.AnswerTells | chain/programs/goosey-exchange/src/exchange.rs:184-189 | the same of the stored market: the report is the placement, own orders were kept out of the way as asked, and nothing was canceled without reason |
| Invariants.Check | scripts/solana-exchange-e2e.ts:376-421 | the checker of the tests, loop by loop, accepts exactly when its declarative reading holds |
| Invariants.CheckFree | scripts/solana-exchange-e2e.ts:405-410 | following the free list accepts exactly the acyclic lists of all slots that hold no order |
| Invariants.RootOfPassedIsBest | scripts/solana-exchange-e2e.ts:390-404 | a heap that passes the neighbour check has the best order of its side at the root, ahead of every other |
| Invariants.PassesExactly | scripts/solana-exchange-e2e.ts:376-421 | the checker is exact: a market within the limits of the program passes if and only if its book is well formed, its identifiers are issued, and its ledger is backed by exactly its orders |
| Invariants.MarketPasses | scripts/solana-exchange-e2e.ts:376-421 | so every market passes, whatever has been placed, canceled, cleaned up, deposited, withdrawn or registered |
| Curve.ChangeIsPotential | src/lib/market-maker.ts:170-223 | the difference formula of a trade is the change of one potential, whichever outcome is traded |
| Curve.PotentialCovers | src/lib/market-maker.ts:120-127 | the potential exceeds every possible payout |
| Quotes.HistoricalFavoursPool | scripts/remove-production-bot-accounts.ts:100-147 | a trade of the former engine collects at least the change of the potential plus what its numeric error leaves of the rounding reserve, and little more |
| Quotes.PotentialTelescopes | src/lib/market-maker.ts:170-223 | under the later engine what a log collects is the difference of two integer costs |
| Quotes.PricedCharges | scripts/remove-production-bot-accounts.ts:120-124 | either engine charges the least whole fee that covers the rate; it refuses exactly what rounds to nothing or a sale the fee would take all of |
| Quotes.QuotesRightly | scripts/remove-production-bot-accounts.ts:100-159 | a quote charges the least whole fee that covers the rate and is rounded exactly as its engine rounds: the trade with a quarter to the pool, or two costs each with a quarter |
| Quotes.RefusesRightly | scripts/remove-production-bot-accounts.ts:106-123 | each refusal to quote says what is wrong with quantity, shares, range or rounding |
| Quotes.BackedIsSolvent | src/lib/market-maker.ts:153-156 | a backed pool covers the payout of either outcome |
| Quotes.AlwaysSolvent | src/lib/market-maker.ts:153-156 | from the opening cost on, any log that changes engines at most once leaves collateral for whichever outcome wins |
| Quotes.RoundTripSurplus | scripts/settlement-e2e.ts:343-357 | a closed round trip under one engine leaves a surplus between nothing and two milli-feathers a trade, and exactly nothing under the later engine |
| Quotes.MixedRoundTrip | scripts/remove-production-bot-accounts.ts:149-159 | with numeric error of at most a twelfth, the same bounds hold for every log that changes engines on the way |
| Quotes.MixedRoundTripBound | scripts/remove-production-bot-accounts.ts:149-159 | at the full quarter the reserve allows for, such a log can leave at most one milli-feather too little |
| Quotes.MixedRoundTripLoses | scripts/remove-production-bot-accounts.ts:149-159 | for every error above a twelfth and up to a quarter there is a legal curve and a two-trade log that loses one: a twelfth is where it starts |
| Positions.Position.Update | scripts/remove-production-bot-accounts.ts:161-177 | the update in place is the functional one; exactly a sale of shares not held is refused and changes nothing; a purchase adds its whole cost to the basis of its outcome, a sale takes out the sold part, truncated, and realizes net proceeds over it, and the other outcome does not move |
| Positions.ApplyKeepsSane | scripts/settlement-e2e.ts:225-260 | a trade keeps shares and bases nonnegative and bases summing to net cost, and realized profit minus net cost is always the cash flow |
| Positions.RemovedBounds | scripts/remove-production-bot-accounts.ts:161-177 | truncated proportional basis never exceeds the basis, and selling the last share removes all of it |
| Positions.FullLiquidation | scripts/settlement-e2e.ts:322-334 | over any history of trades cash flow is realized profit minus net cost, so full liquidation leaves no basis and the wallet changed by realized profit |
| Ledger.TradePostingsBalance | scripts/remove-production-bot-accounts.ts:531-547 | the journal written for a trade sums to zero and moves wallet, pool and revenue by the quote |
| Ledger.ReproducedPosts | scripts/remove-production-bot-accounts.ts:271-278 | a stored journal that passes the first pass and posts nowhere else moves every account by what its quote says |
| Replay.ReplayAccounts | scripts/remove-production-bot-accounts.ts:279-284 | after any log that executes, inventory is the sum of the positions, each position the tally of its owner, and the volume what the quotes traded |
| Replay.OrderIsForced | scripts/remove-production-bot-accounts.ts:237-244 | a contiguous version chain admits only one order of the same trades |
| Replay.Chain | scripts/remove-production-bot-accounts.ts:237-247 | base version and change of engines are found exactly when a complete chain with that change exists |
| Replay.ProveLog | scripts/remove-production-bot-accounts.ts:237-291 | the first pass returns a proof that the log reproduces every quote, journal, total and position, and refuses only logs that nothing proves |
| Replay.ProvenExplains | scripts/remove-production-bot-accounts.ts:250-291 | a proof says of every trade that its version, amount, fee and postings are those of the engine of its place, that next to the change the other engine charges otherwise, and of every trader that the stored position is the replayed one and reserves nothing |
| Replay.SurvivorsNeverShort | scripts/remove-production-bot-accounts.ts:293-307 | whoever is removed, each survivor holds before each trade exactly the shares it held originally, so repricing never refuses a sale for want of shares |
| Replay.SurvivorsRenumber | scripts/remove-production-bot-accounts.ts:304 | renumbering survivors from the base gives a complete chain again, lowers versions only, keeps the former engine in front, and leaves every version below the stored next one |
| Replay.RepairedIsRefused | scripts/remove-production-bot-accounts.ts:238-245 | what a repair stores carries a version one higher over a chain that is no longer, so no base and no change of engines make it a complete chain and nothing proves it |
| Replay.BuildReplay | scripts/remove-production-bot-accounts.ts:213-340 | a plan holds the proof of the log and the repriced survivors; a refusal means that nothing proves the log, that some survivor cannot be priced on the quieter market (never for want of shares), or that someone who never traded holds a position |
| Replay.SurvivorsLeaveSolvent | scripts/remove-production-bot-accounts.ts:370-374 | opening subsidy and what the survivors pay cover whichever outcome wins |
| Cleanup.CollectionsAreFlow | scripts/remove-production-bot-accounts.ts:467-469 | what repriced trades bring the pool is what their quotes collect |
| Cleanup.DriftAfter | scripts/remove-production-bot-accounts.ts:399-560 | after the rewriting each cached balance is off its postings by what it was off before and by what removed postings strayed there |
| Cleanup.InnocentWalletStays | scripts/remove-production-bot-accounts.ts:399-560 | a wallet that stays, is not adjusted and to which nothing removed strays keeps its cached balance and its posting total |
| Cleanup.AssertReconciles | scripts/remove-production-bot-accounts.ts:350-370 | the closing reconciliation accepts exactly the ledgers in which every journal balances, every cache equals its postings, no balance is illegally negative and every shown balance is that of its wallet; a refusal names what is wrong |
| Cleanup.ClosesAsBefore | scripts/remove-production-bot-accounts.ts:343-375 | the closing checks pass exactly when nothing removed strays to other accounts, no kept balance is overdrawn, shown balances stand and the market stands |
| Cleanup.PreparedMeans | scripts/remove-production-bot-accounts.ts:446-546 | what is checked before any balance is compared, spelled out in both directions: accounts, one grant from issuance for each removed user, no posting left on a removed wallet |
| Cleanup.ShownStandsExactly | scripts/remove-production-bot-accounts.ts:370 | if every user was shown the wallet before, all who stay still are if and only if the adjustments net to zero on each of them |
| Cleanup.HandoverUpsetsShown | scripts/remove-production-bot-accounts.ts:511-527 | an adjustment that took from one user what it gave a removed one passes review, and undoing it leaves the giver shown a wrong balance |
| Cleanup.LedgerStore.ApplyCleanup | scripts/remove-production-bot-accounts.ts:399-560 | the transaction goes through if and only if wallets, postings, balances and market settle; a refusal changes nothing and names a fault that is really there; otherwise each balance, journal, version and position is as planned: totals of the replay, a version one higher than before, nobody removed left, replayed positions replaced and all others kept |
| Remediation.OrderlyNeverStrays | scripts/remove-production-bot-accounts.ts:501-529 | a ledger that reconciled, whose trades post to trader, pool and revenue only and whose grants are plain, loses no posting to other accounts |
| Remediation.PaddedTradesStray | scripts/remove-production-bot-accounts.ts:271-278 | the first pass accepts a trade journal padded with balanced postings elsewhere, and removing it moves the cache of such an account off its postings by the padding |
| Remediation.PaddingStillProven | scripts/remove-production-bot-accounts.ts:271-278 | whichever journal of a proved log is padded with balanced postings elsewhere, the same proof still stands |
| Remediation.PaddedLogStrays | scripts/remove-production-bot-accounts.ts:350-354 | a proved log, orderly but for one padded journal, in a ledger that reconciles: it stays proved, and the reconciliation after the repair is bound to fail |
| Remediation.SharesCloseExactly | scripts/remove-production-bot-accounts.ts:372 | the closing share totals agree exactly when positions outside the log hold no shares |
| Remediation.CollateralCloses | scripts/remove-production-bot-accounts.ts:373-374 | if the market was opened with at least the cost of an empty inventory, the collateral the rewriting leaves passes the closing check |
| Remediation.Remediate | scripts/remove-production-bot-accounts.ts:399-560 | from log to rewritten ledger: a refusal changes nothing; the closing share check never fails, nor does the collateral check for a market opened with its cost; success leaves a ledger and a market that close, under a version above every version any trade was or is stored under, so that the stored log is never accepted again |
| Receipts.StepIsSafe | scripts/solana-local-development-bootstrap.ts:252-281 | every step of any run, a death, a machine crash or a chain event keeps the protocol invariant, and nothing sent is unsent |
| Receipts.AtMostOneSent | scripts/solana-local-development-bootstrap.ts:200-281 | over every history of interleaved and dying runs at most one transaction is ever sent for a receipt file, and the file then durably holds it |
| Receipts.SentAfterDurable | src/lib/solana/submit-transfer.ts:23-83 | a transaction is sent only by a step that finds its receipt already durable |
| Receipts.ReturnIsRetained | scripts/solana-local-matched-trade-bootstrap.ts:161-200 | a run that returns answers with the retained transaction, finalized or with the effect seen; the matched trade returns only after seeing the effect |
| Receipts.LooksRightly | scripts/solana-local-development-bootstrap.ts:254-258 | a run signs only if it saw no effect and finds no receipt; the effect without a receipt ends it, a receipt is resumed, and an enrollment that finds one stops |
| Receipts.ResumesRightly | scripts/solana-local-development-bootstrap.ts:257-268 | a resumed run ends with the retained transaction when the effect was seen, or once it is finalized and, for a matched trade, the effect is there; with no answer in every other case |
| Receipts.SubmitsRightly | src/lib/solana/submit-transfer.ts:63-83 | one transaction goes through the phases one by one: the file is created, written and synced before anything is sent, never over a receipt, and the run answers only once what it sent is finalized with its effect |
| Receipts.CrashesExactly | scripts/solana-local-development-bootstrap.ts:200-205 | a crash leaves a synced receipt as it was and an unsynced one lost, torn or kept, and nothing else |
| Receipts.RunsGoOn | scripts/solana-local-development-bootstrap.ts:252-281 | a run that is not over can always take its next step, whatever other runs and the chain have done |
| Receipts.FirstRunsDeliver | scripts/solana-local-development-bootstrap.ts:270-281 | from any world without receipt and effect a new run can sign, keep, send and, once it is final, answer with the one transaction |
| Receipts.LaterRunsDeliver | scripts/solana-local-development-bootstrap.ts:252-269 | from any world with a retained receipt whose effect is there, or which is finalized, a new run answers with it and nothing more is sent |
| Receipts.SignersSawNothing | scripts/solana-local-development-bootstrap.ts:252-281 | over every history, whoever signs, keeps or sends a transaction had asked for the effect and not seen it |
| Spending.NoDeadlock | scripts/postgres-runtime-smoke.ts:96-128 | the barrier never blocks both spenders: until both are done someone can move |
| Spending.ExactlyOneSpends | scripts/postgres-runtime-smoke.ts:96-128 | whatever the interleaving it ends within 24 steps, and then exactly one spender has spent, the other was turned away for lack of funds after one retry, and the balance is zero |
| Provisioning.ValidateManifest | scripts/provision-participants.ts:14-41 | accepts exactly the valid manifests; otherwise names the first account at fault |
| Provisioning.ManifestsExactly | scripts/provision-participants.ts:29-39 | a list of accounts is valid exactly if each is acceptable, grants are whole and in range, and no two share a name or password |
| Provisioning.ProvisionedExactly | scripts/provision-participants.ts:80-113 | an account counts as provisioned exactly if nobody else has either name and identity, password, grant and wallet are as the manifest says |
| Provisioning.RegisteringStaysResumable | scripts/provision-participants.ts:104-114 | whatever a run has registered, the next run can pick up |
| Provisioning.Directory.Preflight | scripts/provision-participants.ts:104-114 | accepts exactly when every account is either absent or provisioned as the manifest says, and says which |
| Provisioning.Directory.Run | scripts/provision-participants.ts:102-140 | a run is refused exactly when preflight fails, and then changes nothing; stopped anywhere it only adds provisioned accounts; completed it has listed every account |
| Provisioning.RunsCompose | scripts/provision-participants.ts:102-140 | what two runs may do together, one may |
| Provisioning.Directory.Provision | scripts/provision-participants.ts:102-140 | after any number of runs stopped anywhere, one that is not leaves each account provisioned once with one grant of its own amount, listed in order, and no session of the batch |
| Retirement.SeededPasses | scripts/replace-markets.ts:18-55 | a market in the form seeding creates passes inspection |
| Retirement.CatalogPasses | prisma/seed.ts:100-190 | so does every market of a seeded catalog |
| Retirement.InspectsExactly | scripts/replace-markets.ts:33-53 | inspection passes exactly the markets nobody touched since seeding, by their own fields, and a refusal names what was touched |
| Retirement.RetireAllRestores | scripts/replace-markets.ts:81-108 | retiring markets pays exactly their collateral to the treasury, empties and closes their accounts and touches no other balance |
| Retirement.RetireAllReconciles | scripts/replace-markets.ts:81-108 | books that reconcile still do after any list of markets has been retired |
| Retirement.SeedThenRetire | prisma/seed.ts:100-190 | seeding a catalog and retiring it restores treasury and list of markets exactly |
| Retirement.House.Seed | prisma/seed.ts:100-190 | seeds every definition whose slug is not listed, one after the other, and nothing else |
| Retirement.House.Retire | scripts/replace-markets.ts:81-108 | retires every listed legacy market or changes nothing; it goes through exactly when all of them pass inspection and the treasury agrees with its postings, and then every one was untouched since seeding |
| Retirement.Reconcile | scripts/reconcile.ts:20-28 | finds nothing exactly when every journal balances and every account agrees with its postings and its sign |
| Retirement.NothingFromNothing | scripts/reconcile.ts:20-28 | when it finds nothing, all balances together are zero |
| SchemaText.StripTwice | scripts/check-prisma-schema-parity.ts:18-42 | stripping stops at the first unquoted comment and is idempotent |
| SchemaText.NormalizeTwice | scripts/check-prisma-schema-parity.ts:44-78 | normalizing is idempotent |
| SchemaCanonical.NormalizedKeepsQuoted | scripts/check-prisma-schema-parity.ts:44-78 | normalizing keeps everything but unquoted whitespace, in order, if and only if the text does not end in whitespace inside an open quote |
| SchemaCanonical.QuotedSpaceIsLost | scripts/check-prisma-schema-parity.ts:50 | a quote followed by a space loses the space, which is quoted |
| SchemaText.SqueezeKeepsNesting | scripts/check-prisma-schema-parity.ts:80-103 | squeezing whitespace does not change how a text nests |
| SchemaCanonical.NormalizedOver | scripts/check-prisma-schema-parity.ts:44-78 | replacing a run of whitespace by another normalizes alike if and only if the run is unquoted, at the end, or the same |
| SchemaCanonical.CanonicalOver | scripts/check-prisma-schema-parity.ts:161-186 | another run never decides whether a statement is accepted, and leaves its canonical form if and only if it is unquoted once native types are taken out, or at the end, or the same |
| SchemaParity.StatementsAreGroups | scripts/check-prisma-schema-parity.ts:105-125 | each statement closes at depth zero and at no earlier line break |
| SchemaParity.StatementsJoinBack | scripts/check-prisma-schema-parity.ts:105-125 | joining the statements gives back all kept lines in order |
| SchemaInvariance.FileOver | scripts/check-prisma-schema-parity.ts:127-154 | a changed line that keeps its role changes no block, or exactly the one statement it is part of |
| SchemaVerdict.ParseOver | scripts/check-prisma-schema-parity.ts:188-199 | another run of whitespace in any line never decides whether a file parses, and leaves the catalog if and only if it is dropped, unquoted in its joined statement, at the end of it, or the same |
| SchemaVerdict.FreeRunsAgree | scripts/check-prisma-schema-parity.ts:201-250 | such a run never changes the verdict, in either file |
| SchemaSample.ClosedQuotesAreFree | scripts/check-prisma-schema-parity.ts:105-125 | if quotes are closed at the end of the earlier lines of a statement, a run unquoted on its own line is unquoted in the statement |
| SchemaSample.QuotedRunIsSeen | scripts/check-prisma-schema-parity.ts:105-125 | two files that differ in one run unquoted on its own line get different verdicts, because the line before leaves a quote open |
| SchemaGrammar.QuotedIsSkipped | scripts/check-prisma-schema-parity.ts:18-42 | quoted text, escapes included, leaves the scan outside quotes wherever it stands |
| SchemaGrammar.NestingCounts | scripts/check-prisma-schema-parity.ts:80-103 | outside quotes nesting is what is opened less what is closed, parentheses and brackets alike |
| SchemaGrammar.OpensExactly | scripts/check-prisma-schema-parity.ts:15 | exactly the lines of a keyword, whitespace, a name and a brace open a block, under that kind and name |
| SchemaGrammar.ClosesExactly | scripts/check-prisma-schema-parity.ts:138 | exactly the lines of a brace and whitespace close one |
| SchemaGrammar.TypesExactly | scripts/check-prisma-schema-parity.ts:163 | the type of a field is the second word of its statement, and a statement without one has none |
| SchemaGrammar.NativesEnd | scripts/check-prisma-schema-parity.ts:162 | a native type is the prefix, a whole word, and a parenthesis behind it if one closes |
| SchemaGrammar.NativesAreRead | scripts/check-prisma-schema-parity.ts:162 | every native type of a statement is read unless it starts inside another |
| SchemaGrammar.TakesOut | scripts/check-prisma-schema-parity.ts:185 | taking native types out removes the first occurrence, keeps what is in front and goes on behind it |
| SchemaGrammar.OnlyEmptyLinesSkipped | scripts/check-prisma-schema-parity.ts:110-112 | the only lines that do not count hold nothing but whitespace and comments |
| SchemaGrammar.FileReads | scripts/check-prisma-schema-parity.ts:127-154 | lines that open no block are passed over, one that does starts a block to the first line that closes it, and the rest is read like a file |
| SchemaOrder.BlocksMayMove | scripts/check-prisma-schema-parity.ts:188-199 | a file cut into parts that each read to their end says the same in any order of the parts |
| SchemaOrder.BlockOrderAgrees | scripts/check-prisma-schema-parity.ts:201-250 | moving blocks never changes the verdict, in either file |
| SchemaOrder.StatementOrderAgrees | scripts/check-prisma-schema-parity.ts:201-250 | moving the statements of a block never changes the verdict, in either file |
| SchemaCompare.Compare | scripts/check-prisma-schema-parity.ts:201-250 | reports no difference if and only if both providers are right, both files parse, the block names agree and each block has the same set of canonical statements; then every statement of either file names the native types it should and no others |
| SchemaCompare.CanonicalExactly | scripts/check-prisma-schema-parity.ts:161-186 | a PostgreSQL statement is accepted exactly if it names only the one native type, and that exactly if its field is a date; a SQLite statement exactly if it names none; each refusal says which |
| SchemaCompare.ParsesExactly | scripts/check-prisma-schema-parity.ts:188-199 | a file is accepted exactly if its blocks can be read, no two have the same name, and every statement is; its catalog holds the canonical form of each |

## Findings

Properties one might expect that the code does not have, each with an input, or for all inputs where it never holds,
and the exact condition under which the code does have it.

| expected | what happens | shown by |
|---|---|---|
| a log that passes the first pass of the repair can be cleaned up without upsetting other accounts | the first pass accepts trade journals with further balanced postings to other accounts: pad any journal of a proved log and it is still proved, yet the ledger no longer reconciles once the trades are rewritten; it goes through exactly when what is removed nets to zero on every other account | Remediation.PaddedLogStrays, Remediation.PaddingStillProven, Remediation.OrderlyNeverStrays, Cleanup.ClosesAsBefore |
| the log a repair leaves behind passes the first pass again | never: renumbered survivors form a complete chain, but the market's version is raised by one instead of set to follow them, so it never equals the base plus their number, whoever was removed | Replay.RepairedIsRefused, Replay.SurvivorsRenumber |
| cancelling reviewed adjustments leaves every user shown the balance of the wallet | the repair moves the wallet's cache but not the shown balance; it does so exactly when the adjustments net to zero on the wallet of each user who stays, and a reviewed adjustment with a leg on such a wallet does not | Cleanup.ShownStandsExactly, Cleanup.HandoverUpsetsShown, Cleanup.ClosesAsBefore |
| normalizing a statement keeps quoted text | true exactly for texts that do not end in whitespace inside an open quote, which the final trim drops | SchemaCanonical.NormalizedKeepsQuoted, SchemaCanonical.QuotedSpaceIsLost |
| whitespace outside quotes on its line never matters to the comparison | the nesting scanner starts every line outside quotes, the normalizer reads the joined statement; a run matters exactly when it is quoted in the joined statement, native types left out, and not at its end | SchemaVerdict.ParseOver, SchemaSample.QuotedRunIsSeen, SchemaSample.ClosedQuotesAreFree |

## Left out

- The network, RPC, wallets, key files, process exit codes, logging and all file and database access; clocks, vault balances and random identifiers are parameters.
- Account addresses and program-derived keys; a seat is known by wallet number and index, and the account checks the chain runtime makes before the program runs are not modelled.
- The byte encoding of slots, headers and events; a slot is a datatype, and decoding a corrupt slot cannot arise from a valid book.
- Work counters of a plan, which only feed events.
- Errors the program returns for corrupt storage, full patch lists or full copies of seats: the proofs show that they cannot arise on a valid market, and the model has preconditions or no branch there.
- 128-bit intermediate sums that cannot overflow for 64-bit inputs are mathematical integers.
- Oracle.AnswerMeetsOracle: like ExecutionMeetsOracle, leaves out the flag of a seat that has traded and the token accounts.
- Oracle.ExecutionMeetsOracle: does not state the flag of a seat that has traded, nor that token accounts stay as they are, because the model has no token accounts.
- Invariants.Check: does not sum the token supply and the wallets outside the vault, because the model has no token accounts.
- Resolution, market terms, review and publication of markets, and void payouts.
- Replay.ProveLog: does not compare probabilities in basis points, because the model has none; nor are average prices, notifications, snapshots and digests modelled.
- Floating-point evaluation itself: an evaluation is any function within the stated error of the exact one, for inventories within the share limit.
- Database locking and isolation in the repair, the retirement and the provisioning: each transaction is one step. In the race of two spenders serialization failures and retries are modelled.
- Sessions created by other programs while provisioning runs, and the password hash itself, which is a stored value compared with the manifest.
- Retirement.Reconcile: covers journals and accounts, not the balances users are shown, the share totals and required collateral of markets, reservations, orders and the linkage of fills to journals.
- Provisioning.ValidateManifest: covers the list of accounts, not the batch identifier, the origin and the names of the fields.
- Replay.BuildReplay: leaves out the identity checks before the first pass (names found in audits, expected roles and users, duplicate journals), pending requests, notifications and price snapshots.
- Cleanup.LedgerStore.ApplyCleanup: leaves out the counts of what else depends on a removed user and the identity checks of reviewed adjustments.
- Quotes.MixedRoundTripLoses: shows that the bound is tight for curves of the stated kind, by one made for the purpose, not that the logarithm itself comes that close.
- SchemaCompare.Compare: takes the provider names and the lines of each file as parameters; the match of the datasource block and the splitting into lines are not modelled.
- The sorting of canonical statements and of block names, which only orders the report.
- Unicode case folding and code points beyond single units; whitespace is the set the pattern language defines.
- Scripts without state or arithmetic of their own: publishing, previews, health checks, command-line parsing and configuration.
