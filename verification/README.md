# A verified model of the Fusion node

The Fusion node is a go-ethereum fork whose ledger knows assets, time-locked balances, swaps and
tickets. This project models its most intricate logic in Dafny and proves what that logic keeps,
for all inputs and all runs.

**Time locks** (`TimeLockItems`, `TimeLockAlgebra`, `TimeLockOps`, `TimeLockLayers`, `TimeLockDisplay`). A
time lock is a sorted list of intervals over 64-bit instants, each with a positive amount. Its meaning is the
amount at each instant (`Val`). Validity is a normal form with exactly one list per meaning, so
pointwise laws become laws about lists. The two-cursor merge, the subtraction, the one-pass
comparison and the in-place display algorithm are imperative methods proved against that meaning; the
intervals shown are nested or apart, which again leaves exactly one list per meaning.

**The ledger** (`FsnTypes`, `LedgerState`, `LedgerCalls`, `LedgerConservation`, `LedgerSwaps`,
`LedgerMultiSwaps`, `LedgerDryRun`, `LedgerHoldings`, `LedgerEffects`, `LedgerRuns`). A pure state and
one step per FSN call, with every error path, since block import swallows errors without reverting
what was written. The supply of an asset at an instant is the sum of balances, time locks, swap escrow
and ticket holdings there. It changes exactly as the asset's recorded total over every run, and nobody
but the sender of a call loses by it. For each call the exact condition of success, the record it
leaves and the balance and holding of every account are proved in terms of its parameters. `StateDb`,
`FsnCallHandlers` and `StateTransitions` are the imperative side: the state database, the cases of
`handleFsnCall`, gas accounting, and the transactions of a block, proved to refine the steps.

**Chain indexes** (`HeaderChains`, `BlockChains`). Total difficulty, the number index and the
transaction lookup index against the tree of headers, over every sequence of writes, including
reorganisations to longer or shorter branches.

**The transaction pool** (`Heaps`, `TxSortedMaps`, `TxLists`, `TxPricedLists`, `PendingLevels`). A
real binary heap, the nonce map with its heap and cache, the capped lists, the lazily cleaned price
heap, and the pending equaliser.

**Two concurrent protocols** (`Feeds`, `ChainIndexers`, `SectionResets`). One goroutine is a method;
what the others do, and what the chain and the backend answer, are parameters, and when it happens
is left open by nondeterministic choices, so that the contracts hold for every interleaving. A failing
reset of the indexer runs without the lock; there the statements of both goroutines are steps of one
machine, and its runs are all interleavings of them.

## What the proofs found

- `Cmp` refuses an interval that starts at instant 0 although it is covered, when the first item
  ends at 0 (`CoveredButRefused`). Otherwise its sign is exact. The answer 0 does not mean equality;
  `ReadsEqual` says when it is given.
- Redeeming a time lock whose start lies after the block's time inflates the supply until that
  start (`RedeemConservesIff`, `EarlyRedemptionInflates`).
- `MakeMultiSwap` looks for a clash among single swaps only. With the identifier of an existing
  multi swap the payment is taken and lost (`MakeMultiSwapConservesIff`, `ClashExample`). Fresh
  transaction hashes exclude it.
- The table of prices in `TakeMultiSwap` has one slot per offered asset. An accepted multi swap that
  asks for time-locked assets beyond that number crashes every accepted taking until its owner
  recalls it (`CrashesIff`, `StuckForGood`, `CrashExample`).
- An owner that takes its own offer of a short account number loses the number
  (`NumberHandedOver`, `SelfTakingLosesNumber`). The error after the payment of such a swap is never
  reached (`TakenIsDone`).
- A failed call changes nothing although nothing is reverted (`FailedKeeps`); the multi swap above is
  the only exception.
- A failing reset of the chain indexer drops the sections without the lock. A reorganisation notice
  at that time can leave a persisted count without sections (`ResetExample`), sections without heads
  (`LateNotice`), a head without a section (`HeadLeft`), or a wrapped counter (`CounterWraps`).
  `SpoiledIff` says for which notices this can happen; when the reset succeeds it cannot.
- Taking an interval out of an item drops the part before the item (`SubItemsMeaning`). `Sub` only
  does it where there is no such part.
- `reorg` leaves canonical numbers above a shorter new head in place (`Reorg`), so the index is
  exact for the numbers up to the head.

## Assumptions

- Block times are positive, and transaction hashes are fresh where a contract says so.
- Hashes do not collide: a header, block or transaction stands for its hash.
- No transaction repeats along a chain.
- The virtual machine is an arbitrary function. It returns no more gas than it got; where stated it
  keeps ledgers well formed or conserves supply.
- An absent big integer in call parameters is modelled as a negative one, which every check rejects
  in the same way.
- Feed channels are distinct. Block hashes are not the zero hash, and there is no indexer checkpoint.

## Model

| member | source | states |
|---|---|---|
| `TimeLockItems.NormalFormUnique` | common/timelock.go:423-438 | two valid time locks with the same value at every instant have the same items |
| `TimeLockItems.ValPermutation` | common/timelock.go:470-478 | the value of a list of intervals at an instant does not depend on their order |
| `TimeLockAlgebra.AppendItemMeaning` | common/timelock.go:228-242 | appending an interval behind a valid list, merged with the last item or not, gives a valid list worth the sum at every instant |
| `TimeLockAlgebra.AppendItemsMeaning` | common/timelock.go:244-250 | the same for several intervals |
| `TimeLockAlgebra.CanonMeaning` | common/timelock.go:423-438 | the reference normal form of any non-negative function, built instant by instant, is valid and has that value |
| `TimeLockAlgebra.PlusMeaning` | common/timelock.go:253-327 | the sum of two valid time locks is valid and worth the sum of both at every instant |
| `TimeLockAlgebra.PlusUnique` | common/timelock.go:253-327 | any valid list worth the sum everywhere is the sum, item for item |
| `TimeLockAlgebra.PlusCommutative` | common/timelock.go:253-327 | the sum does not depend on the order of its operands, item for item |
| `TimeLockAlgebra.PlusAssociative` | common/timelock.go:253-327 | nor on how three operands are grouped |
| `TimeLockAlgebra.PlusEmpty` | common/timelock.go:253-280 | the empty time lock is neutral |
| `TimeLockAlgebra.MinusMeaning` | common/timelock.go:330-354 | the difference of a time lock and an interval it covers is valid and worth the difference at every instant |
| `TimeLockAlgebra.MinusUnique` | common/timelock.go:330-354 | any valid list worth the difference everywhere is the difference, item for item |
| `TimeLockAlgebra.MinusThenPlus` | common/timelock.go:253-354 | subtracting a covered interval and adding it again returns the original item for item |
| `TimeLockAlgebra.PlusThenMinus` | common/timelock.go:253-354 | adding an interval and subtracting it again returns the original item for item |
| `TimeLockAlgebra.UnexpiredMeaning` | common/timelock.go:411-421 | dropping ended items keeps the list valid and its value from the given instant on, and leaves nothing that ended before |
| `TimeLockOps.AddItemsMeaning` | common/timelock.go:96-135 | adding two intervals, disjoint or overlapping in any way, gives pieces worth the sum at every instant |
| `TimeLockOps.SubItemsMeaning` | common/timelock.go:137-168 | for any two intervals the pieces are valid and within the first; if they overlap and the first is worth enough, the second is taken out within the span of the first and its part behind is missing, otherwise all of it is missing; pieces and missing part account for the whole second interval exactly if none of it lies before the first or nothing was taken |
| `TimeLockOps.IsValid` | common/timelock.go:423-438 | accepts exactly the sorted, disjoint, positive lists without mergeable neighbours |
| `TimeLockOps.TimeLock.constructor` | common/timelock.go:458-463 | items are stored as clones, which keep the magnitude of the value |
| `TimeLockOps.CloneNormal` | common/timelock.go:46-52 | cloning changes nothing in a valid list |
| `TimeLockOps.TimeLock.Add` | common/timelock.go:253-327 | the two-cursor merge with its carried tail ends and leaves exactly the sum; it returns nothing exactly when both operands are empty |
| `TimeLockOps.TimeLock.Cmp` | common/timelock.go:357-409 | for a single interval the answer is non-negative exactly when the interval is valid and covered at every instant, except for one family at instant 0; it is 0 exactly when moreover the spans are equal and the first amount of the list, or the first one below it, is the interval's |
| `TimeLockOps.CoveredButRefused` | common/timelock.go:376-400 | a covered interval starting at instant 0 that is refused, because an end of 0 reads as nothing seen yet |
| `TimeLockOps.TimeLock.Sub` | common/timelock.go:330-354 | succeeds exactly when the comparison allows it, then leaves exactly the difference, else nothing changes |
| `TimeLockOps.TimeLock.ClearExpired` | common/timelock.go:411-421 | keeps exactly the items that have not ended |
| `TimeLockDisplay.LeadingRun` | common/timelock.go:500-514 | finds the longest run of adjacent intervals at the front, its end, and the cell of its smallest value |
| `TimeLockDisplay.Peel` | common/timelock.go:525-534 | takes the smallest value off the run in place, removing the intervals that reach zero, without changing the shared cell of that value or the intervals behind the run |
| `TimeLockDisplay.PeeledVal` | common/timelock.go:525-534 | what is left of a run plus one interval over its whole span with the peeled value is worth the run at every instant |
| `TimeLockDisplay.RoundConserves` | common/timelock.go:496-535 | one round keeps the value at every instant and strictly shortens the work list |
| `TimeLockDisplay.SortedByValueSorts` | common/timelock.go:470-478 | the final order is by descending value and loses nothing |
| `TimeLockDisplay.ToDisplay` | common/timelock.go:492-538 | the shown intervals sum to the original at every instant, are valid, largest first and at most as many; the input is not changed; of any two shown intervals one lies properly inside the other or there is an instant between them, so that they are exactly the stretches on which the amount stays above both neighbours, each worth the rise |
| `TimeLockDisplay.RoundLayers` | common/timelock.go:499-534 | a round keeps the shown intervals nested or apart, and what is left to do in their gaps |
| `TimeLockLayers.LayersAreRises` | common/timelock.go:492-538 | in a list of intervals that are nested or apart an interval occurs exactly if the step function of the list stays above both its neighbours all along it and the least rise is its value |
| `TimeLockLayers.LayersUnique` | common/timelock.go:492-538 | so the step function determines such a list up to the order of its intervals |
| `StateDb.StateDB.AddBalance` | core/state/statedb.go:439-444 | adds to one balance and changes nothing else |
| `StateDb.StateDB.SubBalance` | core/state/statedb.go:447-452 | subtracts from one balance and changes nothing else |
| `StateDb.StateDB.AddTimeLockBalance` | core/state/state_object.go:428-445 | the new time lock is the sum of the old one and the amount without the ended items |
| `StateDb.StateDB.SubTimeLockBalance` | core/state/state_object.go:447-460 | the new time lock is the difference without the ended items |
| `StateDb.StateDB.GenAsset` | core/state/statedb.go:1013-1029 | stores a new asset, or reports that it exists and changes nothing |
| `StateDb.StateDB.AddSwap` | core/state/statedb.go:1196-1212 | stores a new swap, or reports that it exists and changes nothing |
| `StateDb.StateDB.RemoveSwap` | core/state/statedb.go:1230-1245 | removes a swap that exists |
| `StateDb.StateDB.AddMultiSwap` | core/state/statedb.go:1271-1287 | stores a new multi swap, or reports that it exists and changes nothing |
| `StateDb.StateDB.RemoveMultiSwap` | core/state/statedb.go:1305-1321 | removes a multi swap that exists |
| `StateDb.StateDB.AddTicket` | core/state/statedb.go:1113-1125 | stores a new ticket, or reports that it exists and changes nothing |
| `StateDb.StateDB.NewNotation` | core/state/statedb.go:864-885 | issues the next number to an account without one |
| `StateDb.StateDB.MoveNotation` | core/state/statedb.go:949-978 | moves a short account number, whose previous one is released |
| `LedgerState.CreditSupply` | core/state/state_object.go:373-411 | a credit changes the supply of its asset by the amount at every instant |
| `LedgerState.AddLockSupply` | core/state/state_object.go:428-445 | a time lock added changes the supply by its value at every instant from the block's time on |
| `LedgerState.SubLockSupply` | core/state/state_object.go:447-460 | a covered interval subtracted changes the supply by its value |
| `LedgerConservation.GenAssetConserves` | core/state_transition.go:309-326 | a new asset's supply is its recorded total; no other supply changes, whatever the outcome |
| `LedgerConservation.SendAssetConserves` | core/state_transition.go:327-342 | sending changes no supply |
| `LedgerConservation.ValueChangeConserves` | core/state_transition.go:496-545 | the supply changes exactly as the recorded total |
| `LedgerConservation.TimeLockConserves` | core/state_transition.go:343-419 | locking, moving and redeeming time locks changes no supply from the block's time on, for a redemption from its start on |
| `LedgerConservation.RedeemConservesIff` | core/state_transition.go:410-419 | the supply is conserved from the block's time on exactly when no redemption with a later start is accepted; in between it grows by the redeemed amount |
| `LedgerConservation.EarlyRedemptionInflates` | core/state_transition.go:410-419 | a concrete redemption that doubles five units for an instant |
| `LedgerConservation.BuyTicketConserves` | core/state_transition.go:420-495 | what a ticket holds is what was taken, from a time lock or from the balance with the surplus locked |
| `LedgerSwaps.MakeSwapConserves` | core/state_transition.go:547-680 | the offer moves into the escrow of the swap |
| `LedgerSwaps.RecallSwapConserves` | core/state_transition.go:681-728 | the escrow moves back |
| `LedgerSwaps.ReceiveKeepsAffordable` | core/state_transition.go:839-847 | crediting the owner first never makes the price unaffordable, even when the taker is the owner, so the subtraction cannot fail |
| `LedgerSwaps.ShrinkSwapMeaning` | core/state_transition.go:823-837 | shrinking or removing a swap releases exactly the escrow of the taken part |
| `LedgerSwaps.TakeSwapConserves` | core/state_transition.go:729-874 | price and released escrow change hands and no supply changes, whatever is swapped |
| `LedgerSwaps.TakenIsDone` | core/state_transition.go:729-874 | a taking ends well exactly when its checks pass and the price can be paid; a short account number that passed the check can always be handed over |
| `LedgerSwaps.NumberMoves` | core/state/statedb.go:949-978 | the number of an account can always be moved, becomes the receiver's, whose own one is looked up to nobody then, and leaves the others' alone; an account that moves it to itself loses it |
| `LedgerSwaps.NumberHandedOver` | core/state_transition.go:849-855 | a taken number is the taker's exactly when the taker is not its owner |
| `LedgerSwaps.SelfTakingLosesNumber` | core/state_transition.go:849-855 | a concrete run of three calls in which an account is issued a number, offers it, takes the offer itself and has no number afterwards |
| `LedgerSwaps.MoveKeepsNotations` | core/state/statedb.go:949-978 | every account's number stays looked up to that account |
| `LedgerSwaps.GenKeepsNotations` | core/state/statedb.go:864-885 | an issued number is new and looked up to its receiver; no other number changes |
| `LedgerSwaps.GenNotationConserves` | core/state_transition.go:301-308 | issuing a number changes no supply and keeps the ledger well formed |
| `LedgerState.FirstNumbers` | core/state/statedb.go:980-987 | the first short account numbers are 104 and 207 |
| `LedgerState.DisplayInjective` | core/state/statedb.go:980-987 | different counts give different numbers |
| `LedgerMultiSwaps.MakeMultiSwapConserves` | core/state_transition.go:925-1098 | all legs move into the escrow or none, for any number of legs and repeated assets |
| `LedgerMultiSwaps.MakeMultiSwapConservesIff` | core/state_transition.go:925-1098 | the supply is conserved exactly when no accepted and affordable call meets a multi swap with its identifier, since only single swaps are looked up first |
| `LedgerMultiSwaps.ClashLoses` | core/state_transition.go:1048-1098 | on such a clash the payment is lost |
| `LedgerMultiSwaps.ClashExample` | core/state_transition.go:1048-1098 | a concrete run of two offers under one identifier, the second of which loses a unit |
| `LedgerMultiSwaps.RecallMultiSwapConserves` | core/state_transition.go:875-924 | the escrow moves back |
| `LedgerMultiSwaps.TakeMultiSwapConserves` | core/state_transition.go:1099-1292 | prices and released escrow change hands and no supply changes |
| `LedgerDryRun.TryLegAgrees` | core/state_transition.go:1017-1046 | trying one leg on the copied balances succeeds exactly when paying it does, and leaves copies that agree with the ledger from the block's time on |
| `LedgerDryRun.DryRunDecides` | core/state_transition.go:963-1090 | the dry run over the copies succeeds exactly when all legs can be paid in turn, for any legs and repeated assets |
| `LedgerRuns.StepConserves` | core/state_transition.go:296-1295 | every call, whatever its outcome, keeps the ledger well formed and changes each supply exactly as its recorded total |
| `LedgerRuns.StepMultiIds` | core/state_transition.go:296-1295 | a call can add no multi swap but the one named by its transaction |
| `LedgerMultiSwaps.FillMeaning` | core/state_transition.go:1143-1167 | writing the intervals into the table goes out of range exactly when a time-locked price has no slot; otherwise each stands in its own slot |
| `LedgerRuns.CrashesIff` | core/state_transition.go:1143-1167 | over all calls the only out-of-range write is that of an accepted taking of a multi swap with a time-locked price beyond the number of assets offered |
| `LedgerRuns.StepKeepsStuck` | core/state_transition.go:296-1295 | such an offer stays as it is under every call but the recall by its owner |
| `LedgerRuns.StuckForGood` | core/state_transition.go:1099-1292 | over every run without that recall the offer stays open and every accepted taking of it crashes |
| `LedgerRuns.MadeStuck` | core/state_transition.go:925-1098 | making an offer does not look at the number of its prices, so an accepted one can be stuck from the start |
| `LedgerRuns.CrashExample` | core/state_transition.go:1143-1167 | a concrete offer that is accepted and whose taking crashes |
| `LedgerRuns.RunConserves` | core/state_transition.go:296-1295 | over every run of calls with fresh transaction hashes the supply of each asset changes exactly as its recorded total |
| `LedgerRuns.TotalsStayExact` | core/state_transition.go:296-1295 | an asset whose supply is its recorded total keeps it so over every run |
| `LedgerHoldings.SendAssetHolding` | core/state_transition.go:327-342 | exactly the sender loses and exactly the receiver gains the amount |
| `LedgerHoldings.GenAssetHolding` | core/state_transition.go:309-326 | the whole new supply is the sender's |
| `LedgerHoldings.ValueChangeHolding` | core/state_transition.go:496-545 | only the owner changes the supply, and only its own account can lose |
| `LedgerHoldings.TimeLockOthersKeep` | core/state_transition.go:343-419 | nobody but the sender loses by a time-lock call |
| `LedgerHoldings.BuyTicketOthersKeep` | core/state_transition.go:420-495 | a ticket changes nobody's holding but the buyer's |
| `LedgerHoldings.MakeSwapHolding` | core/state_transition.go:547-680 | an accepted swap costs its owner exactly its escrow and nobody anything else |
| `LedgerHoldings.RecallSwapHolding` | core/state_transition.go:681-728 | only the owner can recall and gets exactly the escrow |
| `LedgerHoldings.MakeThenRecall` | core/state_transition.go:547-728 | making a swap and recalling it leaves every holding as it was, from the recall on |
| `LedgerHoldings.TakeSwapHolding` | core/state_transition.go:729-874 | a taking is done exactly when its checks pass and the price can be paid; then the taker pays the price to the owner and gets the released part, else nothing changes |
| `LedgerHoldings.MakeMultiSwapHolding` | core/state_transition.go:925-1098 | an accepted multi swap costs its owner exactly its escrow |
| `LedgerHoldings.RecallMultiSwapHolding` | core/state_transition.go:875-924 | only the owner can recall and gets exactly the escrow |
| `LedgerHoldings.TakeMultiSwapHolding` | core/state_transition.go:1099-1292 | the exchange with all legs at once, also when taker and owner are the same |
| `LedgerHoldings.OthersKeep` | core/state_transition.go:296-1295 | no account but the sender loses anything by any call, at any instant from the block's time on |
| `LedgerHoldings.SilentKeep` | core/state_transition.go:296-1295 | over every run an account that sends nothing never loses |
| `LedgerEffects.PrepareIff` | core/state_transition.go:766-821 | a leg can be paid exactly if the balance suffices for a plain one, and for any other one the time lock covers what is left of the interval at every instant or, where allowed, the balance suffices |
| `LedgerEffects.PayAllIff` | core/state_transition.go:1016-1090 | several legs can be paid exactly if each can from what the ones before it left |
| `LedgerEffects.GenAssetDone` | core/state_transition.go:309-326 | an asset is made exactly under the stated limits on its parameters; every field of the record is the parameter's, the owner the sender, the identifier the transaction's; the sender gets the total |
| `LedgerEffects.SendAssetDone` | core/state_transition.go:327-342 | an amount is sent exactly if it is positive, named and covered; then exactly the two balances change |
| `LedgerEffects.ValueChangeDone` | core/state_transition.go:496-545 | exactly the owner of a changeable asset changes its supply, a decrease only on its own covered account; of the record only the total changes |
| `LedgerEffects.TimeLockIff` | core/state_transition.go:343-419 | a time-lock call is done exactly if its interval is not over and balance or time lock cover it, a redemption only once its start has come |
| `LedgerEffects.TimeLockHolding` | core/state_transition.go:343-419 | then for every account and instant: the receiver has the amount more during the interval, or for good after a redemption, the sender has it less during the interval, and the balances are as stated |
| `LedgerEffects.BuyTicketDone` | core/state_transition.go:420-495 | a ticket is bought exactly if it is new, lives long enough, is not over and is covered by time lock or balance; its record has the buyer, the height and the times |
| `LedgerEffects.BuyTicketHolding` | core/state_transition.go:420-495 | it costs the buyer its price during its time, from the balance exactly if the time lock does not cover it |
| `LedgerEffects.MakeSwapDone` | core/state_transition.go:547-680 | an offer is accepted exactly under the stated conditions on its parameters, on the asked asset and on what is offered; every field of its record is the parameter's, or that of one number for all time |
| `LedgerEffects.MakeSwapPays` | core/state_transition.go:547-680 | it costs the maker exactly what is offered, from the balance exactly as far as it is plain or the time lock does not cover it |
| `LedgerEffects.RecallSwapDone` | core/state_transition.go:681-728 | exactly the owner can recall an offer, which then is gone; the plain part returns to the balance |
| `LedgerEffects.TakeSwapDone` | core/state_transition.go:729-874 | a part of an offer is taken exactly if it is there, its times are not over, an offered number is still the owner's, and the price can be paid; the offer shrinks by the part or is gone |
| `LedgerEffects.TakeSwapBalance` | core/state_transition.go:729-874 | the balances of owner and taker after a taking |
| `LedgerEffects.MakeThenTake` | core/state_transition.go:547-874 | in the words of the offer: n parts can be taken exactly as long as they last by whoever can pay n times what was asked; that goes to the maker, and the taker gets n times what was offered, or the maker's number |
| `LedgerEffects.MakeMultiSwapDone` | core/state_transition.go:925-1098 | the same for an offer of several assets: the exact condition, every field of the record, and the lost payment under a taken identifier |
| `LedgerEffects.MakeMultiSwapPays` | core/state_transition.go:925-1098 | it costs the maker all legs |
| `LedgerEffects.RecallMultiSwapDone` | core/state_transition.go:875-924 | exactly the owner can recall it, which then is gone |
| `LedgerEffects.TakeMultiSwapDone` | core/state_transition.go:1099-1292 | a part is taken exactly if it is there, no interval is over, every time-locked price has a slot and all prices can be paid in turn; it crashes exactly for want of a slot; the offer shrinks by the part or is gone |
| `LedgerEffects.TakeMultiSwapBalance` | core/state_transition.go:1099-1292 | the balances of owner and taker after a taking |
| `LedgerEffects.MakeThenTakeMulti` | core/state_transition.go:925-1292 | the taking in the words of the offer |
| `LedgerEffects.FailedKeeps` | core/state_transition.go:296-1295 | over all calls: the exact condition of success, and every call without it leaves the ledger as it was although nothing is reverted, except for a multi swap under the identifier of another |
| `LedgerEffects.GenNotationDone` | core/state_transition.go:301-308 | exactly an account without a number gets one, the next in turn, which nobody had |
| `FsnCallHandlers.Handler.HandleGenNotation` | core/state_transition.go:301-308 | the case does what the ledger step says, for which see `GenNotationDone` |
| `FsnCallHandlers.Handler.HandleGenAsset` | core/state_transition.go:309-326 | the statements of the case do what the ledger step says, errors included; see `GenAssetDone` |
| `FsnCallHandlers.Handler.HandleSendAsset` | core/state_transition.go:327-342 | likewise; see `SendAssetDone` |
| `FsnCallHandlers.Handler.HandleTimeLock` | core/state_transition.go:343-419 | likewise, for the three kinds of conversion; see `TimeLockIff` and `TimeLockHolding` |
| `FsnCallHandlers.Handler.LockAsset` | core/state_transition.go:377-400 | likewise, with the surplus of the whole-future lock returned to the sender |
| `FsnCallHandlers.Handler.HandleBuyTicket` | core/state_transition.go:420-495 | likewise, with the lifetime check in 64-bit arithmetic; see `BuyTicketDone` and `BuyTicketHolding` |
| `FsnCallHandlers.Handler.HandleValueChange` | core/state_transition.go:496-545 | likewise; see `ValueChangeDone` |
| `FsnCallHandlers.Handler.HandleMakeSwap` | core/state_transition.go:547-680 | likewise, with the record stored before the payment is taken; see `MakeSwapDone` and `MakeSwapPays` |
| `FsnCallHandlers.Handler.HandleRecallSwap` | core/state_transition.go:681-728 | likewise; see `RecallSwapDone` |
| `FsnCallHandlers.Handler.HandleTakeSwap` | core/state_transition.go:729-874 | likewise; see `TakeSwapDone` and `MakeThenTake` |
| `FsnCallHandlers.Handler.CopyWallet` | core/state_transition.go:963-979 | the copies agree with the ledger for every asset of the legs |
| `FsnCallHandlers.Handler.DryRun` | core/state_transition.go:1016-1046 | the loop over mutated copies answers exactly whether all legs can be paid from the ledger |
| `FsnCallHandlers.Handler.Deduct` | core/state_transition.go:1048-1083 | after a successful dry run the deduction never sets its error, no subtraction fails, and all legs are paid |
| `FsnCallHandlers.Handler.HandleMakeMultiSwap` | core/state_transition.go:925-1098 | the case does what the ledger step says; see `MakeMultiSwapDone` |
| `FsnCallHandlers.Handler.HandleRecallMultiSwap` | core/state_transition.go:875-924 | likewise; see `RecallMultiSwapDone` |
| `FsnCallHandlers.Handler.FillPrices` | core/state_transition.go:1143-1167 | the loop over the table reports exactly a write out of range |
| `FsnCallHandlers.Handler.HandleTakeMultiSwap` | core/state_transition.go:1099-1292 | likewise, with the table of prices; see `TakeMultiSwapDone` and `MakeThenTakeMulti` |
| `FsnCallHandlers.Handler.HandleFsnCall` | core/state_transition.go:296-1295 | every supported call does what its ledger step says |
| `StateTransitions.GasPool.AddGas` | core/gaspool.go:29-36 | adds unless the 64-bit counter would overflow |
| `StateTransitions.GasPool.SubGas` | core/gaspool.go:39-45 | subtracts unless there is too little |
| `StateTransitions.IntrinsicGas` | core/state_transition.go:89-119 | the 64-bit computation is exact and fails exactly when the price does not fit |
| `StateTransitions.IntrinsicCostOf` | core/state_transition.go:89-119 | the price is 21000, or 53000 for a creation, and 68 for each byte of the data, 4 if it is 0 |
| `StateTransitions.FeeScale` | common/types.go:439-460 | the fees are a tenth of a coin for a number, a hundredth for an asset and a thousandth for an offer or a time lock; other calls are free |
| `StateTransitions.BeforeVmOf` | core/state_transition.go:195-243 | before the machine runs exactly a message that is no creation and has a call makes it, on the ledger from which gas and fee were paid |
| `StateTransitions.StateTransition.UseGas` | core/state_transition.go:154-161 | uses gas exactly when there is enough |
| `StateTransitions.StateTransition.BuyGas` | core/state_transition.go:163-177 | takes gas price and fee from the sender and the gas from the pool, or names the exact reason and changes nothing |
| `StateTransitions.StateTransition.RefundGas` | core/state_transition.go:266-281 | returns unused gas and the refund to the sender and the pool; the refund is the largest that is neither above the counter nor above half the used gas |
| `StateTransitions.StateTransition.PreCheck` | core/state_transition.go:179-190 | a checked nonce must be the account's next one; otherwise the exact error |
| `StateTransitions.StateTransition.TransitionDb` | core/state_transition.go:195-264 | a message goes through exactly when its nonce, payment, pool gas, intrinsic price, call and machine allow it, and then leaves exactly the described ledger; pool and used gas add up; the refund is the largest allowed; an error is the first of the reasons in the order of the checks |
| `StateTransitions.StateTransition.CallFsn` | core/state_transition.go:222-243 | counts the transaction and makes the call; a failed call stops it only while mining, and what the call left stays |
| `StateTransitions.StateTransition.Begin` | core/state_transition.go:195-243 | reaches the machine exactly under the stated conditions, with the ledger, pool and gas as stated |
| `StateTransitions.TransactionPays` | core/state_transition.go:195-286 | every balance after an applied message is the balance before it and what the call and the machine changed, except that the sender pays and the miner gets the price of the used gas and the fee |
| `StateTransitions.TransactionConserves` | core/state_transition.go:195-286 | a transaction around a conserving machine run conserves every supply |
| `StateTransitions.AppliedValid` | core/state_transition.go:195-286 | an applied message leaves a well-formed ledger |
| `StateTransitions.Process` | core/state_processor.go:68-77 | in a processed block each transaction was accepted on the ledger, nonces and pool it found and applied to the ledger its predecessor left, pool plus used gas is the block's limit, and the receipts add up; an error comes exactly from a transaction that does not go through on the ledger, nonces and pool reached |
| `StateTransitions.BlockConserves` | core/state_processor.go:68-77 | over a processed block the supply of every asset changes exactly as its recorded total |
| `HeaderChains.HeaderChain.WriteHeader` | core/headerchain.go:135-199 | after every write the total difficulties are sums along the ancestors, the head has the greatest one, which never falls, and the canonical numbers are exactly a linked chain from genesis to the head |
| `HeaderChains.HeaderChain.ClearAbove` | core/headerchain.go:159-168 | removes exactly the canonical numbers above the new head |
| `HeaderChains.HeaderChain.OverwriteBelow` | core/headerchain.go:170-182 | the loop ends where the new branch meets the old chain, and what it wrote is the branch |
| `HeaderChains.HeaderChain.GetAncestor` | core/headerchain.go:337-367 | returns the n-th ancestor of the plain parent walk or fails, never another block, even for a wrong number as long as the block has that many ancestors; with the block's own number it succeeds exactly when the budget suffices or the walk meets the index, and the budget falls by one for each block before the first canonical one |
| `HeaderChains.TotalDifficultyKept` | core/headerchain.go:135-155 | storing a header changes no total difficulty of another |
| `HeaderChains.CanonicalAncestor` | core/headerchain.go:337-367 | in a linked index the ancestors of a canonical block are the canonical blocks below it |
| `HeaderChains.RewriteDone` | core/headerchain.go:170-188 | a branch rewritten down to the meeting point gives a canonical chain to its top |
| `BlockChains.BlockChain.Insert` | core/blockchain.go:491-508 | writes one canonical number and the head; the header head moves when the number had another block |
| `BlockChains.BlockChain.CommonBase` | core/blockchain.go:1310-1377 | finds the branches of both heads down to their nearest common ancestor and the transactions of the old one |
| `BlockChains.BlockChain.InsertBranch` | core/blockchain.go:1394-1402 | the new branch is inserted from its lowest block up, with its lookup entries |
| `BlockChains.BlockChain.DeleteLookups` | core/blockchain.go:1403-1411 | removes exactly the entries of transactions that only the old branch had |
| `BlockChains.BlockChain.Reorg` | core/blockchain.go:1310-1425 | afterwards numbers up to the new head are its ancestors and the lookup entries are exactly those recomputed from that chain; that chain is parent-linked from the genesis; numbers above a shorter head keep their hashes; a new head is also the head of the headers and of the fast sync |
| `BlockChains.BlockChain.WriteBlockWithState` | core/blockchain.go:898-1018 | a block becomes the head exactly by the rule on total difficulty, number and the preserving flags; every write, on the head, on a side or with a reorganisation, keeps both indexes exact, the numbers parent-linked from the genesis to the head, and the head's total difficulty from falling; the other heads follow |
| `BlockChains.ExactIsLinked` | core/blockchain.go:491-508 | an exact index is parent-linked from the genesis to the head |
| `BlockChains.BlockChain.Adopt` | core/blockchain.go:997-1018 | making a block the head, with or without a reorganisation, makes both indexes exact for it |
| `BlockChains.ForkIndex` | core/blockchain.go:1394-1402 | an index exact for one head and overwritten along the new branch is exact for the new head |
| `BlockChains.ForkLookup` | core/blockchain.go:1394-1411 | the lookup entries after writing the new branch and deleting the difference are exact for the new head |
| `Heaps.TopIsLeast` | core/tx_list.go:30-48 | the top of a heap is at most every element |
| `Heaps.Push` | core/tx_list.go:38-40 | keeps the heap and adds exactly the element |
| `Heaps.Pop` | core/tx_list.go:42-48 | takes the least element and keeps the heap of the others |
| `Heaps.Remove` | core/tx_list.go:158-163 | takes the element at an index and keeps the heap of the others |
| `Heaps.Init` | core/tx_list.go:110-117 | makes a heap of any slice with the same elements |
| `TxSortedMaps.TxSortedMap.Put` | core/tx_list.go:73-79 | the transaction replaces or joins; heap and cache stay in step with the map |
| `TxSortedMaps.TxSortedMap.Forward` | core/tx_list.go:84-98 | removes exactly the lower nonces, returned in order, and shifts the cached order by as many |
| `TxSortedMaps.TxSortedMap.Filter` | core/tx_list.go:102-123 | removes exactly the chosen transactions, each returned once |
| `TxSortedMaps.TxSortedMap.Cap` | core/tx_list.go:127-148 | keeps the lowest nonces up to the limit and returns the others from the highest down; the cached order is cut at the right place |
| `TxSortedMaps.TxSortedMap.Remove` | core/tx_list.go:152-169 | removes one nonce and reports whether it was there |
| `TxSortedMaps.TxSortedMap.Ready` | core/tx_list.go:178-193 | returns and removes the longest run of consecutive nonces from the smallest, exactly when that one is due, also at the last 64-bit nonce |
| `TxSortedMaps.TxSortedMap.Flatten` | core/tx_list.go:203-216 | returns exactly the transactions in nonce order, from the cache or not |
| `TxSortedMaps.OneOrder` | core/tx_list.go:203-216 | there is only one such order, so a cached list is the recomputed one |
| `TxSortedMaps.CutAt` | core/tx_list.go:92-146 | cutting the ordered list at a nonce gives the ordered lists of both parts of the map |
| `TxLists.TxList.Add` | core/tx_list.go:251-272 | a replacement is accepted exactly when it outbids the old price and its percentage; the caps keep bounding every stored transaction |
| `TxLists.OutbidsIff` | core/tx_list.go:255-261 | a replacement must cost more than the old transaction and at least the wanted percentage of it, rounded down |
| `TxLists.SurvivingIff` | core/tx_list.go:316-333 | a transaction survives exactly if it is not chosen and, in a strict list, none with a lower nonce is |
| `TxLists.AffordableIff` | core/tx_list.go:290-312 | the same for the limits on cost and gas |
| `TxLists.BumpIsPercent` | core/tx_list.go:255-258 | the factor is a hundred plus the bump as long as it fits 63 bits |
| `TxLists.TxList.Forward` | core/tx_list.go:277-279 | drops the lower nonces and keeps a gap-free range gap-free |
| `TxLists.ShortcutIsNaive` | core/tx_list.go:290-294 | when the caps are within the limits the plain filter would remove nothing |
| `TxLists.TxList.Filter` | core/tx_list.go:290-314 | with or without the shortcut, removes exactly what exceeds the limits and in a strict list what is above the lowest such nonce; a gap-free range stays gap-free |
| `TxLists.TxList.FilterInvalid` | core/tx_list.go:316-332 | the same for any predicate |
| `TxLists.FilterPartitions` | core/tx_list.go:290-332 | kept, removed and invalidated transactions partition the old list |
| `TxLists.SurvivorsGapFree` | core/tx_list.go:296-313 | what a strict filter keeps of a gap-free range is gap-free |
| `TxLists.TxList.Cap` | core/tx_list.go:336-338 | keeps the lowest nonces and a gap-free range gap-free |
| `TxLists.TxList.Remove` | core/tx_list.go:343-354 | removes the nonce and in a strict list everything above it, so that no gap opens |
| `TxLists.TxList.Ready` | core/tx_list.go:363-365 | the longest due run leaves the list |
| `TxPricedLists.TxPricedList.Put` | core/tx_list.go:432-434 | a transaction that is already in the lookup joins the heap, which then covers the lookup |
| `TxPricedLists.TxPricedList.Removed` | core/tx_list.go:439-454 | counts the stale entry, or rebuilds the heap with exactly the lookup, also while dropped transactions still wait to leave it |
| `TxPricedLists.TxPricedList.Cap` | core/tx_list.go:458-485 | returns exactly the live transactions of remote accounts under the price, each as often as the heap had it, despite stale entries; no other live entry is lost |
| `TxPricedLists.TxPricedList.Underpriced` | core/tx_list.go:489-511 | true exactly for a remote transaction when there are live ones and none is cheaper |
| `TxPricedLists.TxPricedList.Discard` | core/tx_list.go:515-538 | returns live remote transactions, as many as asked or all, and leaves no live remote one that is cheaper than a dropped one, or as cheap with a higher nonce; no other live entry is lost |
| `TxPricedLists.PricedPool.Join` | core/tx_pool.go:785-788 | a transaction enters the lookup and then the heap, which covers the lookup again |
| `TxPricedLists.PricedPool.Leave` | core/tx_pool.go:770-771 | a transaction leaves the lookup and the heap is told |
| `TxPricedLists.PricedPool.RemoveAll` | core/tx_pool.go:902-933 | while dropped transactions leave one by one and displace others, the heap covers what is to stay; the lookup loses exactly the dropped and the displaced ones |
| `TxPricedLists.PricedPool.SetGasPrice` | core/tx_pool.go:488-497 | exactly the remote transactions under the price leave, and what they displace |
| `TxPricedLists.PricedPool.MakeRoom` | core/tx_pool.go:663-670 | at most the given number of entries are taken off the heap, all remote transactions if fewer; no remote transaction that was not taken is cheaper, or as cheap with a higher nonce, and the lookup loses exactly them and what their removal displaces |
| `TxPricedLists.PricedPool.Compare` | core/tx_pool.go:659-663 | the answer is that for the whole lookup |
| `TxPricedLists.PricedPool.Run` | core/tx_pool.go:655-700 | after every sequence of these steps the heap covers the lookup |
| `TxPricedLists.CheapestFirst` | core/tx_list.go:508-510 | a live top of the heap is the cheapest live transaction |
| `PendingLevels.LevelMeaning` | core/tx_pool.go:1006-1076 | with a common level every cut list has exactly that length, every other remote list at most that, and local lists and lists within the allowance are untouched |
| `PendingLevels.CapDropsLast` | core/tx_pool.go:1036-1037 | capping a list to one less returns exactly its last transaction and keeps the others in order |
| `PendingLevels.TrackedMeaning` | core/tx_pool.go:1036-1048 | the lookup loses exactly the dropped ends of the lists, and an account's next nonce falls to its first dropped transaction if it was above |
| `PendingLevels.PendingPool.CapList` | core/tx_pool.go:1036-1037 | the list object loses its last transaction; the other lists stay |
| `PendingLevels.PendingPool.DropLast` | core/tx_pool.go:1036-1048 | the dropped transaction leaves the list and the lookup, the price heap is told and still covers the lookup, and the account's next nonce is not above it |
| `PendingLevels.PendingPool.Lower` | core/tx_pool.go:1035-1050 | a round shortens every offender by one and counts it |
| `PendingLevels.PendingPool.CutDown` | core/tx_pool.go:1033-1073 | rounds go on exactly until the total fits or the offenders are down to the bound |
| `PendingLevels.PendingPool.Penalise` | core/tx_pool.go:1024-1052 | a further offender brings the earlier ones down towards its length |
| `PendingLevels.PendingPool.Equalise` | core/tx_pool.go:1006-1076 | there is a level, at least the allowance, to which exactly the longer remote lists are cut; it ends with the total within the limit or every remote list within its allowance, and undershoots the limit by less than the number of penalised accounts; list objects, lookup, price heap and nonces follow |
| `Feeds.Feed.Subscribe` | event/feed.go:73-93 | one more channel will be served |
| `Feeds.Feed.Find` | event/feed.go:213-220 | the index of a channel, or -1 exactly when it is absent |
| `Feeds.Feed.Delete` | event/feed.go:223-225 | takes a case out of the shared array in order |
| `Feeds.Feed.Deactivate` | event/feed.go:228-232 | swaps a case behind the unserved prefix |
| `Feeds.Feed.Remove` | event/feed.go:104-125 | an unsubscribe outside a send removes exactly that channel, from the inbox or the cases |
| `Feeds.Feed.TryAll` | event/feed.go:156-165 | the fast path keeps the prefix of unserved cases |
| `Feeds.Feed.SelectOne` | event/feed.go:169-181 | a delivery or an unsubscribe keeps the prefix, and the two lengths together fall |
| `Feeds.Feed.Send` | event/feed.go:129-190 | whichever subscribers leave or join meanwhile and in every interleaving with them, each subscriber that stays gets the value exactly once, nobody gets it twice, the count is that of the deliveries, and the cases left are the subscribers that stayed |
| `Feeds.DeliverStep` | event/feed.go:160-180 | a delivery moves a case from the unserved prefix to the served part |
| `Feeds.RemoveStep` | event/feed.go:171-177 | a removal keeps both parts, wherever the case was |
| `Feeds.AllServed` | event/feed.go:166-168 | when only the first case is left, every subscriber that stayed has been served |
| `ChainIndexers.ChainIndexer.SetValidSections` | core/chain_indexer.go:453-465 | writes the count and removes exactly the heads from there on |
| `ChainIndexers.ChainIndexer.NewHead` | core/chain_indexer.go:239-296 | a reorganisation cuts known and stored sections, their heads, the persisted count and the cascaded head to the reorganised point, on any index; a new head makes exactly the complete confirmed sections known; an index in order stays in order |
| `ChainIndexers.SectionOfMeaning` | core/chain_indexer.go:244-246 | a block lies among the numbers of its section |
| `ChainIndexers.ChainIndexer.Deliver` | core/chain_indexer.go:239-296 | notices one after the other cut the index to the lowest of their sections |
| `SectionResets.CutAllStored` | core/chain_indexer.go:257-260 | what several reorganisations leave are the sections below the lowest of them |
| `ChainIndexers.ChainIndexer.Walk` | core/chain_indexer.go:392-412 | whatever notices arrive at any time, the walk succeeds exactly when every block is there, follows the one before it and is taken by the backend; then the blocks are a linked run of the section's length from the given head |
| `ChainIndexers.ChainIndexer.ProcessSection` | core/chain_indexer.go:382-412 | for any answers of the chain and of the backend and any notices meanwhile: the exact condition of success, and the index, which is cut by the notices alone unless the reset fails; if it fails, the index is where the interleaved statements of the reset and of the notices lead |
| `ChainIndexers.ChainIndexer.Update` | core/chain_indexer.go:313-375 | the section is stored exactly when processing succeeds and no notice is for a stored section, and otherwise the index is cut by the notices alone; the children are told its end; the stored sections link up after every turn whose reset does not fail, and the index stays in order, with heads exactly below the count, which is also the persisted one, after every such turn and after a failing reset with harmless notices |
| `ChainIndexers.ChainIndexer.Interrupt` | core/chain_indexer.go:239-262 | notices that get the lock one after another run any number of their statements between two statements of a failing reset |
| `ChainIndexers.ChainIndexer.DropAll` | core/chain_indexer.go:387-390 | the statements of a failing reset, which does not take the lock, interleaved with those of any notices, do to the fields what the run of the two calls does to the index, and end |
| `SectionResets.AloneMeaning` | core/chain_indexer.go:453-465 | a call that runs alone ends, even from a wrapped counter, with the number written and exactly the heads from there on removed |
| `SectionResets.HarmlessReset` | core/chain_indexer.go:382-390 | in every interleaving of a failing reset with harmless notices the index ends empty, in memory and in the database |
| `SectionResets.DroppedHarmless` | core/chain_indexer.go:313-390 | whichever of them come before, during or after the reset, harmless notices leave an index that was in order empty |
| `SectionResets.SpoiledIff` | core/chain_indexer.go:382-390 | for any list of notices during a failing reset, some interleaving leaves the index out of order if and only if the list is not harmless: one of its sections is stored and at least two are, or one section is stored, a notice is for it and a later one for another section below the largest counter |
| `SectionResets.ResetExample` | core/chain_indexer.go:453-465 | five stored sections, a failing reset and one notice for section 2: nothing is stored, no head is there, and the persisted count is 2 |
| `SectionResets.LateNotice` | core/chain_indexer.go:256-260 | a notice that has compared its section while the reset runs makes memory and database count sections without a head |
| `SectionResets.HeadLeft` | core/chain_indexer.go:460-463 | a notice for the first section between a count down and the removal leaves the head that was counted past |
| `SectionResets.CounterWraps` | core/chain_indexer.go:460-463 | a notice for the first section between the test and the count down makes the unsigned counter wrap |
| `ChainIndexers.StoredChain` | core/chain_indexer.go:313-412 | the stored sections are one parent-linked chain from the first block to the last stored head |

## Left out

- HeaderChain.SetHead and BlockChain.SetHead: rolling back orphans side branches, whose headers then lack parents; it would only add a weaker tree invariant.
- StateTransitions.Process: does not model what follows the transactions, the finalisation of the block: ticket selection, ticket return and block rewards of the consensus engine, and the fork of the balances at one block before them.
- LedgerSwaps.GenKeepsNotations: does not model the wrap-around of the 64-bit count of short account numbers, which takes more than 10^17 of them.
- LedgerState.DisplayInjective: the same wrap-around.
- StateDb.StateDB.NewNotation: the same wrap-around.
- The virtual machine, tries, RLP coding, JSON logs, signatures and hashing: library code or opaque values.
- Journalling and snapshots of the state database: block import does not revert a failed FSN call.
- TxPricedLists.TxPricedList.Removed: does not relate the stale counter to the number of stale entries, because re-adding a transaction whose old entry is still in the heap breaks that count.
- ChainIndexers.ChainIndexer.Update: does not claim that a stored section is canonical at every moment, since a notice during the processing of the same section does not invalidate it.
- ChainIndexers.ChainIndexer.DropAll: a statement of the program is one step; counting down, which is a read and a write of the counter, is not split further.
- ChainIndexers.ChainIndexer.NewHead: children are modelled by the notices passed on; a child is another indexer fed with them. The wake-up channel and its timer are not modelled.
- Feeds.Feed.Send: the type check of the value, locks and the once-only initialisation; other sends wait for the lock.
- FsnCallHandlers.Handler.HandleFsnCall: the log entries of each call.
- Pool validation and the queue limits of the transaction pool: wall-clock reads, decoding and pool-wide state.
- WriteBlockWithoutState, InsertReceiptChain and the state cache of `WriteBlockWithState`: input and output.
- Networking, RPC, consoles, metrics, key stores and the light client.
