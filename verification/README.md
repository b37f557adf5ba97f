# zns-mint, modelled and proved in Dafny

The mint keeps, block by block, who owns each name, what is for sale, which of its own
orders are in flight and which notes its wallet can spend, and it must take all of that
back when the chain reorganises. This project models those faculties and proves what they
keep over whole runs.

- **Registry** (`AnchorPools`, `NameNotes`, `Registries`, `RegistryLaws`, `RegistryRuns`,
  `RegistryObjects`, `BlockPasses`, `BlockLaws`). Name chains, the live map derived from them and the checkpointed anchor
  pool. A rewind equals a replay of the surviving steps, however many reorganisations
  happened; spent authority is dead; anchor authority is conserved.
- **Market** (`Listings`, `MarketBooks`, `MarketRules`, `MarketInvariants`, `MarketLaws`,
  `MarketRuns`, `SaleTraces`, `MarketObjects`, `MarketExamples`). The live book, the event log and the replay.
  The two agree in every reachable state and at every past height, relay flags of buys exactly
  where no seal touched them; payment matching is exact; every sale note is earned by a trace.
- **Orders and the run loop** (`OrderQueues`, `OrderStanding`, `QueueObjects`, `MintLoop`,
  `MintPasses`, `MintBlocks`, `MintConsistency`,
  `MintExclusion`, `MintOrders`, `MintRewinds`, `MintSales`, `MintHorizon`, `MintClocks`,
  `MintChain`, `MintExamples`). The steps of one turn in the loop's own order, and what every
  run keeps: joint consistency at every height, mutual exclusion, one unresolved order per
  name, earned sale orders, the expiry horizon. Where a rewind can break one of them, the exact
  condition and a run of the loop that breaks it.
- **Wallet** (`WalletTables`, `WalletLaws`, `WalletRewinds`, `WalletSpending`, `WalletObjects`).
  The in-memory tables, what a block makes of them, the rewind that forgets a branch and nothing
  else, and the two readers that must agree.
- **Arithmetic** (`MedianClocks`, `FeeFunding`, `PriceOracles`, `OracleDays`) and **texts** (`Texts`,
  `AmountTexts`, `NoteMemos`, `ChallengeMemos`, `RequestMemos`, `WireForms`).

Each faculty that the source updates in place has a specification on values and a class
whose methods work as the source does and are proved equal to that specification; the
run theorems are about the specification.

What each operation answers is stated apart from the function that computes it: the `...Laws`
modules, `MintPasses`, `MintBlocks`, `OracleDays` and `WireForms` write out, for every input, the
verdict, the records, sales, orders, tables, prices or bytes it leaves, and several of them that
nothing else would do.

Chain facts are explicit hypotheses where they are used: steps come at nondecreasing
heights, a note's nullifier is fresh when the note appears, a transaction is mined once and a
note spent once. The commitment function and the expiry delta are parameters (`Network`);
nothing is assumed about them except, where stated, that the delta never shrinks. `D_OTP` is
1800 s, `MAX_ATTEMPTS` 6 (`src/mint/treasury/otp.rs`), `D_DUTCH` 600 s, the standing pool 40.

Where the code does less than a reader may expect, the model follows the code:

- Uniqueness and rewinds. `NameNoteQueue::rewind_to` turns every surviving seen order back to
  authorized, so uniqueness is stated after the reconciliation that follows it. A claim is
  admitted at the height of its payment, so it can originate below the confirmation of an
  earlier order of its name, and a rewind between the two brings both back:
  `MintExamples.ReleaseComesBack` is such a run. `MintOrders.OneOrderPerNameIff` says exactly
  which runs keep uniqueness, `OrderQueues.RewindOneIff` which rewinds, and
  `MintOrders.OneOrderPerNameThroughRewinds` gives a condition on claims that suffices.
- Exclusion and rewinds. The same late claim can come back beside a restored buy
  (`MintExamples.BuyComesBack`). `MintRewinds.ExclusionIff` says exactly when that happens, and
  `MintRewinds.BuysExcludeThroughRewinds` excludes it when each claim admitted by a pass was
  paid at or above the last record of its name. A bound by what the queue has seen is not
  enough: a foreign spend releases a name without any order.
- `seal_replayed_buys` rewrites old log entries as relayed, so a height that ended before the
  seal comes back with relay flags that were not set (`MarketExamples.SealLosesFlags`).
  `MarketRuns.RollbackRestoresHeight` has the exact condition, and
  `MarketRuns.UnsealedRollbackIsStrict` the heights at which it always holds.
- A rewind moves the clock back under notes already signed. When such a note is mined, a live
  expiry lies outside the horizon and the holder's address-only update is refused
  (`MintClocks.RewoundClockRefuses`). `MintClocks.HorizonIff` says exactly on which runs no such
  update is refused; `MintHorizon` covers all lives without rewinds, restarts included.
- An `OtpMemo` with details its verb does not carry, or with a verb that is never challenged,
  encodes to text that reads back differently or not at all (`ChallengeMemos.UpdateLosesListing`,
  `ChallengeMemos.SaleIsNoChallenge`): `ChallengeMemos.ChallengeRoundTrip` states the exact
  condition. A negative expiry instant has a text the parser refuses (`NoteMemos.ExpiryRoundTrip`).

Verify with `dafny verify dfyconfig.toml`.

## Model

| member | source | states |
|---|---|---|
| `AnchorPools.AdoptKeepsInv` | src/mint/registry/anchor_pool.rs:68-78 | adoption keeps the pool at or below standing size, its live set the latest checkpoint, and records the height at which it first fills |
| `AnchorPools.RetireKeepsInv` | src/mint/registry/anchor_pool.rs:85-108 | retiring spent anchors, with or without a successor, keeps the pool invariant and never enlarges the live set |
| `AnchorPools.RetireSeats` | src/mint/registry/anchor_pool.rs:85-108 | every spent anchor leaves, the successor takes the place of exactly one spent anchor and of no more, and the new live set is checkpointed iff any was spent |
| `AnchorPools.AdoptErased` | src/mint/registry/anchor_pool.rs:68-126 | truncating below an adoption leaves the pool as if it had not happened |
| `AnchorPools.RetireErased` | src/mint/registry/anchor_pool.rs:85-126 | truncating below a retirement leaves the pool as if it had not happened |
| `AnchorPools.TruncatePoolTwice` | src/mint/registry/anchor_pool.rs:113-126 | two truncations are the lower one |
| `AnchorPools.TruncateKeepsInv` | src/mint/registry/anchor_pool.rs:113-126 | a truncated pool satisfies the invariant at the height it was truncated to |
| `AnchorPools.AnchorPool.constructor` | src/mint/registry/anchor_pool.rs:29-37 | a new pool is empty and open for adoption |
| `AnchorPools.AnchorPool.AdoptAnchor` | src/mint/registry/anchor_pool.rs:68-78 | the in-place adoption, with its early return, computes the specified pool |
| `AnchorPools.AnchorPool.Retire` | src/mint/registry/anchor_pool.rs:85-108 | the loop over revealed nullifiers retires exactly the live ones and seats a successor for exactly one |
| `AnchorPools.AnchorPool.TruncateTo` | src/mint/registry/anchor_pool.rs:113-126 | dropping later checkpoints restores the latest remaining set and reopens adoption when it closed above the height |
| `Registries.SetRecordKeepsInv` | src/mint/registry.rs:605-617 | a record that fits its chain keeps every chain a life-cycle and the live map derived |
| `Registries.MarkReleasedKeepsInv` | src/mint/registry.rs:575-603 | releasing every name whose note was spent keeps the invariant and removes exactly those names |
| `Registries.AcceptClaimKeepsInv` | src/mint/registry.rs:387-452 | any claim, accepted or refused, keeps the registry invariant |
| `Registries.AcceptSuccessorKeepsInv` | src/mint/registry.rs:457-572 | any update, release or sale, accepted, mismatched or without predecessor, keeps the registry invariant |
| `Registries.FollowSpendsKeepsInv` | src/mint/registry.rs:586-603 | a transaction that only spends keeps the registry invariant |
| `RegistryLaws.FollowLaw` | src/mint/registry.rs:586-603 | a transaction that is only followed releases every name whose note it spends, as it stood and at this height, retires every anchor it spends and changes nothing else |
| `RegistryLaws.ClaimLaw` | src/mint/registry.rs:387-452 | over every lawful registry a claim is accepted iff it spends exactly one live anchor and no name, brings a successor and finds its name free outside the release window; the anchor swapped, the record made, field by field, or the spends followed: exactly that and nothing else |
| `RegistryLaws.SuccessorLaw` | src/mint/registry.rs:457-572 | over every lawful registry an update, release or sale whose transaction spends exactly its name's live note is recorded, field by field, iff it names that note's commitment; otherwise the name is released; in every other case it is refused and the spends are followed: exactly that and nothing else |
| `RegistryRuns.RunKeepsInv` | src/mint/registry.rs:387-617 | over every run each history is a prefix of repeated Claim (Update or Sale)* Release with nondecreasing heights, the live map is exactly the last non-release records, and the pool is lawful |
| `RegistryRuns.RewindIsPrefixReplay` | src/mint/registry.rs:645-664 | truncating to a height equals running only the steps at or below it: history, live records, live anchors, checkpoints and adoption mark |
| `RegistryRuns.ReorganisationsLeaveNoTrace` | src/mint/registry.rs:645-664 | after any interleaving of blocks and rewinds the registry is the one built from the surviving steps |
| `RegistryRuns.TruncateTwice` | src/mint/registry.rs:645-664 | rewinding twice is rewinding once to the lower height |
| `RegistryRuns.TruncateKeepsRegInv` | src/mint/registry.rs:645-664 | a rewound registry satisfies the invariant at the height it was rewound to |
| `RegistryRuns.SpentIsDead` | src/mint/registry.rs:387-603 | over every run with fresh nullifiers no live record and no live anchor carries a spent nullifier, whichever branch was taken |
| `RegistryRuns.ClaimSwapsOneAnchor` | src/mint/registry.rs:387-433 | an accepted claim swaps exactly one live anchor for its successor and takes the name; a refused one seats nobody and releases exactly what it spent |
| `RegistryRuns.AuthorityIsConserved` | src/mint/registry/anchor_pool.rs:68-108 | the live set never exceeds 40, adoption closes at the step where it first reaches 40, and no later step enlarges it |
| `RegistryRuns.StandardClaimPassesIffLater` | src/mint/registry.rs:440-452 | with an expiry delta that never shrinks a standard claim passes the release check iff it targets a height above the release |
| `RegistryObjects.Registry.constructor` | src/mint/registry.rs:137-139 | a new registry is empty |
| `RegistryObjects.Registry.NamesSpent` | src/mint/registry.rs:575-583 | the scan returns, in name order, exactly the live names whose nullifier is revealed |
| `RegistryObjects.Registry.PutRecord` | src/mint/registry.rs:605-617 | a record is appended to its chain and the live map follows |
| `RegistryObjects.Registry.ReleaseSpent` | src/mint/registry.rs:593-603 | every spent live name is released, in order |
| `RegistryObjects.Registry.Follow` | src/mint/registry.rs:586-591 | anchors and names a transaction spends both leave |
| `RegistryObjects.Registry.OfferClaim` | src/mint/registry.rs:387-433 | the early returns leave, on every lawful registry, the verdict, records, chains and anchors written out in the claim law |
| `RegistryObjects.Registry.OfferSuccessor` | src/mint/registry.rs:457-572 | the one-name, no-anchor and predecessor checks leave, on every lawful registry, the verdict, records, chains and anchors written out in the successor law |
| `RegistryObjects.Registry.PopChain` | src/mint/registry.rs:645-664 | popping from the end keeps exactly the records at or below the height |
| `RegistryObjects.Registry.PopChains` | src/mint/registry.rs:645-664 | every chain is cut and an emptied one goes |
| `RegistryObjects.Registry.TruncateToHeight` | src/mint/registry.rs:645-664 | chains, live map and anchors are rewound together |
| `RegistryObjects.Retain` | src/mint/registry.rs:162-209 | the walk over the listings reports, each once and in name order, exactly those the test drops, and keeps the others as they were |
| `RegistryObjects.Registry.FinishClocks` | src/mint/registry.rs:162-173 | a listing is reported, in name order, iff its clock is over; every listing that stays is untouched and still running |
| `RegistryObjects.Registry.ReconcileListings` | src/mint/registry.rs:194-209 | a listing is reported, in name order, iff its lister no longer holds the name; every listing that stays is untouched and its lister the holder |
| `BlockPasses.TxSpends` | src/mint.rs:593-690 | whatever law a transaction is routed to, that law sees exactly the nullifiers it reveals |
| `BlockPasses.EverySpendIsSeen` | src/mint.rs:590-690 | over a chain from the birthday on, the registry sees exactly the nullifiers its transactions reveal |
| `BlockPasses.RevealedIsDead` | src/mint.rs:590-690 | over a whole chain no live name or anchor carries a nullifier any of its transactions revealed |
| `BlockPasses.CeremonyFillsThePool` | src/mint/registry/anchor_pool.rs:21-26 | one ceremony fills an empty pool with its forty outputs and no later output is adopted |
| `BlockLaws.CeremonyIff` | src/mint/registry/anchor_pool.rs:21-26 | a transaction is the ceremony iff it has no Name Note and exactly forty zero-valued Registry outputs of known nullifier |
| `BlockLaws.TxLaw` | src/mint.rs:593-690 | any other transaction is ruled by the law of its one note, with the nullifiers it reveals and, for a claim, the zero-valued output that is its only Registry output as successor; none or several notes are only followed |
| `BlockLaws.BlockInOrder` | src/mint.rs:593-690 | the transactions of a block are ruled one after another, each on what the earlier ones left |
| `BlockLaws.BirthdayRules` | src/mint.rs:593-597 | from the birthday on every transaction is ruled, and before it none |
| `BlockLaws.AcceptedIff` | src/mint.rs:684-690 | the pass returns, in rising order, exactly the transactions whose note is accepted where it stands |
| `BlockPasses.ConfirmBlock` | src/mint.rs:585-690 | the loop over a block's transactions applies their steps in order and returns exactly the accepted notes |
| `Listings.ClockFalls` | src/mint/sale.rs:549-565 | a clock quotes exactly inside its span, from start price down to minimum, and never rises |
| `MarketBooks.ReplayStamped` | src/mint/sale.rs:860-884 | replaying a longer log continues the replay of the shorter one |
| `MarketBooks.UpToIsPrefix` | src/mint/sale.rs:860-884 | in a log of rising heights the entries at or below a height are a prefix |
| `MarketBooks.ApplySim` | src/mint/sale.rs:860-884 | an event applied to two books that agree up to flags and counters keeps them in agreement |
| `MarketInvariants.ExpireOk` | src/mint/sale.rs:812-830 | expiry keeps the book lawful and its log entries make the same book |
| `MarketInvariants.ReconcileOk` | src/mint/sale.rs:833-857 | reconciliation keeps the book lawful and its log entries make the same book |
| `MarketInvariants.PollOk` | src/mint/sale.rs:886-898 | polling keeps the book lawful and its log entries make the same book |
| `MarketInvariants.ObserveOk` | src/mint/sale.rs:798-808 | observing payments keeps the book lawful and its log entries make the same book |
| `MarketInvariants.AdmitOk` | src/mint/sale.rs:1244-1455 | any market memo, admitted or refused, keeps sales, totals and codes distinct and held names free of challenges, and logs what it did |
| `MarketInvariants.AnswerOk` | src/mint/sale.rs:1133-1190 | any answer, right or wrong, keeps the book lawful and logs what it did |
| `MarketInvariants.PaymentsMatchExactly` | src/mint/sale.rs:362-405 | a sale becomes paid iff it is unexpired, held by its lister and some output pays exactly price plus code to its address; totals of unpaid sales are distinct, so no output settles two |
| `MarketInvariants.WrongAnswerClosesExhausted` | src/mint/sale.rs:1181-1190 | a wrong answer closes exactly the named challenges that ran out of attempts and counts against the other named ones |
| `MarketInvariants.RightAnswerSpendsOne` | src/mint/sale.rs:1133-1180 | a right answer spends its own challenge and touches no other challenge, sale or listing |
| `MarketLaws.RemovalKeepsOrder` | src/mint/sale.rs:464-500 | removing names or codes keeps the other sales and challenges in their order |
| `MarketLaws.ExpireLaw` | src/mint/sale.rs:812-830 | exactly the unpaid sales and challenges at or past their deadline and the clock listings past their end go |
| `MarketLaws.ReconcileLaw` | src/mint/sale.rs:833-857 | exactly the sales whose lister or captured note is no longer live, and the challenges and listings of former holders, go |
| `MarketLaws.PollLaw` | src/mint/sale.rs:504-535 | a paid sale without an order on its name owes its sale note iff its lister still holds the captured note and the buyer is someone else; otherwise it closes |
| `MarketLaws.ObserveLaw` | src/mint/sale.rs:362-405 | exactly the unpaid sales in time, still held by their lister, that an output pays price plus code to the zatoshi become paid, in place |
| `MarketLaws.QuotedIsAsked` | src/mint/sale.rs:549-565 | the quote is the flat price, or the clock's price falling evenly in whole zatoshis from start to end, paid to the lister's own address |
| `MarketLaws.BuyLaw` | src/mint/sale.rs:944-1017 | a buy opens iff the fee, owner, release, order, sale and payment checks all pass, at the price asked at that height, with the record captured and the name's challenges closed; otherwise nothing changes |
| `MarketLaws.ListLaw` | src/mint/sale.rs:1045-1084 | a list memo opens one half-hour challenge iff the holder of a name not due lists it to her own address on terms that can sell, with nothing in its way |
| `MarketLaws.DelistLaw` | src/mint/sale.rs:1086-1129 | a delist memo opens one half-hour challenge iff the holder asks, the name is listed and nothing is in its way |
| `MarketLaws.RightAnswerLaw` | src/mint/sale.rs:1133-1180 | a reply that repeats a challenge word for word spends it and lists or delists the name while its controller still holds it and no buy is open |
| `MarketLaws.WrongAnswerLaw` | src/mint/sale.rs:1181-1190 | any other reply counts one attempt against each challenge it addresses, the sixth closing it, and changes nothing else |
| `MarketLaws.RelayLaw` | src/mint/sale.rs:1032-1042 | a code sent out flags its unpaid sale or its challenge and nothing else |
| `MarketRuns.EveryRunAgrees` | src/mint/sale.rs:746-1239 | in every reachable state, through any rewinds and seals, the log replays to the live book and, cut at any height, to the book that held when that height ended; relay flags of buys agree at every height not sealed since |
| `MarketRuns.RollbackRestoresHeight` | src/mint/sale.rs:860-884 | a rollback restores listings, open sales and challenges of the height, in order, and sets no flag of a challenge that was not set; it sets no flag of a buy that was not set iff no buy unrelayed when the height ended was sealed since |
| `MarketRuns.StrictIff` | src/mint/sale.rs:786-796 | a replay that agrees with a past book agrees in relay flags too iff the book was not sealed since or had every buy relayed |
| `MarketRuns.SealedLieBelow` | src/mint/sale.rs:786-796 | on every run the heights a seal has touched lie below the last seal |
| `MarketRuns.UnsealedRollbackIsStrict` | src/mint/sale.rs:860-884 | from the last seal on, and everywhere on a run without one, a rollback to a height the market acted at sets no relay flag that was not set when it ended |
| `MarketExamples.SealLosesFlags` | src/mint/sale.rs:786-796 | a legal run: a buy opened at height 1, sealed at height 2, reads as relayed after a rollback to height 1 |
| `MarketRuns.EveryBookIsLawful` | src/mint/sale.rs:990-1017 | one open sale per name, distinct unpaid totals, distinct codes and no challenge on a name with an open sale, in every reachable state |
| `SaleTraces.SaleNotesAreEarned` | src/mint/sale.rs:504-535 | every sale note owed was opened with its buyer, term and captured note at the price its listing asked at that height, to the lister's own address, and settled later, in time and while the lister held the name, by exactly price plus code, with no lapse or close between |
| `SaleTraces.RollbackResetsChallenges` | src/mint/sale.rs:1209-1218 | after a rollback every surviving challenge is unrelayed with no attempt counted |
| `MarketObjects.RetainSales` | src/mint/sale.rs:464-500 | a retain keeps the others in order and returns the dropped names in order |
| `MarketObjects.CollectCodes` | src/mint/sale.rs:812-857 | the codes to close are those of the matching challenges, in order |
| `MarketObjects.Market.ExpireAll` | src/mint/sale.rs:812-830 | finished clocks, late challenges and late sales go, and the log says so in that order |
| `MarketObjects.Market.ReconcileAll` | src/mint/sale.rs:833-857 | listings, challenges and sales of former holders go, and the log says so in that order |
| `MarketObjects.Market.PollAll` | src/mint/sale.rs:504-535 | the sweep returns exactly the notes owed and closes the sales whose name moved |
| `MarketObjects.Market.FindPayment` | src/mint/sale.rs:387-396 | the search finds the first unused output paying the sale, if any |
| `MarketObjects.Market.ObserveAll` | src/mint/sale.rs:362-405 | the greedy pass with its used marks settles exactly the sales that some output pays |
| `MarketObjects.Market.ReplayEvent` | src/mint/sale.rs:864-882 | one replayed event updates listings, sales and challenges as specified |
| `MarketObjects.Market.RetainEvents` | src/mint/sale.rs:860-861 | the log keeps exactly the entries at or below the height, in order |
| `MarketObjects.Market.TruncateTo` | src/mint/sale.rs:860-884 | live state is thrown away and rebuilt as the replay of the kept log |
| `MarketObjects.Market.Propose` | src/mint/sale.rs:1045-1084 | a list proposal opens the specified challenge or changes nothing |
| `MarketObjects.Market.ProposeRemoval` | src/mint/sale.rs:1086-1129 | a delist proposal opens the specified challenge or changes nothing |
| `MarketObjects.Market.Buy` | src/mint/sale.rs:944-1017 | a buy closes the name's challenges, opens the sale and logs both, or changes nothing |
| `MarketObjects.Market.AdmitMemo` | src/mint/sale.rs:1244-1455 | a market memo is ruled as specified |
| `MarketObjects.Market.CountAttempts` | src/mint/sale.rs:1181-1190 | the loop from the last index down stays in range while it removes, and closes exactly the exhausted challenges |
| `MarketObjects.Market.AnswerMemo` | src/mint/sale.rs:1133-1190 | an answer is carried out or counted as specified |
| `MarketObjects.Market.SealReplayedBuys` | src/mint/sale.rs:786-796 | every live buy ends up relayed, and the rewritten log replays to the old replay with every buy relayed |
| `OrderQueues.AdmitKeepsOne` | src/mint/note.rs:665-674 | admission keeps at most one unresolved order per name |
| `OrderQueues.ReconcileKeepsOne` | src/mint/note.rs:676-698 | reconciliation keeps at most one unresolved order per name |
| `OrderQueues.MarkSentKeepsOne` | src/mint/note.rs:713-725 | broadcasting keeps at most one unresolved order per name |
| `OrderQueues.ExpireKeepsOne` | src/mint/note.rs:727-737 | expiry of a broadcast keeps at most one unresolved order per name |
| `OrderQueues.DropKeepsOne` | src/mint/note.rs:764-772 | dropping the unresolved order of a name frees that name and no other |
| `OrderQueues.RewindKeepsOne` | src/mint/note.rs:702-711 | rewind then reconcile keeps uniqueness when each later order originates at or above the earlier one's confirmation, and keeps that chaining |
| `OrderQueues.RewindPendingIff` | src/main.rs:180-181 | after rewind and reconcile against any registry a name has an unresolved order iff one of its orders originates at or below the height, is unconfirmed there and keeps its authority |
| `OrderQueues.RewindOneIff` | src/main.rs:180-181 | after any rewind and reconcile at most one order per name is unresolved iff no two orders of one name are both admitted at or below the height, unconfirmed there and with their authority current there |
| `MintBlocks.RewindOrdersLaw` | src/mint/note.rs:702-711 | a rewind keeps the orders admitted at or below it, seen ones authorized again; each the cut registry confirms is seen, each other stays iff its authority is current there |
| `QueueObjects.NameNoteQueue.Pending` | src/mint/note.rs:739-744 | the scan tells whether a name has an unresolved order |
| `QueueObjects.NameNoteQueue.Admit` | src/mint/note.rs:665-674 | an order joins iff its name has no unresolved one |
| `QueueObjects.NameNoteQueue.ReconcileWith` | src/mint/note.rs:676-698 | confirmed orders are marked seen and stranded ones removed, in order |
| `QueueObjects.NameNoteQueue.Rewind` | src/mint/note.rs:702-711 | orders from above the ancestor go and seen ones reopen |
| `QueueObjects.NameNoteQueue.Broadcast` | src/mint/note.rs:713-725 | the first authorized order of the name is marked sent |
| `QueueObjects.NameNoteQueue.Expire` | src/mint/note.rs:727-737 | sent orders whose transaction can no longer be mined are authorized again |
| `QueueObjects.NameNoteQueue.Drop` | src/mint/note.rs:764-772 | the first unresolved order of the name is removed |
| `QueueObjects.NameNoteQueue.Outstanding` | src/mint/note.rs:746-754 | the authorized notes, in order |
| `MintPasses.DueNameIsReleased` | src/main.rs:670-702 | a live name whose term or liveness ran out, with no open buy after the poll and nothing waiting but updates that give way, ends the pass with its release, of its live address and commitment, as its one unresolved order |
| `MintPasses.PaidSaleIsOrdered` | src/main.rs:659-666 | a paid sale without an order, its captured note still the lister's live one, gets exactly its sale note ordered at the tip |
| `MintPasses.PaidClaimIsOrdered` | src/main.rs:524-551 | the first paid claim on a free name without an order is ordered at the height of its payment, for its address and term |
| `MintPasses.WaitingOrderSettles` | src/main.rs:670-801 | an order waiting alone is left while its broadcast can be mined, dropped once its authority is gone, otherwise submitted; an update on a due name gives way to the release, or goes while a buy holds the name |
| `MintPasses.OnlyWarrantedOrders` | src/main.rs:488-801 | a pass adds no other order: each new one is a release of such a due name, the note of such a sale or such a first claim, out iff the node took it |
| `MintPasses.PassMarketLaw` | src/main.rs:619-661 | a pass flags the codes and buys it sent out and closes exactly the paid sales without an order whose note is gone |
| `MintBlocks.ReplyLaw` | src/mint/registry.rs:247-275 | a right answer orders the update or release granted against the live record, expiry and commitment included, iff no order and no buy holds the name; nothing else moves |
| `MintBlocks.BuyMemoLaw` | src/main.rs:264-280 | a buy memo is ruled against the registry, clock and orders of its block |
| `MintBlocks.MarketReplyLaw` | src/main.rs:296-310 | a market reply is carried out against the registry of its block |
| `MintBlocks.ReconcileOrdersLaw` | src/mint/note.rs:676-698 | an order confirmed at or above its origin is seen; any other unresolved one stays iff it is a claim or continues the live record |
| `MintBlocks.BlockOrdersLaw` | src/main.rs:200-407 | a block keeps those orders and adds only granted notes at its height |
| `MintBlocks.BlockSalesLaw` | src/main.rs:200-407 | in every reachable state a block leaves exactly the sales in time whose captured note is live under its registry, and those its memos opened, each paid iff an output of the block pays it |
| `MintBlocks.SettledChallenges` | src/main.rs:262-263 | before its memos a block leaves exactly the challenges in time of those who still hold their names |
| `MintBlocks.SettledListings` | src/main.rs:262-263 | and exactly the listings of those who still hold their names whose clock is not over |
| `MintBlocks.SealLaw` | src/mint/sale.rs:786-796 | sealing marks every unpaid live sale and every logged opening relayed |
| `MintConsistency.ExtendOk` | src/main.rs:200-407 | applying a block to every faculty in the loop's order keeps registry and market jointly consistent at every height |
| `MintConsistency.DecideOk` | src/main.rs:488-800 | a decision pass keeps registry and market jointly consistent at every height |
| `MintConsistency.RewindOk` | src/main.rs:153-189 | truncating registry and market to one height leaves them jointly consistent there and below |
| `MintConsistency.EveryTurnIsConsistent` | src/main.rs:153-407 | after every turn of every run, reorganisations included, listings and challenges are the current holder's and every sale's captured address and commitment are the live record's |
| `MintConsistency.SignedSalesAreEarned` | src/main.rs:488-701 | every sale note the market owes in any reachable state was opened and settled as the log shows |
| `MintSales.EverySaleOrderIsEarned` | src/mint/note.rs:746-754 | in every reachable state every sale order in the queue, of this pass or an earlier one or reopened by a rewind, was opened and settled by entries of the log as it stands, the settlement at or below the height of the order |
| `MintExclusion.BuysExcludeOtherOrders` | src/main.rs:264-407 | on every rewind-free run from boot, an unresolved order on a name with an open buy is that paid buy's own sale note |
| `MintRewinds.RewindExcludesIff` | src/main.rs:161-181 | after a rewind open buys exclude other orders iff no order outstanding at the height, the paid buy's own sale note apart, meets a buy restored there and still in time |
| `MintRewinds.ExclusionIff` | src/main.rs:153-407 | over every run exclusion holds after every turn iff no rewind goes to such a height |
| `MintRewinds.BuysExcludeThroughRewinds` | src/main.rs:153-407 | with any rewinds, when each admitted claim is paid at or above the last record of its name, exclusion holds now and at every height a rewind can return to |
| `MintExamples.BuyComesBack` | src/main.rs:545-551 | a legal run: a claim paid while a buy was open, admitted after the name was spent away, comes back beside the buy when that height is restored |
| `MintOrders.OneOrderPerName` | src/mint/note.rs:665-671 | on every rewind-free run no name has two unresolved orders |
| `MintOrders.OneOrderPerNameThroughRewinds` | src/main.rs:161-181 | with any rewinds, too, when each claim is paid at or above what the mint has seen confirmed on its name |
| `MintOrders.OneOrderPerNameIff` | src/main.rs:153-407 | over every run no name ever has two unresolved orders iff no rewind goes to a height at which two orders of a name are outstanding |
| `MintExamples.ReleaseComesBack` | src/main.rs:545-551 | a legal run: a release confirmed above a claim's payment comes back beside that claim after a rewind to the payment's height |
| `MintHorizon.EverySignedExpiryIsWithin` | src/mint/note.rs:230-258 | through blocks, passes and restarts, on every chain whose headers pass the time check, each live, ordered, sold or ever signed expiry stays within 99 years of the clock, when every note the registry accepts was signed by its block's clock; notes it refuses may be anything |
| `MintHorizon.AddressOnlyUpdatePasses` | src/mint/registry.rs:247-262 | on such a life, restarts included, an address-only update of a live name is never refused by the horizon |
| `MintClocks.HorizonIff` | src/mint/note.rs:230-258 | over every run, rewinds included, the horizon would refuse no address-only update at any time iff each note the registry accepted was within the horizon of the block that carried it |
| `MintClocks.RewoundClockRefuses` | src/mint/note.rs:230-258 | a legal run: a 99-year claim signed at clock 200, mined at clock 150 after a rewind, leaves its holder's address-only update refused |
| `MintChain.InOrderIsLegal` | src/mint.rs:590-690 | scanned blocks, each at the next height, drive the loop legally: every step carries its block's height |
| `MintChain.RegistryIsThePass` | src/main.rs:153-189 | after any blocks, passes and rewinds the loop's registry is the confirmation pass over the blocks that survive |
| `MintChain.RevealedIsDeadInTheLoop` | src/main.rs:153-407 | over every run of the loop no live name or anchor carries a nullifier revealed on the surviving chain |
| `MedianClocks.MedianByRank` | src/mint/mtp.rs:87-100 | the median is an entry of the window and is below a value iff more than half of the entries are |
| `MedianClocks.HeaderByRank` | src/mint/mtp.rs:102-115 | a header passes iff more than half of the window lies strictly before it and at most half strictly before the ninety minutes that end at it |
| `MedianClocks.WindowIs` | src/mint/mtp.rs:51-83 | the window is the last eleven headers, or all there are, oldest first |
| `MedianClocks.AcceptedHeaderNeverLowers` | src/mint/mtp.rs:102-115 | for every window a header time the check accepts never lowers the median |
| `MedianClocks.WindowGrows` | src/mint/mtp.rs:69-83 | pushing the next header turns one height's window into the next's |
| `MedianClocks.ClockNeverFalls` | src/mint/mtp.rs:69-115 | along every chain of accepted headers the clock of a later height is never earlier |
| `MedianClocks.MtpTracker.Update` | src/mint/mtp.rs:69-83 | the deque drops its oldest entry when full and appends the new one |
| `MedianClocks.MtpTracker.Backfill` | src/mint/mtp.rs:51-66 | refilling to a height rebuilds the window a run of updates would hold |
| `MedianClocks.MtpTracker.Accept` | src/mint/mtp.rs:69-115 | an accepted header moves the tracker to the next height's window with a clock no earlier; a refused one changes nothing |
| `FeeFunding.LargestAreBest` | src/mint/note/assemble.rs:84-107 | no choice of k notes is worth more than the k largest |
| `FeeFunding.FeeOfTransaction` | src/mint/note/assemble.rs:73-99 | the fee is the marginal fee for as many actions as the longer of spends and outputs needs, two at least; a claim creates one output more |
| `FeeFunding.FundFee` | src/mint/note/assemble.rs:84-107 | the loop ends, spends the fewest notes any covering choice spends, is unfunded iff no choice covers the fee for its own action count, and inputs equal change plus fee |
| `PriceOracles.MinorityCannotMove` | src/mint/pricing.rs:200-220 | from three venues on, when more than half of the quotes lie in a band so does the aggregate |
| `PriceOracles.MedianOfVenues` | src/mint/pricing.rs:200-220 | from three venues on the price is the middle quote of any rising arrangement, or the mean of the middle two |
| `PriceOracles.FewVenues` | src/mint/pricing.rs:200-220 | below three the first trusted quote counts, and without one there is none |
| `PriceOracles.TariffIs` | src/mint/pricing.rs:262-281 | the dollar tariff by length, three years' worth for ever, at the rate and within the money supply |
| `PriceOracles.QuoteCoversDollars` | src/mint/pricing.rs:308-316 | a quote at a price's rate is worth its dollars at that price and exceeds them by at most one zatoshi a dollar |
| `PriceOracles.LongerCostsNoMore` | src/mint/pricing.rs:268-281 | a longer name never costs more and is quotable whenever the shorter one is |
| `PriceOracles.SecondsAreBilledOnce` | src/mint/pricing.rs:343-386 | however the clock is rewound, the seconds billed are the clock's advance |
| `PriceOracles.RateStaysInBand` | src/mint/pricing.rs:343-386 | through any rounds, every published rate lies between the rates of the lowest and highest price seen |
| `OracleDays.WithinADay` | src/mint/pricing.rs:343-386 | within a day the sum is, over consecutive priced rounds, the earlier price times the seconds to the later one; seconds, attempts and successes are counted over the same rounds, and the rate stands |
| `OracleDays.NewDayPublishes` | src/mint/pricing.rs:352-366 | on a day change the rate becomes the zatoshis of that average, rounded up, iff at least half the rounds landed, some second was billed and it is in range; otherwise it stays, and the new day starts from the last price alone |
| `OracleDays.OpeningIsADay` | src/mint/pricing.rs:321-333 | the oracle opens a blank day at the rate of its opening price |
| `PriceOracles.Oracle.Observe` | src/mint/pricing.rs:343-386 | the in-place round, with its early returns and day change, makes the accumulators and rate that the day laws describe |
| `WalletTables.DropKeepsRefers` | src/wallet/write.rs:163-231 | a rewind keeps nullifiers, spends and locks inside the held notes and mines nothing above the height |
| `WalletTables.PutBlockRefers` | src/wallet/write.rs:908-1044 | a block keeps nullifiers, spends and locks inside the held notes |
| `WalletTables.EveryWalletRefers` | src/wallet/write.rs:163-231 | through any blocks, local sends, locks and rewinds, references stay inside the held notes and nothing is mined above the tip |
| `WalletTables.RewindForgetsTheBranch` | src/wallet/write.rs:163-231 | after a rewind a note is held iff it was and its transaction survives, and a held note's spend survives iff its transaction survives or was built locally |
| `WalletLaws.BlockLaw` | src/wallet/write.rs:980-1036 | a block stores its outputs, mines its transactions, and marks a note spent iff one of them reveals its nullifier, notes of the same block included, by the last that does; every other note, nullifier, status and spend stands |
| `WalletLaws.BlockIsOne` | src/wallet/write.rs:980-1036 | nothing else satisfies that law |
| `WalletLaws.RevealedIsUnspendable` | src/wallet/write.rs:1012-1036 | a note whose nullifier the block reveals lies in no bucket of any balance and is drawn by no selection |
| `WalletLaws.RevealedStaysSpent` | src/wallet/write.rs:1012-1036 | and stays spent, for every target, at every later block of the chain |
| `WalletLaws.EligibleIff` | src/wallet/input.rs:245-288 | a note may be drawn iff it is the account's, unspent or its local spend expired, mined as deep as its trust requires, not excluded and free of a lock the filter respects |
| `WalletLaws.BucketIff` | src/wallet/read.rs:203-265 | an unspent note is dust up to the marginal fee, then pending change or pending until deep enough, then locked, else spendable |
| `WalletLaws.BeforeIff` | src/wallet/input.rs:245-288 | notes are drawn by the preferred lock state when the filter ranks locks, then by age |
| `WalletLaws.DrawnAreEligible` | src/wallet/input.rs:604-701 | whatever a selection draws is eligible in one of its sources and above dust |
| `WalletLaws.RewindLaw` | src/wallet/write.rs:163-231 | table by table, what a rewind keeps: nothing that orphaned transactions created, spends of held notes unless by an orphaned transaction not built here, and every local transaction |
| `WalletLaws.LockLaw` | src/wallet/write.rs:250-267 | locks are taken on all outputs iff each is held and free of another owner's live lock, otherwise on none |
| `WalletLaws.SentLaw` | src/wallet/write.rs:608-675 | a local send marks its notes spent by it, frees their locks and keeps a status the transaction already has |
| `WalletRewinds.BlockErased` | src/wallet/write.rs:163-231 | a block above the rewind height leaves no trace in blocks, notes, nullifiers, spends, indices or mined transactions |
| `WalletRewinds.RewindIsRebuild` | src/wallet/write.rs:677-696 | with nothing sent locally, truncating equals building from the blocks at or below the height |
| `WalletRewinds.ReorganisedWalletIsRebuilt` | src/wallet/write.rs:163-231 | through any number of reorganisations an unsent wallet is the one built from the surviving blocks |
| `WalletObjects.AcceptedBatchRefers` | src/wallet/write.rs:908-1044 | an accepted batch keeps every reference inside the held notes up to the new tip |
| `WalletObjects.WalletStore.PutBlocks` | src/wallet/write.rs:908-1044 | a batch is applied whole iff it starts at the applied tip, is gapless and holds no ordinary Orchard output, one block leaving what the block law writes out; otherwise nothing changes |
| `WalletObjects.WalletStore.FollowsTip` | src/wallet/write.rs:914-962 | the continuity checks accept exactly the gapless extensions of the applied position |
| `WalletObjects.WalletStore.InsertBlock` | src/wallet/write.rs:983-1036 | all outputs of a block are stored before its spends are matched, leaving what the block law writes out |
| `WalletObjects.WalletStore.StoreNameNote` | src/wallet/write.rs:1067-1198 | a Name Note is stored iff its block, transaction, index and nullifier agree with the applied state, its path leads from its leaf to the anchor and it repeats any note already there; then exactly that note and its nullifier are added |
| `WalletObjects.WalletStore.DropAppliedAbove` | src/wallet/write.rs:163-231 | the retain passes over the maps leave exactly the rewound tables |
| `WalletObjects.WalletStore.TruncateToHeight` | src/wallet/write.rs:677-696 | the wallet goes to the deepest applied block at or below the request, or the boot origin, or refuses; it keeps exactly the applied blocks at or below the request |
| `WalletObjects.WalletStore.StoreSent` | src/wallet/write.rs:608-675 | a local send records its spends, releases their locks and never downgrades a mined status |
| `WalletObjects.WalletStore.Preflight` | src/wallet/write.rs:256-261 | the preflight passes iff every output is held and free of a foreign live lock |
| `WalletObjects.WalletStore.AcquireLocks` | src/wallet/write.rs:250-267 | all locks are acquired or none |
| `WalletSpending.PoolBalance` | src/wallet/read.rs:203-265 | each of the five buckets is the sum of its own set of unspent notes, the total the sum of all of them, and the spendable bucket the spendable notes' |
| `WalletSpending.BucketsShareOut` | src/wallet/read.rs:203-265 | every unspent note lies in exactly one bucket |
| `WalletSpending.EligibleNotes` | src/wallet/input.rs:245-288 | the eligible notes are listed once each, preferred lock tier first, then oldest |
| `WalletSpending.EverythingSpendable` | src/wallet/input.rs:340-403 | holds iff no source has an unspent non-dust note that is not eligible |
| `WalletSpending.Select` | src/wallet/input.rs:604-701 | unknown accounts and leftovers are refused exactly when they occur; an at-least selection is the shortest non-dust prefix reaching the goal or everything; a spend-all is everything |
| `WalletSpending.SpendAllIsSpendable` | src/wallet/input.rs:604-701 | with every lock excluding and scopes kept, the spend-all notes of a pool are the spendable notes, without repeats |
| `WalletSpending.BalanceAndSelection` | src/wallet/read.rs:401-434 | at one target the spendable balance of an account in a pool equals the total of a spend-all selection from it |
| `AmountTexts.ZecRoundTrip` | src/mint/sale.rs:139-183 | every amount up to the money supply survives its decimal text and anything above is refused |
| `AmountTexts.ZecIsShortest` | src/mint/sale.rs:174-183 | of all accepted spellings of an amount the encoder writes a shortest one |
| `AmountTexts.HeightRoundTrip` | src/mint/sale.rs:162-170 | exactly the 32-bit heights survive their text |
| `AmountTexts.CodeRoundTrip` | src/mint/treasury/otp.rs:114-132 | six digits and the codes below a million correspond one to one |
| `NoteMemos.ExpiryRoundTrip` | src/mint/note.rs:179-210 | an expiry survives its field iff its instant is not negative and representable |
| `NoteMemos.NoteRoundTrip` | src/mint/note.rs:146-164 | decoding an encoded carriable Name Note returns it |
| `NoteMemos.DecodesExactlyEncodings` | src/mint/note.rs:375-458 | the decoder accepts exactly the encodings of carriable notes, so every accepted memo is re-encoded byte for byte |
| `NoteMemos.AbsorbIsInjective` | src/mint/note.rs:344-365 | length-prefixed fields of 32-bit length can be read back in one way only |
| `NoteMemos.PreimageNamesNote` | src/mint/note.rs:344-365 | equal hash preimages of carriable notes come from the same derivation tag and the same note |
| `ChallengeMemos.ChallengeRoundTrip` | src/mint.rs:308-415 | a challenge memo decodes to its challenge iff its verb is challenged and it carries exactly that verb's details with a valid clock |
| `ChallengeMemos.UpdateLosesListing` | src/mint.rs:308-415 | an update challenge handed a listing comes back as another challenge, without it |
| `ChallengeMemos.SaleIsNoChallenge` | src/mint.rs:308-415 | a sale written as a challenge reads as nothing |
| `RequestMemos.TermRoundTrip` | src/mint/note.rs:270-281 | a term survives its text iff it is forever or 1 to 99 years |
| `RequestMemos.CodeIsNoTerm` | src/mint.rs:224-236 | no access code reads as a term, so the first field of a claim decides its form |
| `RequestMemos.GrammarIsExact` | src/mint.rs:222-300 | split fields read as a request iff they are the one spelling of an offered request, address text aside, and then never as a challenge answer |
| `RequestMemos.MemoGrammarIsExact` | src/mint.rs:222-300 | a 512-byte memo decodes to a request iff the request is offered and the memo its zero-padded text, and then never to a challenge answer |
| `WireForms.NoteForm` | src/mint/note.rs:146-164 | the letters of every Name Note text, verb by verb |
| `WireForms.PreimageForm` | src/mint/note.rs:336-365 | the hashed fields in their order, domain first and predecessor bytes bare at the end |
| `WireForms.AbsorbForm` | src/mint/note.rs:344-357 | each hashed field stands behind its length in four little-endian bytes |
| `WireForms.HexForm` | src/mint/note.rs:146-164 | two lower-case digits a byte, high half first |
| `WireForms.ZecForm` | src/mint/sale.rs:139-160 | a price text means its whole coins and up to eight decimals, within the money supply |
| `WireForms.ZecOnly` | src/mint/sale.rs:139-160 | nothing but whole coins without a leading zero, with or without a point and up to eight digits, reads as a price |
| `WireForms.HeightForm` | src/mint/sale.rs:162-170 | a height reads from its decimal text and from no other |
| `WireForms.ChallengeForm` | src/mint.rs:308-345 | the fields of every challenge memo, verb by verb, and when there is none |
| `WireForms.RequestForm` | src/mint.rs:222-262 | the fields of every request, verb by verb |
| `WireForms.AnswerForm` | src/mint.rs:347-415 | the fields that read as an answer to a challenge, verb by verb, and no others |
| `WireForms.NameForm` | src/mint.rs:482-494 | a name is one to sixty-three lower-case letters and digits |

## Left out

- Boot, sealing keys, attestation, capsules and manifests: calls into foreign code with fatal asserts.
- Network transport, mempool, submission, fee lookups and exchange fetches: block arrival, broadcast results and fetched prices are inputs.
- Shard trees, witnesses, proofs, note decryption, hashing and address encoding: `Network`, `Wire`, `Addresses`, `LeafProof` and `retained` checkpoints stand for what they answer.
- Treasury memo routing beyond the market and transition replies, refunds, vault sweep and the request queue: calls into the wallet library and easy lists; whether an update or release challenge completes is an input of the run loop.
- The `OtpQueue` attempt counting of updates and releases: its effect on the run loop is the `approved` input of an arrival.
- Names are ranks in the order the source's ordered maps iterate; their text is modelled where memos are.
- Integers are unbounded: zatoshi sums stay below the money supply, saturating round counters are not modelled, and a `Timestamp` out of range is modelled only in the expiry field.
- Prices are exact reals; `rust_decimal` rounding is not modelled.
- `SaleQueue` is part of the market book, and the Sapling and Ironwood tables are one table keyed by pool.
- Memos other than those of Name Notes, sent outputs, shard end heights and birthdays of the wallet: they follow the same retains as the tables that are modelled.
- Note metadata, percentile filters and locks listed or cleared by account: easy members.
- MintHorizon.EverySignedExpiryIsWithin: about lives without rewinds; with them it is not true of the code, and MintClocks.HorizonIff is the exact statement.
- NoteMemos.PreimageNamesNote: about the preimage; the hash itself is not part of this model.
