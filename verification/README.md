# A verified model of the order-book core

The repository is a price-time-priority limit order book with a risk layer, a
single-threaded engine that turns commands into sequenced messages, and the byte
formats that carry them. This project models those layers in Dafny and proves what
they guarantee over every book, every command and every run.

* `Domain`, `PriceTime` — the specification of a book: two flat queues in price-time
  order and the walk, rest, cancel, replace and mass-cancel operations on them.
* `QueueLaws`, `WalkLaws`, `BookLaws` — laws of those operations: greedy allocation,
  conservation, priority, validity.
* `Ladder`, `LadderDepth`, `Matching` — the book as it is stored (price levels, an
  id-to-order sidecar, ids grouped by account), as a class whose methods refine the flat
  operations.
* `Messages`, `Risk`, `EngineSpec` — the engine as a state machine on values: book,
  order registry, risk totals and the trade-id counter.
* `EngineInvariants`, `EngineSafety` — the invariant that ties registry and risk to the
  book, and its proof through every handler.
* `MarketData`, `Reports`, `Trades`, `Compliance`, `Conservation` — what a consumer of
  the messages may conclude.
* `Transcripts`, `Attribution`, `Terms`, `Admission` — every answer in closed form from the
  book the command meets, whose name is on it, what an order keeps while it rests, and
  which commands are refused for which reason.
* `EngineCore` — the engine as a class with in-place state, refining the state machine
  message by message.
* `Runs` — the main theorems, each over every run from the empty engine.
* `Witnesses` — runs that reach the inputs at which an expected property fails.
* `Bytes`, `Wire`, `ExecCodec`, `SnapshotCodec`, `Listener`, `Recorder` — framing, the
  two variable-content payloads, stream reassembly and the crash-tolerant recording.

The arrival counter of the book is a checked 64-bit number; trade ids and sequence
numbers are natural numbers. Only an exhausted arrival counter can break the engine's
invariant, by a replace that strands its order (`InvUnlessStranding`), so what rests on
the invariant alone is proved for runs of any length that strand no order (`RunInv`).
The other theorems over runs assume at most 2^64 - 1 commands, which `ShortRuns` shows to
be enough. Decoding of the fixed-size inbound payloads is a function
parameter of the connection model.

Where the code and its own comments differ, the model follows the code:

* A partly filled maker still rests, but the engine refunds it through the same call as
  a removed order, so the open-order count drops (`crates/engine/src/engine.rs:816-826`
  against the meaning of the field in `crates/risk/src/state.rs:22-27`).
  `ExactIffNoPartialFill` gives the exact condition, `RestingOrdersBounded` the bound
  that remains, and `RestingOrdersOverflow` a run that rests 1,001 orders of one account,
  where `crates/domain/src/consts.rs:23-32` sets a ceiling of 1,000.
* The top-of-book message quotes the quantity of the whole side, not of the best level
  (`crates/engine/src/engine.rs:1024-1038`). `TopOfBook` says when the two coincide, and
  `TopOverstates` gives a run where they do not.
* The acknowledgement of a replace is built with leaves, and its encoder drops them.
  `ReportsSurviveTheWire` states what comes back.
* A new order that reuses a resting id is only refused when its leftover comes to rest,
  after it may have traded. `ReusedIdFixes` states exactly when the reports about that id
  still tell the truth, and `ReusedIdMisreported` gives a run where they do not.
* A replace can fail after it cancelled and traded, and is then reported as an unknown
  order. `InvUnlessStranding` says exactly when, and `StrandingReached` gives a run.
* One rejection report can mean two things for a replaced order: refused up front it
  rests on, refused by the caps after the commit it is gone. `StepFixes` tells them apart
  by the acknowledgement that precedes the second; `RejectionKeeps` and `RejectionLoses`
  show both.

## Model

| member | source | states |
|---|---|---|
| Runs.RegistryMirrorsBook | crates/engine/src/engine.rs:155-180 | after every run that strands no order, of any length, the registry has exactly the ids that rest, each with the account, side, residual quantity and notional of its order |
| Runs.RiskMatchesBook | crates/risk/src/state.rs:124-160 | after every run that strands no order, of any length, each account's tracked notional is the sum of price times residual over its resting orders and within the cap; its open-order count never exceeds its resting orders or the cap |
| Runs.NeverCrossed | crates/matching/tests/props_book_not_crossed.rs:1-205 | after every run that strands no order, of any length, the best bid is below the best ask, and these are the extreme prices of their sides |
| Runs.QueuesInPriceTime | crates/matching/src/book.rs:113-185 | after every run that strands no order, bids stand in falling and asks in rising price, and at one price in the order in which they came to rest |
| Runs.MarketOrdersTrade | crates/matching/src/book.rs:331-340 | a market order that is let in trades if and only if the best order it meets belongs to another account |
| Runs.DepthFollows | crates/engine/src/engine.rs:211-259 | in a run of any length that strands no order, a consumer that starts empty and folds every level change of a run holds the book's exact price-to-quantity map |
| Runs.SnapshotThenFollow | crates/engine/src/engine.rs:277-303 | a consumer that joins a run at a snapshot, whatever it held before, and folds the rest of that run's stream, ends with the exact map |
| Runs.DeltasExact | crates/engine/src/engine.rs:211-259 | the level changes among the messages of a step ascend strictly (bids first, then price) and name exactly the levels whose total changed, each with its new total |
| Runs.TopOfBook | crates/engine/src/engine.rs:1000-1038 | a book-changing command ends with a quote of the best prices, whose quantity is the best level's exactly when the side has no other price, and otherwise more |
| Runs.LastReportFixes | crates/engine/src/engine.rs:850-998 | the last report a step emits about any order determines whether it rests and with how much (a rejection: as before, or gone if the step acknowledged its replacement), if and only if the step is not a new order whose own id rests already, or is one that `ReuseTold` names |
| Runs.ClientsFollow | crates/engine/src/engine.rs:850-998 | a client that folds each step's reports about an order holds, after every run whose reuses of that id are ones `ReuseTold` names, exactly the lots the book rests for it |
| Runs.NewOrdersHearTheirFate | crates/engine/src/engine.rs:309-463 | the closing report of an admitted new order follows from the book it meets: filled, dropped by self-trade prevention, cancelled as immediate-or-cancel, refused because its id still rests or arrivals ran out, or accepted with the exact leaves |
| Runs.NewOrdersRefused | crates/risk/src/state.rs:174-202 | after any run, when a new order is refused up front and with which reason, read off the kill-switch commands, the last print (five per cent, as rationals), the book, the open-order count and the exposure; otherwise only a reused id or an exhausted counter is refused |
| Runs.ReplacesRefused | crates/risk/src/state.rs:233-249 | the same for replaces: halted, off the band, over the cap by itself, not an order the account rests, post-only and moved to where it meets an order; otherwise the first message acknowledges it |
| Runs.CancelsAnswered | crates/engine/src/engine.rs:469-524 | the answer to a cancel, and its effect, depend on the id only through whether the account rests it, so foreign and unknown ids are refused alike |
| Runs.MassCancelsAnswered | crates/engine/src/engine.rs:681-713 | one mass-cancel report per resting order of the account, in ascending id, to that account, and everybody else's queues unchanged |
| Runs.SnapshotsAnswered | crates/engine/src/engine.rs:277-303 | one message under the request's own id, best prices first, every price once with the total resting there |
| Runs.NewOrdersSpeak | crates/engine/src/engine.rs:309-463 | every message an admitted new order causes, in order and in full, from the queue it meets |
| Runs.ReplacesSpeak | crates/engine/src/engine.rs:530-675 | every message an acknowledged replace causes, in order and in full, including the cap that refuses its leftover |
| Runs.MessagesInOrder | crates/engine/src/engine.rs:155-180 | a step says its answer, then its level changes, then one quote; a kill-switch command says nothing and moves only the flag |
| Runs.HaltFreezes | crates/engine/src/engine.rs:719-722 | after a run whose last kill-switch command halts, any commands but another one leave the state as it was and are told only that the engine is halted |
| Runs.ResumeResumes | crates/engine/src/engine.rs:719-722 | after a run whose last kill-switch command resumes, or that has none, no report says that the engine is halted |
| Runs.NoSelfTrade | crates/matching/src/book.rs:404-431 | in every run each trade print is followed by two fill reports at its price and quantity, to two different accounts |
| Runs.TradesNamed | crates/engine/src/engine.rs:742-828 | each print names the side of the order that came in and is at the price of a maker of another account on the other side; the report behind it carries that maker's id and owner, the next the command's id and account |
| Runs.ReportsGoToOwners | crates/engine/src/engine.rs:742-848 | every report about an order that rested goes to its owner, unless it refuses the command or answers a reused id; any other report carries the command's id and account |
| Runs.ReportsSurviveTheWire | crates/wire/src/outbound/exec_report.rs:97-298 | every report of every run encodes to a payload that decodes to it, except that a replace acknowledgement comes back without leaves |
| Runs.PostOnlyOrdersNeverTake | crates/matching/src/book.rs:307-318 | a post-only order, new or replaced, causes no trade and no message about any other order |
| Runs.RestsAsEntered | crates/engine/src/engine.rs:404-411 | each resting order has the account, side and time in force of the new order that was accepted for it, and the price entered or last acknowledged |
| Runs.PostOnlyForLife | crates/matching/src/book.rs:594-605 | an order entered post-only is never a taker, whatever replaces follow |
| Runs.SideTotalFits | crates/matching/src/book.rs:780-789 | while at most 1,844,674,407 accounts rest on a side, its total fits 64 bits |
| Runs.LotsAccounted | crates/matching/tests/invariants.rs:1-214 | for every run and every set of orders, lots entered equal lots on their fill reports plus lots resting plus lots removed, with one removal for each report that cancels, rejects or supersedes an order, in order |
| Runs.EveryLotAccounted | crates/matching/tests/invariants.rs:1-214 | over all orders of a run, lots entered equal lots resting plus twice the lots printed plus lots removed |
| Runs.OpenOrderBalances | crates/engine/src/engine.rs:850-998 | an order a run never cancels, rejects or supersedes has, by its fill reports, traded exactly what it entered less what it rests |
| Runs.StepOrderBalances | crates/engine/src/engine.rs:742-828 | an order whose last report in a step neither cancels nor rejects it: its fill reports plus its residual make up its replaced quantity, or what it rested plus entered |
| Runs.TradeIdsGapFree | crates/engine/src/ids.rs:57-71 | the i-th trade print of every run carries id i + 1 |
| Runs.TradeIdsFit | crates/engine/src/ids.rs:57-71 | a run of n commands uses at most 2n trade ids, so fewer than 2^63 commands never exhaust 64 bits |
| Runs.PrintsFollowWalk | crates/engine/src/engine.rs:988-998 | a step prints exactly the fills of its walk, in order |
| Runs.BandFollowsPrints | crates/risk/src/state.rs:96-105 | after every run the reference price of the band is the price last printed |
| Runs.OpenOrdersExact | crates/risk/src/state.rs:124-160 | an account none of whose makers the run fills partly has an exact open-order count and rests no more than 1,000 orders |
| Runs.RestingOrdersBounded | crates/risk/src/state.rs:265-288 | an account rests at most 1,000 orders plus one for each command of the run that fills one of its own makers partly |
| Witnesses.OpenOrdersUndercount | crates/engine/src/engine.rs:816-826 | a two-command run after which an order rests that the risk layer does not count |
| Witnesses.RestingOrdersOverflow | crates/engine/src/engine.rs:816-826 | a run of 1,002 commands after which one account rests 1,001 orders |
| Witnesses.ReusedIdMisreported | crates/engine/src/engine.rs:379-461 | a run after which a reused id is reported cancelled while its order still rests |
| Witnesses.RejectionKeeps | crates/engine/src/engine.rs:530-577 | a replace refused up front for its notional: rejected, and the order stays |
| Witnesses.RejectionLoses | crates/engine/src/engine.rs:608-670 | a replace refused for its notional after the commit: the same rejection, and the order is gone |
| Witnesses.StrandingReached | crates/engine/src/engine.rs:578-589 | a run that uses up all arrival numbers and a replace that then leaves an id registered which the book lost |
| Witnesses.TopOverstates | crates/engine/src/engine.rs:1024-1038 | a run that ends with fifteen lots quoted at a price where ten rest |
| WalkLaws.Reach | crates/matching/src/book.rs:320-431 | the longest prefix of the opposite queue that crosses and belongs to other accounts |
| WalkLaws.ReachIsPriority | crates/matching/src/book.rs:320-378 | a maker is in reach if and only if the taker has no limit or the maker's price is at least as good (at most a bid's limit, at least an ask's), and no order of the taker's account stands at or ahead of it |
| WalkLaws.MarketReach | crates/matching/src/book.rs:331-340 | a market order reaches everything ahead of its own account's first order, and trades unless that order heads the queue |
| WalkLaws.WalkFillsGreedily | crates/matching/src/book.rs:433-475 | fill i names maker i and its side, is at its price and for what the makers ahead left, up to its own quantity, with consecutive trade ids; a maker in reach is filled if and only if the ones ahead do not cover the taker |
| WalkLaws.WalkLeftover | crates/matching/src/book.rs:404-431 | the leftover is the taker's quantity less what is in reach; self-trade prevention drops exactly the order that stops a leftover that still crosses |
| WalkLaws.WalkSurvivors | crates/matching/src/book.rs:433-485 | the queue afterwards, in closed form: a part-filled head and everything behind the makers consumed or dropped |
| WalkLaws.WalkShape | crates/matching/src/book.rs:433-485 | what survives is a suffix of the queue with its head at most reduced: time priority is kept |
| WalkLaws.WalkConserves | crates/matching/src/book.rs:320-493 | taker quantity is fills plus leftover; the side shrinks by exactly the fills and the drop; at most one maker is dropped |
| WalkLaws.WalkExhausts | crates/matching/src/book.rs:320-378 | a leftover not dropped crosses nothing that remains |
| EngineInvariants.WalkPartials | crates/matching/src/book.rs:433-475 | a walk fills one maker partly exactly when its quantity runs out inside a maker in reach, and never two |
| Reports.WalkFinds | crates/matching/src/book.rs:380-475 | a walk takes an order off the book exactly when it is a maker in reach that the quantity covers, or the own order that stops a leftover |
| WalkLaws.MatchValid | crates/matching/src/book.rs:295-494 | matching keeps the book sorted, duplicate-free and uncrossed |
| WalkLaws.MatchResidual | crates/matching/src/book.rs:487-493 | the taker's own side and the arrival counter are untouched, and a free leftover no longer crosses |
| WalkLaws.PostOnlyNeverTakes | crates/matching/src/book.rs:307-318 | a post-only taker leaves the book as it is and trades nothing |
| WalkLaws.RestValid | crates/matching/src/book.rs:113-185 | resting a non-crossing order keeps the book valid and uncrossed |
| WalkLaws.CancelValid | crates/matching/src/book.rs:217-251 | removing any set of ids keeps the book valid and uncrossed |
| BookLaws.ReplaceInPlace | crates/matching/src/book.rs:560-587 | same price and no more quantity: every order keeps its place and arrival number, only that quantity changes |
| BookLaws.ReplaceIsReentry | crates/matching/src/book.rs:589-645 | any other replace equals a cancel followed by a fresh entry under the order's own time in force, except that a post-only refusal leaves the original in place |
| BookLaws.ReplaceUpMovesToTail | crates/matching/src/book.rs:607-645 | same price, more quantity: nothing trades and the order stands behind every other order of its level, the rest in unchanged order |
| BookLaws.ReplaceValid | crates/matching/src/book.rs:551-645 | every replace keeps the book valid and uncrossed, whatever its outcome |
| BookLaws.MatchConserves | crates/matching/src/book.rs:295-494 | lots across a match on both sides of the book |
| BookLaws.EnterConserves | crates/matching/src/book.rs:607-645 | lots across walk and rest: the own side gains what the taker did not trade, unless dropped or refused |
| BookLaws.MassCancelFilters | crates/matching/src/book.rs:656-709 | a mass cancel is the filter by account on both queues |
| BookLaws.MassRecordsAscend | crates/matching/src/book.rs:656-709 | its records ascend strictly by id |
| BookLaws.MassRecordsExact | crates/matching/src/book.rs:656-709 | one record per resting order of the account with its resting quantity, and no other |
| Ladder.EnqueueRefines | crates/matching/src/book.rs:143-175 | enqueueing at a price level is inserting into the flat queue |
| Ladder.CancelRefines | crates/matching/src/book.rs:217-251 | dropping from a level and pruning it when empty is removing from the flat queue |
| Ladder.ResizeRefines | crates/matching/src/book.rs:560-587 | resizing inside a level is resizing in place in the flat queue |
| LadderDepth.ViewRefines | crates/matching/src/book.rs:762-775 | the level views are the flat queue grouped by price, best first |
| LadderDepth.SideQtyRefines | crates/matching/src/book.rs:780-789 | the level totals of a side add up to its resting lots |
| Matching.Book.constructor | crates/matching/src/book.rs:92-103 | an empty, valid book |
| Matching.Book.AddResting | crates/matching/src/book.rs:113-185 | rests exactly as the flat book does, or fails on a duplicate id or an exhausted counter and changes nothing |
| Matching.Book.DropFromIndices | crates/matching/src/book.rs:193-207 | forgets one id in the sidecar and in its account's set and nothing else; nothing at all for an unknown id |
| Matching.Book.CancelOrder | crates/matching/src/book.rs:217-251 | the flat cancel, or an error on an unknown id with the book unchanged |
| Matching.Book.SweepLevel | crates/matching/src/book.rs:380-475 | sweeping one level is a stretch of the flat walk, which goes on from the new state unless self-trade prevention halted it |
| Matching.Book.MatchAggressive | crates/matching/src/book.rs:295-494 | the level-by-level walk yields the fills, drops, leftover and book of the flat match |
| Matching.Book.ReplaceOrder | crates/matching/src/book.rs:551-645 | the flat replace in every outcome, including the error after the walk |
| Matching.Book.ResizeInPlace | crates/matching/src/book.rs:560-587 | shrinking a resting order in its level is the flat resize in place, sidecar and account sets untouched |
| Matching.Book.MassCancelAccount | crates/matching/src/book.rs:656-709 | the flat mass cancel, with its records in ascending id |
| Matching.Book.BestPrices | crates/matching/src/book.rs:732-741 | the first levels are the best prices of the flat book |
| Risk.BandIsRational | crates/risk/src/state.rs:309-325 | the division-free band test accepts exactly the prices from 95 to 105 per cent of the reference, as rationals |
| Risk.BandFits | crates/risk/src/state.rs:309-325 | its products fit 128 bits |
| Risk.RestThenRemove | crates/risk/src/state.rs:124-160 | resting and removing the same notional restores every account's notional |
| Risk.RiskState.OrderResting | crates/risk/src/state.rs:124-147 | charges the account and reports the cap, if any, the charge broke |
| Risk.RiskState.OrderRemoved | crates/risk/src/state.rs:152-160 | refunds the account with both subtractions saturating |
| EngineInvariants.RetireKeeps | crates/engine/src/engine.rs:811-815 | retiring the order that leaves the book keeps registry and risk in agreement with it |
| EngineInvariants.ReduceKeeps | crates/engine/src/engine.rs:816-826 | a partial fill takes exactly the traded notional off the maker; nothing saturates |
| EngineInvariants.SettleKeeps | crates/engine/src/engine.rs:742-848 | settling all fills and drops of a walk brings registry and risk into agreement with the walked book |
| EngineSafety.InvUnlessStranding | crates/engine/src/engine.rs:530-675 | a command keeps the invariant if and only if it is not a replace that is let through, loses priority, outlasts the makers in reach with no own order stopping it, and finds the arrival counter at its ceiling |
| EngineSafety.StrandingBreaksMirror | crates/engine/src/engine.rs:578-589 | such a replace leaves an id in the registry that the book lost |
| EngineSafety.HandleInv | crates/engine/src/engine.rs:155-180 | with room on the counter every command keeps the invariant, and an account's open-order count falls behind by one only when the command fills one of its makers partly |
| EngineSafety.StepPartials | crates/engine/src/engine.rs:816-826 | a command fills at most one maker partly, and exactly when it is let through and its quantity runs out inside a maker in reach |
| EngineSafety.RunInv | crates/engine/src/engine.rs:155-180 | a run of any length satisfies the invariant in every state if and only if it strands no order |
| EngineSafety.ShortRuns | crates/matching/src/book.rs:113-185 | a run that the arrival counter can number strands no order |
| EngineSafety.ReplaceCommits | crates/matching/src/book.rs:607-645 | a priority-losing replace fails to rest only on an exhausted counter |
| EngineSafety.InPlaceFits | crates/engine/src/engine.rs:608-670 | an in-place replace is never refused by the caps |
| EngineSafety.CancelRested | crates/matching/src/book.rs:103-112 | cancelling an order just rested restores both queues; only the arrival counter has moved |
| EngineSafety.HandleArrivals | crates/matching/src/book.rs:113-185 | one command numbers at most one arrival |
| MarketData.DiffExact | crates/engine/src/engine.rs:211-259 | the merge names a level exactly when its quantity changed, with the new quantity |
| MarketData.DiffAscends | crates/engine/src/engine.rs:211-259 | its output ascends strictly, so no level is named twice |
| MarketData.DiffFolds | crates/engine/src/engine.rs:211-259 | folding one step's changes into the old level map gives the new one |
| MarketData.SnapshotIsL2 | crates/engine/src/engine.rs:277-303 | a snapshot read as a map is the book's level map |
| MarketData.RowsAscend | crates/engine/src/engine.rs:187-199 | the captured levels ascend strictly and none is empty |
| MarketData.RowsAreLevels | crates/engine/src/engine.rs:187-199 | they carry the total of the orders at each price |
| Reports.SettleFixes | crates/engine/src/engine.rs:742-848 | each maker's last report in a settled walk fixes its state in the walked book, whatever id the taker has |
| Reports.SettleTellsTaker | crates/engine/src/engine.rs:742-828 | unless self-trade prevention stops it, the taker's last fill report carries exactly its leftover |
| Reports.StepFixes | crates/engine/src/engine.rs:155-180 | from any state of the invariant, for every command and order: last reports fix order states exactly when no resting id is reused, or the reuse is one that `ReuseTold` names |
| Reports.NewOrderVerdict | crates/engine/src/engine.rs:379-461 | the closing report of an admitted new order, from the book alone, reused ids and an exhausted counter included |
| Reports.ReusedIdFixes | crates/engine/src/engine.rs:309-463 | the reports about a reused id tell the truth if and only if the order is refused up front, or the walk takes the resting order of that id off, or the new order outlasts the makers in reach and may rest |
| Reports.StepEnds | crates/engine/src/engine.rs:850-998 | within a step nothing follows a report that cancels or rejects an order but another that does, and an order is acknowledged as replaced only first of all |
| Trades.StepPrints | crates/engine/src/engine.rs:988-998 | the prints of a step are the fills of its walk, and the id counter advances by their number |
| Trades.StepBand | crates/risk/src/state.rs:96-105 | a step leaves the band reference at the last price it printed, or where it was |
| Compliance.StepSound | crates/engine/src/engine.rs:742-828 | each trade of a step is reported to two different accounts, nothing else is reported as a fill, and every report is encodable |
| Compliance.AdmittedNeverCapped | crates/engine/src/engine.rs:379-461 | a new order that passed the pre-trade check is never refused by the caps when its leftover rests |
| Compliance.ReplaceCapExact | crates/engine/src/engine.rs:608-670 | a replace's leftover is refused if and only if the exposure with the old order swapped for it exceeds the cap, and never for the order count |
| Compliance.ReduceBreaksExact | crates/engine/src/engine.rs:816-826 | a partial fill makes an exact open-order count wrong |
| Compliance.ExactIffNoPartialFill | crates/engine/src/engine.rs:816-826 | exact counts survive a step if and only if the command's quantity does not run out inside a maker in reach of it |
| Compliance.SideBounded | crates/matching/src/book.rs:780-789 | a side's lots are at most the number of its accounts times the notional cap |
| Transcripts.SettleSpeaks | crates/engine/src/engine.rs:742-848 | settling a walk says, maker by maker, a print, a report to the maker's owner and one to the taker with what each has left, then the own order that stopped it |
| Transcripts.NewTranscript | crates/engine/src/engine.rs:309-463 | the whole answer to an admitted new order, from any state of the invariant |
| Transcripts.ReplaceTranscript | crates/engine/src/engine.rs:608-670 | the whole answer to a replace that loses priority |
| Transcripts.InPlaceTranscript | crates/engine/src/engine.rs:608-670 | a replace that keeps its place is acknowledged and nothing else is said |
| Transcripts.CancelAnswers | crates/engine/src/engine.rs:469-524 | the answer to a cancel by whether the account rests the order |
| Transcripts.MassCancelAnswers | crates/engine/src/engine.rs:681-713 | the answer to a mass cancel |
| Transcripts.SnapshotAnswers | crates/engine/src/engine.rs:277-303 | the answer to a snapshot request |
| Attribution.ReportsReachOwners | crates/engine/src/engine.rs:742-848 | whose name is on each report of a step |
| Attribution.TradesAttributed | crates/engine/src/engine.rs:742-828 | maker, taker and aggressor of each print of a step; only new orders and let-through replaces trade |
| Terms.NewRests | crates/engine/src/engine.rs:404-411 | a new order is accepted and rests under its own terms and the next arrival number, or leaves nothing of its own in the book |
| Terms.ReplaceRests | crates/matching/src/book.rs:551-645 | an acknowledged replace that rests has the old account, side and time in force at the new price; every other order is at most reduced in size |
| Terms.StepNotes | crates/engine/src/engine.rs:155-180 | the terms noted from commands and reports are those of the resting order after every command |
| Admission.NewRefused | crates/risk/src/state.rs:174-202 | the reason to refuse a new order, from any state of the invariant |
| Admission.ReplaceRefused | crates/risk/src/state.rs:233-249 | the reason to refuse a replace, from any state of the invariant |
| Admission.StepSwitch | crates/engine/src/engine.rs:719-722 | only a kill-switch command moves the flag, and to where it says |
| Admission.RunningNeverHalts | crates/risk/src/state.rs:174-258 | while the flag is off no report says halted |
| Admission.HaltedAnswers | crates/risk/src/state.rs:174-258 | while the flag is on each trading command is answered with one rejection under its id and account, and only the switch changes state |
| Conservation.StepBalances | crates/engine/src/engine.rs:155-180 | for every command and every set of orders, lots before plus lots entered equal lots after plus lots filled plus lots removed, with a report for every removal |
| Conservation.OrderBalances | crates/engine/src/engine.rs:742-828 | the same for one order that the step neither cancels nor rejects, with no removal but what it supersedes |
| EngineCore.StampGapFree | crates/engine/src/engine.rs:728-730 | the sequence numbers of emitted messages are consecutive |
| EngineCore.Engine.EmitFillsForTaker | crates/engine/src/engine.rs:742-828 | the fill loop emits and books exactly what settling the fills in order prescribes |
| EngineCore.Engine.EmitCancels | crates/engine/src/engine.rs:834-848 | the loop over dropped makers reports and retires each in order |
| EngineCore.Engine.HandleNewOrder | crates/engine/src/engine.rs:309-463 | state and messages are those of the specified step |
| EngineCore.Engine.HandleCancelOrder | crates/engine/src/engine.rs:469-524 | likewise, with foreign and unknown ids refused alike |
| EngineCore.Engine.HandleCancelReplace | crates/engine/src/engine.rs:530-675 | likewise, including the error after the walk |
| EngineCore.Engine.HandleMassCancelAll | crates/engine/src/engine.rs:681-713 | likewise, one report per record |
| EngineCore.Engine.CaptureLevels | crates/engine/src/engine.rs:187-199 | push, reverse, push yields all levels of the flat book in ascending order |
| EngineCore.Engine.EmitL2Deltas | crates/engine/src/engine.rs:211-259 | the two-pointer loop emits the specified difference |
| EngineCore.Engine.HandleSnapshotRequest | crates/engine/src/engine.rs:277-303 | one message with both depths, no state change |
| EngineCore.Engine.EmitTop | crates/engine/src/engine.rs:1000-1038 | one quote of both sides of the flat book |
| EngineCore.Engine.Step | crates/engine/src/engine.rs:155-180 | the in-place engine makes the specified step and appends its messages under consecutive numbers |
| EngineCore.Engine.Drive | crates/engine/tests/replay_equality.rs:1-104 | any command list leaves the state and messages of the specified run, so a replay is equal |
| Bytes.LeRoundTrip | crates/wire/src/outbound/exec_report.rs:254-298 | a number that fits its width survives little-endian encoding |
| Bytes.LeAt | crates/wire/src/outbound/exec_report.rs:254-298 | byte i is the digit of weight 256^i |
| Bytes.UnpackPack | crates/wire/src/outbound/exec_report.rs:254-298 | a record of fitting fields survives packing |
| Bytes.PackUnpack | crates/wire/src/outbound/exec_report.rs:183-238 | unpacked bytes pack back to themselves |
| Wire.WriteParse | crates/wire/src/framing.rs:135-178 | a written frame parses back, whatever follows, and consumes exactly itself |
| Wire.ParseWrite | crates/wire/src/framing.rs:116-160 | what parses is what writing would have produced |
| ExecCodec.ParseEncode | crates/wire/src/outbound/exec_report.rs:97-298 | a report decodes to its canonical form if and only if its fields are coherent for its state, and is refused otherwise |
| ExecCodec.EncodeParse | crates/wire/src/outbound/exec_report.rs:183-298 | every accepted payload is the encoding of the report it decodes to |
| ExecCodec.FieldsAt | crates/wire/src/outbound/exec_report.rs:13-40 | where each field of the 64 bytes stands and what it holds |
| ExecCodec.CodesCount | crates/domain/src/types/exec_state.rs:34-49 | state, reject and cancel codes count up from one in the order of declaration |
| SnapshotCodec.AppendLevels | crates/wire/src/outbound/snapshot_response.rs:68-85 | the append loop adds the packed levels in order |
| SnapshotCodec.Encode | crates/wire/src/outbound/snapshot_response.rs:63-85 | appends the payload, of the length announced beforehand |
| SnapshotCodec.ParseLevels | crates/wire/src/outbound/snapshot_response.rs:94-157 | the cursor loop returns the levels it is specified to read, or the first error |
| SnapshotCodec.Parse | crates/wire/src/outbound/snapshot_response.rs:94-157 | the message of a payload, with the size checks in the source's order |
| SnapshotCodec.ParsePayload | crates/wire/src/outbound/snapshot_response.rs:63-157 | every message with countable levels survives encoding |
| SnapshotCodec.PayloadParse | crates/wire/src/outbound/snapshot_response.rs:94-157 | every accepted payload is the encoding of its message, with no byte to spare |
| SnapshotCodec.PayloadAt | crates/wire/src/outbound/snapshot_response.rs:68-85 | where the header fields and the two sides stand |
| SnapshotCodec.LevelAt | crates/wire/src/outbound/snapshot_response.rs:76-84 | level i of a side stands sixteen bytes behind the one before it, price then quantity |
| Listener.TryDecode | crates/gateway/src/listener.rs:64-91 | a decision consumes at least one byte and no more than there are |
| Listener.DrainAppend | crates/gateway/src/listener.rs:184-228 | draining a buffer in two pieces is draining it at once |
| Listener.DrainIdle | crates/gateway/src/listener.rs:184-228 | what stays buffered decodes no further |
| Listener.SplitInvariant | crates/gateway/src/listener.rs:184-228 | however a stream is cut into reads, the same messages are delivered and the connection ends in the same state |
| Listener.WrittenDelivers | crates/gateway/src/listener.rs:64-91 | a stream of written frames delivers exactly its messages in order |
| Listener.FramesDecide | crates/gateway/src/listener.rs:64-228 | a stream of whole frames and an incomplete tail delivers the messages before the first bad frame and is closed exactly when there is one, of a kind other than 1 to 6 and 101 to 105 or with a payload that does not decode |
| Listener.BufferIsFrames | crates/wire/src/framing.rs:135-160 | every buffer is such a stream |
| Listener.ZeroLengthWaits | crates/gateway/src/listener.rs:64-91 | a buffer that no further bytes can make deliver, shrink or close is exactly one that starts with a zero-length frame |
| Listener.Connection.OnRead | crates/gateway/src/listener.rs:184-228 | one read and its drain loop leave the specified buffer, messages and closed flag |
| Recorder.ReadRecords | crates/gateway/src/recorder.rs:112-144 | the cursor loop returns the records and trailing count of the recursive reading |
| Recorder.Whole | crates/gateway/src/recorder.rs:112-144 | how many records end at or before a cut |
| Recorder.ReadWritten | crates/gateway/src/recorder.rs:67-144 | any well-framed records followed by a partial tail read back as those records and the length of the tail |
| Recorder.AcceptedIsWritten | crates/gateway/src/recorder.rs:112-144 | every accepted file is well-framed records followed by a partial tail of the reported length |
| Recorder.CutAnywhere | crates/gateway/src/recorder.rs:67-144 | a recording cut at any byte reads as exactly the records wholly before the cut, with the exact trailing count, and never fails |

## Left out

- The external price-level queue and the ordered map: a level is a first-in-first-out sequence and a side a best-first sequence of levels, so allocation failure inside a level and the error it would raise are not modelled.
- Defensive branches that the book's own invariant rules out: a sidecar entry without a level order, a zero-quantity head, the second kill-switch test after the pre-trade check, debug assertions.
- Runs.TradeIdsGapFree: does not model the overflow panic of the 64-bit trade-id counter, because it is a natural number here; `TradeIdsFit` says that no run of fewer than 2^63 commands meets it.
- EngineCore.StampGapFree: does not model the overflow panic of the 64-bit sequence counter, for the same reason.
- Runs.TopOfBook: does not model 64-bit overflow of the side total, because it is a natural number; `SideTotalFits` says when 64 bits suffice.
- LadderDepth.ViewRefines: does not model a level total beyond 64 bits, which the source shows as zero; `SideTotalFits` says when it cannot occur.
- LadderDepth.SideQtyRefines: does not model 64-bit overflow of the side sum, for the same reason.
- Matching.Book.AddResting: does not model the rejection by the external price level, because its counters are not part of this model.
- SnapshotCodec.Encode: does not model the panic on more than 2^32 - 1 levels on a side, because no message is produced then.
- Clocks and timestamps inside the engine: messages are modelled without them, and the report codec theorem holds for any timestamps.
- Reuse of scratch buffers between commands: they are local values here.
- A level change to an empty level is a change to quantity 0, not an absent quantity.
- Sockets, broadcast to subscribers, back-pressure on the command channel and read errors: a connection is its buffer, its deliveries and a closed flag.
- File handling of the recorder: a recording is its byte sequence.
- Payload codecs of the fixed-size inbound messages, trade prints, level changes and top-of-book quotes: each would add an easier copy of the report codec.
- The client library, benchmarks, binaries and configuration.
