# DiceTilt money and fairness model

DiceTilt keeps the money of every wallet (user, chain, currency) twice. Redis holds the balance that
bets are played with, an escrowed amount and a nonce, and changes them by atomic Lua scripts. Postgres
holds the recorded balance with the tables `transactions`, `deposits` and `withdrawals`, and changes
them by idempotent Kafka handlers. Nothing ties the two together but messages that may be lost,
repeated, reordered or handled after a crash. This project models both stores, the logs between them
and the handlers around them, and proves what remains true whatever fails.

## How it is organised

Every handler that works step by step in the source is a method of a class with the same fields, proved
against a function on values; the theorems are about those functions.

| file | what it models |
|---|---|
| `Domain.dfy`, `Totals.dfy`, `Division.dfy` | identities, events and amounts; sums over tables; facts about quotients |
| `Redis.dfy` | the Lua scripts on one keyed store, and what racing bets can spend |
| `Ledger.dfy`, `LedgerProofs.dfy` | the tables and their constraints, the consumer's statements, the recompute and the purge |
| `Consumer.dfy`, `Lost.dfy`, `LostPayouts.dfy` | the two offset loops of the ledger consumer, runs of it under crashes and redelivery, and which events the second loop loses |
| `Gateway.dfy` | one bet and one withdrawal request, with retries and error exits |
| `Protocol.dfy`, `ProtocolProofs.dfy`, `Agreement.dfy` | the whole system as 22 atomic steps, its invariant, and what the invariant says about the two stores |
| `Refinement.dfy` | bets, withdrawal requests, deposits, payouts, completions and whole bet batches are runs of the protocol |
| `Payout.dfy` | the payout worker: bounded retry, in-session duplicates, double payments |
| `Listener.dfy`, `Pipeline.dfy` | deposit scanning with rollback, the bounded cache, and deposits from chain to ledger |
| `Audit.dfy`, `Fairness.dfy`, `Recovery.dfy` | the append-only commitment table; seeds, nonces, rotation and the player's verification; what logins repair |
| `Odds.dfy`, `HouseEdge.dfy` | results, payouts, the bias of `% 100`, and the house edge on rounded amounts |
| `RateLimit.dfy`, `Binding.dfy` | the fixed-window limiter; the numbered placeholders of the bulk insert |

Read `Agreement.AccountingIdentity` first: it says, for every run, by exactly how much the two stores
differ and why.

## Conventions

- Money is an exact integer count of 1e-18, the scale of the NUMERIC columns (db/init.sql:31). A gateway
  amount is a count of 1e-8, the digits that `toFixed(8)` sends to Redis and to Kafka alike.
- Anything the handlers cannot control is a parameter: whether a call to Redis, Postgres, Kafka or the
  chain answers, and whether a database statement whose acknowledgement was lost had been executed.
- A call to Redis, Kafka or the chain that throws has not happened, except where a parameter says otherwise
  (the chain's lost receipt, the rejected pair of calls of a bet). The retries of settlement and release, the
  compensation of a withdrawal and the handling of a failed Redis credit rest on that in the source; with a
  lost reply of the settlement script its retry would settle twice.
- A run is any sequence of steps; a step that is not enabled changes nothing. Crashes, restarts and
  concurrent requests are other orders of the same steps.
- In the protocol a wallet's Redis keys and its Postgres row exist from the start and agree, and equal
  bet, withdrawal and request identifiers mean equal events.

## Where the code and its own comments disagree

- services/ledger-consumer/src/index.ts:183-186 says that after a deposit any skew between the stores
  signals a dropped write or a race. A deposit that arrives while one bet is in escrow makes the alarm fire
  (`Agreement.FalseAlarm`); `Agreement.SkewMeaning` says exactly what it measures.
- services/ledger-consumer/src/index.ts:448-449 says that a failed deposit or withdrawal is left
  unresolved and so delivered again. That holds only until a later message of the batch is resolved. And
  when no connection can be had, the handler throws before its own error handling (lines 152 and 232), and
  the catch block for malformed messages (451-456) resolves it: the event is lost at once. `Lost.LostExactly`,
  `Lost.LostDeposit` and `LostPayouts.LostWithdrawal` say exactly which events are lost, `Lost.LostForever` that they stay so.
- A deposit whose Redis credit failed is delivered again as a duplicate, which answers success without a
  credit (services/ledger-consumer/src/index.ts:172): `Agreement.DroppedForever`.
- services/api-gateway/src/ws.handler.ts:357 says that when Redis fails during bet setup the escrow script
  ran fully or not at all. It may have run fully, and when only the seed read failed nothing releases the
  wager: the outcome `Stranded` in `Gateway.BetHandler.HandleBet`.
- README.md:60 of the repository says that a failed release goes to a dead letter topic. Only an exhausted
  settlement does; a stranded wager leaves that topic unchanged (`Gateway.BetHandler.HandleBet`).
- The house edge (services/api-gateway/src/config.ts:69) is not kept on the smallest wagers, where rounding
  the payout outweighs it (`HouseEdge.SmallestWagerLoses`).
- A retry limit below 1 makes both retry loops end without an attempt and without a report
  (`Gateway.BetHandler.SettleBetAsync`).
- The request schema accepts a wager that rounds to 0 units (packages/shared-types/src/validation.ts:9);
  the table refuses its row (db/init.sql:173). `Gateway.EventFitsLedger` gives the exact bound and
  `Consumer.Blocked` the consequence for the partition.
- services/api-gateway/src/pf.routes.ts:127-128 says that a rotation's failed Redis part recovers at the
  next login. It does if the user does nothing in between. Until then bets are played with the seed that was
  just revealed, and the client's check of them fails afterwards (`Recovery.BetWithRevealedSeed`); a second
  rotation leaves a commitment that is never revealed (`Recovery.TwoOpenRows`).
  `Recovery.LoginRecoversExactly` is the exact condition, also for a request that failed only because the
  last database write was not acknowledged. A rotation that failed between its database writes
  is not repaired by any login (`Recovery.HalfwayStaysBroken`).
- The duplicate check of the payout worker (services/evm-payout-worker/src/index.ts:90-94) does not hold
  when the receipt or the completion message is lost, or after a restart: `Payout.PaidTwice`, and
  `Payout.PaidAtMostOnce` for the exact condition.
- services/evm-listener/src/db.ts:24-28 calls the formula canonical. The purge deletes the rows of every
  Ethereum wallet but rebuilds only the ETH balances, so in another currency a balance can end below it
  (`LedgerProofs.PurgeBelowFormula`).
- The size of a bet slice is not validated (services/ledger-consumer/src/config.ts:13); with 0 the loop runs on
  the spot until it is stopped (`Consumer.BetConsumer.EachBatch`).
- documentation/kafka-event-topology.md describes dead letter topics for the ledger consumer, and
  db/init.sql:32-34 an escrow column kept by it. The code has neither.

## Model

| member | source | states |
|---|---|---|
| Redis.RedisStore.AtomicEscrowBet | services/api-gateway/src/lua/escrow-bet.lua:1-18 | accepted iff the balance covers the wager; then wager moves to escrow and the nonce grows by one, else no key changes; other wallets untouched |
| Redis.RedisStore.AtomicSettleBet | services/api-gateway/src/lua/settle-bet.lua:1-11 | wager leaves escrow (not below 0), payout reaches the balance, only this wallet |
| Redis.RedisStore.AtomicReleaseEscrow | services/api-gateway/src/lua/release-escrow.lua:1-10 | wager leaves escrow (not below 0) and returns to the balance, only this wallet |
| Redis.RedisStore.AtomicBalanceDeduct | services/api-gateway/src/lua/withdraw-deduct.lua:1-10 | succeeds iff covered; a refusal changes nothing |
| Redis.RedisStore.AtomicBalanceCredit | services/api-gateway/src/lua/withdraw-credit.lua:1-6 | adds the amount to this wallet only |
| Redis.RedisStore.InitUserRedisState | services/api-gateway/src/lua/init-user-safe.lua:1-44 | missing balances are written, accounts in use keep balance, escrow and nonce, the seed is always replaced |
| Redis.RedisStore.DepositCredit | services/ledger-consumer/src/index.ts:52-64 | an existing balance grows by the deposit, a missing one becomes the Postgres balance |
| Redis.NoOverspend | services/api-gateway/src/lua/escrow-bet.lua:4-18 | in any order of bets and credits: never negative, accepted wagers never exceed balance plus credits, accepted bets have consecutive nonces |
| Redis.EqualWagersGreedy | services/api-gateway/src/lua/escrow-bet.lua:4-18 | of m equal wagers the accepted ones are paid in full and a refusal means less than one wager was left |
| Redis.EqualWagers | services/api-gateway/src/lua/escrow-bet.lua:4-18 | of m equal wagers exactly min(m, balance / wager) are accepted |
| Ledger.LedgerDb.InsertRows | services/ledger-consumer/src/index.ts:99-114 | new rows plus the P&L grouped per wallet have the effect of inserting the events one at a time, duplicates inside the batch included |
| Ledger.LedgerDb.BatchInsertBets | services/ledger-consumer/src/index.ts:83-147 | the bulk statement is all or nothing and equals single inserts; it fails iff a row or a balance breaks a CHECK or the database fails |
| Ledger.LedgerDb.ProcessDepositReceived | services/ledger-consumer/src/index.ts:151-229 | throws iff there is no connection; row and Postgres credit together or not at all; Redis is credited only after a first recording; exact verdict and exact skew alarm |
| Ledger.LedgerDb.ProcessWithdrawalCompleted | services/ledger-consumer/src/index.ts:231-311 | throws iff there is no connection; first completion of a hash debits once, a second hash for a known id and an uncovered debit are errors that change nothing |
| Ledger.LedgerDb.PurgeStaleChainData | services/evm-listener/src/db.ts:77-138 | old chain's deposits and withdrawals go and ETH balances are rebuilt, or nothing changes |
| Ledger.GroupSum | services/evm-listener/src/db.ts:31-50 | the grouped sums are the sums over all rows of each owner |
| Ledger.FormulaByWallet | services/evm-listener/src/db.ts:31-50 | the three grouped totals together give deposits - withdrawals - wagers + payouts of every wallet |
| Ledger.RecomputedWallets | services/evm-listener/src/db.ts:51-64 | every ETH wallet becomes max(0, default + formula), all others keep their balance |
| LedgerProofs.InsertBetsFormula | services/ledger-consumer/src/index.ts:99-121 | any batch, with any duplicates, moves a balance exactly by the P&L of its new rows |
| LedgerProofs.ApplyFormula | services/ledger-consumer/src/index.ts:99-171 | every statement, accepted or refused, keeps balance minus canonical formula |
| LedgerProofs.RunFormula | db/init.sql:29-31 | so does every run without a purge |
| LedgerProofs.RunNonNegative | db/init.sql:47-48 | no run makes a recorded balance negative |
| LedgerProofs.BetsAccepted | db/init.sql:47-48 | a bet batch is accepted iff every row meets the constraints and no balance ends negative |
| LedgerProofs.DepositAccepted | services/ledger-consumer/src/index.ts:154-171 | a recorded hash is accepted without effect; otherwise a positive deposit is accepted iff its id is new, and credits its wallet only |
| LedgerProofs.WithdrawalAccepted | services/ledger-consumer/src/index.ts:237-254 | a recorded hash is accepted without effect; otherwise a positive completion is accepted iff its id is new and its wallet covers it, and debits its wallet only |
| LedgerProofs.AcceptedOnceForAll | services/ledger-consumer/src/index.ts:172 | over any run without a purge, what was accepted once is accepted again at every redelivery and changes nothing |
| LedgerProofs.PurgeSurplus | services/evm-listener/src/db.ts:77-138 | what a purge does to balance minus formula, for every wallet: an ETH balance exceeds it by max(0, -formula), other chains are unchanged, on Ethereum in another currency it moves by deposits - withdrawals of the deleted rows |
| LedgerProofs.RecomputeNoOp | services/evm-listener/src/db.ts:51-64 | the recompute leaves a balance alone iff it is canonical, or 0 above a negative formula |
| LedgerProofs.IncrementalIsCanonical | services/evm-listener/src/db.ts:24-66 | without a purge the incremental balance is default + formula and the recompute changes nothing |
| LedgerProofs.SurplusOverRuns | services/evm-listener/src/db.ts:24-138 | with purges, an ETH balance or one on another chain never falls below the formula; its distance is constant between purges, and off Ethereum throughout |
| LedgerProofs.SurplusDrifts | services/evm-listener/src/db.ts:82-123 | on Ethereum in another currency the distance drifts by exactly deposits - withdrawals of all deleted rows |
| LedgerProofs.PurgeBelowFormula | services/evm-listener/src/db.ts:82-123 | a USDC wallet on Ethereum that a purge leaves 7 below the formula |
| LedgerProofs.RunExtends | services/ledger-consumer/src/index.ts:99-171 | tables after a run of accepted statements are the old ones plus exactly the events of the run |
| LedgerProofs.SameEventsSameTables | db/init.sql:127-156 | the same set of distinct events gives the same tables |
| LedgerProofs.Confluence | services/ledger-consumer/src/index.ts:99-121 | any two accepted streams with the same set of events, in any order, with any repetition and any batching, end in the same tables and balances |
| LedgerProofs.OrderMattersWhenRefused | db/init.sql:47-48 | a concrete pair of orders that ends differently because one trips the balance CHECK |
| LedgerProofs.DebitedOnce | services/ledger-consumer/src/index.ts:237-254 | over any run a withdrawal id is debited at most once, and exactly once iff it ends recorded |
| LedgerProofs.HashDebitedOnce | db/init.sql:147 | the same for each transaction hash |
| Consumer.BetConsumer.SliceEvents | services/ledger-consumer/src/index.ts:387-393 | the events of a slice are its parseable messages in order |
| Consumer.BetConsumer.EachBatch | services/ledger-consumer/src/index.ts:380-431 | every slice before the exit was taken while running and active, accepted and committed; each of the four exits iff its cause; resolved and committed offsets exact; a slice without events never asks the database |
| Consumer.BetConsumer.HandleSlice | services/ledger-consumer/src/index.ts:387-427 | one slice: fails iff it has events and the database refuses or fails, and only otherwise resolves its messages and commits |
| Consumer.SliceStartIs | services/ledger-consumer/src/index.ts:382-386 | slice n begins at min(n * size, length) |
| Consumer.SessionGrows | services/ledger-consumer/src/index.ts:394-399 | an accepted slice extends the handled prefix, whatever the slice size |
| Consumer.SessionOfBatch | services/ledger-consumer/src/index.ts:377-380 | what was handled of a batch is the same prefix of the rest of the log |
| Consumer.AtLeastOnceExactlyOnce | services/ledger-consumer/src/index.ts:365-431 | any schedule of sessions, each restarting at or before the resolved offset: all events below the final offset are recorded and each wallet moved by exactly the new P&L |
| Consumer.Blocked | services/ledger-consumer/src/index.ts:387-415 | no schedule ever resolves past an event whose row the schema refuses, or past JSON that is no event |
| Consumer.SingleConsumer.Process | services/ledger-consumer/src/index.ts:432-457 | tables, Redis effect and offset resolution of one deposit or withdrawal message under every fault; a handler that throws is resolved |
| Consumer.SingleConsumer.EachBatch | services/ledger-consumer/src/index.ts:432-461 | tables and resolutions of the whole loop, the sum of its Redis credits, the resolved offset (last resolved message), the committed offset (resolved at the last working commit), and the reason of an early exit |
| Consumer.OffsetCovers | services/ledger-consumer/src/index.ts:450-456 | a message lies below the resolved offset iff it or a later one was resolved |
| Consumer.CommittedAfterIs | services/ledger-consumer/src/index.ts:458 | the committed offset stems from the last message followed by a working commit |
| Consumer.SinglePresence | services/ledger-consumer/src/index.ts:448-450 | a message counted as a success is recorded, and no record is lost by later ones |
| Consumer.ResolvedArePresent | services/ledger-consumer/src/index.ts:448-457 | every message with a connection that was itself resolved is recorded at the end |
| Lost.PresentExactly | services/ledger-consumer/src/index.ts:154-171 | an event is in the tables iff it was before or a statement for its transaction reached them; a lost acknowledgement does not undo it |
| Lost.LostExactly | services/ledger-consumer/src/index.ts:448-461 | message i is resolved past and in no table iff it was not recorded before, no statement for its transaction reached the tables, and either it had no connection or a later message is resolved |
| Lost.LostDeposit | services/ledger-consumer/src/index.ts:432-461 | for deposits the same told from start tables and faults alone: lost iff not recorded before, no statement for its transaction was sent, and it had no connection or a later message is resolved |
| Lost.LostWitness | services/ledger-consumer/src/index.ts:448-461 | two deposits, the statement of the first fails: it is lost when the second succeeds |
| Lost.LostAtOnce | services/ledger-consumer/src/index.ts:151-153 | one deposit and no connection: it is lost at once, without any other message |
| LostPayouts.RedeliveredResolved | services/ledger-consumer/src/index.ts:241-254 | every redelivery after a written message of the same transaction is resolved and changes nothing |
| LostPayouts.RecordedExactly | services/ledger-consumer/src/index.ts:237-254 | a hash is recorded iff it was, or a debit under it was sent while its wallet covered it |
| LostPayouts.LostWithdrawal | services/ledger-consumer/src/index.ts:448-461 | completion i is lost iff its hash was not recorded before, no debit under it was sent and covered, and it had no connection or a later message is resolved |
| LostPayouts.CoveredDebits | db/init.sql:47-48 | if the start balances cover the batch, a debit is covered whenever it is sent |
| Lost.NotSeenAgain | services/ledger-consumer/src/index.ts:360-365 | sessions that start past every message of a transaction never record it |
| Lost.LostForever | services/ledger-consumer/src/index.ts:448-461 | a lost event is unrecorded after every later schedule of sessions from the resolved offset on |
| Gateway.BetHandler.ReleaseEscrowWithRetry | services/api-gateway/src/ws.handler.ts:60-84 | released once iff one of the allowed attempts works, within the attempt limit |
| Gateway.BetHandler.SettleBetAsync | services/api-gateway/src/ws.handler.ts:88-138 | settled once iff one of the allowed attempts works; an exhausted settlement is reported once iff the report itself can be published |
| Gateway.BetHandler.HandleBet | services/api-gateway/src/ws.handler.ts:314-451 | the outcome under every failure, the account after it, a fair event published once (wager and payout to the nearest unit, own id, wallet and nonce), and the dead letter entry of an unsettled bet |
| Gateway.PayoutIsFair | services/api-gateway/src/ws.handler.ts:416-435 | a loser is paid 0; a winner, in whole units, wager * (100 - edge) / winChance to the nearest one |
| Gateway.EventIsFair | services/api-gateway/src/ws.handler.ts:429-441 | the event has the wallet, id and nonce of the bet, the result of its prefix, the rounded wager and a fair payout |
| Gateway.OutcomeExactly | services/api-gateway/src/ws.handler.ts:319-412 | which outcome a bet has, told from the balance and the answers |
| Gateway.ReleasedExactly | services/api-gateway/src/ws.handler.ts:371-412 | a missing seed or failed worker after an accepted escrow leaves the balance as before iff an allowed release attempt works |
| Gateway.PayoutUnitsNonNegative | services/api-gateway/src/ws.handler.ts:416-435 | no valid request has a negative payout |
| Gateway.EventFitsLedger | db/init.sql:173-180 | a bet's event satisfies the row constraints iff its wager is at least half of 1e-8 |
| Gateway.WagerAccounted | services/api-gateway/src/ws.handler.ts:371-451 | the wager is untouched, back in full, still in escrow, or settled by the P&L of the event |
| Gateway.WithdrawRoute.Withdraw | services/api-gateway/src/withdraw.routes.ts:53-101 | deducted and requested together, or compensated; the one loss is a failing credit-back |
| Gateway.DeductedExactly | services/api-gateway/src/withdraw.routes.ts:53-101 | a covered amount stays out of the balance iff the request was published or the credit-back failed |
| Refinement.HandleBetRefines | services/api-gateway/src/ws.handler.ts:314-451 | whatever fails inside it, handling one bet is a run of protocol steps with the same accounts and log |
| Refinement.PlayedSteps | services/api-gateway/src/ws.handler.ts:443-453 | settlement and publication of a played bet, each succeeding or not, as protocol steps |
| Refinement.EitherOrder | services/api-gateway/src/ws.handler.ts:443-453 | the two fire-and-forget calls reach the same state in either order |
| Refinement.WithdrawRefines | services/api-gateway/src/withdraw.routes.ts:69-101 | the withdrawal route is a run of protocol steps |
| Refinement.DepositRefines | services/ledger-consumer/src/index.ts:151-181 | handling one deposit message is a run of protocol steps with the same tables and Redis credits |
| Refinement.CompletionRefines | services/ledger-consumer/src/index.ts:231-254 | handling one completion is the consume step, or nothing when the database was not reached |
| Refinement.PayoutRefines | services/evm-payout-worker/src/index.ts:78-117 | one delivery to the payout worker is a payment step for each completion it publishes |
| Refinement.BatchRefines | services/ledger-consumer/src/index.ts:380-431 | one call of the bet loop, with unparseable messages and any exit, is a consume step for the applied events and an acknowledgement of the resolved ones |
| Refinement.RefusedSlice | services/ledger-consumer/src/index.ts:400-415 | a slice that the tables refuse changes neither tables nor offset |
| ProtocolProofs.StepKeeps | services/ledger-consumer/src/index.ts:99-171 | every one of the 22 steps keeps the invariant of both stores and all logs |
| ProtocolProofs.RunKeeps | services/api-gateway/src/ws.handler.ts:353-454 | so does every run |
| Agreement.StoreGap | services/ledger-consumer/src/index.ts:99-171 | in every invariant state, Redis (available + escrowed) minus Postgres is the sum of four named gaps |
| Agreement.AccountingIdentity | services/ledger-consumer/src/index.ts:99-202 | the same after every run from agreeing stores: settled but unrecorded P&L, minus recorded but unsettled P&L, minus deducted but unrecorded withdrawals, minus recorded but uncredited deposits |
| Agreement.QuiescentAgreement | services/ledger-consumer/src/index.ts:183-202 | with nothing in flight, stuck or lost the stores are equal, nothing is escrowed and the alarm is silent |
| Agreement.EscrowIdentity | services/api-gateway/src/lua/escrow-bet.lua:4-18 | escrow is always the sum of the wagers of open bets, and no balance or escrow is ever negative |
| Agreement.NeverClamps | services/api-gateway/src/lua/settle-bet.lua:3-10 | the clamp at 0 in settle and release never takes effect |
| Agreement.SkewMeaning | services/ledger-consumer/src/index.ts:177-189 | where a deposit is credited, against the balance its statement returned: the alarm fires iff gaps and events recorded in between, minus the open escrow, exceed 1e-8 either way |
| Agreement.FalseAlarm | services/ledger-consumer/src/index.ts:183-189 | a deposit that arrives while a bet is in escrow fires the alarm although nothing was lost |
| Agreement.OneOutcome | services/api-gateway/src/ws.handler.ts:371-446 | over any run a bet is settled or released at most once, and then never changes again |
| Agreement.StuckForever | services/api-gateway/src/ws.handler.ts:74-131 | the wager of a bet whose release or settlement was given up stays in escrow in every continuation |
| Agreement.ExactlyOnce | services/ledger-consumer/src/index.ts:99-121 | all events below the resolved offset are recorded unchanged, and balances are opening plus recorded P&L, deposits and withdrawals |
| Agreement.PaidWithdrawalAccepted | services/ledger-consumer/src/index.ts:286-291 | the completion of a paid withdrawal is refused iff P&L that Postgres lacks exceeds what else the wallet holds |
| Agreement.DroppedForever | services/ledger-consumer/src/index.ts:172-181 | a deposit whose Redis credit failed stays uncredited in every continuation |
| Agreement.DroppedCounts | services/ledger-consumer/src/index.ts:178-181 | and its amount is part of the gap between the stores |
| Payout.PayoutWorker.SendPayout | services/evm-payout-worker/src/index.ts:54-72 | at most maxRetries + 1 submissions, only expired nonces are retried, at most one transfer |
| Payout.PayoutWorker.EachMessage | services/evm-payout-worker/src/index.ts:78-140 | one delivery: pays and publishes iff the id is unknown, the chain is Ethereum and the decisive submission and the publication work |
| Payout.DeliverPays | services/evm-payout-worker/src/index.ts:88-117 | one delivery pays its id iff the worker does not know it as completed and the decisive submission transfers |
| Payout.DeliverPublishes | services/evm-payout-worker/src/index.ts:100-117 | a completion is published iff the delivery completes an unknown id, with the request's id, wallet and amount and the hash of the payment just made |
| Payout.CompletionsExact | services/evm-payout-worker/src/index.ts:90-117 | over any deliveries and restarts the completions of an id are its completing deliveries |
| Payout.CompletionsBacked | services/evm-payout-worker/src/index.ts:100-111 | every completion stands for a payment of its id under its hash and for a delivered request |
| Payout.PaymentsExact | services/evm-payout-worker/src/index.ts:49-140 | over any deliveries and restarts an id is paid exactly once for each paying delivery, those between a completing one and the next restart excepted |
| Payout.PaidAtMostOnce | services/evm-payout-worker/src/index.ts:90-117 | paid at most once iff after the first paying delivery no other would pay, or it completed and no restart precedes one that would |
| Payout.SmoothSession | services/evm-payout-worker/src/index.ts:90-117 | one session with working receipts and publications meets that condition |
| Payout.PaidTwice | services/evm-payout-worker/src/index.ts:111-140 | one failed publication and a redelivery pay twice |
| Listener.EvmListener.TrackTxHash | services/evm-listener/src/index.ts:51-57 | insertion-order set with eviction of the oldest |
| Listener.EvmListener.ProcessDeposit | services/evm-listener/src/index.ts:60-117 | published, with the wallet and id of the call and the amount, hash and block of the deposit, iff new and everything answers; the cache follows; every cached hash stays published or recorded |
| Listener.EvmListener.ProcessAll | services/evm-listener/src/index.ts:182-188 | the deposits of a query one after the other; one failing call does not stop the others |
| Listener.PublishesPicks | services/evm-listener/src/index.ts:83-103 | a query publishes, in order, exactly one event per deposit that is new at its turn and whose call goes through |
| Listener.NoRepeats | services/evm-listener/src/index.ts:66-76 | while the cache has room no hash is published twice or although the database knew it |
| Listener.StaysOnChain | services/evm-listener/src/index.ts:84-94 | every published event has the hash, amount and block of a deposit on chain |
| Listener.EvmListener.Listen | services/evm-listener/src/index.ts:134-192 | a new epoch whose historical scan covers 0 to the current block and handles its deposits in order, or nothing if it failed |
| Listener.EvmListener.BlockNotified | services/evm-listener/src/index.ts:199-221 | a block notification of the live epoch covers exactly the range after the head and handles its deposits in order, or rolls the head back; an epoch that ends meanwhile stops after the deposits it handled |
| Listener.EvmListener.ProviderError | services/evm-listener/src/index.ts:227-234 | only the live epoch can be ended |
| Listener.KeepsNewest | services/evm-listener/src/index.ts:48-57 | if no hash is tracked while it is cached, the cache holds exactly the newest max(1, limit) tracked hashes |
| Listener.EvictsOldest | services/evm-listener/src/index.ts:48-57 | whatever is tracked, by concurrent calls too, the cache holds at most max(1, limit) hashes, the newest of those added |
| Listener.ScanCoverage | services/evm-listener/src/index.ts:178-221 | for any notifications and failures, each block up to the head is scanned exactly once and no other |
| Listener.HeadIsNewest | services/evm-listener/src/index.ts:201-219 | the head is the newest block that a successful query reached |
| Listener.TakenExactly | services/evm-listener/src/index.ts:134-233 | over any epochs a deposit is published iff in some epoch its call goes through and its block is within reach of that epoch's scans |
| Listener.MadeUpByHistory | services/evm-listener/src/index.ts:176-192 | a failed call is made up for by an epoch that starts after its block iff the historical scan and the call work |
| Pipeline.StepKeeps | services/evm-listener/src/index.ts:46-117 | scans, concurrent calls, evictions, restarts and deliveries keep the bounded cache sound |
| Pipeline.ProcessDepositRefines | services/evm-listener/src/index.ts:60-117 | one call of the listener, whatever fails inside it, is a run of pipeline steps |
| Pipeline.NothingSuppressedWrongly | services/evm-listener/src/index.ts:66-76 | a deposit is suppressed only if its hash was published or recorded |
| Pipeline.CreditedOnce | services/ledger-consumer/src/index.ts:154-171 | over any rescans, evictions, restarts and redeliveries a hash is credited at most once |
| Pipeline.BalancesAreDeposits | services/ledger-consumer/src/index.ts:154-171 | balances move by exactly the recorded deposits |
| Audit.AuditTable.InsertRow | db/init.sql:61-71 | accepted iff seed and time of the reveal are both absent or both present |
| Audit.AuditTable.UpdateRow | db/init.sql:82-105 | accepted iff it reveals an unrevealed row and changes nothing else |
| Audit.AuditTable.DeleteRow | db/init.sql:82-105 | always refused |
| Audit.AuditTable.RevealSeedInAudit | services/api-gateway/src/db.ts:129-140 | exactly the open rows of the user with that commitment are revealed |
| Audit.RevealPasses | db/init.sql:82-109 | the trigger passes every row update of a reveal statement, so all matching rows are revealed |
| Audit.TrailGrows | db/init.sql:82-109 | whatever statements are attempted, no row disappears, no identity changes, no reveal is undone or replaced |
| Audit.PairsAlways | db/init.sql:68-71 | every row has both its seed and the time of its reveal, or neither |
| Audit.RevealedOnce | db/init.sql:82-109 | a row changes at most once, and exactly once iff it ends revealed |
| Fairness.SeedService.constructor | services/api-gateway/src/db.ts:17-50 | registration stores the seed and opens its commitment row |
| Fairness.SeedService.PlaceBet | services/provably-fair/src/crypto.service.ts:11-21 | a bet takes the next nonce of its wallet and its result from seed, client seed and nonce |
| Fairness.NextNonce | services/api-gateway/src/lua/escrow-bet.lua:13-18 | a bet takes the next nonce of its wallet and of no other |
| Fairness.SeedService.ResetNonces | services/api-gateway/src/pf.routes.ts:132-146 | every nonce key of the user becomes 0 |
| Fairness.SeedService.RotateSeed | services/api-gateway/src/pf.routes.ts:93-157 | state and audit table after a rotation that stops at any write, and what server and client then verify |
| Fairness.FreshNonces | services/api-gateway/src/pf.routes.ts:120-146 | after a complete rotation the first bet of each wallet has nonce 1 under the new seed, and the old seed is recorded as previous |
| Fairness.SeedService.Login | services/api-gateway/src/lua/init-user-safe.lua:22-43 | the database seed replaces the Redis seed, nonces stay |
| Fairness.VerifyHistory | frontend/index.html:1233-1245 | the client's loop accepts iff every recorded result is the recomputed one |
| Fairness.RotateAuditKeeps | services/api-gateway/src/pf.routes.ts:123-125 | reveal and new commitment leave one open row, that of the new seed |
| Fairness.RotateExact | services/api-gateway/src/pf.routes.ts:120-152 | a rotation keeps the cycle sound iff it wrote nothing or everything up to the Redis seed |
| Fairness.LoginRepairs | services/api-gateway/src/pf.routes.ts:127-152 | a login directly after it repairs every answered rotation, none that failed half-way in the database, and one whose new commitment was written without an acknowledgement iff the earlier bets fit the new seed |
| Fairness.RunKeeps | services/api-gateway/src/pf.routes.ts:93-157 | bets, sound rotations, logins and other users' rows keep the cycle sound |
| Fairness.RevealsAlwaysFit | services/api-gateway/src/db.ts:129-140 | however rotations fail, a revealed seed hashes to the commitment of its row |
| Fairness.VerificationComplete | frontend/index.html:1233-1245 | from registration on, the seed that the next rotation reveals verifies the whole history, whose nonces grow, and is behind the user's only open commitment |
| Recovery.LoginRecoversExactly | services/api-gateway/src/pf.routes.ts:127-152 | after a rotation that reached the database only and anything up to the next login: that login restores the cycle iff no rotation wrote in between and every bet in the history has the same hash under the new seed |
| Recovery.NextLogin | services/api-gateway/src/lua/init-user-safe.lua:42-43 | the same from any state in which Redis is one seed behind the database |
| Recovery.OrphanForever | services/api-gateway/src/db.ts:129-140 | an open commitment whose seed neither store holds stays open, and the cycle broken, in every continuation |
| Recovery.RetryOrphans | services/api-gateway/src/pf.routes.ts:93-152 | a second rotation before that login breaks the cycle for good, later logins and rotations included |
| Recovery.HalfwayStaysBroken | services/api-gateway/src/pf.routes.ts:120-125 | a rotation that failed between its database writes is repaired by no bets and logins |
| Recovery.BetWithRevealedSeed | services/api-gateway/src/ws.handler.ts:352-355 | a run with one bet in between, which the client then rejects |
| Recovery.TwoOpenRows | services/api-gateway/src/pf.routes.ts:120-146 | a run with a second rotation in between, which leaves two open rows |
| Odds.ResultExactly | services/provably-fair/src/crypto.service.ts:19 | the result is the number in 1..100 congruent to prefix + 1 mod 100 |
| Odds.ResidueCount | services/provably-fair/src/crypto.service.ts:19 | x < n with x mod m < k: (n / m) * k + min(k, n mod m) of them |
| Odds.WinProbability | services/provably-fair/src/crypto.service.ts:19 | "under" wins up to 18.24 prefixes in 2^20 more often than advertised, "over" as much less |
| Odds.TotalIsWinsTimesPayout | services/api-gateway/src/ws.handler.ts:416-435 | what all prefixes pay is winning prefixes times one rounded payout |
| Odds.TotalNearIdeal | services/api-gateway/src/ws.handler.ts:435 | rounding moves that total by at most half a unit per winning prefix |
| Odds.RealHouseEdge | services/api-gateway/src/ws.handler.ts:416-422 | before rounding, the return to the player: advertised return plus bias times one payout |
| Odds.IdealBreakEven | services/api-gateway/src/ws.handler.ts:416-422 | before rounding, for every target and direction the house does not lose iff 100 * bias <= edge * (winChance * 2^20 + bias) |
| Odds.UnderBreakEven | services/api-gateway/src/ws.handler.ts:416-422 | before rounding, "under" up to target 77 favours the house iff the edge is at least 2400 / (2^20 + 24) percent |
| Odds.OverNeverFavours | services/api-gateway/src/ws.handler.ts:416-422 | before rounding, "over" never returns more than advertised |
| HouseEdge.HouseKeepsEdge | services/api-gateway/src/ws.handler.ts:434-446 | on the rounded amounts: the house does not lose over all prefixes iff hits times one rounded payout stay within the rounded wagers |
| HouseEdge.EdgeDecides | services/api-gateway/src/ws.handler.ts:434-446 | from the wager on whose margin exceeds the rounding, the edge alone decides |
| HouseEdge.OnePercentSuffices | services/api-gateway/src/ws.handler.ts:434-446 | with an edge of at least 1% the house does not lose on any wager from 0.00000101 on, whatever the target |
| HouseEdge.SmallestWagerLoses | services/api-gateway/src/ws.handler.ts:434-446 | at the smallest wager and an edge of 1% more is paid than taken, and "over" returns more than advertised |
| HouseEdge.RealReturn | services/api-gateway/src/ws.handler.ts:416-446 | what is paid is the advertised share of what is taken plus bias times one payout, up to half a unit per bet and per win |
| HouseEdge.OverReturn | services/api-gateway/src/ws.handler.ts:416-446 | "over" returns no more than the advertised share, but for that rounding |
| RateLimit.RateLimiter.CheckRateLimit | services/api-gateway/src/lua/rate-limit.lua:1-14 | one request: counter of its window plus one, expiry on the first hit only, granted iff within the limit |
| RateLimit.HitFaithful | services/api-gateway/src/lua/rate-limit.lua:1-14 | a counter outlives its window and counts exactly its requests |
| RateLimit.FirstOnesGranted | services/api-gateway/src/redis.service.ts:264-276 | a request is granted iff fewer than the limit came before it in its window |
| RateLimit.WindowLimit | services/api-gateway/src/redis.service.ts:264-276 | exactly min(limit, attempts) grants in every window |
| RateLimit.SecondsLimit | services/api-gateway/src/redis.service.ts:264-276 | the same for windows of whole seconds on a millisecond clock |
| RateLimit.IntervalLimit | services/api-gateway/src/redis.service.ts:264-276 | at most twice the limit in any interval of one window length |
| Binding.PlaceholderCache.GetBetInsertPlaceholders | services/ledger-consumer/src/index.ts:72-81 | the cached answer is always the one that would be computed |
| Binding.Flatten | services/ledger-consumer/src/index.ts:94-98 | value 11i + c is column c of event i |
| Binding.RowsBindFields | services/ledger-consumer/src/index.ts:72-98 | placeholder c of row i binds field c of event i, for every batch size |

## Left out

- HTTP, WebSocket and JWT plumbing, metrics and logging; the WebSocket connection slots, reconnect backoff, lag polling, health endpoints and the development faucet.
- SHA-256 and HMAC-SHA-256: parameters. `Fairness.CommitmentBinds`, `Fairness.LoginRepairs` and the lemmas of `Recovery` name the collision freedom they need; nothing else assumes any.
- IEEE doubles and the number formatting of JavaScript and Lua: exact reals and integers, with `toFixed(8)` as rounding to the nearest unit. The infinite and not-a-number cases of the skew test go with them.
- KafkaJS: its automatic resolution of a batch, rebalances and the producer's own retries. The handlers' resolve and commit calls are the only ones, offsets in a partition have no gaps, and each topic is one partition.
- Redis eviction in the protocol: hydrated keys are assumed there. `Redis.RedisStore` itself handles missing keys.
- The purge after a chain reset in the protocol and in the deposit pipeline: it is kept in the recompute properties. How the listener detects a reset is not modelled.
- Foreign keys, the enumerated chain and currency columns, the width of NUMERIC and of INTEGER nonces.
- Ledger.LedgerDb.ProcessWithdrawalCompleted: does not model the balance it reads back from Redis for the notification, because the money does not depend on it.
- Consumer.BetConsumer.EachBatch: a size of 0 comes with a bound on when the loop is stopped, without which the source would not return; a size that is not a number is not modelled.
- Gateway.BetHandler.HandleBet: runs the two fire-and-forget calls to their end, settlement before publication; the protocol has them as separate steps, and `Refinement.EitherOrder` shows that their order does not matter.
- Gateway.WithdrawRoute.Withdraw: starts after authentication, the rate limit, schema validation and the wallet lookup.
- Agreement.ExactlyOnce: says nothing about events that were never published (`PublishLost`), because the gateway has no retry for them.
- Withdrawals on other chains are never paid by the payout worker; they stay requested in the protocol.
- Pipeline.CreditedOnce: is per transaction hash, as the code is; of two deposit logs in one transaction only the first is credited.
- Fairness.RunKeeps: does not interleave bets with the awaits of a rotation, where the source gives no guarantee; one user, with seeds as numbers.
- RateLimit.IntervalLimit: one clock that does not run backwards, one subject and action.
- Solana payouts and the trade router, which exist as documentation only.
