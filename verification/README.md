# Verification of the live-auction backend

A Dafny model of the auction backend, and proofs about it. `dafny verify dfyconfig.toml` checks everything.

The value of the backend lies in one protocol that spans three stores and any number of processes: bid handlers
and settlement workers share PostgreSQL rows, three Redis keys per auction and a publish/subscribe channel, with no
lock around the whole. Around it stand keyset pagination, a fixed-window rate limiter and a lossy broadcast
pipeline per WebSocket connection. The model covers these four and composes the first with the last.

## What is where

| files | content |
|---|---|
| `Domain`, `Schema`, `HotKeys` | rows, money, time; the CHECK constraints and the settlement transaction; the Redis keys with lazy expiry and the bid script |
| `Protocol` | handlers and workers as a labelled transition system, one database or Redis command per step, a crash possible before each |
| `Invariants`, `Runs` | the global inductive invariant, and what holds in every reachable state |
| `Settlement`, `Refinement`, `Schedule`, `Timing`, `Window`, `Steps`, `Witness` | who wins and when, the simulation by an atomic auction, how a scan comes to its end, conditions on times alone, when a bid can be accepted, what every handler and worker has done before, and runs that show the hypotheses are needed |
| `Stores`, `Worker`, `BidHandler` | the worker and the bid handler as the imperative programs they are, each proved equal in effect to its protocol steps |
| `Subsequences`, `Broadcast`, `Hub`, `Delivery`, `Relay` | what is published, the connection pipeline, both composed, and how everything can arrive |
| `Limiter`, `Middleware` | the rate limiter as a mutable object, whole traces of calls, and the choice between two limiters |
| `Decimal`, `Amounts`, `ScriptText` | the amount pattern, why comparing doubles compares cents, and the bid script on texts |
| `Base64Url`, `Cursor`, `Pagination` | section 5 of RFC 4648, section 5.6 of RFC 3339, JSON strings, the opaque cursor, `listAuctions`, and a client that follows cursors |

## How the protocol is read

A handler runs `Ask, Fetch, Gate, Prime, Until, Flag, Regate, Arm, Script, Respond`: the row is read once, the time
is checked twice, and only `Script` decides. A worker runs `Select, Snap, Lock, Commit, Cache, Announce, Erase`. A
`Drop` or `Fail` may replace any step. What is taken for granted of the stores: a Lua script, an MGET and a DEL are
atomic; `for update` serialises, and the status read under the lock is the latest one; a transaction happens as a
whole or not at all; a channel delivers in order and may lose messages; a key is visible up to and including its
expiry instant. There is one clock, in nanoseconds. The Redis client library turns a positive TTL into whole
milliseconds, at least one, reads -1ns as "keep the TTL", and any other non-positive TTL as "no expiry". Each command
is executed at most once: by default the library sends a command again when the reply does not come in time, and if
the first one did arrive, a script runs twice (and answers the request with the 409 of its second run) or a message is
published twice. `CreatedIsOneAccept` and `AtMostOneNotice` do not hold of such a repetition.

Unconditional, for any number of workers and handlers: an auction is sold exactly when the leader key is visible to
the committing worker's MGET, and then to the latest bid accepted by that step, at its amount; no bid is accepted
before the start, and one accepted after the end was let in by a late SET of the status key; at most one settlement
commits and at most one is announced; every constraint of the schema holds; deletion of the hot keys means that the
row has left ACTIVE for good; a leader is never seen without a price; a 201 is exactly one accepted bid; a bid's keys
live until a day after the end, less one second.

Whether that bid is the greatest is decided exactly by `WinnerExactly`, without a hypothesis: in any state from the
snapshot on, the outcome is that of the greatest bid accepted so far if and only if there is no bid, or the leader
key was visible to the snapshot and the latest bid accepted before it is the greatest so far. Two hypotheses about
runs are sufficient for it, and the simulation assumes both. `NoEarlyExpiry`: while the row is ACTIVE, the price key has
not expired; settling within a day of the end, less one second, suffices. `Quiesced`: no bid is accepted after any
worker's MGET; that in every state from the first snapshot on no ACTIVE word is visible suffices, and so do prompt
handlers with a grace period. `NoEarlyExpiry` is also what scan completeness needs, and `Quiesced` what the order of
the messages needs: `Relay.PriceAfterTheEnd` is a run in which a client is sent a price after the settlement.

## Findings

- Both sides are enabled at the instant `end` itself: the handler refuses only after it, the worker selects from it
  on, and the snapshot precedes the transaction. There is no grace period between the two; of the settlement grace
  in `database/README.md:40` the code has only the day that price and leader outlive the end. `Witness.LostBid` is a
  run in which a bid answered with 201 is lost that way.
- A status SET whose TTL has been computed at or after `end` stores an ACTIVE word without an expiry. A later script
  may then still accept, until a worker overwrites the word: the script looks at the word and the price, not at the
  time. `Window.AcceptedExactly` has the exact condition, and `Witness.LateBid` is a run in which a bid is accepted two
  hours after the end.
- A bid whose script finds no ACTIVE word is answered 409 with the word CLOSED as the current price, where the API
  contract promises AUCTION_NOT_BIDDABLE. This happens exactly when no handler's SET of the word is alive
  (`Window.RefusedExactly`): after a settlement has overwritten the word, but also on an auction that is still ACTIVE,
  when the word lapses between the second check and the script (`Witness.ClosedForAPrice`).
- A scan without any failure can leave an auction ACTIVE that was due. Once the price key has expired a script has
  nothing to compare with, and accepts a bid below the starting price; the settlement then violates
  `current_high_price >= starting_price` and is rolled back (`Witness.StuckAuction`). A settlement transaction is
  rolled back exactly when its snapshot shows such a leader (`Settlement.CommitsExactly`, `Settlement.ScanExactly`).
- Line 635 reads the nullable `current_high_price` into a string that is never used. A literal NULL would fail the
  read, and with it every bid on an auction that has not been settled. The model has an optional column that is not
  looked at, as the protocol intends it.
- In a half-open minute the limiter lets through at most `2 * max - 1` calls, not `2 * max`: two windows begin at
  least a minute apart, so the opening call of the first one falls outside. `RateLimiter.Most` is the exact maximum
  for every length, attained by a trace.
- `has_more` with an empty `next_cursor` is possible: a start that an offset moves into the UTC year 10000 cannot be
  parsed back, and a start within the first microsecond of the zero time passes creation but is stored as zero.
  `CursorOfCreated` has the exact condition. A client that follows the empty cursor starts over: on a table that does
  not change it never finishes (`PagesAreTheList`, and `SamePageForever` for an example), and on any table each row on
  the top page both times is returned twice (`WalkStartsOver`).

## Model

| member | source | states |
|---|---|---|
| Schema.SettleTxCommits | backend/internal/settlement/worker.go:86-113 | on an untouched ACTIVE row the transaction commits if and only if the snapshot is no leader without a price and no bid below the starting price; a commit keeps every constraint, and row and single winning ledger row agree on user and amount |
| Protocol.CreatableExactly | database/schema.sql:43-66 | the rows that creation inserts: DRAFT or ACTIVE, no high price, no winner, a positive price of NUMERIC(12, 2), an end after the start |
| HotKeys.BidTtlExactly | backend/internal/handlers/handlers.go:660-663 | the TTL of the pair is the whole seconds until a day after the end, and one when less is left |
| HotKeys.ExpiryExactly | backend/internal/handlers/handlers.go:645 | how long what is written with a TTL lives, for every TTL |
| HotKeys.TerminalExactly | backend/internal/settlement/worker.go:114-118 | the terminal word lives until a day after the end, or an hour when that is over, and the pair is left alone |
| HotKeys.SetNxExactly | backend/internal/handlers/handlers.go:641 | SETNX leaves a visible price, and stores the starting price for good otherwise |
| HotKeys.ScriptExactly | backend/internal/handlers/handlers.go:680 | the script key by key: when it refuses, when a bid is too low and what it shows then, and what an accepted bid leaves behind |
| HotKeys.BidTtlReaches | backend/internal/handlers/handlers.go:660-664 | truncation, the clamp to one second and any delay before the script together cost less than a second of the day after the end |
| Invariants.DoInv | backend/internal/handlers/handlers.go:635-693 | the global invariant over program counters, Redis keys, row, ledger, lock and snapshots in flight survives every step of every handler and worker |
| Invariants.CommitInv | backend/internal/settlement/worker.go:86-113 | the commit keeps it, also when it aborts: what the other workers hold stays consistent with the row that has just become terminal |
| Runs.Reachable | backend/internal/settlement/worker.go:58-126 | the invariant holds of every auction in every state of every run, with scans, crashes and time passing |
| Runs.Growth | backend/internal/settlement/worker.go:83-85 | along a run terms never change, histories only grow, and row, ledger and commits are final once the row has left ACTIVE |
| Settlement.BidsIncrease | backend/internal/handlers/handlers.go:641-680 | until the hot keys are first deleted or expire, accepted bids strictly increase above the starting price, and the keys hold the last one |
| Settlement.SnapshotInstant | backend/internal/settlement/worker.go:59-70 | a worker's snapshot is what its last MGET on the auction returned, and counts the bids accepted by then |
| Settlement.CommitInstant | backend/internal/settlement/worker.go:71-113 | a committed settlement has a committing step, whose worker held the lock and that snapshot, with no commit before it; it is the one step of the run that changes the auction's commits |
| Settlement.SoldToTheLatest | backend/internal/settlement/worker.go:59-113 | without any hypothesis, the auction is sold exactly when the committing worker's MGET sees the leader key, and then to the latest bid accepted by that step, at its amount; row and ledger record it |
| Settlement.WinnerExactly | backend/internal/settlement/worker.go:59-113 | without any hypothesis, in every state from that snapshot on: price and winner are those of the greatest bid accepted so far if and only if there is no bid, or the snapshot saw the leader and the latest bid before it is the greatest so far |
| Settlement.WinnerIsGreatestSeen | backend/internal/settlement/worker.go:59-113 | without early expiry, price and winner are those of the greatest bid accepted before the committing worker's snapshot, and row and ledger record them |
| Settlement.WinnerUnexpired | backend/internal/settlement/worker.go:59-113 | without early expiry they are those of the greatest bid accepted by the commit if and only if none was accepted between snapshot and commit |
| Settlement.WinnerUnderQuiescence | backend/internal/settlement/worker.go:59-113 | under quiescence, and without early expiry, they are those of the greatest bid of the whole run |
| Settlement.SettledOnce | database/schema.sql:53-98 | in every state at most one commit and one announcement; constraints and unique index hold; ACTIVE means no ledger row; a winner exists iff SETTLED; terminal rows agree with the ledger |
| Settlement.DeletedMeansDone | backend/internal/settlement/worker.go:59-125 | once a settlement has deleted the keys, row and ledger never change again and no worker, however old its snapshot, can commit |
| Settlement.NoLeaderWithoutPrice | backend/internal/settlement/worker.go:106-109 | no commit of any run ends in that rollback |
| Settlement.PairInEveryState | backend/internal/handlers/handlers.go:680 | a visible leader comes with a visible price, they share one expiry, and are the latest accepted bid |
| Settlement.CommitsSucceed | database/schema.sql:53-66 | without early expiry no settlement transaction violates a constraint, and a settled price exceeds the starting price |
| Settlement.CommitsExactly | backend/internal/settlement/worker.go:86-113 | in any run a settlement transaction commits if and only if its worker's snapshot does not show a leader whose bid was below the starting price |
| Settlement.CreatedIsOneAccept | backend/internal/handlers/handlers.go:664-677 | a request answered 201 has exactly one accepted bid, any other answered request has none |
| Settlement.ScanCompletes | backend/internal/settlement/worker.go:38-56 | when the worker of a scan is idle again, each auction it selected has left ACTIVE or its settle has failed or was rolled back, whatever other workers did |
| Settlement.ScanExactly | backend/internal/settlement/worker.go:38-56 | when a scan meets no failure, the settle of a selected auction has come to nothing if and only if it committed on a snapshot of a leader below the starting price; otherwise the auction has left ACTIVE |
| Settlement.ScanWithoutFailure | backend/internal/settlement/worker.go:38-56 | a scan without failure, and without early expiry, leaves no ACTIVE auction that was due |
| Schedule.ScanCanEnd | backend/internal/settlement/worker.go:45-56 | any run in whose last state no other worker holds a row lock can be continued, by at most six steps of the worker for each auction it is at work on, none of them a failure, until its scan is through |
| Refinement.Simulation | backend/internal/handlers/handlers.go:635-693 | under both hypotheses each step of each interleaving is an accept, the close, or a stutter of an atomic auction |
| Refinement.RejectionIsTrue | backend/internal/handlers/handlers.go:670-676 | without early expiry, and while the auction is open, a 409 with a price shows the atomic auction's high price, which the bid does not exceed |
| Refinement.RunIsAtomic | backend/internal/settlement/worker.go:58-125 | the whole run is one in which the accepted bids are accepted in order and the auction then closes once, with that winner or none |
| Timing.InTimeIsUnexpired | backend/internal/handlers/handlers.go:660-664 | settlement within a day of the end, less one second, rules out early expiry |
| Timing.SnapshotSeesPair | backend/internal/settlement/worker.go:59-70 | every snapshot of an ACTIVE auction within that time shows exactly the latest accepted bid |
| Timing.LapsedIsQuiesced | backend/internal/handlers/handlers.go:680 | if no ACTIVE word is visible from the first snapshot on, no bid follows a snapshot |
| Timing.PromptAndGraceQuiesce | backend/internal/handlers/handlers.go:645 | handlers that set the status within some delay, and workers that wait that delay and a millisecond, make the run quiescent |
| Window.AcceptedExactly | backend/internal/handlers/handlers.go:645-680 | a script accepts, at whatever time, if and only if the bid exceeds the visible price and the latest write of the status key is a handler's SET of ACTIVE whose word has no expiry or has not reached it |
| Window.RefusedExactly | backend/internal/handlers/handlers.go:670-680 | a script refuses, for a 409 with the word CLOSED as the price, if and only if no handler's SET of ACTIVE is alive |
| Steps.BeforeScript | backend/internal/handlers/handlers.go:635-664 | in every run, every script is preceded, in this order, by its handler's read of an ACTIVE row, a check, SETNX, the word's TTL, its SET, a second check and the pair's TTL; both checks were at instants from the start to the end, and both TTLs are what was left then |
| Steps.AcceptedAfterChecks | backend/internal/handlers/handlers.go:637-680 | the same for every accepted bid, which becomes price and leader, for that many seconds, and is published |
| Steps.ChecksExactly | backend/internal/handlers/handlers.go:637-640 | a check turns a bid away if and only if the row read is not ACTIVE or the time is before its start or after its end, and touches no key |
| Steps.BeforeCommit | backend/internal/settlement/worker.go:39-85 | in every run, every commit is preceded, in this order, by a scan that found the auction ACTIVE and ended, the MGET whose result is committed, and the row lock on a row still ACTIVE |
| Steps.BeforeErase | backend/internal/settlement/worker.go:111-125 | in every run, every deletion is preceded, in this order, by the commit, the terminal word and the message |
| Steps.AfterCommit | backend/internal/settlement/worker.go:114-125 | what those three steps do to keys and channel, and that they do nothing else |
| Steps.NotBeforeEnd | backend/internal/settlement/worker.go:39 | in every run, before its end no worker is at work on an auction, and nothing of it is read, committed, announced or deleted |
| Steps.SettledAfterEnd | backend/internal/settlement/worker.go:39-70 | the snapshot that was committed on was taken after the end |
| Steps.ScanSelectsExactly | backend/internal/settlement/worker.go:39 | a scan selects exactly the auctions that are ACTIVE and have ended |
| Steps.InOrderOfEnds | backend/internal/settlement/worker.go:39-55 | a worker begins a settle only when it has none half done, and none selected that ends earlier |
| Window.AcceptedInWindow | backend/internal/handlers/handlers.go:637-680 | in every run, no bid is accepted before the start; one accepted after the end was let in by a SET whose TTL was computed at or after the end, or that ran about as late as the bid |
| Window.PromptWindow | backend/internal/handlers/handlers.go:637-680 | if every SET runs within some delay of computing a positive TTL, no bid is accepted later than that delay and a millisecond after the end |
| Witness.LateBid | backend/internal/handlers/handlers.go:645-680 | a concrete run in which a handler computes the status TTL at the end, and its bid is accepted two hours later and gets a 201 |
| Witness.ClosedForAPrice | backend/internal/handlers/handlers.go:654-676 | a concrete run that ends in that 409 on an auction that is still ACTIVE |
| Witness.StuckAuction | backend/internal/settlement/worker.go:86-113 | a concrete quiescent run without an error or a crash, in which a scan is through and an auction that was due is still ACTIVE |
| Witness.Overtaken | backend/internal/handlers/handlers.go:645-680 | a concrete run without early expiry in which a price is published after the settlement |
| Witness.LostBid | backend/internal/settlement/worker.go:39-59 | a concrete run without early expiry in which a bid accepted at the end, after the snapshot, gets a 201 and the auction closes unsold |
| Witness.ForgottenBid | backend/internal/settlement/worker.go:59-85 | a concrete quiescent run in which a worker two days late closes an auction unsold on a bid answered 201 |
| SettlementWorker.Worker.Transact | backend/internal/settlement/worker.go:86-113 | the statements, and a fault of any statement that runs, come to the whole settlement transaction or to nothing |
| SettlementWorker.Worker.Conclude | backend/internal/settlement/worker.go:114-125 | terminal status, message and deletion, each only if the previous one succeeded |
| SettlementWorker.Worker.Settle | backend/internal/settlement/worker.go:58-126 | for an error at every command, and a lost reply of each, and all instants of MGET and status SET, row, ledger, keys, messages and returned error are those of the worker's protocol steps, and no other auction is touched |
| SettlementWorker.Worker.Query | backend/internal/settlement/worker.go:39 | the auctions that are ACTIVE with an end at or before the query, all of them and no others, each once, by end time |
| SettlementWorker.Worker.Scan | backend/internal/settlement/worker.go:38-56 | each due auction ends up and is announced as by its own settle alone, whatever fails in others; a row that cannot be read, and every auction that is not due, stays, and is silent; when the query fails all do; an auction that is not ACTIVE or has not ended keeps row, ledger and keys, and is silent |
| SettlementWorker.Effect | backend/internal/settlement/worker.go:58-126 | the worker's protocol steps in closed form, for any number of them done before a failure |
| SettlementWorker.SettleExactly | backend/internal/settlement/worker.go:58-126 | the whole settle when nothing fails, from what MGET finds to row, ledger, keys and message: SETTLED for the leader at the price, CLOSED without one, or nothing at all when the price is missing or below the starting price |
| SettlementWorker.SettleIsAllOrNothing | backend/internal/settlement/worker.go:71-125 | a settle leaves the auction exactly as it was or terminal; without faults it also publishes once and deletes the pair |
| SettlementWorker.SettleableExactly | backend/internal/settlement/worker.go:86-113 | in every state that the protocol reaches, the transaction of a settle that read the keys now would commit if and only if no leader is visible whose bid was below the starting price |
| SettlementWorker.ScanOnce | backend/internal/settlement/worker.go:38-56 | a scan without faults takes each due auction whose transaction can commit out of ACTIVE and announces it once; all others stay as they were, and silent |
| SettlementWorker.ScanTwice | backend/internal/settlement/worker.go:38-56 | after two scans for one instant each auction is what its second settle makes of what its first one made of it; so all that the first leaves not due has row, ledger, keys and messages as the first alone leaves them, and if every transaction could commit, that is every auction |
| BidHandler.App.EvalBid | backend/internal/handlers/handlers.go:679-694 | the script's commands in order have the atomic script's effect on keys, channel and reply, and leave other auctions alone |
| BidHandler.App.PlaceBid | backend/internal/handlers/handlers.go:632-678 | for an error at every command, and a lost reply of each, keys, message and response are those of the handler's protocol steps; a row that is not ACTIVE, or a time outside its window, is turned away with keys and channel untouched, and otherwise the second check decides |
| BidHandler.Effect | backend/internal/handlers/handlers.go:635-677 | the handler's protocol steps in closed form, for any number of them done before an error or a crash |
| BidHandler.HandlerExactly | backend/internal/handlers/handlers.go:635-677 | the whole handler when nothing fails, from the row, the keys and the instants of its steps to keys, message and reply |
| Broadcast.RunPublished | backend/internal/settlement/worker.go:121-122 | an auction's PRICE_UPDATEs are its accepted bids in order, and its SETTLEMENT, if any, is the committed one |
| Broadcast.RunWire | backend/internal/handlers/handlers.go:680 | the shared channel carries, auction by auction, exactly what each publishes |
| Broadcast.PricesIncrease | backend/internal/handlers/handlers.go:680 | until the hot keys go, an auction's published prices strictly increase |
| Broadcast.PricesIncreaseQuiesced | backend/internal/handlers/handlers.go:680 | under both hypotheses they increase over the whole run, beyond the settlement |
| Broadcast.SettlementComesLast | backend/internal/settlement/worker.go:118-122 | under quiescence no PRICE_UPDATE follows the SETTLEMENT |
| Broadcast.AtMostOneNotice | backend/internal/settlement/worker.go:121-122 | always at most one SETTLEMENT, and it tells status and winner of the row, and the price if it was sold |
| Hub.PipelineKeepsOrder | backend/internal/websocket/hub.go:96-142 | messages are handed on or lost between Redis and socket, but never overtake one another |
| Hub.TurnLoses | backend/internal/websocket/hub.go:96-142 | what has entered the channel is lost only by a write that fails, and then that message alone; a push adds the message in hand at the end, a discard or a quit loses it and changes nothing else |
| Hub.PushedIsKept | backend/internal/websocket/hub.go:96-142 | over whole runs, while no write of a connection has failed, all that was pushed is, in order, written, in hand or in the buffer |
| Hub.ChannelSafety | backend/internal/websocket/hub.go:42-57 | in every interleaving no send follows the close, the buffer holds at most 32, a connection is in the registry exactly until its reader has left, and its subscriber has ended when ServeHTTP returns |
| Hub.SubscriberNeverBlocks | backend/internal/websocket/hub.go:136-141 | in every reachable state a subscriber with a message in hand can push exactly when the buffer has room, drop exactly when it is full and the connection not cancelled, and quit exactly when it is cancelled, never with a panic |
| Hub.TeardownReturns | backend/internal/websocket/hub.go:54-57 | from every reachable state in which the reader has ended, at most seven turns, none of them the writer's, lead to the return of ServeHTTP |
| Delivery.WrittenIsPublished | backend/internal/websocket/hub.go:96-142 | the frames written on a connection are an order-preserving subsequence of everything published |
| Delivery.ClientSeesRisingPrices | backend/internal/websocket/hub.go:128-142 | until the hot keys go, the prices a client is sent for an auction strictly increase |
| Delivery.ClientSeesRisingPricesQuiesced | backend/internal/websocket/hub.go:128-142 | under quiescence, and without early expiry, they increase for the whole run |
| Delivery.ClientSeesCleanEnd | backend/internal/websocket/hub.go:128-142 | under quiescence a client is sent no price after the SETTLEMENT |
| Delivery.ClientSeesOneNotice | backend/internal/websocket/hub.go:128-142 | without any hypothesis a client is sent at most one SETTLEMENT for an auction, and it tells status and winner of the row, and the price if it was sold |
| Relay.EverythingCanArrive | backend/internal/websocket/hub.go:42-142 | every run of the auctions is part of a run of the whole backend in which one connection is sent all that they publish |
| Relay.PriceAfterTheEnd | backend/internal/websocket/hub.go:128-142 | a concrete run of the whole backend in which a client is sent a price after the settlement |
| RateLimiter.DecideExactly | backend/internal/handlers/handlers.go:54-66 | a call is granted if and only if there is no window, or one that is a minute old, or one that is not full; what becomes of the window; and the hint in whole seconds, at least one |
| RateLimiter.Limiter.Allow | backend/internal/handlers/handlers.go:49-67 | decision, hint and new window of this key are those of the specification; every other key's window is unchanged |
| RateLimiter.Serve | backend/internal/handlers/handlers.go:48-67 | a new limiter that is given a trace of calls ends with the windows, and gives the decisions and hints, that the theorems below are about |
| RateLimiter.PrivateWindow | backend/internal/handlers/handlers.go:49-67 | on any interleaved trace each key gets the decisions and hints of a limiter of its own |
| RateLimiter.SlidingWindow | backend/internal/handlers/handlers.go:54-66 | a half-open interval of length L grants a key at most (ceil(L / 60s) + 1) * max - 1 calls, only ceil(L / 60s) * max if L is a nanosecond above a number of minutes, and so 2 * max - 1 in a minute |
| RateLimiter.BoundReached | backend/internal/handlers/handlers.go:54-66 | for every max and every length, a trace and an interval of that length in which exactly that many calls get through |
| RateLimiter.HintSound | backend/internal/handlers/handlers.go:58-64 | a hint lies in 1..60, a refusal leaves the entry alone, waiting a second more than the hint always passes, and waiting just the hint passes exactly when nothing was truncated or less than a second was left |
| RateLimiter.RetryIsGranted | backend/internal/handlers/handlers.go:54-66 | over whole traces: the first call of the key at least hint + 1 seconds after a refusal is granted, whatever was refused in between |
| Middleware.Guard.Admit | backend/internal/handlers/handlers.go:110-144 | an OPTIONS request is charged to neither limiter, any other to exactly one, which alone changes; it passes if and only if that limiter has room for its host, and a refusal shows that limiter's hint |
| Middleware.Guard.ChargedExactly | backend/internal/handlers/handlers.go:125-130 | a POST whose path begins with /api/v1/auth is charged to the limiter of the authentication, if there is one, and any other request to the general one |
| Middleware.Guard.PassedAtMost | backend/internal/handlers/handlers.go:125-142 | of the requests of a host that are charged to one limiter, no more pass in an interval of any length than its exact maximum |
| Middleware.Guard.Serve | backend/internal/handlers/handlers.go:110-144 | over a whole trace of requests each limiter ends as on the calls charged to it alone, and each answer is its limiter's decision on those calls |
| Amounts.PatternExactly | backend/internal/handlers/handlers.go:615 | an amount is one to ten digits, a point and two digits, and so many hundred cents and cents |
| Amounts.AmountFits | backend/internal/handlers/handlers.go:615 | every amount of the pattern is non-negative and below the limit of NUMERIC(12, 2) |
| Amounts.LeadingZero | backend/internal/handlers/handlers.go:615 | a leading zero does not change the amount |
| Amounts.ComparisonExact | backend/internal/handlers/handlers.go:680 | for every conversion that rounds to a nearest double (section 4.3.1 of IEEE 754-2019), comparing the doubles is comparing the cents, both for order and for equality |
| Amounts.PriceTextRoundTrip | backend/internal/handlers/handlers.go:641 | a starting price stored as text is an amount of the pattern with the same cents |
| ScriptText.ScriptOnCents | backend/internal/handlers/handlers.go:679-693 | on texts compared as doubles the script does, and returns, what it does on exact cents, leading zeros included, and stores a text of the pattern |
| ScriptText.SetNxOnCents | backend/internal/handlers/handlers.go:641 | SETNX with the database's text of the starting price sets the starting price |
| ScriptText.PaddedIsTooLow | backend/internal/handlers/handlers.go:680 | a bid that differs from the price in a leading zero only is too low |
| Base64Url.SymbolExactly | backend/internal/handlers/handlers.go:503 | the alphabet of table 2 of section 5 of RFC 4648 |
| Base64Url.GroupExactly | backend/internal/handlers/handlers.go:503 | the symbols of three bytes carry their 24 bits in order |
| Base64Url.TailExactly | backend/internal/handlers/handlers.go:503 | one or two bytes at the end carry their bits in two or three symbols, with zero bits and without padding |
| Base64Url.RoundTrip | backend/internal/handlers/handlers.go:503-509 | unpadded URL-safe decoding undoes encoding, for all bytes, within the alphabet |
| Cursor.FormatDate | backend/internal/handlers/handlers.go:499 | year, month and day of a formatted instant, as section 5.6 of RFC 3339 has them |
| Cursor.FormatTime | backend/internal/handlers/handlers.go:499 | its hour, minute and second |
| Cursor.FormatEnd | backend/internal/handlers/handlers.go:499 | its fraction, only if it is not zero and without zeros at its end, and its Z |
| Cursor.EscapeExactly | backend/internal/handlers/handlers.go:499 | which characters of a JSON string are escaped, and how |
| Cursor.CursorExactly | backend/internal/handlers/handlers.go:499-503 | the cursor of a start and a plain id is the base64 text of the JSON object with these two fields |
| Cursor.InstantRoundTrip | backend/internal/handlers/handlers.go:499-520 | formatting and parsing give an instant back if and only if its UTC year lies in 0..9999; otherwise parsing fails |
| Cursor.StringRoundTrip | backend/internal/handlers/handlers.go:499-517 | reading a JSON string undoes the encoder's escaping, and stops at its closing quote |
| Cursor.CursorDecodes | backend/internal/handlers/handlers.go:495-528 | what every non-empty cursor decodes to, the error cases included |
| Cursor.CursorRoundTrip | backend/internal/handlers/handlers.go:495-528 | decoding undoes encoding if and only if the start is non-zero, in the years 0..9999, and the id not blank (or both are the empty ones) |
| Pagination.ListAuctions | backend/internal/handlers/handlers.go:529-589 | the loop over limit + 1 rows and the cut answer the specified page, with the limit's default, a 400 for a bad limit or cursor, and a 500 exactly when the request is valid and the database fails |
| Pagination.RankIsTime | backend/internal/handlers/handlers.go:556-561 | instants are listed by year, month, day, hour, minute, second and nanosecond |
| Pagination.TextBeforeExactly | backend/internal/handlers/handlers.go:556-561 | ids are listed as texts: where two part, the one that ends, or has the smaller character, is the smaller |
| Pagination.InvalidExactly | backend/internal/handlers/handlers.go:534-552 | a request is answered 400 if and only if its limit is neither 0 nor from 1 to 100, or its cursor cannot be read |
| Pagination.PageExactly | backend/internal/handlers/handlers.go:553-588 | a page in terms of starts and ids alone: the latest starts, and at equal starts the greatest ids, of the rows further down than the cursor, in that order, 20 or as many as the limit; there are more exactly if one is left out |
| Pagination.ListingUnique | backend/internal/handlers/handlers.go:561 | there is one way to list rows in descending (start_time, id) order |
| Pagination.BelowIsSuffix | backend/internal/handlers/handlers.go:556-561 | the rows below an item of the listing are exactly the rest of the listing |
| Pagination.CursorLeadsBack | backend/internal/handlers/handlers.go:581-587 | the cursor of a page, after its detour through JSON text, decodes to the bound of its last item |
| Pagination.CursorWhenMore | backend/internal/handlers/handlers.go:578-588 | exactly when a page with more to come has a non-empty cursor |
| Pagination.CursorOfCreated | backend/internal/handlers/handlers.go:476-488 | the same in terms of the start that the creation request asked for |
| Pagination.MoreWithoutCursor | backend/internal/handlers/handlers.go:581-588 | a concrete table whose first page has more and no cursor |
| Pagination.PagesAreTheList | backend/internal/handlers/handlers.go:553-588 | on a fixed table a client's walk finishes if and only if the rows at which pages end survive a cursor; its pages are then together the sorted filtered table, after max(1, ceil(n / limit)) fetches |
| Pagination.SamePageForever | backend/internal/handlers/handlers.go:581-588 | on the table of `MoreWithoutCursor` a client gets the same page at every fetch, however many |
| Pagination.WalkUnderChange | backend/internal/handlers/handlers.go:553-588 | while rows are inserted and change status, a walk whose page ends survive strictly descends, never returns a row twice, and has every row that matched at each fetch |
| Pagination.WalkStartsOver | backend/internal/handlers/handlers.go:581-588 | at the first page end that does not survive, whatever the tables, the client gets what a new walk from the top gets from then on |

## Left out

- The whole of `frontend/`: views and browser calls.
- Authentication: JWT, bcrypt, Turnstile and Google tokens are foreign libraries and network; a handler knows a user id that exists and is never deleted.
- HTTP routing, JSON bodies, CORS, logging, health check, `clientIP` and configuration: the protocol starts from a decoded auction id and amount, the limiters from a host and `max` of at least one.
- The GET of one auction with its price from Redis: a read without consequences.
- The internals of Redis, PostgreSQL, their client libraries and the WebSocket library: see the assumptions above. Redis reads its clock in milliseconds, which one clock in nanoseconds does not show; instants are stored to the microsecond in PostgreSQL, which only `Pagination.CursorOfCreated` looks at.
- `updated_at`, `created_at`, titles, descriptions and foreign keys: no step depends on them.
- WebSocket authentication, pings, pongs and deadlines: a connection starts after authentication, and a socket may fail at any write.
- `Idempotency-Key`, BID_STALE and close codes: the code does not implement them.
- Whether a step is ever scheduled: only safety, measures that decrease, and failure-free scans are stated.
- A starting price of NaN, which NUMERIC would admit.
- The rounding of `Duration.Seconds()` to a double for very long durations.
- Two reads of the clock in one condition (lines 637 and 654), and the worker's status TTL and its SET, are one instant in the model; a condition that passes with two reads also holds at the later one alone.
- SettlementWorker.Worker.Settle: what other processes do between its steps is in the transition system, not in the sequential program.
- SettlementWorker.Worker.Scan: a result set that breaks off is a scan whose remaining rows cannot be read.
- SettlementWorker.Worker.Query: the order of rows that end at the same instant is the database's.
- Pagination.ListAuctions: the query itself is a function handed in, assumed to return the sorted matching rows or to fail.
- Pagination.WalkUnderChange: one way only under change; after the first page end that does not survive, what the walk is depends on the tables, and `Pagination.WalkStartsOver` says how.
- Cursor.StringRoundTrip: strings are ASCII, as the UUIDs that serve as ids are.
- Cursor.CursorRoundTrip: ids are ASCII, for the same reason.
- Cursor.CursorDecodes: payloads are those the encoder writes, with the id in ASCII and times in UTC; how the JSON and time parsers treat other payloads is not modelled. Ids are canonical UUID text, compared as text.
- Hub.ChannelSafety: the three goroutines and the channel are a state machine over their select cases, not imperative loops, since their interleaving is the point.
- Protocol: handlers and workers in the transition system are values; the imperative programs in `Worker` and `BidHandler` are proved to have the effect of their steps when run alone.
