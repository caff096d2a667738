# Licit auction services: a verified model

A Dafny 4.11 model of the auction back end: the bid protocol between the bidding service, Redis and the
database; the payment service's reservation ledger; the gateway's rate limiter and round robin; the
streamer's WebSocket hub; and the auction scheduler.  `dafny verify dfyconfig.toml` checks everything.

| file | models |
|---|---|
| `RedisBids.dfy` | the prepare and complete scripts, their time-to-live arithmetic, nested prepares and rejections |
| `BidTables.dfy` | the auctions and bids tables |
| `BidProtocol.dfy` | `PlaceBid` as a process, one step per external call; any number of runs, the clock and the auction lifecycle interleave |
| `BidInvariant.dfy` | what every step of that system keeps |
| `BidTheorems.dfy` | what follows for every reachable state and every run |
| `BidChecks.dfy` | what the checks before a prepare are worth later, and what a prepare answers |
| `Separation.dfy` | what holds of an auction's bids exactly when the increment is not negative: their separation, and that the price is the highest |
| `DeadBids.dfy` | a reachable state whose hash shows a rejected bid |
| `PlaceBid.dfy` | `Service.PlaceBid` in its own order of effects; one call, with anything of anybody else in between, takes its own steps of the protocol |
| `Replies.dfy` | what a whole call's reply tells |
| `Ledger.dfy`, `Validator.dfy` | the reservation ledger as a value, and the validator's handlers over mutable reservation objects |
| `PaymentRuns.dfy` | every interleaving of payment messages, and the bound on what is counted under a key |
| `Overdrawn.dfy` | for each rule the bound rests on, a run that breaks only that one and exceeds the balance |
| `Settlement.dfy` | protocol, ledger and messages together, up to the auction's end; which actions take a user's cover away |
| `Balance.dfy` | the bound on what is counted, for the whole system |
| `CoverRuns.dfy` | exactly when a user is covered at the end of a run |
| `Cover.dfy` | the announced winner is covered when the winner's own bids on the auction keep five clauses |
| `Stages.dfy`, `Uncovered.dfy` | for each clause, and for each negative increment, a run that breaks only that and leaves the winner uncovered |
| `Closing.dfy` | the announcement of an auction's end, and which bids make it untrue afterwards |
| `TokenBucket.dfy` | the token-bucket script and its answer |
| `Hub.dfy`, `Scheduler.dfy`, `RoundRobin.dfy` | the hub, the scheduler, `NextBackend` |
| `Options.dfy`, `Numbers.dfy` | the optional value and the small arithmetic they share |

How it is put together:

- A class holds the state the source changes in place; each method is proved against a function on values
  (`PrepareScript`, `CompleteScript`, `Reserve`, `AuctionEnded`, `Script`, `Hub.Step`, ...), and the results
  are lemmas about those functions over all runs.
- `Core.hist` in `BidProtocol` is a history variable no step reads: per auction, the bids the prepare script
  let through in order (`log`) and the positions of those not popped since (`stack`).
- A bid id is the number of the `PlaceBid` run that drew it and a reservation id the number of the request
  that made it: UUIDs are assumed fresh, and are so here by construction.

Assumptions:

- Money is whole cents and times are integers: nanoseconds for the service's clock, milliseconds for Redis.
  The bidding service and its Redis share one clock, which does not go back.
- A run does not stall for a whole day between its end-time check and its prepare.  Nothing else about
  scheduling is assumed.  With this the Redis hash provably outlives every use of it.
- Price facts are stated for auctions whose increment is not negative (`Good`); `SeparationHoldsExactly` shows
  that accepted bids are separated for those increments and no others.
- The Redis key of a record is the pair (user, request); the ledger's key is the real string
  `user + ":" + auction`, and the lemmas that need colon-free user ids say so.
- In the payment runs a user's wallet balance is fixed; in `Settlement` the wallet answers what it likes, and
  `Balance` fixes its answers about one user on one auction.
- Redis loses no key before its expiry, a failed commit writes nothing, one scheduler and one payment
  process run.  The rate limiter's interval is at least 1 ms and its capacity at least 1.

What turned out not to hold, and where it stops holding:

- With a negative increment three bids that read the auction before any is written may each undercut the one
  before, and all be accepted (`ThreeUndercut`); an accepted bid may be below the price (`BidsBelowStart`); and a
  user's lower bid may free the reservation behind the higher one that wins (`UndercutsOwnBid`).
- What is counted for a user on an auction can exceed the user's balance when a charge falls on the key between
  a validation and its reserve, and without any other of the four rules of `PaymentRuns.Rule`
  (`EachRuleIsNeeded`, `RulesAreExact`).
- The announced winner can be left without cover.  `CoverIsLostExactly` lists the actions that take a user's
  cover away in any reachable state: a smaller reserve of the same user on the same auction, delivered in time
  or late; a release or charge of the user's active reservation there; and an end that names somebody else, as
  after a failed read of the highest bid (service.go:362 ignores the error).  `CoveredExactly` says of any run
  when a user is covered at its end.
- The source enforces none of the five clauses of `Cover.Clause`, and none can be spared: two bids of the
  winner in flight at once, a commit that fails after its reserve, a reserve that arrives after its timeout, a
  release from outside or a charge before the end each suffice (`EachClauseIsNeeded`, `DisciplineIsExact`).
- A bid accepted after the announcement can beat the announced winner: the scheduler ends an auction while bids
  let in before are still under way (`LateBidBeatsWinner`).  `WinnerIsBeatenExactly` says which actions do so,
  `LetThroughMayBeat` that every higher bid already let through still can, and `QuietAuctionIsFinal` that none
  can once no run is under way.
- Rejections out of order leave a rejected bid on display in the hash (`OutOfOrderRejectsShowDeadBid`, and
  `DeadBidIsShown` in a reachable state), exactly while the top of the stack is no live bid
  (`HashShowsLiveExactly`); properly nested ones restore it (`NestedRunRestores`).
- A removed client that joins a room again makes the next broadcast there panic (`RejoinPanics`), and only such
  a join does (`JoinIsSafeExactly`).

## Model

| member | source | states |
|---|---|---|
| `RedisBids.RefreshReachesHorizon` | internal/bidding/redis_bid_processor.go:271-290 | both senders compute the same time-to-live, at least a day, and a refresh composed earlier than it runs still keeps the hash until a day after the auction's end, less the millisecond truncation may cost; run when it is composed, it keeps the hash no longer than a day after the end |
| `RedisBids.RedisStore.Prepare` | internal/bidding/redis_bid_processor.go:22-98 | the prepare script's writes, command by command, add up to one atomic change of the keyspace and its reply |
| `RedisBids.RedisStore.Complete` | internal/bidding/redis_bid_processor.go:100-140 | the same for the complete script; it answers "missing" and "mismatch" exactly when there is no record or another bid's, and then changes nothing |
| `RedisBids.NestedRunRestores` | internal/bidding/redis_bid_processor.go:73-94 | any properly nested run of prepares and rejections, at any times, over any auctions with or without a hash and with any repeated keys or ids, restores every auction's price, bid and bidder and every earlier record |
| `BidTables.MaxPriceIsLeastBound` | internal/bidding/repository.go:133-136 | the reference price is the least value at or above the start price and every bid, and is one of them |
| `BidTables.Repository.CreateAuction` | internal/bidding/repository.go:56-66 | a second insert of an id fails and writes nothing |
| `BidTables.Repository.UpdateAuctionStatus` | internal/bidding/repository.go:108-112 | only the named auction's phase changes |
| `BidTables.Repository.CreateBidAndUpdatePrice` | internal/bidding/repository.go:121-139 | row and price are written together or, whichever statement or commit fails, not at all; a known bid id or an unknown auction fails |
| `BidTables.Repository.GetHighestBid` | internal/bidding/repository.go:166-174 | none exactly when the auction has no bid, else a bid of greatest amount |
| `BidInvariant.PrepareSeesTop` | internal/bidding/redis_bid_processor.go:41-54 | a prepare that runs in time works from the top of the stack, whatever its snapshot says and whether or not the hash exists yet |
| `BidInvariant.CommitWrites` | internal/bidding/service.go:153-167 | a run that reaches its commit has a fresh id and an existing auction, so no constraint can refuse it |
| `BidInvariant.StepKeeps` | internal/bidding/service.go:33-212 | every step of every run, whatever fails, keeps the whole invariant: stack, hash, links, records, rows, price and snapshots agree |
| `BidInvariant.ReachableHolds` | internal/bidding/service.go:33-212 | so it holds in every reachable state |
| `BidTheorems.AcceptedBidsRise` | internal/bidding/redis_bid_processor.go:41-97 | of two accepted bids on an auction the one prepared later is higher by at least the increment, in every interleaving |
| `BidTheorems.BidsAreSeparated` | internal/bidding/redis_bid_processor.go:54-70 | any two bid rows of an auction differ by at least the increment |
| `BidTheorems.WinnerIsUnique` | internal/bidding/repository.go:166-174 | with a positive increment the highest-bid query has exactly one possible answer |
| `Separation.ThreeUndercut` | internal/bidding/redis_bid_processor.go:41-56 | for every negative increment there is a reachable state in which a later accepted bid is below an earlier one plus the increment |
| `Separation.SeparationHoldsExactly` | internal/bidding/redis_bid_processor.go:41-97 | accepted bids rise by the increment in every reachable state if and only if the increment is not negative |
| `Separation.PriceIsHighestExactly` | internal/bidding/repository.go:133-138 | in every reachable state the price of an auction with bids is its highest bid, if and only if the increment is not negative |
| `BidTheorems.HashIsTopOfStack` | internal/bidding/redis_bid_processor.go:73-94 | the hash shows the top of a stack of bids rising by at least the increment, and each record's previous fields show what lies below its bid |
| `BidTheorems.RedisPriceDominates` | internal/bidding/redis_bid_processor.go:41-45 | the hash's price is never below the database's, nor below any bid on the stack, any whose record is not rejected, or any whose run goes on or was accepted |
| `BidTheorems.SnapshotNeverOverrides` | internal/bidding/service.go:66-75 | so a stale snapshot never overrides an existing hash |
| `BidTheorems.PrepareAllowsExactly` | internal/bidding/redis_bid_processor.go:36-71 | a prepare lets a bid through if and only if its key is new and it reaches the stack top's price plus the increment; it answers a repeated key with what the key's record holds, and a new one with what was required |
| `BidTheorems.RejectPopsExactlyTop` | internal/bidding/redis_bid_processor.go:115-133 | a rejection pops exactly when its bid is on top, and then shows what lay below; otherwise, for a bid that is buried, nothing shown changes |
| `BidTheorems.HashOutlivesAuction` | internal/bidding/redis_bid_processor.go:271-290 | once a bid has gone through, the hash exists at least until a day after the end, hence as long as any run can pass its end-time check |
| `BidTheorems.OutOfOrderRejectsShowDeadBid` | internal/bidding/redis_bid_processor.go:120-133 | for any two consecutive bids, rejecting the lower first and the upper second leaves the rejected lower bid on display |
| `BidTheorems.HashShowsLiveExactly` | internal/bidding/redis_bid_processor.go:120-133 | with a positive increment the hash's price is the start price or a live bid's if and only if the stack is empty or its top is live |
| `DeadBids.DeadBidIsShown` | internal/bidding/redis_bid_processor.go:120-133 | for every auction and positive increment there is a reachable state whose hash shows a bid that was refused |
| `BidTheorems.DbPriceIsHighest` | internal/bidding/repository.go:133-138 | the price is the start price or highest accepted bid whatever the commit order, and equals the highest bid when there is one |
| `BidTheorems.RunAdvances` | internal/bidding/service.go:308-380 | over any run the price never falls, bid rows are only appended and phases only move forward |
| `BidTheorems.AcceptedReplyHasBid` | internal/bidding/service.go:80-103 | every "accepted" reply, first or repeated, names a committed bid of that user |
| `BidTheorems.RecordAgreesWithBids` | internal/bidding/redis_bid_processor.go:111-135 | a committed bid's record never says rejected, and one that says accepted has its bid in the database |
| `BidTheorems.RecordLivesADay` | internal/bidding/redis_bid_processor.go:86-136 | a record is dropped if and only if a full day has passed without its being written |
| `BidTheorems.HashIsRenewed` | internal/bidding/redis_bid_processor.go:68-137 | every prepare of a new key and every completion of a recorded bid keeps the hash for a day and to the horizon; nothing else touches it, and it is dropped exactly when its expiry has passed |
| `BidTheorems.OneBidPerKey` | internal/bidding/redis_bid_processor.go:36-86 | while its record lasts, a user's idempotency key yields at most one bid row over any number of concurrent retries |
| `BidChecks.PassedFoundActive` | internal/bidding/service.go:45-62 | in every reachable state a run past the three checks read an active auction and a price its bid beats by the increment, and the auction has started |
| `BidChecks.AcceptedBidsFoundActive` | internal/bidding/service.go:45-62 | so no bid is ever accepted on an auction that has not started, or below the price its call had read plus the increment |
| `BidChecks.PhasesKeepTime` | internal/bidding/service.go:308-380 | in every reachable state an auction is active only from its start on and ended only from its end on |
| `BidChecks.PrepareAnswersExactly` | internal/bidding/service.go:64-103 | a delivered prepare lets its run go on, is answered "accepted" with a bid, or is refused, each in exactly one case: new key and price beaten, key recorded as accepted with that bid, anything else |
| `BidChecks.RetryIsAnsweredAccepted` | internal/bidding/service.go:80-87 | once a key's bid is accepted, and while its record lasts, every later delivered prepare with that key is answered "accepted" with that bid, over any interleaving |
| `Replies.ReplyTells` | internal/bidding/service.go:33-212 | over any run a call ends in an error if and only if one of its own calls to the outside failed, and names a bid as accepted if and only if it committed that bid or found it accepted under its key |
| `PlaceBid.Service.LoadAuction` | internal/bidding/service.go:39-43 | reading the auction is one step of the run, which gets its row or ends in an error |
| `PlaceBid.Service.CheckSnapshot` | internal/bidding/service.go:45-62 | the three checks of the snapshot are one step of the run, which goes on if and only if the auction was active, is not over and the bid beats the price it had by the increment |
| `PlaceBid.Service.PrepareBid` | internal/bidding/service.go:64-103 | the prepare call and the branches on its answer are one step of the protocol |
| `PlaceBid.Service.CommitBid` | internal/bidding/service.go:153-167 | the transaction is one step, accepted exactly when it succeeds |
| `PlaceBid.Service.CompleteBidInRedis` | internal/bidding/service.go:214-230 | completing in Redis is one step, an error of which changes nothing else |
| `PlaceBid.Service.PlaceBid` | internal/bidding/service.go:33-212 | one call, with any failures and anything of anybody else between its calls to the outside, begins with its own user, auction, key and amount, takes its own next steps and no others, and ends in its reply |
| `PlaceBid.CallIsDetermined` | internal/bidding/service.go:33-212 | when nobody else acts meanwhile, where a call begins and the answers from outside fix every step of it and every state it passes through |
| `PlaceBid.HistoryIsReachable` | internal/bidding/service.go:33-212 | wherever the service stands is a reachable state of the protocol, so everything proved of those holds there |
| `Ledger.ReleaseOneMore` | internal/payment/validator.go:110-116 | releasing one at a time in any order adds up to releasing all at once |
| `Ledger.ReserveOk` | internal/payment/validator.go:106-129 | after a reserve every key's total is again the sum of its active and charged amounts, with one active reservation per user and auction |
| `Ledger.Conservation` | internal/payment/validator.go:106-214 | under each key, everything ever reserved is either still counted or was released |
| `Ledger.AuctionEndedKeepsWinner` | internal/payment/validator.go:201-215 | after the end only the winner's reservation is active on the auction, and nothing else changed |
| `Ledger.AuctionEndedTwice` | internal/payment/validator.go:191-216 | a redelivered end changes nothing |
| `Validator.Validator.HandleValidate` | internal/payment/validator.go:59-96 | valid exactly when the wallet answered and its balance less the key's total covers the amount; it answers what is left, or nothing without the wallet |
| `Validator.Validator.HandleReserve` | internal/payment/validator.go:99-137 | releases the user's active reservation on the auction and adds the new one, for every order in which the map is visited |
| `Validator.Validator.HandleRelease` | internal/payment/validator.go:140-163 | releases an active reservation, else changes nothing |
| `Validator.Validator.HandleCharge` | internal/payment/validator.go:166-188 | charges an active reservation and leaves every total |
| `Validator.Validator.HandleAuctionEnded` | internal/payment/validator.go:191-216 | releases the losers' active reservations, for every order in which the map is visited |
| `PaymentRuns.RunKeepsBook` | internal/payment/validator.go:99-216 | over every run of messages, also of reserves nobody validated, the totals balance, there is one active reservation per user and auction, and a released or charged reservation never changes again |
| `PaymentRuns.KeyIsInjective` | internal/payment/validator.go:106-106 | without colons in user ids a key names one user and one auction |
| `PaymentRuns.ReserveTotal` | internal/payment/validator.go:108-129 | right after a reserve the key's total is exactly what was charged under it plus the new amount |
| `PaymentRuns.ReservedWithinBalance` | internal/payment/validator.go:74-129 | however validations and reserves overlap, a user's total on an auction stays within the balance, as long as the messages about that one key keep the rules: no charge falls on it between a validation and its reserve |
| `Overdrawn.EachRuleIsNeeded` | internal/payment/validator.go:74-129 | for each rule there is a run that keeps all the others and ends with more counted than the balance |
| `Overdrawn.RulesAreExact` | internal/payment/validator.go:74-129 | the bound holds in all runs that keep the rules not excused if and only if none is excused, for auctions whose id has a colon |
| `Settlement.ReachableIsOk` | internal/payment/validator.go:99-216 | in every reachable state of protocol, ledger and messages, disciplined or not, the ledger balances, each reservation is that of a run past its reserve, and each published winner is a bid row of its auction |
| `Settlement.ValidationDecides` | internal/bidding/service.go:105-127 | in every reachable state a validation lets a bid go on if and only if a readable answer came and the balance covers the bid with everything still counted for the user there |
| `Settlement.ReservationDecides` | internal/bidding/service.go:129-151 | a reserve lets a bid go on if and only if a readable answer came in time, and the ledger has the reservation if and only if the request arrived |
| `Balance.SystemWithinBalance` | internal/bidding/service.go:105-151 | over every run of the whole system what is counted for a user on an auction stays within the balance, however the user's bids, timeouts and late requests overlap, when the wallet's answers there do not change and no charge there falls between a validation and its reserve |
| `Settlement.ReserveCoversExactly` | internal/payment/validator.go:108-128 | a reserve covers its user on its auction up to its own amount and no further |
| `Settlement.EndKeepsExactlyTheNamed` | internal/payment/validator.go:201-212 | handling an end keeps, on its auction, the cover of exactly the user the event names |
| `Settlement.EndSparesExactly` | internal/payment/validator.go:201-212 | of the active reservations on the auction an end spares the announced winner's and no others; announced without a winner it frees those of every user with an id |
| `Settlement.CoverIsLostExactly` | internal/payment/validator.go:108-212 | in every reachable state an action takes a user's cover away if and only if it is a smaller reserve of that user there, a release or charge of their active reservation, or the end naming somebody else |
| `CoverRuns.CoverIsGainedExactly` | internal/payment/validator.go:108-128 | in every reachable state an action covers an uncovered user if and only if it delivers a reserve of theirs there of at least the amount |
| `CoverRuns.CoveredExactly` | internal/payment/validator.go:108-212 | at the end of any run a user is covered if and only if some covering reserve is followed by no action that takes the cover away |
| `Cover.ReserveIsHighest` | internal/bidding/service.go:129-135 | a run about to reserve asks for at least every bid its user has had accepted on the auction |
| `Cover.DoKeepsCover` | internal/bidding/service.go:129-168 | every action that is disciplined for one user on one auction keeps what is due to that user covered until the end is delivered, whatever anybody else does |
| `Cover.WinnerIsCovered` | internal/bidding/service.go:362-370 | when the end is first handled the announced winner holds, and keeps, an active reservation of at least the winning bid, if the run was disciplined for that winner on that auction |
| `Uncovered.EachClauseIsNeeded` | internal/bidding/service.go:105-168 | for each clause of the discipline, every user and every auction there is a run that keeps all the others and ends with that user announced as winner and not covered |
| `Uncovered.DisciplineIsExact` | internal/bidding/service.go:105-168 | the announced winner is covered in all runs that keep the clauses not excused if and only if none is excused |
| `Uncovered.IncrementIsExact` | internal/bidding/service.go:362-370 | the announced winner is covered in all disciplined runs of auctions with a given increment if and only if it is not negative |
| `Closing.AnnouncementTells` | internal/bidding/service.go:362-379 | an announcement names the highest bid, or nobody when reading it failed; when publishing fails there is none, and no other auction's announcement changes |
| `Closing.AnnouncementIsFinal` | internal/bidding/service.go:345-379 | over every run of the whole system a published announcement never changes and is never made again |
| `Closing.WinnerIsBeatenExactly` | internal/bidding/service.go:153-168 | in every reachable state an action leaves the highest bid no longer highest if and only if it is the successful commit of a higher one on that auction, whether or not the auction is over |
| `Closing.QuietAuctionIsFinal` | internal/bidding/service.go:45-62 | once an auction is over and no run that read it before is under way, its bids and its winner never change again, over any run of the whole system |
| `Closing.LetThroughMayBeat` | internal/bidding/service.go:105-168 | every run let through with more than the announced winner can still be accepted, and then beats it |
| `Closing.LateBidBeatsWinner` | internal/bidding/service.go:345-379 | for every user and auction there is a reachable state in which a bid accepted after the announcement beats the announced winner |
| `TokenBucket.RateLimitStore.Allow` | internal/gateway/rate_limiter.go:21-75 | the script, statement by statement, is the bucket function on the key's live value; other keys are untouched |
| `TokenBucket.ScriptIsCreditStep` | internal/gateway/rate_limiter.go:27-61 | one call decides and leaves exactly what a millisecond-credit bucket does |
| `TokenBucket.RunIsCreditRun` | internal/gateway/rate_limiter.go:27-71 | over every sequence of calls the decisions are those of the credit bucket |
| `TokenBucket.FreshRunIsFullCreditRun` | internal/gateway/rate_limiter.go:34-37 | a new client is the credit bucket started full |
| `TokenBucket.ExpiryIsUnobservable` | internal/gateway/rate_limiter.go:34-72 | after capacity times interval idle milliseconds a call gives the same answer and state with or without the key |
| `TokenBucket.DroppingRunIsRun` | internal/gateway/rate_limiter.go:71-72 | so every run with key expiry is the run without it |
| `TokenBucket.RateLimitStore.ServeRequests` | internal/gateway/rate_limiter.go:21-75 | a client's calls one after the other, with Redis dropping the key whenever its own expiry has passed, decide as the run without expiry |
| `TokenBucket.RunStaysReady` | internal/gateway/rate_limiter.go:27-71 | after any run, whatever the clock did, the bucket is one that a call left behind |
| `TokenBucket.WindowBound` | internal/gateway/rate_limiter.go:43-61 | over any window of any run, even with a clock that jumps back, at most capacity plus one request per interval of forward movement gets through |
| `TokenBucket.MonotoneForward` | internal/gateway/rate_limiter.go:27-28 | with a monotone clock that forward movement is the window's length |
| `TokenBucket.BurstGetsThrough` | internal/gateway/rate_limiter.go:57-61 | the bound is reached for every capacity, interval and number of intervals |
| `TokenBucket.AnswerAnnounces` | internal/gateway/rate_limiter.go:57-74 | the announced limit is the capacity, and exactly the announced number of further requests gets through at that instant |
| `TokenBucket.ResetIsNextToken` | internal/gateway/rate_limiter.go:63-69 | the announced reset is when the next token arrives, within one interval |
| `TokenBucket.DenialLeavesEmpty` | internal/gateway/rate_limiter.go:57-69 | a denial leaves an empty bucket whose next refill lies in (now, now + interval] |
| `TokenBucket.RetryIsExact` | internal/gateway/rate_limiter.go:47-69 | from then on a call is allowed if and only if the refill has come, and an earlier one changes nothing |
| `TokenBucket.AskingEarlyCostsNothing` | internal/gateway/rate_limiter.go:47-71 | any number of early retries are all denied and leave the refill where it was |
| `TokenBucket.RetryAfterSuffices` | internal/gateway/rate_limiter.go:236-281 | waiting the rounded-up Retry-After seconds always suffices and a second less never does |
| `Hub.RunAgrees` | internal/streamer/hub.go:48-132 | over every run rooms and Rooms sets agree, no room is empty and no channel is closed twice |
| `Hub.MembersAreWatchers` | internal/streamer/hub.go:95-147 | a room's members are exactly the clients not removed that have it in their Rooms set |
| `Hub.ClientsAreOpen` | internal/streamer/hub.go:51-73 | after every run the registered clients are exactly those ever registered whose channel is not closed |
| `Hub.UnregisterLeavesNoTrace` | internal/streamer/hub.go:57-73 | after an unregister any client ever registered is in no room and its channel was closed exactly once |
| `Hub.NoBroadcastPanics` | internal/streamer/hub.go:75-89 | no broadcast reaches a closed channel |
| `Hub.JoinIsSafeExactly` | internal/streamer/hub.go:95-115 | after a join the next broadcast is safe if and only if the client had not been removed |
| `Hub.RejoinPanics` | internal/streamer/hub.go:57-115 | for every client and room there is a run, proper until then, at whose end the client's join makes the next broadcast panic |
| `Hub.Hub.Register` | internal/streamer/hub.go:51-55 | the registration step |
| `Hub.Hub.Unregister` | internal/streamer/hub.go:57-73 | the removal step, for every order in which the Rooms set is visited |
| `Hub.Hub.JoinRoom` | internal/streamer/hub.go:95-115 | the join step, on room and client together |
| `Hub.Hub.LeaveRoom` | internal/streamer/hub.go:118-132 | the leave step, dropping the room when it empties |
| `Hub.Hub.Broadcast` | internal/streamer/hub.go:75-89 | panics exactly when a member's channel is closed; otherwise each member gets the message once or is put up for unregistering when its buffer is full |
| `Hub.Hub.GetRoomClientCount` | internal/streamer/hub.go:140-147 | the number of members |
| `Scheduler.Scheduler.CreateAuction` | internal/bidding/service.go:265-286 | a new auction has the given price, increment and times, is pending and unannounced; a known id changes nothing, and no other auction changes |
| `Scheduler.Scheduler.ActivateDue` | internal/bidding/service.go:312-342 | exactly the due auctions whose update succeeds become active, each announced once |
| `Scheduler.Scheduler.EndDue` | internal/bidding/service.go:345-379 | exactly the due auctions whose update succeeds end, each announced once, with the highest bid, or with nobody when reading it fails |
| `Scheduler.Scheduler.CheckAuctionTimers` | internal/bidding/service.go:308-380 | one pass with any faults: announcements always fit the phase, one start then one end, which names the highest bid or, when reading it fails, nobody |
| `Scheduler.PassOnlyMovesForward` | internal/bidding/service.go:308-380 | no pass moves an auction back or changes anything but its phase |
| `Scheduler.PassClearsExactly` | internal/bidding/service.go:308-380 | a pass leaves an auction overdue if and only if a query or update it needed failed |
| `Scheduler.PassIsPath` | internal/bidding/service.go:308-380 | what a pass makes of the tables is what some of the bid protocol's own activations and ends make of them |
| `RoundRobin.Cluster.NextBackend` | internal/gateway/service.go:358-372 | nobody if and only if no backend is healthy, else a healthy one of the list, the one at the counter modulo their number; then the counter moves by one |
| `RoundRobin.Cluster.ServeRequests` | internal/gateway/service.go:358-372 | k requests in a row are served by healthy backends only, by each of n of them k/n times, rounded down or up, and exactly k/n when n divides k |
| `RoundRobin.HealthyAreHealthy` | internal/gateway/service.go:358-368 | the candidates are the healthy backends of the list, all of them and no others |
| `RoundRobin.PicksAreFair` | internal/gateway/service.go:370-371 | picks that go round a list from any counter take each of its n places k/n times, rounded down or up |

## Left out

- HTTP handlers, JSON, NATS connections and streams, SQL drivers, WebSocket pumps and the wallet's HTTP call: requests appear as steps that succeed, fail or lose their answer, the wallet balance as an input.
- Floating-point money and the texts of messages and log lines: amounts are whole cents, and a reply carries its kind and, when accepted, its bid id.
- The checks on the idempotency key's format (internal/bidding/idempotency.go): a malformed key is refused before anything happens.
- Loss of Redis keys before their expiry, restarts of the payment process, several schedulers, commits whose outcome is unknown.
- Fields that are only stored (titles, timestamps of rows, reasons): nothing modelled reads them.
- `AuctionRoom` and `Client.Hub` as objects: a room is the map of its clients, which is all the hub shares.
- `UpdateAuctionPrice`, `UpdateBidStatus`, `CreateBid` of the repository: nothing calls them.
- `PlaceBid` without a bid processor: the service is always started with one.
- Routing, CORS, configuration, proxying and health-check requests of the gateway: they would add only easy members.
- PlaceBid.Service.PlaceBid: each Redis command is composed at the instant it runs; the step relation also allows it to be composed earlier.
- Overdrawn.RulesAreExact: for auctions whose id has a colon; without one no other user's key can be the same and the rule about colons is not needed.
- BidTheorems.AcceptedBidsRise: for increments that are not negative; for the others it fails, as Separation.SeparationHoldsExactly shows.
- Cover.WinnerIsCovered: under the discipline the source needs and does not enforce, stated as `Disciplined`; where it fails is stated by CoverIsLostExactly, EachClauseIsNeeded and EndKeepsExactlyTheNamed.
- TokenBucket.RateLimitStore.ServeRequests: stands for the gateway's calls of `Allow`, one by one, with a clock that does not go back.
- RoundRobin.Cluster.ServeRequests: stands for the gateway's requests, which the source serves one by one; no health check falls between them.
- RoundRobin.Cluster.NextBackend: below 2^63 calls; beyond that the source's conversion to int turns negative.
- TokenBucket.RateLimitStore.Allow: capacity and interval may differ from call to call in the contract, but the run lemmas fix them.
