/**
 `PlaceBid` of internal/bidding/service.go as a process that takes one step at every external call,
 with the steps of any number of runs, the clock and the auction lifecycle interleaved freely.
 Every external call may fail; a Redis call that fails may or may not have taken effect, and the
 payment service answers whatever it likes.

 `hist` is a history variable: no step looks at it.  It lists, per auction, the bids the prepare
 script let through in order (`log`) and which of them have not been popped off again (`stack`,
 positions in `log`).
 */
module BidProtocol {
  import opened Options
  import opened Numbers
  import opened RedisBids
  import opened BidTables

  datatype Reply = Failed | Refused | Taken(bidId: BidId)

  datatype Pc =
    | Started
    | Loaded
    | Checked(at: nat)
    | Prepared
    | Validated
    | Reserved
    | Completing(accepted: bool, release: bool, unreadable: bool)
    | Releasing
    | Finished(reply: Reply)

  /** One call of `PlaceBid`; `row` is its snapshot of the auction once it has been read. */
  datatype Run = Run(user: string, auction: string, request: string, amount: int, row: Auction, pc: Pc)

  datatype Entry = Entry(bidId: BidId, user: string, amount: int)

  datatype History = History(log: seq<Entry>, stack: seq<nat>)

  datatype Core = Core(
    now: nat, redis: Redis, db: Tables, runs: map<BidId, Run>, hist: map<string, History>)

  /** Whether a remote call ran, and whether its answer came back. */
  datatype Net = Delivered | ReplyLost | NotDelivered

  /** What a payment request comes to; a refusal and no answer in time are one to `PlaceBid`. */
  datatype Answer = Granted | Denied | Unreadable

  datatype Event =
    | Tick(elapsed: nat)
    | CreateAuction(auction: string, start: int, increment: int, startsAt: nat, endsAt: nat)
    | Activate(auction: string)
    | End(auction: string)
    | Begin(run: BidId, user: string, auction: string, request: string, amount: int)
    | Load(run: BidId, ok: bool)
    | Check(run: BidId)
    | Prepare(run: BidId, net: Net, composedAt: nat)
    | Validate(run: BidId, answer: Answer)
    | Reserve(run: BidId, answer: Answer)
    | Commit(run: BidId, ok: bool)
    | Complete(run: BidId, ran: bool, composedAt: nat)
    | Release(run: BidId)

  /** What a run has before it has read the auction. */
  const NO_ROW := Auction(0, 0, 0, Pending, 0, 0)

  const INITIAL := Core(0, Redis(map[], map[]), Tables(map[], []), map[], map[])

  function Hist(c: Core, a: string): History {
    if a in c.hist then c.hist[a] else History([], [])
  }

  function KeyOf(r: Run): IdemKey {
    IdemKey(r.user, r.request)
  }

  function Move(c: Core, p: BidId, pc: Pc): Core
    requires p in c.runs
  {
    c.(runs := c.runs[p := c.runs[p].(pc := pc)])
  }

  /** The run exists and stands where the event finds it. */
  predicate At(c: Core, e: Event) {
    match e
    case Load(p, _) => p in c.runs && c.runs[p].pc.Started?
    case Check(p) => p in c.runs && c.runs[p].pc.Loaded?
    case Prepare(p, _, _) => p in c.runs && c.runs[p].pc.Checked?
    case Validate(p, _) => p in c.runs && c.runs[p].pc.Prepared?
    case Reserve(p, _) => p in c.runs && c.runs[p].pc.Validated?
    case Commit(p, _) => p in c.runs && c.runs[p].pc.Reserved?
    case Complete(p, _, _) => p in c.runs && c.runs[p].pc.Completing?
    case Release(p) => p in c.runs && c.runs[p].pc.Releasing?
    case _ => false
  }

  /** A run is assumed not to stall for a day between its end-time check and its prepare; nothing
      else about scheduling is assumed. */
  predicate Enabled(c: Core, e: Event) {
    match e
    case Tick(_) => true
    case CreateAuction(_, _, _, _, _) => true
    case Activate(a) => a in c.db.auctions && c.db.auctions[a].phase.Pending? && c.db.auctions[a].startsAt <= c.now
    case End(a) => a in c.db.auctions && c.db.auctions[a].phase.Active? && c.db.auctions[a].endsAt <= c.now
    case Begin(p, _, _, _, _) => p !in c.runs
    case Prepare(p, _, t) => At(c, e) && t <= c.now < c.runs[p].pc.at + DAY - NANOS_PER_MILLI
    case Complete(_, _, t) => At(c, e) && t <= c.now
    case _ => At(c, e)
  }

  function SetPhase(c: Core, a: string, phase: Phase): Core
    requires a in c.db.auctions
  {
    c.(db := c.db.(auctions := c.db.auctions[a := c.db.auctions[a].(phase := phase)]))
  }

  /** service.go:45-62 */
  function CheckStep(c: Core, p: BidId): Core
    requires p in c.runs
  {
    var r := c.runs[p];
    if !r.row.phase.Active? || c.now > r.row.endsAt || r.amount < r.row.currentPrice + r.row.minIncrement
    then Move(c, p, Finished(Refused))
    else Move(c, p, Checked(c.now))
  }

  function PrepareOf(c: Core, p: BidId, composedAt: nat): PrepareCommand
    requires p in c.runs
  {
    var r := c.runs[p];
    PrepareCommand(KeyOf(r), r.auction, p, r.amount, r.row.currentPrice, r.row.minIncrement,
                   IdemTtl(), PrepareStateTtl(r.row.endsAt, composedAt))
  }

  function Push(h: History, e: Entry): History {
    History(h.log + [e], h.stack + [|h.log|])
  }

  /** service.go:64-103 */
  function AfterPrepare(reply: PrepareReply, net: Net): Pc {
    if net != Delivered then Finished(Failed)
    else if reply.duplicate then
      if reply.status == Accepted then Finished(Taken(reply.bidId)) else Finished(Refused)
    else if !reply.allowed then Finished(Refused)
    else Prepared
  }

  function PrepareStep(c: Core, p: BidId, net: Net, composedAt: nat): Core
    requires p in c.runs
  {
    if net == NotDelivered then Move(c, p, Finished(Failed))
    else
      var r := c.runs[p];
      var (redis, reply) := PrepareScript(c.redis, PrepareOf(c, p, composedAt), Ms(c.now));
      var hist := if reply.allowed
                  then c.hist[r.auction := Push(Hist(c, r.auction), Entry(p, r.user, r.amount))]
                  else c.hist;
      Move(c.(redis := redis, hist := hist), p, AfterPrepare(reply, net))
  }

  /** service.go:111-127 and 135-151: an answer that cannot be read rejects the bid in Redis too, and
      then ends in an error. */
  function AfterAnswer(answer: Answer, next: Pc): Pc {
    if answer == Granted then next else Completing(false, false, answer == Unreadable)
  }

  /** service.go:153-168 */
  ghost function CommitStep(c: Core, p: BidId, ok: bool): Core
    requires p in c.runs
  {
    var r := c.runs[p];
    var written := WriteBid(c.db, BidRow(p, r.auction, r.user, r.amount));
    if ok && written.Some?
    then Move(c.(db := written.value), p, Completing(true, false, false))
    else Move(c, p, Completing(false, true, false))
  }

  function CompleteOf(c: Core, p: BidId, composedAt: nat): CompleteCommand
    requires p in c.runs && c.runs[p].pc.Completing?
  {
    var r := c.runs[p];
    CompleteCommand(KeyOf(r), r.auction, p, if r.pc.accepted then Accepted else Rejected,
                    IdemTtl(), CompleteStateTtl(r.row.endsAt, composedAt))
  }

  function Pop(h: History): History {
    if h.stack == [] then h else h.(stack := h.stack[..|h.stack| - 1])
  }

  function AfterComplete(pc: Pc, p: BidId): Pc
    requires pc.Completing?
  {
    if pc.accepted then Finished(Taken(p))
    else if pc.release then Releasing
    else if pc.unreadable then Finished(Failed)
    else Finished(Refused)
  }

  /** service.go:214-230: an error from `CompleteBid` is only logged. */
  function CompleteStep(c: Core, p: BidId, ran: bool, composedAt: nat): Core
    requires p in c.runs && c.runs[p].pc.Completing?
  {
    var pc := AfterComplete(c.runs[p].pc, p);
    if !ran then Move(c, p, pc)
    else
      var a := c.runs[p].auction;
      var cmd := CompleteOf(c, p, composedAt);
      var hist := if Pops(c.redis, cmd) then c.hist[a := Pop(Hist(c, a))] else c.hist;
      Move(c.(redis := CompleteScript(c.redis, cmd, Ms(c.now)).0, hist := hist), p, pc)
  }

  ghost function Step(c: Core, e: Event): Core
    requires Enabled(c, e)
  {
    match e
    case Tick(elapsed) => c.(now := c.now + elapsed, redis := Purge(c.redis, Ms(c.now + elapsed)))
    case CreateAuction(a, start, increment, startsAt, endsAt) =>
      if a in c.db.auctions then c
      else c.(db := c.db.(auctions := c.db.auctions[a := Auction(start, start, increment, Pending, startsAt, endsAt)]))
    case Activate(a) => SetPhase(c, a, Active)
    case End(a) => SetPhase(c, a, Ended)
    case Begin(p, user, a, request, amount) =>
      c.(runs := c.runs[p := Run(user, a, request, amount, NO_ROW, Started)])
    case Load(p, ok) =>
      if !ok || c.runs[p].auction !in c.db.auctions then Move(c, p, Finished(Failed))
      else c.(runs := c.runs[p := c.runs[p].(row := c.db.auctions[c.runs[p].auction], pc := Loaded)])
    case Check(p) => CheckStep(c, p)
    case Prepare(p, net, t) => PrepareStep(c, p, net, t)
    case Validate(p, answer) => Move(c, p, AfterAnswer(answer, Validated))
    case Reserve(p, answer) => Move(c, p, AfterAnswer(answer, Reserved))
    case Commit(p, ok) => CommitStep(c, p, ok)
    case Complete(p, ran, t) => CompleteStep(c, p, ran, t)
    case Release(p) => Move(c, p, Finished(Failed))
  }

  /** The commit's transaction as the core sees it. */
  lemma CommitIs(c: Core, p: BidId, ok: bool)
    requires p in c.runs && c.runs[p].pc.Reserved? && c.runs[p].auction in c.db.auctions && !HasBid(c.db.bids, p)
    ensures var r := c.runs[p]; var a := c.db.auctions[r.auction];
            Step(c, Commit(p, ok))
            == if ok then
                 c.(db := Tables(c.db.auctions[r.auction := a.(currentPrice := Max(a.currentPrice, r.amount))],
                                 c.db.bids + [BidRow(p, r.auction, r.user, r.amount)]),
                    runs := c.runs[p := r.(pc := Completing(true, false, false))])
               else c.(runs := c.runs[p := r.(pc := Completing(false, true, false))])
  {
  }

  /** `d` is where the events lead from `c`. */
  ghost predicate Leads(c: Core, events: seq<Event>, d: Core)
    decreases |events|
  {
    if events == [] then c == d
    else Enabled(c, events[0]) && Leads(Step(c, events[0]), events[1..], d)
  }

  lemma {:induction false} LeadsOn(c: Core, events: seq<Event>, d: Core, e: Event)
    requires Leads(c, events, d) && Enabled(d, e)
    ensures Leads(c, events + [e], Step(d, e))
    decreases |events|
  {
    if events == [] {
      assert [e][1..] == [];
    } else {
      LeadsOn(Step(c, events[0]), events[1..], d, e);
      assert (events + [e])[1..] == events[1..] + [e];
    }
  }

  ghost predicate Reachable(c: Core) {
    exists events :: Leads(INITIAL, events, c)
  }

  lemma ReachableOn(c: Core, e: Event)
    requires Reachable(c) && Enabled(c, e)
    ensures Reachable(Step(c, e))
  {
    var events :| Leads(INITIAL, events, c);
    LeadsOn(INITIAL, events, c, e);
  }

  /** The run's bid sits in the database, or its commit has just succeeded. */
  predicate Committed(p: BidId, pc: Pc) {
    (pc.Completing? && pc.accepted) || pc == Finished(Taken(p))
  }

  predicate PastPrepare(pc: Pc) {
    pc.Prepared? || pc.Validated? || pc.Reserved? || pc.Completing? || pc.Releasing? || pc.Finished?
  }

  /** Prepared, and neither rejected nor abandoned. */
  predicate Live(p: BidId, pc: Pc) {
    pc.Prepared? || pc.Validated? || pc.Reserved? || pc.Completing? || pc == Finished(Taken(p))
  }
}
