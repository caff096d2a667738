/**
 What the checks before a bid is prepared are worth later: whoever gets past them, and so every accepted bid,
 found the auction active and its price beaten, and an auction is active or over only when its time has come.
 */
module BidChecks {
  import opened RedisBids
  import opened BidTables
  import opened BidProtocol
  import opened BidInvariant

  /** Past the checks, and not turned away by the prepare. */
  predicate Passed(p: BidId, pc: Pc) {
    || pc.Checked? || pc.Prepared? || pc.Validated? || pc.Reserved? || pc.Completing? || pc.Releasing?
    || pc == Finished(Taken(p))
  }

  predicate PhaseFits(now: nat, a: Auction) {
    && (!a.phase.Pending? ==> a.startsAt <= now)
    && (a.phase.Ended? ==> a.endsAt <= now)
  }

  /** A snapshot that says active is of an auction that has been started. */
  predicate RowFits(auctions: map<string, Auction>, r: Run) {
    r.row.phase.Active? ==> r.auction in auctions && !auctions[r.auction].phase.Pending?
  }

  predicate ChecksHeld(p: BidId, r: Run) {
    Passed(p, r.pc) ==> r.row.phase.Active? && r.row.currentPrice + r.row.minIncrement <= r.amount
  }

  ghost predicate ChecksInv(c: Core) {
    && (forall a :: a in c.db.auctions ==> PhaseFits(c.now, c.db.auctions[a]))
    && (forall p :: p in c.runs ==> RowFits(c.db.auctions, c.runs[p]) && ChecksHeld(p, c.runs[p]))
  }

  /** A step that moves one run on. */
  lemma MoveKeepsChecks(c: Core, p: BidId, pc: Pc)
    requires ChecksInv(c) && p in c.runs && (Passed(p, pc) ==> Passed(p, c.runs[p].pc))
    ensures ChecksInv(Move(c, p, pc))
  {
  }

  lemma CheckKeepsChecks(c: Core, p: BidId)
    requires ChecksInv(c) && Enabled(c, Check(p))
    ensures ChecksInv(Step(c, Check(p)))
  {
  }

  lemma LoadKeepsChecks(c: Core, p: BidId, ok: bool)
    requires ChecksInv(c) && Enabled(c, Load(p, ok))
    ensures ChecksInv(Step(c, Load(p, ok)))
  {
  }

  /** The prepare moves its run and leaves the tables; a repeated bid is not this run's own. */
  lemma PrepareKeepsChecks(c: Core, p: BidId, net: Net, t: nat)
    requires Inv(c) && ChecksInv(c) && Enabled(c, Prepare(p, net, t))
    ensures ChecksInv(Step(c, Prepare(p, net, t)))
  {
    var d := Step(c, Prepare(p, net, t));
    assert d.now == c.now && d.db == c.db && d.runs == c.runs[p := c.runs[p].(pc := d.runs[p].pc)];
  }

  lemma CommitKeepsChecks(c: Core, p: BidId, ok: bool)
    requires ChecksInv(c) && Enabled(c, Commit(p, ok))
    ensures ChecksInv(Step(c, Commit(p, ok)))
  {
  }

  lemma CompleteKeepsChecks(c: Core, p: BidId, ran: bool, t: nat)
    requires ChecksInv(c) && Enabled(c, Complete(p, ran, t))
    ensures ChecksInv(Step(c, Complete(p, ran, t)))
  {
    var d := Step(c, Complete(p, ran, t));
    assert d.now == c.now && d.db == c.db && d.runs == c.runs[p := c.runs[p].(pc := d.runs[p].pc)];
  }

  lemma OtherKeepsChecks(c: Core, e: Event)
    requires ChecksInv(c) && Enabled(c, e)
    requires e.Tick? || e.CreateAuction? || e.Activate? || e.End? || e.Begin?
    ensures ChecksInv(Step(c, e))
  {
  }

  lemma StepKeepsChecks(c: Core, e: Event)
    requires Inv(c) && ChecksInv(c) && Enabled(c, e)
    ensures ChecksInv(Step(c, e))
  {
    match e
    case Load(p, ok) => LoadKeepsChecks(c, p, ok);
    case Check(p) => CheckKeepsChecks(c, p);
    case Prepare(p, net, t) => PrepareKeepsChecks(c, p, net, t);
    case Validate(p, answer) => MoveKeepsChecks(c, p, AfterAnswer(answer, Validated));
    case Reserve(p, answer) => MoveKeepsChecks(c, p, AfterAnswer(answer, Reserved));
    case Commit(p, ok) => CommitKeepsChecks(c, p, ok);
    case Complete(p, ran, t) => CompleteKeepsChecks(c, p, ran, t);
    case Release(p) => MoveKeepsChecks(c, p, Finished(Failed));
    case _ => OtherKeepsChecks(c, e);
  }

  lemma {:induction false} RunKeepsChecks(c: Core, events: seq<Event>, d: Core)
    requires Inv(c) && ChecksInv(c) && Leads(c, events, d)
    ensures ChecksInv(d)
    decreases |events|
  {
    if events != [] {
      StepKeeps(c, events[0]);
      StepKeepsChecks(c, events[0]);
      RunKeepsChecks(Step(c, events[0]), events[1..], d);
    }
  }

  /** In every reachable state a run past its checks found its auction active and its price beaten by the
      increment, and the auction has been started. */
  lemma PassedFoundActive(c: Core, p: BidId)
    requires Reachable(c) && p in c.runs && Passed(p, c.runs[p].pc)
    ensures var r := c.runs[p];
            && r.row.phase.Active? && r.row.currentPrice + r.row.minIncrement <= r.amount
            && r.auction in c.db.auctions && !c.db.auctions[r.auction].phase.Pending?
            && c.db.auctions[r.auction].startsAt <= c.now
  {
    InitHolds();
    var events :| Leads(INITIAL, events, c);
    RunKeepsChecks(INITIAL, events, c);
    assert RowFits(c.db.auctions, c.runs[p]) && ChecksHeld(p, c.runs[p]);
  }

  /** So no bid is accepted on an auction before it has started, nor below the price its run had read plus the
      increment. */
  lemma AcceptedBidsFoundActive(c: Core, i: nat)
    requires Reachable(c) && i < |c.db.bids|
    ensures var b := c.db.bids[i];
            && b.auction in c.db.auctions && !c.db.auctions[b.auction].phase.Pending?
            && c.db.auctions[b.auction].startsAt <= c.now
            && b.id in c.runs && c.runs[b.id].row.phase.Active?
            && c.runs[b.id].row.currentPrice + c.runs[b.id].row.minIncrement <= b.amount
  {
    ReachableHolds(c);
    assert BidOk(c.db.auctions, c.runs, c.db.bids[i]);
    PassedFoundActive(c, c.db.bids[i].id);
  }

  /** An auction is active only from its start on, and ended only from its end on. */
  lemma PhasesKeepTime(c: Core, a: string)
    requires Reachable(c) && a in c.db.auctions
    ensures PhaseFits(c.now, c.db.auctions[a])
  {
    InitHolds();
    var events :| Leads(INITIAL, events, c);
    RunKeepsChecks(INITIAL, events, c);
  }

  // ----- the answer to a prepare ---------------------------------------------------------------------------------

  /** The key's record says that bid `q` was accepted. */
  predicate SaysAccepted(c: Core, k: IdemKey, q: BidId) {
    k in c.redis.records && c.redis.records[k].status == Accepted && c.redis.records[k].bidId == q
  }

  /** What a delivered prepare of run `p` answers, in every reachable state: it goes on if and only if its key
      is new and it beats the top of the stack; it is answered "accepted" with a bid if and only if its key's
      record says that this bid was; and otherwise it is refused. */
  lemma PrepareAnswersExactly(c: Core, p: BidId, t: nat)
    requires Reachable(c) && Enabled(c, Prepare(p, Delivered, t)) && Good(c.db.auctions, c.runs[p].auction)
    ensures var r := c.runs[p]; var k := IdemKey(r.user, r.request);
            var h := Hist(c, r.auction); var a := c.db.auctions[r.auction];
            var pc := Step(c, Prepare(p, Delivered, t)).runs[p].pc;
            && StackOk(h, a.startPrice, a.minIncrement)
            && (pc == Prepared
                <==> k !in c.redis.records && Below(h, |h.stack|, a.startPrice).price + a.minIncrement <= r.amount)
            && (forall q :: pc == Finished(Taken(q)) <==> SaysAccepted(c, k, q))
            && (pc == Prepared || pc == Finished(Refused) || (pc.Finished? && pc.reply.Taken?))
  {
    ReachableHolds(c);
    PrepareSeesTop(c, p, t);
    assert RunOk(c.now, c.db, Hist(c, c.runs[p].auction), p, c.runs[p]);
  }

  /** An answer that says "rejected" to a repeated key does so because the record does not say "accepted". */
  lemma DuplicateAnswersExactly(c: Core, p: BidId, t: nat, q: BidId)
    requires Enabled(c, Prepare(p, Delivered, t))
    ensures var k := IdemKey(c.runs[p].user, c.runs[p].request);
            Step(c, Prepare(p, Delivered, t)).runs[p].pc == Finished(Taken(q)) <==> SaysAccepted(c, k, q)
  {
  }

  lemma CompleteKeepsAccepted(c: Core, p: BidId, ran: bool, t: nat, k: IdemKey, q: BidId)
    requires RecordsOk(c) && Enabled(c, Complete(p, ran, t)) && SaysAccepted(c, k, q)
    ensures SaysAccepted(Step(c, Complete(p, ran, t)), k, q)
  {
    assert RecordOk(c.runs, k, c.redis.records[k]);
  }

  lemma PrepareKeepsAccepted(c: Core, p: BidId, net: Net, t: nat, k: IdemKey, q: BidId)
    requires Enabled(c, Prepare(p, net, t)) && SaysAccepted(c, k, q)
    ensures SaysAccepted(Step(c, Prepare(p, net, t)), k, q)
  {
  }

  lemma CommitKeepsRedis(c: Core, p: BidId, ok: bool)
    requires Enabled(c, Commit(p, ok))
    ensures Step(c, Commit(p, ok)).redis == c.redis
  {
  }

  /** Nothing but time takes an accepted record back. */
  lemma StepKeepsAccepted(c: Core, e: Event, k: IdemKey, q: BidId)
    requires RecordsOk(c) && Enabled(c, e) && SaysAccepted(c, k, q) && k in Step(c, e).redis.records
    ensures SaysAccepted(Step(c, e), k, q)
  {
    match e
    case Prepare(p, net, t) => PrepareKeepsAccepted(c, p, net, t, k, q);
    case Complete(p, ran, t) => CompleteKeepsAccepted(c, p, ran, t, k, q);
    case Commit(p, ok) => CommitKeepsRedis(c, p, ok);
    case Check(_) =>
    case _ =>
  }

  /** The key's record is not dropped during the run. */
  ghost predicate Stays(c: Core, events: seq<Event>, k: IdemKey)
    decreases |events|
  {
    events != [] && Enabled(c, events[0]) ==>
      k in Step(c, events[0]).redis.records && Stays(Step(c, events[0]), events[1..], k)
  }

  lemma {:induction false} RunKeepsAccepted(c: Core, events: seq<Event>, d: Core, k: IdemKey, q: BidId)
    requires Inv(c) && Leads(c, events, d) && Stays(c, events, k) && SaysAccepted(c, k, q)
    ensures SaysAccepted(d, k, q)
    decreases |events|
  {
    if events != [] {
      StepKeeps(c, events[0]);
      StepKeepsAccepted(c, events[0], k, q);
      RunKeepsAccepted(Step(c, events[0]), events[1..], d, k, q);
    }
  }

  /** Once a key's bid is accepted, and as long as its record lasts, every delivered prepare with that key is
      answered "accepted" with that bid, whatever happens in between. */
  lemma RetryIsAnsweredAccepted(c: Core, events: seq<Event>, d: Core, k: IdemKey, q: BidId, p: BidId, t: nat)
    requires Reachable(c) && SaysAccepted(c, k, q) && Leads(c, events, d) && Stays(c, events, k)
    requires Enabled(d, Prepare(p, Delivered, t)) && d.runs[p].user == k.user && d.runs[p].request == k.request
    ensures Step(d, Prepare(p, Delivered, t)).runs[p].pc == Finished(Taken(q))
  {
    ReachableHolds(c);
    RunKeepsAccepted(c, events, d, k, q);
    DuplicateAnswersExactly(d, p, t, q);
  }
}
