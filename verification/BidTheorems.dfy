/** What the bid protocol guarantees, over every interleaving and every failure. */
module BidTheorems {
  import opened Options
  import opened RedisBids
  import opened BidTables
  import opened BidProtocol
  import opened BidInvariant

  // ----- accepted bids --------------------------------------------------------------------------------

  /** Every bid in the database was let through by the prepare script and was never popped again. */
  lemma BidIsOnStack(c: Core, i: nat)
    requires Inv(c) && i < |c.db.bids| && Good(c.db.auctions, c.db.bids[i].auction)
    ensures var b := c.db.bids[i]; var h := Hist(c, b.auction);
            exists s :: 0 <= s < |h.stack| && h.stack[s] < |h.log| && h.log[h.stack[s]] == Entry(b.id, b.user, b.amount)
  {
    var b := c.db.bids[i];
    var h := Hist(c, b.auction);
    assert BidOk(c.db.auctions, c.runs, b);
    assert RunOk(c.now, c.db, h, b.id, c.runs[b.id]);
    var s :| 0 <= s < |h.stack| && h.stack[s] < |h.log| && h.log[h.stack[s]].bidId == b.id;
    assert EntryOk(c.runs, b.auction, h.log[h.stack[s]]);
  }

  /** Of two accepted bids on one auction, the one prepared later is higher by at least the increment. */
  lemma AcceptedBidsRise(c: Core, a: string, x: nat, y: nat)
    requires Reachable(c) && Good(c.db.auctions, a)
    requires x < y < |Hist(c, a).log|
    requires HasBid(c.db.bids, Hist(c, a).log[x].bidId) && HasBid(c.db.bids, Hist(c, a).log[y].bidId)
    ensures Hist(c, a).log[x].amount + c.db.auctions[a].minIncrement <= Hist(c, a).log[y].amount
  {
    ReachableHolds(c);
    var h := Hist(c, a);
    assert AuctionInv(c, a);
    var sx := StackPosition(c, a, x);
    var sy := StackPosition(c, a, y);
    assert Amount(h, sx) + c.db.auctions[a].minIncrement <= Amount(h, sy);
  }

  lemma StackPosition(c: Core, a: string, x: nat) returns (s: nat)
    requires Inv(c) && Good(c.db.auctions, a)
    requires x < |Hist(c, a).log| && HasBid(c.db.bids, Hist(c, a).log[x].bidId)
    ensures s < |Hist(c, a).stack| && Hist(c, a).stack[s] == x
  {
    var h := Hist(c, a);
    var p := h.log[x].bidId;
    assert LogOk(c.runs, a, h);
    assert EntryOk(c.runs, a, h.log[x]);
    var i :| 0 <= i < |c.db.bids| && c.db.bids[i].id == p;
    assert BidOk(c.db.auctions, c.runs, c.db.bids[i]);
    BidIsOnStack(c, i);
    s :| 0 <= s < |h.stack| && h.stack[s] < |h.log| && h.log[h.stack[s]].bidId == p;
  }

  /** Any two bid rows of an auction differ by at least the increment, so no two tie when it is positive. */
  lemma BidsAreSeparated(c: Core, i: nat, j: nat)
    requires Reachable(c) && i < |c.db.bids| && j < |c.db.bids| && i != j
    requires c.db.bids[i].auction == c.db.bids[j].auction && Good(c.db.auctions, c.db.bids[i].auction)
    ensures var d := c.db.bids[i].amount - c.db.bids[j].amount;
            var inc := c.db.auctions[c.db.bids[i].auction].minIncrement;
            d <= -inc || inc <= d
  {
    ReachableHolds(c);
    BidIsOnStack(c, i);
    BidIsOnStack(c, j);
    var bi, bj := c.db.bids[i], c.db.bids[j];
    var h := Hist(c, bi.auction);
    assert AuctionInv(c, bi.auction);
    var s :| 0 <= s < |h.stack| && h.stack[s] < |h.log| && h.log[h.stack[s]] == Entry(bi.id, bi.user, bi.amount);
    var t :| 0 <= t < |h.stack| && h.stack[t] < |h.log| && h.log[h.stack[t]] == Entry(bj.id, bj.user, bj.amount);
    assert bi.id != bj.id;
    assert Amount(h, s) == bi.amount && Amount(h, t) == bj.amount;
  }

  /** With a positive increment `GetHighestBid` has one possible answer: the winner is unique. */
  lemma WinnerIsUnique(c: Core, a: string, top: Option<BidRow>, other: Option<BidRow>)
    requires Reachable(c) && Good(c.db.auctions, a) && 0 < c.db.auctions[a].minIncrement
    requires IsHighest(c.db.bids, a, top) && IsHighest(c.db.bids, a, other)
    ensures top == other
  {
    if top.Some? && other.Some? {
      var i :| 0 <= i < |c.db.bids| && c.db.bids[i] == top.value;
      var j :| 0 <= j < |c.db.bids| && c.db.bids[j] == other.value;
      if i != j { BidsAreSeparated(c, i, j); }
    }
  }

  // ----- the Redis hash ----------------------------------------------------------------------------------

  /** The hash shows the top of the stack of bids let through and not popped, whose amounts rise by at
      least the increment; a live record's previous_* fields show what lies below its bid. */
  lemma HashIsTopOfStack(c: Core, a: string)
    requires Reachable(c) && Good(c.db.auctions, a)
    ensures StackOk(Hist(c, a), c.db.auctions[a].startPrice, c.db.auctions[a].minIncrement)
    ensures a in c.redis.hashes ==>
              && Shown(c.redis, a, 0) == Below(Hist(c, a), |Hist(c, a).stack|, c.db.auctions[a].startPrice)
              && c.redis.hashes[a].minIncrement == c.db.auctions[a].minIncrement
    ensures forall k, i :: k in c.redis.records && c.redis.records[k].auction == a
              && 0 <= i < |Hist(c, a).stack| && Hist(c, a).log[Hist(c, a).stack[i]].bidId == c.redis.records[k].bidId
              ==> c.redis.records[k].previous == Some(Below(Hist(c, a), i, c.db.auctions[a].startPrice))
  {
    ReachableHolds(c);
    assert AuctionInv(c, a);
    var h, start := Hist(c, a), c.db.auctions[a].startPrice;
    forall k, i | k in c.redis.records && c.redis.records[k].auction == a
              && 0 <= i < |h.stack| && h.log[h.stack[i]].bidId == c.redis.records[k].bidId
      ensures c.redis.records[k].previous == Some(Below(h, i, start))
    {
      assert LinkOk(h, c.redis.records[k], start);
    }
  }

  lemma StackBelowPrice(c: Core, a: string)
    requires Inv(c) && Good(c.db.auctions, a) && a in c.redis.hashes
    ensures StackOk(Hist(c, a), c.db.auctions[a].startPrice, c.db.auctions[a].minIncrement)
    ensures forall i :: 0 <= i < |Hist(c, a).stack| ==> Amount(Hist(c, a), i) <= c.redis.hashes[a].price
  {
    var h := Hist(c, a);
    assert AuctionInv(c, a);
    assert h.stack != [] ==> Amount(h, |h.stack| - 1) == c.redis.hashes[a].price;
  }

  /** A record that is not rejected is of a bid on the stack. */
  lemma RecordBelowPrice(c: Core, a: string, k: IdemKey)
    requires Inv(c) && Good(c.db.auctions, a) && a in c.redis.hashes
    requires k in c.redis.records && c.redis.records[k].auction == a && c.redis.records[k].status != Rejected
    ensures c.redis.records[k].amount <= c.redis.hashes[a].price
  {
    var h, rec := Hist(c, a), c.redis.records[k];
    assert AuctionInv(c, a);
    assert LinkOk(h, rec, c.db.auctions[a].startPrice);
    assert RecordOk(c.runs, k, rec);
    assert RunOk(c.now, c.db, h, rec.bidId, c.runs[rec.bidId]);
    var i :| 0 <= i < |h.stack| && h.stack[i] < |h.log| && h.log[h.stack[i]].bidId == rec.bidId;
    assert EntryOk(c.runs, a, h.log[h.stack[i]]);
    StackBelowPrice(c, a);
    assert Amount(h, i) == rec.amount;
  }

  /** The hash's price is never below the database's, nor below any bid on the stack: none whose run goes on
      or was accepted, and none whose record still says processing, as when its prepare's reply was lost. */
  lemma RedisPriceDominates(c: Core, a: string)
    requires Reachable(c) && Good(c.db.auctions, a) && a in c.redis.hashes
    ensures StackOk(Hist(c, a), c.db.auctions[a].startPrice, c.db.auctions[a].minIncrement)
    ensures forall i :: 0 <= i < |Hist(c, a).stack| ==> Amount(Hist(c, a), i) <= c.redis.hashes[a].price
    ensures forall k :: k in c.redis.records && c.redis.records[k].auction == a
                        && c.redis.records[k].status != Rejected ==>
              c.redis.records[k].amount <= c.redis.hashes[a].price
    ensures c.db.auctions[a].currentPrice <= c.redis.hashes[a].price
    ensures forall p :: p in c.runs && c.runs[p].auction == a && Live(p, c.runs[p].pc) ==>
              c.runs[p].amount <= c.redis.hashes[a].price
  {
    ReachableHolds(c);
    TopDominates(c, a);
    assert AuctionInv(c, a);
    forall p | p in c.runs && c.runs[p].auction == a && Live(p, c.runs[p].pc)
      ensures c.runs[p].amount <= c.redis.hashes[a].price
    {
      TopDominatesLive(c, a, p);
    }
    StackBelowPrice(c, a);
    forall k | k in c.redis.records && c.redis.records[k].auction == a && c.redis.records[k].status != Rejected
      ensures c.redis.records[k].amount <= c.redis.hashes[a].price
    {
      RecordBelowPrice(c, a, k);
    }
  }

  /** So a run's snapshot, however stale, never overrides an existing hash. */
  lemma SnapshotNeverOverrides(c: Core, p: BidId, composedAt: nat)
    requires Reachable(c) && p in c.runs && c.runs[p].pc.Checked?
    requires Good(c.db.auctions, c.runs[p].auction) && c.runs[p].auction in c.redis.hashes
    ensures CurrentPrice(c.redis, PrepareOf(c, p, composedAt)) == c.redis.hashes[c.runs[p].auction].price
  {
    ReachableHolds(c);
    assert RunOk(c.now, c.db, Hist(c, c.runs[p].auction), p, c.runs[p]);
    RedisPriceDominates(c, c.runs[p].auction);
  }

  /** A prepare that runs in time lets a bid through exactly when its key is new and it beats what the
      stack's top shows by the increment; equality is enough.  Its reply tells a repeated key what the record
      holds, and a new one what was required. */
  lemma PrepareAllowsExactly(c: Core, p: BidId, net: Net, composedAt: nat)
    requires Reachable(c) && Enabled(c, Prepare(p, net, composedAt)) && Good(c.db.auctions, c.runs[p].auction)
    ensures var r := c.runs[p]; var k := IdemKey(r.user, r.request);
            var h := Hist(c, r.auction); var a := c.db.auctions[r.auction];
            var reply := PrepareScript(c.redis, PrepareOf(c, p, composedAt), Ms(c.now)).1;
            && StackOk(h, a.startPrice, a.minIncrement)
            && (reply.allowed
                <==> k !in c.redis.records && Below(h, |h.stack|, a.startPrice).price + a.minIncrement <= r.amount)
            && (reply.duplicate <==> k in c.redis.records)
            && (reply.duplicate ==>
                  && reply.status == c.redis.records[k].status && reply.bidId == c.redis.records[k].bidId
                  && reply.amount == c.redis.records[k].amount)
            && (!reply.duplicate ==>
                  && reply.status == (if reply.allowed then Processing else Rejected)
                  && reply.bidId == p && reply.amount == r.amount
                  && reply.required == Below(h, |h.stack|, a.startPrice).price + a.minIncrement)
  {
    ReachableHolds(c);
    PrepareSeesTop(c, p, composedAt);
    assert RunOk(c.now, c.db, Hist(c, c.runs[p].auction), p, c.runs[p]);
  }

  /** A rejection whose record and hash are still there pops the stack exactly when its bid is on top, and
      then the hash shows what lay below it. */
  lemma RejectPopsExactlyTop(c: Core, p: BidId, composedAt: nat)
    requires Reachable(c) && Enabled(c, Complete(p, true, composedAt)) && !c.runs[p].pc.accepted
    requires Good(c.db.auctions, c.runs[p].auction) && c.runs[p].auction in c.redis.hashes
    requires KeyOf(c.runs[p]) in c.redis.records && c.redis.records[KeyOf(c.runs[p])].bidId == p
    ensures var r := c.runs[p]; var h := Hist(c, r.auction); var start := c.db.auctions[r.auction].startPrice;
            var d := Step(c, Complete(p, true, composedAt));
            StackOk(h, start, c.db.auctions[r.auction].minIncrement) &&
            (if h.stack != [] && h.log[h.stack[|h.stack| - 1]].bidId == p
             then Hist(d, r.auction) == Pop(h) && Shown(d.redis, r.auction, 0) == Below(h, |h.stack| - 1, start)
             else Hist(d, r.auction) == h && Shown(d.redis, r.auction, 0) == Below(h, |h.stack|, start))
  {
    ReachableHolds(c);
    HashIsTopOfStack(c, c.runs[p].auction);
    if Pops(c.redis, CompleteOf(c, p, composedAt)) {
      PopShowsBelow(c, p, composedAt);
    } else {
      BuriedRejectLeavesHash(c.redis, CompleteOf(c, p, composedAt), Ms(c.now), c.runs[p].auction);
    }
  }

  /** Once a bid has gone through, the hash is there at least until a day after the end, and so as
      long as any run can still pass its end-time check. */
  lemma HashOutlivesAuction(c: Core, a: string)
    requires Reachable(c) && Good(c.db.auctions, a) && Hist(c, a).log != []
    ensures Ms(c.now) <= Horizon(c.db.auctions[a].endsAt) ==> a in c.redis.hashes
    ensures c.now <= c.db.auctions[a].endsAt ==> a in c.redis.hashes
  {
    ReachableHolds(c);
    assert AuctionInv(c, a);
  }

  /** Rejections out of order leave a dead bid on display: for any two bids let through one after the
      other, rejecting the lower and then the upper makes the hash show the rejected lower one. */
  lemma OutOfOrderRejectsShowDeadBid(r: Redis, x: PrepareCommand, y: PrepareCommand, ttl: int, nowMs: int)
    requires x.auction == y.auction && x.bidId != y.bidId
    requires PrepareScript(r, x, nowMs).1.allowed
    requires PrepareScript(PrepareScript(r, x, nowMs).0, y, nowMs).1.allowed
    requires y.dbCurrent <= x.amount
    ensures var both := PrepareScript(PrepareScript(r, x, nowMs).0, y, nowMs).0;
            var lower := CompleteScript(both, Rejection(x, ttl), nowMs).0;
            var upper := CompleteScript(lower, Rejection(y, ttl), nowMs).0;
            && Shown(upper, x.auction, 0) == Previous(x.amount, Some(x.bidId), x.key.user)
            && upper.records[x.key].status == Rejected
  {
  }

  /** The bid the hash's price comes from: none while the stack is empty, else its top. */
  predicate TopIsLive(c: Core, h: History) {
    h.stack == [] ||
    var s := h.stack[|h.stack| - 1];
    s < |h.log| && h.log[s].bidId in c.runs && Live(h.log[s].bidId, c.runs[h.log[s].bidId].pc)
  }

  /** The run's bid is neither rejected nor abandoned and is what the price says. */
  predicate ExplainsPrice(c: Core, p: BidId, a: string, price: int) {
    p in c.runs && c.runs[p].auction == a && Live(p, c.runs[p].pc) && c.runs[p].amount == price
  }

  /** With a positive increment only the top's own run can explain what the top shows. */
  lemma OnlyTopExplains(c: Core, a: string, p: BidId)
    requires Inv(c) && Good(c.db.auctions, a) && 0 < c.db.auctions[a].minIncrement && Hist(c, a).stack != []
    requires StackOk(Hist(c, a), c.db.auctions[a].startPrice, c.db.auctions[a].minIncrement)
    requires ExplainsPrice(c, p, a, Amount(Hist(c, a), |Hist(c, a).stack| - 1))
    ensures p == Hist(c, a).log[Hist(c, a).stack[|Hist(c, a).stack| - 1]].bidId
  {
    var h := Hist(c, a);
    assert RunOk(c.now, c.db, h, p, c.runs[p]);
    var i :| 0 <= i < |h.stack| && h.stack[i] < |h.log| && h.log[h.stack[i]].bidId == p;
    assert EntryOk(c.runs, a, h.log[h.stack[i]]);
    assert Amount(h, i) == c.runs[p].amount;
  }

  /** The top, when it is live, explains what it shows. */
  lemma LiveTopExplains(c: Core, a: string)
    requires Inv(c) && Hist(c, a).stack != [] && TopIsLive(c, Hist(c, a))
    ensures var h := Hist(c, a); var top := h.stack[|h.stack| - 1];
            top < |h.log| && ExplainsPrice(c, h.log[top].bidId, a, h.log[top].amount)
  {
    var h := Hist(c, a);
    LogOfHist(c, a);
    assert EntryOk(c.runs, a, h.log[h.stack[|h.stack| - 1]]);
  }

  /** With a positive increment the hash's price is the start price or that of a bid neither rejected nor
      abandoned if and only if the stack is empty or its top is such a bid. */
  lemma HashShowsLiveExactly(c: Core, a: string)
    requires Reachable(c) && Good(c.db.auctions, a) && 0 < c.db.auctions[a].minIncrement && a in c.redis.hashes
    ensures var price := c.redis.hashes[a].price;
            price == c.db.auctions[a].startPrice || (exists p :: ExplainsPrice(c, p, a, price))
            <==> TopIsLive(c, Hist(c, a))
  {
    ReachableHolds(c);
    assert AuctionInv(c, a);
    var h, price := Hist(c, a), c.redis.hashes[a].price;
    if h.stack != [] {
      assert c.db.auctions[a].startPrice < Amount(h, |h.stack| - 1) == price;
      if TopIsLive(c, h) { LiveTopExplains(c, a); }
      forall p | ExplainsPrice(c, p, a, price)
        ensures p == h.log[h.stack[|h.stack| - 1]].bidId
      {
        OnlyTopExplains(c, a, p);
      }
    }
  }

  // ----- the database price -------------------------------------------------------------------------------

  /** The price is the start price or the highest accepted bid, whatever the order of the commits. */
  lemma DbPriceIsHighest(c: Core, a: string, top: Option<BidRow>)
    requires Reachable(c) && a in c.db.auctions
    ensures c.db.auctions[a].currentPrice == MaxPrice(c.db.bids, a, c.db.auctions[a].startPrice)
    ensures Good(c.db.auctions, a) && IsHighest(c.db.bids, a, top) && top.Some? ==>
              top.value.amount == c.db.auctions[a].currentPrice
  {
    ReachableHolds(c);
    assert AuctionInv(c, a);
    var start := c.db.auctions[a].startPrice;
    if Good(c.db.auctions, a) && IsHighest(c.db.bids, a, top) && top.Some? {
      MaxPriceIsLeastBound(c.db.bids, a, start);
      var i :| 0 <= i < |c.db.bids| && c.db.bids[i] == top.value;
      BidIsOnStack(c, i);
      var h := Hist(c, a);
      var s :| 0 <= s < |h.stack| && h.stack[s] < |h.log| && h.log[h.stack[s]].amount == top.value.amount;
      assert start + c.db.auctions[a].minIncrement <= Amount(h, s);
    }
  }

  /** Prices, phases, auctions and bid rows only ever go one way. */
  ghost predicate Advances(c: Core, d: Core) {
    && c.db.bids <= d.db.bids
    && forall a :: a in c.db.auctions ==>
         && a in d.db.auctions
         && c.db.auctions[a].currentPrice <= d.db.auctions[a].currentPrice
         && d.db.auctions[a]
            == c.db.auctions[a].(currentPrice := d.db.auctions[a].currentPrice, phase := d.db.auctions[a].phase)
         && (c.db.auctions[a].phase.Active? ==> !d.db.auctions[a].phase.Pending?)
         && (c.db.auctions[a].phase.Ended? ==> d.db.auctions[a].phase.Ended?)
  }

  lemma StepAdvances(c: Core, e: Event)
    requires Enabled(c, e)
    ensures Advances(c, Step(c, e))
  {
  }

  /** Over any run: rows are only appended, the price never falls, the phase only moves forward and
      everything else about an auction stays as created. */
  lemma {:induction false} RunAdvances(c: Core, events: seq<Event>, d: Core)
    requires Leads(c, events, d)
    ensures Advances(c, d)
    decreases |events|
  {
    if events != [] {
      StepAdvances(c, events[0]);
      RunAdvances(Step(c, events[0]), events[1..], d);
    }
  }

  // ----- idempotency --------------------------------------------------------------------------------------

  /** An "accepted" reply, first or repeated, names a committed bid of the same user. */
  lemma AcceptedReplyHasBid(c: Core, p: BidId)
    requires Reachable(c) && p in c.runs && c.runs[p].pc.Finished? && c.runs[p].pc.reply.Taken?
    ensures exists i :: 0 <= i < |c.db.bids| && c.db.bids[i].id == c.runs[p].pc.reply.bidId
                        && c.db.bids[i].user == c.runs[p].user
  {
    ReachableHolds(c);
    assert RunOk(c.now, c.db, Hist(c, c.runs[p].auction), p, c.runs[p]);
  }

  /** A record whose bid is in the database never says rejected; one that says accepted has its bid there. */
  lemma RecordAgreesWithBids(c: Core, k: IdemKey)
    requires Reachable(c) && k in c.redis.records
    ensures HasBid(c.db.bids, c.redis.records[k].bidId) ==> c.redis.records[k].status != Rejected
    ensures c.redis.records[k].status == Accepted ==> HasBid(c.db.bids, c.redis.records[k].bidId)
  {
    ReachableHolds(c);
    var p := c.redis.records[k].bidId;
    assert RecordOk(c.runs, k, c.redis.records[k]);
    assert RunOk(c.now, c.db, Hist(c, c.runs[p].auction), p, c.runs[p]);
    RowsAreCommitted(c, p);
  }

  /** A record is dropped when, and only when, a full day has passed since it was last written. */
  lemma RecordLivesADay(c: Core, e: Event, k: IdemKey)
    requires Enabled(c, e)
    ensures k in c.redis.records ==>
              (k !in Step(c, e).redis.records
               <==> e.Tick? && c.redis.records[k].expiresAt < Ms(c.now + e.elapsed))
    ensures (k in Step(c, e).redis.records
             && (k in c.redis.records ==> Step(c, e).redis.records[k] != c.redis.records[k])) ==>
              Step(c, e).redis.records[k].expiresAt == Ms(c.now) + 86_400_000
  {
    match e
    case Prepare(_, _, _) => PrepareWritesForADay(c, e, k);
    case Complete(_, _, _) => CompleteWritesForADay(c, e, k);
    case Commit(_, _) =>
    case Check(_) =>
    case _ =>
  }

  lemma PrepareWritesForADay(c: Core, e: Event, k: IdemKey)
    requires Enabled(c, e) && e.Prepare?
    ensures k in c.redis.records ==> k in Step(c, e).redis.records && Step(c, e).redis.records[k] == c.redis.records[k]
    ensures k in Step(c, e).redis.records && k !in c.redis.records ==>
              Step(c, e).redis.records[k].expiresAt == Ms(c.now) + 86_400_000
  {
  }

  lemma CompleteWritesForADay(c: Core, e: Event, k: IdemKey)
    requires Enabled(c, e) && e.Complete?
    ensures k in c.redis.records <==> k in Step(c, e).redis.records
    ensures (k in c.redis.records && Step(c, e).redis.records[k] != c.redis.records[k]) ==>
              Step(c, e).redis.records[k].expiresAt == Ms(c.now) + 86_400_000
  {
  }

  /** The prepare of a new key, or a completion that finds its own record and a hash. */
  predicate Refreshes(c: Core, e: Event, a: string) {
    match e
    case Prepare(p, net, _) =>
      p in c.runs && c.runs[p].auction == a && net != NotDelivered
      && IdemKey(c.runs[p].user, c.runs[p].request) !in c.redis.records
    case Complete(p, ran, _) =>
      p in c.runs && c.runs[p].auction == a && ran && a in c.redis.hashes
      && var k := IdemKey(c.runs[p].user, c.runs[p].request);
         k in c.redis.records && c.redis.records[k].bidId == p
    case _ => false
  }

  /** The hash now lasts a day, and to the horizon of the run's auction. */
  ghost predicate Renewed(c: Core, e: Event, a: string)
    requires Enabled(c, e) && Refreshes(c, e, a)
  {
    && a in Step(c, e).redis.hashes
    && Ms(c.now) + 86_400_000 <= Step(c, e).redis.hashes[a].expiresAt
    && Horizon(c.runs[e.run].row.endsAt) <= Step(c, e).redis.hashes[a].expiresAt
  }

  ghost predicate SameHash(c: Core, e: Event, a: string)
    requires Enabled(c, e)
  {
    a in Step(c, e).redis.hashes ==> a in c.redis.hashes && Step(c, e).redis.hashes[a] == c.redis.hashes[a]
  }

  /** An auction's hash is dropped when, and only when, its expiry has passed; every write of it renews it for a
      day and to the horizon, and nothing else touches it. */
  lemma HashIsRenewed(c: Core, e: Event, a: string)
    requires Enabled(c, e)
    ensures a in c.redis.hashes ==>
              (a !in Step(c, e).redis.hashes <==> e.Tick? && c.redis.hashes[a].expiresAt < Ms(c.now + e.elapsed))
    ensures if Refreshes(c, e, a) then Renewed(c, e, a) else SameHash(c, e, a)
  {
    match e
    case Prepare(_, _, _) => PrepareRenews(c, e, a);
    case Complete(_, _, _) => CompleteRenews(c, e, a);
    case Commit(_, _) =>
    case Check(_) =>
    case _ =>
  }

  lemma PrepareRenews(c: Core, e: Event, a: string)
    requires Enabled(c, e) && e.Prepare?
    ensures a in c.redis.hashes ==> a in Step(c, e).redis.hashes
    ensures if Refreshes(c, e, a) then Renewed(c, e, a) else SameHash(c, e, a)
  {
    RefreshReachesHorizon(c.runs[e.run].row.endsAt, e.composedAt, c.now);
  }

  lemma CompleteRenews(c: Core, e: Event, a: string)
    requires Enabled(c, e) && e.Complete?
    ensures a in c.redis.hashes <==> a in Step(c, e).redis.hashes
    ensures if Refreshes(c, e, a) then Renewed(c, e, a) else SameHash(c, e, a)
  {
    RefreshReachesHorizon(c.runs[e.run].row.endsAt, e.composedAt, c.now);
  }

  /** The key's record, once written, is never dropped during the run. */
  ghost predicate Lasts(c: Core, events: seq<Event>, k: IdemKey)
    decreases |events|
  {
    events != [] && Enabled(c, events[0]) ==>
      var d := Step(c, events[0]);
      (k in c.redis.records ==> k in d.redis.records) && Lasts(d, events[1..], k)
  }

  /** Let through by the prepare script, with the reply received. */
  predicate Through(p: BidId, pc: Pc) {
    pc.Prepared? || pc.Validated? || pc.Reserved? || pc.Completing? || pc.Releasing? || pc == Finished(Taken(p))
  }

  /** Only the run the record names has got through with this key. */
  ghost predicate Owned(c: Core, k: IdemKey) {
    forall p :: p in c.runs && KeyOf(c.runs[p]) == k && Through(p, c.runs[p].pc)
                ==> k in c.redis.records && c.redis.records[k].bidId == p
  }

  lemma StepKeepsOwned(c: Core, e: Event, k: IdemKey)
    requires Inv(c) && Enabled(c, e) && Owned(c, k)
    requires k in c.redis.records ==> k in Step(c, e).redis.records
    ensures Owned(Step(c, e), k)
  {
    match e
    case Prepare(p, net, t) => PrepareKeepsOwned(c, p, net, t, k);
    case Complete(p, ran, t) => CompleteKeepsOwned(c, p, ran, t, k);
    case Commit(p, ok) => CommitKeepsOwned(c, p, ok, k);
    case Tick(_) => TickKeepsOwned(c, e, k);
    case _ => LocalKeepsOwned(c, e, k);
  }

  lemma LocalKeepsOwned(c: Core, e: Event, k: IdemKey)
    requires Enabled(c, e) && Owned(c, k)
    requires !e.Prepare? && !e.Complete? && !e.Commit? && !e.Tick?
    ensures Owned(Step(c, e), k)
  {
    match e
    case Check(p) => MoveKeepsOwned(c, p, CheckStep(c, p).runs[p].pc, k);
    case Validate(p, answer) => MoveKeepsOwned(c, p, AfterAnswer(answer, Validated), k);
    case Reserve(p, answer) => MoveKeepsOwned(c, p, AfterAnswer(answer, Reserved), k);
    case Release(p) => MoveKeepsOwned(c, p, Finished(Failed), k);
    case _ =>
  }

  lemma MoveKeepsOwned(c: Core, p: BidId, pc: Pc, k: IdemKey)
    requires p in c.runs && Owned(c, k)
    requires Through(p, pc) ==> Through(p, c.runs[p].pc)
    ensures Owned(Move(c, p, pc), k)
  {
  }

  lemma TickKeepsOwned(c: Core, e: Event, k: IdemKey)
    requires e.Tick? && Owned(c, k)
    requires k in c.redis.records ==> k in Step(c, e).redis.records
    ensures Owned(Step(c, e), k)
  {
  }

  lemma CommitKeepsOwned(c: Core, p: BidId, ok: bool, k: IdemKey)
    requires Enabled(c, Commit(p, ok)) && Owned(c, k)
    ensures Owned(Step(c, Commit(p, ok)), k)
  {
  }

  lemma CompleteKeepsOwned(c: Core, p: BidId, ran: bool, t: nat, k: IdemKey)
    requires Enabled(c, Complete(p, ran, t)) && Owned(c, k)
    ensures Owned(Step(c, Complete(p, ran, t)), k)
  {
  }

  lemma PrepareKeepsOwned(c: Core, p: BidId, net: Net, t: nat, k: IdemKey)
    requires Inv(c) && Enabled(c, Prepare(p, net, t)) && Owned(c, k)
    ensures Owned(Step(c, Prepare(p, net, t)), k)
  {
    var mine := KeyOf(c.runs[p]);
    if net == NotDelivered {
      MoveKeepsOwned(c, p, Finished(Failed), k);
    } else if mine in c.redis.records {
      assert RecordOk(c.runs, mine, c.redis.records[mine]);
      RepeatKeepsOwned(c, p, net, t, k);
    } else {
      FirstPrepareKeepsOwned(c, p, net, t, k);
    }
  }

  lemma RepeatKeepsOwned(c: Core, p: BidId, net: Net, t: nat, k: IdemKey)
    requires Enabled(c, Prepare(p, net, t)) && Owned(c, k) && net != NotDelivered
    requires KeyOf(c.runs[p]) in c.redis.records && c.redis.records[KeyOf(c.runs[p])].bidId != p
    ensures Owned(Step(c, Prepare(p, net, t)), k)
  {
    var rec := c.redis.records[KeyOf(c.runs[p])];
    RetryChangesNothing(c, p, net, t);
    MoveKeepsOwned(c, p, AfterPrepare(PrepareReply(false, rec.status, rec.bidId, rec.amount, 0, true), net), k);
  }

  lemma FirstPrepareKeepsOwned(c: Core, p: BidId, net: Net, t: nat, k: IdemKey)
    requires Enabled(c, Prepare(p, net, t)) && Owned(c, k) && KeyOf(c.runs[p]) !in c.redis.records
    ensures Owned(Step(c, Prepare(p, net, t)), k)
  {
  }

  lemma {:induction false} RunKeepsOwned(c: Core, events: seq<Event>, d: Core, k: IdemKey)
    requires Inv(c) && Owned(c, k) && Leads(c, events, d) && Lasts(c, events, k)
    ensures Owned(d, k)
    decreases |events|
  {
    if events != [] {
      StepKeepsOwned(c, events[0], k);
      StepKeeps(c, events[0]);
      RunKeepsOwned(Step(c, events[0]), events[1..], d, k);
    }
  }

  /** While its record lasts, a user's idempotency key yields at most one bid row, however many
      retries run at once, and the record is that bid's. */
  lemma OneBidPerKey(events: seq<Event>, d: Core, k: IdemKey, i: nat, j: nat)
    requires Leads(INITIAL, events, d) && Lasts(INITIAL, events, k)
    requires i < |d.db.bids| && j < |d.db.bids|
    requires var p := d.db.bids[i].id; p in d.runs && d.runs[p].user == k.user && d.runs[p].request == k.request
    requires var q := d.db.bids[j].id; q in d.runs && d.runs[q].user == k.user && d.runs[q].request == k.request
    ensures i == j
    ensures k in d.redis.records && d.redis.records[k].bidId == d.db.bids[i].id
  {
    InitHolds();
    RunKeeps(INITIAL, events, d);
    RunKeepsOwned(INITIAL, events, d, k);
    RowsAreCommitted(d, d.db.bids[i].id);
    RowsAreCommitted(d, d.db.bids[j].id);
    assert HasBid(d.db.bids, d.db.bids[i].id) && HasBid(d.db.bids, d.db.bids[j].id);
  }
}
