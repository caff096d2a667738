/**
 What every step of the bid protocol keeps, and so what holds in every reachable state.
 The price facts are claimed for auctions whose increment is not negative.
 */
module BidInvariant {
  import opened Options
  import opened Numbers
  import opened RedisBids
  import opened BidTables
  import opened BidProtocol

  // ----- the stack of prepared bids ------------------------------------------------------------

  function Amount(h: History, i: nat): int
    requires i < |h.stack| && h.stack[i] < |h.log|
  {
    h.log[h.stack[i]].amount
  }

  ghost predicate StackOk(h: History, start: int, increment: int) {
    && (forall i :: 0 <= i < |h.stack| ==> h.stack[i] < |h.log|)
    && (forall i, j :: 0 <= i < j < |h.stack| ==> h.stack[i] < h.stack[j])
    && (forall i :: 0 <= i < |h.stack| ==> start + increment <= Amount(h, i))
    && (forall i, j :: 0 <= i < j < |h.stack| ==> Amount(h, i) + increment <= Amount(h, j))
  }

  /** What the auction hash shows when the stack holds its first `n` bids. */
  function Below(h: History, n: nat, start: int): Previous
    requires n <= |h.stack| && forall i :: 0 <= i < |h.stack| ==> h.stack[i] < |h.log|
  {
    if n == 0 then Previous(start, None, "")
    else
      var e := h.log[h.stack[n - 1]];
      Previous(e.amount, Some(e.bidId), e.user)
  }

  ghost predicate OnStack(h: History, p: BidId) {
    exists i :: 0 <= i < |h.stack| && h.stack[i] < |h.log| && h.log[h.stack[i]].bidId == p
  }

  /** The hash shows the top of the stack, and will be there until the horizon. */
  ghost predicate HashOk(hash: AuctionHash, h: History, a: Auction)
    requires forall i :: 0 <= i < |h.stack| ==> h.stack[i] < |h.log|
  {
    && Previous(hash.price, hash.bidId, hash.user) == Below(h, |h.stack|, a.startPrice)
    && hash.minIncrement == a.minIncrement
    && Horizon(a.endsAt) <= hash.expiresAt
  }

  ghost predicate CacheOk(now: nat, hashes: map<string, AuctionHash>, name: string, h: History, a: Auction)
    requires forall i :: 0 <= i < |h.stack| ==> h.stack[i] < |h.log|
  {
    if name in hashes then HashOk(hashes[name], h, a)
    else h.log == [] || Horizon(a.endsAt) < Ms(now)
  }

  // ----- the parts of the invariant --------------------------------------------------------------

  ghost predicate EntryOk(runs: map<BidId, Run>, name: string, e: Entry) {
    && e.bidId in runs
    && runs[e.bidId].auction == name && runs[e.bidId].user == e.user && runs[e.bidId].amount == e.amount
    && PastPrepare(runs[e.bidId].pc)
  }

  ghost predicate LogOk(runs: map<BidId, Run>, name: string, h: History) {
    && (forall i :: 0 <= i < |h.log| ==> EntryOk(runs, name, h.log[i]))
    && (forall i, j :: 0 <= i < j < |h.log| ==> h.log[i].bidId != h.log[j].bidId)
  }

  predicate Good(auctions: map<string, Auction>, name: string) {
    name in auctions && 0 <= auctions[name].minIncrement
  }

  ghost predicate AuctionOk(
      now: nat, hashes: map<string, AuctionHash>, bids: seq<BidRow>, name: string, a: Auction, h: History)
  {
    && a.currentPrice == MaxPrice(bids, name, a.startPrice)
    && (0 <= a.minIncrement ==>
          && StackOk(h, a.startPrice, a.minIncrement)
          && CacheOk(now, hashes, name, h, a))
  }

  predicate HasRow(pc: Pc) {
    !pc.Started? && !pc.Finished?
  }

  /** The snapshot a run works from agrees with its auction, whose price has not fallen since. */
  predicate SnapshotOk(auctions: map<string, Auction>, r: Run) {
    && r.auction in auctions
    && var a := auctions[r.auction];
       r.row.startPrice == a.startPrice && r.row.minIncrement == a.minIncrement && r.row.endsAt == a.endsAt
       && a.startPrice <= r.row.currentPrice <= a.currentPrice
  }

  ghost predicate ReplyOk(bids: seq<BidRow>, reply: Reply, r: Run) {
    reply.Taken? ==> exists i :: 0 <= i < |bids| && bids[i].id == reply.bidId && bids[i].user == r.user
  }

  ghost predicate RunOk(now: nat, db: Tables, h: History, p: BidId, r: Run) {
    && (HasRow(r.pc) ==> SnapshotOk(db.auctions, r))
    && (r.pc.Checked? ==> r.pc.at <= now && r.pc.at <= r.row.endsAt)
    && (Committed(p, r.pc) ==> HasBid(db.bids, p) && r.auction in db.auctions)
    && (r.pc.Finished? ==> ReplyOk(db.bids, r.pc.reply, r))
    && (Live(p, r.pc) && Good(db.auctions, r.auction) ==> OnStack(h, p))
  }

  ghost predicate BidOk(auctions: map<string, Auction>, runs: map<BidId, Run>, b: BidRow) {
    && b.auction in auctions
    && b.id in runs && Committed(b.id, runs[b.id].pc)
    && runs[b.id].auction == b.auction && runs[b.id].user == b.user && runs[b.id].amount == b.amount
  }

  ghost predicate BidsOk(c: Core) {
    && (forall i :: 0 <= i < |c.db.bids| ==> BidOk(c.db.auctions, c.runs, c.db.bids[i]))
    && (forall i, j :: 0 <= i < j < |c.db.bids| ==> c.db.bids[i].id != c.db.bids[j].id)
  }

  /** A bid on the stack remembers what is below it, and one still being processed is on the stack. */
  ghost predicate LinkOk(h: History, rec: IdemRecord, start: int)
    requires forall i :: 0 <= i < |h.stack| ==> h.stack[i] < |h.log|
  {
    && (forall i :: 0 <= i < |h.stack| && h.log[h.stack[i]].bidId == rec.bidId ==>
          rec.previous == Some(Below(h, i, start)))
    && (rec.status == Processing ==> OnStack(h, rec.bidId))
  }

  ghost predicate RecordOk(runs: map<BidId, Run>, k: IdemKey, rec: IdemRecord) {
    && rec.bidId in runs
    && var r := runs[rec.bidId];
       && KeyOf(r) == k && r.auction == rec.auction && r.amount == rec.amount && r.user == rec.user
       && PastPrepare(r.pc)
       && (rec.status == Rejected ==> !Live(rec.bidId, r.pc))
       && (rec.status == Accepted ==> r.pc == Finished(Taken(rec.bidId)))
  }

  ghost predicate RecordsOk(c: Core) {
    forall k :: k in c.redis.records ==> RecordOk(c.runs, k, c.redis.records[k])
  }

  ghost predicate LinksOk(records: map<IdemKey, IdemRecord>, name: string, start: int, h: History)
    requires forall i :: 0 <= i < |h.stack| ==> h.stack[i] < |h.log|
  {
    forall k :: k in records && records[k].auction == name ==> LinkOk(h, records[k], start)
  }

  ghost predicate Known(c: Core) {
    && (forall a :: a in c.hist ==> a in c.db.auctions)
    && (forall a :: a in c.redis.hashes ==> a in c.db.auctions)
    && (forall k :: k in c.redis.records ==> c.redis.records[k].auction in c.db.auctions)
  }

  ghost predicate AuctionInv(c: Core, name: string)
    requires name in c.db.auctions
  {
    var a := c.db.auctions[name];
    && AuctionOk(c.now, c.redis.hashes, c.db.bids, name, a, Hist(c, name))
    && (0 <= a.minIncrement ==> LinksOk(c.redis.records, name, a.startPrice, Hist(c, name)))
  }

  ghost predicate Inv(c: Core) {
    && Known(c)
    && (forall a :: a in c.hist ==> LogOk(c.runs, a, c.hist[a]))
    && (forall a :: a in c.db.auctions ==> AuctionInv(c, a))
    && (forall p :: p in c.runs ==> RunOk(c.now, c.db, Hist(c, c.runs[p].auction), p, c.runs[p]))
    && BidsOk(c)
    && RecordsOk(c)
  }

  // ----- steps that only move a run on -------------------------------------------------------------

  lemma OneRunKeeps(c: Core, next: map<BidId, Run>, p: BidId)
    requires Inv(c) && Onward(c.runs, next, p)
    requires Live(p, next[p].pc) ==> Live(p, c.runs[p].pc)
    requires !c.runs[p].pc.Finished?
    requires RunOk(c.now, c.db, Hist(c, next[p].auction), p, next[p])
    ensures Inv(c.(runs := next))
  {
    var d := c.(runs := next);
    forall a | a in d.hist
      ensures LogOk(d.runs, a, d.hist[a])
    {
      LogFollows(c.runs, d.runs, a, c.hist[a], p);
    }
    forall a | a in d.db.auctions
      ensures AuctionInv(d, a)
    {
      assert AuctionInv(c, a);
    }
    BidsFollow(c.db, c.runs, d.runs, p);
    forall k | k in d.redis.records
      ensures RecordOk(d.runs, k, d.redis.records[k])
    {
      assert RecordOk(c.runs, k, c.redis.records[k]);
    }
  }

  lemma MoveKeeps(c: Core, p: BidId, pc: Pc)
    requires Inv(c) && p in c.runs && !c.runs[p].pc.Finished?
    requires PastPrepare(c.runs[p].pc) ==> PastPrepare(pc)
    requires Committed(p, c.runs[p].pc) ==> Committed(p, pc)
    requires Live(p, pc) ==> Live(p, c.runs[p].pc)
    requires RunOk(c.now, c.db, Hist(c, c.runs[p].auction), p, c.runs[p].(pc := pc))
    ensures Inv(Move(c, p, pc))
  {
    OneRunKeeps(c, Move(c, p, pc).runs, p);
  }

  /** `p` alone has moved, and not backwards. */
  ghost predicate Onward(runs: map<BidId, Run>, next: map<BidId, Run>, p: BidId) {
    && p in runs && p in next && next == runs[p := next[p]]
    && next[p] == runs[p].(row := next[p].row, pc := next[p].pc)
    && (PastPrepare(runs[p].pc) ==> PastPrepare(next[p].pc))
    && (Committed(p, runs[p].pc) ==> Committed(p, next[p].pc))
  }

  lemma LogFollows(runs: map<BidId, Run>, next: map<BidId, Run>, name: string, h: History, p: BidId)
    requires LogOk(runs, name, h) && Onward(runs, next, p)
    ensures LogOk(next, name, h)
  {
    forall i | 0 <= i < |h.log|
      ensures EntryOk(next, name, h.log[i])
    {
      assert EntryOk(runs, name, h.log[i]);
    }
  }

  lemma BidsFollow(db: Tables, runs: map<BidId, Run>, next: map<BidId, Run>, p: BidId)
    requires forall i :: 0 <= i < |db.bids| ==> BidOk(db.auctions, runs, db.bids[i])
    requires Onward(runs, next, p)
    ensures forall i :: 0 <= i < |db.bids| ==> BidOk(db.auctions, next, db.bids[i])
  {
    forall i | 0 <= i < |db.bids|
      ensures BidOk(db.auctions, next, db.bids[i])
    {
      assert BidOk(db.auctions, runs, db.bids[i]);
    }
  }

  lemma TickKeeps(c: Core, elapsed: nat)
    requires Inv(c)
    ensures Inv(Step(c, Tick(elapsed)))
  {
    var d := Step(c, Tick(elapsed));
    forall a | a in d.db.auctions
      ensures AuctionInv(d, a)
    {
      assert AuctionInv(c, a);
    }
  }

  lemma CreateKeeps(c: Core, e: Event)
    requires Inv(c) && e.CreateAuction?
    ensures Inv(Step(c, e))
  {
    var d := Step(c, e);
    if e.auction !in c.db.auctions {
      assert Hist(c, e.auction) == History([], []);
      forall i | 0 <= i < |c.db.bids|
        ensures c.db.bids[i].auction != e.auction
      {
        assert BidOk(c.db.auctions, c.runs, c.db.bids[i]);
      }
      MaxPriceWithoutBids(c.db.bids, e.auction, e.start);
      forall a | a in d.db.auctions
        ensures AuctionInv(d, a)
      {
        assert a in c.db.auctions ==> AuctionInv(c, a);
      }
      forall p | p in d.runs
        ensures RunOk(d.now, d.db, Hist(d, d.runs[p].auction), p, d.runs[p])
      {
        assert RunOk(c.now, c.db, Hist(c, c.runs[p].auction), p, c.runs[p]);
      }
    }
  }

  lemma PhaseKeeps(c: Core, name: string, phase: Phase)
    requires Inv(c) && name in c.db.auctions
    ensures Inv(SetPhase(c, name, phase))
  {
    var d := SetPhase(c, name, phase);
    forall a | a in d.db.auctions
      ensures AuctionInv(d, a)
    {
      assert AuctionInv(c, a);
    }
  }

  /** A run that is new changes nothing that is said about the others. */
  lemma NewRunKeepsBids(c: Core, next: map<BidId, Run>, p: BidId)
    requires BidsOk(c) && p !in c.runs && p in next && next == c.runs[p := next[p]]
    ensures BidsOk(c.(runs := next))
  {
    forall i | 0 <= i < |c.db.bids|
      ensures BidOk(c.db.auctions, next, c.db.bids[i])
    {
      assert BidOk(c.db.auctions, c.runs, c.db.bids[i]);
    }
  }

  lemma NewRunKeepsRecords(c: Core, next: map<BidId, Run>, p: BidId)
    requires RecordsOk(c) && p !in c.runs && p in next && next == c.runs[p := next[p]]
    ensures RecordsOk(c.(runs := next))
  {
    forall k | k in c.redis.records
      ensures RecordOk(next, k, c.redis.records[k])
    {
      assert RecordOk(c.runs, k, c.redis.records[k]);
    }
  }

  lemma NewRunKeepsLog(runs: map<BidId, Run>, next: map<BidId, Run>, p: BidId, name: string, h: History)
    requires LogOk(runs, name, h) && p !in runs && p in next && next == runs[p := next[p]]
    ensures LogOk(next, name, h)
  {
    forall i | 0 <= i < |h.log|
      ensures EntryOk(next, name, h.log[i])
    {
      assert EntryOk(runs, name, h.log[i]);
    }
  }

  lemma BeginKeeps(c: Core, e: Event)
    requires Inv(c) && e.Begin? && Enabled(c, e)
    ensures Inv(Step(c, e))
  {
    var d := Step(c, e);
    NewRunKeepsBids(c, d.runs, e.run);
    NewRunKeepsRecords(c, d.runs, e.run);
    forall a | a in d.hist
      ensures LogOk(d.runs, a, d.hist[a])
    {
      NewRunKeepsLog(c.runs, d.runs, e.run, a, c.hist[a]);
    }
    forall a | a in d.db.auctions
      ensures AuctionInv(d, a)
    {
      assert AuctionInv(c, a);
    }
    forall p | p in d.runs
      ensures RunOk(d.now, d.db, Hist(d, d.runs[p].auction), p, d.runs[p])
    {
      if p != e.run { assert RunOk(c.now, c.db, Hist(c, c.runs[p].auction), p, c.runs[p]); }
    }
  }

  lemma LoadKeeps(c: Core, p: BidId, ok: bool)
    requires Inv(c) && Enabled(c, Load(p, ok))
    ensures Inv(Step(c, Load(p, ok)))
  {
    var d := Step(c, Load(p, ok));
    if !ok || c.runs[p].auction !in c.db.auctions {
      MoveKeeps(c, p, Finished(Failed));
    } else {
      assert AuctionInv(c, c.runs[p].auction);
      MaxPriceIsLeastBound(c.db.bids, c.runs[p].auction, c.db.auctions[c.runs[p].auction].startPrice);
      OneRunKeeps(c, d.runs, p);
    }
  }

  lemma CheckKeeps(c: Core, p: BidId)
    requires Inv(c) && Enabled(c, Check(p))
    ensures Inv(Step(c, Check(p)))
  {
    assert RunOk(c.now, c.db, Hist(c, c.runs[p].auction), p, c.runs[p]);
    MoveKeeps(c, p, CheckStep(c, p).runs[p].pc);
  }

  lemma LocalKeeps(c: Core, e: Event)
    requires Inv(c) && Enabled(c, e)
    requires e.Validate? || e.Reserve? || e.Release?
    ensures Inv(Step(c, e))
  {
    assert RunOk(c.now, c.db, Hist(c, c.runs[e.run].auction), e.run, c.runs[e.run]);
    match e
    case Validate(p, answer) => MoveKeeps(c, p, AfterAnswer(answer, Validated));
    case Reserve(p, answer) => MoveKeeps(c, p, AfterAnswer(answer, Reserved));
    case Release(p) => MoveKeeps(c, p, Finished(Failed));
  }

  // ----- the price the scripts work from ------------------------------------------------------------

  /** No live bid is above what the hash would show. */
  lemma TopDominatesLive(c: Core, name: string, p: BidId)
    requires Inv(c) && Good(c.db.auctions, name)
    requires p in c.runs && c.runs[p].auction == name && Live(p, c.runs[p].pc)
    ensures StackOk(Hist(c, name), c.db.auctions[name].startPrice, c.db.auctions[name].minIncrement)
    ensures c.runs[p].amount <= Below(Hist(c, name), |Hist(c, name).stack|, c.db.auctions[name].startPrice).price
  {
    var a, h := c.db.auctions[name], Hist(c, name);
    assert AuctionInv(c, name);
    assert RunOk(c.now, c.db, h, p, c.runs[p]);
    var i :| 0 <= i < |h.stack| && h.stack[i] < |h.log| && h.log[h.stack[i]].bidId == p;
    assert EntryOk(c.runs, name, h.log[h.stack[i]]);
    assert Amount(h, i) == c.runs[p].amount;
    assert Amount(h, |h.stack| - 1) == Below(h, |h.stack|, a.startPrice).price;
  }

  /** Nor is any bid in the database. */
  lemma TopDominates(c: Core, name: string)
    requires Inv(c) && Good(c.db.auctions, name)
    ensures StackOk(Hist(c, name), c.db.auctions[name].startPrice, c.db.auctions[name].minIncrement)
    ensures c.db.auctions[name].currentPrice
            <= Below(Hist(c, name), |Hist(c, name).stack|, c.db.auctions[name].startPrice).price
  {
    var a, h := c.db.auctions[name], Hist(c, name);
    assert AuctionInv(c, name);
    MaxPriceIsLeastBound(c.db.bids, name, a.startPrice);
    if a.currentPrice == a.startPrice {
      if |h.stack| > 0 { assert a.startPrice + a.minIncrement <= Amount(h, |h.stack| - 1); }
    } else {
      var i :| 0 <= i < |c.db.bids| && c.db.bids[i].auction == name && c.db.bids[i].amount == a.currentPrice;
      assert BidOk(c.db.auctions, c.runs, c.db.bids[i]);
      TopDominatesLive(c, name, c.db.bids[i].id);
    }
  }

  /** When the prepare script runs in time, it works from the top of the stack whatever the snapshot. */
  lemma PrepareSeesTop(c: Core, p: BidId, composedAt: nat)
    requires Inv(c) && p in c.runs && c.runs[p].pc.Checked? && Good(c.db.auctions, c.runs[p].auction)
    requires c.now < c.runs[p].pc.at + DAY - NANOS_PER_MILLI
    ensures var name := c.runs[p].auction; var h := Hist(c, name); var cmd := PrepareOf(c, p, composedAt);
            StackOk(h, c.db.auctions[name].startPrice, c.db.auctions[name].minIncrement) &&
            Shown(c.redis, name, CurrentPrice(c.redis, cmd)).(price := CurrentPrice(c.redis, cmd))
            == Below(h, |h.stack|, c.db.auctions[name].startPrice)
  {
    var r := c.runs[p];
    var name, h := r.auction, Hist(c, r.auction);
    var a := c.db.auctions[name];
    assert RunOk(c.now, c.db, h, p, r);
    assert AuctionInv(c, name);
    TopDominates(c, name);
    if name !in c.redis.hashes {
      assert h.log == [];
      StackNeedsLog(h);
      MaxPriceIsLeastBound(c.db.bids, name, a.startPrice);
      forall i | 0 <= i < |c.db.bids|
        ensures c.db.bids[i].auction != name
      {
        NoBidWithoutLog(c, name, i);
      }
      MaxPriceWithoutBids(c.db.bids, name, a.startPrice);
    }
  }

  lemma StackNeedsLog(h: History)
    requires forall i :: 0 <= i < |h.stack| ==> h.stack[i] < |h.log|
    ensures h.stack != [] ==> h.log != []
  {
    if h.stack != [] { assert h.stack[0] < |h.log|; }
  }

  lemma NoBidWithoutLog(c: Core, name: string, i: nat)
    requires Inv(c) && Good(c.db.auctions, name) && Hist(c, name).log == [] && i < |c.db.bids|
    ensures c.db.bids[i].auction != name
  {
    var b := c.db.bids[i];
    assert BidOk(c.db.auctions, c.runs, b);
    assert RunOk(c.now, c.db, Hist(c, c.runs[b.id].auction), b.id, c.runs[b.id]);
  }

  // ----- prepare ---------------------------------------------------------------------------------------

  /** What a record calls accepted is a bid row of the record's user. */
  lemma AcceptedIsWritten(c: Core, k: IdemKey)
    requires Inv(c) && k in c.redis.records && c.redis.records[k].status == Accepted
    ensures exists i :: 0 <= i < |c.db.bids| && c.db.bids[i].id == c.redis.records[k].bidId
                        && c.db.bids[i].user == k.user
  {
    var q := c.redis.records[k].bidId;
    assert RecordOk(c.runs, k, c.redis.records[k]);
    assert RunOk(c.now, c.db, Hist(c, c.runs[q].auction), q, c.runs[q]);
    var i :| 0 <= i < |c.db.bids| && c.db.bids[i].id == q;
    assert BidOk(c.db.auctions, c.runs, c.db.bids[i]);
  }

  /** So a duplicate's answer is right. */
  lemma DuplicateAnswers(c: Core, p: BidId, net: Net)
    requires Inv(c) && p in c.runs && c.runs[p].pc.Checked? && KeyOf(c.runs[p]) in c.redis.records
    ensures var r := c.runs[p]; var rec := c.redis.records[KeyOf(r)];
            var pc := AfterPrepare(PrepareReply(false, rec.status, rec.bidId, rec.amount, 0, true), net);
            !Live(p, pc) && !Committed(p, pc) && RunOk(c.now, c.db, Hist(c, r.auction), p, r.(pc := pc))
  {
    var k := KeyOf(c.runs[p]);
    assert RecordOk(c.runs, k, c.redis.records[k]);
    if c.redis.records[k].status == Accepted { AcceptedIsWritten(c, k); }
  }

  /** A retry that reaches the prepare script changes neither Redis nor the stack: it only ends its run, with
      the record's answer. */
  lemma RetryChangesNothing(c: Core, p: BidId, net: Net, composedAt: nat)
    requires Enabled(c, Prepare(p, net, composedAt)) && net != NotDelivered
    requires KeyOf(c.runs[p]) in c.redis.records
    ensures var rec := c.redis.records[KeyOf(c.runs[p])];
            Step(c, Prepare(p, net, composedAt))
            == Move(c, p, AfterPrepare(PrepareReply(false, rec.status, rec.bidId, rec.amount, 0, true), net))
  {
  }

  lemma DuplicateKeeps(c: Core, p: BidId, net: Net, composedAt: nat)
    requires Inv(c) && Enabled(c, Prepare(p, net, composedAt)) && net != NotDelivered
    requires KeyOf(c.runs[p]) in c.redis.records
    ensures Inv(Step(c, Prepare(p, net, composedAt)))
  {
    var rec := c.redis.records[KeyOf(c.runs[p])];
    DuplicateAnswers(c, p, net);
    RetryChangesNothing(c, p, net, composedAt);
    MoveKeeps(c, p, AfterPrepare(PrepareReply(false, rec.status, rec.bidId, rec.amount, 0, true), net));
  }

  /** An auction none of whose keys changed keeps its part of the invariant. */
  lemma AuctionFrame(c: Core, d: Core, a: string)
    requires a in c.db.auctions && AuctionInv(c, a)
    requires a in d.db.auctions && d.db.auctions[a] == c.db.auctions[a]
    requires d.now == c.now && Hist(d, a) == Hist(c, a)
    requires MaxPrice(d.db.bids, a, c.db.auctions[a].startPrice) == MaxPrice(c.db.bids, a, c.db.auctions[a].startPrice)
    requires a in d.redis.hashes <==> a in c.redis.hashes
    requires a in c.redis.hashes ==> d.redis.hashes[a] == c.redis.hashes[a]
    requires forall k :: k in d.redis.records && d.redis.records[k].auction == a ==>
               k in c.redis.records && d.redis.records[k] == c.redis.records[k]
    ensures AuctionInv(d, a)
  {
  }

  /** A hash that shows the top of the stack, and a record that links rightly. */
  ghost predicate WriteOk(c: Core, name: string, hash: AuctionHash, rec: IdemRecord)
    requires name in c.db.auctions
  {
    0 <= c.db.auctions[name].minIncrement ==>
      && AuctionOk(c.now, c.redis.hashes, c.db.bids, name, c.db.auctions[name], Hist(c, name))
      && HashOk(hash, Hist(c, name), c.db.auctions[name])
      && LinkOk(Hist(c, name), rec, c.db.auctions[name].startPrice)
  }

  lemma WriteKeepsIts(c: Core, name: string, hash: AuctionHash, k: IdemKey, rec: IdemRecord)
    requires name in c.db.auctions && AuctionInv(c, name) && rec.auction == name && WriteOk(c, name, hash, rec)
    ensures AuctionInv(c.(redis := Redis(c.redis.hashes[name := hash], c.redis.records[k := rec])), name)
  {
  }

  /** Writing them keeps the invariant. */
  lemma WriteKeeps(c: Core, name: string, hash: AuctionHash, k: IdemKey, rec: IdemRecord)
    requires Inv(c) && name in c.db.auctions && rec.auction == name
    requires k in c.redis.records ==> c.redis.records[k].auction == name
    requires RecordOk(c.runs, k, rec) && WriteOk(c, name, hash, rec)
    ensures Inv(c.(redis := Redis(c.redis.hashes[name := hash], c.redis.records[k := rec])))
  {
    var d := c.(redis := Redis(c.redis.hashes[name := hash], c.redis.records[k := rec]));
    forall a | a in d.db.auctions
      ensures AuctionInv(d, a)
    {
      assert AuctionInv(c, a);
      if a != name { AuctionFrame(c, d, a); } else { WriteKeepsIts(c, name, hash, k, rec); }
    }
  }

  /** What a refused prepare writes. */
  lemma RefusedWrites(c: Core, p: BidId, net: Net, composedAt: nat)
    requires Inv(c) && Enabled(c, Prepare(p, net, composedAt)) && net != NotDelivered
    requires KeyOf(c.runs[p]) !in c.redis.records
    requires !PrepareScript(c.redis, PrepareOf(c, p, composedAt), Ms(c.now)).1.allowed
    ensures var r := c.runs[p];
            var m := Move(c, p, Finished(if net == Delivered then Refused else Failed));
            var redis := Step(c, Prepare(p, net, composedAt)).redis;
            && r.auction in c.db.auctions
            && r.auction in redis.hashes && KeyOf(r) in redis.records
            && Step(c, Prepare(p, net, composedAt))
               == m.(redis := Redis(m.redis.hashes[r.auction := redis.hashes[r.auction]],
                                    m.redis.records[KeyOf(r) := redis.records[KeyOf(r)]]))
            && redis.records[KeyOf(r)].auction == r.auction
            && WriteOk(m, r.auction, redis.hashes[r.auction], redis.records[KeyOf(r)])
  {
    var r := c.runs[p];
    assert RunOk(c.now, c.db, Hist(c, r.auction), p, r);
    if 0 <= c.db.auctions[r.auction].minIncrement {
      PrepareSeesTop(c, p, composedAt);
      RefreshReachesHorizon(r.row.endsAt, composedAt, c.now);
      NotYetOnStack(c, p, r.auction);
      assert AuctionInv(c, r.auction);
    }
  }

  lemma RefusedPrepareKeeps(c: Core, p: BidId, net: Net, composedAt: nat)
    requires Inv(c) && Enabled(c, Prepare(p, net, composedAt)) && net != NotDelivered
    requires KeyOf(c.runs[p]) !in c.redis.records
    requires !PrepareScript(c.redis, PrepareOf(c, p, composedAt), Ms(c.now)).1.allowed
    ensures Inv(Step(c, Prepare(p, net, composedAt)))
  {
    var r, pc := c.runs[p], Finished(if net == Delivered then Refused else Failed);
    var redis := Step(c, Prepare(p, net, composedAt)).redis;
    assert RunOk(c.now, c.db, Hist(c, r.auction), p, r);
    MoveKeeps(c, p, pc);
    RefusedWrites(c, p, net, composedAt);
    WriteKeeps(Move(c, p, pc), r.auction, redis.hashes[r.auction], KeyOf(r), redis.records[KeyOf(r)]);
  }

  /** A bid not yet prepared is on no stack. */
  lemma NotYetOnStack(c: Core, p: BidId, a: string)
    requires Inv(c) && p in c.runs && c.runs[p].pc.Checked? && Good(c.db.auctions, a)
    ensures forall i :: 0 <= i < |Hist(c, a).log| ==> Hist(c, a).log[i].bidId != p
  {
    var h := Hist(c, a);
    forall i | 0 <= i < |h.log|
      ensures h.log[i].bidId != p
    {
      assert EntryOk(c.runs, a, h.log[i]);
    }
  }

  lemma PushKeepsStack(h: History, e: Entry, start: int, increment: int)
    requires StackOk(h, start, increment) && 0 <= increment
    requires Below(h, |h.stack|, start).price + increment <= e.amount
    ensures StackOk(Push(h, e), start, increment)
    ensures forall n :: 0 <= n <= |h.stack| ==> Below(Push(h, e), n, start) == Below(h, n, start)
    ensures Below(Push(h, e), |h.stack| + 1, start) == Previous(e.amount, Some(e.bidId), e.user)
    ensures forall p :: OnStack(h, p) ==> OnStack(Push(h, e), p)
    ensures OnStack(Push(h, e), e.bidId)
  {
    var g := Push(h, e);
    forall i | 0 <= i < |h.stack|
      ensures Amount(g, i) == Amount(h, i) <= Below(h, |h.stack|, start).price
    {
      assert Amount(h, |h.stack| - 1) == Below(h, |h.stack|, start).price;
    }
    assert Amount(g, |h.stack|) == e.amount;
    assert start <= Below(h, |h.stack|, start).price by {
      if |h.stack| > 0 { assert start + increment <= Amount(h, |h.stack| - 1); }
    }
    forall p | OnStack(h, p)
      ensures OnStack(g, p)
    {
      var i :| 0 <= i < |h.stack| && h.stack[i] < |h.log| && h.log[h.stack[i]].bidId == p;
      assert g.log[g.stack[i]].bidId == p;
    }
    assert g.log[g.stack[|h.stack|]].bidId == e.bidId;
  }

  function Pushed(c: Core, p: BidId, pc: Pc, hash: AuctionHash, rec: IdemRecord): Core
    requires p in c.runs
  {
    var r := c.runs[p];
    Core(c.now,
         Redis(c.redis.hashes[r.auction := hash], c.redis.records[KeyOf(r) := rec]),
         c.db,
         c.runs[p := r.(pc := pc)],
         c.hist[r.auction := Push(Hist(c, r.auction), Entry(p, r.user, r.amount))])
  }

  /** The new top is above everything below it and its record remembers what was on top. */
  ghost predicate PushFits(c: Core, p: BidId, pc: Pc, hash: AuctionHash, rec: IdemRecord) {
    && p in c.runs && c.runs[p].pc.Checked? && (pc == Prepared || pc == Finished(Failed))
    && var r := c.runs[p]; var h := Hist(c, r.auction);
       && KeyOf(r) !in c.redis.records
       && rec.status == Processing && rec.bidId == p
       && rec.amount == r.amount && rec.auction == r.auction && rec.user == r.user
       && (Good(c.db.auctions, r.auction) ==>
             var a := c.db.auctions[r.auction];
             && StackOk(h, a.startPrice, a.minIncrement)
             && rec.previous == Some(Below(h, |h.stack|, a.startPrice))
             && rec.previous.value.price + a.minIncrement <= r.amount
             && Previous(hash.price, hash.bidId, hash.user) == Previous(r.amount, Some(p), r.user)
             && hash.minIncrement == a.minIncrement
             && Horizon(a.endsAt) <= hash.expiresAt)
  }

  lemma PushKeepsAuction(c: Core, p: BidId, pc: Pc, hash: AuctionHash, rec: IdemRecord, a: string)
    requires Inv(c) && PushFits(c, p, pc, hash, rec) && a in c.db.auctions
    ensures AuctionInv(Pushed(c, p, pc, hash, rec), a)
  {
    var d := Pushed(c, p, pc, hash, rec);
    var r, h := c.runs[p], Hist(c, a);
    assert AuctionInv(c, a);
    if a != r.auction {
      AuctionFrame(c, d, a);
    } else if 0 <= c.db.auctions[a].minIncrement {
      var e, start := Entry(p, r.user, r.amount), c.db.auctions[a].startPrice;
      PushKeepsStack(h, e, start, c.db.auctions[a].minIncrement);
      NotYetOnStack(c, p, a);
      forall k | k in c.redis.records && c.redis.records[k].auction == a
        ensures c.redis.records[k].bidId != p
      {
        assert RecordOk(c.runs, k, c.redis.records[k]);
      }
      PushKeepsLinks(c.redis.records, a, start, h, e, KeyOf(r), rec);
    }
  }

  lemma PushKeepsLinks(
      records: map<IdemKey, IdemRecord>, name: string, start: int, h: History, e: Entry, k: IdemKey, rec: IdemRecord)
    requires forall i :: 0 <= i < |h.stack| ==> h.stack[i] < |h.log|
    requires forall i :: 0 <= i < |h.log| ==> h.log[i].bidId != e.bidId
    requires forall x :: x in records && records[x].auction == name ==> records[x].bidId != e.bidId
    requires forall n :: 0 <= n <= |h.stack| ==> Below(Push(h, e), n, start) == Below(h, n, start)
    requires forall p :: OnStack(h, p) ==> OnStack(Push(h, e), p)
    requires rec.bidId == e.bidId && rec.previous == Some(Below(h, |h.stack|, start)) && OnStack(Push(h, e), e.bidId)
    requires LinksOk(records, name, start, h)
    ensures LinksOk(records[k := rec], name, start, Push(h, e))
  {
    var g, next := Push(h, e), records[k := rec];
    forall x | x in next && next[x].auction == name
      ensures LinkOk(g, next[x], start)
    {
      if x != k { assert LinkOk(h, records[x], start); }
    }
  }

  lemma PushKeepsLog(c: Core, p: BidId, pc: Pc, hash: AuctionHash, rec: IdemRecord, a: string)
    requires Inv(c) && PushFits(c, p, pc, hash, rec)
    requires a in c.hist || a == c.runs[p].auction
    ensures LogOk(Pushed(c, p, pc, hash, rec).runs, a, Hist(Pushed(c, p, pc, hash, rec), a))
  {
    var d := Pushed(c, p, pc, hash, rec);
    var h := Hist(c, a);
    LogFollows(c.runs, d.runs, a, h, p);
    if a == c.runs[p].auction {
      forall i | 0 <= i < |h.log|
        ensures h.log[i].bidId != p
      {
        assert EntryOk(c.runs, a, h.log[i]);
      }
    }
  }

  lemma PushKeepsRun(c: Core, p: BidId, pc: Pc, hash: AuctionHash, rec: IdemRecord, q: BidId)
    requires Inv(c) && PushFits(c, p, pc, hash, rec) && q in c.runs
    ensures var d := Pushed(c, p, pc, hash, rec);
            RunOk(d.now, d.db, Hist(d, d.runs[q].auction), q, d.runs[q])
  {
    var r, name := c.runs[p], c.runs[p].auction;
    assert RunOk(c.now, c.db, Hist(c, c.runs[q].auction), q, c.runs[q]);
    if c.runs[q].auction == name && Good(c.db.auctions, name) {
      var a := c.db.auctions[name];
      PushKeepsStack(Hist(c, name), Entry(p, r.user, r.amount), a.startPrice, a.minIncrement);
    }
  }

  lemma PushKeeps(c: Core, p: BidId, pc: Pc, hash: AuctionHash, rec: IdemRecord)
    requires Inv(c) && PushFits(c, p, pc, hash, rec)
    ensures Inv(Pushed(c, p, pc, hash, rec))
  {
    var d := Pushed(c, p, pc, hash, rec);
    assert RunOk(c.now, c.db, Hist(c, c.runs[p].auction), p, c.runs[p]);
    forall a | a in d.hist
      ensures LogOk(d.runs, a, d.hist[a])
    {
      PushKeepsLog(c, p, pc, hash, rec, a);
    }
    forall a | a in d.db.auctions
      ensures AuctionInv(d, a)
    {
      PushKeepsAuction(c, p, pc, hash, rec, a);
    }
    forall q | q in d.runs
      ensures RunOk(d.now, d.db, Hist(d, d.runs[q].auction), q, d.runs[q])
    {
      PushKeepsRun(c, p, pc, hash, rec, q);
    }
    BidsFollow(c.db, c.runs, d.runs, p);
    forall k | k in d.redis.records
      ensures RecordOk(d.runs, k, d.redis.records[k])
    {
      if k != KeyOf(c.runs[p]) { assert RecordOk(c.runs, k, c.redis.records[k]); }
    }
  }

  lemma AllowedPrepareKeeps(c: Core, p: BidId, net: Net, composedAt: nat)
    requires Inv(c) && Enabled(c, Prepare(p, net, composedAt)) && net != NotDelivered
    requires PrepareScript(c.redis, PrepareOf(c, p, composedAt), Ms(c.now)).1.allowed
    ensures Inv(Step(c, Prepare(p, net, composedAt)))
  {
    var r := c.runs[p];
    var d := Step(c, Prepare(p, net, composedAt));
    assert RunOk(c.now, c.db, Hist(c, r.auction), p, r);
    if 0 <= c.db.auctions[r.auction].minIncrement {
      PrepareSeesTop(c, p, composedAt);
      RefreshReachesHorizon(r.row.endsAt, composedAt, c.now);
    }
    PushKeeps(c, p, d.runs[p].pc, d.redis.hashes[r.auction], d.redis.records[KeyOf(r)]);
  }

  lemma PrepareKeeps(c: Core, p: BidId, net: Net, composedAt: nat)
    requires Inv(c) && Enabled(c, Prepare(p, net, composedAt))
    ensures Inv(Step(c, Prepare(p, net, composedAt)))
  {
    if net == NotDelivered {
      assert RunOk(c.now, c.db, Hist(c, c.runs[p].auction), p, c.runs[p]);
      MoveKeeps(c, p, Finished(Failed));
    } else if KeyOf(c.runs[p]) in c.redis.records {
      DuplicateKeeps(c, p, net, composedAt);
    } else if PrepareScript(c.redis, PrepareOf(c, p, composedAt), Ms(c.now)).1.allowed {
      AllowedPrepareKeeps(c, p, net, composedAt);
    } else {
      RefusedPrepareKeeps(c, p, net, composedAt);
    }
  }

  // ----- commit --------------------------------------------------------------------------------------

  /** A run that is about to write has not written: its id is fresh and its auction exists. */
  lemma CommitWrites(c: Core, p: BidId)
    requires Inv(c) && p in c.runs && c.runs[p].pc.Reserved?
    ensures var r := c.runs[p];
            !HasBid(c.db.bids, p) && r.auction in c.db.auctions
            && WriteBid(c.db, BidRow(p, r.auction, r.user, r.amount)).Some?
  {
    assert RunOk(c.now, c.db, Hist(c, c.runs[p].auction), p, c.runs[p]);
    RowsAreCommitted(c, p);
  }

  lemma RowsAreCommitted(c: Core, p: BidId)
    requires Inv(c)
    ensures HasBid(c.db.bids, p) ==> p in c.runs && Committed(p, c.runs[p].pc)
    ensures forall i :: 0 <= i < |c.db.bids| && c.db.bids[i].id == p ==> c.db.bids[i].user == c.runs[p].user
  {
    forall i | 0 <= i < |c.db.bids| && c.db.bids[i].id == p
      ensures p in c.runs && Committed(p, c.runs[p].pc) && c.db.bids[i].user == c.runs[p].user
    {
      assert BidOk(c.db.auctions, c.runs, c.db.bids[i]);
    }
  }

  lemma CommitKeepsRun(c: Core, p: BidId, q: BidId)
    requires Inv(c) && Enabled(c, Commit(p, true)) && q in c.runs
    ensures var d := Step(c, Commit(p, true));
            RunOk(d.now, d.db, Hist(d, d.runs[q].auction), q, d.runs[q])
  {
    CommitWrites(c, p);
    var d := Step(c, Commit(p, true));
    var r, s := c.runs[q], d.runs[q];
    assert RunOk(c.now, c.db, Hist(c, r.auction), q, r);
    assert d.db.bids[|c.db.bids|].id == p;
    forall x | HasBid(c.db.bids, x)
      ensures HasBid(d.db.bids, x)
    {
      var i :| 0 <= i < |c.db.bids| && c.db.bids[i].id == x;
      assert d.db.bids[i].id == x;
    }
    if s.pc.Finished? && s.pc.reply.Taken? {
      var i :| 0 <= i < |c.db.bids| && c.db.bids[i].id == s.pc.reply.bidId && c.db.bids[i].user == s.user;
      assert d.db.bids[i] == c.db.bids[i];
    }
  }

  lemma CommitKeepsAuction(c: Core, p: BidId, a: string)
    requires Inv(c) && Enabled(c, Commit(p, true)) && a in c.db.auctions
    ensures AuctionInv(Step(c, Commit(p, true)), a)
  {
    CommitWrites(c, p);
    var r := c.runs[p];
    assert AuctionInv(c, a);
    MaxPriceAppend(c.db.bids, BidRow(p, r.auction, r.user, r.amount), a, c.db.auctions[a].startPrice);
    if a != r.auction {
      AuctionFrame(c, Step(c, Commit(p, true)), a);
    }
  }

  lemma CommitKeepsBids(c: Core, p: BidId)
    requires Inv(c) && Enabled(c, Commit(p, true))
    ensures BidsOk(Step(c, Commit(p, true)))
  {
    CommitWrites(c, p);
    var d := Step(c, Commit(p, true));
    forall i | 0 <= i < |d.db.bids|
      ensures BidOk(d.db.auctions, d.runs, d.db.bids[i])
    {
      if i < |c.db.bids| { assert BidOk(c.db.auctions, c.runs, c.db.bids[i]); }
    }
    forall i, j | 0 <= i < j < |d.db.bids|
      ensures d.db.bids[i].id != d.db.bids[j].id
    {
      assert HasBid(c.db.bids, c.db.bids[i].id);
    }
  }

  /** What a successful commit does to the runs. */
  lemma CommitMoves(c: Core, p: BidId)
    requires Inv(c) && Enabled(c, Commit(p, true))
    ensures var d := Step(c, Commit(p, true));
            Onward(c.runs, d.runs, p) && d.runs[p].pc == Completing(true, false, false)
            && d.hist == c.hist && d.redis == c.redis && d.db.auctions.Keys == c.db.auctions.Keys
  {
    CommitWrites(c, p);
  }

  lemma CommitKeepsLogs(c: Core, p: BidId)
    requires Inv(c) && Enabled(c, Commit(p, true))
    ensures var d := Step(c, Commit(p, true));
            Known(d) && forall a :: a in d.hist ==> LogOk(d.runs, a, d.hist[a])
  {
    var d := Step(c, Commit(p, true));
    CommitMoves(c, p);
    forall a | a in d.hist
      ensures LogOk(d.runs, a, d.hist[a])
    {
      LogFollows(c.runs, d.runs, a, c.hist[a], p);
    }
  }

  lemma CommitKeepsRecords(c: Core, p: BidId)
    requires Inv(c) && Enabled(c, Commit(p, true))
    ensures RecordsOk(Step(c, Commit(p, true)))
  {
    var d := Step(c, Commit(p, true));
    CommitMoves(c, p);
    forall k | k in d.redis.records
      ensures RecordOk(d.runs, k, d.redis.records[k])
    {
      assert RecordOk(c.runs, k, c.redis.records[k]);
    }
  }

  lemma CommitKeeps(c: Core, p: BidId, ok: bool)
    requires Inv(c) && Enabled(c, Commit(p, ok))
    ensures Inv(Step(c, Commit(p, ok)))
  {
    if !ok {
      assert RunOk(c.now, c.db, Hist(c, c.runs[p].auction), p, c.runs[p]);
      MoveKeeps(c, p, Completing(false, true, false));
    } else {
      var d := Step(c, Commit(p, ok));
      CommitMoves(c, p);
      CommitKeepsLogs(c, p);
      forall a | a in d.db.auctions
        ensures AuctionInv(d, a)
      {
        CommitKeepsAuction(c, p, a);
      }
      forall q | q in d.runs
        ensures RunOk(d.now, d.db, Hist(d, d.runs[q].auction), q, d.runs[q])
      {
        CommitKeepsRun(c, p, q);
      }
      CommitKeepsBids(c, p);
      CommitKeepsRecords(c, p);
    }
  }

  // ----- complete ------------------------------------------------------------------------------------

  /** The hash shows this bid on top and its record has what was below: popping shows just that. */
  lemma PopShowsBelow(c: Core, p: BidId, composedAt: nat)
    requires Inv(c) && p in c.runs && c.runs[p].pc.Completing? && Good(c.db.auctions, c.runs[p].auction)
    requires Pops(c.redis, CompleteOf(c, p, composedAt))
    ensures var name := c.runs[p].auction; var h := Hist(c, name); var start := c.db.auctions[name].startPrice;
            StackOk(h, start, c.db.auctions[name].minIncrement)
            && h.stack != [] && h.log[h.stack[|h.stack| - 1]].bidId == p
            && c.redis.records[KeyOf(c.runs[p])].previous == Some(Below(h, |h.stack| - 1, start))
  {
    var r := c.runs[p];
    var name, h := r.auction, Hist(c, r.auction);
    var rec := c.redis.records[KeyOf(r)];
    assert AuctionInv(c, name);
    assert RecordOk(c.runs, KeyOf(r), rec);
    assert LinkOk(h, rec, c.db.auctions[name].startPrice);
  }

  lemma PopKeepsStack(h: History, start: int, increment: int)
    requires StackOk(h, start, increment) && h.stack != []
    requires forall i, j :: 0 <= i < j < |h.log| ==> h.log[i].bidId != h.log[j].bidId
    ensures StackOk(Pop(h), start, increment)
    ensures forall n :: 0 <= n < |h.stack| ==> Below(Pop(h), n, start) == Below(h, n, start)
    ensures forall q :: OnStack(h, q) && q != h.log[h.stack[|h.stack| - 1]].bidId ==> OnStack(Pop(h), q)
  {
    var g := Pop(h);
    forall i | 0 <= i < |g.stack|
      ensures Amount(g, i) == Amount(h, i)
    {
    }
    forall q | OnStack(h, q) && q != h.log[h.stack[|h.stack| - 1]].bidId
      ensures OnStack(g, q)
    {
      var i :| 0 <= i < |h.stack| && h.stack[i] < |h.log| && h.log[h.stack[i]].bidId == q;
      assert g.stack[i] == h.stack[i];
    }
  }

  /** The state after the script: the hash and record written, and the stack popped or not. */
  function Written(c: Core, p: BidId, pc: Pc, hash: Option<AuctionHash>, rec: IdemRecord, pop: bool): Core
    requires p in c.runs
  {
    var r := c.runs[p];
    Core(c.now,
         Redis(if hash.Some? then c.redis.hashes[r.auction := hash.value] else c.redis.hashes,
               c.redis.records[KeyOf(r) := rec]),
         c.db,
         c.runs[p := r.(pc := pc)],
         if pop then c.hist[r.auction := Pop(Hist(c, r.auction))] else c.hist)
  }

  ghost predicate WriteFits(c: Core, p: BidId, pc: Pc, hash: Option<AuctionHash>, rec: IdemRecord, pop: bool) {
    && p in c.runs && c.runs[p].pc.Completing?
    && pc == AfterComplete(c.runs[p].pc, p)
    && var r := c.runs[p]; var h := Hist(c, r.auction);
       && KeyOf(r) in c.redis.records
       && rec.bidId == c.redis.records[KeyOf(r)].bidId == p
       && rec == c.redis.records[KeyOf(r)].(status := rec.status, expiresAt := rec.expiresAt)
       && rec.status == (if r.pc.accepted then Accepted else Rejected)
       && (hash.Some? <==> r.auction in c.redis.hashes)
       && (pop ==> !r.pc.accepted && hash.Some?)
       && (Good(c.db.auctions, r.auction) ==>
             var a := c.db.auctions[r.auction];
             && StackOk(h, a.startPrice, a.minIncrement)
             && (pop ==> h.stack != [] && h.log[h.stack[|h.stack| - 1]].bidId == p)
             && (hash.Some? ==>
                   && Previous(hash.value.price, hash.value.bidId, hash.value.user)
                      == Below(h, if pop then |h.stack| - 1 else |h.stack|, a.startPrice)
                   && hash.value.minIncrement == a.minIncrement
                   && Horizon(a.endsAt) <= hash.value.expiresAt))
  }

  /** A run's bid is named by the record of its own key alone. */
  lemma OnlyRecordOf(c: Core, p: BidId, k: IdemKey)
    requires RecordsOk(c) && p in c.runs && k == KeyOf(c.runs[p])
    ensures forall x :: x in c.redis.records && x != k ==> c.redis.records[x].bidId != p
  {
    forall x | x in c.redis.records && x != k
      ensures c.redis.records[x].bidId != p
    {
      assert RecordOk(c.runs, x, c.redis.records[x]);
    }
  }

  lemma PopKeepsAuctionLinks(c: Core, p: BidId, rec: IdemRecord)
    requires Inv(c) && p in c.runs && Good(c.db.auctions, c.runs[p].auction)
    requires rec.status != Processing && rec.bidId == p
    requires var a := c.runs[p].auction; var h := Hist(c, a);
             && StackOk(h, c.db.auctions[a].startPrice, c.db.auctions[a].minIncrement)
             && h.stack != [] && h.log[h.stack[|h.stack| - 1]].bidId == p
             && LinksOk(c.redis.records[KeyOf(c.runs[p]) := rec], a, c.db.auctions[a].startPrice, h)
    ensures var a := c.runs[p].auction; var h := Hist(c, a);
            && StackOk(Pop(h), c.db.auctions[a].startPrice, c.db.auctions[a].minIncrement)
            && (forall n :: 0 <= n < |h.stack| ==>
                  Below(Pop(h), n, c.db.auctions[a].startPrice) == Below(h, n, c.db.auctions[a].startPrice))
            && LinksOk(c.redis.records[KeyOf(c.runs[p]) := rec], a, c.db.auctions[a].startPrice, Pop(h))
  {
    var a := c.runs[p].auction;
    LogOfHist(c, a);
    PopKeepsStack(Hist(c, a), c.db.auctions[a].startPrice, c.db.auctions[a].minIncrement);
    OnlyRecordOf(c, p, KeyOf(c.runs[p]));
    PopKeepsLinks(c.redis.records[KeyOf(c.runs[p]) := rec], a, c.db.auctions[a].startPrice, Hist(c, a));
  }

  /** The written auction's links and stack, popped or not. */
  lemma WrittenLinks(c: Core, p: BidId, pc: Pc, hash: Option<AuctionHash>, rec: IdemRecord, pop: bool)
    requires Inv(c) && WriteFits(c, p, pc, hash, rec, pop) && Good(c.db.auctions, c.runs[p].auction)
    ensures var name := c.runs[p].auction; var a := c.db.auctions[name];
            var h := if pop then Pop(Hist(c, name)) else Hist(c, name);
            && StackOk(h, a.startPrice, a.minIncrement)
            && LinksOk(c.redis.records[KeyOf(c.runs[p]) := rec], name, a.startPrice, h)
            && (hash.Some? ==> HashOk(hash.value, h, a))
  {
    var name := c.runs[p].auction;
    assert AuctionInv(c, name);
    WriteKeepsLinks(c.redis.records, name, c.db.auctions[name].startPrice, Hist(c, name), KeyOf(c.runs[p]), rec);
    if pop { PopKeepsAuctionLinks(c, p, rec); }
  }

  lemma WriteKeepsOthers(
      c: Core, p: BidId, pc: Pc, hash: Option<AuctionHash>, rec: IdemRecord, pop: bool, a: string)
    requires Inv(c) && WriteFits(c, p, pc, hash, rec, pop) && a in c.db.auctions && a != c.runs[p].auction
    ensures AuctionInv(Written(c, p, pc, hash, rec, pop), a)
  {
    assert AuctionInv(c, a);
    assert RecordOk(c.runs, KeyOf(c.runs[p]), c.redis.records[KeyOf(c.runs[p])]);
    AuctionFrame(c, Written(c, p, pc, hash, rec, pop), a);
  }

  lemma WriteKeepsAuction(
      c: Core, p: BidId, pc: Pc, hash: Option<AuctionHash>, rec: IdemRecord, pop: bool, a: string)
    requires Inv(c) && WriteFits(c, p, pc, hash, rec, pop) && a in c.db.auctions
    ensures AuctionInv(Written(c, p, pc, hash, rec, pop), a)
  {
    if a != c.runs[p].auction {
      WriteKeepsOthers(c, p, pc, hash, rec, pop, a);
    } else {
      assert AuctionInv(c, a);
      if 0 <= c.db.auctions[a].minIncrement { WrittenLinks(c, p, pc, hash, rec, pop); }
    }
  }

  lemma WriteKeepsLinks(
      records: map<IdemKey, IdemRecord>, name: string, start: int, h: History, k: IdemKey, rec: IdemRecord)
    requires forall i :: 0 <= i < |h.stack| ==> h.stack[i] < |h.log|
    requires k in records && rec == records[k].(status := rec.status, expiresAt := rec.expiresAt)
    requires rec.status != Processing && LinksOk(records, name, start, h)
    ensures LinksOk(records[k := rec], name, start, h)
  {
    var next := records[k := rec];
    forall x | x in next && next[x].auction == name
      ensures LinkOk(h, next[x], start)
    {
      assert LinkOk(h, records[x], start);
    }
  }

  lemma PopKeepsLinks(records: map<IdemKey, IdemRecord>, name: string, start: int, h: History)
    requires h.stack != [] && forall i :: 0 <= i < |h.stack| ==> h.stack[i] < |h.log|
    requires var top := h.log[h.stack[|h.stack| - 1]].bidId;
             && (forall q :: OnStack(h, q) && q != top ==> OnStack(Pop(h), q))
             && (forall x :: x in records && records[x].status == Processing ==> records[x].bidId != top)
    requires LinksOk(records, name, start, h)
    ensures LinksOk(records, name, start, Pop(h))
  {
    forall x | x in records && records[x].auction == name
      ensures LinkOk(Pop(h), records[x], start)
    {
      assert LinkOk(h, records[x], start);
    }
  }

  /** Popping one run's bid leaves the others' on the stack. */
  lemma PopKeepsRun(c: Core, p: BidId, q: BidId)
    requires Inv(c) && p in c.runs && q in c.runs && q != p && c.runs[q].auction == c.runs[p].auction
    requires var h := Hist(c, c.runs[p].auction);
             Good(c.db.auctions, c.runs[p].auction) ==>
               h.stack != [] && h.stack[|h.stack| - 1] < |h.log| && h.log[h.stack[|h.stack| - 1]].bidId == p
    ensures RunOk(c.now, c.db, Pop(Hist(c, c.runs[p].auction)), q, c.runs[q])
  {
    var name := c.runs[p].auction;
    assert RunOk(c.now, c.db, Hist(c, name), q, c.runs[q]);
    if Good(c.db.auctions, name) {
      assert AuctionInv(c, name);
      LogOfHist(c, name);
      PopKeepsStack(Hist(c, name), c.db.auctions[name].startPrice, c.db.auctions[name].minIncrement);
    }
  }

  lemma LogOfHist(c: Core, name: string)
    requires Inv(c)
    ensures LogOk(c.runs, name, Hist(c, name))
  {
  }

  lemma WriteKeepsRun(
      c: Core, p: BidId, pc: Pc, hash: Option<AuctionHash>, rec: IdemRecord, pop: bool, q: BidId)
    requires Inv(c) && WriteFits(c, p, pc, hash, rec, pop) && q in c.runs
    ensures var d := Written(c, p, pc, hash, rec, pop);
            RunOk(d.now, d.db, Hist(d, d.runs[q].auction), q, d.runs[q])
  {
    var name := c.runs[p].auction;
    if q == p {
      AnswerKeepsRun(c, p, pc, if pop then Pop(Hist(c, name)) else Hist(c, name));
    } else if pop && c.runs[q].auction == name {
      PopKeepsRun(c, p, q);
    } else {
      assert RunOk(c.now, c.db, Hist(c, c.runs[q].auction), q, c.runs[q]);
    }
  }

  lemma AnswerKeepsRun(c: Core, p: BidId, pc: Pc, h: History)
    requires Inv(c) && p in c.runs && c.runs[p].pc.Completing? && pc == AfterComplete(c.runs[p].pc, p)
    requires h == Hist(c, c.runs[p].auction) || !c.runs[p].pc.accepted
    ensures RunOk(c.now, c.db, h, p, c.runs[p].(pc := pc))
  {
    assert RunOk(c.now, c.db, Hist(c, c.runs[p].auction), p, c.runs[p]);
    RowsAreCommitted(c, p);
  }

  lemma WrittenKeepsLogs(c: Core, p: BidId, pc: Pc, hash: Option<AuctionHash>, rec: IdemRecord, pop: bool)
    requires Inv(c) && WriteFits(c, p, pc, hash, rec, pop)
    ensures var d := Written(c, p, pc, hash, rec, pop);
            && Known(d) && Onward(c.runs, d.runs, p)
            && forall a :: a in d.hist ==> LogOk(d.runs, a, d.hist[a])
  {
    var d := Written(c, p, pc, hash, rec, pop);
    assert RecordOk(c.runs, KeyOf(c.runs[p]), c.redis.records[KeyOf(c.runs[p])]);
    assert RunOk(c.now, c.db, Hist(c, c.runs[p].auction), p, c.runs[p]);
    forall a | a in d.hist
      ensures LogOk(d.runs, a, d.hist[a])
    {
      LogOfHist(c, a);
      LogFollows(c.runs, d.runs, a, Hist(c, a), p);
    }
  }

  lemma WrittenKeeps(c: Core, p: BidId, pc: Pc, hash: Option<AuctionHash>, rec: IdemRecord, pop: bool)
    requires Inv(c) && WriteFits(c, p, pc, hash, rec, pop)
    ensures Inv(Written(c, p, pc, hash, rec, pop))
  {
    var d := Written(c, p, pc, hash, rec, pop);
    WrittenKeepsLogs(c, p, pc, hash, rec, pop);
    forall a | a in d.db.auctions
      ensures AuctionInv(d, a)
    {
      WriteKeepsAuction(c, p, pc, hash, rec, pop, a);
    }
    forall q | q in d.runs
      ensures RunOk(d.now, d.db, Hist(d, d.runs[q].auction), q, d.runs[q])
    {
      WriteKeepsRun(c, p, pc, hash, rec, pop, q);
    }
    BidsFollow(c.db, c.runs, d.runs, p);
    WriteKeepsRecords(c, p, pc, hash, rec, pop);
  }

  lemma WriteKeepsRecords(c: Core, p: BidId, pc: Pc, hash: Option<AuctionHash>, rec: IdemRecord, pop: bool)
    requires RecordsOk(c) && WriteFits(c, p, pc, hash, rec, pop)
    ensures RecordsOk(Written(c, p, pc, hash, rec, pop))
  {
    var d := Written(c, p, pc, hash, rec, pop);
    forall k | k in d.redis.records
      ensures RecordOk(d.runs, k, d.redis.records[k])
    {
      assert RecordOk(c.runs, k, c.redis.records[k]);
    }
  }

  lemma CompleteFits(c: Core, p: BidId, composedAt: nat)
    requires Inv(c) && Enabled(c, Complete(p, true, composedAt))
    requires KeyOf(c.runs[p]) in c.redis.records && c.redis.records[KeyOf(c.runs[p])].bidId == p
    ensures var r := c.runs[p];
            var d := Step(c, Complete(p, true, composedAt));
            var hash := if r.auction in d.redis.hashes then Some(d.redis.hashes[r.auction]) else None;
            WriteFits(c, p, d.runs[p].pc, hash, d.redis.records[KeyOf(r)], Pops(c.redis, CompleteOf(c, p, composedAt)))
  {
    var r := c.runs[p];
    assert RunOk(c.now, c.db, Hist(c, r.auction), p, r);
    RefreshReachesHorizon(r.row.endsAt, composedAt, c.now);
    assert AuctionInv(c, r.auction);
    if Pops(c.redis, CompleteOf(c, p, composedAt)) && Good(c.db.auctions, r.auction) {
      PopShowsBelow(c, p, composedAt);
    }
  }

  lemma CompleteKeeps(c: Core, p: BidId, ran: bool, composedAt: nat)
    requires Inv(c) && Enabled(c, Complete(p, ran, composedAt))
    ensures Inv(Step(c, Complete(p, ran, composedAt)))
  {
    var r := c.runs[p];
    var k := KeyOf(r);
    if !ran || k !in c.redis.records || c.redis.records[k].bidId != p {
      assert RunOk(c.now, c.db, Hist(c, r.auction), p, r);
      RowsAreCommitted(c, p);
      MoveKeeps(c, p, AfterComplete(r.pc, p));
    } else {
      var d := Step(c, Complete(p, ran, composedAt));
      var hash := if r.auction in d.redis.hashes then Some(d.redis.hashes[r.auction]) else None;
      CompleteFits(c, p, composedAt);
      WrittenKeeps(c, p, d.runs[p].pc, hash, d.redis.records[k], Pops(c.redis, CompleteOf(c, p, composedAt)));
      CompleteWrites(c, p, composedAt);
    }
  }

  lemma CompleteWrites(c: Core, p: BidId, composedAt: nat)
    requires Enabled(c, Complete(p, true, composedAt))
    requires KeyOf(c.runs[p]) in c.redis.records && c.redis.records[KeyOf(c.runs[p])].bidId == p
    ensures var r := c.runs[p];
            var d := Step(c, Complete(p, true, composedAt));
            var hash := if r.auction in d.redis.hashes then Some(d.redis.hashes[r.auction]) else None;
            d == Written(c, p, d.runs[p].pc, hash, d.redis.records[KeyOf(r)],
                         Pops(c.redis, CompleteOf(c, p, composedAt)))
  {
    var r := c.runs[p];
    var d := Step(c, Complete(p, true, composedAt));
    var hash := if r.auction in d.redis.hashes then Some(d.redis.hashes[r.auction]) else None;
    assert d.redis.hashes == if hash.Some? then c.redis.hashes[r.auction := hash.value] else c.redis.hashes;
  }

  // ----- every step, every reachable state -----------------------------------------------------------

  lemma InitHolds()
    ensures Inv(INITIAL)
  {
  }

  /** Every step, whatever fails and however runs interleave, keeps the invariant. */
  lemma StepKeeps(c: Core, e: Event)
    requires Inv(c) && Enabled(c, e)
    ensures Inv(Step(c, e))
  {
    match e
    case Tick(elapsed) => TickKeeps(c, elapsed);
    case CreateAuction(_, _, _, _, _) => CreateKeeps(c, e);
    case Activate(a) => PhaseKeeps(c, a, Active);
    case End(a) => PhaseKeeps(c, a, Ended);
    case Begin(_, _, _, _, _) => BeginKeeps(c, e);
    case Load(p, ok) => LoadKeeps(c, p, ok);
    case Check(p) => CheckKeeps(c, p);
    case Prepare(p, net, t) => PrepareKeeps(c, p, net, t);
    case Commit(p, ok) => CommitKeeps(c, p, ok);
    case Complete(p, ran, t) => CompleteKeeps(c, p, ran, t);
    case _ => LocalKeeps(c, e);
  }

  lemma {:induction false} RunKeeps(c: Core, events: seq<Event>, d: Core)
    requires Inv(c) && Leads(c, events, d)
    ensures Inv(d)
    decreases |events|
  {
    if events != [] {
      StepKeeps(c, events[0]);
      RunKeeps(Step(c, events[0]), events[1..], d);
    }
  }

  lemma ReachableHolds(c: Core)
    requires Reachable(c)
    ensures Inv(c)
  {
    InitHolds();
    var events :| Leads(INITIAL, events, c);
    RunKeeps(INITIAL, events, c);
  }
}
