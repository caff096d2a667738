/**
 A reachable state in which the Redis hash shows a bid that was rejected.
 */
module DeadBids {
  import opened Options
  import opened RedisBids
  import opened BidTables
  import opened BidProtocol
  import opened BidInvariant
  import opened BidTheorems
  import Separation

  lemma TwoArrive(a: string, increment: int) returns (c: Core)
    requires 0 < increment
    ensures Reachable(c) && c.now == 0 && c.redis == Redis(map[], map[])
    ensures var row := Auction(0, 0, increment, Active, 0, 1);
            && c.db == Tables(map[a := row], [])
            && c.runs == map[0 := Run("u", a, "", increment, row, Checked(0)),
                             1 := Run("u", a, "x", 2 * increment, row, Checked(0))]
  {
    c := Separation.Opens(a, 0, increment);
    c := Separation.Arrives(c, 0, "u", a, "", increment);
    c := Separation.Arrives(c, 1, "u", a, "x", 2 * increment);
  }

  lemma Prepares(c: Core, p: BidId) returns (d: Core)
    requires Reachable(c) && p in c.runs && c.runs[p].pc == Checked(0) && c.now == 0
    requires PrepareScript(c.redis, PrepareOf(c, p, 0), 0).1.allowed
    ensures Reachable(d) && d.now == 0 && d.db == c.db && d.runs == c.runs[p := c.runs[p].(pc := Prepared)]
    ensures d.redis == PrepareScript(c.redis, PrepareOf(c, p, 0), 0).0
  {
    ReachableOn(c, Prepare(p, Delivered, 0));
    d := Step(c, Prepare(p, Delivered, 0));
  }

  /** Two bids, each the increment above the one before, are let through one after the other. */
  lemma TwoPrepared(a: string, increment: int) returns (c: Core)
    requires 0 < increment
    ensures Reachable(c) && c.now == 0 && a in c.redis.hashes
    ensures c.redis.hashes[a].bidId == Some(1)
    ensures var row := Auction(0, 0, increment, Active, 0, 1);
            && c.db == Tables(map[a := row], [])
            && c.runs == map[0 := Run("u", a, "", increment, row, Prepared),
                             1 := Run("u", a, "x", 2 * increment, row, Prepared)]
    ensures c.redis.records.Keys == {IdemKey("u", ""), IdemKey("u", "x")}
    ensures var lower, upper := c.redis.records[IdemKey("u", "")], c.redis.records[IdemKey("u", "x")];
            lower.bidId == 0 && upper.bidId == 1 && upper.previous == Some(Previous(increment, Some(0), "u"))
  {
    c := TwoArrive(a, increment);
    assert |""| < |"x"|;
    c := Prepares(c, 0);
    c := Prepares(c, 1);
  }

  /** The run's validation is denied and the rejection reaches Redis. */
  lemma Rejects(c: Core, p: BidId) returns (d: Core)
    requires Reachable(c) && p in c.runs && c.runs[p].pc == Prepared && c.now == 0
    ensures Reachable(d) && d.now == 0 && d.db == c.db
    ensures d.runs == c.runs[p := c.runs[p].(pc := Finished(Refused))]
    ensures var r := c.runs[p].(pc := Completing(false, false, false));
            d.redis == CompleteScript(c.redis, CompleteOf(c.(runs := c.runs[p := r]), p, 0), 0).0
  {
    ReachableOn(c, Validate(p, Denied));
    d := Step(c, Validate(p, Denied));
    ReachableOn(d, Complete(p, true, 0));
    d := Step(d, Complete(p, true, 0));
  }

  /** Whoever the hash shows is the stack's top. */
  lemma ShownIsTop(c: Core, a: string, p: BidId)
    requires Reachable(c) && Good(c.db.auctions, a) && a in c.redis.hashes && c.redis.hashes[a].bidId == Some(p)
    requires p in c.runs && !Live(p, c.runs[p].pc)
    ensures !TopIsLive(c, Hist(c, a))
  {
    HashIsTopOfStack(c, a);
    assert Shown(c.redis, a, 0).bidId == Some(p);
  }

  /** For every auction and every positive increment: the lower of two bids is rejected first and the upper
      second, and the hash shows the rejected lower one. */
  lemma DeadBidIsShown(a: string, increment: int) returns (c: Core)
    requires 0 < increment
    ensures Reachable(c) && a in c.db.auctions && c.db.auctions[a].minIncrement == increment
    ensures a in c.redis.hashes && c.redis.hashes[a].bidId == Some(0) && c.redis.hashes[a].price == increment
    ensures 0 in c.runs && c.runs[0].pc == Finished(Refused) && !TopIsLive(c, Hist(c, a))
  {
    c := TwoPrepared(a, increment);
    assert |""| < |"x"|;
    c := Rejects(c, 0);
    c := Rejects(c, 1);
    ShownIsTop(c, a, 0);
  }
}
