/**
 What holds of an auction's bids in every run exactly for the increments that are not negative: that accepted
 bids are separated by the increment, and that the price is the highest bid.
 */
module Separation {
  import opened Options
  import opened RedisBids
  import opened BidTables
  import opened BidProtocol
  import BidTheorems

  /** Of two accepted bids on the auction, the one prepared later is higher by at least the increment. */
  ghost predicate Rises(c: Core, a: string)
    requires a in c.db.auctions
  {
    var log := Hist(c, a).log;
    forall x, y :: 0 <= x < y < |log| && HasBid(c.db.bids, log[x].bidId) && HasBid(c.db.bids, log[y].bidId)
                   ==> log[x].amount + c.db.auctions[a].minIncrement <= log[y].amount
  }

  lemma Loads(c: Core, p: BidId, user: string, a: string, request: string, amount: int) returns (d: Core)
    requires Reachable(c) && p !in c.runs && a in c.db.auctions
    ensures Reachable(d)
    ensures d == c.(runs := c.runs[p := Run(user, a, request, amount, c.db.auctions[a], Loaded)])
  {
    ReachableOn(c, Begin(p, user, a, request, amount));
    d := Step(c, Begin(p, user, a, request, amount));
    ReachableOn(d, Load(p, true));
    d := Step(d, Load(p, true));
  }

  /** A run reads the auction and passes its checks. */
  lemma Arrives(c: Core, p: BidId, user: string, a: string, request: string, amount: int) returns (d: Core)
    requires Reachable(c) && p !in c.runs && a in c.db.auctions && c.db.auctions[a].phase == Active
    requires c.now <= c.db.auctions[a].endsAt
    requires c.db.auctions[a].currentPrice + c.db.auctions[a].minIncrement <= amount
    ensures Reachable(d)
    ensures d == c.(runs := c.runs[p := Run(user, a, request, amount, c.db.auctions[a], Checked(c.now))])
  {
    d := Loads(c, p, user, a, request, amount);
    ReachableOn(d, Check(p));
    d := Step(d, Check(p));
  }

  /** A run that beats the price shown is let through. */
  lemma IsLetThrough(c: Core, p: BidId) returns (d: Core)
    requires Reachable(c) && p in c.runs && c.runs[p].pc == Checked(c.now)
    requires KeyOf(c.runs[p]) !in c.redis.records
    requires CurrentPrice(c.redis, PrepareOf(c, p, c.now)) + c.runs[p].row.minIncrement <= c.runs[p].amount
    ensures Reachable(d) && d == c.(redis := d.redis, hist := d.hist, runs := c.runs[p := c.runs[p].(pc := Prepared)])
    ensures d.redis.records.Keys == c.redis.records.Keys + {KeyOf(c.runs[p])}
    ensures var r := c.runs[p];
            && r.auction in d.redis.hashes && d.redis.hashes[r.auction].price == r.amount
            && Hist(d, r.auction).log == Hist(c, r.auction).log + [Entry(p, r.user, r.amount)]
  {
    ReachableOn(c, Prepare(p, Delivered, c.now));
    d := Step(c, Prepare(p, Delivered, c.now));
  }

  lemma Reserves(c: Core, p: BidId) returns (d: Core)
    requires Reachable(c) && p in c.runs && c.runs[p].pc == Prepared
    ensures Reachable(d) && d == Move(c, p, Reserved)
  {
    ReachableOn(c, Validate(p, Granted));
    d := Step(c, Validate(p, Granted));
    ReachableOn(d, Reserve(p, Granted));
    d := Step(d, Reserve(p, Granted));
  }

  /** Both payment requests are granted and the commit succeeds. */
  lemma Pays(c: Core, p: BidId) returns (d: Core)
    requires Reachable(c) && p in c.runs && c.runs[p].pc == Prepared
    requires c.runs[p].auction in c.db.auctions && !HasBid(c.db.bids, p)
    ensures Reachable(d)
    ensures var r := c.runs[p];
            d == c.(db := WriteBid(c.db, BidRow(p, r.auction, r.user, r.amount)).value,
                    runs := c.runs[p := r.(pc := Completing(true, false, false))])
  {
    var mid := Reserves(c, p);
    CommitIs(mid, p, true);
    ReachableOn(mid, Commit(p, true));
    d := Step(mid, Commit(p, true));
  }

  lemma GetsThrough(c: Core, p: BidId) returns (d: Core)
    requires Reachable(c) && p in c.runs && c.runs[p].pc == Checked(c.now)
    requires c.runs[p].auction in c.db.auctions && !HasBid(c.db.bids, p)
    requires KeyOf(c.runs[p]) !in c.redis.records
    requires CurrentPrice(c.redis, PrepareOf(c, p, c.now)) + c.runs[p].row.minIncrement <= c.runs[p].amount
    ensures Reachable(d) && d.now == c.now
    ensures d.runs == c.runs[p := c.runs[p].(pc := Completing(true, false, false))]
    ensures d.redis.records.Keys == c.redis.records.Keys + {KeyOf(c.runs[p])}
    ensures var r := c.runs[p];
            && r.auction in d.redis.hashes && d.redis.hashes[r.auction].price == r.amount
            && Hist(d, r.auction).log == Hist(c, r.auction).log + [Entry(p, r.user, r.amount)]
            && d.db == WriteBid(c.db, BidRow(p, r.auction, r.user, r.amount)).value
  {
    d := IsLetThrough(c, p);
    d := Pays(d, p);
  }

  lemma Opens(a: string, start: int, increment: int) returns (c: Core)
    ensures Reachable(c) && c.now == 0 && c.runs == map[] && c.redis == Redis(map[], map[]) && c.hist == map[]
    ensures c.db == Tables(map[a := Auction(start, start, increment, Active, 0, 1)], [])
  {
    assert Leads(INITIAL, [], INITIAL);
    c := INITIAL;
    ReachableOn(c, CreateAuction(a, start, increment, 0, 1));
    c := Step(c, CreateAuction(a, start, increment, 0, 1));
    ReachableOn(c, Activate(a));
    c := Step(c, Activate(a));
  }

  /** Three bids read the auction before any of them is written. */
  lemma ThreeArrive(increment: int) returns (c: Core, a: string)
    requires increment < 0
    ensures Reachable(c) && c.now == 0 && c.redis == Redis(map[], map[]) && c.hist == map[]
    ensures c.db == Tables(map[a := Auction(0, 0, increment, Active, 0, 1)], [])
    ensures var row := c.db.auctions[a];
            c.runs == map[0 := Run("u", a, "", -3 * increment, row, Checked(0)),
                          1 := Run("u", a, "x", -2 * increment, row, Checked(0)),
                          2 := Run("u", a, "xx", -increment, row, Checked(0))]
  {
    a := "a";
    c := Opens(a, 0, increment);
    c := Arrives(c, 0, "u", a, "", -3 * increment);
    c := Arrives(c, 1, "u", a, "x", -2 * increment);
    c := Arrives(c, 2, "u", a, "xx", -increment);
  }

  /** With a negative increment each of them may undercut the one before. */
  lemma ThreeUndercut(increment: int) returns (c: Core, a: string)
    requires increment < 0
    ensures Reachable(c) && a in c.db.auctions && c.db.auctions[a].minIncrement == increment && !Rises(c, a)
  {
    c, a := ThreeArrive(increment);
    assert |""| < |"x"| < |"xx"|;
    c := GetsThrough(c, 0);
    assert c.db.bids[0].id == 0;
    c := GetsThrough(c, 1);
    assert c.db.bids[0].id == 0 && c.db.bids[1].id == 1;
    c := GetsThrough(c, 2);
    assert c.db.bids[0].id == 0 && c.db.bids[2].id == 2;
    assert HasBid(c.db.bids, 0) && HasBid(c.db.bids, 2);
    var log := Hist(c, a).log;
    assert log[0].bidId == 0 && log[2].bidId == 2 && log[2].amount < log[0].amount + increment;
  }

  /** Accepted bids rise by the increment in every reachable state if and only if it is not negative. */
  lemma SeparationHoldsExactly(increment: int)
    ensures (forall c, a :: Reachable(c) && a in c.db.auctions && c.db.auctions[a].minIncrement == increment
                            ==> Rises(c, a))
            <==> 0 <= increment
  {
    if increment < 0 {
      var c, a := ThreeUndercut(increment);
    } else {
      forall c, a | Reachable(c) && a in c.db.auctions && c.db.auctions[a].minIncrement == increment
        ensures Rises(c, a)
      {
        var log := Hist(c, a).log;
        forall x, y | 0 <= x < y < |log| && HasBid(c.db.bids, log[x].bidId) && HasBid(c.db.bids, log[y].bidId)
          ensures log[x].amount + increment <= log[y].amount
        {
          BidTheorems.AcceptedBidsRise(c, a, x, y);
        }
      }
    }
  }

  // ----- the price and the highest bid ---------------------------------------------------------------------

  /** Whatever the query for the highest bid may answer, if it names one, is the price. */
  ghost predicate PriceIsHighest(c: Core, a: string)
    requires a in c.db.auctions
  {
    forall row :: IsHighest(c.db.bids, a, Some(row)) ==> row.amount == c.db.auctions[a].currentPrice
  }

  /** With a negative increment the first bid may be below the start price, where the price stays. */
  lemma BidsBelowStart(increment: int) returns (c: Core, a: string)
    requires increment < 0
    ensures Reachable(c) && a in c.db.auctions && c.db.auctions[a].minIncrement == increment && !PriceIsHighest(c, a)
  {
    a := "a";
    c := Opens(a, -2 * increment, increment);
    c := Arrives(c, 0, "u", a, "", -increment);
    c := GetsThrough(c, 0);
    assert IsHighest(c.db.bids, a, Some(BidRow(0, a, "u", -increment)));
  }

  /** In every reachable state the price of an auction with bids is its highest bid, if and only if the
      increment is not negative. */
  lemma PriceIsHighestExactly(increment: int)
    ensures (forall c, a :: Reachable(c) && a in c.db.auctions && c.db.auctions[a].minIncrement == increment
                            ==> PriceIsHighest(c, a))
            <==> 0 <= increment
  {
    if increment < 0 {
      var c, a := BidsBelowStart(increment);
    } else {
      forall c, a | Reachable(c) && a in c.db.auctions && c.db.auctions[a].minIncrement == increment
        ensures PriceIsHighest(c, a)
      {
        forall row | IsHighest(c.db.bids, a, Some(row))
          ensures row.amount == c.db.auctions[a].currentPrice
        {
          BidTheorems.DbPriceIsHighest(c, a, Some(row));
        }
      }
    }
  }
}
