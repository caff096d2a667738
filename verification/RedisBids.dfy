/**
 The two Lua scripts of internal/bidding/redis_bid_processor.go, each as one atomic change of the
 Redis keyspace, with the time-to-live arithmetic around them.

 Money is whole cents.  Times are nanoseconds (the service's clock); Redis counts milliseconds.
 A bid id is the number of the `PlaceBid` run that drew it, so ids are fresh by construction.
 */
module RedisBids {
  import opened Options
  import opened Numbers

  type BidId = nat

  const DAY: int := 86_400_000 * NANOS_PER_MILLI
  const BID_IDEMPOTENCY_TTL: int := DAY
  const BID_STATE_MIN_TTL: int := DAY

  datatype IdemKey = IdemKey(user: string, request: string)

  datatype Status = Processing | Accepted | Rejected

  /** The previous_* fields a prepared bid's record keeps: what the auction hash said before it. */
  datatype Previous = Previous(price: int, bidId: Option<BidId>, user: string)

  datatype IdemRecord = IdemRecord(
    status: Status, bidId: BidId, amount: int, auction: string, user: string,
    previous: Option<Previous>, expiresAt: int)

  /** `bidId == None` and `user == ""` stand for both a missing field and an empty one,
      which the scripts do not tell apart. */
  datatype AuctionHash = AuctionHash(
    price: int, minIncrement: int, bidId: Option<BidId>, user: string, expiresAt: int)

  datatype Redis = Redis(hashes: map<string, AuctionHash>, records: map<IdemKey, IdemRecord>)

  /** Time-to-lives are in milliseconds, as the scripts receive them. */
  datatype PrepareCommand = PrepareCommand(
    key: IdemKey, auction: string, bidId: BidId, amount: int, dbCurrent: int, minIncrement: int,
    idemTtl: int, stateTtl: int)

  datatype PrepareReply = PrepareReply(
    allowed: bool, status: Status, bidId: BidId, amount: int, required: int, duplicate: bool)

  datatype CompleteCommand = CompleteCommand(
    key: IdemKey, auction: string, bidId: BidId, status: Status, idemTtl: int, stateTtl: int)

  datatype CompleteReply = Missing | BidMismatch | Completed(status: Status)

  // ----- time-to-live ------------------------------------------------------------------------

  function Ms(t: int): int {
    t / NANOS_PER_MILLI
  }

  function DurationOrDefault(duration: int, fallback: int): int {
    if duration <= 0 then fallback else duration
  }

  /** `endsAt == 0` is Go's zero time. */
  function AuctionStateTtl(endsAt: int, now: int): int {
    if endsAt == 0 then BID_STATE_MIN_TTL
    else
      var ttl := endsAt - now + BID_STATE_MIN_TTL;
      if ttl < BID_STATE_MIN_TTL then BID_STATE_MIN_TTL else ttl
  }

  /** What `PrepareBid` sends: the caller leaves `AuctionStateTTL` unset. */
  function PrepareStateTtl(endsAt: int, now: int): int {
    Ms(DurationOrDefault(0, AuctionStateTtl(endsAt, now)))
  }

  /** What `CompleteBid` sends: the caller passes the time-to-live it computed. */
  function CompleteStateTtl(endsAt: int, now: int): int {
    Ms(DurationOrDefault(AuctionStateTtl(endsAt, now), BID_STATE_MIN_TTL))
  }

  function IdemTtl(): int {
    Ms(DurationOrDefault(0, BID_IDEMPOTENCY_TTL))
  }

  /** The last millisecond at which the auction hash is promised to exist: a day after the end,
      less the millisecond that truncation may cost. */
  function Horizon(endsAt: int): int {
    Ms(endsAt + DAY) - 1
  }

  /** A refresh composed at `composedAt` and run by Redis at `ranAt` keeps the hash to the horizon; both
      senders agree on the time-to-live and it is at least a day.  Run when it is composed, it keeps the hash
      no longer than a day after the end, or than a day when the auction is over. */
  lemma RefreshReachesHorizon(endsAt: int, composedAt: int, ranAt: int)
    requires 0 <= composedAt <= ranAt && 0 <= endsAt
    ensures composedAt <= endsAt ==> Ms(composedAt) + PrepareStateTtl(endsAt, composedAt) <= Ms(endsAt + DAY)
    ensures endsAt <= composedAt ==> PrepareStateTtl(endsAt, composedAt) == 86_400_000
    ensures PrepareStateTtl(endsAt, composedAt) == CompleteStateTtl(endsAt, composedAt) >= Ms(DAY)
    ensures Ms(ranAt) + PrepareStateTtl(endsAt, composedAt) >= Horizon(endsAt)
  {
  }

  // ----- the prepare script --------------------------------------------------------------------

  /** The price the script works from: the hash's, unless it is missing or below the snapshot. */
  function CurrentPrice(r: Redis, c: PrepareCommand): int {
    if c.auction !in r.hashes || c.dbCurrent > r.hashes[c.auction].price
    then c.dbCurrent
    else r.hashes[c.auction].price
  }

  /** What the hash says about an auction: price, bid and bidder (`base` when there is no hash). */
  function Shown(r: Redis, auction: string, base: int): Previous {
    if auction in r.hashes
    then Previous(r.hashes[auction].price, r.hashes[auction].bidId, r.hashes[auction].user)
    else Previous(base, None, "")
  }

  function PrepareScript(r: Redis, c: PrepareCommand, nowMs: int): (Redis, PrepareReply) {
    if c.key in r.records then
      var rec := r.records[c.key];
      (r, PrepareReply(false, rec.status, rec.bidId, rec.amount, 0, true))
    else
      var current := CurrentPrice(r, c);
      var was := Shown(r, c.auction, current);
      var required := current + c.minIncrement;
      if c.amount < required then
        var rec := IdemRecord(Rejected, c.bidId, c.amount, c.auction, c.key.user, None, nowMs + c.idemTtl);
        var hash := AuctionHash(current, c.minIncrement, was.bidId, was.user, nowMs + c.stateTtl);
        (Redis(r.hashes[c.auction := hash], r.records[c.key := rec]),
         PrepareReply(false, Rejected, c.bidId, c.amount, required, false))
      else
        var rec := IdemRecord(Processing, c.bidId, c.amount, c.auction, c.key.user,
                              Some(was.(price := current)), nowMs + c.idemTtl);
        var hash := AuctionHash(c.amount, c.minIncrement, Some(c.bidId), c.key.user, nowMs + c.stateTtl);
        (Redis(r.hashes[c.auction := hash], r.records[c.key := rec]),
         PrepareReply(true, Processing, c.bidId, c.amount, required, false))
  }

  // ----- the complete script -------------------------------------------------------------------

  /** A rejection pops the hash only while the rejected bid is still the one it shows. */
  predicate Pops(r: Redis, c: CompleteCommand) {
    && c.key in r.records && r.records[c.key].bidId == c.bidId
    && c.status != Accepted
    && c.auction in r.hashes && r.hashes[c.auction].bidId == Some(c.bidId)
  }

  function CompleteScript(r: Redis, c: CompleteCommand, nowMs: int): (Redis, CompleteReply) {
    if c.key !in r.records then (r, Missing)
    else if r.records[c.key].bidId != c.bidId then (r, BidMismatch)
    else
      var rec := r.records[c.key];
      var back := if rec.previous.Some? then rec.previous.value else Previous(0, None, "");
      var popped := if Pops(r, c)
                    then r.hashes[c.auction :=
                           r.hashes[c.auction].(price := back.price, bidId := back.bidId, user := back.user)]
                    else r.hashes;
      var kept := if c.auction in popped
                  then popped[c.auction := popped[c.auction].(expiresAt := nowMs + c.stateTtl)]
                  else popped;
      (Redis(kept, r.records[c.key := rec.(status := c.status, expiresAt := nowMs + c.idemTtl)]),
       Completed(c.status))
  }

  /** Redis drops a key once the clock is past its expiry. */
  function Purge(r: Redis, nowMs: int): (p: Redis)
    ensures forall a :: a in p.hashes <==> a in r.hashes && nowMs <= r.hashes[a].expiresAt
    ensures forall k :: k in p.records <==> k in r.records && nowMs <= r.records[k].expiresAt
    ensures forall a :: a in p.hashes ==> p.hashes[a] == r.hashes[a]
    ensures forall k :: k in p.records ==> p.records[k] == r.records[k]
  {
    Redis(map a | a in r.hashes && nowMs <= r.hashes[a].expiresAt :: r.hashes[a],
          map k | k in r.records && nowMs <= r.records[k].expiresAt :: r.records[k])
  }

  // ----- the scripts as they run: one HSET / PEXPIRE after the other -----------------------------

  class RedisStore {
    var hashes: map<string, AuctionHash>
    var records: map<IdemKey, IdemRecord>

    function State(): Redis
      reads this
    {
      Redis(hashes, records)
    }

    constructor ()
      ensures State() == Redis(map[], map[])
    {
      hashes, records := map[], map[];
    }

    /** Writes a record's fields and then its time-to-live. */
    method WriteRecord(k: IdemKey, rec: IdemRecord, expiresAt: int)
      modifies this`records
      ensures records == old(records)[k := rec.(expiresAt := expiresAt)]
    {
      records := records[k := rec];
      records := records[k := records[k].(expiresAt := expiresAt)];
    }

    /** Writes an auction hash's fields and then its time-to-live. */
    method WriteHash(a: string, hash: AuctionHash, expiresAt: int)
      modifies this`hashes
      ensures hashes == old(hashes)[a := hash.(expiresAt := expiresAt)]
    {
      hashes := hashes[a := hash];
      hashes := hashes[a := hashes[a].(expiresAt := expiresAt)];
    }

    method Prepare(c: PrepareCommand, nowMs: int) returns (reply: PrepareReply)
      modifies this
      ensures (State(), reply) == PrepareScript(old(State()), c, nowMs)
    {
      if c.key in records {
        var existing := records[c.key];
        return PrepareReply(false, existing.status, existing.bidId, existing.amount, 0, true);
      }

      var current := c.dbCurrent;
      var previousBid: Option<BidId> := None;
      var previousUser := "";
      if c.auction in hashes {
        if c.dbCurrent <= hashes[c.auction].price {
          current := hashes[c.auction].price;
        }
        previousBid, previousUser := hashes[c.auction].bidId, hashes[c.auction].user;
      }
      var required := current + c.minIncrement;

      if c.amount < required {
        WriteRecord(c.key, IdemRecord(Rejected, c.bidId, c.amount, c.auction, c.key.user, None, 0), nowMs + c.idemTtl);
        WriteHash(c.auction, AuctionHash(current, c.minIncrement, previousBid, previousUser, 0), nowMs + c.stateTtl);
        return PrepareReply(false, Rejected, c.bidId, c.amount, required, false);
      }

      var previous := Some(Previous(current, previousBid, previousUser));
      var rec := IdemRecord(Processing, c.bidId, c.amount, c.auction, c.key.user, previous, 0);
      WriteRecord(c.key, rec, nowMs + c.idemTtl);
      WriteHash(c.auction, AuctionHash(c.amount, c.minIncrement, Some(c.bidId), c.key.user, 0), nowMs + c.stateTtl);
      return PrepareReply(true, Processing, c.bidId, c.amount, required, false);
    }

    method Complete(c: CompleteCommand, nowMs: int) returns (reply: CompleteReply)
      modifies this
      ensures (State(), reply) == CompleteScript(old(State()), c, nowMs)
      ensures reply == Missing <==> c.key !in old(records)
      ensures reply == BidMismatch <==> c.key in old(records) && old(records)[c.key].bidId != c.bidId
      ensures if reply.Completed? then reply.status == c.status else State() == old(State())
    {
      if c.key !in records {
        return Missing;
      }
      var idem := records[c.key];
      if idem.bidId != c.bidId {
        return BidMismatch;
      }
      if c.status != Accepted {
        if c.auction in hashes && hashes[c.auction].bidId == Some(c.bidId) {
          var price, bid, user := 0, None, "";
          if idem.previous.Some? {
            price, bid, user := idem.previous.value.price, idem.previous.value.bidId, idem.previous.value.user;
          }
          hashes := hashes[c.auction := hashes[c.auction].(price := price, bidId := bid, user := user)];
        }
      }
      WriteRecord(c.key, idem.(status := c.status), nowMs + c.idemTtl);
      if c.auction in hashes {
        hashes := hashes[c.auction := hashes[c.auction].(expiresAt := nowMs + c.stateTtl)];
      }
      assert records == CompleteScript(old(State()), c, nowMs).0.records;
      assert hashes == CompleteScript(old(State()), c, nowMs).0.hashes;
      return Completed(c.status);
    }
  }

  // ----- prepare pushes, rejecting the top pops ----------------------------------------------------

  /** The prepares and rejections of a properly nested run: `cmd` is prepared at `at`, then `inner` runs,
      then `cmd` is rejected at `until` if it had been allowed, then `next` runs. */
  datatype Nest = Nothing | Bracket(cmd: PrepareCommand, at: int, inner: Nest, until: int, ttl: int, next: Nest)

  function Rejection(c: PrepareCommand, stateTtl: int): CompleteCommand {
    CompleteCommand(c.key, c.auction, c.bidId, Rejected, c.idemTtl, stateTtl)
  }

  function RunNest(r: Redis, n: Nest): Redis
    decreases n
  {
    match n
    case Nothing => r
    case Bracket(c, at, inner, until, ttl, next) =>
      var (pushed, reply) := PrepareScript(r, c, at);
      if reply.allowed then
        var popped := CompleteScript(RunNest(pushed, inner), Rejection(c, ttl), until).0;
        RunNest(popped, next)
      else
        RunNest(pushed, next)
  }

  /** `base` is what an auction without a hash shows: the start price, which every snapshot has while
      nothing was bid.  No command's snapshot is above the price shown. */
  ghost predicate Backed(r: Redis, n: Nest, base: string -> int) {
    match n
    case Nothing => true
    case Bracket(c, _, inner, _, _, next) =>
      && 0 <= c.minIncrement
      && c.dbCurrent <= Shown(r, c.auction, base(c.auction)).price
      && (c.auction !in r.hashes ==> c.dbCurrent == base(c.auction))
      && Backed(r, inner, base) && Backed(r, next, base)
  }

  ghost predicate ShowsTheSame(r: Redis, q: Redis, base: string -> int) {
    && r.hashes.Keys <= q.hashes.Keys
    && forall a :: Shown(q, a, base(a)) == Shown(r, a, base(a))
  }

  /** Prices only need to stay at least as high for a nest to stay backed. */
  lemma {:induction false} BackedMonotone(r: Redis, q: Redis, n: Nest, base: string -> int)
    requires Backed(r, n, base) && r.hashes.Keys <= q.hashes.Keys
    requires forall a :: Shown(r, a, base(a)).price <= Shown(q, a, base(a)).price
    ensures Backed(q, n, base)
  {
    match n
    case Nothing =>
    case Bracket(c, _, inner, _, _, next) =>
      assert Shown(r, c.auction, base(c.auction)).price <= Shown(q, c.auction, base(c.auction)).price;
      BackedMonotone(r, q, inner, base);
      BackedMonotone(r, q, next, base);
  }

  /** When the keyspace again shows what the prepare left, the rejection shows what was there before it. */
  lemma RejectRestores(r: Redis, n: Nest, q: Redis, base: string -> int)
    requires n.Bracket? && Backed(r, n, base)
    requires PrepareScript(r, n.cmd, n.at).1.allowed && ShowsTheSame(PrepareScript(r, n.cmd, n.at).0, q, base)
    requires n.cmd.key in q.records && q.records[n.cmd.key] == PrepareScript(r, n.cmd, n.at).0.records[n.cmd.key]
    ensures ShowsTheSame(r, CompleteScript(q, Rejection(n.cmd, n.ttl), n.until).0, base)
  {
    var c := n.cmd;
    var pushed := PrepareScript(r, c, n.at).0;
    assert Shown(q, c.auction, base(c.auction)) == Shown(pushed, c.auction, base(c.auction));
    forall a
      ensures Shown(CompleteScript(q, Rejection(c, n.ttl), n.until).0, a, base(a)) == Shown(r, a, base(a))
    {
      assert Shown(q, a, base(a)) == Shown(pushed, a, base(a));
    }
  }

  /** Any properly nested run of prepares and rejections, at any times, over any auctions with or without
      a hash, and whatever keys or ids repeat, leaves every auction's price, bid and bidder and every
      earlier record as they were. */
  lemma {:induction false} NestedRunRestores(r: Redis, n: Nest, base: string -> int)
    requires Backed(r, n, base)
    ensures ShowsTheSame(r, RunNest(r, n), base)
    ensures forall k :: k in r.records ==> k in RunNest(r, n).records && RunNest(r, n).records[k] == r.records[k]
    decreases n, 0
  {
    match n
    case Nothing =>
    case Bracket(c, at, inner, until, ttl, next) =>
      var (pushed, reply) := PrepareScript(r, c, at);
      if reply.allowed {
        BackedMonotone(r, pushed, inner, base);
        NestedRunRestores(pushed, inner, base);
        var run := RunNest(pushed, inner);
        assert run.records[c.key] == pushed.records[c.key];
        RejectRestores(r, n, run, base);
        NestFollows(r, CompleteScript(run, Rejection(c, ttl), until).0, next, base);
      } else {
        NestFollows(r, pushed, next, base);
      }
  }

  /** The rest of a nest, run from a keyspace that shows the same. */
  lemma {:induction false} NestFollows(r: Redis, q: Redis, n: Nest, base: string -> int)
    requires Backed(r, n, base) && ShowsTheSame(r, q, base)
    requires forall k :: k in r.records ==> k in q.records && q.records[k] == r.records[k]
    ensures ShowsTheSame(r, RunNest(q, n), base)
    ensures forall k :: k in r.records ==> k in RunNest(q, n).records && RunNest(q, n).records[k] == r.records[k]
    decreases n, 1
  {
    BackedMonotone(r, q, n, base);
    NestedRunRestores(q, n, base);
  }

  /** Rejecting a bid that is no longer on top changes no auction's price, bid or bidder. */
  lemma BuriedRejectLeavesHash(r: Redis, c: CompleteCommand, nowMs: int, a: string)
    requires c.auction == a ==> !Pops(r, c)
    ensures Shown(CompleteScript(r, c, nowMs).0, a, 0) == Shown(r, a, 0)
  {
  }
}
