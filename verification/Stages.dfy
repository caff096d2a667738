/**
 The stages of runs, one user's bids on one auction: what each leaves behind, and that it keeps the clauses of
 the winner's discipline that are not excused.
 */
module Stages {
  import opened Options
  import opened Numbers
  import opened RedisBids
  import opened BidTables
  import opened BidProtocol
  import opened Settlement
  import opened Cover
  import Ledger

  // ----- longer runs ---------------------------------------------------------------------------------------

  lemma {:induction false} GoesOn(
      s: Sys, actions: seq<Action>, t: Sys, x: Action, user: string, auction: string, excused: set<Clause>)
    requires GoesTo(s, actions, t) && DisciplinedRun(s, actions, user, auction, excused)
    requires CanDo(t, x) && Disciplined(t, x, user, auction, excused)
    ensures GoesTo(s, actions + [x], Do(t, x)) && DisciplinedRun(s, actions + [x], user, auction, excused)
    decreases |actions|
  {
    if actions == [] {
      assert [x][1..] == [];
    } else {
      GoesOn(Do(s, actions[0]), actions[1..], t, x, user, auction, excused);
      assert (actions + [x])[1..] == actions[1..] + [x];
    }
  }

  lemma ReachedOn(s: Sys, x: Action, user: string, auction: string, excused: set<Clause>)
    requires Reached(s, user, auction, excused) && CanDo(s, x) && Disciplined(s, x, user, auction, excused)
    ensures Reached(Do(s, x), user, auction, excused)
  {
    var actions :| GoesTo(START, actions, s) && DisciplinedRun(START, actions, user, auction, excused);
    GoesOn(START, actions, s, x, user, auction, excused);
  }

  /** An action no clause is about. */
  predicate Harmless(s: Sys, x: Action) {
    && !x.LateReserve? && !x.ReleaseMessage? && !x.ChargeMessage?
    && (CoreEvent(s, x).Some? ==> !CoreEvent(s, x).value.Begin? && !CoreEvent(s, x).value.Commit?)
  }

  lemma Goes(s: Sys, x: Action, user: string, auction: string, excused: set<Clause>) returns (t: Sys)
    requires Reached(s, user, auction, excused) && CanDo(s, x) && Harmless(s, x)
    ensures Reached(t, user, auction, excused) && t == Do(s, x)
  {
    ReachedOn(s, x, user, auction, excused);
    t := Do(s, x);
  }

  // ----- the stages of a bid ---------------------------------------------------------------------------------

  function Increment(s: Sys, a: string): int {
    if a in s.core.db.auctions then s.core.db.auctions[a].minIncrement else 0
  }

  /** The auction is on until 1, and neither its price nor what its hash shows is above `price`. */
  ghost predicate Open(s: Sys, a: string, price: int) {
    && s.core.now == 0 && a in s.core.db.auctions
    && s.core.db.auctions[a].phase == Active && s.core.db.auctions[a].endsAt == 1
    && s.core.db.auctions[a].currentPrice <= price
    && (a in s.core.redis.hashes ==> s.core.redis.hashes[a].price <= price)
  }

  lemma Opens(user: string, a: string, start: int, increment: int, ex: set<Clause>) returns (s: Sys)
    ensures Reached(s, user, a, ex) && Open(s, a, start)
    ensures s.core.db.auctions == map[a := Auction(start, start, increment, Active, 0, 1)]
    ensures s == START.(core := s.core) && s.core.runs == map[] && s.core.redis == Redis(map[], map[])
    ensures s.core.db.bids == []
  {
    s := START;
    assert GoesTo(START, [], START) && DisciplinedRun(START, [], user, a, ex);
    s := Goes(s, Own(CreateAuction(a, start, increment, 0, 1)), user, a, ex);
    s := Goes(s, Own(Activate(a)), user, a, ex);
  }

  lemma Begins(s: Sys, p: nat, user: string, a: string, request: string, amount: int, ex: set<Clause>) returns (t: Sys)
    requires Reached(s, user, a, ex) && p !in s.core.runs
    requires SingleFlight in ex
             || forall q :: q in s.core.runs && Mine(s.core.runs[q], user, a) ==> s.core.runs[q].pc.Finished?
    ensures Reached(t, user, a, ex)
    ensures t == s.(core := Step(s.core, Begin(p, user, a, request, amount)))
  {
    var x := Own(Begin(p, user, a, request, amount));
    ReachedOn(s, x, user, a, ex);
    t := Do(s, x);
  }

  lemma Loads(s: Sys, p: nat, user: string, a: string, request: string, amount: int, ex: set<Clause>) returns (t: Sys)
    requires Reached(s, user, a, ex) && a in s.core.db.auctions && p !in s.core.runs
    requires SingleFlight in ex
             || forall q :: q in s.core.runs && Mine(s.core.runs[q], user, a) ==> s.core.runs[q].pc.Finished?
    ensures Reached(t, user, a, ex)
    ensures t == s.(core := s.core.(runs :=
                   s.core.runs[p := Run(user, a, request, amount, s.core.db.auctions[a], Loaded)]))
  {
    t := Begins(s, p, user, a, request, amount, ex);
    t := Goes(t, Own(Load(p, true)), user, a, ex);
  }

  lemma Arrives(s: Sys, p: nat, user: string, a: string, request: string, amount: int, ex: set<Clause>) returns (t: Sys)
    requires Reached(s, user, a, ex) && Open(s, a, amount - Increment(s, a)) && p !in s.core.runs
    requires SingleFlight in ex
             || forall q :: q in s.core.runs && Mine(s.core.runs[q], user, a) ==> s.core.runs[q].pc.Finished?
    ensures Reached(t, user, a, ex)
    ensures t == s.(core := s.core.(runs :=
                   s.core.runs[p := Run(user, a, request, amount, s.core.db.auctions[a], Checked(0))]))
  {
    t := Loads(s, p, user, a, request, amount, ex);
    t := Goes(t, Own(Check(p)), user, a, ex);
  }

  /** What a prepare leaves behind for its run. */
  ghost predicate Recorded(redis: Redis, p: nat, r: Run) {
    && r.auction in redis.hashes && redis.hashes[r.auction].price <= r.amount
    && KeyOf(r) in redis.records && redis.records[KeyOf(r)].bidId == p
    && redis.records[KeyOf(r)].previous.Some?
    && redis.records[KeyOf(r)].previous.value.price <= r.amount - r.row.minIncrement
  }

  lemma Prepares(s: Sys, p: nat, user: string, a: string, ex: set<Clause>) returns (t: Sys)
    requires Reached(s, user, a, ex) && p in s.core.runs && Mine(s.core.runs[p], user, a)
    requires s.core.runs[p].pc == Checked(0) && KeyOf(s.core.runs[p]) !in s.core.redis.records
    requires Open(s, a, s.core.runs[p].amount - s.core.runs[p].row.minIncrement)
    requires s.core.runs[p].row.currentPrice + s.core.runs[p].row.minIncrement <= s.core.runs[p].amount
    ensures Reached(t, user, a, ex)
    ensures var r := s.core.runs[p].(pc := Prepared);
            && t == s.(core := s.core.(runs := s.core.runs[p := r], redis := t.core.redis, hist := t.core.hist))
            && Recorded(t.core.redis, p, r)
            && t.core.redis.records == s.core.redis.records[KeyOf(r) := t.core.redis.records[KeyOf(r)]]
  {
    t := Goes(s, Own(Prepare(p, Delivered, 0)), user, a, ex);
  }

  lemma Validates(s: Sys, p: nat, user: string, a: string, ex: set<Clause>) returns (t: Sys)
    requires Reached(s, user, a, ex) && p in s.core.runs && s.core.runs[p].pc == Prepared
    ensures Reached(t, user, a, ex) && t == s.(core := Move(s.core, p, Validated))
  {
    var r := s.core.runs[p];
    var wallet := r.amount + Ledger.ReservedFor(s.book, Ledger.Key(r.user, r.auction));
    t := Goes(s, AskValidate(p, true, true, Some(wallet)), user, a, ex);
  }

  lemma Reserves(s: Sys, p: nat, user: string, a: string, ex: set<Clause>) returns (t: Sys)
    requires Reached(s, user, a, ex) && p in s.core.runs && s.core.runs[p].pc == Validated
    ensures Reached(t, user, a, ex)
    ensures t == Sys(Move(s.core, p, Reserved), ReserveRun(s.book, p, s.core.runs[p]), s.bus)
  {
    t := Goes(s, AskReserve(p, Delivered, true), user, a, ex);
  }

  lemma Commits(s: Sys, p: nat, user: string, a: string, ok: bool, ex: set<Clause>) returns (t: Sys)
    requires Reached(s, user, a, ex) && p in s.core.runs && s.core.runs[p].pc == Reserved
    requires ok || CommitSucceeds in ex
    ensures Reached(t, user, a, ex) && t == s.(core := Step(s.core, Commit(p, ok)))
  {
    var x := Own(Commit(p, ok));
    ReachedOn(s, x, user, a, ex);
    t := Do(s, x);
  }

  lemma Finishes(s: Sys, p: nat, user: string, a: string, ex: set<Clause>) returns (t: Sys)
    requires Reached(s, user, a, ex) && p in s.core.runs && s.core.runs[p].pc.Completing? && s.core.now == 0
    requires Recorded(s.core.redis, p, s.core.runs[p])
    ensures Reached(t, user, a, ex)
    ensures var r := s.core.runs[p].(pc := AfterComplete(s.core.runs[p].pc, p));
            && t == s.(core := s.core.(runs := s.core.runs[p := r], redis := t.core.redis, hist := t.core.hist))
            && r.auction in t.core.redis.hashes && t.core.redis.records.Keys == s.core.redis.records.Keys
            && t.core.redis.hashes[r.auction].price
               <= if s.core.runs[p].pc.accepted then r.amount else Max(r.amount, r.amount - r.row.minIncrement)
  {
    t := Goes(s, Own(Complete(p, true, 0)), user, a, ex);
  }

  /** The run reads the auction, passes its checks and is let through. */
  lemma ComesThrough(s: Sys, p: nat, user: string, a: string, request: string, amount: int, ex: set<Clause>)
    returns (t: Sys)
    requires Reached(s, user, a, ex) && Open(s, a, amount - Increment(s, a)) && p !in s.core.runs
    requires IdemKey(user, request) !in s.core.redis.records
    requires forall q :: q in s.core.runs && Mine(s.core.runs[q], user, a) ==> s.core.runs[q].pc.Finished?
    ensures Reached(t, user, a, ex) && t.book == s.book && t.bus == s.bus
    ensures t.core.now == 0 && t.core.db == s.core.db
    ensures var r := Run(user, a, request, amount, s.core.db.auctions[a], Prepared);
            && t.core.runs == s.core.runs[p := r] && Recorded(t.core.redis, p, r)
            && t.core.redis.records.Keys == s.core.redis.records.Keys + {KeyOf(r)}
  {
    t := Arrives(s, p, user, a, request, amount, ex);
    t := Prepares(t, p, user, a, ex);
  }

  /** Then it has its funds confirmed. */
  lemma ComesToReserve(s: Sys, p: nat, user: string, a: string, request: string, amount: int, ex: set<Clause>)
    returns (t: Sys)
    requires Reached(s, user, a, ex) && Open(s, a, amount - Increment(s, a)) && p !in s.core.runs
    requires IdemKey(user, request) !in s.core.redis.records
    requires forall q :: q in s.core.runs && Mine(s.core.runs[q], user, a) ==> s.core.runs[q].pc.Finished?
    ensures Reached(t, user, a, ex) && t.book == s.book && t.bus == s.bus
    ensures t.core.now == 0 && t.core.db == s.core.db
    ensures var r := Run(user, a, request, amount, s.core.db.auctions[a], Validated);
            && t.core.runs == s.core.runs[p := r] && Recorded(t.core.redis, p, r)
            && t.core.redis.records.Keys == s.core.redis.records.Keys + {KeyOf(r)}
  {
    t := ComesThrough(s, p, user, a, request, amount, ex);
    t := Validates(t, p, user, a, ex);
  }

  lemma Funds(s: Sys, p: nat, user: string, a: string, request: string, amount: int, ex: set<Clause>) returns (t: Sys)
    requires Reached(s, user, a, ex) && Open(s, a, amount - Increment(s, a)) && p !in s.core.runs
    requires IdemKey(user, request) !in s.core.redis.records
    requires forall q :: q in s.core.runs && Mine(s.core.runs[q], user, a) ==> s.core.runs[q].pc.Finished?
    ensures Reached(t, user, a, ex) && Open(t, a, Max(amount, s.core.db.auctions[a].currentPrice))
    ensures t.book == Ledger.Reserve(s.book, p, user, a, amount) && t.bus == s.bus && t.core.db == s.core.db
    ensures var r := Run(user, a, request, amount, s.core.db.auctions[a], Reserved);
            && t.core.runs == s.core.runs[p := r] && Recorded(t.core.redis, p, r)
            && t.core.redis.records.Keys == s.core.redis.records.Keys + {KeyOf(r)}
  {
    t := ComesToReserve(s, p, user, a, request, amount, ex);
    t := Reserves(t, p, user, a, ex);
  }

  lemma CommitsAndFinishes(s: Sys, p: nat, user: string, a: string, ex: set<Clause>) returns (t: Sys)
    requires Reached(s, user, a, ex) && p in s.core.runs && s.core.runs[p].pc == Reserved
    requires s.core.runs[p].auction == a && a in s.core.db.auctions && s.core.db.auctions[a].phase == Active
    requires s.core.now == 0 && s.core.db.auctions[a].endsAt == 1
    requires !HasBid(s.core.db.bids, p) && Recorded(s.core.redis, p, s.core.runs[p])
    ensures Reached(t, user, a, ex)
    ensures Open(t, a, Max(s.core.runs[p].amount, s.core.db.auctions[a].currentPrice))
    ensures Increment(t, a) == Increment(s, a)
    ensures t.book == s.book && t.bus == s.bus
    ensures t.core.runs == s.core.runs[p := s.core.runs[p].(pc := Finished(Taken(p)))]
    ensures t.core.redis.records.Keys == s.core.redis.records.Keys
    ensures var r := s.core.runs[p]; t.core.db.bids == s.core.db.bids + [BidRow(p, r.auction, r.user, r.amount)]
  {
    CommitIs(s.core, p, true);
    t := Commits(s, p, user, a, true, ex);
    t := Finishes(t, p, user, a, ex);
  }

  /** A whole bid, start to finish, with everything going right. */
  lemma Bids(s: Sys, p: nat, user: string, a: string, request: string, amount: int, ex: set<Clause>) returns (t: Sys)
    requires Reached(s, user, a, ex) && Open(s, a, amount - Increment(s, a)) && p !in s.core.runs
    requires IdemKey(user, request) !in s.core.redis.records && !HasBid(s.core.db.bids, p)
    requires forall q :: q in s.core.runs && Mine(s.core.runs[q], user, a) ==> s.core.runs[q].pc.Finished?
    ensures Reached(t, user, a, ex) && Open(t, a, Max(amount, s.core.db.auctions[a].currentPrice))
    ensures Increment(t, a) == Increment(s, a)
    ensures t.book == Ledger.Reserve(s.book, p, user, a, amount) && t.bus == s.bus
    ensures t.core.runs == s.core.runs[p := Run(user, a, request, amount, s.core.db.auctions[a], Finished(Taken(p)))]
    ensures t.core.redis.records.Keys == s.core.redis.records.Keys + {IdemKey(user, request)}
    ensures t.core.db.bids == s.core.db.bids + [BidRow(p, a, user, amount)]
  {
    t := Funds(s, p, user, a, request, amount, ex);
    t := CommitsAndFinishes(t, p, user, a, ex);
  }

  // ----- the end of the auction ------------------------------------------------------------------------------

  /** The announced winner is this user, and the end has not been handled yet. */
  ghost predicate Announced(s: Sys, user: string, a: string) {
    && a in s.bus.ended && a !in s.bus.delivered
    && s.bus.ended[a].Some? && s.bus.ended[a].value.user == user
  }

  ghost predicate WinnerCovered(s: Sys, user: string, a: string)
    requires Announced(s, user, a)
  {
    Covered(s.book, user, a, s.bus.ended[a].value.amount)
  }

  lemma Ends(s: Sys, user: string, a: string, ex: set<Clause>) returns (t: Sys)
    requires Reached(s, user, a, ex) && a in s.core.db.auctions && s.core.db.auctions[a].phase == Active
    requires s.core.now == 0 && s.core.db.auctions[a].endsAt == 1
    ensures Reached(t, user, a, ex) && a in t.bus.ending && t.bus == s.bus.(ending := t.bus.ending)
    ensures t.book == s.book && t.core.db.bids == s.core.db.bids
    ensures a in t.core.db.auctions && Increment(t, a) == Increment(s, a) && t.core.runs == s.core.runs
  {
    t := Goes(s, Own(Tick(1)), user, a, ex);
    t := Goes(t, EndAuction(a), user, a, ex);
  }

  lemma Closes(s: Sys, user: string, a: string, price: int, row: BidRow, ex: set<Clause>) returns (t: Sys)
    requires Reached(s, user, a, ex) && Open(s, a, price) && a !in s.bus.delivered
    requires IsHighest(s.core.db.bids, a, Some(row)) && row.user == user
    ensures Reached(t, user, a, ex) && t.book == s.book
    ensures Announced(t, user, a) && t.bus.ended[a] == Some(row)
    ensures a in t.core.db.auctions && Increment(t, a) == Increment(s, a) && t.core.runs == s.core.runs
  {
    t := Ends(s, user, a, ex);
    t := Goes(t, Announce(a, Some(row), true, true), user, a, ex);
  }
}
