/**
 Nothing that the winner's cover rests on can be spared: no clause of the winner's discipline, each of which a
 run can break alone and leave the announced winner uncovered, nor that the increment is not negative.
 */
module Uncovered {
  import opened Options
  import opened RedisBids
  import opened BidTables
  import opened BidProtocol
  import opened Settlement
  import opened Cover
  import opened Stages
  import BidInvariant
  import Ledger

  // ----- the ledgers the runs end with -------------------------------------------------------------------------

  ghost function One(user: string, a: string): Ledger.Book {
    Ledger.Reserve(Ledger.EMPTY_BOOK, 0, user, a, 1)
  }

  lemma OneIsOk(user: string, a: string)
    ensures One(user, a).reservations.Keys == {0} && Ledger.OneActive(One(user, a))
    ensures Covered(One(user, a), user, a, 1) && Holds(One(user, a), 0, user, a)
  {
    ReserveCoversExactly(Ledger.EMPTY_BOOK, 0, user, a, 1, 1);
    Ledger.ReserveActives(Ledger.EMPTY_BOOK, 0, user, a, 1);
    Ledger.ReserveKeepsOneActive(Ledger.EMPTY_BOOK, 0, user, a, 1);
  }

  lemma FreedLeavesNothing(user: string, a: string)
    ensures !Covered(Ledger.Release(One(user, a), 0), user, a, 1)
    ensures !Covered(Ledger.Charge(One(user, a), 0), user, a, 1)
  {
    OneIsOk(user, a);
    ReleaseUncovers(One(user, a), 0, user, a, 1);
    ChargeUncovers(One(user, a), 0, user, a, 1);
  }

  lemma RaisedAndReleasedLeavesNothing(user: string, a: string)
    ensures !Covered(Ledger.Release(Ledger.Reserve(One(user, a), 1, user, a, 2), 1), user, a, 1)
  {
    OneIsOk(user, a);
    Ledger.ReserveKeepsOneActive(One(user, a), 1, user, a, 2);
    Ledger.ReserveActives(One(user, a), 1, user, a, 2);
    ReserveCoversExactly(One(user, a), 1, user, a, 2, 1);
    ReleaseUncovers(Ledger.Reserve(One(user, a), 1, user, a, 2), 1, user, a, 1);
  }

  lemma LoweredCoversLess(user: string, a: string)
    ensures !Covered(Ledger.Reserve(Ledger.Reserve(Ledger.EMPTY_BOOK, 1, user, a, 2), 0, user, a, 1), user, a, 2)
  {
    Ledger.ReserveActives(Ledger.EMPTY_BOOK, 1, user, a, 2);
    ReserveCoversExactly(Ledger.Reserve(Ledger.EMPTY_BOOK, 1, user, a, 2), 0, user, a, 1, 2);
  }

  // ----- one run for each clause -------------------------------------------------------------------------------

  lemma FirstBid(user: string, a: string, ex: set<Clause>) returns (t: Sys)
    ensures Reached(t, user, a, ex) && Open(t, a, 1) && Increment(t, a) == 1
    ensures t.book == One(user, a) && t.bus == START.bus && t.core.db.bids == [BidRow(0, a, user, 1)]
    ensures t.core.runs.Keys == {0} && t.core.runs[0].pc.Finished? && t.core.redis.records.Keys == {IdemKey(user, "")}
  {
    t := Opens(user, a, 0, 1, ex);
    t := Bids(t, 0, user, a, "", 1, ex);
  }

  lemma Frees(s: Sys, x: Action, user: string, a: string, k: Clause) returns (t: Sys)
    requires Reached(s, user, a, {k})
    requires (x == ReleaseMessage(0) && k == NoOutsideRelease) || (x == ChargeMessage(0) && k == NoEarlyCharge)
    ensures Reached(t, user, a, {k}) && t.core == s.core && t.bus == s.bus
    ensures t.book == if x.ReleaseMessage? then Ledger.Release(s.book, 0) else Ledger.Charge(s.book, 0)
  {
    ReachedOn(s, x, user, a, {k});
    t := Do(s, x);
  }

  /** One accepted bid, whose reservation is then ended by the given message. */
  lemma FreedTooEarly(user: string, a: string, x: Action, k: Clause) returns (t: Sys)
    requires (x == ReleaseMessage(0) && k == NoOutsideRelease) || (x == ChargeMessage(0) && k == NoEarlyCharge)
    ensures Reached(t, user, a, {k}) && Announced(t, user, a) && !WinnerCovered(t, user, a)
    ensures BidInvariant.Good(t.core.db.auctions, a)
  {
    t := FirstBid(user, a, {k});
    FreedLeavesNothing(user, a);
    t := Frees(t, x, user, a, k);
    t := Closes(t, user, a, 1, BidRow(0, a, user, 1), {k});
  }

  lemma Releases(s: Sys, p: nat, user: string, a: string, ex: set<Clause>) returns (t: Sys)
    requires Reached(s, user, a, ex) && p in s.core.runs && s.core.runs[p].pc == Releasing
    ensures Reached(t, user, a, ex) && t.core == Move(s.core, p, Finished(Failed))
    ensures t.book == Ledger.Release(s.book, p)
    ensures t.bus == s.bus.(releases := t.bus.releases)
  {
    t := Goes(s, PublishRelease(p, true), user, a, ex);
    t := Goes(t, DeliverRelease(p), user, a, ex);
  }

  /** A reserved run fails to commit, completes in Redis and has its reservation released. */
  lemma GivesUp(s: Sys, p: nat, user: string, a: string) returns (t: Sys)
    requires Reached(s, user, a, {CommitSucceeds}) && p in s.core.runs && s.core.runs[p].pc == Reserved
    requires Open(s, a, s.core.runs[p].amount) && s.core.runs[p].auction == a && s.core.runs[p].row.minIncrement == 1
    requires !HasBid(s.core.db.bids, p) && Recorded(s.core.redis, p, s.core.runs[p])
    ensures Reached(t, user, a, {CommitSucceeds}) && Open(t, a, s.core.runs[p].amount)
    ensures t.book == Ledger.Release(s.book, p) && t.core.db == s.core.db
    ensures t.bus == s.bus.(releases := t.bus.releases)
  {
    CommitIs(s.core, p, false);
    t := Commits(s, p, user, a, false, {CommitSucceeds});
    t := Finishes(t, p, user, a, {CommitSucceeds});
    t := Releases(t, p, user, a, {CommitSucceeds});
  }

  /** An accepted bid of 1; then one of 2 reserves, which frees the first, and fails to commit. */
  lemma FailsToCommit(user: string, a: string) returns (t: Sys)
    ensures Reached(t, user, a, {CommitSucceeds}) && Announced(t, user, a) && !WinnerCovered(t, user, a)
    ensures BidInvariant.Good(t.core.db.auctions, a)
  {
    t := FirstBid(user, a, {CommitSucceeds});
    assert |""| < |"x"|;
    t := Funds(t, 1, user, a, "x", 2, {CommitSucceeds});
    t := GivesUp(t, 1, user, a);
    RaisedAndReleasedLeavesNothing(user, a);
    t := Closes(t, user, a, 2, BidRow(0, a, user, 1), {CommitSucceeds});
  }

  /** A run whose reserve request is not delivered in time. */
  lemma TimesOut(s: Sys, p: nat, user: string, a: string, ex: set<Clause>) returns (t: Sys)
    requires Reached(s, user, a, ex) && p in s.core.runs && s.core.runs[p].pc == Validated && s.core.now == 0
    requires Recorded(s.core.redis, p, s.core.runs[p]) && s.core.runs[p].row.minIncrement == 1
    ensures Reached(t, user, a, ex) && t.book == s.book && t.bus == s.bus.(late := s.bus.late + {p})
    ensures var r := s.core.runs[p].(pc := Finished(Refused));
            && t.core == s.core.(runs := s.core.runs[p := r], redis := t.core.redis, hist := t.core.hist)
            && r.auction in t.core.redis.hashes && t.core.redis.hashes[r.auction].price <= r.amount
            && t.core.redis.records.Keys == s.core.redis.records.Keys
  {
    t := Goes(s, AskReserve(p, NotDelivered, true), user, a, ex);
    t := Finishes(t, p, user, a, ex);
  }

  lemma FirstTimesOut(user: string, a: string) returns (t: Sys)
    ensures Reached(t, user, a, {ReserveInTime}) && Open(t, a, 1) && Increment(t, a) == 1
    ensures t.book == Ledger.EMPTY_BOOK && t.bus == START.bus.(late := {0}) && t.core.db.bids == []
    ensures t.core.runs.Keys == {0} && t.core.runs[0].pc.Finished? && t.core.redis.records.Keys == {IdemKey(user, "")}
    ensures Mine(t.core.runs[0], user, a) && t.core.runs[0].amount == 1
  {
    t := Opens(user, a, 0, 1, {ReserveInTime});
    t := ComesToReserve(t, 0, user, a, "", 1, {ReserveInTime});
    t := TimesOut(t, 0, user, a, {ReserveInTime});
  }

  lemma ComesLate(s: Sys, user: string, a: string) returns (t: Sys)
    requires Reached(s, user, a, {ReserveInTime}) && 0 in s.bus.late && 0 in s.core.runs
    requires Mine(s.core.runs[0], user, a) && s.core.runs[0].amount == 1
    ensures Reached(t, user, a, {ReserveInTime}) && t.core == s.core && t.bus == s.bus.(late := t.bus.late)
    ensures t.book == Ledger.Reserve(s.book, 0, user, a, 1)
  {
    ReachedOn(s, LateReserve(0), user, a, {ReserveInTime});
    t := Do(s, LateReserve(0));
  }

  /** After a bid of 1 that timed out one of 2 is accepted; then the first reserve arrives. */
  lemma ReservesLate(user: string, a: string) returns (t: Sys)
    ensures Reached(t, user, a, {ReserveInTime}) && Announced(t, user, a) && !WinnerCovered(t, user, a)
    ensures BidInvariant.Good(t.core.db.auctions, a)
  {
    t := FirstTimesOut(user, a);
    assert |""| < |"x"|;
    t := Bids(t, 1, user, a, "x", 2, {ReserveInTime});
    t := ComesLate(t, user, a);
    LoweredCoversLess(user, a);
    t := Closes(t, user, a, 2, BidRow(1, a, user, 2), {ReserveInTime});
  }

  /** A bid of 1 and one of 2 are let through, one after the other. */
  lemma TwoPrepared(user: string, a: string) returns (t: Sys)
    ensures Reached(t, user, a, {SingleFlight}) && t.book == Ledger.EMPTY_BOOK && t.bus == START.bus
    ensures Open(t, a, 2) && Increment(t, a) == 1 && t.core.db.bids == []
    ensures t.core.runs.Keys == {0, 1} && Mine(t.core.runs[0], user, a) && Mine(t.core.runs[1], user, a)
    ensures t.core.runs[0].amount == 1 && t.core.runs[1].amount == 2
    ensures t.core.runs[0].pc == t.core.runs[1].pc == Prepared
  {
    t := Opens(user, a, 0, 1, {SingleFlight});
    t := Arrives(t, 0, user, a, "", 1, {SingleFlight});
    t := Arrives(t, 1, user, a, "x", 2, {SingleFlight});
    assert |""| < |"x"|;
    t := Prepares(t, 0, user, a, {SingleFlight});
    t := Prepares(t, 1, user, a, {SingleFlight});
  }

  lemma Pays(s: Sys, p: nat, user: string, a: string, ex: set<Clause>) returns (t: Sys)
    requires Reached(s, user, a, ex) && p in s.core.runs && s.core.runs[p].pc == Prepared
    ensures Reached(t, user, a, ex)
    ensures t == Sys(Move(s.core, p, Reserved), ReserveRun(s.book, p, s.core.runs[p]), s.bus)
  {
    t := Validates(s, p, user, a, ex);
    t := Reserves(t, p, user, a, ex);
  }

  lemma Writes(s: Sys, p: nat, user: string, a: string, ex: set<Clause>) returns (t: Sys)
    requires Reached(s, user, a, ex) && p in s.core.runs && s.core.runs[p].pc == Reserved
    requires s.core.runs[p].auction == a && Open(s, a, 2) && s.core.runs[p].amount <= 2
    requires !HasBid(s.core.db.bids, p)
    ensures Reached(t, user, a, ex) && Open(t, a, 2) && Increment(t, a) == Increment(s, a)
    ensures t.book == s.book && t.bus == s.bus
    ensures t.core.runs == s.core.runs[p := s.core.runs[p].(pc := Completing(true, false, false))]
    ensures var r := s.core.runs[p]; t.core.db.bids == s.core.db.bids + [BidRow(p, r.auction, r.user, r.amount)]
  {
    CommitIs(s.core, p, true);
    t := Commits(s, p, user, a, true, ex);
  }

  /** The higher of the two bids reserves first. */
  lemma BothPay(user: string, a: string) returns (t: Sys)
    ensures Reached(t, user, a, {SingleFlight}) && t.bus == START.bus && t.core.db.bids == []
    ensures Open(t, a, 2) && Increment(t, a) == 1
    ensures t.book == Ledger.Reserve(Ledger.Reserve(Ledger.EMPTY_BOOK, 1, user, a, 2), 0, user, a, 1)
    ensures t.core.runs.Keys == {0, 1} && Mine(t.core.runs[0], user, a) && Mine(t.core.runs[1], user, a)
    ensures t.core.runs[0].amount == 1 && t.core.runs[1].amount == 2
    ensures t.core.runs[0].pc == t.core.runs[1].pc == Reserved
  {
    t := TwoPrepared(user, a);
    t := Pays(t, 1, user, a, {SingleFlight});
    t := Pays(t, 0, user, a, {SingleFlight});
  }

  lemma HigherWrites(user: string, a: string) returns (t: Sys)
    ensures Reached(t, user, a, {SingleFlight}) && t.bus == START.bus && Open(t, a, 2) && Increment(t, a) == 1
    ensures t.book == Ledger.Reserve(Ledger.Reserve(Ledger.EMPTY_BOOK, 1, user, a, 2), 0, user, a, 1)
    ensures t.core.db.bids == [BidRow(1, a, user, 2)]
    ensures 0 in t.core.runs && Mine(t.core.runs[0], user, a) && t.core.runs[0].amount == 1
    ensures t.core.runs[0].pc == Reserved
  {
    t := BothPay(user, a);
    t := Writes(t, 1, user, a, {SingleFlight});
  }

  lemma BothWrite(user: string, a: string) returns (t: Sys)
    ensures Reached(t, user, a, {SingleFlight}) && t.bus == START.bus && Open(t, a, 2) && Increment(t, a) == 1
    ensures t.book == Ledger.Reserve(Ledger.Reserve(Ledger.EMPTY_BOOK, 1, user, a, 2), 0, user, a, 1)
    ensures t.core.db.bids == [BidRow(1, a, user, 2), BidRow(0, a, user, 1)]
  {
    t := HigherWrites(user, a);
    t := Writes(t, 0, user, a, {SingleFlight});
  }

  lemma FliesTwice(user: string, a: string) returns (t: Sys)
    ensures Reached(t, user, a, {SingleFlight}) && Announced(t, user, a) && !WinnerCovered(t, user, a)
    ensures BidInvariant.Good(t.core.db.auctions, a)
  {
    t := BothWrite(user, a);
    LoweredCoversLess(user, a);
    assert IsHighest(t.core.db.bids, a, Some(t.core.db.bids[0]));
    t := Closes(t, user, a, 2, BidRow(1, a, user, 2), {SingleFlight});
  }

  /** For every clause there is a run that keeps all the others and leaves the winner uncovered. */
  lemma EachClauseIsNeeded(k: Clause, user: string, a: string) returns (s: Sys)
    ensures Reached(s, user, a, {k}) && Announced(s, user, a) && !WinnerCovered(s, user, a)
    ensures BidInvariant.Good(s.core.db.auctions, a)
  {
    match k
    case SingleFlight => s := FliesTwice(user, a);
    case CommitSucceeds => s := FailsToCommit(user, a);
    case ReserveInTime => s := ReservesLate(user, a);
    case NoOutsideRelease => s := FreedTooEarly(user, a, ReleaseMessage(0), k);
    case NoEarlyCharge => s := FreedTooEarly(user, a, ChargeMessage(0), k);
  }

  lemma {:induction false} ExcusedMore(
      s: Sys, actions: seq<Action>, user: string, a: string, few: set<Clause>, more: set<Clause>)
    requires DisciplinedRun(s, actions, user, a, few) && few <= more
    ensures DisciplinedRun(s, actions, user, a, more)
    decreases |actions|
  {
    if actions != [] && CanDo(s, actions[0]) {
      ExcusedMore(Do(s, actions[0]), actions[1..], user, a, few, more);
    }
  }

  /** The announced winner is covered in every run that keeps the clauses not excused if and only if none
      is excused. */
  lemma DisciplineIsExact(excused: set<Clause>, user: string, a: string)
    ensures (forall s ::
               (Reached(s, user, a, excused) && Announced(s, user, a) && BidInvariant.Good(s.core.db.auctions, a))
               ==> WinnerCovered(s, user, a))
            <==> excused == {}
  {
    if excused == {} {
      forall s | Reached(s, user, a, excused) && Announced(s, user, a) && BidInvariant.Good(s.core.db.auctions, a)
        ensures WinnerCovered(s, user, a)
      {
        WinnerIsCovered(s, a);
      }
    } else {
      var k :| k in excused;
      var s := EachClauseIsNeeded(k, user, a);
      var actions :| GoesTo(START, actions, s) && DisciplinedRun(START, actions, user, a, {k});
      ExcusedMore(START, actions, user, a, {k}, excused);
    }
  }

  // ----- negative increments ------------------------------------------------------------------------------------

  predicate HasIncrement(s: Sys, a: string, increment: int) {
    a in s.core.db.auctions && s.core.db.auctions[a].minIncrement == increment
  }

  ghost function High(user: string, a: string, amount: int): Ledger.Book {
    Ledger.Reserve(Ledger.EMPTY_BOOK, 0, user, a, amount)
  }

  lemma BidsHigh(increment: int, user: string, a: string) returns (t: Sys)
    requires increment < 0
    ensures Reached(t, user, a, {}) && Open(t, a, -3 * increment) && HasIncrement(t, a, increment)
    ensures t.book == High(user, a, -3 * increment) && t.bus == START.bus
    ensures t.core.db.bids == [BidRow(0, a, user, -3 * increment)]
    ensures t.core.runs.Keys == {0} && t.core.runs[0].pc.Finished? && t.core.redis.records.Keys == {IdemKey(user, "")}
  {
    t := Opens(user, a, -3 * increment, increment, {});
    t := Bids(t, 0, user, a, "", -3 * increment, {});
  }

  lemma BidsLow(increment: int, user: string, a: string) returns (t: Sys)
    requires increment < 0
    ensures Reached(t, user, a, {}) && Open(t, a, -3 * increment) && HasIncrement(t, a, increment)
    ensures t.book == Ledger.Reserve(High(user, a, -3 * increment), 1, user, a, -2 * increment) && t.bus == START.bus
    ensures t.core.db.bids == [BidRow(0, a, user, -3 * increment), BidRow(1, a, user, -2 * increment)]
  {
    t := BidsHigh(increment, user, a);
    assert |""| < |"x"|;
    assert !HasBid(t.core.db.bids, 1);
    t := Bids(t, 1, user, a, "x", -2 * increment, {});
  }

  /** With a negative increment a user may follow an accepted bid by a lower one, whose reserve frees the
      first one's: everything in order, and the winner not covered. */
  lemma UndercutsOwnBid(increment: int, user: string, a: string) returns (t: Sys)
    requires increment < 0
    ensures Reached(t, user, a, {}) && Announced(t, user, a) && !WinnerCovered(t, user, a)
    ensures HasIncrement(t, a, increment)
  {
    t := BidsLow(increment, user, a);
    Ledger.ReserveActives(Ledger.EMPTY_BOOK, 0, user, a, -3 * increment);
    ReserveCoversExactly(High(user, a, -3 * increment), 1, user, a, -2 * increment, -3 * increment);
    assert IsHighest(t.core.db.bids, a, Some(t.core.db.bids[0]));
    t := Closes(t, user, a, -3 * increment, BidRow(0, a, user, -3 * increment), {});
  }

  /** The announced winner of an auction is covered in every disciplined run if and only if the auction's
      increment is not negative. */
  lemma IncrementIsExact(increment: int, user: string, a: string)
    ensures (forall s ::
               (Reached(s, user, a, {}) && Announced(s, user, a) && HasIncrement(s, a, increment))
               ==> WinnerCovered(s, user, a))
            <==> 0 <= increment
  {
    if increment < 0 {
      var s := UndercutsOwnBid(increment, user, a);
    } else {
      forall s | Reached(s, user, a, {}) && Announced(s, user, a) && HasIncrement(s, a, increment)
        ensures WinnerCovered(s, user, a)
      {
        WinnerIsCovered(s, a);
      }
    }
  }
}
