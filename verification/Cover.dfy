/**
 The winner's cover.  For one user and one auction: as long as that user has one bid in flight there at a
 time and nothing goes wrong with that user's own reservations there, every bid accepted from the user
 stays covered by an active reservation until the auction's end is delivered.  Everybody else, and the same
 user elsewhere, may do as they please.
 */
module Cover {
  import opened Options
  import opened BidTables
  import opened BidProtocol
  import opened Settlement
  import BidInvariant
  import BidTheorems
  import Ledger

  // ----- what the cover assumes of a run -----------------------------------------------------------------

  /** The user has one bid in flight at a time; a commit that follows a reserve succeeds; no reserve of the
      user's arrives after its timeout; no reservation of the user's is released from outside; and none is
      charged before the payment service has learnt of the auction's end. */
  datatype Clause = SingleFlight | CommitSucceeds | ReserveInTime | NoOutsideRelease | NoEarlyCharge

  ghost predicate StartsAlone(c: Core, e: Event, user: string, auction: string) {
    e.Begin? && e.user == user && e.auction == auction ==>
      forall q :: q in c.runs && Mine(c.runs[q], user, auction) ==> c.runs[q].pc.Finished?
  }

  predicate CommitsFine(c: Core, e: Event, user: string, auction: string) {
    e.Commit? && e.run in c.runs && Mine(c.runs[e.run], user, auction) ==> e.ok
  }

  ghost predicate Keeps(k: Clause, s: Sys, x: Action, user: string, auction: string) {
    match k
    case SingleFlight => CoreEvent(s, x).Some? ==> StartsAlone(s.core, CoreEvent(s, x).value, user, auction)
    case CommitSucceeds => CoreEvent(s, x).Some? ==> CommitsFine(s.core, CoreEvent(s, x).value, user, auction)
    case ReserveInTime => x.LateReserve? && x.run in s.core.runs ==> !Mine(s.core.runs[x.run], user, auction)
    case NoOutsideRelease => x.ReleaseMessage? ==> !Holds(s.book, x.id, user, auction)
    case NoEarlyCharge => x.ChargeMessage? ==> !Holds(s.book, x.id, user, auction) || auction in s.bus.delivered
  }

  /** The action keeps every clause but the excused ones. */
  ghost predicate Disciplined(s: Sys, x: Action, user: string, auction: string, excused: set<Clause>) {
    forall k :: k in excused || Keeps(k, s, x, user, auction)
  }

  ghost predicate DisciplinedRun(s: Sys, actions: seq<Action>, user: string, auction: string, excused: set<Clause>)
    decreases |actions|
  {
    actions != [] && CanDo(s, actions[0]) ==>
      && Disciplined(s, actions[0], user, auction, excused)
      && DisciplinedRun(Do(s, actions[0]), actions[1..], user, auction, excused)
  }

  /** Where a run leads that is disciplined for this user on this auction. */
  ghost predicate Reached(s: Sys, user: string, auction: string, excused: set<Clause>) {
    exists actions :: GoesTo(START, actions, s) && DisciplinedRun(START, actions, user, auction, excused)
  }

  /** The clauses an action of the bid protocol keeps. */
  ghost predicate OneFlight(c: Core, e: Event, user: string, auction: string) {
    StartsAlone(c, e, user, auction) && CommitsFine(c, e, user, auction)
  }

  // ----- order of the user's bids ----------------------------------------------------------------------------

  predicate OwesNothing(pc: Pc) {
    !pc.Releasing? && (pc.Completing? ==> !pc.release)
  }

  ghost predicate Alone(c: Core, user: string, auction: string) {
    forall p, q :: p in c.runs && q in c.runs && p != q
      && Mine(c.runs[p], user, auction) && Mine(c.runs[q], user, auction)
      ==> c.runs[p].pc.Finished? || c.runs[q].pc.Finished?
  }

  ghost predicate NoneOwes(c: Core, user: string, auction: string) {
    forall p :: p in c.runs && Mine(c.runs[p], user, auction) ==> OwesNothing(c.runs[p].pc)
  }

  ghost predicate NotOvertaken(runs: map<nat, Run>, log: seq<Entry>, user: string, i: nat, j: nat)
    requires i < |log| && j < |log|
  {
    log[i].user == user && log[i].bidId in runs && !runs[log[i].bidId].pc.Finished? ==> log[j].user != user
  }

  /** One run in flight, no run owing a release, and none overtaken in the log by a later bid of the user. */
  ghost predicate InOrder(c: Core, user: string, auction: string) {
    && Alone(c, user, auction) && NoneOwes(c, user, auction)
    && (forall i, j :: 0 <= i < j < |Hist(c, auction).log| ==> NotOvertaken(c.runs, Hist(c, auction).log, user, i, j))
  }

  lemma StepKeepsAlone(c: Core, e: Event, user: string, auction: string)
    requires BidProtocol.Enabled(c, e) && OneFlight(c, e, user, auction) && Alone(c, user, auction)
    ensures Alone(Step(c, e), user, auction)
  {
    StepIsSmall(c, e);
  }

  lemma CommitOwesNothing(c: Core, q: nat, p: nat)
    requires BidInvariant.Inv(c) && BidProtocol.Enabled(c, Commit(q, true)) && p in c.runs
    requires OwesNothing(c.runs[p].pc)
    ensures OwesNothing(Step(c, Commit(q, true)).runs[p].pc)
  {
    BidInvariant.CommitWrites(c, q);
  }

  lemma OtherCommitKeepsPc(c: Core, q: nat, ok: bool, p: nat)
    requires BidProtocol.Enabled(c, Commit(q, ok)) && p in c.runs && p != q
    ensures Step(c, Commit(q, ok)).runs[p] == c.runs[p]
  {
  }

  lemma CompleteOwesNothing(c: Core, e: Event, p: nat)
    requires BidProtocol.Enabled(c, e) && e.Complete? && p in c.runs && OwesNothing(c.runs[p].pc)
    ensures OwesNothing(Step(c, e).runs[p].pc)
  {
  }

  lemma PrepareOwesNothing(c: Core, e: Event, p: nat)
    requires BidProtocol.Enabled(c, e) && e.Prepare? && p in c.runs && OwesNothing(c.runs[p].pc)
    ensures OwesNothing(Step(c, e).runs[p].pc)
  {
  }

  lemma OwesNothingStays(c: Core, e: Event, p: nat)
    requires BidInvariant.Inv(c) && BidProtocol.Enabled(c, e) && p in c.runs && OwesNothing(c.runs[p].pc)
    requires e.Commit? && e.run == p ==> e.ok
    ensures OwesNothing(Step(c, e).runs[p].pc)
  {
    match e
    case Commit(q, ok) => if p == q { CommitOwesNothing(c, q, p); } else { OtherCommitKeepsPc(c, q, ok, p); }
    case Complete(_, _, _) => CompleteOwesNothing(c, e, p);
    case Prepare(_, _, _) => PrepareOwesNothing(c, e, p);
    case Check(_) =>
    case _ =>
  }

  lemma StepOwesNothing(c: Core, e: Event, user: string, auction: string, p: nat)
    requires BidInvariant.Inv(c) && BidProtocol.Enabled(c, e) && OneFlight(c, e, user, auction)
    requires NoneOwes(c, user, auction) && p in Step(c, e).runs && Mine(Step(c, e).runs[p], user, auction)
    ensures OwesNothing(Step(c, e).runs[p].pc)
  {
    StepIsSmall(c, e);
    if p in c.runs { OwesNothingStays(c, e, p); }
  }

  /** Only prepares make logs grow, by one bid of the preparing run. */
  lemma LogGrows(c: Core, e: Event, a: string)
    requires BidProtocol.Enabled(c, e)
    ensures var was, now := Hist(c, a).log, Hist(Step(c, e), a).log;
            now == was || (e.Prepare? && e.run in c.runs && c.runs[e.run].auction == a
                           && now == was + [Entry(e.run, c.runs[e.run].user, c.runs[e.run].amount)])
  {
    match e
    case Prepare(_, _, _) => PrepareLog(c, e, a);
    case Commit(_, _) =>
    case Complete(_, _, _) => CompleteLog(c, e, a);
    case _ =>
  }

  lemma PrepareLog(c: Core, e: Event, a: string)
    requires BidProtocol.Enabled(c, e) && e.Prepare?
    ensures var was, now := Hist(c, a).log, Hist(Step(c, e), a).log;
            now == was || (c.runs[e.run].auction == a
                           && now == was + [Entry(e.run, c.runs[e.run].user, c.runs[e.run].amount)])
  {
  }

  lemma CompleteLog(c: Core, e: Event, a: string)
    requires BidProtocol.Enabled(c, e) && e.Complete?
    ensures Hist(Step(c, e), a).log == Hist(c, a).log
  {
  }

  /** A log that keeps its entries or gains one, over runs of which only unfinished ones finish. */
  lemma LogOvertakesNone(runs: map<nat, Run>, next: map<nat, Run>, log: seq<Entry>, more: seq<Entry>,
                         user: string, i: nat, j: nat)
    requires i < j < |more| && i < |log| && log <= more
    requires log[i].bidId in runs && log[i].bidId in next
    requires runs[log[i].bidId].pc.Finished? ==> next[log[i].bidId].pc.Finished?
    requires j < |log| ==> NotOvertaken(runs, log, user, i, j)
    requires j == |log| && log[i].user == user && more[j].user == user ==> runs[log[i].bidId].pc.Finished?
    requires |more| <= |log| + 1
    ensures NotOvertaken(next, more, user, i, j)
  {
  }

  /** A run of the user being prepared has no other unfinished one beside it. */
  lemma PreparedAlone(c: Core, e: Event, user: string, auction: string, i: nat)
    requires BidInvariant.Inv(c) && BidProtocol.Enabled(c, e) && e.Prepare? && Alone(c, user, auction)
    requires i < |Hist(c, auction).log| && Hist(c, auction).log[i].user == user
    requires Mine(c.runs[e.run], user, auction)
    ensures Hist(c, auction).log[i].bidId in c.runs && c.runs[Hist(c, auction).log[i].bidId].pc.Finished?
  {
    assert BidInvariant.EntryOk(c.runs, auction, Hist(c, auction).log[i]);
  }

  lemma StepOvertakesNone(c: Core, e: Event, user: string, auction: string, i: nat, j: nat)
    requires BidInvariant.Inv(c) && BidProtocol.Enabled(c, e) && InOrder(c, user, auction)
    requires i < j < |Hist(Step(c, e), auction).log|
    ensures NotOvertaken(Step(c, e).runs, Hist(Step(c, e), auction).log, user, i, j)
  {
    var log, more := Hist(c, auction).log, Hist(Step(c, e), auction).log;
    StepIsSmall(c, e);
    LogGrows(c, e, auction);
    assert BidInvariant.EntryOk(c.runs, auction, log[i]);
    if j < |log| {
      assert NotOvertaken(c.runs, log, user, i, j);
    } else if log[i].user == user && more[j].user == user {
      PreparedAlone(c, e, user, auction, i);
    }
    LogOvertakesNone(c.runs, Step(c, e).runs, log, more, user, i, j);
  }

  lemma StepKeepsOrder(c: Core, e: Event, user: string, auction: string)
    requires BidInvariant.Inv(c) && BidProtocol.Enabled(c, e) && OneFlight(c, e, user, auction)
    requires InOrder(c, user, auction)
    ensures InOrder(Step(c, e), user, auction)
  {
    var d := Step(c, e);
    StepKeepsAlone(c, e, user, auction);
    forall p | p in d.runs && Mine(d.runs[p], user, auction)
      ensures OwesNothing(d.runs[p].pc)
    {
      StepOwesNothing(c, e, user, auction, p);
    }
    forall i, j | 0 <= i < j < |Hist(d, auction).log|
      ensures NotOvertaken(d.runs, Hist(d, auction).log, user, i, j)
    {
      StepOvertakesNone(c, e, user, auction, i, j);
    }
  }

  lemma NoneAfter(c: Core, user: string, auction: string, i: nat)
    requires InOrder(c, user, auction) && i < |Hist(c, auction).log| && Hist(c, auction).log[i].user == user
    requires Hist(c, auction).log[i].bidId in c.runs && !c.runs[Hist(c, auction).log[i].bidId].pc.Finished?
    ensures forall j :: i < j < |Hist(c, auction).log| ==> Hist(c, auction).log[j].user != user
  {
    forall j | i < j < |Hist(c, auction).log|
      ensures Hist(c, auction).log[j].user != user
    {
      assert NotOvertaken(c.runs, Hist(c, auction).log, user, i, j);
    }
  }

  /** A run about to reserve asks for at least every bid its user has had accepted on the auction. */
  lemma ReserveIsHighest(c: Core, p: nat, i: nat)
    requires p in c.runs && c.runs[p].pc.Validated?
    requires BidInvariant.Inv(c) && InOrder(c, c.runs[p].user, c.runs[p].auction)
    requires i < |c.db.bids| && c.db.bids[i].user == c.runs[p].user && c.db.bids[i].auction == c.runs[p].auction
    requires BidInvariant.Good(c.db.auctions, c.runs[p].auction)
    ensures c.db.bids[i].amount <= c.runs[p].amount
  {
    var r, b := c.runs[p], c.db.bids[i];
    var h := Hist(c, r.auction);
    assert BidInvariant.AuctionInv(c, r.auction);
    assert BidInvariant.RunOk(c.now, c.db, h, p, r);
    var sp :| 0 <= sp < |h.stack| && h.stack[sp] < |h.log| && h.log[h.stack[sp]].bidId == p;
    BidTheorems.BidIsOnStack(c, i);
    var sb :| 0 <= sb < |h.stack| && h.stack[sb] < |h.log| && h.log[h.stack[sb]] == Entry(b.id, b.user, b.amount);
    assert BidInvariant.EntryOk(c.runs, r.auction, h.log[h.stack[sp]]);
    NoneAfter(c, r.user, r.auction, h.stack[sp]);
    assert BidInvariant.Amount(h, sp) == r.amount && BidInvariant.Amount(h, sb) == b.amount;
  }

  // ----- what is owed cover ------------------------------------------------------------------------------------

  /** The user has a bid of this amount accepted on the auction, or reserved for and about to be. */
  ghost predicate Due(c: Core, user: string, auction: string, amount: int) {
    || (exists p :: p in c.runs && Mine(c.runs[p], user, auction) && c.runs[p].pc.Reserved?
                    && c.runs[p].amount == amount)
    || BidDue(c.db.bids, user, auction, amount)
  }

  ghost predicate BidDue(bids: seq<BidRow>, user: string, auction: string, amount: int) {
    exists i :: 0 <= i < |bids| && bids[i].user == user && bids[i].auction == auction && bids[i].amount == amount
  }

  ghost predicate AllCovered(s: Sys, user: string, auction: string) {
    auction !in s.bus.delivered && BidInvariant.Good(s.core.db.auctions, auction) ==>
      forall amount :: Due(s.core, user, auction, amount) ==> Covered(s.book, user, auction, amount)
  }

  /** No release on its way is of one of the user's runs on the auction. */
  ghost predicate ReleasesElsewhere(s: Sys, user: string, auction: string) {
    forall p :: p in s.bus.releases ==> p in s.core.runs && !Mine(s.core.runs[p], user, auction)
  }

  ghost predicate CoverInv(s: Sys, user: string, auction: string) {
    && SysOk(s) && InOrder(s.core, user, auction)
    && ReleasesElsewhere(s, user, auction)
    && AllCovered(s, user, auction)
  }

  /** What falls due at an action was due before, except that a reserve in time makes its own amount due. */
  lemma DueFollows(s: Sys, x: Action, user: string, auction: string, amount: int)
    requires SysOk(s) && CanDo(s, x) && Due(Do(s, x).core, user, auction, amount)
    ensures Due(s.core, user, auction, amount)
            || (x.AskReserve? && x.net == Delivered && x.run in s.core.runs
                && Mine(s.core.runs[x.run], user, auction) && s.core.runs[x.run].amount == amount)
  {
    if CoreEvent(s, x).Some? {
      var e := CoreEvent(s, x).value;
      StepIsSmall(s.core, e);
      if e.Commit? { CommitDue(s.core, e.run, e.ok, user, auction, amount); }
    }
  }

  lemma CommitDue(c: Core, p: nat, ok: bool, user: string, auction: string, amount: int)
    requires BidProtocol.Enabled(c, Commit(p, ok)) && Due(Step(c, Commit(p, ok)), user, auction, amount)
    ensures Due(c, user, auction, amount)
  {
    var d := Step(c, Commit(p, ok));
    StepIsSmall(c, Commit(p, ok));
    if BidDue(d.db.bids, user, auction, amount) {
      var i :| 0 <= i < |d.db.bids| && d.db.bids[i].user == user && d.db.bids[i].auction == auction
               && d.db.bids[i].amount == amount;
      if i < |c.db.bids| { assert c.db.bids[i] == d.db.bids[i]; }
    }
  }

  /** Whoever is due something is due it on an auction the tables know. */
  lemma DueIsKnown(c: Core, user: string, auction: string, amount: int)
    requires BidInvariant.Inv(c) && Due(c, user, auction, amount)
    ensures auction in c.db.auctions
  {
    if p :| p in c.runs && Mine(c.runs[p], user, auction) && c.runs[p].pc.Reserved? {
      assert BidInvariant.RunOk(c.now, c.db, Hist(c, c.runs[p].auction), p, c.runs[p]);
    } else {
      var i :| 0 <= i < |c.db.bids| && c.db.bids[i].auction == auction;
      assert BidInvariant.BidOk(c.db.auctions, c.runs, c.db.bids[i]);
    }
  }

  /** No disciplined action takes away a cover that is due, before the end is delivered. */
  lemma NothingUncovers(s: Sys, x: Action, user: string, auction: string, amount: int)
    requires CoverInv(s, user, auction) && CanDo(s, x) && Disciplined(s, x, user, auction, {})
    requires Due(s.core, user, auction, amount) && BidInvariant.Good(s.core.db.auctions, auction)
    requires auction !in NextBus(s.bus, x).delivered
    ensures !Uncovers(s, x, user, auction, amount)
  {
    if x.AskReserve? {
      AskedWhenValidated(s, x);
      ReserveIsEnough(s.core, x.run, user, auction, amount);
    } else if x.DeliverRelease? {
      OthersRelease(s, x.run, user, auction);
    } else {
      OthersDoNot(s, x, user, auction, amount);
    }
  }

  lemma OthersDoNot(s: Sys, x: Action, user: string, auction: string, amount: int)
    requires Disciplined(s, x, user, auction, {}) && !x.AskReserve? && !x.DeliverRelease?
    requires auction !in NextBus(s.bus, x).delivered
    ensures !Uncovers(s, x, user, auction, amount)
  {
    assert Keeps(ReserveInTime, s, x, user, auction) && Keeps(NoOutsideRelease, s, x, user, auction);
    assert Keeps(NoEarlyCharge, s, x, user, auction);
  }

  lemma OthersRelease(s: Sys, p: nat, user: string, auction: string)
    requires ReleasesElsewhere(s, user, auction) && p in s.bus.releases
    requires forall id :: id in s.book.reservations ==> BackedByRun(s.core.runs, id, s.book.reservations[id])
    ensures !Holds(s.book, p, user, auction)
  {
    if p in s.book.reservations { assert BackedByRun(s.core.runs, p, s.book.reservations[p]); }
  }

  lemma ReserveIsEnough(c: Core, p: nat, user: string, auction: string, amount: int)
    requires p in c.runs && c.runs[p].pc.Validated?
    requires BidInvariant.Inv(c) && InOrder(c, user, auction)
    requires Due(c, user, auction, amount) && BidInvariant.Good(c.db.auctions, auction)
    ensures !Undercuts(c.runs, p, user, auction, amount)
  {
    if Mine(c.runs[p], user, auction) {
      OnlyBidsAreDue(c, p, user, auction, amount);
      var i :| 0 <= i < |c.db.bids| && c.db.bids[i].user == user && c.db.bids[i].auction == auction
               && c.db.bids[i].amount == amount;
      ReserveIsHighest(c, p, i);
    }
  }

  /** With its own run about to reserve, the user has no other in flight. */
  lemma OnlyBidsAreDue(c: Core, p: nat, user: string, auction: string, amount: int)
    requires p in c.runs && c.runs[p].pc.Validated? && Mine(c.runs[p], user, auction)
    requires Alone(c, user, auction) && Due(c, user, auction, amount)
    ensures BidDue(c.db.bids, user, auction, amount)
  {
  }

  lemma DueStaysCovered(s: Sys, x: Action, user: string, auction: string, amount: int)
    requires CoverInv(s, user, auction) && CanDo(s, x) && Disciplined(s, x, user, auction, {})
    requires Due(s.core, user, auction, amount) && BidInvariant.Good(s.core.db.auctions, auction)
    requires auction !in NextBus(s.bus, x).delivered
    ensures Covered(NextBook(s, x), user, auction, amount)
  {
    NothingUncovers(s, x, user, auction, amount);
    UncoversExactly(s, x, user, auction, amount);
  }

  lemma ReserveMakesCovered(s: Sys, x: Action)
    requires SysOk(s) && CanDo(s, x) && x.AskReserve? && x.net == Delivered && x.run in s.core.runs
    ensures var r := s.core.runs[x.run]; Covered(NextBook(s, x), r.user, r.auction, r.amount)
  {
    var r := s.core.runs[x.run];
    AskedWhenValidated(s, x);
    NotReservedYet(s, x.run);
    ReserveCoversExactly(s.book, x.run, r.user, r.auction, r.amount, r.amount);
  }

  /** An action creates no auction under a name that something is due on. */
  lemma GoodBefore(s: Sys, x: Action, user: string, auction: string, amount: int)
    requires BidInvariant.Inv(s.core) && CanDo(s, x) && Due(s.core, user, auction, amount)
    requires BidInvariant.Good(NextCore(s, x).db.auctions, auction)
    ensures BidInvariant.Good(s.core.db.auctions, auction)
  {
    DueIsKnown(s.core, user, auction, amount);
    if CoreEvent(s, x).Some? { BidTheorems.StepAdvances(s.core, CoreEvent(s, x).value); }
  }

  lemma DoKeepsAllCovered(s: Sys, x: Action, user: string, auction: string)
    requires CoverInv(s, user, auction) && CanDo(s, x) && Disciplined(s, x, user, auction, {})
    ensures AllCovered(Do(s, x), user, auction)
  {
    var t := Do(s, x);
    if auction !in t.bus.delivered && BidInvariant.Good(t.core.db.auctions, auction) {
      forall amount | Due(t.core, user, auction, amount)
        ensures Covered(t.book, user, auction, amount)
      {
        DueFollows(s, x, user, auction, amount);
        if Due(s.core, user, auction, amount) {
          GoodBefore(s, x, user, auction, amount);
          DueStaysCovered(s, x, user, auction, amount);
        } else {
          ReserveMakesCovered(s, x);
        }
      }
    }
  }

  lemma DoKeepsReleases(s: Sys, x: Action, user: string, auction: string)
    requires ReleasesElsewhere(s, user, auction) && NoneOwes(s.core, user, auction) && CanDo(s, x)
    ensures ReleasesElsewhere(Do(s, x), user, auction)
  {
    if CoreEvent(s, x).Some? { StepIsSmall(s.core, CoreEvent(s, x).value); }
  }

  /** Every disciplined action keeps what is due covered, and whatever else the cover rests on. */
  lemma DoKeepsCover(s: Sys, x: Action, user: string, auction: string)
    requires CoverInv(s, user, auction) && CanDo(s, x) && Disciplined(s, x, user, auction, {})
    ensures CoverInv(Do(s, x), user, auction)
  {
    DoKeepsOk(s, x);
    if CoreEvent(s, x).Some? {
      assert Keeps(SingleFlight, s, x, user, auction) && Keeps(CommitSucceeds, s, x, user, auction);
      StepKeepsOrder(s.core, CoreEvent(s, x).value, user, auction);
    }
    DoKeepsReleases(s, x, user, auction);
    DoKeepsAllCovered(s, x, user, auction);
  }

  lemma {:induction false} RunKeepsCover(s: Sys, actions: seq<Action>, t: Sys, user: string, auction: string)
    requires CoverInv(s, user, auction) && GoesTo(s, actions, t) && DisciplinedRun(s, actions, user, auction, {})
    ensures CoverInv(t, user, auction)
    decreases |actions|
  {
    if actions != [] {
      DoKeepsCover(s, actions[0], user, auction);
      RunKeepsCover(Do(s, actions[0]), actions[1..], t, user, auction);
    }
  }

  lemma ReachedIsCovered(s: Sys, user: string, auction: string)
    requires Reached(s, user, auction, {})
    ensures CoverInv(s, user, auction)
  {
    Ledger.EmptyBookOk();
    BidInvariant.InitHolds();
    var actions :| GoesTo(START, actions, s) && DisciplinedRun(START, actions, user, auction, {});
    RunKeepsCover(START, actions, s, user, auction);
  }

  /** When the payment service first handles the end of an auction, the announced winner holds an active
      reservation of at least the winning bid, and still holds it afterwards, provided the run was
      disciplined for that winner on that auction. */
  lemma WinnerIsCovered(s: Sys, a: string)
    requires a in s.bus.ended && a !in s.bus.delivered && s.bus.ended[a].Some?
    requires Reached(s, s.bus.ended[a].value.user, a, {}) && BidInvariant.Good(s.core.db.auctions, a)
    ensures var row := s.bus.ended[a].value;
            && Covered(s.book, row.user, a, row.amount)
            && Covered(Ledger.AuctionEnded(s.book, a, row.user), row.user, a, row.amount)
  {
    var row := s.bus.ended[a].value;
    ReachedIsCovered(s, row.user, a);
    AnnouncedIsCovered(s, a, row);
    EndKeepsExactlyTheNamed(s.book, a, row.user, row.user, a, row.amount);
  }

  lemma AnnouncedIsCovered(s: Sys, a: string, row: BidRow)
    requires a in s.bus.ended && a !in s.bus.delivered && s.bus.ended[a] == Some(row)
    requires EndedOk(s.core.db.bids, s.bus.ended) && AllCovered(s, row.user, a)
    requires BidInvariant.Good(s.core.db.auctions, a)
    ensures Covered(s.book, row.user, a, row.amount)
  {
    var i :| 0 <= i < |s.core.db.bids| && s.core.db.bids[i] == row;
    assert BidDue(s.core.db.bids, row.user, a, row.amount);
    assert Due(s.core, row.user, a, row.amount);
  }
}
