/**
 The end of an auction: its announcement is made at most once and never changes, and when it stays true.  The
 source ends an auction while bids that were let in earlier are still under way, so a bid can be accepted after
 the winner has been announced, and beat the announced one.
 */
module Closing {
  import opened Options
  import opened BidTables
  import opened BidProtocol
  import opened Settlement
  import BidInvariant
  import opened Stages
  import BidTheorems
  import Ledger

  // ----- one announcement -------------------------------------------------------------------------------------

  /** Who is to be announced or has been is over, and nobody is both. */
  ghost predicate EndsOk(s: Sys) {
    forall a :: a in s.bus.ending || a in s.bus.ended ==>
      a in s.core.db.auctions && s.core.db.auctions[a].phase.Ended? && !(a in s.bus.ending && a in s.bus.ended)
  }

  lemma DoKeepsEnds(s: Sys, x: Action)
    requires EndsOk(s) && CanDo(s, x)
    ensures EndsOk(Do(s, x))
    ensures var d := NextBus(s.bus, x);
            forall a :: a in s.bus.ended ==> a in d.ended && d.ended[a] == s.bus.ended[a]
  {
    if CoreEvent(s, x).Some? { BidTheorems.StepAdvances(s.core, CoreEvent(s, x).value); }
    match x
    case EndAuction(a) => EndsNow(s, a);
    case _ =>
  }

  lemma EndsNow(s: Sys, a: string)
    requires CanDo(s, EndAuction(a))
    ensures a in s.core.db.auctions && s.core.db.auctions[a].phase.Active?
    ensures var d := NextCore(s, EndAuction(a)); a in d.db.auctions && d.db.auctions[a].phase.Ended?
  {
  }

  lemma {:induction false} RunKeepsEnds(s: Sys, actions: seq<Action>, t: Sys)
    requires EndsOk(s) && GoesTo(s, actions, t)
    ensures EndsOk(t)
    ensures forall a :: a in s.bus.ended ==> a in t.bus.ended && t.bus.ended[a] == s.bus.ended[a]
    decreases |actions|
  {
    if actions != [] {
      DoKeepsEnds(s, actions[0]);
      RunKeepsEnds(Do(s, actions[0]), actions[1..], t);
    }
  }

  lemma ReachableEnds(s: Sys)
    requires Arises(s)
    ensures EndsOk(s)
  {
    var actions :| GoesTo(START, actions, s);
    RunKeepsEnds(START, actions, s);
  }

  /** An announcement, once published, is never made again and never changes. */
  lemma AnnouncementIsFinal(s: Sys, actions: seq<Action>, t: Sys, a: string)
    requires Arises(s) && GoesTo(s, actions, t) && a in s.bus.ended
    ensures a in t.bus.ended && t.bus.ended[a] == s.bus.ended[a]
    ensures forall top, readOk, published :: !CanDo(t, Announce(a, top, readOk, published))
  {
    ReachableEnds(s);
    RunKeepsEnds(s, actions, t);
  }

  /** What is announced: the highest bid when it could be read, nobody when it could not, and nothing when
      publishing fails, and then never. */
  lemma AnnouncementTells(s: Sys, x: Action)
    requires Arises(s) && CanDo(s, x) && x.Announce?
    ensures var t := Do(s, x); var a := x.auction;
            && a !in s.bus.ended && a !in t.bus.ending && t.core == s.core && t.book == s.book
            && (a in t.bus.ended <==> x.published)
            && (x.published ==>
                  if x.readOk then IsHighest(s.core.db.bids, a, t.bus.ended[a]) else t.bus.ended[a] == None)
            && (forall b :: b != a ==>
                  && (b in t.bus.ended <==> b in s.bus.ended)
                  && (b in s.bus.ended ==> t.bus.ended[b] == s.bus.ended[b]))
  {
    ReachableEnds(s);
  }

  // ----- bids after the announcement --------------------------------------------------------------------------

  /** A commit on the auction of more than the winning bid. */
  predicate Beats(s: Sys, x: Action, a: string, top: Option<BidRow>) {
    && x.Own? && x.e.Commit? && x.e.ok && x.e.run in s.core.runs
    && s.core.runs[x.e.run].auction == a && (top.Some? ==> top.value.amount < s.core.runs[x.e.run].amount)
  }

  lemma OtherActionsLeaveBids(s: Sys, x: Action)
    requires CanDo(s, x) && !(x.Own? && x.e.Commit?)
    ensures NextCore(s, x).db.bids == s.core.db.bids
  {
    if CoreEvent(s, x).Some? { StepIsSmall(s.core, CoreEvent(s, x).value); }
  }

  lemma CommitAppends(s: Sys, p: nat, ok: bool)
    requires SysOk(s) && CanDo(s, Own(Commit(p, ok)))
    ensures var r := s.core.runs[p];
            NextCore(s, Own(Commit(p, ok))).db.bids
            == if ok then s.core.db.bids + [BidRow(p, r.auction, r.user, r.amount)] else s.core.db.bids
  {
    BidInvariant.CommitWrites(s.core, p);
    CommitIs(s.core, p, ok);
  }

  /** In every reachable state an action makes the announced highest bid, or nobody, untrue if and only if it is
      the successful commit of a higher bid on that auction. */
  lemma WinnerIsBeatenExactly(s: Sys, x: Action, a: string, top: Option<BidRow>)
    requires Arises(s) && CanDo(s, x) && IsHighest(s.core.db.bids, a, top)
    ensures IsHighest(NextCore(s, x).db.bids, a, top) <==> !Beats(s, x, a, top)
  {
    ReachableIsOk(s);
    if x.Own? && x.e.Commit? {
      CommitAppends(s, x.e.run, x.e.ok);
      var r := s.core.runs[x.e.run];
      if x.e.ok { HighestAfter(s.core.db.bids, BidRow(x.e.run, r.auction, r.user, r.amount), a, top); }
    } else {
      OtherActionsLeaveBids(s, x);
    }
  }

  lemma HighestAfter(bids: seq<BidRow>, row: BidRow, a: string, top: Option<BidRow>)
    requires IsHighest(bids, a, top)
    ensures IsHighest(bids + [row], a, top)
            <==> !(row.auction == a && (top.Some? ==> top.value.amount < row.amount))
  {
    assert (bids + [row])[|bids|] == row;
    if top.Some? { assert top.value in bids + [row]; }
  }

  /** The run may still get a bid accepted once its auction is over. */
  predicate UnderWay(r: Run, a: string) {
    && r.auction == a
    && ((r.pc.Loaded? && r.row.phase.Active?) || r.pc.Checked? || r.pc.Prepared? || r.pc.Validated? || r.pc.Reserved?)
  }

  /** The auction is over and no run that read it before is still on its way. */
  ghost predicate Quiet(c: Core, a: string) {
    && a in c.db.auctions && c.db.auctions[a].phase.Ended?
    && forall p :: p in c.runs ==> !UnderWay(c.runs[p], a)
  }

  lemma MoveKeepsQuiet(c: Core, p: nat, pc: Pc, a: string)
    requires Quiet(c, a) && p in c.runs && (UnderWay(c.runs[p].(pc := pc), a) ==> UnderWay(c.runs[p], a))
    ensures Quiet(Move(c, p, pc), a)
  {
  }

  /** A call to Redis or the database moves its run alone. */
  lemma CallKeepsQuiet(c: Core, e: Event, a: string)
    requires Quiet(c, a) && Enabled(c, e) && (e.Prepare? || e.Complete? || e.Commit?)
    ensures Quiet(Step(c, e), a)
  {
    BidTheorems.StepAdvances(c, e);
    var d := Step(c, e);
    assert d.runs == c.runs[e.run := c.runs[e.run].(pc := d.runs[e.run].pc)];
  }

  lemma OtherKeepsQuiet(c: Core, e: Event, a: string)
    requires Quiet(c, a) && Enabled(c, e)
    requires e.Tick? || e.CreateAuction? || e.Activate? || e.End? || e.Begin? || e.Load?
    ensures Quiet(Step(c, e), a)
  {
  }

  lemma StepKeepsQuiet(c: Core, e: Event, a: string)
    requires Quiet(c, a) && Enabled(c, e)
    ensures Quiet(Step(c, e), a)
  {
    match e
    case Prepare(_, _, _) => CallKeepsQuiet(c, e, a);
    case Complete(_, _, _) => CallKeepsQuiet(c, e, a);
    case Commit(_, _) => CallKeepsQuiet(c, e, a);
    case Check(p) => MoveKeepsQuiet(c, p, CheckStep(c, p).runs[p].pc, a);
    case Validate(p, answer) => MoveKeepsQuiet(c, p, AfterAnswer(answer, Validated), a);
    case Reserve(p, answer) => MoveKeepsQuiet(c, p, AfterAnswer(answer, Reserved), a);
    case Release(p) => MoveKeepsQuiet(c, p, Finished(Failed), a);
    case _ => OtherKeepsQuiet(c, e, a);
  }

  /** The later rows are of other auctions. */
  ghost predicate NoMore(bids: seq<BidRow>, more: seq<BidRow>, a: string) {
    bids <= more && forall i :: |bids| <= i < |more| ==> more[i].auction != a
  }

  /** Once an auction is over and quiet, its bids never change again, over any run of the whole system. */
  lemma {:induction false} QuietAuctionIsFinal(s: Sys, actions: seq<Action>, t: Sys, a: string)
    requires SysOk(s) && GoesTo(s, actions, t) && Quiet(s.core, a)
    ensures Quiet(t.core, a) && NoMore(s.core.db.bids, t.core.db.bids, a)
    ensures forall top :: IsHighest(s.core.db.bids, a, top) ==> IsHighest(t.core.db.bids, a, top)
    decreases |actions|
  {
    if actions != [] {
      DoKeepsOk(s, actions[0]);
      QuietAction(s, actions[0], a);
      QuietAuctionIsFinal(Do(s, actions[0]), actions[1..], t, a);
    }
    HighestStays(s.core.db.bids, t.core.db.bids, a);
  }

  lemma QuietAction(s: Sys, x: Action, a: string)
    requires SysOk(s) && CanDo(s, x) && Quiet(s.core, a)
    ensures Quiet(NextCore(s, x), a) && NoMore(s.core.db.bids, NextCore(s, x).db.bids, a)
  {
    if CoreEvent(s, x).Some? { StepKeepsQuiet(s.core, CoreEvent(s, x).value, a); }
    if x.Own? && x.e.Commit? {
      CommitAppends(s, x.e.run, x.e.ok);
    } else {
      OtherActionsLeaveBids(s, x);
    }
  }

  lemma HighestStays(bids: seq<BidRow>, more: seq<BidRow>, a: string)
    requires NoMore(bids, more, a)
    ensures forall top :: IsHighest(bids, a, top) ==> IsHighest(more, a, top)
  {
    forall top | IsHighest(bids, a, top)
      ensures IsHighest(more, a, top)
    {
      if top.Some? {
        var i :| 0 <= i < |bids| && bids[i] == top.value;
        assert more[i] == top.value;
      }
    }
  }

  // ----- bids that beat the announced winner ------------------------------------------------------------------

  /** Let through, not accepted yet, and higher than what was announced for its auction. */
  predicate Outbids(s: Sys, p: nat) {
    && p in s.core.runs && s.core.runs[p].auction in s.bus.ended
    && (s.core.runs[p].pc.Prepared? || s.core.runs[p].pc.Validated? || s.core.runs[p].pc.Reserved?)
    && var top := s.bus.ended[s.core.runs[p].auction]; top.Some? ==> top.value.amount < s.core.runs[p].amount
  }

  /** How many more answers the run needs before it commits. */
  function Left(pc: Pc): nat {
    if pc.Prepared? then 2 else if pc.Validated? then 1 else 0
  }

  lemma GetsValidated(s: Sys, p: nat) returns (x: Action, t: Sys)
    requires Outbids(s, p) && s.core.runs[p].pc.Prepared?
    ensures CanDo(s, x) && t == Do(s, x) && t.bus == s.bus && t.core == Move(s.core, p, Validated)
  {
    var r := s.core.runs[p];
    x := AskValidate(p, true, true, Some(r.amount + Ledger.ReservedFor(s.book, Ledger.Key(r.user, r.auction))));
    t := Do(s, x);
  }

  lemma GetsReserved(s: Sys, p: nat) returns (x: Action, t: Sys)
    requires Outbids(s, p) && s.core.runs[p].pc.Validated?
    ensures CanDo(s, x) && t == Do(s, x) && t.bus == s.bus && t.core == Move(s.core, p, Reserved)
  {
    x := AskReserve(p, Delivered, true);
    t := Do(s, x);
  }

  lemma GetsOn(s: Sys, p: nat) returns (x: Action, t: Sys)
    requires SysOk(s) && Outbids(s, p) && Left(s.core.runs[p].pc) > 0
    ensures CanDo(s, x) && t == Do(s, x) && SysOk(t) && t.bus == s.bus
    ensures Outbids(t, p) && t.core.runs[p].auction == s.core.runs[p].auction
    ensures Left(t.core.runs[p].pc) < Left(s.core.runs[p].pc)
  {
    if s.core.runs[p].pc.Prepared? { x, t := GetsValidated(s, p); } else { x, t := GetsReserved(s, p); }
    DoKeepsOk(s, x);
  }

  lemma GetsAccepted(s: Sys, p: nat) returns (t: Sys)
    requires SysOk(s) && Outbids(s, p) && s.core.runs[p].pc.Reserved?
    ensures GoesTo(s, [Own(Commit(p, true))], t) && t.bus == s.bus && Beaten(t, s.core.runs[p].auction)
  {
    var x, r := Own(Commit(p, true)), s.core.runs[p];
    CommitAppends(s, p, true);
    t := Do(s, x);
    assert GoesTo(t, [], t) && [x][1..] == [];
    assert t.core.db.bids[|s.core.db.bids|] == BidRow(p, r.auction, r.user, r.amount);
  }

  /** The announced winner is not the highest bidder. */
  ghost predicate Beaten(s: Sys, a: string) {
    a in s.bus.ended && !IsHighest(s.core.db.bids, a, s.bus.ended[a])
  }

  lemma OneMore(s: Sys, x: Action, actions: seq<Action>, t: Sys)
    requires CanDo(s, x) && GoesTo(Do(s, x), actions, t)
    ensures GoesTo(s, [x] + actions, t)
  {
    assert ([x] + actions)[1..] == actions;
  }

  /** Conversely, in any reachable state every run that was let through with more than the announced winner may
      yet be accepted, and then the announced winner, which stays, is not the highest bidder. */
  lemma {:induction false} LetThroughMayBeat(s: Sys, p: nat) returns (actions: seq<Action>, t: Sys)
    requires SysOk(s) && Outbids(s, p)
    ensures GoesTo(s, actions, t) && t.bus == s.bus && Beaten(t, s.core.runs[p].auction)
    decreases Left(s.core.runs[p].pc)
  {
    if s.core.runs[p].pc.Reserved? {
      t := GetsAccepted(s, p);
      actions := [Own(Commit(p, true))];
    } else {
      var x, next := GetsOn(s, p);
      actions, t := LetThroughMayBeat(next, p);
      OneMore(s, x, actions, t);
      actions := [x] + actions;
    }
  }

  /** For every user and auction there is a reachable state in which a bid accepted after the announcement beats
      the announced winner. */
  lemma LateBidBeatsWinner(user: string, a: string) returns (t: Sys)
    ensures Arises(t) && Beaten(t, a) && t.bus.ended[a].Some?
  {
    var s := EndsTooSoon(user, a);
    var actions :| GoesTo(START, actions, s);
    ReachableIsOk(s);
    var more;
    more, t := LetThroughMayBeat(s, 1);
    Joined(START, actions, s, more, t);
  }

  /** A bid of 1 is accepted, one of 2 is let through, and the auction ends and is announced. */
  lemma EndsTooSoon(user: string, a: string) returns (s: Sys)
    ensures Arises(s) && Outbids(s, 1) && s.core.runs[1].auction == a && s.bus.ended[a].Some?
  {
    s := Opens(user, a, 0, 1, {});
    s := Bids(s, 0, user, a, "", 1, {});
    assert |""| < |"x"|;
    s := ComesThrough(s, 1, user, a, "x", 2, {});
    s := Closes(s, user, a, 2, BidRow(0, a, user, 1), {});
  }

  lemma {:induction false} Joined(s: Sys, actions: seq<Action>, t: Sys, more: seq<Action>, u: Sys)
    requires GoesTo(s, actions, t) && GoesTo(t, more, u)
    ensures GoesTo(s, actions + more, u)
    decreases |actions|
  {
    if actions == [] {
      assert actions + more == more;
    } else {
      Joined(Do(s, actions[0]), actions[1..], t, more, u);
      assert (actions + more)[1..] == actions[1..] + more;
    }
  }
}
