/**
 The auction scheduler of internal/bidding/service.go: one pass activates the pending auctions whose
 start has come and ends the active ones whose end has come, and announces both.

 `published` lists the publish attempts; whether the message broker takes them is not followed here.
 A single scheduler runs, one pass after the other; what it does to the tables is a path of the bid
 protocol's own lifecycle steps.
 */
module Scheduler {
  import opened Options
  import opened BidTables
  import BidProtocol

  datatype Notice = StartedNotice(auction: string) | EndedNotice(auction: string, winner: Option<BidRow>)

  /** The notices about one auction, in order. */
  function About(notices: seq<Notice>, id: string): seq<Notice> {
    if notices == [] then []
    else
      var rest := About(notices[..|notices| - 1], id);
      if notices[|notices| - 1].auction == id then rest + [notices[|notices| - 1]] else rest
  }

  lemma AboutAppend(notices: seq<Notice>, n: Notice, id: string)
    ensures About(notices + [n], id) == if n.auction == id then About(notices, id) + [n] else About(notices, id)
  {
    assert (notices + [n])[..|notices|] == notices;
  }

  /** Which failures a pass meets: a failed query, and the ids whose row cannot be read or updated. */
  datatype Faults = Faults(
    firstQuery: bool, secondQuery: bool, activate: set<string>, end: set<string>, highest: set<string>)

  function Activated(a: Auction, failed: bool, now: nat): Auction {
    if a.phase.Pending? && a.startsAt <= now && !failed then a.(phase := Active) else a
  }

  function Closed(a: Auction, failed: bool, now: nat): Auction {
    if a.phase.Active? && a.endsAt <= now && !failed then a.(phase := Ended) else a
  }

  /** What a pass makes of one auction: a failed first query skips the second loop too. */
  function AfterPass(a: Auction, id: string, f: Faults, now: nat): Auction {
    if f.firstQuery then a
    else
      var b := Activated(a, id in f.activate, now);
      if f.secondQuery then b else Closed(b, id in f.end, now)
  }

  /** The announcements so far fit the auction's phase: one start, then one end, and nothing else. */
  ghost predicate Announced(notices: seq<Notice>, id: string, phase: Phase) {
    match phase
    case Pending => About(notices, id) == []
    case Active => About(notices, id) == [StartedNotice(id)]
    case Ended =>
      && |About(notices, id)| == 2
      && About(notices, id)[0] == StartedNotice(id) && About(notices, id)[1].EndedNotice?
  }

  /** The winner the end of an auction was announced with. */
  function WinnerOf(notices: seq<Notice>, id: string): Option<BidRow> {
    var about := About(notices, id);
    if |about| == 2 && about[1].EndedNotice? then about[1].winner else None
  }

  /** The end was announced with the highest bid, or with nobody when reading it failed. */
  ghost predicate ToldHighest(bids: seq<BidRow>, notices: seq<Notice>, id: string, readFails: bool) {
    if readFails then WinnerOf(notices, id) == None else IsHighest(bids, id, WinnerOf(notices, id))
  }

  /** Where the first loop stands: the auctions of `todo` are due and untouched, the others are done. */
  ghost predicate StartingSoFar(
      was: map<string, Auction>, becomes: map<string, Auction>, earlier: seq<Notice>, notices: seq<Notice>,
      todo: set<string>, f: Faults, now: nat)
  {
    && becomes.Keys == was.Keys && todo <= was.Keys && earlier <= notices
    && (forall id :: id in todo ==> becomes[id] == was[id] && was[id].phase.Pending? && was[id].startsAt <= now)
    && (forall id :: id in was && id !in todo ==> becomes[id] == Activated(was[id], id in f.activate, now))
    && (forall id :: id in was && becomes[id] == was[id] ==> About(notices, id) == About(earlier, id))
  }

  lemma OneStarted(
      was: map<string, Auction>, becomes: map<string, Auction>, earlier: seq<Notice>, notices: seq<Notice>,
      more: seq<Notice>, todo: set<string>, id: string, f: Faults, now: nat)
    requires StartingSoFar(was, becomes, earlier, notices, todo, f, now) && id in todo && id !in f.activate
    requires notices <= more && forall x :: x != id ==> About(more, x) == About(notices, x)
    ensures StartingSoFar(was, becomes[id := becomes[id].(phase := Active)], earlier, more, todo - {id}, f, now)
  {
  }

  /** What the second loop does with one auction and says about it. */
  ghost predicate EndOutcome(
      was: Auction, becomes: Auction, earlier: seq<Notice>, notices: seq<Notice>, bids: seq<BidRow>, id: string,
      f: Faults, now: nat)
  {
    && becomes == Closed(was, id in f.end, now)
    && (becomes == was ==> About(notices, id) == About(earlier, id))
    && (becomes != was ==> ToldHighest(bids, notices, id, id in f.highest))
  }

  /** Where the second loop stands: the auctions of `todo` are due and untouched, the others are done. */
  ghost predicate EndingSoFar(
      was: map<string, Auction>, becomes: map<string, Auction>, earlier: seq<Notice>, notices: seq<Notice>,
      bids: seq<BidRow>, todo: set<string>, f: Faults, now: nat)
  {
    && becomes.Keys == was.Keys && todo <= was.Keys && earlier <= notices
    && (forall id :: id in todo ==>
          && becomes[id] == was[id] && was[id].phase.Active? && was[id].endsAt <= now
          && About(notices, id) == About(earlier, id))
    && (forall id :: id in was && id !in todo ==>
          EndOutcome(was[id], becomes[id], earlier, notices, bids, id, f, now))
  }

  lemma OneEnded(
      was: map<string, Auction>, becomes: map<string, Auction>, earlier: seq<Notice>, notices: seq<Notice>,
      more: seq<Notice>, bids: seq<BidRow>, todo: set<string>, id: string, f: Faults, now: nat)
    requires EndingSoFar(was, becomes, earlier, notices, bids, todo, f, now) && id in todo && id !in f.end
    requires notices <= more && forall x :: x != id ==> About(more, x) == About(notices, x)
    requires ToldHighest(bids, more, id, id in f.highest)
    ensures EndingSoFar(was, becomes[id := becomes[id].(phase := Ended)], earlier, more, bids, todo - {id}, f, now)
  {
    var next := becomes[id := becomes[id].(phase := Ended)];
    forall x | x in was && x !in todo - {id}
      ensures EndOutcome(was[x], next[x], earlier, more, bids, x, f, now)
    {
      if x != id { assert EndOutcome(was[x], becomes[x], earlier, notices, bids, x, f, now); }
    }
  }

  lemma OneSkipped(
      was: map<string, Auction>, becomes: map<string, Auction>, earlier: seq<Notice>, notices: seq<Notice>,
      bids: seq<BidRow>, todo: set<string>, id: string, f: Faults, now: nat)
    requires EndingSoFar(was, becomes, earlier, notices, bids, todo, f, now) && id in todo && id in f.end
    ensures EndingSoFar(was, becomes, earlier, notices, bids, todo - {id}, f, now)
  {
    forall x | x in was && x !in todo - {id}
      ensures EndOutcome(was[x], becomes[x], earlier, notices, bids, x, f, now)
    {
    }
  }

  /** Every auction's announcements fit its phase, and no others were made. */
  ghost predicate Fits(auctions: map<string, Auction>, notices: seq<Notice>) {
    && (forall id :: id in auctions ==> Announced(notices, id, auctions[id].phase))
    && (forall id :: id !in auctions ==> About(notices, id) == [])
  }

  /** The next phase comes with its announcement. */
  lemma MoveFits(auctions: map<string, Auction>, notices: seq<Notice>, more: seq<Notice>, id: string, n: Notice)
    requires Fits(auctions, notices) && id in auctions && n.auction == id
    requires if n.StartedNotice? then auctions[id].phase.Pending? else auctions[id].phase.Active?
    requires About(more, id) == About(notices, id) + [n]
    requires forall x :: x != id ==> About(more, x) == About(notices, x)
    ensures Fits(auctions[id := auctions[id].(phase := if n.StartedNotice? then Active else Ended)], more)
  {
    assert Announced(notices, id, auctions[id].phase);
  }

  class Scheduler {
    var auctions: map<string, Auction>
    var bids: seq<BidRow>
    var published: seq<Notice>

    ghost predicate Valid()
      reads this
    {
      Fits(auctions, published)
    }

    constructor ()
      ensures Valid() && auctions == map[] && bids == [] && published == []
    {
      auctions, bids, published := map[], [], [];
    }

    /** ListenAuctionCreated: a new auction is pending at its start price; a known id is refused. */
    method CreateAuction(id: string, start: int, increment: int, startsAt: nat, endsAt: nat)
      requires Valid()
      modifies this`auctions
      ensures Valid() && auctions == WithAuction(old(auctions), id, start, increment, startsAt, endsAt)
      ensures forall x :: x in auctions <==> x == id || x in old(auctions)
      ensures forall x :: x in old(auctions) ==> auctions[x] == old(auctions)[x]
      ensures id !in old(auctions) ==>
                && auctions[id].phase.Pending? && auctions[id].startPrice == auctions[id].currentPrice == start
                && auctions[id].minIncrement == increment
                && auctions[id].startsAt == startsAt && auctions[id].endsAt == endsAt
    {
      if id !in auctions {
        auctions := auctions[id := Auction(start, start, increment, Pending, startsAt, endsAt)];
      }
    }

    /** The first loop: `todo` are the rows of its query. */
    method ActivateDue(now: nat, f: Faults)
      requires Valid()
      modifies this`auctions, this`published
      ensures Valid() && auctions == AllActivated(old(auctions), f, now) && old(published) <= published
      ensures forall id :: id in auctions && auctions[id] == old(auctions)[id] ==>
                About(published, id) == About(old(published), id)
    {
      ghost var was, earlier := auctions, published;
      var todo := set id | id in auctions && auctions[id].phase.Pending? && auctions[id].startsAt <= now;
      while todo != {}
        invariant Valid() && StartingSoFar(was, auctions, earlier, published, todo, f, now)
        decreases todo
      {
        var id :| id in todo;
        if id !in f.activate {
          ghost var before, notices := auctions, published;
          MarkActive(id);
          OneStarted(was, before, earlier, notices, published, todo, id, f, now);
        }
        todo := todo - {id};
      }
    }

    method MarkActive(id: string)
      requires Valid() && id in auctions && auctions[id].phase.Pending?
      modifies this`auctions, this`published
      ensures Valid() && auctions == old(auctions)[id := old(auctions)[id].(phase := Active)]
      ensures old(published) <= published && forall x :: x != id ==> About(published, x) == About(old(published), x)
    {
      auctions := auctions[id := auctions[id].(phase := Active)];
      Publish(StartedNotice(id));
      MoveFits(old(auctions), old(published), published, id, StartedNotice(id));
    }

    /** The update, then the read of the highest bid, then the announcement. */
    method MarkEnded(id: string, readFails: bool)
      requires Valid() && id in auctions && auctions[id].phase.Active?
      modifies this`auctions, this`published
      ensures Valid() && auctions == old(auctions)[id := old(auctions)[id].(phase := Ended)]
      ensures old(published) <= published && forall x :: x != id ==> About(published, x) == About(old(published), x)
      ensures ToldHighest(bids, published, id, readFails)
    {
      auctions := auctions[id := auctions[id].(phase := Ended)];
      var top := ReadHighest(id, readFails);
      Publish(EndedNotice(id, top));
      MoveFits(old(auctions), old(published), published, id, EndedNotice(id, top));
    }

    method Publish(n: Notice)
      modifies this`published
      ensures published == old(published) + [n]
      ensures forall id :: About(published, id)
                        == About(old(published), id) + if n.auction == id then [n] else []
    {
      published := published + [n];
      forall id
        ensures About(published, id) == About(old(published), id) + if n.auction == id then [n] else []
      {
        AboutAppend(old(published), n, id);
      }
    }

    /** The highest bid, or nothing when the read fails. */
    method ReadHighest(id: string, failed: bool) returns (top: Option<BidRow>)
      ensures if failed then top == None else IsHighest(bids, id, top)
    {
      top := None;
      if !failed {
        top := HighestOf(bids, id);
      }
    }

    /** The second loop. */
    method EndDue(now: nat, f: Faults)
      requires Valid()
      modifies this`auctions, this`published
      ensures Valid() && auctions.Keys == old(auctions).Keys && old(published) <= published
      ensures forall id :: id in auctions ==>
                EndOutcome(old(auctions)[id], auctions[id], old(published), published, bids, id, f, now)
    {
      ghost var was, earlier := auctions, published;
      var todo := set id | id in auctions && auctions[id].phase.Active? && auctions[id].endsAt <= now;
      while todo != {}
        invariant Valid() && EndingSoFar(was, auctions, earlier, published, bids, todo, f, now)
        decreases todo
      {
        var id :| id in todo;
        if id in f.end {
          OneSkipped(was, auctions, earlier, published, bids, todo, id, f, now);
        } else {
          ghost var before, notices := auctions, published;
          MarkEnded(id, id in f.highest);
          OneEnded(was, before, earlier, notices, published, bids, todo, id, f, now);
        }
        todo := todo - {id};
      }
    }

    /** One pass.  Every auction only moves forward and is announced once per move. */
    method CheckAuctionTimers(now: nat, f: Faults)
      requires Valid()
      modifies this`auctions, this`published
      ensures Valid() && auctions == Passed(old(auctions), f, now) && old(published) <= published
      ensures forall id :: id in auctions && auctions[id].phase.Ended? && !old(auctions)[id].phase.Ended? ==>
                ToldHighest(bids, published, id, id in f.highest)
    {
      if f.firstQuery {
        return;
      }
      ActivateDue(now, f);
      if f.secondQuery {
        return;
      }
      EndDue(now, f);
    }
  }

  // ----- what a pass comes to ------------------------------------------------------------------------------

  function WithAuction(
      auctions: map<string, Auction>, id: string, start: int, increment: int, startsAt: nat, endsAt: nat)
    : map<string, Auction>
  {
    if id in auctions then auctions
    else auctions[id := Auction(start, start, increment, Pending, startsAt, endsAt)]
  }

  function AllActivated(auctions: map<string, Auction>, f: Faults, now: nat): map<string, Auction> {
    map id | id in auctions :: Activated(auctions[id], id in f.activate, now)
  }

  function Passed(auctions: map<string, Auction>, f: Faults, now: nat): map<string, Auction> {
    map id | id in auctions :: AfterPass(auctions[id], id, f, now)
  }

  function Rank(p: Phase): nat {
    match p
    case Pending => 0
    case Active => 1
    case Ended => 2
  }

  /** Whatever fails, a pass never moves an auction back and changes nothing but its phase. */
  lemma PassOnlyMovesForward(a: Auction, id: string, f: Faults, now: nat)
    ensures Rank(a.phase) <= Rank(AfterPass(a, id, f, now).phase)
    ensures AfterPass(a, id, f, now).(phase := a.phase) == a
  {
  }

  predicate Overdue(a: Auction, now: nat) {
    (a.phase.Pending? && a.startsAt <= now) || (a.phase.Active? && a.endsAt <= now)
  }

  /** A pass leaves an auction overdue exactly when a query or an update that the auction needed failed. */
  lemma PassClearsExactly(a: Auction, id: string, f: Faults, now: nat)
    ensures Overdue(AfterPass(a, id, f, now), now)
            <==> || (a.phase.Pending? && a.startsAt <= now
                     && (f.firstQuery || id in f.activate || (a.endsAt <= now && (f.secondQuery || id in f.end))))
                 || (a.phase.Active? && a.endsAt <= now && (f.firstQuery || f.secondQuery || id in f.end))
  {
  }

  // ----- the scheduler and the bid protocol ----------------------------------------------------------------

  /** The tables after some auctions have been given a phase. */
  function Phased(auctions: map<string, Auction>, ids: set<string>, phase: Phase): map<string, Auction> {
    map id | id in auctions :: if id in ids then auctions[id].(phase := phase) else auctions[id]
  }

  function WithAuctions(c: BidProtocol.Core, auctions: map<string, Auction>): BidProtocol.Core {
    c.(db := c.db.(auctions := auctions))
  }

  /** The auctions may be given the phase now, one by one. */
  predicate AllDue(c: BidProtocol.Core, ids: set<string>, phase: Phase) {
    forall id :: id in ids ==> id in c.db.auctions && BidProtocol.Enabled(c, Move(id, phase))
  }

  function Move(id: string, phase: Phase): BidProtocol.Event {
    if phase == Active then BidProtocol.Activate(id) else BidProtocol.End(id)
  }

  lemma OneMorePhased(auctions: map<string, Auction>, ids: set<string>, id: string, phase: Phase)
    requires id in auctions && id in ids
    ensures Phased(auctions, ids, phase) == Phased(auctions, ids - {id}, phase)[id := auctions[id].(phase := phase)]
  {
  }

  /** One more move, from where the others have led. */
  lemma MoveIsStep(c: BidProtocol.Core, ids: set<string>, id: string, phase: Phase)
    requires id in ids && AllDue(c, ids, phase) && !phase.Pending?
    ensures var mid := WithAuctions(c, Phased(c.db.auctions, ids - {id}, phase));
            && BidProtocol.Enabled(mid, Move(id, phase))
            && BidProtocol.Step(mid, Move(id, phase)) == WithAuctions(c, Phased(c.db.auctions, ids, phase))
  {
    OneMorePhased(c.db.auctions, ids, id, phase);
    assert BidProtocol.Enabled(c, Move(id, phase));
  }

  lemma {:induction false} MovesAll(
      c: BidProtocol.Core, events: seq<BidProtocol.Event>, d: BidProtocol.Core, ids: set<string>, phase: Phase)
    returns (more: seq<BidProtocol.Event>)
    requires BidProtocol.Leads(c, events, d) && AllDue(d, ids, phase) && !phase.Pending?
    ensures BidProtocol.Leads(c, more, WithAuctions(d, Phased(d.db.auctions, ids, phase)))
    decreases |ids|
  {
    if ids == {} {
      assert Phased(d.db.auctions, ids, phase) == d.db.auctions;
      more := events;
    } else {
      var id :| id in ids;
      more := MovesAll(c, events, d, ids - {id}, phase);
      MoveIsStep(d, ids, id, phase);
      BidProtocol.LeadsOn(c, more, WithAuctions(d, Phased(d.db.auctions, ids - {id}, phase)), Move(id, phase));
      more := more + [Move(id, phase)];
    }
  }

  function Starting(auctions: map<string, Auction>, f: Faults, now: nat): set<string> {
    set id | id in auctions && Activated(auctions[id], f.firstQuery || id in f.activate, now) != auctions[id]
  }

  function Ending(auctions: map<string, Auction>, f: Faults, now: nat): set<string> {
    set id | id in auctions && Closed(auctions[id], f.firstQuery || f.secondQuery || id in f.end, now) != auctions[id]
  }

  lemma PassedIsPhased(auctions: map<string, Auction>, f: Faults, now: nat)
    ensures var mid := Phased(auctions, Starting(auctions, f, now), Active);
            Phased(mid, Ending(mid, f, now), Ended) == Passed(auctions, f, now)
  {
    var mid := Phased(auctions, Starting(auctions, f, now), Active);
    forall id | id in auctions
      ensures Phased(mid, Ending(mid, f, now), Ended)[id] == AfterPass(auctions[id], id, f, now)
    {
      assert mid[id] == Activated(auctions[id], f.firstQuery || id in f.activate, now);
    }
  }

  /** What a pass makes of the tables is what some of the bid protocol's own activations and ends make of
      them, at the same time and touching nothing else. */
  lemma PassIsPath(c: BidProtocol.Core, f: Faults) returns (events: seq<BidProtocol.Event>)
    ensures BidProtocol.Leads(c, events, WithAuctions(c, Passed(c.db.auctions, f, c.now)))
  {
    var mid := WithAuctions(c, Phased(c.db.auctions, Starting(c.db.auctions, f, c.now), Active));
    events := MovesAll(c, [], c, Starting(c.db.auctions, f, c.now), Active);
    events := MovesAll(c, events, mid, Ending(mid.db.auctions, f, c.now), Ended);
    PassedIsPhased(c.db.auctions, f, c.now);
  }

  /** Taking in a new auction is the bid protocol's step too. */
  lemma CreateIsStep(c: BidProtocol.Core, id: string, start: int, increment: int, startsAt: nat, endsAt: nat)
    ensures BidProtocol.Step(c, BidProtocol.CreateAuction(id, start, increment, startsAt, endsAt))
         == WithAuctions(c, WithAuction(c.db.auctions, id, start, increment, startsAt, endsAt))
  {
  }
}
