/**
 What a call's reply tells: an error, that one of its own calls to the outside failed; "accepted", that its bid
 was committed or that its key's record said accepted; and a refusal, neither.
 */
module Replies {
  import opened Options
  import opened RedisBids
  import opened BidTables
  import opened BidProtocol
  import opened BidChecks
  import opened PlaceBid

  /** The call to the outside failed, or its answer was lost or could not be read.  A payment request that is
      not answered in time counts as refused (service.go:112-116 and 136-140). */
  ghost predicate CallFails(c: Core, e: Event) {
    match e
    case Load(p, ok) => p in c.runs && (!ok || c.runs[p].auction !in c.db.auctions)
    case Prepare(_, net, _) => net != Delivered
    case Validate(_, answer) => answer == Unreadable
    case Reserve(_, answer) => answer == Unreadable
    case Commit(p, ok) => p in c.runs && !(ok && Writes(c, p))
    case _ => false
  }

  ghost predicate Writes(c: Core, p: BidId)
    requires p in c.runs
  {
    var r := c.runs[p];
    WriteBid(c.db, BidRow(p, r.auction, r.user, r.amount)).Some?
  }

  /** The event commits bid `q`, or finds it accepted under the run's key. */
  ghost predicate Grants(c: Core, e: Event, q: BidId) {
    match e
    case Commit(p, ok) => p in c.runs && p == q && ok && Writes(c, p)
    case Prepare(p, net, _) =>
      p in c.runs && net == Delivered && SaysAccepted(c, IdemKey(c.runs[p].user, c.runs[p].request), q)
    case _ => false
  }

  /** Where a run ends in an error from. */
  predicate Doomed(pc: Pc) {
    pc == Finished(Failed) || pc.Releasing? || (pc.Completing? && !pc.accepted && (pc.release || pc.unreadable))
  }

  /** Where run `p` ends naming bid `q` from. */
  predicate Named(p: BidId, pc: Pc, q: BidId) {
    pc == Finished(Taken(q)) || (p == q && pc.Completing? && pc.accepted)
  }

  // ----- one step --------------------------------------------------------------------------------------------

  lemma OthersLeaveRun(c: Core, e: Event, p: BidId)
    requires Enabled(c, e) && p in c.runs && RunOf(e) != Some(p)
    ensures p in Step(c, e).runs && Step(c, e).runs[p] == c.runs[p]
  {
    match e
    case Prepare(_, _, _) =>
    case Commit(_, _) =>
    case Complete(_, _, _) =>
    case Check(_) =>
    case _ =>
  }

  lemma OwnStepTells(c: Core, e: Event, p: BidId, q: BidId)
    requires Enabled(c, e) && p in c.runs && RunOf(e) == Some(p)
    ensures p in Step(c, e).runs
    ensures Doomed(Step(c, e).runs[p].pc) <==> Doomed(c.runs[p].pc) || CallFails(c, e)
    ensures Named(p, Step(c, e).runs[p].pc, q) <==> Named(p, c.runs[p].pc, q) || Grants(c, e, q)
  {
    match e
    case Prepare(_, _, _) => PrepareTells(c, e, q);
    case Commit(_, ok) => CommitTells(c, p, ok, q);
    case Complete(_, _, _) => CompleteTells(c, e, q);
    case Check(_) =>
    case _ =>
  }

  lemma PrepareTells(c: Core, e: Event, q: BidId)
    requires Enabled(c, e) && e.Prepare?
    ensures var p := e.run;
            && p in Step(c, e).runs
            && (Doomed(Step(c, e).runs[p].pc) <==> CallFails(c, e))
            && (Named(p, Step(c, e).runs[p].pc, q) <==> Grants(c, e, q))
  {
  }

  lemma CommitTells(c: Core, p: BidId, ok: bool, q: BidId)
    requires Enabled(c, Commit(p, ok))
    ensures var d := Step(c, Commit(p, ok));
            && p in d.runs
            && (Doomed(d.runs[p].pc) <==> CallFails(c, Commit(p, ok)))
            && (Named(p, d.runs[p].pc, q) <==> Grants(c, Commit(p, ok), q))
  {
  }

  lemma CompleteTells(c: Core, e: Event, q: BidId)
    requires Enabled(c, e) && e.Complete?
    ensures var p := e.run;
            && p in Step(c, e).runs
            && (Doomed(Step(c, e).runs[p].pc) <==> Doomed(c.runs[p].pc))
            && (Named(p, Step(c, e).runs[p].pc, q) <==> Named(p, c.runs[p].pc, q))
  {
  }

  // ----- whole calls --------------------------------------------------------------------------------------------

  ghost predicate FailedAt(states: seq<Core>, events: seq<Event>, i: nat, p: BidId)
    requires i < |events| < |states|
  {
    RunOf(events[i]) == Some(p) && CallFails(states[i], events[i])
  }

  ghost predicate GrantedAt(states: seq<Core>, events: seq<Event>, i: nat, p: BidId, q: BidId)
    requires i < |events| < |states|
  {
    RunOf(events[i]) == Some(p) && Grants(states[i], events[i], q)
  }

  /** From where run `p` stands just begun, at `n`, up to `m`. */
  lemma {:induction false} SoFar(states: seq<Core>, events: seq<Event>, n: nat, m: nat, p: BidId, q: BidId)
    requires Trace(states, events) && n <= m <= |events| && p in states[n].runs && states[n].runs[p].pc == Started
    ensures p in states[m].runs
    ensures Doomed(states[m].runs[p].pc) <==> exists i :: n <= i < m && FailedAt(states, events, i, p)
    ensures Named(p, states[m].runs[p].pc, q) <==> exists i :: n <= i < m && GrantedAt(states, events, i, p, q)
    decreases m
  {
    if n < m {
      SoFar(states, events, n, m - 1, p, q);
      NextTells(states, events, m - 1, p, q);
    }
  }

  lemma NextTells(states: seq<Core>, events: seq<Event>, i: nat, p: BidId, q: BidId)
    requires Trace(states, events) && i < |events| && p in states[i].runs
    ensures p in states[i + 1].runs
    ensures Doomed(states[i + 1].runs[p].pc) <==> Doomed(states[i].runs[p].pc) || FailedAt(states, events, i, p)
    ensures Named(p, states[i + 1].runs[p].pc, q)
            <==> Named(p, states[i].runs[p].pc, q) || GrantedAt(states, events, i, p, q)
  {
    assert StepOk(states[i], events[i], states[i + 1]);
    if RunOf(events[i]) == Some(p) {
      OwnStepTells(states[i], events[i], p, q);
    } else {
      OthersLeaveRun(states[i], events[i], p);
    }
  }

  /** A finished call answered with an error if and only if one of its own calls to the outside failed, and
      named bid `q` as accepted if and only if it committed `q` itself or found `q` accepted under its key;
      otherwise it refused. */
  lemma ReplyTells(states: seq<Core>, events: seq<Event>, n: nat, m: nat, p: BidId, q: BidId)
    requires Trace(states, events) && n <= m <= |events|
    requires p in states[n].runs && states[n].runs[p].pc == Started
    requires p in states[m].runs && states[m].runs[p].pc.Finished?
    ensures var reply := states[m].runs[p].pc.reply;
            && (reply == Failed <==> exists i :: n <= i < m && FailedAt(states, events, i, p))
            && (reply == Taken(q) <==> exists i :: n <= i < m && GrantedAt(states, events, i, p, q))
  {
    SoFar(states, events, n, m, p, q);
  }
}
