/**
 `Service.PlaceBid` written out in its own order of effects, and the proof that one call is a path of the step
 relation: whatever fails on the way, and whatever the rest of the system does between any two of its calls to
 the outside, its effects are those of its own steps and no others.
 */
module PlaceBid {
  import opened Options
  import opened Numbers
  import opened RedisBids
  import opened BidTables
  import opened BidProtocol

  /** How the calls to the outside go during one run. */
  datatype World = World(
    loadOk: bool, prepare: Net, valid: Answer, reserved: Answer,
    insertOk: bool, updateOk: bool, commitOk: bool, completeRan: bool)

  predicate CommitOk(w: World) {
    w.insertOk && w.updateOk && w.commitOk
  }

  predicate Running(c: Core, p: BidId) {
    p in c.runs && !c.runs[p].pc.Finished?
  }

  /** The run whose step an event is, if it is one. */
  function RunOf(e: Event): Option<BidId> {
    match e
    case Tick(_) => None
    case CreateAuction(_, _, _, _, _) => None
    case Activate(_) => None
    case End(_) => None
    case _ => Some(e.run)
  }

  /** The one step that run `p` takes from where it stands, going as the world has it. */
  function NextStep(c: Core, p: BidId, w: World): Event
    requires Running(c, p)
  {
    match c.runs[p].pc
    case Started => Load(p, w.loadOk)
    case Loaded => Check(p)
    case Checked(_) => Prepare(p, w.prepare, c.now)
    case Prepared => Validate(p, w.valid)
    case Validated => Reserve(p, w.reserved)
    case Reserved => Commit(p, CommitOk(w))
    case Completing(_, _, _) => Complete(p, w.completeRan, c.now)
    case Releasing => Release(p)
  }

  // ----- histories ---------------------------------------------------------------------------------------------

  ghost predicate StepOk(c: Core, e: Event, d: Core) {
    Enabled(c, e) && d == Step(c, e)
  }

  /** Each event leads from one state to the next. */
  ghost predicate Trace(states: seq<Core>, events: seq<Event>) {
    && |states| == |events| + 1
    && forall i :: 0 <= i < |events| ==> StepOk(states[i], events[i], states[i + 1])
  }

  /** An event of run `p` is its next step; one of anybody else may be what it likes. */
  ghost predicate Fits(c: Core, e: Event, p: BidId, w: World) {
    RunOf(e) == Some(p) ==> Running(c, p) && e == NextStep(c, p, w)
  }

  /** From `n` on, every event of run `p` is its next step. */
  ghost predicate FitsFrom(states: seq<Core>, events: seq<Event>, n: nat, p: BidId, w: World) {
    |states| == |events| + 1 && forall i :: n <= i < |events| ==> Fits(states[i], events[i], p, w)
  }

  lemma {:induction false} TraceLeads(states: seq<Core>, events: seq<Event>)
    requires Trace(states, events)
    ensures Leads(states[0], events, states[|events|])
    decreases |events|
  {
    if events != [] {
      assert StepOk(states[0], events[0], states[1]);
      forall i | 0 <= i < |events| - 1
        ensures StepOk(states[1..][i], events[1..][i], states[1..][i + 1])
      {
        assert StepOk(states[i + 1], events[i + 1], states[i + 1 + 1]);
      }
      TraceLeads(states[1..], events[1..]);
    }
  }

  lemma {:induction false} SameSoFar(
      states: seq<Core>, events: seq<Event>, others: seq<Core>, steps: seq<Event>, p: BidId, w: World, i: nat)
    requires Trace(states, events) && FitsFrom(states, events, 0, p, w)
    requires Trace(others, steps) && FitsFrom(others, steps, 0, p, w)
    requires forall j :: 0 <= j < |events| ==> RunOf(events[j]) == Some(p)
    requires forall j :: 0 <= j < |steps| ==> RunOf(steps[j]) == Some(p)
    requires states[0] == others[0] && i <= |events| && i <= |steps|
    ensures states[i] == others[i] && (i > 0 ==> events[i - 1] == steps[i - 1])
    decreases i
  {
    if i > 0 {
      SameSoFar(states, events, others, steps, p, w, i - 1);
      assert Fits(states[i - 1], events[i - 1], p, w) && Fits(others[i - 1], steps[i - 1], p, w);
      assert StepOk(states[i - 1], events[i - 1], states[i]) && StepOk(others[i - 1], steps[i - 1], others[i]);
    }
  }

  lemma OwnRuns(states: seq<Core>, events: seq<Event>, p: BidId, w: World, i: nat)
    requires FitsFrom(states, events, 0, p, w) && i < |events| && RunOf(events[i]) == Some(p)
    ensures Running(states[i], p)
  {
    assert Fits(states[i], events[i], p, w);
  }

  lemma NotLonger(states: seq<Core>, events: seq<Event>, others: seq<Core>, steps: seq<Event>, p: BidId, w: World)
    requires Trace(states, events) && FitsFrom(states, events, 0, p, w) && !Running(states[|events|], p)
    requires Trace(others, steps) && FitsFrom(others, steps, 0, p, w)
    requires forall j :: 0 <= j < |events| ==> RunOf(events[j]) == Some(p)
    requires forall j :: 0 <= j < |steps| ==> RunOf(steps[j]) == Some(p)
    requires states[0] == others[0]
    ensures |steps| <= |events|
  {
    if |events| < |steps| {
      OwnRuns(others, steps, p, w, |events|);
      SameSoFar(states, events, others, steps, p, w, |events|);
    }
  }

  /** What a call does when nobody else acts meanwhile is fixed by where it begins and how the outside answers:
      its steps, and every state they pass through. */
  lemma CallIsDetermined(
      states: seq<Core>, events: seq<Event>, others: seq<Core>, steps: seq<Event>, p: BidId, w: World)
    requires Trace(states, events) && FitsFrom(states, events, 0, p, w) && !Running(states[|events|], p)
    requires Trace(others, steps) && FitsFrom(others, steps, 0, p, w) && !Running(others[|steps|], p)
    requires forall j :: 0 <= j < |events| ==> RunOf(events[j]) == Some(p)
    requires forall j :: 0 <= j < |steps| ==> RunOf(steps[j]) == Some(p)
    requires states[0] == others[0]
    ensures events == steps && states == others
  {
    NotLonger(states, events, others, steps, p, w);
    NotLonger(others, steps, states, events, p, w);
    forall i | 0 <= i < |states|
      ensures states[i] == others[i] && (i < |events| ==> events[i] == steps[i])
    {
      SameSoFar(states, events, others, steps, p, w, i);
      if i < |events| { SameSoFar(states, events, others, steps, p, w, i + 1); }
    }
  }

  class Service {
    const store: RedisStore
    const repo: Repository
    var now: nat
    /** The whole system's history so far: `core` is where it stands. */
    ghost var core: Core
    ghost var states: seq<Core>
    ghost var events: seq<Event>

    ghost predicate Valid()
      reads this, store, repo
    {
      && core.redis == store.State() && core.db == repo.State() && core.now == now
      && Trace(states, events) && states[0] == INITIAL && states[|events|] == core
    }

    constructor (store: RedisStore, repo: Repository)
      requires store.State() == Redis(map[], map[]) && repo.State() == Tables(map[], [])
      ensures Valid() && core == INITIAL && events == []
    {
      this.store, this.repo, now, core, states, events := store, repo, 0, INITIAL, [INITIAL], [];
    }

    ghost method Took(e: Event)
      requires Trace(states, events) && states[|events|] == core && Enabled(core, e)
      modifies this`core, this`states, this`events
      ensures core == Step(old(core), e) && states == old(states) + [core] && events == old(events) + [e]
      ensures Trace(states, events)
    {
      assert StepOk(core, e, Step(core, e));
      core := Step(core, e);
      states, events := states + [core], events + [e];
    }

    /** What the rest of the system does meanwhile.  This body does nothing; its contract, which is all that the
        callers know, allows any steps of anybody else, except that it keeps to the time limit given. */
    method Others(p: BidId, limit: int)
      requires Valid() && p in core.runs
      modifies this, store, repo
      ensures Valid() && p in core.runs && core.runs[p] == old(core).runs[p]
      ensures old(states) <= states && old(events) <= events
      ensures forall i :: |old(events)| <= i < |events| ==> RunOf(events[i]) != Some(p)
      ensures old(now) < limit ==> now < limit
    {
    }

    /** service.go:39-43 */
    method LoadAuction(p: BidId, r: Run, ok: bool) returns (row: Option<Auction>)
      requires Valid() && p in core.runs && core.runs[p] == r && r.pc.Started?
      modifies this`core, this`states, this`events
      ensures Valid() && Enabled(old(core), Load(p, ok)) && core == Step(old(core), Load(p, ok))
      ensures states == old(states) + [core] && events == old(events) + [Load(p, ok)]
      ensures p in core.runs
      ensures core.runs[p] == if row.Some? then r.(row := row.value, pc := Loaded) else r.(pc := Finished(Failed))
    {
      row := if ok && r.auction in repo.auctions then Some(repo.auctions[r.auction]) else None;
      Took(Load(p, ok));
    }

    /** service.go:45-62: the checks of the bid against the snapshot. */
    method CheckSnapshot(p: BidId, r: Run) returns (reply: Option<Reply>)
      requires Valid() && p in core.runs && core.runs[p] == r && r.pc.Loaded?
      modifies this`core, this`states, this`events
      ensures Valid() && core == Step(old(core), Check(p))
      ensures states == old(states) + [core] && events == old(events) + [Check(p)]
      ensures p in core.runs
      ensures core.runs[p] == r.(pc := if reply.Some? then Finished(reply.value) else Checked(now))
      ensures reply == None
              <==> r.row.phase.Active? && now <= r.row.endsAt && r.row.currentPrice + r.row.minIncrement <= r.amount
      ensures reply == None || reply == Some(Refused)
    {
      Took(Check(p));
      if r.row.phase != Active {
        return Some(Refused);
      }
      if now > r.row.endsAt {
        return Some(Refused);
      }
      var minRequired := r.row.currentPrice + r.row.minIncrement;
      if r.amount < minRequired {
        return Some(Refused);
      }
      return None;
    }

    /** service.go:64-103 */
    method PrepareBid(p: BidId, r: Run, net: Net) returns (pc: Pc)
      requires Valid() && p in core.runs && core.runs[p] == r && r.pc.Checked?
      requires now < r.pc.at + DAY - NANOS_PER_MILLI
      modifies this`core, this`states, this`events, store
      ensures Valid() && Enabled(old(core), Prepare(p, net, now))
      ensures core == Step(old(core), Prepare(p, net, now))
      ensures states == old(states) + [core] && events == old(events) + [Prepare(p, net, now)]
      ensures p in core.runs && core.runs[p] == r.(pc := pc) && (pc.Prepared? || pc.Finished?)
    {
      if net == NotDelivered {
        pc := Finished(Failed);
      } else {
        var cmd := PrepareCommand(IdemKey(r.user, r.request), r.auction, p, r.amount, r.row.currentPrice,
                                  r.row.minIncrement, IdemTtl(), PrepareStateTtl(r.row.endsAt, now));
        var result := store.Prepare(cmd, Ms(now));
        if net == ReplyLost {
          pc := Finished(Failed);
        } else if result.duplicate {
          if result.status == Accepted {
            pc := Finished(Taken(result.bidId));
          } else {
            pc := Finished(Refused);
          }
        } else if !result.allowed {
          pc := Finished(Refused);
        } else {
          pc := Prepared;
        }
      }
      Took(Prepare(p, net, now));
    }

    /** service.go:153-167 */
    method CommitBid(p: BidId, r: Run, w: World) returns (ok: bool)
      requires Valid() && p in core.runs && core.runs[p] == r && r.pc.Reserved?
      modifies this`core, this`states, this`events, repo
      ensures Valid() && Enabled(old(core), Commit(p, CommitOk(w)))
      ensures core == Step(old(core), Commit(p, CommitOk(w)))
      ensures states == old(states) + [core] && events == old(events) + [Commit(p, CommitOk(w))]
      ensures p in core.runs && core.runs[p] == r.(pc := Completing(ok, !ok, false))
    {
      var row := BidRow(p, r.auction, r.user, r.amount);
      ok := repo.CreateBidAndUpdatePrice(row, w.insertOk, w.updateOk, w.commitOk);
      Took(Commit(p, CommitOk(w)));
    }

    /** service.go:214-230 and the branch's reply. */
    method CompleteBidInRedis(p: BidId, r: Run, ran: bool)
      requires Valid() && p in core.runs && core.runs[p] == r && r.pc.Completing?
      modifies this`core, this`states, this`events, store
      ensures Valid() && Enabled(old(core), Complete(p, ran, now))
      ensures core == Step(old(core), Complete(p, ran, now))
      ensures states == old(states) + [core] && events == old(events) + [Complete(p, ran, now)]
      ensures p in core.runs && core.runs[p] == r.(pc := AfterComplete(r.pc, p))
    {
      if ran {
        var status := if r.pc.accepted then Accepted else Rejected;
        var cmd := CompleteCommand(IdemKey(r.user, r.request), r.auction, p, status,
                                   IdemTtl(), CompleteStateTtl(r.row.endsAt, now));
        var _ := store.Complete(cmd, Ms(now));
      }
      Took(Complete(p, ran, now));
    }

    /** A payment request's answer, or a release, which change only the run. */
    ghost method Moved(p: BidId, e: Event, pc: Pc)
      requires Valid() && p in core.runs && Enabled(core, e) && Step(core, e) == Move(core, p, pc)
      modifies this`core, this`states, this`events
      ensures Valid() && core == Move(old(core), p, pc)
      ensures states == old(states) + [core] && events == old(events) + [e]
    {
      Took(e);
    }

    /** service.go:165-166 and 232-242 */
    method ReleaseReservation(p: BidId, r: Run, ghost w: World)
      requires Valid() && p in core.runs && core.runs[p] == r && r.pc.Releasing?
      modifies this, store, repo
      ensures Valid() && old(states) <= states && old(events) <= events
      ensures FitsFrom(states, events, |old(events)|, p, w)
      ensures p in core.runs && core.runs[p] == r.(pc := Finished(Failed))
    {
      Others(p, 0);
      Moved(p, Release(p), Finished(Failed));
    }

    /** After the transaction or a payment request that came to nothing: complete in Redis, and release the
        reservation when the transaction failed. */
    method AnswerBid(p: BidId, r: Run, w: World) returns (reply: Reply)
      requires Valid() && p in core.runs && core.runs[p] == r && r.pc.Completing?
      modifies this, store, repo
      ensures Valid() && old(states) <= states && old(events) <= events
      ensures FitsFrom(states, events, |old(events)|, p, w)
      ensures p in core.runs && core.runs[p] == r.(pc := Finished(reply))
    {
      Others(p, 0);
      CompleteBidInRedis(p, r, w.completeRan);
      if r.pc.accepted {
        return Taken(p);
      } else if r.pc.release {
        ReleaseReservation(p, r.(pc := Releasing), w);
        return Failed;
      } else if r.pc.unreadable {
        return Failed;
      }
      return Refused;
    }

    /** service.go:153-168 and 207: from the reserve's answer to the reply. */
    method FinishBid(p: BidId, r: Run, w: World) returns (reply: Reply)
      requires Valid() && p in core.runs && core.runs[p] == r && r.pc.Reserved?
      modifies this, store, repo
      ensures Valid() && old(states) <= states && old(events) <= events
      ensures FitsFrom(states, events, |old(events)|, p, w)
      ensures p in core.runs && core.runs[p] == r.(pc := Finished(reply))
    {
      Others(p, 0);
      var ok := CommitBid(p, r, w);
      reply := AnswerBid(p, r.(pc := Completing(ok, !ok, false)), w);
    }

    /** service.go:129-151: the reserve request and what follows it. */
    method ReserveBid(p: BidId, r: Run, w: World) returns (reply: Reply)
      requires Valid() && p in core.runs && core.runs[p] == r && r.pc.Validated?
      modifies this, store, repo
      ensures Valid() && old(states) <= states && old(events) <= events
      ensures FitsFrom(states, events, |old(events)|, p, w)
      ensures p in core.runs && core.runs[p] == r.(pc := Finished(reply))
    {
      Others(p, 0);
      Moved(p, Reserve(p, w.reserved), AfterAnswer(w.reserved, Reserved));
      if w.reserved != Granted {
        reply := AnswerBid(p, r.(pc := AfterAnswer(w.reserved, Reserved)), w);
      } else {
        reply := FinishBid(p, r.(pc := Reserved), w);
      }
    }

    /** service.go:105-127: the validation request and what follows it. */
    method SettleBid(p: BidId, r: Run, w: World) returns (reply: Reply)
      requires Valid() && p in core.runs && core.runs[p] == r && r.pc.Prepared?
      modifies this, store, repo
      ensures Valid() && old(states) <= states && old(events) <= events
      ensures FitsFrom(states, events, |old(events)|, p, w)
      ensures p in core.runs && core.runs[p] == r.(pc := Finished(reply))
    {
      Others(p, 0);
      Moved(p, Validate(p, w.valid), AfterAnswer(w.valid, Validated));
      if w.valid != Granted {
        reply := AnswerBid(p, r.(pc := AfterAnswer(w.valid, Validated)), w);
      } else {
        reply := ReserveBid(p, r.(pc := Validated), w);
      }
    }

    /** From the prepare to the reply.  The prepare comes less than a day after the check. */
    method ProcessBid(p: BidId, r: Run, w: World) returns (reply: Reply)
      requires Valid() && p in core.runs && core.runs[p] == r && r.pc == Checked(now)
      modifies this, store, repo
      ensures Valid() && old(states) <= states && old(events) <= events
      ensures FitsFrom(states, events, |old(events)|, p, w)
      ensures p in core.runs && core.runs[p] == r.(pc := Finished(reply))
    {
      Others(p, r.pc.at + DAY - NANOS_PER_MILLI);
      var pc := PrepareBid(p, r, w.prepare);
      if pc.Finished? {
        return pc.reply;
      }
      reply := SettleBid(p, r.(pc := pc), w);
    }

    /** From the snapshot's checks to the reply. */
    method JudgeBid(p: BidId, r: Run, w: World) returns (reply: Reply)
      requires Valid() && p in core.runs && core.runs[p] == r && r.pc.Loaded?
      modifies this, store, repo
      ensures Valid() && old(states) <= states && old(events) <= events
      ensures FitsFrom(states, events, |old(events)|, p, w)
      ensures p in core.runs && core.runs[p] == r.(pc := Finished(reply))
    {
      Others(p, 0);
      var refusal := CheckSnapshot(p, r);
      if refusal.Some? {
        return refusal.value;
      }
      reply := ProcessBid(p, r.(pc := Checked(now)), w);
    }

    method HandleBid(p: BidId, r: Run, w: World) returns (reply: Reply)
      requires Valid() && p in core.runs && core.runs[p] == r && r.pc.Started?
      modifies this, store, repo
      ensures Valid() && old(states) <= states && old(events) <= events
      ensures FitsFrom(states, events, |old(events)|, p, w)
      ensures p in core.runs && core.runs[p] == r.(row := core.runs[p].row, pc := Finished(reply))
    {
      Others(p, 0);
      var row := LoadAuction(p, r, w.loadOk);
      if row.None? {
        return Failed;
      }
      reply := JudgeBid(p, r.(row := row.value, pc := Loaded), w);
    }

    /** One call, start to finish, with anything of anybody else in between. */
    method PlaceBid(p: BidId, user: string, auction: string, request: string, amount: int, w: World)
      returns (reply: Reply)
      requires Valid() && p !in core.runs
      modifies this, store, repo
      ensures Valid() && old(states) <= states && old(events) < events
      ensures events[|old(events)|] == Begin(p, user, auction, request, amount)
      ensures FitsFrom(states, events, |old(events)| + 1, p, w)
      ensures p in core.runs
      ensures core.runs[p] == Run(user, auction, request, amount, core.runs[p].row, Finished(reply))
    {
      Took(Begin(p, user, auction, request, amount));
      reply := HandleBid(p, Run(user, auction, request, amount, NO_ROW, Started), w);
    }
  }

  /** The service's whole history is a run of the protocol from its beginning, so all that is proved of
      reachable states holds wherever it stands. */
  lemma HistoryIsReachable(service: Service)
    requires service.Valid()
    ensures Leads(INITIAL, service.events, service.core) && Reachable(service.core)
  {
    TraceLeads(service.states, service.events);
  }
}
