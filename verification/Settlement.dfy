/**
 The bid protocol together with the payment ledger and the messages between them, up to the moment the
 payment service learns that an auction has ended: what any run keeps, and which actions take a user's
 cover away.

 A reservation's id is the number of the run that reserved it.  The wallet answers any balance.  A
 reserve request that times out may still be delivered later (`late`); a release published after a
 failed commit is delivered some time later (`releases`); an "auction ended" event, once published, is
 delivered any number of times.
 */
module Settlement {
  import opened Options
  import opened BidTables
  import opened BidProtocol
  import BidInvariant
  import BidTheorems
  import Ledger

  /** `ended[a]` is the published event's winning row, if it names one. */
  datatype Bus = Bus(
    late: set<nat>, releases: set<nat>, ending: set<string>, ended: map<string, Option<BidRow>>,
    delivered: set<string>)

  datatype Sys = Sys(core: Core, book: Ledger.Book, bus: Bus)

  datatype Action =
    | Own(e: Event)
    | AskValidate(run: nat, answered: bool, readable: bool, balance: Option<int>)
    | AskReserve(run: nat, net: Net, readable: bool)
    | PublishRelease(run: nat, ok: bool)
    | LateReserve(run: nat)
    | DeliverRelease(run: nat)
    | ReleaseMessage(id: nat)
    | ChargeMessage(id: nat)
    | EndAuction(auction: string)
    | Announce(auction: string, top: Option<BidRow>, readOk: bool, published: bool)
    | DeliverEnded(auction: string)

  const START := Sys(INITIAL, Ledger.EMPTY_BOOK, Bus({}, {}, {}, map[], {}))

  /** What the validation of a run's bid comes to, given what the wallet answered. */
  function Verdict(b: Ledger.Book, r: Run, answered: bool, readable: bool, balance: Option<int>): Answer {
    if !answered then Denied
    else if !readable then Unreadable
    else if balance.Some? && r.amount <= balance.value - Ledger.ReservedFor(b, Ledger.Key(r.user, r.auction))
    then Granted
    else Denied
  }

  /** The step of the bid protocol an action contains, if any. */
  function CoreEvent(s: Sys, x: Action): Option<Event> {
    match x
    case Own(e) => Some(e)
    case AskValidate(p, answered, readable, balance) =>
      if p !in s.core.runs then Some(Validate(p, Denied))
      else Some(Validate(p, Verdict(s.book, s.core.runs[p], answered, readable, balance)))
    case AskReserve(p, net, readable) =>
      Some(Reserve(p, if net != Delivered then Denied else if readable then Granted else Unreadable))
    case PublishRelease(p, _) => Some(Release(p))
    case EndAuction(a) => Some(End(a))
    case _ => None
  }

  ghost predicate CanDo(s: Sys, x: Action) {
    && (CoreEvent(s, x).Some? ==> BidProtocol.Enabled(s.core, CoreEvent(s, x).value))
    && match x
       case Own(e) => !e.Validate? && !e.Reserve? && !e.Release? && !e.End?
       case LateReserve(p) => p in s.bus.late && p in s.core.runs
       case DeliverRelease(p) => p in s.bus.releases
       case Announce(a, top, readOk, _) => a in s.bus.ending && (readOk ==> IsHighest(s.core.db.bids, a, top))
       case DeliverEnded(a) => a in s.bus.ended
       case _ => true
  }

  ghost function ReserveRun(b: Ledger.Book, p: nat, r: Run): Ledger.Book {
    Ledger.Reserve(b, p, r.user, r.auction, r.amount)
  }

  /** The winner field of the event: empty when it names nobody. */
  function WinnerField(top: Option<BidRow>): string {
    if top.Some? then top.value.user else ""
  }

  ghost function NextBook(s: Sys, x: Action): Ledger.Book
    requires CanDo(s, x)
  {
    match x
    case AskReserve(p, net, _) => if net == NotDelivered then s.book else ReserveRun(s.book, p, s.core.runs[p])
    case LateReserve(p) => ReserveRun(s.book, p, s.core.runs[p])
    case DeliverRelease(p) => Ledger.Release(s.book, p)
    case ReleaseMessage(id) => Ledger.Release(s.book, id)
    case ChargeMessage(id) => Ledger.Charge(s.book, id)
    case DeliverEnded(a) => Ledger.AuctionEnded(s.book, a, WinnerField(s.bus.ended[a]))
    case _ => s.book
  }

  function NextBus(b: Bus, x: Action): Bus {
    match x
    case AskReserve(p, net, _) => if net == NotDelivered then b.(late := b.late + {p}) else b
    case LateReserve(p) => b.(late := b.late - {p})
    case PublishRelease(p, ok) => if ok then b.(releases := b.releases + {p}) else b
    case DeliverRelease(p) => b.(releases := b.releases - {p})
    case EndAuction(a) => b.(ending := b.ending + {a})
    case Announce(a, top, readOk, published) =>
      var c := b.(ending := b.ending - {a});
      if published then c.(ended := c.ended[a := if readOk then top else None]) else c
    case DeliverEnded(a) => b.(delivered := b.delivered + {a})
    case _ => b
  }

  ghost function NextCore(s: Sys, x: Action): Core
    requires CanDo(s, x)
  {
    if CoreEvent(s, x).Some? then Step(s.core, CoreEvent(s, x).value) else s.core
  }

  ghost function Do(s: Sys, x: Action): Sys
    requires CanDo(s, x)
  {
    Sys(NextCore(s, x), NextBook(s, x), NextBus(s.bus, x))
  }

  ghost predicate GoesTo(s: Sys, actions: seq<Action>, t: Sys)
    decreases |actions|
  {
    if actions == [] then s == t
    else CanDo(s, actions[0]) && GoesTo(Do(s, actions[0]), actions[1..], t)
  }

  ghost predicate Arises(s: Sys) {
    exists actions :: GoesTo(START, actions, s)
  }

  // ----- how one step of the bid protocol moves the runs -----------------------------------------------

  predicate AfterReserve(pc: Pc) {
    pc.Reserved? || pc.Completing? || pc.Releasing? || pc.Finished?
  }

  /** A step moves at most one run, never a finished one, and no run goes back behind its reserve. */
  ghost predicate Small(c: Core, e: Event, d: Core) {
    && (forall q :: q in c.runs ==> q in d.runs && d.runs[q] == c.runs[q].(row := d.runs[q].row, pc := d.runs[q].pc))
    && (forall q :: q in c.runs && c.runs[q].pc.Finished? ==> d.runs[q].pc.Finished?)
    && (forall q :: q in c.runs && AfterReserve(c.runs[q].pc) ==> AfterReserve(d.runs[q].pc))
    && (forall q :: q in d.runs && q !in c.runs ==> e.Begin? && q == e.run && d.runs[q].pc.Started?)
  }

  /** Only a granted validation brings a run to its reserve, only a granted reserve to its commit, and only
      commits write bids. */
  ghost predicate Orderly(c: Core, e: Event, d: Core) {
    && (forall q :: q in d.runs && d.runs[q].pc.Reserved? ==>
          (q in c.runs && c.runs[q].pc.Reserved?) || e == Reserve(q, Granted))
    && (forall q :: q in d.runs && d.runs[q].pc.Validated? ==>
          (q in c.runs && c.runs[q].pc.Validated?) || e == Validate(q, Granted))
    && (!e.Commit? ==> d.db.bids == c.db.bids)
  }

  lemma MoveIsSmall(c: Core, e: Event, p: nat, pc: Pc)
    requires p in c.runs && !c.runs[p].pc.Finished? && !e.Begin?
    requires AfterReserve(c.runs[p].pc) ==> AfterReserve(pc)
    requires pc.Reserved? ==> e == Reserve(p, Granted)
    requires pc.Validated? ==> e == Validate(p, Granted)
    ensures Small(c, e, Move(c, p, pc)) && Orderly(c, e, Move(c, p, pc))
  {
  }

  lemma PrepareIsSmall(c: Core, e: Event)
    requires BidProtocol.Enabled(c, e) && e.Prepare?
    ensures Small(c, e, Step(c, e)) && Orderly(c, e, Step(c, e))
  {
  }

  lemma CommitIsSmall(c: Core, e: Event)
    requires BidProtocol.Enabled(c, e) && e.Commit?
    ensures Small(c, e, Step(c, e)) && Orderly(c, e, Step(c, e))
  {
  }

  lemma CompleteIsSmall(c: Core, e: Event)
    requires BidProtocol.Enabled(c, e) && e.Complete?
    ensures Small(c, e, Step(c, e)) && Orderly(c, e, Step(c, e))
  {
  }

  /** The events that are no run's call to the outside. */
  lemma OtherIsSmall(c: Core, e: Event)
    requires BidProtocol.Enabled(c, e)
    requires e.Tick? || e.CreateAuction? || e.Activate? || e.End? || e.Begin? || e.Load?
    ensures Small(c, e, Step(c, e)) && Orderly(c, e, Step(c, e))
  {
  }

  lemma StepIsSmall(c: Core, e: Event)
    requires BidProtocol.Enabled(c, e)
    ensures Small(c, e, Step(c, e)) && Orderly(c, e, Step(c, e))
  {
    match e
    case Prepare(_, _, _) => PrepareIsSmall(c, e);
    case Commit(_, _) => CommitIsSmall(c, e);
    case Complete(_, _, _) => CompleteIsSmall(c, e);
    case Check(p) => MoveIsSmall(c, e, p, CheckStep(c, p).runs[p].pc);
    case Validate(p, answer) => MoveIsSmall(c, e, p, AfterAnswer(answer, Validated));
    case Reserve(p, answer) => MoveIsSmall(c, e, p, AfterAnswer(answer, Reserved));
    case Release(p) => MoveIsSmall(c, e, p, Finished(Failed));
    case _ => OtherIsSmall(c, e);
  }

  // ----- what every run keeps ------------------------------------------------------------------------------

  ghost predicate BackedByRun(runs: map<nat, Run>, id: nat, r: Ledger.Reservation) {
    && id in runs && AfterReserve(runs[id].pc)
    && runs[id].user == r.user && runs[id].auction == r.auction && runs[id].amount == r.amount
  }

  /** A late request's run is past its reserve and has no reservation. */
  ghost predicate LateOk(runs: map<nat, Run>, b: Ledger.Book, p: nat) {
    p in runs && AfterReserve(runs[p].pc) && p !in b.reservations
  }

  /** A published winner is a bid row of the auction. */
  ghost predicate EndedOk(bids: seq<BidRow>, ended: map<string, Option<BidRow>>) {
    forall a :: a in ended && ended[a].Some? ==> ended[a].value in bids && ended[a].value.auction == a
  }

  ghost predicate SysOk(s: Sys) {
    && BidInvariant.Inv(s.core) && Ledger.BookOk(s.book)
    && (forall id :: id in s.book.reservations ==> BackedByRun(s.core.runs, id, s.book.reservations[id]))
    && (forall p :: p in s.bus.late ==> LateOk(s.core.runs, s.book, p))
    && EndedOk(s.core.db.bids, s.bus.ended)
  }

  lemma CoreStepKeepsOk(s: Sys, e: Event)
    requires SysOk(s) && BidProtocol.Enabled(s.core, e)
    ensures SysOk(s.(core := Step(s.core, e)))
  {
    var d := Step(s.core, e);
    BidInvariant.StepKeeps(s.core, e);
    BidTheorems.StepAdvances(s.core, e);
    StepIsSmall(s.core, e);
    forall id | id in s.book.reservations
      ensures BackedByRun(d.runs, id, s.book.reservations[id])
    {
      assert BackedByRun(s.core.runs, id, s.book.reservations[id]);
    }
    forall p | p in s.bus.late
      ensures LateOk(d.runs, s.book, p)
    {
      assert LateOk(s.core.runs, s.book, p);
    }
  }

  /** A reserve, in time or late: its run had none yet. */
  lemma ReserveKeepsOk(s: Sys, p: nat)
    requires SysOk(s) && LateOk(s.core.runs, s.book, p)
    ensures SysOk(Sys(s.core, ReserveRun(s.book, p, s.core.runs[p]), s.bus.(late := s.bus.late - {p})))
  {
    var r := s.core.runs[p];
    var book := ReserveRun(s.book, p, r);
    Ledger.ReserveOk(s.book, p, r.user, r.auction, r.amount);
    Ledger.ReserveActives(s.book, p, r.user, r.auction, r.amount);
    forall id | id in book.reservations
      ensures BackedByRun(s.core.runs, id, book.reservations[id])
    {
      if id != p { assert BackedByRun(s.core.runs, id, s.book.reservations[id]); }
    }
    forall q | q in s.bus.late - {p}
      ensures LateOk(s.core.runs, book, q)
    {
      assert LateOk(s.core.runs, s.book, q);
    }
  }

  /** A ledger step that only ends reservations. */
  lemma FreeKeepsOk(s: Sys, book: Ledger.Book)
    requires SysOk(s) && Ledger.BookOk(book)
    requires book.reservations.Keys == s.book.reservations.Keys
    requires forall id :: id in book.reservations ==>
               book.reservations[id] == s.book.reservations[id].(status := book.reservations[id].status)
    ensures SysOk(s.(book := book))
  {
    forall id | id in book.reservations
      ensures BackedByRun(s.core.runs, id, book.reservations[id])
    {
      assert BackedByRun(s.core.runs, id, s.book.reservations[id]);
    }
    forall p | p in s.bus.late
      ensures LateOk(s.core.runs, book, p)
    {
      assert LateOk(s.core.runs, s.book, p);
    }
  }

  lemma ReleaseKeepsOk(s: Sys, id: nat)
    requires SysOk(s)
    ensures SysOk(s.(book := Ledger.Release(s.book, id)))
  {
    Ledger.ReleaseOk(s.book, id);
    FreeKeepsOk(s, Ledger.Release(s.book, id));
  }

  lemma ChargeKeepsOk(s: Sys, id: nat)
    requires SysOk(s)
    ensures SysOk(s.(book := Ledger.Charge(s.book, id)))
  {
    Ledger.ChargeOk(s.book, id);
    FreeKeepsOk(s, Ledger.Charge(s.book, id));
  }

  lemma EndKeepsOk(s: Sys, a: string, winner: string)
    requires SysOk(s)
    ensures SysOk(s.(book := Ledger.AuctionEnded(s.book, a, winner)))
  {
    Ledger.ReleaseAllOk(s.book, Ledger.Losers(s.book.reservations, a, winner));
    FreeKeepsOk(s, Ledger.AuctionEnded(s.book, a, winner));
  }

  /** A run that is about to reserve has no reservation and no late request. */
  lemma NotReservedYet(s: Sys, p: nat)
    requires SysOk(s) && p in s.core.runs && !AfterReserve(s.core.runs[p].pc)
    ensures p !in s.book.reservations && p !in s.bus.late
  {
    assert p in s.book.reservations ==> BackedByRun(s.core.runs, p, s.book.reservations[p]);
    assert p in s.bus.late ==> LateOk(s.core.runs, s.book, p);
  }

  lemma AskedWhenValidated(s: Sys, x: Action)
    requires CanDo(s, x) && x.AskReserve?
    ensures x.run in s.core.runs && s.core.runs[x.run].pc.Validated?
    ensures NextCore(s, x) == Move(s.core, x.run, AfterAnswer(CoreEvent(s, x).value.answer, Reserved))
  {
  }

  lemma LateKeepsOk(s: Sys, p: nat)
    requires SysOk(s) && LateOk(s.core.runs, s.book, p)
    ensures SysOk(s.(bus := s.bus.(late := s.bus.late + {p})))
  {
  }

  lemma AskReserveKeepsOk(s: Sys, x: Action)
    requires SysOk(s) && CanDo(s, x) && x.AskReserve?
    ensures SysOk(Do(s, x))
  {
    var mid := s.(core := NextCore(s, x));
    AskedWhenValidated(s, x);
    NotReservedYet(s, x.run);
    CoreStepKeepsOk(s, CoreEvent(s, x).value);
    if x.net != NotDelivered {
      ReserveKeepsOk(mid, x.run);
      assert s.bus.late - {x.run} == s.bus.late;
    } else {
      LateKeepsOk(mid, x.run);
    }
  }

  /** Every action, whatever fails and whoever misbehaves. */
  lemma DoKeepsOk(s: Sys, x: Action)
    requires SysOk(s) && CanDo(s, x)
    ensures SysOk(Do(s, x))
  {
    match x
    case AskReserve(_, _, _) => AskReserveKeepsOk(s, x);
    case LateReserve(p) => ReserveKeepsOk(s, p);
    case DeliverRelease(p) => ReleaseKeepsOk(s, p);
    case ReleaseMessage(id) => ReleaseKeepsOk(s, id);
    case ChargeMessage(id) => ChargeKeepsOk(s, id);
    case DeliverEnded(a) => EndKeepsOk(s, a, WinnerField(s.bus.ended[a]));
    case Announce(_, _, _, _) =>
    case _ => CoreStepKeepsOk(s, CoreEvent(s, x).value);
  }

  lemma {:induction false} RunKeepsOk(s: Sys, actions: seq<Action>, t: Sys)
    requires SysOk(s) && GoesTo(s, actions, t)
    ensures SysOk(t)
    decreases |actions|
  {
    if actions != [] {
      DoKeepsOk(s, actions[0]);
      RunKeepsOk(Do(s, actions[0]), actions[1..], t);
    }
  }

  /** In every reachable state, disciplined or not, the ledger balances, every reservation is that of a run
      past its reserve, and every published winner is a bid row of its auction. */
  lemma ReachableIsOk(s: Sys)
    requires Arises(s)
    ensures SysOk(s)
  {
    Ledger.EmptyBookOk();
    BidInvariant.InitHolds();
    var actions :| GoesTo(START, actions, s);
    RunKeepsOk(START, actions, s);
  }

  /** What a validation comes to, in every reachable state: the bid goes on if and only if an answer came that can
      be read and the wallet's balance covers it with everything still counted under its key; it ends in an error
      if and only if an answer came that cannot be read; and nobody's reservation changes. */
  lemma ValidationDecides(s: Sys, x: Action)
    requires Arises(s) && CanDo(s, x) && x.AskValidate?
    ensures x.run in s.core.runs && x.run in Do(s, x).core.runs && Do(s, x).book == s.book && Do(s, x).bus == s.bus
    ensures var r := s.core.runs[x.run]; var pc := Do(s, x).core.runs[x.run].pc;
            var counted := Ledger.Sum(Ledger.Held(s.book.reservations, Ledger.Key(r.user, r.auction)));
            var covers := x.balance.Some? && counted + r.amount <= x.balance.value;
            && (pc == Validated <==> x.answered && x.readable && covers)
            && (pc == Completing(false, false, true) <==> x.answered && !x.readable)
            && (pc == Completing(false, false, false) <==> !x.answered || (x.readable && !covers))
  {
    ReachableIsOk(s);
  }

  /** What a reserve comes to: the bid goes on if and only if the answer came in time and can be read; its
      reservation is in the ledger if and only if the request arrived, and else may still arrive late. */
  lemma ReservationDecides(s: Sys, x: Action)
    requires Arises(s) && CanDo(s, x) && x.AskReserve?
    ensures var t := Do(s, x); var p := x.run;
            && p in t.core.runs
            && (t.core.runs[p].pc == Reserved <==> x.net == Delivered && x.readable)
            && (t.core.runs[p].pc == Completing(false, false, true) <==> x.net == Delivered && !x.readable)
            && (t.core.runs[p].pc == Completing(false, false, false) <==> x.net != Delivered)
            && (p in t.book.reservations <==> x.net != NotDelivered)
            && (p in t.bus.late <==> x.net == NotDelivered)
  {
    ReachableIsOk(s);
    AskedWhenValidated(s, x);
    NotReservedYet(s, x.run);
    if x.net != NotDelivered {
      var r := s.core.runs[x.run];
      Ledger.ReserveActives(s.book, x.run, r.user, r.auction, r.amount);
    }
  }

  // ----- who is covered, and which actions take cover away ---------------------------------------------

  ghost predicate Covers(r: Ledger.Reservation, user: string, auction: string, amount: int) {
    r.status == Ledger.Active && r.user == user && r.auction == auction && amount <= r.amount
  }

  /** The user holds an active reservation of at least the amount on the auction. */
  ghost predicate Covered(b: Ledger.Book, user: string, auction: string, amount: int) {
    exists id :: id in b.reservations && Covers(b.reservations[id], user, auction, amount)
  }

  predicate Mine(r: Run, user: string, auction: string) {
    r.user == user && r.auction == auction
  }

  /** The user's active reservation on the auction. */
  predicate Holds(b: Ledger.Book, id: nat, user: string, auction: string) {
    && id in b.reservations && b.reservations[id].status == Ledger.Active
    && b.reservations[id].user == user && b.reservations[id].auction == auction
  }

  predicate Undercuts(runs: map<nat, Run>, p: nat, user: string, auction: string, amount: int) {
    p in runs && Mine(runs[p], user, auction) && runs[p].amount < amount
  }

  /** The actions that take a user's cover of an amount on an auction away. */
  predicate Uncovers(s: Sys, x: Action, user: string, auction: string, amount: int) {
    match x
    case AskReserve(p, net, _) => net != NotDelivered && Undercuts(s.core.runs, p, user, auction, amount)
    case LateReserve(p) => Undercuts(s.core.runs, p, user, auction, amount)
    case DeliverRelease(p) => Holds(s.book, p, user, auction)
    case ReleaseMessage(id) => Holds(s.book, id, user, auction)
    case ChargeMessage(id) => Holds(s.book, id, user, auction)
    case DeliverEnded(a) => a == auction && a in s.bus.ended && WinnerField(s.bus.ended[a]) != user
    case _ => false
  }

  /** A reserve covers its user on its auction up to its own amount and no further. */
  lemma ReserveCoversExactly(b: Ledger.Book, id: nat, user: string, auction: string, amount: int, wanted: int)
    requires id !in b.reservations
    ensures Covered(Ledger.Reserve(b, id, user, auction, amount), user, auction, wanted) <==> wanted <= amount
  {
    Ledger.ReserveActives(b, id, user, auction, amount);
    var d := Ledger.Reserve(b, id, user, auction, amount);
    assert d.reservations[id] == Ledger.Reservation(user, auction, amount, Ledger.Active);
  }

  lemma ReserveUncovers(b: Ledger.Book, id: nat, r: Run, user: string, auction: string, amount: int)
    requires id !in b.reservations && Covered(b, user, auction, amount)
    ensures Covered(ReserveRun(b, id, r), user, auction, amount) <==> (Mine(r, user, auction) ==> amount <= r.amount)
  {
    if Mine(r, user, auction) {
      ReserveCoversExactly(b, id, user, auction, r.amount, amount);
    } else {
      Ledger.ReserveActives(b, id, r.user, r.auction, r.amount);
      var x :| x in b.reservations && Covers(b.reservations[x], user, auction, amount);
      assert ReserveRun(b, id, r).reservations[x] == b.reservations[x];
    }
  }

  /** Ending the reservation `id`, by a release or a charge. */
  lemma FreeUncovers(b: Ledger.Book, d: Ledger.Book, id: nat, user: string, auction: string, amount: int)
    requires Ledger.OneActive(b) && Covered(b, user, auction, amount)
    requires d.reservations.Keys == b.reservations.Keys
    requires forall x :: x in b.reservations && x != id ==> d.reservations[x] == b.reservations[x]
    requires id in b.reservations ==> d.reservations[id].status != Ledger.Active
    ensures Covered(d, user, auction, amount) <==> !Holds(b, id, user, auction)
  {
    var x :| x in b.reservations && Covers(b.reservations[x], user, auction, amount);
    if x != id { assert d.reservations[x] == b.reservations[x]; }
  }

  lemma ReleaseUncovers(b: Ledger.Book, id: nat, user: string, auction: string, amount: int)
    requires Ledger.OneActive(b) && Covered(b, user, auction, amount)
    ensures Covered(Ledger.Release(b, id), user, auction, amount) <==> !Holds(b, id, user, auction)
  {
    FreeUncovers(b, Ledger.Release(b, id), id, user, auction, amount);
  }

  lemma ChargeUncovers(b: Ledger.Book, id: nat, user: string, auction: string, amount: int)
    requires Ledger.OneActive(b) && Covered(b, user, auction, amount)
    ensures Covered(Ledger.Charge(b, id), user, auction, amount) <==> !Holds(b, id, user, auction)
  {
    FreeUncovers(b, Ledger.Charge(b, id), id, user, auction, amount);
  }

  /** Handling an end keeps, on its auction, the cover of exactly the user the event names: one that names
      nobody, as after a failed read of the highest bid, takes the real winner's cover away. */
  lemma EndKeepsExactlyTheNamed(b: Ledger.Book, a: string, named: string, user: string, auction: string, amount: int)
    requires Covered(b, user, auction, amount)
    ensures Covered(Ledger.AuctionEnded(b, a, named), user, auction, amount) <==> a != auction || user == named
  {
    var d := Ledger.AuctionEnded(b, a, named);
    var x :| x in b.reservations && Covers(b.reservations[x], user, auction, amount);
    if a != auction || user == named {
      assert d.reservations[x] == b.reservations[x];
    } else {
      Ledger.AuctionEndedKeepsWinner(b, a, named);
    }
  }

  /** Whose active reservations on the auction the end spares: the announced winner's and no others; an end
      announced without a winner carries an empty user id, so it frees those of all users there are. */
  lemma EndSparesExactly(s: Sys, a: string, id: nat)
    requires CanDo(s, DeliverEnded(a)) && id in s.book.reservations
    requires s.book.reservations[id].auction == a && s.book.reservations[id].status == Ledger.Active
    ensures var user := s.book.reservations[id].user; var top := s.bus.ended[a];
            var d := Do(s, DeliverEnded(a)).book;
            && d.reservations.Keys == s.book.reservations.Keys
            && (d.reservations[id].status == Ledger.Active
                <==> (top.Some? && user == top.value.user) || (top.None? && user == ""))
  {
    Ledger.AuctionEndedKeepsWinner(s.book, a, WinnerField(s.bus.ended[a]));
  }

  lemma AskUncovers(s: Sys, x: Action, user: string, auction: string, amount: int)
    requires SysOk(s) && CanDo(s, x) && x.AskReserve? && Covered(s.book, user, auction, amount)
    ensures Covered(NextBook(s, x), user, auction, amount) <==> !Uncovers(s, x, user, auction, amount)
  {
    AskedWhenValidated(s, x);
    NotReservedYet(s, x.run);
    ReserveUncovers(s.book, x.run, s.core.runs[x.run], user, auction, amount);
  }

  lemma UncoversExactly(s: Sys, x: Action, user: string, auction: string, amount: int)
    requires SysOk(s) && CanDo(s, x) && Covered(s.book, user, auction, amount)
    ensures Covered(NextBook(s, x), user, auction, amount) <==> !Uncovers(s, x, user, auction, amount)
  {
    match x
    case AskReserve(_, _, _) => AskUncovers(s, x, user, auction, amount);
    case LateReserve(p) =>
      assert LateOk(s.core.runs, s.book, p);
      ReserveUncovers(s.book, p, s.core.runs[p], user, auction, amount);
    case DeliverRelease(p) => ReleaseUncovers(s.book, p, user, auction, amount);
    case ReleaseMessage(id) => ReleaseUncovers(s.book, id, user, auction, amount);
    case ChargeMessage(id) => ChargeUncovers(s.book, id, user, auction, amount);
    case DeliverEnded(a) => EndKeepsExactlyTheNamed(s.book, a, WinnerField(s.bus.ended[a]), user, auction, amount);
    case _ =>
  }

  /** In every reachable state an action takes a user's cover away if and only if it delivers, in time or
      late, a smaller reserve of that user on that auction, ends the user's active reservation there, or
      delivers the auction's end naming somebody else. */
  lemma CoverIsLostExactly(s: Sys, x: Action, user: string, auction: string, amount: int)
    requires Arises(s) && CanDo(s, x) && Covered(s.book, user, auction, amount)
    ensures !Covered(Do(s, x).book, user, auction, amount) <==> Uncovers(s, x, user, auction, amount)
  {
    ReachableIsOk(s);
    UncoversExactly(s, x, user, auction, amount);
  }
}
