/**
 The whole system within the wallet: when the wallet's answers about a user do not change, what is counted for
 the user on an auction stays within the balance, however the user's bids there overlap, because each of them
 has had its own validation granted and no charge falls between that and its reserve.
 */
module Balance {
  import opened Options
  import opened BidProtocol
  import opened Settlement
  import Ledger
  import PaymentRuns

  function KeyOf(r: Run): string {
    Ledger.Key(r.user, r.auction)
  }

  /** Validated and not reserved yet: about to reserve, or with a request that may arrive late. */
  predicate Pending(s: Sys, p: nat, k: string) {
    p in s.core.runs && KeyOf(s.core.runs[p]) == k && (s.core.runs[p].pc.Validated? || p in s.bus.late)
  }

  predicate ChargesOn(s: Sys, x: Action, k: string) {
    && x.ChargeMessage? && x.id in s.book.reservations && s.book.reservations[x.id].status == Ledger.Active
    && Ledger.KeyOf(s.book.reservations[x.id]) == k
  }

  /** The runs on the key whose validation a charge on it has followed. */
  function Stale(s: Sys, x: Action, k: string, stale: set<nat>): set<nat> {
    if ChargesOn(s, x, k) then stale + set p | p in s.core.runs && Pending(s, p, k) else stale
  }

  predicate ReservesOn(s: Sys, p: nat, k: string) {
    p in s.core.runs && KeyOf(s.core.runs[p]) == k
  }

  /** What the bound needs of the actions about one key: amounts are not negative and user ids have no colon;
      the wallet answers the same every time; and no charge falls between a validation and its reserve. */
  predicate Proper(s: Sys, x: Action, k: string, wallet: int, stale: set<nat>) {
    match x
    case Own(e) => e.Begin? && Ledger.Key(e.user, e.auction) == k ==> 0 <= e.amount && PaymentRuns.ColonFree(e.user)
    case AskValidate(p, _, _, balance) => ReservesOn(s, p, k) && balance.Some? ==> balance.value == wallet
    case AskReserve(p, net, _) => ReservesOn(s, p, k) && net != NotDelivered ==> p !in stale
    case LateReserve(p) => ReservesOn(s, p, k) ==> p !in stale
    case _ => true
  }

  ghost predicate ProperRun(s: Sys, actions: seq<Action>, k: string, wallet: int, stale: set<nat>)
    decreases |actions|
  {
    actions != [] && CanDo(s, actions[0]) ==>
      && Proper(s, actions[0], k, wallet, stale)
      && ProperRun(Do(s, actions[0]), actions[1..], k, wallet, Stale(s, actions[0], k, stale))
  }

  // ----- what every proper action keeps ----------------------------------------------------------------------

  /** What has been charged under the key leaves room for the amount. */
  ghost predicate Fits(b: Ledger.Book, k: string, amount: int, wallet: int) {
    Ledger.Sum(PaymentRuns.ChargedOn(b.reservations, k)) + amount <= wallet
  }

  ghost predicate RunsSane(c: Core, k: string) {
    forall p :: p in c.runs && KeyOf(c.runs[p]) == k ==> 0 <= c.runs[p].amount && PaymentRuns.ColonFree(c.runs[p].user)
  }

  ghost predicate PendingFit(s: Sys, k: string, wallet: int, stale: set<nat>) {
    forall p :: Pending(s, p, k) && p !in stale ==> Fits(s.book, k, s.core.runs[p].amount, wallet)
  }

  ghost predicate Within(s: Sys, user: string, auction: string, wallet: int, stale: set<nat>) {
    var k := Ledger.Key(user, auction);
    && PaymentRuns.Sane(s.book, k) && RunsSane(s.core, k) && PendingFit(s, k, wallet, stale)
    && Ledger.ReservedFor(s.book, k) <= wallet
  }

  /** Sane runs stay so, and none comes to be pending that was not, but by its own granted validation. */
  lemma CoreKeepsSane(s: Sys, e: Event, k: string)
    requires BidProtocol.Enabled(s.core, e) && RunsSane(s.core, k)
    requires e.Begin? && Ledger.Key(e.user, e.auction) == k ==> 0 <= e.amount && PaymentRuns.ColonFree(e.user)
    ensures RunsSane(Step(s.core, e), k)
  {
    var d := Step(s.core, e);
    StepIsSmall(s.core, e);
    forall p | p in d.runs && KeyOf(d.runs[p]) == k
      ensures 0 <= d.runs[p].amount && PaymentRuns.ColonFree(d.runs[p].user)
    {
      if p in s.core.runs { assert KeyOf(s.core.runs[p]) == k; }
    }
  }

  lemma OwnKeepsWithin(s: Sys, x: Action, user: string, auction: string, wallet: int, stale: set<nat>)
    requires SysOk(s) && CanDo(s, x) && Within(s, user, auction, wallet, stale)
    requires Proper(s, x, Ledger.Key(user, auction), wallet, stale)
    requires x.Own? || x.PublishRelease? || x.EndAuction?
    ensures Within(Do(s, x), user, auction, wallet, stale)
  {
    var k, e, t := Ledger.Key(user, auction), CoreEvent(s, x).value, Do(s, x);
    CoreKeepsSane(s, e, k);
    StepIsSmall(s.core, e);
    forall p | Pending(t, p, k) && p !in stale
      ensures Fits(t.book, k, t.core.runs[p].amount, wallet)
    {
      assert p in s.bus.late ==> LateOk(s.core.runs, s.book, p);
      assert Pending(s, p, k);
    }
  }

  /** A validation is granted only for what the balance less the key's total covers. */
  lemma GrantFits(s: Sys, x: Action, k: string, wallet: int)
    requires SysOk(s) && CanDo(s, x) && x.AskValidate? && PaymentRuns.Sane(s.book, k)
    requires ReservesOn(s, x.run, k) && (x.balance.Some? ==> x.balance.value == wallet)
    requires CoreEvent(s, x) == Some(Validate(x.run, Granted))
    ensures Fits(s.book, k, s.core.runs[x.run].amount, wallet)
  {
    PaymentRuns.ChargedWithinHeld(s.book, k);
  }

  lemma ValidateKeepsWithin(s: Sys, x: Action, user: string, auction: string, wallet: int, stale: set<nat>)
    requires SysOk(s) && CanDo(s, x) && Within(s, user, auction, wallet, stale) && x.AskValidate?
    requires Proper(s, x, Ledger.Key(user, auction), wallet, stale)
    ensures Within(Do(s, x), user, auction, wallet, stale)
  {
    var k, e, t := Ledger.Key(user, auction), CoreEvent(s, x).value, Do(s, x);
    CoreKeepsSane(s, e, k);
    StepIsSmall(s.core, e);
    forall p | Pending(t, p, k) && p !in stale
      ensures Fits(t.book, k, t.core.runs[p].amount, wallet)
    {
      assert p in s.bus.late ==> LateOk(s.core.runs, s.book, p);
      if !Pending(s, p, k) { GrantFits(s, x, k, wallet); }
    }
  }

  // ----- reserves ------------------------------------------------------------------------------------------------

  /** A reserve of a run whose amount fits: the key counts what was charged and the amount. */
  lemma ReserveStaysWithin(b: Ledger.Book, p: nat, r: Run, user: string, auction: string, wallet: int)
    requires Ledger.BookOk(b) && PaymentRuns.Sane(b, Ledger.Key(user, auction)) && p !in b.reservations
    requires PaymentRuns.ColonFree(user) && Ledger.ReservedFor(b, Ledger.Key(user, auction)) <= wallet
    requires KeyOf(r) == Ledger.Key(user, auction) ==>
               0 <= r.amount && PaymentRuns.ColonFree(r.user) && Fits(b, KeyOf(r), r.amount, wallet)
    ensures var k := Ledger.Key(user, auction); var d := ReserveRun(b, p, r);
            && PaymentRuns.Sane(d, k) && Ledger.ReservedFor(d, k) <= wallet
            && PaymentRuns.ChargedOn(d.reservations, k) == PaymentRuns.ChargedOn(b.reservations, k)
  {
    var k := Ledger.Key(user, auction);
    PaymentRuns.ReserveKeepsSane(b, p, r.user, r.auction, r.amount, k);
    PaymentRuns.ReserveKeepsCharged(b, p, r.user, r.auction, r.amount, k);
    if KeyOf(r) == k {
      PaymentRuns.ReserveTotal(b, p, r.user, r.auction, r.amount);
    } else {
      PaymentRuns.OtherKeysKeep(b, p, r.user, r.auction, r.amount, k);
    }
  }

  /** The bound reads of a state: the book, the runs on the key and who of them is pending. */
  lemma WithinFollows(s: Sys, t: Sys, user: string, auction: string, wallet: int, stale: set<nat>, more: set<nat>)
    requires Within(s, user, auction, wallet, stale) && stale <= more
    requires var k := Ledger.Key(user, auction);
             && PaymentRuns.Sane(t.book, k) && RunsSane(t.core, k) && Ledger.ReservedFor(t.book, k) <= wallet
             && (forall p :: Pending(t, p, k) && p !in more ==>
                   && Pending(s, p, k) && t.core.runs[p].amount == s.core.runs[p].amount
                   && PaymentRuns.ChargedOn(t.book.reservations, k) == PaymentRuns.ChargedOn(s.book.reservations, k))
    ensures Within(t, user, auction, wallet, more)
  {
  }

  lemma AskReserveKeepsWithin(s: Sys, x: Action, user: string, auction: string, wallet: int, stale: set<nat>)
    requires SysOk(s) && CanDo(s, x) && Within(s, user, auction, wallet, stale) && x.AskReserve?
    requires Proper(s, x, Ledger.Key(user, auction), wallet, stale) && PaymentRuns.ColonFree(user)
    ensures Within(Do(s, x), user, auction, wallet, stale)
  {
    var k, t := Ledger.Key(user, auction), Do(s, x);
    AskedWhenValidated(s, x);
    NotReservedYet(s, x.run);
    CoreKeepsSane(s, CoreEvent(s, x).value, k);
    if x.net != NotDelivered {
      assert KeyOf(s.core.runs[x.run]) == k ==> Pending(s, x.run, k);
      ReserveStaysWithin(s.book, x.run, s.core.runs[x.run], user, auction, wallet);
    }
    WithinFollows(s, t, user, auction, wallet, stale, stale);
  }

  lemma LateReserveKeepsWithin(s: Sys, x: Action, user: string, auction: string, wallet: int, stale: set<nat>)
    requires SysOk(s) && CanDo(s, x) && Within(s, user, auction, wallet, stale) && x.LateReserve?
    requires Proper(s, x, Ledger.Key(user, auction), wallet, stale) && PaymentRuns.ColonFree(user)
    ensures Within(Do(s, x), user, auction, wallet, stale)
  {
    var k, t := Ledger.Key(user, auction), Do(s, x);
    assert LateOk(s.core.runs, s.book, x.run);
    assert KeyOf(s.core.runs[x.run]) == k ==> Pending(s, x.run, k);
    ReserveStaysWithin(s.book, x.run, s.core.runs[x.run], user, auction, wallet);
    WithinFollows(s, t, user, auction, wallet, stale, stale);
  }

  // ----- releases, charges and the end -----------------------------------------------------------------------------

  lemma ReleasesStayWithin(
      s: Sys, t: Sys, ids: set<nat>, user: string, auction: string, wallet: int, stale: set<nat>)
    requires SysOk(s) && Within(s, user, auction, wallet, stale)
    requires forall id :: id in ids ==> id in s.book.reservations && s.book.reservations[id].status == Ledger.Active
    requires t.core == s.core && t.book == Ledger.ReleaseAll(s.book, ids) && t.bus.late == s.bus.late
    ensures Within(t, user, auction, wallet, stale)
  {
    PaymentRuns.ReleasingLowers(s.book, ids, Ledger.Key(user, auction));
    WithinFollows(s, t, user, auction, wallet, stale, stale);
  }

  lemma ReleaseKeepsWithin(s: Sys, t: Sys, id: nat, user: string, auction: string, wallet: int, stale: set<nat>)
    requires SysOk(s) && Within(s, user, auction, wallet, stale)
    requires t.core == s.core && t.book == Ledger.Release(s.book, id) && t.bus.late == s.bus.late
    ensures Within(t, user, auction, wallet, stale)
  {
    if id in s.book.reservations && s.book.reservations[id].status == Ledger.Active {
      ReleasesStayWithin(s, t, {id}, user, auction, wallet, stale);
    } else {
      WithinFollows(s, t, user, auction, wallet, stale, stale);
    }
  }

  lemma EndKeepsWithin(s: Sys, x: Action, user: string, auction: string, wallet: int, stale: set<nat>)
    requires SysOk(s) && CanDo(s, x) && Within(s, user, auction, wallet, stale) && x.DeliverEnded?
    ensures Within(Do(s, x), user, auction, wallet, stale)
  {
    var losers := Ledger.Losers(s.book.reservations, x.auction, WinnerField(s.bus.ended[x.auction]));
    ReleasesStayWithin(s, Do(s, x), losers, user, auction, wallet, stale);
  }

  lemma ChargeKeepsWithin(s: Sys, x: Action, user: string, auction: string, wallet: int, stale: set<nat>)
    requires SysOk(s) && CanDo(s, x) && Within(s, user, auction, wallet, stale) && x.ChargeMessage?
    ensures Within(Do(s, x), user, auction, wallet, Stale(s, x, Ledger.Key(user, auction), stale))
  {
    var k, t := Ledger.Key(user, auction), Do(s, x);
    if !ChargesOn(s, x, k) { PaymentRuns.ChargeElsewhere(s.book, x.id, k); }
    WithinFollows(s, t, user, auction, wallet, stale, Stale(s, x, k, stale));
  }

  lemma DoKeepsWithin(s: Sys, x: Action, user: string, auction: string, wallet: int, stale: set<nat>)
    requires SysOk(s) && CanDo(s, x) && Within(s, user, auction, wallet, stale) && PaymentRuns.ColonFree(user)
    requires Proper(s, x, Ledger.Key(user, auction), wallet, stale)
    ensures Within(Do(s, x), user, auction, wallet, Stale(s, x, Ledger.Key(user, auction), stale))
  {
    match x
    case AskValidate(_, _, _, _) => ValidateKeepsWithin(s, x, user, auction, wallet, stale);
    case AskReserve(_, _, _) => AskReserveKeepsWithin(s, x, user, auction, wallet, stale);
    case LateReserve(_) => LateReserveKeepsWithin(s, x, user, auction, wallet, stale);
    case DeliverRelease(p) => ReleaseKeepsWithin(s, Do(s, x), p, user, auction, wallet, stale);
    case ReleaseMessage(id) => ReleaseKeepsWithin(s, Do(s, x), id, user, auction, wallet, stale);
    case ChargeMessage(_) => ChargeKeepsWithin(s, x, user, auction, wallet, stale);
    case DeliverEnded(_) => EndKeepsWithin(s, x, user, auction, wallet, stale);
    case Announce(_, _, _, _) => WithinFollows(s, Do(s, x), user, auction, wallet, stale, stale);
    case _ => OwnKeepsWithin(s, x, user, auction, wallet, stale);
  }

  lemma {:induction false} RunKeepsWithin(
      s: Sys, actions: seq<Action>, t: Sys, user: string, auction: string, wallet: int, stale: set<nat>)
    requires SysOk(s) && GoesTo(s, actions, t) && Within(s, user, auction, wallet, stale)
    requires PaymentRuns.ColonFree(user) && ProperRun(s, actions, Ledger.Key(user, auction), wallet, stale)
    ensures Ledger.ReservedFor(t.book, Ledger.Key(user, auction)) <= wallet
    decreases |actions|
  {
    if actions != [] {
      DoKeepsOk(s, actions[0]);
      DoKeepsWithin(s, actions[0], user, auction, wallet, stale);
      RunKeepsWithin(Do(s, actions[0]), actions[1..], t, user, auction, wallet,
                     Stale(s, actions[0], Ledger.Key(user, auction), stale));
    }
  }

  /** In every run of protocol, ledger and messages that is proper about the user's key on the auction, what is
      counted there stays within the balance the wallet answers. */
  lemma SystemWithinBalance(actions: seq<Action>, s: Sys, user: string, auction: string, wallet: int)
    requires GoesTo(START, actions, s) && PaymentRuns.ColonFree(user) && 0 <= wallet
    requires ProperRun(START, actions, Ledger.Key(user, auction), wallet, {})
    ensures Ledger.ReservedFor(s.book, Ledger.Key(user, auction)) <= wallet
  {
    assert GoesTo(START, [], START);
    ReachableIsOk(START);
    RunKeepsWithin(START, actions, s, user, auction, wallet, {});
  }
}
