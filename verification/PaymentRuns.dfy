/**
 Every interleaving of the payment service's messages: validations and reserves of any number of
 requests overlap, with releases, charges and auction ends between them.

 A request is granted when its validation succeeds; a reserve runs later under a separate lock, whether or
 not it was granted.  The reservation takes the request's number as its fresh id.  The wallet balance of a
 user is fixed.
 */
module PaymentRuns {
  import opened Ledger

  /** `charged` says whether a charge has fallen on the grant's key since. */
  datatype Grant = Grant(user: string, auction: string, amount: int, charged: bool)

  /** `granted` is kept for the statements below and read by no handler: the requests whose last validation
      succeeded and whose reserve has not come, as it may never. */
  datatype Desk = Desk(book: Book, granted: map<nat, Grant>)

  datatype Message =
    | Validated(request: nat, user: string, auction: string, amount: int)
    | Reserved(request: nat, user: string, auction: string, amount: int)
    | ReleaseSent(id: nat)
    | ChargeSent(id: nat)
    | Ended(auction: string, winner: string)

  const EMPTY_DESK := Desk(EMPTY_BOOK, map[])

  predicate Enabled(d: Desk, m: Message) {
    match m
    case Validated(q, _, _, _) => q !in d.granted && q !in d.book.reservations
    case Reserved(q, _, _, _) => q !in d.book.reservations
    case _ => true
  }

  /** The grants after a charge of the reservation. */
  function AfterCharge(d: Desk, id: nat): map<nat, Grant> {
    if id in d.book.reservations && d.book.reservations[id].status == Active
    then map q | q in d.granted ::
           if Key(d.granted[q].user, d.granted[q].auction) == KeyOf(d.book.reservations[id])
           then d.granted[q].(charged := true)
           else d.granted[q]
    else d.granted
  }

  ghost function Step(wallet: string -> int, d: Desk, m: Message): Desk
    requires Enabled(d, m)
  {
    match m
    case Validated(q, user, auction, amount) =>
      if amount <= wallet(user) - ReservedFor(d.book, Key(user, auction))
      then d.(granted := d.granted[q := Grant(user, auction, amount, false)])
      else d
    case Reserved(q, user, auction, amount) => Desk(Reserve(d.book, q, user, auction, amount), d.granted - {q})
    case ReleaseSent(id) => d.(book := Release(d.book, id))
    case ChargeSent(id) => Desk(Charge(d.book, id), AfterCharge(d, id))
    case Ended(auction, winner) => d.(book := AuctionEnded(d.book, auction, winner))
  }

  ghost predicate Leads(wallet: string -> int, d: Desk, messages: seq<Message>, e: Desk)
    decreases |messages|
  {
    if messages == [] then d == e
    else Enabled(d, messages[0]) && Leads(wallet, Step(wallet, d, messages[0]), messages[1..], e)
  }

  // ----- over every run --------------------------------------------------------------------------------

  lemma StepKeepsBook(wallet: string -> int, d: Desk, m: Message)
    requires Enabled(d, m)
    ensures BookOk(d.book) ==> BookOk(Step(wallet, d, m).book)
    ensures StatusesFinal(d.book, Step(wallet, d, m).book)
  {
    if BookOk(d.book) {
      match m
      case Validated(_, _, _, _) =>
      case Reserved(q, user, auction, amount) => ReserveOk(d.book, q, user, auction, amount);
      case ReleaseSent(id) => if Release(d.book, id) != d.book { ReleaseAllOk(d.book, {id}); }
      case ChargeSent(id) => ChargeOk(d.book, id);
      case Ended(auction, winner) => ReleaseAllOk(d.book, Losers(d.book.reservations, auction, winner));
    }
  }

  /** In every run the totals balance, each user has at most one active reservation per auction, and a
      reservation that was released or charged never changes again. */
  lemma {:induction false} RunKeepsBook(wallet: string -> int, d: Desk, messages: seq<Message>, e: Desk)
    requires Leads(wallet, d, messages, e) && BookOk(d.book)
    ensures BookOk(e.book) && StatusesFinal(d.book, e.book)
    decreases |messages|
  {
    if messages != [] {
      StepKeepsBook(wallet, d, messages[0]);
      RunKeepsBook(wallet, Step(wallet, d, messages[0]), messages[1..], e);
    }
  }

  // ----- keys and charges --------------------------------------------------------------------------------

  predicate ColonFree(s: string) {
    ':' !in s
  }

  lemma ColonEndsUser(u: string, a: string)
    requires ColonFree(u)
    ensures Key(u, a)[|u|] == ':' && forall i :: 0 <= i < |u| ==> Key(u, a)[i] != ':'
    ensures Key(u, a)[..|u|] == u && Key(u, a)[|u| + 1..] == a
  {
  }

  /** Without colons in the user id, a key names one user and one auction. */
  lemma KeyIsInjective(u: string, a: string, v: string, b: string)
    requires ColonFree(u) && ColonFree(v) && Key(u, a) == Key(v, b)
    ensures u == v && a == b
  {
    ColonEndsUser(u, a);
    ColonEndsUser(v, b);
  }

  function ChargedOn(rs: map<nat, Reservation>, k: string): map<nat, int> {
    map id | id in rs && KeyOf(rs[id]) == k && rs[id].status == Charged :: rs[id].amount
  }

  /** The reservations under one key are of users without colons. */
  ghost predicate NoColons(b: Book, k: string) {
    forall id :: id in b.reservations && KeyOf(b.reservations[id]) == k ==> ColonFree(b.reservations[id].user)
  }

  /** And their amounts are not negative. */
  ghost predicate Sane(b: Book, k: string) {
    && NoColons(b, k)
    && forall id :: id in b.reservations && KeyOf(b.reservations[id]) == k ==> 0 <= b.reservations[id].amount
  }

  /** Right after a reserve, the key's total is exactly what has been charged under it plus the new
      amount: it is within a balance if and only if those two are. */
  lemma ReserveTotal(b: Book, id: nat, user: string, auction: string, amount: int)
    requires BookOk(b) && NoColons(b, Key(user, auction)) && ColonFree(user) && id !in b.reservations
    ensures ReservedFor(Reserve(b, id, user, auction, amount), Key(user, auction))
         == Sum(ChargedOn(b.reservations, Key(user, auction))) + amount
  {
    var k, mine := Key(user, auction), ActiveOf(b.reservations, user, auction);
    var freed := ReleaseAll(b, mine);
    ReleaseAllOk(b, mine);
    OnlyChargedLeft(b, user, auction);
  }

  /** With the user's own reservation on the auction released, its key counts charges alone. */
  lemma OnlyChargedLeft(b: Book, user: string, auction: string)
    requires NoColons(b, Key(user, auction)) && ColonFree(user)
    ensures var k := Key(user, auction);
            Held(MarkReleased(b.reservations, ActiveOf(b.reservations, user, auction)), k)
            == ChargedOn(b.reservations, k)
  {
    forall x | x in b.reservations && KeyOf(b.reservations[x]) == Key(user, auction)
      ensures b.reservations[x].user == user && b.reservations[x].auction == auction
    {
      KeyIsInjective(b.reservations[x].user, b.reservations[x].auction, user, auction);
    }
  }

  lemma OtherKeysKeep(b: Book, id: nat, user: string, auction: string, amount: int, k: string)
    requires id !in b.reservations && k != Key(user, auction)
    ensures ReservedFor(Reserve(b, id, user, auction, amount), k) == ReservedFor(b, k)
    ensures ChargedOn(Reserve(b, id, user, auction, amount).reservations, k) == ChargedOn(b.reservations, k)
  {
    var mine := ActiveOf(b.reservations, user, auction);
    ReservedAfter(b, mine, k);
    assert AmountsIn(b.reservations, mine, k) == map[];
  }

  lemma ReleasingLowers(b: Book, ids: set<nat>, k: string)
    requires Sane(b, k) && forall id :: id in ids ==> id in b.reservations && b.reservations[id].status == Active
    ensures ReservedFor(ReleaseAll(b, ids), k) <= ReservedFor(b, k)
    ensures ChargedOn(ReleaseAll(b, ids).reservations, k) == ChargedOn(b.reservations, k)
  {
    ReservedAfter(b, ids, k);
    SumNonnegative(AmountsIn(b.reservations, ids, k));
  }

  lemma ChargedWithinHeld(b: Book, k: string)
    requires BookOk(b) && Sane(b, k)
    ensures Sum(ChargedOn(b.reservations, k)) <= ReservedFor(b, k)
  {
    ChargedSplits(b.reservations, k);
  }

  lemma ChargedSplits(rs: map<nat, Reservation>, k: string)
    requires forall id :: id in rs && KeyOf(rs[id]) == k ==> 0 <= rs[id].amount
    ensures Sum(ChargedOn(rs, k)) <= Sum(Held(rs, k))
  {
    var charged, active := ChargedOn(rs, k), Held(rs, k) - ChargedOn(rs, k).Keys;
    assert charged + active == Held(rs, k);
    SumJoin(charged, active);
    SumNonnegative(active);
  }

  // ----- what the bound needs of the messages about one key -----------------------------------------------

  /** Amounts are not negative; user ids have no colon; every reserve follows its own granted validation; and
      no charge falls on the key between the two. */
  datatype Rule = NotNegative | NoColon | Granted | NoChargeBetween

  predicate Keeps(rule: Rule, d: Desk, m: Message, k: string) {
    match rule
    case NotNegative => m.Validated? && Key(m.user, m.auction) == k ==> 0 <= m.amount
    case NoColon => m.Validated? && Key(m.user, m.auction) == k ==> ColonFree(m.user)
    case Granted =>
      m.Reserved? && Key(m.user, m.auction) == k ==>
        && m.request in d.granted
        && d.granted[m.request] == Grant(m.user, m.auction, m.amount, d.granted[m.request].charged)
    case NoChargeBetween =>
      m.Reserved? && Key(m.user, m.auction) == k && m.request in d.granted ==> !d.granted[m.request].charged
  }

  /** The message keeps, as far as one key goes, every rule but the excused ones. */
  ghost predicate Proper(d: Desk, m: Message, k: string, excused: set<Rule>) {
    forall rule :: rule in excused || Keeps(rule, d, m, k)
  }

  ghost predicate ProperRun(wallet: string -> int, d: Desk, messages: seq<Message>, k: string, excused: set<Rule>)
    decreases |messages|
  {
    messages != [] && Enabled(d, messages[0]) ==>
      && Proper(d, messages[0], k, excused)
      && ProperRun(wallet, Step(wallet, d, messages[0]), messages[1..], k, excused)
  }

  // ----- the bound ---------------------------------------------------------------------------------------

  /** While no charge has fallen on its key since, the grant's amount fits beside what was charged. */
  ghost predicate GrantOk(wallet: string -> int, b: Book, g: Grant) {
    && 0 <= g.amount && ColonFree(g.user)
    && (!g.charged ==> Sum(ChargedOn(b.reservations, Key(g.user, g.auction))) + g.amount <= wallet(g.user))
  }

  ghost predicate GrantsOk(wallet: string -> int, d: Desk, k: string) {
    forall q :: q in d.granted && Key(d.granted[q].user, d.granted[q].auction) == k ==>
      GrantOk(wallet, d.book, d.granted[q])
  }

  ghost predicate Bounded(wallet: string -> int, d: Desk, user: string, auction: string) {
    && BookOk(d.book) && Sane(d.book, Key(user, auction)) && GrantsOk(wallet, d, Key(user, auction))
    && ReservedFor(d.book, Key(user, auction)) <= wallet(user)
  }

  lemma ValidatedKeepsBound(wallet: string -> int, d: Desk, m: Message, user: string, auction: string)
    requires Bounded(wallet, d, user, auction) && Enabled(d, m) && m.Validated?
    requires Key(m.user, m.auction) == Key(user, auction) ==> 0 <= m.amount && ColonFree(m.user)
    ensures Bounded(wallet, Step(wallet, d, m), user, auction)
  {
    ChargedWithinHeld(d.book, Key(user, auction));
  }

  lemma ReserveKeepsCharged(b: Book, q: nat, user: string, auction: string, amount: int, k: string)
    requires q !in b.reservations
    ensures ChargedOn(Reserve(b, q, user, auction, amount).reservations, k) == ChargedOn(b.reservations, k)
  {
  }

  lemma ReserveKeepsSane(b: Book, q: nat, user: string, auction: string, amount: int, k: string)
    requires q !in b.reservations && Sane(b, k) && (Key(user, auction) == k ==> 0 <= amount && ColonFree(user))
    ensures Sane(Reserve(b, q, user, auction, amount), k)
  {
    ReserveActives(b, q, user, auction, amount);
  }

  lemma ReservedKeepsBound(wallet: string -> int, d: Desk, m: Message, user: string, auction: string)
    requires Bounded(wallet, d, user, auction) && Enabled(d, m) && m.Reserved? && ColonFree(user)
    requires Key(m.user, m.auction) == Key(user, auction) ==>
               m.request in d.granted && d.granted[m.request] == Grant(m.user, m.auction, m.amount, false)
    ensures Bounded(wallet, Step(wallet, d, m), user, auction)
  {
    var k, e := Key(user, auction), Step(wallet, d, m);
    ReserveOk(d.book, m.request, m.user, m.auction, m.amount);
    ReserveKeepsCharged(d.book, m.request, m.user, m.auction, m.amount, k);
    if Key(m.user, m.auction) == k {
      assert GrantOk(wallet, d.book, d.granted[m.request]);
      KeyIsInjective(user, auction, m.user, m.auction);
      ReserveTotal(d.book, m.request, m.user, m.auction, m.amount);
    } else {
      OtherKeysKeep(d.book, m.request, m.user, m.auction, m.amount, k);
    }
    ReserveKeepsSane(d.book, m.request, m.user, m.auction, m.amount, k);
    forall q | q in e.granted && Key(e.granted[q].user, e.granted[q].auction) == k
      ensures GrantOk(wallet, e.book, e.granted[q])
    {
      assert GrantOk(wallet, d.book, d.granted[q]);
    }
  }

  lemma ReleasedKeepsBound(wallet: string -> int, d: Desk, ids: set<nat>, user: string, auction: string)
    requires Bounded(wallet, d, user, auction)
    requires forall id :: id in ids ==> id in d.book.reservations && d.book.reservations[id].status == Active
    ensures Bounded(wallet, d.(book := ReleaseAll(d.book, ids)), user, auction)
  {
    var k, e := Key(user, auction), d.(book := ReleaseAll(d.book, ids));
    ReleaseAllOk(d.book, ids);
    ReleasingLowers(d.book, ids, k);
    forall q | q in e.granted && Key(e.granted[q].user, e.granted[q].auction) == k
      ensures GrantOk(wallet, e.book, e.granted[q])
    {
      assert GrantOk(wallet, d.book, d.granted[q]);
    }
  }

  lemma ChargeElsewhere(b: Book, id: nat, k: string)
    requires id in b.reservations && b.reservations[id].status == Active ==> KeyOf(b.reservations[id]) != k
    ensures ChargedOn(Charge(b, id).reservations, k) == ChargedOn(b.reservations, k)
  {
  }

  /** A charge counts as before; the grants on its key no longer promise anything. */
  lemma ChargedKeepsBound(wallet: string -> int, d: Desk, id: nat, user: string, auction: string)
    requires Bounded(wallet, d, user, auction)
    ensures Bounded(wallet, Desk(Charge(d.book, id), AfterCharge(d, id)), user, auction)
  {
    var k, e := Key(user, auction), Desk(Charge(d.book, id), AfterCharge(d, id));
    ChargeOk(d.book, id);
    forall q | q in e.granted && Key(e.granted[q].user, e.granted[q].auction) == k
      ensures GrantOk(wallet, e.book, e.granted[q])
    {
      assert GrantOk(wallet, d.book, d.granted[q]);
      if !e.granted[q].charged { ChargeElsewhere(d.book, id, k); }
    }
  }

  lemma StepKeepsBound(wallet: string -> int, d: Desk, m: Message, user: string, auction: string)
    requires Bounded(wallet, d, user, auction) && Enabled(d, m) && ColonFree(user)
    requires Proper(d, m, Key(user, auction), {})
    ensures Bounded(wallet, Step(wallet, d, m), user, auction)
  {
    var k := Key(user, auction);
    assert Keeps(NotNegative, d, m, k) && Keeps(NoColon, d, m, k);
    assert Keeps(Granted, d, m, k) && Keeps(NoChargeBetween, d, m, k);
    match m
    case Validated(_, _, _, _) => ValidatedKeepsBound(wallet, d, m, user, auction);
    case Reserved(_, _, _, _) => ReservedKeepsBound(wallet, d, m, user, auction);
    case ReleaseSent(id) => if Release(d.book, id) != d.book { ReleasedKeepsBound(wallet, d, {id}, user, auction); }
    case ChargeSent(id) => ChargedKeepsBound(wallet, d, id, user, auction);
    case Ended(a, winner) => ReleasedKeepsBound(wallet, d, Losers(d.book.reservations, a, winner), user, auction);
  }

  lemma {:induction false} RunKeepsBound(
      wallet: string -> int, d: Desk, messages: seq<Message>, e: Desk, user: string, auction: string)
    requires Bounded(wallet, d, user, auction) && Leads(wallet, d, messages, e) && ColonFree(user)
    requires ProperRun(wallet, d, messages, Key(user, auction), {})
    ensures Bounded(wallet, e, user, auction)
    decreases |messages|
  {
    if messages != [] {
      StepKeepsBound(wallet, d, messages[0], user, auction);
      RunKeepsBound(wallet, Step(wallet, d, messages[0]), messages[1..], e, user, auction);
    }
  }

  /** However validations and reserves overlap, what is counted for a user on an auction stays within the
      user's balance, as long as the messages about that key keep the rules; what the others do, and grants
      never followed by their reserve, do not matter. */
  lemma ReservedWithinBalance(wallet: string -> int, messages: seq<Message>, e: Desk, user: string, auction: string)
    requires Leads(wallet, EMPTY_DESK, messages, e) && ColonFree(user) && 0 <= wallet(user)
    requires ProperRun(wallet, EMPTY_DESK, messages, Key(user, auction), {})
    ensures ReservedFor(e.book, Key(user, auction)) <= wallet(user)
  {
    EmptyBookOk();
    RunKeepsBound(wallet, EMPTY_DESK, messages, e, user, auction);
  }
}
