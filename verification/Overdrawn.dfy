/**
 No rule of the payment bound can be spared: for each one there is a run that keeps all the others and ends
 with more counted for a user on an auction than the user's balance.
 */
module Overdrawn {
  import opened Ledger
  import opened PaymentRuns

  /** Everybody's wallet holds 1. */
  const WALLET: string -> int := _ => 1

  /** Where a run leads that keeps, about one key, the rules not excused. */
  ghost predicate Reached(d: Desk, k: string, excused: set<Rule>) {
    exists messages :: Leads(WALLET, EMPTY_DESK, messages, d) && ProperRun(WALLET, EMPTY_DESK, messages, k, excused)
  }

  lemma {:induction false} GoesOn(
      d: Desk, messages: seq<Message>, e: Desk, m: Message, k: string, excused: set<Rule>)
    requires Leads(WALLET, d, messages, e) && ProperRun(WALLET, d, messages, k, excused)
    requires Enabled(e, m) && Proper(e, m, k, excused)
    ensures Leads(WALLET, d, messages + [m], Step(WALLET, e, m))
    ensures ProperRun(WALLET, d, messages + [m], k, excused)
    decreases |messages|
  {
    if messages == [] {
      assert [m][1..] == [];
    } else {
      GoesOn(Step(WALLET, d, messages[0]), messages[1..], e, m, k, excused);
      assert (messages + [m])[1..] == messages[1..] + [m];
    }
  }

  lemma Goes(d: Desk, m: Message, k: string, excused: set<Rule>) returns (e: Desk)
    requires Reached(d, k, excused) && Enabled(d, m) && Proper(d, m, k, excused)
    ensures Reached(e, k, excused) && e == Step(WALLET, d, m)
  {
    var messages :| Leads(WALLET, EMPTY_DESK, messages, d) && ProperRun(WALLET, EMPTY_DESK, messages, k, excused);
    GoesOn(EMPTY_DESK, messages, d, m, k, excused);
    e := Step(WALLET, d, m);
  }

  lemma Opens(k: string, excused: set<Rule>) returns (d: Desk)
    ensures Reached(d, k, excused) && d == EMPTY_DESK && BookOk(d.book)
  {
    d := EMPTY_DESK;
    assert Leads(WALLET, EMPTY_DESK, [], d) && ProperRun(WALLET, EMPTY_DESK, [], k, excused);
    EmptyBookOk();
  }

  /** A validation that succeeds. */
  lemma Validates(d: Desk, q: nat, user: string, auction: string, amount: int, k: string, rule: Rule)
    returns (e: Desk)
    requires Reached(d, k, {rule}) && q !in d.granted && q !in d.book.reservations
    requires amount <= 1 - ReservedFor(d.book, Key(user, auction))
    requires (rule == NotNegative || 0 <= amount) && (rule == NoColon || ColonFree(user))
    ensures Reached(e, k, {rule})
    ensures e == d.(granted := d.granted[q := Grant(user, auction, amount, false)])
  {
    e := Goes(d, Validated(q, user, auction, amount), k, {rule});
  }

  /** The reserve of a granted request. */
  lemma Reserves(d: Desk, q: nat, k: string, rule: Rule) returns (e: Desk)
    requires Reached(d, k, {rule}) && BookOk(d.book) && q in d.granted && q !in d.book.reservations
    requires rule == NoChargeBetween || !d.granted[q].charged
    ensures Reached(e, k, {rule}) && BookOk(e.book)
    ensures var g := d.granted[q]; e == Desk(Reserve(d.book, q, g.user, g.auction, g.amount), d.granted - {q})
  {
    var g := d.granted[q];
    e := Goes(d, Reserved(q, g.user, g.auction, g.amount), k, {rule});
    ReserveOk(d.book, q, g.user, g.auction, g.amount);
  }

  /** The reservations of a first reserve and its key's total. */
  lemma FirstReserve(id: nat, user: string, auction: string, amount: int)
    ensures var b := Reserve(EMPTY_BOOK, id, user, auction, amount);
            && b.reservations == map[id := Reservation(user, auction, amount, Active)] && BookOk(b)
            && ReservedFor(b, Key(user, auction)) == amount
  {
    EmptyBookOk();
    ReserveOk(EMPTY_BOOK, id, user, auction, amount);
    ReserveActives(EMPTY_BOOK, id, user, auction, amount);
    var k, b := Key(user, auction), Reserve(EMPTY_BOOK, id, user, auction, amount);
    SumInsert(Held(b.reservations, k), map[], id, amount);
  }

  ghost predicate Overdraws(d: Desk, user: string, auction: string) {
    ReservedFor(d.book, Key(user, auction)) > WALLET(user)
  }

  /** A reserve that nobody validated. */
  lemma NobodyAsked(user: string, auction: string) returns (d: Desk)
    ensures Reached(d, Key(user, auction), {Granted}) && Overdraws(d, user, auction)
  {
    d := Opens(Key(user, auction), {Granted});
    d := Goes(d, Reserved(0, user, auction, 2), Key(user, auction), {Granted});
    FirstReserve(0, user, auction, 2);
  }

  /** One request is granted, and while it is reserved the other, which it makes room for. */
  lemma GivesCredit(user: string, auction: string) returns (d: Desk)
    requires ColonFree(user)
    ensures Reached(d, Key(user, auction), {NotNegative}) && Overdraws(d, user, auction)
  {
    var k := Key(user, auction);
    d := Opens(k, {NotNegative});
    d := Validates(d, 0, user, auction, -1, k, NotNegative);
    d := Reserves(d, 0, k, NotNegative);
    FirstReserve(0, user, auction, -1);
    d := Validates(d, 1, user, auction, 2, k, NotNegative);
    ReserveTotal(d.book, 1, user, auction, 2);
    assert ChargedOn(d.book.reservations, k) == map[];
    d := Reserves(d, 1, k, NotNegative);
  }

  lemma TwoGranted(user: string, auction: string, other: string, elsewhere: string, k: string, rule: Rule)
    returns (d: Desk)
    requires ColonFree(user) && (rule == NoColon || ColonFree(other))
    ensures Reached(d, k, {rule}) && d.book == Reserve(EMPTY_BOOK, 0, user, auction, 1) && BookOk(d.book)
    ensures d.granted == map[1 := Grant(other, elsewhere, 1, false)]
  {
    d := Opens(k, {rule});
    d := Validates(d, 0, user, auction, 1, k, rule);
    d := Validates(d, 1, other, elsewhere, 1, k, rule);
    d := Reserves(d, 0, k, rule);
  }

  /** Two requests are granted before either reserves; the first reserves and is charged before the second. */
  lemma ChargesBetween(user: string, auction: string) returns (d: Desk)
    requires ColonFree(user)
    ensures Reached(d, Key(user, auction), {NoChargeBetween}) && Overdraws(d, user, auction)
  {
    var k := Key(user, auction);
    d := TwoGranted(user, auction, user, auction, k, NoChargeBetween);
    FirstReserve(0, user, auction, 1);
    ChargeOk(d.book, 0);
    d := Goes(d, ChargeSent(0), k, {NoChargeBetween});
    assert ChargedOn(d.book.reservations, k) == map[0 := 1];
    SumInsert(map[0 := 1], map[], 0, 1);
    ReserveTotal(d.book, 1, user, auction, 1);
    d := Reserves(d, 1, k, NoChargeBetween);
  }

  /** A second user whose key is the same: the first colon of the one is the second of the other. */
  lemma SharesKey(user: string, x: string, y: string) returns (d: Desk)
    requires ColonFree(user)
    ensures Reached(d, Key(user, x + ":" + y), {NoColon}) && Overdraws(d, user, x + ":" + y)
  {
    var auction, other := x + ":" + y, user + ":" + x;
    var k := Key(user, auction);
    assert Key(other, y) == k;
    d := TwoGranted(user, auction, other, y, k, NoColon);
    FirstReserve(0, user, auction, 1);
    assert |other| > |user|;
    assert ActiveOf(d.book.reservations, other, y) == {};
    ReleaseNone(d.book);
    d := Reserves(d, 1, k, NoColon);
  }

  /** For every rule there is a run that keeps all the others and overdraws. */
  lemma EachRuleIsNeeded(rule: Rule, user: string, x: string, y: string) returns (d: Desk)
    requires ColonFree(user)
    ensures Reached(d, Key(user, x + ":" + y), {rule}) && Overdraws(d, user, x + ":" + y)
  {
    match rule
    case NotNegative => d := GivesCredit(user, x + ":" + y);
    case NoColon => d := SharesKey(user, x, y);
    case Granted => d := NobodyAsked(user, x + ":" + y);
    case NoChargeBetween => d := ChargesBetween(user, x + ":" + y);
  }

  lemma {:induction false} ExcusedMore(d: Desk, messages: seq<Message>, k: string, few: set<Rule>, more: set<Rule>)
    requires ProperRun(WALLET, d, messages, k, few) && few <= more
    ensures ProperRun(WALLET, d, messages, k, more)
    decreases |messages|
  {
    if messages != [] && Enabled(d, messages[0]) {
      ExcusedMore(Step(WALLET, d, messages[0]), messages[1..], k, few, more);
    }
  }

  /** The bound holds in every run that keeps the rules not excused if and only if none is excused. */
  lemma RulesAreExact(excused: set<Rule>, user: string, x: string, y: string)
    requires ColonFree(user)
    ensures (forall d :: Reached(d, Key(user, x + ":" + y), excused) ==> !Overdraws(d, user, x + ":" + y))
            <==> excused == {}
  {
    var k := Key(user, x + ":" + y);
    if excused == {} {
      forall d | Reached(d, k, excused)
        ensures !Overdraws(d, user, x + ":" + y)
      {
        var messages :| Leads(WALLET, EMPTY_DESK, messages, d) && ProperRun(WALLET, EMPTY_DESK, messages, k, excused);
        ReservedWithinBalance(WALLET, messages, d, user, x + ":" + y);
      }
    } else {
      var rule :| rule in excused;
      var d := EachRuleIsNeeded(rule, user, x, y);
      var messages :| Leads(WALLET, EMPTY_DESK, messages, d) && ProperRun(WALLET, EMPTY_DESK, messages, k, {rule});
      ExcusedMore(EMPTY_DESK, messages, k, {rule}, excused);
    }
  }
}
