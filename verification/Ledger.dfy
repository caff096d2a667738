/**
 The reservation ledger of internal/payment/validator.go as a value, with what each handler does to
 it.  Amounts are whole cents; a reservation's UUID is a fresh number.
 */
module Ledger {
  datatype Status = Active | Released | Charged

  datatype Reservation = Reservation(user: string, auction: string, amount: int, status: Status)

  datatype Book = Book(reservations: map<nat, Reservation>, reserved: map<string, int>)

  const EMPTY_BOOK := Book(map[], map[])

  /** The user id and the auction id, joined by a colon. */
  function Key(user: string, auction: string): string {
    user + ":" + auction
  }

  function KeyOf(r: Reservation): string {
    Key(r.user, r.auction)
  }

  /** A Go map read: a missing key counts as zero. */
  function ReservedFor(b: Book, k: string): int {
    if k in b.reserved then b.reserved[k] else 0
  }

  // ----- sums over maps -----------------------------------------------------------------------------

  ghost function Sum(m: map<nat, int>): int
    decreases |m|
  {
    if m == map[] then 0
    else
      var k :| k in m;
      m[k] + Sum(m - {k})
  }

  lemma {:induction false} SumRemove(m: map<nat, int>, k: nat)
    requires k in m
    ensures Sum(m) == m[k] + Sum(m - {k})
    decreases |m|
  {
    var first :| first in m && Sum(m) == m[first] + Sum(m - {first});
    if first != k {
      SumRemove(m - {first}, k);
      SumRemove(m - {k}, first);
      assert (m - {first}) - {k} == (m - {k}) - {first};
    }
  }

  lemma {:induction false} SumJoin(a: map<nat, int>, b: map<nat, int>)
    requires a.Keys !! b.Keys
    ensures Sum(a + b) == Sum(a) + Sum(b)
    decreases |b|
  {
    if b == map[] {
      assert a + b == a;
    } else {
      var k :| k in b;
      SumJoin(a, b - {k});
      SumRemove(b, k);
      SumRemove(a + b, k);
      JoinRemove(a, b, k);
    }
  }

  lemma JoinRemove(a: map<nat, int>, b: map<nat, int>, k: nat)
    requires a.Keys !! b.Keys && k in b
    ensures (a + b) - {k} == a + (b - {k})
  {
  }

  /** One number more. */
  lemma SumInsert(m: map<nat, int>, less: map<nat, int>, k: nat, x: int)
    requires k !in less && m == less[k := x]
    ensures Sum(m) == Sum(less) + x
  {
    assert m - {k} == less;
    SumRemove(m, k);
  }

  lemma {:induction false} SumNonnegative(m: map<nat, int>)
    requires forall k :: k in m ==> 0 <= m[k]
    ensures 0 <= Sum(m)
    decreases |m|
  {
    if m != map[] {
      var k :| k in m;
      SumRemove(m, k);
      SumNonnegative(m - {k});
    }
  }

  // ----- parts of the book ----------------------------------------------------------------------------

  /** Amounts still counted under a key: active or charged. */
  function Held(rs: map<nat, Reservation>, k: string): map<nat, int> {
    map id | id in rs && KeyOf(rs[id]) == k && rs[id].status != Released :: rs[id].amount
  }

  function AmountsIn(rs: map<nat, Reservation>, ids: set<nat>, k: string): map<nat, int> {
    map id | id in rs && id in ids && KeyOf(rs[id]) == k :: rs[id].amount
  }

  function ActiveOf(rs: map<nat, Reservation>, user: string, auction: string): set<nat> {
    set id | id in rs && rs[id].user == user && rs[id].auction == auction && rs[id].status == Active
  }

  function Losers(rs: map<nat, Reservation>, auction: string, winner: string): set<nat> {
    set id | id in rs && rs[id].auction == auction && rs[id].status == Active && rs[id].user != winner
  }

  function KeysOf(rs: map<nat, Reservation>, ids: set<nat>): set<string> {
    set id | id in rs && id in ids :: KeyOf(rs[id])
  }

  // ----- what the handlers do ---------------------------------------------------------------------------

  function MarkReleased(rs: map<nat, Reservation>, ids: set<nat>): map<nat, Reservation> {
    map id | id in rs :: if id in ids then rs[id].(status := Released) else rs[id]
  }

  /** Releases the given reservations, all at once. */
  ghost function ReleaseAll(b: Book, ids: set<nat>): Book {
    Book(MarkReleased(b.reservations, ids), Lowered(b, ids))
  }

  ghost function Lowered(b: Book, ids: set<nat>): map<string, int> {
    map k | k in b.reserved.Keys + KeysOf(b.reservations, ids) ::
      ReservedFor(b, k) - Sum(AmountsIn(b.reservations, ids, k))
  }

  ghost function Reserve(b: Book, id: nat, user: string, auction: string, amount: int): Book {
    var freed := ReleaseAll(b, ActiveOf(b.reservations, user, auction));
    var k := Key(user, auction);
    Book(freed.reservations[id := Reservation(user, auction, amount, Active)],
         freed.reserved[k := ReservedFor(freed, k) + amount])
  }

  ghost function Release(b: Book, id: nat): Book {
    if id in b.reservations && b.reservations[id].status == Active then ReleaseAll(b, {id}) else b
  }

  function Charge(b: Book, id: nat): Book {
    if id in b.reservations && b.reservations[id].status == Active
    then b.(reservations := b.reservations[id := b.reservations[id].(status := Charged)])
    else b
  }

  ghost function AuctionEnded(b: Book, auction: string, winner: string): Book {
    ReleaseAll(b, Losers(b.reservations, auction, winner))
  }

  /** One reservation marked released, and its amount taken off its key's total. */
  function OneLess(b: Book, id: nat): Book
    requires id in b.reservations
  {
    var r := b.reservations[id];
    Book(b.reservations[id := r.(status := Released)], b.reserved[KeyOf(r) := ReservedFor(b, KeyOf(r)) - r.amount])
  }

  /** Releasing one at a time, in whatever order, adds up to releasing all at once. */
  lemma ReleaseOneMore(b: Book, ids: set<nat>, id: nat)
    requires id in b.reservations && id !in ids
    ensures ReleaseAll(b, ids + {id}) == OneLess(ReleaseAll(b, ids), id)
  {
    MarkOneMore(b.reservations, ids, id);
    OneLessIs(ReleaseAll(b, ids), id, b.reservations[id]);
    LowerOneMore(b, ids, id);
  }

  lemma MarkOneMore(rs: map<nat, Reservation>, ids: set<nat>, id: nat)
    requires id in rs && id !in ids
    ensures MarkReleased(rs, ids)[id] == rs[id]
    ensures MarkReleased(rs, ids + {id}) == MarkReleased(rs, ids)[id := rs[id].(status := Released)]
  {
  }

  lemma OneLessIs(b: Book, id: nat, r: Reservation)
    requires id in b.reservations && b.reservations[id] == r
    ensures OneLess(b, id)
         == Book(b.reservations[id := r.(status := Released)],
                 b.reserved[KeyOf(r) := ReservedFor(b, KeyOf(r)) - r.amount])
  {
  }

  /** What a key's total drops by, whether or not the map had the key. */
  lemma ReservedAfter(b: Book, ids: set<nat>, k: string)
    ensures ReservedFor(ReleaseAll(b, ids), k) == ReservedFor(b, k) - Sum(AmountsIn(b.reservations, ids, k))
  {
    if k !in Lowered(b, ids) { NoAmounts(b.reservations, ids, k); }
  }

  lemma LowerOneMore(b: Book, ids: set<nat>, id: nat)
    requires id in b.reservations && id !in ids
    ensures var r := b.reservations[id]; var k := KeyOf(r);
            Lowered(b, ids + {id}) == Lowered(b, ids)[k := ReservedFor(ReleaseAll(b, ids), k) - r.amount]
  {
    var key := KeyOf(b.reservations[id]);
    var next := Lowered(b, ids)[key := ReservedFor(ReleaseAll(b, ids), key) - b.reservations[id].amount];
    assert Lowered(b, ids + {id}).Keys == next.Keys;
    forall k | k in next
      ensures Lowered(b, ids + {id})[k] == next[k]
    {
      ReservedAfter(b, ids, k);
      MoreAmounts(b.reservations, ids, id, k);
    }
  }

  lemma MoreAmounts(rs: map<nat, Reservation>, ids: set<nat>, id: nat, k: string)
    requires id in rs && id !in ids
    ensures Sum(AmountsIn(rs, ids + {id}, k))
         == Sum(AmountsIn(rs, ids, k)) + if k == KeyOf(rs[id]) then rs[id].amount else 0
  {
    var more, less := AmountsIn(rs, ids + {id}, k), AmountsIn(rs, ids, k);
    if k == KeyOf(rs[id]) {
      SumInsert(more, less, id, rs[id].amount);
    } else {
      assert more == less;
    }
  }

  lemma NoAmounts(rs: map<nat, Reservation>, ids: set<nat>, k: string)
    requires k !in KeysOf(rs, ids)
    ensures Sum(AmountsIn(rs, ids, k)) == 0
  {
    assert AmountsIn(rs, ids, k) == map[];
  }

  lemma ReleaseNone(b: Book)
    ensures ReleaseAll(b, {}) == b
  {
    forall k | k in b.reserved
      ensures Sum(AmountsIn(b.reservations, {}, k)) == 0
    {
      assert AmountsIn(b.reservations, {}, k) == map[];
    }
    assert ReleaseAll(b, {}).reserved == b.reserved;
  }

  // ----- what every handler keeps -------------------------------------------------------------------------

  /** The running total of every key is the sum of what is active or charged under it. */
  ghost predicate Balanced(b: Book) {
    forall k :: ReservedFor(b, k) == Sum(Held(b.reservations, k))
  }

  /** At most one active reservation per user and auction. */
  ghost predicate OneActive(b: Book) {
    forall i, j :: i in b.reservations && j in b.reservations && i != j
                   && b.reservations[i].status == Active && b.reservations[j].status == Active
                   ==> || b.reservations[i].user != b.reservations[j].user
                       || b.reservations[i].auction != b.reservations[j].auction
  }

  ghost predicate BookOk(b: Book) {
    Balanced(b) && OneActive(b)
  }

  lemma EmptyBookOk()
    ensures BookOk(EMPTY_BOOK)
  {
    forall k
      ensures Held(EMPTY_BOOK.reservations, k) == map[]
    {
    }
  }

  lemma ReleaseAllOk(b: Book, ids: set<nat>)
    requires BookOk(b)
    requires forall id :: id in ids ==> id in b.reservations && b.reservations[id].status == Active
    ensures BookOk(ReleaseAll(b, ids))
  {
    var d := ReleaseAll(b, ids);
    forall k
      ensures ReservedFor(d, k) == Sum(Held(d.reservations, k))
    {
      HeldSplits(b.reservations, ids, k);
      if k !in d.reserved { NoAmounts(b.reservations, ids, k); }
    }
  }

  lemma ReleaseOk(b: Book, id: nat)
    requires BookOk(b)
    ensures BookOk(Release(b, id))
  {
    if id in b.reservations && b.reservations[id].status == Active { ReleaseAllOk(b, {id}); }
  }

  lemma HeldSplits(rs: map<nat, Reservation>, ids: set<nat>, k: string)
    requires forall id :: id in ids ==> id in rs && rs[id].status == Active
    ensures Sum(Held(rs, k)) == Sum(Held(MarkReleased(rs, ids), k)) + Sum(AmountsIn(rs, ids, k))
  {
    var kept, gone := Held(MarkReleased(rs, ids), k), AmountsIn(rs, ids, k);
    assert kept.Keys !! gone.Keys;
    assert kept + gone == Held(rs, k);
    SumJoin(kept, gone);
  }

  lemma ReserveOk(b: Book, id: nat, user: string, auction: string, amount: int)
    requires BookOk(b) && id !in b.reservations
    ensures BookOk(Reserve(b, id, user, auction, amount))
  {
    ReleaseAllOk(b, ActiveOf(b.reservations, user, auction));
    var freed := ReleaseAll(b, ActiveOf(b.reservations, user, auction));
    AddKeepsBalance(freed, id, Reservation(user, auction, amount, Active));
    ReserveKeepsOneActive(b, id, user, auction, amount);
  }

  lemma ReserveKeepsOneActive(b: Book, id: nat, user: string, auction: string, amount: int)
    requires OneActive(b) && id !in b.reservations
    ensures OneActive(Reserve(b, id, user, auction, amount))
  {
    ReserveActives(b, id, user, auction, amount);
  }

  /** After a reserve, the new reservation is the only active one of its user and auction; every other
      reservation is as it was. */
  lemma ReserveActives(b: Book, id: nat, user: string, auction: string, amount: int)
    requires id !in b.reservations
    ensures var d := Reserve(b, id, user, auction, amount);
            && d.reservations.Keys == b.reservations.Keys + {id}
            && d.reservations[id] == Reservation(user, auction, amount, Active)
            && forall i :: i in b.reservations ==>
                 d.reservations[i]
                 == if i in ActiveOf(b.reservations, user, auction) then b.reservations[i].(status := Released)
                    else b.reservations[i]
  {
  }

  lemma AddKeepsBalance(b: Book, id: nat, r: Reservation)
    requires Balanced(b) && id !in b.reservations && r.status == Active
    ensures Balanced(Book(b.reservations[id := r], b.reserved[KeyOf(r) := ReservedFor(b, KeyOf(r)) + r.amount]))
  {
    var d := Book(b.reservations[id := r], b.reserved[KeyOf(r) := ReservedFor(b, KeyOf(r)) + r.amount]);
    forall k
      ensures ReservedFor(d, k) == Sum(Held(d.reservations, k))
    {
      HeldGrows(b.reservations, id, r, k);
    }
  }

  lemma HeldGrows(rs: map<nat, Reservation>, id: nat, r: Reservation, k: string)
    requires id !in rs && r.status == Active
    ensures Sum(Held(rs[id := r], k)) == Sum(Held(rs, k)) + if k == KeyOf(r) then r.amount else 0
  {
    var after, before := Held(rs[id := r], k), Held(rs, k);
    if k == KeyOf(r) {
      SumInsert(after, before, id, r.amount);
    } else {
      assert after == before;
    }
  }

  lemma ChargeOk(b: Book, id: nat)
    requires BookOk(b)
    ensures BookOk(Charge(b, id))
  {
    var d := Charge(b, id);
    forall k
      ensures ReservedFor(d, k) == Sum(Held(d.reservations, k))
    {
      assert Held(d.reservations, k) == Held(b.reservations, k);
    }
  }

  /** Under each key, everything ever reserved is either still counted or has been released. */
  lemma Conservation(b: Book, k: string)
    requires BookOk(b)
    ensures var rs := b.reservations;
            Sum(AmountsIn(rs, rs.Keys, k))
            == ReservedFor(b, k)
               + Sum(map id | id in rs && KeyOf(rs[id]) == k && rs[id].status == Released :: rs[id].amount)
  {
    var rs := b.reservations;
    var gone := map id | id in rs && KeyOf(rs[id]) == k && rs[id].status == Released :: rs[id].amount;
    SumJoin(Held(rs, k), gone);
    assert Held(rs, k) + gone == AmountsIn(rs, rs.Keys, k);
  }

  // ----- the end of an auction ------------------------------------------------------------------------------

  /** After the end, the only active reservation on the auction is the winner's, as it was before;
      nothing else about any reservation changed. */
  lemma AuctionEndedKeepsWinner(b: Book, auction: string, winner: string)
    ensures var d := AuctionEnded(b, auction, winner);
            && d.reservations.Keys == b.reservations.Keys
            && (forall id :: id in d.reservations && d.reservations[id].auction == auction
                             && d.reservations[id].status == Active
                  ==> d.reservations[id].user == winner)
            && (forall id :: id in b.reservations
                             && (b.reservations[id].auction != auction || b.reservations[id].user == winner
                                 || b.reservations[id].status != Active)
                  ==> d.reservations[id] == b.reservations[id])
            && (forall k :: (forall id :: id in b.reservations && KeyOf(b.reservations[id]) == k
                                          ==> id !in Losers(b.reservations, auction, winner))
                  ==> ReservedFor(d, k) == ReservedFor(b, k))
  {
    var ids, d := Losers(b.reservations, auction, winner), AuctionEnded(b, auction, winner);
    forall k | forall id :: id in b.reservations && KeyOf(b.reservations[id]) == k ==> id !in ids
      ensures ReservedFor(d, k) == ReservedFor(b, k)
    {
      assert AmountsIn(b.reservations, ids, k) == map[];
      assert k !in KeysOf(b.reservations, ids);
    }
  }

  /** A second delivery of the same event changes nothing. */
  lemma AuctionEndedTwice(b: Book, auction: string, winner: string)
    ensures AuctionEnded(AuctionEnded(b, auction, winner), auction, winner) == AuctionEnded(b, auction, winner)
  {
    var d := AuctionEnded(b, auction, winner);
    assert Losers(d.reservations, auction, winner) == {};
    ReleaseNone(d);
  }

  // ----- statuses only end ------------------------------------------------------------------------------------

  /** Reservations are never dropped or rewritten, and a released or charged one stays so. */
  ghost predicate StatusesFinal(b: Book, d: Book) {
    forall id :: id in b.reservations ==>
      && id in d.reservations
      && d.reservations[id].(status := b.reservations[id].status) == b.reservations[id]
      && (b.reservations[id].status != Active ==> d.reservations[id].status == b.reservations[id].status)
  }
}
