/**
 The payment validator as it runs: reservation objects whose status changes in place, a running total
 per key, and loops that visit the reservations in whatever order.
 */
module Validator {
  import opened Options
  import opened Ledger

  /** Visiting `x` moves it from the rest to the visited. */
  lemma OneFewer(all: set<nat>, rest: set<nat>, x: nat)
    requires x !in rest
    ensures x in all ==> all - rest == (all - (rest + {x})) + {x}
    ensures x !in all ==> all - rest == all - (rest + {x})
  {
  }

  class Ticket {
    const user: string
    const auction: string
    const amount: int
    var status: Status

    constructor (user: string, auction: string, amount: int)
      ensures this.user == user && this.auction == auction && this.amount == amount && status == Active
    {
      this.user, this.auction, this.amount, status := user, auction, amount, Active;
    }

    function Value(): Reservation
      reads this
    {
      Reservation(user, auction, amount, status)
    }
  }

  class Validator {
    var reservations: map<nat, Ticket>
    var userReserved: map<string, int>

    /** Different ids hold different objects. */
    ghost predicate Valid()
      reads this
    {
      forall i, j :: i in reservations && j in reservations && i != j ==> reservations[i] != reservations[j]
    }

    ghost function State(): Book
      reads this, reservations.Values
    {
      Book(map id | id in reservations :: reservations[id].Value(), userReserved)
    }

    constructor ()
      ensures Valid() && State() == EMPTY_BOOK
    {
      reservations, userReserved := map[], map[];
    }

    /** `balance` is what the wallet service answered, if it did. */
    method HandleValidate(user: string, auction: string, amount: int, balance: Option<int>)
      returns (valid: bool, available: int)
      ensures valid <==> balance.Some? && amount <= balance.value - ReservedFor(State(), Key(user, auction))
      ensures balance.None? ==> available == 0
      ensures balance.Some? ==> available == balance.value - ReservedFor(State(), Key(user, auction))
    {
      if balance.None? {
        return false, 0;
      }
      var reservedKey := Key(user, auction);
      var alreadyReserved := if reservedKey in userReserved then userReserved[reservedKey] else 0;
      available := balance.value - alreadyReserved;
      if available < amount {
        return false, available;
      }
      return true, available;
    }

    /** Takes the amount off the key's total; a missing key counts as zero. */
    method Lower(key: string, amount: int)
      modifies this`userReserved
      ensures userReserved == old(userReserved)[key := ReservedFor(old(State()), key) - amount]
    {
      userReserved := userReserved[key := (if key in userReserved then userReserved[key] else 0) - amount];
    }

    /** One released reservation: its object's status and its key's total. */
    method ReleaseOne(id: nat)
      requires Valid() && id in reservations
      modifies this`userReserved, reservations[id]
      ensures Valid() && State() == OneLess(old(State()), id)
    {
      var res := reservations[id];
      assert State().reservations[id] == res.Value();
      res.status := Released;
      Lower(Key(res.user, res.auction), res.amount);
      assert State().reservations == OneLess(old(State()), id).reservations;
    }

    /** `id` is the fresh UUID of the new reservation. */
    method HandleReserve(user: string, auction: string, amount: int, id: nat)
      requires Valid() && id !in reservations
      modifies this, reservations.Values
      ensures Valid() && State() == Reserve(old(State()), id, user, auction, amount)
      ensures fresh(reservations.Values - old(reservations.Values))
    {
      ReleasePrevious(user, auction);
      Add(id, user, auction, amount);
    }

    method ReleasePrevious(user: string, auction: string)
      requires Valid()
      modifies this`userReserved, reservations.Values
      ensures Valid() && State() == ReleaseAll(old(State()), ActiveOf(old(State()).reservations, user, auction))
    {
      ghost var before := State();
      ghost var mine := ActiveOf(before.reservations, user, auction);
      assert mine - reservations.Keys == {};
      ReleaseNone(before);
      var todo := reservations.Keys;
      while todo != {}
        invariant Valid() && reservations == old(reservations)
        invariant todo <= reservations.Keys && State() == ReleaseAll(before, mine - todo)
        decreases todo
      {
        var x :| x in todo;
        assert todo == (todo - {x}) + {x};
        todo := todo - {x};
        var res := reservations[x];
        assert State().reservations[x] == res.Value();
        OneFewer(mine, todo, x);
        if res.user == user && res.auction == auction && res.status == Active {
          ReleaseOneMore(before, mine - (todo + {x}), x);
          ReleaseOne(x);
        }
      }
      assert mine - {} == mine;
    }

    method Add(id: nat, user: string, auction: string, amount: int)
      requires Valid() && id !in reservations
      modifies this
      ensures Valid() && fresh(reservations.Values - old(reservations.Values))
      ensures State().reservations == old(State()).reservations[id := Reservation(user, auction, amount, Active)]
      ensures userReserved
           == old(userReserved)[Key(user, auction) := ReservedFor(old(State()), Key(user, auction)) + amount]
    {
      var res := new Ticket(user, auction, amount);
      reservations := reservations[id := res];
      var key := Key(user, auction);
      userReserved := userReserved[key := (if key in userReserved then userReserved[key] else 0) + amount];
      assert State().reservations == old(State()).reservations[id := Reservation(user, auction, amount, Active)];
    }

    method HandleRelease(id: nat)
      requires Valid()
      modifies this`userReserved, reservations.Values
      ensures Valid() && State() == Release(old(State()), id)
    {
      if id !in reservations || reservations[id].status != Active {
        assert id in State().reservations ==> State().reservations[id] == reservations[id].Value();
        return;
      }
      assert State().reservations[id] == reservations[id].Value();
      ReleaseNone(State());
      ReleaseOneMore(State(), {}, id);
      assert {} + {id} == {id};
      ReleaseOne(id);
    }

    method HandleCharge(id: nat)
      requires Valid()
      modifies reservations.Values
      ensures Valid() && State() == Charge(old(State()), id)
    {
      if id !in reservations || reservations[id].status != Active {
        assert id in State().reservations ==> State().reservations[id] == reservations[id].Value();
        return;
      }
      assert State().reservations[id] == reservations[id].Value();
      reservations[id].status := Charged;
      assert State().reservations == Charge(old(State()), id).reservations;
    }

    method HandleAuctionEnded(auction: string, winner: string)
      requires Valid()
      modifies this`userReserved, reservations.Values
      ensures Valid() && State() == AuctionEnded(old(State()), auction, winner)
    {
      ghost var before := State();
      ghost var losers := Losers(before.reservations, auction, winner);
      assert losers - reservations.Keys == {};
      ReleaseNone(before);
      var todo := reservations.Keys;
      while todo != {}
        invariant Valid() && reservations == old(reservations)
        invariant todo <= reservations.Keys && State() == ReleaseAll(before, losers - todo)
        decreases todo
      {
        var x :| x in todo;
        assert todo == (todo - {x}) + {x};
        todo := todo - {x};
        var res := reservations[x];
        assert State().reservations[x] == res.Value();
        OneFewer(losers, todo, x);
        if res.auction != auction || res.status != Active {
          continue;
        }
        if res.user == winner {
          continue;
        }
        ReleaseOneMore(before, losers - (todo + {x}), x);
        ReleaseOne(x);
      }
      assert losers - {} == losers;
    }
  }
}
