/**
 Exactly when a user is covered at the end of a run: when some reserve that covers them is followed by no action
 that takes the cover away.
 */
module CoverRuns {
  import opened BidProtocol
  import opened Settlement
  import Ledger

  predicate Suffices(runs: map<nat, Run>, p: nat, user: string, auction: string, amount: int) {
    p in runs && Mine(runs[p], user, auction) && amount <= runs[p].amount
  }

  /** The actions that give a user cover of an amount on an auction: a reserve of theirs there of at least the
      amount, in time or late. */
  predicate Provides(s: Sys, x: Action, user: string, auction: string, amount: int) {
    match x
    case AskReserve(p, net, _) => net != NotDelivered && Suffices(s.core.runs, p, user, auction, amount)
    case LateReserve(p) => Suffices(s.core.runs, p, user, auction, amount)
    case _ => false
  }

  // ----- one action ------------------------------------------------------------------------------------------

  /** A ledger step after which nothing is active that was not before. */
  lemma NothingNewCovers(b: Ledger.Book, d: Ledger.Book, user: string, auction: string, amount: int)
    requires forall x :: x in d.reservations && d.reservations[x].status == Ledger.Active ==>
               x in b.reservations && b.reservations[x] == d.reservations[x]
    requires Covered(d, user, auction, amount)
    ensures Covered(b, user, auction, amount)
  {
    var x :| x in d.reservations && Covers(d.reservations[x], user, auction, amount);
    assert x in b.reservations && Covers(b.reservations[x], user, auction, amount);
  }

  lemma OthersReserveGivesNone(b: Ledger.Book, id: nat, r: Run, user: string, auction: string, amount: int)
    requires id !in b.reservations && !Mine(r, user, auction)
    requires Covered(ReserveRun(b, id, r), user, auction, amount)
    ensures Covered(b, user, auction, amount)
  {
    Ledger.ReserveActives(b, id, r.user, r.auction, r.amount);
    var d := ReserveRun(b, id, r);
    var x :| x in d.reservations && Covers(d.reservations[x], user, auction, amount);
    assert b.reservations[x] == d.reservations[x];
  }

  lemma ReserveAfter(b: Ledger.Book, id: nat, r: Run, user: string, auction: string, amount: int)
    requires id !in b.reservations
    ensures Covered(ReserveRun(b, id, r), user, auction, amount)
            <==> if Mine(r, user, auction) then amount <= r.amount else Covered(b, user, auction, amount)
  {
    if Mine(r, user, auction) {
      ReserveCoversExactly(b, id, user, auction, r.amount, amount);
    } else if Covered(b, user, auction, amount) {
      ReserveUncovers(b, id, r, user, auction, amount);
    } else if Covered(ReserveRun(b, id, r), user, auction, amount) {
      OthersReserveGivesNone(b, id, r, user, auction, amount);
    }
  }

  lemma AskAfter(s: Sys, x: Action, user: string, auction: string, amount: int)
    requires SysOk(s) && CanDo(s, x) && x.AskReserve?
    ensures Covered(NextBook(s, x), user, auction, amount)
            <==> || Provides(s, x, user, auction, amount)
                 || (Covered(s.book, user, auction, amount) && !Uncovers(s, x, user, auction, amount))
  {
    AskedWhenValidated(s, x);
    NotReservedYet(s, x.run);
    ReserveAfter(s.book, x.run, s.core.runs[x.run], user, auction, amount);
  }

  lemma LateAfter(s: Sys, x: Action, user: string, auction: string, amount: int)
    requires SysOk(s) && CanDo(s, x) && x.LateReserve?
    ensures Covered(NextBook(s, x), user, auction, amount)
            <==> || Provides(s, x, user, auction, amount)
                 || (Covered(s.book, user, auction, amount) && !Uncovers(s, x, user, auction, amount))
  {
    assert LateOk(s.core.runs, s.book, x.run);
    ReserveAfter(s.book, x.run, s.core.runs[x.run], user, auction, amount);
  }

  lemma OthersGiveNone(s: Sys, x: Action, user: string, auction: string, amount: int)
    requires CanDo(s, x) && !x.AskReserve? && !x.LateReserve? && Covered(NextBook(s, x), user, auction, amount)
    ensures Covered(s.book, user, auction, amount)
  {
    NothingNewCovers(s.book, NextBook(s, x), user, auction, amount);
  }

  /** After an action a user is covered if and only if it provides the cover, or it was there and the action
      does not take it away. */
  lemma CoverAfter(s: Sys, x: Action, user: string, auction: string, amount: int)
    requires SysOk(s) && CanDo(s, x)
    ensures Covered(NextBook(s, x), user, auction, amount)
            <==> || Provides(s, x, user, auction, amount)
                 || (Covered(s.book, user, auction, amount) && !Uncovers(s, x, user, auction, amount))
  {
    if x.AskReserve? {
      AskAfter(s, x, user, auction, amount);
    } else if x.LateReserve? {
      LateAfter(s, x, user, auction, amount);
    } else if Covered(s.book, user, auction, amount) {
      UncoversExactly(s, x, user, auction, amount);
    } else if Covered(NextBook(s, x), user, auction, amount) {
      OthersGiveNone(s, x, user, auction, amount);
    }
  }

  /** In every reachable state an action covers an uncovered user if and only if it delivers a reserve of
      theirs there of at least the amount. */
  lemma CoverIsGainedExactly(s: Sys, x: Action, user: string, auction: string, amount: int)
    requires Arises(s) && CanDo(s, x) && !Covered(s.book, user, auction, amount)
    ensures Covered(Do(s, x).book, user, auction, amount) <==> Provides(s, x, user, auction, amount)
  {
    ReachableIsOk(s);
    CoverAfter(s, x, user, auction, amount);
  }

  // ----- whole runs --------------------------------------------------------------------------------------------

  /** Where the first `n` actions lead. */
  ghost function After(s: Sys, actions: seq<Action>, n: nat): Sys
    requires n <= |actions|
    decreases n
  {
    if n == 0 || !CanDo(s, actions[0]) then s else After(Do(s, actions[0]), actions[1..], n - 1)
  }

  lemma {:induction false} AfterAll(s: Sys, actions: seq<Action>, t: Sys)
    requires GoesTo(s, actions, t)
    ensures After(s, actions, |actions|) == t
    decreases |actions|
  {
    if actions != [] {
      AfterAll(Do(s, actions[0]), actions[1..], t);
    }
  }

  lemma {:induction false} AfterNext(s: Sys, actions: seq<Action>, t: Sys, n: nat)
    requires SysOk(s) && GoesTo(s, actions, t) && n < |actions|
    ensures var m := After(s, actions, n);
            SysOk(m) && CanDo(m, actions[n]) && After(s, actions, n + 1) == Do(m, actions[n])
    decreases n
  {
    if n > 0 {
      DoKeepsOk(s, actions[0]);
      AfterNext(Do(s, actions[0]), actions[1..], t, n - 1);
    }
  }

  ghost predicate ProvidedAt(s: Sys, actions: seq<Action>, i: nat, user: string, auction: string, amount: int)
    requires i < |actions|
  {
    Provides(After(s, actions, i), actions[i], user, auction, amount)
  }

  ghost predicate UncoveredAt(s: Sys, actions: seq<Action>, i: nat, user: string, auction: string, amount: int)
    requires i < |actions|
  {
    Uncovers(After(s, actions, i), actions[i], user, auction, amount)
  }

  /** Among the first `n` actions one provides the cover and none after it takes it away. */
  ghost predicate KeptCover(s: Sys, actions: seq<Action>, n: nat, user: string, auction: string, amount: int)
    requires n <= |actions|
  {
    exists i :: 0 <= i < n && ProvidedAt(s, actions, i, user, auction, amount)
                && forall j :: i < j < n ==> !UncoveredAt(s, actions, j, user, auction, amount)
  }

  lemma KeptCoverNext(s: Sys, actions: seq<Action>, n: nat, user: string, auction: string, amount: int)
    requires n < |actions|
    ensures KeptCover(s, actions, n + 1, user, auction, amount)
            <==> || ProvidedAt(s, actions, n, user, auction, amount)
                 || (KeptCover(s, actions, n, user, auction, amount)
                     && !UncoveredAt(s, actions, n, user, auction, amount))
  {
    if KeptCover(s, actions, n, user, auction, amount) && !UncoveredAt(s, actions, n, user, auction, amount) {
      var i :| 0 <= i < n && ProvidedAt(s, actions, i, user, auction, amount)
               && forall j :: i < j < n ==> !UncoveredAt(s, actions, j, user, auction, amount);
      assert forall j :: i < j < n + 1 ==> !UncoveredAt(s, actions, j, user, auction, amount);
    }
  }

  lemma CoveredNext(s: Sys, actions: seq<Action>, t: Sys, n: nat, user: string, auction: string, amount: int)
    requires SysOk(s) && GoesTo(s, actions, t) && n < |actions|
    ensures Covered(After(s, actions, n + 1).book, user, auction, amount)
            <==> || ProvidedAt(s, actions, n, user, auction, amount)
                 || (Covered(After(s, actions, n).book, user, auction, amount)
                     && !UncoveredAt(s, actions, n, user, auction, amount))
  {
    AfterNext(s, actions, t, n);
    CoverAfter(After(s, actions, n), actions[n], user, auction, amount);
  }

  lemma {:induction false} CoveredAfter(
      s: Sys, actions: seq<Action>, t: Sys, n: nat, user: string, auction: string, amount: int)
    requires SysOk(s) && GoesTo(s, actions, t) && !Covered(s.book, user, auction, amount) && n <= |actions|
    ensures Covered(After(s, actions, n).book, user, auction, amount)
            <==> KeptCover(s, actions, n, user, auction, amount)
    decreases n
  {
    if n > 0 {
      CoveredAfter(s, actions, t, n - 1, user, auction, amount);
      CoveredNext(s, actions, t, n - 1, user, auction, amount);
      KeptCoverNext(s, actions, n - 1, user, auction, amount);
    }
  }

  /** At the end of any run a user is covered if and only if some reserve of theirs there of at least the
      amount was delivered and no action after it took the cover away. */
  lemma CoveredExactly(actions: seq<Action>, s: Sys, user: string, auction: string, amount: int)
    requires GoesTo(START, actions, s)
    ensures Covered(s.book, user, auction, amount)
            <==> KeptCover(START, actions, |actions|, user, auction, amount)
  {
    assert GoesTo(START, [], START);
    ReachableIsOk(START);
    AfterAll(START, actions, s);
    CoveredAfter(START, actions, s, |actions|, user, auction, amount);
  }
}
