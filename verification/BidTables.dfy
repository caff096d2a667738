/**
 The auctions and bids tables of internal/bidding/repository.go.  Every row of `bids` has status
 'accepted': nothing else is ever inserted.
 */
module BidTables {
  import opened Options
  import opened Numbers

  datatype Phase = Pending | Active | Ended

  datatype Auction = Auction(
    startPrice: int, currentPrice: int, minIncrement: int, phase: Phase, startsAt: nat, endsAt: nat)

  datatype BidRow = BidRow(id: nat, auction: string, user: string, amount: int)

  datatype Tables = Tables(auctions: map<string, Auction>, bids: seq<BidRow>)

  ghost predicate HasBid(bids: seq<BidRow>, id: nat) {
    exists i :: 0 <= i < |bids| && bids[i].id == id
  }

  /** INSERT the bid and raise the auction's price to it, as one transaction.  A duplicate id or an
      unknown auction violates a constraint, and then nothing is written. */
  ghost function WriteBid(t: Tables, row: BidRow): Option<Tables> {
    if HasBid(t.bids, row.id) || row.auction !in t.auctions then None
    else
      var a := t.auctions[row.auction];
      Some(Tables(t.auctions[row.auction := a.(currentPrice := Max(a.currentPrice, row.amount))], t.bids + [row]))
  }

  /** The highest of the start price and every bid on the auction. */
  function MaxPrice(bids: seq<BidRow>, auction: string, start: int): int {
    if bids == [] then start
    else
      var rest := MaxPrice(bids[..|bids| - 1], auction, start);
      if bids[|bids| - 1].auction == auction then Max(rest, bids[|bids| - 1].amount) else rest
  }

  lemma {:induction false} MaxPriceIsLeastBound(bids: seq<BidRow>, auction: string, start: int)
    ensures start <= MaxPrice(bids, auction, start)
    ensures forall i :: 0 <= i < |bids| && bids[i].auction == auction ==>
              bids[i].amount <= MaxPrice(bids, auction, start)
    ensures MaxPrice(bids, auction, start) == start
            || exists i :: 0 <= i < |bids| && bids[i].auction == auction
                           && bids[i].amount == MaxPrice(bids, auction, start)
  {
    if bids != [] {
      var rest := bids[..|bids| - 1];
      MaxPriceIsLeastBound(rest, auction, start);
      if i :| 0 <= i < |rest| && rest[i].auction == auction && rest[i].amount == MaxPrice(rest, auction, start) {
        assert bids[i] == rest[i];
      }
      assert bids[|bids| - 1].auction == auction ==> bids[|bids| - 1].amount <= MaxPrice(bids, auction, start);
      forall i | 0 <= i < |bids| && bids[i].auction == auction
        ensures bids[i].amount <= MaxPrice(bids, auction, start)
      {
        if i < |rest| { assert rest[i] == bids[i]; }
      }
    }
  }

  lemma MaxPriceAppend(bids: seq<BidRow>, row: BidRow, auction: string, start: int)
    ensures MaxPrice(bids + [row], auction, start)
         == if row.auction == auction then Max(MaxPrice(bids, auction, start), row.amount)
            else MaxPrice(bids, auction, start)
  {
    assert (bids + [row])[..|bids|] == bids;
  }

  lemma {:induction false} MaxPriceWithoutBids(bids: seq<BidRow>, auction: string, start: int)
    requires forall i :: 0 <= i < |bids| ==> bids[i].auction != auction
    ensures MaxPrice(bids, auction, start) == start
  {
    MaxPriceIsLeastBound(bids, auction, start);
  }

  /** What `GetHighestBid` may answer: no row when there is none, else any row of greatest amount. */
  ghost predicate IsHighest(bids: seq<BidRow>, auction: string, top: Option<BidRow>) {
    match top
    case None => forall i :: 0 <= i < |bids| ==> bids[i].auction != auction
    case Some(row) =>
      && row in bids && row.auction == auction
      && forall i :: 0 <= i < |bids| && bids[i].auction == auction ==> bids[i].amount <= row.amount
  }

  class Repository {
    var auctions: map<string, Auction>
    var bids: seq<BidRow>

    function State(): Tables
      reads this
    {
      Tables(auctions, bids)
    }

    constructor ()
      ensures State() == Tables(map[], [])
    {
      auctions, bids := map[], [];
    }

    /** The primary key makes a second INSERT of an id fail. */
    method CreateAuction(id: string, a: Auction) returns (ok: bool)
      modifies this
      ensures ok == (id !in old(auctions))
      ensures auctions == if ok then old(auctions)[id := a] else old(auctions)
      ensures bids == old(bids)
    {
      ok := id !in auctions;
      if ok {
        auctions := auctions[id := a];
      }
    }

    /** An UPDATE of an unknown id touches no row and is no error. */
    method UpdateAuctionStatus(id: string, phase: Phase)
      modifies this
      ensures auctions.Keys == old(auctions).Keys && bids == old(bids)
      ensures forall x :: x in auctions ==>
                auctions[x] == if x == id then old(auctions)[x].(phase := phase) else old(auctions)[x]
    {
      if id in auctions {
        auctions := auctions[id := auctions[id].(phase := phase)];
      }
    }

    /** The transaction, failing at the statement or commit the caller picks: all or nothing. */
    method CreateBidAndUpdatePrice(row: BidRow, insertOk: bool, updateOk: bool, commitOk: bool)
      returns (ok: bool)
      modifies this
      ensures ok == (insertOk && updateOk && commitOk && WriteBid(old(State()), row).Some?)
      ensures State() == if ok then WriteBid(old(State()), row).value else old(State())
      ensures WriteBid(old(State()), row).Some? <==> !HasBid(old(bids), row.id) && row.auction in old(auctions)
      ensures ok ==> bids == old(bids) + [row] && auctions.Keys == old(auctions).Keys
    {
      var savedAuctions, savedBids := auctions, bids;
      var duplicate := false;
      for i := 0 to |bids|
        invariant duplicate <==> exists j :: 0 <= j < i && bids[j].id == row.id
      {
        if bids[i].id == row.id {
          duplicate := true;
        }
      }
      if !insertOk || duplicate || row.auction !in auctions {
        return false;
      }
      bids := bids + [row];
      if updateOk {
        var a := auctions[row.auction];
        auctions := auctions[row.auction := a.(currentPrice := Max(a.currentPrice, row.amount))];
      }
      ok := updateOk && commitOk;
      if !ok {
        auctions, bids := savedAuctions, savedBids;
      }
    }

    method GetHighestBid(auction: string) returns (top: Option<BidRow>)
      ensures IsHighest(bids, auction, top)
    {
      top := HighestOf(bids, auction);
    }
  }

  /** The first row when the auction's bids are sorted by falling amount. */
  method HighestOf(bids: seq<BidRow>, auction: string) returns (top: Option<BidRow>)
    ensures IsHighest(bids, auction, top)
  {
    top := None;
    for i := 0 to |bids|
      invariant IsHighest(bids[..i], auction, top)
    {
      assert bids[..i + 1] == bids[..i] + [bids[i]];
      if bids[i].auction == auction && (top == None || top.value.amount < bids[i].amount) {
        top := Some(bids[i]);
      }
    }
    assert bids[..|bids|] == bids;
  }
}
