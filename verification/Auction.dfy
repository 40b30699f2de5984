/** The auction of lectures/C1/async/context.go: bidders compute their bids from a price they read
    earlier, and one main loop applies them. */
module Auction {
  const AVG_BID_STEP := 100

  datatype PlayerBid = PlayerBid(bid: int, playerID: int)

  datatype LotState = LotState(currentBid: int, playerID: int, maxPrice: int, maxBids: int, currentCnt: int)

  // SetNewBid on values: the new state, and whether the auction is finished.
  function SetSpec(l: LotState, b: PlayerBid): (LotState, bool) {
    if b.bid <= l.currentBid then (l, false)
    else
      (l.(currentBid := b.bid, playerID := b.playerID, currentCnt := l.currentCnt + 1),
       l.maxBids <= l.currentCnt + 1 || l.maxPrice <= b.bid)
  }

  class Lot {
    var currentBid: int
    var playerID: int
    var maxPrice: int
    var maxBids: int
    var currentCnt: int

    function View(): LotState reads this {
      LotState(currentBid, playerID, maxPrice, maxBids, currentCnt)
    }

    method GetCurrentBid() returns (bid: int)
      ensures bid == View().currentBid
    {
      bid := currentBid;
    }

    method SetNewBid(newBid: PlayerBid) returns (finished: bool)
      modifies this
      ensures (View(), finished) == SetSpec(old(View()), newBid)
      ensures newBid.bid <= old(currentBid) ==> View() == old(View()) && !finished
      ensures newBid.bid > old(currentBid) ==>
                && View() == LotState(newBid.bid, newBid.playerID, old(maxPrice), old(maxBids), old(currentCnt) + 1)
                && (finished <==> currentCnt >= maxBids || currentBid >= maxPrice)
    {
      if newBid.bid > currentBid {
        currentBid := newBid.bid;
        playerID := newBid.playerID;
        currentCnt := currentCnt + 1;
        if maxBids <= currentCnt { return true; }
        if maxPrice <= newBid.bid { return true; }
      }
      return false;
    }
  }

  // A bidder between its two select statements holds the bid it has computed.
  datatype Bidder = Idle | Holding(bid: int)

  datatype Main = Waiting | Received(offer: PlayerBid) | Over

  // `accepted` remembers the bids that were applied.
  datatype State = State(lot: LotState, bidders: seq<Bidder>, main: Main, accepted: seq<PlayerBid>)

  datatype Label =
    | Read(player: nat, step: nat)  // GetCurrentBid() + rand.Intn(AvgBidStep)
    | Offer(player: nat)            // bids <- ..., received by the main loop
    | Drop(player: nat)             // the default branch, or ctx.Done
    | Apply                         // SetNewBid
    | Timeout                       // ctx.Done in the main loop

  function Start(price: int, maxPrice: int, maxBids: int, players: nat): State {
    State(LotState(price, 0, maxPrice, maxBids, 0), seq(players, _ => Idle), Waiting, [])
  }

  predicate Enabled(s: State, l: Label) {
    match l
    case Read(p, step) => p < |s.bidders| && s.bidders[p].Idle? && step < AVG_BID_STEP
    case Offer(p) => p < |s.bidders| && s.bidders[p].Holding? && s.main.Waiting?
    case Drop(p) => p < |s.bidders| && s.bidders[p].Holding?
    case Apply => s.main.Received?
    case Timeout => s.main.Waiting?
  }

  function Next(s: State, l: Label): State
    requires Enabled(s, l)
  {
    match l
    case Read(p, step) => s.(bidders := s.bidders[p := Holding(s.lot.currentBid + step)])
    case Offer(p) => s.(bidders := s.bidders[p := Idle], main := Received(PlayerBid(s.bidders[p].bid, p)))
    case Drop(p) => s.(bidders := s.bidders[p := Idle])
    case Apply =>
      var (lot, finished) := SetSpec(s.lot, s.main.offer);
      s.(lot := lot, main := if finished then Over else Waiting,
         accepted := if lot.currentCnt == s.lot.currentCnt then s.accepted else s.accepted + [s.main.offer])
    case Timeout => s.(main := Over)
  }

  ghost predicate Reaches(s: State, ls: seq<Label>, t: State)
    decreases |ls|
  {
    if ls == [] then t == s else Enabled(s, ls[0]) && Reaches(Next(s, ls[0]), ls[1..], t)
  }

  // The price before accepted bid number k.
  function PriceBefore(start: int, accepted: seq<PlayerBid>, k: nat): int
    requires k <= |accepted|
  {
    if k == 0 then start else accepted[k - 1].bid
  }

  // Each accepted bid beat the price before it, by at most 99, and that price was below maxPrice.
  predicate History(start: int, maxPrice: int, accepted: seq<PlayerBid>) {
    forall k :: 0 <= k < |accepted| ==>
      var before := PriceBefore(start, accepted, k);
      before < accepted[k].bid <= before + 99 && before < maxPrice
  }

  lemma HistoryAppend(start: int, maxPrice: int, accepted: seq<PlayerBid>, b: PlayerBid)
    requires History(start, maxPrice, accepted)
    requires var before := PriceBefore(start, accepted, |accepted|);
             before < b.bid <= before + 99 && before < maxPrice
    ensures History(start, maxPrice, accepted + [b])
  {
    var longer := accepted + [b];
    forall k | 0 <= k < |longer|
      ensures var before := PriceBefore(start, longer, k);
              before < longer[k].bid <= before + 99 && before < maxPrice
    {
      assert PriceBefore(start, longer, k) == PriceBefore(start, accepted, k);
    }
  }

  predicate Inv(start: int, maxPrice: int, maxBids: int, s: State) {
    var price := s.lot.currentBid;
    && s.lot.maxPrice == maxPrice && s.lot.maxBids == maxBids
    && s.lot.currentCnt == |s.accepted| <= maxBids
    && price == PriceBefore(start, s.accepted, |s.accepted|)
    && s.lot.playerID == (if s.accepted == [] then 0 else s.accepted[|s.accepted| - 1].playerID)
    // a bid in flight was computed from a price that was not higher than the present one
    && (forall p :: 0 <= p < |s.bidders| && s.bidders[p].Holding? ==> s.bidders[p].bid <= price + 99)
    && (s.main.Received? ==> s.main.offer.bid <= price + 99)
    && History(start, maxPrice, s.accepted)
    && (!s.main.Over? ==> price < maxPrice && |s.accepted| < maxBids)
  }

  lemma ApplyKeepsInv(start: int, maxPrice: int, maxBids: int, s: State)
    requires Inv(start, maxPrice, maxBids, s) && Enabled(s, Apply)
    ensures Inv(start, maxPrice, maxBids, Next(s, Apply))
  {
    if s.main.offer.bid > s.lot.currentBid {
      HistoryAppend(start, maxPrice, s.accepted, s.main.offer);
    }
  }

  lemma StepKeepsInv(start: int, maxPrice: int, maxBids: int, s: State, l: Label)
    requires Inv(start, maxPrice, maxBids, s) && Enabled(s, l)
    ensures Inv(start, maxPrice, maxBids, Next(s, l))
  {
    if l.Apply? {
      ApplyKeepsInv(start, maxPrice, maxBids, s);
    }
  }

  lemma {:induction false} RunKeepsInv(start: int, maxPrice: int, maxBids: int, s: State, ls: seq<Label>, t: State)
    requires Inv(start, maxPrice, maxBids, s) && Reaches(s, ls, t)
    ensures Inv(start, maxPrice, maxBids, t)
    decreases |ls|
  {
    if ls != [] {
      StepKeepsInv(start, maxPrice, maxBids, s, ls[0]);
      RunKeepsInv(start, maxPrice, maxBids, Next(s, ls[0]), ls[1..], t);
    }
  }

  lemma {:induction false} PriceGrowth(start: int, maxPrice: int, accepted: seq<PlayerBid>, k: nat)
    requires k <= |accepted| && History(start, maxPrice, accepted)
    ensures start + k <= PriceBefore(start, accepted, k) <= start + 99 * k
  {
    if k > 0 { PriceGrowth(start, maxPrice, accepted, k - 1); }
  }

  lemma {:induction false} StrictlyIncreasing(start: int, maxPrice: int, accepted: seq<PlayerBid>, i: nat, j: nat)
    requires i < j < |accepted| && History(start, maxPrice, accepted)
    ensures accepted[i].bid < accepted[j].bid
    decreases j
  {
    assert PriceBefore(start, accepted, j) == accepted[j - 1].bid;
    if i < j - 1 { StrictlyIncreasing(start, maxPrice, accepted, i, j - 1); }
  }

  /** The auction under stale reads. In every run the accepted bids strictly increase, the holder is the
      bidder of the last one, there are at most maxBids, and the price exceeds neither maxPrice by
      more than 98 nor the start by more than 99 for each accepted bid. */
  lemma Bounds(price: int, maxPrice: int, maxBids: int, players: nat, ls: seq<Label>, t: State)
    requires price < maxPrice && maxBids > 0
    requires Reaches(Start(price, maxPrice, maxBids, players), ls, t)
    ensures forall i, j :: 0 <= i < j < |t.accepted| ==> t.accepted[i].bid < t.accepted[j].bid
    ensures t.lot.currentCnt == |t.accepted| <= maxBids
    ensures if t.accepted == [] then t.lot.currentBid == price && t.lot.playerID == 0
            else t.accepted[|t.accepted| - 1] == PlayerBid(t.lot.currentBid, t.lot.playerID)
    ensures t.lot.currentBid <= maxPrice + 98
    ensures price + |t.accepted| <= t.lot.currentBid <= price + 99 * |t.accepted|
    ensures !t.main.Over? ==> t.lot.currentBid < maxPrice && |t.accepted| < maxBids
  {
    var s := Start(price, maxPrice, maxBids, players);
    assert Inv(price, maxPrice, maxBids, s);
    RunKeepsInv(price, maxPrice, maxBids, s, ls, t);
    var n := |t.accepted|;
    PriceGrowth(price, maxPrice, t.accepted, n);
    forall i, j | 0 <= i < j < n ensures t.accepted[i].bid < t.accepted[j].bid {
      StrictlyIncreasing(price, maxPrice, t.accepted, i, j);
    }
    if n > 0 {
      assert PriceBefore(price, t.accepted, n - 1) < maxPrice;
    }
  }

  // Unless the time ran out, the auction is over only when a limit has been reached.
  predicate OverAtLimit(maxPrice: int, maxBids: int, s: State) {
    s.main.Over? ==> s.lot.currentBid >= maxPrice || |s.accepted| >= maxBids
  }

  lemma StepEndsAtLimit(start: int, maxPrice: int, maxBids: int, s: State, l: Label)
    requires Inv(start, maxPrice, maxBids, s) && OverAtLimit(maxPrice, maxBids, s) && Enabled(s, l) && !l.Timeout?
    ensures OverAtLimit(maxPrice, maxBids, Next(s, l))
  {
  }

  lemma {:induction false} RunEndsAtLimit(start: int, maxPrice: int, maxBids: int, s: State, ls: seq<Label>, t: State)
    requires Inv(start, maxPrice, maxBids, s) && OverAtLimit(maxPrice, maxBids, s)
    requires Reaches(s, ls, t) && Timeout !in ls
    ensures OverAtLimit(maxPrice, maxBids, t)
    decreases |ls|
  {
    if ls != [] {
      StepKeepsInv(start, maxPrice, maxBids, s, ls[0]);
      StepEndsAtLimit(start, maxPrice, maxBids, s, ls[0]);
      RunEndsAtLimit(start, maxPrice, maxBids, Next(s, ls[0]), ls[1..], t);
    }
  }

  /** When an auction ends: without the timeout exactly when it has taken maxBids bids, or a bid that is not
      below maxPrice. */
  lemma OverIffLimit(price: int, maxPrice: int, maxBids: int, players: nat, ls: seq<Label>, t: State)
    requires price < maxPrice && maxBids > 0
    requires Reaches(Start(price, maxPrice, maxBids, players), ls, t) && Timeout !in ls
    ensures t.main.Over? <==> t.lot.currentBid >= maxPrice || |t.accepted| == maxBids
  {
    var s := Start(price, maxPrice, maxBids, players);
    assert Inv(price, maxPrice, maxBids, s);
    RunKeepsInv(price, maxPrice, maxBids, s, ls, t);
    RunEndsAtLimit(price, maxPrice, maxBids, s, ls, t);
  }

  /** As long as the main loop waits, an idle bidder can make any bid of up to 99 above the price, and it is
      taken. */
  lemma BidderCanRaise(s: State, p: nat, step: nat) returns (ls: seq<Label>, t: State)
    requires s.main.Waiting? && p < |s.bidders| && s.bidders[p].Idle? && 0 < step < AVG_BID_STEP
    ensures Reaches(s, ls, t) && |ls| == 3
    ensures t.accepted == s.accepted + [PlayerBid(s.lot.currentBid + step, p)]
    ensures t.lot.currentBid == s.lot.currentBid + step && t.lot.playerID == p && t.bidders == s.bidders
  {
    var a := Next(s, Read(p, step));
    var b := Next(a, Offer(p));
    t := Next(b, Apply);
    ls := [Read(p, step), Offer(p), Apply];
    assert ls[1..] == [Offer(p), Apply] && ls[1..][1..] == [Apply] && ls[1..][1..][1..] == [];
    assert Reaches(b, [Apply], t);
    assert Reaches(a, [Offer(p), Apply], t);
  }
}
