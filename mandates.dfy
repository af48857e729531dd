/** Step D, the seat assignment: each scrutiny party receives as many seats
    as it holds claims among the first `councilor_amount` ranked claims. */
module Mandates {
  import opened Records
  import opened QuotientGen

  /** Python's `s[:k]`: the first `k` elements, all of `s` when `k` is too
      large, and for a negative `k` all but the last `-k`. */
  function SliceTo<T>(s: seq<T>, k: int): (r: seq<T>)
    ensures |r| == if k >= 0 then Min(k, |s|) else Max(|s| + k, 0)
    ensures r == s[..|r|]
  {
    if k >= 0 then (if k <= |s| then s[..k] else s)
    else if |s| + k >= 0 then s[..|s| + k]
    else []
  }

  /** Seats computed for the listed parties, added up. */
  ghost function SumCalc(parties: seq<PoliticalParty>): int
    reads parties
  {
    if parties == [] then 0
    else SumCalc(parties[..|parties| - 1]) + parties[|parties| - 1].councilorAmountCalc
  }

  /** The seats the listed parties would receive from the claims `top`, added up. */
  function SeatTotal(top: seq<Quotient>, parties: seq<PoliticalParty>): nat
  {
    if parties == [] then 0
    else SeatTotal(top, parties[..|parties| - 1]) + Count(top, parties[|parties| - 1].order)
  }

  /** Number of listed parties with ballot position `order`. */
  function Holders(parties: seq<PoliticalParty>, order: int): nat
  {
    if parties == [] then 0
    else Holders(parties[..|parties| - 1], order) + (if parties[|parties| - 1].order == order then 1 else 0)
  }

  lemma {:induction false} HoldersDistinct(parties: seq<PoliticalParty>, order: int)
    requires DistinctOrders(parties)
    ensures Holders(parties, order) == if HasOrder(parties, order) then 1 else 0
  {
    if parties != [] {
      var n := |parties| - 1;
      var init := parties[..n];
      assert DistinctOrders(init);
      HoldersDistinct(init, order);
      if parties[n].order == order {
        assert !HasOrder(init, order) by {
          forall p | p in init ensures p.order != order {
            var i :| 0 <= i < n && init[i] == p;
          }
        }
      } else if HasOrder(parties, order) {
        var p :| p in parties && p.order == order;
        var i :| 0 <= i < |parties| && parties[i] == p;
        assert init[i] == p;
      }
    }
  }

  lemma {:induction false} SeatTotalSnoc(top: seq<Quotient>, q: Quotient, parties: seq<PoliticalParty>)
    ensures SeatTotal(top + [q], parties) == SeatTotal(top, parties) + Holders(parties, q.order)
  {
    if parties != [] {
      var n := |parties| - 1;
      SeatTotalSnoc(top, q, parties[..n]);
      assert (top + [q])[..|top|] == top;
    }
  }

  /** Seat conservation: when ballot positions are distinct and every claim
      belongs to a listed party, the parties' seats add up to the number of
      claims handed out. */
  lemma {:induction false} SeatsConserved(top: seq<Quotient>, parties: seq<PoliticalParty>)
    requires DistinctOrders(parties)
    requires forall q :: q in top ==> HasOrder(parties, q.order)
    ensures SeatTotal(top, parties) == |top|
  {
    if top == [] {
      SeatTotalEmpty(parties);
    } else {
      var n := |top| - 1;
      assert top == top[..n] + [top[n]];
      SeatsConserved(top[..n], parties);
      SeatTotalSnoc(top[..n], top[n], parties);
      HoldersDistinct(parties, top[n].order);
    }
  }

  lemma {:induction false} SeatTotalEmpty(parties: seq<PoliticalParty>)
    ensures SeatTotal([], parties) == 0
  {
    if parties != [] {
      SeatTotalEmpty(parties[..|parties| - 1]);
    }
  }

  /** Once every listed party holds the count of its claims in `top`, the
      computed seats add up to the seat total of `top`. */
  lemma {:induction false} SumCalcIsSeatTotal(top: seq<Quotient>, parties: seq<PoliticalParty>)
    requires forall p :: p in parties ==> p.councilorAmountCalc == Count(top, p.order)
    ensures SumCalc(parties) == SeatTotal(top, parties)
  {
    if parties != [] {
      SumCalcIsSeatTotal(top, parties[..|parties| - 1]);
    }
  }

  /** `calc_election_step_D`.  Nothing is written before any polling
      division has been counted; otherwise each listed party's computed seats
      are its claims among the first `councilor_amount` ranked claims.
      Objects outside `parties` and the claims themselves are untouched. */
  method CalcElectionStepD(ratios: seq<Quotient>, parties: seq<PoliticalParty>, m: Municipality, t: Turnout)
    modifies parties
    ensures t.pollingDivisionsProcessed == 0 ==>
      forall p :: p in parties ==> p.councilorAmountCalc == old(p.councilorAmountCalc)
    ensures t.pollingDivisionsProcessed != 0 ==>
      forall p :: p in parties ==> p.councilorAmountCalc == Count(SliceTo(ratios, m.councilorAmount), p.order)
    ensures t.pollingDivisionsProcessed != 0 && m.councilorAmount >= 0 ==>
      forall p :: p in parties ==> 0 <= p.councilorAmountCalc <= m.councilorAmount
  {
    if t.pollingDivisionsProcessed == 0 {
      return;
    }
    var mandatesRatios := SliceTo(ratios, m.councilorAmount);
    for i := 0 to |parties|
      invariant forall p :: p in parties[..i] ==> p.councilorAmountCalc == Count(mandatesRatios, p.order)
    {
      var party := parties[i];
      party.councilorAmountCalc := Count(mandatesRatios, party.order);
      assert parties[..i + 1] == parties[..i] + [party];
    }
    assert parties[..|parties|] == parties;
  }
}
