/** The allocation run in order: scrutiny filter, quotient generation,
    ranking, seat assignment. */
module Election {
  import opened Records
  import opened Scrutiny
  import opened QuotientGen
  import opened Ranking
  import opened Mandates

  /** Steps A to D on one municipality's records.  Returns the scrutiny
      parties and the ranked claims; the computed seats are written into the
      scrutiny parties. */
  method CalculateElection(m: Municipality, t: Turnout, parties: seq<PoliticalParty>)
    returns (scrutiny: seq<PoliticalParty>, ranked: seq<Quotient>)
    requires PositiveBases(m, t, parties)
    requires |parties| >= 2
    modifies parties
    ensures scrutiny == Qualifying(m, t, parties, ScrutinyThreshold(m, t, parties))
    ensures ranked == SortDescending(Quotients(scrutiny))
    ensures t.pollingDivisionsProcessed == 0 ==>
      forall p :: p in parties ==> p.councilorAmountCalc == old(p.councilorAmountCalc)
    ensures t.pollingDivisionsProcessed != 0 ==>
      forall p :: p in scrutiny ==> p.councilorAmountCalc == Count(SliceTo(ranked, m.councilorAmount), p.order)
    ensures forall p :: p in parties && p !in scrutiny ==> p.councilorAmountCalc == old(p.councilorAmountCalc)
    ensures t.pollingDivisionsProcessed != 0 && DistinctOrders(parties) ==>
      SumCalc(scrutiny) == Min(m.councilorAmount, TotalCandidates(scrutiny))
  {
    ghost var rounds;
    scrutiny, rounds := CalcElectionStepA(m, t, parties);
    var votesRatios := CalcElectionStepB(scrutiny);
    ranked := RankClaims(votesRatios);
    assert forall i :: 0 <= i < |scrutiny| ==> scrutiny[i] in scrutiny && scrutiny[i] in parties;
    CalcElectionStepD(ranked, scrutiny, m, t);
    if t.pollingDivisionsProcessed != 0 && DistinctOrders(parties) {
      var top := SliceTo(ranked, m.councilorAmount);
      QualifyingDistinct(m, t, parties, ScrutinyThreshold(m, t, parties));
      RankedSeatsConserved(scrutiny, m.councilorAmount);
      SumCalcIsSeatTotal(top, scrutiny);
    }
  }

  /** Steps B to C hand-off: the generated claims, put into a fresh list and
      sorted in place by step C.  Only the fresh list is written. */
  method RankClaims(votesRatios: seq<Quotient>) returns (ranked: seq<Quotient>)
    ensures ranked == SortDescending(votesRatios)
  {
    var list := new Quotient[|votesRatios|](k requires 0 <= k < |votesRatios| => votesRatios[k]);
    assert list[..] == votesRatios;
    var sortedList := CalcElectionStepC(list);
    ranked := sortedList[..];
  }

  /** Seat conservation for the ranked claims: handing out the first `k`
      claims gives the scrutiny parties min(k, claims generated) seats in all. */
  lemma RankedSeatsConserved(scrutiny: seq<PoliticalParty>, k: int)
    requires DistinctOrders(scrutiny) && k >= 0
    ensures SeatTotal(SliceTo(SortDescending(Quotients(scrutiny)), k), scrutiny) == Min(k, TotalCandidates(scrutiny))
  {
    var generated := Quotients(scrutiny);
    var ranked := SortDescending(generated);
    var top := SliceTo(ranked, k);
    SortDescendingCorrect(generated);
    QuotientOrdersListed(scrutiny);
    forall q | q in top
      ensures HasOrder(scrutiny, q.order)
    {
      assert q in ranked;
      assert q in multiset(generated);
    }
    SeatsConserved(top, scrutiny);
  }
}
