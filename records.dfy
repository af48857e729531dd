/** The records the allocation pipeline consumes: one municipality, its turnout
    and the competing party lists.  The parser that fills them from the
    published XML statement is not part of this model; the records arrive
    already built. */
module Records {

  /** Summary of one electoral unit.  Only `councilorAmount` (the number of
      seats to fill) takes part in the allocation. */
  datatype Municipality = Municipality(
    timestamp: string,
    code: string,
    name: string,
    councilorAmount: int,
    final: bool)

  /** Participation counts.  `validVotes` feeds the scrutiny threshold and
      `pollingDivisionsProcessed` gates the seat assignment. */
  datatype Turnout = Turnout(
    submittedEnvelopes: int,
    validVotes: int,
    pollingDivisions: int,
    pollingDivisionsProcessed: int)

  /** One competing party list.  Everything the parser fills in is fixed once
      the object exists; the allocation writes only `councilorAmountCalc`.
      `order` is the ballot position and the key every later step joins on. */
  class PoliticalParty {
    const order: int
    const name: string
    const votes: int
    const candidatesAmount: int
    /** Seats the statement itself reports; shown beside the computed figure. */
    const councilorAmount: int
    /** The seat count the allocation computes. */
    var councilorAmountCalc: int

    constructor (order: int, name: string, votes: int, candidatesAmount: int, councilorAmount: int)
      ensures this.order == order && this.name == name && this.votes == votes
      ensures this.candidatesAmount == candidatesAmount && this.councilorAmount == councilorAmount
      ensures councilorAmountCalc == 0
    {
      this.order := order;
      this.name := name;
      this.votes := votes;
      this.candidatesAmount := candidatesAmount;
      this.councilorAmount := councilorAmount;
      councilorAmountCalc := 0;
    }
  }

  /** One seat claim: a party's truncated vote quotient, in hundredths, tagged
      with the party's ballot position. */
  datatype Quotient = Quotient(value: int, order: int)

  function Min(a: int, b: int): (r: int)
    ensures r <= a && r <= b && (r == a || r == b)
  {
    if a <= b then a else b
  }

  function Max(a: int, b: int): (r: int)
    ensures r >= a && r >= b && (r == a || r == b)
  {
    if a >= b then a else b
  }

  /** No two listed parties share a ballot position. */
  predicate DistinctOrders(parties: seq<PoliticalParty>)
  {
    forall i, j :: 0 <= i < j < |parties| ==> parties[i].order != parties[j].order
  }

  /** Some listed party has ballot position `order`. */
  predicate HasOrder(parties: seq<PoliticalParty>, order: int)
  {
    exists p :: p in parties && p.order == order
  }
}
