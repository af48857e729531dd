/** Step B, the quotient generator: for every scrutiny party and every
    `i` in 1..candidates_amount, the claim (truncate(votes / i, 2), order). */
module QuotientGen {
  import opened Records
  import opened Truncation

  /** The first `n` claims of a party: divisors 1..n; none when n <= 0. */
  function PartyPrefix(votes: int, order: int, n: int): (r: seq<Quotient>)
    ensures |r| == Max(n, 0)
    ensures forall k :: 0 <= k < |r| ==> r[k] == Quotient(Truncate(votes, k + 1, 2), order)
    decreases n
  {
    if n <= 0 then [] else PartyPrefix(votes, order, n - 1) + [Quotient(Truncate(votes, n, 2), order)]
  }

  /** Every claim of one party. */
  function PartyQuotients(p: PoliticalParty): (r: seq<Quotient>)
    ensures |r| == Max(p.candidatesAmount, 0)
    ensures forall k :: 0 <= k < |r| ==> r[k] == Quotient(Truncate(p.votes, k + 1, 2), p.order)
  {
    PartyPrefix(p.votes, p.order, p.candidatesAmount)
  }

  /** Number of claims the parties field: a list with no candidates fields none. */
  function TotalCandidates(parties: seq<PoliticalParty>): (n: nat)
  {
    if parties == [] then 0
    else TotalCandidates(parties[..|parties| - 1]) + Max(parties[|parties| - 1].candidatesAmount, 0)
  }

  /** The claims of all parties, party by party in list order. */
  function Quotients(parties: seq<PoliticalParty>): (r: seq<Quotient>)
    ensures |r| == TotalCandidates(parties)
  {
    if parties == [] then []
    else Quotients(parties[..|parties| - 1]) + PartyQuotients(parties[|parties| - 1])
  }

  /** Number of claims in `s` that carry ballot position `order`. */
  function Count(s: seq<Quotient>, order: int): (n: nat)
    ensures n <= |s|
  {
    if s == [] then 0
    else Count(s[..|s| - 1], order) + (if s[|s| - 1].order == order then 1 else 0)
  }

  lemma {:induction false} CountAppend(a: seq<Quotient>, b: seq<Quotient>, order: int)
    ensures Count(a + b, order) == Count(a, order) + Count(b, order)
    decreases |b|
  {
    if b == [] {
      assert a + b == a;
    } else {
      var n := |b| - 1;
      assert (a + b)[..|a + b| - 1] == a + b[..n];
      CountAppend(a, b[..n], order);
    }
  }

  /** A party's claims all carry its ballot position and do not increase with
      the divisor when its vote count is not negative. */
  lemma {:induction false} PartyQuotientsShape(p: PoliticalParty)
    ensures var r := PartyQuotients(p);
      && |r| == Max(p.candidatesAmount, 0)
      && (forall k :: 0 <= k < |r| ==> r[k].order == p.order)
      && (p.votes >= 0 ==> forall j, k :: 0 <= j < k < |r| ==> 0 <= r[k].value <= r[j].value)
  {
    var r := PartyQuotients(p);
    if p.votes >= 0 {
      forall j, k | 0 <= j < k < |r|
        ensures 0 <= r[k].value <= r[j].value
      {
        QuotientMonotone(p.votes, j + 1, k + 1);
      }
    }
  }

  lemma {:induction false} CountPartyPrefix(votes: int, order: int, n: int, o: int)
    ensures Count(PartyPrefix(votes, order, n), o) == if o == order then Max(n, 0) else 0
    decreases n
  {
    if n > 0 {
      var r := PartyPrefix(votes, order, n);
      assert r[..|r| - 1] == PartyPrefix(votes, order, n - 1);
      CountPartyPrefix(votes, order, n - 1, o);
    }
  }

  /** A ballot position no listed party holds owns no claim. */
  lemma {:induction false} CountQuotientsUnlisted(parties: seq<PoliticalParty>, o: int)
    requires !HasOrder(parties, o)
    ensures Count(Quotients(parties), o) == 0
  {
    if parties != [] {
      var n := |parties| - 1;
      var init := parties[..n];
      var last := parties[n];
      assert last in parties;
      assert !HasOrder(init, o) by {
        forall p | p in init ensures p.order != o {
          assert p in parties;
        }
      }
      CountQuotientsUnlisted(init, o);
      CountAppend(Quotients(init), PartyQuotients(last), o);
      CountPartyPrefix(last.votes, last.order, last.candidatesAmount, o);
    }
  }

  /** With distinct ballot positions, each listed party owns exactly
      `candidates_amount` claims, none when that is not positive. */
  lemma {:induction false} CountQuotients(parties: seq<PoliticalParty>, i: int)
    requires DistinctOrders(parties) && 0 <= i < |parties|
    ensures Count(Quotients(parties), parties[i].order) == Max(parties[i].candidatesAmount, 0)
  {
    var n := |parties| - 1;
    var init := parties[..n];
    var last := parties[n];
    var o := parties[i].order;
    assert DistinctOrders(init);
    CountAppend(Quotients(init), PartyQuotients(last), o);
    CountPartyPrefix(last.votes, last.order, last.candidatesAmount, o);
    if i == n {
      assert !HasOrder(init, o) by {
        forall p | p in init ensures p.order != o {
          var k :| 0 <= k < n && init[k] == p;
        }
      }
      CountQuotientsUnlisted(init, o);
    } else {
      assert init[i] == parties[i];
      CountQuotients(init, i);
    }
  }

  /** Every claim is tagged with the ballot position of a listed party. */
  lemma {:induction false} QuotientOrdersListed(parties: seq<PoliticalParty>)
    ensures forall q :: q in Quotients(parties) ==> HasOrder(parties, q.order)
  {
    if parties != [] {
      var n := |parties| - 1;
      var init := parties[..n];
      var last := parties[n];
      QuotientOrdersListed(init);
      PartyQuotientsShape(last);
      forall q | q in Quotients(parties)
        ensures HasOrder(parties, q.order)
      {
        if q in Quotients(init) {
          var p :| p in init && p.order == q.order;
          assert p in parties;
        } else {
          assert q in PartyQuotients(last);
          assert last in parties;
        }
      }
    }
  }

  /** `calc_election_step_B`. */
  method CalcElectionStepB(parties: seq<PoliticalParty>) returns (ratios: seq<Quotient>)
    ensures ratios == Quotients(parties)
  {
    ratios := [];
    for k := 0 to |parties|
      invariant ratios == Quotients(parties[..k])
    {
      var party := parties[k];
      ghost var before := ratios;
      var i := 1;
      while i <= party.candidatesAmount
        invariant 1 <= i <= Max(party.candidatesAmount, 0) + 1
        invariant ratios == before + PartyPrefix(party.votes, party.order, i - 1)
      {
        ratios := ratios + [Quotient(Truncate(party.votes, i, 2), party.order)];
        i := i + 1;
      }
      assert parties[..k + 1][..k] == parties[..k];
    }
    assert parties[..|parties|] == parties;
  }
}
