/** Step A, the scrutiny filter: the parties whose normalised vote share
    reaches a threshold that starts at 5 per cent and is lowered one point at a
    time until at least two parties qualify. */
module Scrutiny {
  import opened Records

  const InitialThreshold: int := 5

  /** The divisions the source would attempt are defined: there is at least
      one seat, and a party with votes has a positive normalised base. */
  predicate PositiveBases(m: Municipality, t: Turnout, parties: seq<PoliticalParty>)
  {
    && m.councilorAmount > 0
    && forall p :: p in parties && p.votes > 0 ==>
         t.validVotes * Min(m.councilorAmount, p.candidatesAmount) > 0
  }

  /** `valid_votes / councilor_amount * min(councilor_amount, candidates_amount)`. */
  function Base(m: Municipality, t: Turnout, p: PoliticalParty): (b: real)
    requires m.councilorAmount > 0
    ensures PositiveBases(m, t, [p]) && p.votes > 0 ==> b > 0.0
  {
    (t.validVotes as real) / (m.councilorAmount as real) * (Min(m.councilorAmount, p.candidatesAmount) as real)
  }

  /** The party's share of its normalised base, in per cent; 0 without votes. */
  function Ratio(m: Municipality, t: Turnout, p: PoliticalParty): (r: real)
    requires PositiveBases(m, t, [p])
    ensures r >= 0.0
    ensures p.votes <= 0 ==> r == 0.0
  {
    if p.votes > 0 then (p.votes as real) / Base(m, t, p) * 100.0 else 0.0
  }

  /** The test `ratio >= pct` of one round.  A party without votes has ratio 0,
      so it qualifies exactly when the threshold is not positive. */
  function Qualifies(m: Municipality, t: Turnout, p: PoliticalParty, pct: int): (q: bool)
    requires PositiveBases(m, t, [p])
    ensures p.votes <= 0 ==> (q <==> pct <= 0)
    ensures pct <= 0 ==> q
  {
    Ratio(m, t, p) >= pct as real
  }

  /** The ratio test agrees with the exact integer cross-multiplied test, and
      a party without votes qualifies exactly when the threshold is not
      positive. */
  lemma {:induction false} QualifiesCrossMultiplied(m: Municipality, t: Turnout, p: PoliticalParty, pct: int)
    requires PositiveBases(m, t, [p])
    ensures Qualifies(m, t, p, pct) <==>
      if p.votes > 0 then
        100 * p.votes * m.councilorAmount >= pct * t.validVotes * Min(m.councilorAmount, p.candidatesAmount)
      else pct <= 0
  {
    if p.votes > 0 {
      var c := m.councilorAmount as real;
      var k := Min(m.councilorAmount, p.candidatesAmount) as real;
      var vv := t.validVotes as real;
      var v := p.votes as real;
      var b := Base(m, t, p);
      assert b * c == vv * k;
      assert vv * k > 0.0;
      var r := v / b * 100.0;
      assert r * b == 100.0 * v;
      assert r >= pct as real <==> r * (vv * k) >= (pct as real) * (vv * k);
      assert r * (vv * k) == 100.0 * v * c;
      assert (100 * p.votes * m.councilorAmount) as real == 100.0 * v * c;
      assert (pct * t.validVotes * Min(m.councilorAmount, p.candidatesAmount)) as real == (pct as real) * (vv * k);
    }
  }

  /** The parties that qualify at threshold `pct`, in their input order: what
      one pass of the inner loop collects. */
  function Qualifying(m: Municipality, t: Turnout, parties: seq<PoliticalParty>, pct: int): (q: seq<PoliticalParty>)
    requires PositiveBases(m, t, parties)
    ensures |q| <= |parties|
    ensures forall p :: p in q ==> p in parties && Qualifies(m, t, p, pct)
    ensures forall p :: p in parties && Qualifies(m, t, p, pct) ==> p in q
    ensures pct <= 0 ==> q == parties
  {
    if parties == [] then []
    else
      var last := parties[|parties| - 1];
      Qualifying(m, t, parties[..|parties| - 1], pct) + (if Qualifies(m, t, last, pct) then [last] else [])
  }

  /** The threshold the loop settles on when it starts from `pct`: the highest
      threshold at most `pct` at which two or more parties qualify. */
  function ThresholdFrom(m: Municipality, t: Turnout, parties: seq<PoliticalParty>, pct: int): (r: int)
    requires PositiveBases(m, t, parties) && |parties| >= 2 && pct >= 0
    ensures 0 <= r <= pct
    ensures |Qualifying(m, t, parties, r)| >= 2
    ensures forall k :: r < k <= pct ==> |Qualifying(m, t, parties, k)| < 2
    decreases pct
  {
    if pct == 0 || |Qualifying(m, t, parties, pct)| >= 2 then pct
    else ThresholdFrom(m, t, parties, pct - 1)
  }

  /** The threshold step A settles on: the highest of 5, 4, ..., 0 at which
      two or more parties qualify. */
  function ScrutinyThreshold(m: Municipality, t: Turnout, parties: seq<PoliticalParty>): (r: int)
    requires PositiveBases(m, t, parties) && |parties| >= 2
    ensures 0 <= r <= InitialThreshold
    ensures |Qualifying(m, t, parties, r)| >= 2
    ensures forall k :: r < k <= InitialThreshold ==> |Qualifying(m, t, parties, k)| < 2
  {
    ThresholdFrom(m, t, parties, InitialThreshold)
  }

  /** `idx` picks the elements of `r` out of `s` at strictly increasing positions. */
  ghost predicate Embeds<T>(r: seq<T>, s: seq<T>, idx: seq<nat>)
  {
    && |idx| == |r|
    && (forall k :: 0 <= k < |idx| ==> idx[k] < |s| && r[k] == s[idx[k]])
    && (forall k, l :: 0 <= k < l < |idx| ==> idx[k] < idx[l])
  }

  ghost predicate IsSubsequence<T>(r: seq<T>, s: seq<T>)
  {
    exists idx :: Embeds(r, s, idx)
  }

  /** An embedding into a prefix of `s` is an embedding into `s`. */
  lemma EmbedsExtend<T>(r: seq<T>, s: seq<T>, n: nat, idx: seq<nat>)
    requires n <= |s| && Embeds(r, s[..n], idx)
    ensures Embeds(r, s, idx)
  {
    forall k | 0 <= k < |idx|
      ensures idx[k] < |s| && r[k] == s[idx[k]]
    {
      assert s[..n][idx[k]] == s[idx[k]];
    }
  }

  /** Each round keeps a subsequence of the parties: no party is duplicated,
      invented or moved. */
  lemma {:induction false} QualifyingIsSubsequence(m: Municipality, t: Turnout, parties: seq<PoliticalParty>, pct: int)
    requires PositiveBases(m, t, parties)
    ensures IsSubsequence(Qualifying(m, t, parties, pct), parties)
  {
    if parties == [] {
      assert Embeds<PoliticalParty>([], [], []);
    } else {
      var n := |parties| - 1;
      var init := parties[..n];
      var last := parties[n];
      QualifyingIsSubsequence(m, t, init, pct);
      var qi := Qualifying(m, t, init, pct);
      var idx :| Embeds(qi, init, idx);
      EmbedsExtend(qi, parties, n, idx);
      if Qualifies(m, t, last, pct) {
        assert Embeds(qi + [last], parties, idx + [n]);
      } else {
        assert Qualifying(m, t, parties, pct) == qi + [] == qi;
        assert Embeds(qi, parties, idx);
      }
    }
  }

  /** A round keeps every copy of a qualifying party and no copy of any
      other: a party listed twice is kept twice. */
  lemma {:induction false} QualifyingCounts(m: Municipality, t: Turnout, parties: seq<PoliticalParty>, pct: int)
    requires PositiveBases(m, t, parties)
    ensures forall p :: p in parties ==>
      multiset(Qualifying(m, t, parties, pct))[p] == if Qualifies(m, t, p, pct) then multiset(parties)[p] else 0
  {
    if parties != [] {
      var n := |parties| - 1;
      var init := parties[..n];
      var last := parties[n];
      assert parties == init + [last];
      QualifyingCounts(m, t, init, pct);
      var qi := Qualifying(m, t, init, pct);
      forall p | p in parties
        ensures multiset(Qualifying(m, t, parties, pct))[p] == if Qualifies(m, t, p, pct) then multiset(parties)[p] else 0
      {
        if p !in init {
          assert p !in multiset(init);
          assert p !in multiset(qi);
        }
      }
    }
  }

  /** Lowering the threshold never drops a party that qualified before. */
  lemma {:induction false} QualifyingMonotone(m: Municipality, t: Turnout, parties: seq<PoliticalParty>, lo: int, hi: int)
    requires PositiveBases(m, t, parties) && lo <= hi
    ensures forall p :: p in Qualifying(m, t, parties, hi) ==> p in Qualifying(m, t, parties, lo)
    ensures |Qualifying(m, t, parties, hi)| <= |Qualifying(m, t, parties, lo)|
  {
    if parties != [] {
      var n := |parties| - 1;
      QualifyingMonotone(m, t, parties[..n], lo, hi);
    }
  }

  /** Filtering keeps ballot positions distinct. */
  lemma {:induction false} QualifyingDistinct(m: Municipality, t: Turnout, parties: seq<PoliticalParty>, pct: int)
    requires PositiveBases(m, t, parties) && DistinctOrders(parties)
    ensures DistinctOrders(Qualifying(m, t, parties, pct))
  {
    if parties != [] {
      var n := |parties| - 1;
      var init := parties[..n];
      assert DistinctOrders(init);
      QualifyingDistinct(m, t, init, pct);
      var qi := Qualifying(m, t, init, pct);
      forall p | p in qi
        ensures p.order != parties[n].order
      {
        var i :| 0 <= i < n && init[i] == p;
      }
    }
  }

  /** With fewer than two parties no threshold lets the loop stop. */
  lemma FewerThanTwoNeverQualify(m: Municipality, t: Turnout, parties: seq<PoliticalParty>, pct: int)
    requires PositiveBases(m, t, parties) && |parties| < 2
    ensures |Qualifying(m, t, parties, pct)| < 2
  {
  }

  /** The base and ratio the inner loop computes for one party, statement by
      statement; the properties of the ratio are proved about `Ratio`. */
  method PartyRatio(m: Municipality, t: Turnout, party: PoliticalParty) returns (ratio: real)
    requires PositiveBases(m, t, [party])
    ensures ratio == Ratio(m, t, party)
  {
    var base := (t.validVotes as real) / (m.councilorAmount as real)
                * (Min(m.councilorAmount, party.candidatesAmount) as real);
    assert base == Base(m, t, party);
    if party.votes > 0 {
      ratio := (party.votes as real) / base * 100.0;
    } else {
      ratio := 0.0;
    }
  }

  /** One pass of the inner loop of `calc_election_step_A`: re-scan every
      party and collect those whose ratio reaches `pct`. */
  method QualifyingRound(m: Municipality, t: Turnout, parties: seq<PoliticalParty>, pct: int)
    returns (scrutiny: seq<PoliticalParty>)
    requires PositiveBases(m, t, parties)
    ensures scrutiny == Qualifying(m, t, parties, pct)
  {
    scrutiny := [];
    for i := 0 to |parties|
      invariant scrutiny == Qualifying(m, t, parties[..i], pct)
    {
      var party := parties[i];
      assert PositiveBases(m, t, [party]);
      assert parties[..i + 1][..i] == parties[..i];
      var ratio := PartyRatio(m, t, party);
      if ratio >= pct as real {
        scrutiny := scrutiny + [party];
      }
    }
    assert parties[..|parties|] == parties;
  }

  /** `calc_election_step_A`.  The outer loop runs at most six rounds
      (thresholds 5, 4, 3, 2, 1, 0): at threshold 0 every party qualifies. */
  method CalcElectionStepA(m: Municipality, t: Turnout, parties: seq<PoliticalParty>)
    returns (scrutiny: seq<PoliticalParty>, ghost rounds: nat)
    requires PositiveBases(m, t, parties)
    requires |parties| >= 2
    ensures scrutiny == Qualifying(m, t, parties, ScrutinyThreshold(m, t, parties))
    ensures rounds == InitialThreshold - ScrutinyThreshold(m, t, parties) + 1 && 1 <= rounds <= 6
    ensures |scrutiny| >= 2
    ensures forall p :: p in scrutiny ==> p in parties
  {
    scrutiny := [];
    var pct := InitialThreshold;
    rounds := 0;
    while true
      invariant 0 <= pct <= InitialThreshold
      invariant rounds == InitialThreshold - pct
      invariant scrutiny == []
      invariant ThresholdFrom(m, t, parties, pct) == ScrutinyThreshold(m, t, parties)
      decreases pct
    {
      var round := QualifyingRound(m, t, parties, pct);
      scrutiny := scrutiny + round;
      rounds := rounds + 1;
      if |scrutiny| < 2 {
        scrutiny := [];
        pct := pct - 1;
      } else {
        return;
      }
    }
  }
}
