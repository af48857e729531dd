/** Step C, the ranking: the claims sorted in place, stably, by descending
    quotient.  The specification is a functional insertion sort; the lemmas
    show it is sorted, a permutation and stable, and that these three facts
    pin the result down, so any stable descending sort agrees with it. */
module Ranking {
  import opened Records

  predicate SortedDescending(s: seq<Quotient>)
  {
    forall i, j :: 0 <= i < j < |s| ==> s[i].value >= s[j].value
  }

  /** The claims of `s` whose quotient is `v`, in their order in `s`. */
  function WithValue(s: seq<Quotient>, v: int): seq<Quotient>
  {
    if s == [] then []
    else WithValue(s[..|s| - 1], v) + (if s[|s| - 1].value == v then [s[|s| - 1]] else [])
  }

  /** `WithValue` keeps exactly the claims of quotient `v`. */
  lemma {:induction false} WithValueMembers(s: seq<Quotient>, v: int, q: Quotient)
    ensures q in WithValue(s, v) <==> q in s && q.value == v
  {
    if s != [] {
      var n := |s| - 1;
      WithValueMembers(s[..n], v, q);
      assert s == s[..n] + [s[n]];
    }
  }

  /** Equal quotients appear in `r` in the order they had in `s`. */
  ghost predicate Stable(r: seq<Quotient>, s: seq<Quotient>)
  {
    forall v :: WithValue(r, v) == WithValue(s, v)
  }

  /** Place `x` after every claim of `sorted` whose quotient is at least
      `x`'s, scanning from the right as an insertion sort does. */
  function Insert(sorted: seq<Quotient>, x: Quotient): (r: seq<Quotient>)
    ensures |r| == |sorted| + 1
  {
    if sorted == [] then [x]
    else if sorted[|sorted| - 1].value >= x.value then sorted + [x]
    else Insert(sorted[..|sorted| - 1], x) + [sorted[|sorted| - 1]]
  }

  function SortDescending(s: seq<Quotient>): (r: seq<Quotient>)
    ensures |r| == |s|
  {
    if s == [] then [] else Insert(SortDescending(s[..|s| - 1]), s[|s| - 1])
  }

  lemma {:induction false} InsertPermutes(sorted: seq<Quotient>, x: Quotient)
    ensures multiset(Insert(sorted, x)) == multiset(sorted) + multiset{x}
  {
    if sorted != [] && sorted[|sorted| - 1].value < x.value {
      var n := |sorted| - 1;
      InsertPermutes(sorted[..n], x);
      assert sorted == sorted[..n] + [sorted[n]];
    }
  }

  lemma {:induction false} InsertSorted(sorted: seq<Quotient>, x: Quotient)
    requires SortedDescending(sorted)
    ensures SortedDescending(Insert(sorted, x))
  {
    if sorted != [] && sorted[|sorted| - 1].value < x.value {
      var n := |sorted| - 1;
      var init := sorted[..n];
      var last := sorted[n];
      InsertSorted(init, x);
      InsertPermutes(init, x);
      var r := Insert(init, x);
      forall k | 0 <= k < |r|
        ensures r[k].value >= last.value
      {
        assert r[k] in multiset(r);
        if r[k] != x {
          assert r[k] in multiset(init);
          var i :| 0 <= i < n && init[i] == r[k];
        }
      }
    }
  }

  lemma WithValueSnoc(s: seq<Quotient>, q: Quotient, v: int)
    ensures WithValue(s + [q], v) == WithValue(s, v) + (if q.value == v then [q] else [])
  {
    assert (s + [q])[..|s|] == s;
  }

  lemma {:induction false} InsertStable(sorted: seq<Quotient>, x: Quotient, v: int)
    ensures WithValue(Insert(sorted, x), v) == WithValue(sorted, v) + (if x.value == v then [x] else [])
  {
    if sorted == [] {
      WithValueSnoc([], x, v);
      assert [] + [x] == [x];
    } else {
      var n := |sorted| - 1;
      var init := sorted[..n];
      var last := sorted[n];
      assert sorted == init + [last];
      if last.value >= x.value {
        WithValueSnoc(sorted, x, v);
      } else {
        InsertStable(init, x, v);
        var r := Insert(init, x);
        assert Insert(sorted, x) == r + [last];
        WithValueSnoc(r, last, v);
        WithValueSnoc(init, last, v);
      }
    }
  }

  /** The specification sort is sorted, a permutation, and stable. */
  lemma {:induction false} SortDescendingCorrect(s: seq<Quotient>)
    ensures SortedDescending(SortDescending(s))
    ensures multiset(SortDescending(s)) == multiset(s)
    ensures Stable(SortDescending(s), s)
  {
    if s != [] {
      var n := |s| - 1;
      SortDescendingCorrect(s[..n]);
      InsertSorted(SortDescending(s[..n]), s[n]);
      InsertPermutes(SortDescending(s[..n]), s[n]);
      assert s == s[..n] + [s[n]];
      forall v
        ensures WithValue(SortDescending(s), v) == WithValue(s, v)
      {
        InsertStable(SortDescending(s[..n]), s[n], v);
      }
    }
  }

  /** Every claim of a descending sequence has at least the quotient of its
      last claim. */
  lemma LastIsLeast(r: seq<Quotient>, q: Quotient)
    requires SortedDescending(r) && q in r
    ensures q.value >= r[|r| - 1].value
  {
    var i :| 0 <= i < |r| && r[i] == q;
  }

  /** Two sequences ending in claims of the same quotient `v`, and holding
      the same claims of quotient `v`, end in the same claim. */
  lemma SameLast(init: seq<Quotient>, init': seq<Quotient>, a: Quotient, b: Quotient)
    requires a.value == b.value
    requires WithValue(init + [a], a.value) == WithValue(init' + [b], a.value)
    ensures a == b
  {
    var v := a.value;
    WithValueSnoc(init, a, v);
    WithValueSnoc(init', b, v);
    var x, x' := WithValue(init, v), WithValue(init', v);
    assert (x + [a])[|x|] == a;
    assert (x' + [b])[|x'|] == b;
  }

  /** A non-empty sequence holds a claim of its last claim's quotient. */
  lemma NoValuesEmpty(r: seq<Quotient>)
    requires r != []
    ensures WithValue(r, r[|r| - 1].value) != []
  {
    WithValueMembers(r, r[|r| - 1].value, r[|r| - 1]);
  }

  /** Dropping a common last claim keeps the claims of every quotient equal. */
  lemma DropLastKeepsValues(init: seq<Quotient>, init': seq<Quotient>, a: Quotient)
    requires forall v :: WithValue(init + [a], v) == WithValue(init' + [a], v)
    ensures forall w :: WithValue(init, w) == WithValue(init', w)
  {
    forall w
      ensures WithValue(init, w) == WithValue(init', w)
    {
      assert (init + [a])[..|init|] == init;
      assert (init' + [a])[..|init'|] == init';
      var x, x' := WithValue(init, w), WithValue(init', w);
      if w == a.value {
        assert WithValue(init + [a], w) == x + [a];
        assert WithValue(init' + [a], w) == x' + [a];
        assert x == (x + [a])[..|x|];
        assert x' == (x' + [a])[..|x'|];
      } else {
        assert WithValue(init + [a], w) == x;
        assert WithValue(init' + [a], w) == x';
      }
    }
  }

  /** Two descending sequences that hold the same claims of every quotient,
      in the same order, are equal. */
  lemma {:induction false} SortedStableUnique(r: seq<Quotient>, r': seq<Quotient>)
    requires SortedDescending(r) && SortedDescending(r')
    requires forall v :: WithValue(r, v) == WithValue(r', v)
    ensures r == r'
    decreases |r|
  {
    if r == [] || r' == [] {
      if r' != [] {
        NoValuesEmpty(r');
        assert false;
      } else if r != [] {
        NoValuesEmpty(r);
        assert false;
      }
    } else {
      var init, init' := r[..|r| - 1], r'[..|r'| - 1];
      var a, b := r[|r| - 1], r'[|r'| - 1];
      assert r == init + [a];
      assert r' == init' + [b];
      assert WithValue(r, a.value) == WithValue(r', a.value);
      WithValueMembers(r, a.value, a);
      WithValueMembers(r', a.value, a);
      LastIsLeast(r', a);
      assert WithValue(r, b.value) == WithValue(r', b.value);
      WithValueMembers(r', b.value, b);
      WithValueMembers(r, b.value, b);
      LastIsLeast(r, b);
      SameLast(init, init', a, b);
      DropLastKeepsValues(init, init', a);
      SortedStableUnique(init, init');
    }
  }

  /** Any sorted, stable rearrangement of `s` (such as `list.sort` with
      `reverse=True` produces) is the specification sort of `s`. */
  lemma StableSortIsSortDescending(s: seq<Quotient>, r: seq<Quotient>)
    requires SortedDescending(r) && Stable(r, s)
    ensures r == SortDescending(s)
  {
    SortDescendingCorrect(s);
    SortedStableUnique(r, SortDescending(s));
  }

  /** `Insert` puts `x` right after the last claim whose quotient is at
      least `x`'s, with only smaller quotients behind it. */
  lemma {:induction false} InsertAt(t: seq<Quotient>, x: Quotient, j: nat)
    requires j <= |t|
    requires j == 0 || t[j - 1].value >= x.value
    requires forall k :: j <= k < |t| ==> t[k].value < x.value
    ensures Insert(t, x) == t[..j] + [x] + t[j..]
    decreases |t| - j
  {
    if j < |t| {
      var n := |t| - 1;
      InsertAt(t[..n], x, j);
      assert t[..n][..j] == t[..j];
      assert t[j..] == t[..n][j..] + [t[n]];
    } else {
      assert t[..j] == t;
    }
  }

  /** One insertion-sort step: with `ratios[..i]` holding a sorted prefix
      `t`, move `ratios[i]` left past every claim with a smaller quotient. */
  method InsertInPlace(ratios: array<Quotient>, i: nat)
    requires i < ratios.Length
    modifies ratios
    ensures ratios[..i + 1] == Insert(old(ratios[..i]), old(ratios[i]))
    ensures ratios[i + 1..] == old(ratios[i + 1..])
  {
    ghost var t := ratios[..i];
    ghost var rest := ratios[i + 1..];
    var x := ratios[i];
    var j := i;
    while j > 0 && ratios[j - 1].value < x.value
      invariant 0 <= j <= i
      invariant forall k :: 0 <= k < j ==> ratios[k] == t[k]
      invariant forall k :: j < k <= i ==> ratios[k] == t[k - 1]
      invariant forall k :: j <= k < i ==> t[k].value < x.value
      invariant ratios[i + 1..] == rest
    {
      ratios[j] := ratios[j - 1];
      j := j - 1;
    }
    ratios[j] := x;
    assert ratios[..i + 1] == t[..j] + [x] + t[j..] by {
      forall k | 0 <= k <= i
        ensures ratios[k] == (t[..j] + [x] + t[j..])[k]
      {
      }
    }
    InsertAt(t, x, j);
  }

  /** `calc_election_step_C`: `ratios.sort(key=quotient, reverse=True)`,
      written as an in-place insertion sort; the list itself is returned. */
  method CalcElectionStepC(ratios: array<Quotient>) returns (sorted: array<Quotient>)
    modifies ratios
    ensures sorted == ratios
    ensures ratios[..] == SortDescending(old(ratios[..]))
  {
    ghost var s := ratios[..];
    var n := ratios.Length;
    for i := 0 to n
      invariant ratios[..i] == SortDescending(s[..i])
      invariant ratios[i..] == s[i..]
    {
      assert ratios[i] == s[i];
      InsertInPlace(ratios, i);
      assert s[..i + 1][..i] == s[..i];
    }
    assert s[..n] == s;
    sorted := ratios;
  }
}
