/**
 * The k-subset generator shared by the pair, triple and five-card searches:
 * all length-n selections of a sequence taken at strictly increasing positions,
 * in lexicographic order of those positions.
 */
module Subsets {

  /** Puts `x` in front of every sequence of `cs`. */
  function Prefix<T>(x: T, cs: seq<seq<T>>): (r: seq<seq<T>>)
    ensures |r| == |cs|
    ensures forall k :: 0 <= k < |cs| ==> r[k] == [x] + cs[k]
  {
    seq(|cs|, k requires 0 <= k < |cs| => [x] + cs[k])
  }

  /** All n-element selections of `a`; singletons when n is 1. */
  function Combinations<T>(a: seq<T>, n: nat): (r: seq<seq<T>>)
    requires n >= 1
    ensures forall k :: 0 <= k < |r| ==> |r[k]| == n
    ensures |a| < n ==> r == []
    decreases n, 1
  {
    if n == 1 then seq(|a|, i requires 0 <= i < |a| => [a[i]])
    else ExtendFrom(a, n, 0)
  }

  /**
   * The outer loop of the generator from position i on: a[i] followed by every
   * (n - 1)-selection of the cards after it, for i up to |a| - n.
   */
  function ExtendFrom<T>(a: seq<T>, n: nat, i: nat): (r: seq<seq<T>>)
    requires n >= 2
    ensures forall k :: 0 <= k < |r| ==> |r[k]| == n
    decreases n, 0, |a| - i
  {
    if i + n > |a| then []
    else Prefix(a[i], Combinations(a[i + 1..], n - 1)) + ExtendFrom(a, n, i + 1)
  }

  // ---------------------------------------------------------------- counting

  /** The binomial coefficient by Pascal's rule. */
  function Binom(m: nat, k: nat): nat
  {
    if k == 0 then 1
    else if m == 0 then 0
    else Binom(m - 1, k - 1) + Binom(m - 1, k)
  }

  lemma {:induction false} BinomBelow(m: nat, k: nat)
    requires m < k
    ensures Binom(m, k) == 0
  {
    if m > 0 {
      BinomBelow(m - 1, k - 1);
      BinomBelow(m - 1, k);
    }
  }

  lemma {:induction false} BinomOne(m: nat)
    ensures Binom(m, 1) == m
  {
    if m > 0 { BinomOne(m - 1); }
  }

  /** There are C(|a|, n) selections. */
  lemma {:induction false} CombinationsCount<T>(a: seq<T>, n: nat)
    requires n >= 1
    ensures |Combinations(a, n)| == Binom(|a|, n)
    decreases n, 1
  {
    if n == 1 {
      BinomOne(|a|);
    } else {
      ExtendFromCount(a, n, 0);
    }
  }

  lemma {:induction false} ExtendFromCount<T>(a: seq<T>, n: nat, i: nat)
    requires n >= 2 && i <= |a|
    ensures |ExtendFrom(a, n, i)| == Binom(|a| - i, n)
    decreases n, 0, |a| - i
  {
    if i + n > |a| {
      BinomBelow(|a| - i, n);
    } else {
      var m := |a| - i;
      CombinationsCount(a[i + 1..], n - 1);
      ExtendFromCount(a, n, i + 1);
      assert |ExtendFrom(a, n, i)| == Binom(m - 1, n - 1) + Binom(m - 1, n);
      assert Binom(m, n) == Binom(m - 1, n - 1) + Binom(m - 1, n);
    }
  }

  // ---------------------------------------------------------------- positions

  /** Strictly increasing positions. */
  ghost predicate Increasing(idx: seq<int>)
  {
    forall p, q :: 0 <= p < q < |idx| ==> idx[p] < idx[q]
  }

  /** `idx` picks n positions of lo .. hi - 1 in increasing order. */
  ghost predicate IndexChoice(idx: seq<int>, n: nat, lo: int, hi: int)
  {
    && |idx| == n
    && Increasing(idx)
    && forall p :: 0 <= p < |idx| ==> lo <= idx[p] < hi
  }

  /** The positions lo, lo + 1, ..., hi - 1. */
  function Iota(lo: int, hi: int): (r: seq<int>)
    requires lo <= hi
    ensures |r| == hi - lo
    ensures forall k :: 0 <= k < |r| ==> r[k] == lo + k
  {
    seq(hi - lo, k requires 0 <= k < hi - lo => lo + k)
  }

  /** The elements of `a` at the positions `idx`. */
  function Pick<T>(a: seq<T>, idx: seq<int>): (r: seq<T>)
    requires forall p :: 0 <= p < |idx| ==> 0 <= idx[p] < |a|
    ensures |r| == |idx|
    ensures forall p :: 0 <= p < |idx| ==> r[p] == a[idx[p]]
  {
    seq(|idx|, p requires 0 <= p < |idx| => a[idx[p]])
  }

  lemma {:induction false} IncreasingSpread(idx: seq<int>)
    requires Increasing(idx) && |idx| > 0
    ensures idx[|idx| - 1] - idx[0] >= |idx| - 1
  {
    if |idx| > 1 {
      var t := idx[1..];
      assert Increasing(t);
      IncreasingSpread(t);
      assert idx[0] < idx[1];
    }
  }

  lemma IotaSuffix(lo: int, hi: int, j: nat)
    requires lo + j < hi
    ensures Iota(lo, hi)[j] == lo + j
    ensures Iota(lo, hi)[j + 1..] == Iota(lo + j + 1, hi)
  {
  }

  /** A choice from lo splits into its first position and a choice after it. */
  lemma IndexChoiceSplit(c: seq<int>, n: nat, lo: int, hi: int)
    requires n >= 2
    ensures IndexChoice(c, n, lo, hi) <==>
      (|c| == n && lo <= c[0] && IndexChoice(c[1..], n - 1, c[0] + 1, hi))
  {
    if |c| == n {
      var t := c[1..];
      assert forall p :: 0 <= p < |t| ==> t[p] == c[p + 1];
      if IndexChoice(c, n, lo, hi) {
        assert Increasing(t) by {
          forall p, q | 0 <= p < q < |t| ensures t[p] < t[q] {
            assert c[p + 1] < c[q + 1];
          }
        }
        assert forall p :: 0 <= p < |t| ==> c[0] + 1 <= t[p] < hi by {
          forall p | 0 <= p < |t| ensures c[0] + 1 <= t[p] < hi {
            assert c[0] < c[p + 1];
          }
        }
      }
      if lo <= c[0] && IndexChoice(t, n - 1, c[0] + 1, hi) {
        assert Increasing(c) by {
          forall p, q | 0 <= p < q < |c| ensures c[p] < c[q] {
            if p > 0 { assert t[p - 1] < t[q - 1]; } else { assert c[q] == t[q - 1]; }
          }
        }
        assert forall p :: 0 <= p < |c| ==> lo <= c[p] < hi by {
          forall p | 0 <= p < |c| ensures lo <= c[p] < hi {
            if p > 0 { assert c[p] == t[p - 1]; } else { assert c[0] < t[0]; }
          }
        }
      }
    }
  }

  /** The generator applied to positions yields exactly the increasing choices. */
  lemma {:induction false} CombinationsOfRange(lo: int, hi: int, n: nat)
    requires n >= 1 && lo <= hi
    ensures forall c :: c in Combinations(Iota(lo, hi), n) <==> IndexChoice(c, n, lo, hi)
    decreases n, 1
  {
    if n == 1 {
      forall c ensures c in Combinations(Iota(lo, hi), n) <==> IndexChoice(c, n, lo, hi) {
        if IndexChoice(c, n, lo, hi) {
          assert c == Combinations(Iota(lo, hi), n)[c[0] - lo];
        }
      }
    } else {
      ExtendFromOfRange(lo, hi, n, 0);
    }
  }

  lemma {:induction false} ExtendFromOfRange(lo: int, hi: int, n: nat, j: nat)
    requires n >= 2 && lo + j <= hi
    ensures forall c :: c in ExtendFrom(Iota(lo, hi), n, j) <==> IndexChoice(c, n, lo + j, hi)
    decreases n, 0, hi - lo - j
  {
    var a := Iota(lo, hi);
    if j + n > |a| {
      var from := lo + j;
      forall c ensures !IndexChoice(c, n, from, hi) {
        if IndexChoice(c, n, from, hi) { IncreasingSpread(c); }
      }
    } else {
      IotaSuffix(lo, hi, j);
      var sub := Combinations(Iota(lo + j + 1, hi), n - 1);
      CombinationsOfRange(lo + j + 1, hi, n - 1);
      ExtendFromOfRange(lo, hi, n, j + 1);
      var front := Prefix(lo + j, sub);
      var rest := ExtendFrom(a, n, j + 1);
      assert ExtendFrom(a, n, j) == front + rest;
      var from := lo + j;
      forall c ensures c in front + rest <==> IndexChoice(c, n, from, hi) {
        IndexChoiceSplit(c, n, from, hi);
        IndexChoiceSplit(c, n, from + 1, hi);
        if c in front {
          var k :| 0 <= k < |front| && front[k] == c;
          assert sub[k] in sub;
          assert c[0] == from && c[1..] == sub[k];
        }
        if IndexChoice(c, n, from, hi) && c[0] == from {
          assert c[1..] in sub;
          var k :| 0 <= k < |sub| && sub[k] == c[1..];
          assert c == [c[0]] + c[1..];
          assert front[k] == c;
        }
      }
    }
  }

  /** No sequence occurs twice. */
  ghost predicate Distinct<T>(cs: seq<T>)
  {
    forall p, q :: 0 <= p < q < |cs| ==> cs[p] != cs[q]
  }

  lemma {:induction false} CombinationsOfRangeDistinct(lo: int, hi: int, n: nat)
    requires n >= 1 && lo <= hi
    ensures Distinct(Combinations(Iota(lo, hi), n))
    decreases n, 1
  {
    if n == 1 {
      var cs := Combinations(Iota(lo, hi), n);
      forall p, q | 0 <= p < q < |cs| ensures cs[p] != cs[q] {
        assert cs[p][0] != cs[q][0];
      }
    } else {
      ExtendFromOfRangeDistinct(lo, hi, n, 0);
    }
  }

  lemma {:induction false} ExtendFromOfRangeDistinct(lo: int, hi: int, n: nat, j: nat)
    requires n >= 2 && lo + j <= hi
    ensures Distinct(ExtendFrom(Iota(lo, hi), n, j))
    decreases n, 0, hi - lo - j
  {
    var a := Iota(lo, hi);
    if j + n <= |a| {
      IotaSuffix(lo, hi, j);
      var from := lo + j;
      var sub := Combinations(Iota(from + 1, hi), n - 1);
      CombinationsOfRangeDistinct(from + 1, hi, n - 1);
      ExtendFromOfRangeDistinct(lo, hi, n, j + 1);
      ExtendFromOfRange(lo, hi, n, j + 1);
      var front := Prefix(from, sub);
      var rest := ExtendFrom(a, n, j + 1);
      var all := front + rest;
      assert ExtendFrom(a, n, j) == all;
      forall p, q | 0 <= p < q < |all| ensures all[p] != all[q] {
        if q < |front| {
          assert all[p][1..] == sub[p] && all[q][1..] == sub[q];
        } else if p < |front| {
          assert rest[q - |front|] in rest;
          assert all[q][0] >= from + 1;
        } else {
          assert all[p] == rest[p - |front|] && all[q] == rest[q - |front|];
        }
      }
    }
  }

  lemma PickCons<T>(a: seq<T>, x: int, d: seq<int>)
    requires 0 <= x < |a|
    requires forall p :: 0 <= p < |d| ==> 0 <= d[p] < |a|
    ensures Pick(a, [x] + d) == [a[x]] + Pick(a, d)
  {
  }

  /** Selecting from a suffix of `a` is selecting positions of that suffix. */
  lemma {:induction false} CombinationsPick<T>(a: seq<T>, lo: nat, n: nat)
    requires n >= 1 && lo <= |a|
    ensures var cs := Combinations(a[lo..], n);
      var ics := Combinations(Iota(lo, |a|), n);
      && |cs| == |ics|
      && forall k :: 0 <= k < |ics| ==>
           IndexChoice(ics[k], n, lo, |a|) && cs[k] == Pick(a, ics[k])
    decreases n, 1
  {
    var cs := Combinations(a[lo..], n);
    var ics := Combinations(Iota(lo, |a|), n);
    CombinationsOfRange(lo, |a|, n);
    if n == 1 {
      forall k | 0 <= k < |ics|
        ensures IndexChoice(ics[k], n, lo, |a|) && cs[k] == Pick(a, ics[k])
      {
        assert ics[k] in ics;
      }
    } else {
      ExtendFromPick(a, lo, n, 0);
      forall k | 0 <= k < |ics| ensures IndexChoice(ics[k], n, lo, |a|) {
        assert ics[k] in ics;
      }
    }
  }

  /** `es` lists, in order, the selections of `a` at the position lists `eis`. */
  ghost predicate PicksMatch<T>(a: seq<T>, es: seq<seq<T>>, eis: seq<seq<int>>)
  {
    && |es| == |eis|
    && forall k :: 0 <= k < |eis| ==>
         (forall p :: 0 <= p < |eis[k]| ==> 0 <= eis[k][p] < |a|) && es[k] == Pick(a, eis[k])
  }

  lemma PicksMatchAppend<T>(a: seq<T>, es1: seq<seq<T>>, es2: seq<seq<T>>, eis1: seq<seq<int>>, eis2: seq<seq<int>>)
    requires PicksMatch(a, es1, eis1) && PicksMatch(a, es2, eis2)
    ensures PicksMatch(a, es1 + es2, eis1 + eis2)
  {
    forall k | 0 <= k < |eis1 + eis2|
      ensures (forall p :: 0 <= p < |(eis1 + eis2)[k]| ==> 0 <= (eis1 + eis2)[k][p] < |a|)
      ensures (es1 + es2)[k] == Pick(a, (eis1 + eis2)[k])
    {
      if k >= |eis1| {
        assert (eis1 + eis2)[k] == eis2[k - |eis1|];
        assert (es1 + es2)[k] == es2[k - |eis1|];
      }
    }
  }

  lemma PrefixPicks<T>(a: seq<T>, x: int, cs: seq<seq<T>>, ics: seq<seq<int>>)
    requires 0 <= x < |a| && PicksMatch(a, cs, ics)
    ensures PicksMatch(a, Prefix(a[x], cs), Prefix(x, ics))
  {
    forall k | 0 <= k < |ics|
      ensures (forall p :: 0 <= p < |Prefix(x, ics)[k]| ==> 0 <= Prefix(x, ics)[k][p] < |a|)
      ensures Prefix(a[x], cs)[k] == Pick(a, Prefix(x, ics)[k])
    {
      PickCons(a, x, ics[k]);
    }
  }

  lemma {:induction false} ExtendFromPick<T>(a: seq<T>, lo: nat, n: nat, j: nat)
    requires n >= 2 && lo + j <= |a|
    ensures PicksMatch(a, ExtendFrom(a[lo..], n, j), ExtendFrom(Iota(lo, |a|), n, j))
    decreases n, 0, |a| - lo - j
  {
    var b := a[lo..];
    var ia := Iota(lo, |a|);
    if j + n <= |b| {
      var from := lo + j;
      IotaSuffix(lo, |a|, j);
      assert b[j] == a[from];
      assert b[j + 1..] == a[from + 1..];
      var cs := Combinations(a[from + 1..], n - 1);
      var ics := Combinations(Iota(from + 1, |a|), n - 1);
      CombinationsPick(a, from + 1, n - 1);
      ExtendFromPick(a, lo, n, j + 1);
      PrefixPicks(a, from, cs, ics);
      PicksMatchAppend(a, Prefix(a[from], cs), ExtendFrom(b, n, j + 1), Prefix(from, ics), ExtendFrom(ia, n, j + 1));
      assert ExtendFrom(b, n, j) == Prefix(a[from], cs) + ExtendFrom(b, n, j + 1);
      assert ExtendFrom(ia, n, j) == Prefix(from, ics) + ExtendFrom(ia, n, j + 1);
    }
  }

  /** The position choices of the generator for a sequence of length m. */
  ghost function Positions(m: nat, n: nat): seq<seq<int>>
    requires n >= 1
  {
    Combinations(Iota(0, m), n)
  }

  /**
   * `Combinations(a, n)` lists, for each way of choosing n strictly increasing
   * positions of `a`, the elements at those positions: only such choices, every
   * such choice, none twice, and C(|a|, n) of them.
   */
  lemma CombinationsSelect<T>(a: seq<T>, n: nat)
    requires n >= 1
    ensures |Combinations(a, n)| == |Positions(|a|, n)| == Binom(|a|, n)
    ensures forall idx :: idx in Positions(|a|, n) <==> IndexChoice(idx, n, 0, |a|)
    ensures Distinct(Positions(|a|, n))
    ensures forall k :: 0 <= k < |Positions(|a|, n)| ==>
              && IndexChoice(Positions(|a|, n)[k], n, 0, |a|)
              && Combinations(a, n)[k] == Pick(a, Positions(|a|, n)[k])
  {
    assert a[0..] == a;
    CombinationsPick(a, 0, n);
    CombinationsOfRange(0, |a|, n);
    CombinationsOfRangeDistinct(0, |a|, n);
    CombinationsCount(a, n);
  }

  /** Elements taken at distinct increasing positions form a sub-multiset. */
  lemma {:induction false} PickSubMultiset<T>(a: seq<T>, idx: seq<int>)
    requires IndexChoice(idx, |idx|, 0, |a|)
    ensures multiset(Pick(a, idx)) <= multiset(a)
  {
    if |a| > 0 && |idx| > 0 {
      var m := |a| - 1;
      var last := |idx| - 1;
      assert multiset(a) == multiset(a[..m]) + multiset{a[m]} by {
        assert a == a[..m] + [a[m]];
      }
      if idx[last] == m {
        var front := idx[..last];
        assert IndexChoice(front, |front|, 0, m) by {
          assert forall p :: 0 <= p < last ==> idx[p] < idx[last];
        }
        PickSubMultiset(a[..m], front);
        assert Pick(a, idx) == Pick(a[..m], front) + [a[m]];
        assert multiset(Pick(a, idx)) == multiset(Pick(a[..m], front)) + multiset{a[m]};
      } else {
        assert IndexChoice(idx, |idx|, 0, m) by {
          assert forall p :: 0 <= p < last ==> idx[p] < idx[last];
        }
        PickSubMultiset(a[..m], idx);
        assert Pick(a, idx) == Pick(a[..m], idx);
      }
    }
  }

  /** Every selection has n elements, all drawn from `a`. */
  lemma CombinationsDrawnFrom<T>(a: seq<T>, n: nat, c: seq<T>)
    requires n >= 1 && c in Combinations(a, n)
    ensures |c| == n
    ensures multiset(c) <= multiset(a)
  {
    CombinationsSelect(a, n);
    var k :| 0 <= k < |Combinations(a, n)| && Combinations(a, n)[k] == c;
    PickSubMultiset(a, Positions(|a|, n)[k]);
  }

  /** Every increasing choice of n positions is drawn by the generator. */
  lemma CombinationsContainPick<T>(a: seq<T>, n: nat, idx: seq<int>)
    requires n >= 1 && IndexChoice(idx, n, 0, |a|)
    ensures Pick(a, idx) in Combinations(a, n)
  {
    CombinationsSelect(a, n);
    assert idx in Positions(|a|, n);
    var k :| 0 <= k < |Positions(|a|, n)| && Positions(|a|, n)[k] == idx;
    assert Combinations(a, n)[k] == Pick(a, idx);
  }
}
