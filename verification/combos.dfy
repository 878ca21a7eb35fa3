/**
 * Classification and comparison of card combinations, legality of a play and
 * the enumeration of every legal play from a hand.
 */
module Combos {
  import opened Wrappers
  import opened Cards
  import opened Subsets

  // ---------------------------------------------------------------- rank counts

  /** The ranks of the cards, in order. */
  function RanksOf(h: seq<Card>): (r: seq<Rank>)
    ensures |r| == |h|
    ensures forall i :: 0 <= i < |h| ==> r[i] == h[i].rank
  {
    seq(|h|, i requires 0 <= i < |h| => h[i].rank)
  }

  /** How many of the cards have rank `r`. */
  function RankMult(h: seq<Card>, r: Rank): nat
  {
    multiset(RanksOf(h))[r]
  }

  /** How many cards of rank `r` there are, counted suit by suit. */
  lemma {:induction false} RankMultBySuit(h: seq<Card>, r: Rank)
    ensures RankMult(h, r) == multiset(h)[Card(Clubs, r)] + multiset(h)[Card(Diamonds, r)]
                              + multiset(h)[Card(Hearts, r)] + multiset(h)[Card(Spades, r)]
  {
    if |h| > 0 {
      var n := |h| - 1;
      RankMultBySuit(h[..n], r);
      assert h == h[..n] + [h[n]];
      assert multiset(h) == multiset(h[..n]) + multiset{h[n]};
      assert RanksOf(h) == RanksOf(h[..n]) + [h[n].rank];
      assert multiset(RanksOf(h)) == multiset(RanksOf(h[..n])) + multiset{h[n].rank};
      assert RankMult(h, r) == RankMult(h[..n], r) + (if h[n].rank == r then 1 else 0);
      var m, m' := multiset(h), multiset(h[..n]);
      if h[n].rank == r {
        match h[n].suit
        case Clubs => assert m[Card(Clubs, r)] == m'[Card(Clubs, r)] + 1;
        case Diamonds => assert m[Card(Diamonds, r)] == m'[Card(Diamonds, r)] + 1;
        case Hearts => assert m[Card(Hearts, r)] == m'[Card(Hearts, r)] + 1;
        case Spades => assert m[Card(Spades, r)] == m'[Card(Spades, r)] + 1;
      }
    }
  }

  /** Rank counts depend only on which cards there are. */
  lemma RankMultPermutation(a: seq<Card>, b: seq<Card>, r: Rank)
    requires multiset(a) == multiset(b)
    ensures RankMult(a, r) == RankMult(b, r)
  {
    RankMultBySuit(a, r);
    RankMultBySuit(b, r);
  }

  /**
   * The rank-to-count table built card by card (`getRankCounts`): a rank is a
   * key exactly when some card has it, and maps to how many cards have it.
   */
  function RankCounts(h: seq<Card>): (m: map<Rank, nat>)
    ensures forall r :: r in m <==> RankMult(h, r) > 0
    ensures forall r :: r in m ==> m[r] == RankMult(h, r)
  {
    if |h| == 0 then map[]
    else
      var n := |h| - 1;
      var m := RankCounts(h[..n]);
      var r := h[n].rank;
      assert RanksOf(h) == RanksOf(h[..n]) + [r];
      m[r := (if r in m then m[r] else 0) + 1]
  }

  /** Some rank occurs exactly four times (`isFourOfAKind`). */
  function IsFourOfAKind(counts: map<Rank, nat>): (b: bool)
    ensures b <==> exists r :: r in counts && counts[r] == 4
  {
    4 in counts.Values
  }

  /** Some rank occurs three times and some rank twice (`isFullHouse`). */
  function IsFullHouse(counts: map<Rank, nat>): (b: bool)
    ensures b <==> (exists r :: r in counts && counts[r] == 3) && (exists r :: r in counts && counts[r] == 2)
  {
    3 in counts.Values && 2 in counts.Values
  }

  lemma CountsValues(h: seq<Card>, v: nat)
    requires v > 0
    ensures v in RankCounts(h).Values <==> exists r :: RankMult(h, r) == v
  {
    var m := RankCounts(h);
    if exists r :: RankMult(h, r) == v {
      var r :| RankMult(h, r) == v;
      assert m[r] == v;
    }
  }

  // ---------------------------------------------------------------- five-card shapes

  /** Sorted ranks rise by exactly one at each step; 2 is never followed by 3. */
  function IsStraight(h: seq<Card>): (b: bool)
    requires |h| == 5
    ensures b <==> forall i :: 0 <= i < 5 ==> RankOrder(h[i].rank) == RankOrder(h[0].rank) + i
    ensures b ==> RankOrder(h[0].rank) <= 8
  {
    var o := i requires 0 <= i < 5 => RankOrder(h[i].rank);
    assert (forall i :: 1 <= i < 5 ==> o(i) == o(i - 1) + 1)
       <==> o(1) == o(0) + 1 && o(2) == o(1) + 1 && o(3) == o(2) + 1 && o(4) == o(3) + 1;
    assert (forall i :: 0 <= i < 5 ==> o(i) == o(0) + i)
       <==> o(1) == o(0) + 1 && o(2) == o(0) + 2 && o(3) == o(0) + 3 && o(4) == o(0) + 4;
    forall i :: 1 <= i < 5 ==> RankOrder(h[i].rank) == RankOrder(h[i - 1].rank) + 1
  }

  /** All cards share the first card's suit. */
  function IsFlush(h: seq<Card>): (b: bool)
    requires |h| >= 1
    ensures b <==> forall i, j :: 0 <= i < |h| && 0 <= j < |h| ==> h[i].suit == h[j].suit
  {
    forall i :: 0 <= i < |h| ==> h[i].suit == h[0].suit
  }

  const RoyalRanks: seq<Rank> := [Ten, Jack, Queen, King, Ace]

  /** A flush whose sorted ranks are 10, J, Q, K, A. */
  function IsRoyalFlush(h: seq<Card>): (b: bool)
    requires |h| == 5
    ensures b <==> IsFlush(h) && IsStraight(h) && h[0].rank == Ten
  {
    RoyalRanksByOrder(h);
    IsFlush(h) && forall i :: 0 <= i < 5 ==> h[i].rank == RoyalRanks[i]
  }

  /**
   * The class of a five-card set: 5 royal flush, 4 straight flush, 3 four of a
   * kind plus one, 2 full house, 1 flush, 0 straight, -1 none (or not five cards).
   * The cards are sorted first and the shapes are tried in that order.
   */
  function ClassifyCombo(hand: seq<Card>): (r: int)
    ensures -1 <= r <= 5
    ensures |hand| != 5 ==> r == -1
  {
    if |hand| != 5 then -1 else ClassifySorted(SortCards(hand))
  }

  /** The chain of shape tests on five sorted cards, strongest shape first. */
  function ClassifySorted(s: seq<Card>): (r: int)
    requires |s| == 5
    ensures -1 <= r <= 5
    ensures r >= 4 <==> IsStraight(s) && IsFlush(s)
    ensures r == 3 ==> IsFourOfAKind(RankCounts(s))
    ensures r == 2 ==> IsFullHouse(RankCounts(s))
    ensures r == 1 ==> IsFlush(s) && !IsStraight(s)
    ensures r == 0 ==> IsStraight(s) && !IsFlush(s)
    ensures r == -1 ==> !IsStraight(s) && !IsFlush(s)
  {
    if IsRoyalFlush(s) then 5
    else
      var straight := IsStraight(s);
      var flush := IsFlush(s);
      if straight && flush then 4
      else
        var counts := RankCounts(s);
        if IsFourOfAKind(counts) then 3
        else if IsFullHouse(counts) then 2
        else if flush then 1
        else if straight then 0
        else -1
  }

  /** Reordering the five cards never changes their class. */
  lemma ClassifyPermutationInvariant(a: seq<Card>, b: seq<Card>)
    requires multiset(a) == multiset(b)
    ensures ClassifyCombo(a) == ClassifyCombo(b)
  {
    assert |a| == |multiset(a)| == |multiset(b)| == |b|;
    if |a| == 5 {
      SortPermutationInvariant(a, b);
    }
  }

  // ---------------------------------------------------------------- shapes, order-free

  /** All cards have one suit. */
  ghost predicate SameSuit(h: seq<Card>)
  {
    forall c, d :: c in h && d in h ==> c.suit == d.suit
  }

  /** The ranks are exactly the five consecutive ranks starting at position `lo`, once each. */
  ghost predicate RunFrom(h: seq<Card>, lo: int)
  {
    forall r :: RankMult(h, r) == (if lo <= RankOrder(r) < lo + 5 then 1 else 0)
  }

  /** Five consecutive ranks, from 3..7 up to J..2; no run wraps from 2 back to 3. */
  ghost predicate HasRun(h: seq<Card>)
  {
    exists lo :: 0 <= lo <= 8 && RunFrom(h, lo)
  }

  ghost predicate HasRankTimes(h: seq<Card>, n: nat)
  {
    exists r :: RankMult(h, r) == n
  }

  /**
   * The class of five cards, defined on the set of cards alone: royal flush is
   * one suit with ranks 10..A, and each weaker shape applies only when no
   * stronger one does.
   */
  ghost function ShapeClass(h: seq<Card>): int
  {
    if SameSuit(h) && RunFrom(h, 7) then 5
    else if SameSuit(h) && HasRun(h) then 4
    else if HasRankTimes(h, 4) then 3
    else if HasRankTimes(h, 3) && HasRankTimes(h, 2) then 2
    else if SameSuit(h) then 1
    else if HasRun(h) then 0
    else -1
  }

  lemma RankMultLast(h: seq<Card>, r: Rank)
    requires |h| > 0
    ensures RankMult(h, r) == RankMult(h[..|h| - 1], r) + (if h[|h| - 1].rank == r then 1 else 0)
  {
    assert RanksOf(h) == RanksOf(h[..|h| - 1]) + [h[|h| - 1].rank];
  }

  lemma RankMultFive(s: seq<Card>, r: Rank)
    requires |s| == 5
    ensures RankMult(s, r) == (if s[0].rank == r then 1 else 0) + (if s[1].rank == r then 1 else 0)
                            + (if s[2].rank == r then 1 else 0) + (if s[3].rank == r then 1 else 0)
                            + (if s[4].rank == r then 1 else 0)
  {
    RankMultLast(s, r);
    assert s[..4][..3] == s[..3] && s[..3][..2] == s[..2] && s[..2][..1] == s[..1];
    RankMultLast(s[..4], r);
    RankMultLast(s[..3], r);
    RankMultLast(s[..2], r);
    RankMultLast(s[..1], r);
    assert RanksOf(s[..1][..0]) == [];
  }

  lemma SortedRanksRise(s: seq<Card>)
    requires Sorted(s)
    ensures forall i, j :: 0 <= i < j < |s| ==> RankOrder(s[i].rank) <= RankOrder(s[j].rank)
  {
  }

  lemma RunFromConsecutive(s: seq<Card>, lo: int)
    requires |s| == 5
    requires forall i :: 0 <= i < 5 ==> RankOrder(s[i].rank) == lo + i
    ensures RunFrom(s, lo)
  {
    forall r: Rank ensures RankMult(s, r) == (if lo <= RankOrder(r) < lo + 5 then 1 else 0) {
      RankMultFive(s, r);
      RankOrderInjective(s[0].rank, r);
      RankOrderInjective(s[1].rank, r);
      RankOrderInjective(s[2].rank, r);
      RankOrderInjective(s[3].rank, r);
      RankOrderInjective(s[4].rank, r);
    }
  }

  /** The ranks of a run lie in lo .. lo + 4 and no two neighbours share one. */
  lemma RunMembers(s: seq<Card>, lo: int)
    requires |s| == 5 && RunFrom(s, lo)
    ensures forall i :: 0 <= i < 5 ==> lo <= RankOrder(s[i].rank) < lo + 5
    ensures forall i :: 0 <= i < 4 ==> s[i].rank != s[i + 1].rank
  {
    forall i | 0 <= i < 5
      ensures lo <= RankOrder(s[i].rank) < lo + 5
      ensures i < 4 ==> s[i].rank != s[i + 1].rank
    {
      RankMultFive(s, s[i].rank);
    }
  }

  lemma ConsecutiveFromRun(s: seq<Card>, lo: int)
    requires |s| == 5 && Sorted(s) && RunFrom(s, lo)
    ensures forall i :: 0 <= i < 5 ==> RankOrder(s[i].rank) == lo + i
  {
    SortedRanksRise(s);
    RunMembers(s, lo);
    RankOrderInjective(s[0].rank, s[1].rank);
    RankOrderInjective(s[1].rank, s[2].rank);
    RankOrderInjective(s[2].rank, s[3].rank);
    RankOrderInjective(s[3].rank, s[4].rank);
    assert RankOrder(s[0].rank) < RankOrder(s[1].rank) < RankOrder(s[2].rank)
         < RankOrder(s[3].rank) < RankOrder(s[4].rank);
  }

  /** Five sorted cards form the run from `lo` exactly when their ranks are lo, lo + 1, ..., lo + 4. */
  lemma SortedRun(s: seq<Card>, lo: int)
    requires |s| == 5 && Sorted(s)
    ensures RunFrom(s, lo) <==> forall i :: 0 <= i < 5 ==> RankOrder(s[i].rank) == lo + i
  {
    if RunFrom(s, lo) {
      ConsecutiveFromRun(s, lo);
    }
    if forall i :: 0 <= i < 5 ==> RankOrder(s[i].rank) == lo + i {
      RunFromConsecutive(s, lo);
    }
  }

  lemma FlushIsSameSuit(h: seq<Card>, s: seq<Card>)
    requires |s| >= 1 && multiset(s) == multiset(h)
    ensures IsFlush(s) <==> SameSuit(h)
  {
    forall c ensures c in s <==> c in h {
      assert c in s <==> c in multiset(s);
    }
    if IsFlush(s) {
      forall c, d | c in h && d in h ensures c.suit == d.suit {
        assert c in s && d in s;
      }
    }
    if SameSuit(h) {
      assert s[0] in h;
      forall i | 0 <= i < |s| ensures s[i].suit == s[0].suit {
        assert s[i] in h;
      }
    }
  }

  lemma RunPermutation(a: seq<Card>, b: seq<Card>, lo: int)
    requires multiset(a) == multiset(b)
    ensures RunFrom(a, lo) <==> RunFrom(b, lo)
  {
    forall r: Rank { RankMultPermutation(a, b, r); }
  }

  lemma StraightIsRun(h: seq<Card>, s: seq<Card>)
    requires |s| == 5 && Sorted(s) && multiset(s) == multiset(h)
    ensures IsStraight(s) <==> HasRun(h)
  {
    var lo := RankOrder(s[0].rank);
    SortedRun(s, lo);
    RunPermutation(h, s, lo);
    if HasRun(h) {
      var lo' :| 0 <= lo' <= 8 && RunFrom(h, lo');
      RunPermutation(h, s, lo');
      SortedRun(s, lo');
    }
    if IsStraight(s) {
      assert RankOrder(s[1].rank) == lo + 1;
      assert RankOrder(s[2].rank) == lo + 2;
      assert RankOrder(s[3].rank) == lo + 3;
      assert RankOrder(s[4].rank) == lo + 4;
      assert RunFrom(s, lo);
      assert 0 <= lo <= 8 && RunFrom(h, lo);
    }
  }

  /** Ranks 10, J, Q, K, A in order are exactly the rank indices 7 .. 11 in order. */
  lemma RoyalRanksByOrder(s: seq<Card>)
    requires |s| == 5
    ensures (forall i :: 0 <= i < 5 ==> s[i].rank == RoyalRanks[i])
        <==> (forall i :: 0 <= i < 5 ==> RankOrder(s[i].rank) == 7 + i)
  {
    forall i | 0 <= i < 5 ensures s[i].rank == RoyalRanks[i] <==> RankOrder(s[i].rank) == 7 + i {
      RankOrderInjective(s[i].rank, RoyalRanks[i]);
    }
  }

  lemma RoyalIsTenToAce(h: seq<Card>, s: seq<Card>)
    requires |s| == 5 && Sorted(s) && multiset(s) == multiset(h)
    ensures IsRoyalFlush(s) <==> SameSuit(h) && RunFrom(h, 7)
  {
    FlushIsSameSuit(h, s);
    SortedRun(s, 7);
    RunPermutation(h, s, 7);
    RoyalRanksByOrder(s);
  }

  lemma CountsPermutation(h: seq<Card>, s: seq<Card>, v: nat)
    requires v > 0 && multiset(s) == multiset(h)
    ensures v in RankCounts(s).Values <==> HasRankTimes(h, v)
  {
    CountsValues(s, v);
    forall r: Rank { RankMultPermutation(h, s, r); }
  }

  /** The class computed on sorted cards agrees with the order-free definition. */
  lemma ClassifyMatchesShape(h: seq<Card>)
    requires |h| == 5
    ensures ClassifyCombo(h) == ShapeClass(h)
  {
    var s := SortCards(h);
    FlushIsSameSuit(h, s);
    StraightIsRun(h, s);
    RoyalIsTenToAce(h, s);
    CountsPermutation(h, s, 4);
    CountsPermutation(h, s, 3);
    CountsPermutation(h, s, 2);
  }

  // ---------------------------------------------------------------- comparison

  /** The highest card by the card order. */
  function HighCard(c: seq<Card>): (h: Card)
    requires |c| > 0
    ensures h in c
    ensures forall x :: x in c ==> Key(x) <= Key(h)
  {
    if |c| == 1 then c[0]
    else
      var t := HighCard(c[1..]);
      assert forall x :: x in c ==> x == c[0] || x in c[1..];
      if Key(c[0]) > Key(t) then c[0] else t
  }

  /** After sorting, the last card is the highest card. */
  lemma SortedTopIsHigh(c: seq<Card>)
    requires |c| > 0
    ensures SortCards(c)[|c| - 1] == HighCard(c)
  {
    var s := SortCards(c);
    var h := HighCard(c);
    var top := s[|c| - 1];
    assert h in multiset(s);
    SortedLastIsMax(s, h);
    assert top in multiset(c);
    KeyInjective(top, h);
  }

  /**
   * The first card's rank whose entry in `counts` is `n` (the `find` over the
   * rank-count table; the rank looked for is unique, so the scan order is immaterial).
   */
  function FindRankWithCount(cards: seq<Card>, counts: map<Rank, nat>, n: nat): (r: Option<Rank>)
    ensures r.Some? ==> r.value in counts && counts[r.value] == n
    ensures r.None? ==> forall i :: 0 <= i < |cards| ==>
              !(cards[i].rank in counts && counts[cards[i].rank] == n)
  {
    if |cards| == 0 then None
    else if cards[0].rank in counts && counts[cards[0].rank] == n then Some(cards[0].rank)
    else FindRankWithCount(cards[1..], counts, n)
  }

  /** Both five-card sets compared by class, then by the key their class uses. */
  function CompareFive(c1: seq<Card>, c2: seq<Card>): (r: int)
    requires |c1| == 5 && |c2| == 5
    ensures -1 <= r <= 1
  {
    var t1 := ClassifyCombo(c1);
    var t2 := ClassifyCombo(c2);
    if t1 == -1 || t2 == -1 then 0
    else if t1 != t2 then (if t1 > t2 then 1 else -1)
    else CompareSameClass(t1, SortCards(c1), SortCards(c2))
  }

  /** Two sorted five-card sets of class `t`, compared by the key that class uses. */
  function CompareSameClass(t: int, s1: seq<Card>, s2: seq<Card>): (r: int)
    requires |s1| == 5 && |s2| == 5
    ensures -1 <= r <= 1
  {
    if t == 0 || t == 4 || t == 5 then
      (if CompareCards(s1[4], s2[4]) > 0 then 1 else -1)
    else if t == 1 then
      if SuitOrder(s1[0].suit) != SuitOrder(s2[0].suit) then
        (if SuitOrder(s1[0].suit) > SuitOrder(s2[0].suit) then 1 else -1)
      else
        (if CompareCards(s1[4], s2[4]) > 0 then 1 else -1)
    else if t == 2 then CompareGroupRanks(s1, s2, 3)
    else CompareGroupRanks(s1, s2, 4)
  }

  /** Compares the ranks that occur `n` times; 0 when either set has no such rank. */
  function CompareGroupRanks(s1: seq<Card>, s2: seq<Card>, n: nat): (r: int)
    ensures -1 <= r <= 1
  {
    match (FindRankWithCount(s1, RankCounts(s1), n), FindRankWithCount(s2, RankCounts(s2), n))
    case (Some(a), Some(b)) => if RankOrder(a) > RankOrder(b) then 1 else -1
    case _ => 0
  }

  /** Two equal ranks. */
  predicate IsPair(c: seq<Card>)
  {
    |c| == 2 && c[0].rank == c[1].rank
  }

  /** Three equal ranks. */
  predicate IsTriple(c: seq<Card>)
  {
    |c| == 3 && c[0].rank == c[1].rank && c[1].rank == c[2].rank
  }

  /**
   * 1 when `c1` beats `c2`, -1 when it does not, 0 when the two cannot be
   * compared. Lengths must agree, except that a five-card set may be played on a
   * single.
   */
  function CompareCombo(c1: seq<Card>, c2: seq<Card>): (r: int)
    ensures -1 <= r <= 1
  {
    if |c1| != |c2| then
      if |c2| == 1 && |c1| == 5 then
        (if ClassifyCombo(c1) >= 3 then 1 else -1)
      else 0
    else if |c1| == 1 then
      (if CompareCards(c1[0], c2[0]) > 0 then 1 else -1)
    else if |c1| == 2 then
      if c1[0].rank != c1[1].rank || c2[0].rank != c2[1].rank then 0
      else (if CompareCards(SortCards(c1)[1], SortCards(c2)[1]) > 0 then 1 else -1)
    else if |c1| == 3 then
      if !IsTriple(c1) || !IsTriple(c2) then 0
      else (if CompareCards(SortCards(c1)[2], SortCards(c2)[2]) > 0 then 1 else -1)
    else if |c1| == 5 then
      CompareFive(c1, c2)
    else 0
  }

  /** A five-card set beats a single exactly when it is four of a kind, a straight flush or a royal flush. */
  lemma CompareCrossLength(c1: seq<Card>, c2: seq<Card>)
    requires |c1| != |c2|
    ensures |c1| == 5 && |c2| == 1 ==>
              (CompareCombo(c1, c2) == 1 <==> ShapeClass(c1) >= 3) && CompareCombo(c1, c2) != 0
    ensures !(|c1| == 5 && |c2| == 1) ==> CompareCombo(c1, c2) == 0
  {
    if |c1| == 5 { ClassifyMatchesShape(c1); }
  }

  /** Singles compare by card order and never tie. */
  lemma CompareSingles(c1: seq<Card>, c2: seq<Card>)
    requires |c1| == 1 && |c2| == 1
    ensures CompareCombo(c1, c2) != 0
    ensures CompareCombo(c1, c2) == 1 <==> Key(c1[0]) > Key(c2[0])
  {
  }

  /** Pairs compare only when both are genuine, and then by their highest card. */
  lemma ComparePairs(c1: seq<Card>, c2: seq<Card>)
    requires |c1| == 2 && |c2| == 2
    ensures !(IsPair(c1) && IsPair(c2)) ==> CompareCombo(c1, c2) == 0
    ensures IsPair(c1) && IsPair(c2) ==>
              && CompareCombo(c1, c2) != 0
              && (CompareCombo(c1, c2) == 1 <==> Key(HighCard(c1)) > Key(HighCard(c2)))
  {
    SortedTopIsHigh(c1);
    SortedTopIsHigh(c2);
  }

  /** Triples compare only when both are genuine, and then by their highest card. */
  lemma CompareTriples(c1: seq<Card>, c2: seq<Card>)
    requires |c1| == 3 && |c2| == 3
    ensures !(IsTriple(c1) && IsTriple(c2)) ==> CompareCombo(c1, c2) == 0
    ensures IsTriple(c1) && IsTriple(c2) ==>
              && CompareCombo(c1, c2) != 0
              && (CompareCombo(c1, c2) == 1 <==> Key(HighCard(c1)) > Key(HighCard(c2)))
  {
    SortedTopIsHigh(c1);
    SortedTopIsHigh(c2);
  }

  /** In five cards at most one rank occurs `n` times when 2n > 5. */
  lemma UniqueRankWithCount(h: seq<Card>, a: Rank, b: Rank, n: nat)
    requires |h| == 5 && n >= 3
    requires RankMult(h, a) == n && RankMult(h, b) == n
    ensures a == b
  {
    RankMultFive(h, a);
    RankMultFive(h, b);
  }

  /** A rank whose count is `n` is found by the scan over the cards. */
  lemma FindRankFound(s: seq<Card>, n: nat)
    requires n > 0 && n in RankCounts(s).Values
    ensures FindRankWithCount(s, RankCounts(s), n).Some?
  {
    var m := RankCounts(s);
    var r :| r in m && m[r] == n;
    assert r in multiset(RanksOf(s));
    var i :| 0 <= i < |s| && RanksOf(s)[i] == r;
  }

  /** Five-card sets of different classes compare by class; an invalid set compares with nothing. */
  lemma CompareFiveByClass(c1: seq<Card>, c2: seq<Card>)
    requires |c1| == 5 && |c2| == 5
    ensures ShapeClass(c1) == -1 || ShapeClass(c2) == -1 ==> CompareCombo(c1, c2) == 0
    ensures ShapeClass(c1) != -1 && ShapeClass(c2) != -1 && ShapeClass(c1) != ShapeClass(c2) ==>
              && CompareCombo(c1, c2) != 0
              && (CompareCombo(c1, c2) == 1 <==> ShapeClass(c1) > ShapeClass(c2))
  {
    ClassifyMatchesShape(c1);
    ClassifyMatchesShape(c2);
  }

  /** Two five-card sets of one known class compare by that class's key on the sorted cards. */
  lemma CompareFiveSameClass(c1: seq<Card>, c2: seq<Card>)
    requires |c1| == 5 && |c2| == 5
    requires ClassifyCombo(c1) == ClassifyCombo(c2) != -1
    ensures CompareCombo(c1, c2) == CompareSameClass(ClassifyCombo(c1), SortCards(c1), SortCards(c2))
  {
    assert CompareCombo(c1, c2) == CompareFive(c1, c2);
  }

  /** Straights, straight flushes and royal flushes of one class compare by their highest card. */
  lemma CompareFiveStraights(c1: seq<Card>, c2: seq<Card>)
    requires |c1| == 5 && |c2| == 5
    requires ShapeClass(c1) == ShapeClass(c2) && ShapeClass(c1) in {0, 4, 5}
    ensures CompareCombo(c1, c2) != 0
    ensures CompareCombo(c1, c2) == 1 <==> Key(HighCard(c1)) > Key(HighCard(c2))
  {
    assert ClassifyCombo(c1) == ClassifyCombo(c2) && ClassifyCombo(c1) in {0, 4, 5} by {
      ClassifyMatchesShape(c1);
      ClassifyMatchesShape(c2);
    }
    CompareFiveSameClass(c1, c2);
    SortedTopIsHigh(c1);
    SortedTopIsHigh(c2);
  }

  lemma ClassOneIsFlush(s: seq<Card>)
    requires |s| == 5 && ClassifySorted(s) == 1
    ensures IsFlush(s)
  {
  }

  lemma FlushSuitAfterSort(c: seq<Card>)
    requires |c| == 5 && ClassifyCombo(c) == 1
    ensures SortCards(c)[0].suit == c[0].suit
  {
    var s := SortCards(c);
    ClassOneIsFlush(s);
    FlushIsSameSuit(c, s);
    assert s[0] in multiset(c);
    assert c[0] in c;
  }

  /** Flushes compare by suit first, then by highest card. */
  lemma CompareFiveFlushes(c1: seq<Card>, c2: seq<Card>)
    requires |c1| == 5 && |c2| == 5
    requires ShapeClass(c1) == 1 && ShapeClass(c2) == 1
    ensures CompareCombo(c1, c2) != 0
    ensures CompareCombo(c1, c2) == 1 <==>
              || SuitOrder(c1[0].suit) > SuitOrder(c2[0].suit)
              || (c1[0].suit == c2[0].suit && Key(HighCard(c1)) > Key(HighCard(c2)))
  {
    assert ClassifyCombo(c1) == 1 && ClassifyCombo(c2) == 1 by {
      ClassifyMatchesShape(c1);
      ClassifyMatchesShape(c2);
    }
    CompareFiveSameClass(c1, c2);
    FlushSuitAfterSort(c1);
    FlushSuitAfterSort(c2);
    SortedTopIsHigh(c1);
    SortedTopIsHigh(c2);
    SuitOrderInjective(c1[0].suit, c2[0].suit);
  }

  /** Class 2 means a rank occurs three times, class 3 that one occurs four times. */
  lemma GroupClasses(s: seq<Card>)
    requires |s| == 5
    ensures ClassifySorted(s) == 2 ==> 3 in RankCounts(s).Values
    ensures ClassifySorted(s) == 3 ==> 4 in RankCounts(s).Values
  {
  }

  /** A sorted set of class 2 (or 3) has a rank occurring three (or four) times. */
  lemma GroupInCounts(c: seq<Card>, n: nat)
    requires |c| == 5
    requires (n == 3 && ClassifyCombo(c) == 2) || (n == 4 && ClassifyCombo(c) == 3)
    ensures n in RankCounts(SortCards(c)).Values
  {
    GroupClasses(SortCards(c));
  }

  lemma GroupClassOfShape(c: seq<Card>, n: nat)
    requires |c| == 5
    requires (n == 3 && ShapeClass(c) == 2) || (n == 4 && ShapeClass(c) == 3)
    ensures (n == 3 && ClassifyCombo(c) == 2) || (n == 4 && ClassifyCombo(c) == 3)
  {
    ClassifyMatchesShape(c);
  }

  /** The scan of a sorted full house (or four of a kind) finds the rank the set holds three (or four) times. */
  lemma GroupRankOfSorted(c: seq<Card>, n: nat)
    requires |c| == 5
    requires (n == 3 && ClassifyCombo(c) == 2) || (n == 4 && ClassifyCombo(c) == 3)
    ensures var s := SortCards(c);
      var f := FindRankWithCount(s, RankCounts(s), n);
      f.Some? && RankMult(c, f.value) == n
  {
    var s := SortCards(c);
    GroupInCounts(c, n);
    FindRankFound(s, n);
    RankMultPermutation(c, s, FindRankWithCount(s, RankCounts(s), n).value);
  }

  lemma CompareGroupsByScan(c1: seq<Card>, c2: seq<Card>, n: nat)
    requires |c1| == 5 && |c2| == 5
    requires (n == 3 && ClassifyCombo(c1) == 2 && ClassifyCombo(c2) == 2)
          || (n == 4 && ClassifyCombo(c1) == 3 && ClassifyCombo(c2) == 3)
    ensures var s1, s2 := SortCards(c1), SortCards(c2);
      var f1 := FindRankWithCount(s1, RankCounts(s1), n);
      var f2 := FindRankWithCount(s2, RankCounts(s2), n);
      f1.Some? && f2.Some? ==>
        CompareCombo(c1, c2) == if RankOrder(f1.value) > RankOrder(f2.value) then 1 else -1
  {
    CompareFiveSameClass(c1, c2);
  }

  /** Full houses compare by the rank of their three; four of a kind by the rank of their four. */
  lemma CompareFiveByGroup(c1: seq<Card>, c2: seq<Card>, n: nat)
    requires |c1| == 5 && |c2| == 5
    requires (n == 3 && ShapeClass(c1) == 2 && ShapeClass(c2) == 2)
          || (n == 4 && ShapeClass(c1) == 3 && ShapeClass(c2) == 3)
    ensures CompareCombo(c1, c2) != 0
    ensures forall a, b :: RankMult(c1, a) == n && RankMult(c2, b) == n ==>
              (CompareCombo(c1, c2) == 1 <==> RankOrder(a) > RankOrder(b))
  {
    var s1, s2 := SortCards(c1), SortCards(c2);
    GroupClassOfShape(c1, n);
    GroupClassOfShape(c2, n);
    GroupRankOfSorted(c1, n);
    GroupRankOfSorted(c2, n);
    var a' := FindRankWithCount(s1, RankCounts(s1), n).value;
    var b' := FindRankWithCount(s2, RankCounts(s2), n).value;
    CompareGroupsByScan(c1, c2, n);
    GroupRanksDecide(c1, c2, n, a', b', CompareCombo(c1, c2));
  }

  /** When the comparison follows the ranks held `n` times, it follows any such ranks, as each is unique. */
  lemma GroupRanksDecide(c1: seq<Card>, c2: seq<Card>, n: nat, a': Rank, b': Rank, r: int)
    requires |c1| == 5 && |c2| == 5 && n >= 3
    requires RankMult(c1, a') == n && RankMult(c2, b') == n
    requires r == if RankOrder(a') > RankOrder(b') then 1 else -1
    ensures forall a, b :: RankMult(c1, a) == n && RankMult(c2, b) == n ==>
              (r == 1 <==> RankOrder(a) > RankOrder(b))
  {
    forall a, b | RankMult(c1, a) == n && RankMult(c2, b) == n
      ensures r == 1 <==> RankOrder(a) > RankOrder(b)
    {
      UniqueRankWithCount(c1, a, a', n);
      UniqueRankWithCount(c2, b, b', n);
    }
  }

  lemma CompareFiveAntisymmetric(x: seq<Card>, y: seq<Card>)
    requires |x| == 5 && |y| == 5
    ensures CompareFive(x, y) == 1 ==> CompareFive(y, x) == -1
    ensures CompareFive(x, y) == 0 ==> CompareFive(y, x) == 0
  {
    if ClassifyCombo(x) != -1 && ClassifyCombo(x) == ClassifyCombo(y) {
      CompareSameClassAntisymmetric(ClassifyCombo(x), SortCards(x), SortCards(y));
    }
  }

  lemma CompareSameClassAntisymmetric(t: int, s1: seq<Card>, s2: seq<Card>)
    requires |s1| == 5 && |s2| == 5
    ensures CompareSameClass(t, s1, s2) == 1 ==> CompareSameClass(t, s2, s1) == -1
    ensures CompareSameClass(t, s1, s2) == 0 ==> CompareSameClass(t, s2, s1) == 0
  {
    CompareCardsAntisymmetric(s1[4], s2[4]);
  }

  /**
   * A win is never mutual: if `x` beats `y` then `y` loses to `x`, or cannot be
   * compared with it when `x` is a five-card set played on a single. Sets of
   * equal length that cannot be compared cannot be compared either way.
   */
  lemma CompareAntisymmetric(x: seq<Card>, y: seq<Card>)
    ensures CompareCombo(x, y) == 1 && |x| == |y| ==> CompareCombo(y, x) == -1
    ensures CompareCombo(x, y) == 1 && |x| != |y| ==> |x| == 5 && |y| == 1 && CompareCombo(y, x) == 0
    ensures CompareCombo(x, y) == 0 && |x| == |y| ==> CompareCombo(y, x) == 0
  {
    if |x| == |y| {
      if |x| == 1 {
        CompareCardsAntisymmetric(x[0], y[0]);
      } else if |x| == 2 || |x| == 3 {
        CompareCardsAntisymmetric(SortCards(x)[|x| - 1], SortCards(y)[|x| - 1]);
      } else if |x| == 5 {
        CompareFiveAntisymmetric(x, y);
      }
    }
  }

  // ---------------------------------------------------------------- legality

  /** A legal unit on its own: a single, a pair, a triple or a classified five-card set. */
  predicate IsCombination(c: seq<Card>)
  {
    |c| == 1 || IsPair(c) || IsTriple(c) || (|c| == 5 && ClassifyCombo(c) != -1)
  }

  /**
   * Whether `toPlay` may be played on `played`. On an empty table any legal unit
   * may lead, except that the first play of the game must hold the 3 of clubs;
   * otherwise the play must beat the table.
   */
  function ValidPlay(played: seq<Card>, toPlay: seq<Card>, isGameStart: bool): (ok: bool)
    ensures |played| == 0 && isGameStart && !HasThreeOfClubs(toPlay) ==> !ok
    ensures |played| == 0 && (!isGameStart || HasThreeOfClubs(toPlay)) ==> (ok <==> IsCombination(toPlay))
    ensures |played| > 0 ==> (ok <==> CompareCombo(toPlay, played) == 1)
  {
    if |played| == 0 then
      if isGameStart && !HasThreeOfClubs(toPlay) then false
      else if |toPlay| == 1 then true
      else if |toPlay| == 2 then toPlay[0].rank == toPlay[1].rank
      else if |toPlay| == 3 then toPlay[0].rank == toPlay[1].rank && toPlay[1].rank == toPlay[2].rank
      else if |toPlay| == 5 then ClassifyCombo(toPlay) != -1
      else false
    else
      CompareCombo(toPlay, played) > 0
  }

  // ---------------------------------------------------------------- enumeration

  /** The elements of `s` satisfying `f`, in their original order. */
  function Filter<T(!new)>(f: T -> bool, s: seq<T>): (r: seq<T>)
    ensures forall x :: x in r <==> x in s && f(x)
    ensures forall x :: multiset(r)[x] == if f(x) then multiset(s)[x] else 0
    ensures |r| <= |s|
  {
    if |s| == 0 then []
    else
      assert s == [s[0]] + s[1..];
      (if f(s[0]) then [s[0]] else []) + Filter(f, s[1..])
  }

  /** Filtering a concatenation filters each part, keeping the parts in order. */
  lemma {:induction false} FilterAppend<T(!new)>(f: T -> bool, a: seq<T>, b: seq<T>)
    ensures Filter(f, a + b) == Filter(f, a) + Filter(f, b)
    decreases |a|
  {
    if |a| == 0 {
      assert a + b == b;
    } else {
      assert (a + b)[1..] == a[1..] + b;
      FilterAppend(f, a[1..], b);
    }
  }

  /** A relation that holds from every element to every later one. */
  ghost predicate Chained<T>(s: seq<T>, R: (T, T) -> bool)
  {
    forall i, j :: 0 <= i < j < |s| ==> R(s[i], s[j])
  }

  /** A chained sequence stays chained after filtering. */
  lemma {:induction false} FilterKeepsOrder<T(!new)>(f: T -> bool, s: seq<T>, R: (T, T) -> bool)
    requires Chained(s, R)
    ensures Chained(Filter(f, s), R)
    decreases |s|
  {
    if |s| > 0 {
      var t := Filter(f, s[1..]);
      assert Chained(s[1..], R) by {
        forall i, j | 0 <= i < j < |s[1..]| ensures R(s[1..][i], s[1..][j]) {
          assert s[1..][i] == s[i + 1] && s[1..][j] == s[j + 1];
        }
      }
      FilterKeepsOrder(f, s[1..], R);
      if f(s[0]) {
        forall y | y in t ensures R(s[0], y) {
          var k :| 0 <= k < |s[1..]| && s[1..][k] == y;
          assert s[k + 1] == y;
        }
        ConsChained(s[0], t, R);
      }
    }
  }

  lemma ConsChained<T>(x: T, t: seq<T>, R: (T, T) -> bool)
    requires Chained(t, R) && forall y :: y in t ==> R(x, y)
    ensures Chained([x] + t, R)
  {
    var r := [x] + t;
    forall i, j | 0 <= i < j < |r| ensures R(r[i], r[j]) {
      assert r[j] == t[j - 1] && t[j - 1] in t;
      if i > 0 {
        assert r[i] == t[i - 1];
      }
    }
  }

  /** Filtering a sorted sequence leaves it sorted. */
  lemma FilterSorted(f: Card -> bool, s: seq<Card>)
    requires Sorted(s)
    ensures Sorted(Filter(f, s))
  {
    var R := (a: Card, b: Card) => Key(a) <= Key(b);
    assert Chained(s, R);
    FilterKeepsOrder(f, s, R);
    var r := Filter(f, s);
    assert forall i, j :: 0 <= i < j < |r| ==> R(r[i], r[j]);
  }

  /** Every two-card selection whose ranks agree. */
  function FindPairs(hand: seq<Card>): (pairs: seq<seq<Card>>)
    ensures forall p :: p in pairs ==> IsPair(p) && multiset(p) <= multiset(hand)
  {
    var r := Filter(IsPair, Combinations(hand, 2));
    assert forall p :: p in r ==> multiset(p) <= multiset(hand) by {
      forall p | p in r ensures multiset(p) <= multiset(hand) {
        CombinationsDrawnFrom(hand, 2, p);
      }
    }
    r
  }

  /** Any two cards of equal rank, taken in hand order, form one of the pairs found. */
  lemma FindPairsComplete(hand: seq<Card>, i: nat, j: nat)
    requires i < j < |hand| && hand[i].rank == hand[j].rank
    ensures [hand[i], hand[j]] in FindPairs(hand)
  {
    var idx := [i as int, j as int];
    CombinationsContainPick(hand, 2, idx);
    assert Pick(hand, idx) == [hand[i], hand[j]];
  }

  /** Every three-card selection whose ranks agree. */
  function FindTriples(hand: seq<Card>): (triples: seq<seq<Card>>)
    ensures forall p :: p in triples ==> IsTriple(p) && multiset(p) <= multiset(hand)
  {
    var r := Filter(IsTriple, Combinations(hand, 3));
    assert forall p :: p in r ==> multiset(p) <= multiset(hand) by {
      forall p | p in r ensures multiset(p) <= multiset(hand) {
        CombinationsDrawnFrom(hand, 3, p);
      }
    }
    r
  }

  /** Any three cards of one rank, taken in hand order, form one of the triples found. */
  lemma FindTriplesComplete(hand: seq<Card>, i: nat, j: nat, k: nat)
    requires i < j < k < |hand| && hand[i].rank == hand[j].rank == hand[k].rank
    ensures [hand[i], hand[j], hand[k]] in FindTriples(hand)
  {
    var idx := [i as int, j as int, k as int];
    CombinationsContainPick(hand, 3, idx);
    assert Pick(hand, idx) == [hand[i], hand[j], hand[k]];
  }

  predicate IsFiveCardCombo(c: seq<Card>)
  {
    |c| == 5 && ClassifyCombo(c) != -1
  }

  /** Every five-card selection that has a class. */
  function FindFiveCardCombos(hand: seq<Card>): (combos: seq<seq<Card>>)
    ensures forall p :: p in combos ==> IsFiveCardCombo(p) && multiset(p) <= multiset(hand)
  {
    var r := Filter(IsFiveCardCombo, Combinations(hand, 5));
    assert forall p :: p in r ==> multiset(p) <= multiset(hand) by {
      forall p | p in r ensures multiset(p) <= multiset(hand) {
        CombinationsDrawnFrom(hand, 5, p);
      }
    }
    r
  }

  /** Any five cards with a class, taken in hand order, form one of the sets found. */
  lemma FindFiveCardCombosComplete(hand: seq<Card>, idx: seq<int>)
    requires IndexChoice(idx, 5, 0, |hand|) && ClassifyCombo(Pick(hand, idx)) != -1
    ensures Pick(hand, idx) in FindFiveCardCombos(hand)
  {
    CombinationsContainPick(hand, 5, idx);
  }

  /** A play that beats anything is itself a legal unit. */
  lemma BeatingIsCombination(p: seq<Card>, t: seq<Card>)
    requires CompareCombo(p, t) == 1
    ensures IsCombination(p)
  {
    if |p| == 5 && |t| == 5 {
      assert CompareFive(p, t) == 1;
    }
  }

  /** A valid play is always a legal unit. */
  lemma ValidIsCombination(played: seq<Card>, p: seq<Card>, isGameStart: bool)
    requires ValidPlay(played, p, isGameStart)
    ensures IsCombination(p)
  {
    if |played| > 0 {
      BeatingIsCombination(p, played);
    }
  }

  function Beats(table: seq<Card>): seq<Card> -> bool
  {
    p => CompareCombo(p, table) > 0
  }

  /** Every single, pair, triple and classified five-card set of the sorted hand. */
  function AllCandidates(hand: seq<Card>): seq<seq<Card>>
  {
    CandidatesOf(SortCards(hand))
  }

  /** The singles, pairs, triples and classified five-card sets of `s`, in that order. */
  function CandidatesOf(s: seq<Card>): seq<seq<Card>>
  {
    Combinations(s, 1) + FindPairs(s) + FindTriples(s) + FindFiveCardCombos(s)
  }

  /** The listing order of plays: by size, and singles by card order. */
  predicate ListedBefore(p: seq<Card>, q: seq<Card>)
  {
    |p| <= |q| && (|p| == 1 && |q| == 1 ==> Key(p[0]) <= Key(q[0]))
  }

  /** The candidates of a sorted hand come singles first, in card order, then pairs, triples and five-card sets. */
  lemma CandidatesInOrder(s: seq<Card>)
    requires Sorted(s)
    ensures Chained(CandidatesOf(s), ListedBefore)
  {
    var c := CandidatesOf(s);
    forall i, j | 0 <= i < j < |c| ensures ListedBefore(c[i], c[j]) {
      CandidateAt(s, i);
      CandidateAt(s, j);
    }
  }

  /** The size of the k-th candidate, by the group it falls in; the singles are the cards in turn. */
  lemma CandidateAt(s: seq<Card>, k: int)
    requires 0 <= k < |CandidatesOf(s)|
    ensures var n1 := |s|;
      var n2 := n1 + |FindPairs(s)|;
      var n3 := n2 + |FindTriples(s)|;
      && |CandidatesOf(s)[k]| == (if k < n1 then 1 else if k < n2 then 2 else if k < n3 then 3 else 5)
      && (k < n1 ==> CandidatesOf(s)[k] == [s[k]])
  {
    var a, b, t, f := Combinations(s, 1), FindPairs(s), FindTriples(s), FindFiveCardCombos(s);
    assert |a| == |s|;
    var c := a + b + t + f;
    assert CandidatesOf(s) == c;
    if k < |a| {
      assert c[k] == a[k];
    } else if k < |a| + |b| {
      assert c[k] == b[k - |a|] && b[k - |a|] in b;
    } else if k < |a| + |b| + |t| {
      assert c[k] == t[k - |a| - |b|] && t[k - |a| - |b|] in t;
    } else {
      assert c[k] == f[k - |a| - |b| - |t|] && f[k - |a| - |b| - |t|] in f;
    }
  }

  /** Every candidate is a legal unit made of cards of the hand. */
  lemma CandidatesSound(hand: seq<Card>, p: seq<Card>)
    requires p in AllCandidates(hand)
    ensures IsCombination(p) && multiset(p) <= multiset(hand)
  {
    var sorted := SortCards(hand);
    if p in Combinations(sorted, 1) {
      CombinationsDrawnFrom(sorted, 1, p);
    }
  }

  /** Every legal unit drawn in order from the sorted hand is a candidate. */
  lemma CandidatesComplete(hand: seq<Card>, idx: seq<int>)
    requires IndexChoice(idx, |idx|, 0, |hand|)
    requires IsCombination(Pick(SortCards(hand), idx))
    ensures Pick(SortCards(hand), idx) in AllCandidates(hand)
  {
    ChoiceInSomeList(SortCards(hand), idx);
  }

  lemma ChoiceInSomeList(sorted: seq<Card>, idx: seq<int>)
    requires IndexChoice(idx, |idx|, 0, |sorted|) && IsCombination(Pick(sorted, idx))
    ensures Pick(sorted, idx) in CandidatesOf(sorted)
  {
    if |idx| == 1 {
      CombinationsContainPick(sorted, 1, idx);
    } else if |idx| == 2 {
      PairChoiceFound(sorted, idx);
    } else if |idx| == 3 {
      TripleChoiceFound(sorted, idx);
    } else {
      FiveChoiceFound(sorted, idx);
    }
  }

  lemma PairChoiceFound(s: seq<Card>, idx: seq<int>)
    requires IndexChoice(idx, 2, 0, |s|) && IsCombination(Pick(s, idx))
    ensures Pick(s, idx) in FindPairs(s)
  {
    CombinationsContainPick(s, 2, idx);
  }

  lemma TripleChoiceFound(s: seq<Card>, idx: seq<int>)
    requires IndexChoice(idx, 3, 0, |s|) && IsCombination(Pick(s, idx))
    ensures Pick(s, idx) in FindTriples(s)
  {
    CombinationsContainPick(s, 3, idx);
  }

  lemma FiveChoiceFound(s: seq<Card>, idx: seq<int>)
    requires IndexChoice(idx, 5, 0, |s|) && IsCombination(Pick(s, idx))
    ensures Pick(s, idx) in FindFiveCardCombos(s)
  {
    CombinationsContainPick(s, 5, idx);
  }

  /**
   * The legal plays from `hand`: every candidate that beats a non-empty table;
   * on an empty table at the start of the game, every candidate with the 3 of
   * clubs; otherwise every candidate.
   */
  function CalculatePossiblePlays(hand: seq<Card>, played: seq<Card>, isGameStart: bool): (plays: seq<seq<Card>>)
    ensures forall p :: p in plays ==> ValidPlay(played, p, isGameStart) && multiset(p) <= multiset(hand)
    ensures |played| > 0 ==> forall p :: p in plays ==> CompareCombo(p, played) == 1
    ensures |played| == 0 && isGameStart ==> forall p :: p in plays ==> HasThreeOfClubs(p)
    ensures Chained(plays, ListedBefore)
  {
    var all := AllCandidates(hand);
    assert forall p :: p in all ==> IsCombination(p) && multiset(p) <= multiset(hand) by {
      forall p | p in all ensures IsCombination(p) && multiset(p) <= multiset(hand) {
        CandidatesSound(hand, p);
      }
    }
    CandidatesInOrder(SortCards(hand));
    KeepLegal(all, played, isGameStart)
  }

  /** The candidates that may be played on `played`: those beating it, or holding the 3 of clubs at the start. */
  function KeepLegal(all: seq<seq<Card>>, played: seq<Card>, isGameStart: bool): (r: seq<seq<Card>>)
    ensures forall p :: p in r <==>
      && p in all
      && (|played| > 0 ==> CompareCombo(p, played) == 1)
      && (|played| == 0 && isGameStart ==> HasThreeOfClubs(p))
    ensures Chained(all, ListedBefore) ==> Chained(r, ListedBefore)
  {
    if |played| > 0 then
      assert Chained(all, ListedBefore) ==> Chained(Filter(Beats(played), all), ListedBefore) by {
        if Chained(all, ListedBefore) {
          FilterKeepsOrder(Beats(played), all, ListedBefore);
        }
      }
      Filter(Beats(played), all)
    else if isGameStart then
      assert Chained(all, ListedBefore) ==> Chained(Filter(HasThreeOfClubs, all), ListedBefore) by {
        if Chained(all, ListedBefore) {
          FilterKeepsOrder(HasThreeOfClubs, all, ListedBefore);
        }
      }
      Filter(HasThreeOfClubs, all)
    else all
  }

  /** The legal plays of a concatenation are the legal plays of each part, in order. */
  lemma KeepLegalAppend(a: seq<seq<Card>>, b: seq<seq<Card>>, played: seq<Card>, isGameStart: bool)
    ensures KeepLegal(a + b, played, isGameStart) == KeepLegal(a, played, isGameStart) + KeepLegal(b, played, isGameStart)
  {
    if |played| > 0 {
      FilterAppend(Beats(played), a, b);
    } else if isGameStart {
      FilterAppend(HasThreeOfClubs, a, b);
    }
  }

  /**
   * The offered plays come in groups: the legal singles, pairs, triples and
   * five-card sets of the sorted hand, each group in the generator's order.
   */
  lemma PossiblePlaysByGroup(hand: seq<Card>, played: seq<Card>, isGameStart: bool)
    ensures var s := SortCards(hand);
      CalculatePossiblePlays(hand, played, isGameStart)
        == KeepLegal(Combinations(s, 1), played, isGameStart) + KeepLegal(FindPairs(s), played, isGameStart)
           + KeepLegal(FindTriples(s), played, isGameStart) + KeepLegal(FindFiveCardCombos(s), played, isGameStart)
  {
    var s := SortCards(hand);
    var a, b, t, f := Combinations(s, 1), FindPairs(s), FindTriples(s), FindFiveCardCombos(s);
    KeepLegalAppend(a + b + t, f, played, isGameStart);
    KeepLegalAppend(a + b, t, played, isGameStart);
    KeepLegalAppend(a, b, played, isGameStart);
  }

  /**
   * On an empty table the first play offered is the lowest card alone; at the
   * start of the game that card is the 3 of clubs.
   */
  lemma FirstPlayIsLowestSingle(hand: seq<Card>, isGameStart: bool)
    requires |hand| > 0 && (!isGameStart || ThreeOfClubs in hand)
    ensures var plays := CalculatePossiblePlays(hand, [], isGameStart);
      |plays| > 0 && plays[0] == [SortCards(hand)[0]]
    ensures isGameStart ==> SortCards(hand)[0] == ThreeOfClubs
  {
    var s := SortCards(hand);
    var singles := Combinations(s, 1);
    assert singles == [[s[0]]] + singles[1..];
    PossiblePlaysByGroup(hand, [], isGameStart);
    if isGameStart {
      assert ThreeOfClubs in multiset(s);
      LowestIsThreeOfClubs(s);
      assert HasThreeOfClubs([s[0]]);
      FilterAppend(HasThreeOfClubs, [[s[0]]], singles[1..]);
    }
  }

  /** The 3 of clubs is the lowest card, so a sorted hand holding it starts with it. */
  lemma LowestIsThreeOfClubs(s: seq<Card>)
    requires Sorted(s) && ThreeOfClubs in s
    ensures s[0] == ThreeOfClubs
  {
    var k :| 0 <= k < |s| && s[k] == ThreeOfClubs;
    assert Key(s[0]) <= Key(s[k]);
    KeyInjective(s[0], ThreeOfClubs);
  }


  /**
   * Completeness: every valid play made of cards of the hand, listed in sorted
   * order, is offered.
   */
  lemma PossiblePlaysComplete(hand: seq<Card>, played: seq<Card>, isGameStart: bool, idx: seq<int>)
    requires IndexChoice(idx, |idx|, 0, |hand|)
    requires ValidPlay(played, Pick(SortCards(hand), idx), isGameStart)
    ensures Pick(SortCards(hand), idx) in CalculatePossiblePlays(hand, played, isGameStart)
  {
    var p := Pick(SortCards(hand), idx);
    ValidIsCombination(played, p, isGameStart);
    CandidatesComplete(hand, idx);
  }

  /** On an open table after the first play, every card of the hand may be led alone. */
  lemma EverySingleOnOpenTable(hand: seq<Card>, c: Card)
    requires c in hand
    ensures [c] in CalculatePossiblePlays(hand, [], false)
  {
    var sorted := SortCards(hand);
    assert c in multiset(sorted);
    var i :| 0 <= i < |sorted| && sorted[i] == c;
    var idx := [i];
    assert Pick(sorted, idx) == [c];
    PossiblePlaysComplete(hand, [], false, idx);
  }
}
