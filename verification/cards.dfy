/**
 * Cards, their order, the deck, the index-driven shuffle and the deal.
 */
module Cards {

  datatype Suit = Clubs | Diamonds | Hearts | Spades

  datatype Rank = Three | Four | Five | Six | Seven | Eight | Nine | Ten
                | Jack | Queen | King | Ace | Two

  /** A card is a value, equal to another card exactly when suit and rank agree. */
  datatype Card = Card(suit: Suit, rank: Rank)

  /** Position of a suit in the suit order: clubs < diamonds < hearts < spades. */
  function SuitOrder(s: Suit): (o: nat)
    ensures o < 4
  {
    match s
    case Clubs => 0
    case Diamonds => 1
    case Hearts => 2
    case Spades => 3
  }

  /** Position of a rank in the rank order: 3 is lowest, 2 is highest. */
  function RankOrder(r: Rank): (o: nat)
    ensures o < 13
  {
    match r
    case Three => 0
    case Four => 1
    case Five => 2
    case Six => 3
    case Seven => 4
    case Eight => 5
    case Nine => 6
    case Ten => 7
    case Jack => 8
    case Queen => 9
    case King => 10
    case Ace => 11
    case Two => 12
  }

  /** The suits in the order the deck is built. */
  const DeckSuits: seq<Suit> := [Spades, Hearts, Diamonds, Clubs]

  /** The ranks from lowest to highest. */
  const Ranks: seq<Rank> := [Three, Four, Five, Six, Seven, Eight, Nine, Ten,
                             Jack, Queen, King, Ace, Two]

  const ThreeOfClubs: Card := Card(Clubs, Three)

  lemma RanksListedInOrder()
    ensures |Ranks| == 13
    ensures forall i :: 0 <= i < 13 ==> RankOrder(Ranks[i]) == i
    ensures forall r: Rank :: Ranks[RankOrder(r)] == r
  {
  }

  lemma SuitOrderInjective(a: Suit, b: Suit)
    ensures SuitOrder(a) == SuitOrder(b) ==> a == b
  {
  }

  lemma RankOrderInjective(a: Rank, b: Rank)
    ensures RankOrder(a) == RankOrder(b) ==> a == b
  {
    RanksListedInOrder();
  }

  /** True when the cards include the 3 of clubs. */
  predicate HasThreeOfClubs(cards: seq<Card>)
  {
    exists i :: 0 <= i < |cards| && cards[i].rank == Three && cards[i].suit == Clubs
  }

  lemma HasThreeOfClubsMeans(cards: seq<Card>)
    ensures HasThreeOfClubs(cards) <==> ThreeOfClubs in cards
  {
  }

  // ---------------------------------------------------------------- ordering

  /** Position of a card among all 52 in the card order (rank first, suit second). */
  function Key(c: Card): (k: nat)
    ensures k < 52
  {
    4 * RankOrder(c.rank) + SuitOrder(c.suit)
  }

  lemma KeyInjective(a: Card, b: Card)
    ensures Key(a) == Key(b) ==> a == b
  {
    RankOrderInjective(a.rank, b.rank);
    SuitOrderInjective(a.suit, b.suit);
  }

  /**
   * Negative when `a` comes before `b`, positive when after, zero when equal:
   * rank decides, and the suit breaks ties between equal ranks.
   */
  function CompareCards(a: Card, b: Card): (r: int)
    ensures r == 0 <==> a == b
    ensures r < 0 <==> Key(a) < Key(b)
    ensures r > 0 <==> Key(a) > Key(b)
    ensures a.rank != b.rank ==> (r > 0 <==> RankOrder(a.rank) > RankOrder(b.rank))
  {
    KeyInjective(a, b);
    RankOrderInjective(a.rank, b.rank);
    if RankOrder(a.rank) != RankOrder(b.rank) then
      RankOrder(a.rank) - RankOrder(b.rank)
    else
      SuitOrder(a.suit) - SuitOrder(b.suit)
  }

  /** The sign of a comparison flips when its arguments are swapped. */
  lemma CompareCardsAntisymmetric(a: Card, b: Card)
    ensures CompareCards(a, b) > 0 <==> CompareCards(b, a) < 0
    ensures CompareCards(a, b) == 0 <==> CompareCards(b, a) == 0
  {
  }

  /** Ascending in the card order. */
  ghost predicate Sorted(s: seq<Card>)
  {
    forall i, j :: 0 <= i < j < |s| ==> Key(s[i]) <= Key(s[j])
  }

  /** Inserts `c` into a sorted sequence, keeping it sorted. */
  function Insert(c: Card, s: seq<Card>): (r: seq<Card>)
    requires Sorted(s)
    ensures Sorted(r)
    ensures multiset(r) == multiset(s) + multiset{c}
    ensures |r| == |s| + 1
    ensures r[0] == (if |s| == 0 || Key(c) <= Key(s[0]) then c else s[0])
  {
    if |s| == 0 then [c]
    else if CompareCards(c, s[0]) <= 0 then
      [c] + s
    else
      var rest := Insert(c, s[1..]);
      InsertStep(c, s, rest);
      [s[0]] + rest
  }

  /** The step of `Insert` that keeps the head of `s` in front of the insertion into its tail. */
  lemma InsertStep(c: Card, s: seq<Card>, rest: seq<Card>)
    requires |s| > 0 && Sorted(s) && Key(c) > Key(s[0])
    requires Sorted(rest) && multiset(rest) == multiset(s[1..]) + multiset{c} && |rest| == |s|
    requires rest[0] == (if |s| == 1 || Key(c) <= Key(s[1]) then c else s[1])
    ensures Sorted([s[0]] + rest)
    ensures multiset([s[0]] + rest) == multiset(s) + multiset{c}
  {
    assert s == [s[0]] + s[1..];
    assert Key(s[0]) <= Key(rest[0]);
    assert forall j :: 0 <= j < |rest| ==> Key(rest[0]) <= Key(rest[j]);
  }

  /** The hand sorted by CompareCards (the order `hand.sort(compareCards)` yields). */
  function SortCards(s: seq<Card>): (r: seq<Card>)
    ensures Sorted(r)
    ensures multiset(r) == multiset(s)
    ensures |r| == |s|
  {
    if |s| == 0 then []
    else
      assert s == [s[0]] + s[1..];
      Insert(s[0], SortCards(s[1..]))
  }

  /**
   * Two sorted sequences holding the same cards are equal; since only identical
   * cards compare equal, every correct sort yields the same result.
   */
  lemma {:induction false} SortedUnique(a: seq<Card>, b: seq<Card>)
    requires Sorted(a) && Sorted(b)
    requires multiset(a) == multiset(b)
    ensures a == b
  {
    assert |a| == |multiset(a)| == |multiset(b)| == |b|;
    if |a| > 0 {
      assert a[0] in multiset(b);
      var j :| 0 <= j < |b| && b[j] == a[0];
      assert b[0] in multiset(a);
      var i :| 0 <= i < |a| && a[i] == b[0];
      assert Key(b[0]) <= Key(a[0]) by {
        if j > 0 { assert Key(b[0]) <= Key(b[j]); }
      }
      assert Key(a[0]) <= Key(b[0]) by {
        if i > 0 { assert Key(a[0]) <= Key(a[i]); }
      }
      KeyInjective(a[0], b[0]);
      TailMultiset(a);
      TailMultiset(b);
      SortedUnique(a[1..], b[1..]);
    }
  }

  lemma TailMultiset(s: seq<Card>)
    requires |s| > 0
    ensures multiset(s[1..]) == multiset(s) - multiset{s[0]}
  {
    assert s == [s[0]] + s[1..];
  }

  /** Sorting depends only on which cards there are, not on their order. */
  lemma SortPermutationInvariant(a: seq<Card>, b: seq<Card>)
    requires multiset(a) == multiset(b)
    ensures SortCards(a) == SortCards(b)
  {
    SortedUnique(SortCards(a), SortCards(b));
  }

  /** In a sorted sequence the last card is the highest. */
  lemma SortedLastIsMax(s: seq<Card>, c: Card)
    requires Sorted(s) && c in s
    ensures Key(c) <= Key(s[|s| - 1])
  {
    var i :| 0 <= i < |s| && s[i] == c;
    if i < |s| - 1 { assert Key(s[i]) <= Key(s[|s| - 1]); }
  }

  // ---------------------------------------------------------------- deck

  /** The 52 cards, suit by suit in DeckSuits order, each suit from 3 up to 2. */
  function CreateDeck(): (deck: seq<Card>)
    ensures |deck| == 52
    ensures forall i, j :: 0 <= i < j < |deck| ==> deck[i] != deck[j]
    ensures forall c: Card :: c in deck
  {
    var deck := seq(52, i requires 0 <= i < 52 => Card(DeckSuits[i / 13], Ranks[i % 13]));
    assert forall i, j :: 0 <= i < j < 52 ==> deck[i] != deck[j] by {
      forall i, j | 0 <= i < j < 52 ensures deck[i] != deck[j] {
        RanksListedInOrder();
        if i / 13 != j / 13 {
          assert deck[i].suit != deck[j].suit;
        } else {
          assert i % 13 != j % 13;
          assert RankOrder(deck[i].rank) != RankOrder(deck[j].rank);
        }
      }
    }
    assert forall c: Card :: c in deck by {
      forall c: Card ensures c in deck {
        RanksListedInOrder();
        var s := match c.suit case Spades => 0 case Hearts => 1 case Diamonds => 2 case Clubs => 3;
        var i := 13 * s + RankOrder(c.rank);
        assert i / 13 == s && i % 13 == RankOrder(c.rank);
        assert deck[i] == c;
      }
    }
    deck
  }

  // ---------------------------------------------------------------- shuffle

  /**
   * The random choices of a Fisher-Yates pass over `n` items: the k-th choice is
   * the index swapped with position n - 1 - k, so it lies in 0 .. n - 1 - k.
   */
  predicate ValidPicks(n: nat, picks: seq<nat>)
  {
    && |picks| == (if n == 0 then 0 else n - 1)
    && forall k :: 0 <= k < |picks| ==> picks[k] <= n - 1 - k
  }

  function Swap<T>(s: seq<T>, i: nat, j: nat): (r: seq<T>)
    requires i < |s| && j < |s|
    ensures |r| == |s|
    ensures multiset(r) == multiset(s)
    ensures r[i] == s[j] && r[j] == s[i]
    ensures forall k :: 0 <= k < |s| && k != i && k != j ==> r[k] == s[k]
  {
    s[i := s[j]][j := s[i]]
  }

  lemma SwapSelf<T>(s: seq<T>, i: nat)
    requires i < |s|
    ensures Swap(s, i, i) == s
  {
  }

  /** The shuffle loop from position `i` down to 1. */
  function ShuffleFrom<T>(d: seq<T>, picks: seq<nat>, i: int): (r: seq<T>)
    requires ValidPicks(|d|, picks)
    requires -1 <= i < |d|
    ensures |r| == |d|
    ensures multiset(r) == multiset(d)
    ensures forall k :: i < k < |d| ==> r[k] == d[k]
    decreases i
  {
    if i <= 0 then d
    else
      var j := picks[|d| - 1 - i];
      ShuffleFrom(Swap(d, i, j), picks, i - 1)
  }

  /** Fisher-Yates shuffle of a copy of `deck`, driven by explicit choices. */
  function Shuffle<T>(deck: seq<T>, picks: seq<nat>): (r: seq<T>)
    requires ValidPicks(|deck|, picks)
    ensures |r| == |deck|
    ensures multiset(r) == multiset(deck)
  {
    ShuffleFrom(deck, picks, |deck| - 1)
  }

  /** Choosing every position itself is the identity shuffle. */
  lemma {:induction false} ShuffleFromStaying<T>(d: seq<T>, picks: seq<nat>, i: int)
    requires ValidPicks(|d|, picks)
    requires -1 <= i < |d|
    requires forall k :: 0 <= k < |picks| ==> picks[k] == |d| - 1 - k
    ensures ShuffleFrom(d, picks, i) == d
    decreases i
  {
    if i > 0 {
      SwapSelf(d, i);
      ShuffleFromStaying(d, picks, i - 1);
    }
  }

  lemma ShuffleIdentity<T>(deck: seq<T>, picks: seq<nat>)
    requires ValidPicks(|deck|, picks)
    requires forall k :: 0 <= k < |picks| ==> picks[k] == |deck| - 1 - k
    ensures Shuffle(deck, picks) == deck
  {
    ShuffleFromStaying(deck, picks, |deck| - 1);
  }

  // ---------------------------------------------------------------- deal

  /** The cards dealt round-robin to hand `k`, in dealing order: deck[k], deck[k + 4], ... */
  function Column(deck: seq<Card>, k: nat): seq<Card>
  {
    if |deck| == 0 then []
    else
      var n := |deck| - 1;
      Column(deck[..n], k) + (if n % 4 == k then [deck[n]] else [])
  }

  /** Card i of the deck is card i / 4 of hand i mod 4 before sorting. */
  lemma {:induction false} ColumnPositions(deck: seq<Card>, k: nat)
    requires k < 4
    ensures |Column(deck, k)| == (|deck| + 3 - k) / 4
    ensures forall i :: 0 <= i < |deck| && i % 4 == k ==> Column(deck, k)[i / 4] == deck[i]
  {
    if |deck| > 0 {
      var n := |deck| - 1;
      ColumnPositions(deck[..n], k);
      var c := Column(deck[..n], k);
      assert |c| == (n + 3 - k) / 4;
      if n % 4 == k {
        assert (n + 3 - k) / 4 == n / 4;
        assert (|deck| + 3 - k) / 4 == n / 4 + 1;
      } else {
        assert (|deck| + 3 - k) / 4 == (n + 3 - k) / 4;
      }
    }
  }

  lemma ColumnMiss(deck: seq<Card>, k: nat)
    requires |deck| > 0 && (|deck| - 1) % 4 != k
    ensures Column(deck, k) == Column(deck[..|deck| - 1], k)
  {
  }

  lemma ColumnHit(deck: seq<Card>, k: nat)
    requires |deck| > 0 && (|deck| - 1) % 4 == k
    ensures multiset(Column(deck, k)) == multiset(Column(deck[..|deck| - 1], k)) + multiset{deck[|deck| - 1]}
  {
  }

  /** The four round-robin piles together hold exactly the deck. */
  lemma {:induction false} ColumnsPartition(deck: seq<Card>)
    ensures multiset(Column(deck, 0)) + multiset(Column(deck, 1))
          + multiset(Column(deck, 2)) + multiset(Column(deck, 3)) == multiset(deck)
  {
    if |deck| > 0 {
      var n := |deck| - 1;
      ColumnsPartition(deck[..n]);
      assert multiset(deck) == multiset(deck[..n]) + multiset{deck[n]} by {
        assert deck == deck[..n] + [deck[n]];
      }
      var d := deck[..n];
      var k := n % 4;
      ColumnHit(deck, k);
      forall j | 0 <= j < 4 && j != k ensures Column(deck, j) == Column(d, j) {
        ColumnMiss(deck, j);
      }
      AddToOnePile(multiset(Column(d, 0)), multiset(Column(d, 1)), multiset(Column(d, 2)),
                   multiset(Column(d, 3)), multiset{deck[n]}, k);
    }
  }

  /** Adding `x` to one of four piles adds it to their union. */
  lemma AddToOnePile(m0: multiset<Card>, m1: multiset<Card>, m2: multiset<Card>, m3: multiset<Card>,
                     x: multiset<Card>, k: int)
    requires 0 <= k < 4
    ensures (if k == 0 then m0 + x else m0) + (if k == 1 then m1 + x else m1)
          + (if k == 2 then m2 + x else m2) + (if k == 3 then m3 + x else m3)
         == m0 + m1 + m2 + m3 + x
  {
  }

  /** The four hands: round-robin piles, each sorted by the card order. */
  function DealCards(deck: seq<Card>): (hands: seq<seq<Card>>)
    ensures |hands| == 4
    ensures forall k :: 0 <= k < 4 ==> Sorted(hands[k]) && multiset(hands[k]) == multiset(Column(deck, k))
  {
    seq(4, k requires 0 <= k < 4 => SortCards(Column(deck, k)))
  }

  /** Card i of the deck lands in hand i mod 4. */
  lemma DealPlacesRoundRobin(deck: seq<Card>, i: nat)
    requires i < |deck|
    ensures deck[i] in DealCards(deck)[i % 4]
  {
    ColumnPositions(deck, i % 4);
    assert deck[i] in multiset(Column(deck, i % 4));
  }

  /** The hands partition the deck: together they hold each card as often as the deck does. */
  lemma DealPartitions(deck: seq<Card>)
    ensures var h := DealCards(deck);
      multiset(h[0]) + multiset(h[1]) + multiset(h[2]) + multiset(h[3]) == multiset(deck)
  {
    ColumnsPartition(deck);
  }

  /** A 52-card deck gives four hands of 13. */
  lemma DealFullDeck(deck: seq<Card>)
    requires |deck| == 52
    ensures forall k :: 0 <= k < 4 ==> |DealCards(deck)[k]| == 13
  {
    var h := DealCards(deck);
    forall k | 0 <= k < 4 ensures |h[k]| == 13 {
      ColumnPositions(deck, k);
      assert |h[k]| == |multiset(h[k])| == |multiset(Column(deck, k))| == |Column(deck, k)|;
      assert k == 0 || k == 1 || k == 2 || k == 3;
    }
  }
}
