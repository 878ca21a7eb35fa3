/**
 * The computer players: each picks one play from the list of legal plays it
 * is offered.
 */
module Ai {
  import opened Wrappers
  import opened Cards

  // ---------------------------------------------------------------- rank bounds

  /**
   * The highest rank index among the cards; -1 for no cards, standing for
   * the -Infinity that an empty maximum gives (every real index exceeds it).
   */
  function HighestRank(cards: seq<Card>): (h: int)
    ensures |cards| == 0 ==> h == -1
    ensures |cards| > 0 ==> 0 <= h < 13 && exists i :: 0 <= i < |cards| && RankOrder(cards[i].rank) == h
    ensures forall i :: 0 <= i < |cards| ==> RankOrder(cards[i].rank) <= h
  {
    if |cards| == 0 then -1
    else
      var rest := HighestRank(cards[1..]);
      var here := RankOrder(cards[0].rank);
      if here >= rest then here else rest
  }

  /**
   * The lowest rank index among the cards; 13 for no cards, standing for the
   * +Infinity that an empty minimum gives.
   */
  function LowestRank(cards: seq<Card>): (l: int)
    ensures |cards| == 0 ==> l == 13
    ensures |cards| > 0 ==> 0 <= l < 13 && exists i :: 0 <= i < |cards| && RankOrder(cards[i].rank) == l
    ensures forall i :: 0 <= i < |cards| ==> l <= RankOrder(cards[i].rank)
  {
    if |cards| == 0 then 13
    else
      var rest := LowestRank(cards[1..]);
      var here := RankOrder(cards[0].rank);
      if here <= rest then here else rest
  }

  lemma LowestAtMostHighest(cards: seq<Card>)
    requires |cards| > 0
    ensures 0 <= LowestRank(cards) <= HighestRank(cards) < 13
  {
    assert RankOrder(cards[0].rank) <= HighestRank(cards);
  }

  // ---------------------------------------------------------------- stable sort

  /** Puts `x`, which came before everything in `t`, ahead of the first element with a smaller key. */
  function InsertDesc<T>(x: T, t: seq<T>, key: T -> int): (r: seq<T>)
    ensures |r| == |t| + 1 && multiset(r) == multiset(t) + multiset{x}
    ensures |t| > 0 ==> r[0] == (if key(x) >= key(t[0]) then x else t[0])
    ensures Descending(t, key) ==> Descending(r, key)
  {
    if |t| == 0 || key(x) >= key(t[0]) then
      ConsDescending(x, t, key);
      [x] + t
    else
      var tail := InsertDesc(x, t[1..], key);
      InsertDescStep(x, t, tail, key);
      [t[0]] + tail
  }

  /** The step of `InsertDesc` that keeps the head of `t` in front of the insertion into its tail. */
  lemma InsertDescStep<T>(x: T, t: seq<T>, tail: seq<T>, key: T -> int)
    requires |t| > 0 && key(x) < key(t[0])
    requires |tail| == |t| && multiset(tail) == multiset(t[1..]) + multiset{x}
    requires |t| > 1 ==> tail[0] == (if key(x) >= key(t[1]) then x else t[1])
    requires |t| == 1 ==> tail[0] == x
    requires Descending(t[1..], key) ==> Descending(tail, key)
    ensures multiset([t[0]] + tail) == multiset(t) + multiset{x}
    ensures Descending(t, key) ==> Descending([t[0]] + tail, key)
  {
    assert t == [t[0]] + t[1..];
    if Descending(t, key) {
      DescendingTail(t, key);
    }
    ConsDescending(t[0], tail, key);
  }

  /** Keys never rise from left to right. */
  predicate Descending<T>(s: seq<T>, key: T -> int)
  {
    forall i, j :: 0 <= i < j < |s| ==> key(s[i]) >= key(s[j])
  }

  lemma DescendingTail<T>(s: seq<T>, key: T -> int)
    requires |s| > 0 && Descending(s, key)
    ensures Descending(s[1..], key)
    ensures |s| > 1 ==> key(s[0]) >= key(s[1])
  {
    forall i, j | 0 <= i < j < |s| - 1 ensures key(s[1..][i]) >= key(s[1..][j]) {
      assert s[1..][i] == s[i + 1] && s[1..][j] == s[j + 1];
    }
  }

  lemma ConsDescending<T>(h: T, tail: seq<T>, key: T -> int)
    ensures Descending(tail, key) && (|tail| > 0 ==> key(h) >= key(tail[0])) ==> Descending([h] + tail, key)
  {
    var r := [h] + tail;
    if Descending(tail, key) && (|tail| > 0 ==> key(h) >= key(tail[0])) {
      forall i, j | 0 <= i < j < |r| ensures key(r[i]) >= key(r[j]) {
        if i == 0 {
          assert key(tail[0]) >= key(tail[j - 1]) || j == 1;
        }
      }
    }
  }

  /**
   * A stable sort by decreasing key: elements with equal keys keep their
   * order, as a stable library sort with comparator `key(b) - key(a)` does.
   */
  function SortDesc<T>(s: seq<T>, key: T -> int): (r: seq<T>)
    ensures |r| == |s| && multiset(r) == multiset(s)
    ensures Descending(r, key)
  {
    if |s| == 0 then []
    else
      assert s == [s[0]] + s[1..];
      InsertDesc(s[0], SortDesc(s[1..], key), key)
  }

  /** The position of the earliest element with the greatest key. */
  function FirstBest<T>(s: seq<T>, key: T -> int): (i: nat)
    requires |s| > 0
    ensures i < |s|
    ensures forall j :: 0 <= j < |s| ==> key(s[j]) <= key(s[i])
    ensures forall j :: 0 <= j < i ==> key(s[j]) < key(s[i])
  {
    if |s| == 1 then 0
    else
      var k := FirstBest(s[1..], key);
      if key(s[0]) >= key(s[1 + k]) then 0 else 1 + k
  }

  /** The head of the stable sort is the earliest element with the greatest key. */
  lemma {:induction false} SortDescHead<T>(s: seq<T>, key: T -> int)
    requires |s| > 0
    ensures SortDesc(s, key)[0] == s[FirstBest(s, key)]
  {
    if |s| > 1 {
      SortDescHead(s[1..], key);
    }
  }

  // ---------------------------------------------------------------- strategies

  datatype Strategy = Basic | Aggressive | Conservative | Combo

  /** The strategy for a type name; any unknown name gives the basic one. */
  function CreateAI(kind: string): (s: Strategy)
    ensures kind == "aggressive" <==> s == Aggressive
    ensures kind == "conservative" <==> s == Conservative
    ensures kind == "combo" <==> s == Combo
    ensures kind !in {"aggressive", "conservative", "combo"} <==> s == Basic
  {
    if kind == "aggressive" then Aggressive
    else if kind == "conservative" then Conservative
    else if kind == "combo" then Combo
    else Basic
  }

  /** What a sorting strategy puts first: the higher the key the earlier. */
  function PlayKey(s: Strategy): seq<Card> -> int
  {
    match s
    case Aggressive => p => HighestRank(p)
    case Conservative => p => -HighestRank(p)
    case _ => p => |p|
  }

  /**
   * The play a strategy picks: the basic strategy takes the first one offered;
   * the others sort the list (stably) and take the head. No play is picked
   * from an empty list.
   */
  function SelectPlay(s: Strategy, plays: seq<seq<Card>>): (r: Option<seq<Card>>)
    ensures r.None? <==> |plays| == 0
    ensures r.Some? ==> r.value in plays
    ensures s == Basic && |plays| > 0 ==> r == Some(plays[0])
    ensures s == Aggressive && r.Some? ==> forall p :: p in plays ==> HighestRank(p) <= HighestRank(r.value)
    ensures s == Conservative && r.Some? ==> forall p :: p in plays ==> HighestRank(r.value) <= HighestRank(p)
    ensures s == Combo && r.Some? ==> forall p :: p in plays ==> |p| <= |r.value|
    ensures s != Basic && |plays| > 0 ==>
              var i := FirstBest(plays, PlayKey(s));
              && r == Some(plays[i])
              && forall j :: 0 <= j < i ==> PlayKey(s)(plays[j]) < PlayKey(s)(plays[i])
  {
    if |plays| == 0 then None
    else if s == Basic then Some(plays[0])
    else
      SortDescHead(plays, PlayKey(s));
      Some(SortDesc(plays, PlayKey(s))[0])
  }
}
