/**
 * The turn state machine: the state of a game, the starting seat, and the
 * transition that applies one move (a play or a pass) to the state.
 */
module Game {
  import opened Wrappers
  import opened Cards
  import opened Combos

  /** The number of seats at the table. */
  const Seats := 4

  /** A seat's hand and, once it has gone out, its finishing place (1 = first). */
  datatype Player = Player(hand: seq<Card>, rank: Option<int>)

  /**
   * The whole game. Seats are numbered 0..3 and a player's id is its seat.
   * `lastValidPlayerId` is the anchor: the seat that made the last real play,
   * which leads again once everybody else has passed.
   */
  datatype GameState = GameState(
    players: seq<Player>,
    currentPlayer: int,
    tableCards: seq<Card>,
    isGameStart: bool,
    passedPlayers: set<int>,
    lastValidPlayerId: Option<int>,
    currentRank: int)

  predicate IsSeat(i: int)
  {
    0 <= i < Seats
  }

  /** The shape every state of a game has. */
  predicate WellFormed(s: GameState)
  {
    && |s.players| == Seats
    && IsSeat(s.currentPlayer)
    && (s.lastValidPlayerId.Some? ==> IsSeat(s.lastValidPlayerId.value))
  }

  // ---------------------------------------------------------------- starting seat

  /** The first of hands[k..] that holds the 3 of clubs, or -1. */
  function HolderFrom(hands: seq<seq<Card>>, k: nat): (i: int)
    requires k <= |hands|
    ensures i == -1 || k <= i < |hands|
    ensures i == -1 <==> forall j :: k <= j < |hands| ==> !HasThreeOfClubs(hands[j])
    ensures i != -1 ==> HasThreeOfClubs(hands[i]) && forall j :: k <= j < i ==> !HasThreeOfClubs(hands[j])
    decreases |hands| - k
  {
    if k == |hands| then -1
    else if HasThreeOfClubs(hands[k]) then k
    else HolderFrom(hands, k + 1)
  }

  /** The seat of the first hand holding the 3 of clubs, or -1 when none does. */
  function StartingPlayer(hands: seq<seq<Card>>): (i: int)
    ensures -1 <= i < |hands|
    ensures i == -1 <==> forall j :: 0 <= j < |hands| ==> !HasThreeOfClubs(hands[j])
    ensures i != -1 ==> HasThreeOfClubs(hands[i]) && forall j :: 0 <= j < i ==> !HasThreeOfClubs(hands[j])
  {
    HolderFrom(hands, 0)
  }

  /** A card listed once in a list without repeats occurs once in its multiset. */
  lemma {:induction false} DistinctOnce(s: seq<Card>, x: Card)
    requires forall i, j :: 0 <= i < j < |s| ==> s[i] != s[j]
    requires x in s
    ensures multiset(s)[x] == 1
  {
    var n := |s| - 1;
    assert s == s[..n] + [s[n]];
    if s[n] == x {
      assert x !in s[..n];
    } else {
      assert x in s[..n];
      DistinctOnce(s[..n], x);
    }
  }

  /** The full deck holds the 3 of clubs exactly once, and so does any shuffle of it. */
  lemma ShuffledDeckHasOneThreeOfClubs(picks: seq<nat>)
    requires ValidPicks(52, picks)
    ensures multiset(Shuffle(CreateDeck(), picks))[ThreeOfClubs] == 1
  {
    DistinctOnce(CreateDeck(), ThreeOfClubs);
  }

  /** When four hands hold one 3 of clubs between them, its holder starts. */
  lemma SoleHolderStarts(hands: seq<seq<Card>>)
    requires |hands| == 4
    requires (multiset(hands[0]) + multiset(hands[1]) + multiset(hands[2]) + multiset(hands[3]))[ThreeOfClubs] == 1
    ensures var sp := StartingPlayer(hands);
      && IsSeat(sp)
      && ThreeOfClubs in hands[sp]
      && forall k :: IsSeat(k) && k != sp ==> ThreeOfClubs !in hands[k]
  {
    forall k | 0 <= k < 4 ensures HasThreeOfClubs(hands[k]) <==> ThreeOfClubs in hands[k] {
      HasThreeOfClubsMeans(hands[k]);
    }
    var m0, m1, m2, m3 := multiset(hands[0])[ThreeOfClubs], multiset(hands[1])[ThreeOfClubs],
                          multiset(hands[2])[ThreeOfClubs], multiset(hands[3])[ThreeOfClubs];
    assert m0 + m1 + m2 + m3 == 1;
    assert StartingPlayer(hands) != -1 by {
      if m0 == 1 { assert ThreeOfClubs in hands[0]; }
      else if m1 == 1 { assert ThreeOfClubs in hands[1]; }
      else if m2 == 1 { assert ThreeOfClubs in hands[2]; }
      else { assert ThreeOfClubs in hands[3]; }
    }
  }

  /**
   * Dealing any shuffle of the full deck gives the 3 of clubs to exactly one
   * seat, and the starting seat is that one.
   */
  lemma StartingPlayerOfShuffledDeck(picks: seq<nat>)
    requires ValidPicks(52, picks)
    ensures var hands := DealCards(Shuffle(CreateDeck(), picks));
      var sp := StartingPlayer(hands);
      && IsSeat(sp)
      && ThreeOfClubs in hands[sp]
      && forall k :: IsSeat(k) && k != sp ==> ThreeOfClubs !in hands[k]
  {
    var deck := Shuffle(CreateDeck(), picks);
    ShuffledDeckHasOneThreeOfClubs(picks);
    DealPartitions(deck);
    SoleHolderStarts(DealCards(deck));
  }

  /** Four unranked players holding the given hands, the first holder of the 3 of clubs to move. */
  function Seat(hands: seq<seq<Card>>): (s: GameState)
    requires |hands| == Seats
    ensures |s.players| == Seats && s.currentPlayer == StartingPlayer(hands)
    ensures forall i :: IsSeat(i) ==> s.players[i] == Player(hands[i], None)
    ensures s.tableCards == [] && s.isGameStart && s.passedPlayers == {}
    ensures s.lastValidPlayerId.None? && s.currentRank == 1
  {
    GameState(
      [Player(hands[0], None), Player(hands[1], None), Player(hands[2], None), Player(hands[3], None)],
      StartingPlayer(hands), [], true, {}, None, 1)
  }

  /** The opening state: a shuffled deck dealt to four fresh players. */
  function InitialState(picks: seq<nat>): (s: GameState)
    requires ValidPicks(52, picks)
    ensures WellFormed(s)
    ensures ThreeOfClubs in s.players[s.currentPlayer].hand
    ensures forall i :: IsSeat(i) ==> |s.players[i].hand| == 13 && s.players[i].rank.None?
    ensures s.tableCards == [] && s.isGameStart && s.passedPlayers == {}
    ensures s.lastValidPlayerId.None? && s.currentRank == 1
  {
    var deck := Shuffle(CreateDeck(), picks);
    StartingPlayerOfShuffledDeck(picks);
    DealFullDeck(deck);
    Seat(DealCards(deck))
  }

  // ---------------------------------------------------------------- seats in turn

  /** The seat k places clockwise from `start`. */
  function Clockwise(start: int, k: int): (seat: int)
    ensures IsSeat(seat)
  {
    (start + k) % Seats
  }

  /** How many places clockwise `to` sits from `from`. */
  function Offset(from: int, to: int): (k: int)
    ensures 0 <= k < Seats
  {
    (to - from) % Seats
  }

  lemma OffsetOfClockwise(start: int, k: int)
    requires IsSeat(start) && 0 <= k < Seats
    ensures Offset(start, Clockwise(start, k)) == k
  {
  }

  lemma ClockwiseOfOffset(start: int, seat: int)
    requires IsSeat(start) && IsSeat(seat)
    ensures Clockwise(start, Offset(start, seat)) == seat
  {
  }

  /** Still in the game: holds cards and has no finishing place. */
  predicate IsActive(p: Player)
  {
    |p.hand| > 0 && p.rank.None?
  }

  function ActiveFrom(ps: seq<Player>, i: nat): (r: seq<int>)
    requires i <= |ps|
    ensures forall x :: x in r <==> i <= x < |ps| && IsActive(ps[x])
    ensures forall a :: 0 <= a < |r| ==> i <= r[a]
    ensures forall a, b :: 0 <= a < b < |r| ==> r[a] < r[b]
    decreases |ps| - i
  {
    if i == |ps| then []
    else (if IsActive(ps[i]) then [i] else []) + ActiveFrom(ps, i + 1)
  }

  /** The ids of the active players, in seat order. */
  function ActiveIds(ps: seq<Player>): (r: seq<int>)
    ensures forall x :: x in r <==> 0 <= x < |ps| && IsActive(ps[x])
    ensures forall a, b :: 0 <= a < b < |r| ==> r[a] < r[b]
  {
    ActiveFrom(ps, 0)
  }

  // ---------------------------------------------------------------- next seat

  /** A seat the turn skips: it has passed, has no cards, or has finished. */
  predicate Blocked(passed: set<int>, ps: seq<Player>, seat: int)
    requires |ps| == Seats && IsSeat(seat)
  {
    seat in passed || |ps[seat].hand| == 0 || ps[seat].rank.Some?
  }

  /** Where the clockwise search for the next player ends. */
  datatype ScanResult = Found(seat: int) | FullLoop

  function ScanFrom(passed: set<int>, ps: seq<Player>, start: int, k: nat): (r: ScanResult)
    requires |ps| == Seats && IsSeat(start) && k <= Seats
    ensures r.Found? ==>
              && k <= Offset(start, r.seat) && r.seat == Clockwise(start, Offset(start, r.seat))
              && !Blocked(passed, ps, r.seat)
              && forall j :: k <= j < Offset(start, r.seat) ==> Blocked(passed, ps, Clockwise(start, j))
    ensures r.FullLoop? <==> forall j :: k <= j < Seats ==> Blocked(passed, ps, Clockwise(start, j))
    decreases Seats - k
  {
    if k == Seats then FullLoop
    else if !Blocked(passed, ps, Clockwise(start, k)) then
      OffsetOfClockwise(start, k);
      Found(Clockwise(start, k))
    else ScanFrom(passed, ps, start, k + 1)
  }

  /**
   * The turn passes clockwise from `start` over every blocked seat; after
   * four blocked seats the search has made a full loop.
   */
  function Scan(passed: set<int>, ps: seq<Player>, start: int): (r: ScanResult)
    requires |ps| == Seats && IsSeat(start)
    ensures r.Found? ==>
              && IsSeat(r.seat) && !Blocked(passed, ps, r.seat)
              && forall j :: 0 <= j < Offset(start, r.seat) ==> Blocked(passed, ps, Clockwise(start, j))
    ensures r.FullLoop? <==> forall i :: IsSeat(i) ==> Blocked(passed, ps, i)
  {
    var r := ScanFrom(passed, ps, start, 0);
    assert r.FullLoop? <==> forall i :: IsSeat(i) ==> Blocked(passed, ps, i) by {
      if forall j :: 0 <= j < Seats ==> Blocked(passed, ps, Clockwise(start, j)) {
        forall i | IsSeat(i) ensures Blocked(passed, ps, i) {
          ClockwiseOfOffset(start, i);
        }
      }
    }
    r
  }

  // ---------------------------------------------------------------- places

  /** How many players have a finishing place. */
  function RankedCount(ps: seq<Player>): (n: nat)
    ensures n <= |ps|
    ensures n == |ps| <==> forall i :: 0 <= i < |ps| ==> ps[i].rank.Some?
  {
    if |ps| == 0 then 0
    else RankedCount(ps[..|ps| - 1]) + (if ps[|ps| - 1].rank.Some? then 1 else 0)
  }

  /** Two unranked players leave at most |ps| - 2 ranked ones. */
  lemma {:induction false} TwoUnranked(ps: seq<Player>, a: nat, b: nat)
    requires a < |ps| && b < |ps| && a != b
    requires ps[a].rank.None? && ps[b].rank.None?
    ensures RankedCount(ps) <= |ps| - 2
  {
    var n := |ps| - 1;
    var front := ps[..n];
    if a == n {
      assert front[b] == ps[b];
      assert RankedCount(front) < |front|;
    } else if b == n {
      assert front[a] == ps[a];
      assert RankedCount(front) < |front|;
    } else {
      assert front[a] == ps[a] && front[b] == ps[b];
      TwoUnranked(front, a, b);
    }
  }

  /** The first unranked seat, if any. */
  function FirstUnranked(ps: seq<Player>, i: nat): (r: Option<int>)
    requires i <= |ps|
    ensures r.Some? ==> i <= r.value < |ps| && ps[r.value].rank.None?
    ensures r.None? <==> forall j :: i <= j < |ps| ==> ps[j].rank.Some?
    decreases |ps| - i
  {
    if i == |ps| then None
    else if ps[i].rank.None? then Some(i)
    else FirstUnranked(ps, i + 1)
  }

  /**
   * Once three players have a place, the one left is given fourth place;
   * otherwise nothing changes. Hands are never touched.
   */
  function AssignLastPlace(ps: seq<Player>): (r: seq<Player>)
    requires |ps| == Seats
    ensures |r| == Seats
    ensures forall i :: IsSeat(i) ==> r[i].hand == ps[i].hand
    ensures forall i :: IsSeat(i) ==>
              r[i].rank == (if RankedCount(ps) == 3 && ps[i].rank.None? then Some(4) else ps[i].rank)
    ensures RankedCount(ps) == 3 ==> forall i :: IsSeat(i) ==> r[i].rank.Some?
  {
    if RankedCount(ps) == 3 then
      match FirstUnranked(ps, 0)
      case Some(last) =>
        assert forall i :: IsSeat(i) && i != last ==> ps[i].rank.Some? by {
          forall i | IsSeat(i) && i != last ensures ps[i].rank.Some? {
            if ps[i].rank.None? {
              TwoUnranked(ps, i, last);
            }
          }
        }
        ps[last := Player(ps[last].hand, Some(4))]
      case None => ps
    else ps
  }

  // ---------------------------------------------------------------- the anchor

  function FirstActiveFrom(active: seq<int>, start: int, k: nat): (r: Option<int>)
    requires IsSeat(start) && k <= Seats
    ensures r.Some? ==>
              && r.value in active && k <= Offset(start, r.value)
              && r.value == Clockwise(start, Offset(start, r.value))
              && forall j :: k <= j < Offset(start, r.value) ==> Clockwise(start, j) !in active
    ensures r.None? <==> forall j :: k <= j < Seats ==> Clockwise(start, j) !in active
    decreases Seats - k
  {
    if k == Seats then None
    else if Clockwise(start, k) in active then
      OffsetOfClockwise(start, k);
      Some(Clockwise(start, k))
    else FirstActiveFrom(active, start, k + 1)
  }

  /** The first seat in `active`, going clockwise from `start` itself. */
  function FirstActive(active: seq<int>, start: int): (r: Option<int>)
    requires IsSeat(start)
    ensures r.Some? ==>
              && r.value in active && IsSeat(r.value)
              && forall j :: 0 <= j < Offset(start, r.value) ==> Clockwise(start, j) !in active
    ensures r.None? <==> forall i :: IsSeat(i) ==> i !in active
  {
    var r := FirstActiveFrom(active, start, 0);
    assert r.None? <==> forall i :: IsSeat(i) ==> i !in active by {
      if forall j :: 0 <= j < Seats ==> Clockwise(start, j) !in active {
        forall i | IsSeat(i) ensures i !in active {
          ClockwiseOfOffset(start, i);
        }
      }
    }
    r
  }

  /** Where the search for a new anchor begins: the seat after the old one, or seat 1 when there is none. */
  function SearchStart(anchor: Option<int>): (start: int)
    ensures IsSeat(start)
    ensures anchor.Some? ==> start == Clockwise(anchor.value, 1)
    ensures anchor.None? ==> start == 1
  {
    (anchor.GetOr(0) + 1) % Seats
  }

  /**
   * The anchor after a pass, as intended: kept while that player is still
   * active, otherwise moved to the first active player clockwise after it, and
   * empty when nobody is active.
   */
  function ReanchorClockwise(active: seq<int>, anchor: Option<int>): (r: Option<int>)
    requires forall a :: a in active ==> IsSeat(a)
    ensures anchor.Some? && anchor.value in active ==> r == anchor
    ensures r.Some? ==> r.value in active
    ensures r.None? <==> forall i :: IsSeat(i) ==> i !in active
    ensures r.Some? && !(anchor.Some? && anchor.value in active) ==>
              && IsSeat(r.value)
              && forall j :: 0 <= j < Offset(SearchStart(anchor), r.value) ==> Clockwise(SearchStart(anchor), j) !in active
  {
    if anchor.Some? && anchor.value in active then
      assert IsSeat(anchor.value);
      anchor
    else FirstActive(active, SearchStart(anchor))
  }

  /**
   * The anchor after a pass, as the source computes it: the do-while search
   * stops on the first active seat, but the check that follows it cannot
   * tell a hit on the very first seat from a fruitless full circle, so a hit
   * on the seat right after the old anchor is replaced by the lowest active
   * seat.
   */
  function ReanchorAsWritten(active: seq<int>, anchor: Option<int>): (r: Option<int>)
    requires forall a :: a in active ==> IsSeat(a)
    ensures r.Some? ==> r.value in active
    ensures r.None? <==> |active| == 0
  {
    if anchor.Some? && anchor.value in active then anchor
    else
      var start := SearchStart(anchor);
      match FirstActive(active, start)
      case Some(seat) =>
        if seat == start then (if |active| > 0 then Some(active[0]) else None)
        else Some(seat)
      case None => if |active| > 0 then Some(active[0]) else None
  }

  /**
   * The two anchors differ exactly when the old anchor is gone, the seat right
   * after it is active, and some lower-numbered seat is active too.
   */
  lemma ReanchorDifference(active: seq<int>, anchor: Option<int>)
    requires forall a :: a in active ==> IsSeat(a)
    requires forall a, b :: 0 <= a < b < |active| ==> active[a] < active[b]
    ensures ReanchorAsWritten(active, anchor) != ReanchorClockwise(active, anchor) <==>
              && !(anchor.Some? && anchor.value in active)
              && SearchStart(anchor) in active
              && active[0] != SearchStart(anchor)
  {
    if !(anchor.Some? && anchor.value in active) {
      if SearchStart(anchor) in active {
        ReanchorHitAtStart(active, anchor);
      } else {
        ReanchorPastStart(active, anchor);
      }
    }
  }

  lemma ReanchorHitAtStart(active: seq<int>, anchor: Option<int>)
    requires forall a :: a in active ==> IsSeat(a)
    requires !(anchor.Some? && anchor.value in active) && SearchStart(anchor) in active
    ensures ReanchorClockwise(active, anchor) == Some(SearchStart(anchor))
    ensures ReanchorAsWritten(active, anchor) == Some(active[0])
  {
    var start := SearchStart(anchor);
    assert Offset(start, start) == 0;
    assert FirstActive(active, start) == Some(start);
  }

  lemma ReanchorPastStart(active: seq<int>, anchor: Option<int>)
    requires forall a :: a in active ==> IsSeat(a)
    requires !(anchor.Some? && anchor.value in active) && SearchStart(anchor) !in active
    ensures ReanchorAsWritten(active, anchor) == ReanchorClockwise(active, anchor)
  {
    var f := FirstActive(active, SearchStart(anchor));
    assert f.Some? ==> f.value != SearchStart(anchor);
    if |active| > 0 {
      assert active[0] in active && IsSeat(active[0]);
      assert f.Some?;
    }
  }

  /**
   * With the anchor seat 2 gone and seats 0, 1 and 3 active, the source hands
   * the anchor to seat 0 although seat 3 is the next active seat clockwise.
   */
  lemma ReanchorSkipsNextSeat()
    ensures ReanchorAsWritten([0, 1, 3], Some(2)) == Some(0)
    ensures ReanchorClockwise([0, 1, 3], Some(2)) == Some(3)
  {
    assert FirstActive([0, 1, 3], 3) == Some(3) by {
      assert Offset(3, 3) == 0;
    }
  }

  // ---------------------------------------------------------------- one move

  /** The hand left after taking out every card equal (same suit and rank) to a played one. */
  function RemovePlayed(hand: seq<Card>, played: seq<Card>): (r: seq<Card>)
    ensures forall c :: c in r <==> c in hand && c !in played
    ensures forall c :: multiset(r)[c] == if c in played then 0 else multiset(hand)[c]
    ensures |r| <= |hand|
    ensures Sorted(hand) ==> Sorted(r)
  {
    var keep := c => c !in played;
    assert Sorted(hand) ==> Sorted(Filter(keep, hand)) by {
      if Sorted(hand) {
        FilterSorted(keep, hand);
      }
    }
    Filter(keep, hand)
  }

  /**
   * The players after the mover's cards leave the hand: a pass changes
   * nobody; a play shrinks the mover's hand, and a mover whose hand it
   * empties takes the current place.
   */
  function AfterRemoval(ps: seq<Player>, id: int, played: seq<Card>, currentRank: int): (r: seq<Player>)
    requires |ps| == Seats && IsSeat(id)
    ensures |r| == Seats
    ensures forall i :: IsSeat(i) && (i != id || |played| == 0) ==> r[i] == ps[i]
    ensures |played| > 0 ==> forall c :: c in r[id].hand <==> c in ps[id].hand && c !in played
    ensures |played| > 0 ==> forall c :: multiset(r[id].hand)[c] == if c in played then 0 else multiset(ps[id].hand)[c]
    ensures Sorted(ps[id].hand) ==> Sorted(r[id].hand)
    ensures |played| > 0 ==> (|r[id].hand| == 0 <==> forall c :: c in ps[id].hand ==> c in played)
    ensures |played| > 0 && |ps[id].hand| > 0 && |r[id].hand| == 0 ==> r[id].rank == Some(currentRank)
    ensures !(|played| > 0 && |ps[id].hand| > 0 && |r[id].hand| == 0) ==> r[id].rank == ps[id].rank
  {
    if |played| == 0 then ps
    else
      var h := RemovePlayed(ps[id].hand, played);
      assert |h| > 0 ==> h[0] in h;
      ps[id := Player(h, if |h| == 0 && |ps[id].hand| > 0 then Some(currentRank) else ps[id].rank)]
  }

  /** The passed set once this move is counted: a pass adds the mover. */
  function PassedAfter(prev: GameState, id: int, played: seq<Card>): set<int>
  {
    if |played| == 0 then prev.passedPlayers + {id} else prev.passedPlayers
  }

  /** There is an anchor and at most one active player (of the state before the move) has not passed. */
  predicate ClearsTable(prev: GameState, id: int, played: seq<Card>)
  {
    prev.lastValidPlayerId.Some? && |PassedAfter(prev, id, played)| >= |ActiveIds(prev.players)| - 1
  }

  /** Every seat is passed, empty or finished once the move is made. */
  predicate AllBlocked(prev: GameState, id: int, played: seq<Card>)
    requires WellFormed(prev) && IsSeat(id)
  {
    var ps := AfterRemoval(prev.players, id, played, prev.currentRank);
    forall i :: 0 <= i < Seats ==> Blocked(PassedAfter(prev, id, played), ps, i)
  }

  /** The mover plays out the last of a non-empty hand. */
  predicate GoesOut(prev: GameState, id: int, played: seq<Card>)
    requires WellFormed(prev) && IsSeat(id)
  {
    |played| > 0 && |prev.players[id].hand| > 0 && forall c :: c in prev.players[id].hand ==> c in played
  }

  /** Some player already sits with no cards holding the current place. */
  predicate HoldsCurrentPlace(prev: GameState)
    requires WellFormed(prev)
  {
    exists i :: 0 <= i < Seats && |prev.players[i].hand| == 0 && prev.players[i].rank == Some(prev.currentRank)
  }

  /**
   * The place counter after the move: one higher exactly when the mover goes
   * out now or somebody already holds the current place with no cards.
   */
  function NextRank(prev: GameState, id: int, played: seq<Card>): (n: int)
    requires WellFormed(prev) && IsSeat(id)
    ensures n == prev.currentRank || n == prev.currentRank + 1
    ensures n == prev.currentRank + 1 <==> GoesOut(prev, id, played) || HoldsCurrentPlace(prev)
  {
    var ps := AfterRemoval(prev.players, id, played, prev.currentRank);
    if exists i :: 0 <= i < Seats && |ps[i].hand| == 0 && ps[i].rank == Some(prev.currentRank)
    then prev.currentRank + 1 else prev.currentRank
  }

  /** Who moves next, and whether the table is cleared. */
  datatype Turn = Turn(next: int, cleared: bool)

  /**
   * The next player: the anchor when the table clears by passes; otherwise the
   * first seat clockwise after the current one that is not blocked; after a
   * fruitless full circle the table clears too and the anchor (seat 0 when
   * there is none) leads.
   */
  function NextTurn(prev: GameState, id: int, played: seq<Card>): (t: Turn)
    requires WellFormed(prev) && IsSeat(id)
    ensures IsSeat(t.next)
    ensures t.cleared <==> ClearsTable(prev, id, played) || AllBlocked(prev, id, played)
    ensures ClearsTable(prev, id, played) ==> t.next == prev.lastValidPlayerId.value
    ensures !ClearsTable(prev, id, played) && AllBlocked(prev, id, played) ==>
              t.next == prev.lastValidPlayerId.GetOr(0)
    ensures !t.cleared ==>
              var ps := AfterRemoval(prev.players, id, played, prev.currentRank);
              var start := Clockwise(prev.currentPlayer, 1);
              && t.next !in PassedAfter(prev, id, played) && IsActive(ps[t.next])
              && forall j :: 0 <= j < Offset(start, t.next) ==>
                   Blocked(PassedAfter(prev, id, played), ps, Clockwise(start, j))
  {
    var passed := PassedAfter(prev, id, played);
    var ps := AfterRemoval(prev.players, id, played, prev.currentRank);
    var scan := Scan(passed, ps, Clockwise(prev.currentPlayer, 1));
    if ClearsTable(prev, id, played) then Turn(prev.lastValidPlayerId.value, true)
    else if scan.FullLoop? then Turn(prev.lastValidPlayerId.GetOr(0), true)
    else Turn(scan.seat, false)
  }

  /**
   * Applies a play (`played` non-empty) or a pass (`played` empty) by seat
   * `id`, with the corrected choice of anchor after a pass.
   */
  function PlayMove(prev: GameState, id: int, played: seq<Card>): (r: GameState)
    requires WellFormed(prev) && IsSeat(id)
    ensures WellFormed(r) && !r.isGameStart
    // hands: only the mover's changes, and it loses exactly the played cards
    ensures forall i :: IsSeat(i) && (i != id || |played| == 0) ==> r.players[i].hand == prev.players[i].hand
    ensures |played| > 0 ==> forall c :: c in r.players[id].hand <==> c in prev.players[id].hand && c !in played
    ensures |played| > 0 ==> forall c ::
              multiset(r.players[id].hand)[c] == if c in played then 0 else multiset(prev.players[id].hand)[c]
    ensures forall i :: IsSeat(i) && Sorted(prev.players[i].hand) ==> Sorted(r.players[i].hand)
    // places
    ensures GoesOut(prev, id, played) ==> r.players[id].rank == Some(prev.currentRank)
    ensures r.currentRank == prev.currentRank || r.currentRank == prev.currentRank + 1
    ensures r.currentRank == prev.currentRank + 1 <==> GoesOut(prev, id, played) || HoldsCurrentPlace(prev)
    ensures var ps := AfterRemoval(prev.players, id, played, prev.currentRank);
      forall i :: IsSeat(i) ==>
        r.players[i].rank == (if RankedCount(ps) == 3 && ps[i].rank.None? then Some(4) else ps[i].rank)
    // the table, the passed set and the next player
    ensures ClearsTable(prev, id, played) ==>
              && r.tableCards == [] && r.passedPlayers == {}
              && r.currentPlayer == prev.lastValidPlayerId.value
    ensures !ClearsTable(prev, id, played) && AllBlocked(prev, id, played) ==>
              && r.tableCards == [] && r.passedPlayers == {}
              && r.currentPlayer == prev.lastValidPlayerId.GetOr(0)
    ensures !ClearsTable(prev, id, played) && !AllBlocked(prev, id, played) ==>
              var ps := AfterRemoval(prev.players, id, played, prev.currentRank);
              var start := Clockwise(prev.currentPlayer, 1);
              && r.tableCards == (if |played| == 0 then prev.tableCards else played)
              && r.passedPlayers == PassedAfter(prev, id, played)
              && r.currentPlayer !in r.passedPlayers && IsActive(ps[r.currentPlayer])
              && forall j :: 0 <= j < Offset(start, r.currentPlayer) ==>
                   Blocked(r.passedPlayers, ps, Clockwise(start, j))
    // the anchor
    ensures |played| > 0 ==> r.lastValidPlayerId == Some(id)
    ensures |played| == 0 ==> r.lastValidPlayerId == ReanchorClockwise(ActiveIds(prev.players), prev.lastValidPlayerId)
  {
    var ps := AfterRemoval(prev.players, id, played, prev.currentRank);
    var turn := NextTurn(prev, id, played);
    GameState(
      AssignLastPlace(ps),
      turn.next,
      if turn.cleared then [] else if |played| == 0 then prev.tableCards else played,
      false,
      if turn.cleared then {} else PassedAfter(prev, id, played),
      if |played| == 0 then ReanchorClockwise(ActiveIds(prev.players), prev.lastValidPlayerId) else Some(id),
      NextRank(prev, id, played))
  }

  /**
   * The move as the source computes it: identical to `PlayMove` except that a
   * pass re-anchors with `ReanchorAsWritten`.
   */
  function PlayMoveAsWritten(prev: GameState, id: int, played: seq<Card>): (r: GameState)
    requires WellFormed(prev) && IsSeat(id)
    ensures WellFormed(r)
    ensures r.(lastValidPlayerId := None) == PlayMove(prev, id, played).(lastValidPlayerId := None)
    ensures |played| > 0 ==> r.lastValidPlayerId == Some(id)
    ensures |played| == 0 ==> r.lastValidPlayerId == ReanchorAsWritten(ActiveIds(prev.players), prev.lastValidPlayerId)
    ensures |played| == 0 && r.lastValidPlayerId.Some? ==> IsActive(prev.players[r.lastValidPlayerId.value])
    ensures |played| == 0 ==> (r.lastValidPlayerId.None? <==> forall i :: IsSeat(i) ==> !IsActive(prev.players[i]))
  {
    var active := ActiveIds(prev.players);
    var anchor := if |played| == 0 then ReanchorAsWritten(active, prev.lastValidPlayerId) else Some(id);
    NoActiveSeat(prev.players);
    PlayMove(prev, id, played).(lastValidPlayerId := anchor)
  }

  lemma NoActiveSeat(ps: seq<Player>)
    requires |ps| == Seats
    ensures |ActiveIds(ps)| == 0 <==> forall i :: IsSeat(i) ==> !IsActive(ps[i])
  {
    var active := ActiveIds(ps);
    if |active| > 0 {
      assert active[0] in active;
    }
  }

  /**
   * Seat 2 has just gone out and seat 3 passes: the source moves the anchor
   * to seat 0, so seat 0 leads once the others pass, where seat 3 should.
   */
  lemma AnchorSkipsSeatAfterFinisher(c0: Card, c1: Card, c2: Card, c3: Card)
    ensures var prev := GameState(
              [Player([c0], None), Player([c1], None), Player([], Some(1)), Player([c3], None)],
              3, [c2], false, {}, Some(2), 2);
      && PlayMoveAsWritten(prev, 3, []).lastValidPlayerId == Some(0)
      && PlayMove(prev, 3, []).lastValidPlayerId == Some(3)
  {
    ExampleActive(c0, c1, c3);
    ReanchorSkipsNextSeat();
  }

  lemma ExampleActive(c0: Card, c1: Card, c3: Card)
    ensures ActiveIds([Player([c0], None), Player([c1], None), Player([], Some(1)), Player([c3], None)]) == [0, 1, 3]
  {
    var ps := [Player([c0], None), Player([c1], None), Player([], Some(1)), Player([c3], None)];
    assert IsActive(ps[0]) && IsActive(ps[1]) && !IsActive(ps[2]) && IsActive(ps[3]);
    assert ActiveFrom(ps, 4) == [];
    ActiveFromStep(ps, 3);
    assert ActiveFrom(ps, 3) == [3];
    ActiveFromStep(ps, 2);
    ActiveFromStep(ps, 1);
    assert ActiveFrom(ps, 1) == [1, 3];
    ActiveFromStep(ps, 0);
  }

  lemma ActiveFromStep(ps: seq<Player>, i: nat)
    requires i < |ps|
    ensures ActiveFrom(ps, i) == (if IsActive(ps[i]) then [i] else []) + ActiveFrom(ps, i + 1)
  {
  }
}
