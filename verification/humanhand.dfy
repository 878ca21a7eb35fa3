/**
 * The human player's controls (seat 0): when passing is allowed, how a click
 * changes the card selection, and what the play and pass buttons send to the
 * game.
 */
module HumanHand {
  import opened Wrappers
  import opened Cards
  import opened Combos
  import opened Game

  predicate IsMyTurn(s: GameState)
  {
    s.currentPlayer == 0
  }

  predicate HasPassed(s: GameState)
  {
    0 in s.passedPlayers
  }

  /** Whether the human player may pass now. */
  function CanPass(s: GameState): (b: bool)
    requires WellFormed(s)
    ensures b ==> IsMyTurn(s) && !HasPassed(s) && |s.tableCards| > 0
  {
    && IsMyTurn(s) && !HasPassed(s)
    && |s.tableCards| > 0
    && !(s.isGameStart && HasThreeOfClubs(s.players[0].hand))
  }

  /**
   * Passing is allowed exactly on the human's turn, before passing, on a
   * non-empty table, and not at the start while holding the 3 of clubs.
   */
  lemma CanPassRules(s: GameState)
    requires WellFormed(s)
    ensures !IsMyTurn(s) || HasPassed(s) ==> !CanPass(s)
    ensures |s.tableCards| == 0 ==> !CanPass(s)
    ensures s.isGameStart && ThreeOfClubs in s.players[0].hand ==> !CanPass(s)
    ensures (&& IsMyTurn(s) && !HasPassed(s) && |s.tableCards| > 0
             && !(s.isGameStart && ThreeOfClubs in s.players[0].hand)) ==> CanPass(s)
  {
    HasThreeOfClubsMeans(s.players[0].hand);
  }

  // ---------------------------------------------------------------- selection

  /** The selection without `card`. */
  function Unselect(sel: seq<Card>, card: Card): (r: seq<Card>)
    ensures forall c :: c in r <==> c in sel && c != card
    ensures card !in sel ==> r == sel
    ensures |r| <= |sel|
    ensures (forall i, j :: 0 <= i < j < |sel| ==> sel[i] != sel[j]) ==>
              && (forall i, j :: 0 <= i < j < |r| ==> r[i] != r[j])
              && |r| == (if card in sel then |sel| - 1 else |sel|)
  {
    if |sel| == 0 then []
    else if sel[0] == card then Unselect(sel[1..], card)
    else
      var rest := Unselect(sel[1..], card);
      assert sel[0] !in sel[1..] ==> sel[0] !in rest;
      assert (forall i, j :: 0 <= i < j < |sel| ==> sel[i] != sel[j]) ==> sel[0] !in sel[1..] by {
        if forall i, j :: 0 <= i < j < |sel| ==> sel[i] != sel[j] {
          forall k | 0 <= k < |sel[1..]| ensures sel[1..][k] != sel[0] {
            assert sel[1..][k] == sel[k + 1];
          }
        }
      }
      [sel[0]] + rest
  }

  /** A selection the controls can produce: at most five cards, none twice. */
  predicate SelectionOk(sel: seq<Card>)
  {
    |sel| <= 5 && forall i, j :: 0 <= i < j < |sel| ==> sel[i] != sel[j]
  }

  /**
   * A click on `card`: ignored when it is not the human's turn or they have
   * passed; otherwise a selected card is dropped and an unselected one is
   * added while fewer than five are selected.
   */
  function ToggleCard(s: GameState, sel: seq<Card>, card: Card): (r: seq<Card>)
    ensures !IsMyTurn(s) || HasPassed(s) ==> r == sel
    ensures IsMyTurn(s) && !HasPassed(s) && card in sel ==> forall c :: c in r <==> c in sel && c != card
    ensures IsMyTurn(s) && !HasPassed(s) && card !in sel ==> r == if |sel| < 5 then sel + [card] else sel
  {
    if !IsMyTurn(s) || HasPassed(s) then sel
    else if card in sel then Unselect(sel, card)
    else if |sel| < 5 then sel + [card]
    else sel
  }

  /** Clicks keep the selection within five distinct cards. */
  lemma ToggleKeepsSelectionOk(s: GameState, sel: seq<Card>, card: Card)
    requires SelectionOk(sel)
    ensures SelectionOk(ToggleCard(s, sel, card))
  {
  }

  /** A second click on a card the first click added undoes it. */
  lemma ToggleTwice(s: GameState, sel: seq<Card>, card: Card)
    requires IsMyTurn(s) && !HasPassed(s) && card !in sel && |sel| < 5
    ensures ToggleCard(s, ToggleCard(s, sel, card), card) == sel
  {
    var added := sel + [card];
    assert card in added;
    UnselectLast(sel, card);
  }

  lemma {:induction false} UnselectLast(sel: seq<Card>, card: Card)
    requires card !in sel
    ensures Unselect(sel + [card], card) == sel
  {
    if |sel| == 0 {
      assert [card][1..] == [];
    } else {
      assert (sel + [card])[1..] == sel[1..] + [card];
      UnselectLast(sel[1..], card);
      assert sel == [sel[0]] + sel[1..];
    }
  }

  // ---------------------------------------------------------------- buttons

  /** Whether the selection may be played on the table now. */
  function IsValidPlay(s: GameState, sel: seq<Card>): (ok: bool)
    ensures ok ==> |sel| > 0 && IsCombination(sel)
    ensures ok <==> |sel| > 0 && ValidPlay(s.tableCards, sel, s.isGameStart)
  {
    if |sel| == 0 then false
    else
      var ok := ValidPlay(s.tableCards, sel, s.isGameStart);
      if ok then ValidIsCombination(s.tableCards, sel, s.isGameStart); ok
      else ok
  }

  /** What a button press sends to the game (if anything) and the selection after it. */
  datatype Press = Press(emitted: Option<seq<Card>>, selection: seq<Card>)

  /** The play button: sends the selection when it is a valid play on the human's turn, then clears it. */
  function PlaySelectedCards(s: GameState, sel: seq<Card>): (p: Press)
    ensures p.emitted.Some? <==> IsMyTurn(s) && !HasPassed(s) && |sel| > 0 && ValidPlay(s.tableCards, sel, s.isGameStart)
    ensures p.emitted.Some? ==> p.emitted.value == sel && p.selection == [] && IsCombination(sel)
    ensures p.emitted.None? ==> p.selection == sel
  {
    if !IsMyTurn(s) || HasPassed(s) then Press(None, sel)
    else if |sel| > 0 && IsValidPlay(s, sel) then Press(Some(sel), [])
    else Press(None, sel)
  }

  /**
   * The pass button: sends the empty play on the human's turn unless they
   * have passed or it is the start and they hold the 3 of clubs, then clears
   * the selection. It does not itself look at the table.
   */
  function HandlePass(s: GameState, sel: seq<Card>): (p: Press)
    requires WellFormed(s)
    ensures p.emitted.Some? <==> IsMyTurn(s) && !HasPassed(s) && !(s.isGameStart && ThreeOfClubs in s.players[0].hand)
    ensures p.emitted.Some? ==> p.emitted.value == [] && p.selection == []
    ensures p.emitted.None? ==> p.selection == sel
  {
    HasThreeOfClubsMeans(s.players[0].hand);
    if !IsMyTurn(s) || HasPassed(s) then Press(None, sel)
    else if s.isGameStart && HasThreeOfClubs(s.players[0].hand) then Press(None, sel)
    else Press(Some([]), [])
  }

  /** The pass button sends a pass whenever passing is allowed, and on a non-empty table only then. */
  lemma HandlePassMatchesCanPass(s: GameState, sel: seq<Card>)
    requires WellFormed(s)
    ensures CanPass(s) ==> HandlePass(s, sel).emitted == Some([])
    ensures |s.tableCards| > 0 && HandlePass(s, sel).emitted.Some? ==> CanPass(s)
  {
    HasThreeOfClubsMeans(s.players[0].hand);
  }
}
