/**
 * The table state of the application: the deck, the hand, the focused card
 * id and the draw-once flag, the three handlers that change them, and the
 * per-card view the render step derives from them.
 */
module App {
  import opened Cards
  import opened Deal

  class Table {
    var deck: seq<Card>
    var hand: seq<Card>
    var focused: Option<string>
    var isFirstBuy: bool

    /** Every card id on the table occurs once, and the hand stays empty until the one draw. */
    ghost predicate Valid()
      reads this
    {
      Distinct(Ids(deck + hand)) && (isFirstBuy ==> hand == [])
    }

    /** The initial state: empty deck and hand, nothing focused, the draw still available. */
    constructor ()
      ensures Valid()
      ensures deck == [] && hand == [] && focused == None && isFirstBuy
    {
      deck, hand, focused, isFirstBuy := [], [], None, true;
    }

    /**
     * The start-up effect, once the card cache is ready: replaces the deck by
     * the 60 freshly built cards. It runs once, when the table is mounted and
     * before any card can be clicked, so the hand is still empty.
     */
    method InitDeck(draws: nat -> Option<PokemonCard>)
      requires Valid() && hand == []
      modifies this
      ensures Valid()
      ensures deck == InitialDeck(draws)
      ensures hand == old(hand) && focused == old(focused) && isFirstBuy == old(isFirstBuy)
    {
      var initialCards := BuildDeck(draws);
      InitialDeckShape(draws);
      assert initialCards + hand == initialCards;
      deck := initialCards;
    }

    /**
     * The deck click handler. Only the first click on a non-empty deck deals:
     * the last five cards (all of them, if fewer) move to the hand in deck
     * order and the flag is cleared; any other click changes nothing.
     */
    method Draw()
      requires Valid()
      modifies this
      ensures Valid()
      ensures focused == old(focused)
      ensures old(isFirstBuy) && |old(deck)| > 0 ==>
        deck == RemainingDeck(old(deck)) && hand == DealtHand(old(deck)) && !isFirstBuy
      ensures !(old(isFirstBuy) && |old(deck)| > 0) ==>
        deck == old(deck) && hand == old(hand) && isFirstBuy == old(isFirstBuy)
      ensures Ids(deck + hand) == Ids(old(deck) + old(hand))
    {
      if isFirstBuy && |deck| > 0 {
        var deckArray, handArray := SplitDeck(deck);
        DealPartitionsDeck(deck);
        assert deck + hand == deck;
        deck, hand, isFirstBuy := deckArray, handArray, false;
      }
    }

    /** The focus handler: the focused card loses focus when toggled again; any other id takes the focus. */
    method ToggleFocus(cardId: string)
      requires Valid()
      modifies this`focused
      ensures Valid()
      ensures old(focused) == Some(cardId) ==> focused == None
      ensures old(focused) != Some(cardId) ==> focused == Some(cardId)
    {
      if focused == Some(cardId) {
        focused := None;
      } else {
        focused := Some(cardId);
      }
    }
  }

  /** What the render step hands to one card component. */
  datatype CardView = CardView(id: string, position: Position, rotation: Rotation, isInHand: bool, isFocused: bool)

  /**
   * The two render maps: every deck card with `isInHand` and `isFocused`
   * false, then every hand card, focused exactly when its id is the focused id.
   */
  function RenderCards(deck: seq<Card>, hand: seq<Card>, focused: Option<string>): (views: seq<CardView>)
    ensures |views| == |deck| + |hand|
    ensures forall i :: 0 <= i < |views| ==>
      views[i].id == Ids(deck + hand)[i]
      && views[i].position == (deck + hand)[i].position && views[i].rotation == (deck + hand)[i].rotation
      && (views[i].isInHand <==> i >= |deck|)
  {
    var views := seq(|deck|, i requires 0 <= i < |deck| =>
      CardView(deck[i].id, deck[i].position, deck[i].rotation, false, false))
    + seq(|hand|, k requires 0 <= k < |hand| =>
      CardView(hand[k].id, hand[k].position, hand[k].rotation, true, focused == Some(hand[k].id)));
    assert forall i :: 0 <= i < |views| ==>
      views[i].id == (deck + hand)[i].id && views[i].position == (deck + hand)[i].position
      && views[i].rotation == (deck + hand)[i].rotation && (views[i].isInHand <==> i >= |deck|) by {
      forall i | 0 <= i < |views|
        ensures views[i].id == (deck + hand)[i].id && views[i].position == (deck + hand)[i].position
        ensures views[i].rotation == (deck + hand)[i].rotation && (views[i].isInHand <==> i >= |deck|)
      {
        if i < |deck| {
          assert views[i] == CardView(deck[i].id, deck[i].position, deck[i].rotation, false, false);
        } else {
          var k := i - |deck|;
          assert views[i] == CardView(hand[k].id, hand[k].position, hand[k].rotation, true, focused == Some(hand[k].id));
        }
      }
    }
    views
  }

  /**
   * Over a table whose ids are distinct, at most one card is rendered as
   * focused; it is never a deck card, and a hand card is focused exactly
   * when its id is the focused id. Every card is rendered, in deck-then-hand
   * order.
   */
  lemma RenderFocusAtMostOne(deck: seq<Card>, hand: seq<Card>, focused: Option<string>)
    requires Distinct(Ids(deck + hand))
    ensures forall i, j :: 0 <= i < j < |RenderCards(deck, hand, focused)| ==>
      !(RenderCards(deck, hand, focused)[i].isFocused && RenderCards(deck, hand, focused)[j].isFocused)
    ensures forall i :: 0 <= i < |deck| ==>
      !RenderCards(deck, hand, focused)[i].isFocused && !RenderCards(deck, hand, focused)[i].isInHand
    ensures forall k :: 0 <= k < |hand| ==>
      RenderCards(deck, hand, focused)[|deck| + k].isInHand
      && (RenderCards(deck, hand, focused)[|deck| + k].isFocused <==> focused == Some(hand[k].id))
    ensures forall i :: 0 <= i < |deck| + |hand| ==> RenderCards(deck, hand, focused)[i].id == Ids(deck + hand)[i]
  {
    var views := RenderCards(deck, hand, focused);
    var ids := Ids(deck + hand);
    forall i | 0 <= i < |views|
      ensures views[i].id == ids[i]
      ensures views[i].isInHand <==> i >= |deck|
      ensures views[i].isFocused <==> i >= |deck| && focused == Some(ids[i])
    {
      if i < |deck| {
        assert views[i] == CardView(deck[i].id, deck[i].position, deck[i].rotation, false, false);
      } else {
        var k := i - |deck|;
        assert views[i] == CardView(hand[k].id, hand[k].position, hand[k].rotation, true, focused == Some(hand[k].id));
      }
    }
  }

  lemma DeckIdsFrom55(draws: nat -> Option<PokemonCard>)
    ensures Ids(InitialDeck(draws)[55..]) == [CardId(55), CardId(56), CardId(57), CardId(58), CardId(59)]
  {
    var tail := InitialDeck(draws)[55..];
    forall k | 0 <= k < 5 ensures Ids(tail)[k] == CardId(55 + k) {
      assert tail[k] == InitialDeck(draws)[55 + k] == DeckCard(55 + k, draws(55 + k));
    }
  }

  /**
   * The opening of a session: a table is mounted, its deck built from `draws`,
   * and the deck is clicked twice. The first click deals "card-55" to
   * "card-59" at x = -6, -3, 0, 3, 6 and leaves 55 cards in the deck; the
   * second click changes nothing, so the ids after it are the ids after the
   * first click.
   */
  method OpeningDeal(draws: nat -> Option<PokemonCard>)
    returns (firstDeckIds: seq<string>, firstHandIds: seq<string>,
             deckIds: seq<string>, handIds: seq<string>, handXs: seq<real>, drawAgain: bool)
    ensures firstDeckIds == Ids(InitialDeck(draws))[..55]
    ensures firstHandIds == ["card-55", "card-56", "card-57", "card-58", "card-59"]
    ensures deckIds == firstDeckIds && handIds == firstHandIds
    ensures handXs == [-6.0, -3.0, 0.0, 3.0, 6.0]
    ensures !drawAgain
  {
    var table := new Table();
    table.InitDeck(draws);
    ghost var initial := InitialDeck(draws);
    table.Draw();
    var deckAfterFirst, handAfterFirst := table.deck, table.hand;
    firstDeckIds, firstHandIds := Ids(deckAfterFirst), Ids(handAfterFirst);
    table.Draw();
    assert table.deck == deckAfterFirst && table.hand == handAfterFirst;
    DeckIdsFrom55(draws);
    TwoDigitCardId(55); TwoDigitCardId(56); TwoDigitCardId(57); TwoDigitCardId(58); TwoDigitCardId(59);
    assert CardId(55) == "card-55" && CardId(56) == "card-56" && CardId(57) == "card-57";
    assert CardId(58) == "card-58" && CardId(59) == "card-59";
    FullDealTakesLastFive(initial);
    assert Ids(table.deck) == Ids(initial)[..55] by {
      DealPartitionsDeck(initial);
      IdsAppend(table.deck, table.hand);
    }
    deckIds, handIds, handXs, drawAgain := Ids(table.deck), Ids(table.hand), Xs(table.hand), table.isFirstBuy;
  }

  /**
   * Clicking the same card twice on a fresh table: the first toggle focuses
   * it, the second clears the focus again, and the deal state is untouched.
   */
  method FocusTwice(cardId: string) returns (afterFirst: Option<string>, afterSecond: Option<string>, stillFirstBuy: bool)
    ensures afterFirst == Some(cardId)
    ensures afterSecond == None
    ensures stillFirstBuy
  {
    var table := new Table();
    table.ToggleFocus(cardId);
    afterFirst := table.focused;
    table.ToggleFocus(cardId);
    afterSecond, stillFirstBuy := table.focused, table.isFirstBuy;
  }
}
