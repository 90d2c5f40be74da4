/**
 * Building the 60-card deck and dealing the opening hand from it: the layout
 * constants, the pure specification of both operations, the loops that carry
 * them out, and what the deal guarantees.
 */
module Deal {
  import opened Cards

  const DeckSize: nat := 60
  const HandSize: nat := 5
  const CardSpacing: int := 3
  /** Width of a full hand fan, from the centre of the first card to the centre of the last. */
  const TotalWidth: int := (HandSize - 1) * CardSpacing
  /** x of hand slot 0, so that the five slots are centred on 0. */
  const StartX: int := -(TotalWidth / 2)

  const DeckX: real := -12.0
  const DeckZ: real := 1.0
  /** Height step between two consecutive deck cards. */
  const StackStep: real := 0.02
  const HandY: real := 0.0
  const HandZ: real := 8.0

  // ---------------------------------------------------------------------------
  // Deck construction

  /** Card `i` of the stack sits `i` steps below the first. */
  function DeckPosition(i: nat): (p: Position) {
    Position(DeckX, -(i as real) * StackStep, DeckZ)
  }

  function DeckCard(i: nat, pick: Option<PokemonCard>): (c: Card) {
    Card(DeckPosition(i), DeckFaceDown, pick, CardId(i))
  }

  /**
   * The deck built at start-up. `draws(i)` is what the card cache hands out on
   * the `i`-th request; the cache itself is outside the model.
   */
  function InitialDeck(draws: nat -> Option<PokemonCard>): (deck: seq<Card>) {
    seq(DeckSize, i requires 0 <= i < DeckSize => DeckCard(i, draws(i)))
  }

  /** The loop of the start-up effect that fills `initialCards`. */
  method BuildDeck(draws: nat -> Option<PokemonCard>) returns (initialCards: seq<Card>)
    ensures initialCards == InitialDeck(draws)
  {
    initialCards := [];
    for i := 0 to DeckSize
      invariant |initialCards| == i
      invariant forall k :: 0 <= k < i ==> initialCards[k] == DeckCard(k, draws(k))
    {
      var pokemonCard := draws(i);
      initialCards := initialCards + [Card(Position(DeckX, -(i as real) * StackStep, DeckZ), DeckFaceDown, pokemonCard, CardId(i))];
    }
  }

  /**
   * The built deck holds exactly 60 cards, card `i` has id "card-i" and the
   * `i`-th draw, all ids differ, every card lies face down, and each card sits
   * one stack step lower than the one before it.
   */
  lemma InitialDeckShape(draws: nat -> Option<PokemonCard>)
    ensures |InitialDeck(draws)| == DeckSize
    ensures forall i :: 0 <= i < DeckSize ==>
      InitialDeck(draws)[i].id == CardId(i) && InitialDeck(draws)[i].pokemonCard == draws(i)
      && InitialDeck(draws)[i].rotation == DeckFaceDown
      && InitialDeck(draws)[i].position == Position(-12.0, -(i as real) * 0.02, 1.0)
    ensures forall i, j :: 0 <= i < j < DeckSize ==>
      InitialDeck(draws)[j].position.y < InitialDeck(draws)[i].position.y
    ensures Distinct(Ids(InitialDeck(draws)))
  {
    var deck := InitialDeck(draws);
    forall i | 0 <= i < DeckSize ensures deck[i] == DeckCard(i, draws(i)) {
      assert deck[i] == DeckCard(i, draws(i));
    }
    var ids := Ids(deck);
    forall i, j | 0 <= i < j < |ids| ensures ids[i] != ids[j] {
      assert ids[i] == CardId(i) && ids[j] == CardId(j);
      CardIdInjective(i, j);
    }
  }

  // ---------------------------------------------------------------------------
  // The deal

  /** The source's `topCard`: deck index of the first card that goes to the hand; negative below five cards. */
  function TopCard(n: nat): (top: int) {
    n - HandSize
  }

  /** How many of `n` deck cards stay in the deck: every index below `TopCard(n)`. */
  function KeptCount(n: nat): (kept: nat)
    ensures kept <= n
    ensures TopCard(n) >= 0 ==> kept == TopCard(n)
    ensures TopCard(n) < 0 ==> kept == 0
  {
    if n >= HandSize then n - HandSize else 0
  }

  /** x of the hand card at `handIndex`. */
  function HandX(handIndex: int): (x: int) {
    StartX + handIndex * CardSpacing
  }

  function HandPosition(handIndex: int): (p: Position) {
    Position(HandX(handIndex) as real, HandY, HandZ)
  }

  /** A card moved into the hand: only its position and rotation change. */
  function ToHand(c: Card, handIndex: int): (moved: Card) {
    c.(position := HandPosition(handIndex), rotation := HandTilt)
  }

  /** What stays in the deck after the deal. */
  function RemainingDeck(deck: seq<Card>): (rest: seq<Card>) {
    deck[..KeptCount(|deck|)]
  }

  /**
   * The hand the deal produces: deck card `i` goes to hand slot `i - TopCard`.
   * So the hand is the last five cards of the deck (all of them, if fewer), in
   * deck order, filling the right-most slots; each keeps its id and display
   * data and takes its slot's position and the hand tilt.
   */
  function DealtHand(deck: seq<Card>): (hand: seq<Card>)
    ensures |hand| == if |deck| < HandSize then |deck| else HandSize
    ensures Ids(hand) == Ids(deck[|deck| - |hand|..])
    ensures forall k :: 0 <= k < |hand| ==>
      hand[k].position == HandPosition(HandSize - |hand| + k) && hand[k].rotation == HandTilt
      && hand[k].pokemonCard == deck[|deck| - |hand| + k].pokemonCard
  {
    var kept := KeptCount(|deck|);
    var hand := seq(|deck| - kept, k requires 0 <= k < |deck| - kept =>
      ToHand(deck[kept + k], kept + k - TopCard(|deck|)));
    assert kept == |deck| - |hand|;
    assert forall k :: 0 <= k < |hand| ==> hand[k] == ToHand(deck[kept + k], HandSize - |hand| + k) by {
      forall k | 0 <= k < |hand| ensures hand[k] == ToHand(deck[kept + k], HandSize - |hand| + k) {
        assert kept + k - TopCard(|deck|) == HandSize - |hand| + k;
      }
    }
    assert Ids(hand) == Ids(deck[kept..]) by {
      forall k | 0 <= k < |hand| ensures Ids(hand)[k] == Ids(deck[kept..])[k] {
        assert hand[k].id == deck[kept + k].id;
      }
    }
    hand
  }

  /** The x coordinates of a row of cards. */
  function Xs(cards: seq<Card>): (xs: seq<real>)
    ensures |xs| == |cards|
    ensures forall k :: 0 <= k < |cards| ==> xs[k] == cards[k].position.x
  {
    seq(|cards|, k requires 0 <= k < |cards| => cards[k].position.x)
  }

  /** The walk over the deck in the deck click handler, filling `deckArray` and `handArray`. */
  method SplitDeck(cardDeck: seq<Card>) returns (deckArray: seq<Card>, handArray: seq<Card>)
    ensures deckArray == RemainingDeck(cardDeck)
    ensures handArray == DealtHand(cardDeck)
  {
    var topCard := |cardDeck| - HandSize;
    ghost var kept := KeptCount(|cardDeck|);
    deckArray, handArray := [], [];
    for index := 0 to |cardDeck|
      invariant index <= kept ==> deckArray == cardDeck[..index] && handArray == []
      invariant index > kept ==> deckArray == cardDeck[..kept] && |handArray| == index - kept
      invariant forall k :: 0 <= k < |handArray| ==>
        handArray[k] == ToHand(cardDeck[kept + k], kept + k - topCard)
    {
      var card := cardDeck[index];
      if index >= topCard {
        var handIndex := index - topCard;
        var xPosition := StartX + handIndex * CardSpacing;
        handArray := handArray + [card.(position := Position(xPosition as real, HandY, HandZ), rotation := HandTilt)];
      } else {
        deckArray := deckArray + [card];
      }
    }
  }

  /**
   * The deal loses and duplicates nothing: the remaining deck followed by the
   * hand has exactly the ids of the old deck, in the old order, and the
   * remaining deck is an untouched prefix of the old one.
   */
  lemma DealPartitionsDeck(deck: seq<Card>)
    ensures Ids(RemainingDeck(deck) + DealtHand(deck)) == Ids(deck)
    ensures RemainingDeck(deck) == deck[..|RemainingDeck(deck)|]
  {
  }

  /**
   * A dealt card keeps its id and its display data; it gets the hand slot
   * `deck index - TopCard`, i.e. x = -6 + 3 * slot, y = 0, z = 8, and the hand tilt.
   */
  lemma DealtCardsKeepIdentity(deck: seq<Card>)
    ensures forall k :: 0 <= k < |DealtHand(deck)| ==>
      var source := deck[KeptCount(|deck|) + k];
      var slot := KeptCount(|deck|) + k - TopCard(|deck|);
      DealtHand(deck)[k].id == source.id && DealtHand(deck)[k].pokemonCard == source.pokemonCard
      && DealtHand(deck)[k].position == Position((-6 + 3 * slot) as real, 0.0, 8.0)
      && DealtHand(deck)[k].rotation == HandTilt
  {
  }

  /**
   * From a deck of at least five cards, the hand is exactly its last five
   * cards in deck order, fanned out at x = -6, -3, 0, 3, 6, and the deck keeps
   * the rest.
   */
  lemma FullDealTakesLastFive(deck: seq<Card>)
    requires |deck| >= HandSize
    ensures RemainingDeck(deck) == deck[..|deck| - 5]
    ensures Ids(DealtHand(deck)) == Ids(deck[|deck| - 5..])
    ensures Xs(DealtHand(deck)) == [-6.0, -3.0, 0.0, 3.0, 6.0]
  {
  }

  /**
   * From a deck of one to four cards, every card moves to the hand and they
   * fill the right-most of the five slots, the last one always at x = 6.
   */
  lemma ShortDealRightAligned(deck: seq<Card>)
    requires 0 < |deck| < HandSize
    ensures RemainingDeck(deck) == []
    ensures Ids(DealtHand(deck)) == Ids(deck)
    ensures forall k :: 0 <= k < |deck| ==> Xs(DealtHand(deck))[k] == HandX(HandSize - |deck| + k) as real
    ensures Xs(DealtHand(deck))[|deck| - 1] == 6.0
  {
  }

  /** The example of three cards: they land at x = 0, 3, 6. */
  lemma ThreeCardDeal(deck: seq<Card>)
    requires |deck| == 3
    ensures Xs(DealtHand(deck)) == [0.0, 3.0, 6.0]
  {
  }

  /**
   * The hand reads left to right: x strictly increases with the hand index
   * and stays within [-6, 6].
   */
  lemma DealtHandOrdered(deck: seq<Card>)
    ensures forall j, k :: 0 <= j < k < |DealtHand(deck)| ==>
      Xs(DealtHand(deck))[j] < Xs(DealtHand(deck))[k]
    ensures forall k :: 0 <= k < |DealtHand(deck)| ==> -6.0 <= Xs(DealtHand(deck))[k] <= 6.0
  {
    DealtHandXs(deck);
    SlotRowOrdered(Xs(DealtHand(deck)));
  }

  /** A full hand is symmetric about 0: the `j`-th card from the left mirrors the `j`-th from the right. */
  lemma FullHandSymmetric(deck: seq<Card>)
    requires |deck| >= HandSize
    ensures forall j, k :: 0 <= j < HandSize && 0 <= k < HandSize && j + k == HandSize - 1 ==>
      Xs(DealtHand(deck))[j] == -Xs(DealtHand(deck))[k]
  {
    DealtHandXs(deck);
    SlotRowOrdered(Xs(DealtHand(deck)));
  }

  /** The `k`-th x of a dealt hand is that of slot `5 - |hand| + k`. */
  lemma DealtHandXs(deck: seq<Card>)
    ensures |DealtHand(deck)| <= HandSize
    ensures forall k :: 0 <= k < |DealtHand(deck)| ==>
      Xs(DealtHand(deck))[k] == HandX(HandSize - |DealtHand(deck)| + k) as real
  {
    var hand := DealtHand(deck);
    forall k | 0 <= k < |hand| ensures Xs(hand)[k] == HandX(HandSize - |hand| + k) as real {
      assert hand[k].position == HandPosition(HandSize - |hand| + k);
    }
  }

  /** A row whose `k`-th x is that of slot `5 - |xs| + k` increases, stays in [-6, 6], and is symmetric when full. */
  lemma SlotRowOrdered(xs: seq<real>)
    requires |xs| <= HandSize
    requires forall k :: 0 <= k < |xs| ==> xs[k] == HandX(HandSize - |xs| + k) as real
    ensures forall j, k :: 0 <= j < k < |xs| ==> xs[j] < xs[k]
    ensures forall k :: 0 <= k < |xs| ==> -6.0 <= xs[k] <= 6.0
    ensures |xs| == HandSize ==>
      forall j, k :: 0 <= j < HandSize && 0 <= k < HandSize && j + k == HandSize - 1 ==> xs[j] == -xs[k]
  {
  }
}
