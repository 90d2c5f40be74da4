# Pokémon TCG table: deck, hand and focus state

This project models the table state of a browser card-game client. The state is held by the
top-level `App` component in `src/App.tsx`, and the model proves properties of it in Dafny.
The table holds four pieces of state:

- a deck of cards;
- a hand of cards;
- the id of the focused card, if any;
- the flag `isFirstBuy`, which keeps the deal to one use.

Three handlers change this state:

- The start-up effect builds a 60-card deck. Card `i` is called `card-i`. It lies face down at
  x = -12, z = 1, and one height step of 0.02 below card `i-1`.
- The deck click handler deals the opening hand. It works once, and only on a non-empty deck.
  The last five deck cards move to the hand, keeping their order. Each one gets the hand tilt and
  a fixed slot at x = -6 + 3·slot, y = 0, z = 8. With fewer than five cards in the deck, every card
  moves to the hand and they fill the right-most slots.
- The focus handler toggles the focused id.

The render step passes `isFocused` to each card. For a deck card it is always false. For a hand
card it is true exactly when the card's id is the focused id.

Modules:

- `Cards` (`cards.dfy`): the card record, positions, the two rotations as tags, decimal ids.
- `Deal` (`deal.dfy`): the layout constants, deck construction and the deal. Each is a pure
  specification function plus the loop that builds the local arrays, proved against it.
- `App` (`app.dfy`): the class `Table` with the four state fields and the three handlers, the
  render projection, and two short sessions.

Modelling choices:

- Positions are exact `real`s. The source uses floating point, where `-i * 0.02` is rounded.
  The hand x-coordinates are integers in both.
- The rotations `[π/2, 0, 0]` and `[-π/4, 0, 0]` are the tags `DeckFaceDown` and `HandTilt`.
- The card cache is a parameter `draws: nat -> Option<PokemonCard>`, giving the result of the
  `i`-th request.

The hand always uses five fixed slots, so a deal from a short deck is right-aligned: three
cards land at x = 0, 3, 6.

## Model

| member | source | states |
|---|---|---|
| `Cards.NatToString` | src/App.tsx:43 | the id suffix is a non-empty string of decimal digits with no leading zero; it has one character exactly for numbers below 10 |
| `Cards.NatToStringInjective` | src/App.tsx:43 | different numbers get different decimal strings |
| `Cards.CardIdInjective` | src/App.tsx:43 | `card-i` and `card-j` differ whenever `i != j` |
| `Deal.BuildDeck` | src/App.tsx:36-45 | the start-up loop produces exactly the deck `InitialDeck(draws)` |
| `Deal.InitialDeckShape` | src/App.tsx:36-45 | the built deck has 60 cards; card `i` has id `card-i`, the `i`-th draw, the face-down rotation and position (-12, -i·0.02, 1); heights strictly decrease along the deck; all ids are distinct |
| `Deal.DealtHand` | src/App.tsx:71-80 | the hand is the last five deck cards (all of them, if fewer), with the same ids in deck order; hand card `k` keeps its display data, takes the hand tilt and the position of slot `5 - n + k` in a hand of `n` cards, so the hand fills the right-most slots |
| `Deal.SplitDeck` | src/App.tsx:64-84 | the loop over the deck yields exactly the remaining deck and the dealt hand of the specification |
| `Deal.DealPartitionsDeck` | src/App.tsx:71-84 | the remaining deck followed by the hand has exactly the old deck's ids in the old order, so no card is lost or duplicated; the remaining deck is an unchanged prefix of the old deck |
| `Deal.DealtCardsKeepIdentity` | src/App.tsx:73-80 | a dealt card keeps its id and display data; it gets x = -6 + 3·(deck index - topCard), y = 0, z = 8 and the hand tilt |
| `Deal.FullDealTakesLastFive` | src/App.tsx:64-84 | from a deck of at least five cards, the hand is its last five cards in deck order at x = -6, -3, 0, 3, 6, and the deck keeps the first `n - 5` |
| `Deal.ShortDealRightAligned` | src/App.tsx:64-74 | from a deck of one to four cards, all cards move to the hand in order and take the right-most slots, the last at x = 6 |
| `Deal.ThreeCardDeal` | src/App.tsx:64-74 | three cards are dealt to x = 0, 3, 6 |
| `Deal.DealtHandOrdered` | src/App.tsx:65-79 | hand x strictly increases left to right and stays within [-6, 6] |
| `Deal.FullHandSymmetric` | src/App.tsx:65-79 | in a full hand, the `j`-th card from the left sits at minus the x of the `j`-th card from the right, so the fan is symmetric about 0 |
| `App.Table.constructor` | src/App.tsx:18-21 | the initial state has an empty deck and hand, no focus and the draw available |
| `App.Table.InitDeck` | src/App.tsx:36-48 | the deck becomes `InitialDeck(draws)`; hand, focus and flag are unchanged; ids stay distinct |
| `App.Table.Draw` | src/App.tsx:62-90 | if the flag is set and the deck is non-empty, the deal is committed and the flag cleared; otherwise nothing changes, so an empty deck does not use up the flag; focus is untouched; deck-then-hand ids are preserved; distinct ids are kept |
| `App.Table.ToggleFocus` | src/App.tsx:92-98 | toggling the focused id clears the focus; toggling any other id focuses it; deck, hand and flag are unchanged |
| `App.RenderCards` | src/App.tsx:145-169 | one view per card, deck cards first and then hand cards, in order; each view carries its card's id, position and rotation, and is marked as in the hand exactly for hand cards |
| `App.RenderFocusAtMostOne` | src/App.tsx:145-169 | with distinct ids, at most one card is rendered as focused; deck cards are never focused and never in the hand; a hand card is focused exactly when its id is the focused id |
| `App.OpeningDeal` | src/App.tsx:36-90 | after mounting, the first deck click leaves the first 55 ids in the deck and puts `card-55` to `card-59` in the hand; the second click leaves both id lists exactly as the first click left them, with the hand at x = -6, -3, 0, 3, 6 and the draw used up |
| `App.FocusTwice` | src/App.tsx:92-98 | toggling the same id twice from a fresh table focuses it and then clears the focus |

## Left out

- Loading the card cache, the loading-screen status strings, the one-second timer and the error branch of the start-up effect. These are I/O and UI. A successful cache load is taken as given, and the cache's answers are the `draws` parameter.
- `src/services/pokemonAPI.tsx` and `src/services/api.ts`. They make network requests and random choices.
- The card component's texture loading and its own network fetch.
- The hover scale rule `isHovered && isInHand ? 1.5 : 1` in `src/components/card/Card.tsx:54`. That file is context, not part of the table state.
- The 3D scene (canvas, lights, gizmo and the board plane) and the numeric values of the rotations. These are rendering and floating point.
- Floating-point rounding of the deck height `-i * 0.02`. The model keeps exact reals.
- Dragging, the board zone, drop classification, rotating a focused card and re-centring the hand. The code implements none of them.
- `App.Table.InitDeck` requires an empty hand. The effect runs once at mount, and the loading screen blocks every click until it has run.
- The card component as written does not declare the `cardId`, `isFocused` or `onFocusChange` properties, and never calls the focus handler. The model covers the handler and the projection as `App.tsx` defines them.
- The click handler is on the group that holds both deck and hand cards, so a click on a hand card also reaches `Draw`. After the deal this is a no-op, and `Draw`'s contract covers that case.
