/** The values the table holds: cards, their transforms and their ids. */
module Cards {

  datatype Option<+T> = None | Some(value: T)

  /** Display data of one card as the card database supplies it; the table never looks inside it. */
  datatype PokemonCard = PokemonCard(id: string, name: string, smallImage: string, largeImage: string)

  /** A scene position. Coordinates are exact reals, not floating point. */
  datatype Position = Position(x: real, y: real, z: real)

  /**
   * The two Euler rotations the table assigns, as symbolic tags:
   * DeckFaceDown is [pi/2, 0, 0] and HandTilt is [-pi/4, 0, 0].
   */
  datatype Rotation = DeckFaceDown | HandTilt

  /** One entry of the deck or of the hand. `pokemonCard` is optional, as in the source's record type. */
  datatype Card = Card(position: Position, rotation: Rotation, pokemonCard: Option<PokemonCard>, id: string)

  function Digit(d: nat): (c: char)
    requires d < 10
    ensures '0' <= c <= '9'
  {
    (d + '0' as int) as char
  }

  /** Decimal notation of `n`, as a template literal renders a non-negative integer. */
  function NatToString(n: nat): (s: string)
    ensures 1 <= |s|
    ensures |s| == 1 <==> n < 10
    ensures forall k :: 0 <= k < |s| ==> '0' <= s[k] <= '9'
    ensures s[0] == '0' ==> n == 0
  {
    if n < 10 then [Digit(n)] else NatToString(n / 10) + [Digit(n % 10)]
  }

  lemma {:induction false} NatToStringInjective(a: nat, b: nat)
    requires NatToString(a) == NatToString(b)
    ensures a == b
  {
    if a >= 10 && b >= 10 {
      var sa, sb := NatToString(a / 10), NatToString(b / 10);
      assert NatToString(a) == sa + [Digit(a % 10)];
      assert NatToString(b) == sb + [Digit(b % 10)];
      assert |sa| == |sb|;
      assert sa == NatToString(a)[..|sa|] == NatToString(b)[..|sb|] == sb;
      NatToStringInjective(a / 10, b / 10);
      assert Digit(a % 10) == NatToString(a)[|sa|] == Digit(b % 10);
    }
  }

  /** The id the deck gives its `i`-th card: "card-" followed by `i` in decimal. */
  function CardId(i: nat): (id: string) {
    "card-" + NatToString(i)
  }

  /** A two-digit index is written as its tens digit followed by its units digit. */
  lemma TwoDigitCardId(n: nat)
    requires 10 <= n < 100
    ensures CardId(n) == "card-" + [Digit(n / 10), Digit(n % 10)]
  {
    assert NatToString(n) == NatToString(n / 10) + [Digit(n % 10)];
  }

  lemma CardIdInjective(i: nat, j: nat)
    requires i != j
    ensures CardId(i) != CardId(j)
  {
    if CardId(i) == CardId(j) {
      assert NatToString(i) == CardId(i)[5..] == CardId(j)[5..] == NatToString(j);
      NatToStringInjective(i, j);
    }
  }

  /** The ids of a sequence of cards, in order. */
  function Ids(cards: seq<Card>): (ids: seq<string>)
    ensures |ids| == |cards|
    ensures forall i :: 0 <= i < |cards| ==> ids[i] == cards[i].id
  {
    seq(|cards|, i requires 0 <= i < |cards| => cards[i].id)
  }

  lemma IdsAppend(a: seq<Card>, b: seq<Card>)
    ensures Ids(a + b) == Ids(a) + Ids(b)
  {
  }

  /** No id occurs twice. */
  predicate Distinct(ids: seq<string>) {
    forall i, j :: 0 <= i < j < |ids| ==> ids[i] != ids[j]
  }
}
