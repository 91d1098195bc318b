/**
 * The card and deck shapes the codec and the linking service read and build.
 * They are plain values: the catalog owns cards, and a deck holds references to them.
 */
module Ygo {
  import opened Wrappers

  /** The rulesets a card can be legal in. */
  datatype Format = TCG | OCG | GOAT

  /** The broad kind of a card type. */
  datatype CardTypeGroup = Monster | Spell | Trap | Skill

  /** The three parts of a deck; `DefaultDeckParts` gives their wire order. */
  datatype DeckPart = Main | Extra | Side

  /** Main, then Extra, then Side: the order every wire format writes and reads the parts in. */
  const DefaultDeckParts: seq<DeckPart> := [Main, Extra, Side]

  /** The release dates of a card (as numbers), per format; absent when unreleased. */
  datatype ReleaseInfo = ReleaseInfo(tcg: Option<int>, ocg: Option<int>)

  /** A card type, with the deck parts cards of that type may be placed in. */
  datatype CardType = CardType(name: string, group: CardTypeGroup, sortGroup: int, deckParts: set<DeckPart>)

  /** A card set, the per-format ban list entry, the image data and the prices of a card: carried, never inspected. */
  type CardSet(==)
  type BanlistInfo(==)
  type CardImage(==)
  type CardPrices(==)

  /** A card with its type and sets resolved. */
  datatype Card = Card(
    passcode: string,
    name: string,
    description: string,
    cardType: CardType,
    subType: string,
    attribute: Option<string>,
    atk: Option<int>,
    def: Option<int>,
    level: Option<int>,
    pendulumScale: Option<int>,
    linkRating: Option<int>,
    linkMarkers: Option<seq<string>>,
    betaName: Option<string>,
    treatedAs: Option<string>,
    archetype: Option<string>,
    release: ReleaseInfo,
    sets: seq<CardSet>,
    formats: seq<Format>,
    banlist: BanlistInfo,
    image: Option<CardImage>,
    prices: CardPrices,
    views: int)

  /** A deck: an optional name and, per part, the cards in insertion order (duplicates allowed). */
  datatype Deck = Deck(name: Option<string>, main: seq<Card>, extra: seq<Card>, side: seq<Card>) {

    /** The cards of one part. */
    function Part(p: DeckPart): seq<Card> {
      match p
      case Main => main
      case Extra => extra
      case Side => side
    }

    /** The deck with `cards` added at the end of part `p` (the source's `push`). */
    function AppendAll(p: DeckPart, cards: seq<Card>): (d: Deck)
      ensures d.name == name
      ensures d.Part(p) == Part(p) + cards
      ensures forall q :: q != p ==> d.Part(q) == Part(q)
    {
      match p
      case Main => this.(main := main + cards)
      case Extra => this.(extra := extra + cards)
      case Side => this.(side := side + cards)
    }

    function Append(p: DeckPart, card: Card): (d: Deck)
      ensures d.name == name
      ensures d.Part(p) == Part(p) + [card]
      ensures forall q :: q != p ==> d.Part(q) == Part(q)
    {
      AppendAll(p, [card])
    }
  }

  /** Two decks are equal when their names and all three parts are. */
  lemma DeckEquality(a: Deck, b: Deck)
    requires a.name == b.name && a.Part(Main) == b.Part(Main) && a.Part(Extra) == b.Part(Extra) && a.Part(Side) == b.Part(Side)
    ensures a == b
  {
  }

  /** Appending one card and then a run is appending the card followed by the run. */
  lemma AppendThenAppendAll(deck: Deck, p: DeckPart, card: Card, cards: seq<Card>)
    ensures deck.Append(p, card).AppendAll(p, cards) == deck.AppendAll(p, [card] + cards)
  {
    assert deck.Part(p) + [card] + cards == deck.Part(p) + ([card] + cards);
    DeckEquality(deck.Append(p, card).AppendAll(p, cards), deck.AppendAll(p, [card] + cards));
  }

  /** Appending an empty run changes nothing. */
  lemma AppendAllEmpty(deck: Deck, p: DeckPart)
    ensures deck.AppendAll(p, []) == deck
  {
    assert deck.Part(p) + [] == deck.Part(p);
    DeckEquality(deck.AppendAll(p, []), deck);
  }

  /** Appending a run and then one card is appending the run followed by the card. */
  lemma AppendAllThenAppend(deck: Deck, p: DeckPart, cards: seq<Card>, card: Card)
    ensures deck.AppendAll(p, cards).Append(p, card) == deck.AppendAll(p, cards + [card])
  {
    assert deck.Part(p) + cards + [card] == deck.Part(p) + (cards + [card]);
    DeckEquality(deck.AppendAll(p, cards).Append(p, card), deck.AppendAll(p, cards + [card]));
  }

  /** Appending two runs one after the other is appending their concatenation. */
  lemma AppendAllTwice(deck: Deck, p: DeckPart, a: seq<Card>, b: seq<Card>)
    ensures deck.AppendAll(p, a).AppendAll(p, b) == deck.AppendAll(p, a + b)
  {
    assert deck.Part(p) + a + b == deck.Part(p) + (a + b);
    DeckEquality(deck.AppendAll(p, a).AppendAll(p, b), deck.AppendAll(p, a + b));
  }

  /** A new deck: no name and one empty part per default deck part. */
  function EmptyDeck(): (d: Deck)
    ensures d.name == None
    ensures forall p :: d.Part(p) == []
  {
    Deck(None, [], [], [])
  }
}
