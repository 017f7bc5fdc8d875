/** The single global deck (src/rust/src/models/deck.rs). */
module Decks {
  import opened Cards

  class Deck {
    var cards: seq<Card>

    /** `Deck::new`: no cards. */
    constructor ()
      ensures cards == []
    {
      cards := [];
    }

    /** `Deck::add`: pushes the card at the end; the earlier cards keep their order. */
    method Add(card: Card)
      modifies this
      ensures cards == old(cards) + [card]
    {
      cards := cards + [card];
    }
  }
}
