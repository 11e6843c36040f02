/**
 * Card identity as bot.py has it: `Card` is a mutable object, `random.choices(CARDS, k)`
 * hands out references to the very entries of `CARDS`, and `play` recolours the played
 * object in place (bot.py:150). This module models only that sharing; the rest of the
 * model treats cards as values.
 */
module SharedCards {
  import opened Cards

  /** A `Card` object: its `color` can be assigned after creation. */
  class CardObject {
    var variant: Variant
    var color: Color

    constructor (variant: Variant, color: Color)
      ensures this.variant == variant && this.color == color
    {
      this.variant := variant;
      this.color := color;
    }
  }

  /** The card values a list of card objects currently holds. */
  function Values(objects: seq<CardObject>): (cs: seq<Card>)
    reads objects
    ensures |cs| == |objects|
    ensures forall i :: 0 <= i < |objects| ==> cs[i] == Card(objects[i].variant, objects[i].color)
  {
    seq(|objects|, i requires 0 <= i < |objects| reads objects => Card(objects[i].variant, objects[i].color))
  }

  /** bot.py:150 as written: the colour is assigned to the played object itself. */
  method ResolveInPlace(card: CardObject, colorName: Color)
    modifies card
    ensures card.color == colorName && card.variant == old(card.variant)
  {
    card.color := colorName;
  }

  /**
   * A player draws the `change_color` entry of `CARDS` (a reference to it) and plays it,
   * choosing `chosen`. The deck entry itself is recoloured: afterwards `CARDS` no longer
   * equals the deck population and holds no wild `change_color` card at all, so no later
   * draw, in any game, can yield one.
   */
  method DrawAndResolveShared(deck: seq<CardObject>, chosen: Color) returns (hand: seq<CardObject>)
    requires Values(deck) == Deck()
    requires chosen in Colors
    modifies deck
    ensures hand == [deck[|deck| - 1]]
    ensures hand[0].variant == ChangeColor && hand[0].color == chosen
    ensures Values(deck) != Deck()
    ensures Card(ChangeColor, Wild) !in Values(deck)
  {
    DeckSize();
    DeckDistinct();
    ghost var before := Values(deck);
    assert before[53] == Card(ChangeColor, Wild);
    hand := [deck[53]];
    ResolveInPlace(hand[0], chosen);
    forall i | 0 <= i < 53
      ensures Values(deck)[i] != Card(ChangeColor, Wild)
    {
      assert before[i] != before[53];
      assert deck[i] != deck[53];
    }
    assert Values(deck)[53] != Card(ChangeColor, Wild);
  }
}
