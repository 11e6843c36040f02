/**
 * The rule logic of `GameState.can_play` and `GameState.play` (bot.py:109-151) on a
 * value view of the discard pile: the top card and the history of earlier tops.
 */
module Rules {
  import opened Cards

  /** The discard pile: `board_top` and `board_history`. */
  datatype Board = Board(top: Card, history: seq<Card>)

  /** One call of `play`: the card played and the colour a colour choice would resolve to. */
  datatype Move = Move(card: Card, chosen: Color)

  /**
   * `can_play`: a wild card is always playable; any other card is playable when it
   * shares the colour or the variant of the top card.
   */
  function CanPlayOn(top: Card, card: Card): (r: bool)
    ensures card.IsWild() ==> r
    ensures !card.IsWild() ==> (r <==> card.color == top.color || card.variant == top.variant)
  {
    if card.IsWild() then true
    else if top.color == card.color || top.variant == card.variant then true
    else false
  }

  /**
   * The board effect of `play`: only a playable `change_color` card changes the board,
   * pushing the old top onto the history and becoming the new top in the chosen colour.
   * Every other card, playable or not, leaves the board as it is.
   */
  function PlayOnBoard(b: Board, card: Card, chosen: Color): (r: Board)
    ensures r == b || r.history == b.history + [b.top]
    ensures r != b ==> r.top == Card(ChangeColor, chosen) && CanPlayOn(b.top, card)
  {
    if CanPlayOn(b.top, card) && card.variant == ChangeColor then
      Board(card.(color := chosen), b.history + [b.top])
    else
      b
  }

  /** The effect of playing `card`, stated case by case. */
  lemma PlayOnBoardEffect(b: Board, card: Card, chosen: Color)
    ensures CanPlayOn(b.top, card) && card.variant == ChangeColor ==>
      && PlayOnBoard(b, card, chosen).history == b.history + [b.top]
      && PlayOnBoard(b, card, chosen).top == Card(ChangeColor, chosen)
    ensures !CanPlayOn(b.top, card) || card.variant != ChangeColor ==>
      PlayOnBoard(b, card, chosen) == b
  {
  }

  /** A `change_color` card from the deck is wild, hence always playable, so its play is never refused. */
  lemma ChangeColorAlwaysResolves(b: Board, chosen: Color)
    ensures Card(ChangeColor, Wild) in Deck()
    ensures PlayOnBoard(b, Card(ChangeColor, Wild), chosen) == Board(Card(ChangeColor, chosen), b.history + [b.top])
  {
    DeckComplete();
    assert Card(WildVariants[1], Wild) in Deck();
  }

  /**
   * When the top card is a wild deck entry (the initial `random.choice(CARDS)` can pick one),
   * a deck card is playable exactly when it is itself wild: no coloured card matches it.
   */
  lemma WildTopAcceptsOnlyWild(top: Card, card: Card)
    requires top in Deck() && top.IsWild()
    requires card in Deck()
    ensures CanPlayOn(top, card) <==> card.IsWild()
  {
    DeckColoring();
    if !card.IsWild() {
      assert card.variant in Variants;
      assert top.variant in WildVariants;
    }
  }

  /**
   * On a coloured top card (variant i, colour j) exactly these deck entries are playable:
   * the four of variant i, the thirteen of colour j and the two wild ones, 18 in all.
   */
  lemma ColoredTopAdmits(i: nat, j: nat)
    requires i < |Variants| && j < |Colors|
    ensures forall k :: 0 <= k < |Deck()| ==>
      (CanPlayOn(Card(Variants[i], Colors[j]), Deck()[k]) <==>
        k >= ColoredEntries || k / 4 == i || k % 4 == j)
  {
    forall k | 0 <= k < |Deck()|
      ensures CanPlayOn(Card(Variants[i], Colors[j]), Deck()[k]) <==>
        k >= ColoredEntries || k / 4 == i || k % 4 == j
    {
      if k < ColoredEntries {
        assert Deck()[k] == Card(Variants[k / 4], Colors[k % 4]);
        assert Variants[k / 4] == Variants[i] <==> k / 4 == i;
        assert Colors[k % 4] == Colors[j] <==> k % 4 == j;
      }
    }
  }

  /** The board after a sequence of `play` calls. */
  function PlaySequence(b: Board, moves: seq<Move>): (r: Board)
    decreases |moves|
  {
    if moves == [] then b
    else PlaySequence(PlayOnBoard(b, moves[0].card, moves[0].chosen), moves[1..])
  }

  /** The number of `change_color` plays among the moves. */
  function ChangeColorCount(moves: seq<Move>): nat
  {
    if moves == [] then 0
    else (if moves[0].card.variant == ChangeColor then 1 else 0) + ChangeColorCount(moves[1..])
  }

  /** Every move plays a card drawn from the deck population. */
  predicate FromDeck(moves: seq<Move>) {
    forall m :: m in moves ==> m.card in Deck()
  }

  /** Every move's colour choice resolves to one of the four concrete colours. */
  predicate ConcreteChoices(moves: seq<Move>) {
    forall m :: m in moves ==> m.chosen in Colors
  }

  /**
   * The history is append-only: over any sequence of plays of deck cards the old
   * history stays a prefix, and it grows by exactly one entry per `change_color` play.
   */
  lemma {:induction false} HistoryAppendOnly(b: Board, moves: seq<Move>)
    requires FromDeck(moves)
    ensures b.history <= PlaySequence(b, moves).history
    ensures |PlaySequence(b, moves).history| == |b.history| + ChangeColorCount(moves)
    decreases |moves|
  {
    if moves != [] {
      var b' := PlayOnBoard(b, moves[0].card, moves[0].chosen);
      if moves[0].card.variant == ChangeColor {
        DeckColoring();
        assert moves[0] in moves;
        assert moves[0].card.IsWild();
      }
      assert FromDeck(moves[1..]) by {
        forall m | m in moves[1..] ensures m.card in Deck() {
          assert m in moves;
        }
      }
      HistoryAppendOnly(b', moves[1..]);
    }
  }

  /**
   * Once the top card has a concrete colour it keeps one, and any sequence of plays
   * that contains a `change_color` card ends with a concrete top, whatever the start.
   */
  lemma {:induction false} TopStaysConcrete(b: Board, moves: seq<Move>)
    requires FromDeck(moves) && ConcreteChoices(moves)
    requires !b.top.IsWild() || ChangeColorCount(moves) > 0
    ensures !PlaySequence(b, moves).top.IsWild()
    decreases |moves|
  {
    if moves != [] {
      var b' := PlayOnBoard(b, moves[0].card, moves[0].chosen);
      assert moves[0] in moves;
      if moves[0].card.variant == ChangeColor {
        DeckColoring();
        assert !b'.top.IsWild();
      }
      assert FromDeck(moves[1..]) && ConcreteChoices(moves[1..]) by {
        forall m | m in moves[1..] ensures m.card in Deck() && m.chosen in Colors {
          assert m in moves;
        }
      }
      TopStaysConcrete(b', moves[1..]);
    }
  }

  /** Without a `change_color` play the board never changes, whatever else is played. */
  lemma {:induction false} BoardFrame(b: Board, moves: seq<Move>)
    requires ChangeColorCount(moves) == 0
    ensures PlaySequence(b, moves) == b
    decreases |moves|
  {
    if moves != [] {
      BoardFrame(b, moves[1..]);
    }
  }
}
