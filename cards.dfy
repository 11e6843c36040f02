/**
 * Cards, colours and the fixed deck population of the Uno bot (bot.py:20-60),
 * together with the reaction-to-colour table used when a wild card is resolved
 * (bot.py:21-33, bot.py:171-172).
 */
module Cards {
  import opened Wrappers

  /** Number of cards each player is dealt when a game starts. */
  const StartingCards: nat := 5

  /** A card colour; `Wild` is the colour a wild card carries until it is resolved. */
  datatype Color = Red | Yellow | Green | Blue | Wild

  /** A card variant: ten numerals, three coloured actions and two wild actions. */
  datatype Variant = Number(n: nat) | Reverse | DrawTwo | Skip | DrawFour | ChangeColor

  datatype Card = Card(variant: Variant, color: Color) {
    /** A card is wild exactly when its colour is still `Wild`. */
    predicate IsWild(): (r: bool)
      ensures r <==> color !in Colors
    {
      color == Wild
    }
  }

  /** The four concrete colours, in the order of bot.py's `COLORS`. */
  const Colors: seq<Color> := [Red, Yellow, Green, Blue]

  /** The coloured variants, in the order of `VARIANTS`: "0".."9", "reverse", "+2", "skip". */
  const Variants: seq<Variant> :=
    [Number(0), Number(1), Number(2), Number(3), Number(4),
     Number(5), Number(6), Number(7), Number(8), Number(9),
     Reverse, DrawTwo, Skip]

  /** The wild variants, in the order of `WILD_VARIANTS`: "+4", "change_color". */
  const WildVariants: seq<Variant> := [DrawFour, ChangeColor]

  /** Number of coloured entries of the deck: every coloured variant in every colour. */
  const ColoredEntries: nat := 52

  /**
   * The deck population `CARDS`: entry 4*i + j is coloured variant i in colour j,
   * then one entry per wild variant, coloured `Wild`.
   */
  function Deck(): (d: seq<Card>)
    ensures |d| == |Variants| * |Colors| + |WildVariants|
  {
    seq(ColoredEntries, k requires 0 <= k < ColoredEntries => Card(Variants[k / 4], Colors[k % 4]))
    + seq(|WildVariants|, w requires 0 <= w < |WildVariants| => Card(WildVariants[w], Wild))
  }

  /** Builds `CARDS` with the two nested loops of bot.py and one loop over the wild variants. */
  method BuildDeck() returns (cards: seq<Card>)
    ensures cards == Deck()
  {
    cards := [];
    var i := 0;
    while i < |Variants|
      invariant 0 <= i <= |Variants|
      invariant cards == Deck()[..4 * i]
    {
      cards := AppendColors(cards, i);
      i := i + 1;
    }
    var w := 0;
    while w < |WildVariants|
      invariant 0 <= w <= |WildVariants|
      invariant |cards| == ColoredEntries + w
      invariant cards == Deck()[..|cards|]
    {
      assert Deck()[ColoredEntries + w] == Card(WildVariants[w], Wild);
      PrefixExtend(Deck(), |cards|);
      cards := cards + [Card(WildVariants[w], Wild)];
      w := w + 1;
    }
    assert Deck()[..|cards|] == Deck();
  }

  /** The inner loop of the deck construction: variant `i` in each of the four colours. */
  method AppendColors(prefix: seq<Card>, i: nat) returns (cards: seq<Card>)
    requires i < |Variants|
    requires prefix == Deck()[..4 * i]
    ensures cards == Deck()[..4 * (i + 1)]
  {
    cards := prefix;
    var j := 0;
    while j < |Colors|
      invariant 0 <= j <= |Colors|
      invariant cards == Deck()[..4 * i + j]
    {
      SplitIndex(i, j);
      assert Deck()[4 * i + j] == Card(Variants[i], Colors[j]);
      PrefixExtend(Deck(), 4 * i + j);
      cards := cards + [Card(Variants[i], Colors[j])];
      j := j + 1;
    }
  }

  /** A prefix one longer is the prefix followed by the next element. */
  lemma PrefixExtend<T>(s: seq<T>, n: nat)
    requires n < |s|
    ensures s[..n + 1] == s[..n] + [s[n]]
  {
  }

  /** Entry 4*i + j of the coloured part decomposes back into variant i and colour j. */
  lemma SplitIndex(i: nat, j: nat)
    requires j < 4
    ensures (4 * i + j) / 4 == i && (4 * i + j) % 4 == j
  {
  }

  /** The deck has 13 x 4 + 2 = 54 entries. */
  lemma DeckSize()
    ensures |Deck()| == 54
  {
  }

  /**
   * Every deck entry of a coloured variant has one of the four concrete colours,
   * and every entry of a wild variant has colour `Wild`; the two kinds are never mixed.
   */
  lemma DeckColoring()
    ensures forall c :: c in Deck() && c.variant in Variants ==> c.color in Colors && !c.IsWild()
    ensures forall c :: c in Deck() && c.variant in WildVariants ==> c.IsWild()
    ensures forall c :: c in Deck() ==> (c.IsWild() <==> c.variant in WildVariants)
  {
    forall c | c in Deck()
      ensures c.variant in Variants ==> c.color in Colors && !c.IsWild()
      ensures c.variant in WildVariants ==> c.IsWild()
      ensures c.IsWild() <==> c.variant in WildVariants
    {
      var k :| 0 <= k < |Deck()| && Deck()[k] == c;
      if k < ColoredEntries {
        assert c == Card(Variants[k / 4], Colors[k % 4]);
      } else {
        assert c == Card(WildVariants[k - ColoredEntries], Wild);
      }
    }
  }

  /** Every combination of a coloured variant and a concrete colour is in the deck, and so is every wild variant. */
  lemma DeckComplete()
    ensures forall i, j :: 0 <= i < |Variants| && 0 <= j < |Colors| ==> Card(Variants[i], Colors[j]) in Deck()
    ensures forall w :: 0 <= w < |WildVariants| ==> Card(WildVariants[w], Wild) in Deck()
  {
    forall i, j | 0 <= i < |Variants| && 0 <= j < |Colors|
      ensures Card(Variants[i], Colors[j]) in Deck()
    {
      SplitIndex(i, j);
      assert Deck()[4 * i + j] == Card(Variants[i], Colors[j]);
    }
    forall w | 0 <= w < |WildVariants|
      ensures Card(WildVariants[w], Wild) in Deck()
    {
      assert Deck()[ColoredEntries + w] == Card(WildVariants[w], Wild);
    }
  }

  /** No card appears twice in the deck population. */
  lemma DeckDistinct()
    ensures forall a, b :: 0 <= a < b < |Deck()| ==> Deck()[a] != Deck()[b]
  {
    forall a, b | 0 <= a < b < |Deck()|
      ensures Deck()[a] != Deck()[b]
    {
      if b < ColoredEntries {
        if a / 4 == b / 4 {
          assert a % 4 != b % 4;
        } else {
          assert Variants[a / 4] != Variants[b / 4];
        }
      } else if a < ColoredEntries {
        assert !Deck()[a].IsWild();
      }
    }
  }

  /** The four reaction emojis offered for a colour choice, in the order of `COLORS_UNICODE`. */
  const ColorsUnicode: seq<string> := ["\U{1F534}", "\U{1F7E0}", "\U{1F7E2}", "\U{1F535}"]

  /** The table `COLORS_UNICODE_NAME` from reaction emoji to colour. */
  const ColorsUnicodeName: map<string, Color> :=
    map["\U{1F534}" := Red, "\U{1F7E0}" := Yellow, "\U{1F7E2}" := Green, "\U{1F535}" := Blue]

  /**
   * `to_color_name`: the colour a reaction emoji stands for. The dictionary lookup
   * raises `KeyError` for any other key, so callers pass only keys of the table.
   */
  function ToColorName(unicodeColor: string): (c: Color)
    requires unicodeColor in ColorsUnicodeName
    ensures c in Colors && c != Wild
  {
    ColorsUnicodeName[unicodeColor]
  }

  /**
   * The offered emojis and the colour table agree: every offered emoji is a key
   * (so the lookup never fails) and maps to the colour in the same position of `COLORS`.
   */
  lemma ColorTableMatchesColors()
    ensures ColorsUnicodeName.Keys == set u | u in ColorsUnicode
    ensures forall i :: 0 <= i < 4 ==> ToColorName(ColorsUnicode[i]) == Colors[i]
  {
  }

  /** A reaction accepted by the wait's `check`: absent (timeout) or one of the four offered emojis. */
  predicate ValidReaction(reaction: Option<string>): (r: bool)
    ensures r && reaction.Some? ==> reaction.value in ColorsUnicodeName
  {
    reaction.Some? ==> reaction.value in ColorsUnicode
  }

  /**
   * The colour a `change_color` card resolves to: the colour of the player's reaction,
   * or, when the 10-second wait times out, the `fallback` drawn by `random.choice(COLORS)`.
   */
  function ResolveColor(reaction: Option<string>, fallback: Color): (c: Color)
    requires ValidReaction(reaction)
    requires fallback in Colors
    ensures c in Colors && c != Wild
    ensures reaction.Some? ==> c == Colors[IndexOfEmoji(reaction.value)]
    ensures reaction.None? ==> c == fallback
  {
    match reaction
    case Some(u) => ToColorName(u)
    case None => fallback
  }

  /** The position of an offered emoji in `COLORS_UNICODE`. */
  function IndexOfEmoji(u: string): (i: nat)
    requires u in ColorsUnicode
    ensures i < |ColorsUnicode| && ColorsUnicode[i] == u
  {
    if u == ColorsUnicode[0] then 0
    else if u == ColorsUnicode[1] then 1
    else if u == ColorsUnicode[2] then 2
    else 3
  }
}
