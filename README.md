# Uno rule engine of the Discord bot, in Dafny

This project models the Uno game logic of `bot.py` with the Discord plumbing taken
away. It covers:

- the card and the fixed deck population `CARDS`;
- the player's hand;
- the `GameState` record with its turn pointer, direction and discard pile;
- the legality rule `can_play`;
- the colour resolution of a `change_color` card;
- the process-wide game list `game_states` and its lookup `get_state`;
- the state-changing steps of the `uno` and `play` commands.

Modules, leaf first:

- `Wrappers` — the `Option` type, used for Python's `None`.
- `Cards` (cards.dfy) — colours, variants and cards. The deck population `Deck()` and
  the method `BuildDeck` that builds it with the source's nested loops. The reaction
  emoji table `COLORS_UNICODE_NAME`, `to_color_name`, and the colour a wild card resolves to.
- `Rules` (rules.dfy) — the legality rule and the effect of `play` on a value view of the
  discard pile (`Board`: top card and history). It also has lemmas about single plays
  and about sequences of plays.
- `Search` (search.dfy) — the early-return searches as functions on member ids, and
  Python's `list.pop` index rule.
- `Game` (game.dfy) — the classes `Player` and `GameState`. Their fields are updated in
  place, as in the source. The looping lookups are methods proved against `Search`.
  `Play` is proved against `Rules.PlayOnBoard`.
- `Registry` (registry.dfy) — the class `GameRegistry`, which holds `game_states`. It has
  `GetState` and the two commands `StartUnoGame` (`uno`) and `PlayCard` (`play`).
- `SharedCards` (shared.dfy) — cards as mutable shared objects, as bot.py has them. It
  exists only to exhibit the finding below.

Nondeterminism and I/O become inputs:

- The cards `random.choices(CARDS, k)` returns are `picks`/`hands`; they must be deck
  entries.
- `random.choice(CARDS)` for the first top card is `top`, which must be a deck entry.
- The 10-second reaction wait is `reaction: Option<string>`. `None` means a timeout.
  `Some(e)` means a reaction that passed the wait's `check`, so `e` is one of the four
  offered emojis.
- `random.choice(COLORS)` on timeout is `fallback`, which must be a concrete colour.
- The command's arguments are `args: seq<Option<int>>`. Each one is the value of
  `int(arg)`, or `None` where that would raise `ValueError`.
- A chat user is `Member(id)`. The rules only compare ids.

What the model reproduces as bot.py does it:

- The card is popped from the hand before `can_play` is checked. So an unplayable card
  leaves the hand and the board does not change.
- Only `change_color` has an effect on the board. `reverse`, `skip`, `+2`, `+4` and the
  numerals are accepted and consumed, but change nothing.
- `turn` is never advanced, and `direction` is always `Left`.
- `pop` follows Python's index rule on index position - 1. Positions 1..n select card
  position - 1, and positions -n+1..0 count from the back (0 removes the last card).
  Every other position raises (`IndexError`, or `OverflowError` beyond the machine index
  range), which the command does not catch; the model reports this as
  `PositionOutOfRange` and changes nothing.
- `uno` checks only the initiator against running games, not the mentioned users.

Where bot.py departs from ordinary Uno rules, the model follows bot.py:

- bot.py lets a user who was mentioned join a second game. `get_state` then keeps
  finding that user's older game. This is what `StartUnoGame`'s last postcondition
  states: `Joined` keeps an existing answer.
- A rejected play does not leave the hand untouched: the card is removed first
  (`PlayCard`, `GameState.PlayFromHand`).
- `reverse` does not toggle the direction, and a numeral does not become the new top.

## Model

| member | source | states |
|---|---|---|
| `Cards.Card.IsWild` | bot.py:49-51 | A card is wild exactly when its colour is none of the four concrete colours, that is, when it is `Wild` |
| `Cards.BuildDeck` | bot.py:54-60 | The nested loops build exactly the deck population: entry 4*i + j is coloured variant i in colour j, followed by `+4` and `change_color` in colour wild |
| `Cards.Deck` | bot.py:54-60 | The population `CARDS` has one entry per coloured variant and concrete colour, plus one per wild variant |
| `Cards.AppendColors` | bot.py:56-57 | One pass of the inner loop appends variant i in each of the four colours, in the order of `COLORS`, extending the deck prefix by four entries |
| `Cards.DeckSize` | bot.py:34-35 | The deck has 13 x 4 + 2 = 54 entries |
| `Cards.DeckColoring` | bot.py:54-60 | Every deck entry of a coloured variant has one of the four concrete colours; every entry of a wild variant has colour wild; an entry is wild exactly when its variant is a wild variant |
| `Cards.DeckComplete` | bot.py:55-60 | Every coloured variant appears in every concrete colour, and every wild variant appears in colour wild |
| `Cards.DeckDistinct` | bot.py:54-60 | No two deck entries are equal, so the population has no duplicates |
| `Cards.ToColorName` | bot.py:171-172 | A key of the emoji table maps to one of the four concrete colours, never to wild |
| `Cards.ColorTableMatchesColors` | bot.py:21-33 | The keys of `COLORS_UNICODE_NAME` are exactly the offered emojis, and the i-th emoji maps to the i-th colour of `COLORS` |
| `Cards.ValidReaction` | bot.py:135-139 | A reaction the wait's `check` accepts is absent or one of the offered emojis, and so always a key of `COLORS_UNICODE_NAME` |
| `Cards.ResolveColor` | bot.py:141-147 | The resolved colour is always concrete. A reaction yields the colour in the reacted emoji's position; a timeout yields the random fallback |
| `Rules.CanPlayOn` | bot.py:109-116 | A wild card is playable on any top. A non-wild card is playable exactly when its colour or its variant equals the top's |
| `Rules.PlayOnBoard` | bot.py:129-151 | A play either leaves the board as it is or appends the old top to the history; it changes the board only for a playable card, and then the new top is `change_color` in the chosen colour |
| `Rules.PlayOnBoardEffect` | bot.py:129-151 | A playable `change_color` card appends the old top to the history and becomes the top in the chosen colour. Any other card, and any unplayable card, leaves the board unchanged |
| `Rules.ChangeColorAlwaysResolves` | bot.py:59-60 | The deck's `change_color` card is wild, so on any board its play is accepted and resolved |
| `Rules.WildTopAcceptsOnlyWild` | bot.py:89 | If the first top card drawn from the deck is wild, a deck card is playable on it exactly when that card is itself wild |
| `Rules.ColoredTopAdmits` | bot.py:109-116 | On a coloured top (variant i, colour j) the playable deck entries are exactly those of variant i, those of colour j, and the two wild ones |
| `Rules.HistoryAppendOnly` | bot.py:149 | Over any sequence of plays of deck cards, the old history stays a prefix, and it grows by exactly one entry per `change_color` play |
| `Rules.TopStaysConcrete` | bot.py:147-151 | A concrete top stays concrete under any plays. Any sequence that contains a `change_color` play ends with a concrete top |
| `Rules.BoardFrame` | bot.py:129-130 | A sequence of plays without `change_color` leaves the board unchanged |
| `Search.IndexOf` | bot.py:92-95 | It returns the first position holding the id, or `None` exactly when the id is absent |
| `Search.FirstWith` | bot.py:164-168 | It returns the first roster containing the id, or `None` exactly when no roster contains it |
| `Search.FirstWithAppend` | bot.py:203 | Appending a game never changes an existing lookup answer. A member found nowhere before is found in the new game exactly when it plays there |
| `Search.PopIndex` | bot.py:233 | `pop` succeeds exactly for indices -n..n-1, and then selects the index modulo n |
| `Search.PositionSelectsCard` | bot.py:232-233 | Position p in 1..n removes card p-1. Position 0 removes the last card. A position past the end fails |
| `Game.Player.constructor` | bot.py:64-66 | A new player has the given member and an empty hand |
| `Game.Player.Draw` | bot.py:79-81 | The hand grows by exactly k cards, the old hand stays as a prefix, and every appended card is a deck entry |
| `Game.Player.Pop` | bot.py:233 | On a valid index the card there is returned and removed, and the hand shrinks by one. On `IndexError` the hand is unchanged |
| `Game.GameState.constructor` | bot.py:85-90 | The new state has the given players, turn 0, direction left, the drawn top card and an empty history |
| `Game.GameState.GetItem` | bot.py:92-95 | It returns the first player whose member has the key as id, or null when there is none |
| `Game.GameState.IsPlaying` | bot.py:97-101 | The result is true exactly when some player's member has the member's id |
| `Game.GameState.IsTurn` | bot.py:103-107 | True exactly when the player at turn mod player count has the member's id; only a playing member can have the turn |
| `Game.ExactlyOneTurn` | bot.py:103-107 | With distinct member ids, exactly one player, the one at turn mod player count, has the turn |
| `Game.GameState.CanPlay` | bot.py:109-116 | A wild card is always playable; any other card exactly when its colour or its variant equals the current top card's |
| `Game.GameState.Play` | bot.py:127-151 | The board becomes `PlayOnBoard` of the old board, the card and the resolved colour. Players, turn and direction are unchanged |
| `Game.GameState.PlayFromHand` | bot.py:232-234 | The card at the pop index leaves the hand before the legality rule is applied, and the board changes as `Play` says. On `IndexError` neither hand nor board changes |
| `Registry.GameRegistry.constructor` | bot.py:161 | The game list starts empty |
| `Registry.GameRegistry.GetState` | bot.py:164-168 | It returns the first registered game in which the member plays, or null when there is none |
| `Registry.GameRegistry.Admit` | bot.py:216-232 | It reports each refusal of the `play` command exactly when its condition holds, in the source's order: not in a game, not exactly one argument, not on turn, not an integer. Otherwise it returns the game, the player and the index position - 1 |
| `Registry.GameRegistry.Verdict` | bot.py:216-233 | The command reaches `pop` exactly when all its checks pass and the argument is an integer; a played card is one of the author's cards |
| `Registry.GameRegistry.StartUnoGame` | bot.py:180-203 | Refused with no registry change if the initiator is in a game or nobody is mentioned; otherwise exactly one fresh game is appended whose players are fresh, pairwise distinct objects, initiator then mentions, each dealt its 5 cards, turn 0, empty history; afterwards the initiator finds the new game and each mentioned member finds its earlier game or else the new one |
| `Registry.Deal` | bot.py:193-200 | The players are fresh and pairwise distinct objects, in the order initiator then mentions, and each holds exactly its dealt cards |
| `Registry.StartedGameIsFound` | bot.py:182-183 | After appending a game whose roster starts with an initiator who was in no game, lookup finds the new game for the initiator and `Joined` answers for the others |
| `Registry.GameRegistry.PlayCard` | bot.py:214-236 | The outcome is the one `Verdict` gives for the state before the call. On a played card, exactly the card at the pop index leaves the author's hand, and that game's board follows `PlayOnBoard`. No game's turn or direction changes, whatever the outcome. Every other game's board and every other hand keep their values, and no game's player list changes |
| `SharedCards.ResolveInPlace` | bot.py:150 | The played card object itself takes the chosen colour |
| `SharedCards.CardObject.constructor` | bot.py:38-41 | A new card object holds the given variant and colour |
| `SharedCards.DrawAndResolveShared` | bot.py:80 | Drawing the `change_color` entry by reference and resolving it recolours the entry of `CARDS`. The deck then differs from the population and holds no wild `change_color` card |

## Findings

| source | as written | input that shows it | evidently intended | confidence | as-written member | corrected member |
|---|---|---|---|---|---|---|
| bot.py:80, bot.py:150 | `random.choices(CARDS, k)` puts references to the `CARDS` objects into hands, and `play` assigns `card.color` on the played object | Any player draws the `change_color` entry and plays it, choosing red. From then on `CARDS` holds `change_color (red)`. Every later draw of that entry, in any game, is a non-wild card, and every board whose top is that object changes colour with the next resolution | A resolution recolours only the card being played; the deck population and other games are unaffected | high (not executed) | `SharedCards.DrawAndResolveShared` | `Registry.GameRegistry.PlayCard` |

In the rest of the model cards are values. `GameState.Play` resolves a copy
(`card.(color := chosen)`), and `PlayCard` proves that every other hand and every other
game's board keep their values.

## Left out

- Discord I/O is not modelled: sending messages, adding reactions, `bot.wait_for`,
  command registration, intents and `bot.run`. The reaction wait is only the
  `reaction` input. The `ValueError` branch of `play` builds a reply without awaiting
  it, which is I/O and not modelled.
- Logging setup, `load_dotenv` and token loading (bot.py:12-18, bot.py:282-285) are
  process setup, not rule logic.
- Randomness is an input constrained to `CARDS` or `COLORS`. No claim about
  distributions is made.
- String rendering is not modelled: `__str__`, `__repr__`, `to_public_string`,
  `to_private_string`, `display_status`, and the welcome message of `uno`. It is display
  formatting.
- The `cards` and `uno-status` commands only read and render state. The debugging
  command `uno-give-wild`, which appends a `change_color` card to a hand, is also not
  modelled. It is a debugging aid, not game logic.
- The commands `hello`, `incr` and `value` are unrelated to the game.
- The `print` of the played card in `GameState.play` (bot.py:128) is console output.
- `Game.ExactlyOneTurn` assumes distinct member ids. `start_uno_game` does not ensure
  them: an initiator who mentions themselves joins twice (bot.py:194-200). Then two
  players carry the same id, `IsTurn` holds for both of their turn slots, and
  `__getitem__` always finds the first of them.
- The refusal of `uno` for an initiator already in a game calls `mention()`
  (bot.py:185). In discord.py versions where `mention` is a property, that call raises
  `TypeError` instead of replying. The state is unchanged either way, which is what
  `StartUnoGame` states for `AlreadyInGame`.
- Parsing of the command's argument with `int()` is not modelled. The argument arrives
  already parsed (`Option<int>`).
- `GameState.__getitem__` returning None, and `is_turn` on an empty player list
  (`ZeroDivisionError`), cannot happen on the modelled paths. The first is shown null
  and is excluded by `GetItem`'s postcondition. The second is a precondition of `IsTurn`
  that `PlayCard` always meets.
- Reverse toggling, skip and draw penalties, turn advancement, win detection and putting
  an illegally played card back are not done by bot.py, so they are not modelled.
- Async execution, concurrency and the race between a reaction and the timeout are not
  modelled. Each command runs to completion.
- Outside `SharedCards`, cards are values. The model does not capture that bot.py shares
  one card object between `CARDS`, hands and boards (see Findings).
- `Direction` has a second value, `Right`, which bot.py never assigns.
