/**
 * The objects of one Uno game (bot.py:63-151): players holding their hands and the
 * game state with its turn pointer, direction and discard pile.
 */
module Game {
  import opened Wrappers
  import opened Cards
  import opened Rules
  import opened Search

  /** The chat user behind a player; the rules only compare users by `id`. */
  datatype Member = Member(id: int)

  /** The values `direction` can take; bot.py only ever sets `Left`. */
  datatype Direction = Left | Right

  /** The ids of a list of members, in order. */
  function Ids(members: seq<Member>): (ids: seq<int>)
    ensures |ids| == |members|
    ensures forall i :: 0 <= i < |members| ==> ids[i] == members[i].id
  {
    seq(|members|, i requires 0 <= i < |members| => members[i].id)
  }

  /** The member ids of a list of players, in order: `Ids` of their members. */
  function MemberIds(players: seq<Player>): (ids: seq<int>)
    ensures |ids| == |players|
    ensures forall i :: 0 <= i < |players| ==> ids[i] == players[i].member.id
  {
    seq(|players|, i requires 0 <= i < |players| => players[i].member.id)
  }

  /** `Player`: a member and the ordered list of cards in their hand. */
  class Player {
    const member: Member
    var cards: seq<Card>

    constructor (member: Member)
      ensures this.member == member && cards == []
    {
      this.member := member;
      cards := [];
    }

    /**
     * `draw(k)`: appends `k` cards; `picks` are the cards `random.choices(CARDS, k=k)`
     * returns, so each is an entry of the deck.
     */
    method Draw(k: nat, picks: seq<Card>)
      requires |picks| == k
      requires forall c :: c in picks ==> c in Deck()
      modifies this
      ensures cards == old(cards) + picks
      ensures |cards| == old(|cards|) + k
      ensures cards[..old(|cards|)] == old(cards)
      ensures forall i :: old(|cards|) <= i < |cards| ==> cards[i] in Deck()
    {
      cards := cards + picks;
    }

    /**
     * `cards.pop(idx)` with Python's index rule: on success the card at the resolved
     * index is removed and returned; on `IndexError` (`None`) the hand is unchanged.
     */
    method Pop(idx: int) returns (card: Option<Card>)
      modifies this
      ensures PopIndex(old(|cards|), idx).None? ==> card.None? && cards == old(cards)
      ensures PopIndex(old(|cards|), idx).Some? ==>
        var i := PopIndex(old(|cards|), idx).value;
        && card == Some(old(cards)[i])
        && cards == old(cards)[..i] + old(cards)[i + 1..]
        && |cards| == old(|cards|) - 1
    {
      match PopIndex(|cards|, idx)
      case None =>
        card := None;
      case Some(i) =>
        card := Some(cards[i]);
        cards := cards[..i] + cards[i + 1..];
    }
  }

  /** `GameState`: the players in turn order, the turn counter, direction and discard pile. */
  class GameState {
    var players: seq<Player>
    var turn: int
    var direction: Direction
    var boardTop: Card
    var boardHistory: seq<Card>

    /** `GameState(players)`: `top` is the card `random.choice(CARDS)` picks. */
    constructor (players: seq<Player>, top: Card)
      requires top in Deck()
      ensures this.players == players
      ensures turn == 0 && direction == Left
      ensures boardTop == top && boardHistory == []
    {
      this.players := players;
      turn := 0;
      direction := Left;
      boardTop := top;
      boardHistory := [];
    }

    /** The discard pile as a value. */
    function Pile(): Board
      reads this
    {
      Board(boardTop, boardHistory)
    }

    /** `state[key]`: the first player whose member has id `key`, or `None` (null). */
    method GetItem(key: int) returns (p: Player?)
      ensures IndexOf(MemberIds(players), key).None? ==> p == null
      ensures IndexOf(MemberIds(players), key).Some? ==> p == players[IndexOf(MemberIds(players), key).value]
    {
      var i := 0;
      while i < |players|
        invariant 0 <= i <= |players|
        invariant key !in MemberIds(players)[..i]
      {
        if players[i].member.id == key {
          assert MemberIds(players)[i] == key;
          return players[i];
        }
        i := i + 1;
      }
      assert MemberIds(players)[..i] == MemberIds(players);
      return null;
    }

    /** `is_playing(member)`: some player's member has the id of `member`. */
    method IsPlaying(member: Member) returns (b: bool)
      ensures b <==> member.id in MemberIds(players)
    {
      var i := 0;
      while i < |players|
        invariant 0 <= i <= |players|
        invariant member.id !in MemberIds(players)[..i]
      {
        if players[i].member.id == member.id {
          assert MemberIds(players)[i] == member.id;
          return true;
        }
        i := i + 1;
      }
      assert MemberIds(players)[..i] == MemberIds(players);
      return false;
    }

    /**
     * `is_turn(member)`: the player at `turn mod len(players)` has the id of `member`.
     * Python's `%` and Dafny's agree here because the divisor is positive; an empty
     * player list would raise `ZeroDivisionError`.
     */
    function IsTurn(member: Member): (r: bool)
      reads this
      requires |players| > 0
      ensures r ==> member.id in MemberIds(players)
      ensures r <==> MemberIds(players)[turn % |players|] == member.id
    {
      players[turn % |players|].member.id == member.id
    }

    /**
     * `can_play(card)` against the current top card: a wild card always, any other card
     * exactly when it matches the top card's colour or variant.
     */
    function CanPlay(card: Card): (r: bool)
      reads this
      ensures card.IsWild() ==> r
      ensures !card.IsWild() ==> (r <==> boardTop.color == card.color || boardTop.variant == card.variant)
    {
      CanPlayOn(boardTop, card)
    }

    /**
     * The rule part of `play(card)`: a playable `change_color` card waits for a colour
     * (a valid `reaction`, or `fallback` on timeout), pushes the old top onto the history
     * and becomes the new top in that colour. Nothing else changes.
     */
    method Play(card: Card, reaction: Option<string>, fallback: Color)
      requires ValidReaction(reaction) && fallback in Colors
      modifies this
      ensures Pile() == PlayOnBoard(old(Pile()), card, ResolveColor(reaction, fallback))
      ensures players == old(players) && turn == old(turn) && direction == old(direction)
    {
      if CanPlay(card) {
        if card.variant == ChangeColor {
          var colorName := ResolveColor(reaction, fallback);
          boardHistory := boardHistory + [boardTop];
          boardTop := card.(color := colorName);
        }
      }
    }

    /**
     * bot.py:232-234: pop the card at `idx` from `player`'s hand, then hand it to
     * `play`. When `pop` raises `IndexError` nothing changes.
     */
    method PlayFromHand(player: Player, idx: int, reaction: Option<string>, fallback: Color)
      returns (card: Option<Card>)
      requires player in players
      requires ValidReaction(reaction) && fallback in Colors
      modifies this, player
      ensures PopIndex(old(|player.cards|), idx).None? ==>
        card.None? && player.cards == old(player.cards) && Pile() == old(Pile())
      ensures PopIndex(old(|player.cards|), idx).Some? ==>
        var i := PopIndex(old(|player.cards|), idx).value;
        && card == Some(old(player.cards)[i])
        && player.cards == old(player.cards)[..i] + old(player.cards)[i + 1..]
        && Pile() == PlayOnBoard(old(Pile()), card.value, ResolveColor(reaction, fallback))
      ensures players == old(players) && turn == old(turn) && direction == old(direction)
    {
      card := player.Pop(idx);
      if card.Some? {
        Play(card.value, reaction, fallback);
      }
    }
  }

  /** Exactly one player holds the turn when member ids are distinct. */
  lemma ExactlyOneTurn(g: GameState)
    requires |g.players| > 0
    requires forall i, j :: 0 <= i < j < |g.players| ==> g.players[i].member.id != g.players[j].member.id
    ensures g.IsTurn(g.players[g.turn % |g.players|].member)
    ensures forall i :: 0 <= i < |g.players| && g.IsTurn(g.players[i].member) ==> i == g.turn % |g.players|
  {
  }
}
