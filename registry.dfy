/**
 * The process-wide list `game_states` with its lookup `get_state` (bot.py:161-168) and
 * the state-changing steps of the `uno` and `play` commands (bot.py:180-236).
 */
module Registry {
  import opened Wrappers
  import opened Cards
  import opened Rules
  import opened Search
  import opened Game

  /** What the `uno` command does: refuse, or start a new game. */
  datatype StartOutcome = AlreadyInGame | NoMentions | Started(state: GameState)

  /** What the `play` command does: one of its refusals, or a card handed to `play`. */
  datatype PlayOutcome =
    | NotInGame           // "You are not in a game"
    | NeedPosition        // not exactly one argument
    | NotYourTurn
    | NotAnInteger        // `int(args[0])` raised `ValueError`
    | PositionOutOfRange  // `pop` raised (`IndexError`, or `OverflowError`), which the command does not catch
    | Played(card: Card)

  class GameRegistry {
    var games: seq<GameState>

    constructor ()
      ensures games == []
    {
      games := [];
    }

    /** The member ids of every registered game, in registration order. */
    ghost function Rosters(): (rs: seq<seq<int>>)
      reads this, games
      ensures |rs| == |games|
      ensures forall k :: 0 <= k < |games| ==> rs[k] == MemberIds(games[k].players)
    {
      seq(|games|, k requires 0 <= k < |games| reads this, games => MemberIds(games[k].players))
    }

    /** The index of the game `get_state` finds for member id `id`. */
    ghost function FirstGame(id: int): Option<nat>
      reads this, games
    {
      FirstWith(Rosters(), id)
    }

    /** Every player of every registered game. */
    ghost function AllPlayers(): set<Player>
      reads this, games
    {
      set k, i | 0 <= k < |games| && 0 <= i < |games[k].players| :: games[k].players[i]
    }

    /** `get_state(member)`: the first registered game in which `member` plays, or `None` (null). */
    method GetState(member: Member) returns (s: GameState?)
      ensures FirstGame(member.id).None? ==> s == null
      ensures FirstGame(member.id).Some? ==> s == games[FirstGame(member.id).value]
    {
      var k := 0;
      while k < |games|
        invariant 0 <= k <= |games|
        invariant forall j :: 0 <= j < k ==> member.id !in Rosters()[j]
      {
        var playing := games[k].IsPlaying(member);
        if playing {
          assert member.id in Rosters()[k];
          assert FirstGame(member.id) == Some(k) by {
            var r := FirstWith(Rosters(), member.id);
            assert r.Some? && !(r.value < k) && !(k < r.value);
          }
          return games[k];
        }
        k := k + 1;
      }
      return null;
    }

    /**
     * The `uno` command. `initiator` is the message author and `mentions` the users
     * mentioned; `hands[i]` are the cards dealt to the i-th player (initiator first) and
     * `top` the first top card, both sampled from the deck. Only the initiator is checked
     * against the running games.
     */
    method StartUnoGame(initiator: Member, mentions: seq<Member>, hands: seq<seq<Card>>, top: Card)
      returns (r: StartOutcome)
      requires |hands| == |mentions| + 1
      requires forall i :: 0 <= i < |hands| ==> |hands[i]| == StartingCards
      requires forall i, c :: 0 <= i < |hands| && c in hands[i] ==> c in Deck()
      requires top in Deck()
      modifies this
      ensures r.AlreadyInGame? <==> old(FirstGame(initiator.id)).Some?
      ensures r.NoMentions? <==> old(FirstGame(initiator.id)).None? && |mentions| == 0
      ensures !r.Started? ==> games == old(games)
      ensures r.Started? ==>
        && fresh(r.state)
        && games == old(games) + [r.state]
        && (forall i :: 0 <= i < |r.state.players| ==> fresh(r.state.players[i]))
        && (forall i, j :: 0 <= i < j < |r.state.players| ==> r.state.players[i] != r.state.players[j])
        && MemberIds(r.state.players) == [initiator.id] + Ids(mentions)
        && (forall i :: 0 <= i < |hands| ==> r.state.players[i].cards == hands[i])
        && r.state.turn == 0 && r.state.direction == Left
        && r.state.boardTop == top && r.state.boardHistory == []
      ensures r.Started? ==> Rosters() == old(Rosters()) + [MemberIds(r.state.players)]
      ensures r.Started? ==> FirstGame(initiator.id) == Some(|old(games)|)
      ensures r.Started? ==> forall i :: 0 <= i < |mentions| ==>
        FirstGame(mentions[i].id) == Joined(old(FirstGame(mentions[i].id)), |old(games)|)
    {
      var existing := GetState(initiator);
      if existing != null {
        return AlreadyInGame;
      }
      if |mentions| == 0 {
        return NoMentions;
      }
      var players := Deal(initiator, mentions, hands);
      var state := new GameState(players, top);
      games := games + [state];
      assert Rosters() == old(Rosters()) + [MemberIds(players)];
      StartedGameIsFound(old(Rosters()), initiator.id, Ids(mentions));
      return Started(state);
    }

    /** The game `get_state` finds for member id `id`. */
    ghost function GameOf(id: int): (g: GameState)
      requires FirstGame(id).Some?
      reads this, games
      ensures g in games && id in MemberIds(g.players)
    {
      games[FirstGame(id).value]
    }

    /** The player `state[id]` finds in that game. */
    ghost function PlayerOf(id: int): (p: Player)
      requires FirstGame(id).Some?
      reads this, games
      ensures p in GameOf(id).players && p.member.id == id
    {
      GameOf(id).players[IndexOf(MemberIds(GameOf(id).players), id).value]
    }

    /** The checks of the `play` command before the card is taken out: in a game, one argument, on turn. */
    ghost predicate Admitted(author: Member, args: seq<Option<int>>)
      reads this, games
    {
      && FirstGame(author.id).Some?
      && |args| == 1
      && GameOf(author.id).IsTurn(author)
    }

    /**
     * What the `play` command reports for `author` and `args` in the current state:
     * the first check that fails, or the card `pop` takes out of the author's hand.
     */
    ghost function Verdict(author: Member, args: seq<Option<int>>): (r: PlayOutcome)
      reads this, games, AllPlayers()
      ensures (r.Played? || r.PositionOutOfRange?) <==> Admitted(author, args) && args[0].Some?
      ensures r.Played? ==> r.card in PlayerOf(author.id).cards
    {
      if FirstGame(author.id).None? then NotInGame
      else if |args| != 1 then NeedPosition
      else if !GameOf(author.id).IsTurn(author) then NotYourTurn
      else if args[0].None? then NotAnInteger
      else
        var hand := PlayerOf(author.id).cards;
        match PopIndex(|hand|, args[0].value - 1)
        case None => PositionOutOfRange
        case Some(i) => Played(hand[i])
    }

    /**
     * The checks of the `play` command before a card is taken out (bot.py:216-232):
     * either the refusal it reports, or the game, the player and the `pop` index to use.
     */
    method Admit(author: Member, args: seq<Option<int>>)
      returns (refusal: Option<PlayOutcome>, state: GameState?, player: Player?, cardIdx: int)
      ensures refusal == Some(NotInGame) <==> FirstGame(author.id).None?
      ensures refusal == Some(NeedPosition) <==> FirstGame(author.id).Some? && |args| != 1
      ensures refusal == Some(NotYourTurn) <==>
        FirstGame(author.id).Some? && |args| == 1 && !GameOf(author.id).IsTurn(author)
      ensures refusal == Some(NotAnInteger) <==> Admitted(author, args) && args[0].None?
      ensures refusal.None? <==> Admitted(author, args) && args[0].Some?
      ensures refusal.None? ==>
        && state == GameOf(author.id) && player == PlayerOf(author.id)
        && cardIdx == args[0].value - 1
    {
      state := GetState(author);
      player := null;
      cardIdx := 0;
      if state == null {
        return Some(NotInGame), state, player, cardIdx;
      }
      if |args| != 1 {
        return Some(NeedPosition), state, player, cardIdx;
      }
      if !state.IsTurn(author) {
        return Some(NotYourTurn), state, player, cardIdx;
      }
      player := state.GetItem(author.id);
      if args[0].None? {
        return Some(NotAnInteger), state, player, cardIdx;
      }
      cardIdx := args[0].value - 1;
      refusal := None;
    }

    /**
     * The `play` command. `args` are the command's arguments, each the value of `int(arg)`
     * or `None` where that raises `ValueError`; `reaction` and `fallback` resolve a colour
     * choice as in `GameState.Play`. The outcome is the one `Verdict` predicts; `state` and
     * `player` are the game and the player acted on. The card is taken out of the hand
     * before `play` checks it, so a card that is not playable is removed all the same.
     */
    method PlayCard(author: Member, args: seq<Option<int>>, reaction: Option<string>, fallback: Color)
      returns (r: PlayOutcome, state: GameState?, player: Player?)
      requires ValidReaction(reaction) && fallback in Colors
      modifies games, AllPlayers()
      ensures games == old(games)
      ensures forall k :: 0 <= k < |games| ==>
        && games[k].players == old(games[k].players)
        && games[k].turn == old(games[k].turn) && games[k].direction == old(games[k].direction)
      ensures r == old(Verdict(author, args))
      ensures r.Played? ==> old(Admitted(author, args)) && args[0].Some?
      ensures r.Played? ==> state == old(GameOf(author.id)) && player == old(PlayerOf(author.id))
      ensures r.Played? ==>
        var hand := old(player.cards);
        var i := PopIndex(|hand|, args[0].value - 1).value;
        && PopIndex(|hand|, args[0].value - 1).Some?
        && r.card == hand[i]
        && player.cards == hand[..i] + hand[i + 1..]
      ensures r.Played? ==>
        && state.Pile() == PlayOnBoard(old(state.Pile()), r.card, ResolveColor(reaction, fallback))
        && state.turn == old(state.turn) && state.direction == old(state.direction)
      ensures forall k :: 0 <= k < |games| && (!r.Played? || games[k] != state) ==>
        games[k].Pile() == old(games[k].Pile())
      ensures forall k, i ::
        0 <= k < |games| && 0 <= i < |games[k].players| &&
        (!r.Played? || games[k].players[i] != player)
        ==> games[k].players[i].cards == old(games[k].players[i].cards)
    {
      ghost var verdict := Verdict(author, args);
      var refusal, cardIdx;
      refusal, state, player, cardIdx := Admit(author, args);
      if refusal.Some? {
        return refusal.value, state, player;
      }
      assert player in AllPlayers() by {
        var k := FirstGame(author.id).value;
        var j := IndexOf(MemberIds(state.players), author.id).value;
        assert player == games[k].players[j];
      }
      var card := state.PlayFromHand(player, cardIdx, reaction, fallback);
      if card.None? {
        assert verdict == PositionOutOfRange;
        return PositionOutOfRange, state, player;
      }
      assert verdict == Played(card.value);
      return Played(card.value), state, player;
    }
  }

  /** Where `get_state` finds a member after a game was appended at index `n`. */
  function Joined(before: Option<nat>, n: nat): (r: Option<nat>)
    ensures before.Some? ==> r == before
    ensures before.None? ==> r == Some(n)
  {
    if before.Some? then before else Some(n)
  }

  /**
   * The new game's players deal in order: the initiator first, then each mentioned
   * member, each receiving their `hands` entry through `draw(STARTING_CARDS)`.
   */
  method Deal(initiator: Member, mentions: seq<Member>, hands: seq<seq<Card>>) returns (players: seq<Player>)
    requires |hands| == |mentions| + 1
    requires forall i :: 0 <= i < |hands| ==> |hands[i]| == StartingCards
    requires forall i, c :: 0 <= i < |hands| && c in hands[i] ==> c in Deck()
    ensures |players| == |hands|
    ensures forall j :: 0 <= j < |players| ==> fresh(players[j])
    ensures forall i, j :: 0 <= i < j < |players| ==> players[i] != players[j]
    ensures MemberIds(players) == [initiator.id] + Ids(mentions)
    ensures forall j :: 0 <= j < |players| ==> players[j].cards == hands[j]
  {
    var p := new Player(initiator);
    p.Draw(StartingCards, hands[0]);
    players := [p];
    var i := 0;
    while i < |mentions|
      invariant 0 <= i <= |mentions|
      invariant |players| == i + 1
      invariant forall j :: 0 <= j < |players| ==> fresh(players[j])
      invariant forall i, j :: 0 <= i < j < |players| ==> players[i] != players[j]
      invariant MemberIds(players) == [initiator.id] + Ids(mentions[..i])
      invariant forall j :: 0 <= j < |players| ==> players[j].cards == hands[j]
    {
      p := new Player(mentions[i]);
      p.Draw(StartingCards, hands[i + 1]);
      assert mentions[..i + 1] == mentions[..i] + [mentions[i]];
      players := players + [p];
      i := i + 1;
    }
    assert mentions[..i] == mentions;
  }

  /**
   * After a game with roster `[initiator] + others` is appended to games none of which
   * holds the initiator, `get_state` finds the new game for the initiator, and for each
   * other member finds the game it found before or, failing that, the new game.
   */
  lemma StartedGameIsFound(rosters: seq<seq<int>>, initiator: int, others: seq<int>)
    requires FirstWith(rosters, initiator).None?
    ensures FirstWith(rosters + [[initiator] + others], initiator) == Some(|rosters|)
    ensures forall i :: 0 <= i < |others| ==>
      FirstWith(rosters + [[initiator] + others], others[i]) == Joined(FirstWith(rosters, others[i]), |rosters|)
  {
    var roster := [initiator] + others;
    FirstWithAppend(rosters, roster, initiator);
    forall i | 0 <= i < |others|
      ensures FirstWith(rosters + [roster], others[i]) == Joined(FirstWith(rosters, others[i]), |rosters|)
    {
      assert roster[i + 1] == others[i];
      FirstWithAppend(rosters, roster, others[i]);
    }
  }
}
