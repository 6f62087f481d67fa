/**
 * The `Game` class of server/src/game.ts together with the game-facing
 * methods of `Player` (`draw`, `play`; `quit` is `RemovePlayer`), as pure
 * transitions over an immutable game value. Every `send()` call is left
 * out; `Sync` models the rule it applies.
 */
module GameEngine {
  import opened Wrappers
  import opened Cards
  import opened Seqs
  import opened Decks
  import opened Players

  datatype State = Waiting | Playing | Judging

  /** `last`: the judge, prompt, winning noun and winner of the previous round. */
  datatype Round = Round(judge: PlayerId, adjective: Option<Card>, noun: Card, winner: PlayerId)

  /**
   * The fields of `Game`. `deck` holds `nouns` and `discardedNouns`;
   * `judge` names a player by id where the class holds a reference.
   */
  datatype Game = Game(
    state: State,
    players: seq<Player>,
    deck: Deck,
    adjectives: seq<Card>,
    last: Option<Round>,
    adjective: Option<Card>,
    judge: Option<PlayerId>,
    cards: Option<seq<Card>>)

  /** Cards a joining player draws (`player.draw(7)`). */
  const HandSize: nat := 7

  /** Roster size that starts the first round. */
  const MinPlayers: nat := 3

  /** Every noun card in the game: both piles, every hand, every played slot. */
  function NounCards(g: Game): multiset<Card>
  {
    Contents(g.deck) + RosterCards(g.players)
  }

  /** `new Game()`: the whole noun universe starts on the discard pile. */
  function NewGame(nouns: seq<Card>): (g: Game)
    ensures g.state == Waiting && g.players == [] && g.judge.None? && g.adjective.None?
    ensures g.deck == Deck([], nouns) && g.adjectives == [] && g.last.None? && g.cards.None?
    ensures NounCards(g) == multiset(nouns)
  {
    Game(Waiting, [], Deck([], nouns), [], None, None, None, None)
  }

  // ---------------------------------------------------------------------
  // Game.play: the Playing -> Judging transition
  // ---------------------------------------------------------------------

  /**
   * `Game.play`: when every non-judge player has a played card, the game
   * moves to Judging and shows the judge those cards in shuffled order;
   * otherwise nothing changes. It does not look at `state`, and an empty
   * set of non-judges counts as "every one has played".
   */
  function Play(g: Game, shuffle: Shuffle): (r: Game)
    ensures AllNonJudgesPlayed(g.players) ==>
              && r == g.(state := Judging, cards := r.cards)
              && r.cards.Some?
              && multiset(r.cards.value) == multiset(JudgedCards(g.players))
    ensures !AllNonJudgesPlayed(g.players) ==> r == g
  {
    if AllNonJudgesPlayed(g.players) then
      g.(state := Judging, cards := Some(Shuffled(shuffle, JudgedCards(g.players))))
    else g
  }

  // ---------------------------------------------------------------------
  // Judge rotation
  // ---------------------------------------------------------------------

  /**
   * The seat `nextJudge` hands the judgeship to: seat 0 when no judge is
   * set, otherwise the seat after the first judge-flagged player, wrapping
   * (`findIndex` yields -1 when nobody is flagged, giving seat 0 too).
   */
  function NextJudgeIndex(g: Game): (j: nat)
    requires |g.players| > 0
    ensures j < |g.players|
    ensures g.judge.None? ==> j == 0
    ensures g.judge.Some? && (forall k :: 0 <= k < |g.players| ==> !g.players[k].judge) ==> j == 0
    ensures forall k :: 0 <= k < |g.players| && g.players[k].judge && g.judge.Some?
                        && (forall m :: 0 <= m < k ==> !g.players[m].judge)
                    ==> j == (k + 1) % |g.players|
  {
    if g.judge.None? then 0 else (FindIndex(g.players, (p: Player) => p.judge) + 1) % |g.players|
  }

  /**
   * `nextJudge` up to its closing `this.play()`: the current judge's flag is
   * cleared, the player at `NextJudgeIndex` is flagged, becomes `judge`, and
   * loses its played card. An empty roster just clears `judge`.
   */
  function RotateJudge(g: Game): (r: Game)
    ensures SameSeats(g.players, r.players)
    ensures r == g.(players := r.players, judge := r.judge)
    ensures |g.players| == 0 ==> r.judge.None?
    ensures |g.players| > 0 ==>
              var j := NextJudgeIndex(g);
              && r.judge == Some(g.players[j].id)
              && r.players[j].judge
              && r.players[j].played.None?
              && forall k :: 0 <= k < |g.players| && k != j ==>
                   && r.players[k].played == g.players[k].played
                   && r.players[k].judge == (g.players[k].judge && Some(g.players[k].id) != g.judge)
  {
    if |g.players| == 0 then g.(judge := None)
    else
      var j := NextJudgeIndex(g);
      var ps := if g.judge.Some? then ClearJudgeFlag(g.players, g.judge.value) else g.players;
      g.(players := ps[j := ps[j].(judge := true, played := None)], judge := Some(ps[j].id))
  }

  /** Games that agree on `judge` and on every judge flag hand the judgeship to the same seat. */
  lemma SameFlagsSameJudgeIndex(g: Game, h: Game)
    requires |g.players| == |h.players| > 0 && g.judge == h.judge
    requires forall k :: 0 <= k < |g.players| ==> g.players[k].judge == h.players[k].judge
    ensures NextJudgeIndex(g) == NextJudgeIndex(h)
  {
  }

  /**
   * `nextJudge`: rotate the judgeship, then re-run `Game.play`, which moves
   * to Judging when every non-judge of the rotated roster has played.
   */
  function NextJudge(g: Game, shuffle: Shuffle): (r: Game)
    ensures r == RotateJudge(g).(state := r.state, cards := r.cards)
    ensures AllNonJudgesPlayed(RotateJudge(g).players) ==>
              && r.state == Judging
              && r.cards.Some?
              && multiset(r.cards.value) == multiset(JudgedCards(RotateJudge(g).players))
    ensures !AllNonJudgesPlayed(RotateJudge(g).players) ==> r == RotateJudge(g)
  {
    Play(RotateJudge(g), shuffle)
  }

  // ---------------------------------------------------------------------
  // Rounds
  // ---------------------------------------------------------------------

  /** The revealed prompt and the queue left behind. */
  datatype Prompt = Prompt(adjective: Option<Card>, queue: seq<Card>)

  /**
   * The adjective half of `nextRound`: an empty queue is refilled with a
   * shuffle of the whole adjective list, then its head is revealed
   * (`shift()` of an empty queue reveals nothing).
   */
  function NextAdjective(queue: seq<Card>, allAdjectives: seq<Card>, shuffle: Shuffle): (r: Prompt)
    ensures |queue| > 0 ==> r.adjective == Some(queue[0]) && r.queue == queue[1..]
    ensures |queue| == 0 ==> SlotCards(r.adjective) + multiset(r.queue) == multiset(allAdjectives)
    ensures r.adjective.None? <==> |queue| == 0 && |allAdjectives| == 0
  {
    var full := if |queue| == 0 then Shuffled(shuffle, allAdjectives) else queue;
    if |full| == 0 then Prompt(None, full)
    else
      assert full == [full[0]] + full[1..];
      Prompt(Some(full[0]), full[1..])
  }

  /**
   * `nextRound`: rotate the judge, clear every played card and the judged
   * cards, enter Playing and reveal the next adjective. Hands, scores,
   * the noun deck and `last` are untouched.
   */
  function NextRound(g: Game, shuffle: Shuffle, allAdjectives: seq<Card>): (r: Game)
    ensures r.state == Playing && r.cards.None? && NoPlays(r.players)
    ensures SameSeats(g.players, r.players)
    ensures r.deck == g.deck && r.last == g.last
    ensures r.judge == RotateJudge(g).judge
    ensures forall k :: 0 <= k < |r.players| ==> r.players[k].judge == RotateJudge(g).players[k].judge
    ensures |g.adjectives| > 0 ==> r.adjective == Some(g.adjectives[0]) && r.adjectives == g.adjectives[1..]
    ensures |g.adjectives| == 0 ==> SlotCards(r.adjective) + multiset(r.adjectives) == multiset(allAdjectives)
    ensures r.adjective.None? <==> |g.adjectives| == 0 && |allAdjectives| == 0
  {
    var rotated := NextJudge(g, shuffle);
    assert SameSeats(g.players, rotated.players);
    assert rotated.adjectives == g.adjectives;
    var shown := NextAdjective(rotated.adjectives, allAdjectives, shuffle);
    rotated.(
      players := ClearPlays(rotated.players),
      cards := None,
      state := Playing,
      adjectives := shown.queue,
      adjective := shown.adjective)
  }

  /**
   * `stop`: back to Waiting with no judge, no adjective, no judge flags and
   * no played cards. The judged `cards` and `last` are kept.
   */
  function Stop(g: Game): (r: Game)
    ensures r.state == Waiting && r.judge.None? && r.adjective.None?
    ensures SameSeats(g.players, r.players)
    ensures forall k :: 0 <= k < |r.players| ==> !r.players[k].judge && r.players[k].played.None?
    ensures r == g.(players := r.players, state := Waiting, judge := None, adjective := None)
  {
    g.(players := StandDown(g.players), adjective := None, judge := None, state := Waiting)
  }

  // ---------------------------------------------------------------------
  // Judging
  // ---------------------------------------------------------------------

  /** `p.played?.name === card.name`. */
  predicate Authored(p: Player, card: Card)
  {
    p.played.Some? && p.played.value.name == card.name
  }

  /**
   * `find(players, p => p.played?.name === card.name)`: the first seat whose
   * played card carries the picked card's name, or -1.
   */
  function WinnerIndex(ps: seq<Player>, card: Card): (w: int)
    ensures -1 <= w < |ps|
    ensures 0 <= w ==> Authored(ps[w], card) && forall k :: 0 <= k < w ==> !Authored(ps[k], card)
    ensures w == -1 <==> forall k :: 0 <= k < |ps| ==> !Authored(ps[k], card)
  {
    FindIndex(ps, (p: Player) => Authored(p, card))
  }

  /** `++winner.score` for the winner at seat `w`. */
  function AddPoint(ps: seq<Player>, w: nat): (r: seq<Player>)
    requires w < |ps|
    ensures |r| == |ps|
    ensures r[w] == ps[w].(score := ps[w].score + 1)
    ensures forall k :: 0 <= k < |ps| && k != w ==> r[k] == ps[k]
  {
    ps[w := ps[w].(score := ps[w].score + 1)]
  }

  /**
   * The part of `pick` before its `nextRound`, for the winner at seat `w`:
   * the winner scores, `last` records the round, and every played card is
   * appended to the discard pile in roster order.
   */
  function Resolve(g: Game, w: nat, card: Card): (r: Game)
    requires w < |g.players| && g.judge.Some?
    ensures r.players == AddPoint(g.players, w)
    ensures |r.players| == |g.players|
    ensures r.players[w] == g.players[w].(score := g.players[w].score + 1)
    ensures forall k :: 0 <= k < |g.players| && k != w ==> r.players[k] == g.players[k]
    ensures r == g.(players := r.players, last := r.last, deck := r.deck)
    ensures r.last == Some(Round(g.judge.value, g.adjective, card, g.players[w].id))
    ensures r.deck == Deck(g.deck.nouns, g.deck.discardedNouns + PlayedCards(g.players))
  {
    var scored := AddPoint(g.players, w);
    PlayedCardsPointwise(g.players, scored);
    g.(
      players := scored,
      last := Some(Round(g.judge.value, g.adjective, card, g.players[w].id)),
      deck := Deck(g.deck.nouns, g.deck.discardedNouns + PlayedCards(scored)))
  }

  /**
   * `pick`, behind the guard the transport applies (the caller is the
   * judge and the game is Judging). The first player whose played card
   * has the picked name scores a point, `last` records the round, every
   * played card goes to the discard pile, and the next round starts.
   * With no such player, `++winner.score` throws before anything changes:
   * the result is None.
   */
  function Pick(g: Game, card: Card, shuffle: Shuffle, allAdjectives: seq<Card>): (r: Option<Game>)
    requires g.state == Judging && g.judge.Some?
    ensures r.None? <==> forall k :: 0 <= k < |g.players| ==> !Authored(g.players[k], card)
    ensures r.Some? ==>
              var w := WinnerIndex(g.players, card);
              && r.value.last == Some(Round(g.judge.value, g.adjective, card, g.players[w].id))
              && SameSeats(AddPoint(g.players, w), r.value.players)
    ensures r.Some? ==> r.value.deck == Deck(g.deck.nouns, g.deck.discardedNouns + PlayedCards(g.players))
    ensures r.Some? ==> r.value.state == Playing && r.value.cards.None? && NoPlays(r.value.players)
    ensures r.Some? ==>
              var j := NextJudgeIndex(g);
              && r.value.judge == Some(g.players[j].id)
              && r.value.players[j].judge
    ensures r.Some? && |g.adjectives| > 0 ==>
              r.value.adjective == Some(g.adjectives[0]) && r.value.adjectives == g.adjectives[1..]
    ensures r.Some? && |g.adjectives| == 0 ==>
              SlotCards(r.value.adjective) + multiset(r.value.adjectives) == multiset(allAdjectives)
  {
    var w := WinnerIndex(g.players, card);
    if w < 0 then None
    else
      var resolved := Resolve(g, w, card);
      var next := NextRound(resolved, shuffle, allAdjectives);
      assert SameSeats(resolved.players, next.players);
      SameFlagsSameJudgeIndex(g, resolved);
      Some(next)
  }

  /** The first author of the picked card scores one point; no one else scores. */
  lemma PickScores(g: Game, card: Card, shuffle: Shuffle, allAdjectives: seq<Card>)
    requires g.state == Judging && g.judge.Some?
    ensures var r := Pick(g, card, shuffle, allAdjectives);
            r.Some? ==>
              var w := WinnerIndex(g.players, card);
              && |r.value.players| == |g.players|
              && r.value.players[w].score == g.players[w].score + 1
              && forall k :: 0 <= k < |g.players| && k != w ==> r.value.players[k].score == g.players[k].score
  {
    var r := Pick(g, card, shuffle, allAdjectives);
    if r.Some? {
      var w := WinnerIndex(g.players, card);
      PointScored(g.players, w, r.value.players);
    }
  }

  /** A roster seated like `AddPoint(ps, w)` differs from `ps` in one score. */
  lemma PointScored(ps: seq<Player>, w: nat, qs: seq<Player>)
    requires w < |ps| && SameSeats(AddPoint(ps, w), qs)
    ensures |qs| == |ps| && qs[w].score == ps[w].score + 1
    ensures forall k :: 0 <= k < |ps| && k != w ==> qs[k].score == ps[k].score
  {
  }

  // ---------------------------------------------------------------------
  // Player actions
  // ---------------------------------------------------------------------

  /**
   * `Player.draw(n)` for the player at seat `i`: `n` cards are taken from
   * the deck, as `DrawMany` takes them, and appended to that hand; nothing
   * else changes.
   */
  function PlayerDraw(g: Game, i: nat, n: nat, shuffle: Shuffle): (r: Game)
    requires i < |g.players| && n <= Size(g.deck)
    ensures |r.players| == |g.players|
    ensures r.players == g.players[i := g.players[i].(hand := r.players[i].hand)]
    ensures |r.players[i].hand| == |g.players[i].hand| + n
    ensures r.players[i].hand[..|g.players[i].hand|] == g.players[i].hand
    ensures r == g.(players := r.players, deck := r.deck)
    ensures Contents(g.deck) == multiset(r.players[i].hand[|g.players[i].hand|..]) + Contents(r.deck)
    ensures TopDrawn(g.deck, n, DrawnMany(r.players[i].hand[|g.players[i].hand|..], r.deck))
  {
    var drawn := DrawMany(g.deck, n, shuffle);
    var p := g.players[i];
    var p' := p.(hand := p.hand + drawn.cards);
    assert p'.hand[|p.hand|..] == drawn.cards;
    g.(players := g.players[i := p'], deck := drawn.deck)
  }

  /** The guard of `Player.play`. */
  predicate MayPlay(g: Game, i: nat)
    requires i < |g.players|
  {
    !g.players[i].judge && g.players[i].played.None? && g.state == Playing
  }

  /**
   * `findIndex(hand, c => card.name === c.name)`: the first hand position
   * holding a card of that name, or -1.
   */
  function FirstNamed(hand: seq<Card>, name: string): (at: int)
    ensures -1 <= at < |hand|
    ensures 0 <= at ==> hand[at].name == name && forall k :: 0 <= k < at ==> hand[k].name != name
    ensures at == -1 <==> forall k :: 0 <= k < |hand| ==> hand[k].name != name
  {
    FindIndex(hand, (c: Card) => c.name == name)
  }

  /**
   * `hand.splice(findIndex(hand, c => card.name === c.name), 1)`: the first
   * card with that name is removed; when there is none, `findIndex` yields
   * -1 and the LAST card is removed instead.
   */
  function RemoveNamed(hand: seq<Card>, name: string): (kept: seq<Card>)
    ensures |kept| == (if |hand| == 0 then 0 else |hand| - 1)
    ensures forall m :: 0 <= m < |hand| && hand[m].name == name
                        && (forall k :: 0 <= k < m ==> hand[k].name != name)
                    ==> kept == hand[..m] + hand[m + 1..]
    ensures |hand| > 0 && (forall m :: 0 <= m < |hand| ==> hand[m].name != name) ==> kept == hand[..|hand| - 1]
  {
    SpliceOne(hand, FirstNamed(hand, name))
  }

  /**
   * The effect of a play accepted by `Player.play(card)` at seat `i`, up to
   * its `game.play()` call: `card` becomes the played card, a card is
   * removed from the hand by name (`RemoveNamed`), and one card is drawn
   * onto the end of the hand.
   */
  function SubmitCard(g: Game, i: nat, card: Card, shuffle: Shuffle): (r: Game)
    requires i < |g.players| && Size(g.deck) > 0
    ensures |r.players| == |g.players|
    ensures r.players == g.players[i := g.players[i].(hand := r.players[i].hand, played := Some(card))]
    ensures r == g.(players := r.players, deck := r.deck)
    ensures var kept := RemoveNamed(g.players[i].hand, card.name);
            && |r.players[i].hand| == |kept| + 1
            && r.players[i].hand[..|kept|] == kept
            && Contents(g.deck) == multiset(r.players[i].hand[|kept|..]) + Contents(r.deck)
            && TopDrawn(g.deck, 1, DrawnMany(r.players[i].hand[|kept|..], r.deck))
  {
    var p := g.players[i];
    var kept := RemoveNamed(p.hand, card.name);
    var p' := p.(played := Some(card), hand := kept);
    var drawn := PlayerDraw(g.(players := g.players[i := p']), i, 1, shuffle);
    UpdateTwice(g.players, i, p', p'.(hand := drawn.players[i].hand));
    drawn
  }

  /**
   * `Player.play(card)` for seat `i`: ignored unless the guard holds;
   * otherwise the card is submitted and `Game.play` decides whether the
   * round moves to Judging.
   */
  function PlayCard(g: Game, i: nat, card: Card, shuffle: Shuffle): (r: Game)
    requires i < |g.players|
    requires MayPlay(g, i) ==> Size(g.deck) > 0
    ensures !MayPlay(g, i) ==> r == g
    ensures MayPlay(g, i) ==>
              && r == SubmitCard(g, i, card, shuffle).(state := r.state, cards := r.cards)
              && (r.state == Judging <==> AllNonJudgesPlayed(r.players))
              && (r.state != Judging ==> r.state == Playing && r.cards == g.cards)
              && (r.state == Judging ==>
                    r.cards.Some? && multiset(r.cards.value) == multiset(JudgedCards(r.players)))
  {
    if !MayPlay(g, i) then g
    else Play(SubmitCard(g, i, card, shuffle), shuffle)
  }

  /**
   * A player who plays keeps a full hand: one card leaves, one is drawn.
   * Every other hand is untouched.
   */
  lemma PlayCardKeepsHandSize(g: Game, i: nat, card: Card, shuffle: Shuffle)
    requires i < |g.players| && |g.players[i].hand| > 0
    requires MayPlay(g, i) ==> Size(g.deck) > 0
    ensures var r := PlayCard(g, i, card, shuffle);
            && |r.players| == |g.players|
            && |r.players[i].hand| == |g.players[i].hand|
            && forall k :: 0 <= k < |g.players| && k != i ==> r.players[k].hand == g.players[k].hand
  {
  }

  // ---------------------------------------------------------------------
  // Roster changes
  // ---------------------------------------------------------------------

  /**
   * The first half of `createPlayer`: a new player with id `id` and name
   * `name` draws seven cards (`Player.draw(7)`, as in `PlayerDraw`) and is
   * appended to the roster.
   */
  function Join(g: Game, id: PlayerId, name: string, shuffle: Shuffle): (r: Game)
    requires HandSize <= Size(g.deck)
    ensures |r.players| == |g.players| + 1 && r.players[..|g.players|] == g.players
    ensures var p := r.players[|g.players|];
            p.id == id && p.name == name && |p.hand| == HandSize && p.score == 0 && !p.judge && p.played.None?
    ensures Contents(g.deck) == multiset(r.players[|g.players|].hand) + Contents(r.deck)
    ensures TopDrawn(g.deck, HandSize, DrawnMany(r.players[|g.players|].hand, r.deck))
    ensures r == g.(players := r.players, deck := r.deck)
  {
    var drawn := DrawMany(g.deck, HandSize, shuffle);
    var p := NewPlayer(id, name).(hand := drawn.cards);
    var r := g.(players := g.players + [p], deck := drawn.deck);
    assert r.players[..|g.players|] == g.players;
    r
  }

  /**
   * `createPlayer`: the new player joins with seven cards; reaching three
   * players starts a round (`CreatePlayerStartsRound`), otherwise nothing
   * else changes (`CreatePlayerWaits`).
   */
  function CreatePlayer(g: Game, id: PlayerId, name: string, shuffle: Shuffle, allAdjectives: seq<Card>): (r: Game)
    requires HandSize <= Size(g.deck)
    ensures |r.players| == |g.players| + 1
    ensures var p := r.players[|g.players|];
            p.id == id && p.name == name && |p.hand| == HandSize && p.score == 0 && p.played.None?
    ensures r.deck == Join(g, id, name, shuffle).deck
  {
    var joined := Join(g, id, name, shuffle);
    if |joined.players| == MinPlayers then NextRound(joined, shuffle, allAdjectives) else joined
  }

  /** Below three players, joining only seats the newcomer, who is not judge. */
  lemma CreatePlayerWaits(g: Game, id: PlayerId, name: string, shuffle: Shuffle, allAdjectives: seq<Card>)
    requires HandSize <= Size(g.deck) && |g.players| + 1 != MinPlayers
    ensures var r := CreatePlayer(g, id, name, shuffle, allAdjectives);
            && r == g.(players := r.players, deck := r.deck)
            && r.players[..|g.players|] == g.players
            && !r.players[|g.players|].judge
  {
  }

  /**
   * The third player starts a round: Playing, nothing on the table, every
   * seat kept, with no earlier judge the first seat judges, and the next
   * adjective is revealed.
   */
  lemma CreatePlayerStartsRound(g: Game, id: PlayerId, name: string, shuffle: Shuffle, allAdjectives: seq<Card>)
    requires HandSize <= Size(g.deck) && |g.players| + 1 == MinPlayers
    ensures var r := CreatePlayer(g, id, name, shuffle, allAdjectives);
            && r.state == Playing
            && r.cards.None?
            && NoPlays(r.players)
            && SameSeats(Join(g, id, name, shuffle).players, r.players)
            && (g.judge.None? ==> r.judge == Some(r.players[0].id) && r.players[0].judge)
            && (|g.adjectives| > 0 ==> r.adjective == Some(g.adjectives[0]) && r.adjectives == g.adjectives[1..])
            && (|g.adjectives| == 0 ==> SlotCards(r.adjective) + multiset(r.adjectives) == multiset(allAdjectives))
            && (r.adjective.None? <==> |g.adjectives| == 0 && |allAdjectives| == 0)
            && r.last == g.last
  {
  }

  /**
   * `removePlayer` up to its final check: the leaver's hand and played card
   * go to the discard pile, a leaving judge hands over the judgeship when
   * anyone else is seated, and the leaver's seat is spliced out. The class
   * discards before handing over; `NextJudge` leaves the deck alone, so the
   * order does not matter.
   */
  function Leave(g: Game, i: nat, shuffle: Shuffle): (r: Game)
    requires i < |g.players|
    ensures r.deck == Deck(g.deck.nouns, g.deck.discardedNouns + g.players[i].hand + SlotSeq(g.players[i].played))
    ensures |r.players| == |g.players| - 1
    ensures !g.players[i].judge || |g.players| == 1 ==>
              r == g.(players := Without(g.players, i), deck := r.deck)
    ensures g.players[i].judge && |g.players| > 1 ==>
              var handedOver := NextJudge(g, shuffle);
              && SameSeats(Without(g.players, i), r.players)
              && r.players == Without(handedOver.players, i)
              && r == handedOver.(players := r.players, deck := r.deck)
  {
    var leaver := g.players[i];
    var handedOver := if leaver.judge && |g.players| > 1 then NextJudge(g, shuffle) else g;
    SameSeatsWithout(g.players, handedOver.players, i);
    handedOver.(
      players := Without(handedOver.players, i),
      deck := Deck(g.deck.nouns, g.deck.discardedNouns + leaver.hand + SlotSeq(leaver.played)))
  }

  /**
   * `removePlayer` (and `Player.quit`) for seat `i`: after `Leave`, fewer
   * than three players stops the game, otherwise `Game.play` runs. What
   * each branch leaves behind is stated by the `RemovePlayer...` lemmas.
   */
  function RemovePlayer(g: Game, i: nat, shuffle: Shuffle): (r: Game)
    requires i < |g.players|
    ensures |r.players| == |g.players| - 1
    ensures r.deck == Deck(g.deck.nouns, g.deck.discardedNouns + g.players[i].hand + SlotSeq(g.players[i].played))
    ensures SameSeats(Without(g.players, i), r.players)
  {
    var left := Leave(g, i, shuffle);
    if |left.players| < MinPlayers then Stop(left) else Play(left, shuffle)
  }

  /**
   * Dropping below three players stops the game; the judged cards, the last
   * round and the adjective queue survive the stop.
   */
  lemma RemovePlayerStops(g: Game, i: nat, shuffle: Shuffle)
    requires i < |g.players| && |g.players| - 1 < MinPlayers
    ensures var r := RemovePlayer(g, i, shuffle);
            && r.state == Waiting && r.judge.None? && r.adjective.None?
            && (forall k :: 0 <= k < |r.players| ==> !r.players[k].judge && r.players[k].played.None?)
            && r.last == g.last && r.adjectives == g.adjectives && r.cards == Leave(g, i, shuffle).cards
  {
  }

  /**
   * With three or more left, the round moves to Judging exactly when every
   * remaining non-judge has played, and then the cards on the table are the
   * non-judges' played cards; nothing else changes after `Leave`, and a
   * departing non-judge leaves the judgeship where it was.
   */
  lemma RemovePlayerJudging(g: Game, i: nat, shuffle: Shuffle)
    requires i < |g.players| && |g.players| - 1 >= MinPlayers
    ensures var r := RemovePlayer(g, i, shuffle);
            && (AllNonJudgesPlayed(r.players) ==>
                  && r == Leave(g, i, shuffle).(state := Judging, cards := r.cards)
                  && r.cards.Some? && multiset(r.cards.value) == multiset(JudgedCards(r.players)))
            && (!AllNonJudgesPlayed(r.players) ==> r == Leave(g, i, shuffle))
            && (!g.players[i].judge ==> r.judge == g.judge)
  {
  }

  /**
   * With three or more left, a leaving judge hands the judgeship to the seat
   * `nextJudge` picks; while others still have to play, the game is what
   * `nextJudge` left, with the leaver's seat and cards gone.
   */
  lemma RemovePlayerHandsOver(g: Game, i: nat, shuffle: Shuffle)
    requires i < |g.players| && |g.players| - 1 >= MinPlayers && g.players[i].judge
    ensures var r := RemovePlayer(g, i, shuffle);
            && r.judge == Some(g.players[NextJudgeIndex(g)].id)
            && (!AllNonJudgesPlayed(r.players) ==>
                  r == NextJudge(g, shuffle).(players := r.players, deck := r.deck))
  {
  }

  /**
   * With three or more left, a non-judge leaving while others still have to
   * play changes nothing but the roster and the discard pile.
   */
  lemma RemovePlayerContinues(g: Game, i: nat, shuffle: Shuffle)
    requires i < |g.players| && |g.players| - 1 >= MinPlayers && !g.players[i].judge
    ensures var r := RemovePlayer(g, i, shuffle);
            !AllNonJudgesPlayed(r.players) ==>
              r == g.(players := Without(g.players, i), deck := r.deck)
  {
  }
}
