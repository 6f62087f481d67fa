/**
 * Card accounting for the transitions of `GameEngine`. A noun card lives
 * on the draw pile, the discard pile, in a hand or in a played slot
 * (`NounCards`). Drawing, playing a held card, picking and seating a
 * player keep every card somewhere; `nextJudge` and `stop` delete played
 * cards without discarding them, and the lemmas below say exactly which.
 */
module Conservation {
  import opened Wrappers
  import opened Cards
  import opened Decks
  import opened Players
  import opened GameEngine

  /** `Game.play` moves no card: it only shows the played cards. */
  lemma PlayKeepsCards(g: Game, shuffle: Shuffle)
    ensures NounCards(Play(g, shuffle)) == NounCards(g)
  {
  }

  /**
   * A step that replaces the player at seat `i` by `q` and takes `moved`
   * from the deck, where `q` holds `rest` plus the moved cards.
   */
  lemma SeatAccount(g: Game, r: Game, i: nat, q: Player, rest: multiset<Card>, moved: multiset<Card>)
    requires i < |g.players| && r.players == g.players[i := q]
    requires Contents(g.deck) == moved + Contents(r.deck)
    requires Held(q) == rest + moved
    ensures NounCards(r) + Held(g.players[i]) == NounCards(g) + rest
  {
    RosterCardsUpdate(g.players, i, q);
    Exchange(Contents(g.deck), Contents(r.deck), RosterCards(g.players), RosterCards(r.players),
             Held(g.players[i]), Held(q), rest, moved);
  }

  /** `Player.draw(n)` moves `n` cards from the deck into one hand. */
  lemma PlayerDrawConserves(g: Game, i: nat, n: nat, shuffle: Shuffle)
    requires i < |g.players| && n <= Size(g.deck)
    ensures NounCards(PlayerDraw(g, i, n, shuffle)) == NounCards(g)
  {
    var r := PlayerDraw(g, i, n, shuffle);
    var p, q := g.players[i], r.players[i];
    MultisetSplit(q.hand, |p.hand|);
    SeatAccount(g, r, i, q, Held(p), multiset(q.hand[|p.hand|..]));
    Cancel(NounCards(r), NounCards(g), Held(p));
  }

  /**
   * An accepted play, before `Game.play`: the hand loses the spliced card,
   * gains the drawn one, and `card` lands in the played slot.
   */
  lemma {:induction false} SubmitCardAccount(g: Game, i: nat, card: Card, shuffle: Shuffle)
    requires i < |g.players| && Size(g.deck) > 0 && g.players[i].played.None?
    ensures NounCards(SubmitCard(g, i, card, shuffle)) + multiset(g.players[i].hand)
            == NounCards(g) + (multiset(RemoveNamed(g.players[i].hand, card.name)) + multiset{card})
  {
    SubmitAccount(g, SubmitCard(g, i, card, shuffle), i, card, RemoveNamed(g.players[i].hand, card.name));
  }

  /** `SubmitCardAccount` over the facts `SubmitCard` promises. */
  lemma SubmitAccount(g: Game, r: Game, i: nat, card: Card, kept: seq<Card>)
    requires i < |g.players| && g.players[i].played.None? && |r.players| == |g.players|
    requires r.players == g.players[i := g.players[i].(hand := r.players[i].hand, played := Some(card))]
    requires |r.players[i].hand| == |kept| + 1 && r.players[i].hand[..|kept|] == kept
    requires Contents(g.deck) == multiset(r.players[i].hand[|kept|..]) + Contents(r.deck)
    ensures NounCards(r) + multiset(g.players[i].hand) == NounCards(g) + (multiset(kept) + multiset{card})
  {
    var q := r.players[i];
    var drawn := multiset(q.hand[|kept|..]);
    MultisetSplit(q.hand, |kept|);
    assert Held(q) == multiset(kept) + multiset{card} + drawn;
    SeatAccount(g, r, i, q, multiset(kept) + multiset{card}, drawn);
  }

  /**
   * Splicing out a held card by name, when every hand card of that name is
   * that card, removes exactly that card.
   */
  lemma RemoveNamedHeld(hand: seq<Card>, card: Card)
    requires card in hand
    requires forall k :: 0 <= k < |hand| && hand[k].name == card.name ==> hand[k] == card
    ensures multiset(RemoveNamed(hand, card.name)) + multiset{card} == multiset(hand)
  {
    var m := FirstNamed(hand, card.name);
    assert m >= 0 by {
      var k :| 0 <= k < |hand| && hand[k] == card;
      assert hand[k].name == card.name;
    }
    assert hand == hand[..m] + [card] + hand[m + 1..];
  }

  /** Splicing by a name no hand card carries removes the last card. */
  lemma RemoveNamedAbsent(hand: seq<Card>, name: string)
    requires |hand| > 0
    requires forall k :: 0 <= k < |hand| ==> hand[k].name != name
    ensures multiset(RemoveNamed(hand, name)) + multiset{hand[|hand| - 1]} == multiset(hand)
  {
    assert hand == hand[..|hand| - 1] + [hand[|hand| - 1]];
  }

  /**
   * A play of a card the player holds, where every hand card of that name
   * is that card, keeps every noun card in the game.
   */
  lemma {:induction false} PlayCardConserves(g: Game, i: nat, card: Card, shuffle: Shuffle)
    requires i < |g.players| && Size(g.deck) > 0
    requires card in g.players[i].hand
    requires forall k :: 0 <= k < |g.players[i].hand| && g.players[i].hand[k].name == card.name ==>
               g.players[i].hand[k] == card
    ensures NounCards(PlayCard(g, i, card, shuffle)) == NounCards(g)
  {
    if MayPlay(g, i) {
      var submitted := SubmitCard(g, i, card, shuffle);
      RemoveNamedHeld(g.players[i].hand, card);
      SubmitCardAccount(g, i, card, shuffle);
      Cancel(NounCards(submitted), NounCards(g), multiset(g.players[i].hand));
      PlayKeepsCards(submitted, shuffle);
    }
  }

  /**
   * A play of a card whose name no hand card carries (`findIndex` yields
   * -1): the LAST hand card disappears and `card` appears from nowhere.
   */
  lemma {:induction false} PlayCardAbsent(g: Game, i: nat, card: Card, shuffle: Shuffle)
    requires i < |g.players| && MayPlay(g, i) && Size(g.deck) > 0
    requires |g.players[i].hand| > 0
    requires forall k :: 0 <= k < |g.players[i].hand| ==> g.players[i].hand[k].name != card.name
    ensures var hand := g.players[i].hand;
            NounCards(PlayCard(g, i, card, shuffle)) + multiset{hand[|hand| - 1]}
            == NounCards(g) + multiset{card}
  {
    var hand := g.players[i].hand;
    var submitted := SubmitCard(g, i, card, shuffle);
    var kept := multiset(RemoveNamed(hand, card.name));
    RemoveNamedAbsent(hand, card.name);
    SubmitCardAccount(g, i, card, shuffle);
    Swap(NounCards(submitted), NounCards(g), multiset(hand), kept, hand[|hand| - 1], card);
    PlayKeepsCards(submitted, shuffle);
  }

  /**
   * `stop` deletes every played card without discarding it (the
   * `delete player.played` of its loop): exactly those cards are lost.
   */
  lemma StopLeak(g: Game)
    ensures NounCards(g) == NounCards(Stop(g)) + multiset(PlayedCards(g.players))
  {
    var r := Stop(g);
    DropPlaysCards(g.players, r.players);
  }

  /**
   * `nextRound` clears every played slot; whatever was still played when it
   * ran is lost. (`pick` discards them first, so nothing is lost there.)
   */
  lemma NextRoundDropsPlays(g: Game, shuffle: Shuffle, allAdjectives: seq<Card>)
    ensures NounCards(g) == NounCards(NextRound(g, shuffle, allAdjectives)) + multiset(PlayedCards(g.players))
  {
    var r := NextRound(g, shuffle, allAdjectives);
    DropPlaysCards(g.players, r.players);
  }

  /**
   * Taking one seat's played card away: the roster loses exactly that
   * card.
   */
  lemma ClearSlotAccount(ps: seq<Player>, j: nat)
    requires j < |ps|
    ensures RosterCards(ps) == RosterCards(ps[j := ps[j].(played := None)]) + SlotCards(ps[j].played)
  {
    var p := ps[j];
    var p' := p.(played := None);
    RosterCardsUpdate(ps, j, p');
    assert Held(p) == Held(p') + SlotCards(p.played);
    Cancel(RosterCards(ps), RosterCards(ps[j := p']) + SlotCards(p.played), Held(p'));
  }

  /**
   * `nextJudge` deletes the incoming judge's played card without
   * discarding it: that card, if any, is lost, and nothing else.
   */
  lemma {:induction false} NextJudgeLeak(g: Game, shuffle: Shuffle)
    requires |g.players| > 0
    ensures NounCards(g) == NounCards(NextJudge(g, shuffle)) + SlotCards(g.players[NextJudgeIndex(g)].played)
  {
    var j := NextJudgeIndex(g);
    var r := NextJudge(g, shuffle);
    ClearSlotAccount(g.players, j);
    RotatedRoster(g);
    assert r.players == RotateJudge(g).players && r.deck == g.deck;
    Regroup(Contents(g.deck), RosterCards(r.players), SlotCards(g.players[j].played));
  }

  /** The rotation holds the cards of the roster with the incoming judge's slot cleared. */
  lemma {:induction false} RotatedRoster(g: Game)
    requires |g.players| > 0
    ensures var j := NextJudgeIndex(g);
            RosterCards(g.players[j := g.players[j].(played := None)]) == RosterCards(RotateJudge(g).players)
  {
    var j := NextJudgeIndex(g);
    var cleared := g.players[j := g.players[j].(played := None)];
    assert SameSeats(cleared, RotateJudge(g).players);
    SameSeatsSameCards(cleared, RotateJudge(g).players);
  }

  /** `pick` discards every played card before clearing them. */
  lemma {:induction false} PickConserves(g: Game, card: Card, shuffle: Shuffle, allAdjectives: seq<Card>)
    requires g.state == Judging && g.judge.Some?
    ensures var r := Pick(g, card, shuffle, allAdjectives);
            r.Some? ==> NounCards(r.value) == NounCards(g)
  {
    var r := Pick(g, card, shuffle, allAdjectives);
    if r.Some? {
      PickAccount(g, r.value, WinnerIndex(g.players, card));
    }
  }

  /** `PickConserves` over the facts `Pick` promises. */
  lemma PickAccount(g: Game, r: Game, w: nat)
    requires w < |g.players|
    requires SameSeats(AddPoint(g.players, w), r.players) && NoPlays(r.players)
    requires r.deck == Deck(g.deck.nouns, g.deck.discardedNouns + PlayedCards(g.players))
    ensures NounCards(r) == NounCards(g)
  {
    var scored := AddPoint(g.players, w);
    var played := multiset(PlayedCards(g.players));
    RosterCardsUpdate(g.players, w, scored[w]);
    Cancel(RosterCards(scored), RosterCards(g.players), Held(g.players[w]));
    PlayedCardsPointwise(g.players, scored);
    DropPlaysCards(scored, r.players);
    Move(Contents(g.deck), Contents(r.deck), RosterCards(g.players), RosterCards(r.players), played);
  }

  /** Seating a newcomer moves the seven drawn cards from the deck to the hand. */
  lemma {:induction false} JoinConserves(g: Game, id: PlayerId, name: string, shuffle: Shuffle)
    requires HandSize <= Size(g.deck)
    ensures NounCards(Join(g, id, name, shuffle)) == NounCards(g)
  {
    var joined := Join(g, id, name, shuffle);
    assert joined.players == joined.players[..|g.players|] + [joined.players[|g.players|]];
    SeatedAccount(g, joined, joined.players[|g.players|]);
  }

  /** `JoinConserves` over the facts `Join` promises. */
  lemma SeatedAccount(g: Game, joined: Game, p: Player)
    requires joined.players == g.players + [p] && p.played.None?
    requires Contents(g.deck) == multiset(p.hand) + Contents(joined.deck)
    ensures NounCards(joined) == NounCards(g)
  {
    RosterCardsAppend(g.players, p);
    Move(Contents(joined.deck), Contents(g.deck), RosterCards(joined.players), RosterCards(g.players), Held(p));
  }

  /** `createPlayer` below or above three players keeps every card. */
  lemma {:induction false} CreatePlayerConserves(g: Game, id: PlayerId, name: string, shuffle: Shuffle, allAdjectives: seq<Card>)
    requires HandSize <= Size(g.deck) && |g.players| + 1 != MinPlayers
    ensures NounCards(CreatePlayer(g, id, name, shuffle, allAdjectives)) == NounCards(g)
  {
    JoinConserves(g, id, name, shuffle);
  }

  /**
   * The join that starts the first round: `nextRound` drops whatever was
   * still played (nothing, in a game that was Waiting).
   */
  lemma {:induction false} CreatePlayerStartLeak(g: Game, id: PlayerId, name: string, shuffle: Shuffle, allAdjectives: seq<Card>)
    requires HandSize <= Size(g.deck) && |g.players| + 1 == MinPlayers
    ensures NounCards(g) == NounCards(CreatePlayer(g, id, name, shuffle, allAdjectives)) + multiset(PlayedCards(g.players))
  {
    var joined := Join(g, id, name, shuffle);
    JoinConserves(g, id, name, shuffle);
    assert joined.players == joined.players[..|g.players|] + [joined.players[|g.players|]];
    PlayedCardsAppend(g.players, joined.players[|g.players|]);
    assert PlayedCards(joined.players) == PlayedCards(g.players);
    NextRoundDropsPlays(joined, shuffle, allAdjectives);
  }

  /**
   * `removePlayer` up to its final check discards the leaver's hand and
   * played card, provided a judge hand-over does not delete a card (the
   * incoming judge had not played).
   */
  lemma LeaveConserves(g: Game, i: nat, shuffle: Shuffle)
    requires i < |g.players|
    requires g.players[i].judge && |g.players| > 1 ==> g.players[NextJudgeIndex(g)].played.None?
    ensures NounCards(Leave(g, i, shuffle)) == NounCards(g)
  {
    var r := Leave(g, i, shuffle);
    if g.players[i].judge && |g.players| > 1 {
      NextJudgeKeepsPlays(g, shuffle);
      LeaveAccount(g, NextJudge(g, shuffle), r, i);
    } else {
      assert r.players == Without(g.players, i);
      SameSeatsReflexive(g.players);
      LeaveAccount(g, g, r, i);
    }
  }

  /** When the incoming judge had not played, `nextJudge` touches no played slot. */
  lemma NextJudgeKeepsPlays(g: Game, shuffle: Shuffle)
    requires |g.players| > 0 && g.players[NextJudgeIndex(g)].played.None?
    ensures SameSeats(g.players, NextJudge(g, shuffle).players)
    ensures forall k :: 0 <= k < |g.players| ==> NextJudge(g, shuffle).players[k].played == g.players[k].played
  {
    assert NextJudge(g, shuffle).players == RotateJudge(g).players;
  }

  /** `LeaveConserves` over the facts `Leave` promises. */
  lemma LeaveAccount(g: Game, handedOver: Game, r: Game, i: nat)
    requires i < |g.players| && SameSeats(g.players, handedOver.players)
    requires forall k :: 0 <= k < |g.players| ==> handedOver.players[k].played == g.players[k].played
    requires r.players == Without(handedOver.players, i)
    requires r.deck == Deck(g.deck.nouns, g.deck.discardedNouns + g.players[i].hand + SlotSeq(g.players[i].played))
    ensures NounCards(r) == NounCards(g)
  {
    var leaver := Held(g.players[i]);
    SameSeatsSameCards(g.players, handedOver.players);
    RosterCardsRemove(handedOver.players, i);
    assert Held(handedOver.players[i]) == leaver;
    Move(Contents(g.deck), Contents(r.deck), RosterCards(g.players), RosterCards(r.players), leaver);
  }

  /**
   * `removePlayer`: with three or more left every card is kept; below
   * three, `stop` loses the cards still played.
   */
  lemma {:induction false} RemovePlayerAccount(g: Game, i: nat, shuffle: Shuffle)
    requires i < |g.players|
    requires g.players[i].judge && |g.players| > 1 ==> g.players[NextJudgeIndex(g)].played.None?
    ensures var r := RemovePlayer(g, i, shuffle);
            && (|r.players| >= MinPlayers ==> NounCards(r) == NounCards(g))
            && (|r.players| < MinPlayers ==>
                  NounCards(g) == NounCards(r) + multiset(PlayedCards(Leave(g, i, shuffle).players)))
  {
    var left := Leave(g, i, shuffle);
    var r := RemovePlayer(g, i, shuffle);
    LeaveConserves(g, i, shuffle);
    if |left.players| < MinPlayers {
      assert r == Stop(left);
      StopLeak(left);
    } else {
      assert r == Play(left, shuffle);
      PlayKeepsCards(left, shuffle);
    }
  }
}
