# Apples-to-apples turn engine, modelled in Dafny

This project models the turn engine of a small multiplayer card game in the
style of "Apples to Apples". The engine is the `Game` and `Player` classes of
`server/src/game.ts`. It covers three things:

- **The noun deck.** There is a draw pile and a discard pile. A draw from an
  empty draw pile first reshuffles the whole discard pile into it.
- **The adjective prompt queue.** It is refilled with a shuffle of every
  adjective when it runs out.
- **The round state machine.** It runs Waiting → Playing → Judging → Playing.
  It covers judge rotation, scoring on `pick`, and the three-player gate on
  joining and leaving.

The model is functional. `Game` and `Player` are immutable datatypes, and
every method of the classes is a pure transition that returns the next game:

- A client names a player by roster seat.
- `judge`, `last.judge` and `last.winner` name a player by id. A `nat` stands
  in for the `uuid()` string.
- Every lodash `shuffle` is a `Shuffle` parameter, applied through
  `Cards.Shuffled`. The parameter is any function on card sequences, so every
  result holds for every shuffle. `Shuffled` uses the function's answer when it
  is a rearrangement of the input and otherwise keeps the input in order.
  lodash's `shuffle` always returns a rearrangement, so no behaviour of the
  source is lost.
- The noun and adjective universes are parameters.
- `sample(NOUNS).name` and `uuid()` become the `name` and `id` parameters of
  `CreatePlayer`.
- `Player.quit` (game.ts:251-255) only calls `removePlayer`, so
  `RemovePlayer` models it.

Modules, one per concept:

- `Wrappers`: `Option`.
- `Cards`: cards and `Shuffle`.
- `Seqs`: lodash `findIndex` and JavaScript `splice(start, 1)`, including its
  negative-start behaviour.
- `Decks`: the noun piles.
- `Players`: the player record and roster-wide card sums.
- `GameEngine`: the transitions of `game.ts`.
- `Conservation`: card accounting per transition.
- `Invariants`: the judge and gating invariant.
- `Sync`: the send-only-if-changed rule of `Player.send`.

Behaviour the code does not have, or has in a form one might not expect:

- **No card check on `Player.play`.** A card whose name is not in the hand is
  still played. `findIndex` yields -1, so `splice(-1, 1)` removes the LAST
  hand card. `PlayCardAbsent` states the resulting card accounting.
- **No minimum of two plays, and no timers, ticks or judge penalty.** Judging
  starts as soon as every non-judge has played. `every([])` is true, so a
  roster with no non-judge also moves to Judging.
- **Cards are shuffled, not sorted.** `cards` is any permutation of the
  non-judges' played cards.
- **Cards are not conserved globally.** `nextJudge` deletes the incoming
  judge's played card (game.ts:83). `stop` deletes every played card
  (game.ts:95). Neither card is discarded. Conservation is therefore proved per
  transition, and the two leaks are stated exactly (`NextJudgeLeak`,
  `StopLeak`).
- **A player leaving during Judging.** `RemovePlayerContinues` shows that when
  a non-judge leaves while someone has still not played, `state` and `cards`
  stay as they were. The judge can therefore still be shown the departed
  player's card. `Pick` of that card finds no author, and the model returns
  `None` where the class throws at `++winner.score`.

## Model

| member | source | states |
|---|---|---|
| `Seqs.FindIndex` | server/src/game.ts:241 | the first index whose element satisfies the predicate, and -1 exactly when none does |
| `Seqs.SpliceOne` | server/src/game.ts:240-243 | `splice(start, 1)` removes the element at `start`; start -1 removes the last element; an empty array is unchanged; the removed element plus the rest is the original multiset |
| `Decks.Refill` | server/src/game.ts:125-128 | an empty draw pile is replaced by a permutation of the discard pile, which becomes empty; a non-empty draw pile is left alone; no card is gained or lost |
| `Decks.TakeTop` | server/src/game.ts:129 | `shift()` returns the head of the draw pile and leaves its tail |
| `Decks.Draw` | server/src/game.ts:124-130 | the drawn card plus the remaining deck is the old deck's multiset; the head is drawn when the draw pile is non-empty, otherwise the card comes from the reshuffled discard pile, which is emptied |
| `Decks.DrawMany` | server/src/game.ts:229-232 | `n` draws yield exactly `n` cards, and those cards plus the remaining deck are the old deck's multiset; they are the top `n` of the draw pile when it holds that many, otherwise the whole draw pile followed by cards of the reshuffled discard pile, which is left empty |
| `Players.JudgedCardsArePlayed` | server/src/game.ts:114-118 | when no judge holds a played card, the non-judges' played cards shown at Judging are exactly the played cards `pick` discards, in roster order |
| `Players.DropPlaysCards` | server/src/game.ts:59-61 | clearing every played slot while keeping hands removes exactly the played cards from the roster |
| `Players.Without` | server/src/game.ts:170 | `splice(indexOf(player), 1)` leaves the other players in order, one fewer |
| `Players.NewPlayer` | server/src/game.ts:194-203 | a new player has the given id and name, an empty hand, score 0, no judge flag and no played card |
| `GameEngine.NewGame` | server/src/game.ts:28-34 | a new game waits with no players, no judge, no adjective, an empty adjective queue, no last round and no judged cards; the whole noun universe lies on the discard pile with the draw pile empty, so the first draw reshuffles |
| `GameEngine.Play` | server/src/game.ts:132-140 | when every non-judge has a played card (vacuously so for none), the game enters Judging and `cards` is a permutation of those played cards, nothing else changing; otherwise nothing changes |
| `GameEngine.NextJudgeIndex` | server/src/game.ts:73-77 | the next judge's seat is 0 with no judge set or nobody flagged, otherwise the seat after the first judge-flagged player, wrapping |
| `GameEngine.RotateJudge` | server/src/game.ts:72-86 | seats and hands are kept; the player at `NextJudgeIndex` becomes `judge`, is flagged and loses its played card; others keep their played cards and lose the flag only if they held the old judge's id; an empty roster clears `judge` |
| `GameEngine.NextJudge` | server/src/game.ts:72-91 | the rotation, then `play()`: Judging on a permutation of the rotated roster's non-judge played cards when every non-judge has played, and otherwise exactly the rotated game |
| `GameEngine.NextAdjective` | server/src/game.ts:64-67 | a non-empty queue reveals its head and keeps its tail; an empty queue reveals from a permutation of all adjectives, revealed plus queue being that multiset; nothing is revealed only when both are empty |
| `GameEngine.NextRound` | server/src/game.ts:57-67 | Playing, no judged cards, nobody played, same seats, deck and `last` kept, judge and flags as the rotation sets them, and the adjective as `NextAdjective` reveals it |
| `GameEngine.Stop` | server/src/game.ts:93-100 | Waiting, no judge, no adjective, no flags, nothing played, seats kept, while `cards`, `last` and the deck are kept |
| `GameEngine.WinnerIndex` | server/src/game.ts:106 | the first seat whose played card has the picked name, or -1 exactly when none has |
| `GameEngine.Resolve` | server/src/game.ts:106-118 | the winner's seat gains one point and every other seat is unchanged, `last` records judge, adjective, noun and winner, the played cards in roster order are appended to the discard pile, and nothing else changes |
| `GameEngine.Pick` | server/src/game.ts:105-119 | fails exactly when no played card has the picked name; otherwise records `last`, discards every played card, and starts a round with the same seats, nobody played, no judged cards, the judgeship at the seat `nextJudge` picks, and the next adjective revealed |
| `GameEngine.PickScores` | server/src/game.ts:106-107 | a successful pick adds one point to the first author of the picked card and to nobody else |
| `Invariants.PickRotates` | server/src/game.ts:76-82 | under the invariant a successful pick hands the judgeship to the seat after the current judge's, wrapping |
| `GameEngine.PlayerDraw` | server/src/game.ts:229-232 | `Player.draw(n)` appends exactly `n` cards to one hand, taken from the deck as `DrawMany` takes them (top of the draw pile first), and changes no other player or field |
| `GameEngine.FirstNamed` | server/src/game.ts:241 | the first hand position holding a card of the given name, or -1 exactly when none does |
| `GameEngine.RemoveNamed` | server/src/game.ts:240-243 | the first card with the given name is removed from the hand; with no such card the last card is removed |
| `GameEngine.SubmitCard` | server/src/game.ts:239-244 | the card becomes the player's played card, the hand is the spliced hand plus one drawn card, and no other player changes |
| `GameEngine.PlayCard` | server/src/game.ts:237-246 | a judge, a player who has played, or a game not in Playing changes nothing; otherwise the card is submitted, nothing but `state` and `cards` changes further, and the game is Judging, showing a permutation of the non-judges' played cards, exactly when every non-judge has then played |
| `GameEngine.PlayCardKeepsHandSize` | server/src/game.ts:240-244 | a play keeps the player's hand size (one card out, one drawn) and every other hand |
| `GameEngine.Join` | server/src/game.ts:145-150 | the newcomer is appended with its id and name, seven drawn cards, score 0, no flag and no played card, the deck having given exactly those cards |
| `GameEngine.CreatePlayer` | server/src/game.ts:145-154 | `createPlayer` adds exactly one player, seated last with seven cards, score 0 and nothing played |
| `GameEngine.CreatePlayerWaits` | server/src/game.ts:150-154 | a join that does not bring the roster to three changes nothing but the roster and deck, and the newcomer is not judge |
| `GameEngine.CreatePlayerStartsRound` | server/src/game.ts:152-153 | the third player starts a round: Playing, nothing played, no judged cards, seats kept, with no earlier judge the first seat judges, and the next adjective is revealed (none only when no adjective exists at all); the last round is kept |
| `GameEngine.Leave` | server/src/game.ts:161-170 | the leaver's hand and played card go to the discard pile, a leaving judge hands over the judgeship when others are seated, and the leaver's seat is removed |
| `GameEngine.RemovePlayer` | server/src/game.ts:161-177 | `removePlayer` leaves one player fewer with the other seats kept, and the leaver's hand and played card on the discard pile |
| `GameEngine.RemovePlayerStops` | server/src/game.ts:160-174 | below three players the game stops: Waiting, no judge, no adjective, no flags, nothing played; the judged cards, the last round and the adjective queue are kept |
| `GameEngine.RemovePlayerJudging` | server/src/game.ts:160-176 | with three or more left, the result is the departure itself, moved to Judging on a permutation of the remaining non-judges' cards exactly when all of them have played; a departing non-judge leaves the judgeship where it was |
| `GameEngine.RemovePlayerHandsOver` | server/src/game.ts:166-176 | a judge leaving three or more players hands the judgeship to the seat `nextJudge` picks; while someone has still to play, the game is what `nextJudge` left, less the leaver's seat and cards |
| `GameEngine.RemovePlayerContinues` | server/src/game.ts:175-176 | with three or more left, a non-judge leaving while someone has not played changes only the roster and the discard pile |
| `Conservation.PlayKeepsCards` | server/src/game.ts:132-140 | `Game.play` moves no card |
| `Conservation.PlayerDrawConserves` | server/src/game.ts:229-232 | drawing keeps every noun card in the game |
| `Conservation.SubmitCardAccount` | server/src/game.ts:239-244 | an accepted play trades the hand for the spliced hand plus the played card, with the drawn card moved from the deck |
| `Conservation.RemoveNamedHeld` | server/src/game.ts:240-243 | splicing out a held card by name, when all cards of that name are that card, removes exactly that card |
| `Conservation.RemoveNamedAbsent` | server/src/game.ts:240-243 | splicing by a name no hand card carries removes exactly the last hand card |
| `Conservation.PlayCardConserves` | server/src/game.ts:237-246 | playing a held card keeps every noun card in the game |
| `Conservation.PlayCardAbsent` | server/src/game.ts:237-246 | playing a card not in the hand loses the last hand card and creates the played card |
| `Conservation.StopLeak` | server/src/game.ts:94-97 | `stop` loses exactly the cards still played |
| `Conservation.NextRoundDropsPlays` | server/src/game.ts:58-61 | `nextRound` loses exactly the cards still played when it runs |
| `Conservation.NextJudgeLeak` | server/src/game.ts:81-83 | `nextJudge` loses exactly the incoming judge's played card, if any |
| `Conservation.NextJudgeKeepsPlays` | server/src/game.ts:81-83 | when the incoming judge had not played, `nextJudge` leaves every played slot as it was |
| `Conservation.PickConserves` | server/src/game.ts:114-119 | a successful pick keeps every noun card, the played cards going to the discard pile |
| `Conservation.JoinConserves` | server/src/game.ts:146-150 | seating a newcomer moves seven cards from the deck into the new hand |
| `Conservation.CreatePlayerConserves` | server/src/game.ts:145-154 | a join that does not start the first round keeps every noun card |
| `Conservation.CreatePlayerStartLeak` | server/src/game.ts:152-153 | the join that starts the first round loses exactly the cards still played |
| `Conservation.LeaveConserves` | server/src/game.ts:161-170 | the leaver's cards are discarded, so nothing is lost unless the judge hand-over deletes a card |
| `Conservation.RemovePlayerAccount` | server/src/game.ts:161-177 | with three or more left every card is kept; below three, exactly the cards still played are lost |
| `Invariants.OneJudge` | server/src/game.ts:76-82 | under the invariant a flagged player is the one `judge` names and nobody else is flagged |
| `Invariants.NewGameInv` | server/src/game.ts:28-34 | a new game satisfies the invariant |
| `Invariants.RotateJudgeOk` | server/src/game.ts:72-83 | with ids distinct and flags matching `judge`, rotation flags exactly the seat at `NextJudgeIndex` and keeps that agreement |
| `Invariants.NextJudgeOk` | server/src/game.ts:72-88 | `nextJudge` keeps the judge agreement |
| `Invariants.NextRoundInv` | server/src/game.ts:57-67 | a round started with three or more players satisfies the invariant |
| `Invariants.StopInv` | server/src/game.ts:93-100 | stopping with fewer than three players satisfies the invariant |
| `Invariants.PlayInv` | server/src/game.ts:132-140 | `Game.play` outside Waiting keeps the invariant |
| `Invariants.CreatePlayerInv` | server/src/game.ts:145-154 | `createPlayer` with a fresh id keeps the invariant |
| `Invariants.PlayCardInv` | server/src/game.ts:237-246 | `Player.play` keeps the invariant |
| `Invariants.PickInv` | server/src/game.ts:105-119 | a successful pick keeps the invariant |
| `Invariants.HandOverIndex` | server/src/game.ts:77 | the seat after the only flagged player is another seat |
| `Invariants.HandOverSkipsLeaver` | server/src/game.ts:166-168 | a leaving judge hands the judgeship to another seat, keeping the judge agreement |
| `Invariants.UniqueIdsAfterLeave` | server/src/game.ts:170 | the seats left after a departure carry distinct ids |
| `Invariants.RemoveStopsInv` | server/src/game.ts:172-174 | a departure that leaves fewer than three players satisfies the invariant |
| `Invariants.RemoveJudgeInv` | server/src/game.ts:166-176 | a judge leaving three or more players keeps the invariant |
| `Invariants.RemoveOtherInv` | server/src/game.ts:170-176 | a non-judge leaving three or more players keeps the invariant |
| `Invariants.RemovePlayerInv` | server/src/game.ts:161-177 | `removePlayer` keeps the invariant |
| `Sync.Send` | server/src/game.ts:215-227 | a message is written exactly when the socket is open and it differs from the last one written, and `lastMessage` then tracks it |
| `Sync.SendIdempotent` | server/src/game.ts:223-224 | sending the same state twice writes it at most once |
| `Sync.SendNoRepeats` | server/src/game.ts:223-224 | no message is written twice in a row |
| `Sync.SendAll` | server/src/game.ts:215-227 | over any series of sends an open socket writes exactly the states that differ from the one before (`Changes`), none twice in a row, and ends on the last state; a closed socket writes nothing |

The invariant (`Invariants.Inv`) requires all of the following:

- player ids are distinct;
- a player is flagged exactly when its id is `judge`;
- `judge`, when set, names a seated player who has not played;
- the game is Waiting exactly when fewer than three players are seated;
- a Waiting game has no judge and no played card;
- every other game has a judge;
- Judging always has cards to show.

So the transport guard of server/src/index.ts:23 (`state == Judging`) already
gives `Pick` its precondition `judge.Some?`.

## Left out

- `Game.send`, `Player.send` and both `toJSON` methods (game.ts:36-55, 205-227): the JSON rendering and the socket are I/O. `Sync` keeps only the rule of game.ts:216-225, with the rendering abstracted to a snapshot value and `readyState === OPEN` to a flag.
- server/src/index.ts: socket wiring. Only its guard at index.ts:23 is kept, as the requires of `Pick`. Its `play` guard (index.ts:29) repeats the state test inside `Player.play`. The rename handler (index.ts:34-39) is not part of the turn engine.
- `game.update()` and the logging timer (index.ts:49-56): `game.ts` defines no `update`, and the engine has no timers.
- Randomness and identity: `shuffle`, `sample` and `uuid` become parameters, as described above. `CreatePlayerInv` assumes the new id is fresh, as a `uuid()` is.
- Card data loading (cards/convert.py, src/cards.ts): the universes are parameters.
- The client (client/src): rendering and socket setup.
- `Seqs.SpliceOne`: models only the starts `findIndex` can produce, -1 up to the last index. Other negative starts and starts past the end never occur in the turn engine.
- `GameEngine.Pick`: requires `state == Judging` and a set `judge`, not "the caller is the judge". Callers carry no identity in the model.
- `Decks.Draw`: requires a non-empty deck. `shift()!` on two empty piles yields `undefined`, which the class would push into a hand as a card.
- `Decks.DrawMany`, `GameEngine.PlayerDraw`, `GameEngine.Join`, `GameEngine.CreatePlayer`: require as many cards in the deck as they draw, for the same reason.
- `GameEngine.SubmitCard`, `GameEngine.PlayCard`: require a card in the deck when the play is accepted, for the same reason.
- `Conservation.PlayCardConserves`: requires that the played card is in the hand and that every hand card of its name is that card. `PlayCardAbsent` covers the absent case. Cards that share a name with a different definition are not otherwise accounted for.
- `Conservation.LeaveConserves`, `Conservation.RemovePlayerAccount`: require that a judge hand-over does not delete a played card. `NextJudgeLeak` states what is lost when it does.
- `this.adjective!` when no adjective is revealed (game.ts:110): the model keeps the `Option`, so `last.adjective` may be `None`.
