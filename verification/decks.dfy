/**
 * The noun deck of server/src/game.ts: the draw pile `nouns` and the
 * discard pile `discardedNouns`, with reshuffle-on-empty.
 */
module Decks {
  import opened Cards

  datatype Deck = Deck(nouns: seq<Card>, discardedNouns: seq<Card>)

  /** Every card held by the deck, in either pile. */
  function Contents(d: Deck): multiset<Card>
  {
    multiset(d.nouns) + multiset(d.discardedNouns)
  }

  function Size(d: Deck): nat
  {
    |d.nouns| + |d.discardedNouns|
  }

  /** A drawn card together with the deck it leaves behind. */
  datatype Drawn = Drawn(card: Card, deck: Deck)

  /**
   * The first half of `Game.draw`: an empty draw pile is replaced by a
   * shuffle of the discard pile, and the discard pile is emptied.
   */
  function Refill(d: Deck, shuffle: Shuffle): (r: Deck)
    ensures Contents(r) == Contents(d)
    ensures Size(r) == Size(d)
    ensures |d.nouns| > 0 ==> r == d
    ensures |d.nouns| == 0 ==> r.discardedNouns == [] && multiset(r.nouns) == multiset(d.discardedNouns)
  {
    if |d.nouns| == 0 then
      var r := Deck(Shuffled(shuffle, d.discardedNouns), []);
      assert |multiset(r.nouns)| == |r.nouns|;
      r
    else d
  }

  /** The second half of `Game.draw`: `nouns.shift()`. */
  function TakeTop(d: Deck): (r: Drawn)
    requires |d.nouns| > 0
    ensures r.card == d.nouns[0] && r.deck == Deck(d.nouns[1..], d.discardedNouns)
    ensures multiset(d.nouns) == multiset{r.card} + multiset(r.deck.nouns)
  {
    assert d.nouns == [d.nouns[0]] + d.nouns[1..];
    Drawn(d.nouns[0], Deck(d.nouns[1..], d.discardedNouns))
  }

  /**
   * `Game.draw`: the head of the draw pile, after refilling it from the
   * discard pile when it is empty. The drawn card leaves the deck and no
   * other card enters or leaves it. Both piles empty would make `shift()`
   * return undefined, so that is excluded.
   */
  function Draw(d: Deck, shuffle: Shuffle): (r: Drawn)
    requires Size(d) > 0
    ensures Contents(d) == multiset{r.card} + Contents(r.deck)
    ensures Size(r.deck) == Size(d) - 1
    ensures |d.nouns| > 0 ==> r.card == d.nouns[0] && r.deck == Deck(d.nouns[1..], d.discardedNouns)
    ensures |d.nouns| == 0 ==>
              && r.deck.discardedNouns == []
              && multiset{r.card} + multiset(r.deck.nouns) == multiset(d.discardedNouns)
  {
    var full := Refill(d, shuffle);
    var r := TakeTop(full);
    assert Contents(d) == multiset{r.card} + Contents(r.deck);
    r
  }

  /** `n` cards drawn one after another, in draw order. */
  datatype DrawnMany = DrawnMany(cards: seq<Card>, deck: Deck)

  /**
   * The loop of `Player.draw(n)`: `n` successive `Game.draw` calls.
   * Every card drawn leaves the deck; none is created or lost. The cards
   * come off the top of the draw pile; once it runs out, the rest come
   * from the reshuffled discard pile, which is left empty.
   */
  function DrawMany(d: Deck, n: nat, shuffle: Shuffle): (r: DrawnMany)
    requires n <= Size(d)
    ensures |r.cards| == n
    ensures Contents(d) == multiset(r.cards) + Contents(r.deck)
    ensures Size(r.deck) == Size(d) - n
    ensures TopDrawn(d, n, r)
    decreases n
  {
    if n == 0 then DrawnMany([], d)
    else
      var one := Draw(d, shuffle);
      var rest := DrawMany(one.deck, n - 1, shuffle);
      DrawnAfter(Contents(d), one.card, Contents(one.deck), rest.cards, Contents(rest.deck));
      DrawnOnTop(d, one, n, rest);
      DrawnMany([one.card] + rest.cards, rest.deck)
  }

  /**
   * Where `n` drawn cards come from: the top `n` of the draw pile when it
   * holds that many; otherwise the whole draw pile and then cards of the
   * discard pile, reshuffled, with nothing left on the discard pile.
   */
  predicate TopDrawn(d: Deck, n: nat, r: DrawnMany)
  {
    && |r.cards| == n
    && (n <= |d.nouns| ==> r.cards == d.nouns[..n] && r.deck == Deck(d.nouns[n..], d.discardedNouns))
    && (n > |d.nouns| ==>
          && r.cards[..|d.nouns|] == d.nouns
          && r.deck.discardedNouns == []
          && multiset(r.cards[|d.nouns|..]) + multiset(r.deck.nouns) == multiset(d.discardedNouns))
  }

  /** One draw followed by `n - 1` more takes the cards `TopDrawn` names. */
  lemma DrawnOnTop(d: Deck, one: Drawn, n: nat, rest: DrawnMany)
    requires 0 < n <= Size(d)
    requires |d.nouns| > 0 ==> one.card == d.nouns[0] && one.deck == Deck(d.nouns[1..], d.discardedNouns)
    requires |d.nouns| == 0 ==>
               && one.deck.discardedNouns == []
               && multiset{one.card} + multiset(one.deck.nouns) == multiset(d.discardedNouns)
    requires Size(one.deck) == Size(d) - 1
    requires TopDrawn(one.deck, n - 1, rest)
    ensures TopDrawn(d, n, DrawnMany([one.card] + rest.cards, rest.deck))
  {
    var cards := [one.card] + rest.cards;
    if |d.nouns| > 0 {
      if n <= |d.nouns| {
        assert cards == d.nouns[..n];
        assert d.nouns[1..][n - 1..] == d.nouns[n..];
      } else {
        assert cards[..|d.nouns|] == [one.card] + rest.cards[..|d.nouns| - 1];
        assert cards[|d.nouns|..] == rest.cards[|d.nouns| - 1..];
      }
    } else {
      assert n - 1 <= |one.deck.nouns|;
      assert cards[0..] == cards;
      assert multiset(cards) == multiset{one.card} + multiset(rest.cards);
      MultisetSplit(one.deck.nouns, n - 1);
      TakeTwice(multiset(d.discardedNouns), multiset{one.card}, multiset(one.deck.nouns),
                multiset(rest.cards), multiset(rest.deck.nouns));
    }
  }

  /** A card drawn before `cards` joins them at the front. */
  lemma DrawnAfter(before: multiset<Card>, card: Card, middle: multiset<Card>, cards: seq<Card>, after: multiset<Card>)
    requires before == multiset{card} + middle && middle == multiset(cards) + after
    ensures before == multiset([card] + cards) + after
  {
    assert multiset([card] + cards) == multiset{card} + multiset(cards);
    TakeTwice(before, multiset{card}, middle, multiset(cards), after);
  }
}
