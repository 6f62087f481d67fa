/**
 * Cards, the shuffling they are subjected to, and the multiset algebra
 * the card accounting rests on.
 */
module Cards {
  import opened Wrappers

  /** A noun or adjective card. The game compares cards by `name` only. */
  datatype Card = Card(name: string, definition: string)

  /**
   * Stand-in for lodash `shuffle`. Randomness is not modelled: the shuffle
   * is a parameter, and every result proved holds for every choice of it.
   */
  type Shuffle = seq<Card> -> seq<Card>

  /**
   * `shuffle(s)`: the rearrangement of `s` that `shuffle` returns. An
   * answer that is not a rearrangement of `s` is no shuffle at all, and
   * the sequence is then kept in its order.
   */
  function Shuffled(shuffle: Shuffle, s: seq<Card>): (r: seq<Card>)
    ensures multiset(r) == multiset(s)
    ensures |r| == |s|
    ensures multiset(shuffle(s)) == multiset(s) ==> r == shuffle(s)
  {
    var r := if multiset(shuffle(s)) == multiset(s) then shuffle(s) else s;
    assert |multiset(r)| == |r|;
    r
  }

  /** The card an optional slot holds, as a multiset (empty when unset). */
  function SlotCards(o: Option<Card>): multiset<Card>
  {
    if o.Some? then multiset{o.value} else multiset{}
  }

  /** The same slot as a sequence of at most one card. */
  function SlotSeq(o: Option<Card>): (r: seq<Card>)
    ensures multiset(r) == SlotCards(o)
  {
    if o.Some? then [o.value] else []
  }

  // ---------------------------------------------------------------------
  // Multiset algebra for card accounting
  // ---------------------------------------------------------------------

  /** A sequence cut at `n` holds the cards of both parts. */
  lemma MultisetSplit(s: seq<Card>, n: nat)
    requires n <= |s|
    ensures multiset(s) == multiset(s[..n]) + multiset(s[n..])
  {
    assert s == s[..n] + s[n..];
  }

  /** Multiset addition cancels. */
  lemma Cancel(a: multiset<Card>, b: multiset<Card>, c: multiset<Card>)
    requires a + c == b + c
    ensures a == b
  {
    assert forall x :: a[x] == (a + c)[x] - c[x];
  }

  /** A hand that gave up `lost` in place of `card`. */
  lemma Swap(after: multiset<Card>, before: multiset<Card>, hand: multiset<Card>, kept: multiset<Card>,
             lost: Card, card: Card)
    requires after + hand == before + (kept + multiset{card})
    requires kept + multiset{lost} == hand
    ensures after + multiset{lost} == before + multiset{card}
  {
    calc {
      after + multiset{lost} + kept;
      after + hand;
      before + multiset{card} + kept;
    }
    Cancel(after + multiset{lost}, before + multiset{card}, kept);
  }

  /** A trade inside part of a multiset is a trade in the whole. */
  lemma TradeWithin(a: multiset<Card>, x: multiset<Card>, y: multiset<Card>, gave: multiset<Card>, got: multiset<Card>)
    requires x + gave == y + got
    ensures (a + x) + gave == (a + y) + got
  {
    assert forall c :: ((a + x) + gave)[c] == a[c] + (x + gave)[c];
  }

  /** Two takes in succession take their sum. */
  lemma TakeTwice(before: multiset<Card>, first: multiset<Card>, middle: multiset<Card>,
                  second: multiset<Card>, after: multiset<Card>)
    requires before == first + middle && middle == second + after
    ensures before == (first + second) + after
  {
    assert forall c :: before[c] == first[c] + second[c] + after[c];
  }

  /** Multiset union regroups. */
  lemma Regroup(a: multiset<Card>, b: multiset<Card>, c: multiset<Card>)
    ensures a + (b + c) == (a + b) + c
  {
    assert forall x :: (a + (b + c))[x] == ((a + b) + c)[x];
  }

  /**
   * Bookkeeping of a move from the deck to one seat: the deck gives up
   * `moved`, the seat's holding changes from `h0` to `rest + moved`, and the
   * rest of the roster is untouched.
   */
  lemma Exchange(d0: multiset<Card>, d1: multiset<Card>, r0: multiset<Card>, r1: multiset<Card>,
                 h0: multiset<Card>, h1: multiset<Card>, rest: multiset<Card>, moved: multiset<Card>)
    requires d0 == moved + d1
    requires r1 + h0 == r0 + h1
    requires h1 == rest + moved
    ensures d1 + r1 + h0 == d0 + r0 + rest
  {
    calc {
      d1 + r1 + h0;
      d1 + (r0 + h1);
      d1 + r0 + rest + moved;
      d0 + r0 + rest;
    }
  }

  /** Cards `moved` from the roster onto the deck are still in the game. */
  lemma Move(dg: multiset<Card>, dr: multiset<Card>, rg: multiset<Card>, rr: multiset<Card>, moved: multiset<Card>)
    requires dr == dg + moved
    requires rg == rr + moved
    ensures dr + rr == dg + rg
  {
  }
}
