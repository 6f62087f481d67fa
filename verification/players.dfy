/**
 * The `Player` class of server/src/game.ts, without its transport fields
 * (`game`, `ws`, `lastMessage`), and the roster-wide views of the cards
 * players hold.
 */
module Players {
  import opened Wrappers
  import opened Cards

  /** Stand-in for the opaque `uuid()` string. */
  type PlayerId = nat

  datatype Player = Player(
    id: PlayerId,
    name: string,
    hand: seq<Card>,
    score: int,
    judge: bool,
    played: Option<Card>)

  /** `new Player(game, ws)`; the name is `sample(NOUNS).name`, passed in. */
  function NewPlayer(id: PlayerId, name: string): (p: Player)
    ensures p.id == id && p.name == name && p.hand == [] && p.score == 0 && !p.judge && p.played.None?
    ensures Held(p) == multiset{}
  {
    Player(id, name, [], 0, false, None)
  }

  /** Every card a player holds: hand and played slot. */
  function Held(p: Player): multiset<Card>
  {
    multiset(p.hand) + SlotCards(p.played)
  }

  /** The hand cards of a whole roster. */
  function HandCards(ps: seq<Player>): multiset<Card>
  {
    if |ps| == 0 then multiset{} else multiset(ps[0].hand) + HandCards(ps[1..])
  }

  /**
   * The played cards of a roster in roster order: what `pick` pushes onto
   * the discard pile.
   */
  function PlayedCards(ps: seq<Player>): seq<Card>
  {
    if |ps| == 0 then []
    else SlotSeq(ps[0].played) + PlayedCards(ps[1..])
  }

  /** Every noun card held by the roster, in hands and played slots. */
  function RosterCards(ps: seq<Player>): multiset<Card>
  {
    if |ps| == 0 then multiset{} else Held(ps[0]) + RosterCards(ps[1..])
  }

  predicate NoPlays(ps: seq<Player>)
  {
    forall k :: 0 <= k < |ps| ==> ps[k].played.None?
  }

  /** `every(...)` over the non-judge players' `played` fields. */
  predicate AllNonJudgesPlayed(ps: seq<Player>)
  {
    forall k :: 0 <= k < |ps| && !ps[k].judge ==> ps[k].played.Some?
  }

  /**
   * `players.filter(p => !p.judge).map(p => p.played)` once every entry is
   * known to be set: the non-judges' played cards in roster order.
   */
  function JudgedCards(ps: seq<Player>): seq<Card>
  {
    if |ps| == 0 then []
    else (if !ps[0].judge && ps[0].played.Some? then [ps[0].played.value] else []) + JudgedCards(ps[1..])
  }

  /**
   * The two rosters seat the same players with the same names, hands and
   * scores; only judge flags and played slots may differ.
   */
  predicate SameSeats(ps: seq<Player>, qs: seq<Player>)
  {
    && |ps| == |qs|
    && forall k :: 0 <= k < |ps| ==> qs[k] == ps[k].(judge := qs[k].judge, played := qs[k].played)
  }

  /** The roster without seat `i` (`players.splice(i, 1)`). */
  function Without(ps: seq<Player>, i: nat): (r: seq<Player>)
    requires i < |ps|
    ensures |r| == |ps| - 1
    ensures forall k :: 0 <= k < |r| ==> r[k] == ps[if k < i then k else k + 1]
  {
    ps[..i] + ps[i + 1..]
  }

  lemma SameSeatsReflexive(ps: seq<Player>)
    ensures SameSeats(ps, ps)
  {
  }

  /** Removing the same seat from two matching rosters keeps them matching. */
  lemma SameSeatsWithout(ps: seq<Player>, qs: seq<Player>, i: nat)
    requires SameSeats(ps, qs) && i < |ps|
    ensures SameSeats(Without(ps, i), Without(qs, i))
  {
  }

  /** `this.judge.judge = false`, applied to the player holding that id. */
  function ClearJudgeFlag(ps: seq<Player>, id: PlayerId): seq<Player>
  {
    seq(|ps|, k requires 0 <= k < |ps| => if ps[k].id == id then ps[k].(judge := false) else ps[k])
  }

  /** `players.forEach(p => delete p.played)`. */
  function ClearPlays(ps: seq<Player>): seq<Player>
  {
    seq(|ps|, k requires 0 <= k < |ps| => ps[k].(played := None))
  }

  /** The loop of `stop`: nothing played and nobody judging. */
  function StandDown(ps: seq<Player>): seq<Player>
  {
    seq(|ps|, k requires 0 <= k < |ps| => ps[k].(played := None, judge := false))
  }

  // ---------------------------------------------------------------------
  // Card accounting over rosters
  // ---------------------------------------------------------------------

  /** The roster's cards are its hand cards plus its played cards. */
  lemma {:induction false} RosterCardsSplit(ps: seq<Player>)
    ensures RosterCards(ps) == HandCards(ps) + multiset(PlayedCards(ps))
  {
    if |ps| > 0 {
      RosterCardsSplit(ps[1..]);
      var head := SlotSeq(ps[0].played);
      var h0, p0 := multiset(ps[0].hand), multiset(head);
      var hr, pr := HandCards(ps[1..]), multiset(PlayedCards(ps[1..]));
      assert RosterCards(ps) == h0 + p0 + (hr + pr);
      assert PlayedCards(ps) == head + PlayedCards(ps[1..]);
      assert multiset(PlayedCards(ps)) == p0 + pr;
      assert HandCards(ps) == h0 + hr;
      assert h0 + p0 + (hr + pr) == (h0 + hr) + (p0 + pr);
    }
  }

  /** Rosters that agree on every hand hold the same hand cards. */
  lemma {:induction false} HandCardsPointwise(ps: seq<Player>, qs: seq<Player>)
    requires |ps| == |qs|
    requires forall k :: 0 <= k < |ps| ==> ps[k].hand == qs[k].hand
    ensures HandCards(ps) == HandCards(qs)
  {
    if |ps| > 0 {
      HandCardsPointwise(ps[1..], qs[1..]);
    }
  }

  /** Rosters that agree on every played slot have the same played cards. */
  lemma {:induction false} PlayedCardsPointwise(ps: seq<Player>, qs: seq<Player>)
    requires |ps| == |qs|
    requires forall k :: 0 <= k < |ps| ==> ps[k].played == qs[k].played
    ensures PlayedCards(ps) == PlayedCards(qs)
  {
    if |ps| > 0 {
      PlayedCardsPointwise(ps[1..], qs[1..]);
    }
  }

  /** A roster where nobody has played contributes no played cards. */
  lemma {:induction false} NoPlaysNoPlayedCards(ps: seq<Player>)
    requires NoPlays(ps)
    ensures PlayedCards(ps) == []
  {
    if |ps| > 0 {
      NoPlaysNoPlayedCards(ps[1..]);
    }
  }

  /** Changing only judge flags keeps the roster's cards. */
  lemma {:induction false} SameSeatsSameCards(ps: seq<Player>, qs: seq<Player>)
    requires SameSeats(ps, qs)
    requires forall k :: 0 <= k < |ps| ==> ps[k].played == qs[k].played
    ensures RosterCards(ps) == RosterCards(qs)
  {
    HandCardsPointwise(ps, qs);
    PlayedCardsPointwise(ps, qs);
    RosterCardsSplit(ps);
    RosterCardsSplit(qs);
  }

  /**
   * Clearing played slots while keeping hands drops exactly the played
   * cards.
   */
  lemma {:induction false} DropPlaysCards(ps: seq<Player>, qs: seq<Player>)
    requires SameSeats(ps, qs)
    requires NoPlays(qs)
    ensures RosterCards(ps) == RosterCards(qs) + multiset(PlayedCards(ps))
  {
    HandCardsPointwise(ps, qs);
    NoPlaysNoPlayedCards(qs);
    RosterCardsSplit(ps);
    RosterCardsSplit(qs);
  }

  /** Replacing one player trades that player's cards for the newcomer's. */
  lemma {:induction false} RosterCardsUpdate(ps: seq<Player>, i: nat, p: Player)
    requires i < |ps|
    ensures RosterCards(ps[i := p]) + Held(ps[i]) == RosterCards(ps) + Held(p)
  {
    var qs := ps[i := p];
    if i == 0 {
      assert qs[1..] == ps[1..];
    } else {
      assert qs[1..] == ps[1..][i - 1 := p];
      assert ps[1..][i - 1] == ps[i];
      RosterCardsUpdate(ps[1..], i - 1, p);
      var a, restQ, restP := Held(ps[0]), RosterCards(qs[1..]), RosterCards(ps[1..]);
      assert RosterCards(qs) == a + restQ;
      assert RosterCards(ps) == a + restP;
      assert restQ + Held(ps[i]) == restP + Held(p);
      TradeWithin(a, restQ, restP, Held(ps[i]), Held(p));
    }
  }

  /** Appending a player adds exactly that player's cards. */
  lemma {:induction false} RosterCardsAppend(ps: seq<Player>, p: Player)
    ensures RosterCards(ps + [p]) == RosterCards(ps) + Held(p)
  {
    var qs := ps + [p];
    if |ps| == 0 {
      assert qs[1..] == [];
    } else {
      assert qs[0] == ps[0];
      assert qs[1..] == ps[1..] + [p];
      RosterCardsAppend(ps[1..], p);
      calc {
        RosterCards(qs);
        Held(ps[0]) + RosterCards(ps[1..] + [p]);
        Held(ps[0]) + (RosterCards(ps[1..]) + Held(p));
      }
    }
  }

  /** Removing the player at `i` removes exactly that player's cards. */
  lemma {:induction false} RosterCardsRemove(ps: seq<Player>, i: nat)
    requires i < |ps|
    ensures RosterCards(Without(ps, i)) + Held(ps[i]) == RosterCards(ps)
  {
    if i == 0 {
      assert ps[..0] + ps[1..] == ps[1..];
    } else {
      var rest := ps[..i] + ps[i + 1..];
      assert rest[0] == ps[0];
      assert rest[1..] == ps[1..][..i - 1] + ps[1..][i..];
      assert ps[1..][i - 1] == ps[i];
      RosterCardsRemove(ps[1..], i - 1);
      calc {
        RosterCards(rest) + Held(ps[i]);
        Held(ps[0]) + RosterCards(ps[1..][..i - 1] + ps[1..][i..]) + Held(ps[1..][i - 1]);
        Held(ps[0]) + RosterCards(ps[1..]);
      }
    }
  }

  /** Seating a player after the others appends that player's played card. */
  lemma {:induction false} PlayedCardsAppend(ps: seq<Player>, p: Player)
    ensures PlayedCards(ps + [p]) == PlayedCards(ps) + SlotSeq(p.played)
  {
    if |ps| == 0 {
      assert ps + [p] == [p];
    } else {
      assert (ps + [p])[1..] == ps[1..] + [p];
      PlayedCardsAppend(ps[1..], p);
    }
  }

  /**
   * When no judge holds a played card, the non-judges' played cards are
   * all the played cards, in the same order: what the judge is shown is
   * what a pick discards.
   */
  lemma {:induction false} JudgedCardsArePlayed(ps: seq<Player>)
    requires forall k :: 0 <= k < |ps| && ps[k].judge ==> ps[k].played.None?
    ensures JudgedCards(ps) == PlayedCards(ps)
  {
    if |ps| > 0 {
      JudgedCardsArePlayed(ps[1..]);
    }
  }
}
