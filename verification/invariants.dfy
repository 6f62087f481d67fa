/**
 * The judge and roster-gating invariant that every client-facing entry
 * point of `GameEngine` keeps: player ids are distinct, a player carries
 * the judge flag exactly when its id is `judge`, the judge is seated and
 * has no played card, the game waits exactly when fewer than three
 * players are seated, and Judging always has cards to show.
 */
module Invariants {
  import opened Wrappers
  import opened Cards
  import opened Decks
  import opened Players
  import opened GameEngine

  predicate UniqueIds(ps: seq<Player>)
  {
    forall a, b :: 0 <= a < b < |ps| ==> ps[a].id != ps[b].id
  }

  /** The judge flag marks exactly the player `judge` names. */
  predicate Flags(g: Game)
  {
    forall k :: 0 <= k < |g.players| ==> (g.players[k].judge <==> g.judge == Some(g.players[k].id))
  }

  /** `judge`, when set, names a seated player. */
  predicate Seated(g: Game)
  {
    g.judge.Some? ==> exists k :: 0 <= k < |g.players| && g.players[k].id == g.judge.value
  }

  /** A judge never holds a played card. */
  predicate JudgeIdle(ps: seq<Player>)
  {
    forall k :: 0 <= k < |ps| && ps[k].judge ==> ps[k].played.None?
  }

  predicate JudgeOk(g: Game)
  {
    UniqueIds(g.players) && Flags(g) && Seated(g) && JudgeIdle(g.players)
  }

  predicate Inv(g: Game)
  {
    && JudgeOk(g)
    && (g.state == Waiting <==> |g.players| < MinPlayers)
    && (g.state == Waiting ==> g.judge.None? && NoPlays(g.players))
    && (g.state != Waiting ==> g.judge.Some?)
    && (g.state == Judging ==> g.cards.Some?)
  }

  /** Under the invariant a set `judge` flags exactly one player. */
  lemma OneJudge(g: Game, j: nat)
    requires Inv(g) && j < |g.players| && g.players[j].judge
    ensures g.judge == Some(g.players[j].id)
    ensures forall k :: 0 <= k < |g.players| && k != j ==> !g.players[k].judge
  {
  }

  /** A new game satisfies the invariant. */
  lemma NewGameInv(nouns: seq<Card>)
    ensures Inv(NewGame(nouns))
  {
  }

  /**
   * Judge rotation under `JudgeOk`: exactly the player at `NextJudgeIndex`
   * is flagged afterwards, and `JudgeOk` still holds.
   */
  lemma RotateJudgeOk(g: Game)
    requires JudgeOk(g) && |g.players| > 0
    ensures var r := RotateJudge(g);
            && JudgeOk(r)
            && r.players[NextJudgeIndex(g)].judge
            && forall k :: 0 <= k < |r.players| && k != NextJudgeIndex(g) ==> !r.players[k].judge
  {
    var r := RotateJudge(g);
    var j := NextJudgeIndex(g);
    forall k | 0 <= k < |r.players| && k != j
      ensures !r.players[k].judge
    {
      assert r.players[k].judge == (g.players[k].judge && Some(g.players[k].id) != g.judge);
    }
    assert Seated(r) by {
      assert r.players[j].id == g.players[j].id;
    }
  }

  /** `nextJudge` keeps `JudgeOk`. */
  lemma NextJudgeOk(g: Game, shuffle: Shuffle)
    requires JudgeOk(g) && |g.players| > 0
    ensures JudgeOk(NextJudge(g, shuffle))
  {
    RotateJudgeOk(g);
    assert NextJudge(g, shuffle).players == RotateJudge(g).players;
  }

  /** A round started with three or more players satisfies the invariant. */
  lemma NextRoundInv(g: Game, shuffle: Shuffle, allAdjectives: seq<Card>)
    requires JudgeOk(g) && |g.players| >= MinPlayers
    ensures Inv(NextRound(g, shuffle, allAdjectives))
  {
    var r := NextRound(g, shuffle, allAdjectives);
    RotateJudgeOk(g);
    var rotated := RotateJudge(g);
    forall k | 0 <= k < |r.players|
      ensures r.players[k].id == rotated.players[k].id
    {
      assert r.players[k].id == g.players[k].id;
      assert rotated.players[k].id == g.players[k].id;
    }
    JudgeOkTransfer(rotated, r);
  }

  /**
   * `JudgeOk` carries over to a game with the same judge, the same ids and
   * flags seat by seat, and a judge who has not played.
   */
  lemma JudgeOkTransfer(g: Game, r: Game)
    requires JudgeOk(g) && r.judge == g.judge && |r.players| == |g.players|
    requires forall k :: 0 <= k < |r.players| ==>
               r.players[k].id == g.players[k].id && r.players[k].judge == g.players[k].judge
    requires JudgeIdle(r.players)
    ensures JudgeOk(r)
  {
    if r.judge.Some? {
      var k :| 0 <= k < |g.players| && g.players[k].id == g.judge.value;
      assert r.players[k].id == r.judge.value;
    }
  }

  /** `stop` with fewer than three players satisfies the invariant. */
  lemma StopInv(g: Game)
    requires UniqueIds(g.players) && |g.players| < MinPlayers
    ensures Inv(Stop(g))
  {
    var r := Stop(g);
    assert forall k :: 0 <= k < |r.players| ==> r.players[k].id == g.players[k].id;
  }

  /** `Game.play` outside Waiting keeps the invariant. */
  lemma PlayInv(g: Game, shuffle: Shuffle)
    requires Inv(g) && g.state != Waiting
    ensures Inv(Play(g, shuffle))
  {
  }

  /**
   * Replacing one player by another with the same id and flag, where a
   * judge still has not played, keeps `JudgeOk`.
   */
  lemma UpdateOk(g: Game, r: Game, i: nat, p: Player)
    requires JudgeOk(g) && i < |g.players| && r.players == g.players[i := p] && r.judge == g.judge
    requires p.id == g.players[i].id && p.judge == g.players[i].judge && (p.judge ==> p.played.None?)
    ensures JudgeOk(r)
  {
    forall k | 0 <= k < |r.players|
      ensures r.players[k].id == g.players[k].id && r.players[k].judge == g.players[k].judge
    {
    }
    JudgeOkTransfer(g, r);
  }

  /** Seating a non-judge newcomer with a fresh id keeps `JudgeOk`. */
  lemma AppendOk(g: Game, r: Game, p: Player)
    requires JudgeOk(g) && r.players == g.players + [p] && r.judge == g.judge
    requires !p.judge && p.played.None?
    requires forall k :: 0 <= k < |g.players| ==> g.players[k].id != p.id
    ensures JudgeOk(r)
  {
    if g.judge.Some? {
      var k :| 0 <= k < |g.players| && g.players[k].id == g.judge.value;
      assert r.players[k] == g.players[k];
    }
  }

  /**
   * `createPlayer` keeps the invariant, given an id no seated player has
   * (`uuid()` is taken to be fresh).
   */
  lemma {:induction false} CreatePlayerInv(g: Game, id: PlayerId, name: string, shuffle: Shuffle, allAdjectives: seq<Card>)
    requires Inv(g) && HandSize <= Size(g.deck)
    requires forall k :: 0 <= k < |g.players| ==> g.players[k].id != id
    ensures Inv(CreatePlayer(g, id, name, shuffle, allAdjectives))
  {
    var joined := Join(g, id, name, shuffle);
    assert joined.players == joined.players[..|g.players|] + [joined.players[|g.players|]];
    AppendOk(g, joined, joined.players[|g.players|]);
    if |joined.players| == MinPlayers {
      NextRoundInv(joined, shuffle, allAdjectives);
    } else {
      JoinInv(g, id, name, shuffle);
    }
  }

  /** A join that does not start the first round keeps the invariant. */
  lemma {:induction false} JoinInv(g: Game, id: PlayerId, name: string, shuffle: Shuffle)
    requires Inv(g) && HandSize <= Size(g.deck) && |g.players| + 1 != MinPlayers
    requires JudgeOk(Join(g, id, name, shuffle))
    ensures Inv(Join(g, id, name, shuffle))
  {
    if g.state == Waiting {
      JoinNoPlays(g, id, name, shuffle);
    }
  }

  /** A newcomer has not played. */
  lemma JoinNoPlays(g: Game, id: PlayerId, name: string, shuffle: Shuffle)
    requires HandSize <= Size(g.deck) && NoPlays(g.players)
    ensures NoPlays(Join(g, id, name, shuffle).players)
  {
    var joined := Join(g, id, name, shuffle);
    ExtendNoPlays(g.players, joined.players);
  }

  /** A roster extended by one seat that has not played still has no plays. */
  lemma ExtendNoPlays(ps: seq<Player>, qs: seq<Player>)
    requires NoPlays(ps) && |qs| == |ps| + 1 && qs[..|ps|] == ps && qs[|ps|].played.None?
    ensures NoPlays(qs)
  {
    forall k | 0 <= k < |qs|
      ensures qs[k].played.None?
    {
      if k < |ps| {
        assert qs[k] == qs[..|ps|][k];
      }
    }
  }

  /** `Player.play` keeps the invariant. */
  lemma PlayCardInv(g: Game, i: nat, card: Card, shuffle: Shuffle)
    requires Inv(g) && i < |g.players|
    requires MayPlay(g, i) ==> Size(g.deck) > 0
    ensures Inv(PlayCard(g, i, card, shuffle))
  {
    if MayPlay(g, i) {
      var submitted := SubmitCard(g, i, card, shuffle);
      UpdateOk(g, submitted, i, submitted.players[i]);
      PlayInv(submitted, shuffle);
    }
  }

  /** A successful `pick` keeps the invariant. */
  lemma {:induction false} PickInv(g: Game, card: Card, shuffle: Shuffle, allAdjectives: seq<Card>)
    requires Inv(g) && g.state == Judging
    ensures var r := Pick(g, card, shuffle, allAdjectives);
            r.Some? ==> Inv(r.value)
  {
    var w := WinnerIndex(g.players, card);
    if w >= 0 {
      var resolved := Resolve(g, w, card);
      UpdateOk(g, resolved, w, resolved.players[w]);
      NextRoundInv(resolved, shuffle, allAdjectives);
    }
  }

  /**
   * Under the invariant a successful `pick` passes the judgeship to the
   * seat after the current judge's, wrapping round the table.
   */
  lemma PickRotates(g: Game, card: Card, shuffle: Shuffle, allAdjectives: seq<Card>, j: nat)
    requires Inv(g) && g.state == Judging && j < |g.players| && g.players[j].judge
    ensures var r := Pick(g, card, shuffle, allAdjectives);
            r.Some? ==> r.value.judge == Some(g.players[(j + 1) % |g.players|].id)
  {
    OneJudge(g, j);
  }

  /** Removing a non-judge seat keeps `JudgeOk`. */
  lemma WithoutOk(h: Game, i: nat, r: Game)
    requires JudgeOk(h) && i < |h.players| && !h.players[i].judge
    requires r.players == Without(h.players, i) && r.judge == h.judge
    ensures JudgeOk(r)
  {
    if h.judge.Some? {
      var k :| 0 <= k < |h.players| && h.players[k].id == h.judge.value;
      assert k != i;
      var k' := if k < i then k else k - 1;
      assert r.players[k'] == h.players[k];
    }
  }

  /**
   * A leaving judge hands the judgeship to the next seat, which is not the
   * leaver's.
   */
  lemma {:induction false} HandOverSkipsLeaver(g: Game, i: nat, shuffle: Shuffle)
    requires Inv(g) && i < |g.players| && g.players[i].judge && |g.players| > 1
    ensures JudgeOk(NextJudge(g, shuffle)) && !NextJudge(g, shuffle).players[i].judge
  {
    HandOverIndex(g, i);
    RotateJudgeOk(g);
    assert NextJudge(g, shuffle).players == RotateJudge(g).players;
    NextJudgeOk(g, shuffle);
  }

  /** Wrapping to the next seat of a table of two or more moves. */
  lemma NextSeatDiffers(i: nat, n: nat)
    requires i < n && n > 1
    ensures (i + 1) % n != i
  {
    if i + 1 < n {
      assert (i + 1) % n == i + 1;
    } else {
      assert (i + 1) % n == 0;
    }
  }

  /** The seat after the only judge-flagged one is another seat. */
  lemma HandOverIndex(g: Game, i: nat)
    requires Inv(g) && i < |g.players| && g.players[i].judge && |g.players| > 1
    ensures NextJudgeIndex(g) == (i + 1) % |g.players| && NextJudgeIndex(g) != i
  {
    OneJudge(g, i);
    var n := |g.players|;
    assert forall m :: 0 <= m < i ==> !g.players[m].judge;
    var j := NextJudgeIndex(g);
    assert j == (i + 1) % n;
    NextSeatDiffers(i, n);
  }

  /** `removePlayer` (and `Player.quit`) keeps the invariant. */
  lemma RemovePlayerInv(g: Game, i: nat, shuffle: Shuffle)
    requires Inv(g) && i < |g.players|
    ensures Inv(RemovePlayer(g, i, shuffle))
  {
    if |g.players| - 1 < MinPlayers {
      RemoveStopsInv(g, i, shuffle);
    } else if g.players[i].judge {
      RemoveJudgeInv(g, i, shuffle);
    } else {
      RemoveOtherInv(g, i, shuffle);
    }
  }

  /** A departure that leaves fewer than three players. */
  lemma RemoveStopsInv(g: Game, i: nat, shuffle: Shuffle)
    requires Inv(g) && i < |g.players| && |g.players| - 1 < MinPlayers
    ensures Inv(RemovePlayer(g, i, shuffle))
  {
    var left := Leave(g, i, shuffle);
    UniqueIdsAfterLeave(g, i, left);
    StopInv(left);
  }

  /** A leaving judge, with three or more players left. */
  lemma {:induction false} RemoveJudgeInv(g: Game, i: nat, shuffle: Shuffle)
    requires Inv(g) && i < |g.players| && |g.players| - 1 >= MinPlayers && g.players[i].judge
    ensures Inv(RemovePlayer(g, i, shuffle))
  {
    var left := Leave(g, i, shuffle);
    var handedOver := NextJudge(g, shuffle);
    HandOverSkipsLeaver(g, i, shuffle);
    WithoutOk(handedOver, i, left);
    assert Inv(left);
    PlayInv(left, shuffle);
  }

  /** A leaving non-judge, with three or more players left. */
  lemma RemoveOtherInv(g: Game, i: nat, shuffle: Shuffle)
    requires Inv(g) && i < |g.players| && |g.players| - 1 >= MinPlayers && !g.players[i].judge
    ensures Inv(RemovePlayer(g, i, shuffle))
  {
    var left := Leave(g, i, shuffle);
    WithoutOk(g, i, left);
    PlayInv(left, shuffle);
  }

  /** The seats left after `Leave` still carry distinct ids. */
  lemma UniqueIdsAfterLeave(g: Game, i: nat, left: Game)
    requires UniqueIds(g.players) && i < |g.players|
    requires SameSeats(Without(g.players, i), left.players)
    ensures UniqueIds(left.players)
  {
    var rest := Without(g.players, i);
    forall a, b | 0 <= a < b < |left.players|
      ensures left.players[a].id != left.players[b].id
    {
      assert left.players[a].id == rest[a].id && left.players[b].id == rest[b].id;
    }
  }
}
