/** Joining and leaving a room (`Game.add_player`, `Game.remove_player`). */
module Membership {
  import opened Options
  import opened Seqs
  import opened Room
  import opened Dealing

  /** The score a joining player starts from: the number kept in a `did_not_finish N` entry,
      otherwise 0. */
  function RejoinScore(result: map<PlayerId, Score>, p: PlayerId): int
    requires p in result ==> result[p].Suspended?
  {
    if p in result then result[p].last else 0
  }

  /** `add_player`: seat `p` last with an empty hand and its turn marked ended, restore a suspended
      score or start from 0, and deal a hand when the game is under way. A numeric entry for `p`
      makes the source's `.split()` raise, hence the precondition. */
  function AddPlayer(g: Game, p: PlayerId): (r: Game)
    requires p in g.result ==> g.result[p].Suspended?
    ensures r.players == g.players + [p]
    ensures g.phase == Waiting || g.turn < |g.players| ==> Current(r) == Current(g)
    ensures p in r.turnEnded && r.turnEnded[p]
    ensures Numeric(r.result, p)
    ensures p in g.result ==> r.result[p].n == g.result[p].last
    ensures p !in g.result ==> r.result[p].n == 0
    ensures p in r.hands
    ensures g.phase == Waiting ==> r.hands[p] == [] && r.deck == g.deck
    ensures g.phase != Waiting ==> r.hands[p] + r.deck == g.deck && |r.hands[p]| == Min(HandSize, |g.deck|)
    ensures forall q :: q != p ==>
      && (q in r.result <==> q in g.result) && (q in g.result ==> r.result[q] == g.result[q])
      && (q in r.turnEnded <==> q in g.turnEnded) && (q in g.turnEnded ==> r.turnEnded[q] == g.turnEnded[q])
      && (q in r.hands <==> q in g.hands) && (q in g.hands ==> r.hands[q] == g.hands[q])
    ensures r == g.(players := r.players, result := r.result, turnEnded := r.turnEnded, hands := r.hands, deck := r.deck)
  {
    var g1 := g.(players := g.players + [p], hands := g.hands[p := []], turnEnded := g.turnEnded[p := true],
                 result := g.result[p := Points(RejoinScore(g.result, p))]);
    if g.phase == Waiting then g1
    else
      var s := DealHand(Stock(g1.hands, g1.deck), p);
      g1.(hands := s.hands, deck := s.deck)
  }

  /** `remove_player`: drop `p` from the seating. Before the game it simply forgets `p`'s score.
      During the game the turn index is reduced modulo the new table size, `p`'s cards go to the
      bottom of the deck and the score is kept as `did_not_finish N`. The source raises when `p` is
      not seated, when the last player leaves a started game (modulo by zero), and when `p` has no
      score or hand to move. */
  function RemovePlayer(g: Game, p: PlayerId): (r: Game)
    requires p in g.players && p in g.result
    requires g.phase != Waiting ==> |g.players| > 1 && p in g.hands && Numeric(g.result, p)
    ensures |r.players| == |g.players| - 1 && multiset(r.players) + multiset{p} == multiset(g.players)
    ensures Distinct(g.players) ==> Distinct(r.players) && forall q :: q in r.players <==> q in g.players && q != p
    ensures g.phase == Waiting ==>
      && r.result.Keys == g.result.Keys - {p}
      && (forall q :: q in r.result ==> r.result[q] == g.result[q])
      && r.hands == g.hands && r.deck == g.deck && r.turn == g.turn
    ensures g.phase != Waiting ==>
      && r.result.Keys == g.result.Keys
      && r.result[p] == Suspended(g.result[p].n)
      && (forall q :: q in r.result && q != p ==> r.result[q] == g.result[q])
      && r.hands.Keys == g.hands.Keys && r.hands[p] == []
      && (forall q :: q in r.hands && q != p ==> r.hands[q] == g.hands[q])
      && r.deck == g.deck + g.hands[p]
      && r.turn < |r.players| && r.turn == g.turn % |r.players|
      && Current(r) == Some(r.players[r.turn])
    ensures r == g.(players := r.players, result := r.result, hands := r.hands, deck := r.deck, turn := r.turn)
  {
    var ps := RemoveFirst(g.players, p);
    if g.phase == Waiting then
      g.(players := ps, result := g.result - {p})
    else
      g.(players := ps, turn := g.turn % |ps|, deck := g.deck + g.hands[p], hands := g.hands[p := []],
         result := g.result[p := Suspended(g.result[p].n)])
  }

  // ---------------------------------------------------------------------------------------
  // Properties across joins and leaves.

  /** A player who leaves a running game and comes back gets the old score back, sits last, and
      has a fresh hand. */
  lemma LeaveAndRejoinRestoresScore(g: Game, p: PlayerId)
    requires Valid(g) && g.phase != Waiting && p in g.players && |g.players| > 1
    ensures var r := AddPlayer(RemovePlayer(g, p), p);
      && r.result[p] == g.result[p]
      && r.players == RemoveFirst(g.players, p) + [p]
      && |r.hands[p]| == Min(HandSize, |g.deck| + |g.hands[p]|)
  {
  }

  /** Before the game starts, leaving forgets the score: coming back starts from zero. */
  lemma LeaveBeforeStartForgetsScore(g: Game, p: PlayerId)
    requires Valid(g) && g.phase == Waiting && p in g.players
    ensures AddPlayer(RemovePlayer(g, p), p).result[p] == Points(0)
  {
  }

  /** Joining moves no card: a hand dealt to the newcomer comes off the deck. */
  lemma AddPlayerConserves(g: Game, p: PlayerId)
    requires p in g.result ==> g.result[p].Suspended?
    requires Distinct(g.players) && p !in g.players && HandOf(g.hands, p) == []
    ensures Pool(AddPlayer(g, p)) == Pool(g)
  {
    var r := AddPlayer(g, p);
    JoinedPool(g, r, p);
  }

  /** A room with one more seat holds the same cards when the newcomer's hand came off the deck
      and no other hand changed. */
  lemma JoinedPool(g: Game, r: Game, p: PlayerId)
    requires Distinct(g.players) && p !in g.players && HandOf(g.hands, p) == []
    requires r.players == g.players + [p] && r.table == g.table && p in r.hands
    requires r.hands[p] + r.deck == g.deck
    requires forall q :: q != p ==> (q in r.hands <==> q in g.hands) && (q in g.hands ==> r.hands[q] == g.hands[q])
    ensures Pool(r) == Pool(g)
  {
    var hands1 := g.hands[p := []];
    HandsPoolUpdate(g.players, g.hands, p, []);
    HandsPoolAppend(g.players, p, r.hands);
    HandsPoolFrame(g.players, r.hands, hands1);
    assert HandsPool(r.players, r.hands) == HandsPool(g.players, g.hands) + multiset(r.hands[p]);
    assert multiset(r.deck) + multiset(r.hands[p]) == multiset(g.deck) by {
      assert multiset(r.hands[p] + r.deck) == multiset(g.deck);
    }
  }

  lemma DistinctAppend(ps: seq<PlayerId>, p: PlayerId)
    requires Distinct(ps) && p !in ps
    ensures Distinct(ps + [p])
  {
    forall i, j | 0 <= i < j < |ps + [p]| ensures (ps + [p])[i] != (ps + [p])[j] {
      if j == |ps| {
        assert (ps + [p])[i] == ps[i];
      }
    }
  }

  /** Joining keeps a well-formed room well formed and neither creates nor loses a card. */
  lemma AddPlayerValid(g: Game, p: PlayerId)
    requires Valid(g) && (p in g.result ==> g.result[p].Suspended?)
    ensures Valid(AddPlayer(g, p)) && Pool(AddPlayer(g, p)) == Pool(g)
  {
    NewcomerUnseated(g, p);
    AddPlayerConserves(g, p);
    NewcomerInShape(g, p);
    JoinedValid(g, AddPlayer(g, p), p);
  }

  /** In a well-formed room a player without a numeric score has no seat and no cards. */
  lemma NewcomerUnseated(g: Game, p: PlayerId)
    requires Valid(g) && (p in g.result ==> g.result[p].Suspended?)
    ensures p !in g.players && HandOf(g.hands, p) == [] && Distinct(g.players + [p])
  {
    DistinctAppend(g.players, p);
  }

  /** The newcomer's seat: a hand of at most six cards and a score that is not negative. */
  lemma NewcomerInShape(g: Game, p: PlayerId)
    requires forall q :: q in g.result ==> g.result[q].Value() >= 0
    requires p in g.result ==> g.result[p].Suspended?
    ensures var r := AddPlayer(g, p); |r.hands[p]| <= HandSize && r.result[p].n >= 0
  {
    if p in g.result {
      assert g.result[p].Value() >= 0;
    }
  }

  /** The shape facts that make a room with one more seat well formed. */
  lemma JoinedValid(g: Game, r: Game, p: PlayerId)
    requires Valid(g) && Pool(r) == Pool(g) && Distinct(r.players)
    requires r.players == g.players + [p] && p !in g.players
    requires r.phase == g.phase && r.turn == g.turn && r.table == g.table && r.bets == g.bets && r.guesses == g.guesses
    requires p in r.turnEnded && p in r.hands && |r.hands[p]| <= HandSize && Numeric(r.result, p) && r.result[p].n >= 0
    requires forall q :: q != p ==>
      && (q in r.result <==> q in g.result) && (q in g.result ==> r.result[q] == g.result[q])
      && (q in r.turnEnded <==> q in g.turnEnded)
      && (q in r.hands <==> q in g.hands) && (q in g.hands ==> r.hands[q] == g.hands[q])
    ensures Valid(r)
  {
    JoinedSeats(g, r, p);
    JoinedScores(g.players, g.result, r.result, p);
  }

  /** Every seat of the grown room has a hand of at most six cards and a turn flag. */
  lemma JoinedSeats(g: Game, r: Game, p: PlayerId)
    requires forall q :: q in g.players ==> q in g.hands && q in g.turnEnded && |g.hands[q]| <= HandSize
    requires forall q :: q in g.hands && q !in g.players ==> g.hands[q] == []
    requires r.players == g.players + [p]
    requires p in r.turnEnded && p in r.hands && |r.hands[p]| <= HandSize
    requires forall q :: q != p ==>
      && (q in r.turnEnded <==> q in g.turnEnded)
      && (q in r.hands <==> q in g.hands) && (q in g.hands ==> r.hands[q] == g.hands[q])
    ensures forall q :: q in r.players ==> q in r.hands && q in r.turnEnded && |r.hands[q]| <= HandSize
    ensures forall q :: q in r.hands && q !in r.players ==> r.hands[q] == []
  {
    forall q | q in r.players ensures q in r.hands && q in r.turnEnded && |r.hands[q]| <= HandSize {
      if q != p {
        assert q in g.players;
      }
    }
  }

  /** The grown room's scores: numeric exactly for seated players, never negative. */
  lemma JoinedScores(ps: seq<PlayerId>, result: map<PlayerId, Score>, result': map<PlayerId, Score>, p: PlayerId)
    requires forall q :: q in ps ==> Numeric(result, q)
    requires forall q :: Numeric(result, q) ==> q in ps
    requires forall q :: q in result ==> result[q].Value() >= 0
    requires Numeric(result', p) && result'[p].n >= 0
    requires forall q :: q != p ==> (q in result' <==> q in result) && (q in result ==> result'[q] == result[q])
    ensures forall q :: q in ps + [p] ==> Numeric(result', q)
    ensures forall q :: Numeric(result', q) ==> q in ps + [p]
    ensures forall q :: q in result' ==> result'[q].Value() >= 0
  {
    forall q | q in ps + [p] ensures Numeric(result', q) {
      if q != p {
        assert q in ps;
      }
    }
    forall q | Numeric(result', q) ensures q in ps + [p] {
      if q != p {
        assert Numeric(result, q);
      }
    }
  }

  /** Leaving moves no card: a running game puts the leaver's hand under the deck, and before the
      game every hand is empty anyway. */
  lemma RemovePlayerConserves(g: Game, p: PlayerId)
    requires Distinct(g.players) && p in g.players && p in g.result
    requires g.phase != Waiting ==> |g.players| > 1 && p in g.hands && Numeric(g.result, p)
    requires g.phase == Waiting ==> Pool(g) == multiset{}
    ensures Pool(RemovePlayer(g, p)) == Pool(g)
  {
    var r := RemovePlayer(g, p);
    var ps := RemoveFirst(g.players, p);
    DistinctRemoveFirst(g.players, p);
    HandsPoolRemove(g.players, p, g.hands);
    if g.phase == Waiting {
      assert HandsPool(ps, g.hands) == multiset{};
    } else {
      HandsPoolFrame(ps, r.hands, g.hands);
    }
  }

  /** Leaving keeps a well-formed room well formed and neither creates nor loses a card. */
  lemma RemovePlayerValid(g: Game, p: PlayerId)
    requires Valid(g) && p in g.players
    requires g.phase != Waiting ==> |g.players| > 1
    ensures Valid(RemovePlayer(g, p)) && Pool(RemovePlayer(g, p)) == Pool(g)
  {
    LeaverEmptyHanded(g, p);
    RemovePlayerConserves(g, p);
    RemovePlayerFrame(g, p);
    LeftValid(g, RemovePlayer(g, p), p);
  }

  /** Leaving touches only the leaver's own score and hand: the score stops being a number and the
      hand is emptied during a game; every other player's entries stay as they were. */
  lemma RemovePlayerFrame(g: Game, p: PlayerId)
    requires p in g.players && p in g.result
    requires g.phase != Waiting ==> |g.players| > 1 && p in g.hands && Numeric(g.result, p)
    ensures var r := RemovePlayer(g, p);
      && !Numeric(r.result, p)
      && (p in r.result ==> r.result[p].Value() == g.result[p].Value())
      && (g.phase != Waiting ==> r.hands[p] == [])
      && forall q :: q != p ==>
        && (q in r.result <==> q in g.result) && (q in g.result ==> r.result[q] == g.result[q])
        && (q in r.hands <==> q in g.hands) && (q in g.hands ==> r.hands[q] == g.hands[q])
  {
  }

  /** Before the game starts a seated player holds no card. */
  lemma LeaverEmptyHanded(g: Game, p: PlayerId)
    requires Valid(g) && p in g.players
    ensures g.phase == Waiting ==> g.hands[p] == []
  {
    if g.phase == Waiting && g.hands[p] != [] {
      HandsPoolHolds(g.players, g.hands, p, g.hands[p][0]);
    }
  }

  /** The shape facts that make a room with one seat fewer well formed. */
  lemma LeftValid(g: Game, r: Game, p: PlayerId)
    requires Valid(g) && Pool(r) == Pool(g) && Distinct(r.players)
    requires forall q :: q in r.players <==> q in g.players && q != p
    requires r.phase == g.phase && r.table == g.table && r.bets == g.bets && r.guesses == g.guesses
    requires r.turnEnded == g.turnEnded
    requires r.phase != Waiting ==> r.turn < |r.players|
    requires p in r.hands ==> r.hands[p] == []
    requires !Numeric(r.result, p) && (p in r.result ==> r.result[p].Value() >= 0)
    requires forall q :: q != p ==>
      && (q in r.result <==> q in g.result) && (q in g.result ==> r.result[q] == g.result[q])
      && (q in r.hands <==> q in g.hands) && (q in g.hands ==> r.hands[q] == g.hands[q])
    ensures Valid(r)
  {
    LeftSeats(g, r, p);
    LeftScores(g.players, r.players, g.result, r.result, p);
  }

  /** Every seat of the shrunk room keeps its hand and flag; the leaver holds nothing. */
  lemma LeftSeats(g: Game, r: Game, p: PlayerId)
    requires forall q :: q in g.players ==> q in g.hands && q in g.turnEnded && |g.hands[q]| <= HandSize
    requires forall q :: q in g.hands && q !in g.players ==> g.hands[q] == []
    requires forall q :: q in r.players <==> q in g.players && q != p
    requires r.turnEnded == g.turnEnded
    requires p in r.hands ==> r.hands[p] == []
    requires forall q :: q != p ==> (q in r.hands <==> q in g.hands) && (q in g.hands ==> r.hands[q] == g.hands[q])
    ensures forall q :: q in r.players ==> q in r.hands && q in r.turnEnded && |r.hands[q]| <= HandSize
    ensures forall q :: q in r.hands && q !in r.players ==> r.hands[q] == []
  {
  }

  /** The shrunk room's scores: numeric exactly for seated players, never negative. */
  lemma LeftScores(ps: seq<PlayerId>, ps': seq<PlayerId>, result: map<PlayerId, Score>, result': map<PlayerId, Score>,
                   p: PlayerId)
    requires forall q :: q in ps ==> Numeric(result, q)
    requires forall q :: Numeric(result, q) ==> q in ps
    requires forall q :: q in result ==> result[q].Value() >= 0
    requires forall q :: q in ps' <==> q in ps && q != p
    requires !Numeric(result', p) && (p in result' ==> result'[p].Value() >= 0)
    requires forall q :: q != p ==> (q in result' <==> q in result) && (q in result ==> result'[q] == result[q])
    ensures forall q :: q in ps' ==> Numeric(result', q)
    ensures forall q :: Numeric(result', q) ==> q in ps'
    ensures forall q :: q in result' ==> result'[q].Value() >= 0
  {
  }
}
