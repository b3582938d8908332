/** The state of one Imaginarium room (the source's class `Game`) and the card pool it owns. */
module Room {
  import opened Options
  import opened Seqs
  import opened OrderedMap

  type PlayerId = nat
  type CardId = nat

  /** A full hand. */
  const HandSize: nat := 6
  /** The default `settings['win_score']`. */
  const DefaultWinScore: int := 40

  datatype Phase = Waiting | Storytelling | Matching | Guessing | Interlude | Victory

  /** An entry of `result`: the score of a seated player, or the score a player had when
      leaving a started game (the source stores the string `'did_not_finish N'`). */
  datatype Score = Points(n: int) | Suspended(last: int) {
    function Value(): int {
      match this
      case Points(n) => n
      case Suspended(n) => n
    }
  }

  /** One room. The deck is the source's `_cards`; the storyteller is `players[turn]` once the
      game has started (the source keeps `current_player` equal to it). */
  datatype Game = Game(
    players: seq<PlayerId>,
    result: map<PlayerId, Score>,
    turnEnded: map<PlayerId, bool>,
    hands: map<PlayerId, seq<CardId>>,
    deck: seq<CardId>,
    table: OMap<CardId, PlayerId>,
    bets: OMap<PlayerId, CardId>,
    guesses: OMap<PlayerId, CardId>,
    phase: Phase,
    turn: nat,
    leadCard: Option<CardId>,
    association: Option<string>,
    winner: Option<PlayerId>,
    winScore: int
  )

  /** The storyteller (`current_player`): none before the game starts. */
  function Current(g: Game): Option<PlayerId> {
    if g.phase == Waiting || g.turn >= |g.players| then None else Some(g.players[g.turn])
  }

  /** A player's hand, empty when the room has never given them one. */
  function HandOf(hands: map<PlayerId, seq<CardId>>, p: PlayerId): seq<CardId> {
    if p in hands then hands[p] else []
  }

  /** The cards held by the players `ps`, with multiplicity. */
  function HandsPool(ps: seq<PlayerId>, hands: map<PlayerId, seq<CardId>>): multiset<CardId> {
    if ps == [] then multiset{} else multiset(HandOf(hands, ps[0])) + HandsPool(ps[1..], hands)
  }

  /** Every card of the room wherever it lies: in the deck, in a seated player's hand or on the table. */
  function Pool(g: Game): multiset<CardId> {
    multiset(g.deck) + HandsPool(g.players, g.hands) + multiset(Keys(g.table))
  }

  /** Each card lies in exactly one place, once. */
  predicate NoDuplicates(m: multiset<CardId>) {
    forall c | c in m :: m[c] == 1
  }

  /** A seated player holds a numeric score. */
  predicate Numeric(result: map<PlayerId, Score>, p: PlayerId) {
    p in result && result[p].Points?
  }

  /** The invariant every reachable room keeps. */
  ghost predicate Valid(g: Game) {
    && Distinct(g.players)
    && (forall p :: p in g.players ==> p in g.hands && p in g.turnEnded && Numeric(g.result, p))
    && (forall p :: Numeric(g.result, p) ==> p in g.players)
    && (forall p :: p in g.hands && p !in g.players ==> g.hands[p] == [])
    && (forall p :: p in g.result ==> g.result[p].Value() >= 0)
    && (forall p :: p in g.players ==> |g.hands[p]| <= HandSize)
    && (g.phase != Waiting ==> g.turn < |g.players|)
    && (g.phase == Waiting ==> Pool(g) == multiset{})
    && UniqueKeys(g.table) && UniqueKeys(g.bets) && UniqueKeys(g.guesses)
    && NoDuplicates(Pool(g))
  }

  /** A started room that keeps the seating, the scores and the cards of a valid room is valid as
      soon as its hands, flags and tables are in shape. */
  lemma SameSeatsValid(g: Game, r: Game)
    requires Valid(g) && r.players == g.players && r.result == g.result && Pool(r) == Pool(g)
    requires r.phase != Waiting && r.turn < |r.players|
    requires forall p :: p in r.players ==> p in r.hands && p in r.turnEnded && |r.hands[p]| <= HandSize
    requires forall p :: p in r.hands && p !in r.players ==> r.hands[p] == []
    requires UniqueKeys(r.table) && UniqueKeys(r.bets) && UniqueKeys(r.guesses)
    ensures Valid(r)
  {
  }

  /** A room that differs from a valid room only in its phase and in scores that stay non-negative
      and numeric for the same players is valid. */
  lemma SameSeatsScoresValid(g: Game, r: Game)
    requires Valid(g) && r == g.(phase := r.phase, result := r.result)
    requires r.phase != Waiting && g.phase != Waiting
    requires forall q :: Numeric(r.result, q) <==> Numeric(g.result, q)
    requires forall q :: q in r.result ==> r.result[q].Value() >= 0
    ensures Valid(r)
  {
    assert Pool(r) == Pool(g);
  }

  /** `Game.__init__`: an empty room waiting for players. */
  function NewRoom(): (g: Game)
    ensures Valid(g)
    ensures g.phase == Waiting && g.players == [] && Pool(g) == multiset{}
    ensures g.winScore == DefaultWinScore
  {
    Game([], map[], map[], map[], [], [], [], [], Waiting, 0, None, Some(""), None, DefaultWinScore)
  }

  /** Replace the given players' `turn_ended` flags by `value`. */
  function SetFlags(flags: map<PlayerId, bool>, ps: seq<PlayerId>, value: bool): (r: map<PlayerId, bool>)
    ensures r.Keys == flags.Keys + set p | p in ps
    ensures forall p :: p in ps ==> r[p] == value
    ensures forall p :: p in flags && p !in ps ==> r[p] == flags[p]
  {
    flags + map p | p in ps :: value
  }

  /** Reopen the turns of the players `ps` and close the storyteller's, as `start_turn` and
      `place_cards` do. */
  function OnlyStorytellerEnded(flags: map<PlayerId, bool>, ps: seq<PlayerId>, st: PlayerId): (r: map<PlayerId, bool>)
    ensures st in r && r[st]
    ensures forall p :: p in ps ==> p in r && (r[p] <==> p == st)
  {
    SetFlags(flags, ps, false)[st := true]
  }

  // ---------------------------------------------------------------------------------------
  // Facts about the hands part of the pool.

  lemma {:induction false} HandsPoolConcat(a: seq<PlayerId>, b: seq<PlayerId>, hands: map<PlayerId, seq<CardId>>)
    ensures HandsPool(a + b, hands) == HandsPool(a, hands) + HandsPool(b, hands)
  {
    if a != [] {
      assert (a + b)[1..] == a[1..] + b;
      HandsPoolConcat(a[1..], b, hands);
    } else {
      assert a + b == b;
    }
  }

  lemma HandsPoolAppend(ps: seq<PlayerId>, p: PlayerId, hands: map<PlayerId, seq<CardId>>)
    ensures HandsPool(ps + [p], hands) == HandsPool(ps, hands) + multiset(HandOf(hands, p))
  {
    HandsPoolConcat(ps, [p], hands);
  }

  /** The pool only looks at the hands of the players it sums over. */
  lemma {:induction false} HandsPoolFrame(ps: seq<PlayerId>, h1: map<PlayerId, seq<CardId>>, h2: map<PlayerId, seq<CardId>>)
    requires forall p :: p in ps ==> HandOf(h1, p) == HandOf(h2, p)
    ensures HandsPool(ps, h1) == HandsPool(ps, h2)
  {
    if ps != [] {
      HandsPoolFrame(ps[1..], h1, h2);
    }
  }

  /** Taking a player out of the sum takes exactly their hand out of the pool. */
  lemma HandsPoolRemove(ps: seq<PlayerId>, p: PlayerId, hands: map<PlayerId, seq<CardId>>)
    requires p in ps
    ensures HandsPool(RemoveFirst(ps, p), hands) + multiset(HandOf(hands, p)) == HandsPool(ps, hands)
  {
    var i := IndexOf(ps, p);
    assert ps == ps[..i] + [p] + ps[i + 1..];
    HandsPoolConcat(ps[..i] + [p], ps[i + 1..], hands);
    HandsPoolConcat(ps[..i], [p], hands);
    HandsPoolConcat(ps[..i], ps[i + 1..], hands);
  }

  /** Reseating players does not change which cards they hold. */
  lemma {:induction false} HandsPoolPermutation(ps: seq<PlayerId>, qs: seq<PlayerId>, hands: map<PlayerId, seq<CardId>>)
    requires multiset(ps) == multiset(qs)
    ensures HandsPool(ps, hands) == HandsPool(qs, hands)
    decreases |ps|
  {
    if ps == [] {
      assert |multiset(qs)| == 0;
      assert qs == [];
    } else {
      var x := ps[0];
      TailPermutation(ps, qs);
      var rest := RemoveFirst(qs, x);
      HandsPoolRemove(qs, x, hands);
      HandsPoolPermutation(ps[1..], rest, hands);
    }
  }

  /** Changing one seated player's hand changes the pool by exactly that hand. */
  lemma HandsPoolUpdate(ps: seq<PlayerId>, hands: map<PlayerId, seq<CardId>>, p: PlayerId, h: seq<CardId>)
    requires Distinct(ps)
    ensures p in ps ==>
      HandsPool(ps, hands[p := h]) + multiset(HandOf(hands, p)) == HandsPool(ps, hands) + multiset(h)
    ensures p !in ps ==> HandsPool(ps, hands[p := h]) == HandsPool(ps, hands)
  {
    var hands' := hands[p := h];
    if p in ps {
      var rest := RemoveFirst(ps, p);
      assert HandsPool(rest, hands') == HandsPool(rest, hands) by {
        DistinctRemoveFirst(ps, p);
        assert forall q :: q in rest ==> HandOf(hands', q) == HandOf(hands, q);
        HandsPoolFrame(rest, hands, hands');
      }
      HandsPoolRemove(ps, p, hands);
      HandsPoolRemove(ps, p, hands');
      assert HandOf(hands', p) == h;
    } else {
      HandsPoolFrame(ps, hands, hands');
    }
  }

  /** A card in a seated player's hand is counted by the pool. */
  lemma {:induction false} HandsPoolHolds(ps: seq<PlayerId>, hands: map<PlayerId, seq<CardId>>, p: PlayerId, c: CardId)
    requires p in ps && c in HandOf(hands, p)
    ensures HandsPool(ps, hands)[c] >= 1
  {
    if ps[0] != p {
      HandsPoolHolds(ps[1..], hands, p, c);
    }
  }

  /** A card held by two different seated players is counted twice by the pool. */
  lemma HandsPoolHoldsTwo(ps: seq<PlayerId>, hands: map<PlayerId, seq<CardId>>, p: PlayerId, q: PlayerId, c: CardId)
    requires Distinct(ps) && p in ps && q in ps && p != q
    requires c in HandOf(hands, p) && c in HandOf(hands, q)
    ensures HandsPool(ps, hands)[c] >= 2
  {
    var rest := RemoveFirst(ps, p);
    HandsPoolRemove(ps, p, hands);
    DistinctRemoveFirst(ps, p);
    HandsPoolHolds(rest, hands, q, c);
    assert (HandsPool(rest, hands) + multiset(HandOf(hands, p)))[c]
      == HandsPool(rest, hands)[c] + multiset(HandOf(hands, p))[c];
  }

  /** Players without cards add nothing to the pool. */
  lemma {:induction false} HandsPoolEmpty(ps: seq<PlayerId>, hands: map<PlayerId, seq<CardId>>)
    requires forall p :: p in ps ==> HandOf(hands, p) == []
    ensures HandsPool(ps, hands) == multiset{}
  {
    if ps != [] {
      HandsPoolEmpty(ps[1..], hands);
    }
  }
}
