/** Card conservation and the room invariant across the phase-advancing transitions. */
module TurnInvariants {
  import opened Options
  import opened Seqs
  import opened OrderedMap
  import opened Room
  import opened Dealing
  import opened Turns
  import Actions
  import Membership
  import Scoring

  /** A room whose pool is empty has every seated player's hand empty. */
  lemma EmptyPoolEmptyHands(g: Game)
    requires Pool(g) == multiset{}
    ensures forall p :: p in g.players ==> HandOf(g.hands, p) == []
  {
    forall p | p in g.players
      ensures HandOf(g.hands, p) == []
    {
      if HandOf(g.hands, p) != [] {
        HandsPoolHolds(g.players, g.hands, p, HandOf(g.hands, p)[0]);
      }
    }
  }

  lemma {:induction false} DeficitOfEmptyHands(hands: map<PlayerId, seq<CardId>>, ps: seq<PlayerId>)
    requires forall p :: p in ps ==> HandOf(hands, p) == []
    ensures Deficit(hands, ps) == HandSize * |ps|
  {
    if ps != [] {
      DeficitOfEmptyHands(hands, ps[1..]);
    }
  }

  /** `start_game` replaces the deck by the new card set and keeps the hands and the table. */
  lemma StartGameConserves(g: Game, cards: seq<CardId>, order: seq<PlayerId>)
    requires |g.players| > 0
    requires multiset(order) == multiset(g.players)
    requires forall p :: p in g.players ==> p in g.hands
    requires Distinct(g.players)
    ensures Pool(StartGame(g, cards, order)) ==
      multiset(cards) + HandsPool(g.players, g.hands) + multiset(Keys(g.table))
  {
    assert forall p :: p in order ==> p in multiset(g.players);
    var g1 := g.(turn := 0, deck := cards, players := order, turnEnded := SetFlags(g.turnEnded, order, false));
    DistinctPermutation(g.players, order);
    DealConserves(g1, order);
    HandsPoolPermutation(order, g.players, g.hands);
  }

  /** Starting a game from a valid waiting room yields a valid room whose cards are exactly the new
      card set, each in one place; with at least six cards per player every hand is full. */
  lemma StartGameValid(g: Game, cards: seq<CardId>, order: seq<PlayerId>)
    requires Valid(g) && g.phase == Waiting && |g.players| > 0
    requires multiset(order) == multiset(g.players)
    requires Distinct(cards)
    ensures var r := StartGame(g, cards, order);
      && Valid(r)
      && Pool(r) == multiset(cards)
      && (|cards| >= HandSize * |order| ==> forall p :: p in order ==> |r.hands[p]| == HandSize)
  {
    var r := StartGame(g, cards, order);
    assert forall p :: p in order <==> p in g.players by {
      forall p ensures p in order <==> p in g.players {
        assert p in order <==> p in multiset(order);
        assert p in g.players <==> p in multiset(g.players);
      }
    }
    EmptyPoolEmptyHands(g);
    StartGameConserves(g, cards, order);
    HandsPoolEmpty(g.players, g.hands);
    assert g.table == [];
    assert Pool(r) == multiset(cards);
    DistinctCounts(cards);
    DistinctPermutation(g.players, order);
    var g1 := g.(turn := 0, deck := cards, players := order, turnEnded := SetFlags(g.turnEnded, order, false));
    if |cards| >= HandSize * |order| {
      DeficitOfEmptyHands(g1.hands, order);
      DealAllFills(Stock(g1.hands, g1.deck), order);
    }
  }

  /** Taking one card out of a seated player's hand takes exactly that card out of the hands' pool. */
  lemma TakeFromHand(ps: seq<PlayerId>, hands: map<PlayerId, seq<CardId>>, p: PlayerId, c: CardId)
    requires Distinct(ps) && p in ps && p in hands && c in hands[p]
    ensures HandsPool(ps, hands[p := RemoveFirst(hands[p], c)]) + multiset{c} == HandsPool(ps, hands)
  {
    var h1 := RemoveFirst(hands[p], c);
    HandsPoolUpdate(ps, hands, p, h1);
    MultisetTakeOut(HandsPool(ps, hands), HandsPool(ps, hands[p := h1]), multiset(hands[p]), multiset(h1), multiset{c});
  }

  /** `start_turn` takes the table it replaces out of the pool and keeps everything else:
      the lead card only moves from the storyteller's hand to the table. */
  lemma StartTurnConserves(g: Game, association: string)
    requires Current(g).Some?
    requires forall p :: p in g.players ==> p in g.hands
    requires g.leadCard.Some? && g.leadCard.value in g.hands[Current(g).value]
    requires Distinct(g.players)
    ensures Pool(StartTurn(g, association)) + multiset(Keys(g.table)) == Pool(g)
  {
    var r := StartTurn(g, association);
    var st, lead := Current(g).value, g.leadCard.value;
    var hpR, hpG := HandsPool(g.players, r.hands), HandsPool(g.players, g.hands);
    assert hpR + multiset{lead} == hpG by {
      assert r.hands == g.hands[st := RemoveFirst(g.hands[st], lead)];
      TakeFromHand(g.players, g.hands, st, lead);
    }
    assert Pool(r) == multiset(g.deck) + hpR + multiset{lead} by {
      assert r.deck == g.deck && r.players == g.players;
      assert Keys(r.table) == [lead];
    }
    assert Pool(g) == multiset(g.deck) + hpG + multiset(Keys(g.table));
    Regroup(multiset(g.deck), hpR, hpG, multiset{lead}, multiset(Keys(g.table)));
  }

  /** Multiset bookkeeping: a card moved between two parts leaves the sum unchanged. */
  lemma Regroup(d: multiset<CardId>, h1: multiset<CardId>, h0: multiset<CardId>, x: multiset<CardId>, t: multiset<CardId>)
    requires h1 + x == h0
    ensures d + h1 + x + t == d + h0 + t
  {
  }

  /** From a valid room with an empty table, `start_turn` yields a valid room with the same cards. */
  lemma StartTurnValid(g: Game, association: string)
    requires Valid(g) && g.table == []
    requires Current(g).Some?
    requires g.leadCard.Some? && g.leadCard.value in g.hands[Current(g).value]
    ensures Valid(StartTurn(g, association))
    ensures Pool(StartTurn(g, association)) == Pool(g)
  {
    var r := StartTurn(g, association);
    var st := Current(g).value;
    assert Pool(r) == Pool(g) by {
      StartTurnConserves(g, association);
      assert Keys(g.table) == [];
    }
    forall p | p in r.players ensures p in r.hands && p in r.turnEnded && |r.hands[p]| <= HandSize {
      if p == st {
        assert |multiset(r.hands[st])| + 1 == |multiset(g.hands[st])|;
      }
    }
    assert UniqueKeys(r.table);
    SameSeatsValid(g, r);
  }

  /** One step of the loop of `place_cards`: a card leaves its owner's hand and lands on the table. */
  lemma PlaceOneConserves(hands: map<PlayerId, seq<CardId>>, table: OMap<CardId, PlayerId>,
                          seated: seq<PlayerId>, p: PlayerId, c: CardId)
    requires p in hands && c in hands[p] && Distinct(seated) && p in seated
    requires NoDuplicates(multiset(Keys(table)) + HandsPool(seated, hands))
    ensures var hands1, table1 := hands[p := RemoveFirst(hands[p], c)], Put(table, c, p);
      multiset(Keys(table1)) + HandsPool(seated, hands1) == multiset(Keys(table)) + HandsPool(seated, hands)
  {
    var hands1, table1 := hands[p := RemoveFirst(hands[p], c)], Put(table, c, p);
    var t0, hp0 := multiset(Keys(table)), HandsPool(seated, hands);
    TakeFromHand(seated, hands, p, c);
    HandsPoolHolds(seated, hands, p, c);
    assert (t0 + hp0)[c] == t0[c] + hp0[c];
    assert !HasKey(table, c);
    assert Keys(table1) == Keys(table) + [c];
    MultisetTransfer(t0, multiset(Keys(table1)), hp0, HandsPool(seated, hands1), multiset{c}, multiset{});
  }

  /** The loop of `place_cards` moves each bet card from a seated hand onto the table. */
  lemma {:induction false} PlaceBetsConserves(hands: map<PlayerId, seq<CardId>>, table: OMap<CardId, PlayerId>,
                                              bets: OMap<PlayerId, CardId>, seated: seq<PlayerId>)
    requires UniqueKeys(bets)
    requires forall i :: 0 <= i < |bets| ==> bets[i].0 in hands && bets[i].1 in hands[bets[i].0]
    requires Distinct(seated)
    requires forall i :: 0 <= i < |bets| ==> bets[i].0 in seated
    requires NoDuplicates(multiset(Keys(table)) + HandsPool(seated, hands))
    ensures multiset(Keys(LayBets(table, bets))) + HandsPool(seated, TakeBets(hands, bets))
      == multiset(Keys(table)) + HandsPool(seated, hands)
    decreases |bets|
  {
    if bets != [] {
      var p, c := bets[0].0, bets[0].1;
      var hands1, table1 := hands[p := RemoveFirst(hands[p], c)], Put(table, c, p);
      var before := multiset(Keys(table)) + HandsPool(seated, hands);
      assert multiset(Keys(table1)) + HandsPool(seated, hands1) == before by {
        PlaceOneConserves(hands, table, seated, p, c);
      }
      BetsStillHeld(hands, bets);
      assert forall i :: 0 <= i < |bets[1..]| ==> bets[1..][i].0 in seated by {
        assert forall i :: 1 <= i < |bets| ==> bets[1..][i - 1] == bets[i];
      }
      assert TakeBets(hands, bets) == TakeBets(hands1, bets[1..]);
      assert LayBets(table, bets) == LayBets(table1, bets[1..]);
      PlaceBetsConserves(hands1, table1, bets[1..], seated);
    }
  }

  /** A sub-multiset of a duplicate-free multiset is duplicate-free. */
  lemma NoDuplicatesPart(a: multiset<CardId>, b: multiset<CardId>)
    requires NoDuplicates(a + b)
    ensures NoDuplicates(b)
  {
    forall c | c in b ensures b[c] == 1 {
      assert (a + b)[c] == a[c] + b[c];
    }
  }

  /** `place_cards` moves cards only between hands and the table. */
  lemma PlaceCardsConserves(g: Game)
    requires Distinct(g.players) && UniqueKeys(g.bets) && NoDuplicates(Pool(g))
    requires forall p :: p in g.hands && p !in g.players ==> g.hands[p] == []
    requires Current(g).Some?
    ensures Pool(PlaceCards(g)) == Pool(g)
  {
    var bs := HeldBets(g.hands, g.bets);
    BettorsSeated(g.players, g.hands, bs);
    var d, t, hp := multiset(g.deck), multiset(Keys(g.table)), HandsPool(g.players, g.hands);
    assert Pool(g) == d + (t + hp);
    NoDuplicatesPart(d, t + hp);
    PlaceBetsConserves(g.hands, g.table, bs, g.players);
    assert multiset(Keys(LayBets(g.table, bs))) + HandsPool(g.players, TakeBets(g.hands, bs)) == t + hp;
    PlaceCardsPool(g);
  }

  /** A card in a bettor's hand means the bettor is seated, since unseated players hold nothing. */
  lemma BettorsSeated(players: seq<PlayerId>, hands: map<PlayerId, seq<CardId>>, bets: OMap<PlayerId, CardId>)
    requires forall p :: p in hands && p !in players ==> hands[p] == []
    requires forall i :: 0 <= i < |bets| ==> bets[i].0 in hands && bets[i].1 in hands[bets[i].0]
    ensures forall i :: 0 <= i < |bets| ==> bets[i].0 in players
  {
  }

  /** The pool after `place_cards` is made of the old deck and what the bet loop leaves. */
  lemma PlaceCardsPool(g: Game)
    requires Current(g).Some?
    requires UniqueKeys(g.bets)
    ensures var bs := HeldBets(g.hands, g.bets);
      Pool(PlaceCards(g))
        == multiset(g.deck) + (multiset(Keys(LayBets(g.table, bs))) + HandsPool(g.players, TakeBets(g.hands, bs)))
  {
  }

  /** In a valid room two players cannot hold the same card, so no held card is bet twice. */
  lemma BetCardsDistinct(g: Game)
    requires Valid(g)
    ensures Distinct(BetCards(HeldBets(g.hands, g.bets)))
  {
    var bs := HeldBets(g.hands, g.bets);
    var cs := BetCards(bs);
    forall i, j | 0 <= i < j < |cs| ensures cs[i] != cs[j] {
      var p, q, c := bs[i].0, bs[j].0, bs[i].1;
      var hp := HandsPool(g.players, g.hands);
      assert hp[c] <= 1 by {
        var d, t := multiset(g.deck), multiset(Keys(g.table));
        assert Pool(g)[c] == d[c] + hp[c] + t[c];
        if hp[c] > 0 {
          assert c in Pool(g);
        }
      }
      assert p != q && p in g.players && q in g.players by {
        assert bs[i].0 != bs[j].0;
      }
      if bs[j].1 == c {
        HandsPoolHoldsTwo(g.players, g.hands, p, q, c);
        assert false;
      }
    }
  }

  /** In a valid room `place_cards` lays every bet card its bettor still holds on the table under
      that bettor. */
  lemma PlaceCardsBettorsOwnBets(g: Game)
    requires Valid(g) && Current(g).Some?
    ensures forall i :: 0 <= i < |g.bets| && g.bets[i].0 in g.hands && g.bets[i].1 in g.hands[g.bets[i].0] ==>
      Get(PlaceCards(g).table, g.bets[i].1) == Some(g.bets[i].0)
  {
    var bs := HeldBets(g.hands, g.bets);
    BetCardsDistinct(g);
    PlaceCardsMovesBets(g);
    forall i | 0 <= i < |g.bets| && g.bets[i].0 in g.hands && g.bets[i].1 in g.hands[g.bets[i].0]
      ensures Get(PlaceCards(g).table, g.bets[i].1) == Some(g.bets[i].0)
    {
      assert g.bets[i] in g.bets;
      var k :| 0 <= k < |bs| && bs[k] == g.bets[i];
    }
  }

  /** `place_cards` keeps a valid room valid: bettors' hands only shrink. */
  lemma PlaceCardsValid(g: Game)
    requires Valid(g)
    requires Current(g).Some?
    ensures Valid(PlaceCards(g)) && Pool(PlaceCards(g)) == Pool(g)
  {
    var r, bs := PlaceCards(g), HeldBets(g.hands, g.bets);
    assert Pool(r) == Pool(g) by {
      PlaceCardsConserves(g);
    }
    assert (forall p :: p in r.players ==> p in r.hands && |r.hands[p]| <= HandSize)
        && (forall p :: p in r.hands && p !in r.players ==> r.hands[p] == []) by {
      PlaceCardsMovesBets(g);
      BettorsSeated(g.players, g.hands, bs);
      HandsOnlyShrink(g.players, g.hands, r.hands, bs);
    }
    SameSeatsValid(g, r);
  }

  /** The crash is real: in a valid room in MATCHING, a player who bets and then leaves has
      an empty hand but keeps the bet, so the source's `place_cards` raises; the corrected one
      drops that bet and keeps the room valid. */
  lemma PlaceCardsCrashesAfterLeaving(g: Game, p: PlayerId, c: CardId)
    requires Valid(g) && g.phase == Matching && |g.players| > 1
    requires p in g.players && !g.turnEnded[p] && c in g.hands[p]
    ensures var g1 := Membership.RemovePlayer(Actions.MakeBet(g, p, c), p);
      && Valid(g1) && Current(g1).Some?
      && PlaceCardsAsWritten(g1).Err?
      && Valid(PlaceCards(g1)) && Pool(PlaceCards(g1)) == Pool(g)
  {
    var g0 := Actions.MakeBet(g, p, c);
    assert Valid(g0) by {
      assert Pool(g0) == Pool(g);
    }
    var g1 := Membership.RemovePlayer(g0, p);
    Membership.RemovePlayerValid(g0, p);
    assert (p, c) in g1.bets && g1.hands[p] == [];
    var i :| 0 <= i < |g1.bets| && g1.bets[i] == (p, c);
    assert !BetsHeld(g1.hands, g1.bets);
    PlaceCardsValid(g1);
  }

  /** A valid started room whose wrong guesses all name table cards can be scored: validity gives
      every seated player, the storyteller among them, a numeric score. */
  lemma ValidScoringDefined(g: Game)
    requires Valid(g) && g.phase != Waiting
    requires forall i :: 0 <= i < |g.guesses| && !Scoring.Hits(g.leadCard, g.guesses[i].1) ==>
      HasKey(g.table, g.guesses[i].1)
    ensures Scoring.ScoringDefined(g)
  {
  }

  /** The crash is real: in a valid room in GUESSING where some guess missed, a player who finds
      the lead card and then leaves keeps the guess but not a numeric score, so the source's
      `valuate_guesses` raises; the corrected one scores the room and keeps it valid. */
  lemma ScoringCrashesAfterLeaving(g: Game, p: PlayerId, i: nat)
    requires Valid(g) && g.phase == Guessing && |g.players| > 1 && Scoring.ScoringDefined(g)
    requires p in g.players && !g.turnEnded[p] && Current(g) != Some(p)
    requires g.leadCard.Some? && Get(g.table, g.leadCard.value) == Current(g)
    requires i < |g.guesses| && g.guesses[i].0 != p && !Scoring.Hits(g.leadCard, g.guesses[i].1)
    ensures var g1 := Membership.RemovePlayer(Actions.MakeGuess(g, p, g.leadCard.value), p);
      && Valid(g1) && Scoring.ScoringDefined(g1)
      && Scoring.ValuateGuessesAsWritten(g1).Err?
      && Valid(Scoring.ValuateGuesses(g1)) && Pool(Scoring.ValuateGuesses(g1)) == Pool(g)
  {
    var c := g.leadCard.value;
    var g1 := Membership.RemovePlayer(Actions.MakeGuess(g, p, c), p);
    GuessThenLeave(g, p, c);
    MissesStayOnTable(g.guesses, p, c, g.leadCard, g.table);
    GuessLeftUnscored(g.guesses, p, c, g.leadCard, i, g1.result);
    ValidScoringDefined(g1);
    Scoring.ValuateValid(g1);
  }

  /** Guessing and then leaving changes only the guesses and the leaver's seat and score. */
  lemma GuessThenLeave(g: Game, p: PlayerId, c: CardId)
    requires Valid(g) && g.phase == Guessing && |g.players| > 1
    requires p in g.players && !g.turnEnded[p] && HasKey(g.table, c) && Get(g.table, c) != Some(p)
    ensures var g1 := Membership.RemovePlayer(Actions.MakeGuess(g, p, c), p);
      && Valid(g1) && Pool(g1) == Pool(g) && g1.phase == Guessing
      && g1.guesses == Put(g.guesses, p, c) && g1.table == g.table && g1.leadCard == g.leadCard
      && !Numeric(g1.result, p)
  {
    var g0 := Actions.MakeGuess(g, p, c);
    assert g0.guesses == Put(g.guesses, p, c);
    assert Valid(g0) by {
      assert Pool(g0) == Pool(g);
    }
    Membership.RemovePlayerValid(g0, p);
    Membership.RemovePlayerFrame(g0, p);
  }

  /** A guess of the lead card adds no wrong guess, so wrong guesses stay on the table. */
  lemma MissesStayOnTable(gs: OMap<PlayerId, CardId>, p: PlayerId, c: CardId, lead: Option<CardId>,
                          table: OMap<CardId, PlayerId>)
    requires Scoring.Hits(lead, c)
    requires forall i :: 0 <= i < |gs| && !Scoring.Hits(lead, gs[i].1) ==> HasKey(table, gs[i].1)
    ensures var gs' := Put(gs, p, c);
      forall i :: 0 <= i < |gs'| && !Scoring.Hits(lead, gs'[i].1) ==> HasKey(table, gs'[i].1)
  {
    PutEntries(gs, p, c);
    var gs' := Put(gs, p, c);
    forall i | 0 <= i < |gs'| && !Scoring.Hits(lead, gs'[i].1) ensures HasKey(table, gs'[i].1) {
      assert gs'[i] in gs;
    }
  }

  /** With one guess that missed and a correct guess by a player without a numeric score, the
      round is mixed and some correct guesser cannot be given points. */
  lemma GuessLeftUnscored(gs: OMap<PlayerId, CardId>, p: PlayerId, c: CardId, lead: Option<CardId>, i: nat,
                          result: map<PlayerId, Score>)
    requires Scoring.Hits(lead, c) && !Numeric(result, p)
    requires i < |gs| && gs[i].0 != p && !Scoring.Hits(lead, gs[i].1)
    ensures var gs' := Put(gs, p, c);
      && !Scoring.AllHit(gs', lead) && !Scoring.NoneHit(gs', lead) && !Scoring.HitsScored(result, gs', lead)
  {
    PutEntries(gs, p, c);
    var gs' := Put(gs, p, c);
    assert (p, c) in gs' && gs[i] in gs';
    var k :| 0 <= k < |gs'| && gs'[k] == (p, c);
    var j :| 0 <= j < |gs'| && gs'[j] == gs[i];
  }

  /** Hands that lose at most their owner's one bet card stay within a full hand, and hands of
      players who hold nothing and bet nothing stay empty. */
  lemma HandsOnlyShrink(ps: seq<PlayerId>, h0: map<PlayerId, seq<CardId>>, h1: map<PlayerId, seq<CardId>>,
                        bets: OMap<PlayerId, CardId>)
    requires forall p :: p in ps ==> p in h0 && |h0[p]| <= HandSize
    requires forall p :: p in h0 && p !in ps ==> h0[p] == []
    requires h1.Keys == h0.Keys
    requires forall i :: 0 <= i < |bets| ==> bets[i].0 in ps && bets[i].0 in h0
    requires forall i :: 0 <= i < |bets| ==> multiset(h1[bets[i].0]) + multiset{bets[i].1} == multiset(h0[bets[i].0])
    requires forall p :: p in h0 && !HasKey(bets, p) ==> h1[p] == h0[p]
    ensures forall p :: p in ps ==> p in h1 && |h1[p]| <= HandSize
    ensures forall p :: p in h1 && p !in ps ==> h1[p] == []
  {
    forall p | p in ps ensures |h1[p]| <= HandSize {
      if HasKey(bets, p) {
        var i :| 0 <= i < |bets| && bets[i].0 == p;
        assert |multiset(h1[p])| + 1 == |multiset(h0[p])|;
      }
    }
    forall p | p in h1 && p !in ps ensures h1[p] == [] {
      assert !HasKey(bets, p);
    }
  }

  /** `end_turn` moves the table to the deck and deals from it: no card is lost or created. */
  lemma EndTurnConserves(g: Game)
    requires Current(g).Some?
    requires forall p :: p in g.players ==> p in g.hands
    requires Distinct(g.players)
    ensures Pool(EndTurn(g)) == Pool(g)
  {
    var g1 := g.(turn := (g.turn + 1) % |g.players|,
                 turnEnded := SetFlags(g.turnEnded, g.players, false),
                 deck := g.deck + Keys(g.table),
                 table := []);
    assert Pool(g1) == Pool(g);
    DealConserves(g1, g.players);
  }

  /** `end_turn` keeps a valid room valid. */
  lemma EndTurnValid(g: Game)
    requires Valid(g) && Current(g).Some?
    ensures Valid(EndTurn(g))
  {
    var r := EndTurn(g);
    EndTurnConserves(g);
    SameSeatsValid(g, r);
  }

  /** When the deck and the returned table cards cover what the hands lack, every hand is full after `end_turn`. */
  lemma EndTurnFills(g: Game)
    requires Valid(g) && Current(g).Some?
    requires |g.deck| + |g.table| >= Deficit(g.hands, g.players)
    ensures forall p :: p in g.players ==> |EndTurn(g).hands[p]| == HandSize
  {
    DealAllFills(Stock(g.hands, g.deck + Keys(g.table)), g.players);
  }

  /** The storyteller names a card of their hand and tells the story: that card alone lies on the
      table, owned by the storyteller, and the room stays well formed with no card gained or lost. */
  lemma TellStory(g: Game, c: CardId, association: string)
    requires Valid(g) && g.table == [] && Current(g).Some? && c in g.hands[Current(g).value]
    ensures var r := StartTurn(Actions.AddLeadCard(g, c), association);
      && Valid(r) && Pool(r) == Pool(g)
      && r.table == [(c, Current(g).value)] && r.leadCard == Some(c)
      && multiset(r.hands[Current(g).value]) + multiset{c} == multiset(g.hands[Current(g).value])
  {
    StartTurnValid(Actions.AddLeadCard(g, c), association);
  }
}
