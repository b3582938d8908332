/** The phase-advancing transitions of a room: `start_game`, `start_turn`, `place_cards` and `end_turn`. */
module Turns {
  import opened Options
  import opened Seqs
  import opened OrderedMap
  import opened Room
  import opened Dealing

  /** `start_game`: the shuffled card set `cards` becomes the deck (the source draws it from the
      catalog and shuffles it), `order` is the shuffled seating, every flag is cleared and each
      player is dealt a hand in seating order. Scores are left as they are. */
  function StartGame(g: Game, cards: seq<CardId>, order: seq<PlayerId>): (r: Game)
    requires |g.players| > 0
    requires multiset(order) == multiset(g.players)
    requires forall p :: p in g.players ==> p in g.hands
    ensures r.players == order && r.phase == Storytelling && Current(r) == Some(order[0])
    ensures forall p :: p in order ==> p in r.turnEnded && !r.turnEnded[p]
    ensures r.hands.Keys == g.hands.Keys
    ensures forall p :: p in order ==> p in g.hands && g.hands[p] <= r.hands[p]
    ensures r.result == g.result && r.table == g.table && r.bets == g.bets && r.guesses == g.guesses
    ensures r == g.(turn := r.turn, deck := r.deck, players := r.players, turnEnded := r.turnEnded,
                    hands := r.hands, phase := r.phase)
  {
    assert forall p :: p in order ==> p in g.players by {
      assert forall p :: p in order ==> p in multiset(g.players);
    }
    var g1 := g.(turn := 0, deck := cards, players := order, turnEnded := SetFlags(g.turnEnded, order, false));
    var dealt := Deal(g1, order);
    assert dealt.players == order && dealt.turn == 0 && dealt.turnEnded == g1.turnEnded;
    dealt.(phase := Storytelling)
  }

  /** `start_turn`: the storyteller's chosen lead card leaves their hand and becomes the only card
      on the table; only the storyteller has ended their turn; bets are cleared. */
  function StartTurn(g: Game, association: string): (r: Game)
    requires Current(g).Some?
    requires forall p :: p in g.players ==> p in g.hands
    requires g.leadCard.Some? && g.leadCard.value in g.hands[Current(g).value]
    ensures var st, lead := Current(g).value, g.leadCard.value;
      && Current(r) == Current(g)
      && r.hands.Keys == g.hands.Keys
      && r.table == [(lead, st)]
      && multiset(r.hands[st]) + multiset{lead} == multiset(g.hands[st])
      && (forall p :: p in g.hands && p != st ==> p in r.hands && r.hands[p] == g.hands[p])
      && (forall p :: p in g.players ==> p in r.turnEnded && (r.turnEnded[p] <==> p == st))
    ensures r.bets == [] && r.phase == Matching && r.association == Some(association)
    ensures r.deck == g.deck && r.players == g.players && r.result == g.result && r.guesses == g.guesses
    ensures r == g.(association := r.association, turnEnded := r.turnEnded, bets := r.bets, table := r.table,
                    hands := r.hands, phase := r.phase)
  {
    var st, lead := Current(g).value, g.leadCard.value;
    g.(association := Some(association),
       turnEnded := OnlyStorytellerEnded(g.turnEnded, g.players, st),
       bets := [],
       table := [(lead, st)],
       hands := g.hands[st := RemoveFirst(g.hands[st], lead)],
       phase := Matching)
  }

  /** The cards of the bets, in bet order. */
  function BetCards(bets: OMap<PlayerId, CardId>): (cs: seq<CardId>)
    ensures |cs| == |bets| && forall i :: 0 <= i < |bets| ==> cs[i] == bets[i].1
  {
    seq(|bets|, i requires 0 <= i < |bets| => bets[i].1)
  }

  /** Every bettor has a hand holding the card they bet. */
  predicate BetsHeld(hands: map<PlayerId, seq<CardId>>, bets: OMap<PlayerId, CardId>) {
    forall i :: 0 <= i < |bets| ==> bets[i].0 in hands && bets[i].1 in hands[bets[i].0]
  }

  /** The bets whose bettor still holds the bet card, in bet order. A bettor who left the table
      after betting has had their hand returned to the deck, so their bet is no longer held. */
  function HeldBets(hands: map<PlayerId, seq<CardId>>, bets: OMap<PlayerId, CardId>): (r: OMap<PlayerId, CardId>)
    ensures BetsHeld(hands, r) && |r| <= |bets|
    ensures forall x :: x in r <==> x in bets && x.0 in hands && x.1 in hands[x.0]
    ensures BetsHeld(hands, bets) ==> r == bets
    ensures UniqueKeys(bets) ==> UniqueKeys(r)
    decreases |bets|
  {
    if bets == [] then []
    else
      var rest := HeldBets(hands, bets[1..]);
      var r := if bets[0].0 in hands && bets[0].1 in hands[bets[0].0] then [bets[0]] + rest else rest;
      assert forall x :: x in bets[1..] ==> x in bets;
      FilterStepUnique(bets, rest, r);
      FilterStepHeld(hands, bets, rest, r);
      r
  }

  /** Keeping the first entry of a map with unique keys in front of entries taken from the rest
      keeps the keys unique. */
  lemma KeepFirstUnique(bets: OMap<PlayerId, CardId>, rest: OMap<PlayerId, CardId>)
    requires UniqueKeys(bets) && bets != [] && UniqueKeys(rest)
    requires forall x :: x in rest ==> x in bets[1..]
    ensures UniqueKeys([bets[0]] + rest)
  {
    forall i | 0 <= i < |rest| ensures rest[i].0 != bets[0].0 {
      assert rest[i] in bets[1..];
      var k :| 0 <= k < |bets[1..]| && bets[1..][k] == rest[i];
      assert bets[k + 1] == rest[i];
    }
  }

  /** One step of filtering bets by whether they are held: the result is held throughout, and it
      is the whole list when every bet was held. */
  lemma FilterStepHeld(hands: map<PlayerId, seq<CardId>>, bets: OMap<PlayerId, CardId>,
                       rest: OMap<PlayerId, CardId>, r: OMap<PlayerId, CardId>)
    requires bets != [] && BetsHeld(hands, rest)
    requires BetsHeld(hands, bets[1..]) ==> rest == bets[1..]
    requires r == if bets[0].0 in hands && bets[0].1 in hands[bets[0].0] then [bets[0]] + rest else rest
    ensures BetsHeld(hands, r)
    ensures BetsHeld(hands, bets) ==> r == bets
  {
    if r != rest {
      assert forall i :: 1 <= i < |r| ==> r[i] == rest[i - 1];
    }
    if BetsHeld(hands, bets) {
      assert BetsHeld(hands, bets[1..]) by {
        assert forall i :: 0 <= i < |bets| - 1 ==> bets[1..][i] == bets[i + 1];
      }
      assert bets[0].0 in hands && bets[0].1 in hands[bets[0].0];
      assert [bets[0]] + bets[1..] == bets;
    }
  }

  /** One step of filtering a map with unique keys: keeping or dropping its first entry in front
      of entries taken from the rest keeps the keys unique. */
  lemma FilterStepUnique(bets: OMap<PlayerId, CardId>, rest: OMap<PlayerId, CardId>, r: OMap<PlayerId, CardId>)
    requires bets != [] && (forall x :: x in rest ==> x in bets[1..])
    requires UniqueKeys(bets[1..]) ==> UniqueKeys(rest)
    requires r == [bets[0]] + rest || r == rest
    ensures UniqueKeys(bets) ==> UniqueKeys(r)
  {
    if UniqueKeys(bets) {
      UniqueKeysTail(bets);
      if r != rest {
        KeepFirstUnique(bets, rest);
      }
    }
  }

  /** The hands half of the loop of `place_cards`: each bet card leaves its owner's hand. The
      source's single loop also lays the card on the table, which `LayBets` does; neither half
      reads what the other writes. */
  function TakeBets(hands: map<PlayerId, seq<CardId>>, bets: OMap<PlayerId, CardId>): (r: map<PlayerId, seq<CardId>>)
    requires UniqueKeys(bets)
    requires forall i :: 0 <= i < |bets| ==> bets[i].0 in hands && bets[i].1 in hands[bets[i].0]
    ensures r.Keys == hands.Keys
    decreases |bets|
  {
    if bets == [] then hands
    else
      var p, c := bets[0].0, bets[0].1;
      BetsStillHeld(hands, bets);
      TakeBets(hands[p := RemoveFirst(hands[p], c)], bets[1..])
  }

  /** The table half of the loop of `place_cards`: each bet card is put on the table under its
      bettor, in bet order. */
  function LayBets(table: OMap<CardId, PlayerId>, bets: OMap<PlayerId, CardId>): (r: OMap<CardId, PlayerId>)
    ensures UniqueKeys(table) ==> UniqueKeys(r)
    decreases |bets|
  {
    if bets == [] then table else LayBets(Put(table, bets[0].1, bets[0].0), bets[1..])
  }

  /** After the first bet is placed, the remaining bets are still held by their bettors. */
  lemma BetsStillHeld(hands: map<PlayerId, seq<CardId>>, bets: OMap<PlayerId, CardId>)
    requires UniqueKeys(bets) && bets != []
    requires forall i :: 0 <= i < |bets| ==> bets[i].0 in hands && bets[i].1 in hands[bets[i].0]
    ensures var hands1 := hands[bets[0].0 := RemoveFirst(hands[bets[0].0], bets[0].1)];
      forall i :: 0 <= i < |bets[1..]| ==> bets[1..][i].0 in hands1 && bets[1..][i].1 in hands1[bets[1..][i].0]
    ensures hands[bets[0].0 := RemoveFirst(hands[bets[0].0], bets[0].1)].Keys == hands.Keys
    ensures UniqueKeys(bets[1..]) && !HasKey(bets[1..], bets[0].0)
    ensures forall q :: HasKey(bets[1..], q) ==> HasKey(bets, q)
  {
    UniqueKeysTail(bets);
    assert forall i :: 1 <= i < |bets| ==> bets[i].0 != bets[0].0;
  }

  /** A player who placed no bet keeps their hand. */
  lemma {:induction false} TakeBetsKeepsHand(hands: map<PlayerId, seq<CardId>>, bets: OMap<PlayerId, CardId>, q: PlayerId)
    requires UniqueKeys(bets)
    requires forall i :: 0 <= i < |bets| ==> bets[i].0 in hands && bets[i].1 in hands[bets[i].0]
    requires q in hands && !HasKey(bets, q)
    ensures TakeBets(hands, bets)[q] == hands[q]
    decreases |bets|
  {
    if bets != [] {
      var p, c := bets[0].0, bets[0].1;
      BetsStillHeld(hands, bets);
      assert q != p by {
        assert bets[0].0 == p;
      }
      TakeBetsKeepsHand(hands[p := RemoveFirst(hands[p], c)], bets[1..], q);
    }
  }

  /** A bettor's hand loses exactly the card they bet: its first copy, as `list.remove` does. */
  lemma {:induction false} TakeBetsRemovesBet(hands: map<PlayerId, seq<CardId>>, bets: OMap<PlayerId, CardId>, i: nat)
    requires UniqueKeys(bets)
    requires forall i :: 0 <= i < |bets| ==> bets[i].0 in hands && bets[i].1 in hands[bets[i].0]
    requires i < |bets|
    ensures TakeBets(hands, bets)[bets[i].0] == RemoveFirst(hands[bets[i].0], bets[i].1)
    decreases |bets|
  {
    var p, c := bets[0].0, bets[0].1;
    var hands1 := hands[p := RemoveFirst(hands[p], c)];
    BetsStillHeld(hands, bets);
    if i == 0 {
      TakeBetsKeepsHand(hands1, bets[1..], p);
    } else {
      var q, d := bets[i].0, bets[i].1;
      assert bets[1..][i - 1] == (q, d);
      assert q != p by {
        assert bets[0].0 == p;
      }
      TakeBetsRemovesBet(hands1, bets[1..], i - 1);
    }
  }

  /** Every card already on the table stays there and every bet card lands on it. */
  lemma {:induction false} LayBetsOnTable(table: OMap<CardId, PlayerId>, bets: OMap<PlayerId, CardId>, c: CardId)
    requires HasKey(table, c) || c in BetCards(bets)
    ensures HasKey(LayBets(table, bets), c)
    decreases |bets|
  {
    if bets != [] {
      var p, c0 := bets[0].0, bets[0].1;
      var table1 := Put(table, c0, p);
      assert HasKey(table1, c) || c in BetCards(bets[1..]) by {
        if c != c0 {
          PutOther(table, c0, p, c);
          if !HasKey(table, c) {
            var i :| 0 <= i < |bets| && BetCards(bets)[i] == c;
            assert BetCards(bets[1..])[i - 1] == c;
          }
        }
      }
      LayBetsOnTable(table1, bets[1..], c);
    }
  }

  /** A card nobody bet keeps its table entry, owner included. */
  lemma {:induction false} LayBetsKeeps(table: OMap<CardId, PlayerId>, bets: OMap<PlayerId, CardId>, c: CardId)
    requires c !in BetCards(bets)
    ensures Get(LayBets(table, bets), c) == Get(table, c)
    decreases |bets|
  {
    if bets != [] {
      var p, c0 := bets[0].0, bets[0].1;
      assert c != c0 by {
        assert BetCards(bets)[0] == c0;
      }
      PutOther(table, c0, p, c);
      assert c !in BetCards(bets[1..]) by {
        assert forall k :: 0 <= k < |bets| - 1 ==> BetCards(bets[1..])[k] == BetCards(bets)[k + 1];
      }
      LayBetsKeeps(Put(table, c0, p), bets[1..], c);
    }
  }

  /** When the bets are distinct, no bet's card is bet again later. */
  lemma BetCardsNotRepeated(bets: OMap<PlayerId, CardId>, i: nat)
    requires Distinct(BetCards(bets)) && i < |bets|
    ensures bets[i].1 !in BetCards(bets[i + 1..])
  {
    var cs, ts := BetCards(bets), BetCards(bets[i + 1..]);
    forall k | 0 <= k < |ts| ensures ts[k] != bets[i].1 {
      assert ts[k] == cs[i + 1 + k] && cs[i] == bets[i].1;
    }
  }

  /** The first bet's card, bet by nobody else, ends up owned by the first bettor. */
  lemma LayBetsOwnerFirst(table: OMap<CardId, PlayerId>, bets: OMap<PlayerId, CardId>)
    requires bets != [] && bets[0].1 !in BetCards(bets[1..])
    ensures Get(LayBets(table, bets), bets[0].1) == Some(bets[0].0)
  {
    LayBetsKeeps(Put(table, bets[0].1, bets[0].0), bets[1..], bets[0].1);
  }

  /** A bet card that no later bet names lies on the table under its bettor, as
      `current_table[card] = player` records; a later bet of the same card would overwrite it. */
  lemma {:induction false} LayBetsOwner(table: OMap<CardId, PlayerId>, bets: OMap<PlayerId, CardId>, i: nat)
    requires i < |bets| && bets[i].1 !in BetCards(bets[i + 1..])
    ensures Get(LayBets(table, bets), bets[i].1) == Some(bets[i].0)
    decreases |bets|, 1
  {
    if i == 0 {
      LayBetsOwnerFirst(table, bets);
    } else {
      LayBetsOwnerLater(table, bets, i);
    }
  }

  /** The step of `LayBetsOwner` past the first bet: the first bet is laid, then the rest. */
  lemma {:induction false} LayBetsOwnerLater(table: OMap<CardId, PlayerId>, bets: OMap<PlayerId, CardId>, i: nat)
    requires 0 < i < |bets| && bets[i].1 !in BetCards(bets[i + 1..])
    ensures Get(LayBets(table, bets), bets[i].1) == Some(bets[i].0)
    decreases |bets|, 0
  {
    var rest := bets[1..];
    assert rest[i - 1] == bets[i] && rest[i..] == bets[i + 1..];
    LayBetsOwner(Put(table, bets[0].1, bets[0].0), rest, i - 1);
  }

  /** Every bettor loses exactly their bet card and every other hand is kept. */
  lemma TakeBetsEffect(hands: map<PlayerId, seq<CardId>>, bets: OMap<PlayerId, CardId>)
    requires UniqueKeys(bets)
    requires forall i :: 0 <= i < |bets| ==> bets[i].0 in hands && bets[i].1 in hands[bets[i].0]
    ensures var r := TakeBets(hands, bets);
      && (forall i :: 0 <= i < |bets| ==>
            multiset(r[bets[i].0]) + multiset{bets[i].1} == multiset(hands[bets[i].0]))
      && (forall p :: p in hands && !HasKey(bets, p) ==> r[p] == hands[p])
  {
    var r := TakeBets(hands, bets);
    forall i | 0 <= i < |bets|
      ensures multiset(r[bets[i].0]) + multiset{bets[i].1} == multiset(hands[bets[i].0])
    {
      TakeBetsRemovesBet(hands, bets, i);
    }
    forall p | p in hands && !HasKey(bets, p) ensures r[p] == hands[p] {
      TakeBetsKeepsHand(hands, bets, p);
    }
  }

  /** `place_cards`, corrected: every bet still held moves onto the table under its bettor,
      guesses are cleared, only the storyteller has ended their turn, and the room enters
      GUESSING. The bet of a player who left after betting is dropped, where the source raises
      (`PlaceCardsAsWritten`). */
  function PlaceCards(g: Game): (r: Game)
    requires Current(g).Some?
    requires UniqueKeys(g.bets)
    ensures r.phase == Guessing && r.guesses == [] && Current(r) == Current(g)
    ensures r.hands.Keys == g.hands.Keys
    ensures forall p :: p in g.players ==> p in r.turnEnded && (r.turnEnded[p] <==> p == Current(g).value)
    ensures r.deck == g.deck && r.players == g.players && r.result == g.result && r.bets == g.bets
    ensures r == g.(hands := r.hands, table := r.table, turnEnded := r.turnEnded, guesses := r.guesses, phase := r.phase)
  {
    var bets := HeldBets(g.hands, g.bets);
    g.(hands := TakeBets(g.hands, bets), table := LayBets(g.table, bets),
       turnEnded := OnlyStorytellerEnded(g.turnEnded, g.players, Current(g).value),
       guesses := [], phase := Guessing)
  }

  /** The exceptions the loop of `place_cards` can raise: a bettor without a hand, or a bet card
      missing from the bettor's hand. */
  datatype PlaceError = KeyError | ValueError

  /** After the first bet is placed, the rest are held exactly when they were held before, since
      no one else bets from the first bettor's hand. */
  lemma HeldAfterFirst(hands: map<PlayerId, seq<CardId>>, bets: OMap<PlayerId, CardId>)
    requires UniqueKeys(bets) && bets != [] && bets[0].0 in hands && bets[0].1 in hands[bets[0].0]
    ensures UniqueKeys(bets[1..])
    ensures BetsHeld(hands, bets) <==> BetsHeld(hands[bets[0].0 := RemoveFirst(hands[bets[0].0], bets[0].1)], bets[1..])
  {
    UniqueKeysTail(bets);
    assert forall i :: 1 <= i < |bets| ==> bets[i].0 != bets[0].0 && bets[1..][i - 1] == bets[i];
  }

  /** The loop of `place_cards` as written: bet by bet, `self.hands[player].remove(card)` and
      `self.current_table[card] = player`, raising on the first bet that cannot be taken. */
  function PlaceBetsAsWritten(hands: map<PlayerId, seq<CardId>>, table: OMap<CardId, PlayerId>,
                              bets: OMap<PlayerId, CardId>): (r: Result<(map<PlayerId, seq<CardId>>, OMap<CardId, PlayerId>), PlaceError>)
    requires UniqueKeys(bets)
    ensures r.Ok? <==> BetsHeld(hands, bets)
    ensures BetsHeld(hands, bets) ==> r == Ok((TakeBets(hands, bets), LayBets(table, bets)))
    decreases |bets|
  {
    if bets == [] then Ok((hands, table))
    else
      var p, c := bets[0].0, bets[0].1;
      if p !in hands then Err(KeyError)
      else if c !in hands[p] then Err(ValueError)
      else
        HeldAfterFirst(hands, bets);
        PlaceBetsAsWritten(hands[p := RemoveFirst(hands[p], c)], Put(table, c, p), bets[1..])
  }

  /** `place_cards` as written: it raises exactly when some bettor no longer holds their bet card
      (a player who bet and then left has an empty hand); otherwise it is the corrected
      `PlaceCards`. */
  function PlaceCardsAsWritten(g: Game): (r: Result<Game, PlaceError>)
    requires Current(g).Some?
    requires UniqueKeys(g.bets)
    ensures r.Err? <==> !BetsHeld(g.hands, g.bets)
    ensures r.Ok? ==> r.value == PlaceCards(g)
  {
    match PlaceBetsAsWritten(g.hands, g.table, g.bets)
    case Err(e) => Err(e)
    case Ok((hands, table)) =>
      Ok(g.(hands := hands, table := table,
            turnEnded := OnlyStorytellerEnded(g.turnEnded, g.players, Current(g).value),
            guesses := [], phase := Guessing))
  }

  /** The corrected `place_cards` is the source's, run on the bets still held. */
  lemma PlaceCardsSkipsLostBets(g: Game)
    requires Current(g).Some? && UniqueKeys(g.bets)
    ensures var h := g.(bets := HeldBets(g.hands, g.bets));
      && PlaceCardsAsWritten(h).Ok?
      && PlaceCards(g) == PlaceCardsAsWritten(h).value.(bets := g.bets)
  {
    var h := g.(bets := HeldBets(g.hands, g.bets));
    assert HeldBets(h.hands, h.bets) == h.bets;
  }

  /** `place_cards` takes from each bettor still holding their bet card exactly that card, leaves
      every other hand as it was, and puts every such bet card on the table beside the cards
      already there; a card bet by one player only lies there under that player, and every other
      table entry is kept. */
  lemma PlaceCardsMovesBets(g: Game)
    requires Current(g).Some?
    requires UniqueKeys(g.bets)
    ensures var r, bs := PlaceCards(g), HeldBets(g.hands, g.bets);
      && (forall i :: 0 <= i < |bs| ==>
            multiset(r.hands[bs[i].0]) + multiset{bs[i].1} == multiset(g.hands[bs[i].0]))
      && (forall p :: p in g.hands && !HasKey(bs, p) ==> p in r.hands && r.hands[p] == g.hands[p])
      && (forall c :: HasKey(g.table, c) || c in BetCards(bs) ==> HasKey(r.table, c))
      && (forall c :: c !in BetCards(bs) ==> Get(r.table, c) == Get(g.table, c))
      && (Distinct(BetCards(bs)) ==>
            forall i :: 0 <= i < |bs| ==> Get(r.table, bs[i].1) == Some(bs[i].0))
  {
    var bs := HeldBets(g.hands, g.bets);
    TakeBetsEffect(g.hands, bs);
    var table := PlaceCards(g).table;
    assert table == LayBets(g.table, bs);
    forall c | HasKey(g.table, c) || c in BetCards(bs) ensures HasKey(table, c) {
      LayBetsOnTable(g.table, bs, c);
    }
    forall c | c !in BetCards(bs) ensures Get(table, c) == Get(g.table, c) {
      LayBetsKeeps(g.table, bs, c);
    }
    if Distinct(BetCards(bs)) {
      forall i | 0 <= i < |bs| ensures Get(table, bs[i].1) == Some(bs[i].0) {
        BetCardsNotRepeated(bs, i);
        LayBetsOwner(g.table, bs, i);
      }
    }
  }

  /** `end_turn`: the next seat becomes storyteller, the table cards go to the bottom of the deck,
      every hand is refilled from the front of the deck in seating order, and the round's lead
      card and association are forgotten. */
  function EndTurn(g: Game): (r: Game)
    requires Current(g).Some?
    requires forall p :: p in g.players ==> p in g.hands
    ensures r.turn == (g.turn + 1) % |g.players| && Current(r) == Some(g.players[r.turn])
    ensures r.table == [] && r.leadCard == None && r.association == None && r.phase == Storytelling
    ensures r.hands.Keys == g.hands.Keys
    ensures forall p :: p in g.players ==> p in r.turnEnded && !r.turnEnded[p]
    ensures forall p :: p in g.players ==> g.hands[p] <= r.hands[p]
    ensures forall p :: p in g.hands && p !in g.players ==> r.hands[p] == g.hands[p]
    ensures forall p :: p in g.players && |g.hands[p]| <= HandSize ==> |r.hands[p]| <= HandSize
    ensures r.players == g.players && r.result == g.result
    ensures IsSuffix(r.deck, g.deck + Keys(g.table))
    ensures r == g.(turn := r.turn, turnEnded := r.turnEnded, deck := r.deck, table := r.table, hands := r.hands,
                    association := r.association, leadCard := r.leadCard, phase := r.phase)
  {
    var g1 := g.(turn := (g.turn + 1) % |g.players|,
                 turnEnded := SetFlags(g.turnEnded, g.players, false),
                 deck := g.deck + Keys(g.table),
                 table := []);
    Deal(g1, g.players).(association := None, leadCard := None, phase := Storytelling)
  }
}
