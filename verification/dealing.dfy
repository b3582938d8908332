/** Dealing cards from the front of the deck (`Game._deal_hand`). */
module Dealing {
  import opened Seqs
  import opened Room

  /** The hands and the deck: the only parts of a room dealing touches. */
  datatype Stock = Stock(hands: map<PlayerId, seq<CardId>>, deck: seq<CardId>)

  /** `_deal_hand`: top `p`'s hand up to six cards from the front of the deck. The source computes
      `needed = 6 - len(hand)` and slices `_cards[:needed]`, so a hand already over six would take
      Python's negative-index slice; the cut is modelled exactly. */
  function DealHand(s: Stock, p: PlayerId): (r: Stock)
    requires p in s.hands
    ensures p in r.hands && r.hands == s.hands[p := r.hands[p]]
    ensures r.hands[p] + r.deck == s.hands[p] + s.deck
    ensures s.hands[p] <= r.hands[p]
    ensures |s.hands[p]| <= HandSize ==> |r.hands[p]| == Min(HandSize, |s.hands[p]| + |s.deck|)
    ensures IsSuffix(r.deck, s.deck)
  {
    var k := Cut(HandSize - |s.hands[p]|, |s.deck|);
    assert s.deck == s.deck[..k] + s.deck[k..];
    Stock(s.hands[p := s.hands[p] + s.deck[..k]], s.deck[k..])
  }

  /** Deal to each of `ps` in turn, as the source's `for p in players: _deal_hand(p)`. */
  function DealAll(s: Stock, ps: seq<PlayerId>): (r: Stock)
    requires forall p :: p in ps ==> p in s.hands
    ensures r.hands.Keys == s.hands.Keys
    ensures forall p :: p in s.hands && p !in ps ==> r.hands[p] == s.hands[p]
    decreases |ps|
  {
    if ps == [] then s else DealAll(DealHand(s, ps[0]), ps[1..])
  }

  /** Dealing takes cards from the front of the deck only: what is left is the old deck's tail. */
  lemma {:induction false} DealAllTakesFromFront(s: Stock, ps: seq<PlayerId>)
    requires forall p :: p in ps ==> p in s.hands
    ensures IsSuffix(DealAll(s, ps).deck, s.deck)
    decreases |ps|
  {
    if ps != [] {
      var s1 := DealHand(s, ps[0]);
      assert DealAll(s, ps) == DealAll(s1, ps[1..]);
      DealAllTakesFromFront(s1, ps[1..]);
      SuffixTransitive(DealAll(s1, ps[1..]).deck, s1.deck, s.deck);
    }
  }

  /** Dealing only adds to a hand, and never beyond six cards. */
  lemma {:induction false} DealAllGrows(s: Stock, ps: seq<PlayerId>, p: PlayerId)
    requires forall p :: p in ps ==> p in s.hands
    requires p in ps
    ensures s.hands[p] <= DealAll(s, ps).hands[p]
    ensures |s.hands[p]| <= HandSize ==> |DealAll(s, ps).hands[p]| <= HandSize
    decreases |ps|
  {
    var s1 := DealHand(s, ps[0]);
    var r := DealAll(s1, ps[1..]);
    assert DealAll(s, ps) == r;
    if p in ps[1..] {
      DealAllGrows(s1, ps[1..], p);
    }
    assert s.hands[p] <= s1.hands[p];
  }

  /** Deal to the players `ps` of room `g`. */
  function Deal(g: Game, ps: seq<PlayerId>): (r: Game)
    requires forall p :: p in ps ==> p in g.hands
    ensures r == g.(hands := r.hands, deck := r.deck)
    ensures r.hands.Keys == g.hands.Keys
    ensures forall p :: p in g.hands && p !in ps ==> r.hands[p] == g.hands[p]
    ensures forall p :: p in ps ==> g.hands[p] <= r.hands[p]
    ensures forall p :: p in ps && |g.hands[p]| <= HandSize ==> |r.hands[p]| <= HandSize
    ensures IsSuffix(r.deck, g.deck)
  {
    var s := DealAll(Stock(g.hands, g.deck), ps);
    DealAllTakesFromFront(Stock(g.hands, g.deck), ps);
    assert forall p :: p in ps ==> g.hands[p] <= s.hands[p] && (|g.hands[p]| <= HandSize ==> |s.hands[p]| <= HandSize) by {
      forall p | p in ps ensures g.hands[p] <= s.hands[p] && (|g.hands[p]| <= HandSize ==> |s.hands[p]| <= HandSize) {
        DealAllGrows(Stock(g.hands, g.deck), ps, p);
      }
    }
    g.(hands := s.hands, deck := s.deck)
  }

  /** How many cards the players `ps` lack to reach a full hand. */
  function Deficit(hands: map<PlayerId, seq<CardId>>, ps: seq<PlayerId>): nat {
    if ps == [] then 0
    else (if |HandOf(hands, ps[0])| < HandSize then HandSize - |HandOf(hands, ps[0])| else 0) + Deficit(hands, ps[1..])
  }

  lemma {:induction false} DeficitFrame(h1: map<PlayerId, seq<CardId>>, h2: map<PlayerId, seq<CardId>>, ps: seq<PlayerId>)
    requires forall p :: p in ps ==> HandOf(h1, p) == HandOf(h2, p)
    ensures Deficit(h1, ps) == Deficit(h2, ps)
  {
    if ps != [] {
      DeficitFrame(h1, h2, ps[1..]);
    }
  }

  /** Dealing moves cards from the deck into seated hands and loses or creates none. */
  lemma {:induction false} DealAllConserves(s: Stock, ps: seq<PlayerId>, seated: seq<PlayerId>)
    requires Distinct(seated)
    requires forall p :: p in ps ==> p in s.hands && p in seated
    ensures var r := DealAll(s, ps);
      multiset(r.deck) + HandsPool(seated, r.hands) == multiset(s.deck) + HandsPool(seated, s.hands)
    decreases |ps|
  {
    if ps != [] {
      var p := ps[0];
      var s1 := DealHand(s, p);
      HandsPoolUpdate(seated, s.hands, p, s1.hands[p]);
      assert multiset(s1.deck) + multiset(s1.hands[p]) == multiset(s.deck) + multiset(s.hands[p]) by {
        assert s1.hands[p] + s1.deck == s.hands[p] + s.deck;
        assert multiset(s1.hands[p] + s1.deck) == multiset(s1.hands[p]) + multiset(s1.deck);
        assert multiset(s.hands[p] + s.deck) == multiset(s.hands[p]) + multiset(s.deck);
        assert multiset(s1.hands[p]) + multiset(s1.deck) == multiset(s.hands[p]) + multiset(s.deck);
        assert multiset(s1.deck) + multiset(s1.hands[p]) == multiset(s1.hands[p]) + multiset(s1.deck);
        assert multiset(s.deck) + multiset(s.hands[p]) == multiset(s.hands[p]) + multiset(s.deck);
      }
      MultisetTransfer(multiset(s.deck), multiset(s1.deck), HandsPool(seated, s.hands), HandsPool(seated, s1.hands),
        multiset(s.hands[p]), multiset(s1.hands[p]));
      DealAllConserves(s1, ps[1..], seated);
    }
  }

  /** Dealing to seated players keeps the room's card pool. */
  lemma DealConserves(g: Game, ps: seq<PlayerId>)
    requires Distinct(g.players)
    requires forall p :: p in ps ==> p in g.hands && p in g.players
    ensures Pool(Deal(g, ps)) == Pool(g)
  {
    DealAllConserves(Stock(g.hands, g.deck), ps, g.players);
  }

  /** When the deck holds enough cards, every dealt hand ends up full. */
  lemma {:induction false} DealAllFills(s: Stock, ps: seq<PlayerId>)
    requires Distinct(ps)
    requires forall p :: p in ps ==> p in s.hands && |s.hands[p]| <= HandSize
    requires |s.deck| >= Deficit(s.hands, ps)
    ensures forall p :: p in ps ==> |DealAll(s, ps).hands[p]| == HandSize
    decreases |ps|
  {
    if ps != [] {
      var p := ps[0];
      var s1 := DealHand(s, p);
      assert |s1.hands[p]| == HandSize;
      assert p !in ps[1..];
      DeficitFrame(s.hands, s1.hands, ps[1..]);
      DealAllFills(s1, ps[1..]);
    }
  }
}
