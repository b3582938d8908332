/** The per-player actions of a round: choosing the lead card, betting, guessing, ending one's turn,
    and the check that every player has ended theirs. Invalid actions are silent no-ops. */
module Actions {
  import opened Options
  import opened OrderedMap
  import opened Room

  /** `add_lead_card`: the storyteller's choice, recorded for `start_turn`. */
  function AddLeadCard(g: Game, c: CardId): (r: Game)
    ensures r.leadCard == Some(c) && r == g.(leadCard := r.leadCard)
    ensures Pool(r) == Pool(g) && (Valid(g) ==> Valid(r))
  {
    g.(leadCard := Some(c))
  }

  /** `make_bet`: a player whose turn is still open puts forward a card of their own hand as decoy. */
  function MakeBet(g: Game, p: PlayerId, c: CardId): (r: Game)
    requires p in g.turnEnded
    requires !g.turnEnded[p] ==> p in g.hands
    ensures r == g.(bets := r.bets)
    ensures g.turnEnded[p] || c !in g.hands[p] ==> r == g
    ensures !g.turnEnded[p] && c in g.hands[p] ==> Get(r.bets, p) == Some(c)
    ensures UniqueKeys(g.bets) ==> UniqueKeys(r.bets)
  {
    if g.turnEnded[p] then g
    else if c in g.hands[p] then g.(bets := Put(g.bets, p, c))
    else g
  }

  /** `make_guess`: a player whose turn is still open points at a table card someone else owns. */
  function MakeGuess(g: Game, p: PlayerId, c: CardId): (r: Game)
    requires p in g.turnEnded
    ensures r == g.(guesses := r.guesses)
    ensures g.turnEnded[p] || !HasKey(g.table, c) || Get(g.table, c) == Some(p) ==> r == g
    ensures !g.turnEnded[p] && HasKey(g.table, c) && Get(g.table, c) != Some(p) ==> Get(r.guesses, p) == Some(c)
    ensures UniqueKeys(g.guesses) ==> UniqueKeys(r.guesses)
  {
    if g.turnEnded[p] then g
    else if HasKey(g.table, c) && Get(g.table, c).value != p then g.(guesses := Put(g.guesses, p, c))
    else g
  }

  /** A bet never disturbs another player's bet. */
  lemma MakeBetOnlyOwnEntry(g: Game, p: PlayerId, c: CardId, q: PlayerId)
    requires p in g.turnEnded
    requires !g.turnEnded[p] ==> p in g.hands
    requires q != p
    ensures Get(MakeBet(g, p, c).bets, q) == Get(g.bets, q)
  {
    PutOther(g.bets, p, c, q);
  }

  /** A guess never disturbs another player's guess. */
  lemma MakeGuessOnlyOwnEntry(g: Game, p: PlayerId, c: CardId, q: PlayerId)
    requires p in g.turnEnded
    requires q != p
    ensures Get(MakeGuess(g, p, c).guesses, q) == Get(g.guesses, q)
  {
    PutOther(g.guesses, p, c, q);
  }

  /** The exception `finish_turn` can raise. */
  datatype Crash = KeyError

  /** `finish_turn` as written: during GUESSING it reads `guesses[player]`, which raises KeyError
      for a player who has not guessed; stored guesses are cards, never None, so the intended
      early return is never taken. */
  function FinishTurnAsWritten(g: Game, p: PlayerId): (r: Result<Game, Crash>)
    ensures r.Err? <==> g.phase == Guessing && !HasKey(g.guesses, p)
    ensures r.Ok? ==> r.value.turnEnded == g.turnEnded[p := true] && r.value == g.(turnEnded := r.value.turnEnded)
  {
    if g.phase == Guessing && !HasKey(g.guesses, p) then Err(KeyError)
    else Ok(g.(turnEnded := g.turnEnded[p := true]))
  }

  /** During GUESSING a player who has not guessed has nothing to end. */
  predicate MustGuessFirst(g: Game, p: PlayerId) {
    g.phase == Guessing && !HasKey(g.guesses, p)
  }

  /** `finish_turn` as evidently intended: a player who has not guessed cannot end their turn
      during GUESSING (a no-op); otherwise the player's turn is marked ended. */
  function FinishTurn(g: Game, p: PlayerId): (r: Game)
    ensures r == g.(turnEnded := r.turnEnded)
    ensures MustGuessFirst(g, p) ==> r == g
    ensures !MustGuessFirst(g, p) ==> p in r.turnEnded && r.turnEnded[p]
    ensures forall q :: q != p ==> (q in r.turnEnded <==> q in g.turnEnded)
    ensures forall q :: q in g.turnEnded && q != p ==> r.turnEnded[q] == g.turnEnded[q]
  {
    if MustGuessFirst(g, p) then g
    else g.(turnEnded := g.turnEnded[p := true])
  }

  /** The crash is real: a room in GUESSING where a seated player has not guessed. */
  lemma FinishTurnCrashes()
    ensures var g := NewRoom().(players := [7], turnEnded := map[7 := false], phase := Guessing);
      FinishTurnAsWritten(g, 7) == Err(KeyError)
  {
  }

  /** The corrected `finish_turn` agrees with the source wherever the source does not raise. */
  lemma FinishTurnAgrees(g: Game, p: PlayerId)
    ensures FinishTurnAsWritten(g, p).Ok? ==> FinishTurnAsWritten(g, p).value == FinishTurn(g, p)
    ensures FinishTurnAsWritten(g, p).Err? ==> FinishTurn(g, p) == g
  {
  }

  /** Ending one's turn twice has the same effect as ending it once. */
  lemma FinishTurnIdempotent(g: Game, p: PlayerId)
    ensures FinishTurn(FinishTurn(g, p), p) == FinishTurn(g, p)
  {
  }

  /** `all_turns_ended`: walks the seats in order; the first player found with an open turn makes it
      answer false, except that the source asserts the storyteller's turn has ended, so an open turn
      found first at the storyteller's seat is an AssertionError (None here). */
  method AllTurnsEnded(g: Game) returns (r: Option<bool>)
    requires forall p :: p in g.players ==> p in g.turnEnded
    ensures r == Some(true) <==> forall i :: 0 <= i < |g.players| ==> g.turnEnded[g.players[i]]
    ensures r.None? <==> exists i :: 0 <= i < |g.players| && FirstOpen(g, i) && Current(g) == Some(g.players[i])
    ensures Current(g).None? || g.turnEnded[Current(g).value] ==> r.Some?
  {
    var i := 0;
    while i < |g.players|
      invariant 0 <= i <= |g.players|
      invariant forall j :: 0 <= j < i ==> g.turnEnded[g.players[j]]
    {
      var p := g.players[i];
      if Current(g) == Some(p) && !g.turnEnded[p] {
        assert FirstOpen(g, i);
        return None;
      }
      if !g.turnEnded[p] {
        assert FirstOpen(g, i);
        return Some(false);
      }
      i := i + 1;
    }
    return Some(true);
  }

  /** Seat `i` holds the first player whose turn is still open. */
  predicate FirstOpen(g: Game, i: nat)
    requires i < |g.players|
    requires forall p :: p in g.players ==> p in g.turnEnded
  {
    !g.turnEnded[g.players[i]] && forall j :: 0 <= j < i ==> g.turnEnded[g.players[j]]
  }
}
