/** Deciding and declaring the winner (`Game.finished`, `Game.end_game`). */
module Victory {
  import opened Options
  import opened Room

  /** Every seated player holds a numeric score, so the scores can be compared. */
  predicate Comparable(g: Game) {
    forall i :: 0 <= i < |g.players| ==> Numeric(g.result, g.players[i])
  }

  function ScoreAt(g: Game, i: nat): int
    requires Comparable(g) && i < |g.players|
  {
    g.result[g.players[i]].n
  }

  /** Seat `i` holds a maximal score and no earlier seat reaches it. */
  predicate FirstMax(g: Game, i: nat)
    requires Comparable(g)
  {
    && i < |g.players|
    && (forall j :: 0 <= j < |g.players| ==> ScoreAt(g, j) <= ScoreAt(g, i))
    && (forall j :: 0 <= j < i ==> ScoreAt(g, j) < ScoreAt(g, i))
  }

  /** Some seated player has a non-negative score that reaches the winning score. */
  predicate SomeoneReached(g: Game)
    requires Comparable(g)
  {
    exists i :: 0 <= i < |g.players| && ScoreAt(g, i) >= 0 && ScoreAt(g, i) >= g.winScore
  }

  /** `finished`: scan the seats with a running maximum that starts at -1 and only moves on a
      strictly larger score; report the first player holding the maximum if it reaches the
      winning score. */
  method Finished(g: Game) returns (w: Option<PlayerId>)
    requires Comparable(g)
    ensures w.Some? <==> SomeoneReached(g)
    ensures w.Some? ==> exists i: nat :: FirstMax(g, i) && g.players[i] == w.value && ScoreAt(g, i) >= g.winScore
  {
    var maximum := -1;
    var best: Option<nat> := None;
    var k := 0;
    while k < |g.players|
      invariant 0 <= k <= |g.players|
      invariant best.None? ==> maximum == -1 && forall j :: 0 <= j < k ==> ScoreAt(g, j) <= -1
      invariant best.Some? ==> best.value < k && maximum == ScoreAt(g, best.value) && maximum >= 0
      invariant best.Some? ==> forall j :: 0 <= j < k ==> ScoreAt(g, j) <= maximum
      invariant best.Some? ==> forall j :: 0 <= j < best.value ==> ScoreAt(g, j) < maximum
    {
      if ScoreAt(g, k) > maximum {
        maximum := ScoreAt(g, k);
        best := Some(k);
      }
      k := k + 1;
    }
    if best.Some? && maximum >= g.winScore {
      w := Some(g.players[best.value]);
      assert FirstMax(g, best.value);
    } else {
      w := None;
    }
  }

  /** `end_game`: the room reaches VICTORY with the given winner; nothing else changes, so a
      well-formed started room stays well formed and no card moves. */
  function EndGame(g: Game, winner: Option<PlayerId>): (r: Game)
    ensures r.phase == Victory && r.winner == winner && r == g.(phase := r.phase, winner := r.winner)
    ensures r.players == g.players && r.result == g.result && Pool(r) == Pool(g)
    ensures Valid(g) && g.phase != Waiting ==> Valid(r)
  {
    g.(phase := Victory, winner := winner)
  }
}
