/** Scoring a round (`Game.valuate_guesses`, Imaginarium rules). */
module Scoring {
  import opened Options
  import opened Seqs
  import opened OrderedMap
  import opened Room

  /** A guess names the lead card. */
  predicate Hits(lead: Option<CardId>, c: CardId) {
    lead == Some(c)
  }

  /** Every guess names the lead card (true when nobody guessed, like Python's `all` of nothing). */
  predicate AllHit(gs: OMap<PlayerId, CardId>, lead: Option<CardId>) {
    forall i :: 0 <= i < |gs| ==> Hits(lead, gs[i].1)
  }

  /** No guess names the lead card. */
  predicate NoneHit(gs: OMap<PlayerId, CardId>, lead: Option<CardId>) {
    forall i :: 0 <= i < |gs| ==> !Hits(lead, gs[i].1)
  }

  /** The owner of a table card. */
  function Owner(table: OMap<CardId, PlayerId>, c: CardId): PlayerId
    requires HasKey(table, c)
  {
    Get(table, c).value
  }

  /** `result[p] += delta`. */
  function Bump(result: map<PlayerId, Score>, p: PlayerId, delta: int): (r: map<PlayerId, Score>)
    requires Numeric(result, p)
    ensures r.Keys == result.Keys
    ensures forall q :: q in result ==> (r[q].Points? <==> result[q].Points?)
    ensures forall q :: Numeric(r, q) <==> Numeric(result, q)
    ensures r[p].n == result[p].n + delta
    ensures forall q :: q in result && q != p ==> r[q] == result[q]
  {
    result[p := Points(result[p].n + delta)]
  }

  /** `result[st] -= penalty` followed by the clamp `max(0, …)`. */
  function Penalise(result: map<PlayerId, Score>, st: PlayerId, penalty: nat): (r: map<PlayerId, Score>)
    requires Numeric(result, st)
    ensures r.Keys == result.Keys
    ensures forall q :: q in result ==> (r[q].Points? <==> result[q].Points?)
    ensures forall q :: Numeric(r, q) <==> Numeric(result, q)
    ensures r[st].n >= 0 && r[st].n <= Max(0, result[st].n)
  {
    result[st := Points(Max(0, result[st].n - penalty))]
  }

  /** Every correct guesser has a numeric score. */
  predicate HitsScored(result: map<PlayerId, Score>, gs: OMap<PlayerId, CardId>, lead: Option<CardId>) {
    forall i :: 0 <= i < |gs| && Hits(lead, gs[i].1) ==> Numeric(result, gs[i].0)
  }

  /** Every correct guesser is still seated. */
  predicate HitsSeated(gs: OMap<PlayerId, CardId>, lead: Option<CardId>, players: seq<PlayerId>) {
    forall i :: 0 <= i < |gs| && Hits(lead, gs[i].1) ==> gs[i].0 in players
  }

  /** The mixed-outcome loop, corrected: each correct guess gives the storyteller 1, and the
      guesser 3 if still seated (the same seat test the decoy loop makes). */
  function AwardHits(result: map<PlayerId, Score>, gs: OMap<PlayerId, CardId>, lead: Option<CardId>, st: PlayerId,
                     players: seq<PlayerId>): (r: map<PlayerId, Score>)
    requires Numeric(result, st)
    requires forall i :: 0 <= i < |gs| && Hits(lead, gs[i].1) && gs[i].0 in players ==> Numeric(result, gs[i].0)
    ensures r.Keys == result.Keys
    ensures forall q :: q in result ==> (r[q].Points? <==> result[q].Points?)
    decreases |gs|
  {
    if gs == [] then result
    else
      var r1 :=
        if !Hits(lead, gs[0].1) then result
        else if gs[0].0 in players then Bump(Bump(result, gs[0].0, 3), st, 1)
        else Bump(result, st, 1);
      assert forall i :: 1 <= i < |gs| && Hits(lead, gs[i].1) && gs[i].0 in players ==> Numeric(r1, gs[i].0);
      AwardHits(r1, gs[1..], lead, st, players)
  }

  /** The exception `valuate_guesses` can raise in its mixed-outcome loop: `result[player] += 3`
      on a `did_not_finish` text. */
  datatype ScoreError = TypeError

  /** The mixed-outcome loop as the source writes it: every correct guesser gains 3, seated or not,
      which fails on the first one whose score is no longer a number. */
  function AwardHitsAsWritten(result: map<PlayerId, Score>, gs: OMap<PlayerId, CardId>, lead: Option<CardId>,
                              st: PlayerId): (r: Result<map<PlayerId, Score>, ScoreError>)
    requires Numeric(result, st)
    ensures r.Ok? <==> HitsScored(result, gs, lead)
    ensures r.Ok? ==> r.value.Keys == result.Keys && forall q :: Numeric(r.value, q) <==> Numeric(result, q)
    decreases |gs|
  {
    if gs == [] then Ok(result)
    else if Hits(lead, gs[0].1) && !Numeric(result, gs[0].0) then Err(TypeError)
    else
      var r1 := if Hits(lead, gs[0].1) then Bump(Bump(result, gs[0].0, 3), st, 1) else result;
      assert HitsScored(result, gs, lead) <==> HitsScored(r1, gs[1..], lead) by {
        assert forall i :: 1 <= i < |gs| ==> gs[1..][i - 1] == gs[i];
      }
      AwardHitsAsWritten(r1, gs[1..], lead, st)
  }

  /** Where every correct guesser is seated and scored, the loop as written and the corrected loop
      agree. */
  lemma {:induction false} AwardHitsAgree(result: map<PlayerId, Score>, gs: OMap<PlayerId, CardId>, lead: Option<CardId>,
                                          st: PlayerId, players: seq<PlayerId>)
    requires Numeric(result, st) && HitsScored(result, gs, lead) && HitsSeated(gs, lead, players)
    ensures AwardHitsAsWritten(result, gs, lead, st) == Ok(AwardHits(result, gs, lead, st, players))
    decreases |gs|
  {
    if gs != [] {
      var r1 := if Hits(lead, gs[0].1) then Bump(Bump(result, gs[0].0, 3), st, 1) else result;
      assert HitsScored(r1, gs[1..], lead) && HitsSeated(gs[1..], lead, players) by {
        assert forall i :: 1 <= i < |gs| ==> gs[1..][i - 1] == gs[i];
      }
      AwardHitsAgree(r1, gs[1..], lead, st, players);
    }
  }

  /** The decoy loop: every guess on another card gives its owner 1, if the owner is still seated. */
  function AwardDecoys(result: map<PlayerId, Score>, gs: OMap<PlayerId, CardId>, table: OMap<CardId, PlayerId>,
                       lead: Option<CardId>, players: seq<PlayerId>): (r: map<PlayerId, Score>)
    requires forall i :: 0 <= i < |gs| && !Hits(lead, gs[i].1) ==>
      HasKey(table, gs[i].1) && (Owner(table, gs[i].1) in players ==> Numeric(result, Owner(table, gs[i].1)))
    ensures r.Keys == result.Keys
    ensures forall q :: q in result ==> (r[q].Points? <==> result[q].Points?)
    decreases |gs|
  {
    if gs == [] then result
    else
      var r1 := if !Hits(lead, gs[0].1) && Owner(table, gs[0].1) in players
        then Bump(result, Owner(table, gs[0].1), 1) else result;
      assert forall i :: 1 <= i < |gs| && !Hits(lead, gs[i].1) && Owner(table, gs[i].1) in players ==>
        Numeric(r1, Owner(table, gs[i].1));
      AwardDecoys(r1, gs[1..], table, lead, players)
  }

  /** The rooms scoring is defined on: a storyteller with a numeric score, every wrong guess on a
      table card, numeric scores for seated decoy owners and, when they are rewarded, for seated
      correct guessers. Every valid room with its wrong guesses on the table is one
      (`TurnInvariants.ValidScoringDefined`). */
  predicate ScoringDefined(g: Game) {
    && Current(g).Some?
    && Numeric(g.result, Current(g).value)
    && (forall i :: 0 <= i < |g.guesses| && !Hits(g.leadCard, g.guesses[i].1) ==>
          HasKey(g.table, g.guesses[i].1)
          && (Owner(g.table, g.guesses[i].1) in g.players ==> Numeric(g.result, Owner(g.table, g.guesses[i].1))))
    && (!AllHit(g.guesses, g.leadCard) && !NoneHit(g.guesses, g.leadCard) ==>
          forall i :: 0 <= i < |g.guesses| && Hits(g.leadCard, g.guesses[i].1) && g.guesses[i].0 in g.players ==>
            Numeric(g.result, g.guesses[i].0))
  }

  /** `valuate_guesses`, corrected: if everyone found the lead card the storyteller loses 3 and
      nothing else happens; if nobody did the storyteller loses 2; otherwise the storyteller gains 3
      and one per correct guess while each seated correct guesser gains 3; outside the first case
      every guess on a decoy gives a point to the decoy's seated owner. The room always moves to
      INTERLUDE. */
  function ValuateGuesses(g: Game): (r: Game)
    requires ScoringDefined(g)
    ensures r == g.(phase := Interlude, result := r.result)
    ensures r.result.Keys == g.result.Keys
    ensures forall q :: q in g.result ==> (r.result[q].Points? <==> g.result[q].Points?)
  {
    var st, gs, lead := Current(g).value, g.guesses, g.leadCard;
    var result :=
      if AllHit(gs, lead) then Penalise(g.result, st, 3)
      else
        var afterStoryteller :=
          if NoneHit(gs, lead) then Penalise(g.result, st, 2)
          else AwardHits(Bump(g.result, st, 3), gs, lead, st, g.players);
        AwardDecoys(afterStoryteller, gs, g.table, lead, g.players);
    g.(phase := Interlude, result := result)
  }

  /** `valuate_guesses` as the source writes it: in the mixed case it raises TypeError exactly when
      a correct guesser's score is a `did_not_finish` text, and otherwise it agrees with the
      corrected version whenever every correct guesser is seated. */
  function ValuateGuessesAsWritten(g: Game): (r: Result<Game, ScoreError>)
    requires ScoringDefined(g)
    ensures r.Err? <==> !AllHit(g.guesses, g.leadCard) && !NoneHit(g.guesses, g.leadCard)
                        && !HitsScored(g.result, g.guesses, g.leadCard)
    ensures r.Ok? && HitsSeated(g.guesses, g.leadCard, g.players) ==> r.value == ValuateGuesses(g)
  {
    var st, gs, lead := Current(g).value, g.guesses, g.leadCard;
    if AllHit(gs, lead) then Ok(g.(phase := Interlude, result := Penalise(g.result, st, 3)))
    else if NoneHit(gs, lead) then
      Ok(g.(phase := Interlude, result := AwardDecoys(Penalise(g.result, st, 2), gs, g.table, lead, g.players)))
    else
      var bumped := Bump(g.result, st, 3);
      assert HitsScored(bumped, gs, lead) <==> HitsScored(g.result, gs, lead);
      match AwardHitsAsWritten(bumped, gs, lead, st)
      case Err(e) => Err(e)
      case Ok(hits) =>
        var r := g.(phase := Interlude, result := AwardDecoys(hits, gs, g.table, lead, g.players));
        if HitsSeated(gs, lead, g.players) then AwardHitsAgree(bumped, gs, lead, st, g.players); Ok(r) else Ok(r)
  }

  // ---------------------------------------------------------------------------------------
  // An independent, closed-form statement of the score each player ends the round with.

  /** How many guesses name the lead card. */
  function HitCount(gs: OMap<PlayerId, CardId>, lead: Option<CardId>): nat {
    if gs == [] then 0 else (if Hits(lead, gs[0].1) then 1 else 0) + HitCount(gs[1..], lead)
  }

  /** How many of `q`'s guesses name the lead card (at most one in a dictionary). */
  function HitsBy(gs: OMap<PlayerId, CardId>, lead: Option<CardId>, q: PlayerId): nat {
    if gs == [] then 0 else (if gs[0].0 == q && Hits(lead, gs[0].1) then 1 else 0) + HitsBy(gs[1..], lead, q)
  }

  /** How many guesses landed on a decoy owned by `q`. */
  function DecoyVotes(gs: OMap<PlayerId, CardId>, table: OMap<CardId, PlayerId>, lead: Option<CardId>, q: PlayerId): nat {
    if gs == [] then 0
    else
      (if !Hits(lead, gs[0].1) && HasKey(table, gs[0].1) && Owner(table, gs[0].1) == q then 1 else 0)
        + DecoyVotes(gs[1..], table, lead, q)
  }

  /** The score `q` should hold after the round. */
  function Expected(g: Game, q: PlayerId): Score
    requires ScoringDefined(g) && q in g.result
  {
    if !g.result[q].Points? then g.result[q]
    else
      var s, st, gs, lead := g.result[q].n, Current(g).value, g.guesses, g.leadCard;
      var decoys := if q in g.players then DecoyVotes(gs, g.table, lead, q) else 0;
      if AllHit(gs, lead) then Points(if q == st then Max(0, s - 3) else s)
      else if NoneHit(gs, lead) then Points((if q == st then Max(0, s - 2) else s) + decoys)
      else
        var hits := if q in g.players then 3 * HitsBy(gs, lead, q) else 0;
        Points(s + (if q == st then 3 + HitCount(gs, lead) else 0) + hits + decoys)
  }

  lemma {:induction false} AwardHitsEffect(result: map<PlayerId, Score>, gs: OMap<PlayerId, CardId>, lead: Option<CardId>,
                                           st: PlayerId, players: seq<PlayerId>)
    requires Numeric(result, st)
    requires forall i :: 0 <= i < |gs| && Hits(lead, gs[i].1) && gs[i].0 in players ==> Numeric(result, gs[i].0)
    ensures var r := AwardHits(result, gs, lead, st, players);
      forall q :: q in result ==>
        r[q] == if result[q].Points?
          then Points(result[q].n + (if q in players then 3 * HitsBy(gs, lead, q) else 0)
                      + (if q == st then HitCount(gs, lead) else 0))
          else result[q]
    decreases |gs|
  {
    if gs != [] {
      var r1 :=
        if !Hits(lead, gs[0].1) then result
        else if gs[0].0 in players then Bump(Bump(result, gs[0].0, 3), st, 1)
        else Bump(result, st, 1);
      AwardHitsEffect(r1, gs[1..], lead, st, players);
    }
  }

  lemma {:induction false} AwardDecoysEffect(result: map<PlayerId, Score>, gs: OMap<PlayerId, CardId>, table: OMap<CardId, PlayerId>,
                                             lead: Option<CardId>, players: seq<PlayerId>)
    requires forall i :: 0 <= i < |gs| && !Hits(lead, gs[i].1) ==>
      HasKey(table, gs[i].1) && (Owner(table, gs[i].1) in players ==> Numeric(result, Owner(table, gs[i].1)))
    ensures var r := AwardDecoys(result, gs, table, lead, players);
      forall q :: q in result ==>
        r[q] == if result[q].Points?
          then Points(result[q].n + (if q in players then DecoyVotes(gs, table, lead, q) else 0))
          else result[q]
    decreases |gs|
  {
    if gs != [] {
      var r1 := if !Hits(lead, gs[0].1) && Owner(table, gs[0].1) in players
        then Bump(result, Owner(table, gs[0].1), 1) else result;
      AwardDecoysEffect(r1, gs[1..], table, lead, players);
    }
  }

  /** The loops of `valuate_guesses` compute exactly the closed-form scores. */
  lemma ValuateMatchesReference(g: Game)
    requires ScoringDefined(g)
    ensures forall q :: q in g.result ==> ValuateGuesses(g).result[q] == Expected(g, q)
  {
    forall q | q in g.result ensures ValuateGuesses(g).result[q] == Expected(g, q) {
      ValuateAt(g, q);
    }
  }

  /** One player's score after the round is the closed-form one. */
  lemma ValuateAt(g: Game, q: PlayerId)
    requires ScoringDefined(g) && q in g.result
    ensures ValuateGuesses(g).result[q] == Expected(g, q)
  {
    if AllHit(g.guesses, g.leadCard) {
      assert ValuateGuesses(g).result == Penalise(g.result, Current(g).value, 3);
    } else if NoneHit(g.guesses, g.leadCard) {
      ValuateNoneHitAt(g, q);
    } else {
      ValuateMixedAt(g, q);
    }
  }

  /** No closed-form score is negative when the score it starts from is not. */
  lemma ExpectedNonNegative(g: Game, q: PlayerId)
    requires ScoringDefined(g) && q in g.result && g.result[q].Value() >= 0
    ensures Expected(g, q).Value() >= 0
  {
  }

  /** Nobody found the lead card: the storyteller's penalty, then the decoy points. */
  lemma ValuateNoneHitAt(g: Game, q: PlayerId)
    requires ScoringDefined(g) && q in g.result
    requires !AllHit(g.guesses, g.leadCard) && NoneHit(g.guesses, g.leadCard)
    ensures ValuateGuesses(g).result[q] == Expected(g, q)
  {
    var p := Penalise(g.result, Current(g).value, 2);
    assert ValuateGuesses(g).result == AwardDecoys(p, g.guesses, g.table, g.leadCard, g.players);
    AwardDecoysEffect(p, g.guesses, g.table, g.leadCard, g.players);
    assert p[q].Points? == g.result[q].Points?;
  }

  /** Some but not all found the lead card: the storyteller's bonus, the hits, then the decoy points. */
  lemma ValuateMixedAt(g: Game, q: PlayerId)
    requires ScoringDefined(g) && q in g.result
    requires !AllHit(g.guesses, g.leadCard) && !NoneHit(g.guesses, g.leadCard)
    ensures ValuateGuesses(g).result[q] == Expected(g, q)
  {
    var st, gs, lead := Current(g).value, g.guesses, g.leadCard;
    var hits := AwardHits(Bump(g.result, st, 3), gs, lead, st, g.players);
    var r := AwardDecoys(hits, gs, g.table, lead, g.players);
    assert ValuateGuesses(g).result == r;
    MixedHitsAt(g, q);
    AwardDecoysEffect(hits, gs, g.table, lead, g.players);
  }

  /** The storyteller's bonus and the rewards for correct guesses, for one player. */
  lemma MixedHitsAt(g: Game, q: PlayerId)
    requires ScoringDefined(g) && q in g.result
    requires !AllHit(g.guesses, g.leadCard) && !NoneHit(g.guesses, g.leadCard)
    ensures var st, gs, lead := Current(g).value, g.guesses, g.leadCard;
      var hits := AwardHits(Bump(g.result, st, 3), gs, lead, st, g.players);
      hits[q] == if g.result[q].Points?
        then Points(g.result[q].n + (if q == st then 3 + HitCount(gs, lead) else 0)
                    + (if q in g.players then 3 * HitsBy(gs, lead, q) else 0))
        else g.result[q]
  {
    var st, gs, lead := Current(g).value, g.guesses, g.leadCard;
    var bumped := Bump(g.result, st, 3);
    AwardHitsEffect(bumped, gs, lead, st, g.players);
    assert bumped[q] == if q == st then Points(g.result[q].n + 3) else g.result[q];
  }

  lemma {:induction false} HitCountPositive(gs: OMap<PlayerId, CardId>, lead: Option<CardId>)
    requires !NoneHit(gs, lead)
    ensures HitCount(gs, lead) >= 1
    decreases |gs|
  {
    if !Hits(lead, gs[0].1) {
      assert !NoneHit(gs[1..], lead) by {
        var i :| 0 <= i < |gs| && Hits(lead, gs[i].1);
        assert gs[1..][i - 1] == gs[i];
      }
      HitCountPositive(gs[1..], lead);
    }
  }

  /** Only the storyteller can lose points in a round; everybody else keeps or gains. */
  lemma ValuateOnlyStorytellerLoses(g: Game, q: PlayerId)
    requires ScoringDefined(g) && q in g.result && Some(q) != Current(g)
    ensures ValuateGuesses(g).result[q].Value() >= g.result[q].Value()
  {
    ValuateMatchesReference(g);
  }

  /** When some but not all guessers find the lead card, the storyteller gains at least 4. */
  lemma ValuateMixedRewardsStoryteller(g: Game)
    requires ScoringDefined(g) && !AllHit(g.guesses, g.leadCard) && !NoneHit(g.guesses, g.leadCard)
    ensures ValuateGuesses(g).result[Current(g).value].n >= g.result[Current(g).value].n + 4
  {
    ValuateMatchesReference(g);
    HitCountPositive(g.guesses, g.leadCard);
  }

  /** Scoring keeps the room well formed: scores stay non-negative and no card moves. */
  lemma ValuateValid(g: Game)
    requires Valid(g) && ScoringDefined(g)
    ensures Valid(ValuateGuesses(g))
    ensures Pool(ValuateGuesses(g)) == Pool(g)
  {
    var r := ValuateGuesses(g);
    assert Pool(r) == Pool(g);
    assert forall q :: q in r.result ==> r.result[q].Value() >= 0 by {
      forall q | q in r.result ensures r.result[q].Value() >= 0 {
        ValuateAt(g, q);
        ExpectedNonNegative(g, q);
      }
    }
    assert forall q :: Numeric(r.result, q) <==> Numeric(g.result, q);
    SameSeatsScoresValid(g, r);
  }
}
