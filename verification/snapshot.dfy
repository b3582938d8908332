/** What one player is shown of a room (`make_current_game_state`, `get_votes`). */
module Snapshot {
  import opened Options
  import opened OrderedMap
  import opened Room

  /** `make_example_player`: a player as others see it (the display name is not modelled). */
  datatype Badge = Badge(id: PlayerId, storyteller: bool, score: Score, moveAvailable: bool)

  /** A table card, with its owner and voters shown only to the owner. */
  datatype TableCard = TableCard(card: CardId, owner: Option<Badge>, voters: seq<Badge>)

  datatype View = View(
    client: Badge,
    opponents: seq<Badge>,
    hand: seq<CardId>,
    selected: Option<CardId>,
    table: seq<TableCard>,
    story: Option<string>,
    phase: Phase)

  /** Every player the view may describe has a score and a turn flag. */
  predicate Describable(g: Game, p: PlayerId) {
    p in g.result && p in g.turnEnded
  }

  function MakeBadge(g: Game, p: PlayerId): (b: Badge)
    requires Describable(g, p)
    ensures b.id == p && (b.storyteller <==> Current(g) == Some(p))
    ensures b.score == g.result[p] && (b.moveAvailable <==> !g.turnEnded[p])
  {
    Badge(p, Current(g) == Some(p), g.result[p], !g.turnEnded[p])
  }

  /** `get_votes`: the players whose guess is `c`, in the order the guesses were made. */
  function Voters(gs: OMap<PlayerId, CardId>, c: CardId): (r: seq<PlayerId>)
    ensures forall p :: p in r <==> exists i :: 0 <= i < |gs| && gs[i] == (p, c)
    ensures |r| <= |gs|
    decreases |gs|
  {
    if gs == [] then []
    else (if gs[0].1 == c then [gs[0].0] else []) + Voters(gs[1..], c)
  }

  function Badges(g: Game, ps: seq<PlayerId>): (r: seq<Badge>)
    requires forall p :: p in ps ==> Describable(g, p)
    ensures |r| == |ps| && forall i :: 0 <= i < |ps| ==> r[i] == MakeBadge(g, ps[i])
  {
    seq(|ps|, i requires 0 <= i < |ps| => MakeBadge(g, ps[i]))
  }

  /** The seated players other than `viewer`, in seating order. */
  function Others(ps: seq<PlayerId>, viewer: PlayerId): (r: seq<PlayerId>)
    ensures forall p :: p in r <==> p in ps && p != viewer
    ensures |r| <= |ps|
  {
    if ps == [] then []
    else (if ps[0] != viewer then [ps[0]] else []) + Others(ps[1..], viewer)
  }

  /** `SelectedCard`: the viewer's bet while matching, the viewer's guess while guessing. */
  function Selected(g: Game, viewer: PlayerId): (r: Option<CardId>)
    ensures g.phase == Matching ==> r == Get(g.bets, viewer)
    ensures g.phase == Guessing ==> r == Get(g.guesses, viewer)
    ensures g.phase != Matching && g.phase != Guessing ==> r.None?
  {
    match g.phase
    case Matching => Get(g.bets, viewer)
    case Guessing => Get(g.guesses, viewer)
    case _ => None
  }

  /** The rooms the source can render for `viewer` without raising: the viewer, every seated
      player, and every player who guessed one of the viewer's own table cards get a badge. */
  predicate Renderable(g: Game, viewer: PlayerId) {
    && Describable(g, viewer) && viewer in g.hands
    && (forall p :: p in g.players ==> Describable(g, p))
    && (forall i, j :: 0 <= i < |g.guesses| && 0 <= j < |g.table| && g.table[j] == (g.guesses[i].1, viewer)
          ==> Describable(g, g.guesses[i].0))
  }

  function ShowCard(g: Game, viewer: PlayerId, entry: (CardId, PlayerId)): TableCard
    requires Renderable(g, viewer) && entry in g.table
  {
    if entry.1 == viewer then
      var vs := Voters(g.guesses, entry.0);
      assert forall p :: p in vs ==> Describable(g, p) by {
        var j :| 0 <= j < |g.table| && g.table[j] == entry;
        forall p | p in vs ensures Describable(g, p) {
          var i :| 0 <= i < |g.guesses| && g.guesses[i] == (p, entry.0);
          assert g.table[j] == (g.guesses[i].1, viewer);
        }
      }
      TableCard(entry.0, Some(MakeBadge(g, viewer)), Badges(g, vs))
    else TableCard(entry.0, None, [])
  }

  /** `make_current_game_state`: the viewer's own badge, the other players', the viewer's hand and
      selection, the table in the order the cards were laid, the story and the phase. */
  function MakeView(g: Game, viewer: PlayerId): (v: View)
    requires Renderable(g, viewer)
    ensures v.client == MakeBadge(g, viewer) && v.hand == g.hands[viewer]
    ensures v.opponents == Badges(g, Others(g.players, viewer))
    ensures v.selected == Selected(g, viewer) && v.story == g.association && v.phase == g.phase
    ensures |v.table| == |g.table| && forall i :: 0 <= i < |g.table| ==> v.table[i].card == g.table[i].0
  {
    View(MakeBadge(g, viewer), Badges(g, Others(g.players, viewer)), g.hands[viewer], Selected(g, viewer),
         seq(|g.table|, i requires 0 <= i < |g.table| => ShowCard(g, viewer, g.table[i])),
         g.association, g.phase)
  }

  /** The view never gives away whose card is whose: an owner is shown exactly on the viewer's
      own cards, and there the voters are exactly the players who guessed that card. */
  lemma ViewHidesOwners(g: Game, viewer: PlayerId)
    requires Renderable(g, viewer)
    ensures var v := MakeView(g, viewer);
      forall i :: 0 <= i < |g.table| ==>
        && (v.table[i].owner.Some? <==> g.table[i].1 == viewer)
        && (g.table[i].1 != viewer ==> v.table[i].voters == [])
        && (forall b :: b in v.table[i].voters ==>
              exists j :: 0 <= j < |g.guesses| && g.guesses[j] == (b.id, g.table[i].0))
  {
    var v := MakeView(g, viewer);
    forall i | 0 <= i < |g.table|
      ensures forall b :: b in v.table[i].voters ==>
        exists j :: 0 <= j < |g.guesses| && g.guesses[j] == (b.id, g.table[i].0)
    {
      if g.table[i].1 == viewer {
        var vs := Voters(g.guesses, g.table[i].0);
        forall b | b in v.table[i].voters
          ensures exists j :: 0 <= j < |g.guesses| && g.guesses[j] == (b.id, g.table[i].0)
        {
          var k :| 0 <= k < |vs| && v.table[i].voters[k] == b;
          assert b.id == vs[k] && vs[k] in vs;
        }
      }
    }
  }

  /** Every player who guessed a card of the viewer's is listed among its voters. */
  lemma ViewListsEveryVoter(g: Game, viewer: PlayerId, i: nat, j: nat)
    requires Renderable(g, viewer) && i < |g.table| && g.table[i].1 == viewer
    requires j < |g.guesses| && g.guesses[j].1 == g.table[i].0
    ensures MakeBadge(g, g.guesses[j].0) in MakeView(g, viewer).table[i].voters
  {
    var vs := Voters(g.guesses, g.table[i].0);
    assert g.guesses[j] == (g.guesses[j].0, g.table[i].0);
    assert g.guesses[j].0 in vs;
    var k :| 0 <= k < |vs| && vs[k] == g.guesses[j].0;
    assert MakeView(g, viewer).table[i].voters[k] == MakeBadge(g, g.guesses[j].0);
  }

  /** The opponents shown are exactly the other seated players. */
  lemma ViewShowsOpponents(g: Game, viewer: PlayerId)
    requires Renderable(g, viewer)
    ensures forall p :: p in g.players && p != viewer ==> MakeBadge(g, p) in MakeView(g, viewer).opponents
    ensures forall b :: b in MakeView(g, viewer).opponents ==> b.id in g.players && b.id != viewer
  {
    var os := Others(g.players, viewer);
    forall p | p in g.players && p != viewer ensures MakeBadge(g, p) in MakeView(g, viewer).opponents {
      var k :| 0 <= k < |os| && os[k] == p;
      assert MakeView(g, viewer).opponents[k] == MakeBadge(g, p);
    }
    forall b | b in MakeView(g, viewer).opponents ensures b.id in g.players && b.id != viewer {
      var k :| 0 <= k < |os| && MakeView(g, viewer).opponents[k] == b;
      assert b.id == os[k] && os[k] in os;
    }
  }
}
