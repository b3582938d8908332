/** A tic-tac-toe client and the table it sits at (`back/tic_tac_toe/Player.py`). */
module SeatPlayer {
  import opened Options
  import opened Board
  import opened Seating
  import TicTacToe

  /** `state` is the id of the table the player sits at, if any. */
  datatype Player = Player(id: PlayerId, state: Option<nat>)

  /** `join_game`: refuse (False, nothing changes) when already at a table or when both seats are
      taken; otherwise remember the table, take a seat and answer True. */
  function JoinGame(pl: Player, g: TicTacToe.Game, coin: bool): (r: (Player, TicTacToe.Game, bool))
    ensures !r.2 <==> pl.state.Some? || BothTaken(g.seats)
    ensures !r.2 ==> r.0 == pl && r.1 == g
    ensures r.2 ==> r.0 == pl.(state := Some(g.id)) && Occupies(r.1.seats, pl.id)
    ensures r.2 ==> forall q :: Occupies(g.seats, q) ==> Occupies(r.1.seats, q)
    ensures r.2 ==> r.1.seats == Seating.AddPlayer(g.seats, pl.id, coin)
    ensures r.1 == g.(seats := r.1.seats)
  {
    if pl.state.Some? then (pl, g, false)
    else if g.seats.x.Some? && g.seats.o.Some? then (pl, g, false)
    else (pl.(state := Some(g.id)), g.(seats := Seating.AddPlayer(g.seats, pl.id, coin)), true)
  }

  /** `leave_game`: forget the table and free the player's seat, answering which seat it was. */
  function LeaveGame(pl: Player, g: TicTacToe.Game): (r: (Player, TicTacToe.Game, Option<Side>))
    ensures r.0 == pl.(state := None)
    ensures r.2.None? <==> !Occupies(g.seats, pl.id)
    ensures r.2 == Some(X) ==> r.1.seats.x.None? && r.1.seats.o == g.seats.o
    ensures r.2 == Some(O) ==> r.1.seats.o.None? && r.1.seats.x == g.seats.x
    ensures r.1 == g.(seats := r.1.seats)
  {
    var (seats, side) := Seating.LeavePlayer(g.seats, pl.id);
    (pl.(state := None), g.(seats := seats), side)
  }

  /** A free player who joins a table with a free seat and then leaves is back where it started,
      and so is the table. */
  lemma JoinThenLeave(pl: Player, g: TicTacToe.Game, coin: bool)
    requires pl.state.None? && !BothTaken(g.seats) && !Occupies(g.seats, pl.id)
    ensures var (pl1, g1, ok) := JoinGame(pl, g, coin);
      ok && LeaveGame(pl1, g1).0 == pl && LeaveGame(pl1, g1).1 == g
  {
    JoinLeaveRoundTrip(g.seats, pl.id, coin);
  }
}
