/** Seat bookkeeping shared by both tic-tac-toe engines (`add_player`, `leave_player`). */
module Seating {
  import opened Options
  import opened Board

  type PlayerId = nat

  /** `PlayerX` and `PlayerO`; `None` is an empty seat. */
  datatype Seats = Seats(x: Option<PlayerId>, o: Option<PlayerId>)

  predicate Occupies(s: Seats, p: PlayerId) {
    s.x == Some(p) || s.o == Some(p)
  }

  predicate BothTaken(s: Seats) {
    s.x.Some? && s.o.Some?
  }

  /** `add_player`. When both seats are empty the source flips a coin (`randint(0, 1)`), given here
      as `coin`: heads seats the player as X. Otherwise X is filled if empty, else O — which, when
      both seats are taken, replaces O's occupant. */
  function AddPlayer(s: Seats, p: PlayerId, coin: bool): (r: Seats)
    ensures Occupies(r, p)
    ensures s.x.None? && s.o.None? ==> (coin ==> r == Seats(Some(p), None)) && (!coin ==> r == Seats(None, Some(p)))
    ensures !BothTaken(s) ==> forall q :: Occupies(s, q) ==> Occupies(r, q)
    ensures !BothTaken(s) && (s.x.Some? || s.o.Some?) ==> BothTaken(r)
    ensures BothTaken(s) ==> r.x == s.x && r.o == Some(p)
    ensures s.x.Some? && s.o.None? ==> r == s.(o := Some(p))
    ensures s.x.None? && s.o.Some? ==> r == s.(x := Some(p))
  {
    if s.x == s.o && s.o.None? then
      if coin then s.(x := Some(p)) else s.(o := Some(p))
    else if s.x.None? then s.(x := Some(p))
    else s.(o := Some(p))
  }

  /** `leave_player`: free the first seat, X before O, that `p` holds and report which it was
      (`'Player X left'` / `'Player O left'`); report nothing when `p` holds no seat. */
  function LeavePlayer(s: Seats, p: PlayerId): (r: (Seats, Option<Side>))
    ensures r.1.None? <==> !Occupies(s, p)
    ensures r.1 == Some(X) ==> s.x == Some(p) && r.0 == Seats(None, s.o)
    ensures r.1 == Some(O) ==> s.x != Some(p) && s.o == Some(p) && r.0 == Seats(s.x, None)
    ensures r.1.None? ==> r.0 == s
  {
    if s.x == Some(p) then (s.(x := None), Some(X))
    else if s.o == Some(p) then (s.(o := None), Some(O))
    else (s, None)
  }

  /** Joining a free seat and leaving again restores the seats exactly. */
  lemma JoinLeaveRoundTrip(s: Seats, p: PlayerId, coin: bool)
    requires !BothTaken(s) && !Occupies(s, p)
    ensures LeavePlayer(AddPlayer(s, p, coin), p).0 == s
    ensures LeavePlayer(AddPlayer(s, p, coin), p).1.Some?
  {
  }
}
