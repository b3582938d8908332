/** The older tic-tac-toe engine (`back/Game.py`): it records the winner's id, never resets the
    board and never passes the move on. */
module LegacyTicTacToe {
  import opened Options
  import opened Board
  import opened Seating
  import TicTacToe

  datatype Game = Game(id: nat, seats: Seats, winner: Option<PlayerId>, moveOrder: Side, board: Grid)

  /** `__init__`: no one seated, no winner, X to move, an empty board. */
  function NewTable(id: nat): (g: Game)
    ensures g.seats == Seats(None, None) && g.winner.None? && g.moveOrder == X && g.board == EmptyGrid()
  {
    Game(id, Seats(None, None), None, X, EmptyGrid())
  }

  /** `add_player`: the same seating rule as the newer engine. */
  function AddPlayer(g: Game, p: PlayerId, coin: bool): (r: Game)
    ensures Occupies(r.seats, p)
    ensures !BothTaken(g.seats) ==> forall q :: Occupies(g.seats, q) ==> Occupies(r.seats, q)
    ensures r.seats == Seating.AddPlayer(g.seats, p, coin)
    ensures r.id == g.id && r.winner == g.winner && r.moveOrder == g.moveOrder && r.board == g.board
  {
    g.(seats := Seating.AddPlayer(g.seats, p, coin))
  }

  /** Two different players joining a new table end up holding both seats, one each, whichever
      way the coin falls; a third joiner then takes O from its holder. */
  lemma TwoJoinersFillTable(id: nat, p: PlayerId, q: PlayerId, c1: bool, c2: bool, t: PlayerId, c3: bool)
    requires p != q
    ensures var g := AddPlayer(AddPlayer(NewTable(id), p, c1), q, c2);
      && BothTaken(g.seats) && Occupies(g.seats, p) && Occupies(g.seats, q) && g.seats.x != g.seats.o
      && AddPlayer(g, t, c3).seats == Seats(g.seats.x, Some(t))
  {
  }

  /** `__check_win(player_id)`: when some row, column or diagonal is uniform and non-empty, record
      the mover as the winner and answer true; otherwise answer false and keep the old winner. */
  function CheckWin(g: Game, p: PlayerId): (r: (Game, bool))
    requires Shaped(g.board)
    ensures r.1 <==> HasLine(g.board)
    ensures r.1 ==> r.0 == g.(winner := Some(p))
    ensures !r.1 ==> r.0 == g
  {
    if HasLine(g.board) then (g.(winner := Some(p)), true) else (g, false)
  }

  /** `move`: the same three refusals as the newer engine; an accepted move marks the square and
      checks for a line, but `move_order` is left as it was. */
  function Move(g: Game, button: int, p: PlayerId): (r: Result<(Game, bool), TicTacToe.MoveError>)
    requires Shaped(g.board)
    ensures r == Err(TicTacToe.OutOfRange) <==> !(0 <= button <= 8)
    ensures r == Err(TicTacToe.NotYourTurn) <==> 0 <= button <= 8 && TicTacToe.SideOf(g.seats, p) != g.moveOrder
    ensures r == Err(TicTacToe.Occupied) <==>
      0 <= button <= 8 && TicTacToe.SideOf(g.seats, p) == g.moveOrder && g.board[button / 3][button % 3] != Empty
    ensures r.Ok? ==>
      && r.value.0.id == g.id && r.value.0.seats == g.seats && r.value.0.moveOrder == g.moveOrder
      && r.value.0.board == Place(g.board, button / 3, button % 3, g.moveOrder)
    ensures r.Ok? ==> (r.value.1 <==> HasLine(r.value.0.board))
    ensures r.Ok? ==> r.value.0.winner == if r.value.1 then Some(p) else g.winner
  {
    if !(0 <= button <= 8) then Err(TicTacToe.OutOfRange)
    else
      var elem := TicTacToe.SideOf(g.seats, p);
      if elem != g.moveOrder then Err(TicTacToe.NotYourTurn)
      else
        var row, col := button / 3, button % 3;
        if g.board[row][col] != Empty then Err(TicTacToe.Occupied)
        else Ok(CheckWin(g.(board := Place(g.board, row, col, elem)), p))
  }

  /** A sequence of move requests: (button, player). */
  type Requests = seq<(int, PlayerId)>

  /** Play the requests in order; a refused request leaves the game as it was. */
  function Play(g: Game, rs: Requests): (r: Game)
    requires Shaped(g.board)
    ensures Shaped(r.board) && r.moveOrder == g.moveOrder && r.seats == g.seats
    decreases |rs|
  {
    if rs == [] then g
    else match Move(g, rs[0].0, rs[0].1) {
      case Err(_) => Play(g, rs[1..])
      case Ok((g', _)) => Play(g', rs[1..])
    }
  }

  /** Because `move_order` never changes from its initial X, only the X seat's holder ever gets a
      move accepted, however many requests are played; everybody else is always refused. */
  lemma {:induction false} OnlyXEverMoves(id: nat, seats: Seats, rs: Requests, button: int, p: PlayerId)
    requires seats.x != Some(p)
    ensures var g := Play(NewTable(id).(seats := seats), rs);
      Move(g, button, p).Err?
  {
    var g := Play(NewTable(id).(seats := seats), rs);
    assert g.moveOrder == X;
  }

  /** A recorded winner stays recorded: later moves can only name a new winner, never clear it. */
  lemma {:induction false} WinnerSticks(g: Game, rs: Requests)
    requires Shaped(g.board) && g.winner.Some?
    ensures Play(g, rs).winner.Some?
    decreases |rs|
  {
    if rs != [] {
      match Move(g, rs[0].0, rs[0].1) {
        case Err(_) => WinnerSticks(g, rs[1..]);
        case Ok((g', _)) => WinnerSticks(g', rs[1..]);
      }
    }
  }
}
