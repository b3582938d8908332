/** The tic-tac-toe engine (`back/tic_tac_toe/Game.py`): a move either is refused, or marks a
    square and reports a win, a draw or nothing; a finished game starts over at once. */
module TicTacToe {
  import opened Options
  import opened Board
  import opened Seating

  /** The value `move` returns: `''`, `'win X'` / `'win O'`, or `'draw'`. */
  datatype Outcome = Continue | Won(side: Side) | Drawn

  /** The three exceptions `move` raises. */
  datatype MoveError = OutOfRange | NotYourTurn | Occupied

  datatype Game = Game(id: nat, seats: Seats, moveOrder: Side, board: Grid)

  /** `__init__`: no one seated, X to move, an empty board. The id is drawn at random by the
      source and is a parameter here. */
  function NewTable(id: nat): (g: Game)
    ensures g.seats == Seats(None, None) && g.moveOrder == X && g.board == EmptyGrid()
  {
    Game(id, Seats(None, None), X, EmptyGrid())
  }

  /** `new_game`: clear the board and give X the move; the seats stay. */
  function NewGame(g: Game): (r: Game)
    ensures r.id == g.id && r.seats == g.seats
    ensures r.moveOrder == X && Shaped(r.board) && forall i, j :: 0 <= i < 3 && 0 <= j < 3 ==> r.board[i][j] == Empty
  {
    g.(moveOrder := X, board := EmptyGrid())
  }

  /** The mark a player plays: X for the X seat, O for anybody else. */
  function SideOf(s: Seats, p: PlayerId): Side {
    if s.x == Some(p) then X else O
  }

  /** `__check_win` on the board just marked by `elem`: a line wins for `elem`, a full board
      without a line is a draw, and either way the game starts over. */
  function CheckWin(g: Game, elem: Side): (r: (Game, Outcome))
    requires Shaped(g.board)
    ensures r.1 == Continue <==> !HasLine(g.board) && !Full(g.board)
    ensures r.1 == Continue ==> r.0 == g
    ensures r.1 != Continue ==> r.0 == NewGame(g)
    ensures r.1.Won? ==> HasLine(g.board) && r.1.side == elem
    ensures r.1 == Drawn ==> !HasLine(g.board) && Full(g.board)
  {
    if HasLine(g.board) then (NewGame(g), Won(elem))
    else if Full(g.board) then (NewGame(g), Drawn)
    else (g, Continue)
  }

  /** `move`: refuse a button outside 0..8, a mover whose mark is not the one to move, and an
      occupied square, in that order; otherwise mark square (button // 3, button % 3), pass the
      move to the other side, and check for a result. */
  function Move(g: Game, button: int, p: PlayerId): (r: Result<(Game, Outcome), MoveError>)
    requires Shaped(g.board)
    ensures r == Err(OutOfRange) <==> !(0 <= button <= 8)
    ensures r == Err(NotYourTurn) <==> 0 <= button <= 8 && SideOf(g.seats, p) != g.moveOrder
    ensures r == Err(Occupied) <==>
      0 <= button <= 8 && SideOf(g.seats, p) == g.moveOrder && g.board[button / 3][button % 3] != Empty
    ensures r.Ok? ==> r.value.0.id == g.id && r.value.0.seats == g.seats
    ensures r.Ok? ==> Shaped(r.value.0.board) && !HasLine(r.value.0.board)
    ensures r.Ok? && r.value.1 == Continue ==>
      && r.value.0.moveOrder == g.moveOrder.Other()
      && r.value.0.board[button / 3][button % 3] == Mark(g.moveOrder)
      && forall i, j :: 0 <= i < 3 && 0 <= j < 3 && (i, j) != (button / 3, button % 3) ==>
           r.value.0.board[i][j] == g.board[i][j]
    ensures r.Ok? && r.value.1 != Continue ==> r.value.0 == NewGame(g)
    ensures 0 <= button <= 8 && r.Ok? ==>
      var placed := Place(g.board, button / 3, button % 3, g.moveOrder);
      && (r.value.1 == Won(g.moveOrder) <==> HasLine(placed))
      && (r.value.1 == Drawn <==> !HasLine(placed) && Full(placed))
      && (r.value.1 == Continue <==> !HasLine(placed) && !Full(placed))
  {
    if !(0 <= button <= 8) then Err(OutOfRange)
    else
      var elem := SideOf(g.seats, p);
      if elem != g.moveOrder then Err(NotYourTurn)
      else
        var row, col := button / 3, button % 3;
        if g.board[row][col] != Empty then Err(Occupied)
        else
          var placed := g.(board := Place(g.board, row, col, elem), moveOrder := g.moveOrder.Other());
          Ok(CheckWin(placed, elem))
  }

  // ---------------------------------------------------------------------------------------
  // The invariant every reachable table keeps.

  /** X moves first and the sides alternate, so X has as many marks as O when X is to move and
      one more when O is; no completed line is ever left on the board. */
  predicate Playable(g: Game) {
    && Shaped(g.board)
    && !HasLine(g.board)
    && (g.moveOrder == X ==> Count(g.board, X) == Count(g.board, O))
    && (g.moveOrder == O ==> Count(g.board, X) == Count(g.board, O) + 1)
  }

  lemma NewTablePlayable(id: nat)
    ensures Playable(NewTable(id))
  {
    EmptyGridCounts(X);
    EmptyGridCounts(O);
  }

  /** Every accepted move keeps the table playable. */
  lemma MoveKeepsPlayable(g: Game, button: int, p: PlayerId)
    requires Playable(g) && Move(g, button, p).Ok?
    ensures Playable(Move(g, button, p).value.0)
  {
    var row, col := button / 3, button % 3;
    var r := Move(g, button, p).value;
    if r.1 == Continue {
      PlaceCounts(g.board, row, col, g.moveOrder);
      assert r.0.board == Place(g.board, row, col, g.moveOrder);
    } else {
      EmptyGridCounts(X);
      EmptyGridCounts(O);
      assert r.0.board == EmptyGrid();
    }
  }

  /** On a playable table a reported win is real: the winner named is the mover and the square
      just marked completed one of the winner's lines, while the other side holds none. */
  lemma WinBelongsToMover(g: Game, button: int, p: PlayerId)
    requires Playable(g) && Move(g, button, p).Ok? && Move(g, button, p).value.1.Won?
    ensures var placed := Place(g.board, button / 3, button % 3, g.moveOrder);
      && Move(g, button, p).value.1.side == g.moveOrder == SideOf(g.seats, p)
      && LineOf(placed, g.moveOrder) && !LineOf(placed, g.moveOrder.Other())
  {
    NewLineIsMover(g.board, button / 3, button % 3, g.moveOrder);
  }

  lemma {:induction false} FullRowCounts(row: seq<Cell>)
    requires forall j :: 0 <= j < |row| ==> row[j] != Empty
    ensures CountRow(row, X) + CountRow(row, O) == |row|
    decreases |row|
  {
    if row != [] {
      assert row[0] != Empty;
      if row[0].side == X {
        assert row[0] == Mark(X);
      } else {
        assert row[0] == Mark(O);
      }
      FullRowCounts(row[1..]);
    }
  }

  /** Nine marks with X moving first: on a playable table only X can fill the last square. */
  lemma DrawIsXsMove(g: Game, button: int, p: PlayerId)
    requires Playable(g) && Move(g, button, p).Ok? && Move(g, button, p).value.1 == Drawn
    ensures g.moveOrder == X
  {
    var row, col := button / 3, button % 3;
    var placed := Place(g.board, row, col, g.moveOrder);
    assert Full(placed) by {
      assert SideOf(g.seats, p) == g.moveOrder;
      assert Move(g, button, p).value == CheckWin(g.(board := placed, moveOrder := g.moveOrder.Other()), g.moveOrder);
    }
    assert Count(placed, X) + Count(placed, O) == 9 by {
      FullRowCounts(placed[0]);
      FullRowCounts(placed[1]);
      FullRowCounts(placed[2]);
    }
    PlaceCounts(g.board, row, col, g.moveOrder);
  }
}
