/** The `ChessGame` component of ChessGame.tsx: the human plays white by clicking
    squares, the page's bot answers for black with the older engine at depth 2. The
    component's state is the class `Game`; `Click` and `Reply` are what one click and
    one bot turn do to it, and the lemmas say what they promise. */
module ChessGame {
  import opened Pieces
  import opened Boards
  import opened MoveGen
  import opened MoveGenFacts
  import opened ExtValues
  import opened Evaluation
  import Search
  import opened RootSpec
  import opened LegacyEngine

  /** `turn` ("white" / "black") and `winner` ("White" / "Black"). */
  datatype Side = White | Black

  /** The component's state variables, as one value. */
  datatype Status = Status(board: Board, selected: Option<Square>, turn: Side, gameOver: bool,
                           winner: Option<Side>, possibleMoves: seq<Square>)

  /** The state of a fresh page. */
  function Initial(): Status
  {
    Status(InitialBoard(), None, White, false, None, [])
  }

  /** What the handlers keep true: a winner is named exactly when the game is over; a
      selection is made only on white's turn, holds a white piece and shows exactly that
      piece's moves; without a selection nothing is shown. */
  predicate Valid(s: Status)
  {
    && (s.gameOver <==> s.winner.Some?)
    && (s.selected.None? ==> s.possibleMoves == [])
    && (s.selected.Some? ==>
          && s.turn == White && !s.gameOver
          && OwnedBy(At(s.board, s.selected.value), true)
          && s.possibleMoves == PseudoMoves(s.board, s.selected.value.row, s.selected.value.col, false))
  }

  /** `handleClick(row, col)`. Nothing happens once the game is over or on black's
      turn. With a white piece selected, a click on one of its pseudo-legal
      destinations plays the move: taking the black king ends the game for white,
      otherwise black is to move; any other click drops the selection. Without a
      selection, a click on a white piece selects it and shows its moves. */
  function Click(s: Status, row: Coord, col: Coord): Status
  {
    if s.gameOver || s.turn != White then s
    else
      match s.selected
      case Some(from) =>
        var selectedPiece := At(s.board, from);
        if IsWhite(Code(selectedPiece)) && Square(row, col) in PseudoMoves(s.board, from.row, from.col, false) then
          var captured := s.board[row][col];
          var moved := s.(board := Apply(s.board, Move(from, Square(row, col))), selected := None, possibleMoves := []);
          if Code(captured) == "k" then moved.(gameOver := true, winner := Some(White)) else moved.(turn := Black)
        else s.(selected := None, possibleMoves := [])
      case None =>
        if IsWhite(Code(s.board[row][col])) then
          s.(selected := Some(Square(row, col)), possibleMoves := PseudoMoves(s.board, row, col, false))
        else s
  }

  /** The bot turn of the `useEffect` on `turn`: on black's turn of a running game the
      older engine's root at depth 2 picks black's move; taking the white king ends the
      game for black, otherwise white is to move. Without a move nothing changes. */
  function Reply(s: Status): Status
  {
    if s.turn != Black || s.gameOver then s
    else
      match LegacyRoot(s.board, 2, false).move
      case None => s
      case Some(m) => Play(s, m)
  }

  /** Black plays `m`: taking the white king ends the game for black, otherwise white
      is to move. */
  function Play(s: Status, m: Move): Status
  {
    var captured := At(s.board, m.to);
    var moved := s.(board := Apply(s.board, m));
    if Code(captured) == "K" then moved.(gameOver := true, winner := Some(Black)) else moved.(turn := White)
  }

  lemma InitialValid()
    ensures Valid(Initial())
  {
  }

  /** A click keeps the state valid. */
  lemma ClickValid(s: Status, row: Coord, col: Coord)
    requires Valid(s)
    ensures Valid(Click(s, row, col))
  {
    CodeColour(s.board[row][col]);
  }

  /** A bot turn keeps the state valid. */
  lemma ReplyValid(s: Status)
    requires Valid(s)
    ensures Valid(Reply(s))
  {
  }

  /** The destination the click names for the selected piece. */
  function Target(s: Status, row: Coord, col: Coord): (m: Move)
    requires s.selected.Some?
    ensures m.from == s.selected.value && m.to == Square(row, col)
  {
    Move(s.selected.value, Square(row, col))
  }

  /** What a click on white's turn does: it plays a move exactly when a piece is
      selected and the square is one of its destinations, and that move is one of
      white's pseudo-legal moves; the move passes the turn to black unless it takes
      the black king, which ends the game with white the winner. Any other click
      leaves the position, the turn and the result alone. */
  lemma ClickMoves(s: Status, row: Coord, col: Coord)
    requires Valid(s) && !s.gameOver && s.turn == White
    ensures var t := Click(s, row, col);
      var hit := s.selected.Some? && Square(row, col) in s.possibleMoves;
      && (hit ==>
            var m := Target(s, row, col);
            && m in AllMoves(s.board, true, false)
            && t.board == Apply(s.board, m) && t.selected.None? && t.possibleMoves == []
            && (t.gameOver <==> At(s.board, m.to) == Piece(false, King))
            && (t.gameOver ==> t.winner == Some(White) && t.turn == White)
            && (!t.gameOver ==> t.turn == Black))
      && (!hit ==> t.board == s.board && t.turn == s.turn && t.gameOver == s.gameOver && t.winner == s.winner)
  {
    if s.selected.Some? && Square(row, col) in s.possibleMoves {
      var m := Target(s, row, col);
      CodeColour(At(s.board, m.from));
      KingCode(s.board[row][col], false);
      AllMovesMembers(s.board, true, false, m);
    }
  }

  /** The selection half of a click on white's turn: with nothing selected, a click on
      a white piece selects it and shows its pseudo-legal destinations, and a click
      anywhere else changes nothing; with a piece selected, a click off its shown
      destinations drops the selection and the shown moves and changes nothing else. */
  lemma ClickSelects(s: Status, row: Coord, col: Coord)
    requires Valid(s) && !s.gameOver && s.turn == White
    ensures var t := Click(s, row, col);
      && (s.selected.None? && OwnedBy(s.board[row][col], true) ==>
            t == s.(selected := Some(Square(row, col)), possibleMoves := PseudoMoves(s.board, row, col, false)))
      && (s.selected.None? && !OwnedBy(s.board[row][col], true) ==> t == s)
      && (s.selected.Some? && Square(row, col) !in s.possibleMoves ==>
            t == s.(selected := None, possibleMoves := []))
  {
    CodeColour(s.board[row][col]);
    if s.selected.Some? {
      CodeColour(At(s.board, s.selected.value));
    }
  }

  /** Clicks do nothing on black's turn or once the game is over. */
  lemma ClickWaits(s: Status, row: Coord, col: Coord)
    requires s.gameOver || s.turn == Black
    ensures Click(s, row, col) == s
  {
  }

  /** What a bot turn does: on black's turn of a running game with a black move, it
      plays the older engine's root move, one of black's pseudo-legal moves whose value
      is the minimax value of the position; the turn passes to white unless the move
      takes the white king, which ends the game with black the winner. Without a
      black move, or out of turn, nothing changes. */
  lemma ReplyMoves(s: Status)
    requires Valid(s)
    ensures var t := Reply(s);
      && (s.turn == White || s.gameOver || Search.Moves(Legacy, s.board, false) == [] ==> t == s)
      && (s.turn == Black && !s.gameOver && Search.Moves(Legacy, s.board, false) != [] ==>
            var r := LegacyRoot(s.board, 2, false);
            && r.move.Some? && r.move.value in AllMoves(s.board, false, false)
            && r.value == Search.Minimax(Legacy, s.board, 2, false)
            && t.board == Apply(s.board, r.move.value)
            && (t.gameOver <==> At(s.board, r.move.value.to) == Piece(true, King))
            && (t.gameOver ==> t.winner == Some(Black) && t.turn == Black)
            && (!t.gameOver ==> t.turn == White))
  {
    if s.turn == Black && !s.gameOver {
      LegacyRootNone(s.board, 2, false);
      if Search.Moves(Legacy, s.board, false) != [] {
        LegacyRootFirstBest(s.board, 2, false);
        LegacyRootIsMinimax(s.board, 2, false);
        var m := LegacyRoot(s.board, 2, false).move.value;
        KingCode(At(s.board, m.to), true);
      }
    }
  }

  /** The page's state and handlers. */
  class Game {
    var board: Board
    var selected: Option<Square>
    var turn: Side
    var gameOver: bool
    var winner: Option<Side>
    var possibleMoves: seq<Square>

    function State(): Status
      reads this
    {
      Status(board, selected, turn, gameOver, winner, possibleMoves)
    }

    /** The `useState` initial values. */
    constructor ()
      ensures State() == Initial() && Valid(State())
    {
      board := InitialBoard();
      selected := None;
      turn := White;
      gameOver := false;
      winner := None;
      possibleMoves := [];
    }

    /** `handleClick(row, col)` */
    method HandleClick(row: Coord, col: Coord)
      modifies this
      ensures State() == Click(old(State()), row, col)
      ensures Valid(old(State())) ==> Valid(State())
    {
      ghost var before := State();
      if Valid(before) {
        ClickValid(before, row, col);
      }
      if gameOver || turn != White {
        return;
      }
      var piece := board[row][col];
      if selected.Some? {
        var from := selected.value;
        var selectedPiece := At(board, from);
        if IsWhite(Code(selectedPiece)) {
          var legal := LegacyEngine.GetPseudoLegalMoves(board, from.row, from.col);
          if Square(row, col) in legal {
            var newBoard := Put(board, Square(row, col), selectedPiece);
            var captured := board[row][col];
            newBoard := Put(newBoard, from, Empty);
            board := newBoard;
            selected := None;
            possibleMoves := [];
            if Code(captured) == "k" {
              gameOver := true;
              winner := Some(White);
            } else {
              turn := Black;
            }
            return;
          }
        }
        selected := None;
        possibleMoves := [];
      } else {
        if IsWhite(Code(piece)) {
          var legal := LegacyEngine.GetPseudoLegalMoves(board, row, col);
          selected := Some(Square(row, col));
          possibleMoves := legal;
        }
      }
    }

    /** The bot's turn, run by the effect on `turn` (its 500 ms delay left out). */
    method BotTurn()
      modifies this
      ensures State() == Reply(old(State()))
      ensures Valid(old(State())) ==> Valid(State())
    {
      ghost var before := State();
      if Valid(before) {
        ReplyValid(before);
      }
      if turn != Black || gameOver {
        return;
      }
      var move, _ := LegacyEngine.MinimaxRoot(board, 2, false);
      if move.Some? {
        PlayMove(move.value);
      }
    }

    /** The move half of the effect: copy the board, move the piece, look at what it took. */
    method PlayMove(m: Move)
      modifies this
      ensures State() == Play(old(State()), m)
    {
      var newBoard := board;
      var captured := At(newBoard, m.to);
      newBoard := Put(newBoard, m.to, At(newBoard, m.from));
      newBoard := Put(newBoard, m.from, Empty);
      board := newBoard;
      if Code(captured) == "K" {
        gameOver := true;
        winner := Some(Black);
      } else {
        turn := White;
      }
    }
  }
}
