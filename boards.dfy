/** The 8 x 8 board, squares and moves. Row 0 is black's back rank, row 7 white's.
    The source copies the whole grid for every probe and writes two cells into the
    copy; a board here is a value, so a copy is the board itself. */
module Boards {
  import opened Pieces

  /** A row or column index. Every square the engine produces lies on the board. */
  type Coord = x: int | 0 <= x < 8

  datatype Square = Square(row: Coord, col: Coord)

  datatype Move = Move(from: Square, to: Square)

  predicate IsGrid(g: seq<seq<Cell>>)
  {
    |g| == 8 && forall i | 0 <= i < 8 :: |g[i]| == 8
  }

  type Board = g: seq<seq<Cell>> | IsGrid(g) witness seq(8, _ => seq(8, _ => Empty))

  function At(b: Board, s: Square): Cell
  {
    b[s.row][s.col]
  }

  /** Position of a square in the row-major scan every loop of the source follows. */
  function Index(s: Square): int
  {
    8 * s.row + s.col
  }

  /** Writes one cell of a copy of `b`. */
  function Put(b: Board, s: Square, c: Cell): Board
  {
    b[s.row := b[s.row][s.col := c]]
  }

  /** The copy differs from `b` in cell `s` alone, which holds `c`. */
  lemma PutCells(b: Board, s: Square, c: Cell)
    ensures forall i, j | 0 <= i < 8 && 0 <= j < 8 ::
      Put(b, s, c)[i][j] == if i == s.row && j == s.col then c else b[i][j]
  {
  }

  /** The copy-and-move of the source: the mover's cell is copied to `to` and `from`
      is cleared. Nothing else is touched: no rook moves when a king castles and no
      pawn is promoted. */
  function Apply(b: Board, m: Move): Board
  {
    Put(Put(b, m.to, At(b, m.from)), m.from, Empty)
  }

  /** The cells of the board after a move: `from` empty, `to` holding the mover,
      every other cell unchanged. */
  lemma ApplyCells(b: Board, m: Move)
    ensures forall i, j | 0 <= i < 8 && 0 <= j < 8 ::
      Apply(b, m)[i][j] == if i == m.from.row && j == m.from.col then Empty
                           else if i == m.to.row && j == m.to.col then At(b, m.from)
                           else b[i][j]
  {
    PutCells(b, m.to, At(b, m.from));
    PutCells(Put(b, m.to, At(b, m.from)), m.from, Empty);
  }

  function Rank(pieces: seq<char>): seq<Cell>
    requires |pieces| == 8
  {
    seq(8, j requires 0 <= j < 8 => Piece(IsAsciiUpper(pieces[j]), KindOf(pieces[j])))
  }

  function KindOf(ch: char): Kind
  {
    var l := LowerChar(ch);
    if l == 'p' then Pawn else if l == 'n' then Knight else if l == 'b' then Bishop
    else if l == 'r' then Rook else if l == 'q' then Queen else King
  }

  /** The starting position of ChessGame.tsx. */
  function InitialBoard(): (b: Board)
    ensures forall j | 0 <= j < 8 :: b[1][j] == Piece(false, Pawn) && b[6][j] == Piece(true, Pawn)
    ensures forall i, j | 2 <= i < 6 && 0 <= j < 8 :: b[i][j] == Empty
    ensures b[0][4] == Piece(false, King) && b[7][4] == Piece(true, King)
  {
    [ Rank("rnbqkbnr"), Rank("pppppppp"),
      seq(8, _ => Empty), seq(8, _ => Empty), seq(8, _ => Empty), seq(8, _ => Empty),
      Rank("PPPPPPPP"), Rank("RNBQKBNR") ]
  }
}
