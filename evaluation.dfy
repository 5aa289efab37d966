/** The two static evaluators: ChessBotLogic.ts scores material plus a tenth of the
    mobility, ChessGame.tsx material only. Positive favours white. The bot's value is
    held in tenths of a point so that it stays an exact integer. */
module Evaluation {
  import opened Pieces
  import opened Boards
  import opened MoveGen

  /** Which copy of the engine: the bot module or the older copy inside ChessGame.tsx. */
  datatype Engine = Bot | Legacy

  /** The `pieceScore` tables of the two files. */
  function PieceScore(e: Engine, k: Kind): (v: int)
    ensures v > 0
  {
    match e
    case Bot =>
      (match k
       case Pawn => 100 case Knight => 320 case Bishop => 330
       case Rook => 500 case Queen => 900 case King => 20000)
    case Legacy =>
      (match k
       case Pawn => 1 case Knight => 3 case Bishop => 3
       case Rook => 5 case Queen => 9 case King => 1000)
  }

  /** `isWhite(piece) ? val : -val`; an empty square is skipped and adds nothing. */
  function Worth(e: Engine, c: Cell): (v: int)
    ensures c.Empty? ==> v == 0
    ensures c.Piece? && c.white ==> v > 0
    ensures c.Piece? && !c.white ==> v < 0
  {
    match c
    case Empty => 0
    case Piece(w, k) => if w then PieceScore(e, k) else -PieceScore(e, k)
  }

  /** The signed material of the squares at or after (i, j) in row-major order. */
  function MaterialFrom(e: Engine, b: Board, i: nat, j: nat): int
    requires i <= 8 && j <= 8
    decreases 8 - i, 8 - j
  {
    if i == 8 then 0
    else if j == 8 then MaterialFrom(e, b, i + 1, 0)
    else Worth(e, b[i][j]) + MaterialFrom(e, b, i, j + 1)
  }

  function Material(e: Engine, b: Board): int
  {
    MaterialFrom(e, b, 0, 0)
  }

  /** `isWhite(piece) ? pseudo : -pseudo` for the square's destinations in `t`. */
  function Reach(b: Board, t: Table, i: Coord, j: Coord): int
  {
    match b[i][j]
    case Empty => 0
    case Piece(w, _) => if w then |t[i][j]| else -|t[i][j]|
  }

  /** The signed mobility of the squares at or after (i, j) in row-major order. */
  function MobilityFrom(b: Board, t: Table, i: nat, j: nat): int
    requires i <= 8 && j <= 8
    decreases 8 - i, 8 - j
  {
    if i == 8 then 0
    else if j == 8 then MobilityFrom(b, t, i + 1, 0)
    else Reach(b, t, i, j) + MobilityFrom(b, t, i, j + 1)
  }

  /** The bot's mobility term, counted with its own destinations, castling included. */
  function Mobility(b: Board): int
  {
    MobilityFrom(b, PseudoTable(b, true), 0, 0)
  }

  /** The static value of a position: for the bot `score + 0.1 * mobility`, scaled by
      ten; for the legacy copy the material alone. */
  function Evaluate(e: Engine, b: Board): int
  {
    match e
    case Bot => 10 * Material(Bot, b) + Mobility(b)
    case Legacy => Material(Legacy, b)
  }

  /** The board with every piece's colour exchanged, squares kept. */
  function Swapped(b: Board): (r: Board)
    ensures forall i, j | 0 <= i < 8 && 0 <= j < 8 ::
      r[i][j] == match b[i][j] case Empty => Empty case Piece(w, k) => Piece(!w, k)
  {
    seq(8, i requires 0 <= i < 8 =>
      seq(8, j requires 0 <= j < 8 =>
        match b[i][j] case Empty => Empty case Piece(w, k) => Piece(!w, k)))
  }

  lemma {:induction false} EmptyFrom(e: Engine, b: Board, t: Table, i: nat, j: nat)
    requires i <= 8 && j <= 8
    requires forall r, c | 0 <= r < 8 && 0 <= c < 8 :: b[r][c] == Empty
    ensures MaterialFrom(e, b, i, j) == 0 && MobilityFrom(b, t, i, j) == 0
    decreases 8 - i, 8 - j
  {
    if i < 8 {
      if j == 8 { EmptyFrom(e, b, t, i + 1, 0); } else { EmptyFrom(e, b, t, i, j + 1); }
    }
  }

  /** An empty board is worth nothing to either evaluator. */
  lemma EmptyBoardIsLevel(e: Engine, b: Board)
    requires forall r, c | 0 <= r < 8 && 0 <= c < 8 :: b[r][c] == Empty
    ensures Evaluate(e, b) == 0
  {
    EmptyFrom(e, b, PseudoTable(b, true), 0, 0);
  }

  lemma {:induction false} SwappedFrom(e: Engine, b: Board, i: nat, j: nat)
    requires i <= 8 && j <= 8
    ensures MaterialFrom(e, Swapped(b), i, j) == -MaterialFrom(e, b, i, j)
    decreases 8 - i, 8 - j
  {
    if i < 8 {
      if j == 8 { SwappedFrom(e, b, i + 1, 0); } else { SwappedFrom(e, b, i, j + 1); }
    }
  }

  /** Material is antisymmetric in the colours: exchanging them negates it. */
  lemma SwappedMaterial(e: Engine, b: Board)
    ensures Material(e, Swapped(b)) == -Material(e, b)
  {
    SwappedFrom(e, b, 0, 0);
  }

  lemma {:induction false} PutFrom(e: Engine, b: Board, s: Square, c: Cell, i: nat, j: nat)
    requires i <= 8 && j <= 8
    ensures MaterialFrom(e, Put(b, s, c), i, j) ==
      MaterialFrom(e, b, i, j) + (if i < 8 && Index(s) >= 8 * i + j then Worth(e, c) - Worth(e, At(b, s)) else 0)
    decreases 8 - i, 8 - j
  {
    if i < 8 {
      if j == 8 {
        PutFrom(e, b, s, c, i + 1, 0);
      } else {
        PutFrom(e, b, s, c, i, j + 1);
        PutCells(b, s, c);
        assert Index(s) >= 8 * i + j <==> Index(s) == 8 * i + j || (j < 7 && Index(s) >= 8 * i + j + 1) || (j == 7 && Index(s) >= 8 * (i + 1));
      }
    }
  }

  /** Writing one cell changes the material by the new cell's worth less the old one's. */
  lemma PutMaterial(e: Engine, b: Board, s: Square, c: Cell)
    ensures Material(e, Put(b, s, c)) == Material(e, b) + Worth(e, c) - Worth(e, At(b, s))
  {
    PutFrom(e, b, s, c, 0, 0);
  }

  /** A move changes the material by exactly the worth of what stood on its target:
      a quiet move keeps it, a capture removes the captured piece's value. */
  lemma MoveMaterial(e: Engine, b: Board, m: Move)
    requires m.from != m.to
    ensures Material(e, Apply(b, m)) == Material(e, b) - Worth(e, At(b, m.to))
  {
    var b1 := Put(b, m.to, At(b, m.from));
    PutMaterial(e, b, m.to, At(b, m.from));
    PutMaterial(e, b1, m.from, Empty);
    PutCells(b, m.to, At(b, m.from));
    assert At(b1, m.from) == At(b, m.from);
  }
}
