/** The rules of `getPseudoLegalMoves`, square by square, as written in both copies of
    the engine (ChessBotLogic.ts and the older copy in ChessGame.tsx). The two copies
    differ only in castling, selected here by the `castling` flag. */
module MoveGen {
  import opened Pieces
  import opened Boards

  const RookDirs: seq<(int, int)> := [(1, 0), (-1, 0), (0, 1), (0, -1)]
  const BishopDirs: seq<(int, int)> := [(1, 1), (-1, -1), (1, -1), (-1, 1)]
  const KnightJumps: seq<(int, int)> :=
    [(2, 1), (2, -1), (-2, 1), (-2, -1), (1, 2), (-1, 2), (1, -2), (-1, -2)]
  const KingSteps: seq<(int, int)> :=
    [(0, 1), (0, -1), (1, 0), (-1, 0), (1, 1), (-1, -1), (1, -1), (-1, 1)]

  predicate InBounds(r: int, c: int)
  {
    0 <= r < 8 && 0 <= c < 8
  }

  /** `board[r]?.[c] === ""`: the probe is on the board and the square is empty. */
  predicate EmptyAt(b: Board, r: int, c: int)
  {
    InBounds(r, c) && b[r][c].Empty?
  }

  /** `cap && isWhite(cap) !== isW` for `cap = board[r]?.[c]`. */
  predicate EnemyAt(b: Board, r: int, c: int, w: bool)
  {
    InBounds(r, c) && b[r][c].Piece? && b[r][c].white != w
  }

  /** Pawn pushes: one square forward onto an empty square, two from the starting
      rank when both squares ahead are empty. */
  function PawnPushes(b: Board, row: Coord, col: Coord, w: bool): seq<Square>
  {
    var dir := if w then -1 else 1;
    var next := row + dir;
    var jump := row + 2 * dir;
    (if EmptyAt(b, next, col) then [Square(next, col)] else [])
    + (if ((w && row == 6) || (!w && row == 1)) && EmptyAt(b, next, col) && EmptyAt(b, jump, col)
       then [Square(jump, col)] else [])
  }

  /** A diagonal pawn capture onto (next, c), taken only onto an enemy piece. */
  function PawnCapture(b: Board, next: int, c: int, w: bool): seq<Square>
  {
    if EnemyAt(b, next, c, w) then [Square(next, c)] else []
  }

  function PawnMoves(b: Board, row: Coord, col: Coord, w: bool): seq<Square>
  {
    var next := row + if w then -1 else 1;
    PawnPushes(b, row, col, w) + PawnCapture(b, next, col - 1, w) + PawnCapture(b, next, col + 1, w)
  }

  /** One ray of a sliding piece from step `s` on: empty squares, then the first
      occupied square if it holds an enemy, then nothing. */
  function Ray(b: Board, row: Coord, col: Coord, dr: int, dc: int, s: nat, w: bool): seq<Square>
    decreases 8 - s
  {
    if s >= 8 then []
    else
      var r, c := row + dr * s, col + dc * s;
      if !InBounds(r, c) then []
      else if b[r][c].Empty? then [Square(r, c)] + Ray(b, row, col, dr, dc, s + 1, w)
      else if b[r][c].white != w then [Square(r, c)]
      else []
  }

  /** The rays along `dirs`, in order. */
  function Slides(b: Board, row: Coord, col: Coord, dirs: seq<(int, int)>, w: bool): seq<Square>
  {
    if dirs == [] then []
    else Ray(b, row, col, dirs[0].0, dirs[0].1, 1, w) + Slides(b, row, col, dirs[1..], w)
  }

  /** Knight and king: each offset on the board that is empty or holds an enemy. */
  function Leaps(b: Board, row: Coord, col: Coord, offsets: seq<(int, int)>, w: bool): seq<Square>
  {
    if offsets == [] then []
    else
      var r, c := row + offsets[0].0, col + offsets[0].1;
      (if InBounds(r, c) && (b[r][c].Empty? || b[r][c].white != w) then [Square(r, c)] else [])
      + Leaps(b, row, col, offsets[1..], w)
  }

  /** Castling candidates of ChessBotLogic.ts, gated on position only. */
  function Castling(b: Board, row: Coord, col: Coord, w: bool): seq<Square>
  {
    var home := if w then 7 else 0;
    var rook := Piece(w, Rook);
    if row == home && col == 4 && b[home][4] == Piece(w, King) then
      (if b[home][7] == rook && b[home][5].Empty? && b[home][6].Empty? then [Square(home, 6)] else [])
      + (if b[home][0] == rook && b[home][1].Empty? && b[home][2].Empty? && b[home][3].Empty?
         then [Square(home, 2)] else [])
    else []
  }

  /** The destinations `getPseudoLegalMoves` returns for the square (row, col). */
  function PseudoMoves(b: Board, row: Coord, col: Coord, castling: bool): seq<Square>
  {
    match b[row][col]
    case Empty => []
    case Piece(w, k) =>
      match k
      case Pawn => PawnMoves(b, row, col, w)
      case Rook => Slides(b, row, col, RookDirs, w)
      case Bishop => Slides(b, row, col, BishopDirs, w)
      case Queen => Slides(b, row, col, RookDirs, w) + Slides(b, row, col, BishopDirs, w)
      case Knight => Leaps(b, row, col, KnightJumps, w)
      case King => Leaps(b, row, col, KingSteps, w) + (if castling then Castling(b, row, col, w) else [])
  }

  /** `pseudo.forEach(([r, c]) => moves.push({ from, to: [r, c] }))` */
  function Tag(from: Square, ds: seq<Square>): (ms: seq<Move>)
    ensures |ms| == |ds|
    ensures forall k | 0 <= k < |ds| :: ms[k] == Move(from, ds[k])
  {
    if ds == [] then [] else [Move(from, ds[0])] + Tag(from, ds[1..])
  }

  /** The pseudo-legal destinations of all 64 squares, row by row. */
  type Table = t: seq<seq<seq<Square>>> | |t| == 8 && forall i | 0 <= i < 8 :: |t[i]| == 8
    witness seq(8, _ => seq(8, _ => []))

  /** Rows 0 .. n-1 of the table of destinations. */
  function TableRows(b: Board, castling: bool, n: nat): (rows: seq<seq<seq<Square>>>)
    requires n <= 8
    ensures |rows| == n && forall k | 0 <= k < n :: |rows[k]| == 8
    decreases n
  {
    if n == 0 then []
    else TableRows(b, castling, n - 1) + [seq(8, j requires 0 <= j < 8 => PseudoMoves(b, n - 1, j, castling))]
  }

  function PseudoTable(b: Board, castling: bool): Table
  {
    TableRows(b, castling, 8)
  }

  lemma {:induction false} TableRowsAt(b: Board, castling: bool, n: nat, i: Coord, j: Coord)
    requires i < n <= 8
    ensures TableRows(b, castling, n)[i][j] == PseudoMoves(b, i, j, castling)
    decreases n
  {
    if i < n - 1 {
      TableRowsAt(b, castling, n - 1, i, j);
    }
  }

  /** Cell (i, j) of the table holds the destinations of square (i, j). */
  lemma PseudoTableAt(b: Board, castling: bool, i: Coord, j: Coord)
    ensures PseudoTable(b, castling)[i][j] == PseudoMoves(b, i, j, castling)
  {
    TableRowsAt(b, castling, 8, i, j);
  }

  function SquareMoves(b: Board, side: bool, t: Table, i: Coord, j: Coord): seq<Move>
  {
    if OwnedBy(b[i][j], side) then Tag(Square(i, j), t[i][j]) else []
  }

  /** The moves of `side` from the squares at or after (i, j) in row-major order;
      `t` supplies each square's destinations. */
  function MovesFrom(b: Board, side: bool, t: Table, i: nat, j: nat): seq<Move>
    requires i <= 8 && j <= 8
    decreases 8 - i, 8 - j
  {
    if i == 8 then []
    else if j == 8 then MovesFrom(b, side, t, i + 1, 0)
    else SquareMoves(b, side, t, i, j) + MovesFrom(b, side, t, i, j + 1)
  }

  /** `getAllLegalMoves`: every pseudo-legal move of `side` (no check test). */
  function AllMoves(b: Board, side: bool, castling: bool): seq<Move>
  {
    MovesFrom(b, side, PseudoTable(b, castling), 0, 0)
  }

  // The loops the two generators share.

  /** The pawn block: `moves.push` for each gate that passes, in source order. */
  method PushPawnMoves(b: Board, row: Coord, col: Coord, w: bool) returns (moves: seq<Square>)
    ensures moves == PawnMoves(b, row, col, w)
  {
    moves := [];
    var dir := if w then -1 else 1;
    var next := row + dir;
    if 0 <= next < 8 && b[next][col] == Empty {
      moves := moves + [Square(next, col)];
    }
    if (w && row == 6) || (!w && row == 1) {
      var jump := row + 2 * dir;
      if 0 <= next < 8 && b[next][col] == Empty && 0 <= jump < 8 && b[jump][col] == Empty {
        moves := moves + [Square(jump, col)];
      }
    }
    assert moves == PawnPushes(b, row, col, w);
    var dcs := [-1, 1];
    for t := 0 to 2
      invariant moves == PawnPushes(b, row, col, w)
        + (if t >= 1 then PawnCapture(b, next, col - 1, w) else [])
        + (if t >= 2 then PawnCapture(b, next, col + 1, w) else [])
    {
      var c := col + dcs[t];
      if 0 <= next < 8 && 0 <= c < 8 && b[next][c].Piece? && b[next][c].white != w {
        moves := moves + [Square(next, c)];
      }
    }
  }

  /** One step of a ray, unfolded after the moves collected so far. */
  lemma RayStep(b: Board, row: Coord, col: Coord, dx: int, dy: int, s: nat, w: bool, acc: seq<Square>)
    requires s < 8
    ensures var r, c := row + dx * s, col + dy * s;
      var ray := Ray(b, row, col, dx, dy, s, w);
      && (!InBounds(r, c) ==> acc + ray == acc)
      && (InBounds(r, c) && b[r][c].Empty? ==>
            acc + ray == (acc + [Square(r, c)]) + Ray(b, row, col, dx, dy, s + 1, w))
      && (InBounds(r, c) && b[r][c].Piece? ==>
            acc + ray == acc + if b[r][c].white != w then [Square(r, c)] else [])
  {
  }

  /** The inner `for (let s = 1; s < 8; s++)` of a sliding piece, with its two `break`s. */
  method RayMoves(b: Board, row: Coord, col: Coord, dx: int, dy: int, w: bool)
    returns (moves: seq<Square>)
    ensures moves == Ray(b, row, col, dx, dy, 1, w)
  {
    moves := [];
    var s := 1;
    while s < 8
      invariant 1 <= s <= 8
      invariant moves + Ray(b, row, col, dx, dy, s, w) == Ray(b, row, col, dx, dy, 1, w)
    {
      RayStep(b, row, col, dx, dy, s, w, moves);
      var r, c := row + dx * s, col + dy * s;
      if r < 0 || c < 0 || r >= 8 || c >= 8 {
        break;
      }
      var t := b[r][c];
      if t == Empty {
        moves := moves + [Square(r, c)];
      } else {
        if t.white != w {
          moves := moves + [Square(r, c)];
        }
        break;
      }
      s := s + 1;
    }
  }

  /** The outer loop of the rook and bishop blocks over `dirs`. */
  method SlideMoves(b: Board, row: Coord, col: Coord, dirs: seq<(int, int)>, w: bool)
    returns (moves: seq<Square>)
    ensures moves == Slides(b, row, col, dirs, w)
  {
    moves := [];
    for d := 0 to |dirs|
      invariant moves + Slides(b, row, col, dirs[d..], w) == Slides(b, row, col, dirs, w)
    {
      assert dirs[d..][1..] == dirs[d + 1..];
      var (dx, dy) := dirs[d];
      var ray := RayMoves(b, row, col, dx, dy, w);
      moves := moves + ray;
    }
    assert dirs[|dirs|..] == [];
  }

  /** One offset of a leap, unfolded after the moves collected so far. */
  lemma LeapStep(b: Board, row: Coord, col: Coord, offsets: seq<(int, int)>, d: nat, w: bool, acc: seq<Square>)
    requires d < |offsets|
    ensures var r, c := row + offsets[d].0, col + offsets[d].1;
      acc + Leaps(b, row, col, offsets[d..], w)
      == (acc + if InBounds(r, c) && (b[r][c].Empty? || b[r][c].white != w) then [Square(r, c)] else [])
         + Leaps(b, row, col, offsets[d + 1..], w)
  {
    assert offsets[d..][1..] == offsets[d + 1..];
  }

  /** The knight and king blocks: one probe per offset, `continue` off the board. */
  method LeapMoves(b: Board, row: Coord, col: Coord, offsets: seq<(int, int)>, w: bool)
    returns (moves: seq<Square>)
    ensures moves == Leaps(b, row, col, offsets, w)
  {
    moves := [];
    for d := 0 to |offsets|
      invariant moves + Leaps(b, row, col, offsets[d..], w) == Leaps(b, row, col, offsets, w)
    {
      LeapStep(b, row, col, offsets, d, w, moves);
      var (dx, dy) := offsets[d];
      var r, c := row + dx, col + dy;
      if r < 0 || c < 0 || r >= 8 || c >= 8 {
        continue;
      }
      var t := b[r][c];
      if t == Empty || t.white != w {
        moves := moves + [Square(r, c)];
      }
    }
    assert offsets[|offsets|..] == [];
  }

  lemma TagPrefix(from: Square, ds: seq<Square>, k: nat)
    requires k < |ds|
    ensures Tag(from, ds[..k + 1]) == Tag(from, ds[..k]) + [Move(from, ds[k])]
  {
    assert Tag(from, ds[..k + 1])[k] == Move(from, ds[..k + 1][k]);
  }

  /** `pseudo.forEach(([r, c]) => moves.push({ from, to: [r, c] }))` */
  method PushMoves(moves0: seq<Move>, from: Square, pseudo: seq<Square>) returns (moves: seq<Move>)
    ensures moves == moves0 + Tag(from, pseudo)
  {
    moves := moves0;
    for k := 0 to |pseudo|
      invariant moves == moves0 + Tag(from, pseudo[..k])
    {
      TagPrefix(from, pseudo, k);
      moves := moves + [Move(from, pseudo[k])];
    }
    assert pseudo[..|pseudo|] == pseudo;
  }

  /** One square of the row-major scan. */
  lemma MovesFromStep(b: Board, side: bool, t: Table, i: Coord, j: Coord)
    ensures MovesFrom(b, side, t, i, j) == SquareMoves(b, side, t, i, j) + MovesFrom(b, side, t, i, j + 1)
  {
  }

  lemma MovesFromRowEnd(b: Board, side: bool, t: Table, i: Coord)
    ensures MovesFrom(b, side, t, i, 8) == MovesFrom(b, side, t, i + 1, 0)
  {
  }

  /** One square of a row-major scan that collects `SquareMoves`. */
  lemma ScanStep(b: Board, side: bool, t: Table, i: Coord, j: Coord, moves: seq<Move>, target: seq<Move>)
    requires moves + MovesFrom(b, side, t, i, j) == target
    ensures (moves + SquareMoves(b, side, t, i, j)) + MovesFrom(b, side, t, i, j + 1) == target
  {
    MovesFromStep(b, side, t, i, j);
    assert (moves + SquareMoves(b, side, t, i, j)) + MovesFrom(b, side, t, i, j + 1)
      == moves + (SquareMoves(b, side, t, i, j) + MovesFrom(b, side, t, i, j + 1));
  }
}
