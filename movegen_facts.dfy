/** What the pseudo-legal generator and its aggregation promise, square by square. */
module MoveGenFacts {
  import opened Pieces
  import opened Boards
  import opened MoveGen

  /** A destination never holds a piece of the mover's colour. */
  predicate NotOwn(b: Board, d: Square, w: bool)
  {
    b[d.row][d.col].Empty? || b[d.row][d.col].white != w
  }

  predicate NoneOwn(b: Board, ds: seq<Square>, w: bool)
  {
    forall d | d in ds :: NotOwn(b, d, w)
  }

  lemma EmptySquareNoMoves(b: Board, row: Coord, col: Coord, castling: bool)
    requires b[row][col] == Empty
    ensures PseudoMoves(b, row, col, castling) == []
  {
  }

  /** The k-th square of a ray from step s is step s + k along (dr, dc); it holds no
      own piece, and it is empty unless it is the ray's last square. */
  lemma {:induction false} RayAt(b: Board, row: Coord, col: Coord, dr: int, dc: int, s: nat, w: bool, k: nat)
    requires k < |Ray(b, row, col, dr, dc, s, w)|
    ensures var ray := Ray(b, row, col, dr, dc, s, w);
      && ray[k].row == row + dr * (s + k) && ray[k].col == col + dc * (s + k)
      && (k < |ray| - 1 ==> b[ray[k].row][ray[k].col].Empty?)
      && NotOwn(b, ray[k], w)
    decreases k
  {
    var ray := Ray(b, row, col, dr, dc, s, w);
    var r, c := row + dr * s, col + dc * s;
    assert s < 8 && InBounds(r, c);
    if k > 0 {
      var rest := Ray(b, row, col, dr, dc, s + 1, w);
      assert ray == [Square(r, c)] + rest;
      assert ray[k] == rest[k - 1];
      RayAt(b, row, col, dr, dc, s + 1, w, k - 1);
      assert s + 1 + (k - 1) == s + k;
    }
  }

  /** The squares of a ray are those at steps s, s+1, ... along (dr, dc). */
  lemma RayPositions(b: Board, row: Coord, col: Coord, dr: int, dc: int, s: nat, w: bool)
    ensures var ray := Ray(b, row, col, dr, dc, s, w);
      forall k | 0 <= k < |ray| :: ray[k].row == row + dr * (s + k) && ray[k].col == col + dc * (s + k)
  {
    var ray := Ray(b, row, col, dr, dc, s, w);
    forall k | 0 <= k < |ray|
      ensures ray[k].row == row + dr * (s + k) && ray[k].col == col + dc * (s + k)
    {
      RayAt(b, row, col, dr, dc, s, w, k);
    }
  }

  /** Every square of a ray before its last is empty, and none holds an own piece. */
  lemma RayBody(b: Board, row: Coord, col: Coord, dr: int, dc: int, s: nat, w: bool)
    ensures var ray := Ray(b, row, col, dr, dc, s, w);
      && (forall k | 0 <= k < |ray| - 1 :: b[ray[k].row][ray[k].col].Empty?)
      && (forall k | 0 <= k < |ray| :: NotOwn(b, ray[k], w))
  {
    var ray := Ray(b, row, col, dr, dc, s, w);
    forall k | 0 <= k < |ray|
      ensures (k < |ray| - 1 ==> b[ray[k].row][ray[k].col].Empty?) && NotOwn(b, ray[k], w)
    {
      RayAt(b, row, col, dr, dc, s, w, k);
    }
  }

  /** Step e of a ray cannot be taken: past step 7, off the board, or onto an own piece. */
  predicate Blocked(b: Board, row: Coord, col: Coord, dr: int, dc: int, e: int, w: bool)
  {
    e >= 8 || !InBounds(row + dr * e, col + dc * e)
    || (b[row + dr * e][col + dc * e].Piece? && b[row + dr * e][col + dc * e].white == w)
  }

  /** A ray that is empty or ends on an empty square ends because its next step is
      blocked; so it passes every empty square and stops at the first occupied one. */
  lemma {:induction false} RayEnd(b: Board, row: Coord, col: Coord, dr: int, dc: int, s: nat, w: bool)
    ensures var ray := Ray(b, row, col, dr, dc, s, w);
      (ray == [] || b[ray[|ray| - 1].row][ray[|ray| - 1].col].Empty?) ==>
        Blocked(b, row, col, dr, dc, s + |ray|, w)
    decreases 8 - s
  {
    var ray := Ray(b, row, col, dr, dc, s, w);
    if s < 8 {
      var r, c := row + dr * s, col + dc * s;
      if InBounds(r, c) && b[r][c].Empty? {
        RayEnd(b, row, col, dr, dc, s + 1, w);
        var rest := Ray(b, row, col, dr, dc, s + 1, w);
        assert ray == [Square(r, c)] + rest;
        assert s + |ray| == s + 1 + |rest|;
        if rest != [] {
          assert ray[|ray| - 1] == rest[|rest| - 1];
        }
      } else {
        assert ray == [] || !b[r][c].Empty?;
      }
    }
  }

  lemma {:induction false} RayNoSelfCapture(b: Board, row: Coord, col: Coord, dr: int, dc: int, w: bool)
    ensures NoneOwn(b, Ray(b, row, col, dr, dc, 1, w), w)
  {
    RayBody(b, row, col, dr, dc, 1, w);
  }

  lemma {:induction false} SlidesNoSelfCapture(b: Board, row: Coord, col: Coord, dirs: seq<(int, int)>, w: bool)
    ensures NoneOwn(b, Slides(b, row, col, dirs, w), w)
  {
    if dirs != [] {
      RayNoSelfCapture(b, row, col, dirs[0].0, dirs[0].1, w);
      SlidesNoSelfCapture(b, row, col, dirs[1..], w);
    }
  }

  /** A leap lands on one of the offsets, on the board, on a square without an own piece,
      and every such offset is taken. */
  lemma {:induction false} LeapsMembers(b: Board, row: Coord, col: Coord, offsets: seq<(int, int)>, w: bool, d: Square)
    ensures d in Leaps(b, row, col, offsets, w) <==>
      NotOwn(b, d, w) &&
      exists k | 0 <= k < |offsets| :: d.row == row + offsets[k].0 && d.col == col + offsets[k].1
  {
    if offsets != [] {
      LeapsMembers(b, row, col, offsets[1..], w, d);
      if d.row == row + offsets[0].0 && d.col == col + offsets[0].1 {
      } else if NotOwn(b, d, w) && exists k | 0 <= k < |offsets| :: d.row == row + offsets[k].0 && d.col == col + offsets[k].1 {
        var k :| 0 <= k < |offsets| && d.row == row + offsets[k].0 && d.col == col + offsets[k].1;
        assert offsets[1..][k - 1] == offsets[k];
      }
      if exists k | 0 <= k < |offsets| - 1 :: d.row == row + offsets[1..][k].0 && d.col == col + offsets[1..][k].1 {
        var k :| 0 <= k < |offsets| - 1 && d.row == row + offsets[1..][k].0 && d.col == col + offsets[1..][k].1;
        assert offsets[k + 1] == offsets[1..][k];
      }
    }
  }

  lemma LeapsNoSelfCapture(b: Board, row: Coord, col: Coord, offsets: seq<(int, int)>, w: bool)
    ensures NoneOwn(b, Leaps(b, row, col, offsets, w), w)
  {
    forall d | d in Leaps(b, row, col, offsets, w) ensures NotOwn(b, d, w) {
      LeapsMembers(b, row, col, offsets, w, d);
    }
  }

  /** No pseudo-legal destination holds a piece of the mover's colour. */
  lemma NoneOwnAppend(b: Board, xs: seq<Square>, ys: seq<Square>, w: bool)
    requires NoneOwn(b, xs, w) && NoneOwn(b, ys, w)
    ensures NoneOwn(b, xs + ys, w)
  {
  }

  lemma PawnNoSelfCapture(b: Board, row: Coord, col: Coord, w: bool)
    ensures NoneOwn(b, PawnMoves(b, row, col, w), w)
  {
  }

  lemma CastlingNoSelfCapture(b: Board, row: Coord, col: Coord, w: bool)
    ensures NoneOwn(b, Castling(b, row, col, w), w)
  {
  }

  lemma NoSelfCapture(b: Board, row: Coord, col: Coord, castling: bool)
    requires b[row][col].Piece?
    ensures NoneOwn(b, PseudoMoves(b, row, col, castling), b[row][col].white)
  {
    var w := b[row][col].white;
    match b[row][col].kind
    case Pawn => PawnNoSelfCapture(b, row, col, w);
    case Rook => SlidesNoSelfCapture(b, row, col, RookDirs, w);
    case Bishop => SlidesNoSelfCapture(b, row, col, BishopDirs, w);
    case Queen =>
      SlidesNoSelfCapture(b, row, col, RookDirs, w);
      SlidesNoSelfCapture(b, row, col, BishopDirs, w);
      NoneOwnAppend(b, Slides(b, row, col, RookDirs, w), Slides(b, row, col, BishopDirs, w), w);
    case Knight => LeapsNoSelfCapture(b, row, col, KnightJumps, w);
    case King =>
      LeapsNoSelfCapture(b, row, col, KingSteps, w);
      CastlingNoSelfCapture(b, row, col, w);
      NoneOwnAppend(b, Leaps(b, row, col, KingSteps, w), if castling then Castling(b, row, col, w) else [], w);
  }

  /** The pawn gates: a single push onto an empty square ahead; a double push only
      from row 6 (white) or row 1 (black) with both squares ahead empty; a diagonal
      step only onto an enemy piece. Pawns move towards row 0 if white, row 7 if black. */
  lemma PawnGates(b: Board, row: Coord, col: Coord, castling: bool, d: Square)
    requires b[row][col].Piece? && b[row][col].kind == Pawn
    ensures var w := b[row][col].white;
      var dir := if w then -1 else 1;
      d in PseudoMoves(b, row, col, castling) <==>
        (d.row == row + dir && d.col == col && At(b, d).Empty?)
        || (d.row == row + 2 * dir && d.col == col && row == (if w then 6 else 1)
            && b[row + dir][col].Empty? && At(b, d).Empty?)
        || (d.row == row + dir && (d.col == col - 1 || d.col == col + 1)
            && At(b, d).Piece? && At(b, d).white != w)
  {
  }

  /** The castling gates: the candidate (home, 6) appears only with the king on
      (home, 4), an own rook on column 7 and columns 5 and 6 empty; (home, 2) only with
      an own rook on column 0 and columns 1 to 3 empty. Nothing else is a candidate. */
  lemma CastlingGates(b: Board, row: Coord, col: Coord, w: bool, d: Square)
    requires b[row][col] == Piece(w, King)
    ensures var home := if w then 7 else 0;
      d in Castling(b, row, col, w) <==>
        row == home && col == 4 && d.row == home &&
        ((d.col == 6 && b[home][7] == Piece(w, Rook) && b[home][5].Empty? && b[home][6].Empty?)
         || (d.col == 2 && b[home][0] == Piece(w, Rook)
             && b[home][1].Empty? && b[home][2].Empty? && b[home][3].Empty?))
  {
  }

  /** For a king on its home square the castling candidates are exactly what the
      generator adds to its steps: a step never reaches column 2 or 6 from column 4. */
  lemma KingOnHomeSquare(b: Board, w: bool, castling: bool)
    requires var home := if w then 7 else 0; b[home][4] == Piece(w, King)
    ensures var home := if w then 7 else 0;
      && (Square(home, 6) in PseudoMoves(b, home, 4, castling) <==>
            castling && b[home][7] == Piece(w, Rook) && b[home][5].Empty? && b[home][6].Empty?)
      && (Square(home, 2) in PseudoMoves(b, home, 4, castling) <==>
            castling && b[home][0] == Piece(w, Rook)
            && b[home][1].Empty? && b[home][2].Empty? && b[home][3].Empty?)
  {
    var home := if w then 7 else 0;
    LeapsMembers(b, home, 4, KingSteps, w, Square(home, 6));
    LeapsMembers(b, home, 4, KingSteps, w, Square(home, 2));
    CastlingGates(b, home, 4, w, Square(home, 6));
    CastlingGates(b, home, 4, w, Square(home, 2));
  }

  lemma TagMembers(from: Square, ds: seq<Square>, m: Move)
    ensures m in Tag(from, ds) <==> m.from == from && m.to in ds
  {
    var ms := Tag(from, ds);
    if m.from == from && m.to in ds {
      var k :| 0 <= k < |ds| && ds[k] == m.to;
      assert ms[k] == m;
    }
  }

  lemma IndexSquare(s: Square, i: Coord, j: Coord)
    ensures Index(s) == 8 * i + j <==> s == Square(i, j)
  {
  }

  lemma SquareMovesMembers(b: Board, side: bool, t: Table, i: Coord, j: Coord, m: Move)
    ensures m in SquareMoves(b, side, t, i, j) <==>
      Index(m.from) == 8 * i + j && OwnedBy(At(b, m.from), side) && m.to in t[m.from.row][m.from.col]
  {
    TagMembers(Square(i, j), t[i][j], m);
    IndexSquare(m.from, i, j);
  }

  /** The moves from (i, j) on are the moves out of `side`'s pieces on the squares at
      or after (i, j) in row-major order, to that square's destinations in `t`. */
  lemma {:induction false} MovesFromMembers(b: Board, side: bool, t: Table, i: nat, j: nat, m: Move)
    requires i <= 8 && j <= 8
    ensures m in MovesFrom(b, side, t, i, j) <==>
      Index(m.from) >= 8 * i + j && OwnedBy(At(b, m.from), side) && m.to in t[m.from.row][m.from.col]
    decreases 8 - i, 8 - j
  {
    if i < 8 {
      if j == 8 {
        MovesFromMembers(b, side, t, i + 1, 0, m);
      } else {
        MovesFromMembers(b, side, t, i, j + 1, m);
        SquareMovesMembers(b, side, t, i, j, m);
      }
    }
  }

  /** `getAllLegalMoves`: a move is listed exactly when its `from` holds a piece of the
      side and its `to` is in that square's pseudo-legal list. */
  lemma AllMovesMembers(b: Board, side: bool, castling: bool, m: Move)
    ensures m in AllMoves(b, side, castling) <==>
      OwnedBy(At(b, m.from), side) && m.to in PseudoMoves(b, m.from.row, m.from.col, castling)
  {
    MovesFromMembers(b, side, PseudoTable(b, castling), 0, 0, m);
    PseudoTableAt(b, castling, m.from.row, m.from.col);
  }

  /** Moves listed in row-major order of their `from` squares. */
  predicate RowMajor(ms: seq<Move>)
  {
    forall p, q | 0 <= p < q < |ms| :: Index(ms[p].from) <= Index(ms[q].from)
  }

  /** Every move of `ms` leaves a square of row-major index at least `k`. */
  predicate FromsAtLeast(ms: seq<Move>, k: int)
  {
    forall y | y in ms :: Index(y.from) >= k
  }

  /** Every move of `ms` leaves a square of row-major index at most `k`. */
  predicate FromsAtMost(ms: seq<Move>, k: int)
  {
    forall x | x in ms :: Index(x.from) <= k
  }

  lemma RowMajorAppend(xs: seq<Move>, ys: seq<Move>, k: int)
    requires RowMajor(xs) && RowMajor(ys)
    requires FromsAtMost(xs, k) && FromsAtLeast(ys, k)
    ensures RowMajor(xs + ys)
  {
    var ms := xs + ys;
    forall p, q | 0 <= p < q < |ms| ensures Index(ms[p].from) <= Index(ms[q].from) {
      if p < |xs| && q >= |xs| {
        assert ms[p] == xs[p] && ms[q] == ys[q - |xs|];
        assert xs[p] in xs && ys[q - |xs|] in ys;
      } else if q < |xs| {
        assert ms[p] == xs[p] && ms[q] == xs[q];
      } else {
        assert ms[p] == ys[p - |xs|] && ms[q] == ys[q - |xs|];
      }
    }
  }

  lemma {:induction false} MovesFromAfter(b: Board, side: bool, t: Table, i: nat, j: nat)
    requires i <= 8 && j <= 8
    ensures FromsAtLeast(MovesFrom(b, side, t, i, j), 8 * i + j)
    decreases 8 - i, 8 - j
  {
    if i < 8 {
      if j == 8 {
        MovesFromAfter(b, side, t, i + 1, 0);
      } else {
        MovesFromAfter(b, side, t, i, j + 1);
        SquareMovesShape(b, side, t, i, j);
      }
    }
  }

  lemma SquareMovesShape(b: Board, side: bool, t: Table, i: Coord, j: Coord)
    ensures FromsAtMost(SquareMoves(b, side, t, i, j), 8 * i + j)
    ensures FromsAtLeast(SquareMoves(b, side, t, i, j), 8 * i + j)
    ensures RowMajor(SquareMoves(b, side, t, i, j))
  {
  }

  /** One square's moves followed by the later squares' moves stay in row-major order. */
  lemma MovesFromRowMajorStep(b: Board, side: bool, t: Table, i: Coord, j: Coord)
    requires RowMajor(MovesFrom(b, side, t, i, j + 1))
    ensures RowMajor(MovesFrom(b, side, t, i, j))
  {
    SquareMovesShape(b, side, t, i, j);
    MovesFromAfter(b, side, t, i, j + 1);
    RowMajorAppend(SquareMoves(b, side, t, i, j), MovesFrom(b, side, t, i, j + 1), 8 * i + j);
  }

  lemma {:induction false} MovesFromRowMajor(b: Board, side: bool, t: Table, i: nat, j: nat)
    requires i <= 8 && j <= 8
    ensures RowMajor(MovesFrom(b, side, t, i, j))
    decreases 8 - i, 8 - j
  {
    if i < 8 {
      if j == 8 {
        MovesFromRowMajor(b, side, t, i + 1, 0);
        assert MovesFrom(b, side, t, i, j) == MovesFrom(b, side, t, i + 1, 0);
      } else {
        MovesFromRowMajor(b, side, t, i, j + 1);
        MovesFromRowMajorStep(b, side, t, i, j);
      }
    }
  }

  /** `getAllLegalMoves` lists the moves in row-major order of their `from` squares. */
  lemma AllMovesRowMajor(b: Board, side: bool, castling: bool)
    ensures RowMajor(AllMoves(b, side, castling))
  {
    MovesFromRowMajor(b, side, PseudoTable(b, castling), 0, 0);
  }
}
