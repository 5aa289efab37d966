/** The bot engine of ChessBotLogic.ts: king search and check test, the move
    generators with castling, the king-safety filters, the evaluator and alpha-beta
    search (the randomised root is in BotRoot). Every method is proved equal to the
    specification function of the same name, and those functions carry the promised
    properties. */
module BotLogic {
  import opened Pieces
  import opened Boards
  import opened MoveGen
  import opened MoveGenFacts
  import opened Evaluation
  import opened ExtValues
  import opened Search
  import opened Ranking
  import opened Sequences

  // King search and check.

  /** The first square of `side`'s king at or after (i, j) in row-major order. */
  function KingFrom(b: Board, side: bool, i: nat, j: nat): (r: Option<Square>)
    requires i <= 8 && j <= 8
    ensures r.Some? ==> At(b, r.value) == Piece(side, King) && Index(r.value) >= 8 * i + j
    ensures r.Some? ==> forall s: Square | 8 * i + j <= Index(s) < Index(r.value) :: At(b, s) != Piece(side, King)
    ensures r.None? ==> forall s: Square | Index(s) >= 8 * i + j :: At(b, s) != Piece(side, King)
    decreases 8 - i, 8 - j
  {
    if i == 8 then None
    else if j == 8 then KingFrom(b, side, i + 1, 0)
    else if b[i][j] == Piece(side, King) then Some(Square(i, j))
    else KingFrom(b, side, i, j + 1)
  }

  /** `findKing`: the first square, row by row, holding `side`'s king. */
  function KingPos(b: Board, side: bool): Option<Square>
  {
    KingFrom(b, side, 0, 0)
  }

  method FindKing(b: Board, isWhiteTurn: bool) returns (r: Option<Square>)
    ensures r == KingPos(b, isWhiteTurn)
  {
    var target := if isWhiteTurn then "K" else "k";
    for i := 0 to 8
      invariant KingFrom(b, isWhiteTurn, i, 0) == KingPos(b, isWhiteTurn)
    {
      for j := 0 to 8
        invariant KingFrom(b, isWhiteTurn, i, j) == KingPos(b, isWhiteTurn)
      {
        KingCode(b[i][j], isWhiteTurn);
        if Code(b[i][j]) == target {
          return Some(Square(i, j));
        }
      }
    }
    return None;
  }

  /** `isKingInCheck`: `side` has a king and some pseudo-legal move of the opponent,
      castling candidates included, lands on it. */
  predicate InCheck(b: Board, side: bool)
  {
    match KingPos(b, side)
    case None => false
    case Some(k) => exists m | m in AllMoves(b, !side, true) :: m.to == k
  }

  /** A side without a king is never in check; otherwise it is in check exactly when
      one of the opponent's pieces has the king's square among its destinations. */
  lemma InCheckIff(b: Board, side: bool)
    ensures KingPos(b, side).None? ==> !InCheck(b, side)
    ensures KingPos(b, side).Some? ==>
      (InCheck(b, side) <==>
         exists f: Square :: OwnedBy(At(b, f), !side) && KingPos(b, side).value in PseudoMoves(b, f.row, f.col, true))
  {
    if KingPos(b, side).Some? {
      var k := KingPos(b, side).value;
      if InCheck(b, side) {
        var m :| m in AllMoves(b, !side, true) && m.to == k;
        AllMovesMembers(b, !side, true, m);
      }
      if exists f: Square :: OwnedBy(At(b, f), !side) && k in PseudoMoves(b, f.row, f.col, true) {
        var f: Square :| OwnedBy(At(b, f), !side) && k in PseudoMoves(b, f.row, f.col, true);
        AllMovesMembers(b, !side, true, Move(f, k));
      }
    }
  }

  method IsKingInCheck(b: Board, isWhiteTurn: bool) returns (r: bool)
    ensures r == InCheck(b, isWhiteTurn)
  {
    var kingPos := FindKing(b, isWhiteTurn);
    if kingPos == None {
      return false;
    }
    var attackers := GetAllLegalMoves(b, !isWhiteTurn);
    r := exists m | m in attackers :: m.to == kingPos.value;
  }

  // The generators.

  /** `getPseudoLegalMoves` of ChessBotLogic.ts: one block per piece letter, the king's
      adding the castling candidates. */
  method GetPseudoLegalMoves(b: Board, row: Coord, col: Coord) returns (moves: seq<Square>)
    ensures moves == PseudoMoves(b, row, col, true)
  {
    moves := [];
    if b[row][col] == Empty {
      return;
    }
    var w, k := b[row][col].white, b[row][col].kind;
    if k == Pawn {
      moves := PushPawnMoves(b, row, col, w);
    }
    if k == Rook || k == Queen {
      var ray := SlideMoves(b, row, col, RookDirs, w);
      assert moves == [];
      moves := moves + ray;
    }
    if k == Bishop || k == Queen {
      var ray := SlideMoves(b, row, col, BishopDirs, w);
      assert moves == if k == Queen then Slides(b, row, col, RookDirs, w) else [];
      moves := moves + ray;
    }
    if k == Knight {
      moves := LeapMoves(b, row, col, KnightJumps, w);
    }
    if k == King {
      moves := LeapMoves(b, row, col, KingSteps, w);
      moves := AddCastling(b, row, col, w, moves);
    }
  }

  /** The castling block of the king: the king on its home square, the rook in its
      corner and the squares between them empty, nothing else. */
  method AddCastling(b: Board, row: Coord, col: Coord, w: bool, moves0: seq<Square>)
    returns (moves: seq<Square>)
    ensures moves == moves0 + Castling(b, row, col, w)
  {
    moves := moves0;
    var homeRow := if w then 7 else 0;
    var kingNotMoved := b[homeRow][4] == Piece(w, King);
    if row == homeRow && col == 4 && kingNotMoved {
      var kingside := b[homeRow][7] == Piece(w, Rook) && b[homeRow][5] == Empty && b[homeRow][6] == Empty;
      if kingside {
        moves := moves + [Square(homeRow, 6)];
      }
      if b[homeRow][0] == Piece(w, Rook) && b[homeRow][1] == Empty && b[homeRow][2] == Empty
         && b[homeRow][3] == Empty {
        moves := moves + [Square(homeRow, 2)];
      }
    }
  }

  /** `getAllLegalMoves`: the pseudo-legal moves of every piece of the side, row by row. */
  method GetAllLegalMoves(b: Board, isWhiteTurn: bool) returns (moves: seq<Move>)
    ensures moves == AllMoves(b, isWhiteTurn, true)
  {
    ghost var t := PseudoTable(b, true);
    moves := [];
    for i := 0 to 8
      invariant moves + MovesFrom(b, isWhiteTurn, t, i, 0) == AllMoves(b, isWhiteTurn, true)
    {
      for j := 0 to 8
        invariant moves + MovesFrom(b, isWhiteTurn, t, i, j) == AllMoves(b, isWhiteTurn, true)
      {
        ScanStep(b, isWhiteTurn, t, i, j, moves, AllMoves(b, isWhiteTurn, true));
        moves := SquareScan(b, isWhiteTurn, i, j, moves);
      }
      MovesFromRowEnd(b, isWhiteTurn, t, i);
    }
  }

  /** The body of the scan in `getAllLegalMoves`: the square's moves when it holds a
      piece of the side to move. */
  method SquareScan(b: Board, isWhiteTurn: bool, i: Coord, j: Coord, moves0: seq<Move>)
    returns (moves: seq<Move>)
    ensures moves == moves0 + SquareMoves(b, isWhiteTurn, PseudoTable(b, true), i, j)
  {
    moves := moves0;
    PseudoTableAt(b, true, i, j);
    var piece := Code(b[i][j]);
    OwnedBySideTest(b[i][j], isWhiteTurn);
    if (isWhiteTurn && IsWhite(piece)) || (!isWhiteTurn && IsBlack(piece)) {
      var pseudo := GetPseudoLegalMoves(b, i, j);
      moves := PushMoves(moves, Square(i, j), pseudo);
    }
  }

  // King safety.

  /** The test of `getAllLegalMovesSafe`: after the move the side is not in check. */
  function SafeTest(b: Board, side: bool): Move -> bool
  {
    m => !InCheck(Apply(b, m), side)
  }

  /** `getAllLegalMovesSafe`: the moves of `getAllLegalMoves` that leave the own king
      out of check, in the generator's order. */
  function SafeMoves(b: Board, side: bool): seq<Move>
  {
    Filter(AllMoves(b, side, true), SafeTest(b, side))
  }

  /** The safe moves are exactly the generated moves after which the mover's king is
      not in check, and they keep the generator's order. */
  lemma SafeMovesSpec(b: Board, side: bool, m: Move)
    ensures m in SafeMoves(b, side) <==> m in AllMoves(b, side, true) && !InCheck(Apply(b, m), side)
    ensures Embeds(SafeMoves(b, side), AllMoves(b, side, true))
  {
    FilterMembers(AllMoves(b, side, true), SafeTest(b, side), m);
    FilterEmbeds(AllMoves(b, side, true), SafeTest(b, side));
  }

  /** `SafeTest` applied to one move. */
  lemma SafeTestAt(b: Board, side: bool, m: Move)
    ensures SafeTest(b, side)(m) == !InCheck(Apply(b, m), side)
  {
  }

  /** One square of a filtered row-major scan. */
  lemma FilterScanStep(b: Board, side: bool, t: Table, i: Coord, j: Coord, keep: Move -> bool,
                       moves: seq<Move>, target: seq<Move>)
    requires moves + Filter(MovesFrom(b, side, t, i, j), keep) == target
    ensures (moves + Filter(SquareMoves(b, side, t, i, j), keep)) + Filter(MovesFrom(b, side, t, i, j + 1), keep)
      == target
  {
    MovesFromStep(b, side, t, i, j);
    FilterAppend(SquareMoves(b, side, t, i, j), MovesFrom(b, side, t, i, j + 1), keep);
    assert (moves + Filter(SquareMoves(b, side, t, i, j), keep)) + Filter(MovesFrom(b, side, t, i, j + 1), keep)
      == moves + (Filter(SquareMoves(b, side, t, i, j), keep) + Filter(MovesFrom(b, side, t, i, j + 1), keep));
  }

  method GetAllLegalMovesSafe(b: Board, isWhiteTurn: bool) returns (moves: seq<Move>)
    ensures moves == SafeMoves(b, isWhiteTurn)
  {
    ghost var t := PseudoTable(b, true);
    ghost var keep := SafeTest(b, isWhiteTurn);
    moves := [];
    for i := 0 to 8
      invariant moves + Filter(MovesFrom(b, isWhiteTurn, t, i, 0), keep) == SafeMoves(b, isWhiteTurn)
    {
      for j := 0 to 8
        invariant moves + Filter(MovesFrom(b, isWhiteTurn, t, i, j), keep) == SafeMoves(b, isWhiteTurn)
      {
        FilterScanStep(b, isWhiteTurn, t, i, j, keep, moves, SafeMoves(b, isWhiteTurn));
        moves := SafeSquareScan(b, isWhiteTurn, i, j, moves);
      }
      MovesFromRowEnd(b, isWhiteTurn, t, i);
    }
  }

  /** The body of the scan in `getAllLegalMovesSafe`. */
  method SafeSquareScan(b: Board, isWhiteTurn: bool, i: Coord, j: Coord, moves0: seq<Move>)
    returns (moves: seq<Move>)
    ensures moves == moves0 + Filter(SquareMoves(b, isWhiteTurn, PseudoTable(b, true), i, j), SafeTest(b, isWhiteTurn))
  {
    moves := moves0;
    PseudoTableAt(b, true, i, j);
    var piece := Code(b[i][j]);
    OwnedBySideTest(b[i][j], isWhiteTurn);
    if (isWhiteTurn && IsWhite(piece)) || (!isWhiteTurn && IsBlack(piece)) {
      var pseudo := GetPseudoLegalMoves(b, i, j);
      moves := PushSafe(b, isWhiteTurn, moves, Square(i, j), pseudo);
    }
  }

  /** The inner loop of `getAllLegalMovesSafe`: each destination is tried on a copy and
      kept unless the own king is then in check. */
  method PushSafe(b: Board, side: bool, moves0: seq<Move>, from: Square, pseudo: seq<Square>)
    returns (moves: seq<Move>)
    ensures moves == moves0 + Filter(Tag(from, pseudo), SafeTest(b, side))
  {
    ghost var keep := SafeTest(b, side);
    moves := moves0;
    for k := 0 to |pseudo|
      invariant moves == moves0 + Filter(Tag(from, pseudo[..k]), keep)
    {
      var m := Move(from, pseudo[k]);
      var safe := TrySafe(b, side, m);
      TagPrefix(from, pseudo, k);
      FilterExtend(moves0, Tag(from, pseudo[..k]), m, keep, moves, safe);
      if safe {
        moves := moves + [m];
      }
    }
    assert pseudo[..|pseudo|] == pseudo;
  }

  /** Plays the move on a copy of the board and asks whether the mover is then out of check. */
  method TrySafe(b: Board, side: bool, m: Move) returns (safe: bool)
    ensures safe == SafeTest(b, side)(m)
  {
    SafeTestAt(b, side, m);
    var temp := Apply(b, m);
    var check := IsKingInCheck(temp, side);
    safe := !check;
  }

  // Moves of one piece for the player.

  /** The test of `getLegalMovesFiltered`: `!inCheck || (inCheck && !stillInCheck)`. */
  function Resolves(b: Board, from: Square, side: bool, inCheck: bool): Square -> bool
  {
    d => !inCheck || (inCheck && !InCheck(Apply(b, Move(from, d)), side))
  }

  lemma ResolvesAt(b: Board, from: Square, side: bool, inCheck: bool, d: Square)
    ensures Resolves(b, from, side, inCheck)(d) == (!inCheck || !InCheck(Apply(b, Move(from, d)), side))
  {
  }

  /** `getLegalMovesFiltered(board, row, col, isWhiteTurn)`. */
  function Filtered(b: Board, row: Coord, col: Coord, side: bool): seq<Square>
  {
    if b[row][col] == Empty then []
    else if b[row][col].white != side then []
    else Filter(PseudoMoves(b, row, col, true), Resolves(b, Square(row, col), side, InCheck(b, side)))
  }

  /** An empty square or a piece of the other colour has no moves; out of check a
      piece keeps every pseudo-legal destination; in check it keeps exactly the
      destinations after which the side is out of check; the order is the generator's. */
  lemma FilteredSpec(b: Board, row: Coord, col: Coord, side: bool, d: Square)
    ensures !OwnedBy(b[row][col], side) ==> Filtered(b, row, col, side) == []
    ensures OwnedBy(b[row][col], side) && !InCheck(b, side) ==>
      Filtered(b, row, col, side) == PseudoMoves(b, row, col, true)
    ensures OwnedBy(b[row][col], side) && InCheck(b, side) ==>
      (d in Filtered(b, row, col, side) <==>
         d in PseudoMoves(b, row, col, true) && !InCheck(Apply(b, Move(Square(row, col), d)), side))
    ensures Embeds(Filtered(b, row, col, side), PseudoMoves(b, row, col, true))
  {
    var pseudo := PseudoMoves(b, row, col, true);
    var keep := Resolves(b, Square(row, col), side, InCheck(b, side));
    if OwnedBy(b[row][col], side) {
      if !InCheck(b, side) {
        forall k | 0 <= k < |pseudo| ensures keep(pseudo[k]) {
          ResolvesAt(b, Square(row, col), side, false, pseudo[k]);
        }
        FilterAll(pseudo, keep);
      } else {
        FilterMembers(pseudo, keep, d);
        ResolvesAt(b, Square(row, col), side, true, d);
      }
      FilterEmbeds(pseudo, keep);
    }
  }

  method GetLegalMovesFiltered(b: Board, row: Coord, col: Coord, isWhiteTurn: bool)
    returns (legalMoves: seq<Square>)
    ensures legalMoves == Filtered(b, row, col, isWhiteTurn)
  {
    var piece := Code(b[row][col]);
    CodeEmpty(b[row][col]);
    if piece == "" {
      return [];
    }
    var isW := IsWhite(piece);
    CodeColour(b[row][col]);
    if isW != isWhiteTurn {
      return [];
    }
    var pseudoMoves := GetPseudoLegalMoves(b, row, col);
    var inCheck := IsKingInCheck(b, isWhiteTurn);
    legalMoves := KeepResolving(b, Square(row, col), isWhiteTurn, inCheck, pseudoMoves);
  }

  /** The loop of `getLegalMovesFiltered`: each destination is tried on a copy and kept
      when it passes the test. */
  method KeepResolving(b: Board, from: Square, side: bool, inCheck: bool, pseudoMoves: seq<Square>)
    returns (legalMoves: seq<Square>)
    ensures legalMoves == Filter(pseudoMoves, Resolves(b, from, side, inCheck))
  {
    ghost var keep := Resolves(b, from, side, inCheck);
    legalMoves := [];
    for k := 0 to |pseudoMoves|
      invariant legalMoves == Filter(pseudoMoves[..k], keep)
    {
      var d := pseudoMoves[k];
      var ok := TryResolves(b, from, side, inCheck, d);
      assert pseudoMoves[..k + 1] == pseudoMoves[..k] + [d];
      FilterExtend([], pseudoMoves[..k], d, keep, legalMoves, ok);
      if ok {
        legalMoves := legalMoves + [d];
      }
    }
    assert pseudoMoves[..|pseudoMoves|] == pseudoMoves;
  }

  /** Plays `from` to `d` on a copy and applies the test of `getLegalMovesFiltered`. */
  method TryResolves(b: Board, from: Square, side: bool, inCheck: bool, d: Square) returns (ok: bool)
    ensures ok == Resolves(b, from, side, inCheck)(d)
  {
    ResolvesAt(b, from, side, inCheck, d);
    var tempBoard := Apply(b, Move(from, d));
    var stillInCheck := IsKingInCheck(tempBoard, side);
    ok := !inCheck || (inCheck && !stillInCheck);
  }

  // Evaluation.

  /** `evaluateBoard` of ChessBotLogic.ts, in tenths: `10 * score + mobility`. */
  method EvaluateBoard(b: Board) returns (r: int)
    ensures r == Evaluate(Bot, b)
  {
    ghost var t := PseudoTable(b, true);
    var score := 0;
    var mobility := 0;
    for i := 0 to 8
      invariant score + MaterialFrom(Bot, b, i, 0) == Material(Bot, b)
      invariant mobility + MobilityFrom(b, t, i, 0) == Mobility(b)
    {
      for j := 0 to 8
        invariant score + MaterialFrom(Bot, b, i, j) == Material(Bot, b)
        invariant mobility + MobilityFrom(b, t, i, j) == Mobility(b)
      {
        var val, reach := SquareValue(b, i, j);
        score := score + val;
        mobility := mobility + reach;
      }
    }
    r := 10 * score + mobility;
  }

  /** The body of the scan in `evaluateBoard`: the signed value and the signed number of
      pseudo-legal destinations of the piece on (i, j); nothing for an empty square. */
  method SquareValue(b: Board, i: Coord, j: Coord) returns (val: int, reach: int)
    ensures val == Worth(Bot, b[i][j]) && reach == Reach(b, PseudoTable(b, true), i, j)
  {
    PseudoTableAt(b, true, i, j);
    var piece := b[i][j];
    if piece == Empty {
      return 0, 0;
    }
    var v := PieceScore(Bot, piece.kind);
    val := if piece.white then v else -v;
    var pseudo := GetPseudoLegalMoves(b, i, j);
    reach := if piece.white then |pseudo| else -|pseudo|;
  }

  // Search.

  /** `minimaxAlphaBeta`: the pruned search of the bot; a leaf is evaluated when the
      depth is used up or the side has no move. */
  method MinimaxAlphaBeta(b: Board, depth: nat, alpha: Ext, beta: Ext, isMax: bool) returns (v: Ext)
    ensures v == AlphaBeta(b, depth, alpha, beta, isMax)
    decreases depth, 2
  {
    if depth == 0 {
      var e := EvaluateBoard(b);
      return Fin(e);
    }
    var moves := GetAllLegalMoves(b, isMax);
    if |moves| == 0 {
      var e := EvaluateBoard(b);
      return Fin(e);
    }
    AlphaBetaNode(b, depth, alpha, beta, isMax);
    if isMax {
      v := MaxSearch(b, depth, alpha, beta, moves);
    } else {
      v := MinSearch(b, depth, alpha, beta, moves);
    }
  }

  /** The maximising loop: `maxEval = max(maxEval, eval)`, `alpha = max(alpha, eval)`,
      and the loop left once `beta <= alpha`. */
  method MaxSearch(b: Board, depth: nat, alpha: Ext, beta: Ext, moves: seq<Move>) returns (maxEval: Ext)
    requires depth >= 1 && moves == Moves(Bot, b, true) && moves != []
    ensures maxEval == MaxLoop(GameTree(Bot, b, depth, true).kids, alpha, beta, NegInf)
    decreases depth, 1
  {
    ghost var ts := GameTree(Bot, b, depth, true).kids;
    maxEval := NegInf;
    var a := alpha;
    for k := 0 to |moves|
      invariant MaxLoop(ts[k..], a, beta, maxEval) == MaxLoop(ts, alpha, beta, NegInf)
    {
      MaxLoopAt(ts, k, a, beta, maxEval);
      var evalScore := ChildSearch(b, depth, true, moves, k, a, beta);
      maxEval := Max(maxEval, evalScore);
      a := Max(a, evalScore);
      if Le(beta, a) {
        break;
      }
    }
  }

  /** The minimising loop: `minEval = min(minEval, eval)`, `beta = min(beta, eval)`,
      and the loop left once `beta <= alpha`. */
  method MinSearch(b: Board, depth: nat, alpha: Ext, beta: Ext, moves: seq<Move>) returns (minEval: Ext)
    requires depth >= 1 && moves == Moves(Bot, b, false) && moves != []
    ensures minEval == MinLoop(GameTree(Bot, b, depth, false).kids, alpha, beta, PosInf)
    decreases depth, 1
  {
    ghost var ts := GameTree(Bot, b, depth, false).kids;
    minEval := PosInf;
    var bt := beta;
    for k := 0 to |moves|
      invariant MinLoop(ts[k..], alpha, bt, minEval) == MinLoop(ts, alpha, beta, PosInf)
    {
      MinLoopAt(ts, k, alpha, bt, minEval);
      var evalScore := ChildSearch(b, depth, false, moves, k, alpha, bt);
      minEval := Min(minEval, evalScore);
      bt := Min(bt, evalScore);
      if Le(bt, alpha) {
        break;
      }
    }
  }

  /** One child of the loop: the move played on a copy, searched one ply shallower by
      the other side with the current window. */
  method ChildSearch(b: Board, depth: nat, isMax: bool, moves: seq<Move>, k: nat, alpha: Ext, beta: Ext)
    returns (v: Ext)
    requires depth >= 1 && moves == Moves(Bot, b, isMax) && k < |moves|
    ensures v == Prune(GameTree(Bot, b, depth, isMax).kids[k], alpha, beta, !isMax)
    decreases depth, 0
  {
    var d := depth - 1;
    GameTreeKid(Bot, b, depth, isMax, k, d);
    var copy := Apply(b, moves[k]);
    v := MinimaxAlphaBeta(copy, d, alpha, beta, !isMax);
  }
}
