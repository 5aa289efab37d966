/** Game-tree search. The source's recursion walks the tree of positions reached by
    the pseudo-legal moves, `GameTree` here; `Minimax` (the plain search of
    ChessGame.tsx and the reference value of every search) is the minimax value of that
    tree and `AlphaBeta` (`minimaxAlphaBeta` of ChessBotLogic.ts) its value under
    alpha-beta pruning, which is proved to bound the minimax value on the correct side
    of its window and to equal it inside the window. */
module Search {
  import opened Pieces
  import opened Boards
  import opened MoveGen
  import opened Evaluation
  import opened ExtValues

  /** A searched position: a leaf carries the static value, a node the subtrees of
      its moves in generation order. */
  datatype Tree = Leaf(value: int) | Node(kids: seq<Tree>)

  /** Every node has a child: the search only descends where there are moves. */
  predicate Proper(t: Tree)
    decreases t
  {
    match t
    case Leaf(_) => true
    case Node(ts) => ts != [] && forall k | 0 <= k < |ts| :: Proper(ts[k])
  }

  /** The moves a search expands: the pseudo-legal moves of the engine's generator. */
  function Moves(e: Engine, b: Board, side: bool): seq<Move>
  {
    AllMoves(b, side, e == Bot)
  }

  /** The search tree of a position under any move generator `gen` and static
      evaluator `eval`: a leaf with the static value at depth 0 or when the mover has
      no move, otherwise one subtree per move in generation order. */
  function Build(gen: (Board, bool) -> seq<Move>, eval: Board -> int, b: Board, depth: nat, isMax: bool): Tree
    decreases depth, 1
  {
    if depth == 0 || gen(b, isMax) == [] then Leaf(eval(b))
    else Node(Branches(gen, eval, b, gen(b, isMax), depth, isMax))
  }

  /** The subtrees of the positions `ms` lead to, one ply deeper, the opponent to move. */
  function Branches(gen: (Board, bool) -> seq<Move>, eval: Board -> int, b: Board, ms: seq<Move>,
                    depth: nat, isMax: bool): (ts: seq<Tree>)
    requires depth >= 1
    ensures |ts| == |ms|
    decreases depth, 0
  {
    seq(|ms|, k requires 0 <= k < |ms| => Build(gen, eval, Apply(b, ms[k]), depth - 1, !isMax))
  }

  /** The k-th subtree is the tree of the position the k-th move leads to. */
  lemma BranchesAt(gen: (Board, bool) -> seq<Move>, eval: Board -> int, b: Board,
                   ms: seq<Move>, depth: nat, isMax: bool, k: nat, d: nat)
    requires depth == d + 1 && k < |ms|
    ensures Branches(gen, eval, b, ms, depth, isMax)[k] == Build(gen, eval, Apply(b, ms[k]), d, !isMax)
  {
    assert depth - 1 == d;
  }

  /** The k-th subtree of a node is the tree of the k-th move's position. */
  lemma BuildKid(gen: (Board, bool) -> seq<Move>, eval: Board -> int, b: Board,
                 depth: nat, isMax: bool, k: nat, d: nat)
    requires depth == d + 1 && k < |gen(b, isMax)|
    ensures Build(gen, eval, b, depth, isMax).Node?
    ensures Build(gen, eval, b, depth, isMax).kids[k] == Build(gen, eval, Apply(b, gen(b, isMax)[k]), d, !isMax)
  {
    BranchesAt(gen, eval, b, gen(b, isMax), depth, isMax, k, d);
  }

  /** The search descends only where the mover has a move. */
  lemma {:induction false} BuildProper(gen: (Board, bool) -> seq<Move>, eval: Board -> int, b: Board,
                                       depth: nat, isMax: bool)
    ensures Proper(Build(gen, eval, b, depth, isMax))
    decreases depth
  {
    if depth > 0 && gen(b, isMax) != [] {
      var ms := gen(b, isMax);
      var ts := Branches(gen, eval, b, ms, depth, isMax);
      forall k | 0 <= k < |ts| ensures Proper(ts[k]) {
        BranchesAt(gen, eval, b, ms, depth, isMax, k, depth - 1);
        BuildProper(gen, eval, Apply(b, ms[k]), depth - 1, !isMax);
      }
    }
  }

  /** The generator and the evaluator of an engine. */
  function Generator(e: Engine): (Board, bool) -> seq<Move>
  {
    (x: Board, side: bool) => Moves(e, x, side)
  }

  function Evaluator(e: Engine): Board -> int
  {
    (x: Board) => Evaluate(e, x)
  }

  /** The tree the engine's search of `b` walks `depth` plies deep, `isMax` (white)
      to move. */
  function GameTree(e: Engine, b: Board, depth: nat, isMax: bool): (t: Tree)
    ensures t.Leaf? <==> depth == 0 || Moves(e, b, isMax) == []
    ensures t.Leaf? ==> t.value == Evaluate(e, b)
    ensures t.Node? ==> |t.kids| == |Moves(e, b, isMax)|
  {
    Build(Generator(e), Evaluator(e), b, depth, isMax)
  }

  /** The k-th subtree of a searched position is the tree of its k-th move's position. */
  lemma GameTreeKid(e: Engine, b: Board, depth: nat, isMax: bool, k: nat, d: nat)
    requires depth == d + 1 && k < |Moves(e, b, isMax)|
    ensures GameTree(e, b, depth, isMax).kids[k] == GameTree(e, Apply(b, Moves(e, b, isMax)[k]), d, !isMax)
  {
    var ms := Moves(e, b, isMax);
    assert Generator(e)(b, isMax) == ms;
    BuildKid(Generator(e), Evaluator(e), b, depth, isMax, k, d);
  }

  /** The minimax value of a tree with `isMax` to move at its root. */
  function TreeValue(t: Tree, isMax: bool): Ext
    decreases t
  {
    match t
    case Leaf(v) => Fin(v)
    case Node(ts) => TreeExtreme(ts, isMax)
  }

  /** The best subtree value for the mover, starting from -Infinity (isMax) or
      +Infinity, as the source's `Math.max` / `Math.min` loop. */
  function TreeExtreme(ts: seq<Tree>, isMax: bool): Ext
    decreases ts
  {
    if ts == [] then (if isMax then NegInf else PosInf)
    else
      var v := TreeValue(ts[0], !isMax);
      var rest := TreeExtreme(ts[1..], isMax);
      if isMax then Max(v, rest) else Min(v, rest)
  }

  /** The value of a tree under alpha-beta pruning with window (alpha, beta). */
  function Prune(t: Tree, alpha: Ext, beta: Ext, isMax: bool): Ext
    decreases t
  {
    match t
    case Leaf(v) => Fin(v)
    case Node(ts) =>
      if ts == [] then (if isMax then NegInf else PosInf)
      else if isMax then MaxLoop(ts, alpha, beta, NegInf) else MinLoop(ts, alpha, beta, PosInf)
  }

  /** The maximising loop: `maxEval` and `alpha` absorb each child's value, and the
      loop stops as soon as `beta <= alpha`. */
  function MaxLoop(ts: seq<Tree>, alpha: Ext, beta: Ext, best: Ext): Ext
    decreases ts
  {
    if ts == [] then best
    else
      var v := Prune(ts[0], alpha, beta, false);
      var best', alpha' := Max(best, v), Max(alpha, v);
      if Le(beta, alpha') then best' else MaxLoop(ts[1..], alpha', beta, best')
  }

  /** The minimising loop: `minEval` and `beta` absorb each child's value. */
  function MinLoop(ts: seq<Tree>, alpha: Ext, beta: Ext, best: Ext): Ext
    decreases ts
  {
    if ts == [] then best
    else
      var v := Prune(ts[0], alpha, beta, true);
      var best', beta' := Min(best, v), Min(beta, v);
      if Le(beta', alpha) then best' else MinLoop(ts[1..], alpha, beta', best')
  }

  /** `minimax(board, depth, isMax)`: the minimax value of the game tree. */
  function Minimax(e: Engine, b: Board, depth: nat, isMax: bool): Ext
  {
    TreeValue(GameTree(e, b, depth, isMax), isMax)
  }

  /** The value of a child of a searched position, `minimax(copy, depth - 1, !isMax)`. */
  function ChildValue(e: Engine, b: Board, m: Move, depth: nat, isMax: bool): Ext
    requires depth >= 1
  {
    Minimax(e, Apply(b, m), depth - 1, !isMax)
  }

  /** `minimaxAlphaBeta(board, depth, alpha, beta, isMax)`: the pruned value of the
      bot's game tree. */
  function AlphaBeta(b: Board, depth: nat, alpha: Ext, beta: Ext, isMax: bool): Ext
  {
    Prune(GameTree(Bot, b, depth, isMax), alpha, beta, isMax)
  }

  /** A position searched to depth 0, or whose mover has no move, has its static value. */
  lemma MinimaxLeaf(e: Engine, b: Board, depth: nat, isMax: bool)
    requires depth == 0 || Moves(e, b, isMax) == []
    ensures Minimax(e, b, depth, isMax) == Fin(Evaluate(e, b))
  {
  }

  /** The minimax value of a position with moves is the extreme of its subtrees. */
  lemma MinimaxNode(e: Engine, b: Board, depth: nat, isMax: bool)
    requires depth >= 1 && Moves(e, b, isMax) != []
    ensures Minimax(e, b, depth, isMax) == TreeExtreme(GameTree(e, b, depth, isMax).kids, isMax)
  {
  }

  /** Alpha-beta at a position with moves runs the loop of its side over the subtrees. */
  lemma AlphaBetaNode(b: Board, depth: nat, alpha: Ext, beta: Ext, isMax: bool)
    requires depth >= 1 && Moves(Bot, b, isMax) != []
    ensures var ts := GameTree(Bot, b, depth, isMax).kids;
      AlphaBeta(b, depth, alpha, beta, isMax)
      == if isMax then MaxLoop(ts, alpha, beta, NegInf) else MinLoop(ts, alpha, beta, PosInf)
  {
  }

  /** One iteration of the maximising loop, at subtree `k`. */
  lemma MaxLoopAt(ts: seq<Tree>, k: nat, alpha: Ext, beta: Ext, best: Ext)
    requires k < |ts|
    ensures var v := Prune(ts[k], alpha, beta, false);
      MaxLoop(ts[k..], alpha, beta, best)
      == if Le(beta, Max(alpha, v)) then Max(best, v) else MaxLoop(ts[k + 1..], Max(alpha, v), beta, Max(best, v))
  {
    assert ts[k..][0] == ts[k] && ts[k..][1..] == ts[k + 1..];
  }

  /** One iteration of the minimising loop, at subtree `k`. */
  lemma MinLoopAt(ts: seq<Tree>, k: nat, alpha: Ext, beta: Ext, best: Ext)
    requires k < |ts|
    ensures var v := Prune(ts[k], alpha, beta, true);
      MinLoop(ts[k..], alpha, beta, best)
      == if Le(Min(beta, v), alpha) then Min(best, v) else MinLoop(ts[k + 1..], alpha, Min(beta, v), Min(best, v))
  {
    assert ts[k..][0] == ts[k] && ts[k..][1..] == ts[k + 1..];
  }

  // The reference search.

  lemma {:induction false} TreeFinite(t: Tree, isMax: bool)
    requires Proper(t)
    ensures TreeValue(t, isMax).Fin?
    decreases t, 1
  {
    match t
    case Leaf(_) =>
    case Node(ts) => ExtremeFinite(ts, isMax);
  }

  lemma {:induction false} ExtremeFinite(ts: seq<Tree>, isMax: bool)
    requires ts != [] && forall k | 0 <= k < |ts| :: Proper(ts[k])
    ensures TreeExtreme(ts, isMax).Fin?
    decreases ts, 0
  {
    TreeFinite(ts[0], !isMax);
    if |ts| > 1 {
      ExtremeFinite(ts[1..], isMax);
    }
  }

  /** Every search value is a finite number: the infinities are only starting points. */
  lemma MinimaxFinite(e: Engine, b: Board, depth: nat, isMax: bool)
    ensures Minimax(e, b, depth, isMax).Fin?
  {
    BuildProper(Generator(e), Evaluator(e), b, depth, isMax);
    TreeFinite(GameTree(e, b, depth, isMax), isMax);
  }

  /** The value of a child is a finite number. */
  lemma ChildFinite(e: Engine, b: Board, m: Move, depth: nat, d: nat, isMax: bool)
    requires depth == d + 1
    ensures ChildValue(e, b, m, depth, isMax).Fin?
  {
    ChildValueIs(e, b, m, depth, d, isMax);
    MinimaxFinite(e, Apply(b, m), d, !isMax);
  }

  lemma {:induction false} ExtremeIsBest(ts: seq<Tree>, isMax: bool)
    ensures forall k | 0 <= k < |ts| ::
      if isMax then Le(TreeValue(ts[k], !isMax), TreeExtreme(ts, isMax))
      else Le(TreeExtreme(ts, isMax), TreeValue(ts[k], !isMax))
    ensures ts != [] ==> exists k | 0 <= k < |ts| :: TreeExtreme(ts, isMax) == TreeValue(ts[k], !isMax)
    decreases ts
  {
    if ts != [] {
      ExtremeIsBest(ts[1..], isMax);
      var x := TreeExtreme(ts, isMax);
      var rest := TreeExtreme(ts[1..], isMax);
      forall k | 0 < k < |ts|
        ensures if isMax then Le(TreeValue(ts[k], !isMax), x) else Le(x, TreeValue(ts[k], !isMax))
      {
        assert ts[k] == ts[1..][k - 1];
        if isMax {
          LeTransitive(TreeValue(ts[k], !isMax), rest, x);
        } else {
          LeTransitive(x, rest, TreeValue(ts[k], !isMax));
        }
      }
      if x != TreeValue(ts[0], !isMax) {
        var k :| 0 <= k < |ts[1..]| && rest == TreeValue(ts[1..][k], !isMax);
        assert ts[1..][k] == ts[k + 1];
      }
    }
  }

  /** The value of the k-th move's child is the value of the k-th subtree. */
  lemma ChildValueKid(e: Engine, b: Board, depth: nat, isMax: bool, k: nat, d: nat)
    requires depth == d + 1 && k < |Moves(e, b, isMax)|
    ensures ChildValue(e, b, Moves(e, b, isMax)[k], depth, isMax) == TreeValue(GameTree(e, b, depth, isMax).kids[k], !isMax)
  {
    GameTreeKid(e, b, depth, isMax, k, d);
    ChildValueAt(e, b, Moves(e, b, isMax)[k], d, isMax);
  }

  lemma ChildValueAt(e: Engine, b: Board, m: Move, d: nat, isMax: bool)
    ensures ChildValue(e, b, m, d + 1, isMax) == Minimax(e, Apply(b, m), d, !isMax)
  {
  }

  /** The value of a child is the minimax value of its position, one ply shallower. */
  lemma ChildValueIs(e: Engine, b: Board, m: Move, depth: nat, d: nat, isMax: bool)
    requires depth == d + 1
    ensures ChildValue(e, b, m, depth, isMax) == Minimax(e, Apply(b, m), d, !isMax)
  {
    ChildValueAt(e, b, m, d, isMax);
  }

  /** The searched value of a position with moves is the value of its best child for
      the side to move: no child is better and one child attains it. */
  lemma MinimaxIsBestChild(e: Engine, b: Board, depth: nat, isMax: bool)
    requires depth >= 1 && Moves(e, b, isMax) != []
    ensures var v := Minimax(e, b, depth, isMax);
      && (forall m | m in Moves(e, b, isMax) ::
            if isMax then Le(ChildValue(e, b, m, depth, isMax), v) else Le(v, ChildValue(e, b, m, depth, isMax)))
      && exists m | m in Moves(e, b, isMax) :: v == ChildValue(e, b, m, depth, isMax)
  {
    var d := depth - 1;
    var ms := Moves(e, b, isMax);
    var ts := GameTree(e, b, depth, isMax).kids;
    var v := Minimax(e, b, depth, isMax);
    assert v == TreeExtreme(ts, isMax);
    ExtremeIsBest(ts, isMax);
    forall m | m in ms
      ensures if isMax then Le(ChildValue(e, b, m, depth, isMax), v) else Le(v, ChildValue(e, b, m, depth, isMax))
    {
      var k :| 0 <= k < |ms| && ms[k] == m;
      ChildValueKid(e, b, depth, isMax, k, d);
    }
    var k :| 0 <= k < |ts| && TreeExtreme(ts, isMax) == TreeValue(ts[k], !isMax);
    ChildValueKid(e, b, depth, isMax, k, d);
    assert ms[k] in ms;
  }

  // Soundness of the pruning.

  /** The pruned value `v` of a search with window (alpha, beta) against its true
      value `t`: at or below alpha it bounds `t` from above, strictly inside the window
      it is `t`, at or above beta it bounds `t` from below. */
  predicate Bounds(v: Ext, t: Ext, alpha: Ext, beta: Ext)
  {
    && (Le(v, alpha) ==> Le(t, v))
    && (Lt(alpha, v) && Lt(v, beta) ==> t == v)
    && (Le(beta, v) ==> Le(v, t))
  }

  /** The loop invariant of the maximising loop: `alpha` is max(alpha0, best) and
      `best` is exact above alpha0 and an upper bound of `p` at or below it. */
  predicate MaxInv(alpha0: Ext, alpha: Ext, beta: Ext, best: Ext, p: Ext)
  {
    && Lt(alpha, beta) && alpha == Max(alpha0, best)
    && (Le(best, alpha0) ==> Le(p, best))
    && (Lt(alpha0, best) ==> p == best)
  }

  predicate MinInv(alpha: Ext, beta0: Ext, beta: Ext, best: Ext, p: Ext)
  {
    && Lt(alpha, beta) && beta == Min(beta0, best)
    && (Le(beta0, best) ==> Le(best, p))
    && (Lt(best, beta0) ==> p == best)
  }

  lemma MaxDone(alpha0: Ext, alpha: Ext, beta: Ext, best: Ext, p: Ext)
    requires MaxInv(alpha0, alpha, beta, best, p)
    ensures Bounds(best, Max(p, NegInf), alpha0, beta)
  {
    LeTransitive(alpha0, alpha, beta);
  }

  lemma MaxCut(alpha0: Ext, alpha: Ext, beta: Ext, best: Ext, p: Ext, v: Ext, t: Ext, rest: Ext)
    requires MaxInv(alpha0, alpha, beta, best, p) && Bounds(v, t, alpha, beta)
    requires Le(beta, Max(alpha, v))
    ensures Bounds(Max(best, v), Max(p, Max(t, rest)), alpha0, beta)
  {
    assert Le(beta, v);
    LeTransitive(alpha0, alpha, beta);
    LeTransitive(v, t, Max(p, Max(t, rest)));
  }

  lemma MaxStep(alpha0: Ext, alpha: Ext, beta: Ext, best: Ext, p: Ext, v: Ext, t: Ext)
    requires MaxInv(alpha0, alpha, beta, best, p) && Bounds(v, t, alpha, beta)
    requires !Le(beta, Max(alpha, v))
    ensures MaxInv(alpha0, Max(alpha, v), beta, Max(best, v), Max(p, t))
  {
    MaxAssociative(alpha0, best, v);
    LeTotal(v, alpha);
    LeTransitive(alpha0, alpha, beta);
  }

  lemma MinDone(alpha: Ext, beta0: Ext, beta: Ext, best: Ext, p: Ext)
    requires MinInv(alpha, beta0, beta, best, p)
    ensures Bounds(best, Min(p, PosInf), alpha, beta0)
  {
    LeTransitive(alpha, beta, beta0);
  }

  lemma MinCut(alpha: Ext, beta0: Ext, beta: Ext, best: Ext, p: Ext, v: Ext, t: Ext, rest: Ext)
    requires MinInv(alpha, beta0, beta, best, p) && Bounds(v, t, alpha, beta)
    requires Le(Min(beta, v), alpha)
    ensures Bounds(Min(best, v), Min(p, Min(t, rest)), alpha, beta0)
  {
    assert Le(v, alpha);
    LeTransitive(alpha, beta, beta0);
    LeTransitive(Min(p, Min(t, rest)), t, v);
  }

  lemma MinStep(alpha: Ext, beta0: Ext, beta: Ext, best: Ext, p: Ext, v: Ext, t: Ext)
    requires MinInv(alpha, beta0, beta, best, p) && Bounds(v, t, alpha, beta)
    requires !Le(Min(beta, v), alpha)
    ensures MinInv(alpha, beta0, Min(beta, v), Min(best, v), Min(p, t))
  {
    MinAssociative(beta0, best, v);
    LeTotal(v, beta);
    LeTransitive(alpha, beta, beta0);
  }

  /** The maximising loop started in a state satisfying `MaxInv`, with `p` the true
      maximum of the children already seen, bounds the maximum of `p` and of the
      children still to come as alpha-beta promises for the original window. */
  lemma {:induction false} MaxLoopSound(ts: seq<Tree>, alpha0: Ext, alpha: Ext, beta: Ext, best: Ext, p: Ext)
    requires MaxInv(alpha0, alpha, beta, best, p)
    ensures Bounds(MaxLoop(ts, alpha, beta, best), Max(p, TreeExtreme(ts, true)), alpha0, beta)
    decreases ts
  {
    if ts == [] {
      MaxDone(alpha0, alpha, beta, best, p);
    } else {
      var v := Prune(ts[0], alpha, beta, false);
      var t := TreeValue(ts[0], false);
      var rest := TreeExtreme(ts[1..], true);
      PruneSound(ts[0], alpha, beta, false);
      if Le(beta, Max(alpha, v)) {
        MaxCut(alpha0, alpha, beta, best, p, v, t, rest);
      } else {
        MaxStep(alpha0, alpha, beta, best, p, v, t);
        MaxLoopSound(ts[1..], alpha0, Max(alpha, v), beta, Max(best, v), Max(p, t));
        MaxAssociative(p, t, rest);
      }
    }
  }

  /** The minimising loop, symmetric to `MaxLoopSound` with beta0 the original beta. */
  lemma {:induction false} MinLoopSound(ts: seq<Tree>, alpha: Ext, beta0: Ext, beta: Ext, best: Ext, p: Ext)
    requires MinInv(alpha, beta0, beta, best, p)
    ensures Bounds(MinLoop(ts, alpha, beta, best), Min(p, TreeExtreme(ts, false)), alpha, beta0)
    decreases ts
  {
    if ts == [] {
      MinDone(alpha, beta0, beta, best, p);
    } else {
      var v := Prune(ts[0], alpha, beta, true);
      var t := TreeValue(ts[0], true);
      var rest := TreeExtreme(ts[1..], false);
      PruneSound(ts[0], alpha, beta, true);
      if Le(Min(beta, v), alpha) {
        MinCut(alpha, beta0, beta, best, p, v, t, rest);
      } else {
        MinStep(alpha, beta0, beta, best, p, v, t);
        MinLoopSound(ts[1..], alpha, beta0, Min(beta, v), Min(best, v), Min(p, t));
        MinAssociative(p, t, rest);
      }
    }
  }

  lemma {:induction false} PruneSound(t: Tree, alpha: Ext, beta: Ext, isMax: bool)
    requires Lt(alpha, beta)
    ensures Bounds(Prune(t, alpha, beta, isMax), TreeValue(t, isMax), alpha, beta)
    decreases t
  {
    match t
    case Leaf(_) =>
    case Node(ts) =>
      if ts != [] {
        if isMax {
          MaxLoopSound(ts, alpha, alpha, beta, NegInf, NegInf);
        } else {
          MinLoopSound(ts, alpha, beta, beta, PosInf, PosInf);
        }
      }
  }

  /** Alpha-beta pruning is sound: over any non-empty window the pruned value bounds
      the plain minimax value on the side of the window it falls on, and equals it
      inside the window. */
  lemma AlphaBetaSound(b: Board, depth: nat, alpha: Ext, beta: Ext, isMax: bool)
    requires Lt(alpha, beta)
    ensures Bounds(AlphaBeta(b, depth, alpha, beta, isMax), Minimax(Bot, b, depth, isMax), alpha, beta)
  {
    PruneSound(GameTree(Bot, b, depth, isMax), alpha, beta, isMax);
  }

  /** With the full window (-Infinity, +Infinity) of `minimaxRoot`, alpha-beta computes
      exactly the minimax value. */
  lemma FullWindow(b: Board, depth: nat, isMax: bool)
    ensures AlphaBeta(b, depth, NegInf, PosInf, isMax) == Minimax(Bot, b, depth, isMax)
  {
    AlphaBetaSound(b, depth, NegInf, PosInf, isMax);
    MinimaxFinite(Bot, b, depth, isMax);
    FullBounds(AlphaBeta(b, depth, NegInf, PosInf, isMax), Minimax(Bot, b, depth, isMax));
  }

  /** A finite value bounded as alpha-beta promises for the full window is exact. */
  lemma FullBounds(v: Ext, t: Ext)
    requires Bounds(v, t, NegInf, PosInf) && t.Fin?
    ensures v == t
  {
  }
}
