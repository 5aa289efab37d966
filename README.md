# Chess bot engine: a Dafny model

This project models the move generator, the evaluators and the searches of a
browser chess game, and proves properties of them. It also models the page on which a
human plays white against a bot.

Two engines are modelled:

- **The bot engine** (`src/pages/botlogic/ChessBotLogic.ts`):
  - pseudo-legal move generation, castling included;
  - the scan over the board;
  - king search and check detection;
  - the king-safe move list and the per-square check filter;
  - the material-plus-mobility evaluator;
  - alpha-beta minimax;
  - the randomised root: it scores every safe move, sorts best first and picks
    among the top three.
- **The older engine of the game page** (`src/pages/chessgame/ChessGame.tsx`):
  - the same generator without castling;
  - material-only evaluation;
  - plain minimax;
  - a root that keeps the first strictly best move.

The page itself is modelled with it: `handleClick` and the bot's turn triggered by the
`turn` effect.

Boards are 8×8 grids of cells, each empty or a piece of a colour and a kind. Module
`Pieces` ties every cell to the one-letter string the program stores (upper case for
white, lower case for black, `""` for empty). It also proves that the program's
`isWhite`/`isBlack` string tests agree with the cell colour.

Squares have coordinates of type `Coord` (0 to 7). So every destination a generator
returns is on the board by its type: the source's `r < 0 || c < 0 || r >= 8 || c >= 8`
guards are the `InBounds` tests the generators apply before building a square.

Every move the program plays copies the board and rewrites two squares. The model
does the same with the value `Apply`.

Each searching or scanning function is a `method` with the source's loops. Each
method is proved equal to a specification function, and the lemmas state what the
source promises about those functions:

- membership;
- row-major order;
- the check test;
- the bounds of alpha-beta;
- the root choice.

Minimax is defined once, over an explicit game tree (`Search.GameTree`), for both
engines. `Search.FullWindow` proves that the bot's pruned search with the window
(−∞, +∞) equals that minimax value.

Modules, in dependency order:

| module | contents |
|---|---|
| `ExtValues` | integers extended with ±∞ |
| `Pieces`, `Boards` | the data model |
| `MoveGen`, `MoveGenFacts` | move generation and its facts |
| `Evaluation` | both evaluators |
| `Search` | game tree, minimax, alpha-beta |
| `Sequences` | filter, order-keeping embedding |
| `Ranking` | the sort |
| `BotLogic` | the bot's check test, move lists, evaluator and search |
| `RootSpec`, `BotRoot` | the randomised root |
| `LegacyEngine` | the older engine |
| `ChessGame` | the page |

## Model

| member | source | states |
|---|---|---|
| Pieces.CodeColour | src/pages/botlogic/ChessBotLogic.ts:11-16 | `isWhite` of a cell's letter holds exactly for white pieces and `isBlack` exactly for black pieces; the empty square is neither |
| Pieces.CaselessIsBoth | src/pages/botlogic/ChessBotLogic.ts:11-16 | a non-empty ASCII string without letters passes both colour tests |
| Pieces.OwnedBySideTest | src/pages/botlogic/ChessBotLogic.ts:138 | the scan's side test (`isWhite` on white's turn, `isBlack` on black's) holds exactly for a piece of that side |
| Pieces.KingCode | src/pages/botlogic/ChessBotLogic.ts:22 | a square holds `"K"` (`"k"`) exactly when it holds the white (black) king |
| Pieces.CodeEmpty | src/pages/botlogic/ChessBotLogic.ts:42 | a square's string is empty exactly when the square is empty |
| Pieces.DecodeCode | src/pages/chessgame/ChessGame.tsx:31-40 | reading back a cell's letter gives the same cell |
| Boards.ApplyCells | src/pages/botlogic/ChessBotLogic.ts:64-66 | after a move the origin is empty, the target holds the moved piece and every other square is unchanged |
| Boards.InitialBoard | src/pages/chessgame/ChessGame.tsx:31-40 | the start position has pawns on rows 1 and 6, empty rows 2 to 5 and the kings on e8 and e1 |
| MoveGen.PushPawnMoves | src/pages/botlogic/ChessBotLogic.ts:160-173 | the pawn block's moves are the single push, the double push from the start row and the diagonal captures, in the source's order |
| MoveGen.RayMoves | src/pages/botlogic/ChessBotLogic.ts:181-192 | one ray's loop yields the ray specification (empty squares up to the first piece, that piece if it is an enemy) |
| MoveGen.SlideMoves | src/pages/botlogic/ChessBotLogic.ts:174-215 | the rook and bishop blocks concatenate the rays of their directions in order |
| MoveGen.LeapMoves | src/pages/botlogic/ChessBotLogic.ts:216-252 | the knight and king blocks keep the in-board offsets whose square is empty or enemy, in order |
| MoveGen.PushMoves | src/pages/botlogic/ChessBotLogic.ts:139-140 | the `forEach` appends one move from the square per destination, in order |
| MoveGenFacts.EmptySquareNoMoves | src/pages/botlogic/ChessBotLogic.ts:155 | an empty square has no moves |
| MoveGenFacts.NoSelfCapture | src/pages/botlogic/ChessBotLogic.ts:160-280 | no generated destination holds a piece of the mover's colour |
| MoveGenFacts.RayBody | src/pages/botlogic/ChessBotLogic.ts:181-192 | every square of a ray but the last is empty and none holds an own piece |
| MoveGenFacts.RayEnd | src/pages/botlogic/ChessBotLogic.ts:181-192 | a ray ends only at the board edge or at the first occupied square |
| MoveGenFacts.LeapsMembers | src/pages/botlogic/ChessBotLogic.ts:216-252 | a square is a knight or king destination exactly when it is one offset away and not own-occupied |
| MoveGenFacts.PawnGates | src/pages/botlogic/ChessBotLogic.ts:160-173 | a pawn's destinations are exactly the free push, the free double push from its start row and the enemy-occupied diagonals |
| MoveGenFacts.CastlingGates | src/pages/botlogic/ChessBotLogic.ts:253-280 | castling adds g- or c-file exactly when the king is on its home square, the rook is home and the squares between are empty |
| MoveGenFacts.KingOnHomeSquare | src/pages/botlogic/ChessBotLogic.ts:253-280 | a king on its home square can jump to g or c only in the generator that castles, and only through the rook and empty-square gates |
| MoveGenFacts.AllMovesMembers | src/pages/botlogic/ChessBotLogic.ts:133-145 | a move is in the side's list exactly when its origin holds a piece of that side and its target is a pseudo-legal destination of that piece |
| MoveGenFacts.AllMovesRowMajor | src/pages/botlogic/ChessBotLogic.ts:133-145 | the list is grouped by origin square in row-major order |
| BotLogic.KingFrom | src/pages/botlogic/ChessBotLogic.ts:18-26 | the scan returns the first square in row-major order holding the side's king, and none when there is no such king |
| BotLogic.FindKing | src/pages/botlogic/ChessBotLogic.ts:18-26 | the nested loop with early return computes that first king square |
| BotLogic.InCheckIff | src/pages/botlogic/ChessBotLogic.ts:28-35 | a side is in check exactly when it has a king and some enemy piece has the king's square among its pseudo-legal destinations; without a king it is never in check |
| BotLogic.IsKingInCheck | src/pages/botlogic/ChessBotLogic.ts:28-35 | the method decides that check predicate |
| BotLogic.GetPseudoLegalMoves | src/pages/botlogic/ChessBotLogic.ts:148-284 | the generator returns the castling-enabled pseudo-legal destinations |
| BotLogic.AddCastling | src/pages/botlogic/ChessBotLogic.ts:253-280 | the castling block appends exactly the castling destinations |
| BotLogic.GetAllLegalMoves | src/pages/botlogic/ChessBotLogic.ts:133-145 | the row-major scan returns the side's full pseudo-legal move list |
| BotLogic.SafeMovesSpec | src/pages/botlogic/ChessBotLogic.ts:286-305 | a move is safe exactly when it is in the side's move list and leaves its own king out of check; the safe list keeps the full list's order |
| BotLogic.GetAllLegalMovesSafe | src/pages/botlogic/ChessBotLogic.ts:286-305 | the scan with the check probe returns that safe list |
| BotLogic.FilteredSpec | src/pages/botlogic/ChessBotLogic.ts:307-336 | an empty or enemy square gives nothing; out of check every pseudo-legal destination is kept; in check exactly those that get out of check are; order is kept |
| BotLogic.GetLegalMovesFiltered | src/pages/botlogic/ChessBotLogic.ts:307-336 | the method returns that filtered list |
| BotLogic.EvaluateBoard | src/pages/botlogic/ChessBotLogic.ts:36-50 | the loop computes ten times the material balance plus the mobility balance (the score in tenths) |
| BotLogic.MinimaxAlphaBeta | src/pages/botlogic/ChessBotLogic.ts:94-131 | the recursive search computes the pruned tree value |
| BotLogic.MaxSearch | src/pages/botlogic/ChessBotLogic.ts:106-117 | the maximising loop, with its alpha update and `beta <= alpha` break, computes the pruned max over the children |
| BotLogic.MinSearch | src/pages/botlogic/ChessBotLogic.ts:118-130 | the minimising loop, with its beta update and break, computes the pruned min over the children |
| Evaluation.Worth | src/pages/botlogic/ChessBotLogic.ts:43-44 | a white piece counts positive, a black piece negative, an empty square zero |
| Evaluation.EmptyBoardIsLevel | src/pages/botlogic/ChessBotLogic.ts:36-50 | an empty board evaluates to zero for both engines |
| Evaluation.SwappedMaterial | src/pages/botlogic/ChessBotLogic.ts:36-50 | swapping every piece's colour negates the material balance |
| Evaluation.MoveMaterial | src/pages/chessgame/ChessGame.tsx:171-183 | a move changes the material balance by exactly the worth of the captured cell |
| Search.GameTree | src/pages/botlogic/ChessBotLogic.ts:101-104 | the search stops at depth zero or when the side has no move, and scores such a position with the evaluator; otherwise it has one child per move |
| Search.MinimaxFinite | src/pages/botlogic/ChessBotLogic.ts:101-104 | every minimax value is finite: infinities only seed a loop |
| Search.ExtremeIsBest | src/pages/chessgame/ChessGame.tsx:211-219 | the fold of `Math.max`/`Math.min` is at least (most) every child's value and equals one of them |
| Search.MinimaxIsBestChild | src/pages/chessgame/ChessGame.tsx:206-220 | the minimax value is the best child value for the side to move, and some move attains it |
| Search.PruneSound | src/pages/botlogic/ChessBotLogic.ts:106-130 | with alpha < beta the pruned value is exact inside the window, at most alpha when the real value is, at least beta when the real value is |
| Search.AlphaBetaSound | src/pages/botlogic/ChessBotLogic.ts:94-131 | the alpha-beta search obeys those bounds against the minimax value of the position |
| Search.FullWindow | src/pages/botlogic/ChessBotLogic.ts:68-74 | called with (−∞, +∞), the alpha-beta search returns exactly the minimax value |
| ExtValues.Max | src/pages/botlogic/ChessBotLogic.ts:113-114 | `Math.max` on extended values is an upper bound equal to one argument |
| ExtValues.Min | src/pages/botlogic/ChessBotLogic.ts:125-126 | `Math.min` on extended values is a lower bound equal to one argument |
| Ranking.Sort | src/pages/botlogic/ChessBotLogic.ts:79-81 | the sorted list is a permutation of the scores |
| Ranking.SortRanked | src/pages/botlogic/ChessBotLogic.ts:78-81 | after the sort no entry is strictly better than one before it (descending for white, ascending for black) |
| Ranking.CountSort | src/pages/botlogic/ChessBotLogic.ts:79-81 | sorting keeps the number of entries strictly better than any score |
| Ranking.InsertStable | src/pages/botlogic/ChessBotLogic.ts:79-81 | inserting an entry puts it before every entry of the same score, which keep their order |
| Ranking.SortStable | src/pages/botlogic/ChessBotLogic.ts:79-81 | the sort is stable: the entries of any one score appear in the same relative order as before |
| Ranking.RankedPosition | src/pages/botlogic/ChessBotLogic.ts:84-86 | in the sorted list, at most `idx` entries beat the one at `idx` |
| RootSpec.TopN | src/pages/botlogic/ChessBotLogic.ts:84 | the pool size is `min(3, n)`: at most three, at most n and positive when there are moves |
| RootSpec.Pick | src/pages/botlogic/ChessBotLogic.ts:86 | `floor(rnd * n)` is an index below n, and it is zero exactly when `rnd * n < 1` |
| RootSpec.ChoicePicks | src/pages/botlogic/ChessBotLogic.ts:78-88 | the chosen entry is one of the scored entries, fewer than `topN` entries beat it, and with index 0 none does |
| RootSpec.ScoresChoice | src/pages/botlogic/ChessBotLogic.ts:61-88 | the chosen move is one of the moves and the returned value is that move's score |
| RootSpec.ScoresBest | src/pages/botlogic/ChessBotLogic.ts:84-86 | when the random index is 0 no move scores strictly better than the chosen one |
| RootSpec.ScoresRank | src/pages/botlogic/ChessBotLogic.ts:83-86 | fewer than `topN` moves score strictly better than the chosen one |
| BotRoot.MinimaxRoot | src/pages/botlogic/ChessBotLogic.ts:52-89 | the root method computes the randomised root specification for the given `rnd` |
| BotRoot.ScoreMoves | src/pages/botlogic/ChessBotLogic.ts:61-76 | each safe move is scored, in order, by the value of the position after it |
| BotRoot.ScoreMove | src/pages/botlogic/ChessBotLogic.ts:64-75 | a move's score is the full-window search of the copied board one ply deeper, which is the child's minimax value |
| BotRoot.ChooseMove | src/pages/botlogic/ChessBotLogic.ts:78-88 | the drawn entry is one of the scored moves, fewer than `topN` entries score strictly better, and when `floor(rnd * topN)` is 0 none does; it is the sort/slice/draw `Choice` the root uses |
| BotRoot.RootNone | src/pages/botlogic/ChessBotLogic.ts:57-59 | there is no move exactly when there is no safe move, and then the value is −∞ for white and +∞ for black |
| BotRoot.RootSafe | src/pages/botlogic/ChessBotLogic.ts:57 | the chosen move is a move of the side that leaves its king out of check |
| BotRoot.RootValue | src/pages/botlogic/ChessBotLogic.ts:63-88 | the returned value is the finite minimax value of the position after the chosen move |
| BotRoot.RootRank | src/pages/botlogic/ChessBotLogic.ts:83-86 | fewer than `min(3, n)` safe moves are strictly better than the chosen one |
| BotRoot.RootBest | src/pages/botlogic/ChessBotLogic.ts:84-86 | when the random index is 0 the chosen move is a best safe move |
| LegacyEngine.GetPseudoLegalMoves | src/pages/chessgame/ChessGame.tsx:236-329 | the page's generator returns the pseudo-legal destinations with no castling |
| LegacyEngine.BotAddsCastling | src/pages/chessgame/ChessGame.tsx:314-325 | the bot's generator equals the page's generator plus castling, which is added for kings only |
| LegacyEngine.LegacyMovesAreBotMoves | src/pages/chessgame/ChessGame.tsx:222-234 | every move of the page's list is also in the bot's list |
| LegacyEngine.GetAllLegalMoves | src/pages/chessgame/ChessGame.tsx:222-234 | the page's scan returns the side's pseudo-legal moves without castling, in row-major order |
| LegacyEngine.EvaluateBoard | src/pages/chessgame/ChessGame.tsx:171-183 | the page's evaluator is the material balance with the 1/3/3/5/9/1000 scale |
| LegacyEngine.Minimax | src/pages/chessgame/ChessGame.tsx:206-220 | the page's recursive minimax computes the minimax value of the older engine |
| LegacyEngine.BestOf | src/pages/chessgame/ChessGame.tsx:211-219 | its loop folds `Math.max`/`Math.min` over the children |
| LegacyEngine.FirstBestSpec | src/pages/chessgame/ChessGame.tsx:189-201 | the strict-improvement loop returns no move exactly on an empty list; no entry beats the result; the result is the first entry with its score |
| LegacyEngine.FirstBestOf | src/pages/chessgame/ChessGame.tsx:192-201 | the same, stated over moves and their values |
| LegacyEngine.MinimaxRoot | src/pages/chessgame/ChessGame.tsx:187-204 | the page's root loop computes the first-best root specification |
| LegacyEngine.LegacyRootNone | src/pages/chessgame/ChessGame.tsx:188-190 | the root has no move exactly when the side has no move, and then the value is the seed infinity |
| LegacyEngine.LegacyRootFirstBest | src/pages/chessgame/ChessGame.tsx:192-203 | no move is strictly better than the chosen one, and every move before it is strictly worse |
| LegacyEngine.LegacyRootIsMinimax | src/pages/chessgame/ChessGame.tsx:187-204 | the root value is the minimax value of the position |
| ChessGame.InitialValid | src/pages/chessgame/ChessGame.tsx:59-64 | the initial state has no selection, no winner and white to move |
| ChessGame.ClickValid | src/pages/chessgame/ChessGame.tsx:66-104 | a click keeps the page invariant: a winner exactly when the game is over, a selection only of a white piece on white's turn with exactly its moves shown |
| ChessGame.ReplyValid | src/pages/chessgame/ChessGame.tsx:106-128 | the bot's turn keeps that invariant |
| ChessGame.ClickMoves | src/pages/chessgame/ChessGame.tsx:66-104 | a click plays a move exactly when it hits a shown destination of the selected piece; the move is a white pseudo-legal move; taking the black king ends the game for white, otherwise black moves; any other click leaves board, turn and result unchanged |
| ChessGame.ClickSelects | src/pages/chessgame/ChessGame.tsx:95-102 | with nothing selected, a click on a white piece selects it and shows exactly its pseudo-legal destinations, and any other click changes nothing; with a piece selected, a click off its shown destinations clears the selection and the shown moves and changes nothing else |
| ChessGame.ClickWaits | src/pages/chessgame/ChessGame.tsx:67 | clicks change nothing on black's turn or after the game ends |
| ChessGame.ReplyMoves | src/pages/chessgame/ChessGame.tsx:106-128 | on black's turn with a black move the bot plays the older engine's root move at depth 2, a black pseudo-legal move of minimax value; taking the white king ends the game for black, otherwise white moves; otherwise nothing changes |
| ChessGame.Game.constructor | src/pages/chessgame/ChessGame.tsx:59-64 | the page's state starts as the initial state |
| ChessGame.Game.HandleClick | src/pages/chessgame/ChessGame.tsx:66-104 | the handler updates the state as one click, and keeps the page invariant `Valid` |
| ChessGame.Game.BotTurn | src/pages/chessgame/ChessGame.tsx:106-128 | the effect updates the state as one bot turn, and keeps the page invariant `Valid` |
| ChessGame.Game.PlayMove | src/pages/chessgame/ChessGame.tsx:112-125 | copying the board, moving the piece and testing the captured `"K"` updates the state as black's move |

## Left out

- The page's rendering, styles, sounds, timers and modals are not modelled. `setTimeout`'s 500 ms delay is not modelled.
- Redux and the other pages are not modelled.
- The source never promotes a pawn, and neither does the model. Castling moves only the king, as in the source.
- En passant and check-based game end are not modelled, because the source has neither.
- Floating point: the bot evaluator's `score + 0.1 * mobility` is modelled exactly, in tenths, as `10 * score + mobility`. This is the same ordering without rounding.
- ±Infinity is the datatype `Ext`, not IEEE doubles.
- `Math.random()` becomes the parameter `rnd` with `0 <= rnd < 1`.
- `toUpperCase`/`toLowerCase` are modelled on ASCII letters only. Every string stored on a board is one ASCII letter or empty.
- `Array.prototype.sort` is modelled as a stable insertion sort with the source's comparator. Equal scores keep the order of the safe-move list, as a stable JS sort does (Ranking.SortStable).
- Boards are values: each copy `board.map(r => [...r])` followed by two writes is the value `Apply`. React state updates are field assignments of the class `ChessGame.Game`.
- BotRoot.MinimaxRoot: requires `depth >= 1`. With depth 0 the source searches at depth −1, which never reaches its `depth === 0` stop.
- RootSpec.Root: requires `depth >= 1` for the same reason.
- ChessGame.Game.HandleClick: takes `row` and `col` as board coordinates 0..7. Clicks come only from the 64 rendered squares.
- ChessGame.ReplyMoves: when black has no move the model leaves the state unchanged, as the source does. The page then waits on black's turn for ever; no stalemate or checkmate is declared.
- BotRoot.RootBest: the "best move" promise is stated for the case where the random index is 0, written `Pick(rnd, topN) == 0`. RootSpec.Pick proves that this is `rnd * topN < 1`. Other indices are covered by BotRoot.RootRank.
- BotLogic.GetLegalMovesFiltered models the code. When the side is not in check it keeps every pseudo-legal destination, even one that exposes the king. The code's condition `!inCheck || (inCheck && !stillInCheck)` does exactly this, although the function's comment suggests it always protects the king.
