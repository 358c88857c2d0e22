# applechess move-selection agents

This project models the three chess agents of applechess and proves their decision rules.
Each agent is written against an abstract rules engine.

- **Minimax** (`minmax/minmax.go`) is a depth-bounded search.
  - White maximises and Black minimises.
  - Ties go to the first move in generation order.
  - Below the horizon, the first mating move is returned at once.
  - A stalemating move scores 0 only while the running best has the wrong sign.
  - Its evaluator is signed material plus, for every square, the value of the capture sequence `simulateAttacks` plays on it.
- **Alpha-beta** (`alphabeta/alphabeta.go`) is the same recursion with a fail-soft window.
  - `max` stops once its running best exceeds `beta`, and raises `alpha`.
  - `min` stops once its running best is below `alpha`, and lowers `beta`.
  - Its evaluator is material plus 0.2 per pseudo-legal move onto the opposing king. White's moves count up and Black's count down. To count them, the position's turn is overwritten and then restored.
- **Monte Carlo tree search** (`mcts/mcst.go`) grows one tree below a root whose children are the legal moves.
  - Each child is searched by its own batch loop of `iterate` calls.
  - The move of the child with the best win rate is played.
  - `iterate` scores a finished position at once, expands a leaf, and selects a child: the first unvisited one, or else the one of greatest UCB. It then plays out or descends, and credits the selected child.

## How the model is built

The rules engine is an unseen library. `Chess.Engine` is a record of functions:
- legal and pseudo-legal moves;
- playing a move;
- checkmate and stalemate tests;
- the piece on a square;
- the square order.

It is passed to every agent as a parameter. Positions are values; a `*chess.Position` that a function changes in place is a `PositionRef` object. Scores are `real`, and `math.MaxFloat64` is its exact value, `MaxScore`.

Minimax and alpha-beta copy every position before trying a move, so their recursion is specified once by functions over an arbitrary evaluator (`Minimax.SearchValue`, `AlphaBeta.ABSearch`, and their scans over the remaining moves). Each agent's own loops are methods proved equal to those functions with its own evaluator. The properties are lemmas about the functions: tie-breaking, first mate, bounds, the fail-soft contract and agreement at the root.

The MCTS tree is a class `Mcts.Node` with the fields of the Go `node` and a ghost footprint `Repr`. `Valid()` states two things:
- the subtrees of the children are disjoint;
- `0 <= w <= n` holds everywhere.

Each operation states the new state of every node it touches:
- `iterate` is split into `Iterate`, `Expand`, `Descend` and `VisitChild` along its branches.
- `Descended` and `Expanded` say what one descent did: which child the selection rule picked, and how it was counted and credited. `Descend`, `VisitChild` and `Iterate` also state that every sibling's whole subtree is unchanged.

The following behaviours of the code are modelled as written, and lemmas state them:

- **Root positions.** `makeParentNode` copies the loop variable `p` into a child before playing the child's move on `p` itself. So child `i` holds the position after the first `i` legal moves played one after the other, and the root holds the position after all of them (`Mcts.MakeParentNode`, `Mcts.GrowTree`).
- **Playout start.** An unvisited selected child is played out from its parent's position, not from its own (`Mcts.VisitChild`, `Mcts.Descended`).
- **Finished children.** A finished child that was already visited gains two visits per descent: one from its own `iterate` and one from its parent. On its first selection it is played out instead and gains one. A child won for the agent also gains two wins (`Mcts.Descended`, `Mcts.ConcurrentIterate`).
- **Stalemate scoring.** In `iterate`, a stalemated node counts as a lost visit (result 0). In a playout, a position without moves counts 0.5.
- **The stalemate rule in both searches.** A stalemating move met while the running best already has the right sign falls through to the recursive search. There the side to move has no move, so the move scores as a mate (`MinimaxProperties.MaxStalemateWhileAhead`).
- **Alpha-beta versus minimax.** Because of that rule, alpha-beta can disagree with minimax when a stalemate lies below the horizon. Their agreement is proved under a no-stalemate hypothesis (`AlphaBetaProperties.ABAgreesWithMinimax`). A game of fourteen positions shows that the hypothesis is needed: minimax plays one move and alpha-beta another (`AlphaBetaProperties.ABDisagreesWithMinimax`).

## Model

| member | source | states |
|---|---|---|
| MaterialCount.TypeValue | minmax/minmax.go:114-138 | The piece values are pawn 1, knight 2.9, bishop 3, rook 5, queen 8, king 10000 and 0 for no piece. Every value lies in [0, 10000], and it is 0 exactly for no piece. |
| MaterialCount.PieceValue | minmax/minmax.go:139-143 | `getPieceValue` lies in [-10000, 10000] and is 0 exactly for an empty square. It is positive exactly for a White piece: every other colour, `NoColor` included, is negated. The alpha-beta copy at alphabeta/alphabeta.go:133-163 is the same code. |
| MaterialCount.SumMaterial | minmax/minmax.go:106-112 | `sumMaterial` returns the front-to-back sum of piece values over the board (`Material`). The alpha-beta copy at alphabeta/alphabeta.go:125-131 is identical. |
| MaterialCount.MaterialSwap | minmax/minmax.go:106-144 | On a board where every piece has a colour, exchanging all colours negates the material count. |
| MaterialCount.MaterialSwapNeedsColors | minmax/minmax.go:139-143 | Without that hypothesis the symmetry fails: a lone uncoloured pawn counts -1 both before and after the swap. |
| Scores.FirstMaxStep | minmax/minmax.go:72-75 | One step of a strict `>` running-best loop turns the first-greatest index of `s` into that of `s + [x]`. |
| Scores.FirstMaxUnique | minmax/minmax.go:72-75 | The first-strict-maximum rule determines a single index. |
| MinimaxEvaluation.CheapestScanWhite | minmax/minmax.go:162-172 | With White to move, the scan over the moves onto `sq` keeps the first move whose mover is strictly cheaper than every earlier one and no dearer than any other. If none is below the starting bound, it keeps the start. |
| MinimaxEvaluation.CheapestScanBlack | minmax/minmax.go:162-178 | With Black to move, the scan keeps the first move whose mover has the greatest signed cost (Black's least valuable piece, its values being negative), or the start. |
| MinimaxEvaluation.CheapestScanNoColor | minmax/minmax.go:162-179 | With neither colour to move, no move is ever taken. |
| MinimaxEvaluation.CheapestScanLegal | minmax/minmax.go:162-179 | The move kept is a legal move onto `sq`, or none. |
| MinimaxEvaluation.CheapestPicks | minmax/minmax.go:156-179 | The move `simulateAttacks` chooses is the earliest cheapest legal move onto `sq` for White, or the one of greatest signed cost for Black (its least valuable piece), starting from ±MaxScore. No move is chosen exactly when no legal move lands on `sq`, or when neither colour is to move. |
| MinimaxEvaluation.SimulateAttacks | minmax/minmax.go:155-186 | `simulateAttacks` returns the capture-sequence value `Exchange`. It leaves the referenced position at `ExchangeEnd`, the end of that sequence. |
| MinimaxEvaluation.ExchangePlaysCheapest | minmax/minmax.go:180-185 | With no move onto `sq`, the value is 0 and the position is untouched. Otherwise the chosen move is played, and the value is the rest of the sequence's value minus that mover's cost. |
| MinimaxEvaluation.CalcAttacks | minmax/minmax.go:146-153 | `calcAttacks` sums the capture-sequence values of all squares, each computed from the unchanged input position. |
| MinimaxEvaluation.Evaluate | minmax/minmax.go:100-104 | `evaluate` is material plus the sum of the capture-sequence values. |
| Minimax.Search | minmax/minmax.go:18-26 | `search` returns the choice `SearchValue` specifies: `max` for White, `min` for Black, otherwise no move and 0. |
| Minimax.Max | minmax/minmax.go:64-98 | `max` returns exactly `MaxValue`, the running-best scan of the legal moves. The scan covers the evaluated children at depth 0; deeper, it covers the first mate, the stalemate rule and the recursive scores. |
| Minimax.Min | minmax/minmax.go:28-62 | `min` returns exactly `MinValue`, the mirror scan. |
| Minimax.GetMove | minmax/minmax.go:13-16 | The agent plays the move of the search to the configured depth. |
| MinimaxProperties.MaxLeafScan | minmax/minmax.go:68-76 | At depth 0, the loop of `max` ends with the first child of strictly greatest evaluation above the running best, or with the running best itself. |
| MinimaxProperties.MinLeafScan | minmax/minmax.go:32-40 | The mirror for `min`. |
| MinimaxProperties.MaxLeafPicksFirstBest | minmax/minmax.go:65-77 | `max` at depth 0 returns the first legal move of greatest evaluation, with that score. If no evaluation exceeds -MaxScore, it returns no move and -MaxScore. |
| MinimaxProperties.MinLeafPicksFirstBest | minmax/minmax.go:29-41 | `min` at depth 0 returns the first legal move of lowest evaluation, or no move and +MaxScore. |
| MinimaxProperties.MaxScanFirstMate | minmax/minmax.go:84-85 | Below the horizon, the first mating move among those left ends the loop of `max` with +MaxScore. |
| MinimaxProperties.MinScanFirstMate | minmax/minmax.go:48-49 | The mirror, with -MaxScore. |
| MinimaxProperties.MaxPlaysFirstMate | minmax/minmax.go:81-85 | `max` below the horizon returns the first legal move that checkmates, with +MaxScore. No later move matters. |
| MinimaxProperties.MinPlaysFirstMate | minmax/minmax.go:45-49 | `min` below the horizon returns the first legal move that checkmates, with -MaxScore. |
| MinimaxProperties.MaxSearchedScan | minmax/minmax.go:89-95 | Below the horizon, when no child mates or stalemates, the loop of `max` ends with the first child of strictly greatest searched value above the running best, or with the running best itself. |
| MinimaxProperties.MinSearchedScan | minmax/minmax.go:53-59 | The mirror for `min`. |
| MinimaxProperties.MaxValuePicksFirstBest | minmax/minmax.go:79-97 | `max` below the horizon, when no legal move mates or stalemates, returns the first legal move of greatest searched value, with that value. If no value exceeds -MaxScore, it returns no move and -MaxScore. |
| MinimaxProperties.MinValuePicksFirstBest | minmax/minmax.go:43-61 | `min` below the horizon, under the same hypothesis, returns the first legal move of lowest searched value, or no move and +MaxScore. |
| MinimaxProperties.MaxEarnedShift | minmax/minmax.go:86-95 | A score earned by a later move is still earned by the first move to reach it when the loop starts one move earlier with a child that does not reach it. |
| MinimaxProperties.MaxScanBestSeen | minmax/minmax.go:86-95 | With no mate left, the loop of `max` ends either unchanged or strictly higher. Its score is at least every searched child's value, and at least 0 if a child is stalemated. A changed result was earned by one of the moves, and every earlier searched child is strictly below it, so ties go to the first move. |
| MinimaxProperties.MinScanBestSeen | minmax/minmax.go:50-59 | The mirror for `min`: every earlier searched child is strictly above the result. |
| MinimaxProperties.MaxValueIsBestSeen | minmax/minmax.go:79-97 | With no mating move, `max`'s score bounds every searched child's value from above, and is at least 0 when a child is stalemated. The result is either no move at -MaxScore, or the first move that earned it: every earlier searched child is strictly below. |
| MinimaxProperties.MinValueIsBestSeen | minmax/minmax.go:43-61 | The mirror for `min`, with ties also going to the first move. |
| MinimaxProperties.SearchValueBounded | minmax/minmax.go:18-98 | With an evaluator inside ±MaxScore, every search score is inside ±MaxScore. |
| MinimaxProperties.MaxScanBounded | minmax/minmax.go:79-97 | The loop of `max` keeps its running best within ±MaxScore. |
| MinimaxProperties.MinScanBounded | minmax/minmax.go:43-61 | The loop of `min` keeps its running best within ±MaxScore. |
| MinimaxProperties.MaxScanNeverDrops | minmax/minmax.go:79-97 | The running best of `max` never ends below where it started, except that a mate ends it at +MaxScore. |
| MinimaxProperties.MinScanNeverRises | minmax/minmax.go:43-61 | The running best of `min` never ends above where it started, except at a mate. |
| MinimaxProperties.StuckSearchValue | minmax/minmax.go:79-97 | A position without legal moves searches to no move, with -MaxScore for White, +MaxScore for Black and 0 otherwise. |
| MinimaxProperties.MaxStalemateWhileAhead | minmax/minmax.go:86-94 | A stalemating move met by `max` while its running best is at least 0 is searched rather than drawn. It scores +MaxScore, like a mate. |
| MinimaxProperties.MinStalemateWhileAhead | minmax/minmax.go:50-58 | The mirror: for `min`, such a move scores -MaxScore. |
| AlphaBetaEvaluation.KingIndex | alphabeta/alphabeta.go:192-198 | The index of the first square holding the king of colour `c`, or -1. No earlier square (no square at all, for -1) holds that king. |
| AlphaBetaEvaluation.KingSquare | alphabeta/alphabeta.go:191-199 | The square found holds the king of colour `c`, or is `NoSquare`. It is `NoSquare` whenever no square holds that king. |
| AlphaBetaEvaluation.FindKing | alphabeta/alphabeta.go:191-199 | `findKing` returns the first square of the square order with that king, or `NoSquare`. |
| AlphaBetaEvaluation.TargetCountIsMultiplicity | alphabeta/alphabeta.go:172-176 | The counting loop yields the multiplicity of the king square among the moves' destinations. |
| AlphaBetaEvaluation.Checks | alphabeta/alphabeta.go:165-189 | The check count lies between minus the number of Black's pseudo-legal moves and the number of White's. |
| AlphaBetaEvaluation.ChecksIgnoreTurn | alphabeta/alphabeta.go:166-187 | The count does not depend on whose turn the position records. |
| AlphaBetaEvaluation.NumPseudoLegalChecks | alphabeta/alphabeta.go:165-189 | The result is White's pseudo-legal moves onto Black's king minus Black's onto White's. The position, turn included, is restored. |
| AlphaBetaEvaluation.EvaluationIgnoresTurn | alphabeta/alphabeta.go:166-187 | The evaluation does not depend on whose turn the position records, because `numPseudoLegalChecks` overwrites it for each side. |
| AlphaBetaEvaluation.CheckBonusSign | alphabeta/alphabeta.go:119-123 | The evaluation is above material exactly when White has more pseudo-legal moves onto Black's king than Black onto White's, and equal to it exactly when the two counts are equal. |
| AlphaBetaEvaluation.Evaluate | alphabeta/alphabeta.go:119-123 | `evaluate` is material plus 0.2 × the check count, and leaves the position as it was. |
| AlphaBeta.Search | alphabeta/alphabeta.go:19-27 | `search` returns the choice `ABSearch` specifies: `max` for White, `min` for Black, otherwise no move and 0. |
| AlphaBeta.Max | alphabeta/alphabeta.go:74-117 | `max` returns exactly `ABMaxValue`, the windowed scan. |
| AlphaBeta.Min | alphabeta/alphabeta.go:29-72 | `min` returns exactly `ABMinValue`. |
| AlphaBeta.MaxAtHorizon | alphabeta/alphabeta.go:75-91 | The depth-0 loop of `max`, cut above `beta`, returns the horizon scan. |
| AlphaBeta.MinAtHorizon | alphabeta/alphabeta.go:30-46 | The depth-0 loop of `min`, cut below `alpha`, returns the horizon scan. |
| AlphaBeta.MaxSearchChild | alphabeta/alphabeta.go:103-113 | A searched child updates the running best of `max` and stops the loop exactly when it exceeds `beta`. `alpha` only grows, and only ever to the running best. |
| AlphaBeta.MinSearchChild | alphabeta/alphabeta.go:58-68 | The mirror: `min` stops below `alpha`, and `beta` only shrinks, and only to the running best. |
| AlphaBeta.GetMove | alphabeta/alphabeta.go:14-17 | The agent plays the move of the search with window (-MaxScore, +MaxScore). |
| AlphaBetaProperties.MaxLeafScansPrefix | alphabeta/alphabeta.go:78-89 | At the horizon, `max` is the minimax loop over the moves up to and including the first one after which the running best exceeds `beta`, or over all the moves. |
| AlphaBetaProperties.MinLeafScansPrefix | alphabeta/alphabeta.go:33-44 | The mirror, with the cut below `alpha`. |
| AlphaBetaProperties.MaxHorizonPicksFirstBest | alphabeta/alphabeta.go:75-91 | `max` at depth 0 returns the earliest best-evaluated move among those scanned before the cut, or no move and -MaxScore. |
| AlphaBetaProperties.MinHorizonPicksFirstBest | alphabeta/alphabeta.go:30-46 | `min` at depth 0 returns the earliest lowest-evaluated move among those scanned, or no move and +MaxScore. |
| AlphaBetaProperties.MaxLeafFailSoft | alphabeta/alphabeta.go:75-91 | The horizon loop of `max` equals minimax unless it is cut. A cut score above `beta` is a lower bound of the minimax score. |
| AlphaBetaProperties.MinLeafFailSoft | alphabeta/alphabeta.go:30-46 | The mirror: a cut score below `alpha` is an upper bound. |
| AlphaBetaProperties.ABMaxScanFailSoft | alphabeta/alphabeta.go:92-116 | Below the horizon, the loop of `max` with its raised `alpha` keeps the fail-soft contract against the minimax loop. |
| AlphaBetaProperties.ABMinScanFailSoft | alphabeta/alphabeta.go:47-71 | The loop of `min` with its lowered `beta` keeps the fail-soft contract. |
| AlphaBetaProperties.ABSearchFailSoft | alphabeta/alphabeta.go:19-117 | For every window within ±MaxScore, the alpha-beta score is bounded and relates to the minimax score as follows: equal inside the window, an upper bound below `alpha`, a lower bound above `beta`. |
| AlphaBetaProperties.ABMaxRootScan | alphabeta/alphabeta.go:92-116 | With `beta` = +MaxScore, `max` is never cut and equals the minimax loop. |
| AlphaBetaProperties.ABMinRootScan | alphabeta/alphabeta.go:47-71 | With `alpha` = -MaxScore, `min` is never cut and equals the minimax loop. |
| AlphaBetaProperties.ABAgreesWithMinimax | alphabeta/alphabeta.go:14-17 | From `GetMove`'s full window, alpha-beta returns the same move and score as minimax with the same evaluator and depth, provided no stalemate is reached below the horizon. |
| AlphaBetaProperties.ABDisagreesWithMinimax | alphabeta/alphabeta.go:92-116 | There is an engine with a bounded evaluation and stuck stalemates, and a root searched to depth 3, where a stalemate lies below the horizon. There minimax plays move 1 for 5 and alpha-beta plays move 4 for 7. The cut at Black's node 8 leaves White's running best at 1, so the stalemate is searched instead of drawn. |
| MctsReward.GetPositionValue | mcts/mcst.go:179-213 | `getPositionValue` is the signed material sum in which uncoloured pieces count 0. |
| MctsReward.PositionValueIsMaterial | mcts/mcst.go:179-213 | On a board whose pieces all have a colour, it equals the searches' material count. |
| MctsReward.PositionValueSwap | mcts/mcst.go:206-210 | Exchanging all colours negates it, with no hypothesis. |
| MctsReward.Reward | mcts/mcst.go:157-177 | For White, the reward is 1 exactly when the value exceeds 8 and 0 exactly when it is below -8. For Black it is the mirror. Otherwise (exactly ±8 included) it is 0.5, and it is always 0.5 for `NoColor`. |
| MctsReward.RewardSymmetric | mcts/mcst.go:157-177 | Black on the colour-swapped board is rewarded as White is on the original. |
| MctsReward.DetermineReward | mcts/mcst.go:157-177 | `determineReward` returns `Reward`. |
| MctsReward.Rollout | mcts/mcst.go:139-155 | Every playout result is 0, 0.5 or 1. |
| MctsReward.RandomRollout | mcts/mcst.go:139-155 | `randomRollout` returns the playout over the given draws: up to 20 plies of a mate test, an empty-move test and a drawn move, then the reward. |
| Mcts.Node.AddChild | mcts/mcst.go:220-227 | A fresh, unvisited, childless node for the move is appended. The tree stays valid and nothing else changes. |
| Mcts.Node.Record | mcts/mcst.go:114-115 | The selected child gains one visit and the result, with the tree kept valid. |
| Mcts.SelectionUnique | mcts/mcst.go:119-136 | The selection rule determines a single child. |
| Mcts.SelectNode | mcts/mcst.go:119-136 | `selectNode` picks the first unvisited child if there is one. Otherwise it picks the first child of strictly greatest UCB, or the first child when no UCB exceeds -MaxScore. |
| Mcts.FillInChildren | mcts/mcst.go:215-229 | It appends one fresh child per legal move, in order: unvisited, childless, with that move and the node's position after it. Existing children, the node's own fields and validity are kept. |
| Mcts.Iterate | mcts/mcst.go:92-117 | A node won for the agent gains a visit and a win, and returns 1. Any other finished node gains a visit and returns 0. Otherwise the result is 0, 0.5 or 1, the node's counts are unchanged, and `Expanded` or `Descended` describes the children. After a descent, every subtree but the selected child's is unchanged. |
| Mcts.Expand | mcts/mcst.go:102-116 | A leaf gets one child per legal move. The first is selected, played out from the leaf's own position and credited; the rest stay unvisited. |
| Mcts.Descend | mcts/mcst.go:106-116 | The child `selectNode` picks on the old statistics is the one updated. An unvisited one is played out from the parent's position and gains one visit; a visited one is iterated and gains one visit, or two if finished. Every sibling's whole subtree is unchanged. |
| Mcts.VisitChild | mcts/mcst.go:107-116 | The selected child's update, as in `Descended`. Every sibling's whole subtree is unchanged, and the parent keeps its own fields. |
| Mcts.ConcurrentIterate | mcts/mcst.go:81-85 | After `rounds` batches of 100 iterations, the node has exactly 100·rounds more visits, or twice that if its position is finished. A won position gains as many wins as visits, and another finished one gains no wins. |
| Mcts.MakeParentNode | mcts/mcst.go:31-53 | The root has no visits, no wins and the null move, plus one fresh, unvisited, childless child per legal move. Child `i` has move `i` and the position after moves 0..i-1; the root has the position after all moves. |
| Mcts.BestMove | mcts/mcst.go:237-248 | `bestMove` returns the move of the first child of strictly greatest win rate, where an unvisited child is never picked; if no rate exceeds -MaxScore, it returns the first child's move. |
| Mcts.ValidWinsWithinVisits | mcts/mcst.go:92-117 | In a valid tree every child has won at least 0 and at most once per visit. |
| Mcts.RatesInUnitInterval | mcts/mcst.go:237-248 | When every child has won at most once per visit, every visited child's win rate lies in [0, 1]. |
| Mcts.BestIsVisited | mcts/mcst.go:237-248 | Once some child was visited, the child of the first greatest rate was visited, and its rate is the greatest among visited children. |
| Mcts.SearchChildren | mcts/mcst.go:59-67 | Every root child is searched by its own `concurrentIterate` on its own subtree. Each keeps its move and position and gains at least 100 visits per round. The root's own visits, wins, move and position are untouched. |
| Mcts.GrowTree | mcts/mcst.go:55-67 | The tree `GetMove` builds is valid and has one child per legal move, with the cumulative positions of `makeParentNode`. Child `i` has at least 100·rounds(i) visits. The root keeps no visits, no wins, the null move and the position after all moves. |
| Mcts.GrownPicksVisited | mcts/mcst.go:55-76 | In such a tree where some child's clock let a batch through, the child `bestMove` picks was visited and has the highest rate among the visited children. |
| Mcts.GetMove | mcts/mcst.go:55-76 | The agent plays the legal move of the child `bestMove` picks on the final statistics of the grown tree, which it returns. Child `i` has at least 100·rounds(i) visits. Once some child's clock let a batch through, the chosen child was visited and has the highest win rate among the visited children. |

## Left out

- The rules engine (move generation, check detection, playing a move) is an external library and is not part of this model. It is a parameter. Two facts of chess are stated as hypotheses where they are needed:
  - `StuckIsTerminal`: a side without legal moves is mated or stalemated. The MCTS descent needs it; otherwise `selectNode` would read an empty child list.
  - `StalemateIsStuck`: a stalemated side has no legal move.
- `simulateAttacks` terminates only if every legal move onto a square lowers a measure. The measure is the occupied squares, plus one while the target is empty. Minimax assumes this of its engine (`ExchangeEngine`).
- Search depths are `nat`. A negative depth makes the Go recursion unbounded, and is excluded.
- The goroutines and channels of `GetMove` (mcts/mcst.go:59-67, 88) run one after the other in the model. Each touches only its own child's subtree. The iteration counter `mcts.n` is per goroutine in the source (a value receiver), and the model keeps it per goroutine.
- The wall clock of `concurrentIterate` (mcts/mcst.go:79-80) becomes a number of rounds per child.
- `calcUCB` (mcts/mcst.go:232-234) uses floating-point square roots and logarithms (including log 0 and division by 0 before a first visit). It is an abstract function of (w, n, iterations).
- `rand.IntN` (mcts/mcst.go:151) becomes a parameter: an arbitrary sequence of draws, taken modulo the number of legal moves.
- Floating-point rounding: scores are reals. The NaN that `bestMove` computes for an unvisited child is written as -MaxScore. The strict comparison never picks either.
- Go does not fix the order in which `n.w += mcts.iterate(n, …)` (mcts/mcst.go:82) reads `n.w` and makes the call. The model makes the call first, as the gc compiler does. So a won node keeps the win that `iterate` records and also gains the returned 1: two wins per iteration (`Mcts.ConcurrentIterate`). If `n.w` were read first, it would gain one.
- Logging (mcts/mcst.go:69-74) and `resetN`, which has no effect because of its value receiver (mcts/mcst.go:250-252).
- main.go (argument parsing, the human agent, printing) is not part of this model.
- Mcts.ConcurrentIterate: for a position that is not finished, the wins gained are not stated. They depend on the abstract playouts and UCB values.
- Mcts.SearchChildren: states a lower bound on each child's visits, not the exact count or the wins. The combination of the per-child results is enough for `GetMove`'s guarantee.
- Mcts.GetMove: requires a legal move at the root, because `bestMove` reads the first child and the source panics without one.
- AlphaBetaProperties.ABAgreesWithMinimax: assumes evaluations within ±MaxScore and no stalemate below the horizon. With a stalemate, the running-best-dependent draw rule can make alpha-beta and minimax diverge, as `ABDisagreesWithMinimax` shows.
