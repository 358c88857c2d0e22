/** The alpha-beta agent: the minimax recursion with a window (alpha, beta),
    fail-soft, cutting a loop as soon as its running best leaves the window.

    As for minimax, the recursion is specified by functions over an
    arbitrary evaluator and the agent's methods are proved equal to them. */
module AlphaBeta {
  import opened Chess
  import opened Scores
  import opened AlphaBetaEvaluation
  import Minimax

  /** `search`. */
  function ABSearch(e: Engine, eval: Minimax.Evaluator, p: Position, depth: nat, alpha: real, beta: real): Choice
    decreases depth, 2
  {
    if p.turn == White then ABMaxValue(e, eval, p, depth, alpha, beta)
    else if p.turn == Black then ABMinValue(e, eval, p, depth, alpha, beta)
    else Choice(NullMove, 0.0)
  }

  function ABMaxValue(e: Engine, eval: Minimax.Evaluator, p: Position, depth: nat, alpha: real, beta: real): Choice
    decreases depth, 1
  {
    ABMaxScan(e, eval, p, depth, e.legalMoves(p), alpha, beta, Choice(NullMove, -MaxScore))
  }

  function ABMinValue(e: Engine, eval: Minimax.Evaluator, p: Position, depth: nat, alpha: real, beta: real): Choice
    decreases depth, 1
  {
    ABMinScan(e, eval, p, depth, e.legalMoves(p), alpha, beta, Choice(NullMove, MaxScore))
  }

  /** The loop of `max` over the moves `ms` still to be tried, with the
      current `alpha` and the running best `acc`.  It stops once the running
      best exceeds `beta`; below the horizon a searched child's score that
      exceeds `alpha` raises it, while a draw taken for a stalemate does not
      and is not tested against `beta`. */
  function ABMaxScan(e: Engine, eval: Minimax.Evaluator, p: Position, depth: nat, ms: seq<Move>,
                     alpha: real, beta: real, acc: Choice): Choice
    decreases depth, 0, |ms|
  {
    if ms == [] then acc
    else
      var m := ms[0];
      var child := e.play(p, m);
      if depth == 0 then
        var s := eval(child);
        var best := if s > acc.score then Choice(m, s) else acc;
        if best.score > beta then best
        else ABMaxScan(e, eval, p, depth, ms[1..], alpha, beta, best)
      else if e.isCheckMate(child) then Choice(m, MaxScore)
      else if e.isStaleMate(child) && acc.score < 0.0 then
        ABMaxScan(e, eval, p, depth, ms[1..], alpha, beta, Choice(m, 0.0))
      else
        var s := ABSearch(e, eval, child, depth - 1, alpha, beta).score;
        var best := if s > acc.score then Choice(m, s) else acc;
        if best.score > beta then best
        else ABMaxScan(e, eval, p, depth, ms[1..], if best.score > alpha then best.score else alpha, beta, best)
  }

  /** The loop of `min`, the mirror of `ABMaxScan`: it stops once the running
      best is below `alpha`, and lowers `beta`. */
  function ABMinScan(e: Engine, eval: Minimax.Evaluator, p: Position, depth: nat, ms: seq<Move>,
                     alpha: real, beta: real, acc: Choice): Choice
    decreases depth, 0, |ms|
  {
    if ms == [] then acc
    else
      var m := ms[0];
      var child := e.play(p, m);
      if depth == 0 then
        var s := eval(child);
        var best := if s < acc.score then Choice(m, s) else acc;
        if best.score < alpha then best
        else ABMinScan(e, eval, p, depth, ms[1..], alpha, beta, best)
      else if e.isCheckMate(child) then Choice(m, -MaxScore)
      else if e.isStaleMate(child) && acc.score > 0.0 then
        ABMinScan(e, eval, p, depth, ms[1..], alpha, beta, Choice(m, 0.0))
      else
        var s := ABSearch(e, eval, child, depth - 1, alpha, beta).score;
        var best := if s < acc.score then Choice(m, s) else acc;
        if best.score < alpha then best
        else ABMinScan(e, eval, p, depth, ms[1..], alpha, if best.score < beta then best.score else beta, best)
  }

  /** One step of `ABMaxScan` below the horizon past a child that neither
      mates nor is taken as a stalemate draw. */
  lemma ABMaxScanSearches(e: Engine, eval: Minimax.Evaluator, p: Position, depth: nat, ms: seq<Move>,
                          alpha: real, beta: real, acc: Choice)
    requires depth > 0 && ms != []
    requires !e.isCheckMate(e.play(p, ms[0])) && !(e.isStaleMate(e.play(p, ms[0])) && acc.score < 0.0)
    ensures var s := ABSearch(e, eval, e.play(p, ms[0]), depth - 1, alpha, beta).score;
      var best := if s > acc.score then Choice(ms[0], s) else acc;
      ABMaxScan(e, eval, p, depth, ms, alpha, beta, acc)
        == if best.score > beta then best
           else ABMaxScan(e, eval, p, depth, ms[1..], if best.score > alpha then best.score else alpha, beta, best)
  {
  }

  /** One step of `ABMaxScan` below the horizon past a child that mates,
      which ends the loop, or is taken as a stalemate draw. */
  lemma ABMaxScanEnds(e: Engine, eval: Minimax.Evaluator, p: Position, depth: nat, ms: seq<Move>,
                      alpha: real, beta: real, acc: Choice)
    requires depth > 0 && ms != []
    ensures e.isCheckMate(e.play(p, ms[0])) ==> ABMaxScan(e, eval, p, depth, ms, alpha, beta, acc) == Choice(ms[0], MaxScore)
    ensures !e.isCheckMate(e.play(p, ms[0])) && e.isStaleMate(e.play(p, ms[0])) && acc.score < 0.0 ==>
      ABMaxScan(e, eval, p, depth, ms, alpha, beta, acc) == ABMaxScan(e, eval, p, depth, ms[1..], alpha, beta, Choice(ms[0], 0.0))
  {
  }

  /** The mirror of `ABMaxScanSearches`. */
  lemma ABMinScanSearches(e: Engine, eval: Minimax.Evaluator, p: Position, depth: nat, ms: seq<Move>,
                          alpha: real, beta: real, acc: Choice)
    requires depth > 0 && ms != []
    requires !e.isCheckMate(e.play(p, ms[0])) && !(e.isStaleMate(e.play(p, ms[0])) && acc.score > 0.0)
    ensures var s := ABSearch(e, eval, e.play(p, ms[0]), depth - 1, alpha, beta).score;
      var best := if s < acc.score then Choice(ms[0], s) else acc;
      ABMinScan(e, eval, p, depth, ms, alpha, beta, acc)
        == if best.score < alpha then best
           else ABMinScan(e, eval, p, depth, ms[1..], alpha, if best.score < beta then best.score else beta, best)
  {
  }

  /** The mirror of `ABMaxScanEnds`. */
  lemma ABMinScanEnds(e: Engine, eval: Minimax.Evaluator, p: Position, depth: nat, ms: seq<Move>,
                      alpha: real, beta: real, acc: Choice)
    requires depth > 0 && ms != []
    ensures e.isCheckMate(e.play(p, ms[0])) ==> ABMinScan(e, eval, p, depth, ms, alpha, beta, acc) == Choice(ms[0], -MaxScore)
    ensures !e.isCheckMate(e.play(p, ms[0])) && e.isStaleMate(e.play(p, ms[0])) && acc.score > 0.0 ==>
      ABMinScan(e, eval, p, depth, ms, alpha, beta, acc) == ABMinScan(e, eval, p, depth, ms[1..], alpha, beta, Choice(ms[0], 0.0))
  {
  }

  /** The alpha-beta agent's own evaluator. */
  function EvaluatorOf(e: Engine): Minimax.Evaluator
  {
    p => Evaluation(e, p)
  }

  /** `evaluate` on a fresh copy of the position. */
  method EvaluateCopy(e: Engine, p: Position) returns (score: real)
    ensures score == EvaluatorOf(e)(p)
  {
    var newPos := new PositionRef(p);
    score := Evaluate(e, newPos);
  }

  /** `search`. */
  method Search(e: Engine, p: Position, depth: nat, alpha: real, beta: real) returns (move: Move, score: real)
    ensures Choice(move, score) == ABSearch(e, EvaluatorOf(e), p, depth, alpha, beta)
    decreases depth, 2
  {
    if p.turn == White {
      move, score := Max(e, p, depth, alpha, beta);
      return;
    }
    if p.turn == Black {
      move, score := Min(e, p, depth, alpha, beta);
      return;
    }
    return NullMove, 0.0;
  }

  /** The depth-0 loop of `max`: every child is evaluated, and the loop stops
      once the running best exceeds `beta`. */
  method MaxAtHorizon(e: Engine, p: Position, alpha: real, beta: real) returns (bestMove: Move, highestScore: real)
    ensures Choice(bestMove, highestScore) == ABMaxValue(e, EvaluatorOf(e), p, 0, alpha, beta)
  {
    ghost var eval := EvaluatorOf(e);
    var legalMoves := e.legalMoves(p);
    highestScore := -MaxScore;
    bestMove := NullMove;
    for i := 0 to |legalMoves|
      invariant ABMaxScan(e, eval, p, 0, legalMoves[i..], alpha, beta, Choice(bestMove, highestScore))
        == ABMaxValue(e, eval, p, 0, alpha, beta)
    {
      assert legalMoves[i..][1..] == legalMoves[i + 1..];
      var move := legalMoves[i];
      var score := EvaluateCopy(e, e.play(p, move));
      if score > highestScore {
        highestScore := score;
        bestMove := move;
      }
      if highestScore > beta {
        break;
      }
    }
  }

  /** The depth-0 loop of `min`: the loop stops once the running best is
      below `alpha`. */
  method MinAtHorizon(e: Engine, p: Position, alpha: real, beta: real) returns (bestMove: Move, lowestScore: real)
    ensures Choice(bestMove, lowestScore) == ABMinValue(e, EvaluatorOf(e), p, 0, alpha, beta)
  {
    ghost var eval := EvaluatorOf(e);
    var legalMoves := e.legalMoves(p);
    lowestScore := MaxScore;
    bestMove := NullMove;
    for i := 0 to |legalMoves|
      invariant ABMinScan(e, eval, p, 0, legalMoves[i..], alpha, beta, Choice(bestMove, lowestScore))
        == ABMinValue(e, eval, p, 0, alpha, beta)
    {
      assert legalMoves[i..][1..] == legalMoves[i + 1..];
      var move := legalMoves[i];
      var score := EvaluateCopy(e, e.play(p, move));
      if score < lowestScore {
        lowestScore := score;
        bestMove := move;
      }
      if lowestScore < alpha {
        break;
      }
    }
  }

  /** `max`. */
  method Max(e: Engine, p: Position, depth: nat, alpha0: real, beta: real) returns (bestMove: Move, highestScore: real)
    ensures Choice(bestMove, highestScore) == ABMaxValue(e, EvaluatorOf(e), p, depth, alpha0, beta)
    decreases depth, 1
  {
    if depth == 0 {
      bestMove, highestScore := MaxAtHorizon(e, p, alpha0, beta);
      return;
    }
    ghost var eval := EvaluatorOf(e);
    ghost var goal := ABMaxValue(e, eval, p, depth, alpha0, beta);
    var alpha := alpha0;
    var legalMoves := e.legalMoves(p);
    highestScore := -MaxScore;
    bestMove := NullMove;
    for i := 0 to |legalMoves|
      invariant ABMaxScan(e, eval, p, depth, legalMoves[i..], alpha, beta, Choice(bestMove, highestScore)) == goal
    {
      assert legalMoves[i..][1..] == legalMoves[i + 1..];
      var move := legalMoves[i];
      var newPos := e.play(p, move);
      ABMaxScanEnds(e, eval, p, depth, legalMoves[i..], alpha, beta, Choice(bestMove, highestScore));
      if e.isCheckMate(newPos) {
        return move, MaxScore;
      } else if e.isStaleMate(newPos) && highestScore < 0.0 {
        highestScore := 0.0;
        bestMove := move;
      } else {
        var cut;
        bestMove, highestScore, alpha, cut := MaxSearchChild(e, p, depth, legalMoves[i..], alpha, beta, bestMove, highestScore);
        if cut {
          break;
        }
      }
    }
  }

  /** The turn of `max`'s loop that searches the child reached by `ms[0]`:
      the running best and `alpha` are updated, and `cut` tells whether the
      loop stops there. */
  method MaxSearchChild(e: Engine, p: Position, depth: nat, ms: seq<Move>, alpha: real, beta: real,
                        bestMove: Move, highestScore: real)
    returns (bestMove': Move, highestScore': real, alpha': real, cut: bool)
    requires depth > 0 && ms != []
    requires !e.isCheckMate(e.play(p, ms[0])) && !(e.isStaleMate(e.play(p, ms[0])) && highestScore < 0.0)
    ensures cut ==> Choice(bestMove', highestScore') == ABMaxScan(e, EvaluatorOf(e), p, depth, ms, alpha, beta, Choice(bestMove, highestScore))
    ensures !cut ==> ABMaxScan(e, EvaluatorOf(e), p, depth, ms[1..], alpha', beta, Choice(bestMove', highestScore'))
                     == ABMaxScan(e, EvaluatorOf(e), p, depth, ms, alpha, beta, Choice(bestMove, highestScore))
    ensures alpha <= alpha' && (alpha' == alpha || alpha' == highestScore')
    decreases depth, 0
  {
    var reply, score := Search(e, e.play(p, ms[0]), depth - 1, alpha, beta);
    ABMaxScanSearches(e, EvaluatorOf(e), p, depth, ms, alpha, beta, Choice(bestMove, highestScore));
    bestMove', highestScore', alpha' := bestMove, highestScore, alpha;
    if score > highestScore' {
      highestScore' := score;
      bestMove' := ms[0];
    }
    cut := highestScore' > beta;
    if !cut && highestScore' > alpha' {
      alpha' := highestScore';
    }
  }

  /** `min`. */
  method Min(e: Engine, p: Position, depth: nat, alpha: real, beta0: real) returns (bestMove: Move, lowestScore: real)
    ensures Choice(bestMove, lowestScore) == ABMinValue(e, EvaluatorOf(e), p, depth, alpha, beta0)
    decreases depth, 1
  {
    if depth == 0 {
      bestMove, lowestScore := MinAtHorizon(e, p, alpha, beta0);
      return;
    }
    ghost var eval := EvaluatorOf(e);
    ghost var goal := ABMinValue(e, eval, p, depth, alpha, beta0);
    var beta := beta0;
    var legalMoves := e.legalMoves(p);
    lowestScore := MaxScore;
    bestMove := NullMove;
    for i := 0 to |legalMoves|
      invariant ABMinScan(e, eval, p, depth, legalMoves[i..], alpha, beta, Choice(bestMove, lowestScore)) == goal
    {
      assert legalMoves[i..][1..] == legalMoves[i + 1..];
      var move := legalMoves[i];
      var newPos := e.play(p, move);
      ABMinScanEnds(e, eval, p, depth, legalMoves[i..], alpha, beta, Choice(bestMove, lowestScore));
      if e.isCheckMate(newPos) {
        return move, -MaxScore;
      } else if e.isStaleMate(newPos) && lowestScore > 0.0 {
        lowestScore := 0.0;
        bestMove := move;
      } else {
        var cut;
        bestMove, lowestScore, beta, cut := MinSearchChild(e, p, depth, legalMoves[i..], alpha, beta, bestMove, lowestScore);
        if cut {
          break;
        }
      }
    }
  }

  /** The mirror of `MaxSearchChild` for `min`'s loop, which lowers `beta`. */
  method MinSearchChild(e: Engine, p: Position, depth: nat, ms: seq<Move>, alpha: real, beta: real,
                        bestMove: Move, lowestScore: real)
    returns (bestMove': Move, lowestScore': real, beta': real, cut: bool)
    requires depth > 0 && ms != []
    requires !e.isCheckMate(e.play(p, ms[0])) && !(e.isStaleMate(e.play(p, ms[0])) && lowestScore > 0.0)
    ensures cut ==> Choice(bestMove', lowestScore') == ABMinScan(e, EvaluatorOf(e), p, depth, ms, alpha, beta, Choice(bestMove, lowestScore))
    ensures !cut ==> ABMinScan(e, EvaluatorOf(e), p, depth, ms[1..], alpha, beta', Choice(bestMove', lowestScore'))
                     == ABMinScan(e, EvaluatorOf(e), p, depth, ms, alpha, beta, Choice(bestMove, lowestScore))
    ensures beta' <= beta && (beta' == beta || beta' == lowestScore')
    decreases depth, 0
  {
    var reply, score := Search(e, e.play(p, ms[0]), depth - 1, alpha, beta);
    ABMinScanSearches(e, EvaluatorOf(e), p, depth, ms, alpha, beta, Choice(bestMove, lowestScore));
    bestMove', lowestScore', beta' := bestMove, lowestScore, beta;
    if score < lowestScore' {
      lowestScore' := score;
      bestMove' := ms[0];
    }
    cut := lowestScore' < alpha;
    if !cut && lowestScore' < beta' {
      beta' := lowestScore';
    }
  }

  /** `GetMove`: a search to the configured depth with the widest window. */
  method GetMove(e: Engine, p: Position, depth: nat) returns (move: Move)
    ensures move == ABSearch(e, EvaluatorOf(e), p, depth, -MaxScore, MaxScore).move
  {
    var score;
    move, score := Search(e, p, depth, -MaxScore, MaxScore);
  }
}
