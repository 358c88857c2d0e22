/** The depth-bounded minimax agent.

    The recursion is specified once, by functions over an arbitrary
    evaluator, so that the alpha-beta agent can be compared with "the same
    search without cutoffs"; the methods are the agent's own loops, with its
    own evaluator, proved equal to those functions. */
module Minimax {
  import opened Chess
  import opened Scores
  import opened MinimaxEvaluation

  type Evaluator = Position -> real

  /** `search`: White maximises, Black minimises, and any other side to move
      gets no move and score 0. */
  function SearchValue(e: Engine, eval: Evaluator, p: Position, depth: nat): Choice
    decreases depth, 2
  {
    if p.turn == White then MaxValue(e, eval, p, depth)
    else if p.turn == Black then MinValue(e, eval, p, depth)
    else Choice(NullMove, 0.0)
  }

  /** `max`: the scan of the legal moves from (no move, -MaxScore). */
  function MaxValue(e: Engine, eval: Evaluator, p: Position, depth: nat): Choice
    decreases depth, 1
  {
    MaxScan(e, eval, p, depth, e.legalMoves(p), Choice(NullMove, -MaxScore))
  }

  /** `min`: the scan of the legal moves from (no move, +MaxScore). */
  function MinValue(e: Engine, eval: Evaluator, p: Position, depth: nat): Choice
    decreases depth, 1
  {
    MinScan(e, eval, p, depth, e.legalMoves(p), Choice(NullMove, MaxScore))
  }

  /** The loop of `max` over the moves `ms` still to be tried, `acc` being the
      running best.  At depth 0 every child is evaluated; deeper, a mating
      move is returned at once, a stalemating move is worth 0 only while the
      running best is negative, and every other child is searched. */
  function MaxScan(e: Engine, eval: Evaluator, p: Position, depth: nat, ms: seq<Move>, acc: Choice): Choice
    decreases depth, 0, |ms|
  {
    if ms == [] then acc
    else
      var m := ms[0];
      var child := e.play(p, m);
      if depth == 0 then
        var s := eval(child);
        MaxScan(e, eval, p, depth, ms[1..], if s > acc.score then Choice(m, s) else acc)
      else if e.isCheckMate(child) then Choice(m, MaxScore)
      else if e.isStaleMate(child) && acc.score < 0.0 then
        MaxScan(e, eval, p, depth, ms[1..], Choice(m, 0.0))
      else
        var s := SearchValue(e, eval, child, depth - 1).score;
        MaxScan(e, eval, p, depth, ms[1..], if s > acc.score then Choice(m, s) else acc)
  }

  /** The loop of `min`, the mirror of `MaxScan`. */
  function MinScan(e: Engine, eval: Evaluator, p: Position, depth: nat, ms: seq<Move>, acc: Choice): Choice
    decreases depth, 0, |ms|
  {
    if ms == [] then acc
    else
      var m := ms[0];
      var child := e.play(p, m);
      if depth == 0 then
        var s := eval(child);
        MinScan(e, eval, p, depth, ms[1..], if s < acc.score then Choice(m, s) else acc)
      else if e.isCheckMate(child) then Choice(m, -MaxScore)
      else if e.isStaleMate(child) && acc.score > 0.0 then
        MinScan(e, eval, p, depth, ms[1..], Choice(m, 0.0))
      else
        var s := SearchValue(e, eval, child, depth - 1).score;
        MinScan(e, eval, p, depth, ms[1..], if s < acc.score then Choice(m, s) else acc)
  }

  /** The minimax agent's own evaluator. */
  function EvaluatorOf(e: ExchangeEngine): Evaluator
  {
    p => Evaluation(e, p)
  }

  /** `search`. */
  method Search(e: ExchangeEngine, p: Position, depth: nat) returns (move: Move, score: real)
    ensures Choice(move, score) == SearchValue(e, EvaluatorOf(e), p, depth)
    decreases depth, 2
  {
    if p.turn == White {
      move, score := Max(e, p, depth);
      return;
    }
    if p.turn == Black {
      move, score := Min(e, p, depth);
      return;
    }
    return NullMove, 0.0;
  }

  /** `max`. */
  method Max(e: ExchangeEngine, p: Position, depth: nat) returns (bestMove: Move, highestScore: real)
    ensures Choice(bestMove, highestScore) == MaxValue(e, EvaluatorOf(e), p, depth)
    decreases depth, 1
  {
    ghost var eval := EvaluatorOf(e);
    var legalMoves := e.legalMoves(p);
    highestScore := -MaxScore;
    bestMove := NullMove;
    if depth == 0 {
      for i := 0 to |legalMoves|
        invariant MaxScan(e, eval, p, depth, legalMoves[i..], Choice(bestMove, highestScore)) == MaxValue(e, eval, p, depth)
      {
        assert legalMoves[i..][1..] == legalMoves[i + 1..];
        var move := legalMoves[i];
        var newPos := e.play(p, move);
        var score := Evaluate(e, newPos);
        assert score == eval(newPos);
        if score > highestScore {
          highestScore := score;
          bestMove := move;
        }
      }
      return;
    }
    for i := 0 to |legalMoves|
      invariant MaxScan(e, eval, p, depth, legalMoves[i..], Choice(bestMove, highestScore)) == MaxValue(e, eval, p, depth)
    {
      assert legalMoves[i..][1..] == legalMoves[i + 1..];
      var move := legalMoves[i];
      var newPos := e.play(p, move);
      if e.isCheckMate(newPos) {
        assert MaxScan(e, eval, p, depth, legalMoves[i..], Choice(bestMove, highestScore)) == Choice(move, MaxScore);
        return move, MaxScore;
      } else if e.isStaleMate(newPos) && highestScore < 0.0 {
        highestScore := 0.0;
        bestMove := move;
      } else {
        var reply, score := Search(e, newPos, depth - 1);
        if score > highestScore {
          highestScore := score;
          bestMove := move;
        }
      }
    }
  }

  /** `min`. */
  method Min(e: ExchangeEngine, p: Position, depth: nat) returns (bestMove: Move, lowestScore: real)
    ensures Choice(bestMove, lowestScore) == MinValue(e, EvaluatorOf(e), p, depth)
    decreases depth, 1
  {
    ghost var eval := EvaluatorOf(e);
    var legalMoves := e.legalMoves(p);
    lowestScore := MaxScore;
    bestMove := NullMove;
    if depth == 0 {
      for i := 0 to |legalMoves|
        invariant MinScan(e, eval, p, depth, legalMoves[i..], Choice(bestMove, lowestScore)) == MinValue(e, eval, p, depth)
      {
        assert legalMoves[i..][1..] == legalMoves[i + 1..];
        var move := legalMoves[i];
        var newPos := e.play(p, move);
        var score := Evaluate(e, newPos);
        assert score == eval(newPos);
        if score < lowestScore {
          lowestScore := score;
          bestMove := move;
        }
      }
      return;
    }
    for i := 0 to |legalMoves|
      invariant MinScan(e, eval, p, depth, legalMoves[i..], Choice(bestMove, lowestScore)) == MinValue(e, eval, p, depth)
    {
      assert legalMoves[i..][1..] == legalMoves[i + 1..];
      var move := legalMoves[i];
      var newPos := e.play(p, move);
      if e.isCheckMate(newPos) {
        assert MinScan(e, eval, p, depth, legalMoves[i..], Choice(bestMove, lowestScore)) == Choice(move, -MaxScore);
        return move, -MaxScore;
      } else if e.isStaleMate(newPos) && lowestScore > 0.0 {
        lowestScore := 0.0;
        bestMove := move;
      } else {
        var reply, score := Search(e, newPos, depth - 1);
        if score < lowestScore {
          lowestScore := score;
          bestMove := move;
        }
      }
    }
  }

  /** `GetMove`: the move of a search to the configured depth. */
  method GetMove(e: ExchangeEngine, p: Position, depth: nat) returns (move: Move)
    ensures move == SearchValue(e, EvaluatorOf(e), p, depth).move
  {
    var score;
    move, score := Search(e, p, depth);
  }
}
