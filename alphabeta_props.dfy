/** How the alpha-beta recursion relates to the minimax recursion with the
    same evaluator.

    Inside the window the two agree; a score that fails low (below alpha) is
    an upper bound of the minimax score and one that fails high (above beta)
    a lower bound.  At the root the window is (-MaxScore, +MaxScore), so the
    alpha-beta agent returns exactly the minimax move and score.

    Two hypotheses are needed.  Scores must lie within the sentinels, which
    the searches rely on without checking.  And no stalemate may be reached
    below the horizon: both agents take a stalemate as a draw only while
    their running best has the wrong sign, and with a window the running
    best of the alpha-beta agent need not be the minimax one, so the two
    can then diverge. */
module AlphaBetaProperties {
  import opened Chess
  import opened Scores
  import opened Minimax
  import opened MinimaxProperties
  import opened AlphaBeta

  /** Every move tried below the horizon either mates or reaches a position
      that is no stalemate and, recursively, has the same property. */
  ghost predicate NoStalemates(e: Engine, p: Position, depth: nat)
    decreases depth
  {
    depth > 0 ==> forall m :: m in e.legalMoves(p) ==> SafeChild(e, p, depth, m)
  }

  ghost predicate SafeChild(e: Engine, p: Position, depth: nat, m: Move)
    requires depth > 0
    decreases depth, 0
  {
    var c := e.play(p, m);
    e.isCheckMate(c) || (!e.isStaleMate(c) && NoStalemates(e, c, depth - 1))
  }

  ghost predicate Bounded(x: real)
  {
    -MaxScore <= x <= MaxScore
  }

  /** The fail-soft contract of a search with window (alpha, beta): `v` is
      the alpha-beta score, `m` the minimax score. */
  ghost predicate FailSoft(v: real, m: real, alpha: real, beta: real)
  {
    && (v < alpha ==> m <= v)
    && (v > beta ==> v <= m)
    && (alpha <= v <= beta ==> m == v)
  }

  /** The alpha-beta search keeps the fail-soft contract for every window
      within the sentinels. */
  lemma {:induction false} ABSearchFailSoft(e: Engine, eval: Evaluator, p: Position, depth: nat, alpha: real, beta: real)
    requires EvalBounded(eval) && NoStalemates(e, p, depth)
    requires -MaxScore <= alpha <= beta <= MaxScore
    ensures var v := ABSearch(e, eval, p, depth, alpha, beta).score;
      Bounded(v) && FailSoft(v, SearchValue(e, eval, p, depth).score, alpha, beta)
    decreases depth, 2
  {
    var ms := e.legalMoves(p);
    if p.turn == White {
      var acc := Choice(NullMove, -MaxScore);
      if depth == 0 {
        MaxLeafFailSoft(e, eval, p, ms, alpha, beta, acc);
      } else {
        ABMaxScanFailSoft(e, eval, p, depth, ms, alpha, alpha, beta, acc, acc);
      }
    } else if p.turn == Black {
      var acc := Choice(NullMove, MaxScore);
      if depth == 0 {
        MinLeafFailSoft(e, eval, p, ms, alpha, beta, acc);
      } else {
        ABMinScanFailSoft(e, eval, p, depth, ms, alpha, beta, beta, acc, acc);
      }
    }
  }

  /** At the horizon the loop of `max` agrees with minimax until it is cut,
      and it is cut only above `beta`. */
  lemma {:induction false} MaxLeafFailSoft(e: Engine, eval: Evaluator, p: Position, ms: seq<Move>, alpha: real, beta: real, acc: Choice)
    requires EvalBounded(eval) && Bounded(acc.score) && acc.score <= beta
    ensures var v := ABMaxScan(e, eval, p, 0, ms, alpha, beta, acc).score;
      var m := MaxScan(e, eval, p, 0, ms, acc).score;
      Bounded(v) && (v <= beta ==> m == v) && (v > beta ==> v <= m)
    decreases |ms|
  {
    if ms != [] {
      var s := eval(e.play(p, ms[0]));
      var best := if s > acc.score then Choice(ms[0], s) else acc;
      if best.score > beta {
        MaxScanNeverDrops(e, eval, p, 0, ms[1..], best);
      } else {
        MaxLeafFailSoft(e, eval, p, ms[1..], alpha, beta, best);
      }
    }
  }

  lemma {:induction false} MinLeafFailSoft(e: Engine, eval: Evaluator, p: Position, ms: seq<Move>, alpha: real, beta: real, acc: Choice)
    requires EvalBounded(eval) && Bounded(acc.score) && alpha <= acc.score
    ensures var v := ABMinScan(e, eval, p, 0, ms, alpha, beta, acc).score;
      var m := MinScan(e, eval, p, 0, ms, acc).score;
      Bounded(v) && (alpha <= v ==> m == v) && (v < alpha ==> m <= v)
    decreases |ms|
  {
    if ms != [] {
      var s := eval(e.play(p, ms[0]));
      var best := if s < acc.score then Choice(ms[0], s) else acc;
      if best.score < alpha {
        MinScanNeverRises(e, eval, p, 0, ms[1..], best);
      } else {
        MinLeafFailSoft(e, eval, p, ms[1..], alpha, beta, best);
      }
    }
  }

  /** At the horizon the loop of `max` is the minimax loop over the first
      `c` moves: it stops at the first move after which the running best
      exceeds `beta`, or scans them all. */
  lemma {:induction false} MaxLeafScansPrefix(e: Engine, eval: Evaluator, p: Position, ms: seq<Move>, alpha: real, beta: real, acc: Choice)
    returns (c: nat)
    ensures c <= |ms|
    ensures ABMaxScan(e, eval, p, 0, ms, alpha, beta, acc) == MaxScan(e, eval, p, 0, ms[..c], acc)
    ensures c < |ms| ==> 0 < c && MaxScan(e, eval, p, 0, ms[..c], acc).score > beta
    ensures forall j :: 0 < j < c ==> MaxScan(e, eval, p, 0, ms[..j], acc).score <= beta
  {
    if ms == [] {
      return 0;
    }
    var s := eval(e.play(p, ms[0]));
    var best := if s > acc.score then Choice(ms[0], s) else acc;
    assert ms[..1][1..] == [];
    if best.score > beta {
      return 1;
    }
    var c' := MaxLeafScansPrefix(e, eval, p, ms[1..], alpha, beta, best);
    c := c' + 1;
    assert ms[..c][1..] == ms[1..][..c'];
    forall j | 0 < j < c
      ensures MaxScan(e, eval, p, 0, ms[..j], acc).score <= beta
    {
      assert ms[..j][1..] == ms[1..][..j - 1];
    }
  }

  /** The mirror of `MaxLeafScansPrefix`: `min` stops at the first move after
      which the running best is below `alpha`. */
  lemma {:induction false} MinLeafScansPrefix(e: Engine, eval: Evaluator, p: Position, ms: seq<Move>, alpha: real, beta: real, acc: Choice)
    returns (c: nat)
    ensures c <= |ms|
    ensures ABMinScan(e, eval, p, 0, ms, alpha, beta, acc) == MinScan(e, eval, p, 0, ms[..c], acc)
    ensures c < |ms| ==> 0 < c && MinScan(e, eval, p, 0, ms[..c], acc).score < alpha
    ensures forall j :: 0 < j < c ==> alpha <= MinScan(e, eval, p, 0, ms[..j], acc).score
  {
    if ms == [] {
      return 0;
    }
    var s := eval(e.play(p, ms[0]));
    var best := if s < acc.score then Choice(ms[0], s) else acc;
    assert ms[..1][1..] == [];
    if best.score < alpha {
      return 1;
    }
    var c' := MinLeafScansPrefix(e, eval, p, ms[1..], alpha, beta, best);
    c := c' + 1;
    assert ms[..c][1..] == ms[1..][..c'];
    forall j | 0 < j < c
      ensures alpha <= MinScan(e, eval, p, 0, ms[..j], acc).score
    {
      assert ms[..j][1..] == ms[1..][..j - 1];
    }
  }

  /** `max` at depth 0: among the moves it scans before the cut, the first
      whose child evaluates highest, or no move and -MaxScore. */
  lemma MaxHorizonPicksFirstBest(e: Engine, eval: Evaluator, p: Position, alpha: real, beta: real)
    returns (c: nat, k: int)
    ensures var ms := e.legalMoves(p);
      && c <= |ms| && -1 <= k < c
      && (c < |ms| ==> 0 < c && MaxScan(e, eval, p, 0, ms[..c], Choice(NullMove, -MaxScore)).score > beta)
      && IsFirstMax(LeafScores(e, eval, p, ms[..c]), -MaxScore, k)
      && ABMaxValue(e, eval, p, 0, alpha, beta)
           == if k == -1 then Choice(NullMove, -MaxScore) else Choice(ms[k], eval(e.play(p, ms[k])))
  {
    var ms := e.legalMoves(p);
    c := MaxLeafScansPrefix(e, eval, p, ms, alpha, beta, Choice(NullMove, -MaxScore));
    k := MaxLeafScan(e, eval, p, ms[..c], Choice(NullMove, -MaxScore));
  }

  /** `min` at depth 0: the mirror, with +MaxScore and the cut below `alpha`. */
  lemma MinHorizonPicksFirstBest(e: Engine, eval: Evaluator, p: Position, alpha: real, beta: real)
    returns (c: nat, k: int)
    ensures var ms := e.legalMoves(p);
      && c <= |ms| && -1 <= k < c
      && (c < |ms| ==> 0 < c && MinScan(e, eval, p, 0, ms[..c], Choice(NullMove, MaxScore)).score < alpha)
      && IsFirstMin(LeafScores(e, eval, p, ms[..c]), MaxScore, k)
      && ABMinValue(e, eval, p, 0, alpha, beta)
           == if k == -1 then Choice(NullMove, MaxScore) else Choice(ms[k], eval(e.play(p, ms[k])))
  {
    var ms := e.legalMoves(p);
    c := MinLeafScansPrefix(e, eval, p, ms, alpha, beta, Choice(NullMove, MaxScore));
    k := MinLeafScan(e, eval, p, ms[..c], Choice(NullMove, MaxScore));
  }

  /** Below the horizon: `acc` is the alpha-beta running best, `mmAcc` the
      minimax one, `alpha0` the window's lower end as passed in and `alpha`
      its current value. */
  lemma {:induction false} ABMaxScanFailSoft(e: Engine, eval: Evaluator, p: Position, depth: nat, ms: seq<Move>,
                                             alpha0: real, alpha: real, beta: real, acc: Choice, mmAcc: Choice)
    requires depth > 0 && EvalBounded(eval)
    requires forall m :: m in ms ==> SafeChild(e, p, depth, m)
    requires -MaxScore <= alpha0 <= beta <= MaxScore
    requires Bounded(acc.score) && acc.score <= beta
    requires alpha == if acc.score > alpha0 then acc.score else alpha0
    requires Bounded(mmAcc.score)
    requires acc.score < alpha0 ==> mmAcc.score <= acc.score
    requires alpha0 <= acc.score ==> mmAcc.score == acc.score
    ensures var v := ABMaxScan(e, eval, p, depth, ms, alpha, beta, acc).score;
      Bounded(v) && FailSoft(v, MaxScan(e, eval, p, depth, ms, mmAcc).score, alpha0, beta)
    decreases depth, 0, |ms|
  {
    if ms != [] {
      var m := ms[0];
      var c := e.play(p, m);
      assert m in ms;
      if !e.isCheckMate(c) {
        ABSearchFailSoft(e, eval, c, depth - 1, alpha, beta);
        SearchValueBounded(e, eval, c, depth - 1);
        var s := ABSearch(e, eval, c, depth - 1, alpha, beta).score;
        var t := SearchValue(e, eval, c, depth - 1).score;
        var best := if s > acc.score then Choice(m, s) else acc;
        var mmBest := if t > mmAcc.score then Choice(m, t) else mmAcc;
        if best.score > beta {
          MaxScanNeverDrops(e, eval, p, depth, ms[1..], mmBest);
        } else {
          assert forall m' :: m' in ms[1..] ==> m' in ms;
          ABMaxScanFailSoft(e, eval, p, depth, ms[1..], alpha0, if best.score > alpha then best.score else alpha, beta, best, mmBest);
        }
      }
    }
  }

  lemma {:induction false} ABMinScanFailSoft(e: Engine, eval: Evaluator, p: Position, depth: nat, ms: seq<Move>,
                                             alpha: real, beta0: real, beta: real, acc: Choice, mmAcc: Choice)
    requires depth > 0 && EvalBounded(eval)
    requires forall m :: m in ms ==> SafeChild(e, p, depth, m)
    requires -MaxScore <= alpha <= beta0 <= MaxScore
    requires Bounded(acc.score) && alpha <= acc.score
    requires beta == if acc.score < beta0 then acc.score else beta0
    requires Bounded(mmAcc.score)
    requires beta0 < acc.score ==> acc.score <= mmAcc.score
    requires acc.score <= beta0 ==> mmAcc.score == acc.score
    ensures var v := ABMinScan(e, eval, p, depth, ms, alpha, beta, acc).score;
      Bounded(v) && FailSoft(v, MinScan(e, eval, p, depth, ms, mmAcc).score, alpha, beta0)
    decreases depth, 0, |ms|
  {
    if ms != [] {
      var m := ms[0];
      var c := e.play(p, m);
      assert m in ms;
      if !e.isCheckMate(c) {
        ABSearchFailSoft(e, eval, c, depth - 1, alpha, beta);
        SearchValueBounded(e, eval, c, depth - 1);
        var s := ABSearch(e, eval, c, depth - 1, alpha, beta).score;
        var t := SearchValue(e, eval, c, depth - 1).score;
        var best := if s < acc.score then Choice(m, s) else acc;
        var mmBest := if t < mmAcc.score then Choice(m, t) else mmAcc;
        if best.score < alpha {
          MinScanNeverRises(e, eval, p, depth, ms[1..], mmBest);
        } else {
          assert forall m' :: m' in ms[1..] ==> m' in ms;
          ABMinScanFailSoft(e, eval, p, depth, ms[1..], alpha, beta0, if best.score < beta then best.score else beta, best, mmBest);
        }
      }
    }
  }

  /** With the widest window nothing is ever cut at the root: the loop of
      `max` there makes the same choices as the loop of minimax. */
  lemma {:induction false} ABMaxRootScan(e: Engine, eval: Evaluator, p: Position, depth: nat, ms: seq<Move>, alpha: real, acc: Choice)
    requires EvalBounded(eval) && Bounded(acc.score)
    requires depth > 0 ==> forall m :: m in ms ==> SafeChild(e, p, depth, m)
    requires depth > 0 ==> alpha == if acc.score > -MaxScore then acc.score else -MaxScore
    ensures ABMaxScan(e, eval, p, depth, ms, alpha, MaxScore, acc) == MaxScan(e, eval, p, depth, ms, acc)
    decreases |ms|
  {
    if ms != [] {
      var m := ms[0];
      var c := e.play(p, m);
      assert forall m' :: m' in ms[1..] ==> m' in ms;
      if depth == 0 {
        var s := eval(c);
        ABMaxRootScan(e, eval, p, depth, ms[1..], alpha, if s > acc.score then Choice(m, s) else acc);
      } else {
        assert m in ms;
        if !e.isCheckMate(c) {
          ABSearchFailSoft(e, eval, c, depth - 1, alpha, MaxScore);
          var s := ABSearch(e, eval, c, depth - 1, alpha, MaxScore).score;
          var best := if s > acc.score then Choice(m, s) else acc;
          ABMaxRootScan(e, eval, p, depth, ms[1..], if best.score > alpha then best.score else alpha, best);
        }
      }
    }
  }

  lemma {:induction false} ABMinRootScan(e: Engine, eval: Evaluator, p: Position, depth: nat, ms: seq<Move>, beta: real, acc: Choice)
    requires EvalBounded(eval) && Bounded(acc.score)
    requires depth > 0 ==> forall m :: m in ms ==> SafeChild(e, p, depth, m)
    requires depth > 0 ==> beta == if acc.score < MaxScore then acc.score else MaxScore
    ensures ABMinScan(e, eval, p, depth, ms, -MaxScore, beta, acc) == MinScan(e, eval, p, depth, ms, acc)
    decreases |ms|
  {
    if ms != [] {
      var m := ms[0];
      var c := e.play(p, m);
      assert forall m' :: m' in ms[1..] ==> m' in ms;
      if depth == 0 {
        var s := eval(c);
        ABMinRootScan(e, eval, p, depth, ms[1..], beta, if s < acc.score then Choice(m, s) else acc);
      } else {
        assert m in ms;
        if !e.isCheckMate(c) {
          ABSearchFailSoft(e, eval, c, depth - 1, -MaxScore, beta);
          var s := ABSearch(e, eval, c, depth - 1, -MaxScore, beta).score;
          var best := if s < acc.score then Choice(m, s) else acc;
          ABMinRootScan(e, eval, p, depth, ms[1..], if best.score < beta then best.score else beta, best);
        }
      }
    }
  }

  /** `GetMove` of the alpha-beta agent returns the move, and finds the
      score, of the minimax search with the same evaluator and depth. */
  lemma ABAgreesWithMinimax(e: Engine, eval: Evaluator, p: Position, depth: nat)
    requires EvalBounded(eval) && NoStalemates(e, p, depth)
    ensures ABSearch(e, eval, p, depth, -MaxScore, MaxScore) == SearchValue(e, eval, p, depth)
  {
    if p.turn == White {
      ABMaxRootScan(e, eval, p, depth, e.legalMoves(p), -MaxScore, Choice(NullMove, -MaxScore));
    } else if p.turn == Black {
      ABMinRootScan(e, eval, p, depth, e.legalMoves(p), MaxScore, Choice(NullMove, MaxScore));
    }
  }

  /** A small game on which the two agents differ once a stalemate lies
      below the horizon.  Its positions are told apart by the length of
      their board alone, and each move names the position it leads to. */
  function Numbered(n: nat, turn: Color, d: Details): Position
  {
    Position(seq(n, _ => Piece(NoPieceType, NoColor)), turn, d)
  }

  function To(n: nat): Move
  {
    Move(NoSquare, Square(n, 0), NoPieceType)
  }

  function Opponent(c: Color): Color
  {
    if c == White then Black else if c == Black then White else NoColor
  }

  /** White at 0 chooses 1 or 4; 1, 2 and 3 lead in turn to the leaf 10;
      Black at 4 chooses 5 (then 6 and the leaf 11) or 7; White at 7
      chooses 8 (Black then picks the leaf 12 or 13) or 9, where Black is
      stalemated. */
  function WitnessMoves(q: Position): seq<Move>
  {
    var n := |q.board|;
    if n == 0 then [To(1), To(4)]
    else if n == 1 then [To(2)]
    else if n == 2 then [To(3)]
    else if n == 3 then [To(10)]
    else if n == 4 then [To(5), To(7)]
    else if n == 5 then [To(6)]
    else if n == 6 then [To(11)]
    else if n == 7 then [To(8), To(9)]
    else if n == 8 then [To(12), To(13)]
    else []
  }

  function WitnessPlay(q: Position, m: Move): Position
  {
    Numbered(if m.to.Square? && m.to.file >= 0 then m.to.file else 0, Opponent(q.turn), q.details)
  }

  /** The leaves 10, 11, 12 and 13 are worth 5, 7, 1 and -2. */
  function WitnessEval(q: Position): real
  {
    var n := |q.board|;
    if n == 10 then 5.0 else if n == 11 then 7.0 else if n == 12 then 1.0 else if n == 13 then -2.0 else 0.0
  }

  /** Nothing is checkmate; a position without moves is a stalemate. */
  function WitnessEngine(): Engine
  {
    Engine(WitnessMoves, _ => [], WitnessPlay, _ => false, q => WitnessMoves(q) == [],
           (q, sq) => Piece(NoPieceType, NoColor), [])
  }

  /** The witness meets the engine hypotheses of `ABAgreesWithMinimax`. */
  lemma WitnessIsSound()
    ensures EvalBounded(WitnessEval)
    ensures StalemateIsStuck(WitnessEngine()) && StuckIsTerminal(WitnessEngine())
  {
    var e := WitnessEngine();
    forall q ensures -MaxScore <= WitnessEval(q) <= MaxScore { }
    forall q ensures e.isStaleMate(q) <==> e.legalMoves(q) == [] { }
  }

  /** Minimax, from the leaves up: Black's 7 is worth the draw at 9, so 4 is
      worth 0 and White plays 1. */
  lemma WitnessMinimax(d: Details)
    ensures SearchValue(WitnessEngine(), WitnessEval, Numbered(0, White, d), 3) == Choice(To(1), 5.0)
  {
    var e := WitnessEngine();
    var ev := WitnessEval;
    assert SearchValue(e, ev, Numbered(3, Black, d), 0) == Choice(To(10), 5.0);
    assert SearchValue(e, ev, Numbered(2, White, d), 1) == Choice(To(3), 5.0);
    assert SearchValue(e, ev, Numbered(1, Black, d), 2) == Choice(To(2), 5.0);
    assert SearchValue(e, ev, Numbered(6, Black, d), 0) == Choice(To(11), 7.0);
    assert SearchValue(e, ev, Numbered(5, White, d), 1) == Choice(To(6), 7.0);
    assert [To(12), To(13)][1..] == [To(13)];
    assert MinScan(e, ev, Numbered(8, Black, d), 0, [To(13)], Choice(To(12), 1.0)) == Choice(To(13), -2.0);
    assert SearchValue(e, ev, Numbered(8, Black, d), 0) == Choice(To(13), -2.0);
    assert [To(8), To(9)][1..] == [To(9)];
    assert e.isStaleMate(Numbered(9, Black, d));
    assert MaxScan(e, ev, Numbered(7, White, d), 1, [To(9)], Choice(To(8), -2.0)) == Choice(To(9), 0.0);
    assert SearchValue(e, ev, Numbered(7, White, d), 1) == Choice(To(9), 0.0);
    assert [To(5), To(7)][1..] == [To(7)];
    assert MinScan(e, ev, Numbered(4, Black, d), 2, [To(7)], Choice(To(5), 7.0)) == Choice(To(7), 0.0);
    assert SearchValue(e, ev, Numbered(4, Black, d), 2) == Choice(To(7), 0.0);
    assert [To(1), To(4)][1..] == [To(4)];
    assert MaxScan(e, ev, Numbered(0, White, d), 3, [To(4)], Choice(To(1), 5.0)) == Choice(To(1), 5.0);
  }

  /** Alpha-beta: at 8 the leaf 12 falls below alpha (5) and cuts the
      search, so White's running best at 7 is 1, the stalemate at 9 is
      searched and scores +MaxScore; 7 is then no better than 5 for Black,
      4 is worth 7 and White plays it. */
  lemma WitnessAlphaBeta(d: Details)
    ensures ABSearch(WitnessEngine(), WitnessEval, Numbered(0, White, d), 3, -MaxScore, MaxScore) == Choice(To(4), 7.0)
  {
    var e := WitnessEngine();
    var ev := WitnessEval;
    var M := MaxScore;
    assert ABSearch(e, ev, Numbered(3, Black, d), 0, -M, M) == Choice(To(10), 5.0);
    assert ABSearch(e, ev, Numbered(2, White, d), 1, -M, M) == Choice(To(3), 5.0);
    assert ABSearch(e, ev, Numbered(1, Black, d), 2, -M, M) == Choice(To(2), 5.0);
    assert ABSearch(e, ev, Numbered(6, Black, d), 0, 5.0, M) == Choice(To(11), 7.0);
    assert ABSearch(e, ev, Numbered(5, White, d), 1, 5.0, M) == Choice(To(6), 7.0);
    assert ABSearch(e, ev, Numbered(8, Black, d), 0, 5.0, 7.0) == Choice(To(12), 1.0);
    assert ABSearch(e, ev, Numbered(9, Black, d), 0, 5.0, 7.0) == Choice(NullMove, M);
    assert [To(8), To(9)][1..] == [To(9)];
    assert ABSearch(e, ev, Numbered(7, White, d), 1, 5.0, 7.0) == Choice(To(9), M);
    assert [To(5), To(7)][1..] == [To(7)];
    assert ABMinScan(e, ev, Numbered(4, Black, d), 2, [To(7)], 5.0, 7.0, Choice(To(5), 7.0)) == Choice(To(5), 7.0);
    assert ABSearch(e, ev, Numbered(4, Black, d), 2, 5.0, M) == Choice(To(5), 7.0);
    assert [To(1), To(4)][1..] == [To(4)];
    assert ABMaxScan(e, ev, Numbered(0, White, d), 3, [To(4)], 5.0, M, Choice(To(1), 5.0)) == Choice(To(4), 7.0);
  }

  /** The stalemate at 9 lies two moves below the root. */
  lemma WitnessHasStalemate(d: Details)
    ensures !NoStalemates(WitnessEngine(), Numbered(0, White, d), 3)
  {
    var e := WitnessEngine();
    assert To(9) in e.legalMoves(Numbered(7, White, d));
    assert !SafeChild(e, Numbered(7, White, d), 1, To(9));
    assert To(7) in e.legalMoves(Numbered(4, Black, d));
    assert !SafeChild(e, Numbered(4, Black, d), 2, To(7));
    assert To(4) in e.legalMoves(Numbered(0, White, d));
  }

  /** Without the no-stalemate hypothesis the agents can disagree: on the
      witness game, whose evaluation is bounded and whose stalemates are
      stuck, minimax plays 1 for 5 and alpha-beta plays 4 for 7. */
  lemma ABDisagreesWithMinimax(d: Details)
    ensures var e := WitnessEngine(); var p := Numbered(0, White, d);
      && EvalBounded(WitnessEval) && StalemateIsStuck(e) && StuckIsTerminal(e)
      && !NoStalemates(e, p, 3)
      && SearchValue(e, WitnessEval, p, 3) == Choice(To(1), 5.0)
      && ABSearch(e, WitnessEval, p, 3, -MaxScore, MaxScore) == Choice(To(4), 7.0)
  {
    WitnessIsSound();
    WitnessHasStalemate(d);
    WitnessMinimax(d);
    WitnessAlphaBeta(d);
  }
}
