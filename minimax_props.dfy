/** What the minimax recursion computes, for any evaluator: the earliest
    strictly best child at the horizon, the first mating move deeper, the
    running best as the maximum (minimum) of what was seen, the bounds of the
    scores, and how a stalemating move is scored. */
module MinimaxProperties {
  import opened Chess
  import opened Scores
  import opened Minimax

  /** The evaluations of the children reached by `ms`, in order. */
  function LeafScores(e: Engine, eval: Evaluator, p: Position, ms: seq<Move>): (s: seq<real>)
    ensures |s| == |ms|
    ensures forall j :: 0 <= j < |ms| ==> s[j] == eval(e.play(p, ms[j]))
  {
    seq(|ms|, j requires 0 <= j < |ms| => eval(e.play(p, ms[j])))
  }

  /** At the horizon the loop of `max` keeps the first child with the
      greatest evaluation, provided it beats the running best. */
  lemma {:induction false} MaxLeafScan(e: Engine, eval: Evaluator, p: Position, ms: seq<Move>, acc: Choice) returns (k: int)
    ensures -1 <= k < |ms|
    ensures IsFirstMax(LeafScores(e, eval, p, ms), acc.score, k)
    ensures MaxScan(e, eval, p, 0, ms, acc) == if k == -1 then acc else Choice(ms[k], eval(e.play(p, ms[k])))
    decreases |ms|
  {
    if ms == [] {
      return -1;
    }
    var s := LeafScores(e, eval, p, ms);
    var rest := LeafScores(e, eval, p, ms[1..]);
    assert s[1..] == rest;
    var x := s[0];
    if x > acc.score {
      var k' := MaxLeafScan(e, eval, p, ms[1..], Choice(ms[0], x));
      k := if k' == -1 then 0 else k' + 1;
    } else {
      var k' := MaxLeafScan(e, eval, p, ms[1..], acc);
      k := if k' == -1 then -1 else k' + 1;
    }
  }

  lemma {:induction false} MinLeafScan(e: Engine, eval: Evaluator, p: Position, ms: seq<Move>, acc: Choice) returns (k: int)
    ensures -1 <= k < |ms|
    ensures IsFirstMin(LeafScores(e, eval, p, ms), acc.score, k)
    ensures MinScan(e, eval, p, 0, ms, acc) == if k == -1 then acc else Choice(ms[k], eval(e.play(p, ms[k])))
    decreases |ms|
  {
    if ms == [] {
      return -1;
    }
    var s := LeafScores(e, eval, p, ms);
    var rest := LeafScores(e, eval, p, ms[1..]);
    assert s[1..] == rest;
    var x := s[0];
    if x < acc.score {
      var k' := MinLeafScan(e, eval, p, ms[1..], Choice(ms[0], x));
      k := if k' == -1 then 0 else k' + 1;
    } else {
      var k' := MinLeafScan(e, eval, p, ms[1..], acc);
      k := if k' == -1 then -1 else k' + 1;
    }
  }

  /** `max` at depth 0 returns the first legal move whose child evaluates
      highest, or no move and -MaxScore when no evaluation exceeds -MaxScore. */
  lemma MaxLeafPicksFirstBest(e: Engine, eval: Evaluator, p: Position) returns (k: int)
    ensures var ms := e.legalMoves(p);
      && -1 <= k < |ms|
      && IsFirstMax(LeafScores(e, eval, p, ms), -MaxScore, k)
      && MaxValue(e, eval, p, 0) == if k == -1 then Choice(NullMove, -MaxScore) else Choice(ms[k], eval(e.play(p, ms[k])))
  {
    k := MaxLeafScan(e, eval, p, e.legalMoves(p), Choice(NullMove, -MaxScore));
  }

  /** `min` at depth 0 returns the first legal move whose child evaluates
      lowest, or no move and +MaxScore when no evaluation is below +MaxScore. */
  lemma MinLeafPicksFirstBest(e: Engine, eval: Evaluator, p: Position) returns (k: int)
    ensures var ms := e.legalMoves(p);
      && -1 <= k < |ms|
      && IsFirstMin(LeafScores(e, eval, p, ms), MaxScore, k)
      && MinValue(e, eval, p, 0) == if k == -1 then Choice(NullMove, MaxScore) else Choice(ms[k], eval(e.play(p, ms[k])))
  {
    k := MinLeafScan(e, eval, p, e.legalMoves(p), Choice(NullMove, MaxScore));
  }

  /** Below the horizon, the first mating move ends the loop of `max`. */
  lemma {:induction false} MaxScanFirstMate(e: Engine, eval: Evaluator, p: Position, depth: nat, ms: seq<Move>, acc: Choice, k: nat)
    requires depth > 0 && k < |ms|
    requires e.isCheckMate(e.play(p, ms[k]))
    requires forall j :: 0 <= j < k ==> !e.isCheckMate(e.play(p, ms[j]))
    ensures MaxScan(e, eval, p, depth, ms, acc) == Choice(ms[k], MaxScore)
    decreases k
  {
    if k > 0 {
      var m := ms[0];
      var child := e.play(p, m);
      var s := SearchValue(e, eval, child, depth - 1).score;
      var next := if e.isStaleMate(child) && acc.score < 0.0 then Choice(m, 0.0)
        else if s > acc.score then Choice(m, s) else acc;
      MaxScanFirstMate(e, eval, p, depth, ms[1..], next, k - 1);
    }
  }

  lemma {:induction false} MinScanFirstMate(e: Engine, eval: Evaluator, p: Position, depth: nat, ms: seq<Move>, acc: Choice, k: nat)
    requires depth > 0 && k < |ms|
    requires e.isCheckMate(e.play(p, ms[k]))
    requires forall j :: 0 <= j < k ==> !e.isCheckMate(e.play(p, ms[j]))
    ensures MinScan(e, eval, p, depth, ms, acc) == Choice(ms[k], -MaxScore)
    decreases k
  {
    if k > 0 {
      var m := ms[0];
      var child := e.play(p, m);
      var s := SearchValue(e, eval, child, depth - 1).score;
      var next := if e.isStaleMate(child) && acc.score > 0.0 then Choice(m, 0.0)
        else if s < acc.score then Choice(m, s) else acc;
      MinScanFirstMate(e, eval, p, depth, ms[1..], next, k - 1);
    }
  }

  /** `max` below the horizon returns the first legal move that checkmates,
      scored +MaxScore, whatever comes before or after it. */
  lemma MaxPlaysFirstMate(e: Engine, eval: Evaluator, p: Position, depth: nat, k: nat)
    requires depth > 0 && k < |e.legalMoves(p)|
    requires e.isCheckMate(e.play(p, e.legalMoves(p)[k]))
    requires forall j :: 0 <= j < k ==> !e.isCheckMate(e.play(p, e.legalMoves(p)[j]))
    ensures MaxValue(e, eval, p, depth) == Choice(e.legalMoves(p)[k], MaxScore)
  {
    MaxScanFirstMate(e, eval, p, depth, e.legalMoves(p), Choice(NullMove, -MaxScore), k);
  }

  /** `min` below the horizon returns the first legal move that checkmates,
      scored -MaxScore. */
  lemma MinPlaysFirstMate(e: Engine, eval: Evaluator, p: Position, depth: nat, k: nat)
    requires depth > 0 && k < |e.legalMoves(p)|
    requires e.isCheckMate(e.play(p, e.legalMoves(p)[k]))
    requires forall j :: 0 <= j < k ==> !e.isCheckMate(e.play(p, e.legalMoves(p)[j]))
    ensures MinValue(e, eval, p, depth) == Choice(e.legalMoves(p)[k], -MaxScore)
  {
    MinScanFirstMate(e, eval, p, depth, e.legalMoves(p), Choice(NullMove, MaxScore), k);
  }

  /** The value `max` gives the child reached by `m` when that child is
      searched rather than taken as a mate or a draw. */
  function ChildValue(e: Engine, eval: Evaluator, p: Position, depth: nat, m: Move): real
    requires depth > 0
  {
    SearchValue(e, eval, e.play(p, m), depth - 1).score
  }

  /** The searched values of the children reached by `ms`, in order. */
  function ChildValues(e: Engine, eval: Evaluator, p: Position, depth: nat, ms: seq<Move>): (s: seq<real>)
    requires depth > 0
    ensures |s| == |ms|
    ensures forall j :: 0 <= j < |ms| ==> s[j] == ChildValue(e, eval, p, depth, ms[j])
  {
    seq(|ms|, j requires 0 <= j < |ms| => ChildValue(e, eval, p, depth, ms[j]))
  }

  /** No move of `ms` reaches a checkmate or a stalemate, so below the
      horizon every child is searched. */
  ghost predicate AllSearched(e: Engine, p: Position, ms: seq<Move>)
  {
    forall j :: 0 <= j < |ms| ==> !e.isCheckMate(e.play(p, ms[j])) && !e.isStaleMate(e.play(p, ms[j]))
  }

  /** Below the horizon, when every child is searched, the loop of `max`
      keeps the first child of greatest searched value, provided it beats
      the running best: ties go to the earlier move. */
  lemma {:induction false} MaxSearchedScan(e: Engine, eval: Evaluator, p: Position, depth: nat, ms: seq<Move>, acc: Choice)
    returns (k: int)
    requires depth > 0 && AllSearched(e, p, ms)
    ensures -1 <= k < |ms|
    ensures IsFirstMax(ChildValues(e, eval, p, depth, ms), acc.score, k)
    ensures MaxScan(e, eval, p, depth, ms, acc) == if k == -1 then acc else Choice(ms[k], ChildValue(e, eval, p, depth, ms[k]))
    decreases |ms|
  {
    if ms == [] {
      return -1;
    }
    var s := ChildValues(e, eval, p, depth, ms);
    assert s[1..] == ChildValues(e, eval, p, depth, ms[1..]);
    var x := s[0];
    if x > acc.score {
      var k' := MaxSearchedScan(e, eval, p, depth, ms[1..], Choice(ms[0], x));
      k := if k' == -1 then 0 else k' + 1;
    } else {
      var k' := MaxSearchedScan(e, eval, p, depth, ms[1..], acc);
      k := if k' == -1 then -1 else k' + 1;
    }
  }

  lemma {:induction false} MinSearchedScan(e: Engine, eval: Evaluator, p: Position, depth: nat, ms: seq<Move>, acc: Choice)
    returns (k: int)
    requires depth > 0 && AllSearched(e, p, ms)
    ensures -1 <= k < |ms|
    ensures IsFirstMin(ChildValues(e, eval, p, depth, ms), acc.score, k)
    ensures MinScan(e, eval, p, depth, ms, acc) == if k == -1 then acc else Choice(ms[k], ChildValue(e, eval, p, depth, ms[k]))
    decreases |ms|
  {
    if ms == [] {
      return -1;
    }
    var s := ChildValues(e, eval, p, depth, ms);
    assert s[1..] == ChildValues(e, eval, p, depth, ms[1..]);
    var x := s[0];
    if x < acc.score {
      var k' := MinSearchedScan(e, eval, p, depth, ms[1..], Choice(ms[0], x));
      k := if k' == -1 then 0 else k' + 1;
    } else {
      var k' := MinSearchedScan(e, eval, p, depth, ms[1..], acc);
      k := if k' == -1 then -1 else k' + 1;
    }
  }

  /** `max` below the horizon, when no legal move mates or stalemates,
      returns the first legal move of greatest searched value, or no move
      and -MaxScore when no value exceeds -MaxScore. */
  lemma MaxValuePicksFirstBest(e: Engine, eval: Evaluator, p: Position, depth: nat) returns (k: int)
    requires depth > 0 && AllSearched(e, p, e.legalMoves(p))
    ensures var ms := e.legalMoves(p);
      && -1 <= k < |ms|
      && IsFirstMax(ChildValues(e, eval, p, depth, ms), -MaxScore, k)
      && MaxValue(e, eval, p, depth) == if k == -1 then Choice(NullMove, -MaxScore) else Choice(ms[k], ChildValue(e, eval, p, depth, ms[k]))
  {
    k := MaxSearchedScan(e, eval, p, depth, e.legalMoves(p), Choice(NullMove, -MaxScore));
  }

  /** `min` below the horizon, when no legal move mates or stalemates,
      returns the first legal move of lowest searched value, or no move and
      +MaxScore. */
  lemma MinValuePicksFirstBest(e: Engine, eval: Evaluator, p: Position, depth: nat) returns (k: int)
    requires depth > 0 && AllSearched(e, p, e.legalMoves(p))
    ensures var ms := e.legalMoves(p);
      && -1 <= k < |ms|
      && IsFirstMin(ChildValues(e, eval, p, depth, ms), MaxScore, k)
      && MinValue(e, eval, p, depth) == if k == -1 then Choice(NullMove, MaxScore) else Choice(ms[k], ChildValue(e, eval, p, depth, ms[k]))
  {
    k := MinSearchedScan(e, eval, p, depth, e.legalMoves(p), Choice(NullMove, MaxScore));
  }

  /** `r` is what some move `ms[j]` of `max`'s loop earned (its searched
      value, or the draw score of a stalemate), and no earlier searched
      child reaches that score: on a tie the earlier move is kept. */
  ghost predicate MaxEarned(e: Engine, eval: Evaluator, p: Position, depth: nat, ms: seq<Move>, r: Choice)
    requires depth > 0
  {
    exists j :: 0 <= j < |ms| && r.move == ms[j]
      && (r.score == ChildValue(e, eval, p, depth, ms[j]) || (r.score == 0.0 && e.isStaleMate(e.play(p, ms[j]))))
      && (forall i :: 0 <= i < j && !e.isStaleMate(e.play(p, ms[i])) ==> ChildValue(e, eval, p, depth, ms[i]) < r.score)
  }

  /** The mirror for `min`: no earlier searched child is as low. */
  ghost predicate MinEarned(e: Engine, eval: Evaluator, p: Position, depth: nat, ms: seq<Move>, r: Choice)
    requires depth > 0
  {
    exists j :: 0 <= j < |ms| && r.move == ms[j]
      && (r.score == ChildValue(e, eval, p, depth, ms[j]) || (r.score == 0.0 && e.isStaleMate(e.play(p, ms[j]))))
      && (forall i :: 0 <= i < j && !e.isStaleMate(e.play(p, ms[i])) ==> r.score < ChildValue(e, eval, p, depth, ms[i]))
  }

  /** What the rest of the loop earned was earned by the whole loop when
      the first child does not reach it. */
  lemma MaxEarnedShift(e: Engine, eval: Evaluator, p: Position, depth: nat, ms: seq<Move>, r: Choice)
    requires depth > 0 && ms != [] && MaxEarned(e, eval, p, depth, ms[1..], r)
    requires !e.isStaleMate(e.play(p, ms[0])) ==> ChildValue(e, eval, p, depth, ms[0]) < r.score
    ensures MaxEarned(e, eval, p, depth, ms, r)
  {
    var j :| 0 <= j < |ms[1..]| && r.move == ms[1..][j]
      && (r.score == ChildValue(e, eval, p, depth, ms[1..][j]) || (r.score == 0.0 && e.isStaleMate(e.play(p, ms[1..][j]))))
      && (forall i :: 0 <= i < j && !e.isStaleMate(e.play(p, ms[1..][i])) ==> ChildValue(e, eval, p, depth, ms[1..][i]) < r.score);
    assert ms[j + 1] == ms[1..][j];
    forall i | 0 <= i < j + 1 && !e.isStaleMate(e.play(p, ms[i]))
      ensures ChildValue(e, eval, p, depth, ms[i]) < r.score
    {
      if i > 0 {
        assert ms[i] == ms[1..][i - 1];
      }
    }
  }

  lemma MinEarnedShift(e: Engine, eval: Evaluator, p: Position, depth: nat, ms: seq<Move>, r: Choice)
    requires depth > 0 && ms != [] && MinEarned(e, eval, p, depth, ms[1..], r)
    requires !e.isStaleMate(e.play(p, ms[0])) ==> r.score < ChildValue(e, eval, p, depth, ms[0])
    ensures MinEarned(e, eval, p, depth, ms, r)
  {
    var j :| 0 <= j < |ms[1..]| && r.move == ms[1..][j]
      && (r.score == ChildValue(e, eval, p, depth, ms[1..][j]) || (r.score == 0.0 && e.isStaleMate(e.play(p, ms[1..][j]))))
      && (forall i :: 0 <= i < j && !e.isStaleMate(e.play(p, ms[1..][i])) ==> r.score < ChildValue(e, eval, p, depth, ms[1..][i]));
    assert ms[j + 1] == ms[1..][j];
    forall i | 0 <= i < j + 1 && !e.isStaleMate(e.play(p, ms[i]))
      ensures r.score < ChildValue(e, eval, p, depth, ms[i])
    {
      if i > 0 {
        assert ms[i] == ms[1..][i - 1];
      }
    }
  }

  /** With no mating move left, the loop of `max` ends with a running best
      that is the starting one or strictly above it, at least every searched
      child's value, at least 0 when some child is a stalemate, and, unless
      it is the starting one, earned by one of the moves. */
  lemma {:induction false} MaxScanBestSeen(e: Engine, eval: Evaluator, p: Position, depth: nat, ms: seq<Move>, acc: Choice)
    requires depth > 0
    requires forall j :: 0 <= j < |ms| ==> !e.isCheckMate(e.play(p, ms[j]))
    ensures var r := MaxScan(e, eval, p, depth, ms, acc);
      && (r == acc || acc.score < r.score)
      && (forall j :: 0 <= j < |ms| && e.isStaleMate(e.play(p, ms[j])) ==> 0.0 <= r.score)
      && (forall j :: 0 <= j < |ms| && !e.isStaleMate(e.play(p, ms[j])) ==> ChildValue(e, eval, p, depth, ms[j]) <= r.score)
      && (r == acc || MaxEarned(e, eval, p, depth, ms, r))
    decreases |ms|
  {
    if ms != [] {
      var m := ms[0];
      var child := e.play(p, m);
      var s := ChildValue(e, eval, p, depth, m);
      var next := if e.isStaleMate(child) && acc.score < 0.0 then Choice(m, 0.0)
        else if s > acc.score then Choice(m, s) else acc;
      assert MaxScan(e, eval, p, depth, ms, acc) == MaxScan(e, eval, p, depth, ms[1..], next);
      MaxScanBestSeen(e, eval, p, depth, ms[1..], next);
      var r := MaxScan(e, eval, p, depth, ms, acc);
      if r != next {
        MaxEarnedShift(e, eval, p, depth, ms, r);
      } else if r != acc {
        assert r.move == ms[0];
      }
    }
  }

  lemma {:induction false} MinScanBestSeen(e: Engine, eval: Evaluator, p: Position, depth: nat, ms: seq<Move>, acc: Choice)
    requires depth > 0
    requires forall j :: 0 <= j < |ms| ==> !e.isCheckMate(e.play(p, ms[j]))
    ensures var r := MinScan(e, eval, p, depth, ms, acc);
      && (r == acc || r.score < acc.score)
      && (forall j :: 0 <= j < |ms| && e.isStaleMate(e.play(p, ms[j])) ==> r.score <= 0.0)
      && (forall j :: 0 <= j < |ms| && !e.isStaleMate(e.play(p, ms[j])) ==> r.score <= ChildValue(e, eval, p, depth, ms[j]))
      && (r == acc || MinEarned(e, eval, p, depth, ms, r))
    decreases |ms|
  {
    if ms != [] {
      var m := ms[0];
      var child := e.play(p, m);
      var s := ChildValue(e, eval, p, depth, m);
      var next := if e.isStaleMate(child) && acc.score > 0.0 then Choice(m, 0.0)
        else if s < acc.score then Choice(m, s) else acc;
      assert MinScan(e, eval, p, depth, ms, acc) == MinScan(e, eval, p, depth, ms[1..], next);
      MinScanBestSeen(e, eval, p, depth, ms[1..], next);
      var r := MinScan(e, eval, p, depth, ms, acc);
      if r != next {
        MinEarnedShift(e, eval, p, depth, ms, r);
      } else if r != acc {
        assert r.move == ms[0];
      }
    }
  }

  /** `max` below the horizon, when no legal move mates: the score is the
      largest of the searched children's values (and 0 for a stalemate), and
      the move is the one that earned it, or no move at -MaxScore. */
  lemma MaxValueIsBestSeen(e: Engine, eval: Evaluator, p: Position, depth: nat)
    requires depth > 0
    requires forall j :: 0 <= j < |e.legalMoves(p)| ==> !e.isCheckMate(e.play(p, e.legalMoves(p)[j]))
    ensures var ms := e.legalMoves(p); var r := MaxValue(e, eval, p, depth);
      && -MaxScore <= r.score
      && (forall j :: 0 <= j < |ms| && e.isStaleMate(e.play(p, ms[j])) ==> 0.0 <= r.score)
      && (forall j :: 0 <= j < |ms| && !e.isStaleMate(e.play(p, ms[j])) ==> ChildValue(e, eval, p, depth, ms[j]) <= r.score)
      && (r == Choice(NullMove, -MaxScore) || MaxEarned(e, eval, p, depth, ms, r))
  {
    MaxScanBestSeen(e, eval, p, depth, e.legalMoves(p), Choice(NullMove, -MaxScore));
  }

  lemma MinValueIsBestSeen(e: Engine, eval: Evaluator, p: Position, depth: nat)
    requires depth > 0
    requires forall j :: 0 <= j < |e.legalMoves(p)| ==> !e.isCheckMate(e.play(p, e.legalMoves(p)[j]))
    ensures var ms := e.legalMoves(p); var r := MinValue(e, eval, p, depth);
      && r.score <= MaxScore
      && (forall j :: 0 <= j < |ms| && e.isStaleMate(e.play(p, ms[j])) ==> r.score <= 0.0)
      && (forall j :: 0 <= j < |ms| && !e.isStaleMate(e.play(p, ms[j])) ==> r.score <= ChildValue(e, eval, p, depth, ms[j]))
      && (r == Choice(NullMove, MaxScore) || MinEarned(e, eval, p, depth, ms, r))
  {
    MinScanBestSeen(e, eval, p, depth, e.legalMoves(p), Choice(NullMove, MaxScore));
  }

  /** Every evaluation lies within the sentinels. */
  ghost predicate EvalBounded(eval: Evaluator)
  {
    forall q :: -MaxScore <= eval(q) <= MaxScore
  }

  /** With a bounded evaluator every search score is within the sentinels. */
  lemma {:induction false} SearchValueBounded(e: Engine, eval: Evaluator, p: Position, depth: nat)
    requires EvalBounded(eval)
    ensures -MaxScore <= SearchValue(e, eval, p, depth).score <= MaxScore
    decreases depth, 2
  {
    if p.turn == White {
      MaxScanBounded(e, eval, p, depth, e.legalMoves(p), Choice(NullMove, -MaxScore));
    } else if p.turn == Black {
      MinScanBounded(e, eval, p, depth, e.legalMoves(p), Choice(NullMove, MaxScore));
    }
  }

  lemma {:induction false} MaxScanBounded(e: Engine, eval: Evaluator, p: Position, depth: nat, ms: seq<Move>, acc: Choice)
    requires EvalBounded(eval) && -MaxScore <= acc.score <= MaxScore
    ensures -MaxScore <= MaxScan(e, eval, p, depth, ms, acc).score <= MaxScore
    decreases depth, 0, |ms|
  {
    if ms != [] {
      var m := ms[0];
      var child := e.play(p, m);
      if depth == 0 {
        var s := eval(child);
        MaxScanBounded(e, eval, p, depth, ms[1..], if s > acc.score then Choice(m, s) else acc);
      } else if !e.isCheckMate(child) {
        if e.isStaleMate(child) && acc.score < 0.0 {
          MaxScanBounded(e, eval, p, depth, ms[1..], Choice(m, 0.0));
        } else {
          SearchValueBounded(e, eval, child, depth - 1);
          var s := SearchValue(e, eval, child, depth - 1).score;
          MaxScanBounded(e, eval, p, depth, ms[1..], if s > acc.score then Choice(m, s) else acc);
        }
      }
    }
  }

  lemma {:induction false} MinScanBounded(e: Engine, eval: Evaluator, p: Position, depth: nat, ms: seq<Move>, acc: Choice)
    requires EvalBounded(eval) && -MaxScore <= acc.score <= MaxScore
    ensures -MaxScore <= MinScan(e, eval, p, depth, ms, acc).score <= MaxScore
    decreases depth, 0, |ms|
  {
    if ms != [] {
      var m := ms[0];
      var child := e.play(p, m);
      if depth == 0 {
        var s := eval(child);
        MinScanBounded(e, eval, p, depth, ms[1..], if s < acc.score then Choice(m, s) else acc);
      } else if !e.isCheckMate(child) {
        if e.isStaleMate(child) && acc.score > 0.0 {
          MinScanBounded(e, eval, p, depth, ms[1..], Choice(m, 0.0));
        } else {
          SearchValueBounded(e, eval, child, depth - 1);
          var s := SearchValue(e, eval, child, depth - 1).score;
          MinScanBounded(e, eval, p, depth, ms[1..], if s < acc.score then Choice(m, s) else acc);
        }
      }
    }
  }

  /** The loop of `max` never ends below where it started, unless it ends
      on a mate, which scores exactly +MaxScore. */
  lemma {:induction false} MaxScanNeverDrops(e: Engine, eval: Evaluator, p: Position, depth: nat, ms: seq<Move>, acc: Choice)
    ensures var r := MaxScan(e, eval, p, depth, ms, acc).score; acc.score <= r || r == MaxScore
    decreases |ms|
  {
    if ms != [] {
      var m := ms[0];
      var child := e.play(p, m);
      if depth == 0 {
        var s := eval(child);
        MaxScanNeverDrops(e, eval, p, depth, ms[1..], if s > acc.score then Choice(m, s) else acc);
      } else if !e.isCheckMate(child) {
        if e.isStaleMate(child) && acc.score < 0.0 {
          MaxScanNeverDrops(e, eval, p, depth, ms[1..], Choice(m, 0.0));
        } else {
          var s := SearchValue(e, eval, child, depth - 1).score;
          MaxScanNeverDrops(e, eval, p, depth, ms[1..], if s > acc.score then Choice(m, s) else acc);
        }
      }
    }
  }

  lemma {:induction false} MinScanNeverRises(e: Engine, eval: Evaluator, p: Position, depth: nat, ms: seq<Move>, acc: Choice)
    ensures var r := MinScan(e, eval, p, depth, ms, acc).score; r <= acc.score || r == -MaxScore
    decreases |ms|
  {
    if ms != [] {
      var m := ms[0];
      var child := e.play(p, m);
      if depth == 0 {
        var s := eval(child);
        MinScanNeverRises(e, eval, p, depth, ms[1..], if s < acc.score then Choice(m, s) else acc);
      } else if !e.isCheckMate(child) {
        if e.isStaleMate(child) && acc.score > 0.0 {
          MinScanNeverRises(e, eval, p, depth, ms[1..], Choice(m, 0.0));
        } else {
          var s := SearchValue(e, eval, child, depth - 1).score;
          MinScanNeverRises(e, eval, p, depth, ms[1..], if s < acc.score then Choice(m, s) else acc);
        }
      }
    }
  }

  /** A position with no legal move is scored by its side to move alone:
      -MaxScore for White, +MaxScore for Black, 0 otherwise, with no move. */
  lemma StuckSearchValue(e: Engine, eval: Evaluator, q: Position, depth: nat)
    requires e.legalMoves(q) == []
    ensures SearchValue(e, eval, q, depth) == Choice(NullMove,
      if q.turn == White then -MaxScore else if q.turn == Black then MaxScore else 0.0)
  {
    if q.turn == White {
      assert MaxValue(e, eval, q, depth) == Choice(NullMove, -MaxScore);
    } else if q.turn == Black {
      assert MinValue(e, eval, q, depth) == Choice(NullMove, MaxScore);
    }
  }

  /** A stalemating move tried by `max` while its running best is not
      negative is not scored as a draw: the stalemated Black side has no
      move, so its `min` keeps +MaxScore and the move counts as a mate. */
  lemma MaxStalemateWhileAhead(e: Engine, eval: Evaluator, p: Position, depth: nat, ms: seq<Move>, acc: Choice)
    requires StalemateIsStuck(e)
    requires depth > 0 && ms != []
    requires var c := e.play(p, ms[0]); !e.isCheckMate(c) && e.isStaleMate(c) && c.turn == Black
    requires 0.0 <= acc.score < MaxScore
    ensures MaxScan(e, eval, p, depth, ms, acc).score >= MaxScore
  {
    var c := e.play(p, ms[0]);
    StalematedSideIsStuck(e, c);
    StuckSearchValue(e, eval, c, depth - 1);
    MaxScanNeverDrops(e, eval, p, depth, ms[1..], Choice(ms[0], MaxScore));
  }

  /** The mirror: a stalemating move tried by `min` while its running best is
      not positive counts as a mate for Black. */
  lemma MinStalemateWhileAhead(e: Engine, eval: Evaluator, p: Position, depth: nat, ms: seq<Move>, acc: Choice)
    requires StalemateIsStuck(e)
    requires depth > 0 && ms != []
    requires var c := e.play(p, ms[0]); !e.isCheckMate(c) && e.isStaleMate(c) && c.turn == White
    requires -MaxScore < acc.score <= 0.0
    ensures MinScan(e, eval, p, depth, ms, acc).score <= -MaxScore
  {
    var c := e.play(p, ms[0]);
    StalematedSideIsStuck(e, c);
    StuckSearchValue(e, eval, c, depth - 1);
    MinScanNeverRises(e, eval, p, depth, ms[1..], Choice(ms[0], -MaxScore));
  }
}
