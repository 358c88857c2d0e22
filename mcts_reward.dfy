/** How the MCTS agent scores the end of a random playout: 1 when the agent
    wins, 0 when it loses, 0.5 for a draw or an undecided material balance. */
module MctsReward {
  import opened Chess
  import opened MaterialCount

  /** `randomRolloutLength`: the number of random plies of a playout. */
  const RolloutLength: nat := 20

  /** `limitForWin`: the material lead that counts as a win. */
  const LimitForWin: real := 8.0

  /** A piece's value for `getPositionValue`: like `getPieceValue`, except
      that a piece of neither colour counts 0. */
  function ColorValue(pc: Piece): (v: real)
    ensures pc.color == White ==> v == TypeValue(pc.kind)
    ensures pc.color == Black ==> v == -TypeValue(pc.kind)
    ensures pc.color == NoColor ==> v == 0.0
  {
    if pc.color == White then TypeValue(pc.kind)
    else if pc.color == Black then -TypeValue(pc.kind)
    else 0.0
  }

  /** The material balance of a board, accumulated front to back. */
  function PositionValue(board: seq<Piece>): real
  {
    if board == [] then 0.0 else PositionValue(board[..|board| - 1]) + ColorValue(board[|board| - 1])
  }

  /** `getPositionValue`. */
  method GetPositionValue(p: Position) returns (totalValue: real)
    ensures totalValue == PositionValue(p.board)
  {
    totalValue := 0.0;
    for i := 0 to |p.board|
      invariant totalValue == PositionValue(p.board[..i])
    {
      assert p.board[..i + 1][..i] == p.board[..i];
      var piece := p.board[i];
      var val := TypeValue(piece.kind);
      if piece.color == White {
        totalValue := totalValue + val;
      } else if piece.color == Black {
        totalValue := totalValue - val;
      }
    }
    assert p.board[..|p.board|] == p.board;
  }

  /** On a board where every piece has a colour this is the material count
      of the minimax and alpha-beta evaluators. */
  lemma {:induction false} PositionValueIsMaterial(board: seq<Piece>)
    requires Colored(board)
    ensures PositionValue(board) == Material(board)
  {
    if board != [] {
      PositionValueIsMaterial(board[..|board| - 1]);
    }
  }

  /** Exchanging the colours negates the balance, with no hypothesis: unlike
      `getPieceValue`, an uncoloured piece is worth nothing here. */
  lemma {:induction false} PositionValueSwap(board: seq<Piece>)
    ensures PositionValue(SwapColors(board)) == -PositionValue(board)
  {
    if board != [] {
      var n := |board| - 1;
      assert SwapColors(board)[..n] == SwapColors(board[..n]);
      PositionValueSwap(board[..n]);
    }
  }

  /** `determineReward`, as a function of the position. */
  function Reward(p: Position, agent: Color): (r: real)
    ensures agent == White ==> (r == 1.0 <==> PositionValue(p.board) > LimitForWin)
    ensures agent == White ==> (r == 0.0 <==> PositionValue(p.board) < -LimitForWin)
    ensures agent == Black ==> (r == 1.0 <==> PositionValue(p.board) < -LimitForWin)
    ensures agent == Black ==> (r == 0.0 <==> PositionValue(p.board) > LimitForWin)
    ensures agent == NoColor ==> r == 0.5
    ensures r == 0.0 || r == 0.5 || r == 1.0
  {
    var v := PositionValue(p.board);
    match agent
    case White => if v > LimitForWin then 1.0 else if v < -LimitForWin then 0.0 else 0.5
    case Black => if v > LimitForWin then 0.0 else if v < -LimitForWin then 1.0 else 0.5
    case NoColor => 0.5
  }

  /** The reward does not favour a colour: Black on the colour-swapped board
      is rewarded as White is on the original. */
  lemma RewardSymmetric(p: Position)
    ensures Reward(p.(board := SwapColors(p.board)), Black) == Reward(p, White)
  {
    PositionValueSwap(p.board);
  }

  /** `determineReward`. */
  method DetermineReward(p: Position, agentColor: Color) returns (r: real)
    ensures r == Reward(p, agentColor)
  {
    var positionValue := GetPositionValue(p);
    if agentColor == White {
      if positionValue > LimitForWin {
        return 1.0;
      }
      if positionValue < -LimitForWin {
        return 0.0;
      }
    } else if agentColor == Black {
      if positionValue > LimitForWin {
        return 0.0;
      }
      if positionValue < -LimitForWin {
        return 1.0;
      }
    }
    return 0.5;
  }

  /** The random draws of one playout: the `i`-th ply plays the legal move
      numbered `draws(i)` modulo the number of legal moves, which stands for
      `rand.IntN`; every choice of draws is allowed. */
  type Draws = nat -> nat

  /** A playout from `q` at ply `ply` of `RolloutLength`: a mate of the
      opponent is a win, a mate of the agent a loss, a position without
      moves a draw, and after the last ply the material decides. */
  function Rollout(e: Engine, q: Position, agent: Color, draws: Draws, ply: nat): (r: real)
    requires ply <= RolloutLength
    ensures r == 0.0 || r == 0.5 || r == 1.0
    decreases RolloutLength - ply
  {
    if ply == RolloutLength then Reward(q, agent)
    else if e.isCheckMate(q) && q.turn != agent then 1.0
    else if e.isCheckMate(q) && q.turn == agent then 0.0
    else if e.legalMoves(q) == [] then 0.5
    else
      var ms := e.legalMoves(q);
      Rollout(e, e.play(q, ms[draws(ply) % |ms|]), agent, draws, ply + 1)
  }

  /** `randomRollout`. */
  method RandomRollout(e: Engine, p: Position, agentColor: Color, draws: Draws) returns (r: real)
    ensures r == Rollout(e, p, agentColor, draws, 0)
  {
    var q := p;
    for i := 0 to RolloutLength
      invariant Rollout(e, q, agentColor, draws, i) == Rollout(e, p, agentColor, draws, 0)
    {
      if e.isCheckMate(q) && q.turn != agentColor {
        return 1.0;
      }
      if e.isCheckMate(q) && q.turn == agentColor {
        return 0.0;
      }
      var legalMoves := e.legalMoves(q);
      if |legalMoves| == 0 {
        return 0.5;
      }
      var move := legalMoves[draws(i) % |legalMoves|];
      q := e.play(q, move);
    }
    r := DetermineReward(q, agentColor);
  }
}
