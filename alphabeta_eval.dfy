/** The alpha-beta agent's static evaluation: material plus one fifth of a
    point per pseudo-legal check, White's checks counting up and Black's
    down. */
module AlphaBetaEvaluation {
  import opened Chess
  import opened MaterialCount

  /** The index in `squares` of the first square holding the king of colour
      `c`, or -1 when there is none. */
  function KingIndex(e: Engine, p: Position, c: Color, squares: seq<Square>): (k: int)
    ensures -1 <= k < |squares|
    ensures k >= 0 ==> e.pieceAt(p, squares[k]) == Piece(King, c)
    ensures forall j :: 0 <= j < (if k == -1 then |squares| else k) ==> e.pieceAt(p, squares[j]) != Piece(King, c)
    decreases |squares|
  {
    if squares == [] then -1
    else if e.pieceAt(p, squares[0]) == Piece(King, c) then 0
    else
      var k := KingIndex(e, p, c, squares[1..]);
      if k == -1 then -1 else k + 1
  }

  /** Where `findKing` finds the king of colour `c`: the first such square
      of the engine's square order, or `NoSquare`. */
  function KingSquare(e: Engine, p: Position, c: Color): (sq: Square)
    ensures sq == NoSquare || (sq in e.allSquares && e.pieceAt(p, sq) == Piece(King, c))
    ensures (forall s :: s in e.allSquares ==> e.pieceAt(p, s) != Piece(King, c)) ==> sq == NoSquare
  {
    var k := KingIndex(e, p, c, e.allSquares);
    if k == -1 then NoSquare else e.allSquares[k]
  }

  /** `findKing`. */
  method FindKing(e: Engine, p: Position, c: Color) returns (sq: Square)
    ensures sq == KingSquare(e, p, c)
  {
    var squares := e.allSquares;
    for i := 0 to |squares|
      invariant forall j :: 0 <= j < i ==> e.pieceAt(p, squares[j]) != Piece(King, c)
    {
      var piece := e.pieceAt(p, squares[i]);
      if piece.kind == King && piece.color == c {
        return squares[i];
      }
    }
    return NoSquare;
  }

  /** The destination squares of `ms`, in order. */
  function Destinations(ms: seq<Move>): (ds: seq<Square>)
    ensures |ds| == |ms|
    ensures forall j :: 0 <= j < |ms| ==> ds[j] == ms[j].to
  {
    seq(|ms|, j requires 0 <= j < |ms| => ms[j].to)
  }

  /** How many moves of `ms` land on `sq`, counted front to back. */
  function TargetCount(ms: seq<Move>, sq: Square): (n: nat)
    ensures n <= |ms|
  {
    if ms == [] then 0
    else TargetCount(ms[..|ms| - 1], sq) + (if ms[|ms| - 1].to == sq then 1 else 0)
  }

  /** The count is the multiplicity of `sq` among the destinations. */
  lemma {:induction false} TargetCountIsMultiplicity(ms: seq<Move>, sq: Square)
    ensures TargetCount(ms, sq) == multiset(Destinations(ms))[sq]
  {
    if ms != [] {
      var n := |ms| - 1;
      assert Destinations(ms) == Destinations(ms[..n]) + [ms[n].to];
      TargetCountIsMultiplicity(ms[..n], sq);
    }
  }

  /** `numPseudoLegalChecks`: with White to move, the pseudo-legal moves onto
      Black's king, minus, with Black to move, those onto White's king. */
  function Checks(e: Engine, p: Position): (n: int)
    ensures -|e.pseudoLegalMoves(p.(turn := Black))| <= n <= |e.pseudoLegalMoves(p.(turn := White))|
  {
    var asWhite := p.(turn := White);
    var asBlack := p.(turn := Black);
    TargetCount(e.pseudoLegalMoves(asWhite), KingSquare(e, asWhite, Black))
      - TargetCount(e.pseudoLegalMoves(asBlack), KingSquare(e, asBlack, White))
  }

  /** The count does not depend on whose turn it is. */
  lemma ChecksIgnoreTurn(e: Engine, p: Position, t: Color)
    ensures Checks(e, p.(turn := t)) == Checks(e, p)
  {
  }

  /** `numPseudoLegalChecks`: the turn is switched in place and restored. */
  method NumPseudoLegalChecks(e: Engine, p: PositionRef) returns (total: int)
    modifies p
    ensures p.value == old(p.value)
    ensures total == Checks(e, old(p.value))
  {
    var origTurn := p.value.turn;
    total := 0;
    p.value := p.value.(turn := White);
    var blackKing := FindKing(e, p.value, Black);
    var pLegalMoves := e.pseudoLegalMoves(p.value);
    for i := 0 to |pLegalMoves|
      invariant total == TargetCount(pLegalMoves[..i], blackKing)
    {
      assert pLegalMoves[..i + 1][..i] == pLegalMoves[..i];
      if pLegalMoves[i].to == blackKing {
        total := total + 1;
      }
    }
    assert pLegalMoves[..|pLegalMoves|] == pLegalMoves;
    ghost var whiteChecks := total;

    p.value := p.value.(turn := Black);
    var whiteKing := FindKing(e, p.value, White);
    pLegalMoves := e.pseudoLegalMoves(p.value);
    for i := 0 to |pLegalMoves|
      invariant total == whiteChecks - TargetCount(pLegalMoves[..i], whiteKing)
    {
      assert pLegalMoves[..i + 1][..i] == pLegalMoves[..i];
      if pLegalMoves[i].to == whiteKing {
        total := total - 1;
      }
    }
    assert pLegalMoves[..|pLegalMoves|] == pLegalMoves;

    p.value := p.value.(turn := origTurn);
  }

  /** The evaluation `evaluate` computes. */
  function Evaluation(e: Engine, p: Position): real
  {
    Material(p.board) + (Checks(e, p) as real) * 0.2
  }

  /** The evaluation does not depend on the side to move: material ignores
      it, and the check count overwrites it before generating moves. */
  lemma EvaluationIgnoresTurn(e: Engine, p: Position, t: Color)
    ensures Evaluation(e, p.(turn := t)) == Evaluation(e, p)
  {
    ChecksIgnoreTurn(e, p, t);
  }

  /** The evaluation is above the material count exactly when White has
      more pseudo-legal moves onto Black's king than Black onto White's,
      and equal to it exactly when the two counts are equal. */
  lemma CheckBonusSign(e: Engine, p: Position)
    ensures var asWhite := p.(turn := White);
      var asBlack := p.(turn := Black);
      var white := TargetCount(e.pseudoLegalMoves(asWhite), KingSquare(e, asWhite, Black));
      var black := TargetCount(e.pseudoLegalMoves(asBlack), KingSquare(e, asBlack, White));
      && (Evaluation(e, p) > Material(p.board) <==> white > black)
      && (Evaluation(e, p) == Material(p.board) <==> white == black)
  {
  }

  /** `evaluate`: the position is left as it was found. */
  method Evaluate(e: Engine, p: PositionRef) returns (total: real)
    modifies p
    ensures p.value == old(p.value)
    ensures total == Evaluation(e, old(p.value))
  {
    total := SumMaterial(p.value);
    var checks := NumPseudoLegalChecks(e, p);
    total := total + (checks as real) * 0.2;
  }
}
