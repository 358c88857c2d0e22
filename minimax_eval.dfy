/** The minimax agent's evaluator: material plus, for every square, the
    value of the capture sequence that can be played on it. */
module MinimaxEvaluation {
  import opened Chess
  import opened Scores
  import opened MaterialCount

  /** The number of occupied squares of a board. */
  function Occupied(board: seq<Piece>): nat
  {
    if board == [] then 0
    else Occupied(board[..|board| - 1]) + (if board[|board| - 1].kind == NoPieceType then 0 else 1)
  }

  /** What a sequence of moves onto `sq` uses up: a move onto the square
      either fills it while it is empty or captures the piece on it. */
  function ExchangeMeasure(e: Engine, p: Position, sq: Square): nat
  {
    Occupied(p.board) + (if e.pieceAt(p, sq).kind == NoPieceType then 1 else 0)
  }

  /** The engine property that makes `simulateAttacks` terminate: every
      legal move lowers the measure of its target square. */
  ghost predicate ExchangesEnd(e: Engine)
  {
    forall p, m :: m in e.legalMoves(p) ==> ExchangeMeasure(e, e.play(p, m), m.to) < ExchangeMeasure(e, p, m.to)
  }

  type ExchangeEngine = e: Engine | ExchangesEnd(e)
    witness Engine(p => [], p => [], (p, m) => p, p => false, p => false, (p, sq) => Piece(NoPieceType, NoColor), [])

  lemma ExchangeShrinks(e: ExchangeEngine, p: Position, m: Move)
    requires m in e.legalMoves(p)
    ensures ExchangeMeasure(e, e.play(p, m), m.to) < ExchangeMeasure(e, p, m.to)
  {
  }

  /** The signed value of the piece that makes move `m`. */
  function MoverCost(e: Engine, p: Position, m: Move): real
  {
    PieceValue(e.pieceAt(p, m.from))
  }

  /** The loop of `simulateAttacks` over the moves `ms`, from the running
      choice `acc`: White keeps the strictly cheapest move onto `sq`, Black the
      move of strictly greatest signed cost (its pieces' values being
      negative, that of its least valuable piece), any other side to move
      keeps nothing. */
  function CheapestScan(e: Engine, p: Position, sq: Square, ms: seq<Move>, acc: Choice): Choice
  {
    if ms == [] then acc
    else
      var m := ms[0];
      var cost := MoverCost(e, p, m);
      var acc' :=
        if m.to != sq then acc
        else if p.turn == White && cost < acc.score then Choice(m, cost)
        else if p.turn == Black && cost > acc.score then Choice(m, cost)
        else acc;
      CheapestScan(e, p, sq, ms[1..], acc')
  }

  /** The move `simulateAttacks` plays onto `sq` and its cost; `NullMove` when
      there is none.  The running cost starts at +MaxScore, negated for Black. */
  function Cheapest(e: Engine, p: Position, sq: Square): Choice
  {
    CheapestScan(e, p, sq, e.legalMoves(p), Choice(NullMove, if p.turn == Black then -MaxScore else MaxScore))
  }

  lemma {:induction false} CheapestScanLegal(e: Engine, p: Position, sq: Square, ms: seq<Move>, acc: Choice)
    requires acc.move == NullMove || (acc.move in e.legalMoves(p) && acc.move.to == sq)
    requires forall m :: m in ms ==> m in e.legalMoves(p)
    ensures var c := CheapestScan(e, p, sq, ms, acc);
      c.move == NullMove || (c.move in e.legalMoves(p) && c.move.to == sq)
  {
    if ms != [] {
      var m := ms[0];
      var cost := MoverCost(e, p, m);
      var acc' :=
        if m.to != sq then acc
        else if p.turn == White && cost < acc.score then Choice(m, cost)
        else if p.turn == Black && cost > acc.score then Choice(m, cost)
        else acc;
      CheapestScanLegal(e, p, sq, ms[1..], acc');
    }
  }

  /** The chosen move is a legal move onto `sq`, or none. */
  lemma CheapestLegal(e: Engine, p: Position, sq: Square)
    ensures var c := Cheapest(e, p, sq);
      c.move == NullMove || (c.move in e.legalMoves(p) && c.move.to == sq)
  {
    CheapestScanLegal(e, p, sq, e.legalMoves(p), Choice(NullMove, if p.turn == Black then -MaxScore else MaxScore));
  }

  /** `k` is the first legal move onto `sq` whose mover is strictly cheaper
      than every earlier one and no dearer than any other, among those below
      `bound`; -1 when none is below `bound`. */
  ghost predicate IsCheapest(e: Engine, p: Position, sq: Square, ms: seq<Move>, bound: real, k: int)
  {
    if k == -1 then
      forall j :: 0 <= j < |ms| && ms[j].to == sq ==> bound <= MoverCost(e, p, ms[j])
    else
      && 0 <= k < |ms| && ms[k].to == sq && MoverCost(e, p, ms[k]) < bound
      && (forall j :: 0 <= j < |ms| && ms[j].to == sq ==> MoverCost(e, p, ms[k]) <= MoverCost(e, p, ms[j]))
      && (forall j :: 0 <= j < k && ms[j].to == sq ==> MoverCost(e, p, ms[k]) < MoverCost(e, p, ms[j]))
  }

  /** The mirror of `IsCheapest`: the mover of greatest signed cost above
      `bound`. */
  ghost predicate IsCostliest(e: Engine, p: Position, sq: Square, ms: seq<Move>, bound: real, k: int)
  {
    if k == -1 then
      forall j :: 0 <= j < |ms| && ms[j].to == sq ==> MoverCost(e, p, ms[j]) <= bound
    else
      && 0 <= k < |ms| && ms[k].to == sq && bound < MoverCost(e, p, ms[k])
      && (forall j :: 0 <= j < |ms| && ms[j].to == sq ==> MoverCost(e, p, ms[j]) <= MoverCost(e, p, ms[k]))
      && (forall j :: 0 <= j < k && ms[j].to == sq ==> MoverCost(e, p, ms[j]) < MoverCost(e, p, ms[k]))
  }

  /** What the scan keeps with White to move: the cheapest mover. */
  lemma {:induction false} CheapestScanWhite(e: Engine, p: Position, sq: Square, ms: seq<Move>, acc: Choice)
    returns (k: int)
    requires p.turn == White
    ensures IsCheapest(e, p, sq, ms, acc.score, k)
    ensures CheapestScan(e, p, sq, ms, acc) == if k == -1 then acc else Choice(ms[k], MoverCost(e, p, ms[k]))
  {
    if ms == [] {
      return -1;
    }
    var m := ms[0];
    var cost := MoverCost(e, p, m);
    var rest := ms[1..];
    assert forall j :: 0 <= j < |rest| ==> rest[j] == ms[j + 1];
    var taken := m.to == sq && cost < acc.score;
    var k' := CheapestScanWhite(e, p, sq, rest, if taken then Choice(m, cost) else acc);
    k := if k' != -1 then k' + 1 else if taken then 0 else -1;
  }

  /** What the scan keeps with Black to move: the mover of greatest signed
      cost, which is Black's least valuable piece. */
  lemma {:induction false} CheapestScanBlack(e: Engine, p: Position, sq: Square, ms: seq<Move>, acc: Choice)
    returns (k: int)
    requires p.turn == Black
    ensures IsCostliest(e, p, sq, ms, acc.score, k)
    ensures CheapestScan(e, p, sq, ms, acc) == if k == -1 then acc else Choice(ms[k], MoverCost(e, p, ms[k]))
  {
    if ms == [] {
      return -1;
    }
    var m := ms[0];
    var cost := MoverCost(e, p, m);
    var rest := ms[1..];
    assert forall j :: 0 <= j < |rest| ==> rest[j] == ms[j + 1];
    var taken := m.to == sq && cost > acc.score;
    var k' := CheapestScanBlack(e, p, sq, rest, if taken then Choice(m, cost) else acc);
    k := if k' != -1 then k' + 1 else if taken then 0 else -1;
  }

  /** With neither colour to move the scan keeps nothing. */
  lemma {:induction false} CheapestScanNoColor(e: Engine, p: Position, sq: Square, ms: seq<Move>, acc: Choice)
    requires p.turn == NoColor
    ensures CheapestScan(e, p, sq, ms, acc) == acc
  {
    if ms != [] {
      CheapestScanNoColor(e, p, sq, ms[1..], acc);
    }
  }

  /** What the scan keeps, for each side to move. */
  lemma CheapestScanPicks(e: Engine, p: Position, sq: Square, ms: seq<Move>, acc: Choice)
    returns (k: int)
    ensures p.turn == White ==> IsCheapest(e, p, sq, ms, acc.score, k)
    ensures p.turn == Black ==> IsCostliest(e, p, sq, ms, acc.score, k)
    ensures p.turn == NoColor ==> k == -1
    ensures CheapestScan(e, p, sq, ms, acc) == if k == -1 then acc else Choice(ms[k], MoverCost(e, p, ms[k]))
  {
    if p.turn == White {
      k := CheapestScanWhite(e, p, sq, ms, acc);
    } else if p.turn == Black {
      k := CheapestScanBlack(e, p, sq, ms, acc);
    } else {
      CheapestScanNoColor(e, p, sq, ms, acc);
      k := -1;
    }
  }

  /** The move `simulateAttacks` chooses (minmax.go:156-183): for White the
      earliest legal move onto `sq` with the least signed mover cost, for Black
      the earliest with the greatest; none exactly when no legal move lands on
      `sq`, and none when neither colour is to move. */
  lemma CheapestPicks(e: Engine, p: Position, sq: Square) returns (k: int)
    ensures var ms := e.legalMoves(p);
      && (p.turn == White ==> IsCheapest(e, p, sq, ms, MaxScore, k))
      && (p.turn == Black ==> IsCostliest(e, p, sq, ms, -MaxScore, k))
      && (p.turn == NoColor ==> k == -1)
      && (p.turn != NoColor ==> (k == -1 <==> forall j :: 0 <= j < |ms| ==> ms[j].to != sq))
      && Cheapest(e, p, sq) ==
           if k == -1 then Choice(NullMove, if p.turn == Black then -MaxScore else MaxScore)
           else Choice(ms[k], MoverCost(e, p, ms[k]))
  {
    var ms := e.legalMoves(p);
    k := CheapestScanPicks(e, p, sq, ms, Choice(NullMove, if p.turn == Black then -MaxScore else MaxScore));
    assert forall j :: 0 <= j < |ms| ==> -10000.0 <= MoverCost(e, p, ms[j]) <= 10000.0;
  }

  /** The value `simulateAttacks` returns: zero when no move onto `sq` is
      chosen, otherwise the value after the chosen move minus the mover's cost. */
  function Exchange(e: ExchangeEngine, p: Position, sq: Square): real
    decreases ExchangeMeasure(e, p, sq)
  {
    var c := Cheapest(e, p, sq);
    if c.move == NullMove then 0.0
    else
      CheapestLegal(e, p, sq);
      ExchangeShrinks(e, p, c.move);
      Exchange(e, e.play(p, c.move), sq) - c.score
  }

  /** The position `simulateAttacks` leaves behind in its argument. */
  function ExchangeEnd(e: ExchangeEngine, p: Position, sq: Square): Position
    decreases ExchangeMeasure(e, p, sq)
  {
    var c := Cheapest(e, p, sq);
    if c.move == NullMove then p
    else
      CheapestLegal(e, p, sq);
      ExchangeShrinks(e, p, c.move);
      ExchangeEnd(e, e.play(p, c.move), sq)
  }

  /** `simulateAttacks`; it plays the capture sequence on the position `p`
      points to. */
  method SimulateAttacks(e: ExchangeEngine, p: PositionRef, sq: Square) returns (r: real)
    modifies p
    ensures r == Exchange(e, old(p.value), sq)
    ensures p.value == ExchangeEnd(e, old(p.value), sq)
    decreases ExchangeMeasure(e, p.value, sq)
  {
    ghost var p0 := p.value;
    var legalMoves := e.legalMoves(p.value);
    var lowestCost := MaxScore;
    if p.value.turn == Black {
      lowestCost := lowestCost * -1.0;
    }
    var lowestCostMove := NullMove;
    for i := 0 to |legalMoves|
      invariant p.value == p0
      invariant CheapestScan(e, p0, sq, legalMoves[i..], Choice(lowestCostMove, lowestCost)) == Cheapest(e, p0, sq)
    {
      assert legalMoves[i..][1..] == legalMoves[i + 1..];
      var move := legalMoves[i];
      if move.to != sq {
        continue;
      }
      var cost := PieceValue(e.pieceAt(p.value, move.from));
      if p.value.turn == White {
        if cost < lowestCost {
          lowestCost := cost;
          lowestCostMove := move;
        }
      }
      if p.value.turn == Black {
        if cost > lowestCost {
          lowestCost := cost;
          lowestCostMove := move;
        }
      }
    }
    if lowestCostMove == NullMove {
      return 0.0;
    }
    CheapestLegal(e, p0, sq);
    ExchangeShrinks(e, p0, lowestCostMove);
    p.Move(e, lowestCostMove);
    r := SimulateAttacks(e, p, sq);
    r := r - lowestCost;
  }

  /** `simulateAttacks` (minmax.go:155-186): with no legal move onto `sq` it
      returns 0 and leaves the position alone; otherwise it plays the move
      `CheapestPicks` describes and returns the value of the rest of the
      sequence minus that mover's cost. */
  lemma ExchangePlaysCheapest(e: ExchangeEngine, p: Position, sq: Square) returns (k: int)
    requires NullMove !in e.legalMoves(p)
    ensures var ms := e.legalMoves(p);
      && (p.turn == White ==> IsCheapest(e, p, sq, ms, MaxScore, k))
      && (p.turn == Black ==> IsCostliest(e, p, sq, ms, -MaxScore, k))
      && (p.turn == NoColor ==> k == -1)
      && (p.turn != NoColor ==> (k == -1 <==> forall j :: 0 <= j < |ms| ==> ms[j].to != sq))
      && -1 <= k < |ms|
      && (k == -1 ==> Exchange(e, p, sq) == 0.0 && ExchangeEnd(e, p, sq) == p)
      && (k != -1 ==>
            && Exchange(e, p, sq) == Exchange(e, e.play(p, ms[k]), sq) - MoverCost(e, p, ms[k])
            && ExchangeEnd(e, p, sq) == ExchangeEnd(e, e.play(p, ms[k]), sq))
  {
    k := CheapestPicks(e, p, sq);
  }

  /** The sum of `Exchange` over `squares`, accumulated front to back. */
  function AttackSum(e: ExchangeEngine, p: Position, squares: seq<Square>): real
  {
    if squares == [] then 0.0
    else AttackSum(e, p, squares[..|squares| - 1]) + Exchange(e, p, squares[|squares| - 1])
  }

  /** `calcAttacks`: every square is simulated on a fresh copy of `p`, so
      each term starts from `p` itself and `p` is left as it was. */
  method CalcAttacks(e: ExchangeEngine, p: Position) returns (total: real)
    ensures total == AttackSum(e, p, e.allSquares)
  {
    total := 0.0;
    for i := 0 to |e.allSquares|
      invariant total == AttackSum(e, p, e.allSquares[..i])
    {
      var newPos := new PositionRef(p);
      var s := SimulateAttacks(e, newPos, e.allSquares[i]);
      assert e.allSquares[..i + 1][..i] == e.allSquares[..i];
      total := total + s;
    }
    assert e.allSquares[..|e.allSquares|] == e.allSquares;
  }

  /** The value `evaluate` gives a position. */
  function Evaluation(e: ExchangeEngine, p: Position): real
  {
    Material(p.board) + AttackSum(e, p, e.allSquares)
  }

  /** `evaluate`: material plus the capture sequences of every square. */
  method Evaluate(e: ExchangeEngine, p: Position) returns (total: real)
    ensures total == Material(p.board) + AttackSum(e, p, e.allSquares)
  {
    total := SumMaterial(p);
    var attacks := CalcAttacks(e, p);
    total := total + attacks;
  }
}
