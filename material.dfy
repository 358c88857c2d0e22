/** Material counting, shared by the minimax and the alpha-beta evaluators
    (their `getPieceValue` and `sumMaterial` are the same code), and the table
    of piece values that the MCTS reward also uses. */
module MaterialCount {
  import opened Chess

  /** pawn 1, knight 2.9, bishop 3, rook 5, queen 8, king 10000, empty 0. */
  function TypeValue(t: PieceType): (v: real)
    ensures 0.0 <= v <= 10000.0
    ensures v == 0.0 <==> t == NoPieceType
  {
    match t
    case Pawn => 1.0
    case Rook => 5.0
    case Knight => 2.9
    case Bishop => 3.0
    case Queen => 8.0
    case King => 10000.0
    case NoPieceType => 0.0
  }

  /** `getPieceValue`: the type's value, positive for White and negated for
      every other colour (so also for `NoColor`). */
  function PieceValue(pc: Piece): (v: real)
    ensures -10000.0 <= v <= 10000.0
    ensures v == 0.0 <==> pc.kind == NoPieceType
    ensures v > 0.0 <==> pc.kind != NoPieceType && pc.color == White
  {
    if pc.color == White then TypeValue(pc.kind) else -TypeValue(pc.kind)
  }

  /** The sum of `PieceValue` over a board, accumulated front to back. */
  function Material(board: seq<Piece>): real
  {
    if board == [] then 0.0 else Material(board[..|board| - 1]) + PieceValue(board[|board| - 1])
  }

  /** `sumMaterial`. */
  method SumMaterial(p: Position) returns (total: real)
    ensures total == Material(p.board)
  {
    total := 0.0;
    for i := 0 to |p.board|
      invariant total == Material(p.board[..i])
    {
      assert p.board[..i + 1][..i] == p.board[..i];
      total := total + PieceValue(p.board[i]);
    }
    assert p.board[..|p.board|] == p.board;
  }

  function SwapColor(c: Color): Color
  {
    match c
    case White => Black
    case Black => White
    case NoColor => NoColor
  }

  /** The board with every piece's colour exchanged. */
  function SwapColors(board: seq<Piece>): (r: seq<Piece>)
    ensures |r| == |board|
    ensures forall i :: 0 <= i < |board| ==> r[i] == Piece(board[i].kind, SwapColor(board[i].color))
  {
    seq(|board|, i requires 0 <= i < |board| => Piece(board[i].kind, SwapColor(board[i].color)))
  }

  /** Every occupied square holds a piece of some colour. */
  ghost predicate Colored(board: seq<Piece>)
  {
    forall i :: 0 <= i < |board| ==> board[i].kind != NoPieceType ==> board[i].color != NoColor
  }

  /** Exchanging the colours of all pieces negates the material count.  An
      uncoloured non-empty piece would count negatively either way, hence
      the hypothesis. */
  lemma {:induction false} MaterialSwap(board: seq<Piece>)
    requires Colored(board)
    ensures Material(SwapColors(board)) == -Material(board)
  {
    if board != [] {
      var n := |board| - 1;
      assert SwapColors(board)[..n] == SwapColors(board[..n]);
      MaterialSwap(board[..n]);
    }
  }

  /** Without the hypothesis the symmetry fails: a lone uncoloured pawn. */
  lemma MaterialSwapNeedsColors()
    ensures var board := [Piece(Pawn, NoColor)];
      !Colored(board) && Material(SwapColors(board)) != -Material(board)
  {
    var board := [Piece(Pawn, NoColor)];
    assert board[0].kind != NoPieceType && board[0].color == NoColor;
    assert board[..0] == [];
    assert SwapColors(board) == board;
    assert Material(board) == -1.0;
  }
}
