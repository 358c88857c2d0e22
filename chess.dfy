/** The rules-engine interface the three agents are written against.

    The engine itself (board representation, legal and pseudo-legal move
    generation, check, checkmate and stalemate detection, move application)
    is an external library that is not part of this model.  The agents only
    query it, so here it is a record of functions handed to every agent as a
    parameter; nothing is assumed about those functions except where a
    lemma or an operation states a hypothesis about them by name. */
module Chess {

  datatype Color = NoColor | White | Black

  datatype PieceType = NoPieceType | Pawn | Knight | Bishop | Rook | Queen | King

  /** An empty square holds `Piece(NoPieceType, NoColor)`. */
  datatype Piece = Piece(kind: PieceType, color: Color)

  /** Squares are only compared by the agents; `NoSquare` is the engine's
      "no such square" value. */
  datatype Square = NoSquare | Square(file: int, rank: int)

  datatype Move = Move(from: Square, to: Square, promotion: PieceType)

  /** The zero value `chess.Move{}`, used by the agents to mean "no move". */
  const NullMove: Move := Move(NoSquare, NoSquare, NoPieceType)

  /** The parts of a position the agents never read (castling rights, the en
      passant square, the move clocks). */
  type Details(==, !new)

  /** A position is a value: the agents copy it before every move they try. */
  datatype Position = Position(board: seq<Piece>, turn: Color, details: Details)

  datatype Engine = Engine(
    legalMoves: Position -> seq<Move>,
    pseudoLegalMoves: Position -> seq<Move>,
    play: (Position, Move) -> Position,
    isCheckMate: Position -> bool,
    isStaleMate: Position -> bool,
    pieceAt: (Position, Square) -> Piece,
    allSquares: seq<Square>)

  /** A position from which the side to move has no legal move is over:
      checkmate or stalemate. */
  ghost predicate StuckIsTerminal(e: Engine)
  {
    forall p :: e.legalMoves(p) == [] ==> e.isCheckMate(p) || e.isStaleMate(p)
  }

  /** In a stalemate the side to move has no legal move. */
  ghost predicate StalemateIsStuck(e: Engine)
  {
    forall p :: e.isStaleMate(p) ==> e.legalMoves(p) == []
  }

  lemma StuckPositionIsTerminal(e: Engine, p: Position)
    requires StuckIsTerminal(e) && e.legalMoves(p) == []
    ensures e.isCheckMate(p) || e.isStaleMate(p)
  {
  }

  lemma UnfinishedPositionHasMoves(e: Engine, p: Position)
    requires StuckIsTerminal(e) && !e.isCheckMate(p) && !e.isStaleMate(p)
    ensures e.legalMoves(p) != []
  {
  }

  lemma StalematedSideIsStuck(e: Engine, p: Position)
    requires StalemateIsStuck(e) && e.isStaleMate(p)
    ensures e.legalMoves(p) == []
  {
  }

  /** A `*chess.Position`: a position the callee may change in place. */
  class PositionRef {
    var value: Position

    constructor (p: Position)
      ensures value == p
    {
      value := p;
    }

    /** `p.Move(m)`: apply a move to the referenced position. */
    method Move(e: Engine, m: Move)
      modifies this
      ensures value == e.play(old(value), m)
    {
      value := e.play(value, m);
    }
  }
}
