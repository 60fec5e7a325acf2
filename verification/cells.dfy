/**
 The content of one board cell: a piece type and a piece colour. The two
 fields are set independently, so a cell can in principle hold a type with
 no colour or a colour with no type; the predicates below are written so
 that they behave exactly as the engine's do on such cells too.
 */
module Cells {

  datatype PieceType = None | Pawn | Knight | Bishop | Rook | Queen | King

  datatype PieceColor = Absent | White | Black

  datatype Cell = Cell(piece: PieceType, color: PieceColor)
  {
    /** A well-formed cell holds a piece exactly when it has a colour. */
    predicate HasPiece()
      ensures WellFormed() ==> (HasPiece() <==> color != Absent)
    {
      piece != None
    }

    /** This cell holds a piece whose colour equals the (present) colour of
        `other`. Such a piece is never also of the opposite colour, and an
        uncoloured `other` matches nothing. */
    predicate HasPieceOfSameColor(other: Cell)
      ensures HasPieceOfSameColor(other) ==> HasPiece() && !HasPieceOfOppositeColor(other)
      ensures other.color == Absent ==> !HasPieceOfSameColor(other)
    {
      piece != None && color != Absent && other.color != Absent && color == other.color
    }

    /** This cell holds a piece whose colour differs from the (present)
        colour of `other`: then its colour is the one opposing `other`, and
        an uncoloured `other` is opposed by nothing. */
    predicate HasPieceOfOppositeColor(other: Cell)
      ensures HasPieceOfOppositeColor(other) ==> HasPiece() && color == other.OppositeColor()
      ensures other.color == Absent ==> !HasPieceOfOppositeColor(other)
    {
      piece != None && color != Absent && other.color != Absent && color != other.color
    }

    /** The colour that opposes this cell's colour; an uncoloured cell has none. */
    function OppositeColor(): (c: PieceColor)
      ensures c == Absent <==> color == Absent
      ensures c != Absent ==> c != color
    {
      Opposite(color)
    }

    /** Type and colour agree about whether a piece is present. */
    predicate WellFormed()
    {
      (piece == None) <==> (color == Absent)
    }
  }

  const EmptyCell: Cell := Cell(None, Absent)

  function Opposite(c: PieceColor): (o: PieceColor)
    ensures o == Absent <==> c == Absent
    ensures o != Absent ==> o != c
  {
    match c
    case White => Black
    case Black => White
    case Absent => Absent
  }

  lemma OppositeInvolutive(c: PieceColor)
    ensures Opposite(Opposite(c)) == c
  {
  }

  /** Against a coloured mover, a well-formed cell is exactly one of empty,
      same colour or opposite colour, and the opposite colour is the one
      `OppositeColor` names. */
  lemma CellTrichotomy(target: Cell, mover: Cell)
    requires target.WellFormed() && mover.color != Absent
    ensures target.HasPiece() <==> target.HasPieceOfSameColor(mover) || target.HasPieceOfOppositeColor(mover)
    ensures !(target.HasPieceOfSameColor(mover) && target.HasPieceOfOppositeColor(mover))
    ensures target.HasPieceOfOppositeColor(mover) <==> target.HasPiece() && target.color == mover.OppositeColor()
  {
  }

  /** Sameness of colour is symmetric between two occupied cells;
      oppositeness too. */
  lemma ColorRelationsSymmetric(a: Cell, b: Cell)
    requires a.HasPiece() && b.HasPiece()
    ensures a.HasPieceOfSameColor(b) <==> b.HasPieceOfSameColor(a)
    ensures a.HasPieceOfOppositeColor(b) <==> b.HasPieceOfOppositeColor(a)
  {
  }
}
