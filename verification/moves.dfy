/**
 Raw move generation: the destinations each kind of piece can reach from a
 cell, before any test of whether the move leaves its own king capturable.

 The engine accumulates destinations by pushing them onto the front of a
 list. The functions here thread that list `l` through in the same order,
 so `[k] + l` is one `push_front`. Only membership in the result matters
 to any caller.
 */
module Moves {
  import opened Coords
  import opened Cells
  import opened Boards

  /** Pawn start cells, one per file from column 1 to column 9. */
  const WhitePawnStartKeys: seq<int> := [256, 513, 770, 1027, 1284, 1539, 1794, 2049, 2304]
  const BlackPawnStartKeys: seq<int> := [262, 518, 774, 1030, 1286, 1542, 1798, 2054, 2310]

  /** The slide directions of a bishop: six diagonals, four that move one
      column and three half-cells, and two that move two columns. */
  const BishopDirs: seq<Dir> := [DTopRight, DTopLeft, DBottomRight, DBottomLeft, DRight, DLeft]
  /** The slide directions of a rook: the six neighbours of a cell. */
  const RookDirs: seq<Dir> := [HTopRight, HTopLeft, HBottomRight, HBottomLeft, Up, Down]
  /** The king's single steps, in the order the engine tries them. */
  const KingDirs: seq<Dir> := [Up, Down, HTopRight, HTopLeft, HBottomRight, HBottomLeft,
                               DTopRight, DTopLeft, DBottomRight, DBottomLeft, DRight, DLeft]

  /** Every pawn start cell is a cell of the board, one per column from 1
      to 9: white in a V whose point is (5, 4), black all at height 6. */
  lemma PawnStartCellsOnBoard()
    ensures forall i :: 0 <= i < 9 ==>
      && IsHexKey(WhitePawnStartKeys[i]) && IsHexKey(BlackPawnStartKeys[i])
      && GetX(WhitePawnStartKeys[i]) == i + 1 && GetX(BlackPawnStartKeys[i]) == i + 1
      && GetY(WhitePawnStartKeys[i]) == 4 - (if i + 1 <= Median then Median - i - 1 else i + 1 - Median)
      && GetY(BlackPawnStartKeys[i]) == 6
  {
    forall i | 0 <= i < 9 ensures
      && IsHexKey(WhitePawnStartKeys[i]) && IsHexKey(BlackPawnStartKeys[i])
      && GetX(WhitePawnStartKeys[i]) == i + 1 && GetX(BlackPawnStartKeys[i]) == i + 1
      && GetY(WhitePawnStartKeys[i]) == 4 - (if i + 1 <= Median then Median - i - 1 else i + 1 - Median)
      && GetY(BlackPawnStartKeys[i]) == 6
    {
      var wy := 4 - (if i + 1 <= Median then Median - i - 1 else i + 1 - Median);
      assert WhitePawnStartKeys[i] == ToKey(i + 1, wy);
      assert BlackPawnStartKeys[i] == ToKey(i + 1, 6);
      PositionRoundTrip(i + 1, wy);
      PositionRoundTrip(i + 1, 6);
      ColumnHeights(i + 1);
    }
  }

  /** Whether a pawn of `mover`'s colour standing on `key` is on one of its
      colour's start cells. Only a coloured mover has start cells, and they
      are cells of the board in columns 1 to 9. */
  predicate IsInitialPawnCell(key: int, mover: Cell)
    ensures IsInitialPawnCell(key, mover) ==> mover.color != Absent && IsHexKey(key)
    ensures IsInitialPawnCell(key, mover) ==> 1 <= GetX(key) <= 9
  {
    PawnStartCellsOnBoard();
    match mover.color
    case White => key in WhitePawnStartKeys
    case Black => key in BlackPawnStartKeys
    case Absent => false
  }

  /** A single step onto `key` is allowed: the cell exists and is empty, or,
      when the move may capture, it holds a piece opposing the mover. */
  predicate CanStepOnto(b: Board, key: int, mover: Cell, canTake: bool)
  {
    key in b && (!b[key].HasPiece() || (canTake && b[key].HasPieceOfOppositeColor(mover)))
  }

  /** A slide may end on `key`: the cell exists and does not hold a piece of
      the mover's own colour. */
  predicate CanSlideOnto(b: Board, key: int, mover: Cell)
  {
    key in b && (!b[key].HasPiece() || !b[key].HasPieceOfSameColor(mover))
  }

  /** Destinations collected so far never hold a piece of the mover's colour. */
  ghost predicate Landable(b: Board, r: seq<int>, l: seq<int>, mover: Cell)
  {
    forall m :: m in r ==> m in l || (m in b && !b[m].HasPieceOfSameColor(mover))
  }

  function AddIfValid(b: Board, l: seq<int>, key: int, mover: Cell, canTake: bool): (r: seq<int>)
    ensures forall m :: m in r <==> m in l || (m == key && CanStepOnto(b, key, mover, canTake))
    ensures |r| <= |l| + 1
    ensures Landable(b, r, l, mover)
  {
    if key in b then
      if b[key].HasPiece() then
        if b[key].HasPieceOfOppositeColor(mover) && canTake then [key] + l else l
      else [key] + l
    else l
  }

  /** `AddIfValid` for each of `targets` in turn. */
  function AddEachIfValid(b: Board, l: seq<int>, targets: seq<int>, mover: Cell, canTake: bool): (r: seq<int>)
    ensures forall m :: m in r <==> m in l || (m in targets && CanStepOnto(b, m, mover, canTake))
    ensures |r| <= |l| + |targets|
    ensures Landable(b, r, l, mover)
    decreases |targets|
  {
    if targets == [] then l
    else AddEachIfValid(b, AddIfValid(b, l, targets[0], mover, canTake), targets[1..], mover, canTake)
  }

  /** A pawn capture: only onto a piece of the opposite colour. */
  function AddPawnTakeIfValid(b: Board, l: seq<int>, key: int, mover: Cell): (r: seq<int>)
    ensures forall m :: m in r <==> m in l || (m == key && key in b && b[key].HasPieceOfOppositeColor(mover))
    ensures Landable(b, r, l, mover)
  {
    if key in b && b[key].HasPieceOfOppositeColor(mover) then [key] + l else l
  }

  /** The pawn's forward direction and its two capture directions. */
  function PawnForward(c: PieceColor): Dir
  {
    if c == White then Up else Down
  }

  function PawnTakeLeft(c: PieceColor): Dir
  {
    if c == White then HTopLeft else HBottomLeft
  }

  function PawnTakeRight(c: PieceColor): Dir
  {
    if c == White then HTopRight else HBottomRight
  }

  function PawnMoves(b: Board, l: seq<int>, key: int, mover: Cell): (r: seq<int>)
    ensures Landable(b, r, l, mover)
    ensures mover.color == Absent ==> r == l
  {
    if mover.color == Absent then l
    else
      var fwd := PawnForward(mover.color);
      var move := Step(fwd, key);
      var l1 :=
        if move in b then
          var l0 := AddIfValid(b, l, move, mover, false);
          if !b[move].HasPiece() && IsInitialPawnCell(key, mover) then
            AddIfValid(b, l0, Step(fwd, move), mover, false)
          else l0
        else l;
      var l2 := AddPawnTakeIfValid(b, l1, Step(PawnTakeLeft(mover.color), key), mover);
      AddPawnTakeIfValid(b, l2, Step(PawnTakeRight(mover.color), key), mover)
  }

  /** The twelve L-shaped knight jumps: two steps one way, then one step
      turning off that line, in the order the engine tries them. No jump
      lands back on the start cell. */
  function KnightTargets(key: int): (t: seq<int>)
    ensures |t| == 12
    ensures forall i :: 0 <= i < 12 ==> t[i] != key
  {
    var up2 := MoveVerticallyUp(MoveVerticallyUp(key));
    var down2 := MoveVerticallyDown(MoveVerticallyDown(key));
    var tr2 := MoveHorizontallyTopRight(MoveHorizontallyTopRight(key));
    var br2 := MoveHorizontallyBottomRight(MoveHorizontallyBottomRight(key));
    var bl2 := MoveHorizontallyBottomLeft(MoveHorizontallyBottomLeft(key));
    var tl2 := MoveHorizontallyTopLeft(MoveHorizontallyTopLeft(key));
    [ MoveHorizontallyTopRight(up2), MoveHorizontallyTopLeft(up2)
    , MoveHorizontallyBottomRight(down2), MoveHorizontallyBottomLeft(down2)
    , MoveVerticallyUp(tr2), MoveHorizontallyBottomRight(tr2)
    , MoveVerticallyDown(br2), MoveHorizontallyTopRight(br2)
    , MoveVerticallyDown(bl2), MoveHorizontallyTopLeft(bl2)
    , MoveVerticallyUp(tl2), MoveHorizontallyBottomLeft(tl2)
    ]
  }

  function KnightMoves(b: Board, l: seq<int>, key: int, mover: Cell): (r: seq<int>)
    ensures |r| <= |l| + 12
    ensures Landable(b, r, l, mover)
  {
    AddEachIfValid(b, l, KnightTargets(key), mover, true)
  }

  /** One step in every direction; none of them stays on the king's cell. */
  function KingTargets(key: int): (t: seq<int>)
    ensures |t| == 12
    ensures forall i :: 0 <= i < 12 ==> t[i] != key
  {
    seq(12, i requires 0 <= i < 12 => Step(KingDirs[i], key))
  }

  /** The king's twelve steps reach twelve different cells. */
  lemma KingTargetsDistinct(key: int)
    ensures forall i, j :: 0 <= i < j < 12 ==> KingTargets(key)[i] != KingTargets(key)[j]
  {
    var t := KingTargetsSpelled(key);
    NeighbourOrder(key);
  }

  /** The king's targets written out one direction at a time. */
  lemma KingTargetsSpelled(key: int) returns (t: seq<int>)
    ensures t == KingTargets(key)
    ensures t == [Step(Up, key), Step(Down, key), Step(HTopRight, key), Step(HTopLeft, key),
                  Step(HBottomRight, key), Step(HBottomLeft, key), Step(DTopRight, key),
                  Step(DTopLeft, key), Step(DBottomRight, key), Step(DBottomLeft, key),
                  Step(DRight, key), Step(DLeft, key)]
  {
    t := KingTargets(key);
  }

  function KingMoves(b: Board, l: seq<int>, key: int, mover: Cell): (r: seq<int>)
    ensures |r| <= |l| + 12
    ensures Landable(b, r, l, mover)
  {
    AddEachIfValid(b, l, KingTargets(key), mover, true)
  }

  /** Walks from `cur` in direction `d`: empty cells are taken and the walk
      goes on; the first occupied cell is taken unless it holds the mover's
      colour, and the walk stops there; the walk also stops off the board.
      It ends because every step moves the key strictly one way and a
      well-shaped board's keys lie in `0 .. KeyBound - 1`. */
  function Slide(b: Board, l: seq<int>, cur: int, d: Dir, mover: Cell): (r: seq<int>)
    requires WellShaped(b)
    ensures Landable(b, r, l, mover)
    decreases if Ascends(d) then KeyBound - cur else cur + 1
  {
    if cur !in b then l
    else if b[cur].HasPiece() then
      if b[cur].HasPieceOfSameColor(mover) then l else [cur] + l
    else
      HexKeyBounds(cur);
      Slide(b, [cur] + l, Step(d, cur), d, mover)
  }

  /** One slide from `key` for each direction of `dirs`, in order. */
  function AddValidMoves(b: Board, l: seq<int>, key: int, dirs: seq<Dir>, mover: Cell): (r: seq<int>)
    requires WellShaped(b)
    ensures Landable(b, r, l, mover)
    decreases |dirs|
  {
    if dirs == [] then l
    else AddValidMoves(b, Slide(b, l, Step(dirs[0], key), dirs[0], mover), key, dirs[1..], mover)
  }

  function BishopMoves(b: Board, l: seq<int>, key: int, mover: Cell): (r: seq<int>)
    requires WellShaped(b)
    ensures Landable(b, r, l, mover)
  {
    AddValidMoves(b, l, key, BishopDirs, mover)
  }

  function RookMoves(b: Board, l: seq<int>, key: int, mover: Cell): (r: seq<int>)
    requires WellShaped(b)
    ensures Landable(b, r, l, mover)
  {
    AddValidMoves(b, l, key, RookDirs, mover)
  }

  function QueenMoves(b: Board, l: seq<int>, key: int, mover: Cell): (r: seq<int>)
    requires WellShaped(b)
    ensures Landable(b, r, l, mover)
  {
    RookMoves(b, BishopMoves(b, l, key, mover), key, mover)
  }

  /** The unfiltered destinations of the piece on `key`: every one is a cell
      of the board that does not hold a piece of the mover's colour. */
  function RawMoves(b: Board, key: int): (r: seq<int>)
    requires WellShaped(b) && key in b
    ensures forall m :: m in r ==> m in b && !b[m].HasPieceOfSameColor(b[key])
    ensures b[key].piece == None ==> r == []
  {
    var mover := b[key];
    match mover.piece
    case None => []
    case Pawn => PawnMoves(b, [], key, mover)
    case Knight => KnightMoves(b, [], key, mover)
    case Bishop => BishopMoves(b, [], key, mover)
    case Rook => RookMoves(b, [], key, mover)
    case Queen => QueenMoves(b, [], key, mover)
    case King => KingMoves(b, [], key, mover)
  }
}
