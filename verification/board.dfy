/**
 The board: a finite map from packed key to cell. A key is a valid position
 exactly when the map has it. Copies of a board are plain values here, so
 the engine's deep copy is the identity and nothing has to be freed.
 */
module Boards {
  import opened Coords
  import opened Cells

  type Board = map<int, Cell>

  /** The board holds exactly the 91 cells of the hexagon. The constructor
      establishes this and every mutation keeps it. */
  predicate WellShaped(b: Board)
  {
    b.Keys == HexKeys()
  }

  /** On a well-shaped board a key is valid exactly when it names one of
      the hexagon's cells. */
  predicate IsValidKey(b: Board, key: int)
    ensures WellShaped(b) ==> (IsValidKey(b, key) <==> IsHexKey(key))
  {
    key in b
  }

  /** A position is valid when its packed key is. For a height that fits
      in eight bits that means the column is `0..10` and the height at most
      the column's top. */
  predicate IsValidPosition(b: Board, pos: Position)
    ensures WellShaped(b) && 0 <= pos.y < StepX ==>
      (IsValidPosition(b, pos) <==> 0 <= pos.x <= MaxIndex && pos.y <= ColumnTop(pos.x))
  {
    IsValidKey(b, ToPositionKey(pos))
  }

  /** The constructor: one empty cell for every height `0..y_max` of every
      column `0..max`, with `y_max` folded back past the median. */
  method NewBoard() returns (b: Board)
    ensures WellShaped(b)
    ensures forall k :: k in b ==> b[k] == EmptyCell
  {
    b := map[];
    var x := 0;
    while x <= MaxIndex
      invariant 0 <= x <= MaxIndex + 1
      invariant forall k :: k in b <==> IsHexKey(k) && GetX(k) < x
      invariant forall k :: k in b ==> b[k] == EmptyCell
    {
      var yMax := Median + x;
      if yMax > MaxIndex {
        yMax := MaxIndex - yMax % MaxIndex;
      }
      ColumnHeights(x);
      var y := 0;
      while y <= yMax
        invariant 0 <= y <= yMax + 1
        invariant forall k :: k in b <==> IsHexKey(k) && (GetX(k) < x || (GetX(k) == x && GetY(k) < y))
        invariant forall k :: k in b ==> b[k] == EmptyCell
      {
        PositionRoundTrip(x, y);
        b := b[ToKey(x, y) := EmptyCell];
        forall k ensures k == ToKey(x, y) <==> GetX(k) == x && GetY(k) == y {
          KeyRoundTrip(k);
        }
        y := y + 1;
      }
      x := x + 1;
    }
    assert forall k :: k in b.Keys <==> k in HexKeys();
  }

  /** Places a piece. An invalid position is refused without any change;
      the engine reports `false` in both cases. */
  function SetPiece(b: Board, pos: Position, pt: PieceType, pc: PieceColor): (r: (Board, bool))
    ensures !r.1
    ensures r.0.Keys == b.Keys
    ensures !IsValidPosition(b, pos) ==> r.0 == b
    ensures IsValidPosition(b, pos) ==> r.0[ToPositionKey(pos)] == Cell(pt, pc)
    ensures forall k :: k in b && k != ToPositionKey(pos) ==> r.0[k] == b[k]
  {
    var key := ToPositionKey(pos);
    if !IsValidKey(b, key) then (b, false)
    else (b[key := Cell(pt, pc)], false)
  }

  /** Moves whatever `start` holds onto `goal`, overwriting it, and empties
      `start`. No chess rule is checked; an invalid endpoint is a silent
      no-op. The engine always reports `true`. */
  function MovePiece(b: Board, start: Position, goal: Position): (r: (Board, bool))
    ensures r.1
    ensures r.0.Keys == b.Keys
    ensures !(IsValidPosition(b, start) && IsValidPosition(b, goal)) ==> r.0 == b
    ensures ToPositionKey(start) == ToPositionKey(goal) ==> r.0 == b
    ensures IsValidPosition(b, start) && IsValidPosition(b, goal) ==>
      && r.0[ToPositionKey(goal)] == b[ToPositionKey(start)]
      && (ToPositionKey(start) != ToPositionKey(goal) ==> r.0[ToPositionKey(start)] == EmptyCell)
    ensures forall k :: k in b && k != ToPositionKey(start) && k != ToPositionKey(goal) ==> r.0[k] == b[k]
  {
    var sp := ToPositionKey(start);
    if IsValidKey(b, sp) && IsValidPosition(b, goal) then
      var moving := b[sp];
      var cleared := b[sp := EmptyCell];
      (SetPiece(cleared, goal, moving.piece, moving.color).0, true)
    else
      (b, true)
  }

  /** Placing a piece on a valid position succeeds, yet the engine reports
      failure. */
  lemma SetPieceReportsFailureOnSuccess(b: Board, pos: Position, pt: PieceType, pc: PieceColor)
    requires IsValidPosition(b, pos)
    ensures SetPiece(b, pos, pt, pc).0[ToPositionKey(pos)] == Cell(pt, pc)
    ensures !SetPiece(b, pos, pt, pc).1
  {
  }

  /** Placement with the status the engine documents: `true` exactly when
      the piece was placed. */
  function PlacePiece(b: Board, pos: Position, pt: PieceType, pc: PieceColor): (r: (Board, bool))
    ensures r.1 <==> IsValidPosition(b, pos)
    ensures r.0.Keys == b.Keys
    ensures r.1 ==> r.0[ToPositionKey(pos)] == Cell(pt, pc)
    ensures !r.1 ==> r.0 == b
    ensures forall k :: k in b && k != ToPositionKey(pos) ==> r.0[k] == b[k]
  {
    (SetPiece(b, pos, pt, pc).0, IsValidPosition(b, pos))
  }

  /** Moving from an invalid position changes nothing, yet the engine
      reports success. */
  lemma MovePieceReportsSuccessOnNoOp(b: Board, start: Position, goal: Position)
    requires !IsValidPosition(b, start)
    ensures MovePiece(b, start, goal).0 == b
    ensures MovePiece(b, start, goal).1
  {
  }

  /** A move with the status the engine documents: `true` exactly when both
      endpoints are valid and the move was made. */
  function CommitMove(b: Board, start: Position, goal: Position): (r: (Board, bool))
    ensures r.1 <==> IsValidPosition(b, start) && IsValidPosition(b, goal)
    ensures r.0.Keys == b.Keys
    ensures !r.1 ==> r.0 == b
    ensures r.1 ==> r.0[ToPositionKey(goal)] == b[ToPositionKey(start)]
    ensures r.1 && ToPositionKey(start) != ToPositionKey(goal) ==> r.0[ToPositionKey(start)] == EmptyCell
    ensures forall k :: k in b && k != ToPositionKey(start) && k != ToPositionKey(goal) ==> r.0[k] == b[k]
  {
    (MovePiece(b, start, goal).0, IsValidPosition(b, start) && IsValidPosition(b, goal))
  }

  /** `MovePiece` on keys, as the legality filter calls it after turning
      both keys into positions. */
  function MoveKeys(b: Board, from: int, to: int): (r: Board)
    ensures r.Keys == b.Keys
    ensures from in b && to in b ==> r[to] == b[from]
    ensures from in b && to in b && from != to ==> r[from] == EmptyCell
    ensures !(from in b && to in b) || from == to ==> r == b
    ensures forall k :: k in b && k != from && k != to ==> r[k] == b[k]
  {
    KeyRoundTrip(from);
    KeyRoundTrip(to);
    MovePiece(b, ToPosition(from), ToPosition(to)).0
  }

  /** The keys among `keys` whose cell has colour `c`, pushed to the front
      of `l` one by one. */
  function CollectColor(b: Board, keys: seq<int>, c: PieceColor, l: seq<int>): (r: seq<int>)
    requires forall k :: k in keys ==> k in b
    ensures forall k :: k in r <==> k in l || (k in keys && b[k].color == c)
    decreases |keys|
  {
    if keys == [] then l
    else
      var k0 := keys[0];
      assert k0 in keys;
      var l' := if b[k0].color == c then [k0] + l else l;
      CollectColor(b, keys[1..], c, l')
  }

  /** Pushing the keys of an ascending scan to the front of a descending
      list of smaller keys gives a descending list. */
  lemma {:induction false} CollectColorDescending(b: Board, keys: seq<int>, c: PieceColor, l: seq<int>)
    requires forall k :: k in keys ==> k in b
    requires StrictlyAscending(keys) && StrictlyDescending(l)
    requires forall i, j :: 0 <= i < |l| && 0 <= j < |keys| ==> l[i] < keys[j]
    ensures StrictlyDescending(CollectColor(b, keys, c, l))
    decreases |keys|
  {
    if keys != [] {
      var k0, rest := keys[0], keys[1..];
      assert k0 in keys;
      var l' := if b[k0].color == c then [k0] + l else l;
      assert forall j :: 0 <= j < |rest| ==> rest[j] == keys[j + 1] && k0 < rest[j];
      assert forall i :: 0 <= i < |l'| ==> l'[i] == k0 || l'[i] in l;
      assert forall i :: 0 <= i < |l'| ==> l'[i] <= k0;
      CollectColorDescending(b, rest, c, l');
    }
  }

  /** Every key whose cell has colour `c`. Only the colour is tested, so
      with `c == Absent` this lists the empty cells. The map is scanned in
      ascending key order and each key is pushed to the front, so the list
      is in descending key order. */
  function PieceKeys(b: Board, c: PieceColor): (r: seq<int>)
    requires WellShaped(b)
    ensures forall k :: k in r <==> k in b && b[k].color == c
    ensures StrictlyDescending(r)
  {
    AllKeysSpec();
    CollectColorDescending(b, AllKeys(), c, []);
    CollectColor(b, AllKeys(), c, [])
  }
}
