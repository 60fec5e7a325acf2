/**
 Attack detection and the check-aware legality filter.

 The dependency runs one way: raw moves feed attack detection, and attack
 detection feeds the filter. Attack detection only ever looks at raw
 moves, which is what the engine's `skip_filter` flag is for.

 The engine's filter looks up the mover's pieces and copies the board from
 its main board even when it is asked about another board. Here there is
 one board, so the model is the filter as it behaves on the main board.
 */
module Legality {
  import opened Coords
  import opened Cells
  import opened Boards
  import opened Moves

  /** The raw moves of every piece in `keys`, appended after `acc`. */
  function ConcatRawMoves(b: Board, keys: seq<int>, acc: seq<int>): (r: seq<int>)
    requires WellShaped(b)
    requires forall k :: k in keys ==> k in b
    ensures forall m :: m in r <==> m in acc || exists p :: p in keys && m in RawMoves(b, p)
    decreases |keys|
  {
    if keys == [] then acc
    else
      var p := keys[0];
      assert p in keys;
      var r := ConcatRawMoves(b, keys[1..], acc + RawMoves(b, p));
      assert forall q :: q in keys <==> q == p || q in keys[1..];
      r
  }

  /** Every square a piece of colour `c` could move to, ignoring checks. */
  function AllRawMoveKeys(b: Board, c: PieceColor): (r: seq<int>)
    requires WellShaped(b)
    ensures forall m :: m in r <==> exists p :: p in b && b[p].color == c && m in RawMoves(b, p)
  {
    ConcatRawMoves(b, PieceKeys(b, c), [])
  }

  /** The square `key` is attacked by the colour opposing its occupant.
      An uncoloured occupant has no opponent. */
  function CanBeCaptured(b: Board, key: int): (r: bool)
    requires WellShaped(b) && key in b
    ensures r <==> exists p :: p in b && b[p].color == b[key].OppositeColor() && key in RawMoves(b, p)
  {
    key in AllRawMoveKeys(b, b[key].OppositeColor())
  }

  /** The first king among `keys`, or -1. */
  function FirstKing(b: Board, keys: seq<int>): (r: int)
    requires forall k :: k in keys ==> k in b
    requires -1 !in keys
    ensures r == -1 <==> forall k :: k in keys ==> b[k].piece != King
    ensures r != -1 ==> r in keys && b[r].piece == King
    ensures r != -1 ==> exists i :: (0 <= i < |keys| && keys[i] == r &&
      forall j :: 0 <= j < i ==> keys[j] in b && b[keys[j]].piece != King)
    decreases |keys|
  {
    if keys == [] then -1
    else
      var k0 := keys[0];
      assert k0 in keys;
      if b[k0].piece == King then k0
      else
        assert forall k :: k in keys ==> k == k0 || k in keys[1..];
        var r := FirstKing(b, keys[1..]);
        FirstAfterNonKing(b, keys, r);
        r
  }

  /** A king first in the tail of a list that starts with a non-king is
      first in the whole list. */
  lemma FirstAfterNonKing(b: Board, keys: seq<int>, r: int)
    requires |keys| > 0 && keys[0] in b && b[keys[0]].piece != King
    requires r != -1 ==> exists i :: (0 <= i < |keys| - 1 && keys[1..][i] == r &&
      forall j :: 0 <= j < i ==> keys[1..][j] in b && b[keys[1..][j]].piece != King)
    ensures r != -1 ==> exists i :: (0 <= i < |keys| && keys[i] == r &&
      forall j :: 0 <= j < i ==> keys[j] in b && b[keys[j]].piece != King)
  {
    if r != -1 {
      var i :| 0 <= i < |keys| - 1 && keys[1..][i] == r &&
        forall j :: 0 <= j < i ==> keys[1..][j] in b && b[keys[1..][j]].piece != King;
      assert keys[i + 1] == r;
      forall j | 0 <= j < i + 1 ensures keys[j] in b && b[keys[j]].piece != King {
        if j > 0 {
          assert keys[j] == keys[1..][j - 1];
        }
      }
    }
  }

  /** Where the king of colour `c` stands, or -1 when there is none. The
      scan stops at the first king of the descending key list, so with
      several kings of one colour it is the one with the largest key. */
  function FindKing(b: Board, c: PieceColor): (r: int)
    requires WellShaped(b)
    ensures r == -1 <==> forall k :: k in b && b[k].color == c ==> b[k].piece != King
    ensures r != -1 ==> r in b && b[r] == Cell(King, c)
    ensures r != -1 ==> forall k :: k in b && b[k] == Cell(King, c) ==> k <= r
  {
    assert !IsHexKey(-1);
    var keys := PieceKeys(b, c);
    FirstKingIsLargest(b, keys);
    FirstKing(b, keys)
  }

  /** In a descending list the first king has the largest key of all the
      listed kings. */
  lemma {:induction false} FirstKingIsLargest(b: Board, keys: seq<int>)
    requires forall k :: k in keys ==> k in b
    requires -1 !in keys
    requires StrictlyDescending(keys)
    ensures var r := FirstKing(b, keys);
      r != -1 ==> forall k :: k in keys && b[k].piece == King ==> k <= r
  {
    var r := FirstKing(b, keys);
    if r != -1 {
      var i :| 0 <= i < |keys| && keys[i] == r &&
        forall j :: 0 <= j < i ==> keys[j] in b && b[keys[j]].piece != King;
      NoKingAboveFirst(b, keys, i);
    }
  }

  /** When no king precedes position `i` of a descending list, no listed
      king has a larger key than the one at `i`. */
  lemma NoKingAboveFirst(b: Board, keys: seq<int>, i: int)
    requires forall k :: k in keys ==> k in b
    requires StrictlyDescending(keys)
    requires 0 <= i < |keys|
    requires forall j :: 0 <= j < i ==> keys[j] in b && b[keys[j]].piece != King
    ensures forall k :: k in keys && b[k].piece == King ==> k <= keys[i]
  {
    forall k | k in keys && b[k].piece == King ensures k <= keys[i] {
      var j :| 0 <= j < |keys| && keys[j] == k;
      if i < j {
        assert keys[i] > keys[j];
      }
    }
  }



  /** The square the mover's king occupies after the piece on `key` moves to
      `to`: the destination if the mover is that king, otherwise where the
      king already stood. */
  function KingSquareAfter(b: Board, key: int, to: int, kingKey: int): int
    requires key in b
  {
    if b[key].piece == King then to else kingKey
  }

  /** After moving `key` to `to` on a copy, the mover's king square is safe. */
  predicate KeepsKingSafe(b: Board, key: int, to: int, kingKey: int)
    requires WellShaped(b) && key in b && to in b && kingKey in b
  {
    var after := MoveKeys(b, key, to);
    !CanBeCaptured(after, KingSquareAfter(b, key, to, kingKey))
  }

  /** The destinations among `raw` that keep the king safe, pushed to the
      front of `acc`. */
  function FilterSafe(b: Board, key: int, kingKey: int, raw: seq<int>, acc: seq<int>): (r: seq<int>)
    requires WellShaped(b) && key in b && kingKey in b
    requires forall m :: m in raw ==> m in b
    ensures forall m :: m in r <==> m in acc || (m in raw && KeepsKingSafe(b, key, m, kingKey))
    decreases |raw|
  {
    if raw == [] then acc
    else
      var m, rest := raw[0], raw[1..];
      assert m in raw && m in b;
      assert forall q :: q in raw <==> q == m || q in rest;
      var acc' := if KeepsKingSafe(b, key, m, kingKey) then [m] + acc else acc;
      FilterSafe(b, key, kingKey, rest, acc')
  }

  /** The destinations of the piece on `key`. With `skipFilter`, or when the
      mover's colour has no king, these are the raw moves. Otherwise a raw
      destination is kept exactly when making the move leaves the mover's
      king square uncapturable. */
  function ValidMoves(b: Board, key: int, skipFilter: bool): (r: seq<int>)
    requires WellShaped(b) && key in b
    ensures forall m :: m in r ==> m in RawMoves(b, key)
    ensures skipFilter || FindKing(b, b[key].color) == -1 ==> r == RawMoves(b, key)
    ensures !skipFilter && FindKing(b, b[key].color) != -1 ==>
      forall m :: m in r <==> m in RawMoves(b, key) && KeepsKingSafe(b, key, m, FindKing(b, b[key].color))
  {
    var raw := RawMoves(b, key);
    var kingKey := FindKing(b, b[key].color);
    if skipFilter || kingKey == -1 then raw
    else FilterSafe(b, key, kingKey, raw, [])
  }

  /** The legal destinations as positions, for the position-based query. */
  function ValidMovePositions(b: Board, pos: Position): (r: seq<Position>)
    requires WellShaped(b) && ToPositionKey(pos) in b
    ensures forall p :: p in r <==> exists m :: m in ValidMoves(b, ToPositionKey(pos), false) && p == ToPosition(m)
  {
    var moves := ValidMoves(b, ToPositionKey(pos), false);
    ToPositions(moves, [])
  }

  function ToPositions(keys: seq<int>, acc: seq<Position>): (r: seq<Position>)
    ensures forall p :: p in r <==> p in acc || exists m :: m in keys && p == ToPosition(m)
    decreases |keys|
  {
    if keys == [] then acc
    else
      assert forall q :: q in keys <==> q == keys[0] || q in keys[1..];
      ToPositions(keys[1..], [ToPosition(keys[0])] + acc)
  }

  /** The (filtered or raw) destinations of every piece in `keys`, appended
      after `acc`. */
  function ConcatValidMoves(b: Board, keys: seq<int>, skipFilter: bool, acc: seq<int>): (r: seq<int>)
    requires WellShaped(b)
    requires forall k :: k in keys ==> k in b
    ensures forall m :: m in r <==> m in acc || exists p :: p in keys && m in ValidMoves(b, p, skipFilter)
    decreases |keys|
  {
    if keys == [] then acc
    else
      var p := keys[0];
      assert p in keys;
      assert forall q :: q in keys <==> q == p || q in keys[1..];
      ConcatValidMoves(b, keys[1..], skipFilter, acc + ValidMoves(b, p, skipFilter))
  }

  /** Every destination of every piece of colour `c`. */
  function AllPieceMoveKeys(b: Board, c: PieceColor, skipFilter: bool): (r: seq<int>)
    requires WellShaped(b)
    ensures forall m :: m in r <==> exists p :: p in b && b[p].color == c && m in ValidMoves(b, p, skipFilter)
  {
    ConcatValidMoves(b, PieceKeys(b, c), skipFilter, [])
  }

  /** Whether colour `c` has any legal move. */
  function HasValidMoves(b: Board, c: PieceColor): (r: bool)
    requires WellShaped(b)
    ensures r <==> exists p :: p in b && b[p].color == c && ValidMoves(b, p, false) != []
  {
    AnyMoveIsSomePiecesMove(b, c);
    |AllPieceMoveKeys(b, c, false)| > 0
  }

  lemma AnyMoveIsSomePiecesMove(b: Board, c: PieceColor)
    requires WellShaped(b)
    ensures |AllPieceMoveKeys(b, c, false)| > 0 <==>
      exists p :: p in b && b[p].color == c && ValidMoves(b, p, false) != []
  {
    var keys := PieceKeys(b, c);
    ConcatEmpty(b, keys, false, []);
    assert forall p :: p in keys <==> p in b && b[p].color == c;
  }

  /** Collecting the moves of several pieces yields nothing exactly when
      nothing was collected before and no piece has a move. */
  lemma {:induction false} ConcatEmpty(b: Board, keys: seq<int>, skipFilter: bool, acc: seq<int>)
    requires WellShaped(b)
    requires forall k :: k in keys ==> k in b
    ensures ConcatValidMoves(b, keys, skipFilter, acc) == [] <==>
      acc == [] && forall p :: p in keys ==> ValidMoves(b, p, skipFilter) == []
    decreases |keys|
  {
    if keys != [] {
      var p := keys[0];
      assert p in keys;
      var acc' := acc + ValidMoves(b, p, skipFilter);
      ConcatEmpty(b, keys[1..], skipFilter, acc');
      assert acc' == [] <==> acc == [] && ValidMoves(b, p, skipFilter) == [];
      assert forall q :: q in keys <==> q == p || q in keys[1..];
    }
  }

  /** With the filter skipped, collecting every piece's moves collects the
      raw moves, so attack detection is what `get_all_piece_move_keys` with
      `skip_filter` computes. */
  lemma {:induction false} ConcatSkipIsRaw(b: Board, keys: seq<int>, acc: seq<int>)
    requires WellShaped(b)
    requires forall k :: k in keys ==> k in b
    ensures ConcatValidMoves(b, keys, true, acc) == ConcatRawMoves(b, keys, acc)
    decreases |keys|
  {
    if keys != [] {
      assert keys[0] in keys;
      ConcatSkipIsRaw(b, keys[1..], acc + RawMoves(b, keys[0]));
    }
  }

  lemma SkipFilterIsRaw(b: Board, c: PieceColor)
    requires WellShaped(b)
    ensures AllPieceMoveKeys(b, c, true) == AllRawMoveKeys(b, c)
  {
    ConcatSkipIsRaw(b, PieceKeys(b, c), []);
  }

  /** On a board whose cells are well formed an empty square is never
      capturable: its opponent colour is "none", and only empty cells carry
      no colour. */
  lemma EmptySquareNeverCapturable(b: Board, key: int)
    requires WellShaped(b) && key in b
    requires forall k :: k in b ==> b[k].WellFormed()
    requires !b[key].HasPiece()
    ensures !CanBeCaptured(b, key)
  {
  }

  /** A piece standing where an opposing piece could move is capturable. */
  lemma AttackedPieceIsCapturable(b: Board, key: int, attacker: int)
    requires WellShaped(b) && key in b && attacker in b
    requires b[key].color != Absent && b[attacker].color == b[key].OppositeColor()
    requires key in RawMoves(b, attacker)
    ensures CanBeCaptured(b, key)
  {
  }

  /** The square the filter tests is the mover's king: after the trial move
      the mover's king stands on `KingSquareAfter`. */
  lemma FilterTracksMoversKing(b: Board, key: int, to: int)
    requires WellShaped(b) && key in b
    requires b[key].color != Absent
    requires FindKing(b, b[key].color) != -1
    requires to in RawMoves(b, key)
    ensures var kingKey := FindKing(b, b[key].color);
      var after := MoveKeys(b, key, to);
      KingSquareAfter(b, key, to, kingKey) in after
      && after[KingSquareAfter(b, key, to, kingKey)] == Cell(King, b[key].color)
  {
    var c := b[key].color;
    var kingKey := FindKing(b, c);
    if b[key].piece != King {
      assert kingKey != key;
      assert b[kingKey].HasPieceOfSameColor(b[key]);
      assert kingKey != to;
    }
  }

  /** No legal move leaves its own king capturable: after any move the
      filter keeps, the king of the mover's colour stands on a square that
      cannot be captured. */
  lemma LegalMoveKeepsKingSafe(b: Board, key: int, to: int)
    requires WellShaped(b) && key in b
    requires b[key].color != Absent
    requires FindKing(b, b[key].color) != -1
    requires to in ValidMoves(b, key, false)
    ensures var after := MoveKeys(b, key, to);
      exists k :: k in after && after[k] == Cell(King, b[key].color) && !CanBeCaptured(after, k)
  {
    var kingKey := FindKing(b, b[key].color);
    FilterTracksMoversKing(b, key, to);
    var k := KingSquareAfter(b, key, to, kingKey);
    assert KeepsKingSafe(b, key, to, kingKey);
    assert MoveKeys(b, key, to)[k] == Cell(King, b[key].color);
  }

  /** The keys returned by the engine's `get_possible_move_sources`: it walks
      the destinations of colour `c`'s pieces, not the pieces themselves,
      and keeps each destination whose own occupant could reach `target`. */
  function PossibleMoveSources(b: Board, target: int, c: PieceColor): (r: seq<int>)
    requires WellShaped(b)
    ensures forall s :: s in r <==> s in AllPieceMoveKeys(b, c, true) && target in RawMoves(b, s)
  {
    var all := AllPieceMoveKeys(b, c, true);
    assert forall m :: m in all ==> m in b;
    SourcesAmong(b, target, all, [])
  }

  function SourcesAmong(b: Board, target: int, moves: seq<int>, acc: seq<int>): (r: seq<int>)
    requires WellShaped(b)
    requires forall m :: m in moves ==> m in b
    ensures forall s :: s in r <==> s in acc || (s in moves && target in RawMoves(b, s))
    decreases |moves|
  {
    if moves == [] then acc
    else
      var s := moves[0];
      assert s in moves;
      assert forall q :: q in moves <==> q == s || q in moves[1..];
      SourcesAmong(b, target, moves[1..], if target in ValidMoves(b, s, true) then [s] + acc else acc)
  }

  /** As written, no key the engine's source lookup returns holds a piece of
      the colour asked about: each is a square that colour could move to,
      and raw moves never land on the mover's own colour. */
  lemma PossibleMoveSourcesNeverOfColor(b: Board, target: int, c: PieceColor, s: int)
    requires WellShaped(b) && c != Absent
    requires s in PossibleMoveSources(b, target, c)
    ensures s in b && b[s].color != c
  {
    var p :| p in b && b[p].color == c && s in ValidMoves(b, p, true);
  }

  /** The documented lookup: the pieces of colour `c` whose raw moves reach
      `target`. */
  function MoveSources(b: Board, target: int, c: PieceColor): (r: seq<int>)
    requires WellShaped(b)
    ensures forall s :: s in r <==> s in b && b[s].color == c && target in RawMoves(b, s)
  {
    SourcesAmong(b, target, PieceKeys(b, c), [])
  }

  /** As written, `get_all_piece_move_keys` returns destinations, not the
      pieces that own them: no key it returns holds a piece of the colour
      asked about, so none is among the pieces its documentation promises. */
  lemma AllPieceMoveKeysNeverOfColor(b: Board, c: PieceColor, skipFilter: bool, m: int)
    requires WellShaped(b) && c != Absent
    requires m in AllPieceMoveKeys(b, c, skipFilter)
    ensures m in b && (b[m].HasPiece() ==> b[m].color != c)
    ensures m !in PiecesWithMoves(b, c, skipFilter)
  {
    var p :| p in b && b[p].color == c && m in ValidMoves(b, p, skipFilter);
    assert m in RawMoves(b, p);
    assert !b[m].HasPieceOfSameColor(b[p]);
    assert m in PiecesWithMoves(b, c, skipFilter) ==> ValidMoves(b, m, skipFilter) != [];
  }

  /** The documented result: the pieces of colour `c` that have at least one
      (filtered or raw) move. */
  function PiecesWithMoves(b: Board, c: PieceColor, skipFilter: bool): (r: seq<int>)
    requires WellShaped(b)
    ensures forall p :: p in r <==> p in b && b[p].color == c && ValidMoves(b, p, skipFilter) != []
  {
    MovablePieces(b, PieceKeys(b, c), skipFilter, [])
  }

  function MovablePieces(b: Board, keys: seq<int>, skipFilter: bool, acc: seq<int>): (r: seq<int>)
    requires WellShaped(b)
    requires forall k :: k in keys ==> k in b
    ensures forall p :: p in r <==> p in acc || (p in keys && ValidMoves(b, p, skipFilter) != [])
    decreases |keys|
  {
    if keys == [] then acc
    else
      var p := keys[0];
      assert p in keys;
      assert forall q :: q in keys <==> q == p || q in keys[1..];
      MovablePieces(b, keys[1..], skipFilter, if ValidMoves(b, p, skipFilter) != [] then [p] + acc else acc)
  }

  /** The documented list and the list as written are empty together, so
      callers that only test for emptiness, as `are_there_valid_moves` does, see
      no difference. */
  lemma MovablePiecesExactlyWhenMoves(b: Board, c: PieceColor, skipFilter: bool)
    requires WellShaped(b)
    ensures PiecesWithMoves(b, c, skipFilter) == [] <==> AllPieceMoveKeys(b, c, skipFilter) == []
  {
    var keys := PieceKeys(b, c);
    var r := PiecesWithMoves(b, c, skipFilter);
    ConcatEmpty(b, keys, skipFilter, []);
    assert AllPieceMoveKeys(b, c, skipFilter) == ConcatValidMoves(b, keys, skipFilter, []);
    if r != [] {
      var p := r[0];
      assert p in r;
      assert p in keys && ValidMoves(b, p, skipFilter) != [];
    } else {
      forall p | p in keys ensures ValidMoves(b, p, skipFilter) == [] {
        assert p !in r;
      }
    }
  }
}
