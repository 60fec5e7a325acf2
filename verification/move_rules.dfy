/**
 Declarative statements of the movement rules, and proofs that the raw
 move generators produce exactly the destinations the rules allow.
 */
module MoveRules {
  import opened Coords
  import opened Cells
  import opened Boards
  import opened Moves

  ghost predicate EmptyAt(b: Board, k: int)
  {
    k in b && !b[k].HasPiece()
  }

  /** The first `n` cells of the ray from `cur` in direction `d` (`cur`
      itself included) are cells of the board and empty. */
  ghost predicate ClearUpTo(b: Board, d: Dir, cur: int, n: nat)
  {
    forall i :: 0 <= i < n ==> EmptyAt(b, StepN(d, cur, i))
  }

  /** `m` is reachable by sliding from `cur` in direction `d`: it lies on the
      ray, every cell before it is empty, and it is not held by the mover's
      own colour. */
  ghost predicate OnRay(b: Board, d: Dir, cur: int, mover: Cell, m: int)
  {
    exists n: nat :: m == StepN(d, cur, n) && ClearUpTo(b, d, cur, n) && CanSlideOnto(b, m, mover)
  }

  /** `m` is reachable by sliding from `key` along one of `dirs`. */
  ghost predicate OnSomeRay(b: Board, key: int, dirs: seq<Dir>, mover: Cell, m: int)
  {
    exists d :: d in dirs && OnRay(b, d, Step(d, key), mover, m)
  }

  /** Only a ray's start cell is reachable when that cell is not empty. */
  lemma NotClearPastStart(b: Board, d: Dir, cur: int, n: nat)
    requires !EmptyAt(b, cur) && n > 0
    ensures !ClearUpTo(b, d, cur, n)
  {
    assert StepN(d, cur, 0) == cur;
  }

  /** Nothing lies on a ray that starts off the board. */
  lemma OffBoardRayIsEmpty(b: Board, d: Dir, cur: int, mover: Cell, m: int)
    requires cur !in b
    ensures !OnRay(b, d, cur, mover, m)
  {
    forall n: nat | n > 0 ensures !ClearUpTo(b, d, cur, n) {
      NotClearPastStart(b, d, cur, n);
    }
    assert StepN(d, cur, 0) == cur;
  }

  /** A ray that starts on an occupied cell holds at most that cell. */
  lemma BlockedRayIsItsStart(b: Board, d: Dir, cur: int, mover: Cell, m: int)
    requires cur in b && b[cur].HasPiece()
    ensures OnRay(b, d, cur, mover, m) <==> m == cur && CanSlideOnto(b, cur, mover)
  {
    forall n: nat | n > 0 ensures !ClearUpTo(b, d, cur, n) {
      NotClearPastStart(b, d, cur, n);
    }
    assert StepN(d, cur, 0) == cur && ClearUpTo(b, d, cur, 0);
  }

  /** A ray that starts on an empty cell is that cell followed by the ray
      from the next cell. */
  lemma OpenRayUnfolds(b: Board, d: Dir, cur: int, mover: Cell, m: int)
    requires EmptyAt(b, cur)
    ensures OnRay(b, d, cur, mover, m) <==> m == cur || OnRay(b, d, Step(d, cur), mover, m)
  {
    var next := Step(d, cur);
    if OnRay(b, d, cur, mover, m) && m != cur {
      var n: nat :| m == StepN(d, cur, n) && ClearUpTo(b, d, cur, n) && CanSlideOnto(b, m, mover);
      assert n > 0;
      assert StepN(d, cur, n) == StepN(d, next, n - 1);
      forall i | 0 <= i < n - 1 ensures EmptyAt(b, StepN(d, next, i)) {
        assert StepN(d, cur, i + 1) == StepN(d, next, i);
      }
      assert ClearUpTo(b, d, next, n - 1);
    }
    if m == cur {
      assert StepN(d, cur, 0) == cur && ClearUpTo(b, d, cur, 0);
    }
    if OnRay(b, d, next, mover, m) {
      var n: nat :| m == StepN(d, next, n) && ClearUpTo(b, d, next, n) && CanSlideOnto(b, m, mover);
      assert StepN(d, cur, n + 1) == m;
      forall i | 0 <= i < n + 1 ensures EmptyAt(b, StepN(d, cur, i)) {
        if i > 0 {
          assert StepN(d, cur, i) == StepN(d, next, i - 1);
        }
      }
      assert ClearUpTo(b, d, cur, n + 1);
    }
  }

  /** A slide emits exactly the cells the sliding rule allows. */
  lemma {:induction false} SlideIsRay(b: Board, l: seq<int>, cur: int, d: Dir, mover: Cell)
    requires WellShaped(b)
    ensures forall m :: m in Slide(b, l, cur, d, mover) <==> m in l || OnRay(b, d, cur, mover, m)
    decreases if Ascends(d) then KeyBound - cur else cur + 1
  {
    if cur !in b {
      forall m ensures !OnRay(b, d, cur, mover, m) {
        OffBoardRayIsEmpty(b, d, cur, mover, m);
      }
    } else if b[cur].HasPiece() {
      forall m ensures OnRay(b, d, cur, mover, m) <==> m == cur && CanSlideOnto(b, cur, mover) {
        BlockedRayIsItsStart(b, d, cur, mover, m);
      }
    } else {
      HexKeyBounds(cur);
      SlideIsRay(b, [cur] + l, Step(d, cur), d, mover);
      forall m ensures OnRay(b, d, cur, mover, m) <==> m == cur || OnRay(b, d, Step(d, cur), mover, m) {
        OpenRayUnfolds(b, d, cur, mover, m);
      }
    }
  }

  /** Sliding along several directions emits the union of their rays. */
  lemma {:induction false} AddValidMovesAreRays(b: Board, l: seq<int>, key: int, dirs: seq<Dir>, mover: Cell)
    requires WellShaped(b)
    ensures forall m :: m in AddValidMoves(b, l, key, dirs, mover) <==> m in l || OnSomeRay(b, key, dirs, mover, m)
    decreases |dirs|
  {
    if dirs != [] {
      var d := dirs[0];
      var l' := Slide(b, l, Step(d, key), d, mover);
      SlideIsRay(b, l, Step(d, key), d, mover);
      AddValidMovesAreRays(b, l', key, dirs[1..], mover);
      forall m ensures OnSomeRay(b, key, dirs, mover, m) <==>
        OnRay(b, d, Step(d, key), mover, m) || OnSomeRay(b, key, dirs[1..], mover, m)
      {
        if OnSomeRay(b, key, dirs, mover, m) {
          var d' :| d' in dirs && OnRay(b, d', Step(d', key), mover, m);
          if d' != d {
            assert d' in dirs[1..];
          }
        }
        if OnSomeRay(b, key, dirs[1..], mover, m) {
          var d' :| d' in dirs[1..] && OnRay(b, d', Step(d', key), mover, m);
          assert d' in dirs;
        }
        if OnRay(b, d, Step(d, key), mover, m) {
          assert d in dirs;
        }
      }
    }
  }

  /** A step never returns to where it started, and repeated steps in one
      direction keep moving the key the same way. */
  lemma {:induction false} StepNMonotone(d: Dir, key: int, i: nat, j: nat)
    requires i < j
    ensures Ascends(d) ==> StepN(d, key, i) < StepN(d, key, j)
    ensures !Ascends(d) ==> StepN(d, key, i) > StepN(d, key, j)
    decreases j
  {
    if i == 0 {
      if j > 1 {
        StepNMonotone(d, Step(d, key), 0, j - 1);
      }
    } else {
      StepNMonotone(d, Step(d, key), i - 1, j - 1);
    }
  }

  /** Nothing beyond the first occupied cell of a ray is emitted, and that
      cell is emitted exactly when it does not hold the mover's colour. */
  lemma SlideStopsAtFirstPiece(b: Board, cur: int, d: Dir, mover: Cell, n: nat)
    requires WellShaped(b)
    requires ClearUpTo(b, d, cur, n)
    requires StepN(d, cur, n) in b && b[StepN(d, cur, n)].HasPiece()
    ensures StepN(d, cur, n) in Slide(b, [], cur, d, mover) <==> !b[StepN(d, cur, n)].HasPieceOfSameColor(mover)
    ensures forall j: nat :: j > n ==> StepN(d, cur, j) !in Slide(b, [], cur, d, mover)
  {
    SlideIsRay(b, [], cur, d, mover);
    var blocker := StepN(d, cur, n);
    if !b[blocker].HasPieceOfSameColor(mover) {
      assert OnRay(b, d, cur, mover, blocker);
    }
    if OnRay(b, d, cur, mover, blocker) {
      var n': nat :| blocker == StepN(d, cur, n') && ClearUpTo(b, d, cur, n') && CanSlideOnto(b, blocker, mover);
      if n' != n {
        if n' < n { StepNMonotone(d, cur, n', n); } else { StepNMonotone(d, cur, n, n'); }
      }
    }
    forall j: nat | j > n ensures StepN(d, cur, j) !in Slide(b, [], cur, d, mover) {
      if OnRay(b, d, cur, mover, StepN(d, cur, j)) {
        var n': nat :| StepN(d, cur, j) == StepN(d, cur, n') && ClearUpTo(b, d, cur, n')
          && CanSlideOnto(b, StepN(d, cur, j), mover);
        if n' != j {
          if n' < j { StepNMonotone(d, cur, n', j); } else { StepNMonotone(d, cur, j, n'); }
        }
      }
    }
  }

  /** Bishop destinations are exactly the six diagonal rays. */
  lemma BishopMovesAreRays(b: Board, key: int, mover: Cell)
    requires WellShaped(b)
    ensures forall m :: m in BishopMoves(b, [], key, mover) <==> OnSomeRay(b, key, BishopDirs, mover, m)
  {
    AddValidMovesAreRays(b, [], key, BishopDirs, mover);
  }

  /** Rook destinations are exactly the six straight rays. */
  lemma RookMovesAreRays(b: Board, key: int, mover: Cell)
    requires WellShaped(b)
    ensures forall m :: m in RookMoves(b, [], key, mover) <==> OnSomeRay(b, key, RookDirs, mover, m)
  {
    AddValidMovesAreRays(b, [], key, RookDirs, mover);
  }

  /** Queen moves are bishop moves plus rook moves. */
  lemma QueenIsBishopPlusRook(b: Board, key: int, mover: Cell)
    requires WellShaped(b)
    ensures forall m :: m in QueenMoves(b, [], key, mover) <==>
      m in BishopMoves(b, [], key, mover) || m in RookMoves(b, [], key, mover)
  {
    AddValidMovesAreRays(b, BishopMoves(b, [], key, mover), key, RookDirs, mover);
    AddValidMovesAreRays(b, [], key, RookDirs, mover);
  }

  /** The pawn rule: one step forward onto an empty cell; a second step from
      a start cell of its colour when both cells ahead are empty; a diagonal
      step forward only onto a piece of the other colour. A pawn without a
      colour does not move. */
  ghost predicate PawnRule(b: Board, key: int, mover: Cell, m: int)
  {
    && mover.color != Absent
    && var fwd := PawnForward(mover.color);
       var one := Step(fwd, key);
       || (m == one && EmptyAt(b, one))
       || (m == Step(fwd, one) && IsInitialPawnCell(key, mover) && EmptyAt(b, one) && EmptyAt(b, m))
       || ((m == Step(PawnTakeLeft(mover.color), key) || m == Step(PawnTakeRight(mover.color), key))
           && m in b && b[m].HasPieceOfOppositeColor(mover))
  }

  lemma PawnMovesFollowRule(b: Board, key: int, mover: Cell)
    ensures forall m :: m in PawnMoves(b, [], key, mover) <==> PawnRule(b, key, mover, m)
  {
  }

  /** The two-step move needs a start cell and an empty cell in between. */
  lemma PawnDoubleStepNeedsStartCell(b: Board, key: int, mover: Cell)
    requires mover.color != Absent
    ensures var fwd := PawnForward(mover.color);
      var two := Step(fwd, Step(fwd, key));
      two in PawnMoves(b, [], key, mover) ==> IsInitialPawnCell(key, mover) && EmptyAt(b, Step(fwd, key)) && EmptyAt(b, two)
  {
    PawnMovesFollowRule(b, key, mover);
  }

  /** From a start cell with both cells ahead empty, a pawn has both the
      single and the double step. */
  lemma PawnDoubleStepFromStart(b: Board, key: int, mover: Cell)
    requires mover.color != Absent && IsInitialPawnCell(key, mover)
    requires var fwd := PawnForward(mover.color);
      EmptyAt(b, Step(fwd, key)) && EmptyAt(b, Step(fwd, Step(fwd, key)))
    ensures var fwd := PawnForward(mover.color);
      Step(fwd, key) in PawnMoves(b, [], key, mover) && Step(fwd, Step(fwd, key)) in PawnMoves(b, [], key, mover)
  {
    PawnMovesFollowRule(b, key, mover);
  }

  /** A piece directly ahead blocks both forward moves. */
  lemma PawnBlockedAhead(b: Board, key: int, mover: Cell)
    requires mover.color != Absent
    requires var one := Step(PawnForward(mover.color), key); one in b && b[one].HasPiece()
    ensures var fwd := PawnForward(mover.color);
      Step(fwd, key) !in PawnMoves(b, [], key, mover) && Step(fwd, Step(fwd, key)) !in PawnMoves(b, [], key, mover)
  {
    PawnMovesFollowRule(b, key, mover);
  }

  /** Knight destinations: the twelve L-shaped targets that exist and are
      empty or hold the other colour. */
  lemma KnightMovesRule(b: Board, key: int, mover: Cell)
    ensures forall m :: m in KnightMoves(b, [], key, mover) <==>
      m in KnightTargets(key) && CanStepOnto(b, m, mover, true)
    ensures |KnightMoves(b, [], key, mover)| <= 12
  {
  }

  /** King destinations: the twelve neighbours that exist and are empty or
      hold the other colour. */
  lemma KingMovesRule(b: Board, key: int, mover: Cell)
    ensures forall m :: m in KingMoves(b, [], key, mover) <==>
      (exists d :: d in KingDirs && m == Step(d, key)) && CanStepOnto(b, m, mover, true)
    ensures |KingMoves(b, [], key, mover)| <= 12
  {
    forall m ensures m in KingTargets(key) <==> exists d :: d in KingDirs && m == Step(d, key) {
      if m in KingTargets(key) {
        var i :| 0 <= i < 12 && KingTargets(key)[i] == m;
        assert KingDirs[i] in KingDirs;
      }
      if exists d :: d in KingDirs && m == Step(d, key) {
        var d :| d in KingDirs && m == Step(d, key);
        var i :| 0 <= i < 12 && KingDirs[i] == d;
        assert KingTargets(key)[i] == m;
      }
    }
  }

  /** King adjacency is symmetric on the board: the king can step back. */
  lemma KingStepsReversible(key: int, m: int)
    requires IsHexKey(key) && IsHexKey(m)
    requires m in KingTargets(key)
    ensures key in KingTargets(m)
  {
    var i :| 0 <= i < 12 && KingTargets(key)[i] == m;
    var d := KingDirs[i];
    StepInverse(d, key);
    var o := Reverse(d);
    assert o in KingDirs;
    var j :| 0 <= j < 12 && KingDirs[j] == o;
    assert KingTargets(m)[j] == key;
  }

  /** The raw moves of each kind of piece follow that piece's rule. */
  lemma RawMovesFollowRules(b: Board, key: int, m: int)
    requires WellShaped(b) && key in b
    ensures var mover := b[key]; m in RawMoves(b, key) <==> match mover.piece
      case None => false
      case Pawn => PawnRule(b, key, mover, m)
      case Knight => m in KnightTargets(key) && CanStepOnto(b, m, mover, true)
      case Bishop => OnSomeRay(b, key, BishopDirs, mover, m)
      case Rook => OnSomeRay(b, key, RookDirs, mover, m)
      case Queen => OnSomeRay(b, key, BishopDirs, mover, m) || OnSomeRay(b, key, RookDirs, mover, m)
      case King => (exists d :: d in KingDirs && m == Step(d, key)) && CanStepOnto(b, m, mover, true)
  {
    var mover := b[key];
    match mover.piece
    case None =>
    case Pawn => PawnMovesFollowRule(b, key, mover);
    case Knight => KnightMovesRule(b, key, mover);
    case Bishop => BishopMovesAreRays(b, key, mover);
    case Rook => RookMovesAreRays(b, key, mover);
    case Queen =>
      QueenIsBishopPlusRook(b, key, mover);
      BishopMovesAreRays(b, key, mover);
      RookMovesAreRays(b, key, mover);
    case King => KingMovesRule(b, key, mover);
  }
}
