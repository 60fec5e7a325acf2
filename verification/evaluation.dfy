/**
 Static evaluation: material balance with a penalty for a king in check.
 White counts positive, black negative.
 */
module Evaluation {
  import opened Coords
  import opened Cells
  import opened Boards
  import opened Moves
  import opened Legality
  import opened MoveRules

  const KingValue: int := 100

  /** The engine's value table. Looking up a type the table lacks (`none`)
      default-inserts and yields 0; every real piece is worth something, and
      the king is worth the most. */
  function PieceValue(t: PieceType): (v: int)
    ensures 0 <= v <= KingValue
    ensures v == 0 <==> t == None
    ensures t != King ==> v < KingValue
  {
    match t
    case None => 0
    case Pawn => 1
    case Knight => 3
    case Bishop => 3
    case Rook => 5
    case Queen => 9
    case King => KingValue
  }

  /** What the piece on `k` adds to the score. A king adds nothing unless it
      can be captured; then it costs its side the king's value. */
  function Contribution(b: Board, k: int): (v: int)
    requires WellShaped(b) && k in b
    ensures -KingValue <= v <= KingValue
  {
    var c := b[k];
    match c.color
    case Absent => 0
    case White =>
      if c.piece == King then (if CanBeCaptured(b, k) then -KingValue else 0)
      else PieceValue(c.piece)
    case Black =>
      if c.piece == King then (if CanBeCaptured(b, k) then KingValue else 0)
      else -PieceValue(c.piece)
  }

  function SumContributions(b: Board, keys: seq<int>): int
    requires WellShaped(b)
    requires forall k :: k in keys ==> k in b
    decreases |keys|
  {
    if keys == [] then 0
    else
      assert keys[0] in keys;
      Contribution(b, keys[0]) + SumContributions(b, keys[1..])
  }

  /** The score as one sum over every cell of the board. */
  function MaterialBalance(b: Board): int
    requires WellShaped(b)
  {
    AllKeysSpec();
    SumContributions(b, AllKeys())
  }

  /** The sum over the cells of `keys` that hold colour `c`. */
  function SumOfColor(b: Board, keys: seq<int>, c: PieceColor): int
    requires WellShaped(b)
    requires forall k :: k in keys ==> k in b
    decreases |keys|
  {
    if keys == [] then 0
    else
      assert keys[0] in keys;
      (if b[keys[0]].color == c then Contribution(b, keys[0]) else 0) + SumOfColor(b, keys[1..], c)
  }

  lemma {:induction false} CollectedSum(b: Board, keys: seq<int>, c: PieceColor, l: seq<int>)
    requires WellShaped(b)
    requires forall k :: k in keys ==> k in b
    requires forall k :: k in l ==> k in b
    ensures SumContributions(b, CollectColor(b, keys, c, l)) == SumContributions(b, l) + SumOfColor(b, keys, c)
    decreases |keys|
  {
    if keys != [] {
      var k0 := keys[0];
      assert k0 in keys;
      var l' := if b[k0].color == c then [k0] + l else l;
      CollectedSum(b, keys[1..], c, l');
      if b[k0].color == c {
        assert l'[1..] == l;
      }
    }
  }

  lemma {:induction false} SplitByColor(b: Board, keys: seq<int>)
    requires WellShaped(b)
    requires forall k :: k in keys ==> k in b
    ensures SumContributions(b, keys) == SumOfColor(b, keys, White) + SumOfColor(b, keys, Black)
    decreases |keys|
  {
    if keys != [] {
      assert keys[0] in keys;
      SplitByColor(b, keys[1..]);
    }
  }

  /** Peels the first cell off a suffix sum. */
  lemma SumFrom(b: Board, keys: seq<int>, i: int)
    requires WellShaped(b)
    requires forall k :: k in keys ==> k in b
    requires 0 <= i < |keys|
    ensures keys[i] in b
    ensures SumContributions(b, keys[i..]) == Contribution(b, keys[i]) + SumContributions(b, keys[i + 1..])
  {
    assert keys[i] in keys;
    assert keys[i..][1..] == keys[i + 1..];
  }

  /** What a white cell adds, in the shape of the engine's first loop body. */
  lemma WhiteContribution(b: Board, k: int)
    requires WellShaped(b) && k in b && b[k].color == White
    ensures Contribution(b, k) ==
      if b[k].piece == King then (if CanBeCaptured(b, k) then -KingValue else 0) else PieceValue(b[k].piece)
  {
  }

  /** What a black cell adds, in the shape of the engine's second loop body. */
  lemma BlackContribution(b: Board, k: int)
    requires WellShaped(b) && k in b && b[k].color == Black
    ensures Contribution(b, k) ==
      if b[k].piece == King then (if CanBeCaptured(b, k) then KingValue else 0) else -PieceValue(b[k].piece)
  {
  }

  /** The material balance is the sum over the white pieces plus the sum
      over the black pieces, as `get_piece_keys` lists them. */
  lemma BalanceSplits(b: Board)
    requires WellShaped(b)
    ensures MaterialBalance(b) == SumContributions(b, PieceKeys(b, White)) + SumContributions(b, PieceKeys(b, Black))
  {
    AllKeysSpec();
    CollectedSum(b, AllKeys(), White, []);
    CollectedSum(b, AllKeys(), Black, []);
    SplitByColor(b, AllKeys());
  }

  /** The engine's evaluation: one pass over the white pieces, one over the
      black pieces. */
  method Evaluate(b: Board) returns (score: int)
    requires WellShaped(b)
    ensures score == MaterialBalance(b)
  {
    score := 0;
    var whites := PieceKeys(b, White);
    var i := 0;
    while i < |whites|
      invariant 0 <= i <= |whites|
      invariant score + SumContributions(b, whites[i..]) == SumContributions(b, whites)
    {
      var k := whites[i];
      SumFrom(b, whites, i);
      WhiteContribution(b, k);
      if b[k].piece == King {
        if CanBeCaptured(b, k) {
          score := score - KingValue;
        }
      } else {
        score := score + PieceValue(b[k].piece);
      }
      i := i + 1;
    }
    var blacks := PieceKeys(b, Black);
    var j := 0;
    while j < |blacks|
      invariant 0 <= j <= |blacks|
      invariant score + SumContributions(b, blacks[j..]) == SumContributions(b, whites) + SumContributions(b, blacks)
    {
      var k := blacks[j];
      SumFrom(b, blacks, j);
      BlackContribution(b, k);
      if b[k].piece == King {
        if CanBeCaptured(b, k) {
          score := score + KingValue;
        }
      } else {
        score := score - PieceValue(b[k].piece);
      }
      j := j + 1;
    }
    BalanceSplits(b);
  }

  /** A board without any coloured cell scores 0. */
  lemma {:induction false} UncoloredSumIsZero(b: Board, keys: seq<int>)
    requires WellShaped(b)
    requires forall k :: k in keys ==> k in b && b[k].color == Absent
    ensures SumContributions(b, keys) == 0
    decreases |keys|
  {
    if keys != [] {
      assert keys[0] in keys;
      UncoloredSumIsZero(b, keys[1..]);
    }
  }

  lemma EmptyBoardScoresZero(b: Board)
    requires WellShaped(b)
    requires forall k :: k in b ==> b[k].color == Absent
    ensures MaterialBalance(b) == 0
  {
    AllKeysSpec();
    UncoloredSumIsZero(b, AllKeys());
  }

  /** The score fits easily in 32 bits: at most one king's value per cell. */
  lemma {:induction false} SumBounded(b: Board, keys: seq<int>)
    requires WellShaped(b)
    requires forall k :: k in keys ==> k in b
    ensures -KingValue * |keys| <= SumContributions(b, keys) <= KingValue * |keys|
    decreases |keys|
  {
    if keys != [] {
      assert keys[0] in keys;
      SumBounded(b, keys[1..]);
    }
  }

  lemma ScoreFitsInt32(b: Board)
    requires WellShaped(b)
    ensures -9100 <= MaterialBalance(b) <= 9100
    ensures -0x8000_0000 <= MaterialBalance(b) < 0x8000_0000
  {
    AllKeysSpec();
    HexCellCount();
    SumBounded(b, AllKeys());
  }

  /** The same board with every piece's colour swapped. */
  function SwapColors(b: Board): (r: Board)
    ensures r.Keys == b.Keys
  {
    map k | k in b :: Cell(b[k].piece, Opposite(b[k].color))
  }

  /** Swapping twice gives the board back, and the swap keeps the board's
      shape. */
  lemma SwapColorsInvolutive(b: Board)
    ensures SwapColors(SwapColors(b)) == b
    ensures WellShaped(b) ==> WellShaped(SwapColors(b))
  {
    forall k | k in b ensures SwapColors(SwapColors(b))[k] == b[k] {
      OppositeInvolutive(b[k].color);
    }
  }

  /** One cell of the swapped board. */
  lemma SwapColorsAt(b: Board, k: int)
    requires k in b
    ensures k in SwapColors(b)
    ensures SwapColors(b)[k] == Cell(b[k].piece, Opposite(b[k].color))
  {
  }

  predicate KingFree(b: Board)
  {
    forall k :: k in b ==> b[k].piece != King
  }

  lemma {:induction false} SwappedSumNegates(b: Board, keys: seq<int>)
    requires WellShaped(b) && KingFree(b)
    requires forall k :: k in keys ==> k in b
    ensures SumContributions(SwapColors(b), keys) == -SumContributions(b, keys)
    decreases |keys|
  {
    if keys != [] {
      assert keys[0] in keys;
      SwappedSumNegates(b, keys[1..]);
    }
  }

  /** Without kings, swapping every colour negates the score. (With kings
      it need not: pawns of the two colours attack in different directions,
      so whether a king is in check is not colour-symmetric.) */
  lemma KingFreeEvaluationAntisymmetric(b: Board)
    requires WellShaped(b) && KingFree(b)
    ensures WellShaped(SwapColors(b))
    ensures MaterialBalance(SwapColors(b)) == -MaterialBalance(b)
  {
    AllKeysSpec();
    SwappedSumNegates(b, AllKeys());
  }

  /** A white king on (3, 3) and a black pawn on (4, 4); every other cell
      is empty. */
  predicate PawnCheckSetup(b: Board)
  {
    && WellShaped(b) && 771 in b && 1028 in b
    && b[771] == Cell(King, White) && b[1028] == Cell(Pawn, Black)
    && forall k :: k in b && k != 771 && k != 1028 ==> b[k] == EmptyCell
  }

  /** That position exists. */
  function PawnCheckBoard(): (b: Board)
    ensures PawnCheckSetup(b)
  {
    assert IsHexKey(771) && IsHexKey(1028);
    map k | k in HexKeys() ::
      if k == 771 then Cell(King, White)
      else if k == 1028 then Cell(Pawn, Black)
      else EmptyCell
  }

  /** Swapping colours need not negate the score once kings are on the
      board. A black pawn takes downwards, so on a `PawnCheckSetup` board
      it checks the white king and the score is -101. After the swap the
      pawn is white, takes upwards, and misses the now black king: the
      score is 1, not 101. */
  lemma PawnCheckBreaksAntisymmetry(b: Board)
    requires PawnCheckSetup(b)
    ensures CanBeCaptured(b, 771) && !CanBeCaptured(SwapColors(b), 771)
    ensures MaterialBalance(SwapColors(b)) != -MaterialBalance(b)
  {
    PawnChecksKing(b);
    SwappedPawnMissesKing(b);
    PawnCheckScore(b);
    SwappedPawnCheckScore(b);
  }

  /** The checked white king costs 100 and the black pawn 1. */
  lemma PawnCheckScore(b: Board)
    requires PawnCheckSetup(b)
    ensures MaterialBalance(b) == -KingValue - 1
  {
    PawnChecksKing(b);
    CheckedKingAndPawnScore(b);
  }

  /** A checked white king on (3, 3) and a black pawn on (4, 4) alone
      score -101. */
  lemma CheckedKingAndPawnScore(s: Board)
    requires WellShaped(s) && 771 in s && 1028 in s
    requires s[771] == Cell(King, White) && CanBeCaptured(s, 771)
    requires s[1028] == Cell(Pawn, Black)
    requires forall k :: k in s && k != 771 && k != 1028 ==> s[k].color == Absent
    ensures MaterialBalance(s) == -KingValue - 1
  {
    CheckedKingContribution(s, 771);
    BlackPawnContribution(s, 1028);
    TwoCellBalance(s, 771, 1028);
  }

  lemma CheckedKingContribution(b: Board, k: int)
    requires WellShaped(b) && k in b
    requires b[k] == Cell(King, White) && CanBeCaptured(b, k)
    ensures Contribution(b, k) == -KingValue
  {
  }

  lemma BlackPawnContribution(b: Board, k: int)
    requires WellShaped(b) && k in b
    requires b[k] == Cell(Pawn, Black)
    ensures Contribution(b, k) == -1
  {
  }

  /** After the swap the safe black king adds nothing and the white pawn 1. */
  lemma SwappedPawnCheckScore(b: Board)
    requires PawnCheckSetup(b)
    ensures MaterialBalance(SwapColors(b)) == 1
  {
    SwappedSetup(b);
    SwappedPawnMissesKing(b);
    SafeKingAddsNothing(SwapColors(b), 771);
    SafeKingAndPawnScore(SwapColors(b));
  }

  /** A king that cannot be captured adds nothing to the score. */
  lemma SafeKingAddsNothing(b: Board, k: int)
    requires WellShaped(b) && k in b && b[k].piece == King && !CanBeCaptured(b, k)
    ensures Contribution(b, k) == 0
  {
  }

  /** A king on (3, 3) that adds nothing and a white pawn on (4, 4) alone
      score 1. */
  lemma SafeKingAndPawnScore(s: Board)
    requires WellShaped(s) && 771 in s && 1028 in s
    requires Contribution(s, 771) == 0 && s[1028] == Cell(Pawn, White)
    requires forall k :: k in s && k != 771 && k != 1028 ==> s[k].color == Absent
    ensures MaterialBalance(s) == 1
  {
    assert Contribution(s, 1028) == 1;
    TwoCellBalance(s, 771, 1028);
  }

  /** The swapped position: a black king on (3, 3), a white pawn on (4, 4). */
  lemma SwappedSetup(b: Board)
    requires PawnCheckSetup(b)
    ensures WellShaped(SwapColors(b))
    ensures SwapColors(b)[771] == Cell(King, Black) && SwapColors(b)[1028] == Cell(Pawn, White)
    ensures forall k :: k in SwapColors(b) && k != 771 && k != 1028 ==> SwapColors(b)[k].color == Absent
  {
    SwapColorsAt(b, 771);
    SwapColorsAt(b, 1028);
    forall k | k in SwapColors(b) && k != 771 && k != 1028
      ensures SwapColors(b)[k].color == Absent
    {
      SwapColorsAt(b, k);
    }
  }

  /** The black pawn on (4, 4) takes down-left onto (3, 3), where the white
      king stands. */
  lemma PawnChecksKing(b: Board)
    requires PawnCheckSetup(b)
    ensures CanBeCaptured(b, 771)
  {
    PawnMovesFollowRule(b, 1028, b[1028]);
    assert Step(HBottomLeft, 1028) == 771;
    assert 771 in RawMoves(b, 1028);
  }

  /** After the swap the only white piece is the pawn on (4, 4), whose
      moves all lie above or beside it, so the black king on (3, 3) is
      safe. */
  lemma SwappedPawnMissesKing(b: Board)
    requires PawnCheckSetup(b)
    ensures !CanBeCaptured(SwapColors(b), 771)
  {
    var s := SwapColors(b);
    SwappedSetup(b);
    PawnMovesFollowRule(s, 1028, s[1028]);
    assert Step(HTopLeft, 1028) == 772 && Step(HTopRight, 1028) == 1285;
    assert 771 !in RawMoves(s, 1028);
    forall p | p in s && s[p].color == White ensures p == 1028 { }
  }

  /** On a board where only `p` and `q` may hold a colour, the score is
      what those two cells contribute. */
  lemma TwoCellBalance(b: Board, p: int, q: int)
    requires WellShaped(b) && p in b && q in b && p != q
    requires forall k :: k in b && k != p && k != q ==> b[k].color == Absent
    ensures MaterialBalance(b) == Contribution(b, p) + Contribution(b, q)
  {
    AllKeysSpec();
    SumOfTwoCells(b, AllKeys(), p, q);
  }

  /** Over distinct keys on which only `p` and `q` may hold a colour, the
      sum is what those two cells contribute. */
  lemma {:induction false} SumOfTwoCells(b: Board, keys: seq<int>, p: int, q: int)
    requires WellShaped(b) && p in b && q in b && p != q
    requires forall k :: k in keys ==> k in b
    requires StrictlyAscending(keys)
    requires forall k :: k in keys && k != p && k != q ==> b[k].color == Absent
    ensures SumContributions(b, keys) ==
      (if p in keys then Contribution(b, p) else 0) + (if q in keys then Contribution(b, q) else 0)
    decreases |keys|
  {
    if keys != [] {
      var rest := keys[1..];
      assert keys[0] in keys;
      assert forall k :: k in keys <==> k == keys[0] || k in rest;
      assert keys[0] !in rest by {
        forall i | 0 <= i < |rest| ensures rest[i] != keys[0] {
          assert rest[i] == keys[i + 1];
        }
      }
      assert StrictlyAscending(rest) by {
        forall i, j | 0 <= i < j < |rest| ensures rest[i] < rest[j] {
          assert rest[i] == keys[i + 1] && rest[j] == keys[j + 1];
        }
      }
      SumOfTwoCells(b, rest, p, q);
    }
  }
}
