/**
 The coordinate system of the hexagonal board.

 A cell is addressed by a column `x` and a height `y` inside that column.
 The pair is packed into one integer key, `(x << 8) + y`, which is what
 every board operation works on. The board has 11 columns (0..10); the
 median column 5 is the tallest. Columns left of the median are shifted
 up by half a cell relative to their right neighbour, so each direction
 step has to correct `y` depending on which side of the median it starts.
 */
module Coords {

  /** Index of the tallest column. */
  const Median: int := 5
  /** Largest column index, and largest height index of the median column. */
  const MaxIndex: int := 10
  /** One column to the right in key space: `1 << 8`. */
  const StepX: int := 256
  /** Every key of a well-formed board is below this bound. */
  const KeyBound: int := (MaxIndex + 1) * StepX

  datatype Position = Position(x: int, y: int)

  /** `(x << 8) + y`: a left shift by eight is a multiplication by 256. A
      height that fits in eight bits is recovered by `GetY`, and the column
      by `GetX`. */
  function ToKey(x: int, y: int): (k: int)
    ensures 0 <= y < StepX ==> GetX(k) == x && GetY(k) == y
  {
    x * StepX + y
  }

  /** Packs a position; a height that fits in eight bits unpacks to the
      same position. */
  function ToPositionKey(p: Position): (k: int)
    ensures 0 <= p.y < StepX ==> GetX(k) == p.x && GetY(k) == p.y
  {
    ToKey(p.x, p.y)
  }

  /** `key >> 8`, an arithmetic shift, which is floor division by 256. */
  function GetX(key: int): (x: int)
    ensures x * StepX <= key < x * StepX + StepX
  {
    key / StepX
  }

  /** `key & 0xFF`, the low eight bits: what is left of the key above them
      is a whole number of columns. */
  function GetY(key: int): (y: int)
    ensures 0 <= y < StepX
    ensures key - y == GetX(key) * StepX
  {
    key % StepX
  }

  /** Unpacks a key; packing the result gives the key back. */
  function ToPosition(key: int): (p: Position)
    ensures ToPositionKey(p) == key
  {
    Position(GetX(key), GetY(key))
  }

  /** Decoding a key and packing it again gives back the key, for every
      integer: Dafny's Euclidean `/` and `%` agree with `>>` and `&` on
      negative keys too. */
  lemma KeyRoundTrip(key: int)
    ensures ToKey(GetX(key), GetY(key)) == key
    ensures 0 <= GetY(key) < StepX
    ensures ToPositionKey(ToPosition(key)) == key
  {
  }

  /** A packed pair whose height fits in eight bits decodes to itself. */
  lemma PositionRoundTrip(x: int, y: int)
    requires 0 <= y < StepX
    ensures GetX(ToKey(x, y)) == x && GetY(ToKey(x, y)) == y
    ensures ToPosition(ToKey(x, y)) == Position(x, y)
  {
    var k := ToKey(x, y);
    assert k == x * 256 + y;
    assert k / 256 == x && k % 256 == y by {
      DivModUnique(k, x, y);
    }
  }

  lemma DivModUnique(k: int, q: int, r: int)
    requires 0 <= r < 256 && k == q * 256 + r
    ensures k / 256 == q && k % 256 == r
  {
  }

  /** Largest height index of column `x`, computed the way the board's
      constructor computes it: `median + x`, folded back past `max`. */
  function ColumnTop(x: int): int
  {
    var top := Median + x;
    if top > MaxIndex then MaxIndex - top % MaxIndex else top
  }

  /** Column heights are 6,7,8,9,10,11,10,9,8,7,6. */
  lemma ColumnHeights(x: int)
    requires 0 <= x <= MaxIndex
    ensures ColumnTop(x) + 1 == 11 - (if x <= Median then Median - x else x - Median)
    ensures ColumnTop(x) + 1 == [6, 7, 8, 9, 10, 11, 10, 9, 8, 7, 6][x]
  {
  }

  /** The key names a cell of the hexagon. */
  predicate IsHexKey(key: int)
  {
    0 <= GetX(key) <= MaxIndex && GetY(key) <= ColumnTop(GetX(key))
  }

  lemma HexKeyBounds(key: int)
    requires IsHexKey(key)
    ensures 0 <= key < KeyBound
    ensures 0 <= GetY(key) <= MaxIndex
  {
    KeyRoundTrip(key);
  }

  /** The set of all keys of the hexagon. */
  function HexKeys(): (s: set<int>)
    ensures forall k :: k in s <==> IsHexKey(k)
  {
    assert forall k :: IsHexKey(k) ==> 0 <= k < KeyBound by {
      forall k | IsHexKey(k) ensures 0 <= k < KeyBound { HexKeyBounds(k); }
    }
    set k | 0 <= k < KeyBound && IsHexKey(k)
  }

  /** The hexagon is exactly the packed pairs `(x, y)` with `0 <= x <= 10` and
      `0 <= y <= ColumnTop(x)`. */
  lemma HexKeysArePackedPairs(key: int)
    ensures key in HexKeys() <==>
      exists x, y :: 0 <= x <= MaxIndex && 0 <= y <= ColumnTop(x) && key == ToKey(x, y)
  {
    if key in HexKeys() {
      KeyRoundTrip(key);
      assert 0 <= GetY(key) <= ColumnTop(GetX(key)) && key == ToKey(GetX(key), GetY(key));
    }
    if exists x, y :: 0 <= x <= MaxIndex && 0 <= y <= ColumnTop(x) && key == ToKey(x, y) {
      var x, y :| 0 <= x <= MaxIndex && 0 <= y <= ColumnTop(x) && key == ToKey(x, y);
      ColumnHeights(x);
      PositionRoundTrip(x, y);
    }
  }

  /** The keys of column `x` in ascending order. */
  function ColumnKeys(x: int): (s: seq<int>)
    requires 0 <= x <= MaxIndex
    ensures |s| == ColumnTop(x) + 1
    ensures forall i :: 0 <= i < |s| ==> s[i] == ToKey(x, i)
  {
    ColumnHeights(x);
    seq(ColumnTop(x) + 1, i => ToKey(x, i))
  }

  /** The keys of columns `x..10` in ascending order: the order in which a
      `std::map` keyed by the packed key is iterated. */
  function KeysFrom(x: int): seq<int>
    requires 0 <= x <= MaxIndex + 1
    decreases MaxIndex + 1 - x
  {
    if x > MaxIndex then [] else ColumnKeys(x) + KeysFrom(x + 1)
  }

  /** All keys of the board, ascending. */
  function AllKeys(): seq<int>
  {
    KeysFrom(0)
  }

  ghost predicate StrictlyAscending(s: seq<int>)
  {
    forall i, j :: 0 <= i < j < |s| ==> s[i] < s[j]
  }

  ghost predicate StrictlyDescending(s: seq<int>)
  {
    forall i, j :: 0 <= i < j < |s| ==> s[i] > s[j]
  }

  /** A key in a lower column is smaller. */
  lemma ColumnOrder(a: int, b: int)
    requires GetX(a) < GetX(b)
    ensures a < b
  {
    KeyRoundTrip(a);
    KeyRoundTrip(b);
  }

  /** Column `x` lists exactly the hexagon's keys of that column, ascending. */
  lemma ColumnKeysSpec(x: int)
    requires 0 <= x <= MaxIndex
    ensures forall k :: k in ColumnKeys(x) <==> IsHexKey(k) && GetX(k) == x
    ensures forall i :: 0 <= i < |ColumnKeys(x)| ==> GetX(ColumnKeys(x)[i]) == x
    ensures StrictlyAscending(ColumnKeys(x))
  {
    var col := ColumnKeys(x);
    ColumnHeights(x);
    forall i | 0 <= i < |col| ensures GetX(col[i]) == x && GetY(col[i]) == i {
      PositionRoundTrip(x, i);
    }
    forall k | IsHexKey(k) && GetX(k) == x ensures k in col {
      KeyRoundTrip(k);
      assert col[GetY(k)] == k;
    }
  }

  /** Two ascending lists, every entry of the first below every entry of the
      second, concatenate to an ascending list. */
  lemma ConcatAscending(a: seq<int>, b: seq<int>)
    requires StrictlyAscending(a) && StrictlyAscending(b)
    requires forall i, j :: 0 <= i < |a| && 0 <= j < |b| ==> a[i] < b[j]
    ensures StrictlyAscending(a + b)
  {
    forall i, j | 0 <= i < j < |a + b| ensures (a + b)[i] < (a + b)[j] {
      if j < |a| {
        assert (a + b)[i] == a[i] && (a + b)[j] == a[j];
      } else if i < |a| {
        assert (a + b)[i] == a[i] && (a + b)[j] == b[j - |a|];
      } else {
        assert (a + b)[i] == b[i - |a|] && (a + b)[j] == b[j - |a|];
      }
    }
  }

  /** `KeysFrom(x)` lists exactly the hexagon's keys of columns `x` and up,
      each once, in ascending order. */
  lemma {:induction false} KeysFromSpec(x: int)
    requires 0 <= x <= MaxIndex + 1
    ensures forall k :: k in KeysFrom(x) <==> IsHexKey(k) && GetX(k) >= x
    ensures StrictlyAscending(KeysFrom(x))
    ensures forall i :: 0 <= i < |KeysFrom(x)| ==> GetX(KeysFrom(x)[i]) >= x
    decreases MaxIndex + 1 - x
  {
    if x <= MaxIndex {
      KeysFromSpec(x + 1);
      ColumnKeysSpec(x);
      var col, rest := ColumnKeys(x), KeysFrom(x + 1);
      assert KeysFrom(x) == col + rest;
      forall i, j | 0 <= i < |col| && 0 <= j < |rest| ensures col[i] < rest[j] {
        ColumnOrder(col[i], rest[j]);
      }
      ConcatAscending(col, rest);
    }
  }

  /** The ascending key list and the key set describe the same cells. */
  lemma AllKeysSpec()
    ensures forall k :: k in AllKeys() <==> k in HexKeys()
    ensures StrictlyAscending(AllKeys())
  {
    KeysFromSpec(0);
    forall k | IsHexKey(k) ensures GetX(k) >= 0 { }
  }

  lemma {:induction false} AscendingSetSize(s: seq<int>)
    requires StrictlyAscending(s)
    ensures |set k | k in s| == |s|
  {
    if s != [] {
      var t := s[1..];
      assert StrictlyAscending(t);
      AscendingSetSize(t);
      assert (set k | k in s) == {s[0]} + (set k | k in t);
      assert s[0] !in (set k | k in t);
    }
  }

  lemma {:induction false} KeysFromLength(x: int)
    requires 0 <= x <= MaxIndex + 1
    ensures |KeysFrom(x)| == [91, 85, 78, 70, 61, 51, 40, 30, 21, 13, 6, 0][x]
    decreases MaxIndex + 1 - x
  {
    if x <= MaxIndex {
      KeysFromLength(x + 1);
      ColumnHeights(x);
      var heights := [6, 7, 8, 9, 10, 11, 10, 9, 8, 7, 6];
      var suffixes := [91, 85, 78, 70, 61, 51, 40, 30, 21, 13, 6, 0];
      assert |KeysFrom(x)| == heights[x] + suffixes[x + 1];
      assert forall i :: 0 <= i <= MaxIndex ==> suffixes[i] == heights[i] + suffixes[i + 1];
    }
  }

  /** The board has 91 cells. */
  lemma HexCellCount()
    ensures |HexKeys()| == 91
    ensures |AllKeys()| == 91
  {
    AllKeysSpec();
    KeysFromLength(0);
    AscendingSetSize(AllKeys());
    assert (set k | k in AllKeys()) == HexKeys();
  }

  // ---------------------------------------------------------------------
  // Direction steps. Every step is plain key arithmetic that may leave the
  // board; callers test membership afterwards. `GetX` of a key that fell
  // off the board is still well defined, so every step is total.
  // ---------------------------------------------------------------------

  /** (x, y+1) */
  function MoveVerticallyUp(key: int): (r: int)
    ensures r > key
  {
    key + 1
  }

  /** (x, y-1) */
  function MoveVerticallyDown(key: int): (r: int)
    ensures r < key
  {
    key - 1
  }

  /** One column right, upper neighbour. */
  function MoveHorizontallyTopRight(key: int): (r: int)
    ensures r > key
  {
    if GetX(key) < Median then key + StepX + 1 else key + StepX
  }

  /** One column left, upper neighbour. */
  function MoveHorizontallyTopLeft(key: int): (r: int)
    ensures r < key
  {
    if GetX(key) > Median then key - StepX + 1 else key - StepX
  }

  /** One column right, lower neighbour. */
  function MoveHorizontallyBottomRight(key: int): (r: int)
    ensures r > key
  {
    if GetX(key) < Median then key + StepX else key + StepX - 1
  }

  /** One column left, lower neighbour. */
  function MoveHorizontallyBottomLeft(key: int): (r: int)
    ensures r < key
  {
    if GetX(key) > Median then key - StepX else key - StepX - 1
  }

  /** One column right, three half-cells up (a bishop's step). */
  function MoveDiagonallyTopRight(key: int): (r: int)
    ensures r > key
  {
    if GetX(key) < Median then key + StepX + 2 else key + StepX + 1
  }

  /** One column left, three half-cells up. */
  function MoveDiagonallyTopLeft(key: int): (r: int)
    ensures r < key
  {
    if GetX(key) > Median then key - StepX + 2 else key - StepX + 1
  }

  /** One column right, three half-cells down. */
  function MoveDiagonallyBottomRight(key: int): (r: int)
    ensures r > key
  {
    if GetX(key) < Median then key + StepX - 1 else key + StepX - 2
  }

  /** One column left, three half-cells down. */
  function MoveDiagonallyBottomLeft(key: int): (r: int)
    ensures r < key
  {
    if GetX(key) > Median then key - StepX - 1 else key - StepX - 2
  }

  /** Two columns right along the horizontal diagonal. The parity test
      `x % 2 == 0` gives the same answer under C++'s truncating `%` and
      Dafny's Euclidean `%`, negative `x` included. */
  function MoveDiagonallyRight(key: int): (r: int)
    ensures r > key
  {
    var x := GetX(key);
    if x % 2 == 0 then
      if x == Median - 1 then key + StepX * 2
      else if x < Median then key + StepX * 2 + 1
      else key + StepX * 2 - 1
    else
      if x < Median then key + StepX * 2 + 1
      else key + StepX * 2 - 1
  }

  /** Two columns left along the horizontal diagonal. */
  function MoveDiagonallyLeft(key: int): (r: int)
    ensures r < key
  {
    var x := GetX(key);
    if x % 2 == 0 then
      if x == Median + 1 then key - StepX * 2
      else if x < Median then key - StepX * 2 - 1
      else key - StepX * 2 + 1
    else
      if x <= Median then key - StepX * 2 - 1
      else key - StepX * 2 + 1
  }

  /** The twelve step functions, named. */
  datatype Dir =
    | Up | Down
    | HTopRight | HTopLeft | HBottomRight | HBottomLeft
    | DTopRight | DTopLeft | DBottomRight | DBottomLeft
    | DRight | DLeft

  /** Steps in direction `d` raise the key; the others lower it. */
  predicate Ascends(d: Dir)
  {
    d.Up? || d.HTopRight? || d.HBottomRight? || d.DTopRight? || d.DBottomRight? || d.DRight?
  }

  function Step(d: Dir, key: int): (r: int)
    ensures Ascends(d) ==> r > key
    ensures !Ascends(d) ==> r < key
  {
    match d
    case Up => MoveVerticallyUp(key)
    case Down => MoveVerticallyDown(key)
    case HTopRight => MoveHorizontallyTopRight(key)
    case HTopLeft => MoveHorizontallyTopLeft(key)
    case HBottomRight => MoveHorizontallyBottomRight(key)
    case HBottomLeft => MoveHorizontallyBottomLeft(key)
    case DTopRight => MoveDiagonallyTopRight(key)
    case DTopLeft => MoveDiagonallyTopLeft(key)
    case DBottomRight => MoveDiagonallyBottomRight(key)
    case DBottomLeft => MoveDiagonallyBottomLeft(key)
    case DRight => MoveDiagonallyRight(key)
    case DLeft => MoveDiagonallyLeft(key)
  }

  /** The twelve neighbours of a cell come in the same key order whichever
      side of the median the cell is on. */
  lemma NeighbourOrder(key: int)
    ensures Step(DLeft, key) < Step(DBottomLeft, key) < Step(HBottomLeft, key)
      < Step(HTopLeft, key) < Step(DTopLeft, key) < Step(Down, key) < key
    ensures key < Step(Up, key) < Step(DBottomRight, key) < Step(HBottomRight, key)
      < Step(HTopRight, key) < Step(DTopRight, key) < Step(DRight, key)
  {
  }

  /** The direction that undoes `d`. */
  function Reverse(d: Dir): (o: Dir)
    ensures Ascends(o) != Ascends(d)
  {
    match d
    case Up => Down
    case Down => Up
    case HTopRight => HBottomLeft
    case HBottomLeft => HTopRight
    case HTopLeft => HBottomRight
    case HBottomRight => HTopLeft
    case DTopRight => DBottomLeft
    case DBottomLeft => DTopRight
    case DTopLeft => DBottomRight
    case DBottomRight => DTopLeft
    case DRight => DLeft
    case DLeft => DRight
  }

  lemma ReverseInvolutive(d: Dir)
    ensures Reverse(Reverse(d)) == d
  {
  }

  /** `n` steps in direction `d`. */
  function StepN(d: Dir, key: int, n: nat): int
    decreases n
  {
    if n == 0 then key else StepN(d, Step(d, key), n - 1)
  }

  /** Column and height of a step that lands on the board, given that it
      started on the board: no step carries into or borrows from the
      column part of the key. */
  lemma StepCoordinates(d: Dir, key: int)
    requires IsHexKey(key) && IsHexKey(Step(d, key))
    ensures var x, y, r := GetX(key), GetY(key), Step(d, key);
      GetX(r) - x == (match d
        case Up => 0 case Down => 0
        case HTopRight => 1 case HBottomRight => 1 case DTopRight => 1 case DBottomRight => 1
        case HTopLeft => -1 case HBottomLeft => -1 case DTopLeft => -1 case DBottomLeft => -1
        case DRight => 2 case DLeft => -2)
  {
    var x, y, r := GetX(key), GetY(key), Step(d, key);
    KeyRoundTrip(key);
    KeyRoundTrip(r);
    HexKeyBounds(key);
    HexKeyBounds(r);
  }

  /** Direction steps come in inverse pairs: a step from a cell that lands
      on a cell is undone by the opposite step. */
  lemma StepInverse(d: Dir, key: int)
    requires IsHexKey(key) && IsHexKey(Step(d, key))
    ensures Step(Reverse(d), Step(d, key)) == key
  {
    StepCoordinates(d, key);
  }
}
