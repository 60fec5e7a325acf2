# Hexachess rules engine, modelled in Dafny

This project models the rules core of Hexachess, a chess variant played on
a hexagonal board of 91 cells, as implemented by the `Board` and `Cell`
classes of `Source/Hexachess/Chess/ChessEngine.h`. It covers:

- the packed position keys `(x << 8) + y` and the twelve direction steps;
- the board as a map from key to cell, with its constructor and the two
  mutations `set_piece` and `move_piece`;
- raw move generation for every piece type;
- attack detection (`can_be_captured`) and the check-aware legality filter
  (`get_valid_moves`);
- the move and piece queries built on them;
- the static evaluation.

The modules follow the program's layers, leaves first:

| file | module | what it holds |
|---|---|---|
| `coords.dfy` | `Coords` | keys, the hexagon's cell set, direction steps and their inverses |
| `cells.dfy` | `Cells` | piece type, piece colour, the cell predicates |
| `board.dfy` | `Boards` | the board map, constructor, `set_piece`, `move_piece`, `get_piece_keys` |
| `moves.dfy` | `Moves` | the raw per-piece move generators |
| `move_rules.dfy` | `MoveRules` | declarative movement rules and proofs that the generators follow them |
| `legality.dfy` | `Legality` | attack detection, the legality filter, the colour-wide move queries |
| `evaluation.dfy` | `Evaluation` | material evaluation with the check penalty |

The engine's board is a `std::map<int32, Cell*>` of heap cells. Here it is
an immutable `map<int, Cell>`, so a deep copy of the board is simply the
same value. `WellShaped(b)` says that the board's keys are exactly the 91
cells of the hexagon. The move generators, the legality queries and the
evaluation require it. The constructor establishes it, and `set_piece` and
`move_piece` keep it. The mutators, the key checks and the scans
`CollectColor` and `FirstKing` work on any map and do not require it;
`PieceKeys` does, since it scans the hexagon's keys.

The engine builds most of its lists by `push_front`;
`get_all_piece_move_keys` appends (`ChessEngine.h:985`). The model builds
each list in the engine's order. Most contracts speak only of
membership. Order matters in one place: `get_valid_moves` takes the first king in `get_piece_keys`
order (`ChessEngine.h:209-216`). `get_piece_keys` walks the map in
ascending key order and pushes each key to the front, so its list is
descending (`Boards.PieceKeys`). With two kings of one colour the lookup
therefore picks the one with the larger key (`Legality.FindKing`).

Three points of the source worth knowing before reading the model:

- The bishop's direction table (`ChessEngine.h:681-687`) has six entries.
  Four of them move one column and three half-cells (one and a half
  cells) up or down (`ChessEngine.h:890-920`). The other two move two columns along the
  horizontal diagonal (`ChessEngine.h:922-958`).
- The value table lists the king at 100 (`ChessEngine.h:113`), but
  `evaluate` uses that value only as the check penalty
  (`ChessEngine.h:460-467`). A king that cannot be captured adds nothing to
  the score.
- Swapping every colour does not always negate the score. It can fail when
  a pawn checks a king, because pawns of the two colours take in opposite
  vertical directions (`ChessEngine.h:602-611`).
  `Evaluation.PawnCheckBreaksAntisymmetry` gives such a board. Without
  kings the score does negate (`Evaluation.KingFreeEvaluationAntisymmetric`).

## Model

All source paths are under `Source/Hexachess/Chess/`; the table writes
them in full. `Legality.KingSquareAfter` and `Legality.KeepsKingSafe` are
the two halves of the filter's test (`ChessEngine.h:218-229`) and carry no
contract of their own. `Legality.FilterTracksMoversKing` and
`Legality.LegalMoveKeepsKingSafe` state what they mean.

| member | source | states |
|---|---|---|
| Coords.KeyRoundTrip | Source/Hexachess/Chess/ChessEngine.h:964-970 | Unpacking any key with `>> 8` and `& 0xFF` and packing it again gives back the key. The height part always lies in 0..255. |
| Coords.PositionRoundTrip | Source/Hexachess/Chess/ChessEngine.h:531-533 | Packing `(x, y)` with `0 <= y < 256` and unpacking again gives back `(x, y)`. |
| Coords.ToKey | Source/Hexachess/Chess/ChessEngine.h:531-533 | A height that fits in eight bits is recovered from the packed key by `get_y`, and the column by `get_x`. |
| Coords.GetX | Source/Hexachess/Chess/ChessEngine.h:964-966 | `key >> 8` is the floor of key / 256, negative keys included. |
| Coords.GetY | Source/Hexachess/Chess/ChessEngine.h:968-970 | `key & 0xFF` lies in 0..255, and the rest of the key is a whole number of columns. |
| Coords.ToPositionKey | Source/Hexachess/Chess/ChessEngine.h:531-543 | Packing a position whose height fits in eight bits is undone by `get_x` and `get_y`. |
| Coords.ToPosition | Source/Hexachess/Chess/ChessEngine.h:315-318 | Packing the unpacked position gives back the key. |
| Coords.ColumnHeights | Source/Hexachess/Chess/ChessEngine.h:121-126 | The constructor's folded `y_max` gives column heights 6,7,8,9,10,11,10,9,8,7,6, that is 11 minus the distance from the median column. |
| Coords.HexKeys | Source/Hexachess/Chess/ChessEngine.h:121-133 | The cell set contains exactly the keys whose column is 0..10 and whose height is at most that column's top. |
| Coords.HexKeysArePackedPairs | Source/Hexachess/Chess/ChessEngine.h:121-133 | A key is a cell exactly when it is `to_position_key(x, y)` for a pair the constructor's two loops visit. |
| Coords.HexKeyBounds | Source/Hexachess/Chess/ChessEngine.h:121-133 | Every cell key lies in 0..2815 and has a height of at most 10. |
| Coords.ColumnKeysSpec | Source/Hexachess/Chess/ChessEngine.h:126-130 | The inner constructor loop's keys for column x are exactly that column's cells, in ascending order. |
| Coords.KeysFromSpec | Source/Hexachess/Chess/ChessEngine.h:258 | The keys listed from column x onwards are strictly ascending, as `std::map` iterates them, and are exactly the cells from that column on. |
| Coords.KeysFromLength | Source/Hexachess/Chess/ChessEngine.h:121-133 | The columns from x onwards hold 91, 85, 78, 70, 61, 51, 40, 30, 21, 13, 6 cells. |
| Coords.AllKeysSpec | Source/Hexachess/Chess/ChessEngine.h:258 | The ascending key list, the order `std::map` iterates the board in, holds exactly the board's cells. |
| Coords.HexCellCount | Source/Hexachess/Chess/ChessEngine.h:121-133 | The board has exactly 91 cells, and the ascending key list has 91 entries. |
| Coords.MoveVerticallyUp | Source/Hexachess/Chess/ChessEngine.h:850-852 | Stepping up the column strictly raises the key. |
| Coords.MoveVerticallyDown | Source/Hexachess/Chess/ChessEngine.h:854-856 | Stepping down strictly lowers the key. |
| Coords.MoveHorizontallyTopRight | Source/Hexachess/Chess/ChessEngine.h:858-864 | The upper-right neighbour, with the median-side height correction, has a larger key. |
| Coords.MoveHorizontallyTopLeft | Source/Hexachess/Chess/ChessEngine.h:866-872 | The upper-left neighbour has a smaller key. |
| Coords.MoveHorizontallyBottomRight | Source/Hexachess/Chess/ChessEngine.h:874-880 | The lower-right neighbour has a larger key. |
| Coords.MoveHorizontallyBottomLeft | Source/Hexachess/Chess/ChessEngine.h:882-888 | The lower-left neighbour has a smaller key. |
| Coords.MoveDiagonallyTopRight | Source/Hexachess/Chess/ChessEngine.h:890-896 | The upper-right diagonal step has a larger key. |
| Coords.MoveDiagonallyTopLeft | Source/Hexachess/Chess/ChessEngine.h:898-904 | The upper-left diagonal step has a smaller key. |
| Coords.MoveDiagonallyBottomRight | Source/Hexachess/Chess/ChessEngine.h:906-912 | The lower-right diagonal step has a larger key. |
| Coords.MoveDiagonallyBottomLeft | Source/Hexachess/Chess/ChessEngine.h:914-920 | The lower-left diagonal step has a smaller key. |
| Coords.MoveDiagonallyRight | Source/Hexachess/Chess/ChessEngine.h:922-939 | The two-column step right, with its parity branches, has a larger key. |
| Coords.MoveDiagonallyLeft | Source/Hexachess/Chess/ChessEngine.h:941-958 | The two-column step left has a smaller key. |
| Coords.Step | Source/Hexachess/Chess/ChessEngine.h:850-958 | Each of the twelve directions moves the key strictly one way. This is why every slide ends. |
| Coords.Reverse | Source/Hexachess/Chess/ChessEngine.h:850-958 | Each direction's partner moves the key the other way. |
| Coords.ReverseInvolutive | Source/Hexachess/Chess/ChessEngine.h:850-958 | Reversing a direction twice gives the direction back. |
| Coords.StepCoordinates | Source/Hexachess/Chess/ChessEngine.h:850-958 | A step from a cell onto a cell changes the column by 0 (vertical), ±1 (the eight neighbour and diagonal steps) or ±2 (the far diagonals). |
| Coords.NeighbourOrder | Source/Hexachess/Chess/ChessEngine.h:850-958 | The twelve neighbours of any key come in one fixed key order, on either side of the median and on it: the six left-or-down steps below the key, the six right-or-up steps above it. |
| Coords.StepInverse | Source/Hexachess/Chess/ChessEngine.h:850-958 | The steps come in inverse pairs: up/down, top-right/bottom-left, top-left/bottom-right, for both neighbours and diagonals, and far right/far left. A step from a cell that lands on a cell is undone by its partner. |
| Cells.Cell.HasPiece | Source/Hexachess/Chess/ChessEngine.h:45-47 | A well-formed cell has a piece exactly when it has a colour. |
| Cells.Cell.HasPieceOfSameColor | Source/Hexachess/Chess/ChessEngine.h:57-63 | A piece of the same colour is never also of the opposite colour. Against an uncoloured cell, nothing is of the same colour. |
| Cells.Cell.HasPieceOfOppositeColor | Source/Hexachess/Chess/ChessEngine.h:65-71 | A piece of the opposite colour has exactly the colour `get_opposite_color` names for the other cell. Against an uncoloured cell, nothing is of the opposite colour. |
| Cells.Opposite | Source/Hexachess/Chess/ChessEngine.h:81-89 | `get_opposite_color` is "none" exactly for an uncoloured cell, and otherwise differs from the cell's colour. |
| Cells.Cell.OppositeColor | Source/Hexachess/Chess/ChessEngine.h:81-89 | A cell has no opposite colour exactly when it has no colour, and otherwise its opposite colour differs from its own. |
| Cells.OppositeInvolutive | Source/Hexachess/Chess/ChessEngine.h:81-89 | The opposite of the opposite colour is the colour itself. |
| Cells.CellTrichotomy | Source/Hexachess/Chess/ChessEngine.h:45-71 | Against a coloured mover, a well-formed cell is exactly one of: empty, same colour, opposite colour. The opposite colour is the one `get_opposite_color` names. |
| Cells.ColorRelationsSymmetric | Source/Hexachess/Chess/ChessEngine.h:57-71 | Between two occupied cells, "same colour" and "opposite colour" are symmetric. |
| Boards.IsValidKey | Source/Hexachess/Chess/ChessEngine.h:562-564 | On a well-shaped board a key is valid exactly when it is one of the hexagon's 91 cells. |
| Boards.IsValidPosition | Source/Hexachess/Chess/ChessEngine.h:585-587 | For a height in 0..255, a position is valid exactly when its column is 0..10 and its height is at most that column's top. |
| Boards.NewBoard | Source/Hexachess/Chess/ChessEngine.h:121-133 | The constructor's two loops create exactly the 91 hexagon cells, all empty. |
| Boards.SetPiece | Source/Hexachess/Chess/ChessEngine.h:400-407 | An invalid position leaves the board unchanged. A valid one gets the given type and colour and no other cell changes. The key set never changes. The status is always `false`. |
| Boards.MovePiece | Source/Hexachess/Chess/ChessEngine.h:361-377 | With both endpoints valid, the goal receives the start's cell and a distinct start is emptied. Otherwise, or when start equals goal, the board is unchanged. No other cell changes, and the status is always `true`. |
| Boards.MoveKeys | Source/Hexachess/Chess/ChessEngine.h:222-225 | The filter's trial move on keys, via `to_position`: the same frame conditions as `move_piece`. |
| Boards.SetPieceReportsFailureOnSuccess | Source/Hexachess/Chess/ChessEngine.h:400-407 | On a valid position the piece is placed, yet `set_piece` returns `false`. |
| Boards.PlacePiece | Source/Hexachess/Chess/ChessEngine.h:391-407 | Placement with the documented status: `true` exactly when the position is valid. Same effect on the board as `set_piece`. |
| Boards.MovePieceReportsSuccessOnNoOp | Source/Hexachess/Chess/ChessEngine.h:361-377 | From an invalid start, `move_piece` changes nothing, yet returns `true`. |
| Boards.CommitMove | Source/Hexachess/Chess/ChessEngine.h:353-377 | A move with the documented status: `true` exactly when both endpoints are valid. Same effect on the board as `move_piece`. |
| Boards.CollectColor | Source/Hexachess/Chess/ChessEngine.h:256-264 | A key is collected exactly when it was already in the list, or it is scanned and its cell has the colour. |
| Boards.CollectColorDescending | Source/Hexachess/Chess/ChessEngine.h:258-262 | Pushing the keys of an ascending scan to the front of a descending list of smaller keys gives a descending list. |
| Boards.PieceKeys | Source/Hexachess/Chess/ChessEngine.h:256-264 | `get_piece_keys` lists exactly the keys whose cell has the given colour (with "absent", the empty cells), in strictly descending key order. |
| Moves.IsInitialPawnCell | Source/Hexachess/Chess/ChessEngine.h:653-668 | Only a white or black pawn has start cells, and every start cell is a cell of the board in columns 1..9. |
| Moves.AddIfValid | Source/Hexachess/Chess/ChessEngine.h:837-848 | The key is added exactly when it is a cell and is empty, or, if taking is allowed, holds the opposite colour. At most one key is added, and never one of the mover's colour. |
| Moves.AddEachIfValid | Source/Hexachess/Chess/ChessEngine.h:701-726 | The fixed single-step candidates are added exactly when `add_if_valid` accepts them, at most one per candidate. |
| Moves.AddPawnTakeIfValid | Source/Hexachess/Chess/ChessEngine.h:638-642 | A pawn capture square is added exactly when it is a cell holding the opposite colour. |
| Moves.PawnMoves | Source/Hexachess/Chess/ChessEngine.h:599-626 | A pawn never lands on its own colour. An uncoloured pawn has no moves. |
| Moves.KnightTargets | Source/Hexachess/Chess/ChessEngine.h:701-726 | The knight tries exactly twelve candidates, and none of them is its own cell. |
| Moves.KnightMoves | Source/Hexachess/Chess/ChessEngine.h:701-726 | A knight yields at most 12 destinations, none of its own colour. |
| Moves.KingTargets | Source/Hexachess/Chess/ChessEngine.h:774-787 | The king tries exactly twelve candidates, and none of them is its own cell. |
| Moves.KingTargetsDistinct | Source/Hexachess/Chess/ChessEngine.h:774-787 | The king's twelve candidates are twelve different cells. |
| Moves.KingMoves | Source/Hexachess/Chess/ChessEngine.h:774-787 | A king yields at most 12 destinations, none of its own colour. |
| Moves.Slide | Source/Hexachess/Chess/ChessEngine.h:807-823 | A slide never lands on the mover's colour. It ends because each step moves the key one way within the bounded key range. |
| Moves.AddValidMoves | Source/Hexachess/Chess/ChessEngine.h:803-826 | Sliding along each direction never lands on the mover's colour. |
| Moves.BishopMoves | Source/Hexachess/Chess/ChessEngine.h:680-689 | Bishop destinations never hold the bishop's colour. |
| Moves.RookMoves | Source/Hexachess/Chess/ChessEngine.h:738-747 | Rook destinations never hold the rook's colour. |
| Moves.QueenMoves | Source/Hexachess/Chess/ChessEngine.h:759-762 | Queen destinations never hold the queen's colour. |
| Moves.RawMoves | Source/Hexachess/Chess/ChessEngine.h:182-206 | Every unfiltered destination is a cell of the board and never holds the mover's colour. An empty cell has no moves. |
| MoveRules.SlideIsRay | Source/Hexachess/Chess/ChessEngine.h:807-823 | A slide emits exactly the cells m at some distance n along the ray for which all earlier cells exist and are empty, and m exists and does not hold the mover's colour. |
| MoveRules.OffBoardRayIsEmpty | Source/Hexachess/Chess/ChessEngine.h:808 | A slide whose first cell is off the board emits nothing. |
| MoveRules.BlockedRayIsItsStart | Source/Hexachess/Chess/ChessEngine.h:810-818 | A slide whose first cell is occupied reaches only that cell, and only if it is not of the mover's colour. |
| MoveRules.OpenRayUnfolds | Source/Hexachess/Chess/ChessEngine.h:819-822 | A slide whose first cell is empty emits that cell and continues exactly as a slide from the next cell. |
| MoveRules.AddValidMovesAreRays | Source/Hexachess/Chess/ChessEngine.h:803-826 | Sliding along several directions emits exactly the union of their rays. |
| MoveRules.StepNMonotone | Source/Hexachess/Chess/ChessEngine.h:850-958 | Repeated steps in one direction never revisit a key. |
| MoveRules.SlideStopsAtFirstPiece | Source/Hexachess/Chess/ChessEngine.h:810-818 | The first occupied cell of a ray is emitted exactly when it does not hold the mover's colour, and nothing beyond it is emitted. |
| MoveRules.BishopMovesAreRays | Source/Hexachess/Chess/ChessEngine.h:680-689 | Bishop destinations are exactly the six far- and near-diagonal rays. |
| MoveRules.RookMovesAreRays | Source/Hexachess/Chess/ChessEngine.h:738-747 | Rook destinations are exactly the six neighbour rays. |
| MoveRules.QueenIsBishopPlusRook | Source/Hexachess/Chess/ChessEngine.h:759-762 | Queen destinations are exactly the union of bishop and rook destinations. |
| MoveRules.PawnMovesFollowRule | Source/Hexachess/Chess/ChessEngine.h:599-626 | Pawn destinations are exactly these: one empty step forward; two steps from a start cell over an empty cell onto an empty cell; the two forward neighbours only when they hold the opposite colour. |
| MoveRules.PawnDoubleStepNeedsStartCell | Source/Hexachess/Chess/ChessEngine.h:615-621 | A pawn reaches the cell two steps ahead only from a start cell, with both cells ahead empty. |
| MoveRules.PawnDoubleStepFromStart | Source/Hexachess/Chess/ChessEngine.h:599-626 | From a start cell with both cells ahead empty, both the single and the double step are offered. |
| MoveRules.PawnBlockedAhead | Source/Hexachess/Chess/ChessEngine.h:615-621 | A piece directly ahead removes both forward moves. |
| MoveRules.KnightMovesRule | Source/Hexachess/Chess/ChessEngine.h:701-726 | Knight destinations are exactly the L-shaped candidates that are cells and empty or opposite-coloured. There are at most 12. |
| MoveRules.KingMovesRule | Source/Hexachess/Chess/ChessEngine.h:774-787 | King destinations are exactly the one-step neighbours in the twelve directions that are cells and empty or opposite-coloured. There are at most 12. |
| MoveRules.KingStepsReversible | Source/Hexachess/Chess/ChessEngine.h:774-787 | King adjacency between two cells is symmetric. |
| Moves.PawnStartCellsOnBoard | Source/Hexachess/Chess/ChessEngine.h:521-522 | The 18 start keys are cells of the board, one per column 1..9 for each colour: white in a V from height 0 at the edges to height 4 at the median column, black all at height 6. |
| MoveRules.RawMovesFollowRules | Source/Hexachess/Chess/ChessEngine.h:182-206 | For each piece type, a raw destination is exactly one allowed by that piece's rule. |
| Legality.ConcatRawMoves | Source/Hexachess/Chess/ChessEngine.h:980-988 | Concatenating the moves of several pieces contains exactly the moves of each. |
| Legality.AllRawMoveKeys | Source/Hexachess/Chess/ChessEngine.h:980-988 | With the filter skipped, the collected keys are exactly the raw destinations of some piece of the colour. |
| Legality.CanBeCaptured | Source/Hexachess/Chess/ChessEngine.h:1007-1012 | A square is capturable exactly when some piece of its occupant's opposite colour has it among its raw moves. |
| Legality.FirstKing | Source/Hexachess/Chess/ChessEngine.h:211-216 | The scan yields -1 exactly when no listed key holds a king. Otherwise it yields a listed king, and no key listed before it holds a king. |
| Legality.FirstAfterNonKing | Source/Hexachess/Chess/ChessEngine.h:211-215 | Skipping a leading non-king keeps a king that is first in the rest of the list first in the whole list. |
| Legality.FindKing | Source/Hexachess/Chess/ChessEngine.h:209-216 | The king lookup yields -1 exactly when the colour has no king. Otherwise it yields a cell holding that colour's king, and no king of that colour has a larger key. |
| Legality.FirstKingIsLargest | Source/Hexachess/Chess/ChessEngine.h:209-216 | In a descending key list, the first king the scan meets has the largest key of all the listed kings. |
| Legality.NoKingAboveFirst | Source/Hexachess/Chess/ChessEngine.h:209-216 | When no king precedes a position of a descending key list, no listed king has a larger key than the one at that position. |
| Legality.FilterSafe | Source/Hexachess/Chess/ChessEngine.h:220-235 | A raw destination is kept exactly when the trial move leaves the mover's king square uncapturable. |
| Legality.ValidMoves | Source/Hexachess/Chess/ChessEngine.h:182-237 | Valid moves are always raw moves. With `skip_filter`, or with no king of the mover's colour, they are the raw moves. Otherwise a raw destination is valid exactly when the trial move keeps the king square safe. |
| Legality.ValidMovePositions | Source/Hexachess/Chess/ChessEngine.h:153-162 | The position query returns exactly the positions of the filtered destinations. |
| Legality.ToPositions | Source/Hexachess/Chess/ChessEngine.h:157-160 | The position query's conversion loop keeps exactly `to_position` (`ChessEngine.h:315-318`) of each key. |
| Legality.ConcatValidMoves | Source/Hexachess/Chess/ChessEngine.h:980-988 | Concatenating the valid moves of several pieces contains exactly the moves of each. |
| Legality.AllPieceMoveKeys | Source/Hexachess/Chess/ChessEngine.h:980-988 | `get_all_piece_move_keys` returns exactly the destinations of some piece of the colour. |
| Legality.AllPieceMoveKeysNeverOfColor | Source/Hexachess/Chess/ChessEngine.h:980-988 | As written, no returned key holds a piece of the colour asked about, so none is a piece the documentation promises. |
| Legality.PiecesWithMoves | Source/Hexachess/Chess/ChessEngine.h:267-272 | Corrected: exactly the pieces of the colour whose (filtered or raw) move list is non-empty. |
| Legality.MovablePieces | Source/Hexachess/Chess/ChessEngine.h:267-272 | A key is kept exactly when it was already kept, or it is scanned and its piece has a move. |
| Legality.MovablePiecesExactlyWhenMoves | Source/Hexachess/Chess/ChessEngine.h:337-340 | The documented list is empty exactly when the list as written is empty, so an emptiness test such as `are_there_valid_moves` sees no difference. |
| Legality.HasValidMoves | Source/Hexachess/Chess/ChessEngine.h:337-340 | A colour has a valid move exactly when one of its pieces has a non-empty list of filtered moves. |
| Legality.AnyMoveIsSomePiecesMove | Source/Hexachess/Chess/ChessEngine.h:337-340 | The collected list is non-empty exactly when some piece of the colour has a legal move. |
| Legality.ConcatEmpty | Source/Hexachess/Chess/ChessEngine.h:983-987 | The collected move list is empty exactly when no scanned piece has a move. |
| Legality.ConcatSkipIsRaw | Source/Hexachess/Chess/ChessEngine.h:983-986 | With the filter skipped, collecting valid moves is collecting raw moves. |
| Legality.SkipFilterIsRaw | Source/Hexachess/Chess/ChessEngine.h:1009 | The list attack detection uses is exactly the colour's raw moves. Attack detection never depends on the filter. |
| Legality.EmptySquareNeverCapturable | Source/Hexachess/Chess/ChessEngine.h:1007-1012 | On a board of well-formed cells, an empty square is never reported capturable. |
| Legality.AttackedPieceIsCapturable | Source/Hexachess/Chess/ChessEngine.h:1007-1012 | A coloured piece on a square some opposing piece can move to is capturable. |
| Legality.FilterTracksMoversKing | Source/Hexachess/Chess/ChessEngine.h:225-229 | After the trial move, the square the filter tests holds the mover's king: the destination if the king moved, otherwise the king's old square. |
| Legality.LegalMoveKeepsKingSafe | Source/Hexachess/Chess/ChessEngine.h:208-236 | After any legal move, the mover's king stands on an uncapturable square. |
| Legality.PossibleMoveSources | Source/Hexachess/Chess/ChessEngine.h:296-307 | As written: the result contains exactly the destinations of the colour's pieces from which the occupant's raw moves reach the target. |
| Legality.PossibleMoveSourcesNeverOfColor | Source/Hexachess/Chess/ChessEngine.h:296-307 | As written, no returned key holds a piece of the colour asked about. |
| Legality.MoveSources | Source/Hexachess/Chess/ChessEngine.h:288-295 | Corrected: exactly the pieces of the colour whose raw moves reach the target. |
| Legality.SourcesAmong | Source/Hexachess/Chess/ChessEngine.h:299-305 | A scanned key is kept exactly when the target is among its occupant's unfiltered moves. |
| Evaluation.PieceValue | Source/Hexachess/Chess/ChessEngine.h:107-114 | Values lie in 0..100. A type missing from the table (`none`) is worth 0 and every real piece more. Every piece other than the king is worth less than the king. |
| Evaluation.Contribution | Source/Hexachess/Chess/ChessEngine.h:458-485 | A single cell adds between -100 and 100 to the score. |
| Evaluation.CollectedSum | Source/Hexachess/Chess/ChessEngine.h:452-453 | Summing over `get_piece_keys(c)` equals summing the cells of colour c. |
| Evaluation.SplitByColor | Source/Hexachess/Chess/ChessEngine.h:458-485 | The whole-board sum splits into the white part plus the black part. |
| Evaluation.BalanceSplits | Source/Hexachess/Chess/ChessEngine.h:452-485 | The white pass plus the black pass over `get_piece_keys` equals the material balance over the whole board. |
| Evaluation.Evaluate | Source/Hexachess/Chess/ChessEngine.h:446-488 | The two loops compute the material balance: +value per white non-king, -value per black non-king, -100 for a capturable white king, +100 for a capturable black king. |
| Evaluation.UncoloredSumIsZero | Source/Hexachess/Chess/ChessEngine.h:458-485 | Cells without colour add nothing. |
| Evaluation.EmptyBoardScoresZero | Source/Hexachess/Chess/ChessEngine.h:446-488 | A board without pieces evaluates to 0. |
| Evaluation.SumBounded | Source/Hexachess/Chess/ChessEngine.h:458-485 | A sum over n cells lies within ±100·n. |
| Evaluation.ScoreFitsInt32 | Source/Hexachess/Chess/ChessEngine.h:449 | The score lies within ±9100, so the engine's `int32` accumulator never overflows. |
| Evaluation.SwappedSumNegates | Source/Hexachess/Chess/ChessEngine.h:458-485 | Without kings, swapping colours negates any partial sum. |
| Evaluation.KingFreeEvaluationAntisymmetric | Source/Hexachess/Chess/ChessEngine.h:446-488 | On a board without kings, swapping every colour negates the evaluation. |
| Evaluation.PawnChecksKing | Source/Hexachess/Chess/ChessEngine.h:607-611 | A black pawn on (4, 4) takes down-left onto (3, 3), so a white king there is capturable. |
| Evaluation.SwappedPawnMissesKing | Source/Hexachess/Chess/ChessEngine.h:602-606 | After the colour swap the pawn on (4, 4) is white and takes upwards, so the black king on (3, 3) is not capturable. |
| Evaluation.PawnCheckBreaksAntisymmetry | Source/Hexachess/Chess/ChessEngine.h:446-488 | On any board holding only a white king on (3, 3) and a black pawn on (4, 4) (one exists: `PawnCheckBoard`), the king is in check and the score is -101. After swapping every colour the king is safe and the score is 1, not 101. So with kings, swapping colours need not negate the score. |

## Left out

- Minimax search, alpha-beta pruning, the AI move request and its `MoveResult` sentinel: they are search, not rules. `ChessGod` and the game-mode classes are not part of this model.
- `HasValidMoves` models `are_there_valid_moves` for the main board only. The colour-wide queries without an explicit board just forward to the main board and add nothing.
- Heap cells, `copy_board_map` and `clear_board_map`: the board is a value here, so copying is the identity and there is nothing to free.
- Logging under `WITH_EDITOR`: it has no effect on the board.
- `int32` width of keys and scores: the keys of the board stay within 0..2815 and the score within ±9100 (see `Evaluation.ScoreFitsInt32`), so unbounded integers change nothing there.
- `Coords.ToKey`, `Coords.ToPositionKey`: the engine computes `(x << 8) + y` in `int32` (`ChessEngine.h:531-533`), which wraps around once `|x|` reaches 2^23. The model packs with unbounded integers. So for a position such as (16777216, 5) the engine's key is 5, the cell (0, 5), where the model's key is off the board. Positions reach the engine from game code that is not part of this model; it is not characterised which of them can be that large.
- List order: every list is modelled with the engine's `push_front` or append order. Contracts state membership only, except for the king lookup, whose result depends on the order (`Boards.PieceKeys`, `Legality.FirstKing`, `Legality.FindKing`). The order of the move lists is not stated.
- `Legality.ValidMoves`: the engine looks up the mover's king, and copies the board for the trial move, from its main board even when asked about another board (`ChessEngine.h:209`, `ChessEngine.h:221`). The model has one board, so it describes the filter as called on the main board. Attack detection always skips the filter, so this affects only calls that filter a non-main board. No call in `ChessEngine.h` does that. The minimax search in `MinimaxAI.h` passes its own board, and that file is not part of this model.
- `Moves.RawMoves`, `Legality.CanBeCaptured`, `Legality.ValidMoves`: the engine reads `in_board[key]` without checking the key (`ChessEngine.h:183`, `ChessEngine.h:1008`). For an absent key that inserts a null cell and then dereferences it. The model instead requires `key in b`.
- The overloads taking `(x, y)` or a `Position` instead of a key only convert to a key with `to_position_key` and add nothing.
- `Evaluation.KingFreeEvaluationAntisymmetric`: this is weaker than "swapping every colour negates the score", because the source does not keep that promise. It can fail when a pawn checks a king: pawns of the two colours take in opposite vertical directions, so after a colour swap (without mirroring the board) a king that was in check need not be. `Evaluation.PawnCheckBreaksAntisymmetry` gives such a board. Boards with kings on which no pawn gives check are not characterised.
- `Cells.CellTrichotomy`, `Legality.EmptySquareNeverCapturable`: these need well-formed cells (no type without a colour, or the reverse). The engine's mutators can create such cells only when a caller passes a mismatched pair.
- `has_white_piece` and `has_black_piece` (`ChessEngine.h:49-55`): no operation of the core calls them.
- Knight move symmetry (a knight on a can jump back from b): not proved. King adjacency symmetry is proved (`MoveRules.KingStepsReversible`).

## Findings

| source | as written | input that shows it | evidently intended | confidence | as-written member | corrected member |
|---|---|---|---|---|---|---|
| Source/Hexachess/Chess/ChessEngine.h:296-307 | `get_possible_move_sources` walks `get_all_piece_move_keys(pc)`, the destinations of colour pc, and keeps each destination whose occupant reaches `target` | a white rook at (0,0), a black rook at (0,3), target (0,4), colour white: the black rook's key (0,3) is returned, although no white piece reaches (0,4) | the pieces of colour pc whose moves reach `target`, as its documentation says | high; not executed | Legality.PossibleMoveSourcesNeverOfColor | Legality.MoveSources |
| Source/Hexachess/Chess/ChessEngine.h:980-988 | `get_all_piece_move_keys` collects every destination of colour pc's pieces, which contradicts the wrapper's documentation (`ChessEngine.h:267-272`) | a lone black pawn at (4,4), colour black: the result is the pawn's destination (4,3), not the pawn's own key (4,4) | unclear: the wrapper's documentation promises the keys of the pieces of colour pc that have a valid move, but the in-board overload's documentation (`ChessEngine.h:972-979`), `can_be_captured` (`ChessEngine.h:1009-1011`) and `AChessGod::GetValidMovesForPlayer` (`Source/Hexachess/Actors/ChessGod.cpp:108-113`) all use the result as destinations, so the stale part is more likely that documentation; the real defect is the `get_possible_move_sources` row, which builds on this function | low; not executed | Legality.AllPieceMoveKeysNeverOfColor | Legality.PiecesWithMoves |
| Source/Hexachess/Chess/ChessEngine.h:400-407 | `set_piece` returns `false` after placing the piece | any valid position, e.g. (5,5) | `true` when the piece was set, as documented | high; not executed | Boards.SetPieceReportsFailureOnSuccess | Boards.PlacePiece |
| Source/Hexachess/Chess/ChessEngine.h:361-377 | `move_piece` returns `true` even when an endpoint is invalid and nothing moved | start (11,0), which is off the board | `false` when the move was not made, as documented | medium; not executed | Boards.MovePieceReportsSuccessOnNoOp | Boards.CommitMove |
