# rust-chess board engine in Dafny

This project models the rules engine of the `rust-chess` program, the
`src/board/` module. It covers:

- the board value: the 8x8 grid, the side to move and the `u8` turn counter;
- the path geometry of `path.rs`: signs, directions, lines between squares and rays;
- how each piece moves (`Piece::can_move`);
- the check and pin detection of `check.rs`;
- move validation, move execution and the king and piece lookups of `mod.rs`;
- the exhaustive checkmate search;
- the constructors and the text parser of `factory.rs`;
- the colour names and piece glyphs of `display.rs`.

Modules, one per concern:

| module | file | models |
|---|---|---|
| `Wrappers` | wrappers.dfy | `Option` and `Result` |
| `Geometry`, `GeometryExamples` | path.dfy | `path.rs` and its tests |
| `ChessBoard` | board.dfy | `Color`, `PieceType`, `Piece`, `Board`, `get`, `set`, `clear_path` |
| `Pieces` | pieces.dfy | `can_move` |
| `Check` | check.dfy | `check.rs` except `check_mate` |
| `Moves` | moves.dfy | `validate_from`, `validate_move`, `execute_move`, `find_king`, `find_pieces` |
| `CheckMate` | checkmate.dfy | `check_mate` |
| `Text` | text.dfy | the `str` operations the parsers use: `trim`, `lines`, `split_whitespace`, `u8` parsing |
| `Display` | display.dfy | `Display for Color`, `Display for Piece`, `FromStr for Piece` |
| `Factory` | factory.dfy | `Board::new`, `Board::empty`, `FromStr for Board` |

Rust's `Board` is `Copy`, so the board is a datatype value, and `set` returns the updated board.

The operations whose loops update variables step by step are methods with `while` loops. Each is proved equal to a specification function:

- `find_king` (`Moves.FindKing` against `Moves.KingSquare`);
- the king's branch of `validate_move` (`Moves.ValidateMove` against `Moves.Verdict`);
- `check_mate` (`CheckMate.CheckMate` against "no legal move exists");
- `from_str` (`Factory.ParseBoard` and `Factory.ReadRows` against `Factory.FromText`). These fill a 2-D array as the source fills `data`.

The other loops only compute a value and are functions:

- the early-exit loops of `check_squares` and `clear_path` are the recursive functions `Check.ScanFirst` and `ChessBoard.Board.AllVacant`;
- the iterator chains of `find_pieces`, `squares_checking`, `ranged_checking` and `relative_checking` (`filter_map`, `map`, `concat`) are the recursive functions `Moves.OwnedAmong`, `Check.RangedFrom` and `Check.RelativeChecking`, and the concatenation `Check.SquaresChecking`;
- `get_path` and `get_directed_path`, which collect ranges, are sequence functions in `Geometry`.

The closures `check.rs` passes to `check_squares` are modelled as an enumerated `Matcher` value.

Error strings become enumerated kinds: `MoveError`, `BoardError` and `PieceError`.

Where the source panics, the model has a precondition instead:

- indexing off the board;
- `clear_path` on squares that are not on one line;
- `find_king(...).expect("This player has no King!")` in `validate_move` when the player has no king;
- the `.expect` in `validate_move` when `from` is empty and `to` is on the board;
- the `assert!` for an occupied square in `execute_move`;
- the `turn_no + 1` overflow.

`Moves.ValidateMovePre` and `CheckMate.KingWhenNeeded` state exactly the conditions under which these calls do not panic.

## Model

| member | source | states |
|---|---|---|
| Geometry.SignOf | src/board/path.rs:13-19 | the sign of `x` is Increasing exactly for positive `x`, Decreasing exactly for negative `x`, and `\|x\|` steps along it reach `x` |
| Geometry.IsDiagonal | src/board/path.rs:33-35 | two squares are on a diagonal exactly when their row and column distances are equal |
| Geometry.GetDirection | src/board/path.rs:47-56 | there is no direction exactly for equal or unaligned squares; otherwise the direction is non-zero and the distance's worth of steps along it leads from `from` to `to` |
| Geometry.GetPathSegment | src/board/path.rs:63-78 | `get_path` returns a path exactly when the squares are distinct and aligned, and the path is the run of squares strictly between them, stepping from `from` |
| Geometry.PathMembers | src/board/path.rs:63-78 | a square is on `get_path(from, to)` exactly when it is strictly between `from` and `to` on their line |
| Geometry.DirectedPathRay | src/board/path.rs:85-98 | `get_directed_path` is the run of steps from `start` along `d`, it stays on the board, and the next step leaves it |
| Geometry.RayDirection | src/board/path.rs:85-98 | the `k`-th square of a ray is `k + 1` steps from its start, on the board, in the ray's direction and at distance `k + 1` |
| Geometry.OnRay | src/board/path.rs:85-98 | every on-board square in direction `d` from `start` appears on the ray from `start` along `d`, at the position given by its distance |
| GeometryExamples.NotDiagonalExamples | src/board/path.rs:177-182 | the square pairs of the diagonal tests are not diagonal |
| GeometryExamples.DirectedPathExamples | src/board/path.rs:195-258 | the rays from the test squares in all eight directions end on the squares the source's tests expect, with the lengths those ends imply, and rays from a corner or edge outward are empty |
| ChessBoard.Color.Other | src/board/mod.rs:21-26 | the opponent's colour differs from the colour |
| ChessBoard.OtherInvolution | src/board/mod.rs:21-26 | the opponent of the opponent is the colour itself |
| ChessBoard.Board.Set | src/board/mod.rs:43-46 | the square set holds the new content, every other square, the side to move and the turn counter are unchanged |
| ChessBoard.Board.ClearPath | src/board/path.rs:104-118 | the path is clear exactly when every square strictly between the two ends is vacant |
| ChessBoard.ClearPathSteps | src/board/path.rs:104-118 | the path is clear exactly when each of the squares 1 to distance-1 steps from `from` toward `to` is on the board and vacant |
| ChessBoard.ClearPathSymmetric | src/board/path.rs:104-118 | a clear path is clear in both directions, which `is_pinned` relies on when it checks from the blocker to the king |
| Pieces.CanMove | src/board/piece.rs:24-89 | a refusal is always the "invalid move" error |
| Pieces.PawnMoves | src/board/piece.rs:27-56 | a pawn moves one row forward in its column onto an empty square, or two from its home row, and captures one row forward and one column to either side |
| Pieces.KnightMoves | src/board/piece.rs:77-81 | a knight moves exactly by two along one axis and one along the other, whatever lies between |
| Pieces.KingMoves | src/board/piece.rs:82-86 | a king moves exactly to a square at most one row and one column away |
| Pieces.SliderMoves | src/board/piece.rs:57-76 | a rook, bishop or queen moves exactly along one of its own directions with every square passed over vacant |
| Pieces.CanMoveIgnoresCapturedPiece | src/board/piece.rs:24-89 | replacing the captured piece by any other piece does not change the answer |
| Check.GetDirectedClosure | src/board/check.rs:181-191 | the matcher for a direction accepts exactly the opposing sliders that move along that direction |
| Check.ScanFirst | src/board/check.rs:80-104 | the scan stops at the first occupied square and reports it exactly when its piece matches; an all-vacant path reports nothing |
| Check.ScanFirstFound | src/board/check.rs:80-104 | a reported square is on the path, holds a matching piece and has only vacant squares before it |
| Check.RayHit | src/board/check.rs:80-104 | scanning the ray from `k` along `d` finds `s` exactly when `s` lies in direction `d` from `k`, holds a matching piece, and every square between them is vacant |
| Check.RangedChecking | src/board/check.rs:106-125 | the ranged attackers are at most eight, one per direction, and are exactly the first pieces on the eight rays from `k` that match the ray's closure |
| Check.RangedCheckingMembers | src/board/check.rs:106-125 | a square is among the ranged attackers exactly when it holds an opposing slider of the right kind with a clear line to `k` |
| Check.RelativeChecking | src/board/check.rs:127-141 | at most one attacker is reported per offset |
| Check.RelativeCheckingMembers | src/board/check.rs:127-141 | a square is reported exactly when it is on the board, its offset from `k` is listed, and it holds a matching piece |
| Check.PawnCaptures | src/board/check.rs:143-150 | the pawn scan finds exactly the opposing pawns that `can_move` lets capture on `k` |
| Check.KnightCaptures | src/board/check.rs:152-165 | the knight scan finds exactly the opposing knights that `can_move` lets capture on `k` |
| Check.KingCaptures | src/board/check.rs:166-179 | the king scan finds exactly the opposing kings that `can_move` lets capture on `k` |
| Check.RangedCaptures | src/board/check.rs:106-125 | the ranged scan finds exactly the opposing sliders that `can_move` lets capture on `k` |
| Check.NotSelfChecking | src/board/check.rs:30-39 | the square examined is never among its own attackers |
| Check.SquaresCheckingAreCaptures | src/board/check.rs:30-39 | when `k` holds one of `c`'s pieces, `squares_checking` lists exactly the opposing pieces that could capture on `k` |
| Check.CheckingIgnoresOrigin | src/board/check.rs:30-39 | what stands on the examined square does not change the attackers found |
| Check.AttackedSquare | src/board/check.rs:22-24 | `num_checking(k) > 0` exactly when some opposing piece could capture a king of colour `c` placed on `k` |
| Check.IsPinned | src/board/check.rs:52-70 | a reported pin direction is the direction from the shielded square to the blocker |
| Check.PinExposes | src/board/check.rs:52-70 | a piece is pinned along `d` exactly when it stands on a clear line from the king in direction `d` and removing it exposes the king to an opposing slider along `d` |
| Moves.OwnedAmong | src/board/mod.rs:215-226 | the filter keeps exactly the given squares that hold the colour's pieces, in row-major order |
| Moves.FindPieces | src/board/mod.rs:215-226 | the result lists exactly the on-board squares of the player's pieces, in row-major order |
| Moves.ValidateFrom | src/board/mod.rs:57-69 | an off-board square, an empty square and an opposing piece are each refused with their own error, and the square is accepted exactly when it holds one of the player's pieces |
| Moves.KingSquare | src/board/mod.rs:206-214 | no square is found exactly when the colour has no king; otherwise the square holds that king and no earlier square in row-major order does |
| Moves.FindKing | src/board/mod.rs:206-214 | the row-by-row search returns the first king square in row-major order |
| Moves.EarlyChecks | src/board/mod.rs:80-103 | a move that passes the early checks goes to another on-board square |
| Moves.ValidateMove | src/board/mod.rs:71-188 | the method's answer, including the attacker loop, is the decision `Verdict` |
| Moves.AttackerAlongMove | src/board/mod.rs:128-138 | the loop reports exactly whether some attacker lies behind `from` along the direction of the move |
| Moves.ValidateMoveEarly | src/board/mod.rs:80-103 | an off-board destination, a king on it and the mover's own piece on it are refused with their own errors, and an accepted move is one `can_move` allows, onto a vacant square or a non-king opposing piece |
| Moves.VerdictBranches | src/board/mod.rs:107-188 | past the early checks the player has a king, and the answer is the king's rule for the king and the pin table for any other piece |
| Moves.KingMoveRule | src/board/mod.rs:116-141 | a king move is accepted exactly when no opposing piece could capture a king on the destination and no checking piece lies on the line of the move; "self check" is reported exactly when the king is not in check now |
| Moves.PinnedMoveRule | src/board/mod.rs:143-162 | a pinned piece may not move while its king is in check, and otherwise may move exactly in the direction from its king to it |
| Moves.PinnedKnightRule | src/board/mod.rs:143-162 | every knight jump that `can_move` allows is refused for a pinned knight |
| Moves.UnpinnedMoveRule | src/board/mod.rs:163-186 | an unpinned piece moves freely out of check, against one check it must capture the checker or land strictly between it and the king, and against two or more only the king may move |
| Moves.Promoted | src/board/mod.rs:195-199 | the piece landing keeps its colour and changes exactly when it is a pawn reaching the far row, and then it is a queen |
| Moves.ExecuteMove | src/board/mod.rs:190-204 | the new board has the (promoted) piece on `to`, `from` vacant, every other square unchanged, the other side to move and the turn counter one higher |
| Moves.MovedPieces | src/board/mod.rs:190-226 | after a move, the mover owns its old squares except `from`, plus `to`; the opponent loses `to` and keeps the rest |
| CheckMate.CheckMate | src/board/check.rs:7-16 | the search reports mate exactly when the player has no legal move at all |
| CheckMate.MovesFrom | src/board/check.rs:9-13 | the inner loop finds a move exactly when the piece on `from` has some legal move |
| Display.ColorNamesDistinct | src/board/display.rs:9-20 | the two colour names differ |
| Display.Glyph | src/board/display.rs:36-57 | each glyph is a single non-whitespace character |
| Display.GlyphInjective | src/board/display.rs:36-57 | no two pieces share a glyph |
| Display.ParsePieceGlyph | src/board/display.rs:59-79 | a parsed piece's glyph is the trimmed input, and an error means the trimmed input is no piece's glyph |
| Display.ParseGlyph | src/board/display.rs:36-79 | parsing a piece's glyph, with or without whitespace around it, gives the piece back |
| Display.PlaceholderIsNoPiece | src/board/display.rs:59-79 | the underscore is not a piece |
| Text.TrimSlice | src/board/display.rs:62 | `trim` returns a slice with only whitespace before and after it |
| Text.TrimEnds | src/board/display.rs:62 | the trimmed string neither starts nor ends with whitespace |
| Text.TrimPadded | src/board/display.rs:62 | whitespace around a string without whitespace at its ends is removed |
| Text.SplitWhitespace | src/board/factory.rs:118 | every word of the split is a non-empty run of non-whitespace |
| Text.SplitSpaced | src/board/factory.rs:118 | splitting words written one after another with spaces gives the words back |
| Text.LinesHaveNoLineFeed | src/board/factory.rs:99 | no line holds a line feed |
| Text.LinesCons | src/board/factory.rs:99 | a line followed by a line feed comes back as the first line |
| Text.ParseU8 | src/board/factory.rs:108-112 | a parsed turn number fits in a `u8` |
| Text.ParseDecimal | src/board/factory.rs:108-112 | every `u8` written in decimal, with or without a leading `+`, parses back to itself |
| Factory.New | src/board/factory.rs:10-43 | the opening position: back ranks and pawns in place for both colours, the middle rows empty, White to move on turn 0 |
| Factory.Empty | src/board/factory.rs:44-50 | every square is empty, with the given side to move and turn counter |
| Factory.OpeningKing | src/board/factory.rs:10-43 | in the opening layout each king stands on the e-file of its back row |
| Factory.NewPosition | src/board/factory.rs:10-43 | the kings of the new board are on e1 and e8; White owns exactly rows 0-1 and Black rows 6-7 |
| Factory.EmptyHasNothing | src/board/factory.rs:44-50 | an empty board has no king and no pieces for either colour |
| Factory.ParsePlayer | src/board/factory.rs:101-105 | the first line names a colour exactly when it is that colour's name |
| Factory.FromText | src/board/factory.rs:98-138 | a parsed board's side to move and turn counter are the ones the first two lines give |
| Factory.ParseBoard | src/board/factory.rs:98-138 | the method, with its loops over rows and words, returns the board `FromText` describes |
| Factory.ReadRows | src/board/factory.rs:114-127 | the grid read is the grid the rows describe, and the king counts are the numbers of kings of each colour on it |
| Factory.FillRows | src/board/factory.rs:115-127 | the rows read fill their grid rows, the rest stay empty, and the counts are those of the rows read |
| Factory.ReadRow | src/board/factory.rs:118-126 | one row's words fill that grid row, the other rows are unchanged, and the counts are that row's kings |
| Factory.CountOne | src/board/factory.rs:129-137 | a piece counted once stands on exactly one square |
| Factory.FromTextAccepts | src/board/factory.rs:98-138 | a text is accepted exactly when it has a colour line, a `u8` line and exactly one king of each colour in its rows |
| Factory.ParsedKing | src/board/factory.rs:129-137 | a parsed board has exactly one king of each colour, so the king lookup succeeds |
| Factory.ReadHeader | src/board/factory.rs:98-138 | a text written as a colour name, a turn number and rows parses to the board of those rows, or fails only for the king count |
| Factory.GlyphLine | src/board/factory.rs:118-126 | a row written as piece glyphs separated by spaces reads back as those pieces, and the rest of the row is empty |

## Left out

- `main.rs`: the interactive loop, terminal output and reading files are I/O and are not part of this model.
- `random_move` in `factory.rs` uses randomness and is not part of this model.
- `Display for Board` and `Display for Sign` are not modelled. Only the colour names and the piece glyphs are.
- Error messages are not modelled as strings. Each message is an enumerated error kind.
- The board fixtures of the tests in `mod.rs` and `check.rs` are not replayed, and neither is the integration test. The move and check rules they test are stated as lemmas for all boards.
- Of the `path.rs` tests, only `diagonal_not_diagonal` and `test_directed_path` are stated as concrete facts. The `clear_path` cases on the opening board and the `test_diagonal_path` cases are covered only by the general lemmas `ClearPathSteps` and `GetPathSegment`.
- Panics: the model has no panic paths. Each precondition excludes exactly the inputs on which the source panics. `ValidateMovePre` does this for `validate_move` and `KingWhenNeeded` for `check_mate`.
- Moves.ExecuteMove: requires `turnNo < 255`. The source's `turn_no + 1` on a `u8` panics in debug builds and wraps to 0 in release builds, and the model covers neither.
- Moves.PinnedMoveRule: states the rule as written. A pinned piece may move only in the direction from its king to it, so a move back toward the king along the pin line is refused, although it keeps the pin.
- Text.IsWhitespace: covers the characters of Unicode's `White_Space` property as a fixed set. It does not cover Rust's Unicode tables in general.
- Text.ParseU8: follows Rust's `u8` parsing, including the optional leading `+`.
- Text.Lines: models `str::lines`, which drops one `\r` before each `\n`. Other line terminators are not split on.
