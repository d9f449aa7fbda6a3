/**
 * Building boards: `Board::new`, `Board::empty`, and `FromStr for Board`,
 * which reads the side to move, the turn number and up to eight rows of
 * glyphs, and insists on exactly one king of each colour.
 */
module Factory {
  import opened Wrappers
  import opened Geometry
  import opened ChessBoard
  import opened Text
  import opened Display
  import opened Moves

  // ---------------------------------------------------------------------
  // The standard and the empty board

  /** The kinds along a back rank: rook, knight, bishop, queen, king, bishop, knight, rook. */
  const BackRank: seq<PieceType> := [Rook, Knight, Bishop, Queen, King, Bishop, Knight, Rook]

  function Rank(kinds: seq<PieceType>, c: Color): seq<Cell> {
    seq(|kinds|, i requires 0 <= i < |kinds| => Some(Piece(kinds[i], c)))
  }

  /**
   * The standard opening layout: White's back rank on row 0 and its pawns
   * on row 1, Black's pawns on row 6 and its back rank on row 7, rows 2 to
   * 5 empty.
   */
  ghost predicate OpeningLayout(b: Board) {
    (forall col :: 0 <= col < 8 ==>
      b.Get((0, col)) == Some(Piece(BackRank[col], White)) && b.Get((1, col)) == Some(Piece(Pawn, White))
      && b.Get((6, col)) == Some(Piece(Pawn, Black)) && b.Get((7, col)) == Some(Piece(BackRank[col], Black)))
    && forall q :: InBounds(q) && 2 <= q.0 < 6 ==> b.Get(q).None?
  }

  /** `Board::new`: the standard opening position, White to move, turn 0. */
  function New(): (b: Board)
    ensures b.player == White && b.turnNo == 0
    ensures OpeningLayout(b)
  {
    var empty := seq(8, _ => None);
    Board([Rank(BackRank, White), seq(8, _ => Some(Piece(Pawn, White))), empty, empty, empty, empty,
           seq(8, _ => Some(Piece(Pawn, Black))), Rank(BackRank, Black)], White, 0)
  }

  /** `Board::empty`: no piece anywhere. */
  function Empty(player: Color, turnNo: Byte): (b: Board)
    ensures b.player == player && b.turnNo == turnNo
    ensures forall q :: InBounds(q) ==> b.Get(q).None?
  {
    Board(EmptyGrid(), player, turnNo)
  }

  /** The row of a colour's back rank. */
  function BackRow(c: Color): int {
    if c == White then 0 else 7
  }

  /** In the opening layout `find_king` reports e1 for White and e8 for Black. */
  lemma OpeningKing(b: Board, c: Color)
    requires OpeningLayout(b)
    ensures KingSquare(b, c) == Some((BackRow(c), 4))
  {
    assert BackRank[4] == King;
    forall q | InBounds(q) && SquareIndex(q) < SquareIndex((BackRow(c), 4)) ensures b.Get(q) != Some(Piece(King, c)) {
      if q.0 == BackRow(c) {
        assert q.1 < 4;
        assert BackRank[q.1] != King;
      }
    }
    KingSquareFirst(b, c, (BackRow(c), 4));
  }

  /** In the opening layout White owns the first two rows and Black the last two. */
  lemma OpeningPieces(b: Board, q: Square)
    requires OpeningLayout(b)
    ensures q in FindPieces(b, Some(White)) <==> InBounds(q) && q.0 <= 1
    ensures q in FindPieces(b, Some(Black)) <==> InBounds(q) && q.0 >= 6
  {
    if InBounds(q) {
      assert b.Get(q) == b.Get((q.0, q.1));
    }
  }

  /** The position `Board::new` builds: both kings where `find_king` looks first, and each side's pieces on its own two rows. */
  lemma NewPosition(q: Square)
    ensures KingSquare(New(), White) == Some((0, 4))
    ensures KingSquare(New(), Black) == Some((7, 4))
    ensures q in FindPieces(New(), Some(White)) <==> InBounds(q) && q.0 <= 1
    ensures q in FindPieces(New(), Some(Black)) <==> InBounds(q) && q.0 >= 6
  {
    OpeningKing(New(), White);
    OpeningKing(New(), Black);
    OpeningPieces(New(), q);
  }

  /** The empty board has no king and no pieces. */
  lemma EmptyHasNothing(player: Color, turnNo: Byte, c: Color)
    ensures KingSquare(Empty(player, turnNo), c).None?
    ensures FindPieces(Empty(player, turnNo), Some(c)) == []
  {
    NonEmptyHasHead(FindPieces(Empty(player, turnNo), Some(c)));
  }

  lemma NonEmptyHasHead<T>(s: seq<T>)
    ensures s != [] ==> s[0] in s
  {
  }

  // ---------------------------------------------------------------------
  // Reading a board from text

  /** Why `FromStr for Board` refuses a text; the source returns the messages as strings. */
  datatype BoardError =
    | BadPlayer       // the first line is not a colour's name
    | BadTurn         // the second line is missing or not an unsigned 8-bit number
    | WrongKingCount  // not exactly one king for each colour

  /** The first line names the side to move, exactly as `Display for Color` writes it. */
  function ParsePlayer(line: string): (r: Option<Color>)
    ensures forall c :: r == Some(c) <==> line == ColorName(c)
  {
    if line == "White" then Some(White)
    else if line == "Black" then Some(Black)
    else None
  }

  /** `piece.parse().ok()`: a word that is not a glyph leaves its square empty. */
  function WordCell(word: string): Cell {
    match ParsePiece(word)
    case Ok(p) => Some(p)
    case Err(_) => None
  }

  /** The squares described by the first `n` words of a board line; missing words leave squares empty. */
  function Cells(words: seq<string>, n: nat): (r: seq<Cell>)
    ensures |r| == n
  {
    if n == 0 then [] else Cells(words, n - 1) + [if n - 1 < |words| then WordCell(words[n - 1]) else None]
  }

  /** Square `j` of a row comes from word `j`. */
  lemma {:induction false} CellsAt(words: seq<string>, n: nat, j: int)
    requires 0 <= j < n
    ensures Cells(words, n)[j] == if j < |words| then WordCell(words[j]) else None
  {
    if j < n - 1 {
      CellsAt(words, n - 1, j);
    }
  }

  /** The eight squares of a board line. */
  function RowOf(words: seq<string>): (r: seq<Cell>)
    ensures |r| == 8
  {
    Cells(words, 8)
  }

  /** A row with no piece on it. */
  const EmptyRow: seq<Cell> := seq(8, _ => None)

  /**
   * The grid the board lines describe: row `i` comes from line `i`; lines
   * after the eighth and words after the eighth are ignored, and missing
   * ones leave squares empty.
   */
  function ReadGrid(rows: seq<string>): Grid {
    seq(8, i requires 0 <= i < 8 => if i < |rows| then RowOf(SplitWhitespace(rows[i])) else EmptyRow)
  }

  lemma ReadGridRow(rows: seq<string>, i: int)
    requires 0 <= i < 8
    ensures ReadGrid(rows)[i] == if i < |rows| then RowOf(SplitWhitespace(rows[i])) else EmptyRow
  {
  }

  // ---------------------------------------------------------------------
  // Counting kings

  /** How many of the first `n` cells hold `p`. */
  function RowCount(cells: seq<Cell>, p: Piece, n: nat): nat
    requires n <= |cells|
  {
    if n == 0 then 0 else RowCount(cells, p, n - 1) + (if cells[n - 1] == Some(p) then 1 else 0)
  }

  /** How many squares of the first `n` rows hold `p`. */
  function RowsCount(g: Grid, p: Piece, n: nat): nat
    requires n <= 8
  {
    if n == 0 then 0 else RowsCount(g, p, n - 1) + RowCount(g[n - 1], p, 8)
  }

  /** How many squares of `g` hold `p`. */
  function Count(g: Grid, p: Piece): nat {
    RowsCount(g, p, 8)
  }

  /** Cell `j` is the only one of the first `n` holding `p`. */
  ghost predicate OnlyCell(cells: seq<Cell>, p: Piece, n: int, j: int)
    requires n <= |cells|
  {
    0 <= j < n && cells[j] == Some(p) && forall k :: 0 <= k < n && cells[k] == Some(p) ==> k == j
  }

  /** Square `q` is the only one of the first `n` rows holding `p`. */
  ghost predicate OnlySquare(g: Grid, p: Piece, n: int, q: Square) {
    InBounds(q) && q.0 < n && g[q.0][q.1] == Some(p)
    && forall s :: InBounds(s) && s.0 < n && g[s.0][s.1] == Some(p) ==> s == q
  }

  lemma {:induction false} RowCountZero(cells: seq<Cell>, p: Piece, n: nat)
    requires n <= |cells|
    ensures RowCount(cells, p, n) == 0 <==> forall k :: 0 <= k < n ==> cells[k] != Some(p)
  {
    if n > 0 {
      RowCountZero(cells, p, n - 1);
    }
  }

  lemma {:induction false} RowCountOne(cells: seq<Cell>, p: Piece, n: nat)
    requires n <= |cells|
    ensures RowCount(cells, p, n) == 1 <==> exists j :: OnlyCell(cells, p, n, j)
  {
    if n > 0 {
      RowCountOne(cells, p, n - 1);
      RowCountZero(cells, p, n - 1);
      if cells[n - 1] == Some(p) {
        if RowCount(cells, p, n) == 1 {
          assert OnlyCell(cells, p, n, n - 1);
        }
        if exists j :: OnlyCell(cells, p, n, j) {
          var j :| OnlyCell(cells, p, n, j);
          assert j == n - 1;
        }
      } else {
        if RowCount(cells, p, n) == 1 {
          var j :| OnlyCell(cells, p, n - 1, j);
          assert OnlyCell(cells, p, n, j);
        }
        if exists j :: OnlyCell(cells, p, n, j) {
          var j :| OnlyCell(cells, p, n, j);
          assert OnlyCell(cells, p, n - 1, j);
        }
      }
    }
  }

  lemma {:induction false} RowsCountZero(g: Grid, p: Piece, n: nat)
    requires n <= 8
    ensures RowsCount(g, p, n) == 0 <==> forall s :: InBounds(s) && s.0 < n ==> g[s.0][s.1] != Some(p)
  {
    if n > 0 {
      RowsCountZero(g, p, n - 1);
      RowCountZero(g[n - 1], p, 8);
      if RowsCount(g, p, n) != 0 {
        if RowsCount(g, p, n - 1) == 0 {
          var k :| 0 <= k < 8 && g[n - 1][k] == Some(p);
          assert InBounds((n - 1, k));
        }
      }
    }
  }

  lemma {:induction false} RowsCountOne(g: Grid, p: Piece, n: nat)
    requires n <= 8
    ensures RowsCount(g, p, n) == 1 <==> exists q :: OnlySquare(g, p, n, q)
  {
    if n > 0 {
      var last := g[n - 1];
      RowsCountOne(g, p, n - 1);
      RowsCountZero(g, p, n - 1);
      RowCountOne(last, p, 8);
      RowCountZero(last, p, 8);
      if RowsCount(g, p, n) == 1 {
        if RowsCount(g, p, n - 1) == 1 {
          var q :| OnlySquare(g, p, n - 1, q);
          assert OnlySquare(g, p, n, q);
        } else {
          var j :| OnlyCell(last, p, 8, j);
          assert OnlySquare(g, p, n, (n - 1, j));
        }
      }
      if exists q :: OnlySquare(g, p, n, q) {
        var q :| OnlySquare(g, p, n, q);
        if q.0 < n - 1 {
          assert OnlySquare(g, p, n - 1, q);
          forall k | 0 <= k < 8 ensures last[k] != Some(p) {
            assert (n - 1, k) != q;
          }
        } else {
          assert OnlyCell(last, p, 8, q.1) by {
            forall k | 0 <= k < 8 && last[k] == Some(p) ensures k == q.1 {
              assert (n - 1, k) == q;
            }
          }
          forall s | InBounds(s) && s.0 < n - 1 ensures g[s.0][s.1] != Some(p) {
            assert s != q;
          }
        }
      }
    }
  }

  /** The one square of `g` that holds `p`. */
  ghost predicate HeldOnlyAt(g: Grid, p: Piece, q: Square) {
    OnlySquare(g, p, 8, q)
  }

  /** A count of one means exactly one square holds the piece. */
  lemma CountOne(g: Grid, p: Piece)
    ensures Count(g, p) == 1 <==> exists q :: HeldOnlyAt(g, p, q)
  {
    RowsCountOne(g, p, 8);
    if Count(g, p) == 1 {
      var q :| OnlySquare(g, p, 8, q);
      assert HeldOnlyAt(g, p, q);
    }
    if exists q :: HeldOnlyAt(g, p, q) {
      var q :| HeldOnlyAt(g, p, q);
      assert OnlySquare(g, p, 8, q);
    }
  }

  // ---------------------------------------------------------------------
  // from_str

  /**
   * `FromStr for Board`: the side to move on the first line, the turn
   * number on the second, then the rows of the board, one line each from
   * row 0; the board is accepted when it has one king of each colour.
   */
  function FromText(contents: string): (r: Result<Board, BoardError>)
    ensures r.Ok? ==> |Lines(contents)| >= 2
    ensures r.Ok? ==> ColorName(r.value.player) == Lines(contents)[0]
    ensures r.Ok? ==> ParseU8(Lines(contents)[1]) == Some(r.value.turnNo)
  {
    var ls := Lines(contents);
    if |ls| == 0 || ParsePlayer(ls[0]).None? then Err(BadPlayer)
    else if |ls| == 1 || ParseU8(ls[1]).None? then Err(BadTurn)
    else
      var g := ReadGrid(ls[2..]);
      if Count(g, Piece(King, White)) == 1 && Count(g, Piece(King, Black)) == 1 then
        Ok(Board(g, ParsePlayer(ls[0]).value, ParseU8(ls[1]).value))
      else
        Err(WrongKingCount)
  }

  /** `from_str`: the two header lines, then the board lines. */
  method ParseBoard(contents: string) returns (r: Result<Board, BoardError>)
    ensures r == FromText(contents)
  {
    var ls := Lines(contents);
    if |ls| == 0 {
      return Err(BadPlayer);
    }
    var player := ParsePlayer(ls[0]);
    if player.None? {
      return Err(BadPlayer);
    }
    if |ls| == 1 {
      return Err(BadTurn);
    }
    var turnNo := ParseU8(ls[1]);
    if turnNo.None? {
      return Err(BadTurn);
    }
    var grid, whiteKings, blackKings := ReadRows(ls[2..]);
    if whiteKings == 1 && blackKings == 1 {
      r := Ok(Board(grid, player.value, turnNo.value));
    } else {
      r := Err(WrongKingCount);
    }
  }

  /** The board lines of `from_str` into a fresh 8x8 buffer, counting kings. */
  method ReadRows(rows: seq<string>) returns (grid: Grid, whiteKings: nat, blackKings: nat)
    ensures grid == ReadGrid(rows)
    ensures whiteKings == Count(grid, Piece(King, White)) && blackKings == Count(grid, Piece(King, Black))
  {
    var data := new Cell[8, 8]((_, _) => None);
    var row;
    whiteKings, blackKings, row := FillRows(data, rows);
    EmptyRowsAfter(rows, row);
    grid := Snapshot(data);
    forall i, j | 0 <= i < 8 && 0 <= j < 8 ensures grid[i][j] == ReadGrid(rows)[i][j] {
      ReadGridRow(rows, i);
    }
    SameGrid(grid, ReadGrid(rows));
  }

  /** The outer loop of `from_str`: up to eight lines, each into its row of the buffer. */
  method FillRows(data: array2<Cell>, rows: seq<string>) returns (whiteKings: nat, blackKings: nat, row: int)
    requires data.Length0 == 8 && data.Length1 == 8
    requires forall i, j :: 0 <= i < 8 && 0 <= j < 8 ==> data[i, j] == None
    modifies data
    ensures 0 <= row <= 8 && (row == 8 || row >= |rows|)
    ensures forall i, j :: 0 <= i < row && 0 <= j < 8 ==> data[i, j] == ReadGrid(rows)[i][j]
    ensures forall i, j :: row <= i < 8 && 0 <= j < 8 ==> data[i, j] == None
    ensures whiteKings == RowsCount(ReadGrid(rows), Piece(King, White), row)
    ensures blackKings == RowsCount(ReadGrid(rows), Piece(King, Black), row)
  {
    ghost var g := ReadGrid(rows);
    whiteKings, blackKings := 0, 0;
    row := 0;
    while row < 8 && row < |rows|
      invariant 0 <= row <= 8
      invariant forall i, j :: 0 <= i < row && 0 <= j < 8 ==> data[i, j] == g[i][j]
      invariant forall i, j :: row <= i < 8 && 0 <= j < 8 ==> data[i, j] == None
      invariant whiteKings == RowsCount(g, Piece(King, White), row)
      invariant blackKings == RowsCount(g, Piece(King, Black), row)
    {
      ReadGridRow(rows, row);
      var w, b := ReadRow(data, row, SplitWhitespace(rows[row]));
      whiteKings, blackKings := whiteKings + w, blackKings + b;
      row := row + 1;
    }
  }

  /** Rows past the last line are empty, so the king counts stop growing there. */
  lemma EmptyRowsAfter(rows: seq<string>, row: int)
    requires 0 <= row <= 8 && (row == 8 || row >= |rows|)
    ensures RowsCount(ReadGrid(rows), Piece(King, White), 8) == RowsCount(ReadGrid(rows), Piece(King, White), row)
    ensures RowsCount(ReadGrid(rows), Piece(King, Black), 8) == RowsCount(ReadGrid(rows), Piece(King, Black), row)
  {
    var g := ReadGrid(rows);
    forall i | row <= i < 8 ensures RowCount(g[i], Piece(King, White), 8) == 0 && RowCount(g[i], Piece(King, Black), 8) == 0 {
      assert g[i] == EmptyRow;
      RowCountZero(g[i], Piece(King, White), 8);
      RowCountZero(g[i], Piece(King, Black), 8);
    }
    EmptyRowsCount(g, Piece(King, White), row);
    EmptyRowsCount(g, Piece(King, Black), row);
  }

  /** The buffer as a grid value. */
  method Snapshot(data: array2<Cell>) returns (grid: Grid)
    requires data.Length0 == 8 && data.Length1 == 8
    ensures forall i, j :: 0 <= i < 8 && 0 <= j < 8 ==> grid[i][j] == data[i, j]
  {
    grid := seq(8, i requires 0 <= i < 8 reads data => seq(8, j requires 0 <= j < 8 reads data => data[i, j]));
  }

  lemma SameGrid(a: Grid, b: Grid)
    requires forall i, j :: 0 <= i < 8 && 0 <= j < 8 ==> a[i][j] == b[i][j]
    ensures a == b
  {
    forall i | 0 <= i < 8 ensures a[i] == b[i] {
      assert forall j :: 0 <= j < 8 ==> a[i][j] == b[i][j];
    }
  }

  /** Rows from `n` on hold no `p`, so the count stops growing at row `n`. */
  lemma {:induction false} EmptyRowsCount(g: Grid, p: Piece, n: nat)
    requires n <= 8
    requires forall i :: n <= i < 8 ==> RowCount(g[i], p, 8) == 0
    ensures RowsCount(g, p, 8) == RowsCount(g, p, n)
    decreases 8 - n
  {
    if n < 8 {
      EmptyRowsCount(g, p, n + 1);
    }
  }

  /** The inner loop of `from_str`: up to eight words of one line into row `row`, counting kings. */
  method ReadRow(data: array2<Cell>, row: int, words: seq<string>) returns (whiteKings: nat, blackKings: nat)
    requires data.Length0 == 8 && data.Length1 == 8 && 0 <= row < 8
    requires forall j :: 0 <= j < 8 ==> data[row, j] == None
    modifies data
    ensures forall i, j :: 0 <= i < 8 && 0 <= j < 8 && i != row ==> data[i, j] == old(data[i, j])
    ensures forall j :: 0 <= j < 8 ==> data[row, j] == RowOf(words)[j]
    ensures whiteKings == RowCount(RowOf(words), Piece(King, White), 8)
    ensures blackKings == RowCount(RowOf(words), Piece(King, Black), 8)
  {
    ghost var cells := RowOf(words);
    whiteKings, blackKings := 0, 0;
    var col := 0;
    while col < 8 && col < |words|
      invariant 0 <= col <= 8
      invariant forall i, j :: 0 <= i < 8 && 0 <= j < 8 && i != row ==> data[i, j] == old(data[i, j])
      invariant forall j :: 0 <= j < col ==> data[row, j] == cells[j]
      invariant forall j :: col <= j < 8 ==> data[row, j] == None
      invariant whiteKings == RowCount(cells, Piece(King, White), col)
      invariant blackKings == RowCount(cells, Piece(King, Black), col)
    {
      var piece := WordCell(words[col]);
      CellsAt(words, 8, col);
      data[row, col] := piece;
      if piece == Some(Piece(King, White)) {
        whiteKings := whiteKings + 1;
      } else if piece == Some(Piece(King, Black)) {
        blackKings := blackKings + 1;
      }
      col := col + 1;
    }
    forall j | col <= j < 8 ensures cells[j] == None {
      CellsAt(words, 8, j);
    }
    EmptyTailCount(cells, Piece(King, White), col);
    EmptyTailCount(cells, Piece(King, Black), col);
  }

  /** Cells from `n` on hold no `p`, so the count stops growing at cell `n`. */
  lemma {:induction false} EmptyTailCount(cells: seq<Cell>, p: Piece, n: nat)
    requires n <= |cells|
    requires forall j :: n <= j < |cells| ==> cells[j] != Some(p)
    ensures RowCount(cells, p, |cells|) == RowCount(cells, p, n)
    decreases |cells| - n
  {
    if n < |cells| {
      EmptyTailCount(cells, p, n + 1);
    }
  }

  // ---------------------------------------------------------------------
  // What from_str promises

  /**
   * A text is accepted exactly when its first line names a colour, its
   * second is a turn number, and the board lines put exactly one king of
   * each colour on the board.
   */
  lemma FromTextAccepts(contents: string)
    ensures var ls := Lines(contents);
      FromText(contents).Ok? <==>
        |ls| >= 2 && ParsePlayer(ls[0]).Some? && ParseU8(ls[1]).Some?
        && (exists q :: HeldOnlyAt(ReadGrid(ls[2..]), Piece(King, White), q))
        && (exists q :: HeldOnlyAt(ReadGrid(ls[2..]), Piece(King, Black), q))
  {
    var ls := Lines(contents);
    if |ls| >= 2 {
      CountOne(ReadGrid(ls[2..]), Piece(King, White));
      CountOne(ReadGrid(ls[2..]), Piece(King, Black));
    }
  }

  /** On an accepted board `find_king` finds each colour's king, and it is the only one. */
  lemma ParsedKing(contents: string, c: Color)
    requires FromText(contents).Ok?
    ensures KingSquare(FromText(contents).value, c).Some?
    ensures forall q :: InBounds(q) && FromText(contents).value.Get(q) == Some(Piece(King, c)) ==> q == KingSquare(FromText(contents).value, c).value
  {
    var b := FromText(contents).value;
    CountOne(b.data, Piece(King, c));
    var q :| HeldOnlyAt(b.data, Piece(King, c), q);
    assert b.Get(q) == Some(Piece(King, c));
  }

  /**
   * The header written as `Display for Color` and a decimal turn number
   * prints them is read back: the text is accepted with that side to move
   * and that turn, or refused only for its kings.
   */
  lemma ReadHeader(c: Color, turnNo: Byte, body: string)
    ensures var r := FromText(ColorName(c) + "\n" + Decimal(turnNo) + "\n" + body);
      (r.Ok? && r.value == Board(ReadGrid(Lines(body)), c, turnNo)) || r == Err(WrongKingCount)
  {
    var ls := HeaderLines(c, turnNo, body);
    assert ls[2..] == Lines(body);
    ParseDecimal(turnNo);
  }

  /** The lines of a text with a two-line header. */
  lemma HeaderLines(c: Color, turnNo: Byte, body: string) returns (ls: seq<string>)
    ensures ls == Lines(ColorName(c) + "\n" + Decimal(turnNo) + "\n" + body)
    ensures ls == [ColorName(c), Decimal(turnNo)] + Lines(body)
  {
    var number := Decimal(turnNo);
    assert '\n' !in number && number[|number| - 1] != '\r' by {
      assert forall i :: 0 <= i < |number| ==> IsDigit(number[i]);
    }
    TwoLines(ColorName(c), number, body);
    ls := Lines(ColorName(c) + "\n" + number + "\n" + body);
  }

  lemma TwoLines(first: string, second: string, body: string)
    requires '\n' !in first && (first == [] || first[|first| - 1] != '\r')
    requires '\n' !in second && (second == [] || second[|second| - 1] != '\r')
    ensures Lines(first + "\n" + second + "\n" + body) == [first, second] + Lines(body)
  {
    var rest := second + "\n" + body;
    var whole := first + "\n" + second + "\n" + body;
    assert whole == first + "\n" + rest;
    LinesCons(first, rest);
    LinesCons(second, body);
    PrependTwo(Lines(whole), Lines(rest), Lines(body), first, second);
  }

  lemma PrependTwo<T>(x: seq<T>, y: seq<T>, z: seq<T>, a: T, b: T)
    requires x == [a] + y && y == [b] + z
    ensures x == [a, b] + z
  {
  }

  /** The glyphs of the pieces, one word each. */
  function Glyphs(pieces: seq<Piece>): (r: seq<string>)
    ensures |r| == |pieces| && forall k :: 0 <= k < |r| ==> r[k] == Glyph(pieces[k])
  {
    if pieces == [] then [] else [Glyph(pieces[0])] + Glyphs(pieces[1..])
  }

  /** A board line of glyphs separated by spaces fills its row with those pieces, the rest of the row empty. */
  lemma GlyphLine(pieces: seq<Piece>, j: int)
    requires 0 <= j < 8
    ensures RowOf(SplitWhitespace(Spaced(Glyphs(pieces))))[j] == if j < |pieces| then Some(pieces[j]) else None
  {
    var words := Glyphs(pieces);
    GlyphsAreWords(pieces);
    SplitSpaced(words);
    CellsAt(words, 8, j);
    if j < |pieces| {
      ParseGlyph(pieces[j], "", "");
    }
  }

  lemma GlyphsAreWords(pieces: seq<Piece>)
    ensures forall k :: 0 <= k < |Glyphs(pieces)| ==> IsWord(Glyphs(pieces)[k])
  {
    forall k | 0 <= k < |Glyphs(pieces)| ensures IsWord(Glyphs(pieces)[k]) {
      GlyphIsWord(pieces[k]);
    }
  }

  lemma GlyphIsWord(p: Piece)
    ensures IsWord(Glyph(p))
  {
    var g := Glyph(p);
    forall i | 0 <= i < |g| ensures !IsWhitespace(g[i]) {
      assert i == 0;
    }
  }
}
