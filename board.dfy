/**
 * The board value: colours, pieces, the 8x8 grid, the side to move and the
 * turn counter, with the cell accessors and `clear_path`.
 */
module ChessBoard {
  import opened Wrappers
  import opened Geometry

  datatype Color = White | Black {
    /** `Color::other`: the opponent, which with two colours is the one colour that differs. */
    function Other(): (c: Color)
      ensures c != this
    {
      match this
      case White => Black
      case Black => White
    }
  }

  /** `other` is an involution. */
  lemma OtherInvolution(c: Color)
    ensures c.Other().Other() == c
  {
  }

  datatype PieceType = Pawn | Rook | Knight | Bishop | Queen | King

  datatype Piece = Piece(kind: PieceType, color: Color) {
    predicate IsKing() {
      kind == King
    }
  }

  /** One square's content. */
  type Cell = Option<Piece>

  /** `[[Option<Piece>; 8]; 8]`, indexed by row then column. */
  type Grid = g: seq<seq<Cell>> | |g| == 8 && forall r :: 0 <= r < 8 ==> |g[r]| == 8
    witness seq(8, _ => seq(8, _ => None))

  /** `u8` */
  type Byte = x: int | 0 <= x < 256

  /**
   * Why a move is refused; one kind per message of `can_move` and
   * `validate_move` (the source returns the messages as strings).
   */
  datatype MoveError =
    | OutOfBounds     // the square is off the board
    | NoPiece         // nothing stands on the square moved from
    | NotYourPiece    // the piece belongs to the opponent
    | CaptureKing     // the destination holds a king
    | SquareOccupied  // the destination holds one of the mover's own pieces
    | InvalidMove     // the piece does not move that way
    | StillInCheck    // the move leaves the king in check
    | SelfCheck       // the king would step into check
    | PinnedKnight    // a pinned knight cannot move at all
    | PinnedOffLine   // a pinned piece leaves the line of the pin
    | PinnedInCheck   // a pinned piece cannot answer a check
    | MustMoveKing    // two or more checks: only the king may move

  /** Every cell empty. */
  function EmptyGrid(): (g: Grid)
    ensures forall r, c :: 0 <= r < 8 && 0 <= c < 8 ==> g[r][c].None?
  {
    seq(8, _ => seq(8, _ => None))
  }

  /** The engine's board; Rust's `Board` is `Copy`, so it is a value here. */
  datatype Board = Board(data: Grid, player: Color, turnNo: Byte) {
    /** `get`: the content of an on-board square. */
    function Get(loc: Square): Cell
      requires InBounds(loc)
    {
      data[loc.0][loc.1]
    }

    /** `set`: the same board with one square overwritten. */
    function Set(loc: Square, piece: Cell): (r: Board)
      requires InBounds(loc)
      ensures r.Get(loc) == piece
      ensures forall q :: InBounds(q) && q != loc ==> r.Get(q) == Get(q)
      ensures r.player == player && r.turnNo == turnNo
    {
      this.(data := data[loc.0 := data[loc.0][loc.1 := piece]])
    }

    /**
     * `clear_path`: every square strictly between `from` and `to` is
     * vacant. The source panics unless the two squares are distinct and on
     * one line, which is what `GetDirection(from, to).Some?` says.
     */
    predicate ClearPath(from: Square, to: Square)
      requires InBounds(from) && InBounds(to) && GetDirection(from, to).Some?
      ensures ClearPath(from, to) <==> forall q :: Between(from, to, q) ==> Get(q).None?
    {
      GetPathSegment(from, to);
      var path := GetPath(from, to).value;
      assert forall q :: q in path <==> Between(from, to, q) by {
        forall q ensures q in path <==> Between(from, to, q) {
          PathMembers(from, to, q);
        }
      }
      AllVacant(path)
    }

    /** The early-exit loop of `clear_path` over the squares of a path. */
    predicate AllVacant(path: seq<Square>)
      requires forall q :: q in path ==> InBounds(q)
      ensures AllVacant(path) <==> forall q :: q in path ==> Get(q).None?
    {
      if path == [] then true
      else if Get(path[0]).Some? then false
      else AllVacant(path[1..])
    }
  }

  /** `clear_path` in terms of the steps from `from`: each of the first distance minus one squares is vacant. */
  lemma ClearPathSteps(b: Board, from: Square, to: Square)
    requires InBounds(from) && InBounds(to) && GetDirection(from, to).Some?
    ensures var d := GetDirection(from, to).value;
      b.ClearPath(from, to) <==>
      forall k :: 1 <= k < Dist(from, to) ==> InBounds(Step(from, d, k)) && b.Get(Step(from, d, k)).None?
  {
    var d := GetDirection(from, to).value;
    var n := Dist(from, to);
    forall k | 1 <= k < n ensures InBounds(Step(from, d, k)) && Between(from, to, Step(from, d, k)) {
      StepInBounds(from, d, n, k);
      StepDirection(from, d, k);
    }
    if !b.ClearPath(from, to) {
      var q :| Between(from, to, q) && b.Get(q).Some?;
      var m := Dist(from, q);
      assert q == Step(from, d, m);
    }
  }

  /** The opposite direction: `k` steps along it undo `k` steps along `d`. */
  function Reversed(d: Direction): (e: Direction)
    ensures forall a: Square, k :: Step(Step(a, d, k), e, k) == a
  {
    (Flip(d.0), Flip(d.1))
  }

  function Flip(s: Sign): (t: Sign)
    ensures forall k :: Offset(t, k) == -Offset(s, k)
  {
    match s
    case Increasing => Decreasing
    case Decreasing => Increasing
    case Zero => Zero
  }

  /** Being strictly between two squares does not depend on which end one starts from. */
  lemma BetweenSymmetric(a: Square, b: Square, q: Square)
    requires InBounds(a) && InBounds(b) && GetDirection(a, b).Some?
    ensures Between(a, b, q) ==> Between(b, a, q)
  {
    if Between(a, b, q) {
      var d := GetDirection(a, b).value;
      var n := Dist(a, b);
      var k := Dist(a, q);
      var e := Reversed(d);
      assert q == Step(a, d, k);
      assert b == Step(a, d, n);
      assert Step(b, e, n - k) == q by {
        StepAdd(a, d, k, n - k);
        assert Step(Step(a, d, n), e, n - k) == Step(Step(Step(a, d, k), d, n - k), e, n - k);
      }
      assert InBounds(Step(b, e, n)) by {
        assert Step(b, e, n) == a;
      }
      assert e != (Zero, Zero);
      StepDirection(b, e, n - k);
      StepDirection(b, e, n);
      assert Step(b, e, n) == a;
    }
  }

  /** `clear_path(a, b) == clear_path(b, a)`, which `is_pinned` relies on. */
  lemma ClearPathSymmetric(x: Board, a: Square, b: Square)
    requires InBounds(a) && InBounds(b) && GetDirection(a, b).Some?
    ensures GetDirection(b, a).Some?
    ensures x.ClearPath(a, b) == x.ClearPath(b, a)
  {
    forall q ensures Between(a, b, q) <==> Between(b, a, q) {
      BetweenSymmetric(a, b, q);
      BetweenSymmetric(b, a, q);
    }
  }
}
