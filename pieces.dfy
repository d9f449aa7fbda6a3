/**
 * `Piece::can_move`: how each kind of piece moves, from the coordinate
 * deltas and, for the sliding pieces, the emptiness of the path. It never
 * looks at the colour of a captured piece and never considers check.
 */
module Pieces {
  import opened Wrappers
  import opened Geometry
  import opened ChessBoard

  predicate IsSlider(k: PieceType) {
    k == Rook || k == Bishop || k == Queen
  }

  /** The alignment tests after which `can_move` calls `clear_path` for a sliding piece. */
  predicate SlideTested(k: PieceType, from: Square, to: Square) {
    match k
    case Rook => IsHorizontal(from, to) || IsVertical(from, to)
    case Bishop => IsDiagonal(from, to)
    case Queen => Aligned(from, to)
    case _ => false
  }

  /** One square forward for a pawn of colour `c`. */
  function Forward(c: Color): int {
    if c == White then 1 else -1
  }

  /** The row a pawn of colour `c` starts on. */
  function HomeRow(c: Color): int {
    if c == White then 1 else 6
  }

  /**
   * `can_move`. It reads the destination, so `to` must be on the board; a
   * sliding piece reaches `clear_path`, which panics unless `from` is on
   * the board and differs from `to`, whenever its alignment test holds.
   */
  function CanMove(piece: Piece, b: Board, from: Square, to: Square): (r: Result<(), MoveError>)
    requires InBounds(to)
    requires SlideTested(piece.kind, from, to) ==> InBounds(from) && from != to
    ensures r.Err? ==> r.error == InvalidMove
  {
    var capturing := b.Get(to);
    var ok :=
      match piece
      case Piece(Pawn, White) =>
        if capturing.None? then
          (to.1 == from.1 && to.0 - from.0 == 1) || (to.1 == from.1 && from.0 == 1 && to.0 - from.0 == 2)
        else
          Abs(to.1 - from.1) == 1 && to.0 - from.0 == 1
      case Piece(Pawn, Black) =>
        if capturing.None? then
          (to.1 == from.1 && to.0 - from.0 == -1) || (to.1 == from.1 && from.0 == 6 && to.0 - from.0 == -2)
        else
          Abs(to.1 - from.1) == 1 && to.0 - from.0 == -1
      case Piece(Rook, _) =>
        (IsHorizontal(from, to) && b.ClearPath(from, to)) || (IsVertical(from, to) && b.ClearPath(from, to))
      case Piece(Bishop, _) =>
        IsDiagonal(from, to) && b.ClearPath(from, to)
      case Piece(Queen, _) =>
        (IsDiagonal(from, to) && b.ClearPath(from, to))
        || (IsVertical(from, to) && b.ClearPath(from, to))
        || (IsHorizontal(from, to) && b.ClearPath(from, to))
      case Piece(Knight, _) =>
        (Abs(from.0 - to.0), Abs(from.1 - to.1)) in {(2, 1), (1, 2)}
      case Piece(King, _) =>
        Abs(from.0 - to.0) <= 1 && Abs(from.1 - to.1) <= 1;
    if ok then Ok(()) else Err(InvalidMove)
  }

  /**
   * The pawn rules for both colours at once: onto an empty square one row
   * forward in the same column, or two from the home row (the square passed
   * over is not examined); onto an occupied square one row forward and one
   * column to either side.
   */
  lemma PawnMoves(b: Board, c: Color, from: Square, to: Square)
    requires InBounds(to)
    ensures CanMove(Piece(Pawn, c), b, from, to).Ok? <==>
      if b.Get(to).None? then
        to.1 == from.1 && (to.0 == from.0 + Forward(c) || (from.0 == HomeRow(c) && to.0 == from.0 + 2 * Forward(c)))
      else
        Abs(to.1 - from.1) == 1 && to.0 == from.0 + Forward(c)
  {
  }

  /** A knight jumps two squares along one axis and one along the other, whatever stands between. */
  lemma KnightMoves(b: Board, c: Color, from: Square, to: Square)
    requires InBounds(to)
    ensures CanMove(Piece(Knight, c), b, from, to).Ok? <==> (Abs(to.0 - from.0), Abs(to.1 - from.1)) in {(2, 1), (1, 2)}
  {
  }

  /** A king steps to a neighbouring square (or stays put, which the destination checks of `validate_move` reject). */
  lemma KingMoves(b: Board, c: Color, from: Square, to: Square)
    requires InBounds(to)
    ensures CanMove(Piece(King, c), b, from, to).Ok? <==> Abs(to.0 - from.0) <= 1 && Abs(to.1 - from.1) <= 1
  {
  }

  /** The directions along which a sliding piece of kind `k` moves. */
  predicate SlidesAlong(k: PieceType, d: Direction) {
    match k
    case Rook => IsOrthogonal(d)
    case Bishop => !IsOrthogonal(d)
    case Queen => true
    case _ => false
  }

  /**
   * A rook, bishop or queen moves to `to` exactly when `to` lies some steps
   * away along one of its directions and every square it passes over is
   * vacant. (`from == to` is the case in which the source panics.)
   */
  lemma SliderMoves(piece: Piece, b: Board, from: Square, to: Square)
    requires IsSlider(piece.kind) && InBounds(from) && InBounds(to) && from != to
    ensures CanMove(piece, b, from, to).Ok? <==>
      GetDirection(from, to).Some? && SlidesAlong(piece.kind, GetDirection(from, to).value)
      && forall k :: 1 <= k < Dist(from, to) ==> b.Get(Step(from, GetDirection(from, to).value, k)).None?
  {
    if GetDirection(from, to).Some? {
      var d := GetDirection(from, to).value;
      ClearPathSteps(b, from, to);
      assert IsOrthogonal(d) <==> IsHorizontal(from, to) || IsVertical(from, to);
    }
  }

  /** Whatever occupies the destination, its colour and kind make no difference to `can_move`. */
  lemma CanMoveIgnoresCapturedPiece(piece: Piece, b: Board, from: Square, to: Square, other: Piece)
    requires InBounds(to) && b.Get(to).Some?
    requires SlideTested(piece.kind, from, to) ==> InBounds(from) && from != to
    ensures CanMove(piece, b.Set(to, Some(other)), from, to) == CanMove(piece, b, from, to)
  {
    var b' := b.Set(to, Some(other));
    if SlideTested(piece.kind, from, to) && GetDirection(from, to).Some? {
      assert b'.ClearPath(from, to) == b.ClearPath(from, to) by {
        forall q | Between(from, to, q) ensures b'.Get(q) == b.Get(q) {
          assert q != to;
        }
      }
    }
  }
}
