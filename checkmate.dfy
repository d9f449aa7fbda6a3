/**
 * `check_mate`: the exhaustive search for a move that `validate_move`
 * accepts, over the player's pieces and all 64 destinations.
 */
module CheckMate {
  import opened Wrappers
  import opened Geometry
  import opened ChessBoard
  import opened Pieces
  import opened Moves

  /**
   * `check_mate` panics unless every move it tries has a king to look up:
   * whenever one of the player's pieces passes the early checks, the
   * player has a king.
   */
  ghost predicate KingWhenNeeded(b: Board, player: Option<Color>) {
    var c := player.GetOr(b.player);
    forall from, to :: InBounds(from) && InBounds(to) && Owns(b, c, from) && EarlyChecks(b, from, to, c).Ok? ==>
      KingSquare(b, c).Some?
  }

  /** A legal move for the player: one of its pieces to an on-board square, accepted by `validate_move`. */
  ghost predicate LegalMove(b: Board, from: Square, to: Square, player: Option<Color>)
    requires KingWhenNeeded(b, player)
  {
    InBounds(from) && InBounds(to) && Owns(b, player.GetOr(b.player), from)
    && Verdict(b, from, to, player).Ok?
  }

  /** Some move of the piece on `from` is legal. */
  ghost predicate HasMoveFrom(b: Board, from: Square, player: Option<Color>)
    requires KingWhenNeeded(b, player)
  {
    exists to :: LegalMove(b, from, to, player)
  }

  /** `check_mate`: true exactly when the player has no legal move. */
  method CheckMate(b: Board, player: Option<Color>) returns (mate: bool)
    requires KingWhenNeeded(b, player)
    ensures mate <==> forall from, to :: !LegalMove(b, from, to, player)
  {
    var pieces := FindPieces(b, player);
    var i := 0;
    while i < |pieces|
      invariant 0 <= i <= |pieces|
      invariant forall q :: q in pieces[..i] ==> !HasMoveFrom(b, q, player)
    {
      var found := MovesFrom(b, pieces[i], player);
      if found {
        return false;
      }
      assert pieces[..i + 1] == pieces[..i] + [pieces[i]];
      i := i + 1;
    }
    assert pieces[..i] == pieces;
    NoMoveFromPieces(b, player, pieces);
    return true;
  }

  /** A legal move starts on one of the player's pieces, so when none of them has one there is none. */
  lemma NoMoveFromPieces(b: Board, player: Option<Color>, pieces: seq<Square>)
    requires KingWhenNeeded(b, player)
    requires pieces == FindPieces(b, player)
    requires forall q :: q in pieces ==> !HasMoveFrom(b, q, player)
    ensures forall from, to :: !LegalMove(b, from, to, player)
  {
    forall from, to ensures !LegalMove(b, from, to, player) {
      if from in pieces {
        assert !HasMoveFrom(b, from, player);
      }
    }
  }

  /** The inner loop of `check_mate`: whether some destination in row-major order accepts the piece on `from`. */
  method MovesFrom(b: Board, from: Square, player: Option<Color>) returns (found: bool)
    requires KingWhenNeeded(b, player)
    requires InBounds(from) && Owns(b, player.GetOr(b.player), from)
    ensures found <==> HasMoveFrom(b, from, player)
  {
    var row := 0;
    while row < 8
      invariant 0 <= row <= 8
      invariant NoneBefore(b, from, player, row, 0)
    {
      var col := 0;
      while col < 8
        invariant 0 <= col <= 8
        invariant NoneBefore(b, from, player, row, col)
      {
        var verdict := ValidateMove(b, from, (row, col), player);
        if verdict.Ok? {
          assert LegalMove(b, from, (row, col), player);
          return true;
        }
        NoneBeforeNext(b, from, player, row, col);
        col := col + 1;
      }
      NoneBeforeRow(b, from, player, row);
      row := row + 1;
    }
    NoneBeforeAll(b, from, player);
    return false;
  }

  /** No destination before (row, col) in row-major order is legal for the piece on `from`. */
  ghost predicate NoneBefore(b: Board, from: Square, player: Option<Color>, row: int, col: int)
    requires KingWhenNeeded(b, player)
  {
    forall to :: InBounds(to) && (to.0 < row || (to.0 == row && to.1 < col)) ==> !LegalMove(b, from, to, player)
  }

  lemma NoneBeforeNext(b: Board, from: Square, player: Option<Color>, row: int, col: int)
    requires KingWhenNeeded(b, player)
    requires NoneBefore(b, from, player, row, col) && !LegalMove(b, from, (row, col), player)
    ensures NoneBefore(b, from, player, row, col + 1)
  {
  }

  lemma NoneBeforeRow(b: Board, from: Square, player: Option<Color>, row: int)
    requires KingWhenNeeded(b, player)
    requires NoneBefore(b, from, player, row, 8)
    ensures NoneBefore(b, from, player, row + 1, 0)
  {
  }

  lemma NoneBeforeAll(b: Board, from: Square, player: Option<Color>)
    requires KingWhenNeeded(b, player)
    requires NoneBefore(b, from, player, 8, 0)
    ensures !HasMoveFrom(b, from, player)
  {
  }
}
