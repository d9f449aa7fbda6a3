/**
 * The move operations of `Board`: `validate_from`, `validate_move`,
 * `execute_move`, `find_king` and `find_pieces`.
 */
module Moves {
  import opened Wrappers
  import opened Geometry
  import opened ChessBoard
  import opened Pieces
  import opened Check

  // ---------------------------------------------------------------------
  // Finding pieces

  /** Squares listed in strictly increasing row-major order. */
  predicate RowMajor(squares: seq<Square>)
    requires forall i :: 0 <= i < |squares| ==> InBounds(squares[i])
  {
    forall i, j :: 0 <= i < j < |squares| ==> SquareIndex(squares[i]) < SquareIndex(squares[j])
  }

  predicate Owns(b: Board, c: Color, q: Square)
    requires InBounds(q)
  {
    b.Get(q).Some? && b.Get(q).value.color == c
  }

  /** The `filter_map` of `find_pieces`: the listed squares holding one of `c`'s pieces, in list order. */
  function OwnedAmong(b: Board, c: Color, squares: seq<Square>): (r: seq<Square>)
    requires forall i :: 0 <= i < |squares| ==> InBounds(squares[i])
    requires RowMajor(squares)
    ensures forall i :: 0 <= i < |r| ==> InBounds(r[i])
    ensures forall q :: q in r <==> q in squares && Owns(b, c, q)
    ensures RowMajor(r)
  {
    if squares == [] then []
    else
      RowMajorTail(squares);
      var rest := OwnedAmong(b, c, squares[1..]);
      if Owns(b, c, squares[0]) then
        RowMajorCons(squares[0], rest);
        [squares[0]] + rest
      else
        rest
  }

  /** The first square of a row-major list precedes all the others, which are again in row-major order. */
  lemma RowMajorTail(squares: seq<Square>)
    requires squares != [] && forall i :: 0 <= i < |squares| ==> InBounds(squares[i])
    requires RowMajor(squares)
    ensures RowMajor(squares[1..])
    ensures forall q :: q in squares[1..] ==> SquareIndex(squares[0]) < SquareIndex(q)
  {
    forall q | q in squares[1..] ensures SquareIndex(squares[0]) < SquareIndex(q) {
      var j :| 0 <= j < |squares[1..]| && squares[1..][j] == q;
      assert squares[j + 1] == q;
    }
  }

  /** A square before every square of a row-major list can be put in front of it. */
  lemma RowMajorCons(x: Square, r: seq<Square>)
    requires InBounds(x) && forall i :: 0 <= i < |r| ==> InBounds(r[i])
    requires RowMajor(r) && forall q :: q in r ==> SquareIndex(x) < SquareIndex(q)
    ensures forall i :: 0 <= i < |[x] + r| ==> InBounds(([x] + r)[i])
    ensures RowMajor([x] + r)
  {
    forall j | 0 < j < |[x] + r| ensures ([x] + r)[j] in r {
      assert ([x] + r)[j] == r[j - 1];
    }
  }

  lemma AllSquaresRowMajor()
    ensures forall i :: 0 <= i < 64 ==> InBounds(AllSquares()[i]) && SquareIndex(AllSquares()[i]) == i
  {
  }

  /** `find_pieces`: exactly the squares holding the player's pieces, in row-major order. */
  function FindPieces(b: Board, player: Option<Color>): (r: seq<Square>)
    ensures forall i :: 0 <= i < |r| ==> InBounds(r[i])
    ensures forall q :: q in r <==> InBounds(q) && Owns(b, player.GetOr(b.player), q)
    ensures RowMajor(r)
  {
    AllSquaresRowMajor();
    assert forall q :: q in AllSquares() <==> InBounds(q) by {
      forall q ensures q in AllSquares() <==> InBounds(q) {
        AllSquaresAreInBounds(q);
      }
    }
    OwnedAmong(b, player.GetOr(b.player), AllSquares())
  }

  /** `validate_from`: the errors in the source's order, Ok for an on-board square holding the player's piece. */
  function ValidateFrom(b: Board, from: Square, player: Option<Color>): (r: Result<(), MoveError>)
    ensures r == Err(OutOfBounds) <==> !InBounds(from)
    ensures r == Err(NoPiece) <==> InBounds(from) && b.Get(from).None?
    ensures r == Err(NotYourPiece) <==> InBounds(from) && b.Get(from).Some? && b.Get(from).value.color != player.GetOr(b.player)
    ensures r.Ok? <==> from in FindPieces(b, player)
  {
    var c := player.GetOr(b.player);
    if !InBounds(from) then Err(OutOfBounds)
    else if b.Get(from).None? then Err(NoPiece)
    else if b.Get(from).value.color != c then Err(NotYourPiece)
    else Ok(())
  }

  // ---------------------------------------------------------------------
  // Finding the king

  /** Index `i` holds the first occurrence of `p` along `squares`. */
  predicate FirstAt(b: Board, p: Piece, squares: seq<Square>, i: int)
    requires forall j :: 0 <= j < |squares| ==> InBounds(squares[j])
  {
    0 <= i < |squares| && b.Get(squares[i]) == Some(p) && forall j :: 0 <= j < i ==> b.Get(squares[j]) != Some(p)
  }

  /** The early-return loop of `find_king` over a list of squares. */
  function FirstHolding(b: Board, p: Piece, squares: seq<Square>): (r: Option<Square>)
    requires forall i :: 0 <= i < |squares| ==> InBounds(squares[i])
    ensures r.None? <==> forall i :: 0 <= i < |squares| ==> b.Get(squares[i]) != Some(p)
    ensures r.Some? ==> exists i :: FirstAt(b, p, squares, i) && squares[i] == r.value
  {
    if squares == [] then None
    else if b.Get(squares[0]) == Some(p) then
      assert FirstAt(b, p, squares, 0);
      Some(squares[0])
    else
      var r := FirstHolding(b, p, squares[1..]);
      assert r.Some? ==> exists i :: FirstAt(b, p, squares, i) && squares[i] == r.value by {
        if r.Some? {
          var i :| FirstAt(b, p, squares[1..], i) && squares[1..][i] == r.value;
          assert FirstAt(b, p, squares, i + 1) by {
            forall j | 0 <= j < i + 1 ensures b.Get(squares[j]) != Some(p) {
              if j > 0 {
                assert squares[j] == squares[1..][j - 1];
              }
            }
          }
        }
      }
      r
  }

  /**
   * The square `find_king` reports: the first square in row-major order
   * holding `c`'s king, None when there is none.
   */
  function KingSquare(b: Board, c: Color): (r: Option<Square>)
    ensures r.None? <==> forall q :: InBounds(q) ==> b.Get(q) != Some(Piece(King, c))
    ensures r.Some? ==> InBounds(r.value) && b.Get(r.value) == Some(Piece(King, c))
    ensures r.Some? ==> forall q :: InBounds(q) && SquareIndex(q) < SquareIndex(r.value) ==> b.Get(q) != Some(Piece(King, c))
  {
    AllSquaresRowMajor();
    var r := FirstHolding(b, Piece(King, c), AllSquares());
    assert r.None? ==> forall q :: InBounds(q) ==> b.Get(q) != Some(Piece(King, c)) by {
      if r.None? {
        forall q | InBounds(q) ensures b.Get(q) != Some(Piece(King, c)) {
          assert AllSquares()[SquareIndex(q)] == q;
        }
      }
    }
    assert r.Some? ==> forall q :: InBounds(q) && SquareIndex(q) < SquareIndex(r.value) ==> b.Get(q) != Some(Piece(King, c)) by {
      if r.Some? {
        var i :| FirstAt(b, Piece(King, c), AllSquares(), i) && AllSquares()[i] == r.value;
        forall q | InBounds(q) && SquareIndex(q) < SquareIndex(r.value) ensures b.Get(q) != Some(Piece(King, c)) {
          assert AllSquares()[SquareIndex(q)] == q;
        }
      }
    }
    r
  }

  /** A king on `q` with no king of its colour earlier in row-major order is the one `find_king` reports. */
  lemma KingSquareFirst(b: Board, c: Color, q: Square)
    requires InBounds(q) && b.Get(q) == Some(Piece(King, c))
    requires forall p :: InBounds(p) && SquareIndex(p) < SquareIndex(q) ==> b.Get(p) != Some(Piece(King, c))
    ensures KingSquare(b, c) == Some(q)
  {
    var v := KingSquare(b, c).value;
    assert SquareIndex(v) == SquareIndex(q);
    assert AllSquares()[SquareIndex(v)] == v;
  }

  /** `find_king`: the row-major search for the player's king. */
  method FindKing(b: Board, player: Option<Color>) returns (r: Option<Square>)
    ensures r == KingSquare(b, player.GetOr(b.player))
  {
    var c := player.GetOr(b.player);
    var row := 0;
    while row < 8
      invariant 0 <= row <= 8
      invariant forall q :: InBounds(q) && q.0 < row ==> b.Get(q) != Some(Piece(King, c))
    {
      var col := 0;
      while col < 8
        invariant 0 <= col <= 8
        invariant forall q :: InBounds(q) && (q.0 < row || (q.0 == row && q.1 < col)) ==> b.Get(q) != Some(Piece(King, c))
      {
        if Some(Piece(King, c)) == b.Get((row, col)) {
          KingSquareFirst(b, c, (row, col));
          return Some((row, col));
        }
        col := col + 1;
      }
      row := row + 1;
    }
    return None;
  }

  // ---------------------------------------------------------------------
  // Validating a move

  /**
   * The checks `validate_move` makes before it looks for the king, in the
   * source's order: the destination is on the board, holds no king and
   * none of the mover's pieces, and `can_move` accepts the move.
   */
  function EarlyChecks(b: Board, from: Square, to: Square, c: Color): (r: Result<(), MoveError>)
    requires InBounds(from) && (InBounds(to) ==> b.Get(from).Some?)
    requires from == to && b.Get(from).Some? && b.Get(from).value.color != c ==> !IsSlider(b.Get(from).value.kind)
    ensures !InBounds(to) ==> r == Err(OutOfBounds)
    ensures r.Ok? ==> InBounds(to) && to != from
  {
    if !InBounds(to) then Err(OutOfBounds)
    else if b.Get(to).Some? && b.Get(to).value.IsKing() then Err(CaptureKing)
    else if b.Get(to).Some? && b.Get(to).value.color == c then Err(SquareOccupied)
    else
      var r := CanMove(b.Get(from).value, b, from, to);
      assert r.Ok? ==> to != from by {
        if to == from && r.Ok? {
          var p := b.Get(from).value;
          assert p.kind == Pawn || p.kind == Knight;
          if p.kind == Knight {
            KnightMoves(b, p.color, from, to);
          }
        }
      }
      r
  }

  /**
   * What `validate_move` demands of its caller so that it does not panic:
   * `from` on the board, and occupied once `to` is on the board, a sliding
   * piece not asked to stay put (its `clear_path` would panic), and a king
   * of the player's colour once the early checks pass.
   */
  predicate ValidateMovePre(b: Board, from: Square, to: Square, player: Option<Color>) {
    var c := player.GetOr(b.player);
    InBounds(from) && (InBounds(to) ==> b.Get(from).Some?)
    && (from == to && b.Get(from).Some? && b.Get(from).value.color != c ==> !IsSlider(b.Get(from).value.kind))
    && (EarlyChecks(b, from, to, c).Ok? ==> KingSquare(b, c).Some?)
  }

  /** The loop over the attackers in `validate_move`: one of them lies along the move direction behind `from`. */
  predicate AttackerInLine(attackers: seq<Square>, from: Square, moveDir: Option<Direction>)
    requires InBounds(from) && forall i :: 0 <= i < |attackers| ==> InBounds(attackers[i])
  {
    exists i :: 0 <= i < |attackers| && GetDirection(attackers[i], from).Some? && GetDirection(attackers[i], from) == moveDir
  }

  /** `get_path(attacker, king).map_or(false, |path| path.contains(&to))` */
  predicate OnPathTo(attacker: Square, king: Square, to: Square)
    requires InBounds(attacker) && InBounds(king)
  {
    GetPath(attacker, king).Some? && to in GetPath(attacker, king).value
  }

  /** The king's branch of `validate_move`, past the early checks. */
  function KingMoveVerdict(b: Board, from: Square, to: Square, c: Color, checking: seq<Square>): Result<(), MoveError>
    requires InBounds(from) && InBounds(to) && forall i :: 0 <= i < |checking| ==> InBounds(checking[i])
  {
    if NumChecking(b, to, Some(c)) > 0 then
      if |checking| > 0 then Err(StillInCheck) else Err(SelfCheck)
    else if AttackerInLine(checking, from, GetDirection(from, to)) then Err(StillInCheck)
    else Ok(())
  }

  /** The table of `validate_move` for every other piece, by pin and number of checks. */
  function OtherMoveVerdict(b: Board, from: Square, to: Square, c: Color, king: Square, checking: seq<Square>): Result<(), MoveError>
    requires InBounds(from) && InBounds(to) && InBounds(king) && forall i :: 0 <= i < |checking| ==> InBounds(checking[i])
  {
    var moveDir := GetDirection(from, to);
    match IsPinned(b, from, king, Some(c))
    case Some(pinDir) =>
      if |checking| == 0 then
        if moveDir.None? then Err(PinnedKnight)
        else if pinDir == moveDir.value then Ok(())
        else Err(PinnedOffLine)
      else Err(PinnedInCheck)
    case None =>
      if |checking| == 0 then Ok(())
      else if |checking| == 1 then
        if to == checking[0] || OnPathTo(checking[0], king, to) then Ok(())
        else Err(StillInCheck)
      else Err(MustMoveKing)
  }

  /** The answer of `validate_move`, stated as a function of the board. */
  function Verdict(b: Board, from: Square, to: Square, player: Option<Color>): Result<(), MoveError>
    requires ValidateMovePre(b, from, to, player)
  {
    var c := player.GetOr(b.player);
    var early := EarlyChecks(b, from, to, c);
    if early.Err? then early
    else
      var king := KingSquare(b, c).value;
      var checking := SquaresChecking(b, king, Some(c));
      AllCheckingInBounds(b, king, c);
      if from == king then KingMoveVerdict(b, from, to, c, checking)
      else OtherMoveVerdict(b, from, to, c, king, checking)
  }

  /**
   * `validate_move`; the early checks and the table for pieces other than
   * the king are the branching of `EarlyChecks` and `OtherMoveVerdict`,
   * and the king's branch runs the source's loop over the attackers.
   */
  method ValidateMove(b: Board, from: Square, to: Square, player: Option<Color>) returns (r: Result<(), MoveError>)
    requires ValidateMovePre(b, from, to, player)
    ensures r == Verdict(b, from, to, player)
  {
    var c := player.GetOr(b.player);
    var early := EarlyChecks(b, from, to, c);
    if early.Err? {
      return early;
    }
    var kingPosition := FindKing(b, Some(c));
    var king := kingPosition.value;
    var checking := SquaresChecking(b, king, Some(c));
    AllCheckingInBounds(b, king, c);
    var moveDir := GetDirection(from, to);
    if from != king {
      return OtherMoveVerdict(b, from, to, c, king, checking);
    }
    if NumChecking(b, to, Some(c)) > 0 {
      if |checking| > 0 {
        return Err(StillInCheck);
      } else {
        return Err(SelfCheck);
      }
    }
    var inLine := AttackerAlongMove(checking, from, moveDir);
    if inLine {
      return Err(StillInCheck);
    }
    return Ok(());
  }

  /**
   * The loop of `validate_move` over the king's attackers: whether one of
   * them lies in the direction of the move, as seen from the attacker.
   */
  method AttackerAlongMove(attackers: seq<Square>, from: Square, moveDir: Option<Direction>) returns (found: bool)
    requires InBounds(from) && forall i :: 0 <= i < |attackers| ==> InBounds(attackers[i])
    ensures found == AttackerInLine(attackers, from, moveDir)
  {
    var i := 0;
    while i < |attackers|
      invariant 0 <= i <= |attackers|
      invariant forall j :: 0 <= j < i ==> !(GetDirection(attackers[j], from).Some? && GetDirection(attackers[j], from) == moveDir)
    {
      var attackDir := GetDirection(attackers[i], from);
      if attackDir.None? {
        i := i + 1;
        continue;
      }
      if attackDir == moveDir {
        return true;
      }
      i := i + 1;
    }
    return false;
  }

  // ---------------------------------------------------------------------
  // The decision table of `validate_move`

  /**
   * The early errors, in the source's order: an off-board destination, a
   * king on it, one of the mover's own pieces on it, a move the piece does
   * not make. A move that passes leaves the board for a vacant square or
   * one holding an opposing piece other than a king.
   */
  lemma ValidateMoveEarly(b: Board, from: Square, to: Square, player: Option<Color>)
    requires ValidateMovePre(b, from, to, player)
    ensures !InBounds(to) ==> Verdict(b, from, to, player) == Err(OutOfBounds)
    ensures InBounds(to) && b.Get(to).Some? && b.Get(to).value.kind == King ==>
      Verdict(b, from, to, player) == Err(CaptureKing)
    ensures InBounds(to) && b.Get(to).Some? && b.Get(to).value.kind != King && b.Get(to).value.color == player.GetOr(b.player) ==>
      Verdict(b, from, to, player) == Err(SquareOccupied)
    ensures Verdict(b, from, to, player).Ok? ==>
      InBounds(to) && to != from
      && (b.Get(to).None? || (b.Get(to).value.kind != King && b.Get(to).value.color != player.GetOr(b.player)))
      && CanMove(b.Get(from).value, b, from, to).Ok?
  {
  }

  /**
   * Past the early checks, `validate_move` finds the king and the pieces
   * giving check and takes the king's branch or the table for the other
   * pieces.
   */
  lemma VerdictBranches(b: Board, from: Square, to: Square, player: Option<Color>)
    requires ValidateMovePre(b, from, to, player)
    requires EarlyChecks(b, from, to, player.GetOr(b.player)).Ok?
    ensures KingSquare(b, player.GetOr(b.player)).Some?
    ensures var c := player.GetOr(b.player);
      forall i :: 0 <= i < |SquaresChecking(b, KingSquare(b, c).value, Some(c))| ==>
        InBounds(SquaresChecking(b, KingSquare(b, c).value, Some(c))[i])
    ensures var c := player.GetOr(b.player);
      var king := KingSquare(b, c).value;
      Verdict(b, from, to, player) ==
        if from == king then KingMoveVerdict(b, from, to, c, SquaresChecking(b, king, Some(c)))
        else OtherMoveVerdict(b, from, to, c, king, SquaresChecking(b, king, Some(c)))
  {
    AllCheckingInBounds(b, KingSquare(b, player.GetOr(b.player)).value, player.GetOr(b.player));
  }

  /**
   * The king's own moves: refused exactly when a king of its colour on
   * `to` could be captured there (with the king still standing on `from`),
   * or when one of the pieces now giving check lies on the line through
   * `from` in the direction of the move. The error says "still in check"
   * when the king is in check now and "self check" when it is not.
   */
  lemma KingMoveRule(b: Board, from: Square, to: Square, c: Color, checking: seq<Square>)
    requires InBounds(from) && InBounds(to) && forall i :: 0 <= i < |checking| ==> InBounds(checking[i])
    ensures KingMoveVerdict(b, from, to, c, checking).Ok? <==>
      (forall s :: InBounds(s) && s != to ==> !CapturesOn(b.Set(to, Some(Piece(King, c))), s, to, c))
      && !AttackerInLine(checking, from, GetDirection(from, to))
    ensures KingMoveVerdict(b, from, to, c, checking) == Err(SelfCheck) <==>
      NumChecking(b, to, Some(c)) > 0 && |checking| == 0
  {
    AttackedSquare(b, to, c);
  }

  /**
   * A pinned piece other than the king: with the king in check it may not
   * move at all; otherwise it may move exactly in the direction that leads
   * from the king to it, which a knight never can.
   */
  lemma PinnedMoveRule(b: Board, from: Square, to: Square, c: Color, king: Square, checking: seq<Square>)
    requires InBounds(from) && InBounds(to) && InBounds(king) && forall i :: 0 <= i < |checking| ==> InBounds(checking[i])
    requires IsPinned(b, from, king, Some(c)).Some?
    ensures |checking| > 0 ==> OtherMoveVerdict(b, from, to, c, king, checking) == Err(PinnedInCheck)
    ensures |checking| == 0 ==>
      (OtherMoveVerdict(b, from, to, c, king, checking).Ok? <==> GetDirection(from, to) == GetDirection(king, from))
  {
  }

  /** A pinned knight has no move: every jump `can_move` allows leaves the line of the pin. */
  lemma PinnedKnightRule(b: Board, from: Square, to: Square, c: Color, king: Square, checking: seq<Square>)
    requires InBounds(from) && InBounds(to) && InBounds(king) && forall i :: 0 <= i < |checking| ==> InBounds(checking[i])
    requires IsPinned(b, from, king, Some(c)).Some?
    requires b.Get(from).Some? && b.Get(from).value.kind == Knight
    ensures CanMove(b.Get(from).value, b, from, to).Ok? ==> OtherMoveVerdict(b, from, to, c, king, checking).Err?
  {
    if CanMove(b.Get(from).value, b, from, to).Ok? {
      KnightMoves(b, b.Get(from).value.color, from, to);
      KnightUnaligned(from, to);
    }
  }

  /** A knight's jump never lies along a rank, a file or a diagonal. */
  lemma KnightUnaligned(from: Square, to: Square)
    requires InBounds(from) && InBounds(to)
    requires (Abs(to.0 - from.0), Abs(to.1 - from.1)) in {(2, 1), (1, 2)}
    ensures GetDirection(from, to).None?
  {
  }

  /**
   * A piece that is not pinned: free to move when the king is not in
   * check; against a single check it must capture the checking piece or
   * land strictly between it and the king; against two or more checks
   * only the king may move.
   */
  lemma UnpinnedMoveRule(b: Board, from: Square, to: Square, c: Color, king: Square, checking: seq<Square>)
    requires InBounds(from) && InBounds(to) && InBounds(king) && forall i :: 0 <= i < |checking| ==> InBounds(checking[i])
    requires IsPinned(b, from, king, Some(c)).None?
    ensures |checking| == 0 ==> OtherMoveVerdict(b, from, to, c, king, checking).Ok?
    ensures |checking| == 1 ==>
      (OtherMoveVerdict(b, from, to, c, king, checking).Ok? <==> to == checking[0] || Between(checking[0], king, to))
    ensures |checking| >= 2 ==> OtherMoveVerdict(b, from, to, c, king, checking) == Err(MustMoveKing)
  {
    if |checking| == 1 {
      GetPathSegment(checking[0], king);
      if GetPath(checking[0], king).Some? {
        PathMembers(checking[0], king, to);
      }
    }
  }

  // ---------------------------------------------------------------------
  // Executing a move

  /** The row on which a pawn of colour `c` is promoted. */
  function FarRow(c: Color): int {
    if c == White then 7 else 0
  }

  /** What lands on `to`: the moved piece, or a queen of its colour for a pawn that reaches the far row. */
  function Promoted(p: Cell, to: Square): (r: Cell)
    ensures r.Some? <==> p.Some?
    ensures p.Some? ==> r.value.color == p.value.color
    ensures p.Some? ==> (r != p <==> p.value.kind == Pawn && to.0 == FarRow(p.value.color))
    ensures r != p ==> r.value.kind == Queen
  {
    match p
    case Some(Piece(Pawn, White)) => if to.0 == 7 then Some(Piece(Queen, White)) else p
    case Some(Piece(Pawn, Black)) => if to.0 == 0 then Some(Piece(Queen, Black)) else p
    case _ => p
  }

  /**
   * `nb` is `b` after the piece on `from` moved to `to`: `to` holds the
   * (possibly promoted) piece, `from` is vacant unless it is `to`, every
   * other square is unchanged, the other side moves and the turn counter
   * has advanced by one.
   */
  ghost predicate MovedBoard(b: Board, nb: Board, from: Square, to: Square)
    requires InBounds(from) && InBounds(to)
  {
    (forall q :: InBounds(q) ==>
      nb.Get(q) == if q == to then Promoted(b.Get(from), to) else if q == from then None else b.Get(q))
    && nb.player == b.player.Other()
    && nb.turnNo == b.turnNo + 1
  }

  /**
   * `execute_move`. Both squares are indexed, the source asserts that
   * `from` is occupied, and `turn_no + 1` overflows a `u8` at 255.
   */
  method ExecuteMove(b: Board, from: Square, to: Square) returns (nb: Board)
    requires InBounds(from) && InBounds(to) && b.Get(from).Some? && b.turnNo < 255
    ensures MovedBoard(b, nb, from, to)
  {
    nb := b;
    nb := nb.Set(from, None);
    var piece := b.Get(from);
    if piece == Some(Piece(Pawn, White)) && to.0 == 7 {
      piece := Some(Piece(Queen, White));
    } else if piece == Some(Piece(Pawn, Black)) && to.0 == 0 {
      piece := Some(Piece(Queen, Black));
    }
    nb := nb.Set(to, piece);
    nb := nb.(player := b.player.Other(), turnNo := b.turnNo + 1);
  }

  /**
   * After a move of one of `c`'s pieces, `c` owns the squares it owned
   * except `from`, plus `to`; the opponent loses `to` and keeps the rest.
   */
  lemma MovedPieces(b: Board, nb: Board, from: Square, to: Square, c: Color)
    requires InBounds(from) && InBounds(to) && from != to
    requires b.Get(from).Some? && b.Get(from).value.color == c
    requires MovedBoard(b, nb, from, to)
    ensures forall q :: q in FindPieces(nb, Some(c)) <==> q == to || (q in FindPieces(b, Some(c)) && q != from)
    ensures forall q :: q in FindPieces(nb, Some(c.Other())) <==> q in FindPieces(b, Some(c.Other())) && q != to
  {
    forall q ensures q in FindPieces(nb, Some(c)) <==> q == to || (q in FindPieces(b, Some(c)) && q != from) {
      if InBounds(q) {
        assert nb.Get(q) == if q == to then Promoted(b.Get(from), to) else if q == from then None else b.Get(q);
      }
    }
    forall q ensures q in FindPieces(nb, Some(c.Other())) <==> q in FindPieces(b, Some(c.Other())) && q != to {
      if InBounds(q) {
        assert nb.Get(q) == if q == to then Promoted(b.Get(from), to) else if q == from then None else b.Get(q);
      }
    }
  }
}
