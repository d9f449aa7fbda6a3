/**
 * Check and pin detection: the search for the first occupied square of a
 * list, the four attacker scans around a king square, and `is_pinned`.
 */
module Check {
  import opened Wrappers
  import opened Geometry
  import opened ChessBoard
  import opened Pieces

  /** The piece tests the scans hand to `check_squares` (closures in the source). */
  datatype Matcher =
    | Slider(diagonal: bool, color: Color)  // a queen, or a bishop (diagonal) or rook (not) of `color`
    | Exactly(piece: Piece)                 // this one piece

  predicate Matches(m: Matcher, p: Piece) {
    match m
    case Slider(diagonal, c) => p == Piece(if diagonal then Bishop else Rook, c) || p == Piece(Queen, c)
    case Exactly(q) => p == q
  }

  /**
   * `get_directed_closure`: the pieces of colour `c` that attack along `d`.
   * The source panics on `(Zero, Zero)`.
   */
  function GetDirectedClosure(d: Direction, c: Color): (m: Matcher)
    requires d != (Zero, Zero)
    ensures forall p :: Matches(m, p) <==> p.color == c && IsSlider(p.kind) && SlidesAlong(p.kind, d)
  {
    if d.0 == Zero || d.1 == Zero then Slider(false, c) else Slider(true, c)
  }

  // ---------------------------------------------------------------------
  // check_squares

  /** The first step of `check_squares`: keep the on-board squares, in order. */
  function InBoundsOnly(squares: seq<Square>): (r: seq<Square>)
    ensures forall q :: q in r <==> q in squares && InBounds(q)
    ensures (forall i :: 0 <= i < |squares| ==> InBounds(squares[i])) ==> r == squares
  {
    if squares == [] then []
    else (if InBounds(squares[0]) then [squares[0]] else []) + InBoundsOnly(squares[1..])
  }

  /** No piece stands on the first `i` squares of the list. */
  ghost predicate VacantBefore(b: Board, squares: seq<Square>, i: int)
    requires 0 <= i <= |squares| && forall j :: 0 <= j < |squares| ==> InBounds(squares[j])
  {
    forall j :: 0 <= j < i ==> b.Get(squares[j]).None?
  }

  /**
   * The loop of `check_squares` over on-board squares: the result is
   * decided by the first occupied square alone, which is returned when its
   * piece matches; when every square is vacant there is no result.
   */
  function ScanFirst(b: Board, squares: seq<Square>, m: Matcher): (r: Option<Square>)
    requires forall j :: 0 <= j < |squares| ==> InBounds(squares[j])
    ensures (forall j :: 0 <= j < |squares| ==> b.Get(squares[j]).None?) ==> r.None?
    ensures forall i :: 0 <= i < |squares| && b.Get(squares[i]).Some? && VacantBefore(b, squares, i) ==>
      r == if Matches(m, b.Get(squares[i]).value) then Some(squares[i]) else None
  {
    if squares == [] then None
    else
      match b.Get(squares[0])
      case Some(p) => if Matches(m, p) then Some(squares[0]) else None
      case None =>
        var r := ScanFirst(b, squares[1..], m);
        assert forall i :: 1 <= i < |squares| && VacantBefore(b, squares, i) ==> VacantBefore(b, squares[1..], i - 1) by {
          forall i | 1 <= i < |squares| && VacantBefore(b, squares, i)
            ensures VacantBefore(b, squares[1..], i - 1)
          {
            forall j | 0 <= j < i - 1 ensures b.Get(squares[1..][j]).None? {
              assert squares[1..][j] == squares[j + 1];
            }
          }
        }
        r
  }

  /** `check_squares`: the first occupied one of the on-board squares, if its piece matches. */
  function CheckSquares(b: Board, squares: seq<Square>, m: Matcher): Option<Square> {
    var inBounds := InBoundsOnly(squares);
    assert forall j :: 0 <= j < |inBounds| ==> InBounds(inBounds[j]) by {
      forall j | 0 <= j < |inBounds| ensures InBounds(inBounds[j]) {
        assert inBounds[j] in inBounds;
      }
    }
    ScanFirst(b, inBounds, m)
  }

  /** A found square is one of the squares scanned, holds a piece, and the piece matches. */
  lemma ScanFirstFound(b: Board, squares: seq<Square>, m: Matcher)
    requires forall j :: 0 <= j < |squares| ==> InBounds(squares[j])
    ensures ScanFirst(b, squares, m).Some? ==>
      exists i :: 0 <= i < |squares| && squares[i] == ScanFirst(b, squares, m).value
        && b.Get(squares[i]).Some? && Matches(m, b.Get(squares[i]).value) && VacantBefore(b, squares, i)
  {
    if squares != [] && b.Get(squares[0]).None? {
      ScanFirstFound(b, squares[1..], m);
      if ScanFirst(b, squares, m).Some? {
        var i :| 0 <= i < |squares[1..]| && squares[1..][i] == ScanFirst(b, squares[1..], m).value
          && b.Get(squares[1..][i]).Some? && Matches(m, b.Get(squares[1..][i]).value) && VacantBefore(b, squares[1..], i);
        assert VacantBefore(b, squares, i + 1);
      }
    } else if squares != [] {
      assert VacantBefore(b, squares, 0);
    }
  }

  /** Boards that agree on every square of the list give the same result. */
  lemma ScanFirstFrame(b: Board, b': Board, squares: seq<Square>, m: Matcher)
    requires forall j :: 0 <= j < |squares| ==> InBounds(squares[j])
    requires forall j :: 0 <= j < |squares| ==> b.Get(squares[j]) == b'.Get(squares[j])
    ensures ScanFirst(b, squares, m) == ScanFirst(b', squares, m)
  {
    if squares != [] {
      ScanFirstFrame(b, b', squares[1..], m);
    }
  }

  /** Vacant squares in front of a list do not change the result. */
  lemma ScanFirstSkip(b: Board, vacant: seq<Square>, rest: seq<Square>, m: Matcher)
    requires forall j :: 0 <= j < |vacant| ==> InBounds(vacant[j]) && b.Get(vacant[j]).None?
    requires forall j :: 0 <= j < |rest| ==> InBounds(rest[j])
    ensures ScanFirst(b, vacant + rest, m) == ScanFirst(b, rest, m)
  {
    if vacant != [] {
      assert (vacant + rest)[1..] == vacant[1..] + rest;
      ScanFirstSkip(b, vacant[1..], rest, m);
    } else {
      assert vacant + rest == rest;
    }
  }

  // ---------------------------------------------------------------------
  // The sliding attackers

  /** `ranged_checking`'s eight directions, in the source's order. */
  const Directions: seq<Direction> := [
    (Increasing, Zero), (Decreasing, Zero), (Zero, Increasing), (Zero, Decreasing),
    (Increasing, Increasing), (Decreasing, Decreasing), (Decreasing, Increasing), (Increasing, Decreasing)
  ]

  /** The eight directions are all the directions but `(Zero, Zero)`. */
  lemma DirectionsAreAll(d: Direction)
    ensures d in Directions <==> d != (Zero, Zero)
    ensures (Zero, Zero) !in Directions
  {
    assert |Directions| == 8;
    match d {
      case (Increasing, Zero) => assert Directions[0] == d;
      case (Decreasing, Zero) => assert Directions[1] == d;
      case (Zero, Increasing) => assert Directions[2] == d;
      case (Zero, Decreasing) => assert Directions[3] == d;
      case (Increasing, Increasing) => assert Directions[4] == d;
      case (Decreasing, Decreasing) => assert Directions[5] == d;
      case (Decreasing, Increasing) => assert Directions[6] == d;
      case (Increasing, Decreasing) => assert Directions[7] == d;
      case (Zero, Zero) =>
    }
  }

  /** The attacker `ranged_checking` finds from `k` along `d`, if any. */
  function RangedHit(b: Board, k: Square, c: Color, d: Direction): Option<Square>
    requires d != (Zero, Zero)
  {
    CheckSquares(b, GetDirectedPath(k, d), GetDirectedClosure(d, c.Other()))
  }

  function OptionToSeq(o: Option<Square>): (r: seq<Square>)
    ensures forall x :: x in r <==> o == Some(x)
    ensures |r| <= 1
  {
    match o
    case Some(x) => [x]
    case None => []
  }

  /** The `filter_map` of `ranged_checking` over a list of directions: at most one square each. */
  function RangedFrom(b: Board, k: Square, c: Color, dirs: seq<Direction>): (r: seq<Square>)
    requires (Zero, Zero) !in dirs
    ensures |r| <= |dirs|
    ensures forall s :: s in r <==> exists d :: d in dirs && d != (Zero, Zero) && RangedHit(b, k, c, d) == Some(s)
  {
    if dirs == [] then []
    else
      assert forall d :: d in dirs <==> d == dirs[0] || d in dirs[1..];
      OptionToSeq(RangedHit(b, k, c, dirs[0])) + RangedFrom(b, k, c, dirs[1..])
  }

  /** `ranged_checking`: at most one attacker per direction, and the attackers are the rays' hits. */
  function RangedChecking(b: Board, k: Square, c: Color): (r: seq<Square>)
    ensures |r| <= 8
    ensures forall s :: s in r <==> exists d :: d != (Zero, Zero) && RangedHit(b, k, c, d) == Some(s)
  {
    DirectionsAreAll((Zero, Zero));
    var r := RangedFrom(b, k, c, Directions);
    assert forall s :: (exists d :: d != (Zero, Zero) && RangedHit(b, k, c, d) == Some(s)) ==> s in r by {
      forall s | exists d :: d != (Zero, Zero) && RangedHit(b, k, c, d) == Some(s) ensures s in r {
        var d :| d != (Zero, Zero) && RangedHit(b, k, c, d) == Some(s);
        DirectionsAreAll(d);
      }
    }
    r
  }

  /**
   * What the scan along one ray finds: the square `s` is the result exactly
   * when it lies along `d` from `k`, every square before it is vacant, and
   * it holds a piece the matcher accepts.
   */
  lemma RayHit(b: Board, k: Square, d: Direction, m: Matcher, s: Square)
    requires InBounds(k) && d != (Zero, Zero)
    ensures CheckSquares(b, GetDirectedPath(k, d), m) == Some(s) <==>
      InBounds(s) && GetDirection(k, s) == Some(d) && b.Get(s).Some? && Matches(m, b.Get(s).value)
      && forall j :: 1 <= j < Dist(k, s) ==> InBounds(Step(k, d, j)) && b.Get(Step(k, d, j)).None?
  {
    if CheckSquares(b, GetDirectedPath(k, d), m) == Some(s) {
      RayHitFound(b, k, d, m, s);
    }
    if InBounds(s) && GetDirection(k, s) == Some(d) && b.Get(s).Some? && Matches(m, b.Get(s).value)
      && forall j :: 1 <= j < Dist(k, s) ==> InBounds(Step(k, d, j)) && b.Get(Step(k, d, j)).None?
    {
      RayHitReached(b, k, d, m, s);
    }
  }

  /** The square the scan of a ray reports lies along the ray, matches, and only vacant squares precede it. */
  lemma RayHitFound(b: Board, k: Square, d: Direction, m: Matcher, s: Square)
    requires InBounds(k) && d != (Zero, Zero)
    requires CheckSquares(b, GetDirectedPath(k, d), m) == Some(s)
    ensures InBounds(s) && GetDirection(k, s) == Some(d) && b.Get(s).Some? && Matches(m, b.Get(s).value)
    ensures forall j :: 1 <= j < Dist(k, s) ==> InBounds(Step(k, d, j)) && b.Get(Step(k, d, j)).None?
  {
    var ray := GetDirectedPath(k, d);
    DirectedPathRay(k, d);
    assert InBoundsOnly(ray) == ray;
    ScanFirstFound(b, ray, m);
    var i :| 0 <= i < |ray| && ray[i] == s && b.Get(ray[i]).Some? && Matches(m, b.Get(ray[i]).value)
      && VacantBefore(b, ray, i);
    RayDirection(k, d, i);
    forall j | 1 <= j < Dist(k, s) ensures InBounds(Step(k, d, j)) && b.Get(Step(k, d, j)).None? {
      assert ray[j - 1] == Step(k, d, j);
    }
  }

  /** A matching piece along the ray with only vacant squares before it is the square the scan reports. */
  lemma RayHitReached(b: Board, k: Square, d: Direction, m: Matcher, s: Square)
    requires InBounds(k) && d != (Zero, Zero)
    requires InBounds(s) && GetDirection(k, s) == Some(d) && b.Get(s).Some? && Matches(m, b.Get(s).value)
    requires forall j :: 1 <= j < Dist(k, s) ==> InBounds(Step(k, d, j)) && b.Get(Step(k, d, j)).None?
    ensures CheckSquares(b, GetDirectedPath(k, d), m) == Some(s)
  {
    var ray := GetDirectedPath(k, d);
    DirectedPathRay(k, d);
    assert InBoundsOnly(ray) == ray;
    OnRay(k, d, s);
    var i := Dist(k, s) - 1;
    assert VacantBefore(b, ray, i) by {
      forall j | 0 <= j < i ensures b.Get(ray[j]).None? {
        assert ray[j] == Step(k, d, j + 1);
      }
    }
  }

  /**
   * The sliding attackers of `k`: `s` is reported exactly when it holds an
   * opposing rook or queen on `k`'s row or column, or an opposing bishop or
   * queen on one of its diagonals, with nothing in between.
   */
  lemma RangedCheckingMembers(b: Board, k: Square, c: Color, s: Square)
    requires InBounds(k)
    ensures s in RangedChecking(b, k, c) <==> SlidingAttacker(b, k, c, s)
  {
    if s in RangedChecking(b, k, c) {
      var d :| d != (Zero, Zero) && RangedHit(b, k, c, d) == Some(s);
      RangedHitAttacker(b, k, c, d, s);
    }
    if SlidingAttacker(b, k, c, s) {
      var d := GetDirection(k, s).value;
      RangedHitAttacker(b, k, c, d, s);
    }
  }

  /** An opposing rook, bishop or queen on `s` that slides along the line from `k` with nothing in between. */
  ghost predicate SlidingAttacker(b: Board, k: Square, c: Color, s: Square)
    requires InBounds(k)
  {
    InBounds(s) && GetDirection(k, s).Some? && b.Get(s).Some?
    && b.Get(s).value.color == c.Other() && IsSlider(b.Get(s).value.kind)
    && SlidesAlong(b.Get(s).value.kind, GetDirection(k, s).value)
    && b.ClearPath(k, s)
  }

  lemma RangedHitAttacker(b: Board, k: Square, c: Color, d: Direction, s: Square)
    requires InBounds(k) && d != (Zero, Zero)
    ensures RangedHit(b, k, c, d) == Some(s) <==> SlidingAttacker(b, k, c, s) && GetDirection(k, s) == Some(d)
  {
    var m := GetDirectedClosure(d, c.Other());
    RayHit(b, k, d, m, s);
    if InBounds(s) && GetDirection(k, s) == Some(d) {
      ClearPathSteps(b, k, s);
    }
  }

  // ---------------------------------------------------------------------
  // The attackers at fixed offsets

  /** `relative_checking`: each offset from `k` that holds a matching piece. */
  function RelativeChecking(b: Board, k: Square, offsets: seq<Square>, m: Matcher): (r: seq<Square>)
    ensures |r| <= |offsets|
  {
    if offsets == [] then []
    else
      OptionToSeq(CheckSquares(b, [(k.0 + offsets[0].0, k.1 + offsets[0].1)], m))
      + RelativeChecking(b, k, offsets[1..], m)
  }

  /** `s` is reported exactly when it is `k` plus one of the offsets, on the board, and holds a matching piece. */
  lemma RelativeCheckingMembers(b: Board, k: Square, offsets: seq<Square>, m: Matcher, s: Square)
    ensures s in RelativeChecking(b, k, offsets, m) <==>
      (s.0 - k.0, s.1 - k.1) in offsets && InBounds(s) && b.Get(s).Some? && Matches(m, b.Get(s).value)
  {
    if offsets != [] {
      RelativeCheckingCons(b, k, offsets, m, s);
      OffsetOf(s, k, offsets[0]);
      RelativeCheckingMembers(b, k, offsets[1..], m, s);
      InCons((s.0 - k.0, s.1 - k.1), offsets);
    }
  }

  /** The first offset contributes its square when that square holds a matching piece. */
  lemma RelativeCheckingCons(b: Board, k: Square, offsets: seq<Square>, m: Matcher, s: Square)
    requires offsets != []
    ensures s in RelativeChecking(b, k, offsets, m) <==>
      (s == (k.0 + offsets[0].0, k.1 + offsets[0].1) && InBounds(s) && b.Get(s).Some? && Matches(m, b.Get(s).value))
      || s in RelativeChecking(b, k, offsets[1..], m)
  {
    CheckOneSquare(b, (k.0 + offsets[0].0, k.1 + offsets[0].1), m);
  }

  lemma OffsetOf(s: Square, k: Square, o: Square)
    ensures (s.0 - k.0, s.1 - k.1) == o <==> s == (k.0 + o.0, k.1 + o.1)
  {
  }

  /** `check_squares` on a single square: that square, when it is on the board and holds a matching piece. */
  lemma CheckOneSquare(b: Board, q: Square, m: Matcher)
    ensures CheckSquares(b, [q], m) == if InBounds(q) && b.Get(q).Some? && Matches(m, b.Get(q).value) then Some(q) else None
  {
    assert InBoundsOnly([q]) == if InBounds(q) then [q] else [];
    if InBounds(q) {
      assert VacantBefore(b, [q], 0);
    }
  }

  /** The squares from which an opposing pawn attacks a king of colour `c`. */
  function PawnOffsets(c: Color): seq<Square> {
    match c
    case White => [(1, 1), (1, -1)]
    case Black => [(-1, 1), (-1, -1)]
  }

  const KnightOffsets: seq<Square> := [(1, 2), (1, -2), (-1, 2), (-1, -2), (2, 1), (2, -1), (-2, 1), (-2, -1)]

  const KingOffsets: seq<Square> := [(1, -1), (1, 0), (1, 1), (0, -1), (0, 1), (-1, -1), (-1, 0), (-1, 1)]

  /** The knight's offsets are the eight (1, 2) and (2, 1) jumps. */
  lemma KnightOffsetsAbs(dr: int, dc: int)
    ensures (dr, dc) in KnightOffsets <==> (Abs(dr), Abs(dc)) in {(2, 1), (1, 2)}
  {
    if (Abs(dr), Abs(dc)) in {(2, 1), (1, 2)} {
      if dr == 1 { assert (dr, dc) == KnightOffsets[0] || (dr, dc) == KnightOffsets[1]; }
      else if dr == -1 { assert (dr, dc) == KnightOffsets[2] || (dr, dc) == KnightOffsets[3]; }
      else if dr == 2 { assert (dr, dc) == KnightOffsets[4] || (dr, dc) == KnightOffsets[5]; }
      else { assert (dr, dc) == KnightOffsets[6] || (dr, dc) == KnightOffsets[7]; }
    }
  }

  /** The king's offsets are the eight neighbouring squares. */
  lemma KingOffsetsAbs(dr: int, dc: int)
    ensures (dr, dc) in KingOffsets <==> (dr, dc) != (0, 0) && Abs(dr) <= 1 && Abs(dc) <= 1
  {
    if (dr, dc) != (0, 0) && Abs(dr) <= 1 && Abs(dc) <= 1 {
      if dr == 1 { assert (dr, dc) == KingOffsets[dc + 1]; }
      else if dr == 0 { assert (dr, dc) == KingOffsets[if dc < 0 then 3 else 4]; }
      else { assert (dr, dc) == KingOffsets[dc + 6]; }
    }
  }

  /** `pawns_checking` */
  function PawnsChecking(b: Board, k: Square, c: Color): seq<Square> {
    RelativeChecking(b, k, PawnOffsets(c), Exactly(Piece(Pawn, c.Other())))
  }

  /** `knights_checking` */
  function KnightsChecking(b: Board, k: Square, c: Color): seq<Square> {
    RelativeChecking(b, k, KnightOffsets, Exactly(Piece(Knight, c.Other())))
  }

  /** `kings_checking` */
  function KingsChecking(b: Board, k: Square, c: Color): seq<Square> {
    RelativeChecking(b, k, KingOffsets, Exactly(Piece(King, c.Other())))
  }

  /**
   * `squares_checking`: the squares of the pieces that would attack a king
   * of colour `player` (the side to move when None) standing on `k`.
   */
  function SquaresChecking(b: Board, k: Square, player: Option<Color>): seq<Square> {
    var c := player.GetOr(b.player);
    RangedChecking(b, k, c) + PawnsChecking(b, k, c) + KnightsChecking(b, k, c) + KingsChecking(b, k, c)
  }

  /** `num_checking` */
  function NumChecking(b: Board, k: Square, player: Option<Color>): nat {
    |SquaresChecking(b, k, player)|
  }

  /** What `can_move` demands of an opposing piece on `s` capturing on `k`. */
  predicate CapturesOn(b: Board, s: Square, k: Square, c: Color)
    requires InBounds(s) && InBounds(k) && s != k
  {
    b.Get(s).Some? && b.Get(s).value.color == c.Other() && CanMove(b.Get(s).value, b, s, k).Ok?
  }

  /** The sliding attackers are the opposing rooks, bishops and queens that can capture on `k`. */
  lemma RangedCaptures(b: Board, k: Square, c: Color, s: Square)
    requires InBounds(k) && InBounds(s) && s != k
    ensures s in RangedChecking(b, k, c) <==>
      CapturesOn(b, s, k, c) && IsSlider(b.Get(s).value.kind)
  {
    RangedCheckingMembers(b, k, c, s);
    if b.Get(s).Some? && IsSlider(b.Get(s).value.kind) {
      var p := b.Get(s).value;
      SliderMoves(p, b, s, k);
      if GetDirection(k, s).Some? {
        var d := GetDirection(k, s).value;
        DirectionReversed(k, s);
        SlidesAlongReversed(p.kind, d);
        ClearPathSymmetric(b, k, s);
        ClearPathSteps(b, s, k);
      }
      if GetDirection(s, k).Some? {
        DirectionReversed(s, k);
      }
    }
  }

  /** The pawn attackers are the opposing pawns that can capture on an occupied `k`. */
  lemma PawnCaptures(b: Board, k: Square, c: Color, s: Square)
    requires InBounds(k) && InBounds(s) && s != k && b.Get(k).Some?
    ensures s in PawnsChecking(b, k, c) <==> CapturesOn(b, s, k, c) && b.Get(s).value.kind == Pawn
  {
    RelativeCheckingMembers(b, k, PawnOffsets(c), Exactly(Piece(Pawn, c.Other())), s);
    PawnStep(s, k, c);
    if b.Get(s) == Some(Piece(Pawn, c.Other())) {
      PawnMoves(b, c.Other(), s, k);
    }
  }

  /** The knight attackers are the opposing knights that can capture on `k`. */
  lemma KnightCaptures(b: Board, k: Square, c: Color, s: Square)
    requires InBounds(k) && InBounds(s) && s != k
    ensures s in KnightsChecking(b, k, c) <==> CapturesOn(b, s, k, c) && b.Get(s).value.kind == Knight
  {
    RelativeCheckingMembers(b, k, KnightOffsets, Exactly(Piece(Knight, c.Other())), s);
    KnightJump(s, k);
    if b.Get(s) == Some(Piece(Knight, c.Other())) {
      KnightMoves(b, c.Other(), s, k);
    }
  }

  /** The king attackers are the opposing kings that can capture on `k`. */
  lemma KingCaptures(b: Board, k: Square, c: Color, s: Square)
    requires InBounds(k) && InBounds(s) && s != k
    ensures s in KingsChecking(b, k, c) <==> CapturesOn(b, s, k, c) && b.Get(s).value.kind == King
  {
    RelativeCheckingMembers(b, k, KingOffsets, Exactly(Piece(King, c.Other())), s);
    KingStep(s, k);
    if b.Get(s) == Some(Piece(King, c.Other())) {
      KingMoves(b, c.Other(), s, k);
    }
  }

  /** `s` is at a pawn offset of `k` for colour `c` exactly when an opposing pawn on `s` would capture on `k`. */
  lemma PawnStep(s: Square, k: Square, c: Color)
    ensures (s.0 - k.0, s.1 - k.1) in PawnOffsets(c) <==> Abs(k.1 - s.1) == 1 && k.0 == s.0 + Forward(c.Other())
  {
  }

  /** `s` is at a knight offset of `k` exactly when the two squares are a knight's jump apart. */
  lemma KnightJump(s: Square, k: Square)
    ensures (s.0 - k.0, s.1 - k.1) in KnightOffsets <==> (Abs(k.0 - s.0), Abs(k.1 - s.1)) in {(2, 1), (1, 2)}
  {
    KnightOffsetsAbs(s.0 - k.0, s.1 - k.1);
    assert Abs(k.0 - s.0) == Abs(s.0 - k.0) && Abs(k.1 - s.1) == Abs(s.1 - k.1);
  }

  /** `s` is at a king offset of `k` exactly when the two squares are distinct neighbours. */
  lemma KingStep(s: Square, k: Square)
    ensures (s.0 - k.0, s.1 - k.1) in KingOffsets <==> s != k && Abs(k.0 - s.0) <= 1 && Abs(k.1 - s.1) <= 1
  {
    KingOffsetsAbs(s.0 - k.0, s.1 - k.1);
  }

  /** None of the scans reports the king square itself. */
  lemma NotSelfChecking(b: Board, k: Square, c: Color)
    requires InBounds(k)
    ensures k !in SquaresChecking(b, k, Some(c))
  {
    RangedCheckingMembers(b, k, c, k);
    RelativeCheckingMembers(b, k, PawnOffsets(c), Exactly(Piece(Pawn, c.Other())), k);
    RelativeCheckingMembers(b, k, KnightOffsets, Exactly(Piece(Knight, c.Other())), k);
    KnightOffsetsAbs(0, 0);
    RelativeCheckingMembers(b, k, KingOffsets, Exactly(Piece(King, c.Other())), k);
    KingOffsetsAbs(0, 0);
  }

  /** Every square the scans report is on the board. */
  lemma SquaresCheckingInBounds(b: Board, k: Square, c: Color, s: Square)
    requires InBounds(k) && s in SquaresChecking(b, k, Some(c))
    ensures InBounds(s)
  {
    RangedCheckingMembers(b, k, c, s);
    RelativeCheckingMembers(b, k, PawnOffsets(c), Exactly(Piece(Pawn, c.Other())), s);
    RelativeCheckingMembers(b, k, KnightOffsets, Exactly(Piece(Knight, c.Other())), s);
    RelativeCheckingMembers(b, k, KingOffsets, Exactly(Piece(King, c.Other())), s);
  }

  /** Every square of `squares_checking` is on the board. */
  lemma AllCheckingInBounds(b: Board, k: Square, c: Color)
    requires InBounds(k)
    ensures forall i :: 0 <= i < |SquaresChecking(b, k, Some(c))| ==> InBounds(SquaresChecking(b, k, Some(c))[i])
  {
    var sc := SquaresChecking(b, k, Some(c));
    forall i | 0 <= i < |sc| ensures InBounds(sc[i]) {
      SquaresCheckingInBounds(b, k, c, sc[i]);
    }
  }

  lemma RangedFromIgnoresOrigin(b: Board, k: Square, x: Cell, c: Color, dirs: seq<Direction>)
    requires InBounds(k) && (Zero, Zero) !in dirs
    ensures RangedFrom(b.Set(k, x), k, c, dirs) == RangedFrom(b, k, c, dirs)
  {
    if dirs != [] {
      RayIgnoresOrigin(b, k, x, dirs[0], GetDirectedClosure(dirs[0], c.Other()));
      RangedFromIgnoresOrigin(b, k, x, c, dirs[1..]);
    }
  }

  lemma RelativeIgnoresOrigin(b: Board, k: Square, x: Cell, offsets: seq<Square>, m: Matcher)
    requires InBounds(k) && (0, 0) !in offsets
    ensures RelativeChecking(b.Set(k, x), k, offsets, m) == RelativeChecking(b, k, offsets, m)
  {
    if offsets != [] {
      var q := (k.0 + offsets[0].0, k.1 + offsets[0].1);
      InCons((0, 0), offsets);
      OffsetMoves(k, offsets[0]);
      CheckOneSquare(b, q, m);
      CheckOneSquare(b.Set(k, x), q, m);
      RelativeIgnoresOrigin(b, k, x, offsets[1..], m);
    }
  }

  /** A non-zero offset leads away from the square. */
  lemma OffsetMoves(k: Square, o: Square)
    requires o != (0, 0)
    ensures (k.0 + o.0, k.1 + o.1) != k
  {
  }

  lemma InCons<T>(x: T, s: seq<T>)
    requires s != []
    ensures x in s <==> x == s[0] || x in s[1..]
  {
    assert s == [s[0]] + s[1..];
  }

  /** `squares_checking(k)` never looks at `k` itself, so it does not matter what stands there. */
  lemma CheckingIgnoresOrigin(b: Board, k: Square, x: Cell, c: Color)
    requires InBounds(k)
    ensures SquaresChecking(b.Set(k, x), k, Some(c)) == SquaresChecking(b, k, Some(c))
  {
    var b' := b.Set(k, x);
    assert RangedChecking(b', k, c) == RangedChecking(b, k, c) by {
      DirectionsAreAll((Zero, Zero));
      RangedFromIgnoresOrigin(b, k, x, c, Directions);
    }
    assert PawnsChecking(b', k, c) == PawnsChecking(b, k, c) by {
      RelativeIgnoresOrigin(b, k, x, PawnOffsets(c), Exactly(Piece(Pawn, c.Other())));
    }
    assert KnightsChecking(b', k, c) == KnightsChecking(b, k, c) by {
      KnightOffsetsAbs(0, 0);
      RelativeIgnoresOrigin(b, k, x, KnightOffsets, Exactly(Piece(Knight, c.Other())));
    }
    assert KingsChecking(b', k, c) == KingsChecking(b, k, c) by {
      KingOffsetsAbs(0, 0);
      RelativeIgnoresOrigin(b, k, x, KingOffsets, Exactly(Piece(King, c.Other())));
    }
  }

  /**
   * `num_checking(k) > 0` exactly when some opposing piece could capture a
   * king of colour `c` placed on `k`, whatever stands on `k` now.
   */
  lemma AttackedSquare(b: Board, k: Square, c: Color)
    requires InBounds(k)
    ensures NumChecking(b, k, Some(c)) > 0 <==>
      exists s :: InBounds(s) && s != k && CapturesOn(b.Set(k, Some(Piece(King, c))), s, k, c)
  {
    var b' := b.Set(k, Some(Piece(King, c)));
    CheckingIgnoresOrigin(b, k, Some(Piece(King, c)), c);
    var sc := SquaresChecking(b', k, Some(c));
    if |sc| > 0 {
      SquaresCheckingAreCaptures(b', k, c, sc[0]);
    }
    if exists s :: InBounds(s) && s != k && CapturesOn(b', s, k, c) {
      var s :| InBounds(s) && s != k && CapturesOn(b', s, k, c);
      SquaresCheckingAreCaptures(b', k, c, s);
    }
  }

  /**
   * The four scans find exactly the opposing pieces that `can_move` lets
   * onto `k` when `k` holds one of `c`'s pieces: the squares checking a king
   * are the squares of the pieces that could capture it.
   */
  lemma SquaresCheckingAreCaptures(b: Board, k: Square, c: Color, s: Square)
    requires InBounds(k) && b.Get(k).Some? && b.Get(k).value.color == c
    ensures s in SquaresChecking(b, k, Some(c)) <==>
      InBounds(s) && s != k && CapturesOn(b, s, k, c)
  {
    if s in SquaresChecking(b, k, Some(c)) {
      SquaresCheckingInBounds(b, k, c, s);
      NotSelfChecking(b, k, c);
    }
    if InBounds(s) && s != k {
      RangedCaptures(b, k, c, s);
      PawnCaptures(b, k, c, s);
      KnightCaptures(b, k, c, s);
      KingCaptures(b, k, c, s);
    }
  }

  // ---------------------------------------------------------------------
  // Pins

  /**
   * `is_pinned`: the direction from `shielded` to `blocking` when nothing
   * stands between them and the first piece beyond `blocking` on that line
   * is an opposing slider of the line's kind; None otherwise.
   */
  function IsPinned(b: Board, blocking: Square, shielded: Square, player: Option<Color>): (r: Option<Direction>)
    requires InBounds(blocking) && InBounds(shielded)
    ensures r.Some? ==> GetDirection(shielded, blocking) == r
  {
    var c := player.GetOr(b.player);
    match GetDirection(shielded, blocking)
    case None => None
    case Some(d) =>
      DirectionReversed(shielded, blocking);
      if b.ClearPath(blocking, shielded)
        && CheckSquares(b, GetDirectedPath(blocking, d), GetDirectedClosure(d, c.Other())).Some?
      then Some(d)
      else None
  }

  /** The ray from `k` continues, after its first `n` squares, as the ray from the `n`-th. */
  lemma RaySplit(k: Square, d: Direction, n: nat)
    requires InBounds(k) && d != (Zero, Zero) && 1 <= n <= |GetDirectedPath(k, d)|
    ensures GetDirectedPath(k, d)[n..] == GetDirectedPath(Step(k, d, n), d)
  {
    var ray := GetDirectedPath(k, d);
    var q := Step(k, d, n);
    var tail := GetDirectedPath(q, d);
    DirectedPathRay(k, d);
    RayDirection(k, d, n - 1);
    DirectedPathRay(q, d);
    var len := |ray|;
    if |tail| < len - n {
      RayDirection(k, d, n + |tail|);
      StepAdd(k, d, n, |tail| + 1);
      assert false;
    }
    if |tail| > len - n {
      RayDirection(q, d, len - n);
      StepAdd(k, d, n, len - n + 1);
      assert false;
    }
    SegmentSplit(k, d, len, n);
  }

  /** Dropping the first `n` squares of a segment leaves the segment from its `n`-th square. */
  lemma SegmentSplit(a: Square, d: Direction, len: nat, n: nat)
    requires n <= len
    ensures Segment(a, d, len)[n..] == Segment(Step(a, d, n), d, len - n)
  {
    var s := Segment(a, d, len);
    var t := Segment(Step(a, d, n), d, len - n);
    forall j | 0 <= j < len - n ensures s[n..][j] == t[j] {
      StepAdd(a, d, n, j + 1);
    }
  }

  /** Vacant squares at the front of a list do not change the result. */
  lemma ScanFirstDrop(b: Board, squares: seq<Square>, n: nat, m: Matcher)
    requires n <= |squares| && forall j :: 0 <= j < |squares| ==> InBounds(squares[j])
    requires forall j :: 0 <= j < n ==> b.Get(squares[j]).None?
    ensures ScanFirst(b, squares, m) == ScanFirst(b, squares[n..], m)
  {
    assert squares == squares[..n] + squares[n..];
    ScanFirstSkip(b, squares[..n], squares[n..], m);
  }

  /** Whatever stands on `k` itself, the ray from `k` scans as before. */
  lemma RayIgnoresOrigin(b: Board, k: Square, x: Cell, d: Direction, m: Matcher)
    requires InBounds(k) && d != (Zero, Zero)
    ensures CheckSquares(b.Set(k, x), GetDirectedPath(k, d), m) == CheckSquares(b, GetDirectedPath(k, d), m)
  {
    var ray := GetDirectedPath(k, d);
    DirectedPathRay(k, d);
    assert InBoundsOnly(ray) == ray;
    forall j | 0 <= j < |ray| ensures b.Set(k, x).Get(ray[j]) == b.Get(ray[j]) {
      RayDirection(k, d, j);
    }
    ScanFirstFrame(b, b.Set(k, x), ray, m);
  }

  /** With a clear path to `blk` and `blk` emptied, the ray up to and including `blk` is vacant. */
  lemma VacantToBlocker(b: Board, k: Square, blk: Square, d: Direction)
    requires InBounds(k) && InBounds(blk) && GetDirection(k, blk) == Some(d) && b.ClearPath(k, blk)
    ensures Dist(k, blk) <= |GetDirectedPath(k, d)|
    ensures forall j :: 0 <= j < Dist(k, blk) ==>
      InBounds(GetDirectedPath(k, d)[j]) && b.Set(blk, None).Get(GetDirectedPath(k, d)[j]).None?
  {
    OnRay(k, d, blk);
    ClearPathSteps(b, k, blk);
    forall j | 0 <= j < Dist(k, blk)
      ensures InBounds(GetDirectedPath(k, d)[j]) && b.Set(blk, None).Get(GetDirectedPath(k, d)[j]).None?
    {
      RayDirection(k, d, j);
    }
  }

  /**
   * With a clear path from `k` to `blk`, the scan from `k` on the board
   * without `blk`'s piece finds what the scan beyond `blk` finds.
   */
  lemma RayPastBlocker(b: Board, k: Square, blk: Square, d: Direction, m: Matcher)
    requires InBounds(k) && InBounds(blk) && GetDirection(k, blk) == Some(d) && b.ClearPath(k, blk)
    ensures CheckSquares(b.Set(blk, None), GetDirectedPath(k, d), m) == CheckSquares(b, GetDirectedPath(blk, d), m)
  {
    var b' := b.Set(blk, None);
    var ray := GetDirectedPath(k, d);
    var n := Dist(k, blk);
    DirectedPathRay(k, d);
    assert InBoundsOnly(ray) == ray;
    VacantToBlocker(b, k, blk, d);
    ScanFirstDrop(b', ray, n, m);
    OnRay(k, d, blk);
    RaySplit(k, d, n);
    DirectedPathRay(blk, d);
    assert InBoundsOnly(ray[n..]) == ray[n..];
    RayIgnoresOrigin(b, blk, None, d, m);
  }

  /**
   * A piece on `blk` is pinned against `k` along `d` exactly when it stands
   * on the line from `k` in direction `d` with nothing in between, and
   * taking it off the board would expose `k` to an opposing slider along
   * `d`.
   */
  lemma PinExposes(b: Board, blk: Square, k: Square, c: Color, d: Direction)
    requires InBounds(blk) && InBounds(k) && d != (Zero, Zero)
    ensures IsPinned(b, blk, k, Some(c)) == Some(d) <==>
      GetDirection(k, blk) == Some(d) && b.ClearPath(k, blk) && RangedHit(b.Set(blk, None), k, c, d).Some?
  {
    if GetDirection(k, blk) == Some(d) {
      ClearPathSymmetric(b, k, blk);
      if b.ClearPath(k, blk) {
        RayPastBlocker(b, k, blk, d, GetDirectedClosure(d, c.Other()));
      }
    }
  }

  /** The direction back is the reversed direction. */
  lemma DirectionReversed(a: Square, b: Square)
    requires InBounds(a) && InBounds(b) && GetDirection(a, b).Some?
    ensures GetDirection(b, a) == Some(Reversed(GetDirection(a, b).value))
  {
  }

  lemma SlidesAlongReversed(k: PieceType, d: Direction)
    ensures SlidesAlong(k, Reversed(d)) == SlidesAlong(k, d)
  {
  }
}
