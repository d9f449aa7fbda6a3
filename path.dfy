/**
 * Board geometry: squares, directions, alignment, the squares strictly
 * between two squares and the ray from a square to the edge of the board.
 * None of it looks at the pieces on the board.
 */
module Geometry {
  import opened Wrappers

  /** The direction of travel along one axis. */
  datatype Sign = Increasing | Decreasing | Zero

  /** (row, column); a square may lie off the board, `InBounds` says when it does not. */
  type Square = (int, int)

  /** A compass direction: the sign of the row step and of the column step. */
  type Direction = (Sign, Sign)

  function Abs(x: int): nat { if x < 0 then -x else x }

  function Max(a: int, b: int): int { if a < b then b else a }

  /** The displacement of `k` steps along one axis travelled in direction `s`. */
  function Offset(s: Sign, k: int): int {
    match s
    case Increasing => k
    case Decreasing => -k
    case Zero => 0
  }

  /** The square `k` steps from `s` in direction `d`. */
  function Step(s: Square, d: Direction, k: int): Square {
    (s.0 + Offset(d.0, k), s.1 + Offset(d.1, k))
  }

  /** The king-move (Chebyshev) distance between two squares. */
  function Dist(a: Square, b: Square): nat {
    Max(Abs(b.0 - a.0), Abs(b.1 - a.1))
  }

  /** `Sign::from_int`: the sign of `x`, which `Offset` turns back into `x`. */
  function SignOf(x: int): (s: Sign)
    ensures Offset(s, Abs(x)) == x
    ensures s == Increasing <==> x > 0
    ensures s == Decreasing <==> x < 0
  {
    if x < 0 then Decreasing else if x > 0 then Increasing else Zero
  }

  predicate IsHorizontal(from: Square, to: Square) {
    from.0 == to.0
  }

  predicate IsVertical(from: Square, to: Square) {
    from.1 == to.1
  }

  /** Diagonal as the source tests it: the row delta equals plus or minus the column delta. */
  predicate IsDiagonal(from: Square, to: Square)
    ensures IsDiagonal(from, to) <==> Abs(to.0 - from.0) == Abs(to.1 - from.1)
  {
    to.0 - from.0 == to.1 - from.1 || to.0 - from.0 == -(to.1 - from.1)
  }

  predicate Aligned(from: Square, to: Square) {
    IsHorizontal(from, to) || IsVertical(from, to) || IsDiagonal(from, to)
  }

  predicate InBounds(loc: Square) {
    0 <= loc.0 && loc.0 < 8 && 0 <= loc.1 && loc.1 < 8
  }

  /** A direction whose rook-like or bishop-like class is defined. */
  predicate IsOrthogonal(d: Direction) {
    d.0 == Zero || d.1 == Zero
  }

  /** The 64 squares in the order of `iproduct!(0..8, 0..8)`: row by row, columns ascending. */
  function AllSquares(): (r: seq<Square>)
    ensures |r| == 64
    ensures forall i :: 0 <= i < 64 ==> r[i] == (i / 8, i % 8)
  {
    seq(64, i requires 0 <= i < 64 => (i / 8, i % 8))
  }

  /** The row-major position of an on-board square. */
  function SquareIndex(s: Square): (i: nat)
    requires InBounds(s)
    ensures i < 64 && AllSquares()[i] == s
  {
    s.0 * 8 + s.1
  }

  /** The squares on the board are exactly the 64 squares `iproduct!(0..8, 0..8)` enumerates. */
  lemma AllSquaresAreInBounds(s: Square)
    ensures s in AllSquares() <==> InBounds(s)
  {
    if InBounds(s) {
      var i := SquareIndex(s);
      assert AllSquares()[i] == s;
    }
  }

  // ---------------------------------------------------------------------
  // Rust ranges and iterator adaptors, as sequences

  /** The half-open range `lo..hi`. */
  function Range(lo: int, hi: int): (r: seq<int>)
    ensures |r| == if lo < hi then hi - lo else 0
    ensures forall i :: 0 <= i < |r| ==> r[i] == lo + i
  {
    if lo < hi then seq(hi - lo, i requires 0 <= i < hi - lo => lo + i) else []
  }

  /** `.rev()` */
  function Reverse<T>(s: seq<T>): (r: seq<T>)
    ensures |r| == |s|
    ensures forall i :: 0 <= i < |s| ==> r[i] == s[|s| - 1 - i]
  {
    seq(|s|, i requires 0 <= i < |s| => s[|s| - 1 - i])
  }

  /** `xs.zip(ys)`, as long as the shorter of the two. */
  function Zip(xs: seq<int>, ys: seq<int>): (r: seq<Square>)
    ensures |r| == if |xs| < |ys| then |xs| else |ys|
    ensures forall i :: 0 <= i < |r| ==> r[i] == (xs[i], ys[i])
  {
    var n := if |xs| < |ys| then |xs| else |ys|;
    seq(n, i requires 0 <= i < n => (xs[i], ys[i]))
  }

  /** `iter::repeat(x).zip(ys)` */
  function RepeatZip(x: int, ys: seq<int>): (r: seq<Square>)
    ensures |r| == |ys|
    ensures forall i :: 0 <= i < |r| ==> r[i] == (x, ys[i])
  {
    seq(|ys|, i requires 0 <= i < |ys| => (x, ys[i]))
  }

  /** `xs.zip(iter::repeat(y))` */
  function ZipRepeat(xs: seq<int>, y: int): (r: seq<Square>)
    ensures |r| == |xs|
    ensures forall i :: 0 <= i < |r| ==> r[i] == (xs[i], y)
  {
    seq(|xs|, i requires 0 <= i < |xs| => (xs[i], y))
  }

  /** The first `n` squares after `from` in direction `d`, nearest first. */
  function Segment(from: Square, d: Direction, n: nat): (r: seq<Square>)
    ensures |r| == n
    ensures forall k :: 0 <= k < n ==> r[k] == Step(from, d, k + 1)
  {
    seq(n, k requires 0 <= k < n => Step(from, d, k + 1))
  }

  // ---------------------------------------------------------------------
  // Directions and paths

  /**
   * `get_direction`: the direction from `from` to `to`, or None when the two
   * squares coincide or share no row, column or diagonal. `to` is then
   * reached from `from` by `Dist(from, to)` steps in the returned direction.
   */
  function GetDirection(from: Square, to: Square): (r: Option<Direction>)
    requires InBounds(from) && InBounds(to)
    ensures r.None? <==> from == to || !Aligned(from, to)
    ensures r.Some? ==> r.value != (Zero, Zero) && Step(from, r.value, Dist(from, to)) == to
  {
    if from != to && (IsHorizontal(from, to) || IsVertical(from, to) || IsDiagonal(from, to)) then
      Some((SignOf(to.0 - from.0), SignOf(to.1 - from.1)))
    else
      None
  }

  /** Every square between an on-board square and an on-board square `n` steps away is on the board. */
  lemma StepInBounds(a: Square, d: Direction, n: int, k: int)
    requires InBounds(a) && InBounds(Step(a, d, n)) && 0 <= k <= n
    ensures InBounds(Step(a, d, k))
  {
  }

  lemma StepAdd(a: Square, d: Direction, x: int, y: int)
    ensures Step(Step(a, d, x), d, y) == Step(a, d, x + y)
  {
  }

  /** Walking `k >= 1` steps in `d` and asking for the direction back gives `d` and distance `k`. */
  lemma StepDirection(a: Square, d: Direction, k: int)
    requires InBounds(a) && d != (Zero, Zero) && k >= 1 && InBounds(Step(a, d, k))
    ensures GetDirection(a, Step(a, d, k)) == Some(d)
    ensures Dist(a, Step(a, d, k)) == k
  {
    var b := Step(a, d, k);
    assert Dist(a, b) == k;
    assert Aligned(a, b);
    var e := GetDirection(a, b).value;
    assert Offset(e.0, k) == Offset(d.0, k) && Offset(e.1, k) == Offset(d.1, k);
  }

  /** The squares strictly between `from` and `to` on their common line. */
  ghost predicate Between(from: Square, to: Square, q: Square)
    requires InBounds(from) && InBounds(to)
  {
    InBounds(q) && GetDirection(from, q).Some? && GetDirection(from, q) == GetDirection(from, to)
    && Dist(from, q) < Dist(from, to)
  }

  /** The coordinates `a + Offset(s, k)` for k = 1 .. n along one axis. */
  function AxisSteps(s: Sign, a: int, n: nat): (r: seq<int>)
    ensures |r| == n
    ensures forall k :: 0 <= k < n ==> r[k] == a + Offset(s, k + 1)
  {
    seq(n, k requires 0 <= k < n => a + Offset(s, k + 1))
  }

  lemma RangeUp(a: int, hi: int)
    ensures Range(a + 1, hi) == AxisSteps(Increasing, a, if a + 1 < hi then hi - a - 1 else 0)
  {
  }

  lemma RangeDown(lo: int, a: int)
    ensures Reverse(Range(lo + 1, a)) == AxisSteps(Decreasing, a, if lo + 1 < a then a - lo - 1 else 0)
  {
  }

  lemma ZipAxes(a: Square, d: Direction, n0: nat, n1: nat)
    ensures Zip(AxisSteps(d.0, a.0, n0), AxisSteps(d.1, a.1, n1)) == Segment(a, d, if n0 < n1 then n0 else n1)
  {
  }

  lemma RepeatZipAxis(a: Square, s: Sign, n: nat)
    ensures RepeatZip(a.0, AxisSteps(s, a.1, n)) == Segment(a, (Zero, s), n)
  {
  }

  lemma ZipRepeatAxis(a: Square, s: Sign, n: nat)
    ensures ZipRepeat(AxisSteps(s, a.0, n), a.1) == Segment(a, (s, Zero), n)
  {
  }

  lemma RepeatZipReverse(x: int, ys: seq<int>)
    ensures RepeatZip(x, Reverse(ys)) == Reverse(RepeatZip(x, ys))
  {
  }

  lemma ZipRepeatReverse(xs: seq<int>, y: int)
    ensures ZipRepeat(Reverse(xs), y) == Reverse(ZipRepeat(xs, y))
  {
  }

  lemma ReverseReverse<T>(s: seq<T>)
    ensures Reverse(Reverse(s)) == s
  {
  }

  /** The arms of `get_path` that list their squares from `to` towards `from`. */
  predicate ListsBackwards(d: Direction) {
    d == (Zero, Decreasing) || d == (Decreasing, Zero)
  }

  /**
   * `get_path`: the squares strictly between `from` and `to`, or None when
   * they are not on one line (`GetPathSegment` says what the squares are).
   */
  function GetPath(from: Square, to: Square): Option<seq<Square>>
    requires InBounds(from) && InBounds(to)
  {
    match GetDirection(from, to)
    case None => None
    case Some((Zero, Zero)) => None
    case Some((Zero, Increasing)) => Some(RepeatZip(from.0, Range(from.1 + 1, to.1)))
    case Some((Zero, Decreasing)) => Some(RepeatZip(from.0, Range(to.1 + 1, from.1)))
    case Some((Increasing, Zero)) => Some(ZipRepeat(Range(from.0 + 1, to.0), from.1))
    case Some((Decreasing, Zero)) => Some(ZipRepeat(Range(to.0 + 1, from.0), from.1))
    case Some((Increasing, Increasing)) => Some(Zip(Range(from.0 + 1, to.0), Range(from.1 + 1, to.1)))
    case Some((Increasing, Decreasing)) => Some(Zip(Range(from.0 + 1, to.0), Reverse(Range(to.1 + 1, from.1))))
    case Some((Decreasing, Increasing)) => Some(Zip(Reverse(Range(to.0 + 1, from.0)), Range(from.1 + 1, to.1)))
    case Some((Decreasing, Decreasing)) => Some(Zip(Reverse(Range(to.0 + 1, from.0)), Reverse(Range(to.1 + 1, from.1))))
  }

  /** What `get_path` should list for the pair: the segment, reversed on the two backward arms. */
  function ExpectedPath(from: Square, to: Square, d: Direction): seq<Square> {
    var s := Segment(from, d, if Dist(from, to) > 0 then Dist(from, to) - 1 else 0);
    if ListsBackwards(d) then Reverse(s) else s
  }

  lemma PathZeroIncreasing(from: Square, to: Square)
    requires InBounds(from) && InBounds(to) && GetDirection(from, to) == Some((Zero, Increasing))
    ensures GetPath(from, to) == Some(ExpectedPath(from, to, (Zero, Increasing)))
  {
    RangeUp(from.1, to.1);
    RepeatZipAxis(from, Increasing, Dist(from, to) - 1);
  }

  lemma PathZeroDecreasing(from: Square, to: Square)
    requires InBounds(from) && InBounds(to) && GetDirection(from, to) == Some((Zero, Decreasing))
    ensures GetPath(from, to) == Some(ExpectedPath(from, to, (Zero, Decreasing)))
  {
    var cols := Range(to.1 + 1, from.1);
    RangeDown(to.1, from.1);
    RepeatZipAxis(from, Decreasing, Dist(from, to) - 1);
    ReverseReverse(cols);
    RepeatZipReverse(from.0, Reverse(cols));
  }

  lemma PathIncreasingZero(from: Square, to: Square)
    requires InBounds(from) && InBounds(to) && GetDirection(from, to) == Some((Increasing, Zero))
    ensures GetPath(from, to) == Some(ExpectedPath(from, to, (Increasing, Zero)))
  {
    RangeUp(from.0, to.0);
    ZipRepeatAxis(from, Increasing, Dist(from, to) - 1);
  }

  lemma PathDecreasingZero(from: Square, to: Square)
    requires InBounds(from) && InBounds(to) && GetDirection(from, to) == Some((Decreasing, Zero))
    ensures GetPath(from, to) == Some(ExpectedPath(from, to, (Decreasing, Zero)))
  {
    var rows := Range(to.0 + 1, from.0);
    RangeDown(to.0, from.0);
    ZipRepeatAxis(from, Decreasing, Dist(from, to) - 1);
    ReverseReverse(rows);
    ZipRepeatReverse(Reverse(rows), from.1);
  }

  lemma PathDiagonal(from: Square, to: Square, d: Direction)
    requires InBounds(from) && InBounds(to) && GetDirection(from, to) == Some(d) && !IsOrthogonal(d)
    ensures GetPath(from, to) == Some(ExpectedPath(from, to, d))
  {
    var n := Dist(from, to) - 1;
    RangeUp(from.0, to.0); RangeUp(from.1, to.1);
    RangeDown(to.0, from.0); RangeDown(to.1, from.1);
    ZipAxes(from, d, n, n);
  }

  /**
   * `get_path` is Some exactly when `get_direction` is; it then holds the
   * distance minus one squares after `from` towards `to`, nearest first,
   * except on the two arms towards decreasing rows or columns along a rank
   * or file, which list the same squares in ascending order.
   */
  lemma GetPathSegment(from: Square, to: Square)
    requires InBounds(from) && InBounds(to)
    ensures GetPath(from, to).Some? <==> GetDirection(from, to).Some?
    ensures GetPath(from, to).Some? ==>
      |GetPath(from, to).value| == Dist(from, to) - 1
      && GetPath(from, to).value == ExpectedPath(from, to, GetDirection(from, to).value)
  {
    match GetDirection(from, to)
    case None =>
    case Some(d) =>
      if d == (Zero, Increasing) {
        PathZeroIncreasing(from, to);
      } else if d == (Zero, Decreasing) {
        PathZeroDecreasing(from, to);
      } else if d == (Increasing, Zero) {
        PathIncreasingZero(from, to);
      } else if d == (Decreasing, Zero) {
        PathDecreasingZero(from, to);
      } else {
        PathDiagonal(from, to, d);
      }
  }

  /** The squares of `get_path` are exactly the squares strictly between the endpoints. */
  lemma PathMembers(from: Square, to: Square, q: Square)
    requires InBounds(from) && InBounds(to) && GetPath(from, to).Some?
    ensures q in GetPath(from, to).value <==> Between(from, to, q)
  {
    GetPathSegment(from, to);
    var d := GetDirection(from, to).value;
    var n := Dist(from, to);
    var s := Segment(from, d, n - 1);
    assert q in GetPath(from, to).value <==> q in s by {
      if ListsBackwards(d) {
        ReverseMembers(s, q);
      }
    }
    if q in s {
      var k :| 0 <= k < n - 1 && s[k] == q;
      StepInBounds(from, d, n, k + 1);
      StepDirection(from, d, k + 1);
    }
    if Between(from, to, q) {
      var m := Dist(from, q);
      assert q == Step(from, d, m);
      assert s[m - 1] == q;
    }
  }

  lemma ReverseMembers<T>(s: seq<T>, x: T)
    ensures x in Reverse(s) <==> x in s
  {
    if x in s {
      var i :| 0 <= i < |s| && s[i] == x;
      assert Reverse(s)[|s| - 1 - i] == x;
    }
  }

  /**
   * `get_directed_path`: the ray from `start` towards the edge in direction
   * `d` (`DirectedPathRay` says which squares it holds).
   */
  function GetDirectedPath(start: Square, d: Direction): seq<Square>
    requires d != (Zero, Zero)
  {
    match d
    case (Increasing, Zero) => ZipRepeat(Range(start.0 + 1, 8), start.1)
    case (Decreasing, Zero) => ZipRepeat(Reverse(Range(0, start.0)), start.1)
    case (Zero, Increasing) => RepeatZip(start.0, Range(start.1 + 1, 8))
    case (Zero, Decreasing) => RepeatZip(start.0, Reverse(Range(0, start.1)))
    case (Increasing, Increasing) => Zip(Range(start.0 + 1, 8), Range(start.1 + 1, 8))
    case (Increasing, Decreasing) => Zip(Range(start.0 + 1, 8), Reverse(Range(0, start.1)))
    case (Decreasing, Increasing) => Zip(Reverse(Range(0, start.0)), Range(start.1 + 1, 8))
    case (Decreasing, Decreasing) => Zip(Reverse(Range(0, start.0)), Reverse(Range(0, start.1)))
  }

  /** How many squares lie beyond coordinate `a` before the edge, travelling in direction `s` (not Zero). */
  function Room(s: Sign, a: int): nat {
    match s
    case Increasing => if a + 1 < 8 then 7 - a else 0
    case Decreasing => if 0 < a then a else 0
    case Zero => 8
  }

  function Min(a: int, b: int): int { if a < b then a else b }

  lemma RayRoom(a: int, s: Sign)
    requires s != Zero
    ensures s == Increasing ==> Range(a + 1, 8) == AxisSteps(s, a, Room(s, a))
    ensures s == Decreasing ==> Reverse(Range(0, a)) == AxisSteps(s, a, Room(s, a))
  {
    RangeUp(a, 8);
    RangeDown(-1, a);
  }

  lemma RayAlongColumn(start: Square, s: Sign)
    requires s != Zero
    ensures GetDirectedPath(start, (s, Zero)) == Segment(start, (s, Zero), Room(s, start.0))
  {
    RayRoom(start.0, s);
    ZipRepeatAxis(start, s, Room(s, start.0));
  }

  lemma RayAlongRow(start: Square, s: Sign)
    requires s != Zero
    ensures GetDirectedPath(start, (Zero, s)) == Segment(start, (Zero, s), Room(s, start.1))
  {
    RayRoom(start.1, s);
    RepeatZipAxis(start, s, Room(s, start.1));
  }

  lemma RayDiagonal(start: Square, d: Direction)
    requires d.0 != Zero && d.1 != Zero
    ensures GetDirectedPath(start, d) == Segment(start, d, Min(Room(d.0, start.0), Room(d.1, start.1)))
  {
    RayRoom(start.0, d.0);
    RayRoom(start.1, d.1);
    ZipAxes(start, d, Room(d.0, start.0), Room(d.1, start.1));
  }

  /** Along one axis, the `Room` steps from an on-board coordinate stay on the board and the next leaves it. */
  lemma RoomBounds(s: Sign, a: int, k: int)
    requires 0 <= a < 8 && s != Zero && 1 <= k
    ensures 0 <= a + Offset(s, k) < 8 <==> k <= Room(s, a)
  {
  }

  /**
   * The squares of `get_directed_path` are `start + k * d` for k = 1, 2, ...,
   * nearest first; from an on-board start they are all on the board and the
   * next step would leave it, so the ray is empty when `start` is already on
   * that edge.
   */
  lemma DirectedPathRay(start: Square, d: Direction)
    requires d != (Zero, Zero)
    ensures GetDirectedPath(start, d) == Segment(start, d, |GetDirectedPath(start, d)|)
    ensures InBounds(start) ==>
      var r := GetDirectedPath(start, d);
      (forall k :: 0 <= k < |r| ==> InBounds(r[k])) && !InBounds(Step(start, d, |r| + 1))
  {
    var r := GetDirectedPath(start, d);
    if d.1 == Zero {
      RayAlongColumn(start, d.0);
    } else if d.0 == Zero {
      RayAlongRow(start, d.1);
    } else {
      RayDiagonal(start, d);
    }
    if InBounds(start) {
      forall k | 0 <= k < |r| ensures InBounds(r[k]) {
        if d.0 != Zero { RoomBounds(d.0, start.0, k + 1); }
        if d.1 != Zero { RoomBounds(d.1, start.1, k + 1); }
      }
      if d.0 != Zero { RoomBounds(d.0, start.0, |r| + 1); }
      if d.1 != Zero { RoomBounds(d.1, start.1, |r| + 1); }
    }
  }

  /** The direction to a square of a ray from an on-board start is the ray's own direction. */
  lemma RayDirection(start: Square, d: Direction, k: nat)
    requires InBounds(start) && d != (Zero, Zero) && k < |GetDirectedPath(start, d)|
    ensures GetDirectedPath(start, d)[k] == Step(start, d, k + 1)
    ensures InBounds(Step(start, d, k + 1))
    ensures GetDirection(start, Step(start, d, k + 1)) == Some(d)
    ensures Dist(start, Step(start, d, k + 1)) == k + 1
  {
    DirectedPathRay(start, d);
    StepDirection(start, d, k + 1);
  }

  /** An on-board square in direction `d` from `start` lies on the ray at index distance - 1. */
  lemma OnRay(start: Square, d: Direction, q: Square)
    requires InBounds(start) && InBounds(q) && GetDirection(start, q) == Some(d)
    ensures Dist(start, q) - 1 < |GetDirectedPath(start, d)|
    ensures GetDirectedPath(start, d)[Dist(start, q) - 1] == q
  {
    var r := GetDirectedPath(start, d);
    DirectedPathRay(start, d);
    var n := Dist(start, q);
    if n > |r| {
      StepInBounds(start, d, n, |r| + 1);
    }
  }
}

/** The cases of path.rs's tests, as facts about the model. */
module GeometryExamples {
  import opened Geometry

  lemma NotDiagonalExamples()
    ensures !IsDiagonal((2, 7), (0, 6)) && !IsDiagonal((1, 7), (4, 6))
    ensures !IsDiagonal((7, 3), (1, 1)) && !IsDiagonal((2, 7), (6, 7))
  {
  }

  lemma DirectedPathExamples()
    ensures GetDirectedPath((4, 4), (Increasing, Zero))[2] == (7, 4) && |GetDirectedPath((4, 4), (Increasing, Zero))| == 3
    ensures GetDirectedPath((4, 4), (Decreasing, Zero))[3] == (0, 4) && |GetDirectedPath((4, 4), (Decreasing, Zero))| == 4
    ensures GetDirectedPath((4, 4), (Zero, Increasing))[2] == (4, 7) && |GetDirectedPath((4, 4), (Zero, Increasing))| == 3
    ensures GetDirectedPath((4, 4), (Zero, Decreasing))[3] == (4, 0) && |GetDirectedPath((4, 4), (Zero, Decreasing))| == 4
    ensures GetDirectedPath((4, 4), (Increasing, Increasing))[2] == (7, 7) && |GetDirectedPath((4, 4), (Increasing, Increasing))| == 3
    ensures GetDirectedPath((4, 4), (Decreasing, Decreasing))[3] == (0, 0) && |GetDirectedPath((4, 4), (Decreasing, Decreasing))| == 4
    ensures GetDirectedPath((4, 4), (Increasing, Decreasing))[2] == (7, 1) && |GetDirectedPath((4, 4), (Increasing, Decreasing))| == 3
    ensures GetDirectedPath((4, 4), (Decreasing, Increasing))[2] == (1, 7) && |GetDirectedPath((4, 4), (Decreasing, Increasing))| == 3
    ensures GetDirectedPath((7, 4), (Increasing, Zero)) == []
    ensures GetDirectedPath((7, 7), (Increasing, Increasing)) == []
    ensures GetDirectedPath((0, 0), (Decreasing, Decreasing)) == []
  {
  }
}
