/** The Bresenham segment: where it ends, how many pixels it paints, and how far they lie from the ideal line. */
module Plot {
  datatype Pixel = Pixel(x: int, y: int)

  function Abs(v: int): nat { if v < 0 then -v else v }

  function Max(a: int, b: int): int { if a < b then b else a }

  /** The steps from p to q are at most one pixel along each axis, not both zero, and go the way of the signs. */
  predicate Neighbours(p: Pixel, q: Pixel, sx: int, sy: int) {
    && p != q && (q.x == p.x || q.x == p.x + sx) && (q.y == p.y || q.y == p.y + sy)
  }

  /** How far the ideal line is after i steps along x and j along y, in units of 1/Max(a, b) pixels. */
  function Offset(a: int, b: int, i: int, j: int): int { a * j - b * i }

  /** At most half a pixel along the shorter axis; an exact half only ahead of the line, never behind. */
  predicate HalfPixel(a: int, b: int, d: int) {
    if a >= b then a == 0 || -a < 2 * d <= a else -b <= 2 * d < b
  }

  /** The pixel nearest to the ideal line along the shorter axis, an exact half being rounded up. */
  predicate NearLine(p: Pixel, x0: int, y0: int, a: int, b: int) {
    HalfPixel(a, b, Offset(a, b, Abs(p.x - x0), Abs(p.y - y0)))
  }

  lemma {:induction false} OffsetMoves(a: int, b: int, i: int, j: int)
    ensures Offset(a, b, 0, 0) == 0
    ensures Offset(a, b, i + 1, j) == Offset(a, b, i, j) - b
    ensures Offset(a, b, i, j + 1) == Offset(a, b, i, j) + a
    ensures Offset(a, b, i + 1, j + 1) == Offset(a, b, i, j) + a - b
  {
  }

  /** The longer axis steps every time, and the tests on twice the error keep the offset within half a pixel. */
  lemma {:induction false} TestsKeepNear(a: int, b: int, d: int)
    requires a >= 0 && b >= 0 && HalfPixel(a, b, d) && (a == b == 0 ==> d == 0)
    ensures var e2 := 2 * (a - b + d);
      && (a >= b ==> e2 >= -b) && (a <= b ==> e2 <= a)
      && HalfPixel(a, b, d - (if e2 >= -b then b else 0) + (if e2 <= a then a else 0))
  {
  }

  lemma {:induction false} AtLeastOnce(a: int, m: int)
    requires a >= 0
    ensures m >= 1 ==> a * m >= a
    ensures m <= -1 ==> a * m <= -a
  {
  }

  /** At the far end of the longer axis, half a pixel leaves no room along the other. */
  lemma {:induction false} EndsX(a: nat, b: nat, j: int)
    requires a > 0 && 2 * Abs(Offset(a, b, a, j)) <= a
    ensures j == b
  {
    assert Offset(a, b, a, j) == a * (j - b);
    AtLeastOnce(a, j - b);
  }

  lemma {:induction false} EndsY(a: nat, b: nat, i: int)
    requires b > 0 && 2 * Abs(Offset(a, b, i, b)) <= b
    ensures i == a
  {
    assert Offset(a, b, i, b) == b * (a - i);
    AtLeastOnce(b, a - i);
  }

  /** Each pixel is next to the one before, the way of the signs, and none is over half a pixel off the line. */
  ghost predicate Trace(ps: seq<Pixel>, x0: int, y0: int, a: int, b: int, sx: int, sy: int) {
    && (forall n | 0 < n < |ps| :: Neighbours(ps[n - 1], ps[n], sx, sy))
    && (forall n | 0 <= n < |ps| :: NearLine(ps[n], x0, y0, a, b))
  }

  lemma {:induction false} TraceGrows(ps: seq<Pixel>, p: Pixel, x0: int, y0: int, a: int, b: int, sx: int, sy: int)
    requires Trace(ps, x0, y0, a, b, sx, sy) && NearLine(p, x0, y0, a, b)
    requires ps != [] ==> Neighbours(ps[|ps| - 1], p, sx, sy)
    ensures Trace(ps + [p], x0, y0, a, b, sx, sy)
  {
    hide NearLine, Neighbours;
  }

  /** k steps from u towards v. */
  function Toward(u: int, v: int, k: int): int { if u > v then u - k else u + k }

  function Sign(u: int, v: int): int { if u > v then -1 else 1 }

  /**
   For all endpoints the loop ends: it paints one pixel for each step along the longer axis and one more,
   from the first endpoint to the second, each next to the last and none over half a pixel off the line.
   */
  method Line(x0: int, y0: int, x1: int, y1: int) returns (painted: seq<Pixel>)
    ensures |painted| == Max(Abs(x1 - x0), Abs(y1 - y0)) + 1
    ensures painted[0] == Pixel(x0, y0) && painted[|painted| - 1] == Pixel(x1, y1)
    ensures Trace(painted, x0, y0, Abs(x1 - x0), Abs(y1 - y0), Sign(x0, x1), Sign(y0, y1))
  {
    hide Offset, Trace;
    var a, b := Abs(x1 - x0), Abs(y1 - y0);
    var sx, sy := Sign(x0, x1), Sign(y0, y1);
    var x, y, e := x0, y0, a - b;
    painted := [];
    ghost var i, j := 0, 0;
    OffsetMoves(a, b, 0, 0);
    NoTrace(x0, y0, a, b, sx, sy);
    while true
      invariant 0 <= i && 0 <= j && |painted| == (if a >= b then i else j) <= Max(a, b)
      invariant x == Toward(x0, x1, i) && y == Toward(y0, y1, j)
      invariant e == a - b + Offset(a, b, i, j) && HalfPixel(a, b, Offset(a, b, i, j))
      invariant if painted == [] then x == x0 && y == y0
                else painted[0] == Pixel(x0, y0) && Neighbours(painted[|painted| - 1], Pixel(x, y), sx, sy)
      invariant Trace(painted, x0, y0, a, b, sx, sy)
      decreases Max(a, b) - |painted|
    {
      Near(x0, y0, x1, y1, i, j);
      TraceGrows(painted, Pixel(x, y), x0, y0, a, b, sx, sy);
      painted := painted + [Pixel(x, y)];
      if x == x1 && y == y1 { return; }
      NotPastEnd(a, b, i, j);
      OffsetMoves(a, b, i, j);
      TestsKeepNear(a, b, Offset(a, b, i, j));
      var e2 := 2 * e;
      if e2 >= -b {
        e := e - b;
        x := x + sx;
        i := i + 1;
      }
      if e2 <= a {
        e := e + a;
        y := y + sy;
        j := j + 1;
      }
    }
  }

  lemma {:induction false} NoTrace(x0: int, y0: int, a: int, b: int, sx: int, sy: int)
    ensures Trace([], x0, y0, a, b, sx, sy)
  {
  }

  lemma {:induction false} Near(x0: int, y0: int, x1: int, y1: int, i: nat, j: nat)
    requires HalfPixel(Abs(x1 - x0), Abs(y1 - y0), Offset(Abs(x1 - x0), Abs(y1 - y0), i, j))
    ensures NearLine(Pixel(Toward(x0, x1, i), Toward(y0, y1, j)), x0, y0, Abs(x1 - x0), Abs(y1 - y0))
  {
    hide Offset;
    assert Abs(Toward(x0, x1, i) - x0) == i && Abs(Toward(y0, y1, j) - y0) == j;
  }

  /** At the end of the longer axis the second endpoint has been reached. */
  lemma {:induction false} NotPastEnd(a: nat, b: nat, i: nat, j: nat)
    requires HalfPixel(a, b, Offset(a, b, i, j))
    ensures a >= b && i == a ==> j == b || a == 0
    ensures b > a && j == b ==> i == a
  {
    hide Offset;
    if a >= b && i == a && a > 0 { EndsX(a, b, j); }
    if b > a && j == b { EndsY(a, b, i); }
  }
}
