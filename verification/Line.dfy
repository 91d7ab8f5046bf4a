// Where Bresenham's algorithm puts its points: the arithmetic of gfx_draw_line.
module Line {

  // The minor-axis offset after k of `major` major-axis steps: the exact line's offset
  // minor * k / major, rounded to the nearest integer, halves upwards.
  function Offset(minor: nat, k: nat, major: nat): (r: nat)
    requires k <= major
  {
    if major == 0 then 0 else (2 * (minor * k) + major) / (2 * major)
  }

  // Half a pixel is as far as a point gets from the exact line.
  lemma HalfPixel(minor: nat, k: nat, major: nat)
    requires k <= major
    ensures 2 * Abs(major * Offset(minor, k, major) - minor * k) <= major
  {
    if major > 0 {
      var n, d := 2 * (minor * k) + major, 2 * major;
      DivBounds(n, d);
      assert d * (n / d) == 2 * (major * (n / d)) by { MulTwo(major, n / d); }
    } else {
      assert minor * k == 0;
    }
  }

  lemma DivBounds(n: nat, d: nat)
    requires d > 0
    ensures d * (n / d) <= n < d * (n / d) + d
  {
  }

  lemma MulTwo(a: nat, b: nat)
    ensures (2 * a) * b == 2 * (a * b)
  {
  }

  // The offset is characterised by the rounding interval.
  lemma OffsetIs(minor: nat, k: nat, major: nat, j: nat)
    requires 0 < major && k <= major
    requires 0 < 2 * (major * j - minor * k) + major <= 2 * major
    ensures Offset(minor, k, major) == j
  {
    var n, d := 2 * (minor * k) + major, 2 * major;
    var q := n / d;
    DivBounds(n, d);
    MulTwo(major, q);
    MulTwo(major, j);
    if q < j { MulStep(d, q, j); }
    if j < q { MulStep(d, j, q); }
  }

  lemma MulStep(d: nat, a: nat, b: nat)
    requires a < b
    ensures d * a + d <= d * b
  {
    assert d * (a + 1) <= d * b;
  }

  // The first and the last point are the end points.
  lemma EndPoints(minor: nat, major: nat)
    requires minor <= major
    ensures Offset(minor, 0, major) == 0 && Offset(minor, major, major) == minor
  {
    if major > 0 {
      assert minor * 0 == 0 && major * 0 == 0;
      OffsetIs(minor, 0, major, 0);
      MulSwap(minor, major);
      OffsetIs(minor, major, major, minor);
    }
  }

  lemma MulMono(a: nat, b: nat, c: nat)
    requires b <= c
    ensures a * b <= a * c
  {
  }

  lemma MulSwap(a: nat, b: nat)
    ensures a * b == b * a
  {
  }

  // The points never leave the box spanned by the end points.
  lemma OffsetInside(minor: nat, k: nat, major: nat)
    requires minor <= major && k <= major
    ensures Offset(minor, k, major) <= minor
  {
    if major > 0 {
      hide Offset;
      HalfPixel(minor, k, major);
      var j := Offset(minor, k, major);
      MulMono(minor, k, major);
      MulSwap(minor, major);
      if j > minor { MulStep(major, minor, j); }
    }
  }

  // One step: from the running value d = major * j - minor * k the algorithm decides whether the minor
  // coordinate moves.  `ties` tells where an exact half goes.
  lemma NextOffset(minor: nat, k: nat, major: nat, j: nat)
    requires minor <= major && k < major && j == Offset(minor, k, major)
    ensures var e := 2 * (major * j - minor * k) + 2 * major - 2 * minor;
            Offset(minor, k + 1, major) == if e <= major then j + 1 else j
  {
    var d := major * j - minor * k;
    HalfPixelStrict(minor, k, major);
    MulNext(minor, k);
    MulNext(major, j);
    if 2 * d + 2 * major - 2 * minor <= major {
      if minor == major {
        DiagonalOffset(major, k);
        MulNext(major, k);
      }
      OffsetIs(minor, k + 1, major, j + 1);
    } else {
      OffsetIs(minor, k + 1, major, j);
    }
  }

  lemma MulNext(a: nat, b: nat)
    ensures a * (b + 1) == a * b + a
  {
  }

  lemma DiagonalOffset(major: nat, k: nat)
    requires k <= major
    ensures Offset(major, k, major) == k
  {
    if major > 0 { OffsetIs(major, k, major, k); }
  }

  lemma HalfPixelStrict(minor: nat, k: nat, major: nat)
    requires k <= major && major > 0
    ensures 0 < 2 * (major * Offset(minor, k, major) - minor * k) + major <= 2 * major
  {
    var n, d := 2 * (minor * k) + major, 2 * major;
    DivBounds(n, d);
    MulTwo(major, n / d);
  }

  // ---------- The line in the plane ----------

  function Abs(x: int): nat { if x < 0 then -x else x }

  function Sign(from: int, to: int): int { if from < to then 1 else -1 }

  function Steps(x0: int, y0: int, x1: int, y1: int): nat {
    if Abs(x1 - x0) >= Abs(y1 - y0) then Abs(x1 - x0) else Abs(y1 - y0)
  }

  // The k-th point of the line from (x0, y0) to (x1, y1).
  function Point(x0: int, y0: int, x1: int, y1: int, k: nat): (int, int)
    requires k <= Steps(x0, y0, x1, y1)
  {
    var a, b := Abs(x1 - x0), Abs(y1 - y0);
    if a >= b then (x0 + Sign(x0, x1) * k, y0 + Sign(y0, y1) * Offset(b, k, a))
    else (x0 + Sign(x0, x1) * Offset(a, k, b), y0 + Sign(y0, y1) * k)
  }

  ghost predicate OnLine(x0: int, y0: int, x1: int, y1: int, n: nat, px: int, py: int) {
    exists k: nat :: k < n && k <= Steps(x0, y0, x1, y1) && (px, py) == Point(x0, y0, x1, y1, k)
  }

  // The line has Steps + 1 different points, from one end to the other.
  lemma PointsDiffer(x0: int, y0: int, x1: int, y1: int, k: nat, l: nat)
    requires k < l <= Steps(x0, y0, x1, y1)
    ensures Point(x0, y0, x1, y1, k) != Point(x0, y0, x1, y1, l)
  {
    hide Offset;
  }

  lemma LineEnds(x0: int, y0: int, x1: int, y1: int)
    ensures Point(x0, y0, x1, y1, 0) == (x0, y0)
    ensures Point(x0, y0, x1, y1, Steps(x0, y0, x1, y1)) == (x1, y1)
  {
    hide Offset;
    var a, b := Abs(x1 - x0), Abs(y1 - y0);
    if a >= b { EndPoints(b, a); } else { EndPoints(a, b); }
  }

  // Every point lies within half a pixel of the exact line: |dx * j - dy * i| is at most half
  // of max(|dx|, |dy|) for the offsets (i, j) of the point from (x0, y0).
  lemma WithinHalfPixel(x0: int, y0: int, x1: int, y1: int, k: nat)
    requires k <= Steps(x0, y0, x1, y1)
    ensures var p, dx, dy := Point(x0, y0, x1, y1, k), x1 - x0, y1 - y0;
            2 * Abs(dx * (p.1 - y0) - dy * (p.0 - x0)) <= Steps(x0, y0, x1, y1)
    ensures var p := Point(x0, y0, x1, y1, k);
            && (x0 <= p.0 <= x1 || x1 <= p.0 <= x0) && (y0 <= p.1 <= y1 || y1 <= p.1 <= y0)
  {
    hide Offset;
    var a, b, sx, sy := Abs(x1 - x0), Abs(y1 - y0), Sign(x0, x1), Sign(y0, y1);
    if a >= b {
      HalfPixel(b, k, a);
      OffsetInside(b, k, a);
      Signed(a, Offset(b, k, a), b, k, sx, sy, x1 - x0, y1 - y0);
    } else {
      HalfPixel(a, k, b);
      OffsetInside(a, k, b);
      Signed(a, k, b, Offset(a, k, b), sx, sy, x1 - x0, y1 - y0);
    }
  }

  lemma Signed(a: nat, j: nat, b: nat, i: nat, sx: int, sy: int, dx: int, dy: int)
    requires (sx == 1 || sx == -1) && (sy == 1 || sy == -1) && dx == sx * a && dy == sy * b
    ensures Abs(dx * (sy * j) - dy * (sx * i)) == Abs(a * j - b * i)
  {
    if sx == 1 && sy == 1 {
    } else if sx == 1 {
      NegMul(a, j);
      NegMul(b, i);
    } else if sy == 1 {
      NegMul(a, j);
      NegMul(b, i);
    } else {
      NegMul(a, j);
      NegMul(b, i);
    }
  }

  lemma NegMul(a: int, b: int)
    ensures (-a) * b == -(a * b) == a * (-b)
    ensures (-a) * (-b) == a * b
  {
  }
}
