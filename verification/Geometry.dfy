/** Points, boxes and the real arithmetic behind the drawing algorithms. */
module Geometry {
  datatype Pt = Pt(x: real, y: real)

  /** Pixel bounds, smallest corner first. */
  datatype Bounds = Bounds(min: Pt, max: Pt)

  predicate Proper(b: Bounds) {
    b.min.x <= b.max.x && b.min.y <= b.max.y
  }

  predicate Inside(p: Pt, b: Bounds) {
    b.min.x <= p.x <= b.max.x && b.min.y <= p.y <= b.max.y
  }

  function Lerp(c: real, d: real, t: real): real {
    c + t * (d - c)
  }

  /** The point at parameter `t` of the segment from `a` to `b`. */
  function At(a: Pt, b: Pt, t: real): Pt {
    Pt(Lerp(a.x, b.x, t), Lerp(a.y, b.y, t))
  }

  lemma MulSign(x: real, y: real)
    ensures x >= 0.0 && y >= 0.0 ==> x * y >= 0.0
    ensures x >= 0.0 && y <= 0.0 ==> x * y <= 0.0
    ensures x > 0.0 && y > 0.0 ==> x * y > 0.0
    ensures x > 0.0 && y < 0.0 ==> x * y < 0.0
    ensures x * y == y * x && (-x) * y == -(x * y)
  {
  }

  lemma LerpEnds(c: real, d: real)
    ensures Lerp(c, d, 0.0) == c && Lerp(c, d, 1.0) == d
  {
  }

  lemma LerpDifference(c: real, d: real, s: real, t: real)
    ensures Lerp(c, d, t) - Lerp(c, d, s) == (t - s) * (d - c)
  {
  }

  /** A segment of a segment. */
  lemma LerpLerp(c: real, d: real, s: real, t: real, l: real)
    ensures Lerp(Lerp(c, d, s), Lerp(c, d, t), l) == Lerp(c, d, Lerp(s, t, l))
  {
    var k := d - c;
    LerpDifference(c, d, s, t);
    assert l * ((t - s) * k) == (l * (t - s)) * k;
    assert (s + l * (t - s)) * k == s * k + (l * (t - s)) * k;
  }

  /** Between two parameters a coordinate stays between its values there. */
  lemma LerpBetween(c: real, d: real, s: real, r: real, t: real)
    requires s <= r <= t
    ensures Lerp(c, d, s) <= Lerp(c, d, r) <= Lerp(c, d, t) || Lerp(c, d, s) >= Lerp(c, d, r) >= Lerp(c, d, t)
  {
    LerpDifference(c, d, s, r);
    LerpDifference(c, d, r, t);
    MulSign(r - s, d - c);
    MulSign(t - r, d - c);
  }

  /** Where a coordinate crosses `m` on its way from `c` to `d`. */
  function Crossing(c: real, d: real, m: real): real
    requires c != d
  {
    (m - c) / (d - c)
  }

  lemma CrossingIs(c: real, d: real, m: real)
    requires c <= m <= d || c >= m >= d
    requires c != d
    ensures 0.0 <= Crossing(c, d, m) <= 1.0
    ensures Lerp(c, d, Crossing(c, d, m)) == m
  {
    QuotientIs(m - c, d - c);
    QuotientIn(m - c, d - c);
  }

  lemma QuotientIs(n: real, d: real)
    requires d != 0.0
    ensures n / d * d == n
  {
  }

  lemma QuotientIn(n: real, d: real)
    requires (0.0 <= n <= d && d > 0.0) || (0.0 >= n >= d && d < 0.0)
    ensures 0.0 <= n / d <= 1.0
  {
    var l := n / d;
    QuotientIs(n, d);
    MulSign(-l, d);
    MulSign(-l, -d);
    MulSign(l - 1.0, d);
    MulSign(l - 1.0, -d);
    assert (l - 1.0) * d == l * d - d;
    assert (-l) * d == -(l * d) && (-l) * (-d) == l * d && (l - 1.0) * (-d) == -((l - 1.0) * d);
  }

  lemma MulDiv(x: real, n: real, d: real)
    requires d != 0.0
    ensures x * n / d == (n / d) * x
  {
    QuotientIs(n, d);
    assert ((n / d) * x) * d == ((n / d) * d) * x;
    assert ((n / d) * x) * d == x * n;
  }

  /** A coordinate that is on one side of `m` before it reaches `m` at `e` is on that side at all
      parameters before `e`; likewise after. */
  lemma OneSided(c: real, d: real, e: real, m: real, s: real, t: real)
    requires Lerp(c, d, e) == m && ((s <= e && t < e) || (s >= e && t > e))
    ensures Lerp(c, d, s) > m ==> Lerp(c, d, t) > m
    ensures Lerp(c, d, s) < m ==> Lerp(c, d, t) < m
  {
    LerpDifference(c, d, e, s);
    LerpDifference(c, d, e, t);
    MulSign(e - s, d - c);
    MulSign(s - e, d - c);
    MulSign(e - t, d - c);
    MulSign(t - e, d - c);
  }
}
