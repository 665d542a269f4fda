/** Polyline simplification (frontend/lib/leaflet/1.6.0/leaflet.js: _e, ge), over reals. */
module Simplify {
  import opened Geometry

  function Sq(x: real): real {
    x * x
  }

  function SqDist(p: Pt, q: Pt): real {
    Sq(p.x - q.x) + Sq(p.y - q.y)
  }

  // ----- distance to a segment -----

  /** The squared length of a segment, and its product with the vector from `a` to `p`. */
  function SqLength(a: Pt, b: Pt): real {
    Sq(b.x - a.x) + Sq(b.y - a.y)
  }

  function Dot(p: Pt, a: Pt, b: Pt): real {
    Times(p.x - a.x, b.x - a.x) + Times(p.y - a.y, b.y - a.y)
  }

  function Times(x: real, y: real): real {
    x * y
  }

  /** The point of a segment nearest to `p`: the projection, or an end when that falls outside. */
  function Nearest(p: Pt, a: Pt, b: Pt): Pt {
    var u := SqLength(a, b);
    if u > 0.0 then
      var o := Dot(p, a, b) / u;
      if o > 1.0 then b else if o > 0.0 then Along(a, b, o) else a
    else a
  }

  function Along(a: Pt, b: Pt, o: real): Pt {
    Pt(a.x + (b.x - a.x) * o, a.y + (b.y - a.y) * o)
  }

  lemma AlongIsAt(a: Pt, b: Pt, o: real)
    ensures Along(a, b, o) == At(a, b, o)
  {
  }

  function SqSegDist(p: Pt, a: Pt, b: Pt): real {
    SqDist(p, Nearest(p, a, b))
  }

  lemma SelfProduct(x: real)
    ensures x > 0.0 ==> x * x > 0.0
    ensures x < 0.0 ==> x * x > 0.0
  {
  }

  lemma Square(x: real)
    ensures Sq(x) >= 0.0
    ensures x > 0.0 || x < 0.0 ==> Sq(x) > 0.0
  {
    if x > 0.0 || x < 0.0 {
      calc {
        Sq(x);
        x * x;
        > { SelfProduct(x); }
        0.0;
      }
    }
  }

  lemma NoSquares(x: real, y: real)
    requires Sq(x) + Sq(y) <= 0.0
    ensures x == 0.0 && y == 0.0
  {
    Square(x);
    Square(y);
  }

  function Parabola(c: real, dot: real, u: real, t: real): real {
    c - 2.0 * (t * dot) + t * t * u
  }

  lemma OneSquare(w: real, d: real, t: real)
    ensures Sq(w - t * d) == Parabola(Sq(w), Times(w, d), Sq(d), t)
  {
    assert (t * d) * (t * d) == t * t * (d * d);
    assert w * (t * d) == t * (w * d);
  }

  /** One coordinate of the distance from a point of the segment. */
  lemma OneAxis(p: real, a: real, b: real, t: real)
    ensures Sq(p - Lerp(a, b, t)) == Parabola(Sq(p - a), Times(p - a, b - a), Sq(b - a), t)
  {
    OneSquare(p - a, b - a, t);
    assert p - Lerp(a, b, t) == p - a - t * (b - a);
  }

  lemma AddUp(t: real, a: real, b: real, c: real, d: real, e: real, f: real)
    ensures Parabola(a, b, c, t) + Parabola(d, e, f, t) == Parabola(a + d, b + e, c + f, t)
  {
  }

  /** Along the segment the squared distance is a parabola. */
  lemma SqDistAt(p: Pt, a: Pt, b: Pt, t: real)
    ensures SqDist(p, At(a, b, t)) == Parabola(SqDist(p, a), Dot(p, a, b), SqLength(a, b), t)
  {
    OneAxis(p.x, a.x, b.x, t);
    OneAxis(p.y, a.y, b.y, t);
    AddUp(t, Sq(p.x - a.x), Times(p.x - a.x, b.x - a.x), Sq(b.x - a.x),
          Sq(p.y - a.y), Times(p.y - a.y, b.y - a.y), Sq(b.y - a.y));
  }

  /** A parabola is lowest nearest to its vertex. */
  lemma LowerNearVertex(c: real, dot: real, u: real, o: real, s: real, t: real)
    requires u >= 0.0 && o * u == dot && Sq(s - o) <= Sq(t - o)
    ensures Parabola(c, dot, u, s) <= Parabola(c, dot, u, t)
  {
    VertexForm(dot, u, o, s);
    VertexForm(dot, u, o, t);
    Scaled(Sq(s - o), Sq(t - o), u);
  }

  lemma Scaled(x: real, y: real, u: real)
    requires x <= y && u >= 0.0
    ensures x * u <= y * u
  {
    MulSign(y - x, u);
    assert (y - x) * u == y * u - x * u;
  }

  lemma VertexForm(dot: real, u: real, o: real, t: real)
    requires o * u == dot
    ensures t * t * u - 2.0 * t * dot == Sq(t - o) * u - o * o * u
  {
    assert Sq(t - o) == t * t - 2.0 * (t * o) + o * o;
    assert (t * t - 2.0 * (t * o) + o * o) * u == t * t * u - 2.0 * (t * o) * u + o * o * u;
    assert (t * o) * u == t * (o * u);
  }

  /** Where on the segment the nearest point is. */
  function NearestAt(p: Pt, a: Pt, b: Pt): real {
    var u := SqLength(a, b);
    if u > 0.0 then
      var o := Dot(p, a, b) / u;
      if o > 1.0 then 1.0 else if o > 0.0 then o else 0.0
    else 0.0
  }

  lemma NearestIsAt(p: Pt, a: Pt, b: Pt)
    ensures 0.0 <= NearestAt(p, a, b) <= 1.0 && Nearest(p, a, b) == At(a, b, NearestAt(p, a, b))
  {
    LerpEnds(a.x, b.x);
    LerpEnds(a.y, b.y);
    if SqLength(a, b) > 0.0 {
      AlongIsAt(a, b, Dot(p, a, b) / SqLength(a, b));
    }
  }

  lemma Flat(a: Pt, b: Pt)
    requires SqLength(a, b) <= 0.0
    ensures a == b
  {
    NoSquares(b.x - a.x, b.y - a.y);
  }

  lemma ProjectionIsLeast(p: Pt, a: Pt, b: Pt, o: real, s: real, t: real)
    requires SqLength(a, b) >= 0.0 && o * SqLength(a, b) == Dot(p, a, b) && Sq(s - o) <= Sq(t - o)
    ensures SqDist(p, At(a, b, s)) <= SqDist(p, At(a, b, t))
  {
    SqDistAt(p, a, b, s);
    SqDistAt(p, a, b, t);
    LowerNearVertex(SqDist(p, a), Dot(p, a, b), SqLength(a, b), o, s, t);
  }

  lemma ClampedIsLeast(p: Pt, a: Pt, b: Pt, o: real, s: real, t: real)
    requires SqLength(a, b) > 0.0 && o * SqLength(a, b) == Dot(p, a, b) && 0.0 <= t <= 1.0
    requires s == if o > 1.0 then 1.0 else if o > 0.0 then o else 0.0
    ensures SqDist(p, At(a, b, s)) <= SqDist(p, At(a, b, t))
  {
    Closer(o, s, t);
    ProjectionIsLeast(p, a, b, o, s, t);
  }

  /** The squared distance to a segment is attained on it and is no more than to any other of its
      points. */
  lemma {:induction false} SegDistIsLeast(p: Pt, a: Pt, b: Pt, t: real)
    requires 0.0 <= t <= 1.0
    ensures SqSegDist(p, a, b) == SqDist(p, At(a, b, NearestAt(p, a, b)))
    ensures SqSegDist(p, a, b) <= SqDist(p, At(a, b, t))
  {
    NearestIsAt(p, a, b);
    if SqLength(a, b) > 0.0 {
      var o := Dot(p, a, b) / SqLength(a, b);
      QuotientIs(Dot(p, a, b), SqLength(a, b));
      ClampedIsLeast(p, a, b, o, NearestAt(p, a, b), t);
    } else {
      Flat(a, b);
      assert At(a, b, t) == a;
    }
  }

  /** Clamping to the unit interval comes closest. */
  lemma Closer(o: real, s: real, t: real)
    requires 0.0 <= t <= 1.0 && s == if o > 1.0 then 1.0 else if o > 0.0 then o else 0.0
    ensures Sq(s - o) <= Sq(t - o)
  {
    Square(t - o);
    if o > 1.0 {
      MulSign(1.0 - t, (o - 1.0) + (o - t));
      assert Sq(t - o) - Sq(1.0 - o) == (1.0 - t) * ((o - 1.0) + (o - t));
    } else if o <= 0.0 {
      MulSign(t, t - 2.0 * o);
      assert Sq(t - o) - Sq(0.0 - o) == t * (t - 2.0 * o);
    }
  }

  // ----- selections -----

  /** `r` is made of the elements of `s` at the increasing positions `idx`, from 0 to `last`. */
  ghost predicate SelectsTo(s: seq<Pt>, last: int, idx: seq<nat>, r: seq<Pt>) {
    && |idx| == |r| > 0 && idx[0] == 0 && idx[|idx| - 1] == last < |s|
    && (forall i, j :: 0 <= i < j < |idx| ==> idx[i] < idx[j])
    && (forall i :: 0 <= i < |idx| ==> idx[i] < |s| && r[i] == s[idx[i]])
  }

  /** A selection with both ends of `s`. */
  ghost predicate Selects(s: seq<Pt>, idx: seq<nat>, r: seq<Pt>) {
    SelectsTo(s, |s| - 1, idx, r)
  }

  // ----- the radial pre-pass -----

  /** Every dropped point is within tolerance of the kept point before it. */
  ghost predicate RadialBound(t: seq<Pt>, idx: seq<nat>, sqTol: real)
    requires forall i :: 0 <= i < |idx| ==> idx[i] < |t|
  {
    forall i, j :: 0 <= i < |idx| - 1 && idx[i] < j < idx[i + 1] ==> SqDist(t[j], t[idx[i]]) <= sqTol
  }

  /** Every kept point but the last is further than the tolerance from the kept point before it. */
  ghost predicate RadialGaps(e: seq<Pt>, upTo: int, sqTol: real) {
    forall i :: 0 <= i < upTo - 1 && i < |e| - 1 ==> SqDist(e[i + 1], e[i]) > sqTol
  }

  /** The state of the pass: `o` is the last kept position, everything up to `n` has been seen. */
  ghost predicate Reduced(t: seq<Pt>, idx: seq<nat>, e: seq<Pt>, sqTol: real, o: nat, n: nat)
    requires o < n <= |t|
  {
    && SelectsTo(t, o, idx, e) && RadialBound(t, idx, sqTol) && RadialGaps(e, |e|, sqTol)
    && forall j :: o < j < n ==> SqDist(t[j], t[o]) <= sqTol
  }

  method ReducePoints(t: seq<Pt>, sqTol: real) returns (e: seq<Pt>, ghost idx: seq<nat>)
    requires t != []
    ensures Selects(t, idx, e) && RadialBound(t, idx, sqTol) && RadialGaps(e, |e| - 1, sqTol)
  {
    var o;
    e, idx, o := ScanPoints(t, sqTol);
    if o < |t| - 1 {
      KeepSelects(t, idx, e, o, |t| - 1);
      KeepBound(t, idx, sqTol, o, |t| - 1);
      e, idx := e + [t[|t| - 1]], idx + [|t| - 1];
    }
  }

  /** The loop of the pass; the last point has to be added after it if it was not kept. */
  method ScanPoints(t: seq<Pt>, sqTol: real) returns (e: seq<Pt>, ghost idx: seq<nat>, o: nat)
    requires t != []
    ensures o < |t| && Reduced(t, idx, e, sqTol, o, |t|)
  {
    e, idx, o := [t[0]], [0], 0;
    var n := 1;
    while n < |t|
      invariant 0 <= o < n <= |t| && Reduced(t, idx, e, sqTol, o, n)
    {
      if sqTol < SqDist(t[n], t[o]) {
        Keep(t, idx, e, sqTol, o, n);
        e, idx := e + [t[n]], idx + [n];
        o := n;
      } else {
        Skip(t, idx, e, sqTol, o, n);
      }
      n := n + 1;
    }
  }

  lemma Skip(t: seq<Pt>, idx: seq<nat>, e: seq<Pt>, sqTol: real, o: nat, n: nat)
    requires o < n < |t| && Reduced(t, idx, e, sqTol, o, n) && SqDist(t[n], t[o]) <= sqTol
    ensures Reduced(t, idx, e, sqTol, o, n + 1)
  {
  }

  lemma Keep(t: seq<Pt>, idx: seq<nat>, e: seq<Pt>, sqTol: real, o: nat, n: nat)
    requires o < n < |t| && Reduced(t, idx, e, sqTol, o, n) && SqDist(t[n], t[o]) > sqTol
    ensures Reduced(t, idx + [n], e + [t[n]], sqTol, n, n + 1)
  {
    KeepSelects(t, idx, e, o, n);
    KeepBound(t, idx, sqTol, o, n);
    var e' := e + [t[n]];
    forall i | 0 <= i < |e'| - 1 ensures SqDist(e'[i + 1], e'[i]) > sqTol {
      assert i < |e| - 1 ==> SqDist(e[i + 1], e[i]) > sqTol;
    }
  }

  lemma KeepSelects(t: seq<Pt>, idx: seq<nat>, e: seq<Pt>, o: nat, n: nat)
    requires o < n < |t| && SelectsTo(t, o, idx, e)
    ensures SelectsTo(t, n, idx + [n], e + [t[n]])
  {
  }

  lemma KeepBound(t: seq<Pt>, idx: seq<nat>, sqTol: real, o: nat, n: nat)
    requires o < n < |t| && idx != [] && idx[|idx| - 1] == o && (forall i :: 0 <= i < |idx| ==> idx[i] < |t|)
    requires RadialBound(t, idx, sqTol) && forall j :: o < j < n ==> SqDist(t[j], t[o]) <= sqTol
    ensures RadialBound(t, idx + [n], sqTol)
  {
  }

  // ----- the recursive step -----

  /** No mark strictly between two positions. */
  ghost predicate Clear(marks: seq<bool>, lo: int, hi: int)
    requires -1 <= lo && hi <= |marks|
  {
    forall a :: lo < a < hi ==> !marks[a]
  }

  /** Every unmarked point is within tolerance of the segment between its nearest marked neighbours. */
  ghost predicate SegmentBound(pts: seq<Pt>, marks: seq<bool>, sqTol: real, first: nat, last: nat)
    requires last < |pts| == |marks|
  {
    forall lo, a, hi :: first <= lo < a < hi <= last && marks[lo] && marks[hi] && Clear(marks, lo, hi) ==>
      SqSegDist(pts[a], pts[lo], pts[hi]) <= sqTol
  }

  /** The point strictly between `first` and `upTo` farthest from the segment that ends at `last`,
      the earliest of them on a tie; `first` if none is off the segment. */
  function Farthest(pts: seq<Pt>, first: nat, last: nat, upTo: nat): (r: nat)
    requires first < upTo <= last < |pts|
    ensures first <= r < upTo
    ensures SqSegDist(pts[first], pts[first], pts[last]) == 0.0
    ensures forall a :: first < a < upTo ==>
            SqSegDist(pts[a], pts[first], pts[last]) <= SqSegDist(pts[r], pts[first], pts[last])
    ensures forall a :: first < a < r ==>
            SqSegDist(pts[a], pts[first], pts[last]) < SqSegDist(pts[r], pts[first], pts[last])
    decreases upTo
  {
    StartIsOn(pts[first], pts[last]);
    if upTo == first + 1 then first
    else
      var r := Farthest(pts, first, last, upTo - 1);
      if SqSegDist(pts[r], pts[first], pts[last]) < SqSegDist(pts[upTo - 1], pts[first], pts[last]) then upTo - 1 else r
  }

  lemma StartIsOn(a: Pt, b: Pt)
    ensures SqSegDist(a, a, b) == 0.0
  {
    assert Dot(a, a, b) == 0.0;
  }

  /** The points the Douglas-Peucker rule keeps strictly between two kept ones: the farthest, if it
      is too far from their segment, and what the rule keeps on both sides of it. */
  function Kept(pts: seq<Pt>, sqTol: real, first: nat, last: nat): (k: set<nat>)
    requires first <= last < |pts| && sqTol >= 0.0
    ensures forall a :: a in k ==> first < a < last
    decreases last - first
  {
    if first == last then {}
    else
      var r := Farthest(pts, first, last, last);
      if SqSegDist(pts[r], pts[first], pts[last]) <= sqTol then {}
      else Kept(pts, sqTol, first, r) + {r} + Kept(pts, sqTol, r, last)
  }

  /** Point `a` is too far from the segment between two others, and the first of those farthest from
      it among the points between them. */
  predicate FarFrom(pts: seq<Pt>, sqTol: real, lo: nat, a: nat, hi: nat) {
    && lo < a < hi < |pts| && SqSegDist(pts[a], pts[lo], pts[hi]) > sqTol
    && (forall b :: lo < b < hi ==> SqSegDist(pts[b], pts[lo], pts[hi]) <= SqSegDist(pts[a], pts[lo], pts[hi]))
    && (forall b :: lo < b < a ==> SqSegDist(pts[b], pts[lo], pts[hi]) < SqSegDist(pts[a], pts[lo], pts[hi]))
  }

  /** The rule keeps no point without need. */
  lemma {:induction false} KeptIsFar(pts: seq<Pt>, sqTol: real, first: nat, last: nat, a: nat)
    returns (lo: nat, hi: nat)
    requires first <= last < |pts| && sqTol >= 0.0 && a in Kept(pts, sqTol, first, last)
    ensures FarFrom(pts, sqTol, lo, a, hi)
    ensures lo == first || lo in Kept(pts, sqTol, first, last)
    ensures hi == last || hi in Kept(pts, sqTol, first, last)
    decreases last - first
  {
    var r := Farthest(pts, first, last, last);
    if a == r {
      lo, hi := first, last;
    } else if a in Kept(pts, sqTol, first, r) {
      lo, hi := KeptIsFar(pts, sqTol, first, r, a);
    } else {
      lo, hi := KeptIsFar(pts, sqTol, r, last, a);
    }
  }

  /** Which positions the rule keeps when it splits, and when it does not. */
  lemma KeptAt(pts: seq<Pt>, sqTol: real, first: nat, last: nat, a: nat)
    requires first < a < last < |pts| && sqTol >= 0.0
    ensures var r := Farthest(pts, first, last, last);
            if SqSegDist(pts[r], pts[first], pts[last]) <= sqTol then a !in Kept(pts, sqTol, first, last)
            else first < r < last
                 && (a < r ==> (a in Kept(pts, sqTol, first, last) <==> a in Kept(pts, sqTol, first, r)))
                 && (a == r ==> a in Kept(pts, sqTol, first, last))
                 && (a > r ==> (a in Kept(pts, sqTol, first, last) <==> a in Kept(pts, sqTol, r, last)))
  {
  }

  /** The marks strictly between two positions are those of the rule. */
  ghost predicate MarkedAsKept(pts: seq<Pt>, marks: seq<bool>, sqTol: real, first: nat, last: nat)
    requires first <= last < |pts| == |marks| && sqTol >= 0.0
  {
    forall a :: first < a < last ==> (marks[a] <==> a in Kept(pts, sqTol, first, last))
  }

  lemma MarksSplit(pts: seq<Pt>, marks: seq<bool>, sqTol: real, first: nat, last: nat, r: nat)
    requires first < last < |pts| == |marks| && sqTol >= 0.0 && r == Farthest(pts, first, last, last)
    requires SqSegDist(pts[r], pts[first], pts[last]) > sqTol
    ensures first < r < last
    ensures MarkedAsKept(pts, marks, sqTol, first, last) <==>
            marks[r] && MarkedAsKept(pts, marks, sqTol, first, r) && MarkedAsKept(pts, marks, sqTol, r, last)
  {
    forall a: nat | first < a < last
      ensures a in Kept(pts, sqTol, first, last) <==>
              if a < r then a in Kept(pts, sqTol, first, r) else a == r || a in Kept(pts, sqTol, r, last)
    {
      KeptAt(pts, sqTol, first, last, a);
    }
  }

  /** With exactly those marked, every dropped point is within tolerance of its segment. */
  lemma {:induction false} KeptIsEnough(pts: seq<Pt>, marks: seq<bool>, sqTol: real, first: nat, last: nat)
    requires first <= last < |pts| == |marks| && sqTol >= 0.0
    requires marks[first] && marks[last] && MarkedAsKept(pts, marks, sqTol, first, last)
    ensures SegmentBound(pts, marks, sqTol, first, last)
    decreases last - first
  {
    if first == last {
    } else {
      var r := Farthest(pts, first, last, last);
      if SqSegDist(pts[r], pts[first], pts[last]) > sqTol {
        MarksSplit(pts, marks, sqTol, first, last, r);
        KeptIsEnough(pts, marks, sqTol, first, r);
        KeptIsEnough(pts, marks, sqTol, r, last);
        BothHalves(pts, marks, sqTol, first, r, last);
      } else {
        assert Kept(pts, sqTol, first, last) == {};
        NothingMarked(pts, marks, sqTol, first, last);
      }
    }
  }

  lemma NothingMarked(pts: seq<Pt>, marks: seq<bool>, sqTol: real, first: nat, last: nat)
    requires first < last < |pts| == |marks| && Clear(marks, first, last)
    requires forall a :: first < a < last ==> SqSegDist(pts[a], pts[first], pts[last]) <= sqTol
    ensures SegmentBound(pts, marks, sqTol, first, last)
  {
  }

  lemma BothHalves(pts: seq<Pt>, marks: seq<bool>, sqTol: real, first: nat, r: nat, last: nat)
    requires first < r < last < |pts| == |marks| && marks[r]
    requires SegmentBound(pts, marks, sqTol, first, r) && SegmentBound(pts, marks, sqTol, r, last)
    ensures SegmentBound(pts, marks, sqTol, first, last)
  {
    forall lo, a, hi | first <= lo < a < hi <= last && marks[lo] && marks[hi] && Clear(marks, lo, hi)
      ensures SqSegDist(pts[a], pts[lo], pts[hi]) <= sqTol
    {
      assert hi <= r || lo >= r;
    }
  }

  /** Marks the points to keep between two kept ones: the farthest from their segment, if it is too
      far, and then recursively on both sides of it. */
  method Mark(pts: seq<Pt>, markers: array<bool>, sqTol: real, first: nat, last: nat)
    requires first <= last < |pts| == markers.Length && sqTol >= 0.0
    requires forall a :: first < a < last ==> !markers[a]
    modifies markers
    ensures MarkedAsKept(pts, markers[..], sqTol, first, last)
    ensures forall a :: 0 <= a < markers.Length && !(first < a < last) ==> markers[a] == old(markers[a])
    decreases last - first
  {
    var index, maxSqDist := FindFarthest(pts, first, last);
    if sqTol < maxSqDist {
      markers[index] := true;
      Mark(pts, markers, sqTol, first, index);
      ghost var half := markers[..];
      Mark(pts, markers, sqTol, index, last);
      SameMarks(pts, half, markers[..], sqTol, first, index);
      MarksSplit(pts, markers[..], sqTol, first, last, index);
    } else if first < last {
      assert Kept(pts, sqTol, first, last) == {};
    }
  }

  lemma SameMarks(pts: seq<Pt>, half: seq<bool>, marks: seq<bool>, sqTol: real, first: nat, last: nat)
    requires first <= last < |pts| == |half| == |marks| && sqTol >= 0.0
    requires MarkedAsKept(pts, half, sqTol, first, last) && forall a :: first < a < last ==> marks[a] == half[a]
    ensures MarkedAsKept(pts, marks, sqTol, first, last)
  {
  }

  /** The loop of the recursive step. */
  method FindFarthest(pts: seq<Pt>, first: nat, last: nat) returns (index: nat, maxSqDist: real)
    requires first <= last < |pts|
    ensures first == last ==> maxSqDist == 0.0
    ensures first < last ==>
            index == Farthest(pts, first, last, last) && maxSqDist == SqSegDist(pts[index], pts[first], pts[last])
  {
    index, maxSqDist := first, 0.0;
    var a := first + 1;
    while a < last
      invariant first < a && (a <= last || first == last)
      invariant first < last ==>
                index == Farthest(pts, first, last, a) && maxSqDist == SqSegDist(pts[index], pts[first], pts[last])
      invariant first == last ==> maxSqDist == 0.0
    {
      var sqDist := SqSegDist(pts[a], pts[first], pts[last]);
      if maxSqDist < sqDist {
        index := a;
        maxSqDist := sqDist;
      }
      a := a + 1;
    }
  }

  /** Each dropped point is within tolerance of the segment between the kept points around it. */
  ghost predicate ChainBound(pts: seq<Pt>, idx: seq<nat>, sqTol: real)
    requires forall i :: 0 <= i < |idx| ==> idx[i] < |pts|
  {
    forall i, a :: 0 <= i < |idx| - 1 && idx[i] < a < idx[i + 1] ==>
        SqSegDist(pts[a], pts[idx[i]], pts[idx[i + 1]]) <= sqTol
  }

  /** The positions the second pass keeps. */
  ghost predicate KeepsExactly(pts: seq<Pt>, idx: seq<nat>, sqTol: real)
    requires pts != [] && sqTol >= 0.0
  {
    forall a: nat :: a in idx <==> a == 0 || a == |pts| - 1 || a in Kept(pts, sqTol, 0, |pts| - 1)
  }

  /** Each point kept between the ends was the farthest, and too far, from the segment between two
      others that are kept. */
  ghost predicate EachFar(pts: seq<Pt>, idx: seq<nat>, sqTol: real) {
    forall a: nat :: a in idx && 0 < a < |pts| - 1 ==> FarBetween(pts, idx, sqTol, a)
  }

  ghost predicate FarBetween(pts: seq<Pt>, idx: seq<nat>, sqTol: real, a: nat) {
    exists lo, hi :: lo in idx && hi in idx && FarFrom(pts, sqTol, lo, a, hi)
  }

  lemma KeptAreFar(pts: seq<Pt>, idx: seq<nat>, sqTol: real)
    requires pts != [] && sqTol >= 0.0 && KeepsExactly(pts, idx, sqTol)
    ensures EachFar(pts, idx, sqTol)
  {
    forall a: nat | a in idx && 0 < a < |pts| - 1 ensures FarBetween(pts, idx, sqTol, a) {
      var lo, hi := KeptIsFar(pts, sqTol, 0, |pts| - 1, a);
    }
  }

  method SimplifyDP(pts: seq<Pt>, sqTol: real) returns (out: seq<Pt>, ghost idx: seq<nat>)
    requires pts != [] && sqTol >= 0.0
    ensures Selects(pts, idx, out) && ChainBound(pts, idx, sqTol) && KeepsExactly(pts, idx, sqTol)
    ensures EachFar(pts, idx, sqTol)
    ensures out != [] && out[0] == pts[0] && out[|out| - 1] == pts[|pts| - 1] && forall p :: p in out ==> p in pts
  {
    var markers := new bool[|pts|](i => false);
    markers[0] := true;
    markers[|pts| - 1] := true;
    Mark(pts, markers, sqTol, 0, |pts| - 1);
    out, idx := Collect(pts, markers);
    CollectedIsSimplified(pts, markers[..], idx, out, sqTol);
    KeptAreFar(pts, idx, sqTol);
  }

  lemma {:induction false} CollectedIsSimplified(pts: seq<Pt>, marks: seq<bool>, idx: seq<nat>, out: seq<Pt>,
                                                 sqTol: real)
    requires 0 < |pts| == |marks| && marks[0] && marks[|pts| - 1] && sqTol >= 0.0
    requires Collected(pts, marks, |pts|, idx, out) && MarkedAsKept(pts, marks, sqTol, 0, |pts| - 1)
    ensures Selects(pts, idx, out) && ChainBound(pts, idx, sqTol) && KeepsExactly(pts, idx, sqTol)
  {
    KeptIsEnough(pts, marks, sqTol, 0, |pts| - 1);
    CollectedIsBound(pts, marks, idx, out, sqTol);
    CollectedIsKept(pts, marks, idx, out, sqTol);
  }

  lemma CollectedIsKept(pts: seq<Pt>, marks: seq<bool>, idx: seq<nat>, out: seq<Pt>, sqTol: real)
    requires 0 < |pts| == |marks| && marks[0] && marks[|pts| - 1] && sqTol >= 0.0
    requires Collected(pts, marks, |pts|, idx, out) && MarkedAsKept(pts, marks, sqTol, 0, |pts| - 1)
    ensures KeepsExactly(pts, idx, sqTol)
  {
    forall a: nat ensures a in idx <==> a == 0 || a == |pts| - 1 || a in Kept(pts, sqTol, 0, |pts| - 1) {
      CollectedAll(pts, marks, idx, out, a);
    }
  }

  /** What is collected is all that is marked. */
  lemma CollectedAll(pts: seq<Pt>, marks: seq<bool>, idx: seq<nat>, out: seq<Pt>, a: nat)
    requires 0 < |pts| == |marks| && marks[|pts| - 1] && Collected(pts, marks, |pts|, idx, out)
    ensures a in idx <==> a < |pts| && marks[a]
  {
    if a < |pts| && marks[a] {
      assert idx[|idx| - 1] == |pts| - 1;
      var i := Bracket(idx, a);
      assert i < |idx| - 1 ==> Clear(marks, idx[i], idx[i + 1]);
    }
  }

  method Collect(pts: seq<Pt>, markers: array<bool>) returns (out: seq<Pt>, ghost idx: seq<nat>)
    requires 0 < |pts| == markers.Length && markers[0]
    ensures Collected(pts, markers[..], |pts|, idx, out)
  {
    out, idx := [], [];
    for o := 0 to |pts|
      invariant if o == 0 then out == [] && idx == [] else Collected(pts, markers[..], o, idx, out)
    {
      if o > 0 {
        CollectedNext(pts, markers[..], o, idx, out);
      }
      if markers[o] {
        out, idx := out + [pts[o]], idx + [o];
      }
    }
  }

  /** The marked points among the first `n`, with nothing marked between them or after them. */
  ghost predicate Collected(pts: seq<Pt>, marks: seq<bool>, n: nat, idx: seq<nat>, out: seq<Pt>)
    requires n <= |pts| == |marks|
  {
    && |idx| == |out| > 0 && idx[0] == 0
    && (forall i :: 0 <= i < |idx| ==> idx[i] < n && marks[idx[i]] && out[i] == pts[idx[i]])
    && (forall i, j :: 0 <= i < j < |idx| ==> idx[i] < idx[j])
    && (forall i :: 0 <= i < |idx| - 1 ==> Clear(marks, idx[i], idx[i + 1]))
    && Clear(marks, idx[|idx| - 1], n)
  }

  lemma CollectedNext(pts: seq<Pt>, marks: seq<bool>, n: nat, idx: seq<nat>, out: seq<Pt>)
    requires n < |pts| == |marks| && Collected(pts, marks, n, idx, out)
    ensures if marks[n] then Collected(pts, marks, n + 1, idx + [n], out + [pts[n]])
            else Collected(pts, marks, n + 1, idx, out)
  {
  }

  lemma CollectedIsBound(pts: seq<Pt>, marks: seq<bool>, idx: seq<nat>, out: seq<Pt>, sqTol: real)
    requires 0 < |pts| == |marks| && marks[|pts| - 1]
    requires Collected(pts, marks, |pts|, idx, out) && SegmentBound(pts, marks, sqTol, 0, |pts| - 1)
    ensures Selects(pts, idx, out) && ChainBound(pts, idx, sqTol)
  {
    assert idx[|idx| - 1] == |pts| - 1;
    forall i, a | 0 <= i < |idx| - 1 && idx[i] < a < idx[i + 1]
      ensures SqSegDist(pts[a], pts[idx[i]], pts[idx[i + 1]]) <= sqTol
    {
      assert Clear(marks, idx[i], idx[i + 1]);
    }
  }

  // ----- the whole simplification -----

  /** A point of the polyline through `line`. */
  ghost predicate OnLine(line: seq<Pt>, v: Pt) {
    v in line || exists i :: 0 <= i < |line| - 1 && OnSegment(line[i], line[i + 1], v)
  }

  ghost predicate OnSegment(a: Pt, b: Pt, v: Pt) {
    exists t :: 0.0 <= t <= 1.0 && v == At(a, b, t)
  }

  ghost predicate NearLine(line: seq<Pt>, p: Pt, sqTol: real) {
    exists v :: OnLine(line, v) && SqDist(p, v) <= sqTol
  }

  /** The position around which `j` falls in a selection. */
  lemma {:induction false} Bracket(idx: seq<nat>, j: nat) returns (i: nat)
    requires |idx| > 0 && idx[0] <= j <= idx[|idx| - 1]
    ensures i < |idx| && (idx[i] == j || (i < |idx| - 1 && idx[i] < j < idx[i + 1]))
  {
    if idx[|idx| - 1] == j {
      i := |idx| - 1;
    } else if idx[|idx| - 2] <= j {
      i := |idx| - 2;
    } else {
      i := Bracket(idx[..|idx| - 1], j);
    }
  }

  /** Every point of the reduced line is within tolerance of the simplified one. */
  lemma ChainNear(pts: seq<Pt>, idx: seq<nat>, out: seq<Pt>, sqTol: real, a: nat)
    requires Selects(pts, idx, out) && ChainBound(pts, idx, sqTol) && sqTol >= 0.0 && a < |pts|
    ensures NearLine(out, pts[a], sqTol)
  {
    var i := Bracket(idx, a);
    if idx[i] == a {
      assert OnLine(out, out[i]) && SqDist(pts[a], out[i]) == 0.0;
    } else {
      var l := NearestAt(pts[a], out[i], out[i + 1]);
      SegDistIsLeast(pts[a], out[i], out[i + 1], l);
      NearestIsAt(pts[a], out[i], out[i + 1]);
      assert OnSegment(out[i], out[i + 1], At(out[i], out[i + 1], l));
      assert OnLine(out, At(out[i], out[i + 1], l));
    }
  }

  /** Two steps of at most `d` make at most `2 d`. */
  lemma TwoSteps(p: Pt, q: Pt, v: Pt, sqTol: real)
    requires SqDist(p, q) <= sqTol && SqDist(q, v) <= sqTol
    ensures SqDist(p, v) <= 4.0 * sqTol
  {
    SumOfSquares(p.x - q.x, q.x - v.x);
    SumOfSquares(p.y - q.y, q.y - v.y);
    assert (p.x - q.x) + (q.x - v.x) == p.x - v.x && (p.y - q.y) + (q.y - v.y) == p.y - v.y;
    assert SqDist(p, v) <= 2.0 * SqDist(p, q) + 2.0 * SqDist(q, v);
  }

  lemma SumOfSquares(x: real, y: real)
    ensures Sq(x + y) <= 2.0 * Sq(x) + 2.0 * Sq(y)
  {
    Square(x - y);
    assert Sq(x - y) == x * x - 2.0 * (x * y) + y * y;
    assert Sq(x + y) == x * x + 2.0 * (x * y) + y * y;
  }

  /** Both passes together: no point of the input is further than twice the tolerance from the
      simplified line. */
  lemma BothPasses(t: seq<Pt>, mid: seq<nat>, reduced: seq<Pt>, idx: seq<nat>, out: seq<Pt>, sqTol: real, j: nat)
    requires Selects(t, mid, reduced) && RadialBound(t, mid, sqTol)
    requires Selects(reduced, idx, out) && ChainBound(reduced, idx, sqTol) && sqTol >= 0.0 && j < |t|
    ensures NearLine(out, t[j], 4.0 * sqTol)
  {
    var i := Bracket(mid, j);
    if mid[i] == j {
      assert SqDist(t[j], reduced[i]) == 0.0;
    } else {
      assert SqDist(t[j], t[mid[i]]) <= sqTol;
    }
    ChainNear(reduced, idx, out, sqTol, i);
    var v :| OnLine(out, v) && SqDist(reduced[i], v) <= sqTol;
    TwoSteps(t[j], reduced[i], v, sqTol);
  }

  /** The selections of the two passes make one selection: a subsequence with both ends. */
  lemma ComposeSelections(t: seq<Pt>, mid: seq<nat>, reduced: seq<Pt>, idx: seq<nat>, out: seq<Pt>)
    returns (all: seq<nat>)
    requires Selects(t, mid, reduced) && Selects(reduced, idx, out)
    ensures Selects(t, all, out)
  {
    all := seq(|idx|, i requires 0 <= i < |idx| => mid[idx[i]]);
  }

  function Squared(tolerance: real): (r: real)
    ensures r == tolerance * tolerance >= 0.0
  {
    Square(tolerance);
    Sq(tolerance)
  }

  /** `out` comes out of both passes over `t`, each of which keeps exactly what its rule says. */
  ghost predicate Simplified(t: seq<Pt>, sqTol: real, mid: seq<nat>, reduced: seq<Pt>, idx: seq<nat>, out: seq<Pt>)
    requires sqTol >= 0.0
  {
    && Selects(t, mid, reduced) && RadialBound(t, mid, sqTol) && RadialGaps(reduced, |reduced| - 1, sqTol)
    && Selects(reduced, idx, out) && ChainBound(reduced, idx, sqTol) && KeepsExactly(reduced, idx, sqTol)
    && EachFar(reduced, idx, sqTol)
  }

  ghost predicate IsSimplified(t: seq<Pt>, sqTol: real, out: seq<Pt>)
    requires sqTol >= 0.0
  {
    exists mid, reduced, idx :: Simplified(t, sqTol, mid, reduced, idx, out)
  }

  method Simplify(t: seq<Pt>, tolerance: real) returns (out: seq<Pt>)
    ensures if tolerance == 0.0 || t == [] then out == t else IsSimplified(t, Squared(tolerance), out)
  {
    if tolerance == 0.0 || |t| == 0 {
      return t;
    }
    var sqTolerance := Squared(tolerance);
    var points;
    ghost var mid, idx;
    points, mid := ReducePoints(t, sqTolerance);
    out, idx := SimplifyDP(points, sqTolerance);
    assert Simplified(t, sqTolerance, mid, points, idx, out);
  }

  /** A simplified line is a subsequence with both ends, and no input point is further from it than
      twice the tolerance. */
  lemma {:induction false} SimplifiedIsClose(t: seq<Pt>, sqTol: real, out: seq<Pt>) returns (all: seq<nat>)
    requires sqTol >= 0.0 && IsSimplified(t, sqTol, out)
    ensures Selects(t, all, out)
    ensures forall j :: 0 <= j < |t| ==> NearLine(out, t[j], 4.0 * sqTol)
  {
    var mid, reduced, idx :| Simplified(t, sqTol, mid, reduced, idx, out);
    all := ComposeSelections(t, mid, reduced, idx, out);
    forall j | 0 <= j < |t| ensures NearLine(out, t[j], 4.0 * sqTol) {
      BothPasses(t, mid, reduced, idx, out, sqTol, j);
    }
  }
}
