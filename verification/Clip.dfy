/** Segment clipping (frontend/lib/leaflet/1.6.0/leaflet.js: pe, me, fe and _clipPoints), over
    reals and without the final rounding. */
module Clip {
  import opened Wrappers
  import opened Geometry

  /** 1 left, 2 right, 4 below, 8 above. */
  type Code = bv4

  function BitCode(p: Pt, b: Bounds): Code {
    (if p.x < b.min.x then 1 else if p.x > b.max.x then 2 else 0) |
    (if p.y < b.min.y then 4 else if p.y > b.max.y then 8 else 0)
  }

  /** What each bit says. */
  lemma CodeBits(p: Pt, b: Bounds)
    requires Proper(b)
    ensures BitCode(p, b) & 1 != 0 <==> p.x < b.min.x
    ensures BitCode(p, b) & 2 != 0 <==> p.x > b.max.x
    ensures BitCode(p, b) & 4 != 0 <==> p.y < b.min.y
    ensures BitCode(p, b) & 8 != 0 <==> p.y > b.max.y
    ensures BitCode(p, b) == 0 <==> Inside(p, b)
  {
  }

  /** How many of the four sides a code names. */
  function Sides(c: Code): nat {
    (if c & 1 != 0 then 1 else 0) + (if c & 2 != 0 then 1 else 0) +
    (if c & 4 != 0 then 1 else 0) + (if c & 8 != 0 then 1 else 0)
  }

  /** The side a point with this code is clipped against: above, below, right, left. */
  function SideOf(c: Code): Code {
    if c & 8 != 0 then 8 else if c & 4 != 0 then 4 else if c & 2 != 0 then 2 else 1
  }

  /** The codes of a segment's ends after one of them has been clipped. */
  lemma FewerSides(h: Code, u: Code, s: Code, other: Code, a: Code)
    requires h & u == 0 && h | u != 0
    requires (s == h && other == u) || (h == 0 && s == u && other == h)
    requires s != 0 && a & SideOf(s) == 0 && a & (h | u) == a
    ensures Sides(a | other) < Sides(h | u)
  {
  }

  // ----- one side at a time -----

  predicate IsSide(side: Code) {
    side == 1 || side == 2 || side == 4 || side == 8
  }

  /** The coordinate a side bounds, and its bound. */
  function Coord(p: Pt, side: Code): real {
    if side == 8 || side == 4 then p.y else p.x
  }

  function Limit(side: Code, b: Bounds): real {
    if side == 8 then b.max.y else if side == 4 then b.min.y else if side == 2 then b.max.x else b.min.x
  }

  predicate Beyond(p: Pt, side: Code, b: Bounds) {
    if side == 8 || side == 2 then Coord(p, side) > Limit(side, b) else Coord(p, side) < Limit(side, b)
  }

  lemma BeyondIsBit(p: Pt, side: Code, b: Bounds)
    requires Proper(b) && IsSide(side)
    ensures Beyond(p, side, b) <==> BitCode(p, b) & side != 0
    ensures Beyond(p, side, b) ==> !Inside(p, b)
  {
    CodeBits(p, b);
  }

  /** One end of the segment is beyond the side and the other is not. */
  predicate Crosses(t: Pt, i: Pt, side: Code, b: Bounds) {
    IsSide(side) && Beyond(t, side, b) != Beyond(i, side, b)
  }

  /** Where the line through `t` and `i` meets a horizontal, and a vertical. */
  function OnHorizontal(t: Pt, i: Pt, m: real): Pt
    requires t.y != i.y
  {
    Pt(t.x + (i.x - t.x) * (m - t.y) / (i.y - t.y), m)
  }

  function OnVertical(t: Pt, i: Pt, m: real): Pt
    requires t.x != i.x
  {
    Pt(m, t.y + (i.y - t.y) * (m - t.x) / (i.x - t.x))
  }

  /** The point where a segment meets the side its code names first; the divisor is never 0. */
  function EdgePoint(t: Pt, i: Pt, code: Code, b: Bounds): (r: Pt)
    requires code != 0 && Crosses(t, i, SideOf(code), b)
  {
    if code & 8 != 0 then OnHorizontal(t, i, b.max.y)
    else if code & 4 != 0 then OnHorizontal(t, i, b.min.y)
    else if code & 2 != 0 then OnVertical(t, i, b.max.x)
    else OnVertical(t, i, b.min.x)
  }

  /** Where on the segment that is. */
  function EdgeAt(t: Pt, i: Pt, side: Code, b: Bounds): real
    requires Crosses(t, i, side, b)
  {
    Crossing(Coord(t, side), Coord(i, side), Limit(side, b))
  }

  lemma HorizontalEdge(t: Pt, i: Pt, m: real)
    requires t.y <= m <= i.y || t.y >= m >= i.y
    requires t.y != i.y
    ensures OnHorizontal(t, i, m) == At(t, i, Crossing(t.y, i.y, m))
  {
    CrossingIs(t.y, i.y, m);
    MulDiv(i.x - t.x, m - t.y, i.y - t.y);
  }

  lemma VerticalEdge(t: Pt, i: Pt, m: real)
    requires t.x <= m <= i.x || t.x >= m >= i.x
    requires t.x != i.x
    ensures OnVertical(t, i, m) == At(t, i, Crossing(t.x, i.x, m))
  {
    CrossingIs(t.x, i.x, m);
    MulDiv(i.y - t.y, m - t.x, i.x - t.x);
  }

  lemma EdgePointIs(t: Pt, i: Pt, code: Code, b: Bounds)
    requires code != 0 && Crosses(t, i, SideOf(code), b)
    ensures var l := EdgeAt(t, i, SideOf(code), b);
            && 0.0 <= l <= 1.0 && EdgePoint(t, i, code, b) == At(t, i, l)
            && Coord(EdgePoint(t, i, code, b), SideOf(code)) == Limit(SideOf(code), b)
  {
    var side := SideOf(code);
    var m := Limit(side, b);
    CrossingIs(Coord(t, side), Coord(i, side), m);
    if side == 8 || side == 4 {
      HorizontalEdge(t, i, m);
    } else {
      VerticalEdge(t, i, m);
    }
  }

  // ----- what is known of the part still in hand -----

  /** The parameters from `lo` to `hi` cover all of the segment that is inside. */
  ghost predicate Covers(a: Pt, z: Pt, b: Bounds, lo: real, hi: real) {
    && 0.0 <= lo <= hi <= 1.0
    && forall t :: 0.0 <= t <= 1.0 && Inside(At(a, z, t), b) ==> lo <= t <= hi
  }

  lemma CoordOfAt(a: Pt, z: Pt, side: Code, t: real)
    ensures Coord(At(a, z, t), side) == Lerp(Coord(a, side), Coord(z, side), t)
  {
  }

  lemma AtAt(a: Pt, z: Pt, s: real, t: real, l: real)
    ensures At(At(a, z, s), At(a, z, t), l) == At(a, z, Lerp(s, t, l))
  {
    LerpLerp(a.x, z.x, s, t, l);
    LerpLerp(a.y, z.y, s, t, l);
  }

  lemma LerpWithin(s: real, t: real, l: real)
    requires s <= t && 0.0 <= l <= 1.0
    ensures s <= Lerp(s, t, l) <= t
  {
    MulSign(l, t - s);
    MulSign(1.0 - l, t - s);
    assert (1.0 - l) * (t - s) == (t - s) - l * (t - s);
  }

  /** Cutting an end off at a side it is beyond loses nothing that is inside. */
  lemma CutCovers(a: Pt, z: Pt, b: Bounds, lo: real, hi: real, side: Code)
    requires Proper(b) && Covers(a, z, b, lo, hi) && Crosses(At(a, z, lo), At(a, z, hi), side, b)
    ensures var l := EdgeAt(At(a, z, lo), At(a, z, hi), side, b);
            var e := Lerp(lo, hi, l);
            if Beyond(At(a, z, lo), side, b) then Covers(a, z, b, e, hi) else Covers(a, z, b, lo, e)
  {
    var p, q := At(a, z, lo), At(a, z, hi);
    var c, d, m := Coord(a, side), Coord(z, side), Limit(side, b);
    CoordOfAt(a, z, side, lo);
    CoordOfAt(a, z, side, hi);
    CrossingIs(Coord(p, side), Coord(q, side), m);
    var l := EdgeAt(p, q, side, b);
    var e := Lerp(lo, hi, l);
    LerpLerp(c, d, lo, hi, l);
    LerpWithin(lo, hi, l);
    forall t | 0.0 <= t <= 1.0 && Inside(At(a, z, t), b)
      ensures if Beyond(p, side, b) then e <= t <= hi else lo <= t <= e
    {
      CoordOfAt(a, z, side, t);
      BeyondIsBit(At(a, z, t), side, b);
      if Beyond(p, side, b) && t < e {
        OneSided(c, d, e, m, lo, t);
      }
      if !Beyond(p, side, b) && t > e {
        OneSided(c, d, e, m, hi, t);
      }
    }
  }

  /** Both ends beyond one side: nothing is inside. */
  lemma SharedSide(a: Pt, z: Pt, b: Bounds, lo: real, hi: real, side: Code)
    requires Proper(b) && IsSide(side) && Covers(a, z, b, lo, hi)
    requires Beyond(At(a, z, lo), side, b) && Beyond(At(a, z, hi), side, b)
    ensures forall t :: 0.0 <= t <= 1.0 ==> !Inside(At(a, z, t), b)
  {
    forall t | 0.0 <= t <= 1.0 ensures !Inside(At(a, z, t), b) {
      if lo <= t <= hi {
        CoordOfAt(a, z, side, lo);
        CoordOfAt(a, z, side, t);
        CoordOfAt(a, z, side, hi);
        LerpBetween(Coord(a, side), Coord(z, side), lo, t, hi);
        BeyondIsBit(At(a, z, t), side, b);
      }
    }
  }

  /** Both ends inside: so is everything between. */
  lemma BothInside(a: Pt, z: Pt, b: Bounds, lo: real, hi: real)
    requires Covers(a, z, b, lo, hi) && Inside(At(a, z, lo), b) && Inside(At(a, z, hi), b)
    ensures forall t :: 0.0 <= t <= 1.0 ==> (Inside(At(a, z, t), b) <==> lo <= t <= hi)
  {
    forall t | lo <= t <= hi ensures Inside(At(a, z, t), b) {
      LerpBetween(a.x, z.x, lo, t, hi);
      LerpBetween(a.y, z.y, lo, t, hi);
    }
  }

  /** A cut point is beyond no side that neither end is beyond, nor beyond the side it is on. */
  lemma CutCode(t: Pt, i: Pt, b: Bounds, code: Code)
    requires Proper(b) && code != 0 && Crosses(t, i, SideOf(code), b)
    ensures var r := EdgePoint(t, i, code, b);
            BitCode(r, b) & SideOf(code) == 0 && BitCode(r, b) & (BitCode(t, b) | BitCode(i, b)) == BitCode(r, b)
  {
    var r := EdgePoint(t, i, code, b);
    EdgePointIs(t, i, code, b);
    var l := EdgeAt(t, i, SideOf(code), b);
    LerpEnds(t.x, i.x);
    LerpEnds(t.y, i.y);
    LerpBetween(t.x, i.x, 0.0, l, 1.0);
    LerpBetween(t.y, i.y, 0.0, l, 1.0);
    BeyondIsBit(r, SideOf(code), b);
    NoNewSides(t, i, r, b);
  }

  lemma NoNewSides(t: Pt, i: Pt, r: Pt, b: Bounds)
    requires Proper(b)
    requires t.x <= r.x <= i.x || t.x >= r.x >= i.x
    requires t.y <= r.y <= i.y || t.y >= r.y >= i.y
    ensures BitCode(r, b) & (BitCode(t, b) | BitCode(i, b)) == BitCode(r, b)
  {
  }

  // ----- clipping a segment -----

  /** `r` is exactly the part of the segment from `a` to `z` that is inside, in its direction:
      the parameters from `lo` to `hi`, or nothing if the segment misses the box. */
  ghost predicate Clipped(a: Pt, z: Pt, b: Bounds, r: Option<(Pt, Pt)>, lo: real, hi: real) {
    match r
    case None => forall t :: 0.0 <= t <= 1.0 ==> !Inside(At(a, z, t), b)
    case Some((p, q)) =>
      && 0.0 <= lo <= hi <= 1.0 && p == At(a, z, lo) && q == At(a, z, hi)
      && forall t :: 0.0 <= t <= 1.0 ==> (Inside(At(a, z, t), b) <==> lo <= t <= hi)
  }

  /** Where the loop stands: the part in hand and the codes of its ends. */
  ghost predicate InHand(a: Pt, z: Pt, b: Bounds, lo: real, hi: real, t: Pt, i: Pt, h: Code, u: Code) {
    Covers(a, z, b, lo, hi) && t == At(a, z, lo) && i == At(a, z, hi) && h == BitCode(t, b) && u == BitCode(i, b)
  }

  lemma CrossesHere(t: Pt, i: Pt, b: Bounds, s: Code)
    requires Proper(b) && BitCode(t, b) & BitCode(i, b) == 0 && BitCode(t, b) | BitCode(i, b) != 0
    requires s == if BitCode(t, b) != 0 then BitCode(t, b) else BitCode(i, b)
    ensures s != 0 && Crosses(t, i, SideOf(s), b) && (Beyond(t, SideOf(s), b) <==> s == BitCode(t, b))
  {
    BeyondIsBit(t, SideOf(s), b);
    BeyondIsBit(i, SideOf(s), b);
    FirstSide(BitCode(t, b), BitCode(i, b), s);
  }

  lemma FirstSide(h: Code, u: Code, s: Code)
    requires h & u == 0 && h | u != 0 && s == if h != 0 then h else u
    ensures s != 0 && IsSide(SideOf(s)) && (h & SideOf(s) != 0 <==> s == h) && (u & SideOf(s) != 0 <==> s != h)
  {
  }

  /** One round of the loop keeps hold of everything inside, with fewer sides left to clip. */
  lemma OneCut(a: Pt, z: Pt, b: Bounds, lo: real, hi: real, t: Pt, i: Pt, h: Code, u: Code, s: Code) returns (e: real)
    requires Proper(b) && InHand(a, z, b, lo, hi, t, i, h, u) && h & u == 0 && h | u != 0
    requires s == if h != 0 then h else u
    ensures s != 0 && Crosses(t, i, SideOf(s), b)
    ensures var p := EdgePoint(t, i, s, b);
            var c := BitCode(p, b);
            if s == h then InHand(a, z, b, e, hi, p, i, c, u) && Sides(c | u) < Sides(h | u)
            else InHand(a, z, b, lo, e, t, p, h, c) && Sides(h | c) < Sides(h | u)
  {
    CrossesHere(t, i, b, s);
    CutCovers(a, z, b, lo, hi, SideOf(s));
    EdgePointIs(t, i, s, b);
    CutCode(t, i, b, s);
    e := Lerp(lo, hi, EdgeAt(t, i, SideOf(s), b));
    AtAt(a, z, lo, hi, EdgeAt(t, i, SideOf(s), b));
    var c := BitCode(EdgePoint(t, i, s, b), b);
    FewerSides(h, u, s, if s == h then u else h, c);
    assert u | c == c | u && h | c == c | h;
  }

  lemma Rejected(a: Pt, z: Pt, b: Bounds, lo: real, hi: real, t: Pt, i: Pt, h: Code, u: Code)
    requires Proper(b) && InHand(a, z, b, lo, hi, t, i, h, u) && h & u != 0
    ensures Clipped(a, z, b, None, lo, hi)
  {
    var side := SideOf(h & u);
    SharedBit(h, u);
    BeyondIsBit(t, side, b);
    BeyondIsBit(i, side, b);
    SharedSide(a, z, b, lo, hi, side);
  }

  lemma SharedBit(h: Code, u: Code)
    requires h & u != 0
    ensures IsSide(SideOf(h & u)) && h & SideOf(h & u) != 0 && u & SideOf(h & u) != 0
  {
  }

  lemma WholeSegment(a: Pt, z: Pt, b: Bounds)
    ensures InHand(a, z, b, 0.0, 1.0, a, z, BitCode(a, b), BitCode(z, b))
  {
    LerpEnds(a.x, z.x);
    LerpEnds(a.y, z.y);
  }

  class Clipper {
    /** The code of the last segment's end, kept between calls. */
    var lastCode: Code

    constructor () {
      lastCode := 0;
    }

    method ClipSegment(a: Pt, z: Pt, b: Bounds, useLastCode: bool)
      returns (r: Option<(Pt, Pt)>, ghost lo: real, ghost hi: real)
      requires Proper(b) && (useLastCode ==> lastCode == BitCode(a, b))
      modifies this
      ensures lastCode == BitCode(z, b) && Clipped(a, z, b, r, lo, hi)
    {
      var t, i := a, z;
      var h := if useLastCode then lastCode else BitCode(t, b);
      var u := BitCode(i, b);
      lastCode := u;
      lo, hi := 0.0, 1.0;
      WholeSegment(a, z, b);
      while true
        invariant InHand(a, z, b, lo, hi, t, i, h, u) && lastCode == BitCode(z, b)
        decreases Sides(h | u)
      {
        if h | u == 0 {
          NoBits(h, u);
          CodeBits(t, b);
          CodeBits(i, b);
          BothInside(a, z, b, lo, hi);
          return Some((t, i)), lo, hi;
        }
        if h & u != 0 {
          Rejected(a, z, b, lo, hi, t, i, h, u);
          return None, lo, hi;
        }
        var s := if h != 0 then h else u;
        ghost var e := OneCut(a, z, b, lo, hi, t, i, h, u, s);
        var p := EdgePoint(t, i, s, b);
        var c := BitCode(p, b);
        if s == h {
          t, h, lo := p, c, e;
        } else {
          i, u, hi := p, c, e;
        }
      }
    }

    /** Clips the rings of a polyline and strings the visible pieces together: a new part begins
        wherever the line leaves the box.  A path whose own bounds are clear of the box is skipped,
        and one that is not to be clipped keeps its rings. */
    method ClipPoints(rings: seq<seq<Pt>>, pxBounds: Option<Bounds>, noClip: bool, b: Bounds)
      returns (parts: seq<seq<Pt>>, ghost clips: seq<seq<Piece>>)
      requires Proper(b)
      modifies this
      ensures pxBounds.None? || !Meet(pxBounds.value, b) ==> parts == []
      ensures pxBounds.Some? && Meet(pxBounds.value, b) && noClip ==> parts == rings
      ensures pxBounds.Some? && Meet(pxBounds.value, b) && AllInside(rings, b) ==> parts == rings
      ensures HasPoints(rings, pxBounds) && (noClip ==> parts == []) ==>
                && AllClipped(rings, b, clips)
                && Segments(parts) == AllVisible(clips) && |parts| == AllExits(rings, clips)
    {
      parts, clips := [], [];
      if pxBounds.None? || !Meet(pxBounds.value, b) {
        if HasPoints(rings, pxBounds) {
          clips := AllMissed(rings, pxBounds, b);
        }
      } else if noClip {
        parts := rings;
        if parts == [] {
          assert AllClipped(rings, b, clips);
        }
      } else {
        parts, clips := ClipRings(rings, b);
      }
    }

    method ClipRings(rings: seq<seq<Pt>>, b: Bounds) returns (parts: seq<seq<Pt>>, ghost clips: seq<seq<Piece>>)
      requires Proper(b)
      modifies this
      ensures RingsState(rings, b, parts, clips)
      ensures AllInside(rings, b) ==> parts == rings
    {
      parts, clips := [], [];
      for k := 0 to |rings|
        invariant RingsState(rings[..k], b, parts, clips)
        invariant AllInside(rings, b) ==> parts == rings[..k]
      {
        ghost var pieces: seq<Piece>;
        ghost var before := parts;
        parts, pieces := ClipRing(rings[k], b, parts);
        NextRing(rings[..k], rings[k], b, before, clips, parts, pieces);
        OneMoreRing(rings, k);
        clips := clips + [pieces];
      }
      assert rings[..|rings|] == rings;
    }

    /** The inner loop; the code kept from one edge is the code of the next edge's start. */
    method ClipRing(ring: seq<Pt>, b: Bounds, done: seq<seq<Pt>>)
      returns (parts: seq<seq<Pt>>, ghost pieces: seq<Piece>)
      requires Proper(b)
      modifies this
      ensures RingClipped(ring, b, pieces)
      ensures Segments(parts) == Segments(done) + Visible(pieces)
      ensures |parts| == |done| + Exits(ring, pieces)
      ensures |ring| > 1 && RingWithin(ring, Some(b)) ==> parts == done + [ring]
    {
      parts, pieces := done, [];
      // The part being drawn, empty before its first point.
      var part: seq<Pt> := [];
      var e := 0;
      while e < |ring| - 1
        invariant RingState(ring, e, b, done, parts, part, pieces)
        invariant e > 0 ==> lastCode == BitCode(ring[e], b)
        invariant RingWithin(ring, Some(b)) ==> UncutSoFar(ring, e, done, parts, part)
      {
        ghost var next;
        var r;
        r, next := ClipEdge(ring[e], ring[e + 1], b, e > 0);
        NextRingState(ring, e, b, done, parts, part, pieces, next);
        if RingWithin(ring, Some(b)) {
          NextUncut(ring, e, b, done, parts, part, next);
        }
        if r != None {
          part := part + [r.value.0];
          if !(r.value.1 == ring[e + 1] && e != |ring| - 2) {
            parts := parts + [part + [r.value.1]];
            part := [];
          }
        }
        pieces := pieces + [next];
        e := e + 1;
      }
    }

    method ClipEdge(a: Pt, z: Pt, b: Bounds, useLastCode: bool) returns (r: Option<(Pt, Pt)>, ghost piece: Piece)
      requires Proper(b) && (useLastCode ==> lastCode == BitCode(a, b))
      modifies this
      ensures lastCode == BitCode(z, b) && PieceOf(a, z, b, piece) && r == piece.clip
    {
      ghost var lo, hi;
      r, lo, hi := ClipSegment(a, z, b, useLastCode);
      piece := Piece(r, lo, hi);
    }
  }

  /** Every ring is a line that is all inside. */
  ghost predicate AllInside(rings: seq<seq<Pt>>, b: Bounds) {
    forall k :: 0 <= k < |rings| ==> |rings[k]| > 1 && RingWithin(rings[k], Some(b))
  }

  ghost predicate RingsState(rings: seq<seq<Pt>>, b: Bounds, parts: seq<seq<Pt>>, clips: seq<seq<Piece>>) {
    AllClipped(rings, b, clips) && DrawsAll(parts, clips) && |parts| == AllExits(rings, clips)
  }

  /** The parts draw exactly the visible pieces, in order. */
  predicate DrawsAll(parts: seq<seq<Pt>>, clips: seq<seq<Piece>>) {
    Segments(parts) == AllVisible(clips)
  }

  lemma DrawsOn(before: seq<seq<Pt>>, clips: seq<seq<Piece>>, parts: seq<seq<Pt>>, pieces: seq<Piece>)
    requires DrawsAll(before, clips) && Segments(parts) == Segments(before) + Visible(pieces)
    ensures DrawsAll(parts, clips + [pieces])
  {
    AllVisibleAppend(clips, pieces);
  }

  lemma NextRing(rings: seq<seq<Pt>>, ring: seq<Pt>, b: Bounds, before: seq<seq<Pt>>, clips: seq<seq<Piece>>,
                 parts: seq<seq<Pt>>, pieces: seq<Piece>)
    requires RingsState(rings, b, before, clips) && RingClipped(ring, b, pieces)
    requires Segments(parts) == Segments(before) + Visible(pieces) && |parts| == |before| + Exits(ring, pieces)
    ensures RingsState(rings + [ring], b, parts, clips + [pieces])
  {
    DrawsOn(before, clips, parts, pieces);
    AllExitsAppend(rings, ring, clips, pieces);
    AllClippedAppend(rings, ring, b, clips, pieces);
  }

  lemma OneMoreRing(rings: seq<seq<Pt>>, k: nat)
    requires k < |rings|
    ensures rings[..k + 1] == rings[..k] + [rings[k]]
  {
  }

  lemma AllExitsAppend(rings: seq<seq<Pt>>, ring: seq<Pt>, clips: seq<seq<Piece>>, pieces: seq<Piece>)
    requires |rings| == |clips|
    ensures AllExits(rings + [ring], clips + [pieces]) == AllExits(rings, clips) + Exits(ring, pieces)
  {
    assert (rings + [ring])[..|rings|] == rings && (clips + [pieces])[..|clips|] == clips;
  }

  lemma AllClippedAppend(rings: seq<seq<Pt>>, ring: seq<Pt>, b: Bounds, clips: seq<seq<Piece>>, pieces: seq<Piece>)
    requires AllClipped(rings, b, clips) && RingClipped(ring, b, pieces)
    ensures AllClipped(rings + [ring], b, clips + [pieces])
  {
    var rings', clips' := rings + [ring], clips + [pieces];
    forall k | 0 <= k < |rings'| ensures RingClipped(rings'[k], b, clips'[k]) {
      if k < |rings| {
        assert rings'[k] == rings[k] && clips'[k] == clips[k];
      }
    }
  }

  /** Of a ring that is all inside, everything up to position `e` is in hand, and in the end it is one
      part, as it was. */
  predicate UncutSoFar(ring: seq<Pt>, e: int, done: seq<seq<Pt>>, parts: seq<seq<Pt>>, part: seq<Pt>) {
    if e == |ring| - 1 > 0 then parts == done + [ring] && part == []
    else 0 <= e <= |ring| && parts == done && part == ring[..e]
  }

  lemma NextUncut(ring: seq<Pt>, e: int, b: Bounds, done: seq<seq<Pt>>, parts: seq<seq<Pt>>, part: seq<Pt>, next: Piece)
    requires 0 <= e < |ring| - 1 && RingWithin(ring, Some(b)) && UncutSoFar(ring, e, done, parts, part)
    requires PieceOf(ring[e], ring[e + 1], b, next)
    ensures var (parts', part') := AddEdge(parts, part, next.clip, ring[e + 1], e == |ring| - 2);
            UncutSoFar(ring, e + 1, done, parts', part')
  {
    assert ring[e] in ring && ring[e + 1] in ring;
    ClipEnds(ring[e], ring[e + 1], b, next.clip, next.lo, next.hi);
    assert part + [ring[e]] == ring[..e + 1];
    if e == |ring| - 2 {
      assert part + [ring[e]] + [ring[e + 1]] == ring;
    }
  }

  // ----- paths clear of the box -----

  /** The test by which Leaflet tells whether two boxes meet. */
  predicate Meet(p: Bounds, q: Bounds) {
    q.max.x >= p.min.x && q.min.x <= p.max.x && q.max.y >= p.min.y && q.min.y <= p.max.y
  }

  /** The path's bounds, if it has any, have all its points. */
  ghost predicate HasPoints(rings: seq<seq<Pt>>, px: Option<Bounds>) {
    forall k :: 0 <= k < |rings| ==> RingWithin(rings[k], px)
  }

  ghost predicate RingWithin(ring: seq<Pt>, px: Option<Bounds>) {
    forall p :: p in ring ==> px.Some? && Inside(p, px.value)
  }

  /** The smallest box with `p` and everything in `box`. */
  function Extended(box: Option<Bounds>, p: Pt): (r: Option<Bounds>)
    ensures r.Some? && Inside(p, r.value)
    ensures forall q :: box.Some? && Inside(q, box.value) ==> Inside(q, r.value)
  {
    match box
    case None => Some(Bounds(p, p))
    case Some(b) => Some(Bounds(Pt(Min(b.min.x, p.x), Min(b.min.y, p.y)), Pt(Max(b.max.x, p.x), Max(b.max.y, p.y))))
  }

  function Min(x: real, y: real): real {
    if x <= y then x else y
  }

  function Max(x: real, y: real): real {
    if x >= y then x else y
  }

  /** The path's own bounds: all its points, padded by the click tolerance. */
  method PxBounds(rings: seq<seq<Pt>>, tolerance: real) returns (px: Option<Bounds>)
    requires tolerance >= 0.0
    ensures HasPoints(rings, px)
    ensures px.None? <==> forall k :: 0 <= k < |rings| ==> rings[k] == []
    ensures px.Some? ==> PaddedBy(rings, tolerance, px.value)
  {
    var raw: Option<Bounds> := None;
    for k := 0 to |rings|
      invariant HasPoints(rings[..k], raw)
      invariant raw.None? <==> forall j :: 0 <= j < k ==> rings[j] == []
      invariant raw.Some? ==> Touched(rings, raw.value)
    {
      for n := 0 to |rings[k]|
        invariant HasPoints(rings[..k], raw) && RingWithin(rings[k][..n], raw)
        invariant raw.None? <==> (n == 0 || rings[k] == []) && forall j :: 0 <= j < k ==> rings[j] == []
        invariant raw.Some? ==> Touched(rings, raw.value)
      {
        assert HasPoint(rings, rings[k][n]);
        StillTouched(rings, raw, rings[k][n]);
        raw := Extended(raw, rings[k][n]);
      }
    }
    if raw == None {
      return None;
    }
    var b := raw.value;
    px := Some(Bounds(Pt(b.min.x - tolerance, b.min.y - tolerance), Pt(b.max.x + tolerance, b.max.y + tolerance)));
    assert rings[..|rings|] == rings;
    Padded(rings, b, tolerance);
  }

  predicate HasPoint(rings: seq<seq<Pt>>, p: Pt) {
    exists k :: 0 <= k < |rings| && p in rings[k]
  }

  /** There is a point on each side of the box. */
  ghost predicate Touched(rings: seq<seq<Pt>>, b: Bounds) {
    && (exists p :: HasPoint(rings, p) && p.x == b.min.x) && (exists p :: HasPoint(rings, p) && p.x == b.max.x)
    && (exists p :: HasPoint(rings, p) && p.y == b.min.y) && (exists p :: HasPoint(rings, p) && p.y == b.max.y)
  }

  lemma StillTouched(rings: seq<seq<Pt>>, box: Option<Bounds>, p: Pt)
    requires HasPoint(rings, p) && (box.Some? ==> Touched(rings, box.value))
    ensures Touched(rings, Extended(box, p).value)
  {
  }

  /** Without the padding the box is the smallest with all points. */
  ghost predicate PaddedBy(rings: seq<seq<Pt>>, tolerance: real, px: Bounds) {
    var inner := Bounds(Pt(px.min.x + tolerance, px.min.y + tolerance), Pt(px.max.x - tolerance, px.max.y - tolerance));
    HasPoints(rings, Some(inner)) && Touched(rings, inner)
  }

  lemma Padded(rings: seq<seq<Pt>>, b: Bounds, tolerance: real)
    requires HasPoints(rings, Some(b)) && Touched(rings, b) && tolerance >= 0.0
    ensures var px := Bounds(Pt(b.min.x - tolerance, b.min.y - tolerance),
            Pt(b.max.x + tolerance, b.max.y + tolerance));
            HasPoints(rings, Some(px)) && PaddedBy(rings, tolerance, px)
  {
    var px := Bounds(Pt(b.min.x - tolerance, b.min.y - tolerance), Pt(b.max.x + tolerance, b.max.y + tolerance));
    forall k | 0 <= k < |rings| ensures RingWithin(rings[k], Some(px)) {
      assert RingWithin(rings[k], Some(b));
    }
  }

  lemma ClearEdge(a: Pt, z: Pt, px: Bounds, b: Bounds)
    requires Inside(a, px) && Inside(z, px) && !Meet(px, b)
    ensures PieceOf(a, z, b, Piece(None, 0.0, 0.0))
  {
    LerpEnds(a.x, z.x);
    LerpEnds(a.y, z.y);
    forall t | 0.0 <= t <= 1.0 ensures !Inside(At(a, z, t), b) {
      LerpBetween(a.x, z.x, 0.0, t, 1.0);
      LerpBetween(a.y, z.y, 0.0, t, 1.0);
    }
  }

  lemma {:induction false} NothingVisible(ring: seq<Pt>, pieces: seq<Piece>)
    requires forall p :: p in pieces ==> p.clip == None
    ensures Visible(pieces) == [] && Exits(ring, pieces) == 0
  {
    if pieces == [] {
    } else {
      NothingVisible(ring, pieces[..|pieces| - 1]);
    }
  }

  lemma RingMissed(ring: seq<Pt>, px: Option<Bounds>, b: Bounds) returns (pieces: seq<Piece>)
    requires RingWithin(ring, px) && (px.None? || !Meet(px.value, b))
    ensures RingClipped(ring, b, pieces) && Visible(pieces) == [] && Exits(ring, pieces) == 0
  {
    pieces := seq(if ring == [] then 0 else |ring| - 1, i => Piece(None, 0.0, 0.0));
    forall j | 0 <= j < |pieces| ensures PieceOf(ring[j], ring[j + 1], b, pieces[j]) {
      assert ring[j] in ring && ring[j + 1] in ring;
      ClearEdge(ring[j], ring[j + 1], px.value, b);
    }
    NothingVisible(ring, pieces);
  }

  /** Skipping such a path does not show: no part of it is in the box. */
  lemma {:induction false} AllMissed(rings: seq<seq<Pt>>, px: Option<Bounds>, b: Bounds)
    returns (clips: seq<seq<Piece>>)
    requires HasPoints(rings, px) && (px.None? || !Meet(px.value, b))
    ensures AllClipped(rings, b, clips) && AllVisible(clips) == [] && AllExits(rings, clips) == 0
  {
    if rings == [] {
      clips := [];
    } else {
      var n := |rings| - 1;
      var before := AllMissed(rings[..n], px, b);
      var pieces := RingMissed(rings[n], px, b);
      AllVisibleAppend(before, pieces);
      clips := before + [pieces];
      assert clips[..n] == before;
    }
  }

  ghost predicate AllClipped(rings: seq<seq<Pt>>, b: Bounds, clips: seq<seq<Piece>>) {
    |clips| == |rings| && forall k :: 0 <= k < |rings| ==> RingClipped(rings[k], b, clips[k])
  }

  ghost predicate ClippedUpTo(ring: seq<Pt>, n: nat, b: Bounds, pieces: seq<Piece>)
    requires n == 0 || n < |ring|
  {
    |pieces| == n && forall j :: 0 <= j < n ==> PieceOf(ring[j], ring[j + 1], b, pieces[j])
  }

  /** What an edge adds to the parts. */
  function AddEdge(parts: seq<seq<Pt>>, part: seq<Pt>, r: Option<(Pt, Pt)>, z: Pt, last: bool)
    : (seq<seq<Pt>>, seq<Pt>)
  {
    if r == None then (parts, part)
    else if r.value.1 == z && !last then (parts, part + [r.value.0])
    else (parts + [part + [r.value.0] + [r.value.1]], [])
  }

  lemma EdgeDrawn(parts: seq<seq<Pt>>, part: seq<Pt>, a: Pt, z: Pt, b: Bounds, piece: Piece, last: bool)
    requires PieceOf(a, z, b, piece) && (part != [] ==> Inside(a, b))
    ensures var r := piece.clip;
            var (parts', part') := AddEdge(parts, part, r, z, last);
            && Drawn(parts', part', z) == Drawn(parts, part, a) + (if r == None then [] else [r.value])
            && (part' != [] ==> !last && Inside(z, b))
  {
    ClipEnds(a, z, b, piece.clip, piece.lo, piece.hi);
    if piece.clip != None {
      var (p, q) := piece.clip.value;
      DrawOn(parts, part, a, p, q);
      ClosePart(parts, part + [p], q, z);
    }
  }

  /** Where the inner loop stands before edge `e`. */
  ghost predicate RingState(ring: seq<Pt>, e: int, b: Bounds, done: seq<seq<Pt>>, parts: seq<seq<Pt>>, part: seq<Pt>,
                            pieces: seq<Piece>) {
    if ring == [] then e == 0 && pieces == [] && parts == done
    else
      && 0 <= e < |ring| && ClippedUpTo(ring, e, b, pieces)
      && (part != [] ==> 0 < e < |ring| - 1 && Inside(ring[e], b))
      && Drawn(parts, part, ring[e]) == Segments(done) + Visible(pieces)
      && |parts| == |done| + Exits(ring, pieces)
  }

  lemma NextRingState(ring: seq<Pt>, e: int, b: Bounds, done: seq<seq<Pt>>, parts: seq<seq<Pt>>, part: seq<Pt>,
                      pieces: seq<Piece>, next: Piece)
    requires 0 <= e < |ring| - 1 && RingState(ring, e, b, done, parts, part, pieces)
             && PieceOf(ring[e], ring[e + 1], b, next)
    ensures var (parts', part') := AddEdge(parts, part, next.clip, ring[e + 1], e == |ring| - 2);
            RingState(ring, e + 1, b, done, parts', part', pieces + [next])
  {
    VisibleAppend(pieces, next);
    ExitsAppend(ring, pieces, next);
    EdgeDrawn(parts, part, ring[e], ring[e + 1], b, next, e == |ring| - 2);
  }

  /** Everything drawn once the pending part, if there is one, has reached `here`. */
  function Drawn(parts: seq<seq<Pt>>, part: seq<Pt>, here: Pt): seq<(Pt, Pt)> {
    if part == [] then Segments(parts) else Segments(parts) + PartSegments(part) + [(Last(part), here)]
  }

  lemma DrawOn(parts: seq<seq<Pt>>, part: seq<Pt>, here: Pt, p: Pt, q: Pt)
    requires part != [] ==> p == here
    ensures Drawn(parts, part + [p], q) == Drawn(parts, part, here) + [(p, q)]
  {
    if part != [] {
      PartAppend(part, p);
    }
  }

  lemma ClosePart(parts: seq<seq<Pt>>, part: seq<Pt>, q: Pt, next: Pt)
    requires part != []
    ensures Drawn(parts + [part + [q]], [], next) == Drawn(parts, part, q)
  {
    SegmentsAppend(parts, part + [q]);
    PartAppend(part, q);
  }

  /** What clipping one edge gave, and the parameters it stands for. */
  datatype Piece = Piece(clip: Option<(Pt, Pt)>, lo: real, hi: real)

  ghost predicate PieceOf(a: Pt, z: Pt, b: Bounds, p: Piece) {
    Clipped(a, z, b, p.clip, p.lo, p.hi)
  }

  ghost predicate RingClipped(ring: seq<Pt>, b: Bounds, pieces: seq<Piece>) {
    ClippedUpTo(ring, if ring == [] then 0 else |ring| - 1, b, pieces)
  }

  /** The visible pieces, in order. */
  function Visible(pieces: seq<Piece>): seq<(Pt, Pt)> {
    if pieces == [] then []
    else
      var last := pieces[|pieces| - 1];
      Visible(pieces[..|pieces| - 1]) + if last.clip == None then [] else [last.clip.value]
  }

  /** How many visible pieces the line does not continue from: it leaves the box there, or ends. */
  function Exits(ring: seq<Pt>, pieces: seq<Piece>): nat {
    if pieces == [] then 0
    else
      var e := |pieces| - 1;
      var leaves := pieces[e].clip != None && (e >= |ring| - 2 || pieces[e].clip.value.1 != ring[e + 1]);
      Exits(ring, pieces[..e]) + if leaves then 1 else 0
  }

  lemma ExitsAppend(ring: seq<Pt>, pieces: seq<Piece>, p: Piece)
    requires |pieces| + 1 < |ring|
    ensures var leaves := p.clip != None && (p.clip.value.1 != ring[|pieces| + 1] || |pieces| == |ring| - 2);
            Exits(ring, pieces + [p]) == Exits(ring, pieces) + if leaves then 1 else 0
  {
    assert (pieces + [p])[..|pieces|] == pieces;
  }

  function AllExits(rings: seq<seq<Pt>>, clips: seq<seq<Piece>>): nat
    requires |rings| == |clips|
  {
    if rings == [] then 0
    else AllExits(rings[..|rings| - 1], clips[..|clips| - 1]) + Exits(rings[|rings| - 1], clips[|clips| - 1])
  }

  function AllVisible(clips: seq<seq<Piece>>): seq<(Pt, Pt)> {
    if clips == [] then [] else AllVisible(clips[..|clips| - 1]) + Visible(clips[|clips| - 1])
  }

  function Last<T>(s: seq<T>): T
    requires s != []
  {
    s[|s| - 1]
  }

  /** The segments a part draws, and those that all parts draw. */
  function PartSegments(part: seq<Pt>): seq<(Pt, Pt)> {
    if |part| < 2 then [] else PartSegments(part[..|part| - 1]) + [(part[|part| - 2], part[|part| - 1])]
  }

  function Segments(parts: seq<seq<Pt>>): seq<(Pt, Pt)> {
    if parts == [] then [] else Segments(parts[..|parts| - 1]) + PartSegments(Last(parts))
  }

  lemma VisibleAppend(pieces: seq<Piece>, p: Piece)
    ensures Visible(pieces + [p]) == Visible(pieces) + (if p.clip == None then [] else [p.clip.value])
  {
    assert (pieces + [p])[..|pieces|] == pieces;
  }

  lemma AllVisibleAppend(clips: seq<seq<Piece>>, pieces: seq<Piece>)
    ensures AllVisible(clips + [pieces]) == AllVisible(clips) + Visible(pieces)
  {
    assert (clips + [pieces])[..|clips|] == clips;
  }

  lemma SegmentsAppend(parts: seq<seq<Pt>>, part: seq<Pt>)
    ensures Segments(parts + [part]) == Segments(parts) + PartSegments(part)
  {
    assert (parts + [part])[..|parts|] == parts;
  }

  lemma PartAppend(part: seq<Pt>, p: Pt)
    requires part != []
    ensures PartSegments(part + [p]) == PartSegments(part) + [(Last(part), p)]
  {
    assert (part + [p])[..|part|] == part;
  }

  /** An end of the edge that is inside is an end of the piece, unchanged. */
  lemma ClipEnds(a: Pt, z: Pt, b: Bounds, r: Option<(Pt, Pt)>, lo: real, hi: real)
    requires Clipped(a, z, b, r, lo, hi)
    ensures Inside(a, b) ==> r != None && r.value.0 == a
    ensures Inside(z, b) ==> r != None && r.value.1 == z
    ensures r != None ==> Inside(r.value.1, b)
  {
    LerpEnds(a.x, z.x);
    LerpEnds(a.y, z.y);
    assert At(a, z, 0.0) == a && At(a, z, 1.0) == z;
  }

  lemma NoBits(h: Code, u: Code)
    requires h | u == 0
    ensures h == 0 && u == 0
  {
  }

  /** So what comes back is, as a set of points, the segment within the box. */
  lemma ClippedIsVisible(a: Pt, z: Pt, b: Bounds, p: Pt, q: Pt, lo: real, hi: real, v: Pt)
    requires Clipped(a, z, b, Some((p, q)), lo, hi)
    ensures (exists t :: 0.0 <= t <= 1.0 && v == At(a, z, t) && Inside(v, b)) <==>
            (exists l :: 0.0 <= l <= 1.0 && v == At(p, q, l))
  {
    if exists t :: 0.0 <= t <= 1.0 && v == At(a, z, t) && Inside(v, b) {
      var t :| 0.0 <= t <= 1.0 && v == At(a, z, t) && Inside(v, b);
      var l := if lo == hi then 0.0 else Crossing(lo, hi, t);
      if lo == hi {
        LerpEnds(lo, hi);
      } else {
        CrossingIs(lo, hi, t);
      }
      AtAt(a, z, lo, hi, l);
      assert v == At(p, q, l);
    }
    if exists l :: 0.0 <= l <= 1.0 && v == At(p, q, l) {
      var l :| 0.0 <= l <= 1.0 && v == At(p, q, l);
      AtAt(a, z, lo, hi, l);
      LerpWithin(lo, hi, l);
      assert v == At(a, z, Lerp(lo, hi, l));
    }
  }
}
