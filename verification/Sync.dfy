/** The incremental protocol between server and viewer: what a polling viewer ends up with. */
module Sync {
  import opened Wrappers
  import opened Records
  import opened Trail
  import opened Viewer

  // ----- one list -----

  /** How the viewer reads a point: clear fields as they are, encrypted ones through its key. */
  type Decryption = Point -> TrailPoint

  function ReadPoint(p: Point, dec: Decryption): TrailPoint {
    if p.Plain? then TrailPoint(p.lat, p.lon, p.time, p.spd, p.acc) else dec(p)
  }

  function ReadAll(pts: seq<Point>, dec: Decryption): (r: seq<TrailPoint>)
    ensures |r| == |pts|
  {
    if pts == [] then [] else ReadAll(pts[..|pts| - 1], dec) + [ReadPoint(pts[|pts| - 1], dec)]
  }

  lemma {:induction false} ReadConcat(a: seq<Point>, b: seq<Point>, dec: Decryption)
    ensures ReadAll(a + b, dec) == ReadAll(a, dec) + ReadAll(b, dec)
  {
    if b == [] {
      assert a + b == a;
    } else {
      ReadConcat(a, b[..|b| - 1], dec);
      assert (a + b)[..|a + b| - 1] == a + b[..|b| - 1];
    }
  }

  /** A list of a group response, and all of them. */
  function ReadSlice(list: Slice<Point>, dec: Decryption): Slice<TrailPoint> {
    match list
    case Nil => Nil
    case Items(pts) => Items(ReadAll(pts, dec))
  }

  function ReadLists(lists: map<string, Slice<Point>>, dec: Decryption): map<string, Slice<TrailPoint>> {
    map n | n in lists :: ReadSlice(lists[n], dec)
  }

  /** Filtering on the server, then reading, is reading, then filtering. */
  lemma {:induction false} ReadNewer(pts: seq<Point>, since: real, dec: Decryption)
    requires forall p :: p in pts ==> p.Plain?
    ensures ReadAll(Newer(pts, since), dec) == After(ReadAll(pts, dec), since)
  {
    if pts == [] {
    } else {
      var init := pts[..|pts| - 1];
      ReadNewer(init, since, dec);
      ReadConcat(Newer(init, since), [pts[|pts| - 1]], dec);
      assert ReadAll(pts, dec)[..|pts| - 1] == ReadAll(init, dec);
    }
  }

  /** What the server sends for `since`, on the viewer's side. */
  function Sent(pts: seq<TrailPoint>, since: real): seq<TrailPoint> {
    if since <= 0.0 then pts else After(pts, since)
  }

  // ----- one update, any number of users -----

  /** For every user with a trail, the list cut off at the common `since` gives the same trail
      as the whole list. */
  lemma IncrementalEqualsFull(shares: map<string, seq<TrailPoint>>, since: real, u: string, full: seq<TrailPoint>)
    requires IsOldestNewest(shares, shares.Keys, since)
    requires u in shares && shares[u] != []
    ensures Merge(shares[u], Sent(full, since)) == Merge(shares[u], full)
  {
    FilteredMerge(shares[u], full, since);
  }

  /** For a user without a trail it does so exactly when the oldest point is newer than `since`. */
  lemma {:induction false} NewcomerEqualsFull(full: seq<TrailPoint>, since: real)
    ensures Merge([], Sent(full, since)) == Merge([], full) <==> since <= 0.0 || full == [] || full[0].time > since
  {
    if since > 0.0 && full != [] {
      FirstIsKept(full);
      if full[0].time > since {
        NewerThanSince(full, since);
      } else {
        AfterIsAfter(full, since);
        MergeFindsMaxima(After(full, since));
        MaximaIncrease(After(full, since));
        assert Merge([], full)[0] == full[0];
        assert forall q :: q in Merge([], After(full, since)) ==> q.time > since;
      }
    }
  }

  lemma {:induction false} AfterIsAfter(pts: seq<TrailPoint>, since: real)
    ensures forall q :: q in After(pts, since) ==> q.time > since
  {
    if pts == [] {
    } else {
      AfterIsAfter(pts[..|pts| - 1], since);
    }
  }

  lemma {:induction false} FirstIsKept(pts: seq<TrailPoint>)
    requires pts != []
    ensures Merge([], pts) != [] && Merge([], pts)[0] == pts[0]
  {
    if |pts| == 1 {
    } else {
      FirstIsKept(pts[..|pts| - 1]);
    }
  }

  lemma {:induction false} NewerThanSince(pts: seq<TrailPoint>, since: real)
    requires pts != [] && pts[0].time > since
    ensures Merge([], After(pts, since)) == Merge([], pts)
    ensures After(pts, since) != [] && Merge([], pts) != [] && Newest(Merge([], pts)) > since
  {
    if |pts| > 1 {
      var init, p := pts[..|pts| - 1], pts[|pts| - 1];
      NewerThanSince(init, since);
      if p.time > since {
        assert (After(init, since) + [p])[..|After(init, since)|] == After(init, since);
      }
    } else {
      assert pts[..0] == [];
      assert After(pts, since) == [pts[0]];
    }
  }

  // ----- one poll -----

  /** What the viewer asks for, with a single user. */
  function SinceOf(trail: seq<TrailPoint>): real {
    if trail == [] then 0.0 else if Newest(trail) < NUMBER_MAX_VALUE then Newest(trail) else NUMBER_MAX_VALUE
  }

  /** For a single user this is the `since` the viewer computes. */
  lemma SinceOfSingle(trail: seq<TrailPoint>, since: real)
    requires IsOldestNewest(map["" := trail], {""}, since)
    ensures since == SinceOf(trail)
  {
    assert map["" := trail][""] == trail;
  }

  /** Nothing in `seen` is newer than the newest of `b`. */
  ghost predicate Settled(b: seq<TrailPoint>, seen: seq<TrailPoint>) {
    forall q :: q in seen ==> Reached(b, q.time)
  }

  predicate Reached(b: seq<TrailPoint>, time: real) {
    exists p :: p in b && time <= p.time
  }

  /** The server's window after the history `h + d` of which the viewer has merged `h`: with at
      most as many new points as the window holds, the next update catches up completely. */
  lemma {:induction false} CatchUp(maxPoints: nat, maxPts: nat, h: seq<TrailPoint>, d: seq<TrailPoint>)
    requires maxPoints > 0 && |d| <= maxPts
    ensures var trail := LastN(maxPoints, Maxima(h));
            var window := LastN(maxPts, h + d);
            && Update(maxPoints, trail, window) == LastN(maxPoints, Maxima(h + d))
            && Update(maxPoints, trail, Sent(window, SinceOf(trail))) == LastN(maxPoints, Maxima(h + d))
  {
    forall q | q in LastN(maxPts, h) ensures Reached(h, q.time) {
    }
    CatchUpFrom(maxPoints, maxPts, h, h, d, 0.0);
    CatchUpFrom(maxPoints, maxPts, h, h, d, SinceOf(LastN(maxPoints, Maxima(h))));
  }

  /** The same for a viewer that has merged `b` in place of `h`, as long as that settles what it
      has missed, and for any `since` its trail has reached. */
  lemma {:induction false} CatchUpFrom(maxPoints: nat, maxPts: nat, b: seq<TrailPoint>, h: seq<TrailPoint>,
                                       d: seq<TrailPoint>, since: real)
    requires maxPoints > 0 && |d| <= maxPts && Settled(b, LastN(maxPts, h))
    requires var trail := LastN(maxPoints, Maxima(b)); since <= 0.0 || (trail != [] && since <= Newest(trail))
    ensures Update(maxPoints, LastN(maxPoints, Maxima(b)), Sent(LastN(maxPts, h + d), since)) ==
            LastN(maxPoints, Maxima(b + d))
  {
    var trail := LastN(maxPoints, Maxima(b));
    var window := LastN(maxPts, h + d);
    WindowMerge(maxPts, b, h, d);
    UpdatePruned(maxPoints, Maxima(b), window);
    if since > 0.0 {
      FilteredMerge(trail, window, since);
    }
  }

  /** Whatever a filter lets through settles what it drops. */
  lemma SentSettles(window: seq<TrailPoint>, since: real)
    requires Sent(window, since) != []
    ensures Settled(Sent(window, since), window)
  {
    var sent := Sent(window, since);
    if since > 0.0 {
      AfterIsAfter(window, since);
      AfterKeepsNewer(window, since);
    }
    forall q | q in window ensures Reached(sent, q.time) {
      assert q in sent || q.time <= sent[0].time;
    }
  }

  lemma {:induction false} AfterKeepsNewer(pts: seq<TrailPoint>, since: real)
    ensures forall q :: q in pts && q.time > since ==> q in After(pts, since)
  {
    if pts == [] {
    } else {
      AfterKeepsNewer(pts[..|pts| - 1], since);
      assert pts == pts[..|pts| - 1] + [pts[|pts| - 1]];
    }
  }

  lemma SettledOnwards(n: nat, b: seq<TrailPoint>, h: seq<TrailPoint>, d: seq<TrailPoint>)
    requires Settled(b, LastN(n, h))
    ensures Settled(b + d, LastN(n, h + d))
  {
    var w := LastN(n, h + d);
    forall q | q in w ensures Reached(b + d, q.time) {
      var i :| 0 <= i < |w| && w[i] == q;
      var k := |h| + |d| - |w| + i;
      assert (h + d)[k] == q;
      if k < |h| {
        assert LastN(n, h)[k - (|h| - |LastN(n, h)|)] == q;
        assert Reached(b, q.time);
      } else {
        assert q in d;
      }
    }
  }

  lemma SettledChangesNothing(b: seq<TrailPoint>, seen: seq<TrailPoint>)
    requires Settled(b, seen)
    ensures Merge(Maxima(b), seen) == Maxima(b)
  {
    if seen == [] {
    } else {
      assert Reached(b, seen[0].time);
      LastMaximum(b);
      forall i | 0 <= i < |seen| ensures seen[i].time <= Newest(Maxima(b)) {
        assert Reached(b, seen[i].time);
      }
      MergeOldPoints(Maxima(b), seen);
    }
  }

  lemma MaximaOnwards(h: seq<TrailPoint>, d: seq<TrailPoint>)
    ensures Merge(Maxima(h), d) == Maxima(h + d)
  {
    MergeFindsMaxima(h);
    MergeFindsMaxima(h + d);
    MergeConcat([], h, d);
  }

  /** A window at least as long as `d` starts within `h`, no earlier than the window on `h`. */
  lemma WindowIs(maxPts: nat, h: seq<TrailPoint>, d: seq<TrailPoint>) returns (k: nat)
    requires |d| <= maxPts
    ensures k <= |h| && LastN(maxPts, h + d) == h[k..] + d
    ensures forall q :: q in h[k..] ==> q in LastN(maxPts, h)
  {
    k := |h| + |d| - |LastN(maxPts, h + d)|;
    var w := LastN(maxPts, h);
    assert h[k..] == w[|w| - (|h| - k)..];
  }

  /** Merging the window into the maxima of `b` gives the maxima of everything. */
  lemma WindowMerge(maxPts: nat, b: seq<TrailPoint>, h: seq<TrailPoint>, d: seq<TrailPoint>)
    requires |d| <= maxPts && Settled(b, LastN(maxPts, h))
    ensures Merge(Maxima(b), LastN(maxPts, h + d)) == Maxima(b + d)
  {
    var k := WindowIs(maxPts, h, d);
    MergeConcat(Maxima(b), h[k..], d);
    SettledChangesNothing(b, h[k..]);
    MaximaOnwards(b, d);
  }

  /** One post more than the window holds, and a whole trail can be missed, for every window
      and every trail length. */
  lemma CatchUpIsTight(maxPoints: nat, maxPts: nat) returns (d: seq<TrailPoint>)
    requires maxPoints > 0
    ensures |d| == maxPts + 1
    ensures Update(maxPoints, [], LastN(maxPts, d)) != LastN(maxPoints, Maxima(d))
  {
    var late, early := TrailPoint(0.0, 0.0, 2.0, None, None), TrailPoint(0.0, 0.0, 1.0, None, None);
    var rest := seq(maxPts, i => early);
    d := [late] + rest;
    assert LastN(maxPts, d) == rest;
    MergeFindsMaxima(d);
    MergeFindsMaxima(rest);
    MaximaIncrease(rest);
    FirstIsKept(d);
    MergeConcat([], [late], rest);
    assert Merge([], [late]) == [late] by { assert [late][..0] == []; }
    MergeOldPoints([late], rest);
    assert late !in Merge([], rest);
  }
}
