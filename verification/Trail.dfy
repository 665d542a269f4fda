/** Trails of the map viewer (frontend/main.js): merging points by strictly increasing time,
    and what that computes. */
module Trail {
  import opened Wrappers

  datatype TrailPoint = TrailPoint(lat: real, lon: real, time: real, spd: Option<real>, acc: Option<real>)

  /** Adds points one by one, each only if it is newer than the newest so far. */
  function Merge(trail: seq<TrailPoint>, pts: seq<TrailPoint>): seq<TrailPoint> {
    if pts == [] then trail
    else
      var t := Merge(trail, pts[..|pts| - 1]);
      var p := pts[|pts| - 1];
      if t == [] || p.time > t[|t| - 1].time then t + [p] else t
  }

  /** One update of a user's trail, pruned to the configured length. */
  function Update(maxPoints: nat, trail: seq<TrailPoint>, pts: seq<TrailPoint>): seq<TrailPoint> {
    LastN(maxPoints, Merge(trail, pts))
  }

  predicate NewerThanAll(p: TrailPoint, before: seq<TrailPoint>) {
    forall i :: 0 <= i < |before| ==> before[i].time < p.time
  }

  /** The strict left-to-right maxima of a history: the points newer than everything before them. */
  function Maxima(h: seq<TrailPoint>): seq<TrailPoint> {
    if h == [] then []
    else
      var init, p := h[..|h| - 1], h[|h| - 1];
      if NewerThanAll(p, init) then Maxima(init) + [p] else Maxima(init)
  }

  predicate Increasing(t: seq<TrailPoint>) {
    forall i, j :: 0 <= i < j < |t| ==> t[i].time < t[j].time
  }

  /** The last maximum is the newest point of all. */
  lemma {:induction false} LastMaximum(h: seq<TrailPoint>)
    requires h != []
    ensures Maxima(h) != [] && Maxima(h)[|Maxima(h)| - 1] in h
    ensures forall i :: 0 <= i < |h| ==> h[i].time <= Maxima(h)[|Maxima(h)| - 1].time
  {
    var init, p := h[..|h| - 1], h[|h| - 1];
    assert forall i :: 0 <= i < |init| ==> h[i] == init[i];
    if init == [] {
    } else {
      LastMaximum(init);
      assert exists i :: 0 <= i < |init| && init[i] == Maxima(init)[|Maxima(init)| - 1];
    }
  }

  lemma {:induction false} MaximaIncrease(h: seq<TrailPoint>)
    ensures Increasing(Maxima(h))
    ensures forall q :: q in Maxima(h) ==> q in h
  {
    if h == [] {
    } else {
      var init := h[..|h| - 1];
      MaximaIncrease(init);
      if init != [] {
        LastMaximum(init);
      }
    }
  }

  /** Merging from nothing finds exactly the maxima. */
  lemma {:induction false} MergeFindsMaxima(h: seq<TrailPoint>)
    ensures Merge([], h) == Maxima(h)
  {
    if h == [] {
    } else {
      var init := h[..|h| - 1];
      MergeFindsMaxima(init);
      if init != [] {
        LastMaximum(init);
      }
    }
  }

  lemma {:induction false} MergeConcat(t: seq<TrailPoint>, a: seq<TrailPoint>, b: seq<TrailPoint>)
    ensures Merge(t, a + b) == Merge(Merge(t, a), b)
  {
    if b == [] {
      assert a + b == a;
    } else {
      MergeConcat(t, a, b[..|b| - 1]);
      assert (a + b)[..|a + b| - 1] == a + b[..|b| - 1];
    }
  }

  /** Points no newer than the newest one change nothing. */
  lemma {:induction false} MergeOldPoints(t: seq<TrailPoint>, pts: seq<TrailPoint>)
    requires pts == [] || (t != [] && forall i :: 0 <= i < |pts| ==> pts[i].time <= t[|t| - 1].time)
    ensures Merge(t, pts) == t
  {
    if pts == [] {
    } else {
      MergeOldPoints(t, pts[..|pts| - 1]);
    }
  }

  /** Only the newest point of the trail matters to a merge. */
  lemma {:induction false} MergeKeepsPrefix(pre: seq<TrailPoint>, t: seq<TrailPoint>, pts: seq<TrailPoint>)
    requires t != [] || pre == []
    ensures Merge(pre + t, pts) == pre + Merge(t, pts)
  {
    if pre == [] {
      assert pre + t == t;
      assert pre + Merge(t, pts) == Merge(t, pts);
    } else if pts == [] {
    } else {
      var init, p := pts[..|pts| - 1], pts[|pts| - 1];
      MergeKeepsPrefix(pre, t, init);
      MergeReaches(t, init);
      PassedKeepsPrefix(pre, Merge(t, init), p);
    }
  }

  lemma {:induction false} MergeGrows(t: seq<TrailPoint>, pts: seq<TrailPoint>)
    ensures |Merge(t, pts)| >= |t|
  {
    if pts == [] {
    } else {
      MergeGrows(t, pts[..|pts| - 1]);
    }
  }

  lemma PassedKeepsPrefix(pre: seq<TrailPoint>, t: seq<TrailPoint>, p: TrailPoint)
    requires t != []
    ensures (pre + t)[|pre + t| - 1] == t[|t| - 1]
    ensures (pre + t) + [p] == pre + (t + [p])
  {
  }

  lemma {:induction false} MergedFrom(t: seq<TrailPoint>, pts: seq<TrailPoint>)
    ensures forall p :: p in Merge(t, pts) ==> p in t || p in pts
  {
    if pts == [] {
    } else {
      MergedFrom(t, pts[..|pts| - 1]);
    }
  }

  /** A point newer than everything shown and everything listed before it ends the trail. */
  lemma NewestIsLast(maxPoints: nat, t: seq<TrailPoint>, pts: seq<TrailPoint>, p: TrailPoint)
    requires maxPoints > 0 && forall q :: q in t || q in pts ==> q.time < p.time
    ensures var shown := Update(maxPoints, t, pts + [p]); shown != [] && shown[|shown| - 1] == p
  {
    MergedFrom(t, pts);
    assert (pts + [p])[..|pts|] == pts;
    var before := Merge(t, pts);
    assert before != [] ==> before[|before| - 1] in before;
  }

  /** So pruning before a merge does not show after it. */
  lemma UpdatePruned(maxPoints: nat, t: seq<TrailPoint>, pts: seq<TrailPoint>)
    requires maxPoints > 0
    ensures Update(maxPoints, LastN(maxPoints, t), pts) == Update(maxPoints, t, pts)
  {
    var kept := LastN(maxPoints, t);
    var pre := t[..|t| - |kept|];
    assert t == pre + kept;
    MergeKeepsPrefix(pre, kept, pts);
    MergeGrows(kept, pts);
  }

  lemma {:induction false} MergeIncreasing(t: seq<TrailPoint>, pts: seq<TrailPoint>)
    requires Increasing(t)
    ensures Increasing(Merge(t, pts))
  {
    if pts == [] {
    } else {
      MergeIncreasing(t, pts[..|pts| - 1]);
    }
  }

  /** The points newer than `since`. */
  function After(pts: seq<TrailPoint>, since: real): (r: seq<TrailPoint>) {
    if pts == [] then []
    else
      var rest := After(pts[..|pts| - 1], since);
      if pts[|pts| - 1].time > since then rest + [pts[|pts| - 1]] else rest
  }

  lemma {:induction false} MergeReaches(t: seq<TrailPoint>, pts: seq<TrailPoint>)
    requires t != []
    ensures Merge(t, pts) != [] && t[|t| - 1].time <= Merge(t, pts)[|Merge(t, pts)| - 1].time
  {
    if pts == [] {
    } else {
      MergeReaches(t, pts[..|pts| - 1]);
    }
  }

  /** Merging a list filtered by a time the trail has already reached equals merging all of it. */
  lemma {:induction false} FilteredMerge(t: seq<TrailPoint>, pts: seq<TrailPoint>, since: real)
    requires t != [] && since <= t[|t| - 1].time
    ensures Merge(t, After(pts, since)) == Merge(t, pts)
  {
    if pts == [] {
    } else {
      var init, p := pts[..|pts| - 1], pts[|pts| - 1];
      FilteredMerge(t, init, since);
      MergeReaches(t, init);
      if p.time > since {
        assert (After(init, since) + [p])[..|After(init, since)|] == After(init, since);
      }
    }
  }

  // ----- the velocity window -----

  /** The first index from `k` on whose span to the end is within `delta`, the last index if none. */
  function WindowStart(t: seq<TrailPoint>, delta: real, k: nat): (r: nat)
    requires k < |t|
    ensures k <= r < |t|
    ensures r < |t| - 1 ==> t[|t| - 1].time - t[r].time <= delta
    ensures forall i :: k <= i < r ==> t[|t| - 1].time - t[i].time > delta
    decreases |t| - k
  {
    if k == |t| - 1 || t[|t| - 1].time - t[k].time <= delta then k else WindowStart(t, delta, k + 1)
  }

  /** The length of the trail from index `k` to its end. */
  function PathLength(t: seq<TrailPoint>, distance: (TrailPoint, TrailPoint) -> real, k: nat): real
    requires k < |t|
    decreases |t| - k
  {
    if k == |t| - 1 then 0.0 else distance(t[k], t[k + 1]) + PathLength(t, distance, k + 1)
  }
}
