/** The polling web viewer (frontend/main.js). */
module Viewer {
  import opened Wrappers
  import opened Trail
  import Geometry

  /** `Number.MAX_VALUE`: (2^53 - 1) * 2^971. */
  const NUMBER_MAX_VALUE: real := 179769313486231570814527423731704356798070567525844996598917476803157260780028538760589558632766878171540458953514382464234321326889464182768467546703537516986049910576551282076245490090389328944075868508455133942304583236903222948165808559332123347764797926207144723168738177180919298881250404026184124858368.0

  /** The newest time of the trail that is furthest behind, 0 while there is none. */
  ghost predicate IsOldestNewest(shares: map<string, seq<TrailPoint>>, users: set<string>, since: real)
    requires users <= shares.Keys
  {
    if forall u :: u in users ==> shares[u] == [] then since == 0.0
    else
      && since <= NUMBER_MAX_VALUE
      && (forall u :: u in users && shares[u] != [] ==> since <= Newest(shares[u]))
      && (since == NUMBER_MAX_VALUE || exists u :: u in users && shares[u] != [] && since == Newest(shares[u]))
  }

  function Newest(t: seq<TrailPoint>): real
    requires t != []
  {
    t[|t| - 1].time
  }

  function TrailOf(shares: map<string, seq<TrailPoint>>, u: string): seq<TrailPoint> {
    if u in shares then shares[u] else []
  }

  /** What an update makes of a trail.  A `null` list stops the update at its user, whose trail is
      then as before, if only an empty one that has just been entered. */
  function NewTrail(maxPoints: nat, trail: seq<TrailPoint>, list: Slice<TrailPoint>): seq<TrailPoint> {
    match list
    case Nil => trail
    case Items(pts) => Update(maxPoints, trail, pts)
  }

  /** The trails once an update has been through the users of `reached`; the others stay. */
  function Merged(maxPoints: nat, before: map<string, seq<TrailPoint>>, users: map<string, Slice<TrailPoint>>,
                  reached: set<string>)
    : (after: map<string, seq<TrailPoint>>)
    requires reached <= users.Keys
    ensures after.Keys == before.Keys + reached
    ensures forall u :: u in reached ==> after[u] == NewTrail(maxPoints, TrailOf(before, u), users[u])
    ensures forall u :: u in before && u !in reached ==> after[u] == before[u]
  {
    map u | u in before.Keys + reached ::
      if u in reached then NewTrail(maxPoints, TrailOf(before, u), users[u]) else before[u]
  }

  /** No user's list is `null`. */
  predicate AllListed(users: map<string, Slice<TrailPoint>>) {
    forall u :: u in users ==> users[u].Items?
  }

  /** How far an update gets: to the end if there is no `null`, else to the first one met. */
  ghost predicate Reach(users: map<string, Slice<TrailPoint>>, reached: set<string>) {
    && reached <= users.Keys
    && if AllListed(users) then reached == users.Keys
       else exists bad :: bad in reached && users[bad].Nil? && forall u :: u in reached && u != bad ==> users[u].Items?
  }

  /** The configured units and the great-circle distance, which is left uninterpreted. */
  datatype Units = Units(delta: real, mps: real, havMod: real, distance: (TrailPoint, TrailPoint) -> real)

  /** The window that ends at the newest point and leaves the very first segment out. */
  function WindowOf(t: seq<TrailPoint>, delta: real): (k: nat)
    requires t != []
    ensures k < |t|
  {
    if |t| == 1 then 0 else WindowStart(t, delta, 1)
  }

  function Velocity(dist: real, time: real, u: Units): real {
    if time == 0.0 then 0.0 else dist * u.mps * u.havMod / time
  }

  /** The average speed over the window. */
  function AverageSpeed(t: seq<TrailPoint>, u: Units): real
    requires t != []
  {
    var k := WindowOf(t, u.delta);
    Velocity(PathLength(t, u.distance, k), t[|t| - 1].time - t[k].time, u)
  }

  /** The speed shown for a trail: what the client sent, else the average. */
  function Speed(t: seq<TrailPoint>, u: Units): real
    requires t != []
  {
    if t[|t| - 1].spd.Some? then t[|t| - 1].spd.value * u.mps else AverageSpeed(t, u)
  }

  // ----- what a shown speed is -----

  /** By the times alone: the window from index `k` on is short enough, and none from an earlier
      index is; the very first segment never counts. */
  predicate StartsWindow(t: seq<TrailPoint>, delta: real, k: nat)
    requires k < |t|
  {
    var n := |t| - 1;
    if n == 0 then k == 0
    else 1 <= k && (k < n ==> t[n].time - t[k].time <= delta) && (k > 1 ==> t[n].time - t[k - 1].time > delta)
  }

  /** `sums` adds up the lengths of the segments from index `k` on. */
  predicate AddsUp(t: seq<TrailPoint>, distance: (TrailPoint, TrailPoint) -> real, k: nat, sums: seq<real>)
    requires k < |t|
  {
    && |sums| == |t| - k && sums[0] == 0.0
    && forall i :: 0 <= i < |sums| - 1 ==> sums[i + 1] == sums[i] + distance(t[k + i], t[k + i + 1])
  }

  /** Over the window from index `k` on the speed covers the length of its segments. */
  predicate SpeedOver(t: seq<TrailPoint>, u: Units, k: nat, sums: seq<real>, speed: real)
    requires k < |t|
  {
    && StartsWindow(t, u.delta, k) && AddsUp(t, u.distance, k, sums)
    && if k == |t| - 1 then speed == 0.0
       else Goes(speed, t[|t| - 1].time - t[k].time, sums[|sums| - 1], u)
  }

  /** A speed in the configured unit, kept up for a time, covers a distance on the unit sphere. */
  predicate Goes(speed: real, time: real, dist: real, u: Units) {
    speed * time == dist * u.mps * u.havMod
  }

  /** The figure the client sent, in the configured unit, or else the average over the window. */
  ghost predicate IsSpeedOf(t: seq<TrailPoint>, u: Units, speed: real)
    requires t != []
  {
    match t[|t| - 1].spd
    case Some(s) => speed == s * u.mps
    case None => exists k: nat, sums :: k < |t| && SpeedOver(t, u, k, sums, speed)
  }

  /** What is shown for a user is the speed of the trail once the list is merged in. */
  ghost predicate TrueSpeed(units: Units, trail: seq<TrailPoint>, list: seq<TrailPoint>, u: string,
                            speeds: map<string, real>) {
    Merge(trail, list) != [] ==> u in speeds && IsSpeedOf(Merge(trail, list), units, speeds[u])
  }

  lemma {:induction false} SumsOfPath(t: seq<TrailPoint>, distance: (TrailPoint, TrailPoint) -> real, k: nat)
    returns (sums: seq<real>)
    requires k < |t|
    ensures AddsUp(t, distance, k, sums) && sums[|sums| - 1] == PathLength(t, distance, k)
    decreases |t| - k
  {
    if k == |t| - 1 {
      sums := [0.0];
    } else {
      var rest := SumsOfPath(t, distance, k + 1);
      var first := distance(t[k], t[k + 1]);
      sums := [0.0] + seq(|rest|, i requires 0 <= i < |rest| => first + rest[i]);
      forall i | 0 <= i < |sums| - 1 ensures sums[i + 1] == sums[i] + distance(t[k + i], t[k + i + 1]) {
        assert i > 0 ==> rest[i] == rest[i - 1] + distance(t[k + 1 + (i - 1)], t[k + 1 + (i - 1) + 1]);
      }
    }
  }

  lemma VelocityGoes(dist: real, time: real, u: Units)
    requires time != 0.0
    ensures Goes(Velocity(dist, time, u), time, dist, u)
  {
    Geometry.QuotientIs(dist * u.mps * u.havMod, time);
  }

  /** Every shown speed is one. */
  lemma SpeedIsSpeed(t: seq<TrailPoint>, u: Units)
    requires t != [] && Increasing(t)
    ensures IsSpeedOf(t, u, Speed(t, u))
  {
    if t[|t| - 1].spd.None? {
      var k := WindowOf(t, u.delta);
      var sums := SumsOfPath(t, u.distance, k);
      EmptyWindow(t, u.delta);
      if k < |t| - 1 {
        VelocityGoes(sums[|sums| - 1], t[|t| - 1].time - t[k].time, u);
      }
      assert SpeedOver(t, u, k, sums, Speed(t, u));
    }
  }

  /** How far a constant rate gets in a time. */
  function Way(c: real, time: real): real {
    c * time
  }

  lemma {:induction false} SteadySums(t: seq<TrailPoint>, distance: (TrailPoint, TrailPoint) -> real, k: nat,
                                      sums: seq<real>, c: real, i: nat)
    requires k < |t| && AddsUp(t, distance, k, sums) && i < |sums|
    requires forall j :: k <= j < |t| - 1 ==> distance(t[j], t[j + 1]) == Way(c, t[j + 1].time - t[j].time)
    ensures sums[i] == c * (t[k + i].time - t[k].time)
  {
    if i == 0 {
    } else {
      SteadySums(t, distance, k, sums, c, i - 1);
      assert sums[i - 1 + 1] == sums[i - 1] + distance(t[k + (i - 1)], t[k + (i - 1) + 1]);
      var before, step := t[k + i - 1].time - t[k].time, t[k + i].time - t[k + i - 1].time;
      assert c * before + c * step == c * (before + step);
    }
  }

  /** On a trail that moves steadily through its window the shown speed is that one. */
  lemma SteadySpeed(t: seq<TrailPoint>, u: Units, speed: real, c: real)
    requires |t| > 2 && Increasing(t) && t[|t| - 1].spd.None? && t[|t| - 1].time - t[|t| - 2].time <= u.delta
    requires forall j :: 1 <= j < |t| - 1 ==> u.distance(t[j], t[j + 1]) == Way(c, t[j + 1].time - t[j].time)
    requires IsSpeedOf(t, u, speed)
    ensures speed == c * u.mps * u.havMod
  {
    var k: nat, sums :| k < |t| && SpeedOver(t, u, k, sums, speed);
    SteadyTotal(t, u.distance, k, sums, c);
    NotEmpty(t, u.delta, k);
    SteadyOver(speed, t[|t| - 1].time - t[k].time, sums[|sums| - 1], c, u);
  }

  lemma SteadyTotal(t: seq<TrailPoint>, distance: (TrailPoint, TrailPoint) -> real, k: nat, sums: seq<real>, c: real)
    requires k < |t| && AddsUp(t, distance, k, sums)
    requires forall j :: k <= j < |t| - 1 ==> distance(t[j], t[j + 1]) == Way(c, t[j + 1].time - t[j].time)
    ensures sums[|sums| - 1] == Way(c, t[|t| - 1].time - t[k].time)
  {
    SteadySums(t, distance, k, sums, c, |sums| - 1);
    assert k + (|sums| - 1) == |t| - 1;
  }

  lemma NotEmpty(t: seq<TrailPoint>, delta: real, k: nat)
    requires |t| > 2 && Increasing(t) && t[|t| - 1].time - t[|t| - 2].time <= delta
    requires k < |t| && StartsWindow(t, delta, k)
    ensures 1 <= k < |t| - 1 && t[k].time < t[|t| - 1].time
  {
  }

  lemma SteadyOver(speed: real, time: real, total: real, c: real, u: Units)
    requires time > 0.0 && total == Way(c, time) && Goes(speed, time, total, u)
    ensures speed == c * u.mps * u.havMod
  {
    Reordered(c, time, u.mps, u.havMod);
    SameFactor(speed, c * u.mps * u.havMod, time);
  }

  lemma Reordered(c: real, time: real, mps: real, havMod: real)
    ensures c * time * mps * havMod == c * mps * havMod * time
  {
    assert c * time * mps == c * mps * time;
  }

  lemma SameFactor(x: real, y: real, time: real)
    requires x * time == y * time && time > 0.0
    ensures x == y
  {
    Geometry.MulSign(x - y, time);
    Geometry.MulSign(y - x, time);
    assert (x - y) * time == x * time - y * time;
  }

  function ShownAfter(u: Units, before: map<string, real>, user: string, merged: seq<TrailPoint>): map<string, real> {
    if merged == [] then before else before[user := Speed(merged, u)]
  }

  /** The speeds after one user's list, which may be `null`. */
  function ShownWith(u: Units, before: map<string, real>, user: string, trail: seq<TrailPoint>, list: Slice<TrailPoint>)
    : map<string, real>
  {
    match list
    case Nil => before
    case Items(pts) => ShownAfter(u, before, user, Merge(trail, pts))
  }

  /** Every user of `reached` with a list and a trail is shown at the speed of the trail before
      pruning; for everybody else the shown speed stays. */
  ghost predicate SpeedsShown(units: Units, before: map<string, seq<TrailPoint>>, users: map<string, Slice<TrailPoint>>,
                              reached: set<string>, shownBefore: map<string, real>, speeds: map<string, real>)
    requires reached <= users.Keys
  {
    forall u :: SpeedShown(units, before, users, reached, shownBefore, u, speeds)
  }

  ghost predicate SpeedShown(units: Units, before: map<string, seq<TrailPoint>>, users: map<string, Slice<TrailPoint>>,
                             reached: set<string>, shownBefore: map<string, real>, u: string, speeds: map<string, real>)
    requires reached <= users.Keys
  {
    if u in reached && users[u].Items? && Merge(TrailOf(before, u), users[u].items) != [] then
      u in speeds && speeds[u] == Speed(Merge(TrailOf(before, u), users[u].items), units)
    else (u in speeds <==> u in shownBefore) && (u in speeds ==> speeds[u] == shownBefore[u])
  }

  lemma SpeedsAreTrue(units: Units, before: map<string, seq<TrailPoint>>, users: map<string, Slice<TrailPoint>>,
                      reached: set<string>, shownBefore: map<string, real>, speeds: map<string, real>)
    requires AllIncreasing(before) && reached <= users.Keys
             && SpeedsShown(units, before, users, reached, shownBefore, speeds)
    ensures forall u :: u in reached && users[u].Items? ==>
            TrueSpeed(units, TrailOf(before, u), users[u].items, u, speeds)
  {
    forall u | u in reached && users[u].Items? ensures TrueSpeed(units, TrailOf(before, u), users[u].items, u, speeds) {
      assert SpeedShown(units, before, users, reached, shownBefore, u, speeds);
      var merged := Merge(TrailOf(before, u), users[u].items);
      MergeIncreasing(TrailOf(before, u), users[u].items);
      if merged != [] {
        SpeedIsSpeed(merged, units);
      }
    }
  }

  ghost predicate AllIncreasing(shares: map<string, seq<TrailPoint>>) {
    forall u :: u in shares ==> Increasing(shares[u])
  }

  lemma OneMoreTrail(maxPoints: nat, before: map<string, seq<TrailPoint>>, users: map<string, Slice<TrailPoint>>,
                     reached: set<string>, user: string)
    requires reached <= users.Keys && user in users && user !in reached
    ensures var mid := Merged(maxPoints, before, users, reached);
            && TrailOf(mid, user) == TrailOf(before, user)
            && Merged(maxPoints, before, users, reached + {user}) ==
               mid[user := NewTrail(maxPoints, TrailOf(mid, user), users[user])]
  {
  }

  lemma OneMoreSpeed(units: Units, before: map<string, seq<TrailPoint>>, users: map<string, Slice<TrailPoint>>,
                     reached: set<string>, shownBefore: map<string, real>, shown: map<string, real>, user: string)
    requires reached <= users.Keys && user in users && user !in reached
    requires SpeedsShown(units, before, users, reached, shownBefore, shown)
    ensures SpeedsShown(units, before, users, reached + {user}, shownBefore,
                        ShownWith(units, shown, user, TrailOf(before, user), users[user]))
  {
    var shown' := ShownWith(units, shown, user, TrailOf(before, user), users[user]);
    forall u ensures SpeedShown(units, before, users, reached + {user}, shownBefore, u, shown') {
      assert SpeedShown(units, before, users, reached, shownBefore, u, shown);
    }
  }

  lemma MergedIncrease(maxPoints: nat, before: map<string, seq<TrailPoint>>, users: map<string, Slice<TrailPoint>>,
                       reached: set<string>)
    requires AllIncreasing(before) && reached <= users.Keys
    ensures AllIncreasing(Merged(maxPoints, before, users, reached))
  {
    var after := Merged(maxPoints, before, users, reached);
    forall u | u in after ensures Increasing(after[u]) {
      if u in reached && users[u].Items? {
        MergeIncreasing(TrailOf(before, u), users[u].items);
      }
    }
  }

  class Viewer {
    const maxPoints: nat
    const units: Units
    var shares: map<string, seq<TrailPoint>>
    var speeds: map<string, real>

    constructor (maxPoints: nat, units: Units)
      ensures this.maxPoints == maxPoints && this.units == units && shares == map[] && speeds == map[]
    {
      this.maxPoints, this.units, shares, speeds := maxPoints, units, map[], map[];
    }

    method GetOldestPointTime() returns (since: real)
      ensures IsOldestNewest(shares, shares.Keys, since)
    {
      var oldestTime := NUMBER_MAX_VALUE;
      var foundTime := false;
      var todo := shares.Keys;
      while todo != {}
        invariant todo <= shares.Keys
        invariant foundTime <==> exists u :: u in shares.Keys - todo && shares[u] != []
        invariant IsOldestNewest(shares, shares.Keys - todo, if foundTime then oldestTime else 0.0)
        invariant !foundTime ==> oldestTime == NUMBER_MAX_VALUE
      {
        var share :| share in todo;
        var points := shares[share];
        if |points| > 0 {
          var mostRecentTime := points[|points| - 1].time;
          oldestTime := if mostRecentTime < oldestTime then mostRecentTime else oldestTime;
          foundTime := true;
        }
        todo := todo - {share};
      }
      return if foundTime then oldestTime else 0.0;
    }

    /** Merges the users' lists into their trails, in any order.  At a `null` it throws. */
    method ProcessUpdate(users: map<string, Slice<TrailPoint>>) returns (completed: bool, ghost reached: set<string>)
      requires AllIncreasing(shares)
      modifies this
      ensures completed <==> AllListed(users)
      ensures Reach(users, reached)
      ensures shares == Merged(maxPoints, old(shares), users, reached) && AllIncreasing(shares)
      ensures SpeedsShown(units, old(shares), users, reached, old(speeds), speeds)
      ensures forall u :: u in reached && users[u].Items? ==>
              TrueSpeed(units, TrailOf(old(shares), u), users[u].items, u, speeds)
    {
      ghost var before, shownBefore := shares, speeds;
      reached := {};
      var todo := users.Keys;
      while todo != {}
        invariant todo <= users.Keys && reached == users.Keys - todo
        invariant forall u :: u in reached ==> users[u].Items?
        invariant shares == Merged(maxPoints, before, users, reached)
        invariant SpeedsShown(units, before, users, reached, shownBefore, speeds)
      {
        var user :| user in todo;
        OneMoreTrail(maxPoints, before, users, reached, user);
        OneMoreSpeed(units, before, users, reached, shownBefore, speeds, user);
        MergedIncrease(maxPoints, before, users, reached);
        completed := ProcessUser(user, users[user]);
        reached := reached + {user};
        if !completed {
          MergedIncrease(maxPoints, before, users, reached);
          SpeedsAreTrue(units, before, users, reached, shownBefore, speeds);
          return false, reached;
        }
        todo := todo - {user};
      }
      MergedIncrease(maxPoints, before, users, reached);
      SpeedsAreTrue(units, before, users, reached, shownBefore, speeds);
      return true, reached;
    }

    method ProcessUser(user: string, locData: Slice<TrailPoint>) returns (completed: bool)
      requires Increasing(TrailOf(shares, user))
      modifies this
      ensures completed <==> locData.Items?
      ensures shares == old(shares)[user := NewTrail(maxPoints, TrailOf(old(shares), user), locData)]
      ensures speeds == ShownWith(units, old(speeds), user, TrailOf(old(shares), user), locData)
      ensures locData.Items? ==> TrueSpeed(units, TrailOf(old(shares), user), locData.items, user, speeds)
    {
      ghost var before, trail := shares, TrailOf(shares, user);
      if user !in shares {
        shares := shares[user := []];
      }
      assert shares == before[user := trail];
      if locData.Nil? {
        // The loop asks for its length.
        return false;
      }
      ProcessList(user, locData.items);
      assert shares == before[user := Update(maxPoints, trail, locData.items)];
      return true;
    }

    method ProcessList(user: string, locData: seq<TrailPoint>)
      requires user in shares && Increasing(shares[user])
      modifies this
      ensures shares == old(shares)[user := Update(maxPoints, old(shares)[user], locData)]
      ensures speeds == ShownAfter(units, old(speeds), user, Merge(old(shares)[user], locData))
      ensures TrueSpeed(units, old(shares)[user], locData, user, speeds)
    {
      ghost var before, merged := shares, Merge(shares[user], locData);
      MergeIncreasing(shares[user], locData);
      AddPoints(user, locData);
      assert shares[user] == merged;
      ShowSpeed(user);
      Prune(user);
      assert shares == before[user := LastN(maxPoints, merged)];
    }

    method Prune(user: string)
      requires user in shares
      modifies this`shares
      ensures shares == old(shares)[user := LastN(maxPoints, old(shares)[user])]
    {
      if |shares[user]| > maxPoints {
        shares := shares[user := shares[user][|shares[user]| - maxPoints..]];
      }
    }

    method AddPoints(user: string, locData: seq<TrailPoint>)
      requires user in shares
      modifies this`shares
      ensures shares == old(shares)[user := Merge(old(shares)[user], locData)]
    {
      ghost var before := shares[user];
      var lastPoint := if |shares[user]| > 0 then Some(shares[user][|shares[user]| - 1]) else None;
      for i := 0 to |locData|
        invariant shares == old(shares)[user := Merge(before, locData[..i])]
        invariant lastPoint == if shares[user] == [] then None else Some(shares[user][|shares[user]| - 1])
      {
        assert locData[..i + 1][..i] == locData[..i];
        var p := locData[i];
        if lastPoint == None || p.time > lastPoint.value.time {
          shares := shares[user := shares[user] + [p]];
          lastPoint := Some(p);
        }
      }
      assert locData[..|locData|] == locData;
    }

    method ShowSpeed(user: string)
      requires user in shares && Increasing(shares[user])
      modifies this`speeds
      ensures speeds == if shares[user] == [] then old(speeds) else old(speeds)[user := Speed(shares[user], units)]
      ensures shares[user] != [] ==> IsSpeedOf(shares[user], units, speeds[user])
    {
      var points := shares[user];
      if points != [] {
        SpeedIsSpeed(points, units);
        var lastPoint := points[|points| - 1];
        if lastPoint.spd.Some? {
          // The client's own figure is preferred.
          speeds := speeds[user := lastPoint.spd.value * units.mps];
          assert speeds[user] == Speed(points, units);
        } else {
          var vel := VelocityOverWindow(points);
          speeds := speeds[user := vel];
          assert speeds[user] == Speed(points, units);
        }
      }
    }

    /** Walks back from the newest point: the times add up to one difference, and the window
        starts at the earliest index from 1 on whose span is short enough. */
    method VelocityOverWindow(points: seq<TrailPoint>) returns (vel: real)
      requires points != [] && Increasing(points)
      ensures vel == AverageSpeed(points, units)
    {
      var dist, time := 0.0, 0.0;
      var idx := |points|;
      ghost var k := |points| - 1;
      while idx > 2
        invariant 0 <= k == idx - 1 < |points| && (k == 0 ==> |points| == 1)
        invariant time == points[|points| - 1].time - points[k].time && dist == PathLength(points, units.distance, k)
        invariant k < |points| - 1 ==> time <= units.delta
      {
        idx := idx - 1;
        var pt1 := points[idx - 1];
        var pt2 := points[idx];
        var dTime := pt2.time - pt1.time;
        if time + dTime <= units.delta {
          time := time + dTime;
          dist := dist + units.distance(pt1, pt2);
          k := idx - 1;
        } else {
          break;
        }
      }
      if |points| > 1 {
        WindowStartIs(points, units.delta, 1, k);
      }
      vel := Velocity(dist, time, units);
    }
  }

  /** A window is empty, and the speed over it then reads 0, only if no segment fits. */
  lemma EmptyWindow(t: seq<TrailPoint>, delta: real)
    requires t != [] && Increasing(t)
    ensures var k := WindowOf(t, delta);
            (t[|t| - 1].time - t[k].time == 0.0 <==> k == |t| - 1)
            && (k == |t| - 1 <==> |t| <= 2 || t[|t| - 1].time - t[|t| - 2].time > delta)
  {
    var k := WindowOf(t, delta);
    assert k < |t| - 1 ==> t[k].time < t[|t| - 1].time;
    assert k < |t| - 1 ==> t[k].time <= t[|t| - 2].time;
  }

  lemma WindowStartIs(t: seq<TrailPoint>, delta: real, from: nat, k: nat)
    requires Increasing(t) && from <= k < |t|
    requires k == |t| - 1 || t[|t| - 1].time - t[k].time <= delta
    requires k == from || t[|t| - 1].time - t[k - 1].time > delta
    ensures WindowStart(t, delta, from) == k
  {
    assert forall i :: from <= i < k ==> t[i].time <= t[k - 1].time;
  }
}
