/** A run in which a silent user stops a group's viewer, with the `since` the viewer computes. */
module NullAnswer {
  import opened Wrappers
  import opened Records
  import opened Lifecycle
  import opened Model
  import opened Runs
  import opened Trail
  import opened Viewer
  import opened Sync
  import opened GroupSync

  const A_SESSION := WithTarget(SessionData(1000, 1.0, [], [], false, ""), "x")
  const ANNS_POINT := Plain(0.0, 0.0, 1.0, 0, None, None)
  const BOBS_POINT := Plain(0.0, 0.0, 2.0, 0, None, None)
  const ANNS_GROUP := GroupData(1000, map["ann" := "a"], 100000)
  const THEIR_GROUP := GroupData(1000, map["ann" := "a", "bob" := "b"], 100000)

  const ANN_IN: Db := PutSession(PutGroup(map[], "x", ANNS_GROUP), "a", A_SESSION)
  const BOB_IN: Db := PutSession(PutGroup(ANN_IN, "x", THEIR_GROUP), "b", A_SESSION)
  const ANN_POSTED: Db := PutSession(BOB_IN, "a", A_SESSION.(points := [ANNS_POINT]))
  const BOB_POSTED: Db := PutSession(ANN_POSTED, "b", A_SESSION.(points := [BOBS_POINT]))

  lemma AnnEnters(maxPts: nat)
    ensures Step(maxPts, map[], 0.0, NewGroup("a", A_SESSION.(targets := []), "x", "ann", 100000), ANN_IN)
  {
    assert A_SESSION == WithTarget(A_SESSION.(targets := []), "x");
  }

  lemma BobEnters(maxPts: nat)
    ensures Step(maxPts, ANN_IN, 1.0, Join("b", A_SESSION.(targets := []), "bob", 100000), BOB_IN)
  {
    assert ANNS_GROUP.(hosts := ANNS_GROUP.hosts["bob" := "b"]) == THEIR_GROUP;
    assert Joined(ANN_IN, 1.0, 100000, "bob", "b", A_SESSION.(targets := []), BOB_IN);
  }

  lemma AnnPosts(maxPts: nat)
    requires maxPts > 0
    ensures Step(maxPts, BOB_IN, 2.0, Post("a", ANNS_POINT), ANN_POSTED)
  {
    assert LastN(maxPts, [] + [ANNS_POINT]) == [ANNS_POINT];
  }

  lemma BobPosts(maxPts: nat)
    requires maxPts > 0
    ensures Step(maxPts, ANN_POSTED, 4.0, Post("b", BOBS_POINT), BOB_POSTED)
  {
    assert LastN(maxPts, [] + [BOBS_POINT]) == [BOBS_POINT];
  }

  /** Only Ann has posted when the viewer polls for the first time, only Bob between its polls. */
  function AnnAndBob(): seq<Tick> {
    [Tick(0.0, NewGroup("a", A_SESSION.(targets := []), "x", "ann", 100000), ANN_IN),
     Tick(1.0, Join("b", A_SESSION.(targets := []), "bob", 100000), BOB_IN),
     Tick(2.0, Post("a", ANNS_POINT), ANN_POSTED),
     Tick(3.0, Read, ANN_POSTED),
     Tick(4.0, Post("b", BOBS_POINT), BOB_POSTED),
     Tick(5.0, Read, BOB_POSTED)]
  }

  lemma AnnAndBobIsRun(maxPts: nat)
    requires maxPts > 0
    ensures IsRun(maxPts, AnnAndBob())
  {
    AnnEnters(maxPts);
    BobEnters(maxPts);
    AnnPosts(maxPts);
    BobPosts(maxPts);
    forall i | 0 <= i < 6 ensures TickOk(maxPts, AnnAndBob(), i) {
    }
  }

  lemma BothHosted(db: Db, now: real, a: SessionData, b: SessionData, since: real)
    requires now <= 1000.0
    requires db == PutSession(PutSession(BOB_IN, "a", a), "b", b) && a.expire == b.expire == 1000
    ensures LiveGroup(db, now, "x")
    ensures AllPoints(db, now, GroupAt(db, "x").hosts, since) ==
            map["ann" := ServedSlice(a, since), "bob" := ServedSlice(b, since)]
  {
    assert GroupAt(db, "x") == THEIR_GROUP;
  }

  lemma FirstAnswer()
    ensures LiveGroup(ANN_POSTED, 3.0, "x")
    ensures AllPoints(ANN_POSTED, 3.0, GroupAt(ANN_POSTED, "x").hosts, 0.0) ==
            map["ann" := Items([ANNS_POINT]), "bob" := Items([])]
  {
    assert ANN_POSTED == PutSession(PutSession(BOB_IN, "a", A_SESSION.(points := [ANNS_POINT])), "b", A_SESSION);
    BothHosted(ANN_POSTED, 3.0, A_SESSION.(points := [ANNS_POINT]), A_SESSION, 0.0);
  }

  lemma SecondAnswer()
    ensures LiveGroup(BOB_POSTED, 5.0, "x")
    ensures AllPoints(BOB_POSTED, 5.0, GroupAt(BOB_POSTED, "x").hosts, 1.0) ==
            map["ann" := Nil, "bob" := Items([BOBS_POINT])]
  {
    BothHosted(BOB_POSTED, 5.0, A_SESSION.(points := [ANNS_POINT]), A_SESSION.(points := [BOBS_POINT]), 1.0);
    assert Newer([ANNS_POINT], 1.0) == [] by { assert [ANNS_POINT][..0] == []; }
    assert Newer([BOBS_POINT], 1.0) == [BOBS_POINT] by { assert [BOBS_POINT][..0] == []; }
  }

  function AnnsTrail(dec: Decryption): seq<TrailPoint> {
    [ReadPoint(ANNS_POINT, dec)]
  }

  function BobsTrail(dec: Decryption): seq<TrailPoint> {
    [ReadPoint(BOBS_POINT, dec)]
  }

  function TheirWatch(maxPoints: nat, dec: Decryption): GroupWatch {
    GroupWatch("x", map[3 := Poll(0.0, map["ann" := Items(AnnsTrail(dec)), "bob" := Items([])]),
                        5 := Poll(1.0, map["ann" := Nil, "bob" := Items(BobsTrail(dec))])], maxPoints, dec)
  }

  lemma ReadOne(p: Point, dec: Decryption)
    ensures ReadAll([p], dec) == [ReadPoint(p, dec)] && ReadAll([], dec) == []
  {
    assert [p][..0] == [];
  }

  lemma ReadBoth(a: Slice<Point>, b: Slice<Point>, dec: Decryption)
    ensures ReadLists(map["ann" := a, "bob" := b], dec) == map["ann" := ReadSlice(a, dec), "bob" := ReadSlice(b, dec)]
  {
  }

  lemma FirstResponse(dec: Decryption)
    ensures LiveGroup(ANN_POSTED, 3.0, "x")
    ensures Response(ANN_POSTED, 3.0, "x", 0.0, dec) == map["ann" := Items(AnnsTrail(dec)), "bob" := Items([])]
  {
    FirstAnswer();
    ReadBoth(Items([ANNS_POINT]), Items([]), dec);
    ReadOne(ANNS_POINT, dec);
  }

  lemma SecondResponse(dec: Decryption)
    ensures LiveGroup(BOB_POSTED, 5.0, "x")
    ensures Response(BOB_POSTED, 5.0, "x", 1.0, dec) == map["ann" := Nil, "bob" := Items(BobsTrail(dec))]
  {
    SecondAnswer();
    ReadBoth(Nil, Items([BOBS_POINT]), dec);
    ReadOne(BOBS_POINT, dec);
  }

  lemma FirstTrail(maxPoints: nat, dec: Decryption)
    requires maxPoints > 0
    ensures var users := map["ann" := Items(AnnsTrail(dec)), "bob" := Items([])];
            Merged(maxPoints, map[], users, users.Keys) == map["ann" := AnnsTrail(dec), "bob" := []]
  {
    assert AnnsTrail(dec)[..0] == [];
    assert Merge([], AnnsTrail(dec)) == AnnsTrail(dec);
  }

  lemma {:induction false} ShownStays(w: GroupWatch, m: nat, n: nat)
    requires m <= n && forall i :: m <= i < n ==> i !in w.polls
    ensures GroupShown(w, n) == GroupShown(w, m)
  {
    if n == m {
    } else {
      ShownStays(w, m, n - 1);
    }
  }

  lemma ShownToThem(maxPoints: nat, dec: Decryption)
    requires maxPoints > 0
    ensures var w := TheirWatch(maxPoints, dec);
            GroupShown(w, 3) == map[] && GroupShown(w, 5) == map["ann" := AnnsTrail(dec), "bob" := []]
  {
    var w := TheirWatch(maxPoints, dec);
    FirstTrail(maxPoints, dec);
    ShownStays(w, 0, 3);
    ShownStays(w, 4, 5);
  }

  lemma RightSinces(dec: Decryption)
    ensures IsOldestNewest(map[], {}, 0.0)
    ensures var shares := map["ann" := AnnsTrail(dec), "bob" := []]; IsOldestNewest(shares, shares.Keys, 1.0)
  {
    var shares := map["ann" := AnnsTrail(dec), "bob" := []];
    assert shares["ann"] == AnnsTrail(dec) && Newest(AnnsTrail(dec)) == 1.0;
  }

  lemma FirstPoll(maxPoints: nat, dec: Decryption)
    requires maxPoints > 0
    ensures PolledAt(Tick(3.0, Read, ANN_POSTED), TheirWatch(maxPoints, dec), 3)
  {
    FirstResponse(dec);
    ShownToThem(maxPoints, dec);
    RightSinces(dec);
  }

  lemma SecondPoll(maxPoints: nat, dec: Decryption)
    requires maxPoints > 0
    ensures PolledAt(Tick(5.0, Read, BOB_POSTED), TheirWatch(maxPoints, dec), 5)
  {
    SecondResponse(dec);
    ShownToThem(maxPoints, dec);
    RightSinces(dec);
  }

  lemma TheyAreWatched(maxPoints: nat, dec: Decryption)
    requires maxPoints > 0
    ensures GroupWatching(AnnAndBob(), TheirWatch(maxPoints, dec))
  {
    FirstPoll(maxPoints, dec);
    SecondPoll(maxPoints, dec);
    assert AnnAndBob()[3] == Tick(3.0, Read, ANN_POSTED) && AnnAndBob()[5] == Tick(5.0, Read, BOB_POSTED);
  }

  lemma StopsAtAnn(maxPoints: nat, shares: map<string, seq<TrailPoint>>, list: Slice<TrailPoint>)
    requires "ann" in shares
    ensures var users := map["ann" := Nil, "bob" := list];
            !AllListed(users) && Reach(users, {"ann"}) && Merged(maxPoints, shares, users, {"ann"}) == shares
  {
    var users := map["ann" := Nil, "bob" := list];
    assert users["ann"] == Nil;
    assert shares.Keys + {"ann"} == shares.Keys;
  }

  /** The viewer has seen Ann's point and nothing of Bob, so it asks for what is newer than Ann's
      point.  Ann has posted nothing since: at her `null` it stops, and if it meets her before Bob it
      never shows Bob's point. */
  lemma AnnStopsTheViewer(maxPts: nat, maxPoints: nat, dec: Decryption)
    requires maxPts > 0 && maxPoints > 0
    ensures var run, w := AnnAndBob(), TheirWatch(maxPoints, dec);
            && IsRun(maxPts, run) && GroupWatching(run, w) && !AllListed(w.polls[5].users)
            && GroupShown(w, 5) == map["ann" := AnnsTrail(dec), "bob" := []]
            && Reach(w.polls[5].users, {"ann"})
            && Merged(maxPoints, GroupShown(w, 5), w.polls[5].users, {"ann"}) == GroupShown(w, 5)
  {
    AnnAndBobIsRun(maxPts);
    TheyAreWatched(maxPoints, dec);
    ShownToThem(maxPoints, dec);
    StopsAtAnn(maxPoints, map["ann" := AnnsTrail(dec), "bob" := []], Items(BobsTrail(dec)));
  }
}
