/** Which solo shares a stop takes down.  A session goes on listing shares that are gone, and their
    links can be handed out again, so "only its own" is not what holds. */
module StaleTargets {
  import opened Records
  import opened Lifecycle
  import opened Runs
  import Safety

  lemma {:induction false} ReleaseAllDrops(db: Db, now: real, sid: string, ts: seq<string>, db': Db, id: string)
    requires Typed(db) && ReleasedAll(db, now, sid, ts, db') && LiveSolo(db, now, id)
    ensures if id in ts then LocKey(id) !in db' else Safety.Same(db, db', LocKey(id))
    decreases |ts|
  {
    if ts == [] {
    } else {
      var init, last := ts[..|ts| - 1], ts[|ts| - 1];
      assert ts == init + [last];
      var mid :| ReleasedAll(db, now, sid, init, mid) && Released(mid, now, sid, last, db');
      ReleaseAllDrops(db, now, sid, init, mid, id);
      ReleaseAllStable(db, now, sid, init, mid, id);
      Safety.ReleaseIsShareReleased(mid, now, sid, last, db');
      if last != id {
        assert Safety.Same(mid, db', LocKey(id));
      }
    }
  }

  /** A full stop takes a live solo share down exactly when the session lists it, whoever hosts it. */
  lemma StopAllTakesListed(maxPts: nat, db: Db, now: real, sid: string, db': Db, id: string)
    requires Inv(maxPts, db, now) && Step(maxPts, db, now, StopAll(sid), db') && LiveSolo(db, now, id)
    ensures LocKey(id) in db' <==> id !in SessionAt(db, sid).targets
    ensures LocKey(id) in db' ==> db'[LocKey(id)] == db[LocKey(id)]
  {
    var ts := SessionAt(db, sid).targets;
    var mid :| ReleasedAll(db, now, sid, ts, mid) && db' == mid - {SessionKey(sid)};
    ReleaseAllDrops(db, now, sid, ts, mid, id);
  }

  /** Stopping one link takes a live solo share down exactly when it is that link. */
  lemma StopLinkTakesOne(maxPts: nat, db: Db, now: real, sid: string, lid: string, db': Db, id: string)
    requires Inv(maxPts, db, now) && Step(maxPts, db, now, StopLink(sid, lid), db') && LiveSolo(db, now, id)
    ensures LocKey(id) in db' <==> id != lid
    ensures LocKey(id) in db' ==> db'[LocKey(id)] == db[LocKey(id)]
  {
    var s := SessionAt(db, sid);
    var mid :|
      Released(db, now, sid, lid, mid) && db' == PutSession(mid, sid, s.(targets := RemoveFirst(s.targets, lid)));
    Safety.ReleaseIsShareReleased(db, now, sid, lid, mid);
    if id != lid {
      assert Safety.Same(db, mid, LocKey(id));
    }
  }

  // ----- a run in which a session stops a solo share of another one -----

  const HOST_SESSION := SessionData(10, 1.0, [], [], false, "")
  const LONG_SESSION := SessionData(1000, 1.0, [], [], false, "")
  const HOSTS_GROUP := GroupData(10, map["ann" := "host"], 100000)
  const BOTH_GROUP := GroupData(10, map["ann" := "host", "bob" := "guest"], 100000)

  const HOST_IN: Db := PutSession(PutGroup(map[], "x", HOSTS_GROUP), "host", WithTarget(HOST_SESSION, "x"))
  const GUEST_IN: Db := PutSession(PutGroup(HOST_IN, "x", BOTH_GROUP), "guest", WithTarget(LONG_SESSION, "x"))
  const STRANGER_IN: Db :=
    PutSession(PutSolo(GUEST_IN, "x", SoloData(1000, "stranger", false)), "stranger", WithTarget(LONG_SESSION, "x"))
  const STRANGER_OUT: Db := PutSession(STRANGER_IN - {LocKey("x")}, "guest", LONG_SESSION)

  lemma HostEnters(maxPts: nat)
    ensures Step(maxPts, map[], 0.0, NewGroup("host", HOST_SESSION, "x", "ann", 100000), HOST_IN)
  {
  }

  lemma GuestEnters(maxPts: nat)
    ensures Step(maxPts, HOST_IN, 1.0, Join("guest", LONG_SESSION, "bob", 100000), GUEST_IN)
  {
    assert HOSTS_GROUP.(hosts := HOSTS_GROUP.hosts["bob" := "guest"]) == BOTH_GROUP;
    assert Joined(HOST_IN, 1.0, 100000, "bob", "guest", LONG_SESSION, GUEST_IN);
  }

  lemma StrangerEnters(maxPts: nat)
    ensures Step(maxPts, GUEST_IN, 20.0, NewSolo("stranger", LONG_SESSION, "x", false), STRANGER_IN)
  {
  }

  lemma GuestStops(maxPts: nat)
    ensures Step(maxPts, STRANGER_IN, 21.0, StopLink("guest", "x"), STRANGER_OUT)
  {
    var s := SessionAt(STRANGER_IN, "guest");
    assert s == WithTarget(LONG_SESSION, "x") && s.targets == ["x"] && RemoveFirst(s.targets, "x") == [];
    assert s.(targets := RemoveFirst(s.targets, "x")) == LONG_SESSION;
    assert Released(STRANGER_IN, 21.0, "guest", "x", STRANGER_IN - {LocKey("x")});
  }

  /** A guest outlives a group, a stranger takes the group's link, and the guest stops it. */
  lemma GuestStopsStranger(maxPts: nat) returns (run: seq<Tick>)
    ensures IsRun(maxPts, run) && |run| == 4 && run[3].ev == StopLink("guest", "x")
    ensures LiveSolo(run[2].db, run[3].now, "x") && SoloAt(run[2].db, "x").host == "stranger"
    ensures LocKey("x") !in run[3].db
  {
    run := [Tick(0.0, NewGroup("host", HOST_SESSION, "x", "ann", 100000), HOST_IN),
            Tick(1.0, Join("guest", LONG_SESSION, "bob", 100000), GUEST_IN),
            Tick(20.0, NewSolo("stranger", LONG_SESSION, "x", false), STRANGER_IN),
            Tick(21.0, StopLink("guest", "x"), STRANGER_OUT)];
    HostEnters(maxPts);
    GuestEnters(maxPts);
    StrangerEnters(maxPts);
    GuestStops(maxPts);
    forall i | 0 <= i < 4 ensures TickOk(maxPts, run, i) {
    }
  }
}
