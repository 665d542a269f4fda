/** Every step keeps the lifecycle invariant. */
module Safety {
  import opened Wrappers
  import opened Records
  import opened Lifecycle

  lemma RemoveNick(h: map<string, string>, h': map<string, string>, sid: string)
    requires HostRemoved(h, sid, h')
    ensures |NicksOf(h', sid)| == if NicksOf(h, sid) == {} then 0 else |NicksOf(h, sid)| - 1
    ensures forall other :: other != sid ==> NicksOf(h', other) == NicksOf(h, other)
    ensures forall n :: n in h' ==> n in h && h'[n] == h[n]
  {
    if NicksOf(h, sid) != {} {
      var n :| n in NicksOf(h, sid) && h' == h - {n};
      assert NicksOf(h', sid) == NicksOf(h, sid) - {n};
    }
  }

  lemma AddNick(h: map<string, string>, nick: string, sid: string)
    ensures |NicksOf(h[nick := sid], sid)| <= |NicksOf(h, sid)| + 1
    ensures forall other :: other != sid ==> |NicksOf(h[nick := sid], other)| <= |NicksOf(h, other)|
  {
    assert NicksOf(h[nick := sid], sid) == NicksOf(h, sid) + {nick};
    forall other | other != sid ensures |NicksOf(h[nick := sid], other)| <= |NicksOf(h, other)| {
      assert NicksOf(h[nick := sid], other) == NicksOf(h, other) - {nick};
    }
  }

  /** What releasing a target can do to the records: the share is gone, or it is a group
      that has lost one nickname of the session.  Everything else but a PIN entry is as before. */
  ghost predicate ShareReleased(db: Db, now: real, sid: string, t: string, db': Db) {
    && (forall s :: Same(db, db', SessionKey(s)))
    && (forall id :: id != t ==> Same(db, db', LocKey(id)))
    && (Live(db', now, LocKey(t)) ==>
          && LiveGroup(db, now, t) && LiveGroup(db', now, t)
          && var g, g' := GroupAt(db, t), GroupAt(db', t);
             g' == g.(hosts := g'.hosts) && g'.hosts != map[] && HostRemoved(g.hosts, sid, g'.hosts))
    && (forall p ::
          if LiveGroup(db, now, t) && p == GroupAt(db, t).pin then Repointed(t, db', p) else Same(db, db', PinKey(p)))
  }

  predicate Same(db: Db, db': Db, k: Key) {
    (k in db' <==> k in db) && (k in db ==> db'[k] == db[k])
  }

  /** The PIN entry is gone together with the group, or leads to it. */
  predicate Repointed(t: string, db': Db, p: int) {
    if LocKey(t) in db' then PinKey(p) in db' && db'[PinKey(p)] == Entry(PinV(t), db'[LocKey(t)].expireAt)
    else PinKey(p) !in db'
  }

  lemma ReleaseIsShareReleased(db: Db, now: real, sid: string, t: string, db': Db)
    requires Typed(db) && Released(db, now, sid, t, db')
    ensures ShareReleased(db, now, sid, t, db') && Typed(db')
    ensures LiveGroup(db, now, t) && !Live(db', now, LocKey(t)) ==> HostRemoved(GroupAt(db, t).hosts, sid, map[])
  {
    if LiveGroup(db, now, t) && !LiveSolo(db, now, t) {
      var g := GroupAt(db, t);
      var h' :| HostRemoved(g.hosts, sid, h') && db' == PutOrDropGroup(db, t, g.(hosts := h'));
      assert EntryTyped(LocKey(t), db[LocKey(t)]);
    }
  }

  /** Releasing a target uses up one listing of it for the session, and none for any other. */
  lemma ReleaseCovers(db: Db, now: real, sid: string, t: string, db': Db, other: string, m: multiset<string>)
    requires ShareReleased(db, now, sid, t, db') && Covered(db, now, other, m)
    ensures Covered(db', now, other, if other == sid then m - multiset{t} else m)
  {
    forall id | LiveSolo(db', now, id) && SoloAt(db', id).host == other
      ensures id != t && id in m
    {
      assert LiveSolo(db, now, id);
    }
    var m' := if other == sid then m - multiset{t} else m;
    forall id | LiveGroup(db', now, id) ensures |NicksOf(GroupAt(db', id).hosts, other)| <= m'[id] {
      assert LiveGroup(db, now, id);
      if id == t {
        RemoveNick(GroupAt(db, t).hosts, GroupAt(db', t).hosts, sid);
      }
    }
  }

  ghost predicate RestOk(maxPts: nat, db: Db, now: real) {
    SessionsOk(maxPts, db) && SolosHosted(db, now) && GroupsOk(db, now) && PinsOk(db, now)
  }

  /** Apart from the listings, releasing a target keeps the invariant. */
  lemma ReleaseKeepsRest(maxPts: nat, db: Db, now: real, sid: string, t: string, db': Db)
    requires Typed(db) && Typed(db') && ShareReleased(db, now, sid, t, db') && RestOk(maxPts, db, now)
    requires LiveGroup(db, now, t) && !Live(db', now, LocKey(t)) ==> HostRemoved(GroupAt(db, t).hosts, sid, map[])
    ensures RestOk(maxPts, db', now)
  {
    assert forall s :: Same(db, db', SessionKey(s));
    forall id | LiveSolo(db', now, id) ensures SoloHosted(db', now, id) {
      assert LiveSolo(db, now, id) && SoloHosted(db, now, id);
    }
    forall id | LiveGroup(db', now, id) ensures GroupOk(db', GroupAt(db', id)) {
      assert LiveGroup(db, now, id) && GroupOk(db, GroupAt(db, id));
      if id == t {
        RemoveNick(GroupAt(db, t).hosts, GroupAt(db', t).hosts, sid);
      }
    }
    forall p | Live(db', now, PinKey(p)) ensures PinOk(db', now, p) {
      ReleaseKeepsPin(db, now, sid, t, db', p);
    }
  }

  lemma ReleaseKeepsPin(db: Db, now: real, sid: string, t: string, db': Db, p: int)
    requires Typed(db) && Typed(db') && ShareReleased(db, now, sid, t, db') && PinsOk(db, now)
    requires Live(db', now, PinKey(p))
    ensures PinOk(db', now, p)
  {
    if LiveGroup(db, now, t) && p == GroupAt(db, t).pin {
      assert Repointed(t, db', p);
    } else {
      assert Same(db, db', PinKey(p));
      assert PinOk(db, now, p);
    }
  }

  // ----- adding a share -----

  /** The session a share is added for: a new one, or one just loaded. */
  predicate Hosting(db: Db, now: real, sid: string, s: SessionData) {
    if SessionKey(sid) in db then LiveSession(db, now, sid) && s == SessionAt(db, sid) else FreshSession(s)
  }

  /** Nothing live mentions a session that was never stored. */
  lemma HostingCovered(maxPts: nat, db: Db, now: real, sid: string, s: SessionData)
    requires Inv(maxPts, db, now) && Hosting(db, now, sid, s)
    ensures Covered(db, now, sid, multiset(s.targets))
  {
    if SessionKey(sid) !in db {
      forall id | LiveSolo(db, now, id) ensures SoloAt(db, id).host != sid {
        assert SoloHosted(db, now, id);
      }
      forall id | LiveGroup(db, now, id) ensures NicksOf(GroupAt(db, id).hosts, sid) == {} {
        assert GroupOk(db, GroupAt(db, id));
      }
    }
  }

  /** `db'` differs from `db` in the session `sid`, the share `id` and perhaps a PIN entry. */
  ghost predicate ShareAdded(db: Db, now: real, sid: string, s: SessionData, id: string, db': Db) {
    && (forall o :: o != sid ==> Same(db, db', SessionKey(o)))
    && SessionKey(sid) in db' && db'[SessionKey(sid)] == Entry(SessionV(WithTarget(s, id)), s.expire)
    && (forall o :: o != id ==> Same(db, db', LocKey(o)))
    && LocKey(id) in db'
  }

  function HostsBefore(db: Db, now: real, id: string): map<string, string> {
    if LiveGroup(db, now, id) then GroupAt(db, id).hosts else map[]
  }

  lemma AddedCovers(db: Db, now: real, sid: string, s: SessionData, id: string, nick: string, db': Db, other: string,
                    m: multiset<string>)
    requires ShareAdded(db, now, sid, s, id, db') && Covered(db, now, other, m)
    requires LiveSolo(db', now, id) ==> SoloAt(db', id).host == sid
    requires LiveGroup(db', now, id) ==> GroupAt(db', id).hosts == HostsBefore(db, now, id)[nick := sid]
    ensures Covered(db', now, other, if other == sid then m + multiset{id} else m)
  {
    var m' := if other == sid then m + multiset{id} else m;
    forall o | LiveSolo(db', now, o) && SoloAt(db', o).host == other ensures o in m' {
      assert o == id || LiveSolo(db, now, o);
    }
    forall o | LiveGroup(db', now, o) ensures |NicksOf(GroupAt(db', o).hosts, other)| <= m'[o] {
      if o == id {
        assert NicksOf(map[], other) == {};
        AddNick(HostsBefore(db, now, id), nick, sid);
      } else {
        assert LiveGroup(db, now, o);
      }
    }
  }

  lemma TargetsStillCover(maxPts: nat, db: Db, now: real, sid: string, s: SessionData, id: string, nick: string,
                          db': Db)
    requires Inv(maxPts, db, now) && Hosting(db, now, sid, s) && ShareAdded(db, now, sid, s, id, db')
    requires LiveSolo(db', now, id) ==> SoloAt(db', id).host == sid
    requires LiveGroup(db', now, id) ==> GroupAt(db', id).hosts == HostsBefore(db, now, id)[nick := sid]
    ensures TargetsCover(db', now)
  {
    HostingCovered(maxPts, db, now, sid, s);
    forall o | LiveSession(db', now, o) ensures Covered(db', now, o, multiset(SessionAt(db', o).targets)) {
      if o == sid {
        AddedCovers(db, now, sid, s, id, nick, db', sid, multiset(s.targets));
      } else {
        assert LiveSession(db, now, o) && SessionAt(db', o) == SessionAt(db, o);
        AddedCovers(db, now, sid, s, id, nick, db', o, multiset(SessionAt(db, o).targets));
      }
    }
  }

  lemma SessionsStillOk(maxPts: nat, db: Db, now: real, sid: string, s: SessionData, id: string, db': Db)
    requires SessionsOk(maxPts, db) && Hosting(db, now, sid, s) && ShareAdded(db, now, sid, s, id, db')
    ensures SessionsOk(maxPts, db')
  {
    forall o | SessionKey(o) in db' ensures db'[SessionKey(o)].value.SessionV? && SessionOk(maxPts, SessionAt(db', o)) {
      assert o == sid || Same(db, db', SessionKey(o));
    }
  }

  lemma SolosStillHosted(maxPts: nat, db: Db, now: real, sid: string, s: SessionData, id: string, db': Db)
    requires Inv(maxPts, db, now) && Hosting(db, now, sid, s) && ShareAdded(db, now, sid, s, id, db')
    requires LiveSolo(db', now, id) ==> SoloHosted(db', now, id)
    ensures SolosHosted(db', now)
  {
    forall o | LiveSolo(db', now, o) ensures SoloHosted(db', now, o) {
      if o != id {
        assert LiveSolo(db, now, o) && SoloHosted(db, now, o);
        var host := SoloAt(db, o).host;
        assert EntryTyped(SessionKey(host), db[SessionKey(host)]);
      }
    }
  }

  lemma GroupsStillOk(maxPts: nat, db: Db, now: real, sid: string, s: SessionData, id: string, db': Db)
    requires Inv(maxPts, db, now) && Hosting(db, now, sid, s) && ShareAdded(db, now, sid, s, id, db')
    requires LiveGroup(db', now, id) ==> GroupOk(db', GroupAt(db', id))
    ensures GroupsOk(db', now)
  {
    forall o | LiveGroup(db', now, o) ensures GroupOk(db', GroupAt(db', o)) {
      if o != id {
        assert LiveGroup(db, now, o) && GroupOk(db, GroupAt(db, o));
        forall n | n in GroupAt(db', o).hosts ensures ClearHost(db', GroupAt(db', o).hosts[n]) {
          assert ClearHost(db, GroupAt(db, o).hosts[n]);
        }
      }
    }
  }

  /** Create and new-link: a solo share at an id that was not live. */
  lemma AddSoloKeepsInv(maxPts: nat, db: Db, now: real, sid: string, s: SessionData, id: string, ado: bool, db': Db)
    requires Inv(maxPts, db, now) && Hosting(db, now, sid, s) && !Live(db, now, LocKey(id))
    requires db' == PutSession(PutSolo(db, id, SoloData(s.expire, sid, ado)), sid, WithTarget(s, id))
    ensures Inv(maxPts, db', now)
  {
    assert ShareAdded(db, now, sid, s, id, db');
    TargetsStillCover(maxPts, db, now, sid, s, id, "", db');
    SessionsStillOk(maxPts, db, now, sid, s, id, db');
    SolosStillHosted(maxPts, db, now, sid, s, id, db');
    GroupsStillOk(maxPts, db, now, sid, s, id, db');
    forall p | Live(db', now, PinKey(p)) ensures PinOk(db', now, p) {
      assert PinOk(db, now, p);
    }
  }

  /** Create, join and adopt: a nickname for the session in a new or a live group. */
  lemma AddToGroupKeepsInv(maxPts: nat, db: Db, now: real, sid: string, s: SessionData, id: string, nick: string,
                           g: GroupData, db': Db)
    requires Inv(maxPts, db, now) && Hosting(db, now, sid, s) && !s.encrypted
    requires if Live(db, now, LocKey(id)) then LiveGroup(db, now, id) && g == GroupAt(db, id) else g.hosts == map[]
    requires db' == PutSession(PutGroup(db, id, g.(hosts := g.hosts[nick := sid])), sid, WithTarget(s, id))
    ensures Inv(maxPts, db', now)
  {
    assert ShareAdded(db, now, sid, s, id, db');
    TargetsStillCover(maxPts, db, now, sid, s, id, nick, db');
    SessionsStillOk(maxPts, db, now, sid, s, id, db');
    SolosStillHosted(maxPts, db, now, sid, s, id, db');
    GroupStillClear(maxPts, db, now, sid, s, id, nick, g, db');
    GroupsStillOk(maxPts, db, now, sid, s, id, db');
    forall p | Live(db', now, PinKey(p)) ensures PinOk(db', now, p) {
      if p != g.pin {
        assert PinOk(db, now, p);
      }
    }
  }

  lemma GroupStillClear(maxPts: nat, db: Db, now: real, sid: string, s: SessionData, id: string, nick: string,
                        g: GroupData, db': Db)
    requires Inv(maxPts, db, now) && Hosting(db, now, sid, s) && !s.encrypted && ShareAdded(db, now, sid, s, id, db')
    requires if Live(db, now, LocKey(id)) then LiveGroup(db, now, id) && g == GroupAt(db, id) else g.hosts == map[]
    ensures GroupOk(db', g.(hosts := g.hosts[nick := sid]))
  {
    var hosts := g.hosts[nick := sid];
    assert nick in hosts;
    forall n | n in hosts ensures ClearHost(db', hosts[n]) {
      if n != nick {
        assert GroupOk(db, g) && ClearHost(db, g.hosts[n]);
        assert hosts[n] == sid || Same(db, db', SessionKey(hosts[n]));
      }
    }
  }

  // ----- saving a loaded session, posting -----

  /** Saving a live session under its own expiry disturbs no other record. */
  lemma SaveKeepsRest(maxPts: nat, db: Db, now: real, sid: string, s: SessionData)
    requires Typed(db) && RestOk(maxPts, db, now) && SessionOk(maxPts, s)
    requires SessionKey(sid) in db && db[SessionKey(sid)].value.SessionV?
    requires s.expire == SessionAt(db, sid).expire && s.encrypted == SessionAt(db, sid).encrypted
    ensures Typed(PutSession(db, sid, s)) && RestOk(maxPts, PutSession(db, sid, s), now)
  {
    var db' := PutSession(db, sid, s);
    assert forall k :: k != SessionKey(sid) ==> Same(db, db', k);
    assert EntryTyped(SessionKey(sid), db[SessionKey(sid)]);
    forall id | LiveGroup(db', now, id) ensures GroupOk(db', GroupAt(db', id)) {
      assert LiveGroup(db, now, id) && GroupOk(db, GroupAt(db, id));
      forall n | n in GroupAt(db', id).hosts ensures ClearHost(db', GroupAt(db', id).hosts[n]) {
        assert ClearHost(db, GroupAt(db, id).hosts[n]);
      }
    }
    forall q | Live(db', now, PinKey(q)) ensures PinOk(db', now, q) {
      assert PinOk(db, now, q);
    }
    forall id | LiveSolo(db', now, id) ensures SoloHosted(db', now, id) {
      assert SoloHosted(db, now, id);
    }
  }

  /** Coverage reads shares only. */
  lemma CoverFrame(db: Db, db': Db, now: real, sid: string, m: multiset<string>)
    requires Covered(db, now, sid, m) && forall id :: Same(db, db', LocKey(id))
    ensures Covered(db', now, sid, m)
  {
    assert forall id :: LiveSolo(db', now, id) ==> LiveSolo(db, now, id) && SoloAt(db', id) == SoloAt(db, id);
    assert forall id :: LiveGroup(db', now, id) ==> LiveGroup(db, now, id) && GroupAt(db', id) == GroupAt(db, id);
  }

  lemma PostKeepsInv(maxPts: nat, db: Db, now: real, sid: string, p: Point, db': Db)
    requires Inv(maxPts, db, now) && Step(maxPts, db, now, Post(sid, p), db')
    ensures Inv(maxPts, db', now)
  {
    var s := SessionAt(db, sid);
    SaveKeepsRest(maxPts, db, now, sid, s.(points := LastN(maxPts, s.points + [p])));
    forall o | LiveSession(db', now, o) ensures Covered(db', now, o, multiset(SessionAt(db', o).targets)) {
      assert LiveSession(db, now, o) && SessionAt(db', o).targets == SessionAt(db, o).targets;
      CoverFrame(db, db', now, o, multiset(SessionAt(db, o).targets));
    }
  }

  // ----- stopping -----

  lemma StopLinkKeepsCover(db: Db, now: real, sid: string, lid: string, mid: Db, s': SessionData, o: string)
    requires ShareReleased(db, now, sid, lid, mid) && TargetsCover(db, now)
    requires LiveSession(db, now, sid) && LiveSession(db, now, o)
    requires s'.targets == RemoveFirst(SessionAt(db, sid).targets, lid)
    ensures Covered(PutSession(mid, sid, s'), now, o,
            multiset(if o == sid then s'.targets else SessionAt(db, o).targets))
  {
    var m := multiset(SessionAt(db, o).targets);
    RemoveFirstCounts(SessionAt(db, sid).targets, lid);
    ReleaseCovers(db, now, sid, lid, mid, o, m);
    var m' := if o == sid then m - multiset{lid} else m;
    assert Covered(mid, now, o, m');
    assert forall id :: Same(mid, PutSession(mid, sid, s'), LocKey(id));
    CoverFrame(mid, PutSession(mid, sid, s'), now, o, m');
  }

  lemma StopLinkKeepsInv(maxPts: nat, db: Db, now: real, sid: string, lid: string, db': Db)
    requires Inv(maxPts, db, now) && Step(maxPts, db, now, StopLink(sid, lid), db')
    ensures Inv(maxPts, db', now)
  {
    var s := SessionAt(db, sid);
    var s' := s.(targets := RemoveFirst(s.targets, lid));
    var mid :| Released(db, now, sid, lid, mid) && db' == PutSession(mid, sid, s');
    ReleaseIsShareReleased(db, now, sid, lid, mid);
    ReleaseKeepsRest(maxPts, db, now, sid, lid, mid);
    assert Same(db, mid, SessionKey(sid));
    SaveKeepsRest(maxPts, mid, now, sid, s');
    forall o | LiveSession(db', now, o) ensures Covered(db', now, o, multiset(SessionAt(db', o).targets)) {
      assert EntryTyped(SessionKey(sid), db[SessionKey(sid)]);
      assert Same(db, mid, SessionKey(o)) && LiveSession(db, now, o);
      assert SessionAt(db', o).targets == if o == sid then s'.targets else SessionAt(db, o).targets;
      StopLinkKeepsCover(db, now, sid, lid, mid, s', o);
    }
  }

  lemma {:induction false} ReleaseAllKeepsRest(maxPts: nat, db: Db, now: real, sid: string, ts: seq<string>, db': Db)
    requires Typed(db) && RestOk(maxPts, db, now) && ReleasedAll(db, now, sid, ts, db')
    ensures Typed(db') && RestOk(maxPts, db', now)
    ensures forall o :: Same(db, db', SessionKey(o))
    decreases |ts|
  {
    if ts == [] {
    } else {
      var init, last := ts[..|ts| - 1], ts[|ts| - 1];
      var mid :| ReleasedAll(db, now, sid, init, mid) && Released(mid, now, sid, last, db');
      ReleaseAllKeepsRest(maxPts, db, now, sid, init, mid);
      ReleaseIsShareReleased(mid, now, sid, last, db');
      ReleaseKeepsRest(maxPts, mid, now, sid, last, db');
      forall o ensures Same(db, db', SessionKey(o)) {
        assert Same(db, mid, SessionKey(o)) && Same(mid, db', SessionKey(o));
      }
    }
  }

  /** After the whole list has been released, each listing has been used up once. */
  lemma {:induction false} ReleaseAllCovers(db: Db, now: real, sid: string, ts: seq<string>, db': Db, o: string,
                                            m: multiset<string>)
    requires Typed(db) && ReleasedAll(db, now, sid, ts, db') && Covered(db, now, o, m)
    ensures Typed(db') && Covered(db', now, o, if o == sid then m - multiset(ts) else m)
    decreases |ts|
  {
    if ts == [] {
      assert m - multiset(ts) == m;
    } else {
      var init, last := ts[..|ts| - 1], ts[|ts| - 1];
      var mid :| ReleasedAll(db, now, sid, init, mid) && Released(mid, now, sid, last, db');
      ReleaseAllCovers(db, now, sid, init, mid, o, m);
      ReleaseIsShareReleased(mid, now, sid, last, db');
      ReleaseCovers(mid, now, sid, last, db', o, if o == sid then m - multiset(init) else m);
      assert ts == init + [last];
      assert (m - multiset(init)) - multiset{last} == m - multiset(ts);
    }
  }

  /** No live share is left with the session in it. */
  ghost predicate Erased(db: Db, now: real, sid: string) {
    && SessionKey(sid) !in db
    && (forall id :: LiveSolo(db, now, id) ==> SoloAt(db, id).host != sid)
    && (forall id :: LiveGroup(db, now, id) ==> sid !in GroupAt(db, id).hosts.Values)
  }

  lemma CoveredByNothing(db: Db, now: real, sid: string)
    requires Covered(db, now, sid, multiset{})
    ensures forall id :: LiveSolo(db, now, id) ==> SoloAt(db, id).host != sid
    ensures forall id :: LiveGroup(db, now, id) ==> sid !in GroupAt(db, id).hosts.Values
  {
    forall id | LiveGroup(db, now, id) ensures sid !in GroupAt(db, id).hosts.Values {
      var hosts := GroupAt(db, id).hosts;
      assert NicksOf(hosts, sid) == {};
      forall n | n in hosts ensures hosts[n] != sid {
        assert n !in NicksOf(hosts, sid);
      }
    }
  }

  /** A full stop leaves no trace of the session, although every iteration takes out only one
      nickname, and it keeps the invariant. */
  lemma StopAllErases(maxPts: nat, db: Db, now: real, sid: string, db': Db)
    requires Inv(maxPts, db, now) && Step(maxPts, db, now, StopAll(sid), db')
    ensures Erased(db', now, sid) && Inv(maxPts, db', now)
  {
    var ts := SessionAt(db, sid).targets;
    var mid :| ReleasedAll(db, now, sid, ts, mid) && db' == mid - {SessionKey(sid)};
    ReleaseAllKeepsRest(maxPts, db, now, sid, ts, mid);
    ReleaseAllCovers(db, now, sid, ts, mid, sid, multiset(ts));
    assert multiset(ts) - multiset(ts) == multiset{};
    CoveredByNothing(mid, now, sid);
    DeleteKeepsRest(maxPts, mid, now, sid);
    forall o | LiveSession(db', now, o) ensures Covered(db', now, o, multiset(SessionAt(db', o).targets)) {
      assert Same(db, mid, SessionKey(o)) && LiveSession(db, now, o);
      ReleaseAllCovers(db, now, sid, ts, mid, o, multiset(SessionAt(db, o).targets));
      CoverFrame(mid, db', now, o, multiset(SessionAt(db, o).targets));
    }
  }

  lemma DeleteKeepsRest(maxPts: nat, db: Db, now: real, sid: string)
    requires Typed(db) && RestOk(maxPts, db, now)
    requires forall id :: LiveSolo(db, now, id) ==> SoloAt(db, id).host != sid
    requires forall id :: LiveGroup(db, now, id) ==> sid !in GroupAt(db, id).hosts.Values
    ensures Typed(db - {SessionKey(sid)}) && RestOk(maxPts, db - {SessionKey(sid)}, now)
  {
    var db' := db - {SessionKey(sid)};
    assert forall k :: k != SessionKey(sid) ==> Same(db, db', k);
    forall id | LiveGroup(db', now, id) ensures GroupOk(db', GroupAt(db', id)) {
      assert LiveGroup(db, now, id) && GroupOk(db, GroupAt(db, id));
      forall n | n in GroupAt(db', id).hosts ensures ClearHost(db', GroupAt(db', id).hosts[n]) {
        assert ClearHost(db, GroupAt(db, id).hosts[n]) && GroupAt(db, id).hosts[n] in GroupAt(db, id).hosts.Values;
      }
    }
    forall q | Live(db', now, PinKey(q)) ensures PinOk(db', now, q) {
      assert PinOk(db, now, q);
    }
    forall id | LiveSolo(db', now, id) ensures SoloHosted(db', now, id) {
      assert LiveSolo(db, now, id) && SoloHosted(db, now, id);
    }
  }

  // ----- all steps -----

  /** Time passing only makes records disappear, linked ones together. */
  lemma InvOverTime(maxPts: nat, db: Db, now: real, later: real)
    requires Inv(maxPts, db, now) && now <= later
    ensures Inv(maxPts, db, later)
  {
    assert forall k :: Live(db, later, k) ==> Live(db, now, k);
    assert forall id :: LiveSolo(db, later, id) ==> LiveSolo(db, now, id) && SoloHosted(db, now, id);
    assert forall id :: LiveGroup(db, later, id) ==> LiveGroup(db, now, id);
    forall p | Live(db, later, PinKey(p)) ensures PinOk(db, later, p) {
      assert PinOk(db, now, p);
    }
    forall sid | LiveSession(db, later, sid) ensures Covered(db, later, sid, multiset(SessionAt(db, sid).targets)) {
      assert LiveSession(db, now, sid);
    }
  }

  lemma JoinedKeepsInv(maxPts: nat, db: Db, now: real, pin: int, nick: string, sid: string, s: SessionData, db': Db)
    requires Inv(maxPts, db, now) && Hosting(db, now, sid, s) && !s.encrypted && Joined(db, now, pin, nick, sid, s, db')
    ensures Inv(maxPts, db', now)
  {
    var id := db[PinKey(pin)].value.pointsTo;
    AddToGroupKeepsInv(maxPts, db, now, sid, s, id, nick, GroupAt(db, id), db');
  }

  lemma StepKeepsInv(maxPts: nat, db: Db, now: real, ev: Event, db': Db)
    requires Inv(maxPts, db, now) && Step(maxPts, db, now, ev, db')
    ensures Inv(maxPts, db', now)
  {
    match ev
    case NewSolo(sid, s, id, ado) => AddSoloKeepsInv(maxPts, db, now, sid, s, id, ado, db');
    case NewGroup(sid, s, id, nick, pin) =>
      AddToGroupKeepsInv(maxPts, db, now, sid, s, id, nick, GroupData(s.expire, map[], pin), db');
    case Join(sid, s, nick, pin) => JoinedKeepsInv(maxPts, db, now, pin, nick, sid, s, db');
    case NewLink(sid, id, ado) => AddSoloKeepsInv(maxPts, db, now, sid, SessionAt(db, sid), id, ado, db');
    case Adopt(sid, nick, aid, pin) => JoinedKeepsInv(maxPts, db, now, pin, nick, sid, SessionAt(db, sid), db');
    case Post(sid, p) => PostKeepsInv(maxPts, db, now, sid, p, db');
    case StopLink(sid, lid) => StopLinkKeepsInv(maxPts, db, now, sid, lid, db');
    case StopAll(sid) => StopAllErases(maxPts, db, now, sid, db');
    case Read =>
  }
}
