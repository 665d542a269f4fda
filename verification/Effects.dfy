/** What each request may do to the records of others and to its own: what no step ever changes,
    and who can take what away. */
module Effects {
  import opened Records
  import opened Lifecycle
  import opened Runs
  import Safety

  // ----- sessions -----

  /** What a stop leaves of the sessions: the one that stops loses a listing or goes. */
  lemma StopKeepsSessions(maxPts: nat, db: Db, now: real, ev: Event, db': Db, o: string)
    requires Inv(maxPts, db, now) && Step(maxPts, db, now, ev, db') && (ev.StopLink? || ev.StopAll?)
    ensures o != ev.sid ==> Safety.Same(db, db', SessionKey(o))
    ensures ev.StopAll? ==> SessionKey(ev.sid) !in db'
    ensures ev.StopLink? ==>
              && SessionKey(ev.sid) in db' && db'[SessionKey(ev.sid)].value.SessionV?
              && var s := SessionAt(db, ev.sid);
                 SessionAt(db', ev.sid) == s.(targets := RemoveFirst(s.targets, ev.lid))
  {
    var s := SessionAt(db, ev.sid);
    if ev.StopLink? {
      var mid :|
        Released(db, now, ev.sid, ev.lid, mid)
            && db' == PutSession(mid, ev.sid, s.(targets := RemoveFirst(s.targets, ev.lid)));
      Safety.ReleaseIsShareReleased(db, now, ev.sid, ev.lid, mid);
      assert Safety.Same(db, mid, SessionKey(o));
    } else {
      var mid :| ReleasedAll(db, now, ev.sid, s.targets, mid) && db' == mid - {SessionKey(ev.sid)};
      Safety.ReleaseAllKeepsRest(maxPts, db, now, ev.sid, s.targets, mid);
      assert Safety.Same(db, mid, SessionKey(o));
    }
  }

  /** A session stays until it stops itself, expired or not, and keeps its expiry, its interval and
      how it is encrypted.  Only requests of its own change what it lists. */
  lemma SessionsKeepTerms(maxPts: nat, db: Db, now: real, ev: Event, db': Db, o: string)
    requires Inv(maxPts, db, now) && Step(maxPts, db, now, ev, db') && SessionKey(o) in db
    ensures SessionKey(o) in db' <==> ev != StopAll(o)
    ensures SessionKey(o) in db' ==>
              && db[SessionKey(o)].value.SessionV? && db'[SessionKey(o)].value.SessionV?
              && var s, s' := SessionAt(db, o), SessionAt(db', o);
                 && s'.expire == s.expire && s'.interval == s.interval
                 && s'.encrypted == s.encrypted && s'.salt == s.salt
                 && (s'.points != s.points ==> ev.Post? && ev.sid == o)
                 && (s'.targets != s.targets ==> !ev.Read? && !ev.Post? && ev.sid == o)
  {
    assert EntryTyped(SessionKey(o), db[SessionKey(o)]);
    if ev.StopLink? || ev.StopAll? {
      StopKeepsSessions(maxPts, db, now, ev, db', o);
    }
  }

  // ----- groups -----

  lemma ReleaseKeepsOthers(db: Db, now: real, sid: string, t: string, db': Db, id: string, n: string)
    requires Typed(db) && Released(db, now, sid, t, db') && LiveGroup(db, now, id)
    requires n in GroupAt(db, id).hosts && GroupAt(db, id).hosts[n] != sid
    ensures Typed(db') && LiveGroup(db', now, id)
    ensures n in GroupAt(db', id).hosts && GroupAt(db', id).hosts[n] == GroupAt(db, id).hosts[n]
  {
    Safety.ReleaseIsShareReleased(db, now, sid, t, db');
    if id == t {
      var g := GroupAt(db, t);
      assert EntryTyped(LocKey(t), db[LocKey(t)]);
      var h' :| HostRemoved(g.hosts, sid, h') && db' == PutOrDropGroup(db, t, g.(hosts := h'));
      assert n in h' && h'[n] == g.hosts[n];
    } else {
      assert Safety.Same(db, db', LocKey(id));
    }
  }

  lemma {:induction false} ReleaseAllKeepsOthers(db: Db, now: real, sid: string, ts: seq<string>, db': Db, id: string,
                                                 n: string)
    requires Typed(db) && ReleasedAll(db, now, sid, ts, db') && LiveGroup(db, now, id)
    requires n in GroupAt(db, id).hosts && GroupAt(db, id).hosts[n] != sid
    ensures Typed(db') && LiveGroup(db', now, id)
    ensures n in GroupAt(db', id).hosts && GroupAt(db', id).hosts[n] == GroupAt(db, id).hosts[n]
    decreases |ts|
  {
    if ts == [] {
    } else {
      var init, last := ts[..|ts| - 1], ts[|ts| - 1];
      var mid :| ReleasedAll(db, now, sid, init, mid) && Released(mid, now, sid, last, db');
      ReleaseAllKeepsOthers(db, now, sid, init, mid, id, n);
      ReleaseKeepsOthers(mid, now, sid, last, db', id, n);
    }
  }

  /** A request enters the group `id` under the nickname `n`. */
  predicate Enters(db: Db, ev: Event, id: string, n: string) {
    (ev.Join? || ev.Adopt?) && ev.nick == n && PinKey(ev.pin) in db && db[PinKey(ev.pin)].value == PinV(id)
  }

  /** A session is in a group for as long as the group has not expired, it does not stop, and nobody
      enters under its nickname: nobody else can throw it out, nor take the group down. */
  lemma HostsStay(maxPts: nat, db: Db, now: real, ev: Event, db': Db, id: string, n: string)
    requires Inv(maxPts, db, now) && Step(maxPts, db, now, ev, db') && LiveGroup(db, now, id)
    requires n in GroupAt(db, id).hosts && !Enters(db, ev, id, n)
    requires (ev.StopLink? || ev.StopAll?) ==> ev.sid != GroupAt(db, id).hosts[n]
    ensures LiveGroup(db', now, id)
    ensures n in GroupAt(db', id).hosts && GroupAt(db', id).hosts[n] == GroupAt(db, id).hosts[n]
  {
    match ev
    case StopLink(sid, lid) =>
      var s := SessionAt(db, sid);
      var mid :| Released(db, now, sid, lid, mid)
          && db' == PutSession(mid, sid, s.(targets := RemoveFirst(s.targets, lid)));
      ReleaseKeepsOthers(db, now, sid, lid, mid, id, n);
    case StopAll(sid) =>
      var mid :| ReleasedAll(db, now, sid, SessionAt(db, sid).targets, mid) && db' == mid - {SessionKey(sid)};
      ReleaseAllKeepsOthers(db, now, sid, SessionAt(db, sid).targets, mid, id, n);
    case Join(sid, s, nick, pin) =>
      EnteringKeepsOthers(maxPts, db, now, pin, nick, sid, s, db', id, n);
    case Adopt(sid, nick, aid, pin) =>
      EnteringKeepsOthers(maxPts, db, now, pin, nick, sid, SessionAt(db, sid), db', id, n);
    case _ =>
  }

  lemma EnteringKeepsOthers(maxPts: nat, db: Db, now: real, pin: int, nick: string, sid: string, s: SessionData,
                            db': Db, id: string, n: string)
    requires Inv(maxPts, db, now) && Joined(db, now, pin, nick, sid, s, db') && LiveGroup(db, now, id)
    requires n in GroupAt(db, id).hosts && !(nick == n && db[PinKey(pin)].value == PinV(id))
    ensures LiveGroup(db', now, id)
    ensures n in GroupAt(db', id).hosts && GroupAt(db', id).hosts[n] == GroupAt(db, id).hosts[n]
  {
    assert EntryTyped(LocKey(id), db[LocKey(id)]);
  }

  /** Over a whole stretch of a run: a group outlives everybody's requests but its hosts' own. */
  lemma {:induction false} GroupLasts(maxPts: nat, run: seq<Tick>, i: nat, j: nat, id: string, n: string)
    requires IsRun(maxPts, run) && i <= j < |run|
    requires LiveGroup(run[i].db, run[j].now, id) && n in GroupAt(run[i].db, id).hosts
    requires forall k :: i < k <= j ==>
               && !Enters(run[k - 1].db, run[k].ev, id, n)
               && (run[k].ev.StopLink? || run[k].ev.StopAll? ==> run[k].ev.sid != GroupAt(run[i].db, id).hosts[n])
    ensures LiveGroup(run[j].db, run[j].now, id) && n in GroupAt(run[j].db, id).hosts
    ensures GroupAt(run[j].db, id).hosts[n] == GroupAt(run[i].db, id).hosts[n]
    ensures run[j].db[LocKey(id)].expireAt == run[i].db[LocKey(id)].expireAt
            && GroupAt(run[j].db, id).pin == GroupAt(run[i].db, id).pin
  {
    if i == j {
    } else {
      assert TickOk(maxPts, run, j);
      RunKeepsInv(maxPts, run, j);
      assert run[j - 1].now <= run[j].now;
      GroupLasts(maxPts, run, i, j - 1, id, n);
      HostsStay(maxPts, run[j - 1].db, run[j].now, run[j].ev, run[j].db, id, n);
      SharesAreStable(maxPts, run[j - 1].db, run[j].now, run[j].ev, run[j].db, id);
      assert EntryTyped(LocKey(id), run[j].db[LocKey(id)]) && EntryTyped(LocKey(id), run[j - 1].db[LocKey(id)]);
    }
  }
}
