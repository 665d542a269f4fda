/** Safety over whole runs of the server: any number of steps, from an empty store, under a
    clock that never goes back. */
module Runs {
  import opened Wrappers
  import opened Records
  import opened Lifecycle
  import opened Model
  import Safety

  /** One step of a run: when it happened, what it did, and the store it left. */
  datatype Tick = Tick(now: real, ev: Event, db: Db)

  /** The store before step `i`. */
  function Before(run: seq<Tick>, i: nat): Db
    requires i <= |run|
  {
    if i == 0 then map[] else run[i - 1].db
  }

  ghost predicate IsRun(maxPts: nat, run: seq<Tick>) {
    forall i :: 0 <= i < |run| ==> TickOk(maxPts, run, i)
  }

  ghost predicate TickOk(maxPts: nat, run: seq<Tick>, i: nat)
    requires i < |run|
  {
    && (i > 0 ==> run[i - 1].now <= run[i].now)
    && Step(maxPts, Before(run, i), run[i].now, run[i].ev, run[i].db)
  }

  /** The invariant holds before and after every step of every run. */
  lemma {:induction false} RunKeepsInv(maxPts: nat, run: seq<Tick>, i: nat)
    requires IsRun(maxPts, run) && i < |run|
    ensures Inv(maxPts, Before(run, i), run[i].now) && Inv(maxPts, run[i].db, run[i].now)
  {
    assert TickOk(maxPts, run, i);
    if i == 0 {
    } else {
      RunKeepsInv(maxPts, run, i - 1);
      Safety.InvOverTime(maxPts, run[i - 1].db, run[i - 1].now, run[i].now);
    }
    Safety.StepKeepsInv(maxPts, Before(run, i), run[i].now, run[i].ev, run[i].db);
  }

  /** A viewer of a live solo share always finds the session behind it, at any later moment
      at which the share is still live, and the session lists the share. */
  lemma SoloAlwaysFindsSession(maxPts: nat, run: seq<Tick>, i: nat, now: real, id: string)
    requires IsRun(maxPts, run) && i < |run| && run[i].now <= now && LiveSolo(run[i].db, now, id)
    ensures var solo := SoloAt(run[i].db, id);
            && LiveSession(run[i].db, now, solo.host)
            && SessionAt(run[i].db, solo.host).expire == solo.soloExpire
            && id in SessionAt(run[i].db, solo.host).targets
  {
    RunKeepsInv(maxPts, run, i);
    var db := run[i].db;
    Safety.InvOverTime(maxPts, db, run[i].now, now);
    assert SoloHosted(db, now, id);
    assert Covered(db, now, SoloAt(db, id).host, multiset(SessionAt(db, SoloAt(db, id).host).targets));
  }

  /** In every state of a run a session has at most as many nicknames in a live group as its
      targets list the group. */
  lemma NicksWithinTargets(maxPts: nat, run: seq<Tick>, i: nat, now: real, sid: string, id: string)
    requires IsRun(maxPts, run) && i < |run| && run[i].now <= now
    requires LiveSession(run[i].db, now, sid) && LiveGroup(run[i].db, now, id)
    ensures |NicksOf(GroupAt(run[i].db, id).hosts, sid)| <= multiset(SessionAt(run[i].db, sid).targets)[id]
  {
    RunKeepsInv(maxPts, run, i);
    var db := run[i].db;
    Safety.InvOverTime(maxPts, db, run[i].now, now);
    assert Covered(db, now, sid, multiset(SessionAt(db, sid).targets));
  }

  /** In every state of a run a live PIN leads to a live group that carries it, expires with
      the entry and has a host: joining and adopting never meet any other kind of record. */
  lemma PinLeadsToGroup(maxPts: nat, run: seq<Tick>, i: nat, now: real, pin: int)
    requires IsRun(maxPts, run) && i < |run| && run[i].now <= now && Live(run[i].db, now, PinKey(pin))
    ensures var e := run[i].db[PinKey(pin)];
            && e.value.PinV? && LiveGroup(run[i].db, now, e.value.pointsTo)
            && var g := GroupAt(run[i].db, e.value.pointsTo);
               g.pin == pin && g.groupExpire == e.expireAt && g.hosts != map[]
  {
    RunKeepsInv(maxPts, run, i);
    var db := run[i].db;
    Safety.InvOverTime(maxPts, db, run[i].now, now);
    assert PinOk(db, now, pin);
    var id := db[PinKey(pin)].value.pointsTo;
    assert EntryTyped(LocKey(id), db[LocKey(id)]) && GroupOk(db, GroupAt(db, id));
  }

  // ----- after a full stop -----

  predicate Introduces(ev: Event, sid: string) {
    (ev.NewSolo? || ev.NewGroup? || ev.Join?) && ev.sid == sid
  }

  lemma ReleaseStaysErased(db: Db, now: real, sid: string, t: string, mid: Db, gone: string)
    requires Typed(db) && Released(db, now, sid, t, mid) && Safety.Erased(db, now, gone)
    ensures Typed(mid) && Safety.Erased(mid, now, gone)
  {
    Safety.ReleaseIsShareReleased(db, now, sid, t, mid);
    assert Safety.Same(db, mid, SessionKey(gone));
    forall id | LiveSolo(mid, now, id) ensures SoloAt(mid, id).host != gone {
      assert LiveSolo(db, now, id);
    }
    forall id | LiveGroup(mid, now, id) ensures gone !in GroupAt(mid, id).hosts.Values {
      assert LiveGroup(db, now, id);
      if id == t {
        Safety.RemoveNick(GroupAt(db, t).hosts, GroupAt(mid, t).hosts, sid);
      }
    }
  }

  lemma {:induction false} ReleaseAllStaysErased(db: Db, now: real, sid: string, ts: seq<string>, mid: Db, gone: string)
    requires Typed(db) && ReleasedAll(db, now, sid, ts, mid) && Safety.Erased(db, now, gone)
    ensures Typed(mid) && Safety.Erased(mid, now, gone)
    decreases |ts|
  {
    if ts == [] {
    } else {
      var init, last := ts[..|ts| - 1], ts[|ts| - 1];
      var m :| ReleasedAll(db, now, sid, init, m) && Released(m, now, sid, last, mid);
      ReleaseAllStaysErased(db, now, sid, init, m, gone);
      ReleaseStaysErased(m, now, sid, last, mid, gone);
    }
  }

  /** Erasure reads shares, besides the session's own key. */
  lemma ErasedFrame(db: Db, db': Db, now: real, gone: string)
    requires Safety.Erased(db, now, gone) && SessionKey(gone) !in db' && forall id :: Safety.Same(db, db', LocKey(id))
    ensures Safety.Erased(db', now, gone)
  {
    assert forall id :: LiveSolo(db', now, id) ==> LiveSolo(db, now, id) && SoloAt(db', id) == SoloAt(db, id);
    assert forall id :: LiveGroup(db', now, id) ==> LiveGroup(db, now, id) && GroupAt(db', id) == GroupAt(db, id);
  }

  lemma StepStaysErased(maxPts: nat, db: Db, now: real, ev: Event, db': Db, gone: string)
    requires Typed(db) && Step(maxPts, db, now, ev, db') && Safety.Erased(db, now, gone) && !Introduces(ev, gone)
    ensures Safety.Erased(db', now, gone)
  {
    match ev
    case StopLink(sid, lid) =>
      var s := SessionAt(db, sid);
      var mid :| Released(db, now, sid, lid, mid)
          && db' == PutSession(mid, sid, s.(targets := RemoveFirst(s.targets, lid)));
      ReleaseStaysErased(db, now, sid, lid, mid, gone);
      ErasedFrame(mid, db', now, gone);
    case StopAll(sid) =>
      var mid :| ReleasedAll(db, now, sid, SessionAt(db, sid).targets, mid) && db' == mid - {SessionKey(sid)};
      ReleaseAllStaysErased(db, now, sid, SessionAt(db, sid).targets, mid, gone);
      ErasedFrame(mid, db', now, gone);
    case _ =>
      forall id | LiveSolo(db', now, id) ensures SoloAt(db', id).host != gone {
        if Safety.Same(db, db', LocKey(id)) {
          assert LiveSolo(db, now, id);
        }
      }
      forall id | LiveGroup(db', now, id) ensures gone !in GroupAt(db', id).hosts.Values {
        if LiveGroup(db, now, id) {
          assert gone !in GroupAt(db, id).hosts.Values;
        }
      }
  }

  /** Once fully stopped, a session never comes back: as long as its id is not handed out
      again, no later state of the run has it as a session or in any live share. */
  lemma {:induction false} StoppedForGood(maxPts: nat, run: seq<Tick>, i: nat, j: nat)
    requires IsRun(maxPts, run) && i <= j < |run| && run[i].ev.StopAll?
    requires forall k :: i < k <= j ==> !Introduces(run[k].ev, run[i].ev.sid)
    ensures Safety.Erased(run[j].db, run[j].now, run[i].ev.sid)
  {
    var gone := run[i].ev.sid;
    RunKeepsInv(maxPts, run, j);
    assert TickOk(maxPts, run, j);
    if i == j {
      Safety.StopAllErases(maxPts, Before(run, i), run[i].now, gone, run[i].db);
    } else {
      StoppedForGood(maxPts, run, i, j - 1);
      ErasedOverTime(run[j - 1].db, run[j - 1].now, run[j].now, gone);
      StepStaysErased(maxPts, run[j - 1].db, run[j].now, run[j].ev, run[j].db, gone);
    }
  }

  lemma ErasedOverTime(db: Db, now: real, later: real, gone: string)
    requires Safety.Erased(db, now, gone) && now <= later
    ensures Safety.Erased(db, later, gone)
  {
    assert forall k :: Live(db, later, k) ==> Live(db, now, k);
    assert forall id :: LiveSolo(db, later, id) ==> LiveSolo(db, now, id);
    assert forall id :: LiveGroup(db, later, id) ==> LiveGroup(db, now, id);
  }

  // ----- what a step leaves alone -----

  ghost predicate Stable(db: Db, now: real, db': Db, id: string) {
    && (LiveSolo(db, now, id) ==> Safety.Same(db, db', LocKey(id)) || LocKey(id) !in db')
    && (LiveGroup(db, now, id) ==>
          || LocKey(id) !in db'
          || (LiveGroup(db', now, id) && GroupAt(db', id) == GroupAt(db, id).(hosts := GroupAt(db', id).hosts)))
    && (LocKey(id) !in db ==> LocKey(id) !in db')
  }

  lemma ReleaseStable(db: Db, now: real, sid: string, t: string, db': Db, id: string)
    requires Typed(db) && Released(db, now, sid, t, db')
    ensures Stable(db, now, db', id)
  {
    Safety.ReleaseIsShareReleased(db, now, sid, t, db');
    assert id != t ==> Safety.Same(db, db', LocKey(id));
    if id == t && LiveGroup(db, now, t) {
      assert EntryTyped(LocKey(t), db[LocKey(t)]);
    }
  }

  lemma {:induction false} ReleaseAllStable(db: Db, now: real, sid: string, ts: seq<string>, db': Db, id: string)
    requires Typed(db) && ReleasedAll(db, now, sid, ts, db')
    ensures Typed(db') && Stable(db, now, db', id)
    decreases |ts|
  {
    if ts == [] {
    } else {
      var init, last := ts[..|ts| - 1], ts[|ts| - 1];
      var m :| ReleasedAll(db, now, sid, init, m) && Released(m, now, sid, last, db');
      ReleaseAllStable(db, now, sid, init, m, id);
      ReleaseStable(m, now, sid, last, db', id);
      Safety.ReleaseIsShareReleased(m, now, sid, last, db');
    }
  }

  lemma StopStable(maxPts: nat, db: Db, now: real, ev: Event, db': Db, id: string)
    requires Inv(maxPts, db, now) && Step(maxPts, db, now, ev, db') && (ev.StopLink? || ev.StopAll?)
    ensures Stable(db, now, db', id)
  {
    var sid := ev.sid;
    if ev.StopLink? {
      var s := SessionAt(db, sid);
      var mid :|
        Released(db, now, sid, ev.lid, mid)
            && db' == PutSession(mid, sid, s.(targets := RemoveFirst(s.targets, ev.lid)));
      ReleaseStable(db, now, sid, ev.lid, mid, id);
      assert Safety.Same(mid, db', LocKey(id));
    } else {
      var mid :| ReleasedAll(db, now, sid, SessionAt(db, sid).targets, mid) && db' == mid - {SessionKey(sid)};
      ReleaseAllStable(db, now, sid, SessionAt(db, sid).targets, mid, id);
      assert Safety.Same(mid, db', LocKey(id));
    }
  }

  /** A live solo share is never rewritten: a step either leaves its record untouched or stops it.
      A live group keeps its PIN and expiry for as long as it is live. */
  lemma SharesAreStable(maxPts: nat, db: Db, now: real, ev: Event, db': Db, id: string)
    requires Inv(maxPts, db, now) && Step(maxPts, db, now, ev, db')
    ensures LiveSolo(db, now, id) ==>
              Safety.Same(db, db', LocKey(id)) || (LocKey(id) !in db' && (ev.StopLink? || ev.StopAll?))
    ensures LiveGroup(db, now, id) ==>
              (LiveGroup(db', now, id) && GroupAt(db', id) == GroupAt(db, id).(hosts := GroupAt(db', id).hosts))
              || (LocKey(id) !in db' && (ev.StopLink? || ev.StopAll?))
  {
    match ev
    case StopLink(_, _) => StopStable(maxPts, db, now, ev, db', id);
    case StopAll(_) => StopStable(maxPts, db, now, ev, db', id);
    case Join(sid, s, nick, pin) => JoinedStable(maxPts, db, now, pin, nick, sid, s, db', id);
    case Adopt(sid, nick, aid, pin) => JoinedStable(maxPts, db, now, pin, nick, sid, SessionAt(db, sid), db', id);
    case _ =>
  }

  lemma JoinedStable(maxPts: nat, db: Db, now: real, pin: int, nick: string, sid: string, s: SessionData, db': Db,
                     id: string)
    requires Inv(maxPts, db, now) && Joined(db, now, pin, nick, sid, s, db')
    ensures LiveSolo(db, now, id) ==> Safety.Same(db, db', LocKey(id))
    ensures LiveGroup(db, now, id) ==>
              LiveGroup(db', now, id) && GroupAt(db', id) == GroupAt(db, id).(hosts := GroupAt(db', id).hosts)
  {
    assert LocKey(id) in db ==> EntryTyped(LocKey(id), db[LocKey(id)]);
  }

  /** Creating a share or a link leaves every live share as it was, and every other session. */
  lemma CreationNeverClobbers(maxPts: nat, db: Db, now: real, ev: Event, db': Db)
    requires Inv(maxPts, db, now) && Step(maxPts, db, now, ev, db') && (ev.NewSolo? || ev.NewGroup? || ev.NewLink?)
    ensures forall id :: Live(db, now, LocKey(id)) ==> Safety.Same(db, db', LocKey(id))
    ensures forall sid :: sid != ev.sid ==> Safety.Same(db, db', SessionKey(sid))
    ensures !Live(db, now, LocKey(ev.id)) && LocKey(ev.id) in db'
    ensures db'[LocKey(ev.id)].expireAt == db'[SessionKey(ev.sid)].expireAt
  {
  }

  /** So a solo share keeps its record for as long as it has not expired and nobody stops it,
      whatever is created, joined, adopted or posted meanwhile. */
  lemma {:induction false} SoloLasts(maxPts: nat, run: seq<Tick>, i: nat, j: nat, id: string)
    requires IsRun(maxPts, run) && i <= j < |run| && LiveSolo(run[i].db, run[j].now, id)
    requires forall k :: i < k <= j && (run[k].ev.StopLink? || run[k].ev.StopAll?) ==> LocKey(id) in run[k].db
    ensures LocKey(id) in run[j].db && run[j].db[LocKey(id)] == run[i].db[LocKey(id)]
  {
    if i == j {
    } else {
      assert TickOk(maxPts, run, j);
      RunKeepsInv(maxPts, run, j);
      SoloLasts(maxPts, run, i, j - 1, id);
      SharesAreStable(maxPts, run[j - 1].db, run[j].now, run[j].ev, run[j].db, id);
    }
  }

  // ----- reading a group -----

  /** `read` is precisely what an unencrypted session has to show for `since`. */
  ghost predicate ExactRead(s: SessionData, since: real, read: Slice<Point>) {
    && (forall p :: p in s.points ==> p.Plain?)
    && (since <= 0.0 ==> read == Items(s.points))
    && (since > 0.0 ==> (read == Nil <==> forall p :: p in s.points ==> p.time <= since))
    && (since > 0.0 && read != Nil ==> forall p :: p in read.items <==> p in s.points && p.time > since)
  }

  /** In every state of a run, reading a live group is exact: its live hosts are unencrypted, their
      intervals are positive, and for a positive `since` each is listed with precisely its points
      newer than `since`. A host with none is encoded as `null`. */
  lemma GroupReadsAreExact(maxPts: nat, run: seq<Tick>, i: nat, now: real, id: string, since: real, nick: string)
    requires IsRun(maxPts, run) && i < |run| && run[i].now <= now && LiveGroup(run[i].db, now, id)
    requires nick in GroupAt(run[i].db, id).hosts
    ensures var db, hosts := run[i].db, GroupAt(run[i].db, id).hosts;
            var all := AllPoints(db, now, hosts, since);
            && (nick in all <==> LiveSession(db, now, hosts[nick]))
            && (nick in all ==>
                  && !SessionAt(db, hosts[nick]).encrypted && SessionAt(db, hosts[nick]).interval > 0.0
                  && ExactRead(SessionAt(db, hosts[nick]), since, all[nick]))
  {
    RunKeepsInv(maxPts, run, i);
    var db := run[i].db;
    Safety.InvOverTime(maxPts, db, run[i].now, now);
    assert GroupOk(db, GroupAt(db, id));
    var sid := GroupAt(db, id).hosts[nick];
    assert ClearHost(db, sid) && SessionOk(maxPts, SessionAt(db, sid));
    ReadIsExact(maxPts, SessionAt(db, sid), since);
  }

  lemma ReadIsExact(maxPts: nat, s: SessionData, since: real)
    requires SessionOk(maxPts, s) && !s.encrypted
    ensures ExactRead(s, since, ServedSlice(s, since))
  {
    if since > 0.0 && Newer(s.points, since) != [] {
      assert Newer(s.points, since)[0] in s.points;
    }
  }
}
