/** The session and share lifecycle as a transition relation over the store, one atomic
    step per handler, and the invariants every run keeps. */
module Lifecycle {
  import opened Wrappers
  import opened Records

  // ----- steps -----

  /** What a handler did to the store.  Refused requests and fetches are `Read`. */
  datatype Event =
    | NewSolo(sid: string, session: SessionData, id: string, adoptable: bool)
    | NewGroup(sid: string, session: SessionData, id: string, nick: string, pin: int)
    | Join(sid: string, session: SessionData, nick: string, pin: int)
    | NewLink(sid: string, id: string, adoptable: bool)
    | Adopt(sid: string, nick: string, aid: string, pin: int)
    | Post(sid: string, point: Point)
    | StopLink(sid: string, lid: string)
    | StopAll(sid: string)
    | Read

  /** A session as the create handler fills it in, before any target or point. */
  predicate FreshSession(s: SessionData) {
    s.interval > 0.0 && s.targets == [] && s.points == []
  }

  function WithTarget(s: SessionData, id: string): SessionData {
    s.(targets := s.targets + [id])
  }

  /** One nickname of the session goes, whichever the map iteration meets first. */
  ghost predicate HostRemoved(h: map<string, string>, sid: string, h': map<string, string>) {
    if NicksOf(h, sid) == {} then h' == h
    else exists n :: n in NicksOf(h, sid) && h' == h - {n}
  }

  function PutOrDropGroup(db: Db, id: string, g: GroupData): Db {
    if g.hosts == map[] then DropGroup(db, id, g.pin) else PutGroup(db, id, g)
  }

  /** Stopping one target: a solo share goes, a group loses one nickname and goes when empty. */
  ghost predicate Released(db: Db, now: real, sid: string, t: string, db': Db) {
    if LiveSolo(db, now, t) then db' == db - {LocKey(t)}
    else if LiveGroup(db, now, t) then
      exists h' ::
        HostRemoved(GroupAt(db, t).hosts, sid, h') && db' == PutOrDropGroup(db, t, GroupAt(db, t).(hosts := h'))
    else db' == db
  }

  /** Stopping a list of targets, from left to right. */
  ghost predicate ReleasedAll(db: Db, now: real, sid: string, ts: seq<string>, db': Db)
    decreases |ts|, 0
  {
    if ts == [] then db' == db else ReleasedThen(db, now, sid, ts[..|ts| - 1], ts[|ts| - 1], db')
  }

  ghost predicate ReleasedThen(db: Db, now: real, sid: string, init: seq<string>, last: string, db': Db)
    decreases |init|, 1
  {
    exists mid :: ReleasedAll(db, now, sid, init, mid) && Released(mid, now, sid, last, db')
  }

  ghost predicate Step(maxPts: nat, db: Db, now: real, ev: Event, db': Db) {
    match ev
    case NewSolo(sid, s, id, ado) =>
      && SessionKey(sid) !in db && FreshSession(s) && !Live(db, now, LocKey(id))
      && db' == PutSession(PutSolo(db, id, SoloData(s.expire, sid, ado)), sid, WithTarget(s, id))
    case NewGroup(sid, s, id, nick, pin) =>
      && SessionKey(sid) !in db && FreshSession(s) && !s.encrypted && !Live(db, now, LocKey(id))
      && db' == PutSession(PutGroup(db, id, GroupData(s.expire, map[nick := sid], pin)), sid, WithTarget(s, id))
    case Join(sid, s, nick, pin) =>
      && SessionKey(sid) !in db && FreshSession(s) && !s.encrypted
      && Joined(db, now, pin, nick, sid, s, db')
    case NewLink(sid, id, ado) =>
      && LiveSession(db, now, sid) && !Live(db, now, LocKey(id))
      && var s := SessionAt(db, sid);
         db' == PutSession(PutSolo(db, id, SoloData(s.expire, sid, ado)), sid, WithTarget(s, id))
    case Adopt(sid, nick, aid, pin) =>
      && LiveSession(db, now, sid) && !SessionAt(db, sid).encrypted
      && LiveSolo(db, now, aid) && SoloAt(db, aid).adoptable && SoloAt(db, aid).host == sid
      && Joined(db, now, pin, nick, sid, SessionAt(db, sid), db')
    case Post(sid, p) =>
      && LiveSession(db, now, sid)
      && var s := SessionAt(db, sid);
         p.Cipher? == s.encrypted && db' == PutSession(db, sid, s.(points := LastN(maxPts, s.points + [p])))
    case StopLink(sid, lid) =>
      && LiveSession(db, now, sid) && lid in SessionAt(db, sid).targets
      && var s := SessionAt(db, sid);
         exists mid ::
           Released(db, now, sid, lid, mid) && db' == PutSession(mid, sid, s.(targets := RemoveFirst(s.targets, lid)))
    case StopAll(sid) =>
      && LiveSession(db, now, sid)
      && exists mid :: ReleasedAll(db, now, sid, SessionAt(db, sid).targets, mid) && db' == mid - {SessionKey(sid)}
    case Read => db' == db
  }

  /** Entering a group by PIN, for a new session and for an adopted one. */
  ghost predicate Joined(db: Db, now: real, pin: int, nick: string, sid: string, s: SessionData, db': Db) {
    && Live(db, now, PinKey(pin)) && db[PinKey(pin)].value.PinV?
    && var id := db[PinKey(pin)].value.pointsTo;
       && LiveGroup(db, now, id)
       && var g := GroupAt(db, id);
          db' == PutSession(PutGroup(db, id, g.(hosts := g.hosts[nick := sid])), sid, WithTarget(s, id))
  }

  // ----- the invariant -----

  /** Every key holds the kind of record its prefix says, expiring when the record says. */
  ghost predicate Typed(db: Db) {
    forall k :: k in db ==> EntryTyped(k, db[k])
  }

  predicate EntryTyped(k: Key, e: Entry) {
    match k
    case SessionKey(_) => e.value.SessionV? && e.expireAt == e.value.session.expire
    case LocKey(_) =>
      || (e.value.SoloV? && e.expireAt == e.value.solo.soloExpire)
      || (e.value.GroupV? && e.expireAt == e.value.group.groupExpire)
    case PinKey(_) => e.value.PinV?
  }

  predicate SessionOk(maxPts: nat, s: SessionData) {
    s.interval > 0.0 && |s.points| <= maxPts && forall p :: p in s.points ==> p.Cipher? == s.encrypted
  }

  ghost predicate SessionsOk(maxPts: nat, db: Db) {
    forall sid {:trigger SessionKey(sid)} :: SessionKey(sid) in db ==>
      db[SessionKey(sid)].value.SessionV? && SessionOk(maxPts, SessionAt(db, sid))
  }

  /** The host of a live solo share is live and expires with it. */
  ghost predicate SolosHosted(db: Db, now: real) {
    forall id :: LiveSolo(db, now, id) ==> SoloHosted(db, now, id)
  }

  predicate SoloHosted(db: Db, now: real, id: string)
    requires LiveSolo(db, now, id)
  {
    var sid := SoloAt(db, id).host;
    LiveSession(db, now, sid) && SessionAt(db, sid).expire == SoloAt(db, id).soloExpire
  }

  /** `m` lists every live solo share hosted by the session, and every live group at least
      as often as the session has nicknames in it. */
  ghost predicate Covered(db: Db, now: real, sid: string, m: multiset<string>) {
    && (forall id :: LiveSolo(db, now, id) && SoloAt(db, id).host == sid ==> id in m)
    && (forall id :: LiveGroup(db, now, id) ==> |NicksOf(GroupAt(db, id).hosts, sid)| <= m[id])
  }

  ghost predicate TargetsCover(db: Db, now: real) {
    forall sid :: LiveSession(db, now, sid) ==> Covered(db, now, sid, multiset(SessionAt(db, sid).targets))
  }

  /** A live group has a host, and hosts only sessions that were created unencrypted. */
  ghost predicate GroupsOk(db: Db, now: real) {
    forall id :: LiveGroup(db, now, id) ==> GroupOk(db, GroupAt(db, id))
  }

  ghost predicate GroupOk(db: Db, g: GroupData) {
    g.hosts != map[] && forall n :: n in g.hosts ==> ClearHost(db, g.hosts[n])
  }

  predicate ClearHost(db: Db, sid: string) {
    SessionKey(sid) in db && db[SessionKey(sid)].value.SessionV? && !SessionAt(db, sid).encrypted
  }

  /** A live PIN entry leads to a live group with that PIN and that expiry. */
  ghost predicate PinsOk(db: Db, now: real) {
    forall p :: Live(db, now, PinKey(p)) ==> PinOk(db, now, p)
  }

  predicate PinOk(db: Db, now: real, p: int)
    requires PinKey(p) in db
  {
    var e := db[PinKey(p)];
    && e.value.PinV?
    && LiveGroup(db, now, e.value.pointsTo)
    && GroupAt(db, e.value.pointsTo).pin == p
    && db[LocKey(e.value.pointsTo)].expireAt == e.expireAt
  }

  ghost predicate Inv(maxPts: nat, db: Db, now: real) {
    && Typed(db) && SessionsOk(maxPts, db)
    && SolosHosted(db, now) && TargetsCover(db, now) && GroupsOk(db, now) && PinsOk(db, now)
  }
}
