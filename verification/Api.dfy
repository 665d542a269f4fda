/** The request handlers (api/).  A request is given in parsed form, the clock is read once per
    request, and what the server draws at random (session id, PIN, link bytes) comes in from
    outside.  Each handler performs one step of the lifecycle. */
module Api {
  import opened Wrappers
  import opened Records
  import opened Store
  import opened Lifecycle
  import opened Model
  import Linkgen
  import Safety

  datatype Config = Config(maxDuration: int, minInterval: real, maxCachedPts: nat,
                           allowLinkReq: bool, reservedLinks: map<string, seq<string>>, reserveWL: bool)

  /** A form field that has to be a number. */
  datatype Field<+T> = Missing | Malformed | Parsed(value: T)

  /** A form field kept as text, with the number it reads as, if any. */
  datatype Text = Text(raw: string, num: Option<real>)

  datatype Mode = CreateAlone | CreateGroup | JoinGroup | Unsupported

  datatype CreateRequest = CreateRequest(
    dur: Field<int>, interval: Field<real>, authentic: bool, user: string, mode: Mode, adoptable: bool,
    encrypted: bool, salt: string, customLink: string, nickname: string, pin: int)

  datatype PostRequest = PostRequest(
    sid: string, lat: Text, lon: Text, time: Text, prv: string, acc: Text, spd: Text, iv: string)

  datatype Reply =
    | Refused(message: string)
    | Created(sid: string, link: string)
    | Linked(link: string)
    | Targets(links: seq<string>)
    | Done

  datatype FetchReply =
    | NotFound
    | SoloReply(expire: int, interval: real, points: Slice<Point>, encrypted: bool, salt: string)
    | GroupReply(expire: int, interval: real, groupPoints: map<string, Slice<Point>>)

  /** The requests that create, once a group to join or a free link is found. */
  predicate Acceptable(cfg: Config, r: CreateRequest) {
    && r.dur.Parsed? && 0 < r.dur.value <= cfg.maxDuration
    && r.interval.Parsed? && 0.0 < r.interval.value <= cfg.maxDuration as real && cfg.minInterval <= r.interval.value
    && r.authentic && !r.mode.Unsupported?
    && (r.mode.CreateGroup? || r.mode.JoinGroup? ==> !r.encrypted && r.nickname != "")
    && (r.mode.JoinGroup? ==> r.pin != 0)
    && (r.encrypted ==> r.salt != "")
  }

  /** What is said to a request that is turned away is so. */
  predicate TrueRefusal(cfg: Config, r: CreateRequest, message: string) {
    var grouped := r.mode.CreateGroup? || r.mode.JoinGroup?;
    || (message == "Missing data!" &&
        (r.dur.Missing? || r.interval.Missing? || (grouped && r.nickname == "") || (r.mode.JoinGroup? && r.pin == 0)
         || (r.encrypted && r.salt == "")))
    || (message == "Incorrect password!" && !r.authentic)
    || (message == "Invalid duration!" && (r.dur.Malformed? || (r.dur.Parsed? && r.dur.value <= 0)))
    || (message == "Invalid interval!" && (r.interval.Malformed? || (r.interval.Parsed? && r.interval.value <= 0.0)))
    || (message == "Share duration exceeds maximum configured!" && r.dur.Parsed? && r.dur.value > cfg.maxDuration)
    || (message == "Interval exceeds maximum configured!" && r.interval.Parsed? &&
        r.interval.value > cfg.maxDuration as real)
    || (message == "Interval is too short!" && r.interval.Parsed? && r.interval.value < cfg.minInterval)
    || (message == "End-to-end encryption is not supported for group shares." && grouped && r.encrypted)
  }

  /** The session an acceptable request asks for. */
  function RequestedSession(r: CreateRequest, now: real): SessionData
    requires r.dur.Parsed? && r.interval.Parsed?
  {
    SessionData((now + r.dur.value as real).Floor, r.interval.value, [], [], r.encrypted,
                if r.encrypted then r.salt else "")
  }

  predicate LinkChars(w: string) {
    w != "" && forall c :: c in w ==> 'a' <= c <= 'z' || 'A' <= c <= 'Z' || '0' <= c <= '9' || c == '_' || c == '-'
  }

  predicate CustomAllowed(cfg: Config, db: Db, now: real, link: string, user: string) {
    && cfg.allowLinkReq
    && (link in cfg.reservedLinks ==> user in cfg.reservedLinks[link])
    && (cfg.reserveWL ==> link in cfg.reservedLinks)
    && !Live(db, now, LocKey(link))
  }

  function NumberOr0(t: Text): Option<real> {
    if t.raw == "" then None else Some(match t.num case Some(x) => x case None => 0.0)
  }

  function TextOrNull(raw: string): Option<string> {
    if raw == "" then None else Some(raw)
  }

  predicate Within(x: Option<real>, limit: real) {
    x.Some? && -limit <= x.value <= limit
  }

  /** A post the server takes: a clear one with its numbers in range, an encrypted one with its
      initialization vector. */
  predicate Postable(encrypted: bool, r: PostRequest) {
    && r.lat.raw != "" && r.lon.raw != "" && r.time.raw != ""
    && if encrypted then r.iv != ""
       else && r.lat.num.Some? && -90.0 <= r.lat.num.value <= 90.0
            && r.lon.num.Some? && -180.0 <= r.lon.num.value <= 180.0 && r.time.num.Some?
  }

  /** The point holds what was posted, field by field. */
  predicate HoldsPost(p: Point, encrypted: bool, r: PostRequest) {
    if encrypted then
      && p.Cipher? && p.iv == r.iv && p.encLat == r.lat.raw && p.encLon == r.lon.raw && p.encTime == r.time.raw
      && (if r.prv == "" then p.encPrv == None else p.encPrv == Some(r.prv))
      && (if r.acc.raw == "" then p.encAcc == None else p.encAcc == Some(r.acc.raw))
      && (if r.spd.raw == "" then p.encSpd == None else p.encSpd == Some(r.spd.raw))
    else
      && p.Plain? && Some(p.lat) == r.lat.num && Some(p.lon) == r.lon.num && Some(p.time) == r.time.num
      && p.prv == (if r.prv == "1" then 1 else 0)
      && (if r.acc.raw == "" then p.acc == None else p.acc == (if r.acc.num == None then Some(0.0) else r.acc.num))
      && (if r.spd.raw == "" then p.spd == None else p.spd == (if r.spd.num == None then Some(0.0) else r.spd.num))
  }

  /** The point a post stores, if the post is accepted. */
  function PointOf(encrypted: bool, r: PostRequest): (p: Option<Point>)
    ensures p.Some? <==> Postable(encrypted, r)
    ensures p.Some? ==> p.value.Cipher? == encrypted && HoldsPost(p.value, encrypted, r)
  {
    if r.lat.raw == "" || r.lon.raw == "" || r.time.raw == "" then None
    else if encrypted then
      if r.iv == "" then None
      else Some(Cipher(r.iv, r.lat.raw, r.lon.raw, r.time.raw,
                       TextOrNull(r.prv), TextOrNull(r.acc.raw), TextOrNull(r.spd.raw)))
    else if r.time.num.Some? && Within(r.lat.num, 90.0) && Within(r.lon.num, 180.0) then
      Some(Plain(r.lat.num.value, r.lon.num.value, r.time.num.value, if r.prv == "1" then 1 else 0,
                 NumberOr0(r.acc), NumberOr0(r.spd)))
    else None
  }

  /** What a link is drawn from: the configured style and the random bytes. */
  datatype Source = Source(style: Linkgen.LinkStyle, bytes: seq<Linkgen.Byte>)

  /** The link of a new share: the one asked for if that is allowed, else the first free draft. */
  ghost predicate LinkFor(cfg: Config, src: Source, db: Db, now: real, r: CreateRequest, link: string) {
    if LinkChars(r.customLink) && CustomAllowed(cfg, db, now, r.customLink, r.user) then link == r.customLink
    else Linkgen.FirstFree(src.style, db, now, src.bytes, link)
  }

  /** What creating did and answered, as the request's mode asks for. */
  ghost predicate CreatedFor(cfg: Config, src: Source, db: Db, now: real, r: CreateRequest, pin: int,
                             sid: string, link: string, ev: Event)
    requires r.dur.Parsed? && r.interval.Parsed?
  {
    var s := RequestedSession(r, now);
    match r.mode
    case CreateAlone => ev == NewSolo(sid, s, link, r.adoptable) && LinkFor(cfg, src, db, now, r, link)
    case CreateGroup => ev == NewGroup(sid, s, link, r.nickname, pin) && LinkFor(cfg, src, db, now, r, link)
    case JoinGroup =>
      && Live(db, now, PinKey(r.pin)) && db[PinKey(r.pin)].value == PinV(link)
      && ev == Join(sid, s, r.nickname, r.pin)
    case Unsupported => false
  }

  /** Every share that was live is still there as it was. */
  ghost predicate SharesUntouched(db: Db, now: real, db': Db) {
    forall id :: Live(db, now, LocKey(id)) ==> Safety.Same(db, db', LocKey(id))
  }

  /** A new share is never put where a live one is. */
  lemma NewShareStep(maxPts: nat, db: Db, now: real, ev: Event, db': Db)
    requires Inv(maxPts, db, now) && Step(maxPts, db, now, ev, db') && (ev.NewSolo? || ev.NewGroup? || ev.NewLink?)
    ensures Inv(maxPts, db', now) && SharesUntouched(db, now, db')
  {
    Safety.StepKeepsInv(maxPts, db, now, ev, db');
  }

  // ----- what is in the store afterwards, in the request's own fields -----

  /** The session of a created share. */
  ghost predicate StoredSession(cfg: Config, db': Db, now: real, r: CreateRequest, sid: string, link: string) {
    && r.dur.Parsed? && r.interval.Parsed? && r.authentic && LiveSession(db', now, sid)
    && var s := SessionAt(db', sid);
       && s.encrypted == r.encrypted && s.salt == (if r.encrypted then r.salt else "")
       && s.interval == r.interval.value && 0.0 < s.interval && cfg.minInterval <= s.interval <= cfg.maxDuration as real
       && now + r.dur.value as real - 1.0 < s.expire as real <= now + r.dur.value as real
       && 0 < r.dur.value <= cfg.maxDuration
       && s.targets == [link] && s.points == []
  }

  /** A solo share of a session, expiring with it. */
  predicate StoredSolo(db': Db, now: real, sid: string, link: string, adoptable: bool) {
    && LiveSession(db', now, sid) && LiveSolo(db', now, link)
    && SoloAt(db', link).host == sid && SoloAt(db', link).adoptable == adoptable
    && SoloAt(db', link).soloExpire == SessionAt(db', sid).expire
  }

  /** A group with one host, and a PIN that leads to it. */
  predicate StoredGroup(db': Db, now: real, sid: string, link: string, nick: string, pin: int) {
    && LiveSession(db', now, sid) && !SessionAt(db', sid).encrypted && nick != ""
    && LiveGroup(db', now, link) && GroupAt(db', link).hosts == map[nick := sid]
    && GroupAt(db', link).groupExpire == SessionAt(db', sid).expire && GroupAt(db', link).pin == pin
    && Live(db', now, PinKey(pin)) && db'[PinKey(pin)].value == PinV(link)
  }

  /** The group the PIN leads to has one more host, and is otherwise as before. */
  predicate EnteredGroup(db: Db, db': Db, now: real, sid: string, link: string, nick: string, pin: int) {
    && LiveSession(db', now, sid) && !SessionAt(db', sid).encrypted && nick != ""
    && Live(db, now, PinKey(pin)) && db[PinKey(pin)].value == PinV(link)
    && LiveGroup(db, now, link) && LiveGroup(db', now, link)
    && GroupAt(db', link).hosts == GroupAt(db, link).hosts[nick := sid]
    && GroupAt(db', link).groupExpire == GroupAt(db, link).groupExpire && GroupAt(db', link).pin == pin
    && Live(db', now, PinKey(pin)) && db'[PinKey(pin)].value == PinV(link)
  }

  ghost predicate StoredShare(db: Db, db': Db, now: real, r: CreateRequest, sid: string, pin: int, link: string) {
    match r.mode
    case CreateAlone => StoredSolo(db', now, sid, link, r.adoptable)
    case CreateGroup => StoredGroup(db', now, sid, link, r.nickname, pin)
    case JoinGroup => EnteredGroup(db, db', now, sid, link, r.nickname, r.pin)
    case Unsupported => false
  }

  /** The session lists one share more. */
  predicate Listed(db: Db, db': Db, sid: string, link: string) {
    && SessionKey(sid) in db && db[SessionKey(sid)].value.SessionV?
    && SessionKey(sid) in db' && db'[SessionKey(sid)].value.SessionV?
    && SessionAt(db', sid).targets == SessionAt(db, sid).targets + [link]
  }

  lemma JoinedIsEntered(maxPts: nat, db: Db, now: real, pin: int, nick: string, sid: string, s: SessionData, db': Db,
                        link: string)
    requires Inv(maxPts, db, now) && Joined(db, now, pin, nick, sid, s, db') && nick != "" && !s.encrypted
    requires Live(db, now, SessionKey(sid)) || now <= s.expire as real
    requires SessionKey(sid) in db ==> db[SessionKey(sid)].value == SessionV(s)
    requires db[PinKey(pin)].value == PinV(link)
    ensures EnteredGroup(db, db', now, sid, link, nick, pin)
  {
    assert PinOk(db, now, pin) && EntryTyped(LocKey(link), db[LocKey(link)]);
    assert SessionKey(sid) in db ==> EntryTyped(SessionKey(sid), db[SessionKey(sid)]);
  }

  ghost predicate Stored(cfg: Config, db: Db, db': Db, now: real, r: CreateRequest, sid: string, pin: int,
                         link: string) {
    StoredSession(cfg, db', now, r, sid, link) && StoredShare(db, db', now, r, sid, pin, link)
  }

  /** The record of the session after any of the three creating steps. */
  lemma NewSessionIsStored(cfg: Config, db': Db, now: real, r: CreateRequest, sid: string, link: string)
    requires Acceptable(cfg, r) && SessionKey(sid) in db'
    requires db'[SessionKey(sid)] ==
             Entry(SessionV(WithTarget(RequestedSession(r, now), link)), RequestedSession(r, now).expire)
    ensures StoredSession(cfg, db', now, r, sid, link)
  {
    assert now <= RequestedSession(r, now).expire as real;
  }

  lemma CreatedIsStored(cfg: Config, src: Source, db: Db, now: real, r: CreateRequest, pin: int, sid: string,
                        link: string, ev: Event, db': Db)
    requires Acceptable(cfg, r) && Inv(cfg.maxCachedPts, db, now) && Step(cfg.maxCachedPts, db, now, ev, db')
    requires CreatedFor(cfg, src, db, now, r, pin, sid, link, ev)
    ensures Stored(cfg, db, db', now, r, sid, pin, link)
  {
    NewSessionIsStored(cfg, db', now, r, sid, link);
    if r.mode.JoinGroup? {
      JoinedIsEntered(cfg.maxCachedPts, db, now, r.pin, r.nickname, sid, RequestedSession(r, now), db', link);
    }
  }

  lemma AdoptedIsStored(maxPts: nat, db: Db, now: real, sid: string, nick: string, aid: string, pin: int, db': Db)
    requires Inv(maxPts, db, now) && Step(maxPts, db, now, Adopt(sid, nick, aid, pin), db') && nick != ""
    ensures var link := db[PinKey(pin)].value.pointsTo;
            EnteredGroup(db, db', now, sid, link, nick, pin) && Listed(db, db', sid, link)
  {
    JoinedIsEntered(maxPts, db, now, pin, nick, sid, SessionAt(db, sid), db', db[PinKey(pin)].value.pointsTo);
  }

  lemma NewLinkIsStored(maxPts: nat, db: Db, now: real, sid: string, id: string, adoptable: bool, db': Db)
    requires Inv(maxPts, db, now) && Step(maxPts, db, now, NewLink(sid, id, adoptable), db')
    ensures StoredSolo(db', now, sid, id, adoptable) && Listed(db, db', sid, id)
  {
    assert EntryTyped(SessionKey(sid), db[SessionKey(sid)]);
  }

  /** The session's points end with what was posted, the earlier ones being kept as far as there is
      room. */
  ghost predicate StoredPost(maxPts: nat, db: Db, db': Db, r: PostRequest)
    requires SessionKey(r.sid) in db && db[SessionKey(r.sid)].value.SessionV?
    requires SessionKey(r.sid) in db' && db'[SessionKey(r.sid)].value.SessionV?
  {
    var s, pts := SessionAt(db, r.sid), SessionAt(db', r.sid).points;
    && |pts| == (if |s.points| < maxPts then |s.points| + 1 else maxPts)
    && (maxPts > 0 ==>
          && HoldsPost(pts[|pts| - 1], s.encrypted, r)
          && pts[..|pts| - 1] == s.points[|s.points| + 1 - |pts|..])
  }

  lemma LastOfWindow(maxPts: nat, pts: seq<Point>, p: Point)
    requires |pts| <= maxPts
    ensures var pts' := LastN(maxPts, pts + [p]);
            && |pts'| == (if |pts| < maxPts then |pts| + 1 else maxPts)
            && (maxPts > 0 ==> pts'[|pts'| - 1] == p && pts'[..|pts'| - 1] == pts[|pts| + 1 - |pts'|..])
  {
  }

  lemma PostIsStored(maxPts: nat, db: Db, now: real, r: PostRequest, p: Point, db': Db)
    requires Inv(maxPts, db, now) && Step(maxPts, db, now, Post(r.sid, p), db')
    requires HoldsPost(p, SessionAt(db, r.sid).encrypted, r)
    ensures LiveSession(db', now, r.sid) && StoredPost(maxPts, db, db', r)
  {
    PostedWindow(maxPts, db, now, r.sid, p, db');
    LastOfWindow(maxPts, SessionAt(db, r.sid).points, p);
  }

  lemma PostedWindow(maxPts: nat, db: Db, now: real, sid: string, p: Point, db': Db)
    requires Inv(maxPts, db, now) && Step(maxPts, db, now, Post(sid, p), db')
    ensures LiveSession(db', now, sid) && |SessionAt(db, sid).points| <= maxPts
    ensures SessionAt(db', sid).points == LastN(maxPts, SessionAt(db, sid).points + [p])
  {
    assert EntryTyped(SessionKey(sid), db[SessionKey(sid)]) && SessionOk(maxPts, SessionAt(db, sid));
  }

  class Server {
    const cfg: Config
    const store: Memory
    const linkgen: Linkgen.Generator

    constructor (cfg: Config, store: Memory, linkgen: Linkgen.Generator)
      ensures this.cfg == cfg && this.store == store && this.linkgen == linkgen
    {
      this.cfg, this.store, this.linkgen := cfg, store, linkgen;
    }

    ghost predicate Valid(now: real)
      reads this, store
    {
      linkgen.store == store && Inv(cfg.maxCachedPts, store.data, now)
    }

    function Src(): Source
      reads linkgen.rand
    {
      Source(linkgen.style, linkgen.rand.bytes)
    }

    /** The random source ends before it gives a free link. */
    ghost predicate NoFreeLink(now: real)
      reads store, linkgen.rand
    {
      Linkgen.NoneFree(linkgen.style, store.data, now, linkgen.rand.bytes)
    }

    method HandleCreate(now: real, r: CreateRequest, sid: string, pin: int) returns (reply: Reply, ghost ev: Event)
      requires Valid(now) && SessionKey(sid) !in store.data
      modifies store, linkgen.rand
      ensures Valid(now) && Step(cfg.maxCachedPts, old(store.data), now, ev, store.data)
      ensures if reply.Created? then
                && Acceptable(cfg, r) && reply.sid == sid && LiveSession(store.data, now, sid)
                && CreatedFor(cfg, old(Src()), old(store.data), now, r, pin, sid, reply.link, ev)
              else reply.Refused? && ev == Read
      ensures Acceptable(cfg, r) && reply.Refused? ==>
                if r.mode.JoinGroup? then !Live(old(store.data), now, PinKey(r.pin)) else old(NoFreeLink(now))
      ensures reply.Created? ==> Stored(cfg, old(store.data), store.data, now, r, sid, pin, reply.link)
      ensures !r.mode.JoinGroup? ==> SharesUntouched(old(store.data), now, store.data)
    {
      var refusal := Check(r);
      if refusal != None {
        return Refused(refusal.value), Read;
      }
      var expire := (now + r.dur.value as real).Floor;
      var session := Session.New(store, sid, cfg.maxCachedPts);
      session.data := session.data.(expire := expire, interval := r.interval.value);
      if r.encrypted {
        session.data := session.data.(encrypted := true, salt := r.salt);
      }
      assert session.data == RequestedSession(r, now);
      match r.mode
      case CreateAlone => reply, ev := CreateSolo(now, r, session);
      case CreateGroup => reply, ev := CreateInNewGroup(now, r, session, pin);
      case JoinGroup => reply, ev := CreateInGroup(now, r, session);
      case Unsupported => return Refused("Unsupported share mode!"), Read;
    }

    /** The checks that need no store, in order, with what is said to the first that fails. */
    method Check(r: CreateRequest) returns (refusal: Option<string>)
      ensures refusal == None ==> r.dur.Parsed? && r.interval.Parsed?
      ensures refusal == None && !r.mode.Unsupported? <==> Acceptable(cfg, r)
      ensures refusal.Some? ==> TrueRefusal(cfg, r, refusal.value)
    {
      if r.dur.Missing? || r.interval.Missing? {
        return Some("Missing data!");
      }
      if !r.authentic {
        return Some("Incorrect password!");
      }
      if r.dur.Malformed? || r.dur.value <= 0 {
        return Some("Invalid duration!");
      }
      if r.interval.Malformed? || r.interval.value <= 0.0 {
        return Some("Invalid interval!");
      }
      var d, i := r.dur.value, r.interval.value;
      if d > cfg.maxDuration {
        return Some("Share duration exceeds maximum configured!");
      }
      if i > cfg.maxDuration as real {
        return Some("Interval exceeds maximum configured!");
      }
      if i < cfg.minInterval {
        return Some("Interval is too short!");
      }
      var grouped := r.mode == CreateGroup || r.mode == JoinGroup;
      if grouped && r.encrypted {
        return Some("End-to-end encryption is not supported for group shares.");
      }
      if grouped && r.nickname == "" {
        return Some("Missing data!");
      }
      if r.mode == JoinGroup && r.pin == 0 {
        return Some("Missing data!");
      }
      if r.encrypted && r.salt == "" {
        return Some("Missing data!");
      }
      return None;
    }

    method CreateSolo(now: real, r: CreateRequest, session: Session) returns (reply: Reply, ghost ev: Event)
      requires Valid(now) && Acceptable(cfg, r) && r.mode.CreateAlone?
      requires session.store == store && session.data == RequestedSession(r, now)
      requires SessionKey(session.id) !in store.data
      modifies store, linkgen.rand, session
      ensures Valid(now) && Step(cfg.maxCachedPts, old(store.data), now, ev, store.data)
      ensures if reply.Created? then
                && reply.sid == session.id && LiveSession(store.data, now, session.id)
                && CreatedFor(cfg, old(Src()), old(store.data), now, r, 0, reply.sid, reply.link, ev)
                && Stored(cfg, old(store.data), store.data, now, r, reply.sid, 0, reply.link)
              else reply.Refused? && ev == Read && old(NoFreeLink(now))
      ensures SharesUntouched(old(store.data), now, store.data)
    {
      ghost var before := store.data;
      ghost var s := session.data;
      var link, used, _ := linkgen.Generate(now);
      if link == None {
        return Refused("internal error"), Read;
      }
      var share := new SoloShare(store, link.value, SoloData(0, "", false));
      share.id := LinkOr(now, r, share.id);
      share.data := SoloData(session.data.expire, session.id, r.adoptable);
      share.Save();
      session.AddTarget(share.id);
      session.Save();
      ev := NewSolo(session.id, s, share.id, r.adoptable);
      NewShareStep(cfg.maxCachedPts, before, now, ev, store.data);
      CreatedIsStored(cfg, old(Src()), before, now, r, 0, session.id, share.id, ev, store.data);
      return Created(session.id, share.id), ev;
    }

    method CreateInNewGroup(now: real, r: CreateRequest, session: Session, pin: int)
      returns (reply: Reply, ghost ev: Event)
      requires Valid(now) && Acceptable(cfg, r) && r.mode.CreateGroup?
      requires session.store == store && session.data == RequestedSession(r, now)
      requires SessionKey(session.id) !in store.data
      modifies store, linkgen.rand, session
      ensures Valid(now) && Step(cfg.maxCachedPts, old(store.data), now, ev, store.data)
      ensures if reply.Created? then
                && reply.sid == session.id && LiveSession(store.data, now, session.id)
                && CreatedFor(cfg, old(Src()), old(store.data), now, r, pin, reply.sid, reply.link, ev)
                && Stored(cfg, old(store.data), store.data, now, r, reply.sid, pin, reply.link)
              else reply.Refused? && ev == Read && old(NoFreeLink(now))
      ensures SharesUntouched(old(store.data), now, store.data)
    {
      ghost var before := store.data;
      ghost var s := session.data;
      var link, used, _ := linkgen.Generate(now);
      if link == None {
        return Refused("internal error"), Read;
      }
      var share := new GroupShare(store, link.value, GroupData(0, map[], pin), false);
      share.id := LinkOr(now, r, share.id);
      share.AddHost(r.nickname, session.id);
      share.data := share.data.(groupExpire := session.data.expire);
      share.Save();
      session.AddTarget(share.id);
      session.Save();
      ev := NewGroup(session.id, s, share.id, r.nickname, pin);
      assert share.data == GroupData(s.expire, map[r.nickname := session.id], pin);
      NewShareStep(cfg.maxCachedPts, before, now, ev, store.data);
      CreatedIsStored(cfg, old(Src()), before, now, r, pin, session.id, share.id, ev, store.data);
      return Created(session.id, share.id), ev;
    }

    method CreateInGroup(now: real, r: CreateRequest, session: Session) returns (reply: Reply, ghost ev: Event)
      requires Valid(now) && Acceptable(cfg, r) && r.mode.JoinGroup?
      requires session.store == store && session.data == RequestedSession(r, now)
      requires SessionKey(session.id) !in store.data
      modifies store, session
      ensures Valid(now) && Step(cfg.maxCachedPts, old(store.data), now, ev, store.data)
      ensures reply.Created? <==> Live(old(store.data), now, PinKey(r.pin))
      ensures if reply.Created? then
                && reply.sid == session.id && LiveSession(store.data, now, session.id)
                && CreatedFor(cfg, old(Src()), old(store.data), now, r, 0, reply.sid, reply.link, ev)
                && Stored(cfg, old(store.data), store.data, now, r, reply.sid, 0, reply.link)
              else reply.Refused? && ev == Read
    {
      ghost var before := store.data;
      ghost var s := session.data;
      var share := GroupShare.LoadByPin(store, now, r.pin);
      if share == null {
        return Refused("Invalid group PIN!"), Read;
      }
      share.AddHost(r.nickname, session.id);
      share.Save();
      session.AddTarget(share.id);
      session.Save();
      ev := Join(session.id, s, r.nickname, r.pin);
      assert PinOk(before, now, r.pin);
      assert Joined(before, now, r.pin, r.nickname, session.id, s, store.data);
      Safety.StepKeepsInv(cfg.maxCachedPts, before, now, ev, store.data);
      CreatedIsStored(cfg, old(Src()), before, now, r, 0, session.id, share.id, ev, store.data);
      return Created(session.id, share.id), ev;
    }

    /** The custom link if one is asked for and allowed. */
    method LinkOr(now: real, r: CreateRequest, drawn: string) returns (link: string)
      ensures link == if LinkChars(r.customLink) && CustomAllowed(cfg, store.data, now, r.customLink, r.user)
                      then r.customLink else drawn
    {
      if LinkChars(r.customLink) {
        var ok := TryCustomLink(now, r.customLink, r.user);
        if ok {
          return r.customLink;
        }
      }
      return drawn;
    }

    method TryCustomLink(now: real, link: string, user: string) returns (ok: bool)
      ensures ok <==> CustomAllowed(cfg, store.data, now, link, user)
    {
      if !cfg.allowLinkReq {
        return false;
      }
      if link in cfg.reservedLinks {
        var allowed := false;
        var users := cfg.reservedLinks[link];
        for i := 0 to |users|
          invariant allowed <==> user in users[..i]
        {
          if users[i] == user {
            allowed := true;
            break;
          }
        }
        if !allowed {
          return false;
        }
      }
      if cfg.reserveWL {
        if link !in cfg.reservedLinks {
          return false;
        }
      }
      var exists_ := store.Exists(now, LocKey(link));
      return !exists_;
    }

    /** The point a session is to store, clear or encrypted, or what is said to a post it refuses. */
    method ReadPost(encrypted: bool, r: PostRequest) returns (refusal: string, point: Option<Point>)
      requires r.lat.raw != "" && r.lon.raw != "" && r.time.raw != ""
      ensures point == PointOf(encrypted, r)
      ensures point.Some? <==> Postable(encrypted, r)
      ensures point.Some? ==> HoldsPost(point.value, encrypted, r)
    {
      if !encrypted {
        if r.lat.num.None? || r.lon.num.None? || r.time.num.None? ||
           r.lat.num.value < -90.0 || r.lat.num.value > 90.0 || r.lon.num.value < -180.0 || r.lon.num.value > 180.0 {
          return "Invalid location!", None;
        }
        var speed, acc := NumberOr0(r.spd), NumberOr0(r.acc);
        var prv := 0;
        if r.prv == "1" {
          prv := 1;
        }
        return "", Some(Plain(r.lat.num.value, r.lon.num.value, r.time.num.value, prv, acc, speed));
      } else {
        if r.iv == "" {
          return "Missing data!", None;
        }
        var speed, acc, prv := TextOrNull(r.spd.raw), TextOrNull(r.acc.raw), TextOrNull(r.prv);
        return "", Some(Cipher(r.iv, r.lat.raw, r.lon.raw, r.time.raw, prv, acc, speed));
      }
    }

    method HandlePost(now: real, r: PostRequest) returns (reply: Reply, ghost ev: Event)
      requires Valid(now)
      modifies store
      ensures Valid(now) && Step(cfg.maxCachedPts, old(store.data), now, ev, store.data)
      ensures ev == if && r.sid != "" && LiveSession(old(store.data), now, r.sid)
                       && PointOf(SessionAt(old(store.data), r.sid).encrypted, r).Some?
                    then Post(r.sid, PointOf(SessionAt(old(store.data), r.sid).encrypted, r).value) else Read
      ensures ev.Post? <==>
                && r.sid != "" && LiveSession(old(store.data), now, r.sid)
                && Postable(SessionAt(old(store.data), r.sid).encrypted, r)
      ensures ev.Post? ==>
                LiveSession(store.data, now, r.sid) && StoredPost(cfg.maxCachedPts, old(store.data), store.data, r)
      ensures reply.Targets? <==> ev.Post? && now < SessionAt(old(store.data), r.sid).expire as real
      ensures reply.Targets? ==> reply.links == SessionAt(old(store.data), r.sid).targets
    {
      ghost var before := store.data;
      if r.sid == "" || r.lat.raw == "" || r.lon.raw == "" || r.time.raw == "" {
        return Refused("Missing data!"), Read;
      }
      var session := Session.Load(store, now, r.sid, cfg.maxCachedPts);
      if session == null {
        return Refused("Session expired!"), Read;
      }
      var refusal, point := ReadPost(session.data.encrypted, r);
      if point == None {
        return Refused(refusal), Read;
      }
      session.AddPoint(point.value);
      session.Save();
      ev := Post(r.sid, point.value);
      Safety.StepKeepsInv(cfg.maxCachedPts, before, now, ev, store.data);
      PostIsStored(cfg.maxCachedPts, before, now, r, point.value, store.data);
      var expired := session.HasExpired(now);
      if expired {
        return Refused("Session expired!"), ev;
      }
      return Targets(session.data.targets), ev;
    }

    method HandleNewLink(now: real, sid: string, adoptable: bool) returns (reply: Reply, ghost ev: Event)
      requires Valid(now)
      modifies store, linkgen.rand
      ensures Valid(now) && Step(cfg.maxCachedPts, old(store.data), now, ev, store.data)
      ensures if reply.Linked? then
                && sid != "" && ev == NewLink(sid, reply.link, adoptable)
                && Linkgen.FirstFree(linkgen.style, old(store.data), now, old(linkgen.rand.bytes), reply.link)
              else reply.Refused? && ev == Read
      ensures sid != "" && LiveSession(old(store.data), now, sid) && reply.Refused? ==> old(NoFreeLink(now))
      ensures reply.Linked? ==>
                StoredSolo(store.data, now, sid, reply.link, adoptable)
                    && Listed(old(store.data), store.data, sid, reply.link)
      ensures SharesUntouched(old(store.data), now, store.data)
    {
      ghost var before := store.data;
      if sid == "" {
        return Refused("Missing data!"), Read;
      }
      var session := Session.Load(store, now, sid, cfg.maxCachedPts);
      if session == null {
        return Refused("Session expired!"), Read;
      }
      var link, used, _ := linkgen.Generate(now);
      if link == None {
        return Refused("internal error"), Read;
      }
      var share := new SoloShare(store, link.value, SoloData(session.data.expire, session.id, adoptable));
      share.Save();
      session.AddTarget(share.id);
      session.Save();
      ev := NewLink(sid, share.id, adoptable);
      NewShareStep(cfg.maxCachedPts, before, now, ev, store.data);
      NewLinkIsStored(cfg.maxCachedPts, before, now, sid, share.id, adoptable, store.data);
      return Linked(share.id), ev;
    }

    /** When a session may bring a share of its own into a group. */
    ghost predicate MayAdopt(db: Db, now: real, sid: string, nick: string, aid: string, pin: int) {
      && sid != "" && nick != "" && aid != "" && LiveSession(db, now, sid) && !SessionAt(db, sid).encrypted
      && LiveSolo(db, now, aid) && SoloAt(db, aid).adoptable && SoloAt(db, aid).host == sid
      && Live(db, now, PinKey(pin))
    }

    /** Loads the caller's session if it may give the share it names away. */
    method FindOwnShare(now: real, sid: string, aid: string) returns (refusal: string, found: Session?)
      requires Typed(store.data)
      ensures found != null <==>
                && LiveSession(store.data, now, sid) && !SessionAt(store.data, sid).encrypted
                && LiveSolo(store.data, now, aid)
                && SoloAt(store.data, aid).adoptable && SoloAt(store.data, aid).host == sid
      ensures found != null ==>
                && fresh(found) && found.store == store && found.id == sid
                && found.data == SessionAt(store.data, sid)
    {
      var session := Session.Load(store, now, sid, cfg.maxCachedPts);
      if session == null {
        return "Session expired!", null;
      }
      var shareType := LoadShareType(store, now, aid);
      if shareType == None {
        return "Share not found!", null;
      }
      if shareType.value != Alone {
        return "Group shares cannot be adopted!", null;
      }
      var share := SoloShare.Load(store, now, aid);
      if share == null {
        return "Share not found!", null;
      }
      if !share.data.adoptable {
        return "Share adoption not allowed!", null;
      }
      if sid != share.data.host {
        return "Not authorized!", null;
      }
      if session.data.encrypted {
        return "End-to-end encrypted shares cannot be adopted!", null;
      }
      return "", session;
    }

    method HandleAdopt(now: real, sid: string, nick: string, aid: string, pinGiven: bool, pin: int)
      returns (reply: Reply, ghost ev: Event)
      requires Valid(now)
      modifies store
      ensures Valid(now) && Step(cfg.maxCachedPts, old(store.data), now, ev, store.data)
      ensures if pinGiven && MayAdopt(old(store.data), now, sid, nick, aid, pin)
              then reply == Done && ev == Adopt(sid, nick, aid, pin)
              else reply.Refused? && ev == Read
      ensures reply == Done ==>
                var link := old(store.data)[PinKey(pin)].value.pointsTo;
                && EnteredGroup(old(store.data), store.data, now, sid, link, nick, pin)
                && Listed(old(store.data), store.data, sid, link)
    {
      ghost var before := store.data;
      if sid == "" || nick == "" || aid == "" || !pinGiven {
        return Refused("Missing data!"), Read;
      }
      var refusal, session := FindOwnShare(now, sid, aid);
      if session == null {
        return Refused(refusal), Read;
      }
      var target := GroupShare.LoadByPin(store, now, pin);
      if target == null {
        return Refused("Session expired!"), Read;
      }
      target.AddHost(nick, sid);
      target.Save();
      session.AddTarget(target.id);
      session.Save();
      ev := Adopt(sid, nick, aid, pin);
      assert PinOk(before, now, pin);
      assert Joined(before, now, pin, nick, sid, SessionAt(before, sid), store.data);
      Safety.StepKeepsInv(cfg.maxCachedPts, before, now, ev, store.data);
      AdoptedIsStored(cfg.maxCachedPts, before, now, sid, nick, aid, pin, store.data);
      return Done, ev;
    }

    /** The part both forms of stop share: a solo share is deleted, a group loses one nickname. */
    method Release(now: real, sid: string, t: string)
      requires Typed(store.data)
      modifies store
      ensures Released(old(store.data), now, sid, t, store.data) && Typed(store.data)
    {
      ghost var before := store.data;
      var shareType := LoadShareType(store, now, t);
      if shareType == None {
        return;
      }
      match shareType.value
      case Alone =>
        var share := SoloShare.Load(store, now, t);
        if share != null {
          share.Delete();
        }
      case Group =>
        var share := GroupShare.Load(store, now, t);
        if share != null {
          share.RemoveHost(sid);
          ghost var g := share.data;
          if share.data.hosts == map[] {
            share.Delete();
          } else {
            share.Save();
          }
          assert store.data == PutOrDropGroup(before, t, g);
          assert g == GroupAt(before, t).(hosts := g.hosts);
          Safety.ReleaseIsShareReleased(before, now, sid, t, store.data);
        }
    }

    method HandleStop(now: real, sid: string, lid: string) returns (ghost ev: Event)
      requires Valid(now)
      modifies store
      ensures Valid(now) && Step(cfg.maxCachedPts, old(store.data), now, ev, store.data)
      ensures ev == if sid == "" || !LiveSession(old(store.data), now, sid) then Read
                    else if lid == "" then StopAll(sid)
                    else if lid in SessionAt(old(store.data), sid).targets then StopLink(sid, lid)
                    else Read
      ensures ev.StopAll? ==> Safety.Erased(store.data, now, sid)
    {
      ghost var before := store.data;
      if sid == "" {
        return Read;
      }
      var session := Session.Load(store, now, sid, cfg.maxCachedPts);
      if session == null {
        return Read;
      }
      var targets := session.data.targets;
      if lid != "" {
        var found := false;
        for i := 0 to |targets|
          invariant found <==> lid in targets[..i]
        {
          if targets[i] == lid {
            found := true;
            break;
          }
        }
        if !found {
          return Read;
        }
        Release(now, sid, lid);
        session.RemoveTarget(lid);
        session.Save();
        ev := StopLink(sid, lid);
      } else {
        for i := 0 to |targets|
          invariant ReleasedAll(before, now, sid, targets[..i], store.data) && Typed(store.data)
        {
          ghost var mid := store.data;
          Release(now, sid, targets[i]);
          assert targets[..i + 1][..i] == targets[..i];
          assert ReleasedThen(before, now, sid, targets[..i], targets[i], store.data);
        }
        assert targets[..|targets|] == targets;
        session.Delete();
        ev := StopAll(sid);
        Safety.StopAllErases(cfg.maxCachedPts, before, now, sid, store.data);
      }
      Safety.StepKeepsInv(cfg.maxCachedPts, before, now, ev, store.data);
    }

    /** A viewer is answered if and only if its share is live, with exactly the session behind
        a solo share, or exactly the live hosts of a group. */
    method HandleFetch(now: real, id: string, since: real) returns (reply: FetchReply)
      requires Valid(now)
      ensures if id != "" && LiveSolo(store.data, now, id) then
                var s := SessionAt(store.data, SoloAt(store.data, id).host);
                reply == SoloReply(s.expire, s.interval, Items(Served(s, since)), s.encrypted, s.salt)
              else if id != "" && LiveGroup(store.data, now, id) then
                var g := GroupAt(store.data, id);
                && reply.GroupReply? && reply.expire == g.groupExpire
                && reply.groupPoints == AllPoints(store.data, now, g.hosts, since)
                && LeastInterval(store.data, now, g.hosts, g.hosts.Keys, reply.interval)
                && forall n :: n in g.hosts && LiveSession(store.data, now, g.hosts[n]) ==>
                     0.0 < reply.interval <= SessionAt(store.data, g.hosts[n]).interval
              else reply == NotFound
    {
      if id == "" {
        return NotFound;
      }
      var shareType := LoadShareType(store, now, id);
      if shareType == None {
        return NotFound;
      }
      match shareType.value
      case Alone =>
        var share := SoloShare.Load(store, now, id);
        if share == null {
          return NotFound;
        }
        assert SoloHosted(store.data, now, id);
        var session := Session.Load(store, now, share.data.host, cfg.maxCachedPts);
        if session == null {
          return NotFound;
        }
        var points := session.GetPoints(since);
        if points.Nil? {
          points := Items([]);
        }
        var s := session.data;
        return SoloReply(share.data.soloExpire, s.interval, points, s.encrypted, s.salt);
      case Group =>
        var share := GroupShare.Load(store, now, id);
        if share == null {
          return NotFound;
        }
        var points := share.GetAllPoints(now, since, cfg.maxCachedPts);
        var interval := share.GetAutoInterval(now, cfg.maxCachedPts);
        return GroupReply(share.data.groupExpire, interval, points);
    }
  }
}
