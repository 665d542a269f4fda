/** What one request leaves, the next one sees: requests made one after the other. */
module RoundTrips {
  import opened Wrappers
  import opened Records
  import opened Lifecycle
  import opened Api
  import opened Trail
  import opened Viewer
  import opened Sync
  import Linkgen

  /** A link that creating a share answers is never empty. */
  lemma LinkIsNamed(cfg: Config, src: Source, db: Db, now: real, r: CreateRequest, link: string)
    requires LinkFor(cfg, src, db, now, r, link)
    ensures link != ""
  {
    if !(LinkChars(r.customLink) && CustomAllowed(cfg, db, now, r.customLink, r.user)) {
      var tried, used :| Linkgen.FoundAfter(src.style, db, now, src.bytes, tried, used, link);
      Linkgen.DraftsHaveStyle(src.style, used, link);
    }
  }

  /** A fetch right after a solo share has been created answers what the request asked for, and no
      points yet. */
  method CreateThenFetch(server: Server, now: real, r: CreateRequest, sid: string, pin: int, since: real)
    returns (reply: Reply, fetched: FetchReply)
    requires server.Valid(now) && SessionKey(sid) !in server.store.data && r.mode.CreateAlone?
    modifies server.store, server.linkgen.rand
    ensures reply.Created? ==>
              && fetched.SoloReply? && r.dur.Parsed? && r.interval.Parsed?
              && fetched.encrypted == r.encrypted && fetched.salt == (if r.encrypted then r.salt else "")
              && fetched.interval == r.interval.value && fetched.points == Items([])
              && now + r.dur.value as real - 1.0 < fetched.expire as real <= now + r.dur.value as real
  {
    ghost var ev;
    ghost var src, db := server.Src(), server.store.data;
    reply, ev := server.HandleCreate(now, r, sid, pin);
    if reply.Created? {
      LinkIsNamed(server.cfg, src, db, now, r, reply.link);
      fetched := server.HandleFetch(now, reply.link, since);
    } else {
      fetched := NotFound;
    }
  }

  /** Whoever is told the PIN of a new group can join it right away, and is then in it with its
      creator. */
  method CreateThenJoin(server: Server, now: real, r: CreateRequest, sid: string, pin: int, guest: CreateRequest,
                        guestSid: string)
    returns (reply: Reply, joined: Reply)
    requires server.Valid(now) && SessionKey(sid) !in server.store.data && r.mode.CreateGroup?
    requires SessionKey(guestSid) !in server.store.data && guestSid != sid
    requires Acceptable(server.cfg, guest) && guest.mode.JoinGroup? && guest.pin == pin && guest.nickname != r.nickname
    modifies server.store, server.linkgen.rand
    ensures reply.Created? ==>
              && joined == Created(guestSid, reply.link) && LiveGroup(server.store.data, now, reply.link)
              && GroupAt(server.store.data, reply.link).hosts == map[r.nickname := sid, guest.nickname := guestSid]
  {
    ghost var ev;
    reply, ev := server.HandleCreate(now, r, sid, pin);
    if reply.Created? {
      joined, ev := server.HandleCreate(now, guest, guestSid, 0);
    } else {
      joined := reply;
    }
  }

  lemma ReadLast(pts: seq<Point>, dec: Decryption)
    requires pts != []
    ensures ReadAll(pts, dec) == ReadAll(pts[..|pts| - 1], dec) + [ReadPoint(pts[|pts| - 1], dec)]
  {
  }

  lemma {:induction false} ReadBefore(pts: seq<Point>, dec: Decryption, time: real)
    requires forall p :: p in pts ==> p.Plain? && p.time < time
    ensures forall q :: q in ReadAll(pts, dec) ==> q.time < time
  {
    if pts == [] {
    } else {
      ReadBefore(pts[..|pts| - 1], dec, time);
    }
  }

  /** The posted point comes last, behind as many of the earlier ones as there is room for. */
  predicate EndsInPost(maxPts: nat, before: seq<Point>, points: seq<Point>, encrypted: bool, r: PostRequest) {
    && |points| <= maxPts && |points| <= |before| + 1
    && (maxPts > 0 ==>
          && points != [] && HoldsPost(points[|points| - 1], encrypted, r)
          && points[..|points| - 1] == before[|before| + 1 - |points|..])
  }

  lemma StoredEndsInPost(maxPts: nat, db: Db, db': Db, r: PostRequest)
    requires SessionKey(r.sid) in db && db[SessionKey(r.sid)].value.SessionV?
    requires SessionKey(r.sid) in db' && db'[SessionKey(r.sid)].value.SessionV?
    requires |SessionAt(db, r.sid).points| <= maxPts && StoredPost(maxPts, db, db', r)
    ensures EndsInPost(maxPts, SessionAt(db, r.sid).points, SessionAt(db', r.sid).points,
                       SessionAt(db, r.sid).encrypted, r)
  {
  }

  lemma PostKeepsShares(maxPts: nat, db: Db, now: real, sid: string, p: Point, db': Db, id: string)
    requires Step(maxPts, db, now, Post(sid, p), db') && LiveSolo(db, now, id)
    ensures LiveSolo(db', now, id) && SoloAt(db', id) == SoloAt(db, id)
  {
  }

  /** A poll of everything. */
  method FetchAll(server: Server, now: real, id: string) returns (points: seq<Point>)
    requires server.Valid(now) && id != "" && LiveSolo(server.store.data, now, id)
    ensures LiveSession(server.store.data, now, SoloAt(server.store.data, id).host)
    ensures points == SessionAt(server.store.data, SoloAt(server.store.data, id).host).points
  {
    assert SoloHosted(server.store.data, now, id);
    var fetched := server.HandleFetch(now, id, 0.0);
    points := fetched.points.items;
  }

  /** A fetch of everything right after a post answers just that. */
  method PostThenFetch(server: Server, now: real, r: PostRequest, id: string) returns (points: seq<Point>)
    requires server.Valid(now) && id != "" && r.sid != ""
    requires LiveSolo(server.store.data, now, id) && SoloAt(server.store.data, id).host == r.sid
    requires LiveSession(server.store.data, now, r.sid) && Postable(SessionAt(server.store.data, r.sid).encrypted, r)
    modifies server.store
    ensures EndsInPost(server.cfg.maxCachedPts, old(SessionAt(server.store.data, r.sid).points), points,
                       old(SessionAt(server.store.data, r.sid).encrypted), r)
  {
    ghost var before := server.store.data;
    assert SessionOk(server.cfg.maxCachedPts, SessionAt(before, r.sid));
    var reply, ev := server.HandlePost(now, r);
    StoredEndsInPost(server.cfg.maxCachedPts, before, server.store.data, r);
    PostKeepsShares(server.cfg.maxCachedPts, before, now, r.sid, ev.point, server.store.data, id);
    points := FetchAll(server, now, id);
  }

  /** The end of a trail once such a list is merged in. */
  predicate ShowsPost(trail: seq<TrailPoint>, r: PostRequest) {
    && trail != []
    && var p := trail[|trail| - 1];
       && Some(p.lat) == r.lat.num && Some(p.lon) == r.lon.num && Some(p.time) == r.time.num
       && (r.spd.raw == "" ==> p.spd == None) && (r.spd.raw != "" && r.spd.num.Some? ==> p.spd == r.spd.num)
       && (r.acc.raw == "" ==> p.acc == None) && (r.acc.raw != "" && r.acc.num.Some? ==> p.acc == r.acc.num)
  }

  lemma PostIsShown(maxPoints: nat, trail: seq<TrailPoint>, maxPts: nat, before: seq<Point>, pts: seq<Point>,
                    r: PostRequest, dec: Decryption)
    requires maxPoints > 0 && maxPts > 0 && Postable(false, r) && EndsInPost(maxPts, before, pts, false, r)
    requires forall p :: p in before ==> p.Plain? && p.time < r.time.num.value
    requires forall q :: q in trail ==> q.time < r.time.num.value
    ensures ShowsPost(Update(maxPoints, trail, ReadAll(pts, dec)), r)
  {
    ReadLast(pts, dec);
    ReadBefore(pts[..|pts| - 1], dec, r.time.num.value);
    NewestIsLast(maxPoints, trail, ReadAll(pts[..|pts| - 1], dec), ReadPoint(pts[|pts| - 1], dec));
  }

  lemma OneUser(maxPoints: nat, shares: map<string, seq<TrailPoint>>, list: seq<TrailPoint>, reached: set<string>)
    requires Reach(map["" := Items(list)], reached)
    ensures reached == {""}
    ensures Merged(maxPoints, shares, map["" := Items(list)], reached) ==
            shares["" := Update(maxPoints, TrailOf(shares, ""), list)]
  {
    assert AllListed(map["" := Items(list)]);
  }

  /** What the page of a solo share does with an answer. */
  method Show(page: Viewer, points: seq<Point>, dec: Decryption)
    requires AllIncreasing(page.shares)
    modifies page
    ensures page.shares ==
            old(page.shares)["" := Update(page.maxPoints, TrailOf(old(page.shares), ""), ReadAll(points, dec))]
  {
    ghost var shares, list := page.shares, ReadAll(points, dec);
    var completed, reached := page.ProcessUpdate(map["" := ReadSlice(Items(points), dec)]);
    OneUser(page.maxPoints, shares, list, reached);
  }

  /** Once it has polled everything, the page shows the newest post at the end of its trail, field by
      field. */
  method PostThenShow(server: Server, page: Viewer, now: real, r: PostRequest, id: string, dec: Decryption)
    requires server.Valid(now) && server.cfg.maxCachedPts > 0 && page.maxPoints > 0 && AllIncreasing(page.shares)
    requires r.sid != "" && id != "" && LiveSolo(server.store.data, now, id)
             && SoloAt(server.store.data, id).host == r.sid
    requires LiveSession(server.store.data, now, r.sid) && !SessionAt(server.store.data, r.sid).encrypted
    requires Postable(false, r)
    requires forall p :: p in SessionAt(server.store.data, r.sid).points ==> p.Plain? && p.time < r.time.num.value
    requires forall p :: p in TrailOf(page.shares, "") ==> p.time < r.time.num.value
    modifies server.store, page
    ensures "" in page.shares && ShowsPost(page.shares[""], r)
  {
    ghost var before, trail := SessionAt(server.store.data, r.sid).points, TrailOf(page.shares, "");
    var points := PostThenFetch(server, now, r, id);
    PostIsShown(page.maxPoints, trail, server.cfg.maxCachedPts, before, points, r, dec);
    Show(page, points, dec);
  }
}
