/** The records kept in the store (model/session.go, model/share.go) and the store's
    own entries (store/memory.go).  Times are seconds since the Unix epoch. */
module Records {
  import opened Wrappers

  /** A posted location: clear fields, or the strings of an end-to-end encrypted post. */
  datatype Point =
    | Plain(lat: real, lon: real, time: real, prv: int, acc: Option<real>, spd: Option<real>)
    | Cipher(iv: string, encLat: string, encLon: string, encTime: string,
             encPrv: Option<string>, encAcc: Option<string>, encSpd: Option<string>)

  datatype SessionData = SessionData(expire: int, interval: real, targets: seq<string>,
                                     points: seq<Point>, encrypted: bool, salt: string)

  datatype SoloData = SoloData(soloExpire: int, host: string, adoptable: bool)

  datatype GroupData = GroupData(groupExpire: int, hosts: map<string, string>, pin: int)

  /** The prefixes `session-`, `locdata-` and `groupid-` keep the three key families apart. */
  datatype Key = SessionKey(sid: string) | LocKey(link: string) | PinKey(number: int)

  datatype Value =
    | SessionV(session: SessionData)
    | SoloV(solo: SoloData)
    | GroupV(group: GroupData)
    | PinV(pointsTo: string)

  datatype Entry = Entry(value: Value, expireAt: int)

  type Db = map<Key, Entry>

  /** Go's zero time, which the store reads as "never expires". */
  const ZERO_TIME := -62135596800

  predicate Live(db: Db, now: real, k: Key) {
    k in db && (db[k].expireAt == ZERO_TIME || now <= db[k].expireAt as real)
  }

  predicate LiveSession(db: Db, now: real, sid: string) {
    Live(db, now, SessionKey(sid)) && db[SessionKey(sid)].value.SessionV?
  }

  predicate LiveSolo(db: Db, now: real, id: string) {
    Live(db, now, LocKey(id)) && db[LocKey(id)].value.SoloV?
  }

  predicate LiveGroup(db: Db, now: real, id: string) {
    Live(db, now, LocKey(id)) && db[LocKey(id)].value.GroupV?
  }

  function SessionAt(db: Db, sid: string): SessionData
    requires SessionKey(sid) in db && db[SessionKey(sid)].value.SessionV?
  {
    db[SessionKey(sid)].value.session
  }

  function SoloAt(db: Db, id: string): SoloData
    requires LocKey(id) in db && db[LocKey(id)].value.SoloV?
  {
    db[LocKey(id)].value.solo
  }

  function GroupAt(db: Db, id: string): GroupData
    requires LocKey(id) in db && db[LocKey(id)].value.GroupV?
  {
    db[LocKey(id)].value.group
  }

  /** What the save and delete operations of the three kinds of record do to the store. */
  function PutSession(db: Db, sid: string, s: SessionData): Db {
    db[SessionKey(sid) := Entry(SessionV(s), s.expire)]
  }

  function PutSolo(db: Db, id: string, s: SoloData): Db {
    db[LocKey(id) := Entry(SoloV(s), s.soloExpire)]
  }

  function PutGroup(db: Db, id: string, g: GroupData): Db {
    db[LocKey(id) := Entry(GroupV(g), g.groupExpire)][PinKey(g.pin) := Entry(PinV(id), g.groupExpire)]
  }

  function DropGroup(db: Db, id: string, pin: int): Db {
    db - {PinKey(pin), LocKey(id)}
  }

  /** The nicknames under which a session takes part in a group. */
  function NicksOf(hosts: map<string, string>, sid: string): set<string> {
    set n | n in hosts && hosts[n] == sid
  }

  /** The first occurrence of `x`, if any, cut out. */
  function RemoveFirst(ts: seq<string>, x: string): seq<string> {
    if ts == [] then []
    else if ts[0] == x then ts[1..]
    else [ts[0]] + RemoveFirst(ts[1..], x)
  }

  lemma {:induction false} RemoveFirstCounts(ts: seq<string>, x: string)
    ensures multiset(RemoveFirst(ts, x)) == multiset(ts) - multiset{x}
  {
    if ts == [] {
    } else {
      assert ts == [ts[0]] + ts[1..];
      RemoveFirstCounts(ts[1..], x);
    }
  }

  /** Strictly newer than `since`; a point with no numeric time never is. */
  predicate IsNewer(p: Point, since: real) {
    p.Plain? && p.time > since
  }

  function Newer(pts: seq<Point>, since: real): (r: seq<Point>)
    ensures forall p :: p in r <==> p in pts && IsNewer(p, since)
  {
    if pts == [] then []
    else
      var rest := Newer(pts[..|pts| - 1], since);
      var p := pts[|pts| - 1];
      assert pts == pts[..|pts| - 1] + [p];
      if IsNewer(p, since) then rest + [p] else rest
  }

  /** `r` is what stands at the positions `at`, in order, and those are all that pass. */
  ghost predicate PickedAt(pts: seq<Point>, since: real, r: seq<Point>, at: seq<nat>) {
    && |at| == |r|
    && (forall i :: 0 <= i < |at| ==> at[i] < |pts| && pts[at[i]] == r[i])
    && (forall i, j :: 0 <= i < j < |at| ==> at[i] < at[j])
    && (forall k :: 0 <= k < |pts| ==> (IsNewer(pts[k], since) <==> k in at))
  }

  lemma PickedNext(pts: seq<Point>, since: real, r: seq<Point>, at: seq<nat>, p: Point)
    requires PickedAt(pts, since, r, at)
    ensures if IsNewer(p, since) then PickedAt(pts + [p], since, r + [p], at + [|pts|])
            else PickedAt(pts + [p], since, r, at)
  {
    assert forall k :: k in at + [|pts|] <==> k in at || k == |pts|;
  }

  /** The filter keeps every point that passes, as often as it occurs and in the order they have. */
  lemma {:induction false} NewerKeepsOrder(pts: seq<Point>, since: real) returns (at: seq<nat>)
    ensures PickedAt(pts, since, Newer(pts, since), at)
  {
    if pts == [] {
      at := [];
    } else {
      var init, p := pts[..|pts| - 1], pts[|pts| - 1];
      var before := NewerKeepsOrder(init, since);
      PickedNext(init, since, Newer(init, since), before, p);
      assert pts == init + [p];
      if IsNewer(p, since) {
        at := before + [|init|];
      } else {
        at := before;
      }
    }
  }

  /** The points a session hands out for a given `since`. */
  function Served(s: SessionData, since: real): seq<Point> {
    if since <= 0.0 || s.encrypted then s.points else Newer(s.points, since)
  }

  /** What `GetPoints` returns: the filtering branch starts from a nil slice. */
  function ServedSlice(s: SessionData, since: real): Slice<Point> {
    if since <= 0.0 || s.encrypted || Served(s, since) != [] then Items(Served(s, since)) else Nil
  }

  /** Decoding a `locdata-` record as one kind of share reads the fields of the other kind as
      absent. */
  function AsSolo(v: Value): SoloData
    requires v.SoloV? || v.GroupV?
  {
    if v.SoloV? then v.solo else SoloData(v.group.groupExpire, "", false)
  }

  function AsGroup(v: Value): GroupData
    requires v.SoloV? || v.GroupV?
  {
    if v.GroupV? then v.group else GroupData(v.solo.soloExpire, map[], 0)
  }
}
