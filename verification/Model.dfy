/** Sessions and shares as the handlers hold them (model/session.go, model/share.go): loaded
    from the store, changed in place, saved back. */
module Model {
  import opened Wrappers
  import opened Records
  import opened Store
  import opened Lifecycle

  class Session {
    const store: Memory
    const id: string
    const maxPts: nat
    var data: SessionData

    constructor (store: Memory, id: string, maxPts: nat, data: SessionData)
      ensures this.store == store && this.id == id && this.maxPts == maxPts && this.data == data
    {
      this.store, this.id, this.maxPts, this.data := store, id, maxPts, data;
    }

    static method New(store: Memory, sid: string, maxPts: nat) returns (s: Session)
      ensures fresh(s) && s.store == store && s.id == sid && s.maxPts == maxPts
      ensures s.data == SessionData(0, 0.0, [], [], false, "")
    {
      s := new Session(store, sid, maxPts, SessionData(0, 0.0, [], [], false, ""));
    }

    static method Load(store: Memory, now: real, id: string, maxPts: nat) returns (s: Session?)
      requires Typed(store.data)
      ensures s != null <==> LiveSession(store.data, now, id)
      ensures s != null ==>
                && fresh(s) && s.store == store && s.id == id && s.maxPts == maxPts
                && s.data == SessionAt(store.data, id)
    {
      var v := store.Get(now, SessionKey(id));
      if v == None {
        return null;
      }
      assert EntryTyped(SessionKey(id), store.data[SessionKey(id)]);
      s := new Session(store, id, maxPts, v.value.session);
    }

    method AddTarget(shareID: string)
      modifies this
      ensures data == WithTarget(old(data), shareID)
    {
      data := data.(targets := data.targets + [shareID]);
    }

    method RemoveTarget(shareID: string)
      modifies this
      ensures data == old(data).(targets := RemoveFirst(old(data.targets), shareID))
    {
      for i := 0 to |data.targets|
        invariant data == old(data)
        invariant shareID !in data.targets[..i]
      {
        if data.targets[i] == shareID {
          RemoveFirstAt(data.targets, shareID, i);
          data := data.(targets := data.targets[..i] + data.targets[i + 1..]);
          return;
        }
      }
      RemoveFirstAbsent(data.targets, shareID);
    }

    method AddPoint(p: Point)
      modifies this
      ensures data == old(data).(points := LastN(maxPts, old(data.points) + [p]))
    {
      data := data.(points := data.points + [p]);
      if |data.points| > maxPts {
        data := data.(points := data.points[|data.points| - maxPts..]);
      }
    }

    method GetPoints(since: real) returns (r: Slice<Point>)
      ensures r == ServedSlice(data, since)
    {
      if since <= 0.0 {
        return Items(data.points);
      }
      if data.encrypted {
        return Items(data.points);
      }
      var pts := Nil;
      for i := 0 to |data.points|
        invariant Newer(data.points[..i], since) == if pts.Nil? then [] else pts.items
        invariant pts.Items? ==> pts.items != []
      {
        assert data.points[..i + 1][..i] == data.points[..i];
        var p := data.points[i];
        if IsNewer(p, since) {
          pts := Items((if pts.Nil? then [] else pts.items) + [p]);
        }
      }
      assert data.points[..|data.points|] == data.points;
      return pts;
    }

    method HasExpired(now: real) returns (b: bool)
      ensures b <==> now >= data.expire as real
    {
      return now.Floor >= data.expire;
    }

    method Save()
      modifies store
      ensures store.data == PutSession(old(store.data), id, data)
    {
      store.Set(SessionKey(id), SessionV(data), data.expire);
    }

    method Delete()
      modifies store
      ensures store.data == old(store.data) - {SessionKey(id)}
    {
      store.Delete(SessionKey(id));
    }
  }

  lemma {:induction false} RemoveFirstAt(ts: seq<string>, x: string, i: nat)
    requires i < |ts| && ts[i] == x && x !in ts[..i]
    ensures RemoveFirst(ts, x) == ts[..i] + ts[i + 1..]
  {
    if i == 0 {
    } else {
      var rest := ts[1..];
      assert ts[0] in ts[..i];
      assert rest[..i - 1] == ts[..i][1..];
      RemoveFirstAt(rest, x, i - 1);
      assert rest[i..] == ts[i + 1..];
      assert [ts[0]] + rest[..i - 1] == ts[..i];
    }
  }

  lemma {:induction false} RemoveFirstAbsent(ts: seq<string>, x: string)
    requires x !in ts
    ensures RemoveFirst(ts, x) == ts
  {
    if ts == [] {
    } else {
      RemoveFirstAbsent(ts[1..], x);
    }
  }

  /** The kind of a live share, by the `type` field of its record. */
  datatype ShareType = Alone | Group

  method LoadShareType(store: Memory, now: real, id: string) returns (r: Option<ShareType>)
    requires Typed(store.data)
    ensures r == if LiveSolo(store.data, now, id) then Some(Alone)
                 else if LiveGroup(store.data, now, id) then Some(Group) else None
  {
    var v := store.Get(now, LocKey(id));
    if v == None {
      return None;
    }
    assert EntryTyped(LocKey(id), store.data[LocKey(id)]);
    return Some(if v.value.SoloV? then Alone else Group);
  }

  class SoloShare {
    const store: Memory
    var id: string
    var data: SoloData

    constructor (store: Memory, id: string, data: SoloData)
      ensures this.store == store && this.id == id && this.data == data
    {
      this.store, this.id, this.data := store, id, data;
    }

    static method Load(store: Memory, now: real, id: string) returns (s: SoloShare?)
      requires Typed(store.data)
      ensures s != null <==> Live(store.data, now, LocKey(id))
      ensures s != null ==> fresh(s) && s.store == store && s.id == id
      ensures LiveSolo(store.data, now, id) ==> s != null && s.data == SoloAt(store.data, id)
    {
      var v := store.Get(now, LocKey(id));
      if v == None {
        return null;
      }
      assert EntryTyped(LocKey(id), store.data[LocKey(id)]);
      s := new SoloShare(store, id, AsSolo(v.value));
    }

    method Save()
      modifies store
      ensures store.data == PutSolo(old(store.data), id, data)
    {
      store.Set(LocKey(id), SoloV(data), data.soloExpire);
    }

    method Delete()
      modifies store
      ensures store.data == old(store.data) - {LocKey(id)}
    {
      store.Delete(LocKey(id));
    }
  }

  /** The points of every host whose session is live. */
  function AllPoints(db: Db, now: real, hosts: map<string, string>, since: real): map<string, Slice<Point>> {
    map n | n in hosts && LiveSession(db, now, hosts[n]) :: ServedSlice(SessionAt(db, hosts[n]), since)
  }

  /** `r` is the least interval among the live sessions hosted under `nicks`, 0 if there is none. */
  ghost predicate LeastInterval(db: Db, now: real, hosts: map<string, string>, nicks: set<string>, r: real)
    requires nicks <= hosts.Keys
  {
    && (forall n :: n in nicks && LiveSession(db, now, hosts[n]) ==> r <= SessionAt(db, hosts[n]).interval)
    && (r == 0.0 || exists n :: n in nicks && LiveSession(db, now, hosts[n]) && r == SessionAt(db, hosts[n]).interval)
    && (r == 0.0 ==> forall n :: n in nicks ==> !LiveSession(db, now, hosts[n]))
  }

  class GroupShare {
    const store: Memory
    var id: string
    var data: GroupData
    /** Decoding a record without hosts leaves a nil map, which Go lets one read but not write. */
    const nilHosts: bool

    constructor (store: Memory, id: string, data: GroupData, nilHosts: bool)
      ensures this.store == store && this.id == id && this.data == data && this.nilHosts == nilHosts
    {
      this.store, this.id, this.data, this.nilHosts := store, id, data, nilHosts;
    }

    static method Load(store: Memory, now: real, id: string) returns (g: GroupShare?)
      requires Typed(store.data)
      ensures g != null <==> Live(store.data, now, LocKey(id))
      ensures g != null ==> fresh(g) && g.store == store && g.id == id
      ensures LiveGroup(store.data, now, id) ==> g != null && g.data == GroupAt(store.data, id) && !g.nilHosts
    {
      var v := store.Get(now, LocKey(id));
      if v == None {
        return null;
      }
      assert EntryTyped(LocKey(id), store.data[LocKey(id)]);
      g := new GroupShare(store, id, AsGroup(v.value), v.value.SoloV?);
    }

    static method LoadByPin(store: Memory, now: real, pin: int) returns (g: GroupShare?)
      requires Typed(store.data) && PinsOk(store.data, now)
      ensures g != null <==> Live(store.data, now, PinKey(pin))
      ensures g != null ==>
                && fresh(g) && g.store == store && g.id == store.data[PinKey(pin)].value.pointsTo
                && LiveGroup(store.data, now, g.id) && g.data == GroupAt(store.data, g.id)
                && g.data.pin == pin && !g.nilHosts
    {
      var v := store.Get(now, PinKey(pin));
      if v == None {
        return null;
      }
      assert PinOk(store.data, now, pin);
      g := Load(store, now, v.value.pointsTo);
    }

    method AddHost(nick: string, sessionID: string)
      requires !nilHosts
      modifies this
      ensures id == old(id) && data == old(data).(hosts := old(data.hosts)[nick := sessionID])
    {
      data := data.(hosts := data.hosts[nick := sessionID]);
    }

    /** The map iteration order is arbitrary, so any one nickname of the session may go. */
    method RemoveHost(sessionID: string)
      modifies this
      ensures id == old(id) && data == old(data).(hosts := data.hosts)
      ensures HostRemoved(old(data.hosts), sessionID, data.hosts)
    {
      var todo := data.hosts.Keys;
      while todo != {}
        invariant todo <= data.hosts.Keys && id == old(id) && data == old(data)
        invariant NicksOf(data.hosts, sessionID) <= todo
      {
        var nick :| nick in todo;
        if data.hosts[nick] == sessionID {
          assert nick in NicksOf(data.hosts, sessionID);
          data := data.(hosts := data.hosts - {nick});
          return;
        }
        todo := todo - {nick};
      }
    }

    method Save()
      modifies store
      ensures store.data == PutGroup(old(store.data), id, data)
    {
      store.Set(LocKey(id), GroupV(data), data.groupExpire);
      store.Set(PinKey(data.pin), PinV(id), data.groupExpire);
    }

    method Delete()
      modifies store
      ensures store.data == DropGroup(old(store.data), id, data.pin)
    {
      store.Delete(PinKey(data.pin));
      store.Delete(LocKey(id));
      assert store.data == DropGroup(old(store.data), id, data.pin);
    }

    method GetAllPoints(now: real, since: real, maxPts: nat) returns (points: map<string, Slice<Point>>)
      requires Typed(store.data)
      ensures points == AllPoints(store.data, now, data.hosts, since)
    {
      points := map[];
      var todo := data.hosts.Keys;
      while todo != {}
        invariant todo <= data.hosts.Keys
        invariant points == AllPoints(store.data, now, data.hosts - todo, since)
      {
        var nick :| nick in todo;
        var sess := Session.Load(store, now, data.hosts[nick], maxPts);
        if sess != null {
          var p := sess.GetPoints(since);
          points := points[nick := p];
        }
        todo := todo - {nick};
      }
      assert data.hosts - {} == data.hosts;
    }

    method GetAutoInterval(now: real, maxPts: nat) returns (min: real)
      requires Typed(store.data) && SessionsOk(maxPts, store.data)
      ensures LeastInterval(store.data, now, data.hosts, data.hosts.Keys, min)
    {
      min := 0.0;
      var todo := data.hosts.Keys;
      while todo != {}
        invariant todo <= data.hosts.Keys
        invariant LeastInterval(store.data, now, data.hosts, data.hosts.Keys - todo, min)
      {
        var nick :| nick in todo;
        var sess := Session.Load(store, now, data.hosts[nick], maxPts);
        if sess != null {
          if min == 0.0 || sess.data.interval < min {
            min := sess.data.interval;
          }
        }
        todo := todo - {nick};
      }
    }
  }

  /** There is only one least interval: the order in which hosts are met does not matter. */
  lemma LeastIntervalIsUnique(db: Db, now: real, hosts: map<string, string>, nicks: set<string>, r: real, r': real)
    requires nicks <= hosts.Keys && LeastInterval(db, now, hosts, nicks, r) && LeastInterval(db, now, hosts, nicks, r')
    ensures r == r'
  {
  }
}
