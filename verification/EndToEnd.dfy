/** End to end: over any run of the server, with whatever else goes on in it, a viewer polling a
    solo share shows the last points of the strict time maxima of everything posted. */
module EndToEnd {
  import opened Wrappers
  import opened Records
  import opened Lifecycle
  import opened Runs
  import opened Trail
  import opened Sync
  import Safety

  // ----- the server's side: the window is the end of the history -----

  /** Everything posted to a session in the first `n` steps, since its id was handed out. */
  function Posted(run: seq<Tick>, n: nat, sid: string): seq<Point>
    requires n <= |run|
  {
    if n == 0 then []
    else if Introduces(run[n - 1].ev, sid) then []
    else if run[n - 1].ev.Post? && run[n - 1].ev.sid == sid then Posted(run, n - 1, sid) + [run[n - 1].ev.point]
    else Posted(run, n - 1, sid)
  }

  /** What a step does to the points of a session that is stored after it. */
  lemma StepPoints(maxPts: nat, db: Db, now: real, ev: Event, db': Db, sid: string)
    requires Inv(maxPts, db, now) && Step(maxPts, db, now, ev, db') && SessionKey(sid) in db'
             && db'[SessionKey(sid)].value.SessionV?
    ensures Introduces(ev, sid) ==> SessionAt(db', sid).points == []
    ensures !Introduces(ev, sid) ==>
              && SessionKey(sid) in db && db[SessionKey(sid)].value.SessionV?
              && SessionAt(db', sid).encrypted == SessionAt(db, sid).encrypted
              && SessionAt(db', sid).points ==
                 if ev.Post? && ev.sid == sid then LastN(maxPts, SessionAt(db, sid).points + [ev.point])
                 else SessionAt(db, sid).points
  {
    match ev
    case StopLink(s, lid) =>
      var d := SessionAt(db, s);
      var mid :| Released(db, now, s, lid, mid)
          && db' == PutSession(mid, s, d.(targets := RemoveFirst(d.targets, lid)));
      Safety.ReleaseIsShareReleased(db, now, s, lid, mid);
      assert Safety.Same(db, mid, SessionKey(sid));
    case StopAll(s) =>
      var mid :| ReleasedAll(db, now, s, SessionAt(db, s).targets, mid) && db' == mid - {SessionKey(s)};
      Safety.ReleaseAllKeepsRest(maxPts, db, now, s, SessionAt(db, s).targets, mid);
      assert Safety.Same(db, mid, SessionKey(sid));
    case _ =>
  }

  /** The stored points of a session are the last ones posted to it. */
  lemma {:induction false} WindowOfHistory(maxPts: nat, run: seq<Tick>, n: nat, sid: string)
    requires IsRun(maxPts, run) && 0 < n <= |run| && SessionKey(sid) in run[n - 1].db
    ensures run[n - 1].db[SessionKey(sid)].value.SessionV?
    ensures SessionAt(run[n - 1].db, sid).points == LastN(maxPts, Posted(run, n, sid))
  {
    var tick := run[n - 1];
    RunKeepsInv(maxPts, run, n - 1);
    assert TickOk(maxPts, run, n - 1);
    StepPoints(maxPts, Before(run, n - 1), tick.now, tick.ev, tick.db, sid);
    if Introduces(tick.ev, sid) {
    } else {
      WindowOfHistory(maxPts, run, n - 1, sid);
      if tick.ev.Post? && tick.ev.sid == sid {
        LastNAbsorbs(maxPts, Posted(run, n - 1, sid), [tick.ev.point]);
      }
    }
  }

  // ----- the viewer's side -----

  /** A viewer of share `id`: which steps are its polls, and how it reads encrypted points. */
  datatype Watch = Watch(id: string, polls: set<nat>, maxPoints: nat, dec: Decryption)

  /** The points answered to a poll; `SoloAlwaysFindsSession` says the session is never missing. */
  function Answer(db: Db, now: real, id: string, since: real): seq<Point>
    requires LiveSolo(db, now, id)
  {
    if LiveSession(db, now, SoloAt(db, id).host) then Served(SessionAt(db, SoloAt(db, id).host), since) else []
  }

  /** Every poll of the watch happens at a fetch step and finds the share live with host `sid`;
      once it has polled, the session's id is not handed out again. */
  ghost predicate Watching(run: seq<Tick>, w: Watch, sid: string) {
    && (forall i :: i in w.polls ==> i < |run| && PollFinds(run[i], w.id, sid))
    && (forall i, j :: i in w.polls && i < j < |run| ==> !Introduces(run[j].ev, sid))
  }

  ghost predicate PollFinds(tick: Tick, id: string, sid: string) {
    tick.ev == Read && LiveSolo(tick.db, tick.now, id) && SoloAt(tick.db, id).host == sid
  }

  /** The trail shown after `n` steps. */
  ghost function Shown(run: seq<Tick>, w: Watch, n: nat, sid: string): seq<TrailPoint>
    requires n <= |run| && Watching(run, w, sid)
  {
    if n == 0 then []
    else
      var trail := Shown(run, w, n - 1, sid);
      if n - 1 !in w.polls then trail
      else
        assert PollFinds(run[n - 1], w.id, sid);
        Update(w.maxPoints, trail, ReadAll(Answer(run[n - 1].db, run[n - 1].now, w.id, SinceOf(trail)), w.dec))
  }

  /** How many points have been posted since the last poll. */
  function Unseen(run: seq<Tick>, polls: set<nat>, n: nat, sid: string): nat
    requires n <= |run|
  {
    if n == 0 || n - 1 in polls || Introduces(run[n - 1].ev, sid) then 0
    else Unseen(run, polls, n - 1, sid) + if run[n - 1].ev.Post? && run[n - 1].ev.sid == sid then 1 else 0
  }

  /** What had been posted at the last poll. */
  function SeenPosts(run: seq<Tick>, polls: set<nat>, n: nat, sid: string): seq<Point>
    requires n <= |run|
  {
    if n == 0 || Introduces(run[n - 1].ev, sid) then []
    else if n - 1 in polls then Posted(run, n, sid)
    else SeenPosts(run, polls, n - 1, sid)
  }

  /** At every poll up to step `n`, no more than a window of points is unseen. */
  ghost predicate Paced(maxPts: nat, run: seq<Tick>, w: Watch, n: nat, sid: string)
    requires n <= |run|
  {
    forall i :: i in w.polls && i < n ==> Unseen(run, w.polls, i, sid) <= maxPts
  }

  lemma {:induction false} UnseenSuffix(run: seq<Tick>, polls: set<nat>, n: nat, sid: string)
    requires n <= |run|
    ensures var h, d := SeenPosts(run, polls, n, sid), Posted(run, n, sid);
            h <= d && |d| - |h| == Unseen(run, polls, n, sid)
  {
    if n == 0 {
    } else {
      UnseenSuffix(run, polls, n - 1, sid);
    }
  }

  /** What a poll is answered, in terms of the history. */
  lemma AnswerIsWindow(maxPts: nat, run: seq<Tick>, w: Watch, i: nat, sid: string, since: real)
    requires IsRun(maxPts, run) && i < |run| && PollFinds(run[i], w.id, sid)
    ensures var window := LastN(maxPts, ReadAll(Posted(run, i, sid), w.dec));
            var read := ReadAll(Answer(run[i].db, run[i].now, w.id, since), w.dec);
            read == window || read == Sent(window, since)
  {
    SoloAlwaysFindsSession(maxPts, run, i, run[i].now, w.id);
    RunKeepsInv(maxPts, run, i);
    WindowOfHistory(maxPts, run, i + 1, sid);
    ReadLastN(maxPts, Posted(run, i, sid), w.dec);
    ServedIsSent(maxPts, SessionAt(run[i].db, sid), since, w.dec);
  }

  lemma {:induction false} ServedIsSent(maxPts: nat, s: SessionData, since: real, dec: Decryption)
    requires SessionOk(maxPts, s)
    ensures ReadAll(Served(s, since), dec) ==
            if s.encrypted then ReadAll(s.points, dec) else Sent(ReadAll(s.points, dec), since)
  {
    if since > 0.0 && !s.encrypted {
      ReadNewer(s.points, since, dec);
    }
  }

  lemma ShownAfterPoll(run: seq<Tick>, w: Watch, i: nat, sid: string)
    requires Watching(run, w, sid) && i in w.polls
    ensures i < |run| && PollFinds(run[i], w.id, sid) && Posted(run, i + 1, sid) == Posted(run, i, sid)
    ensures Shown(run, w, i + 1, sid) ==
            Update(w.maxPoints, Shown(run, w, i, sid),
                   ReadAll(Answer(run[i].db, run[i].now, w.id, SinceOf(Shown(run, w, i, sid))), w.dec))
  {
    assert PollFinds(run[i], w.id, sid);
  }

  /** `CatchUp` on the points as the server holds them. */
  lemma {:induction false} CatchUpOn(maxPoints: nat, maxPts: nat, seen: seq<Point>, all: seq<Point>, dec: Decryption)
    requires maxPoints > 0 && seen <= all && |all| - |seen| <= maxPts
    ensures var trail := LastN(maxPoints, Maxima(ReadAll(seen, dec)));
            var window := LastN(maxPts, ReadAll(all, dec));
            && Update(maxPoints, trail, window) == LastN(maxPoints, Maxima(ReadAll(all, dec)))
            && Update(maxPoints, trail, Sent(window, SinceOf(trail))) == LastN(maxPoints, Maxima(ReadAll(all, dec)))
  {
    var d := all[|seen|..];
    assert all == seen + d;
    ReadConcat(seen, d, dec);
    CatchUp(maxPoints, maxPts, ReadAll(seen, dec), ReadAll(d, dec));
  }

  /** A poll that is paced brings the trail up to date. */
  lemma PollCatchesUp(maxPts: nat, run: seq<Tick>, w: Watch, i: nat, sid: string)
    requires IsRun(maxPts, run) && Watching(run, w, sid) && w.maxPoints > 0 && i in w.polls
    requires Unseen(run, w.polls, i, sid) <= maxPts
    requires Shown(run, w, i, sid) == LastN(w.maxPoints, Maxima(ReadAll(SeenPosts(run, w.polls, i, sid), w.dec)))
    ensures Shown(run, w, i + 1, sid) == LastN(w.maxPoints, Maxima(ReadAll(Posted(run, i + 1, sid), w.dec)))
  {
    ShownAfterPoll(run, w, i, sid);
    AnswerIsWindow(maxPts, run, w, i, sid, SinceOf(Shown(run, w, i, sid)));
    UnseenSuffix(run, w.polls, i, sid);
    CatchUpOn(w.maxPoints, maxPts, SeenPosts(run, w.polls, i, sid), Posted(run, i, sid), w.dec);
  }

  lemma ReadLastN(n: nat, pts: seq<Point>, dec: Decryption)
    ensures ReadAll(LastN(n, pts), dec) == LastN(n, ReadAll(pts, dec))
  {
    if |pts| > n {
      ReadConcat(pts[..|pts| - n], LastN(n, pts), dec);
      assert pts == pts[..|pts| - n] + LastN(n, pts);
    }
  }

  lemma {:induction false} NothingSeenYet(run: seq<Tick>, w: Watch, n: nat, sid: string)
    requires n <= |run| && Watching(run, w, sid) && forall i :: i in w.polls ==> i >= n
    ensures Shown(run, w, n, sid) == []
  {
    if n == 0 {
    } else {
      NothingSeenYet(run, w, n - 1, sid);
    }
  }

  /** The trail is up to date with what had been posted at the last poll. */
  ghost predicate InSync(run: seq<Tick>, w: Watch, n: nat, sid: string)
    requires n <= |run| && Watching(run, w, sid)
  {
    Shown(run, w, n, sid) == LastN(w.maxPoints, Maxima(ReadAll(SeenPosts(run, w.polls, n, sid), w.dec)))
  }

  lemma PollSyncs(maxPts: nat, run: seq<Tick>, w: Watch, i: nat, sid: string)
    requires IsRun(maxPts, run) && Watching(run, w, sid) && w.maxPoints > 0 && i in w.polls
    requires i < |run| && Unseen(run, w.polls, i, sid) <= maxPts && InSync(run, w, i, sid)
    ensures InSync(run, w, i + 1, sid)
  {
    assert PollFinds(run[i], w.id, sid);
    PollCatchesUp(maxPts, run, w, i, sid);
  }

  lemma OtherStepsStaySynced(run: seq<Tick>, w: Watch, i: nat, sid: string)
    requires Watching(run, w, sid) && i < |run| && i !in w.polls && InSync(run, w, i, sid)
    ensures InSync(run, w, i + 1, sid)
  {
    if Introduces(run[i].ev, sid) {
      NothingSeenYet(run, w, i, sid);
    }
  }

  /** Every poll before step `n` leaves the trail in sync if it found it so. */
  ghost predicate PollsSync(run: seq<Tick>, w: Watch, n: nat, sid: string)
    requires n <= |run| && Watching(run, w, sid)
  {
    forall i: nat :: i in w.polls && i < n && InSync(run, w, i, sid) ==> InSync(run, w, i + 1, sid)
  }

  lemma {:induction false} PacedPollsSync(maxPts: nat, run: seq<Tick>, w: Watch, n: nat, sid: string)
    requires IsRun(maxPts, run) && Watching(run, w, sid) && w.maxPoints > 0
    requires n <= |run| && Paced(maxPts, run, w, n, sid)
    ensures PollsSync(run, w, n, sid)
  {
    forall i: nat | i in w.polls && i < n && InSync(run, w, i, sid) ensures InSync(run, w, i + 1, sid) {
      PollSyncs(maxPts, run, w, i, sid);
    }
  }

  lemma {:induction false} StaysInSync(run: seq<Tick>, w: Watch, n: nat, sid: string)
    requires n <= |run| && Watching(run, w, sid) && PollsSync(run, w, n, sid)
    ensures InSync(run, w, n, sid)
    decreases n
  {
    if n == 0 {
    } else {
      StaysInSync(run, w, n - 1, sid);
      if n - 1 !in w.polls {
        OtherStepsStaySynced(run, w, n - 1, sid);
      }
    }
  }

  /** After every poll the viewer shows exactly the last `maxPoints` strict left-to-right time
      maxima of everything posted to the session, clear or encrypted, provided no more than a
      window of points was posted before the first poll and between polls. */
  lemma {:induction false} EndToEndSync(maxPts: nat, run: seq<Tick>, w: Watch, i: nat, sid: string)
    requires IsRun(maxPts, run) && Watching(run, w, sid) && w.maxPoints > 0
    requires i in w.polls && Paced(maxPts, run, w, i + 1, sid)
    ensures Shown(run, w, i + 1, sid) == LastN(w.maxPoints, Maxima(ReadAll(Posted(run, i + 1, sid), w.dec)))
  {
    assert PollFinds(run[i], w.id, sid);
    PacedPollsSync(maxPts, run, w, i + 1, sid);
    StaysInSync(run, w, i + 1, sid);
  }
}
