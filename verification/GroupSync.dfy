/** A viewer polling a group: when an answer stops it, and what it shows while none does. */
module GroupSync {
  import opened Wrappers
  import opened Records
  import opened Lifecycle
  import opened Model
  import opened Runs
  import opened Trail
  import opened Viewer
  import opened Sync
  import opened EndToEnd

  // ----- one answer -----

  /** What a live group answers, as the viewer reads it. */
  function Response(db: Db, now: real, id: string, since: real, dec: Decryption): map<string, Slice<TrailPoint>>
    requires LiveGroup(db, now, id)
  {
    ReadLists(AllPoints(db, now, GroupAt(db, id).hosts, since), dec)
  }

  predicate HasNewer(s: SessionData, since: real) {
    exists p :: p in s.points && IsNewer(p, since)
  }

  /** The list of a host is `null` exactly when it has nothing newer than a positive `since`. */
  lemma NullMeansNothingNewer(maxPts: nat, run: seq<Tick>, i: nat, now: real, id: string, since: real,
                              dec: Decryption, nick: string)
    requires IsRun(maxPts, run) && i < |run| && run[i].now <= now && LiveGroup(run[i].db, now, id)
    requires nick in GroupAt(run[i].db, id).hosts
    ensures var sid, res := GroupAt(run[i].db, id).hosts[nick], Response(run[i].db, now, id, since, dec);
            && (nick in res <==> LiveSession(run[i].db, now, sid))
            && (nick in res ==> (res[nick] == Nil <==> since > 0.0 && !HasNewer(SessionAt(run[i].db, sid), since)))
  {
    GroupReadsAreExact(maxPts, run, i, now, id, since, nick);
    var sid := GroupAt(run[i].db, id).hosts[nick];
    if LiveSession(run[i].db, now, sid) {
      var s := SessionAt(run[i].db, sid);
      assert HasNewer(s, since) <==> !forall p :: p in s.points ==> p.time <= since;
    }
  }

  /** The viewer gets through an answer if and only if it asked for everything, or every live host
      has something newer than `since`. */
  lemma AnswerCompletes(maxPts: nat, run: seq<Tick>, i: nat, now: real, id: string, since: real, dec: Decryption)
    requires IsRun(maxPts, run) && i < |run| && run[i].now <= now && LiveGroup(run[i].db, now, id)
    ensures var db, hosts := run[i].db, GroupAt(run[i].db, id).hosts;
            AllListed(Response(db, now, id, since, dec)) <==>
            since <= 0.0 ||
            forall n :: n in hosts && LiveSession(db, now, hosts[n]) ==> HasNewer(SessionAt(db, hosts[n]), since)
  {
    forall n | n in GroupAt(run[i].db, id).hosts
      ensures var sid, res := GroupAt(run[i].db, id).hosts[n], Response(run[i].db, now, id, since, dec);
              && (n in res <==> LiveSession(run[i].db, now, sid))
              && (n in res ==> (res[n] == Nil <==> since > 0.0 && !HasNewer(SessionAt(run[i].db, sid), since)))
    {
      NullMeansNothingNewer(maxPts, run, i, now, id, since, dec, n);
    }
  }

  /** So with the viewer's own `since`, a user who is furthest behind and has posted nothing newer
      than what is shown stops the viewer: its list is `null` precisely then. */
  lemma FurthestBehindStops(maxPts: nat, run: seq<Tick>, i: nat, now: real, id: string, dec: Decryption, nick: string,
                            shares: map<string, seq<TrailPoint>>, since: real)
    requires IsRun(maxPts, run) && i < |run| && run[i].now <= now && LiveGroup(run[i].db, now, id)
    requires nick in GroupAt(run[i].db, id).hosts && LiveSession(run[i].db, now, GroupAt(run[i].db, id).hosts[nick])
    requires IsOldestNewest(shares, shares.Keys, since) && since > 0.0
    requires nick in shares && shares[nick] != []
    requires forall u :: u in shares && shares[u] != [] ==> Newest(shares[nick]) <= Newest(shares[u])
    requires Newest(shares[nick]) <= NUMBER_MAX_VALUE
    ensures var res := Response(run[i].db, now, id, since, dec);
            var s := SessionAt(run[i].db, GroupAt(run[i].db, id).hosts[nick]);
            && nick in res && (res[nick] == Nil <==> !HasNewer(s, Newest(shares[nick])))
            && (!HasNewer(s, Newest(shares[nick])) ==> !AllListed(res))
  {
    assert since == Newest(shares[nick]);
    NullMeansNothingNewer(maxPts, run, i, now, id, since, dec, nick);
  }

  /** In every state of a run, a user who already has a trail loses nothing by an incremental answer:
      a list gives the trail that the full points would give, and where there is `null` they would
      change nothing either. */
  lemma {:induction false} GroupUpdateIsFull(maxPts: nat, run: seq<Tick>, i: nat, now: real, id: string, nick: string,
                                             shares: map<string, seq<TrailPoint>>, since: real,
                                             maxPoints: nat, dec: Decryption)
    requires IsRun(maxPts, run) && i < |run| && run[i].now <= now && LiveGroup(run[i].db, now, id)
    requires nick in GroupAt(run[i].db, id).hosts && LiveSession(run[i].db, now, GroupAt(run[i].db, id).hosts[nick])
    requires IsOldestNewest(shares, shares.Keys, since) && nick in shares && shares[nick] != []
    ensures var full := ReadAll(SessionAt(run[i].db, GroupAt(run[i].db, id).hosts[nick]).points, dec);
            match Response(run[i].db, now, id, since, dec)[nick]
            case Items(pts) => Update(maxPoints, shares[nick], pts) == Update(maxPoints, shares[nick], full)
            case Nil => Merge(shares[nick], full) == shares[nick]
  {
    var sid := GroupAt(run[i].db, id).hosts[nick];
    HostIsServed(maxPts, run, i, now, id, nick, since, dec);
    IncrementalEqualsFull(shares, since, nick, ReadAll(SessionAt(run[i].db, sid).points, dec));
  }

  /** What a live host's entry holds: its stored points, cut off at `since`; `null` for none. */
  lemma HostIsServed(maxPts: nat, run: seq<Tick>, i: nat, now: real, id: string, nick: string, since: real,
                     dec: Decryption)
    requires IsRun(maxPts, run) && i < |run| && run[i].now <= now && LiveGroup(run[i].db, now, id)
    requires nick in GroupAt(run[i].db, id).hosts && LiveSession(run[i].db, now, GroupAt(run[i].db, id).hosts[nick])
    ensures var sent := Sent(ReadAll(SessionAt(run[i].db, GroupAt(run[i].db, id).hosts[nick]).points, dec), since);
            match Response(run[i].db, now, id, since, dec)[nick]
            case Items(pts) => pts == sent
            case Nil => sent == []
  {
    GroupReadsAreExact(maxPts, run, i, now, id, since, nick);
    RunKeepsInv(maxPts, run, i);
    var s := SessionAt(run[i].db, GroupAt(run[i].db, id).hosts[nick]);
    assert SessionOk(maxPts, s);
    ServedIsSent(maxPts, s, since, dec);
  }

  // ----- a viewer polling -----

  /** A poll: what the viewer asked for and what it was answered. */
  datatype Poll = Poll(since: real, users: map<string, Slice<TrailPoint>>)

  /** A viewer of group `id`: the steps at which it polls, and what it keeps. */
  datatype GroupWatch = GroupWatch(id: string, polls: map<nat, Poll>, maxPoints: nat, dec: Decryption)

  /** The trails shown after `n` steps, if no answer stops the viewer before. */
  function GroupShown(w: GroupWatch, n: nat): map<string, seq<TrailPoint>> {
    if n == 0 then map[]
    else if n - 1 !in w.polls then GroupShown(w, n - 1)
    else Merged(w.maxPoints, GroupShown(w, n - 1), w.polls[n - 1].users, w.polls[n - 1].users.Keys)
  }

  /** A poll happens at a fetch step that finds the group live, asks for what the viewer computes
      from its trails, and is answered what the server has. */
  ghost predicate PolledAt(tick: Tick, w: GroupWatch, i: nat)
    requires i in w.polls
  {
    && tick.ev == Read && LiveGroup(tick.db, tick.now, w.id)
    && IsOldestNewest(GroupShown(w, i), GroupShown(w, i).Keys, w.polls[i].since)
    && w.polls[i].users == Response(tick.db, tick.now, w.id, w.polls[i].since, w.dec)
  }

  /** All polls of the watch do. */
  ghost predicate GroupWatching(run: seq<Tick>, w: GroupWatch) {
    forall i {:trigger PolledAt(run[i], w, i)} :: i in w.polls ==> i < |run| && PolledAt(run[i], w, i)
  }

  /** No answer before step `n` stops the viewer. */
  ghost predicate Uninterrupted(w: GroupWatch, n: nat) {
    forall i :: i in w.polls && i < n ==> AllListed(w.polls[i].users)
  }

  // ----- the lists alone -----

  /** Concatenation associates. */
  lemma Assoc<T>(a: seq<T>, b: seq<T>, c: seq<T>)
    ensures a + b + c == a + (b + c)
  {
  }

  /** What is known settles everything the server still has of what was posted. */
  lemma KnownSettles(maxPts: nat, given: seq<Point>, had: seq<Point>, more: seq<Point>, since: real, dec: Decryption)
    requires ReadAll(given, dec) == Sent(LastN(maxPts, ReadAll(had, dec)), since) && given != []
    ensures Settled(ReadAll(given + more, dec), LastN(maxPts, ReadAll(had + more, dec)))
  {
    SentSettles(LastN(maxPts, ReadAll(had, dec)), since);
    ReadConcat(had, more, dec);
    ReadConcat(given, more, dec);
    SettledOnwards(maxPts, ReadAll(given, dec), ReadAll(had, dec), ReadAll(more, dec));
  }

  /** `CatchUpFrom` on the points as the server holds them. */
  lemma {:induction false} CatchUpUser(maxPoints: nat, maxPts: nat, known: seq<Point>, seen: seq<Point>, d: seq<Point>,
                                       since: real, dec: Decryption)
    requires maxPoints > 0 && |d| <= maxPts && known != []
             && Settled(ReadAll(known, dec), LastN(maxPts, ReadAll(seen, dec)))
    requires var trail := LastN(maxPoints, Maxima(ReadAll(known, dec))); trail != [] ==> since <= Newest(trail)
    ensures Update(maxPoints, LastN(maxPoints, Maxima(ReadAll(known, dec))),
                   Sent(LastN(maxPts, ReadAll(seen + d, dec)), since)) ==
            LastN(maxPoints, Maxima(ReadAll(known + d, dec)))
  {
    LastMaximum(ReadAll(known, dec));
    ReadConcat(seen, d, dec);
    ReadConcat(known, d, dec);
    CatchUpFrom(maxPoints, maxPts, ReadAll(known, dec), ReadAll(seen, dec), ReadAll(d, dec), since);
  }

  /** A poll: `had`, `more` and `d` were posted before the first poll, then up to the last one, then
      up to this one. */
  lemma {:induction false} KnownCatchesUp(maxPoints: nat, maxPts: nat, given: seq<Point>, had: seq<Point>,
                                          more: seq<Point>, d: seq<Point>, since0: real, since: real, dec: Decryption)
    requires maxPoints > 0 && |d| <= maxPts
    requires ReadAll(given, dec) == Sent(LastN(maxPts, ReadAll(had, dec)), since0) && given != []
    requires var trail := LastN(maxPoints, Maxima(ReadAll(given + more, dec))); trail != [] ==> since <= Newest(trail)
    ensures Update(maxPoints, LastN(maxPoints, Maxima(ReadAll(given + more, dec))),
                   Sent(LastN(maxPts, ReadAll(had + (more + d), dec)), since)) ==
            LastN(maxPoints, Maxima(ReadAll(given + (more + d), dec)))
  {
    KnownSettles(maxPts, given, had, more, since0, dec);
    CatchUpUser(maxPoints, maxPts, given + more, had + more, d, since, dec);
    Assoc(had, more, d);
    Assoc(given, more, d);
  }

  // ----- one user of a polled group -----

  /** A user as the viewer meets it: under a nickname, first given points at the poll of step `first`. */
  datatype Member = Member(nick: string, sid: string, first: nat, given: seq<Point>)

  /** From that poll on the viewer finds the session under the nickname, and the session's id is not
      handed out again. */
  ghost predicate Hosting(run: seq<Tick>, w: GroupWatch, m: Member, n: nat)
    requires n <= |run|
  {
    && (forall i :: i in w.polls && m.first <= i < n ==> HostsAt(run[i], w.id, m))
    && (forall j :: m.first <= j < n ==> !Introduces(run[j].ev, m.sid))
  }

  ghost predicate HostsAt(tick: Tick, id: string, m: Member) {
    && LiveGroup(tick.db, tick.now, id) && LiveSession(tick.db, tick.now, m.sid)
    && m.nick in GroupAt(tick.db, id).hosts && GroupAt(tick.db, id).hosts[m.nick] == m.sid
  }

  function ListOf(users: map<string, Slice<TrailPoint>>, nick: string): seq<TrailPoint> {
    if nick in users && users[nick].Items? then users[nick].items else []
  }

  /** That poll gives the viewer its first points of the user. */
  predicate Appears(w: GroupWatch, m: Member) {
    && m.first in w.polls && TrailOf(GroupShown(w, m.first), m.nick) == []
    && ListOf(w.polls[m.first].users, m.nick) == ReadAll(m.given, w.dec) && m.given != []
  }

  /** At every poll after it and before step `n`, no more than a window of points is unseen. */
  ghost predicate PacedAfter(maxPts: nat, run: seq<Tick>, w: GroupWatch, m: Member, n: nat)
    requires n <= |run|
  {
    forall i :: i in w.polls && m.first < i < n ==> Unseen(run, w.polls.Keys, i, m.sid) <= maxPts
  }

  /** What the theorem asks of a run up to step `n`. */
  ghost predicate Followed(maxPts: nat, run: seq<Tick>, w: GroupWatch, m: Member, n: nat) {
    && IsRun(maxPts, run) && m.first < n <= |run| && GroupWatching(run, w) && w.maxPoints > 0 && Uninterrupted(w, n)
    && Hosting(run, w, m, n) && Appears(w, m) && PacedAfter(maxPts, run, w, m, n)
  }

  /** `more` is what was posted from the poll at step `first` to the last poll before step `n`. */
  predicate SeenIs(run: seq<Tick>, polls: set<nat>, first: nat, n: nat, sid: string, more: seq<Point>) {
    first < n <= |run| && SeenPosts(run, polls, n, sid) == Posted(run, first, sid) + more
  }

  predicate PostedIs(run: seq<Tick>, first: nat, n: nat, sid: string, more: seq<Point>) {
    first < n <= |run| && Posted(run, n, sid) == Posted(run, first, sid) + more
  }

  /** What is seen goes on from what had been posted at an earlier poll, and the posts from there. */
  lemma {:induction false} SeenSince(run: seq<Tick>, polls: set<nat>, first: nat, n: nat, sid: string)
    returns (more: seq<Point>)
    requires first in polls && first < n <= |run| && forall j :: first <= j < n ==> !Introduces(run[j].ev, sid)
    ensures SeenIs(run, polls, first, n, sid, more)
    ensures Posted(run, first, sid) <= Posted(run, n, sid)
  {
    if n == first + 1 {
      more := Posted(run, n, sid)[|Posted(run, first, sid)|..];
    } else {
      more := SeenSince(run, polls, first, n - 1, sid);
      if n - 1 in polls {
        more := Posted(run, n, sid)[|Posted(run, first, sid)|..];
      }
    }
  }

  lemma PostedSince(run: seq<Tick>, polls: set<nat>, n: nat, sid: string) returns (d: seq<Point>)
    requires n <= |run|
    ensures Posted(run, n, sid) == SeenPosts(run, polls, n, sid) + d && |d| == Unseen(run, polls, n, sid)
  {
    UnseenSuffix(run, polls, n, sid);
    d := Posted(run, n, sid)[|SeenPosts(run, polls, n, sid)|..];
  }

  /** What had been posted at the last poll and what has been since. */
  lemma PostsSplit(run: seq<Tick>, polls: set<nat>, first: nat, i: nat, sid: string)
    returns (more: seq<Point>, d: seq<Point>)
    requires first in polls && i in polls && first < i < |run| && run[i].ev == Read
    requires forall j :: first <= j < i ==> !Introduces(run[j].ev, sid)
    ensures SeenIs(run, polls, first, i, sid, more) && |d| == Unseen(run, polls, i, sid)
    ensures PostedIs(run, first, i, sid, more + d) && SeenIs(run, polls, first, i + 1, sid, more + d)
  {
    more := SeenSince(run, polls, first, i, sid);
    d := PostedSince(run, polls, i, sid);
    Assoc(Posted(run, first, sid), more, d);
  }

  lemma StoredIsWindow(maxPts: nat, run: seq<Tick>, i: nat, sid: string, dec: Decryption)
    requires IsRun(maxPts, run) && i < |run| && run[i].ev == Read && LiveSession(run[i].db, run[i].now, sid)
    ensures ReadAll(SessionAt(run[i].db, sid).points, dec) == LastN(maxPts, ReadAll(Posted(run, i, sid), dec))
  {
    WindowOfHistory(maxPts, run, i + 1, sid);
    ReadLastN(maxPts, Posted(run, i, sid), dec);
  }

  /** What a poll is answered for the user, in terms of what the session has posted. */
  lemma ListIsWindow(maxPts: nat, run: seq<Tick>, w: GroupWatch, m: Member, i: nat)
    requires IsRun(maxPts, run) && i in w.polls && i < |run| && PolledAt(run[i], w, i) && HostsAt(run[i], w.id, m)
    ensures m.nick in w.polls[i].users
    ensures ListOf(w.polls[i].users, m.nick) ==
            Sent(LastN(maxPts, ReadAll(Posted(run, i, m.sid), w.dec)), w.polls[i].since)
  {
    HostIsServed(maxPts, run, i, run[i].now, w.id, m.nick, w.polls[i].since, w.dec);
    StoredIsWindow(maxPts, run, i, m.sid, w.dec);
  }

  /** What a poll makes of the user's trail. */
  lemma TrailAfterPoll(w: GroupWatch, i: nat, nick: string)
    requires i in w.polls && nick in w.polls[i].users && AllListed(w.polls[i].users)
    ensures TrailOf(GroupShown(w, i + 1), nick) ==
            Update(w.maxPoints, TrailOf(GroupShown(w, i), nick), ListOf(w.polls[i].users, nick))
  {
  }

  /** The user's trail is that of the points `known`. */
  predicate Shows(w: GroupWatch, m: Member, n: nat, known: seq<Point>) {
    TrailOf(GroupShown(w, n), m.nick) == LastN(w.maxPoints, Maxima(ReadAll(known, w.dec)))
  }

  /** The trail is up to date with what had been posted at the last poll. */
  ghost predicate UserInSync(run: seq<Tick>, w: GroupWatch, m: Member, n: nat) {
    exists more :: SeenIs(run, w.polls.Keys, m.first, n, m.sid, more) && Shows(w, m, n, m.given + more)
  }

  lemma AppearsInSync(run: seq<Tick>, w: GroupWatch, m: Member)
    requires m.first < |run| && run[m.first].ev == Read && Appears(w, m) && AllListed(w.polls[m.first].users)
    ensures UserInSync(run, w, m, m.first + 1)
  {
    MergeFindsMaxima(ReadAll(m.given, w.dec));
    TrailAfterPoll(w, m.first, m.nick);
    assert m.given + [] == m.given;
    assert Shows(w, m, m.first + 1, m.given + []);
    assert SeenIs(run, w.polls.Keys, m.first, m.first + 1, m.sid, []);
  }

  lemma OneMore(run: seq<Tick>, w: GroupWatch, m: Member, n: nat, more: seq<Point>)
    requires UserInSync(run, w, m, n) && SeenIs(run, w.polls.Keys, m.first, n, m.sid, more)
    ensures Shows(w, m, n, m.given + more)
  {
    var more' :| SeenIs(run, w.polls.Keys, m.first, n, m.sid, more') && Shows(w, m, n, m.given + more');
    assert more == SeenPosts(run, w.polls.Keys, n, m.sid)[|Posted(run, m.first, m.sid)|..] == more';
  }

  lemma PollShows(maxPts: nat, run: seq<Tick>, w: GroupWatch, m: Member, n: nat, i: nat, more: seq<Point>,
                  d: seq<Point>)
    requires Followed(maxPts, run, w, m, n) && i in w.polls && m.first < i < n && Shows(w, m, i, m.given + more)
    requires |d| <= maxPts && PostedIs(run, m.first, i, m.sid, more + d)
    ensures Shows(w, m, i + 1, m.given + (more + d))
  {
    assert PolledAt(run[m.first], w, m.first) && PolledAt(run[i], w, i);
    ListIsWindow(maxPts, run, w, m, m.first);
    ListIsWindow(maxPts, run, w, m, i);
    TrailAfterPoll(w, i, m.nick);
    KnownCatchesUp(w.maxPoints, maxPts, m.given, Posted(run, m.first, m.sid), more, d,
                   w.polls[m.first].since, w.polls[i].since, w.dec);
  }

  lemma FollowedSplit(maxPts: nat, run: seq<Tick>, w: GroupWatch, m: Member, n: nat, i: nat)
    returns (more: seq<Point>, d: seq<Point>)
    requires Followed(maxPts, run, w, m, n) && i in w.polls && m.first < i < n
    ensures SeenIs(run, w.polls.Keys, m.first, i, m.sid, more) && |d| <= maxPts
    ensures PostedIs(run, m.first, i, m.sid, more + d) && SeenIs(run, w.polls.Keys, m.first, i + 1, m.sid, more + d)
  {
    assert PolledAt(run[i], w, i);
    more, d := PostsSplit(run, w.polls.Keys, m.first, i, m.sid);
  }

  lemma PollSyncsUser(maxPts: nat, run: seq<Tick>, w: GroupWatch, m: Member, n: nat, i: nat)
    requires Followed(maxPts, run, w, m, n) && i in w.polls && m.first < i < n && UserInSync(run, w, m, i)
    ensures UserInSync(run, w, m, i + 1)
  {
    var more, d := FollowedSplit(maxPts, run, w, m, n, i);
    OneMore(run, w, m, i, more);
    PollShows(maxPts, run, w, m, n, i, more, d);
  }

  lemma OtherStepsKeepUser(run: seq<Tick>, w: GroupWatch, m: Member, i: nat)
    requires i < |run| && i !in w.polls && !Introduces(run[i].ev, m.sid) && UserInSync(run, w, m, i)
    ensures UserInSync(run, w, m, i + 1)
  {
    var more :| SeenIs(run, w.polls.Keys, m.first, i, m.sid, more) && Shows(w, m, i, m.given + more);
    assert SeenIs(run, w.polls.Keys, m.first, i + 1, m.sid, more) && Shows(w, m, i + 1, m.given + more);
  }

  /** Every step after the first poll keeps the user in sync. */
  ghost predicate StepsKeepUser(run: seq<Tick>, w: GroupWatch, m: Member, n: nat) {
    forall i: nat :: m.first < i < n && UserInSync(run, w, m, i) ==> UserInSync(run, w, m, i + 1)
  }

  lemma {:induction false} FollowedKeeps(maxPts: nat, run: seq<Tick>, w: GroupWatch, m: Member, n: nat)
    requires Followed(maxPts, run, w, m, n)
    ensures StepsKeepUser(run, w, m, n)
  {
    forall i: nat | m.first < i < n && UserInSync(run, w, m, i) ensures UserInSync(run, w, m, i + 1) {
      if i in w.polls {
        PollSyncsUser(maxPts, run, w, m, n, i);
      } else {
        OtherStepsKeepUser(run, w, m, i);
      }
    }
  }

  lemma {:induction false} StaysInSyncWith(run: seq<Tick>, w: GroupWatch, m: Member, n: nat)
    requires m.first < n && StepsKeepUser(run, w, m, n) && UserInSync(run, w, m, m.first + 1)
    ensures UserInSync(run, w, m, n)
    decreases n
  {
    if n == m.first + 1 {
    } else {
      StaysInSyncWith(run, w, m, n - 1);
    }
  }

  lemma FollowedIsInSync(maxPts: nat, run: seq<Tick>, w: GroupWatch, m: Member, n: nat)
    requires Followed(maxPts, run, w, m, n)
    ensures UserInSync(run, w, m, n)
  {
    assert PolledAt(run[m.first], w, m.first);
    AppearsInSync(run, w, m);
    FollowedKeeps(maxPts, run, w, m, n);
    StaysInSyncWith(run, w, m, n);
  }

  lemma FollowedPosts(maxPts: nat, run: seq<Tick>, w: GroupWatch, m: Member, i: nat) returns (posted: seq<Point>)
    requires Followed(maxPts, run, w, m, i + 1) && i in w.polls
    ensures SeenIs(run, w.polls.Keys, m.first, i + 1, m.sid, posted) && PostedIs(run, m.first, i + 1, m.sid, posted)
  {
    assert PolledAt(run[i], w, i);
    posted := SeenSince(run, w.polls.Keys, m.first, i + 1, m.sid);
  }

  /** After every poll each user's trail is exactly the last `maxPoints` strict left-to-right time
      maxima of the points the viewer was first given, followed by everything the user has posted
      since, provided no answer stops the viewer and no more than a window of points is posted
      between polls. */
  lemma {:induction false} GroupEndToEndSync(maxPts: nat, run: seq<Tick>, w: GroupWatch, m: Member, i: nat)
    returns (posted: seq<Point>)
    requires Followed(maxPts, run, w, m, i + 1) && i in w.polls
    ensures Posted(run, i + 1, m.sid) == Posted(run, m.first, m.sid) + posted
    ensures TrailOf(GroupShown(w, i + 1), m.nick) == LastN(w.maxPoints, Maxima(ReadAll(m.given + posted, w.dec)))
  {
    posted := FollowedPosts(maxPts, run, w, m, i);
    FollowedIsInSync(maxPts, run, w, m, i + 1);
    OneMore(run, w, m, i + 1, posted);
  }

  /** So a viewer that is first given everything, no more than a window of it, shows each user as a
      viewer of a share of its own would: by the last maxima of everything posted. */
  lemma {:induction false} GroupShowsWholeHistory(maxPts: nat, run: seq<Tick>, w: GroupWatch, m: Member, i: nat)
    requires Followed(maxPts, run, w, m, i + 1) && i in w.polls
    requires w.polls[m.first].since <= 0.0 && |Posted(run, m.first, m.sid)| <= maxPts
    ensures TrailOf(GroupShown(w, i + 1), m.nick) ==
            LastN(w.maxPoints, Maxima(ReadAll(Posted(run, i + 1, m.sid), w.dec)))
  {
    assert PolledAt(run[m.first], w, m.first) && HostsAt(run[m.first], w.id, m);
    ListIsWindow(maxPts, run, w, m, m.first);
    var posted := GroupEndToEndSync(maxPts, run, w, m, i);
    ReadConcat(m.given, posted, w.dec);
    ReadConcat(Posted(run, m.first, m.sid), posted, w.dec);
  }
}
