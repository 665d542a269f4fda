/** The rate limiter (ratelimit/ratelimit.go): fixed windows per key, swept lazily, capped in
    number.  Times are reals; the clock never goes back. */
module RateLimit {
  const MAX_ENTRIES: nat := 10000

  datatype Window = Window(count: nat, resetAt: real)

  type Table = map<string, Window>

  /** The windows that have not run out. */
  function LiveWindows(t: Table, now: real): Table {
    map k | k in t && now <= t[k].resetAt :: t[k]
  }

  /** A limiter whose windows vanish the moment they run out: its decision and its next table. */
  function Decide(limit: int, window: real, live: Table, key: string, now: real): (bool, Table) {
    if limit <= 0 then (true, live)
    else if key in live then
      if live[key].count >= limit then (false, live) else (true, live[key := live[key].(count := live[key].count + 1)])
    else if |live| >= MAX_ENTRIES then (false, live)
    else (true, live[key := Window(1, now + window)])
  }

  datatype Call = Call(key: string, now: real)

  /** The table of that limiter after the first `n` calls of a trace. */
  function TableAfter(limit: int, window: real, calls: seq<Call>, n: nat): Table
    requires n <= |calls|
    decreases n, 0
  {
    if n == 0 then map[] else Outcome(limit, window, calls, n - 1).1
  }

  /** Its decision on call `i`, and the table that leaves. */
  function Outcome(limit: int, window: real, calls: seq<Call>, i: nat): (bool, Table)
    requires i < |calls|
    decreases i, 1
  {
    Decide(limit, window, LiveWindows(TableAfter(limit, window, calls, i), calls[i].now), calls[i].key, calls[i].now)
  }

  class Limiter {
    var entries: Table
    const limit: int
    const window: real
    var lastSweep: real
    /** Every call so far. */
    ghost var calls: seq<Call>
    /** What they were told. */
    ghost var oks: seq<bool>

    ghost predicate Valid()
      reads this
    {
      |entries| <= MAX_ENTRIES && window >= 0.0 && Kept(limit, window, calls, oks, entries)
    }

    constructor (limit: int, window: real, now: real)
      requires window >= 0.0
      ensures Valid() && calls == [] && oks == []
      ensures this.limit == limit && this.window == window && lastSweep == now
    {
      this.limit, this.window, entries, lastSweep := limit, window, map[], now;
      calls, oks := [], [];
    }

    /** The clock is read twice: `now` when the call starts, `later` to see if a sweep is due.
        Whenever sweeps happen, the decision is that of instant expiry, and the call is refused
        exactly when it is due to be. */
    method Allow(key: string, now: real, later: real) returns (ok: bool)
      requires Valid() && (calls != [] ==> calls[|calls| - 1].now <= now)
      modifies this
      ensures Valid() && calls == old(calls) + [Call(key, now)] && oks == old(oks) + [ok]
      ensures ok == Outcome(limit, window, calls, |calls| - 1).0
      ensures !ok <==> limit > 0 && Due(limit, window, calls, old(oks), |calls| - 1)
    {
      if limit <= 0 {
        ok := true;
      } else {
        ok := Admit(key, now, later);
      }
      CallRecorded(limit, window, calls, oks, Call(key, now), old(entries), entries, ok);
      calls, oks := calls + [Call(key, now)], oks + [ok];
    }

    /** What `Allow` does once it holds the lock. */
    method Admit(key: string, now: real, later: real) returns (ok: bool)
      requires |entries| <= MAX_ENTRIES && window >= 0.0 && limit > 0
      modifies this`entries, this`lastSweep
      ensures |entries| <= MAX_ENTRIES
      ensures (ok, LiveWindows(entries, now)) == Decide(limit, window, LiveWindows(old(entries), now), key, now)
    {
      ghost var live := LiveWindows(entries, now);
      LiveIsSmaller(entries, now);
      if later - lastSweep > window * 2.0 || |entries| >= MAX_ENTRIES {
        Sweep(now);
      }
      assert LiveWindows(entries, now) == live;
      LiveIsSmaller(entries, now);
      if key !in entries || now > entries[key].resetAt {
        if |entries| >= MAX_ENTRIES {
          return false;
        }
        entries := entries[key := Window(1, now + window)];
        assert LiveWindows(entries, now) == live[key := Window(1, now + window)];
        return true;
      }
      var e := entries[key];
      if e.count >= limit {
        return false;
      }
      entries := entries[key := e.(count := e.count + 1)];
      assert LiveWindows(entries, now) == live[key := e.(count := e.count + 1)];
      return true;
    }

    /** Deletes stale windows one by one, in whatever order the map yields them. */
    method Sweep(now: real)
      modifies this`entries, this`lastSweep
      ensures entries == LiveWindows(old(entries), now) && lastSweep == now
    {
      var todo := entries.Keys;
      while todo != {}
        invariant todo <= entries.Keys <= old(entries).Keys
        invariant forall k :: k in entries ==> entries[k] == old(entries)[k]
        invariant forall k :: k in old(entries) && k !in todo ==> (k in entries <==> now <= old(entries)[k].resetAt)
      {
        var k :| k in todo;
        if now > entries[k].resetAt {
          entries := entries - {k};
        }
        todo := todo - {k};
      }
      lastSweep := now;
    }
  }

  /** The stored windows that are live are those of the limiter with instant expiry, and so were all
      decisions. */
  ghost predicate Kept(limit: int, window: real, calls: seq<Call>, oks: seq<bool>, entries: Table) {
    && InOrder(calls) && |oks| == |calls| && Decided(limit, window, calls, oks)
    && if calls == [] then entries == map[]
       else LiveWindows(entries, calls[|calls| - 1].now) == TableAfter(limit, window, calls, |calls|)
  }

  lemma InOrderAppended(calls: seq<Call>, c: Call)
    requires InOrder(calls) && (calls != [] ==> calls[|calls| - 1].now <= c.now)
    ensures InOrder(calls + [c])
  {
  }

  lemma OneMoreDecided(limit: int, window: real, calls: seq<Call>, oks: seq<bool>, ok: bool)
    requires |oks| < |calls| && Decided(limit, window, calls, oks) && ok == Outcome(limit, window, calls, |oks|).0
    ensures Decided(limit, window, calls, oks + [ok])
  {
  }

  lemma DecidedAs(limit: int, window: real, calls: seq<Call>, oks: seq<bool>, c: Call, before: Table, entries: Table,
                  ok: bool)
    requires Kept(limit, window, calls, oks, before) && (calls != [] ==> calls[|calls| - 1].now <= c.now)
    requires (ok, LiveWindows(entries, c.now)) == Decide(limit, window, LiveWindows(before, c.now), c.key, c.now)
    ensures (ok, LiveWindows(entries, c.now)) == Outcome(limit, window, calls + [c], |calls|)
    ensures InOrder(calls + [c]) && Decided(limit, window, calls + [c], oks)
  {
    CallAppended(limit, window, calls, c, before);
    DecidedAppended(limit, window, calls, oks, c);
    InOrderAppended(calls, c);
  }

  lemma KeptAppended(limit: int, window: real, calls: seq<Call>, oks: seq<bool>, c: Call, entries: Table, ok: bool)
    requires |oks| == |calls| && InOrder(calls + [c]) && Decided(limit, window, calls + [c], oks)
    requires (ok, LiveWindows(entries, c.now)) == Outcome(limit, window, calls + [c], |calls|)
    ensures Kept(limit, window, calls + [c], oks + [ok], entries)
  {
    OneMoreDecided(limit, window, calls + [c], oks, ok);
    assert TableAfter(limit, window, calls + [c], |calls + [c]|) == Outcome(limit, window, calls + [c], |calls|).1;
  }

  lemma CallRecorded(limit: int, window: real, calls: seq<Call>, oks: seq<bool>, c: Call, before: Table, entries: Table,
                     ok: bool)
    requires Kept(limit, window, calls, oks, before) && (calls != [] ==> calls[|calls| - 1].now <= c.now)
    requires (ok, LiveWindows(entries, c.now)) == Decide(limit, window, LiveWindows(before, c.now), c.key, c.now)
    ensures Kept(limit, window, calls + [c], oks + [ok], entries)
    ensures ok == Outcome(limit, window, calls + [c], |calls|).0
    ensures !ok <==> limit > 0 && Due(limit, window, calls + [c], oks, |calls|)
  {
    DecidedAs(limit, window, calls, oks, c, before, entries, ok);
    KeptAppended(limit, window, calls, oks, c, entries, ok);
    if limit > 0 {
      RefusedWhenDue(limit, window, calls + [c], oks, |calls|);
    }
  }

  lemma {:induction false} PrefixTable(limit: int, window: real, calls: seq<Call>, c: Call, n: nat)
    requires n <= |calls|
    ensures TableAfter(limit, window, calls + [c], n) == TableAfter(limit, window, calls, n)
  {
    if n == 0 {
    } else {
      PrefixTable(limit, window, calls, c, n - 1);
    }
  }

  /** A call that comes later decides on the windows still live in the stored table. */
  lemma CallAppended(limit: int, window: real, calls: seq<Call>, c: Call, entries: Table)
    requires calls != [] ==> calls[|calls| - 1].now <= c.now
    requires if calls == [] then entries == map[]
             else LiveWindows(entries, calls[|calls| - 1].now) == TableAfter(limit, window, calls, |calls|)
    ensures Outcome(limit, window, calls + [c], |calls|) ==
            Decide(limit, window, LiveWindows(entries, c.now), c.key, c.now)
  {
    PrefixTable(limit, window, calls, c, |calls|);
    if calls != [] {
      assert LiveWindows(LiveWindows(entries, calls[|calls| - 1].now), c.now) == LiveWindows(entries, c.now);
    }
  }

  lemma DecidedAppended(limit: int, window: real, calls: seq<Call>, oks: seq<bool>, c: Call)
    requires |oks| == |calls| && Decided(limit, window, calls, oks)
    ensures Decided(limit, window, calls + [c], oks)
  {
    forall i | 0 <= i < |calls| ensures Outcome(limit, window, calls + [c], i) == Outcome(limit, window, calls, i) {
      PrefixTable(limit, window, calls, c, i);
    }
  }

  lemma {:induction false} FewerKeys(a: set<string>, b: set<string>)
    requires a <= b
    ensures |a| <= |b|
  {
    if a == {} {
    } else {
      var x :| x in a;
      FewerKeys(a - {x}, b - {x});
    }
  }

  lemma LiveIsSmaller(t: Table, now: real)
    ensures |LiveWindows(t, now)| <= |t|
    ensures |LiveWindows(t, now)| == |t| ==> LiveWindows(t, now) == t
  {
    var live := LiveWindows(t, now);
    FewerKeys(live.Keys, t.Keys);
    if exists k :: k in t && k !in live {
      var k :| k in t && k !in live;
      FewerKeys(live.Keys, t.Keys - {k});
    }
  }

  // ----- what a trace of calls and answers must look like -----

  ghost predicate InOrder(calls: seq<Call>) {
    forall i, j :: 0 <= i < j < |calls| ==> calls[i].now <= calls[j].now
  }

  /** A window of its key begins at call `j`: it was let through, and outside every window of the
      key that began earlier. */
  predicate Begins(window: real, calls: seq<Call>, oks: seq<bool>, j: nat)
    requires j < |calls| && j < |oks|
    decreases j
  {
    oks[j] && forall m: nat :: m < j && calls[m].key == calls[j].key && Begins(window, calls, oks, m) ==>
                calls[j].now > calls[m].now + window
  }

  /** At call `i` the window of `key` that began at call `j` is still open. */
  predicate OpenAt(window: real, calls: seq<Call>, oks: seq<bool>, key: string, j: nat, i: nat)
    requires i < |calls| && i <= |oks|
  {
    j < i && calls[j].key == key && Begins(window, calls, oks, j) && calls[i].now <= calls[j].now + window
  }

  /** How many calls of `key` from call `j` to before call `i` were let through. */
  function LetThrough(calls: seq<Call>, oks: seq<bool>, key: string, j: nat, i: nat): nat
    requires i <= |calls| && i <= |oks|
  {
    if i <= j then 0
    else LetThrough(calls, oks, key, j, i - 1) + if calls[i - 1].key == key && oks[i - 1] then 1 else 0
  }

  /** The keys that have a window open at call `i`. */
  ghost function OpenKeys(window: real, calls: seq<Call>, oks: seq<bool>, i: nat): set<string>
    requires i < |calls| && i <= |oks|
  {
    set j | 0 <= j < i && OpenAt(window, calls, oks, calls[j].key, j, i) :: calls[j].key
  }

  /** A call is due to be refused when its key has a window open in which the limit has been let
      through, or has none while the greatest number of other keys have one. */
  ghost predicate Due(limit: int, window: real, calls: seq<Call>, oks: seq<bool>, i: nat)
    requires i < |calls| && i <= |oks|
  {
    var key := calls[i].key;
    if exists j: nat :: OpenAt(window, calls, oks, key, j, i)
    then exists j: nat :: OpenAt(window, calls, oks, key, j, i) && LetThrough(calls, oks, key, j, i) == limit
    else |OpenKeys(window, calls, oks, i)| == MAX_ENTRIES
  }

  /** `oks` are the decisions on the calls, as far as they go. */
  ghost predicate Decided(limit: int, window: real, calls: seq<Call>, oks: seq<bool>) {
    |oks| <= |calls| && forall i :: 0 <= i < |oks| ==> oks[i] == Outcome(limit, window, calls, i).0
  }

  /** A live window is full as the trace says, and there is none that the trace does not say. */
  ghost predicate Tracked(window: real, calls: seq<Call>, oks: seq<bool>, live: Table, key: string, i: nat)
    requires i < |calls| && i <= |oks|
  {
    if key in live then exists j: nat :: OpenWith(window, calls, oks, live[key], key, j, i)
    else forall j: nat :: !OpenAt(window, calls, oks, key, j, i)
  }

  predicate OpenWith(window: real, calls: seq<Call>, oks: seq<bool>, w: Window, key: string, j: nat, i: nat)
    requires i < |calls| && i <= |oks|
  {
    OpenAt(window, calls, oks, key, j, i) && w == Window(LetThrough(calls, oks, key, j, i), calls[j].now + window)
  }

  lemma OneOpen(window: real, calls: seq<Call>, oks: seq<bool>, key: string, j: nat, j': nat, i: nat)
    requires InOrder(calls) && i < |calls| && i <= |oks|
    requires OpenAt(window, calls, oks, key, j, i) && OpenAt(window, calls, oks, key, j', i)
    ensures j == j'
  {
    assert calls[j].now <= calls[i].now && calls[j'].now <= calls[i].now;
  }

  /** A window that was open stays tracked for as long as it is open. */
  lemma StillOpen(window: real, calls: seq<Call>, oks: seq<bool>, w: Window, key: string, j: nat, i: nat)
    requires i + 1 < |calls| && i < |oks| && OpenWith(window, calls, oks, w, key, j, i) && calls[i + 1].now <= w.resetAt
    ensures var more := if calls[i].key == key && oks[i] then 1 else 0;
            OpenWith(window, calls, oks, w.(count := w.count + more), key, j, i + 1)
  {
  }

  lemma NewlyOpen(window: real, calls: seq<Call>, oks: seq<bool>, i: nat)
    requires InOrder(calls) && i + 1 < |calls| && i < |oks| && oks[i] && calls[i + 1].now <= calls[i].now + window
    requires forall j: nat :: !OpenAt(window, calls, oks, calls[i].key, j, i)
    ensures OpenWith(window, calls, oks, Window(1, calls[i].now + window), calls[i].key, i, i + 1)
  {
    forall m: nat | m < i && calls[m].key == calls[i].key && Begins(window, calls, oks, m)
      ensures calls[i].now > calls[m].now + window
    {
      assert !OpenAt(window, calls, oks, calls[i].key, m, i);
    }
  }

  lemma {:induction false} NoneLeftOpen(limit: int, window: real, calls: seq<Call>, oks: seq<bool>, live: Table,
                                        key: string, i: nat, j: nat)
    requires limit > 0 && InOrder(calls) && i + 1 < |calls| && i < |oks| && Tracked(window, calls, oks, live, key, i)
    requires oks[i] == Decide(limit, window, live, calls[i].key, calls[i].now).0
    requires key !in LiveWindows(Decide(limit, window, live, calls[i].key, calls[i].now).1, calls[i + 1].now)
    ensures !OpenAt(window, calls, oks, key, j, i + 1)
  {
    assert calls[i].now <= calls[i + 1].now;
    if key in live {
      var j' :| OpenWith(window, calls, oks, live[key], key, j', i);
      if OpenAt(window, calls, oks, key, j, i) {
        OneOpen(window, calls, oks, key, j, j', i);
      }
    } else {
      assert !OpenAt(window, calls, oks, key, j, i);
    }
  }

  /** The next call finds every key tracked too. */
  lemma {:induction false} TrackNext(limit: int, window: real, calls: seq<Call>, oks: seq<bool>, live: Table,
                                     key: string, i: nat)
    requires limit > 0 && InOrder(calls) && i + 1 < |calls| && i < |oks| && Tracked(window, calls, oks, live, key, i)
    requires oks[i] == Decide(limit, window, live, calls[i].key, calls[i].now).0
    ensures Tracked(window, calls, oks,
                    LiveWindows(Decide(limit, window, live, calls[i].key, calls[i].now).1, calls[i + 1].now),
                    key, i + 1)
  {
    var next := LiveWindows(Decide(limit, window, live, calls[i].key, calls[i].now).1, calls[i + 1].now);
    if key !in next {
      var n := i + 1;
      forall j: nat ensures !OpenAt(window, calls, oks, key, j, n) {
        NoneLeftOpen(limit, window, calls, oks, live, key, i, j);
      }
    } else if key in live {
      var j :| OpenWith(window, calls, oks, live[key], key, j, i);
      StillOpen(window, calls, oks, live[key], key, j, i);
      assert OpenWith(window, calls, oks, next[key], key, j, i + 1);
    } else {
      NewlyOpen(window, calls, oks, i);
      assert OpenWith(window, calls, oks, next[key], key, i, i + 1);
    }
  }

  /** The windows live at call `i`. */
  function LiveAt(limit: int, window: real, calls: seq<Call>, i: nat): Table
    requires i < |calls|
  {
    LiveWindows(TableAfter(limit, window, calls, i), calls[i].now)
  }

  lemma {:induction false} AllTracked(limit: int, window: real, calls: seq<Call>, oks: seq<bool>, i: nat, key: string)
    requires limit > 0 && InOrder(calls) && i < |calls| && i <= |oks| && Decided(limit, window, calls, oks)
    ensures Tracked(window, calls, oks, LiveAt(limit, window, calls, i), key, i)
  {
    if i == 0 {
    } else {
      AllTracked(limit, window, calls, oks, i - 1, key);
      TrackNext(limit, window, calls, oks, LiveAt(limit, window, calls, i - 1), key, i - 1);
    }
  }

  ghost predicate WithinBounds(limit: int, t: Table) {
    |t| <= MAX_ENTRIES && forall k :: k in t ==> t[k].count <= limit
  }

  lemma OneKey(t: Table, key: string, w: Window)
    ensures |t[key := w]| == if key in t then |t| else |t| + 1
  {
    assert t[key := w].Keys == t.Keys + {key};
  }

  lemma DecideWithinBounds(limit: int, window: real, live: Table, key: string, now: real)
    requires limit > 0 && WithinBounds(limit, live)
    ensures WithinBounds(limit, Decide(limit, window, live, key, now).1)
  {
    if key in live {
      OneKey(live, key, live[key].(count := live[key].count + 1));
    } else {
      OneKey(live, key, Window(1, now + window));
    }
  }

  lemma {:induction false} LiveWithinBounds(limit: int, window: real, calls: seq<Call>, i: nat)
    requires limit > 0 && i < |calls|
    ensures WithinBounds(limit, LiveAt(limit, window, calls, i))
  {
    if i == 0 {
    } else {
      LiveWithinBounds(limit, window, calls, i - 1);
      DecideWithinBounds(limit, window, LiveAt(limit, window, calls, i - 1), calls[i - 1].key, calls[i - 1].now);
      var t := TableAfter(limit, window, calls, i);
      assert t == Outcome(limit, window, calls, i - 1).1;
      LiveIsSmaller(t, calls[i].now);
    }
  }

  /** On any trace a call is refused if and only if it is due to be. */
  lemma {:induction false} RefusedWhenDue(limit: int, window: real, calls: seq<Call>, oks: seq<bool>, i: nat)
    requires limit > 0 && InOrder(calls) && i < |calls| && i <= |oks| && Decided(limit, window, calls, oks)
    ensures !Outcome(limit, window, calls, i).0 <==> Due(limit, window, calls, oks, i)
  {
    var live, key := LiveAt(limit, window, calls, i), calls[i].key;
    LiveWithinBounds(limit, window, calls, i);
    AllTracked(limit, window, calls, oks, i, key);
    if key in live {
      var j :| OpenWith(window, calls, oks, live[key], key, j, i);
      forall j': nat | OpenAt(window, calls, oks, key, j', i) ensures j' == j {
        OneOpen(window, calls, oks, key, j, j', i);
      }
    } else {
      LiveAreOpen(limit, window, calls, oks, i);
    }
  }

  lemma {:induction false} LiveAreOpen(limit: int, window: real, calls: seq<Call>, oks: seq<bool>, i: nat)
    requires limit > 0 && InOrder(calls) && i < |calls| && i <= |oks| && Decided(limit, window, calls, oks)
    ensures LiveAt(limit, window, calls, i).Keys == OpenKeys(window, calls, oks, i)
  {
    var live := LiveAt(limit, window, calls, i);
    forall key ensures key in live <==> key in OpenKeys(window, calls, oks, i) {
      AllTracked(limit, window, calls, oks, i, key);
    }
  }

  // ----- the bound over a trace -----

  /** Rounding up. */
  function Ceil(x: real): (c: int)
    ensures c as real - 1.0 < x <= c as real
  {
    -((-x).Floor)
  }

  /** The calls of one key let through in the closed interval from `a` to `b`, among the first `n`. */
  function Allowed(limit: int, window: real, calls: seq<Call>, n: nat, key: string, a: real, b: real): nat
    requires n <= |calls|
  {
    if n == 0 then 0
    else Allowed(limit, window, calls, n - 1, key, a, b)
         + if calls[n - 1].key == key && a <= calls[n - 1].now <= b && Outcome(limit, window, calls, n - 1).0
           then 1 else 0
  }

  lemma {:induction false} NoneBefore(limit: int, window: real, calls: seq<Call>, n: nat, key: string, a: real, b: real)
    requires n <= |calls| && forall i :: 0 <= i < n ==> calls[i].now < a
    ensures Allowed(limit, window, calls, n, key, a, b) == 0
  {
    if n == 0 {
    } else {
      NoneBefore(limit, window, calls, n - 1, key, a, b);
    }
  }

  /** The windows of one key seen so far from time `a` on: how many, how full the last one is, and
      when it ends. */
  datatype Seen = Seen(windows: nat, count: nat, resetAt: real)

  /** `k` times the limit and `k` times the window, as sums. */
  function Quota(limit: int, k: nat): int {
    if k == 0 then 0 else Quota(limit, k - 1) + limit
  }

  function Span(window: real, k: nat): real {
    if k == 0 then 0.0 else Span(window, k - 1) + window
  }

  lemma {:induction false} SumsAreProducts(limit: int, window: real, k: nat)
    ensures Quota(limit, k) == limit * k && Span(window, k) == k as real * window
  {
    if k == 0 {
    } else {
      SumsAreProducts(limit, window, k - 1);
      assert k as real * window == (k - 1) as real * window + window;
    }
  }

  /** Each window but the last let at most `limit` through, and windows follow each other at more
      than a window's length. */
  ghost predicate Accounted(limit: int, window: real, calls: seq<Call>, n: nat, key: string, a: real, b: real, s: Seen)
    requires n <= |calls| && limit > 0
  {
    var t := TableAfter(limit, window, calls, n);
    var allowed := Allowed(limit, window, calls, n, key, a, b);
    if s.windows == 0 then allowed == 0
    else
      && allowed <= Quota(limit, s.windows - 1) + s.count && s.count <= limit
      && s.resetAt >= a + Span(window, s.windows - 1)
      && (s.windows >= 2 ==> a + Span(window, s.windows - 1) < s.resetAt <= b + window)
      && (if key in t then t[key] == Window(s.count, s.resetAt) else n > 0 && calls[n - 1].now > s.resetAt)
  }

  /** The window that a call let through falls into. */
  function NextSeen(live: Table, key: string, now: real, window: real, s: Seen): Seen {
    if key in live then Seen(if s.windows == 0 then 1 else s.windows, live[key].count + 1, live[key].resetAt)
    else Seen(s.windows + 1, 1, now + window)
  }

  lemma SameWindows(limit: int, window: real, calls: seq<Call>, n: nat, key: string, a: real, b: real, s: Seen)
    requires limit > 0 && InOrder(calls) && n < |calls| && Accounted(limit, window, calls, n, key, a, b, s)
    requires calls[n].key != key || !Outcome(limit, window, calls, n).0
    ensures Accounted(limit, window, calls, n + 1, key, a, b, s)
  {
    assert n > 0 ==> calls[n - 1].now <= calls[n].now;
  }

  lemma NextWindow(limit: int, window: real, calls: seq<Call>, n: nat, key: string, a: real, b: real, s: Seen)
    requires limit > 0 && window > 0.0 && InOrder(calls) && n < |calls| && a <= calls[n].now <= b
    requires Accounted(limit, window, calls, n, key, a, b, s)
    requires calls[n].key == key && Outcome(limit, window, calls, n).0
    ensures Accounted(limit, window, calls, n + 1, key, a, b,
                      NextSeen(LiveWindows(TableAfter(limit, window, calls, n), calls[n].now), key, calls[n].now,
                          window, s))
  {
    var now := calls[n].now;
    assert n > 0 ==> calls[n - 1].now <= now;
    var live := LiveWindows(TableAfter(limit, window, calls, n), now);
    if key !in live && s.windows > 0 {
      assert now > s.resetAt;
      assert Span(window, s.windows) == Span(window, s.windows - 1) + window;
      assert Quota(limit, s.windows) == Quota(limit, s.windows - 1) + limit;
    }
  }

  lemma {:induction false} Account(limit: int, window: real, calls: seq<Call>, n: nat, key: string, a: real, b: real)
    returns (s: Seen)
    requires limit > 0 && window > 0.0 && InOrder(calls) && n <= |calls| && (n > 0 ==> calls[n - 1].now <= b)
    ensures Accounted(limit, window, calls, n, key, a, b, s)
  {
    if n == 0 {
      s := Seen(0, 0, 0.0);
    } else if calls[n - 1].now < a {
      NoneBefore(limit, window, calls, n, key, a, b);
      s := Seen(0, 0, 0.0);
    } else {
      var before := Account(limit, window, calls, n - 1, key, a, b);
      var now := calls[n - 1].now;
      assert n > 1 ==> calls[n - 2].now <= now;
      if calls[n - 1].key != key || !Outcome(limit, window, calls, n - 1).0 {
        s := before;
        SameWindows(limit, window, calls, n - 1, key, a, b, s);
      } else {
        s := NextSeen(LiveWindows(TableAfter(limit, window, calls, n - 1), now), key, now, window, before);
        NextWindow(limit, window, calls, n - 1, key, a, b, before);
      }
    }
  }

  lemma FewWindows(windows: nat, window: real, length: real)
    requires windows >= 2 && window > 0.0 && (windows - 2) as real * window < length
    ensures windows <= Ceil(length / window) + 1
  {
    if (windows - 2) as real >= length / window {
      assert (windows - 2) as real * window >= length / window * window;
    }
  }

  /** In any closed interval of length `length` one key gets at most
      `limit * (ceil(length / window) + 1)` requests through, whatever other keys do. */
  lemma {:induction false} RateBound(limit: int, window: real, calls: seq<Call>, n: nat, key: string, a: real,
                                     length: real)
    requires limit > 0 && window > 0.0 && length >= 0.0 && InOrder(calls) && n <= |calls|
    ensures Allowed(limit, window, calls, n, key, a, a + length) <= limit * (Ceil(length / window) + 1)
  {
    if n > 0 && calls[n - 1].now > a + length {
      RateBound(limit, window, calls, n - 1, key, a, length);
    } else {
      var s := Account(limit, window, calls, n, key, a, a + length);
      if s.windows >= 1 {
        SumsAreProducts(limit, window, s.windows - 1);
      }
      if s.windows >= 2 {
        assert (s.windows - 1) as real * window == (s.windows - 2) as real * window + window;
        FewWindows(s.windows, window, length);
      }
      assert Ceil(length / window) >= 0;
      Scale(limit, s.windows, Ceil(length / window) + 1);
    }
  }

  lemma Scale(limit: int, m: nat, n: int)
    requires limit > 0
    ensures m <= n ==> limit * m <= limit * n
    ensures limit * m == limit * (m - 1) + limit
    ensures n >= 1 ==> limit * n >= limit
  {
    if m <= n {
      assert limit * (n - m) >= 0;
    }
    if n >= 1 {
      assert limit * (n - 1) >= 0;
    }
  }
}
