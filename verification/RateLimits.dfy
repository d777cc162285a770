/**
 * Fixed-window rate limiting: per user or socket on the server (apps/server/src/middleware/socketRateLimiter.ts)
 * and per address at the edge (apps/web/src/middleware.ts).
 */
module RateLimits {
  import opened Words

  const SOCKET_WINDOW_MS: nat := 10000
  const SOCKET_MAX: nat := 30
  const EDGE_WINDOW_MS: nat := 60000
  const EDGE_MAX: nat := 120

  /** Events counted since the window opened. */
  datatype Bucket = Bucket(count: nat, start: int)

  /** The limits in force. */
  datatype Limits = Limits(window: nat, max: nat)

  const SOCKET := Limits(SOCKET_WINDOW_MS, SOCKET_MAX)
  const EDGE := Limits(EDGE_WINDOW_MS, EDGE_MAX)

  type Table = map<string, Bucket>

  predicate Opens(l: Limits, m: Table, key: string, now: int)
  {
    key !in m || now - m[key].start > l.window
  }

  function Counted(l: Limits, m: Table, key: string, now: int): Bucket
  {
    if Opens(l, m, key, now) then Bucket(1, now) else m[key].(count := m[key].count + 1)
  }

  predicate Limited(l: Limits, m: Table, key: string, now: int)
  {
    !Opens(l, m, key, now) && m[key].count + 1 > l.max
  }

  predicate Stale(l: Limits, b: Bucket, now: int) { now - b.start > 2 * l.window }

  function Cleaned(l: Limits, m: Table, now: int): Table
  {
    map k | k in m && !Stale(l, m[k], now) :: m[k]
  }

  // ---------- The two limiters ----------

  class SocketLimiter {
    var buckets: Table

    constructor ()
      ensures buckets == map[]
    {
      buckets := map[];
    }

    method IsSocketRateLimited(key: string, now: int) returns (limited: bool)
      modifies this
      ensures buckets == old(buckets)[key := Counted(SOCKET, old(buckets), key, now)]
      ensures limited <==> Limited(SOCKET, old(buckets), key, now)
    {
      if key !in buckets || now - buckets[key].start > SOCKET_WINDOW_MS {
        buckets := buckets[key := Bucket(1, now)];
        return false;
      }
      buckets := buckets[key := buckets[key].(count := buckets[key].count + 1)];
      if buckets[key].count > SOCKET_MAX {
        return true;
      }
      return false;
    }

    method CleanupSocketBuckets(now: int)
      modifies this
      ensures buckets == Cleaned(SOCKET, old(buckets), now)
    {
      var todo := buckets.Keys;
      while todo != {}
        invariant todo <= buckets.Keys <= old(buckets).Keys
        invariant forall k | k in buckets :: buckets[k] == old(buckets)[k]
        invariant forall k | k in old(buckets) && k !in todo :: k in buckets <==> !Stale(SOCKET, old(buckets)[k], now)
        decreases todo
      {
        var key :| key in todo;
        todo := todo - {key};
        if now - buckets[key].start > SOCKET_WINDOW_MS * 2 {
          buckets := buckets - {key};
        }
      }
    }
  }

  /** The edge keeps the time its window ends instead of the time it began. */
  datatype Entry = Entry(count: nat, resetAt: int)

  function AsBucket(e: Entry): Bucket { Bucket(e.count, e.resetAt - EDGE_WINDOW_MS) }

  function AsTable(m: map<string, Entry>): Table { map k | k in m :: AsBucket(m[k]) }

  class EdgeLimiter {
    var counts: map<string, Entry>

    constructor ()
      ensures counts == map[]
    {
      counts := map[];
    }

    method CheckRateLimit(key: string, now: int) returns (allowed: bool, remaining: int)
      modifies this
      ensures AsTable(counts) == old(AsTable(counts))[key := Counted(EDGE, old(AsTable(counts)), key, now)]
      ensures allowed <==> !Limited(EDGE, old(AsTable(counts)), key, now)
      ensures key in counts && 0 <= remaining == if allowed then 120 - counts[key].count else 0
    {
      if key !in counts || now > counts[key].resetAt {
        counts := counts[key := Entry(1, now + EDGE_WINDOW_MS)];
        return true, EDGE_MAX - 1;
      }
      counts := counts[key := counts[key].(count := counts[key].count + 1)];
      if counts[key].count > EDGE_MAX {
        return false, 0;
      }
      return true, EDGE_MAX - counts[key].count;
    }
  }

  // ---------- Runs ----------

  datatype Event = Hit(key: string, at: int) | Clean(at: int)

  ghost predicate InOrder(run: seq<Event>) { forall i, j | 0 <= i < j < |run| :: run[i].at <= run[j].at }

  function After(l: Limits, run: seq<Event>): Table
  {
    if run == [] then map[]
    else
      var m := After(l, run[..|run| - 1]);
      match run[|run| - 1]
      case Hit(key, at) => m[key := Counted(l, m, key, at)]
      case Clean(at) => Cleaned(l, m, at)
  }

  predicate PassedLast(l: Limits, run: seq<Event>, key: string)
    requires run != []
  {
    var e := run[|run| - 1];
    e.Hit? && e.key == key && !Limited(l, After(l, run[..|run| - 1]), key, e.at)
  }

  /** The times of the key's events that were let through. */
  function Passes(l: Limits, run: seq<Event>, key: string): seq<int>
  {
    if run == [] then []
    else Passes(l, run[..|run| - 1], key) + if PassedLast(l, run, key) then [run[|run| - 1].at] else []
  }

  /** Positions in `Passes` where a window opened. */
  function Starts(l: Limits, run: seq<Event>, key: string): seq<nat>
  {
    if run == [] then []
    else
      var r, e := run[..|run| - 1], run[|run| - 1];
      Starts(l, r, key) +
      if e.Hit? && e.key == key && Opens(l, After(l, r), key, e.at) then [|Passes(l, r, key)|] else []
  }

  /** Windows hold at most `max` passes each and open more than a window length apart. */
  ghost predicate Windows(l: Limits, p: seq<int>, s: seq<nat>)
  {
    && (p == [] <==> s == []) && (s != [] ==> s[0] == 0 && s[|s| - 1] < |p| <= s[|s| - 1] + l.max)
    && (forall k | 0 <= k < |s| - 1 :: s[k] < s[k + 1] <= s[k] + l.max)
    && (forall k | 0 <= k < |s| :: s[k] < |p|)
    && (forall k | 0 <= k < |s| - 1 :: p[s[k + 1]] - p[s[k]] > l.window)
    && (forall i, j | 0 <= i < j < |p| :: p[i] <= p[j])
  }

  /** How the table's entry for a key reflects its passes, `now` being the latest time seen. */
  ghost predicate Reflects(l: Limits, m: Table, key: string, p: seq<int>, s: seq<nat>, now: int)
  {
    && (forall i | 0 <= i < |p| :: p[i] <= now)
    && (if key in m then
          && s != [] && s[|s| - 1] < |p| && m[key].start == p[s[|s| - 1]]
          && |p| - s[|s| - 1] == if m[key].count <= l.max then m[key].count else l.max
        else s == [] || (s[|s| - 1] < |p| && now - p[s[|s| - 1]] > l.window))
  }

  /** One event's effect on the table, a key's passes and its windows. */
  ghost predicate Follows(
      l: Limits, e: Event, key: string, m: Table, p: seq<int>, s: seq<nat>, m': Table, p': seq<int>, s': seq<nat>)
  {
    && m' == (if e.Hit? then m[e.key := Counted(l, m, e.key, e.at)] else Cleaned(l, m, e.at))
    && p' == p + (if e.Hit? && e.key == key && !Limited(l, m, key, e.at) then [e.at] else [])
    && s' == s + (if e.Hit? && e.key == key && Opens(l, m, key, e.at) then [|p|] else [])
  }

  lemma EventFollows(l: Limits, run: seq<Event>, key: string)
    requires run != []
    ensures var r := run[..|run| - 1];
            Follows(l, run[|run| - 1], key, After(l, r), Passes(l, r, key), Starts(l, r, key), After(l, run),
                    Passes(l, run, key), Starts(l, run, key))
  {
  }

  lemma {:induction false} RunReflects(l: Limits, run: seq<Event>, key: string, now: int)
    requires l.max >= 1 && InOrder(run) && (run != [] ==> run[|run| - 1].at <= now)
    ensures Windows(l, Passes(l, run, key), Starts(l, run, key))
    ensures Reflects(l, After(l, run), key, Passes(l, run, key), Starts(l, run, key), now)
  {
    if run != [] {
      var r, e := run[..|run| - 1], run[|run| - 1];
      RunReflects(l, r, key, e.at);
      EventFollows(l, run, key);
      StepReflects(l, e, key, After(l, r), Passes(l, r, key), Starts(l, r, key), After(l, run), Passes(l, run, key),
                   Starts(l, run, key), now);
    }
  }

  lemma StepReflects(
      l: Limits, e: Event, key: string, m: Table, p: seq<int>, s: seq<nat>, m': Table, p': seq<int>, s': seq<nat>,
      now: int)
    requires l.max >= 1 && Windows(l, p, s) && Reflects(l, m, key, p, s, e.at)
             && Follows(l, e, key, m, p, s, m', p', s')
    requires e.at <= now
    ensures Windows(l, p', s') && Reflects(l, m', key, p', s', now)
  {
    if e.Hit? && e.key == key {
      HitWindows(l, m, key, p, s, e.at);
      HitReflects(l, m, key, p, s, e.at);
    } else {
      assert p' == p && s' == s;
      OtherReflects(l, m, m', key, p, s, e);
    }
    ReflectsLater(l, m', key, p', s', e.at, now);
  }

  lemma ReflectsLater(l: Limits, m: Table, key: string, p: seq<int>, s: seq<nat>, t: int, now: int)
    requires Reflects(l, m, key, p, s, t) && t <= now
    ensures Reflects(l, m, key, p, s, now)
  {
  }

  /** Other keys' events do not touch the entry; cleanup drops it only when a new window would open anyway. */
  lemma OtherReflects(l: Limits, m: Table, m': Table, key: string, p: seq<int>, s: seq<nat>, e: Event)
    requires Reflects(l, m, key, p, s, e.at)
    requires if e.Hit? then e.key != key && m' == m[e.key := Counted(l, m, e.key, e.at)] else m' == Cleaned(l, m, e.at)
    ensures Reflects(l, m', key, p, s, e.at)
  {
  }

  lemma OpenedWindow(l: Limits, p: seq<int>, s: seq<nat>, now: int)
    requires l.max >= 1 && Windows(l, p, s) && forall i | 0 <= i < |p| :: p[i] <= now
    requires s != [] ==> now - p[s[|s| - 1]] > l.window
    ensures Windows(l, p + [now], s + [|p|])
  {
    var p', s' := p + [now], s + [|p|];
    forall k | 0 <= k < |s'| - 1
      ensures s'[k] < s'[k + 1] <= s'[k] + l.max && p'[s'[k + 1]] - p'[s'[k]] > l.window
    {
      assert s'[k] == s[k] && p'[s[k]] == p[s[k]];
      if k + 1 < |s| {
        assert s'[k + 1] == s[k + 1] && p'[s[k + 1]] == p[s[k + 1]];
      }
    }
  }

  lemma FilledWindow(l: Limits, p: seq<int>, s: seq<nat>, now: int)
    requires Windows(l, p, s) && s != [] && |p| < s[|s| - 1] + l.max && forall i | 0 <= i < |p| :: p[i] <= now
    ensures Windows(l, p + [now], s)
  {
    var p' := p + [now];
    forall k | 0 <= k < |s| - 1
      ensures p'[s[k + 1]] - p'[s[k]] > l.window
    {
      assert p'[s[k + 1]] == p[s[k + 1]] && p'[s[k]] == p[s[k]];
    }
  }

  lemma HitWindows(l: Limits, m: Table, key: string, p: seq<int>, s: seq<nat>, now: int)
    requires l.max >= 1 && Windows(l, p, s) && Reflects(l, m, key, p, s, now)
    ensures Windows(l, p + (if Limited(l, m, key, now) then [] else [now]),
                    s + (if Opens(l, m, key, now) then [|p|] else []))
  {
    assert p + [] == p && s + [] == s;
    if Opens(l, m, key, now) {
      OpenedWindow(l, p, s, now);
    } else if !Limited(l, m, key, now) {
      FilledWindow(l, p, s, now);
    }
  }

  lemma HitReflects(l: Limits, m: Table, key: string, p: seq<int>, s: seq<nat>, now: int)
    requires l.max >= 1 && Reflects(l, m, key, p, s, now)
    ensures Reflects(l, m[key := Counted(l, m, key, now)], key,
                     p + (if Limited(l, m, key, now) then [] else [now]),
                     s + (if Opens(l, m, key, now) then [|p|] else []), now)
  {
    assert p + [] == p && s + [] == s;
  }

  /** The number of times in the closed interval. */
  function CountIn(p: seq<int>, from: int, to: int): nat
  {
    if p == [] then 0 else CountIn(p[..|p| - 1], from, to) + if from <= p[|p| - 1] <= to then 1 else 0
  }

  /** Any 2·max consecutive passes span more than a window. */
  lemma SpanTooLong(l: Limits, p: seq<int>, s: seq<nat>, i: nat)
    requires l.max >= 1 && Windows(l, p, s) && i + 2 * l.max - 1 < |p|
    ensures p[i + 2 * l.max - 1] - p[i] > l.window
  {
    var k := WindowOf(l, p, s, i);
    var j := i + 2 * l.max - 1;
    if s[k] == i {
      assert k + 1 < |s|;
      assert p[s[k + 1]] <= p[j];
    } else {
      assert k + 1 < |s| && s[k + 1] <= s[k] + l.max;
      assert k + 2 < |s| && s[k + 2] <= j;
      assert p[i] <= p[s[k + 1]] && p[s[k + 2]] <= p[j];
    }
  }

  lemma {:induction false} WindowOf(l: Limits, p: seq<int>, s: seq<nat>, i: nat) returns (k: nat)
    requires Windows(l, p, s) && i < |p|
    ensures k < |s| && s[k] <= i && (k + 1 < |s| ==> i < s[k + 1])
  {
    k := 0;
    while k + 1 < |s| && s[k + 1] <= i
      invariant k < |s| && s[k] <= i
    {
      k := k + 1;
    }
  }

  lemma {:induction false} CountSpan(p: seq<int>, from: int, to: int, n: nat) returns (i: nat)
    requires forall i, j | 0 <= i < j < |p| :: p[i] <= p[j]
    requires n >= 1 && CountIn(p, from, to) >= n
    ensures i + n - 1 < |p| && from <= p[i] && p[i + n - 1] <= to
  {
    var q, last := p[..|p| - 1], p[|p| - 1];
    if CountIn(q, from, to) >= n {
      i := CountSpan(q, from, to, n);
    } else if n == 1 {
      i := |p| - 1;
    } else {
      i := CountSpan(q, from, to, n - 1);
      InRange(q, from, to, i, n - 1);
      i := |p| - n;
    }
  }

  /** With exactly `n` times in range and one more at the end, the range is the last `n + 1` positions. */
  lemma {:induction false} InRange(p: seq<int>, from: int, to: int, i: nat, n: nat)
    requires forall i, j | 0 <= i < j < |p| :: p[i] <= p[j]
    requires n >= 1 && CountIn(p, from, to) == n && i + n - 1 < |p| && from <= p[i]
    requires p[|p| - 1] <= to
    ensures |p| >= n && from <= p[|p| - n]
  {
    assert p[|p| - n] >= p[i];
  }

  /**
   * Sliding bound: over any run in time order, cleanups included, each key passes at most 2·max - 1 events in any
   * closed interval of one window length: 59 per ten seconds on the server, 239 per minute at the edge.
   */
  lemma SlidingBound(l: Limits, run: seq<Event>, key: string, from: int)
    requires l.max >= 1 && InOrder(run)
    ensures CountIn(Passes(l, run, key), from, from + l.window) <= 2 * l.max - 1
  {
    var p, s := Passes(l, run, key), Starts(l, run, key);
    RunReflects(l, run, key, if run == [] then 0 else run[|run| - 1].at);
    if CountIn(p, from, from + l.window) > 2 * l.max - 1 {
      var i := CountSpan(p, from, from + l.window, 2 * l.max);
      SpanTooLong(l, p, s, i);
    }
  }

  /** 59 in ten seconds for a user or socket, 239 in a minute for an address at the edge. */
  lemma BoundsInForce(run: seq<Event>, key: string, from: int)
    requires InOrder(run)
    ensures CountIn(Passes(SOCKET, run, key), from, from + 10000) <= 59
    ensures CountIn(Passes(EDGE, run, key), from, from + 60000) <= 239
  {
    SlidingBound(SOCKET, run, key, from);
    SlidingBound(EDGE, run, key, from);
  }

  // ---------- Every decision, from the events alone ----------

  /** The event that opened the key's current window: the first, and then each one too late for the window before. */
  function Opener(l: Limits, run: seq<Event>, key: string): (j: Option<nat>)
    ensures j.Some? ==> j.value < |run|
  {
    if run == [] then None
    else
      var n, e := |run| - 1, run[|run| - 1];
      var j := Opener(l, run[..n], key);
      if e.Hit? && e.key == key && (j == None || e.at - run[j.value].at > l.window) then Some(n) else j
  }

  /** The key's events from position `j` on, let through or not. */
  function EventsFrom(run: seq<Event>, key: string, j: nat): nat
  {
    if |run| <= j then 0
    else
      var e := run[|run| - 1];
      EventsFrom(run[..|run| - 1], key, j) + if e.Hit? && e.key == key then 1 else 0
  }

  /** An event at this time would fall in a window that has had its fill. */
  predicate FullAt(l: Limits, run: seq<Event>, key: string, now: int)
  {
    var j := Opener(l, run, key);
    j.Some? && now - run[j.value].at <= l.window && EventsFrom(run, key, j.value) >= l.max
  }

  ghost predicate Kept(l: Limits, run: seq<Event>, key: string, m: Table, now: int)
  {
    var j := Opener(l, run, key);
    if key in m then j.Some? && m[key] == Bucket(EventsFrom(run, key, j.value), run[j.value].at)
    else j == None || now - run[j.value].at > l.window
  }

  lemma KeptNext(l: Limits, r: seq<Event>, e: Event, key: string, m: Table)
    requires Kept(l, r, key, m, e.at)
    ensures Kept(l, r + [e], key, if e.Hit? then m[e.key := Counted(l, m, e.key, e.at)] else Cleaned(l, m, e.at), e.at)
  {
    var run := r + [e];
    assert run[..|r|] == r;
    assert EventsFrom(r, key, |r|) == 0;
  }

  lemma {:induction false} TableKept(l: Limits, run: seq<Event>, key: string, now: int)
    requires InOrder(run) && (run != [] ==> run[|run| - 1].at <= now)
    ensures Kept(l, run, key, After(l, run), now)
  {
    if run != [] {
      var r, e := run[..|run| - 1], run[|run| - 1];
      TableKept(l, r, key, e.at);
      assert r + [e] == run;
      KeptNext(l, r, e, key, After(l, r));
    }
  }

  /**
   * After any run in time order, cleanups included, an event is refused if and only if the window it falls in has
   * already had its fill of events.
   */
  lemma RefusedExactly(l: Limits, run: seq<Event>, key: string, now: int)
    requires InOrder(run) && (run != [] ==> run[|run| - 1].at <= now)
    ensures Limited(l, After(l, run), key, now) <==> FullAt(l, run, key, now)
  {
    TableKept(l, run, key, now);
  }

  /** Thirty in ten seconds for a user or socket, 120 in a minute for an address at the edge. */
  lemma LimitsInForce(run: seq<Event>, key: string, now: int)
    requires InOrder(run) && (run != [] ==> run[|run| - 1].at <= now)
    ensures var j := Opener(SOCKET, run, key);
            Limited(SOCKET, After(SOCKET, run), key, now) <==>
            j.Some? && now - run[j.value].at <= 10000 && EventsFrom(run, key, j.value) >= 30
    ensures var j := Opener(EDGE, run, key);
            Limited(EDGE, After(EDGE, run), key, now) <==>
            j.Some? && now - run[j.value].at <= 60000 && EventsFrom(run, key, j.value) >= 120
  {
    RefusedExactly(SOCKET, run, key, now);
    RefusedExactly(EDGE, run, key, now);
  }

  // ---------- The bound is reached ----------

  function Hits(key: string, at: int, n: nat): seq<Event>
  {
    if n == 0 then [] else Hits(key, at, n - 1) + [Hit(key, at)]
  }

  lemma {:induction false} CountConcat(p: seq<int>, q: seq<int>, from: int, to: int)
    ensures CountIn(p + q, from, to) == CountIn(p, from, to) + CountIn(q, from, to)
  {
    if q == [] {
      assert p + q == p;
    } else {
      assert (p + q)[..|p + q| - 1] == p + q[..|q| - 1];
      CountConcat(p, q[..|q| - 1], from, to);
    }
  }

  lemma {:induction false} HitsCounted(key: string, at: int, n: nat)
    ensures |Hits(key, at, n)| == n && forall i | 0 <= i < n :: Hits(key, at, n)[i] == Hit(key, at)
  {
    if n > 0 {
      HitsCounted(key, at, n - 1);
    }
  }

  lemma PassInWindow(l: Limits, run: seq<Event>, key: string, at: int)
    requires key in After(l, run)
    requires at - After(l, run)[key].start <= l.window && After(l, run)[key].count < l.max
    ensures Passes(l, run + [Hit(key, at)], key) == Passes(l, run, key) + [at]
    ensures var b := After(l, run)[key];
            After(l, run + [Hit(key, at)]) == After(l, run)[key := Bucket(b.count + 1, b.start)]
  {
    assert (run + [Hit(key, at)])[..|run|] == run;
    EventFollows(l, run + [Hit(key, at)], key);
  }

  /** Hits inside an open window with room for them all pass. */
  lemma {:induction false} HitsPass(l: Limits, run: seq<Event>, key: string, at: int, n: nat)
    requires key in After(l, run)
    requires at - After(l, run)[key].start <= l.window && After(l, run)[key].count + n <= l.max
    ensures Passes(l, run + Hits(key, at, n), key) == Passes(l, run, key) + Repeat(at, n)
    ensures var m, b := After(l, run + Hits(key, at, n)), After(l, run)[key];
            key in m && m[key] == Bucket(b.count + n, b.start)
  {
    if n == 0 {
      assert run + [] == run;
      assert Passes(l, run, key) + [] == Passes(l, run, key);
    } else {
      HitsPass(l, run, key, at, n - 1);
      PassInWindow(l, run + Hits(key, at, n - 1), key, at);
      OneMoreHit(run, key, at, n);
      OneMoreTime(Passes(l, run, key), at, n);
    }
  }

  lemma OneMoreHit(run: seq<Event>, key: string, at: int, n: nat)
    requires n > 0
    ensures run + Hits(key, at, n) == run + Hits(key, at, n - 1) + [Hit(key, at)]
  {
  }

  lemma OneMoreTime(p: seq<int>, at: int, n: nat)
    requires n > 0
    ensures p + Repeat(at, n) == p + Repeat(at, n - 1) + [at]
  {
  }

  lemma {:induction false} CountRepeat(at: int, n: nat, from: int, to: int)
    ensures CountIn(Repeat(at, n), from, to) == if from <= at <= to then n else 0
  {
    if n > 0 {
      CountRepeat(at, n - 1, from, to);
      assert Repeat(at, n)[..n - 1] == Repeat(at, n - 1);
    }
  }

  /** One event opens a window, max - 1 more come at its end, and a full new window follows a millisecond later. */
  function Burst(l: Limits, key: string): seq<Event>
    requires l.max >= 1
  {
    [Hit(key, 0)] + Hits(key, l.window, l.max - 1) + [Hit(key, l.window + 1)] + Hits(key, l.window + 1, l.max - 1)
  }

  lemma OpeningPass(l: Limits, run: seq<Event>, key: string, at: int)
    requires l.max >= 1 && Opens(l, After(l, run), key, at)
    ensures Passes(l, run + [Hit(key, at)], key) == Passes(l, run, key) + [at]
    ensures After(l, run + [Hit(key, at)]) == After(l, run)[key := Bucket(1, at)]
  {
    assert (run + [Hit(key, at)])[..|run|] == run;
    EventFollows(l, run + [Hit(key, at)], key);
  }

  /** An event that opens a window and enough later ones to fill it. */
  lemma FullWindow(l: Limits, run: seq<Event>, key: string, first: int, rest: int)
    requires l.max >= 1 && Opens(l, After(l, run), key, first) && rest - first <= l.window
    ensures var full := run + [Hit(key, first)] + Hits(key, rest, l.max - 1);
            && Passes(l, full, key) == Passes(l, run, key) + [first] + Repeat<int>(rest, l.max - 1)
            && key in After(l, full) && After(l, full)[key] == Bucket(l.max, first)
  {
    OpeningPass(l, run, key, first);
    HitsPass(l, run + [Hit(key, first)], key, rest, l.max - 1);
  }

  lemma FirstWindow(l: Limits, key: string)
    requires l.max >= 1 && l.window >= 1
    ensures var b := [Hit(key, 0)] + Hits(key, l.window, l.max - 1);
            && Passes(l, b, key) == [0] + Repeat<int>(l.window, l.max - 1)
            && Opens(l, After(l, b), key, l.window + 1)
  {
    var none: seq<Event> := [];
    FullWindow(l, none, key, 0, l.window);
    assert none + [Hit(key, 0)] == [Hit(key, 0)] && Passes(l, none, key) + [0] == [0];
  }

  lemma BurstPasses(l: Limits, key: string)
    requires l.max >= 1 && l.window >= 1
    ensures Passes(l, Burst(l, key), key)
            == [0] + Repeat<int>(l.window, l.max - 1) + [l.window + 1] + Repeat<int>(l.window + 1, l.max - 1)
  {
    FirstWindow(l, key);
    FullWindow(l, [Hit(key, 0)] + Hits(key, l.window, l.max - 1), key, l.window + 1, l.window + 1);
  }

  /** The bound is reached: the burst passes 2·max - 1 events in one window length. */
  lemma BoundReached(l: Limits, key: string)
    requires l.max >= 1 && l.window >= 1
    ensures InOrder(Burst(l, key)) && CountIn(Passes(l, Burst(l, key), key), l.window, 2 * l.window) == 2 * l.max - 1
  {
    BurstInOrder(l, key);
    BurstPasses(l, key);
    BurstCount(l, Passes(l, Burst(l, key), key));
  }

  lemma BurstCount(l: Limits, passes: seq<int>)
    requires l.max >= 1 && l.window >= 1
    requires passes == [0] + Repeat<int>(l.window, l.max - 1) + [l.window + 1] + Repeat<int>(l.window + 1, l.max - 1)
    ensures CountIn(passes, l.window, 2 * l.window) == 2 * l.max - 1
  {
    var w, n: nat := l.window, l.max - 1;
    CountRepeat(w, n, w, 2 * w);
    CountRepeat(w + 1, n, w, 2 * w);
    CountFour(Repeat<int>(w, n), w + 1, Repeat<int>(w + 1, n), w, 2 * w);
  }

  lemma BurstInOrder(l: Limits, key: string)
    requires l.max >= 1
    ensures InOrder(Burst(l, key))
  {
    HitsCounted(key, l.window, l.max - 1);
    HitsCounted(key, l.window + 1, l.max - 1);
    var b, n := Burst(l, key), l.max;
    forall i | 0 <= i < |b|
      ensures b[i].at == if i == 0 then 0 else if i < n then l.window else l.window + 1
    {
    }
  }

  lemma CountFour(p: seq<int>, x: int, q: seq<int>, from: int, to: int)
    requires from <= x <= to && 0 < from
    ensures CountIn([0] + p + [x] + q, from, to) == CountIn(p, from, to) + 1 + CountIn(q, from, to)
  {
    CountConcat([0] + p + [x], q, from, to);
    CountConcat([0] + p, [x], from, to);
    CountConcat([0], p, from, to);
    assert [0][..0] == [] && [x][..0] == [];
  }

  // ---------- Cleanup changes no decision ----------

  /** Whether each event that is a hit was limited, in order. */
  function Decisions(l: Limits, run: seq<Event>): seq<bool>
  {
    if run == [] then []
    else
      var r, e := run[..|run| - 1], run[|run| - 1];
      Decisions(l, r) + if e.Hit? then [Limited(l, After(l, r), e.key, e.at)] else []
  }

  function WithoutCleanups(run: seq<Event>): seq<Event>
  {
    if run == [] then []
    else WithoutCleanups(run[..|run| - 1]) + if run[|run| - 1].Hit? then [run[|run| - 1]] else []
  }

  /** `m` is `full` less some entries whose window is long over. */
  ghost predicate Pruned(l: Limits, m: Table, full: Table, now: int)
  {
    && (forall k | k in m :: k in full && m[k] == full[k])
    && (forall k | k in full && k !in m :: Stale(l, full[k], now))
  }

  ghost predicate Alike(l: Limits, run: seq<Event>, now: int)
  {
    && Decisions(l, run) == Decisions(l, WithoutCleanups(run))
    && Pruned(l, After(l, run), After(l, WithoutCleanups(run)), now)
  }

  lemma AlikeHit(l: Limits, r: seq<Event>, e: Event)
    requires Alike(l, r, e.at) && e.Hit?
    ensures Alike(l, r + [e], e.at)
  {
    var w := WithoutCleanups(r);
    assert (r + [e])[..|r|] == r && (w + [e])[..|w|] == w;
    assert WithoutCleanups(r + [e]) == w + [e];
    PrunedHit(l, After(l, r), After(l, w), e.key, e.at);
  }

  lemma PrunedHit(l: Limits, m: Table, full: Table, key: string, at: int)
    requires Pruned(l, m, full, at)
    ensures Limited(l, m, key, at) == Limited(l, full, key, at) && Counted(l, m, key, at) == Counted(l, full, key, at)
    ensures Pruned(l, m[key := Counted(l, m, key, at)], full[key := Counted(l, full, key, at)], at)
  {
  }

  lemma AlikeClean(l: Limits, r: seq<Event>, e: Event)
    requires Alike(l, r, e.at) && e.Clean?
    ensures Alike(l, r + [e], e.at)
  {
    assert (r + [e])[..|r|] == r;
    assert WithoutCleanups(r + [e]) == WithoutCleanups(r);
  }

  lemma AlikeLater(l: Limits, run: seq<Event>, now: int, then': int)
    requires Alike(l, run, now) && now <= then'
    ensures Alike(l, run, then')
  {
  }

  lemma {:induction false} CleanupInvisible(l: Limits, run: seq<Event>, now: int)
    requires InOrder(run) && (run != [] ==> run[|run| - 1].at <= now)
    ensures Decisions(l, run) == Decisions(l, WithoutCleanups(run))
    ensures Pruned(l, After(l, run), After(l, WithoutCleanups(run)), now)
  {
    if run != [] {
      var r, e := run[..|run| - 1], run[|run| - 1];
      CleanupInvisible(l, r, e.at);
      assert r + [e] == run && Alike(l, r, e.at);
      if e.Hit? {
        AlikeHit(l, r, e);
      } else {
        AlikeClean(l, r, e);
      }
      AlikeLater(l, run, e.at, now);
    }
  }
}
