/** Request middleware state: a per-path window of the last 100 request
    durations with percentile summaries, per-route error counters with the
    last ten distinct messages, and the CORS allow-list decision. Durations
    and times are parameters; logging and the rate limiters are not
    modelled. */
module Middleware {
  import opened Common
  import opened Text
  import opened Numbers
  import opened Sorting
  import opened OrderedMaps

  // ---------------------------------------------------------------------
  // Request timings

  /** Only the last 100 durations of a path are kept. */
  const TimingWindow: nat := 100

  /** The finish callback's update of one path's list: push the duration,
      then drop the oldest when the list has grown past 100. */
  function Window(timings: seq<int>, duration: int): (r: seq<int>)
    ensures |timings| <= TimingWindow ==> r == TakeLast(timings + [duration], TimingWindow)
    ensures |r| > 0 && r[|r| - 1] == duration
  {
    var t := timings + [duration];
    if |t| > 100 then t[1..] else t
  }

  /** The list after recording each of `durations` in turn. */
  function WindowAll(timings: seq<int>, durations: seq<int>): seq<int>
    decreases |durations|
  {
    if |durations| == 0 then timings
    else Window(WindowAll(timings, durations[..|durations| - 1]), durations[|durations| - 1])
  }

  /** Keeping the last `k` after each push keeps the last `k` overall. */
  lemma TakeLastSnoc<T>(s: seq<T>, x: T, k: nat)
    requires k > 0
    ensures TakeLast(TakeLast(s, k) + [x], k) == TakeLast(s + [x], k)
  {
    var a := TakeLast(TakeLast(s, k) + [x], k);
    var b := TakeLast(s + [x], k);
    assert |a| == |b|;
    forall i | 0 <= i < |a| ensures a[i] == b[i] {
      if i < |a| - 1 {
        var t := TakeLast(s, k);
        assert a[i] == (t + [x])[|t| + 1 - |a| + i] == t[|t| + 1 - |a| + i];
      }
    }
  }

  /** Starting from no timings, a path's list is exactly its last 100
      durations, oldest first. */
  lemma {:induction false} WindowKeepsLatest(durations: seq<int>)
    ensures WindowAll([], durations) == TakeLast(durations, TimingWindow)
    decreases |durations|
  {
    if |durations| > 0 {
      var init := durations[..|durations| - 1];
      var d := durations[|durations| - 1];
      WindowKeepsLatest(init);
      TakeLastSnoc(init, d, TimingWindow);
      assert init + [d] == durations;
    }
  }

  function Total(xs: seq<int>): int
    decreases |xs|
  {
    if |xs| == 0 then 0 else Total(xs[..|xs| - 1]) + xs[|xs| - 1]
  }

  function Itself(x: int): int { x }

  /** The comparator `(a, b) => a - b` as a strict order. */
  predicate NumberLess(a: int, b: int) { a < b }

  /** `[...timings].sort((a, b) => a - b)`. */
  function Ascending(xs: seq<int>): (r: seq<int>)
    ensures |r| == |xs|
  {
    SortBy(xs, Itself, NumberLess)
  }

  lemma AscendingExact(xs: seq<int>)
    ensures multiset(Ascending(xs)) == multiset(xs)
    ensures forall i, j :: 0 <= i < j < |xs| ==> Ascending(xs)[i] <= Ascending(xs)[j]
  {
    SortByPermutes(xs, Itself, NumberLess);
    SortBySorted(xs, Itself, NumberLess);
  }

  /** The indices `Math.floor(n * 0.5)`, `Math.floor(n * 0.95)` and
      `Math.floor(n * 0.99)` for `1 ≤ n ≤ 100`, where the floating-point
      products floor to these exact quotients. */
  lemma PercentileIndices(n: nat)
    requires n > 0
    ensures 0 <= n / 2 <= 95 * n / 100 <= 99 * n / 100 < n
  {
    assert 50 * n / 100 == n / 2;
  }

  datatype PathMetrics = PathMetrics(requests: nat, avg: int, p50: int, p95: int, p99: int, min: int, max: int)

  /** The summary `getPerformanceMetrics` reports for a non-empty list. */
  function Summary(timings: seq<int>): PathMetrics
    requires |timings| > 0
  {
    var n := |timings|;
    var sorted := Ascending(timings);
    PercentileIndices(n);
    PathMetrics(
      n,
      RoundHalfUp(Total(timings) as real / n as real),
      sorted[n / 2],
      sorted[95 * n / 100],
      sorted[99 * n / 100],
      sorted[0],
      sorted[n - 1])
  }

  /** The summary counts the requests; its minimum and maximum are the
      least and the greatest duration, and the percentiles are durations
      that lie in order between them. */
  lemma SummaryOrdered(timings: seq<int>)
    requires |timings| > 0
    ensures var m := Summary(timings);
      && m.requests == |timings|
      && m.min <= m.p50 <= m.p95 <= m.p99 <= m.max
      && (forall i :: 0 <= i < |timings| ==> m.min <= timings[i] <= m.max)
      && m.min in timings && m.max in timings
      && m.p50 in timings && m.p95 in timings && m.p99 in timings
  {
    var sorted := Ascending(timings);
    PercentileIndices(|timings|);
    AscendingMembers(timings);
    AscendingBounds(timings);
    AscendingExact(timings);
    assert sorted[|timings| / 2] in sorted && sorted[95 * |timings| / 100] in sorted && sorted[99 * |timings| / 100] in sorted;
  }

  lemma AscendingMembers(xs: seq<int>)
    ensures forall x :: x in Ascending(xs) <==> x in xs
  {
    AscendingExact(xs);
    forall x ensures x in Ascending(xs) <==> x in xs {
      assert x in Ascending(xs) <==> x in multiset(Ascending(xs));
      assert x in xs <==> x in multiset(xs);
    }
  }

  lemma AscendingBounds(xs: seq<int>)
    requires |xs| > 0
    ensures forall i :: 0 <= i < |xs| ==> Ascending(xs)[0] <= xs[i] <= Ascending(xs)[|xs| - 1]
  {
    var sorted := Ascending(xs);
    AscendingExact(xs);
    forall i | 0 <= i < |xs| ensures sorted[0] <= xs[i] <= sorted[|xs| - 1] {
      assert xs[i] in multiset(xs);
      assert xs[i] in multiset(sorted);
      assert xs[i] in sorted;
      var j :| 0 <= j < |xs| && sorted[j] == xs[i];
    }
  }

  datatype PathReport = PathReport(path: string, metrics: PathMetrics)

  /** The reports for `paths`, in order, leaving out paths with no timings. */
  function Reports(paths: seq<string>, timings: map<string, seq<int>>): (r: seq<PathReport>)
    requires forall p :: p in paths ==> p in timings
    ensures |r| <= |paths|
    decreases |paths|
  {
    if |paths| == 0 then []
    else
      var init := paths[..|paths| - 1];
      var p := paths[|paths| - 1];
      assert forall q :: q in init ==> q in paths;
      var rest := Reports(init, timings);
      if |timings[p]| == 0 then rest else rest + [PathReport(p, Summary(timings[p]))]
  }

  /** A path is reported exactly when it has timings, with their summary. */
  lemma {:induction false} ReportsExact(paths: seq<string>, timings: map<string, seq<int>>, report: PathReport)
    requires forall p :: p in paths ==> p in timings
    ensures report in Reports(paths, timings) <==>
      report.path in paths && |timings[report.path]| > 0 && report.metrics == Summary(timings[report.path])
    decreases |paths|
  {
    if |paths| > 0 {
      var init := paths[..|paths| - 1];
      assert forall q :: q in init ==> q in paths;
      assert forall q :: q in paths <==> q in init || q == paths[|paths| - 1];
      ReportsExact(init, timings, report);
    }
  }

  /** The push of a duration onto a path's list, and the shift of the
      oldest past a hundred. */
  method PushTiming(timings0: seq<int>, duration: int) returns (timings: seq<int>)
    ensures timings == Window(timings0, duration)
  {
    timings := timings0 + [duration];
    if |timings| > 100 {
      timings := timings[1..];
    }
  }

  /** Every path keeps at most a hundred durations. */
  ghost predicate TimingsValid(m: OMap<string, seq<int>>)
  {
    && m.Valid()
    && forall p :: p in m.entries ==> |m.entries[p]| <= TimingWindow
  }

  lemma TimingsValidSet(m: OMap<string, seq<int>>, p: string, t: seq<int>)
    requires TimingsValid(m) && |t| <= TimingWindow
    ensures TimingsValid(m.Set(p, t))
  {
  }

  /** Creating the empty list first and then storing the new one is one
      store. */
  lemma SetTwice(m: OMap<string, seq<int>>, p: string, t: seq<int>)
    ensures (if p in m.entries then m else m.Set(p, [])).Set(p, t) == m.Set(p, t)
  {
    if p !in m.entries {
      assert m.entries[p := []][p := t] == m.entries[p := t];
    }
  }

  /** The module-level `requestTimings`: each path's durations, oldest
      first, paths in the order they were first seen. */
  class RequestMetrics {
    var requestTimings: OMap<string, seq<int>>

    ghost predicate Valid()
      reads this
    {
      TimingsValid(requestTimings)
    }

    constructor ()
      ensures Valid() && requestTimings == Empty()
    {
      requestTimings := Empty();
    }

    /** The finish callback of `performanceMonitor`. */
    method RecordTiming(path: string, duration: int)
      requires Valid()
      modifies this
      ensures Valid()
      ensures requestTimings == old(requestTimings).Set(path,
        Window(if path in old(requestTimings.entries) then old(requestTimings.entries[path]) else [], duration))
    {
      ghost var m0 := requestTimings;
      if path !in requestTimings.entries {
        requestTimings := requestTimings.Set(path, []);
      }
      var timings := PushTiming(requestTimings.entries[path], duration);
      SetTwice(m0, path, timings);
      TimingsValidSet(m0, path, timings);
      requestTimings := requestTimings.Set(path, timings);
    }

    /** `getPerformanceMetrics`: one pass over the paths. */
    method PerformanceMetrics() returns (metrics: seq<PathReport>)
      requires Valid()
      ensures metrics == Reports(requestTimings.keys, requestTimings.entries)
    {
      metrics := [];
      var paths := requestTimings.keys;
      var i := 0;
      while i < |paths|
        invariant 0 <= i <= |paths|
        invariant forall p :: p in paths[..i] ==> p in requestTimings.entries
        invariant metrics == Reports(paths[..i], requestTimings.entries)
      {
        assert paths[..i + 1][..i] == paths[..i];
        var timings := requestTimings.entries[paths[i]];
        if |timings| > 0 {
          metrics := metrics + [PathReport(paths[i], Summary(timings))];
        }
        i := i + 1;
      }
      assert paths[..i] == paths;
    }
  }

  // ---------------------------------------------------------------------
  // Error statistics

  /** At most ten distinct messages are kept per route. */
  const MessageCap: nat := 10

  datatype ErrorStats = ErrorStats(count: nat, lastOccurred: int, messages: seq<string>)

  /** `` `${method}:${path}` ``. */
  function ErrorKey(verb: string, path: string): string
  {
    verb + ":" + path
  }

  /** `err.message || 'Unknown error'`. */
  function ErrorMessage(message: Option<string>): (m: string)
    ensures m != ""
  {
    if message.Some? && message.value != "" then message.value else "Unknown error"
  }

  /** A new message is pushed, and the oldest dropped past ten; a message
      already kept changes nothing. */
  function Remember(messages: seq<string>, m: string): (r: seq<string>)
    ensures m in r
    ensures m in messages ==> r == messages
    ensures m !in messages && |messages| <= MessageCap ==> r == TakeLast(messages + [m], MessageCap)
    ensures Distinct(messages) ==> Distinct(r)
    ensures |messages| <= MessageCap ==> |r| <= MessageCap
    ensures forall x :: x in r ==> x in messages || x == m
  {
    if m in messages then messages
    else
      var t := messages + [m];
      assert t[|t| - 1] == m;
      if |t| > 10 then (assert t[1..][|t| - 2] == m; t[1..]) else t
  }

  /** The push of a new message onto a route's list, and the shift of the
      oldest past ten. */
  method PushMessage(messages0: seq<string>, m: string) returns (messages: seq<string>)
    ensures messages == Remember(messages0, m)
  {
    messages := messages0;
    if m !in messages {
      messages := messages + [m];
      if |messages| > 10 {
        messages := messages[1..];
      }
    }
  }

  /** Every route keeps at most ten distinct messages. */
  ghost predicate StatsValid(m: OMap<string, ErrorStats>)
  {
    && m.Valid()
    && forall k :: k in m.entries ==>
      Distinct(m.entries[k].messages) && |m.entries[k].messages| <= MessageCap
  }

  lemma StatsValidSet(m: OMap<string, ErrorStats>, k: string, s: ErrorStats)
    requires StatsValid(m) && Distinct(s.messages) && |s.messages| <= MessageCap
    ensures StatsValid(m.Set(k, s))
  {
  }

  /** The module-level `errorStats`. */
  class ErrorTracker {
    var errorStats: OMap<string, ErrorStats>

    ghost predicate Valid()
      reads this
    {
      StatsValid(errorStats)
    }

    constructor ()
      ensures Valid() && errorStats == Empty()
    {
      errorStats := Empty();
    }

    /** The stats of a route, zero before its first error. */
    function StatsOf(key: string, now: int): ErrorStats
      reads this
    {
      if key in errorStats.entries then errorStats.entries[key] else ErrorStats(0, now, [])
    }

    /** `errorTracker`: one more error for `method:path` at `now`. */
    method TrackError(message: Option<string>, verb: string, path: string, now: int)
      requires Valid()
      modifies this
      ensures Valid()
      ensures var key := ErrorKey(verb, path);
        var s := old(StatsOf(key, now));
        errorStats == old(errorStats).Set(key, ErrorStats(s.count + 1, now, Remember(s.messages, ErrorMessage(message))))
    {
      var key := ErrorKey(verb, path);
      var stats := StatsOf(key, now);
      var errorMessage := ErrorMessage(message);
      var messages := PushMessage(stats.messages, errorMessage);
      StatsValidSet(errorStats, key, ErrorStats(stats.count + 1, now, messages));
      errorStats := errorStats.Set(key, ErrorStats(stats.count + 1, now, messages));
    }

    /** `getErrorStats`: every route's count, last time and its last five
        messages, routes in the order of their first error. */
    function ErrorReport(): (r: seq<ErrorSummary>)
      reads this
      requires Valid()
      ensures |r| == |errorStats.keys|
      ensures forall i :: 0 <= i < |r| ==> r[i].key == errorStats.keys[i]
      ensures forall i :: 0 <= i < |r| ==>
        r[i].count == errorStats.entries[r[i].key].count &&
        r[i].lastOccurred == errorStats.entries[r[i].key].lastOccurred &&
        r[i].recentMessages == TakeLast(errorStats.entries[r[i].key].messages, 5)
    {
      var keys := errorStats.keys;
      var stats := errorStats.Values();
      seq(|keys|, i requires 0 <= i < |keys| && i < |stats| =>
        ErrorSummary(keys[i], stats[i].count, stats[i].lastOccurred, TakeLast(stats[i].messages, 5)))
    }
  }

  datatype ErrorSummary = ErrorSummary(key: string, count: nat, lastOccurred: int, recentMessages: seq<string>)

  // ---------------------------------------------------------------------
  // CORS

  const DefaultOrigin: string := "http://localhost:5000"

  /** `process.env.ALLOWED_ORIGINS?.split(',') || ['http://localhost:5000']`. */
  function AllowedOrigins(env: Option<string>): (r: seq<string>)
    ensures env.None? ==> r == [DefaultOrigin]
    ensures env.Some? ==> r == Split(env.value, ',')
  {
    if env.Some? then Split(env.value, ',') else [DefaultOrigin]
  }

  datatype Header = Header(name: string, value: string)

  /** What `corsConfig` does to a request: the headers it sets, the status
      it answers with, and whether the next handler runs. */
  datatype CorsOutcome = CorsOutcome(headers: seq<Header>, status: Option<int>, callsNext: bool)

  /** The response carries `Access-Control-Allow-Origin`. */
  predicate AllowsOrigin(out: CorsOutcome)
  {
    exists h :: h in out.headers && h.name == "Access-Control-Allow-Origin"
  }

  function CorsConfig(verb: string, origin: Option<string>, env: Option<string>): (out: CorsOutcome)
    ensures AllowsOrigin(out) <==>
      origin.Some? && origin.value != "" && origin.value in AllowedOrigins(env)
    ensures forall h :: h in out.headers && h.name == "Access-Control-Allow-Origin" ==> h.value == origin.value
    ensures out.callsNext <==> verb != "OPTIONS"
    ensures out.status == (if verb == "OPTIONS" then Some(200) else None)
  {
    var allowed := AllowedOrigins(env);
    var first := if origin.Some? && origin.value != "" && origin.value in allowed
      then [Header("Access-Control-Allow-Origin", origin.value)] else [];
    var headers := first + [
      Header("Access-Control-Allow-Methods", "GET, POST, PUT, DELETE, OPTIONS"),
      Header("Access-Control-Allow-Headers", "Content-Type, Authorization"),
      Header("Access-Control-Allow-Credentials", "true")];
    CorsOutcome(headers, if verb == "OPTIONS" then Some(200) else None, verb != "OPTIONS")
  }

  /** Without `ALLOWED_ORIGINS` only `http://localhost:5000` is allowed. */
  lemma DefaultAllowList(verb: string, origin: string)
    ensures AllowsOrigin(CorsConfig(verb, Some(origin), None)) <==> origin == DefaultOrigin
  {
  }

  /** With `ALLOWED_ORIGINS` set to a comma-separated list of origins, the
      allowed origins are exactly the listed ones. */
  lemma ListedOrigins(verb: string, origin: string, origins: seq<string>)
    requires |origins| >= 1
    requires forall i :: 0 <= i < |origins| ==> ',' !in origins[i]
    ensures AllowedOrigins(Some(Join(origins, ","))) == origins
    ensures AllowsOrigin(CorsConfig(verb, Some(origin), Some(Join(origins, ",")))) <==> origin != "" && origin in origins
  {
    assert "," == [','];
    SplitJoin(origins, ',');
  }
}
