/** The in-memory rate limiter of the HTTP middleware (backend/app/main.py): for each
    client address, the times of its accepted requests in the last minute. Times are
    microseconds (the resolution of `datetime`); the clock is a parameter. */
module RateLimit {
  import opened Wrappers

  /** `timedelta(minutes=1)` in microseconds. */
  const MinuteMicros := 60_000_000

  /** The key of a request: its client's host, or "unknown" without one. */
  function ClientKey(host: Option<string>): string {
    if host.Some? then host.value else "unknown"
  }

  /** `[t for t in times if t > minute_ago]`. */
  function Recent(times: seq<int>, minuteAgo: int): (r: seq<int>)
    ensures |r| <= |times|
    ensures forall k :: 0 <= k < |r| ==> r[k] > minuteAgo
  {
    if times == [] then []
    else
      var rest := Recent(times[..|times| - 1], minuteAgo);
      var t := times[|times| - 1];
      if t > minuteAgo then rest + [t] else rest
  }

  /** `Recent` keeps exactly the times later than `minuteAgo`, in their order. */
  lemma {:induction false} RecentSpec(times: seq<int>, minuteAgo: int)
    ensures forall t :: t in Recent(times, minuteAgo) <==> t in times && t > minuteAgo
    ensures multiset(Recent(times, minuteAgo)) <= multiset(times)
  {
    if times != [] {
      var init := times[..|times| - 1];
      RecentSpec(init, minuteAgo);
      assert times == init + [times[|times| - 1]];
    }
  }

  /** The per-client request lists. */
  class RateLimiter {
    /** `settings.rate_limit_per_minute`. */
    const limit: int
    /** `request_counts`: a client absent from the map has an empty list. */
    var requestCounts: map<string, seq<int>>

    /** No client has more than `limit` recorded requests (none when `limit` is not
        positive). */
    ghost predicate Bounded()
      reads this
    {
      forall key :: key in requestCounts ==> |requestCounts[key]| <= if limit < 0 then 0 else limit
    }

    constructor (limit: int)
      ensures this.limit == limit && requestCounts == map[] && Bounded()
    {
      this.limit := limit;
      requestCounts := map[];
    }

    /** The client's list, empty when the client has none yet (`defaultdict(list)`). */
    function Times(key: string): seq<int>
      reads this
    {
      if key in requestCounts then requestCounts[key] else []
    }

    /** `rate_limit_middleware` up to the call of the next handler: the client's list
        is pruned to the last minute; the request is refused (HTTP 429) when that list
        already holds `limit` times, and otherwise `now` is recorded. Only this
        client's entry changes. */
    method RateLimitMiddleware(host: Option<string>, now: int) returns (allowed: bool)
      modifies this
      ensures var key := ClientKey(host);
        var (after, ok) := Decide(old(Times(key)), limit, now);
        allowed == ok && requestCounts == old(requestCounts)[key := after]
      ensures old(Bounded()) ==> Bounded()
    {
      var clientIp := ClientKey(host);
      var minuteAgo := now - MinuteMicros;
      requestCounts := requestCounts[clientIp := Recent(Times(clientIp), minuteAgo)];
      if |requestCounts[clientIp]| >= limit {
        return false;
      }
      requestCounts := requestCounts[clientIp := requestCounts[clientIp] + [now]];
      return true;
    }
  }

  /** The limiter's decision on a client's list, as a value: the list after the
      request and whether the request was let through. The list after the request
      holds only times of the last minute and `now` when accepted; an accepted request
      leaves at most `limit` times and a refused one at least `limit`. */
  function Decide(times: seq<int>, limit: int, now: int): (r: (seq<int>, bool))
    ensures r.1 ==> 0 < |r.0| <= limit && r.0[|r.0| - 1] == now
    ensures !r.1 ==> |r.0| >= limit
    ensures forall k :: 0 <= k < |r.0| ==> r.0[k] > now - MinuteMicros || (r.1 && k == |r.0| - 1)
  {
    var pruned := Recent(times, now - MinuteMicros);
    if |pruned| >= limit then (pruned, false) else (pruned + [now], true)
  }

  /** A request is refused exactly when `limit` requests were accepted in the minute
      before it; a refused request is not recorded, an accepted one adds exactly
      `now`; and a list within the limit stays within it. */
  lemma DecideSpec(times: seq<int>, limit: int, now: int)
    ensures var (after, allowed) := Decide(times, limit, now);
      var recent := Recent(times, now - MinuteMicros);
      (!allowed <==> |recent| >= limit) &&
      (allowed ==> after == recent + [now]) &&
      (!allowed ==> after == recent) &&
      (0 <= limit && |times| <= limit ==> |after| <= limit)
  {
  }

  /** With a non-positive limit every request is refused. */
  lemma NonPositiveLimitRefusesAll(times: seq<int>, limit: int, now: int)
    requires limit <= 0
    ensures !Decide(times, limit, now).1
  {
  }

  /** Once a client has `limit` requests within a minute, a request at the same time
      is refused. */
  lemma {:induction false} FullWindowRefuses(times: seq<int>, limit: int, now: int)
    requires forall k :: 0 <= k < |times| ==> now - MinuteMicros < times[k]
    requires |times| >= limit
    ensures !Decide(times, limit, now).1
  {
    RecentAll(times, now - MinuteMicros);
  }

  /** Pruning keeps every time later than the cut-off. */
  lemma {:induction false} RecentAll(times: seq<int>, minuteAgo: int)
    requires forall k :: 0 <= k < |times| ==> minuteAgo < times[k]
    ensures Recent(times, minuteAgo) == times
  {
    if times != [] {
      RecentAll(times[..|times| - 1], minuteAgo);
      assert times == times[..|times| - 1] + [times[|times| - 1]];
    }
  }
}
