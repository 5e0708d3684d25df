/** What the rate limiter answers, with its constants spelled out. */
module RateLaws {
  import opened Common
  import opened RateLimit

  /** Five paths are exempt; the login paths are judged by the login limit, under a
      key of their own, and all others by the ordinary limit, under the address. */
  lemma JudgedBy(settings: Settings, ip: string, path: string)
    ensures path in EXEMPT_PATHS <==>
            path == "/health" || path == "/" || path == "/docs" || path == "/openapi.json" || path == "/redoc"
    ensures var login := (|path| >= 11 && path[..11] == "/auth/login") || path == "/auth/oidc/exchange";
            LimitFor(settings, path) == (if login then settings.authRpm else settings.rpm) &&
            BucketKey(ip, path) == if login then ip + ":auth" else ip
  {
    assert |"/auth/login"| == 11;
  }

  /** The times of the last sixty seconds, by their places. */
  function Recent(ts: seq<Time>, now: Time): set<int> {
    set i | 0 <= i < |ts| && ts[i] > now - 60.0
  }

  lemma {:induction false} PrunedIsRecent(ts: seq<Time>, now: Time)
    ensures |PruneWindow(ts, now)| == |Recent(ts, now)|
    decreases |ts|
  {
    if ts == [] {
      assert Recent(ts, now) == {};
    } else {
      var n := |ts| - 1;
      assert ts == ts[..n] + [ts[n]];
      PrunedIsRecent(ts[..n], now);
      PruneAppend(ts[..n], ts[n], now);
      assert Recent(ts, now) == Recent(ts[..n], now) + if ts[n] > now - 60.0 then {n} else {};
    }
  }

  /** A request is admitted exactly when fewer than the limit were in the last
      sixty seconds; with none to wait for, a limit below one is an error. */
  lemma AdmittedIff(ts: seq<Time>, now: Time, limit: int)
    ensures Decide(ts, now, limit) == Accepted <==> |Recent(ts, now)| < limit
    ensures Decide(ts, now, limit) == Crashed <==> |Recent(ts, now)| == 0 && limit <= 0
    ensures Decide(ts, now, limit).Limited? <==> |Recent(ts, now)| >= limit && |Recent(ts, now)| > 0
  {
    PrunedIsRecent(ts, now);
  }

  /** The wait that is advertised is the least whole number of seconds above what
      the oldest recent time has left of its sixty. */
  lemma WaitIs(ts: seq<Time>, now: Time, limit: int, oldest: nat)
    requires Sorted(ts) && Decide(ts, now, limit).Limited?
    requires oldest < |ts| && ts[oldest] > now - 60.0 && forall i :: 0 <= i < oldest ==> ts[i] <= now - 60.0
    ensures var r := Decide(ts, now, limit).retryAfter; (r - 1) as real <= ts[oldest] + 60.0 - now < r as real
  {
    var k := PruneDropsPrefix(ts, now);
    assert k == oldest && PruneWindow(ts, now)[0] == ts[k];
  }

  /** For a key judged within one limit, coming back after some whole seconds is
      enough exactly when it is as many as advertised, or one less and the oldest
      recent time has a whole number of seconds left. */
  lemma WaitIsTight(h: seq<Accept>, now: Time, limit: int, seconds: nat)
    requires SaneUpTo(h, now) && LimitsWithin(h, limit) && limit >= 1 && Decide(Times(h), now, limit).Limited?
    ensures |h| >= limit
    ensures var r, left := Decide(Times(h), now, limit).retryAfter, h[|h| - limit].at + 60.0 - now;
            Decide(Times(h), now + seconds as real, limit) == Accepted <==>
            seconds >= r || (seconds == r - 1 && left == left.Floor as real)
  {
    hide *;
    var ts, later := Times(h), now + seconds as real;
    DecidingTime(h, ts, now, limit);
    RetryIff(ts, now, limit, later);
    WholeSeconds(ts[|ts| - limit] + 60.0 - now, Decide(ts, now, limit).retryAfter, seconds);
    Expired(ts[|ts| - limit], now, later);
  }

  lemma Expired(t: real, now: Time, later: Time)
    ensures t <= later - WINDOW <==> t + 60.0 - now <= later - now
  {
  }

  /** With no more recent times than the limit, the oldest of them decides. */
  lemma DecidingTime(h: seq<Accept>, ts: seq<Time>, now: Time, limit: int)
    requires SaneUpTo(h, now) && LimitsWithin(h, limit) && limit >= 1 && ts == Times(h)
    requires Decide(ts, now, limit).Limited?
    ensures |h| >= limit && Sorted(ts) && ts[|h| - limit] == h[|h| - limit].at
    ensures var r := Decide(ts, now, limit).retryAfter;
            (r - 1) as real <= ts[|h| - limit] + 60.0 - now < r as real
  {
    TimesSorted(h, now);
    LiveWithinLimit(h, ts, now, limit);
    var k := PruneDropsPrefix(ts, now);
    assert k == |h| - limit;
    WaitIs(ts, now, limit, k);
  }

  lemma WholeSeconds(left: real, r: int, seconds: nat)
    requires (r - 1) as real <= left < r as real
    ensures left <= seconds as real <==> seconds >= r || (seconds == r - 1 && left == left.Floor as real)
  {
    assert left.Floor == r - 1;
  }

  /** Of a key's history, what falls into sixty seconds from `x`. */
  function Within(h: seq<Accept>, x: Time): set<int> {
    set i | 0 <= i < |h| && x <= h[i].at < x + 60.0
  }

  /** A number bounds what a key may ever have admitted in sixty seconds exactly when
      it is no smaller than the ordinary limit and, for a key that ends in ":auth",
      than the login limit. */
  lemma BoundIff(settings: Settings, key: string, n: nat)
    ensures (forall h, x :: Reachable(h, LimitsOf(settings, key)) ==> |Within(h, x)| <= n) <==>
            n >= settings.rpm && (|key| >= 5 && key[|key| - 5..] == ":auth" ==> n >= settings.authRpm)
  {
    hide Reachable;
    forall l | l in LimitsOf(settings, key) && l > n
      ensures exists h, x :: Reachable(h, LimitsOf(settings, key)) && |Within(h, x)| > n
    {
      var h := Burst(l, l);
      BurstIsReachable(l, l);
      ReachableWithMore(h, {l}, LimitsOf(settings, key));
      AllAdmitted(h, 0.0);
      assert Within(h, 0.0) == AdmittedIn(h, 0.0);
    }
    if forall l :: l in LimitsOf(settings, key) ==> l <= n {
      forall h, x | Reachable(h, LimitsOf(settings, key))
        ensures |Within(h, x)| <= n
      {
        ReachableIsSpaced(h, LimitsOf(settings, key));
        WindowBound(h, n, x);
        assert Within(h, x) == AdmittedIn(h, x);
      }
    }
  }
}
