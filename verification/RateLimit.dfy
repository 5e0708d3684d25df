/** The in-memory sliding-window rate limiter. Its buckets forget what has left
    the window; what it decides is specified over the full history. */
module RateLimit {
  import opened Common

  type Time = real

  const WINDOW := 60.0
  const CLEANUP_INTERVAL := 500

  datatype Settings = Settings(rpm: int, authRpm: int)

  datatype Outcome = Exempt | Accepted | Limited(retryAfter: int) | Crashed

  /** An admitted request: when, and under which limit. */
  datatype Accept = Accept(at: Time, limit: int)

  const EXEMPT_PATHS := {"/health", "/", "/docs", "/openapi.json", "/redoc"}

  predicate IsAuth(path: string) {
    "/auth/login" <= path || path == "/auth/oidc/exchange"
  }

  function BucketKey(ip: string, path: string): string {
    if IsAuth(path) then ip + ":auth" else ip
  }

  function LimitFor(settings: Settings, path: string): int {
    if IsAuth(path) then settings.authRpm else settings.rpm
  }

  predicate EndsInAuth(key: string) {
    |key| >= 5 && key[|key| - 5..] == ":auth"
  }

  /** The limit meant for a bucket, told from its key. */
  function KeyLimit(settings: Settings, key: string): int {
    if EndsInAuth(key) then settings.authRpm else settings.rpm
  }

  /** An ordinary request whose client address, which may come from a header,
      spells out the key of an authentication bucket. */
  predicate Aliased(ip: string, path: string) {
    !IsAuth(path) && EndsInAuth(ip)
  }

  /** A request is judged by the limit of its bucket unless it is aliased. */
  lemma LimitOfKeyUnlessAliased(settings: Settings, ip: string, path: string)
    ensures LimitFor(settings, path) == KeyLimit(settings, BucketKey(ip, path)) <==>
            !Aliased(ip, path) || settings.rpm == settings.authRpm
  {
    assert (ip + ":auth")[|ip|..] == ":auth";
  }

  /** The times of a bucket that are still inside the window. */
  function PruneWindow(bucket: seq<Time>, now: Time): (live: seq<Time>)
    ensures |live| <= |bucket|
  {
    if bucket == [] then []
    else (if bucket[0] > now - WINDOW then [bucket[0]] else []) + PruneWindow(bucket[1..], now)
  }

  /** What a request at `now` must be told, given every time its key was ever
      admitted. With no admitted request to wait for, a limit below one errors. */
  function Decide(times: seq<Time>, now: Time, limit: int): Outcome {
    var live := PruneWindow(times, now);
    if |live| < limit then Accepted
    else if live == [] then Crashed
    else Limited((WINDOW - (now - live[0])).Floor + 1)
  }

  function Times(h: seq<Accept>): (ts: seq<Time>)
    ensures |ts| == |h|
    ensures forall i :: 0 <= i < |h| ==> ts[i] == h[i].at
  {
    if h == [] then [] else [h[0].at] + Times(h[1..])
  }

  // ------------------------------------------------------------ pruning facts

  ghost predicate Sorted(ts: seq<Time>) {
    forall i, j :: 0 <= i < j < |ts| ==> ts[i] <= ts[j]
  }

  /** Pruning a sorted bucket drops a prefix: the expired times. */
  lemma {:induction false} PruneDropsPrefix(ts: seq<Time>, now: Time) returns (k: nat)
    requires Sorted(ts)
    ensures k <= |ts| && PruneWindow(ts, now) == ts[k..]
    ensures forall i :: 0 <= i < k ==> ts[i] <= now - WINDOW
    ensures forall i :: k <= i < |ts| ==> ts[i] > now - WINDOW
  {
    if ts == [] {
      k := 0;
    } else if ts[0] > now - WINDOW {
      k := 0;
      PruneKeepsAll(ts, now);
    } else {
      var rest := PruneDropsPrefix(ts[1..], now);
      k := rest + 1;
      assert ts[1..][rest..] == ts[k..];
    }
  }

  lemma {:induction false} PruneKeepsAll(ts: seq<Time>, now: Time)
    requires Sorted(ts) && (ts != [] ==> ts[0] > now - WINDOW)
    ensures PruneWindow(ts, now) == ts
  {
    if ts != [] {
      PruneKeepsAll(ts[1..], now);
    }
  }

  /** Pruning early never matters later. */
  lemma {:induction false} PruneTwice(ts: seq<Time>, early: Time, now: Time)
    requires early <= now
    ensures PruneWindow(PruneWindow(ts, early), now) == PruneWindow(ts, now)
  {
    if ts != [] {
      PruneTwice(ts[1..], early, now);
      if ts[0] > early - WINDOW {
        var kept := [ts[0]] + PruneWindow(ts[1..], early);
        assert kept[1..] == PruneWindow(ts[1..], early);
      } else {
        assert PruneWindow(ts, early) == PruneWindow(ts[1..], early);
        assert PruneWindow(ts, now) == PruneWindow(ts[1..], now);
      }
    }
  }

  lemma {:induction false} PruneAppend(ts: seq<Time>, t: Time, now: Time)
    ensures PruneWindow(ts + [t], now) == PruneWindow(ts, now) + (if t > now - WINDOW then [t] else [])
  {
    if ts == [] {
      assert [] + [t] == [t];
    } else {
      var head := if ts[0] > now - WINDOW then [ts[0]] else [];
      PruneAppend(ts[1..], t, now);
      assert (ts + [t])[1..] == ts[1..] + [t];
      assert PruneWindow(ts + [t], now) == head + PruneWindow(ts[1..] + [t], now);
      assert PruneWindow(ts, now) == head + PruneWindow(ts[1..], now);
    }
  }

  /** A decision taken on a bucket pruned at any earlier time, by a request or by
      the periodic cleanup, is the decision on the bucket as it was. */
  lemma CleanupChangesNoDecision(ts: seq<Time>, cleaned: Time, now: Time, limit: int)
    requires cleaned <= now
    ensures Decide(PruneWindow(ts, cleaned), now, limit) == Decide(ts, now, limit)
  {
    PruneTwice(ts, cleaned, now);
  }

  // --------------------------------------------------------- the rate is bounded

  /** Admitted times in order, each at least a window after the one `limit` places
      before it. */
  ghost predicate Spaced(h: seq<Accept>) {
    (forall i :: 0 <= i < |h| ==> h[i].limit >= 1) &&
    (forall i, j :: 0 <= i < j < |h| ==> h[i].at <= h[j].at) &&
    forall i :: 0 <= i < |h| && h[i].limit <= i ==> h[i - h[i].limit].at <= h[i].at - WINDOW
  }

  ghost predicate LimitsWithin(h: seq<Accept>, limit: int) {
    forall i :: 0 <= i < |h| ==> h[i].limit <= limit
  }

  ghost predicate SaneUpTo(h: seq<Accept>, clock: Time) {
    Spaced(h) && forall i :: 0 <= i < |h| ==> h[i].at <= clock
  }

  /** Admitting what Decide accepts keeps the spacing. */
  lemma AcceptKeepsSpaced(h: seq<Accept>, now: Time, limit: int)
    requires Spaced(h) && (forall i :: 0 <= i < |h| ==> h[i].at <= now)
    requires Decide(Times(h), now, limit) == Accepted
    ensures Spaced(h + [Accept(now, limit)])
  {
    var ts, n := Times(h), |h|;
    assert forall i, j :: 0 <= i < j < n ==> ts[i] <= ts[j];
    var k := PruneDropsPrefix(ts, now);
    assert n - k < limit;
    SpacedAppend(h, now, limit);
  }

  lemma SpacedAppend(h: seq<Accept>, now: Time, limit: int)
    requires Spaced(h) && limit >= 1 && (forall i :: 0 <= i < |h| ==> h[i].at <= now)
    requires limit <= |h| ==> h[|h| - limit].at <= now - WINDOW
    ensures Spaced(h + [Accept(now, limit)])
  {
    var g, n := h + [Accept(now, limit)], |h|;
    assert forall i :: 0 <= i < n ==> g[i] == h[i];
    forall i | 0 <= i <= n && g[i].limit <= i
      ensures g[i - g[i].limit].at <= g[i].at - WINDOW
    {
      if i < n {
        assert h[i - h[i].limit].at <= h[i].at - WINDOW;
      }
    }
  }

  /** The requests admitted in the half-open interval of one window from `x`. */
  function AdmittedIn(h: seq<Accept>, x: Time): set<int> {
    set i | 0 <= i < |h| && x <= h[i].at < x + WINDOW
  }

  lemma {:induction false} IntervalSize(s: set<int>, lo: int, hi: int)
    requires lo <= hi && forall i :: i in s ==> lo <= i < hi
    ensures |s| <= hi - lo
    decreases hi - lo
  {
    if lo == hi {
      assert s == {};
    } else {
      IntervalSize(s - {lo}, lo + 1, hi);
    }
  }

  lemma LastOf(s: set<int>, member: int) returns (last: int)
    requires member in s
    ensures last in s && forall i :: i in s ==> i <= last
  {
    if next :| next in s && next > member {
      last := LastOf(s - {member}, next);
      assert s == (s - {member}) + {member};
    } else {
      last := member;
    }
  }

  /** No window of sixty seconds, wherever it starts, holds more admitted requests
      of a key than the largest limit that key was ever judged by. */
  lemma WindowBound(h: seq<Accept>, limit: nat, x: Time)
    requires Spaced(h) && LimitsWithin(h, limit)
    ensures |AdmittedIn(h, x)| <= limit
  {
    var s := AdmittedIn(h, x);
    if i :| i in s {
      var b := LastOf(s, i);
      var before := b - h[b].limit;
      assert before >= 0 ==> h[before].at < x;
      IntervalSize(s, before + 1, b + 1);
    }
  }

  // ------------------------------------------------------- which keys are bounded

  /** The limits a request to a bucket may be judged by: an aliased request brings
      the ordinary limit to an authentication bucket. */
  function LimitsOf(settings: Settings, key: string): set<int> {
    if EndsInAuth(key) then {settings.authRpm, settings.rpm} else {settings.rpm}
  }

  /** The most a bucket is meant to admit in one window. */
  function Quota(settings: Settings, key: string): nat {
    Max(0, KeyLimit(settings, key))
  }

  /** One request after the other, each admitted by a decision on those before it. */
  ghost predicate Reachable(h: seq<Accept>, limits: set<int>)
    decreases |h|
  {
    h == [] ||
    var n := |h| - 1;
    Reachable(h[..n], limits) && h[n].limit in limits && (forall i :: 0 <= i < n ==> h[i].at <= h[n].at) &&
    Decide(Times(h[..n]), h[n].at, h[n].limit) == Accepted
  }

  lemma {:induction false} ReachableIsSpaced(h: seq<Accept>, limits: set<int>)
    requires Reachable(h, limits)
    ensures Spaced(h) && forall i :: 0 <= i < |h| ==> h[i].limit in limits
    decreases |h|
  {
    if h != [] {
      hide Decide, Times, Spaced;
      var before, last := h[..|h| - 1], h[|h| - 1];
      ReachableIsSpaced(before, limits);
      assert forall i :: 0 <= i < |before| ==> before[i] == h[i];
      AcceptKeepsSpaced(before, last.at, last.limit);
      assert h == before + [Accept(last.at, last.limit)];
    }
  }

  lemma OneMore(h: seq<Accept>, a: Accept, limits: set<int>)
    requires Reachable(h, limits) && a.limit in limits && (forall i :: 0 <= i < |h| ==> h[i].at <= a.at)
    requires Decide(Times(h), a.at, a.limit) == Accepted
    ensures Reachable(h + [a], limits)
  {
    hide Decide, Times;
    assert (h + [a])[..|h|] == h;
  }

  function Burst(n: nat, limit: int): seq<Accept> {
    seq(n, i => Accept(0.0, limit))
  }

  /** As many requests as their limit allows, all at once. */
  lemma {:induction false} BurstIsReachable(n: nat, limit: int)
    requires n <= limit
    ensures Reachable(Burst(n, limit), {limit})
  {
    if n > 0 {
      var before, a := Burst(n - 1, limit), Accept(0.0, limit);
      BurstIsReachable(n - 1, limit);
      hide PruneWindow, Times, Reachable;
      OneMore(before, a, {limit});
      assert Burst(n, limit) == before + [a];
    }
  }

  lemma {:induction false} AllAdmitted(h: seq<Accept>, x: Time)
    requires forall i :: 0 <= i < |h| ==> x <= h[i].at < x + WINDOW
    ensures |AdmittedIn(h, x)| == |h|
    decreases |h|
  {
    if h == [] {
      assert AdmittedIn(h, x) == {};
    } else {
      var n := |h| - 1;
      AllAdmitted(h[..n], x);
      assert AdmittedIn(h, x) == AdmittedIn(h[..n], x) + {n};
    }
  }

  lemma {:induction false} ReachableWithMore(h: seq<Accept>, limits: set<int>, more: set<int>)
    requires Reachable(h, limits) && limits <= more
    ensures Reachable(h, more)
    decreases |h|
  {
    if h != [] {
      ReachableWithMore(h[..|h| - 1], limits, more);
    }
  }

  /** A burst of ordinary requests whose address spells out an authentication
      bucket's key is admitted in full. */
  lemma BurstExceeds(settings: Settings, key: string)
    requires EndsInAuth(key) && settings.rpm > Quota(settings, key)
    ensures var h := Burst(settings.rpm, settings.rpm);
            Reachable(h, LimitsOf(settings, key)) && |AdmittedIn(h, 0.0)| > Quota(settings, key)
  {
    var h := Burst(settings.rpm, settings.rpm);
    BurstIsReachable(settings.rpm, settings.rpm);
    AllAdmitted(h, 0.0);
    ReachableWithMore(h, {settings.rpm}, LimitsOf(settings, key));
  }

  /** Whatever arrives, a bucket admits no more than its quota in any window,
      exactly when it is an ordinary one or the ordinary limit is no larger. */
  lemma BoundedIff(settings: Settings, key: string)
    ensures (forall h, x :: Reachable(h, LimitsOf(settings, key)) ==> |AdmittedIn(h, x)| <= Quota(settings, key)) <==>
            !EndsInAuth(key) || settings.rpm <= Quota(settings, key)
  {
    hide Reachable, AdmittedIn;
    if EndsInAuth(key) && settings.rpm > Quota(settings, key) {
      BurstExceeds(settings, key);
    } else {
      forall h, x | Reachable(h, LimitsOf(settings, key))
        ensures |AdmittedIn(h, x)| <= Quota(settings, key)
      {
        ReachableIsSpaced(h, LimitsOf(settings, key));
        WindowBound(h, Quota(settings, key), x);
      }
    }
  }

  // --------------------------------------------------------------- retry after

  lemma RetryAfterRange(times: seq<Time>, now: Time, limit: int)
    requires Sorted(times) && (forall i :: 0 <= i < |times| ==> times[i] <= now)
    requires Decide(times, now, limit).Limited?
    ensures 1 <= Decide(times, now, limit).retryAfter <= 61
  {
    var k := PruneDropsPrefix(times, now);
  }

  /** Waiting as told is enough exactly when, by then, the time that is `limit`
      places from the newest has expired. */
  lemma RetryIff(times: seq<Time>, now: Time, limit: int, later: Time)
    requires Sorted(times) && limit >= 1 && now <= later
    requires Decide(times, now, limit).Limited?
    ensures Decide(times, later, limit) == Accepted <==> times[|times| - limit] <= later - WINDOW
  {
    var k := PruneDropsPrefix(times, now);
    var m := PruneDropsPrefix(times, later);
  }

  lemma TimesSorted(h: seq<Accept>, now: Time)
    requires SaneUpTo(h, now)
    ensures Sorted(Times(h)) && forall i :: 0 <= i < |h| ==> Times(h)[i] <= now
  {
  }

  /** A key judged by limits of at most `limit` never has more live times. */
  lemma LiveWithinLimit(h: seq<Accept>, ts: seq<Time>, now: Time, limit: int)
    requires SaneUpTo(h, now) && LimitsWithin(h, limit) && limit >= 1
    requires |ts| == |h| && Sorted(ts) && forall i :: 0 <= i < |h| ==> ts[i] == h[i].at
    ensures |PruneWindow(ts, now)| <= limit
  {
    var k := PruneDropsPrefix(ts, now);
    if h != [] {
      var before := |h| - 1 - h[|h| - 1].limit;
      if before >= 0 {
        assert h[before].at <= h[|h| - 1].at - WINDOW;
        assert ts[before] <= now - WINDOW;
      }
    }
  }

  /** The advertised wait outlives the time it was computed from. */
  lemma WaitExpires(t: Time, now: Time, later: Time)
    requires later >= now + ((WINDOW - (now - t)).Floor + 1) as real
    ensures t <= later - WINDOW
  {
    var r := WINDOW - (now - t);
    assert (r.Floor + 1) as real > r;
  }

  /** With exactly `limit` live times, the advertised wait is enough. */
  lemma WaitIsEnough(ts: seq<Time>, now: Time, limit: int, later: Time)
    requires Sorted(ts) && (forall i :: 0 <= i < |ts| ==> ts[i] <= now) && limit >= 1
    requires |PruneWindow(ts, now)| == limit
    requires later >= now + Decide(ts, now, limit).retryAfter as real
    ensures Decide(ts, later, limit) == Accepted
  {
    var k := PruneDropsPrefix(ts, now);
    assert PruneWindow(ts, now)[0] == ts[k];
    RetryAfterRange(ts, now, limit);
    WaitExpires(ts[k], now, later);
    RetryIff(ts, now, limit, later);
  }

  /** A key that is always judged by one limit is admitted when it comes back
      after the advertised wait, or any longer one, having been idle. */
  lemma RetryAdmits(h: seq<Accept>, now: Time, limit: int, later: Time)
    requires SaneUpTo(h, now) && LimitsWithin(h, limit) && limit >= 1
    requires Decide(Times(h), now, limit).Limited?
    requires later >= now + Decide(Times(h), now, limit).retryAfter as real
    ensures Decide(Times(h), later, limit) == Accepted
  {
    TimesSorted(h, now);
    LiveWithinLimit(h, Times(h), now, limit);
    WaitIsEnough(Times(h), now, limit, later);
  }

  // -------------------------------------------------------------- the middleware

  /** The buckets after a cleanup: pruned, and gone when empty. */
  function Cleaned(buckets: map<string, seq<Time>>, now: Time): map<string, seq<Time>> {
    map k | k in buckets && PruneWindow(buckets[k], now) != [] :: PruneWindow(buckets[k], now)
  }

  /** Part-way through a cleanup. */
  function PartlyPruned(buckets: map<string, seq<Time>>, remaining: set<string>, now: Time): map<string, seq<Time>> {
    map k | k in buckets :: if k in remaining then buckets[k] else PruneWindow(buckets[k], now)
  }

  function Emptied(buckets: map<string, seq<Time>>, remaining: set<string>, now: Time): set<string> {
    set k | k in buckets && k !in remaining && PruneWindow(buckets[k], now) == []
  }

  lemma PruneOneMore(buckets: map<string, seq<Time>>, remaining: set<string>, k: string, now: Time)
    requires k in remaining && k in buckets
    ensures var pruned, partly := PruneWindow(buckets[k], now), PartlyPruned(buckets, remaining, now);
            partly[k] == buckets[k] && PartlyPruned(buckets, remaining - {k}, now) == partly[k := pruned] &&
            Emptied(buckets, remaining - {k}, now) ==
            Emptied(buckets, remaining, now) + if pruned == [] then {k} else {}
  {
  }

  lemma CleanupDone(buckets: map<string, seq<Time>>, now: Time)
    ensures PartlyPruned(buckets, {}, now) - Emptied(buckets, {}, now) == Cleaned(buckets, now)
  {
  }

  function Bucket(buckets: map<string, seq<Time>>, key: string): seq<Time> {
    if key in buckets then buckets[key] else []
  }

  function HistoryOf(history: map<string, seq<Accept>>, key: string): seq<Accept> {
    if key in history then history[key] else []
  }

  ghost predicate Sane(history: map<string, seq<Accept>>, clock: Time) {
    forall k :: k in history ==> SaneUpTo(history[k], clock)
  }

  lemma SaneLater(history: map<string, seq<Accept>>, clock: Time, now: Time)
    requires Sane(history, clock) && clock <= now
    ensures Sane(history, now)
  {
    forall k | k in history
      ensures SaneUpTo(history[k], now)
    {
      assert SaneUpTo(history[k], clock);
    }
  }

  lemma SaneAppend(history: map<string, seq<Accept>>, now: Time, key: string, limit: int)
    requires Sane(history, now) && Decide(Times(HistoryOf(history, key)), now, limit) == Accepted
    ensures Sane(history[key := HistoryOf(history, key) + [Accept(now, limit)]], now)
  {
    var h := HistoryOf(history, key);
    assert SaneUpTo(h, now);
    AcceptKeepsSpaced(h, now, limit);
  }

  ghost predicate LimitsKnown(settings: Settings, history: map<string, seq<Accept>>, aliased: set<string>) {
    forall k :: k in history && k !in aliased ==> LimitsWithin(history[k], KeyLimit(settings, k))
  }

  lemma LimitsAppend(settings: Settings, history: map<string, seq<Accept>>, aliased: set<string>, now: Time,
                     key: string, limit: int)
    requires LimitsKnown(settings, history, aliased) && (key in aliased || limit == KeyLimit(settings, key))
    ensures LimitsKnown(settings, history[key := HistoryOf(history, key) + [Accept(now, limit)]], aliased)
  {
  }

  predicate AliasesEndInAuth(aliased: set<string>) {
    forall k :: k in aliased ==> EndsInAuth(k)
  }

  ghost predicate AllReachable(settings: Settings, history: map<string, seq<Accept>>) {
    forall k :: k in history ==> Reachable(history[k], LimitsOf(settings, k))
  }

  lemma ReachableAppend(settings: Settings, history: map<string, seq<Accept>>, clock: Time, now: Time, key: string,
                        limit: int)
    requires AllReachable(settings, history) && Sane(history, clock) && clock <= now
    requires limit in LimitsOf(settings, key) && Decide(Times(HistoryOf(history, key)), now, limit) == Accepted
    ensures AllReachable(settings, history[key := HistoryOf(history, key) + [Accept(now, limit)]])
  {
    hide Decide, Times, LimitsOf;
    var h := HistoryOf(history, key);
    assert key in history ==> SaneUpTo(history[key], clock);
    assert Reachable(h, LimitsOf(settings, key));
    OneMore(h, Accept(now, limit), LimitsOf(settings, key));
  }

  class RateLimiter {
    const settings: Settings
    var buckets: map<string, seq<Time>>
    var requests: nat
    ghost var history: map<string, seq<Accept>>
    ghost var clock: Time
    ghost var aliased: set<string>

    /** Every key's history is one that decisions lead to, on the window each
        bucket tells all of it, and only authentication buckets that an aliased
        request got into were judged by a foreign limit. */
    ghost predicate Valid()
      reads this
    {
      Sane(history, clock) && Agrees(buckets, history, clock) && LimitsKnown(settings, history, aliased) &&
      AllReachable(settings, history) && AliasesEndInAuth(aliased)
    }

    constructor (settings: Settings, clock: Time)
      ensures Valid() && this.settings == settings && history == map[] && this.clock == clock && aliased == {}
    {
      this.settings, this.clock := settings, clock;
      buckets, requests, history, aliased := map[], 0, map[], {};
    }

    /** Prunes every bucket once in a while. The clock is read afresh. */
    method MaybeCleanup(now: Time)
      modifies this`buckets, this`requests
      ensures requests == old(requests) + 1
      ensures buckets == if requests % 500 != 0 then old(buckets) else Cleaned(old(buckets), now)
    {
      requests := requests + 1;
      if requests % CLEANUP_INTERVAL != 0 {
        return;
      }
      var empty := PruneAll(now);
      CleanupDone(old(buckets), now);
      buckets := buckets - empty;
    }

    method PruneAll(now: Time) returns (empty: set<string>)
      modifies this`buckets
      ensures buckets == PartlyPruned(old(buckets), {}, now) && empty == Emptied(old(buckets), {}, now)
    {
      empty := {};
      var remaining := buckets.Keys;
      assert buckets == PartlyPruned(buckets, remaining, now);
      while remaining != {}
        invariant remaining <= old(buckets).Keys
        invariant buckets == PartlyPruned(old(buckets), remaining, now)
        invariant empty == Emptied(old(buckets), remaining, now)
        decreases remaining
      {
        var ip :| ip in remaining;
        PruneOneMore(old(buckets), remaining, ip, now);
        remaining := remaining - {ip};
        buckets := buckets[ip := PruneWindow(buckets[ip], now)];
        if buckets[ip] == [] {
          empty := empty + {ip};
        }
      }
    }

    /** One request. The decision is the one the full history of the key calls
        for; the history grows by the request exactly when it is accepted. */
    method Dispatch(path: string, ip: string, now: Time, cleanupNow: Time) returns (outcome: Outcome)
      requires Valid() && clock <= now <= cleanupNow
      modifies this
      ensures Valid() && old(clock) <= clock <= cleanupNow
      ensures var key, limit := BucketKey(ip, path), LimitFor(settings, path);
              var h := HistoryOf(old(history), key);
              outcome == (if path in EXEMPT_PATHS then Exempt else Decide(Times(h), now, limit)) &&
              (history ==
               if outcome == Accepted then old(history)[key := h + [Accept(now, limit)]] else old(history)) &&
              aliased == if outcome == Accepted && Aliased(ip, path) then old(aliased) + {key} else old(aliased)
    {
      hide Sane, AllReachable;
      if path in EXEMPT_PATHS {
        return Exempt;
      }
      var limit, key := LimitFor(settings, path), BucketKey(ip, path);
      AgreesLater(buckets, history, clock, now, key);
      assert AgreesAt(buckets, history, clock, key);
      AgreesOnWindow(buckets, history, clock, now, key);
      SaneLater(history, clock, now);
      buckets := buckets[key := PruneWindow(Bucket(buckets, key), now)];
      clock := now;
      if |buckets[key]| >= limit {
        if buckets[key] == [] {
          return Crashed;
        }
        var retryAfter := (WINDOW - (now - buckets[key][0])).Floor + 1;
        return Limited(retryAfter);
      }
      LimitOfKeyUnlessAliased(settings, ip, path);
      aliased := if Aliased(ip, path) then aliased + {key} else aliased;
      Admit(key, limit, now, cleanupNow);
      outcome := Accepted;
    }

    /** Records an accepted request, and cleans up once in a while. */
    method Admit(key: string, limit: int, now: Time, cleanupNow: Time)
      requires Valid() && clock == now <= cleanupNow && key in buckets
      requires Decide(Times(HistoryOf(history, key)), now, limit) == Accepted
      requires limit in LimitsOf(settings, key) && (key in aliased || limit == KeyLimit(settings, key))
      modifies this`buckets, this`requests, this`history, this`clock
      ensures Valid() && now <= clock <= cleanupNow
      ensures history == old(history)[key := HistoryOf(old(history), key) + [Accept(now, limit)]]
    {
      hide Sane, Agrees, LimitsKnown, AllReachable, LimitsOf, Decide, Times;
      SaneAppend(history, now, key, limit);
      AgreesAppend(buckets, history, now, key, limit);
      LimitsAppend(settings, history, aliased, now, key, limit);
      ReachableAppend(settings, history, now, now, key, limit);
      history := history[key := HistoryOf(history, key) + [Accept(now, limit)]];
      buckets := buckets[key := buckets[key] + [now]];
      Settle(cleanupNow);
    }

    /** The cleanup loses nothing that a later decision could need. */
    method Settle(cleanupNow: Time)
      requires Valid() && clock <= cleanupNow
      modifies this`buckets, this`requests, this`clock
      ensures Valid() && old(clock) <= clock <= cleanupNow
    {
      AgreesCleaned(buckets, history, clock, cleanupNow);
      SaneLater(history, clock, cleanupNow);
      MaybeCleanup(cleanupNow);
      if requests % CLEANUP_INTERVAL == 0 {
        clock := cleanupNow;
      }
    }
  }

  /** On the window ending at `clock`, the bucket of a key tells its history. */
  ghost predicate AgreesAt(buckets: map<string, seq<Time>>, history: map<string, seq<Accept>>, clock: Time, k: string) {
    PruneWindow(Bucket(buckets, k), clock) == PruneWindow(Times(HistoryOf(history, k)), clock)
  }

  ghost predicate Agrees(buckets: map<string, seq<Time>>, history: map<string, seq<Accept>>, clock: Time) {
    forall k: string :: AgreesAt(buckets, history, clock, k)
  }

  /** At any later time the bucket and the history still agree on the window. */
  lemma AgreesOnWindow(buckets: map<string, seq<Time>>, history: map<string, seq<Accept>>, clock: Time, now: Time,
                       key: string)
    requires AgreesAt(buckets, history, clock, key) && clock <= now
    ensures AgreesAt(buckets, history, now, key)
  {
    PruneTwice(Bucket(buckets, key), clock, now);
    PruneTwice(Times(HistoryOf(history, key)), clock, now);
  }

  lemma AgreesLater(before: map<string, seq<Time>>, history: map<string, seq<Accept>>, clock: Time, now: Time,
                    key: string)
    requires Agrees(before, history, clock) && clock <= now
    ensures Agrees(before[key := PruneWindow(Bucket(before, key), now)], history, now)
  {
    var after := before[key := PruneWindow(Bucket(before, key), now)];
    forall k: string
      ensures AgreesAt(after, history, now, k)
    {
      assert AgreesAt(before, history, clock, k);
      AgreesOnWindow(before, history, clock, now, k);
      PruneTwice(Bucket(before, k), now, now);
    }
  }

  lemma AgreesCleaned(before: map<string, seq<Time>>, history: map<string, seq<Accept>>, clock: Time, now: Time)
    requires Agrees(before, history, clock) && clock <= now
    ensures Agrees(Cleaned(before, now), history, now)
  {
    forall k: string
      ensures AgreesAt(Cleaned(before, now), history, now, k)
    {
      assert AgreesAt(before, history, clock, k);
      AgreesOnWindow(before, history, clock, now, k);
      PruneTwice(Bucket(before, k), now, now);
    }
  }

  lemma AgreesAppend(buckets: map<string, seq<Time>>, history: map<string, seq<Accept>>, now: Time, key: string,
                     limit: int)
    requires Agrees(buckets, history, now)
    ensures Agrees(buckets[key := Bucket(buckets, key) + [now]],
                   history[key := HistoryOf(history, key) + [Accept(now, limit)]], now)
  {
    var h := HistoryOf(history, key);
    var after, longer := buckets[key := Bucket(buckets, key) + [now]], history[key := h + [Accept(now, limit)]];
    forall k: string
      ensures AgreesAt(after, longer, now, k)
    {
      assert AgreesAt(buckets, history, now, k);
      if k == key {
        AppendBoth(Bucket(buckets, key), h, now, limit);
      }
    }
  }

  lemma AppendBoth(bucket: seq<Time>, h: seq<Accept>, now: Time, limit: int)
    requires PruneWindow(bucket, now) == PruneWindow(Times(h), now)
    ensures PruneWindow(bucket + [now], now) == PruneWindow(Times(h + [Accept(now, limit)]), now)
  {
    assert Times(h + [Accept(now, limit)]) == Times(h) + [now];
    PruneAppend(bucket, now, now);
    PruneAppend(Times(h), now, now);
  }

  /** Every window of every key, at any point of a run: no more admitted requests
      than the quota of the key, unless an aliased request was let into it under
      a larger limit. */
  lemma EveryWindowBounded(limiter: RateLimiter, key: string, x: Time)
    requires limiter.Valid() && (key !in limiter.aliased || limiter.settings.rpm <= Quota(limiter.settings, key))
    ensures |AdmittedIn(HistoryOf(limiter.history, key), x)| <= Quota(limiter.settings, key)
  {
    if key in limiter.history {
      var h := limiter.history[key];
      ReachableIsSpaced(h, LimitsOf(limiter.settings, key));
      WindowBound(h, Quota(limiter.settings, key), x);
    } else {
      assert AdmittedIn([], x) == {};
    }
  }

  /** A request to the bucket that is judged by the limit. */
  ghost predicate Asks(settings: Settings, key: string, limit: int, path: string, ip: string) {
    path !in EXEMPT_PATHS && BucketKey(ip, path) == key && LimitFor(settings, path) == limit
  }

  /** There is one for each of the bucket's limits. */
  method RequestFor(settings: Settings, key: string, limit: int) returns (path: string, ip: string)
    requires limit in LimitsOf(settings, key)
    ensures Asks(settings, key, limit, path, ip)
  {
    if limit == settings.rpm {
      path, ip := "/x", key;
      assert path[0..1] != "/a" && !("/auth/login" <= path);
    } else {
      path, ip := "/auth/login", key[..|key| - 5];
      assert ip + ":auth" == key;
    }
  }

  method ReplayOne(limiter: RateLimiter, key: string, a: Accept)
    requires limiter.Valid() && limiter.clock <= a.at && a.limit in LimitsOf(limiter.settings, key)
    requires Decide(Times(HistoryOf(limiter.history, key)), a.at, a.limit) == Accepted
    modifies limiter
    ensures limiter.Valid() && limiter.clock <= a.at
    ensures HistoryOf(limiter.history, key) == HistoryOf(old(limiter.history), key) + [a]
  {
    hide Decide, Times, LimitsOf, LimitFor, BucketKey, Aliased;
    var path, ip := RequestFor(limiter.settings, key, a.limit);
    var outcome := limiter.Dispatch(path, ip, a.at, a.at);
  }

  /** Every reachable history of a key is that of some run of the limiter, as the
      history of any run is reachable. */
  method Replay(settings: Settings, key: string, h: seq<Accept>, start: Time) returns (limiter: RateLimiter)
    requires Reachable(h, LimitsOf(settings, key)) && forall i :: 0 <= i < |h| ==> start <= h[i].at
    ensures fresh(limiter) && limiter.Valid() && limiter.settings == settings && HistoryOf(limiter.history, key) == h
    ensures limiter.clock <= if h == [] then start else h[|h| - 1].at
    decreases |h|
  {
    hide Decide, Times, LimitsOf, Sane, Agrees, LimitsKnown, AllReachable;
    if h == [] {
      limiter := new RateLimiter(settings, start);
    } else {
      var before, last := h[..|h| - 1], h[|h| - 1];
      limiter := Replay(settings, key, before, start);
      ReplayOne(limiter, key, last);
      assert before + [last] == h;
    }
  }
}
