/** The fixed-window rate limiter: one Redis counter per subject, action and window, with an expiry set
    on its first hit. The model follows one subject and action; the key is then the window number. */
module RateLimit {
  import opened Domain

  const MS_PER_SECOND: int := 1000

  datatype Counter = Counter(count: int, expiresAt: int)

  function Bucket(nowMs: nat, windowMs: int): int
    requires 0 < windowMs
  {
    nowMs / windowMs
  }

  // Keys whose time has come are gone.
  function Expire(counters: map<int, Counter>, nowMs: int): map<int, Counter>
  {
    map b | b in counters && nowMs < counters[b].expiresAt :: counters[b]
  }

  // INCR, and PEXPIRE with one second of slack when the counter was just created.
  function Hit(counters: map<int, Counter>, nowMs: nat, windowMs: int): map<int, Counter>
    requires 0 < windowMs
  {
    var live, b := Expire(counters, nowMs), Bucket(nowMs, windowMs);
    live[b := if b in live then Counter(live[b].count + 1, live[b].expiresAt)
              else Counter(1, nowMs + windowMs + MS_PER_SECOND)]
  }

  predicate Allowed(counters: map<int, Counter>, nowMs: nat, windowMs: int, limit: int)
    requires 0 < windowMs
  {
    Hit(counters, nowMs, windowMs)[Bucket(nowMs, windowMs)].count <= limit
  }

  class RateLimiter {
    var counters: map<int, Counter>

    constructor ()
      ensures counters == map[]
    {
      counters := map[];
    }

    method CheckRateLimit(nowMs: nat, windowSeconds: int, limit: int) returns (allowed: bool)
      requires 0 < windowSeconds
      modifies this
      ensures counters == Hit(old(counters), nowMs, windowSeconds * MS_PER_SECOND)
      ensures allowed <==> Allowed(old(counters), nowMs, windowSeconds * MS_PER_SECOND, limit)
    {
      var windowMs := windowSeconds * MS_PER_SECOND;
      var bucket := Bucket(nowMs, windowMs);
      counters := Expire(counters, nowMs);
      var count := 1 + (if bucket in counters then counters[bucket].count else 0);
      if count == 1 && bucket !in counters {
        counters := counters[bucket := Counter(1, nowMs + windowMs + MS_PER_SECOND)];
      } else {
        counters := counters[bucket := Counter(count, counters[bucket].expiresAt)];
      }
      return count <= limit;
    }
  }

  // ----- Runs -----

  predicate Nondecreasing(times: seq<nat>) { forall i, j :: 0 <= i <= j < |times| ==> times[i] <= times[j] }

  // The store and the verdicts after a sequence of requests.
  function Serve(times: seq<nat>, windowMs: int, limit: int): (map<int, Counter>, seq<bool>)
    requires 0 < windowMs
    decreases |times|
  {
    if times == [] then (map[], [])
    else
      var n := |times| - 1;
      var (counters, verdicts) := Serve(times[..n], windowMs, limit);
      (Hit(counters, times[n], windowMs), verdicts + [Allowed(counters, times[n], windowMs, limit)])
  }

  // Requests that fall into window b.
  function Attempts(times: seq<nat>, windowMs: int, b: int): nat
    requires 0 < windowMs
    decreases |times|
  {
    if times == [] then 0
    else
      var n := |times| - 1;
      Attempts(times[..n], windowMs, b) + (if Bucket(times[n], windowMs) == b then 1 else 0)
  }

  // Granted requests with a time in [from, to).
  function Granted(times: seq<nat>, verdicts: seq<bool>, from: int, to: int): nat
    requires |times| == |verdicts|
    decreases |times|
  {
    if times == [] then 0
    else
      var n := |times| - 1;
      Granted(times[..n], verdicts[..n], from, to) + (if verdicts[n] && from <= times[n] < to then 1 else 0)
  }

  lemma BucketBounds(nowMs: nat, windowMs: int)
    requires 0 < windowMs
    ensures windowMs * Bucket(nowMs, windowMs) <= nowMs < windowMs * Bucket(nowMs, windowMs) + windowMs
  {
  }

  lemma SameBucket(nowMs: nat, windowMs: int, b: int)
    requires 0 < windowMs
    ensures Bucket(nowMs, windowMs) == b <==> windowMs * b <= nowMs < windowMs * b + windowMs
  {
    var q := Bucket(nowMs, windowMs);
    BucketBounds(nowMs, windowMs);
    var d := q - b;
    assert windowMs * d == windowMs * q - windowMs * b;
    if 1 <= d {
      assert windowMs <= windowMs * d;
    } else if d <= -1 {
      assert windowMs * d <= -windowMs;
    }
  }

  // A counter outlives its window and counts its requests; a window without a counter that had
  // requests is over.
  ghost predicate Faithful(counters: map<int, Counter>, times: seq<nat>, windowMs: int)
    requires 0 < windowMs
  {
    forall b ::
      && (b in counters ==> counters[b].count == Attempts(times, windowMs, b) && windowMs * b + windowMs < counters[b].expiresAt)
      && (b !in counters && 0 < Attempts(times, windowMs, b) ==>
            times != [] && windowMs * b + windowMs <= times[|times| - 1])
  }

  lemma HitFaithful(counters: map<int, Counter>, times: seq<nat>, now: nat, windowMs: int)
    requires 0 < windowMs && Faithful(counters, times, windowMs)
    requires times != [] ==> times[|times| - 1] <= now
    ensures Faithful(Hit(counters, now, windowMs), times + [now], windowMs)
    ensures Hit(counters, now, windowMs)[Bucket(now, windowMs)].count == Attempts(times, windowMs, Bucket(now, windowMs)) + 1
  {
    var next, after := Hit(counters, now, windowMs), times + [now];
    assert after[..|after| - 1] == times;
    BucketBounds(now, windowMs);
    forall b
      ensures b in next ==> next[b].count == Attempts(after, windowMs, b) && windowMs * b + windowMs < next[b].expiresAt
      ensures b !in next && 0 < Attempts(after, windowMs, b) ==> windowMs * b + windowMs <= now
    {
      assert Attempts(after, windowMs, b) == Attempts(times, windowMs, b) + (if Bucket(now, windowMs) == b then 1 else 0);
    }
  }

  // The counter never expires inside its window, so a request is granted exactly when fewer than
  // `limit` came before it in the same window.
  lemma {:induction false} FirstOnesGranted(times: seq<nat>, windowMs: int, limit: int)
    requires 0 < windowMs && Nondecreasing(times)
    ensures var (counters, verdicts) := Serve(times, windowMs, limit);
      && |verdicts| == |times|
      && Faithful(counters, times, windowMs)
      && forall i :: 0 <= i < |times| ==>
           (verdicts[i] <==> Attempts(times[..i], windowMs, Bucket(times[i], windowMs)) < limit)
    decreases |times|
  {
    if times != [] {
      var n := |times| - 1;
      var front := times[..n];
      FirstOnesGranted(front, windowMs, limit);
      HitFaithful(Serve(front, windowMs, limit).0, front, times[n], windowMs);
      assert times == front + [times[n]];
      hide Faithful, Hit, Attempts, Bucket;
      forall i | 0 <= i < n
        ensures times[..i] == front[..i]
      {
      }
    }
  }

  predicate Granting(times: seq<nat>, verdicts: seq<bool>, windowMs: int, limit: int)
    requires 0 < windowMs
  {
    && |verdicts| == |times|
    && forall i :: 0 <= i < |times| ==>
         (verdicts[i] <==> Attempts(times[..i], windowMs, Bucket(times[i], windowMs)) < limit)
  }

  lemma {:induction false} WindowCount(times: seq<nat>, verdicts: seq<bool>, windowMs: int, limit: int, b: int)
    requires 0 < windowMs && Granting(times, verdicts, windowMs, limit)
    ensures Granted(times, verdicts, windowMs * b, windowMs * b + windowMs)
         == Max(0, Min(limit, Attempts(times, windowMs, b)))
    decreases |times|
  {
    if times != [] {
      var n := |times| - 1;
      var front := times[..n];
      forall i | 0 <= i < n
        ensures verdicts[..n][i] <==> Attempts(front[..i], windowMs, Bucket(front[i], windowMs)) < limit
      {
        assert times[..i] == front[..i];
      }
      WindowCount(front, verdicts[..n], windowMs, limit, b);
      SameBucket(times[n], windowMs, b);
    }
  }

  // Exactly min(limit, attempts) grants in every window.
  lemma WindowLimit(times: seq<nat>, windowMs: int, limit: int, b: int)
    requires 0 < windowMs && Nondecreasing(times)
    ensures |Serve(times, windowMs, limit).1| == |times|
    ensures Granted(times, Serve(times, windowMs, limit).1, windowMs * b, windowMs * b + windowMs)
         == Max(0, Min(limit, Attempts(times, windowMs, b)))
  {
    FirstOnesGranted(times, windowMs, limit);
    WindowCount(times, Serve(times, windowMs, limit).1, windowMs, limit, b);
  }

  lemma {:induction false} GrantedSplits(times: seq<nat>, verdicts: seq<bool>, from: int, to: int, lo: int, mid: int, hi: int)
    requires |times| == |verdicts| && lo <= from && to <= hi
    ensures Granted(times, verdicts, from, to) <= Granted(times, verdicts, lo, mid) + Granted(times, verdicts, mid, hi)
    decreases |times|
  {
    if times != [] {
      var n := |times| - 1;
      GrantedSplits(times[..n], verdicts[..n], from, to, lo, mid, hi);
    }
  }

  // Any interval as long as one window meets two windows, so it holds at most twice the limit.
  lemma IntervalLimit(times: seq<nat>, windowMs: int, limit: int, from: nat)
    requires 0 < windowMs && Nondecreasing(times)
    ensures |Serve(times, windowMs, limit).1| == |times|
    ensures Granted(times, Serve(times, windowMs, limit).1, from, from + windowMs) <= 2 * Max(0, limit)
  {
    var verdicts, b := Serve(times, windowMs, limit).1, Bucket(from, windowMs);
    WindowLimit(times, windowMs, limit, b);
    WindowLimit(times, windowMs, limit, b + 1);
    BucketBounds(from, windowMs);
    assert windowMs * (b + 1) == windowMs * b + windowMs;
    GrantedSplits(times, verdicts, from, from + windowMs,
                  windowMs * b, windowMs * (b + 1), windowMs * (b + 1) + windowMs);
  }

  // In the caller's terms, for a window of whole seconds on a clock of milliseconds: exactly
  // min(limit, attempts) of the requests between b and b + 1 windows are granted.
  lemma SecondsLimit(times: seq<nat>, windowSeconds: int, limit: int, b: int)
    requires 0 < windowSeconds && Nondecreasing(times)
    ensures var verdicts := Serve(times, windowSeconds * MS_PER_SECOND, limit).1;
      && |verdicts| == |times|
      && Granted(times, verdicts, windowSeconds * 1000 * b, windowSeconds * 1000 * b + windowSeconds * 1000)
           == Max(0, Min(limit, Attempts(times, windowSeconds * 1000, b)))
  {
    WindowLimit(times, windowSeconds * MS_PER_SECOND, limit, b);
  }
}
