// The fixed-window rate limiter of the public routes.

module RateLimit {

  datatype Bucket = Bucket(count: int, resetAt: int)

  /** A request with its key (path and client address) and the time it arrives. */
  datatype Request = Request(key: string, at: int)

  datatype Verdict = Passed | Limited(retryAfter: int)

  const WINDOW_MS: int := 60_000

  type Buckets = map<string, Bucket>

  predicate Opens(b: Buckets, r: Request) {
    r.key !in b || r.at >= b[r.key].resetAt
  }

  function After(b: Buckets, r: Request): Buckets {
    if Opens(b, r) then b[r.key := Bucket(1, r.at + WINDOW_MS)]
    else b[r.key := b[r.key].(count := b[r.key].count + 1)]
  }

  function Decide(b: Buckets, r: Request, max: int): Verdict {
    if Opens(b, r) || b[r.key].count + 1 <= max then Passed
    else Limited((b[r.key].resetAt - r.at + 999) / 1000)
  }

  /** The buckets after the first n requests. */
  function BucketsAt(h: seq<Request>, n: nat): Buckets
    requires n <= |h|
  {
    if n == 0 then map[] else After(BucketsAt(h, n - 1), h[n - 1])
  }

  function VerdictAt(h: seq<Request>, n: nat, max: int): Verdict
    requires n < |h|
  {
    Decide(BucketsAt(h, n), h[n], max)
  }

  predicate Clocked(h: seq<Request>) {
    forall i, j | 0 <= i < j < |h| :: h[i].at <= h[j].at
  }

  /** How many of the first n requests have the key, arrive in [from, from + 60000) and pass. */
  function PassedIn(h: seq<Request>, key: string, max: int, from: int, n: nat): nat
    requires n <= |h|
  {
    if n == 0 then 0
    else
      PassedIn(h, key, max, from, n - 1)
      + if h[n - 1].key == key && from <= h[n - 1].at < from + 60_000 && VerdictAt(h, n - 1, max).Passed? then 1 else 0
  }

  /** A window always admits the request that opens it. */
  function Cap(max: int): int {
    if max < 1 then 1 else max
  }

  function Lesser(a: int, b: int): int {
    if a < b then a else b
  }

  // ---- The sliding bound ----

  lemma {:induction false} NoneBefore(h: seq<Request>, key: string, max: int, from: int, n: nat)
    requires n <= |h| && forall i | 0 <= i < n :: h[i].at < from
    ensures PassedIn(h, key, max, from, n) == 0
  {
    if n > 0 {
      NoneBefore(h, key, max, from, n - 1);
    }
  }

  /** While the interval lasts: what has passed in it, against the window that is open. */
  lemma {:induction false} BoundedByWindow(h: seq<Request>, key: string, max: int, from: int, n: nat)
    requires Clocked(h) && n <= |h| && forall i | 0 <= i < n :: h[i].at < from + 60_000
    ensures var passed, b := PassedIn(h, key, max, from, n), BucketsAt(h, n);
            if key !in b then passed == 0
            else
              var inWindow := Lesser(b[key].count, Cap(max));
              && b[key].count >= 1
              && passed <= inWindow - 1 + if b[key].resetAt - 60_000 >= from then Cap(max) else 0
  {
    if n > 0 {
      BoundedByWindow(h, key, max, from, n - 1);
      if h[n - 1].at < from {
        NoneBefore(h, key, max, from, n);
      }
    }
  }

  /** Any half-open interval of a minute admits at most 2 * max - 1 requests per key
      (one, when max is below one). */
  lemma {:induction false} SlidingBound(h: seq<Request>, key: string, max: int, from: int, n: nat)
    requires Clocked(h) && n <= |h|
    ensures PassedIn(h, key, max, from, n) <= 2 * Cap(max) - 1
  {
    if n > 0 {
      if h[n - 1].at >= from + 60_000 {
        SlidingBound(h, key, max, from, n - 1);
      } else {
        BoundedByWindow(h, key, max, from, n);
      }
    }
  }

  /** Opens a window at time 0, fills it just before it ends, and fills the next at once. */
  function Burst(key: string, max: nat): seq<Request> {
    seq(2 * max, i => Request(key, if i == 0 then 0 else if i < max then 59_999 else 60_000))
  }

  lemma {:induction false} BurstPasses(key: string, max: nat, n: nat)
    requires 1 <= max && n <= 2 * max
    ensures n > 0 ==> key in BucketsAt(Burst(key, max), n)
                      && BucketsAt(Burst(key, max), n)[key]
                      == if n <= max then Bucket(n, 60_000) else Bucket(n - max, 120_000)
    ensures PassedIn(Burst(key, max), key, max, 1, n) == if n == 0 then 0 else n - 1
  {
    if n > 0 {
      BurstPasses(key, max, n - 1);
    }
  }

  /** No smaller bound would do. */
  lemma BoundIsTight(key: string, max: nat)
    requires 1 <= max
    ensures Clocked(Burst(key, max))
    ensures PassedIn(Burst(key, max), key, max, 1, |Burst(key, max)|) == 2 * max - 1
  {
    BurstPasses(key, max, 2 * max);
  }

  // ---- Retry-After ----

  lemma {:induction false} OpenBucket(h: seq<Request>, key: string, n: nat)
    requires Clocked(h) && n <= |h| && key in BucketsAt(h, n)
    ensures n > 0 && BucketsAt(h, n)[key].resetAt <= h[n - 1].at + 60_000 && BucketsAt(h, n)[key].count >= 1
  {
    if key in BucketsAt(h, n - 1) {
      OpenBucket(h, key, n - 1);
    }
  }

  /** Retry-After lies in 1..60 and is the least whole number of seconds after which the
      refused client, if it stays silent, is let through again. */
  lemma RetryAfterExact(h: seq<Request>, n: nat, max: int, wait: nat)
    requires Clocked(h) && n < |h| && VerdictAt(h, n, max).Limited?
    ensures var retryAfter := VerdictAt(h, n, max).retryAfter;
            && 1 <= retryAfter <= 60
            && (Decide(BucketsAt(h, n + 1), Request(h[n].key, h[n].at + 1000 * wait), max).Passed?
                <==> wait >= retryAfter)
  {
    OpenBucket(h, h[n].key, n);
  }

  /** Whatever else happens, a request after the wait is not counted in the refused window. */
  lemma RefusedWindowEnds(h: seq<Request>, n: nat, m: nat, max: int)
    requires Clocked(h) && n < m < |h| && VerdictAt(h, n, max).Limited? && h[m].key == h[n].key
    requires h[m].at >= h[n].at + 1000 * VerdictAt(h, n, max).retryAfter
    ensures h[n].key in BucketsAt(h, n) && h[n].key in BucketsAt(h, m + 1)
    ensures BucketsAt(h, m + 1)[h[n].key].resetAt != BucketsAt(h, n)[h[n].key].resetAt
  {
  }

  // ---- Keys are independent ----

  function Only(h: seq<Request>, key: string): seq<Request> {
    if h == [] then []
    else Only(h[..|h| - 1], key) + if h[|h| - 1].key == key then [h[|h| - 1]] else []
  }

  lemma {:induction false} PrefixBuckets(h: seq<Request>, tail: seq<Request>, n: nat)
    requires n <= |h|
    ensures BucketsAt(h + tail, n) == BucketsAt(h, n)
  {
    if n > 0 {
      PrefixBuckets(h, tail, n - 1);
    }
  }

  /** What a key is told depends on the requests of that key alone. */
  lemma {:induction false} KeysIndependent(h: seq<Request>, r: Request, max: int)
    ensures Decide(BucketsAt(h, |h|), r, max)
         == Decide(BucketsAt(Only(h, r.key), |Only(h, r.key)|), r, max)
    ensures r.key in BucketsAt(h, |h|) <==> r.key in BucketsAt(Only(h, r.key), |Only(h, r.key)|)
    ensures r.key in BucketsAt(h, |h|) ==>
              BucketsAt(h, |h|)[r.key] == BucketsAt(Only(h, r.key), |Only(h, r.key)|)[r.key]
  {
    if h != [] {
      var before, last := h[..|h| - 1], h[|h| - 1];
      KeysIndependent(before, r, max);
      assert before + [last] == h;
      PrefixBuckets(before, [last], |before|);
      if last.key == r.key {
        PrefixBuckets(Only(before, r.key), [last], |Only(before, r.key)|);
      } else {
        assert Only(h, r.key) == Only(before, r.key);
      }
    }
  }

  // ---- The limiter ----

  class Limiter {
    const maxPerMinute: int
    var buckets: Buckets

    constructor (maxPerMinute: int)
      ensures this.maxPerMinute == maxPerMinute && buckets == BucketsAt([], 0)
    {
      this.maxPerMinute := maxPerMinute;
      buckets := map[];
    }

    method Handle(key: string, now: int) returns (verdict: Verdict)
      modifies this
      ensures buckets == After(old(buckets), Request(key, now))
      ensures verdict == Decide(old(buckets), Request(key, now), maxPerMinute)
    {
      if key !in buckets || now >= buckets[key].resetAt {
        buckets := buckets[key := Bucket(1, now + WINDOW_MS)];
        return Passed;
      }
      buckets := buckets[key := buckets[key].(count := buckets[key].count + 1)];
      if buckets[key].count > maxPerMinute {
        return Limited((buckets[key].resetAt - now + 999) / 1000);
      }
      verdict := Passed;
    }
  }
}
