/**
 What the usage counters guarantee over a whole sequence of requests by one bearer: each request
 bumps the counters and is then decided against the tallies that include it.
 */
module UsageLimits {
  import opened Bytes
  import opened Broker
  import opened Decision

  /** The counters after the first `n` requests. */
  function Tallies(trace: seq<Query>, n: nat): BearerCounters
    requires n <= |trace|
  {
    if n == 0 then FRESH_COUNTERS
    else Bumped(Tallies(trace, n - 1), trace[n - 1].nowMs, trace[n - 1].req.bytesOut)
  }

  /** Request `i` as `decide` sees it, with the tallies that include it. */
  function Presented(trace: seq<Query>, i: nat): Query
    requires i < |trace|
  {
    var c := Tallies(trace, i + 1);
    trace[i].(req := trace[i].req.(usageRequests := c.totalRequests, usageBytes := c.totalBytes,
                                   rateInWindow := c.inWindow))
  }

  predicate Allowed(trace: seq<Query>, i: nat)
    requires i < |trace|
  {
    Decide(Presented(trace, i)) == Allow
  }

  /** How many of the requests `lo` up to `hi` were allowed. */
  function AllowedIn(trace: seq<Query>, lo: nat, hi: nat): nat
    requires lo <= hi <= |trace|
  {
    if lo == hi then 0 else AllowedIn(trace, lo, hi - 1) + if Allowed(trace, hi - 1) then 1 else 0
  }

  function AllowedBytes(trace: seq<Query>, n: nat): nat
    requires n <= |trace|
  {
    if n == 0 then 0
    else AllowedBytes(trace, n - 1) + if Allowed(trace, n - 1) then trace[n - 1].req.bytesOut else 0
  }

  function OfferedBytes(trace: seq<Query>, n: nat): nat
    requires n <= |trace|
  {
    if n == 0 then 0 else OfferedBytes(trace, n - 1) + trace[n - 1].req.bytesOut
  }

  ghost predicate OnePolicy(trace: seq<Query>, p: RelayPolicy) {
    forall i :: 0 <= i < |trace| ==> trace[i].p == p
  }

  /** Every policy the requests met had a limit, and none above this. */
  ghost predicate RequestQuota(trace: seq<Query>, quota: nat) {
    forall i :: 0 <= i < |trace| ==> trace[i].p.quotaTotalRequests.Some? && trace[i].p.quotaTotalRequests.value <= quota
  }

  ghost predicate ByteQuota(trace: seq<Query>, quota: nat) {
    forall i :: 0 <= i < |trace| ==> trace[i].p.quotaTotalBytes.Some? && trace[i].p.quotaTotalBytes.value <= quota
  }

  ghost predicate RateLimit(trace: seq<Query>, rate: nat) {
    forall i :: 0 <= i < |trace| ==> trace[i].p.ratePerMin.Some? && trace[i].p.ratePerMin.value <= rate
  }

  // ---- totals ----

  /** The saturating totals are the true totals until they reach the top of u64. */
  lemma {:induction false} TotalsAreExact(trace: seq<Query>, n: nat)
    requires n <= |trace|
    ensures Tallies(trace, n).totalRequests == Min(n, U64_MAX)
    ensures Tallies(trace, n).totalBytes == Min(OfferedBytes(trace, n), U64_MAX)
  {
    if n > 0 {
      TotalsAreExact(trace, n - 1);
    }
  }

  lemma BudgetsOfAllowed(trace: seq<Query>, i: nat)
    requires i < |trace| && Allowed(trace, i)
    ensures var p := trace[i].p;
      && (p.quotaTotalRequests.Some? ==> Min(i + 1, U64_MAX) <= p.quotaTotalRequests.value)
      && (p.quotaTotalBytes.Some? ==> Min(OfferedBytes(trace, i + 1), U64_MAX) <= p.quotaTotalBytes.value)
      && (p.ratePerMin.Some? ==> Tallies(trace, i + 1).inWindow < p.ratePerMin.value)
  {
    var q := Presented(trace, i);
    TotalsAreExact(trace, i + 1);
    AllowIffEveryClause(q);
    assert Holds(15, q) && Holds(16, q) && Holds(17, q);
  }

  /** At most the request quota is ever allowed, whatever else is offered in between. */
  lemma {:induction false} RequestQuotaHolds(trace: seq<Query>, quota: nat, n: nat)
    requires RequestQuota(trace, quota) && quota < U64_MAX && n <= |trace|
    ensures AllowedIn(trace, 0, n) <= Min(n, quota)
  {
    if n > 0 {
      RequestQuotaHolds(trace, quota, n - 1);
      if Allowed(trace, n - 1) {
        BudgetsOfAllowed(trace, n - 1);
      }
    }
  }

  /** The bytes of the allowed requests never add up to more than the byte quota. */
  lemma {:induction false} ByteQuotaHolds(trace: seq<Query>, quota: nat, n: nat)
    requires ByteQuota(trace, quota) && quota < U64_MAX && n <= |trace|
    ensures AllowedBytes(trace, n) <= Min(OfferedBytes(trace, n), quota)
  {
    if n > 0 {
      ByteQuotaHolds(trace, quota, n - 1);
      if Allowed(trace, n - 1) {
        BudgetsOfAllowed(trace, n - 1);
      }
    }
  }

  /**
   The bound on both quotas is exact: a quota at the top of u64 is met by the saturated totals too,
   so neither budget clause can ever fail.
   */
  lemma TopQuotaNeverDenies(trace: seq<Query>, i: nat)
    requires i < |trace|
    ensures trace[i].p.quotaTotalRequests == Some(U64_MAX) ==> Holds(15, Presented(trace, i))
    ensures trace[i].p.quotaTotalBytes == Some(U64_MAX) ==> Holds(16, Presented(trace, i))
  {
  }

  // ---- the rate window ----

  ghost predicate ForwardTime(trace: seq<Query>) {
    && (forall i :: 0 <= i < |trace| ==> trace[i].nowMs > 0)
    && (forall i, j :: 0 <= i <= j < |trace| ==> trace[i].nowMs <= trace[j].nowMs)
  }

  predicate OpensWindow(trace: seq<Query>, i: nat)
    requires i < |trace|
  {
    var c := Tallies(trace, i);
    c.windowStartMs == 0 || Saturate(trace[i].nowMs - c.windowStartMs) >= WINDOW_MS
  }

  /** The request that opened the window request `i` is counted in. */
  function Opener(trace: seq<Query>, i: nat): (s: nat)
    requires i < |trace|
    ensures s <= i
  {
    if i == 0 || OpensWindow(trace, i) then i else Opener(trace, i - 1)
  }

  lemma {:induction false} WindowCounts(trace: seq<Query>, i: nat)
    requires ForwardTime(trace) && i < |trace|
    ensures var c := Tallies(trace, i + 1);
            c.windowStartMs == trace[Opener(trace, i)].nowMs
            && c.inWindow == Min(i - Opener(trace, i) + 1, U32_MAX)
  {
    if i > 0 {
      WindowCounts(trace, i - 1);
    }
  }

  /** A window opens 60 seconds or more after the one before it. */
  lemma WindowsApart(trace: seq<Query>, i: nat)
    requires ForwardTime(trace) && 0 < i < |trace|
    ensures Opener(trace, i) == i ==> trace[Opener(trace, i - 1)].nowMs + WINDOW_MS <= trace[i].nowMs
    ensures Opener(trace, i) != i ==> Opener(trace, i) == Opener(trace, i - 1)
  {
    WindowCounts(trace, i - 1);
  }

  lemma RateOfAllowed(trace: seq<Query>, i: nat, r: nat)
    requires ForwardTime(trace) && i < |trace| && trace[i].p.ratePerMin.Some? && trace[i].p.ratePerMin.value <= r
    requires Allowed(trace, i)
    ensures i - Opener(trace, i) + 1 < r
  {
    BudgetsOfAllowed(trace, i);
    WindowCounts(trace, i);
  }

  /**
   How many of the requests `lo` up to `hi` can have been allowed when the window open at the last
   of them was opened by request `s`: those of the window open at `lo`, then those of the next.
   */
  predicate Within(r: nat, lo: nat, hi: nat, s: nat, allowed: nat) {
    if s <= lo then allowed <= Max(0, Min(hi - s, r - 1) - (lo - s))
    else allowed <= Max(0, r - 2) + Max(0, Min(hi - s, r - 1))
  }

  /** One more request keeps the count within bounds, if it is allowed only early in its window. */
  lemma WithinStep(r: nat, lo: nat, i: nat, s0: nat, s: nat, allowed: nat, more: nat)
    requires lo < i && s0 < i && Within(r, lo, i, s0, allowed)
    requires s == s0 || (s == i && s0 < lo)
    requires more <= 1 && (more == 1 ==> i - s + 1 < r)
    ensures Within(r, lo, i + 1, s, allowed + more)
  {
  }

  /** A request counts once, and only when it comes early enough in its window. */
  lemma OneRequest(trace: seq<Query>, r: nat, lo: nat, i: nat) returns (more: nat)
    requires ForwardTime(trace) && lo <= i < |trace| && trace[i].p.ratePerMin.Some? && trace[i].p.ratePerMin.value <= r
    ensures AllowedIn(trace, lo, i + 1) == AllowedIn(trace, lo, i) + more
    ensures more <= 1 && (more == 1 ==> i - Opener(trace, i) + 1 < r)
  {
    more := if Allowed(trace, i) then 1 else 0;
    if more == 1 {
      RateOfAllowed(trace, i, r);
    }
  }

  /** Within 60 seconds of request `lo` at most one more window opens. */
  lemma NextOpener(trace: seq<Query>, lo: nat, i: nat)
    requires ForwardTime(trace) && lo < i < |trace| && trace[i].nowMs < trace[lo].nowMs + WINDOW_MS
    ensures var s0, s := Opener(trace, i - 1), Opener(trace, i); s == s0 || (s == i && s0 < lo)
  {
    WindowsApart(trace, i);
  }

  lemma {:induction false} SplitHolds(trace: seq<Query>, r: nat, lo: nat, i: nat)
    requires ForwardTime(trace) && RateLimit(trace, r)
    requires lo <= i < |trace|
    requires trace[i].nowMs < trace[lo].nowMs + WINDOW_MS
    ensures Within(r, lo, i + 1, Opener(trace, i), AllowedIn(trace, lo, i + 1))
    decreases i
  {
    var more := OneRequest(trace, r, lo, i);
    if lo < i {
      SplitHolds(trace, r, lo, i - 1);
      NextOpener(trace, lo, i);
      WithinStep(r, lo, i, Opener(trace, i - 1), Opener(trace, i), AllowedIn(trace, lo, i), more);
    } else {
      FirstRequest(r, lo, Opener(trace, lo), more);
    }
  }

  lemma FirstRequest(r: nat, lo: nat, s: nat, more: nat)
    requires s <= lo && more <= 1 && (more == 1 ==> lo - s + 1 < r)
    ensures Within(r, lo, lo + 1, s, more)
  {
  }

  /**
   A rate of `r` per minute lets at most `2r - 3` requests through in any 60 seconds (none when
   `r < 2`): the request that makes the count reach `r` is itself denied, and a span of 60 seconds
   meets at most two windows, the first of them without its opening request.
   */
  lemma RateBound(trace: seq<Query>, r: nat, lo: nat, hi: nat)
    requires ForwardTime(trace) && RateLimit(trace, r)
    requires lo < hi <= |trace|
    requires trace[hi - 1].nowMs < trace[lo].nowMs + WINDOW_MS
    ensures AllowedIn(trace, lo, hi) <= Max(0, 2 * r - 3)
  {
    SplitHolds(trace, r, lo, hi - 1);
  }

  // ---- the bound is reached ----

  /** A relay that asks nothing of its requests but their rate and byte quota. */
  function EasyPolicy(rate: Option<U32>, bytes: Option<U64>): RelayPolicy {
    RelayPolicy([], Named, Anthropic, [], BaseUrlRepoint([]), CanonicalUpstreams(Anthropic), [[STAR]], [Get],
                86_400, rate, None, bytes, true, false)
  }

  /** A request to its host at time `t`, by a bearer minted at time zero of both clocks. */
  function EasyQuery(rate: Option<U32>, bytes: Option<U64>, t: I64, bytesOut: U64): Query {
    Query(EasyPolicy(rate, bytes), Claims([], 1, 86_400_000, 0, 0, None, None, None, None, false),
          CanonRequest(Get, CanonicalUpstreams(Anthropic)[0], None, [], bytesOut, None, None, 0, 0, 0, None), t, t,
              None, 0)
  }

  /** Such a request is allowed exactly when its rate and byte tallies are within bounds. */
  lemma EasyAllowed(rate: Option<U32>, bytes: Option<U64>, t: I64, bytesOut: U64, requests: U64, total: U64,
                    inWindow: U32)
    requires 0 <= t < 86_400_000
    ensures var q := EasyQuery(rate, bytes, t, bytesOut);
            Decide(q.(req := q.req.(usageRequests := requests, usageBytes := total, rateInWindow := inWindow))) == Allow
            <==> (rate.Some? ==> inWindow < rate.value) && (bytes.Some? ==> total <= bytes.value)
  {
    var p := EasyPolicy(rate, bytes);
    assert EqIgnoreCase(p.hostAllow[0], CanonicalUpstreams(Anthropic)[0]);
    assert PatternMatches([], p.pathAllow[0]);
  }

  /** When request `i` of the extreme trace comes: an opener, then the rest of its window late, then a second window. */
  function ExtremeTime(r: nat, i: nat): I64 {
    if i == 0 then 1 else if i < r - 1 then 60_000 else 60_001
  }

  function ExtremeTrace(r: U32): (trace: seq<Query>)
    requires r >= 2
    ensures |trace| == 2 * r - 2
  {
    seq(2 * r - 2, i requires 0 <= i < 2 * r - 2 => EasyQuery(Some(r), None, ExtremeTime(r, i), 0))
  }

  /** The window counts of the extreme trace: up to `r - 1` in each of its two windows. */
  lemma {:induction false} ExtremeTallies(r: U32, n: nat)
    requires r >= 2 && 0 < n <= 2 * r - 2
    ensures var c := Tallies(ExtremeTrace(r), n);
            c.windowStartMs == (if n <= r - 1 then 1 else 60_001) &&
                c.inWindow == (if n <= r - 1 then n else n - (r - 1))
  {
    if n > 1 {
      ExtremeTallies(r, n - 1);
    }
  }

  lemma ExtremeAllowed(r: U32, i: nat)
    requires r >= 2 && i < 2 * r - 2
    ensures Allowed(ExtremeTrace(r), i)
  {
    var c := Tallies(ExtremeTrace(r), i + 1);
    ExtremeTallies(r, i + 1);
    EasyAllowed(Some(r), None, ExtremeTime(r, i), 0, c.totalRequests, c.totalBytes, c.inWindow);
  }

  lemma {:induction false} ExtremeCount(r: U32, hi: nat)
    requires r >= 2 && 1 <= hi <= 2 * r - 2
    ensures AllowedIn(ExtremeTrace(r), 1, hi) == hi - 1
  {
    if hi > 1 {
      ExtremeCount(r, hi - 1);
      ExtremeAllowed(r, hi - 1);
    }
  }

  /**
   The rate bound is reached, for every rate that admits anything: `2r - 3` requests allowed within
   60 seconds, under one policy and forward time.
   */
  lemma RateBoundReached(r: U32) returns (trace: seq<Query>)
    requires r >= 2
    ensures |trace| == 2 * r - 2 && ForwardTime(trace)
    ensures OnePolicy(trace, EasyPolicy(Some(r), None))
    ensures trace[|trace| - 1].nowMs < trace[1].nowMs + WINDOW_MS
    ensures AllowedIn(trace, 1, |trace|) == 2 * r - 3
  {
    trace := ExtremeTrace(r);
    ExtremeCount(r, 2 * r - 2);
  }

  /**
   The byte quota holds only below the top of u64: two requests of 2^63 bytes each are allowed under
   a quota of 2^64-1, which their sum exceeds.
   */
  lemma TopByteQuotaExceeded() returns (trace: seq<Query>)
    ensures |trace| == 2 && OnePolicy(trace, EasyPolicy(None, Some(U64_MAX)))
    ensures Allowed(trace, 0) && Allowed(trace, 1) && AllowedBytes(trace, 2) == U64_MAX + 1
  {
    var half: U64 := 0x8000_0000_0000_0000;
    var q := EasyQuery(None, Some(U64_MAX), 1, half);
    trace := [q, q];
    forall i | 0 <= i < 2 ensures Allowed(trace, i) {
      var c := Tallies(trace, i + 1);
      EasyAllowed(None, Some(U64_MAX), 1, half, c.totalRequests, c.totalBytes, c.inWindow);
    }
    assert AllowedBytes(trace, 1) == half;
  }
}
