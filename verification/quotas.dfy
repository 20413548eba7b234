/** The usage limits over whole histories: what one bearer can get sent between two restarts of the engine. */
module Quotas {
  import opened Bytes
  import opened Environment
  import opened Broker
  import opened Decision
  import opened UsageLimits
  import opened Effects
  import opened Histories
  import Swaps

  // ---- which calls count ----

  /** The call is a swap that gets as far as counting the request of this token. */
  predicate Counts(env: Env, s: Snap, c: Call, token: Text) {
    && c.op.OpSwap? && ScreenBearer(env, s, c.op.swap.raw).Known?
    && ScreenBearer(env, s, c.op.swap.raw).row.claims.tokenId == token
  }

  /** What the decision is asked in such a call. */
  function Asking(env: Env, s: Snap, c: Call): Query
    requires c.op.OpSwap? && ScreenBearer(env, s, c.op.swap.raw).Known?
  {
    SwapQuery(s, c.at, ScreenBearer(env, s, c.op.swap.raw), c.op.swap.req)
  }

  /** The call hands a real key to the upstream for the token. */
  predicate Sends(env: Env, s: Snap, c: Call, token: Text) {
    Counts(env, s, c, token) && SwapEffect(env, s, c.at, c.op.swap).sent.Some?
  }

  function Adding(trace: seq<Query>, env: Env, s: Snap, c: Call, token: Text): seq<Query> {
    if Counts(env, s, c, token) then trace + [Asking(env, s, c)] else trace
  }

  /** The engine was just started: nothing has happened, or the last happening was a crash. */
  predicate JustStarted(xs: seq<Happening>) { xs == [] || xs[|xs| - 1].Crashed? }

  /** The requests of the token decided since the engine was last started, in order. */
  function TraceSince(env: Env, xs: seq<Happening>, token: Text): seq<Query> {
    if JustStarted(xs) then []
    else Adding(TraceSince(env, xs[..|xs| - 1], token), env, Run(env, xs[..|xs| - 1]), xs[|xs| - 1].call, token)
  }

  /** How many happenings from number `lo` on have sent for the token since the engine was last started. */
  function SendsSince(env: Env, xs: seq<Happening>, lo: nat, token: Text): nat {
    if JustStarted(xs) || |xs| <= lo then 0
    else
      SendsSince(env, xs[..|xs| - 1], lo, token)
      + if Sends(env, Run(env, xs[..|xs| - 1]), xs[|xs| - 1].call, token) then 1 else 0
  }

  /** The bytes sent for the token since the engine was last started. */
  function BytesSince(env: Env, xs: seq<Happening>, token: Text): nat {
    if JustStarted(xs) then 0
    else BytesSince(env, xs[..|xs| - 1], token) + BytesOf(env, Run(env, xs[..|xs| - 1]), xs[|xs| - 1].call, token)
  }

  function BytesOf(env: Env, s: Snap, c: Call, token: Text): nat {
    if Sends(env, s, c, token) then c.op.swap.req.bytesOut else 0
  }

  // ---- the counters are the tallies ----

  lemma UnlockKeepsCounters(env: Env, s: Snap, at: Reading, c: Credential)
    ensures UnlockEffect(env, s, at, c).counters == s.counters
  {
    if s.vault.Locked? && HeaderOf(s.store).Some? {
      var header := HeaderOf(s.store).value;
      var probe := ProbeSlots(env, s.store.keyslots, c, at.usb);
      if probe.Opened? {
        JudgedKeepsCounters(env, s, at, c, probe.dek,
                            UnlockVerdict(env, s.store, probe.dek, header.mac, header.floorMs));
      }
    }
  }

  lemma JudgedKeepsCounters(env: Env, s: Snap, at: Reading, c: Credential, dek: Dek, verdict: Verdict)
    ensures UnlockJudged(env, s, at, c, dek, verdict).counters == s.counters
  {
  }

  lemma GetKeepsCounters(env: Env, s: Snap, at: Reading, name: Text, show: bool, apply: bool)
    ensures GetEffect(env, s, at, name, show, apply).counters == s.counters
  {
  }

  lemma VaultKeepsCounters(env: Env, s: Snap, c: Call, e: Effect)
    requires (c.op.OpInit? || c.op.OpLock? || c.op.OpPut?) && e == EffectOf(env, s, c)
    ensures e.counters == s.counters
  {
  }

  lemma RelayKeepsCounters(env: Env, s: Snap, c: Call, e: Effect)
    requires (c.op.OpMint? || c.op.OpRevokeRelay? || c.op.OpRevokeBearer?) && e == EffectOf(env, s, c)
    ensures e.counters == s.counters
  {
  }

  lemma SendKeepsCounters(env: Env, s: Snap, at: Reading, k: Screen, call: SwapCall, realKey: Bytes)
    requires k.Known?
    ensures SendEffect(env, s, at, k, call, realKey).counters == s.counters
  {
  }

  lemma DecidedCounters(env: Env, s: Snap, at: Reading, k: Screen, call: SwapCall)
    requires k.Known?
    ensures var token := k.row.claims.tokenId;
            DecidedEffect(env, s, at, k, call).counters ==
                s.counters[token := BumpedFor(s, at, token, call.req.bytesOut)]
  {
    var token := k.row.claims.tokenId;
    var counted := s.(counters := s.counters[token := BumpedFor(s, at, token, call.req.bytesOut)]);
    var realKey := RealKey(env, k.dek, s.store, k.policyRow.policy.secretName);
    if realKey.Ok? {
      SendKeepsCounters(env, counted, at, k, call, realKey.value);
    }
  }

  lemma SwapCounters(env: Env, s: Snap, at: Reading, call: SwapCall)
    ensures var k := ScreenBearer(env, s, call.raw);
            SwapEffect(env, s, at, call).counters
              == if k.Known? then var token := k.row.claims.tokenId;
                                  s.counters[token := BumpedFor(s, at, token, call.req.bytesOut)]
                 else s.counters
  {
    var k := ScreenBearer(env, s, call.raw);
    if k.Known? {
      DecidedCounters(env, s, at, k, call);
    }
  }

  /** Only a counted swap moves the counters of a token, and by one request. */
  lemma CountersStep(env: Env, s: Snap, c: Call, token: Text)
    ensures CountersFor(EffectOf(env, s, c).counters, token)
         == if Counts(env, s, c, token) then BumpedFor(s, c.at, token, c.op.swap.req.bytesOut)
             else CountersFor(s.counters, token)
  {
    var e := EffectOf(env, s, c);
    match c.op {
      case OpSwap(call) => SwapCounters(env, s, c.at, call);
      case OpUnlock(credential) => UnlockKeepsCounters(env, s, c.at, credential);
      case OpGet(name, show, apply) => GetKeepsCounters(env, s, c.at, name, show, apply);
      case OpMint(_) => RelayKeepsCounters(env, s, c, e);
      case OpRevokeRelay(_, _) => RelayKeepsCounters(env, s, c, e);
      case OpRevokeBearer(_, _) => RelayKeepsCounters(env, s, c, e);
      case _ => VaultKeepsCounters(env, s, c, e);
    }
  }

  lemma {:induction false} TalliesPrefix(trace: seq<Query>, q: Query, n: nat)
    requires n <= |trace|
    ensures Tallies(trace + [q], n) == Tallies(trace, n)
  {
    if n > 0 {
      TalliesPrefix(trace, q, n - 1);
    }
  }

  lemma TallyMore(trace: seq<Query>, q: Query, c: BearerCounters)
    requires c == Tallies(trace, |trace|)
    ensures Tallies(trace + [q], |trace| + 1) == Bumped(c, q.nowMs, q.req.bytesOut)
  {
    TalliesPrefix(trace, q, |trace|);
  }

  lemma AskingCarries(env: Env, s: Snap, c: Call, token: Text)
    requires Counts(env, s, c, token)
    ensures var q, tally := Asking(env, s, c), BumpedFor(s, c.at, token, c.op.swap.req.bytesOut);
      && q.nowMs == c.at.nowMs && q.req.bytesOut == c.op.swap.req.bytesOut
      && q.req.usageRequests == tally.totalRequests && q.req.usageBytes == tally.totalBytes &&
           q.req.rateInWindow == tally.inWindow
      && tally == Bumped(CountersFor(s.counters, token), q.nowMs, q.req.bytesOut)
  {
  }

  lemma MoreTallies(env: Env, s: Snap, c: Call, later: map<Text, BearerCounters>, trace: seq<Query>, token: Text)
    requires CountersFor(s.counters, token) == Tallies(trace, |trace|)
    requires CountersFor(later, token)
          == if Counts(env, s, c, token) then BumpedFor(s, c.at, token, c.op.swap.req.bytesOut)
              else CountersFor(s.counters, token)
    ensures var longer := Adding(trace, env, s, c, token); CountersFor(later, token) == Tallies(longer, |longer|)
  {
    if Counts(env, s, c, token) {
      AskingCarries(env, s, c, token);
      TallyMore(trace, Asking(env, s, c), CountersFor(s.counters, token));
    }
  }

  lemma NextCounters(env: Env, s: Snap, x: Happening)
    ensures Next(env, s, x).counters == if x.Crashed? then map[] else EffectOf(env, s, x.call).counters
  {
  }

  /**
   At every point of every history the counters of a token are the tallies of its requests decided
   since the engine was last started.
   */
  lemma {:induction false} CountersAreTallies(env: Env, xs: seq<Happening>, token: Text)
    ensures var trace := TraceSince(env, xs, token);
            CountersFor(Run(env, xs).counters, token) == Tallies(trace, |trace|)
  {
    if xs != [] {
      var front, x := xs[..|xs| - 1], xs[|xs| - 1];
      var s, trace := Run(env, front), TraceSince(env, front, token);
      CountersAreTallies(env, front, token);
      NextCounters(env, s, x);
      CountersStep(env, s, x.call, token);
      MoreTallies(env, s, x.call, EffectOf(env, s, x.call).counters, trace, token);
    }
  }

  /** A counted request is decided on the tallies of the trace that ends in it. */
  lemma AskedAsPresented(env: Env, t: Snap, c: Call, trace: seq<Query>, token: Text)
    requires CountersFor(t.counters, token) == Tallies(trace, |trace|) && Counts(env, t, c, token)
    ensures Presented(trace + [Asking(env, t, c)], |trace|) == Asking(env, t, c)
  {
    AskingCarries(env, t, c, token);
    TallyMore(trace, Asking(env, t, c), CountersFor(t.counters, token));
  }

  // ---- what is sent was allowed ----

  lemma {:induction false} AllowedPrefix(trace: seq<Query>, q: Query, lo: nat, hi: nat)
    requires lo <= hi <= |trace|
    ensures AllowedIn(trace + [q], lo, hi) == AllowedIn(trace, lo, hi)
    ensures AllowedBytes(trace + [q], hi) == AllowedBytes(trace, hi)
    decreases hi
  {
    if hi > 0 {
      TalliesPrefix(trace, q, hi);
      assert (trace + [q])[hi - 1] == trace[hi - 1];
      if lo < hi {
        AllowedPrefix(trace, q, lo, hi - 1);
      } else {
        AllowedPrefix(trace, q, 0, hi - 1);
      }
    }
  }

  lemma SentIsAllowed(env: Env, s: Snap, c: Call, token: Text)
    requires Sends(env, s, c, token)
    ensures Decide(Asking(env, s, c)) == Allow
  {
    Swaps.SwapAccounted(env, s, c.at, c.op.swap);
  }

  lemma MoreAllowed(trace: seq<Query>, q: Query, lo: nat, sent: bool)
    requires lo <= |trace| && Presented(trace + [q], |trace|) == q && (sent ==> Decide(q) == Allow)
    ensures var longer := trace + [q];
      && AllowedIn(longer, lo, |longer|) >= AllowedIn(trace, lo, |trace|) + (if sent then 1 else 0)
      && AllowedBytes(longer, |longer|) >= AllowedBytes(trace, |trace|) + (if sent then q.req.bytesOut else 0)
  {
    AllowedPrefix(trace, q, lo, |trace|);
  }

  /** One more call: the request it counts, if any, is allowed if it is sent. */
  lemma OneMoreCall(env: Env, s: Snap, c: Call, trace: seq<Query>, lo: nat, token: Text)
    requires CountersFor(s.counters, token) == Tallies(trace, |trace|) && lo <= |trace|
    ensures var sent, longer := Sends(env, s, c, token), Adding(trace, env, s, c, token);
      && |trace| <= |longer|
      && AllowedIn(longer, lo, |longer|) >= AllowedIn(trace, lo, |trace|) + (if sent then 1 else 0)
      && AllowedBytes(longer, |longer|) >= AllowedBytes(trace, |trace|) + BytesOf(env, s, c, token)
  {
    if Counts(env, s, c, token) {
      AskedAsPresented(env, s, c, trace, token);
      AskingCarries(env, s, c, token);
      if Sends(env, s, c, token) {
        SentIsAllowed(env, s, c, token);
      }
      MoreAllowed(trace, Asking(env, s, c), lo, Sends(env, s, c, token));
    }
  }

  /** Where the requests from happening `lo` on begin in the trace. */
  function StartOf(env: Env, xs: seq<Happening>, lo: nat, token: Text): nat
    requires lo <= |xs|
  {
    if |xs| == lo then |TraceSince(env, xs, token)|
    else if JustStarted(xs) then 0
    else StartOf(env, xs[..|xs| - 1], lo, token)
  }

  lemma {:induction false} StartWithoutCrash(env: Env, xs: seq<Happening>, lo: nat, token: Text)
    requires lo <= |xs|
    ensures lo == 0 ==> StartOf(env, xs, lo, token) == 0
    ensures (forall k :: lo <= k < |xs| ==> xs[k].Completed?) ==>
            StartOf(env, xs, lo, token) == |TraceSince(env, xs[..lo], token)|
    decreases |xs|
  {
    if |xs| == lo {
      assert xs[..lo] == xs;
    } else if !JustStarted(xs) {
      assert xs[..|xs| - 1][..lo] == xs[..lo];
      StartWithoutCrash(env, xs[..|xs| - 1], lo, token);
    }
  }

  /** The sends from happening `lo` on are no more than the allowed requests from there on. */
  lemma {:induction false} SendsAllowed(env: Env, xs: seq<Happening>, lo: nat, token: Text)
    requires lo <= |xs|
    ensures var trace, from := TraceSince(env, xs, token), StartOf(env, xs, lo, token);
            from <= |trace| && SendsSince(env, xs, lo, token) <= AllowedIn(trace, from, |trace|)
    decreases |xs|
  {
    if |xs| != lo && !JustStarted(xs) {
      var front, x := xs[..|xs| - 1], xs[|xs| - 1];
      SendsAllowed(env, front, lo, token);
      CountersAreTallies(env, front, token);
      OneMoreCall(env, Run(env, front), x.call, TraceSince(env, front, token), StartOf(env, front, lo, token), token);
    }
  }

  lemma {:induction false} BytesAllowed(env: Env, xs: seq<Happening>, token: Text)
    ensures var trace := TraceSince(env, xs, token); BytesSince(env, xs, token) <= AllowedBytes(trace, |trace|)
  {
    if !JustStarted(xs) {
      var front, x := xs[..|xs| - 1], xs[|xs| - 1];
      BytesAllowed(env, front, token);
      CountersAreTallies(env, front, token);
      OneMoreCall(env, Run(env, front), x.call, TraceSince(env, front, token), 0, token);
    }
  }

  // ---- the limits over a history ----

  /**
   At every point of every history, since the engine was last started one bearer has got no more
   requests sent than the request quota of its policy and no more bytes than the byte quota, whatever
   else happened in between.
   */
  lemma QuotasHold(env: Env, xs: seq<Happening>, token: Text, requests: nat, bytes: nat)
    ensures var trace := TraceSince(env, xs, token);
      && (RequestQuota(trace, requests) && requests < U64_MAX ==> SendsSince(env, xs, 0, token) <= requests)
      && (ByteQuota(trace, bytes) && bytes < U64_MAX ==> BytesSince(env, xs, token) <= bytes)
  {
    var trace := TraceSince(env, xs, token);
    SendsAllowed(env, xs, 0, token);
    StartWithoutCrash(env, xs, 0, token);
    BytesAllowed(env, xs, token);
    if RequestQuota(trace, requests) && requests < U64_MAX {
      RequestQuotaHolds(trace, requests, |trace|);
    }
    if ByteQuota(trace, bytes) && bytes < U64_MAX {
      ByteQuotaHolds(trace, bytes, |trace|);
    }
  }

  /**
   And over any stretch without a crash in which the bearer's requests lie within 60 seconds of forward
   time, at most `2r - 3` are sent under a rate of `r` per minute.
   */
  lemma RateHolds(env: Env, xs: seq<Happening>, lo: nat, token: Text, r: nat)
    requires lo <= |xs| && forall k :: lo <= k < |xs| ==> xs[k].Completed?
    requires var trace, from := TraceSince(env, xs, token), |TraceSince(env, xs[..lo], token)|;
      && ForwardTime(trace) && RateLimit(trace, r)
      && forall i :: 0 <= from <= i < |trace| ==> trace[i].nowMs < trace[from].nowMs + WINDOW_MS
    ensures SendsSince(env, xs, lo, token) <= Max(0, 2 * r - 3)
  {
    var trace, from := TraceSince(env, xs, token), StartOf(env, xs, lo, token);
    SendsAllowed(env, xs, lo, token);
    StartWithoutCrash(env, xs, lo, token);
    if from < |trace| {
      RateBound(trace, r, from, |trace|);
    }
  }
}
