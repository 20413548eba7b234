/** The relay decision: ordered, default-deny checks of a verified bearer's request. */
module Decision {
  import opened Bytes
  import opened Broker

  datatype DenyReason =
    | UnknownBearer | Disabled | Revoked | BearerRevoked | BearerExpired | PolicyExpired
    | HostNotAllowed | PathNotAllowed | MethodNotAllowed | UpstreamNotAllowed | PeerMismatch
    | SniHostMismatch | BudgetRequests | BudgetBytes | RateLimited | GateAbsent | ClockRollback
    | CrossKindPresentation | RemoteNoDPoP | RemoteBindingMismatch
    | RemoteClientUnknown | RemoteClientRevoked

  datatype RelayDecision = Allow | Deny(reason: DenyReason)

  datatype RemotePeer = RemotePeer(clientId: Text, dpopJkt: Digest, dpopVerified: bool)

  datatype CanonRequest = CanonRequest(
    verb: Verb,
    host: Text,
    sni: Option<Text>,
    path: Text,
    bytesOut: U64,
    peerUid: Option<U32>,
    peerPid: Option<U32>,
    usageRequests: U64,
    usageBytes: U64,
    rateInWindow: U32,
    remote: Option<RemotePeer>)

  const CLOCK_SKEW_MS: int := 60_000
  const STAR: byte := 0x2A

  predicate HostIn(host: Text, allow: seq<Text>) {
    exists i :: 0 <= i < |allow| && EqIgnoreCase(allow[i], host)
  }

  /** A trailing `*` is dropped; what is left is a prefix. */
  predicate PatternMatches(path: Text, pat: Text) {
    if pat != [] && pat[|pat| - 1] == STAR then StartsWith(path, pat[..|pat| - 1]) else StartsWith(path, pat)
  }

  predicate PathAllowed(path: Text, allow: seq<Text>) {
    exists i :: 0 <= i < |allow| && PatternMatches(path, allow[i])
  }

  /** Everything a decision looks at. */
  datatype Query = Query(
    p: RelayPolicy,
    b: Claims,
    req: CanonRequest,
    nowMs: I64,
    bootNowMs: I64,
    usbAbsentSinceMs: Option<I64>,
    floorMs: I64)

  function Decide(q: Query): RelayDecision {
    var p, b, req := q.p, q.b, q.req;
    if !p.enabled then Deny(Disabled)
    else if p.revoked then Deny(Revoked)
    else if b.revoked then Deny(BearerRevoked)
    else if q.nowMs >= b.expiresAtMs then Deny(BearerExpired)
    else if q.nowMs >= Saturate(b.issuedAtMs + Saturate(p.policyTtlSecs * 1000)) then Deny(PolicyExpired)
    else if !HostIn(req.host, p.hostAllow) then Deny(HostNotAllowed)
    else if !PathAllowed(req.path, p.pathAllow) then Deny(PathNotAllowed)
    else if req.verb !in p.methodAllow then Deny(MethodNotAllowed)
    else if !HostIn(req.host, CanonicalUpstreams(p.provider)) then Deny(UpstreamNotAllowed)
    else
      match DecidePlane(b, req)
      case Deny(r) => Deny(r)
      case Allow =>
        match DecideBudgets(p, req)
        case Deny(r) => Deny(r)
        case Allow => DecideClocks(q)
  }

  /** Which plane the bearer belongs to, then who may present it. */
  function DecidePlane(b: Claims, req: CanonRequest): RelayDecision {
    match (req.remote, b.clientId)
    case (Some(rp), Some(cid)) =>
      if !rp.dpopVerified then Deny(RemoteNoDPoP)
      else if cid != rp.clientId then Deny(RemoteBindingMismatch)
      else if b.dpopJkt != Some(rp.dpopJkt) then Deny(RemoteBindingMismatch)
      else DecidePeer(b, req)
    case (Some(_), None) => Deny(CrossKindPresentation)
    case (None, Some(_)) => Deny(CrossKindPresentation)
    case (None, None) => DecidePeer(b, req)
  }

  function DecidePeer(b: Claims, req: CanonRequest): RelayDecision {
    if b.clientUid.Some? && req.peerUid != b.clientUid then Deny(PeerMismatch)
    else if b.clientPid.Some? && req.peerPid != b.clientPid then Deny(PeerMismatch)
    else if req.sni.Some? && !EqIgnoreCase(req.sni.value, req.host) then Deny(SniHostMismatch)
    else Allow
  }

  function DecideBudgets(p: RelayPolicy, req: CanonRequest): RelayDecision {
    if p.quotaTotalRequests.Some? && req.usageRequests > p.quotaTotalRequests.value then Deny(BudgetRequests)
    else if p.quotaTotalBytes.Some? && req.usageBytes > p.quotaTotalBytes.value then Deny(BudgetBytes)
    else if p.ratePerMin.Some? && req.rateInWindow >= p.ratePerMin.value then Deny(RateLimited)
    else Allow
  }

  /** The USB gate, then the wall clock checked against itself and against the boot clock. */
  function DecideClocks(q: Query): RelayDecision {
    var b := q.b;
    if q.usbAbsentSinceMs.Some? then Deny(GateAbsent)
    else if q.nowMs < q.floorMs || q.nowMs < b.issuedAtMs then Deny(ClockRollback)
    else
      var monoElapsed := Saturate(q.bootNowMs - b.issuedBoottimeMs);
      if monoElapsed < 0 then Deny(ClockRollback)
      else if monoElapsed >= Saturate(b.expiresAtMs - b.issuedAtMs) then Deny(BearerExpired)
      else if Abs(Saturate(q.nowMs - b.issuedAtMs) - monoElapsed) > CLOCK_SKEW_MS then Deny(ClockRollback)
      else Allow
  }

  // ---- hosts and paths, by their characters ----

  /** The same byte, or one letter in its two cases. */
  predicate SameLetter(a: byte, b: byte) {
    a == b || (0x41 <= a <= 0x5A && b == a + 0x20) || (0x41 <= b <= 0x5A && a == b + 0x20)
  }

  predicate SpellsHost(entry: Text, host: Text) {
    |entry| == |host| && forall i :: 0 <= i < |entry| ==> SameLetter(entry[i], host[i])
  }

  predicate NamesHost(allow: seq<Text>, host: Text) {
    exists i :: 0 <= i < |allow| && SpellsHost(allow[i], host)
  }

  /** The hosts of each provider; a generic one has none. */
  predicate ServedBy(p: Provider, host: Text) {
    match p
    case Anthropic => SpellsHost(Ascii("api.anthropic.com"), host)
    case Openai => SpellsHost(Ascii("api.openai.com"), host)
    case Github => SpellsHost(Ascii("api.github.com"), host) || SpellsHost(Ascii("uploads.github.com"), host)
    case Generic => false
  }

  /** The entry is this stem, with one final `*` if it ends in one. */
  predicate HasStem(entry: Text, stem: Text) {
    if entry != [] && entry[|entry| - 1] == 0x2A then entry == stem + [0x2A] else entry == stem
  }

  /** Some entry's stem is what the path begins with. */
  predicate AdmitsPath(allow: seq<Text>, path: Text) {
    exists i, n :: 0 <= i < |allow| && 0 <= n <= |path| && HasStem(allow[i], path[..n])
  }

  lemma HostInSpelled(host: Text, allow: seq<Text>)
    ensures HostIn(host, allow) <==> NamesHost(allow, host)
  {
    forall i | 0 <= i < |allow| ensures EqIgnoreCase(allow[i], host) <==> SpellsHost(allow[i], host) {
    }
  }

  lemma UpstreamsServe(p: Provider, host: Text)
    ensures HostIn(host, CanonicalUpstreams(p)) <==> ServedBy(p, host)
  {
    var hosts := CanonicalUpstreams(p);
    HostInSpelled(host, hosts);
    assert |hosts| > 0 ==> SpellsHost(hosts[0], host) ==> ServedBy(p, host);
    assert |hosts| > 1 ==> SpellsHost(hosts[1], host) ==> ServedBy(p, host);
  }

  lemma PatternSpelled(path: Text, entry: Text)
    ensures PatternMatches(path, entry) <==> exists n :: 0 <= n <= |path| && HasStem(entry, path[..n])
  {
    var starred := entry != [] && entry[|entry| - 1] == STAR;
    var stem := if starred then entry[..|entry| - 1] else entry;
    if PatternMatches(path, entry) {
      assert HasStem(entry, path[..|stem|]);
    }
    forall n | 0 <= n <= |path| && HasStem(entry, path[..n]) ensures PatternMatches(path, entry) {
      assert path[..n] == stem;
    }
  }

  lemma PathAllowedSpelled(path: Text, allow: seq<Text>)
    ensures PathAllowed(path, allow) <==> AdmitsPath(allow, path)
  {
    forall i | 0 <= i < |allow|
      ensures PatternMatches(path, allow[i]) <==> exists n :: 0 <= n <= |path| && HasStem(allow[i], path[..n])
    {
      PatternSpelled(path, allow[i]);
    }
  }

  // ---- the clause table ----

  const CLAUSES: nat := 22

  /**
   What clause `k` demands, on its own. Instants are compared in exact arithmetic; what is left of
   the saturation is that a lifetime or an elapsed time counts for at most the i64 maximum.
   */
  predicate Holds(k: nat, q: Query) {
    var p, b, req := q.p, q.b, q.req;
    match k
    case 0 => p.enabled
    case 1 => !p.revoked
    case 2 => !b.revoked
    case 3 => q.nowMs < b.expiresAtMs
    case 4 => q.nowMs < b.issuedAtMs + Saturate(p.policyTtlSecs * 1000)
    case 5 => NamesHost(p.hostAllow, req.host)
    case 6 => AdmitsPath(p.pathAllow, req.path)
    case 7 => req.verb in p.methodAllow
    case 8 => ServedBy(p.provider, req.host)
    case 9 => req.remote.Some? <==> b.clientId.Some?
    case 10 => req.remote.Some? ==> req.remote.value.dpopVerified
    case 11 => req.remote.Some? ==>
        b.clientId == Some(req.remote.value.clientId) && b.dpopJkt == Some(req.remote.value.dpopJkt)
    case 12 => b.clientUid.Some? ==> req.peerUid == b.clientUid
    case 13 => b.clientPid.Some? ==> req.peerPid == b.clientPid
    case 14 => req.sni.Some? ==> EqIgnoreCase(req.sni.value, req.host)
    case 15 => p.quotaTotalRequests.Some? ==> req.usageRequests <= p.quotaTotalRequests.value
    case 16 => p.quotaTotalBytes.Some? ==> req.usageBytes <= p.quotaTotalBytes.value
    case 17 => p.ratePerMin.Some? ==> req.rateInWindow < p.ratePerMin.value
    case 18 => q.usbAbsentSinceMs.None?
    case 19 => q.floorMs <= q.nowMs && b.issuedAtMs <= q.nowMs && b.issuedBoottimeMs <= q.bootNowMs
    case 20 => q.bootNowMs - b.issuedBoottimeMs < Min(b.expiresAtMs - b.issuedAtMs, I64_MAX)
    case 21 => Abs(Min(q.nowMs - b.issuedAtMs, I64_MAX) - (q.bootNowMs - b.issuedBoottimeMs)) <= 60_000
    case _ => true
  }

  function ReasonFor(k: nat): DenyReason {
    match k
    case 0 => Disabled
    case 1 => Revoked
    case 2 => BearerRevoked
    case 3 => BearerExpired
    case 4 => PolicyExpired
    case 5 => HostNotAllowed
    case 6 => PathNotAllowed
    case 7 => MethodNotAllowed
    case 8 => UpstreamNotAllowed
    case 9 => CrossKindPresentation
    case 10 => RemoteNoDPoP
    case 11 => RemoteBindingMismatch
    case 12 => PeerMismatch
    case 13 => PeerMismatch
    case 14 => SniHostMismatch
    case 15 => BudgetRequests
    case 16 => BudgetBytes
    case 17 => RateLimited
    case 18 => GateAbsent
    case 19 => ClockRollback
    case 20 => BearerExpired
    case _ => ClockRollback
  }

  /** The first clause from `k` on that fails, or `CLAUSES`. */
  function FirstFailing(q: Query, k: nat): (f: nat)
    requires k <= CLAUSES
    ensures k <= f <= CLAUSES
    ensures f < CLAUSES ==> !Holds(f, q)
    ensures forall j :: k <= j < f ==> Holds(j, q)
    decreases CLAUSES - k
  {
    if k == CLAUSES || !Holds(k, q) then k else FirstFailing(q, k + 1)
  }

  function TableDecision(k: nat): RelayDecision { if k < CLAUSES then Deny(ReasonFor(k)) else Allow }

  /**
   The decision is the first failing entry of the clause table, for all inputs: saturating the
   instants themselves never changes it.
   */
  lemma DecideIsClauseTable(q: Query)
    ensures Decide(q) == TableDecision(FirstFailing(q, 0))
  {
    var f := FirstFailing(q, 0);
    if f < 9 {
      GrantClauses(q, f);
    } else {
      GrantClauses(q, 9);
      PlaneClauses(q, f);
      if f >= 15 {
        BudgetClauses(q, f);
      }
      if f >= 18 {
        ClockClauses(q, f);
      }
    }
  }

  lemma AllowIffEveryClause(q: Query)
    ensures Decide(q) == Allow <==> forall k :: 0 <= k < CLAUSES ==> Holds(k, q)
  {
    DecideIsClauseTable(q);
  }

  /**
   A request that gets as far as the skew check, through all the clauses before it, gets there with
   clocks whose plain subtraction and `abs` stay within i64.
   */
  lemma SkewCheckCannotOverflow(q: Query)
    requires FirstFailing(q, 0) >= 21
    ensures var d := Saturate(q.nowMs - q.b.issuedAtMs) - Saturate(q.bootNowMs - q.b.issuedBoottimeMs);
            I64_MIN < d <= I64_MAX && Abs(d) <= I64_MAX
  {
    assert Holds(19, q);
  }

  lemma GrantClauses(q: Query, f: nat)
    requires f <= 9 && forall j :: 0 <= j < f ==> Holds(j, q)
    requires f < 9 ==> !Holds(f, q)
    ensures f < 9 ==> Decide(q) == Deny(ReasonFor(f))
    ensures f == 9 ==> Decide(q) == match DecidePlane(q.b, q.req)
                                    case Deny(r) => Deny(r)
                                    case Allow =>
                                      match DecideBudgets(q.p, q.req)
                                      case Deny(r) => Deny(r)
                                      case Allow => DecideClocks(q)
  {
    HostInSpelled(q.req.host, q.p.hostAllow);
    PathAllowedSpelled(q.req.path, q.p.pathAllow);
    UpstreamsServe(q.p.provider, q.req.host);
    assert f > 0 ==> Holds(0, q);
    assert f > 1 ==> Holds(1, q);
    assert f > 2 ==> Holds(2, q);
    assert f > 3 ==> Holds(3, q);
    assert f > 4 ==> Holds(4, q);
    assert f > 5 ==> Holds(5, q);
    assert f > 6 ==> Holds(6, q);
    assert f > 7 ==> Holds(7, q);
    assert f > 8 ==> Holds(8, q);
  }

  lemma PlaneClauses(q: Query, f: nat)
    requires 9 <= f && forall j :: 9 <= j < f ==> Holds(j, q)
    requires f < 15 ==> !Holds(f, q)
    ensures DecidePlane(q.b, q.req) == if f < 15 then Deny(ReasonFor(f)) else Allow
  {
    assert f > 9 ==> Holds(9, q);
    assert f > 10 ==> Holds(10, q);
    assert f > 11 ==> Holds(11, q);
    assert f > 12 ==> Holds(12, q);
    assert f > 13 ==> Holds(13, q);
    assert f > 14 ==> Holds(14, q);
  }

  lemma BudgetClauses(q: Query, f: nat)
    requires 15 <= f && forall j :: 15 <= j < f ==> Holds(j, q)
    requires f < 18 ==> !Holds(f, q)
    ensures DecideBudgets(q.p, q.req) == if f < 18 then Deny(ReasonFor(f)) else Allow
  {
    assert f > 15 ==> Holds(15, q);
    assert f > 16 ==> Holds(16, q);
    assert f > 17 ==> Holds(17, q);
  }

  lemma ClockClauses(q: Query, f: nat)
    requires 18 <= f <= CLAUSES && Holds(3, q) && forall j :: 18 <= j < f ==> Holds(j, q)
    requires f < CLAUSES ==> !Holds(f, q)
    ensures DecideClocks(q) == TableDecision(f)
  {
    assert f > 18 ==> Holds(18, q);
    assert f > 19 ==> Holds(19, q);
    assert f > 20 ==> Holds(20, q);
    assert f > 21 ==> Holds(21, q);
  }

  // ---- what an Allow means ----

  /** An allowed request is inside the bearer's life on the boot clock, with the clocks in step. */
  lemma AllowMeansAlive(q: Query)
    requires Decide(q) == Allow
    requires q.b.expiresAtMs - q.b.issuedAtMs <= I64_MAX
    ensures 0 <= q.bootNowMs - q.b.issuedBoottimeMs < q.b.expiresAtMs - q.b.issuedAtMs
    ensures 0 <= q.nowMs - q.b.issuedAtMs < q.b.expiresAtMs - q.b.issuedAtMs
    ensures Abs((q.nowMs - q.b.issuedAtMs) - (q.bootNowMs - q.b.issuedBoottimeMs)) <= CLOCK_SKEW_MS
    ensures !q.p.revoked && !q.b.revoked && q.usbAbsentSinceMs.None?
    ensures ServedBy(q.p.provider, q.req.host)
  {
    AllowIffEveryClause(q);
    assert Holds(1, q) && Holds(2, q) && Holds(3, q) && Holds(8, q);
    assert Holds(18, q) && Holds(19, q) && Holds(20, q) && Holds(21, q);
  }

  /** What `relay_swap` offers as the SNI: a value no host equals when TLS was to be terminated. */
  function TrustedSniFor(swap: SwapMode): Option<Text> {
    if swap.ProxyMitm? then Some([0] + Ascii("untrusted-sni-not-observed")) else None
  }

  /** A TLS-terminating relay is never allowed until an observed SNI reaches the decision. */
  lemma ProxyMitmNeverAllowed(q: Query)
    requires q.p.swap.ProxyMitm? && q.req.sni == TrustedSniFor(q.p.swap)
    ensures Decide(q) != Allow
  {
    AllowIffEveryClause(q);
    if Holds(8, q) {
      assert |q.req.host| < |q.req.sni.value|;
      assert !Holds(14, q);
    }
  }
}
