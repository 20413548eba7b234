/** Relay policies, bearer rows and the row MAC, and the in-memory usage counters. */
module Broker {
  import opened Bytes
  import opened Codec
  import opened Environment

  datatype Provider = Anthropic | Openai | Github | Generic

  datatype Verb = Get | Head | Post | Put | Patch | Delete | Connect | Options

  datatype RelayKind = Named | Ephemeral

  datatype SwapMode =
    | BaseUrlRepoint(upstreamBase: Text)
    | ProxyMitm
    | NativeSubToken(ttlSecs: I64)

  datatype RelayPolicy = RelayPolicy(
    relayId: Text,
    kind: RelayKind,
    provider: Provider,
    secretName: Text,
    swap: SwapMode,
    hostAllow: seq<Text>,
    pathAllow: seq<Text>,
    methodAllow: seq<Verb>,
    policyTtlSecs: I64,
    ratePerMin: Option<U32>,
    quotaTotalRequests: Option<U64>,
    quotaTotalBytes: Option<U64>,
    enabled: bool,
    revoked: bool)

  datatype RelayPolicyRow = RelayPolicyRow(id: I64, policy: RelayPolicy)

  /** The fields of a bearer row that the row MAC authenticates: what `decide` is shown. */
  datatype Claims = Claims(
    tokenId: Text,
    policyId: I64,
    expiresAtMs: I64,
    issuedAtMs: I64,
    issuedBoottimeMs: I64,
    clientUid: Option<U32>,
    clientPid: Option<U32>,
    clientId: Option<Text>,
    dpopJkt: Option<Digest>,
    revoked: bool)

  /** A stored bearer: its claims, the MAC of the wire string and the MAC of the claims. */
  datatype BearerRow = BearerRow(claims: Claims, wireMac: Bytes, rowMac: Bytes)

  datatype BearerBinding =
    | Local(peerUid: Option<U32>, peerPid: Option<U32>)
    | Remote(clientId: Text, dpopJkt: Digest)

  /** The frozen set of hosts a provider's key may be sent to. */
  function CanonicalUpstreams(p: Provider): seq<Text> {
    match p
    case Anthropic => [Ascii("api.anthropic.com")]
    case Openai => [Ascii("api.openai.com")]
    case Github => [Ascii("api.github.com"), Ascii("uploads.github.com")]
    case Generic => []
  }

  const MAX_BEARER_TTL_SECS: I64 := 86_400

  function ClampTtl(now: I64, policyTtlSecs: I64, requestedTtlSecs: I64): Option<I64> {
    var ttl := Min(Min(requestedTtlSecs, policyTtlSecs), MAX_BEARER_TTL_SECS);
    if ttl <= 0 then None else Some(Saturate(now + ttl))
  }

  /** The absolute expiry `mint_bearer_core` stores: clamped in whole seconds, kept in milliseconds. */
  function ExpiryMs(nowMs: I64, policyTtlSecs: I64, requestedTtlSecs: I64): Option<I64> {
    match ClampTtl(nowMs / 1000, policyTtlSecs, requestedTtlSecs)
    case None => None
    case Some(secs) => Some(Saturate(secs * 1000))
  }

  /** A clock reading a day or more before the end of i64; chrono's own range ends far below it. */
  predicate OrdinaryTime(nowMs: I64) { nowMs <= I64_MAX - 86_400_000 }

  /** A minted bearer is alive when minted and dead within 24 hours, however long was asked for. */
  lemma ExpiryWindow(nowMs: I64, policyTtlSecs: I64, requestedTtlSecs: I64)
    requires OrdinaryTime(nowMs)
    ensures var e := ExpiryMs(nowMs, policyTtlSecs, requestedTtlSecs);
            var ttl := Min(requestedTtlSecs, policyTtlSecs);
            if ttl <= 0 then e == None
            else e.Some? && 0 < e.value - nowMs <= Min(ttl, 86_400) * 1000
                 && Min(ttl, 86_400) * 1000 < e.value - nowMs + 1000
  {
  }

  // ---- the row MAC ----

  const BEARER_ROW_MAC_DOMAIN: Bytes := Ascii("env-ctl/v1/relay-bearer/row")

  /** Which plane a bearer is bound to, as a byte of the message. */
  function KindByte(c: Claims): byte { PutBool(c.clientId.Some?) }

  function BearerRowMessage(c: Claims): Bytes {
    BEARER_ROW_MAC_DOMAIN + ([KindByte(c)] + (PutField64(c.tokenId) + (PutI64(c.policyId) + TimesBytes(c))))
  }

  function TimesBytes(c: Claims): Bytes {
    PutI64(c.expiresAtMs) + (PutI64(c.issuedAtMs) + (PutI64(c.issuedBoottimeMs) + BindingBytes(c)))
  }

  function BindingBytes(c: Claims): Bytes {
    PutOptU32(c.clientUid) + (PutOptU32(c.clientPid) +
    (PutOptField64(c.clientId) + (PutOptDigest(c.dpopJkt) + [PutBool(c.revoked)])))
  }

  function DecodeBearerRow(b: Bytes): Option<Claims> {
    var body :- Expect(b, BEARER_ROW_MAC_DOMAIN);
    var kind :- GetBool(body);
    var tokenId :- GetField64(kind.rest);
    var policyId :- GetI64(tokenId.rest);
    var claims :- DecodeTimes(tokenId.value, policyId.value, policyId.rest);
    if kind.value == claims.clientId.Some? then Some(claims) else None
  }

  function DecodeTimes(tokenId: Text, policyId: I64, b: Bytes): Option<Claims> {
    var expires :- GetI64(b);
    var issued :- GetI64(expires.rest);
    var boot :- GetI64(issued.rest);
    DecodeBinding(tokenId, policyId, expires.value, issued.value, boot.value, boot.rest)
  }

  function DecodeBinding(tokenId: Text, policyId: I64, expires: I64, issued: I64, boot: I64, b: Bytes): Option<Claims> {
    var uid :- GetOptU32(b);
    var pid :- GetOptU32(uid.rest);
    var clientId :- GetOptField64(pid.rest);
    var jkt :- GetOptDigest(clientId.rest);
    var revoked :- GetBool(jkt.rest);
    if revoked.rest == [] then
      Some(Claims(tokenId, policyId, expires, issued, boot, uid.value, pid.value, clientId.value, jkt.value,
                  revoked.value))
    else None
  }

  /** A Rust string's length always fits the 64-bit prefix. */
  predicate ClaimsEncodable(c: Claims) {
    Fits64(c.tokenId) && (c.clientId.Some? ==> Fits64(c.clientId.value))
  }

  lemma BindingDecodes(c: Claims)
    requires ClaimsEncodable(c)
    ensures DecodeBinding(c.tokenId, c.policyId, c.expiresAtMs, c.issuedAtMs, c.issuedBoottimeMs, BindingBytes(c)) ==
            Some(c)
  {
    var r3 := [PutBool(c.revoked)];
    var r2 := PutOptDigest(c.dpopJkt) + r3;
    var r1 := PutOptField64(c.clientId) + r2;
    OptU32Back(c.clientUid, PutOptU32(c.clientPid) + r1);
    OptU32Back(c.clientPid, r1);
    OptField64Back(c.clientId, r2);
    OptDigestBack(c.dpopJkt, r3);
    BoolBack(c.revoked, []);
    assert r3 + [] == r3;
  }

  lemma TimesDecode(c: Claims)
    requires ClaimsEncodable(c)
    ensures DecodeTimes(c.tokenId, c.policyId, TimesBytes(c)) == Some(c)
  {
    var r2 := PutI64(c.issuedBoottimeMs) + BindingBytes(c);
    I64Back(c.expiresAtMs, PutI64(c.issuedAtMs) + r2);
    I64Back(c.issuedAtMs, r2);
    I64Back(c.issuedBoottimeMs, BindingBytes(c));
    BindingDecodes(c);
  }

  lemma BearerRowDecodes(c: Claims)
    requires ClaimsEncodable(c)
    ensures DecodeBearerRow(BearerRowMessage(c)) == Some(c)
  {
    var r2 := PutI64(c.policyId) + TimesBytes(c);
    var r1 := PutField64(c.tokenId) + r2;
    ExpectOwn(BEARER_ROW_MAC_DOMAIN, [KindByte(c)] + r1);
    BoolBack(c.clientId.Some?, r1);
    Field64Back(c.tokenId, r2);
    I64Back(c.policyId, TimesBytes(c));
    TimesDecode(c);
  }

  function RowMac(env: Env, dek: Dek, c: Claims): Digest {
    Mac(env, BearerRowKey, dek, BearerRowMessage(c))
  }

  /** `verify_bearer_row`: the stored tag is the one the claims call for. */
  predicate RowAuthentic(env: Env, dek: Dek, row: BearerRow) {
    row.rowMac == RowMac(env, dek, row.claims)
  }

  function WireMac(env: Env, dek: Dek, raw: Text): Digest { Mac(env, BearerWireKey, dek, raw) }

  /**
   A row that carries a tag the engine once issued and passes the check says exactly what the
   engine sealed under that tag, or the two messages collide.
   */
  lemma RowBinding(env: Env, dek: Dek, forged: BearerRow, sealed: Claims)
    requires ClaimsEncodable(forged.claims) && ClaimsEncodable(sealed)
    requires forged.rowMac == RowMac(env, dek, sealed)
    requires RowAuthentic(env, dek, forged)
    ensures forged.claims == sealed
         || MacCollision(env, BearerRowKey, dek, BearerRowMessage(forged.claims), BearerRowMessage(sealed))
  {
    BearerRowDecodes(forged.claims);
    BearerRowDecodes(sealed);
  }

  // ---- usage counters ----

  datatype BearerCounters = BearerCounters(windowStartMs: I64, inWindow: U32, totalRequests: U64, totalBytes: U64)

  const FRESH_COUNTERS: BearerCounters := BearerCounters(0, 0, 0, 0)
  const WINDOW_MS: int := 60_000

  function Bumped(c: BearerCounters, nowMs: I64, bytes: U64): BearerCounters {
    var restart := c.windowStartMs == 0 || Saturate(nowMs - c.windowStartMs) >= WINDOW_MS;
    BearerCounters(
      if restart then nowMs else c.windowStartMs,
      Min((if restart then 0 else c.inWindow) + 1, U32_MAX),
      Min(c.totalRequests + 1, U64_MAX),
      Min(c.totalBytes + bytes, U64_MAX))
  }

  function CountersFor(counters: map<Text, BearerCounters>, tokenId: Text): BearerCounters {
    if tokenId in counters then counters[tokenId] else FRESH_COUNTERS
  }

  class UsageCounters {
    var counters: map<Text, BearerCounters>

    constructor ()
      ensures counters == map[]
    {
      counters := map[];
    }

    /** Count one request and return the tallies including it; other bearers' counters stay put. */
    method Bump(tokenId: Text, nowMs: I64, bytes: U64) returns (requests: U64, totalBytes: U64, inWindow: U32)
      modifies this
      ensures counters == old(counters)[tokenId := Bumped(CountersFor(old(counters), tokenId), nowMs, bytes)]
      ensures requests == counters[tokenId].totalRequests
           && totalBytes == counters[tokenId].totalBytes
           && inWindow == counters[tokenId].inWindow
    {
      var c := if tokenId in counters then counters[tokenId] else FRESH_COUNTERS;
      if c.windowStartMs == 0 || Saturate(nowMs - c.windowStartMs) >= WINDOW_MS {
        c := c.(windowStartMs := nowMs);
        c := c.(inWindow := 0);
      }
      c := c.(inWindow := Min(c.inWindow + 1, U32_MAX));
      c := c.(totalRequests := Min(c.totalRequests + 1, U64_MAX));
      c := c.(totalBytes := Min(c.totalBytes + bytes, U64_MAX));
      counters := counters[tokenId := c];
      return c.totalRequests, c.totalBytes, c.inWindow;
    }
  }
}
