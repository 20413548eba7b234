/**
 The audit trail: the row each call leaves, told from the stored rows, the call and its answer; that it
 stays in the log for good; and that no secret is ever in it.
 */
module Trails {
  import opened Bytes
  import opened Environment
  import opened Audit
  import opened Keyslots
  import opened Broker
  import opened Decision
  import opened Wire
  import opened Store
  import opened Effects
  import opened Preservation
  import opened Histories
  import opened Swaps
  import opened Admissions

  // ---- the row of a call ----

  /** What a row says of the call it records. */
  datatype Line = Line(event: string, subject: Option<Text>, detail: Json, outcome: AuditOutcome)

  /** The row of a call with the answer given, if it leaves one. */
  function LineOf(env: Env, s: Snap, at: Reading, op: Op, reply: Reply): Option<Line> {
    match op
    case OpInit(i) => if reply == Done then Some(Line("vault_init", None, InitTold(i), Succeeded)) else None
    case OpUnlock(c) => if s.vault.Unlocked? then None else UnlockLine(env, s.store, at, c, reply)
    case OpLock => Some(Line("vault_locked", None, JsonObject([]), Succeeded))
    case OpPut(m, _, _) =>
      var version := JsonNumber(Succ32(MaxVersion(s.store.secrets, m.name)));
      if reply == Done then
        Some(Line("secret_written", Some(m.name), JsonObject([("version", version)]), Succeeded))
      else None
    case OpGet(name, show, _) => GetLine(s.store.secrets, name, show, reply)
    case OpMint(m) => MintLine(at, m, reply)
    case OpRevokeRelay(relayId, apply) => CountLine("relay_revoked", relayId, apply, reply)
    case OpRevokeBearer(tokenId, apply) => CountLine("relay_bearer_revoked", tokenId, apply, reply)
    case OpSwap(call) =>
      if reply.Swapped? then Some(SwapLine(SwapSubject(env, s, call, reply.outcome), call, reply.outcome)) else None
  }

  function InitTold(i: Enrolment): Json {
    JsonObject([("slots", JsonNumber(if i.usbKeyfile.Some? then 2 else 1)), ("dek_generation", JsonNumber(1))])
  }

  function ReasonDetail(reason: string): Json { JsonObject([("reason", JsonText(Ascii(reason)))]) }

  /** The reason a header mismatch records: the MAC, when it does not fit the DEK the slots gave. */
  function MismatchReason(env: Env, s: StoreState, at: Reading, c: Credential): string {
    var probe, floorMs := ProbeSlots(env, s.keyslots, c, at.usb), StoredFloor(s);
    if probe.Opened? && floorMs.Some?
       && StoredHeaderMac(s) != Some(HeaderMac(env, probe.dek, s.keyslots, floorMs.value))
    then "header_mac" else "dek_generation"
  }

  function UnlockLine(env: Env, s: StoreState, at: Reading, c: Credential, reply: Reply): Option<Line> {
    match reply
    case Done =>
      var factor := JsonText(Ascii(if c.ByUsb? then "usb" else "passphrase"));
      Some(Line("vault_unlocked", None, JsonObject([("factor", factor)]), Succeeded))
    case Failure(UnlockFailed) =>
      if StoredHeaderMac(s).None? || StoredFloor(s).None? then None
      else Some(Line("vault_unlock", None, JsonObject([]), Failed))
    case Failure(HeaderMacMismatch) =>
      Some(Line("vault_unlock", None, ReasonDetail(MismatchReason(env, s, at, c)), Failed))
    case Failure(AuditChainBroken) => Some(Line("vault_unlock", None, ReasonDetail("audit_chain"), Failed))
    case _ => None
  }

  /** What a read says: the version and whether it was revealed, or why it was not. */
  function GetLine(secrets: seq<SecretRow>, name: Text, show: bool, reply: Reply): Option<Line> {
    var version := JsonNumber(if Latest(secrets, name).Some? then Latest(secrets, name).value.version else 0);
    match reply
    case Body(_) =>
      var detail := JsonObject([("version", version), ("revealed", JsonBool(show))]);
      Some(Line("secret_read", Some(name), detail, Succeeded))
    case Failure(UnknownSecret) => Some(Line("secret_read", Some(name), ReasonDetail("not_found"), Failed))
    case Failure(SecretUnreadable) =>
      var detail := JsonObject([("reason", JsonText(Ascii("tamper"))), ("version", version)]);
      Some(Line("secret_read", Some(name), detail, Failed))
    case Failure(BrokerOnly) =>
      Some(Line("secret_read", Some(name), ReasonDetail("reveal refused: secret is broker-only"), Refused))
    case Failure(ApplyNotSet) =>
      Some(Line("secret_read", Some(name), ReasonDetail("reveal refused: apply not set (dry-run)"), Refused))
    case _ => None
  }

  /** What a mint says: the token, the kind of relay and the expiry, or why not. */
  function MintLine(at: Reading, m: Minting, reply: Reply): Option<Line> {
    match reply
    case Minted(relayId, tokenId, _) =>
      var expiry := ExpiryMs(at.nowMs, m.spec.policyTtlSecs, m.requestedTtlSecs);
      var kind := if m.spec.kind.Named? then "named" else "ephemeral";
      var detail := JsonObject([("token_id", JsonText(tokenId)), ("kind", JsonText(Ascii(kind))),
                                ("expires_at_ms", JsonNumber(if expiry.Some? then expiry.value else 0))]);
      Some(Line("relay_minted", Some(relayId), detail, Succeeded))
    case Failure(NoPrincipal) =>
      var why := ReasonDetail("bearer binding has no principal (uid/pid/client_id all absent)");
      Some(Line("relay_mint", Some(m.spec.relayId), why, Refused))
    case Failure(UsbAbsent) =>
      Some(Line("relay_mint", Some(m.spec.relayId), ReasonDetail("usb possession not proven"), Refused))
    case Failure(DeadTtl) =>
      Some(Line("relay_mint", Some(m.spec.relayId), ReasonDetail("ttl clamp refused (non-positive)"), Refused))
    case _ => None
  }

  /** A revocation records the count it answers. */
  function CountLine(event: string, subject: Text, apply: bool, reply: Reply): Option<Line> {
    if !reply.Count? then None
    else
      var counted := if apply then "revoked" else "would_revoke";
      var detail := JsonObject([("apply", JsonBool(apply)), (counted, JsonNumber(reply.count))]);
      Some(Line(event, Some(subject), detail, Succeeded))
  }

  /** The relay of the bearer presented, unless there is none or its secret could not be had. */
  function SwapSubject(env: Env, s: Snap, call: SwapCall, outcome: SwapOutcome): Option<Text> {
    if Presented(env, s, call.raw) && outcome != InternalRefused(UnknownSecret)
       && outcome != InternalRefused(SecretUnreadable)
    then Some(PolicyOf(env, s, call.raw).relayId) else None
  }

  /** What a swap says of itself: never more than the token's id, the host and verb, or why not. */
  function SwapDetail(call: SwapCall, outcome: SwapOutcome): Json {
    var token := ("token_id", OptText(ParseBearer(call.raw)));
    match outcome
    case Allowed =>
      JsonObject([token, ("host", JsonText(call.req.host)), ("method", JsonText(VerbText(call.req.verb))),
                  ("allowed", JsonBool(true))])
    case Denied(why) => JsonObject([token, ("reason", JsonText(ReasonText(why))), ("allowed", JsonBool(false))])
    case InternalRefused(UpstreamFailed) =>
      var kind := if call.upstream.FailsIo? then "io" else "host_not_allowed";
      JsonObject([token, ("reason", JsonText(Ascii("upstream"))), ("kind", JsonText(Ascii(kind)))])
    case InternalRefused(UpstreamFence) =>
      JsonObject([token, ("reason", JsonText(Ascii("upstream_fence"))), ("allowed", JsonBool(false))])
    case InternalRefused(cause) =>
      JsonObject([("reason", JsonText(Ascii("internal"))), ("detail", JsonText(CauseText(cause)))])
  }

  function SwapLine(subject: Option<Text>, call: SwapCall, outcome: SwapOutcome): Line {
    Line("relay_swapped", subject, SwapDetail(call, outcome), OutcomeOf(outcome))
  }

  /** The record is by the owner, at the time of the call, and says what the line says. */
  predicate Says(env: Env, rec: AuditRecord, ts: Text, l: Line) {
    && rec.ts == ts && rec.actorUid == Some(env.ownerUid) && rec.eventType == Ascii(l.event)
    && rec.subject == l.subject && rec.outcome == l.outcome
    && rec.detail == env.json(l.detail)
  }

  /** The row of an effect is the one the line tells, or there is none. */
  predicate Recorded(env: Env, e: Effect, ts: Text, l: Option<Line>) {
    if l.None? then e.row.None? else e.row.Some? && Says(env, e.row.value, ts, l.value)
  }

  /** The reasons an unlock is refused for once it has the DEK. */
  predicate Reasoned(verdict: Verdict, mismatch: string) {
    match verdict
    case Accept => true
    case Reject(why, HeaderMacMismatch) => why == ReasonDetail(mismatch)
    case Reject(why, AuditChainBroken) => why == ReasonDetail("audit_chain")
    case Reject(_, _) => false
    case Abort(error) => error == GenerationUnreadable
  }

  lemma VerdictReasoned(env: Env, s: StoreState, at: Reading, c: Credential, dek: Dek, header: StoredHeader)
    requires HeaderOf(s) == Some(header) && ProbeSlots(env, s.keyslots, c, at.usb) == Opened(dek)
    ensures Reasoned(UnlockVerdict(env, s, dek, header.mac, header.floorMs), MismatchReason(env, s, at, c))
  {
  }

  lemma JudgedTrail(env: Env, s: Snap, at: Reading, c: Credential, dek: Dek, verdict: Verdict)
    requires s.vault.Locked? && Reasoned(verdict, MismatchReason(env, s.store, at, c))
    ensures var e := UnlockJudged(env, s, at, c, dek, verdict);
            Recorded(env, e, at.ts, UnlockLine(env, s.store, at, c, e.reply))
  {
  }

  lemma UnlockTrail(env: Env, s: Snap, at: Reading, c: Credential)
    requires s.vault.Locked?
    ensures var e := UnlockEffect(env, s, at, c); Recorded(env, e, at.ts, UnlockLine(env, s.store, at, c, e.reply))
  {
    if HeaderOf(s.store).Some? {
      var probe := ProbeSlots(env, s.store.keyslots, c, at.usb);
      if probe.Opened? {
        var header := HeaderOf(s.store).value;
        VerdictReasoned(env, s.store, at, c, probe.dek, header);
        JudgedTrail(env, s, at, c, probe.dek, UnlockVerdict(env, s.store, probe.dek, header.mac, header.floorMs));
      }
    }
  }

  lemma UnreadTrail(env: Env, s: Snap, at: Reading, name: Text, show: bool, apply: bool)
    requires s.vault.Unlocked? && RealKey(env, s.vault.dek, s.store, name).Err?
    ensures var e := GetEffect(env, s, at, name, show, apply);
            Recorded(env, e, at.ts, GetLine(s.store.secrets, name, show, e.reply))
  {
  }

  lemma ReadTrail(env: Env, s: Snap, at: Reading, name: Text, show: bool, apply: bool)
    requires s.vault.Unlocked? && RealKey(env, s.vault.dek, s.store, name).Ok?
    ensures var e := GetEffect(env, s, at, name, show, apply);
            Recorded(env, e, at.ts, GetLine(s.store.secrets, name, show, e.reply))
  {
    var row := Latest(s.store.secrets, name).value;
    if !show {
      assert GetEffect(env, s, at, name, show, apply).reply == Body([]);
    } else if row.brokerOnly {
      assert GetEffect(env, s, at, name, show, apply).reply == Failure(BrokerOnly);
    }
  }

  lemma GetTrail(env: Env, s: Snap, at: Reading, name: Text, show: bool, apply: bool)
    ensures var e := GetEffect(env, s, at, name, show, apply);
            Recorded(env, e, at.ts, GetLine(s.store.secrets, name, show, e.reply))
  {
    if s.vault.Unlocked? {
      if RealKey(env, s.vault.dek, s.store, name).Ok? {
        ReadTrail(env, s, at, name, show, apply);
      } else {
        UnreadTrail(env, s, at, name, show, apply);
      }
    }
  }

  /** The refusal is one of the three, with its words. */
  predicate Worded(refusal: Option<(string, EngineError)>) {
    match refusal
    case None => true
    case Some((why, NoPrincipal)) => why == "bearer binding has no principal (uid/pid/client_id all absent)"
    case Some((why, UsbAbsent)) => why == "usb possession not proven"
    case Some((why, DeadTtl)) => why == "ttl clamp refused (non-positive)"
    case _ => false
  }

  lemma IssuedTrail(env: Env, s: Snap, at: Reading, m: Minting, dek: Dek, expiresAtMs: I64)
    requires ExpiryMs(at.nowMs, m.spec.policyTtlSecs, m.requestedTtlSecs) == Some(expiresAtMs)
    ensures var e := MintIssued(env, s, at, m, dek, expiresAtMs); Recorded(env, e, at.ts, MintLine(at, m, e.reply))
  {
  }

  lemma GatedTrail(env: Env, s: Snap, at: Reading, m: Minting, dek: Dek, refusal: Option<(string, EngineError)>)
    requires refusal.None? ==> ExpiryMs(at.nowMs, m.spec.policyTtlSecs, m.requestedTtlSecs).Some?
    requires Worded(refusal)
    ensures var e := MintGated(env, s, at, m, dek, refusal); Recorded(env, e, at.ts, MintLine(at, m, e.reply))
  {
    if refusal.None? {
      IssuedTrail(env, s, at, m, dek, ExpiryMs(at.nowMs, m.spec.policyTtlSecs, m.requestedTtlSecs).value);
    }
  }

  lemma RefusalNamed(s: StoreState, at: Reading, m: Minting)
    ensures MintRefusal(s, at, m).None? ==> ExpiryMs(at.nowMs, m.spec.policyTtlSecs, m.requestedTtlSecs).Some?
    ensures Worded(MintRefusal(s, at, m))
  {
  }

  lemma MintTrail(env: Env, s: Snap, at: Reading, m: Minting)
    ensures var e := MintEffect(env, s, at, m); Recorded(env, e, at.ts, MintLine(at, m, e.reply))
  {
    if s.vault.Unlocked? {
      RefusalNamed(s.store, at, m);
      GatedTrail(env, s, at, m, s.vault.dek, MintRefusal(s.store, at, m));
    }
  }

  lemma RelayTrail(env: Env, s: Snap, at: Reading, relayId: Text, apply: bool)
    ensures var e := RevokeRelayEffect(env, s, at, relayId, apply);
            Recorded(env, e, at.ts, CountLine("relay_revoked", relayId, apply, e.reply))
  {
  }

  lemma BearerTrail(env: Env, s: Snap, at: Reading, tokenId: Text, apply: bool)
    ensures var e := RevokeBearerEffect(env, s, at, tokenId, apply);
            Recorded(env, e, at.ts, CountLine("relay_bearer_revoked", tokenId, apply, e.reply))
  {
  }

  /** The row of a swap of a known bearer. */
  predicate SwapRecorded(env: Env, e: Effect, ts: Text, relayId: Text, call: SwapCall) {
    && e.reply.Swapped?
    && var o := e.reply.outcome;
       var subject := if o == InternalRefused(UnknownSecret) || o == InternalRefused(SecretUnreadable) then None
           else Some(relayId);
       Recorded(env, e, ts, Some(SwapLine(subject, call, o)))
  }

  lemma AnsweredTrail(env: Env, s: Snap, at: Reading, k: Screen, call: SwapCall, realKey: Bytes)
    requires k.Known? && ParseBearer(call.raw) == Some(k.row.claims.tokenId)
    requires HostIn(call.req.host, CanonicalUpstreams(k.policyRow.policy.provider)) && call.upstream.Answers?
    ensures SwapRecorded(env, SendEffect(env, s, at, k, call, realKey), at.ts, k.policyRow.policy.relayId, call)
  {
  }

  lemma UnansweredTrail(env: Env, s: Snap, at: Reading, k: Screen, call: SwapCall, realKey: Bytes)
    requires k.Known? && ParseBearer(call.raw) == Some(k.row.claims.tokenId)
    requires HostIn(call.req.host, CanonicalUpstreams(k.policyRow.policy.provider)) && !call.upstream.Answers?
    ensures SwapRecorded(env, SendEffect(env, s, at, k, call, realKey), at.ts, k.policyRow.policy.relayId, call)
  {
  }

  lemma SendTrail(env: Env, s: Snap, at: Reading, k: Screen, call: SwapCall, realKey: Bytes)
    requires k.Known? && ParseBearer(call.raw) == Some(k.row.claims.tokenId)
    ensures SwapRecorded(env, SendEffect(env, s, at, k, call, realKey), at.ts, k.policyRow.policy.relayId, call)
  {
    if HostIn(call.req.host, CanonicalUpstreams(k.policyRow.policy.provider)) {
      if call.upstream.Answers? {
        AnsweredTrail(env, s, at, k, call, realKey);
      } else {
        UnansweredTrail(env, s, at, k, call, realKey);
      }
    } else {
      FencedTrail(env, s, at, k, call, realKey);
    }
  }

  lemma FencedTrail(env: Env, s: Snap, at: Reading, k: Screen, call: SwapCall, realKey: Bytes)
    requires k.Known? && ParseBearer(call.raw) == Some(k.row.claims.tokenId)
    requires !HostIn(call.req.host, CanonicalUpstreams(k.policyRow.policy.provider))
    ensures SwapRecorded(env, SendEffect(env, s, at, k, call, realKey), at.ts, k.policyRow.policy.relayId, call)
  {
  }

  lemma DecidedTrail(env: Env, s: Snap, at: Reading, k: Screen, call: SwapCall)
    requires k.Known? && ParseBearer(call.raw) == Some(k.row.claims.tokenId)
    ensures SwapRecorded(env, DecidedEffect(env, s, at, k, call), at.ts, k.policyRow.policy.relayId, call)
  {
    var tokenId := k.row.claims.tokenId;
    var counted := s.(counters := s.counters[tokenId := BumpedFor(s, at, tokenId, call.req.bytesOut)]);
    var realKey := RealKey(env, k.dek, s.store, k.policyRow.policy.secretName);
    if Decide(SwapQuery(s, at, k, call.req)) == Allow && realKey.Ok? {
      SendTrail(env, counted, at, k, call, realKey.value);
    } else {
      UnsentTrail(env, s, at, k, call);
    }
  }

  lemma UnsentTrail(env: Env, s: Snap, at: Reading, k: Screen, call: SwapCall)
    requires k.Known? && ParseBearer(call.raw) == Some(k.row.claims.tokenId)
    requires Decide(SwapQuery(s, at, k, call.req)).Deny? ||
             RealKey(env, k.dek, s.store, k.policyRow.policy.secretName).Err?
    ensures SwapRecorded(env, DecidedEffect(env, s, at, k, call), at.ts, k.policyRow.policy.relayId, call)
  {
  }

  lemma UnknownTrail(env: Env, s: Snap, at: Reading, call: SwapCall)
    requires !ScreenBearer(env, s, call.raw).Known?
    ensures var e := SwapEffect(env, s, at, call);
      e.reply.Swapped? && Recorded(env, e, at.ts, Some(SwapLine(None, call, e.reply.outcome)))
  {
  }

  lemma SwapTrail(env: Env, s: Snap, at: Reading, call: SwapCall)
    ensures var e := SwapEffect(env, s, at, call);
      && e.reply.Swapped?
      && Recorded(env, e, at.ts, Some(SwapLine(SwapSubject(env, s, call, e.reply.outcome), call, e.reply.outcome)))
  {
    ScreenSpelled(env, s, call.raw);
    var k := ScreenBearer(env, s, call.raw);
    if k.Known? {
      DecidedTrail(env, s, at, k, call);
    } else {
      UnknownTrail(env, s, at, call);
    }
  }

  lemma InitTrail(env: Env, s: Snap, at: Reading, i: Enrolment)
    ensures var e := InitEffect(env, s, at, i);
            Recorded(env, e, at.ts, LineOf(env, s, at, OpInit(i), e.reply))
  {
  }

  lemma PutTrail(env: Env, s: Snap, at: Reading, m: SecretMeta, body: Bytes, nonce: Nonce)
    ensures var e := PutEffect(env, s, at, m, body, nonce);
            Recorded(env, e, at.ts, LineOf(env, s, at, OpPut(m, body, nonce), e.reply))
  {
  }

  lemma VaultTrail(env: Env, s: Snap, c: Call, e: Effect)
    requires (c.op.OpInit? || c.op.OpLock? || c.op.OpPut?) && e == EffectOf(env, s, c)
    ensures Recorded(env, e, c.at.ts, LineOf(env, s, c.at, c.op, e.reply))
  {
    match c.op {
      case OpInit(i) => InitTrail(env, s, c.at, i);
      case OpPut(m, body, nonce) => PutTrail(env, s, c.at, m, body, nonce);
      case OpLock =>
    }
  }

  lemma RevokeTrail(env: Env, s: Snap, c: Call, e: Effect)
    requires (c.op.OpRevokeRelay? || c.op.OpRevokeBearer?) && e == EffectOf(env, s, c)
    ensures Recorded(env, e, c.at.ts, LineOf(env, s, c.at, c.op, e.reply))
  {
    if c.op.OpRevokeRelay? {
      RelayTrail(env, s, c.at, c.op.relayId, c.op.relayApply);
    } else {
      BearerTrail(env, s, c.at, c.op.tokenId, c.op.bearerApply);
    }
  }

  /**
   Every call, over any state whatever: whether it leaves an audit row, and what that row says, told from
   the stored rows, the call and its answer.
   */
  lemma CallTrail(env: Env, s: Snap, c: Call, e: Effect)
    requires e == EffectOf(env, s, c)
    ensures Recorded(env, e, c.at.ts, LineOf(env, s, c.at, c.op, e.reply))
  {
    if c.op.OpInit? || c.op.OpLock? || c.op.OpPut? {
      VaultTrail(env, s, c, e);
    } else if c.op.OpGet? {
      GetTrail(env, s, c.at, c.op.name, c.op.show, c.op.getApply);
    } else if c.op.OpSwap? {
      SwapTrail(env, s, c.at, c.op.swap);
    } else if c.op.OpUnlock? {
      UnlockedTrail(env, s, c, e);
    } else if c.op.OpMint? {
      MintTrail(env, s, c.at, c.op.minting);
    } else {
      RevokeTrail(env, s, c, e);
    }
  }

  lemma UnlockedTrail(env: Env, s: Snap, c: Call, e: Effect)
    requires c.op.OpUnlock? && e == EffectOf(env, s, c)
    ensures Recorded(env, e, c.at.ts, LineOf(env, s, c.at, c.op, e.reply))
  {
    if s.vault.Locked? {
      UnlockTrail(env, s, c.at, c.op.credential);
    }
  }

  // ---- on a history ----

  /**
   A call finished at any point of any history leaves a row exactly when its line says so, and then the
   row that says it is in the log for good, at the place it was appended to.
   */
  lemma TrailStays(env: Env, xs: seq<Happening>, k: nat)
    requires IdealAead(env) && Orderly(env, xs) && |xs| <= U32_MAX && k < |xs| && xs[k].Completed?
    ensures var s, c := Run(env, xs[..k]), xs[k].call;
      var line := LineOf(env, s, c.at, c.op, EffectOf(env, s, c).reply);
      var n, log := |s.store.audit|, Run(env, xs).store.audit;
      if line.None? then Run(env, xs[..k + 1]).store.audit == s.store.audit
      else |Run(env, xs[..k + 1]).store.audit| == n + 1 && n < |log| && Says(env, log[n], c.at.ts, line.value)
  {
    var s, c := Run(env, xs[..k]), xs[k].call;
    OrderlyPrefix(env, xs, k + 1);
    LogGrows(env, xs, k + 1);
    assert xs[..k + 1][..k] == xs[..k];
    TrailStep(env, xs[..k], c, EffectOf(env, s, c));
  }

  lemma TrailStep(env: Env, xs: seq<Happening>, c: Call, e: Effect)
    requires IdealAead(env) && Orderly(env, xs) && |xs| < U32_MAX && FreshToken(Run(env, xs).store, c.op)
    requires e == EffectOf(env, Run(env, xs), c)
    ensures var s, line := Run(env, xs), LineOf(env, Run(env, xs), c.at, c.op, e.reply);
      var log := After(env, s, e).store.audit;
      if line.None? then log == s.store.audit
      else |log| == |s.store.audit| + 1 && Says(env, log[|s.store.audit|], c.at.ts, line.value)
  {
    CoreHasNoRows(env, xs, c, e);
    RowAppended(env, Run(env, xs).store, e);
    CallTrail(env, Run(env, xs), c, e);
  }

  // ---- no secret in it ----

  /** Whatever body is put: the audit row is the same, and so is every stored field but the ciphertext. */
  lemma PutTellsNothing(env: Env, s: Snap, at: Reading, m: SecretMeta, nonce: Nonce, body: Bytes, other: Bytes)
    ensures var e, f := PutEffect(env, s, at, m, body, nonce), PutEffect(env, s, at, m, other, nonce);
      && f.row == e.row && f.reply == e.reply && |f.core| == |e.core|
      && forall j :: 0 <= j < |e.core| && f.core[j] != e.core[j] ==>
           && e.core[j].WriteSecret? && f.core[j].WriteSecret?
           && f.core[j].secret == e.core[j].secret.(ctTag := f.core[j].secret.ctTag)
  {
  }

  /** The writes are the same but for the tag of a bearer's string. */
  predicate SameButWireMac(ws: seq<Write>, vs: seq<Write>) {
    |vs| == |ws| && forall j :: 0 <= j < |ws| && vs[j] != ws[j] ==>
      && ws[j].WriteBearer? && vs[j].WriteBearer? && vs[j].bearer == ws[j].bearer.(wireMac := vs[j].bearer.wireMac)
  }

  lemma IssuedTellsNothing(env: Env, s: Snap, at: Reading, m: Minting, secretBytes: Drawn, dek: Dek, expiresAtMs: I64)
    ensures var e, f := MintIssued(env, s, at, m, dek, expiresAtMs),
            MintIssued(env, s, at, m.(secretBytes := secretBytes), dek, expiresAtMs);
            f.row == e.row && SameButWireMac(e.core, f.core)
  {
  }

  /** Whatever secret a bearer is minted with: the audit row is the same, and all that is stored but one tag. */
  lemma MintTellsNothing(env: Env, s: Snap, at: Reading, m: Minting, secretBytes: Drawn)
    ensures var e, f := MintEffect(env, s, at, m), MintEffect(env, s, at, m.(secretBytes := secretBytes));
            f.row == e.row && SameButWireMac(e.core, f.core)
  {
    var other := m.(secretBytes := secretBytes);
    var expiry := ExpiryMs(at.nowMs, m.spec.policyTtlSecs, m.requestedTtlSecs);
    assert MintRefusal(s.store, at, other) == MintRefusal(s.store, at, m);
    if s.vault.Unlocked? && MintRefusal(s.store, at, m).None? && expiry.Some? {
      IssuedTellsNothing(env, s, at, m, secretBytes, s.vault.dek, expiry.value);
    }
  }

  /** Environments that differ only in what ciphertexts open to; the secret is readable in both or in neither. */
  ghost predicate Twins(env: Env, other: Env, s: Snap, name: Text) {
    && other == env.(open := other.open)
    && (s.vault.Unlocked? ==>
          (RealKey(other, s.vault.dek, s.store, name).Ok? <==> RealKey(env, s.vault.dek, s.store, name).Ok?))
  }

  /** Whatever a stored secret opens to: reading it leaves the same audit row. */
  lemma GetTellsNothing(env: Env, other: Env, s: Snap, at: Reading, name: Text, show: bool, apply: bool)
    requires Twins(env, other, s, name)
    ensures GetEffect(other, s, at, name, show, apply).row == GetEffect(env, s, at, name, show, apply).row
  {
    if s.vault.Unlocked? && RealKey(env, s.vault.dek, s.store, name).Ok? {
      ReadTellsNothing(env, other, s, at, name, show, apply);
    }
  }

  lemma ReadTellsNothing(env: Env, other: Env, s: Snap, at: Reading, name: Text, show: bool, apply: bool)
    requires s.vault.Unlocked? && RealKey(env, s.vault.dek, s.store, name).Ok? && Twins(env, other, s, name)
    ensures GetEffect(other, s, at, name, show, apply).row == GetEffect(env, s, at, name, show, apply).row
  {
  }

  lemma SameScreen(env: Env, other: Env, s: Snap, raw: Text)
    requires other == env.(open := other.open)
    ensures ScreenBearer(other, s, raw) == ScreenBearer(env, s, raw)
  {
  }

  lemma DecidedTellsNothing(env: Env, other: Env, s: Snap, at: Reading, k: Screen, call: SwapCall)
    requires k.Known? && s.vault == Unlocked(k.dek) && Twins(env, other, s, k.policyRow.policy.secretName)
    ensures DecidedEffect(other, s, at, k, call).row == DecidedEffect(env, s, at, k, call).row
  {
    var tokenId := k.row.claims.tokenId;
    var counted := s.(counters := s.counters[tokenId := BumpedFor(s, at, tokenId, call.req.bytesOut)]);
    var name := k.policyRow.policy.secretName;
    var realKey, otherKey := RealKey(env, k.dek, s.store, name), RealKey(other, k.dek, s.store, name);
    if realKey.Ok? {
      SendTellsNothing(env, other, counted, at, k, call, realKey.value, otherKey.value);
    }
  }

  lemma SendTellsNothing(env: Env, other: Env, s: Snap, at: Reading, k: Screen, call: SwapCall, realKey: Bytes,
                         otherKey: Bytes)
    requires k.Known? && other == env.(open := other.open)
    ensures SendEffect(other, s, at, k, call, otherKey).row == SendEffect(env, s, at, k, call, realKey).row
  {
  }

  /** Whatever the real key is: the swap that sends it leaves the same audit row. */
  lemma SwapTellsNothing(env: Env, other: Env, s: Snap, at: Reading, call: SwapCall)
    requires other == env.(open := other.open)
    requires var k := ScreenBearer(env, s, call.raw); k.Known? ==> Twins(env, other, s, k.policyRow.policy.secretName)
    ensures SwapEffect(other, s, at, call).row == SwapEffect(env, s, at, call).row
  {
    SameScreen(env, other, s, call.raw);
    var k := ScreenBearer(env, s, call.raw);
    if k.Known? {
      DecidedTellsNothing(env, other, s, at, k, call);
    }
  }
}
