/**
 Who gets through: the answers of a swap and of a mint, told from the stored rows, the request, both
 clocks, the counters and the keyfiles at hand.
 */
module Admissions {
  import opened Bytes
  import opened Environment
  import opened Keyslots
  import opened Broker
  import opened Decision
  import opened Wire
  import opened Store
  import opened Effects
  import opened Invariants
  import opened Preservation
  import opened Histories
  import opened Vaults
  import opened Bearers

  // ---- the USB gate ----

  predicate UsbSlotStored(slots: seq<Keyslot>) {
    exists i :: 0 <= i < |slots| && slots[i].enabled && slots[i].factor == Factor.Usb
  }

  predicate UsbSlotAtHand(slots: seq<Keyslot>, usb: map<Text, Bytes>) {
    exists i :: 0 <= i < |slots| && slots[i].enabled && slots[i].factor == Factor.Usb
      && slots[i].usbPartitionUuid.Some? && slots[i].usbPartitionUuid.value in usb
  }

  /** No enabled USB slot is stored, or the keyfile of one is at hand. */
  predicate UsbGateOpen(slots: seq<Keyslot>, usb: map<Text, Bytes>) {
    !UsbSlotStored(slots) || UsbSlotAtHand(slots, usb)
  }

  lemma UsbGateSpelled(slots: seq<Keyslot>, usb: map<Text, Bytes>)
    ensures UsbProven(slots, usb) <==> UsbGateOpen(slots, usb)
  {
    forall i | 0 <= i < |slots| && GatesUsb(slots[i]) ensures UsbSlotStored(slots) {
    }
    forall i | 0 <= i < |slots| && ProvesUsb(slots[i], usb) ensures UsbSlotAtHand(slots, usb) {
    }
    if UsbSlotStored(slots) {
      var i :| 0 <= i < |slots| && slots[i].enabled && slots[i].factor == Factor.Usb;
      assert GatesUsb(slots[i]);
    }
    if UsbSlotAtHand(slots, usb) {
      var i :| 0 <= i < |slots| && slots[i].enabled && slots[i].factor == Factor.Usb
               && slots[i].usbPartitionUuid.Some? && slots[i].usbPartitionUuid.value in usb;
      assert ProvesUsb(slots[i], usb);
    }
  }

  // ---- the swap ----

  /** What the counters of a token come to with one more request. */
  function Counted(c: BearerCounters, nowMs: I64, bytes: U64): (r: (U64, U64, U32)) {
    var restarts := c.windowStartMs == 0 || nowMs - c.windowStartMs >= 60_000;
    (Min(c.totalRequests + 1, U64_MAX), Min(c.totalBytes + bytes, U64_MAX),
     if restarts then 1 else Min(c.inWindow + 1, U32_MAX))
  }

  /** What a swap asks of the decision, field by field. */
  function Asked(s: Snap, at: Reading, row: BearerRow, policy: RelayPolicy, req: EgressReq, floorMs: I64): Query {
    var c := if row.claims.tokenId in s.counters then s.counters[row.claims.tokenId] else BearerCounters(0, 0, 0, 0);
    var (requests, bytes, inWindow) := Counted(c, at.nowMs, req.bytesOut);
    Query(policy, row.claims,
          CanonRequest(req.verb, req.host, TrustedSniFor(policy.swap), req.path, req.bytesOut, req.peerUid, req.peerPid,
                       requests, bytes, inWindow, None),
          at.nowMs, at.bootMs, if UsbGateOpen(s.store.keyslots, at.usb) then None else Some(at.nowMs), floorMs)
  }

  /** The string is that of a stored bearer, neither it nor its row was altered, and its policy is stored. */
  predicate Presented(env: Env, s: Snap, raw: Text) {
    && s.vault.Unlocked? && StoredFloor(s.store).Some?
    && ParseBearer(raw).Some? && LoadBearer(s.store, ParseBearer(raw).value).Some?
    && var row := LoadBearer(s.store, ParseBearer(raw).value).value;
       && row.wireMac == WireMac(env, s.vault.dek, raw) && row.rowMac == RowMac(env, s.vault.dek, row.claims)
       && FindPolicyById(s.store, row.claims.policyId).Some?
  }

  function RowOf(s: Snap, raw: Text): BearerRow
    requires ParseBearer(raw).Some? && LoadBearer(s.store, ParseBearer(raw).value).Some?
  {
    LoadBearer(s.store, ParseBearer(raw).value).value
  }

  function PolicyOf(env: Env, s: Snap, raw: Text): RelayPolicy
    requires Presented(env, s, raw)
  {
    FindPolicyById(s.store, RowOf(s, raw).claims.policyId).value.policy
  }

  function QueryOf(env: Env, s: Snap, at: Reading, call: SwapCall): Query
    requires Presented(env, s, call.raw)
  {
    Asked(s, at, RowOf(s, call.raw), PolicyOf(env, s, call.raw), call.req, StoredFloor(s.store).value)
  }

  /** The answer of a swap whose request the decision allows. */
  function ExpectedSend(env: Env, s: Snap, secretName: Text, upstream: Upstream): SwapOutcome
    requires s.vault.Unlocked?
  {
    var secret := Latest(s.store.secrets, secretName);
    if secret.None? then InternalRefused(UnknownSecret)
    else if OpenSecret(env, s.vault.dek, secret.value).None? then InternalRefused(SecretUnreadable)
    else if upstream.Answers? then Allowed
    else InternalRefused(UpstreamFailed)
  }

  /** The answer of a swap. */
  function ExpectedSwap(env: Env, s: Snap, at: Reading, call: SwapCall): SwapOutcome {
    if ParseBearer(call.raw).None? then Denied(UnknownBearer)
    else if s.vault.Locked? then InternalRefused(VaultIsLocked)
    else if StoredFloor(s.store).None? then InternalRefused(UnlockFailed)
    else if !Presented(env, s, call.raw) then Denied(UnknownBearer)
    else
      var f := FirstFailing(QueryOf(env, s, at, call), 0);
      if f < 22 then Denied(ReasonFor(f))
      else ExpectedSend(env, s, PolicyOf(env, s, call.raw).secretName, call.upstream)
  }

  lemma AskedIsSpelled(s: Snap, at: Reading, k: Screen, req: EgressReq)
    requires k.Known?
    ensures SwapQuery(s, at, k, req) == Asked(s, at, k.row, k.policyRow.policy, req, k.floorMs)
  {
    UsbGateSpelled(s.store.keyslots, at.usb);
  }

  lemma ScreenSpelled(env: Env, s: Snap, raw: Text)
    ensures ScreenBearer(env, s, raw).Known? <==> Presented(env, s, raw)
    ensures Presented(env, s, raw) ==>
      var k := ScreenBearer(env, s, raw);
      && k.row == RowOf(s, raw) && k.policyRow.policy == PolicyOf(env, s, raw)
      && k.dek == s.vault.dek && k.floorMs == StoredFloor(s.store).value
  {
  }

  lemma SendAnswers(env: Env, s: Snap, at: Reading, k: Screen, call: SwapCall)
    requires k.Known? && s.vault == Unlocked(k.dek) && Decide(SwapQuery(s, at, k, call.req)) == Allow
    ensures DecidedEffect(env, s, at, k, call).reply
         == Swapped(ExpectedSend(env, s, k.policyRow.policy.secretName, call.upstream))
  {
    var q := SwapQuery(s, at, k, call.req);
    AllowIffEveryClause(q);
    assert Holds(8, q);
    UpstreamsServe(q.p.provider, q.req.host);
  }

  lemma DecidedAnswers(env: Env, s: Snap, at: Reading, k: Screen, call: SwapCall)
    requires k.Known? && s.vault == Unlocked(k.dek)
    ensures var f := FirstFailing(Asked(s, at, k.row, k.policyRow.policy, call.req, k.floorMs), 0);
            DecidedEffect(env, s, at, k, call).reply
              == Swapped(if f < 22 then Denied(ReasonFor(f))
                         else ExpectedSend(env, s, k.policyRow.policy.secretName, call.upstream))
  {
    AskedIsSpelled(s, at, k, call.req);
    DecideIsClauseTable(SwapQuery(s, at, k, call.req));
    if Decide(SwapQuery(s, at, k, call.req)) == Allow {
      SendAnswers(env, s, at, k, call);
    }
  }

  /** Every answer of every swap, over any state whatever. */
  lemma SwapAnswers(env: Env, s: Snap, at: Reading, call: SwapCall)
    ensures SwapEffect(env, s, at, call).reply == Swapped(ExpectedSwap(env, s, at, call))
  {
    ScreenSpelled(env, s, call.raw);
    var k := ScreenBearer(env, s, call.raw);
    if k.Known? {
      DecidedAnswers(env, s, at, k, call);
    } else {
      UnknownAnswers(env, s, at, call);
    }
  }

  lemma UnknownAnswers(env: Env, s: Snap, at: Reading, call: SwapCall)
    requires !ScreenBearer(env, s, call.raw).Known?
    ensures SwapEffect(env, s, at, call).reply
         == Swapped(if ParseBearer(call.raw).None? then Denied(UnknownBearer)
                    else if s.vault.Locked? then InternalRefused(VaultIsLocked)
                    else if StoredFloor(s.store).None? then InternalRefused(UnlockFailed)
                    else Denied(UnknownBearer))
  {
  }

  // ---- when a swap is allowed ----

  /** What the policy allows: the request, and the bearer's use so far. */
  predicate PolicyAllows(p: RelayPolicy, nowMs: I64, issuedAtMs: I64, req: EgressReq, c: BearerCounters) {
    var (requests, bytes, inWindow) := Counted(c, nowMs, req.bytesOut);
    && p.enabled && !p.revoked && nowMs < issuedAtMs + Saturate(p.policyTtlSecs * 1000)
    && NamesHost(p.hostAllow, req.host) && ServedBy(p.provider, req.host) && !p.swap.ProxyMitm?
    && AdmitsPath(p.pathAllow, req.path) && req.verb in p.methodAllow
    && (p.quotaTotalRequests.Some? ==> requests <= p.quotaTotalRequests.value)
    && (p.quotaTotalBytes.Some? ==> bytes <= p.quotaTotalBytes.value)
    && (p.ratePerMin.Some? ==> inWindow < p.ratePerMin.value)
  }

  /** What the bearer allows: its life on both clocks, and the peer it is bound to. */
  predicate BearerAllows(b: Claims, at: Reading, floorMs: I64, req: EgressReq) {
    && !b.revoked && b.clientId.None?
    && (b.clientUid.Some? ==> req.peerUid == b.clientUid) && (b.clientPid.Some? ==> req.peerPid == b.clientPid)
    && floorMs <= at.nowMs && b.issuedAtMs <= at.nowMs < b.expiresAtMs
    && 0 <= at.bootMs - b.issuedBoottimeMs < Min(b.expiresAtMs - b.issuedAtMs, I64_MAX)
    && Abs(Min(at.nowMs - b.issuedAtMs, I64_MAX) - (at.bootMs - b.issuedBoottimeMs)) <= 60_000
  }

  function CountersOf(s: Snap, tokenId: Text): BearerCounters {
    if tokenId in s.counters then s.counters[tokenId] else BearerCounters(0, 0, 0, 0)
  }

  /** The policy, the bearer and the gate all allow the request. */
  predicate AllAllow(s: Snap, at: Reading, row: BearerRow, p: RelayPolicy, req: EgressReq, floorMs: I64) {
    && PolicyAllows(p, at.nowMs, row.claims.issuedAtMs, req, CountersOf(s, row.claims.tokenId))
    && BearerAllows(row.claims, at, floorMs, req) && UsbGateOpen(s.store.keyslots, at.usb)
  }

  lemma NoClauseFails(s: Snap, at: Reading, row: BearerRow, p: RelayPolicy, req: EgressReq, floorMs: I64)
    requires FirstFailing(Asked(s, at, row, p, req, floorMs), 0) == 22
    ensures AllAllow(s, at, row, p, req, floorMs)
  {
    var q := Asked(s, at, row, p, req, floorMs);
    DecideIsClauseTable(q);
    if p.swap.ProxyMitm? {
      ProxyMitmNeverAllowed(q);
    }
    AllClauses(q);
  }

  lemma ClausesSpelled(s: Snap, at: Reading, row: BearerRow, p: RelayPolicy, req: EgressReq, floorMs: I64)
    ensures FirstFailing(Asked(s, at, row, p, req, floorMs), 0) == 22 <==> AllAllow(s, at, row, p, req, floorMs)
  {
    var q := Asked(s, at, row, p, req, floorMs);
    if FirstFailing(q, 0) == 22 {
      NoClauseFails(s, at, row, p, req, floorMs);
    } else {
      OneClause(q, FirstFailing(q, 0));
    }
  }

  /** A clause that fails is one of these. */
  lemma OneClause(q: Query, f: nat)
    requires f < 22 && !Holds(f, q) && q.req.remote.None?
    ensures || !(Holds(0, q) && Holds(1, q) && Holds(2, q) && Holds(3, q) && Holds(4, q) && Holds(5, q) && Holds(6, q))
            || !(Holds(7, q) && Holds(8, q) && Holds(9, q) && Holds(12, q) && Holds(13, q) && Holds(14, q))
            || !(Holds(15, q) && Holds(16, q) && Holds(17, q) && Holds(18, q))
            || !(Holds(19, q) && Holds(20, q) && Holds(21, q))
  {
    assert Holds(10, q) && Holds(11, q);
  }

  lemma AllClauses(q: Query)
    requires forall k :: 0 <= k < 22 ==> Holds(k, q)
    ensures Holds(0, q) && Holds(1, q) && Holds(2, q) && Holds(3, q) && Holds(4, q) && Holds(5, q) && Holds(6, q)
    ensures Holds(7, q) && Holds(8, q) && Holds(9, q) && Holds(12, q) && Holds(13, q) && Holds(15, q)
    ensures Holds(16, q) && Holds(17, q) && Holds(18, q) && Holds(19, q) && Holds(20, q) && Holds(21, q)
  {
  }

  /**
   A swap is allowed if and only if it presents an unaltered stored bearer under an unlocked vault, the
   policy allows the request, the bearer is alive and used by the peer it is bound to, the USB gate is
   open, the secret is there and readable, and the upstream answers.
   */
  lemma SwapAllowedExactly(env: Env, s: Snap, at: Reading, call: SwapCall)
    ensures (SwapEffect(env, s, at, call).reply == Swapped(Allowed)) <==>
      (&& Presented(env, s, call.raw)
       && var b, p := RowOf(s, call.raw).claims, PolicyOf(env, s, call.raw);
          && PolicyAllows(p, at.nowMs, b.issuedAtMs, call.req, CountersOf(s, b.tokenId))
          && BearerAllows(b, at, StoredFloor(s.store).value, call.req)
          && UsbGateOpen(s.store.keyslots, at.usb)
          && ExpectedSend(env, s, p.secretName, call.upstream) == Allowed)
  {
    SwapAnswers(env, s, at, call);
    if Presented(env, s, call.raw) {
      ClausesSpelled(s, at, RowOf(s, call.raw), PolicyOf(env, s, call.raw), call.req, StoredFloor(s.store).value);
    }
  }

  // ---- on a history ----

  lemma EnrolledGate(env: Env, i: Enrolment, usb: map<Text, Bytes>)
    requires i.usbKeyfile.Some? ==> i.usbUuid.Some?
    ensures UsbGateOpen(EnrolledSlots(env, i), usb) <==> (i.usbKeyfile.None? || i.usbUuid.value in usb)
  {
    var slots := EnrolledSlots(env, i);
    assert slots[0].factor == Factor.Passphrase;
    if i.usbKeyfile.Some? {
      assert slots[1] == UsbSlot(env, i, i.usbKeyfile.value);
    }
  }

  /**
   At any point of any history: the floor is the time of the init, the USB gate is open exactly when no
   keyfile was enrolled or its partition is at hand, and the secret is there exactly when something was
   put under its name.
   */
  lemma SwapOnHistory(env: Env, xs: seq<Happening>, at: Reading, call: SwapCall)
    requires IdealAead(env) && Orderly(env, xs) && |xs| <= U32_MAX
    ensures (SwapEffect(env, Run(env, xs), at, call).reply == Swapped(Allowed)) <==>
      (&& Presented(env, Run(env, xs), call.raw) && GenesisOf(env, xs).Some?
       && var s, g := Run(env, xs), GenesisOf(env, xs).value;
          var b, p := RowOf(s, call.raw).claims, PolicyOf(env, s, call.raw);
          && PolicyAllows(p, at.nowMs, b.issuedAtMs, call.req, CountersOf(s, b.tokenId))
          && BearerAllows(b, at, g.floorMs, call.req)
          && (g.enrolment.usbKeyfile.Some? ==> g.enrolment.usbUuid.Some? && g.enrolment.usbUuid.value in at.usb)
          && Told(env, xs, p.secretName) != [] && call.upstream.Answers?)
  {
    HistoryInvariant(env, xs);
    SwapAllowedExactly(env, Run(env, xs), at, call);
    if GenesisOf(env, xs).Some? && Presented(env, Run(env, xs), call.raw) {
      var name := PolicyOf(env, Run(env, xs), call.raw).secretName;
      VaultIsMap(env, xs, name);
      LiveSwap(env, GenesisOf(env, xs).value, Run(env, xs), at, name, call.upstream, Told(env, xs, name));
    }
  }

  lemma LiveSwap(env: Env, g: Genesis, s: Snap, at: Reading, name: Text, upstream: Upstream, told: seq<Entry>)
    requires Live(env, g, s) && s.vault.Unlocked? && told == Book(env, g.enrolment.dek, s.store.secrets, name)
    ensures StoredFloor(s.store) == Some(g.floorMs)
    ensures g.enrolment.usbKeyfile.Some? ==> g.enrolment.usbUuid.Some?
    ensures UsbGateOpen(s.store.keyslots, at.usb) <==>
              (g.enrolment.usbKeyfile.None? || g.enrolment.usbUuid.value in at.usb)
    ensures (ExpectedSend(env, s, name, upstream) == Allowed) <==> (told != [] && upstream.Answers?)
  {
    DecimalParses(g.floorMs);
    EnrolledGate(env, g.enrolment, at.usb);
    SecretThere(env, g.enrolment.dek, s.store.secrets, s.store.nextSecretRowId, name);
  }

  lemma SecretThere(env: Env, dek: Dek, secrets: seq<SecretRow>, nextRowId: I64, name: Text)
    requires SecretsOk(env, dek, secrets, nextRowId)
    ensures Latest(secrets, name).Some? <==> Book(env, dek, secrets, name) != []
    ensures Latest(secrets, name).Some? ==> OpenSecret(env, dek, Latest(secrets, name).value).Some?
  {
    LatestIsNewest(env, dek, secrets, nextRowId, name);
    LatestOpens(env, dek, secrets, nextRowId, name);
  }

  /** Every stored secret opens. */
  lemma LatestOpens(env: Env, dek: Dek, secrets: seq<SecretRow>, nextRowId: I64, name: Text)
    requires SecretsOk(env, dek, secrets, nextRowId)
    ensures Latest(secrets, name).Some? ==> OpenSecret(env, dek, Latest(secrets, name).value).Some?
  {
    if Latest(secrets, name).Some? {
      var j :| 0 <= j < |secrets| && secrets[j] == Latest(secrets, name).value;
      assert SecretOk(env, dek, secrets, nextRowId, j);
    }
  }

  // ---- the mint ----

  /** The relay a mint is for: the one named, or for an ephemeral relay without a name one made of random bytes. */
  function RelayNamed(m: Minting): Text {
    if m.spec.kind.Ephemeral? && m.spec.relayId == [] then Ascii("eph_") + HexText(m.relayBytes) else m.spec.relayId
  }

  /** Why a mint on an unlocked vault is refused, if it is. */
  function ExpectedRefusal(slots: seq<Keyslot>, at: Reading, m: Minting): Option<EngineError> {
    if m.binding.Local? && m.binding.peerUid.None? && m.binding.peerPid.None? then Some(NoPrincipal)
    else if !UsbGateOpen(slots, at.usb) then Some(UsbAbsent)
    else if m.requestedTtlSecs <= 0 || m.spec.policyTtlSecs <= 0 then Some(DeadTtl)
    else None
  }

  /** The answer of a mint that goes through: the relay, the token and the string. */
  function Handed(m: Minting): Reply {
    Minted(RelayNamed(m), HexText(m.tokenBytes), WireBearer(HexText(m.tokenBytes), B64Text(m.secretBytes)))
  }

  /** The answer of a mint. */
  function ExpectedMint(s: Snap, at: Reading, m: Minting): Reply {
    if s.vault.Locked? then Failure(VaultIsLocked)
    else
      match ExpectedRefusal(s.store.keyslots, at, m)
      case Some(error) => Failure(error)
      case None => Handed(m)
  }

  lemma RefusalSpelled(s: StoreState, at: Reading, m: Minting)
    ensures var refusal := MintRefusal(s, at, m);
      ExpectedRefusal(s.keyslots, at, m) == if refusal.Some? then Some(refusal.value.1) else None
    ensures MintRefusal(s, at, m).None? ==> ExpiryMs(at.nowMs, m.spec.policyTtlSecs, m.requestedTtlSecs).Some?
  {
    UsbGateSpelled(s.keyslots, at.usb);
  }

  lemma GatedAnswers(env: Env, s: Snap, at: Reading, m: Minting, dek: Dek, refusal: Option<(string, EngineError)>)
    requires refusal.None? ==> ExpiryMs(at.nowMs, m.spec.policyTtlSecs, m.requestedTtlSecs).Some?
    ensures var e := MintGated(env, s, at, m, dek, refusal);
      if refusal.Some? then e.reply == Failure(refusal.value.1) && e.core == []
      else e.reply == Handed(m)
  {
  }

  /** Every answer of every mint, over any state whatever; a refused mint writes no policy and no bearer. */
  lemma MintAnswers(env: Env, s: Snap, at: Reading, m: Minting)
    ensures MintEffect(env, s, at, m).reply == ExpectedMint(s, at, m)
    ensures ExpectedMint(s, at, m).Failure? ==> MintEffect(env, s, at, m).core == []
  {
    RefusalSpelled(s.store, at, m);
    if s.vault.Unlocked? {
      GatedAnswers(env, s, at, m, s.vault.dek, MintRefusal(s.store, at, m));
    }
  }

  // ---- from the mint to the swap ----

  /** A mint grants at most a day, so no difference of its instants saturates. */
  lemma LifeFits(c: Call)
    requires c.op.OpMint?
    ensures LifeOf(c) <= 86_400_000
  {
  }

  /** The row allows a request in terms of the mint that issued it. */
  lemma IssuedAllows(env: Env, s: Snap, c: Call, b: BearerRow, at: Reading, floorMs: I64, req: EgressReq)
    requires c.op.OpMint? && IssuedBy(env, s, Completed(c), b) && !b.claims.revoked
    ensures BearerAllows(b.claims, at, floorMs, req) <==>
              UsedBy(c.op.minting.binding, req) && WithinLife(c.at, at, LifeOf(c)) && floorMs <= at.nowMs
  {
    IssuedBinding(env, s, Completed(c), b);
    IssuedLifetime(env, s, Completed(c), b);
    LifeFits(c);
  }

  /**
   At any point of any history: the string a mint just answered is allowed to make a request if and only
   if the policy asked for allows it, it comes from the peer the mint named, within the lifetime granted
   on both clocks and not before the vault was set up, the USB gate is open, something was put under the
   policy's secret name, and the upstream answers.
   */
  lemma MintThenSwap(env: Env, xs: seq<Happening>, c: Call, at: Reading, call: SwapCall)
    requires IdealAead(env) && Orderly(env, xs) && |xs| < U32_MAX && FreshToken(Run(env, xs).store, c.op)
    requires c.op.OpMint? && EffectOf(env, Run(env, xs), c).reply.Minted?
    requires call.raw == EffectOf(env, Run(env, xs), c).reply.raw
    ensures GenesisOf(env, xs).Some?
    ensures var s, m, g := Run(env, xs), c.op.minting, GenesisOf(env, xs).value;
      (SwapEffect(env, Step(env, s, c), at, call).reply == Swapped(Allowed)) <==>
        (&& PolicyAllows(m.spec, at.nowMs, c.at.nowMs, call.req, CountersOf(s, HexText(m.tokenBytes)))
         && UsedBy(m.binding, call.req) && WithinLife(c.at, at, LifeOf(c)) && g.floorMs <= at.nowMs
         && (g.enrolment.usbKeyfile.Some? ==> g.enrolment.usbUuid.Some? && g.enrolment.usbUuid.value in at.usb)
         && Told(env, xs, m.spec.secretName) != [] && call.upstream.Answers?)
  {
    var e, longer := EffectOf(env, Run(env, xs), c), xs + [Completed(c)];
    var t := After(env, Run(env, xs), e);
    MintExtends(env, xs, c, e, c.op.minting.spec.secretName);
    FreshKnown(env, xs, c, e, t);
    FreshAnswers(env, xs, c, longer, t, at, call);
  }

  /** What the screen finds of the string a mint answered. */
  predicate FreshIn(env: Env, s: Snap, c: Call, t: Snap, raw: Text)
    requires c.op.OpMint?
  {
    var k := ScreenBearer(env, t, raw);
    && k.Known? && k.row.claims.tokenId == TokenOf(c.op.minting) && !k.row.claims.revoked
    && k.policyRow.policy == PolicyAsked(c.op.minting) && IssuedBy(env, s, Completed(c), k.row)
    && t.counters == s.counters
  }

  lemma FreshKnown(env: Env, xs: seq<Happening>, c: Call, e: Effect, t: Snap)
    requires IdealAead(env) && Orderly(env, xs) && |xs| < U32_MAX && FreshToken(Run(env, xs).store, c.op)
    requires c.op.OpMint? && e == EffectOf(env, Run(env, xs), c) && e.reply.Minted? && t == After(env, Run(env, xs), e)
    ensures GenesisOf(env, xs).Some? && FreshIn(env, Run(env, xs), c, t, e.reply.raw)
  {
    HistoryInvariant(env, xs);
    MintedIsGranted(env, Run(env, xs), c, e);
    MintCounts(env, Run(env, xs), c, e);
    GrantedPasses(env, GenesisOf(env, xs).value, Run(env, xs), c, e, t, |xs|);
  }

  lemma MintCounts(env: Env, s: Snap, c: Call, e: Effect)
    requires c.op.OpMint? && e == EffectOf(env, s, c)
    ensures e.counters == s.counters
  {
  }

  lemma FreshAnswers(env: Env, xs: seq<Happening>, c: Call, longer: seq<Happening>, t: Snap, at: Reading,
                     call: SwapCall)
    requires IdealAead(env) && Orderly(env, longer) && |longer| <= U32_MAX && t == Run(env, longer)
    requires c.op.OpMint? && FreshIn(env, Run(env, xs), c, t, call.raw)
    requires GenesisOf(env, longer) == GenesisOf(env, xs) && GenesisOf(env, xs).Some?
    requires Told(env, longer, c.op.minting.spec.secretName) == Told(env, xs, c.op.minting.spec.secretName)
    ensures var s, m, g := Run(env, xs), c.op.minting, GenesisOf(env, xs).value;
      (SwapEffect(env, t, at, call).reply == Swapped(Allowed)) <==>
        (&& PolicyAllows(m.spec, at.nowMs, c.at.nowMs, call.req, CountersOf(s, HexText(m.tokenBytes)))
         && UsedBy(m.binding, call.req) && WithinLife(c.at, at, LifeOf(c)) && g.floorMs <= at.nowMs
         && (g.enrolment.usbKeyfile.Some? ==> g.enrolment.usbUuid.Some? && g.enrolment.usbUuid.value in at.usb)
         && Told(env, xs, m.spec.secretName) != [] && call.upstream.Answers?)
  {
    ScreenSpelled(env, t, call.raw);
    SwapOnHistory(env, longer, at, call);
    var g := GenesisOf(env, longer).value;
    var others := (g.enrolment.usbKeyfile.Some? ==> g.enrolment.usbUuid.Some? && g.enrolment.usbUuid.value in at.usb)
                  && Told(env, longer, c.op.minting.spec.secretName) != [] && call.upstream.Answers?;
    FreshServes(env, Run(env, xs), c, t, at, call, g.floorMs, others,
                SwapEffect(env, t, at, call).reply == Swapped(Allowed));
  }

  /** A history with one more mint. */
  lemma MintExtends(env: Env, xs: seq<Happening>, c: Call, e: Effect, name: Text)
    requires Orderly(env, xs) && FreshToken(Run(env, xs).store, c.op)
    requires c.op.OpMint? && e == EffectOf(env, Run(env, xs), c)
    ensures var longer := xs + [Completed(c)];
      && Orderly(env, longer) && Run(env, longer) == After(env, Run(env, xs), e)
      && GenesisOf(env, longer) == GenesisOf(env, xs) && Told(env, longer, name) == Told(env, xs, name)
  {
    var longer := xs + [Completed(c)];
    assert longer[..|xs|] == xs;
  }

  lemma FreshServes(env: Env, s: Snap, c: Call, t: Snap, at: Reading, call: SwapCall, floorMs: I64, others: bool,
                    allowed: bool)
    requires c.op.OpMint? && FreshIn(env, s, c, t, call.raw) && Presented(env, t, call.raw)
    requires var b, p := RowOf(t, call.raw).claims, PolicyOf(env, t, call.raw);
             allowed <==> (PolicyAllows(p, at.nowMs, b.issuedAtMs, call.req, CountersOf(t, b.tokenId))
                           && BearerAllows(b, at, floorMs, call.req) && others)
    ensures var m := c.op.minting;
      allowed <==> (PolicyAllows(m.spec, at.nowMs, c.at.nowMs, call.req, CountersOf(s, HexText(m.tokenBytes)))
                    && UsedBy(m.binding, call.req) && WithinLife(c.at, at, LifeOf(c)) && floorMs <= at.nowMs && others)
  {
    ScreenSpelled(env, t, call.raw);
    var b := RowOf(t, call.raw);
    IssuedLifetime(env, s, Completed(c), b);
    IssuedAllows(env, s, c, b, at, floorMs, call.req);
    var p := PolicyAsked(c.op.minting);
    SameAllows(p, c.op.minting.spec, at.nowMs, c.at.nowMs, call.req, CountersOf(s, b.claims.tokenId));
  }

  /** The relay's name plays no part. */
  lemma SameAllows(p: RelayPolicy, spec: RelayPolicy, nowMs: I64, issuedAtMs: I64, req: EgressReq, n: BearerCounters)
    requires p == spec.(relayId := p.relayId)
    ensures PolicyAllows(p, nowMs, issuedAtMs, req, n) <==> PolicyAllows(spec, nowMs, issuedAtMs, req, n)
  {
  }
}
