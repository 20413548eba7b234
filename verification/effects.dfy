/**
 What each engine call does, as a value: the store writes it issues before its audit row, the row,
 the key its anchor is made with, the state it leaves in RAM, what it sends and what it answers.
 */
module Effects {
  import opened Bytes
  import opened Environment
  import opened Audit
  import opened Keyslots
  import opened Broker
  import opened Decision
  import opened Messages
  import opened Wire
  import opened Store
  import opened Anchors

  // ---- state and answers ----

  datatype Vault = Locked | Unlocked(dek: Dek)

  function KeyOf(v: Vault): Option<Dek> {
    match v
    case Locked => None
    case Unlocked(dek) => Some(dek)
  }

  /** The engine between two calls. */
  datatype Snap = Snap(store: StoreState, vault: Vault, counters: map<Text, BearerCounters>)

  const START: Snap := Snap(EMPTY, Locked, map[])

  /** What one call sees of the world: both clocks, the timestamp text and the keyfiles plugged in. */
  datatype Reading = Reading(nowMs: I64, bootMs: I64, ts: Text, usb: map<Text, Bytes>)

  datatype EngineError =
    | AlreadyInitialized | BelowArgonFloor | ArgonPanics | UuidMissing
    | UnlockFailed | HeaderMacMismatch | GenerationUnreadable | AuditChainBroken
    | VaultIsLocked | StoreRejected | UnknownSecret | SecretUnreadable | BrokerOnly | ApplyNotSet
    | NoPrincipal | UsbAbsent | DeadTtl | UpstreamFence | UpstreamFailed

  datatype SwapOutcome = Allowed | Denied(reason: DenyReason) | InternalRefused(cause: EngineError)

  datatype Reply =
    | Done
    | Failure(error: EngineError)
    | Body(body: Bytes)
    | Minted(relayId: Text, tokenId: Text, raw: Text)
    | Count(count: U32)
    | Swapped(outcome: SwapOutcome)

  /** A real key handed to the upstream for one host, and whether the upstream answered. */
  datatype Send = Send(host: Text, realKey: Bytes, answered: bool)

  datatype Effect = Effect(
    core: seq<Write>,
    row: Option<AuditRecord>,
    key: Option<Dek>,
    vault: Vault,
    counters: map<Text, BearerCounters>,
    sent: Option<Send>,
    reply: Reply)

  /** Every store write of the call, in order: its own, then the audit row, then the anchor. */
  function Writes(env: Env, s: StoreState, e: Effect): seq<Write> {
    e.core + if e.row.Some? then AuditWrites(env, ApplyAll(env, s, e.core), e.row.value, e.key) else []
  }

  function After(env: Env, s: Snap, e: Effect): Snap {
    Snap(ApplyAll(env, s.store, Writes(env, s.store, e)), e.vault, e.counters)
  }

  // ---- audit rows ----

  datatype Event =
    | InitEvent | UnlockEvent | UnlockedEvent | LockedEvent | WrittenEvent | ReadEvent
    | MintEvent | MintedEvent | RelayRevokedEvent | BearerRevokedEvent | SwappedEvent

  function EventText(e: Event): Text {
    match e
    case InitEvent => Ascii("vault_init")
    case UnlockEvent => Ascii("vault_unlock")
    case UnlockedEvent => Ascii("vault_unlocked")
    case LockedEvent => Ascii("vault_locked")
    case WrittenEvent => Ascii("secret_written")
    case ReadEvent => Ascii("secret_read")
    case MintEvent => Ascii("relay_mint")
    case MintedEvent => Ascii("relay_minted")
    case RelayRevokedEvent => Ascii("relay_revoked")
    case BearerRevokedEvent => Ascii("relay_bearer_revoked")
    case SwappedEvent => Ascii("relay_swapped")
  }

  function Row(env: Env, at: Reading, event: Event, subject: Option<Text>, detail: Json,
               outcome: AuditOutcome): AuditRecord {
    NewRow(at.ts, Some(env.ownerUid), EventText(event), subject, env.json(detail), outcome)
  }

  function Why(reason: string): Json { JsonObject([("reason", JsonText(Ascii(reason)))]) }

  /** An answer and nothing else. */
  function Quiet(s: Snap, reply: Reply): Effect {
    Effect([], None, KeyOf(s.vault), s.vault, s.counters, None, reply)
  }

  /** Some writes, one audit row, an answer; the state in RAM stays. */
  function Audited(s: Snap, core: seq<Write>, row: AuditRecord, reply: Reply): Effect {
    Effect(core, Some(row), KeyOf(s.vault), s.vault, s.counters, None, reply)
  }

  // ---- init ----

  /** The arguments of `init_vault`, with the random values it draws. */
  datatype Enrolment = Enrolment(
    passphrase: Text,
    usbUuid: Option<Text>,
    usbKeyfile: Option<Bytes>,
    params: Argon2Params,
    dek: Dek,
    passphraseSalt: Bytes,
    passphraseNonce: Nonce,
    usbSalt: Bytes,
    usbNonce: Nonce)

  const DEK_GENERATION: I64 := 1

  function Wrapped(env: Env, slot: Keyslot, kek: Kek, nonce: Nonce, dek: Dek): Keyslot {
    slot.(wrapNonce := nonce, wrappedDek := WrapDek(env, kek, nonce, dek, KeyslotAad(slot)))
  }

  function PassphraseSlot(env: Env, i: Enrolment): Keyslot {
    var bare := Keyslot(1, Factor.Passphrase, Ascii("passphrase"), Argon2id(i.params), i.passphraseSalt,
                        None, [], [], DEK_GENERATION, true);
    Wrapped(env, bare, env.argon2(i.passphrase, i.passphraseSalt, i.params), i.passphraseNonce, i.dek)
  }

  function UsbSlot(env: Env, i: Enrolment, keyfile: Bytes): Keyslot {
    var bare := Keyslot(2, Factor.Usb, Ascii("usb"), HkdfSha256, i.usbSalt, i.usbUuid, [], [], DEK_GENERATION, true);
    Wrapped(env, bare, env.hkdf(keyfile, i.usbSalt), i.usbNonce, i.dek)
  }

  function EnrolledSlots(env: Env, i: Enrolment): (slots: seq<Keyslot>)
    ensures slots != []
  {
    [PassphraseSlot(env, i)] + if i.usbKeyfile.Some? then [UsbSlot(env, i, i.usbKeyfile.value)] else []
  }

  function InitRefusal(s: StoreState, i: Enrolment): Option<EngineError> {
    if MetaHeaderMac in s.meta then Some(AlreadyInitialized)
    else if !AboveFloors(i.params) then Some(BelowArgonFloor)
    else if !ArgonAccepts(i.params, i.passphraseSalt) then Some(ArgonPanics)
    else if i.usbKeyfile.Some? && i.usbUuid.None? then Some(UuidMissing)
    else None
  }

  function SlotWrites(slots: seq<Keyslot>): seq<Write> {
    if slots == [] then [] else SlotWrites(slots[..|slots| - 1]) + [WriteSlot(slots[|slots| - 1])]
  }

  function HeaderWrites(env: Env, i: Enrolment, floorMs: I64): seq<Write> {
    [WriteMeta(MetaHeaderMac, HexText(HeaderMac(env, i.dek, EnrolledSlots(env, i), floorMs))),
     WriteMeta(MetaIssuanceFloor, Decimal(floorMs)),
     WriteMeta(MetaDekGeneration, Decimal(DEK_GENERATION))]
  }

  function GenesisDetail(slots: nat): Json {
    JsonObject([("slots", JsonNumber(slots)), ("dek_generation", JsonNumber(DEK_GENERATION))])
  }

  function InitEffect(env: Env, s: Snap, at: Reading, i: Enrolment): Effect {
    var refusal := InitRefusal(s.store, i);
    if refusal.Some? then Quiet(s, Failure(refusal.value))
    else
      var slots := EnrolledSlots(env, i);
      Audited(s, SlotWrites(slots) + HeaderWrites(env, i, at.nowMs),
              Row(env, at, InitEvent, None, GenesisDetail(|slots|), Succeeded), Done).(key := Some(i.dek))
  }

  // ---- unlock and lock ----

  datatype Credential = ByUsb | ByPassphrase(passphrase: Text)

  function FactorText(c: Credential): Text { if c.ByUsb? then Ascii("usb") else Ascii("passphrase") }

  /** The slot is one the passphrase is tried on. */
  predicate TakesPassphrase(slot: Keyslot) {
    slot.enabled && slot.factor == Factor.Passphrase && slot.kdf.Argon2id? && Derivable(slot.kdf.params)
  }

  /** The key the credential yields for a slot, when the slot is one it may open. */
  function SlotKek(env: Env, slot: Keyslot, c: Credential, usb: map<Text, Bytes>): Option<Kek> {
    match c
    case ByPassphrase(pp) => if TakesPassphrase(slot) then Some(env.argon2(pp, slot.salt, slot.kdf.params)) else None
    case ByUsb =>
      if slot.enabled && slot.factor == Factor.Usb && slot.usbPartitionUuid.Some? && slot.usbPartitionUuid.value in usb
      then Some(env.hkdf(usb[slot.usbPartitionUuid.value], slot.salt))
      else None
  }

  /** A slot that passes the engine's checks and not the library's. */
  predicate SlotPanics(slot: Keyslot, c: Credential) {
    c.ByPassphrase? && TakesPassphrase(slot) && !ArgonAccepts(slot.kdf.params, slot.salt)
  }

  /** What trying a credential comes to. */
  datatype Probe = Opened(dek: Dek) | Shut | Panicked

  function SlotProbe(env: Env, slot: Keyslot, c: Credential, usb: map<Text, Bytes>): Probe {
    if SlotPanics(slot, c) then Panicked
    else
      match SlotKek(env, slot, c, usb)
      case None => Shut
      case Some(kek) =>
        match UnwrapDek(env, kek, slot.wrapNonce, slot.wrappedDek, KeyslotAad(slot))
        case None => Shut
        case Some(dek) => Opened(dek)
  }

  /** The slots in order, up to the first that opens or panics. */
  function ProbeSlots(env: Env, slots: seq<Keyslot>, c: Credential, usb: map<Text, Bytes>): Probe {
    if slots == [] then Shut
    else
      var probe := SlotProbe(env, slots[0], c, usb);
      if probe.Shut? then ProbeSlots(env, slots[1..], c, usb) else probe
  }

  function MaxGeneration(slots: seq<Keyslot>): I64 {
    if slots == [] then DEK_GENERATION
    else if |slots| == 1 then slots[0].dekGeneration
    else Max(slots[0].dekGeneration, MaxGeneration(slots[1..]))
  }

  function StoredHeaderMac(s: StoreState): Option<Bytes> {
    var text :- Meta(s, MetaHeaderMac);
    UnHex(text)
  }

  function StoredFloor(s: StoreState): Option<I64> {
    var text :- Meta(s, MetaIssuanceFloor);
    ParseI64(text)
  }

  function StoredGeneration(s: StoreState): Option<I64> {
    var text :- Meta(s, MetaDekGeneration);
    ParseI64(text)
  }

  /** The header MAC and the issuance floor as stored. */
  datatype StoredHeader = StoredHeader(mac: Bytes, floorMs: I64)

  function HeaderOf(s: StoreState): Option<StoredHeader> {
    match (StoredHeaderMac(s), StoredFloor(s))
    case (Some(mac), Some(floorMs)) => Some(StoredHeader(mac, floorMs))
    case _ => None
  }

  /** What the checks behind a recovered DEK conclude. */
  datatype Verdict = Accept | Reject(why: Json, error: EngineError) | Abort(abortError: EngineError)

  function UnlockVerdict(env: Env, s: StoreState, dek: Dek, mac: Bytes, floorMs: I64): Verdict {
    if mac != HeaderMac(env, dek, s.keyslots, floorMs) then Reject(Why("header_mac"), HeaderMacMismatch)
    else
      match StoredGeneration(s)
      case None => Abort(GenerationUnreadable)
      case Some(g) =>
        if g != MaxGeneration(s.keyslots) then Reject(Why("dek_generation"), HeaderMacMismatch)
        else if !AnchorAccepts(env, dek, s) then Reject(Why("audit_chain"), AuditChainBroken)
        else Accept
  }

  function UnlockRefused(env: Env, s: Snap, at: Reading, why: Json, error: EngineError): Effect {
    Audited(s, [], Row(env, at, UnlockEvent, None, why, Failed), Failure(error))
  }

  function UnlockAccepted(env: Env, s: Snap, at: Reading, c: Credential, dek: Dek): Effect {
    var detail := JsonObject([("factor", JsonText(FactorText(c)))]);
    Audited(s, [], Row(env, at, UnlockedEvent, None, detail, Succeeded), Done).(key := Some(dek),
          vault := Unlocked(dek))
  }

  function UnlockJudged(env: Env, s: Snap, at: Reading, c: Credential, dek: Dek, verdict: Verdict): Effect {
    match verdict
    case Reject(why, error) => UnlockRefused(env, s, at, why, error)
    case Abort(error) => Quiet(s, Failure(error))
    case Accept => UnlockAccepted(env, s, at, c, dek)
  }

  function UnlockProbed(env: Env, s: Snap, at: Reading, c: Credential, header: StoredHeader, probe: Probe): Effect {
    match probe
    case Panicked => Quiet(s, Failure(ArgonPanics))
    case Shut => UnlockRefused(env, s, at, JsonObject([]), UnlockFailed)
    case Opened(dek) => UnlockJudged(env, s, at, c, dek, UnlockVerdict(env, s.store, dek, header.mac, header.floorMs))
  }

  function UnlockEffect(env: Env, s: Snap, at: Reading, c: Credential): Effect {
    if s.vault.Unlocked? then Quiet(s, Done)
    else
      match HeaderOf(s.store)
      case None => Quiet(s, Failure(UnlockFailed))
      case Some(header) => UnlockProbed(env, s, at, c, header, ProbeSlots(env, s.store.keyslots, c, at.usb))
  }

  function LockEffect(env: Env, s: Snap, at: Reading): Effect {
    Audited(s.(vault := Locked), [], Row(env, at, LockedEvent, None, JsonObject([]), Succeeded), Done)
  }

  // ---- secrets ----

  datatype SecretMeta = SecretMeta(name: Text, provider: Provider, note: Text, brokerOnly: bool)

  function SecretAad(row: SecretRow): Bytes {
    RecordAad(SecretVersion, row.rowId, row.version, row.dekGeneration)
  }

  function OpenSecret(env: Env, dek: Dek, row: SecretRow): Option<Bytes> {
    if |row.nonce| != 24 then None else env.open(dek, row.nonce, SecretAad(row), row.ctTag)
  }

  /** The row `secret_put` seals: the next version, under the next reserved row id. */
  function NextSecret(env: Env, dek: Dek, generation: I64, s: StoreState, m: SecretMeta, body: Bytes,
                      nonce: Nonce, ts: Text): SecretRow
  {
    var bare := SecretRow(Succ64(s.nextSecretRowId), m.name, Succ32(MaxVersion(s.secrets, m.name)), m.provider, m.note,
                          m.brokerOnly, generation, nonce, [], ts);
    bare.(ctTag := env.seal(dek, nonce, SecretAad(bare), body))
  }

  function PutEffect(env: Env, s: Snap, at: Reading, m: SecretMeta, body: Bytes, nonce: Nonce): Effect {
    match (KeyOf(s.vault), StoredGeneration(s.store))
    case (None, _) => Quiet(s, Failure(VaultIsLocked))
    case (Some(_), None) => Quiet(s, Failure(GenerationUnreadable))
    case (Some(dek), Some(generation)) =>
      var row := NextSecret(env, dek, generation, s.store, m, body, nonce, at.ts);
      if !PutAccepted(Apply(env, s.store, WriteReserve), row) then
        Quiet(s, Failure(StoreRejected)).(core := [WriteReserve])
      else
        var detail := JsonObject([("version", JsonNumber(row.version))]);
        Audited(s, [WriteReserve, WriteSecret(row)], Row(env, at, WrittenEvent, Some(m.name), detail, Succeeded), Done)
  }

  function ReadDetail(row: SecretRow, revealed: bool): Json {
    JsonObject([("version", JsonNumber(row.version)), ("revealed", JsonBool(revealed))])
  }

  function ReadRow(env: Env, at: Reading, name: Text, detail: Json, outcome: AuditOutcome): AuditRecord {
    Row(env, at, ReadEvent, Some(name), detail, outcome)
  }

  function GetEffect(env: Env, s: Snap, at: Reading, name: Text, show: bool, apply: bool): Effect {
    match (KeyOf(s.vault), Latest(s.store.secrets, name))
    case (None, _) => Quiet(s, Failure(VaultIsLocked))
    case (Some(_), None) => Audited(s, [], ReadRow(env, at, name, Why("not_found"), Failed), Failure(UnknownSecret))
    case (Some(dek), Some(row)) =>
      match OpenSecret(env, dek, row)
      case None =>
        var detail := JsonObject([("reason", JsonText(Ascii("tamper"))), ("version", JsonNumber(row.version))]);
        Audited(s, [], ReadRow(env, at, name, detail, Failed), Failure(SecretUnreadable))
      case Some(body) =>
        if !show then Audited(s, [], ReadRow(env, at, name, ReadDetail(row, false), Succeeded), Body([]))
        else if row.brokerOnly then
          Audited(s, [], ReadRow(env, at, name, Why("reveal refused: secret is broker-only"), Refused),
                  Failure(BrokerOnly))
        else if !apply then
          Audited(s, [], ReadRow(env, at, name, Why("reveal refused: apply not set (dry-run)"), Refused),
                  Failure(ApplyNotSet))
        else Audited(s, [], ReadRow(env, at, name, ReadDetail(row, true), Succeeded), Body(body))
  }

  // ---- minting ----

  /** Random bytes as drawn: a fixed number of them, never none. */
  type Drawn = b: Bytes | b != [] witness [0]

  /** The arguments of `mint_bearer_core`, with the random bytes it draws. */
  datatype Minting = Minting(
    spec: RelayPolicy,
    requestedTtlSecs: I64,
    binding: BearerBinding,
    relayBytes: Drawn,
    tokenBytes: Drawn,
    secretBytes: Drawn)

  /** Some enabled USB slot's keyfile is at hand, or no such slot is enrolled. */
  predicate UsbProven(slots: seq<Keyslot>, usb: map<Text, Bytes>) {
    (exists i :: 0 <= i < |slots| && GatesUsb(slots[i])) ==> exists i :: 0 <= i < |slots| && ProvesUsb(slots[i], usb)
  }

  predicate GatesUsb(slot: Keyslot) { slot.enabled && slot.factor == Factor.Usb }

  predicate ProvesUsb(slot: Keyslot, usb: map<Text, Bytes>) {
    GatesUsb(slot) && slot.usbPartitionUuid.Some? && slot.usbPartitionUuid.value in usb
  }

  function MintRefusal(s: StoreState, at: Reading, m: Minting): Option<(string, EngineError)> {
    if m.binding == Local(None, None) then
      Some(("bearer binding has no principal (uid/pid/client_id all absent)", NoPrincipal))
    else if !UsbProven(s.keyslots, at.usb) then Some(("usb possession not proven", UsbAbsent))
    else if ExpiryMs(at.nowMs, m.spec.policyTtlSecs, m.requestedTtlSecs).None? then
      Some(("ttl clamp refused (non-positive)", DeadTtl))
    else None
  }

  /** The policy as stored: an ephemeral relay without a name gets a generated one. */
  function MintedPolicy(m: Minting): RelayPolicyRow {
    RelayPolicyRow(0, if m.spec.kind.Ephemeral? && m.spec.relayId == []
                      then m.spec.(relayId := Ascii("eph_") + HexText(m.relayBytes)) else m.spec)
  }

  function TokenOf(m: Minting): Text { HexText(m.tokenBytes) }

  function RawOf(m: Minting): Text { WireBearer(TokenOf(m), B64Text(m.secretBytes)) }

  function BoundClaims(binding: BearerBinding, unbound: Claims): Claims {
    match binding
    case Local(uid, pid) => unbound.(clientUid := uid, clientPid := pid)
    case Remote(client, jkt) => unbound.(clientId := Some(client), dpopJkt := Some(jkt))
  }

  function MintedClaims(s: StoreState, at: Reading, m: Minting, expiresAtMs: I64): Claims {
    BoundClaims(m.binding, Claims(TokenOf(m), AssignedPolicyId(s.relays, MintedPolicy(m)), expiresAtMs, at.nowMs,
                                  at.bootMs, None, None, None, None, false))
  }

  /** A row carrying the tag its claims call for. */
  function Sealed(env: Env, dek: Dek, claims: Claims, wireMac: Bytes): BearerRow {
    BearerRow(claims, wireMac, RowMac(env, dek, claims))
  }

  function MintedRow(env: Env, dek: Dek, s: StoreState, at: Reading, m: Minting, expiresAtMs: I64): BearerRow {
    Sealed(env, dek, MintedClaims(s, at, m, expiresAtMs), WireMac(env, dek, RawOf(m)))
  }

  function KindText(k: RelayKind): Text { if k.Named? then Ascii("named") else Ascii("ephemeral") }

  function MintEffect(env: Env, s: Snap, at: Reading, m: Minting): Effect {
    match KeyOf(s.vault)
    case None => Quiet(s, Failure(VaultIsLocked))
    case Some(dek) => MintGated(env, s, at, m, dek, MintRefusal(s.store, at, m))
  }

  function MintGated(env: Env, s: Snap, at: Reading, m: Minting, dek: Dek,
                     refusal: Option<(string, EngineError)>): Effect {
    match refusal
    case Some(why) => Audited(s, [], Row(env, at, MintEvent, Some(m.spec.relayId), Why(why.0), Refused), Failure(why.1))
    case None =>
      match ExpiryMs(at.nowMs, m.spec.policyTtlSecs, m.requestedTtlSecs)
      case None => Quiet(s, Failure(DeadTtl))
      case Some(expiresAtMs) => MintIssued(env, s, at, m, dek, expiresAtMs)
  }

  function MintIssued(env: Env, s: Snap, at: Reading, m: Minting, dek: Dek, expiresAtMs: I64): Effect {
    var relayId := MintedPolicy(m).policy.relayId;
    var detail := JsonObject([("token_id", JsonText(TokenOf(m))), ("kind", JsonText(KindText(m.spec.kind))),
                              ("expires_at_ms", JsonNumber(expiresAtMs))]);
    Audited(s, [WritePolicy(MintedPolicy(m)), WriteBearer(MintedRow(env, dek, s.store, at, m, expiresAtMs))],
            Row(env, at, MintedEvent, Some(relayId), detail, Succeeded), Minted(relayId, TokenOf(m), RawOf(m)))
  }

  // ---- revoking ----

  function AsU32(n: nat): U32 { n % 0x1_0000_0000 }

  function Unrevoked(bearers: seq<BearerRow>): seq<BearerRow> {
    if bearers == [] then []
    else Unrevoked(bearers[..|bearers| - 1]) + if bearers[|bearers| - 1].claims.revoked then []
        else [bearers[|bearers| - 1]]
  }

  function RevokedRow(env: Env, dek: Dek, b: BearerRow): BearerRow {
    Sealed(env, dek, b.claims.(revoked := true), b.wireMac)
  }

  /** The rows a revocation of the list writes: one for each bearer not yet revoked. */
  function RevokeWrites(env: Env, dek: Dek, bearers: seq<BearerRow>): seq<Write> {
    if bearers == [] then []
    else RevokeWrites(env, dek, bearers[..|bearers| - 1]) + RevokeOnce(env, dek, bearers[|bearers| - 1])
  }

  function RevokeOnce(env: Env, dek: Dek, b: BearerRow): seq<Write> {
    if b.claims.revoked then [] else [WriteBearer(RevokedRow(env, dek, b))]
  }

  function Reseals(env: Env, v: Vault, bearers: seq<BearerRow>): seq<Write> {
    match v
    case Locked => []
    case Unlocked(dek) => RevokeWrites(env, dek, bearers)
  }

  function RevokeDetail(apply: bool, n: nat): Json {
    JsonObject([("apply", JsonBool(apply)), (if apply then "revoked" else "would_revoke", JsonNumber(AsU32(n)))])
  }

  function PolicyRevokeWrites(s: StoreState, relayId: Text): seq<Write> {
    match LoadPolicy(s, relayId)
    case None => []
    case Some(row) => [WritePolicy(row.(policy := row.policy.(revoked := true)))]
  }

  function RevokeRow(env: Env, at: Reading, relayId: Text, apply: bool, n: nat): AuditRecord {
    Row(env, at, RelayRevokedEvent, Some(relayId), RevokeDetail(apply, n), Succeeded)
  }

  function DryRevokeEffect(env: Env, s: Snap, at: Reading, relayId: Text): Effect {
    var n := |Unrevoked(BearersForRelay(s.store, relayId))|;
    Audited(s, [], RevokeRow(env, at, relayId, false, n), Count(AsU32(n)))
  }

  /** The bearers a revocation walks: those linked to the relay once its policy has been flagged. */
  function RevokeTargets(env: Env, s: StoreState, relayId: Text): seq<BearerRow> {
    BearersForRelay(ApplyAll(env, s, PolicyRevokeWrites(s, relayId)), relayId)
  }

  function ApplyRevokeEffect(env: Env, s: Snap, at: Reading, relayId: Text): Effect {
    var flags := PolicyRevokeWrites(s.store, relayId);
    var targets := RevokeTargets(env, s.store, relayId);
    var n := |Unrevoked(targets)|;
    if n > 0 && s.vault.Locked? then Quiet(s, Failure(VaultIsLocked)).(core := flags)
    else Audited(s, flags + Reseals(env, s.vault, targets), RevokeRow(env, at, relayId, true, n), Count(AsU32(n)))
  }

  function RevokeRelayEffect(env: Env, s: Snap, at: Reading, relayId: Text, apply: bool): Effect {
    if apply then ApplyRevokeEffect(env, s, at, relayId) else DryRevokeEffect(env, s, at, relayId)
  }

  function RevokeBearerEffect(env: Env, s: Snap, at: Reading, tokenId: Text, apply: bool): Effect {
    RevokeFoundEffect(env, s, at, tokenId, apply, LoadBearer(s.store, tokenId))
  }

  function RevokeFoundEffect(env: Env, s: Snap, at: Reading, tokenId: Text, apply: bool,
                             row: Option<BearerRow>): Effect {
    var n := if row.Some? && !row.value.claims.revoked then 1 else 0;
    if apply && n == 1 && s.vault.Locked? then Quiet(s, Failure(VaultIsLocked))
    else
      var reseal := if apply && n == 1 && s.vault.Unlocked? then [WriteBearer(RevokedRow(env, s.vault.dek, row.value))]
          else [];
      Audited(s, reseal, Row(env, at, BearerRevokedEvent, Some(tokenId), RevokeDetail(apply, n), Succeeded), Count(n))
  }

  // ---- swapping ----

  datatype EgressReq = EgressReq(
    verb: Verb, host: Text, path: Text, bytesOut: U64, peerUid: Option<U32>, peerPid: Option<U32>)

  /** How the upstream answers when asked. */
  datatype Upstream = Answers | FailsIo | FailsHost

  datatype SwapCall = SwapCall(raw: Text, req: EgressReq, upstream: Upstream)

  /** What is known of a presented bearer before the decision. */
  datatype Screen =
    | Malformed
    | Broken(cause: EngineError)
    | Unknown(unknownToken: Text)
    | Known(dek: Dek, floorMs: I64, row: BearerRow, policyRow: RelayPolicyRow)

  function ScreenBearer(env: Env, s: Snap, raw: Text): Screen {
    match (ParseBearer(raw), KeyOf(s.vault), StoredFloor(s.store))
    case (None, _, _) => Malformed
    case (Some(_), None, _) => Broken(VaultIsLocked)
    case (Some(_), Some(_), None) => Broken(UnlockFailed)
    case (Some(tokenId), Some(dek), Some(floorMs)) =>
      match LoadBearer(s.store, tokenId)
      case None => Unknown(tokenId)
      case Some(row) =>
        if row.wireMac != WireMac(env, dek, raw) || !RowAuthentic(env, dek, row) then Unknown(tokenId)
        else
          match FindPolicyById(s.store, row.claims.policyId)
          case None => Unknown(tokenId)
          case Some(policyRow) => Known(dek, floorMs, row, policyRow)
  }

  function BumpedFor(s: Snap, at: Reading, tokenId: Text, bytes: U64): BearerCounters {
    Bumped(CountersFor(s.counters, tokenId), at.nowMs, bytes)
  }

  /** What `decide` is asked, with the tallies that include this request. */
  function SwapQuery(s: Snap, at: Reading, k: Screen, req: EgressReq): Query
    requires k.Known?
  {
    var c := BumpedFor(s, at, k.row.claims.tokenId, req.bytesOut);
    Query(k.policyRow.policy, k.row.claims,
          CanonRequest(req.verb, req.host, TrustedSniFor(k.policyRow.policy.swap), req.path, req.bytesOut, req.peerUid,
                       req.peerPid, c.totalRequests, c.totalBytes, c.inWindow, None),
          at.nowMs, at.bootMs, if UsbProven(s.store.keyslots, at.usb) then None else Some(at.nowMs), k.floorMs)
  }

  function OptText(t: Option<Text>): Json { if t.Some? then JsonText(t.value) else JsonNull }

  function DenyEffect(env: Env, s: Snap, at: Reading, relayId: Option<Text>, tokenId: Option<Text>,
                      why: DenyReason): Effect {
    var detail := JsonObject([("token_id", OptText(tokenId)), ("reason", JsonText(ReasonText(why))),
                              ("allowed", JsonBool(false))]);
    Audited(s, [], Row(env, at, SwappedEvent, relayId, detail, Refused), Swapped(Denied(why)))
  }

  function InternalEffect(env: Env, s: Snap, at: Reading, cause: EngineError): Effect {
    var detail := JsonObject([("reason", JsonText(Ascii("internal"))), ("detail", JsonText(CauseText(cause)))]);
    Audited(s, [], Row(env, at, SwappedEvent, None, detail, Failed), Swapped(InternalRefused(cause)))
  }

  function RealKey(env: Env, dek: Dek, s: StoreState, secretName: Text): Result<Bytes, EngineError> {
    match Latest(s.secrets, secretName)
    case None => Err(UnknownSecret)
    case Some(row) =>
      match OpenSecret(env, dek, row)
      case None => Err(SecretUnreadable)
      case Some(body) => Ok(body)
  }

  function SendEffect(env: Env, s: Snap, at: Reading, k: Screen, call: SwapCall, realKey: Bytes): Effect
    requires k.Known?
  {
    var relayId, tokenId := k.policyRow.policy.relayId, JsonText(k.row.claims.tokenId);
    if !HostIn(call.req.host, CanonicalUpstreams(k.policyRow.policy.provider)) then
      var detail := JsonObject([("token_id", tokenId), ("reason", JsonText(Ascii("upstream_fence"))),
                                ("allowed", JsonBool(false))]);
      Audited(s, [], Row(env, at, SwappedEvent, Some(relayId), detail, Failed), Swapped(InternalRefused(UpstreamFence)))
    else if call.upstream.Answers? then
      var detail := JsonObject([("token_id", tokenId), ("host", JsonText(call.req.host)),
                                ("method", JsonText(VerbText(call.req.verb))), ("allowed", JsonBool(true))]);
      Audited(s, [], Row(env, at, SwappedEvent, Some(relayId), detail, Succeeded), Swapped(Allowed))
        .(sent := Some(Send(call.req.host, realKey, true)))
    else
      var kind := if call.upstream.FailsIo? then Ascii("io") else Ascii("host_not_allowed");
      var detail := JsonObject([("token_id", tokenId), ("reason", JsonText(Ascii("upstream"))),
                                ("kind", JsonText(kind))]);
      Audited(s, [], Row(env, at, SwappedEvent, Some(relayId), detail, Failed),
              Swapped(InternalRefused(UpstreamFailed)))
        .(sent := Some(Send(call.req.host, realKey, false)))
  }

  function DecidedEffect(env: Env, s: Snap, at: Reading, k: Screen, call: SwapCall): Effect
    requires k.Known?
  {
    var tokenId := k.row.claims.tokenId;
    var counted := s.(counters := s.counters[tokenId := BumpedFor(s, at, tokenId, call.req.bytesOut)]);
    match Decide(SwapQuery(s, at, k, call.req))
    case Deny(why) => DenyEffect(env, counted, at, Some(k.policyRow.policy.relayId), Some(tokenId), why)
    case Allow =>
      match RealKey(env, k.dek, s.store, k.policyRow.policy.secretName)
      case Err(cause) => InternalEffect(env, counted, at, cause)
      case Ok(realKey) => SendEffect(env, counted, at, k, call, realKey)
  }

  function SwapEffect(env: Env, s: Snap, at: Reading, call: SwapCall): Effect {
    match ScreenBearer(env, s, call.raw)
    case Malformed => DenyEffect(env, s, at, None, None, UnknownBearer)
    case Broken(cause) => InternalEffect(env, s, at, cause)
    case Unknown(tokenId) => DenyEffect(env, s, at, None, Some(tokenId), UnknownBearer)
    case Known(dek, floorMs, row, policyRow) => DecidedEffect(env, s, at, Known(dek, floorMs, row, policyRow), call)
  }

  // ---- texts ----

  function VerbText(v: Verb): Text {
    match v
    case Get => Ascii("GET")
    case Head => Ascii("HEAD")
    case Post => Ascii("POST")
    case Put => Ascii("PUT")
    case Patch => Ascii("PATCH")
    case Delete => Ascii("DELETE")
    case Connect => Ascii("CONNECT")
    case Options => Ascii("OPTIONS")
  }

  function CauseText(e: EngineError): Text {
    match e
    case VaultIsLocked => Ascii("vault is locked")
    case UnlockFailed => Ascii("unlock failed")
    case UnknownSecret => Ascii("relay secret not found")
    case _ => Ascii("relay secret failed authentication")
  }

  function ReasonText(r: DenyReason): Text {
    match r
    case UnknownBearer => Ascii("unknown_bearer")
    case Disabled => Ascii("disabled")
    case Revoked => Ascii("revoked")
    case BearerRevoked => Ascii("bearer_revoked")
    case BearerExpired => Ascii("bearer_expired")
    case PolicyExpired => Ascii("policy_expired")
    case HostNotAllowed => Ascii("host_not_allowed")
    case PathNotAllowed => Ascii("path_not_allowed")
    case MethodNotAllowed => Ascii("method_not_allowed")
    case UpstreamNotAllowed => Ascii("upstream_not_allowed")
    case PeerMismatch => Ascii("peer_mismatch")
    case SniHostMismatch => Ascii("sni_host_mismatch")
    case BudgetRequests => Ascii("budget_requests")
    case BudgetBytes => Ascii("budget_bytes")
    case RateLimited => Ascii("rate_limited")
    case GateAbsent => Ascii("gate_absent")
    case ClockRollback => Ascii("clock_rollback")
    case CrossKindPresentation => Ascii("cross_kind_presentation")
    case RemoteNoDPoP => Ascii("remote_no_d_po_p")
    case RemoteBindingMismatch => Ascii("remote_binding_mismatch")
    case RemoteClientUnknown => Ascii("remote_client_unknown")
    case RemoteClientRevoked => Ascii("remote_client_revoked")
  }

  // ---- calls ----

  datatype Op =
    | OpInit(enrolment: Enrolment)
    | OpUnlock(credential: Credential)
    | OpLock
    | OpPut(secret: SecretMeta, putBody: Bytes, nonce: Nonce)
    | OpGet(name: Text, show: bool, getApply: bool)
    | OpMint(minting: Minting)
    | OpRevokeRelay(relayId: Text, relayApply: bool)
    | OpRevokeBearer(tokenId: Text, bearerApply: bool)
    | OpSwap(swap: SwapCall)

  datatype Call = Call(op: Op, at: Reading)

  function EffectOf(env: Env, s: Snap, c: Call): Effect {
    match c.op
    case OpInit(i) => InitEffect(env, s, c.at, i)
    case OpUnlock(credential) => UnlockEffect(env, s, c.at, credential)
    case OpLock => LockEffect(env, s, c.at)
    case OpPut(m, body, nonce) => PutEffect(env, s, c.at, m, body, nonce)
    case OpGet(name, show, apply) => GetEffect(env, s, c.at, name, show, apply)
    case OpMint(m) => MintEffect(env, s, c.at, m)
    case OpRevokeRelay(relayId, apply) => RevokeRelayEffect(env, s, c.at, relayId, apply)
    case OpRevokeBearer(tokenId, apply) => RevokeBearerEffect(env, s, c.at, tokenId, apply)
    case OpSwap(call) => SwapEffect(env, s, c.at, call)
  }

  function Step(env: Env, s: Snap, c: Call): Snap { After(env, s, EffectOf(env, s, c)) }
}
