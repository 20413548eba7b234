/**
 What every store the engine builds satisfies, and which single writes keep it. A call is a list of
 such writes, so what holds between two calls also holds wherever a call is cut short.
 */
module Invariants {
  import opened Bytes
  import opened Environment
  import opened Audit
  import opened Keyslots
  import opened Broker
  import opened Store
  import opened Effects
  import opened Wire

  // ---- secrets ----

  /** One version as the vault's user sees it: what opening the row gives, what was said of it, and when. */
  datatype Entry = Entry(body: Option<Bytes>, about: SecretMeta, putTs: Text)

  function EntryOf(env: Env, dek: Dek, row: SecretRow): Entry {
    Entry(OpenSecret(env, dek, row), SecretMeta(row.name, row.provider, row.note, row.brokerOnly), row.createdTs)
  }

  /** The versions of one name, oldest first: the plain map the vault stands for. */
  function Book(env: Env, dek: Dek, secrets: seq<SecretRow>, name: Text): seq<Entry> {
    if secrets == [] then []
    else
      var last := secrets[|secrets| - 1];
      var older := Book(env, dek, secrets[..|secrets| - 1], name);
      if last.name == name then older + [EntryOf(env, dek, last)] else older
  }

  /** The row opens, and its ciphertext is what sealing that body for this row gives. */
  predicate SealedIn(env: Env, dek: Dek, row: SecretRow) {
    var body := OpenSecret(env, dek, row);
    body.Some? && row.ctTag == env.seal(dek, row.nonce, SecretAad(row), body.value)
  }

  /** Row `j` is sealed, numbered next among its name's versions, and its id was reserved after the ids before it. */
  predicate SecretOk(env: Env, dek: Dek, secrets: seq<SecretRow>, nextRowId: I64, j: nat)
    requires j < |secrets|
  {
    && SealedIn(env, dek, secrets[j])
    && secrets[j].version == |Book(env, dek, secrets[..j], secrets[j].name)| + 1
    && (if j == 0 then 0 else secrets[j - 1].rowId) < secrets[j].rowId <= nextRowId
  }

  ghost predicate SecretsOk(env: Env, dek: Dek, secrets: seq<SecretRow>, nextRowId: I64) {
    0 <= nextRowId && forall j :: 0 <= j < |secrets| ==> SecretOk(env, dek, secrets, nextRowId, j)
  }

  lemma SecretsPrefix(env: Env, dek: Dek, secrets: seq<SecretRow>, nextRowId: I64, k: nat)
    requires SecretsOk(env, dek, secrets, nextRowId) && k <= |secrets|
    ensures SecretsOk(env, dek, secrets[..k], nextRowId)
  {
    forall j | 0 <= j < k ensures SecretOk(env, dek, secrets[..k], nextRowId, j) {
      assert SecretOk(env, dek, secrets, nextRowId, j);
      assert secrets[..k][..j] == secrets[..j];
    }
  }

  /** The row with the highest version is the last one written, and that version counts them all. */
  lemma {:induction false} LatestIsNewest(env: Env, dek: Dek, secrets: seq<SecretRow>, nextRowId: I64, name: Text)
    requires SecretsOk(env, dek, secrets, nextRowId)
    ensures var latest, book := Latest(secrets, name), Book(env, dek, secrets, name);
      && (latest.None? <==> book == [])
      && MaxVersion(secrets, name) == |book|
      && (latest.Some? ==> EntryOf(env, dek, latest.value) == book[|book| - 1])
  {
    if secrets != [] {
      var n := |secrets| - 1;
      SecretsPrefix(env, dek, secrets, nextRowId, n);
      LatestIsNewest(env, dek, secrets[..n], nextRowId, name);
      assert SecretOk(env, dek, secrets, nextRowId, n);
    }
  }

  /** Row ids strictly increase, so no two rows share one. */
  lemma {:induction false} RowIdsIncrease(env: Env, dek: Dek, secrets: seq<SecretRow>, nextRowId: I64, j: nat, k: nat)
    requires SecretsOk(env, dek, secrets, nextRowId) && j < k < |secrets|
    ensures 0 < secrets[j].rowId < secrets[k].rowId <= nextRowId
    decreases k
  {
    assert SecretOk(env, dek, secrets, nextRowId, j) && SecretOk(env, dek, secrets, nextRowId, k);
    if j > 0 {
      RowIdsIncrease(env, dek, secrets, nextRowId, j - 1, j);
    }
    if j < k - 1 {
      RowIdsIncrease(env, dek, secrets, nextRowId, j, k - 1);
    }
  }

  lemma {:induction false} BookShorter(env: Env, dek: Dek, secrets: seq<SecretRow>, name: Text)
    ensures |Book(env, dek, secrets, name)| <= |secrets|
  {
    if secrets != [] {
      BookShorter(env, dek, secrets[..|secrets| - 1], name);
    }
  }

  // ---- policies ----

  ghost predicate PoliciesOk(relays: seq<RelayPolicyRow>) {
    && (forall j :: 0 <= j < |relays| ==> relays[j].id > 0)
    && (forall j, k :: 0 <= j < k < |relays| ==>
          relays[j].id != relays[k].id && relays[j].policy.relayId != relays[k].policy.relayId)
  }

  predicate HasPolicy(relays: seq<RelayPolicyRow>, id: I64) { PolicyIdIndex(relays, id) < |relays| }

  /** A policy write that names no id of its own, or the one its relay already has. */
  predicate PolicyWriteOk(relays: seq<RelayPolicyRow>, row: RelayPolicyRow) {
    if row.id == 0 then MaxPolicyId(relays) < I64_MAX
    else
      var i := PolicyIndex(relays, row.policy.relayId);
      i < |relays| && relays[i].id == row.id
  }

  // ---- bearers ----

  /** The row is sealed under the DEK and linked to a policy. */
  predicate BearerOk(env: Env, dek: Dek, relays: seq<RelayPolicyRow>, b: BearerRow) {
    RowAuthentic(env, dek, b) && HasPolicy(relays, b.claims.policyId)
  }

  ghost predicate BearersOk(env: Env, dek: Dek, relays: seq<RelayPolicyRow>, bearers: seq<BearerRow>) {
    && (forall j :: 0 <= j < |bearers| ==> BearerOk(env, dek, relays, bearers[j]))
    && (forall j, k :: 0 <= j < k < |bearers| ==> bearers[j].claims.tokenId != bearers[k].claims.tokenId)
  }

  /** The only change a stored bearer ever undergoes: it becomes revoked. */
  predicate Revises(b: BearerRow, newer: BearerRow) {
    newer.wireMac == b.wireMac && (newer.claims == b.claims || newer.claims == b.claims.(revoked := true))
  }

  predicate BearerWriteOk(env: Env, dek: Dek, s: StoreState, row: BearerRow) {
    var prior := LoadBearer(s, row.claims.tokenId);
    BearerOk(env, dek, s.relays, row) && (prior.Some? ==> Revises(prior.value, row))
  }

  // ---- the store ----

  /** An enrolment and the issuance floor stored with it. */
  datatype Genesis = Genesis(enrolment: Enrolment, floorMs: I64)

  predicate HeaderOk(env: Env, g: Genesis, s: StoreState) {
    && AboveFloors(g.enrolment.params) && ArgonAccepts(g.enrolment.params, g.enrolment.passphraseSalt)
    && (g.enrolment.usbKeyfile.Some? ==> g.enrolment.usbUuid.Some?)
    && s.keyslots == EnrolledSlots(env, g.enrolment)
    && Meta(s, MetaHeaderMac) == Some(HexText(HeaderMac(env, g.enrolment.dek, s.keyslots, g.floorMs)))
    && Meta(s, MetaIssuanceFloor) == Some(Decimal(g.floorMs))
    && Meta(s, MetaDekGeneration) == Some(Decimal(DEK_GENERATION))
  }

  ghost predicate Honest(env: Env, g: Genesis, s: StoreState) {
    var dek := g.enrolment.dek;
    && HeaderOk(env, g, s)
    && ChainOk(env, s.audit)
    && SecretsOk(env, dek, s.secrets, s.nextSecretRowId)
    && PoliciesOk(s.relays)
    && BearersOk(env, dek, s.relays, s.bearers)
  }

  /** A write that an honest store survives. */
  predicate WriteOk(env: Env, g: Genesis, s: StoreState, w: Write) {
    match w
    case WriteMeta(k, _) => k == MetaHighWater || k == MetaAuditHead
    case WriteSlot(_) => false
    case WriteReserve => s.nextSecretRowId < I64_MAX
    case WriteSecret(row) => PutAccepted(s, row) && SecretWriteOk(env, g.enrolment.dek, s, row)
    case WriteRow(_) => |s.audit| < I64_MAX
    case WritePolicy(row) => PolicyWriteOk(s.relays, row)
    case WriteBearer(row) => BearerWriteOk(env, g.enrolment.dek, s, row)
  }

  predicate SecretWriteOk(env: Env, dek: Dek, s: StoreState, row: SecretRow) {
    && SealedIn(env, dek, row) && |s.secrets| < U32_MAX
    && (if s.secrets == [] then 0 else s.secrets[|s.secrets| - 1].rowId) < row.rowId
  }

  /** Nothing is ever lost: logs and tables only grow, ids keep their relay, bearers only become revoked. */
  ghost predicate Grows(s: StoreState, t: StoreState) {
    && s.audit <= t.audit && s.secrets <= t.secrets && s.nextSecretRowId <= t.nextSecretRowId
    && PoliciesStay(s.relays, t.relays)
    && BearersStay(s.bearers, t.bearers)
  }

  ghost predicate PoliciesStay(prior: seq<RelayPolicyRow>, newer: seq<RelayPolicyRow>) {
    |prior| <= |newer| && forall j :: 0 <= j < |prior| ==>
      newer[j].id == prior[j].id && newer[j].policy.relayId == prior[j].policy.relayId
  }

  ghost predicate BearersStay(prior: seq<BearerRow>, newer: seq<BearerRow>) {
    |prior| <= |newer| && forall j :: 0 <= j < |prior| ==> Revises(prior[j], newer[j])
  }

  lemma GrowsTransitive(s: StoreState, t: StoreState, u: StoreState)
    requires Grows(s, t) && Grows(t, u)
    ensures Grows(s, u)
  {
    forall j | 0 <= j < |s.bearers| ensures Revises(s.bearers[j], u.bearers[j]) {
      assert Revises(s.bearers[j], t.bearers[j]) && Revises(t.bearers[j], u.bearers[j]);
    }
  }

  // ---- one write ----

  lemma SecretKeeps(env: Env, dek: Dek, s: StoreState, row: SecretRow)
    requires SecretsOk(env, dek, s.secrets, s.nextSecretRowId)
    requires PutAccepted(s, row) && SecretWriteOk(env, dek, s, row)
    ensures SecretsOk(env, dek, s.secrets + [row], s.nextSecretRowId)
  {
    var longer, n := s.secrets + [row], |s.secrets|;
    LatestIsNewest(env, dek, s.secrets, s.nextSecretRowId, row.name);
    BookShorter(env, dek, s.secrets, row.name);
    forall j | 0 <= j < |longer| ensures SecretOk(env, dek, longer, s.nextSecretRowId, j) {
      if j < n {
        assert SecretOk(env, dek, s.secrets, s.nextSecretRowId, j);
        assert longer[..j] == s.secrets[..j];
      } else {
        assert longer[..n] == s.secrets;
      }
    }
  }

  lemma PolicyKeeps(relays: seq<RelayPolicyRow>, row: RelayPolicyRow)
    requires PoliciesOk(relays) && PolicyWriteOk(relays, row)
    ensures PoliciesOk(UpsertPolicy(relays, row)) && PoliciesStay(relays, UpsertPolicy(relays, row))
  {
  }

  lemma PolicyFound(relays: seq<RelayPolicyRow>, id: I64, j: nat)
    requires j < |relays| && relays[j].id == id
    ensures HasPolicy(relays, id)
  {
  }

  /** A bearer's link survives any later policy write. */
  lemma LinkKept(prior: seq<RelayPolicyRow>, newer: seq<RelayPolicyRow>, id: I64)
    requires PoliciesStay(prior, newer) && HasPolicy(prior, id)
    ensures HasPolicy(newer, id)
  {
    PolicyFound(newer, id, PolicyIdIndex(prior, id));
  }

  lemma BearersRelinked(env: Env, dek: Dek, prior: seq<RelayPolicyRow>, newer: seq<RelayPolicyRow>,
                        bearers: seq<BearerRow>)
    requires PoliciesStay(prior, newer) && BearersOk(env, dek, prior, bearers)
    ensures BearersOk(env, dek, newer, bearers)
  {
    forall j | 0 <= j < |bearers| ensures BearerOk(env, dek, newer, bearers[j]) {
      assert BearerOk(env, dek, prior, bearers[j]);
      LinkKept(prior, newer, bearers[j].claims.policyId);
    }
  }

  lemma BearerKeeps(env: Env, dek: Dek, s: StoreState, row: BearerRow)
    requires BearersOk(env, dek, s.relays, s.bearers) && BearerWriteOk(env, dek, s, row)
    ensures BearersOk(env, dek, s.relays, UpsertBearer(s.bearers, row))
    ensures BearersStay(s.bearers, UpsertBearer(s.bearers, row))
  {
    UpsertInPlace(s.bearers, row);
    var newer := UpsertBearer(s.bearers, row);
    forall j | 0 <= j < |newer| ensures BearerOk(env, dek, s.relays, newer[j]) {
      assert j < |s.bearers| ==> BearerOk(env, dek, s.relays, s.bearers[j]);
    }
  }

  /** Saving a bearer replaces the row with its token id where it stands, or appends. */
  lemma UpsertInPlace(bearers: seq<BearerRow>, row: BearerRow)
    ensures var i, newer := BearerIndex(bearers, row.claims.tokenId), UpsertBearer(bearers, row);
      && |newer| == Max(|bearers|, i + 1) && newer[i] == row
      && forall j :: 0 <= j < |bearers| && j != i ==> newer[j] == bearers[j]
  {
  }

  /** Every admissible write keeps the store honest and loses nothing. */
  lemma WriteKeeps(env: Env, g: Genesis, s: StoreState, w: Write)
    requires Honest(env, g, s) && WriteOk(env, g, s, w)
    ensures Honest(env, g, Apply(env, s, w)) && Grows(s, Apply(env, s, w))
  {
    var dek, t := g.enrolment.dek, Apply(env, s, w);
    match w {
      case WriteMeta(k, v) =>
      case WriteReserve => ReserveKeeps(env, dek, s);
      case WriteSecret(row) => SecretKeeps(env, dek, s, row);
      case WriteRow(rec) => LinkExtends(env, s.audit, rec);
      case WritePolicy(row) =>
        PolicyKeeps(s.relays, row);
        BearersRelinked(env, dek, s.relays, t.relays, s.bearers);
      case WriteBearer(row) => BearerKeeps(env, dek, s, row);
    }
  }

  lemma ReserveKeeps(env: Env, dek: Dek, s: StoreState)
    requires SecretsOk(env, dek, s.secrets, s.nextSecretRowId) && s.nextSecretRowId < I64_MAX
    ensures SecretsOk(env, dek, s.secrets, s.nextSecretRowId + 1)
  {
    var next := s.nextSecretRowId + 1;
    forall j | 0 <= j < |s.secrets| ensures SecretOk(env, dek, s.secrets, next, j) {
      assert SecretOk(env, dek, s.secrets, s.nextSecretRowId, j);
    }
  }

  // ---- many writes ----

  /** Write `k` of the list is admissible where it happens. */
  predicate OkAt(env: Env, g: Genesis, s: StoreState, ws: seq<Write>, k: nat)
    requires k < |ws|
  {
    WriteOk(env, g, ApplyAll(env, s, ws[..k]), ws[k])
  }

  ghost predicate AllOk(env: Env, g: Genesis, s: StoreState, ws: seq<Write>) {
    forall k :: 0 <= k < |ws| ==> OkAt(env, g, s, ws, k)
  }

  /** However far an admissible list of writes gets, the store it leaves is honest and has lost nothing. */
  lemma {:induction false} WritesKeep(env: Env, g: Genesis, s: StoreState, ws: seq<Write>, k: nat)
    requires Honest(env, g, s) && AllOk(env, g, s, ws) && k <= |ws|
    ensures Honest(env, g, ApplyAll(env, s, ws[..k])) && Grows(s, ApplyAll(env, s, ws[..k]))
  {
    if k > 0 {
      WritesKeep(env, g, s, ws, k - 1);
      assert OkAt(env, g, s, ws, k - 1);
      ApplyUpTo(env, s, ws, k);
      OneMoreWrite(env, g, s, ApplyAll(env, s, ws[..k - 1]), ws[k - 1]);
    }
  }

  lemma NextWriteGrows(env: Env, g: Genesis, s: StoreState, ws: seq<Write>, k: nat)
    requires Honest(env, g, s) && AllOk(env, g, s, ws) && 0 < k <= |ws|
    ensures Grows(ApplyAll(env, s, ws[..k - 1]), ApplyAll(env, s, ws[..k]))
  {
    WritesKeep(env, g, s, ws, k - 1);
    assert OkAt(env, g, s, ws, k - 1);
    ApplyUpTo(env, s, ws, k);
    WriteKeeps(env, g, ApplyAll(env, s, ws[..k - 1]), ws[k - 1]);
  }

  /** Write `k` of the list loses nothing. */
  ghost predicate StepGrows(env: Env, s: StoreState, ws: seq<Write>, k: nat)
    requires 0 < k <= |ws|
  {
    Grows(ApplyAll(env, s, ws[..k - 1]), ApplyAll(env, s, ws[..k]))
  }

  lemma {:induction false} GrowthChains(env: Env, s: StoreState, ws: seq<Write>, j: nat, k: nat)
    requires j <= k <= |ws| && forall i :: j < i <= k ==> StepGrows(env, s, ws, i)
    ensures Grows(ApplyAll(env, s, ws[..j]), ApplyAll(env, s, ws[..k]))
    decreases k
  {
    if j == k {
      GrowsReflexive(ApplyAll(env, s, ws[..k]));
    } else {
      GrowthChains(env, s, ws, j, k - 1);
      assert StepGrows(env, s, ws, k);
      GrowsTransitive(ApplyAll(env, s, ws[..j]), ApplyAll(env, s, ws[..k - 1]), ApplyAll(env, s, ws[..k]));
    }
  }

  /** What a longer prefix leaves has everything that a shorter one left. */
  lemma WritesGrow(env: Env, g: Genesis, s: StoreState, ws: seq<Write>, j: nat, k: nat)
    requires Honest(env, g, s) && AllOk(env, g, s, ws) && j <= k <= |ws|
    ensures Grows(ApplyAll(env, s, ws[..j]), ApplyAll(env, s, ws[..k]))
  {
    forall i | j < i <= k ensures StepGrows(env, s, ws, i) {
      NextWriteGrows(env, g, s, ws, i);
    }
    GrowthChains(env, s, ws, j, k);
  }

  lemma GrowsReflexive(s: StoreState)
    ensures Grows(s, s)
  {
  }

  lemma OneMoreWrite(env: Env, g: Genesis, s: StoreState, t: StoreState, w: Write)
    requires Grows(s, t) && Honest(env, g, t) && WriteOk(env, g, t, w)
    ensures Honest(env, g, Apply(env, t, w)) && Grows(s, Apply(env, t, w))
  {
    WriteKeeps(env, g, t, w);
    GrowsTransitive(s, t, Apply(env, t, w));
  }

  lemma AllOkOne(env: Env, g: Genesis, s: StoreState, w: Write)
    requires WriteOk(env, g, s, w)
    ensures AllOk(env, g, s, [w])
  {
    assert [w][..0] == [];
  }

  lemma AllOkConcat(env: Env, g: Genesis, s: StoreState, a: seq<Write>, b: seq<Write>)
    requires AllOk(env, g, s, a) && AllOk(env, g, ApplyAll(env, s, a), b)
    ensures AllOk(env, g, s, a + b)
  {
    forall k | 0 <= k < |a + b| ensures OkAt(env, g, s, a + b, k) {
      if k < |a| {
        assert OkAt(env, g, s, a, k);
        assert (a + b)[..k] == a[..k];
      } else {
        assert OkAt(env, g, ApplyAll(env, s, a), b, k - |a|);
        ApplyConcat(env, s, a, b[..k - |a|]);
        assert (a + b)[..k] == a + b[..k - |a|];
      }
    }
  }
}
