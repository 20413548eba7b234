/**
 The in-memory store. Its contents are a value, every mutation is a `Write`, and the class keeps
 the list of writes it has performed, so that a crash is a prefix of that list.
 */
module Store {
  import opened Bytes
  import opened Environment
  import opened Audit
  import opened Keyslots
  import opened Broker

  datatype MetaKey = MetaHeaderMac | MetaIssuanceFloor | MetaDekGeneration | MetaAuditHead | MetaHighWater

  datatype SecretRow = SecretRow(
    rowId: I64,
    name: Text,
    version: U32,
    provider: Provider,
    note: Text,
    brokerOnly: bool,
    dekGeneration: I64,
    nonce: Bytes,
    ctTag: Bytes,
    createdTs: Text)

  datatype StoreState = StoreState(
    meta: map<MetaKey, Text>,
    secrets: seq<SecretRow>,
    keyslots: seq<Keyslot>,       // ascending by id, as a BTreeMap iterates
    audit: seq<AuditRecord>,
    nextSecretRowId: I64,
    relays: seq<RelayPolicyRow>,
    bearers: seq<BearerRow>)

  const EMPTY: StoreState := StoreState(map[], [], [], [], 0, [], [])

  // ---- lookups ----

  function Meta(s: StoreState, k: MetaKey): Option<Text> {
    if k in s.meta then Some(s.meta[k]) else None
  }

  /** The row of `name` with the highest version, the later one among equals. */
  function Latest(secrets: seq<SecretRow>, name: Text): (r: Option<SecretRow>)
    ensures r.Some? ==> r.value in secrets && r.value.name == name
    ensures forall x :: x in secrets && x.name == name ==> r.Some? && x.version <= r.value.version
  {
    if secrets == [] then None
    else
      var last := secrets[|secrets| - 1];
      var front := Latest(secrets[..|secrets| - 1], name);
      if last.name == name && (front.None? || front.value.version <= last.version) then Some(last) else front
  }

  /** Among rows of the highest version it is the last one written. */
  lemma {:induction false} LatestIsLast(secrets: seq<SecretRow>, name: Text) returns (i: nat)
    requires Latest(secrets, name).Some?
    ensures i < |secrets| && Latest(secrets, name) == Some(secrets[i]) && secrets[i].name == name
    ensures forall j :: 0 <= j < |secrets| && secrets[j].name == name ==>
      secrets[j].version <= secrets[i].version && (j > i ==> secrets[j].version < secrets[i].version)
  {
    var n := |secrets| - 1;
    if Latest(secrets, name) == Some(secrets[n]) {
      i := n;
    } else {
      i := LatestIsLast(secrets[..n], name);
    }
  }

  function MaxVersion(secrets: seq<SecretRow>, name: Text): U32 {
    var latest := Latest(secrets, name);
    if latest.Some? then latest.value.version else 0
  }

  predicate RowIdTaken(secrets: seq<SecretRow>, rowId: I64) {
    exists i :: 0 <= i < |secrets| && secrets[i].rowId == rowId
  }

  /** The contract checks of `put_secret`. */
  predicate PutAccepted(s: StoreState, row: SecretRow) {
    && 0 < row.rowId <= s.nextSecretRowId
    && !RowIdTaken(s.secrets, row.rowId)
    && row.version == Succ32(MaxVersion(s.secrets, row.name))
  }

  function BearerIndex(bearers: seq<BearerRow>, tokenId: Text): (i: nat)
    ensures i <= |bearers|
    ensures i < |bearers| ==> bearers[i].claims.tokenId == tokenId
    ensures forall j :: 0 <= j < i ==> bearers[j].claims.tokenId != tokenId
  {
    if bearers == [] || bearers[0].claims.tokenId == tokenId then 0 else 1 + BearerIndex(bearers[1..], tokenId)
  }

  function LoadBearer(s: StoreState, tokenId: Text): Option<BearerRow> {
    var i := BearerIndex(s.bearers, tokenId);
    if i < |s.bearers| then Some(s.bearers[i]) else None
  }

  function PolicyIndex(relays: seq<RelayPolicyRow>, relayId: Text): (i: nat)
    ensures i <= |relays|
    ensures i < |relays| ==> relays[i].policy.relayId == relayId
    ensures forall j :: 0 <= j < i ==> relays[j].policy.relayId != relayId
  {
    if relays == [] || relays[0].policy.relayId == relayId then 0 else 1 + PolicyIndex(relays[1..], relayId)
  }

  function LoadPolicy(s: StoreState, relayId: Text): Option<RelayPolicyRow> {
    var i := PolicyIndex(s.relays, relayId);
    if i < |s.relays| then Some(s.relays[i]) else None
  }

  function PolicyIdIndex(relays: seq<RelayPolicyRow>, id: I64): (i: nat)
    ensures i <= |relays|
    ensures i < |relays| ==> relays[i].id == id
    ensures forall j :: 0 <= j < i ==> relays[j].id != id
  {
    if relays == [] || relays[0].id == id then 0 else 1 + PolicyIdIndex(relays[1..], id)
  }

  function FindPolicyById(s: StoreState, id: I64): Option<RelayPolicyRow> {
    var i := PolicyIdIndex(s.relays, id);
    if i < |s.relays| then Some(s.relays[i]) else None
  }

  /** The highest id in use, or zero. */
  function MaxPolicyId(relays: seq<RelayPolicyRow>): (m: I64)
    ensures forall i :: 0 <= i < |relays| ==> relays[i].id <= m
    ensures m == 0 || exists i :: 0 <= i < |relays| && relays[i].id == m
  {
    if relays == [] then 0
    else
      var last := |relays| - 1;
      var m := MaxPolicyId(relays[..last]);
      if relays[last].id >= m then relays[last].id else m
  }

  /** The id `save_relay_policy` gives a row: its own, else the relay's existing one, else a new one. */
  function AssignedPolicyId(relays: seq<RelayPolicyRow>, row: RelayPolicyRow): I64 {
    var i := PolicyIndex(relays, row.policy.relayId);
    if row.id != 0 then row.id
    else if i < |relays| then relays[i].id
    else Succ64(MaxPolicyId(relays))
  }

  function FilterByPolicy(bearers: seq<BearerRow>, policyId: I64): seq<BearerRow> {
    if bearers == [] then []
    else
      (if bearers[0].claims.policyId == policyId then [bearers[0]] else []) + FilterByPolicy(bearers[1..], policyId)
  }

  function BearersForRelay(s: StoreState, relayId: Text): seq<BearerRow> {
    match LoadPolicy(s, relayId)
    case None => []
    case Some(row) => FilterByPolicy(s.bearers, row.id)
  }

  // ---- writes ----

  datatype Write =
    | WriteMeta(key: MetaKey, text: Text)
    | WriteSlot(slot: Keyslot)
    | WriteReserve
    | WriteSecret(secret: SecretRow)
    | WriteRow(rec: AuditRecord)
    | WritePolicy(policyRow: RelayPolicyRow)
    | WriteBearer(bearer: BearerRow)

  function UpsertSlot(slots: seq<Keyslot>, slot: Keyslot): seq<Keyslot> {
    if slots == [] then [slot]
    else if slots[0].id == slot.id then [slot] + slots[1..]
    else if slot.id < slots[0].id then [slot] + slots
    else [slots[0]] + UpsertSlot(slots[1..], slot)
  }

  predicate InIdOrder(slots: seq<Keyslot>) { forall i, j :: 0 <= i < j < |slots| ==> slots[i].id < slots[j].id }

  /** Saving a slot keeps the slots in id order, puts it in, and drops only the slot of its id. */
  lemma {:induction false} UpsertSlotKeepsOrder(slots: seq<Keyslot>, slot: Keyslot)
    requires InIdOrder(slots)
    ensures InIdOrder(UpsertSlot(slots, slot))
    ensures forall x :: x in UpsertSlot(slots, slot) <==> x == slot || (x in slots && x.id != slot.id)
  {
    if slots != [] {
      UpsertSlotKeepsOrder(slots[1..], slot);
    }
  }

  function UpsertPolicy(relays: seq<RelayPolicyRow>, row: RelayPolicyRow): seq<RelayPolicyRow> {
    var i := PolicyIndex(relays, row.policy.relayId);
    var stored := row.(id := AssignedPolicyId(relays, row));
    if i < |relays| then relays[i := stored] else relays + [stored]
  }

  function UpsertBearer(bearers: seq<BearerRow>, row: BearerRow): seq<BearerRow> {
    var i := BearerIndex(bearers, row.claims.tokenId);
    if i < |bearers| then bearers[i := row] else bearers + [row]
  }

  function Apply(env: Env, s: StoreState, w: Write): StoreState {
    match w
    case WriteMeta(k, v) => s.(meta := s.meta[k := v])
    case WriteSlot(slot) => s.(keyslots := UpsertSlot(s.keyslots, slot))
    case WriteReserve => s.(nextSecretRowId := Succ64(s.nextSecretRowId))
    case WriteSecret(row) => s.(secrets := s.secrets + [row])
    case WriteRow(rec) => s.(audit := s.audit + [Linked(env, Last(s.audit), rec)])
    case WritePolicy(row) => s.(relays := UpsertPolicy(s.relays, row))
    case WriteBearer(row) => s.(bearers := UpsertBearer(s.bearers, row))
  }

  function ApplyAll(env: Env, s: StoreState, ws: seq<Write>): StoreState {
    if ws == [] then s else Apply(env, ApplyAll(env, s, ws[..|ws| - 1]), ws[|ws| - 1])
  }

  lemma ApplyOne(env: Env, s: StoreState, w: Write)
    ensures ApplyAll(env, s, [w]) == Apply(env, s, w)
  {
    assert [w][..0] == [];
  }

  lemma ApplyMore(env: Env, s: StoreState, ws: seq<Write>, w: Write)
    ensures ApplyAll(env, s, ws + [w]) == Apply(env, ApplyAll(env, s, ws), w)
  {
    assert (ws + [w])[..|ws|] == ws;
  }

  lemma ApplyUpTo(env: Env, s: StoreState, ws: seq<Write>, k: nat)
    requires 0 < k <= |ws|
    ensures ApplyAll(env, s, ws[..k]) == Apply(env, ApplyAll(env, s, ws[..k - 1]), ws[k - 1])
  {
    assert ws[..k][..k - 1] == ws[..k - 1];
  }

  lemma {:induction false} ApplyConcat(env: Env, s: StoreState, a: seq<Write>, b: seq<Write>)
    ensures ApplyAll(env, s, a + b) == ApplyAll(env, ApplyAll(env, s, a), b)
  {
    if b == [] {
      assert a + b == a;
    } else {
      var n := |b| - 1;
      ApplyConcat(env, s, a, b[..n]);
      assert a + b == (a + b[..n]) + [b[n]];
      ApplyMore(env, s, a + b[..n], b[n]);
    }
  }

  /** No write removes a meta key. */
  lemma {:induction false} MetaKept(env: Env, s: StoreState, ws: seq<Write>, k: MetaKey)
    requires k in s.meta
    ensures k in ApplyAll(env, s, ws).meta
  {
    if ws != [] {
      MetaKept(env, s, ws[..|ws| - 1], k);
    }
  }

  // ---- the store itself ----

  class InMemStore {
    const env: Env
    var meta: map<MetaKey, Text>
    var secrets: seq<SecretRow>
    var keyslots: seq<Keyslot>
    var audit: seq<AuditRecord>
    var nextSecretRowId: I64
    var relays: seq<RelayPolicyRow>
    var bearers: seq<BearerRow>
    ghost var log: seq<Write>

    function State(): StoreState
      reads this
    {
      StoreState(meta, secrets, keyslots, audit, nextSecretRowId, relays, bearers)
    }

    /** The contents are what the writes so far make of an empty store. */
    ghost predicate Valid()
      reads this
    {
      State() == ApplyAll(env, EMPTY, log)
    }

    constructor (env: Env)
      ensures this.env == env && Valid() && State() == EMPTY && log == []
    {
      this.env := env;
      meta, secrets, keyslots, audit := map[], [], [], [];
      nextSecretRowId, relays, bearers := 0, [], [];
      log := [];
    }

    method PutMeta(k: MetaKey, v: Text)
      requires Valid()
      modifies this
      ensures Valid() && log == old(log) + [WriteMeta(k, v)]
      ensures State() == Apply(env, old(State()), WriteMeta(k, v))
    {
      meta := meta[k := v];
      log := log + [WriteMeta(k, v)];
      ApplyMore(env, EMPTY, old(log), WriteMeta(k, v));
    }

    /** Bump and return the high-water mark of row ids. */
    method ReserveSecretRowId() returns (id: I64)
      requires Valid()
      modifies this
      ensures Valid() && log == old(log) + [WriteReserve]
      ensures State() == Apply(env, old(State()), WriteReserve)
      ensures id == nextSecretRowId
    {
      nextSecretRowId := Succ64(nextSecretRowId);
      log := log + [WriteReserve];
      ApplyMore(env, EMPTY, old(log), WriteReserve);
      id := nextSecretRowId;
    }

    /** Insert a sealed version verbatim, or reject it and change nothing. */
    method PutSecret(row: SecretRow) returns (r: Result<I64, ()>)
      requires Valid()
      modifies this
      ensures Valid() && (r.Ok? <==> PutAccepted(old(State()), row))
      ensures r.Ok? ==> r.value == row.rowId && log == old(log) + [WriteSecret(row)]
      ensures r.Ok? ==> State() == Apply(env, old(State()), WriteSecret(row))
      ensures r.Err? ==> log == old(log) && State() == old(State())
    {
      if row.rowId <= 0 || row.rowId > nextSecretRowId {
        return Err(());
      }
      if RowIdTaken(secrets, row.rowId) {
        return Err(());
      }
      var expected := Succ32(MaxVersion(secrets, row.name));
      if row.version != expected {
        return Err(());
      }
      secrets := secrets + [row];
      log := log + [WriteSecret(row)];
      ApplyMore(env, EMPTY, old(log), WriteSecret(row));
      return Ok(row.rowId);
    }

    method SaveKeyslot(slot: Keyslot)
      requires Valid()
      modifies this
      ensures Valid() && log == old(log) + [WriteSlot(slot)]
      ensures State() == Apply(env, old(State()), WriteSlot(slot))
    {
      keyslots := UpsertSlot(keyslots, slot);
      log := log + [WriteSlot(slot)];
      ApplyMore(env, EMPTY, old(log), WriteSlot(slot));
    }

    /** Link the record to the tail and push it. */
    method AppendAudit(rec: AuditRecord) returns (seqNo: I64)
      requires Valid()
      modifies this
      ensures Valid() && log == old(log) + [WriteRow(rec)]
      ensures State() == Apply(env, old(State()), WriteRow(rec))
      ensures seqNo == audit[|audit| - 1].seqNo
    {
      var sealed := LinkRow(env, Last(audit), rec);
      audit := audit + [sealed];
      log := log + [WriteRow(rec)];
      ApplyMore(env, EMPTY, old(log), WriteRow(rec));
      seqNo := sealed.seqNo;
    }

    /** Upsert by relay id; the assigned id is the linkage key of its bearers. */
    method SaveRelayPolicy(row: RelayPolicyRow) returns (id: I64)
      requires Valid()
      modifies this
      ensures Valid() && log == old(log) + [WritePolicy(row)]
      ensures State() == Apply(env, old(State()), WritePolicy(row))
      ensures id == AssignedPolicyId(old(relays), row)
    {
      var i := PolicyIndex(relays, row.policy.relayId);
      if row.id != 0 {
        id := row.id;
      } else if i < |relays| {
        id := relays[i].id;
      } else {
        id := Succ64(MaxPolicyId(relays));
      }
      if i < |relays| {
        relays := relays[i := row.(id := id)];
      } else {
        relays := relays + [row.(id := id)];
      }
      log := log + [WritePolicy(row)];
      ApplyMore(env, EMPTY, old(log), WritePolicy(row));
    }

    method SaveBearer(row: BearerRow)
      requires Valid()
      modifies this
      ensures Valid() && log == old(log) + [WriteBearer(row)]
      ensures State() == Apply(env, old(State()), WriteBearer(row))
    {
      var i := BearerIndex(bearers, row.claims.tokenId);
      if i < |bearers| {
        bearers := bearers[i := row];
      } else {
        bearers := bearers + [row];
      }
      log := log + [WriteBearer(row)];
      ApplyMore(env, EMPTY, old(log), WriteBearer(row));
    }
  }
}
