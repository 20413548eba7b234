/** The hash-chained audit log: canonical row bytes, linking, and what a verified chain binds. */
module Audit {
  import opened Bytes
  import opened Codec
  import opened Environment

  datatype AuditOutcome = Succeeded | Refused | Failed

  datatype AuditRecord = AuditRecord(
    seqNo: I64,
    ts: Text,
    actorUid: Option<U32>,
    eventType: Text,
    subject: Option<Text>,
    detail: Bytes,
    outcome: AuditOutcome,
    prevHash: Bytes,
    rowHash: Bytes)

  /** The fields a row hash covers besides the previous hash. */
  datatype RowContent = RowContent(
    seqNo: I64,
    ts: Text,
    actorUid: Option<U32>,
    eventType: Text,
    subject: Option<Text>,
    detail: Bytes,
    outcome: AuditOutcome)

  const AUDIT_ROW_DOMAIN: Bytes := Ascii("env-ctl/v1/audit-row")
  const GENESIS_SEED: Bytes := Ascii("env-ctl/v1/audit-genesis")

  function GenesisHash(env: Env): Digest { env.hash(GENESIS_SEED) }

  function OutcomeByte(o: AuditOutcome): byte {
    match o
    case Succeeded => 1
    case Refused => 2
    case Failed => 3
  }

  // ---- canonical rows ----

  function CanonicalRow(rec: AuditRecord): Bytes {
    AUDIT_ROW_DOMAIN + (PutI64(rec.seqNo) + (PutField32(rec.ts) + (PutOptU32(rec.actorUid) + EventBytes(rec))))
  }

  function EventBytes(rec: AuditRecord): Bytes {
    PutField32(rec.eventType) + (PutOptField32(rec.subject) + DetailBytes(rec))
  }

  function DetailBytes(rec: AuditRecord): Bytes { PutField32(rec.detail) + [OutcomeByte(rec.outcome)] }

  function Content(rec: AuditRecord): RowContent {
    RowContent(rec.seqNo, rec.ts, rec.actorUid, rec.eventType, rec.subject, rec.detail, rec.outcome)
  }

  function DecodeOutcome(b: Bytes): Option<AuditOutcome> {
    if b == [1] then Some(Succeeded)
    else if b == [2] then Some(Refused)
    else if b == [3] then Some(Failed)
    else None
  }

  function DecodeRow(b: Bytes): Option<RowContent> {
    var body :- Expect(b, AUDIT_ROW_DOMAIN);
    var seqNo :- GetI64(body);
    var ts :- GetField32(seqNo.rest);
    var actor :- GetOptU32(ts.rest);
    DecodeEvent(seqNo.value, ts.value, actor.value, actor.rest)
  }

  function DecodeEvent(seqNo: I64, ts: Text, actor: Option<U32>, b: Bytes): Option<RowContent> {
    var eventType :- GetField32(b);
    var subject :- GetOptField32(eventType.rest);
    DecodeDetail(seqNo, ts, actor, eventType.value, subject.value, subject.rest)
  }

  function DecodeDetail(seqNo: I64, ts: Text, actor: Option<U32>, eventType: Text, subject: Option<Text>,
                        b: Bytes): Option<RowContent> {
    var detail :- GetField32(b);
    var outcome :- DecodeOutcome(detail.rest);
    Some(RowContent(seqNo, ts, actor, eventType, subject, detail.value, outcome))
  }

  /** Every variable-length field fits its 32-bit length prefix. */
  predicate Encodable(rec: AuditRecord) {
    Fits32(rec.ts) && Fits32(rec.eventType) && OptFits32(rec.subject) && Fits32(rec.detail)
  }

  lemma DetailDecodes(rec: AuditRecord)
    requires Encodable(rec)
    ensures DecodeDetail(rec.seqNo, rec.ts, rec.actorUid, rec.eventType, rec.subject, DetailBytes(rec)) ==
            Some(Content(rec))
  {
    Field32Back(rec.detail, [OutcomeByte(rec.outcome)]);
  }

  lemma EventDecodes(rec: AuditRecord)
    requires Encodable(rec)
    ensures DecodeEvent(rec.seqNo, rec.ts, rec.actorUid, EventBytes(rec)) == Some(Content(rec))
  {
    Field32Back(rec.eventType, PutOptField32(rec.subject) + DetailBytes(rec));
    OptField32Back(rec.subject, DetailBytes(rec));
    DetailDecodes(rec);
  }

  lemma RowDecodes(rec: AuditRecord)
    requires Encodable(rec)
    ensures DecodeRow(CanonicalRow(rec)) == Some(Content(rec))
  {
    var r3 := EventBytes(rec);
    var r2 := PutOptU32(rec.actorUid) + r3;
    var r1 := PutField32(rec.ts) + r2;
    ExpectOwn(AUDIT_ROW_DOMAIN, PutI64(rec.seqNo) + r1);
    I64Back(rec.seqNo, r1);
    Field32Back(rec.ts, r2);
    OptU32Back(rec.actorUid, r3);
    EventDecodes(rec);
  }

  // ---- the chain ----

  /** What a row's hash is taken over. */
  function HashInput(rec: AuditRecord): Bytes { rec.prevHash + CanonicalRow(rec) }

  function NewRow(ts: Text, actorUid: Option<U32>, eventType: Text, subject: Option<Text>,
                  detail: Bytes, outcome: AuditOutcome): AuditRecord
  {
    AuditRecord(0, ts, actorUid, eventType, subject, detail, outcome, [], [])
  }

  function Last(rows: seq<AuditRecord>): Option<AuditRecord> {
    if rows == [] then None else Some(rows[|rows| - 1])
  }

  /** Stamp `rec` as the successor of `prev`. */
  function Linked(env: Env, prev: Option<AuditRecord>, rec: AuditRecord): AuditRecord {
    var placed := rec.(seqNo := Succ64(if prev.Some? then prev.value.seqNo else 0),
                       prevHash := if prev.Some? then prev.value.rowHash else GenesisHash(env));
    placed.(rowHash := env.hash(HashInput(placed)))
  }

  method LinkRow(env: Env, prev: Option<AuditRecord>, rec: AuditRecord) returns (sealed: AuditRecord)
    ensures sealed == Linked(env, prev, rec)
    ensures sealed.rowHash == env.hash(HashInput(sealed))
    ensures Content(sealed) == Content(rec).(seqNo := sealed.seqNo)
  {
    sealed := rec;
    sealed := sealed.(seqNo := Succ64(if prev.Some? then prev.value.seqNo else 0));
    match prev {
      case Some(p) => sealed := sealed.(prevHash := p.rowHash);
      case None => sealed := sealed.(prevHash := GenesisHash(env));
    }
    sealed := sealed.(rowHash := env.hash(sealed.prevHash + CanonicalRow(sealed)));
    assert HashInput(sealed) == sealed.prevHash + CanonicalRow(sealed);
  }

  function PrevHash(env: Env, rows: seq<AuditRecord>, i: nat): Bytes
    requires i <= |rows|
  {
    if i == 0 then GenesisHash(env) else rows[i - 1].rowHash
  }

  predicate RowOk(env: Env, rows: seq<AuditRecord>, i: nat)
    requires i < |rows|
  {
    && rows[i].seqNo == i + 1
    && rows[i].prevHash == PrevHash(env, rows, i)
    && rows[i].rowHash == env.hash(HashInput(rows[i]))
  }

  predicate ChainOk(env: Env, rows: seq<AuditRecord>) {
    forall i :: 0 <= i < |rows| ==> RowOk(env, rows, i)
  }

  /** The chain verifies, or the sequence number of the first row that breaks it comes back. */
  method VerifyChain(env: Env, rows: seq<AuditRecord>) returns (r: Result<(), I64>)
    ensures r.Ok? <==> ChainOk(env, rows)
    ensures r.Err? ==> exists i | 0 <= i < |rows| ::
              !RowOk(env, rows, i) && r.error == rows[i].seqNo && ChainOk(env, rows[..i])
  {
    var prevHash: Bytes := GenesisHash(env);
    for i := 0 to |rows|
      invariant prevHash == PrevHash(env, rows, i)
      invariant forall j :: 0 <= j < i ==> RowOk(env, rows, j)
    {
      var row := rows[i];
      if row.seqNo != i + 1 || row.prevHash != prevHash || row.rowHash != env.hash(row.prevHash + CanonicalRow(row)) {
        assert !RowOk(env, rows, i);
        ChainPrefix(env, rows, i);
        return Err(row.seqNo);
      }
      prevHash := row.rowHash;
    }
    return Ok(());
  }

  lemma ChainPrefix(env: Env, rows: seq<AuditRecord>, k: nat)
    requires k <= |rows|
    requires forall j :: 0 <= j < k ==> RowOk(env, rows, j)
    ensures ChainOk(env, rows[..k])
  {
    forall j | 0 <= j < k ensures RowOk(env, rows[..k], j) {
      assert RowOk(env, rows, j);
    }
  }

  /** Linking a row to the tail of a verifying chain gives a verifying chain. */
  lemma LinkExtends(env: Env, rows: seq<AuditRecord>, rec: AuditRecord)
    requires ChainOk(env, rows) && |rows| < I64_MAX
    ensures ChainOk(env, rows + [Linked(env, Last(rows), rec)])
    ensures Linked(env, Last(rows), rec).seqNo == |rows| + 1
  {
    var sealed := Linked(env, Last(rows), rec);
    var longer := rows + [sealed];
    if rows != [] {
      assert RowOk(env, rows, |rows| - 1);
    }
    assert HashInput(sealed.(rowHash := [])) == HashInput(sealed);
    forall i | 0 <= i < |longer| ensures RowOk(env, longer, i) {
      if i < |rows| {
        assert RowOk(env, rows, i);
      }
    }
  }

  // ---- binding ----

  /** Two rows, one from each log, whose hashed bytes differ while their hashes agree. */
  predicate RowCollision(env: Env, a: seq<AuditRecord>, i: nat, b: seq<AuditRecord>, j: nat) {
    i < |a| && j < |b| && HashCollision(env, HashInput(a[i]), HashInput(b[j]))
  }

  /** One hashed byte string comes from one row. */
  lemma HashInputInjective(a: AuditRecord, b: AuditRecord)
    requires Encodable(a) && Encodable(b)
    requires |a.prevHash| == |b.prevHash| && HashInput(a) == HashInput(b)
    ensures a.prevHash == b.prevHash && Content(a) == Content(b)
  {
    var n := |a.prevHash|;
    assert a.prevHash == HashInput(a)[..n] == HashInput(b)[..n] == b.prevHash;
    assert CanonicalRow(a) == HashInput(a)[n..] == HashInput(b)[n..] == CanonicalRow(b);
    RowDecodes(a);
    RowDecodes(b);
  }

  lemma PrevHashWidth(env: Env, rows: seq<AuditRecord>, i: nat)
    requires ChainOk(env, rows) && i < |rows|
    ensures |rows[i].prevHash| == 32
  {
    assert RowOk(env, rows, i);
    if i > 0 {
      assert RowOk(env, rows, i - 1);
    }
  }

  ghost predicate AllEncodable(rows: seq<AuditRecord>) {
    forall i :: 0 <= i < |rows| ==> Encodable(rows[i])
  }

  /** Two chained rows with one row hash are one row at one position, or collide. */
  lemma RowBinding(env: Env, a: seq<AuditRecord>, b: seq<AuditRecord>, i: nat, j: nat)
    requires ChainOk(env, a) && ChainOk(env, b) && i < |a| && j < |b|
    requires Encodable(a[i]) && Encodable(b[j])
    requires a[i].rowHash == b[j].rowHash
    ensures HashCollision(env, HashInput(a[i]), HashInput(b[j]))
         || (i == j && a[i] == b[j] && PrevHash(env, a, i) == PrevHash(env, b, j))
  {
    assert RowOk(env, a, i) && RowOk(env, b, j);
    if HashInput(a[i]) == HashInput(b[j]) {
      PrevHashWidth(env, a, i);
      PrevHashWidth(env, b, j);
      HashInputInjective(a[i], b[j]);
    }
  }

  /**
   A tail hash binds the whole chain below it: two verifying logs that share a row hash agree on
   every row up to it, unless row `i` of the one and row `j` of the other collide.
   */
  lemma {:induction false} ChainBinding(env: Env, a: seq<AuditRecord>, b: seq<AuditRecord>, n: nat, m: nat)
      returns (i: nat, j: nat)
    requires ChainOk(env, a) && ChainOk(env, b)
    requires AllEncodable(a) && AllEncodable(b)
    requires 1 <= n <= |a| && 1 <= m <= |b|
    requires a[n - 1].rowHash == b[m - 1].rowHash
    ensures (n == m && a[..n] == b[..m]) || RowCollision(env, a, i, b, j)
    decreases n
  {
    i, j := n - 1, m - 1;
    RowBinding(env, a, b, n - 1, m - 1);
    if !RowCollision(env, a, i, b, j) {
      if n > 1 {
        i, j := ChainBinding(env, a, b, n - 1, n - 1);
      }
      if !RowCollision(env, a, i, b, j) {
        OneMore(a, b, n - 1);
      }
    }
  }

  lemma OneMore(a: seq<AuditRecord>, b: seq<AuditRecord>, k: nat)
    requires k < |a| && k < |b|
    requires a[..k] == b[..k] && a[k] == b[k]
    ensures a[..k + 1] == b[..k + 1]
  {
    assert a[..k + 1] == a[..k] + [a[k]];
    assert b[..k + 1] == b[..k] + [b[k]];
  }
}
