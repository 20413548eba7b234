/** The two remaining canonical messages, and the separation of all six from one another. */
module Messages {
  import opened Bytes
  import opened Codec
  import opened Environment
  import Audit
  import Broker
  import Keyslots

  // ---- the associated data of a stored record ----

  datatype TableTag = SecretVersion | CaKey | Cert | HmacKey

  const RECORD_AAD_DOMAIN: Bytes := Ascii("env-ctl/v1/aad")

  function TagByte(t: TableTag): byte {
    match t
    case SecretVersion => 1
    case CaKey => 2
    case Cert => 3
    case HmacKey => 4
  }

  function RecordAad(t: TableTag, rowId: I64, version: I64, dekGeneration: I64): Bytes {
    RECORD_AAD_DOMAIN + ([TagByte(t)] + (PutI64(rowId) + (PutI64(version) + PutI64(dekGeneration))))
  }

  datatype RecordIdentity = RecordIdentity(tag: TableTag, rowId: I64, version: I64, dekGeneration: I64)

  function GetTag(b: Bytes): Option<Read<TableTag>> {
    var tag :- GetByte(b);
    if tag.value == 1 then Some(Read(SecretVersion, tag.rest))
    else if tag.value == 2 then Some(Read(CaKey, tag.rest))
    else if tag.value == 3 then Some(Read(Cert, tag.rest))
    else if tag.value == 4 then Some(Read(HmacKey, tag.rest))
    else None
  }

  function DecodeRecordAad(b: Bytes): Option<RecordIdentity> {
    var body :- Expect(b, RECORD_AAD_DOMAIN);
    var tag :- GetTag(body);
    var rowId :- GetI64(tag.rest);
    var version :- GetI64(rowId.rest);
    var generation :- GetI64(version.rest);
    if generation.rest == [] then Some(RecordIdentity(tag.value, rowId.value, version.value, generation.value))
    else None
  }

  lemma RecordAadDecodes(t: TableTag, rowId: I64, version: I64, dekGeneration: I64)
    ensures |RecordAad(t, rowId, version, dekGeneration)| == 39
    ensures DecodeRecordAad(RecordAad(t, rowId, version, dekGeneration))
         == Some(RecordIdentity(t, rowId, version, dekGeneration))
  {
    var r2 := PutI64(version) + PutI64(dekGeneration);
    var r1 := PutI64(rowId) + r2;
    ExpectOwn(RECORD_AAD_DOMAIN, [TagByte(t)] + r1);
    ByteBack(TagByte(t), r1);
    I64Back(rowId, r2);
    I64Back(version, PutI64(dekGeneration));
    I64Back(dekGeneration, []);
    assert PutI64(dekGeneration) + [] == PutI64(dekGeneration);
  }

  /** `record_aad`, extended field by field. */
  method BuildRecordAad(t: TableTag, rowId: I64, version: I64, dekGeneration: I64) returns (out: Bytes)
    ensures out == RecordAad(t, rowId, version, dekGeneration)
  {
    out := RECORD_AAD_DOMAIN;
    out := out + [TagByte(t)];
    out := out + PutI64(rowId);
    out := out + PutI64(version);
    out := out + PutI64(dekGeneration);
  }

  // ---- the anchor of the audit log ----

  const AUDIT_HEAD_DOMAIN: Bytes := Ascii("env-ctl/v1/audit-head")

  function AnchorMessage(highWater: I64, tailSeq: I64, tailHash: Bytes): Bytes {
    AUDIT_HEAD_DOMAIN + (PutI64(highWater) + (PutI64(tailSeq) + tailHash))
  }

  function AnchorMac(env: Env, dek: Dek, highWater: I64, tailSeq: I64, tailHash: Bytes): Digest {
    Mac(env, AuditHeadKey, dek, AnchorMessage(highWater, tailSeq, tailHash))
  }

  datatype Anchor = Anchor(highWater: I64, tailSeq: I64, tailHash: Bytes)

  function DecodeAnchor(b: Bytes): Option<Anchor> {
    var body :- Expect(b, AUDIT_HEAD_DOMAIN);
    var highWater :- GetI64(body);
    var tailSeq :- GetI64(highWater.rest);
    Some(Anchor(highWater.value, tailSeq.value, tailSeq.rest))
  }

  lemma AnchorDecodes(highWater: I64, tailSeq: I64, tailHash: Bytes)
    ensures DecodeAnchor(AnchorMessage(highWater, tailSeq, tailHash)) == Some(Anchor(highWater, tailSeq, tailHash))
  {
    ExpectOwn(AUDIT_HEAD_DOMAIN, PutI64(highWater) + (PutI64(tailSeq) + tailHash));
    I64Back(highWater, PutI64(tailSeq) + tailHash);
    I64Back(tailSeq, tailHash);
  }

  lemma AnchorMessageInjective(h1: I64, t1: Bytes, h2: I64, t2: Bytes)
    requires AnchorMessage(h1, h1, t1) == AnchorMessage(h2, h2, t2)
    ensures h1 == h2 && t1 == t2
  {
    AnchorDecodes(h1, h1, t1);
    AnchorDecodes(h2, h2, t2);
  }

  // ---- separation ----

  datatype MessageKind = RecordKind | KeyslotKind | HeaderKind | RowKind | HeadKind | BearerKind

  function Domain(k: MessageKind): Bytes {
    match k
    case RecordKind => RECORD_AAD_DOMAIN
    case KeyslotKind => Keyslots.KEYSLOT_AAD_DOMAIN
    case HeaderKind => Keyslots.HEADER_MAC_DOMAIN
    case RowKind => Audit.AUDIT_ROW_DOMAIN
    case HeadKind => AUDIT_HEAD_DOMAIN
    case BearerKind => Broker.BEARER_ROW_MAC_DOMAIN
  }

  /** The bytes of each prefix that tell the kinds apart; every prefix is longer than that. */
  lemma DomainBytes(k: MessageKind)
    ensures |Domain(k)| >= 14 && (k.RowKind? || k.HeadKind? ==> |Domain(k)| >= 20)
    ensures Domain(k)[11] == (match k case RecordKind => 0x61 case KeyslotKind => 0x6B case HeaderKind => 0x68
                                      case RowKind => 0x61 case HeadKind => 0x61 case BearerKind => 0x72)
    ensures k.RecordKind? ==> Domain(k)[12] == 0x61
    ensures k.RowKind? ==> Domain(k)[12] == 0x75 && Domain(k)[17] == 0x72
    ensures k.HeadKind? ==> Domain(k)[12] == 0x75 && Domain(k)[17] == 0x68
  {
  }

  /** No message of one kind is ever a message of another kind, whatever follows the prefixes. */
  lemma KindsApart(k1: MessageKind, k2: MessageKind, x: Bytes, y: Bytes)
    requires k1 != k2
    ensures Domain(k1) + x != Domain(k2) + y
  {
    DomainBytes(k1);
    DomainBytes(k2);
    var a, b := Domain(k1) + x, Domain(k2) + y;
    assert a[11] == Domain(k1)[11] && b[11] == Domain(k2)[11];
    assert a[12] == Domain(k1)[12] && b[12] == Domain(k2)[12];
    if k1.RowKind? || k1.HeadKind? {
      assert a[17] == Domain(k1)[17];
    }
    if k2.RowKind? || k2.HeadKind? {
      assert b[17] == Domain(k2)[17];
    }
  }
}
