/** Keyslots: the bytes that bind a slot to its wrapped DEK, and the header MAC over the slot set. */
module Keyslots {
  import opened Bytes
  import opened Codec
  import opened Environment

  datatype Factor = Usb | Passphrase

  datatype Kdf = Argon2id(params: Argon2Params) | HkdfSha256

  datatype Keyslot = Keyslot(
    id: I64,
    factor: Factor,
    slotLabel: Text,
    kdf: Kdf,
    salt: Bytes,
    usbPartitionUuid: Option<Text>,
    wrapNonce: Bytes,
    wrappedDek: Bytes,
    dekGeneration: I64,
    enabled: bool)

  const KEYSLOT_AAD_DOMAIN: Bytes := Ascii("env-ctl/v1/keyslot-aad")
  const HEADER_MAC_DOMAIN: Bytes := Ascii("env-ctl/v1/header-mac")

  const ARGON2_M_KIB_FLOOR: U32 := 262_144
  const ARGON2_T_COST_FLOOR: U32 := 3

  // ---- the associated data of a wrapped DEK ----

  function FactorByte(f: Factor): byte {
    match f
    case Usb => 1
    case Passphrase => 2
  }

  function PutKdf(kdf: Kdf): Bytes {
    match kdf
    case Argon2id(p) => [1] + (PutU32(p.mKib) + (PutU32(p.tCost) + PutU32(p.pLanes)))
    case HkdfSha256 => [2] + (PutU32(0) + (PutU32(0) + PutU32(0)))
  }

  function KeyslotAad(s: Keyslot): Bytes {
    KEYSLOT_AAD_DOMAIN + ([FactorByte(s.factor)] + (PutKdf(s.kdf) + IdentityBytes(s)))
  }

  function IdentityBytes(s: Keyslot): Bytes {
    PutField32(s.salt) + (PutOptField32(s.usbPartitionUuid) + (PutI64(s.dekGeneration) + PutI64(s.id)))
  }

  /** The fields of a slot that its associated data covers. */
  datatype SlotIdentity = SlotIdentity(
    factor: Factor, kdf: Kdf, salt: Bytes, usbPartitionUuid: Option<Text>, dekGeneration: I64, id: I64)

  function Identity(s: Keyslot): SlotIdentity {
    SlotIdentity(s.factor, s.kdf, s.salt, s.usbPartitionUuid, s.dekGeneration, s.id)
  }

  function GetFactor(b: Bytes): Option<Read<Factor>> {
    var tag :- GetByte(b);
    if tag.value == 1 then Some(Read(Usb, tag.rest))
    else if tag.value == 2 then Some(Read(Passphrase, tag.rest))
    else None
  }

  function GetKdf(b: Bytes): Option<Read<Kdf>> {
    var tag :- GetByte(b);
    var m :- GetU32(tag.rest);
    var t :- GetU32(m.rest);
    var p :- GetU32(t.rest);
    if tag.value == 1 then Some(Read(Argon2id(Argon2Params(m.value, t.value, p.value)), p.rest))
    else if tag.value == 2 && m.value == t.value == p.value == 0 then Some(Read(HkdfSha256, p.rest))
    else None
  }

  function DecodeKeyslotAad(b: Bytes): Option<SlotIdentity> {
    var body :- Expect(b, KEYSLOT_AAD_DOMAIN);
    var factor :- GetFactor(body);
    var kdf :- GetKdf(factor.rest);
    DecodeIdentity(factor.value, kdf.value, kdf.rest)
  }

  function DecodeIdentity(factor: Factor, kdf: Kdf, b: Bytes): Option<SlotIdentity> {
    var salt :- GetField32(b);
    var uuid :- GetOptField32(salt.rest);
    var generation :- GetI64(uuid.rest);
    var id :- GetI64(generation.rest);
    if id.rest == [] then Some(SlotIdentity(factor, kdf, salt.value, uuid.value, generation.value, id.value))
    else None
  }

  predicate IdentityEncodable(s: Keyslot) { Fits32(s.salt) && OptFits32(s.usbPartitionUuid) }

  lemma KdfBack(kdf: Kdf, rest: Bytes)
    ensures GetKdf(PutKdf(kdf) + rest) == Some(Read(kdf, rest))
  {
    var p := if kdf.Argon2id? then kdf.params else Argon2Params(0, 0, 0);
    var tag: byte := if kdf.Argon2id? then 1 else 2;
    var r2 := PutU32(p.pLanes) + rest;
    var r1 := PutU32(p.tCost) + r2;
    assert PutKdf(kdf) + rest == [tag] + (PutU32(p.mKib) + r1);
    ByteBack(tag, PutU32(p.mKib) + r1);
    U32Back(p.mKib, r1);
    U32Back(p.tCost, r2);
    U32Back(p.pLanes, rest);
  }

  lemma FactorBack(f: Factor, rest: Bytes)
    ensures GetFactor([FactorByte(f)] + rest) == Some(Read(f, rest))
  {
    ByteBack(FactorByte(f), rest);
  }

  lemma IdentityDecodes(s: Keyslot)
    requires IdentityEncodable(s)
    ensures DecodeIdentity(s.factor, s.kdf, IdentityBytes(s)) == Some(Identity(s))
  {
    var r2 := PutI64(s.dekGeneration) + PutI64(s.id);
    Field32Back(s.salt, PutOptField32(s.usbPartitionUuid) + r2);
    OptField32Back(s.usbPartitionUuid, r2);
    I64Back(s.dekGeneration, PutI64(s.id));
    I64Back(s.id, []);
    assert PutI64(s.id) + [] == PutI64(s.id);
  }

  lemma KeyslotAadDecodes(s: Keyslot)
    requires IdentityEncodable(s)
    ensures DecodeKeyslotAad(KeyslotAad(s)) == Some(Identity(s))
  {
    var r := PutKdf(s.kdf) + IdentityBytes(s);
    ExpectOwn(KEYSLOT_AAD_DOMAIN, [FactorByte(s.factor)] + r);
    FactorBack(s.factor, r);
    KdfBack(s.kdf, IdentityBytes(s));
    IdentityDecodes(s);
  }

  /**
   The 32-bit bound is needed: a salt one byte too long for its prefix can hold what another slot
   says in its device field, and two different slots get the same associated data.
   */
  lemma KeyslotAadAmbiguousBeyondBound(s: Keyslot, fill: Bytes) returns (a: Keyslot, b: Keyslot)
    requires |fill| == U32_MAX - 4
    ensures |a.salt| == U32_MAX + 1
    ensures Identity(a) != Identity(b) && KeyslotAad(a) == KeyslotAad(b)
  {
    var spoof := [1] + (PutLen32(U32_MAX - 3) + fill);
    a := s.(salt := spoof, usbPartitionUuid := None);
    b := s.(salt := [], usbPartitionUuid := Some(fill + [0]));
    var tail := PutI64(s.dekGeneration) + PutI64(s.id);
    assert |spoof| == U32_MAX + 1;
    assert |spoof| % 0x1_0000_0000 == 0;
    assert PutLen32(|spoof|) == PutLen32(0);
    calc {
      IdentityBytes(a);
      (PutLen32(0) + spoof) + ([0] + tail);
      { assert spoof + ([0] + tail) == [1] + ((PutLen32(U32_MAX - 3) + (fill + [0])) + tail); }
      PutLen32(0) + ([1] + (PutField32(fill + [0]) + tail));
      { assert [1] + (PutField32(fill + [0]) + tail) == ([1] + PutField32(fill + [0])) + tail; }
      (PutLen32(0) + []) + (PutOptField32(b.usbPartitionUuid) + tail);
      IdentityBytes(b);
    }
  }

  // ---- the header MAC ----

  function PutSlot(s: Keyslot): Bytes {
    PutField32(KeyslotAad(s)) + (PutField32(s.slotLabel) + ([PutBool(s.enabled)] +
    (PutField32(s.wrapNonce) + PutField32(s.wrappedDek))))
  }

  function PutSlots(slots: seq<Keyslot>): Bytes {
    if slots == [] then [] else PutSlot(slots[0]) + PutSlots(slots[1..])
  }

  function HeaderMessage(slots: seq<Keyslot>, floorMs: I64): Bytes {
    HEADER_MAC_DOMAIN + (PutLen64(|slots|) + (PutSlots(slots) + PutI64(floorMs)))
  }

  function HeaderMac(env: Env, dek: Dek, slots: seq<Keyslot>, floorMs: I64): Digest {
    Mac(env, HeaderMacKey, dek, HeaderMessage(slots, floorMs))
  }

  function GetSlot(b: Bytes): Option<Read<Keyslot>> {
    var aad :- GetField32(b);
    var id :- DecodeKeyslotAad(aad.value);
    var name :- GetField32(aad.rest);
    var enabled :- GetBool(name.rest);
    var nonce :- GetField32(enabled.rest);
    var wrapped :- GetField32(nonce.rest);
    Some(Read(Keyslot(id.id, id.factor, name.value, id.kdf, id.salt, id.usbPartitionUuid,
                      nonce.value, wrapped.value, id.dekGeneration, enabled.value), wrapped.rest))
  }

  function GetSlots(b: Bytes, count: nat): Option<Read<seq<Keyslot>>> {
    if count == 0 then Some(Read([], b))
    else
      var first :- GetSlot(b);
      var others :- GetSlots(first.rest, count - 1);
      Some(Read([first.value] + others.value, others.rest))
  }

  datatype Header = Header(slots: seq<Keyslot>, floorMs: I64)

  function DecodeHeader(b: Bytes): Option<Header> {
    var body :- Expect(b, HEADER_MAC_DOMAIN);
    var count :- GetNat(body, 8);
    var slots :- GetSlots(count.rest, count.value);
    var floorMs :- GetI64(slots.rest);
    if floorMs.rest == [] then Some(Header(slots.value, floorMs.value)) else None
  }

  predicate SlotEncodable(s: Keyslot) {
    && IdentityEncodable(s) && Fits32(KeyslotAad(s))
    && Fits32(s.slotLabel) && Fits32(s.wrapNonce) && Fits32(s.wrappedDek)
  }

  predicate HeaderEncodable(slots: seq<Keyslot>) {
    |slots| <= U64_MAX && forall i :: 0 <= i < |slots| ==> SlotEncodable(slots[i])
  }

  lemma SlotBack(s: Keyslot, rest: Bytes)
    requires SlotEncodable(s)
    ensures GetSlot(PutSlot(s) + rest) == Some(Read(s, rest))
  {
    var r4 := PutField32(s.wrappedDek) + rest;
    var r3 := PutField32(s.wrapNonce) + r4;
    var r2 := [PutBool(s.enabled)] + r3;
    var r1 := PutField32(s.slotLabel) + r2;
    SlotNesting(PutField32(KeyslotAad(s)), PutField32(s.slotLabel), [PutBool(s.enabled)],
                PutField32(s.wrapNonce), PutField32(s.wrappedDek), rest);
    Field32Back(KeyslotAad(s), r1);
    KeyslotAadDecodes(s);
    Field32Back(s.slotLabel, r2);
    BoolBack(s.enabled, r3);
    Field32Back(s.wrapNonce, r4);
    Field32Back(s.wrappedDek, rest);
  }

  lemma SlotNesting(a: Bytes, b: Bytes, c: Bytes, d: Bytes, e: Bytes, rest: Bytes)
    ensures (a + (b + (c + (d + e)))) + rest == a + (b + (c + (d + (e + rest))))
  {
  }

  lemma PutSlotsFront(slots: seq<Keyslot>, rest: Bytes)
    requires slots != []
    ensures PutSlots(slots) + rest == PutSlot(slots[0]) + (PutSlots(slots[1..]) + rest)
  {
    Associate(PutSlot(slots[0]), PutSlots(slots[1..]), rest);
  }

  lemma GetSlotsStep(b: Bytes, first: Read<Keyslot>, others: Read<seq<Keyslot>>, count: nat)
    requires GetSlot(b) == Some(first) && GetSlots(first.rest, count) == Some(others)
    ensures GetSlots(b, count + 1) == Some(Read([first.value] + others.value, others.rest))
  {
  }

  lemma SlotInFront(s: Keyslot, others: Bytes, tail: seq<Keyslot>, rest: Bytes, count: nat)
    requires SlotEncodable(s) && GetSlots(others, count) == Some(Read(tail, rest))
    ensures GetSlots(PutSlot(s) + others, count + 1) == Some(Read([s] + tail, rest))
  {
    SlotBack(s, others);
    GetSlotsStep(PutSlot(s) + others, Read(s, others), Read(tail, rest), count);
  }

  lemma {:induction false} SlotsBack(slots: seq<Keyslot>, rest: Bytes)
    requires forall i :: 0 <= i < |slots| ==> SlotEncodable(slots[i])
    ensures GetSlots(PutSlots(slots) + rest, |slots|) == Some(Read(slots, rest))
  {
    if slots == [] {
      assert PutSlots(slots) + rest == rest;
    } else {
      PutSlotsFront(slots, rest);
      SlotsBack(slots[1..], rest);
      SlotInFront(slots[0], PutSlots(slots[1..]) + rest, slots[1..], rest, |slots| - 1);
      assert [slots[0]] + slots[1..] == slots;
    }
  }

  lemma HeaderDecodes(slots: seq<Keyslot>, floorMs: I64)
    requires HeaderEncodable(slots)
    ensures DecodeHeader(HeaderMessage(slots, floorMs)) == Some(Header(slots, floorMs))
  {
    var r := PutSlots(slots) + PutI64(floorMs);
    ExpectOwn(HEADER_MAC_DOMAIN, PutLen64(|slots|) + r);
    Len64Exact(|slots|);
    NatBack(|slots|, 8, r);
    SlotsBack(slots, PutI64(floorMs));
    I64Back(floorMs, []);
    assert PutI64(floorMs) + [] == PutI64(floorMs);
  }

  /** Headers over different numbers of slots are different messages. */
  lemma CountsApart(s1: seq<Keyslot>, s2: seq<Keyslot>, floorMs: I64)
    requires |s1| <= U64_MAX && |s2| <= U64_MAX && |s1| != |s2|
    ensures HeaderMessage(s1, floorMs) != HeaderMessage(s2, floorMs)
  {
    CountReads(s1, floorMs);
    CountReads(s2, floorMs);
  }

  function HeaderCount(b: Bytes): Option<nat> {
    var body :- Expect(b, HEADER_MAC_DOMAIN);
    var count :- GetNat(body, 8);
    Some(count.value)
  }

  lemma CountReads(slots: seq<Keyslot>, floorMs: I64)
    requires |slots| <= U64_MAX
    ensures HeaderCount(HeaderMessage(slots, floorMs)) == Some(|slots|)
  {
    var r := PutSlots(slots) + PutI64(floorMs);
    ExpectOwn(HEADER_MAC_DOMAIN, PutLen64(|slots|) + r);
    Len64Exact(|slots|);
    NatBack(|slots|, 8, r);
  }

  lemma {:induction false} PutSlotsSnoc(slots: seq<Keyslot>, s: Keyslot)
    ensures PutSlots(slots + [s]) == PutSlots(slots) + PutSlot(s)
  {
    if slots == [] {
      assert [s][1..] == [];
      assert PutSlots([s]) == PutSlot(s) + [];
    } else {
      assert (slots + [s])[1..] == slots[1..] + [s];
      PutSlotsSnoc(slots[1..], s);
    }
  }

  /** The header MAC as it is computed: the message grows slot by slot. */
  method ComputeHeaderMac(env: Env, dek: Dek, slots: seq<Keyslot>, floorMs: I64) returns (mac: Digest)
    ensures mac == HeaderMac(env, dek, slots, floorMs)
  {
    var msg := AppendSlots(HEADER_MAC_DOMAIN + PutLen64(|slots|), slots);
    msg := msg + PutI64(floorMs);
    HeaderNesting(slots, floorMs);
    mac := Mac(env, HeaderMacKey, dek, msg);
  }

  method AppendSlots(head: Bytes, slots: seq<Keyslot>) returns (msg: Bytes)
    ensures msg == head + PutSlots(slots)
  {
    msg := head;
    for i := 0 to |slots|
      invariant msg == head + PutSlots(slots[..i])
    {
      GrowSlots(head, slots[..i], slots[i], slots[..i + 1]);
      msg := msg + PutSlot(slots[i]);
    }
    assert slots[..|slots|] == slots;
  }

  lemma GrowSlots(head: Bytes, done: seq<Keyslot>, s: Keyslot, more: seq<Keyslot>)
    requires more == done + [s]
    ensures head + PutSlots(more) == (head + PutSlots(done)) + PutSlot(s)
  {
    PutSlotsSnoc(done, s);
    Associate(head, PutSlots(done), PutSlot(s));
  }

  lemma HeaderNesting(slots: seq<Keyslot>, floorMs: I64)
    ensures ((HEADER_MAC_DOMAIN + PutLen64(|slots|)) + PutSlots(slots)) +
            PutI64(floorMs) == HeaderMessage(slots, floorMs)
  {
    Associate(HEADER_MAC_DOMAIN + PutLen64(|slots|), PutSlots(slots), PutI64(floorMs));
    Associate(HEADER_MAC_DOMAIN, PutLen64(|slots|), PutSlots(slots) + PutI64(floorMs));
  }

  /** Two headers with one MAC under one DEK are one header, or name a MAC collision. */
  lemma HeaderBinding(env: Env, dek: Dek, s1: seq<Keyslot>, f1: I64, s2: seq<Keyslot>, f2: I64)
    requires HeaderEncodable(s1) && HeaderEncodable(s2)
    requires HeaderMac(env, dek, s1, f1) == HeaderMac(env, dek, s2, f2)
    ensures (s1 == s2 && f1 == f2)
         || MacCollision(env, HeaderMacKey, dek, HeaderMessage(s1, f1), HeaderMessage(s2, f2))
  {
    HeaderDecodes(s1, f1);
    HeaderDecodes(s2, f2);
  }

  // ---- wrapping the DEK ----

  function WrapDek(env: Env, kek: Kek, nonce: Nonce, dek: Dek, aad: Bytes): Bytes {
    env.seal(kek, nonce, aad, dek)
  }

  function UnwrapDek(env: Env, kek: Kek, nonce: Bytes, wrapped: Bytes, aad: Bytes): Option<Dek> {
    if |nonce| != 24 then None
    else
      match env.open(kek, nonce, aad, wrapped)
      case None => None
      case Some(p) => if |p| == 32 then Some(p) else None
  }

  predicate AboveFloors(p: Argon2Params) {
    p.mKib >= ARGON2_M_KIB_FLOOR && p.tCost >= ARGON2_T_COST_FLOOR
  }

  /** What `unlock` checks of a stored slot's parameters before it derives a key from them. */
  predicate Derivable(p: Argon2Params) {
    AboveFloors(p) && p.pLanes >= 1 && p.mKib >= Min(p.pLanes * 8, U32_MAX)
  }

  const ARGON2_MAX_LANES: int := 0xFF_FFFF
  const ARGON2_MIN_SALT: nat := 8

  /** What the Argon2 library accepts of parameters and salt; on anything else the derivation panics. */
  predicate ArgonAccepts(p: Argon2Params, salt: Bytes) {
    && 1 <= p.pLanes <= ARGON2_MAX_LANES && p.mKib >= p.pLanes * 8 && p.tCost >= 1
    && ARGON2_MIN_SALT <= |salt| <= U32_MAX
  }
}
