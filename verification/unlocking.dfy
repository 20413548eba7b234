/** Which credentials open an honest vault, and what a successful unlock of any store proves about it. */
module Unlocking {
  import opened Bytes
  import opened Environment
  import opened Keyslots
  import opened Store
  import opened Anchors
  import opened Effects
  import opened Invariants
  import opened Wire

  // ---- honest stores ----

  /** The presented factor derives the key-encryption key it derived at enrolment. */
  predicate Opens(env: Env, i: Enrolment, c: Credential, usb: map<Text, Bytes>) {
    match c
    case ByPassphrase(pp) =>
      env.argon2(pp, i.passphraseSalt, i.params) == env.argon2(i.passphrase, i.passphraseSalt, i.params)
    case ByUsb =>
      i.usbKeyfile.Some? && i.usbUuid.Some? && i.usbUuid.value in usb
      && env.hkdf(usb[i.usbUuid.value], i.usbSalt) == env.hkdf(i.usbKeyfile.value, i.usbSalt)
  }

  /** A wrapped DEK comes back under the key it was wrapped with, and under no other. */
  lemma WrapRoundTrip(env: Env, bare: Keyslot, kek: Kek, nonce: Nonce, dek: Dek, other: Kek)
    requires IdealAead(env)
    ensures var slot := Wrapped(env, bare, kek, nonce, dek);
            UnwrapDek(env, other, slot.wrapNonce, slot.wrappedDek, KeyslotAad(slot))
            == if other == kek then Some(dek) else None
  {
    var slot := Wrapped(env, bare, kek, nonce, dek);
    assert KeyslotAad(slot) == KeyslotAad(bare);
    assert env.open(other, nonce, KeyslotAad(bare), env.seal(kek, nonce, KeyslotAad(bare), dek))
        == if (other, nonce, KeyslotAad(bare)) == (kek, nonce, KeyslotAad(bare)) then Some(dek) else None;
  }

  lemma PassphraseSlotOpens(env: Env, i: Enrolment, c: Credential, usb: map<Text, Bytes>)
    requires IdealAead(env) && AboveFloors(i.params) && ArgonAccepts(i.params, i.passphraseSalt)
    ensures SlotProbe(env, PassphraseSlot(env, i), c, usb)
         == if c.ByPassphrase? && Opens(env, i, c, usb) then Opened(i.dek) else Shut
  {
    if c.ByPassphrase? {
      var bare := Keyslot(1, Factor.Passphrase, Ascii("passphrase"), Argon2id(i.params), i.passphraseSalt,
                          None, [], [], DEK_GENERATION, true);
      WrapRoundTrip(env, bare, env.argon2(i.passphrase, i.passphraseSalt, i.params), i.passphraseNonce, i.dek,
                    env.argon2(c.passphrase, i.passphraseSalt, i.params));
    }
  }

  lemma UsbSlotOpens(env: Env, g: Genesis, s: StoreState, c: Credential, usb: map<Text, Bytes>)
    requires IdealAead(env) && HeaderOk(env, g, s) && g.enrolment.usbKeyfile.Some?
    ensures SlotProbe(env, UsbSlot(env, g.enrolment, g.enrolment.usbKeyfile.value), c, usb)
         == if c.ByUsb? && Opens(env, g.enrolment, c, usb) then Opened(g.enrolment.dek) else Shut
  {
    var i := g.enrolment;
    if c.ByUsb? && i.usbUuid.value in usb {
      var bare := Keyslot(2, Factor.Usb, Ascii("usb"), HkdfSha256, i.usbSalt, i.usbUuid, [], [], DEK_GENERATION, true);
      WrapRoundTrip(env, bare, env.hkdf(i.usbKeyfile.value, i.usbSalt), i.usbNonce, i.dek,
                    env.hkdf(usb[i.usbUuid.value], i.usbSalt));
    }
  }

  lemma ProbeOne(env: Env, a: Keyslot, c: Credential, usb: map<Text, Bytes>)
    ensures ProbeSlots(env, [a], c, usb) == SlotProbe(env, a, c, usb)
  {
    assert [a][1..] == [];
  }

  lemma ProbeTwo(env: Env, a: Keyslot, b: Keyslot, c: Credential, usb: map<Text, Bytes>)
    ensures ProbeSlots(env, [a, b], c, usb)
         == var probe := SlotProbe(env, a, c, usb); if probe.Shut? then SlotProbe(env, b, c, usb) else probe
  {
    assert [a, b][1..] == [b];
    ProbeOne(env, b, c, usb);
  }

  /** The probe of the enrolled slots gives the enrolled DEK or nothing. */
  lemma RecoversEnrolled(env: Env, g: Genesis, s: StoreState, c: Credential, usb: map<Text, Bytes>)
    requires IdealAead(env) && HeaderOk(env, g, s)
    ensures ProbeSlots(env, s.keyslots, c, usb)
         == if Opens(env, g.enrolment, c, usb) then Opened(g.enrolment.dek) else Shut
  {
    var i := g.enrolment;
    PassphraseSlotOpens(env, i, c, usb);
    if i.usbKeyfile.Some? {
      UsbSlotOpens(env, g, s, c, usb);
      assert s.keyslots == [PassphraseSlot(env, i), UsbSlot(env, i, i.usbKeyfile.value)];
      ProbeTwo(env, PassphraseSlot(env, i), UsbSlot(env, i, i.usbKeyfile.value), c, usb);
    } else {
      assert s.keyslots == [PassphraseSlot(env, i)];
      ProbeOne(env, PassphraseSlot(env, i), c, usb);
    }
  }

  lemma EnrolledGeneration(env: Env, i: Enrolment)
    ensures MaxGeneration(EnrolledSlots(env, i)) == DEK_GENERATION
  {
    var slots := EnrolledSlots(env, i);
    assert slots[0].dekGeneration == DEK_GENERATION;
    if i.usbKeyfile.Some? {
      assert slots[1..] == [UsbSlot(env, i, i.usbKeyfile.value)];
    }
  }

  /** The header as init stores it. */
  predicate HeaderStoredAs(s: StoreState, mac: Digest, floorMs: I64) {
    && Meta(s, MetaHeaderMac) == Some(HexText(mac))
    && Meta(s, MetaIssuanceFloor) == Some(Decimal(floorMs))
    && Meta(s, MetaDekGeneration) == Some(Decimal(DEK_GENERATION))
  }

  /** The stored header reads back as it was written. */
  lemma HeaderReadsBack(s: StoreState, mac: Digest, floorMs: I64)
    requires HeaderStoredAs(s, mac, floorMs)
    ensures HeaderOf(s) == Some(StoredHeader(mac, floorMs))
    ensures StoredFloor(s) == Some(floorMs) && StoredGeneration(s) == Some(DEK_GENERATION)
  {
    HexRoundTrip(mac);
    DecimalParses(floorMs);
    DecimalParses(DEK_GENERATION);
  }

  lemma HeaderReads(env: Env, g: Genesis, s: StoreState)
    requires HeaderOk(env, g, s)
    ensures HeaderOf(s) == Some(StoredHeader(HeaderMac(env, g.enrolment.dek, s.keyslots, g.floorMs), g.floorMs))
    ensures StoredFloor(s) == Some(g.floorMs) && StoredGeneration(s) == Some(DEK_GENERATION)
  {
    HeaderReadsBack(s, HeaderMac(env, g.enrolment.dek, s.keyslots, g.floorMs), g.floorMs);
  }

  lemma EnrolledAccepted(env: Env, g: Genesis, s: StoreState)
    requires HeaderOk(env, g, s) && AnchorAccepts(env, g.enrolment.dek, s)
    ensures UnlockVerdict(env, s, g.enrolment.dek, HeaderMac(env, g.enrolment.dek, s.keyslots, g.floorMs), g.floorMs) ==
            Accept
  {
    HeaderReads(env, g, s);
    EnrolledGeneration(env, g.enrolment);
  }

  /** What unlocking a locked vault over an honest, accepted store does, for every credential. */
  lemma UnlockHonest(env: Env, g: Genesis, s: Snap, at: Reading, c: Credential)
    requires IdealAead(env) && HeaderOk(env, g, s.store) && s.vault.Locked?
    requires AnchorAccepts(env, g.enrolment.dek, s.store)
    ensures UnlockEffect(env, s, at, c)
         == if Opens(env, g.enrolment, c, at.usb) then UnlockAccepted(env, s, at, c, g.enrolment.dek)
            else UnlockRefused(env, s, at, JsonObject([]), UnlockFailed)
  {
    HeaderReads(env, g, s.store);
    RecoversEnrolled(env, g, s.store, c, at.usb);
    EnrolledAccepted(env, g, s.store);
  }

  /** On an honest store whose log is refused, no credential unlocks. */
  lemma UnlockRefusedWithLog(env: Env, g: Genesis, s: Snap, at: Reading, c: Credential)
    requires IdealAead(env) && HeaderOk(env, g, s.store) && s.vault.Locked?
    requires !AnchorAccepts(env, g.enrolment.dek, s.store)
    ensures UnlockEffect(env, s, at, c)
         == if Opens(env, g.enrolment, c, at.usb) then UnlockRefused(env, s, at, Why("audit_chain"), AuditChainBroken)
            else UnlockRefused(env, s, at, JsonObject([]), UnlockFailed)
  {
    HeaderReads(env, g, s.store);
    RecoversEnrolled(env, g, s.store, c, at.usb);
    EnrolledGeneration(env, g.enrolment);
  }

  // ---- arbitrary stores ----

  lemma JudgedUnlock(env: Env, s: Snap, at: Reading, c: Credential, dek: Dek, verdict: Verdict)
    requires s.vault.Locked?
    ensures var e := UnlockJudged(env, s, at, c, dek, verdict);
      && (e.reply == Done <==> verdict == Accept) && (e.reply.Failure? <==> e.vault.Locked?)
      && (e.vault.Unlocked? ==> e.vault.dek == dek) && (e.reply.Failure? ==> e.key.None? && e.core == [])
  {
  }

  lemma ProbedUnlock(env: Env, s: Snap, at: Reading, c: Credential, header: StoredHeader, probe: Probe)
    requires s.vault.Locked?
    ensures var e := UnlockProbed(env, s, at, c, header, probe);
      && (e.reply.Failure? <==> e.vault.Locked?) && (e.reply.Failure? ==> e.key.None? && e.core == [])
      && (e.vault.Unlocked? ==> probe == Opened(e.vault.dek)
                                && UnlockVerdict(env, s.store, e.vault.dek, header.mac, header.floorMs) == Accept)
      && (probe.Panicked? <==> e.reply == Failure(ArgonPanics))
  {
    if probe.Opened? {
      JudgedUnlock(env, s, at, c, probe.dek, UnlockVerdict(env, s.store, probe.dek, header.mac, header.floorMs));
    }
  }

  /** Slot `j` is the first that does not stay shut: every one before it was passed over or did not open. */
  predicate FirstToAnswer(env: Env, slots: seq<Keyslot>, c: Credential, usb: map<Text, Bytes>, j: nat) {
    && j < |slots| && !SlotProbe(env, slots[j], c, usb).Shut?
    && forall i :: 0 <= i < j ==> SlotProbe(env, slots[i], c, usb).Shut?
  }

  /** The probe is the answer of the first slot that gives one, and shut when none does. */
  lemma {:induction false} ProbeIsFirst(env: Env, slots: seq<Keyslot>, c: Credential, usb: map<Text, Bytes>)
      returns (j: nat)
    ensures ProbeSlots(env, slots, c, usb).Shut? ==>
              forall i :: 0 <= i < |slots| ==> SlotProbe(env, slots[i], c, usb).Shut?
    ensures !ProbeSlots(env, slots, c, usb).Shut? ==>
              FirstToAnswer(env, slots, c, usb, j) && ProbeSlots(env, slots, c, usb) == SlotProbe(env, slots[j], c, usb)
  {
    j := 0;
    if slots != [] && SlotProbe(env, slots[0], c, usb).Shut? {
      var i := ProbeIsFirst(env, slots[1..], c, usb);
      j := i + 1;
      assert forall i :: 0 < i < |slots| ==> slots[i] == slots[1..][i - 1];
    }
  }

  /** Only one slot is the first to answer. */
  lemma OneFirst(env: Env, slots: seq<Keyslot>, c: Credential, usb: map<Text, Bytes>, j: nat)
    requires FirstToAnswer(env, slots, c, usb, j)
    ensures ProbeSlots(env, slots, c, usb) == SlotProbe(env, slots[j], c, usb)
  {
    var i := ProbeIsFirst(env, slots, c, usb);
    assert !SlotProbe(env, slots[j], c, usb).Shut?;
    if !ProbeSlots(env, slots, c, usb).Shut? {
      assert i == j;
    }
  }

  /**
   A slot panics the probe: an enabled passphrase slot whose parameters pass the engine's checks and
   whose parameters or salt the library rejects, with every slot before it shut to the passphrase.
   */
  predicate PanicsAt(env: Env, slots: seq<Keyslot>, c: Credential, usb: map<Text, Bytes>, j: nat) {
    && j < |slots| && SlotPanics(slots[j], c)
    && forall i :: 0 <= i < j ==> SlotProbe(env, slots[i], c, usb).Shut?
  }

  lemma ProbePanics(env: Env, slots: seq<Keyslot>, c: Credential, usb: map<Text, Bytes>)
    ensures ProbeSlots(env, slots, c, usb).Panicked? <==> exists j :: PanicsAt(env, slots, c, usb, j)
  {
    var j := ProbeIsFirst(env, slots, c, usb);
    if ProbeSlots(env, slots, c, usb).Panicked? {
      assert PanicsAt(env, slots, c, usb, j);
    }
    forall i | PanicsAt(env, slots, c, usb, i) ensures ProbeSlots(env, slots, c, usb).Panicked? {
      OneFirst(env, slots, c, usb, i);
    }
  }

  /**
   Over any store whatever: an unlock that fails leaves the vault locked and writes at most its audit
   row; one that succeeds has a DEK from the first slot the credential opens, and it passed every check;
   and it panics exactly when the header reads and some slot panics before any slot opens.
   */
  lemma UnlockOutcome(env: Env, s: Snap, at: Reading, c: Credential)
    requires s.vault.Locked?
    ensures var e := UnlockEffect(env, s, at, c);
      && (e.reply.Failure? <==> e.vault.Locked?) && (e.reply.Failure? ==> e.key.None? && e.core == [])
      && (e.vault.Unlocked? ==>
            HeaderOf(s.store).Some? && ProbeSlots(env, s.store.keyslots, c, at.usb) == Opened(e.vault.dek)
            && UnlockVerdict(env, s.store, e.vault.dek, HeaderOf(s.store).value.mac, HeaderOf(s.store).value.floorMs) ==
                 Accept)
    ensures UnlockEffect(env, s, at, c).reply == Failure(ArgonPanics) <==>
              HeaderOf(s.store).Some? && exists j :: PanicsAt(env, s.store.keyslots, c, at.usb, j)
  {
    ProbePanics(env, s.store.keyslots, c, at.usb);
    if HeaderOf(s.store).Some? {
      ProbedUnlock(env, s, at, c, HeaderOf(s.store).value, ProbeSlots(env, s.store.keyslots, c, at.usb));
    }
  }

  /** What a hostile passphrase slot may be: its salt cut short, or its lanes past what the library takes. */
  predicate Hostile(slot: Keyslot, hostile: Keyslot) {
    || (hostile == slot.(salt := hostile.salt) && |hostile.salt| < ARGON2_MIN_SALT)
    || (&& hostile == slot.(kdf := hostile.kdf) && hostile.kdf.Argon2id?
        && Derivable(hostile.kdf.params) && hostile.kdf.params.pLanes > ARGON2_MAX_LANES)
  }

  /**
   The inputs: take any honest vault and make its passphrase slot hostile. Every passphrase, the right
   one included, then panics the unlock.
   */
  lemma HostileSlotPanics(env: Env, g: Genesis, s: Snap, hostile: Keyslot, at: Reading, passphrase: Text)
    requires HeaderOk(env, g, s.store) && s.vault.Locked? && Hostile(PassphraseSlot(env, g.enrolment), hostile)
    ensures s.store.keyslots != []
    ensures var forged := s.(store := s.store.(keyslots := s.store.keyslots[0 := hostile]));
            UnlockEffect(env, forged, at, ByPassphrase(passphrase)).reply == Failure(ArgonPanics)
  {
    var forged := s.(store := s.store.(keyslots := s.store.keyslots[0 := hostile]));
    HeaderReads(env, g, s.store);
    UnlockOutcome(env, forged, at, ByPassphrase(passphrase));
    assert PanicsAt(env, forged.store.keyslots, ByPassphrase(passphrase), at.usb, 0);
  }

  /** Two different keys, or two different headers, with one header MAC. */
  predicate HeaderCollision(env: Env, d1: Dek, s1: seq<Keyslot>, f1: I64, d2: Dek, s2: seq<Keyslot>, f2: I64) {
    && HeaderMac(env, d1, s1, f1) == HeaderMac(env, d2, s2, f2)
    && (d1 != d2 || HeaderMessage(s1, f1) != HeaderMessage(s2, f2))
  }

  /**
   Edit the keyslots, the floor and the generation in any way but keep the header MAC: if a locked
   vault then unlocks, all three are exactly those that were enrolled and so is the DEK, or the
   header MAC collides.
   */
  lemma UnlockProvesHeader(env: Env, g: Genesis, honest: StoreState, forged: Snap, at: Reading, c: Credential)
    requires HeaderOk(env, g, honest) && HeaderEncodable(honest.keyslots) && HeaderEncodable(forged.store.keyslots)
    requires forged.vault.Locked? && Meta(forged.store, MetaHeaderMac) == Meta(honest, MetaHeaderMac)
    requires UnlockEffect(env, forged, at, c).vault.Unlocked?
    ensures HeaderOf(forged.store).Some?
    ensures var dek, floorMs := UnlockEffect(env, forged, at, c).vault.dek, HeaderOf(forged.store).value.floorMs;
      || (&& dek == g.enrolment.dek && forged.store.keyslots == honest.keyslots
          && StoredFloor(forged.store) == StoredFloor(honest)
          && StoredGeneration(forged.store) == StoredGeneration(honest))
      || HeaderCollision(env, dek, forged.store.keyslots, floorMs, g.enrolment.dek, honest.keyslots, g.floorMs)
  {
    HeaderReads(env, g, honest);
    EnrolledGeneration(env, g.enrolment);
    UnlockOutcome(env, forged, at, c);
    SameHeader(env, g, honest, forged.store, UnlockEffect(env, forged, at, c).vault.dek);
  }

  lemma SameHeader(env: Env, g: Genesis, honest: StoreState, forged: StoreState, dek: Dek)
    requires HeaderOk(env, g, honest) && HeaderEncodable(honest.keyslots) && HeaderEncodable(forged.keyslots)
    requires HeaderOf(honest) == Some(StoredHeader(HeaderMac(env, g.enrolment.dek, honest.keyslots, g.floorMs),
                                                   g.floorMs))
    requires StoredHeaderMac(forged) == StoredHeaderMac(honest) && HeaderOf(forged).Some?
    requires UnlockVerdict(env, forged, dek, HeaderOf(forged).value.mac, HeaderOf(forged).value.floorMs) == Accept
    ensures var floorMs := HeaderOf(forged).value.floorMs;
      || (&& dek == g.enrolment.dek && forged.keyslots == honest.keyslots && floorMs == g.floorMs
          && StoredGeneration(forged) == Some(MaxGeneration(honest.keyslots)))
      || HeaderCollision(env, dek, forged.keyslots, floorMs, g.enrolment.dek, honest.keyslots, g.floorMs)
  {
    var floorMs := HeaderOf(forged).value.floorMs;
    if !HeaderCollision(env, dek, forged.keyslots, floorMs, g.enrolment.dek, honest.keyslots, g.floorMs) {
      HeaderBinding(env, dek, forged.keyslots, floorMs, honest.keyslots, g.floorMs);
    }
  }
}
