/**
 Setting up and opening a vault, told from the stored slots and header: what an init answers and what
 it leaves for good, which slots a credential opens, and every answer of an unlock.
 */
module Enrolments {
  import opened Bytes
  import opened Environment
  import opened Keyslots
  import opened Store
  import opened Anchors
  import opened Effects
  import opened Invariants
  import opened Unlocking
  import opened Histories

  // ---- init ----

  /** What Argon2 is asked of at least, by the engine and by its library. */
  predicate StrongParams(p: Argon2Params, salt: Bytes) {
    p.mKib >= 262_144 && p.tCost >= 3 && SoundParams(p, salt)
  }

  predicate SoundParams(p: Argon2Params, salt: Bytes) {
    1 <= p.pLanes <= 16_777_215 && 8 * p.pLanes <= p.mKib && 8 <= |salt| <= 4_294_967_295
  }

  /** The answer of an init. */
  function ExpectedInit(s: StoreState, i: Enrolment): Reply {
    if MetaHeaderMac in s.meta then Failure(AlreadyInitialized)
    else if i.params.mKib < 262_144 || i.params.tCost < 3 then Failure(BelowArgonFloor)
    else if !SoundParams(i.params, i.passphraseSalt) then Failure(ArgonPanics)
    else if i.usbKeyfile.Some? && i.usbUuid.None? then Failure(UuidMissing)
    else Done
  }

  /** Every answer of every init; a refused one writes nothing at all, its audit row included. */
  lemma InitAnswers(env: Env, s: Snap, at: Reading, i: Enrolment)
    ensures var e := InitEffect(env, s, at, i);
      && e.reply == ExpectedInit(s.store, i) && e.vault == s.vault && e.counters == s.counters && e.sent.None?
      && (e.reply.Failure? ==> Writes(env, s.store, e) == [])
  {
  }

  /** The slot of the passphrase and that of the keyfile, field by field. */
  predicate IsPassphraseSlot(slot: Keyslot, i: Enrolment) {
    && slot.id == 1 && slot.factor == Factor.Passphrase && slot.slotLabel == Ascii("passphrase") && slot.enabled
    && slot.kdf == Argon2id(i.params) && slot.salt == i.passphraseSalt && slot.usbPartitionUuid.None?
    && slot.dekGeneration == 1
  }

  predicate IsUsbSlot(slot: Keyslot, i: Enrolment) {
    && slot.id == 2 && slot.factor == Factor.Usb && slot.slotLabel == Ascii("usb") && slot.enabled
    && slot.kdf == HkdfSha256 && slot.salt == i.usbSalt && slot.usbPartitionUuid == i.usbUuid
    && slot.usbPartitionUuid.Some? && slot.dekGeneration == 1
  }

  predicate SlotsOf(slots: seq<Keyslot>, i: Enrolment) {
    if i.usbKeyfile.None? then |slots| == 1 && IsPassphraseSlot(slots[0], i)
    else |slots| == 2 && IsPassphraseSlot(slots[0], i) && IsUsbSlot(slots[1], i)
  }

  lemma HeaderSpelled(env: Env, g: Genesis, s: StoreState)
    requires HeaderOk(env, g, s)
    ensures SlotsOf(s.keyslots, g.enrolment) && StrongParams(g.enrolment.params, g.enrolment.passphraseSalt)
    ensures StoredFloor(s) == Some(g.floorMs) && StoredGeneration(s) == Some(1)
    ensures StoredHeaderMac(s) == Some(HeaderMac(env, g.enrolment.dek, s.keyslots, g.floorMs))
  {
    HeaderReads(env, g, s);
    if g.enrolment.usbKeyfile.Some? {
      assert s.keyslots[1] == UsbSlot(env, g.enrolment, g.enrolment.usbKeyfile.value);
    }
  }

  /** The enrolment of a history is that of one of its inits, and the floor is that call's time. */
  lemma {:induction false} GenesisCall(env: Env, xs: seq<Happening>) returns (k: nat)
    requires GenesisOf(env, xs).Some?
    ensures k < |xs| && GenesisOf(env, xs[..k]).None? && xs[k].call.op.OpInit?
    ensures GenesisOf(env, xs) == Some(Genesis(xs[k].call.op.enrolment, xs[k].call.at.nowMs))
  {
    var n := |xs| - 1;
    if GenesisOf(env, xs[..n]).Some? {
      k := GenesisCall(env, xs[..n]);
      assert xs[..n][..k] == xs[..k];
    } else {
      k := n;
    }
  }

  /**
   From the init that sets up the vault on, at every point of every history: the slots are those it was
   given, with strong parameters, the issuance floor is its time, the generation is one, and the header
   MAC is that of those slots and that floor under its DEK.
   */
  lemma EnrolmentStands(env: Env, xs: seq<Happening>) returns (k: nat)
    requires IdealAead(env) && Orderly(env, xs) && |xs| <= U32_MAX && GenesisOf(env, xs).Some?
    ensures k < |xs| && GenesisOf(env, xs[..k]).None? && xs[k].call.op.OpInit?
    ensures var i, floorMs, s := xs[k].call.op.enrolment, xs[k].call.at.nowMs, Run(env, xs).store;
      && SlotsOf(s.keyslots, i) && StrongParams(i.params, i.passphraseSalt)
      && StoredFloor(s) == Some(floorMs) && StoredGeneration(s) == Some(1)
      && StoredHeaderMac(s) == Some(HeaderMac(env, i.dek, s.keyslots, floorMs))
  {
    k := GenesisCall(env, xs);
    HistoryInvariant(env, xs);
    HeaderSpelled(env, GenesisOf(env, xs).value, Run(env, xs).store);
  }

  // ---- slots tried ----

  /** The wrapped DEK of the slot comes back under the key. */
  predicate Yields(env: Env, slot: Keyslot, kek: Kek, dek: Dek) {
    |slot.wrapNonce| == 24 && env.open(kek, slot.wrapNonce, KeyslotAad(slot), slot.wrappedDek) == Some(dek)
  }

  /** The slot opens to the DEK: enabled, of the right kind, strong enough, and the key is right. */
  predicate SlotYields(env: Env, slot: Keyslot, c: Credential, usb: map<Text, Bytes>, dek: Dek) {
    && slot.enabled
    && match c
       case ByPassphrase(passphrase) =>
         && slot.factor == Factor.Passphrase && slot.kdf.Argon2id? && StrongParams(slot.kdf.params, slot.salt)
         && Yields(env, slot, env.argon2(passphrase, slot.salt, slot.kdf.params), dek)
       case ByUsb =>
         && slot.factor == Factor.Usb && slot.usbPartitionUuid.Some? && slot.usbPartitionUuid.value in usb
         && Yields(env, slot, env.hkdf(usb[slot.usbPartitionUuid.value], slot.salt), dek)
  }

  lemma SlotOpensExactly(env: Env, slot: Keyslot, c: Credential, usb: map<Text, Bytes>, dek: Dek)
    ensures SlotProbe(env, slot, c, usb) == Opened(dek) <==> SlotYields(env, slot, c, usb, dek)
  {
  }

  /**
   A slot panics the passphrase probe if and only if it passes what the engine checks and not what its
   Argon2 library does: too many lanes, or a salt of the wrong length.
   */
  lemma SlotPanicsExactly(env: Env, slot: Keyslot, c: Credential, usb: map<Text, Bytes>)
    ensures SlotProbe(env, slot, c, usb) == Panicked <==>
      (&& c.ByPassphrase? && slot.enabled && slot.factor == Factor.Passphrase && slot.kdf.Argon2id?
       && var p := slot.kdf.params;
          && p.mKib >= 262_144 && p.tCost >= 3 && 1 <= p.pLanes && Min(8 * p.pLanes, 4_294_967_295) <= p.mKib
          && (p.pLanes > 16_777_215 || |slot.salt| < 8 || |slot.salt| > 4_294_967_295))
  {
  }

  /** A stored slot as init wraps it. */
  predicate WrappedIn(env: Env, slot: Keyslot, kek: Kek, dek: Dek) {
    |slot.wrapNonce| == 24 && slot.wrappedDek == env.seal(kek, slot.wrapNonce, KeyslotAad(slot), dek)
  }

  /** The associated data of two slots is one exactly when their identities are. */
  lemma AadExact(slot: Keyslot, edited: Keyslot)
    requires IdentityEncodable(slot) && IdentityEncodable(edited)
    ensures KeyslotAad(edited) == KeyslotAad(slot) <==> Identity(edited) == Identity(slot)
  {
    KeyslotAadDecodes(slot);
    KeyslotAadDecodes(edited);
    if Identity(edited) == Identity(slot) {
      SameAad(slot, edited);
    }
  }

  lemma SameAad(slot: Keyslot, edited: Keyslot)
    requires Identity(edited) == Identity(slot)
    ensures KeyslotAad(edited) == KeyslotAad(slot)
  {
  }

  lemma OpensOnly(env: Env, kek: Kek, nonce: Nonce, aad: Bytes, dek: Dek, other: Kek, n: Bytes, a: Bytes, d: Dek)
    requires IdealAead(env)
    ensures env.open(other, n, a, env.seal(kek, nonce, aad, dek)) == Some(d) <==>
              other == kek && n == nonce && a == aad && d == dek
  {
    assert env.open(other, n, a, env.seal(kek, nonce, aad, dek))
        == if (other, n, a) == (kek, nonce, aad) then Some(dek) else None;
  }

  lemma YieldsOnly(env: Env, slot: Keyslot, kek: Kek, dek: Dek, edited: Keyslot, other: Kek, d: Dek)
    requires IdealAead(env) && WrappedIn(env, slot, kek, dek) && edited.wrappedDek == slot.wrappedDek
    requires KeyslotAad(edited) == KeyslotAad(slot) <==> Identity(edited) == Identity(slot)
    ensures Yields(env, edited, other, d) <==>
              other == kek && d == dek && edited.wrapNonce == slot.wrapNonce && Identity(edited) == Identity(slot)
  {
    OpensOnly(env, kek, slot.wrapNonce, KeyslotAad(slot), dek, other, edited.wrapNonce, KeyslotAad(edited), d);
  }

  /** The key a slot of the vault was wrapped under. */
  function KekOf(env: Env, i: Enrolment, j: nat): Kek
    requires j > 0 ==> i.usbKeyfile.Some?
  {
    if j == 0 then env.argon2(i.passphrase, i.passphraseSalt, i.params) else env.hkdf(i.usbKeyfile.value, i.usbSalt)
  }

  /**
   A wrapped DEK of the vault put into any slot whatever, at any point of any history: that slot opens to
   a DEK if and only if the slot is enabled, has the factor, the KDF with its parameters, the salt, the
   device, the generation, the id and the nonce of the slot it was taken from, and the credential yields
   the key it was wrapped under; and then to the enrolled DEK. Only the label is not covered.
   */
  lemma WrappedDekStaysPut(env: Env, xs: seq<Happening>, j: nat, edited: Keyslot, c: Credential,
                           usb: map<Text, Bytes>, d: Dek)
    requires IdealAead(env) && Orderly(env, xs) && |xs| <= U32_MAX && GenesisOf(env, xs).Some?
    requires j < |Run(env, xs).store.keyslots| && edited.wrappedDek == Run(env, xs).store.keyslots[j].wrappedDek
    requires IdentityEncodable(Run(env, xs).store.keyslots[j]) && IdentityEncodable(edited)
    ensures var i, slot := GenesisOf(env, xs).value.enrolment, Run(env, xs).store.keyslots[j];
      && (j > 0 ==> i.usbKeyfile.Some?)
      && (SlotProbe(env, edited, c, usb) == Opened(d) <==>
            && d == i.dek && edited.enabled && Identity(edited) == Identity(slot) && edited.wrapNonce == slot.wrapNonce
            && (if j == 0 then c.ByPassphrase? else c.ByUsb? && i.usbUuid.Some? && i.usbUuid.value in usb)
            && KekOf(env, i, j) == if c.ByUsb? then env.hkdf(usb[i.usbUuid.value], i.usbSalt)
                                   else env.argon2(c.passphrase, i.passphraseSalt, i.params))
  {
    HistoryInvariant(env, xs);
    StaysPut(env, GenesisOf(env, xs).value, Run(env, xs).store, j, edited, c, usb, d);
  }

  lemma StaysPut(env: Env, g: Genesis, s: StoreState, j: nat, edited: Keyslot, c: Credential, usb: map<Text, Bytes>,
                 d: Dek)
    requires IdealAead(env) && HeaderOk(env, g, s) && j < |s.keyslots|
    requires edited.wrappedDek == s.keyslots[j].wrappedDek
    requires IdentityEncodable(s.keyslots[j]) && IdentityEncodable(edited)
    ensures var i, slot := g.enrolment, s.keyslots[j];
      && (j > 0 ==> i.usbKeyfile.Some?)
      && (SlotProbe(env, edited, c, usb) == Opened(d) <==>
            && d == i.dek && edited.enabled && Identity(edited) == Identity(slot) && edited.wrapNonce == slot.wrapNonce
            && (if j == 0 then c.ByPassphrase? else c.ByUsb? && i.usbUuid.Some? && i.usbUuid.value in usb)
            && KekOf(env, i, j) == if c.ByUsb? then env.hkdf(usb[i.usbUuid.value], i.usbSalt)
                                   else env.argon2(c.passphrase, i.passphraseSalt, i.params))
  {
    var i, slot := g.enrolment, s.keyslots[j];
    HeaderSpelled(env, g, s);
    EnrolledWrapped(env, i, j);
    SlotOpensExactly(env, edited, c, usb, d);
    AadExact(slot, edited);
    var kek := KekOf(env, i, j);
    match c {
      case ByPassphrase(passphrase) =>
        if edited.kdf.Argon2id? {
          YieldsOnly(env, slot, kek, i.dek, edited, env.argon2(passphrase, edited.salt, edited.kdf.params), d);
        }
      case ByUsb =>
        if edited.usbPartitionUuid.Some? && edited.usbPartitionUuid.value in usb {
          YieldsOnly(env, slot, kek, i.dek, edited, env.hkdf(usb[edited.usbPartitionUuid.value], edited.salt), d);
        }
    }
  }

  lemma EnrolledWrapped(env: Env, i: Enrolment, j: nat)
    requires j < |EnrolledSlots(env, i)|
    ensures j > 0 ==> i.usbKeyfile.Some?
    ensures WrappedIn(env, EnrolledSlots(env, i)[j], KekOf(env, i, j), i.dek)
  {
    var slot := EnrolledSlots(env, i)[j];
    SameAad(slot, slot.(wrapNonce := [], wrappedDek := []));
  }

  // ---- unlock ----

  /** The highest generation of the slots, or one when there is none. */
  predicate IsHighest(slots: seq<Keyslot>, generation: I64) {
    if slots == [] then generation == 1
    else && (exists i :: 0 <= i < |slots| && slots[i].dekGeneration == generation)
         && (forall i :: 0 <= i < |slots| ==> slots[i].dekGeneration <= generation)
  }

  lemma {:induction false} MaxGenerationIsHighest(slots: seq<Keyslot>)
    ensures IsHighest(slots, MaxGeneration(slots))
  {
    if |slots| == 1 {
      assert slots[0].dekGeneration == MaxGeneration(slots);
    } else if |slots| > 1 {
      MaxGenerationIsHighest(slots[1..]);
      var i :| 0 <= i < |slots[1..]| && slots[1..][i].dekGeneration == MaxGeneration(slots[1..]);
      assert slots[i + 1].dekGeneration == MaxGeneration(slots[1..]);
      assert slots[0].dekGeneration <= MaxGeneration(slots);
      forall j | 0 <= j < |slots| ensures slots[j].dekGeneration <= MaxGeneration(slots) {
        assert j > 0 ==> slots[j] == slots[1..][j - 1];
      }
    }
  }

  lemma HighestIsMax(slots: seq<Keyslot>, generation: I64)
    ensures IsHighest(slots, generation) <==> generation == MaxGeneration(slots)
  {
    MaxGenerationIsHighest(slots);
  }

  /** The answer of an unlock on a locked vault once a slot gave the DEK. */
  function ExpectedVerdict(env: Env, s: StoreState, dek: Dek): Reply
    requires StoredFloor(s).Some?
  {
    if StoredHeaderMac(s) != Some(HeaderMac(env, dek, s.keyslots, StoredFloor(s).value)) then Failure(HeaderMacMismatch)
    else if StoredGeneration(s).None? then Failure(GenerationUnreadable)
    else if !IsHighest(s.keyslots, StoredGeneration(s).value) then Failure(HeaderMacMismatch)
    else if !AnchorAccepts(env, dek, s) then Failure(AuditChainBroken)
    else Done
  }

  /**
   Every answer of every unlock, over any state whatever. An unlocked vault answers without looking; a
   header that cannot be read, or no slot that opens, is a failed unlock; otherwise the first slot to
   answer decides, and its DEK must fit the header MAC, the highest generation and the audit anchor. The
   vault is open afterwards exactly when the answer is good, under that DEK.
   */
  lemma UnlockAnswers(env: Env, s: Snap, at: Reading, c: Credential)
    ensures s.vault.Unlocked? ==> UnlockEffect(env, s, at, c) == Quiet(s, Done)
    ensures s.vault.Locked? && (StoredHeaderMac(s.store).None? || StoredFloor(s.store).None?) ==>
      UnlockEffect(env, s, at, c) == Quiet(s, Failure(UnlockFailed))
    ensures s.vault.Locked? && StoredHeaderMac(s.store).Some? && StoredFloor(s.store).Some? ==>
      var e, slots := UnlockEffect(env, s, at, c), s.store.keyslots;
      && ((forall j: nat :: !FirstToAnswer(env, slots, c, at.usb, j)) ==>
            e.reply == Failure(UnlockFailed) && e.vault.Locked?)
      && (forall j: nat :: FirstToAnswer(env, slots, c, at.usb, j) ==>
            match SlotProbe(env, slots[j], c, at.usb)
            case Panicked => e.reply == Failure(ArgonPanics) && e.vault.Locked?
            case Opened(dek) =>
              && e.reply == ExpectedVerdict(env, s.store, dek)
              && e.vault == (if e.reply == Done then Unlocked(dek) else Locked))
  {
    if s.vault.Locked? && StoredHeaderMac(s.store).Some? && StoredFloor(s.store).Some? {
      var header := HeaderOf(s.store).value;
      var slots := s.store.keyslots;
      FirstDecides(env, slots, c, at.usb);
      ProbedAnswers(env, s, at, c, header, ProbeSlots(env, slots, c, at.usb));
    }
  }

  function ReplyTo(v: Verdict): Reply {
    match v
    case Accept => Done
    case Reject(_, error) => Failure(error)
    case Abort(error) => Failure(error)
  }

  lemma VerdictSpelled(env: Env, s: StoreState, dek: Dek, header: StoredHeader)
    requires HeaderOf(s) == Some(header)
    ensures ReplyTo(UnlockVerdict(env, s, dek, header.mac, header.floorMs)) == ExpectedVerdict(env, s, dek)
  {
    if StoredGeneration(s).Some? {
      HighestIsMax(s.keyslots, StoredGeneration(s).value);
    }
  }

  lemma JudgedAnswers(env: Env, s: Snap, at: Reading, c: Credential, dek: Dek, verdict: Verdict)
    requires s.vault.Locked?
    ensures var e := UnlockJudged(env, s, at, c, dek, verdict);
            e.reply == ReplyTo(verdict) && e.vault == if e.reply == Done then Unlocked(dek) else Locked
  {
  }

  lemma ProbedAnswers(env: Env, s: Snap, at: Reading, c: Credential, header: StoredHeader, probe: Probe)
    requires s.vault.Locked? && HeaderOf(s.store) == Some(header)
    ensures var e := UnlockProbed(env, s, at, c, header, probe);
      match probe
      case Shut => e.reply == Failure(UnlockFailed) && e.vault.Locked?
      case Panicked => e.reply == Failure(ArgonPanics) && e.vault.Locked?
      case Opened(dek) =>
        e.reply == ExpectedVerdict(env, s.store, dek) && e.vault == (if e.reply == Done then Unlocked(dek) else Locked)
  {
    if probe.Opened? {
      VerdictSpelled(env, s.store, probe.dek, header);
      JudgedAnswers(env, s, at, c, probe.dek, UnlockVerdict(env, s.store, probe.dek, header.mac, header.floorMs));
    }
  }

  lemma FirstDecides(env: Env, slots: seq<Keyslot>, c: Credential, usb: map<Text, Bytes>)
    ensures (forall j: nat :: !FirstToAnswer(env, slots, c, usb, j)) ==> ProbeSlots(env, slots, c, usb).Shut?
    ensures forall j: nat :: FirstToAnswer(env, slots, c, usb, j) ==>
              ProbeSlots(env, slots, c, usb) == SlotProbe(env, slots[j], c, usb)
  {
    var first := ProbeIsFirst(env, slots, c, usb);
    forall j: nat | FirstToAnswer(env, slots, c, usb, j)
      ensures ProbeSlots(env, slots, c, usb) == SlotProbe(env, slots[j], c, usb)
    {
      OneFirst(env, slots, c, usb, j);
    }
  }
}
