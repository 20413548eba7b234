/** The engine itself: each call step by step over the store, equal to the effect that specifies it. */
module Engines {
  import opened Bytes
  import opened Environment
  import opened Audit
  import opened Keyslots
  import opened Broker
  import opened Decision
  import opened Messages
  import opened Wire
  import opened Store
  import opened Anchors
  import opened Effects

  class Engine {
    const env: Env
    const store: InMemStore
    const broker: UsageCounters
    var vault: Vault
    /** Everything handed to the upstream so far. */
    var sends: seq<Send>

    constructor (env: Env)
      ensures Valid() && this.env == env && State() == START && store.log == [] && sends == []
      ensures fresh(store) && fresh(broker)
    {
      this.env := env;
      store := new InMemStore(env);
      broker := new UsageCounters();
      vault := Locked;
      sends := [];
    }

    ghost predicate Consistent()
      reads this, store
    {
      store.env == env && store.Valid()
    }

    /** Between calls, an unlocked vault is an initialised one. */
    ghost predicate Valid()
      reads this, store
    {
      Consistent() && (vault.Unlocked? ==> MetaHeaderMac in store.meta)
    }

    function State(): Snap
      reads this, store, broker
    {
      Snap(store.State(), vault, broker.counters)
    }

    /** Since the moment described, exactly what the effect says has happened. */
    ghost predicate Did(e: Effect, before: Snap, log: seq<Write>, sent: seq<Send>)
      reads this, store, broker
    {
      && Valid()
      && State() == After(env, before, e)
      && store.log == log + Writes(env, before.store, e)
      && sends == sent + if e.sent.Some? then [e.sent.value] else []
    }

    /** The log and the state in RAM determine the rest. */
    lemma Settled(e: Effect, before: Snap, log: seq<Write>, sent: seq<Send>)
      requires Consistent() && before.store == ApplyAll(env, EMPTY, log)
      requires store.log == log + Writes(env, before.store, e)
      requires vault == e.vault && broker.counters == e.counters
      requires e.vault.Unlocked? ==> MetaHeaderMac in before.store.meta
      requires sends == sent + if e.sent.Some? then [e.sent.value] else []
      ensures Did(e, before, log, sent)
    {
      ApplyConcat(env, EMPTY, log, Writes(env, before.store, e));
      if e.vault.Unlocked? {
        MetaKept(env, before.store, Writes(env, before.store, e), MetaHeaderMac);
      }
    }

    // ---- the audit log and its anchor ----

    /** Raise the high-water mark, then write the MAC. */
    method WriteAuditAnchor(dek: Dek, newSeq: I64, tailHash: Bytes)
      requires Consistent()
      modifies store
      ensures Consistent()
      ensures store.log == old(store.log) + AnchorWritesAt(env, dek, old(store.State()), newSeq, tailHash)
    {
      var previous: I64 := 0;
      if MetaHighWater in store.meta {
        var parsed := ParseI64(store.meta[MetaHighWater]);
        if parsed.Some? {
          previous := parsed.value;
        }
      }
      var highWater: I64 := Max(previous, newSeq);
      var text := HexEncode(AnchorMac(env, dek, highWater, highWater, tailHash));
      WriteMarkThenHead(Decimal(highWater), text);
    }

    method WriteMarkThenHead(mark: Text, head: Text)
      requires Consistent()
      modifies store
      ensures Consistent()
      ensures store.log == old(store.log) + [WriteMeta(MetaHighWater, mark), WriteMeta(MetaAuditHead, head)]
    {
      store.PutMeta(MetaHighWater, mark);
      store.PutMeta(MetaAuditHead, head);
    }

    method AdvanceAuditAnchorIfUnlocked()
      requires Consistent()
      modifies store
      ensures Consistent()
      ensures store.log == old(store.log) + if vault.Unlocked? then AnchorWrites(env, vault.dek, old(store.State()))
              else []
    {
      if vault.Locked? {
        return;
      }
      WriteAuditAnchor(vault.dek, TailSeq(store.audit), TailHash(store.audit));
    }

    /** Append a row, then bring the anchor up to it when there is a DEK to do it with. */
    method RecordEvent(at: Reading, event: Event, subject: Option<Text>, detail: Json, outcome: AuditOutcome)
      requires Consistent()
      modifies store
      ensures Consistent()
      ensures store.log == old(store.log)
                         + AuditWrites(env, old(store.State()), Row(env, at, event, subject, detail, outcome),
                                       KeyOf(vault))
    {
      var rec := NewRow(at.ts, Some(env.ownerUid), EventText(event), subject, env.json(detail), outcome);
      var _ := store.AppendAudit(rec);
      AdvanceAuditAnchorIfUnlocked();
      assert (old(store.log) + [WriteRow(rec)]) + [] == old(store.log) + ([WriteRow(rec)] + []);
    }

    /** `RecordEvent` as the last step of a call that has already made the effect's own writes. */
    method Finish(ghost e: Effect, ghost before: Snap, ghost log: seq<Write>, ghost sent: seq<Send>, at: Reading,
                  event: Event, subject: Option<Text>, detail: Json, outcome: AuditOutcome)
      requires Consistent() && before.store == ApplyAll(env, EMPTY, log) && store.log == log + e.core
      requires e.row == Some(Row(env, at, event, subject, detail, outcome)) && e.key == KeyOf(vault)
      requires vault == e.vault && broker.counters == e.counters
      requires e.vault.Unlocked? ==> MetaHeaderMac in before.store.meta
      requires sends == sent + if e.sent.Some? then [e.sent.value] else []
      modifies store
      ensures Did(e, before, log, sent)
    {
      ApplyConcat(env, EMPTY, log, e.core);
      RecordEvent(at, event, subject, detail, outcome);
      Associate(log, e.core, AuditWrites(env, ApplyAll(env, before.store, e.core), e.row.value, e.key));
      Settled(e, before, log, sent);
    }

    /** The anchor verifies against the live chain under an explicit DEK. */
    method VerifyAuditAnchorWith(dek: Dek) returns (ok: bool)
      requires Consistent()
      ensures ok == AnchorAccepts(env, dek, store.State())
    {
      var chain := VerifyChain(env, store.audit);
      if chain.Err? {
        return false;
      }
      if MetaAuditHead !in store.meta {
        return true;
      }
      var mac := HexDecode(store.meta[MetaAuditHead]);
      if mac.None? || MetaHighWater !in store.meta {
        return false;
      }
      var highWater := ParseI64(store.meta[MetaHighWater]);
      if highWater.None? {
        return false;
      }
      var mark := highWater.value;
      var last := Last(store.audit);
      var current := if last.Some? then last.value.seqNo else 0;
      if current < mark {
        return false;
      }
      var anchored: Bytes := [];
      if mark != 0 {
        if mark < 1 || mark > |store.audit| || store.audit[mark - 1].seqNo != mark {
          return false;
        }
        anchored := store.audit[mark - 1].rowHash;
      }
      ok := AnchorMac(env, dek, mark, mark, anchored) == mac.value;
    }

    // ---- vault ----

    method InitVault(at: Reading, i: Enrolment) returns (r: Reply)
      requires Valid()
      modifies store
      ensures Did(InitEffect(env, old(State()), at, i), old(State()), old(store.log), old(sends))
      ensures r == InitEffect(env, old(State()), at, i).reply
    {
      ghost var before, log := State(), store.log;
      ghost var e := InitEffect(env, before, at, i);
      if MetaHeaderMac in store.meta {
        return Failure(AlreadyInitialized);
      }
      if i.params.mKib < ARGON2_M_KIB_FLOOR || i.params.tCost < ARGON2_T_COST_FLOOR {
        return Failure(BelowArgonFloor);
      }
      if !ArgonAccepts(i.params, i.passphraseSalt) {
        return Failure(ArgonPanics);
      }
      if i.usbKeyfile.Some? && i.usbUuid.None? {
        return Failure(UuidMissing);
      }
      Enroll(e, before, log, at, i);
      return Done;
    }

    method Enroll(ghost e: Effect, ghost before: Snap, ghost log: seq<Write>, at: Reading, i: Enrolment)
      requires Consistent() && vault.Locked? && before.store == ApplyAll(env, EMPTY, log) && log == store.log
      requires e.core == SlotWrites(EnrolledSlots(env, i)) + HeaderWrites(env, i, at.nowMs)
      requires e.row == Some(Row(env, at, InitEvent, None, GenesisDetail(|EnrolledSlots(env, i)|), Succeeded))
      requires e.key == Some(i.dek) && e.vault == vault && e.counters == broker.counters && e.sent.None?
      modifies store
      ensures Did(e, before, log, sends)
    {
      var slots := EnrollFactors(i);
      PersistHeader(i, slots, at.nowMs);
      ApplyConcat(env, EMPTY, log, e.core);
      RecordGenesis(at, GenesisDetail(|slots|), i.dek);
      Associate(log, e.core, AuditWrites(env, ApplyAll(env, before.store, e.core), e.row.value, e.key));
      Settled(e, before, log, sends);
    }

    /** One wrapped copy of the DEK per factor. */
    method EnrollFactors(i: Enrolment) returns (slots: seq<Keyslot>)
      ensures slots == EnrolledSlots(env, i)
    {
      slots := [PassphraseSlot(env, i)];
      if i.usbKeyfile.Some? {
        slots := slots + [UsbSlot(env, i, i.usbKeyfile.value)];
      }
    }

    /** Persist the slots, then the header MAC over them, the issuance floor and the generation. */
    method PersistHeader(i: Enrolment, slots: seq<Keyslot>, floorMs: I64)
      requires Consistent() && slots == EnrolledSlots(env, i)
      modifies store
      ensures Consistent() && store.log == old(store.log) + (SlotWrites(slots) + HeaderWrites(env, i, floorMs))
    {
      SaveSlots(slots);
      var mac := ComputeHeaderMac(env, i.dek, slots, floorMs);
      var macText := HexEncode(mac);
      WriteHeader(macText, floorMs);
      Associate(old(store.log), SlotWrites(slots), HeaderWrites(env, i, floorMs));
    }

    method WriteHeader(macText: Text, floorMs: I64)
      requires Consistent()
      modifies store
      ensures Consistent()
      ensures store.log == old(store.log) +
              [WriteMeta(MetaHeaderMac, macText), WriteMeta(MetaIssuanceFloor, Decimal(floorMs)),
                                             WriteMeta(MetaDekGeneration, Decimal(DEK_GENERATION))]
    {
      store.PutMeta(MetaHeaderMac, macText);
      store.PutMeta(MetaIssuanceFloor, Decimal(floorMs));
      store.PutMeta(MetaDekGeneration, Decimal(DEK_GENERATION));
    }

    /** The `vault_init` row, and the genesis anchor made while the vault is still locked. */
    method RecordGenesis(at: Reading, detail: Json, dek: Dek)
      requires Consistent() && vault.Locked?
      modifies store
      ensures Consistent()
      ensures store.log == old(store.log)
                         + AuditWrites(env, old(store.State()), Row(env, at, InitEvent, None, detail, Succeeded),
                                       Some(dek))
    {
      var rec := NewRow(at.ts, Some(env.ownerUid), EventText(InitEvent), None, env.json(detail), Succeeded);
      var _ := store.AppendAudit(rec);
      WriteAuditAnchor(dek, TailSeq(store.audit), TailHash(store.audit));
    }

    method SaveSlots(slots: seq<Keyslot>)
      requires Consistent()
      modifies store
      ensures Consistent() && store.log == old(store.log) + SlotWrites(slots)
    {
      for n := 0 to |slots|
        invariant Consistent() && store.log == old(store.log) + SlotWrites(slots[..n])
      {
        store.SaveKeyslot(slots[n]);
        assert slots[..n + 1][..n] == slots[..n];
      }
      assert slots[..|slots|] == slots;
    }

    /** Try the enabled slots of the presented factor in order. */
    method RecoverDek(slots: seq<Keyslot>, c: Credential, usb: map<Text, Bytes>) returns (probe: Probe)
      ensures probe == ProbeSlots(env, slots, c, usb)
    {
      for n := 0 to |slots|
        invariant ProbeSlots(env, slots, c, usb) == ProbeSlots(env, slots[n..], c, usb)
      {
        var slot := slots[n];
        assert slots[n..][1..] == slots[n + 1..];
        if SlotPanics(slot, c) {
          return Panicked;
        }
        var kek := SlotKek(env, slot, c, usb);
        if kek.Some? {
          var dek := UnwrapDek(env, kek.value, slot.wrapNonce, slot.wrappedDek, KeyslotAad(slot));
          if dek.Some? {
            return Opened(dek.value);
          }
        }
      }
      return Shut;
    }

    method LoadHeader() returns (header: Option<StoredHeader>)
      ensures header == HeaderOf(store.State())
    {
      if MetaHeaderMac !in store.meta {
        return None;
      }
      var mac := HexDecode(store.meta[MetaHeaderMac]);
      var floorMs := StoredFloor(store.State());
      if mac.None? || floorMs.None? {
        return None;
      }
      return Some(StoredHeader(mac.value, floorMs.value));
    }

    method Unlock(at: Reading, c: Credential) returns (r: Reply)
      requires Valid()
      modifies this`vault, store
      ensures Did(UnlockEffect(env, old(State()), at, c), old(State()), old(store.log), old(sends))
      ensures r == UnlockEffect(env, old(State()), at, c).reply
    {
      if vault.Unlocked? {
        return Done;
      }
      var header := LoadHeader();
      if header.None? {
        return Failure(UnlockFailed);
      }
      var recovered := RecoverDek(store.keyslots, c, at.usb);
      r := UnlockWith(UnlockEffect(env, State(), at, c), State(), store.log, at, c, header.value, recovered);
    }

    method UnlockWith(ghost e: Effect, ghost before: Snap, ghost log: seq<Write>, at: Reading, c: Credential,
                      header: StoredHeader, recovered: Probe)
        returns (r: Reply)
      requires Consistent() && vault.Locked? && before == State() && before.store == ApplyAll(env, EMPTY, log)
      requires log == store.log
      requires e == UnlockProbed(env, before, at, c, header, recovered) && MetaHeaderMac in store.meta
      modifies this`vault, store
      ensures Did(e, before, log, sends) && r == e.reply
    {
      if recovered.Panicked? {
        return Failure(ArgonPanics);
      }
      if recovered.Shut? {
        r := RefuseUnlock(e, before, log, at, JsonObject([]), UnlockFailed);
        return;
      }
      var verdict := CheckRecovered(recovered.dek, header.mac, header.floorMs);
      match verdict {
        case Abort(error) =>
          return Failure(error);
        case Reject(why, error) =>
          r := RefuseUnlock(e, before, log, at, why, error);
        case Accept =>
          r := CommitUnlock(e, before, log, at, c, recovered.dek);
      }
    }

    method RefuseUnlock(ghost e: Effect, ghost before: Snap, ghost log: seq<Write>, at: Reading, why: Json,
                        error: EngineError)
        returns (r: Reply)
      requires Consistent() && vault.Locked? && before == State() && before.store == ApplyAll(env, EMPTY, log)
      requires log == store.log
      requires e == UnlockRefused(env, before, at, why, error)
      modifies store
      ensures Did(e, before, log, sends) && r == e.reply
    {
      Finish(e, before, log, sends, at, UnlockEvent, None, why, Failed);
      return Failure(error);
    }

    /** The header MAC, then the generation, then the audit log, each under the recovered DEK. */
    method CheckRecovered(dek: Dek, storedMac: Bytes, floorMs: I64) returns (v: Verdict)
      requires Consistent()
      ensures v == UnlockVerdict(env, store.State(), dek, storedMac, floorMs)
    {
      var mac := ComputeHeaderMac(env, dek, store.keyslots, floorMs);
      if storedMac != mac {
        return Reject(Why("header_mac"), HeaderMacMismatch);
      }
      var generation := StoredGeneration(store.State());
      if generation.None? {
        return Abort(GenerationUnreadable);
      }
      if generation.value != MaxGeneration(store.keyslots) {
        return Reject(Why("dek_generation"), HeaderMacMismatch);
      }
      var intact := VerifyAuditAnchorWith(dek);
      if !intact {
        return Reject(Why("audit_chain"), AuditChainBroken);
      }
      return Accept;
    }

    /** The durable row first, then the DEK into RAM, then the anchor over the row. */
    method CommitUnlock(ghost e: Effect, ghost before: Snap, ghost log: seq<Write>, at: Reading, c: Credential,
                        dek: Dek)
        returns (r: Reply)
      requires Consistent() && vault.Locked? && before == State() && before.store == ApplyAll(env, EMPTY, log)
      requires log == store.log
      requires e == UnlockAccepted(env, before, at, c, dek) && MetaHeaderMac in store.meta
      modifies this`vault, store
      ensures Did(e, before, log, sends) && r == e.reply
    {
      RecordEvent(at, UnlockedEvent, None, JsonObject([("factor", JsonText(FactorText(c)))]), Succeeded);
      vault := Unlocked(dek);
      ApplyConcat(env, EMPTY, log, AuditWrites(env, before.store, e.row.value, None));
      ApplyOne(env, before.store, WriteRow(e.row.value));
      AdvanceAuditAnchorIfUnlocked();
      UnlockLog(e, before, log, dek);
      Settled(e, before, log, sends);
      return Done;
    }

    /** The row while still locked, then the anchor once the DEK is resident: one audited event. */
    lemma UnlockLog(e: Effect, before: Snap, log: seq<Write>, dek: Dek)
      requires e.core == [] && e.row.Some? && e.key == Some(dek)
      ensures log + Writes(env, before.store, e)
           == (log + AuditWrites(env, before.store, e.row.value, None))
              + AnchorWrites(env, dek, Apply(env, before.store, WriteRow(e.row.value)))
    {
      var row := WriteRow(e.row.value);
      var anchor := AnchorWrites(env, dek, Apply(env, before.store, row));
      assert ApplyAll(env, before.store, []) == before.store;
      assert AuditWrites(env, before.store, e.row.value, None) == [row];
      assert [] + ([row] + anchor) == [row] + anchor;
      assert (log + [row]) + anchor == log + ([row] + anchor);
    }

    method Lock(at: Reading) returns (r: Reply)
      requires Valid()
      modifies this`vault, store
      ensures Did(LockEffect(env, old(State()), at), old(State()), old(store.log), old(sends)) && r == Done
    {
      ghost var before, log := State(), store.log;
      vault := Locked;
      Finish(LockEffect(env, before, at), before, log, sends, at, LockedEvent, None, JsonObject([]), Succeeded);
      return Done;
    }

    // ---- secrets ----

    method SecretPut(at: Reading, m: SecretMeta, body: Bytes, nonce: Nonce) returns (r: Reply)
      requires Valid()
      modifies store
      ensures Did(PutEffect(env, old(State()), at, m, body, nonce), old(State()), old(store.log), old(sends))
      ensures r == PutEffect(env, old(State()), at, m, body, nonce).reply
    {
      ghost var before, log := State(), store.log;
      ghost var e := PutEffect(env, before, at, m, body, nonce);
      if vault.Locked? {
        return Failure(VaultIsLocked);
      }
      var generation := StoredGeneration(store.State());
      if generation.None? {
        return Failure(GenerationUnreadable);
      }
      var version := Succ32(MaxVersion(store.secrets, m.name));
      var rowId := store.ReserveSecretRowId();
      var aad := BuildRecordAad(SecretVersion, rowId, version, generation.value);
      var ctTag := env.seal(vault.dek, nonce, aad, body);
      var row := SecretRow(rowId, m.name, version, m.provider, m.note, m.brokerOnly, generation.value, nonce, ctTag,
                           at.ts);
      assert row == NextSecret(env, vault.dek, generation.value, before.store, m, body, nonce, at.ts);
      var stored := store.PutSecret(row);
      if stored.Err? {
        Settled(e, before, log, sends);
        return Failure(StoreRejected);
      }
      assert store.log == log + [WriteReserve, WriteSecret(row)];
      Finish(e, before, log, sends, at, WrittenEvent, Some(m.name), JsonObject([("version", JsonNumber(version))]),
             Succeeded);
      return Done;
    }

    method SecretGet(at: Reading, name: Text, show: bool, apply: bool) returns (r: Reply)
      requires Valid()
      modifies store
      ensures Did(GetEffect(env, old(State()), at, name, show, apply), old(State()), old(store.log), old(sends))
      ensures r == GetEffect(env, old(State()), at, name, show, apply).reply
    {
      ghost var before, log := State(), store.log;
      ghost var e := GetEffect(env, before, at, name, show, apply);
      if vault.Locked? {
        return Failure(VaultIsLocked);
      }
      var latest := Latest(store.secrets, name);
      if latest.None? {
        Finish(e, before, log, sends, at, ReadEvent, Some(name), Why("not_found"), Failed);
        return Failure(UnknownSecret);
      }
      var row := latest.value;
      var plaintext := OpenSecret(env, vault.dek, row);
      if plaintext.None? {
        var detail := JsonObject([("reason", JsonText(Ascii("tamper"))), ("version", JsonNumber(row.version))]);
        Finish(e, before, log, sends, at, ReadEvent, Some(name), detail, Failed);
        return Failure(SecretUnreadable);
      }
      if show {
        if row.brokerOnly {
          Finish(e, before, log, sends, at, ReadEvent, Some(name), Why("reveal refused: secret is broker-only"),
                 Refused);
          return Failure(BrokerOnly);
        }
        if !apply {
          Finish(e, before, log, sends, at, ReadEvent, Some(name), Why("reveal refused: apply not set (dry-run)"),
                 Refused);
          return Failure(ApplyNotSet);
        }
        Finish(e, before, log, sends, at, ReadEvent, Some(name), ReadDetail(row, true), Succeeded);
        return Body(plaintext.value);
      }
      Finish(e, before, log, sends, at, ReadEvent, Some(name), ReadDetail(row, false), Succeeded);
      return Body([]);
    }

    // ---- relays ----

    /** Some enabled USB slot's keyfile is obtainable, or none is enrolled. */
    method UsbPossessionProven(usb: map<Text, Bytes>) returns (proven: bool)
      ensures proven == UsbProven(store.keyslots, usb)
    {
      var slots := store.keyslots;
      var gated := false;
      for n := 0 to |slots|
        invariant gated == exists i :: 0 <= i < n && GatesUsb(slots[i])
        invariant forall i :: 0 <= i < n ==> !ProvesUsb(slots[i], usb)
      {
        if slots[n].enabled && slots[n].factor == Factor.Usb {
          gated := true;
          assert GatesUsb(slots[n]);
          if slots[n].usbPartitionUuid.Some? && slots[n].usbPartitionUuid.value in usb {
            assert ProvesUsb(slots[n], usb);
            return true;
          }
        }
      }
      proven := !gated;
    }

    /** The principal gate, the USB gate and the lifetime clamp, in that order. */
    method MintGate(at: Reading, m: Minting) returns (refusal: Option<(string, EngineError)>)
      ensures refusal == MintRefusal(store.State(), at, m)
    {
      if m.binding.Local? && m.binding.peerUid.None? && m.binding.peerPid.None? {
        return Some(("bearer binding has no principal (uid/pid/client_id all absent)", NoPrincipal));
      }
      var proven := UsbPossessionProven(at.usb);
      if !proven {
        return Some(("usb possession not proven", UsbAbsent));
      }
      var expiresAtSecs := ClampTtl(at.nowMs / 1000, m.spec.policyTtlSecs, m.requestedTtlSecs);
      if expiresAtSecs.None? {
        return Some(("ttl clamp refused (non-positive)", DeadTtl));
      }
      return None;
    }

    method RelayMint(at: Reading, m: Minting) returns (r: Reply)
      requires Valid()
      modifies store
      ensures Did(MintEffect(env, old(State()), at, m), old(State()), old(store.log), old(sends))
      ensures r == MintEffect(env, old(State()), at, m).reply
    {
      if vault.Locked? {
        return Failure(VaultIsLocked);
      }
      var refusal := MintGate(at, m);
      r := MintWith(MintEffect(env, State(), at, m), State(), store.log, at, m, refusal);
    }

    method MintWith(ghost e: Effect, ghost before: Snap, ghost log: seq<Write>, at: Reading, m: Minting,
                    refusal: Option<(string, EngineError)>)
        returns (r: Reply)
      requires Valid() && vault.Unlocked? && before == State() && before.store == ApplyAll(env, EMPTY, log)
      requires log == store.log
      requires e == MintGated(env, before, at, m, vault.dek, refusal)
      modifies store
      ensures Did(e, before, log, sends) && r == e.reply
    {
      if refusal.Some? {
        Finish(e, before, log, sends, at, MintEvent, Some(m.spec.relayId), Why(refusal.value.0), Refused);
        return Failure(refusal.value.1);
      }
      var expiresAtMs := ExpiryMs(at.nowMs, m.spec.policyTtlSecs, m.requestedTtlSecs);
      if expiresAtMs.None? {
        return Failure(DeadTtl);
      }
      r := MintBearer(e, before, log, at, m, expiresAtMs.value);
    }

    method MintBearer(ghost e: Effect, ghost before: Snap, ghost log: seq<Write>, at: Reading, m: Minting,
                      expiresAtMs: I64)
        returns (r: Reply)
      requires Valid() && vault.Unlocked? && before == State() && before.store == ApplyAll(env, EMPTY, log)
      requires log == store.log
      requires e == MintIssued(env, before, at, m, vault.dek, expiresAtMs)
      modifies store
      ensures Did(e, before, log, sends) && r == e.reply
    {
      var relayId, tokenId, raw := IssueBearer(vault.dek, at, m, expiresAtMs);
      var detail := JsonObject([("token_id", JsonText(tokenId)), ("kind", JsonText(KindText(m.spec.kind))),
                                ("expires_at_ms", JsonNumber(expiresAtMs))]);
      Finish(e, before, log, sends, at, MintedEvent, Some(relayId), detail, Succeeded);
      return Minted(relayId, tokenId, raw);
    }

    /** An ephemeral relay without a name gets a generated one. */
    method NamedSpec(m: Minting) returns (spec: RelayPolicy)
      ensures RelayPolicyRow(0, spec) == MintedPolicy(m)
    {
      spec := m.spec;
      if spec.kind.Ephemeral? && spec.relayId == [] {
        var tail := HexEncode(m.relayBytes);
        spec := spec.(relayId := Ascii("eph_") + tail);
      }
    }

    /** Store the policy, then the bearer linked to it by the id the store assigned. */
    method IssueBearer(dek: Dek, at: Reading, m: Minting, expiresAtMs: I64)
        returns (relayId: Text, tokenId: Text, raw: Text)
      requires Consistent()
      modifies store
      ensures Consistent() && relayId == MintedPolicy(m).policy.relayId && tokenId == TokenOf(m) && raw == RawOf(m)
      ensures store.log == old(store.log) + [WritePolicy(MintedPolicy(m)),
                                             WriteBearer(MintedRow(env, dek, old(store.State()), at, m, expiresAtMs))]
    {
      var spec := NamedSpec(m);
      relayId := spec.relayId;
      var policyId := store.SaveRelayPolicy(RelayPolicyRow(0, spec));
      tokenId := HexEncode(m.tokenBytes);
      var secret := B64UrlNoPad(m.secretBytes);
      raw := WireBearer(tokenId, secret);
      var claims := BoundClaims(m.binding,
                                Claims(tokenId, policyId, expiresAtMs, at.nowMs, at.bootMs, None, None, None, None,
                                       false));
      assert claims == MintedClaims(old(store.State()), at, m, expiresAtMs);
      var row := BearerRow(claims, WireMac(env, dek, raw), RowMac(env, dek, claims));
      store.SaveBearer(row);
      assert store.log == old(store.log) + ([WritePolicy(MintedPolicy(m))] + [WriteBearer(row)]);
    }

    /** Recompute the row MAC over the row's current fields; only an unlocked vault can. */
    method ResealBearerRow(b: BearerRow) returns (r: Option<BearerRow>)
      ensures r == if vault.Unlocked? then Some(Sealed(env, vault.dek, b.claims, b.wireMac)) else None
    {
      if vault.Locked? {
        return None;
      }
      return Some(b.(rowMac := RowMac(env, vault.dek, b.claims)));
    }

    method CountUnrevoked(bearers: seq<BearerRow>) returns (n: U32)
      ensures n == AsU32(|Unrevoked(bearers)|)
    {
      n := 0;
      for i := 0 to |bearers|
        invariant n == AsU32(|Unrevoked(bearers[..i])|)
      {
        assert bearers[..i + 1][..i] == bearers[..i];
        if !bearers[i].claims.revoked {
          n := Succ32(n);
        }
      }
      assert bearers[..|bearers|] == bearers;
    }

    /** Revoke and reseal each live bearer of the list; a locked vault stops at the first. */
    method RevokeEach(bearers: seq<BearerRow>) returns (n: Option<U32>)
      requires Consistent()
      modifies store
      ensures Consistent()
      ensures n == if vault.Locked? && Unrevoked(bearers) != [] then None else Some(AsU32(|Unrevoked(bearers)|))
      ensures store.log == old(store.log) + Reseals(env, vault, bearers)
    {
      var flipped: U32 := 0;
      ghost var log, done: seq<Write> := store.log, [];
      for i := 0 to |bearers|
        invariant Consistent() && flipped == AsU32(|Unrevoked(bearers[..i])|)
        invariant vault.Locked? ==> Unrevoked(bearers[..i]) == []
        invariant store.log == log + done && done == Reseals(env, vault, bearers[..i])
      {
        CountNext(bearers, i);
        UnrevokedNext(bearers, i);
        if !bearers[i].claims.revoked {
          var revoked := RevokeOne(bearers[i]);
          if !revoked {
            UnrevokedPrefix(bearers, i + 1);
            return None;
          }
          flipped := Succ32(flipped);
        }
        if vault.Unlocked? {
          ResealsNext(bearers, i);
          Associate(log, done, RevokeOnce(env, vault.dek, bearers[i]));
        }
        done := Reseals(env, vault, bearers[..i + 1]);
      }
      assert bearers[..|bearers|] == bearers;
      return Some(flipped);
    }

    /** Set the authenticated flag and reseal the row over it. */
    method RevokeOne(b: BearerRow) returns (revoked: bool)
      requires Consistent()
      modifies store
      ensures Consistent() && revoked == vault.Unlocked?
      ensures store.log == old(store.log) + if revoked then [WriteBearer(RevokedRow(env, vault.dek, b))] else []
    {
      var resealed := ResealBearerRow(b.(claims := b.claims.(revoked := true)));
      if resealed.None? {
        return false;
      }
      store.SaveBearer(resealed.value);
      return true;
    }

    lemma CountNext(bearers: seq<BearerRow>, i: nat)
      requires i < |bearers|
      ensures AsU32(|Unrevoked(bearers[..i + 1])|)
           == var n := AsU32(|Unrevoked(bearers[..i])|); if bearers[i].claims.revoked then n else Succ32(n)
    {
      UnrevokedNext(bearers, i);
    }

    lemma ResealsNext(bearers: seq<BearerRow>, i: nat)
      requires i < |bearers| && vault.Unlocked?
      ensures RevokeWrites(env, vault.dek, bearers[..i + 1])
           == RevokeWrites(env, vault.dek, bearers[..i]) + RevokeOnce(env, vault.dek, bearers[i])
    {
      assert bearers[..i + 1][..i] == bearers[..i];
    }

    lemma UnrevokedNext(bearers: seq<BearerRow>, i: nat)
      requires i < |bearers|
      ensures Unrevoked(bearers[..i + 1])
           == Unrevoked(bearers[..i]) + if bearers[i].claims.revoked then [] else [bearers[i]]
    {
      assert bearers[..i + 1][..i] == bearers[..i];
    }

    lemma {:induction false} UnrevokedPrefix(bearers: seq<BearerRow>, i: nat)
      requires i <= |bearers| && Unrevoked(bearers[..i]) != []
      ensures Unrevoked(bearers) != []
      decreases |bearers| - i
    {
      if i < |bearers| {
        UnrevokedNext(bearers, i);
        UnrevokedPrefix(bearers, i + 1);
      } else {
        assert bearers[..i] == bearers;
      }
    }

    method RelayRevoke(at: Reading, relayId: Text, apply: bool) returns (r: Reply)
      requires Valid()
      modifies store
      ensures Did(RevokeRelayEffect(env, old(State()), at, relayId, apply), old(State()), old(store.log), old(sends))
      ensures r == RevokeRelayEffect(env, old(State()), at, relayId, apply).reply
    {
      ghost var before, log := State(), store.log;
      ghost var e := RevokeRelayEffect(env, before, at, relayId, apply);
      if !apply {
        var would := CountUnrevoked(BearersForRelay(store.State(), relayId));
        Finish(e, before, log, sends, at, RelayRevokedEvent, Some(relayId),
               JsonObject([("apply", JsonBool(false)), ("would_revoke", JsonNumber(would))]), Succeeded);
        return Count(would);
      }
      r := RevokeForReal(e, before, log, at, relayId);
    }

    /** Flag the policy first, then every live bearer under it. */
    method RevokeForReal(ghost e: Effect, ghost before: Snap, ghost log: seq<Write>, at: Reading, relayId: Text)
        returns (r: Reply)
      requires Valid() && before == State() && log == store.log && before.store == ApplyAll(env, EMPTY, log)
      requires e == ApplyRevokeEffect(env, before, at, relayId)
      modifies store
      ensures Did(e, before, log, sends) && r == e.reply
    {
      FlagPolicyRevoked(relayId);
      ghost var flags := PolicyRevokeWrites(before.store, relayId);
      ApplyConcat(env, EMPTY, log, flags);
      var targets := BearersForRelay(store.State(), relayId);
      var n := RevokeEach(targets);
      if n.None? {
        Settled(e, before, log, sends);
        return Failure(VaultIsLocked);
      }
      Associate(log, flags, Reseals(env, vault, targets));
      Finish(e, before, log, sends, at, RelayRevokedEvent, Some(relayId),
             JsonObject([("apply", JsonBool(true)), ("revoked", JsonNumber(n.value))]), Succeeded);
      return Count(n.value);
    }

    method FlagPolicyRevoked(relayId: Text)
      requires Consistent()
      modifies store
      ensures Consistent() && store.log == old(store.log) + PolicyRevokeWrites(old(store.State()), relayId)
    {
      var policy := LoadPolicy(store.State(), relayId);
      if policy.Some? {
        var _ := store.SaveRelayPolicy(policy.value.(policy := policy.value.policy.(revoked := true)));
      }
    }

    method RelayRevokeBearer(at: Reading, tokenId: Text, apply: bool) returns (r: Reply)
      requires Valid()
      modifies store
      ensures Did(RevokeBearerEffect(env, old(State()), at, tokenId, apply), old(State()), old(store.log), old(sends))
      ensures r == RevokeBearerEffect(env, old(State()), at, tokenId, apply).reply
    {
      var row := LoadBearer(store.State(), tokenId);
      r := RevokeFound(RevokeBearerEffect(env, State(), at, tokenId, apply), State(), store.log, at, tokenId, apply,
                       row);
    }

    method RevokeFound(ghost e: Effect, ghost before: Snap, ghost log: seq<Write>, at: Reading, tokenId: Text,
                       apply: bool,
                       row: Option<BearerRow>)
        returns (r: Reply)
      requires Valid() && before == State() && before.store == ApplyAll(env, EMPTY, log) && log == store.log
      requires e == RevokeFoundEffect(env, before, at, tokenId, apply, row)
      modifies store
      ensures Did(e, before, log, sends) && r == e.reply
    {
      var wouldFlip := row.Some? && !row.value.claims.revoked;
      var n := if wouldFlip then 1 else 0;
      if apply && wouldFlip {
        var revoked := RevokeOne(row.value);
        if !revoked {
          return Failure(VaultIsLocked);
        }
      }
      RecordRevoke(e, before, log, at, tokenId, apply, n);
      return Count(n);
    }

    method RecordRevoke(ghost e: Effect, ghost before: Snap, ghost log: seq<Write>, at: Reading, tokenId: Text,
                        apply: bool, n: U32)
      requires Consistent() && before.store == ApplyAll(env, EMPTY, log) && store.log == log + e.core
      requires vault == before.vault && broker.counters == before.counters
      requires vault.Unlocked? ==> MetaHeaderMac in before.store.meta
      requires e == Audited(before, e.core,
                            Row(env, at, BearerRevokedEvent, Some(tokenId), RevokeDetail(apply, n), Succeeded),
                                Count(n))
      modifies store
      ensures Did(e, before, log, sends)
    {
      var detail := JsonObject([("apply", JsonBool(apply)),
                                (if apply then "revoked" else "would_revoke", JsonNumber(n))]);
      assert AsU32(n) == n && detail == RevokeDetail(apply, n);
      Finish(e, before, log, sends, at, BearerRevokedEvent, Some(tokenId), detail, Succeeded);
    }

    // ---- the egress path ----

    method DenySwap(ghost e: Effect, ghost before: Snap, ghost log: seq<Write>, at: Reading,
                    relayId: Option<Text>, tokenId: Option<Text>, why: DenyReason) returns (r: Reply)
      requires Consistent() && before.store == ApplyAll(env, EMPTY, log) && store.log == log
      requires vault.Unlocked? ==> MetaHeaderMac in before.store.meta
      requires e == DenyEffect(env, before.(counters := broker.counters), at, relayId, tokenId, why)
      requires vault == before.vault
      modifies store
      ensures Did(e, before, log, old(sends)) && r == e.reply
    {
      var detail := JsonObject([("token_id", OptText(tokenId)), ("reason", JsonText(ReasonText(why))),
                                ("allowed", JsonBool(false))]);
      Finish(e, before, log, sends, at, SwappedEvent, relayId, detail, Refused);
      return Swapped(Denied(why));
    }

    method RefuseInternally(ghost e: Effect, ghost before: Snap, ghost log: seq<Write>, at: Reading, cause: EngineError)
        returns (r: Reply)
      requires Consistent() && before.store == ApplyAll(env, EMPTY, log) && store.log == log
      requires vault.Unlocked? ==> MetaHeaderMac in before.store.meta
      requires e == InternalEffect(env, before.(counters := broker.counters), at, cause) && vault == before.vault
      modifies store
      ensures Did(e, before, log, old(sends)) && r == e.reply
    {
      var detail := JsonObject([("reason", JsonText(Ascii("internal"))), ("detail", JsonText(CauseText(cause)))]);
      Finish(e, before, log, sends, at, SwappedEvent, None, detail, Failed);
      return Swapped(InternalRefused(cause));
    }

    /** Parse, authenticate, count and decide; the real key is fetched and sent only after an Allow. */
    method RelaySwap(at: Reading, call: SwapCall) returns (r: Reply)
      requires Valid()
      modifies this`sends, store, broker
      ensures Did(SwapEffect(env, old(State()), at, call), old(State()), old(store.log), old(sends))
      ensures r == SwapEffect(env, old(State()), at, call).reply
    {
      ghost var before, log := State(), store.log;
      ghost var e := SwapEffect(env, before, at, call);
      var parsed := ParseBearer(call.raw);
      if parsed.None? {
        r := DenySwap(e, before, log, at, None, None, UnknownBearer);
        return;
      }
      var tokenId := parsed.value;
      if vault.Locked? {
        r := RefuseInternally(e, before, log, at, VaultIsLocked);
        return;
      }
      var dek := vault.dek;
      var floorMs := StoredFloor(store.State());
      if floorMs.None? {
        r := RefuseInternally(e, before, log, at, UnlockFailed);
        return;
      }
      var loaded := LoadBearer(store.State(), tokenId);
      if loaded.None? {
        r := DenySwap(e, before, log, at, None, Some(tokenId), UnknownBearer);
        return;
      }
      var row := loaded.value;
      if row.wireMac != WireMac(env, dek, call.raw) {
        r := DenySwap(e, before, log, at, None, Some(tokenId), UnknownBearer);
        return;
      }
      if !RowAuthentic(env, dek, row) {
        r := DenySwap(e, before, log, at, None, Some(tokenId), UnknownBearer);
        return;
      }
      var policyRow := FindPolicyById(store.State(), row.claims.policyId);
      if policyRow.None? {
        r := DenySwap(e, before, log, at, None, Some(tokenId), UnknownBearer);
        return;
      }
      r := SwapKnown(e, before, log, at, Known(dek, floorMs.value, row, policyRow.value), call);
    }

    method SwapKnown(ghost e: Effect, ghost before: Snap, ghost log: seq<Write>, at: Reading, k: Screen, call: SwapCall)
        returns (r: Reply)
      requires Valid() && before == State() && log == store.log && before.store == ApplyAll(env, EMPTY, log)
      requires k.Known? && vault == Unlocked(k.dek) && e == DecidedEffect(env, before, at, k, call)
      modifies this`sends, store, broker
      ensures Did(e, before, log, old(sends)) && r == e.reply
    {
      var policy, tokenId := k.policyRow.policy, k.row.claims.tokenId;
      var proven := UsbPossessionProven(at.usb);
      var absentSince: Option<I64> := if proven then None else Some(at.nowMs);
      var requests, bytes, inWindow := broker.Bump(tokenId, at.nowMs, call.req.bytesOut);
      var canon := CanonRequest(call.req.verb, call.req.host, TrustedSniFor(policy.swap), call.req.path,
                                call.req.bytesOut,
                                call.req.peerUid, call.req.peerPid, requests, bytes, inWindow, None);
      var q := Query(policy, k.row.claims, canon, at.nowMs, at.bootMs, absentSince, k.floorMs);
      assert q == SwapQuery(before, at, k, call.req);
      var decision := Decide(q);
      if decision.Deny? {
        r := DenySwap(e, before, log, at, Some(policy.relayId), Some(tokenId), decision.reason);
        return;
      }
      var realKey := RealKey(env, k.dek, store.State(), policy.secretName);
      if realKey.Err? {
        r := RefuseInternally(e, before, log, at, realKey.error);
        return;
      }
      r := SendUpstream(e, before, log, at, k, call, realKey.value);
    }

    method SendUpstream(ghost e: Effect, ghost before: Snap, ghost log: seq<Write>, at: Reading, k: Screen,
                        call: SwapCall,
                        realKey: Bytes)
        returns (r: Reply)
      requires Consistent() && before.store == ApplyAll(env, EMPTY, log) && store.log == log && vault == before.vault
      requires vault.Unlocked? ==> MetaHeaderMac in before.store.meta
      requires k.Known? && e == SendEffect(env, before.(counters := broker.counters), at, k, call, realKey)
      modifies this`sends, store
      ensures Did(e, before, log, old(sends)) && r == e.reply
    {
      var relayId, tokenId := k.policyRow.policy.relayId, JsonText(k.row.claims.tokenId);
      if !HostIn(call.req.host, CanonicalUpstreams(k.policyRow.policy.provider)) {
        var fenced := JsonObject([("token_id", tokenId), ("reason", JsonText(Ascii("upstream_fence"))),
                                  ("allowed", JsonBool(false))]);
        Finish(e, before, log, sends, at, SwappedEvent, Some(relayId), fenced, Failed);
        return Swapped(InternalRefused(UpstreamFence));
      }
      ghost var sent := sends;
      sends := sends + [Send(call.req.host, realKey, call.upstream.Answers?)];
      if call.upstream.Answers? {
        var detail := JsonObject([("token_id", tokenId), ("host", JsonText(call.req.host)),
                                  ("method", JsonText(VerbText(call.req.verb))), ("allowed", JsonBool(true))]);
        Finish(e, before, log, sent, at, SwappedEvent, Some(relayId), detail, Succeeded);
        return Swapped(Allowed);
      }
      var kind := if call.upstream.FailsIo? then Ascii("io") else Ascii("host_not_allowed");
      var failed := JsonObject([("token_id", tokenId), ("reason", JsonText(Ascii("upstream"))),
                                ("kind", JsonText(kind))]);
      Finish(e, before, log, sent, at, SwappedEvent, Some(relayId), failed, Failed);
      return Swapped(InternalRefused(UpstreamFailed));
    }
  }
}
