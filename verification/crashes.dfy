/** What a crash does: harmless almost everywhere, final in a few places, and those exactly. */
module Crashes {
  import opened Bytes
  import opened Environment
  import opened Keyslots
  import opened Messages
  import opened Store
  import opened Anchors
  import opened Effects
  import opened Invariants
  import opened Unlocking
  import opened Preservation
  import opened Runs
  import opened Histories

  /** The engine restarted over what a crash left. */
  function Restarted(s: StoreState): Snap { Snap(s, Locked, map[]) }

  // ---- where a crash is harmless ----

  /**
   A call at any point of any history, cut short after any of its writes: unless the cut falls between
   the two anchor writes, the restarted engine unlocks with exactly the credentials it unlocked with
   before.
   */
  lemma CrashRecovers(env: Env, xs: seq<Happening>, c: Call, k: nat, at: Reading, credential: Credential)
    requires IdealAead(env) && Orderly(env, xs) && |xs| < U32_MAX && GenesisOf(env, xs).Some?
    requires FreshToken(Run(env, xs).store, c.op)
    requires var s := Run(env, xs);
             k <= |Writes(env, s.store, EffectOf(env, s, c))| && !Tears(s.store, EffectOf(env, s, c), k)
    ensures var s, i := Run(env, xs), GenesisOf(env, xs).value.enrolment;
            var cut := CutAt(env, s.store, EffectOf(env, s, c), k);
      && AnchorAccepts(env, i.dek, cut)
      && UnlockEffect(env, Restarted(cut), at, credential).vault ==
           (if Opens(env, i, credential, at.usb) then Unlocked(i.dek) else Locked)
  {
    var s, g := Run(env, xs), GenesisOf(env, xs).value;
    var e := EffectOf(env, s, c);
    HistoryInvariant(env, xs);
    CallProper(env, g, s, c, e, |xs|);
    ProperCut(env, g, s, e, |xs|, k);
    LiveAccepted(env, g, Restarted(CutAt(env, s.store, e, k)), |xs| + 1);
    UnlockHonest(env, g, Restarted(CutAt(env, s.store, e, k)), at, credential);
  }

  // ---- a locked engine that cannot unlock ----

  function NextFrom(env: Env, s: Snap, ys: seq<Happening>): Snap {
    if ys == [] then s else Next(env, NextFrom(env, s, ys[..|ys| - 1]), ys[|ys| - 1])
  }

  predicate OnlyPolicies(ws: seq<Write>) { forall k :: 0 <= k < |ws| ==> ws[k].WritePolicy? }

  /** Over an initialised store, a locked engine that fails to unlock writes policies and unanchored rows. */
  lemma LockedEffect(env: Env, s: Snap, c: Call, e: Effect)
    requires s.vault.Locked? && MetaHeaderMac in s.store.meta && e == EffectOf(env, s, c)
    requires c.op.OpUnlock? ==> UnlockEffect(env, s, c.at, c.op.credential).vault.Locked?
    ensures e.vault.Locked? && e.key.None? && OnlyPolicies(e.core)
  {
    match c.op {
      case OpUnlock(credential) => UnlockOutcome(env, s, c.at, credential);
      case OpSwap(call) => SwapNoWrites(env, s, c.at, call);
      case OpGet(name, show, apply) => GetNoWrites(env, s, c.at, name, show, apply);
      case OpRevokeRelay(relayId, apply) => LockedRevoke(env, s, c.at, relayId, apply);
      case _ =>
    }
  }

  lemma LockedRevoke(env: Env, s: Snap, at: Reading, relayId: Text, apply: bool)
    requires s.vault.Locked?
    ensures var e := RevokeRelayEffect(env, s, at, relayId, apply);
            e.vault.Locked? && e.key.None? && OnlyPolicies(e.core)
  {
    assert PolicyRevokeWrites(s.store, relayId) + [] == PolicyRevokeWrites(s.store, relayId);
  }

  /** The parts of the store that unlocking depends on, the log aside. */
  predicate SameVault(s: StoreState, t: StoreState) {
    t.meta == s.meta && t.keyslots == s.keyslots && s.audit <= t.audit
  }

  lemma {:induction false} PoliciesOnly(env: Env, s: StoreState, ws: seq<Write>)
    requires OnlyPolicies(ws)
    ensures var t := ApplyAll(env, s, ws); t.meta == s.meta && t.keyslots == s.keyslots && t.audit == s.audit
  {
    if ws != [] {
      PoliciesOnly(env, s, ws[..|ws| - 1]);
      assert ws[|ws| - 1].WritePolicy?;
    }
  }

  lemma LockedCut(env: Env, s: Snap, e: Effect, k: nat)
    requires e.key.None? && OnlyPolicies(e.core) && k <= |Writes(env, s.store, e)|
    ensures SameVault(s.store, CutAt(env, s.store, e, k))
  {
    var ws := Writes(env, s.store, e);
    if k <= |e.core| {
      assert ws[..k] == e.core[..k];
      assert OnlyPolicies(e.core[..k]) by {
        forall j | 0 <= j < k ensures e.core[..k][j].WritePolicy? {
          assert e.core[j].WritePolicy?;
        }
      }
      PoliciesOnly(env, s.store, e.core[..k]);
    } else {
      assert ws[..k] == e.core + [WriteRow(e.row.value)];
      PoliciesOnly(env, s.store, e.core);
      ApplyMore(env, s.store, e.core, WriteRow(e.row.value));
    }
  }

  /** One step of a stuck engine leaves everything that keeps it stuck. */
  lemma LockedNext(env: Env, s: Snap, x: Happening)
    requires s.vault.Locked? && MetaHeaderMac in s.store.meta
    requires x.call.op.OpUnlock? ==> UnlockEffect(env, s, x.call.at, x.call.op.credential).vault.Locked?
    ensures Next(env, s, x).vault.Locked? && SameVault(s.store, Next(env, s, x).store)
  {
    var e := EffectOf(env, s, x.call);
    LockedEffect(env, s, x.call, e);
    NextIsCut(env, s, e, x);
    LockedCut(env, s, e, Reached(env, s.store, e, x));
  }

  // ---- a crash between the mark and the head ----

  /** A torn log with no collision between its two anchors, behind a locked vault. */
  predicate TornShut(env: Env, g: Genesis, s: Snap, n: nat, m: nat) {
    && s.vault.Locked? && HeaderOk(env, g, s.store) && Torn(env, s.store, g.enrolment.dek, n, m)
    && !MacCollision(env, AuditHeadKey, g.enrolment.dek, AnchorOver(s.store, n), AnchorOver(s.store, m))
  }

  function AnchorOver(s: StoreState, n: nat): Bytes
    requires 1 <= n <= |s.audit| && n <= I64_MAX
  {
    AnchorMessage(n, n, s.audit[n - 1].rowHash)
  }

  lemma TornUnlockFails(env: Env, g: Genesis, s: Snap, n: nat, m: nat, at: Reading, c: Credential)
    requires IdealAead(env) && TornShut(env, g, s, n, m)
    ensures UnlockEffect(env, s, at, c).vault.Locked?
  {
    TornRefused(env, s.store, g.enrolment.dek, n, m);
    UnlockRefusedWithLog(env, g, s, at, c);
  }

  lemma AnchorKept(s: StoreState, t: StoreState, n: nat)
    requires s.audit <= t.audit && 1 <= n <= |s.audit| && n <= I64_MAX
    ensures t.audit[n - 1] == s.audit[n - 1] && AnchorOver(t, n) == AnchorOver(s, n)
  {
  }

  lemma TornStays(env: Env, g: Genesis, s: Snap, t: Snap, n: nat, m: nat)
    requires TornShut(env, g, s, n, m) && t.vault.Locked? && SameVault(s.store, t.store)
    ensures TornShut(env, g, t, n, m)
  {
    AnchorKept(s.store, t.store, n);
    AnchorKept(s.store, t.store, m);
  }

  /** Nothing the engine can do from a torn log, crashes included, ever makes it unlock again. */
  lemma {:induction false} TornForever(env: Env, g: Genesis, s: Snap, n: nat, m: nat, ys: seq<Happening>)
    requires IdealAead(env) && TornShut(env, g, s, n, m)
    ensures TornShut(env, g, NextFrom(env, s, ys), n, m)
  {
    if ys != [] {
      var t, x := NextFrom(env, s, ys[..|ys| - 1]), ys[|ys| - 1];
      TornForever(env, g, s, n, m, ys[..|ys| - 1]);
      if x.call.op.OpUnlock? {
        TornUnlockFails(env, g, t, n, m, x.call.at, x.call.op.credential);
      }
      LockedNext(env, t, x);
      TornStays(env, g, t, Next(env, t, x), n, m);
    }
  }

  lemma TornIsFinal(env: Env, g: Genesis, cut: StoreState, n: nat, m: nat, ys: seq<Happening>, at: Reading,
                    credential: Credential)
    requires IdealAead(env) && HeaderOk(env, g, cut) && Torn(env, cut, g.enrolment.dek, n, m)
    ensures || UnlockEffect(env, NextFrom(env, Restarted(cut), ys), at, credential).vault.Locked?
            || MacCollision(env, AuditHeadKey, g.enrolment.dek, AnchorOver(cut, n), AnchorOver(cut, m))
  {
    if !MacCollision(env, AuditHeadKey, g.enrolment.dek, AnchorOver(cut, n), AnchorOver(cut, m)) {
      TornForever(env, g, Restarted(cut), n, m, ys);
      TornUnlockFails(env, g, NextFrom(env, Restarted(cut), ys), n, m, at, credential);
    }
  }

  /** The store a crash between the two anchor writes leaves. */
  lemma TearLeavesTorn(env: Env, g: Genesis, s: Snap, e: Effect, n: nat, k: nat) returns (m: nat)
    requires Live(env, g, s) && Proper(env, g, s, e, n) && Small(s.store, n) && n < U32_MAX
    requires k <= |Writes(env, s.store, e)| && Tears(s.store, e, k)
    ensures var cut := CutAt(env, s.store, e, k);
            HeaderOk(env, g, cut) && Torn(env, cut, g.enrolment.dek, |s.store.audit| + 1, m)
  {
    ProperCut(env, g, s, e, n, k);
    m :| Torn(env, CutAt(env, s.store, e, k), g.enrolment.dek, |s.store.audit| + 1, m);
  }

  lemma TearOnHistory(env: Env, xs: seq<Happening>, c: Call, e: Effect, cut: StoreState, k: nat)
      returns (n: nat, m: nat)
    requires IdealAead(env) && Orderly(env, xs) && |xs| < U32_MAX && GenesisOf(env, xs).Some?
    requires FreshToken(Run(env, xs).store, c.op) && e == EffectOf(env, Run(env, xs), c)
    requires k <= |Writes(env, Run(env, xs).store, e)| && Tears(Run(env, xs).store, e, k)
    requires cut == CutAt(env, Run(env, xs).store, e, k)
    ensures HeaderOk(env, GenesisOf(env, xs).value, cut) && Torn(env, cut, GenesisOf(env, xs).value.enrolment.dek, n, m)
  {
    HistoryInvariant(env, xs);
    n := |Run(env, xs).store.audit| + 1;
    m := TearOnVault(env, GenesisOf(env, xs).value, Run(env, xs), c, e, |xs|, k);
  }

  lemma TearOnVault(env: Env, g: Genesis, s: Snap, c: Call, e: Effect, n: nat, k: nat) returns (m: nat)
    requires IdealAead(env) && Live(env, g, s) && Small(s.store, n) && n < U32_MAX && FreshToken(s.store, c.op)
    requires e == EffectOf(env, s, c) && k <= |Writes(env, s.store, e)| && Tears(s.store, e, k)
    ensures HeaderOk(env, g, CutAt(env, s.store, e, k))
    ensures Torn(env, CutAt(env, s.store, e, k), g.enrolment.dek, |s.store.audit| + 1, m)
  {
    CallProper(env, g, s, c, e, n);
    m := TearLeavesTorn(env, g, s, e, n, k);
  }

  /**
   A crash between the two anchor writes of any call of any history is final: whatever happens next,
   no credential ever unlocks that vault again, unless two anchors collide.
   */
  lemma TearIsFinal(env: Env, xs: seq<Happening>, c: Call, k: nat, ys: seq<Happening>, at: Reading,
                    credential: Credential)
      returns (n: nat, m: nat)
    requires IdealAead(env) && Orderly(env, xs) && |xs| < U32_MAX && GenesisOf(env, xs).Some?
    requires FreshToken(Run(env, xs).store, c.op)
    requires var s := Run(env, xs);
             k <= |Writes(env, s.store, EffectOf(env, s, c))| && Tears(s.store, EffectOf(env, s, c), k)
    ensures var s, dek := Run(env, xs), GenesisOf(env, xs).value.enrolment.dek;
            var cut := CutAt(env, s.store, EffectOf(env, s, c), k);
      && Torn(env, cut, dek, n, m)
      && (|| UnlockEffect(env, NextFrom(env, Restarted(cut), ys), at, credential).vault.Locked?
          || MacCollision(env, AuditHeadKey, dek, AnchorOver(cut, n), AnchorOver(cut, m)))
  {
    var e := EffectOf(env, Run(env, xs), c);
    var cut := CutAt(env, Run(env, xs).store, e, k);
    n, m := TearOnHistory(env, xs, c, e, cut, k);
    TornIsFinal(env, GenesisOf(env, xs).value, cut, n, m, ys, at, credential);
  }

  // ---- a crash inside init ----

  /** Initialised, says the header MAC; but the floor or the generation it is checked with is missing. */
  predicate Unfinished(s: Snap) {
    && s.vault.Locked? && MetaHeaderMac in s.store.meta
    && (MetaIssuanceFloor !in s.store.meta || MetaDekGeneration !in s.store.meta)
  }

  lemma UnfinishedShut(env: Env, s: Snap, at: Reading, c: Credential)
    requires Unfinished(s)
    ensures UnlockEffect(env, s, at, c).vault.Locked?
  {
    UnlockOutcome(env, s, at, c);
  }

  lemma {:induction false} UnfinishedForever(env: Env, s: Snap, ys: seq<Happening>)
    requires Unfinished(s)
    ensures Unfinished(NextFrom(env, s, ys))
  {
    if ys != [] {
      var t, x := NextFrom(env, s, ys[..|ys| - 1]), ys[|ys| - 1];
      UnfinishedForever(env, s, ys[..|ys| - 1]);
      if x.call.op.OpUnlock? {
        UnfinishedShut(env, t, x.call.at, x.call.op.credential);
      }
      LockedNext(env, t, x);
    }
  }

  lemma HeaderPrefix(env: Env, s: StoreState, ws: seq<Write>, slots: seq<Write>, header: seq<Write>, k: nat)
    requires |header| == 3 && slots + header <= ws && |slots| < k < |slots| + 3
    ensures ApplyAll(env, s, ws[..|slots| + 1]) == Apply(env, ApplyAll(env, s, slots), header[0])
    ensures k == |slots| + 2 ==>
              ApplyAll(env, s, ws[..k]) == Apply(env, Apply(env, ApplyAll(env, s, slots), header[0]), header[1])
  {
    assert ws[..|slots|] == slots && ws[|slots|] == header[0] && ws[|slots| + 1] == header[1];
    ApplyUpTo(env, s, ws, |slots| + 1);
    if k == |slots| + 2 {
      ApplyUpTo(env, s, ws, k);
    }
  }

  /** A cut within the header leaves it unfinished. */
  lemma InitCutWithin(env: Env, s: Snap, at: Reading, i: Enrolment, k: nat)
    requires Blank(env, s) && InitRefusal(s.store, i).None? && SlotCount(env, i) < k < SlotCount(env, i) + 3
    ensures k <= |Writes(env, s.store, InitEffect(env, s, at, i))|
    ensures Unfinished(Restarted(CutAt(env, s.store, InitEffect(env, s, at, i), k)))
  {
    InitWrites(env, s, at, i);
    SlotWritesAre(EnrolledSlots(env, i));
    WithinCut(env, s, Genesis(i, at.nowMs), InitEffect(env, s, at, i), k);
  }

  lemma SlotsLeaveMeta(env: Env, s: StoreState, i: Enrolment)
    requires Leftover(s.keyslots)
    ensures ApplyAll(env, s, SlotWrites(EnrolledSlots(env, i))).meta == s.meta
  {
    var slots := SlotWrites(EnrolledSlots(env, i));
    SlotWritesAre(EnrolledSlots(env, i));
    SlotsStored(env, s, i, |slots|);
    assert slots[..|slots|] == slots;
  }

  lemma WithinCut(env: Env, s: Snap, g: Genesis, e: Effect, k: nat)
    requires Blank(env, s) && |SlotWrites(EnrolledSlots(env, g.enrolment))| == SlotCount(env, g.enrolment)
    requires SlotCount(env, g.enrolment) < k < SlotCount(env, g.enrolment) + 3
    requires e.core == SlotWrites(EnrolledSlots(env, g.enrolment)) + HeaderWrites(env, g.enrolment, g.floorMs)
    requires e.core <= Writes(env, s.store, e)
    ensures Unfinished(Restarted(CutAt(env, s.store, e, k)))
  {
    var slots := SlotWrites(EnrolledSlots(env, g.enrolment));
    SlotsLeaveMeta(env, s.store, g.enrolment);
    HeaderCut(env, s.store, ApplyAll(env, s.store, slots), Writes(env, s.store, e), slots,
              HeaderWrites(env, g.enrolment, g.floorMs), k);
  }

  lemma HeaderCut(env: Env, s: StoreState, t: StoreState, ws: seq<Write>, slots: seq<Write>, header: seq<Write>, k: nat)
    requires t == ApplyAll(env, s, slots) && t.meta == map[]
    requires |header| == 3 && slots + header <= ws && |slots| < k < |slots| + 3
    requires header[0].WriteMeta? && header[0].key == MetaHeaderMac && header[1].WriteMeta?
    requires header[1].key == MetaIssuanceFloor
    ensures Unfinished(Restarted(ApplyAll(env, s, ws[..k])))
  {
    HeaderPrefix(env, s, ws, slots, header, k);
    assert k == |slots| + 1 || k == |slots| + 2;
  }

  /** The header, the slots and an accepted log, as an init leaves them once past its header. */
  predicate PastHeader(env: Env, g: Genesis, left: seq<Keyslot>, s: StoreState) {
    && s.keyslots == Overlay(left, EnrolledSlots(env, g.enrolment))
    && HeaderStoredAs(s, HeaderMac(env, g.enrolment.dek, EnrolledSlots(env, g.enrolment), g.floorMs), g.floorMs)
    && AnchorAccepts(env, g.enrolment.dek, s)
  }

  lemma InitCutLate(env: Env, s: Snap, at: Reading, i: Enrolment, k: nat)
    requires Blank(env, s) && InitRefusal(s.store, i).None? && |s.store.audit| < I64_MAX
    requires SlotCount(env, i) + 3 <= k <= |Writes(env, s.store, InitEffect(env, s, at, i))|
    ensures PastHeader(env, Genesis(i, at.nowMs), s.store.keyslots, CutAt(env, s.store, InitEffect(env, s, at, i), k))
  {
    InitCutPast(env, s, at, i, k);
    PastIsAccepted(env, s.store, Genesis(i, at.nowMs), CutAt(env, s.store, InitEffect(env, s, at, i), k));
  }

  lemma PastIsAccepted(env: Env, s: StoreState, g: Genesis, cut: StoreState)
    requires InitPast(env, s, g, cut) && |s.audit| < I64_MAX
    ensures PastHeader(env, g, s.keyslots, cut)
  {
    StandingAccepted(env, cut, g.enrolment.dek);
  }

  /** The header MAC over the slots init enrolled is also the MAC over the slots the store holds. */
  predicate SlotsCollide(env: Env, g: Genesis, slots: seq<Keyslot>) {
    MacCollision(env, HeaderMacKey, g.enrolment.dek, HeaderMessage(EnrolledSlots(env, g.enrolment), g.floorMs),
                 HeaderMessage(slots, g.floorMs))
  }

  lemma OverlaidSlots(env: Env, left: seq<Keyslot>, i: Enrolment)
    requires Leftover(left)
    ensures var enrolled, slots := EnrolledSlots(env, i), Overlay(left, EnrolledSlots(env, i));
      && slots[0] == PassphraseSlot(env, i) && MaxGeneration(slots) == DEK_GENERATION
      && (Stale(left, i) ==> enrolled == [PassphraseSlot(env, i)] && slots == enrolled + [left[1]])
      && (!Stale(left, i) ==> slots == enrolled)
  {
    EnrolledLeftover(env, i);
    EnrolledGeneration(env, i);
    if Stale(left, i) {
      var slots := Overlay(left, EnrolledSlots(env, i));
      assert slots == [PassphraseSlot(env, i), left[1]] && slots[1..] == [left[1]];
    } else {
      NothingStale(env, left, i);
    }
  }

  /** Past its header, the passphrase given to the init unlocks exactly when no stale slot was left behind. */
  lemma PastHeaderUnlock(env: Env, g: Genesis, left: seq<Keyslot>, s: Snap, at: Reading)
    requires IdealAead(env) && Leftover(left) && PastHeader(env, g, left, s.store) && s.vault.Locked?
    requires AboveFloors(g.enrolment.params) && ArgonAccepts(g.enrolment.params, g.enrolment.passphraseSalt)
    ensures (UnlockEffect(env, s, at, ByPassphrase(g.enrolment.passphrase)).vault == Unlocked(g.enrolment.dek)) <==>
            (!Stale(left, g.enrolment) || SlotsCollide(env, g, s.store.keyslots))
  {
    var i, c := g.enrolment, ByPassphrase(g.enrolment.passphrase);
    HeaderReadsBack(s.store, HeaderMac(env, i.dek, EnrolledSlots(env, i), g.floorMs), g.floorMs);
    OverlaidSlots(env, left, i);
    PassphraseSlotOpens(env, i, c, at.usb);
    assert ProbeSlots(env, s.store.keyslots, c, at.usb) == Opened(i.dek);
    if Stale(left, i) {
      CountsApart(EnrolledSlots(env, i), s.store.keyslots, g.floorMs);
    }
  }

  /**
   An init over a store with no vault, cut after any of its writes or finished, exactly. Up to the
   header MAC it leaves a store with no vault, holding the slots it got to over those left before it.
   Between the header MAC and the generation it is final: no credential ever unlocks that store and no
   init ever replaces it. Past that the passphrase it was given unlocks, unless a stale slot lies
   outside the header MAC.
   */
  lemma InitCutExactly(env: Env, s: Snap, at: Reading, i: Enrolment, k: nat, ys: seq<Happening>, now: Reading)
    requires IdealAead(env) && Blank(env, s) && InitRefusal(s.store, i).None? && |s.store.audit| < I64_MAX
    requires k <= |Writes(env, s.store, InitEffect(env, s, at, i))|
    ensures var n, cut := SlotCount(env, i), CutAt(env, s.store, InitEffect(env, s, at, i), k);
      var later := NextFrom(env, Restarted(cut), ys);
      if k <= n then
        cut == s.store.(keyslots := Overlay(s.store.keyslots, EnrolledSlots(env, i)[..k])) && Blank(env, Restarted(cut))
      else if k < n + 3 then
        (forall c :: UnlockEffect(env, later, now, c).vault.Locked?) &&
            (forall i' :: InitRefusal(later.store, i') == Some(AlreadyInitialized))
      else
        (UnlockEffect(env, Restarted(cut), now, ByPassphrase(i.passphrase)).vault == Unlocked(i.dek)) <==>
        (!Stale(s.store.keyslots, i) || SlotsCollide(env, Genesis(i, at.nowMs), cut.keyslots))
  {
    var n, cut := SlotCount(env, i), CutAt(env, s.store, InitEffect(env, s, at, i), k);
    if k <= n {
      InitCutBlank(env, s, at, i, k);
    } else if k < n + 3 {
      InitCutWithin(env, s, at, i, k);
      UnfinishedForever(env, Restarted(cut), ys);
      forall c ensures UnlockEffect(env, NextFrom(env, Restarted(cut), ys), now, c).vault.Locked? {
        UnfinishedShut(env, NextFrom(env, Restarted(cut), ys), now, c);
      }
    } else {
      InitCutLate(env, s, at, i, k);
      PastHeaderUnlock(env, Genesis(i, at.nowMs), s.store.keyslots, Restarted(cut), now);
    }
  }

  // ---- an init repeated ----

  lemma FinishedInit(env: Env, s: Snap, at: Reading, i: Enrolment)
    requires Blank(env, s) && InitRefusal(s.store, i).None? && |s.store.audit| < I64_MAX
    ensures var t := After(env, s, InitEffect(env, s, at, i));
            t.vault.Locked? && PastHeader(env, Genesis(i, at.nowMs), s.store.keyslots, t.store)
  {
    var e := InitEffect(env, s, at, i);
    var ws := Writes(env, s.store, e);
    InitWrites(env, s, at, i);
    SlotWritesAre(EnrolledSlots(env, i));
    assert ws[..|ws|] == ws;
    InitCutLate(env, s, at, i, |ws|);
  }

  /**
   An init cut before its header and then another, whatever its arguments: the second is not refused,
   and the passphrase it was given unlocks what it leaves exactly when the first had not saved a USB
   slot, or the second saves one over it, or the header MAC collides.
   */
  lemma RepeatedInit(env: Env, s: Snap, at: Reading, i: Enrolment, k: nat, again: Reading, j: Enrolment, now: Reading)
    requires IdealAead(env) && Blank(env, s) && s.store.keyslots == [] && |s.store.audit| < I64_MAX
    requires InitRefusal(s.store, i).None? && InitRefusal(s.store, j).None? && k <= SlotCount(env, i)
    requires k <= |Writes(env, s.store, InitEffect(env, s, at, i))|
    ensures var cut := Restarted(CutAt(env, s.store, InitEffect(env, s, at, i), k));
      var t := After(env, cut, InitEffect(env, cut, again, j));
      && InitRefusal(cut.store, j).None?
      && ((UnlockEffect(env, t, now, ByPassphrase(j.passphrase)).vault == Unlocked(j.dek)) <==>
          (k < 2 || j.usbKeyfile.Some? || SlotsCollide(env, Genesis(j, again.nowMs), t.store.keyslots)))
  {
    var cut := Restarted(CutAt(env, s.store, InitEffect(env, s, at, i), k));
    InitCutBlank(env, s, at, i, k);
    FinishedInit(env, cut, again, j);
    PastHeaderUnlock(env, Genesis(j, again.nowMs), cut.store.keyslots, After(env, cut, InitEffect(env, cut, again, j)),
                     now);
  }

  /** A vault locked behind a header MAC that does not cover its stale slot. */
  predicate StaleShut(env: Env, g: Genesis, slots: seq<Keyslot>, s: Snap) {
    && s.vault.Locked? && s.store.keyslots == slots
    && HeaderStoredAs(s.store, HeaderMac(env, g.enrolment.dek, EnrolledSlots(env, g.enrolment), g.floorMs), g.floorMs)
  }

  /** A DEK some credential recovers from the slots under which the stored header MAC covers them all. */
  predicate StaleCollision(env: Env, g: Genesis, slots: seq<Keyslot>, dek: Dek, c: Credential, usb: map<Text, Bytes>) {
    && ProbeSlots(env, slots, c, usb) == Opened(dek)
    && HeaderCollision(env, dek, slots, g.floorMs, g.enrolment.dek, EnrolledSlots(env, g.enrolment), g.floorMs)
  }

  lemma StaleUnlock(env: Env, g: Genesis, slots: seq<Keyslot>, s: Snap, at: Reading, c: Credential)
    requires StaleShut(env, g, slots, s) && |slots| == 2 && SlotCount(env, g.enrolment) == 1
    ensures var v := UnlockEffect(env, s, at, c).vault; v.Unlocked? ==> StaleCollision(env, g, slots, v.dek, c, at.usb)
  {
    UnlockOutcome(env, s, at, c);
    HeaderReadsBack(s.store, HeaderMac(env, g.enrolment.dek, EnrolledSlots(env, g.enrolment), g.floorMs), g.floorMs);
    CountsApart(slots, EnrolledSlots(env, g.enrolment), g.floorMs);
  }

  /** Whatever happens next, the vault stays shut up to the first unlock that finds a collision. */
  lemma {:induction false} StaleForever(env: Env, g: Genesis, slots: seq<Keyslot>, s: Snap, ys: seq<Happening>)
      returns (dek: Dek, c: Credential, usb: map<Text, Bytes>)
    requires StaleShut(env, g, slots, s) && |slots| == 2 && SlotCount(env, g.enrolment) == 1
    ensures StaleShut(env, g, slots, NextFrom(env, s, ys)) || StaleCollision(env, g, slots, dek, c, usb)
  {
    dek, c, usb := g.enrolment.dek, ByUsb, map[];
    if ys != [] {
      var t, x := NextFrom(env, s, ys[..|ys| - 1]), ys[|ys| - 1];
      dek, c, usb := StaleForever(env, g, slots, s, ys[..|ys| - 1]);
      if !StaleCollision(env, g, slots, dek, c, usb) {
        if x.call.op.OpUnlock? {
          StaleUnlock(env, g, slots, t, x.call.at, x.call.op.credential);
          var v := UnlockEffect(env, t, x.call.at, x.call.op.credential).vault;
          if v.Unlocked? {
            return v.dek, x.call.op.credential, x.call.at.usb;
          }
        }
        LockedNext(env, t, x);
      }
    }
  }

  lemma StaleStaysShut(env: Env, g: Genesis, slots: seq<Keyslot>, s: Snap, ys: seq<Happening>, now: Reading,
                       credential: Credential)
      returns (dek: Dek, c: Credential, usb: map<Text, Bytes>)
    requires StaleShut(env, g, slots, s) && |slots| == 2 && SlotCount(env, g.enrolment) == 1
    ensures var later := NextFrom(env, s, ys);
      || (UnlockEffect(env, later, now, credential).vault.Locked?
          && forall j :: InitRefusal(later.store, j) == Some(AlreadyInitialized))
      || StaleCollision(env, g, slots, dek, c, usb)
  {
    dek, c, usb := StaleForever(env, g, slots, s, ys);
    if !StaleCollision(env, g, slots, dek, c, usb) {
      var later := NextFrom(env, s, ys);
      StaleUnlock(env, g, slots, later, now, credential);
      var v := UnlockEffect(env, later, now, credential).vault;
      if v.Unlocked? {
        dek, c, usb := v.dek, credential, now.usb;
      }
    }
  }

  lemma StaleInitLeaves(env: Env, s: Snap, at: Reading, i: Enrolment, t: Snap)
    requires Blank(env, s) && InitRefusal(s.store, i).None? && Stale(s.store.keyslots, i) && |s.store.audit| < I64_MAX
    requires t == After(env, s, InitEffect(env, s, at, i))
    ensures t.store.keyslots == [PassphraseSlot(env, i), s.store.keyslots[1]]
    ensures SlotCount(env, i) == 1 && StaleShut(env, Genesis(i, at.nowMs), t.store.keyslots, t)
  {
    FinishedInit(env, s, at, i);
    OverlaidSlots(env, s.store.keyslots, i);
  }

  /**
   An init over a stale USB slot is final: no credential ever unlocks what it leaves, unless the header
   MACs of two different slot lists collide, and no init ever replaces it.
   */
  lemma StaleInitIsFinal(env: Env, s: Snap, at: Reading, i: Enrolment, ys: seq<Happening>, now: Reading,
                         credential: Credential)
      returns (dek: Dek, c: Credential, usb: map<Text, Bytes>)
    requires Blank(env, s) && InitRefusal(s.store, i).None? && Stale(s.store.keyslots, i) && |s.store.audit| < I64_MAX
    ensures var t := After(env, s, InitEffect(env, s, at, i)); var later := NextFrom(env, t, ys);
      && t.store.keyslots == [PassphraseSlot(env, i), s.store.keyslots[1]]
      && (|| (UnlockEffect(env, later, now, credential).vault.Locked?
              && forall j :: InitRefusal(later.store, j) == Some(AlreadyInitialized))
          || StaleCollision(env, Genesis(i, at.nowMs), t.store.keyslots, dek, c, usb))
  {
    var t := After(env, s, InitEffect(env, s, at, i));
    StaleInitLeaves(env, s, at, i, t);
    dek, c, usb := StaleStaysShut(env, Genesis(i, at.nowMs), t.store.keyslots, t, ys, now, credential);
  }

  /** The store after an init with a USB keyfile cut between its slots and its header. */
  lemma BothSlotsLeft(env: Env, at: Reading, i: Enrolment)
    requires InitRefusal(EMPTY, i).None? && i.usbKeyfile.Some?
    ensures 2 <= |Writes(env, EMPTY, InitEffect(env, START, at, i))|
    ensures CutAt(env, EMPTY, InitEffect(env, START, at, i), 2)
         == EMPTY.(keyslots := [PassphraseSlot(env, i), UsbSlot(env, i, i.usbKeyfile.value)])
  {
    EnrolledLeftover(env, i);
    InitCutBlank(env, START, at, i, 2);
    var slots := EnrolledSlots(env, i);
    assert slots[..2] == slots == [PassphraseSlot(env, i), UsbSlot(env, i, i.usbKeyfile.value)];
    assert Overlay([], slots) == slots;
  }

  lemma SecondInit(env: Env, cut: Snap, usbSlot: Keyslot, again: Reading, j: Enrolment)
    requires Blank(env, cut) && InitRefusal(cut.store, j).None? && j.usbKeyfile.None? && |cut.store.audit| < I64_MAX
    requires |cut.store.keyslots| == 2 && cut.store.keyslots[1] == usbSlot
    ensures After(env, cut, InitEffect(env, cut, again, j)).store.keyslots == [PassphraseSlot(env, j), usbSlot]
  {
    StaleInitLeaves(env, cut, again, j, After(env, cut, InitEffect(env, cut, again, j)));
  }

  /** The input: an init with a USB keyfile cut after both its slots, then an init without one. */
  lemma StaleSlotLeft(env: Env, at: Reading, i: Enrolment, again: Reading, j: Enrolment)
    requires InitRefusal(EMPTY, i).None? && InitRefusal(EMPTY, j).None? && i.usbKeyfile.Some? && j.usbKeyfile.None?
    ensures 2 <= |Writes(env, EMPTY, InitEffect(env, START, at, i))|
    ensures var cut := Restarted(CutAt(env, EMPTY, InitEffect(env, START, at, i), 2));
      && Blank(env, cut) && Stale(cut.store.keyslots, j)
      && After(env, cut, InitEffect(env, cut, again, j)).store.keyslots
         == [PassphraseSlot(env, j), UsbSlot(env, i, i.usbKeyfile.value)]
  {
    BothSlotsLeft(env, at, i);
    var cut := Restarted(CutAt(env, EMPTY, InitEffect(env, START, at, i), 2));
    SecondInit(env, cut, UsbSlot(env, i, i.usbKeyfile.value), again, j);
  }
}
