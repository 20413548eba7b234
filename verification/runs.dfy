/**
 What one call leaves when it is cut short after any of its writes: on a live vault, and on a store
 that has no vault yet, where the call may be the init that sets one up.
 */
module Runs {
  import opened Bytes
  import opened Environment
  import opened Audit
  import opened Keyslots
  import opened Store
  import opened Anchors
  import opened Effects
  import opened Invariants
  import opened Preservation
  import opened Wire

  // ---- one call, cut anywhere ----

  lemma {:induction false} OffLogKeeps(env: Env, s: StoreState, ws: seq<Write>)
    requires AllOffLog(ws)
    ensures ApplyAll(env, s, ws).audit == s.audit && ApplyAll(env, s, ws).meta == s.meta
  {
    if ws != [] {
      OffLogKeeps(env, s, ws[..|ws| - 1]);
      assert OffLog(ws[|ws| - 1]);
    }
  }

  lemma AuditWritesOk(env: Env, g: Genesis, t: StoreState, rec: AuditRecord, key: Option<Dek>)
    requires |t.audit| < I64_MAX
    ensures AllOk(env, g, t, AuditWrites(env, t, rec, key))
  {
    var ws := AuditWrites(env, t, rec, key);
    assert ws[..0] == [];
    forall k | 0 <= k < |ws| ensures OkAt(env, g, t, ws, k) {
      assert k > 0 ==> ws[k].WriteMeta?;
    }
  }

  lemma ProperWritesOk(env: Env, g: Genesis, s: Snap, e: Effect, n: nat)
    requires Proper(env, g, s, e, n) && Small(s.store, n) && n < U32_MAX
    ensures AllOk(env, g, s.store, Writes(env, s.store, e))
  {
    if e.row.Some? {
      OffLogKeeps(env, s.store, e.core);
      var t := ApplyAll(env, s.store, e.core);
      AuditWritesOk(env, g, t, e.row.value, e.key);
      AllOkConcat(env, g, s.store, e.core, AuditWrites(env, t, e.row.value, e.key));
    } else {
      assert Writes(env, s.store, e) == e.core;
    }
  }

  /** The point between the two anchor writes of a call on a log that has a head already. */
  predicate Tears(s: StoreState, e: Effect, k: nat) {
    MetaAuditHead in s.meta && e.row.Some? && e.key.Some? && k == |e.core| + 2
  }

  /** The high-water mark of a log whose anchor stands. */
  function MarkOf(s: StoreState): nat { Max(0, StoredHighWater(s)) }

  lemma MarkIsAnchor(env: Env, s: StoreState, dek: Dek, a: nat)
    requires Stands(env, s, dek, a)
    ensures MarkOf(s) == a && StoredHighWater(s) == a <= |s.audit|
  {
    DecimalParses(a);
  }

  ghost predicate TornAt(env: Env, s: StoreState, dek: Dek, n: nat) { exists m: nat :: Torn(env, s, dek, n, m) }

  function CutAt(env: Env, s: StoreState, e: Effect, k: nat): StoreState
    requires k <= |Writes(env, s, e)|
  {
    ApplyAll(env, s, Writes(env, s, e)[..k])
  }

  /** Where the anchor of a cut call stands, when the cut falls within the call's own writes. */
  lemma CoreCutStands(env: Env, s: Snap, e: Effect, dek: Dek, a: nat, k: nat)
    requires Stands(env, s.store, dek, a) && AllOffLog(e.core) && k <= |e.core|
    ensures k <= |Writes(env, s.store, e)|
    ensures Stands(env, CutAt(env, s.store, e, k), dek, a) && CutAt(env, s.store, e, k).audit == s.store.audit
  {
    assert Writes(env, s.store, e)[..k] == e.core[..k];
    assert AllOffLog(e.core[..k]) by {
      forall j | 0 <= j < k ensures OffLog(e.core[..k][j]) {
        assert OffLog(e.core[j]);
      }
    }
    OffLogKeeps(env, s.store, e.core[..k]);
  }

  /** The cut in terms of the store behind the call's own writes. */
  lemma CutPastCore(env: Env, s: StoreState, e: Effect, k: nat)
    requires e.row.Some? && |e.core| <= k <= |Writes(env, s, e)|
    ensures var t := ApplyAll(env, s, e.core); var ws := AuditWrites(env, t, e.row.value, e.key);
            k - |e.core| <= |ws| && CutAt(env, s, e, k) == ApplyAll(env, t, ws[..k - |e.core|])
  {
    var ws := AuditWrites(env, ApplyAll(env, s, e.core), e.row.value, e.key);
    assert Writes(env, s, e)[..k] == e.core + ws[..k - |e.core|];
    ApplyConcat(env, s, e.core, ws[..k - |e.core|]);
  }

  /** Where the anchor stands when the cut falls within an audited event under the DEK. */
  lemma KeyedCutStands(env: Env, t: StoreState, rec: AuditRecord, dek: Dek, a: nat, j: nat)
    requires ChainOk(env, t.audit) && |t.audit| < I64_MAX && Stands(env, t, dek, a)
    requires j <= |AuditWrites(env, t, rec, Some(dek))|
    ensures var cut := ApplyAll(env, t, AuditWrites(env, t, rec, Some(dek))[..j]);
      if MetaAuditHead in t.meta && j == 2 then Torn(env, cut, dek, |t.audit| + 1, a) else StandsFrom(env, cut, dek, a)
  {
    if MetaAuditHead in t.meta {
      CrashPoints(env, t, rec, dek, a, j);
      var cut := ApplyAll(env, t, AuditWrites(env, t, rec, Some(dek))[..j]);
      assert j != 2 ==> Stands(env, cut, dek, if j == 3 then |t.audit| + 1 else a);
    } else {
      var m := HeadlessPoints(env, t, rec, dek, a, j);
    }
  }

  /** Without the DEK the anchor stays where it was. */
  lemma KeylessCutStands(env: Env, t: StoreState, rec: AuditRecord, dek: Dek, a: nat, j: nat)
    requires ChainOk(env, t.audit) && |t.audit| < I64_MAX && Stands(env, t, dek, a)
    requires j <= |AuditWrites(env, t, rec, None)|
    ensures Stands(env, ApplyAll(env, t, AuditWrites(env, t, rec, None)[..j]), dek, a)
  {
    var ws := AuditWrites(env, t, rec, None);
    assert ws == [WriteRow(rec)] && ws[..0] == [] && ws[..1] == ws;
    ApplyOne(env, t, WriteRow(rec));
  }

  /** A call's own writes leave the log ready for its row. */
  lemma ReadyForRow(env: Env, g: Genesis, s: Snap, e: Effect, n: nat) returns (t: StoreState)
    requires Live(env, g, s) && AllOffLog(e.core) && Small(s.store, n) && n < U32_MAX
    ensures t == ApplyAll(env, s.store, e.core) && t.audit == s.store.audit
    ensures ChainOk(env, t.audit) && |t.audit| < I64_MAX && StoredHighWater(t) <= |t.audit|
  {
    t := ApplyAll(env, s.store, e.core);
    OffLogKeeps(env, s.store, e.core);
    var a: nat :| Stands(env, s.store, g.enrolment.dek, a);
    MarkIsAnchor(env, s.store, g.enrolment.dek, a);
    assert Meta(t, MetaHighWater) == Meta(s.store, MetaHighWater);
  }

  /** What a finished call leaves is still small. */
  lemma ProperSmall(env: Env, g: Genesis, s: Snap, e: Effect, n: nat)
    requires Live(env, g, s) && Proper(env, g, s, e, n) && Small(s.store, n) && n < U32_MAX
    ensures Small(ApplyAll(env, s.store, Writes(env, s.store, e)), n + 1)
  {
    var t := ReadyForRow(env, g, s, e, n);
    if e.row.Some? {
      AuditStep(env, t, e.row.value, e.key);
      ApplyConcat(env, s.store, e.core, AuditWrites(env, t, e.row.value, e.key));
    } else {
      assert Writes(env, s.store, e) == e.core;
    }
  }

  lemma SmallEarlier(s: StoreState, t: StoreState, n: nat)
    requires Grows(s, t) && Small(t, n)
    ensures Small(s, n)
  {
    forall j | 0 <= j < |s.relays| ensures s.relays[j].id <= n {
      assert t.relays[j].id == s.relays[j].id;
    }
  }

  /**
   Cut a call on a live vault short after any number of its writes: the store is honest, has lost
   nothing, and its anchor stands where it stood or further up, unless the cut fell between the two
   anchor writes over an earlier head, which leaves the log torn.
   */
  lemma ProperCut(env: Env, g: Genesis, s: Snap, e: Effect, n: nat, k: nat)
    requires Live(env, g, s) && Proper(env, g, s, e, n) && Small(s.store, n) && n < U32_MAX
    requires k <= |Writes(env, s.store, e)|
    ensures var cut := CutAt(env, s.store, e, k);
      && Honest(env, g, cut) && Grows(s.store, cut) && Small(cut, n + 1)
      && (!Tears(s.store, e, k) ==> StandsFrom(env, cut, g.enrolment.dek, MarkOf(s.store)))
      && (Tears(s.store, e, k) ==> TornAt(env, cut, g.enrolment.dek, |s.store.audit| + 1))
  {
    var ws := Writes(env, s.store, e);
    ProperWritesOk(env, g, s, e, n);
    WritesKeep(env, g, s.store, ws, k);
    WritesGrow(env, g, s.store, ws, k, |ws|);
    assert ws[..|ws|] == ws;
    ProperSmall(env, g, s, e, n);
    SmallEarlier(CutAt(env, s.store, e, k), ApplyAll(env, s.store, ws), n + 1);
    CutStands(env, g, s, e, n, k);
  }

  lemma PastCoreStands(env: Env, t: StoreState, rec: AuditRecord, key: Option<Dek>, dek: Dek, a: nat, j: nat)
    requires ChainOk(env, t.audit) && |t.audit| < I64_MAX && Stands(env, t, dek, a) && (key.Some? ==> key.value == dek)
    requires j <= |AuditWrites(env, t, rec, key)|
    ensures var cut := ApplyAll(env, t, AuditWrites(env, t, rec, key)[..j]);
      if MetaAuditHead in t.meta && key.Some? && j == 2 then TornAt(env, cut, dek, |t.audit| + 1)
          else StandsFrom(env, cut, dek, a)
  {
    if key.Some? {
      KeyedCutStands(env, t, rec, dek, a, j);
    } else {
      KeylessCutStands(env, t, rec, dek, a, j);
    }
  }

  lemma CutStands(env: Env, g: Genesis, s: Snap, e: Effect, n: nat, k: nat)
    requires Live(env, g, s) && Proper(env, g, s, e, n) && Small(s.store, n) && n < U32_MAX
    requires k <= |Writes(env, s.store, e)|
    ensures var cut := CutAt(env, s.store, e, k);
      && (!Tears(s.store, e, k) ==> StandsFrom(env, cut, g.enrolment.dek, MarkOf(s.store)))
      && (Tears(s.store, e, k) ==> TornAt(env, cut, g.enrolment.dek, |s.store.audit| + 1))
  {
    var dek := g.enrolment.dek;
    var a: nat :| Stands(env, s.store, dek, a);
    MarkIsAnchor(env, s.store, dek, a);
    if k <= |e.core| {
      CoreCutStands(env, s, e, dek, a, k);
    } else {
      LiveEventCut(env, g, s, e, dek, a, n, k);
    }
  }

  lemma LiveEventCut(env: Env, g: Genesis, s: Snap, e: Effect, dek: Dek, a: nat, n: nat, k: nat)
    requires Live(env, g, s) && AllOffLog(e.core) && Small(s.store, n) && n < U32_MAX && Stands(env, s.store, dek, a)
    requires e.row.Some? && |e.core| <= k <= |Writes(env, s.store, e)| && (e.key.Some? ==> e.key.value == dek)
    ensures var cut := CutAt(env, s.store, e, k);
      if Tears(s.store, e, k) then TornAt(env, cut, dek, |s.store.audit| + 1) else StandsFrom(env, cut, dek, a)
  {
    var t := ReadyForRow(env, g, s, e, n);
    OffLogKeeps(env, s.store, e.core);
    EventCut(env, s.store, e, t, dek, a, k);
  }

  lemma EventCut(env: Env, s: StoreState, e: Effect, t: StoreState, dek: Dek, a: nat, k: nat)
    requires t == ApplyAll(env, s, e.core) && ChainOk(env, t.audit) && |t.audit| < I64_MAX && Stands(env, t, dek, a)
    requires e.row.Some? && |e.core| <= k <= |Writes(env, s, e)| && (e.key.Some? ==> e.key.value == dek)
    ensures var cut := CutAt(env, s, e, k);
      if Tears(t, e, k) then TornAt(env, cut, dek, |t.audit| + 1) else StandsFrom(env, cut, dek, a)
  {
    CutPastCore(env, s, e, k);
    PastCoreStands(env, t, e.row.value, e.key, dek, a, k - |e.core|);
  }

  /** A finished call leaves a live vault. */
  lemma ProperKeepsLive(env: Env, g: Genesis, s: Snap, e: Effect, n: nat)
    requires Live(env, g, s) && Proper(env, g, s, e, n) && Small(s.store, n) && n < U32_MAX
    ensures Live(env, g, After(env, s, e)) && Grows(s.store, After(env, s, e).store)
    ensures Small(After(env, s, e).store, n + 1)
  {
    var ws := Writes(env, s.store, e);
    ProperCut(env, g, s, e, n, |ws|);
    assert ws[..|ws|] == ws;
    TailAnchored(env, g, s, e, n);
  }

  lemma TailAnchored(env: Env, g: Genesis, s: Snap, e: Effect, n: nat)
    requires Live(env, g, s) && Proper(env, g, s, e, n) && Small(s.store, n) && n < U32_MAX
    ensures var t := ApplyAll(env, s.store, Writes(env, s.store, e));
            e.vault.Unlocked? ==> Anchored(env, t, g.enrolment.dek, |t.audit|)
  {
    if e.vault.Unlocked? {
      var t := ReadyForRow(env, g, s, e, n);
      if e.row.Some? {
        AuditStep(env, t, e.row.value, e.key);
        ApplyConcat(env, s.store, e.core, AuditWrites(env, t, e.row.value, e.key));
      } else {
        assert Writes(env, s.store, e) == e.core;
        assert Anchored(env, s.store, s.vault.dek, |s.store.audit|);
        OffLogKeeps(env, s.store, e.core);
      }
    }
  }

  // ---- before there is a vault ----

  /** The slots an interrupted init may have left: its passphrase slot, and perhaps its USB slot. */
  predicate Leftover(slots: seq<Keyslot>) {
    |slots| <= 2 && forall j :: 0 <= j < |slots| ==> slots[j].id == j + 1 && slots[j].dekGeneration == DEK_GENERATION
  }

  /** A USB slot is left over and the enrolment brings none to replace it. */
  predicate Stale(slots: seq<Keyslot>, i: Enrolment) { |slots| == 2 && i.usbKeyfile.None? }

  /** New slots written over those left: an upsert replaces by id and removes nothing. */
  function Overlay(slots: seq<Keyslot>, newer: seq<Keyslot>): seq<Keyslot> {
    newer + if |newer| < |slots| then slots[|newer|..] else []
  }

  /** No vault yet: nothing stored but an unanchored log and slots left over from interrupted inits. */
  ghost predicate Blank(env: Env, s: Snap) {
    && s.vault.Locked? && s.store == EMPTY.(audit := s.store.audit, keyslots := s.store.keyslots)
    && Leftover(s.store.keyslots) && ChainOk(env, s.store.audit)
  }

  /** On a blank store a call other than an init that sets up a vault writes at most an unanchored row. */
  lemma BlankEffect(env: Env, s: Snap, c: Call)
    requires Blank(env, s) && !(c.op.OpInit? && InitRefusal(s.store, c.op.enrolment).None?)
    ensures var e := EffectOf(env, s, c); e.core == [] && e.key.None? && e.vault.Locked?
  {
    match c.op {
      case OpSwap(call) =>
        SwapNoWrites(env, s, c.at, call);
      case OpRevokeRelay(relayId, apply) =>
        assert PolicyRevokeWrites(s.store, relayId) == [];
      case _ =>
    }
  }

  lemma BlankCut(env: Env, s: Snap, e: Effect, k: nat)
    requires Blank(env, s) && e.core == [] && e.key.None? && |s.store.audit| < I64_MAX
    requires k <= |Writes(env, s.store, e)|
    ensures var t := CutAt(env, s.store, e, k);
      && t == s.store.(audit := t.audit) && ChainOk(env, t.audit)
      && |t.audit| <= |s.store.audit| + 1 && s.store.audit <= t.audit
  {
    var ws := Writes(env, s.store, e);
    assert ws[..0] == [];
    if k == 1 {
      assert ws[..1] == AuditWrites(env, s.store, e.row.value, None);
      AuditStep(env, s.store, e.row.value, None);
    }
  }

  // ---- the init ----

  /** How many slots an init saves before it writes its header. */
  function SlotCount(env: Env, i: Enrolment): nat { |EnrolledSlots(env, i)| }

  lemma {:induction false} SlotWritesAre(slots: seq<Keyslot>)
    ensures |SlotWrites(slots)| == |slots|
    ensures forall j :: 0 <= j < |slots| ==> SlotWrites(slots)[j] == WriteSlot(slots[j])
  {
    if slots != [] {
      SlotWritesAre(slots[..|slots| - 1]);
    }
  }

  lemma UpsertFirst(left: seq<Keyslot>, slot: Keyslot)
    requires Leftover(left) && slot.id == 1
    ensures UpsertSlot(left, slot) == [slot] + if left == [] then [] else left[1..]
  {
    assert [slot] + [] == [slot];
  }

  lemma UpsertSecond(first: Keyslot, others: seq<Keyslot>, slot: Keyslot)
    requires first.id == 1 && slot.id == 2 && |others| <= 1 && (others != [] ==> others[0].id == 2)
    ensures UpsertSlot([first] + others, slot) == [first, slot]
  {
    assert ([first] + others)[1..] == others;
    assert UpsertSlot(others, slot) == [slot] by {
      if others != [] {
        assert others[1..] == [];
      }
    }
  }

  lemma UpsertNext(left: seq<Keyslot>, newer: seq<Keyslot>, k: nat)
    requires Leftover(left) && Leftover(newer) && k < |newer|
    ensures UpsertSlot(Overlay(left, newer[..k]), newer[k]) == Overlay(left, newer[..k + 1])
  {
    if k == 0 {
      assert Overlay(left, newer[..0]) == left && newer[..1] == [newer[0]];
      UpsertFirst(left, newer[0]);
    } else {
      var others := if |left| == 2 then left[1..] else [];
      assert newer[..1] == [newer[0]] && newer[..2] == [newer[0], newer[1]];
      assert Overlay(left, newer[..1]) == [newer[0]] + others;
      UpsertSecond(newer[0], others, newer[1]);
      assert Overlay(left, newer[..2]) == [newer[0], newer[1]];
    }
  }

  lemma OverlayLeftover(left: seq<Keyslot>, newer: seq<Keyslot>, k: nat)
    requires Leftover(left) && Leftover(newer) && k <= |newer|
    ensures Leftover(Overlay(left, newer[..k]))
  {
  }

  lemma EnrolledLeftover(env: Env, i: Enrolment)
    ensures Leftover(EnrolledSlots(env, i)) && SlotCount(env, i) == if i.usbKeyfile.Some? then 2 else 1
  {
  }

  /** The first `k` slot writes lay the first `k` slots over those left. */
  lemma {:induction false} SlotsLaid(env: Env, s: StoreState, slots: seq<Keyslot>, ws: seq<Write>, k: nat)
    requires Leftover(s.keyslots) && Leftover(slots) && k <= |slots|
    requires |ws| == |slots| && forall j :: 0 <= j < |slots| ==> ws[j] == WriteSlot(slots[j])
    ensures ApplyAll(env, s, ws[..k]) == s.(keyslots := Overlay(s.keyslots, slots[..k]))
  {
    if k == 0 {
      assert ws[..0] == [];
      assert Overlay(s.keyslots, slots[..0]) == s.keyslots;
    } else {
      SlotsLaid(env, s, slots, ws, k - 1);
      ApplyUpTo(env, s, ws, k);
      UpsertNext(s.keyslots, slots, k - 1);
    }
  }

  lemma SlotsStored(env: Env, s: StoreState, i: Enrolment, k: nat)
    requires Leftover(s.keyslots) && k <= SlotCount(env, i)
    ensures k <= |SlotWrites(EnrolledSlots(env, i))|
    ensures var slots := Overlay(s.keyslots, EnrolledSlots(env, i)[..k]);
            Leftover(slots) && ApplyAll(env, s, SlotWrites(EnrolledSlots(env, i))[..k]) == s.(keyslots := slots)
  {
    SlotWritesAre(EnrolledSlots(env, i));
    EnrolledLeftover(env, i);
    OverlayLeftover(s.keyslots, EnrolledSlots(env, i), k);
    SlotsLaid(env, s, EnrolledSlots(env, i), SlotWrites(EnrolledSlots(env, i)), k);
  }

  /** What a successful init stores before its audit row, over slots left by earlier ones. */
  function InitStored(env: Env, s: StoreState, g: Genesis): StoreState {
    EMPTY.(audit := s.audit, keyslots := Overlay(s.keyslots, EnrolledSlots(env, g.enrolment)),
           meta := map[MetaHeaderMac := HexText(HeaderMac(env, g.enrolment.dek, EnrolledSlots(env, g.enrolment),
                                                          g.floorMs)),
                       MetaIssuanceFloor := Decimal(g.floorMs), MetaDekGeneration := Decimal(DEK_GENERATION)])
  }

  lemma HeaderStored(env: Env, s: StoreState, i: Enrolment, floorMs: I64)
    ensures var ws := HeaderWrites(env, i, floorMs);
            ApplyAll(env, s, ws) == Apply(env, Apply(env, Apply(env, s, ws[0]), ws[1]), ws[2])
  {
    var ws := HeaderWrites(env, i, floorMs);
    assert ws[..3] == ws && ws[..0] == [];
    ApplyUpTo(env, s, ws, 1);
    ApplyUpTo(env, s, ws, 2);
    ApplyUpTo(env, s, ws, 3);
  }

  lemma InitStores(env: Env, s: Snap, g: Genesis)
    requires Blank(env, s)
    ensures ApplyAll(env, s.store, SlotWrites(EnrolledSlots(env, g.enrolment)) +
                     HeaderWrites(env, g.enrolment, g.floorMs))
         == InitStored(env, s.store, g)
  {
    var slots := SlotWrites(EnrolledSlots(env, g.enrolment));
    SlotWritesAre(EnrolledSlots(env, g.enrolment));
    SlotsStored(env, s.store, g.enrolment, SlotCount(env, g.enrolment));
    assert slots[..|slots|] == slots;
    assert EnrolledSlots(env, g.enrolment)[..SlotCount(env, g.enrolment)] == EnrolledSlots(env, g.enrolment);
    ApplyConcat(env, s.store, slots, HeaderWrites(env, g.enrolment, g.floorMs));
    HeaderStored(env, ApplyAll(env, s.store, slots), g.enrolment, g.floorMs);
  }

  /** With nothing stale the enrolled slots are all the slots. */
  lemma NothingStale(env: Env, slots: seq<Keyslot>, i: Enrolment)
    requires Leftover(slots) && !Stale(slots, i)
    ensures Overlay(slots, EnrolledSlots(env, i)) == EnrolledSlots(env, i)
  {
    EnrolledLeftover(env, i);
  }

  /** What an init that is not refused leaves: its header, its slots over those left, an anchored row. */
  lemma InitLeaves(env: Env, s: Snap, at: Reading, i: Enrolment)
    requires Blank(env, s) && InitRefusal(s.store, i).None? && |s.store.audit| < I64_MAX
    ensures var t, u := After(env, s, InitEffect(env, s, at, i)), InitStored(env, s.store, Genesis(i, at.nowMs));
      && t.vault.Locked? && t.store == u.(audit := t.store.audit, meta := t.store.meta)
      && ChainOk(env, t.store.audit) && |t.store.audit| == |s.store.audit| + 1 && s.store.audit <= t.store.audit
      && Anchored(env, t.store, i.dek, |t.store.audit|)
      && forall k :: k != MetaHighWater && k != MetaAuditHead ==> Meta(t.store, k) == Meta(u, k)
  {
    var g, e := Genesis(i, at.nowMs), InitEffect(env, s, at, i);
    InitStores(env, s, g);
    var t := InitStored(env, s.store, g);
    AuditStep(env, t, e.row.value, Some(i.dek));
    ApplyConcat(env, s.store, e.core, AuditWrites(env, t, e.row.value, e.key));
    assert After(env, s, e).store == ApplyAll(env, t, AuditWrites(env, t, e.row.value, Some(i.dek)));
  }

  /**
   An init that is not refused, over a blank store with nothing stale, makes a live vault: locked,
   anchored at its `vault_init` row.
   */
  lemma InitGoesLive(env: Env, s: Snap, at: Reading, i: Enrolment)
    requires Blank(env, s) && InitRefusal(s.store, i).None? && !Stale(s.store.keyslots, i) && |s.store.audit| < I64_MAX
    ensures var t := After(env, s, InitEffect(env, s, at, i));
      && Live(env, Genesis(i, at.nowMs), t) && t.vault.Locked?
      && |t.store.audit| == |s.store.audit| + 1 && Small(t.store, |s.store.audit| + 1)
      && s.store.audit <= t.store.audit
  {
    var g := Genesis(i, at.nowMs);
    InitLeaves(env, s, at, i);
    NothingStale(env, s.store.keyslots, i);
    var t := After(env, s, InitEffect(env, s, at, i)).store;
    InitHonest(env, g, InitStored(env, s.store, g), t);
    assert Stands(env, t, i.dek, |t.audit|);
  }

  lemma InitHonest(env: Env, g: Genesis, t: StoreState, u: StoreState)
    requires t == InitStored(env, t, g) && t.keyslots == EnrolledSlots(env, g.enrolment)
    requires u == t.(audit := u.audit, meta := u.meta) && ChainOk(env, u.audit)
    requires AboveFloors(g.enrolment.params) && ArgonAccepts(g.enrolment.params, g.enrolment.passphraseSalt)
    requires g.enrolment.usbKeyfile.Some? ==> g.enrolment.usbUuid.Some?
    requires forall k :: k != MetaHighWater && k != MetaAuditHead ==> Meta(u, k) == Meta(t, k)
    ensures Honest(env, g, u)
  {
  }

  lemma InitWrites(env: Env, s: Snap, at: Reading, i: Enrolment)
    requires InitRefusal(s.store, i).None?
    ensures var e := InitEffect(env, s, at, i);
      && e.core == SlotWrites(EnrolledSlots(env, i)) + HeaderWrites(env, i, at.nowMs)
      && e.row.Some? && e.key == Some(i.dek) && e.core <= Writes(env, s.store, e)
  {
  }

  /**
   Cut past its header, an init leaves the header, its slots over those left before it, and a log whose
   anchor stands.
   */
  lemma InitCutPast(env: Env, s: Snap, at: Reading, i: Enrolment, k: nat)
    requires Blank(env, s) && InitRefusal(s.store, i).None? && |s.store.audit| < I64_MAX
    requires SlotCount(env, i) + 3 <= k <= |Writes(env, s.store, InitEffect(env, s, at, i))|
    ensures InitPast(env, s.store, Genesis(i, at.nowMs), CutAt(env, s.store, InitEffect(env, s, at, i), k))
  {
    InitWrites(env, s, at, i);
    SlotWritesAre(EnrolledSlots(env, i));
    PastCut(env, s, Genesis(i, at.nowMs), InitEffect(env, s, at, i), k);
  }

  ghost predicate InitPast(env: Env, s: StoreState, g: Genesis, cut: StoreState) {
    var u := InitStored(env, s, g);
    && cut == u.(audit := cut.audit, meta := cut.meta)
    && ChainOk(env, cut.audit) && s.audit <= cut.audit && |cut.audit| <= |s.audit| + 1
    && StandsFrom(env, cut, g.enrolment.dek, 0)
    && forall k :: k != MetaHighWater && k != MetaAuditHead ==> Meta(cut, k) == Meta(u, k)
  }

  lemma PastCut(env: Env, s: Snap, g: Genesis, e: Effect, k: nat)
    requires Blank(env, s) && |s.store.audit| < I64_MAX
    requires e.core == SlotWrites(EnrolledSlots(env, g.enrolment)) + HeaderWrites(env, g.enrolment, g.floorMs)
    requires e.row.Some? && e.key == Some(g.enrolment.dek) && |e.core| <= k <= |Writes(env, s.store, e)|
    ensures InitPast(env, s.store, g, CutAt(env, s.store, e, k))
  {
    InitStores(env, s, g);
    CutPastCore(env, s.store, e, k);
    InitEventCut(env, s.store, g, InitStored(env, s.store, g), e.row.value, k - |e.core|);
  }

  lemma InitEventCut(env: Env, s: StoreState, g: Genesis, t: StoreState, rec: AuditRecord, j: nat)
    requires t == InitStored(env, s, g) && ChainOk(env, s.audit) && |s.audit| < I64_MAX
    requires j <= |AuditWrites(env, t, rec, Some(g.enrolment.dek))|
    ensures InitPast(env, s, g, ApplyAll(env, t, AuditWrites(env, t, rec, Some(g.enrolment.dek))[..j]))
  {
    EventKeeps(env, t, rec, g.enrolment.dek, j);
    var m := HeadlessPoints(env, t, rec, g.enrolment.dek, 0, j);
  }

  /** Cut past its header, an init over nothing stale makes a live vault. */
  lemma InitCutLive(env: Env, s: Snap, at: Reading, i: Enrolment, k: nat)
    requires Blank(env, s) && InitRefusal(s.store, i).None? && !Stale(s.store.keyslots, i) && |s.store.audit| < I64_MAX
    requires SlotCount(env, i) + 3 <= k <= |Writes(env, s.store, InitEffect(env, s, at, i))|
    ensures var cut := CutAt(env, s.store, InitEffect(env, s, at, i), k);
      && Live(env, Genesis(i, at.nowMs), Snap(cut, Locked, map[])) && Small(cut, |s.store.audit| + 1)
      && s.store.audit <= cut.audit
  {
    InitCutPast(env, s, at, i, k);
    NothingStale(env, s.store.keyslots, i);
    InitHonest(env, Genesis(i, at.nowMs), InitStored(env, s.store, Genesis(i, at.nowMs)),
               CutAt(env, s.store, InitEffect(env, s, at, i), k));
  }

  /** The writes an init makes of its own. */
  predicate SetsUpWrite(w: Write) { w.WriteSlot? || (w.WriteMeta? && w.key != MetaAuditHead && w.key != MetaHighWater) }

  lemma InitCoreKinds(env: Env, s: Snap, at: Reading, i: Enrolment)
    ensures forall k :: 0 <= k < |InitEffect(env, s, at, i).core| ==> SetsUpWrite(InitEffect(env, s, at, i).core[k])
  {
    SlotWritesAre(EnrolledSlots(env, i));
  }

  /** Cut before its header, an init leaves a blank store, with the slots it got to laid over those left. */
  lemma InitCutBlank(env: Env, s: Snap, at: Reading, i: Enrolment, k: nat)
    requires Blank(env, s) && InitRefusal(s.store, i).None? && k <= SlotCount(env, i)
    ensures k <= |Writes(env, s.store, InitEffect(env, s, at, i))|
    ensures CutAt(env, s.store, InitEffect(env, s, at, i), k)
         == s.store.(keyslots := Overlay(s.store.keyslots, EnrolledSlots(env, i)[..k]))
    ensures Leftover(Overlay(s.store.keyslots, EnrolledSlots(env, i)[..k]))
  {
    InitWrites(env, s, at, i);
    SlotsCut(env, s.store, InitEffect(env, s, at, i), i, HeaderWrites(env, i, at.nowMs), k);
  }

  lemma SlotsCut(env: Env, s: StoreState, e: Effect, i: Enrolment, header: seq<Write>, k: nat)
    requires Leftover(s.keyslots) && k <= SlotCount(env, i)
    requires e.core == SlotWrites(EnrolledSlots(env, i)) + header && e.core <= Writes(env, s, e)
    ensures k <= |Writes(env, s, e)|
    ensures CutAt(env, s, e, k) == s.(keyslots := Overlay(s.keyslots, EnrolledSlots(env, i)[..k]))
    ensures Leftover(Overlay(s.keyslots, EnrolledSlots(env, i)[..k]))
  {
    SlotWritesAre(EnrolledSlots(env, i));
    SlotsStored(env, s, i, k);
    assert Writes(env, s, e)[..k] == e.core[..k] == SlotWrites(EnrolledSlots(env, i))[..k];
  }
}
