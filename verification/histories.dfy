/**
 Whole histories from an empty store: calls, and crashes that cut a call short after any of its
 writes and restart the engine. One invariant holds at every point of every such history.
 */
module Histories {
  import opened Bytes
  import opened Environment
  import opened Audit
  import opened Store
  import opened Anchors
  import opened Effects
  import opened Invariants
  import opened Unlocking
  import opened Preservation
  import opened Runs

  datatype Happening =
    | Completed(call: Call)
    | Crashed(call: Call, writes: nat)

  function Next(env: Env, s: Snap, x: Happening): Snap {
    var e := EffectOf(env, s, x.call);
    match x
    case Completed(_) => After(env, s, e)
    case Crashed(_, k) => Snap(CutAt(env, s.store, e, Min(k, |Writes(env, s.store, e)|)), Locked, map[])
  }

  function Run(env: Env, xs: seq<Happening>): Snap {
    if xs == [] then START else Next(env, Run(env, xs[..|xs| - 1]), xs[|xs| - 1])
  }

  /** The call is an init that is not refused. */
  predicate SetsUp(s: StoreState, op: Op) { op.OpInit? && InitRefusal(s, op.enrolment).None? }

  /** The happening sets up the vault: an init that got past its header. */
  predicate Founds(env: Env, s: StoreState, x: Happening) {
    SetsUp(s, x.call.op) && (x.Completed? || x.writes >= SlotCount(env, x.call.op.enrolment) + 3)
  }

  /**
   What a history is assumed to respect: token ids are not drawn twice; a crash does not fall between
   the two anchor writes over an earlier head; and no init is cut within its header, nor sets up the
   vault over a stale slot.
   */
  predicate Admitted(env: Env, s: Snap, x: Happening) {
    && FreshToken(s.store, x.call.op)
    && (if SetsUp(s.store, x.call.op) then SetUpAdmitted(env, s.store, x)
        else x.Crashed? ==> !Tears(s.store, EffectOf(env, s, x.call), x.writes))
  }

  predicate SetUpAdmitted(env: Env, s: StoreState, x: Happening)
    requires SetsUp(s, x.call.op)
  {
    if Founds(env, s, x) then !Stale(s.keyslots, x.call.op.enrolment)
    else x.writes <= SlotCount(env, x.call.op.enrolment)
  }

  predicate Orderly(env: Env, xs: seq<Happening>) {
    xs == [] || (Orderly(env, xs[..|xs| - 1]) && Admitted(env, Run(env, xs[..|xs| - 1]), xs[|xs| - 1]))
  }

  /** The vault a happening finds or sets up. */
  function GenesisNext(env: Env, g: Option<Genesis>, s: StoreState, x: Happening): Option<Genesis> {
    if g.Some? then g
    else if Founds(env, s, x) then Some(Genesis(x.call.op.enrolment, x.call.at.nowMs))
    else None
  }

  /** The enrolment that set up the vault of a history. */
  function GenesisOf(env: Env, xs: seq<Happening>): Option<Genesis> {
    if xs == [] then None
    else GenesisNext(env, GenesisOf(env, xs[..|xs| - 1]), Run(env, xs[..|xs| - 1]).store, xs[|xs| - 1])
  }

  /** How many writes of its call a happening gets through. */
  function Reached(env: Env, s: StoreState, e: Effect, x: Happening): (k: nat)
    ensures k <= |Writes(env, s, e)|
  {
    if x.Completed? then |Writes(env, s, e)| else Min(x.writes, |Writes(env, s, e)|)
  }

  lemma NextIsCut(env: Env, s: Snap, e: Effect, x: Happening)
    requires e == EffectOf(env, s, x.call)
    ensures Next(env, s, x).store == CutAt(env, s.store, e, Reached(env, s.store, e, x))
  {
    var ws := Writes(env, s.store, e);
    assert ws[..|ws|] == ws;
  }

  // ---- one step ----

  lemma LiveNext(env: Env, g: Genesis, s: Snap, x: Happening, n: nat)
    requires IdealAead(env) && Live(env, g, s) && Small(s.store, n) && n < U32_MAX && Admitted(env, s, x)
    ensures Live(env, g, Next(env, s, x)) && Small(Next(env, s, x).store, n + 1)
    ensures Grows(s.store, Next(env, s, x).store)
    ensures StandsFrom(env, Next(env, s, x).store, g.enrolment.dek, MarkOf(s.store))
  {
    var e := EffectOf(env, s, x.call);
    CallProper(env, g, s, x.call, e, n);
    ProperNext(env, g, s, e, x, n);
  }

  lemma ProperNext(env: Env, g: Genesis, s: Snap, e: Effect, x: Happening, n: nat)
    requires Live(env, g, s) && Proper(env, g, s, e, n) && Small(s.store, n) && n < U32_MAX && Admitted(env, s, x)
    requires e == EffectOf(env, s, x.call)
    ensures Live(env, g, Next(env, s, x)) && Small(Next(env, s, x).store, n + 1)
    ensures Grows(s.store, Next(env, s, x).store)
    ensures StandsFrom(env, Next(env, s, x).store, g.enrolment.dek, MarkOf(s.store))
  {
    NextIsCut(env, s, e, x);
    ProperCut(env, g, s, e, n, Reached(env, s.store, e, x));
    if x.Completed? {
      ProperKeepsLive(env, g, s, e, n);
    }
  }

  lemma BlankStays(env: Env, s: Snap, x: Happening, e: Effect, t: Snap, n: nat)
    requires Blank(env, s) && Small(s.store, n) && n < U32_MAX && !SetsUp(s.store, x.call.op)
    requires e == EffectOf(env, s, x.call) && t == Next(env, s, x)
    ensures Small(t.store, n + 1) && s.store.audit <= t.store.audit && Blank(env, t)
  {
    BlankEffect(env, s, x.call);
    NextIsCut(env, s, e, x);
    BlankCut(env, s, e, Reached(env, s.store, e, x));
  }

  lemma InitNext(env: Env, s: Snap, x: Happening, t: Snap, n: nat)
    requires Blank(env, s) && Small(s.store, n) && n < U32_MAX && SetsUp(s.store, x.call.op)
    requires SetUpAdmitted(env, s.store, x) && t == Next(env, s, x)
    ensures Small(t.store, n + 1) && s.store.audit <= t.store.audit
    ensures if Founds(env, s.store, x) then Live(env, Genesis(x.call.op.enrolment, x.call.at.nowMs), t)
            else Blank(env, t)
  {
    var at, i := x.call.at, x.call.op.enrolment;
    var e := EffectOf(env, s, x.call);
    NextIsCut(env, s, e, x);
    if x.Completed? {
      InitGoesLive(env, s, at, i);
    } else if Founds(env, s.store, x) {
      InitCutLive(env, s, at, i, Reached(env, s.store, e, x));
    } else {
      InitCutBlank(env, s, at, i, x.writes);
    }
  }

  lemma BlankNext(env: Env, s: Snap, x: Happening, t: Snap, n: nat)
    requires Blank(env, s) && Small(s.store, n) && n < U32_MAX && Admitted(env, s, x) && t == Next(env, s, x)
    ensures Small(t.store, n + 1) && s.store.audit <= t.store.audit
    ensures if Founds(env, s.store, x) then Live(env, Genesis(x.call.op.enrolment, x.call.at.nowMs), t)
            else Blank(env, t)
  {
    if SetsUp(s.store, x.call.op) {
      InitNext(env, s, x, t, n);
    } else {
      BlankStays(env, s, x, EffectOf(env, s, x.call), t, n);
    }
  }

  // ---- the invariant ----

  lemma InvariantNext(env: Env, g: Option<Genesis>, s: Snap, x: Happening, t: Snap, n: nat)
    requires IdealAead(env) && Small(s.store, n) && n < U32_MAX && Admitted(env, s, x) && t == Next(env, s, x)
    requires if g.None? then Blank(env, s) else Live(env, g.value, s)
    ensures Small(t.store, n + 1)
    ensures var g' := GenesisNext(env, g, s.store, x); if g'.None? then Blank(env, t) else Live(env, g'.value, t)
  {
    match g
    case None => BlankNext(env, s, x, t, n);
    case Some(g) => LiveNext(env, g, s, x, n);
  }

  /** At every point of every history the store is blank or the vault is live. */
  lemma {:induction false} HistoryInvariant(env: Env, xs: seq<Happening>)
    requires IdealAead(env) && Orderly(env, xs) && |xs| <= U32_MAX
    ensures Small(Run(env, xs).store, |xs|)
    ensures match GenesisOf(env, xs)
            case None => Blank(env, Run(env, xs))
            case Some(g) => Live(env, g, Run(env, xs))
  {
    if xs != [] {
      var front, x := xs[..|xs| - 1], xs[|xs| - 1];
      HistoryInvariant(env, front);
      InvariantNext(env, GenesisOf(env, front), Run(env, front), x, Run(env, xs), |front|);
    }
  }

  // ---- growth ----

  lemma {:induction false} OrderlyPrefix(env: Env, xs: seq<Happening>, k: nat)
    requires Orderly(env, xs) && k <= |xs|
    ensures Orderly(env, xs[..k])
    decreases |xs|
  {
    if k == |xs| {
      assert xs[..k] == xs;
    } else {
      OrderlyPrefix(env, xs[..|xs| - 1], k);
      assert xs[..|xs| - 1][..k] == xs[..k];
    }
  }

  /** The log only grows, whatever happens. */
  lemma {:induction false} LogGrows(env: Env, xs: seq<Happening>, k: nat)
    requires IdealAead(env) && Orderly(env, xs) && |xs| <= U32_MAX && k <= |xs|
    ensures Run(env, xs[..k]).store.audit <= Run(env, xs).store.audit
    decreases |xs|
  {
    if k == |xs| {
      assert xs[..k] == xs;
    } else {
      var front, x := xs[..|xs| - 1], xs[|xs| - 1];
      LogGrows(env, front, k);
      assert front[..k] == xs[..k];
      HistoryInvariant(env, front);
      match GenesisOf(env, front)
      case None => BlankNext(env, Run(env, front), x, Run(env, xs), |front|);
      case Some(g) => LiveNext(env, g, Run(env, front), x, |front|);
    }
  }

  /** Once there is a vault it stays that vault, loses nothing, and its high-water mark never falls. */
  lemma {:induction false} HistoryGrows(env: Env, xs: seq<Happening>, k: nat)
    requires IdealAead(env) && Orderly(env, xs) && |xs| <= U32_MAX && k <= |xs|
    requires GenesisOf(env, xs[..k]).Some?
    ensures GenesisOf(env, xs) == GenesisOf(env, xs[..k])
    ensures Grows(Run(env, xs[..k]).store, Run(env, xs).store)
    ensures StoredHighWater(Run(env, xs[..k]).store) <= StoredHighWater(Run(env, xs).store)
    ensures MetaAuditHead in Run(env, xs[..k]).store.meta ==> MetaAuditHead in Run(env, xs).store.meta
    decreases |xs|
  {
    if k == |xs| {
      assert xs[..k] == xs;
      GrowsReflexive(Run(env, xs).store);
    } else {
      var front, x := xs[..|xs| - 1], xs[|xs| - 1];
      assert front[..k] == xs[..k];
      HistoryGrows(env, front, k);
      HistoryInvariant(env, front);
      var g := GenesisOf(env, front).value;
      LiveNext(env, g, Run(env, front), x, |front|);
      GrowsTransitive(Run(env, xs[..k]).store, Run(env, front).store, Run(env, xs).store);
      MarkRises(env, g, Run(env, front), Run(env, xs));
      MetaStays(env, Run(env, front), x, MetaAuditHead);
    }
  }

  /** No happening removes a meta key. */
  lemma MetaStays(env: Env, s: Snap, x: Happening, k: MetaKey)
    ensures k in s.store.meta ==> k in Next(env, s, x).store.meta
  {
    var e := EffectOf(env, s, x.call);
    NextIsCut(env, s, e, x);
    if k in s.store.meta {
      MetaKept(env, s.store, Writes(env, s.store, e)[..Reached(env, s.store, e, x)], k);
    }
  }

  lemma MarkRises(env: Env, g: Genesis, s: Snap, t: Snap)
    requires Live(env, g, s) && StandsFrom(env, t.store, g.enrolment.dek, MarkOf(s.store))
    ensures StoredHighWater(s.store) <= StoredHighWater(t.store)
  {
    var a: nat :| MarkOf(s.store) <= a && Stands(env, t.store, g.enrolment.dek, a);
    MarkIsAnchor(env, t.store, g.enrolment.dek, a);
  }

  // ---- the log and its anchor ----

  /**
   At every point of every history with a vault, the chain verifies and the high-water mark lies within
   it, at its tail while unlocked; the stored head is the MAC over the row at the mark; so the verifier
   accepts. There is no head yet only on a locked vault.
   */
  lemma AnchorInvariant(env: Env, xs: seq<Happening>)
    requires IdealAead(env) && Orderly(env, xs) && |xs| <= U32_MAX && GenesisOf(env, xs).Some?
    ensures var s, dek := Run(env, xs), GenesisOf(env, xs).value.enrolment.dek; var mark := StoredHighWater(s.store);
      && ChainOk(env, s.store.audit) && 0 <= mark <= |s.store.audit| && AnchorAccepts(env, dek, s.store)
      && (MetaAuditHead in s.store.meta ==> Anchored(env, s.store, dek, mark))
      && (s.vault.Unlocked? ==> MetaAuditHead in s.store.meta && mark == |s.store.audit|)
  {
    HistoryInvariant(env, xs);
    var s, g := Run(env, xs), GenesisOf(env, xs).value;
    LiveAccepted(env, g, s, |xs|);
  }

  /** Where the init that sets up the vault finishes there is a head from then on. */
  lemma FinishedInitHasHead(env: Env, xs: seq<Happening>, k: nat)
    requires IdealAead(env) && Orderly(env, xs) && |xs| <= U32_MAX && k < |xs|
    requires GenesisOf(env, xs[..k]).None? && GenesisOf(env, xs[..k + 1]).Some? && xs[k].Completed?
    ensures MetaAuditHead in Run(env, xs).store.meta
  {
    var upTo := xs[..k + 1];
    assert upTo[..k] == xs[..k];
    OrderlyPrefix(env, xs, k);
    HistoryInvariant(env, xs[..k]);
    FinishedInitAnchors(env, Run(env, xs[..k]), xs[k], Run(env, upTo), k);
    HistoryGrows(env, xs, k + 1);
  }

  lemma FinishedInitAnchors(env: Env, s: Snap, x: Happening, t: Snap, n: nat)
    requires Blank(env, s) && Small(s.store, n) && n < U32_MAX && Founds(env, s.store, x) && x.Completed?
    requires t == Next(env, s, x)
    ensures MetaAuditHead in t.store.meta
  {
    InitLeaves(env, s, x.call.at, x.call.op.enrolment);
  }

  lemma LiveAccepted(env: Env, g: Genesis, s: Snap, n: nat)
    requires Live(env, g, s) && Small(s.store, n) && n <= U32_MAX
    ensures var mark := MarkOf(s.store);
      mark == StoredHighWater(s.store) <= |s.store.audit| && Stands(env, s.store, g.enrolment.dek, mark)
    ensures s.vault.Unlocked? ==> MetaAuditHead in s.store.meta && MarkOf(s.store) == |s.store.audit|
    ensures AnchorAccepts(env, g.enrolment.dek, s.store)
  {
    var a: nat :| Stands(env, s.store, g.enrolment.dek, a);
    MarkIsAnchor(env, s.store, g.enrolment.dek, a);
    StandingAccepted(env, s.store, g.enrolment.dek);
    if s.vault.Unlocked? {
      MarkIsAnchor(env, s.store, s.vault.dek, |s.store.audit|);
    }
  }

  /**
   Unlocking at any point of any history: it succeeds exactly with a credential that derives an
   enrolled key, it yields the enrolled DEK, and the log is never what refuses it.
   */
  lemma UnlockExactly(env: Env, xs: seq<Happening>, at: Reading, c: Credential)
    requires IdealAead(env) && Orderly(env, xs) && |xs| <= U32_MAX && GenesisOf(env, xs).Some?
    requires Run(env, xs).vault.Locked?
    ensures var s, i := Run(env, xs), GenesisOf(env, xs).value.enrolment; var e := UnlockEffect(env, s, at, c);
      && e.vault == (if Opens(env, i, c, at.usb) then Unlocked(i.dek) else Locked)
      && e.reply == (if Opens(env, i, c, at.usb) then Done else Failure(UnlockFailed))
  {
    HistoryInvariant(env, xs);
    var g := GenesisOf(env, xs).value;
    LiveAccepted(env, g, Run(env, xs), |xs|);
    UnlockHonest(env, g, Run(env, xs), at, c);
  }

  /** The factors given at init open the vault ever after. */
  lemma EnrolledFactorsUnlock(env: Env, xs: seq<Happening>, at: Reading)
    requires IdealAead(env) && Orderly(env, xs) && |xs| <= U32_MAX && GenesisOf(env, xs).Some?
    requires Run(env, xs).vault.Locked?
    ensures var s, i := Run(env, xs), GenesisOf(env, xs).value.enrolment;
      && UnlockEffect(env, s, at, ByPassphrase(i.passphrase)).vault == Unlocked(i.dek)
      && (i.usbKeyfile.Some? && i.usbUuid.Some? && i.usbUuid.value in at.usb &&
          at.usb[i.usbUuid.value] == i.usbKeyfile.value ==>
            UnlockEffect(env, s, at, ByUsb).vault == Unlocked(i.dek))
  {
    UnlockExactly(env, xs, at, ByPassphrase(GenesisOf(env, xs).value.enrolment.passphrase));
    UnlockExactly(env, xs, at, ByUsb);
  }

  /**
   The writer's own assertion: whenever a call anchors its row, the mark it writes is that row's
   number. It holds for every call at every point of every history, the init included.
   */
  lemma AnchorAssertionHolds(env: Env, xs: seq<Happening>, c: Call)
    requires IdealAead(env) && Orderly(env, xs) && |xs| < U32_MAX && FreshToken(Run(env, xs).store, c.op)
    requires var e := EffectOf(env, Run(env, xs), c); e.row.Some? && e.key.Some?
    ensures var s, e := Run(env, xs).store, EffectOf(env, Run(env, xs), c);
            var t := Apply(env, ApplyAll(env, s, e.core), WriteRow(e.row.value));
            Max(StoredHighWater(t), TailSeq(t.audit)) == TailSeq(t.audit) == |s.audit| + 1
  {
    var s, e := Run(env, xs), EffectOf(env, Run(env, xs), c);
    HistoryInvariant(env, xs);
    if GenesisOf(env, xs).None? && !SetsUp(s.store, c.op) {
      BlankEffect(env, s, c);
    }
    var t := ReadyAtStep(env, xs, c, e);
    RowMark(env, t, e.row.value);
  }

  /** Before any call the log is ready for the row of the call, whether or not there is a vault yet. */
  lemma ReadyAtStep(env: Env, xs: seq<Happening>, c: Call, e: Effect) returns (t: StoreState)
    requires IdealAead(env) && Orderly(env, xs) && |xs| < U32_MAX && FreshToken(Run(env, xs).store, c.op)
    requires e == EffectOf(env, Run(env, xs), c) && (GenesisOf(env, xs).Some? || SetsUp(Run(env, xs).store, c.op))
    ensures t == ApplyAll(env, Run(env, xs).store, e.core) && t.audit == Run(env, xs).store.audit
    ensures ChainOk(env, t.audit) && |t.audit| < I64_MAX && StoredHighWater(t) <= |t.audit|
    ensures var g := GenesisOf(env, xs);
            e.key.Some? ==> e.key.value == if g.Some? then g.value.enrolment.dek else c.op.enrolment.dek
  {
    HistoryInvariant(env, xs);
    match GenesisOf(env, xs)
    case None => t := ReadyForInit(env, Run(env, xs), c, e, |xs|);
    case Some(g) =>
      CallProper(env, g, Run(env, xs), c, e, |xs|);
      t := ReadyForRow(env, g, Run(env, xs), e, |xs|);
  }

  lemma ReadyForInit(env: Env, s: Snap, c: Call, e: Effect, n: nat) returns (t: StoreState)
    requires Blank(env, s) && Small(s.store, n) && n < U32_MAX && SetsUp(s.store, c.op) && e == EffectOf(env, s, c)
    ensures t == ApplyAll(env, s.store, e.core) && t.audit == s.store.audit && e.key == Some(c.op.enrolment.dek)
    ensures ChainOk(env, t.audit) && |t.audit| < I64_MAX && StoredHighWater(t) <= |t.audit|
  {
    InitStores(env, s, Genesis(c.op.enrolment, c.at.nowMs));
    t := InitStored(env, s.store, Genesis(c.op.enrolment, c.at.nowMs));
  }

  lemma RowMark(env: Env, t: StoreState, rec: AuditRecord)
    requires ChainOk(env, t.audit) && |t.audit| < I64_MAX && StoredHighWater(t) <= |t.audit|
    ensures var u := Apply(env, t, WriteRow(rec));
      StoredHighWater(u) == StoredHighWater(t) &&
          Max(StoredHighWater(u), TailSeq(u.audit)) == TailSeq(u.audit) == |t.audit| + 1
  {
    LinkExtends(env, t.audit, rec);
  }
}
