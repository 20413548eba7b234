/** Tamper evidence at every point of every history, against a holder of every anchor ever written. */
module Tampering {
  import opened Bytes
  import opened Environment
  import opened Audit
  import opened Store
  import opened Anchors
  import opened Effects
  import opened Invariants
  import opened Unlocking
  import opened Preservation
  import opened Runs
  import opened Histories

  /** Some call of the history, finished or cut, wrote this text as the head. */
  predicate HeadWritten(env: Env, xs: seq<Happening>, text: Text) {
    xs != [] &&
    var front, x := xs[..|xs| - 1], xs[|xs| - 1];
    HeadWritten(env, front, text) || HeadInStep(env, Run(env, front), EffectOf(env, Run(env, front), x.call), x, text)
  }

  predicate HeadInStep(env: Env, s: Snap, e: Effect, x: Happening, text: Text) {
    exists k :: 0 <= k < Reached(env, s.store, e, x) && Writes(env, s.store, e)[k] == WriteMeta(MetaAuditHead, text)
  }

  predicate NoHeadWrites(ws: seq<Write>) {
    forall k :: 0 <= k < |ws| ==> !(ws[k].WriteMeta? && ws[k].key == MetaAuditHead)
  }

  /** The only head a call writes is its last write, and it anchors the call's own row. */
  lemma HeadIsLast(env: Env, s: Snap, e: Effect, k: nat, text: Text)
    requires NoHeadWrites(e.core) && k < |Writes(env, s.store, e)|
    requires Writes(env, s.store, e)[k] == WriteMeta(MetaAuditHead, text)
    ensures e.row.Some? && e.key.Some? && k + 1 == |Writes(env, s.store, e)|
    ensures var t := Apply(env, ApplyAll(env, s.store, e.core), WriteRow(e.row.value));
            text == HeadText(env, e.key.value, Max(StoredHighWater(t), TailSeq(t.audit)), TailHash(t.audit))
  {
    assert forall j :: 0 <= j < |e.core| ==> Writes(env, s.store, e)[j] == e.core[j];
  }

  /** The audit of a finished call ends in its row. */
  lemma FinishedAudit(env: Env, t: StoreState, rec: AuditRecord, key: Option<Dek>)
    requires ChainOk(env, t.audit) && |t.audit| < I64_MAX && StoredHighWater(t) <= |t.audit|
    ensures ApplyAll(env, t, AuditWrites(env, t, rec, key)).audit == Apply(env, t, WriteRow(rec)).audit
  {
    AuditStep(env, t, rec, key);
  }

  lemma LiveCoreNoHead(e: Effect)
    requires AllOffLog(e.core)
    ensures NoHeadWrites(e.core)
  {
    forall k | 0 <= k < |e.core| ensures !(e.core[k].WriteMeta? && e.core[k].key == MetaAuditHead) {
      assert OffLog(e.core[k]);
    }
  }

  lemma InitCoreNoHead(env: Env, s: Snap, c: Call, e: Effect)
    requires SetsUp(s.store, c.op) && e == EffectOf(env, s, c)
    ensures NoHeadWrites(e.core) && e.row.Some? && e.key == Some(c.op.enrolment.dek)
  {
    InitCoreKinds(env, s, c.at, c.op.enrolment);
    assert forall k :: 0 <= k < |e.core| ==> SetsUpWrite(e.core[k]);
  }

  /** A head written by a step is the anchor of the last row it leaves. */
  lemma StepHeadIssued(env: Env, dek: Dek, s: Snap, e: Effect, x: Happening, t: StoreState, text: Text)
    requires NoHeadWrites(e.core) && (e.key.Some? ==> e.key.value == dek)
    requires t == ApplyAll(env, s.store, e.core) && ChainOk(env, t.audit) && |t.audit| < I64_MAX
    requires StoredHighWater(t) <= |t.audit|
    requires HeadInStep(env, s, e, x, text)
    ensures var u := CutAt(env, s.store, e, Reached(env, s.store, e, x));
            u.audit != [] && IssuedHead(env, dek, u.audit, text, |u.audit|)
  {
    var k :| 0 <= k < Reached(env, s.store, e, x) && Writes(env, s.store, e)[k] == WriteMeta(MetaAuditHead, text);
    HeadIsLast(env, s, e, k, text);
    var ws := Writes(env, s.store, e);
    assert ws[..|ws|] == ws;
    ApplyConcat(env, s.store, e.core, AuditWrites(env, t, e.row.value, e.key));
    FinishedAudit(env, t, e.row.value, e.key);
    RowMark(env, t, e.row.value);
  }

  lemma IssuedStaysIssued(env: Env, dek: Dek, rows: seq<AuditRecord>, longer: seq<AuditRecord>, text: Text, m: nat)
    requires IssuedHead(env, dek, rows, text, m) && rows <= longer
    ensures IssuedHead(env, dek, longer, text, m)
  {
    assert longer[m - 1] == rows[m - 1];
  }

  lemma StepWritesNoHead(env: Env, xs: seq<Happening>, x: Happening, e: Effect)
    requires IdealAead(env) && Orderly(env, xs) && |xs| < U32_MAX && Admitted(env, Run(env, xs), x)
    requires e == EffectOf(env, Run(env, xs), x.call)
    requires (GenesisOf(env, xs).Some? || SetsUp(Run(env, xs).store, x.call.op))
    ensures NoHeadWrites(e.core)
  {
    HistoryInvariant(env, xs);
    match GenesisOf(env, xs) {
      case None =>
        InitCoreNoHead(env, Run(env, xs), x.call, e);
      case Some(g) =>
        CallProper(env, g, Run(env, xs), x.call, e, |xs|);
        LiveCoreNoHead(e);
    }
  }

  /** The head a last step wrote is the anchor of a row of the log it left. */
  lemma LastHeadIssued(env: Env, xs: seq<Happening>, text: Text) returns (m: nat)
    requires IdealAead(env) && Orderly(env, xs) && |xs| <= U32_MAX && xs != [] && GenesisOf(env, xs).Some?
    requires var s := Run(env, xs[..|xs| - 1]);
             HeadInStep(env, s, EffectOf(env, s, xs[|xs| - 1].call), xs[|xs| - 1], text)
    ensures IssuedHead(env, GenesisOf(env, xs).value.enrolment.dek, Run(env, xs).store.audit, text, m)
  {
    var front, x := xs[..|xs| - 1], xs[|xs| - 1];
    var s := Run(env, front);
    var e := EffectOf(env, s, x.call);
    var t := ReadyAtStep(env, front, x.call, e);
    StepWritesNoHead(env, front, x, e);
    NextIsCut(env, s, e, x);
    StepHeadIssued(env, GenesisOf(env, xs).value.enrolment.dek, s, e, x, t, text);
    m := |Run(env, xs).store.audit|;
  }

  /** Every head ever written is the anchor of some row of the log as it is now. */
  lemma {:induction false} HeadsAreIssued(env: Env, xs: seq<Happening>, text: Text) returns (m: nat)
    requires IdealAead(env) && Orderly(env, xs) && |xs| <= U32_MAX && GenesisOf(env, xs).Some?
    requires HeadWritten(env, xs, text)
    ensures IssuedHead(env, GenesisOf(env, xs).value.enrolment.dek, Run(env, xs).store.audit, text, m)
    decreases |xs|
  {
    var front := xs[..|xs| - 1];
    if HeadWritten(env, front, text) {
      HeadNeedsVault(env, front, text);
      m := HeadsAreIssued(env, front, text);
      LogGrows(env, xs, |front|);
      IssuedStaysIssued(env, GenesisOf(env, xs).value.enrolment.dek, Run(env, front).store.audit,
                        Run(env, xs).store.audit, text, m);
    } else {
      m := LastHeadIssued(env, xs, text);
    }
  }

  /** No head is written before there is a vault. */
  lemma {:induction false} HeadNeedsVault(env: Env, xs: seq<Happening>, text: Text)
    requires IdealAead(env) && Orderly(env, xs) && |xs| <= U32_MAX && HeadWritten(env, xs, text)
    ensures GenesisOf(env, xs).Some?
  {
    var front, x := xs[..|xs| - 1], xs[|xs| - 1];
    if HeadWritten(env, front, text) {
      HeadNeedsVault(env, front, text);
    } else if GenesisOf(env, xs).None? {
      HistoryInvariant(env, front);
      NoHeadBeforeVault(env, Run(env, front), x, text);
    }
  }

  lemma NoHeadBeforeVault(env: Env, s: Snap, x: Happening, text: Text)
    requires Blank(env, s) && Admitted(env, s, x) && !Founds(env, s.store, x)
    ensures !HeadInStep(env, s, EffectOf(env, s, x.call), x, text)
  {
    if SetsUp(s.store, x.call.op) {
      InitWrites(env, s, x.call.at, x.call.op.enrolment);
      SlotWritesAre(EnrolledSlots(env, x.call.op.enrolment));
    } else {
      BlankEffect(env, s, x.call);
    }
  }

  /** The head of the store, if it has one, is some head the engine wrote during the history. */
  predicate HeadFromHistory(env: Env, xs: seq<Happening>, forged: StoreState) {
    MetaAuditHead in forged.meta ==> HeadWritten(env, xs, forged.meta[MetaAuditHead])
  }

  lemma HistoryHeadIssued(env: Env, xs: seq<Happening>, forged: StoreState) returns (m: nat)
    requires IdealAead(env) && Orderly(env, xs) && |xs| <= U32_MAX && GenesisOf(env, xs).Some?
    requires HeadFromHistory(env, xs, forged)
    ensures MetaAuditHead in forged.meta ==>
      IssuedHead(env, GenesisOf(env, xs).value.enrolment.dek, Run(env, xs).store.audit, forged.meta[MetaAuditHead], m)
  {
    if MetaAuditHead in forged.meta {
      m := HeadsAreIssued(env, xs, forged.meta[MetaAuditHead]);
    } else {
      m := 0;
    }
  }

  /**
   Take any point of any history. Replace the rows of the log by anything and the mark by anything, and
   the head by any head the engine ever wrote or by nothing. The verifier accepts if and only if the
   rows chain and either the head is gone or the mark is where that head was written and every row up
   to it is genuine, whatever lies above; otherwise the forgery exhibits a collision of two rows or of two
   anchors.
   */
  lemma RewoundLogGenuine(env: Env, xs: seq<Happening>, forged: StoreState) returns (m: nat, h: nat, i: nat, j: nat)
    requires IdealAead(env) && Orderly(env, xs) && |xs| <= U32_MAX && GenesisOf(env, xs).Some?
    requires AllEncodable(Run(env, xs).store.audit) && AllEncodable(forged.audit) && HeadFromHistory(env, xs, forged)
    ensures var honest, dek := Run(env, xs).store.audit, GenesisOf(env, xs).value.enrolment.dek;
      && (MetaAuditHead in forged.meta ==> IssuedHead(env, dek, honest, forged.meta[MetaAuditHead], m))
      && (ChainOk(env, forged.audit) && (MetaAuditHead !in forged.meta || GenuineTo(honest, forged, m)) ==>
            AnchorAccepts(env, dek, forged))
      && (AnchorAccepts(env, dek, forged) ==>
            && ChainOk(env, forged.audit)
            && (|| MetaAuditHead !in forged.meta || GenuineTo(honest, forged, m)
                || RowCollision(env, forged.audit, i, honest, j)
                || (ParsedMark(forged) == Some(h) && AnchorCollision(env, dek, forged.audit, h, honest, m))))
  {
    m := HistoryHeadIssued(env, xs, forged);
    HistoryInvariant(env, xs);
    h, i, j := AcceptedRowsGenuine(env, GenesisOf(env, xs).value.enrolment.dek, Run(env, xs).store.audit, forged, m);
  }

  /** A head that was ever written is followed by one for ever. */
  lemma {:induction false} WrittenHeadStays(env: Env, xs: seq<Happening>, text: Text)
    requires HeadWritten(env, xs, text)
    ensures MetaAuditHead in Run(env, xs).store.meta
  {
    var front, x := xs[..|xs| - 1], xs[|xs| - 1];
    if HeadWritten(env, front, text) {
      WrittenHeadStays(env, front, text);
      MetaStays(env, Run(env, front), x, MetaAuditHead);
    } else {
      HeadLands(env, Run(env, front), EffectOf(env, Run(env, front), x.call), x, text);
    }
  }

  lemma HeadLands(env: Env, s: Snap, e: Effect, x: Happening, text: Text)
    requires e == EffectOf(env, s, x.call) && HeadInStep(env, s, e, x, text)
    ensures MetaAuditHead in Next(env, s, x).store.meta
  {
    NextIsCut(env, s, e, x);
    var ws, n := Writes(env, s.store, e), Reached(env, s.store, e, x);
    var k :| 0 <= k < n && ws[k] == WriteMeta(MetaAuditHead, text);
    HeadAmong(env, s.store, ws, k, n);
  }

  lemma HeadAmong(env: Env, s: StoreState, ws: seq<Write>, k: nat, n: nat)
    requires k < n <= |ws| && ws[k].WriteMeta?
    ensures ws[k].key in ApplyAll(env, s, ws[..n]).meta
  {
    ApplyUpTo(env, s, ws, k + 1);
    ApplyConcat(env, s, ws[..k + 1], ws[k + 1..n]);
    assert ws[..n] == ws[..k + 1] + ws[k + 1..n];
    MetaKept(env, ApplyAll(env, s, ws[..k + 1]), ws[k + 1..n], ws[k].key);
  }

  /** The head is the honest one and every row up to the mark is genuine. */
  predicate CurrentTo(honest: StoreState, forged: StoreState, mark: nat) {
    && Meta(forged, MetaAuditHead) == Meta(honest, MetaAuditHead)
    && mark <= |honest.audit| && mark <= |forged.audit| && forged.audit[..mark] == honest.audit[..mark]
  }

  /**
   With the mark kept: the verifier accepts if and only if the rows chain and either the head is gone
   or it is the current one and every row up to the mark is genuine; or a collision.
   */
  lemma TamperEvidentHistory(env: Env, xs: seq<Happening>, forged: StoreState) returns (m: nat, h: nat, i: nat, j: nat)
    requires IdealAead(env) && Orderly(env, xs) && |xs| <= U32_MAX && GenesisOf(env, xs).Some?
    requires AllEncodable(Run(env, xs).store.audit) && AllEncodable(forged.audit) && HeadFromHistory(env, xs, forged)
    requires Meta(forged, MetaHighWater) == Meta(Run(env, xs).store, MetaHighWater)
    ensures var honest, dek := Run(env, xs).store, GenesisOf(env, xs).value.enrolment.dek;
            var mark := StoredHighWater(honest);
      && 0 <= mark <= |honest.audit|
      && (ChainOk(env, forged.audit) && (MetaAuditHead !in forged.meta || CurrentTo(honest, forged, mark)) ==>
            AnchorAccepts(env, dek, forged))
      && (AnchorAccepts(env, dek, forged) ==>
            && ChainOk(env, forged.audit)
            && (|| MetaAuditHead !in forged.meta || CurrentTo(honest, forged, mark)
                || RowCollision(env, forged.audit, i, honest.audit, j)
                || AnchorCollision(env, dek, forged.audit, h, honest.audit, m)))
  {
    m, h, i, j := 0, 0, 0, 0;
    AnchorInvariant(env, xs);
    if MetaAuditHead in forged.meta {
      m := HistoryHeadIssued(env, xs, forged);
      WrittenHeadStays(env, xs, forged.meta[MetaAuditHead]);
      h, i, j := KeptMark(env, GenesisOf(env, xs).value.enrolment.dek, Run(env, xs).store, forged, m);
    }
  }

  lemma KeptMark(env: Env, dek: Dek, s: StoreState, forged: StoreState, m: nat) returns (h: nat, i: nat, j: nat)
    requires StoredHighWater(s) >= 0 && Anchored(env, s, dek, StoredHighWater(s)) && ChainOk(env, s.audit)
    requires AllEncodable(s.audit) && AllEncodable(forged.audit)
    requires Meta(forged, MetaHighWater) == Meta(s, MetaHighWater)
    requires MetaAuditHead in forged.meta && IssuedHead(env, dek, s.audit, forged.meta[MetaAuditHead], m)
    ensures var mark := StoredHighWater(s);
      && (ChainOk(env, forged.audit) && CurrentTo(s, forged, mark) ==> AnchorAccepts(env, dek, forged))
      && (AnchorAccepts(env, dek, forged) ==>
            && ChainOk(env, forged.audit)
            && (|| CurrentTo(s, forged, mark)
                || RowCollision(env, forged.audit, i, s.audit, j)
                || AnchorCollision(env, dek, forged.audit, h, s.audit, m)))
  {
    var mark := StoredHighWater(s);
    h, i, j := TamperEvidence(env, dek, s, mark, forged, m);
    if ChainOk(env, forged.audit) && CurrentTo(s, forged, mark) {
      CurrentAccepted(env, dek, s, forged, mark);
    }
  }

  lemma CurrentAccepted(env: Env, dek: Dek, s: StoreState, forged: StoreState, mark: nat)
    requires Anchored(env, s, dek, mark) && ChainOk(env, forged.audit) && CurrentTo(s, forged, mark)
    requires Meta(forged, MetaHighWater) == Meta(s, MetaHighWater)
    ensures Anchored(env, forged, dek, mark) && AnchorAccepts(env, dek, forged)
  {
    assert forged.audit[mark - 1] == forged.audit[..mark][mark - 1] == s.audit[..mark][mark - 1] == s.audit[mark - 1];
    ChainBounded(env, forged.audit);
    AnchoredAccepted(env, forged, dek, mark);
  }

  // ---- edits that pass ----

  /**
   What lies above the mark is not protected, at any point of any history: keep everything but those
   rows, and put any rows there that chain. The verifier accepts, the vault unlocks with exactly the
   credentials it was enrolled with, and the unlock anchors the rows. The rows above the mark are those
   written while the vault was locked: refused unlocks, the lock itself, refused calls.
   */
  lemma UnanchoredRowsForged(env: Env, xs: seq<Happening>, forged: StoreState, at: Reading, c: Credential)
    requires IdealAead(env) && Orderly(env, xs) && |xs| <= U32_MAX && GenesisOf(env, xs).Some?
    requires forged == Run(env, xs).store.(audit := forged.audit) && ChainOk(env, forged.audit)
    requires var mark := StoredHighWater(Run(env, xs).store);
      0 <= mark <= |Run(env, xs).store.audit| && mark <= |forged.audit| &&
          forged.audit[..mark] == Run(env, xs).store.audit[..mark]
    ensures var s, i := Snap(forged, Locked, map[]), GenesisOf(env, xs).value.enrolment;
            var e := UnlockEffect(env, s, at, c);
      && AnchorAccepts(env, i.dek, forged)
      && e.vault == (if Opens(env, i, c, at.usb) then Unlocked(i.dek) else Locked)
      && (e.vault.Unlocked? && |forged.audit| < I64_MAX ==>
          Anchored(env, After(env, s, e).store, i.dek, |forged.audit| + 1))
  {
    HistoryInvariant(env, xs);
    LiveRowsForged(env, GenesisOf(env, xs).value, Run(env, xs), forged, |xs|);
    UnlockAnchors(env, GenesisOf(env, xs).value, Snap(forged, Locked, map[]), at, c);
  }

  lemma LiveRowsForged(env: Env, g: Genesis, s: Snap, forged: StoreState, n: nat)
    requires Live(env, g, s) && Small(s.store, n) && n <= U32_MAX
    requires forged == s.store.(audit := forged.audit) && ChainOk(env, forged.audit)
    requires var mark := StoredHighWater(s.store);
      0 <= mark <= |s.store.audit| && mark <= |forged.audit| && forged.audit[..mark] == s.store.audit[..mark]
    ensures HeaderOk(env, g, forged) && AnchorAccepts(env, g.enrolment.dek, forged)
    ensures StoredHighWater(forged) <= |forged.audit|
  {
    LiveAccepted(env, g, s, n);
    if MetaAuditHead in s.store.meta {
      CurrentAccepted(env, g.enrolment.dek, s.store, forged, StoredHighWater(s.store));
    }
  }

  /**
   A refused unlock leaves no trace that cannot be removed: without its row the store is what it was, and is
   accepted.
   */
  lemma FailedUnlockErased(env: Env, xs: seq<Happening>, at: Reading, c: Credential)
    requires IdealAead(env) && Orderly(env, xs) && |xs| < U32_MAX && GenesisOf(env, xs).Some?
    requires Run(env, xs).vault.Locked?
    requires !Opens(env, GenesisOf(env, xs).value.enrolment, c, at.usb)
    ensures var s, i := Run(env, xs), GenesisOf(env, xs).value.enrolment;
            var t := Step(env, s, Call(OpUnlock(c), at)).store;
      && |t.audit| == |s.store.audit| + 1 && t.audit[|s.store.audit|].eventType == EventText(UnlockEvent)
      && t.(audit := t.audit[..|s.store.audit|]) == s.store
      && AnchorAccepts(env, i.dek, t.(audit := t.audit[..|s.store.audit|]))
  {
    HistoryInvariant(env, xs);
    AnchorInvariant(env, xs);
    var s, g := Run(env, xs), GenesisOf(env, xs).value;
    LiveAccepted(env, g, s, |xs|);
    RefusedUnlock(env, g, s, at, c);
  }

  lemma RefusedUnlock(env: Env, g: Genesis, s: Snap, at: Reading, c: Credential)
    requires IdealAead(env) && HeaderOk(env, g, s.store) && s.vault.Locked?
    requires AnchorAccepts(env, g.enrolment.dek, s.store)
    requires ChainOk(env, s.store.audit) && |s.store.audit| < I64_MAX && StoredHighWater(s.store) <= |s.store.audit|
    requires !Opens(env, g.enrolment, c, at.usb)
    ensures var t := Step(env, s, Call(OpUnlock(c), at)).store;
      && |t.audit| == |s.store.audit| + 1 && t.audit[|s.store.audit|].eventType == EventText(UnlockEvent)
      && t == s.store.(audit := t.audit) && t.audit[..|s.store.audit|] == s.store.audit
  {
    UnlockHonest(env, g, s, at, c);
    var e := UnlockEffect(env, s, at, c);
    AuditStep(env, s.store, e.row.value, None);
    assert Writes(env, s.store, e) == AuditWrites(env, s.store, e.row.value, None);
  }

  /**
   With the head gone, at any point of any history, any rows that chain are accepted and the vault
   unlocks with exactly the credentials it was enrolled with. The unlock anchors the rows if and only
   if the mark is at most the number of its own row; below that mark the store it leaves is refused.
   */
  lemma HeadRemovedAccepted(env: Env, xs: seq<Happening>, forged: StoreState, at: Reading, c: Credential)
    requires IdealAead(env) && Orderly(env, xs) && |xs| <= U32_MAX && GenesisOf(env, xs).Some?
    requires forged.keyslots == Run(env, xs).store.keyslots && ChainOk(env, forged.audit)
    requires MetaAuditHead !in forged.meta
    requires forall k :: k != MetaAuditHead && k != MetaHighWater ==> Meta(forged, k) == Meta(Run(env, xs).store, k)
    ensures var s, i := Snap(forged, Locked, map[]), GenesisOf(env, xs).value.enrolment;
            var e := UnlockEffect(env, s, at, c);
      && AnchorAccepts(env, i.dek, forged)
      && e.vault == (if Opens(env, i, c, at.usb) then Unlocked(i.dek) else Locked)
      && (e.vault.Unlocked? && |forged.audit| < I64_MAX ==>
            if StoredHighWater(forged) <= |forged.audit| + 1
                then Anchored(env, After(env, s, e).store, i.dek, |forged.audit| + 1)
            else !AnchorAccepts(env, i.dek, After(env, s, e).store))
  {
    HistoryInvariant(env, xs);
    HeaderKept(env, GenesisOf(env, xs).value, Run(env, xs).store, forged);
    UnlockAnchors(env, GenesisOf(env, xs).value, Snap(forged, Locked, map[]), at, c);
  }

  lemma HeaderKept(env: Env, g: Genesis, s: StoreState, forged: StoreState)
    requires HeaderOk(env, g, s) && forged.keyslots == s.keyslots
    requires forall k :: k != MetaAuditHead && k != MetaHighWater ==> Meta(forged, k) == Meta(s, k)
    ensures HeaderOk(env, g, forged)
  {
  }

  /** What an accepted unlock leaves of the anchor, whatever the rows and the mark. */
  lemma UnlockAnchors(env: Env, g: Genesis, s: Snap, at: Reading, c: Credential)
    requires IdealAead(env) && HeaderOk(env, g, s.store) && s.vault.Locked?
    requires AnchorAccepts(env, g.enrolment.dek, s.store)
    ensures var i, e := g.enrolment, UnlockEffect(env, s, at, c);
      && e.vault == (if Opens(env, i, c, at.usb) then Unlocked(i.dek) else Locked)
      && (e.vault.Unlocked? && |s.store.audit| < I64_MAX ==>
            if StoredHighWater(s.store) <= |s.store.audit| + 1
                then Anchored(env, After(env, s, e).store, i.dek, |s.store.audit| + 1)
            else !AnchorAccepts(env, i.dek, After(env, s, e).store))
  {
    UnlockHonest(env, g, s, at, c);
    var e := UnlockEffect(env, s, at, c);
    if e.vault.Unlocked? && |s.store.audit| < I64_MAX {
      RowAnchored(env, s, e, g.enrolment.dek);
    }
  }

  lemma RowAnchored(env: Env, s: Snap, e: Effect, dek: Dek)
    requires ChainOk(env, s.store.audit) && |s.store.audit| < I64_MAX && e.core == [] && e.row.Some?
    requires e.key == Some(dek)
    ensures if StoredHighWater(s.store) <= |s.store.audit| + 1
            then Anchored(env, After(env, s, e).store, dek, |s.store.audit| + 1)
            else !AnchorAccepts(env, dek, After(env, s, e).store)
  {
    assert Writes(env, s.store, e) == AuditWrites(env, s.store, e.row.value, e.key);
    if StoredHighWater(s.store) <= |s.store.audit| + 1 {
      AuditStep(env, s.store, e.row.value, e.key);
    } else {
      MarkAhead(env, s.store, e.row.value, dek);
    }
  }
}
