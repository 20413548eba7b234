/** A lock locks: from it until an unlock succeeds nothing is read, written, minted or sent. */
module Locking {
  import opened Bytes
  import opened Environment
  import opened Decision
  import opened Wire
  import opened Store
  import opened Anchors
  import opened Effects
  import opened Invariants
  import opened Unlocking
  import opened Preservation
  import opened Histories
  import opened Crashes

  /** The call is an unlock with a credential that derives an enrolled key. */
  predicate OpensVault(env: Env, i: Enrolment, c: Call) { c.op.OpUnlock? && Opens(env, i, c.op.credential, c.at.usb) }

  /** What a finished lock leaves: the vault locked, and of the store only the log changed. */
  lemma LockCloses(env: Env, s: Snap, at: Reading)
    ensures var t := Step(env, s, Call(OpLock, at));
      t.vault == Locked && t.counters == s.counters && t.store == s.store.(audit := t.store.audit)
      && |t.store.audit| == |s.store.audit| + 1
  {
    var e := LockEffect(env, s, at);
    assert Writes(env, s.store, e) == [WriteRow(e.row.value)];
    ApplyOne(env, s.store, WriteRow(e.row.value));
  }

  /** The answer given by a locked vault to a call that needs the DEK. */
  predicate Refuses(c: Call, e: Effect) {
    && (c.op.OpGet? || c.op.OpPut? || c.op.OpMint? ==> e.reply == Failure(VaultIsLocked) && e.core == [] && e.row.None?)
    && (c.op.OpSwap? ==> e.reply == Swapped(ShutAnswer(c.op.swap)) && e.sent.None?)
  }

  /** A string that is no bearer is denied as ever; any other is refused for the lock. */
  function ShutAnswer(call: SwapCall): SwapOutcome {
    if ParseBearer(call.raw).None? then Denied(UnknownBearer) else InternalRefused(VaultIsLocked)
  }

  lemma LockedSwap(env: Env, s: Snap, at: Reading, call: SwapCall)
    requires s.vault.Locked?
    ensures SwapEffect(env, s, at, call).reply == Swapped(ShutAnswer(call)) && SwapEffect(env, s, at, call).sent.None?
  {
    assert !ScreenBearer(env, s, call.raw).Known?;
  }

  lemma LockedRefuses(env: Env, s: Snap, c: Call, e: Effect)
    requires s.vault.Locked? && e == EffectOf(env, s, c)
    ensures Refuses(c, e)
  {
    match c.op {
      case OpSwap(call) => LockedSwap(env, s, c.at, call);
      case OpGet(_, _, _) =>
      case OpPut(_, _, _) =>
      case OpMint(_) =>
      case _ =>
    }
  }

  lemma ShutStep(env: Env, g: Genesis, s: Snap, x: Happening, n: nat)
    requires IdealAead(env) && Live(env, g, s) && Small(s.store, n) && n < U32_MAX && s.vault.Locked?
    requires !OpensVault(env, g.enrolment, x.call)
    ensures Next(env, s, x).vault.Locked? && Next(env, s, x).store.meta == s.store.meta
  {
    if x.call.op.OpUnlock? {
      LiveAccepted(env, g, s, n);
      UnlockHonest(env, g, s, x.call.at, x.call.op.credential);
    }
    LockedNext(env, s, x);
  }

  /**
   From any point at which the vault is locked, and up to an unlock with an enrolled factor, the vault
   stays locked and no meta key changes: the mark and the head stay where they were.
   */
  lemma {:induction false} StaysLocked(env: Env, xs: seq<Happening>, k: nat)
    requires IdealAead(env) && Orderly(env, xs) && |xs| <= U32_MAX && k <= |xs|
    requires GenesisOf(env, xs[..k]).Some? && Run(env, xs[..k]).vault.Locked?
    requires forall j :: k <= j < |xs| ==> !OpensVault(env, GenesisOf(env, xs[..k]).value.enrolment, xs[j].call)
    ensures Run(env, xs).vault.Locked? && Run(env, xs).store.meta == Run(env, xs[..k]).store.meta
    decreases |xs|
  {
    if k == |xs| {
      assert xs[..k] == xs;
    } else {
      var front, x := xs[..|xs| - 1], xs[|xs| - 1];
      assert front[..k] == xs[..k];
      StaysLocked(env, front, k);
      HistoryInvariant(env, front);
      HistoryGrows(env, front, k);
      ShutStep(env, GenesisOf(env, front).value, Run(env, front), x, |front|);
    }
  }

  lemma ShutFrom(env: Env, xs: seq<Happening>, k: nat)
    requires IdealAead(env) && Orderly(env, xs) && |xs| <= U32_MAX && k < |xs|
    requires xs[k].Completed? && xs[k].call.op.OpLock? && GenesisOf(env, xs[..k]).Some?
    requires forall j :: k < j < |xs| ==> !OpensVault(env, GenesisOf(env, xs[..k]).value.enrolment, xs[j].call)
    ensures Run(env, xs).vault.Locked? && Run(env, xs).store.meta == Run(env, xs[..k]).store.meta
  {
    LockedAt(env, xs, k);
    StaysLocked(env, xs, k + 1);
  }

  lemma LockedRefusesAt(env: Env, s: Snap, c: Call)
    requires s.vault.Locked?
    ensures Refuses(c, EffectOf(env, s, c))
  {
    LockedRefuses(env, s, c, EffectOf(env, s, c));
  }

  /**
   After a lock, whatever happens before an unlock with an enrolled factor, crashes included: the vault is
   locked, the mark stays where it was, every get, put and mint fails, and no swap is allowed or sends.
   */
  lemma LockHolds(env: Env, xs: seq<Happening>, k: nat, c: Call)
    requires IdealAead(env) && Orderly(env, xs) && |xs| <= U32_MAX && k < |xs|
    requires xs[k].Completed? && xs[k].call.op.OpLock? && GenesisOf(env, xs[..k]).Some?
    requires forall j :: k < j < |xs| ==> !OpensVault(env, GenesisOf(env, xs[..k]).value.enrolment, xs[j].call)
    ensures Run(env, xs).vault.Locked?
    ensures StoredHighWater(Run(env, xs).store) == StoredHighWater(Run(env, xs[..k]).store)
    ensures Refuses(c, EffectOf(env, Run(env, xs), c))
  {
    ShutFrom(env, xs, k);
    LockedRefusesAt(env, Run(env, xs), c);
  }

  lemma LockedAt(env: Env, xs: seq<Happening>, k: nat)
    requires k < |xs| && xs[k].Completed? && xs[k].call.op.OpLock? && GenesisOf(env, xs[..k]).Some?
    ensures GenesisOf(env, xs[..k + 1]) == GenesisOf(env, xs[..k])
    ensures Run(env, xs[..k + 1]).vault.Locked? && Run(env, xs[..k + 1]).store.meta == Run(env, xs[..k]).store.meta
  {
    var upTo := xs[..k + 1];
    assert upTo[..k] == xs[..k] && xs[k].call == Call(OpLock, xs[k].call.at);
    LockCloses(env, Run(env, xs[..k]), xs[k].call.at);
  }

  /** An unlock of an unlocked vault answers and does nothing else. */
  lemma UnlockedAlready(env: Env, s: Snap, at: Reading, c: Credential)
    requires s.vault.Unlocked?
    ensures UnlockEffect(env, s, at, c).reply == Done && Step(env, s, Call(OpUnlock(c), at)) == s
  {
    var e := UnlockEffect(env, s, at, c);
    assert Writes(env, s.store, e) == [];
  }

  /** Only an unlock opens a vault: any other happening leaves a locked vault locked. */
  lemma OnlyUnlockOpens(env: Env, s: Snap, x: Happening)
    requires s.vault.Locked? && Next(env, s, x).vault.Unlocked?
    ensures x.Completed? && x.call.op.OpUnlock? && UnlockEffect(env, s, x.call.at, x.call.op.credential).reply == Done
  {
    var e := EffectOf(env, s, x.call);
    NextVault(env, s, x, e);
    VaultAfter(env, s, x.call, e);
  }

  lemma NextVault(env: Env, s: Snap, x: Happening, e: Effect)
    requires e == EffectOf(env, s, x.call)
    ensures Next(env, s, x).vault == if x.Completed? then e.vault else Locked
  {
  }

  lemma VaultAfter(env: Env, s: Snap, c: Call, e: Effect)
    requires s.vault.Locked? && e == EffectOf(env, s, c)
    ensures e.vault.Unlocked? ==> c.op.OpUnlock? && UnlockEffect(env, s, c.at, c.op.credential).reply == Done
  {
    match c.op {
      case OpUnlock(credential) => UnlockedIsDone(env, s, c.at, credential);
      case OpSwap(call) => SwapNoWrites(env, s, c.at, call);
      case OpGet(name, show, apply) => GetNoWrites(env, s, c.at, name, show, apply);
      case OpRevokeRelay(relayId, apply) => LockedRevoke(env, s, c.at, relayId, apply);
      case OpInit(i) =>
      case _ =>
    }
  }

  lemma UnlockedIsDone(env: Env, s: Snap, at: Reading, c: Credential)
    requires s.vault.Locked?
    ensures UnlockEffect(env, s, at, c).vault.Unlocked? ==> UnlockEffect(env, s, at, c).reply == Done
  {
    UnlockOutcome(env, s, at, c);
    if HeaderOf(s.store).Some? {
      ProbedUnlock(env, s, at, c, HeaderOf(s.store).value, ProbeSlots(env, s.store.keyslots, c, at.usb));
    }
  }

  /** The happening is an unlock that finished and answered well. */
  predicate Reopens(env: Env, xs: seq<Happening>, j: nat)
    requires j < |xs|
  {
    && xs[j].Completed? && xs[j].call.op.OpUnlock?
    && UnlockEffect(env, Run(env, xs[..j]), xs[j].call.at, xs[j].call.op.credential).reply == Done
  }

  /**
   Over any history whatever, whether or not there is a vault yet: from a finished lock on and until an
   unlock answers well, the vault is locked, every get, put and mint fails, and no swap is allowed or sends.
   */
  lemma LockLasts(env: Env, xs: seq<Happening>, k: nat, c: Call)
    requires k < |xs| && xs[k].Completed? && xs[k].call.op.OpLock?
    requires forall j :: k < j < |xs| ==> !Reopens(env, xs, j)
    ensures Run(env, xs).vault.Locked? && Refuses(c, EffectOf(env, Run(env, xs), c))
  {
    ShutSince(env, xs, k);
    LockedRefusesAt(env, Run(env, xs), c);
  }

  lemma {:induction false} ShutSince(env: Env, xs: seq<Happening>, k: nat)
    requires k < |xs| && xs[k].Completed? && xs[k].call.op.OpLock?
    requires forall j :: k < j < |xs| ==> !Reopens(env, xs, j)
    ensures Run(env, xs).vault.Locked?
    decreases |xs|
  {
    var n := |xs| - 1;
    var front, x := xs[..n], xs[n];
    if n == k {
      assert x.call == Call(OpLock, x.call.at);
      LockCloses(env, Run(env, front), x.call.at);
    } else {
      forall j | k < j < n ensures !Reopens(env, front, j) {
        assert front[..j] == xs[..j];
        assert !Reopens(env, xs, j);
      }
      ShutSince(env, front, k);
      assert !Reopens(env, xs, n);
      if Next(env, Run(env, front), x).vault.Unlocked? {
        OnlyUnlockOpens(env, Run(env, front), x);
      }
    }
  }
}
