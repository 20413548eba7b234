/** The life of a relay bearer over whole histories: minted once, alive for a bounded time, revoked for good. */
module Bearers {
  import opened Bytes
  import opened Environment
  import opened Broker
  import opened Decision
  import opened Store
  import opened Anchors
  import opened Effects
  import opened Invariants
  import opened Preservation
  import opened Runs
  import opened Histories
  import opened Wire
  import Vaults

  // ---- what an allowed swap looked at ----

  /** A swap is allowed only by way of an authentic row, its policy, and a decision that says so. */
  lemma AllowedMeans(env: Env, s: Snap, at: Reading, call: SwapCall)
    requires SwapEffect(env, s, at, call).reply == Swapped(Allowed)
    ensures var k := ScreenBearer(env, s, call.raw); k.Known? && Decide(SwapQuery(s, at, k, call.req)) == Allow
  {
  }

  lemma ScreenedRow(env: Env, s: Snap, raw: Text)
    requires ScreenBearer(env, s, raw).Known?
    ensures var k, token := ScreenBearer(env, s, raw), ParseBearer(raw);
      && token.Some? && s.vault == Unlocked(k.dek) && LoadBearer(s.store, token.value) == Some(k.row)
      && k.row.claims.tokenId == token.value && RowAuthentic(env, k.dek, k.row) &&
           k.row.wireMac == WireMac(env, k.dek, raw)
      && FindPolicyById(s.store, k.row.claims.policyId) == Some(k.policyRow)
  {
  }

  /** A swap allowed to a token reads that token's row, unrevoked and alive. */
  lemma AllowedIsAlive(env: Env, s: Snap, at: Reading, call: SwapCall, token: Text)
    requires SwapEffect(env, s, at, call).reply == Swapped(Allowed) && ParseBearer(call.raw) == Some(token)
    ensures LoadBearer(s.store, token).Some?
    ensures var c := LoadBearer(s.store, token).value.claims;
      && !c.revoked
      && (c.expiresAtMs - c.issuedAtMs <= I64_MAX ==>
            && 0 <= at.bootMs - c.issuedBoottimeMs < c.expiresAtMs - c.issuedAtMs
            && 0 <= at.nowMs - c.issuedAtMs < c.expiresAtMs - c.issuedAtMs
            && Abs((at.nowMs - c.issuedAtMs) - (at.bootMs - c.issuedBoottimeMs)) <= 60_000)
  {
    AllowedMeans(env, s, at, call);
    ScreenedRow(env, s, call.raw);
    var q := SwapQuery(s, at, ScreenBearer(env, s, call.raw), call.req);
    if q.b.expiresAtMs - q.b.issuedAtMs <= I64_MAX {
      AllowMeansAlive(q);
    }
    AllowIffEveryClause(q);
    assert Holds(2, q);
  }

  /**
   Edit a stored row in any way but leave it a tag the engine once issued: the swap does not get past
   it, unless the row says what was sealed under that tag or the row MAC collides.
   */
  lemma EditedRowDenied(env: Env, s: Snap, at: Reading, call: SwapCall, token: Text, sealed: Claims)
    requires s.vault.Unlocked? && ParseBearer(call.raw) == Some(token) && StoredFloor(s.store).Some?
    requires LoadBearer(s.store, token).Some?
    requires var row := LoadBearer(s.store, token).value;
      && row.rowMac == RowMac(env, s.vault.dek, sealed) && row.claims != sealed
      && ClaimsEncodable(row.claims) && ClaimsEncodable(sealed)
    ensures var row := LoadBearer(s.store, token).value;
      || SwapEffect(env, s, at, call).reply == Swapped(Denied(UnknownBearer))
      || MacCollision(env, BearerRowKey, s.vault.dek, BearerRowMessage(row.claims), BearerRowMessage(sealed))
  {
    var row := LoadBearer(s.store, token).value;
    if RowAuthentic(env, s.vault.dek, row) {
      RowBinding(env, s.vault.dek, row, sealed);
    } else {
      assert ScreenBearer(env, s, call.raw) == Unknown(token);
    }
  }

  /**
   The row MAC does not stop a revocation from being undone: put back a row the engine itself sealed,
   as it stood before the token was revoked, and it passes the screen unrevoked.
   */
  lemma RestoredRowPasses(env: Env, s: Snap, raw: Text, earlier: BearerRow)
    requires s.vault.Unlocked? && StoredFloor(s.store).Some? && ParseBearer(raw) == Some(earlier.claims.tokenId)
    requires LoadBearer(s.store, earlier.claims.tokenId).Some? && FindPolicyById(s.store, earlier.claims.policyId).Some?
    requires RowAuthentic(env, s.vault.dek, earlier) && earlier.wireMac == WireMac(env, s.vault.dek, raw)
    ensures var forged := s.(store := Apply(env, s.store, WriteBearer(earlier)));
            var k := ScreenBearer(env, forged, raw); k.Known? && k.row == earlier
  {
    var forged := s.(store := Apply(env, s.store, WriteBearer(earlier)));
    Replaced(s.store.bearers, earlier);
    assert LoadBearer(forged.store, earlier.claims.tokenId) == Some(earlier);
  }

  // ---- rows by token ----

  /** The row of a token is found where it stands. */
  lemma LoadedAt(s: StoreState, j: nat)
    requires TokensDiffer(s.bearers) && j < |s.bearers|
    ensures LoadBearer(s, s.bearers[j].claims.tokenId) == Some(s.bearers[j])
  {
  }

  /** Whatever happens, the row of a token stays, and at most becomes revoked. */
  lemma BearerStays(env: Env, g: Genesis, s: StoreState, t: StoreState, token: Text)
    requires Honest(env, g, s) && Honest(env, g, t) && Grows(s, t) && LoadBearer(s, token).Some?
    ensures LoadBearer(t, token).Some? && Revises(LoadBearer(s, token).value, LoadBearer(t, token).value)
  {
    var j := BearerIndex(s.bearers, token);
    assert Revises(s.bearers[j], t.bearers[j]);
    LoadedAt(t, j);
  }

  // ---- policy linkage ----

  /** Where a policy id leads never changes. */
  lemma LinkStable(s: StoreState, t: StoreState, id: I64)
    requires PoliciesOk(t.relays) && PoliciesStay(s.relays, t.relays) && HasPolicy(s.relays, id)
    ensures FindPolicyById(s, id).Some? && FindPolicyById(t, id).Some?
    ensures FindPolicyById(t, id).value.policy.relayId == FindPolicyById(s, id).value.policy.relayId
  {
    var j := PolicyIdIndex(s.relays, id);
    assert t.relays[j].id == id;
    PolicyFound(t.relays, id, j);
  }

  /**
   At every point of every history relay ids and policy ids are unique and positive, and every stored
   bearer's policy id leads to the relay it led to at any earlier point.
   */
  lemma PolicyLinkage(env: Env, xs: seq<Happening>, k: nat, j: nat)
    requires IdealAead(env) && Orderly(env, xs) && |xs| <= U32_MAX && k <= |xs| && GenesisOf(env, xs[..k]).Some?
    requires j < |Run(env, xs[..k]).store.bearers|
    ensures PoliciesOk(Run(env, xs).store.relays)
    ensures var s, t := Run(env, xs[..k]).store, Run(env, xs).store; var id := s.bearers[j].claims.policyId;
      && j < |t.bearers| && t.bearers[j].claims.tokenId == s.bearers[j].claims.tokenId &&
           t.bearers[j].claims.policyId == id
      && FindPolicyById(s, id).Some? && FindPolicyById(t, id).Some?
      && FindPolicyById(t, id).value.policy.relayId == FindPolicyById(s, id).value.policy.relayId
  {
    OrderlyPrefix(env, xs, k);
    HistoryInvariant(env, xs[..k]);
    HistoryInvariant(env, xs);
    HistoryGrows(env, xs, k);
    var s, t := Run(env, xs[..k]).store, Run(env, xs).store;
    assert BearerOk(env, GenesisOf(env, xs).value.enrolment.dek, s.relays, s.bearers[j]);
    assert Revises(s.bearers[j], t.bearers[j]);
    LinkStable(s, t, s.bearers[j].claims.policyId);
  }

  // ---- minting ----

  /** Minting leaves its policy where the assigned id leads. */
  lemma MintedPolicyFound(relays: seq<RelayPolicyRow>, policy: RelayPolicyRow)
    requires PoliciesOk(relays) && PolicyWriteOk(relays, policy)
    ensures var newer, id := UpsertPolicy(relays, policy), AssignedPolicyId(relays, policy);
            HasPolicy(newer, id) && newer[PolicyIdIndex(newer, id)].policy == policy.policy
  {
    var newer, i := UpsertPolicy(relays, policy), PolicyIndex(relays, policy.policy.relayId);
    PolicyKeeps(relays, policy);
    assert newer[i] == policy.(id := AssignedPolicyId(relays, policy));
    PolicyFound(newer, newer[i].id, i);
  }

  lemma NewBearerLast(bearers: seq<BearerRow>, row: BearerRow)
    requires BearerIndex(bearers, row.claims.tokenId) == |bearers|
    ensures UpsertBearer(bearers, row) == bearers + [row]
    ensures BearerIndex(bearers + [row], row.claims.tokenId) == |bearers|
  {
    var longer := bearers + [row];
    assert longer[|bearers|].claims.tokenId == row.claims.tokenId;
    assert forall j :: 0 <= j < |bearers| ==> longer[j] == bearers[j];
  }

  /** What the two writes of a mint leave: the bearer under its token, linked to the policy minted. */
  lemma MintStores(env: Env, dek: Dek, s: StoreState, at: Reading, m: Minting, expiresAtMs: I64)
    requires PoliciesOk(s.relays) && LoadBearer(s, TokenOf(m)).None? && PolicyWriteOk(s.relays, MintedPolicy(m))
    ensures var row := MintedRow(env, dek, s, at, m, expiresAtMs);
            var t := Apply(env, Apply(env, s, WritePolicy(MintedPolicy(m))), WriteBearer(row));
      && t.bearers == s.bearers + [row] && LoadBearer(t, TokenOf(m)) == Some(row)
      && FindPolicyById(t, row.claims.policyId).Some?
      && FindPolicyById(t, row.claims.policyId).value.policy == MintedPolicy(m).policy
  {
    MintedPolicyFound(s.relays, MintedPolicy(m));
    NewBearerLast(s.bearers, MintedRow(env, dek, s, at, m, expiresAtMs));
  }

  // ---- where bearers come from ----

  /** The happening got as far as storing the bearer of its mint, and `b` is that bearer or its revocation. */
  predicate IssuedBy(env: Env, s: Snap, x: Happening, b: BearerRow) {
    && x.call.op.OpMint? && s.vault.Unlocked? && MintRefusal(s.store, x.call.at, x.call.op.minting).None?
    && var expiresAtMs := ExpiryMs(x.call.at.nowMs, x.call.op.minting.spec.policyTtlSecs,
                                   x.call.op.minting.requestedTtlSecs);
       expiresAtMs.Some? && Revises(MintedRow(env, s.vault.dek, s.store, x.call.at, x.call.op.minting,
                                              expiresAtMs.value), b)
  }

  /** The bearer's policy id leads to this relay. */
  predicate LinkedTo(relays: seq<RelayPolicyRow>, b: BearerRow, relayId: Text) {
    HasPolicy(relays, b.claims.policyId) && relays[PolicyIdIndex(relays, b.claims.policyId)].policy.relayId == relayId
  }

  /** The relay a mint was for: the one named, or the name generated for it. */
  function RelayOf(m: Minting): Text { MintedPolicy(m).policy.relayId }

  lemma LinkStays(prior: seq<RelayPolicyRow>, newer: seq<RelayPolicyRow>, b: BearerRow, later: BearerRow, relayId: Text)
    requires PoliciesOk(newer) && PoliciesStay(prior, newer) && Revises(b, later) && LinkedTo(prior, b, relayId)
    ensures LinkedTo(newer, later, relayId)
  {
    var j := PolicyIdIndex(prior, b.claims.policyId);
    assert newer[j].id == prior[j].id;
    PolicyFound(newer, b.claims.policyId, j);
  }

  /** The audited event of a call leaves the tables to the call's own writes. */
  lemma EventLeavesBearers(env: Env, g: Genesis, s: Snap, e: Effect, n: nat)
    requires Live(env, g, s) && AllOffLog(e.core) && Small(s.store, n) && n < U32_MAX
    ensures var t, u := ApplyAll(env, s.store, Writes(env, s.store, e)), ApplyAll(env, s.store, e.core);
            t.bearers == u.bearers && t.relays == u.relays
  {
    if e.row.Some? {
      var t := ReadyForRow(env, g, s, e, n);
      AuditStep(env, t, e.row.value, e.key);
      ApplyConcat(env, s.store, e.core, AuditWrites(env, t, e.row.value, e.key));
    } else {
      assert Writes(env, s.store, e) == e.core;
    }
  }

  predicate NoBearerWrites(ws: seq<Write>) { forall k :: 0 <= k < |ws| ==> !ws[k].WriteBearer? }

  lemma {:induction false} BearersUntouched(env: Env, s: StoreState, ws: seq<Write>)
    requires NoBearerWrites(ws)
    ensures ApplyAll(env, s, ws).bearers == s.bearers
  {
    if ws != [] {
      BearersUntouched(env, s, ws[..|ws| - 1]);
      assert !ws[|ws| - 1].WriteBearer?;
    }
  }

  /** Revocations put no bearer in the table. */
  lemma WalkAddsNone(env: Env, g: Genesis, s: StoreState, v: Vault, relayId: Text, n: nat)
    requires Honest(env, g, s) && Small(s, n)
    ensures var flags, targets := PolicyRevokeWrites(s, relayId), RevokeTargets(env, s, relayId);
      && |ApplyAll(env, s, flags).bearers| == |s.bearers|
      && |ApplyAll(env, s, flags + Reseals(env, v, targets)).bearers| == |s.bearers|
  {
    var flags, targets := PolicyRevokeWrites(s, relayId), RevokeTargets(env, s, relayId);
    var t := ApplyAll(env, s, flags);
    FlagOk(env, g, s, relayId, n);
    TargetsAmong(t, relayId);
    if v.Unlocked? {
      RevokesExactly(env, v.dek, t, targets);
    }
    ApplyConcat(env, s, flags, Reseals(env, v, targets));
  }

  lemma RevokeAddsNone(env: Env, g: Genesis, s: Snap, c: Call, e: Effect, n: nat)
    requires Live(env, g, s) && Small(s.store, n) && c.op.OpRevokeRelay? && e == EffectOf(env, s, c)
    ensures |ApplyAll(env, s.store, e.core).bearers| == |s.store.bearers|
  {
    RevokeEffectIs(env, s, c, e);
    if c.op.relayApply {
      WalkAddsNone(env, g, s.store, s.vault, c.op.relayId, n);
    }
  }

  lemma RevokeOneAddsNone(env: Env, s: Snap, c: Call, e: Effect)
    requires c.op.OpRevokeBearer? && e == EffectOf(env, s, c)
    ensures |ApplyAll(env, s.store, e.core).bearers| == |s.store.bearers|
  {
    if e.core != [] {
      ApplyOne(env, s.store, e.core[0]);
      assert e.core == [e.core[0]];
    }
  }

  lemma PutWritesNoBearers(env: Env, s: Snap, c: Call, e: Effect)
    requires c.op.OpPut? && e == EffectOf(env, s, c)
    ensures NoBearerWrites(e.core)
  {
  }

  lemma InitWritesNoBearers(env: Env, s: Snap, c: Call, e: Effect)
    requires c.op.OpInit? && e == EffectOf(env, s, c)
    ensures NoBearerWrites(e.core)
  {
    InitCoreKinds(env, s, c.at, c.op.enrolment);
    assert forall k :: 0 <= k < |e.core| ==> SetsUpWrite(e.core[k]);
  }

  lemma UnlockWritesNoBearers(env: Env, s: Snap, c: Call, e: Effect)
    requires c.op.OpUnlock? && e == EffectOf(env, s, c)
    ensures NoBearerWrites(e.core)
  {
    Vaults.UnlockCore(env, s, c.at, c.op.credential);
  }

  lemma QuietWritesNoBearers(env: Env, s: Snap, c: Call, e: Effect)
    requires (c.op.OpLock? || c.op.OpGet? || c.op.OpSwap?) && e == EffectOf(env, s, c)
    ensures NoBearerWrites(e.core)
  {
    if c.op.OpGet? {
      GetQuiet(env, s, c, e);
    } else if c.op.OpSwap? {
      SwapQuiet(env, s, c, e);
    }
  }

  /** Only a mint adds a bearer. */
  lemma OnlyMintAdds(env: Env, g: Genesis, s: Snap, c: Call, e: Effect, n: nat)
    requires Live(env, g, s) && Small(s.store, n) && !c.op.OpMint? && e == EffectOf(env, s, c)
    ensures |ApplyAll(env, s.store, e.core).bearers| == |s.store.bearers|
  {
    if c.op.OpRevokeRelay? {
      RevokeAddsNone(env, g, s, c, e, n);
    } else if c.op.OpRevokeBearer? {
      RevokeOneAddsNone(env, s, c, e);
    } else {
      PlainWritesNoBearers(env, s, c, e);
      BearersUntouched(env, s.store, e.core);
    }
  }

  lemma PlainWritesNoBearers(env: Env, s: Snap, c: Call, e: Effect)
    requires !c.op.OpMint? && !c.op.OpRevokeRelay? && !c.op.OpRevokeBearer? && e == EffectOf(env, s, c)
    ensures NoBearerWrites(e.core)
  {
    match c.op {
      case OpInit(_) => InitWritesNoBearers(env, s, c, e);
      case OpUnlock(_) => UnlockWritesNoBearers(env, s, c, e);
      case OpPut(_, _, _) => PutWritesNoBearers(env, s, c, e);
      case _ => QuietWritesNoBearers(env, s, c, e);
    }
  }

  /** A step that is not a mint leaves as many bearers, wherever it is cut. */
  lemma NonMintKeepsCount(env: Env, g: Genesis, s: Snap, c: Call, e: Effect, n: nat, k: nat)
    requires IdealAead(env) && Live(env, g, s) && Small(s.store, n) && n < U32_MAX && !c.op.OpMint?
    requires e == EffectOf(env, s, c)
    requires k <= |Writes(env, s.store, e)|
    ensures |CutAt(env, s.store, e, k).bearers| == |s.store.bearers|
  {
    var ws := Writes(env, s.store, e);
    CallProper(env, g, s, c, e, n);
    ProperWritesOk(env, g, s, e, n);
    WritesKeep(env, g, s.store, ws, k);
    WritesGrow(env, g, s.store, ws, k, |ws|);
    assert ws[..|ws|] == ws;
    OnlyMintAdds(env, g, s, c, e, n);
    EventLeavesBearers(env, g, s, e, n);
  }

  lemma QuietCut(env: Env, s: StoreState, e: Effect, k: nat)
    requires NoBearerWrites(e.core) && k <= |Writes(env, s, e)|
    ensures CutAt(env, s, e, k).bearers == s.bearers
  {
    var ws := Writes(env, s, e);
    forall j | 0 <= j < k ensures !ws[..k][j].WriteBearer? {
      assert j < |e.core| ==> !e.core[j].WriteBearer?;
    }
    BearersUntouched(env, s, ws[..k]);
  }

  predicate OnLog(w: Write) { w.WriteRow? || w.WriteMeta? }

  lemma {:induction false} TablesUntouched(env: Env, s: StoreState, ws: seq<Write>)
    requires forall k :: 0 <= k < |ws| ==> OnLog(ws[k])
    ensures ApplyAll(env, s, ws).bearers == s.bearers && ApplyAll(env, s, ws).relays == s.relays
  {
    if ws != [] {
      TablesUntouched(env, s, ws[..|ws| - 1]);
      assert OnLog(ws[|ws| - 1]);
    }
  }

  lemma CutOfMint(env: Env, s: StoreState, e: Effect, policy: RelayPolicyRow, row: BearerRow, k: nat)
    requires e.core == [WritePolicy(policy), WriteBearer(row)] && k <= |Writes(env, s, e)|
    requires Apply(env, Apply(env, s, WritePolicy(policy)), WriteBearer(row)).bearers == s.bearers + [row]
    ensures CutAt(env, s, e, k).bearers == s.bearers + if k >= 2 then [row] else []
    ensures k >= 2 ==> CutAt(env, s, e, k).relays == UpsertPolicy(s.relays, policy)
  {
    var ws := Writes(env, s, e);
    assert ws[..0] == [];
    if k >= 1 {
      ApplyUpTo(env, s, ws, 1);
    }
    if k >= 2 {
      ApplyUpTo(env, s, ws, 2);
      LaterOnLog(env, s, ws, 2, k);
    }
  }

  /** Writes on the log alone leave the tables as they were. */
  lemma LaterOnLog(env: Env, s: StoreState, ws: seq<Write>, j: nat, k: nat)
    requires j <= k <= |ws| && forall i :: j <= i < |ws| ==> OnLog(ws[i])
    ensures ApplyAll(env, s, ws[..k]).bearers == ApplyAll(env, s, ws[..j]).bearers
    ensures ApplyAll(env, s, ws[..k]).relays == ApplyAll(env, s, ws[..j]).relays
  {
    var more := ws[j..k];
    forall i | 0 <= i < |more| ensures OnLog(more[i]) {
      assert more[i] == ws[j + i];
    }
    TablesUntouched(env, ApplyAll(env, s, ws[..j]), more);
    ApplyConcat(env, s, ws[..j], more);
    assert ws[..k] == ws[..j] + more;
  }

  /** The mint is granted, and these are its two writes. */
  predicate Granted(env: Env, s: Snap, c: Call, e: Effect)
    requires c.op.OpMint?
  {
    && s.vault.Unlocked? && MintRefusal(s.store, c.at, c.op.minting).None?
    && var expiresAtMs := ExpiryMs(c.at.nowMs, c.op.minting.spec.policyTtlSecs, c.op.minting.requestedTtlSecs);
       expiresAtMs.Some? && e.core == [WritePolicy(MintedPolicy(c.op.minting)),
                                       WriteBearer(MintedRow(env, s.vault.dek, s.store, c.at, c.op.minting,
                                                             expiresAtMs.value))]
  }

  lemma MintShape(env: Env, s: Snap, c: Call, e: Effect)
    requires c.op.OpMint? && e == EffectOf(env, s, c)
    ensures e.core == [] || Granted(env, s, c, e)
  {
  }

  lemma GrantedCut(env: Env, s: Snap, at: Reading, m: Minting, expiresAtMs: I64, e: Effect, row: BearerRow,
                   t: StoreState,
                   n: nat, k: nat)
    requires PoliciesOk(s.store.relays) && Small(s.store, n) && n < U32_MAX && LoadBearer(s.store, TokenOf(m)).None?
    requires s.vault.Unlocked? && row == MintedRow(env, s.vault.dek, s.store, at, m, expiresAtMs)
    requires e.core == [WritePolicy(MintedPolicy(m)), WriteBearer(row)]
    requires k <= |Writes(env, s.store, e)| && t == CutAt(env, s.store, e, k)
    ensures t.bearers == s.store.bearers + if k >= 2 then [row] else []
    ensures k >= 2 ==> LinkedTo(t.relays, row, RelayOf(m))
  {
    AssignedLinks(s.store.relays, MintedPolicy(m), n);
    MintedPolicyFound(s.store.relays, MintedPolicy(m));
    MintStores(env, s.vault.dek, s.store, at, m, expiresAtMs);
    CutOfMint(env, s.store, e, MintedPolicy(m), row, k);
  }

  /** Row `j` was issued by the happening, and its policy id leads to the relay it was minted for. */
  predicate IssuedHere(env: Env, s: Snap, x: Happening, t: StoreState, j: nat)
    requires j < |t.bearers|
  {
    IssuedBy(env, s, x, t.bearers[j]) && LinkedTo(t.relays, t.bearers[j], RelayOf(x.call.op.minting))
  }

  /** A bearer that was not there before the step is the one the step issued. */
  lemma CutBearerIssued(env: Env, g: Genesis, s: Snap, x: Happening, e: Effect, n: nat, k: nat, j: nat)
    requires IdealAead(env) && Live(env, g, s) && Small(s.store, n) && n < U32_MAX && FreshToken(s.store, x.call.op)
    requires e == EffectOf(env, s, x.call) && k <= |Writes(env, s.store, e)|
    requires |s.store.bearers| <= j < |CutAt(env, s.store, e, k).bearers|
    ensures IssuedHere(env, s, x, CutAt(env, s.store, e, k), j)
  {
    if !x.call.op.OpMint? {
      NonMintKeepsCount(env, g, s, x.call, e, n, k);
    } else {
      MintedIsIssued(env, g, s, x, e, n, k, CutAt(env, s.store, e, k), j);
    }
  }

  lemma MintedIsIssued(env: Env, g: Genesis, s: Snap, x: Happening, e: Effect, n: nat, k: nat, t: StoreState, j: nat)
    requires Live(env, g, s) && Small(s.store, n) && n < U32_MAX && FreshToken(s.store, x.call.op)
    requires x.call.op.OpMint? && e == EffectOf(env, s, x.call) && k <= |Writes(env, s.store, e)|
    requires t == CutAt(env, s.store, e, k) && |s.store.bearers| <= j < |t.bearers|
    ensures IssuedHere(env, s, x, t, j)
  {
    MintShape(env, s, x.call, e);
    GrantedIsIssued(env, s, x, e, n, k, t, j);
  }

  lemma GrantedIsIssued(env: Env, s: Snap, x: Happening, e: Effect, n: nat, k: nat, t: StoreState, j: nat)
    requires PoliciesOk(s.store.relays) && Small(s.store, n) && n < U32_MAX && FreshToken(s.store, x.call.op)
    requires x.call.op.OpMint? && (e.core == [] || Granted(env, s, x.call, e)) && k <= |Writes(env, s.store, e)|
    requires t == CutAt(env, s.store, e, k) && |s.store.bearers| <= j < |t.bearers|
    ensures IssuedHere(env, s, x, t, j)
  {
    if e.core == [] {
      QuietCut(env, s.store, e, k);
      assert false;
    }
    var m := x.call.op.minting;
    var expiresAtMs := ExpiryMs(x.call.at.nowMs, m.spec.policyTtlSecs, m.requestedTtlSecs).value;
    var row := MintedRow(env, s.vault.dek, s.store, x.call.at, m, expiresAtMs);
    GrantedCut(env, s, x.call.at, m, expiresAtMs, e, row, t, n, k);
    RowIsIssued(env, s, x, expiresAtMs, t, row, j);
  }

  lemma RowIsIssued(env: Env, s: Snap, x: Happening, expiresAtMs: I64, t: StoreState, row: BearerRow, j: nat)
    requires x.call.op.OpMint? && s.vault.Unlocked? && MintRefusal(s.store, x.call.at, x.call.op.minting).None?
    requires var m := x.call.op.minting;
             Some(expiresAtMs) == ExpiryMs(x.call.at.nowMs, m.spec.policyTtlSecs, m.requestedTtlSecs)
    requires row == MintedRow(env, s.vault.dek, s.store, x.call.at, x.call.op.minting, expiresAtMs)
    requires LinkedTo(t.relays, row, RelayOf(x.call.op.minting)) && j < |t.bearers| && t.bearers[j] == row
    ensures IssuedHere(env, s, x, t, j)
  {
  }

  lemma NewBearerIssued(env: Env, g: Genesis, s: Snap, t: StoreState, x: Happening, n: nat, j: nat)
    requires IdealAead(env) && Live(env, g, s) && Small(s.store, n) && n < U32_MAX && FreshToken(s.store, x.call.op)
    requires t == Next(env, s, x).store && |s.store.bearers| <= j < |t.bearers|
    ensures IssuedHere(env, s, x, t, j)
  {
    var e := EffectOf(env, s, x.call);
    NextIsCut(env, s, e, x);
    CutBearerIssued(env, g, s, x, e, n, Reached(env, s.store, e, x), j);
  }

  lemma SetUpAddsNone(env: Env, s: Snap, t: StoreState, x: Happening)
    requires Blank(env, s) && SetsUp(s.store, x.call.op) && t == Next(env, s, x).store
    ensures t.bearers == []
  {
    var e := EffectOf(env, s, x.call);
    NextIsCut(env, s, e, x);
    InitWritesNoBearers(env, s, x.call, e);
    QuietCut(env, s.store, e, Reached(env, s.store, e, x));
  }

  lemma IssuedStays(env: Env, s: Snap, x: Happening, t: StoreState, u: StoreState, j: nat)
    requires j < |t.bearers| && j < |u.bearers| && IssuedHere(env, s, x, t, j) && Revises(t.bearers[j], u.bearers[j])
    requires PoliciesOk(u.relays) && PoliciesStay(t.relays, u.relays)
    ensures IssuedHere(env, s, x, u, j)
  {
    LinkStays(t.relays, u.relays, t.bearers[j], u.bearers[j], RelayOf(x.call.op.minting));
  }

  /** The init that sets up a vault leaves it without bearers. */
  lemma NoBearersAtSetUp(env: Env, xs: seq<Happening>)
    requires IdealAead(env) && Orderly(env, xs) && |xs| <= U32_MAX
    requires xs != [] && GenesisOf(env, xs).Some? && GenesisOf(env, xs[..|xs| - 1]).None?
    ensures Run(env, xs).store.bearers == []
  {
    HistoryInvariant(env, xs[..|xs| - 1]);
    SetUpAddsNone(env, Run(env, xs[..|xs| - 1]), Run(env, xs).store, xs[|xs| - 1]);
  }

  /** A bearer the last happening of a history added is one it issued. */
  lemma LastStepBearer(env: Env, xs: seq<Happening>, front: seq<Happening>, j: nat)
    requires IdealAead(env) && Orderly(env, xs) && |xs| <= U32_MAX && xs != [] && front == xs[..|xs| - 1]
    requires GenesisOf(env, front).Some?
    requires |Run(env, front).store.bearers| <= j < |Run(env, xs).store.bearers|
    ensures IssuedHere(env, Run(env, front), xs[|xs| - 1], Run(env, xs).store, j)
  {
    HistoryInvariant(env, front);
    NewBearerIssued(env, GenesisOf(env, front).value, Run(env, front), Run(env, xs).store, xs[|xs| - 1], |front|, j);
  }

  /** A count that starts at `j` or below and ends above it passes `j` in some step. */
  lemma {:induction false} Passes(count: nat -> nat, n: nat, j: nat) returns (k: nat)
    requires count(0) <= j < count(n)
    ensures k < n && count(k) <= j < count(k + 1)
  {
    if count(n - 1) <= j {
      k := n - 1;
    } else {
      k := Passes(count, n - 1, j);
    }
  }

  function BearerCount(env: Env, xs: seq<Happening>, k: nat): nat {
    if k <= |xs| then |Run(env, xs[..k]).store.bearers| else 0
  }

  /** The happening at which the table came to hold its row `j`. */
  lemma AddedAt(env: Env, xs: seq<Happening>, j: nat) returns (k: nat)
    requires j < |Run(env, xs).store.bearers|
    ensures k < |xs| && |Run(env, xs[..k]).store.bearers| <= j < |Run(env, xs[..k + 1]).store.bearers|
  {
    assert xs[..0] == [] && xs[..|xs|] == xs;
    k := Passes(k => BearerCount(env, xs, k), |xs|, j);
  }

  /** The bearer a happening adds to a history is one it issued. */
  lemma AddedIsIssued(env: Env, xs: seq<Happening>, k: nat, j: nat)
    requires IdealAead(env) && Orderly(env, xs) && |xs| <= U32_MAX && k < |xs|
    requires |Run(env, xs[..k]).store.bearers| <= j < |Run(env, xs[..k + 1]).store.bearers|
    ensures GenesisOf(env, xs[..k + 1]).Some?
    ensures IssuedHere(env, Run(env, xs[..k]), xs[k], Run(env, xs[..k + 1]).store, j)
  {
    var upTo := xs[..k + 1];
    assert upTo[..k] == xs[..k];
    OrderlyPrefix(env, xs, k + 1);
    HistoryInvariant(env, upTo);
    if GenesisOf(env, xs[..k]).None? {
      NoBearersAtSetUp(env, upTo);
      assert false;
    }
    LastStepBearer(env, upTo, xs[..k], j);
  }

  /**
   Every stored bearer was issued by a mint of the history and at most revoked since, and its policy id
   still leads to the relay it was minted for.
   */
  lemma Provenance(env: Env, xs: seq<Happening>, j: nat) returns (k: nat)
    requires IdealAead(env) && Orderly(env, xs) && |xs| <= U32_MAX && GenesisOf(env, xs).Some?
    requires j < |Run(env, xs).store.bearers|
    ensures k < |xs| && IssuedHere(env, Run(env, xs[..k]), xs[k], Run(env, xs).store, j)
  {
    k := AddedAt(env, xs, j);
    AddedIsIssued(env, xs, k, j);
    IssuedEver(env, xs, k + 1, Run(env, xs[..k]), xs[k], j);
  }

  /** What a bearer was issued as it stays, revocation aside. */
  lemma IssuedEver(env: Env, xs: seq<Happening>, k: nat, s: Snap, x: Happening, j: nat)
    requires IdealAead(env) && Orderly(env, xs) && |xs| <= U32_MAX && k <= |xs| && GenesisOf(env, xs[..k]).Some?
    requires j < |Run(env, xs[..k]).store.bearers| && IssuedHere(env, s, x, Run(env, xs[..k]).store, j)
    ensures j < |Run(env, xs).store.bearers| && IssuedHere(env, s, x, Run(env, xs).store, j)
  {
    HistoryInvariant(env, xs);
    HistoryGrows(env, xs, k);
    IssuedStays(env, s, x, Run(env, xs[..k]).store, Run(env, xs).store, j);
  }

  // ---- lifetime ----

  /** The lifetime a mint grants: what was asked for, capped by the policy and by the ceiling. */
  function GrantedMs(m: Minting): int { Min(Min(m.requestedTtlSecs, m.spec.policyTtlSecs), 86_400) * 1000 }

  /** The lifetime of the bearer a call mints: the one granted, up to the start of its last second. */
  function LifeOf(c: Call): int
    requires c.op.OpMint?
  {
    match ExpiryMs(c.at.nowMs, c.op.minting.spec.policyTtlSecs, c.op.minting.requestedTtlSecs)
    case None => 0
    case Some(expiresAtMs) => expiresAtMs - c.at.nowMs
  }

  /** An issued bearer keeps the times of its mint and lives for the lifetime granted, short of it by under a second. */
  lemma IssuedLifetime(env: Env, s: Snap, x: Happening, b: BearerRow)
    requires IssuedBy(env, s, x, b)
    ensures b.claims.tokenId == TokenOf(x.call.op.minting)
    ensures b.wireMac == WireMac(env, s.vault.dek, RawOf(x.call.op.minting))
    ensures b.claims.issuedAtMs == x.call.at.nowMs && b.claims.issuedBoottimeMs == x.call.at.bootMs
    ensures b.claims.expiresAtMs - b.claims.issuedAtMs == LifeOf(x.call)
    ensures OrdinaryTime(x.call.at.nowMs) ==>
      0 < LifeOf(x.call) <= GrantedMs(x.call.op.minting) < LifeOf(x.call) + 1000 &&
          LifeOf(x.call) <= 86_400_000
  {
    var m := x.call.op.minting;
    if OrdinaryTime(x.call.at.nowMs) {
      ExpiryWindow(x.call.at.nowMs, m.spec.policyTtlSecs, m.requestedTtlSecs);
    }
  }

  /** An issued bearer is bound to whom it was minted for: uid as uid, pid as pid, client as client, key as key. */
  lemma IssuedBinding(env: Env, s: Snap, x: Happening, b: BearerRow)
    requires IssuedBy(env, s, x, b)
    ensures match x.call.op.minting.binding
            case Local(uid, pid) =>
              && b.claims.clientUid == uid && b.claims.clientPid == pid
              && b.claims.clientId.None? && b.claims.dpopJkt.None?
            case Remote(client, jkt) =>
              && b.claims.clientUid.None? && b.claims.clientPid.None?
              && b.claims.clientId == Some(client) && b.claims.dpopJkt == Some(jkt)
  {
  }

  /** The request comes from the local peer the binding names. */
  predicate UsedBy(binding: BearerBinding, req: EgressReq) {
    && binding.Local? && (binding.peerUid.Some? ==> req.peerUid == binding.peerUid)
    && (binding.peerPid.Some? ==> req.peerPid == binding.peerPid)
  }

  /** An allowed swap comes from the peer its row names, and its row names no remote client. */
  lemma AllowedBinds(env: Env, s: Snap, at: Reading, call: SwapCall, token: Text)
    requires SwapEffect(env, s, at, call).reply == Swapped(Allowed) && ParseBearer(call.raw) == Some(token)
    ensures LoadBearer(s.store, token).Some?
    ensures var c := LoadBearer(s.store, token).value.claims;
      && c.clientId.None? && (c.clientUid.Some? ==> call.req.peerUid == c.clientUid)
      && (c.clientPid.Some? ==> call.req.peerPid == c.clientPid)
  {
    AllowedMeans(env, s, at, call);
    ScreenedRow(env, s, call.raw);
    var q := SwapQuery(s, at, ScreenBearer(env, s, call.raw), call.req);
    AllowIffEveryClause(q);
    assert Holds(9, q) && Holds(12, q) && Holds(13, q);
  }

  /** A request lies within the life of its mint on both clocks, and the clocks agree to a minute. */
  predicate WithinLife(mint: Reading, now: Reading, lifeMs: int) {
    && 0 <= now.bootMs - mint.bootMs < lifeMs
    && 0 <= now.nowMs - mint.nowMs < lifeMs
    && Abs((now.nowMs - mint.nowMs) - (now.bootMs - mint.bootMs)) <= 60_000
  }

  /**
   Whatever an allowed swap presented was minted earlier in the history: the token is the mint's, the
   string is the minted one (or two strings share a wire MAC), the mint was for a local peer and the
   request comes from it, within the lifetime that mint granted, measured on the boot clock however the
   wall clock moved in between.
   */
  lemma AllowedWasMinted(env: Env, xs: seq<Happening>, at: Reading, call: SwapCall) returns (k: nat)
    requires IdealAead(env) && Orderly(env, xs) && |xs| <= U32_MAX
    requires SwapEffect(env, Run(env, xs), at, call).reply == Swapped(Allowed)
    ensures k < |xs| && xs[k].call.op.OpMint? && GenesisOf(env, xs).Some?
    ensures var m, dek := xs[k].call.op.minting, GenesisOf(env, xs).value.enrolment.dek;
      && ParseBearer(call.raw) == Some(TokenOf(m))
      && (call.raw == RawOf(m) || MacCollision(env, BearerWireKey, dek, call.raw, RawOf(m)))
      && UsedBy(m.binding, call.req)
      && (OrdinaryTime(xs[k].call.at.nowMs) ==>
            WithinLife(xs[k].call.at, at, LifeOf(xs[k].call)) && LifeOf(xs[k].call) <= GrantedMs(m))
  {
    var s := Run(env, xs);
    HistoryInvariant(env, xs);
    AllowedMeans(env, s, at, call);
    ScreenedRow(env, s, call.raw);
    var j := BearerIndex(s.store.bearers, ParseBearer(call.raw).value);
    k := Provenance(env, xs, j);
    MintUnderDek(env, xs, k);
    AllowedIssued(env, s, at, call, Run(env, xs[..k]), xs[k], s.store.bearers[j]);
  }

  lemma AllowedIssued(env: Env, s: Snap, at: Reading, call: SwapCall, u: Snap, x: Happening, b: BearerRow)
    requires SwapEffect(env, s, at, call).reply == Swapped(Allowed) && IssuedBy(env, u, x, b) && s.vault == u.vault
    requires ParseBearer(call.raw) == Some(b.claims.tokenId) && LoadBearer(s.store, b.claims.tokenId) == Some(b)
    requires s.vault.Unlocked? && b.wireMac == WireMac(env, s.vault.dek, call.raw)
    ensures var m := x.call.op.minting;
      && ParseBearer(call.raw) == Some(TokenOf(m))
      && (call.raw == RawOf(m) || MacCollision(env, BearerWireKey, s.vault.dek, call.raw, RawOf(m)))
      && UsedBy(m.binding, call.req)
      && (OrdinaryTime(x.call.at.nowMs) ==> WithinLife(x.call.at, at, LifeOf(x.call)) && LifeOf(x.call) <= GrantedMs(m))
  {
    AllowedIsAlive(env, s, at, call, b.claims.tokenId);
    AllowedBinds(env, s, at, call, b.claims.tokenId);
    IssuedLifetime(env, u, x, b);
    IssuedBinding(env, u, x, b);
  }

  /** Every DEK that was ever in RAM is the enrolled one. */
  lemma MintUnderDek(env: Env, xs: seq<Happening>, k: nat)
    requires IdealAead(env) && Orderly(env, xs) && |xs| <= U32_MAX && k <= |xs| && Run(env, xs[..k]).vault.Unlocked?
    ensures GenesisOf(env, xs).Some? && Run(env, xs[..k]).vault.dek == GenesisOf(env, xs).value.enrolment.dek
  {
    OrderlyPrefix(env, xs, k);
    HistoryInvariant(env, xs[..k]);
    HistoryGrows(env, xs, k);
  }

  /** The call mints the token of this string. */
  predicate MintOf(c: Call, raw: Text) { c.op.OpMint? && ParseBearer(raw) == Some(TokenOf(c.op.minting)) }

  /** Once the lifetime of every mint of a token has passed on the boot clock, the token is never allowed again. */
  lemma DeadStaysDead(env: Env, xs: seq<Happening>, at: Reading, call: SwapCall)
    requires IdealAead(env) && Orderly(env, xs) && |xs| <= U32_MAX
    requires forall k :: 0 <= k < |xs| && MintOf(xs[k].call, call.raw) ==>
               OrdinaryTime(xs[k].call.at.nowMs) && at.bootMs >= xs[k].call.at.bootMs + LifeOf(xs[k].call)
    ensures SwapEffect(env, Run(env, xs), at, call).reply != Swapped(Allowed)
  {
    if SwapEffect(env, Run(env, xs), at, call).reply == Swapped(Allowed) {
      var k := AllowedWasMinted(env, xs, at, call);
    }
  }

  /** A bearer minted for a remote client is never allowed over the local path. */
  lemma RemoteNeverLocal(env: Env, xs: seq<Happening>, at: Reading, call: SwapCall)
    requires IdealAead(env) && Orderly(env, xs) && |xs| <= U32_MAX
    requires forall k :: 0 <= k < |xs| && MintOf(xs[k].call, call.raw) ==> xs[k].call.op.minting.binding.Remote?
    ensures SwapEffect(env, Run(env, xs), at, call).reply != Swapped(Allowed)
  {
    if SwapEffect(env, Run(env, xs), at, call).reply == Swapped(Allowed) {
      var k := AllowedWasMinted(env, xs, at, call);
      assert MintOf(xs[k].call, call.raw);
    }
  }

  // ---- the string handed out ----

  lemma MintedReply(env: Env, s: Snap, at: Reading, m: Minting)
    ensures var e := MintEffect(env, s, at, m);
      e.reply.Minted? ==> e.core != [] && e.vault == s.vault && e.reply == Minted(RelayOf(m), TokenOf(m), RawOf(m))
  {
  }

  lemma MintedIsGranted(env: Env, s: Snap, c: Call, e: Effect)
    requires c.op.OpMint? && e == EffectOf(env, s, c) && e.reply.Minted?
    ensures Granted(env, s, c, e) && e.vault == s.vault
    ensures e.reply == Minted(RelayOf(c.op.minting), TokenOf(c.op.minting), RawOf(c.op.minting))
  {
    MintShape(env, s, c, e);
    MintedReply(env, s, c.at, c.op.minting);
  }

  /** The policy a mint asked for, under the name answered. */
  function PolicyAsked(m: Minting): RelayPolicy { m.spec.(relayId := RelayOf(m)) }

  /** The string a mint answers passes the screen of a swap right after: its live row, under the policy asked for. */
  lemma MintedPasses(env: Env, xs: seq<Happening>, c: Call)
    requires IdealAead(env) && Orderly(env, xs) && |xs| < U32_MAX && FreshToken(Run(env, xs).store, c.op)
    requires c.op.OpMint? && EffectOf(env, Run(env, xs), c).reply.Minted?
    ensures var s, t, reply := Run(env, xs), Step(env, Run(env, xs), c), EffectOf(env, Run(env, xs), c).reply;
            var k := ScreenBearer(env, t, reply.raw);
      && k.Known? && k.row.claims.tokenId == reply.tokenId && !k.row.claims.revoked
      && k.policyRow.policy == c.op.minting.spec.(relayId := reply.relayId)
      && IssuedBy(env, s, Completed(c), k.row)
  {
    HistoryInvariant(env, xs);
    var s, e := Run(env, xs), EffectOf(env, Run(env, xs), c);
    MintedIsGranted(env, s, c, e);
    GrantedPasses(env, GenesisOf(env, xs).value, s, c, e, Step(env, s, c), |xs|);
  }

  lemma GrantedPasses(env: Env, g: Genesis, s: Snap, c: Call, e: Effect, t: Snap, n: nat)
    requires IdealAead(env) && Live(env, g, s) && Small(s.store, n) && n < U32_MAX && FreshToken(s.store, c.op)
    requires c.op.OpMint? && e == EffectOf(env, s, c) && Granted(env, s, c, e) && e.vault == s.vault
    requires t == After(env, s, e)
    ensures var k := ScreenBearer(env, t, RawOf(c.op.minting));
      && k.Known? && k.row.claims.tokenId == TokenOf(c.op.minting) && !k.row.claims.revoked
      && k.policyRow.policy == PolicyAsked(c.op.minting) && IssuedBy(env, s, Completed(c), k.row)
  {
    var m := c.op.minting;
    var expiresAtMs := ExpiryMs(c.at.nowMs, m.spec.policyTtlSecs, m.requestedTtlSecs).value;
    CallProper(env, g, s, c, e, n);
    ProperKeepsLive(env, g, s, e, n);
    EventLeavesBearers(env, g, s, e, n);
    GrantedTables(env, s.vault.dek, s.store, c.at, m, expiresAtMs, e.core, t.store, n);
    FloorReads(env, g, t.store);
    NewRowPasses(env, s, c, expiresAtMs, t);
  }

  lemma FloorReads(env: Env, g: Genesis, s: StoreState)
    requires HeaderOk(env, g, s)
    ensures StoredFloor(s) == Some(g.floorMs)
  {
    DecimalParses(g.floorMs);
  }

  lemma GrantedTables(env: Env, dek: Dek, s: StoreState, at: Reading, m: Minting, expiresAtMs: I64, core: seq<Write>,
                      t: StoreState, n: nat)
    requires PoliciesOk(s.relays) && Small(s, n) && n < U32_MAX && LoadBearer(s, TokenOf(m)).None?
    requires core == [WritePolicy(MintedPolicy(m)), WriteBearer(MintedRow(env, dek, s, at, m, expiresAtMs))]
    requires t.bearers == ApplyAll(env, s, core).bearers && t.relays == ApplyAll(env, s, core).relays
    ensures var row := MintedRow(env, dek, s, at, m, expiresAtMs);
      && LoadBearer(t, TokenOf(m)) == Some(row) && FindPolicyById(t, row.claims.policyId).Some?
      && FindPolicyById(t, row.claims.policyId).value.policy == MintedPolicy(m).policy
  {
    AssignedLinks(s.relays, MintedPolicy(m), n);
    MintStores(env, dek, s, at, m, expiresAtMs);
    assert core == [core[0]] + [core[1]];
    ApplyOne(env, s, core[0]);
    ApplyMore(env, s, [core[0]], core[1]);
  }

  lemma NewRowPasses(env: Env, s: Snap, c: Call, expiresAtMs: I64, t: Snap)
    requires c.op.OpMint? && s.vault.Unlocked? && t.vault == s.vault && StoredFloor(t.store).Some?
    requires MintRefusal(s.store, c.at, c.op.minting).None?
    requires ExpiryMs(c.at.nowMs, c.op.minting.spec.policyTtlSecs, c.op.minting.requestedTtlSecs) == Some(expiresAtMs)
    requires var row := MintedRow(env, s.vault.dek, s.store, c.at, c.op.minting, expiresAtMs);
      && LoadBearer(t.store, TokenOf(c.op.minting)) == Some(row) && FindPolicyById(t.store, row.claims.policyId).Some?
      && FindPolicyById(t.store, row.claims.policyId).value.policy == MintedPolicy(c.op.minting).policy
    ensures var k := ScreenBearer(env, t, RawOf(c.op.minting));
      && k.Known? && k.row.claims.tokenId == TokenOf(c.op.minting) && !k.row.claims.revoked
      && k.policyRow.policy == PolicyAsked(c.op.minting) && IssuedBy(env, s, Completed(c), k.row)
  {
    MintedBearerParses(c.op.minting.tokenBytes, c.op.minting.secretBytes);
  }

  // ---- revocation ----

  predicate TokenRevoked(s: StoreState, token: Text) {
    var b := LoadBearer(s, token);
    b.Some? && b.value.claims.revoked
  }

  /** Once a token's row is revoked it stays so, and no swap of the token is ever allowed again. */
  lemma RevokedStaysDenied(env: Env, xs: seq<Happening>, k: nat, token: Text, at: Reading, call: SwapCall)
    requires IdealAead(env) && Orderly(env, xs) && |xs| <= U32_MAX && k <= |xs| && GenesisOf(env, xs[..k]).Some?
    requires TokenRevoked(Run(env, xs[..k]).store, token)
    requires ParseBearer(call.raw) == Some(token)
    ensures SwapEffect(env, Run(env, xs), at, call).reply != Swapped(Allowed)
  {
    OrderlyPrefix(env, xs, k);
    HistoryInvariant(env, xs[..k]);
    HistoryInvariant(env, xs);
    HistoryGrows(env, xs, k);
    BearerStays(env, GenesisOf(env, xs).value, Run(env, xs[..k]).store, Run(env, xs).store, token);
    if SwapEffect(env, Run(env, xs), at, call).reply == Swapped(Allowed) {
      AllowedIsAlive(env, Run(env, xs), at, call, token);
    }
  }

  /**
   On a history: the row a token had before it was revoked, put back by an editor of the store, is known
   and unrevoked again at any later point with the vault unlocked. So `RevokedStaysDenied` is about what
   the engine does, and the row MAC adds nothing against this edit.
   */
  lemma RevocationUndone(env: Env, xs: seq<Happening>, k: nat, token: Text, raw: Text)
    requires IdealAead(env) && Orderly(env, xs) && |xs| <= U32_MAX && k <= |xs| && GenesisOf(env, xs[..k]).Some?
    requires LoadBearer(Run(env, xs[..k]).store, token).Some? && !TokenRevoked(Run(env, xs[..k]).store, token)
    requires ParseBearer(raw) == Some(token) && Run(env, xs).vault.Unlocked?
    requires LoadBearer(Run(env, xs[..k]).store, token).value.wireMac == WireMac(env, Run(env, xs).vault.dek, raw)
    ensures var s, earlier := Run(env, xs), LoadBearer(Run(env, xs[..k]).store, token).value;
            var forged := s.(store := Apply(env, s.store, WriteBearer(earlier)));
            var screen := ScreenBearer(env, forged, raw);
                screen.Known? && screen.row == earlier && !screen.row.claims.revoked
  {
    OrderlyPrefix(env, xs, k);
    HistoryInvariant(env, xs[..k]);
    HistoryInvariant(env, xs);
    HistoryGrows(env, xs, k);
    EarlierRowPasses(env, GenesisOf(env, xs).value, Run(env, xs[..k]).store, Run(env, xs), token, raw);
  }

  lemma EarlierRowPasses(env: Env, g: Genesis, s: StoreState, t: Snap, token: Text, raw: Text)
    requires Honest(env, g, s) && Live(env, g, t) && Grows(s, t.store) && t.vault.Unlocked?
    requires ParseBearer(raw) == Some(token)
    requires LoadBearer(s, token).Some? && LoadBearer(s, token).value.wireMac == WireMac(env, t.vault.dek, raw)
    ensures var earlier := LoadBearer(s, token).value;
            var screen := ScreenBearer(env, t.(store := Apply(env, t.store, WriteBearer(earlier))), raw);
            screen.Known? && screen.row == earlier
  {
    DecimalParses(g.floorMs);
    EarlierRowFits(env, g, s, t.store, token);
    RestoredRowPasses(env, t, raw, LoadBearer(s, token).value);
  }

  lemma EarlierRowFits(env: Env, g: Genesis, s: StoreState, t: StoreState, token: Text)
    requires Honest(env, g, s) && Honest(env, g, t) && Grows(s, t) && LoadBearer(s, token).Some?
    ensures var earlier := LoadBearer(s, token).value;
      && RowAuthentic(env, g.enrolment.dek, earlier) && LoadBearer(t, token).Some?
      && FindPolicyById(t, earlier.claims.policyId).Some?
  {
    var earlier := LoadBearer(s, token).value;
    assert BearerOk(env, g.enrolment.dek, s.relays, earlier);
    BearerStays(env, g, s, t, token);
    LinkKept(s.relays, t.relays, earlier.claims.policyId);
  }

  /** The live bearers a revocation counts. */
  function LiveCount(s: StoreState, relayId: Text): nat { |Unrevoked(BearersForRelay(s, relayId))| }

  ghost predicate AllRevoked(list: seq<BearerRow>) { forall k :: 0 <= k < |list| ==> list[k].claims.revoked }

  lemma {:induction false} AllRevokedCounts(list: seq<BearerRow>)
    requires AllRevoked(list)
    ensures Unrevoked(list) == []
  {
    if list != [] {
      AllRevokedCounts(list[..|list| - 1]);
    }
  }

  /** The bearers after an applied revocation: those linked to the relay are revoked, all others are as they were. */
  ghost predicate RevokedExactly(before: seq<BearerRow>, later: seq<BearerRow>, policyId: I64) {
    |later| == |before| && forall j :: 0 <= j < |before| ==>
      if before[j].claims.policyId == policyId then Revises(before[j], later[j]) && later[j].claims.revoked
      else later[j] == before[j]
  }

  lemma WalkRevokes(env: Env, dek: Dek, s: StoreState, policyId: I64)
    requires TokensDiffer(s.bearers)
    ensures var t := ApplyAll(env, s, RevokeWrites(env, dek, FilterByPolicy(s.bearers, policyId)));
      t == s.(bearers := t.bearers) && RevokedExactly(s.bearers, t.bearers, policyId)
  {
    var list := FilterByPolicy(s.bearers, policyId);
    FilterMembers(s.bearers, policyId);
    RevokesExactly(env, dek, s, list);
    var t := ApplyAll(env, s, RevokeWrites(env, dek, list));
    forall j | 0 <= j < |s.bearers|
      ensures if s.bearers[j].claims.policyId == policyId
              then Revises(s.bearers[j], t.bearers[j]) && t.bearers[j].claims.revoked
              else t.bearers[j] == s.bearers[j]
    {
      assert StoredAt(s.bearers[j], s.bearers);
      assert t.bearers[j] == FlippedRow(env, dek, s.bearers[j], list);
    }
  }

  lemma NoneLeft(before: seq<BearerRow>, later: seq<BearerRow>, policyId: I64)
    requires RevokedExactly(before, later, policyId)
    ensures Unrevoked(FilterByPolicy(later, policyId)) == []
  {
    var list := FilterByPolicy(later, policyId);
    FilterMembers(later, policyId);
    forall k | 0 <= k < |list| ensures list[k].claims.revoked {
      ListedIsMember(list[k], list);
      assert StoredAt(list[k], later) && list[k].claims.policyId == policyId;
      var j :| 0 <= j < |later| && later[j] == list[k];
    }
    AllRevokedCounts(list);
  }

  /** What an applied revocation of a known relay leaves on an unlocked vault. */
  lemma RevokeCore(env: Env, g: Genesis, s: Snap, at: Reading, relayId: Text, n: nat)
    requires Live(env, g, s) && Small(s.store, n) && s.vault.Unlocked? && LoadPolicy(s.store, relayId).Some?
    ensures var t := ApplyAll(env, s.store, ApplyRevokeEffect(env, s, at, relayId).core);
            var row := LoadPolicy(s.store, relayId).value;
      && RevokedExactly(s.store.bearers, t.bearers, row.id)
      && LoadPolicy(t, relayId) == Some(row.(policy := row.policy.(revoked := true)))
  {
    var flags := PolicyRevokeWrites(s.store, relayId);
    var u := ApplyAll(env, s.store, flags);
    FlagOk(env, g, s.store, relayId, n);
    FlaggedPolicy(env, s.store, relayId);
    var row := LoadPolicy(s.store, relayId).value;
    WalkRevokes(env, s.vault.dek, u, row.id);
    ApplyConcat(env, s.store, flags, Reseals(env, s.vault, RevokeTargets(env, s.store, relayId)));
  }

  lemma FlaggedPolicy(env: Env, s: StoreState, relayId: Text)
    requires LoadPolicy(s, relayId).Some? && LoadPolicy(s, relayId).value.id > 0
    ensures var row := LoadPolicy(s, relayId).value;
            LoadPolicy(ApplyAll(env, s, PolicyRevokeWrites(s, relayId)), relayId) ==
                Some(row.(policy := row.policy.(revoked := true)))
  {
    var row := LoadPolicy(s, relayId).value;
    ApplyOne(env, s, WritePolicy(row.(policy := row.policy.(revoked := true))));
    PolicyStaysPut(s.relays, PolicyIndex(s.relays, relayId), row.(policy := row.policy.(revoked := true)));
  }

  lemma TablesAfter(env: Env, g: Genesis, s: Snap, c: Call, e: Effect, t: StoreState, n: nat)
    requires IdealAead(env) && Live(env, g, s) && Small(s.store, n) && n < U32_MAX && FreshToken(s.store, c.op)
    requires e == EffectOf(env, s, c) && t == After(env, s, e).store
    ensures t.bearers == ApplyAll(env, s.store, e.core).bearers && t.relays == ApplyAll(env, s.store, e.core).relays
  {
    CallProper(env, g, s, c, e, n);
    EventLeavesBearers(env, g, s, e, n);
  }

  /** The store after a relay has been revoked. */
  ghost predicate RelayRevoked(s: StoreState, t: StoreState, relayId: Text) {
    var policy := LoadPolicy(s, relayId);
    policy.Some? ==>
      && RevokedExactly(s.bearers, t.bearers, policy.value.id)
      && LoadPolicy(t, relayId) == Some(policy.value.(policy := policy.value.policy.(revoked := true)))
  }

  lemma RevokeLeaves(env: Env, g: Genesis, s: Snap, c: Call, e: Effect, t: StoreState, n: nat)
    requires IdealAead(env) && Live(env, g, s) && Small(s.store, n) && n < U32_MAX && s.vault.Unlocked?
    requires c.op.OpRevokeRelay? && c.op.relayApply && e == EffectOf(env, s, c) && t == After(env, s, e).store
    ensures RelayRevoked(s.store, t, c.op.relayId)
  {
    TablesAfter(env, g, s, c, e, t, n);
    RevokeEffectIs(env, s, c, e);
    RevokedByCore(env, g, s, c.at, c.op.relayId, e, t, n);
  }

  lemma RevokedByCore(env: Env, g: Genesis, s: Snap, at: Reading, relayId: Text, e: Effect, t: StoreState, n: nat)
    requires Live(env, g, s) && Small(s.store, n) && s.vault.Unlocked? && e == ApplyRevokeEffect(env, s, at, relayId)
    requires var u := ApplyAll(env, s.store, e.core); t.bearers == u.bearers && t.relays == u.relays
    ensures RelayRevoked(s.store, t, relayId)
  {
    if LoadPolicy(s.store, relayId).Some? {
      RevokeCore(env, g, s, at, relayId, n);
    }
  }

  lemma BothCount(env: Env, g: Genesis, s: Snap, at: Reading, relayId: Text, n: nat)
    requires Live(env, g, s) && Small(s.store, n) && s.vault.Unlocked?
    ensures DryRevokeEffect(env, s, at, relayId).reply == Count(AsU32(LiveCount(s.store, relayId)))
    ensures ApplyRevokeEffect(env, s, at, relayId).reply == Count(AsU32(LiveCount(s.store, relayId)))
    ensures DryRevokeEffect(env, s, at, relayId).core == []
  {
    FlagOk(env, g, s.store, relayId, n);
  }

  /** A revoked relay has no live bearer. */
  lemma RevokedCountsZero(s: StoreState, t: StoreState, relayId: Text)
    requires RelayRevoked(s, t, relayId) && (LoadPolicy(s, relayId).None? ==> t.relays == s.relays)
    ensures LiveCount(t, relayId) == 0
  {
    if LoadPolicy(s, relayId).Some? {
      NoneLeft(s.bearers, t.bearers, LoadPolicy(s, relayId).value.id);
    }
  }

  lemma UnknownRelay(env: Env, s: Snap, c: Call, e: Effect)
    requires c.op.OpRevokeRelay? && c.op.relayApply && e == EffectOf(env, s, c)
    requires LoadPolicy(s.store, c.op.relayId).None?
    ensures ApplyAll(env, s.store, e.core).relays == s.store.relays
  {
    RevokeEffectIs(env, s, c, e);
    var none := PolicyRevokeWrites(s.store, c.op.relayId);
    assert none == [];
    assert RevokeTargets(env, s.store, c.op.relayId) == [];
    assert e.core == none + Reseals(env, s.vault, []);
    assert e.core == [];
  }

  /**
   A dry run and an applied revocation of one relay on one unlocked vault answer the same count; the
   dry run writes nothing but its audit row; after the applied one no live bearer of the relay is
   left, its policy is flagged, and every other bearer is untouched.
   */
  lemma DryRunAgrees(env: Env, xs: seq<Happening>, relayId: Text, dry: Call, applied: Call)
    requires IdealAead(env) && Orderly(env, xs) && |xs| < U32_MAX && Run(env, xs).vault.Unlocked?
    requires dry.op == OpRevokeRelay(relayId, false) && applied.op == OpRevokeRelay(relayId, true)
    ensures var s := Run(env, xs);
      && EffectOf(env, s, dry).reply == EffectOf(env, s, applied).reply == Count(AsU32(LiveCount(s.store, relayId)))
      && EffectOf(env, s, dry).core == []
      && LiveCount(Step(env, s, applied).store, relayId) == 0
      && RelayRevoked(s.store, Step(env, s, applied).store, relayId)
  {
    HistoryInvariant(env, xs);
    var s, g := Run(env, xs), GenesisOf(env, xs).value;
    var e, t := EffectOf(env, s, applied), Step(env, s, applied).store;
    BothCount(env, g, s, dry.at, relayId, |xs|);
    BothCount(env, g, s, applied.at, relayId, |xs|);
    RevokeEffectIs(env, s, dry, EffectOf(env, s, dry));
    RevokeEffectIs(env, s, applied, e);
    RevokeLeaves(env, g, s, applied, e, t, |xs|);
    RevokeZero(env, g, s, applied, e, t, |xs|);
  }

  lemma RevokeZero(env: Env, g: Genesis, s: Snap, c: Call, e: Effect, t: StoreState, n: nat)
    requires IdealAead(env) && Live(env, g, s) && Small(s.store, n) && n < U32_MAX
    requires c.op.OpRevokeRelay? && c.op.relayApply && e == EffectOf(env, s, c) && t == After(env, s, e).store
    requires RelayRevoked(s.store, t, c.op.relayId)
    ensures LiveCount(t, c.op.relayId) == 0
  {
    if LoadPolicy(s.store, c.op.relayId).None? {
      UnknownRelay(env, s, c, e);
      TablesAfter(env, g, s, c, e, t, n);
    }
    RevokedCountsZero(s.store, t, c.op.relayId);
  }

  lemma AfterStep(env: Env, xs: seq<Happening>, k: nat)
    requires k < |xs| && xs[k].Completed?
    ensures Run(env, xs[..k + 1]) == Step(env, Run(env, xs[..k]), xs[k].call)
    ensures GenesisOf(env, xs[..k]).Some? ==> GenesisOf(env, xs[..k + 1]) == GenesisOf(env, xs[..k])
  {
    assert xs[..k + 1][..k] == xs[..k];
  }

  /** Revoking a relay is final for every bearer it had, whatever is minted under its name afterwards. */
  lemma RelayRevocationIsFinal(env: Env, xs: seq<Happening>, k: nat, j: nat, at: Reading, call: SwapCall)
    requires IdealAead(env) && Orderly(env, xs) && |xs| <= U32_MAX && k < |xs|
    requires xs[k].Completed? && xs[k].call.op.OpRevokeRelay? && xs[k].call.op.relayApply
    requires Run(env, xs[..k]).vault.Unlocked?
    requires var s, policy := Run(env, xs[..k]).store, LoadPolicy(Run(env, xs[..k]).store, xs[k].call.op.relayId);
      && j < |s.bearers| && policy.Some? && s.bearers[j].claims.policyId == policy.value.id
      && ParseBearer(call.raw) == Some(s.bearers[j].claims.tokenId)
    ensures SwapEffect(env, Run(env, xs), at, call).reply != Swapped(Allowed)
  {
    var token := Run(env, xs[..k]).store.bearers[j].claims.tokenId;
    RelayRowsRevoked(env, xs, k, j);
    RevokedStaysDenied(env, xs, k + 1, token, at, call);
  }

  lemma RelayRowsRevoked(env: Env, xs: seq<Happening>, k: nat, j: nat)
    requires IdealAead(env) && Orderly(env, xs) && |xs| <= U32_MAX && k < |xs|
    requires xs[k].Completed? && xs[k].call.op.OpRevokeRelay? && xs[k].call.op.relayApply
    requires Run(env, xs[..k]).vault.Unlocked?
    requires var s, policy := Run(env, xs[..k]).store, LoadPolicy(Run(env, xs[..k]).store, xs[k].call.op.relayId);
      j < |s.bearers| && policy.Some? && s.bearers[j].claims.policyId == policy.value.id
    ensures GenesisOf(env, xs[..k + 1]).Some?
    ensures TokenRevoked(Run(env, xs[..k + 1]).store, Run(env, xs[..k]).store.bearers[j].claims.tokenId)
  {
    OrderlyPrefix(env, xs, k);
    HistoryInvariant(env, xs[..k]);
    AfterStep(env, xs, k);
    StepRevokes(env, GenesisOf(env, xs[..k]).value, Run(env, xs[..k]), xs[k].call, Run(env, xs[..k + 1]), k, j);
  }

  lemma StepRevokes(env: Env, g: Genesis, s: Snap, c: Call, t: Snap, n: nat, j: nat)
    requires IdealAead(env) && Live(env, g, s) && Small(s.store, n) && n < U32_MAX && s.vault.Unlocked?
    requires c.op.OpRevokeRelay? && c.op.relayApply && t == Step(env, s, c)
    requires var policy := LoadPolicy(s.store, c.op.relayId);
      j < |s.store.bearers| && policy.Some? && s.store.bearers[j].claims.policyId == policy.value.id
    ensures TokenRevoked(t.store, s.store.bearers[j].claims.tokenId)
  {
    var e := EffectOf(env, s, c);
    RevokeLeaves(env, g, s, c, e, t.store, n);
    CallProper(env, g, s, c, e, n);
    ProperKeepsLive(env, g, s, e, n);
    RowRevoked(s.store, t.store, c.op.relayId, j);
  }

  lemma RowRevoked(s: StoreState, t: StoreState, relayId: Text, j: nat)
    requires RelayRevoked(s, t, relayId) && TokensDiffer(t.bearers) && j < |s.bearers|
    requires LoadPolicy(s, relayId).Some? && s.bearers[j].claims.policyId == LoadPolicy(s, relayId).value.id
    ensures TokenRevoked(t, s.bearers[j].claims.tokenId)
  {
    assert Revises(s.bearers[j], t.bearers[j]);
    LoadedAt(t, j);
  }

  lemma RevokeBearerLeaves(env: Env, g: Genesis, s: Snap, c: Call, e: Effect, t: StoreState, n: nat)
    requires IdealAead(env) && Live(env, g, s) && Small(s.store, n) && n < U32_MAX && s.vault.Unlocked?
    requires c.op.OpRevokeBearer? && c.op.bearerApply && e == EffectOf(env, s, c) && t == After(env, s, e).store
    requires LoadBearer(s.store, c.op.tokenId).Some?
    ensures TokenRevoked(t, c.op.tokenId)
  {
    TablesAfter(env, g, s, c, e, t, n);
    RevokeBearerCore(env, s, c, e);
  }

  lemma RevokeBearerCore(env: Env, s: Snap, c: Call, e: Effect)
    requires c.op.OpRevokeBearer? && c.op.bearerApply && e == EffectOf(env, s, c) && s.vault.Unlocked?
    requires LoadBearer(s.store, c.op.tokenId).Some?
    ensures TokenRevoked(ApplyAll(env, s.store, e.core), c.op.tokenId)
  {
    var b := LoadBearer(s.store, c.op.tokenId).value;
    if !b.claims.revoked {
      var w := RevokedRow(env, s.vault.dek, b);
      assert e.core == [WriteBearer(w)];
      ApplyOne(env, s.store, WriteBearer(w));
      Replaced(s.store.bearers, w);
    } else {
      assert e.core == [];
    }
  }

  lemma Replaced(bearers: seq<BearerRow>, row: BearerRow)
    requires BearerIndex(bearers, row.claims.tokenId) < |bearers|
    ensures var newer := UpsertBearer(bearers, row); var i := BearerIndex(newer, row.claims.tokenId);
            i < |newer| && newer[i] == row
  {
    var i := BearerIndex(bearers, row.claims.tokenId);
    assert UpsertBearer(bearers, row)[i].claims.tokenId == row.claims.tokenId;
  }

  /** Revoking one bearer is final for it. */
  lemma BearerRevocationIsFinal(env: Env, xs: seq<Happening>, k: nat, at: Reading, call: SwapCall)
    requires IdealAead(env) && Orderly(env, xs) && |xs| <= U32_MAX && k < |xs|
    requires xs[k].Completed? && xs[k].call.op.OpRevokeBearer? && xs[k].call.op.bearerApply
    requires Run(env, xs[..k]).vault.Unlocked?
    requires LoadBearer(Run(env, xs[..k]).store, xs[k].call.op.tokenId).Some?
    requires ParseBearer(call.raw) == Some(xs[k].call.op.tokenId)
    ensures SwapEffect(env, Run(env, xs), at, call).reply != Swapped(Allowed)
  {
    BearerRowRevoked(env, xs, k);
    RevokedStaysDenied(env, xs, k + 1, xs[k].call.op.tokenId, at, call);
  }

  lemma BearerRowRevoked(env: Env, xs: seq<Happening>, k: nat)
    requires IdealAead(env) && Orderly(env, xs) && |xs| <= U32_MAX && k < |xs|
    requires xs[k].Completed? && xs[k].call.op.OpRevokeBearer? && xs[k].call.op.bearerApply
    requires Run(env, xs[..k]).vault.Unlocked?
    requires LoadBearer(Run(env, xs[..k]).store, xs[k].call.op.tokenId).Some?
    ensures GenesisOf(env, xs[..k + 1]).Some?
    ensures TokenRevoked(Run(env, xs[..k + 1]).store, xs[k].call.op.tokenId)
  {
    OrderlyPrefix(env, xs, k);
    HistoryInvariant(env, xs[..k]);
    AfterStep(env, xs, k);
    var s, g, t := Run(env, xs[..k]), GenesisOf(env, xs[..k]).value, Run(env, xs[..k + 1]).store;
    RevokeBearerLeaves(env, g, s, xs[k].call, EffectOf(env, s, xs[k].call), t, k);
  }
}
