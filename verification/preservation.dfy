/** Every call on a live vault makes only admissible writes, however early it is cut short. */
module Preservation {
  import opened Bytes
  import opened Environment
  import opened Audit
  import opened Broker
  import opened Store
  import opened Anchors
  import opened Effects
  import opened Invariants
  import opened Unlocking

  // ---- live vaults ----

  /** The anchor stands at row `low` or above. */
  ghost predicate StandsFrom(env: Env, s: StoreState, dek: Dek, low: nat) {
    exists a: nat :: low <= a && Stands(env, s, dek, a)
  }

  /**
   The state between calls once a vault exists: an honest store whose anchor stands, at the tail of the
   log whenever the vault is unlocked, and no DEK in RAM but the enrolled one. There is no head yet only
   while no call has anchored the log since the init was cut short.
   */
  ghost predicate Live(env: Env, g: Genesis, s: Snap) {
    && Honest(env, g, s.store)
    && StandsFrom(env, s.store, g.enrolment.dek, 0)
    && (s.vault.Unlocked? ==> s.vault.dek == g.enrolment.dek && Anchored(env, s.store, s.vault.dek, |s.store.audit|))
  }

  /** No log, table or id has reached `n` yet. */
  ghost predicate Small(s: StoreState, n: nat) {
    && |s.audit| <= n && |s.secrets| <= n && s.nextSecretRowId <= n
    && forall j :: 0 <= j < |s.relays| ==> s.relays[j].id <= n
  }

  /** The token ids the engine draws have not been drawn before. */
  predicate FreshToken(s: StoreState, op: Op) { op.OpMint? ==> LoadBearer(s, TokenOf(op.minting)).None? }

  predicate OffLog(w: Write) { !w.WriteRow? && !w.WriteMeta? }

  ghost predicate AllOffLog(ws: seq<Write>) { forall k :: 0 <= k < |ws| ==> OffLog(ws[k]) }

  /** What every effect on a live vault satisfies. */
  ghost predicate Proper(env: Env, g: Genesis, s: Snap, e: Effect, n: nat) {
    && AllOk(env, g, s.store, e.core) && AllOffLog(e.core)
    && Small(ApplyAll(env, s.store, e.core), n + 1)
    && e.key == KeyOf(e.vault)
    && (e.vault.Unlocked? ==> e.vault.dek == g.enrolment.dek)
    && (e.row.None? ==> e.vault == s.vault)
  }

  // ---- each call ----

  lemma NoWritesProper(env: Env, g: Genesis, s: Snap, e: Effect, n: nat)
    requires Live(env, g, s) && Small(s.store, n) && e.core == []
    requires e.key == KeyOf(e.vault) && (e.row.None? ==> e.vault == s.vault)
    requires e.vault == s.vault || e.vault == Locked || e.vault == Unlocked(g.enrolment.dek)
    ensures Proper(env, g, s, e, n)
  {
  }

  /** The call writes nothing of its own and leaves the vault as it is. */
  predicate NoWrites(s: Snap, e: Effect) { e.core == [] && e.vault == s.vault && e.key == KeyOf(s.vault) }

  lemma StandingAccepted(env: Env, s: StoreState, dek: Dek)
    requires ChainOk(env, s.audit) && |s.audit| <= I64_MAX && StandsFrom(env, s, dek, 0)
    ensures AnchorAccepts(env, dek, s)
  {
    if MetaAuditHead in s.meta {
      var a: nat :| Stands(env, s, dek, a);
      AnchoredAccepted(env, s, dek, a);
    }
  }

  lemma UnlockProper(env: Env, g: Genesis, s: Snap, at: Reading, c: Credential, e: Effect, n: nat)
    requires IdealAead(env) && Live(env, g, s) && Small(s.store, n) && n < U32_MAX && e == UnlockEffect(env, s, at, c)
    ensures Proper(env, g, s, e, n)
  {
    if s.vault.Locked? {
      StandingAccepted(env, s.store, g.enrolment.dek);
      UnlockHonest(env, g, s, at, c);
    }
    NoWritesProper(env, g, s, e, n);
  }

  /** A freshly sealed row opens to the body it was sealed from. */
  lemma SealedOpens(env: Env, dek: Dek, generation: I64, s: StoreState, m: SecretMeta, body: Bytes, nonce: Nonce,
                    ts: Text)
    requires IdealAead(env)
    ensures var row := NextSecret(env, dek, generation, s, m, body, nonce, ts);
            OpenSecret(env, dek, row) == Some(body) && SealedIn(env, dek, row)
  {
    var row := NextSecret(env, dek, generation, s, m, body, nonce, ts);
    assert SecretAad(row) == SecretAad(row.(ctTag := []));
    assert env.open(dek, nonce, SecretAad(row), env.seal(dek, nonce, SecretAad(row), body))
        == if (dek, nonce, SecretAad(row)) == (dek, nonce, SecretAad(row)) then Some(body) else None;
  }

  /** The store's contract checks never reject the engine's own put. */
  lemma PutNeverRejected(env: Env, g: Genesis, s: StoreState, row: SecretRow, n: nat)
    requires Honest(env, g, s) && Small(s, n) && n < U32_MAX
    requires row.rowId == Succ64(s.nextSecretRowId) && row.version == Succ32(MaxVersion(s.secrets, row.name))
    requires SealedIn(env, g.enrolment.dek, row)
    ensures WriteOk(env, g, s, WriteReserve)
    ensures WriteOk(env, g, Apply(env, s, WriteReserve), WriteSecret(row))
  {
    var dek, secrets := g.enrolment.dek, s.secrets;
    LatestIsNewest(env, dek, secrets, s.nextSecretRowId, row.name);
    BookShorter(env, dek, secrets, row.name);
    forall j | 0 <= j < |secrets| ensures secrets[j].rowId < row.rowId {
      assert SecretOk(env, dek, secrets, s.nextSecretRowId, j);
    }
  }

  lemma PutWritesOk(env: Env, g: Genesis, s: StoreState, row: SecretRow, n: nat)
    requires Honest(env, g, s) && Small(s, n) && n < U32_MAX
    requires row.rowId == Succ64(s.nextSecretRowId) && row.version == Succ32(MaxVersion(s.secrets, row.name))
    requires SealedIn(env, g.enrolment.dek, row)
    ensures PutAccepted(Apply(env, s, WriteReserve), row)
    ensures AllOk(env, g, s, [WriteReserve, WriteSecret(row)])
    ensures ApplyAll(env, s, [WriteReserve, WriteSecret(row)])
         == s.(nextSecretRowId := s.nextSecretRowId + 1, secrets := s.secrets + [row])
  {
    PutNeverRejected(env, g, s, row, n);
    TwoWrites(env, g, s, WriteReserve, WriteSecret(row));
  }

  lemma PutProper(env: Env, g: Genesis, s: Snap, at: Reading, m: SecretMeta, body: Bytes, nonce: Nonce, e: Effect,
                  n: nat)
    requires IdealAead(env) && Live(env, g, s) && Small(s.store, n) && n < U32_MAX
    requires e == PutEffect(env, s, at, m, body, nonce)
    ensures Proper(env, g, s, e, n) && (s.vault.Unlocked? ==> e.reply == Done)
  {
    if s.vault.Unlocked? {
      var row := NextSecret(env, s.vault.dek, DEK_GENERATION, s.store, m, body, nonce, at.ts);
      SealedOpens(env, s.vault.dek, DEK_GENERATION, s.store, m, body, nonce, at.ts);
      PutWritesOk(env, g, s.store, row, n);
      PutUnlocked(env, g, s, at, m, body, nonce);
    } else {
      NoWritesProper(env, g, s, e, n);
    }
  }

  lemma PutUnlocked(env: Env, g: Genesis, s: Snap, at: Reading, m: SecretMeta, body: Bytes, nonce: Nonce)
    requires HeaderOk(env, g, s.store) && s.vault.Unlocked?
    requires var row := NextSecret(env, s.vault.dek, DEK_GENERATION, s.store, m, body, nonce, at.ts);
             PutAccepted(Apply(env, s.store, WriteReserve), row)
    ensures var row, e := NextSecret(env, s.vault.dek, DEK_GENERATION, s.store, m, body, nonce, at.ts),
            PutEffect(env, s, at, m, body, nonce);
            e == Audited(s, [WriteReserve, WriteSecret(row)],
                         Row(env, at, WrittenEvent, Some(m.name), JsonObject([("version", JsonNumber(row.version))]),
                             Succeeded), Done)
  {
    HeaderReads(env, g, s.store);
  }

  lemma TwoWrites(env: Env, g: Genesis, s: StoreState, v: Write, w: Write)
    requires WriteOk(env, g, s, v) && WriteOk(env, g, Apply(env, s, v), w)
    ensures AllOk(env, g, s, [v, w]) && ApplyAll(env, s, [v, w]) == Apply(env, Apply(env, s, v), w)
  {
    AllOkOne(env, g, s, v);
    ApplyOne(env, s, v);
    AllOkOne(env, g, Apply(env, s, v), w);
    AllOkConcat(env, g, s, [v], [w]);
    ApplyMore(env, s, [v], w);
    assert [v] + [w] == [v, w];
  }

  /** The id a policy is stored under is one that a bearer can be linked by. */
  lemma AssignedLinks(relays: seq<RelayPolicyRow>, row: RelayPolicyRow, n: nat)
    requires row.id == 0 && n < U32_MAX && forall j :: 0 <= j < |relays| ==> relays[j].id <= n
    ensures PolicyWriteOk(relays, row) && HasPolicy(UpsertPolicy(relays, row), AssignedPolicyId(relays, row))
    ensures var newer := UpsertPolicy(relays, row); forall j :: 0 <= j < |newer| ==> newer[j].id <= n + 1
  {
    var i := PolicyIndex(relays, row.policy.relayId);
    PolicyFound(UpsertPolicy(relays, row), AssignedPolicyId(relays, row), i);
  }

  /** Minting stores the policy under an id that the bearer then carries. */
  lemma MintWritesOk(env: Env, g: Genesis, s: StoreState, at: Reading, m: Minting, expiresAtMs: I64, n: nat)
    requires Small(s, n) && n < U32_MAX && LoadBearer(s, TokenOf(m)).None?
    ensures var core := [WritePolicy(MintedPolicy(m)),
                         WriteBearer(MintedRow(env, g.enrolment.dek, s, at, m, expiresAtMs))];
      AllOk(env, g, s, core) && Small(ApplyAll(env, s, core), n + 1)
  {
    var policy, row := MintedPolicy(m), MintedRow(env, g.enrolment.dek, s, at, m, expiresAtMs);
    AssignedLinks(s.relays, policy, n);
    MintedRowOk(env, g, s, Apply(env, s, WritePolicy(policy)), at, m, expiresAtMs);
    PolicyThenBearer(env, g, s, policy, row, n);
  }

  lemma PolicyThenBearer(env: Env, g: Genesis, s: StoreState, policy: RelayPolicyRow, row: BearerRow, n: nat)
    requires Small(s, n) && PolicyWriteOk(s.relays, policy)
    requires WriteOk(env, g, Apply(env, s, WritePolicy(policy)), WriteBearer(row))
    requires var newer := UpsertPolicy(s.relays, policy); forall j :: 0 <= j < |newer| ==> newer[j].id <= n + 1
    ensures AllOk(env, g, s, [WritePolicy(policy), WriteBearer(row)])
    ensures Small(ApplyAll(env, s, [WritePolicy(policy), WriteBearer(row)]), n + 1)
  {
    TwoWrites(env, g, s, WritePolicy(policy), WriteBearer(row));
  }

  lemma MintedRowOk(env: Env, g: Genesis, s: StoreState, t: StoreState, at: Reading, m: Minting, expiresAtMs: I64)
    requires LoadBearer(t, TokenOf(m)).None? && HasPolicy(t.relays, AssignedPolicyId(s.relays, MintedPolicy(m)))
    ensures WriteOk(env, g, t, WriteBearer(MintedRow(env, g.enrolment.dek, s, at, m, expiresAtMs)))
  {
  }

  lemma MintIssuedProper(env: Env, g: Genesis, s: Snap, at: Reading, m: Minting, expiresAtMs: I64, e: Effect, n: nat)
    requires Live(env, g, s) && Small(s.store, n) && n < U32_MAX && LoadBearer(s.store, TokenOf(m)).None?
    requires s.vault.Unlocked? && e == MintIssued(env, s, at, m, s.vault.dek, expiresAtMs)
    ensures Proper(env, g, s, e, n)
  {
    MintWritesOk(env, g, s.store, at, m, expiresAtMs, n);
  }

  lemma MintProper(env: Env, g: Genesis, s: Snap, at: Reading, m: Minting, e: Effect, n: nat)
    requires Live(env, g, s) && Small(s.store, n) && n < U32_MAX && LoadBearer(s.store, TokenOf(m)).None?
    requires e == MintEffect(env, s, at, m)
    ensures Proper(env, g, s, e, n)
  {
    var expiresAtMs := ExpiryMs(at.nowMs, m.spec.policyTtlSecs, m.requestedTtlSecs);
    if s.vault.Unlocked? && MintRefusal(s.store, at, m).None? && expiresAtMs.Some? {
      MintIssuedProper(env, g, s, at, m, expiresAtMs.value, e, n);
    } else {
      NoWritesProper(env, g, s, e, n);
    }
  }

  // ---- revocation ----

  /** The row is on the list: spelled out by recursion, as the walk goes. */
  predicate Listed(b: BearerRow, list: seq<BearerRow>) {
    list != [] && (list[|list| - 1] == b || Listed(b, list[..|list| - 1]))
  }

  lemma {:induction false} ListedIsMember(b: BearerRow, list: seq<BearerRow>)
    ensures Listed(b, list) <==> b in list
  {
    if list != [] {
      ListedIsMember(b, list[..|list| - 1]);
      assert list == list[..|list| - 1] + [list[|list| - 1]];
    }
  }

  function FlippedRow(env: Env, dek: Dek, b: BearerRow, list: seq<BearerRow>): BearerRow {
    if Listed(b, list) && !b.claims.revoked then RevokedRow(env, dek, b) else b
  }

  ghost predicate TokensDiffer(bearers: seq<BearerRow>) {
    forall j, k :: 0 <= j < k < |bearers| ==> bearers[j].claims.tokenId != bearers[k].claims.tokenId
  }

  /** Every row of the list is one of the stored ones. */
  ghost predicate Among(list: seq<BearerRow>, bearers: seq<BearerRow>) {
    forall k :: 0 <= k < |list| ==> StoredAt(list[k], bearers)
  }

  predicate StoredAt(b: BearerRow, bearers: seq<BearerRow>) {
    exists j :: 0 <= j < |bearers| && bearers[j] == b
  }

  ghost predicate FlippedBy(env: Env, dek: Dek, prior: seq<BearerRow>, newer: seq<BearerRow>, list: seq<BearerRow>) {
    |newer| == |prior| && forall j :: 0 <= j < |prior| ==> newer[j] == FlippedRow(env, dek, prior[j], list)
  }

  /** The bearers after a revocation walk over the list. */
  function Walked(env: Env, dek: Dek, bearers: seq<BearerRow>, list: seq<BearerRow>): seq<BearerRow> {
    if list == [] then bearers
    else
      var done, b := Walked(env, dek, bearers, list[..|list| - 1]), list[|list| - 1];
      if b.claims.revoked then done else UpsertBearer(done, RevokedRow(env, dek, b))
  }

  lemma {:induction false} WritesWalk(env: Env, dek: Dek, s: StoreState, list: seq<BearerRow>)
    ensures ApplyAll(env, s, RevokeWrites(env, dek, list)) == s.(bearers := Walked(env, dek, s.bearers, list))
  {
    if list != [] {
      var front, b := list[..|list| - 1], list[|list| - 1];
      WritesWalk(env, dek, s, front);
      if b.claims.revoked {
        assert RevokeWrites(env, dek, list) == RevokeWrites(env, dek, front);
      } else {
        ApplyMore(env, s, RevokeWrites(env, dek, front), WriteBearer(RevokedRow(env, dek, b)));
      }
    }
  }

  lemma {:induction false} WalkFlips(env: Env, dek: Dek, bearers: seq<BearerRow>, list: seq<BearerRow>)
    requires TokensDiffer(bearers) && Among(list, bearers)
    ensures FlippedBy(env, dek, bearers, Walked(env, dek, bearers, list), list)
  {
    if list != [] {
      var n := |list| - 1;
      WalkFlips(env, dek, bearers, list[..n]);
      if list[n].claims.revoked {
        FlipNone(env, dek, bearers, Walked(env, dek, bearers, list[..n]), list);
      } else {
        assert StoredAt(list[n], bearers);
        FlipOne(env, dek, bearers, Walked(env, dek, bearers, list[..n]), list);
      }
    }
  }

  /** A revocation walk flips exactly the listed live bearers, where they stand, and touches nothing else. */
  lemma RevokesExactly(env: Env, dek: Dek, s: StoreState, list: seq<BearerRow>)
    requires TokensDiffer(s.bearers) && Among(list, s.bearers)
    ensures var t := ApplyAll(env, s, RevokeWrites(env, dek, list));
      t == s.(bearers := t.bearers) && FlippedBy(env, dek, s.bearers, t.bearers, list)
  {
    WritesWalk(env, dek, s, list);
    WalkFlips(env, dek, s.bearers, list);
  }

  lemma FlipNone(env: Env, dek: Dek, prior: seq<BearerRow>, t: seq<BearerRow>, list: seq<BearerRow>)
    requires list != [] && list[|list| - 1].claims.revoked
    requires FlippedBy(env, dek, prior, t, list[..|list| - 1])
    ensures FlippedBy(env, dek, prior, t, list)
  {
  }

  lemma FlipOne(env: Env, dek: Dek, prior: seq<BearerRow>, t: seq<BearerRow>, list: seq<BearerRow>)
    requires list != [] && StoredAt(list[|list| - 1], prior) && !list[|list| - 1].claims.revoked
    requires TokensDiffer(prior) && FlippedBy(env, dek, prior, t, list[..|list| - 1])
    ensures FlippedBy(env, dek, prior, UpsertBearer(t, RevokedRow(env, dek, list[|list| - 1])), list)
  {
    var b := list[|list| - 1];
    var i :| 0 <= i < |prior| && prior[i] == b;
    assert t[i].claims.tokenId == b.claims.tokenId;
    assert BearerIndex(t, b.claims.tokenId) == i;
  }

  /** Each row of a revocation walk revises the stored one. */
  lemma RevokeStepOk(env: Env, g: Genesis, s: StoreState, t: StoreState, front: seq<BearerRow>, b: BearerRow)
    requires BearersOk(env, g.enrolment.dek, s.relays, s.bearers) && StoredAt(b, s.bearers)
    requires t.relays == s.relays && FlippedBy(env, g.enrolment.dek, s.bearers, t.bearers, front)
    ensures WriteOk(env, g, t, WriteBearer(RevokedRow(env, g.enrolment.dek, b)))
  {
    var i :| 0 <= i < |s.bearers| && s.bearers[i] == b;
    assert BearerOk(env, g.enrolment.dek, s.relays, s.bearers[i]);
    assert t.bearers[i].claims.tokenId == b.claims.tokenId;
    assert BearerIndex(t.bearers, b.claims.tokenId) == i;
  }

  lemma {:induction false} RevokeWritesOk(env: Env, g: Genesis, s: StoreState, list: seq<BearerRow>)
    requires BearersOk(env, g.enrolment.dek, s.relays, s.bearers) && Among(list, s.bearers)
    ensures AllOk(env, g, s, RevokeWrites(env, g.enrolment.dek, list))
    ensures AllOffLog(RevokeWrites(env, g.enrolment.dek, list))
  {
    if list != [] {
      var dek, n := g.enrolment.dek, |list| - 1;
      var front, b := list[..n], list[n];
      assert StoredAt(b, s.bearers);
      RevokeWritesOk(env, g, s, front);
      if b.claims.revoked {
        assert RevokeWrites(env, dek, list) == RevokeWrites(env, dek, front);
      } else {
        RevokesExactly(env, dek, s, front);
        var t := ApplyAll(env, s, RevokeWrites(env, dek, front));
        RevokeStepOk(env, g, s, t, front, b);
        AllOkOne(env, g, t, WriteBearer(RevokedRow(env, dek, b)));
        AllOkConcat(env, g, s, RevokeWrites(env, dek, front), [WriteBearer(RevokedRow(env, dek, b))]);
      }
    }
  }

  lemma {:induction false} FilterMembers(bearers: seq<BearerRow>, policyId: I64)
    ensures Among(FilterByPolicy(bearers, policyId), bearers)
    ensures forall b :: Listed(b, FilterByPolicy(bearers, policyId)) <==>
            StoredAt(b, bearers) && b.claims.policyId == policyId
  {
    var found := FilterByPolicy(bearers, policyId);
    if bearers != [] {
      var others := FilterByPolicy(bearers[1..], policyId);
      FilterMembers(bearers[1..], policyId);
      forall b ensures Listed(b, found) <==> StoredAt(b, bearers) && b.claims.policyId == policyId {
        ListedIsMember(b, found);
        ListedIsMember(b, others);
        StoredSplit(b, bearers);
      }
      forall k | 0 <= k < |found| ensures StoredAt(found[k], bearers) {
        ListedIsMember(found[k], found);
      }
    }
  }

  lemma StoredSplit(b: BearerRow, bearers: seq<BearerRow>)
    requires bearers != []
    ensures StoredAt(b, bearers) <==> b == bearers[0] || StoredAt(b, bearers[1..])
  {
    if StoredAt(b, bearers) && b != bearers[0] {
      var j :| 0 <= j < |bearers| && bearers[j] == b;
      assert bearers[1..][j - 1] == b;
    }
  }

  /** Rewriting a relay's policy in place does not move it. */
  lemma PolicyStaysPut(relays: seq<RelayPolicyRow>, i: nat, row: RelayPolicyRow)
    requires i < |relays| && i == PolicyIndex(relays, row.policy.relayId)
    ensures PolicyIndex(relays[i := row], row.policy.relayId) == i
  {
    var newer := relays[i := row];
    assert newer[i].policy.relayId == row.policy.relayId;
  }

  /** Flagging a policy keeps its id, so the bearers found before and after are the same. */
  lemma FlagOk(env: Env, g: Genesis, s: StoreState, relayId: Text, n: nat)
    requires Small(s, n) && (LoadPolicy(s, relayId).Some? ==> LoadPolicy(s, relayId).value.id > 0)
    ensures var flags := PolicyRevokeWrites(s, relayId); var t := ApplyAll(env, s, flags);
      && AllOk(env, g, s, flags) && AllOffLog(flags) && t == s.(relays := t.relays) && Small(t, n)
      && BearersForRelay(t, relayId) == BearersForRelay(s, relayId)
      && (LoadPolicy(s, relayId).Some? ==> LoadPolicy(t, relayId).Some? && LoadPolicy(t, relayId).value.policy.revoked)
  {
    var found := LoadPolicy(s, relayId);
    if found.Some? {
      var row := found.value.(policy := found.value.policy.(revoked := true));
      var i := PolicyIndex(s.relays, relayId);
      AllOkOne(env, g, s, WritePolicy(row));
      ApplyOne(env, s, WritePolicy(row));
      PolicyStaysPut(s.relays, i, row);
    }
  }

  /** Both halves of a revocation, flags then rows, are admissible one after the other. */
  lemma FlagsThenReseals(env: Env, g: Genesis, v: Vault, s: StoreState, relayId: Text, n: nat)
    requires Honest(env, g, s) && Small(s, n) && (v.Unlocked? ==> v.dek == g.enrolment.dek)
    ensures var flags, core := PolicyRevokeWrites(s, relayId), PolicyRevokeWrites(s, relayId) +
            Reseals(env, v, RevokeTargets(env, s, relayId));
      && AllOk(env, g, s, flags) && AllOffLog(flags) && Small(ApplyAll(env, s, flags), n + 1)
      && AllOk(env, g, s, core) && AllOffLog(core) && Small(ApplyAll(env, s, core), n + 1)
  {
    var flags, targets := PolicyRevokeWrites(s, relayId), RevokeTargets(env, s, relayId);
    var t := ApplyAll(env, s, flags);
    FlagOk(env, g, s, relayId, n);
    assert flags[..|flags|] == flags;
    WritesKeep(env, g, s, flags, |flags|);
    TargetsAmong(t, relayId);
    ResealsProper(env, g, v, t, targets, n);
    AllOkConcat(env, g, s, flags, Reseals(env, v, targets));
    ApplyConcat(env, s, flags, Reseals(env, v, targets));
  }

  lemma RevokeRelayProper(env: Env, g: Genesis, s: Snap, at: Reading, relayId: Text, apply: bool, e: Effect, n: nat)
    requires Live(env, g, s) && Small(s.store, n)
    requires e == if apply then ApplyRevokeEffect(env, s, at, relayId) else DryRevokeEffect(env, s, at, relayId)
    ensures Proper(env, g, s, e, n)
  {
    if apply {
      FlagsThenReseals(env, g, s.vault, s.store, relayId, n);
    } else {
      NoWritesProper(env, g, s, e, n);
    }
  }

  lemma TargetsAmong(s: StoreState, relayId: Text)
    ensures Among(BearersForRelay(s, relayId), s.bearers)
  {
    if LoadPolicy(s, relayId).Some? {
      FilterMembers(s.bearers, LoadPolicy(s, relayId).value.id);
    }
  }

  lemma ResealsProper(env: Env, g: Genesis, v: Vault, t: StoreState, targets: seq<BearerRow>, n: nat)
    requires Honest(env, g, t) && Small(t, n) && Among(targets, t.bearers)
    requires v.Unlocked? ==> v.dek == g.enrolment.dek
    ensures AllOk(env, g, t, Reseals(env, v, targets)) && AllOffLog(Reseals(env, v, targets))
    ensures Small(ApplyAll(env, t, Reseals(env, v, targets)), n + 1)
  {
    if v.Unlocked? {
      RevokeWritesOk(env, g, t, targets);
      RevokesExactly(env, v.dek, t, targets);
    }
  }

  lemma OneRevokeOk(env: Env, g: Genesis, s: StoreState, b: BearerRow, n: nat)
    requires Honest(env, g, s) && Small(s, n) && StoredAt(b, s.bearers) && !b.claims.revoked
    ensures var core := [WriteBearer(RevokedRow(env, g.enrolment.dek, b))];
      AllOk(env, g, s, core) && Small(ApplyAll(env, s, core), n + 1)
  {
    RevokeWritesOk(env, g, s, [b]);
    RevokesExactly(env, g.enrolment.dek, s, [b]);
    assert RevokeWrites(env, g.enrolment.dek, [b]) == [WriteBearer(RevokedRow(env, g.enrolment.dek, b))] by {
      assert [b][..0] == [];
    }
  }

  /** A single revocation writes the resealed row of a live bearer, or nothing. */
  predicate RevokesOne(env: Env, s: Snap, e: Effect, row: Option<BearerRow>) {
    && e.vault == s.vault && e.key == KeyOf(s.vault)
    && (|| e.core == []
        || (s.vault.Unlocked? && row.Some? && !row.value.claims.revoked &&
            e.core == [WriteBearer(RevokedRow(env, s.vault.dek, row.value))]))
  }

  lemma RevokesAtMostOne(env: Env, s: Snap, at: Reading, tokenId: Text, apply: bool)
    ensures RevokesOne(env, s, RevokeBearerEffect(env, s, at, tokenId, apply), LoadBearer(s.store, tokenId))
  {
  }

  lemma RevokeOneProper(env: Env, g: Genesis, s: Snap, tokenId: Text, e: Effect, n: nat)
    requires Live(env, g, s) && Small(s.store, n) && RevokesOne(env, s, e, LoadBearer(s.store, tokenId))
    ensures Proper(env, g, s, e, n)
  {
    if e.core == [] {
      NoWritesProper(env, g, s, e, n);
    } else {
      var b := LoadBearer(s.store, tokenId).value;
      assert StoredAt(b, s.store.bearers);
      OneRevokeOk(env, g, s.store, b, n);
    }
  }

  lemma SendNoWrites(env: Env, s: Snap, at: Reading, k: Screen, call: SwapCall, realKey: Bytes)
    requires k.Known?
    ensures NoWrites(s, SendEffect(env, s, at, k, call, realKey)) && SendEffect(env, s, at, k, call, realKey).row.Some?
  {
  }

  lemma DecidedNoWrites(env: Env, s: Snap, at: Reading, k: Screen, call: SwapCall)
    requires k.Known?
    ensures NoWrites(s, DecidedEffect(env, s, at, k, call)) && DecidedEffect(env, s, at, k, call).row.Some?
  {
    var tokenId := k.row.claims.tokenId;
    var counted := s.(counters := s.counters[tokenId := BumpedFor(s, at, tokenId, call.req.bytesOut)]);
    var realKey := RealKey(env, k.dek, s.store, k.policyRow.policy.secretName);
    if realKey.Ok? {
      SendNoWrites(env, counted, at, k, call, realKey.value);
    }
  }

  lemma SwapNoWrites(env: Env, s: Snap, at: Reading, call: SwapCall)
    ensures NoWrites(s, SwapEffect(env, s, at, call)) && SwapEffect(env, s, at, call).row.Some?
  {
    var k := ScreenBearer(env, s, call.raw);
    if k.Known? {
      DecidedNoWrites(env, s, at, k, call);
    }
  }

  lemma UnlockCall(env: Env, g: Genesis, s: Snap, c: Call, e: Effect, n: nat)
    requires IdealAead(env) && Live(env, g, s) && Small(s.store, n) && n < U32_MAX
    requires c.op.OpUnlock? && e == EffectOf(env, s, c)
    ensures Proper(env, g, s, e, n)
  {
    UnlockProper(env, g, s, c.at, c.op.credential, e, n);
  }

  lemma PutCall(env: Env, g: Genesis, s: Snap, c: Call, e: Effect, n: nat)
    requires IdealAead(env) && Live(env, g, s) && Small(s.store, n) && n < U32_MAX
    requires c.op.OpPut? && e == EffectOf(env, s, c)
    ensures Proper(env, g, s, e, n)
  {
    PutProper(env, g, s, c.at, c.op.secret, c.op.putBody, c.op.nonce, e, n);
  }

  lemma RevokeEffectIs(env: Env, s: Snap, c: Call, e: Effect)
    requires c.op.OpRevokeRelay? && e == EffectOf(env, s, c)
    ensures e == if c.op.relayApply then ApplyRevokeEffect(env, s, c.at, c.op.relayId)
            else DryRevokeEffect(env, s, c.at, c.op.relayId)
  {
  }

  lemma RevokeRelayCall(env: Env, g: Genesis, s: Snap, c: Call, e: Effect, n: nat)
    requires Live(env, g, s) && Small(s.store, n)
    requires c.op.OpRevokeRelay? && e == EffectOf(env, s, c)
    ensures Proper(env, g, s, e, n)
  {
    RevokeEffectIs(env, s, c, e);
    RevokeRelayProper(env, g, s, c.at, c.op.relayId, c.op.relayApply, e, n);
  }

  lemma RevokeOneCall(env: Env, s: Snap, c: Call, e: Effect)
    requires c.op.OpRevokeBearer? && e == EffectOf(env, s, c)
    ensures RevokesOne(env, s, e, LoadBearer(s.store, c.op.tokenId))
  {
    RevokesAtMostOne(env, s, c.at, c.op.tokenId, c.op.bearerApply);
  }

  /** Calls that write nothing but their audit row, and at most lock the vault. */
  lemma QuietCall(env: Env, s: Snap, c: Call, e: Effect)
    requires c.op.OpInit? || c.op.OpLock?
    requires (c.op.OpInit? ==> MetaHeaderMac in s.store.meta) && e == EffectOf(env, s, c)
    ensures e.core == [] && e.key == KeyOf(e.vault) && (e.row.None? ==> e.vault == s.vault)
    ensures e.vault == s.vault || e.vault == Locked
  {
  }

  lemma GetNoWrites(env: Env, s: Snap, at: Reading, name: Text, show: bool, apply: bool)
    ensures NoWrites(s, GetEffect(env, s, at, name, show, apply))
  {
  }

  lemma GetQuiet(env: Env, s: Snap, c: Call, e: Effect)
    requires c.op.OpGet? && e == EffectOf(env, s, c)
    ensures NoWrites(s, e)
  {
    GetNoWrites(env, s, c.at, c.op.name, c.op.show, c.op.getApply);
  }

  lemma SwapQuiet(env: Env, s: Snap, c: Call, e: Effect)
    requires c.op.OpSwap? && e == EffectOf(env, s, c)
    ensures NoWrites(s, e) && e.row.Some?
  {
    SwapNoWrites(env, s, c.at, c.op.swap);
  }

  /** Every call on a live vault makes only admissible writes. */
  lemma CallProper(env: Env, g: Genesis, s: Snap, c: Call, e: Effect, n: nat)
    requires IdealAead(env) && Live(env, g, s) && Small(s.store, n) && n < U32_MAX && FreshToken(s.store, c.op)
    requires e == EffectOf(env, s, c)
    ensures Proper(env, g, s, e, n)
  {
    match c.op {
      case OpUnlock(_) => UnlockCall(env, g, s, c, e, n);
      case OpPut(_, _, _) => PutCall(env, g, s, c, e, n);
      case OpMint(_) =>
        MintProper(env, g, s, c.at, c.op.minting, e, n);
      case OpRevokeRelay(_, _) => RevokeRelayCall(env, g, s, c, e, n);
      case OpRevokeBearer(tokenId, _) =>
        RevokeOneCall(env, s, c, e);
        RevokeOneProper(env, g, s, tokenId, e, n);
      case OpSwap(_) =>
        SwapQuiet(env, s, c, e);
        NoWritesProper(env, g, s, e, n);
      case OpGet(_, _, _) =>
        GetQuiet(env, s, c, e);
        NoWritesProper(env, g, s, e, n);
      case _ =>
        QuietCall(env, s, c, e);
        NoWritesProper(env, g, s, e, n);
    }
  }
}
