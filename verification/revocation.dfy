/** What each revocation answers and changes, dry or applied, on a locked vault and on an unlocked one. */
module Revocations {
  import opened Bytes
  import opened Environment
  import opened Broker
  import opened Store
  import opened Effects
  import opened Preservation
  import opened Runs
  import opened Histories
  import opened Bearers
  import Admissions

  /** The audit row and the anchor of a call leave the tables to the call's own writes. */
  lemma TablesOf(env: Env, s: StoreState, e: Effect)
    ensures var t, u := ApplyAll(env, s, Writes(env, s, e)), ApplyAll(env, s, e.core);
            t.bearers == u.bearers && t.relays == u.relays
  {
    var ws := Writes(env, s, e);
    LaterOnLog(env, s, ws, |e.core|, |ws|);
    assert ws[..|ws|] == ws && ws[..|e.core|] == e.core;
  }

  // ---- one bearer ----

  /** One if the token has a row that is not revoked yet. */
  function WouldFlip(s: StoreState, token: Text): nat {
    var j := BearerIndex(s.bearers, token);
    if j < |s.bearers| && !s.bearers[j].claims.revoked then 1 else 0
  }

  lemma FlipsFound(s: StoreState, token: Text)
    ensures WouldFlip(s, token) == 1 <==> LoadBearer(s, token).Some? && !LoadBearer(s, token).value.claims.revoked
  {
  }

  /** The table with the token's row revoked, sealed again under the DEK, and every other row as it was. */
  predicate OnlyFlipped(env: Env, dek: Dek, before: seq<BearerRow>, later: seq<BearerRow>, token: Text) {
    var j := BearerIndex(before, token);
    && j < |before| == |later|
    && later[j].claims == before[j].claims.(revoked := true) && later[j].wireMac == before[j].wireMac
    && later[j].rowMac == RowMac(env, dek, later[j].claims)
    && forall i :: 0 <= i < |before| && i != j ==> later[i] == before[i]
  }

  /** What a single revocation writes. */
  lemma OneRevocationWrites(env: Env, s: Snap, at: Reading, token: Text, apply: bool)
    ensures var e := RevokeBearerEffect(env, s, at, token, apply);
      && (e.core == [] <==> !(apply && WouldFlip(s.store, token) == 1 && s.vault.Unlocked?))
      && (e.core != [] ==> e.core == [WriteBearer(RevokedRow(env, s.vault.dek, LoadBearer(s.store, token).value))])
      && e.reply == (if apply && WouldFlip(s.store, token) == 1 && s.vault.Locked? then Failure(VaultIsLocked)
                     else Count(WouldFlip(s.store, token)))
  {
    FlipsFound(s.store, token);
  }

  lemma FlipInPlace(env: Env, dek: Dek, s: StoreState, token: Text)
    requires LoadBearer(s, token).Some?
    ensures var w := WriteBearer(RevokedRow(env, dek, LoadBearer(s, token).value));
      && OnlyFlipped(env, dek, s.bearers, ApplyAll(env, s, [w]).bearers, token)
      && ApplyAll(env, s, [w]).relays == s.relays
  {
    ApplyOne(env, s, WriteBearer(RevokedRow(env, dek, LoadBearer(s, token).value)));
  }

  /**
   Revoking one bearer, over any state whatever. The dry run and the applied call answer the same 0 or 1,
   told from the stored row; the dry run changes no bearer and no policy; the applied call flips that one
   row and leaves every other; and on a locked vault it fails on a live row and changes none.
   */
  lemma SingleRevocation(env: Env, s: Snap, at: Reading, token: Text, apply: bool)
    ensures var e := RevokeBearerEffect(env, s, at, token, apply); var t := After(env, s, e).store;
            var n := WouldFlip(s.store, token);
      && e.reply == (if apply && n == 1 && s.vault.Locked? then Failure(VaultIsLocked) else Count(n))
      && t.relays == s.store.relays
      && (if apply && n == 1 && s.vault.Unlocked? then OnlyFlipped(env, s.vault.dek, s.store.bearers, t.bearers, token)
          else t.bearers == s.store.bearers)
  {
    var e := RevokeBearerEffect(env, s, at, token, apply);
    OneRevocationWrites(env, s, at, token, apply);
    TablesOf(env, s.store, e);
    FlipsFound(s.store, token);
    if e.core != [] {
      FlipInPlace(env, s.vault.dek, s.store, token);
    }
  }

  // ---- a relay ----

  /** The live bearers linked to a policy. */
  function LiveIn(bearers: seq<BearerRow>, policyId: I64): nat {
    if bearers == [] then 0
    else
      var last := bearers[|bearers| - 1].claims;
      LiveIn(bearers[..|bearers| - 1], policyId) + if last.policyId == policyId && !last.revoked then 1 else 0
  }

  /** The live bearers of a relay: none when the relay is unknown. */
  function LiveOf(s: StoreState, relayId: Text): nat {
    if LoadPolicy(s, relayId).None? then 0 else LiveIn(s.bearers, LoadPolicy(s, relayId).value.id)
  }

  lemma {:induction false} FilterSnoc(bearers: seq<BearerRow>, b: BearerRow, policyId: I64)
    ensures FilterByPolicy(bearers + [b], policyId)
         == FilterByPolicy(bearers, policyId) + if b.claims.policyId == policyId then [b] else []
  {
    if bearers == [] {
      assert [b][1..] == [];
    } else {
      assert (bearers + [b])[1..] == bearers[1..] + [b];
      FilterSnoc(bearers[1..], b, policyId);
    }
  }

  lemma UnrevokedSnoc(list: seq<BearerRow>, b: BearerRow)
    ensures |Unrevoked(list + [b])| == |Unrevoked(list)| + if b.claims.revoked then 0 else 1
  {
    assert (list + [b])[..|list|] == list;
  }

  lemma {:induction false} UnrevokedCounts(bearers: seq<BearerRow>, policyId: I64)
    ensures |Unrevoked(FilterByPolicy(bearers, policyId))| == LiveIn(bearers, policyId)
  {
    if bearers != [] {
      var front, last := bearers[..|bearers| - 1], bearers[|bearers| - 1];
      UnrevokedCounts(front, policyId);
      assert bearers == front + [last];
      FilterSnoc(front, last, policyId);
      if last.claims.policyId == policyId {
        UnrevokedSnoc(FilterByPolicy(front, policyId), last);
      } else {
        assert FilterByPolicy(front, policyId) + [] == FilterByPolicy(front, policyId);
      }
    }
  }

  lemma CountIsLive(s: StoreState, relayId: Text)
    ensures LiveCount(s, relayId) == LiveOf(s, relayId)
  {
    if LoadPolicy(s, relayId).Some? {
      UnrevokedCounts(s.bearers, LoadPolicy(s, relayId).value.id);
    }
  }

  /** The relay's policy, flagged, and nothing else of the policies. */
  predicate OnlyFlagged(before: seq<RelayPolicyRow>, later: seq<RelayPolicyRow>, relayId: Text) {
    var i := PolicyIndex(before, relayId);
    if i == |before| then later == before
    else later == before[i := before[i].(policy := before[i].policy.(revoked := true))]
  }

  lemma FlagIsAll(env: Env, s: StoreState, relayId: Text)
    requires LoadPolicy(s, relayId).Some? ==> LoadPolicy(s, relayId).value.id > 0
    ensures var t := ApplyAll(env, s, PolicyRevokeWrites(s, relayId));
            t == s.(relays := t.relays) && OnlyFlagged(s.relays, t.relays, relayId)
  {
    if LoadPolicy(s, relayId).Some? {
      var row := LoadPolicy(s, relayId).value;
      ApplyOne(env, s, WritePolicy(row.(policy := row.policy.(revoked := true))));
    }
  }

  lemma RelayReplies(env: Env, s: Snap, at: Reading, relayId: Text, n: nat)
    requires n == LiveCount(s.store, relayId) == |Unrevoked(RevokeTargets(env, s.store, relayId))|
    ensures DryRevokeEffect(env, s, at, relayId).reply == Count(AsU32(n))
    ensures DryRevokeEffect(env, s, at, relayId).core == []
    ensures ApplyRevokeEffect(env, s, at, relayId).reply
         == if s.vault.Locked? && n > 0 then Failure(VaultIsLocked) else Count(AsU32(n))
    ensures s.vault.Locked? ==> ApplyRevokeEffect(env, s, at, relayId).core == PolicyRevokeWrites(s.store, relayId)
  {
    var flags := PolicyRevokeWrites(s.store, relayId);
    assert flags + [] == flags;
  }

  /**
   Revoking a relay at any point of any history. Dry and applied count the live bearers of the relay; the
   dry run changes no bearer and no policy. On a locked vault the applied call fails once there is a live
   bearer and revokes none, but it flags the policy all the same.
   */
  lemma RelayRevocationAnswers(env: Env, xs: seq<Happening>, at: Reading, relayId: Text)
    requires IdealAead(env) && Orderly(env, xs) && |xs| < U32_MAX
    ensures var s := Run(env, xs); var n := LiveOf(s.store, relayId);
            var dry := RevokeRelayEffect(env, s, at, relayId, false);
            var applied := RevokeRelayEffect(env, s, at, relayId, true);
      && dry.reply == Count(AsU32(n))
      && After(env, s, dry).store.bearers == s.store.bearers && After(env, s, dry).store.relays == s.store.relays
      && applied.reply == (if s.vault.Locked? && n > 0 then Failure(VaultIsLocked) else Count(AsU32(n)))
      && (s.vault.Locked? ==>
            && After(env, s, applied).store.bearers == s.store.bearers
            && OnlyFlagged(s.store.relays, After(env, s, applied).store.relays, relayId))
  {
    HistoryInvariant(env, xs);
    StateRevocation(env, Run(env, xs), at, relayId, |xs|);
  }

  lemma StateRevocation(env: Env, s: Snap, at: Reading, relayId: Text, n: nat)
    requires Small(s.store, n) && forall j :: 0 <= j < |s.store.relays| ==> s.store.relays[j].id > 0
    ensures var live := LiveOf(s.store, relayId);
            var dry := RevokeRelayEffect(env, s, at, relayId, false);
            var applied := RevokeRelayEffect(env, s, at, relayId, true);
      && dry.reply == Count(AsU32(live))
      && After(env, s, dry).store.bearers == s.store.bearers && After(env, s, dry).store.relays == s.store.relays
      && applied.reply == (if s.vault.Locked? && live > 0 then Failure(VaultIsLocked) else Count(AsU32(live)))
      && (s.vault.Locked? ==>
            && After(env, s, applied).store.bearers == s.store.bearers
            && OnlyFlagged(s.store.relays, After(env, s, applied).store.relays, relayId))
  {
    CountIsLive(s.store, relayId);
    FlagIsAll(env, s.store, relayId);
    TargetsKept(env, s.store, relayId);
    RelayReplies(env, s, at, relayId, LiveOf(s.store, relayId));
    TablesOf(env, s.store, DryRevokeEffect(env, s, at, relayId));
    TablesOf(env, s.store, ApplyRevokeEffect(env, s, at, relayId));
  }

  /** Flagging the policy does not change which bearers are linked to it. */
  lemma TargetsKept(env: Env, s: StoreState, relayId: Text)
    requires LoadPolicy(s, relayId).Some? ==> LoadPolicy(s, relayId).value.id > 0
    ensures RevokeTargets(env, s, relayId) == BearersForRelay(s, relayId)
  {
    FlagIsAll(env, s, relayId);
    var t := ApplyAll(env, s, PolicyRevokeWrites(s, relayId));
    if LoadPolicy(s, relayId).Some? {
      var i := PolicyIndex(s.relays, relayId);
      PolicyStaysPut(s.relays, i, t.relays[i]);
    }
  }

  // ---- a revocation cut short ----

  /**
   The policy is flagged first: once an applied revocation of a known relay has made its first write, a
   crash at any later point leaves the policy flagged.
   */
  lemma FlagComesFirst(env: Env, s: StoreState, e: Effect, v: Vault, relayId: Text, k: nat)
    requires LoadPolicy(s, relayId).Some? && LoadPolicy(s, relayId).value.id > 0
    requires e.core == PolicyRevokeWrites(s, relayId) + Reseals(env, v, RevokeTargets(env, s, relayId))
    requires 1 <= k <= |Writes(env, s, e)|
    ensures OnlyFlagged(s.relays, CutAt(env, s, e, k).relays, relayId)
  {
    var ws, flags := Writes(env, s, e), PolicyRevokeWrites(s, relayId);
    FlagIsAll(env, s, relayId);
    assert ws[..1] == flags;
    if v.Unlocked? {
      ResealsAreBearers(env, v.dek, RevokeTargets(env, s, relayId));
    }
    forall j | 1 <= j < |ws| ensures !ws[j].WritePolicy? {
      assert j < |e.core| ==> ws[j] == Reseals(env, v, RevokeTargets(env, s, relayId))[j - 1];
    }
    PoliciesAfter(env, s, ws, k);
  }

  lemma {:induction false} ResealsAreBearers(env: Env, dek: Dek, list: seq<BearerRow>)
    ensures forall j :: 0 <= j < |RevokeWrites(env, dek, list)| ==> RevokeWrites(env, dek, list)[j].WriteBearer?
  {
    if list != [] {
      ResealsAreBearers(env, dek, list[..|list| - 1]);
    }
  }

  lemma {:induction false} PoliciesAfter(env: Env, s: StoreState, ws: seq<Write>, k: nat)
    requires 1 <= k <= |ws| && forall j :: 1 <= j < |ws| ==> !ws[j].WritePolicy?
    ensures ApplyAll(env, s, ws[..k]).relays == ApplyAll(env, s, ws[..1]).relays
  {
    if k > 1 {
      PoliciesAfter(env, s, ws, k - 1);
      ApplyUpTo(env, s, ws, k);
    }
  }

  /** And under a flagged policy no bearer is allowed, revoked or not. */
  lemma FlaggedDenies(env: Env, s: Snap, at: Reading, call: SwapCall)
    requires Admissions.Presented(env, s, call.raw) && Admissions.PolicyOf(env, s, call.raw).revoked
    ensures SwapEffect(env, s, at, call).reply != Swapped(Allowed)
  {
    Admissions.SwapAllowedExactly(env, s, at, call);
  }

  /** A revocation of a known relay, at any point of any history, cut short after its first write or later. */
  lemma RevocationCutFlags(env: Env, xs: seq<Happening>, at: Reading, relayId: Text, k: nat)
    requires IdealAead(env) && Orderly(env, xs) && |xs| < U32_MAX && LoadPolicy(Run(env, xs).store, relayId).Some?
    requires 1 <= k <= |Writes(env, Run(env, xs).store, RevokeRelayEffect(env, Run(env, xs), at, relayId, true))|
    ensures var s := Run(env, xs); var cut := CutAt(env, s.store, RevokeRelayEffect(env, s, at, relayId, true), k);
            OnlyFlagged(s.store.relays, cut.relays, relayId)
  {
    HistoryInvariant(env, xs);
    var s := Run(env, xs);
    AppliedCore(env, s, at, relayId);
    var e := ApplyRevokeEffect(env, s, at, relayId);
    var v := if e.reply.Failure? then Locked else s.vault;
    FlagComesFirst(env, s.store, e, v, relayId, k);
  }

  lemma AppliedCore(env: Env, s: Snap, at: Reading, relayId: Text)
    ensures var e, flags := ApplyRevokeEffect(env, s, at, relayId), PolicyRevokeWrites(s.store, relayId);
            var targets := RevokeTargets(env, s.store, relayId);
            e.core == flags + Reseals(env, if e.reply.Failure? then Locked else s.vault, targets)
  {
    var flags := PolicyRevokeWrites(s.store, relayId);
    assert flags + [] == flags;
  }
}
