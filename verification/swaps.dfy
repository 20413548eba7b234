/** The egress path: what is sent, on what authority, and that the audit log accounts for it exactly. */
module Swaps {
  import opened Bytes
  import opened Environment
  import opened Audit
  import opened Broker
  import opened Decision
  import opened Store
  import opened Anchors
  import opened Effects
  import opened Invariants
  import opened Preservation
  import opened Runs
  import opened Histories
  import opened Bearers
  import opened Vaults

  // ---- one swap ----

  function OutcomeOf(o: SwapOutcome): AuditOutcome {
    match o
    case Allowed => Succeeded
    case Denied(_) => Refused
    case InternalRefused(_) => Failed
  }

  /** A swap answers an outcome, records it in exactly one row, and writes nothing else. */
  predicate Accounted(e: Effect) {
    && e.core == [] && e.reply.Swapped? && e.row.Some?
    && e.row.value.eventType == EventText(SwappedEvent) && e.row.value.outcome == OutcomeOf(e.reply.outcome)
    && (e.reply.outcome.Allowed? <==> e.sent.Some? && e.sent.value.answered)
  }

  lemma SendAccounted(env: Env, s: Snap, at: Reading, k: Screen, call: SwapCall, realKey: Bytes)
    requires k.Known?
    ensures var e := SendEffect(env, s, at, k, call, realKey);
      && Accounted(e) && (e.sent.Some? ==> e.sent.value.host == call.req.host && e.sent.value.realKey == realKey)
      && (e.reply == Swapped(InternalRefused(UpstreamFence)) <==>
          !HostIn(call.req.host, CanonicalUpstreams(k.policyRow.policy.provider)))
  {
  }

  /** After an allow the host fence cannot fire: the decision has already made its check. */
  lemma FenceNeverFires(q: Query)
    requires Decide(q) == Allow
    ensures HostIn(q.req.host, CanonicalUpstreams(q.p.provider))
  {
    AllowIffEveryClause(q);
    assert Holds(8, q);
    UpstreamsServe(q.p.provider, q.req.host);
  }

  /** What is sent goes out only after an allow, to a canonical host, and is the policy's secret. */
  predicate SentProperly(env: Env, s: Snap, at: Reading, call: SwapCall, k: Screen, e: Effect)
    requires k.Known?
  {
    e.sent.Some? ==>
      && Decide(SwapQuery(s, at, k, call.req)) == Allow
      && e.sent.value.host == call.req.host &&
           HostIn(e.sent.value.host, CanonicalUpstreams(k.policyRow.policy.provider))
      && RealKey(env, k.dek, s.store, k.policyRow.policy.secretName) == Ok(e.sent.value.realKey)
  }

  lemma DecidedAccounted(env: Env, s: Snap, at: Reading, k: Screen, call: SwapCall)
    requires k.Known?
    ensures var e := DecidedEffect(env, s, at, k, call);
      Accounted(e) && SentProperly(env, s, at, call, k, e) && e.reply != Swapped(InternalRefused(UpstreamFence))
  {
    var tokenId, q := k.row.claims.tokenId, SwapQuery(s, at, k, call.req);
    var counted := s.(counters := s.counters[tokenId := BumpedFor(s, at, tokenId, call.req.bytesOut)]);
    var realKey := RealKey(env, k.dek, s.store, k.policyRow.policy.secretName);
    if Decide(q) == Allow && realKey.Ok? {
      FenceNeverFires(q);
      SendAccounted(env, counted, at, k, call, realKey.value);
    }
  }

  /**
   Every swap, over any state whatever: one row with the outcome answered; a send only behind an
   authenticated row and an allow, to a canonical host, with the policy's secret; and the host fence
   at the send site never fires.
   */
  lemma SwapAccounted(env: Env, s: Snap, at: Reading, call: SwapCall)
    ensures var e, k := SwapEffect(env, s, at, call), ScreenBearer(env, s, call.raw);
      && Accounted(e) && e.reply != Swapped(InternalRefused(UpstreamFence))
      && (e.sent.Some? ==> k.Known? && SentProperly(env, s, at, call, k, e))
  {
    var k := ScreenBearer(env, s, call.raw);
    if k.Known? {
      DecidedAccounted(env, s, at, k, call);
    }
  }

  /** In a history, what is sent is the last body put under the name the bearer's policy gives. */
  lemma SentIsLastPut(env: Env, xs: seq<Happening>, at: Reading, call: SwapCall)
    requires IdealAead(env) && Orderly(env, xs) && |xs| <= U32_MAX
    requires SwapEffect(env, Run(env, xs), at, call).sent.Some?
    ensures ScreenBearer(env, Run(env, xs), call.raw).Known?
    ensures var told := Told(env, xs, ScreenBearer(env, Run(env, xs), call.raw).policyRow.policy.secretName);
            told != [] && told[|told| - 1].body == Some(SwapEffect(env, Run(env, xs), at, call).sent.value.realKey)
  {
    var name, dek, realKey := SentKey(env, Run(env, xs), at, call);
    FetchedIsLastPut(env, xs, name, dek, realKey);
  }

  lemma SentKey(env: Env, s: Snap, at: Reading, call: SwapCall) returns (name: Text, dek: Dek, realKey: Bytes)
    requires SwapEffect(env, s, at, call).sent.Some?
    ensures ScreenBearer(env, s, call.raw).Known? && name == ScreenBearer(env, s, call.raw).policyRow.policy.secretName
    ensures realKey == SwapEffect(env, s, at, call).sent.value.realKey
    ensures s.vault == Unlocked(dek) && RealKey(env, dek, s.store, name) == Ok(realKey)
  {
    SwapAccounted(env, s, at, call);
    ScreenedRow(env, s, call.raw);
    var k := ScreenBearer(env, s, call.raw);
    name, dek, realKey := k.policyRow.policy.secretName, k.dek, SwapEffect(env, s, at, call).sent.value.realKey;
  }

  lemma FetchedIsLastPut(env: Env, xs: seq<Happening>, name: Text, dek: Dek, realKey: Bytes)
    requires IdealAead(env) && Orderly(env, xs) && |xs| <= U32_MAX
    requires Run(env, xs).vault == Unlocked(dek) && RealKey(env, dek, Run(env, xs).store, name) == Ok(realKey)
    ensures var told := Told(env, xs, name); told != [] && told[|told| - 1].body == Some(realKey)
  {
    HistoryInvariant(env, xs);
    VaultIsMap(env, xs, name);
    RealKeyIsNewest(env, GenesisOf(env, xs).value, Run(env, xs), name);
  }

  /** The key fetched for a relay is the newest entry of its secret. */
  lemma RealKeyIsNewest(env: Env, g: Genesis, s: Snap, name: Text)
    requires Live(env, g, s) && RealKey(env, g.enrolment.dek, s.store, name).Ok?
    ensures var book := Book(env, g.enrolment.dek, s.store.secrets, name);
            book != [] && book[|book| - 1].body == Some(RealKey(env, g.enrolment.dek, s.store, name).value)
  {
    LatestIsNewest(env, g.enrolment.dek, s.store.secrets, s.store.nextSecretRowId, name);
  }

  // ---- the log over a history ----

  predicate NoRowWrites(ws: seq<Write>) { forall k :: 0 <= k < |ws| ==> !ws[k].WriteRow? }

  lemma {:induction false} RowsUntouched(env: Env, s: StoreState, ws: seq<Write>)
    requires NoRowWrites(ws)
    ensures ApplyAll(env, s, ws).audit == s.audit
  {
    if ws != [] {
      RowsUntouched(env, s, ws[..|ws| - 1]);
      assert !ws[|ws| - 1].WriteRow?;
    }
  }

  /** A finished call adds its row to the log and nothing else. */
  lemma RowAppended(env: Env, s: StoreState, e: Effect)
    requires NoRowWrites(e.core)
    ensures ApplyAll(env, s, Writes(env, s, e)).audit
         == s.audit + if e.row.Some? then [Linked(env, Last(s.audit), e.row.value)] else []
  {
    RowsUntouched(env, s, e.core);
    if e.row.Some? {
      var t := ApplyAll(env, s, e.core);
      var events := AuditWrites(env, t, e.row.value, e.key);
      ApplyConcat(env, s, e.core, events);
      ApplyConcat(env, t, events[..1], events[1..]);
      assert events == events[..1] + events[1..] && events[..1] == [WriteRow(e.row.value)];
      ApplyOne(env, t, WriteRow(e.row.value));
      RowsUntouched(env, Apply(env, t, WriteRow(e.row.value)), events[1..]);
    } else {
      assert Writes(env, s, e) == e.core;
    }
  }

  lemma InitWritesNoRows(env: Env, s: Snap, c: Call, e: Effect)
    requires c.op.OpInit? && e == EffectOf(env, s, c)
    ensures NoRowWrites(e.core)
  {
    InitCoreKinds(env, s, c.at, c.op.enrolment);
    assert forall k :: 0 <= k < |e.core| ==> SetsUpWrite(e.core[k]);
  }

  lemma CoreHasNoRows(env: Env, xs: seq<Happening>, c: Call, e: Effect)
    requires IdealAead(env) && Orderly(env, xs) && |xs| < U32_MAX && FreshToken(Run(env, xs).store, c.op)
    requires e == EffectOf(env, Run(env, xs), c)
    ensures NoRowWrites(e.core)
  {
    HistoryInvariant(env, xs);
    match GenesisOf(env, xs)
    case None =>
      if SetsUp(Run(env, xs).store, c.op) {
        InitWritesNoRows(env, Run(env, xs), c, e);
      } else {
        BlankEffect(env, Run(env, xs), c);
      }
    case Some(g) =>
      CallProper(env, g, Run(env, xs), c, e, |xs|);
      forall k | 0 <= k < |e.core| ensures !e.core[k].WriteRow? {
        assert OffLog(e.core[k]);
      }
  }

  // ---- counting ----

  predicate IsSwapRow(r: AuditRecord) { r.eventType == EventText(SwappedEvent) }

  function SwapRows(rows: seq<AuditRecord>): nat {
    if rows == [] then 0 else SwapRows(rows[..|rows| - 1]) + if IsSwapRow(rows[|rows| - 1]) then 1 else 0
  }

  function OkSwapRows(rows: seq<AuditRecord>): nat {
    if rows == [] then 0
    else OkSwapRows(rows[..|rows| - 1]) + if IsSwapRow(rows[|rows| - 1]) && rows[|rows| - 1].outcome == Succeeded then 1
        else 0
  }

  predicate AllCompleted(xs: seq<Happening>) { forall k :: 0 <= k < |xs| ==> xs[k].Completed? }

  /** How many swaps were asked for, and how many sends the upstream answered. */
  function Asked(xs: seq<Happening>): nat {
    if xs == [] then 0 else Asked(xs[..|xs| - 1]) + if xs[|xs| - 1].call.op.OpSwap? then 1 else 0
  }

  function Answered(env: Env, xs: seq<Happening>): nat {
    if xs == [] then 0
    else
      var e := EffectOf(env, Run(env, xs[..|xs| - 1]), xs[|xs| - 1].call);
      Answered(env, xs[..|xs| - 1]) + if e.sent.Some? && e.sent.value.answered then 1 else 0
  }

  /** No other event's name is that of a swap. */
  lemma SwapNameUnique(event: Event)
    requires event != SwappedEvent
    ensures EventText(event) != EventText(SwappedEvent)
  {
    assert |EventText(SwappedEvent)| == 13 && EventText(SwappedEvent)[6] == 0x73;
    assert event.RelayRevokedEvent? ==> EventText(event)[6] == 0x72;
  }

  /** The row of a call, if any, is for an event that is not a swap, and nothing is sent. */
  ghost predicate OtherEvent(e: Effect) {
    e.sent.None? && (e.row.Some? ==> exists event :: event != SwappedEvent && e.row.value.eventType == EventText(event))
  }

  lemma JudgedIsOther(env: Env, s: Snap, at: Reading, c: Credential, dek: Dek, verdict: Verdict)
    ensures OtherEvent(UnlockJudged(env, s, at, c, dek, verdict))
  {
    assert UnlockEvent != SwappedEvent && UnlockedEvent != SwappedEvent;
  }

  lemma ProbedIsOther(env: Env, s: Snap, at: Reading, c: Credential, header: StoredHeader, probe: Probe)
    ensures OtherEvent(UnlockProbed(env, s, at, c, header, probe))
  {
    match probe
    case Panicked =>
    case Shut => assert UnlockEvent != SwappedEvent;
    case Opened(dek) => JudgedIsOther(env, s, at, c, dek, UnlockVerdict(env, s.store, dek, header.mac, header.floorMs));
  }

  lemma UnlockIsOther(env: Env, s: Snap, at: Reading, c: Credential)
    ensures OtherEvent(UnlockEffect(env, s, at, c))
  {
    if s.vault.Locked? && HeaderOf(s.store).Some? {
      ProbedIsOther(env, s, at, c, HeaderOf(s.store).value, ProbeSlots(env, s.store.keyslots, c, at.usb));
    }
  }

  lemma VaultIsOther(env: Env, s: Snap, c: Call, e: Effect)
    requires (c.op.OpInit? || c.op.OpLock? || c.op.OpPut?) && e == EffectOf(env, s, c)
    ensures OtherEvent(e)
  {
    assert InitEvent != SwappedEvent && LockedEvent != SwappedEvent && WrittenEvent != SwappedEvent;
  }

  lemma GetIsOther(env: Env, s: Snap, at: Reading, name: Text, show: bool, apply: bool)
    ensures OtherEvent(GetEffect(env, s, at, name, show, apply))
  {
    assert ReadEvent != SwappedEvent;
  }

  lemma MintIsOther(env: Env, s: Snap, at: Reading, m: Minting)
    ensures OtherEvent(MintEffect(env, s, at, m))
  {
    assert MintEvent != SwappedEvent && MintedEvent != SwappedEvent;
  }

  lemma RevokeRelayIsOther(env: Env, s: Snap, at: Reading, relayId: Text, apply: bool)
    ensures OtherEvent(RevokeRelayEffect(env, s, at, relayId, apply))
  {
    assert RelayRevokedEvent != SwappedEvent;
  }

  lemma RevokeBearerIsOther(env: Env, s: Snap, at: Reading, tokenId: Text, apply: bool)
    ensures OtherEvent(RevokeBearerEffect(env, s, at, tokenId, apply))
  {
    assert BearerRevokedEvent != SwappedEvent;
  }

  lemma CallIsOther(env: Env, s: Snap, c: Call, e: Effect)
    requires !c.op.OpSwap? && e == EffectOf(env, s, c)
    ensures OtherEvent(e)
  {
    match c.op {
      case OpUnlock(credential) => UnlockIsOther(env, s, c.at, credential);
      case OpGet(name, show, apply) => GetIsOther(env, s, c.at, name, show, apply);
      case OpMint(m) => MintIsOther(env, s, c.at, m);
      case OpRevokeRelay(relayId, apply) => RevokeRelayIsOther(env, s, c.at, relayId, apply);
      case OpRevokeBearer(tokenId, apply) => RevokeBearerIsOther(env, s, c.at, tokenId, apply);
      case _ => VaultIsOther(env, s, c, e);
    }
  }

  /** What one finished call adds to the counts. */
  lemma CountStep(env: Env, rows: seq<AuditRecord>, prev: Option<AuditRecord>, c: Call, e: Effect)
    requires if c.op.OpSwap? then Accounted(e) else OtherEvent(e)
    ensures var longer := rows + if e.row.Some? then [Linked(env, prev, e.row.value)] else [];
      && SwapRows(longer) == SwapRows(rows) + (if c.op.OpSwap? then 1 else 0)
      && OkSwapRows(longer) == OkSwapRows(rows) + (if e.sent.Some? && e.sent.value.answered then 1 else 0)
  {
    if e.row.Some? {
      var r := Linked(env, prev, e.row.value);
      assert (rows + [r])[..|rows|] == rows;
      if !c.op.OpSwap? {
        var event :| event != SwappedEvent && e.row.value.eventType == EventText(event);
        SwapNameUnique(event);
        assert !IsSwapRow(r);
      }
    } else {
      assert rows + [] == rows;
    }
  }

  /**
   Over every history without crashes the log holds exactly one swap row for each swap asked for, and
   its successful swap rows are exactly the sends the upstream answered.
   */
  lemma {:induction false} SwapsConserved(env: Env, xs: seq<Happening>)
    requires IdealAead(env) && Orderly(env, xs) && |xs| <= U32_MAX && AllCompleted(xs)
    ensures SwapRows(Run(env, xs).store.audit) == Asked(xs)
    ensures OkSwapRows(Run(env, xs).store.audit) == Answered(env, xs)
  {
    if xs != [] {
      var front, c := xs[..|xs| - 1], xs[|xs| - 1].call;
      var s := Run(env, front);
      SwapsConserved(env, front);
      CountCall(env, front, c, EffectOf(env, s, c));
    }
  }

  lemma CountCall(env: Env, xs: seq<Happening>, c: Call, e: Effect)
    requires IdealAead(env) && Orderly(env, xs) && |xs| < U32_MAX && FreshToken(Run(env, xs).store, c.op)
    requires e == EffectOf(env, Run(env, xs), c)
    ensures var rows, longer := Run(env, xs).store.audit, After(env, Run(env, xs), e).store.audit;
      && SwapRows(longer) == SwapRows(rows) + (if c.op.OpSwap? then 1 else 0)
      && OkSwapRows(longer) == OkSwapRows(rows) + (if e.sent.Some? && e.sent.value.answered then 1 else 0)
  {
    var s := Run(env, xs);
    CoreHasNoRows(env, xs, c, e);
    RowAppended(env, s.store, e);
    if c.op.OpSwap? {
      SwapAccounted(env, s, c.at, c.op.swap);
    } else {
      CallIsOther(env, s, c, e);
    }
    CountStep(env, s.store.audit, Last(s.store.audit), c, e);
  }
}
