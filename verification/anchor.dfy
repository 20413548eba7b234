/**
 The DEK-keyed anchor over the tail of the audit log: what it accepts, what acceptance proves about
 the rows, and what a crash between its two writes does.
 */
module Anchors {
  import opened Bytes
  import opened Environment
  import opened Audit
  import opened Messages
  import opened Wire
  import opened Store

  // ---- writing the anchor ----

  /** The stored high-water mark as the writer reads it: a missing or garbled one counts as zero. */
  function StoredHighWater(s: StoreState): I64 {
    match Meta(s, MetaHighWater)
    case None => 0
    case Some(t) => if ParseI64(t).Some? then ParseI64(t).value else 0
  }

  function TailSeq(rows: seq<AuditRecord>): I64 {
    if rows == [] then 0 else rows[|rows| - 1].seqNo
  }

  function TailHash(rows: seq<AuditRecord>): Bytes {
    if rows == [] then [] else rows[|rows| - 1].rowHash
  }

  function HeadText(env: Env, dek: Dek, highWater: I64, tailHash: Bytes): Text {
    HexText(AnchorMac(env, dek, highWater, highWater, tailHash))
  }

  /** `write_audit_anchor`: the high-water mark first, then the MAC. */
  function AnchorWritesAt(env: Env, dek: Dek, s: StoreState, newSeq: I64, tailHash: Bytes): seq<Write> {
    var highWater := Max(StoredHighWater(s), newSeq);
    [WriteMeta(MetaHighWater, Decimal(highWater)), WriteMeta(MetaAuditHead, HeadText(env, dek, highWater, tailHash))]
  }

  function AnchorWrites(env: Env, dek: Dek, s: StoreState): seq<Write> {
    AnchorWritesAt(env, dek, s, TailSeq(s.audit), TailHash(s.audit))
  }

  /** One audited event: the row, then the anchor when there is a key to make it with. */
  function AuditWrites(env: Env, s: StoreState, rec: AuditRecord, key: Option<Dek>): seq<Write> {
    [WriteRow(rec)] + if key.Some? then AnchorWrites(env, key.value, Apply(env, s, WriteRow(rec))) else []
  }

  // ---- checking it ----

  /** The hash of the row at the high-water mark, as the verifier finds it. */
  function AnchoredHash(rows: seq<AuditRecord>, highWater: I64): Option<Bytes> {
    if highWater == 0 then Some([])
    else if 1 <= highWater <= |rows| && rows[highWater - 1].seqNo == highWater then Some(rows[highWater - 1].rowHash)
    else None
  }

  /** `verify_audit_anchor_with`. */
  predicate AnchorAccepts(env: Env, dek: Dek, s: StoreState) {
    ChainOk(env, s.audit) && (MetaAuditHead !in s.meta || HeadMatches(env, dek, s))
  }

  predicate HeadMatches(env: Env, dek: Dek, s: StoreState)
    requires MetaAuditHead in s.meta
  {
    var mac := UnHex(s.meta[MetaAuditHead]);
    var highWater := if MetaHighWater in s.meta then ParseI64(s.meta[MetaHighWater]) else None;
    mac.Some? && highWater.Some? && TailSeq(s.audit) >= highWater.value &&
        MatchesAt(env, dek, s, mac.value, highWater.value)
  }

  predicate MatchesAt(env: Env, dek: Dek, s: StoreState, mac: Bytes, highWater: I64) {
    var hash := AnchoredHash(s.audit, highWater);
    hash.Some? && mac == AnchorMac(env, dek, highWater, highWater, hash.value)
  }

  // ---- honest growth ----

  /** The log is anchored at row `n`. */
  predicate Anchored(env: Env, s: StoreState, dek: Dek, n: nat) {
    && 1 <= n <= |s.audit| && n <= I64_MAX
    && Meta(s, MetaHighWater) == Some(Decimal(n))
    && Meta(s, MetaAuditHead) == Some(HeadText(env, dek, n, s.audit[n - 1].rowHash))
  }

  /** The anchor stands at row `a`: the stored head anchors that row, or there is no head yet and the mark says `a`. */
  predicate Stands(env: Env, s: StoreState, dek: Dek, a: nat) {
    if MetaAuditHead in s.meta then Anchored(env, s, dek, a) else StoredHighWater(s) == a <= |s.audit|
  }

  lemma ChainTail(env: Env, rows: seq<AuditRecord>)
    requires ChainOk(env, rows) && |rows| <= I64_MAX
    ensures TailSeq(rows) == |rows|
  {
    if rows != [] {
      assert RowOk(env, rows, |rows| - 1);
    }
  }

  /** An anchored log is accepted; rows above the anchor do not matter. */
  lemma AnchoredAccepted(env: Env, s: StoreState, dek: Dek, n: nat)
    requires ChainOk(env, s.audit) && |s.audit| <= I64_MAX && Anchored(env, s, dek, n)
    ensures AnchorAccepts(env, dek, s)
  {
    ChainTail(env, s.audit);
    DecimalParses(n);
    HexRoundTrip(AnchorMac(env, dek, n, n, s.audit[n - 1].rowHash));
    assert RowOk(env, s.audit, n - 1);
  }

  /**
   An honest audited event. Without the key it adds a row above the anchor; with the key the anchor
   follows to the new row, and the writer's own check that the high-water mark is the new tail holds.
   */
  lemma AuditStep(env: Env, s: StoreState, rec: AuditRecord, key: Option<Dek>)
    requires ChainOk(env, s.audit) && |s.audit| < I64_MAX
    requires StoredHighWater(s) <= |s.audit| + 1
    ensures var s' := ApplyAll(env, s, AuditWrites(env, s, rec, key));
      && s'.audit == s.audit + [Linked(env, Last(s.audit), rec)]
      && ChainOk(env, s'.audit)
      && (key.None? ==> s' == s.(audit := s'.audit))
      && (key.Some? ==> Anchored(env, s', key.value, |s'.audit|) && s' == s.(audit := s'.audit, meta := s'.meta))
      && (key.Some? ==> Max(StoredHighWater(s), TailSeq(s'.audit)) == TailSeq(s'.audit))
      && (forall k :: k != MetaHighWater && k != MetaAuditHead ==> Meta(s', k) == Meta(s, k))
  {
    LinkExtends(env, s.audit, rec);
    var s1 := Apply(env, s, WriteRow(rec));
    ApplyOne(env, s, WriteRow(rec));
    if key.None? {
      assert [WriteRow(rec)] + [] == [WriteRow(rec)];
    } else {
      ChainTail(env, s1.audit);
      var ws := AnchorWrites(env, key.value, s1);
      assert ws == [ws[0]] + [ws[1]];
      ApplyConcat(env, s, [WriteRow(rec)], ws);
      ApplyConcat(env, s1, [ws[0]], [ws[1]]);
      ApplyOne(env, s1, ws[0]);
      ApplyOne(env, Apply(env, s1, ws[0]), ws[1]);
    }
  }

  // ---- tamper evidence ----

  /** What a forger holds: the head text of some anchor the engine issued over the genuine log. */
  predicate IssuedHead(env: Env, dek: Dek, genuine: seq<AuditRecord>, head: Text, m: nat) {
    1 <= m <= |genuine| && m <= I64_MAX && head == HeadText(env, dek, m, genuine[m - 1].rowHash)
  }

  /** The accepted head, for a mark of `h`, and the one issued at `m` are tags of two different anchor messages. */
  predicate AnchorCollision(env: Env, dek: Dek, forged: seq<AuditRecord>, h: nat, genuine: seq<AuditRecord>, m: nat) {
    && h <= |forged| && h <= I64_MAX && 1 <= m <= |genuine| && m <= I64_MAX
    && MacCollision(env, AuditHeadKey, dek,
         AnchorMessage(h, h, if h == 0 then [] else forged[h - 1].rowHash),
         AnchorMessage(m, m, genuine[m - 1].rowHash))
  }

  /** The high-water mark reads as a number. */
  function ParsedMark(s: StoreState): Option<I64> {
    var text :- Meta(s, MetaHighWater);
    ParseI64(text)
  }

  /** The high-water mark is `m` and every row up to it is genuine. */
  predicate GenuineTo(genuine: seq<AuditRecord>, forged: StoreState, m: nat) {
    && ParsedMark(forged) == Some(m) && m <= |forged.audit| && m <= |genuine|
    && forged.audit[..m] == genuine[..m]
  }

  lemma GenuineAccepted(env: Env, dek: Dek, genuine: seq<AuditRecord>, forged: StoreState, m: nat)
    requires ChainOk(env, forged.audit) && GenuineTo(genuine, forged, m)
    requires MetaAuditHead in forged.meta && IssuedHead(env, dek, genuine, forged.meta[MetaAuditHead], m)
    ensures AnchorAccepts(env, dek, forged)
  {
    HexRoundTrip(AnchorMac(env, dek, m, m, genuine[m - 1].rowHash));
    assert forged.audit[m - 1] == forged.audit[..m][m - 1] == genuine[..m][m - 1] == genuine[m - 1];
    assert RowOk(env, forged.audit, m - 1);
    ChainBounded(env, forged.audit);
    ChainTail(env, forged.audit);
  }

  /** A verifying chain numbers its rows in 64 bits. */
  lemma ChainBounded(env: Env, rows: seq<AuditRecord>)
    requires ChainOk(env, rows)
    ensures |rows| <= I64_MAX
  {
    if rows != [] {
      assert RowOk(env, rows, |rows| - 1);
      var last: I64 := rows[|rows| - 1].seqNo;
      assert last == |rows|;
    }
  }

  lemma HeadBinds(env: Env, dek: Dek, genuine: seq<AuditRecord>, forged: StoreState, m: nat)
      returns (h: nat, i: nat, j: nat)
    requires ChainOk(env, genuine) && AllEncodable(genuine) && AllEncodable(forged.audit)
    requires MetaAuditHead in forged.meta && IssuedHead(env, dek, genuine, forged.meta[MetaAuditHead], m)
    requires AnchorAccepts(env, dek, forged)
    ensures || GenuineTo(genuine, forged, m)
            || RowCollision(env, forged.audit, i, genuine, j)
            || (ParsedMark(forged) == Some(h) && AnchorCollision(env, dek, forged.audit, h, genuine, m))
  {
    i, j := 0, 0;
    h := ParsedMark(forged).value;
    var hash := AnchoredHash(forged.audit, h).value;
    HexRoundTrip(AnchorMac(env, dek, m, m, genuine[m - 1].rowHash));
    if AnchorMessage(h, h, hash) == AnchorMessage(m, m, genuine[m - 1].rowHash) {
      AnchorMessageInjective(h, hash, m, genuine[m - 1].rowHash);
      i, j := ChainBinding(env, forged.audit, genuine, m, m);
    }
  }

  /**
   Tamper evidence, exactly. Replace the rows by anything, the high-water mark by anything, and the
   head by any anchor ever issued or by nothing: the verifier accepts if and only if the rows chain
   and either the head is gone or the mark is the issued anchor's and every row up to it is genuine,
   whatever lies above; otherwise the forgery exhibits a collision of two rows or of two anchors.
   */
  lemma AcceptedRowsGenuine(env: Env, dek: Dek, genuine: seq<AuditRecord>, forged: StoreState, m: nat)
      returns (h: nat, i: nat, j: nat)
    requires ChainOk(env, genuine) && AllEncodable(genuine) && AllEncodable(forged.audit)
    requires MetaAuditHead in forged.meta ==> IssuedHead(env, dek, genuine, forged.meta[MetaAuditHead], m)
    ensures ChainOk(env, forged.audit) && (MetaAuditHead !in forged.meta || GenuineTo(genuine, forged, m)) ==>
              AnchorAccepts(env, dek, forged)
    ensures AnchorAccepts(env, dek, forged) ==>
      && ChainOk(env, forged.audit)
      && (|| MetaAuditHead !in forged.meta || GenuineTo(genuine, forged, m)
          || RowCollision(env, forged.audit, i, genuine, j)
          || (ParsedMark(forged) == Some(h) && AnchorCollision(env, dek, forged.audit, h, genuine, m)))
  {
    h, i, j := 0, 0, 0;
    if MetaAuditHead in forged.meta {
      if AnchorAccepts(env, dek, forged) {
        h, i, j := HeadBinds(env, dek, genuine, forged, m);
      } else if ChainOk(env, forged.audit) && GenuineTo(genuine, forged, m) {
        GenuineAccepted(env, dek, genuine, forged, m);
      }
    }
  }

  /** With the high-water mark left as it was, only the current head is accepted, and everything anchored is genuine. */
  lemma TamperEvidence(env: Env, dek: Dek, honest: StoreState, n: nat, forged: StoreState, m: nat)
      returns (h: nat, i: nat, j: nat)
    requires ChainOk(env, honest.audit) && AllEncodable(honest.audit) && Anchored(env, honest, dek, n)
    requires AllEncodable(forged.audit) && Meta(forged, MetaHighWater) == Meta(honest, MetaHighWater)
    requires MetaAuditHead in forged.meta ==> IssuedHead(env, dek, honest.audit, forged.meta[MetaAuditHead], m)
    ensures && ChainOk(env, forged.audit)
            && (MetaAuditHead !in forged.meta ||
                (m == n && n <= |forged.audit| && forged.audit[..n] == honest.audit[..n])) ==>
              AnchorAccepts(env, dek, forged)
    ensures AnchorAccepts(env, dek, forged) ==>
      && ChainOk(env, forged.audit)
      && (|| MetaAuditHead !in forged.meta
          || (m == n && n <= |forged.audit| && forged.audit[..n] == honest.audit[..n])
          || RowCollision(env, forged.audit, i, honest.audit, j)
          || (h == n && AnchorCollision(env, dek, forged.audit, h, honest.audit, m)))
  {
    DecimalParses(n);
    h, i, j := AcceptedRowsGenuine(env, dek, honest.audit, forged, m);
  }

  /** One input that passes: any anchored prefix of the log, with its own mark and head. */
  lemma FullRollbackAccepted(env: Env, dek: Dek, honest: StoreState, m: nat, forged: StoreState)
    requires ChainOk(env, honest.audit) && |honest.audit| <= I64_MAX && 1 <= m <= |honest.audit|
    requires forged.audit == honest.audit[..m]
    requires Meta(forged, MetaHighWater) == Some(Decimal(m))
    requires Meta(forged, MetaAuditHead) == Some(HeadText(env, dek, m, honest.audit[m - 1].rowHash))
    ensures AnchorAccepts(env, dek, forged)
  {
    ChainPrefix(env, honest.audit, m);
    AnchoredAccepted(env, forged, dek, m);
  }

  // ---- a crash between the two writes ----

  /** The high-water mark says `n`, the head still says `m`. */
  predicate Torn(env: Env, s: StoreState, dek: Dek, n: nat, m: nat) {
    && 1 <= n <= |s.audit| && n <= I64_MAX && 1 <= m <= |s.audit| && m < n
    && Meta(s, MetaHighWater) == Some(Decimal(n))
    && Meta(s, MetaAuditHead) == Some(HeadText(env, dek, m, s.audit[m - 1].rowHash))
  }

  ghost predicate TornCollision(env: Env, s: StoreState, dek: Dek, n: nat, m: nat)
    requires Torn(env, s, dek, n, m)
  {
    MacCollision(env, AuditHeadKey, dek, AnchorMessage(n, n, s.audit[n - 1].rowHash),
                 AnchorMessage(m, m, s.audit[m - 1].rowHash))
  }

  /**
   A mark and a head that were written for different tails are refused: the tag the verifier expects
   is the stored one only if the two anchors collide.
   */
  lemma MismatchRefused(env: Env, s: StoreState, dek: Dek, n: nat, m: nat, hash: Bytes)
    requires 1 <= n <= |s.audit| && n <= I64_MAX && m <= I64_MAX
    requires Meta(s, MetaHighWater) == Some(Decimal(n))
    requires Meta(s, MetaAuditHead) == Some(HeadText(env, dek, m, hash))
    requires AnchorAccepts(env, dek, s)
    ensures || (n == m && s.audit[n - 1].rowHash == hash)
            || MacCollision(env, AuditHeadKey, dek, AnchorMessage(n, n, s.audit[n - 1].rowHash),
                            AnchorMessage(m, m, hash))
  {
    DecimalParses(n);
    HexRoundTrip(AnchorMac(env, dek, m, m, hash));
    AnchorBinding(env, dek, n, s.audit[n - 1].rowHash, m, hash);
  }

  lemma AnchorBinding(env: Env, dek: Dek, n: I64, tail1: Bytes, m: I64, tail2: Bytes)
    requires AnchorMac(env, dek, n, n, tail1) == AnchorMac(env, dek, m, m, tail2)
    ensures || (n == m && tail1 == tail2)
            || MacCollision(env, AuditHeadKey, dek, AnchorMessage(n, n, tail1), AnchorMessage(m, m, tail2))
  {
    if AnchorMessage(n, n, tail1) == AnchorMessage(m, m, tail2) {
      AnchorMessageInjective(n, tail1, m, tail2);
    }
  }

  lemma TornRefused(env: Env, s: StoreState, dek: Dek, n: nat, m: nat)
    requires Torn(env, s, dek, n, m)
    ensures !AnchorAccepts(env, dek, s) || TornCollision(env, s, dek, n, m)
  {
    if AnchorAccepts(env, dek, s) {
      MismatchRefused(env, s, dek, n, m, s.audit[m - 1].rowHash);
    }
  }

  /**
   Every point at which an audited event under the key can stop. Before its row, after its row and
   after the whole event the log is anchored and accepted; between the mark and the head it is torn,
   so it is refused or the two anchors collide.
   */
  lemma CrashPoints(env: Env, s: StoreState, rec: AuditRecord, dek: Dek, n: nat, k: nat)
    requires ChainOk(env, s.audit) && |s.audit| < I64_MAX && Anchored(env, s, dek, n) && k <= 3
    ensures |AuditWrites(env, s, rec, Some(dek))| == 3
    ensures var cut := ApplyAll(env, s, AuditWrites(env, s, rec, Some(dek))[..k]);
      && ChainOk(env, cut.audit)
      && (k <= 1 ==> Anchored(env, cut, dek, n))
      && (k == 2 ==> Torn(env, cut, dek, |s.audit| + 1, n))
      && (k == 3 ==> Anchored(env, cut, dek, |s.audit| + 1))
  {
    DecimalParses(n);
    AuditStep(env, s, rec, Some(dek));
    AuditStep(env, s, rec, None);
    var ws := AuditWrites(env, s, rec, Some(dek));
    var s1 := Apply(env, s, WriteRow(rec));
    ChainTail(env, s1.audit);
    LinkExtends(env, s.audit, rec);
    assert ws[..0] == [];
    assert ws[..1] == [WriteRow(rec)] == AuditWrites(env, s, rec, None);
    assert ws[..2] == [WriteRow(rec)] + [ws[1]];
    assert ws[..3] == ws;
    ApplyOne(env, s, WriteRow(rec));
    ApplyMore(env, s, [WriteRow(rec)], ws[1]);
  }

  /** The store after the first `k` writes of an audited event under the key. */
  lemma EventAt(env: Env, s: StoreState, rec: AuditRecord, dek: Dek, k: nat)
    requires k <= 3
    ensures |AuditWrites(env, s, rec, Some(dek))| == 3
    ensures var t, ws := Apply(env, s, WriteRow(rec)), AuditWrites(env, s, rec, Some(dek));
      ApplyAll(env, s, ws[..k]) == match k
                                   case 0 => s
                                   case 1 => t
                                   case 2 => Apply(env, t, ws[1])
                                   case _ => Apply(env, Apply(env, t, ws[1]), ws[2])
  {
    var ws := AuditWrites(env, s, rec, Some(dek));
    assert ws[..0] == [];
    if k >= 1 {
      ApplyUpTo(env, s, ws, 1);
    }
    if k >= 2 {
      ApplyUpTo(env, s, ws, 2);
    }
    if k == 3 {
      ApplyUpTo(env, s, ws, 3);
    }
  }

  /** An audited event under the key touches the log and its two anchor keys only, however far it gets. */
  lemma EventKeeps(env: Env, s: StoreState, rec: AuditRecord, dek: Dek, k: nat)
    requires ChainOk(env, s.audit) && |s.audit| < I64_MAX && k <= 3
    ensures |AuditWrites(env, s, rec, Some(dek))| == 3
    ensures var cut := ApplyAll(env, s, AuditWrites(env, s, rec, Some(dek))[..k]);
      && cut == s.(audit := cut.audit, meta := cut.meta) && ChainOk(env, cut.audit)
      && s.audit <= cut.audit && |cut.audit| == |s.audit| + (if k == 0 then 0 else 1)
      && (forall x :: x != MetaHighWater && x != MetaAuditHead ==> Meta(cut, x) == Meta(s, x))
      && (k < 3 ==> Meta(cut, MetaAuditHead) == Meta(s, MetaAuditHead))
      && (k < 2 ==> Meta(cut, MetaHighWater) == Meta(s, MetaHighWater))
      && (k >= 2 ==> Meta(cut, MetaHighWater) == Some(Decimal(Max(StoredHighWater(s), |s.audit| + 1))))
  {
    EventAt(env, s, rec, dek, k);
    LinkExtends(env, s.audit, rec);
  }

  /**
   With the mark ahead of the row it anchors, an audited event breaks the writer's assertion and leaves a
   refused log.
   */
  lemma MarkAhead(env: Env, s: StoreState, rec: AuditRecord, dek: Dek)
    requires ChainOk(env, s.audit) && |s.audit| < I64_MAX && StoredHighWater(s) > |s.audit| + 1
    ensures var t := ApplyAll(env, s, AuditWrites(env, s, rec, Some(dek)));
      && |t.audit| == |s.audit| + 1 && Max(StoredHighWater(s), TailSeq(t.audit)) != TailSeq(t.audit)
      && !AnchorAccepts(env, dek, t)
  {
    var ws := AuditWrites(env, s, rec, Some(dek));
    assert ws[..3] == ws;
    EventKeeps(env, s, rec, dek, 3);
    DecimalParses(StoredHighWater(s));
    ApplyUpTo(env, s, ws, 3);
    ChainTail(env, ApplyAll(env, s, ws).audit);
  }

  /** Before there is a head an audited event can stop anywhere: there is none yet, or it anchors the event's row. */
  lemma HeadlessPoints(env: Env, s: StoreState, rec: AuditRecord, dek: Dek, n: nat, k: nat) returns (m: nat)
    requires ChainOk(env, s.audit) && |s.audit| < I64_MAX && k <= 3
    requires MetaAuditHead !in s.meta && StoredHighWater(s) == n <= |s.audit|
    ensures |AuditWrites(env, s, rec, Some(dek))| == 3
    ensures n <= m && Stands(env, ApplyAll(env, s, AuditWrites(env, s, rec, Some(dek))[..k]), dek, m)
  {
    m := if k < 2 then n else |s.audit| + 1;
    EventKeeps(env, s, rec, dek, k);
    if k == 2 {
      DecimalParses(|s.audit| + 1);
    }
    if k == 3 {
      AuditStep(env, s, rec, Some(dek));
      var ws := AuditWrites(env, s, rec, Some(dek));
      assert ws[..3] == ws;
    }
  }

  // ---- why appending and anchoring must not interleave ----

  /**
   Two overlapping audited events on an anchored log: the first reads its tail, the second appends
   and anchors, then the first anchors the tail it read. The writer's own check fails, and the log
   is refused from then on unless the two rows or their anchors collide.
   */
  lemma OverlapBreaksAnchor(env: Env, s: StoreState, dek: Dek, r1: AuditRecord, r2: AuditRecord)
      returns (done: StoreState, row1: AuditRecord, row2: AuditRecord)
    requires ChainOk(env, s.audit) && |s.audit| < I64_MAX - 1 && Anchored(env, s, dek, |s.audit|)
    ensures var s1 := Apply(env, s, WriteRow(r1));
            var s3 := ApplyAll(env, s1, AuditWrites(env, s1, r2, Some(dek)));
      && done == ApplyAll(env, s3, AnchorWritesAt(env, dek, s3, TailSeq(s1.audit), TailHash(s1.audit)))
      && Max(StoredHighWater(s3), TailSeq(s1.audit)) != TailSeq(s1.audit)
      && done.audit == s.audit + [row1, row2]
    ensures || !AnchorAccepts(env, dek, done)
            || row1.rowHash == row2.rowHash
            || MacCollision(env, AuditHeadKey, dek, AnchorMessage(row2.seqNo, row2.seqNo, row1.rowHash),
                            AnchorMessage(row2.seqNo, row2.seqNo, row2.rowHash))
  {
    var n := |s.audit|;
    var s1 := Apply(env, s, WriteRow(r1));
    var s3 := ApplyAll(env, s1, AuditWrites(env, s1, r2, Some(dek)));
    row1, row2 := OverlapRows(env, s, dek, r1, r2);
    done := LateAnchor(env, s3, dek, n + 1, row1.rowHash, n + 2);
    if AnchorAccepts(env, dek, done) && row1.rowHash != row2.rowHash {
      MismatchRefused(env, done, dek, n + 2, n + 2, row1.rowHash);
    }
  }

  lemma OverlapRows(env: Env, s: StoreState, dek: Dek, r1: AuditRecord, r2: AuditRecord)
      returns (row1: AuditRecord, row2: AuditRecord)
    requires ChainOk(env, s.audit) && |s.audit| < I64_MAX - 1 && Anchored(env, s, dek, |s.audit|)
    ensures var s1 := Apply(env, s, WriteRow(r1));
            var s3 := ApplyAll(env, s1, AuditWrites(env, s1, r2, Some(dek)));
      && TailSeq(s1.audit) == |s.audit| + 1 && TailHash(s1.audit) == row1.rowHash
      && row2.seqNo == |s.audit| + 2 && s3.audit == s.audit + [row1, row2]
      && Meta(s3, MetaHighWater) == Some(Decimal(|s.audit| + 2))
  {
    var n := |s.audit|;
    DecimalParses(n);
    LinkExtends(env, s.audit, r1);
    var s1 := Apply(env, s, WriteRow(r1));
    AuditStep(env, s1, r2, Some(dek));
    row1 := s1.audit[n];
    row2 := Linked(env, Last(s1.audit), r2);
    ChainTail(env, s1.audit);
  }

  /** Anchoring a tail that is no longer the tail keeps the mark and puts the wrong row under it. */
  lemma LateAnchor(env: Env, s: StoreState, dek: Dek, late: nat, hash: Bytes, n: nat) returns (done: StoreState)
    requires late < n <= I64_MAX && Meta(s, MetaHighWater) == Some(Decimal(n))
    ensures done == ApplyAll(env, s, AnchorWritesAt(env, dek, s, late, hash))
    ensures done.audit == s.audit && Max(StoredHighWater(s), late) == n
    ensures Meta(done, MetaHighWater) == Some(Decimal(n))
    ensures Meta(done, MetaAuditHead) == Some(HeadText(env, dek, n, hash))
  {
    DecimalParses(n);
    var ws := AnchorWritesAt(env, dek, s, late, hash);
    done := ApplyAll(env, s, ws);
    assert ws == [ws[0]] + [ws[1]];
    ApplyOne(env, s, ws[0]);
    ApplyMore(env, s, [ws[0]], ws[1]);
  }
}
