/**
 The libSQL store: transactions over a connection that may expire before or after a commit, retried
 once over a fresh one, and audit appends serialised by a lock.
 */
module LibSql {
  import opened Bytes
  import opened Environment
  import opened Audit
  import opened Store

  // ---- the remote tables ----

  /** The counter table, the secrets table and the audit table, the last in `seq` order. */
  datatype Db = Db(nextId: I64, secrets: seq<SecretRow>, audit: seq<AuditRecord>)

  datatype DbError = Expired | Io | ConnectFailed | Contract | Conflict | Unreadable

  /** What a transaction body does when it runs to its end. */
  datatype Outcome<+T> = Commit(db: Db, value: T) | Reject(error: DbError)

  type Txn<!T> = Db -> Outcome<T>

  /** What became of one attempt, and what the client was told. */
  datatype Fate =
    | Commits            // committed and reported
    | Fails              // an error other than expiry, nothing committed
    | FailsCommitted     // committed, but an error other than expiry came back
    | Expires            // the stream expired, nothing committed
    | ExpiresCommitted   // committed, but the stream expired before the answer

  predicate TakesEffect(f: Fate) { f.Commits? || f.FailsCommitted? || f.ExpiresCommitted? }

  datatype Attempted<+T> = Attempted(db: Db, reported: Result<T, DbError>)

  function Attempt<T>(db: Db, txn: Txn<T>, fate: Fate): Attempted<T> {
    match txn(db)
    case Reject(error) =>
      Attempted(db, Err(if fate.Fails? then Io else if fate.Expires? then Expired else error))
    case Commit(db', value) =>
      match fate
      case Commits => Attempted(db', Ok(value))
      case Fails => Attempted(db, Err(Io))
      case FailsCommitted => Attempted(db', Err(Io))
      case Expires => Attempted(db, Err(Expired))
      case ExpiresCommitted => Attempted(db', Err(Expired))
  }

  /** The fate of a first attempt, of the reconnection after it, and of a second attempt. */
  datatype Plan = Plan(first: Fate, reconnects: bool, second: Fate)

  function Retried<T>(db: Db, txn: Txn<T>, plan: Plan): Attempted<T> {
    var once := Attempt(db, txn, plan.first);
    if once.reported != Err(Expired) then once
    else if !plan.reconnects then Attempted(once.db, Err(ConnectFailed))
    else Attempt(once.db, txn, plan.second)
  }

  /** One attempt at a body that would commit. */
  lemma AttemptCommits<T>(db: Db, txn: Txn<T>, fate: Fate, after: Db, value: T)
    requires txn(db) == Commit(after, value)
    ensures var a := Attempt(db, txn, fate);
      && a.db == (if TakesEffect(fate) then after else db)
      && a.reported == (if fate.Commits? then Ok(value) else if fate.Fails? || fate.FailsCommitted? then Err(Io)
                        else Err(Expired))
  {
  }

  /** One attempt at a body that would be rejected. */
  lemma AttemptRejected<T>(db: Db, txn: Txn<T>, fate: Fate)
    requires txn(db).Reject? && txn(db).error != Expired
    ensures var a := Attempt(db, txn, fate);
      a.db == db && a.reported.Err? && (a.reported == Err(Expired) <==> fate.Expires?)
  {
  }

  /**
   A body that commits once and is rejected from then on: retrying it takes effect once, when an
   attempt lands, and is reported when that attempt is.
   */
  lemma RetriedOnce<T>(db: Db, txn: Txn<T>, plan: Plan, after: Db, value: T)
    requires txn(db) == Commit(after, value) && txn(after).Reject? && txn(after).error != Expired
    ensures var a := Retried(db, txn, plan);
      && a.db == (if Lands(plan) then after else db)
      && (a.reported.Ok? <==> Told(plan)) && (a.reported.Ok? ==> a.reported.value == value)
  {
    AttemptCommits(db, txn, plan.first, after, value);
    AttemptCommits(db, txn, plan.second, after, value);
    AttemptRejected(after, txn, plan.second);
  }

  /** A body that is rejected changes nothing and is reported as an error. */
  lemma RetriedRejected<T>(db: Db, txn: Txn<T>, plan: Plan)
    requires txn(db).Reject? && txn(db).error != Expired
    ensures Retried(db, txn, plan).db == db && Retried(db, txn, plan).reported.Err?
  {
    AttemptRejected(db, txn, plan.first);
    AttemptRejected(db, txn, plan.second);
  }

  /** The insert takes effect, on the first attempt or on a second that the first left the way for. */
  predicate Lands(plan: Plan) {
    TakesEffect(plan.first) || (plan.first.Expires? && plan.reconnects && TakesEffect(plan.second))
  }

  /** The client is told so. */
  predicate Told(plan: Plan) {
    plan.first.Commits? || (plan.first.Expires? && plan.reconnects && plan.second.Commits?)
  }

  /** A body that changes nothing gets its answer, on the first attempt or after any expiry on the second. */
  predicate Answers(plan: Plan) {
    plan.first.Commits? || ((plan.first.Expires? || plan.first.ExpiresCommitted?) && plan.reconnects &&
                            plan.second.Commits?)
  }

  lemma RetriedRead<T>(db: Db, txn: Txn<T>, plan: Plan, value: T)
    requires txn(db) == Commit(db, value)
    ensures var a := Retried(db, txn, plan);
      a.db == db && (a.reported.Ok? <==> Answers(plan)) && (a.reported.Ok? ==> a.reported.value == value)
  {
    AttemptCommits(db, txn, plan.first, db, value);
    AttemptCommits(db, txn, plan.second, db, value);
  }

  // ---- transaction bodies ----

  /** The counter past the 64-bit range is no integer any more: it cannot be read back, and nothing is committed. */
  function ReserveOutcome(db: Db): Outcome<I64> {
    if db.nextId == I64_MAX then Reject(Unreadable) else Commit(db.(nextId := db.nextId + 1), db.nextId + 1)
  }

  predicate PutValid(db: Db, row: SecretRow) {
    && 0 < row.rowId <= db.nextId && !RowIdTaken(db.secrets, row.rowId)
    && row.version == Succ32(MaxVersion(db.secrets, row.name))
  }

  function PutOutcome(db: Db, row: SecretRow): Outcome<I64> {
    if PutValid(db, row) then Commit(db.(secrets := db.secrets + [row]), row.rowId) else Reject(Contract)
  }

  predicate SeqTaken(rows: seq<AuditRecord>, seqNo: I64) { exists k :: 0 <= k < |rows| && rows[k].seqNo == seqNo }

  /** An insert keyed by `seq`, kept in that order. */
  function InsertBySeq(rows: seq<AuditRecord>, r: AuditRecord): seq<AuditRecord> {
    if rows == [] || rows[|rows| - 1].seqNo < r.seqNo then rows + [r]
    else InsertBySeq(rows[..|rows| - 1], r) + [rows[|rows| - 1]]
  }

  function AppendOutcome(db: Db, row: AuditRecord): Outcome<()> {
    if SeqTaken(db.audit, row.seqNo) then Reject(Conflict) else Commit(db.(audit := InsertBySeq(db.audit, row)), ())
  }

  function TailOutcome(db: Db): Outcome<Option<AuditRecord>> { Commit(db, Last(db.audit)) }

  function ProbeOutcome(db: Db): Outcome<()> { Commit(db, ()) }

  // ---- the store ----

  class LibSqlStore {
    const env: Env
    var db: Db
    /** Which connection is current; reconnecting replaces it. */
    var connection: nat

    constructor (env: Env)
      ensures this.env == env && db == Db(0, [], []) && connection == 0
    {
      this.env := env;
      db := Db(0, [], []);
      connection := 0;
    }

    method TryOnce<T>(txn: Txn<T>, fate: Fate) returns (r: Result<T, DbError>)
      modifies this`db
      ensures Attempted(db, r) == Attempt(old(db), txn, fate)
    {
      match txn(db) {
        case Reject(error) =>
          r := Err(if fate.Fails? then Io else if fate.Expires? then Expired else error);
        case Commit(db', value) =>
          if TakesEffect(fate) {
            db := db';
          }
          r := if fate.Commits? then Ok(value) else if fate.Fails? || fate.FailsCommitted? then Err(Io)
              else Err(Expired);
      }
    }

    /** Run a re-runnable body; when the stream expired, reconnect once and run it again. */
    method RunRetry<T>(txn: Txn<T>, plan: Plan) returns (r: Result<T, DbError>)
      modifies this
      ensures Attempted(db, r) == Retried(old(db), txn, plan)
      ensures old(connection) <= connection <= old(connection) + 1
    {
      r := TryOnce(txn, plan.first);
      if r.Err? && r.error.Expired? {
        if !plan.reconnects {
          return Err(ConnectFailed);
        }
        connection := connection + 1;
        r := TryOnce(txn, plan.second);
      }
    }

    /** The durability probe behind every write; it changes nothing. */
    method FsyncBarrier(plan: Plan) returns (ok: bool)
      modifies this
      ensures db == old(db) && ok == Retried(old(db), ProbeOutcome, plan).reported.Ok?
    {
      var r := RunRetry(ProbeOutcome, plan);
      ok := r.Ok?;
    }

    method ReserveSecretRowId(plan: Plan) returns (r: Result<I64, DbError>)
      modifies this
      ensures Attempted(db, r) == Retried(old(db), ReserveOutcome, plan)
      ensures db == old(db).(nextId := db.nextId) && old(db).nextId <= db.nextId <= old(db).nextId + 2
      ensures r.Ok? ==> old(db).nextId < r.value == db.nextId
    {
      r := RunRetry(ReserveOutcome, plan);
    }

    method PutSecret(row: SecretRow, plan: Plan, barrier: Plan) returns (r: Result<I64, DbError>)
      modifies this
      ensures db == PutResult(old(db), row, plan, barrier).db && r == PutResult(old(db), row, plan, barrier).reported
      ensures db == old(db) || db == old(db).(secrets := old(db).secrets + [row])
      ensures r.Ok? ==> r.value == row.rowId && db == old(db).(secrets := old(db).secrets + [row])
    {
      PutOnce(db, row, plan, barrier);
      r := RunRetry(PutTxn(row), plan);
      if r.Ok? {
        var durable := FsyncBarrier(barrier);
        if !durable {
          r := Err(Retried(db, ProbeOutcome, barrier).reported.error);
        }
      }
    }

    /** Read the tail, link the record to it, insert: the lock is held throughout. */
    method AppendAudit(rec: AuditRecord, tail: Plan, plan: Plan, barrier: Plan) returns (r: Result<I64, DbError>)
      modifies this
      ensures db == AppendResult(env, old(db), rec, tail, plan, barrier).db
      ensures r == AppendResult(env, old(db), rec, tail, plan, barrier).reported
    {
      var last := RunRetry(TailOutcome, tail);
      TailUnchanged(old(db), tail);
      if last.Err? {
        return Err(last.error);
      }
      var sealed := LinkRow(env, last.value, rec);
      var inserted := RunRetry(AppendTxn(sealed), plan);
      if inserted.Err? {
        return Err(inserted.error);
      }
      var durable := FsyncBarrier(barrier);
      if !durable {
        return Err(Retried(db, ProbeOutcome, barrier).reported.error);
      }
      return Ok(sealed.seqNo);
    }
  }

  // ---- reserving ----

  /** A call that reports an id has moved the counter to it, past everything reserved before. */
  lemma ReserveFresh(db: Db, plan: Plan)
    ensures var a := Retried(db, ReserveOutcome, plan);
      && a.db == db.(nextId := a.db.nextId) && db.nextId <= a.db.nextId <= db.nextId + 2
      && (a.reported.Ok? ==> db.nextId < a.reported.value == a.db.nextId)
  {
  }

  /** How many of the attempts of a reservation take effect: the second may follow a first that did. */
  function Landings(plan: Plan): nat {
    var retries := (plan.first.Expires? || plan.first.ExpiresCommitted?) && plan.reconnects;
    (if TakesEffect(plan.first) then 1 else 0) + if retries && TakesEffect(plan.second) then 1 else 0
  }

  /**
   A reservation moves the counter once for each attempt that lands, up to the top of its range, and
   succeeds exactly when an attempt was answered and none went past the top; the id told is then the
   counter. An id is skipped exactly when a first commit went unreported.
   */
  lemma ReserveOnce(db: Db, plan: Plan)
    ensures var a := Retried(db, ReserveOutcome, plan);
      && a.db == db.(nextId := Min(0x7FFF_FFFF_FFFF_FFFF, db.nextId + Landings(plan)))
      && (a.reported.Ok? <==> Answers(plan) && db.nextId + Landings(plan) <= 0x7FFF_FFFF_FFFF_FFFF)
      && (a.reported.Ok? ==> a.reported.value == a.db.nextId)
      && (a.reported.Ok? && a.reported.value != db.nextId + 1 <==>
            plan == Plan(ExpiresCommitted, true, Commits) && db.nextId + 2 <= 0x7FFF_FFFF_FFFF_FFFF)
  {
    if db.nextId < I64_MAX {
      var once := db.(nextId := db.nextId + 1);
      ReserveAttempt(once, plan.second);
    }
    ReserveAttempt(db, plan.first);
    ReserveAttempt(db, plan.second);
  }

  lemma ReserveAttempt(db: Db, fate: Fate)
    ensures var a := Attempt(db, ReserveOutcome, fate);
      if db.nextId == I64_MAX then a.db == db && a.reported.Err? && (a.reported == Err(Expired) <==> fate.Expires?)
      else && a.db == (if TakesEffect(fate) then db.(nextId := db.nextId + 1) else db)
           && (a.reported.Ok? <==> fate.Commits?) && (a.reported.Ok? ==> a.reported.value == a.db.nextId)
           && (a.reported == Err(Expired) <==> fate.Expires? || fate.ExpiresCommitted?)
  {
  }

  // ---- putting ----

  function PutTxn(row: SecretRow): Txn<I64> { (db: Db) => PutOutcome(db, row) }

  function PutResult(db: Db, row: SecretRow, plan: Plan, barrier: Plan): Attempted<I64> {
    var a := Retried(db, PutTxn(row), plan);
    var probe := Retried(a.db, ProbeOutcome, barrier).reported;
    if a.reported.Ok? && probe.Err? then Attempted(a.db, Err(probe.error)) else a
  }

  /** Once inserted, the same row is rejected. */
  lemma PutTwiceRejected(db: Db, row: SecretRow)
    requires PutValid(db, row)
    ensures PutOutcome(db.(secrets := db.secrets + [row]), row) == Reject(Contract)
  {
    var longer := db.secrets + [row];
    assert longer[|db.secrets|].rowId == row.rowId;
  }

  lemma ProbeAnswers(db: Db, barrier: Plan)
    ensures Retried(db, ProbeOutcome, barrier).reported.Ok? <==> Answers(barrier)
  {
    RetriedRead(db, ProbeOutcome, barrier, ());
  }

  /**
   Whatever becomes of the two attempts, a put inserts its row at most once: exactly when the row is
   valid and an attempt lands. It reports success exactly when, besides, the landing was reported and
   the barrier answered.
   */
  lemma PutOnce(db: Db, row: SecretRow, plan: Plan, barrier: Plan)
    ensures var a := PutResult(db, row, plan, barrier);
      && a.db == (if PutValid(db, row) && Lands(plan) then db.(secrets := db.secrets + [row]) else db)
      && (a.reported.Ok? <==> PutValid(db, row) && Told(plan) && Answers(barrier))
      && (a.reported.Ok? ==> a.reported.value == row.rowId)
  {
    if PutValid(db, row) {
      var longer := db.(secrets := db.secrets + [row]);
      PutTwiceRejected(db, row);
      assert PutTxn(row)(db) == PutOutcome(db, row) && PutTxn(row)(longer) == PutOutcome(longer, row);
      RetriedOnce(db, PutTxn(row), plan, longer, row.rowId);
    } else {
      assert PutTxn(row)(db) == PutOutcome(db, row);
      RetriedRejected(db, PutTxn(row), plan);
    }
    ProbeAnswers(Retried(db, PutTxn(row), plan).db, barrier);
  }

  /** A put of a valid row that reports an error has inserted nothing, exactly when no landing went unreported. */
  lemma PutErrorMeansAbsent(db: Db, row: SecretRow, plan: Plan, barrier: Plan)
    requires PutValid(db, row)
    ensures var a := PutResult(db, row, plan, barrier);
            (a.reported.Err? ==> a.db == db) <==> (Lands(plan) ==> Told(plan) && Answers(barrier))
  {
    PutOnce(db, row, plan, barrier);
    var longer := db.(secrets := db.secrets + [row]);
    assert |longer.secrets| != |db.secrets|;
  }

  // ---- appending ----

  function AppendTxn(row: AuditRecord): Txn<()> { (db: Db) => AppendOutcome(db, row) }

  function AppendResult(env: Env, db: Db, rec: AuditRecord, tail: Plan, plan: Plan, barrier: Plan): Attempted<I64> {
    var last := Retried(db, TailOutcome, tail).reported;
    if last.Err? then Attempted(db, Err(last.error))
    else
      var sealed := Linked(env, last.value, rec);
      var a := Retried(db, AppendTxn(sealed), plan);
      if a.reported.Err? then Attempted(a.db, Err(a.reported.error))
      else
        var probe := Retried(a.db, ProbeOutcome, barrier).reported;
        Attempted(a.db, if probe.Err? then Err(probe.error) else Ok(sealed.seqNo))
  }

  lemma TailUnchanged(db: Db, plan: Plan)
    ensures var a := Retried(db, TailOutcome, plan);
      a.db == db && (a.reported.Ok? <==> Answers(plan)) && (a.reported.Ok? ==> a.reported.value == Last(db.audit))
  {
    RetriedRead(db, TailOutcome, plan, Last(db.audit));
  }

  /** On a verifying log the linked row is free to insert, goes to the end, and is then taken. */
  lemma AppendLinked(env: Env, db: Db, rec: AuditRecord)
    requires ChainOk(env, db.audit) && |db.audit| < I64_MAX
    ensures var sealed := Linked(env, Last(db.audit), rec); var longer := db.(audit := db.audit + [sealed]);
      && AppendOutcome(db, sealed) == Commit(longer, ())
      && AppendOutcome(longer, sealed) == Reject(Conflict)
      && ChainOk(env, longer.audit)
  {
    var sealed := Linked(env, Last(db.audit), rec);
    LinkExtends(env, db.audit, rec);
    forall k | 0 <= k < |db.audit| ensures db.audit[k].seqNo < sealed.seqNo {
      assert RowOk(env, db.audit, k);
    }
    assert (db.audit + [sealed])[|db.audit|].seqNo == sealed.seqNo;
  }

  /**
   An append leaves a verifying log verifying, whatever becomes of its attempts: it adds its one
   linked row exactly when the tail was read and an attempt landed, and reports success exactly when
   that was reported and the barrier answered. So an append that reports success is in the log once.
   */
  lemma AppendOnce(env: Env, db: Db, rec: AuditRecord, tail: Plan, plan: Plan, barrier: Plan)
    requires ChainOk(env, db.audit) && |db.audit| < I64_MAX
    ensures var a := AppendResult(env, db, rec, tail, plan, barrier);
      && a.db == (if Answers(tail) && Lands(plan) then db.(audit := db.audit + [Linked(env, Last(db.audit), rec)])
                  else db)
      && ChainOk(env, a.db.audit)
      && (a.reported.Ok? <==> Answers(tail) && Told(plan) && Answers(barrier))
      && (a.reported.Ok? ==> a.reported.value == |db.audit| + 1)
  {
    TailUnchanged(db, tail);
    if Answers(tail) {
      var sealed := Linked(env, Last(db.audit), rec);
      AppendLinked(env, db, rec);
      LinkExtends(env, db.audit, rec);
      var longer := db.(audit := db.audit + [sealed]);
      assert AppendTxn(sealed)(db) == AppendOutcome(db, sealed) &&
          AppendTxn(sealed)(longer) == AppendOutcome(longer, sealed);
      RetriedOnce(db, AppendTxn(sealed), plan, longer, ());
      ProbeAnswers(Retried(db, AppendTxn(sealed), plan).db, barrier);
    }
  }

  // ---- whole runs ----

  datatype StoreCall =
    | CallReserve(plan: Plan)
    | CallPut(row: SecretRow, plan: Plan, barrier: Plan)
    | CallAppend(rec: AuditRecord, tail: Plan, plan: Plan, barrier: Plan)

  function AfterCall(env: Env, db: Db, c: StoreCall): Db {
    match c
    case CallReserve(plan) => Retried(db, ReserveOutcome, plan).db
    case CallPut(row, plan, barrier) => PutResult(db, row, plan, barrier).db
    case CallAppend(rec, tail, plan, barrier) => AppendResult(env, db, rec, tail, plan, barrier).db
  }

  function AfterCalls(env: Env, db: Db, cs: seq<StoreCall>): Db {
    if cs == [] then db else AfterCall(env, AfterCalls(env, db, cs[..|cs| - 1]), cs[|cs| - 1])
  }

  /** The id a reserving call reports, if any. */
  function ReservedId(env: Env, db: Db, cs: seq<StoreCall>, k: nat): Option<I64>
    requires k < |cs|
  {
    if !cs[k].CallReserve? then None
    else
      match Retried(AfterCalls(env, db, cs[..k]), ReserveOutcome, cs[k].plan).reported
      case Ok(id) => Some(id)
      case Err(_) => None
  }

  /** Rows carry reserved ids, no two the same, and the log verifies. */
  ghost predicate Sound(env: Env, db: Db) {
    && ChainOk(env, db.audit)
    && (forall j :: 0 <= j < |db.secrets| ==> 0 < db.secrets[j].rowId <= db.nextId)
    && (forall j, k :: 0 <= j < k < |db.secrets| ==> db.secrets[j].rowId != db.secrets[k].rowId)
  }

  /** One call: at most one row in each table, nothing removed, nothing broken. */
  lemma CallSound(env: Env, db: Db, c: StoreCall)
    requires Sound(env, db) && |db.audit| < I64_MAX
    ensures var t := AfterCall(env, db, c);
      && Sound(env, t) && db.nextId <= t.nextId
      && db.secrets <= t.secrets && |t.secrets| <= |db.secrets| + (if c.CallPut? then 1 else 0)
      && db.audit <= t.audit && |t.audit| <= |db.audit| + (if c.CallAppend? then 1 else 0)
  {
    match c {
      case CallReserve(plan) => ReserveFresh(db, plan);
      case CallPut(row, plan, barrier) => PutOnce(db, row, plan, barrier);
      case CallAppend(rec, tail, plan, barrier) => AppendOnce(env, db, rec, tail, plan, barrier);
    }
  }

  /** Over any run, under any schedule of failures, the tables stay sound and only grow. */
  lemma {:induction false} RunSound(env: Env, db: Db, cs: seq<StoreCall>, k: nat)
    requires Sound(env, db) && k <= |cs| && |db.audit| + |cs| <= I64_MAX
    ensures var s, t := AfterCalls(env, db, cs[..k]), AfterCalls(env, db, cs);
      && Sound(env, s) && Sound(env, t) && s.nextId <= t.nextId && s.secrets <= t.secrets && s.audit <= t.audit
      && |t.audit| <= |db.audit| + |cs|
    decreases |cs|
  {
    if cs == [] {
      assert cs[..k] == cs;
    } else {
      var front := cs[..|cs| - 1];
      RunSound(env, db, front, if k == |cs| then k - 1 else k);
      CallSound(env, AfterCalls(env, db, front), cs[|cs| - 1]);
      if k == |cs| {
        assert cs[..k] == cs;
      } else {
        assert front[..k] == cs[..k];
      }
    }
  }

  /** Ids reported by reserving calls strictly increase, so none is ever reported twice. */
  lemma ReservedIdsIncrease(env: Env, db: Db, cs: seq<StoreCall>, j: nat, k: nat)
    requires Sound(env, db) && j < k < |cs| && |db.audit| + |cs| <= I64_MAX
    requires ReservedId(env, db, cs, j).Some? && ReservedId(env, db, cs, k).Some?
    ensures ReservedId(env, db, cs, j).value < ReservedId(env, db, cs, k).value
  {
    ReserveFresh(AfterCalls(env, db, cs[..j]), cs[j].plan);
    ReserveFresh(AfterCalls(env, db, cs[..k]), cs[k].plan);
    assert cs[..j + 1][..j] == cs[..j];
    assert cs[..k][..j + 1] == cs[..j + 1];
    RunSound(env, db, cs[..k], j + 1);
  }

  // ---- the two stores ----

  /** The tables of the in-memory store that the database has too. */
  function DbOf(s: StoreState): Db { Db(s.nextSecretRowId, s.secrets, s.audit) }

  /** The writes of a call that land, told from its attempts. */
  function Landed(s: StoreState, c: StoreCall): seq<Write> {
    match c
    case CallReserve(plan) => seq(Landings(plan), _ => WriteReserve)
    case CallPut(row, plan, _) => if PutAccepted(s, row) && Lands(plan) then [WriteSecret(row)] else []
    case CallAppend(rec, tail, plan, _) => if Answers(tail) && Lands(plan) then [WriteRow(rec)] else []
  }

  function LandedAll(env: Env, s: StoreState, cs: seq<StoreCall>): seq<Write> {
    if cs == [] then []
    else
      var front := LandedAll(env, s, cs[..|cs| - 1]);
      front + Landed(ApplyAll(env, s, front), cs[|cs| - 1])
  }

  /** Far enough from the top of both counters for this many more calls. */
  predicate Room(s: StoreState, calls: nat) {
    0 <= s.nextSecretRowId <= I64_MAX - 2 * calls && |s.audit| + calls <= I64_MAX
  }

  lemma ReserveRefines(env: Env, s: StoreState, plan: Plan)
    requires Room(s, 1)
    ensures Retried(DbOf(s), ReserveOutcome, plan).db
         == DbOf(ApplyAll(env, s, Landed(s, CallReserve(plan))))
    ensures ApplyAll(env, s, Landed(s, CallReserve(plan)))
         == s.(nextSecretRowId := s.nextSecretRowId + Landings(plan))
  {
    ReserveOnce(DbOf(s), plan);
    var ws := Landed(s, CallReserve(plan));
    if Landings(plan) == 1 {
      assert ws == [WriteReserve];
      ApplyOne(env, s, WriteReserve);
    } else if Landings(plan) == 2 {
      assert ws == [WriteReserve] + [WriteReserve];
      ApplyOne(env, s, WriteReserve);
      ApplyMore(env, s, [WriteReserve], WriteReserve);
    }
  }

  lemma CallRefines(env: Env, s: StoreState, c: StoreCall)
    requires ChainOk(env, s.audit) && Room(s, 1)
    ensures var t := ApplyAll(env, s, Landed(s, c));
      && AfterCall(env, DbOf(s), c) == DbOf(t) && ChainOk(env, t.audit)
      && t.nextSecretRowId <= s.nextSecretRowId + 2 && |t.audit| <= |s.audit| + 1 && 0 <= t.nextSecretRowId
  {
    match c {
      case CallReserve(plan) => ReserveRefines(env, s, plan);
      case CallPut(row, plan, barrier) =>
        PutOnce(DbOf(s), row, plan, barrier);
        ApplyOne(env, s, WriteSecret(row));
      case CallAppend(rec, tail, plan, barrier) =>
        AppendOnce(env, DbOf(s), rec, tail, plan, barrier);
        ApplyOne(env, s, WriteRow(rec));
    }
  }

  /**
   Over any run and under any schedule of failures, the tables are those of the in-memory store given
   exactly the writes that landed, in order.
   */
  lemma {:induction false} RunRefines(env: Env, s: StoreState, cs: seq<StoreCall>)
    requires ChainOk(env, s.audit) && Room(s, |cs|)
    ensures var t := ApplyAll(env, s, LandedAll(env, s, cs));
      && AfterCalls(env, DbOf(s), cs) == DbOf(t) && ChainOk(env, t.audit)
      && 0 <= t.nextSecretRowId <= s.nextSecretRowId + 2 * |cs| && |t.audit| <= |s.audit| + |cs|
  {
    if cs != [] {
      var front, c := cs[..|cs| - 1], cs[|cs| - 1];
      RunRefines(env, s, front);
      var writes := LandedAll(env, s, front);
      var t := ApplyAll(env, s, writes);
      CallRefines(env, t, c);
      ApplyConcat(env, s, writes, Landed(t, c));
    }
  }

  /** Every round trip goes through at the first attempt. */
  predicate Smooth(c: StoreCall) {
    match c
    case CallReserve(plan) => plan.first.Commits?
    case CallPut(_, plan, barrier) => plan.first.Commits? && barrier.first.Commits?
    case CallAppend(_, tail, plan, barrier) => tail.first.Commits? && plan.first.Commits? && barrier.first.Commits?
  }

  /** What the in-memory store answers: the id reserved, the id put, the number appended, or a refusal. */
  function InMemAnswer(s: StoreState, c: StoreCall): Option<I64>
    requires Room(s, 1)
  {
    match c
    case CallReserve(_) => Some(s.nextSecretRowId + 1)
    case CallPut(row, _, _) => if PutAccepted(s, row) then Some(row.rowId) else None
    case CallAppend(_, _, _, _) => Some(|s.audit| + 1)
  }

  function AnswerOf(env: Env, db: Db, c: StoreCall): Option<I64> {
    var reported := match c
      case CallReserve(plan) => Retried(db, ReserveOutcome, plan).reported
      case CallPut(row, plan, barrier) => PutResult(db, row, plan, barrier).reported
      case CallAppend(rec, tail, plan, barrier) => AppendResult(env, db, rec, tail, plan, barrier).reported;
    if reported.Ok? then Some(reported.value) else None
  }

  /** Without failures the libSQL store answers as the in-memory one does. */
  lemma SmoothAnswers(env: Env, s: StoreState, c: StoreCall)
    requires ChainOk(env, s.audit) && Room(s, 1) && Smooth(c)
    ensures AnswerOf(env, DbOf(s), c) == InMemAnswer(s, c)
  {
    match c {
      case CallReserve(plan) => ReserveOnce(DbOf(s), plan);
      case CallPut(row, plan, barrier) => PutOnce(DbOf(s), row, plan, barrier);
      case CallAppend(rec, tail, plan, barrier) => AppendOnce(env, DbOf(s), rec, tail, plan, barrier);
    }
  }

  // ---- appends that interleave ----

  /** Where the thread that holds the append lock stands. */
  datatype Stage = Reading | Inserting | Probing

  /** A thread inside `append_audit`: its record, the row it sealed, and the fates of its round trips so far. */
  datatype Holder = Holder(
    rec: AuditRecord, stage: Stage, mayRetry: bool, sealed: Option<AuditRecord>, inserts: seq<Fate>, probes: seq<Fate>)

  /** An append that has returned. */
  datatype Finished = Finished(
    sealed: Option<AuditRecord>, inserts: seq<Fate>, probes: seq<Fate>, reported: Result<I64, DbError>)

  /** One round trip of another thread: an attempt to reserve an id, or to insert the row of a put. */
  datatype Work = Reserves(reserveFate: Fate) | Puts(row: SecretRow, putFate: Fate)

  /** What became of such a round trip: whether it inserted its row, and what it was told. */
  datatype Other = Other(work: Work, inserted: bool, reported: Result<I64, DbError>)

  /**
   The database, the append lock, the appends that have returned, in the order they did, and the round
   trips of the other threads, in the order they were made.
   */
  datatype Shared = Shared(db: Db, holder: Option<Holder>, finished: seq<Finished>, others: seq<Other>)

  datatype Turn =
    | Enter(rec: AuditRecord)                 // a thread asks for the lock
    | Proceed(fate: Fate, reconnects: bool)   // the holder's next round trip, and the reconnection if it expires
    | Elsewhere(work: Work)                   // another thread's round trip

  function WorkResult(db: Db, w: Work): Attempted<I64> {
    match w
    case Reserves(fate) => Attempt(db, ReserveOutcome, fate)
    case Puts(row, fate) => Attempt(db, PutTxn(row), fate)
  }

  predicate Inserts(db: Db, w: Work) { w.Puts? && PutValid(db, w.row) && TakesEffect(w.putFate) }

  /** The holder is done: it gives its answer and the lock back. */
  function Leave(s: Shared, h: Holder, reported: Result<I64, DbError>): Shared {
    s.(holder := None, finished := s.finished + [Finished(h.sealed, h.inserts, h.probes, reported)])
  }

  /** A round trip of the holder failed: it retries once if the stream expired and it can reconnect. */
  function Failed(s: Shared, h: Holder, error: DbError, reconnects: bool): Shared {
    if !error.Expired? || !h.mayRetry then Leave(s, h, Err(error))
    else if reconnects then s.(holder := Some(h.(mayRetry := false)))
    else Leave(s, h, Err(ConnectFailed))
  }

  function ReadTurn(env: Env, s: Shared, h: Holder, fate: Fate, reconnects: bool): Shared {
    match Attempt(s.db, TailOutcome, fate).reported
    case Ok(last) => s.(holder := Some(h.(stage := Inserting, mayRetry := true,
                                          sealed := Some(Linked(env, last, h.rec)))))
    case Err(error) => Failed(s, h, error, reconnects)
  }

  function InsertTurn(s: Shared, h: Holder, fate: Fate, reconnects: bool): Shared
    requires h.sealed.Some?
  {
    var a := Attempt(s.db, AppendTxn(h.sealed.value), fate);
    var t, h' := s.(db := a.db), h.(inserts := h.inserts + [fate]);
    match a.reported
    case Ok(_) => t.(holder := Some(h'.(stage := Probing, mayRetry := true)))
    case Err(error) => Failed(t, h', error, reconnects)
  }

  function ProbeTurn(s: Shared, h: Holder, fate: Fate, reconnects: bool): Shared
    requires h.sealed.Some?
  {
    var h' := h.(probes := h.probes + [fate]);
    match Attempt(s.db, ProbeOutcome, fate).reported
    case Ok(_) => Leave(s, h', Ok(h.sealed.value.seqNo))
    case Err(error) => Failed(s, h', error, reconnects)
  }

  function Turned(env: Env, s: Shared, turn: Turn): Shared {
    match turn
    case Enter(rec) => if s.holder.Some? then s else s.(holder := Some(Holder(rec, Reading, true, None, [], [])))
    case Elsewhere(work) =>
      var a := WorkResult(s.db, work);
      s.(db := a.db, others := s.others + [Other(work, Inserts(s.db, work), a.reported)])
    case Proceed(fate, reconnects) =>
      if s.holder.None? then s
      else
        var h := s.holder.value;
        if h.stage.Reading? then ReadTurn(env, s, h, fate, reconnects)
        else if h.sealed.None? then s
        else if h.stage.Inserting? then InsertTurn(s, h, fate, reconnects)
        else ProbeTurn(s, h, fate, reconnects)
  }

  function AllTurned(env: Env, s: Shared, turns: seq<Turn>): Shared {
    if turns == [] then s else Turned(env, AllTurned(env, s, turns[..|turns| - 1]), turns[|turns| - 1])
  }

  /** How many threads were given the lock. */
  function Entered(env: Env, s: Shared, turns: seq<Turn>): nat {
    if turns == [] then 0
    else
      var front := turns[..|turns| - 1];
      Entered(env, s, front) + if turns[|turns| - 1].Enter? && AllTurned(env, s, front).holder.None? then 1 else 0
  }

  /** One of the insert attempts committed. */
  predicate Inserted(inserts: seq<Fate>) {
    (|inserts| > 0 && TakesEffect(inserts[0])) || (|inserts| > 1 && TakesEffect(inserts[1]))
  }

  /** An insert committed and the client was not told. */
  predicate Unreported(inserts: seq<Fate>) {
    exists k :: 0 <= k < |inserts| && (inserts[k].FailsCommitted? || inserts[k].ExpiresCommitted?)
  }

  predicate LastCommits(fates: seq<Fate>) { fates != [] && fates[|fates| - 1].Commits? }

  /** The one row an append put in the log, or none. */
  function RowOf(sealed: Option<AuditRecord>, inserts: seq<Fate>): seq<AuditRecord> {
    if sealed.Some? && Inserted(inserts) then [sealed.value] else []
  }

  function RowsOf(finished: seq<Finished>): seq<AuditRecord> {
    if finished == [] then []
    else
      var last := finished[|finished| - 1];
      RowsOf(finished[..|finished| - 1]) + RowOf(last.sealed, last.inserts)
  }

  function HolderRow(holder: Option<Holder>): seq<AuditRecord> {
    if holder.None? then [] else RowOf(holder.value.sealed, holder.value.inserts)
  }

  /** An insert committed and was not reported, or the barrier behind it did not answer. */
  predicate Untold(f: Finished) { Unreported(f.inserts) || (f.probes != [] && !LastCommits(f.probes)) }

  /** No other row of the log is the one at `p`. */
  predicate OnlyAt(rows: seq<AuditRecord>, p: nat)
    requires p < |rows|
  {
    forall q :: 0 <= q < |rows| && q != p ==> rows[q] != rows[p]
  }

  /** The answer of a returned append fits what became of its row. */
  predicate AnswerFits(f: Finished) {
    && |f.inserts| <= 2
    && (f.reported.Ok? ==>
          && f.sealed.Some? && Inserted(f.inserts) && LastCommits(f.probes)
          && f.reported.value == f.sealed.value.seqNo)
    && (f.reported.Err? && RowOf(f.sealed, f.inserts) != [] ==> Untold(f))
  }

  /** The holder between two of its round trips. */
  predicate HolderFits(env: Env, audit: seq<AuditRecord>, h: Holder) {
    match h.stage
    case Reading => h.sealed.None? && h.inserts == [] && h.probes == []
    case Inserting =>
      && h.sealed.Some? && h.probes == []
      && (if h.mayRetry then h.inserts == [] else h.inserts == [Expires] || h.inserts == [ExpiresCommitted])
      && (if Inserted(h.inserts) then SeqTaken(audit, h.sealed.value.seqNo)
          else h.sealed.value == Linked(env, Last(audit), h.rec))
    case Probing =>
      && h.sealed.Some? && |h.inserts| <= 2 && Inserted(h.inserts)
      && (if h.mayRetry then h.probes == [] else h.probes != [] && !LastCommits(h.probes))
  }

  /**
   The log is what it was, one row for each returned append that inserted one, in order, and the holder's row
   if it is in.
   */
  ghost predicate LockInv(env: Env, s: Shared, base: seq<AuditRecord>, entries: nat) {
    && Sound(env, s.db)
    && s.db.audit == base + RowsOf(s.finished) + HolderRow(s.holder)
    && entries == |s.finished| + (if s.holder.Some? then 1 else 0)
    && (forall k :: 0 <= k < |s.finished| ==> AnswerFits(s.finished[k]))
    && (s.holder.Some? ==> HolderFits(env, s.db.audit, s.holder.value))
  }

  lemma {:induction false} RowsBound(finished: seq<Finished>)
    ensures |RowsOf(finished)| <= |finished|
  {
    if finished != [] {
      RowsBound(finished[..|finished| - 1]);
    }
  }

  lemma WorkKeeps(env: Env, db: Db, w: Work)
    requires Sound(env, db)
    ensures var t := WorkResult(db, w).db; Sound(env, t) && t.audit == db.audit
  {
    WorkDoes(db, w);
  }

  /** What one round trip does: at most one row, at most one id past all before it, and an answer that fits. */
  lemma WorkDoes(db: Db, w: Work)
    ensures var a := WorkResult(db, w);
      && a.db == db.(nextId := a.db.nextId, secrets := a.db.secrets) && db.nextId <= a.db.nextId
      && a.db.secrets == db.secrets + (if Inserts(db, w) then [w.row] else [])
      && (w.Puts? ==> a.db.nextId == db.nextId && (a.reported.Ok? <==> Inserts(db, w) && w.putFate.Commits?))
      && (w.Reserves? && a.reported.Ok? ==> db.nextId < a.reported.value == a.db.nextId)
  {
    if w.Puts? {
      assert PutTxn(w.row)(db) == PutOutcome(db, w.row);
    } else {
      assert db.secrets + [] == db.secrets;
    }
  }

  lemma LeaveKeeps(env: Env, s: Shared, h: Holder, reported: Result<I64, DbError>, base: seq<AuditRecord>, entries: nat)
    requires Sound(env, s.db) && s.db.audit == base + RowsOf(s.finished) + RowOf(h.sealed, h.inserts)
    requires entries == |s.finished| + 1 && forall k :: 0 <= k < |s.finished| ==> AnswerFits(s.finished[k])
    requires AnswerFits(Finished(h.sealed, h.inserts, h.probes, reported))
    ensures LockInv(env, Leave(s, h, reported), base, entries)
  {
    var t := Leave(s, h, reported);
    assert t.finished[..|s.finished|] == s.finished;
    assert RowsOf(t.finished) == RowsOf(s.finished) + RowOf(h.sealed, h.inserts);
    assert base + (RowsOf(s.finished) + RowOf(h.sealed, h.inserts)) + [] == s.db.audit;
  }

  lemma ReadKeeps(env: Env, s: Shared, fate: Fate, reconnects: bool, base: seq<AuditRecord>, entries: nat)
    requires LockInv(env, s, base, entries) && s.holder.Some? && s.holder.value.stage.Reading?
    ensures LockInv(env, ReadTurn(env, s, s.holder.value, fate, reconnects), base, entries)
  {
    var h := s.holder.value;
    match Attempt(s.db, TailOutcome, fate).reported {
      case Ok(_) =>
      case Err(error) =>
        if !(error.Expired? && h.mayRetry && reconnects) {
          LeaveKeeps(env, s, h, Err(if error.Expired? && h.mayRetry then ConnectFailed else error), base, entries);
        }
    }
  }

  lemma ProbeKeeps(env: Env, s: Shared, fate: Fate, reconnects: bool, base: seq<AuditRecord>, entries: nat)
    requires LockInv(env, s, base, entries) && s.holder.Some? && s.holder.value.stage.Probing?
    ensures LockInv(env, ProbeTurn(s, s.holder.value, fate, reconnects), base, entries)
  {
    var h := s.holder.value;
    var h' := h.(probes := h.probes + [fate]);
    match Attempt(s.db, ProbeOutcome, fate).reported {
      case Ok(_) => LeaveKeeps(env, s, h', Ok(h.sealed.value.seqNo), base, entries);
      case Err(error) =>
        if !(error.Expired? && h.mayRetry && reconnects) {
          LeaveKeeps(env, s, h', Err(if error.Expired? && h.mayRetry then ConnectFailed else error), base, entries);
        }
    }
  }

  /** An insert attempt puts the holder's row at the end of the log if it commits and the row was not in. */
  lemma InsertLands(env: Env, db: Db, h: Holder, fate: Fate)
    requires Sound(env, db) && h.stage.Inserting? && HolderFits(env, db.audit, h)
    requires (!Inserted(h.inserts) ==> |db.audit| < I64_MAX)
    ensures var a := Attempt(db, AppendTxn(h.sealed.value), fate);
            var again := TakesEffect(fate) && !Inserted(h.inserts);
      && a.db == db.(audit := db.audit + if again then [h.sealed.value] else []) && Sound(env, a.db)
      && (a.reported.Ok? <==> fate.Commits? && !Inserted(h.inserts))
      && (again ==> SeqTaken(a.db.audit, h.sealed.value.seqNo))
      && (a.reported == Err(Expired) <==> fate.Expires? || (fate.ExpiresCommitted? && !Inserted(h.inserts)))
  {
    var sealed := h.sealed.value;
    assert AppendTxn(sealed)(db) == AppendOutcome(db, sealed);
    if !Inserted(h.inserts) {
      AppendLinked(env, db, h.rec);
      assert TakesEffect(fate) ==> (db.audit + [sealed])[|db.audit|].seqNo == sealed.seqNo;
    }
  }

  lemma InsertKeeps(env: Env, s: Shared, fate: Fate, reconnects: bool, base: seq<AuditRecord>, entries: nat)
    requires LockInv(env, s, base, entries) && s.holder.Some? && s.holder.value.stage.Inserting?
    requires |base| + entries <= I64_MAX
    ensures LockInv(env, InsertTurn(s, s.holder.value, fate, reconnects), base, entries)
  {
    var h := s.holder.value;
    RowsBound(s.finished);
    InsertLands(env, s.db, h, fate);
    var a := Attempt(s.db, AppendTxn(h.sealed.value), fate);
    InsertSettles(env, s, h.(inserts := h.inserts + [fate]), a, fate, reconnects, base, entries);
  }

  lemma InsertSettles(env: Env, s: Shared, h: Holder, a: Attempted<()>, fate: Fate, reconnects: bool,
                      base: seq<AuditRecord>, entries: nat)
    requires LockInv(env, s, base, entries) && s.holder.Some? && s.holder.value.stage.Inserting?
    requires h == s.holder.value.(inserts := s.holder.value.inserts + [fate]) && Sound(env, a.db)
    requires var was := Inserted(s.holder.value.inserts); var again := TakesEffect(fate) && !was;
      && a.db == s.db.(audit := s.db.audit + if again then [h.sealed.value] else [])
      && (a.reported.Ok? <==> fate.Commits? && !was) && (again ==> SeqTaken(a.db.audit, h.sealed.value.seqNo))
      && (a.reported == Err(Expired) <==> fate.Expires? || (fate.ExpiresCommitted? && !was))
    ensures LockInv(env,
      match a.reported
      case Ok(_) => s.(db := a.db, holder := Some(h.(stage := Probing, mayRetry := true)))
      case Err(error) => Failed(s.(db := a.db), h, error, reconnects), base, entries)
  {
    var t := s.(db := a.db);
    assert t.db.audit == base + RowsOf(s.finished) + RowOf(h.sealed, h.inserts);
    match a.reported {
      case Ok(_) =>
      case Err(error) =>
        if !(error.Expired? && h.mayRetry && reconnects) {
          assert Inserted(h.inserts) ==> h.inserts[0].ExpiresCommitted? || h.inserts[|h.inserts| - 1] == fate;
          LeaveKeeps(env, t, h, Err(if error.Expired? && h.mayRetry then ConnectFailed else error), base, entries);
        }
    }
  }

  lemma TurnKeeps(env: Env, s: Shared, turn: Turn, base: seq<AuditRecord>, entries: nat)
    requires LockInv(env, s, base, entries) && |base| + entries <= I64_MAX
    ensures LockInv(env, Turned(env, s, turn), base, entries + if turn.Enter? && s.holder.None? then 1 else 0)
  {
    match turn {
      case Enter(rec) =>
      case Elsewhere(work) => WorkKeeps(env, s.db, work);
      case Proceed(fate, reconnects) =>
        if s.holder.Some? {
          match s.holder.value.stage {
            case Reading => ReadKeeps(env, s, fate, reconnects, base, entries);
            case Inserting => InsertKeeps(env, s, fate, reconnects, base, entries);
            case Probing => ProbeKeeps(env, s, fate, reconnects, base, entries);
          }
        }
    }
  }

  /**
   However the round trips of appends, puts and reservations of many threads interleave, and whatever
   becomes of each, under the append lock the log verifies and is exactly what it was followed by one
   row for each append that inserted one, in the order in which they had the lock.
   */
  lemma {:induction false} LockedAppendsVerify(env: Env, db: Db, turns: seq<Turn>)
    requires Sound(env, db) && |db.audit| + |turns| <= I64_MAX
    ensures var start := Shared(db, None, [], []);
            LockInv(env, AllTurned(env, start, turns), db.audit, Entered(env, start, turns)) &&
                Entered(env, start, turns) <= |turns|
  {
    var start := Shared(db, None, [], []);
    if turns == [] {
      assert db.audit + [] + [] == db.audit;
    } else {
      var front := turns[..|turns| - 1];
      LockedAppendsVerify(env, db, front);
      TurnKeeps(env, AllTurned(env, start, front), turns[|turns| - 1], db.audit, Entered(env, start, front));
    }
  }

  lemma {:induction false} RowsPrefix(finished: seq<Finished>, k: nat)
    requires k < |finished|
    ensures RowsOf(finished[..k]) + RowOf(finished[k].sealed, finished[k].inserts) <= RowsOf(finished)
    decreases |finished|
  {
    if k < |finished| - 1 {
      var front := finished[..|finished| - 1];
      RowsPrefix(front, k);
      assert front[..k] == finished[..k];
    }
  }

  /**
   Where the row of each returned append is: past the rows of the appends that had the lock before it,
   so no two appends share a row. One that reported a number has its row there, under that number, and
   nowhere else; one that reported an error has a row only if an insert committed unreported or the
   barrier did not answer.
   */
  lemma AppendAccounted(env: Env, db: Db, turns: seq<Turn>, k: nat)
    requires Sound(env, db) && |db.audit| + |turns| <= I64_MAX
    requires k < |AllTurned(env, Shared(db, None, [], []), turns).finished|
    ensures var t := AllTurned(env, Shared(db, None, [], []), turns); var f := t.finished[k];
            var p := |db.audit| + |RowsOf(t.finished[..k])|;
      && (RowOf(f.sealed, f.inserts) != [] ==>
            p < |t.db.audit| && t.db.audit[p] == f.sealed.value && OnlyAt(t.db.audit, p))
      && (f.reported.Ok? ==> RowOf(f.sealed, f.inserts) != [] && f.reported.value == p + 1)
      && (f.reported.Err? && RowOf(f.sealed, f.inserts) != [] ==> Untold(f))
  {
    LockedAppendsVerify(env, db, turns);
    var t := AllTurned(env, Shared(db, None, [], []), turns);
    RowsPrefix(t.finished, k);
    RowPlace(env, t, db.audit, Entered(env, Shared(db, None, [], []), turns), k);
  }

  lemma RowPlace(env: Env, t: Shared, base: seq<AuditRecord>, entries: nat, k: nat)
    requires LockInv(env, t, base, entries) && k < |t.finished|
    requires RowsOf(t.finished[..k]) + RowOf(t.finished[k].sealed, t.finished[k].inserts) <= RowsOf(t.finished)
    ensures var f, p := t.finished[k], |base| + |RowsOf(t.finished[..k])|;
      && (RowOf(f.sealed, f.inserts) != [] ==>
            p < |t.db.audit| && t.db.audit[p] == f.sealed.value && OnlyAt(t.db.audit, p))
      && (f.reported.Ok? ==> RowOf(f.sealed, f.inserts) != [] && f.reported.value == p + 1)
      && (f.reported.Err? && RowOf(f.sealed, f.inserts) != [] ==> Untold(f))
  {
    var f, p := t.finished[k], |base| + |RowsOf(t.finished[..k])|;
    assert AnswerFits(f);
    if RowOf(f.sealed, f.inserts) != [] {
      assert t.db.audit[p] == RowsOf(t.finished)[p - |base|] == f.sealed.value;
      assert RowOk(env, t.db.audit, p);
      forall q | 0 <= q < |t.db.audit| && q != p ensures t.db.audit[q] != f.sealed.value {
        assert RowOk(env, t.db.audit, q);
      }
    }
  }

  // ---- reservations and puts that interleave ----

  function RowsPut(others: seq<Other>): seq<SecretRow> {
    if others == [] then []
    else
      var last := others[|others| - 1];
      RowsPut(others[..|others| - 1]) + if last.inserted && last.work.Puts? then [last.work.row] else []
  }

  /** A round trip that inserted its row, or was told the id it reserved. */
  predicate PutIn(o: Other) { o.work.Puts? && o.inserted }

  predicate ToldId(o: Other) { o.work.Reserves? && o.reported.Ok? }

  /**
   The table is what it was followed by one row for each round trip that inserted one; no row id went in
   twice, so the attempts of one put inserted its row at most once; a put told so has its row in; and
   the ids reported by reservations are past all reserved before and strictly increase.
   */
  ghost predicate WorkInv(base: Db, s: Shared) {
    && s.db.secrets == base.secrets + RowsPut(s.others) && base.nextId <= s.db.nextId
    && (forall k :: 0 <= k < |s.others| && PutIn(s.others[k]) ==> RowIdTaken(s.db.secrets, s.others[k].work.row.rowId))
    && (forall j, k :: 0 <= j < k < |s.others| && PutIn(s.others[j]) && PutIn(s.others[k]) ==>
          s.others[j].work.row.rowId != s.others[k].work.row.rowId)
    && (forall k :: 0 <= k < |s.others| && s.others[k].work.Puts? && s.others[k].reported.Ok? ==> PutIn(s.others[k]))
    && (forall k :: 0 <= k < |s.others| && ToldId(s.others[k]) ==>
        base.nextId < s.others[k].reported.value <= s.db.nextId)
    && (forall j, k :: 0 <= j < k < |s.others| && ToldId(s.others[j]) && ToldId(s.others[k]) ==>
          s.others[j].reported.value < s.others[k].reported.value)
  }

  /** The holder of the append lock leaves the other tables alone. */
  lemma ProceedLeavesTables(env: Env, s: Shared, turn: Turn)
    requires !turn.Elsewhere?
    ensures var t := Turned(env, s, turn);
      t.db.secrets == s.db.secrets && t.db.nextId == s.db.nextId && t.others == s.others
  {
    if turn.Proceed? && s.holder.Some? && s.holder.value.sealed.Some? {
      assert AppendTxn(s.holder.value.sealed.value)(s.db) == AppendOutcome(s.db, s.holder.value.sealed.value);
    }
  }

  lemma TakenStays(rows: seq<SecretRow>, longer: seq<SecretRow>, id: I64)
    requires rows <= longer && RowIdTaken(rows, id)
    ensures RowIdTaken(longer, id)
  {
    var i :| 0 <= i < |rows| && rows[i].rowId == id;
    assert longer[i] == rows[i];
  }

  lemma ElsewhereKeeps(env: Env, base: Db, s: Shared, w: Work)
    requires WorkInv(base, s)
    ensures WorkInv(base, Turned(env, s, Elsewhere(w)))
  {
    var t := Turned(env, s, Elsewhere(w));
    WorkDoes(s.db, w);
    assert t.others[..|s.others|] == s.others;
    forall k | 0 <= k < |t.others| && PutIn(t.others[k]) ensures RowIdTaken(t.db.secrets, t.others[k].work.row.rowId) {
      if k < |s.others| {
        TakenStays(s.db.secrets, t.db.secrets, t.others[k].work.row.rowId);
      } else {
        assert t.db.secrets[|s.db.secrets|] == w.row;
      }
    }
  }

  /** However the round trips of many threads interleave, and whatever becomes of each. */
  lemma {:induction false} WorkAccounted(env: Env, db: Db, turns: seq<Turn>)
    ensures WorkInv(db, AllTurned(env, Shared(db, None, [], []), turns))
  {
    var start := Shared(db, None, [], []);
    if turns == [] {
      assert db.secrets + [] == db.secrets;
    } else {
      var front, turn := turns[..|turns| - 1], turns[|turns| - 1];
      WorkAccounted(env, db, front);
      if turn.Elsewhere? {
        ElsewhereKeeps(env, db, AllTurned(env, start, front), turn.work);
      } else {
        ProceedLeavesTables(env, AllTurned(env, start, front), turn);
      }
    }
  }

  // ---- an append left alone ----

  /** The holder takes one stage of its append to its end, retrying as it may, with nobody in between. */
  function StageAlone(env: Env, s: Shared, stage: Stage, plan: Plan): Shared {
    if !(s.holder.Some? && s.holder.value.stage == stage) then s
    else
      var t := Turned(env, s, Proceed(plan.first, plan.reconnects));
      if t.holder.Some? && t.holder.value.stage == stage then Turned(env, t, Proceed(plan.second, false)) else t
  }

  function AppendAlone(env: Env, s: Shared, rec: AuditRecord, tail: Plan, plan: Plan, barrier: Plan): Shared {
    var reading := StageAlone(env, Turned(env, s, Enter(rec)), Reading, tail);
    StageAlone(env, StageAlone(env, reading, Inserting, plan), Probing, barrier)
  }

  lemma ReadAlone(env: Env, s: Shared, rec: AuditRecord, plan: Plan)
    requires s.holder == Some(Holder(rec, Reading, true, None, [], []))
    ensures var a, t := Retried(s.db, TailOutcome, plan), StageAlone(env, s, Reading, plan);
      && t.db == s.db
      && match a.reported
         case Ok(last) =>
           t.finished == s.finished && t.holder ==
               Some(Holder(rec, Inserting, true, Some(Linked(env, last, rec)), [], []))
         case Err(error) => t.finished == s.finished + [Finished(None, [], [], Err(error))] && t.holder.None?
  {
  }

  lemma InsertAlone(env: Env, s: Shared, rec: AuditRecord, sealed: AuditRecord, plan: Plan)
    requires s.holder == Some(Holder(rec, Inserting, true, Some(sealed), [], []))
    ensures var a, t := Retried(s.db, AppendTxn(sealed), plan), StageAlone(env, s, Inserting, plan);
      && t.db == a.db
      && match a.reported
         case Ok(_) =>
           && t.finished == s.finished && t.holder.Some?
           && t.holder.value == Holder(rec, Probing, true, Some(sealed), t.holder.value.inserts, [])
         case Err(error) =>
           t.holder.None? && |t.finished| == |s.finished| + 1 && t.finished[..|s.finished|] == s.finished
           && t.finished[|s.finished|].reported == Err(error)
  {
  }

  lemma ProbeAlone(env: Env, s: Shared, rec: AuditRecord, sealed: AuditRecord, inserts: seq<Fate>, plan: Plan)
    requires s.holder == Some(Holder(rec, Probing, true, Some(sealed), inserts, []))
    ensures var a, t := Retried(s.db, ProbeOutcome, plan), StageAlone(env, s, Probing, plan);
      && t.db == s.db && t.holder.None? && |t.finished| == |s.finished| + 1 && t.finished[..|s.finished|] == s.finished
      && t.finished[|s.finished|].reported == match a.reported
                                              case Ok(_) => Ok(sealed.seqNo)
                                              case Err(error) => Err(error)
  {
  }

  /** Left alone, the round trips of an append come to exactly what the call does. */
  lemma AloneIsTheCall(env: Env, s: Shared, rec: AuditRecord, tail: Plan, plan: Plan, barrier: Plan)
    requires s.holder.None?
    ensures var a, t := AppendResult(env, s.db, rec, tail, plan, barrier),
            AppendAlone(env, s, rec, tail, plan, barrier);
      && t.db == a.db && t.holder.None? && |t.finished| == |s.finished| + 1 && t.finished[..|s.finished|] == s.finished
      && t.finished[|s.finished|].reported == a.reported
  {
    var entered := Turned(env, s, Enter(rec));
    ReadAlone(env, entered, rec, tail);
    var reading := StageAlone(env, entered, Reading, tail);
    var last := Retried(s.db, TailOutcome, tail).reported;
    if last.Ok? {
      var sealed := Linked(env, last.value, rec);
      InsertAlone(env, reading, rec, sealed, plan);
      var inserting := StageAlone(env, reading, Inserting, plan);
      if inserting.holder.Some? {
        ProbeAlone(env, inserting, rec, sealed, inserting.holder.value.inserts, barrier);
      }
    }
  }

  /**
   Why the lock is needed: two appends that both sealed from one tail claim one sequence number, and
   whichever inserts second is rejected and its event is not in the log.
   */
  lemma WithoutLockRowLost(env: Env, db: Db, r1: AuditRecord, r2: AuditRecord)
    requires ChainOk(env, db.audit) && |db.audit| < I64_MAX
    ensures var s1, s2 := Linked(env, Last(db.audit), r1), Linked(env, Last(db.audit), r2);
      && AppendOutcome(db, s1).Commit?
      && AppendOutcome(AppendOutcome(db, s1).db, s2) == Reject(Conflict)
  {
    AppendLinked(env, db, r1);
    var s1 := Linked(env, Last(db.audit), r1);
    assert (db.audit + [s1])[|db.audit|].seqNo == s1.seqNo;
  }
}
