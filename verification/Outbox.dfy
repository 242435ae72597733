/**
 * The bridged capture outbox: lease-guarded request rows and one cursor per connector.
 * `Apply` gives the effect of each guarded update on the database; a transaction is several
 * consecutive steps, so every interleaving of transactions is a run of these steps.
 */
module Outbox {
  import opened Options
  import opened Rfc3339

  type Id = string
  type Token = string
  type Connector = string

  datatype Kind = Capture | LlmTask
  datatype Status = Pending | Claimed | Completed | Cancelled

  datatype Row = Row(
    connector: Connector, kind: Kind, since: int, until: int, status: Status, attempts: nat,
    availableAt: nat, createdAt: nat, token: Option<Token>, claimedBy: Option<string>, lease: Option<nat>)

  datatype Db = Db(rows: map<Id, Row>, cursors: map<Connector, int>, events: set<string>)

  /** What a worker read about its claim before it acts on it, outside the acting transaction. */
  datatype Read = Read(id: Id, token: Token, row: Row)

  const INITIAL_WINDOW: nat := 24 * HOUR
  const MAX_WINDOW: nat := 24 * HOUR
  const OVERLAP: nat := 5 * MINUTE
  const CLAIM_LEASE: nat := 5 * MINUTE
  const MIN_SPLIT_WINDOW: nat := HOUR
  const RETRY_INITIAL: nat := 5 * SECOND
  const RETRY_MAX: nat := 5 * MINUTE
  const LLM_CONNECTOR: Connector := "llm.associate"

  datatype Step =
    | Recycle(now: nat)
    | Emit(connector: Connector, now: nat, id: Id)
    | EmitTask(now: nat, id: Id)
    | Claim(id: Id, token: Token, worker: string, now: nat, leaseLength: int)
    | ReadClaim(id: Id, token: Token)
    | Renew(id: Id, token: Token, now: nat, leaseLength: int)
    | Fail(read: Read, now: nat, windowTooLarge: bool)
    | Release(read: Read, worker: string, now: nat)
    | Cancel(id: Id)
    | Ingest(read: Read, now: nat, batch: seq<string>)
    | IngestUnclaimed(batch: seq<string>)
    | CompleteTask(id: Id, token: Token, now: nat)
    | ResetCursor(connector: Connector)

  function CaptureSemantics(c: Connector): string {
    if c == "slack.lists" then "complete_snapshot" else "bounded_events"
  }

  predicate BoundedWindow(c: Connector) {
    CaptureSemantics(c) == "bounded_events" && !("calendar." <= c)
  }

  predicate Active(row: Row) {
    row.status == Pending || row.status == Claimed
  }

  predicate HasActive(rows: map<Id, Row>, c: Connector) {
    exists id :: id in rows && rows[id].connector == c && Active(rows[id])
  }

  predicate HoldsClaim(rows: map<Id, Row>, id: Id, token: Token) {
    id in rows && rows[id].status == Claimed && rows[id].token == Some(token)
  }

  predicate LeaseLive(row: Row, now: nat) {
    row.lease.Some? && Before(now, row.lease.value)
  }

  predicate LeaseExpired(row: Row, now: nat) {
    row.status == Claimed && row.lease.Some? && !Before(now, row.lease.value)
  }

  predicate Claimable(row: Row, now: nat) {
    row.status == Pending && !Before(now, row.availableAt)
  }

  function EffectiveLease(length: int): nat {
    if length <= 0 then CLAIM_LEASE else length
  }

  function Doubled(initial: nat, times: nat): nat {
    if times == 0 then initial else 2 * Doubled(initial, times - 1)
  }

  /** Exponential backoff with a cap. */
  function RetryDelay(attempts: nat): nat {
    var delay := Doubled(RETRY_INITIAL, if attempts <= 1 then 0 else attempts - 1);
    if delay < RETRY_MAX then delay else RETRY_MAX
  }

  /** Half the window, but never under the minimum; None when that would not make it smaller. */
  function NarrowedUntil(since: int, until: int): Option<int> {
    var window := until - since;
    var half := if window < 0 then -(-window / 2) else window / 2;
    var narrowed := if half < MIN_SPLIT_WINDOW then MIN_SPLIT_WINDOW else half;
    if narrowed >= window then None else Some(since + narrowed)
  }

  function Returned(row: Row, availableAt: nat): Row {
    row.(status := Pending, availableAt := availableAt, token := None, claimedBy := None, lease := None)
  }

  function Recycled(row: Row, now: nat): Row {
    if LeaseExpired(row, now) then Returned(row, now + RetryDelay(row.attempts)) else row
  }

  function RecycledRows(rows: map<Id, Row>, now: nat): map<Id, Row> {
    map id | id in rows :: Recycled(rows[id], now)
  }

  function EmittedRow(cursors: map<Connector, int>, c: Connector, now: nat): Row {
    var since := if c in cursors then cursors[c] - OVERLAP else now - INITIAL_WINDOW;
    var until := if BoundedWindow(c) && since + MAX_WINDOW < now then since + MAX_WINDOW else now;
    Row(c, Capture, since, until, Pending, 0, now, now, None, None, None)
  }

  function FailedRow(row: Row, read: Read, now: nat, windowTooLarge: bool): Row {
    var narrowed := NarrowedUntil(read.row.since, read.row.until);
    if windowTooLarge && read.row.kind == Capture && BoundedWindow(read.row.connector) && narrowed.Some?
    then Returned(row, now).(until := narrowed.value)
    else Returned(row, now + RetryDelay(read.row.attempts))
  }

  predicate Completes(db: Db, read: Read, now: nat) {
    && read.row.kind == Capture
    && HoldsClaim(db.rows, read.id, read.token)
    && LeaseLive(db.rows[read.id], now)
  }

  function AdvancedCursor(cursors: map<Connector, int>, c: Connector, until: int): map<Connector, int> {
    if c !in cursors || until > cursors[c] then cursors[c := until] else cursors
  }

  function Apply(db: Db, step: Step): Db {
    match step
    case Recycle(now) => db.(rows := RecycledRows(db.rows, now))
    case Emit(c, now, id) =>
      if HasActive(db.rows, c) then db else db.(rows := db.rows[id := EmittedRow(db.cursors, c, now)])
    case EmitTask(now, id) =>
      if HasActive(db.rows, LLM_CONNECTOR) then db
      else db.(rows := db.rows[id := Row(LLM_CONNECTOR, LlmTask, now, now, Pending, 0, now, now, None, None, None)])
    case Claim(id, token, worker, now, leaseLength) =>
      if id in db.rows && Claimable(db.rows[id], now) then
        var row := db.rows[id];
        db.(rows := db.rows[id := row.(status := Claimed, attempts := row.attempts + 1, token := Some(token),
                                       claimedBy := Some(worker), lease := Some(now + EffectiveLease(leaseLength)))])
      else db
    case ReadClaim(_, _) => db
    case Renew(id, token, now, leaseLength) =>
      if HoldsClaim(db.rows, id, token) && LeaseLive(db.rows[id], now) then
        db.(rows := db.rows[id := db.rows[id].(lease := Some(now + EffectiveLease(leaseLength)))])
      else db
    case Fail(read, now, windowTooLarge) =>
      if HoldsClaim(db.rows, read.id, read.token) then
        db.(rows := db.rows[read.id := FailedRow(db.rows[read.id], read, now, windowTooLarge)])
      else db
    case Release(read, worker, now) =>
      if HoldsClaim(db.rows, read.id, read.token) && db.rows[read.id].claimedBy == Some(worker) then
        db.(rows := db.rows[read.id := Returned(db.rows[read.id], now + RetryDelay(read.row.attempts))])
      else db
    case Cancel(id) =>
      if id in db.rows && Active(db.rows[id]) then
        db.(rows := db.rows[id := db.rows[id].(status := Cancelled, token := None, lease := None)])
      else db
    case Ingest(read, now, batch) =>
      if Completes(db, read, now) then
        Db(db.rows[read.id := db.rows[read.id].(status := Completed, token := None, lease := None)],
           AdvancedCursor(db.cursors, read.row.connector, read.row.until),
           db.events + set e | e in batch)
      else db
    case IngestUnclaimed(batch) => db.(events := db.events + set e | e in batch)
    case CompleteTask(id, token, now) =>
      if HoldsClaim(db.rows, id, token) && db.rows[id].kind == LlmTask && LeaseLive(db.rows[id], now) then
        db.(rows := db.rows[id := db.rows[id].(status := Completed, token := None, lease := None)])
      else db
    case ResetCursor(c) => db.(cursors := db.cursors - {c})
  }
}
