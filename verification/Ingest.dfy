/**
 * Result ingestion as a transition system: every database statement is one
 * step, and a delivery can be overtaken, repeated or dropped between any two.
 */
module Ingest {
  import opened JsonText
  import opened Policy

  datatype JobState = PENDING | LEASED | RUNNING | SUCCEEDED | DEAD_LETTER | CANCELLED

  datatype Lease = Lease(id: nat, worker: string, expires: int)

  datatype Job = Job(bundleSha256: string, maxAttempts: int, state: JobState, attempt: int,
                     lease: Option<Lease>, cancelRequested: bool)

  datatype ResultState = RECEIVED | QUARANTINED | COMMITTED | SUPERSEDED

  datatype Reason =
    | NotCurrent
    | WorkerReported(kind: ErrorClass)
    | CommittedFirst
    | Violates(why: Violation)

  /** A submission; its idempotency key is the key of the table. `judge` is the call that moved it out of RECEIVED. */
  datatype Row = Row(envelope: Envelope, worker: string, attempt: int, state: ResultState,
                     reason: Option<Reason>, judge: Option<nat>)

  datatype Disposition = Requeued | DeadLetter | Rejected

  datatype Outcome =
    | Invalid
    | Committed
    | Superseded
    | Quarantined(why: Option<Violation>)
    | JobFailed(disposition: Disposition)

  /** What a delivery does next; each value but the last two stands for one statement against the database. */
  datatype Phase =
    | ReadJob
    | Record
    | MarkStale
    | ReadFailing(kind: ErrorClass)
    | WriteFailing(kind: ErrorClass, exhausted: bool)
    | MarkFailed(kind: ErrorClass, disposition: Disposition)
    | Validate
    | MarkQuarantined(why: Violation)
    | ReadDead(why: Violation)
    | WriteDead(why: Violation, exhausted: bool)
    | Commit(view: View)
    | MarkLost
    | Done(outcome: Outcome, replayed: bool)
    | Crashed

  /** One delivery in flight, with the job as it stood when the delivery read it. */
  datatype Call = Call(envelope: Envelope, worker: string, phase: Phase, snapshot: Option<Job>)

  /** What a lease was issued for. */
  datatype Grant = Grant(job: string, worker: string, attempt: int)

  datatype State = State(
    now: int,
    jobs: map<string, Job>,
    rows: map<string, Row>,
    calls: map<nat, Call>,
    issued: map<nat, Grant>)

  datatype Action =
    | Tick(elapsed: nat)
    | Create(id: string, bundleSha256: string, maxAttempts: int)
    | Claim(id: string, leaseId: nat, worker: string, ttl: int)
    | Start(id: string, leaseId: nat)
    | Renew(id: string, leaseId: nat, ttl: int)
    | Sweep(id: string)
    | Release(id: string, leaseId: nat)
    | Cancel(id: string)
    | Kill(id: string)
    | Replay(id: string)
    | Deliver(call: nat, envelope: Envelope, from: string)
    | Advance(call: nat, view: View, why: Violation)
    | Crash(call: nat)

  const INITIAL := State(0, map[], map[], map[], map[])

  // ---- the job store

  predicate IsActive(job: Job) {
    job.state == LEASED || job.state == RUNNING
  }

  /** The lease filter of every worker-driven statement. */
  predicate HoldsLease(job: Job, leaseId: nat) {
    IsActive(job) && job.lease.Some? && job.lease.value.id == leaseId
  }

  predicate HasLease(s: State, id: string, leaseId: nat) {
    id in s.jobs && HoldsLease(s.jobs[id], leaseId)
  }

  function Put(s: State, id: string, job: Job): State {
    s.(jobs := s.jobs[id := job])
  }

  function ClaimJob(s: State, id: string, leaseId: nat, worker: string, ttl: int): State {
    if id !in s.jobs || s.jobs[id].state != PENDING || s.jobs[id].cancelRequested || leaseId in s.issued then s
    else
      var job := s.jobs[id];
      Put(s, id, job.(state := LEASED, lease := Some(Lease(leaseId, worker, s.now + ttl)), attempt := job.attempt + 1))
        .(issued := s.issued[leaseId := Grant(id, worker, job.attempt + 1)])
  }

  function StartJob(s: State, id: string, leaseId: nat): State {
    if HasLease(s, id, leaseId) && s.jobs[id].state == LEASED then Put(s, id, s.jobs[id].(state := RUNNING)) else s
  }

  function RenewLease(s: State, id: string, leaseId: nat, ttl: int): State {
    if HasLease(s, id, leaseId) && s.jobs[id].lease.value.expires > s.now
    then Put(s, id, s.jobs[id].(lease := Some(s.jobs[id].lease.value.(expires := s.now + ttl))))
    else s
  }

  /** One row of `sweepExpiredLeases`. */
  function SweepJob(s: State, id: string): State {
    if id in s.jobs && IsActive(s.jobs[id]) && s.jobs[id].lease.Some? && s.jobs[id].lease.value.expires < s.now
    then
      var job := s.jobs[id];
      Put(s, id, job.(state := if job.attempt < job.maxAttempts then PENDING else DEAD_LETTER, lease := None))
    else s
  }

  function ReleaseJob(s: State, id: string, leaseId: nat): State {
    if HasLease(s, id, leaseId)
    then Put(s, id, s.jobs[id].(state := PENDING, attempt := s.jobs[id].attempt - 1, lease := None))
    else s
  }

  function CancelJob(s: State, id: string): State {
    if id !in s.jobs then s
    else if s.jobs[id].state == PENDING then Put(s, id, s.jobs[id].(state := CANCELLED, cancelRequested := true))
    else if IsActive(s.jobs[id]) then Put(s, id, s.jobs[id].(cancelRequested := true))
    else s
  }

  /** One job of `cancelRun`. */
  function KillJob(s: State, id: string): State {
    if id in s.jobs && (s.jobs[id].state == PENDING || IsActive(s.jobs[id]))
    then Put(s, id, s.jobs[id].(state := CANCELLED, cancelRequested := true))
    else s
  }

  function ReplayJob(s: State, id: string): State {
    if id in s.jobs && s.jobs[id].state == DEAD_LETTER
    then Put(s, id, s.jobs[id].(state := PENDING, attempt := 0, cancelRequested := false))
    else s
  }

  /** `fail` decides from the attempts it read first. */
  predicate Exhausted(job: Job, kind: ErrorClass) {
    kind == PERMANENT || job.attempt >= job.maxAttempts
  }

  function Failed(job: Job, exhausted: bool): Job {
    job.(state := if exhausted then DEAD_LETTER else PENDING, lease := None)
  }

  function FailDisposition(s: State, e: Envelope, exhausted: bool): Disposition {
    if !HasLease(s, e.jobId, e.leaseId) then Rejected else if exhausted then DeadLetter else Requeued
  }

  // ---- the result store

  /** `markSuperseded` and `markQuarantined`: only a RECEIVED row moves. */
  function Marked(row: Row, state: ResultState, reason: Reason, call: nat): Row {
    if row.state == RECEIVED then row.(state := state, reason := Some(reason), judge := Some(call)) else row
  }

  /** The partial unique index: one committed row per job. */
  predicate JobCommitted(s: State, id: string) {
    exists key :: key in s.rows && s.rows[key].state == COMMITTED && s.rows[key].envelope.jobId == id
  }

  /** Whether the commit transaction of a delivery goes through. */
  predicate CanCommit(s: State, e: Envelope) {
    && e.idempotencyKey in s.rows && s.rows[e.idempotencyKey].state == RECEIVED
    && !JobCommitted(s, s.rows[e.idempotencyKey].envelope.jobId)
    && HasLease(s, e.jobId, e.leaseId)
  }

  /** `priorOutcome`. */
  function PriorOutcome(row: Row): Outcome {
    match row.state
    case COMMITTED => Committed
    case QUARANTINED => Quarantined(if row.reason.Some? && row.reason.value.Violates? then Some(row.reason.value.why)
        else None)
    case _ => Superseded
  }

  // ---- one delivery

  /** Gate 2, on the job as it was read before the submission was recorded. */
  predicate LeaseValid(job: Job, e: Envelope, worker: string) {
    HoldsLease(job, e.leaseId) && job.lease.value.worker == worker
  }

  /** Gates 2 to 4 up to the next statement. */
  function AfterRecord(job: Job, e: Envelope, worker: string): Phase {
    if !LeaseValid(job, e, worker) then MarkStale
    else if e.failure.Some? then ReadFailing(e.failure.value)
    else Validate
  }

  /** What a delivery does once its current statement has answered. */
  function NextPhase(hostOf: UrlParser, s: State, c: Call, view: View, why: Violation): Phase {
    var e := c.envelope;
    match c.phase
    case ReadJob => if e.jobId in s.jobs then Record else Done(Invalid, false)
    case Record =>
      if c.snapshot == None then Crashed
      else if e.idempotencyKey in s.rows && s.rows[e.idempotencyKey].state != RECEIVED
      then Done(PriorOutcome(s.rows[e.idempotencyKey]), true)
      else AfterRecord(c.snapshot.value, e, c.worker)
    case MarkStale => Done(Superseded, false)
    case ReadFailing(kind) =>
      if e.jobId in s.jobs then WriteFailing(kind, Exhausted(s.jobs[e.jobId], kind)) else MarkFailed(kind, Rejected)
    case WriteFailing(kind, exhausted) => MarkFailed(kind, FailDisposition(s, e, exhausted))
    case MarkFailed(_, disposition) => Done(JobFailed(disposition), false)
    case Validate =>
      if c.snapshot.Some? && PolicyHolds(hostOf, e, c.snapshot.value.bundleSha256, view) then Commit(view)
          else MarkQuarantined(why)
    case MarkQuarantined(v) => ReadDead(v)
    case ReadDead(v) =>
      if e.jobId in s.jobs then WriteDead(v, Exhausted(s.jobs[e.jobId], POLICY)) else Done(Quarantined(Some(v)), false)
    case WriteDead(v, _) => Done(Quarantined(Some(v)), false)
    case Commit(_) => if CanCommit(s, e) then Done(Committed, false) else MarkLost
    case MarkLost => Done(Superseded, false)
    case Done(_, _) => c.phase
    case Crashed => Crashed
  }

  /** What a delivery's statement does to the job it names; it touches no other. */
  function JobAfter(s: State, c: Call): Job
    requires c.envelope.jobId in s.jobs
  {
    var e, job := c.envelope, s.jobs[c.envelope.jobId];
    match c.phase
    case WriteFailing(_, exhausted) => if HoldsLease(job, e.leaseId) then Failed(job, exhausted) else job
    case WriteDead(_, exhausted) => if HoldsLease(job, e.leaseId) then Failed(job, exhausted) else job
    case Commit(_) => if CanCommit(s, e) then job.(state := SUCCEEDED) else job
    case _ => job
  }

  /** What a delivery's statement does to the submission with its key; it touches no other. */
  function RowAfter(s: State, call: nat): Option<Row>
    requires call in s.calls
  {
    var c := s.calls[call];
    var key := c.envelope.idempotencyKey;
    if key !in s.rows then
      if c.phase.Record? && c.snapshot.Some?
      then Some(Row(c.envelope, c.worker, c.snapshot.value.attempt, RECEIVED, None, None))
      else None
    else
      var row := s.rows[key];
      match c.phase
      case MarkStale => Some(Marked(row, SUPERSEDED, NotCurrent, call))
      case MarkFailed(kind, _) => Some(Marked(row, SUPERSEDED, WorkerReported(kind), call))
      case MarkQuarantined(v) => Some(Marked(row, QUARANTINED, Violates(v), call))
      case Commit(_) => Some(if CanCommit(s, c.envelope) then row.(state := COMMITTED, judge := Some(call)) else row)
      case MarkLost => Some(Marked(row, SUPERSEDED, CommittedFirst, call))
      case _ => Some(row)
  }

  /** The next statement of a delivery. */
  function Proceed(hostOf: UrlParser, s: State, call: nat, view: View, why: Violation): State
    requires call in s.calls
  {
    var c := s.calls[call];
    var id, key, row := c.envelope.jobId, c.envelope.idempotencyKey, RowAfter(s, call);
    State(
      s.now,
      if id in s.jobs then s.jobs[id := JobAfter(s, c)] else s.jobs,
      if row.Some? then s.rows[key := row.value] else s.rows,
      s.calls[call := c.(phase := NextPhase(hostOf, s, c, view, why),
                         snapshot := if c.phase.ReadJob? && id in s.jobs then Some(s.jobs[id]) else c.snapshot)],
      s.issued)
  }

  /** Every action is total: one that its guard refuses leaves the state alone. */
  function Step(hostOf: UrlParser, s: State, a: Action): State {
    match a
    case Tick(elapsed) => s.(now := s.now + elapsed)
    case Create(id, sha, most) => if id in s.jobs then s else Put(s, id, Job(sha, most, PENDING, 0, None, false))
    case Claim(id, leaseId, worker, ttl) => ClaimJob(s, id, leaseId, worker, ttl)
    case Start(id, leaseId) => StartJob(s, id, leaseId)
    case Renew(id, leaseId, ttl) => RenewLease(s, id, leaseId, ttl)
    case Sweep(id) => SweepJob(s, id)
    case Release(id, leaseId) => ReleaseJob(s, id, leaseId)
    case Cancel(id) => CancelJob(s, id)
    case Kill(id) => KillJob(s, id)
    case Replay(id) => ReplayJob(s, id)
    case Deliver(call, e, from) =>
      if call in s.calls then s else s.(calls := s.calls[call := Call(e, from, ReadJob, None)])
    case Advance(call, view, why) => if call in s.calls then Proceed(hostOf, s, call, view, why) else s
    case Crash(call) => if call in s.calls then s.(calls := s.calls[call := s.calls[call].(phase := Crashed)]) else s
  }

  function Run(hostOf: UrlParser, s: State, actions: seq<Action>): State
    decreases |actions|
  {
    if actions == [] then s else Run(hostOf, Step(hostOf, s, actions[0]), actions[1..])
  }
}
