/**
 * The upload process: five drain loops and a housekeeping loop that take turns
 * at their awaits, over shared flags, a shared tally and the upload tasks.
 */
module Uploader {
  import opened JsonText

  datatype Kind = RESTORE | DELETE | EDIT | UPLOAD | UNAVAILABLE

  // ---- the upload tasks

  datatype TaskState = PENDING | LEASED | DONE | FAILED | DEAD_LETTER

  /** `scope` is the chapter a task is about, the same for every kind. */
  datatype Task = Task(kind: Kind, scope: string, extension: string, state: TaskState, attempt: int, maxAttempts: int,
                       due: int, lease: Option<nat>, expires: int)

  type Tasks = map<string, Task>

  /** The interlock, as a claim's snapshot shows it: no other row about the chapter is leased. */
  ghost predicate Free(seen: Tasks, id: string, scope: string) {
    forall other :: other in seen && other != id && seen[other].scope == scope ==> seen[other].state != LEASED
  }

  /** The filter of a claim, on one version of a row; other rows it sees as they were at its snapshot. */
  ghost predicate Claimable(seen: Tasks, id: string, t: Task, kind: Kind, held: seq<string>, at: int) {
    t.kind == kind && t.state == PENDING && t.due <= at && t.extension !in held && Free(seen, id, t.scope)
  }

  const LEASE_TTL := 600
  const BUDGET := 100

  function Leased(t: Task, leaseId: nat, now: int): Task {
    t.(state := LEASED, lease := Some(leaseId), expires := now + LEASE_TTL, attempt := t.attempt + 1)
  }

  /** The lease filter of every statement that settles a task. */
  predicate Holds(tasks: Tasks, id: string, leaseId: nat) {
    id in tasks && tasks[id].state == LEASED && tasks[id].lease == Some(leaseId)
  }

  function CompleteDone(tasks: Tasks, id: string, leaseId: nat): Tasks {
    if Holds(tasks, id, leaseId) then tasks[id := tasks[id].(state := DONE)] else tasks
  }

  /** The deferred row goes back with a rewritten payload, and gets its attempt back. */
  function Defer(tasks: Tasks, id: string, leaseId: nat, due: int, scope: string): Tasks {
    if Holds(tasks, id, leaseId) then
      var t := tasks[id];
      tasks[id := t.(state := PENDING, scope := scope, due := due, lease := None,
                     attempt := if t.attempt > 0 then t.attempt - 1 else 0)]
    else tasks
  }

  /** `fail` after it has read whether the attempts are used up. */
  function FailTask(tasks: Tasks, id: string, leaseId: nat, exhausted: bool, due: int): Tasks {
    if Holds(tasks, id, leaseId) then
      tasks[id := if exhausted then tasks[id].(state := DEAD_LETTER)
                  else tasks[id].(state := PENDING, due := due, lease := None)]
    else tasks
  }

  function SweepExpired(tasks: Tasks, now: int): Tasks {
    map id | id in tasks ::
      if tasks[id].state == LEASED && tasks[id].expires < now then tasks[id].(state := PENDING, lease := None)
          else tasks[id]
  }

  /**
   * Queueing: a row that is not there yet is added; an operator's action starts
   * a settled one over, except that an upload is never queued a second time.
   */
  function Enqueue(
      tasks: Tasks, id: string, kind: Kind, scope: string, extension: string, maxAttempts: int, now: int): Tasks {
    if id in tasks && (kind == UPLOAD || tasks[id].state == PENDING || tasks[id].state == LEASED) then tasks
    else tasks[id := Task(kind, scope, extension, PENDING, 0, maxAttempts, now, None, 0)]
  }

  // ---- the loops

  datatype Tally = Tally(processed: nat, failed: nat)

  function Add(a: Tally, b: Tally): Tally {
    Tally(a.processed + b.processed, a.failed + b.failed)
  }

  /** What one pass did: tasks finished either way, and tasks put back to be confirmed later. */
  datatype Drained = Drained(tally: Tally, deferred: nat)

  const NOTHING := Drained(Tally(0, 0), 0)

  function Taken(d: Drained): nat { d.tally.processed + d.tally.failed + d.deferred }

  function Plus(a: Drained, b: Drained): Drained {
    Drained(Add(a.tally, b.tally), a.deferred + b.deferred)
  }

  datatype Verdict = Wrote | Waits | Threw

  /**
   * Where a drain loop is suspended; `id` and `leaseId` name the row it holds.
   * A claim is one statement but not one step: it reads the table as of its
   * snapshot, and locks and leases one row later.
   */
  datatype Phase =
    | Resting
    | Asking(held: seq<string>)
    | Looked(held: seq<string>, seen: Tasks, at: int)
    | Refused
    | Granted(id: string, leaseId: nat)
    | Executing(id: string, leaseId: nat)
    | Completing(id: string, leaseId: nat)
    | Deferring(id: string, leaseId: nat, due: int, scope: string)
    | Settled(verdict: Verdict, id: string, leaseId: nat)
    | Failing(id: string, leaseId: nat)
    | FailingRead(id: string, leaseId: nat, exhausted: bool)
    | Stopped

  /**
   * A drain loop: where it is and what its pass has counted. The last four
   * fields are history: tasks taken and started, and what the passes that
   * returned and the passes that threw had counted.
   */
  datatype Loop = Loop(phase: Phase, pass: Drained, taken: nat, started: nat, returned: Drained, lost: Drained)

  const DRAINED_KINDS: set<Kind> := {RESTORE, DELETE, EDIT, UPLOAD, UNAVAILABLE}

  const IDLE := Loop(Resting, NOTHING, 0, 0, NOTHING, NOTHING)

  lemma {:induction false} EveryKindIsDrained(k: Kind)
    ensures k in DRAINED_KINDS
  {
    match k
    case RESTORE =>
    case _ =>
  }

  function AllIdle(): (loops: map<Kind, Loop>)
    ensures forall k: Kind :: k in loops && loops[k] == IDLE
  {
    assert forall k: Kind :: k in DRAINED_KINDS by {
      forall k: Kind ensures k in DRAINED_KINDS { EveryKindIsDrained(k); }
    }
    map k: Kind | k in DRAINED_KINDS :: IDLE
  }

  /** `DRAINED_KINDS`: one loop per kind. */
  type Loops = m: map<Kind, Loop> | forall k: Kind :: k in m
    witness AllIdle()

  datatype State = State(
    now: int, running: bool, paused: bool, held: seq<string>,
    tasks: Tasks, issued: set<nat>,
    loops: Loops, unreported: map<Kind, Tally>, flushed: map<Kind, Tally>)

  datatype Action =
    | Tick(elapsed: nat)
    | SetGates(pause: bool, extensions: seq<string>)
    | Stop
    | Sweep
    | Flush
    | Queue(id: string, kind: Kind, scope: string, extension: string, maxAttempts: int)
    | Wake(kind: Kind)
    | Look(kind: Kind)
    | Take(kind: Kind, row: string, newLease: nat)
    | ClaimNone(kind: Kind)
    | Resume(kind: Kind)
    | Execute(kind: Kind, verdict: Verdict, due: int, payloadScope: string)
    | Settle(kind: Kind, due: int)
    | Throw(kind: Kind)

  predicate Open(s: State) {
    s.running && !s.paused
  }

  // ---- reporting

  function ProcessedIn(m: map<Kind, Tally>, kind: Kind): nat {
    if kind in m then m[kind].processed else 0
  }

  function FailedIn(m: map<Kind, Tally>, kind: Kind): nat {
    if kind in m then m[kind].failed else 0
  }

  /** One queue's totals with more added. */
  function Total(m: map<Kind, Tally>, kind: Kind, more: Tally): Tally {
    Tally(ProcessedIn(m, kind) + more.processed, FailedIn(m, kind) + more.failed)
  }

  /** `report`. */
  function Reported(unreported: map<Kind, Tally>, kind: Kind, done: Drained): map<Kind, Tally> {
    if done.tally.processed == 0 && done.tally.failed == 0 then unreported
    else unreported[kind := Total(unreported, kind, done.tally)]
  }

  /** `flushQueueSummary` adds what it is handed to its own totals. */
  function FlushedWith(flushed: map<Kind, Tally>, drained: map<Kind, Tally>): map<Kind, Tally> {
    map k | k in flushed.Keys + drained.Keys ::
      if k in drained then Total(flushed, k, drained[k]) else flushed[k]
  }

  // ---- one drain loop, from one await to the next

  function Count(d: Drained, v: Verdict): Drained {
    match v
    case Wrote => d.(tally := d.tally.(processed := d.tally.processed + 1))
    case Waits => d.(deferred := d.deferred + 1)
    case Threw => d
  }

  /** The top of `drainLoop`, with a fresh pass. */
  function EnterPass(s: State, l: Loop): Loop {
    l.(phase := if !s.running then Stopped else if s.paused then Resting else Asking(s.held), pass := NOTHING)
  }

  /** The condition of the drain's `while`. */
  predicate GoesOn(s: State, pass: Drained) {
    Open(s) && Taken(pass) < BUDGET
  }

  /** The pass a loop returns when the statement it awaits has answered, if it returns one. */
  function ReturnedPass(s: State, l: Loop): Option<Drained> {
    match l.phase
    case Refused => Some(l.pass)
    case Settled(v, _, _) => if GoesOn(s, Count(l.pass, v)) then None else Some(Count(l.pass, v))
    case _ => None
  }

  /** A loop whose pass has returned sleeps if the pass took nothing. */
  function AfterPass(s: State, l: Loop, done: Drained): Loop {
    var after := l.(returned := Plus(l.returned, done));
    if Taken(done) == 0 && s.running then after.(phase := Resting, pass := NOTHING) else EnterPass(s, after)
  }

  /** The statement a loop awaits has answered. */
  function Resumed(s: State, l: Loop): Loop {
    match l.phase
    case Refused => AfterPass(s, l, l.pass)
    case Granted(id, leaseId) => l.(phase := Executing(id, leaseId), taken := l.taken + 1, started := l.started + 1)
    case Settled(v, _, _) =>
      var pass := Count(l.pass, v);
      if GoesOn(s, pass) then l.(phase := Asking(s.held), pass := pass) else AfterPass(s, l, pass)
    case _ => l
  }

  /** The catch block: the failure is counted before it is written. */
  function CatchTask(l: Loop, id: string, leaseId: nat): Loop {
    l.(phase := Failing(id, leaseId), pass := l.pass.(tally := l.pass.tally.(failed := l.pass.tally.failed + 1)))
  }

  function Executed(l: Loop, v: Verdict, due: int, scope: string): Loop {
    match l.phase
    case Executing(id, leaseId) =>
      (match v
       case Wrote => l.(phase := Completing(id, leaseId))
       case Waits => l.(phase := Deferring(id, leaseId, due, scope))
       case Threw => CatchTask(l, id, leaseId))
    case _ => l
  }

  /** The loop's statement has run against the table. */
  function SettledLoop(tasks: Tasks, l: Loop): Loop {
    match l.phase
    case Completing(id, leaseId) => l.(phase := Settled(Wrote, id, leaseId))
    case Deferring(id, leaseId, _, _) => l.(phase := Settled(Waits, id, leaseId))
    case Failing(id, leaseId) =>
      l.(phase := if id in tasks then FailingRead(id, leaseId, tasks[id].attempt >= tasks[id].maxAttempts)
                  else Settled(Threw, id, leaseId))
    case FailingRead(id, leaseId, _) => l.(phase := Settled(Threw, id, leaseId))
    case _ => l
  }

  /** What that statement does to the table. */
  function SettledTasks(tasks: Tasks, p: Phase, retryAt: int): Tasks {
    match p
    case Completing(id, leaseId) => CompleteDone(tasks, id, leaseId)
    case Deferring(id, leaseId, due, scope) => Defer(tasks, id, leaseId, due, scope)
    case FailingRead(id, leaseId, exhausted) => FailTask(tasks, id, leaseId, exhausted, retryAt)
    case _ => tasks
  }

  /** An await rejects here and the pass ends with it, its counts unreported. */
  predicate EndsInThrow(p: Phase) {
    p.Asking? || p.Looked? || p.Refused? || p.Granted? || p.Failing?
      || p.FailingRead? || (p.Settled? && p.verdict == Threw)
  }

  /** A rejected await. Around a task it is a failed task; around a claim or a failure it ends the pass. */
  function ThrownLoop(l: Loop): Loop {
    if EndsInThrow(l.phase) then l.(phase := Resting, lost := Plus(l.lost, l.pass), pass := NOTHING)
    else
      match l.phase
      case Completing(id, leaseId) => CatchTask(l, id, leaseId)
      case Deferring(id, leaseId, _, _) => CatchTask(l, id, leaseId)
      case Settled(_, id, leaseId) => CatchTask(l, id, leaseId)
      case _ => l
  }

  // ---- the process

  /** The steps one drain loop takes; the others are the housekeeping loop's and the world's. */
  predicate ByLoop(a: Action) {
    a.Wake? || a.Look? || a.Take? || a.ClaimNone? || a.Resume? || a.Execute? || a.Settle? || a.Throw?
  }

  /** A candidate of the snapshot is leased: its latest version, once locked, must still pass the filter. */
  ghost predicate IsTake(s: State, a: Action) {
    && a.Take? && s.loops[a.kind].phase.Looked? && a.newLease !in s.issued
    && var p := s.loops[a.kind].phase;
       && a.row in p.seen && Claimable(p.seen, a.row, p.seen[a.row], a.kind, p.held, p.at)
       && a.row in s.tasks && Claimable(p.seen, a.row, s.tasks[a.row], a.kind, p.held, p.at)
  }

  ghost function LoopAfter(s: State, a: Action): Loop
    requires ByLoop(a)
  {
    var l := s.loops[a.kind];
    match a
    case Wake(_) => if l.phase == Resting then EnterPass(s, l) else l
    case Look(_) => if l.phase.Asking? then l.(phase := Looked(l.phase.held, s.tasks, s.now)) else l
    case Take(_, row, leaseId) => if IsTake(s, a) then l.(phase := Granted(row, leaseId)) else l
    case ClaimNone(_) => if l.phase.Looked? then l.(phase := Refused) else l
    case Resume(_) => Resumed(s, l)
    case Execute(_, v, due, scope) => Executed(l, v, due, scope)
    case Settle(_, _) => SettledLoop(s.tasks, l)
    case Throw(_) => ThrownLoop(l)
  }

  ghost function TasksAfter(s: State, a: Action): Tasks {
    match a
    case Sweep => SweepExpired(s.tasks, s.now)
    case Queue(id, kind, scope, extension, most) => Enqueue(s.tasks, id, kind, scope, extension, most, s.now)
    case Take(kind, row, leaseId) =>
      if IsTake(s, a) then s.tasks[row := Leased(s.tasks[row], leaseId, s.loops[kind].phase.at)] else s.tasks
    case Settle(kind, retryAt) => SettledTasks(s.tasks, s.loops[kind].phase, retryAt)
    case _ => s.tasks
  }

  function UnreportedAfter(s: State, a: Action): map<Kind, Tally> {
    match a
    case Flush => map[]
    case Resume(kind) =>
      var done := ReturnedPass(s, s.loops[kind]);
      if done.Some? then Reported(s.unreported, kind, done.value) else s.unreported
    case _ => s.unreported
  }

  ghost function Step(s: State, a: Action): State {
    State(
      if a.Tick? then s.now + a.elapsed else s.now,
      s.running && !a.Stop?,
      if a.SetGates? then a.pause else s.paused,
      if a.SetGates? then (if a.pause then [] else a.extensions) else s.held,
      TasksAfter(s, a),
      if IsTake(s, a) then s.issued + {a.newLease} else s.issued,
      if ByLoop(a) then s.loops[a.kind := LoopAfter(s, a)] else s.loops,
      UnreportedAfter(s, a),
      if a.Flush? then FlushedWith(s.flushed, s.unreported) else s.flushed)
  }

  ghost function Run(s: State, actions: seq<Action>): State
    decreases |actions|
  {
    if actions == [] then s else Run(Step(s, actions[0]), actions[1..])
  }

  /** The process as it starts: the gates closed, every loop at its top, nothing taken or reported. */
  ghost predicate Starts(s: State) {
    && s.running && s.paused && s.unreported == map[] && s.flushed == map[]
    && (forall k: Kind :: s.loops[k].phase == Resting && s.loops[k].pass == NOTHING
          && s.loops[k].started == s.loops[k].taken
          && Taken(s.loops[k].returned) + Taken(s.loops[k].lost) == 0 && s.loops[k].taken == 0)
  }

  // ---- queue depths

  datatype Depth = Depth(kind: Kind, state: TaskState, count: nat)

  /** The rows of one kind still to be worked. */
  function StillOpen(depths: seq<Depth>, kind: Kind): nat {
    if depths == [] then 0
    else
      var d := depths[|depths| - 1];
      StillOpen(depths[..|depths| - 1], kind)
      + if d.kind == kind && (d.state == PENDING || d.state == LEASED) then d.count else 0
  }

  /** `publishDepths`: a kind is missing only when nothing of it is open. */
  method PublishDepths(depths: seq<Depth>) returns (remaining: map<Kind, nat>)
    ensures forall k: Kind :: (if k in remaining then remaining[k] else 0) == StillOpen(depths, k)
  {
    remaining := map[];
    for i := 0 to |depths|
      invariant forall k: Kind :: (if k in remaining then remaining[k] else 0) == StillOpen(depths[..i], k)
    {
      var row := depths[i];
      assert depths[..i + 1][..i] == depths[..i];
      if row.state == PENDING || row.state == LEASED {
        var before := if row.kind in remaining then remaining[row.kind] else 0;
        remaining := remaining[row.kind := before + row.count];
      }
    }
    assert depths[..|depths|] == depths;
  }

  /** The shared tally as the process keeps it, changed in place by both sides. */
  class Reports {
    var unreported: map<Kind, Tally>

    constructor ()
      ensures unreported == map[]
    {
      unreported := map[];
    }

    method Report(kind: Kind, done: Drained)
      modifies this
      ensures unreported == Reported(old(unreported), kind, done)
    {
      if done.tally.processed == 0 && done.tally.failed == 0 { return; }
      var total := if kind in unreported then unreported[kind] else Tally(0, 0);
      total := total.(processed := total.processed + done.tally.processed);
      total := total.(failed := total.failed + done.tally.failed);
      unreported := unreported[kind := total];
    }

    /** The copy and the clear, with no await between them. */
    method Take() returns (drained: map<Kind, Tally>)
      modifies this
      ensures drained == old(unreported) && unreported == map[]
    {
      drained := unreported;
      unreported := map[];
    }
  }
}
