/** What one task goes through: how it is taken, what its execution comes to, and what the housekeeping does. */
module UploaderEffects {
  import opened JsonText
  import opened Uploader

  // ---- taking a task

  /** One version of a row, by the filter of a claim: the kind asked for, waiting, due, and of no paused extension. */
  predicate MayTake(t: Task, kind: Kind, held: seq<string>, at: int) {
    t.kind == kind && t.state == PENDING && t.due <= at && t.extension !in held
  }

  /** Nothing else about the chapter is under way. */
  ghost predicate ChapterFree(seen: Tasks, row: string, scope: string) {
    forall other :: other in seen && seen[other].state == LEASED && seen[other].scope == scope ==> other == row
  }

  /**
   * A claim takes a row exactly when the row passes as the claim saw it and as
   * it is now, each time with its chapter free as the claim saw it. The row is
   * then leased for ten minutes from the claim, one attempt later; nothing else changes.
   */
  lemma {:induction false} TakesExactlyWhen(s: State, k: Kind, row: string, leaseId: nat)
    requires s.loops[k].phase.Looked?
    ensures var t, p := Step(s, Take(k, row, leaseId)), s.loops[k].phase;
            && (t.loops[k].phase == Granted(row, leaseId) <==>
                  && leaseId !in s.issued && row in p.seen && row in s.tasks
                  && MayTake(p.seen[row], k, p.held, p.at) && ChapterFree(p.seen, row, p.seen[row].scope)
                  && MayTake(s.tasks[row], k, p.held, p.at) && ChapterFree(p.seen, row, s.tasks[row].scope))
            && (t.loops[k].phase != Granted(row, leaseId) ==> t == s)
            && (t.loops[k].phase == Granted(row, leaseId) ==>
                  && t.tasks == s.tasks[row := s.tasks[row].(state := LEASED, lease := Some(leaseId),
                                                             expires := p.at + 600,
                                                             attempt := s.tasks[row].attempt + 1)]
                  && t.issued == s.issued + {leaseId})
  {
  }

  /** A loop looks only after it has asked, and sees the table as it is; a claim that finds nothing ends the pass. */
  lemma {:induction false} LooksAtTheTable(s: State, k: Kind, held: seq<string>)
    requires s.loops[k].phase == Asking(held)
    ensures var t := Step(s, Look(k));
            t.loops[k].phase == Looked(held, s.tasks, s.now) && t.tasks == s.tasks
    ensures Step(Step(s, Look(k)), ClaimNone(k)).loops[k].phase == Refused
  {
  }

  // ---- what an execution comes to

  /** What a loop has counted, in the passes it returned and the one going on. */
  function Counted(l: Loop): Drained {
    Plus(l.returned, l.pass)
  }

  function OneMore(d: Drained, processed: nat, failed: nat, deferred: nat): Drained {
    Drained(Tally(d.tally.processed + processed, d.tally.failed + failed), d.deferred + deferred)
  }

  /** The loop is executing a row that its lease still holds. */
  predicate Working(s: State, k: Kind, id: string, leaseId: nat) {
    && s.loops[k].phase == Executing(id, leaseId)
    && id in s.tasks && s.tasks[id].state == LEASED && s.tasks[id].lease == Some(leaseId)
  }

  lemma {:induction false} PassEnds(s: State, l: Loop, done: Drained)
    ensures Counted(AfterPass(s, l, done)) == Plus(l.returned, done)
  {
  }

  /**
   * An answered statement counts the row it settled: as written or as put back; a failure was
   * counted when it was caught.
   */
  lemma {:induction false} ResumeCounts(s: State, l: Loop, v: Verdict, id: string, leaseId: nat)
    requires l.phase == Settled(v, id, leaseId)
    ensures Counted(Resumed(s, l))
         == OneMore(Counted(l), if v == Wrote then 1 else 0, 0, if v == Waits then 1 else 0)
  {
    PassEnds(s, l, Count(l.pass, v));
  }

  lemma {:induction false} ResumeCountsRow(s: State, k: Kind, v: Verdict, id: string, leaseId: nat)
    requires s.loops[k].phase == Settled(v, id, leaseId)
    ensures var t := Step(s, Resume(k));
            && t.tasks == s.tasks
            && Counted(t.loops[k])
               == OneMore(Counted(s.loops[k]), if v == Wrote then 1 else 0, 0, if v == Waits then 1 else 0)
  {
    ResumeCounts(s, s.loops[k], v, id, leaseId);
  }

  /**
   * A row whose execution waits to be confirmed goes back, due later, with its attempt given back,
   * and counts as deferred.
   */
  lemma {:induction false} WaitingGoesBack(s: State, k: Kind, id: string, leaseId: nat, due: int, scope: string, x: int)
    requires Working(s, k, id, leaseId)
    ensures var t := Step(Step(s, Execute(k, Waits, due, scope)), Settle(k, x));
            var was := s.tasks[id];
            && t.tasks == s.tasks[id := was.(state := PENDING, due := due, scope := scope, lease := None,
                                             attempt := if was.attempt >= 1 then was.attempt - 1 else 0)]
            && Counted(Step(t, Resume(k)).loops[k]) == OneMore(Counted(s.loops[k]), 0, 0, 1)
  {
    var t := Step(Step(s, Execute(k, Waits, due, scope)), Settle(k, x));
    WaitingSettles(s, k, id, leaseId, due, scope, x);
    assert Counted(t.loops[k]) == Counted(s.loops[k]);
    ResumeCountsRow(t, k, Waits, id, leaseId);
  }

  lemma {:induction false} WaitingSettles(
      s: State, k: Kind, id: string, leaseId: nat, due: int, scope: string, x: int)
    requires Working(s, k, id, leaseId)
    ensures var t := Step(Step(s, Execute(k, Waits, due, scope)), Settle(k, x));
            var was := s.tasks[id];
            && t.loops[k] == s.loops[k].(phase := Settled(Waits, id, leaseId))
            && t.tasks == s.tasks[id := was.(state := PENDING, due := due, scope := scope, lease := None,
                                             attempt := if was.attempt >= 1 then was.attempt - 1 else 0)]
  {
    var u := Step(s, Execute(k, Waits, due, scope));
    assert u.loops[k] == s.loops[k].(phase := Deferring(id, leaseId, due, scope)) && u.tasks == s.tasks;
    DeferredSettles(u, k, id, leaseId, due, scope, x);
  }

  lemma {:induction false} DeferredSettles(
      s: State, k: Kind, id: string, leaseId: nat, due: int, scope: string, x: int)
    requires s.loops[k].phase == Deferring(id, leaseId, due, scope)
    requires id in s.tasks && s.tasks[id].state == LEASED && s.tasks[id].lease == Some(leaseId)
    ensures var t, was := Step(s, Settle(k, x)), s.tasks[id];
            && t.loops[k] == s.loops[k].(phase := Settled(Waits, id, leaseId))
            && t.tasks == s.tasks[id := was.(state := PENDING, due := due, scope := scope, lease := None,
                                             attempt := if was.attempt >= 1 then was.attempt - 1 else 0)]
  {
  }

  /** A row whose execution wrote is DONE and counts as processed. */
  lemma {:induction false} WrittenIsDone(s: State, k: Kind, id: string, leaseId: nat, due: int, scope: string, x: int)
    requires Working(s, k, id, leaseId)
    ensures var t := Step(Step(s, Execute(k, Wrote, due, scope)), Settle(k, x));
            && t.tasks == s.tasks[id := s.tasks[id].(state := DONE)]
            && Counted(Step(t, Resume(k)).loops[k]) == OneMore(Counted(s.loops[k]), 1, 0, 0)
  {
    var u := Step(s, Execute(k, Wrote, due, scope));
    var t := Step(u, Settle(k, x));
    assert u.loops[k].phase == Completing(id, leaseId);
    ResumeCountsRow(t, k, Wrote, id, leaseId);
  }

  /** What a failure leaves of a row: given up when its attempts are spent, and else to be tried again later. */
  function AfterFailure(t: Task, due: int): Task {
    if t.attempt >= t.maxAttempts then t.(state := DEAD_LETTER) else t.(state := PENDING, due := due, lease := None)
  }

  /** A row whose execution failed goes by its attempts, and counts as failed. */
  lemma {:induction false} ThrownGoesByItsAttempts(
      s: State, k: Kind, id: string, leaseId: nat, due: int, scope: string, x: int, retryAt: int)
    requires Working(s, k, id, leaseId)
    ensures var t := Step(Step(Step(s, Execute(k, Threw, due, scope)), Settle(k, x)), Settle(k, retryAt));
            && t.tasks == s.tasks[id := AfterFailure(s.tasks[id], retryAt)]
            && Counted(Step(t, Resume(k)).loops[k]) == OneMore(Counted(s.loops[k]), 0, 1, 0)
  {
    var exhausted := s.tasks[id].attempt >= s.tasks[id].maxAttempts;
    var v := Step(Step(s, Execute(k, Threw, due, scope)), Settle(k, x));
    FailureIsCaught(s, k, id, leaseId, due, scope, x);
    FailedSettles(v, k, id, leaseId, exhausted, retryAt);
    ResumeCountsRow(Step(v, Settle(k, retryAt)), k, Threw, id, leaseId);
  }

  /** A failure is counted when it is caught; then the attempts are read. */
  lemma {:induction false} FailureIsCaught(
      s: State, k: Kind, id: string, leaseId: nat, due: int, scope: string, x: int)
    requires Working(s, k, id, leaseId)
    ensures var v := Step(Step(s, Execute(k, Threw, due, scope)), Settle(k, x));
            && v.tasks == s.tasks
            && v.loops[k].phase == FailingRead(id, leaseId, s.tasks[id].attempt >= s.tasks[id].maxAttempts)
            && Counted(v.loops[k]) == OneMore(Counted(s.loops[k]), 0, 1, 0)
  {
    var u := Step(s, Execute(k, Threw, due, scope));
    assert u.loops[k] == CatchTask(s.loops[k], id, leaseId) && u.tasks == s.tasks;
  }

  lemma {:induction false} FailedSettles(s: State, k: Kind, id: string, leaseId: nat, exhausted: bool, retryAt: int)
    requires s.loops[k].phase == FailingRead(id, leaseId, exhausted)
    requires id in s.tasks && s.tasks[id].state == LEASED && s.tasks[id].lease == Some(leaseId)
    ensures var t := Step(s, Settle(k, retryAt));
            && t.loops[k] == s.loops[k].(phase := Settled(Threw, id, leaseId))
            && t.tasks == s.tasks[id := if exhausted then s.tasks[id].(state := DEAD_LETTER)
                                        else s.tasks[id].(state := PENDING, due := retryAt, lease := None)]
  {
  }

  /**
   * A rejected await after the execution is a failed task; one around a claim or a failure ends the
   * pass, which takes its counts with it.
   */
  lemma {:induction false} RejectedAwait(s: State, k: Kind)
    ensures var l, after := s.loops[k], Step(s, Throw(k)).loops[k];
            && Step(s, Throw(k)).tasks == s.tasks
            && (l.phase.Completing? || l.phase.Deferring? || (l.phase.Settled? && l.phase.verdict != Threw) ==>
                  after.phase == Failing(l.phase.id, l.phase.leaseId) && Counted(after) == OneMore(Counted(l), 0, 1, 0))
            && (l.phase.Asking? || l.phase.Looked? || l.phase.Refused? || l.phase.Granted?
                || l.phase.Failing? || l.phase.FailingRead? || (l.phase.Settled? && l.phase.verdict == Threw) ==>
                  after.phase == Resting && Counted(after) == l.returned && after.lost == Plus(l.lost, l.pass))
            && (l.phase.Resting? || l.phase.Stopped? || l.phase.Executing? ==> after == l)
  {
  }

  // ---- only a write makes a row DONE

  /** The i-th action of a run is an execution, under this lease, that wrote. */
  ghost predicate WroteAt(s: State, actions: seq<Action>, i: int, id: string, leaseId: nat) {
    && 0 <= i < |actions| && actions[i].Execute? && actions[i].verdict == Wrote
    && Run(s, actions[..i]).loops[actions[i].kind].phase == Executing(id, leaseId)
  }

  lemma {:induction false} RunsLast(s: State, actions: seq<Action>)
    requires actions != []
    ensures Run(s, actions) == Step(Run(s, actions[..|actions| - 1]), actions[|actions| - 1])
    decreases |actions|
  {
    var last := |actions| - 1;
    if last == 0 {
      assert actions[..0] == [] && actions[1..] == [];
    } else {
      assert actions[1..][..last - 1] == actions[..last][1..];
      RunsLast(Step(s, actions[0]), actions[1..]);
    }
  }

  lemma {:induction false} CompletesOnlyAfterWrite(s: State, a: Action, k: Kind, id: string, leaseId: nat)
    requires Step(s, a).loops[k].phase == Completing(id, leaseId) && s.loops[k].phase != Completing(id, leaseId)
    ensures a.Execute? && a.kind == k && a.verdict == Wrote && s.loops[k].phase == Executing(id, leaseId)
  {
  }

  /** A loop that is to complete a row has executed it under that lease, and the execution wrote. */
  lemma {:induction false} CompletingMeansWrote(s: State, actions: seq<Action>, k: Kind, id: string, leaseId: nat)
    requires Starts(s) && Run(s, actions).loops[k].phase == Completing(id, leaseId)
    ensures exists i :: WroteAt(s, actions, i, id, leaseId)
    decreases |actions|
  {
    if actions != [] {
      var last := |actions| - 1;
      var before := actions[..last];
      RunsLast(s, actions);
      if Run(s, before).loops[k].phase == Completing(id, leaseId) {
        CompletingMeansWrote(s, before, k, id, leaseId);
        WroteBefore(s, actions, last, id, leaseId);
      } else {
        CompletesOnlyAfterWrite(Run(s, before), actions[last], k, id, leaseId);
        assert WroteAt(s, actions, last, id, leaseId);
      }
    }
  }

  lemma {:induction false} WroteBefore(s: State, actions: seq<Action>, n: nat, id: string, leaseId: nat)
    requires n <= |actions| && exists i :: WroteAt(s, actions[..n], i, id, leaseId)
    ensures exists i :: WroteAt(s, actions, i, id, leaseId)
  {
    var i :| WroteAt(s, actions[..n], i, id, leaseId);
    assert actions[..i] == actions[..n][..i];
    assert WroteAt(s, actions, i, id, leaseId);
  }

  predicate IsDone(s: State, id: string) {
    id in s.tasks && s.tasks[id].state == DONE
  }

  lemma {:induction false} DoneOnlyByCompleting(s: State, a: Action, id: string)
    requires IsDone(Step(s, a), id) && !IsDone(s, id)
    ensures a.Settle? && s.loops[a.kind].phase.Completing? && s.loops[a.kind].phase.id == id
    ensures id in s.tasks && s.tasks[id].state == LEASED && s.tasks[id].lease == Some(s.loops[a.kind].phase.leaseId)
  {
  }

  /** In every run a row becomes DONE only after an execution of it wrote, under the lease that still holds it then. */
  lemma {:induction false} DoneOnlyAfterWrite(s: State, actions: seq<Action>, a: Action, id: string)
    requires Starts(s) && IsDone(Run(s, actions + [a]), id) && !IsDone(Run(s, actions), id)
    ensures var t := Run(s, actions);
            && id in t.tasks && t.tasks[id].state == LEASED && t.tasks[id].lease.Some?
            && exists i :: WroteAt(s, actions, i, id, t.tasks[id].lease.value)
  {
    var t := Run(s, actions);
    RunsLast(s, actions + [a]);
    assert (actions + [a])[..|actions|] == actions;
    DoneOnlyByCompleting(t, a, id);
    CompletingMeansWrote(s, actions, a.kind, id, t.tasks[id].lease.value);
  }

  // ---- the loop and the gates

  /** A loop at rest asks for a task while the process runs and is not paused, and stops once it does not run. */
  lemma {:induction false} WakesByTheGates(s: State, k: Kind)
    requires s.loops[k].phase == Resting
    ensures var after := Step(s, Wake(k)).loops[k].phase;
            after == if !s.running then Stopped else if s.paused then Resting else Asking(s.held)
  {
  }

  /** A granted row is taken and executed under its lease. */
  lemma {:induction false} GrantedIsExecuted(s: State, k: Kind, id: string, leaseId: nat)
    requires s.loops[k].phase == Granted(id, leaseId)
    ensures var l, t := s.loops[k], Step(s, Resume(k));
            t.loops[k] == l.(phase := Executing(id, leaseId), taken := l.taken + 1, started := l.started + 1)
            && t.tasks == s.tasks
  {
  }

  function TakenWith(l: Loop): nat
    requires l.phase.Settled?
  {
    Taken(l.pass) + if l.phase.verdict == Threw then 0 else 1
  }

  /**
   * After a task the same pass asks for another exactly while the gate is open and it has taken
   * fewer than a hundred.
   */
  lemma {:induction false} PassGoesOnExactlyWhen(s: State, k: Kind)
    requires s.loops[k].phase.Settled?
    ensures var l, after := s.loops[k], Step(s, Resume(k)).loops[k];
            && (s.running && !s.paused && TakenWith(l) < 100 ==>
                  after.phase == Asking(s.held) && after.pass == Count(l.pass, l.phase.verdict)
                  && after.returned == l.returned)
            && (!(s.running && !s.paused && TakenWith(l) < 100) ==>
                  after.returned == Plus(l.returned, Count(l.pass, l.phase.verdict)) && after.pass == NOTHING)
  {
  }

  /** A pass that took nothing rests; one that took something is followed by another at once. */
  lemma {:induction false} RefusedPassEnds(s: State, k: Kind)
    requires s.loops[k].phase == Refused
    ensures var l, after := s.loops[k], Step(s, Resume(k)).loops[k];
            && after.returned == Plus(l.returned, l.pass) && after.pass == NOTHING
            && after.phase == if !s.running then Stopped
                              else if Taken(l.pass) == 0 || s.paused then Resting
                              else Asking(s.held)
  {
  }

  /** The gates are what was last read: a pause holds everything, so no single extension is held. */
  lemma {:induction false} GatesAreRead(s: State, pause: bool, extensions: seq<string>)
    ensures var t := Step(s, SetGates(pause, extensions));
            t.paused == pause && t.held == (if pause then [] else extensions) && t.running == s.running
    ensures !Step(s, Stop).running && Step(s, Stop).tasks == s.tasks
  {
  }

  // ---- the table

  /** A sweep frees exactly the rows whose lease is over, and leaves every other row alone. */
  lemma {:induction false} SweepFreesOverdue(s: State, id: string)
    requires id in s.tasks
    ensures var t := Step(s, Sweep).tasks;
            && t.Keys == s.tasks.Keys
            && t[id] == if s.tasks[id].state == LEASED && s.now > s.tasks[id].expires
                        then s.tasks[id].(state := PENDING, lease := None) else s.tasks[id]
  {
  }

  /**
   * Queueing adds a row or, unless it is an upload, starts a settled one over; one that waits or is
   * under way stays as it is.
   */
  lemma {:induction false} QueueingExactlyWhen(
      s: State, id: string, kind: Kind, scope: string, extension: string, most: int)
    ensures var t := Step(s, Queue(id, kind, scope, extension, most)).tasks;
            t == if id in s.tasks && (kind == UPLOAD || s.tasks[id].state in {PENDING, LEASED}) then s.tasks
                 else s.tasks[id := Task(kind, scope, extension, PENDING, 0, most, s.now, None, 0)]
  {
  }

  lemma {:induction false} DoneStays(s: State, a: Action, id: string)
    requires IsDone(s, id) && (a.Queue? && a.id == id ==> a.kind == UPLOAD)
    ensures IsDone(Step(s, a), id) && Step(s, a).tasks[id] == s.tasks[id]
  {
  }

  /**
   * A chapter that was uploaded is never queued for upload again, whatever is queued, swept or
   * claimed: its row stays DONE.
   */
  lemma {:induction false} UploadedStaysDone(s: State, actions: seq<Action>, id: string)
    requires IsDone(s, id)
    requires forall i :: 0 <= i < |actions| && actions[i].Queue? && actions[i].id == id ==> actions[i].kind == UPLOAD
    ensures IsDone(Run(s, actions), id) && Run(s, actions).tasks[id] == s.tasks[id]
    decreases |actions|
  {
    if actions != [] {
      DoneStays(s, actions[0], id);
      UploadedStaysDone(Step(s, actions[0]), actions[1..], id);
    }
  }

  // ---- time and queue depths

  /** Time passes by ticks alone, and forwards. */
  lemma {:induction false} TimePasses(s: State, a: Action)
    ensures Step(s, a).now == if a.Tick? then s.now + a.elapsed else s.now
  {
  }

  ghost function RowsIn(tasks: Tasks, kind: Kind, state: TaskState): set<string> {
    set id | id in tasks && tasks[id].kind == kind && tasks[id].state == state
  }

  predicate Lists(depths: seq<Depth>, kind: Kind, state: TaskState) {
    exists i :: 0 <= i < |depths| && depths[i].kind == kind && depths[i].state == state
  }

  /** One entry for each kind and state, with the number of its rows. */
  ghost predicate Groups(tasks: Tasks, depths: seq<Depth>) {
    && (forall i :: 0 <= i < |depths| ==> depths[i].count == |RowsIn(tasks, depths[i].kind, depths[i].state)|)
    && (forall i, j :: 0 <= i < j < |depths| ==> depths[i].kind != depths[j].kind || depths[i].state != depths[j].state)
  }

  /** The rows of a kind that wait or are under way, of the states listed. */
  ghost function OpenRows(tasks: Tasks, kind: Kind, depths: seq<Depth>): set<string> {
    set id | id in tasks && tasks[id].kind == kind && tasks[id].state in {PENDING, LEASED}
             && Lists(depths, kind, tasks[id].state)
  }

  lemma {:induction false} ListsMore(depths: seq<Depth>, d: Depth, kind: Kind, state: TaskState)
    ensures Lists(depths + [d], kind, state) <==> Lists(depths, kind, state) || (d.kind == kind && d.state == state)
  {
    if Lists(depths, kind, state) {
      var i :| 0 <= i < |depths| && depths[i].kind == kind && depths[i].state == state;
      assert (depths + [d])[i] == depths[i];
    } else if d.kind == kind && d.state == state {
      assert (depths + [d])[|depths|] == d;
    }
  }

  lemma {:induction false} OpenRowsMore(tasks: Tasks, kind: Kind, depths: seq<Depth>, d: Depth)
    requires !Lists(depths, d.kind, d.state)
    ensures |OpenRows(tasks, kind, depths + [d])| == |OpenRows(tasks, kind, depths)|
              + if d.kind == kind && d.state in {PENDING, LEASED} then |RowsIn(tasks, d.kind, d.state)| else 0
  {
    var rows := if d.kind == kind && d.state in {PENDING, LEASED} then RowsIn(tasks, d.kind, d.state) else {};
    assert OpenRows(tasks, kind, depths + [d]) == OpenRows(tasks, kind, depths) + rows by {
      forall id | id in tasks
        ensures id in OpenRows(tasks, kind, depths + [d]) <==> id in OpenRows(tasks, kind, depths) || id in rows
      {
        ListsMore(depths, d, kind, tasks[id].state);
      }
    }
    assert OpenRows(tasks, kind, depths) !! rows;
  }

  lemma {:induction false} GroupsAddUp(tasks: Tasks, depths: seq<Depth>, kind: Kind)
    requires Groups(tasks, depths)
    ensures StillOpen(depths, kind) == |OpenRows(tasks, kind, depths)|
    decreases |depths|
  {
    if depths == [] {
      assert OpenRows(tasks, kind, depths) == {};
    } else {
      var before, d := depths[..|depths| - 1], depths[|depths| - 1];
      assert depths == before + [d];
      GroupsAddUp(tasks, before, kind);
      OpenRowsMore(tasks, kind, before, d);
    }
  }

  /**
   * What remains of a queue is the number of its rows that wait or are under way, so it is nothing
   * only when none does.
   */
  lemma {:induction false} RemainingIsOpen(tasks: Tasks, depths: seq<Depth>, kind: Kind)
    requires Groups(tasks, depths)
    requires forall id :: id in tasks ==> Lists(depths, tasks[id].kind, tasks[id].state)
    ensures StillOpen(depths, kind)
         == |set id | id in tasks && tasks[id].kind == kind && tasks[id].state in {PENDING, LEASED}|
  {
    GroupsAddUp(tasks, depths, kind);
    assert OpenRows(tasks, kind, depths)
        == set id | id in tasks && tasks[id].kind == kind && tasks[id].state in {PENDING, LEASED};
  }
}
