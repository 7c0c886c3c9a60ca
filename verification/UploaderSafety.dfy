/** What holds of the upload process in every interleaving of its loops. */
module UploaderSafety {
  import opened JsonText
  import opened Uploader

  // ---- the interlock

  predicate IsLeased(tasks: Tasks, id: string) {
    id in tasks && tasks[id].state == LEASED
  }

  /** No two leased rows are about one chapter. */
  ghost predicate OnePerChapter(tasks: Tasks) {
    forall a, b :: IsLeased(tasks, a) && IsLeased(tasks, b) && tasks[a].scope == tasks[b].scope ==> a == b
  }

  /**
   * A leased row of the next table was leased before, for the same chapter and by the same lease,
   * or has just been taken.
   */
  ghost predicate TaskStays(before: Tasks, after: Tasks, id: string)
    requires id in after
  {
    after[id].state == LEASED ==>
      id in before && before[id].state == LEASED && before[id].scope == after[id].scope
      && before[id].lease == after[id].lease && before[id].attempt == after[id].attempt
      && before[id].maxAttempts == after[id].maxAttempts
  }

  lemma {:induction false} StepTasks(s: State, a: Action, id: string)
    requires id in Step(s, a).tasks && !(IsTake(s, a) && id == a.row)
    ensures TaskStays(s.tasks, Step(s, a).tasks, id)
  {
  }

  /** A row is leased by a lease that a snapshot does not show. */
  predicate TakenSince(seen: Tasks, tasks: Tasks, id: string) {
    IsLeased(tasks, id) && !(IsLeased(seen, id) && seen[id].lease == tasks[id].lease)
  }

  /** A claim takes its row while another about the chapter, taken since the claim looked, is still held. */
  ghost predicate Overtaken(s: State, a: Action) {
    IsTake(s, a)
    && exists other :: other != a.row && TakenSince(s.loops[a.kind].phase.seen, s.tasks, other)
                       && s.tasks[other].scope == s.tasks[a.row].scope
  }

  /** The leases in a table were all issued. */
  ghost predicate LeasesIssued(tasks: Tasks, issued: set<nat>) {
    forall id :: IsLeased(tasks, id) && tasks[id].lease.Some? ==> tasks[id].lease.value in issued
  }

  /** A row still held by the lease a snapshot shows is about the chapter the snapshot shows. */
  ghost predicate SameScopes(seen: Tasks, tasks: Tasks) {
    forall id :: IsLeased(seen, id) && IsLeased(tasks, id) && !TakenSince(seen, tasks, id)
        ==> seen[id].scope == tasks[id].scope
  }

  ghost predicate SnapshotOk(s: State, p: Phase) {
    p.Looked? ==> LeasesIssued(p.seen, s.issued) && SameScopes(p.seen, s.tasks)
  }

  ghost predicate SnapshotsOk(s: State) {
    LeasesIssued(s.tasks, s.issued) && forall k: Kind :: SnapshotOk(s, s.loops[k].phase)
  }

  lemma {:induction false} IssuedKept(s: State, a: Action)
    requires LeasesIssued(s.tasks, s.issued)
    ensures LeasesIssued(Step(s, a).tasks, Step(s, a).issued)
  {
    var t := Step(s, a);
    forall id | IsLeased(t.tasks, id) && t.tasks[id].lease.Some? ensures t.tasks[id].lease.value in t.issued {
      if !(IsTake(s, a) && id == a.row) { StepTasks(s, a, id); }
    }
  }

  lemma {:induction false} SnapshotFrame(s: State, a: Action, p: Phase)
    requires SnapshotOk(s, p) && p.Looked?
    ensures SnapshotOk(Step(s, a), p)
  {
    var t := Step(s, a);
    forall id | IsLeased(p.seen, id) && IsLeased(t.tasks, id) && !TakenSince(p.seen, t.tasks, id)
      ensures p.seen[id].scope == t.tasks[id].scope
    {
      if !(IsTake(s, a) && id == a.row) { StepTasks(s, a, id); }
    }
  }

  lemma {:induction false} LookIsCurrent(s: State, a: Action, k: Kind)
    requires Step(s, a).loops[k].phase.Looked? && Step(s, a).loops[k].phase != s.loops[k].phase
    ensures a == Look(k) && Step(s, a).tasks == s.tasks && Step(s, a).loops[k].phase.seen == s.tasks
  {
  }

  lemma {:induction false} SnapshotsKept(s: State, a: Action)
    requires SnapshotsOk(s)
    ensures SnapshotsOk(Step(s, a))
  {
    var t := Step(s, a);
    IssuedKept(s, a);
    forall k: Kind ensures SnapshotOk(t, t.loops[k].phase) {
      if t.loops[k].phase.Looked? {
        if t.loops[k].phase == s.loops[k].phase {
          SnapshotFrame(s, a, s.loops[k].phase);
        } else {
          LookIsCurrent(s, a, k);
        }
      }
    }
  }

  /** The row a claim takes finds its chapter free, unless it was overtaken. */
  lemma {:induction false} TakenAlone(s: State, a: Action, other: string)
    requires SnapshotsOk(s) && IsTake(s, a) && !Overtaken(s, a) && other != a.row && IsLeased(s.tasks, other)
    ensures s.tasks[other].scope != s.tasks[a.row].scope
  {
    var p := s.loops[a.kind].phase;
    assert SnapshotOk(s, p);
    assert Claimable(p.seen, a.row, s.tasks[a.row], a.kind, p.held, p.at);
  }

  lemma {:induction false} OvertakenShares(s: State, a: Action)
    requires Overtaken(s, a)
    ensures !OnePerChapter(Step(s, a).tasks)
  {
    var other :| other != a.row && TakenSince(s.loops[a.kind].phase.seen, s.tasks, other)
                 && s.tasks[other].scope == s.tasks[a.row].scope;
    var t := Step(s, a).tasks;
    assert IsLeased(t, a.row) && IsLeased(t, other) && t[a.row].scope == t[other].scope;
  }

  /** A step keeps the interlock exactly when it is not an overtaken claim. */
  lemma {:induction false} InterlockStep(s: State, a: Action)
    requires SnapshotsOk(s) && OnePerChapter(s.tasks)
    ensures OnePerChapter(Step(s, a).tasks) <==> !Overtaken(s, a)
  {
    if Overtaken(s, a) {
      OvertakenShares(s, a);
    } else {
      var t := Step(s, a).tasks;
      forall x, y | IsLeased(t, x) && IsLeased(t, y) && t[x].scope == t[y].scope
        ensures x == y
      {
        if IsTake(s, a) && x == a.row && y != a.row {
          StepTasks(s, a, y);
          TakenAlone(s, a, y);
        } else if IsTake(s, a) && y == a.row && x != a.row {
          StepTasks(s, a, x);
          TakenAlone(s, a, x);
        } else if !(IsTake(s, a) && x == a.row) {
          StepTasks(s, a, x);
          StepTasks(s, a, y);
        }
      }
    }
  }

  /** No chapter is worked on twice at once, at any point of a run. */
  ghost predicate ApartThroughout(s: State, actions: seq<Action>)
    decreases |actions|
  {
    OnePerChapter(s.tasks) && (actions != [] ==> ApartThroughout(Step(s, actions[0]), actions[1..]))
  }

  ghost predicate EverOvertaken(s: State, actions: seq<Action>)
    decreases |actions|
  {
    actions != [] && (Overtaken(s, actions[0]) || EverOvertaken(Step(s, actions[0]), actions[1..]))
  }

  /**
   * However leases expire and tasks are queued, a run works on some chapter
   * twice at once if and only if one of its claims takes a row while another
   * about the same chapter, taken since that claim looked, is still held.
   */
  lemma {:induction false} NoChapterTwiceExactlyWhen(s: State, actions: seq<Action>)
    requires SnapshotsOk(s) && OnePerChapter(s.tasks)
    ensures ApartThroughout(s, actions) <==> !EverOvertaken(s, actions)
    decreases |actions|
  {
    if actions != [] {
      var t := Step(s, actions[0]);
      InterlockStep(s, actions[0]);
      SnapshotsKept(s, actions[0]);
      if OnePerChapter(t.tasks) {
        NoChapterTwiceExactlyWhen(t, actions[1..]);
      } else {
        assert !ApartThroughout(t, actions[1..]);
      }
    }
  }

  /** No claim looks while another has looked and not yet taken: what one claim at a time would mean. */
  ghost predicate OneClaimAtATime(s: State) {
    forall j: Kind, k: Kind :: s.loops[j].phase.Looked? && s.loops[k].phase.Looked? ==> j == k
  }

  ghost predicate ClaimsTakeTurns(s: State, actions: seq<Action>)
    decreases |actions|
  {
    OneClaimAtATime(s) && (actions != [] ==> ClaimsTakeTurns(Step(s, actions[0]), actions[1..]))
  }

  /** Every lease in the table is one each pending claim has seen. */
  ghost predicate NothingTakenSince(s: State) {
    forall k: Kind, id :: s.loops[k].phase.Looked? ==> !TakenSince(s.loops[k].phase.seen, s.tasks, id)
  }

  lemma {:induction false} TurnsStep(s: State, a: Action)
    requires OneClaimAtATime(s) && NothingTakenSince(s)
    ensures NothingTakenSince(Step(s, a)) && !Overtaken(s, a)
  {
    var t := Step(s, a);
    forall k: Kind, id | t.loops[k].phase.Looked? ensures !TakenSince(t.loops[k].phase.seen, t.tasks, id) {
      if t.loops[k].phase != s.loops[k].phase {
        LookIsCurrent(s, a, k);
      } else {
        assert !TakenSince(s.loops[k].phase.seen, s.tasks, id);
        assert !IsTake(s, a);
        if id in t.tasks { StepTasks(s, a, id); }
      }
    }
  }

  /** While claims take turns, no run works on a chapter twice at once. */
  lemma {:induction false} NoChapterTwice(s: State, actions: seq<Action>)
    requires SnapshotsOk(s) && OnePerChapter(s.tasks) && NothingTakenSince(s) && ClaimsTakeTurns(s, actions)
    ensures ApartThroughout(s, actions)
    decreases |actions|
  {
    if actions != [] {
      TurnsStep(s, actions[0]);
      InterlockStep(s, actions[0]);
      SnapshotsKept(s, actions[0]);
      NoChapterTwice(Step(s, actions[0]), actions[1..]);
    }
  }

  lemma {:induction false} RunFour(s: State, a: Action, b: Action, c: Action, d: Action)
    ensures Run(s, [a, b, c, d]) == Step(Step(Step(Step(s, a), b), c), d)
  {
    var t := Step(s, a);
    var u := Step(t, b);
    var v := Step(u, c);
    assert [a, b, c, d][1..] == [b, c, d] && [b, c, d][1..] == [c, d] && [c, d][1..] == [d];
    assert Run(v, [d]) == Step(v, d);
    assert Run(u, [c, d]) == Run(v, [d]);
    assert Run(t, [b, c, d]) == Run(u, [c, d]);
  }

  lemma {:induction false} LookStep(s: State, k: Kind)
    requires s.loops[k].phase.Asking?
    ensures Step(s, Look(k))
         == s.(loops := s.loops[k := s.loops[k].(phase := Looked(s.loops[k].phase.held, s.tasks, s.now))])
  {
  }

  lemma {:induction false} TakeStep(s: State, k: Kind, row: string, leaseId: nat)
    requires IsTake(s, Take(k, row, leaseId))
    ensures Step(s, Take(k, row, leaseId))
         == s.(tasks := s.tasks[row := Leased(s.tasks[row], leaseId, s.loops[k].phase.at)],
           issued := s.issued + {leaseId},
               loops := s.loops[k := s.loops[k].(phase := Granted(row, leaseId))])
  {
  }

  /** A row a loop that is about to claim could be given. */
  ghost predicate Due(s: State, k: Kind, row: string) {
    s.loops[k].phase.Asking? && row in s.tasks
    && Claimable(s.tasks, row, s.tasks[row], k, s.loops[k].phase.held, s.now)
  }

  /**
   * Two kinds due for one chapter, both loops claiming at once: each looks before either takes, and
   * both rows are leased.
   */
  lemma {:induction false} OverlappingClaimsShareChapter(
    s: State, j: Kind, k: Kind, x: string, y: string, one: nat, two: nat)
    requires j != k && x != y && one != two && one !in s.issued && two !in s.issued
    requires Due(s, j, x) && Due(s, k, y) && s.tasks[x].scope == s.tasks[y].scope
    ensures var t := Run(s, [Look(j), Look(k), Take(j, x, one), Take(k, y, two)]).tasks;
            IsLeased(t, x) && IsLeased(t, y) && t[x].scope == t[y].scope
  {
    RunFour(s, Look(j), Look(k), Take(j, x, one), Take(k, y, two));
    LookStep(s, j);
    var t := Step(s, Look(j));
    LookStep(t, k);
    var u := Step(t, Look(k));
    TakeStep(u, j, x, one);
    TakeStep(Step(u, Take(j, x, one)), k, y, two);
  }

  lemma {:induction false} RunsOn(s: State, first: seq<Action>, next: seq<Action>)
    ensures Run(s, first + next) == Run(Run(s, first), next)
    decreases |first|
  {
    if first == [] {
      assert first + next == next;
    } else {
      assert (first + next)[1..] == first[1..] + next;
      RunsOn(Step(s, first[0]), first[1..], next);
    }
  }

  /** A removal and a card for one chapter are queued, the gate opens, and both loops wake. */
  function BothQueued(x: string, y: string, scope: string, extension: string, most: int): seq<Action> {
    [Queue(x, DELETE, scope, extension, most), Queue(y, UNAVAILABLE, scope, extension, most)] + BothWoken()
  }

  function BothWoken(): seq<Action> {
    [SetGates(false, []), Wake(DELETE)] + [Wake(UNAVAILABLE)]
  }

  lemma {:induction false} RunTwo(s: State, a: Action, b: Action)
    ensures Run(s, [a, b]) == Step(Step(s, a), b) && Run(s, [a]) == Step(s, a)
  {
    assert [a, b][1..] == [b];
    assert Run(Step(s, a), [b]) == Step(Step(s, a), b);
  }

  lemma {:induction false} QueueStep(s: State, id: string, kind: Kind, scope: string, extension: string, most: int)
    requires id !in s.tasks
    ensures Step(s, Queue(id, kind, scope, extension, most))
         == s.(tasks := s.tasks[id := Task(kind, scope, extension, PENDING, 0, most, s.now, None, 0)])
  {
  }

  lemma {:induction false} WakeStep(s: State, kind: Kind)
    requires Open(s) && s.loops[kind].phase == Resting && s.loops[kind].pass == NOTHING
    ensures Step(s, Wake(kind)) == s.(loops := s.loops[kind := s.loops[kind].(phase := Asking(s.held))])
  {
  }

  lemma {:induction false} WakesTwo(s: State)
    requires Open(s) && s.loops[DELETE].phase == Resting && s.loops[DELETE].pass == NOTHING
    requires s.loops[UNAVAILABLE].phase == Resting && s.loops[UNAVAILABLE].pass == NOTHING
    ensures var t := Step(Step(s, Wake(DELETE)), Wake(UNAVAILABLE));
            && t.tasks == s.tasks && t.issued == s.issued && t.now == s.now
            && t.loops[DELETE].phase == Asking(s.held) && t.loops[UNAVAILABLE].phase == Asking(s.held)
  {
    WakeStep(s, DELETE);
    WakeStep(Step(s, Wake(DELETE)), UNAVAILABLE);
  }

  lemma {:induction false} WakesBoth(s: State)
    requires s.running && forall k: Kind :: s.loops[k].phase == Resting && s.loops[k].pass == NOTHING
    ensures var t := Run(s, BothWoken());
            && t.tasks == s.tasks && t.issued == s.issued && t.now == s.now
            && t.loops[DELETE].phase == Asking([]) && t.loops[UNAVAILABLE].phase == Asking([])
  {
    var open := Step(s, SetGates(false, []));
    assert open == s.(paused := false, held := []);
    assert Open(open) && open.loops == s.loops;
    var woken := Step(open, Wake(DELETE));
    RunTwo(s, SetGates(false, []), Wake(DELETE));
    RunsOn(s, [SetGates(false, []), Wake(DELETE)], [Wake(UNAVAILABLE)]);
    RunTwo(woken, Wake(UNAVAILABLE), Wake(UNAVAILABLE));
    WakesTwo(open);
  }

  lemma {:induction false} QueuesBoth(s: State, x: string, y: string, scope: string, extension: string, most: int)
    requires x !in s.tasks && y !in s.tasks && x != y
    ensures var row := Task(DELETE, scope, extension, PENDING, 0, most, s.now, None, 0);
            Run(s, [Queue(x, DELETE, scope, extension, most), Queue(y, UNAVAILABLE, scope, extension, most)])
              == s.(tasks := s.tasks[x := row][y := row.(kind := UNAVAILABLE)])
  {
    RunTwo(s, Queue(x, DELETE, scope, extension, most), Queue(y, UNAVAILABLE, scope, extension, most));
    QueueStep(s, x, DELETE, scope, extension, most);
    QueueStep(Step(s, Queue(x, DELETE, scope, extension, most)), y, UNAVAILABLE, scope, extension, most);
  }

  /** A row of one kind, waiting and due, about a chapter nothing is under way for. */
  ghost predicate Waiting(s: State, row: string, kind: Kind, scope: string) {
    && row in s.tasks && s.tasks[row].kind == kind && s.tasks[row].scope == scope
    && s.tasks[row].state == PENDING && s.tasks[row].due == s.now && Free(s.tasks, row, scope)
  }

  lemma {:induction false} QueuedWait(
    s: State, x: string, y: string, scope: string, extension: string, most: int)
    requires x !in s.tasks && y !in s.tasks && x != y
    requires forall id :: id in s.tasks ==> s.tasks[id].scope != scope
    ensures var t := Run(s, [Queue(x, DELETE, scope, extension, most), Queue(y, UNAVAILABLE, scope, extension, most)]);
            && Waiting(t, x, DELETE, scope) && Waiting(t, y, UNAVAILABLE, scope)
            && t.running == s.running && t.loops == s.loops && t.issued == s.issued
  {
    QueuesBoth(s, x, y, scope, extension, most);
    var t := Run(s, [Queue(x, DELETE, scope, extension, most), Queue(y, UNAVAILABLE, scope, extension, most)]);
    NewRowsAreFree(s.tasks, t.tasks, x, y, scope);
  }

  lemma {:induction false} BothDue(s: State, x: string, y: string, scope: string, extension: string, most: int)
    requires s.running && forall k: Kind :: s.loops[k].phase == Resting && s.loops[k].pass == NOTHING
    requires x !in s.tasks && y !in s.tasks && x != y
    requires forall id :: id in s.tasks ==> s.tasks[id].scope != scope
    ensures var t := Run(s, BothQueued(x, y, scope, extension, most));
            && Due(t, DELETE, x) && Due(t, UNAVAILABLE, y)
            && t.tasks[x].scope == t.tasks[y].scope && t.issued == s.issued
  {
    var first := [Queue(x, DELETE, scope, extension, most), Queue(y, UNAVAILABLE, scope, extension, most)];
    QueuedWait(s, x, y, scope, extension, most);
    RunsOn(s, first, BothWoken());
    WakeToDue(Run(s, first), x, y, scope);
  }

  lemma {:induction false} WakeToDue(s: State, x: string, y: string, scope: string)
    requires s.running && forall k: Kind :: s.loops[k].phase == Resting && s.loops[k].pass == NOTHING
    requires Waiting(s, x, DELETE, scope) && Waiting(s, y, UNAVAILABLE, scope)
    ensures var t := Run(s, BothWoken());
            && Due(t, DELETE, x) && Due(t, UNAVAILABLE, y)
            && t.tasks[x].scope == t.tasks[y].scope && t.issued == s.issued
  {
    WakesBoth(s);
    DueRow(Run(s, BothWoken()), DELETE, x);
    DueRow(Run(s, BothWoken()), UNAVAILABLE, y);
  }

  lemma {:induction false} DueRow(s: State, k: Kind, row: string)
    requires s.loops[k].phase == Asking([]) && row in s.tasks && Free(s.tasks, row, s.tasks[row].scope)
    requires s.tasks[row].kind == k && s.tasks[row].state == PENDING && s.tasks[row].due == s.now
    ensures Due(s, k, row)
  {
  }

  lemma {:induction false} NewRowsAreFree(before: Tasks, after: Tasks, x: string, y: string, scope: string)
    requires forall id :: id in before ==> before[id].scope != scope
    requires forall id :: id in after && id != x && id != y ==> id in before && after[id] == before[id]
    requires x in after && after[x].state == PENDING && y in after && after[y].state == PENDING
    ensures Free(after, x, scope) && Free(after, y, scope)
  {
  }

  /** So from any start a removal and a card for one chapter can be under way at once. */
  lemma {:induction false} DeleteAndCardAtOnce(
    s: State, x: string, y: string, scope: string, extension: string, most: int, one: nat, two: nat)
    requires Starts(s) && x !in s.tasks && y !in s.tasks && x != y
    requires forall id :: id in s.tasks ==> s.tasks[id].scope != scope
    requires one != two && one !in s.issued && two !in s.issued
    ensures var claims := [Look(DELETE), Look(UNAVAILABLE), Take(DELETE, x, one), Take(UNAVAILABLE, y, two)];
            var t := Run(s, BothQueued(x, y, scope, extension, most) + claims).tasks;
            IsLeased(t, x) && IsLeased(t, y) && t[x].scope == t[y].scope
  {
    var claims := [Look(DELETE), Look(UNAVAILABLE), Take(DELETE, x, one), Take(UNAVAILABLE, y, two)];
    RunsOn(s, BothQueued(x, y, scope, extension, most), claims);
    BothDue(s, x, y, scope, extension, most);
    OverlappingClaimsShareChapter(Run(s, BothQueued(x, y, scope, extension, most)), DELETE, UNAVAILABLE, x, y, one,
      two);
  }

  // ---- leases

  /** Every lease in the table or in a loop's hands was issued. */
  ghost predicate LeasesOk(s: State) {
    && (forall id :: id in s.tasks && s.tasks[id].state == LEASED && s.tasks[id].lease.Some?
          ==> s.tasks[id].lease.value in s.issued)
    && (forall k: Kind :: HandOk(s, s.loops[k].phase))
  }

  ghost predicate HandOk(s: State, p: Phase) {
    match p
    case Granted(_, l) => l in s.issued
    case Executing(_, l) => l in s.issued
    case Completing(_, l) => l in s.issued
    case Deferring(_, l, _, _) => l in s.issued
    case Settled(_, _, l) => l in s.issued
    case Failing(_, l) => l in s.issued
    case FailingRead(id, l, exhausted) =>
      l in s.issued && (Holds(s.tasks, id, l) ==> exhausted == (s.tasks[id].attempt >= s.tasks[id].maxAttempts))
    case _ => true
  }

  /** A lease the table no longer shows never comes back. */
  lemma {:induction false} LeaseStaysLost(s: State, a: Action, id: string, leaseId: nat)
    requires leaseId in s.issued && Holds(Step(s, a).tasks, id, leaseId)
    ensures Holds(s.tasks, id, leaseId)
    ensures Step(s, a).tasks[id].attempt == s.tasks[id].attempt
        && Step(s, a).tasks[id].maxAttempts == s.tasks[id].maxAttempts
  {
    StepTasks(s, a, id);
  }

  lemma {:induction false} IssuedGrows(s: State, a: Action)
    ensures s.issued <= Step(s, a).issued
  {
  }

  lemma {:induction false} HandFrame(s: State, a: Action, p: Phase)
    requires HandOk(s, p)
    ensures HandOk(Step(s, a), p)
  {
    IssuedGrows(s, a);
    if p.FailingRead? && Holds(Step(s, a).tasks, p.id, p.leaseId) {
      LeaseStaysLost(s, a, p.id, p.leaseId);
    }
  }

  /** What a loop comes to hold was in its hands before, or has just been issued to it. */
  lemma {:induction false} HandsOver(s: State, a: Action)
    requires ByLoop(a) && HandOk(s, s.loops[a.kind].phase)
    ensures var p := LoopAfter(s, a).phase;
            p.FailingRead? || HandOk(Step(s, a), p)
  {
    IssuedGrows(s, a);
  }

  lemma {:induction false} OwnHand(s: State, a: Action)
    requires ByLoop(a) && HandOk(s, s.loops[a.kind].phase)
    ensures HandOk(Step(s, a), LoopAfter(s, a).phase)
  {
    var p, q := s.loops[a.kind].phase, LoopAfter(s, a).phase;
    HandsOver(s, a);
    if q.FailingRead? {
      if p.FailingRead? {
        assert q == p;
        HandFrame(s, a, p);
      } else {
        assert a.Settle? && p.Failing? && TasksAfter(s, a) == s.tasks;
        IssuedGrows(s, a);
      }
    }
  }

  lemma {:induction false} LeasesKept(s: State, a: Action)
    requires LeasesOk(s)
    ensures LeasesOk(Step(s, a))
  {
    var t := Step(s, a);
    IssuedGrows(s, a);
    forall id | id in t.tasks && t.tasks[id].state == LEASED && t.tasks[id].lease.Some?
      ensures t.tasks[id].lease.value in t.issued
    {
      if !(IsTake(s, a) && id == a.row) { StepTasks(s, a, id); }
    }
    forall k: Kind ensures HandOk(t, t.loops[k].phase) {
      if ByLoop(a) && a.kind == k {
        assert HandOk(s, s.loops[k].phase);
        OwnHand(s, a);
      } else {
        assert HandOk(s, s.loops[k].phase);
        HandFrame(s, a, s.loops[k].phase);
      }
    }
  }

  lemma {:induction false} LeasesOverRuns(s: State, actions: seq<Action>)
    requires LeasesOk(s)
    ensures LeasesOk(Run(s, actions))
    decreases |actions|
  {
    if actions != [] {
      LeasesKept(s, actions[0]);
      LeasesOverRuns(Step(s, actions[0]), actions[1..]);
    }
  }

  /** Once a lease is gone from its row no later run gives it back, and settling with it leaves the table as it is. */
  lemma {:induction false} LostLeaseSettlesNothing(s: State, actions: seq<Action>, id: string, leaseId: nat)
    requires leaseId in s.issued && !Holds(s.tasks, id, leaseId)
    ensures var t := Run(s, actions).tasks;
            && !Holds(t, id, leaseId)
            && CompleteDone(t, id, leaseId) == t
            && (forall due, scope :: Defer(t, id, leaseId, due, scope) == t)
            && (forall exhausted, due :: FailTask(t, id, leaseId, exhausted, due) == t)
    decreases |actions|
  {
    if actions != [] {
      IssuedGrows(s, actions[0]);
      if Holds(Step(s, actions[0]).tasks, id, leaseId) {
        LeaseStaysLost(s, actions[0], id, leaseId);
      }
      LostLeaseSettlesNothing(Step(s, actions[0]), actions[1..], id, leaseId);
    }
  }

  /** `fail` writes what the row's attempts call for at that instant, although it read them earlier, in every run. */
  lemma {:induction false} FailDecidesAsIfAtomic(s: State, actions: seq<Action>, kind: Kind, retryAt: int)
    requires LeasesOk(s)
    requires var t := Run(s, actions);
             t.loops[kind].phase.FailingRead? && Holds(t.tasks, t.loops[kind].phase.id, t.loops[kind].phase.leaseId)
    ensures var t := Run(s, actions);
            var p := t.loops[kind].phase;
            p.id in SettledTasks(t.tasks, p, retryAt)
            && SettledTasks(t.tasks, p, retryAt)[p.id].state
               == (if t.tasks[p.id].attempt >= t.tasks[p.id].maxAttempts then DEAD_LETTER else PENDING)
  {
    LeasesOverRuns(s, actions);
    assert HandOk(Run(s, actions), Run(s, actions).loops[kind].phase);
  }

  /**
   * A completion that lost its lease is counted as processed like any other; only one that held it
   * makes the row DONE.
   */
  lemma {:induction false} CompletionCountsEitherWay(s: State, kind: Kind, due: int)
    requires s.loops[kind].phase.Completing?
    ensures var l := s.loops[kind];
            var t := SettledTasks(s.tasks, l.phase, due);
            && Count(SettledLoop(s.tasks, l).pass, SettledLoop(s.tasks, l).phase.verdict).tally.processed
               == l.pass.tally.processed + 1
            && (Holds(s.tasks, l.phase.id, l.phase.leaseId)
                <==> (l.phase.id in t && t[l.phase.id].state == DONE && t != s.tasks))
  {
  }

  // ---- the counts

  /** A row a loop holds and has not counted yet. */
  function InHand(p: Phase): nat {
    match p
    case Executing(_, _) => 1
    case Completing(_, _) => 1
    case Deferring(_, _, _, _) => 1
    case Settled(v, _, _) => if v == Threw then 0 else 1
    case _ => 0
  }

  ghost predicate CountsOk(l: Loop) {
    && l.taken == Taken(l.returned) + Taken(l.lost) + Taken(l.pass) + InHand(l.phase)
    && l.started == l.taken
    && Taken(l.pass) + InHand(l.phase) <= BUDGET
    && (l.phase.Asking? || l.phase.Looked? || l.phase.Granted? ==> Taken(l.pass) < BUDGET)
    && (l.phase.Resting? || l.phase.Stopped? ==> l.pass == NOTHING)
  }

  /** What a queue has reported, flushed or not. */
  ghost function Processed(s: State, k: Kind): nat { ProcessedIn(s.unreported, k) + ProcessedIn(s.flushed, k) }
  ghost function Failed(s: State, k: Kind): nat { FailedIn(s.unreported, k) + FailedIn(s.flushed, k) }

  /** It is what the passes that returned have counted. */
  ghost predicate ReportOk(s: State, k: Kind) {
    Processed(s, k) == s.loops[k].returned.tally.processed && Failed(s, k) == s.loops[k].returned.tally.failed
  }

  ghost predicate Accounted(s: State) {
    forall k: Kind :: CountsOk(s.loops[k]) && ReportOk(s, k)
  }

  lemma {:induction false} ReportedAdds(m: map<Kind, Tally>, kind: Kind, done: Drained, k: Kind)
    ensures ProcessedIn(Reported(m, kind, done), k) == ProcessedIn(m, k) + if k == kind then done.tally.processed else 0
    ensures FailedIn(Reported(m, kind, done), k) == FailedIn(m, k) + if k == kind then done.tally.failed else 0
  {
  }

  lemma {:induction false} PassCounts(s: State, l: Loop, done: Drained)
    requires l.taken == Taken(l.returned) + Taken(l.lost) + Taken(done) && l.started == l.taken
    ensures CountsOk(AfterPass(s, l, done))
  {
  }

  lemma {:induction false} ResumedCounts(s: State, l: Loop)
    requires CountsOk(l)
    ensures CountsOk(Resumed(s, l))
  {
    match l.phase
    case Refused => PassCounts(s, l, l.pass);
    case Settled(v, _, _) =>
      assert Taken(Count(l.pass, v)) == Taken(l.pass) + InHand(l.phase);
      if !GoesOn(s, Count(l.pass, v)) { PassCounts(s, l, Count(l.pass, v)); }
    case _ =>
  }

  lemma {:induction false} OwnStepsCount(s: State, l: Loop, v: Verdict, due: int, scope: string)
    requires CountsOk(l)
    ensures CountsOk(Executed(l, v, due, scope))
    ensures CountsOk(SettledLoop(s.tasks, l))
  {
  }

  lemma {:induction false} ThrownCounts(l: Loop)
    requires CountsOk(l)
    ensures CountsOk(ThrownLoop(l))
  {
  }

  lemma {:induction false} CountsStep(s: State, a: Action)
    requires ByLoop(a) && CountsOk(s.loops[a.kind])
    ensures CountsOk(LoopAfter(s, a))
  {
    var l := s.loops[a.kind];
    match a
    case Resume(_) => ResumedCounts(s, l);
    case Execute(_, v, due, scope) => OwnStepsCount(s, l, v, due, scope);
    case Settle(_, _) => OwnStepsCount(s, l, Wrote, 0, "");
    case Throw(_) => ThrownCounts(l);
    case _ =>
  }

  /** A loop's returned counts grow by exactly the pass it reports. */
  lemma {:induction false} ReturnsWhatItReports(s: State, a: Action)
    requires ByLoop(a)
    ensures var l, done := s.loops[a.kind], ReturnedPass(s, s.loops[a.kind]);
            LoopAfter(s, a).returned == if a.Resume? && done.Some? then Plus(l.returned, done.value) else l.returned
  {
  }

  /** The counts of the pass a queue returns in a step, if it returns one. */
  ghost function Returning(s: State, a: Action, k: Kind): Option<Drained> {
    if a.Resume? && a.kind == k then ReturnedPass(s, s.loops[k]) else None
  }

  lemma {:induction false} FlushMoves(s: State, k: Kind)
    ensures Processed(Step(s, Flush), k) == Processed(s, k) && Failed(Step(s, Flush), k) == Failed(s, k)
  {
    var before, drained := s.flushed, s.unreported;
    var after := FlushedWith(before, drained);
    assert ProcessedIn(after, k) == ProcessedIn(before, k) + ProcessedIn(drained, k);
    assert FailedIn(after, k) == FailedIn(before, k) + FailedIn(drained, k);
  }

  lemma {:induction false} ResumeUnreported(s: State, kind: Kind)
    ensures var t, done := Step(s, Resume(kind)), ReturnedPass(s, s.loops[kind]);
            t.flushed == s.flushed
            && t.unreported == if done.Some? then Reported(s.unreported, kind, done.value) else s.unreported
  {
  }

  lemma {:induction false} OthersReportNothing(s: State, a: Action)
    requires !a.Flush? && !a.Resume?
    ensures Step(s, a).unreported == s.unreported && Step(s, a).flushed == s.flushed
  {
  }

  /** Those totals before and after a pass was reported, or none was. */
  ghost predicate GrewBy(s: State, t: State, k: Kind, done: Option<Drained>) {
    && Processed(t, k) == Processed(s, k) + (if done.Some? then done.value.tally.processed else 0)
    && Failed(t, k) == Failed(s, k) + (if done.Some? then done.value.tally.failed else 0)
  }

  lemma {:induction false} GrewByReported(s: State, t: State, kind: Kind, done: Drained, k: Kind)
    requires t.flushed == s.flushed && t.unreported == Reported(s.unreported, kind, done)
    ensures GrewBy(s, t, k, if kind == k then Some(done) else None)
  {
    ReportedAdds(s.unreported, kind, done, k);
  }

  /** They grow by the pass the queue returns. */
  lemma {:induction false} ReportedStep(s: State, a: Action, k: Kind)
    ensures GrewBy(s, Step(s, a), k, Returning(s, a, k))
  {
    if a.Flush? {
      FlushMoves(s, k);
    } else if a.Resume? {
      ResumeUnreported(s, a.kind);
      var done := ReturnedPass(s, s.loops[a.kind]);
      if done.Some? {
        GrewByReported(s, Step(s, a), a.kind, done.value, k);
      }
    } else {
      OthersReportNothing(s, a);
    }
  }

  lemma {:induction false} ReportStep(s: State, a: Action, k: Kind)
    requires ReportOk(s, k)
    ensures ReportOk(Step(s, a), k)
  {
    ReportedStep(s, a, k);
    if ByLoop(a) && a.kind == k {
      ReturnsWhatItReports(s, a);
      assert Step(s, a).loops[k] == LoopAfter(s, a);
    } else {
      assert Step(s, a).loops[k] == s.loops[k];
    }
  }

  lemma {:induction false} AccountsStep(s: State, a: Action, k: Kind)
    requires CountsOk(s.loops[k]) && ReportOk(s, k)
    ensures CountsOk(Step(s, a).loops[k]) && ReportOk(Step(s, a), k)
  {
    ReportStep(s, a, k);
    if ByLoop(a) && a.kind == k {
      CountsStep(s, a);
      assert Step(s, a).loops[k] == LoopAfter(s, a);
    } else {
      assert Step(s, a).loops[k] == s.loops[k];
    }
  }

  lemma {:induction false} AccountsKept(s: State, actions: seq<Action>, k: Kind)
    requires CountsOk(s.loops[k]) && ReportOk(s, k)
    ensures CountsOk(Run(s, actions).loops[k]) && ReportOk(Run(s, actions), k)
    decreases |actions|
  {
    if actions != [] {
      AccountsStep(s, actions[0], k);
      AccountsKept(Step(s, actions[0]), actions[1..], k);
    }
  }

  /**
   * In every run, each task a loop has taken is counted exactly once: as
   * processed or failed, and then it has been flushed or will be; as deferred;
   * in a pass that threw; or in the pass still going on, where at most one is
   * in hand. No pass takes more than its budget.
   */
  lemma {:induction false} EveryTaskCountedOnce(s: State, actions: seq<Action>, k: Kind)
    requires Starts(s)
    ensures var t := Run(s, actions);
            var l := t.loops[k];
            && Processed(t, k) == l.returned.tally.processed && Failed(t, k) == l.returned.tally.failed
            && l.taken == Processed(t, k) + Failed(t, k) + l.returned.deferred
                          + Taken(l.lost) + Taken(l.pass) + InHand(l.phase)
            && Taken(l.pass) + InHand(l.phase) <= BUDGET
  {
    StartsAccounted(s);
    AccountsKept(s, actions, k);
  }

  /** A pass is abandoned with something counted in it. */
  ghost predicate LosesCounts(s: State, a: Action, k: Kind) {
    a.Throw? && a.kind == k && EndsInThrow(s.loops[k].phase) && Taken(s.loops[k].pass) > 0
  }

  ghost predicate EverLosesCounts(s: State, actions: seq<Action>, k: Kind)
    decreases |actions|
  {
    actions != [] && (LosesCounts(s, actions[0], k) || EverLosesCounts(Step(s, actions[0]), actions[1..], k))
  }

  lemma {:induction false} LostStep(s: State, a: Action, k: Kind)
    ensures Taken(Step(s, a).loops[k].lost) >= Taken(s.loops[k].lost)
    ensures Taken(Step(s, a).loops[k].lost) > Taken(s.loops[k].lost) <==> LosesCounts(s, a, k)
  {
    if ByLoop(a) {
      assert Step(s, a).loops[a.kind] == LoopAfter(s, a);
    }
  }

  /**
   * Counts are lost exactly when a claim or the writing of a failure is rejected in a pass that has
   * counted something.
   */
  lemma {:induction false} LostExactlyWhenAPassThrows(s: State, actions: seq<Action>, k: Kind)
    ensures Taken(Run(s, actions).loops[k].lost) >= Taken(s.loops[k].lost)
    ensures Taken(Run(s, actions).loops[k].lost) > Taken(s.loops[k].lost) <==> EverLosesCounts(s, actions, k)
    decreases |actions|
  {
    if actions != [] {
      LostStep(s, actions[0], k);
      LostExactlyWhenAPassThrows(Step(s, actions[0]), actions[1..], k);
    }
  }

  /**
   * So from the start of the process the reports account for every task, but for those put back or
   * at hand, exactly then.
   */
  lemma {:induction false} ReportsAddUpExactlyWhen(s: State, actions: seq<Action>, k: Kind)
    requires Starts(s)
    ensures var t := Run(s, actions);
            var l := t.loops[k];
            (l.taken == Processed(t, k) + Failed(t, k) + l.returned.deferred + Taken(l.pass) + InHand(l.phase))
            <==> !EverLosesCounts(s, actions, k)
  {
    EveryTaskCountedOnce(s, actions, k);
    LostExactlyWhenAPassThrows(s, actions, k);
  }

  // ---- pausing and stopping

  /** The gate stays shut through a run: the platform is paused, or the process is stopping. */
  ghost predicate ShutThroughout(s: State, actions: seq<Action>)
    decreases |actions|
  {
    !Open(s) && (actions != [] ==> ShutThroughout(Step(s, actions[0]), actions[1..]))
  }

  /** Whether a loop has already asked for its next task. */
  function MayStart(p: Phase): nat {
    if p.Asking? || p.Looked? || p.Granted? then 1 else 0
  }

  lemma {:induction false} ShutLoop(s: State, a: Action)
    requires !Open(s) && ByLoop(a)
    ensures LoopAfter(s, a).started + MayStart(LoopAfter(s, a).phase)
         <= s.loops[a.kind].started + MayStart(s.loops[a.kind].phase)
  {
  }

  lemma {:induction false} ShutStep(s: State, a: Action, k: Kind)
    requires !Open(s)
    ensures Step(s, a).loops[k].started + MayStart(Step(s, a).loops[k].phase)
         <= s.loops[k].started + MayStart(s.loops[k].phase)
  {
    if ByLoop(a) {
      ShutLoop(s, a);
    }
  }

  /** While the gate is shut each loop starts at most one more task, and none unless it had already asked for it. */
  lemma {:induction false} AtMostOneMore(s: State, actions: seq<Action>, k: Kind)
    requires ShutThroughout(s, actions)
    ensures Run(s, actions).loops[k].started <= s.loops[k].started + MayStart(s.loops[k].phase)
    decreases |actions|
  {
    if actions == [] {
    } else {
      ShutStep(s, actions[0], k);
      ShutThenOn(s, actions, k);
    }
  }

  lemma {:induction false} ShutThenOn(s: State, actions: seq<Action>, k: Kind)
    requires ShutThroughout(s, actions)
    ensures var t := Run(s, actions);
            t.loops[k].started + MayStart(t.loops[k].phase) <= s.loops[k].started + MayStart(s.loops[k].phase)
    decreases |actions|
  {
    if actions != [] {
      ShutStep(s, actions[0], k);
      ShutThenOn(Step(s, actions[0]), actions[1..], k);
    }
  }

  lemma {:induction false} StartsAccounted(s: State)
    requires Starts(s)
    ensures Accounted(s) && !Open(s)
  {
    forall k: Kind ensures CountsOk(s.loops[k]) && ReportOk(s, k) {
      assert s.loops[k].phase == Resting;
    }
  }
}
