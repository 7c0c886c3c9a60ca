/** When the current lease holder's result is committed, and the runs in which it is not. */
module IngestRuns {
  import opened JsStrings
  import opened JsonText
  import opened Policy
  import opened Ingest
  import opened IngestInvariant
  import opened IngestExactness

  /** One delivery from its first statement to its answer, with nothing in between. */
  function Undisturbed(
      hostOf: UrlParser, s: State, call: nat, e: Envelope, worker: string, view: View, why: Violation): State {
    var next := Advance(call, view, why);
    Run(hostOf, s, [Deliver(call, e, worker), next, next, next, next])
  }

  /** A run is its states, one step after the other. */
  lemma {:induction false} RunsTo(hostOf: UrlParser, s: State, actions: seq<Action>, states: seq<State>)
    requires |actions| == |states| && actions != []
    requires states[0] == Step(hostOf, s, actions[0])
    requires forall i :: 0 < i < |states| ==> states[i] == Step(hostOf, states[i - 1], actions[i])
    ensures Run(hostOf, s, actions) == states[|states| - 1]
    decreases |actions|
  {
    if |actions| == 1 {
      assert actions[1..] == [];
    } else {
      RunsTo(hostOf, states[0], actions[1..], states[1..]);
    }
  }

  lemma {:induction false} RunFour(hostOf: UrlParser, s: State, first: Action, next: Action)
    ensures Run(hostOf, s, [first, next, next, next, next])
         == Step(hostOf, Step(hostOf, Step(hostOf, Step(hostOf, Step(hostOf, s, first), next), next), next), next)
  {
    var t := Step(hostOf, s, first);
    var u := Step(hostOf, t, next);
    var v := Step(hostOf, u, next);
    var w := Step(hostOf, v, next);
    RunsTo(hostOf, s, [first, next, next, next, next], [t, u, v, w, Step(hostOf, w, next)]);
  }

  /** The delivery has been read and recorded. */
  lemma {:induction false} AfterTwoStatements(
      hostOf: UrlParser, s: State, call: nat, e: Envelope, worker: string, view: View, why: Violation)
    requires call !in s.calls && HasLease(s, e.jobId, e.leaseId) && s.jobs[e.jobId].lease.value.worker == worker
    requires e.failure == None
    ensures var next := Advance(call, view, why);
            var t := Step(hostOf, Step(hostOf, Step(hostOf, s, Deliver(call, e, worker)), next), next);
            var key, job := e.idempotencyKey, s.jobs[e.jobId];
            && t.jobs == s.jobs && call in t.calls && key in t.rows
            && (forall k :: k in t.rows && k != key ==> k in s.rows && t.rows[k] == s.rows[k])
            && (forall k :: k in s.rows ==> k in t.rows)
            && t.rows[key] == (if key in s.rows then s.rows[key] else Row(e, worker, job.attempt, RECEIVED, None, None))
            && t.calls[call] == Call(e, worker,
                 if key in s.rows && s.rows[key].state != RECEIVED then Done(PriorOutcome(s.rows[key]), true)
                     else Validate,
                 Some(job))
  {
  }

  /** Whether the submission a delivery meets can still be committed. */
  ghost predicate CanStillCommit(s: State, e: Envelope) {
    var key := e.idempotencyKey;
    key !in s.rows || (s.rows[key].state == RECEIVED && !JobCommitted(s, s.rows[key].envelope.jobId))
  }

  /**
   * The current lease holder delivers a result that passes the policy, and
   * nothing overtakes it. It is committed if and only if its key is new, or
   * its submission is still waiting and belongs to a job without a commit.
   */
  lemma {:induction false} HolderCommitsExactlyWhen(
      hostOf: UrlParser, s: State, call: nat, e: Envelope, worker: string, view: View, why: Violation)
    requires Inv(hostOf, s) && Agree(s)
    requires call !in s.calls && HasLease(s, e.jobId, e.leaseId) && s.jobs[e.jobId].lease.value.worker == worker
    requires e.failure == None && PolicyHolds(hostOf, e, s.jobs[e.jobId].bundleSha256, view)
    ensures var t := Undisturbed(hostOf, s, call, e, worker, view, why);
            && e.jobId in t.jobs && call in t.calls
            && (t.jobs[e.jobId].state == SUCCEEDED <==> CanStillCommit(s, e))
            && (t.calls[call].phase == Done(Committed, false) <==> CanStillCommit(s, e))
  {
    var next := Advance(call, view, why);
    RunFour(hostOf, s, Deliver(call, e, worker), next);
    AfterTwoStatements(hostOf, s, call, e, worker, view, why);
    var t := Step(hostOf, Step(hostOf, Step(hostOf, s, Deliver(call, e, worker)), next), next);
    JobCommittedFrame(s, t, e.idempotencyKey);
    LastTwoStatements(hostOf, s, t, call, e, worker, view, why);
  }

  lemma {:induction false} JobCommittedFrame(s: State, t: State, key: string)
    requires forall k :: k in t.rows && k != key ==> k in s.rows && t.rows[k] == s.rows[k]
    requires forall k :: k in s.rows ==> k in t.rows
    requires key in t.rows && if key in s.rows then t.rows[key] == s.rows[key] else t.rows[key].state == RECEIVED
    ensures forall id :: JobCommitted(t, id) <==> JobCommitted(s, id)
  {
    forall id ensures JobCommitted(t, id) <==> JobCommitted(s, id) {
      if JobCommitted(s, id) {
        var k :| k in s.rows && s.rows[k].state == COMMITTED && s.rows[k].envelope.jobId == id;
        assert t.rows[k] == s.rows[k];
      }
    }
  }

  lemma {:induction false} LastTwoStatements(
      hostOf: UrlParser, s: State, t: State, call: nat, e: Envelope, worker: string, view: View, why: Violation)
    requires Agree(s) && HasLease(s, e.jobId, e.leaseId) && t.jobs == s.jobs && call in t.calls
    requires PolicyHolds(hostOf, e, s.jobs[e.jobId].bundleSha256, view)
    requires var key := e.idempotencyKey;
             && key in t.rows && (if key in s.rows then t.rows[key] == s.rows[key]
                                  else t.rows[key].state == RECEIVED && t.rows[key].envelope == e)
             && (forall id :: JobCommitted(t, id) <==> JobCommitted(s, id))
             && t.calls[call] == Call(e, worker,
                  if key in s.rows && s.rows[key].state != RECEIVED then Done(PriorOutcome(s.rows[key]), true)
                      else Validate,
                  Some(s.jobs[e.jobId]))
    ensures var next := Advance(call, view, why);
            var u := Step(hostOf, Step(hostOf, t, next), next);
            && e.jobId in u.jobs && call in u.calls
            && (u.jobs[e.jobId].state == SUCCEEDED <==> CanStillCommit(s, e))
            && (u.calls[call].phase == Done(Committed, false) <==> CanStillCommit(s, e))
  {
    assert !JobCommitted(s, e.jobId);
    if t.calls[call].phase == Validate {
      ValidThenCommit(hostOf, t, call, e, worker, view, why);
      assert CanCommit(t, e) <==> CanStillCommit(s, e);
    }
  }

  lemma {:induction false} ValidThenCommit(
      hostOf: UrlParser, t: State, call: nat, e: Envelope, worker: string, view: View, why: Violation)
    requires call in t.calls && HasLease(t, e.jobId, e.leaseId)
    requires t.calls[call] == Call(e, worker, Validate, Some(t.jobs[e.jobId]))
    requires PolicyHolds(hostOf, e, t.jobs[e.jobId].bundleSha256, view)
    ensures var next := Advance(call, view, why);
            var u := Step(hostOf, Step(hostOf, t, next), next);
            && e.jobId in u.jobs && call in u.calls
            && (u.jobs[e.jobId].state == SUCCEEDED <==> CanCommit(t, e))
            && (u.calls[call].phase == Done(Committed, false) <==> CanCommit(t, e))
  {
    var u := Step(hostOf, t, Advance(call, view, why));
    assert u.jobs == t.jobs && u.rows == t.rows && u.calls[call].phase == Commit(view) && u.calls[call].envelope == e;
    assert CanCommit(u, e) <==> CanCommit(t, e) by {
      assert forall id :: JobCommitted(u, id) <==> JobCommitted(t, id);
    }
  }

  // ---- runs that show what the conditions exclude

  /** A job, the bundle it is pinned to, and what the policy gate reads: arbitrary in every run below. */
  datatype Setting = Setting(job: string, sha: string, view: View)

  /** The job leased for its first attempt. */
  function Leased(x: Setting, worker: string, leaseId: nat): Job {
    Job(x.sha, 3, LEASED, 1, Some(Lease(leaseId, worker, 60)), false)
  }

  function FirstLease(x: Setting): State {
    INITIAL.(jobs := map[x.job := Leased(x, "a", 1)], issued := map[1 := Grant(x.job, "a", 1)])
  }

  /** The job is created and leased to worker "a" as lease 1. */
  function Opening(x: Setting): seq<Action> {
    [Create(x.job, x.sha, 3), Claim(x.job, 1, "a", 60)]
  }

  lemma {:induction false} FirstLeaseReached(hostOf: UrlParser, x: Setting)
    ensures Run(hostOf, INITIAL, Opening(x)) == FirstLease(x)
  {
    var s := Step(hostOf, INITIAL, Create(x.job, x.sha, 3));
    assert Step(hostOf, s, Claim(x.job, 1, "a", 60)) == FirstLease(x);
    RunsTo(hostOf, INITIAL, Opening(x), [s, FirstLease(x)]);
  }

  /** A run from the first lease is one from the empty store. */
  lemma {:induction false} FromFirstLease(hostOf: UrlParser, x: Setting, actions: seq<Action>)
    ensures Run(hostOf, INITIAL, Opening(x) + actions) == Run(hostOf, FirstLease(x), actions)
  {
    FirstLeaseReached(hostOf, x);
    RunsOn(hostOf, INITIAL, Opening(x), actions);
  }

  /** A result under the job's first lease that passes the policy. */
  predicate Passes(hostOf: UrlParser, x: Setting, e: Envelope, leaseId: nat) {
    e.jobId == x.job && e.leaseId == leaseId && e.failure == None && PolicyHolds(hostOf, e, x.sha, x.view)
  }

  function At(x: Setting, job: Job, rows: map<string, Row>, calls: map<nat, Call>): State {
    FirstLease(x).(jobs := map[x.job := job], rows := rows, calls := calls)
  }

  /** Two runs, one after the other. */
  lemma {:induction false} RunsOn(hostOf: UrlParser, s: State, first: seq<Action>, next: seq<Action>)
    ensures Run(hostOf, s, first + next) == Run(hostOf, Run(hostOf, s, first), next)
    decreases |first|
  {
    if first == [] {
      assert first + next == next;
    } else {
      assert (first + next)[1..] == first[1..] + next;
      RunsOn(hostOf, Step(hostOf, s, first[0]), first[1..], next);
    }
  }

  /** Two runs in a row, each known by where it ends. */
  lemma {:induction false} RunsThrough(
      hostOf: UrlParser, s: State, t: State, u: State, first: seq<Action>, next: seq<Action>)
    requires Run(hostOf, s, first) == t && Run(hostOf, t, next) == u
    ensures Run(hostOf, s, first + next) == u
  {
    RunsOn(hostOf, s, first, next);
  }

  function N(x: Setting, call: nat): Action { Advance(call, x.view, BundleMismatch) }

  /** A first delivery up to its recorded submission. */
  function First(x: Setting, e: Envelope): seq<Action> { [Deliver(0, e, "a"), N(x, 0), N(x, 0)] }

  function NewRow(e: Envelope): Row { Row(e, "a", 1, RECEIVED, None, None) }

  function Sent(e: Envelope, worker: string, phase: Phase, snapshot: Option<Job>): Call {
    Call(e, worker, phase, snapshot)
  }

  function LeasedA(x: Setting): Job { Leased(x, "a", 1) }

  function WaitingA(x: Setting): Job { LeasedA(x).(state := PENDING, lease := None) }

  /** The first delivery up to its recorded submission. */
  function Recorded(x: Setting, e: Envelope): State {
    At(x, LeasedA(x), map[e.idempotencyKey := NewRow(e)],
       map[0 := Sent(e, "a", AfterRecord(LeasedA(x), e, "a"), Some(LeasedA(x)))])
  }

  /** A delivery under a new key, up to its recorded submission. */
  lemma {:induction false} RecordsNew(hostOf: UrlParser, x: Setting, s: State, e: Envelope, worker: string)
    requires 0 !in s.calls && e.jobId in s.jobs && e.idempotencyKey !in s.rows
    ensures var job := s.jobs[e.jobId];
            Run(hostOf, s, [Deliver(0, e, worker), N(x, 0), N(x, 0)])
              == s.(rows := s.rows[e.idempotencyKey := Row(e, worker, job.attempt, RECEIVED, None, None)],
                    calls := s.calls[0 := Sent(e, worker, AfterRecord(job, e, worker), Some(job))])
  {
    var job := s.jobs[e.jobId];
    var a := s.(calls := s.calls[0 := Sent(e, worker, ReadJob, None)]);
    var b := s.(calls := s.calls[0 := Sent(e, worker, Record, Some(job))]);
    var t := s.(rows := s.rows[e.idempotencyKey := Row(e, worker, job.attempt, RECEIVED, None, None)],
                calls := s.calls[0 := Sent(e, worker, AfterRecord(job, e, worker), Some(job))]);
    assert Step(hostOf, s, Deliver(0, e, worker)) == a;
    assert Step(hostOf, a, N(x, 0)) == b;
    assert Step(hostOf, b, N(x, 0)) == t;
    RunsTo(hostOf, s, [Deliver(0, e, worker), N(x, 0), N(x, 0)], [a, b, t]);
  }

  lemma {:induction false} RecordedReached(hostOf: UrlParser, x: Setting, e: Envelope)
    requires e.jobId == x.job
    ensures Run(hostOf, FirstLease(x), First(x, e)) == Recorded(x, e)
  {
    RecordsNew(hostOf, x, FirstLease(x), e, "a");
  }

  // -- a failure, delivered again

  function FailedRow(e: Envelope): Row {
    NewRow(e).(state := SUPERSEDED, reason := Some(WorkerReported(TRANSIENT)), judge := Some(0))
  }

  function FailureJudged(x: Setting, e: Envelope): State {
    At(x, WaitingA(x), map[e.idempotencyKey := FailedRow(e)],
       map[0 := Sent(e, "a", Done(JobFailed(Requeued), false), Some(LeasedA(x)))])
  }

  function FailureWritten(x: Setting, e: Envelope): State {
    At(x, WaitingA(x), map[e.idempotencyKey := NewRow(e)],
       map[0 := Sent(e, "a", MarkFailed(TRANSIENT, Requeued), Some(LeasedA(x)))])
  }

  lemma {:induction false} FailureMarked(hostOf: UrlParser, x: Setting, e: Envelope)
    requires e.jobId == x.job
    ensures Step(hostOf, FailureWritten(x, e), N(x, 0)) == FailureJudged(x, e)
  {
  }

  lemma {:induction false} FailureJudgedReached(hostOf: UrlParser, x: Setting, e: Envelope)
    requires e.jobId == x.job && e.leaseId == 1 && e.failure == Some(TRANSIENT)
    ensures Run(hostOf, Recorded(x, e), [N(x, 0), N(x, 0), N(x, 0)]) == FailureJudged(x, e)
  {
    var rows := map[e.idempotencyKey := NewRow(e)];
    var a := At(x, LeasedA(x), rows, map[0 := Sent(e, "a", WriteFailing(TRANSIENT, false), Some(LeasedA(x)))]);
    var b := FailureWritten(x, e);
    assert Step(hostOf, Recorded(x, e), N(x, 0)) == a;
    assert Step(hostOf, a, N(x, 0)) == b;
    FailureMarked(hostOf, x, e);
    RunsTo(hostOf, Recorded(x, e), [N(x, 0), N(x, 0), N(x, 0)], [a, b, FailureJudged(x, e)]);
  }

  /** A second delivery, met by a judged submission. */
  lemma {:induction false} SecondIsReplayed(hostOf: UrlParser, x: Setting, s: State, e: Envelope, worker: string)
    requires 1 !in s.calls && e.jobId in s.jobs && e.idempotencyKey in s.rows
        && s.rows[e.idempotencyKey].state != RECEIVED
    ensures var t := Run(hostOf, s, [Deliver(1, e, worker), N(x, 1), N(x, 1)]);
            t == s.(calls := s.calls[1 := Sent(e, worker, Done(PriorOutcome(s.rows[e.idempotencyKey]), true),
              Some(s.jobs[e.jobId]))])
  {
    var a := s.(calls := s.calls[1 := Sent(e, worker, ReadJob, None)]);
    var b := s.(calls := s.calls[1 := Sent(e, worker, Record, Some(s.jobs[e.jobId]))]);
    var t := s.(calls := s.calls[1 := Sent(e, worker, Done(PriorOutcome(s.rows[e.idempotencyKey]), true),
        Some(s.jobs[e.jobId]))]);
    assert Step(hostOf, s, Deliver(1, e, worker)) == a;
    assert Step(hostOf, a, N(x, 1)) == b;
    assert Step(hostOf, b, N(x, 1)) == t;
    RunsTo(hostOf, s, [Deliver(1, e, worker), N(x, 1), N(x, 1)], [a, b, t]);
  }

  function Again(x: Setting, e: Envelope, worker: string): seq<Action> { [Deliver(1, e, worker), N(x, 1), N(x, 1)] }

  /** A failure is acknowledged as such once; the same delivery, repeated, is told it was superseded. */
  lemma {:induction false} FailureIsRepeatedAsSuperseded(hostOf: UrlParser, x: Setting, e: Envelope)
    requires e.jobId == x.job && e.leaseId == 1 && e.failure == Some(TRANSIENT)
    ensures var s := Run(hostOf, INITIAL,
        Opening(x) + (First(x, e) + ([N(x, 0), N(x, 0), N(x, 0)] + Again(x, e, "a"))));
            && 0 in s.calls && 1 in s.calls && s.calls[0].envelope == s.calls[1].envelope == e
            && s.calls[0].phase == Done(JobFailed(Requeued), false)
            && s.calls[1].phase == Done(Superseded, true)
  {
    var rest := [N(x, 0), N(x, 0), N(x, 0)];
    FromFirstLease(hostOf, x, First(x, e) + (rest + Again(x, e, "a")));
    RecordedReached(hostOf, x, e);
    FailureJudgedReached(hostOf, x, e);
    RunsOn(hostOf, FirstLease(x), First(x, e), rest + Again(x, e, "a"));
    RunsOn(hostOf, Recorded(x, e), rest, Again(x, e, "a"));
    SecondIsReplayed(hostOf, x, FailureJudged(x, e), e, "a");
  }

  // -- a pause that gives the attempt back

  /** The first holder's late result is superseded, and the job is leased again under the same attempt number. */
  function PausedAndLeasedAgain(x: Setting, e: Envelope): State {
    At(x, Leased(x, "b", 2),
       map[e.idempotencyKey := Row(e, "a", 0, SUPERSEDED, Some(NotCurrent), Some(0))],
       map[0 := Sent(e, "a", Done(Superseded, false), Some(WaitingA(x).(attempt := 0)))])
      .(issued := map[1 := Grant(x.job, "a", 1), 2 := Grant(x.job, "b", 1)])
  }

  function LateThenLeased(x: Setting, e: Envelope): seq<Action> {
    [Release(x.job, 1)] + First(x, e) + [N(x, 0), Claim(x.job, 2, "b", 60)]
  }

  /** The late delivery has been recorded, against the job as the pause left it. */
  function LateRecorded(x: Setting, e: Envelope): State {
    At(x, WaitingA(x).(attempt := 0), map[e.idempotencyKey := Row(e, "a", 0, RECEIVED, None, None)],
       map[0 := Sent(e, "a", MarkStale, Some(WaitingA(x).(attempt := 0)))])
  }

  lemma {:induction false} LateRecordedReached(hostOf: UrlParser, x: Setting, e: Envelope)
    requires e.jobId == x.job
    ensures Run(hostOf, FirstLease(x), [Release(x.job, 1)] + First(x, e)) == LateRecorded(x, e)
  {
    var a := At(x, WaitingA(x).(attempt := 0), map[], map[]);
    assert Step(hostOf, FirstLease(x), Release(x.job, 1)) == a;
    RunsTo(hostOf, FirstLease(x), [Release(x.job, 1)], [a]);
    RecordsNew(hostOf, x, a, e, "a");
    RunsThrough(hostOf, FirstLease(x), a, LateRecorded(x, e), [Release(x.job, 1)], First(x, e));
  }

  lemma {:induction false} PausedReached(hostOf: UrlParser, x: Setting, e: Envelope)
    requires e.jobId == x.job
    ensures Run(hostOf, FirstLease(x), LateThenLeased(x, e)) == PausedAndLeasedAgain(x, e)
  {
    var idle := WaitingA(x).(attempt := 0);
    var row := Row(e, "a", 0, SUPERSEDED, Some(NotCurrent), Some(0));
    var a := At(x, idle, map[e.idempotencyKey := row], map[0 := Sent(e, "a", Done(Superseded, false), Some(idle))]);
    LateRecordedReached(hostOf, x, e);
    assert Step(hostOf, LateRecorded(x, e), N(x, 0)) == a;
    assert Step(hostOf, a, Claim(x.job, 2, "b", 60)) == PausedAndLeasedAgain(x, e);
    RunsTo(hostOf, LateRecorded(x, e), [N(x, 0), Claim(x.job, 2, "b", 60)], [a, PausedAndLeasedAgain(x, e)]);
    RunsThrough(hostOf, FirstLease(x), LateRecorded(x, e), PausedAndLeasedAgain(x, e),
                [Release(x.job, 1)] + First(x, e), [N(x, 0), Claim(x.job, 2, "b", 60)]);
  }

  /**
   * After a pause two leases share one attempt number and so one key: the
   * second holder's result, good in every respect, is answered with the first
   * holder's verdict and never committed.
   */
  lemma {:induction false} PauseLosesResult(hostOf: UrlParser, x: Setting, late: Envelope, good: Envelope)
    requires late.jobId == x.job && late.idempotencyKey == ResultKey(x.job, 1)
    requires Passes(hostOf, x, good, 2) && good.idempotencyKey == ResultKey(x.job, 1)
    ensures var s := Run(hostOf, INITIAL, Opening(x) + (LateThenLeased(x, late) + Again(x, good, "b")));
            && HasLease(s, x.job, 2) && s.jobs[x.job].lease.value.worker == "b" && s.jobs[x.job].bundleSha256 == x.sha
            && s.jobs[x.job].attempt == 1
            && 1 in s.calls && s.calls[1].envelope == good && s.calls[1].worker == "b"
            && s.calls[1].phase == Done(Superseded, true) && !JobCommitted(s, x.job)
  {
    FromFirstLease(hostOf, x, LateThenLeased(x, late) + Again(x, good, "b"));
    PausedReached(hostOf, x, late);
    SecondIsReplayed(hostOf, x, PausedAndLeasedAgain(x, late), good, "b");
    RunsOn(hostOf, FirstLease(x), LateThenLeased(x, late), Again(x, good, "b"));
  }

  // -- what is stored is not what was checked

  /** A second delivery under the key of a submission that still waits. */
  lemma {:induction false} SecondJoins(hostOf: UrlParser, x: Setting, s: State, e: Envelope)
    requires 1 !in s.calls && e.jobId in s.jobs && e.idempotencyKey in s.rows
        && s.rows[e.idempotencyKey].state == RECEIVED
    ensures var job := s.jobs[e.jobId];
            Run(hostOf, s, Again(x, e, "a"))
              == s.(calls := s.calls[1 := Sent(e, "a", AfterRecord(job, e, "a"), Some(job))])
  {
    var job := s.jobs[e.jobId];
    var a := s.(calls := s.calls[1 := Sent(e, "a", ReadJob, None)]);
    var b := s.(calls := s.calls[1 := Sent(e, "a", Record, Some(job))]);
    var t := s.(calls := s.calls[1 := Sent(e, "a", AfterRecord(job, e, "a"), Some(job))]);
    assert Step(hostOf, s, Deliver(1, e, "a")) == a;
    assert Step(hostOf, a, N(x, 1)) == b;
    assert Step(hostOf, b, N(x, 1)) == t;
    RunsTo(hostOf, s, Again(x, e, "a"), [a, b, t]);
  }

  /** One delivery validates and commits the submission with its key. */
  lemma {:induction false} ValidatesAndCommits(hostOf: UrlParser, x: Setting, s: State, call: nat, e: Envelope)
    requires call in s.calls && s.calls[call] == Sent(e, "a", Validate, Some(LeasedA(x)))
    requires PolicyHolds(hostOf, e, x.sha, x.view) && CanCommit(s, e)
    ensures var row := s.rows[e.idempotencyKey];
            Run(hostOf, s, [N(x, call), N(x, call)])
              == s.(jobs := s.jobs[e.jobId := s.jobs[e.jobId].(state := SUCCEEDED)],
                    rows := s.rows[e.idempotencyKey := row.(state := COMMITTED, judge := Some(call))],
                    calls := s.calls[call := Sent(e, "a", Done(Committed, false), Some(LeasedA(x)))])
  {
    var row := s.rows[e.idempotencyKey];
    var a := s.(calls := s.calls[call := Sent(e, "a", Commit(x.view), Some(LeasedA(x)))]);
    var t := s.(jobs := s.jobs[e.jobId := s.jobs[e.jobId].(state := SUCCEEDED)],
                rows := s.rows[e.idempotencyKey := row.(state := COMMITTED, judge := Some(call))],
                calls := s.calls[call := Sent(e, "a", Done(Committed, false), Some(LeasedA(x)))]);
    assert Step(hostOf, s, N(x, call)) == a;
    assert CanCommit(a, e) by {
      assert forall id :: JobCommitted(a, id) <==> JobCommitted(s, id);
    }
    assert Step(hostOf, a, N(x, call)) == t;
    RunsTo(hostOf, s, [N(x, call), N(x, call)], [a, t]);
  }

  function Dropped(x: Setting, e: Envelope): State {
    At(x, LeasedA(x), map[e.idempotencyKey := NewRow(e)], map[0 := Sent(e, "a", Crashed, Some(LeasedA(x)))])
  }

  function CrashThenOther(x: Setting, e: Envelope): seq<Action> {
    [Crash(0)] + (Again(x, e, "a") + [N(x, 1), N(x, 1)])
  }

  function StoredAndCommitted(x: Setting, first: Envelope, second: Envelope): State {
    At(x, LeasedA(x).(state := SUCCEEDED),
       map[first.idempotencyKey := NewRow(first).(state := COMMITTED, judge := Some(1))],
       map[0 := Sent(first, "a", Crashed, Some(LeasedA(x))),
         1 := Sent(second, "a", Done(Committed, false), Some(LeasedA(x)))])
  }

  lemma {:induction false} StoredAndCommittedReached(hostOf: UrlParser, x: Setting, first: Envelope, second: Envelope)
    requires first.jobId == x.job && first.idempotencyKey == second.idempotencyKey && Passes(hostOf, x, second, 1)
    ensures Run(hostOf, Recorded(x, first), CrashThenOther(x, second)) == StoredAndCommitted(x, first, second)
  {
    var dropped := Dropped(x, first);
    var joined := dropped.(calls := dropped.calls[1 := Sent(second, "a", Validate, Some(LeasedA(x)))]);
    assert Step(hostOf, Recorded(x, first), Crash(0)) == Dropped(x, first);
    RunsTo(hostOf, Recorded(x, first), [Crash(0)], [Dropped(x, first)]);
    SecondJoins(hostOf, x, Dropped(x, first), second);
    ValidatesAndCommits(hostOf, x, joined, 1, second);
    RunsThrough(hostOf, Dropped(x, first), joined, StoredAndCommitted(x, first, second),
                Again(x, second, "a"), [N(x, 1), N(x, 1)]);
    RunsThrough(hostOf, Recorded(x, first), Dropped(x, first), StoredAndCommitted(x, first, second),
                [Crash(0)], Again(x, second, "a") + [N(x, 1), N(x, 1)]);
  }

  /**
   * Whatever result passes the policy, and whatever title it does not track:
   * when a delivery that claims the title is dropped after recording and the
   * good one follows under its key, the good one is checked and the other is
   * what the committed row holds.
   */
  lemma {:induction false} UncheckedEnvelopeCommitted(hostOf: UrlParser, x: Setting, e: Envelope, title: string)
    requires Passes(hostOf, x, e, 1) && title !in x.view.tracked
    ensures var first := e.(trackedMangadexIds := [title]);
            var s := Run(hostOf, INITIAL, Opening(x) + (First(x, first) + CrashThenOther(x, e)));
            && IsCommitted(s, e.idempotencyKey) && s.rows[e.idempotencyKey].envelope == first
            && !PolicyHolds(hostOf, s.rows[e.idempotencyKey].envelope, x.sha, x.view)
            && x.job in s.jobs && s.jobs[x.job].state == SUCCEEDED
            && 1 in s.calls && s.calls[1].envelope == e && s.calls[1].phase == Done(Committed, false)
  {
    var first := e.(trackedMangadexIds := [title]);
    FromFirstLease(hostOf, x, First(x, first) + CrashThenOther(x, e));
    RecordedReached(hostOf, x, first);
    StoredAndCommittedReached(hostOf, x, first, e);
    RunsThrough(hostOf, FirstLease(x), Recorded(x, first), StoredAndCommitted(x, first, e), First(x, first),
      CrashThenOther(x, e));
    assert title in first.trackedMangadexIds;
  }

  // -- a key two jobs share

  /** The lease holder's job, another that waits, and a dropped delivery for that one. */
  function OtherRecorded(x: Setting, other: string, first: Envelope): State {
    var waiting := Job(x.sha, 3, PENDING, 0, None, false);
    FirstLease(x).(jobs := map[x.job := LeasedA(x), other := waiting],
                   rows := map[first.idempotencyKey := Row(first, "a", 0, RECEIVED, None, None)],
                   calls := map[0 := Sent(first, "a", Crashed, Some(waiting))])
  }

  function OtherThenDropped(x: Setting, other: string, first: Envelope): seq<Action> {
    [Create(other, x.sha, 3)] + (First(x, first) + [Crash(0)])
  }

  lemma {:induction false} OtherRecordedReached(hostOf: UrlParser, x: Setting, other: string, first: Envelope)
    requires other != x.job && first.jobId == other
    ensures Run(hostOf, FirstLease(x), OtherThenDropped(x, other, first)) == OtherRecorded(x, other, first)
  {
    var waiting := Job(x.sha, 3, PENDING, 0, None, false);
    var a := FirstLease(x).(jobs := map[x.job := LeasedA(x), other := waiting]);
    var b := a.(rows := map[first.idempotencyKey := Row(first, "a", 0, RECEIVED, None, None)],
                calls := map[0 := Sent(first, "a", MarkStale, Some(waiting))]);
    assert Step(hostOf, FirstLease(x), Create(other, x.sha, 3)) == a;
    RunsTo(hostOf, FirstLease(x), [Create(other, x.sha, 3)], [a]);
    RecordsNew(hostOf, x, a, first, "a");
    assert Step(hostOf, b, Crash(0)) == OtherRecorded(x, other, first);
    RunsTo(hostOf, b, [Crash(0)], [OtherRecorded(x, other, first)]);
    RunsThrough(hostOf, a, b, OtherRecorded(x, other, first), First(x, first), [Crash(0)]);
    RunsThrough(hostOf, FirstLease(x), a, OtherRecorded(x, other, first), [Create(other, x.sha, 3)],
      First(x, first) + [Crash(0)]);
  }

  lemma {:induction false} JoinsOther(hostOf: UrlParser, x: Setting, other: string, first: Envelope, e: Envelope)
    requires other != x.job && first.jobId == other
        && first.idempotencyKey == e.idempotencyKey && Passes(hostOf, x, e, 1)
    ensures var s := Run(hostOf, OtherRecorded(x, other, first), Again(x, e, "a") + [N(x, 1), N(x, 1)]);
            && x.job in s.jobs && s.jobs[x.job].state == SUCCEEDED
            && other in s.jobs && s.jobs[other].state == PENDING
            && s.rows == map[e.idempotencyKey := Row(first, "a", 0, COMMITTED, None, Some(1))]
  {
    var s := OtherRecorded(x, other, first);
    var joined := s.(calls := s.calls[1 := Sent(e, "a", Validate, Some(LeasedA(x)))]);
    SecondJoins(hostOf, x, s, e);
    ValidatesAndCommits(hostOf, x, joined, 1, e);
    RunsOn(hostOf, s, Again(x, e, "a"), [N(x, 1), N(x, 1)]);
  }

  /**
   * A delivery for another job is recorded under a key and dropped; the holder
   * then delivers a good result under the same key. Its job is SUCCEEDED
   * without a committed submission, and the other has one and is not.
   */
  lemma {:induction false} OtherJobCommitted(hostOf: UrlParser, x: Setting, other: string, first: Envelope, e: Envelope)
    requires other != x.job && first.jobId == other
        && first.idempotencyKey == e.idempotencyKey && Passes(hostOf, x, e, 1)
    ensures var s := Run(hostOf, INITIAL,
        Opening(x) + (OtherThenDropped(x, other, first) + (Again(x, e, "a") + [N(x, 1), N(x, 1)])));
            && x.job in s.jobs && s.jobs[x.job].state == SUCCEEDED && !JobCommitted(s, x.job)
            && other in s.jobs && s.jobs[other].state == PENDING && JobCommitted(s, other)
            && !Agree(s)
  {
    var last := Again(x, e, "a") + [N(x, 1), N(x, 1)];
    FromFirstLease(hostOf, x, OtherThenDropped(x, other, first) + last);
    OtherRecordedReached(hostOf, x, other, first);
    RunsOn(hostOf, FirstLease(x), OtherThenDropped(x, other, first), last);
    JoinsOther(hostOf, x, other, first, e);
    var s := Run(hostOf, OtherRecorded(x, other, first), last);
    assert s.rows[e.idempotencyKey].state == COMMITTED && s.rows[e.idempotencyKey].envelope.jobId == other;
  }

  // -- two copies of one delivery in flight

  function BothValid(x: Setting, e: Envelope): State {
    Recorded(x, e).(calls := map[0 := Sent(e, "a", Validate, Some(LeasedA(x))),
      1 := Sent(e, "a", Validate, Some(LeasedA(x)))])
  }

  function FirstCommitted(x: Setting, e: Envelope): State {
    At(x, LeasedA(x).(state := SUCCEEDED), map[e.idempotencyKey := NewRow(e).(state := COMMITTED, judge := Some(0))],
       map[0 := Sent(e, "a", Done(Committed, false), Some(LeasedA(x))), 1 := Sent(e, "a", Validate, Some(LeasedA(x)))])
  }

  /** Both copies pass every gate, and the first commits. */
  function CopyThenCommit(x: Setting, e: Envelope): seq<Action> {
    First(x, e) + (Again(x, e, "a") + [N(x, 0), N(x, 0)])
  }

  lemma {:induction false} FirstCommittedReached(hostOf: UrlParser, x: Setting, e: Envelope)
    requires Passes(hostOf, x, e, 1)
    ensures Run(hostOf, FirstLease(x), CopyThenCommit(x, e)) == FirstCommitted(x, e)
  {
    RecordedReached(hostOf, x, e);
    SecondJoins(hostOf, x, Recorded(x, e), e);
    ValidatesAndCommits(hostOf, x, BothValid(x, e), 0, e);
    RunsThrough(hostOf, Recorded(x, e), BothValid(x, e), FirstCommitted(x, e), Again(x, e, "a"), [N(x, 0), N(x, 0)]);
    RunsThrough(hostOf, FirstLease(x), Recorded(x, e), FirstCommitted(x, e), First(x, e),
      Again(x, e, "a") + [N(x, 0), N(x, 0)]);
  }

  /** The copy that comes second at the commit is told it was superseded, though its submission is committed. */
  lemma {:induction false} CopyInFlightDisagrees(hostOf: UrlParser, x: Setting, e: Envelope)
    requires Passes(hostOf, x, e, 1)
    ensures var s := Run(hostOf, INITIAL, Opening(x) + (CopyThenCommit(x, e) + [N(x, 1), N(x, 1), N(x, 1)]));
            && IsCommitted(s, e.idempotencyKey) && s.rows[e.idempotencyKey].envelope == e
            && 0 in s.calls && s.calls[0].envelope == e && s.calls[0].phase == Done(Committed, false)
            && 1 in s.calls && s.calls[1].envelope == e && s.calls[1].phase == Done(Superseded, false)
  {
    var last := [N(x, 1), N(x, 1), N(x, 1)];
    FromFirstLease(hostOf, x, CopyThenCommit(x, e) + last);
    FirstCommittedReached(hostOf, x, e);
    RunsOn(hostOf, FirstLease(x), CopyThenCommit(x, e), last);
    LosesTheCommit(hostOf, x, FirstCommitted(x, e), e);
  }

  lemma {:induction false} LosesTheCommit(hostOf: UrlParser, x: Setting, s: State, e: Envelope)
    requires 1 in s.calls && s.calls[1] == Sent(e, "a", Validate, Some(LeasedA(x)))
        && PolicyHolds(hostOf, e, x.sha, x.view)
    requires IsCommitted(s, e.idempotencyKey)
    ensures Run(hostOf, s, [N(x, 1), N(x, 1), N(x, 1)])
         == s.(calls := s.calls[1 := Sent(e, "a", Done(Superseded, false), Some(LeasedA(x)))])
  {
    var a := s.(calls := s.calls[1 := Sent(e, "a", Commit(x.view), Some(LeasedA(x)))]);
    var b := s.(calls := s.calls[1 := Sent(e, "a", MarkLost, Some(LeasedA(x)))]);
    var t := s.(calls := s.calls[1 := Sent(e, "a", Done(Superseded, false), Some(LeasedA(x)))]);
    assert Step(hostOf, s, N(x, 1)) == a;
    CommitLost(hostOf, x, a, e);
    RunsTo(hostOf, s, [N(x, 1), N(x, 1), N(x, 1)], [a, b, t]);
  }

  lemma {:induction false} CommitLost(hostOf: UrlParser, x: Setting, s: State, e: Envelope)
    requires 1 in s.calls && s.calls[1] == Sent(e, "a", Commit(x.view), Some(LeasedA(x)))
        && IsCommitted(s, e.idempotencyKey)
    ensures var b := s.(calls := s.calls[1 := Sent(e, "a", MarkLost, Some(LeasedA(x)))]);
            && Step(hostOf, s, N(x, 1)) == b
            && Step(hostOf, b, N(x, 1))
               == s.(calls := s.calls[1 := Sent(e, "a", Done(Superseded, false), Some(LeasedA(x)))])
  {
  }
}
