/** Safety of ingestion over whole runs: exactly-once commits, stable verdicts, leases that end once. */
module IngestSafety {
  import opened JsStrings
  import opened JsonText
  import opened Policy
  import opened Ingest
  import opened IngestInvariant

  /** From the empty store, every run keeps the invariant and commits at most once per job. */
  lemma {:induction false} OneCommitPerJob(hostOf: UrlParser, actions: seq<Action>, k: string, l: string)
    requires var s := Run(hostOf, INITIAL, actions);
             IsCommitted(s, k) && IsCommitted(s, l) && s.rows[k].envelope.jobId == s.rows[l].envelope.jobId
    ensures Inv(hostOf, Run(hostOf, INITIAL, actions))
    ensures k == l
  {
    RunKeepsInv(hostOf, INITIAL, actions);
  }

  /**
   * At the instant a submission is committed the delivery's lease is current
   * and was issued to its sender for its job and attempt, the worker reported
   * no failure, and the policy held of the delivered envelope as this delivery
   * read it.
   */
  lemma {:induction false} CommitIsGated(hostOf: UrlParser, s: State, a: Action, key: string)
    requires Inv(hostOf, s) && !IsCommitted(s, key) && IsCommitted(Step(hostOf, s, a), key)
    ensures a.Advance? && a.call in s.calls && s.calls[a.call].phase.Commit?
    ensures var c := s.calls[a.call];
            && c.envelope.idempotencyKey == key && c.envelope.failure == None
            && HasLease(s, c.envelope.jobId, c.envelope.leaseId)
            && c.envelope.leaseId in s.issued
            && s.issued[c.envelope.leaseId] == Grant(c.envelope.jobId, c.worker, s.jobs[c.envelope.jobId].attempt)
            && PolicyHolds(hostOf, c.envelope, c.snapshot.value.bundleSha256, c.phase.view)
    ensures Step(hostOf, s, a).jobs[s.calls[a.call].envelope.jobId].state == SUCCEEDED
  {
    CommitsOne(hostOf, s, a, key);
    var c := s.calls[a.call];
    assert CallOk(hostOf, s, c) && JobOk(s, c.envelope.jobId);
  }

  // ---- verdicts

  /** A judged submission never changes again, in any run. */
  lemma {:induction false} VerdictIsFinal(hostOf: UrlParser, s: State, actions: seq<Action>, key: string)
    requires key in s.rows && s.rows[key].state != RECEIVED
    ensures key in Run(hostOf, s, actions).rows && Run(hostOf, s, actions).rows[key] == s.rows[key]
    decreases |actions|
  {
    if actions != [] {
      RowsEvolve(hostOf, s, actions[0]);
      assert RowEvolves(s, Step(hostOf, s, actions[0]), key);
      VerdictIsFinal(hostOf, Step(hostOf, s, actions[0]), actions[1..], key);
    }
  }

  /** A delivery that has not yet met its submission, or has answered from a judged one. */
  predicate Waiting(phase: Phase) {
    || phase.ReadJob? || phase.Record? || phase.Crashed?
    || phase == Done(Invalid, false) || (phase.Done? && phase.replayed)
  }

  predicate IsJudged(s: State, key: string) {
    key in s.rows && s.rows[key].state != RECEIVED
  }

  /** A delivery started after the verdict, whatever happens around it, can only answer with it. */
  lemma {:induction false} LaterDeliveryRepeats(hostOf: UrlParser, s: State, actions: seq<Action>, call: nat)
    requires Inv(hostOf, s) && call in s.calls && Waiting(s.calls[call].phase)
    requires IsJudged(s, s.calls[call].envelope.idempotencyKey)
    ensures var t := Run(hostOf, s, actions);
            && call in t.calls && t.calls[call].envelope == s.calls[call].envelope
            && (t.calls[call].phase.Done? && t.calls[call].phase.outcome != Invalid ==>
                  t.calls[call].phase.outcome == PriorOutcome(s.rows[s.calls[call].envelope.idempotencyKey]))
    decreases |actions|
  {
    var key := s.calls[call].envelope.idempotencyKey;
    if actions == [] {
      assert AnswerOk(s, s.calls[call]);
    } else {
      var a, t := actions[0], Step(hostOf, s, actions[0]);
      InvKept(hostOf, s, a);
      RowsEvolve(hostOf, s, a);
      assert RowEvolves(s, t, key);
      assert CallOk(hostOf, s, s.calls[call]);
      StillWaiting(hostOf, s, a, call);
      LaterDeliveryRepeats(hostOf, t, actions[1..], call);
    }
  }

  lemma {:induction false} StillWaiting(hostOf: UrlParser, s: State, a: Action, call: nat)
    requires call in s.calls && Waiting(s.calls[call].phase) && CallOk(hostOf, s, s.calls[call])
    requires IsJudged(s, s.calls[call].envelope.idempotencyKey)
    ensures var t := Step(hostOf, s, a);
            call in t.calls && t.calls[call].envelope == s.calls[call].envelope && Waiting(t.calls[call].phase)
  {
    if !(a.Advance? && a.call == call) && !(a.Crash? && a.call == call) {
      CallsStay(hostOf, s, a, call);
      OtherCalls(hostOf, s, a, call);
    }
  }

  lemma {:induction false} CallsStay(hostOf: UrlParser, s: State, a: Action, call: nat)
    requires call in s.calls
    ensures call in Step(hostOf, s, a).calls
  {
  }

  // ---- leases

  predicate Current(s: State, leaseId: nat) {
    leaseId in s.issued && HasLease(s, s.issued[leaseId].job, leaseId)
  }

  /** How often a lease stops being current in a run: by a failure, a sweep, a release, a kill or a commit. */
  function Endings(hostOf: UrlParser, s: State, actions: seq<Action>, leaseId: nat): nat
    decreases |actions|
  {
    if actions == [] then 0
    else
      var t := Step(hostOf, s, actions[0]);
      (if Current(s, leaseId) && !Current(t, leaseId) then 1 else 0) + Endings(hostOf, t, actions[1..], leaseId)
  }

  lemma {:induction false} IssuedStays(hostOf: UrlParser, s: State, a: Action, leaseId: nat)
    requires JobsOk(s) && leaseId in s.issued && Current(Step(hostOf, s, a), leaseId)
    ensures Current(s, leaseId)
  {
    StepEvolves(hostOf, s, a);
    LeaseNeverReturns(hostOf, s, a, s.issued[leaseId].job, leaseId);
  }

  lemma {:induction false} OverStaysOver(hostOf: UrlParser, s: State, actions: seq<Action>, leaseId: nat)
    requires JobsOk(s) && leaseId in s.issued && !Current(s, leaseId)
    ensures Endings(hostOf, s, actions, leaseId) == 0
    ensures !Current(Run(hostOf, s, actions), leaseId)
    decreases |actions|
  {
    if actions != [] {
      var t := Step(hostOf, s, actions[0]);
      StepEvolves(hostOf, s, actions[0]);
      JobsOkKept(hostOf, s, actions[0]);
      if Current(t, leaseId) {
        IssuedStays(hostOf, s, actions[0], leaseId);
      }
      OverStaysOver(hostOf, t, actions[1..], leaseId);
    }
  }

  /** Of all the ways an attempt can end, exactly one happens, and only once: a failed attempt uses one retry. */
  lemma {:induction false} LeaseEndsOnce(hostOf: UrlParser, s: State, actions: seq<Action>, leaseId: nat)
    requires JobsOk(s)
    ensures Endings(hostOf, s, actions, leaseId) <= 1
    decreases |actions|
  {
    if actions != [] {
      var t := Step(hostOf, s, actions[0]);
      StepEvolves(hostOf, s, actions[0]);
      JobsOkKept(hostOf, s, actions[0]);
      if Current(s, leaseId) && !Current(t, leaseId) {
        OverStaysOver(hostOf, t, actions[1..], leaseId);
      } else {
        LeaseEndsOnce(hostOf, t, actions[1..], leaseId);
      }
    }
  }

  /** A worker-driven statement with a lease that is not current changes no job. */
  lemma {:induction false} OverLeaseDoesNothing(s: State, id: string, leaseId: nat, ttl: int, c: Call)
    requires !HasLease(s, id, leaseId)
    ensures StartJob(s, id, leaseId) == s && RenewLease(s, id, leaseId, ttl) == s && ReleaseJob(s, id, leaseId) == s
    ensures c.envelope.jobId == id && c.envelope.leaseId == leaseId && id in s.jobs ==> JobAfter(s, c) == s.jobs[id]
  {
  }

  ghost predicate Expired(s: State, id: string, leaseId: nat) {
    HasLease(s, id, leaseId) && s.jobs[id].lease.value.expires <= s.now
  }

  lemma {:induction false} ExpiredIsNotRenewed(hostOf: UrlParser, s: State, a: Action, id: string, leaseId: nat)
    requires JobsOk(s) && leaseId in s.issued
    requires HasLease(s, id, leaseId) ==> Expired(s, id, leaseId)
    ensures HasLease(Step(hostOf, s, a), id, leaseId) ==> Expired(Step(hostOf, s, a), id, leaseId)
  {
    if HasLease(Step(hostOf, s, a), id, leaseId) {
      LeaseNeverReturns(hostOf, s, a, id, leaseId);
      if a.Advance? && a.call in s.calls {
        assert Step(hostOf, s, a).jobs[id].lease == s.jobs[id].lease;
      }
    }
  }

  /** A lease past its time is never extended again, in any run: it can only be used up or swept. */
  lemma {:induction false} ExpiredStaysExpired(
      hostOf: UrlParser, s: State, actions: seq<Action>, id: string, leaseId: nat)
    requires JobsOk(s) && leaseId in s.issued
    requires HasLease(s, id, leaseId) ==> Expired(s, id, leaseId)
    ensures var t := Run(hostOf, s, actions); HasLease(t, id, leaseId) ==> Expired(t, id, leaseId)
    decreases |actions|
  {
    if actions != [] {
      StepEvolves(hostOf, s, actions[0]);
      JobsOkKept(hostOf, s, actions[0]);
      ExpiredIsNotRenewed(hostOf, s, actions[0], id, leaseId);
      ExpiredStaysExpired(hostOf, Step(hostOf, s, actions[0]), actions[1..], id, leaseId);
    }
  }

  /** A job whose cancellation was requested is never leased again unless it is replayed. */
  lemma {:induction false} CancelledIsNotLeasedAgain(
      hostOf: UrlParser, s: State, actions: seq<Action>, id: string, leaseId: nat)
    requires JobsOk(s) && id in s.jobs && s.jobs[id].cancelRequested && leaseId !in s.issued
    requires Replay(id) !in actions
    ensures !HasLease(Run(hostOf, s, actions), id, leaseId)
    decreases |actions|
  {
    if actions == [] {
      assert JobOk(s, id);
    } else {
      var t := Step(hostOf, s, actions[0]);
      StepEvolves(hostOf, s, actions[0]);
      JobsOkKept(hostOf, s, actions[0]);
      StillFlagged(hostOf, s, actions[0], id);
      if leaseId in t.issued {
        assert !HasLease(t, id, leaseId) by { assert JobOk(t, id); }
        NeverHeldAgain(hostOf, t, actions[1..], id, leaseId);
      } else {
        CancelledIsNotLeasedAgain(hostOf, t, actions[1..], id, leaseId);
      }
    }
  }

  lemma {:induction false} StillFlagged(hostOf: UrlParser, s: State, a: Action, id: string)
    requires id in s.jobs && s.jobs[id].cancelRequested && a != Replay(id)
    ensures var t := Step(hostOf, s, a);
            id in t.jobs && t.jobs[id].cancelRequested
            && forall l :: l in t.issued && l !in s.issued ==> t.issued[l].job != id
  {
  }

  lemma {:induction false} NeverHeldAgain(hostOf: UrlParser, s: State, actions: seq<Action>, id: string, leaseId: nat)
    requires JobsOk(s) && leaseId in s.issued && !HasLease(s, id, leaseId)
    ensures !HasLease(Run(hostOf, s, actions), id, leaseId)
    decreases |actions|
  {
    if actions != [] {
      StepEvolves(hostOf, s, actions[0]);
      JobsOkKept(hostOf, s, actions[0]);
      if HasLease(Step(hostOf, s, actions[0]), id, leaseId) {
        LeaseNeverReturns(hostOf, s, actions[0], id, leaseId);
      }
      NeverHeldAgain(hostOf, Step(hostOf, s, actions[0]), actions[1..], id, leaseId);
    }
  }

  /**
   * `fail` reads the attempts before it writes. The decision it wrote is still
   * the one the row called for at that instant.
   */
  lemma {:induction false} FailDecidesAsIfAtomic(hostOf: UrlParser, s: State, call: nat, view: View, why: Violation)
    requires Inv(hostOf, s) && call in s.calls
    requires var c := s.calls[call];
             (c.phase.WriteFailing? || c.phase.WriteDead?) && HasLease(s, c.envelope.jobId, c.envelope.leaseId)
    ensures var c := s.calls[call];
            var kind := if c.phase.WriteFailing? then c.phase.kind else POLICY;
            Proceed(hostOf, s, call, view, why).jobs[c.envelope.jobId].state
              == (if kind == PERMANENT || s.jobs[c.envelope.jobId].attempt >= s.jobs[c.envelope.jobId].maxAttempts
                  then DEAD_LETTER else PENDING)
  {
    assert CallOk(hostOf, s, s.calls[call]);
  }

  // ---- the retry budget

  /** Attempts stay within the budget, and a job waiting to be claimed has one left. */
  ghost predicate BudgetOk(job: Job) {
    && 1 <= job.maxAttempts && 0 <= job.attempt <= job.maxAttempts
    && (job.state == PENDING ==> job.attempt < job.maxAttempts)
    && (IsActive(job) ==> job.attempt >= 1)
  }

  ghost predicate BudgetsOk(s: State) {
    forall id :: id in s.jobs ==> BudgetOk(s.jobs[id])
  }

  lemma {:induction false} StoreKeepsBudget(hostOf: UrlParser, s: State, a: Action, id: string)
    requires JobsOk(s) && BudgetsOk(s) && !a.Advance? && id in Step(hostOf, s, a).jobs
    requires a.Create? ==> a.maxAttempts >= 1
    ensures BudgetOk(Step(hostOf, s, a).jobs[id])
  {
    if id in s.jobs {
      assert BudgetOk(s.jobs[id]) && JobOk(s, id);
    }
  }

  lemma {:induction false} AdvanceKeepsBudget(s: State, c: Call)
    requires c.envelope.jobId in s.jobs && DecisionOk(s, c) && BudgetOk(s.jobs[c.envelope.jobId])
    ensures BudgetOk(JobAfter(s, c))
  {
    var job := s.jobs[c.envelope.jobId];
    if HoldsLease(job, c.envelope.leaseId) {
      assert HasLease(s, c.envelope.jobId, c.envelope.leaseId);
    }
  }

  lemma {:induction false} BudgetKept(hostOf: UrlParser, s: State, a: Action, id: string)
    requires Inv(hostOf, s) && BudgetsOk(s) && id in Step(hostOf, s, a).jobs
    requires a.Create? ==> a.maxAttempts >= 1
    ensures BudgetOk(Step(hostOf, s, a).jobs[id])
  {
    if !a.Advance? {
      StoreKeepsBudget(hostOf, s, a, id);
    } else {
      assert id in s.jobs && BudgetOk(s.jobs[id]);
      if a.call in s.calls && id == s.calls[a.call].envelope.jobId {
        assert CallOk(hostOf, s, s.calls[a.call]);
        AdvanceKeepsBudget(s, s.calls[a.call]);
      }
    }
  }

  /** No run spends more attempts than the job was given, whatever fails, expires, pauses or is replayed. */
  lemma {:induction false} AttemptsWithinBudget(hostOf: UrlParser, s: State, actions: seq<Action>)
    requires Inv(hostOf, s) && BudgetsOk(s)
    requires forall i :: 0 <= i < |actions| && actions[i].Create? ==> actions[i].maxAttempts >= 1
    ensures BudgetsOk(Run(hostOf, s, actions))
    decreases |actions|
  {
    if actions != [] {
      var t := Step(hostOf, s, actions[0]);
      InvKept(hostOf, s, actions[0]);
      forall id | id in t.jobs ensures BudgetOk(t.jobs[id]) {
        BudgetKept(hostOf, s, actions[0], id);
      }
      AttemptsWithinBudget(hostOf, t, actions[1..]);
    }
  }
}
