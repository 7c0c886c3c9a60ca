/** What every step of ingestion keeps. */
module IngestInvariant {
  import opened JsonText
  import opened Policy
  import opened Ingest

  // ---- jobs

  /** A held lease is one that was issued, for this job, to this worker, for this attempt. */
  ghost predicate JobOk(s: State, id: string)
    requires id in s.jobs
  {
    var job := s.jobs[id];
    && (job.lease.Some? ==>
          job.lease.value.id in s.issued
          && s.issued[job.lease.value.id] == Grant(id, job.lease.value.worker, job.attempt))
    && (job.state == PENDING || job.state == DEAD_LETTER ==> job.lease == None)
    && (IsActive(job) ==> job.lease.Some?)
  }

  ghost predicate JobsOk(s: State) {
    forall id :: id in s.jobs ==> JobOk(s, id)
  }

  ghost predicate SameLease(before: Job, after: Job) {
    && before.attempt == after.attempt && before.maxAttempts == after.maxAttempts
    && before.lease.Some? && after.lease.Some?
    && before.lease.value.id == after.lease.value.id && before.lease.value.worker == after.lease.value.worker
  }

  /** Every way one step can leave a job. */
  ghost predicate Evolves(s: State, t: State, id: string)
    requires id in t.jobs
  {
    var after := t.jobs[id];
    if id !in s.jobs then after.state == PENDING && after.lease == None
    else
      var before := s.jobs[id];
      || after == before
      || (before.state == PENDING && after.state == LEASED && after.lease.Some?
          && after.lease.value.id !in s.issued && after.lease.value.id in t.issued
          && t.issued[after.lease.value.id] == Grant(id, after.lease.value.worker, after.attempt))
      || (IsActive(before) && !(after.state == PENDING || after.state == DEAD_LETTER) && SameLease(before, after))
      || (IsActive(before) && (after.state == PENDING || after.state == DEAD_LETTER) && after.lease == None)
      || (before.state == PENDING && after.state == CANCELLED && after.lease == before.lease)
      || (before.state == DEAD_LETTER && after.state == PENDING && after.lease == before.lease)
  }

  lemma {:induction false} JobAfterEvolves(
      hostOf: UrlParser, s: State, call: nat, view: View, why: Violation, id: string)
    requires JobsOk(s) && call in s.calls && id in s.jobs
    ensures Evolves(s, Proceed(hostOf, s, call, view, why), id)
  {
    assert JobOk(s, id);
    var c := s.calls[call];
    if id == c.envelope.jobId && HoldsLease(s.jobs[id], c.envelope.leaseId) {
      assert IsActive(s.jobs[id]);
    }
  }

  lemma {:induction false} AdvanceEvolves(hostOf: UrlParser, s: State, call: nat, view: View, why: Violation)
    requires JobsOk(s) && call in s.calls
    ensures var t := Proceed(hostOf, s, call, view, why);
            t.issued == s.issued && t.jobs.Keys == s.jobs.Keys
            && forall id :: id in t.jobs ==> Evolves(s, t, id)
  {
    forall id | id in s.jobs ensures Evolves(s, Proceed(hostOf, s, call, view, why), id) {
      JobAfterEvolves(hostOf, s, call, view, why, id);
    }
  }

  /** The statements of the job store, seen from one job. */
  lemma {:induction false} StoreEvolves(hostOf: UrlParser, s: State, a: Action, id: string)
    requires JobsOk(s) && !a.Advance? && id in Step(hostOf, s, a).jobs
    ensures Evolves(s, Step(hostOf, s, a), id)
  {
    if id in s.jobs {
      assert JobOk(s, id);
    }
  }

  lemma {:induction false} IssuedGrows(hostOf: UrlParser, s: State, a: Action)
    ensures var t := Step(hostOf, s, a);
            && (forall l :: l in s.issued ==> l in t.issued && t.issued[l] == s.issued[l])
            && (forall id :: id in s.jobs ==> id in t.jobs)
  {
  }

  lemma {:induction false} StepEvolves(hostOf: UrlParser, s: State, a: Action)
    requires JobsOk(s)
    ensures var t := Step(hostOf, s, a);
            && (forall l :: l in s.issued ==> l in t.issued && t.issued[l] == s.issued[l])
            && (forall id :: id in s.jobs ==> id in t.jobs)
            && (forall id :: id in t.jobs ==> Evolves(s, t, id))
  {
    var t := Step(hostOf, s, a);
    IssuedGrows(hostOf, s, a);
    forall id | id in t.jobs ensures Evolves(s, t, id) {
      if a.Advance? {
        if a.call in s.calls {
          AdvanceEvolves(hostOf, s, a.call, a.view, a.why);
        }
      } else {
        StoreEvolves(hostOf, s, a, id);
      }
    }
  }

  lemma {:induction false} JobsOkKept(hostOf: UrlParser, s: State, a: Action)
    requires JobsOk(s)
    ensures JobsOk(Step(hostOf, s, a))
  {
    var t := Step(hostOf, s, a);
    StepEvolves(hostOf, s, a);
    forall id | id in t.jobs ensures JobOk(t, id) {
      if id in s.jobs {
        assert JobOk(s, id);
      }
      assert Evolves(s, t, id);
    }
  }

  /** A lease that is over never becomes current again; while it is current its job's attempt stands still. */
  lemma {:induction false} LeaseNeverReturns(hostOf: UrlParser, s: State, a: Action, id: string, leaseId: nat)
    requires JobsOk(s) && leaseId in s.issued
    requires HasLease(Step(hostOf, s, a), id, leaseId)
    ensures HasLease(s, id, leaseId) && SameLease(s.jobs[id], Step(hostOf, s, a).jobs[id])
  {
    StepEvolves(hostOf, s, a);
    assert Evolves(s, Step(hostOf, s, a), id);
    if id in s.jobs {
      assert JobOk(s, id);
    }
  }

  // ---- deliveries

  /** Phases a delivery reaches only through the lease gate. */
  predicate PastGate(phase: Phase) {
    !(phase.ReadJob? || phase.Record? || phase.MarkStale? || phase.Done? || phase.Crashed?)
  }

  /** The retry decision a delivery has read is the one the current attempt calls for. */
  ghost predicate DecisionStands(s: State, e: Envelope, kind: ErrorClass, exhausted: bool) {
    HasLease(s, e.jobId, e.leaseId) ==> exhausted == Exhausted(s.jobs[e.jobId], kind)
  }

  /** The job a delivery read was as the leases then issued say. */
  ghost predicate SnapshotOk(s: State, c: Call) {
    c.snapshot.Some? && c.snapshot.value.lease.Some? ==>
      var l := c.snapshot.value.lease.value;
      l.id in s.issued && s.issued[l.id] == Grant(c.envelope.jobId, l.worker, c.snapshot.value.attempt)
  }

  ghost predicate GateOk(hostOf: UrlParser, c: Call) {
    && (c.phase.Record? ==> c.snapshot.Some?)
    && (PastGate(c.phase) ==> c.snapshot.Some? && LeaseValid(c.snapshot.value, c.envelope, c.worker))
    && (c.phase.Validate? || c.phase.Commit? ==> c.envelope.failure == None)
    && (c.phase.Commit? ==> PolicyHolds(hostOf, c.envelope, c.snapshot.value.bundleSha256, c.phase.view))
  }

  ghost predicate DecisionOk(s: State, c: Call) {
    && (c.phase.WriteFailing? ==> DecisionStands(s, c.envelope, c.phase.kind, c.phase.exhausted))
    && (c.phase.WriteDead? ==> DecisionStands(s, c.envelope, POLICY, c.phase.exhausted))
  }

  ghost predicate CallOk(hostOf: UrlParser, s: State, c: Call) {
    SnapshotOk(s, c) && GateOk(hostOf, c) && DecisionOk(s, c)
  }

  ghost predicate CallsOk(hostOf: UrlParser, s: State) {
    forall call :: call in s.calls ==> CallOk(hostOf, s, s.calls[call])
  }

  /** A delivery that does not move stays well formed whatever else happens. */
  lemma {:induction false} CallOkFrame(hostOf: UrlParser, s: State, a: Action, c: Call)
    requires JobsOk(s) && CallOk(hostOf, s, c)
    ensures CallOk(hostOf, Step(hostOf, s, a), c)
  {
    DecisionFrame(hostOf, s, a, c);
    IssuedGrows(hostOf, s, a);
  }

  lemma {:induction false} DecisionFrame(hostOf: UrlParser, s: State, a: Action, c: Call)
    requires JobsOk(s) && CallOk(hostOf, s, c)
    ensures DecisionOk(Step(hostOf, s, a), c)
  {
    if (c.phase.WriteFailing? || c.phase.WriteDead?)
        && HasLease(Step(hostOf, s, a), c.envelope.jobId, c.envelope.leaseId) {
      LeaseNeverReturns(hostOf, s, a, c.envelope.jobId, c.envelope.leaseId);
    }
  }

  lemma {:induction false} GateMoves(hostOf: UrlParser, s: State, call: nat, view: View, why: Violation)
    requires call in s.calls && GateOk(hostOf, s.calls[call])
    ensures GateOk(hostOf, Proceed(hostOf, s, call, view, why).calls[call])
  {
  }

  lemma {:induction false} DecisionMoves(hostOf: UrlParser, s: State, call: nat, view: View, why: Violation)
    requires call in s.calls
    ensures var t := Proceed(hostOf, s, call, view, why); DecisionOk(t, t.calls[call])
  {
    var c, t := s.calls[call], Proceed(hostOf, s, call, view, why);
    if c.phase.ReadFailing? || c.phase.ReadDead? {
      assert t.jobs == s.jobs;
    }
  }

  lemma {:induction false} CallOkMoves(hostOf: UrlParser, s: State, call: nat, view: View, why: Violation)
    requires JobsOk(s) && call in s.calls && CallOk(hostOf, s, s.calls[call])
    ensures var t := Proceed(hostOf, s, call, view, why); CallOk(hostOf, t, t.calls[call])
  {
    GateMoves(hostOf, s, call, view, why);
    DecisionMoves(hostOf, s, call, view, why);
    var id := s.calls[call].envelope.jobId;
    if id in s.jobs {
      assert JobOk(s, id);
    }
  }

  lemma {:induction false} OtherCalls(hostOf: UrlParser, s: State, a: Action, call: nat)
    requires call in Step(hostOf, s, a).calls
    requires !(a.Advance? && a.call == call) && !(a.Crash? && a.call == call)
    ensures call in s.calls ==> Step(hostOf, s, a).calls[call] == s.calls[call]
    ensures call !in s.calls ==> a.Deliver? && Step(hostOf, s, a).calls[call] == Call(a.envelope, a.from, ReadJob, None)
  {
  }

  lemma {:induction false} CallsOkKept(hostOf: UrlParser, s: State, a: Action)
    requires JobsOk(s) && CallsOk(hostOf, s)
    ensures CallsOk(hostOf, Step(hostOf, s, a))
  {
    var t := Step(hostOf, s, a);
    forall call | call in t.calls ensures CallOk(hostOf, t, t.calls[call]) {
      if a.Advance? && a.call == call {
        assert CallOk(hostOf, s, s.calls[call]);
        CallOkMoves(hostOf, s, call, a.view, a.why);
      } else if a.Crash? && a.call == call {
        assert CallOk(hostOf, s, s.calls[call]);
      } else {
        OtherCalls(hostOf, s, a, call);
        if call in s.calls {
          assert CallOk(hostOf, s, s.calls[call]);
          CallOkFrame(hostOf, s, a, s.calls[call]);
        }
      }
    }
  }

  // ---- submissions

  /** What the delivery that judged a row has answered or is about to answer. */
  ghost predicate Judged(row: Row, c: Call) {
    && c.envelope.idempotencyKey == row.envelope.idempotencyKey
    && (c.phase.Crashed?
        || match row.state
           case RECEIVED => false
           case COMMITTED => c.phase == Done(Committed, false)
           case SUPERSEDED =>
             c.phase == Done(Superseded, false) || (c.phase.Done? && c.phase.outcome.JobFailed? && !c.phase.replayed)
           case QUARANTINED =>
             && row.reason.Some? && row.reason.value.Violates?
             && var v := row.reason.value.why;
                c.phase == ReadDead(v) || (c.phase.WriteDead? && c.phase.why == v)
                || c.phase == Done(Quarantined(Some(v)), false))
  }

  ghost predicate RowOk(s: State, key: string)
    requires key in s.rows
  {
    var row := s.rows[key];
    && row.envelope.idempotencyKey == key
    && (row.state == RECEIVED <==> row.judge == None)
    && (row.judge.Some? ==> row.judge.value in s.calls && Judged(row, s.calls[row.judge.value]))
  }

  /** Whether a delivery has recorded or found its submission. */
  predicate HasRow(phase: Phase) {
    PastGate(phase) || phase.MarkStale? || (phase.Done? && phase.outcome != Invalid)
  }

  ghost predicate AnswerOk(s: State, c: Call) {
    && (HasRow(c.phase) ==> c.envelope.idempotencyKey in s.rows)
    && (c.phase.Done? && c.phase.outcome != Invalid ==> s.rows[c.envelope.idempotencyKey].state != RECEIVED)
    && (c.phase.Done? && c.phase.replayed ==>
          c.phase.outcome != Invalid && c.phase.outcome == PriorOutcome(s.rows[c.envelope.idempotencyKey]))
    && ((c.phase.ReadDead? || c.phase.WriteDead?) ==> s.rows[c.envelope.idempotencyKey].state != RECEIVED)
  }

  predicate IsCommitted(s: State, key: string) {
    key in s.rows && s.rows[key].state == COMMITTED
  }

  ghost predicate RowsOk(s: State) {
    && (forall key :: key in s.rows ==> RowOk(s, key))
    && (forall call :: call in s.calls ==> AnswerOk(s, s.calls[call]))
    && (forall k, l :: IsCommitted(s, k) && IsCommitted(s, l) && s.rows[k].envelope.jobId == s.rows[l].envelope.jobId
          ==> k == l)
  }

  ghost predicate Inv(hostOf: UrlParser, s: State) {
    JobsOk(s) && CallsOk(hostOf, s) && RowsOk(s)
  }

  /** One step adds a row in RECEIVED, or judges one that was, and touches no other. */
  ghost predicate RowEvolves(s: State, t: State, key: string)
    requires key in t.rows
  {
    if key !in s.rows then t.rows[key].state == RECEIVED && t.rows[key].judge == None
        && t.rows[key].envelope.idempotencyKey == key
    else
      || t.rows[key] == s.rows[key]
      || (s.rows[key].state == RECEIVED && t.rows[key].state != RECEIVED
          && t.rows[key].envelope == s.rows[key].envelope && t.rows[key].worker == s.rows[key].worker
          && t.rows[key].attempt == s.rows[key].attempt)
  }

  lemma {:induction false} RowsEvolve(hostOf: UrlParser, s: State, a: Action)
    ensures var t := Step(hostOf, s, a);
            && (forall key :: key in s.rows ==> key in t.rows)
            && (forall key :: key in t.rows ==> RowEvolves(s, t, key))
  {
  }

  /** The row a delivery's step leaves at its key, and that it leaves every other alone. */
  lemma {:induction false} OwnRow(hostOf: UrlParser, s: State, call: nat, view: View, why: Violation)
    requires call in s.calls
    ensures var t, key := Proceed(hostOf, s, call, view, why), s.calls[call].envelope.idempotencyKey;
            && (forall k :: k in t.rows && k != key ==> k in s.rows && t.rows[k] == s.rows[k])
            && (key in t.rows && key in s.rows && t.rows[key] != s.rows[key] ==>
                  t.rows[key].judge == Some(call)
                    && Judged(t.rows[key].(envelope := t.calls[call].envelope), t.calls[call]))
            && (forall c :: c in s.calls && c != call ==> c in t.calls && t.calls[c] == s.calls[c])
  {
  }

  /** A judge never takes back its verdict. */
  lemma {:induction false} JudgeStays(hostOf: UrlParser, s: State, a: Action, row: Row, call: nat)
    requires call in s.calls && Judged(row, s.calls[call])
    ensures call in Step(hostOf, s, a).calls && Judged(row, Step(hostOf, s, a).calls[call])
  {
  }

  lemma {:induction false} ChangedRowOk(hostOf: UrlParser, s: State, a: Action, key: string)
    requires key in s.rows && RowOk(s, key) && Step(hostOf, s, a).rows[key] != s.rows[key]
    ensures RowOk(Step(hostOf, s, a), key)
  {
    RowsEvolve(hostOf, s, a);
    assert RowEvolves(s, Step(hostOf, s, a), key);
    OwnRow(hostOf, s, a.call, a.view, a.why);
  }

  lemma {:induction false} RowOkKept(hostOf: UrlParser, s: State, a: Action, key: string)
    requires RowsOk(s) && key in Step(hostOf, s, a).rows
    ensures RowOk(Step(hostOf, s, a), key)
  {
    var t := Step(hostOf, s, a);
    RowsEvolve(hostOf, s, a);
    assert RowEvolves(s, t, key);
    if key in s.rows {
      assert RowOk(s, key);
      if t.rows[key] != s.rows[key] {
        ChangedRowOk(hostOf, s, a, key);
      } else if s.rows[key].judge.Some? {
        JudgeStays(hostOf, s, a, s.rows[key], s.rows[key].judge.value);
      }
    }
  }

  lemma {:induction false} AnswerFrame(hostOf: UrlParser, s: State, a: Action, c: Call)
    requires Inv(hostOf, s) && AnswerOk(s, c)
    ensures AnswerOk(Step(hostOf, s, a), c)
  {
    var t, key := Step(hostOf, s, a), c.envelope.idempotencyKey;
    RowsEvolve(hostOf, s, a);
    if key in s.rows {
      assert RowEvolves(s, t, key);
    }
  }

  /** The phase a delivery moves to fits the row its statement leaves. */
  lemma {:induction false} AnswerFitsRow(hostOf: UrlParser, s: State, call: nat, view: View, why: Violation)
    requires call in s.calls && AnswerOk(s, s.calls[call]) && GateOk(hostOf, s.calls[call])
    ensures var p, r := NextPhase(hostOf, s, s.calls[call], view, why), RowAfter(s, call);
            && (HasRow(p) ==> r.Some?)
            && ((p.Done? && p.outcome != Invalid) || p.ReadDead? || p.WriteDead? ==>
                  r.Some? && r.value.state != RECEIVED)
            && (p.Done? && p.replayed ==> p.outcome != Invalid && p.outcome == PriorOutcome(r.value))
  {
  }

  lemma {:induction false} AnswerMoves(hostOf: UrlParser, s: State, call: nat, view: View, why: Violation)
    requires call in s.calls && AnswerOk(s, s.calls[call]) && GateOk(hostOf, s.calls[call])
    ensures var t := Proceed(hostOf, s, call, view, why); AnswerOk(t, t.calls[call])
  {
    AnswerFitsRow(hostOf, s, call, view, why);
    var t, key := Proceed(hostOf, s, call, view, why), s.calls[call].envelope.idempotencyKey;
    assert RowAfter(s, call).Some? ==> t.rows[key] == RowAfter(s, call).value;
  }

  lemma {:induction false} AnswersKept(hostOf: UrlParser, s: State, a: Action)
    requires Inv(hostOf, s)
    ensures forall call :: call in Step(hostOf, s, a).calls ==>
         AnswerOk(Step(hostOf, s, a), Step(hostOf, s, a).calls[call])
  {
    var t := Step(hostOf, s, a);
    forall call | call in t.calls ensures AnswerOk(t, t.calls[call]) {
      if a.Advance? && a.call == call {
        assert AnswerOk(s, s.calls[call]) && CallOk(hostOf, s, s.calls[call]);
        AnswerMoves(hostOf, s, call, a.view, a.why);
      } else if a.Crash? && a.call == call {
      } else {
        OtherCalls(hostOf, s, a, call);
        if call in s.calls {
          assert AnswerOk(s, s.calls[call]);
          AnswerFrame(hostOf, s, a, s.calls[call]);
        }
      }
    }
  }

  /** Only the commit statement makes a committed row, and only for a job that has none. */
  lemma {:induction false} CommitsOne(hostOf: UrlParser, s: State, a: Action, key: string)
    requires key in Step(hostOf, s, a).rows && Step(hostOf, s, a).rows[key].state == COMMITTED
    requires key !in s.rows || s.rows[key].state != COMMITTED
    ensures a.Advance? && a.call in s.calls && s.calls[a.call].phase.Commit?
    ensures CanCommit(s, s.calls[a.call].envelope) && s.calls[a.call].envelope.idempotencyKey == key
  {
  }

  lemma {:induction false} InvKept(hostOf: UrlParser, s: State, a: Action)
    requires Inv(hostOf, s)
    ensures Inv(hostOf, Step(hostOf, s, a))
  {
    var t := Step(hostOf, s, a);
    JobsOkKept(hostOf, s, a);
    CallsOkKept(hostOf, s, a);
    AnswersKept(hostOf, s, a);
    forall key | key in t.rows ensures RowOk(t, key) {
      RowOkKept(hostOf, s, a, key);
    }
    forall k, l | IsCommitted(t, k) && IsCommitted(t, l) && t.rows[k].envelope.jobId == t.rows[l].envelope.jobId
      ensures k == l
    {
      CommittedStayUnique(hostOf, s, a, k, l);
    }
  }

  /** A row committed now and one committed before belong to different jobs. */
  lemma {:induction false} NewCommitIsAlone(hostOf: UrlParser, s: State, a: Action, added: string, earlier: string)
    requires var t := Step(hostOf, s, a); IsCommitted(t, added) && !IsCommitted(s, added) && IsCommitted(s, earlier)
    ensures earlier in Step(hostOf, s, a).rows
    ensures Step(hostOf, s, a).rows[earlier].envelope.jobId != Step(hostOf, s, a).rows[added].envelope.jobId
  {
    var t := Step(hostOf, s, a);
    RowsEvolve(hostOf, s, a);
    CommitsOne(hostOf, s, a, added);
    assert RowEvolves(s, t, earlier) && RowEvolves(s, t, added);
  }

  lemma {:induction false} CommittedStayUnique(hostOf: UrlParser, s: State, a: Action, k: string, l: string)
    requires Inv(hostOf, s)
    requires var t := Step(hostOf, s, a);
             IsCommitted(t, k) && IsCommitted(t, l) && t.rows[k].envelope.jobId == t.rows[l].envelope.jobId
    ensures k == l
  {
    var t := Step(hostOf, s, a);
    if IsCommitted(s, k) && IsCommitted(s, l) {
      RowsEvolve(hostOf, s, a);
      assert RowEvolves(s, t, k) && RowEvolves(s, t, l);
    } else if IsCommitted(s, k) {
      NewCommitIsAlone(hostOf, s, a, l, k);
    } else if IsCommitted(s, l) {
      NewCommitIsAlone(hostOf, s, a, k, l);
    } else {
      CommitsOne(hostOf, s, a, k);
      CommitsOne(hostOf, s, a, l);
    }
  }

  /** The invariant holds after every run, whatever the interleaving. */
  lemma {:induction false} RunKeepsInv(hostOf: UrlParser, s: State, actions: seq<Action>)
    requires Inv(hostOf, s)
    ensures Inv(hostOf, Run(hostOf, s, actions))
    decreases |actions|
  {
    if actions != [] {
      InvKept(hostOf, s, actions[0]);
      RunKeepsInv(hostOf, Step(hostOf, s, actions[0]), actions[1..]);
    }
  }
}
