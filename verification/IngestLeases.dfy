/** When a lease begins, what it goes through and when it ends, told by the actions alone. */
module IngestLeases {
  import opened JsonText
  import opened Policy
  import opened Ingest
  import opened IngestInvariant

  /** The job is being worked on under the lease. */
  predicate Held(s: State, id: string, leaseId: nat) {
    && id in s.jobs && s.jobs[id].state in {LEASED, RUNNING}
    && s.jobs[id].lease.Some? && s.jobs[id].lease.value.id == leaseId
  }

  lemma {:induction false} HeldIsHasLease(s: State, id: string, leaseId: nat)
    ensures Held(s, id, leaseId) <==> HasLease(s, id, leaseId)
  {
  }

  /** The statements of a delivery that settle the job it names, if they go through. */
  predicate Settles(s: State, c: Call) {
    c.phase.WriteFailing? || c.phase.WriteDead? || (c.phase.Commit? && CanCommit(s, c.envelope))
  }

  /** Everything that ends a lease; a sweep ends it only past its time. */
  predicate EndsLease(s: State, a: Action, id: string, leaseId: nat)
    requires Held(s, id, leaseId)
  {
    match a
    case Sweep(other) => other == id && s.jobs[id].lease.value.expires < s.now
    case Release(other, l) => other == id && l == leaseId
    case Kill(other) => other == id
    case Advance(call, _, _) =>
      && call in s.calls && Settles(s, s.calls[call])
      && s.calls[call].envelope.jobId == id && s.calls[call].envelope.leaseId == leaseId
    case _ => false
  }

  /** Only one of those ends a lease, and each of them does. */
  lemma {:induction false} LeaseEndsExactlyWhen(hostOf: UrlParser, s: State, a: Action, id: string, leaseId: nat)
    requires Held(s, id, leaseId)
    ensures Held(Step(hostOf, s, a), id, leaseId) <==> !EndsLease(s, a, id, leaseId)
  {
    if a.Advance? && a.call in s.calls && s.calls[a.call].envelope.jobId == id {
      AdvanceEnds(hostOf, s, a, id, leaseId);
    }
  }

  lemma {:induction false} AdvanceEnds(hostOf: UrlParser, s: State, a: Action, id: string, leaseId: nat)
    requires Held(s, id, leaseId) && a.Advance? && a.call in s.calls && s.calls[a.call].envelope.jobId == id
    ensures Held(Step(hostOf, s, a), id, leaseId) <==> !EndsLease(s, a, id, leaseId)
  {
    var c := s.calls[a.call];
    assert Step(hostOf, s, a).jobs[id] == JobAfter(s, c);
  }

  /**
   * A sweep ends a lease exactly when its time is over: the job waits if it has attempts left, and
   * is given up if not.
   */
  lemma {:induction false} SweepEndsOverdue(hostOf: UrlParser, s: State, id: string, leaseId: nat)
    requires Held(s, id, leaseId)
    ensures var t, job := Step(hostOf, s, Sweep(id)), s.jobs[id];
            && (Held(t, id, leaseId) <==> job.lease.value.expires >= s.now)
            && id in t.jobs
            && (!Held(t, id, leaseId) ==>
                  t.jobs[id] == job.(lease := None, state := if job.attempt < job.maxAttempts then PENDING
                    else DEAD_LETTER))
  {
  }

  /** What the other endings leave: a release gives the attempt back, a kill flags the job, a commit succeeds. */
  lemma {:induction false} EndedAs(hostOf: UrlParser, s: State, a: Action, id: string, leaseId: nat)
    requires Held(s, id, leaseId) && EndsLease(s, a, id, leaseId) && !a.Sweep?
    ensures var t, job := Step(hostOf, s, a), s.jobs[id];
            && id in t.jobs
            && (a.Release? ==> t.jobs[id] == job.(lease := None, state := PENDING, attempt := job.attempt - 1))
            && (a.Kill? ==> t.jobs[id] == job.(state := CANCELLED, cancelRequested := true))
            && (a.Advance? ==>
                  t.jobs[id] == match s.calls[a.call].phase
                                case Commit(_) => job.(state := SUCCEEDED)
                                case WriteFailing(_, exhausted) =>
                                  job.(lease := None, state := if exhausted then DEAD_LETTER else PENDING)
                                case WriteDead(_, exhausted) =>
                                  job.(lease := None, state := if exhausted then DEAD_LETTER else PENDING))
  {
    if a.Advance? {
      assert Step(hostOf, s, a).jobs[id] == JobAfter(s, s.calls[a.call]);
    }
  }

  /**
   * While it is held a lease is extended from now on, if its time is not over; the job is started
   * or flagged; nothing else.
   */
  lemma {:induction false} WhileHeld(hostOf: UrlParser, s: State, a: Action, id: string, leaseId: nat)
    requires Held(s, id, leaseId) && !EndsLease(s, a, id, leaseId)
    ensures var t, job := Step(hostOf, s, a), s.jobs[id];
            && id in t.jobs
            && t.jobs[id] ==
               if a.Renew? && a.id == id && a.leaseId == leaseId && s.now < job.lease.value.expires
               then job.(lease := Some(job.lease.value.(expires := s.now + a.ttl)))
               else if a == Start(id, leaseId) then job.(state := RUNNING)
               else if a == Cancel(id) then job.(cancelRequested := true)
               else job
  {
    if a.Advance? && a.call in s.calls && s.calls[a.call].envelope.jobId == id {
      assert Step(hostOf, s, a).jobs[id] == JobAfter(s, s.calls[a.call]);
    }
  }

  /** Time passes by ticks alone, and forwards. */
  lemma {:induction false} TimePasses(hostOf: UrlParser, s: State, a: Action)
    ensures Step(hostOf, s, a).now == if a.Tick? then s.now + a.elapsed else s.now
  {
  }

  /**
   * A delivery that reports a failure answers with what became of the job: nothing if the lease was
   * over, given up or waiting again if it was not; the answer is kept until it is sent.
   */
  lemma {:induction false} FailureAnswersAsWritten(hostOf: UrlParser, s: State, a: Action)
    requires a.Advance? && a.call in s.calls
    ensures var c, t := s.calls[a.call], Step(hostOf, s, a);
            var id, after := c.envelope.jobId, t.calls[a.call].phase;
            && (c.phase.WriteFailing? ==>
                  && after.MarkFailed? && after.kind == c.phase.kind
                  && (after.disposition == Rejected <==> !Held(s, id, c.envelope.leaseId))
                  && (after.disposition == Rejected ==> t.jobs == s.jobs)
                  && (after.disposition != Rejected ==>
                        && t.jobs[id].lease == None
                        && t.jobs[id].state == if after.disposition == DeadLetter then DEAD_LETTER else PENDING))
            && (c.phase.MarkFailed? ==> after == Done(JobFailed(c.phase.disposition), false))
  {
  }

  /**
   * A lease begins exactly with a claim of a waiting job that is not flagged, under a new id; that
   * spends an attempt.
   */
  lemma {:induction false} LeaseBeginsExactlyWhen(hostOf: UrlParser, s: State, a: Action, id: string, leaseId: nat)
    requires JobsOk(s) && !Held(s, id, leaseId)
    ensures var t := Step(hostOf, s, a);
            && (Held(t, id, leaseId) <==>
                  && a.Claim? && a.id == id && a.leaseId == leaseId && leaseId !in s.issued
                  && id in s.jobs && s.jobs[id].state == PENDING && !s.jobs[id].cancelRequested)
            && (Held(t, id, leaseId) ==>
                  && t.jobs[id] == s.jobs[id].(state := LEASED, attempt := s.jobs[id].attempt + 1,
                                               lease := Some(Lease(leaseId, a.worker, s.now + a.ttl)))
                  && t.issued == s.issued[leaseId := Grant(id, a.worker, s.jobs[id].attempt + 1)])
  {
    HeldIsHasLease(s, id, leaseId);
    HeldIsHasLease(Step(hostOf, s, a), id, leaseId);
    if Held(Step(hostOf, s, a), id, leaseId) {
      if leaseId in s.issued {
        LeaseNeverReturns(hostOf, s, a, id, leaseId);
      } else {
        StepEvolves(hostOf, s, a);
        assert Evolves(s, Step(hostOf, s, a), id);
        if id in s.jobs { assert JobOk(s, id); }
      }
    }
  }

  /**
   * A job nobody works on: it is cancelled while it waits, replayed once given up, claimed, and
   * otherwise left as it is.
   */
  lemma {:induction false} WhileIdle(hostOf: UrlParser, s: State, a: Action, id: string)
    requires id in s.jobs && s.jobs[id].state !in {LEASED, RUNNING} && !a.Claim?
    ensures var t, job := Step(hostOf, s, a), s.jobs[id];
            && id in t.jobs
            && t.jobs[id] ==
               if (a == Cancel(id) || a == Kill(id)) && job.state == PENDING
               then job.(state := CANCELLED, cancelRequested := true)
               else if a == Replay(id) && job.state == DEAD_LETTER
               then job.(state := PENDING, attempt := 0, cancelRequested := false)
               else job
  {
    if a.Advance? && a.call in s.calls && s.calls[a.call].envelope.jobId == id {
      assert Step(hostOf, s, a).jobs[id] == JobAfter(s, s.calls[a.call]);
    }
  }

  /** A job comes into being waiting, with no attempt spent. */
  lemma {:induction false} CreatedWaiting(hostOf: UrlParser, s: State, a: Action, id: string)
    requires id !in s.jobs
    ensures var t := Step(hostOf, s, a);
            && (id in t.jobs <==> a.Create? && a.id == id)
            && (id in t.jobs ==> t.jobs[id] == Job(a.bundleSha256, a.maxAttempts, PENDING, 0, None, false))
  {
  }

  // ---- over runs

  ghost predicate EverEnded(hostOf: UrlParser, s: State, actions: seq<Action>, id: string, leaseId: nat)
    requires Held(s, id, leaseId)
    decreases |actions|
  {
    actions != []
    && (EndsLease(s, actions[0], id, leaseId)
        || (Held(Step(hostOf, s, actions[0]), id, leaseId)
            && EverEnded(hostOf, Step(hostOf, s, actions[0]), actions[1..], id, leaseId)))
  }

  /**
   * A lease is held through a run until one of those ends it, and from then on no more: in time, no
   * sweep takes it away.
   */
  lemma {:induction false} HeldUntilEnded(hostOf: UrlParser, s: State, actions: seq<Action>, id: string, leaseId: nat)
    requires JobsOk(s) && Held(s, id, leaseId)
    ensures Held(Run(hostOf, s, actions), id, leaseId) <==> !EverEnded(hostOf, s, actions, id, leaseId)
    decreases |actions|
  {
    if actions != [] {
      var t := Step(hostOf, s, actions[0]);
      JobsOkKept(hostOf, s, actions[0]);
      LeaseEndsExactlyWhen(hostOf, s, actions[0], id, leaseId);
      if Held(t, id, leaseId) {
        HeldUntilEnded(hostOf, t, actions[1..], id, leaseId);
      } else {
        IssuedByThen(hostOf, s, actions[0], id, leaseId);
        NotHeldAgain(hostOf, t, actions[1..], id, leaseId);
      }
    }
  }

  lemma {:induction false} IssuedByThen(hostOf: UrlParser, s: State, a: Action, id: string, leaseId: nat)
    requires JobsOk(s) && Held(s, id, leaseId)
    ensures leaseId in Step(hostOf, s, a).issued
  {
    assert JobOk(s, id);
    IssuedGrows(hostOf, s, a);
  }

  lemma {:induction false} NotHeldAgain(hostOf: UrlParser, s: State, actions: seq<Action>, id: string, leaseId: nat)
    requires JobsOk(s) && leaseId in s.issued && !Held(s, id, leaseId)
    ensures !Held(Run(hostOf, s, actions), id, leaseId)
    decreases |actions|
  {
    if actions != [] {
      JobsOkKept(hostOf, s, actions[0]);
      IssuedGrows(hostOf, s, actions[0]);
      LeaseBeginsExactlyWhen(hostOf, s, actions[0], id, leaseId);
      NotHeldAgain(hostOf, Step(hostOf, s, actions[0]), actions[1..], id, leaseId);
    }
  }

  /** A job that succeeded or was cancelled stays exactly as it is, in every run. */
  lemma {:induction false} SettledIsFinal(hostOf: UrlParser, s: State, actions: seq<Action>, id: string)
    requires id in s.jobs && s.jobs[id].state in {SUCCEEDED, CANCELLED}
    ensures var t := Run(hostOf, s, actions); id in t.jobs && t.jobs[id] == s.jobs[id]
    decreases |actions|
  {
    if actions != [] {
      if !actions[0].Claim? {
        WhileIdle(hostOf, s, actions[0], id);
      }
      SettledIsFinal(hostOf, Step(hostOf, s, actions[0]), actions[1..], id);
    }
  }
}
