/** What exactly-once needs of the idempotency keys, and the runs that show it. */
module IngestExactness {
  import opened JsStrings
  import opened JsonText
  import opened Policy
  import opened Ingest
  import opened IngestInvariant
  import opened IngestSafety

  // ---- succeeded means committed

  /** A job is SUCCEEDED exactly when a submission for it is COMMITTED. */
  ghost predicate Agree(s: State) {
    forall id :: JobCommitted(s, id) <==> (id in s.jobs && s.jobs[id].state == SUCCEEDED)
  }

  ghost predicate CommitsNow(hostOf: UrlParser, s: State, a: Action) {
    a.Advance? && a.call in s.calls && s.calls[a.call].phase.Commit? && CanCommit(s, s.calls[a.call].envelope)
  }

  /** The committed submission is one for the job the delivery names: what `ingest` could compare after recording. */
  ghost predicate NamesItsJob(s: State, e: Envelope) {
    e.idempotencyKey in s.rows && s.rows[e.idempotencyKey].envelope.jobId == e.jobId
  }

  lemma {:induction false} WithoutCommit(hostOf: UrlParser, s: State, a: Action)
    requires Inv(hostOf, s) && !CommitsNow(hostOf, s, a)
    ensures forall id :: JobCommitted(s, id) <==> JobCommitted(Step(hostOf, s, a), id)
    ensures forall id :: (id in s.jobs && s.jobs[id].state == SUCCEEDED)
                    <==> (id in Step(hostOf, s, a).jobs && Step(hostOf, s, a).jobs[id].state == SUCCEEDED)
  {
    var t := Step(hostOf, s, a);
    RowsEvolve(hostOf, s, a);
    forall id ensures JobCommitted(s, id) <==> JobCommitted(t, id) {
      if JobCommitted(s, id) {
        var key :| key in s.rows && s.rows[key].state == COMMITTED && s.rows[key].envelope.jobId == id;
        assert RowEvolves(s, t, key);
      }
      if JobCommitted(t, id) {
        var key :| key in t.rows && t.rows[key].state == COMMITTED && t.rows[key].envelope.jobId == id;
        assert RowEvolves(s, t, key);
        if !IsCommitted(s, key) {
          CommitsOne(hostOf, s, a, key);
        }
      }
    }
    forall id ensures (id in s.jobs && s.jobs[id].state == SUCCEEDED)
        <==> (id in t.jobs && t.jobs[id].state == SUCCEEDED) {
      SucceedsOnlyByCommit(hostOf, s, a, id);
    }
  }

  lemma {:induction false} SucceedsOnlyByCommit(hostOf: UrlParser, s: State, a: Action, id: string)
    requires JobsOk(s) && !CommitsNow(hostOf, s, a)
    ensures (id in s.jobs && s.jobs[id].state == SUCCEEDED)
       <==> (id in Step(hostOf, s, a).jobs && Step(hostOf, s, a).jobs[id].state == SUCCEEDED)
  {
  }

  lemma {:induction false} AtCommit(hostOf: UrlParser, s: State, a: Action)
    requires CommitsNow(hostOf, s, a)
    ensures var e, t := s.calls[a.call].envelope, Step(hostOf, s, a);
            && (forall id :: JobCommitted(t, id)
                  <==> JobCommitted(s, id) || id == s.rows[e.idempotencyKey].envelope.jobId)
            && (forall id :: (id in t.jobs && t.jobs[id].state == SUCCEEDED)
                        <==> (id in s.jobs && s.jobs[id].state == SUCCEEDED) || id == e.jobId)
  {
    var e, t := s.calls[a.call].envelope, Step(hostOf, s, a);
    forall id ensures JobCommitted(t, id) <==> JobCommitted(s, id) || id == s.rows[e.idempotencyKey].envelope.jobId {
      if JobCommitted(s, id) {
        var key :| key in s.rows && s.rows[key].state == COMMITTED && s.rows[key].envelope.jobId == id;
        assert t.rows[key] == s.rows[key];
      }
      assert t.rows[e.idempotencyKey].state == COMMITTED;
    }
  }

  /** A step keeps the agreement, unless it commits a submission of another job: then it breaks it. */
  lemma {:induction false} AgreementStep(hostOf: UrlParser, s: State, a: Action)
    requires Inv(hostOf, s) && Agree(s)
    ensures Agree(Step(hostOf, s, a))
       <==> (CommitsNow(hostOf, s, a) ==> NamesItsJob(s, s.calls[a.call].envelope))
  {
    if !CommitsNow(hostOf, s, a) {
      WithoutCommit(hostOf, s, a);
    } else {
      AtCommit(hostOf, s, a);
      var e := s.calls[a.call].envelope;
      assert !JobCommitted(s, e.jobId);
      assert JobCommitted(Step(hostOf, s, a), s.rows[e.idempotencyKey].envelope.jobId);
    }
  }

  // ---- keys that determine what is sent under them

  ghost predicate SentAs<T>(f: Envelope -> T, want: string -> T, e: Envelope) {
    f(e) == want(e.idempotencyKey)
  }

  /** Every delivery and every submission carries what its key stands for. */
  ghost predicate Tagged<T>(f: Envelope -> T, want: string -> T, s: State) {
    && (forall key :: key in s.rows
          ==> s.rows[key].envelope.idempotencyKey == key && SentAs(f, want, s.rows[key].envelope))
    && (forall call :: call in s.calls ==> SentAs(f, want, s.calls[call].envelope))
  }

  ghost predicate AllSentAs<T>(f: Envelope -> T, want: string -> T, actions: seq<Action>) {
    forall i :: 0 <= i < |actions| && actions[i].Deliver? ==> SentAs(f, want, actions[i].envelope)
  }

  lemma {:induction false} TaggedKept<T>(hostOf: UrlParser, f: Envelope -> T, want: string -> T, s: State, a: Action)
    requires Inv(hostOf, s) && Tagged(f, want, s) && (a.Deliver? ==> SentAs(f, want, a.envelope))
    ensures Tagged(f, want, Step(hostOf, s, a))
  {
    var t := Step(hostOf, s, a);
    InvKept(hostOf, s, a);
    RowsEvolve(hostOf, s, a);
    forall key | key in t.rows ensures t.rows[key].envelope.idempotencyKey == key
        && SentAs(f, want, t.rows[key].envelope) {
      assert RowOk(t, key) && RowEvolves(s, t, key);
      if key !in s.rows {
        NewRowIsSent(hostOf, s, a, key);
      }
    }
    forall call | call in t.calls ensures SentAs(f, want, t.calls[call].envelope) {
      CallsKeepEnvelopes(hostOf, s, a, call);
    }
  }

  lemma {:induction false} NewRowIsSent(hostOf: UrlParser, s: State, a: Action, key: string)
    requires key in Step(hostOf, s, a).rows && key !in s.rows
    ensures a.Advance? && a.call in s.calls && Step(hostOf, s, a).rows[key].envelope == s.calls[a.call].envelope
  {
  }

  lemma {:induction false} CallsKeepEnvelopes(hostOf: UrlParser, s: State, a: Action, call: nat)
    requires call in Step(hostOf, s, a).calls
    ensures if call in s.calls then Step(hostOf, s, a).calls[call].envelope == s.calls[call].envelope
            else a.Deliver? && Step(hostOf, s, a).calls[call].envelope == a.envelope
  {
  }

  lemma {:induction false} AgreementOverRuns(hostOf: UrlParser, owner: string -> string, s: State, actions: seq<Action>)
    requires Inv(hostOf, s) && Agree(s) && Tagged(JobOf, owner, s) && AllSentAs(JobOf, owner, actions)
    ensures Agree(Run(hostOf, s, actions))
    decreases |actions|
  {
    if actions != [] {
      var a := actions[0];
      InvKept(hostOf, s, a);
      TaggedKept(hostOf, JobOf, owner, s, a);
      AgreementStep(hostOf, s, a);
      if CommitsNow(hostOf, s, a) {
        var e := s.calls[a.call].envelope;
        assert SentAs(JobOf, owner, e) && SentAs(JobOf, owner, s.rows[e.idempotencyKey].envelope);
      }
      AgreementOverRuns(hostOf, owner, Step(hostOf, s, a), actions[1..]);
    }
  }

  function JobOf(e: Envelope): string { e.jobId }

  // ---- the keys workers use

  /** `resultIdempotencyKey`. */
  function ResultKey(jobId: string, attempt: nat): string {
    "res" + ":" + (jobId + ":" + Decimal(attempt))
  }

  function OwnerOfKey(key: string): string {
    if |Split(':', key)| > 1 then Split(':', key)[1] else key
  }

  /** A worker's key names its job: job ids hold no colon. */
  lemma {:induction false} ResultKeyNamesJob(jobId: string, attempt: nat)
    requires ':' !in jobId
    ensures OwnerOfKey(ResultKey(jobId, attempt)) == jobId
  {
    SplitHead(':', "res", jobId + ":" + Decimal(attempt));
    SplitHead(':', jobId, Decimal(attempt));
  }

  ghost predicate HonestKey(e: Envelope) {
    ':' !in e.jobId && exists n: nat :: e.idempotencyKey == ResultKey(e.jobId, n)
  }

  /**
   * Whatever else happens, with the keys workers are given a job is SUCCEEDED exactly when it has a
   * committed submission.
   */
  lemma {:induction false} SucceededExactlyWhenCommitted(hostOf: UrlParser, actions: seq<Action>, id: string)
    requires forall i :: 0 <= i < |actions| && actions[i].Deliver? ==> HonestKey(actions[i].envelope)
    ensures var s := Run(hostOf, INITIAL, actions);
            (id in s.jobs && s.jobs[id].state == SUCCEEDED) <==> JobCommitted(s, id)
  {
    forall i | 0 <= i < |actions| && actions[i].Deliver? ensures SentAs(JobOf, OwnerOfKey, actions[i].envelope) {
      var e := actions[i].envelope;
      var n: nat :| e.idempotencyKey == ResultKey(e.jobId, n);
      ResultKeyNamesJob(e.jobId, n);
    }
    AgreementOverRuns(hostOf, OwnerOfKey, INITIAL, actions);
  }

  // ---- what was checked is what was committed

  function Whole(e: Envelope): Envelope { e }

  /**
   * At any commit in any run: if the recorded envelope is the delivered one,
   * which `ingest` has at hand once it has recorded, then what the committed
   * row holds is what passed the policy check.
   */
  lemma {:induction false} CommittedWasChecked(hostOf: UrlParser, actions: seq<Action>, a: Action, key: string)
    requires var s := Run(hostOf, INITIAL, actions); !IsCommitted(s, key) && IsCommitted(Step(hostOf, s, a), key)
    ensures var s := Run(hostOf, INITIAL, actions);
            && a.Advance? && a.call in s.calls && s.calls[a.call].phase.Commit? && s.calls[a.call].snapshot.Some?
            && key in s.rows
            && (s.rows[key].envelope == s.calls[a.call].envelope ==>
                  PolicyHolds(hostOf, Step(hostOf, s, a).rows[key].envelope,
                              s.calls[a.call].snapshot.value.bundleSha256, s.calls[a.call].phase.view))
  {
    var s := Run(hostOf, INITIAL, actions);
    RunKeepsInv(hostOf, INITIAL, actions);
    CommitIsGated(hostOf, s, a, key);
    CommitsOne(hostOf, s, a, key);
    assert CallOk(hostOf, s, s.calls[a.call]);
    RowsEvolve(hostOf, s, a);
    assert RowEvolves(s, Step(hostOf, s, a), key);
  }

  /** So when every delivery under one key carries the same envelope, everything committed was checked. */
  lemma {:induction false} EqualKeysWereChecked(
    hostOf: UrlParser, sent: string -> Envelope, actions: seq<Action>, a: Action, key: string)
    requires AllSentAs(Whole, sent, actions)
    requires var s := Run(hostOf, INITIAL, actions); !IsCommitted(s, key) && IsCommitted(Step(hostOf, s, a), key)
    ensures var s := Run(hostOf, INITIAL, actions);
            && a.Advance? && a.call in s.calls && s.calls[a.call].phase.Commit? && s.calls[a.call].snapshot.Some?
            && PolicyHolds(hostOf, Step(hostOf, s, a).rows[key].envelope,
                           s.calls[a.call].snapshot.value.bundleSha256, s.calls[a.call].phase.view)
  {
    var s := Run(hostOf, INITIAL, actions);
    RunKeepsInv(hostOf, INITIAL, actions);
    TaggedOverRuns(hostOf, Whole, sent, INITIAL, actions);
    CommittedWasChecked(hostOf, actions, a, key);
    CommitsOne(hostOf, s, a, key);
    assert SentAs(Whole, sent, s.calls[a.call].envelope) && SentAs(Whole, sent, s.rows[key].envelope);
  }

  lemma {:induction false} TaggedOverRuns<T>(
      hostOf: UrlParser, f: Envelope -> T, want: string -> T, s: State, actions: seq<Action>)
    requires Inv(hostOf, s) && Tagged(f, want, s) && AllSentAs(f, want, actions)
    ensures Tagged(f, want, Run(hostOf, s, actions))
    decreases |actions|
  {
    if actions != [] {
      InvKept(hostOf, s, actions[0]);
      TaggedKept(hostOf, f, want, s, actions[0]);
      TaggedOverRuns(hostOf, f, want, Step(hostOf, s, actions[0]), actions[1..]);
    }
  }
}
