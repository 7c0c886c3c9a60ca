/** When the answer a delivery gets is the one every later delivery is told. */
module IngestAnswers {
  import opened JsonText
  import opened Policy
  import opened Ingest
  import opened IngestInvariant
  import opened IngestSafety

  predicate SameKind(a: Outcome, b: Outcome) {
    || (a.Committed? && b.Committed?) || (a.Superseded? && b.Superseded?)
    || (a.Quarantined? && b.Quarantined? && a.why == b.why)
  }

  // ---- the way a delivery took through the gates

  /** The lease was valid as the delivery read it, and the worker reported a failure: the third gate's branch. */
  predicate ReportsFailure(c: Call) {
    c.snapshot.Some? && LeaseValid(c.snapshot.value, c.envelope, c.worker) && c.envelope.failure.Some?
  }

  predicate InFailure(phase: Phase) {
    phase.ReadFailing? || phase.WriteFailing? || phase.MarkFailed?
  }

  ghost predicate RouteOk(c: Call) {
    && (InFailure(c.phase) ==> ReportsFailure(c))
    && (c.phase.MarkStale? || (PastGate(c.phase) && !InFailure(c.phase)) ==> !ReportsFailure(c))
    && (c.phase.Done? && !c.phase.replayed && c.phase.outcome != Invalid ==>
          (c.phase.outcome.JobFailed? <==> ReportsFailure(c)))
  }

  ghost predicate RoutesOk(s: State) {
    forall call :: call in s.calls ==> RouteOk(s.calls[call])
  }

  lemma {:induction false} RouteMoves(hostOf: UrlParser, s: State, call: nat, view: View, why: Violation)
    requires call in s.calls && RouteOk(s.calls[call])
    ensures RouteOk(Proceed(hostOf, s, call, view, why).calls[call])
  {
  }

  lemma {:induction false} RoutesKept(hostOf: UrlParser, s: State, a: Action)
    requires RoutesOk(s)
    ensures RoutesOk(Step(hostOf, s, a))
  {
    var t := Step(hostOf, s, a);
    forall call | call in t.calls ensures RouteOk(t.calls[call]) {
      if a.Advance? && a.call == call {
        assert RouteOk(s.calls[call]);
        RouteMoves(hostOf, s, call, a.view, a.why);
      } else if a.Crash? && a.call == call {
      } else {
        OtherCalls(hostOf, s, a, call);
      }
    }
  }

  lemma {:induction false} RoutesOverRuns(hostOf: UrlParser, s: State, actions: seq<Action>)
    requires RoutesOk(s)
    ensures RoutesOk(Run(hostOf, s, actions))
    decreases |actions|
  {
    if actions != [] {
      RoutesKept(hostOf, s, actions[0]);
      RoutesOverRuns(hostOf, Step(hostOf, s, actions[0]), actions[1..]);
    }
  }

  /** The delivery has judged its submission and answered. */
  ghost predicate AnsweredAsJudge(s: State, call: nat) {
    call in s.calls && s.calls[call].phase.Done?
    && var key := s.calls[call].envelope.idempotencyKey;
       key in s.rows && s.rows[key].judge == Some(call)
  }

  /**
   * In every run, what the judging delivery answered is what a delivery under
   * its key that starts later is told, if and only if the judging one did not
   * report a failure under a lease that was valid when it read the job.
   */
  lemma {:induction false} VerdictIsRepeated(
    hostOf: UrlParser, actions: seq<Action>, call: nat, later: seq<Action>, again: nat)
    requires var s := Run(hostOf, INITIAL, actions);
             && AnsweredAsJudge(s, call) && again in s.calls && Waiting(s.calls[again].phase)
             && s.calls[again].envelope.idempotencyKey == s.calls[call].envelope.idempotencyKey
    ensures var s := Run(hostOf, INITIAL, actions);
            var t := Run(hostOf, s, later);
            && again in t.calls
            && (t.calls[again].phase.Done? && t.calls[again].phase.outcome != Invalid ==>
                  (SameKind(s.calls[call].phase.outcome, t.calls[again].phase.outcome) <==>
                    !ReportsFailure(s.calls[call])))
  {
    var s := Run(hostOf, INITIAL, actions);
    var key := s.calls[call].envelope.idempotencyKey;
    RunKeepsInv(hostOf, INITIAL, actions);
    RoutesOverRuns(hostOf, INITIAL, actions);
    assert RowOk(s, key) && RouteOk(s.calls[call]);
    JudgeAnswered(s, call);
    LaterDeliveryRepeats(hostOf, s, later, again);
  }

  /** Where the judging delivery stands against its row. */
  lemma {:induction false} JudgeAnswered(s: State, call: nat)
    requires AnsweredAsJudge(s, call) && RouteOk(s.calls[call]) && RowOk(s, s.calls[call].envelope.idempotencyKey)
    ensures var row := s.rows[s.calls[call].envelope.idempotencyKey];
            row.state != RECEIVED
            && (SameKind(s.calls[call].phase.outcome, PriorOutcome(row)) <==> !ReportsFailure(s.calls[call]))
  {
  }

  // ---- a delivery that comes to a row another has judged

  /** The answer a delivery has given, or can only give now. */
  function AnswerOf(phase: Phase): Option<Outcome> {
    match phase
    case Done(outcome, _) => Some(outcome)
    case ReadDead(v) => Some(Quarantined(Some(v)))
    case WriteDead(v, _) => Some(Quarantined(Some(v)))
    case _ => None
  }

  lemma {:induction false} AnswerStandsStep(hostOf: UrlParser, s: State, a: Action, call: nat)
    requires call in s.calls && AnswerOf(s.calls[call].phase).Some?
    ensures var t := Step(hostOf, s, a);
            call in t.calls && (t.calls[call].phase.Crashed?
              || AnswerOf(t.calls[call].phase) == AnswerOf(s.calls[call].phase))
            && t.calls[call].envelope == s.calls[call].envelope
  {
    CallsStay(hostOf, s, a, call);
    if !(a.Advance? && a.call == call) && !(a.Crash? && a.call == call) {
      OtherCalls(hostOf, s, a, call);
    }
  }

  lemma {:induction false} CrashedStays(hostOf: UrlParser, s: State, actions: seq<Action>, call: nat)
    requires call in s.calls && s.calls[call].phase.Crashed?
    ensures call in Run(hostOf, s, actions).calls && Run(hostOf, s, actions).calls[call].phase.Crashed?
    decreases |actions|
  {
    if actions != [] {
      CallsStay(hostOf, s, actions[0], call);
      if !(actions[0].Advance? && actions[0].call == call) && !(actions[0].Crash? && actions[0].call == call) {
        OtherCalls(hostOf, s, actions[0], call);
      }
      CrashedStays(hostOf, Step(hostOf, s, actions[0]), actions[1..], call);
    }
  }

  lemma {:induction false} AnswerStands(hostOf: UrlParser, s: State, actions: seq<Action>, call: nat)
    requires call in s.calls && AnswerOf(s.calls[call].phase).Some?
    ensures var t := Run(hostOf, s, actions);
            call in t.calls && (t.calls[call].phase.Crashed?
              || AnswerOf(t.calls[call].phase) == AnswerOf(s.calls[call].phase))
    decreases |actions|
  {
    if actions != [] {
      var t := Step(hostOf, s, actions[0]);
      AnswerStandsStep(hostOf, s, actions[0], call);
      if t.calls[call].phase.Crashed? {
        CrashedStays(hostOf, t, actions[1..], call);
      } else {
        AnswerStands(hostOf, t, actions[1..], call);
      }
    }
  }

  /** The delivery is at the statement that would reject its submission. */
  predicate Marks(phase: Phase) {
    phase.MarkStale? || phase.MarkFailed? || phase.MarkQuarantined? || phase.MarkLost?
  }

  /** The row that statement finds waits to be rejected, or was already rejected the way it is about to. */
  predicate FindsItsVerdict(phase: Phase, row: Row) {
    match phase
    case MarkQuarantined(v) => row.state == RECEIVED || (row.state == QUARANTINED && row.reason == Some(Violates(v)))
    case MarkFailed(_, _) => false
    case _ => row.state == RECEIVED || row.state == SUPERSEDED
  }

  /** The row a rejecting statement leaves. */
  function Rejected(phase: Phase, row: Row, call: nat): Row
    requires Marks(phase)
  {
    match phase
    case MarkStale => Marked(row, SUPERSEDED, NotCurrent, call)
    case MarkFailed(kind, _) => Marked(row, SUPERSEDED, WorkerReported(kind), call)
    case MarkQuarantined(v) => Marked(row, QUARANTINED, Violates(v), call)
    case MarkLost => Marked(row, SUPERSEDED, CommittedFirst, call)
  }

  /** The answer that follows it. */
  function Rejection(phase: Phase): Outcome
    requires Marks(phase)
  {
    match phase
    case MarkQuarantined(v) => Quarantined(Some(v))
    case MarkFailed(_, disposition) => JobFailed(disposition)
    case _ => Superseded
  }

  lemma {:induction false} MarkStep(hostOf: UrlParser, s: State, call: nat, view: View, why: Violation)
    requires call in s.calls && Marks(s.calls[call].phase) && s.calls[call].envelope.idempotencyKey in s.rows
    ensures var c, t := s.calls[call], Proceed(hostOf, s, call, view, why);
            var key := c.envelope.idempotencyKey;
            && key in t.rows && t.rows[key] == Rejected(c.phase, s.rows[key], call)
            && call in t.calls && AnswerOf(t.calls[call].phase) == Some(Rejection(c.phase))
  {
  }

  lemma {:induction false} RejectionFits(phase: Phase, row: Row, call: nat)
    requires Marks(phase)
    ensures Rejected(phase, row, call).state != RECEIVED
    ensures SameKind(Rejection(phase), PriorOutcome(Rejected(phase, row, call))) <==> FindsItsVerdict(phase, row)
  {
  }

  /** The row as the rejecting statement leaves it, judged, and the answer that follows. */
  lemma {:induction false} MarkJudges(hostOf: UrlParser, s: State, call: nat, view: View, why: Violation)
    requires Inv(hostOf, s) && call in s.calls && Marks(s.calls[call].phase)
    ensures var c, t := s.calls[call], Proceed(hostOf, s, call, view, why);
            var key := c.envelope.idempotencyKey;
            && key in s.rows && key in t.rows && t.rows[key].state != RECEIVED
            && call in t.calls && AnswerOf(t.calls[call].phase).Some?
            && (SameKind(AnswerOf(t.calls[call].phase).value, PriorOutcome(t.rows[key]))
                <==> FindsItsVerdict(c.phase, s.rows[key]))
  {
    var key := s.calls[call].envelope.idempotencyKey;
    assert AnswerOk(s, s.calls[call]);
    MarkStep(hostOf, s, call, view, why);
    RejectionFits(s.calls[call].phase, s.rows[key], call);
  }

  /**
   * A delivery that does not commit: its answer is the one later deliveries are
   * told, if and only if the statement by which it rejects the submission finds
   * it waiting, or rejected in that very way by another, and was not to
   * report a failure. What happens in between and afterwards does not matter.
   */
  lemma {:induction false} RejectionIsRepeatedExactlyWhen(
    hostOf: UrlParser, s: State, call: nat, view: View, why: Violation, later: seq<Action>)
    requires Inv(hostOf, s) && call in s.calls && Marks(s.calls[call].phase)
    ensures var c, t := s.calls[call], Run(hostOf, Proceed(hostOf, s, call, view, why), later);
            var key := c.envelope.idempotencyKey;
            && key in s.rows && key in t.rows && call in t.calls
            && (t.calls[call].phase.Done? ==>
                  (SameKind(t.calls[call].phase.outcome, PriorOutcome(t.rows[key])) <==>
                    FindsItsVerdict(c.phase, s.rows[key])))
  {
    var t := Proceed(hostOf, s, call, view, why);
    MarkJudges(hostOf, s, call, view, why);
    AnswerStands(hostOf, t, later, call);
    VerdictIsFinal(hostOf, t, later, s.calls[call].envelope.idempotencyKey);
  }
}
