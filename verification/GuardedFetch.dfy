/** The fetch extensions are given: allow-listed on every hop, bounded, and spaced out per host. */
module GuardedFetch {
  import opened JsonText
  import opened Policy

  datatype Url = Url(text: string, protocol: string, hostname: string)

  /** A body, and whether it can be sent again: a stream cannot. */
  datatype Body = Body(content: string, replayable: bool)

  datatype Options = Options(allowedHosts: seq<string>, maxRetries: nat, maxRedirects: nat)

  /** What comes back for one request. */
  datatype Reply =
    | TransportError(aborted: bool)
    | Response(status: int, location: Option<string>)

  /** Everything outside: parsing, and the answer to the n-th request. */
  datatype World = World(hostOf: UrlParser, parse: string -> Option<Url>, resolve: (string, Url) -> Option<Url>,
    reply: nat -> Reply)

  datatype Outcome =
    | Returned(reply: Reply)
    | Failed
    | HostRefused
    | TooManyRedirects
    | BadLocation

  /** One request as it leaves. */
  datatype Sent = Sent(url: Url, verb: string, body: Option<Body>)

  /** The loop's variables at the head of an iteration. */
  datatype Turn = Turn(url: Url, verb: string, body: Option<Body>, attempt: nat, redirects: nat)

  predicate Allowed(o: Options, w: World, url: Url) {
    && (url.protocol == "http:" || url.protocol == "https:")
    && HostAllowed(w.hostOf, url.text, o.allowedHosts)
  }

  predicate IsRedirect(status: int) {
    status == 301 || status == 302 || status == 303 || status == 307 || status == 308
  }

  predicate Replayable(body: Option<Body>) {
    body == None || body.value.replayable
  }

  /** A redirect answered this way goes on as a GET without a body. */
  predicate DropsBody(status: int, verb: string) {
    status == 303 || ((status == 301 || status == 302) && verb == "POST")
  }

  datatype Verdict = Finish(outcome: Outcome) | Again(turn: Turn)

  function Follow(o: Options, w: World, t: Turn, status: int, location: string): Verdict {
    if t.redirects >= o.maxRedirects then Finish(TooManyRedirects)
    else
      match w.resolve(location, t.url)
      case None => Finish(BadLocation)
      case Some(target) =>
        if !Allowed(o, w, target) then Finish(HostRefused)
        else if DropsBody(status, t.verb) then Again(Turn(target, "GET", None, 0, t.redirects + 1))
        else Again(Turn(target, t.verb, t.body, 0, t.redirects + 1))
  }

  /** What one reply leads to; `again` says whether the first body could be sent again. */
  function Decide(o: Options, w: World, t: Turn, again: bool, reply: Reply): Verdict {
    match reply
    case TransportError(aborted) =>
      if aborted || t.attempt >= o.maxRetries || !again then Finish(Failed) else Again(t.(attempt := t.attempt + 1))
    case Response(status, location) =>
      if IsRedirect(status) then
        if location == None || location.value == "" then Finish(Returned(reply))
        else Follow(o, w, t, status, location.value)
      else if status == 429 && t.attempt < o.maxRetries then Again(t.(attempt := t.attempt + 1))
      else if status >= 500 && t.attempt < o.maxRetries && again then Again(t.(attempt := t.attempt + 1))
      else Finish(Returned(reply))
  }

  /** Turns the loop can be at. */
  predicate InRange(o: Options, t: Turn) {
    t.attempt <= o.maxRetries && t.redirects <= o.maxRedirects
  }

  lemma {:induction false} DecideStaysInRange(o: Options, w: World, t: Turn, again: bool, reply: Reply)
    requires InRange(o, t)
    ensures var v := Decide(o, w, t, again, reply);
            v.Again? ==>
              && InRange(o, v.turn)
              && (v.turn.redirects == t.redirects + 1
                    || (v.turn.redirects == t.redirects && v.turn.attempt == t.attempt + 1))
  {
  }

  /** The requests that leave from a turn on; the n-th request gets the n-th reply. */
  function Requests(o: Options, w: World, t: Turn, again: bool, n: nat): seq<Sent>
    requires InRange(o, t)
    decreases o.maxRedirects - t.redirects, o.maxRetries - t.attempt
  {
    DecideStaysInRange(o, w, t, again, w.reply(n));
    var rest := match Decide(o, w, t, again, w.reply(n))
      case Finish(_) => []
      case Again(next) => Requests(o, w, next, again, n + 1);
    [Sent(t.url, t.verb, t.body)] + rest
  }

  function Result(o: Options, w: World, t: Turn, again: bool, n: nat): Outcome
    requires InRange(o, t)
    decreases o.maxRedirects - t.redirects, o.maxRetries - t.attempt
  {
    DecideStaysInRange(o, w, t, again, w.reply(n));
    match Decide(o, w, t, again, w.reply(n))
    case Finish(outcome) => outcome
    case Again(next) => Result(o, w, next, again, n + 1)
  }

  /**
   * `guarded`: the loop ends because a hop uses up a redirect and a retry an
   * attempt, although a hop gives the attempts back.
   */
  method Guarded(o: Options, w: World, input: string, verb: string, body: Option<Body>)
    returns (outcome: Outcome, issued: seq<Sent>)
    ensures w.parse(input) == None || !Allowed(o, w, w.parse(input).value) ==> outcome == HostRefused && issued == []
    ensures w.parse(input).Some? && Allowed(o, w, w.parse(input).value) ==>
      var first := Turn(w.parse(input).value, verb, body, 0, 0);
      issued == Requests(o, w, first, Replayable(body), 0) && outcome == Result(o, w, first, Replayable(body), 0)
  {
    issued := [];
    var parsed := w.parse(input);
    if parsed == None || !Allowed(o, w, parsed.value) {
      return HostRefused, issued;
    }
    var url, verbNow, payload := parsed.value, verb, body;
    var replayable := Replayable(body);
    var redirects, attempt := 0, 0;
    ghost var first := Turn(url, verb, body, 0, 0);
    while true
      invariant attempt <= o.maxRetries && redirects <= o.maxRedirects
      invariant issued + Requests(o, w, Turn(url, verbNow, payload, attempt, redirects), replayable, |issued|)
             == Requests(o, w, first, replayable, 0)
      invariant Result(o, w, Turn(url, verbNow, payload, attempt, redirects), replayable, |issued|)
             == Result(o, w, first, replayable, 0)
      decreases o.maxRedirects - redirects, o.maxRetries - attempt
    {
      ghost var turn, before := Turn(url, verbNow, payload, attempt, redirects), issued;
      var reply := w.reply(|issued|);
      issued := issued + [Sent(url, verbNow, payload)];
      RequestsStep(o, w, turn, replayable, before);
      if reply.TransportError? {
        if reply.aborted || attempt >= o.maxRetries || !replayable {
          return Failed, issued;
        }
        attempt := attempt + 1;
        continue;
      }
      if IsRedirect(reply.status) {
        if reply.location == None || reply.location.value == "" {
          return Returned(reply), issued;
        }
        if redirects >= o.maxRedirects {
          return TooManyRedirects, issued;
        }
        var target := w.resolve(reply.location.value, url);
        if target == None {
          return BadLocation, issued;
        }
        if !Allowed(o, w, target.value) {
          return HostRefused, issued;
        }
        redirects := redirects + 1;
        url := target.value;
        if reply.status == 303 || ((reply.status == 301 || reply.status == 302) && verbNow == "POST") {
          verbNow := "GET";
          payload := None;
        }
        attempt := 0;
        continue;
      }
      if reply.status == 429 && attempt < o.maxRetries {
        attempt := attempt + 1;
        continue;
      }
      if reply.status >= 500 && attempt < o.maxRetries && replayable {
        attempt := attempt + 1;
        continue;
      }
      return Returned(reply), issued;
    }
  }

  /** The first request of a turn moved to those already issued. */
  lemma {:induction false} RequestsStep(o: Options, w: World, t: Turn, again: bool, issued: seq<Sent>)
    requires InRange(o, t)
    ensures var v := Decide(o, w, t, again, w.reply(|issued|));
            var now := issued + [Sent(t.url, t.verb, t.body)];
            && (v.Finish? ==> issued + Requests(o, w, t, again, |issued|) == now
                              && Result(o, w, t, again, |issued|) == v.outcome)
            && (v.Again? ==>
                  && InRange(o, v.turn)
                  && issued + Requests(o, w, t, again, |issued|) == now + Requests(o, w, v.turn, again, |now|)
                  && Result(o, w, t, again, |issued|) == Result(o, w, v.turn, again, |now|))
  {
    DecideStaysInRange(o, w, t, again, w.reply(|issued|));
    var v := Decide(o, w, t, again, w.reply(|issued|));
    var first := [Sent(t.url, t.verb, t.body)];
    if v.Again? {
      var later := Requests(o, w, v.turn, again, |issued| + 1);
      assert Requests(o, w, t, again, |issued|) == first + later;
      assert issued + (first + later) == (issued + first) + later;
    } else {
      assert Requests(o, w, t, again, |issued|) == first;
    }
  }

  /** The loop's variables when the i-th request from a turn on leaves. */
  function TurnAt(o: Options, w: World, t: Turn, again: bool, n: nat, i: nat): (at: Turn)
    requires InRange(o, t) && i < |Requests(o, w, t, again, n)|
    ensures InRange(o, at)
    ensures var sent := Requests(o, w, t, again, n)[i];
        sent.url == at.url && sent.verb == at.verb && sent.body == at.body
    decreases i
  {
    DecideStaysInRange(o, w, t, again, w.reply(n));
    if i == 0 then t else TurnAt(o, w, Decide(o, w, t, again, w.reply(n)).turn, again, n + 1, i - 1)
  }

  // ---- when a call goes on, and what it ends with

  const REDIRECTS: set<int> := {301, 302, 303, 307, 308}

  /** Redirects are left, and the location names an allowed URL. */
  predicate Followed(o: Options, w: World, t: Turn, location: Option<string>) {
    && location.Some? && location.value != "" && t.redirects < o.maxRedirects
    && var target := w.resolve(location.value, t.url);
       target.Some? && Allowed(o, w, target.value)
  }

  /**
   * The four replies after which another request leaves: a fault that is no
   * abort, a status of 500 or more, each with attempts left and a first body
   * that can be sent again; a 429 with attempts left; a redirect that is followed.
   */
  predicate GoesOn(o: Options, w: World, t: Turn, again: bool, reply: Reply) {
    match reply
    case TransportError(aborted) => !aborted && again && t.attempt < o.maxRetries
    case Response(status, location) =>
      || (status in REDIRECTS && Followed(o, w, t, location))
      || (status == 429 && t.attempt < o.maxRetries)
      || (500 <= status && again && t.attempt < o.maxRetries)
  }

  /**
   * The turn after such a reply: the same request once more, or the redirect's, which a 303 and a
   * redirected POST turn into a GET.
   */
  predicate GoesOnTo(w: World, t: Turn, reply: Reply, next: Turn) {
    if reply.Response? && reply.status in REDIRECTS then
      && reply.location.Some? && w.resolve(reply.location.value, t.url) == Some(next.url)
      && next.redirects == t.redirects + 1 && next.attempt == 0
      && (if reply.status == 303 || (t.verb == "POST" && reply.status in {301, 302})
          then next.verb == "GET" && next.body == None
          else next.verb == t.verb && next.body == t.body)
    else
      next.url == t.url && next.verb == t.verb && next.body == t.body
      && next.redirects == t.redirects && next.attempt == t.attempt + 1
  }

  /** How a call ends by its last reply: with that reply, or with the error the reply leads to. */
  predicate EndsWith(o: Options, w: World, t: Turn, reply: Reply, outcome: Outcome) {
    if reply.TransportError? then outcome == Failed
    else if reply.status !in REDIRECTS || reply.location == None
      || reply.location.value == "" then outcome == Returned(reply)
    else if t.redirects >= o.maxRedirects then outcome == TooManyRedirects
    else if w.resolve(reply.location.value, t.url) == None then outcome == BadLocation
    else outcome == HostRefused && !Allowed(o, w, w.resolve(reply.location.value, t.url).value)
  }

  lemma {:induction false} DecidesToGoOn(o: Options, w: World, t: Turn, again: bool, reply: Reply)
    ensures var v := Decide(o, w, t, again, reply);
            && (v.Again? <==> GoesOn(o, w, t, again, reply))
            && (v.Again? ==> GoesOnTo(w, t, reply, v.turn))
            && (v.Finish? ==> EndsWith(o, w, t, reply, v.outcome))
  {
  }

  lemma {:induction false} FirstIsFollowed(o: Options, w: World, t: Turn, again: bool, n: nat)
    requires InRange(o, t)
    ensures var sent := Requests(o, w, t, again, n);
            && (1 < |sent| <==> GoesOn(o, w, t, again, w.reply(n)))
            && (1 < |sent| ==> GoesOnTo(w, t, w.reply(n), TurnAt(o, w, t, again, n, 1)))
  {
    DecideStaysInRange(o, w, t, again, w.reply(n));
    DecidesToGoOn(o, w, t, again, w.reply(n));
    var v := Decide(o, w, t, again, w.reply(n));
    if v.Again? {
      assert TurnAt(o, w, t, again, n, 1) == TurnAt(o, w, v.turn, again, n + 1, 0);
    }
  }

  /** The requests after the first are those of the turn its reply leads to. */
  lemma {:induction false} AfterTheFirst(o: Options, w: World, t: Turn, again: bool, n: nat)
    requires InRange(o, t) && |Requests(o, w, t, again, n)| > 1
    ensures var v := Decide(o, w, t, again, w.reply(n));
            && v.Again? && InRange(o, v.turn)
            && |Requests(o, w, t, again, n)| == 1 + |Requests(o, w, v.turn, again, n + 1)|
            && Result(o, w, t, again, n) == Result(o, w, v.turn, again, n + 1)
  {
    DecideStaysInRange(o, w, t, again, w.reply(n));
  }

  /** A request is followed by another if and only if its reply is one of the four, and then by the one it leads to. */
  lemma {:induction false} FollowedByAnother(o: Options, w: World, t: Turn, again: bool, n: nat, i: nat)
    requires InRange(o, t) && i < |Requests(o, w, t, again, n)|
    ensures var at, reply, sent := TurnAt(o, w, t, again, n, i), w.reply(n + i), |Requests(o, w, t, again, n)|;
            && (i + 1 < sent <==> GoesOn(o, w, at, again, reply))
            && (i + 1 < sent ==> GoesOnTo(w, at, reply, TurnAt(o, w, t, again, n, i + 1)))
    decreases i
  {
    if i == 0 {
      FirstIsFollowed(o, w, t, again, n);
    } else {
      AfterTheFirst(o, w, t, again, n);
      FollowedByAnother(o, w, Decide(o, w, t, again, w.reply(n)).turn, again, n + 1, i - 1);
    }
  }

  /** A call ends with its last reply, or the error that reply leads to, by that reply and its turn alone. */
  lemma {:induction false} EndsByTheLastReply(o: Options, w: World, t: Turn, again: bool, n: nat, last: nat)
    requires InRange(o, t) && |Requests(o, w, t, again, n)| == last + 1
    ensures EndsWith(o, w, TurnAt(o, w, t, again, n, last), w.reply(n + last), Result(o, w, t, again, n))
    decreases last
  {
    if last == 0 {
      EndsAtOnce(o, w, t, again, n);
    } else {
      AfterTheFirst(o, w, t, again, n);
      EndsByTheLastReply(o, w, Decide(o, w, t, again, w.reply(n)).turn, again, n + 1, last - 1);
    }
  }

  lemma {:induction false} EndsAtOnce(o: Options, w: World, t: Turn, again: bool, n: nat)
    requires InRange(o, t) && |Requests(o, w, t, again, n)| == 1
    ensures EndsWith(o, w, t, w.reply(n), Result(o, w, t, again, n))
  {
    DecideStaysInRange(o, w, t, again, w.reply(n));
    DecidesToGoOn(o, w, t, again, w.reply(n));
  }

  // ---- what every call keeps to

  /** The requests a turn may still cause: the attempts left on this hop and all of every later hop. */
  function Allowance(o: Options, t: Turn): int {
    (o.maxRedirects - t.redirects) * (o.maxRetries + 1) + (o.maxRetries - t.attempt + 1)
  }

  lemma {:induction false} HopSpends(o: Options, redirects: int)
    ensures (o.maxRedirects - redirects) * (o.maxRetries + 1)
         == (o.maxRedirects - (redirects + 1)) * (o.maxRetries + 1) + (o.maxRetries + 1)
  {
  }

  lemma {:induction false} RequestsWithinAllowance(o: Options, w: World, t: Turn, again: bool, n: nat)
    requires InRange(o, t)
    ensures |Requests(o, w, t, again, n)| <= Allowance(o, t)
    decreases o.maxRedirects - t.redirects, o.maxRetries - t.attempt
  {
    DecideStaysInRange(o, w, t, again, w.reply(n));
    var v := Decide(o, w, t, again, w.reply(n));
    HopSpends(o, t.redirects);
    if v.Again? {
      RequestsWithinAllowance(o, w, v.turn, again, n + 1);
      if v.turn.redirects == t.redirects + 1 {
        assert Allowance(o, v.turn) <= (o.maxRedirects - (t.redirects + 1)) * (o.maxRetries + 1) + (o.maxRetries + 1);
      }
    } else {
      ProductNotNegative(o.maxRedirects - t.redirects, o.maxRetries + 1);
    }
  }

  lemma {:induction false} ProductNotNegative(a: int, b: int)
    requires a >= 0 && b >= 0
    ensures a * b >= 0
  {
  }

  /** However servers answer, one call sends at most (maxRedirects + 1) * (maxRetries + 1) requests. */
  lemma {:induction false} RequestBound(o: Options, w: World, url: Url, verb: string, body: Option<Body>)
    ensures |Requests(o, w, Turn(url, verb, body, 0, 0), Replayable(body), 0)|
         <= (o.maxRedirects + 1) * (o.maxRetries + 1)
  {
    RequestsWithinAllowance(o, w, Turn(url, verb, body, 0, 0), Replayable(body), 0);
    HopSpends(o, -1);
  }

  /** The answers that use the allowance up: a fault on every attempt but the last of a hop, then a redirect. */
  function Exhausting(o: Options): nat -> Reply {
    (n: nat) => if AttemptOf(n, o.maxRetries + 1) == o.maxRetries then Response(302, Some("next"))
      else Response(500, None)
  }

  /** Which attempt of its hop the n-th request is, when every hop makes `each`. */
  function AttemptOf(n: nat, each: nat): nat
    requires each > 0
  {
    if n < each then n else AttemptOf(n - each, each)
  }

  lemma {:induction false} HopAndAttempt(hops: nat, each: nat, attempt: nat)
    requires attempt < each
    ensures 0 <= hops * each + attempt && AttemptOf(hops * each + attempt, each) == attempt
  {
    if hops > 0 {
      HopAndAttempt(hops - 1, each, attempt);
      NextHop(hops - 1, each);
    }
  }

  lemma {:induction false} ExhaustingUsesAllowance(o: Options, w: World, t: Turn, n: nat)
    requires InRange(o, t) && Allowed(o, w, t.url)
    requires w.reply == Exhausting(o) && forall from: Url :: w.resolve("next", from) == Some(from)
    requires n == t.redirects * (o.maxRetries + 1) + t.attempt
    ensures |Requests(o, w, t, true, n)| == Allowance(o, t)
    decreases o.maxRedirects - t.redirects, o.maxRetries - t.attempt
  {
    HopAndAttempt(t.redirects, o.maxRetries + 1, t.attempt);
    HopSpends(o, t.redirects);
    var v := Decide(o, w, t, true, w.reply(n));
    if t.attempt < o.maxRetries {
      assert v == Again(t.(attempt := t.attempt + 1));
      ExhaustingUsesAllowance(o, w, v.turn, n + 1);
    } else if t.redirects < o.maxRedirects {
      NextHop(t.redirects, o.maxRetries + 1);
      ExhaustingUsesAllowance(o, w, v.turn, n + 1);
    } else {
      assert v == Finish(TooManyRedirects);
      assert Allowance(o, t) == 1 by { NoHopsLeft(o.maxRetries + 1); }
    }
  }

  lemma {:induction false} NextHop(hops: nat, each: nat)
    requires each > 0
    ensures hops * each + (each - 1) + 1 == (hops + 1) * each
  {
  }

  lemma {:induction false} NoHopsLeft(each: int)
    ensures 0 * each == 0
  {
  }

  /** The bound is exact: some answers make a call send every one of those requests. */
  lemma {:induction false} RequestBoundIsReached(
      o: Options, hostOf: UrlParser, parse: string -> Option<Url>, url: Url, verb: string)
    requires (url.protocol == "http:" || url.protocol == "https:") && HostAllowed(hostOf, url.text, o.allowedHosts)
    ensures var w := World(hostOf, parse, Stay(), Exhausting(o));
            |Requests(o, w, Turn(url, verb, None, 0, 0), true, 0)| == (o.maxRedirects + 1) * (o.maxRetries + 1)
  {
    var w := World(hostOf, parse, Stay(), Exhausting(o));
    NoHopsLeft(o.maxRetries + 1);
    ExhaustingUsesAllowance(o, w, Turn(url, verb, None, 0, 0), 0);
    HopSpends(o, -1);
  }

  /** A location that names the URL it came from. */
  function Stay(): (string, Url) -> Option<Url> {
    (location: string, from: Url) => Some(from)
  }

  /** Every request, on every hop and retry, goes over HTTP or HTTPS to an allowed host. */
  lemma {:induction false} RequestsAllowed(o: Options, w: World, t: Turn, again: bool, n: nat)
    requires InRange(o, t) && Allowed(o, w, t.url)
    ensures forall r :: r in Requests(o, w, t, again, n) ==>
              r.url.protocol in {"http:", "https:"} && HostAllowed(w.hostOf, r.url.text, o.allowedHosts)
    decreases o.maxRedirects - t.redirects, o.maxRetries - t.attempt
  {
    DecideStaysInRange(o, w, t, again, w.reply(n));
    var v := Decide(o, w, t, again, w.reply(n));
    if v.Again? {
      RequestsAllowed(o, w, v.turn, again, n + 1);
    }
  }

  /** Every request carries `body` or none, and none comes after one without. */
  ghost predicate BodiesFrom(sent: seq<Sent>, body: Option<Body>) {
    && (forall i :: 0 <= i < |sent| ==> sent[i].body == None || sent[i].body == body)
    && (forall i, j :: 0 <= i < j < |sent| && sent[i].body == None ==> sent[j].body == None)
  }

  lemma {:induction false} BodiesPrepend(first: Sent, rest: seq<Sent>, body: Option<Body>)
    requires BodiesFrom(rest, body) && (body == None || body == first.body)
    ensures BodiesFrom([first] + rest, first.body)
  {
    var sent := [first] + rest;
    forall i, j | 0 <= i < j < |sent| && sent[i].body == None ensures sent[j].body == None {
      assert sent[j] == rest[j - 1];
      if i > 0 { assert sent[i] == rest[i - 1]; }
    }
  }

  /** Once a redirect has dropped the body no later request carries one; until then every request carries the first. */
  lemma {:induction false} DroppedBodyStaysDropped(o: Options, w: World, t: Turn, again: bool, n: nat)
    requires InRange(o, t)
    ensures BodiesFrom(Requests(o, w, t, again, n), t.body)
    decreases o.maxRedirects - t.redirects, o.maxRetries - t.attempt
  {
    DecideStaysInRange(o, w, t, again, w.reply(n));
    var v := Decide(o, w, t, again, w.reply(n));
    if v.Again? {
      DroppedBodyStaysDropped(o, w, v.turn, again, n + 1);
      BodiesPrepend(Sent(t.url, t.verb, t.body), Requests(o, w, v.turn, again, n + 1), v.turn.body);
    }
  }

  /** A reply after which a body goes out once more, though it can be sent only once. */
  predicate Resends(o: Options, w: World, t: Turn, reply: Reply) {
    && reply.Response?
    && (|| (reply.status == 429 && t.attempt < o.maxRetries)
        || (IsRedirect(reply.status) && !DropsBody(reply.status, t.verb) && Followed(o, w, t, reply.location)))
  }

  /** The first request's body goes out a second time exactly when the first reply says so. */
  lemma {:induction false} OneShotFirst(o: Options, w: World, t: Turn, n: nat)
    requires InRange(o, t) && t.body.Some?
    ensures var sent := Requests(o, w, t, false, n);
            && (1 < |sent| && sent[1].body.Some? <==> Resends(o, w, t, w.reply(n)))
            && (1 < |sent| && sent[1].body.Some? ==> sent[1].body == t.body)
  {
    DecideStaysInRange(o, w, t, false, w.reply(n));
    OneShotNext(o, w, t, w.reply(n));
    var v := Decide(o, w, t, false, w.reply(n));
    if v.Again? {
      assert Requests(o, w, v.turn, false, n + 1)[0] == Sent(v.turn.url, v.turn.verb, v.turn.body);
    }
  }

  /**
   * A one-shot body that has been sent is sent again, unchanged, if and only if
   * the reply is a 429 and attempts are left, or a redirect that keeps the body
   * and is followed; never after a fault or a server error.
   */
  lemma {:induction false} OneShotBodySentAgain(o: Options, w: World, t: Turn, n: nat, i: nat)
    requires InRange(o, t) && i < |Requests(o, w, t, false, n)| && Requests(o, w, t, false, n)[i].body.Some?
    ensures var sent := Requests(o, w, t, false, n);
            && (i + 1 < |sent| && sent[i + 1].body.Some? <==>
                  Resends(o, w, TurnAt(o, w, t, false, n, i), w.reply(n + i)))
            && (i + 1 < |sent| && sent[i + 1].body.Some? ==> sent[i + 1].body == sent[i].body)
    decreases i
  {
    if i == 0 {
      OneShotFirst(o, w, t, n);
    } else {
      DecideStaysInRange(o, w, t, false, w.reply(n));
      var v := Decide(o, w, t, false, w.reply(n));
      var first, rest := Sent(t.url, t.verb, t.body), Requests(o, w, v.turn, false, n + 1);
      assert Requests(o, w, t, false, n) == [first] + rest;
      OneShotBodySentAgain(o, w, v.turn, n + 1, i - 1);
    }
  }

  lemma {:induction false} OneShotNext(o: Options, w: World, t: Turn, reply: Reply)
    requires t.body.Some?
    ensures var v := Decide(o, w, t, false, reply);
            && (v.Again? && v.turn.body.Some? <==> Resends(o, w, t, reply))
            && (v.Again? && v.turn.body.Some? ==> v.turn.body == t.body)
  {
  }
}
