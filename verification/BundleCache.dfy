/**
 * Agents on one host filling a shared bundle cache: every file-system call is one step, and any
 * agent can die between two.
 */
module BundleCache {
  import opened JsStrings
  import opened JsonText

  datatype Entry = Entry(name: string, content: string)

  datatype Tree = Tree(files: map<string, string>, marker: bool)

  /** A directory of the cache: a bundle's own, or one an agent stages in. */
  datatype Dir = Published(sha: string) | Staging(sha: string, token: nat)

  /** Whether `ensure` returned the directory or threw. */
  datatype Outcome = Ready | Threw

  datatype Phase =
    | Check
    | Fetch
    | MakeStaging
    | Extract(staging: Dir, next: nat)
    | WriteMarker(staging: Dir)
    | Publish(staging: Dir)
    | Recheck(staging: Dir)
    | Remove(staging: Dir, outcome: Outcome)
    | Done(outcome: Outcome)
    | Dead

  datatype Agent = Agent(sha: string, phase: Phase)

  datatype State = State(dirs: map<Dir, Tree>, agents: map<nat, Agent>, tokens: set<nat>)

  /** The entries of the archive a hash names: the download is checked against the hash. */
  type Archive = string -> seq<Entry>

  datatype Action =
    | Ensure(agent: nat, sha256: string)
    | Go(agent: nat, token: nat)
    | Fail(agent: nat)
    | Crash(agent: nat)

  predicate IsSha256(s: string) {
    |s| == 64 && forall i :: 0 <= i < 64 ==> '0' <= s[i] <= '9' || 'a' <= s[i] <= 'f'
  }

  /** The files the first entries leave: a later entry of the same name wins. */
  function Unpacked(entries: seq<Entry>): map<string, string> {
    if entries == [] then map[]
    else Unpacked(entries[..|entries| - 1])[entries[|entries| - 1].name := entries[|entries| - 1].content]
  }

  /** The tree a bundle's directory is to hold. */
  function Complete(archive: Archive, sha: string): Tree {
    Tree(Unpacked(archive(sha)), true)
  }

  predicate IsComplete(s: State, sha: string) {
    Published(sha) in s.dirs && s.dirs[Published(sha)].marker
  }

  function Move(s: State, id: nat, phase: Phase): State
    requires id in s.agents
  {
    s.(agents := s.agents[id := s.agents[id].(phase := phase)])
  }

  /** One file-system call of one agent that works. */
  function Next(archive: Archive, s: State, id: nat, token: nat): State
    requires id in s.agents
  {
    var a := s.agents[id];
    match a.phase
    case Check => Move(s, id, if IsComplete(s, a.sha) then Done(Ready) else Fetch)
    case Fetch => Move(s, id, MakeStaging)
    case MakeStaging =>
      if token in s.tokens then s
      else
        Move(s.(dirs := s.dirs[Staging(a.sha, token) := Tree(map[], false)], tokens := s.tokens + {token}), id,
             Extract(Staging(a.sha, token), 0))
    case Extract(staging, n) =>
      if n >= |archive(a.sha)| then Move(s, id, WriteMarker(staging))
      else if staging !in s.dirs then s
      else
        var e, t := archive(a.sha)[n], s.dirs[staging];
        Move(s.(dirs := s.dirs[staging := t.(files := t.files[e.name := e.content])]), id, Extract(staging, n + 1))
    case WriteMarker(staging) =>
      if staging !in s.dirs then s
      else Move(s.(dirs := s.dirs[staging := s.dirs[staging].(marker := true)]), id, Publish(staging))
    case Publish(staging) =>
      if staging !in s.dirs || Published(a.sha) in s.dirs then Move(s, id, Recheck(staging))
      else
        Move(s.(dirs := (s.dirs - {staging})[Published(a.sha) := s.dirs[staging]]), id, Remove(staging, Ready))
    case Recheck(staging) => Move(s, id, Remove(staging, if IsComplete(s, a.sha) then Ready else Threw))
    case Remove(staging, outcome) => Move(s.(dirs := s.dirs - {staging}), id, Done(outcome))
    case Done(_) => s
    case Dead => s
  }

  /** A call that throws: before staging the agent gives up, after it the finally block still runs. */
  function Throwing(s: State, id: nat): State
    requires id in s.agents
  {
    match s.agents[id].phase
    case Fetch => Move(s, id, Done(Threw))
    case MakeStaging => Move(s, id, Done(Threw))
    case Extract(staging, _) => Move(s, id, Remove(staging, Threw))
    case WriteMarker(staging) => Move(s, id, Remove(staging, Threw))
    case Publish(staging) => Move(s, id, Recheck(staging))
    case Remove(_, outcome) => Move(s, id, Done(outcome))
    case _ => s
  }

  function Step(archive: Archive, s: State, action: Action): State {
    match action
    case Ensure(id, sha256) =>
      if id in s.agents then s
      else
        var sha := Lower(sha256);
        s.(agents := s.agents[id := Agent(sha, if IsSha256(sha) then Check else Done(Threw))])
    case Go(id, token) => if id in s.agents then Next(archive, s, id, token) else s
    case Fail(id) => if id in s.agents then Throwing(s, id) else s
    case Crash(id) => if id in s.agents then Move(s, id, Dead) else s
  }

  function Run(archive: Archive, s: State, actions: seq<Action>): State
    decreases |actions|
  {
    if actions == [] then s else Run(archive, Step(archive, s, actions[0]), actions[1..])
  }

  // ---- invariants

  predicate Stages(p: Phase) {
    p.Extract? || p.WriteMarker? || p.Publish? || p.Recheck? || p.Remove?
  }

  /** What an agent at work has staged so far. */
  ghost predicate StagedOk(archive: Archive, s: State, a: Agent) {
    && (Stages(a.phase) ==>
          a.phase.staging.Staging? && a.phase.staging.sha == a.sha && a.phase.staging.token in s.tokens)
    && (a.phase.Extract? ==>
          && a.phase.next <= |archive(a.sha)|
          && a.phase.staging in s.dirs
             && s.dirs[a.phase.staging] == Tree(Unpacked(archive(a.sha)[..a.phase.next]), false))
    && (a.phase.WriteMarker? ==>
          a.phase.staging in s.dirs && s.dirs[a.phase.staging] == Tree(Unpacked(archive(a.sha)), false))
    && (a.phase.Publish? ==> a.phase.staging in s.dirs && s.dirs[a.phase.staging] == Complete(archive, a.sha))
    && ((a.phase.Remove? || a.phase.Done?) && a.phase.outcome == Ready ==> Published(a.sha) in s.dirs)
  }

  ghost predicate Inv(archive: Archive, s: State) {
    && (forall sha :: Published(sha) in s.dirs ==> s.dirs[Published(sha)] == Complete(archive, sha))
    && (forall d :: d in s.dirs && d.Staging? ==> d.token in s.tokens)
    && (forall id :: id in s.agents ==> StagedOk(archive, s, s.agents[id]))
    && (forall i, j :: StagingOf(s, i).Some? && StagingOf(s, i) == StagingOf(s, j) ==> i == j)
  }

  /** The staging directory an agent works in. */
  function StagingOf(s: State, id: nat): Option<Dir> {
    if id in s.agents && Stages(s.agents[id].phase) then Some(s.agents[id].phase.staging) else None
  }

  /**
   * What one agent's step can do to directories: only its own staging directory changes, and a
   * published one only appears.
   */
  lemma {:induction false} OthersUntouched(archive: Archive, s: State, action: Action, d: Dir)
    requires Inv(archive, s)
    requires d in s.dirs && (d.Published? || StagingOf(s, action.agent) != Some(d))
    ensures d in Step(archive, s, action).dirs && Step(archive, s, action).dirs[d] == s.dirs[d]
  {
    if action.agent in s.agents {
      assert StagedOk(archive, s, s.agents[action.agent]);
    }
  }

  lemma {:induction false} OtherAgents(archive: Archive, s: State, action: Action, id: nat)
    requires id != action.agent
    ensures id in Step(archive, s, action).agents <==> id in s.agents
    ensures id in s.agents ==> Step(archive, s, action).agents[id] == s.agents[id]
    ensures s.tokens <= Step(archive, s, action).tokens
  {
  }

  lemma {:induction false} UnpackedStep(entries: seq<Entry>, n: nat)
    requires n < |entries|
    ensures Unpacked(entries[..n + 1]) == Unpacked(entries[..n])[entries[n].name := entries[n].content]
  {
    assert entries[..n + 1][..n] == entries[..n];
  }

  /** What appears under a bundle's own name is complete. */
  lemma {:induction false} PublishedKept(archive: Archive, s: State, action: Action, sha: string)
    requires Inv(archive, s) && Published(sha) in Step(archive, s, action).dirs
    ensures Step(archive, s, action).dirs[Published(sha)] == Complete(archive, sha)
  {
    if action.agent in s.agents {
      assert StagedOk(archive, s, s.agents[action.agent]);
    }
    if Published(sha) in s.dirs {
      OthersUntouched(archive, s, action, Published(sha));
    }
  }

  lemma {:induction false} OwnAgentKept(archive: Archive, s: State, action: Action)
    requires Inv(archive, s) && action.agent in Step(archive, s, action).agents
    ensures StagedOk(archive, Step(archive, s, action), Step(archive, s, action).agents[action.agent])
  {
    if action.agent in s.agents {
      var a := s.agents[action.agent];
      assert StagedOk(archive, s, a);
      if a.phase.Extract? {
        if a.phase.next < |archive(a.sha)| {
          UnpackedStep(archive(a.sha), a.phase.next);
        } else {
          assert archive(a.sha)[..a.phase.next] == archive(a.sha);
        }
      }
      assert archive(a.sha)[..0] == [];
    }
  }

  lemma {:induction false} OtherAgentKept(archive: Archive, s: State, action: Action, id: nat)
    requires Inv(archive, s) && id != action.agent && id in s.agents
    ensures StagedOk(archive, Step(archive, s, action), s.agents[id])
  {
    var a := s.agents[id];
    assert StagedOk(archive, s, a);
    OtherAgents(archive, s, action, id);
    if Stages(a.phase) {
      assert StagingOf(s, id) == Some(a.phase.staging);
      assert StagingOf(s, action.agent) != Some(a.phase.staging);
      if a.phase.staging in s.dirs {
        OthersUntouched(archive, s, action, a.phase.staging);
      }
    }
    if Published(a.sha) in s.dirs {
      OthersUntouched(archive, s, action, Published(a.sha));
    }
  }

  /** An agent's staging directory was its own, or is new. */
  lemma {:induction false} StagingStep(archive: Archive, s: State, action: Action)
    ensures var before, after := StagingOf(s, action.agent), StagingOf(Step(archive, s, action), action.agent);
            after == None || after == before || (after.value.Staging? && after.value.token !in s.tokens)
  {
  }

  lemma {:induction false} TokensKept(archive: Archive, s: State, action: Action, d: Dir)
    requires Inv(archive, s) && d.Staging? && d in Step(archive, s, action).dirs
    ensures d.token in Step(archive, s, action).tokens
  {
    if action.agent in s.agents {
      assert StagedOk(archive, s, s.agents[action.agent]);
    }
  }

  lemma {:induction false} StagingsApart(archive: Archive, s: State, action: Action, i: nat, j: nat)
    requires Inv(archive, s) && i != action.agent && i != j
    requires StagingOf(Step(archive, s, action), i).Some?
    ensures StagingOf(Step(archive, s, action), i) != StagingOf(Step(archive, s, action), j)
  {
    OtherAgents(archive, s, action, i);
    assert StagingOf(Step(archive, s, action), i) == StagingOf(s, i);
    assert StagedOk(archive, s, s.agents[i]);
    if j == action.agent {
      StagingStep(archive, s, action);
    } else {
      OtherAgents(archive, s, action, j);
      assert StagingOf(Step(archive, s, action), j) == StagingOf(s, j);
      assert StagingOf(s, i) != StagingOf(s, j);
    }
  }

  lemma {:induction false} InvKept(archive: Archive, s: State, action: Action)
    requires Inv(archive, s)
    ensures Inv(archive, Step(archive, s, action))
  {
    var t := Step(archive, s, action);
    forall sha | Published(sha) in t.dirs ensures t.dirs[Published(sha)] == Complete(archive, sha) {
      PublishedKept(archive, s, action, sha);
    }
    forall d | d in t.dirs && d.Staging? ensures d.token in t.tokens {
      TokensKept(archive, s, action, d);
    }
    forall id | id in t.agents ensures StagedOk(archive, t, t.agents[id]) {
      if id == action.agent {
        OwnAgentKept(archive, s, action);
      } else {
        OtherAgents(archive, s, action, id);
        OtherAgentKept(archive, s, action, id);
      }
    }
    forall i, j | StagingOf(t, i).Some? && StagingOf(t, i) == StagingOf(t, j) ensures i == j {
      if i != j {
        if i != action.agent {
          StagingsApart(archive, s, action, i, j);
        } else {
          StagingsApart(archive, s, action, j, i);
        }
      }
    }
  }

  /**
   * However agents race and die, a bundle's directory is absent or complete;
   * once it is there no run changes it, whoever loses the race for it.
   */
  lemma {:induction false} PublishedStaysComplete(archive: Archive, s: State, actions: seq<Action>, sha: string)
    requires Inv(archive, s)
    ensures var t := Run(archive, s, actions);
            && Inv(archive, t)
            && (Published(sha) in t.dirs ==> t.dirs[Published(sha)] == Complete(archive, sha))
            && (Published(sha) in s.dirs ==>
                  Published(sha) in t.dirs && t.dirs[Published(sha)] == s.dirs[Published(sha)])
    decreases |actions|
  {
    if actions != [] {
      InvKept(archive, s, actions[0]);
      if Published(sha) in s.dirs {
        OthersUntouched(archive, s, actions[0], Published(sha));
      }
      PublishedStaysComplete(archive, Step(archive, s, actions[0]), actions[1..], sha);
    }
  }

  /** Every `ensure` that returns has its whole tree, then and afterwards. */
  lemma {:induction false} ReturnedIsWhole(
      archive: Archive, s: State, actions: seq<Action>, later: seq<Action>, id: nat)
    requires Inv(archive, s)
    requires var t := Run(archive, s, actions); id in t.agents && t.agents[id].phase == Done(Ready)
    ensures var t := Run(archive, s, actions);
            var u, dir := Run(archive, t, later), Published(t.agents[id].sha);
            dir in u.dirs && u.dirs[dir] == Complete(archive, t.agents[id].sha)
  {
    var t := Run(archive, s, actions);
    var sha := t.agents[id].sha;
    PublishedStaysComplete(archive, s, actions, sha);
    assert StagedOk(archive, t, t.agents[id]);
    PublishedStaysComplete(archive, t, later, sha);
  }

  /** The empty cache, or one whose directories earlier runs completed, is a place to start. */
  lemma {:induction false} StartsWell(archive: Archive, dirs: map<Dir, Tree>, tokens: set<nat>)
    requires forall sha :: Published(sha) in dirs ==> dirs[Published(sha)] == Complete(archive, sha)
    requires forall d :: d in dirs && d.Staging? ==> d.token in tokens
    ensures Inv(archive, State(dirs, map[], tokens))
  {
  }

  // ---- one call on its own

  lemma {:induction false} RunsOn(archive: Archive, s: State, first: seq<Action>, next: seq<Action>)
    ensures Run(archive, s, first + next) == Run(archive, Run(archive, s, first), next)
    decreases |first|
  {
    if first == [] {
      assert first + next == next;
    } else {
      assert (first + next)[1..] == first[1..] + next;
      RunsOn(archive, Step(archive, s, first[0]), first[1..], next);
    }
  }

  lemma {:induction false} RunsOne(archive: Archive, s: State, a: Action)
    ensures Run(archive, s, [a]) == Step(archive, s, a)
  {
    assert [a][1..] == [];
    assert Run(archive, Step(archive, s, a), []) == Step(archive, s, a);
  }

  /** One agent goes on for `n` file-system calls, none of which fails. */
  function Gos(id: nat, token: nat, n: nat): seq<Action> {
    if n == 0 then [] else [Go(id, token)] + Gos(id, token, n - 1)
  }

  lemma {:induction false} GosOne(archive: Archive, s: State, id: nat, token: nat, n: nat)
    requires n > 0 && id in s.agents
    ensures Run(archive, s, Gos(id, token, n)) == Run(archive, Next(archive, s, id, token), Gos(id, token, n - 1))
  {
    assert Gos(id, token, n)[0] == Go(id, token) && Gos(id, token, n)[1..] == Gos(id, token, n - 1);
  }

  /** The agent's state, the directories and the tokens: what a call changes. */
  function At(s: State, id: nat, phase: Phase, dirs: map<Dir, Tree>, tokens: set<nat>): State
    requires id in s.agents
  {
    Move(s.(dirs := dirs, tokens := tokens), id, phase)
  }

  /** A name that is no hash is refused before anything is touched; any other is looked up in lower case. */
  lemma {:induction false} EnsureBegins(archive: Archive, s: State, id: nat, sha256: string)
    requires id !in s.agents
    ensures var t, sha := Step(archive, s, Ensure(id, sha256)), Lower(sha256);
            && t.dirs == s.dirs && t.tokens == s.tokens
            && t.agents == s.agents[id := Agent(sha, t.agents[id].phase)]
            && (t.agents[id].phase == Check <==>
                  |sha| == 64 && forall i :: 0 <= i < |sha| ==> sha[i] in "0123456789abcdef")
            && (t.agents[id].phase != Check ==> t.agents[id].phase == Done(Threw))
  {
    HexDigits();
  }

  lemma {:induction false} HexDigits()
    ensures forall c: char :: c in "0123456789abcdef" <==> '0' <= c <= '9' || 'a' <= c <= 'f'
  {
    forall c: char ensures c in "0123456789abcdef" <==> '0' <= c <= '9' || 'a' <= c <= 'f' {
      if '0' <= c <= '9' {
        assert "0123456789abcdef"[c as int - '0' as int] == c;
      } else if 'a' <= c <= 'f' {
        assert "0123456789abcdef"[c as int - 'a' as int + 10] == c;
      }
    }
  }

  /** A complete directory is returned as it is: nothing is fetched or written. */
  lemma {:induction false} CompleteIsReturned(archive: Archive, s: State, id: nat, token: nat)
    requires id in s.agents && s.agents[id].phase == Check
    requires Published(s.agents[id].sha) in s.dirs && s.dirs[Published(s.agents[id].sha)].marker
    ensures Next(archive, s, id, token) == Move(s, id, Done(Ready))
  {
  }

  /** The entries are written one after the other. */
  lemma {:induction false} ExtractsAll(archive: Archive, s: State, id: nat, token: nat, n: nat)
    requires id in s.agents
    requires var a := s.agents[id];
             var staging := Staging(a.sha, token);
             && n <= |archive(a.sha)| && a.phase == Extract(staging, n)
             && staging in s.dirs && s.dirs[staging] == Tree(Unpacked(archive(a.sha)[..n]), false)
    ensures var a := s.agents[id];
            var staging := Staging(a.sha, token);
            Run(archive, s, Gos(id, token, |archive(a.sha)| - n))
              == At(s, id, Extract(staging, |archive(a.sha)|),
                    s.dirs[staging := Tree(Unpacked(archive(a.sha)), false)], s.tokens)
    decreases |archive(s.agents[id].sha)| - n
  {
    var a := s.agents[id];
    var staging, entries := Staging(a.sha, token), archive(a.sha);
    if n == |entries| {
      assert entries[..n] == entries;
      assert Gos(id, token, 0) == [];
    } else {
      UnpackedStep(entries, n);
      GosOne(archive, s, id, token, |entries| - n);
      ExtractsAll(archive, Next(archive, s, id, token), id, token, n + 1);
    }
  }

  /** Marked and published, the staged tree is the bundle's own directory, and the call returns it. */
  lemma {:induction false} PublishesAlone(archive: Archive, s: State, id: nat, token: nat, files: map<string, string>)
    requires id in s.agents
    requires var a := s.agents[id];
             var staging := Staging(a.sha, token);
             && a.phase == Extract(staging, |archive(a.sha)|)
             && staging in s.dirs && s.dirs[staging] == Tree(files, false) && Published(a.sha) !in s.dirs
    ensures var sha := s.agents[id].sha;
            Run(archive, s, Gos(id, token, 4))
              == At(s, id, Done(Ready), (s.dirs - {Staging(sha, token)})[Published(sha) := Tree(files, true)], s.tokens)
  {
    var sha := s.agents[id].sha;
    var staging := Staging(sha, token);
    var marking := Move(s, id, WriteMarker(staging));
    var marked := At(s, id, Publish(staging), s.dirs[staging := Tree(files, true)], s.tokens);
    var after := (s.dirs - {staging})[Published(sha) := Tree(files, true)];
    var published := At(s, id, Remove(staging, Ready), after, s.tokens);
    assert Next(archive, s, id, token) == marking;
    assert Next(archive, marking, id, token) == marked;
    assert s.dirs[staging := Tree(files, true)] - {staging} == s.dirs - {staging};
    assert Next(archive, marked, id, token) == published;
    assert after - {staging} == after;
    assert Next(archive, published, id, token) == At(s, id, Done(Ready), after, s.tokens);
    FourGos(archive, s, id, token, marking, marked, published);
  }

  lemma {:induction false} FourGos(archive: Archive, s: State, id: nat, token: nat, t: State, u: State, v: State)
    requires id in s.agents && id in t.agents && id in u.agents && id in v.agents
    requires t == Next(archive, s, id, token) && u == Next(archive, t, id, token) && v == Next(archive, u, id, token)
    ensures Run(archive, s, Gos(id, token, 4)) == Next(archive, v, id, token)
  {
    GosOne(archive, s, id, token, 4);
    GosOne(archive, t, id, token, 3);
    GosOne(archive, u, id, token, 2);
    GosOne(archive, v, id, token, 1);
    assert Gos(id, token, 0) == [];
  }

  /**
   * A bundle nobody has: a call that nothing disturbs fetches, stages, marks
   * and publishes it, returns it, and leaves no staging directory behind.
   */
  lemma {:induction false} EnsureAlone(archive: Archive, s: State, id: nat, token: nat)
    requires id in s.agents && s.agents[id].phase == Check && token !in s.tokens
    requires Published(s.agents[id].sha) !in s.dirs && Staging(s.agents[id].sha, token) !in s.dirs
    ensures var sha := s.agents[id].sha;
            Run(archive, s, Gos(id, token, 3) + Gos(id, token, |archive(sha)|) + Gos(id, token, 4))
              == At(s, id, Done(Ready), s.dirs[Published(sha) := Complete(archive, sha)], s.tokens + {token})
  {
    var sha := s.agents[id].sha;
    var staging, entries := Staging(sha, token), archive(sha);
    var empty := At(s, id, Extract(staging, 0), s.dirs[staging := Tree(map[], false)], s.tokens + {token});
    StagesAlone(archive, s, id, token);
    assert entries[..0] == [];
    ExtractsAll(archive, empty, id, token, 0);
    var full := Run(archive, empty, Gos(id, token, |entries|));
    PublishesAlone(archive, full, id, token, Unpacked(entries));
    assert full.dirs - {staging} == s.dirs;
    RunsOn(archive, s, Gos(id, token, 3) + Gos(id, token, |entries|), Gos(id, token, 4));
    RunsOn(archive, s, Gos(id, token, 3), Gos(id, token, |entries|));
  }

  lemma {:induction false} StagesAlone(archive: Archive, s: State, id: nat, token: nat)
    requires id in s.agents && s.agents[id].phase == Check && token !in s.tokens
    requires Published(s.agents[id].sha) !in s.dirs
    ensures var staging := Staging(s.agents[id].sha, token);
            Run(archive, s, Gos(id, token, 3))
              == At(s, id, Extract(staging, 0), s.dirs[staging := Tree(map[], false)], s.tokens + {token})
  {
    var t := Move(s, id, Fetch);
    var u := Move(s, id, MakeStaging);
    assert Next(archive, s, id, token) == t && Next(archive, t, id, token) == u;
    GosOne(archive, s, id, token, 3);
    GosOne(archive, t, id, token, 2);
    GosOne(archive, u, id, token, 1);
    assert Gos(id, token, 0) == [];
  }

  /**
   * Whoever loses the race to publish returns the winner's directory if it is complete, and throws
   * if not; its own staging goes.
   */
  lemma {:induction false} LoserReturnsTheWinners(archive: Archive, s: State, id: nat, token: nat, staging: Dir)
    requires id in s.agents && s.agents[id].phase == Publish(staging) && Published(s.agents[id].sha) in s.dirs
    ensures var sha := s.agents[id].sha;
            Run(archive, s, Gos(id, token, 3))
              == At(s, id, Done(if s.dirs[Published(sha)].marker then Ready else Threw), s.dirs - {staging}, s.tokens)
  {
    var outcome := if s.dirs[Published(s.agents[id].sha)].marker then Ready else Threw;
    var t := Move(s, id, Recheck(staging));
    var u := Move(s, id, Remove(staging, outcome));
    assert Next(archive, s, id, token) == t && Next(archive, t, id, token) == u;
    GosOne(archive, s, id, token, 3);
    GosOne(archive, t, id, token, 2);
    GosOne(archive, u, id, token, 1);
    assert Gos(id, token, 0) == [];
  }

  /**
   * A call that fails before staging, or while it stages, ends in a throw, and its staging
   * directory goes; a dead agent does nothing more.
   */
  lemma {:induction false} FailedCallCleansUp(archive: Archive, s: State, id: nat, token: nat)
    requires id in s.agents
    ensures var p := s.agents[id].phase;
            var failed := Step(archive, s, Action.Fail(id));
            && (p.Fetch? || p.MakeStaging? ==> failed == Move(s, id, Done(Threw)))
            && (p.Extract? || p.WriteMarker? ==>
                  Step(archive, failed, Go(id, token)) == At(s, id, Done(Threw), s.dirs - {p.staging}, s.tokens))
            && (p.Publish? ==> failed == Move(s, id, Recheck(p.staging)))
            && (p.Remove? ==> failed == Move(s, id, Done(p.outcome)))
            && Step(archive, Step(archive, s, Crash(id)), Go(id, token)) == Step(archive, s, Crash(id))
            && Step(archive, s, Crash(id)).dirs == s.dirs
  {
  }

  // ---- containment

  /** `resolve(root, name)` on path segments. */
  function Resolve(at: seq<string>, segments: seq<string>): seq<string>
    decreases |segments|
  {
    if segments == [] then at
    else if segments[0] == "" || segments[0] == "." then Resolve(at, segments[1..])
    else if segments[0] == ".." then Resolve(if at == [] then [] else at[..|at| - 1], segments[1..])
    else Resolve(at + [segments[0]], segments[1..])
  }

  /** A path resolves segment by segment: nothing and a dot stay, two dots go up, anything else goes down. */
  lemma {:induction false} ResolvesByLastSegment(at: seq<string>, segments: seq<string>, last: string)
    ensures var up := Resolve(at, segments);
            Resolve(at, segments + [last])
              == if last in {"", "."} then up
                 else if last == ".." then (if |up| > 0 then up[..|up| - 1] else [])
                 else up + [last]
    decreases |segments|
  {
    if segments == [] {
      assert [last][1..] == [] && segments + [last] == [last];
      assert forall up: seq<string> :: Resolve(up, []) == up;
    } else {
      assert (segments + [last])[1..] == segments[1..] + [last];
      var next := if segments[0] == "" || segments[0] == "." then at
                  else if segments[0] == ".." then (if at == [] then [] else at[..|at| - 1])
                  else at + [segments[0]];
      ResolvesByLastSegment(next, segments[1..], last);
    }
  }

  function Common(a: seq<string>, b: seq<string>): (n: nat)
    ensures n <= |a| && n <= |b| && a[..n] == b[..n]
    ensures n < |a| && n < |b| ==> a[n] != b[n]
  {
    if a == [] || b == [] || a[0] != b[0] then 0
    else
      var n := Common(a[1..], b[1..]);
      assert a == [a[0]] + a[1..] && b == [b[0]] + b[1..];
      assert a[..n + 1] == [a[0]] + a[1..][..n] && b[..n + 1] == [b[0]] + b[1..][..n];
      n + 1
  }

  function Ups(n: nat): seq<string> {
    if n == 0 then [] else [".."] + Ups(n - 1)
  }

  /** `relative(from, to)`. */
  function Relative(from: seq<string>, to: seq<string>): seq<string> {
    Ups(|from| - Common(from, to)) + to[Common(from, to)..]
  }

  predicate StartsWithDots(s: string) {
    |s| >= 2 && s[..2] == ".."
  }

  function Slashes(name: string): string {
    seq(|name|, (i: nat) requires i < |name| => if name[i] == '\\' then '/' else name[i])
  }

  predicate IsAbsolute(name: string) {
    name != "" && name[0] == '/'
  }

  /** The check each entry passes before it is written. */
  predicate Accepted(root: seq<string>, entryName: string) {
    var name := Slashes(entryName);
    && !IsAbsolute(name)
    && var rel := Relative(root, Resolve(root, Split('/', name)));
       rel == [] || !StartsWithDots(rel[0])
  }

  ghost predicate Inside(root: seq<string>, target: seq<string>) {
    |root| <= |target| && target[..|root|] == root
  }

  lemma {:induction false} InsideByCommon(root: seq<string>, target: seq<string>)
    ensures Inside(root, target) <==> Common(root, target) == |root|
  {
    var n := Common(root, target);
    assert n == |root| ==> root[..n] == root;
    assert Inside(root, target) ==> forall k :: 0 <= k < |root| ==> root[k] == target[..|root|][k] == target[k];
  }

  /**
   * An entry is accepted exactly when its name, slashes either way, is not
   * absolute and resolves inside the directory, to something whose first
   * segment does not start with two dots.
   */
  lemma {:induction false} AcceptedIsInside(root: seq<string>, entryName: string, name: string)
    requires |name| == |entryName|
    requires forall i :: 0 <= i < |name| ==> name[i] == if entryName[i] == '\\' then '/' else entryName[i]
    ensures var target := Resolve(root, Split('/', name));
            var plain := Inside(root, target) && (|target| == |root| || !StartsWithDots(target[|root|]));
            Accepted(root, entryName) <==> !(['/'] <= name) && plain
  {
    assert name == Slashes(entryName);
    var target := Resolve(root, Split('/', Slashes(entryName)));
    InsideByCommon(root, target);
    if Common(root, target) < |root| {
      assert Relative(root, target)[0] == "..";
    } else {
      assert Ups(0) + target[|root|..] == target[|root|..];
    }
  }
}
