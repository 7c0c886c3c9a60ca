/** Discord logins and links over the accounts table, each request one step. */
module DiscordLink {
  import opened JsStrings
  import opened JsonText

  datatype Account = Account(email: string, approved: bool, discordId: Option<string>, username: Option<string>)

  /** What Discord reports of whoever came back. */
  datatype Identity = Identity(id: string, username: string, email: Option<string>, verified: bool)

  datatype State = State(accounts: map<string, Account>, signups: bool)

  datatype Outcome =
    | LoggedIn(user: string, linked: bool)
    | Pending(user: string)
    | SignupsDisabled
    | NoEmail

  function Normalised(email: string): string { Lower(Trim(email)) }

  /** The row a unique index finds, if there is one. */
  ghost function ByDiscordId(s: State, discordId: string): Option<string> {
    if id :| id in s.accounts && s.accounts[id].discordId == Some(discordId) then Some(id) else None
  }

  ghost function ByEmail(s: State, email: string): Option<string> {
    if id :| id in s.accounts && s.accounts[id].email == Normalised(email) then Some(id) else None
  }

  function WithDiscord(s: State, user: string, identity: Identity): State
    requires user in s.accounts
  {
    s.(accounts := s.accounts[user := s.accounts[user].(discordId := Some(identity.id),
      username := Some(identity.username))])
  }

  /** The address a Discord account may be matched by. */
  function VerifiedEmail(identity: Identity): Option<string> {
    if identity.verified && identity.email.Some? && identity.email.value != "" then identity.email else None
  }

  /** `matchDiscordIdentity`; `freshId` is the id a new account would get. */
  ghost function Login(s: State, identity: Identity, freshId: string): (State, Outcome) {
    match ByDiscordId(s, identity.id)
    case Some(user) =>
      (if s.accounts[user].username == Some(identity.username) then s else WithDiscord(s, user, identity),
       if s.accounts[user].approved then LoggedIn(user, false) else Pending(user))
    case None =>
      match VerifiedEmail(identity)
      case None => (s, NoEmail)
      case Some(email) =>
        match ByEmail(s, email)
        case Some(user) =>
          (WithDiscord(s, user, identity), if s.accounts[user].approved then LoggedIn(user, true) else Pending(user))
        case None =>
          if !s.signups then (s, SignupsDisabled)
          else
            var account := Account(Normalised(email), false, Some(identity.id), Some(identity.username));
            (s.(accounts := s.accounts[freshId := account]), Pending(freshId))
  }

  /** The link branch of the callback, for a live session of `user`: refused when the identity is someone else's. */
  ghost function Link(s: State, user: string, identity: Identity): State {
    if user !in s.accounts then s
    else if ByDiscordId(s, identity.id).Some? && ByDiscordId(s, identity.id).value != user then s
    else WithDiscord(s, user, identity)
  }

  datatype Action =
    | DiscordLogin(identity: Identity, freshId: string)
    | DiscordLinking(user: string, identity: Identity)
    | Unlink(user: string)
    | Approve(user: string)
    | Invite(email: string, freshId: string)
    | SignUp(email: string, freshId: string)
    | Remove(user: string)
    | SetSignups(enabled: bool)

  /** An account created by address; the unique index on emails refuses a second one. */
  ghost function Created(s: State, email: string, approved: bool, freshId: string): State {
    if freshId in s.accounts || ByEmail(s, email).Some? then s
    else s.(accounts := s.accounts[freshId := Account(Normalised(email), approved, None, None)])
  }

  /** New ids are new; an action that reuses one does nothing. */
  ghost function Step(s: State, a: Action): State {
    match a
    case DiscordLogin(identity, freshId) => if freshId in s.accounts then s else Login(s, identity, freshId).0
    case DiscordLinking(user, identity) => Link(s, user, identity)
    case Unlink(user) =>
      if user !in s.accounts then s
      else s.(accounts := s.accounts[user := s.accounts[user].(discordId := None, username := None)])
    case Approve(user) =>
      if user !in s.accounts then s
      else s.(accounts := s.accounts[user := s.accounts[user].(approved := true)])
    case Invite(email, freshId) => Created(s, email, true, freshId)
    case SignUp(email, freshId) => if s.signups then Created(s, email, false, freshId) else s
    case Remove(user) => s.(accounts := s.accounts - {user})
    case SetSignups(enabled) => s.(signups := enabled)
  }

  ghost function Run(s: State, actions: seq<Action>): State
    decreases |actions|
  {
    if actions == [] then s else Run(Step(s, actions[0]), actions[1..])
  }

  // ---- invariants

  predicate HasDiscord(s: State, user: string) {
    user in s.accounts && s.accounts[user].discordId.Some?
  }

  ghost predicate OnePerDiscordId(s: State) {
    forall a, b :: HasDiscord(s, a) && HasDiscord(s, b) && s.accounts[a].discordId == s.accounts[b].discordId ==> a == b
  }

  ghost predicate OnePerEmail(s: State) {
    forall a, b :: a in s.accounts && b in s.accounts && s.accounts[a].email == s.accounts[b].email ==> a == b
  }

  ghost predicate Inv(s: State) {
    OnePerDiscordId(s) && OnePerEmail(s)
  }

  lemma {:induction false} Finds(s: State, user: string, discordId: string)
    requires Inv(s)
    ensures ByDiscordId(s, discordId) == Some(user)
         <==> user in s.accounts && s.accounts[user].discordId == Some(discordId)
  {
  }

  lemma {:induction false} FindsEmail(s: State, user: string, email: string)
    requires Inv(s)
    ensures ByEmail(s, email) == Some(user) <==> user in s.accounts && s.accounts[user].email == Normalised(email)
  {
  }

  /** Attaching an identity no other account has keeps both indexes. */
  lemma {:induction false} AttachKeepsInv(s: State, user: string, identity: Identity)
    requires Inv(s) && user in s.accounts
    requires ByDiscordId(s, identity.id) == None || ByDiscordId(s, identity.id) == Some(user)
    ensures Inv(WithDiscord(s, user, identity))
  {
    var t := WithDiscord(s, user, identity);
    forall a, b | HasDiscord(t, a) && HasDiscord(t, b) && t.accounts[a].discordId == t.accounts[b].discordId
      ensures a == b
    {
      Finds(s, a, identity.id);
      Finds(s, b, identity.id);
    }
  }

  lemma {:induction false} CreateKeepsInv(s: State, freshId: string, account: Account)
    requires Inv(s) && freshId !in s.accounts
    requires forall a :: a in s.accounts ==> s.accounts[a].email != account.email
    requires forall a :: a in s.accounts && s.accounts[a].discordId.Some? ==>
         s.accounts[a].discordId != account.discordId
    ensures Inv(s.(accounts := s.accounts[freshId := account]))
  {
  }

  lemma {:induction false} LoginKeepsInv(s: State, identity: Identity, freshId: string)
    requires Inv(s) && freshId !in s.accounts
    ensures Inv(Login(s, identity, freshId).0)
  {
    if ByDiscordId(s, identity.id).Some? {
      AttachKeepsInv(s, ByDiscordId(s, identity.id).value, identity);
    } else if VerifiedEmail(identity).Some? {
      var email := VerifiedEmail(identity).value;
      if ByEmail(s, email).Some? {
        AttachKeepsInv(s, ByEmail(s, email).value, identity);
      } else {
        CreateKeepsInv(s, freshId, Account(Normalised(email), false, Some(identity.id), Some(identity.username)));
      }
    }
  }

  lemma {:induction false} StepKeepsInv(s: State, a: Action)
    requires Inv(s)
    ensures Inv(Step(s, a))
  {
    match a
    case DiscordLogin(identity, freshId) =>
      if freshId !in s.accounts {
        LoginKeepsInv(s, identity, freshId);
      }
    case DiscordLinking(user, identity) =>
      if user in s.accounts && (ByDiscordId(s, identity.id) == None || ByDiscordId(s, identity.id) == Some(user)) {
        AttachKeepsInv(s, user, identity);
      }
    case Invite(email, freshId) =>
      if freshId !in s.accounts && ByEmail(s, email) == None {
        CreateKeepsInv(s, freshId, Account(Normalised(email), true, None, None));
      }
    case SignUp(email, freshId) =>
      if freshId !in s.accounts && ByEmail(s, email) == None {
        CreateKeepsInv(s, freshId, Account(Normalised(email), false, None, None));
      }
    case _ =>
  }

  /** In every run no two accounts share a Discord id or an address. */
  lemma {:induction false} RunKeepsInv(s: State, actions: seq<Action>)
    requires Inv(s)
    ensures Inv(Run(s, actions))
    decreases |actions|
  {
    if actions != [] {
      StepKeepsInv(s, actions[0]);
      RunKeepsInv(Step(s, actions[0]), actions[1..]);
    }
  }

  // ---- who a login reaches

  ghost predicate Linked(s: State, user: string, discordId: string) {
    user in s.accounts && s.accounts[user].discordId == Some(discordId)
  }

  /**
   * The actions that take a linked account away from its Discord id, each of them deliberate or by
   * the owner of its address.
   */
  ghost predicate Relinks(s: State, a: Action, user: string, discordId: string) {
    match a
    case Unlink(other) => other == user
    case Remove(other) => other == user
    case DiscordLinking(other, identity) =>
      other == user && identity.id != discordId && ByDiscordId(s, identity.id) in {None, Some(user)}
    case DiscordLogin(identity, freshId) =>
      && freshId !in s.accounts && ByDiscordId(s, identity.id) == None && VerifiedEmail(identity).Some?
      && ByEmail(s, VerifiedEmail(identity).value) == Some(user)
    case _ => false
  }

  lemma {:induction false} LinkKept(s: State, a: Action, user: string, discordId: string)
    requires Inv(s) && Linked(s, user, discordId)
    ensures Linked(Step(s, a), user, discordId) <==> !Relinks(s, a, user, discordId)
  {
    Finds(s, user, discordId);
    match a
    case DiscordLogin(identity, freshId) => Finds(s, user, identity.id);
    case DiscordLinking(other, identity) => Finds(s, user, identity.id);
    case _ =>
  }

  ghost predicate NeverRelinked(s: State, actions: seq<Action>, user: string, discordId: string)
    decreases |actions|
  {
    actions == [] || (!Relinks(s, actions[0], user, discordId)
      && NeverRelinked(Step(s, actions[0]), actions[1..], user, discordId))
  }

  /** A linked account keeps its Discord id until one of those actions, in every run. */
  lemma {:induction false} LinkedUntilRelinked(s: State, actions: seq<Action>, user: string, discordId: string)
    requires Inv(s) && Linked(s, user, discordId) && NeverRelinked(s, actions, user, discordId)
    ensures Inv(Run(s, actions)) && Linked(Run(s, actions), user, discordId)
    decreases |actions|
  {
    if actions != [] {
      StepKeepsInv(s, actions[0]);
      LinkKept(s, actions[0], user, discordId);
      LinkedUntilRelinked(Step(s, actions[0]), actions[1..], user, discordId);
    }
  }

  /**
   * Until then a login with that id reaches that account, whatever address Discord reports, and
   * gets in exactly when it is approved.
   */
  lemma {:induction false} LinkedLoginReachesAccount(
      s: State, actions: seq<Action>, user: string, identity: Identity, freshId: string)
    requires Inv(s) && Linked(s, user, identity.id) && NeverRelinked(s, actions, user, identity.id)
    ensures var t := Run(s, actions);
            && user in t.accounts
            && Login(t, identity, freshId).1 == if t.accounts[user].approved then LoggedIn(user, false)
               else Pending(user)
  {
    LinkedUntilRelinked(s, actions, user, identity.id);
    Finds(Run(s, actions), user, identity.id);
  }

  /**
   * Whoever is logged in is an approved account that now carries the identity: linked before, or
   * matched by its verified address.
   */
  lemma {:induction false} OnlyApprovedLogIn(s: State, identity: Identity, freshId: string)
    requires Inv(s) && freshId !in s.accounts
    ensures var (t, outcome) := Login(s, identity, freshId);
            outcome.LoggedIn? ==>
              && outcome.user in s.accounts && s.accounts[outcome.user].approved && Linked(t, outcome.user, identity.id)
              && (outcome.linked <==> !Linked(s, outcome.user, identity.id))
              && (outcome.linked ==>
                    && identity.verified && identity.email.Some?
                    && Normalised(identity.email.value) == s.accounts[outcome.user].email)
  {
    var outcome := Login(s, identity, freshId).1;
    if outcome.LoggedIn? {
      Finds(s, outcome.user, identity.id);
    }
  }

  /** An identity that is not linked and has no verified address changes nothing and reaches nobody. */
  lemma {:induction false} UnverifiedReachesNobody(s: State, identity: Identity, freshId: string)
    requires ByDiscordId(s, identity.id) == None
    ensures VerifiedEmail(identity) == None <==> Login(s, identity, freshId).1 == NoEmail
    ensures VerifiedEmail(identity) == None ==> Login(s, identity, freshId).0 == s
  {
  }

  ghost predicate Nobodys(s: State, discordId: string) {
    forall u :: !Linked(s, u, discordId)
  }

  ghost predicate NewAddress(s: State, email: string) {
    forall u :: u in s.accounts ==> s.accounts[u].email != Lower(Trim(email))
  }

  function Attached(a: Account, identity: Identity): Account {
    a.(discordId := Some(identity.id), username := Some(identity.username))
  }

  lemma {:induction false} FindsNobody(s: State, discordId: string)
    ensures Nobodys(s, discordId) <==> ByDiscordId(s, discordId) == None
  {
    if ByDiscordId(s, discordId).Some? {
      assert Linked(s, ByDiscordId(s, discordId).value, discordId);
    }
  }

  lemma {:induction false} FindsNoAddress(s: State, email: string)
    ensures NewAddress(s, email) <==> ByEmail(s, email) == None
  {
  }

  /** A login finds the account with the Discord id first, and keeps its name up to date. */
  lemma {:induction false} LoginByDiscordId(s: State, identity: Identity, freshId: string, user: string)
    requires Inv(s) && Linked(s, user, identity.id)
    ensures var (t, outcome) := Login(s, identity, freshId);
            && outcome == (if s.accounts[user].approved then LoggedIn(user, false) else Pending(user))
            && t == s.(accounts := s.accounts[user := Attached(s.accounts[user], identity)])
  {
    Finds(s, user, identity.id);
    assert s.accounts[user := s.accounts[user]] == s.accounts;
  }

  /**
   * Else the account with its address, if Discord has verified it: that one is linked, and gets in
   * if it is approved.
   */
  lemma {:induction false} LoginByAddress(s: State, identity: Identity, freshId: string, user: string)
    requires Inv(s) && Nobodys(s, identity.id)
    requires identity.verified && identity.email.Some? && identity.email.value != ""
    requires user in s.accounts && s.accounts[user].email == Lower(Trim(identity.email.value))
    ensures var (t, outcome) := Login(s, identity, freshId);
            && outcome == (if s.accounts[user].approved then LoggedIn(user, true) else Pending(user))
            && t == s.(accounts := s.accounts[user := Attached(s.accounts[user], identity)])
  {
    FindsNobody(s, identity.id);
    FindsEmail(s, user, identity.email.value);
  }

  /** Else it is a signup: refused while those are closed, and otherwise a new account that waits for approval. */
  lemma {:induction false} LoginSignsUp(s: State, identity: Identity, freshId: string)
    requires Nobodys(s, identity.id)
    requires identity.verified && identity.email.Some? && identity.email.value != ""
    requires NewAddress(s, identity.email.value)
    ensures var (t, outcome) := Login(s, identity, freshId);
            var account := Account(Lower(Trim(identity.email.value)), false, Some(identity.id),
                Some(identity.username));
            if s.signups then outcome == Pending(freshId) && t == s.(accounts := s.accounts[freshId := account])
            else outcome == SignupsDisabled && t == s
  {
    FindsNobody(s, identity.id);
    FindsNoAddress(s, identity.email.value);
  }

  /** An invited account is approved at once; one signed up by address, while signups are open, is not. */
  lemma {:induction false} AccountsByAddress(s: State, user: string, email: string)
    requires user !in s.accounts
    ensures var invited := Account(Lower(Trim(email)), true, None, None);
            && Step(s, Invite(email, user))
               == (if NewAddress(s, email) then s.(accounts := s.accounts[user := invited]) else s)
            && Step(s, SignUp(email, user))
               == (if NewAddress(s, email) && s.signups
                   then s.(accounts := s.accounts[user := invited.(approved := false)]) else s)
  {
    FindsNoAddress(s, email);
  }

  /** What operators do to one account. */
  lemma {:induction false} OperatorActions(s: State, user: string)
    requires user in s.accounts
    ensures Step(s, Approve(user)) == s.(accounts := s.accounts[user := s.accounts[user].(approved := true)])
    ensures Step(s, Unlink(user))
         == s.(accounts := s.accounts[user := s.accounts[user].(discordId := None, username := None)])
    ensures Step(s, Remove(user)) == s.(accounts := s.accounts - {user})
    ensures Step(s, SetSignups(true)).signups && !Step(s, SetSignups(false)).signups
  {
  }

  /** Linking attaches an identity unless another account has it; it needs no address to agree. */
  lemma {:induction false} LinksExactlyWhen(s: State, user: string, identity: Identity)
    requires Inv(s) && user in s.accounts
    ensures var t := Step(s, DiscordLinking(user, identity));
            && (Linked(t, user, identity.id) <==> forall u :: Linked(s, u, identity.id) ==> u == user)
            && t == if Linked(t, user, identity.id)
                    then s.(accounts := s.accounts[user := Attached(s.accounts[user], identity)])
                    else s
  {
    FindsNobody(s, identity.id);
    forall u ensures ByDiscordId(s, identity.id) == Some(u) <==> Linked(s, u, identity.id) {
      Finds(s, u, identity.id);
    }
  }

  predicate IsApproved(s: State, user: string) {
    user in s.accounts && s.accounts[user].approved
  }

  /** The actions that approve an account; an invitation makes one that already is. */
  predicate Approves(a: Action, user: string) {
    a == Approve(user) || (a.Invite? && a.freshId == user)
  }

  lemma {:induction false} OnlyApprovalApproves(s: State, a: Action, user: string)
    requires Inv(s) && IsApproved(Step(s, a), user) && !IsApproved(s, user)
    ensures Approves(a, user)
  {
  }

  /** Whoever gets in after a run was approved before it, or by an operator during it: no login or signup does it. */
  lemma {:induction false} LoginApprovesNobody(s: State, actions: seq<Action>, identity: Identity, freshId: string)
    requires Inv(s) && freshId !in Run(s, actions).accounts
    ensures var outcome := Login(Run(s, actions), identity, freshId).1;
            outcome.LoggedIn? ==> IsApproved(s, outcome.user) || exists a :: a in actions && Approves(a, outcome.user)
  {
    RunKeepsInv(s, actions);
    OnlyApprovedLogIn(Run(s, actions), identity, freshId);
    var outcome := Login(Run(s, actions), identity, freshId).1;
    if outcome.LoggedIn? {
      ApprovedBySomeone(s, actions, outcome.user);
    }
  }

  lemma {:induction false} ApprovedBySomeone(s: State, actions: seq<Action>, user: string)
    requires Inv(s) && IsApproved(Run(s, actions), user)
    ensures IsApproved(s, user) || exists a :: a in actions && Approves(a, user)
    decreases |actions|
  {
    if actions != [] {
      var t := Step(s, actions[0]);
      StepKeepsInv(s, actions[0]);
      ApprovedBySomeone(t, actions[1..], user);
      if IsApproved(t, user) && !IsApproved(s, user) {
        OnlyApprovalApproves(s, actions[0], user);
        assert actions[0] in actions;
      } else if !IsApproved(s, user) {
        var a :| a in actions[1..] && Approves(a, user);
        assert a in actions;
      }
    }
  }

  /** A verified address takes a linked account over: the Discord id it had no longer reaches it. */
  lemma {:induction false} EmailMatchTakesOver(
      s: State, user: string, identity: Identity, earlier: string, freshId: string)
    requires Inv(s) && freshId !in s.accounts && Linked(s, user, earlier) && earlier != identity.id
    requires ByDiscordId(s, identity.id) == None
    requires identity.verified && identity.email.Some? && identity.email.value != ""
    requires s.accounts[user].email == Normalised(identity.email.value)
    ensures var t := Login(s, identity, freshId).0;
            Linked(t, user, identity.id) && ByDiscordId(t, earlier) == None
  {
    FindsEmail(s, user, identity.email.value);
    var t := WithDiscord(s, user, identity);
    forall other | other in t.accounts ensures t.accounts[other].discordId != Some(earlier) {
      Finds(s, other, earlier);
      Finds(s, user, earlier);
    }
  }
}
