/** Who an admin request acts as, and what acting for someone else can never do. */
module AdminAuth {
  import opened JsStrings
  import opened JsonText
  import opened Scopes

  datatype Role = OWNER | ADMIN | CONTRIBUTOR

  datatype Principal =
    | Root
    | ApiToken(name: string, scopes: seq<string>)
    | Session(name: string, scopes: seq<string>)

  function HeldBy(p: Principal): seq<string> {
    if p.Root? then [WILDCARD] else p.scopes
  }

  datatype Token = Token(name: string, scopes: seq<string>)

  datatype User = User(id: string, role: Role, email: string, scopes: seq<string>)

  datatype Login = Login(actor: string, userId: string, role: Role, scopes: Option<seq<string>>)

  /** What the deployment configured and what its stores answer. */
  datatype Options = Options(
    known: Known, adminToken: string,
    authenticate: string -> Option<Token>,
    impersonation: Option<string -> Option<User>>,
    roleScopes: Role -> seq<string>)

  predicate StartsWith(s: string, head: string) {
    |head| <= |s| && s[..|head|] == head
  }

  predicate IsSnowflake(s: string) {
    5 <= |s| <= 25 && forall i :: 0 <= i < |s| ==> '0' <= s[i] <= '9'
  }

  /** `onBehalfOf`: a header that is not a snowflake counts as no header. */
  function OnBehalfOf(header: Option<string>): Option<string> {
    var value := Trim(if header.Some? then header.value else "");
    if IsSnowflake(value) then Some(value) else None
  }

  class Request {
    const bearer: Option<string>
    const onBehalf: Option<string>
    const login: Option<Login>
    const safeMethod: bool
    const csrf: bool
    var principal: Option<Principal>
    var adminRole: Option<Role>
    var adminUserId: Option<string>

    constructor (bearer: Option<string>, onBehalf: Option<string>, login: Option<Login>, safeMethod: bool, csrf: bool)
      ensures this.bearer == bearer && this.onBehalf == onBehalf && this.login == login
      ensures this.safeMethod == safeMethod && this.csrf == csrf
      ensures principal == None && adminRole == None && adminUserId == None
    {
      this.bearer, this.onBehalf, this.login, this.safeMethod, this.csrf := bearer, onBehalf, login, safeMethod, csrf;
      principal, adminRole, adminUserId := None, None, None;
    }

    /** An empty token counts as none. */
    predicate HasToken() {
      bearer.Some? && bearer.value != ""
    }

    /** A request made with a client token that the store accepts. */
    predicate ByToken(o: Options) {
      HasToken() && StartsWith(bearer.value, "pa_") && o.authenticate(bearer.value).Some?
    }

    /** A request made with a client token for someone else. */
    predicate ForSomeone(o: Options) {
      ByToken(o) && OnBehalfOf(onBehalf).Some?
    }

    /**
     * Why a request is refused, if it is: what it came with is judged on its own, and nothing else
     * is tried after it.
     */
    function Refusal(o: Options): Option<int> {
      if o.adminToken == "" then Some(503)
      else if HasToken() && "pa_" <= bearer.value then
        if o.authenticate(bearer.value) == None then Some(401)
        else if OnBehalfOf(onBehalf) != None
                && (o.impersonation == None || o.impersonation.value(OnBehalfOf(onBehalf).value) == None) then Some(403)
        else None
      else if HasToken() then if bearer.value == o.adminToken then None else Some(401)
      else if login == None then Some(401)
      else if safeMethod || csrf then None
      else Some(403)
    }

    /**
     * `adminAuthHook`: who gets in, and as whom. With a client token the role
     * is never OWNER; acting for someone grants a scope exactly when the token
     * and that account both do; without a well-formed header the token's own
     * scopes apply.
     */
    method Authenticate(o: Options) returns (refused: Option<int>)
      requires principal == None && adminRole == None && adminUserId == None
      requires WellFormed(o.known)
      modifies this
      ensures refused == Refusal(o)
      ensures refused == None ==> principal.Some? && adminRole.Some?
      ensures refused == None && HasToken() && StartsWith(bearer.value, "pa_") ==>
        ByToken(o) && principal.value.ApiToken? && adminRole.value != OWNER
      ensures refused == None && ForSomeone(o) ==>
        && o.impersonation.Some? && o.impersonation.value(OnBehalfOf(onBehalf).value).Some?
        && var row, user := o.authenticate(bearer.value).value, o.impersonation.value(OnBehalfOf(onBehalf).value).value;
           && principal.value.name == row.name + " as " + user.email
           && adminUserId == Some(user.id)
           && adminRole.value == (if user.role == OWNER then ADMIN else user.role)
           && forall s :: IsScope(o.known, s) ==>
                (Grants(HeldBy(principal.value), s) <==> Grants(row.scopes, s) && Grants(user.scopes, s))
      ensures refused == None && ByToken(o) && !ForSomeone(o) ==>
        && principal.value == ApiToken("token:" + o.authenticate(bearer.value).value.name,
                                       o.authenticate(bearer.value).value.scopes)
        && adminRole == Some(ADMIN) && adminUserId == None
      ensures refused == None && HasToken() && !StartsWith(bearer.value, "pa_") ==>
        bearer.value == o.adminToken && principal == Some(Root) && adminRole == Some(OWNER) && adminUserId == None
      ensures refused == None && !HasToken() ==>
        && login.Some? && (safeMethod || csrf)
        && adminRole == Some(login.value.role) && adminUserId == Some(login.value.userId)
        && principal == Some(Session("user:" + login.value.actor,
             if login.value.scopes.Some? then login.value.scopes.value else o.roleScopes(login.value.role)))
    {
      if o.adminToken == "" {
        return Some(503);
      }
      if bearer.Some? && bearer.value != "" {
        var token := bearer.value;
        if StartsWith(token, "pa_") {
          var row := o.authenticate(token);
          if row == None {
            return Some(401);
          }
          principal := Some(ApiToken("token:" + row.value.name, row.value.scopes));
          adminRole := Some(ADMIN);
          var actingFor := OnBehalfOf(onBehalf);
          if actingFor.Some? {
            if o.impersonation == None {
              return Some(403);
            }
            var user := o.impersonation.value(actingFor.value);
            if user == None {
              return Some(403);
            }
            principal := Some(ApiToken(row.value.name + " as " + user.value.email,
                                       IntersectScopes(o.known, row.value.scopes, user.value.scopes)));
            adminUserId := Some(user.value.id);
            adminRole := Some(if user.value.role == OWNER then ADMIN else user.value.role);
            forall s | IsScope(o.known, s)
              ensures Grants(HeldBy(principal.value), s)
                   <==> Grants(row.value.scopes, s) && Grants(user.value.scopes, s)
            {
              IntersectionGrants(o.known, row.value.scopes, user.value.scopes, s);
            }
            return None;
          }
          return None;
        }
        if token != o.adminToken {
          return Some(401);
        }
        adminRole := Some(OWNER);
        principal := Some(Root);
        return None;
      }
      if login == None {
        return Some(401);
      }
      if !safeMethod && !csrf {
        return Some(403);
      }
      adminRole := Some(login.value.role);
      adminUserId := Some(login.value.userId);
      principal := Some(Session("user:" + login.value.actor,
                                if login.value.scopes.Some? then login.value.scopes.value
                                    else o.roleScopes(login.value.role)));
      return None;
    }
  }

  lemma {:induction false} DigitChars(c: char)
    ensures c in "0123456789" <==> '0' <= c <= '9'
  {
    if '0' <= c <= '9' {
      assert "0123456789"[c as int - '0' as int] == c;
    }
  }

  /**
   * The header names someone exactly when, trimmed, it is five to 25 digits. A
   * malformed one does not refuse the request: it is answered with all the token holds.
   */
  lemma {:induction false} MalformedHeaderIsNoHeader(header: Option<string>, value: string)
    ensures OnBehalfOf(header) == Some(value)
       <==> header.Some? && value == Trim(header.value) && 5 <= |value| <= 25
            && forall i :: 0 <= i < |value| ==> value[i] in "0123456789"
    ensures OnBehalfOf(Some("1234")) == None && OnBehalfOf(Some("12345")) == Some("12345")
  {
    forall c: char ensures c in "0123456789" <==> '0' <= c <= '9' {
      DigitChars(c);
    }
    assert Trim("12345") == "12345";
  }

  lemma {:induction false} StartsWithMeans(s: string, head: string)
    ensures StartsWith(s, head) <==> head <= s
  {
  }
}
