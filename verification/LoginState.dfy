/** The login state on its round trip: encoded, signed, set as a cookie, read back, checked, decoded. */
module LoginState {
  import opened JsStrings
  import opened JsonText

  datatype Intent = Login | Link(userId: string, sessionId: string)

  datatype LoginTicket = LoginTicket(intent: Intent, nonce: string)

  const MAX_COOKIE_BYTES := 4096

  // ---- encoding

  function Parts(t: LoginTicket): seq<string> {
    match t.intent
    case Login => ["login", t.nonce]
    case Link(userId, sessionId) => ["link", userId, sessionId, t.nonce]
  }

  /** `encodeState`. */
  function EncodeState(t: LoginTicket): string {
    match t.intent
    case Login => "login." + t.nonce
    case Link(userId, sessionId) => "link." + userId + "." + sessionId + "." + t.nonce
  }

  /** `decodeState`. */
  function DecodeState(value: string): Option<LoginTicket> {
    var parts := Split('.', value);
    if parts[0] == "login" && |parts| == 2 && parts[1] != "" then Some(LoginTicket(Login, parts[1]))
    else if parts[0] == "link" && |parts| == 4 && parts[1] != "" && parts[2] != "" && parts[3] != ""
    then Some(LoginTicket(Link(parts[1], parts[2]), parts[3]))
    else None
  }

  predicate PlainId(s: string) {
    s != "" && '.' !in s
  }

  /** Ids and nonces without a dot: all the ones the core makes. */
  predicate Plain(t: LoginTicket) {
    PlainId(t.nonce) && (t.intent.Link? ==> PlainId(t.intent.userId) && PlainId(t.intent.sessionId))
  }

  lemma {:induction false} JoinTwo(a: string, b: string)
    ensures Join(".", [a, b]) == a + "." + b
  {
    assert [a, b][1..] == [b];
  }

  lemma {:induction false} JoinFour(a: string, b: string, c: string, d: string)
    ensures Join(".", [a, b, c, d]) == a + "." + b + "." + c + "." + d
  {
    assert [a, b, c, d][1..] == [b, c, d] && [b, c, d][1..] == [c, d];
    JoinTwo(c, d);
    assert a + "." + (b + "." + (c + "." + d)) == a + "." + b + "." + c + "." + d;
  }

  lemma {:induction false} EncodedIsJoined(t: LoginTicket)
    ensures EncodeState(t) == Join(".", Parts(t))
  {
    match t.intent
    case Login => JoinTwo("login", t.nonce);
    case Link(userId, sessionId) => JoinFour("link", userId, sessionId, t.nonce);
  }

  /** Anything that decodes encodes back to itself. */
  lemma {:induction false} DecodedEncodesBack(value: string)
    ensures DecodeState(value).Some?
         ==> EncodeState(DecodeState(value).value) == value && Plain(DecodeState(value).value)
  {
    var decoded := DecodeState(value);
    if decoded.Some? {
      var parts := Split('.', value);
      JoinOfSplit('.', value);
      EncodedIsJoined(decoded.value);
      assert parts == Parts(decoded.value);
      assert forall i :: 0 <= i < |parts| ==> parts[i] in parts;
    }
  }

  /** A ticket survives encoding and decoding exactly when its ids and nonce are dot-free and not empty. */
  lemma {:induction false} EncodedDecodesBack(t: LoginTicket)
    ensures DecodeState(EncodeState(t)) == Some(t) <==> Plain(t)
  {
    if Plain(t) {
      EncodedIsJoined(t);
      SplitOfJoin('.', Parts(t));
    } else {
      DecodedEncodesBack(EncodeState(t));
    }
  }

  /** Whatever the nonce, a login state is never read as a link. */
  lemma {:induction false} LoginIsNeverLink(nonce: string)
    ensures DecodeState(EncodeState(LoginTicket(Login, nonce))) == None
         || DecodeState(EncodeState(LoginTicket(Login, nonce))).value.intent == Login
  {
    assert "login." + nonce == "login" + ['.'] + nonce;
    SplitHead('.', "login", nonce);
  }

  // ---- signing

  /** An HMAC as dot-free text of one length (section 5 of RFC 4648). */
  type Mac = string -> string

  ghost predicate IsMac(mac: Mac, length: nat) {
    length > 0 && forall v :: |mac(v)| == length && '.' !in mac(v) && Length(mac(v)) == length
  }

  function SignValue(mac: Mac, value: string): string {
    value + "." + mac(value)
  }

  /** `lastIndexOf('.')`. */
  function LastDot(s: string): (i: int)
    ensures -1 <= i < |s|
    ensures i >= 0 ==> s[i] == '.' && '.' !in s[i + 1..]
    ensures i < 0 ==> '.' !in s
  {
    if s == "" then -1
    else if s[|s| - 1] == '.' then |s| - 1
    else
      var i := LastDot(s[..|s| - 1]);
      assert i >= 0 ==> s[i + 1..] == s[..|s| - 1][i + 1..] + [s[|s| - 1]];
      assert s == s[..|s| - 1] + [s[|s| - 1]];
      i
  }

  /** `unsignValue`. */
  function UnsignValue(mac: Mac, signed: string): Option<string> {
    var dot := LastDot(signed);
    if Length(signed) > MAX_COOKIE_BYTES || dot <= 0 || dot == |signed| - 1 then None
    else if signed[dot + 1..] == mac(signed[..dot]) then Some(signed[..dot])
    else None
  }

  lemma {:induction false} LastDotOf(value: string, tail: string)
    requires '.' !in tail
    ensures LastDot(value + "." + tail) == |value|
  {
    if tail != "" {
      var n := |tail| - 1;
      assert (value + "." + tail)[..|value| + 1 + n] == value + "." + tail[..n];
      assert tail[n] in tail;
      LastDotOf(value, tail[..n]);
    }
  }

  /**
   * Only a value's own signature is accepted, and it is accepted exactly when the cookie fits and
   * the value is not empty.
   */
  lemma {:induction false} SignedUnsigns(mac: Mac, length: nat, value: string)
    requires IsMac(mac, length)
    ensures UnsignValue(mac, SignValue(mac, value)) == Some(value)
       <==> value != "" && Length(SignValue(mac, value)) <= 4096
  {
    assert '.' !in mac(value) && |mac(value)| == length;
    LastDotOf(value, mac(value));
    var s := SignValue(mac, value);
    assert s[..|value|] == value && s[|value| + 1..] == mac(value);
  }

  /**
   * With any signature text that holds no dot: what is accepted is a value that is not empty with
   * its own signature, not too long.
   */
  lemma {:induction false} UnsignsExactlyWhen(mac: Mac, signed: string, value: string)
    requires forall v :: '.' !in mac(v)
    ensures UnsignValue(mac, signed) == Some(value)
       <==> value != "" && mac(value) != "" && signed == SignValue(mac, value) && Length(signed) <= 4096
  {
    if signed == SignValue(mac, value) {
      LastDotOf(value, mac(value));
      assert signed[..|value|] == value && signed[|value| + 1..] == mac(value);
    }
    if UnsignValue(mac, signed) == Some(value) {
      var dot := LastDot(signed);
      assert signed == signed[..dot] + [signed[dot]] + signed[dot + 1..];
    }
  }

  lemma {:induction false} UnsignedWasSigned(mac: Mac, signed: string)
    ensures UnsignValue(mac, signed).Some? ==> SignValue(mac, UnsignValue(mac, signed).value) == signed
  {
    var dot := LastDot(signed);
    if dot > 0 {
      assert signed == signed[..dot] + [signed[dot]] + signed[dot + 1..];
    }
  }

  // ---- cookies

  function IndexOfChar(s: string, c: char): (i: int)
    ensures -1 <= i < |s|
    ensures i >= 0 ==> s[i] == c && c !in s[..i]
    ensures i < 0 ==> c !in s
  {
    if s == "" then -1
    else if s[0] == c then 0
    else
      var i := IndexOfChar(s[1..], c);
      assert s == [s[0]] + s[1..];
      assert i >= 0 ==> s[..i + 1] == [s[0]] + s[1..][..i];
      if i < 0 then -1 else i + 1
  }

  /** The value of the first part that names the cookie; an empty one counts as none. */
  function CookieIn(parts: seq<string>, name: string): Option<string> {
    if parts == [] then None
    else
      var eq := IndexOfChar(parts[0], '=');
      if eq < 0 || Trim(parts[0][..eq]) != name then CookieIn(parts[1..], name)
      else if Trim(parts[0][eq + 1..]) == "" then None
      else Some(Trim(parts[0][eq + 1..]))
  }

  /** `readCookie`. */
  method ReadCookie(header: string, name: string) returns (value: Option<string>)
    ensures value == if header == "" || Length(header) > MAX_COOKIE_BYTES * 4 then None
        else CookieIn(Split(';', header), name)
  {
    if header == "" || Length(header) > MAX_COOKIE_BYTES * 4 {
      return None;
    }
    var parts := Split(';', header);
    for i := 0 to |parts|
      invariant CookieIn(parts, name) == CookieIn(parts[i..], name)
    {
      assert parts[i..][1..] == parts[i + 1..];
      var eq := IndexOfChar(parts[i], '=');
      if eq < 0 { continue; }
      if Trim(parts[i][..eq]) != name { continue; }
      var text := Trim(parts[i][eq + 1..]);
      return if text == "" then None else Some(text);
    }
    return None;
  }

  /** A cookie as a browser sends it. */
  datatype Cookie = Cookie(name: string, value: string)

  predicate Tidy(s: string) {
    s == "" || (!IsJsSpace(s[0]) && !IsJsSpace(s[|s| - 1]))
  }

  predicate Sendable(c: Cookie) {
    && ';' !in c.name && '=' !in c.name && ';' !in c.value
    && Tidy(c.name) && Tidy(c.value)
  }

  function Pair(c: Cookie): string {
    c.name + "=" + c.value
  }

  /** The Cookie header: the pairs, with "; " between them. */
  function Header(cookies: seq<Cookie>): string {
    if cookies == [] then ""
    else if |cookies| == 1 then Pair(cookies[0])
    else Pair(cookies[0]) + ";" + (" " + Header(cookies[1..]))
  }

  /** The parts a header is split into: every pair but the first has a space before it. */
  function HeaderParts(cookies: seq<Cookie>, lead: string): seq<string> {
    if cookies == [] then [] else [lead + Pair(cookies[0])] + HeaderParts(cookies[1..], " ")
  }

  lemma {:induction false} HeaderSplits(cookies: seq<Cookie>, lead: string)
    requires cookies != [] && forall i :: 0 <= i < |cookies| ==> Sendable(cookies[i])
    requires lead == "" || lead == " "
    ensures Split(';', lead + Header(cookies)) == HeaderParts(cookies, lead)
  {
    var pair := lead + Pair(cookies[0]);
    assert ';' !in pair;
    if |cookies| == 1 {
      SplitNoSeparator(';', pair);
    } else {
      var rest := " " + Header(cookies[1..]);
      assert lead + Header(cookies) == pair + [';'] + rest;
      SplitHead(';', pair, rest);
      HeaderSplits(cookies[1..], " ");
    }
  }

  lemma {:induction false} IndexOfFirst(a: string, c: char, b: string)
    requires c !in a
    ensures IndexOfChar(a + [c] + b, c) == |a|
  {
    if a != "" {
      assert (a + [c] + b)[1..] == a[1..] + [c] + b;
      IndexOfFirst(a[1..], c, b);
    }
  }

  lemma {:induction false} TrimLed(lead: string, s: string)
    requires (lead == "" || lead == " ") && Tidy(s)
    ensures Trim(lead + s) == s
  {
    if lead == " " {
      assert (" " + s)[1..] == s;
      assert TrimStart(" " + s) == TrimStart(s);
    } else {
      assert lead + s == s;
    }
    TrimFixed(s);
  }

  lemma {:induction false} ReadPair(c: Cookie, lead: string, rest: seq<string>, name: string)
    requires Sendable(c) && (lead == "" || lead == " ")
    ensures CookieIn([lead + Pair(c)] + rest, name)
         == if c.name == name then (if c.value == "" then None else Some(c.value)) else CookieIn(rest, name)
  {
    var part := lead + Pair(c);
    assert part == (lead + c.name) + ['='] + c.value;
    assert '=' !in lead + c.name;
    IndexOfFirst(lead + c.name, '=', c.value);
    assert part[..|lead + c.name|] == lead + c.name;
    assert part[|lead + c.name| + 1..] == c.value;
    TrimLed(lead, c.name);
    TrimFixed(c.value);
    FirstPart(part, |lead + c.name|, rest, name);
  }

  /** What a part of the header says, once its first equals sign is known. */
  lemma {:induction false} FirstPart(part: string, eq: nat, rest: seq<string>, name: string)
    requires eq < |part| && IndexOfChar(part, '=') == eq
    ensures var value := Trim(part[eq + 1..]);
            CookieIn([part] + rest, name)
              == if Trim(part[..eq]) == name then (if value == "" then None else Some(value)) else CookieIn(rest, name)
  {
    assert ([part] + rest)[1..] == rest;
  }

  /** Among any cookies, the first with a name is the one read. */
  lemma {:induction false} CookieIsRead(cookies: seq<Cookie>, lead: string, i: nat)
    requires i < |cookies| && forall k :: 0 <= k < |cookies| ==> Sendable(cookies[k])
    requires forall k :: 0 <= k < i ==> cookies[k].name != cookies[i].name
    requires cookies[i].value != ""
    requires lead == "" || lead == " "
    ensures CookieIn(HeaderParts(cookies, lead), cookies[i].name) == Some(cookies[i].value)
  {
    ReadPair(cookies[0], lead, HeaderParts(cookies[1..], " "), cookies[i].name);
    if i > 0 {
      CookieIsRead(cookies[1..], " ", i - 1);
    }
  }

  /** What the callback makes of the cookie header. */
  function StateFrom(mac: Mac, header: string, name: string): Option<LoginTicket> {
    var cookie := if header == "" || Length(header) > MAX_COOKIE_BYTES * 4 then None
        else CookieIn(Split(';', header), name);
    match cookie
    case None => None
    case Some(signed) =>
      match UnsignValue(mac, signed)
      case None => None
      case Some(value) => DecodeState(value)
  }

  /**
   * The whole trip: a ticket set as a signed cookie comes back unchanged among
   * any other cookies, as long as they and it fit the limits.
   */
  lemma {:induction false} StateSurvives(mac: Mac, length: nat, t: LoginTicket, cookies: seq<Cookie>, i: nat)
    requires IsMac(mac, length) && Plain(t)
    requires i < |cookies| && forall k :: 0 <= k < |cookies| ==> Sendable(cookies[k])
    requires cookies[i].value == SignValue(mac, EncodeState(t))
    requires forall k :: 0 <= k < i ==> cookies[k].name != cookies[i].name
    requires Length(cookies[i].value) <= 4096 && Length(Header(cookies)) <= 16_384
    ensures StateFrom(mac, Header(cookies), cookies[i].name) == Some(t)
  {
    var header := Header(cookies);
    assert header != "" && "" + header == header;
    HeaderSplits(cookies, "");
    CookieIsRead(cookies, "", i);
    StateOfCookie(mac, length, t, header, cookies[i].name);
  }

  lemma {:induction false} StateOfCookie(mac: Mac, length: nat, t: LoginTicket, header: string, name: string)
    requires IsMac(mac, length) && Plain(t)
    requires header != "" && Length(header) <= MAX_COOKIE_BYTES * 4
    requires CookieIn(Split(';', header), name) == Some(SignValue(mac, EncodeState(t)))
    requires Length(SignValue(mac, EncodeState(t))) <= MAX_COOKIE_BYTES
    ensures StateFrom(mac, header, name) == Some(t)
  {
    SignedUnsigns(mac, length, EncodeState(t));
    EncodedDecodesBack(t);
  }

  /** A header that is empty or over the limit carries no state. */
  lemma {:induction false} HeaderTooLong(mac: Mac, header: string, name: string)
    requires header == "" || Length(header) > 16_384
    ensures StateFrom(mac, header, name) == None
  {
  }

  /** And whatever header is accepted, its ticket was signed as exactly the value it encodes to. */
  lemma {:induction false} AcceptedWasSigned(mac: Mac, header: string, name: string)
    ensures StateFrom(mac, header, name).Some? ==>
      CookieIn(Split(';', header), name) == Some(SignValue(mac, EncodeState(StateFrom(mac, header, name).value)))
  {
    if StateFrom(mac, header, name).Some? {
      var signed := CookieIn(Split(';', header), name).value;
      UnsignedWasSigned(mac, signed);
      DecodedEncodesBack(UnsignValue(mac, signed).value);
    }
  }
}
