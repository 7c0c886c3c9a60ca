/** Scopes: what a held list grants, what a denial takes away, and what two principals have in common. */
module Scopes {
  import opened JsStrings
  import opened JsonText
  import opened Sorting

  /**
   * The known scopes are a parameter throughout: what is proved holds of any
   * list of `area:verb` names, this release's and later ones.
   */
  type Known = seq<string>

  const WILDCARD := "*"

  predicate IsScope(known: Known, s: string) {
    s in known
  }

  /** A scope is its area and its verb, with the one colon between them. */
  ghost predicate WellFormed(known: Known) {
    forall i :: 0 <= i < |known| ==> known[i] == Area(known[i]) + ":" + Verb(known[i]) && known[i] != WILDCARD
  }

  /** A list the mint-time check lets through. */
  predicate IsValid(known: Known, list: seq<string>) {
    forall i :: 0 <= i < |list| ==> list[i] == WILDCARD || IsScope(known, list[i])
  }

  function Area(s: string): string {
    Split(':', s)[0]
  }

  /** The second part of a string split at its colons; empty when there is none. */
  function Verb(s: string): string {
    if |Split(':', s)| > 1 then Split(':', s)[1] else ""
  }

  /** One held string grants a scope. */
  predicate Implies(held: string, required: string) {
    || held == WILDCARD || held == required
    || (Verb(held) == "write" && required == Area(held) + ":" + "read")
    || (Verb(held) == "write" && required == Area(held) + ":" + "append")
    || (Verb(held) == "append" && required == Area(held) + ":" + "read")
  }

  predicate Grants(held: seq<string>, required: string) {
    exists i :: 0 <= i < |held| && Implies(held[i], required)
  }

  /** `hasScope`. */
  method HasScope(held: seq<string>, required: string) returns (granted: bool)
    ensures granted == Grants(held, required)
  {
    for i := 0 to |held|
      invariant forall k :: 0 <= k < i ==> !Implies(held[k], required)
    {
      if held[i] == WILDCARD || held[i] == required { return true; }
      var area, verb := Area(held[i]), Verb(held[i]);
      if verb == "write" && required == area + ":" + "read" { return true; }
      if verb == "write" && required == area + ":" + "append" { return true; }
      if verb == "append" && required == area + ":" + "read" { return true; }
    }
    return false;
  }

  // ---- implication

  lemma {:induction false} PartsOf(area: string, verb: string)
    requires ':' !in area && ':' !in verb
    ensures Area(area + ":" + verb) == area && Verb(area + ":" + verb) == verb
  {
    SplitHead(':', area, verb);
    SplitNoSeparator(':', verb);
  }

  lemma {:induction false} AreaHasNoColon(s: string)
    ensures ':' !in Area(s)
  {
    JoinOfSplit(':', s);
  }

  /** What grants a scope that grants another grants the other, for any strings at all but the wildcard. */
  lemma {:induction false} ImpliesTransitive(a: string, b: string, c: string)
    requires Implies(a, b) && Implies(b, c) && b != WILDCARD
    ensures Implies(a, c)
  {
    if a != b && a != WILDCARD && b != c {
      AreaHasNoColon(a);
      PartsOf(Area(a), "read");
      PartsOf(Area(a), "append");
    }
  }

  lemma {:induction false} GrantsThrough(held: seq<string>, t: string, s: string)
    requires Grants(held, t) && Implies(t, s) && t != WILDCARD
    ensures Grants(held, s)
  {
    var i :| 0 <= i < |held| && Implies(held[i], t);
    ImpliesTransitive(held[i], t, s);
  }

  // ---- two principals

  function InBoth(a: seq<string>, b: seq<string>): string -> bool {
    (s: string) => Grants(a, s) && Grants(b, s)
  }

  /** `intersectScopes`. */
  function IntersectScopes(known: Known, a: seq<string>, b: seq<string>): seq<string> {
    Filter(InBoth(a, b), known)
  }

  lemma {:induction false} GrantsMember(held: seq<string>, s: string)
    requires s in held
    ensures Grants(held, s)
  {
    var i :| 0 <= i < |held| && held[i] == s;
  }

  /** The intersection grants a scope exactly when both sides do, whatever strings they hold. */
  lemma {:induction false} IntersectionGrants(known: Known, a: seq<string>, b: seq<string>, s: string)
    requires WellFormed(known)
    requires IsScope(known, s)
    ensures Grants(IntersectScopes(known, a, b), s) <==> Grants(a, s) && Grants(b, s)
  {
    var both := IntersectScopes(known, a, b);
    FilterMember(InBoth(a, b), known);
    if Grants(both, s) {
      var i :| 0 <= i < |both| && Implies(both[i], s);
      assert both[i] in both;
      ScopeParts(known, both[i]);
      GrantsThrough(a, both[i], s);
      GrantsThrough(b, both[i], s);
    }
    if Grants(a, s) && Grants(b, s) {
      assert s in both;
      GrantsMember(both, s);
    }
  }

  // ---- expanding and denying

  /** Adding to a set that keeps insertion order. */
  function Add(out: seq<string>, s: string): seq<string> {
    if s in out then out else out + [s]
  }

  function AddAll(out: seq<string>, more: seq<string>): seq<string>
    decreases |more|
  {
    if more == [] then out else AddAll(Add(out, more[0]), more[1..])
  }

  function AddIfScope(known: Known, out: seq<string>, s: string): seq<string> {
    if IsScope(known, s) then Add(out, s) else out
  }

  /** What one held string adds to the expansion. */
  function Expanded(known: Known, out: seq<string>, s: string): seq<string> {
    if s == WILDCARD then AddAll(out, known)
    else if !IsScope(known, s) then out
    else
      var one := Add(out, s);
      var two := if Verb(s) == "write" || Verb(s) == "append" then AddIfScope(known, one, Area(s) + ":" + "read")
          else one;
      if Verb(s) == "write" then AddIfScope(known, two, Area(s) + ":" + "append") else two
  }

  /** What one denied string adds to the closure. */
  function Closed(known: Known, out: seq<string>, s: string): seq<string> {
    if s == WILDCARD then AddAll(out, known)
    else if !IsScope(known, s) then out
    else
      var one := Add(out, s);
      if Verb(s) == "read" then
        AddIfScope(known, AddIfScope(known, one, Area(s) + ":" + "append"), Area(s) + ":" + "write")
      else if Verb(s) == "append" then AddIfScope(known, one, Area(s) + ":" + "write")
      else one
  }

  lemma {:induction false} AddAllMembers(out: seq<string>, more: seq<string>, x: string)
    ensures x in AddAll(out, more) <==> x in out || x in more
    decreases |more|
  {
    if more != [] {
      AddAllMembers(Add(out, more[0]), more[1..], x);
      assert x in more <==> x == more[0] || x in more[1..];
    }
  }

  /** A read or append scope is of a colon-free area. */
  lemma {:induction false} ImpliedParts(s: string, d: string)
    requires Implies(s, d) && s != WILDCARD && s != d
    ensures Area(d) == Area(s) && s == Area(s) + ":" + Verb(s) ==> s == Area(d) + ":" + Verb(s)
    ensures Area(d) == Area(s)
    ensures (Verb(d) == "read" && (Verb(s) == "write" || Verb(s) == "append"))
        || (Verb(d) == "append" && Verb(s) == "write")
  {
    AreaHasNoColon(s);
    PartsOf(Area(s), "read");
    PartsOf(Area(s), "append");
  }

  lemma {:induction false} ScopeParts(known: Known, s: string)
    requires WellFormed(known) && IsScope(known, s)
    ensures s == Area(s) + ":" + Verb(s) && s != WILDCARD
  {
    var i :| 0 <= i < |known| && known[i] == s;
  }

  lemma {:induction false} ExpandedMembers(known: Known, out: seq<string>, s: string, x: string)
    requires WellFormed(known)
    requires s == WILDCARD || IsScope(known, s)
    ensures x in Expanded(known, out, s) <==> x in out || (IsScope(known, x) && Implies(s, x))
  {
    if s == WILDCARD {
      AddAllMembers(out, known, x);
    }
  }

  lemma {:induction false} ClosedMembers(known: Known, out: seq<string>, d: string, x: string)
    requires WellFormed(known)
    requires d == WILDCARD || IsScope(known, d)
    ensures x in Closed(known, out, d) <==> x in out || (IsScope(known, x) && (d == WILDCARD || Implies(x, d)))
  {
    if d == WILDCARD {
      AddAllMembers(out, known, x);
    } else {
      ScopeParts(known, d);
      if IsScope(known, x) {
        ScopeParts(known, x);
        ClosedScope(known, out, d, x);
      }
    }
  }

  lemma {:induction false} ClosedScope(known: Known, out: seq<string>, d: string, x: string)
    requires WellFormed(known) && IsScope(known, d) && d == Area(d) + ":" + Verb(d)
    requires IsScope(known, x) && x == Area(x) + ":" + Verb(x) && x != WILDCARD
    ensures x in Closed(known, out, d) <==> x in out || Implies(x, d)
  {
    ScopeParts(known, d);
    if Implies(x, d) && x != d {
      ImpliedParts(x, d);
    }
    AreaHasNoColon(d);
    PartsOf(Area(d), "write");
    PartsOf(Area(d), "append");
  }

  function ExpandAll(known: Known, held: seq<string>): seq<string> {
    if held == [] then [] else Expanded(known, ExpandAll(known, held[..|held| - 1]), held[|held| - 1])
  }

  function CloseAll(known: Known, denied: seq<string>): seq<string> {
    if denied == [] then [] else Closed(known, CloseAll(known, denied[..|denied| - 1]), denied[|denied| - 1])
  }

  /** `expandScopes`. */
  method ExpandScopes(known: Known, held: seq<string>) returns (out: seq<string>)
    ensures out == ExpandAll(known, held)
  {
    out := [];
    for i := 0 to |held|
      invariant out == ExpandAll(known, held[..i])
    {
      assert held[..i + 1][..i] == held[..i];
      var scope := held[i];
      if scope == WILDCARD {
        out := AddAll(out, known);
        continue;
      }
      if !IsScope(known, scope) { continue; }
      out := Add(out, scope);
      var area, verb := Area(scope), Verb(scope);
      if verb == "write" || verb == "append" {
        var read := area + ":" + "read";
        if IsScope(known, read) { out := Add(out, read); }
      }
      if verb == "write" {
        var append := area + ":" + "append";
        if IsScope(known, append) { out := Add(out, append); }
      }
    }
    assert held[..|held|] == held;
  }

  /** `denialClosure`. */
  method DenialClosure(known: Known, denied: seq<string>) returns (out: seq<string>)
    ensures out == CloseAll(known, denied)
  {
    out := [];
    for i := 0 to |denied|
      invariant out == CloseAll(known, denied[..i])
    {
      assert denied[..i + 1][..i] == denied[..i];
      var scope := denied[i];
      if scope == WILDCARD {
        out := AddAll(out, known);
        continue;
      }
      if !IsScope(known, scope) { continue; }
      out := Add(out, scope);
      var area, verb := Area(scope), Verb(scope);
      if verb == "read" {
        var append, write := area + ":" + "append", area + ":" + "write";
        if IsScope(known, append) { out := Add(out, append); }
        if IsScope(known, write) { out := Add(out, write); }
      }
      if verb == "append" {
        var write := area + ":" + "write";
        if IsScope(known, write) { out := Add(out, write); }
      }
    }
    assert denied[..|denied|] == denied;
  }

  predicate Refuses(denied: seq<string>, s: string) {
    exists i :: 0 <= i < |denied| && (denied[i] == WILDCARD || Implies(s, denied[i]))
  }

  lemma {:induction false} GrantsSnoc(held: seq<string>, x: string)
    requires held != []
    ensures Grants(held, x) <==> Grants(held[..|held| - 1], x) || Implies(held[|held| - 1], x)
  {
    var init := held[..|held| - 1];
    if Grants(init, x) {
      var i :| 0 <= i < |init| && Implies(init[i], x);
      assert held[i] == init[i];
    }
    if Grants(held, x) {
      var i :| 0 <= i < |held| && Implies(held[i], x);
      assert i < |init| ==> init[i] == held[i];
    }
  }

  lemma {:induction false} RefusesSnoc(denied: seq<string>, x: string)
    requires denied != []
    ensures Refuses(denied, x)
       <==> Refuses(denied[..|denied| - 1], x) || denied[|denied| - 1] == WILDCARD || Implies(x, denied[|denied| - 1])
  {
    var init := denied[..|denied| - 1];
    if Refuses(init, x) {
      var i :| 0 <= i < |init| && (init[i] == WILDCARD || Implies(x, init[i]));
      assert denied[i] == init[i];
    }
    if Refuses(denied, x) {
      var i :| 0 <= i < |denied| && (denied[i] == WILDCARD || Implies(x, denied[i]));
      assert i < |init| ==> init[i] == denied[i];
    }
  }

  lemma {:induction false} ExpandAllMembers(known: Known, held: seq<string>, x: string)
    requires WellFormed(known) && IsValid(known, held)
    ensures x in ExpandAll(known, held) <==> IsScope(known, x) && Grants(held, x)
  {
    if held != [] {
      var init, s := held[..|held| - 1], held[|held| - 1];
      ExpandAllMembers(known, init, x);
      ExpandedMembers(known, ExpandAll(known, init), s, x);
      GrantsSnoc(held, x);
    }
  }

  lemma {:induction false} CloseAllMembers(known: Known, denied: seq<string>, x: string)
    requires WellFormed(known) && IsValid(known, denied)
    ensures x in CloseAll(known, denied) <==> IsScope(known, x) && Refuses(denied, x)
  {
    if denied != [] {
      var init, d := denied[..|denied| - 1], denied[|denied| - 1];
      CloseAllMembers(known, init, x);
      ClosedMembers(known, CloseAll(known, init), d, x);
      RefusesSnoc(denied, x);
    }
  }

  // ---- minting

  function Invalid(known: Known): string -> bool {
    (s: string) => s != WILDCARD && !IsScope(known, s)
  }

  function Usable(known: Known): string -> bool {
    (s: string) => s == WILDCARD || IsScope(known, s)
  }

  /** `parseScopes`: the usable scopes without repeats, and what is wrong with the request. */
  function ParseScopes(known: Known, requested: seq<string>): (seq<string>, seq<string>) {
    (Dedup(Filter(Usable(known), requested)), Filter(Invalid(known), requested))
  }

  /** What comes out is a valid list; nothing is wrong exactly when the request was one, and then nothing is lost. */
  lemma {:induction false} ParsedIsValid(known: Known, requested: seq<string>)
    ensures var (scopes, invalid) := ParseScopes(known, requested);
            && IsValid(known, scopes)
            && (invalid == [] <==> IsValid(known, requested))
            && (invalid == [] ==> forall s :: s in scopes <==> s in requested)
  {
    var (scopes, invalid) := ParseScopes(known, requested);
    FilterMember(Usable(known), requested);
    FilterMember(Invalid(known), requested);
    forall i | 0 <= i < |scopes| ensures scopes[i] == WILDCARD || IsScope(known, scopes[i]) {
      assert scopes[i] in scopes;
    }
    if invalid == [] {
      forall i | 0 <= i < |requested| ensures requested[i] == WILDCARD || IsScope(known, requested[i]) {
        assert requested[i] in requested;
      }
    } else {
      assert invalid[0] in invalid;
      var i :| 0 <= i < |requested| && requested[i] == invalid[0];
    }
  }

  // ---- what an account holds

  function NotRefused(known: Known, denied: seq<string>): string -> bool {
    (s: string) => s !in CloseAll(known, denied)
  }

  /** `effectiveScopes`. */
  function EffectiveScopes(known: Known, baseline: seq<string>, extra: seq<string>, denied: seq<string>): seq<string> {
    var granted := baseline + extra;
    if denied == [] then Dedup(granted) else Filter(NotRefused(known, denied), ExpandAll(known, granted))
  }

  lemma {:induction false} EffectiveMembers(
      known: Known, baseline: seq<string>, extra: seq<string>, denied: seq<string>, x: string)
    requires WellFormed(known)
    requires IsValid(known, baseline + extra) && IsValid(known, denied) && denied != []
    ensures x in EffectiveScopes(known, baseline, extra, denied)
       <==> IsScope(known, x) && Grants(baseline + extra, x) && !Refuses(denied, x)
  {
    FilterMember(NotRefused(known, denied), ExpandAll(known, baseline + extra));
    ExpandAllMembers(known, baseline + extra, x);
    CloseAllMembers(known, denied, x);
  }

  /**
   * With a denial the account grants a scope exactly when the baseline and the
   * extras do and the scope neither is nor implies a denied one; whatever it
   * grants it holds outright, so nothing denied can be derived back.
   */
  lemma {:induction false} DenialWins(
      known: Known, baseline: seq<string>, extra: seq<string>, denied: seq<string>, s: string)
    requires WellFormed(known)
    requires IsValid(known, baseline + extra) && IsValid(known, denied) && denied != [] && IsScope(known, s)
    ensures var held := EffectiveScopes(known, baseline, extra, denied);
            && (Grants(held, s) <==> Grants(baseline + extra, s) && !Refuses(denied, s))
            && (Grants(held, s) ==> s in held)
  {
    var held := EffectiveScopes(known, baseline, extra, denied);
    EffectiveMembers(known, baseline, extra, denied, s);
    if Grants(held, s) {
      var i :| 0 <= i < |held| && Implies(held[i], s);
      var t := held[i];
      assert t in held;
      EffectiveMembers(known, baseline, extra, denied, t);
      ScopeParts(known, t);
      GrantsThrough(baseline + extra, t, s);
      if Refuses(denied, s) {
        RefusedThrough(known, denied, t, s);
      }
    }
    if s in held {
      GrantsMember(held, s);
    }
  }

  lemma {:induction false} RefusedThrough(known: Known, denied: seq<string>, t: string, s: string)
    requires WellFormed(known) && Refuses(denied, s) && Implies(t, s) && IsScope(known, s)
    ensures Refuses(denied, t)
  {
    var i :| 0 <= i < |denied| && (denied[i] == WILDCARD || Implies(s, denied[i]));
    if denied[i] != WILDCARD {
      ScopeParts(known, s);
      ImpliesTransitive(t, s, denied[i]);
    }
  }

  /** Without a denial nothing is added or lost, the wildcard included. */
  lemma {:induction false} NoDenialKeepsAll(known: Known, baseline: seq<string>, extra: seq<string>, s: string)
    ensures Grants(EffectiveScopes(known, baseline, extra, []), s) <==> Grants(baseline + extra, s)
  {
    var granted, held := baseline + extra, Dedup(baseline + extra);
    if Grants(held, s) {
      var i :| 0 <= i < |held| && Implies(held[i], s);
      assert held[i] in granted;
      var j :| 0 <= j < |granted| && granted[j] == held[i];
    }
    if Grants(granted, s) {
      var i :| 0 <= i < |granted| && Implies(granted[i], s);
      assert granted[i] in held;
      var j :| 0 <= j < |held| && held[j] == granted[i];
    }
  }

  // ---- this release

  /** Every scope is an area and a verb. */
  datatype Named = Named(area: string, verb: string)

  function Name(n: Named): string {
    n.area + ":" + n.verb
  }

  const DEFINED: seq<Named> := [
    Named("runs", "read"), Named("runs", "write"),
    Named("chapters", "read"), Named("chapters", "write"),
    Named("workers", "read"), Named("workers", "write"), Named("enroll", "write"),
    Named("extensions", "read"), Named("extensions", "write"),
    Named("tracked", "read"), Named("tracked", "append"), Named("tracked", "write"),
    Named("bundles", "read"), Named("bundles", "write"),
    Named("untracked", "read"), Named("untracked", "write"),
    Named("settings", "read"), Named("settings", "write"),
    Named("users", "admin"), Named("audit", "read"), Named("stats", "read")]

  const SCOPES: seq<string> := Map(Name, DEFINED)

  lemma {:induction false} DefinedHaveNoColons(i: nat)
    requires i < |DEFINED|
    ensures ':' !in DEFINED[i].area && ':' !in DEFINED[i].verb && DEFINED[i].area != ""
  {
  }

  /** A star grants every scope, whatever else is held. */
  lemma {:induction false} StarGrantsAll(held: seq<string>, s: string)
    requires "*" in held
    ensures Grants(held, s)
  {
    var i :| 0 <= i < |held| && held[i] == "*";
    assert Implies(held[i], s);
  }

  /** The scopes of this release are such a list. */
  lemma {:induction false} ScopesAreWellFormed()
    ensures WellFormed(SCOPES)
  {
    var scopes := SCOPES;
    forall i | 0 <= i < |scopes| ensures scopes[i] == Area(scopes[i]) + ":" + Verb(scopes[i]) && scopes[i] != WILDCARD {
      DefinedHaveNoColons(i);
      NamedParts(DEFINED[i]);
    }
  }

  lemma {:induction false} NamedParts(n: Named)
    requires ':' !in n.area && ':' !in n.verb && n.area != ""
    ensures Name(n) == Area(Name(n)) + ":" + Verb(Name(n)) && Name(n) != WILDCARD
  {
    PartsOf(n.area, n.verb);
    assert |Name(n)| > 1;
  }
}
