/** The string operations of the modelled TypeScript, on `seq<char>`. */
module JsStrings {

  /** `parts.join(sep)`. */
  function Join(sep: string, parts: seq<string>): string {
    if |parts| == 0 then ""
    else if |parts| == 1 then parts[0]
    else parts[0] + sep + Join(sep, parts[1..])
  }

  /** `s.split(c)` for a one-character separator: never empty. */
  function Split(c: char, s: string): (parts: seq<string>)
    ensures |parts| > 0
  {
    if s == "" then [""]
    else
      var rest := Split(c, s[1..]);
      if s[0] == c then [""] + rest else [[s[0]] + rest[0]] + rest[1..]
  }

  /** `" ".repeat(n)`. */
  function Spaces(n: nat): (r: string)
    ensures |r| == n
    ensures forall i :: 0 <= i < n ==> r[i] == ' '
  {
    if n == 0 then "" else " " + Spaces(n - 1)
  }

  /** The number of UTF-16 code units of one character: what `length` counts. */
  function Width(c: char): nat {
    if c as int >= 0x10000 then 2 else 1
  }

  /** `s.length`. */
  function Length(s: string): nat {
    if s == "" then 0 else Width(s[0]) + Length(s[1..])
  }

  /**
   * The place of a character in UTF-16 code-unit order: surrogate pairs come
   * after U+D7FF and before U+E000.
   */
  function UnitRank(c: char): nat {
    var n := c as int;
    if n < 0xD800 then n
    else if n >= 0x10000 then n - 0x10000 + 0xD800
    else n + 0x100000
  }

  /** `a <= b` on strings: lexicographic by UTF-16 code unit. */
  predicate UnitLeq(a: string, b: string) {
    if a == "" then true
    else if b == "" then false
    else if UnitRank(a[0]) != UnitRank(b[0]) then UnitRank(a[0]) < UnitRank(b[0])
    else UnitLeq(a[1..], b[1..])
  }

  /** `a < b` on strings. */
  predicate UnitLess(a: string, b: string) {
    UnitLeq(a, b) && a != b
  }

  /** The characters the regular expression class `\s`, and `trim`, match. */
  predicate IsJsSpace(c: char) {
    var n := c as int;
    || 9 <= n <= 13 || n == 32 || n == 0xA0 || n == 0x1680 || 0x2000 <= n <= 0x200A
    || n == 0x2028 || n == 0x2029 || n == 0x202F || n == 0x205F || n == 0x3000 || n == 0xFEFF
  }

  /** A tab, a form feed, a line end, the byte order mark, or one of the space separators. */
  lemma {:induction false} SpacesAre(c: char)
    ensures IsJsSpace(c) <==>
            || c in {'\t', '\n', 11 as char, 12 as char, '\r', ' ', '\U{A0}', '\U{1680}'}
            || c in {'\U{2000}', '\U{2001}', '\U{2002}', '\U{2003}', '\U{2004}', '\U{2005}', '\U{2006}', '\U{2007}'}
            || c in {'\U{2008}', '\U{2009}', '\U{200A}', '\U{2028}', '\U{2029}', '\U{202F}', '\U{205F}'}
            || c in {'\U{3000}', '\U{FEFF}'}
  {
  }

  function TrimStart(s: string): (r: string)
    ensures |r| <= |s|
    ensures r != "" ==> !IsJsSpace(r[0])
  {
    if s != "" && IsJsSpace(s[0]) then TrimStart(s[1..]) else s
  }

  function TrimEnd(s: string): (r: string)
    ensures |r| <= |s| && r == s[..|r|]
    ensures r != "" ==> !IsJsSpace(r[|r| - 1])
  {
    if s != "" && IsJsSpace(s[|s| - 1]) then TrimEnd(s[..|s| - 1]) else s
  }

  /** `s.trim()`. */
  function Trim(s: string): string {
    TrimEnd(TrimStart(s))
  }

  /** `String(n)` of a natural number. */
  function Decimal(n: nat): string {
    if n < 10 then [('0' as int + n) as char] else Decimal(n / 10) + [('0' as int + n % 10) as char]
  }

  function LowerChar(c: char): char {
    if 'A' <= c <= 'Z' then (c as int + 32) as char else c
  }

  /** `s.toLowerCase()` on ASCII letters. */
  function Lower(s: string): (r: string)
    ensures |r| == |s|
    ensures forall i :: 0 <= i < |s| ==> r[i] == LowerChar(s[i])
  {
    if s == "" then "" else [LowerChar(s[0])] + Lower(s[1..])
  }

  /** The 26 letters, each to its own; every other character stays. */
  lemma {:induction false} LowersLetters(c: char, i: nat)
    ensures i < 26 ==> LowerChar("ABCDEFGHIJKLMNOPQRSTUVWXYZ"[i]) == "abcdefghijklmnopqrstuvwxyz"[i]
    ensures !('A' <= c <= 'Z') ==> LowerChar(c) == c
  {
    if i < 26 {
      assert "ABCDEFGHIJKLMNOPQRSTUVWXYZ"[i] == (65 + i) as char;
      assert "abcdefghijklmnopqrstuvwxyz"[i] == (97 + i) as char;
    }
  }

  lemma {:induction false} LowerIdempotent(s: string)
    ensures Lower(Lower(s)) == Lower(s)
  {
  }

  lemma {:induction false} TrimFixed(s: string)
    requires s == "" || (!IsJsSpace(s[0]) && !IsJsSpace(s[|s| - 1]))
    ensures Trim(s) == s
  {
  }

  lemma {:induction false} TrimShape(s: string)
    ensures var t := Trim(s); t == "" || (!IsJsSpace(t[0]) && !IsJsSpace(t[|t| - 1]))
  {
  }

  lemma {:induction false} TrimLowerIdempotent(s: string)
    ensures Lower(Trim(Lower(Trim(s)))) == Lower(Trim(s))
  {
    TrimShape(s);
    TrimFixed(Lower(Trim(s)));
    LowerIdempotent(Trim(s));
  }

  lemma {:induction false} Assoc(a: string, b: string, c: string)
    ensures (a + b) + c == a + (b + c)
  {
  }

  // ---- joining and splitting

  lemma {:induction false} JoinAppend(sep: string, a: seq<string>, b: seq<string>)
    requires |a| > 0 && |b| > 0
    ensures Join(sep, a + b) == Join(sep, a) + sep + Join(sep, b)
  {
    if |a| == 1 {
      assert (a + b)[1..] == b;
    } else {
      assert (a + b)[1..] == a[1..] + b;
      JoinAppend(sep, a[1..], b);
    }
  }

  lemma {:induction false} SplitNoSeparator(c: char, s: string)
    requires c !in s
    ensures Split(c, s) == [s]
  {
    if s != "" {
      SplitNoSeparator(c, s[1..]);
      assert [s[0]] + s[1..] == s;
    }
  }

  lemma {:induction false} SplitHead(c: char, a: string, b: string)
    requires c !in a
    ensures Split(c, a + [c] + b) == [a] + Split(c, b)
  {
    var s := a + [c] + b;
    if a == "" {
      assert s[1..] == b;
    } else {
      assert s[1..] == a[1..] + [c] + b;
      SplitHead(c, a[1..], b);
      assert [a[0]] + a[1..] == a;
      assert ([a[1..]] + Split(c, b))[1..] == Split(c, b);
    }
  }

  /** Splitting undoes joining when no part holds the separator. */
  lemma {:induction false} SplitOfJoin(c: char, parts: seq<string>)
    requires |parts| > 0
    requires forall p :: p in parts ==> c !in p
    ensures Split(c, Join([c], parts)) == parts
  {
    if |parts| == 1 {
      SplitNoSeparator(c, parts[0]);
    } else {
      var head, rest := parts[0], parts[1..];
      SplitOfJoin(c, rest);
      SplitHead(c, head, Join([c], rest));
      assert Join([c], parts) == head + [c] + Join([c], rest);
      assert [head] + rest == parts;
    }
  }

  /** Joining undoes splitting, always. */
  lemma {:induction false} JoinOfSplit(c: char, s: string)
    ensures Join([c], Split(c, s)) == s
    ensures forall p :: p in Split(c, s) ==> c !in p
  {
    if s != "" {
      JoinOfSplit(c, s[1..]);
      var rest := Split(c, s[1..]);
      if s[0] == c {
        JoinEmptyFirst([c], rest);
      } else {
        JoinLongerFirst([c], s[0], rest);
        assert forall p :: p in rest[1..] ==> p in rest;
      }
      assert [s[0]] + s[1..] == s;
    }
  }

  lemma {:induction false} JoinEmptyFirst(sep: string, rest: seq<string>)
    requires rest != []
    ensures Join(sep, [""] + rest) == sep + Join(sep, rest)
  {
    assert ([""] + rest)[1..] == rest;
  }

  lemma {:induction false} JoinLongerFirst(sep: string, x: char, rest: seq<string>)
    requires rest != []
    ensures Join(sep, [[x] + rest[0]] + rest[1..]) == [x] + Join(sep, rest)
  {
    var parts := [[x] + rest[0]] + rest[1..];
    assert parts[1..] == rest[1..];
    if |rest| > 1 {
      Assoc([x], rest[0], sep);
      Assoc([x], rest[0] + sep, Join(sep, rest[1..]));
    }
  }

  // ---- lengths

  lemma {:induction false} LengthAppend(a: string, b: string)
    ensures Length(a + b) == Length(a) + Length(b)
  {
    if a == "" {
      assert a + b == b;
    } else {
      assert (a + b)[1..] == a[1..] + b;
      LengthAppend(a[1..], b);
    }
  }

  // ---- code-unit order

  lemma {:induction false} UnitRankInjective(a: char, b: char)
    requires UnitRank(a) == UnitRank(b)
    ensures a == b
  {
    assert a as int == b as int;
  }

  lemma {:induction false} UnitLeqReflexive(a: string)
    ensures UnitLeq(a, a)
  {
    if a != "" {
      UnitLeqReflexive(a[1..]);
    }
  }

  lemma {:induction false} UnitLeqConnected(a: string, b: string)
    ensures UnitLeq(a, b) || UnitLeq(b, a)
  {
    if a != "" && b != "" && UnitRank(a[0]) == UnitRank(b[0]) {
      UnitLeqConnected(a[1..], b[1..]);
    }
  }

  lemma {:induction false} UnitLeqTransitive(a: string, b: string, c: string)
    requires UnitLeq(a, b) && UnitLeq(b, c)
    ensures UnitLeq(a, c)
  {
    if a != "" && UnitRank(a[0]) == UnitRank(b[0]) == UnitRank(c[0]) {
      UnitLeqTransitive(a[1..], b[1..], c[1..]);
    }
  }

  lemma {:induction false} UnitLeqAntisymmetric(a: string, b: string)
    requires UnitLeq(a, b) && UnitLeq(b, a)
    ensures a == b
  {
    if a != "" {
      UnitRankInjective(a[0], b[0]);
      UnitLeqAntisymmetric(a[1..], b[1..]);
      assert a == [a[0]] + a[1..] == [b[0]] + b[1..] == b;
    }
  }

  // ---- UTF-16 code units

  /** The code units of one character: a surrogate pair above U+FFFF. */
  function CodeUnits(c: char): seq<nat> {
    var n := c as int;
    if n < 0x10000 then [n] else [0xD800 + (n - 0x10000) / 0x400, 0xDC00 + (n - 0x10000) % 0x400]
  }

  function Utf16(s: string): seq<nat> {
    if s == "" then [] else CodeUnits(s[0]) + Utf16(s[1..])
  }

  /** Lexicographic order of the units: what `<` compares. */
  predicate LexLess(a: seq<nat>, b: seq<nat>) {
    b != [] && (a == [] || a[0] < b[0] || (a[0] == b[0] && LexLess(a[1..], b[1..])))
  }

  /** `length` counts code units. */
  lemma {:induction false} LengthIsUnits(s: string)
    ensures Length(s) == |Utf16(s)|
  {
    if s != "" {
      LengthIsUnits(s[1..]);
    }
  }

  lemma {:induction false} LexPrefix(u: nat, a: seq<nat>, b: seq<nat>)
    ensures LexLess([u] + a, [u] + b) <==> LexLess(a, b)
  {
    assert ([u] + a)[1..] == a && ([u] + b)[1..] == b;
  }

  lemma {:induction false} SameCharPrefix(c: char, a: seq<nat>, b: seq<nat>)
    ensures LexLess(CodeUnits(c) + a, CodeUnits(c) + b) <==> LexLess(a, b)
  {
    var u := CodeUnits(c);
    if |u| == 1 {
      LexPrefix(u[0], a, b);
      assert u == [u[0]];
    } else {
      assert u + a == [u[0]] + ([u[1]] + a) && u + b == [u[0]] + ([u[1]] + b);
      LexPrefix(u[0], [u[1]] + a, [u[1]] + b);
      LexPrefix(u[1], a, b);
    }
  }

  /** The units of different characters differ at the first, or at the second of two pairs, the way their ranks do. */
  lemma {:induction false} CharOrder(x: char, y: char, a: seq<nat>, b: seq<nat>)
    requires x != y
    ensures UnitRank(x) != UnitRank(y)
    ensures LexLess(CodeUnits(x) + a, CodeUnits(y) + b) <==> UnitRank(x) < UnitRank(y)
  {
    var u, v := CodeUnits(x), CodeUnits(y);
    if |u| == 2 && |v| == 2 && u[0] == v[0] {
      PairOrder(x as int - 0x10000, y as int - 0x10000);
      assert u + a == [u[0]] + ([u[1]] + a) && v + b == [v[0]] + ([v[1]] + b);
      LexPrefix(u[0], [u[1]] + a, [v[1]] + b);
      assert ([u[1]] + a)[0] == u[1] && ([v[1]] + b)[0] == v[1];
    } else {
      assert (u + a)[0] == u[0] && (v + b)[0] == v[0];
      FirstUnits(x, y);
    }
  }

  lemma {:induction false} PairOrder(n: nat, m: nat)
    requires n / 0x400 == m / 0x400
    ensures n < m <==> n % 0x400 < m % 0x400
  {
  }

  lemma {:induction false} FirstUnits(x: char, y: char)
    requires x != y && CodeUnits(x)[0] != CodeUnits(y)[0]
    ensures CodeUnits(x)[0] < CodeUnits(y)[0] <==> UnitRank(x) < UnitRank(y)
  {
  }

  /** `a < b` compares code units, not characters. */
  lemma {:induction false} UnitLessIsLexicographic(a: string, b: string)
    ensures UnitLess(a, b) <==> LexLess(Utf16(a), Utf16(b))
  {
    if a != "" && b != "" {
      if a[0] == b[0] {
        UnitLessIsLexicographic(a[1..], b[1..]);
        SameCharPrefix(a[0], Utf16(a[1..]), Utf16(b[1..]));
        assert a == [a[0]] + a[1..] && b == [b[0]] + b[1..];
      } else {
        CharOrder(a[0], b[0], Utf16(a[1..]), Utf16(b[1..]));
      }
    }
  }
}
