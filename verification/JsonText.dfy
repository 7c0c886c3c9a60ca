/** JSON text: the string literal of `JSON.stringify`, and the reader of `JSON.parse`. */
module JsonText {
  import opened JsStrings

  datatype Json =
    | Str(text: string)
    | Arr(items: seq<Json>)
    | Obj(members: seq<Member>)

  datatype Member = Member(key: string, value: Json)

  datatype Parsed<T> = Parsed(value: T, rest: string) | Fail

  // ---- writing string literals

  const HEX := "0123456789abcdef"

  /** One character inside a string literal (section 7 of RFC 8259). */
  function EscapeChar(c: char): (r: string)
    ensures |r| > 0
  {
    if c == '\"' then "\\\""
    else if c == '\\' then "\\\\"
    else if c as int == 8 then "\\b"
    else if c as int == 9 then "\\t"
    else if c as int == 10 then "\\n"
    else if c as int == 12 then "\\f"
    else if c as int == 13 then "\\r"
    else if c as int < 32 then "\\u00" + [HEX[c as int / 16], HEX[c as int % 16]]
    else [c]
  }

  function Escape(s: string): string {
    if s == "" then "" else EscapeChar(s[0]) + Escape(s[1..])
  }

  /** `JSON.stringify(value)` of a string. */
  function Quoted(s: string): string {
    "\"" + Escape(s) + "\""
  }

  // ---- reading

  predicate IsWhite(c: char) {
    c == ' ' || c as int == 9 || c as int == 10 || c as int == 13
  }

  function SkipWhite(s: string): (r: string)
    ensures |r| <= |s|
    ensures r != "" ==> !IsWhite(r[0])
  {
    if s != "" && IsWhite(s[0]) then SkipWhite(s[1..]) else s
  }

  function HexDigit(c: char): (r: int)
    ensures -1 <= r < 16
  {
    if '0' <= c <= '9' then c as int - '0' as int
    else if 'a' <= c <= 'f' then c as int - 'a' as int + 10
    else if 'A' <= c <= 'F' then c as int - 'A' as int + 10
    else -1
  }

  /** The sixteen digits in their order, letters in either case, and nothing else. */
  lemma {:induction false} HexDigitsInOrder(c: char, i: nat)
    ensures i < 16 ==> HexDigit("0123456789abcdef"[i]) == i && HexDigit("0123456789ABCDEF"[i]) == i
    ensures HexDigit(c) >= 0 ==> c == "0123456789abcdef"[HexDigit(c)] || c == "0123456789ABCDEF"[HexDigit(c)]
  {
    assert forall d: nat :: d < 10 ==> "0123456789abcdef"[d] == "0123456789ABCDEF"[d] == ('0' as int + d) as char;
    assert forall d: nat :: 10 <= d < 16 ==>
      "0123456789abcdef"[d] == ('a' as int + d - 10) as char && "0123456789ABCDEF"[d] == ('A' as int + d - 10) as char;
  }

  /** The character the escape at the start of `s` (a backslash) stands for. */
  function ReadEscape(s: string): (r: Parsed<char>)
    requires s != "" && s[0] == '\\'
    ensures r.Parsed? ==> |r.rest| < |s|
  {
    if |s| < 2 then Fail
    else if s[1] == '\"' || s[1] == '\\' || s[1] == '/' then Parsed(s[1], s[2..])
    else if s[1] == 'b' then Parsed(8 as char, s[2..])
    else if s[1] == 't' then Parsed(9 as char, s[2..])
    else if s[1] == 'n' then Parsed(10 as char, s[2..])
    else if s[1] == 'f' then Parsed(12 as char, s[2..])
    else if s[1] == 'r' then Parsed(13 as char, s[2..])
    else if s[1] == 'u' then ReadUnits(s)
    else Fail
  }

  /** The code unit an escape like `\u00e9` at the start of `s` stands for. */
  function ReadUnit(s: string): (r: Option<nat>)
    ensures r.Some? ==> r.value < 0x1_0000
  {
    if |s| < 6 || s[0] != '\\' || s[1] != 'u' then None
    else
      var a, b, c, d := HexDigit(s[2]), HexDigit(s[3]), HexDigit(s[4]), HexDigit(s[5]);
      if a < 0 || b < 0 || c < 0 || d < 0 then None else Some(4096 * a + 256 * b + 16 * c + d)
  }

  /** One such escape, or the two of a surrogate pair. */
  function ReadUnits(s: string): (r: Parsed<char>)
    ensures r.Parsed? ==> |r.rest| < |s|
  {
    match ReadUnit(s)
    case None => Fail
    case Some(n) =>
      if n < 0xD800 || 0xE000 <= n then Parsed(n as char, s[6..])
      else
        match ReadUnit(s[6..])
        case None => Fail
        case Some(m) =>
          if n < 0xDC00 && 0xDC00 <= m < 0xE000
          then Parsed((0x1_0000 + (n - 0xD800) * 0x400 + (m - 0xDC00)) as char, s[12..])
          else Fail
  }

  /** The rest of a string literal, after its opening quote. */
  function ReadString(s: string): (r: Parsed<string>)
    ensures r.Parsed? ==> |r.rest| < |s|
  {
    if s == "" then Fail
    else if s[0] == '\"' then Parsed("", s[1..])
    else if s[0] == '\\' then
      match ReadEscape(s)
      case Fail => Fail
      case Parsed(c, rest) =>
        (match ReadString(rest)
         case Fail => Fail
         case Parsed(text, rest') => Parsed([c] + text, rest'))
    else if s[0] as int < 32 then Fail
    else
      match ReadString(s[1..])
      case Fail => Fail
      case Parsed(text, rest) => Parsed([s[0]] + text, rest)
  }

  function ReadValue(s: string): (r: Parsed<Json>)
    ensures r.Parsed? ==> |r.rest| < |s|
    decreases |s|, 0
  {
    var t := SkipWhite(s);
    if t == "" then Fail
    else if t[0] == '\"' then
      match ReadString(t[1..])
      case Fail => Fail
      case Parsed(text, rest) => Parsed(Str(text), rest)
    else if t[0] == '[' then
      var u := SkipWhite(t[1..]);
      if u != "" && u[0] == ']' then Parsed(Arr([]), u[1..])
      else
        (match ReadItems(t[1..])
         case Fail => Fail
         case Parsed(items, rest) => Parsed(Arr(items), rest))
    else if t[0] == '{' then
      var u := SkipWhite(t[1..]);
      if u != "" && u[0] == '}' then Parsed(Obj([]), u[1..])
      else
        (match ReadMembers(t[1..])
         case Fail => Fail
         case Parsed(members, rest) => Parsed(Obj(members), rest))
    else Fail
  }

  /** One or more array items and the closing bracket. */
  function ReadItems(s: string): (r: Parsed<seq<Json>>)
    ensures r.Parsed? ==> |r.rest| < |s|
    decreases |s|, 1
  {
    match ReadValue(s)
    case Fail => Fail
    case Parsed(value, rest) =>
      var t := SkipWhite(rest);
      if t == "" then Fail
      else if t[0] == ']' then Parsed([value], t[1..])
      else if t[0] != ',' then Fail
      else
        match ReadItems(t[1..])
        case Fail => Fail
        case Parsed(values, rest') => Parsed([value] + values, rest')
  }

  /** A member's key and the colon after it. */
  function ReadKey(s: string): (r: Parsed<string>)
    ensures r.Parsed? ==> |r.rest| < |s|
  {
    var t := SkipWhite(s);
    if t == "" || t[0] != '\"' then Fail
    else
      match ReadString(t[1..])
      case Fail => Fail
      case Parsed(key, rest) =>
        var u := SkipWhite(rest);
        if u == "" || u[0] != ':' then Fail else Parsed(key, u[1..])
  }

  /** One or more object members and the closing brace. */
  function ReadMembers(s: string): (r: Parsed<seq<Member>>)
    ensures r.Parsed? ==> |r.rest| < |s|
    decreases |s|, 1
  {
    match ReadKey(s)
    case Fail => Fail
    case Parsed(key, afterKey) =>
      match ReadValue(afterKey)
      case Fail => Fail
      case Parsed(value, rest) =>
        var t := SkipWhite(rest);
        if t == "" then Fail
        else if t[0] == '}' then Parsed([Member(key, value)], t[1..])
        else if t[0] != ',' then Fail
        else
          match ReadMembers(t[1..])
          case Fail => Fail
          case Parsed(members, rest') => Parsed([Member(key, value)] + members, rest')
  }

  datatype Option<T> = None | Some(value: T)

  /** The syntax tree of a whole text, or None where `JSON.parse` throws. */
  function ReadText(s: string): Option<Json> {
    match ReadValue(s)
    case Fail => None
    case Parsed(value, rest) => if SkipWhite(rest) == "" then Some(value) else None
  }

  // ---- reading undoes writing

  lemma {:induction false} SkipSpaces(n: nat, s: string)
    ensures SkipWhite(Spaces(n) + s) == SkipWhite(s)
  {
    if n == 0 {
      assert Spaces(n) + s == s;
    } else {
      assert (Spaces(n) + s)[1..] == Spaces(n - 1) + s;
      SkipSpaces(n - 1, s);
    }
  }

  lemma {:induction false} SkipNewline(s: string)
    ensures SkipWhite("\n" + s) == SkipWhite(s)
  {
    assert ("\n" + s)[1..] == s;
  }

  /** Only what must be escaped is: quotes, backslashes and control characters, five of these by a letter. */
  lemma {:induction false} EscapesAsLittleAsItCan(c: char)
    ensures EscapeChar(c) == [c] <==> c as int >= 0x20 && c != '\"' && c != '\\'
    ensures |EscapeChar(c)| == 2 <==> c in {'\"', '\\', 8 as char, '\t', '\n', 12 as char, '\r'}
    ensures |EscapeChar(c)| in {1, 2, 6}
  {
  }

  /** The white space of JSON. */
  lemma {:induction false} WhiteSpace(c: char)
    ensures IsWhite(c) <==> c in {' ', '\t', '\n', '\r'}
  {
  }

  /** A solidus may be escaped. */
  lemma {:induction false} ReadsSolidus(rest: string)
    ensures ReadEscape("\\/" + rest) == Parsed('/', rest)
  {
    var s := "\\/" + rest;
    assert s[2..] == rest && s[1] == '/';
  }

  /** A code unit in four digits of either case. */
  ghost predicate UnitText(text: string, n: nat) {
    && |text| == 6 && text[0] == '\\' && text[1] == 'u'
    && (forall i :: 2 <= i < 6 ==> HexDigit(text[i]) >= 0)
    && n == 4096 * HexDigit(text[2]) + 256 * HexDigit(text[3]) + 16 * HexDigit(text[4]) + HexDigit(text[5])
  }

  lemma {:induction false} ReadsUnit(text: string, n: nat, rest: string)
    requires UnitText(text, n)
    ensures ReadUnit(text + rest) == Some(n) && (text + rest)[6..] == rest
  {
    assert (text + rest)[6..] == rest;
  }

  /** A character is read from the escapes of its code units, one or a pair. */
  lemma {:induction false} ReadsCodeUnits(c: char, first: string, second: string, rest: string)
    requires UnitText(first, CodeUnits(c)[0])
    requires if |CodeUnits(c)| == 2 then UnitText(second, CodeUnits(c)[1]) else second == ""
    ensures ReadEscape(first + (second + rest)) == Parsed(c, rest)
  {
    var s := first + (second + rest);
    ReadsUnit(first, CodeUnits(c)[0], second + rest);
    if |CodeUnits(c)| == 2 {
      ReadsUnit(second, CodeUnits(c)[1], rest);
      assert s[12..] == s[6..][6..];
    } else {
      assert second + rest == rest;
    }
  }

  lemma {:induction false} ReadEscapeChar(c: char, rest: string)
    requires EscapeChar(c)[0] == '\\'
    ensures ReadEscape(EscapeChar(c) + rest) == Parsed(c, rest)
  {
    var e := EscapeChar(c);
    assert (e + rest)[|e|..] == rest;
    if |e| == 6 {
      var n := c as int;
      assert e[2] == '0' && e[3] == '0';
      HexRoundTrip(n / 16);
      HexRoundTrip(n % 16);
      assert 16 * (n / 16) + n % 16 == n;
    }
  }

  lemma {:induction false} HexRoundTrip(n: nat)
    requires n < 16
    ensures HexDigit(HEX[n]) == n
  {
  }

  /** Reading a string literal gives back the string, whatever follows it. */
  lemma {:induction false} ReadQuoted(s: string, rest: string)
    ensures ReadString(Escape(s) + "\"" + rest) == Parsed(s, rest)
  {
    if s == "" {
      assert Escape(s) + "\"" + rest == "\"" + rest;
    } else {
      var e, tail := EscapeChar(s[0]), Escape(s[1..]) + "\"" + rest;
      Assoc(e, Escape(s[1..]), "\"");
      Assoc(e, Escape(s[1..]) + "\"", rest);
      ReadQuoted(s[1..], rest);
      ReadStringStep(s[0], tail, s[1..], rest);
      assert [s[0]] + s[1..] == s;
    }
  }

  /** A literal with a bare control character in it is refused, whatever surrounds it. */
  lemma {:induction false} RefusesControl(s: string, c: char, rest: string)
    requires c as int < 0x20
    ensures ReadString(Escape(s) + ([c] + rest)) == Fail
  {
    if s == "" {
      assert Escape(s) + ([c] + rest) == [c] + rest;
    } else {
      var e, tail := EscapeChar(s[0]), Escape(s[1..]) + ([c] + rest);
      Assoc(e, Escape(s[1..]), [c] + rest);
      RefusesControl(s[1..], c, rest);
      if e[0] == '\\' {
        ReadEscapeChar(s[0], tail);
      } else {
        assert (e + tail)[1..] == tail;
      }
    }
  }

  /** One escaped character in front of a string that reads. */
  lemma {:induction false} ReadStringStep(c: char, tail: string, text: string, rest: string)
    requires ReadString(tail) == Parsed(text, rest)
    ensures ReadString(EscapeChar(c) + tail) == Parsed([c] + text, rest)
  {
    var e := EscapeChar(c);
    if e[0] == '\\' {
      ReadEscapeChar(c, tail);
    } else {
      assert (e + tail)[1..] == tail;
    }
  }

  lemma {:induction false} ReadStringValue(s: string, rest: string)
    ensures ReadValue(Quoted(s) + rest) == Parsed(Str(s), rest)
  {
    var t := Quoted(s) + rest;
    assert t[1..] == Escape(s) + "\"" + rest;
    ReadQuoted(s, rest);
  }

  /** Leading white space does not matter to a value. */
  lemma {:induction false} ReadValueAfterSpace(s: string)
    ensures ReadValue(" " + s) == ReadValue(s)
  {
    assert (" " + s)[1..] == s;
    assert SkipWhite(" " + s) == SkipWhite(s);
    assert SkipWhite(SkipWhite(s)) == SkipWhite(s);
  }

  /** The items of a one-line array: `"a", "b"`. */
  function ItemsText(items: seq<string>): string {
    Join(", ", QuotedAll(items))
  }

  function QuotedAll(items: seq<string>): (r: seq<string>)
    ensures |r| == |items|
    ensures forall i :: 0 <= i < |items| ==> r[i] == Quoted(items[i])
  {
    if items == [] then [] else [Quoted(items[0])] + QuotedAll(items[1..])
  }

  function Strs(items: seq<string>): (r: seq<Json>)
    ensures |r| == |items|
    ensures forall i :: 0 <= i < |items| ==> r[i] == Str(items[i])
  {
    if items == [] then [] else [Str(items[0])] + Strs(items[1..])
  }

  lemma {:induction false} ReadItemsAfterSpace(s: string)
    ensures ReadItems(" " + s) == ReadItems(s)
  {
    ReadValueAfterSpace(s);
  }

  lemma {:induction false} ReadLastItem(text: string, value: Json, rest: string)
    requires ReadValue(text) == Parsed(value, "]" + rest)
    ensures ReadItems(text) == Parsed([value], rest)
  {
    assert ("]" + rest)[1..] == rest;
  }

  lemma {:induction false} ReadNextItem(text: string, value: Json, more: string, values: seq<Json>, rest: string)
    requires ReadValue(text) == Parsed(value, "," + more)
    requires ReadItems(more) == Parsed(values, rest)
    ensures ReadItems(text) == Parsed([value] + values, rest)
  {
    assert ("," + more)[1..] == more;
  }

  lemma {:induction false} GlueItems(q: string, i: string, tail: string)
    ensures q + ", " + i + tail == q + ("," + (" " + (i + tail)))
  {
  }

  lemma {:induction false} ItemsTextCons(items: seq<string>, tail: string)
    requires |items| > 1
    ensures ItemsText(items) + tail == Quoted(items[0]) + ("," + (" " + (ItemsText(items[1..]) + tail)))
  {
    assert QuotedAll(items) == [Quoted(items[0])] + QuotedAll(items[1..]);
    assert QuotedAll(items)[1..] == QuotedAll(items[1..]);
    GlueItems(Quoted(items[0]), ItemsText(items[1..]), tail);
  }

  lemma {:induction false} ReadQuotedItems(items: seq<string>, rest: string)
    requires items != []
    ensures ReadItems(ItemsText(items) + ("]" + rest)) == Parsed(Strs(items), rest)
  {
    var head, tail := items[0], "]" + rest;
    if |items| == 1 {
      ReadStringValue(head, tail);
      assert QuotedAll(items) == [Quoted(head)];
      ReadLastItem(ItemsText(items) + tail, Str(head), rest);
      assert Strs(items) == [Str(head)];
    } else {
      var more := ItemsText(items[1..]) + tail;
      ItemsTextCons(items, tail);
      ReadStringValue(head, "," + (" " + more));
      ReadQuotedItems(items[1..], rest);
      ReadItemsAfterSpace(more);
      ReadNextItem(ItemsText(items) + tail, Str(head), " " + more, Strs(items[1..]), rest);
    }
  }

  lemma {:induction false} ReadFilledArray(text: string, values: seq<Json>, rest: string)
    requires text != "" && text[0] == '\"'
    requires ReadItems(text) == Parsed(values, rest)
    ensures ReadValue("[" + text) == Parsed(Arr(values), rest)
  {
    assert ("[" + text)[1..] == text;
  }

  lemma {:induction false} ReadEmptyArray(rest: string)
    ensures ReadValue("[]" + rest) == Parsed(Arr([]), rest)
  {
    assert ("[]" + rest)[1..] == "]" + rest;
    assert ("]" + rest)[1..] == rest;
  }

  lemma {:induction false} ItemsTextStartsQuoted(items: seq<string>)
    requires items != []
    ensures ItemsText(items) != "" && ItemsText(items)[0] == '\"'
  {
    assert QuotedAll(items)[0] == Quoted(items[0]);
  }

  /** `[]` or `["a", "b"]`, as one value. */
  lemma {:induction false} ReadArray(items: seq<string>, rest: string)
    ensures ReadValue("[" + ItemsText(items) + "]" + rest) == Parsed(Arr(Strs(items)), rest)
  {
    if items == [] {
      assert ItemsText(items) == "";
      ReadEmptyArray(rest);
    } else {
      ItemsTextStartsQuoted(items);
      ReadQuotedItems(items, rest);
      ReadFilledArray(ItemsText(items) + ("]" + rest), Strs(items), rest);
      Assoc("[", ItemsText(items), "]");
      Assoc("[", ItemsText(items) + "]", rest);
      Assoc(ItemsText(items), "]", rest);
    }
  }

  /** An escaped string holds no line break and no bare quote at its ends. */
  lemma {:induction false} EscapeHasNoNewline(s: string)
    ensures '\n' !in Escape(s)
  {
    if s != "" {
      EscapeHasNoNewline(s[1..]);
      EscapedCharHasNoNewline(s[0]);
    }
  }

  lemma {:induction false} EscapedCharHasNoNewline(c: char)
    ensures '\n' !in EscapeChar(c)
  {
    assert forall i :: 0 <= i < |HEX| ==> HEX[i] != '\n';
  }
}
