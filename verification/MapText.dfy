/** The lines of a rendered file: what splitting its text on line breaks gives back, and which are key lines. */
module MapText {
  import opened JsStrings
  import opened JsonText
  import opened MapFile
  import opened MapReading
  import opened MapLayout

  // ---- no line holds a line break

  ghost predicate OneLine(s: string) {
    '\n' !in s
  }

  ghost predicate OneLineEach(lines: seq<string>) {
    forall i :: 0 <= i < |lines| ==> OneLine(lines[i])
  }

  lemma {:induction false} LabelOneLine(key: string, depth: nat, shape: MapShape, widest: nat, tail: string)
    requires OneLine(tail)
    ensures OneLine(Label(key, depth, shape, widest) + tail)
  {
    EscapeHasNoNewline(key);
  }

  lemma {:induction false} JoinOneLine(sep: string, parts: seq<string>)
    requires OneLine(sep) && OneLineEach(parts)
    ensures OneLine(Join(sep, parts))
  {
    if |parts| > 1 {
      JoinOneLine(sep, parts[1..]);
    }
  }

  lemma {:induction false} InlineOneLine(v: Json)
    requires Printable(v) && !v.Obj?
    ensures OneLine(InlineValue(v))
  {
    match v
    case Str(text) => EscapeHasNoNewline(text);
    case Arr(items) =>
      var texts := Texts(items);
      var quoted := QuotedAll(texts);
      forall i | 0 <= i < |quoted| ensures OneLine(quoted[i]) {
        EscapeHasNoNewline(texts[i]);
      }
      JoinOneLine(", ", quoted);
  }

  lemma {:induction false} BlockOneLineEach(m: Member, depth: nat, shape: MapShape, widest: nat)
    requires Printable(m.value)
    ensures OneLineEach(Block(m, depth, shape, widest))
    decreases m, 0
  {
    if m.value.Obj? {
      LabelOneLine(m.key, depth, shape, widest, "{}");
      LabelOneLine(m.key, depth, shape, widest, "{");
      var inner := m.value.members;
      BlocksOneLineEach(inner, depth + 1, shape, Widest(inner, shape));
    } else {
      InlineOneLine(m.value);
      LabelOneLine(m.key, depth, shape, widest, InlineValue(m.value));
    }
  }

  lemma {:induction false} BlocksOneLineEach(ms: seq<Member>, depth: nat, shape: MapShape, widest: nat)
    requires PrintableAll(ms)
    ensures OneLineEach(CommaJoin(Blocks(ms, depth, shape, widest)))
    decreases ms, 0
  {
    if ms != [] {
      BlockOneLineEach(ms[0], depth, shape, widest);
      BlocksOneLineEach(ms[1..], depth, shape, widest);
      var block, rest := Block(ms[0], depth, shape, widest), Blocks(ms[1..], depth, shape, widest);
      assert ([block] + rest)[1..] == rest;
      assert OneLineEach(AddComma(block));
    }
  }

  /** Splitting a rendered file gives back its lines, and an empty one after the final line break. */
  lemma {:induction false} SplitSerialised(ms: seq<Member>, shape: MapShape)
    requires ms != [] && PrintableAll(ms)
    ensures Split('\n', Serialise(ms, shape)) == Lines(ms, shape) + [""]
  {
    var lines := Lines(ms, shape);
    BlocksOneLineEach(ms, 1, shape, Widest(ms, shape));
    JoinAppend("\n", lines, [""]);
    assert Join("\n", lines) + "\n" + "" == Serialise(ms, shape);
    assert OneLineEach(lines + [""]);
    SplitOfJoin('\n', lines + [""]);
  }

  // ---- the key lines

  function LeadFor(key: string, depth: nat, shape: MapShape, widest: nat): nat {
    IndentOf(shape) * depth + Padding(key, widest)
  }

  /** The key line of a member; a line that does not start with a space is none. */
  function OwnKeyLine(key: string, depth: nat, shape: MapShape, widest: nat): seq<KeyLine> {
    if LeadFor(key, depth, shape, widest) == 0 then []
    else [KeyLine(LeadFor(key, depth, shape, widest), Escape(key))]
  }

  /** The key lines of a rendered object, in order. */
  function KeyLinesOf(ms: seq<Member>, depth: nat, shape: MapShape, widest: nat): seq<KeyLine>
    decreases ms, 0
  {
    if ms == [] then []
    else
      OwnKeyLine(ms[0].key, depth, shape, widest)
      + (match ms[0].value
         case Obj(inner) => KeyLinesOf(inner, depth + 1, shape, Widest(inner, shape))
         case _ => [])
      + KeyLinesOf(ms[1..], depth, shape, widest)
  }

  lemma {:induction false} LeadingSpacesOf(n: nat, s: string)
    requires s != "" && s[0] != ' '
    ensures LeadingSpaces(Spaces(n) + s) == n
    ensures (Spaces(n) + s)[n..] == s
  {
    if n > 0 {
      assert (Spaces(n) + s)[1..] == Spaces(n - 1) + s;
      LeadingSpacesOf(n - 1, s);
    }
  }

  lemma {:induction false} ScanEscape(c: char, rest: string)
    requires ScanRaw(rest).Some?
    ensures ScanRaw(EscapeChar(c) + rest) == Some((EscapeChar(c) + ScanRaw(rest).value.0, ScanRaw(rest).value.1))
  {
    var e := EscapeChar(c);
    var s := e + rest;
    if e[0] != '\\' {
      assert s[1..] == rest && s[..1] == e;
    } else if |e| == 2 {
      assert s[2..] == rest && s[..2] == e;
    } else {
      ScanUnicode(e, rest);
    }
  }

  lemma {:induction false} ScanPlain(c: char, rest: string)
    requires ScanRaw(rest).Some? && c != '\"' && c != '\\'
    ensures ScanRaw([c] + rest) == Some(([c] + ScanRaw(rest).value.0, ScanRaw(rest).value.1))
  {
    var s := [c] + rest;
    assert s[1..] == rest && s[..1] == [c];
  }

  lemma {:induction false} ScanUnicode(e: string, rest: string)
    requires |e| == 6 && e[0] == '\\' && e[1] == 'u' && ScanRaw(rest).Some?
    requires forall i :: 2 <= i < 6 ==> e[i] != '\"' && e[i] != '\\'
    ensures ScanRaw(e + rest) == Some((e + ScanRaw(rest).value.0, ScanRaw(rest).value.1))
  {
    var raw := ScanRaw(rest).value.0;
    ScanPlain(e[5], rest);
    ScanPlain(e[4], [e[5]] + rest);
    ScanPlain(e[3], [e[4]] + ([e[5]] + rest));
    ScanPlain(e[2], [e[3]] + ([e[4]] + ([e[5]] + rest)));
    var tail := [e[2]] + ([e[3]] + ([e[4]] + ([e[5]] + rest)));
    var s := e + rest;
    assert s[2..] == tail;
    assert s[..2] == e[..2];
    assert e[..2] + ([e[2]] + ([e[3]] + ([e[4]] + ([e[5]] + raw)))) == e + raw;
  }

  lemma {:induction false} ScanQuoted(s: string, rest: string)
    ensures ScanRaw(Escape(s) + ("\"" + rest)) == Some((Escape(s), rest))
  {
    if s == "" {
      assert Escape(s) + ("\"" + rest) == "\"" + rest;
      assert ("\"" + rest)[1..] == rest;
    } else {
      ScanQuoted(s[1..], rest);
      ScanEscape(s[0], Escape(s[1..]) + ("\"" + rest));
      Assoc(EscapeChar(s[0]), Escape(s[1..]), "\"" + rest);
    }
  }

  lemma {:induction false} SpacesAppend(n: nat, m: nat)
    ensures Spaces(n) + Spaces(m) == Spaces(n + m)
  {
  }

  lemma {:induction false} GlueLabel(n: nat, p: nat, esc: string, tail: string)
    ensures Spaces(n) + Spaces(p) + ("\"" + esc + "\"") + ": " + tail
         == Spaces(n + p) + ("\"" + (esc + ("\"" + (": " + tail))))
  {
    SpacesAppend(n, p);
  }

  lemma {:induction false} MatchLead(lead: nat, raw: string, body: string, rest: string)
    requires ScanRaw(body) == Some((raw, rest)) && rest != "" && rest[0] == ':'
    ensures MatchKey(Spaces(lead) + ("\"" + body)) == (if lead == 0 then None else Some(KeyLine(lead, raw)))
  {
    LeadingSpacesOf(lead, "\"" + body);
    assert ("\"" + body)[1..] == body;
    assert TrimStart(rest) == rest;
  }

  lemma {:induction false} KeyLinesOne(line: string)
    ensures KeyLines([line]) == (match MatchKey(line) case None => [] case Some(k) => [k])
  {
    assert [line][1..] == [];
  }

  lemma {:induction false} LabelText(key: string, depth: nat, shape: MapShape, widest: nat, tail: string)
    ensures Label(key, depth, shape, widest) + tail
         == Spaces(LeadFor(key, depth, shape, widest)) + ("\"" + (Escape(key) + ("\"" + (": " + tail))))
  {
    GlueLabel(IndentOf(shape) * depth, Padding(key, widest), Escape(key), tail);
  }

  lemma {:induction false} MatchLabel(key: string, depth: nat, shape: MapShape, widest: nat, tail: string)
    ensures KeyLines([Label(key, depth, shape, widest) + tail]) == OwnKeyLine(key, depth, shape, widest)
  {
    var lead, esc, rest := LeadFor(key, depth, shape, widest), Escape(key), ": " + tail;
    LabelText(key, depth, shape, widest, tail);
    ScanQuoted(key, rest);
    MatchLead(lead, esc, esc + ("\"" + rest), rest);
    KeyLinesOne(Label(key, depth, shape, widest) + tail);
  }

  lemma {:induction false} MatchClosing(n: nat, tail: string)
    ensures KeyLines([Spaces(n) + ("}" + tail)]) == []
  {
    LeadingSpacesOf(n, "}" + tail);
  }

  lemma {:induction false} KeyLinesOfLast(lines: seq<string>, last: string)
    ensures KeyLines(lines + [last]) == KeyLines(lines) + KeyLines([last])
  {
    KeyLinesAppend(lines, [last]);
  }

  /** The key lines of one entry's block; a comma after it makes no difference. */
  lemma {:induction false} BlockKeyLines(m: Member, depth: nat, shape: MapShape, widest: nat)
    requires Printable(m.value)
    ensures var own := OwnKeyLine(m.key, depth, shape, widest);
            var inner := match m.value
              case Obj(ms) => KeyLinesOf(ms, depth + 1, shape, Widest(ms, shape))
              case _ => [];
            var block := Block(m, depth, shape, widest);
            KeyLines(block) == own + inner && KeyLines(AddComma(block)) == own + inner
    decreases m, 0
  {
    var start, block := Label(m.key, depth, shape, widest), Block(m, depth, shape, widest);
    if m.value.Obj? && m.value.members != [] {
      var ms := m.value.members;
      var lines := CommaJoin(ObjectBlocks(ms, depth + 1, shape));
      BlocksKeyLines(ms, depth + 1, shape, Widest(ms, shape));
      BracedKeyLines(start, lines, IndentOf(shape) * depth, m.key, depth, shape, widest);
    } else {
      var text := if m.value.Obj? then "{}" else InlineValue(m.value);
      MatchLabel(m.key, depth, shape, widest, text);
      MatchLabel(m.key, depth, shape, widest, text + ",");
      assert start + text + "," == start + (text + ",");
      assert AddComma(block) == [start + text + ","];
    }
  }

  lemma {:induction false} BracedKeyLines(
      start: string, lines: seq<string>, n: nat, key: string, depth: nat, shape: MapShape, widest: nat)
    requires start == Label(key, depth, shape, widest)
    ensures var own := OwnKeyLine(key, depth, shape, widest);
            var block := [start + "{"] + lines + [Spaces(n) + "}"];
            KeyLines(block) == own + KeyLines(lines) && KeyLines(AddComma(block)) == own + KeyLines(lines)
  {
    var block := [start + "{"] + lines + [Spaces(n) + "}"];
    MatchLabel(key, depth, shape, widest, "{");
    KeyLinesAppend([start + "{"], lines);
    MatchClosing(n, "");
    MatchClosing(n, ",");
    assert Spaces(n) + "}" == Spaces(n) + ("}" + "");
    assert Spaces(n) + "}" + "," == Spaces(n) + ("}" + ",");
    KeyLinesOfLast([start + "{"] + lines, Spaces(n) + "}");
    KeyLinesOfLast([start + "{"] + lines, Spaces(n) + "}" + ",");
    assert AddComma(block) == [start + "{"] + lines + [Spaces(n) + "}" + ","];
  }

  lemma {:induction false} BlocksKeyLines(ms: seq<Member>, depth: nat, shape: MapShape, widest: nat)
    requires PrintableAll(ms)
    ensures KeyLines(CommaJoin(Blocks(ms, depth, shape, widest))) == KeyLinesOf(ms, depth, shape, widest)
    decreases ms, 0
  {
    if ms != [] {
      var block, rest := Block(ms[0], depth, shape, widest), Blocks(ms[1..], depth, shape, widest);
      BlockKeyLines(ms[0], depth, shape, widest);
      BlocksKeyLines(ms[1..], depth, shape, widest);
      assert Blocks(ms, depth, shape, widest) == [block] + rest;
      assert ([block] + rest)[1..] == rest;
      if |ms| == 1 {
        assert CommaJoin([block] + rest) == block + [];
        KeyLinesAppend(block, []);
      } else {
        KeyLinesAppend(AddComma(block), CommaJoin(rest));
      }
    }
  }

  /** The key lines `detectLayout` finds in a rendered file. */
  lemma {:induction false} SerialisedKeyLines(ms: seq<Member>, shape: MapShape)
    requires ms != [] && PrintableAll(ms)
    ensures KeyLines(Split('\n', Serialise(ms, shape))) == KeyLinesOf(ms, 1, shape, Widest(ms, shape))
  {
    SplitSerialised(ms, shape);
    var body := CommaJoin(ObjectBlocks(ms, 1, shape));
    BlocksKeyLines(ms, 1, shape, Widest(ms, shape));
    KeyLinesAppend(["{"], body);
    KeyLinesOfLast(["{"] + body, "}");
    KeyLinesOfLast(Lines(ms, shape), "");
    assert KeyLines(["{"]) == [] && KeyLines(["}"]) == [] && KeyLines([""]) == [];
  }
}
