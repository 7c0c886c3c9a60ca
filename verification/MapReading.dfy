/** Reading the characters of a rendered file gives back the document it was rendered from. */
module MapReading {
  import opened JsStrings
  import opened JsonText
  import opened JsObjects
  import opened MapFile

  // ---- the text of a block

  function BodyText(ms: seq<Member>, depth: nat, shape: MapShape, widest: nat): string
    requires PrintableAll(ms)
  {
    Join("\n", CommaJoin(Blocks(ms, depth, shape, widest)))
  }

  /** A value as text, its own lines joined. */
  function ValueText(v: Json, depth: nat, shape: MapShape): string
    requires Printable(v)
  {
    if v.Obj? then
      if v.members == [] then "{}"
      else "{\n" + BodyText(v.members, depth + 1, shape, Widest(v.members, shape)) + "\n" + Base(shape, depth) + "}"
    else InlineValue(v)
  }

  lemma {:induction false} CommaJoinNonEmpty(blocks: seq<seq<string>>)
    requires blocks != [] && forall i :: 0 <= i < |blocks| ==> blocks[i] != []
    ensures CommaJoin(blocks) != []
  {
  }

  lemma {:induction false} JoinAddComma(block: seq<string>)
    requires block != []
    ensures Join("\n", AddComma(block)) == Join("\n", block) + ","
  {
    if |block| > 1 {
      var init, last := block[..|block| - 1], block[|block| - 1];
      assert block == init + [last];
      JoinAppend("\n", init, [last]);
      JoinAppend("\n", init, [last + ","]);
      var i := Join("\n", init);
      assert i + "\n" + last + "," == i + "\n" + (last + ",");
    }
  }

  lemma {:induction false} JoinBraced(open: string, lines: seq<string>, close: string)
    requires lines != []
    ensures Join("\n", [open] + lines + [close]) == open + "\n" + (Join("\n", lines) + "\n" + close)
  {
    assert [open] + lines + [close] == [open] + (lines + [close]);
    JoinAppend("\n", [open], lines + [close]);
    JoinAppend("\n", lines, [close]);
  }

  lemma {:induction false} GlueBraces(l: string, b: string, base: string)
    ensures l + "{" + "\n" + (b + "\n" + (base + "}")) == l + ("{\n" + b + "\n" + base + "}")
  {
  }

  lemma {:induction false} BlockText(m: Member, depth: nat, shape: MapShape, widest: nat)
    requires Printable(m.value)
    ensures Join("\n", Block(m, depth, shape, widest))
         == Label(m.key, depth, shape, widest) + ValueText(m.value, depth, shape)
  {
    if m.value.Obj? && m.value.members != [] {
      var ms := m.value.members;
      var lines := CommaJoin(ObjectBlocks(ms, depth + 1, shape));
      CommaJoinNonEmpty(ObjectBlocks(ms, depth + 1, shape));
      var start, base := Label(m.key, depth, shape, widest), Base(shape, depth);
      JoinBraced(start + "{", lines, base + "}");
      GlueBraces(start, Join("\n", lines), base);
    }
  }

  /** One member as text: its key and its value. */
  function MemberText(m: Member, depth: nat, shape: MapShape, widest: nat): string
    requires Printable(m.value)
  {
    Label(m.key, depth, shape, widest) + ValueText(m.value, depth, shape)
  }

  lemma {:induction false} BodyTextOne(ms: seq<Member>, depth: nat, shape: MapShape, widest: nat)
    requires |ms| == 1 && PrintableAll(ms)
    ensures BodyText(ms, depth, shape, widest) == MemberText(ms[0], depth, shape, widest)
  {
    var block := Block(ms[0], depth, shape, widest);
    assert Blocks(ms, depth, shape, widest) == [block];
    assert CommaJoin([block]) == block;
    BlockText(ms[0], depth, shape, widest);
  }

  lemma {:induction false} JoinCommaJoin(block: seq<string>, rest: seq<seq<string>>)
    requires block != [] && rest != [] && forall i :: 0 <= i < |rest| ==> rest[i] != []
    ensures Join("\n", CommaJoin([block] + rest))
         == Join("\n", block) + "," + "\n" + Join("\n", CommaJoin(rest))
  {
    assert ([block] + rest)[1..] == rest;
    CommaJoinNonEmpty(rest);
    JoinAppend("\n", AddComma(block), CommaJoin(rest));
    JoinAddComma(block);
  }

  lemma {:induction false} BodyTextMore(ms: seq<Member>, depth: nat, shape: MapShape, widest: nat)
    requires |ms| > 1 && PrintableAll(ms)
    ensures BodyText(ms, depth, shape, widest)
         == MemberText(ms[0], depth, shape, widest) + "," + "\n" + BodyText(ms[1..], depth, shape, widest)
  {
    BlockText(ms[0], depth, shape, widest);
    JoinCommaJoin(Block(ms[0], depth, shape, widest), Blocks(ms[1..], depth, shape, widest));
  }

  lemma {:induction false} GlueOne(l: string, v: string, tail: string)
    ensures l + v + tail == l + (v + tail)
  {
  }

  lemma {:induction false} GlueMore(l: string, v: string, b: string, tail: string)
    ensures l + v + "," + "\n" + b + tail == l + (v + ("," + ("\n" + (b + tail))))
  {
  }

  // ---- reading it

  lemma {:induction false} GlueKey(a: string, b: string, q: string, rest: string)
    ensures a + b + q + ": " + rest == a + (b + (q + (": " + rest)))
  {
  }

  lemma {:induction false} ReadQuotedKey(key: string, rest: string)
    ensures ReadKey(Quoted(key) + (": " + rest)) == Parsed(key, " " + rest)
  {
    QuotedTail(key, ": " + rest);
    ReadQuoted(key, ": " + rest);
    ReadKeyOfString(Quoted(key) + (": " + rest), key, rest);
  }

  lemma {:induction false} QuotedTail(s: string, rest: string)
    ensures (Quoted(s) + rest)[0] == '\"' && (Quoted(s) + rest)[1..] == Escape(s) + "\"" + rest
  {
  }

  lemma {:induction false} ReadKeyOfString(s: string, key: string, rest: string)
    requires s != "" && s[0] == '\"' && ReadString(s[1..]) == Parsed(key, ": " + rest)
    ensures ReadKey(s) == Parsed(key, " " + rest)
  {
    assert (": " + rest)[1..] == " " + rest;
  }

  lemma {:induction false} ReadKeyAfterSpaces(n: nat, s: string)
    ensures ReadKey(Spaces(n) + s) == ReadKey(s)
  {
    SkipSpaces(n, s);
  }

  lemma {:induction false} ReadKeyLabel(key: string, depth: nat, shape: MapShape, widest: nat, rest: string)
    ensures ReadKey(Label(key, depth, shape, widest) + rest) == Parsed(key, " " + rest)
  {
    var n, p := IndentOf(shape) * depth, Padding(key, widest);
    var quoted := Quoted(key) + (": " + rest);
    GlueKey(Spaces(n), Spaces(p), Quoted(key), rest);
    ReadQuotedKey(key, rest);
    ReadKeyAfterSpaces(p, quoted);
    ReadKeyAfterSpaces(n, Spaces(p) + quoted);
  }

  lemma {:induction false} ReadMembersAfterNewline(s: string)
    ensures ReadMembers("\n" + s) == ReadMembers(s)
  {
    SkipNewline(s);
  }

  lemma {:induction false} ReadLastMember(s: string, key: string, text: string, value: Json, rest: string)
    requires ReadKey(s) == Parsed(key, " " + text)
    requires ReadValue(text).Parsed? && ReadValue(text).value == value
    requires var t := SkipWhite(ReadValue(text).rest); t != "" && t[0] == '}' && t[1..] == rest
    ensures ReadMembers(s) == Parsed([Member(key, value)], rest)
  {
    ReadValueAfterSpace(text);
  }

  lemma {:induction false} ReadNextMember(s: string, key: string, text: string, value: Json, more: string,
                       members: seq<Member>, rest: string)
    requires ReadKey(s) == Parsed(key, " " + text)
    requires ReadValue(text) == Parsed(value, "," + more)
    requires ReadMembers(more) == Parsed(members, rest)
    ensures ReadMembers(s) == Parsed([Member(key, value)] + members, rest)
  {
    ReadValueAfterSpace(text);
    assert ("," + more)[1..] == more;
  }

  lemma {:induction false} ReadObject(inner: string, members: seq<Member>, rest: string)
    requires ReadMembers(inner) == Parsed(members, rest)
    requires var u := SkipWhite(inner); u != "" && u[0] != '}'
    ensures ReadValue("{" + inner) == Parsed(Obj(members), rest)
  {
    assert ("{" + inner)[1..] == inner;
  }

  lemma {:induction false} ReadEmptyObject(rest: string)
    ensures ReadValue("{}" + rest) == Parsed(Obj([]), rest)
  {
    assert ("{}" + rest)[1..] == "}" + rest;
    assert ("}" + rest)[1..] == rest;
  }

  /** What an object's body is followed by: its closing brace on its own line. */
  function Closing(n: nat, rest: string): string {
    "\n" + (Spaces(n) + ("}" + rest))
  }

  lemma {:induction false} SkipClosing(n: nat, rest: string)
    ensures var t := SkipWhite(Closing(n, rest)); t != "" && t[0] == '}' && t[1..] == rest
  {
    SkipNewline(Spaces(n) + ("}" + rest));
    SkipSpaces(n, "}" + rest);
    assert SkipWhite("}" + rest) == "}" + rest;
    assert ("}" + rest)[1..] == rest;
  }

  lemma {:induction false} LabelStartsWithQuote(key: string, depth: nat, shape: MapShape, widest: nat, rest: string)
    ensures var u := SkipWhite(Label(key, depth, shape, widest) + rest); u != "" && u[0] == '\"'
  {
    ReadKeyLabel(key, depth, shape, widest, rest);
    assert SkipWhite(Label(key, depth, shape, widest) + rest) != "";
  }

  lemma {:induction false} BodyStartsWithKey(ms: seq<Member>, depth: nat, shape: MapShape, widest: nat, rest: string)
    requires ms != [] && PrintableAll(ms)
    ensures var u := SkipWhite(BodyText(ms, depth, shape, widest) + rest); u != "" && u[0] == '\"'
  {
    var start, v := Label(ms[0].key, depth, shape, widest), ValueText(ms[0].value, depth, shape);
    if |ms| == 1 {
      BodyTextOne(ms, depth, shape, widest);
      GlueOne(start, v, rest);
      LabelStartsWithQuote(ms[0].key, depth, shape, widest, v + rest);
    } else {
      var b := BodyText(ms[1..], depth, shape, widest);
      BodyTextMore(ms, depth, shape, widest);
      GlueMore(start, v, b, rest);
      LabelStartsWithQuote(ms[0].key, depth, shape, widest, v + ("," + ("\n" + (b + rest))));
    }
  }

  lemma {:induction false} GlueObject(body: string, n: nat, rest: string)
    ensures "{\n" + body + "\n" + Spaces(n) + "}" + rest == "{" + ("\n" + (body + Closing(n, rest)))
  {
    var s := Spaces(n);
    assert "{\n" + body + "\n" + s + "}" + rest == "{" + ("\n" + (body + ("\n" + (s + ("}" + rest)))));
  }

  lemma {:induction false} ReadValueText(v: Json, depth: nat, shape: MapShape, rest: string)
    requires Printable(v)
    ensures ReadValue(ValueText(v, depth, shape) + rest) == Parsed(v, rest)
    decreases v, 1
  {
    match v
    case Str(text) => ReadStringValue(text, rest);
    case Arr(items) => ReadArray(Texts(items), rest);
    case Obj(ms) =>
      if ms == [] {
        ReadEmptyObject(rest);
      } else {
        ReadFilledObject(ms, depth, shape, rest);
      }
  }

  lemma {:induction false} ReadFilledObject(ms: seq<Member>, depth: nat, shape: MapShape, rest: string)
    requires ms != [] && PrintableAll(ms)
    ensures ReadValue(ValueText(Obj(ms), depth, shape) + rest) == Parsed(Obj(ms), rest)
    decreases ms, 1
  {
    ReadBody(ms, depth + 1, shape, Widest(ms, shape), IndentOf(shape) * depth, rest);
    ReadAroundBody(ms, depth, shape, rest);
  }

  lemma {:induction false} ReadAroundBody(ms: seq<Member>, depth: nat, shape: MapShape, rest: string)
    requires ms != [] && PrintableAll(ms)
    requires ReadMembers(BodyText(ms, depth + 1, shape, Widest(ms, shape)) + Closing(IndentOf(shape) * depth, rest))
          == Parsed(ms, rest)
    ensures ReadValue(ValueText(Obj(ms), depth, shape) + rest) == Parsed(Obj(ms), rest)
  {
    var widest, n := Widest(ms, shape), IndentOf(shape) * depth;
    var inner := BodyText(ms, depth + 1, shape, widest) + Closing(n, rest);
    BodyStartsWithKey(ms, depth + 1, shape, widest, Closing(n, rest));
    ReadBraced(inner, ms, rest);
    assert ValueText(Obj(ms), depth, shape) + rest == "{" + ("\n" + inner) by {
      FilledObjectText(ms, depth, shape, rest);
    }
  }

  lemma {:induction false} FilledObjectText(ms: seq<Member>, depth: nat, shape: MapShape, rest: string)
    requires ms != [] && PrintableAll(ms)
    ensures ValueText(Obj(ms), depth, shape) + rest
         == "{" + ("\n" + (BodyText(ms, depth + 1, shape, Widest(ms, shape)) + Closing(IndentOf(shape) * depth, rest)))
  {
    GlueObject(BodyText(ms, depth + 1, shape, Widest(ms, shape)), IndentOf(shape) * depth, rest);
  }

  /** An object whose members start on the line after its brace. */
  lemma {:induction false} ReadBraced(inner: string, ms: seq<Member>, rest: string)
    requires ReadMembers(inner) == Parsed(ms, rest)
    requires var u := SkipWhite(inner); u != "" && u[0] != '}'
    ensures ReadValue("{" + ("\n" + inner)) == Parsed(Obj(ms), rest)
  {
    ReadMembersAfterNewline(inner);
    SkipNewline(inner);
    ReadObject("\n" + inner, ms, rest);
  }

  lemma {:induction false} ReadBody(ms: seq<Member>, depth: nat, shape: MapShape, widest: nat, n: nat, rest: string)
    requires ms != [] && PrintableAll(ms)
    ensures ReadMembers(BodyText(ms, depth, shape, widest) + Closing(n, rest)) == Parsed(ms, rest)
    decreases ms, 0
  {
    var m, close := ms[0], Closing(n, rest);
    if |ms| == 1 {
      ReadBodyOne(ms, depth, shape, widest, n, rest);
    } else {
      var tail := BodyText(ms[1..], depth, shape, widest) + close;
      assert ReadMembers(tail) == Parsed(ms[1..], rest) by {
        ReadBody(ms[1..], depth, shape, widest, n, rest);
      }
      ReadValueText(m.value, depth, shape, "," + ("\n" + tail));
      ReadMoreMembers(m, depth, shape, widest, tail, ms[1..], rest);
      BodyTextGlued(ms, depth, shape, widest, close);
      assert ms == [m] + ms[1..];
    }
  }

  lemma {:induction false} ReadBodyOne(ms: seq<Member>, depth: nat, shape: MapShape, widest: nat, n: nat, rest: string)
    requires |ms| == 1 && PrintableAll(ms)
    ensures ReadMembers(BodyText(ms, depth, shape, widest) + Closing(n, rest)) == Parsed(ms, rest)
    decreases ms[0], 2
  {
    var m, close := ms[0], Closing(n, rest);
    var start, v := Label(m.key, depth, shape, widest), ValueText(m.value, depth, shape);
    BodyTextOne(ms, depth, shape, widest);
    GlueOne(start, v, close);
    ReadKeyLabel(m.key, depth, shape, widest, v + close);
    ReadValueText(m.value, depth, shape, close);
    SkipClosing(n, rest);
    ReadLastMember(start + (v + close), m.key, v + close, m.value, rest);
    assert ms == [Member(m.key, m.value)];
  }

  lemma {:induction false} BodyTextGlued(ms: seq<Member>, depth: nat, shape: MapShape, widest: nat, tail: string)
    requires |ms| > 1 && PrintableAll(ms)
    ensures BodyText(ms, depth, shape, widest) + tail
         == Label(ms[0].key, depth, shape, widest)
          + (ValueText(ms[0].value, depth, shape) + ("," + ("\n" + (BodyText(ms[1..], depth, shape, widest) + tail))))
  {
    BodyTextMore(ms, depth, shape, widest);
    GlueMore(Label(ms[0].key, depth, shape, widest), ValueText(ms[0].value, depth, shape),
             BodyText(ms[1..], depth, shape, widest), tail);
  }

  lemma {:induction false} ReadMoreMembers(
      m: Member, depth: nat, shape: MapShape, widest: nat, tail: string, members: seq<Member>, rest: string)
    requires Printable(m.value)
    requires ReadMembers(tail) == Parsed(members, rest)
    requires ReadValue(ValueText(m.value, depth, shape) + ("," + ("\n" + tail))) == Parsed(m.value, "," + ("\n" + tail))
    ensures ReadMembers(Label(m.key, depth, shape, widest) + (ValueText(m.value, depth, shape) + ("," + ("\n" + tail))))
         == Parsed([m] + members, rest)
  {
    var start, text := Label(m.key, depth, shape, widest), ValueText(m.value, depth, shape) + ("," + ("\n" + tail));
    ReadMembersAfterNewline(tail);
    ReadKeyLabel(m.key, depth, shape, widest, text);
    ReadNextMember(start + text, m.key, text, m.value, "\n" + tail, members, rest);
  }

  lemma {:induction false} SerialisedText(ms: seq<Member>, shape: MapShape)
    requires ms != [] && PrintableAll(ms)
    ensures Serialise(ms, shape)
         == "{" + ("\n" + (BodyText(ms, 1, shape, Widest(ms, shape)) + Closing(0, "\n")))
  {
    var lines := CommaJoin(ObjectBlocks(ms, 1, shape));
    CommaJoinNonEmpty(ObjectBlocks(ms, 1, shape));
    JoinBraced("{", lines, "}");
    var body := BodyText(ms, 1, shape, Widest(ms, shape));
    GlueObject(body, 0, "\n");
    assert "{" + "\n" + (body + "\n" + "}") + "\n" == "{\n" + body + "\n" + "" + "}" + "\n";
  }

  /** The text of any printable document, read back member by member: nothing lost, added or reordered. */
  lemma {:induction false} ReadSerialised(ms: seq<Member>, shape: MapShape)
    requires PrintableAll(ms)
    ensures ReadText(Serialise(ms, shape)) == Some(Obj(ms))
  {
    if ms == [] {
      ReadEmptyObject("\n");
      assert "{}" + "\n" == "{}\n";
    } else {
      var widest := Widest(ms, shape);
      var text := BodyText(ms, 1, shape, widest) + Closing(0, "\n");
      SerialisedText(ms, shape);
      ReadBody(ms, 1, shape, widest, 0, "\n");
      BodyStartsWithKey(ms, 1, shape, widest, Closing(0, "\n"));
      ReadBraced(text, ms, "\n");
    }
    assert SkipWhite("\n") == "";
  }
}
