/** Reading a map file's shape out of its document and its two white-space conventions out of its text. */
module MapLayout {
  import opened JsStrings
  import opened JsonText
  import opened JsObjects
  import opened Sorting
  import opened MapFile

  // ---- shape

  function CountArrays(ms: seq<Member>): nat {
    if ms == [] then 0 else (if ms[0].value.Arr? then 1 else 0) + CountArrays(ms[1..])
  }

  function CountScalars(ms: seq<Member>): nat {
    if ms == [] then 0 else (if ms[0].value.Str? then 1 else 0) + CountScalars(ms[1..])
  }

  /** The entries that vote on the direction: a namespace's own, or the entry itself. */
  function Votes(m: Member): seq<Member> {
    if m.value.Obj? then m.value.members else [m]
  }

  function AllVotes(ms: seq<Member>): seq<Member> {
    Flatten(Map(Votes, ms))
  }

  predicate HasNamespace(ms: seq<Member>) {
    exists i :: 0 <= i < |ms| && ms[i].value.Obj?
  }

  /** The shape a document votes for; None when nothing in it looks like a map. */
  function ShapeOf(document: Json): Option<MapShape> {
    if !document.Obj? then None
    else
      var votes := AllVotes(document.members);
      if !HasNamespace(document.members) && CountArrays(votes) == 0 && CountScalars(votes) == 0 then None
      else
        var inner := if CountArrays(votes) > CountScalars(votes) then Inverted else Forward;
        Some(MapShape(HasNamespace(document.members), inner, None, false))
  }

  function IsArray(): Member -> bool {
    (m: Member) => m.value.Arr?
  }

  function IsScalar(): Member -> bool {
    (m: Member) => m.value.Str?
  }

  lemma {:induction false} CountsAre(ms: seq<Member>)
    ensures CountArrays(ms) == |Filter(IsArray(), ms)| && CountScalars(ms) == |Filter(IsScalar(), ms)|
  {
    if ms != [] {
      CountsAre(ms[1..]);
    }
  }

  /**
   * The majority decides the direction, a tie is forward; one namespace makes a file nested; no
   * vote at all is no map.
   */
  lemma {:induction false} ShapeByMajority(ms: seq<Member>)
    ensures var shape, votes := ShapeOf(Obj(ms)), AllVotes(ms);
            var arrays, scalars := |Filter(IsArray(), votes)|, |Filter(IsScalar(), votes)|;
            var nested := exists m :: m in ms && m.value.Obj?;
            && (shape == None <==> !nested && arrays == 0 && scalars == 0)
            && (shape.Some? ==>
                  && (shape.value.nested <==> nested)
                  && (shape.value.inner == Inverted <==> scalars < arrays)
                  && shape.value.indent == None && !shape.value.align)
  {
    CountsAre(AllVotes(ms));
    if m :| m in ms && m.value.Obj? {
      var i :| 0 <= i < |ms| && ms[i] == m;
    }
    if HasNamespace(ms) {
      var i :| 0 <= i < |ms| && ms[i].value.Obj?;
      assert ms[i] in ms;
    }
  }

  lemma {:induction false} CountsAppend(a: seq<Member>, b: seq<Member>)
    ensures CountArrays(a + b) == CountArrays(a) + CountArrays(b)
    ensures CountScalars(a + b) == CountScalars(a) + CountScalars(b)
  {
    if a == [] {
      assert a + b == b;
    } else {
      assert (a + b)[1..] == a[1..] + b;
      CountsAppend(a[1..], b);
    }
  }

  lemma {:induction false} FlattenAppend<T>(a: seq<seq<T>>, b: seq<seq<T>>)
    ensures Flatten(a + b) == Flatten(a) + Flatten(b)
  {
    if a == [] {
      assert a + b == b;
    } else {
      assert (a + b)[1..] == a[1..] + b;
      FlattenAppend(a[1..], b);
    }
  }

  /** One more entry adds its own votes. */
  lemma {:induction false} AllVotesStep(ms: seq<Member>, i: nat)
    requires i < |ms|
    ensures AllVotes(ms[..i + 1]) == AllVotes(ms[..i]) + Votes(ms[i])
  {
    assert ms[..i + 1] == ms[..i] + [ms[i]];
    MapAppend(Votes, ms[..i], [ms[i]]);
    FlattenAppend(Map(Votes, ms[..i]), [Votes(ms[i])]);
    assert Map(Votes, [ms[i]]) == [Votes(ms[i])];
    assert Flatten([Votes(ms[i])]) == Votes(ms[i]) + [];
  }

  /** `tallyFlat`. */
  method TallyFlat(entries: seq<Member>) returns (forward: nat, inverted: nat)
    ensures forward == CountScalars(entries) && inverted == CountArrays(entries)
  {
    forward, inverted := 0, 0;
    for i := 0 to |entries|
      invariant forward == CountScalars(entries[..i]) && inverted == CountArrays(entries[..i])
    {
      assert entries[..i + 1] == entries[..i] + [entries[i]];
      CountsAppend(entries[..i], [entries[i]]);
      if entries[i].value.Arr? {
        inverted := inverted + 1;
      } else if entries[i].value.Str? {
        forward := forward + 1;
      }
    }
    assert entries[..|entries|] == entries;
  }

  /** `detectMapShape`: counters over every entry, resolved by majority. */
  method DetectMapShape(document: Json) returns (shape: Option<MapShape>)
    ensures shape == ShapeOf(document)
  {
    if !document.Obj? {
      return None;
    }
    var ms := document.members;
    var nested, forward, inverted := 0, 0, 0;
    for i := 0 to |ms|
      invariant forward == CountScalars(AllVotes(ms[..i])) && inverted == CountArrays(AllVotes(ms[..i]))
      invariant nested > 0 <==> HasNamespace(ms[..i])
      invariant nested >= 0
    {
      AllVotesStep(ms, i);
      CountsAppend(AllVotes(ms[..i]), Votes(ms[i]));
      assert forall k :: 0 <= k < i ==> ms[..i + 1][k] == ms[..i][k];
      assert ms[..i + 1][i] == ms[i];
      if ms[i].value.Obj? {
        nested := nested + 1;
      }
      var f, a := TallyFlat(Votes(ms[i]));
      forward, inverted := forward + f, inverted + a;
    }
    assert ms[..|ms|] == ms;
    if nested == 0 && forward == 0 && inverted == 0 {
      return None;
    }
    shape := Some(MapShape(nested > 0, if inverted > forward then Inverted else Forward, None, false));
  }

  // ---- layout

  /** A key line: its leading spaces, and the key between its quotes as written. */
  datatype KeyLine = KeyLine(lead: nat, raw: string)

  predicate IsLineTerminator(c: char) {
    c as int == 10 || c as int == 13 || c as int == 0x2028 || c as int == 0x2029
  }

  /** The four characters a dot does not match. */
  lemma {:induction false} LineTerminators(c: char)
    ensures IsLineTerminator(c) <==> c in {'\n', '\r', '\U{2028}', '\U{2029}'}
  {
  }

  /** What `((?:[^"\\]|\\.)*)"` matches: the raw text up to the closing quote, and what follows it. */
  function ScanRaw(s: string): Option<(string, string)> {
    if s == "" then None
    else if s[0] == '\"' then Some(("", s[1..]))
    else if s[0] == '\\' then
      if |s| < 2 || IsLineTerminator(s[1]) then None
      else
        match ScanRaw(s[2..])
        case None => None
        case Some((raw, rest)) => Some((s[..2] + raw, rest))
    else
      match ScanRaw(s[1..])
      case None => None
      case Some((raw, rest)) => Some((s[..1] + raw, rest))
  }

  function LeadingSpaces(s: string): (n: nat)
    ensures n <= |s|
  {
    if s != "" && s[0] == ' ' then 1 + LeadingSpaces(s[1..]) else 0
  }

  /** The regular expression of `detectLayout` on one line. */
  function MatchKey(line: string): Option<KeyLine> {
    var lead := LeadingSpaces(line);
    var s := line[lead..];
    if lead == 0 || s == "" || s[0] != '\"' then None
    else
      match ScanRaw(s[1..])
      case None => None
      case Some((raw, rest)) =>
        var t := TrimStart(rest);
        if t != "" && t[0] == ':' then Some(KeyLine(lead, raw)) else None
  }

  function KeyLines(lines: seq<string>): seq<KeyLine> {
    if lines == [] then []
    else
      match MatchKey(lines[0])
      case None => KeyLines(lines[1..])
      case Some(k) => [k] + KeyLines(lines[1..])
  }

  function LeadOf(k: KeyLine): nat { k.lead }

  function EndOf(k: KeyLine): nat { k.lead + Length(k.raw) }

  function Minimum(values: seq<nat>): (m: nat)
    requires values != []
    ensures m in values
    ensures forall v :: v in values ==> m <= v
  {
    if |values| == 1 then values[0]
    else
      assert forall v :: v in values ==> v == values[0] || v in values[1..];
      var m := Minimum(values[1..]);
      if values[0] <= m then values[0] else m
  }

  predicate AllEqual(values: seq<nat>) {
    forall i :: 0 <= i < |values| ==> values[i] == values[0]
  }

  function Occurrences(values: seq<nat>, v: nat): nat {
    if values == [] then 0 else (if values[0] == v then 1 else 0) + Occurrences(values[1..], v)
  }

  lemma {:induction false} OccurrencesAppend(values: seq<nat>, x: nat, v: nat)
    ensures Occurrences(values + [x], v) == Occurrences(values, v) + if x == v then 1 else 0
  {
    if values == [] {
      assert values + [x] == [x];
    } else {
      assert (values + [x])[1..] == values[1..] + [x];
      OccurrencesAppend(values[1..], x, v);
    }
  }

  lemma {:induction false} OccursIffMember(values: seq<nat>, v: nat)
    ensures Occurrences(values, v) > 0 <==> v in values
  {
    if values != [] {
      assert v in values <==> v == values[0] || v in values[1..];
      OccursIffMember(values[1..], v);
    }
  }

  /** How often the most frequent value occurs. */
  function Dominant(values: seq<nat>): nat {
    DominantAmong(values, values)
  }

  function DominantAmong(candidates: seq<nat>, values: seq<nat>): nat {
    if candidates == [] then 0
    else
      var n, m := Occurrences(values, candidates[0]), DominantAmong(candidates[1..], values);
      if n >= m then n else m
  }

  lemma {:induction false} DominantBounds(candidates: seq<nat>, values: seq<nat>, i: nat)
    requires i < |candidates|
    ensures Occurrences(values, candidates[i]) <= DominantAmong(candidates, values)
  {
    if i > 0 {
      DominantBounds(candidates[1..], values, i - 1);
    }
  }

  lemma {:induction false} DominantIsReached(candidates: seq<nat>, values: seq<nat>) returns (i: nat)
    requires candidates != []
    ensures i < |candidates| && Occurrences(values, candidates[i]) == DominantAmong(candidates, values)
  {
    i := 0;
    if |candidates| > 1 && Occurrences(values, candidates[0]) < DominantAmong(candidates[1..], values) {
      var j := DominantIsReached(candidates[1..], values);
      i := j + 1;
    }
  }

  datatype Layout = Layout(indent: nat, align: bool)

  /** The layout the key lines of a file show. `dominant / count >= 0.98`, in whole numbers. */
  function LayoutOf(keys: seq<KeyLine>, nested: bool): Layout {
    if keys == [] then Layout(DEFAULT_INDENT, false)
    else
      var leads, ends := Map(LeadOf, keys), Map(EndOf, keys);
      var indent := Minimum(leads);
      if nested || AllEqual(leads) then Layout(indent, false)
      else Layout(indent, Dominant(ends) * 100 >= 98 * |keys|)
  }

  /** A file without key lines counts as indented by four. */
  lemma {:induction false} LayoutOfNoKeys(nested: bool)
    ensures LayoutOf([], nested) == Layout(4, false)
  {
  }

  lemma {:induction false} KeyLinesAppend(a: seq<string>, b: seq<string>)
    ensures KeyLines(a + b) == KeyLines(a) + KeyLines(b)
  {
    if a == [] {
      assert a + b == b;
    } else {
      assert (a + b)[1..] == a[1..] + b;
      KeyLinesAppend(a[1..], b);
    }
  }

  /** `countBy`. */
  method CountBy(values: seq<nat>) returns (counts: map<nat, nat>)
    ensures counts.Keys == set v | v in values
    ensures forall v :: v in counts ==> counts[v] == Occurrences(values, v)
  {
    counts := map[];
    for i := 0 to |values|
      invariant counts.Keys == set v | v in values[..i]
      invariant forall v :: v in counts ==> counts[v] == Occurrences(values[..i], v)
    {
      var seen, x := values[..i], values[i];
      assert values[..i + 1] == seen + [x];
      forall v ensures Occurrences(seen + [x], v) == Occurrences(seen, v) + if x == v then 1 else 0 {
        OccurrencesAppend(seen, x, v);
      }
      OccursIffMember(seen, x);
      var before := if x in counts then counts[x] else 0;
      counts := counts[x := before + 1];
    }
    assert values[..|values|] == values;
  }

  /** `Math.max(...counts.values())`, 0 for none. */
  method LargestCount(counts: map<nat, nat>) returns (n: nat)
    ensures forall v :: v in counts ==> counts[v] <= n
    ensures n > 0 ==> exists v :: v in counts && counts[v] == n
  {
    n := 0;
    var left := counts.Keys;
    while left != {}
      invariant left <= counts.Keys
      invariant forall v :: v in counts && v !in left ==> counts[v] <= n
      invariant n > 0 ==> exists v :: v in counts && counts[v] == n
      decreases left
    {
      var v :| v in left;
      if counts[v] > n {
        n := counts[v];
      }
      left := left - {v};
    }
  }

  /** The largest entry of the counts is how often the most frequent value occurs. */
  lemma {:induction false} LargestCountIsDominant(values: seq<nat>, counts: map<nat, nat>, n: nat)
    requires values != [] && counts.Keys == set v | v in values
    requires forall v :: v in counts ==> counts[v] == Occurrences(values, v) && counts[v] <= n
    requires n > 0 ==> exists v :: v in counts && counts[v] == n
    ensures n == Dominant(values)
  {
    var i := DominantIsReached(values, values);
    assert values[i] in counts;
    if n > 0 {
      var v :| v in counts && counts[v] == n;
      var j :| 0 <= j < |values| && values[j] == v;
      DominantBounds(values, values, j);
    }
  }

  /** `Math.min(...leads)`. */
  method SmallestLead(leads: seq<nat>) returns (indent: nat)
    requires leads != []
    ensures indent == Minimum(leads)
  {
    indent := leads[0];
    for i := 0 to |leads|
      invariant indent in leads
      invariant forall k :: 0 <= k < i ==> indent <= leads[k]
    {
      if leads[i] < indent {
        indent := leads[i];
      }
    }
    assert Minimum(leads) in leads;
  }

  /** The key lines among the lines of a text, in order. */
  method CollectKeyLines(lines: seq<string>) returns (keys: seq<KeyLine>)
    ensures keys == KeyLines(lines)
  {
    keys := [];
    for i := 0 to |lines|
      invariant keys == KeyLines(lines[..i])
    {
      assert lines[..i + 1] == lines[..i] + [lines[i]];
      KeyLinesAppend(lines[..i], [lines[i]]);
      var m := MatchKey(lines[i]);
      if m.Some? {
        keys := keys + [m.value];
      }
    }
    assert lines[..|lines|] == lines;
  }

  /** `detectLayout`: the smallest lead, and whether the keys end in one column. */
  method DetectLayout(text: string, nested: bool) returns (layout: Layout)
    ensures layout == LayoutOf(KeyLines(Split('\n', text)), nested)
  {
    var keys := CollectKeyLines(Split('\n', text));
    if keys == [] {
      return Layout(DEFAULT_INDENT, false);
    }
    var leads, ends := Map(LeadOf, keys), Map(EndOf, keys);
    var indent := SmallestLead(leads);
    if nested || AllEqual(leads) {
      return Layout(indent, false);
    }
    var counts := CountBy(ends);
    var dominant := LargestCount(counts);
    LargestCountIsDominant(ends, counts, dominant);
    layout := Layout(indent, dominant * 100 >= 98 * |ends|);
  }
}
