/** Rendering tracked rows as the text of a `manga_id_map.json`. */
module MapFile {
  import opened JsStrings
  import opened JsonText
  import opened JsObjects
  import opened Sorting

  datatype Row = Row(namespace: string, mangaId: string, mdMangaId: string)

  datatype Inner = Forward | Inverted

  datatype MapShape = MapShape(nested: bool, inner: Inner, indent: Option<nat>, align: bool)

  const DEFAULT_NAMESPACE := ""
  const DEFAULT_INDENT := 4
  const DEFAULT_SHAPE := MapShape(false, Inverted, None, false)

  // ---- orders

  /** `localeCompare` with the options of the source; only its sign matters. */
  type Collation = (string, string) -> int

  /** What is assumed of the collation: a total preorder that may tie different strings. */
  ghost predicate TotalPreorder(locale: Collation) {
    && (forall a, b :: locale(a, b) > 0 <==> locale(b, a) < 0)
    && (forall a, b, c :: locale(a, b) <= 0 && locale(b, c) <= 0 ==> locale(a, c) <= 0)
  }

  /** The collation first, code units to break its ties. */
  function CompareIds(locale: Collation, a: string, b: string): int {
    if locale(a, b) != 0 then locale(a, b)
    else if UnitLess(a, b) then -1
    else if UnitLess(b, a) then 1
    else 0
  }

  predicate IdLeq(locale: Collation, a: string, b: string) {
    CompareIds(locale, a, b) <= 0
  }

  /** The tie-break turns the collation into a total order on strings. */
  lemma {:induction false} CompareIdsIsTotalOrder(locale: Collation, a: string, b: string, c: string)
    requires TotalPreorder(locale)
    ensures IdLeq(locale, a, b) || IdLeq(locale, b, a)
    ensures IdLeq(locale, a, b) && IdLeq(locale, b, c) ==> IdLeq(locale, a, c)
    ensures IdLeq(locale, a, b) && IdLeq(locale, b, a) ==> a == b
  {
    UnitLeqConnected(a, b);
    UnitLeqConnected(b, c);
    UnitLeqConnected(a, c);
    UnitOrder(a, b, c);
    UnitOrder(c, b, a);
    assert locale(a, b) > 0 <==> locale(b, a) < 0;
    assert locale(b, c) > 0 <==> locale(c, b) < 0;
    assert locale(a, c) > 0 <==> locale(c, a) < 0;
    assert locale(b, a) > 0 <==> locale(a, b) < 0;
    assert locale(b, c) <= 0 && locale(c, a) <= 0 ==> locale(b, a) <= 0;
    assert locale(c, a) <= 0 && locale(a, b) <= 0 ==> locale(c, b) <= 0;
  }

  lemma {:induction false} UnitOrder(a: string, b: string, c: string)
    ensures UnitLeq(a, b) && UnitLeq(b, c) ==> UnitLeq(a, c)
    ensures UnitLeq(a, b) && UnitLeq(b, a) ==> a == b
  {
    if UnitLeq(a, b) && UnitLeq(b, c) { UnitLeqTransitive(a, b, c); }
    if UnitLeq(a, b) && UnitLeq(b, a) { UnitLeqAntisymmetric(a, b); }
  }

  function IdOrder(locale: Collation): (string, string) -> bool {
    (a: string, b: string) => IdLeq(locale, a, b)
  }

  /** `byMangaId`. */
  function RowOrder(locale: Collation): (Row, Row) -> bool {
    (a: Row, b: Row) => IdLeq(locale, a.mangaId, b.mangaId)
  }

  function KeyOrder(): (string, string) -> bool {
    (a: string, b: string) => UnitLeq(a, b)
  }

  // ---- the document

  function NamespaceOf(r: Row): string { r.namespace }
  function MangaIdOf(r: Row): string { r.mangaId }
  function TitleOf(r: Row): string { r.mdMangaId }

  function InNamespace(rows: seq<Row>, namespace: string): seq<Row> {
    FilterBy(NamespaceOf, namespace, rows)
  }

  function OfTitle(rows: seq<Row>, title: string): seq<Row> {
    FilterBy(TitleOf, title, rows)
  }

  /** The external ids mapped to one title, in row order. */
  function IdsOf(rows: seq<Row>, title: string): seq<string> {
    Map(MangaIdOf, OfTitle(rows, title))
  }

  function ForwardMember(r: Row): Member {
    Member(r.mangaId, Str(r.mdMangaId))
  }

  function InvertedMember(locale: Collation, rows: seq<Row>, title: string): Member {
    Member(title, Arr(Strs(Sort(IdOrder(locale), IdsOf(rows, title)))))
  }

  function TitleMember(locale: Collation, rows: seq<Row>): string -> Member {
    (title: string) => InvertedMember(locale, rows, title)
  }

  function Titles(rows: seq<Row>): seq<string> {
    Sort(KeyOrder(), Dedup(Map(TitleOf, rows)))
  }

  function Namespaces(rows: seq<Row>): seq<string> {
    Sort(KeyOrder(), Dedup(Map(NamespaceOf, rows)))
  }

  /** The object one catalogue is written as. */
  function Table(locale: Collation, rows: seq<Row>, inner: Inner): seq<Member> {
    match inner
    case Forward => OwnOrder(PutAll([], Map(ForwardMember, Sort(RowOrder(locale), rows))))
    case Inverted => OwnOrder(Map(TitleMember(locale, rows), Titles(rows)))
  }

  /** An extension with a namespaced row is written nested, any other flat. */
  predicate Nests(rows: seq<Row>) {
    exists i :: 0 <= i < |rows| && rows[i].namespace != DEFAULT_NAMESPACE
  }

  function NamespaceMember(locale: Collation, rows: seq<Row>, inner: Inner, namespace: string): Member {
    Member(namespace, Obj(Table(locale, InNamespace(rows, namespace), inner)))
  }

  function CatalogueMember(locale: Collation, rows: seq<Row>, inner: Inner): string -> Member {
    (namespace: string) => NamespaceMember(locale, rows, inner, namespace)
  }

  function Document(locale: Collation, rows: seq<Row>, inner: Inner): seq<Member> {
    if Nests(rows)
    then OwnOrder(Map(CatalogueMember(locale, rows, inner), Namespaces(rows)))
    else Table(locale, rows, inner)
  }

  // ---- the lines

  /** What the renderer is ever asked to write: strings, string arrays, and objects of those. */
  predicate Printable(v: Json) {
    match v
    case Str(_) => true
    case Arr(items) => forall i :: 0 <= i < |items| ==> items[i].Str?
    case Obj(members) => PrintableAll(members)
  }

  predicate PrintableAll(ms: seq<Member>) {
    forall i :: 0 <= i < |ms| ==> Printable(ms[i].value)
  }

  function Texts(items: seq<Json>): (r: seq<string>)
    requires forall i :: 0 <= i < |items| ==> items[i].Str?
    ensures Strs(r) == items
  {
    if items == [] then [] else [items[0].text] + Texts(items[1..])
  }

  /** A scalar or an array, always on one line. */
  function InlineValue(v: Json): string
    requires Printable(v) && !v.Obj?
  {
    match v
    case Str(text) => Quoted(text)
    case Arr(items) => "[" + ItemsText(Texts(items)) + "]"
  }

  function IndentOf(shape: MapShape): nat {
    match shape.indent case Some(n) => n case None => DEFAULT_INDENT
  }

  function Base(shape: MapShape, depth: nat): string {
    Spaces(IndentOf(shape) * depth)
  }

  function LongestKey(ms: seq<Member>): (n: nat)
    ensures forall i :: 0 <= i < |ms| ==> Length(ms[i].key) <= n
    ensures n > 0 ==> exists i :: 0 <= i < |ms| && Length(ms[i].key) == n
  {
    if ms == [] then 0
    else
      var n, rest := Length(ms[0].key), LongestKey(ms[1..]);
      if n >= rest then n else rest
  }

  /** The column keys are aligned to, within one object; 0 when keys are not aligned. */
  function Widest(ms: seq<Member>, shape: MapShape): nat {
    if shape.align then LongestKey(ms) else 0
  }

  function Padding(key: string, widest: nat): nat {
    if Length(key) < widest then widest - Length(key) else 0
  }

  function Label(key: string, depth: nat, shape: MapShape, widest: nat): string {
    Base(shape, depth) + Spaces(Padding(key, widest)) + Quoted(key) + ": "
  }

  /** The lines of one entry. */
  function Block(m: Member, depth: nat, shape: MapShape, widest: nat): (lines: seq<string>)
    requires Printable(m.value)
    ensures lines != []
    decreases m, 0
  {
    var start := Label(m.key, depth, shape, widest);
    match m.value
    case Obj(inner) =>
      if inner == [] then [start + "{}"]
      else [start + "{"] + CommaJoin(ObjectBlocks(inner, depth + 1, shape)) + [Base(shape, depth) + "}"]
    case _ => [start + InlineValue(m.value)]
  }

  function Blocks(ms: seq<Member>, depth: nat, shape: MapShape, widest: nat): (blocks: seq<seq<string>>)
    requires PrintableAll(ms)
    ensures |blocks| == |ms|
    ensures forall i :: 0 <= i < |blocks| ==> blocks[i] != []
    decreases ms, 0
  {
    if ms == [] then []
    else [Block(ms[0], depth, shape, widest)] + Blocks(ms[1..], depth, shape, widest)
  }

  function ObjectBlocks(ms: seq<Member>, depth: nat, shape: MapShape): (blocks: seq<seq<string>>)
    requires PrintableAll(ms)
    ensures |blocks| == |ms|
    decreases ms, 1
  {
    Blocks(ms, depth, shape, Widest(ms, shape))
  }

  function AddComma(block: seq<string>): seq<string>
    requires block != []
  {
    block[..|block| - 1] + [block[|block| - 1] + ","]
  }

  /** The blocks as lines, a comma after every block but the last. */
  function CommaJoin(blocks: seq<seq<string>>): seq<string> {
    if blocks == [] then []
    else if |blocks| == 1 || blocks[0] == [] then blocks[0] + CommaJoin(blocks[1..])
    else AddComma(blocks[0]) + CommaJoin(blocks[1..])
  }

  function Lines(ms: seq<Member>, shape: MapShape): seq<string>
    requires PrintableAll(ms)
  {
    ["{"] + CommaJoin(ObjectBlocks(ms, 1, shape)) + ["}"]
  }

  function Serialise(ms: seq<Member>, shape: MapShape): string
    requires PrintableAll(ms)
  {
    if ms == [] then "{}\n" else Join("\n", Lines(ms, shape)) + "\n"
  }

  lemma {:induction false} TablePrintable(locale: Collation, rows: seq<Row>, inner: Inner)
    ensures PrintableAll(Table(locale, rows, inner))
    ensures forall m :: m in Table(locale, rows, inner) ==> !m.value.Obj?
  {
    var plain := match inner
      case Forward => PutAll([], Map(ForwardMember, Sort(RowOrder(locale), rows)))
      case Inverted => Map(TitleMember(locale, rows), Titles(rows));
    if inner.Forward? {
      PutAllMembers([], Map(ForwardMember, Sort(RowOrder(locale), rows)));
    }
    OwnOrderPermutes(plain);
    var t := Table(locale, rows, inner);
    forall i | 0 <= i < |t| ensures Printable(t[i].value) && !t[i].value.Obj? {
      assert t[i] in plain;
    }
  }

  lemma {:induction false} PutMembers(ms: seq<Member>, m: Member)
    ensures forall x :: x in Put(ms, m) ==> x == m || x in ms
  {
    if ms != [] {
      PutMembers(ms[1..], m);
    }
  }

  lemma {:induction false} PutAllMembers(ms: seq<Member>, more: seq<Member>)
    ensures forall x :: x in PutAll(ms, more) ==> x in ms || x in more
    decreases |more|
  {
    if more != [] {
      PutMembers(ms, more[0]);
      PutAllMembers(Put(ms, more[0]), more[1..]);
    }
  }

  lemma {:induction false} DocumentPrintable(locale: Collation, rows: seq<Row>, inner: Inner)
    ensures PrintableAll(Document(locale, rows, inner))
  {
    if Nests(rows) {
      var plain := Map(CatalogueMember(locale, rows, inner), Namespaces(rows));
      OwnOrderPermutes(plain);
      var d := Document(locale, rows, inner);
      forall i | 0 <= i < |d| ensures Printable(d[i].value) {
        assert d[i] in plain;
        TablePrintable(locale, InNamespace(rows, d[i].key), inner);
      }
    } else {
      TablePrintable(locale, rows, inner);
    }
  }

  /** The text of the file for `rows`. */
  function Render(locale: Collation, rows: seq<Row>, shape: MapShape): string {
    DocumentPrintable(locale, rows, shape.inner);
    Serialise(Document(locale, rows, shape.inner), shape)
  }
}
