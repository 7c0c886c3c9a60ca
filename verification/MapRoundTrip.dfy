/** Reading a map file back into rows, and what rendering loses: nothing. */
module MapRoundTrip {
  import opened JsStrings
  import opened JsonText
  import opened JsObjects
  import opened Sorting
  import opened MapFile
  import opened MapReading

  // ---- the reader of the platform

  /** `MD_UUID_RE`: 8-4-4-4-12 hexadecimal digits, either case. */
  predicate IsUuid(s: string) {
    && |s| == 36
    && forall i :: 0 <= i < 36 ==>
         if i == 8 || i == 13 || i == 18 || i == 23 then s[i] == '-' else HexDigit(s[i]) >= 0
  }

  predicate AllHex(s: string) {
    forall i :: 0 <= i < |s| ==> HexDigit(s[i]) >= 0
  }

  /** Five groups of hexadecimal digits with dashes between them. */
  lemma {:induction false} UuidHasGroups(s: string) returns (a: string, b: string, c: string, d: string, e: string)
    requires IsUuid(s)
    ensures s == a + "-" + b + "-" + c + "-" + d + "-" + e && AllHex(a + b + c + d + e)
    ensures |a| == 8 && |b| == 4 && |c| == 4 && |d| == 4 && |e| == 12
  {
    a, b, c, d, e := s[..8], s[9..13], s[14..18], s[19..23], s[24..];
    assert s == a + "-" + b + "-" + c + "-" + d + "-" + e;
    assert AllHex(a) && AllHex(b) && AllHex(c) && AllHex(d) && AllHex(e);
  }

  /** And any such five make a uuid. */
  lemma {:induction false} GroupsAreUuid(a: string, b: string, c: string, d: string, e: string)
    requires AllHex(a) && AllHex(b) && AllHex(c) && AllHex(d) && AllHex(e)
    requires |a| == 8 && |b| == 4 && |c| == 4 && |d| == 4 && |e| == 12
    ensures IsUuid(a + "-" + b + "-" + c + "-" + d + "-" + e)
  {
    var s := a + "-" + b + "-" + c + "-" + d + "-" + e;
    assert s[..8] == a && s[9..13] == b && s[14..18] == c && s[19..23] == d && s[24..] == e;
    forall i | 0 <= i < 36
      ensures if i == 8 || i == 13 || i == 18 || i == 23 then s[i] == '-' else HexDigit(s[i]) >= 0
    {
      GroupDigit(s, a, 0, i);
      GroupDigit(s, b, 9, i);
      GroupDigit(s, c, 14, i);
      GroupDigit(s, d, 19, i);
      GroupDigit(s, e, 24, i);
    }
  }

  lemma {:induction false} GroupDigit(s: string, group: string, from: nat, i: nat)
    requires i < |s| && from + |group| <= |s| && s[from..from + |group|] == group && AllHex(group)
    ensures from <= i < from + |group| ==> HexDigit(s[i]) >= 0
  {
    if from <= i < from + |group| {
      assert s[i] == group[i - from];
    }
  }

  function NormaliseNamespace(value: string): string {
    Lower(Trim(value))
  }

  /** The rows one array item or scalar stands for; none when the title is no uuid. */
  function ItemRows(namespace: string, title: string, item: Json): seq<Row> {
    if item.Str? && item.text != "" then [Row(namespace, item.text, Lower(title))] else []
  }

  function RowsOfItem(namespace: string, title: string): Json -> seq<Row> {
    (item: Json) => ItemRows(namespace, title, item)
  }

  function FlatRows(namespace: string, m: Member): seq<Row> {
    match m.value
    case Arr(items) =>
      if IsUuid(m.key) then Flatten(Map(RowsOfItem(namespace, m.key), items)) else []
    case Str(text) =>
      if IsUuid(text) && m.key != "" then [Row(namespace, m.key, Lower(text))] else []
    case Obj(_) => []
  }

  function RowsOfMember(namespace: string): Member -> seq<Row> {
    (m: Member) => FlatRows(namespace, m)
  }

  function TableRows(namespace: string, ms: seq<Member>): seq<Row> {
    Flatten(Map(RowsOfMember(namespace), ms))
  }

  function MemberRows(m: Member): seq<Row> {
    match m.value
    case Obj(inner) => TableRows(NormaliseNamespace(m.key), inner)
    case _ => FlatRows(DEFAULT_NAMESPACE, m)
  }

  /** `parseMangaIdMapFile`. */
  function ParseMangaIdMapFile(document: Json): seq<Row> {
    if document.Obj? then Flatten(Map(MemberRows, document.members)) else []
  }

  /** The value `JSON.parse` builds: every object with one property per key, in own order. */
  function Built(v: Json): Json
    decreases v, 0
  {
    match v
    case Str(_) => v
    case Arr(items) => Arr(BuiltItems(items))
    case Obj(ms) => Obj(FromText(BuiltMembers(ms)))
  }

  function BuiltItems(items: seq<Json>): seq<Json>
    decreases items, 0
  {
    if items == [] then [] else [Built(items[0])] + BuiltItems(items[1..])
  }

  function BuiltMembers(ms: seq<Member>): (r: seq<Member>)
    ensures |r| == |ms|
    ensures forall i :: 0 <= i < |ms| ==> r[i] == Member(ms[i].key, Built(ms[i].value))
    decreases ms, 0
  {
    if ms == [] then [] else [Member(ms[0].key, Built(ms[0].value))] + BuiltMembers(ms[1..])
  }

  /** `JSON.parse`, None where it throws. */
  function Parse(text: string): Option<Json> {
    match ReadText(text)
    case None => None
    case Some(v) => Some(Built(v))
  }

  /** The rows of a file's text; none when it is not JSON. */
  function ReadRows(text: string): seq<Row> {
    match Parse(text)
    case None => []
    case Some(v) => ParseMangaIdMapFile(v)
  }

  // ---- which rows survive

  /** A row the reader can give back: what `tracked_manga` holds. */
  predicate Readable(r: Row) {
    && IsUuid(r.mdMangaId) && Lower(r.mdMangaId) == r.mdMangaId
    && r.mangaId != ""
    && NormaliseNamespace(r.namespace) == r.namespace
  }

  predicate AllReadable(rows: seq<Row>) {
    forall i :: 0 <= i < |rows| ==> Readable(rows[i])
  }

  /** No two rows share (namespace, mangaId): the unique constraint of the table. */
  ghost predicate Unique(rows: seq<Row>) {
    forall i, j :: 0 <= i < j < |rows| ==>
      rows[i].namespace != rows[j].namespace || rows[i].mangaId != rows[j].mangaId
  }

  // ---- permutations

  /** Permuting the pieces permutes what they are glued to. */
  lemma {:induction false} FlattenPermutes<T(!new)>(ps: seq<seq<T>>, qs: seq<seq<T>>)
    requires multiset(ps) == multiset(qs)
    ensures multiset(Flatten(ps)) == multiset(Flatten(qs))
  {
    SamePermutation(ps, qs);
    if ps != [] {
      assert ps[0] in qs;
      var i :| 0 <= i < |qs| && qs[i] == ps[0];
      DropHead(ps);
      TakeOut(qs, i);
      FlattenPermutes(ps[1..], qs[..i] + qs[i + 1..]);
      FlattenTakeOut(qs, i);
    }
  }

  lemma {:induction false} FlattenTakeOut<T>(qs: seq<seq<T>>, i: nat)
    requires i < |qs|
    ensures multiset(Flatten(qs)) == multiset(qs[i]) + multiset(Flatten(qs[..i] + qs[i + 1..]))
  {
    var left, tail := qs[..i] + qs[i + 1..], qs[1..];
    if i == 0 {
      assert left == tail;
    } else {
      FlattenTakeOut(tail, i - 1);
      assert left[1..] == tail[..i - 1] + tail[i..];
    }
  }

  lemma {:induction false} FlatMapPermutes<S, T(!new)>(f: S -> seq<T>, ss: seq<S>, ts: seq<S>)
    requires multiset(ss) == multiset(ts)
    ensures multiset(Flatten(Map(f, ss))) == multiset(Flatten(Map(f, ts)))
  {
    MapPermutes(f, ss, ts);
    FlattenPermutes(Map(f, ss), Map(f, ts));
  }

  lemma {:induction false} FlattenSingletons<T>(parts: seq<seq<T>>, s: seq<T>)
    requires |parts| == |s| && forall i :: 0 <= i < |s| ==> parts[i] == [s[i]]
    ensures Flatten(parts) == s
  {
    if s != [] {
      FlattenSingletons(parts[1..], s[1..]);
    }
  }

  // ---- one catalogue

  ghost predicate AllIn(rows: seq<Row>, namespace: string) {
    forall i :: 0 <= i < |rows| ==> rows[i].namespace == namespace
  }

  lemma {:induction false} ForwardTablePermutes(locale: Collation, rows: seq<Row>, namespace: string)
    requires Unique(rows) && AllIn(rows, namespace)
    ensures multiset(Table(locale, rows, Forward)) == multiset(Map(ForwardMember, rows))
    ensures KeysDistinct(Table(locale, rows, Forward))
  {
    var sorted := Sort(RowOrder(locale), rows);
    var plain, ms := Map(ForwardMember, rows), Map(ForwardMember, sorted);
    SortPermutes(RowOrder(locale), rows);
    MapPermutes(ForwardMember, sorted, rows);
    assert KeysDistinct(plain);
    DistinctKeysPermute(plain, ms);
    assert [] + ms == ms;
    PutAllDistinct([], ms);
    OwnOrderPermutes(ms);
    DistinctKeysPermute(ms, OwnOrder(ms));
  }

  lemma {:induction false} InvertedTablePermutes(locale: Collation, rows: seq<Row>)
    ensures multiset(Table(locale, rows, Inverted))
         == multiset(Map(TitleMember(locale, rows), Titles(rows)))
    ensures KeysDistinct(Table(locale, rows, Inverted))
  {
    var plain := Map(TitleMember(locale, rows), Titles(rows));
    SortedDedupDistinct(KeyOrder(), Map(TitleOf, rows));
    OwnOrderPermutes(plain);
    assert KeysDistinct(plain);
    DistinctKeysPermute(plain, OwnOrder(plain));
  }

  lemma {:induction false} SortedDedupDistinct(leq: (string, string) -> bool, s: seq<string>)
    ensures Distinct(Sort(leq, Dedup(s)))
    ensures forall x :: x in Sort(leq, Dedup(s)) <==> x in s
  {
    var d := Dedup(s);
    SortPermutes(leq, d);
    forall x ensures multiset(Sort(leq, d))[x] <= 1 {
      DistinctCount(d, x);
    }
    CountDistinct(Sort(leq, d));
  }

  lemma {:induction false} ForwardRows(locale: Collation, rows: seq<Row>, namespace: string)
    requires Unique(rows) && AllIn(rows, namespace) && AllReadable(rows)
    ensures multiset(TableRows(namespace, Table(locale, rows, Forward))) == multiset(rows)
  {
    var f := RowsOfMember(namespace);
    ForwardTablePermutes(locale, rows, namespace);
    FlatMapPermutes(f, Table(locale, rows, Forward), Map(ForwardMember, rows));
    var parts := Map(f, Map(ForwardMember, rows));
    forall i | 0 <= i < |rows| ensures parts[i] == [rows[i]] {
      assert Readable(rows[i]);
      assert parts[i] == FlatRows(namespace, ForwardMember(rows[i]));
    }
    FlattenSingletons(parts, rows);
  }

  function ToRow(namespace: string, title: string): string -> Row {
    (id: string) => Row(namespace, id, title)
  }

  /** An array of ids stands for one row per id. */
  lemma {:induction false} ArrayRows(namespace: string, title: string, ids: seq<string>)
    requires IsUuid(title) && Lower(title) == title
    requires forall i :: 0 <= i < |ids| ==> ids[i] != ""
    ensures FlatRows(namespace, Member(title, Arr(Strs(ids)))) == Map(ToRow(namespace, title), ids)
  {
    FlattenSingletons(Map(RowsOfItem(namespace, title), Strs(ids)), Map(ToRow(namespace, title), ids));
  }

  /** The array of one title stands for exactly the rows of that title. */
  lemma {:induction false} InvertedMemberRows(locale: Collation, rows: seq<Row>, namespace: string, title: string)
    requires AllIn(rows, namespace) && AllReadable(rows) && IsUuid(title) && Lower(title) == title
    ensures multiset(FlatRows(namespace, InvertedMember(locale, rows, title))) == multiset(OfTitle(rows, title))
  {
    var some, ids := OfTitle(rows, title), IdsOf(rows, title);
    var sorted := Sort(IdOrder(locale), ids);
    FilterByMember(TitleOf, title, rows);
    forall i | 0 <= i < |some| ensures Map(ToRow(namespace, title), ids)[i] == some[i] && ids[i] != "" {
      assert some[i] in rows;
    }
    assert Map(ToRow(namespace, title), ids) == some;
    SortPermutes(IdOrder(locale), ids);
    forall i | 0 <= i < |sorted| ensures sorted[i] != "" {
      assert sorted[i] in ids;
    }
    ArrayRows(namespace, title, sorted);
    MapPermutes(ToRow(namespace, title), sorted, ids);
  }

  lemma {:induction false} RowsHaveTitles(rows: seq<Row>)
    ensures Distinct(Titles(rows))
    ensures forall r :: r in rows ==> TitleOf(r) in Titles(rows)
  {
    var all := Map(TitleOf, rows);
    SortedDedupDistinct(KeyOrder(), all);
    forall i | 0 <= i < |rows| ensures TitleOf(rows[i]) in Titles(rows) {
      assert all[i] in all;
    }
  }

  lemma {:induction false} InvertedRows(locale: Collation, rows: seq<Row>, namespace: string)
    requires AllIn(rows, namespace) && AllReadable(rows)
    ensures multiset(TableRows(namespace, Table(locale, rows, Inverted))) == multiset(rows)
  {
    var f := RowsOfMember(namespace);
    var titles := Titles(rows);
    var plain := Map(TitleMember(locale, rows), titles);
    InvertedTablePermutes(locale, rows);
    FlatMapPermutes(f, Table(locale, rows, Inverted), plain);
    RowsHaveTitles(rows);
    var pieces := Map(f, plain);
    forall i | 0 <= i < |titles| ensures multiset(pieces[i]) == multiset(FilterBy(TitleOf, titles[i], rows)) {
      TitleIsReadable(rows, titles[i]);
      InvertedMemberRows(locale, rows, namespace, titles[i]);
      assert pieces[i] == FlatRows(namespace, InvertedMember(locale, rows, titles[i]));
    }
    PartitionAll(TitleOf, titles, rows, pieces);
  }

  lemma {:induction false} TitleIsReadable(rows: seq<Row>, title: string)
    requires AllReadable(rows) && title in Titles(rows)
    ensures IsUuid(title) && Lower(title) == title
  {
    SortedDedupDistinct(KeyOrder(), Map(TitleOf, rows));
    var all := Map(TitleOf, rows);
    var i :| 0 <= i < |all| && all[i] == title;
    assert Readable(rows[i]);
  }

  lemma {:induction false} CatalogueRows(locale: Collation, rows: seq<Row>, namespace: string, inner: Inner)
    requires inner.Forward? ==> Unique(rows)
    requires AllIn(rows, namespace) && AllReadable(rows)
    ensures multiset(TableRows(namespace, Table(locale, rows, inner))) == multiset(rows)
    ensures KeysDistinct(Table(locale, rows, inner))
  {
    if inner.Forward? {
      ForwardTablePermutes(locale, rows, namespace);
      ForwardRows(locale, rows, namespace);
    } else {
      InvertedTablePermutes(locale, rows);
      InvertedRows(locale, rows, namespace);
    }
  }

  // ---- the whole file

  /** The rows a document member stands for once `JSON.parse` has built its value. */
  function BuiltRows(m: Member): seq<Row> {
    MemberRows(Member(m.key, Built(m.value)))
  }

  lemma {:induction false} BuiltStrs(items: seq<Json>)
    requires forall i :: 0 <= i < |items| ==> items[i].Str?
    ensures BuiltItems(items) == items
  {
    if items != [] {
      BuiltStrs(items[1..]);
    }
  }

  lemma {:induction false} BuiltPlain(v: Json)
    requires Printable(v) && !v.Obj?
    ensures Built(v) == v
  {
    if v.Arr? {
      BuiltStrs(v.items);
    }
  }

  lemma {:induction false} BuiltTable(ms: seq<Member>)
    requires PrintableAll(ms) && forall m :: m in ms ==> !m.value.Obj?
    ensures BuiltMembers(ms) == ms
  {
    forall i | 0 <= i < |ms| ensures BuiltMembers(ms)[i] == ms[i] {
      BuiltPlain(ms[i].value);
    }
  }

  /** What a rendered document is read back as depends on its members, not on their order. */
  lemma {:induction false} ReadRowsOfDocument(ms: seq<Member>, shape: MapShape)
    requires PrintableAll(ms) && KeysDistinct(ms)
    ensures multiset(ReadRows(Serialise(ms, shape))) == multiset(Flatten(Map(BuiltRows, ms)))
  {
    ReadSerialised(ms, shape);
    var built := BuiltMembers(ms);
    FromTextPermutes(built);
    FlatMapPermutes(MemberRows, FromText(built), built);
    BuiltThenRows(ms);
  }

  lemma {:induction false} BuiltThenRows(ms: seq<Member>)
    ensures Map(MemberRows, BuiltMembers(ms)) == Map(BuiltRows, ms)
  {
    var built := BuiltMembers(ms);
    forall i | 0 <= i < |ms| ensures MemberRows(built[i]) == BuiltRows(ms[i]) {
    }
  }

  lemma {:induction false} FlatDocumentRows(locale: Collation, rows: seq<Row>, inner: Inner)
    requires !Nests(rows) && AllReadable(rows)
    requires inner.Forward? ==> Unique(rows)
    ensures var d := Document(locale, rows, inner);
            KeysDistinct(d) && multiset(Flatten(Map(BuiltRows, d))) == multiset(rows)
  {
    var d := Table(locale, rows, inner);
    assert AllIn(rows, DEFAULT_NAMESPACE);
    CatalogueRows(locale, rows, DEFAULT_NAMESPACE, inner);
    TablePrintable(locale, rows, inner);
    forall i | 0 <= i < |d| ensures BuiltRows(d[i]) == FlatRows(DEFAULT_NAMESPACE, d[i]) {
      assert d[i] in d;
      BuiltPlain(d[i].value);
    }
    assert Map(BuiltRows, d) == Map(RowsOfMember(DEFAULT_NAMESPACE), d);
  }

  lemma {:induction false} RowsHaveNamespaces(rows: seq<Row>)
    ensures Distinct(Namespaces(rows))
    ensures forall r :: r in rows ==> NamespaceOf(r) in Namespaces(rows)
    ensures forall n :: n in Namespaces(rows) ==> exists i :: 0 <= i < |rows| && rows[i].namespace == n
  {
    var all := Map(NamespaceOf, rows);
    SortedDedupDistinct(KeyOrder(), all);
    forall i | 0 <= i < |rows| ensures NamespaceOf(rows[i]) in Namespaces(rows) {
      assert all[i] in all;
    }
    forall n | n in Namespaces(rows) ensures exists i :: 0 <= i < |rows| && rows[i].namespace == n {
      var i :| 0 <= i < |all| && all[i] == n;
      assert rows[i].namespace == n;
    }
  }

  /** A subsequence picked by namespace keeps what holds of all rows. */
  lemma {:induction false} InNamespaceKeeps(rows: seq<Row>, namespace: string)
    ensures AllIn(InNamespace(rows, namespace), namespace)
    ensures AllReadable(rows) ==> AllReadable(InNamespace(rows, namespace))
    ensures Unique(rows) ==> Unique(InNamespace(rows, namespace))
  {
    FilterByMember(NamespaceOf, namespace, rows);
    var some := InNamespace(rows, namespace);
    forall i | 0 <= i < |some| ensures some[i] in rows && some[i].namespace == namespace {
      assert some[i] in some;
    }
    if rows != [] {
      InNamespaceKeeps(rows[1..], namespace);
      FilterByMember(NamespaceOf, namespace, rows[1..]);
      var rest := InNamespace(rows[1..], namespace);
      if Unique(rows) {
        assert Unique(rows[1..]) by {
          forall i, j | 0 <= i < j < |rows[1..]|
            ensures rows[1..][i].namespace != rows[1..][j].namespace || rows[1..][i].mangaId != rows[1..][j].mangaId
          {
            assert rows[i + 1] == rows[1..][i] && rows[j + 1] == rows[1..][j];
          }
        }
        if some != rest {
          assert some == [rows[0]] + rest;
          forall j | 0 <= j < |rest| ensures rest[j].mangaId != rows[0].mangaId {
            assert rest[j] in rows[1..];
            var k :| 0 <= k < |rows[1..]| && rows[1..][k] == rest[j];
            assert rows[k + 1] == rest[j] && rest[j] in rest;
          }
        }
      }
    }
  }

  lemma {:induction false} BuiltCatalogue(namespace: string, table: seq<Member>)
    requires NormaliseNamespace(namespace) == namespace
    requires BuiltMembers(table) == table && KeysDistinct(table)
    ensures multiset(BuiltRows(Member(namespace, Obj(table)))) == multiset(TableRows(namespace, table))
  {
    FromTextPermutes(table);
    FlatMapPermutes(RowsOfMember(namespace), FromText(table), table);
  }

  /** One namespace of a nested file is read back as exactly its rows. */
  lemma {:induction false} CatalogueMemberRows(locale: Collation, rows: seq<Row>, inner: Inner, namespace: string)
    requires AllReadable(rows) && NormaliseNamespace(namespace) == namespace
    requires inner.Forward? ==> Unique(rows)
    ensures multiset(BuiltRows(NamespaceMember(locale, rows, inner, namespace)))
         == multiset(FilterBy(NamespaceOf, namespace, rows))
  {
    var some := InNamespace(rows, namespace);
    var table := Table(locale, some, inner);
    InNamespaceKeeps(rows, namespace);
    CatalogueRows(locale, some, namespace, inner);
    TablePrintable(locale, some, inner);
    BuiltTable(table);
    BuiltCatalogue(namespace, table);
  }

  lemma {:induction false} NestedDocumentRows(locale: Collation, rows: seq<Row>, inner: Inner)
    requires Nests(rows) && AllReadable(rows)
    requires inner.Forward? ==> Unique(rows)
    ensures var d := Document(locale, rows, inner);
            KeysDistinct(d) && multiset(Flatten(Map(BuiltRows, d))) == multiset(rows)
  {
    var d, names := Document(locale, rows, inner), Namespaces(rows);
    var plain := Map(CatalogueMember(locale, rows, inner), names);
    RowsHaveNamespaces(rows);
    OwnOrderPermutes(plain);
    assert KeysDistinct(plain);
    DistinctKeysPermute(plain, d);
    FlatMapPermutes(BuiltRows, d, plain);
    forall i | 0 <= i < |names| ensures NormaliseNamespace(names[i]) == names[i] {
      assert names[i] in names;
      var k :| 0 <= k < |rows| && rows[k].namespace == names[i];
      assert Readable(rows[k]);
    }
    CataloguesRows(locale, rows, inner, names);
  }

  /** The catalogues of a nested file together are read back as exactly the rows. */
  lemma {:induction false} CataloguesRows(locale: Collation, rows: seq<Row>, inner: Inner, names: seq<string>)
    requires AllReadable(rows) && Distinct(names)
    requires inner.Forward? ==> Unique(rows)
    requires forall r :: r in rows ==> NamespaceOf(r) in names
    requires forall i :: 0 <= i < |names| ==> NormaliseNamespace(names[i]) == names[i]
    ensures multiset(Flatten(Map(BuiltRows, Map(CatalogueMember(locale, rows, inner), names)))) == multiset(rows)
  {
    var pieces := Map(BuiltRows, Map(CatalogueMember(locale, rows, inner), names));
    forall i | 0 <= i < |names| ensures multiset(pieces[i]) == multiset(FilterBy(NamespaceOf, names[i], rows)) {
      CataloguePiece(locale, rows, inner, names, i);
      CatalogueMemberRows(locale, rows, inner, names[i]);
    }
    PartitionAll(NamespaceOf, names, rows, pieces);
  }

  lemma {:induction false} CataloguePiece(locale: Collation, rows: seq<Row>, inner: Inner, names: seq<string>, i: nat)
    requires i < |names|
    ensures Map(BuiltRows, Map(CatalogueMember(locale, rows, inner), names))[i]
         == BuiltRows(NamespaceMember(locale, rows, inner, names[i]))
  {
  }

  lemma {:induction false} DocumentRows(locale: Collation, rows: seq<Row>, inner: Inner)
    requires AllReadable(rows)
    requires inner.Forward? ==> Unique(rows)
    ensures var d := Document(locale, rows, inner);
            KeysDistinct(d) && multiset(Flatten(Map(BuiltRows, d))) == multiset(rows)
  {
    if Nests(rows) {
      NestedDocumentRows(locale, rows, inner);
    } else {
      FlatDocumentRows(locale, rows, inner);
    }
  }

  // ---- what the reader puts out

  lemma {:induction false} UuidLower(s: string)
    requires IsUuid(s)
    ensures IsUuid(Lower(s)) && Lower(Lower(s)) == Lower(s)
  {
    LowerIdempotent(s);
    var t := Lower(s);
    forall i | 0 <= i < 36
      ensures if i == 8 || i == 13 || i == 18 || i == 23 then t[i] == '-' else HexDigit(t[i]) >= 0
    {
      assert t[i] == LowerChar(s[i]);
    }
  }

  lemma {:induction false} FlattenMember<T>(parts: seq<seq<T>>, x: T)
    ensures x in Flatten(parts) ==> exists i :: 0 <= i < |parts| && x in parts[i]
  {
    if parts != [] && x in Flatten(parts) && x !in parts[0] {
      FlattenMember(parts[1..], x);
      var i :| 0 <= i < |parts[1..]| && x in parts[1..][i];
      assert x in parts[i + 1];
    }
  }

  lemma {:induction false} FlatRowsReadable(namespace: string, m: Member, r: Row)
    requires NormaliseNamespace(namespace) == namespace && r in FlatRows(namespace, m)
    ensures Readable(r)
  {
    match m.value
    case Arr(items) =>
      var parts := Map(RowsOfItem(namespace, m.key), items);
      FlattenMember(parts, r);
      var i :| 0 <= i < |parts| && r in parts[i];
      assert r in ItemRows(namespace, m.key, items[i]);
      UuidLower(m.key);
    case Str(text) => UuidLower(text);
    case Obj(_) =>
  }

  lemma {:induction false} MemberRowsReadable(m: Member, r: Row)
    requires r in MemberRows(m)
    ensures Readable(r)
  {
    TrimLowerIdempotent(m.key);
    match m.value
    case Obj(inner) =>
      var n := NormaliseNamespace(m.key);
      var parts := Map(RowsOfMember(n), inner);
      FlattenMember(parts, r);
      var i :| 0 <= i < |parts| && r in parts[i];
      assert parts[i] == FlatRows(n, inner[i]);
      FlatRowsReadable(n, inner[i], r);
    case _ => FlatRowsReadable(DEFAULT_NAMESPACE, m, r);
  }

  /** Whatever text is read, every row that comes out is one the reader gives back. */
  lemma {:induction false} ReadRowsReadable(text: string)
    ensures AllReadable(ReadRows(text))
  {
    var rows := ReadRows(text);
    forall i | 0 <= i < |rows| ensures Readable(rows[i]) {
      var ms := Parse(text).value.members;
      var parts := Map(MemberRows, ms);
      assert rows[i] in rows;
      FlattenMember(parts, rows[i]);
      var k :| 0 <= k < |parts| && rows[i] in parts[k];
      MemberRowsReadable(ms[k], rows[i]);
    }
  }

  /**
   * Rendering rows and reading the text back gives exactly those rows, each as
   * often as it occurs, in either form, nested or flat, for any indent and
   * alignment, if and only if every row is one the reader can give back.
   */
  lemma {:induction false} RenderThenRead(locale: Collation, rows: seq<Row>, shape: MapShape)
    requires shape.inner.Forward? ==> Unique(rows)
    ensures multiset(ReadRows(Render(locale, rows, shape))) == multiset(rows) <==> AllReadable(rows)
  {
    var text := Render(locale, rows, shape);
    DocumentPrintable(locale, rows, shape.inner);
    if AllReadable(rows) {
      DocumentRows(locale, rows, shape.inner);
      ReadRowsOfDocument(Document(locale, rows, shape.inner), shape);
    } else if multiset(ReadRows(text)) == multiset(rows) {
      ReadRowsReadable(text);
      SamePermutation(ReadRows(text), rows);
      forall i | 0 <= i < |rows| ensures Readable(rows[i]) {
        assert rows[i] in rows;
      }
    }
  }
}
