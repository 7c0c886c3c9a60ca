/** Deciding whether a map file is worth rewriting, and why a week with no changes never commits. */
module MapSync {
  import opened JsStrings
  import opened JsonText
  import opened JsObjects
  import opened Sorting
  import opened MapFile
  import opened MapReading
  import opened MapRoundTrip
  import opened MapOrder
  import opened MapLayout
  import opened MapText
  import opened MapStable

  const SHRINK_GUARD_MIN_ROWS := 8

  // ---- comparing mappings

  /** `rowKey`: the triple as the text `JSON.stringify` gives. */
  function RowKey(r: Row): string {
    "[" + (Quoted(r.namespace) + ("," + (Quoted(r.mangaId) + ("," + (Quoted(r.mdMangaId) + "]")))))
  }

  /** Two quoted strings with text after them agree only piece by piece. */
  lemma {:induction false} QuotedPrefix(a: string, b: string, s: string, t: string)
    requires Quoted(a) + s == Quoted(b) + t
    ensures a == b && s == t
  {
    ReadStringValue(a, s);
    ReadStringValue(b, t);
  }

  /** Different rows have different keys, whatever characters they hold. */
  lemma {:induction false} RowKeyInjective(r: Row, q: Row)
    requires RowKey(r) == RowKey(q)
    ensures r == q
  {
    var r3, q3 := Quoted(r.mdMangaId) + "]", Quoted(q.mdMangaId) + "]";
    var r2, q2 := Quoted(r.mangaId) + ("," + r3), Quoted(q.mangaId) + ("," + q3);
    var r1, q1 := Quoted(r.namespace) + ("," + r2), Quoted(q.namespace) + ("," + q2);
    assert r1 == RowKey(r)[1..] == RowKey(q)[1..] == q1;
    QuotedPrefix(r.namespace, q.namespace, "," + r2, "," + q2);
    assert r2 == ("," + r2)[1..] == ("," + q2)[1..] == q2;
    QuotedPrefix(r.mangaId, q.mangaId, "," + r3, "," + q3);
    assert r3 == ("," + r3)[1..] == ("," + q3)[1..] == q3;
    QuotedPrefix(r.mdMangaId, q.mdMangaId, "]", "]");
  }

  function Without(have: seq<string>): Row -> bool {
    (r: Row) => RowKey(r) !in have
  }

  /** The mappings in `a` that `b` does not have. */
  function MappingsMissingFrom(a: seq<Row>, b: seq<Row>): seq<Row> {
    Filter(Without(Map(RowKey, b)), a)
  }

  /** Comparing keys is comparing rows. */
  lemma {:induction false} MissingMeansAbsent(a: seq<Row>, b: seq<Row>, r: Row)
    ensures r in MappingsMissingFrom(a, b) <==> r in a && r !in b
  {
    var have := Map(RowKey, b);
    FilterMember(Without(have), a);
    if r in b {
      var i :| 0 <= i < |b| && b[i] == r;
      assert have[i] == RowKey(r);
    }
    if RowKey(r) in have {
      var i :| 0 <= i < |have| && have[i] == RowKey(r);
      RowKeyInjective(r, b[i]);
    }
  }

  // ---- the plan

  datatype Action = Write | Unchanged | Skipped | RefusedEmpty | RefusedShrink

  datatype Plan = Plan(action: Action, removed: nat, added: nat)

  datatype File = File(text: string, rows: seq<Row>)

  function PlanWrite(current: Option<File>, next: File, force: bool): Plan {
    match current
    case None => Plan(Skipped, 0, |next.rows|)
    case Some(file) =>
      var removed := |MappingsMissingFrom(file.rows, next.rows)|;
      var added := |MappingsMissingFrom(next.rows, file.rows)|;
      if file.text == next.text then Plan(Unchanged, removed, added)
      else if next.rows == [] && file.rows != [] then Plan(RefusedEmpty, removed, added)
      else if !force && |file.rows| >= SHRINK_GUARD_MIN_ROWS && 2 * |next.rows| < |file.rows| then
        Plan(RefusedShrink, removed, added)
      else Plan(Write, removed, added)
  }

  /** The shape of a file's text, layout included; None when it is no map. */
  function ShapeOfText(text: string): Option<MapShape> {
    match Parse(text)
    case None => None
    case Some(document) =>
      match ShapeOf(document)
      case None => None
      case Some(shape) =>
        var layout := LayoutOf(KeyLines(Split('\n', text)), shape.nested);
        Some(shape.(indent := Some(layout.indent), align := layout.align))
  }

  /** `parseMapText`. */
  method ParseMapText(text: string) returns (rows: seq<Row>, shape: Option<MapShape>)
    ensures rows == ReadRows(text) && shape == ShapeOfText(text)
  {
    var parsed := Parse(text);
    if parsed.None? {
      return [], None;
    }
    rows := ParseMangaIdMapFile(parsed.value);
    shape := DetectMapShape(parsed.value);
    if shape.Some? {
      var layout := DetectLayout(text, shape.value.nested);
      shape := Some(shape.value.(indent := Some(layout.indent), align := layout.align));
    }
  }

  /** What a sync writes over a file: the rows of the database in the shape of the file. */
  function SyncText(locale: Collation, text: string, rows: seq<Row>): string {
    Render(locale, rows, match ShapeOfText(text) case Some(shape) => shape case None => DEFAULT_SHAPE)
  }

  /** One file of one sync run. */
  function SyncPlan(locale: Collation, text: string, rows: seq<Row>, force: bool): Plan {
    PlanWrite(Some(File(text, ReadRows(text))), File(SyncText(locale, text, rows), rows), force)
  }

  // ---- the shape of a rendered file

  ghost predicate AllOfKind(ms: seq<Member>, inner: Inner) {
    forall m :: m in ms ==> if inner.Inverted? then m.value.Arr? else m.value.Str?
  }

  lemma {:induction false} KindCounts(ms: seq<Member>, inner: Inner)
    requires AllOfKind(ms, inner)
    ensures CountArrays(ms) == if inner.Inverted? then |ms| else 0
    ensures CountScalars(ms) == if inner.Inverted? then 0 else |ms|
  {
    if ms != [] {
      assert ms[0] in ms;
      KindCounts(ms[1..], inner);
    }
  }

  lemma {:induction false} TableOfKind(locale: Collation, rows: seq<Row>, inner: Inner)
    ensures AllOfKind(Table(locale, rows, inner), inner)
  {
    if inner.Forward? {
      var ms := Map(ForwardMember, Sort(RowOrder(locale), rows));
      PutAllMembers([], ms);
      OwnOrderPermutes(PutAll([], ms));
    } else {
      OwnOrderPermutes(Map(TitleMember(locale, rows), Titles(rows)));
    }
  }

  lemma {:induction false} TableNonEmpty(locale: Collation, rows: seq<Row>, inner: Inner, namespace: string)
    requires rows != [] && AllIn(rows, namespace) && (inner.Forward? ==> Unique(rows))
    ensures Table(locale, rows, inner) != []
  {
    if inner.Forward? {
      ForwardTablePermutes(locale, rows, namespace);
      SamePermutation(Table(locale, rows, inner), Map(ForwardMember, rows));
    } else {
      RowsHaveTitles(rows);
      assert TitleOf(rows[0]) in Titles(rows);
      OwnOrderPermutes(Map(TitleMember(locale, rows), Titles(rows)));
    }
  }

  /** A member of a rendered document votes for the document's direction, and votes at all. */
  ghost predicate VotesFor(m: Member, inner: Inner, nested: bool) {
    && m.value.Obj? == nested
    && Votes(m) != []
    && AllOfKind(Votes(m), inner)
  }

  lemma {:induction false} CatalogueVotes(locale: Collation, rows: seq<Row>, inner: Inner, namespace: string)
    requires namespace in Namespaces(rows) && (inner.Forward? ==> Unique(rows))
    ensures var table := Table(locale, InNamespace(rows, namespace), inner);
            KeysDistinct(table) && BuiltMembers(table) == table
            && VotesFor(Member(namespace, Obj(FromText(table))), inner, true)
  {
    var some := InNamespace(rows, namespace);
    var table := Table(locale, some, inner);
    RowsHaveNamespaces(rows);
    InNamespaceKeeps(rows, namespace);
    FilterByMember(NamespaceOf, namespace, rows);
    var i :| 0 <= i < |rows| && rows[i].namespace == namespace;
    assert rows[i] in some;
    TableNonEmpty(locale, some, inner, namespace);
    TableOfKind(locale, some, inner);
    TablePrintable(locale, some, inner);
    BuiltTable(table);
    if inner.Forward? { ForwardTablePermutes(locale, some, namespace); } else { InvertedTablePermutes(locale, some); }
    FromTextPermutes(table);
    SamePermutation(FromText(table), table);
  }

  lemma {:induction false} BuiltCatalogueVotes(locale: Collation, rows: seq<Row>, inner: Inner, namespace: string)
    requires namespace in Namespaces(rows) && (inner.Forward? ==> Unique(rows))
    ensures VotesFor(Member(namespace, Built(NamespaceMember(locale, rows, inner, namespace).value)), inner, true)
  {
    CatalogueVotes(locale, rows, inner, namespace);
  }

  lemma {:induction false} NestedDocumentVotes(locale: Collation, rows: seq<Row>, inner: Inner, i: nat)
    requires Nests(rows) && (inner.Forward? ==> Unique(rows))
    requires i < |Document(locale, rows, inner)|
    ensures var m := Document(locale, rows, inner)[i]; VotesFor(Member(m.key, Built(m.value)), inner, true)
  {
    var d := Document(locale, rows, inner);
    var plain := Map(CatalogueMember(locale, rows, inner), Namespaces(rows));
    OwnOrderPermutes(plain);
    assert d[i] in d;
    var k :| 0 <= k < |plain| && plain[k] == d[i];
    BuiltCatalogueVotes(locale, rows, inner, Namespaces(rows)[k]);
  }

  lemma {:induction false} FlatDocumentVotes(locale: Collation, rows: seq<Row>, inner: Inner, i: nat)
    requires !Nests(rows) && i < |Document(locale, rows, inner)|
    ensures var m := Document(locale, rows, inner)[i]; VotesFor(Member(m.key, Built(m.value)), inner, false)
  {
    var d := Document(locale, rows, inner);
    assert d[i] in d;
    TablePrintable(locale, rows, inner);
    TableOfKind(locale, rows, inner);
    BuiltPlain(d[i].value);
  }

  /** Every built member of a rendered document votes the same way. */
  lemma {:induction false} DocumentVotes(locale: Collation, rows: seq<Row>, inner: Inner, i: nat)
    requires inner.Forward? ==> Unique(rows)
    requires i < |Document(locale, rows, inner)|
    ensures VotesFor(BuiltMembers(Document(locale, rows, inner))[i], inner, Nests(rows))
  {
    if Nests(rows) {
      NestedDocumentVotes(locale, rows, inner, i);
    } else {
      FlatDocumentVotes(locale, rows, inner, i);
    }
  }

  lemma {:induction false} AllVotesOfKind(ms: seq<Member>, inner: Inner, nested: bool)
    requires ms != [] && forall m :: m in ms ==> VotesFor(m, inner, nested)
    ensures AllVotes(ms) != [] && AllOfKind(AllVotes(ms), inner)
    ensures HasNamespace(ms) == nested
  {
    assert ms[0] in ms;
    var parts := Map(Votes, ms);
    forall m | m in AllVotes(ms) ensures if inner.Inverted? then m.value.Arr? else m.value.Str? {
      FlattenMember(parts, m);
      var i :| 0 <= i < |parts| && m in parts[i];
      assert ms[i] in ms;
    }
    assert parts[0] == Votes(ms[0]);
    assert forall i :: 0 <= i < |ms| ==> ms[i] in ms;
  }

  lemma {:induction false} DocumentNonEmpty(locale: Collation, rows: seq<Row>, inner: Inner)
    requires inner.Forward? ==> Unique(rows)
    ensures Document(locale, rows, inner) == [] <==> rows == []
  {
    if rows != [] {
      if Nests(rows) {
        RowsHaveNamespaces(rows);
        assert NamespaceOf(rows[0]) in Namespaces(rows);
        OwnOrderPermutes(Map(CatalogueMember(locale, rows, inner), Namespaces(rows)));
      } else {
        TableNonEmpty(locale, rows, inner, DEFAULT_NAMESPACE);
      }
    } else {
      var t := Table(locale, rows, inner);
      TableOfNoRows(locale, inner);
    }
  }

  lemma {:induction false} TableOfNoRows(locale: Collation, inner: Inner)
    ensures Table(locale, [], inner) == []
  {
    assert Map(TitleOf, []) == [] && Dedup<string>([]) == [];
    OwnOrderPermutes([]);
  }

  lemma {:induction false} ShapeOfVotes(ms: seq<Member>, inner: Inner, nested: bool)
    requires ms != [] && forall m :: m in ms ==> VotesFor(m, inner, nested)
    ensures ShapeOf(Obj(ms)) == Some(MapShape(nested, inner, None, false))
  {
    AllVotesOfKind(ms, inner, nested);
    KindCounts(AllVotes(ms), inner);
  }

  lemma {:induction false} BuiltKeysDistinct(ms: seq<Member>)
    requires KeysDistinct(ms)
    ensures KeysDistinct(BuiltMembers(ms))
  {
  }

  /** What holds of every member still does once JSON.parse has put the object together. */
  lemma {:induction false} FromTextKeepsVotes(ms: seq<Member>, inner: Inner, nested: bool)
    requires KeysDistinct(ms) && ms != []
    requires forall i :: 0 <= i < |ms| ==> VotesFor(ms[i], inner, nested)
    ensures ShapeOf(Obj(FromText(ms))) == Some(MapShape(nested, inner, None, false))
  {
    FromTextPermutes(ms);
    SamePermutation(FromText(ms), ms);
    ShapeOfVotes(FromText(ms), inner, nested);
  }

  /** The direction and nesting the parsed document votes for. */
  lemma {:induction false} RenderedVotes(locale: Collation, rows: seq<Row>, inner: Inner)
    requires rows != [] && AllReadable(rows) && (inner.Forward? ==> Unique(rows))
    ensures ShapeOf(Obj(FromText(BuiltMembers(Document(locale, rows, inner)))))
         == Some(MapShape(Nests(rows), inner, None, false))
  {
    var d := Document(locale, rows, inner);
    DocumentNonEmpty(locale, rows, inner);
    DocumentRows(locale, rows, inner);
    BuiltKeysDistinct(d);
    forall i | 0 <= i < |d| ensures VotesFor(BuiltMembers(d)[i], inner, Nests(rows)) {
      DocumentVotes(locale, rows, inner, i);
    }
    FromTextKeepsVotes(BuiltMembers(d), inner, Nests(rows));
  }

  /**
   * The shape read back from a rendered file: nesting as the rows need it, the direction asked for,
   * the layout shown.
   */
  lemma {:induction false} ShapeOfRendered(locale: Collation, rows: seq<Row>, shape: MapShape)
    requires rows != [] && AllReadable(rows) && (shape.inner.Forward? ==> Unique(rows))
    ensures ShapeOfText(Render(locale, rows, shape))
         == Some(Redetected(Document(locale, rows, shape.inner), Nests(rows), shape))
  {
    var d := Document(locale, rows, shape.inner);
    DocumentNonEmpty(locale, rows, shape.inner);
    DocumentPrintable(locale, rows, shape.inner);
    RenderedVotes(locale, rows, shape.inner);
    ShapeOfSerialised(d, Nests(rows), shape);
  }

  lemma {:induction false} ShapeOfSerialised(d: seq<Member>, nested: bool, shape: MapShape)
    requires d != [] && PrintableAll(d)
    requires ShapeOf(Obj(FromText(BuiltMembers(d)))) == Some(MapShape(nested, shape.inner, None, false))
    ensures ShapeOfText(Serialise(d, shape)) == Some(Redetected(d, nested, shape))
  {
    ReadSerialised(d, shape);
    SerialisedKeyLines(d, shape);
  }

  // ---- no change, no commit

  lemma {:induction false} EmptyRendered(locale: Collation, shape: MapShape)
    ensures Render(locale, [], shape) == "{}\n"
    ensures ShapeOfText("{}\n") == None
  {
    TableOfNoRows(locale, shape.inner);
    assert ShapeOfText("{}\n") == None by { EmptyHasNoShape(shape); }
  }

  lemma {:induction false} EmptyHasNoShape(shape: MapShape)
    ensures ShapeOfText("{}\n") == None
  {
    ReadSerialised([], shape);
  }

  /**
   * Syncing the rows a file was rendered from back into it gives the file's own text, exactly when
   * its layout survives.
   */
  lemma {:induction false} SyncTextIsStable(locale: Collation, rows: seq<Row>, others: seq<Row>, shape: MapShape)
    requires TotalPreorder(locale) && AllReadable(rows) && (shape.inner.Forward? ==> Unique(rows))
    requires multiset(rows) == multiset(others)
    ensures SyncText(locale, Render(locale, rows, shape), others) == Render(locale, rows, shape)
       <==> KeepsLayout(Document(locale, rows, shape.inner), Nests(rows), shape)
  {
    SamePermutation(rows, others);
    if rows == [] {
      EmptyRendered(locale, shape);
      EmptyRendered(locale, DEFAULT_SHAPE);
      DocumentNonEmpty(locale, rows, shape.inner);
    } else {
      var d := Document(locale, rows, shape.inner);
      var again := Redetected(d, Nests(rows), shape);
      ShapeOfRendered(locale, rows, shape);
      RenderDependsOnRows(locale, rows, others, again);
      DocumentNonEmpty(locale, rows, shape.inner);
      DocumentPrintable(locale, rows, shape.inner);
      FlatHasNoObjects(locale, rows, shape.inner);
      RerenderedIsSame(d, Nests(rows), shape);
    }
  }

  lemma {:induction false} FlatHasNoObjects(locale: Collation, rows: seq<Row>, inner: Inner)
    ensures !Nests(rows) ==> forall i :: 0 <= i < |Document(locale, rows, inner)| ==>
         !Document(locale, rows, inner)[i].value.Obj?
  {
    TablePrintable(locale, rows, inner);
    var t := Table(locale, rows, inner);
    assert forall i :: 0 <= i < |t| ==> t[i] in t;
  }

  lemma {:induction false} FilterNone<T>(p: T -> bool, s: seq<T>)
    requires forall x :: x in s ==> !p(x)
    ensures Filter(p, s) == []
  {
    if s != [] {
      assert s == [s[0]] + s[1..];
      FilterNone(p, s[1..]);
    }
  }

  /**
   * A file that shows no shape is rewritten flat, titles first, indented by four; and a file is
   * nested exactly for a namespace that has a name.
   */
  lemma {:induction false} ShapelessFile(locale: Collation, text: string, rows: seq<Row>)
    requires ShapeOfText(text) == None
    ensures SyncText(locale, text, rows) == Render(locale, rows, MapShape(false, Inverted, Some(4), false))
    ensures Nests(rows) <==> exists i :: 0 <= i < |rows| && rows[i].namespace != ""
  {
    var four := MapShape(false, Inverted, Some(4), false);
    DocumentPrintable(locale, rows, Inverted);
    SameBlocks(Document(locale, rows, Inverted), 1, DEFAULT_SHAPE, four);
  }

  /** Two shapes with the same indent and alignment give the same lines. */
  lemma {:induction false} SameBlocks(ms: seq<Member>, depth: nat, shape: MapShape, other: MapShape)
    requires PrintableAll(ms) && IndentOf(shape) == IndentOf(other) && shape.align == other.align
    ensures Widest(ms, shape) == Widest(ms, other)
    ensures ObjectBlocks(ms, depth, shape) == ObjectBlocks(ms, depth, other)
    decreases ms, 1
  {
    SameBlocksOf(ms, depth, shape, other, Widest(ms, shape));
  }

  lemma {:induction false} SameBlocksOf(ms: seq<Member>, depth: nat, shape: MapShape, other: MapShape, widest: nat)
    requires PrintableAll(ms) && IndentOf(shape) == IndentOf(other) && shape.align == other.align
    ensures Blocks(ms, depth, shape, widest) == Blocks(ms, depth, other, widest)
    decreases ms, 0
  {
    if ms != [] {
      if ms[0].value.Obj? {
        SameBlocks(ms[0].value.members, depth + 1, shape, other);
      }
      SameBlocksOf(ms[1..], depth, shape, other, widest);
    }
  }

  lemma {:induction false} NothingMissing(a: seq<Row>, b: seq<Row>)
    requires multiset(a) == multiset(b)
    ensures MappingsMissingFrom(a, b) == [] && MappingsMissingFrom(b, a) == []
  {
    SamePermutation(a, b);
    forall r ensures (r in a ==> !Without(Map(RowKey, b))(r)) && (r in b ==> !Without(Map(RowKey, a))(r)) {
      KeyMeansRow(r, a);
      KeyMeansRow(r, b);
    }
    FilterNone(Without(Map(RowKey, b)), a);
    FilterNone(Without(Map(RowKey, a)), b);
  }

  lemma {:induction false} PlanIsUnchanged(file: File, next: File, force: bool)
    ensures PlanWrite(Some(file), next, force).action == Unchanged <==> file.text == next.text
    ensures multiset(file.rows) == multiset(next.rows) ==>
      PlanWrite(Some(file), next, force).removed == 0 && PlanWrite(Some(file), next, force).added == 0
  {
    if multiset(file.rows) == multiset(next.rows) {
      NothingMissing(file.rows, next.rows);
    }
  }

  /** A file rendered from other rows is not what a sync would write. */
  lemma {:induction false} OtherRowsOtherText(locale: Collation, rows: seq<Row>, others: seq<Row>, shape: MapShape)
    requires AllReadable(rows) && AllReadable(others) && Unique(rows) && Unique(others)
    requires multiset(rows) != multiset(others)
    ensures SyncText(locale, Render(locale, rows, shape), others) != Render(locale, rows, shape)
  {
    RenderThenRead(locale, rows, shape);
    RenderThenRead(locale, others,
      match ShapeOfText(Render(locale, rows, shape)) case Some(s) => s case None => DEFAULT_SHAPE);
  }

  /**
   * "The file changed" means "the map changed". For a file this module wrote,
   * a later sync leaves it alone if and only if the database still holds the
   * same rows, in whatever order, and the file's layout is one that survives.
   */
  lemma {:induction false} UnchangedExactlyWhenNothingChanged(
      locale: Collation, rows: seq<Row>, others: seq<Row>, shape: MapShape, force: bool)
    requires TotalPreorder(locale)
    requires AllReadable(rows) && AllReadable(others) && Unique(rows) && Unique(others)
    ensures SyncPlan(locale, Render(locale, rows, shape), others, force).action == Unchanged
       <==> multiset(rows) == multiset(others) && KeepsLayout(Document(locale, rows, shape.inner), Nests(rows), shape)
  {
    var text := Render(locale, rows, shape);
    if multiset(rows) == multiset(others) {
      SyncTextIsStable(locale, rows, others, shape);
    } else {
      OtherRowsOtherText(locale, rows, others, shape);
    }
    PlanIsUnchanged(File(text, ReadRows(text)), File(SyncText(locale, text, others), others), force);
  }

  /** Whatever file is in the repository, leaving it alone means it already says what the database says. */
  lemma {:induction false} UnchangedMeansUpToDate(locale: Collation, text: string, rows: seq<Row>, force: bool)
    requires AllReadable(rows) && Unique(rows)
    requires SyncPlan(locale, text, rows, force).action == Unchanged
    ensures multiset(ReadRows(text)) == multiset(rows)
    ensures SyncPlan(locale, text, rows, force) == Plan(Unchanged, 0, 0)
  {
    var shape := match ShapeOfText(text) case Some(s) => s case None => DEFAULT_SHAPE;
    PlanIsUnchanged(File(text, ReadRows(text)), File(Render(locale, rows, shape), rows), force);
    RenderThenRead(locale, rows, shape);
  }

  /** A written file reads back as the database, and syncing it once more finds nothing missing either way. */
  lemma {:induction false} WrittenFileIsUpToDate(locale: Collation, text: string, rows: seq<Row>)
    requires AllReadable(rows) && Unique(rows)
    ensures multiset(ReadRows(SyncText(locale, text, rows))) == multiset(rows)
    ensures var again := SyncPlan(locale, SyncText(locale, text, rows), rows, false);
            again.removed == 0 && again.added == 0
  {
    RenderThenRead(locale, rows, match ShapeOfText(text) case Some(s) => s case None => DEFAULT_SHAPE);
    var written := SyncText(locale, text, rows);
    PlanIsUnchanged(File(written, ReadRows(written)), File(SyncText(locale, written, rows), rows), false);
  }

  // ---- the guards

  /** A database without mappings never empties a file that has some, forced or not. */
  lemma {:induction false} EmptyDatabaseIsRefused(locale: Collation, text: string, force: bool)
    requires ReadRows(text) != []
    ensures SyncPlan(locale, text, [], force) == Plan(RefusedEmpty, |ReadRows(text)|, 0)
  {
    var written := SyncText(locale, text, []);
    RenderThenRead(locale, [], match ShapeOfText(text) case Some(s) => s case None => DEFAULT_SHAPE);
    SamePermutation(ReadRows(written), []);
    NothingShared(ReadRows(text), []);
  }

  /** A file that is not there is never written: the sync only keeps up what exists. */
  lemma {:induction false} MissingFileIsSkipped(next: File, force: bool)
    ensures PlanWrite(None, next, force).action == Skipped
    ensures PlanWrite(None, next, force).removed == 0 && PlanWrite(None, next, force).added == |next.rows|
  {
  }

  /** Of a file that is there: what is done, exactly when; being forced lifts the shrink guard and nothing else. */
  lemma {:induction false} PlanExactlyWhen(file: File, next: File, force: bool)
    ensures var plan, shrinks := PlanWrite(Some(file), next, force), |file.rows| >= 8 && |next.rows| * 2 < |file.rows|;
            && (plan.action == Unchanged <==> file.text == next.text)
            && (plan.action == RefusedEmpty <==> file.text != next.text && next.rows == [] && file.rows != [])
            && (plan.action == RefusedShrink <==> file.text != next.text && next.rows != [] && shrinks && !force)
            && plan.action != Skipped
            && plan.removed == |MappingsMissingFrom(file.rows, next.rows)|
            && plan.added == |MappingsMissingFrom(next.rows, file.rows)|
  {
  }

  // ---- the shrink guard

  lemma {:induction false} FilterSplits<T>(p: T -> bool, q: T -> bool, s: seq<T>)
    requires forall x :: x in s ==> p(x) != q(x)
    ensures |Filter(p, s)| + |Filter(q, s)| == |s|
  {
    if s != [] {
      assert s == [s[0]] + s[1..];
      FilterSplits(p, q, s[1..]);
    }
  }

  function Also(have: seq<string>): Row -> bool {
    (r: Row) => RowKey(r) in have
  }

  lemma {:induction false} FilterDistinct<T(!new)>(p: T -> bool, s: seq<T>)
    requires Distinct(s)
    ensures Distinct(Filter(p, s))
  {
    forall x ensures multiset(Filter(p, s))[x] <= 1 {
      FilterCount(p, s, x);
      DistinctCount(s, x);
    }
    CountDistinct(Filter(p, s));
  }

  lemma {:induction false} KeptEitherWay(a: seq<Row>, b: seq<Row>)
    requires Distinct(a) && Distinct(b)
    ensures |Filter(Also(Map(RowKey, b)), a)| == |Filter(Also(Map(RowKey, a)), b)|
  {
    var kept, same := Filter(Also(Map(RowKey, b)), a), Filter(Also(Map(RowKey, a)), b);
    FilterDistinct(Also(Map(RowKey, b)), a);
    FilterDistinct(Also(Map(RowKey, a)), b);
    FilterMember(Also(Map(RowKey, b)), a);
    FilterMember(Also(Map(RowKey, a)), b);
    forall r ensures r in kept <==> r in same {
      KeyMeansRow(r, a);
      KeyMeansRow(r, b);
    }
    DistinctSameMembers(kept, same);
    SamePermutation(kept, same);
  }

  lemma {:induction false} KeyMeansRow(r: Row, rows: seq<Row>)
    ensures RowKey(r) in Map(RowKey, rows) <==> r in rows
  {
    var keys := Map(RowKey, rows);
    if r in rows {
      var i :| 0 <= i < |rows| && rows[i] == r;
      assert keys[i] == RowKey(r);
    }
    if RowKey(r) in keys {
      var i :| 0 <= i < |keys| && keys[i] == RowKey(r);
      RowKeyInjective(r, rows[i]);
    }
  }

  /** What is lost and what is gained account for the whole change in size. */
  lemma {:induction false} MissingBalances(a: seq<Row>, b: seq<Row>)
    requires Distinct(a) && Distinct(b)
    ensures |MappingsMissingFrom(a, b)| + |b| == |MappingsMissingFrom(b, a)| + |a|
  {
    FilterSplits(Without(Map(RowKey, b)), Also(Map(RowKey, b)), a);
    FilterSplits(Without(Map(RowKey, a)), Also(Map(RowKey, a)), b);
    KeptEitherWay(a, b);
  }

  /**
   * The guard is documented to refuse a write that deletes more than half of the
   * mappings. What it refuses, short of force and of emptying the file, is a
   * write whose deletions NET OF ITS ADDITIONS are more than half: exactly this.
   */
  lemma {:induction false} ShrinkGuardIsNet(file: File, next: File)
    requires Distinct(file.rows) && Distinct(next.rows)
    requires file.text != next.text && next.rows != [] && |file.rows| >= SHRINK_GUARD_MIN_ROWS
    ensures var plan := PlanWrite(Some(file), next, false);
            plan.action == RefusedShrink <==> 2 * (plan.removed - plan.added) > |file.rows|
  {
    MissingBalances(file.rows, next.rows);
  }

  /**
   * So a file of eight mappings or more can lose every one of them: when the
   * database has none of them any more, but at least half as many others, all
   * are deleted and the write goes ahead.
   */
  lemma {:induction false} ShrinkGuardMissesReplacement(
      locale: Collation, rows: seq<Row>, others: seq<Row>, shape: MapShape)
    requires AllReadable(rows) && AllReadable(others) && Unique(rows) && Unique(others)
    requires |rows| >= SHRINK_GUARD_MIN_ROWS && 2 * |others| >= |rows|
    requires forall r :: !(r in rows && r in others)
    ensures SyncPlan(locale, Render(locale, rows, shape), others, false) == Plan(Write, |rows|, |others|)
  {
    var text, written := Render(locale, rows, shape), SyncText(locale, Render(locale, rows, shape), others);
    FileHolds(locale, rows, shape);
    assert written != text by {
      assert rows[0] in rows && rows[0] !in others;
      DifferentRows(rows, others, rows[0]);
      OtherRowsOtherText(locale, rows, others, shape);
    }
    ReplacementIsWritten(File(text, ReadRows(text)), File(written, others));
  }

  lemma {:induction false} DifferentRows(rows: seq<Row>, others: seq<Row>, r: Row)
    requires r in rows && r !in others
    ensures multiset(rows) != multiset(others)
  {
    assert r in multiset(rows) && r !in multiset(others);
  }

  lemma {:induction false} FileHolds(locale: Collation, rows: seq<Row>, shape: MapShape)
    requires AllReadable(rows) && Unique(rows)
    ensures var file := ReadRows(Render(locale, rows, shape));
            |file| == |rows| && forall r :: r in file <==> r in rows
  {
    RenderThenRead(locale, rows, shape);
    SamePermutation(ReadRows(Render(locale, rows, shape)), rows);
  }

  lemma {:induction false} ReplacementIsWritten(file: File, next: File)
    requires |file.rows| >= SHRINK_GUARD_MIN_ROWS && 2 * |next.rows| >= |file.rows| && file.text != next.text
    requires forall r :: !(r in file.rows && r in next.rows)
    ensures PlanWrite(Some(file), next, false) == Plan(Write, |file.rows|, |next.rows|)
  {
    NothingShared(file.rows, next.rows);
    NothingShared(next.rows, file.rows);
  }

  /** Eight ids of one title. */
  function EightOf(namespace: string, title: string): (rows: seq<Row>)
    ensures |rows| == 8 && forall i :: 0 <= i < 8 ==> rows[i] == Row(namespace, Spaces(i + 1), title)
  {
    seq(8, (i: nat) => Row(namespace, Spaces(i + 1), title))
  }

  lemma {:induction false} EightAreReadable(namespace: string, title: string)
    requires Readable(Row(namespace, "1", title))
    ensures AllReadable(EightOf(namespace, title)) && Unique(EightOf(namespace, title))
  {
    var rows := EightOf(namespace, title);
    forall i, j | 0 <= i < j < 8 ensures rows[i].mangaId != rows[j].mangaId {
      assert |rows[i].mangaId| != |rows[j].mangaId|;
    }
  }

  /** Such as a title's eight ids given to another title, whatever the two titles and the file's form. */
  lemma {:induction false} EightReplaced(
      locale: Collation, namespace: string, title: string, other: string, shape: MapShape)
    requires title != other && Readable(Row(namespace, "1", title)) && Readable(Row(namespace, "1", other))
    ensures SyncPlan(locale, Render(locale, EightOf(namespace, title), shape), EightOf(namespace, other), false)
         == Plan(Write, 8, 8)
  {
    EightAreReadable(namespace, title);
    EightAreReadable(namespace, other);
    ShrinkGuardMissesReplacement(locale, EightOf(namespace, title), EightOf(namespace, other), shape);
  }

  lemma {:induction false} NothingShared(a: seq<Row>, b: seq<Row>)
    requires forall r :: !(r in a && r in b)
    ensures |MappingsMissingFrom(a, b)| == |a|
  {
    forall r | r in a ensures Without(Map(RowKey, b))(r) {
      KeyMeansRow(r, b);
    }
    FilterAll(Without(Map(RowKey, b)), a);
  }

  lemma {:induction false} FilterAll<T>(p: T -> bool, s: seq<T>)
    requires forall x :: x in s ==> p(x)
    ensures Filter(p, s) == s
  {
    if s != [] {
      assert s == [s[0]] + s[1..];
      FilterAll(p, s[1..]);
    }
  }
}
