/** The rendered text depends on the set of rows, never on the order they arrive in. */
module MapOrder {
  import opened JsStrings
  import opened JsonText
  import opened JsObjects
  import opened Sorting
  import opened MapFile
  import opened MapRoundTrip

  lemma {:induction false} KeyOrderIsTotal(s: seq<string>)
    ensures Connected(KeyOrder()) && Transitive(KeyOrder()) && Separates(KeyOrder(), s)
  {
    var leq := KeyOrder();
    forall a, b ensures leq(a, b) || leq(b, a) {
      UnitLeqConnected(a, b);
    }
    forall a, b, c ensures leq(a, b) && leq(b, c) ==> leq(a, c) {
      UnitOrder(a, b, c);
    }
    forall a, b | a in s && b in s && leq(a, b) && leq(b, a) ensures a == b {
      UnitOrder(a, b, a);
    }
  }

  lemma {:induction false} IdOrderIsTotal(locale: Collation, s: seq<string>)
    requires TotalPreorder(locale)
    ensures Connected(IdOrder(locale)) && Transitive(IdOrder(locale)) && Separates(IdOrder(locale), s)
  {
    var leq := IdOrder(locale);
    forall a, b ensures leq(a, b) || leq(b, a) {
      CompareIdsIsTotalOrder(locale, a, b, a);
    }
    forall a, b, c ensures leq(a, b) && leq(b, c) ==> leq(a, c) {
      CompareIdsIsTotalOrder(locale, a, b, c);
    }
    forall a, b | a in s && b in s && leq(a, b) && leq(b, a) ensures a == b {
      CompareIdsIsTotalOrder(locale, a, b, a);
    }
  }

  /** Within one catalogue, rows unique on the external id never tie. */
  lemma {:induction false} RowOrderIsTotal(locale: Collation, rows: seq<Row>, namespace: string)
    requires TotalPreorder(locale) && Unique(rows) && AllIn(rows, namespace)
    ensures Connected(RowOrder(locale)) && Transitive(RowOrder(locale)) && Separates(RowOrder(locale), rows)
  {
    var leq := RowOrder(locale);
    forall a, b ensures leq(a, b) || leq(b, a) {
      CompareIdsIsTotalOrder(locale, a.mangaId, b.mangaId, a.mangaId);
    }
    forall a, b, c ensures leq(a, b) && leq(b, c) ==> leq(a, c) {
      CompareIdsIsTotalOrder(locale, a.mangaId, b.mangaId, c.mangaId);
    }
    forall a, b | a in rows && b in rows && leq(a, b) && leq(b, a) ensures a == b {
      CompareIdsIsTotalOrder(locale, a.mangaId, b.mangaId, a.mangaId);
      var i :| 0 <= i < |rows| && rows[i] == a;
      var j :| 0 <= j < |rows| && rows[j] == b;
      assert i == j;
    }
  }

  lemma {:induction false} SortedValuesDependOnRows(f: Row -> string, rows: seq<Row>, others: seq<Row>)
    requires multiset(rows) == multiset(others)
    ensures Sort(KeyOrder(), Dedup(Map(f, rows))) == Sort(KeyOrder(), Dedup(Map(f, others)))
  {
    MapPermutes(f, rows, others);
    SamePermutation(Map(f, rows), Map(f, others));
    DistinctSameMembers(Dedup(Map(f, rows)), Dedup(Map(f, others)));
    KeyOrderIsTotal(Dedup(Map(f, rows)));
    SortDependsOnElements(KeyOrder(), Dedup(Map(f, rows)), Dedup(Map(f, others)));
  }

  lemma {:induction false} InvertedMemberDependsOnRows(
      locale: Collation, rows: seq<Row>, others: seq<Row>, title: string)
    requires TotalPreorder(locale) && multiset(rows) == multiset(others)
    ensures InvertedMember(locale, rows, title) == InvertedMember(locale, others, title)
  {
    FilterByPermutes(TitleOf, title, rows, others);
    MapPermutes(MangaIdOf, OfTitle(rows, title), OfTitle(others, title));
    IdOrderIsTotal(locale, IdsOf(rows, title));
    SortDependsOnElements(IdOrder(locale), IdsOf(rows, title), IdsOf(others, title));
  }

  lemma {:induction false} TableDependsOnRows(
      locale: Collation, rows: seq<Row>, others: seq<Row>, inner: Inner, namespace: string)
    requires TotalPreorder(locale) && multiset(rows) == multiset(others) && AllIn(rows, namespace)
    requires inner.Forward? ==> Unique(rows)
    ensures Table(locale, rows, inner) == Table(locale, others, inner)
  {
    if inner.Forward? {
      RowOrderIsTotal(locale, rows, namespace);
      SortDependsOnElements(RowOrder(locale), rows, others);
    } else {
      SortedValuesDependOnRows(TitleOf, rows, others);
      var titles := Titles(rows);
      var a, b := Map(TitleMember(locale, rows), titles), Map(TitleMember(locale, others), titles);
      forall i | 0 <= i < |titles| ensures a[i] == b[i] {
        InvertedMemberDependsOnRows(locale, rows, others, titles[i]);
      }
      assert a == b;
    }
  }

  lemma {:induction false} DocumentDependsOnRows(locale: Collation, rows: seq<Row>, others: seq<Row>, inner: Inner)
    requires TotalPreorder(locale) && multiset(rows) == multiset(others)
    requires inner.Forward? ==> Unique(rows)
    ensures Nests(rows) == Nests(others)
    ensures Document(locale, rows, inner) == Document(locale, others, inner)
  {
    SamePermutation(rows, others);
    NestsByMembership(rows);
    NestsByMembership(others);
    if Nests(rows) {
      SortedValuesDependOnRows(NamespaceOf, rows, others);
      var names := Namespaces(rows);
      var a, b := Map(CatalogueMember(locale, rows, inner), names), Map(CatalogueMember(locale, others, inner), names);
      forall i | 0 <= i < |names| ensures a[i] == b[i] {
        FilterByPermutes(NamespaceOf, names[i], rows, others);
        InNamespaceKeeps(rows, names[i]);
        TableDependsOnRows(locale, InNamespace(rows, names[i]), InNamespace(others, names[i]), inner, names[i]);
      }
      assert a == b;
    } else {
      TableDependsOnRows(locale, rows, others, inner, DEFAULT_NAMESPACE);
    }
  }

  lemma {:induction false} NestsByMembership(rows: seq<Row>)
    ensures Nests(rows) <==> exists r :: r in rows && NamespaceOf(r) != DEFAULT_NAMESPACE
  {
    if r :| r in rows && NamespaceOf(r) != DEFAULT_NAMESPACE {
      var i :| 0 <= i < |rows| && rows[i] == r;
    }
    if Nests(rows) {
      var i :| 0 <= i < |rows| && rows[i].namespace != DEFAULT_NAMESPACE;
      assert rows[i] in rows && NamespaceOf(rows[i]) != DEFAULT_NAMESPACE;
    }
  }

  /** Any permutation of the rows renders to the same characters. */
  lemma {:induction false} RenderDependsOnRows(locale: Collation, rows: seq<Row>, others: seq<Row>, shape: MapShape)
    requires TotalPreorder(locale) && multiset(rows) == multiset(others)
    requires shape.inner.Forward? ==> Unique(rows)
    ensures Render(locale, rows, shape) == Render(locale, others, shape)
  {
    DocumentDependsOnRows(locale, rows, others, shape.inner);
  }
}
