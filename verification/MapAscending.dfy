/** The order a rendered file is in, told by code units and the collation alone. */
module MapAscending {
  import opened JsStrings
  import opened JsonText
  import opened JsObjects
  import opened Sorting
  import opened MapFile
  import opened MapRoundTrip
  import opened MapOrder

  /** `a` comes before `b` among ids: by the collation, and where it ties by code units. */
  ghost predicate IdBefore(locale: Collation, a: string, b: string) {
    locale(a, b) < 0 || (locale(a, b) == 0 && UnitLess(a, b))
  }

  ghost function ByUnits(): (string, string) -> bool {
    (a: string, b: string) => UnitLess(a, b)
  }

  ghost function ById(locale: Collation): (string, string) -> bool {
    (a: string, b: string) => IdBefore(locale, a, b)
  }

  /** An object's own order: array indices first, by their number, then the other keys, each before the next. */
  ghost predicate KeysAscend(before: (string, string) -> bool, ms: seq<Member>) {
    forall i, j :: 0 <= i < j < |ms| ==>
      && (IsArrayIndex(ms[j].key) ==> IsArrayIndex(ms[i].key) && DigitsValue(ms[i].key) <= DigitsValue(ms[j].key))
      && (!IsArrayIndex(ms[i].key) ==> before(ms[i].key, ms[j].key))
  }

  /** Ids in an array ascend; an id that occurs twice stands twice. */
  ghost predicate IdsAscend(locale: Collation, v: Json) {
    v.Arr? ==>
      forall i, j :: 0 <= i < j < |v.items| && v.items[i].Str? && v.items[j].Str? ==>
        v.items[i].text == v.items[j].text || IdBefore(locale, v.items[i].text, v.items[j].text)
  }

  /** One catalogue's object. */
  ghost predicate TableAscends(locale: Collation, ms: seq<Member>, inner: Inner) {
    && KeysAscend(if inner.Forward? then ById(locale) else ByUnits(), ms)
    && forall i :: 0 <= i < |ms| ==> IdsAscend(locale, ms[i].value)
  }

  // ---- strict order from the comparators

  lemma {:induction false} UnitsStrict(s: seq<string>)
    requires Sorted(KeyOrder(), s) && Distinct(s)
    ensures forall i, j :: 0 <= i < j < |s| ==> UnitLess(s[i], s[j])
  {
    forall i, j | 0 <= i < j < |s| ensures UnitLess(s[i], s[j]) {
      assert KeyOrder()(s[i], s[j]);
    }
  }

  lemma {:induction false} IdLeqMeans(locale: Collation, a: string, b: string)
    requires TotalPreorder(locale)
    ensures IdLeq(locale, a, b) <==> a == b || IdBefore(locale, a, b)
  {
    UnitLeqConnected(a, b);
    assert locale(a, a) > 0 <==> locale(a, a) < 0;
    if UnitLess(b, a) && UnitLess(a, b) { UnitLeqAntisymmetric(a, b); }
  }

  // ---- the own order of an object keeps the order of the other keys

  lemma {:induction false} FilterKeeps<T(!new)>(before: (T, T) -> bool, p: T -> bool, s: seq<T>)
    requires Sorted(before, s)
    ensures Sorted(before, Filter(p, s))
  {
    if s != [] {
      FilterKeeps(before, p, s[1..]);
      FilterMember(p, s[1..]);
      var rest := Filter(p, s[1..]);
      forall k | 0 <= k < |rest| ensures before(s[0], rest[k]) {
        assert rest[k] in s[1..];
        var n :| 0 <= n < |s[1..]| && s[1..][n] == rest[k];
        assert before(s[0], s[n + 1]);
      }
    }
  }

  ghost function KeyBefore(before: (string, string) -> bool): (Member, Member) -> bool {
    (a: Member, b: Member) => before(a.key, b.key)
  }

  lemma {:induction false} IndexOrderIsTotal()
    ensures Connected(IndexLeq()) && Transitive(IndexLeq())
  {
  }

  /** What is inserted in ascending order is kept so, with the array indices sorted out to the front. */
  lemma {:induction false} OwnOrderAscends(before: (string, string) -> bool, ms: seq<Member>)
    requires Sorted(KeyBefore(before), ms)
    ensures KeysAscend(before, OwnOrder(ms))
  {
    var indices, others := Sort(IndexLeq(), Filter(HasIndexKey(), ms)), Filter(HasOtherKey(), ms);
    IndexOrderIsTotal();
    SortSorted(IndexLeq(), Filter(HasIndexKey(), ms));
    SortPermutes(IndexLeq(), Filter(HasIndexKey(), ms));
    FilterMember(HasIndexKey(), ms);
    FilterMember(HasOtherKey(), ms);
    FilterKeeps(KeyBefore(before), HasOtherKey(), ms);
    PartsAscend(before, indices, others);
  }

  lemma {:induction false} PartsAscend(before: (string, string) -> bool, indices: seq<Member>, others: seq<Member>)
    requires Sorted(IndexLeq(), indices) && Sorted(KeyBefore(before), others)
    requires forall m :: m in indices ==> IsArrayIndex(m.key)
    requires forall m :: m in others ==> !IsArrayIndex(m.key)
    ensures KeysAscend(before, indices + others)
  {
    var ms, n := indices + others, |indices|;
    forall i, j | 0 <= i < j < |ms|
      ensures IsArrayIndex(ms[j].key) ==> IsArrayIndex(ms[i].key) && DigitsValue(ms[i].key) <= DigitsValue(ms[j].key)
      ensures !IsArrayIndex(ms[i].key) ==> before(ms[i].key, ms[j].key)
    {
      assert i < n ==> ms[i] in indices;
      assert j < n ==> IndexLeq()(indices[i], indices[j]);
      assert i >= n ==> ms[i] in others && KeyBefore(before)(others[i - n], others[j - n]);
      assert j >= n ==> ms[j] in others;
    }
  }

  // ---- the tables

  lemma {:induction false} TitlesAscend(locale: Collation, rows: seq<Row>)
    ensures Sorted(KeyBefore(ByUnits()), Map(TitleMember(locale, rows), Titles(rows)))
  {
    var titles := Titles(rows);
    KeyOrderIsTotal(titles);
    SortSorted(KeyOrder(), Dedup(Map(TitleOf, rows)));
    SortedDedupDistinct(KeyOrder(), Map(TitleOf, rows));
    UnitsStrict(titles);
  }

  lemma {:induction false} NamespacesAscend(locale: Collation, rows: seq<Row>, inner: Inner)
    ensures Sorted(KeyBefore(ByUnits()), Map(CatalogueMember(locale, rows, inner), Namespaces(rows)))
  {
    var names := Namespaces(rows);
    KeyOrderIsTotal(names);
    SortSorted(KeyOrder(), Dedup(Map(NamespaceOf, rows)));
    SortedDedupDistinct(KeyOrder(), Map(NamespaceOf, rows));
    UnitsStrict(names);
  }

  lemma {:induction false} IdsOfTitleAscend(locale: Collation, rows: seq<Row>, title: string)
    requires TotalPreorder(locale)
    ensures IdsAscend(locale, InvertedMember(locale, rows, title).value)
  {
    var ids := Sort(IdOrder(locale), IdsOf(rows, title));
    IdOrderIsTotal(locale, IdsOf(rows, title));
    SortSorted(IdOrder(locale), IdsOf(rows, title));
    forall i, j | 0 <= i < j < |ids| ensures ids[i] == ids[j] || IdBefore(locale, ids[i], ids[j]) {
      assert IdOrder(locale)(ids[i], ids[j]);
      IdLeqMeans(locale, ids[i], ids[j]);
    }
  }

  lemma {:induction false} ForwardAscends(locale: Collation, rows: seq<Row>, namespace: string)
    requires TotalPreorder(locale) && Unique(rows) && AllIn(rows, namespace)
    ensures var plain := Map(ForwardMember, Sort(RowOrder(locale), rows));
            Sorted(KeyBefore(ById(locale)), plain) && Table(locale, rows, Forward) == OwnOrder(plain)
  {
    var sorted := Sort(RowOrder(locale), rows);
    var plain, ms := Map(ForwardMember, rows), Map(ForwardMember, sorted);
    RowOrderIsTotal(locale, rows, namespace);
    SortSorted(RowOrder(locale), rows);
    SortPermutes(RowOrder(locale), rows);
    MapPermutes(ForwardMember, sorted, rows);
    assert KeysDistinct(plain);
    DistinctKeysPermute(plain, ms);
    assert [] + ms == ms;
    PutAllDistinct([], ms);
    forall i, j | 0 <= i < j < |ms| ensures IdBefore(locale, ms[i].key, ms[j].key) {
      assert RowOrder(locale)(sorted[i], sorted[j]);
      IdLeqMeans(locale, sorted[i].mangaId, sorted[j].mangaId);
    }
  }

  lemma {:induction false} TableIsAscending(locale: Collation, rows: seq<Row>, inner: Inner, namespace: string)
    requires TotalPreorder(locale) && AllIn(rows, namespace) && (inner.Forward? ==> Unique(rows))
    ensures TableAscends(locale, Table(locale, rows, inner), inner)
  {
    var t := Table(locale, rows, inner);
    if inner.Forward? {
      ForwardAscends(locale, rows, namespace);
      var plain := Map(ForwardMember, Sort(RowOrder(locale), rows));
      OwnOrderAscends(ById(locale), plain);
      OwnOrderPermutes(plain);
      forall i | 0 <= i < |t| ensures IdsAscend(locale, t[i].value) {
        assert t[i] in plain;
      }
    } else {
      var plain := Map(TitleMember(locale, rows), Titles(rows));
      TitlesAscend(locale, rows);
      OwnOrderAscends(ByUnits(), plain);
      OwnOrderPermutes(plain);
      forall i | 0 <= i < |t| ensures IdsAscend(locale, t[i].value) {
        assert t[i] in plain;
        IdsOfTitleAscend(locale, rows, t[i].key);
      }
    }
  }

  /**
   * Every object of a rendered file is in ascending order: namespaces and
   * titles by code units, external ids by the collation with code units to
   * break its ties, array indices always first and by number; and the ids of
   * each title ascend too.
   */
  lemma {:induction false} DocumentAscends(locale: Collation, rows: seq<Row>, inner: Inner)
    requires TotalPreorder(locale) && (inner.Forward? ==> Unique(rows))
    ensures var d := Document(locale, rows, inner);
            if Nests(rows)
            then KeysAscend(ByUnits(), d)
                 && forall i :: 0 <= i < |d| ==> d[i].value.Obj? && TableAscends(locale, d[i].value.members, inner)
            else TableAscends(locale, d, inner)
  {
    var d := Document(locale, rows, inner);
    if Nests(rows) {
      var plain := Map(CatalogueMember(locale, rows, inner), Namespaces(rows));
      NamespacesAscend(locale, rows, inner);
      OwnOrderAscends(ByUnits(), plain);
      OwnOrderPermutes(plain);
      forall i | 0 <= i < |d| ensures d[i].value.Obj? && TableAscends(locale, d[i].value.members, inner) {
        assert d[i] in plain;
        InNamespaceKeeps(rows, d[i].key);
        TableIsAscending(locale, InNamespace(rows, d[i].key), inner, d[i].key);
      }
    } else {
      FlatIsOneNamespace(rows);
      TableIsAscending(locale, rows, inner, DEFAULT_NAMESPACE);
    }
  }

  lemma {:induction false} FlatIsOneNamespace(rows: seq<Row>)
    requires !Nests(rows)
    ensures AllIn(rows, DEFAULT_NAMESPACE)
  {
  }
}
