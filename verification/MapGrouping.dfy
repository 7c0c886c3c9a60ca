/** The loops of the renderer that build the document: grouping rows and filling objects. */
module MapGrouping {
  import opened JsStrings
  import opened JsonText
  import opened JsObjects
  import opened Sorting
  import opened MapFile
  import opened MapRoundTrip

  lemma {:induction false} PutAllAppend(ms: seq<Member>, more: seq<Member>, m: Member)
    ensures PutAll(ms, more + [m]) == Put(PutAll(ms, more), m)
    decreases |more|
  {
    if more == [] {
      assert more + [m] == [m];
    } else {
      assert (more + [m])[1..] == more[1..] + [m];
      PutAllAppend(Put(ms, more[0]), more[1..], m);
    }
  }

  lemma {:induction false} MapStep<T, U>(f: T -> U, s: seq<T>, i: nat)
    requires i < |s|
    ensures Map(f, s[..i + 1]) == Map(f, s[..i]) + [f(s[i])]
  {
    assert s[..i + 1] == s[..i] + [s[i]];
    MapAppend(f, s[..i], [s[i]]);
  }

  lemma {:induction false} IdsOfStep(rows: seq<Row>, i: nat, title: string)
    requires i < |rows|
    ensures rows[i].mdMangaId == title ==> IdsOf(rows[..i + 1], title) == IdsOf(rows[..i], title) + [rows[i].mangaId]
    ensures rows[i].mdMangaId != title ==> IdsOf(rows[..i + 1], title) == IdsOf(rows[..i], title)
  {
    assert rows[..i + 1] == rows[..i] + [rows[i]];
    FilterByAppend(TitleOf, title, rows[..i], rows[i]);
    if rows[i].mdMangaId == title {
      MapAppend(MangaIdOf, OfTitle(rows[..i], title), [rows[i]]);
    } else {
      assert OfTitle(rows[..i], title) + [] == OfTitle(rows[..i], title);
    }
  }

  lemma {:induction false} TitlesStep(rows: seq<Row>, i: nat)
    requires i < |rows|
    ensures var seen := Dedup(Map(TitleOf, rows[..i]));
            Dedup(Map(TitleOf, rows[..i + 1]))
              == if rows[i].mdMangaId in seen then seen else seen + [rows[i].mdMangaId]
  {
    MapStep(TitleOf, rows, i);
    var all := Map(TitleOf, rows[..i + 1]);
    assert all[..|all| - 1] == Map(TitleOf, rows[..i]);
  }

  lemma {:induction false} FilterByNone<T, K>(f: T -> K, k: K, s: seq<T>)
    requires forall i :: 0 <= i < |s| ==> f(s[i]) != k
    ensures FilterBy(f, k, s) == []
  {
    if s != [] {
      FilterByNone(f, k, s[1..]);
    }
  }

  /** A title no row so far names has no ids. */
  lemma {:induction false} NoIdsYet(rows: seq<Row>, title: string)
    requires title !in Dedup(Map(TitleOf, rows))
    ensures IdsOf(rows, title) == []
  {
    var all := Map(TitleOf, rows);
    forall i | 0 <= i < |rows| ensures TitleOf(rows[i]) != title {
      assert all[i] in all;
    }
    FilterByNone(TitleOf, title, rows);
  }

  /** The buckets are those of the titles. */
  ghost predicate SameKeys(titles: seq<string>, buckets: map<string, seq<string>>) {
    forall t :: t in buckets <==> t in titles
  }

  ghost predicate FilledFrom(rows: seq<Row>, buckets: map<string, seq<string>>) {
    forall t :: t in buckets ==> buckets[t] == IdsOf(rows, t)
  }

  /** One bucket of ids per title, titles in the order they first occur. */
  ghost predicate Grouped(rows: seq<Row>, titles: seq<string>, buckets: map<string, seq<string>>) {
    titles == Dedup(Map(TitleOf, rows)) && SameKeys(titles, buckets) && FilledFrom(rows, buckets)
  }

  lemma {:induction false} FilledStep(rows: seq<Row>, i: nat, buckets: map<string, seq<string>>, bucket: seq<string>)
    requires i < |rows| && FilledFrom(rows[..i], buckets)
    requires bucket == IdsOf(rows[..i], rows[i].mdMangaId) + [rows[i].mangaId]
    ensures FilledFrom(rows[..i + 1], buckets[rows[i].mdMangaId := bucket])
  {
    var t := rows[i].mdMangaId;
    var after := buckets[t := bucket];
    forall u | u in after ensures after[u] == IdsOf(rows[..i + 1], u) {
      IdsOfStep(rows, i, u);
      if u != t { assert u in buckets && after[u] == buckets[u]; }
    }
  }

  lemma {:induction false} NewKey(
      titles: seq<string>, buckets: map<string, seq<string>>, t: string, bucket: seq<string>)
    requires SameKeys(titles, buckets)
    ensures SameKeys(titles + [t], buckets[t := bucket])
  {
    forall u ensures u in buckets[t := bucket] <==> u in titles + [t] {
      assert u in titles + [t] <==> u in titles || u == t;
    }
  }

  lemma {:induction false} KnownKey(
      titles: seq<string>, buckets: map<string, seq<string>>, t: string, bucket: seq<string>)
    requires SameKeys(titles, buckets) && t in buckets
    ensures SameKeys(titles, buckets[t := bucket])
  {
  }

  lemma {:induction false} TitlesNow(rows: seq<Row>, i: nat, titles: seq<string>)
    requires i < |rows| && titles == Dedup(Map(TitleOf, rows[..i]))
    ensures rows[i].mdMangaId in titles ==> Dedup(Map(TitleOf, rows[..i + 1])) == titles
    ensures rows[i].mdMangaId !in titles ==> Dedup(Map(TitleOf, rows[..i + 1])) == titles + [rows[i].mdMangaId]
  {
    TitlesStep(rows, i);
  }

  method GroupByTitle(rows: seq<Row>) returns (titles: seq<string>, buckets: map<string, seq<string>>)
    ensures Grouped(rows, titles, buckets)
  {
    titles, buckets := [], map[];
    for i := 0 to |rows|
      invariant Grouped(rows[..i], titles, buckets)
    {
      var row := rows[i];
      TitlesNow(rows, i, titles);
      if row.mdMangaId in buckets {
        var bucket := buckets[row.mdMangaId] + [row.mangaId];
        FilledStep(rows, i, buckets, bucket);
        KnownKey(titles, buckets, row.mdMangaId, bucket);
        buckets := buckets[row.mdMangaId := bucket];
      } else {
        NoIdsYet(rows[..i], row.mdMangaId);
        FilledStep(rows, i, buckets, [row.mangaId]);
        NewKey(titles, buckets, row.mdMangaId, [row.mangaId]);
        titles := titles + [row.mdMangaId];
        buckets := buckets[row.mdMangaId := [row.mangaId]];
      }
    }
    assert rows[..|rows|] == rows;
  }

  /** The object of one catalogue, filled property by property. */
  method FlatTable(locale: Collation, rows: seq<Row>, inner: Inner) returns (table: seq<Member>)
    ensures table == Table(locale, rows, inner)
  {
    var out: seq<Member> := [];
    if inner.Forward? {
      var sorted := Sort(RowOrder(locale), rows);
      for i := 0 to |sorted|
        invariant out == PutAll([], Map(ForwardMember, sorted[..i]))
      {
        MapStep(ForwardMember, sorted, i);
        PutAllAppend([], Map(ForwardMember, sorted[..i]), ForwardMember(sorted[i]));
        out := Put(out, Member(sorted[i].mangaId, Str(sorted[i].mdMangaId)));
      }
      assert sorted[..|sorted|] == sorted;
      return OwnOrder(out);
    }
    var found, buckets := GroupByTitle(rows);
    var titles := Sort(KeyOrder(), found);
    SortedDedupDistinct(KeyOrder(), Map(TitleOf, rows));
    SortPermutes(KeyOrder(), found);
    for i := 0 to |titles|
      invariant out == Map(TitleMember(locale, rows), titles[..i])
    {
      assert titles[i] in found;
      MapStep(TitleMember(locale, rows), titles, i);
      var m := Member(titles[i], Arr(Strs(Sort(IdOrder(locale), buckets[titles[i]]))));
      forall k | 0 <= k < i ensures out[k].key != titles[i] {
        assert out[k] == TitleMember(locale, rows)(titles[..i][k]);
      }
      PutNewKey(out, m);
      out := Put(out, m);
    }
    assert titles[..|titles|] == titles;
    return OwnOrder(out);
  }

  /** Rendering, with the loops the source runs. */
  method RenderMapFile(locale: Collation, rows: seq<Row>, shape: MapShape) returns (text: string)
    ensures text == Render(locale, rows, shape)
  {
    DocumentPrintable(locale, rows, shape.inner);
    if !Nests(rows) {
      var table := FlatTable(locale, rows, shape.inner);
      return Serialise(table, shape);
    }
    var names := Sort(KeyOrder(), Dedup(Map(NamespaceOf, rows)));
    var out: seq<Member> := [];
    for i := 0 to |names|
      invariant out == Map(CatalogueMember(locale, rows, shape.inner), names[..i])
    {
      MapStep(CatalogueMember(locale, rows, shape.inner), names, i);
      var table := FlatTable(locale, InNamespace(rows, names[i]), shape.inner);
      out := out + [Member(names[i], Obj(table))];
    }
    assert names[..|names|] == names;
    text := Serialise(OwnOrder(out), shape);
  }
}
