/** The re-runnable migration passes, and what re-running, refreshing and rehearsing them does. */
module Migration {
  import opened JsStrings
  import opened JsonText
  import opened Sorting

  /** A source document: its key unless the pass skips it, what its columns hold, and its insert-only timestamp. */
  datatype Doc = Doc(key: Option<string>, columns: string, stamp: int)

  datatype Row = Row(columns: string, stamp: int)

  type Table = map<string, Row>

  // ---- batches

  lemma {:induction false} FlattenSnoc<T>(parts: seq<seq<T>>, part: seq<T>)
    ensures Flatten(parts + [part]) == Flatten(parts) + part
  {
    if parts == [] {
      assert parts + [part] == [part];
      assert Flatten([part]) == part + Flatten<T>([]);
    } else {
      assert (parts + [part])[1..] == parts[1..] + [part];
      FlattenSnoc(parts[1..], part);
    }
  }

  /** `batches`: every document once, in order, in full batches but for the last. */
  method Batches<T>(docs: seq<T>, size: nat) returns (out: seq<seq<T>>)
    requires size > 0
    ensures Flatten(out) == docs
    ensures forall i :: 0 <= i < |out| ==> 0 < |out[i]| <= size && (i < |out| - 1 ==> |out[i]| == size)
  {
    out := [];
    var buffer: seq<T> := [];
    for n := 0 to |docs|
      invariant Flatten(out) + buffer == docs[..n]
      invariant |buffer| < size
      invariant forall i :: 0 <= i < |out| ==> |out[i]| == size
    {
      buffer := buffer + [docs[n]];
      if |buffer| >= size {
        FlattenSnoc(out, buffer);
        out := out + [buffer];
        buffer := [];
      }
    }
    if |buffer| > 0 {
      FlattenSnoc(out, buffer);
      out := out + [buffer];
    }
  }

  // ---- what the database does

  predicate HasKey(d: Doc) { d.key.Some? }

  function Keyed(docs: seq<Doc>): (rows: seq<Doc>)
    ensures forall i :: 0 <= i < |rows| ==> rows[i].key.Some?
    ensures |rows| <= |docs|
  {
    if docs == [] then []
    else
      var d := docs[|docs| - 1];
      Keyed(docs[..|docs| - 1]) + if HasKey(d) then [d] else []
  }

  function KeyOf(d: Doc): string {
    if d.key.Some? then d.key.value else ""
  }

  function Insert(t: Table, d: Doc): Table {
    if KeyOf(d) in t then t else t[KeyOf(d) := Row(d.columns, d.stamp)]
  }

  /** `createMany` with `skipDuplicates`: a key that is there, from before or from an earlier row, is left alone. */
  function CreateMany(t: Table, rows: seq<Doc>): Table {
    if rows == [] then t else Insert(CreateMany(t, rows[..|rows| - 1]), rows[|rows| - 1])
  }

  /** How many rows it inserts. */
  function Fresh(t: Table, rows: seq<Doc>): (n: nat)
    ensures n <= |rows|
  {
    if rows == [] then 0
    else
      Fresh(t, rows[..|rows| - 1])
      + if KeyOf(rows[|rows| - 1]) in CreateMany(t, rows[..|rows| - 1]) then 0 else 1
  }

  function Update(t: Table, d: Doc): Table {
    if KeyOf(d) in t then t[KeyOf(d) := t[KeyOf(d)].(columns := d.columns)] else t
  }

  /** The refresh loop: every row rewrites the columns of its key, in order. */
  function UpdateAll(t: Table, rows: seq<Doc>): Table {
    if rows == [] then t else Update(UpdateAll(t, rows[..|rows| - 1]), rows[|rows| - 1])
  }

  /** The target table, changed in place. */
  class Target {
    var rows: Table

    constructor (rows: Table)
      ensures this.rows == rows
    {
      this.rows := rows;
    }

    method CreateManySkippingDuplicates(docs: seq<Doc>) returns (count: nat)
      modifies this
      ensures rows == CreateMany(old(rows), docs) && count == Fresh(old(rows), docs)
    {
      count := 0;
      for i := 0 to |docs|
        invariant rows == CreateMany(old(rows), docs[..i]) && count == Fresh(old(rows), docs[..i])
      {
        assert docs[..i + 1][..i] == docs[..i];
        if KeyOf(docs[i]) !in rows {
          rows := rows[KeyOf(docs[i]) := Row(docs[i].columns, docs[i].stamp)];
          count := count + 1;
        }
      }
      assert docs[..|docs|] == docs;
    }

    method UpdateEach(docs: seq<Doc>)
      modifies this
      ensures rows == UpdateAll(old(rows), docs)
    {
      for i := 0 to |docs|
        invariant rows == UpdateAll(old(rows), docs[..i])
      {
        assert docs[..i + 1][..i] == docs[..i];
        if KeyOf(docs[i]) in rows {
          rows := rows[KeyOf(docs[i]) := rows[KeyOf(docs[i])].(columns := docs[i].columns)];
        }
      }
      assert docs[..|docs|] == docs;
    }
  }

  // ---- the uploaded pass

  /** What one batch leaves in the table. */
  function UploadedBatch(t: Table, docs: seq<Doc>, refresh: bool): Table {
    var rows := Keyed(docs);
    if refresh && Fresh(t, rows) < |rows| then UpdateAll(CreateMany(t, rows), rows) else CreateMany(t, rows)
  }

  function UploadedTable(t: Table, batches: seq<seq<Doc>>, refresh: bool): Table {
    if batches == [] then t
    else UploadedBatch(UploadedTable(t, batches[..|batches| - 1], refresh), batches[|batches| - 1], refresh)
  }

  function UploadedInserted(t: Table, batches: seq<seq<Doc>>, refresh: bool): nat {
    if batches == [] then 0
    else
      UploadedInserted(t, batches[..|batches| - 1], refresh)
      + Fresh(UploadedTable(t, batches[..|batches| - 1], refresh), Keyed(batches[|batches| - 1]))
  }

  /** `migrateUploaded`: every source document is counted as inserted or skipped. */
  method MigrateUploaded(target: Target, batches: seq<seq<Doc>>, refresh: bool, dryRun: bool)
    returns (source: nat, inserted: nat, skipped: nat)
    modifies target
    ensures source == |Flatten(batches)| && inserted + skipped == source
    ensures dryRun ==> target.rows == old(target.rows) && inserted == |Keyed(Flatten(batches))|
    ensures !dryRun ==> target.rows == UploadedTable(old(target.rows), batches, refresh)
                        && inserted == UploadedInserted(old(target.rows), batches, refresh)
  {
    source, inserted, skipped := 0, 0, 0;
    for i := 0 to |batches|
      invariant source == |Flatten(batches[..i])| && inserted + skipped == source
      invariant dryRun ==> target.rows == old(target.rows) && inserted == |Keyed(Flatten(batches[..i]))|
      invariant !dryRun ==> target.rows == UploadedTable(old(target.rows), batches[..i], refresh)
                            && inserted == UploadedInserted(old(target.rows), batches[..i], refresh)
    {
      var docs := batches[i];
      BatchStep(old(target.rows), batches, i, refresh);
      source := source + |docs|;
      var rows := Keyed(docs);
      skipped := skipped + (|docs| - |rows|);
      if dryRun {
        inserted := inserted + |rows|;
      } else if |rows| > 0 {
        var count := target.CreateManySkippingDuplicates(rows);
        inserted := inserted + count;
        skipped := skipped + (|rows| - count);
        if refresh && count < |rows| {
          target.UpdateEach(rows);
        }
      }
    }
    assert batches[..|batches|] == batches;
  }

  /** One more batch, for every quantity the pass keeps. */
  lemma {:induction false} BatchStep(t: Table, batches: seq<seq<Doc>>, i: nat, refresh: bool)
    requires i < |batches|
    ensures |Flatten(batches[..i + 1])| == |Flatten(batches[..i])| + |batches[i]|
    ensures |Keyed(Flatten(batches[..i + 1]))| == |Keyed(Flatten(batches[..i]))| + |Keyed(batches[i])|
    ensures var before := UploadedTable(t, batches[..i], refresh);
            && UploadedTable(t, batches[..i + 1], refresh) == UploadedBatch(before, batches[i], refresh)
            && UploadedInserted(t, batches[..i + 1], refresh)
               == UploadedInserted(t, batches[..i], refresh) + Fresh(before, Keyed(batches[i]))
  {
    assert batches[..i + 1] == batches[..i] + [batches[i]];
    assert batches[..i + 1][..i] == batches[..i];
    FlattenSnoc(batches[..i], batches[i]);
    KeyedAppend(Flatten(batches[..i]), batches[i]);
  }

  lemma {:induction false} KeyedAppend(a: seq<Doc>, b: seq<Doc>)
    ensures Keyed(a + b) == Keyed(a) + Keyed(b)
  {
    if b == [] {
      assert a + b == a;
    } else {
      assert (a + b)[..|a + b| - 1] == a + b[..|b| - 1];
      KeyedAppend(a, b[..|b| - 1]);
    }
  }

  // ---- refreshing

  /** Insert a new key, or rewrite the columns of a known one. */
  function Upsert(t: Table, d: Doc): Table {
    if KeyOf(d) in t then t[KeyOf(d) := t[KeyOf(d)].(columns := d.columns)] else t[KeyOf(d) := Row(d.columns, d.stamp)]
  }

  function UpsertAll(t: Table, rows: seq<Doc>): Table {
    if rows == [] then t else Upsert(UpsertAll(t, rows[..|rows| - 1]), rows[|rows| - 1])
  }

  lemma {:induction false} UpsertKeys(t: Table, rows: seq<Doc>)
    ensures forall k :: k in UpsertAll(t, rows) <==> k in CreateMany(t, rows)
  {
    if rows != [] {
      UpsertKeys(t, rows[..|rows| - 1]);
    }
  }

  /** Rewriting other keys does not touch a row put in. */
  lemma {:induction false} UpdateAround(t: Table, rows: seq<Doc>, k: string, row: Row)
    requires forall i :: 0 <= i < |rows| ==> KeyOf(rows[i]) != k
    ensures UpdateAll(t[k := row], rows) == UpdateAll(t, rows)[k := row]
  {
    if rows != [] {
      UpdateAround(t, rows[..|rows| - 1], k, row);
    }
  }

  lemma {:induction false} CreatedKeys(t: Table, rows: seq<Doc>, i: nat)
    requires i < |rows|
    ensures KeyOf(rows[i]) in CreateMany(t, rows)
  {
    if i < |rows| - 1 {
      CreatedKeys(t, rows[..|rows| - 1], i);
    }
  }

  lemma {:induction false} UpdateIsUpsert(t: Table, rows: seq<Doc>)
    ensures UpdateAll(CreateMany(t, rows), rows) == UpsertAll(t, rows)
  {
    if rows != [] {
      var init, d := rows[..|rows| - 1], rows[|rows| - 1];
      var created := CreateMany(t, init);
      UpdateIsUpsert(t, init);
      UpsertKeys(t, init);
      if KeyOf(d) !in created {
        forall i | 0 <= i < |init| ensures KeyOf(init[i]) != KeyOf(d) {
          CreatedKeys(t, init, i);
        }
        UpdateAround(created, init, KeyOf(d), Row(d.columns, d.stamp));
      }
    }
  }

  lemma {:induction false} AllFreshIsUpsert(t: Table, rows: seq<Doc>)
    requires Fresh(t, rows) == |rows|
    ensures CreateMany(t, rows) == UpsertAll(t, rows)
  {
    if rows != [] {
      AllFreshIsUpsert(t, rows[..|rows| - 1]);
    }
  }

  lemma {:induction false} UpsertAppend(t: Table, a: seq<Doc>, b: seq<Doc>)
    ensures UpsertAll(t, a + b) == UpsertAll(UpsertAll(t, a), b)
  {
    if b == [] {
      assert a + b == a;
    } else {
      assert (a + b)[..|a + b| - 1] == a + b[..|b| - 1];
      UpsertAppend(t, a, b[..|b| - 1]);
    }
  }

  /** A refreshing pass upserts the documents one by one, whatever the batches are. */
  lemma {:induction false} RefreshUpserts(t: Table, batches: seq<seq<Doc>>)
    ensures UploadedTable(t, batches, true) == UpsertAll(t, Keyed(Flatten(batches)))
  {
    if batches != [] {
      var init, docs := batches[..|batches| - 1], batches[|batches| - 1];
      var before, rows := UploadedTable(t, init, true), Keyed(docs);
      RefreshUpserts(t, init);
      AllKeyedOf(batches);
      UpsertAppend(t, Keyed(Flatten(init)), rows);
      if Fresh(before, rows) < |rows| {
        UpdateIsUpsert(before, rows);
      } else {
        AllFreshIsUpsert(before, rows);
      }
    }
  }

  predicate Mentions(rows: seq<Doc>, k: string) {
    exists i :: 0 <= i < |rows| && rows[i].key == Some(k)
  }

  /** The columns of the last document with a key. */
  function LastColumns(docs: seq<Doc>, k: string): string
    requires Mentions(docs, k)
  {
    if docs[|docs| - 1].key == Some(k) then docs[|docs| - 1].columns else LastColumns(docs[..|docs| - 1], k)
  }

  /** The timestamp of the first. */
  function FirstStamp(docs: seq<Doc>, k: string): int
    requires Mentions(docs, k)
  {
    if Mentions(docs[..|docs| - 1], k) then FirstStamp(docs[..|docs| - 1], k) else docs[|docs| - 1].stamp
  }

  lemma {:induction false} UpsertKeepsLast(t: Table, docs: seq<Doc>, k: string)
    ensures var after := UpsertAll(t, Keyed(docs));
            && (k in after <==> k in t || Mentions(docs, k))
            && (Mentions(docs, k) ==>
                  && after[k].columns == LastColumns(docs, k)
                  && after[k].stamp == if k in t then t[k].stamp else FirstStamp(docs, k))
            && (k in t && !Mentions(docs, k) ==> after[k] == t[k])
  {
    if docs != [] {
      var init, d := docs[..|docs| - 1], docs[|docs| - 1];
      UpsertKeepsLast(t, init, k);
      MentionsSnoc(docs, k);
      assert Keyed(docs) == Keyed(init) + if HasKey(d) then [d] else [];
      if HasKey(d) {
        assert Keyed(docs)[..|Keyed(docs)| - 1] == Keyed(init);
      } else {
        assert Keyed(docs) == Keyed(init);
      }
    }
  }

  lemma {:induction false} MentionsSnoc(docs: seq<Doc>, k: string)
    requires docs != []
    ensures Mentions(docs, k) <==> docs[|docs| - 1].key == Some(k) || Mentions(docs[..|docs| - 1], k)
  {
    var init := docs[..|docs| - 1];
    if Mentions(init, k) {
      var i :| 0 <= i < |init| && init[i].key == Some(k);
      assert docs[i] == init[i];
    }
    if Mentions(docs, k) && docs[|docs| - 1].key != Some(k) {
      var i :| 0 <= i < |docs| && docs[i].key == Some(k);
      assert init[i] == docs[i];
    }
  }

  /**
   * After a refreshing pass every source key holds the columns of its last
   * document and the timestamp it was first given, whatever the batch size was;
   * no other row has changed.
   */
  lemma {:induction false} RefreshLeavesTheLast(t: Table, batches: seq<seq<Doc>>, k: string)
    ensures var after, docs := UploadedTable(t, batches, true), Flatten(batches);
            && (k in after <==> k in t || Mentions(docs, k))
            && (Mentions(docs, k) ==>
                  && after[k].columns == LastColumns(docs, k)
                  && after[k].stamp == if k in t then t[k].stamp else FirstStamp(docs, k))
            && (k in t && !Mentions(docs, k) ==> after[k] == t[k])
  {
    RefreshUpserts(t, batches);
    UpsertKeepsLast(t, Flatten(batches), k);
  }

  // ---- running again

  lemma {:induction false} CreateAppend(t: Table, a: seq<Doc>, b: seq<Doc>)
    ensures CreateMany(t, a + b) == CreateMany(CreateMany(t, a), b)
    ensures Fresh(t, a + b) == Fresh(t, a) + Fresh(CreateMany(t, a), b)
  {
    if b == [] {
      assert a + b == a;
    } else {
      assert (a + b)[..|a + b| - 1] == a + b[..|b| - 1];
      CreateAppend(t, a, b[..|b| - 1]);
    }
  }

  /** Without refreshing, a pass inserts the documents one by one, whatever the batches are. */
  lemma {:induction false} PassInserts(t: Table, batches: seq<seq<Doc>>)
    ensures UploadedTable(t, batches, false) == CreateMany(t, Keyed(Flatten(batches)))
    ensures UploadedInserted(t, batches, false) == Fresh(t, Keyed(Flatten(batches)))
  {
    if batches != [] {
      var init, docs := batches[..|batches| - 1], batches[|batches| - 1];
      PassInserts(t, init);
      AllKeyedOf(batches);
      CreateAppend(t, Keyed(Flatten(init)), Keyed(docs));
    }
  }

  lemma {:induction false} AllKeyedOf(batches: seq<seq<Doc>>)
    requires batches != []
    ensures Keyed(Flatten(batches)) == Keyed(Flatten(batches[..|batches| - 1])) + Keyed(batches[|batches| - 1])
  {
    var init, docs := batches[..|batches| - 1], batches[|batches| - 1];
    assert batches == init + [docs];
    FlattenSnoc(init, docs);
    KeyedAppend(Flatten(init), docs);
  }

  lemma {:induction false} NothingFresh(t: Table, rows: seq<Doc>)
    requires forall i :: 0 <= i < |rows| ==> KeyOf(rows[i]) in t
    ensures CreateMany(t, rows) == t && Fresh(t, rows) == 0
  {
    if rows != [] {
      NothingFresh(t, rows[..|rows| - 1]);
    }
  }

  /**
   * A second pass over the same documents, in any batches and after either kind of first pass,
   * inserts nothing and changes nothing.
   */
  lemma {:induction false} SecondPassDoesNothing(
      t: Table, batches: seq<seq<Doc>>, others: seq<seq<Doc>>, refreshed: bool)
    requires Flatten(others) == Flatten(batches)
    ensures var after := UploadedTable(t, batches, refreshed);
            UploadedTable(after, others, false) == after && UploadedInserted(after, others, false) == 0
  {
    var rows, after := Keyed(Flatten(batches)), UploadedTable(t, batches, refreshed);
    PassInserts(t, batches);
    RefreshUpserts(t, batches);
    UpsertKeys(t, rows);
    forall i | 0 <= i < |rows| ensures KeyOf(rows[i]) in after {
      CreatedKeys(t, rows, i);
    }
    NothingFresh(after, rows);
    PassInserts(after, others);
  }

  // ---- rehearsing

  ghost predicate NoKeyTwice(rows: seq<Doc>) {
    forall i, j :: 0 <= i < j < |rows| ==> KeyOf(rows[i]) != KeyOf(rows[j])
  }

  lemma {:induction false} CreatedFromEmpty(rows: seq<Doc>, k: string)
    ensures k in CreateMany(map[], rows) <==> exists i :: 0 <= i < |rows| && KeyOf(rows[i]) == k
  {
    if rows != [] {
      var init := rows[..|rows| - 1];
      CreatedFromEmpty(init, k);
      if k in CreateMany(map[], init) {
        var i :| 0 <= i < |init| && KeyOf(init[i]) == k;
        assert KeyOf(rows[i]) == k;
      } else if KeyOf(rows[|rows| - 1]) != k {
        forall i | 0 <= i < |rows| ensures KeyOf(rows[i]) != k {
          if i < |init| { assert rows[i] == init[i]; }
        }
      }
    }
  }

  lemma {:induction false} DistinctSnoc(rows: seq<Doc>)
    requires rows != []
    ensures var init, d := rows[..|rows| - 1], rows[|rows| - 1];
            NoKeyTwice(rows) <==> NoKeyTwice(init) && (forall i :: 0 <= i < |init| ==> KeyOf(init[i]) != KeyOf(d))
  {
  }

  lemma {:induction false} AllFreshExactlyWhenDistinct(rows: seq<Doc>)
    ensures Fresh(map[], rows) == |rows| <==> NoKeyTwice(rows)
  {
    if rows != [] {
      var init, d := rows[..|rows| - 1], rows[|rows| - 1];
      AllFreshExactlyWhenDistinct(init);
      CreatedFromEmpty(init, KeyOf(d));
      assert NoKeyTwice(rows) <==> NoKeyTwice(init) && (forall i :: 0 <= i < |init| ==> KeyOf(init[i]) != KeyOf(d)) by {
        DistinctSnoc(rows);
      }
    }
  }

  /** A dry run of the uploaded pass on an empty target predicts the real count if and only if no key occurs twice. */
  lemma {:induction false} DryRunPredictsExactlyWhen(batches: seq<seq<Doc>>, refresh: bool)
    ensures |Keyed(Flatten(batches))| == UploadedInserted(map[], batches, refresh)
         <==> NoKeyTwice(Keyed(Flatten(batches)))
  {
    RefreshDoesNotCount(map[], batches);
    PassInserts(map[], batches);
    AllFreshExactlyWhenDistinct(Keyed(Flatten(batches)));
  }

  lemma {:induction false} FreshByKeys(t: Table, u: Table, rows: seq<Doc>)
    requires forall k :: k in t <==> k in u
    ensures Fresh(t, rows) == Fresh(u, rows)
    ensures forall k :: k in CreateMany(t, rows) <==> k in CreateMany(u, rows)
  {
    if rows != [] {
      FreshByKeys(t, u, rows[..|rows| - 1]);
    }
  }

  /** Refreshing does not change what is counted. */
  lemma {:induction false} RefreshDoesNotCount(t: Table, batches: seq<seq<Doc>>)
    ensures UploadedInserted(t, batches, true) == UploadedInserted(t, batches, false)
  {
    if batches != [] {
      var init, rows := batches[..|batches| - 1], Keyed(batches[|batches| - 1]);
      RefreshDoesNotCount(t, init);
      RefreshUpserts(t, init);
      PassInserts(t, init);
      UpsertKeys(t, Keyed(Flatten(init)));
      FreshByKeys(UploadedTable(t, init, true), UploadedTable(t, init, false), rows);
    }
  }

  // ---- the passes that remember what they have seen

  function SeenAfter(seen: set<string>, docs: seq<Doc>): set<string> {
    if docs == [] then seen
    else
      var d := docs[|docs| - 1];
      SeenAfter(seen, docs[..|docs| - 1]) + if HasKey(d) then {KeyOf(d)} else {}
  }

  /** The documents with a key not seen before. */
  function Unseen(seen: set<string>, docs: seq<Doc>): (rows: seq<Doc>)
    ensures |rows| <= |docs|
  {
    if docs == [] then []
    else
      var init, d := docs[..|docs| - 1], docs[|docs| - 1];
      Unseen(seen, init) + if HasKey(d) && KeyOf(d) !in SeenAfter(seen, init) then [d] else []
  }

  /** The inner loop: it keeps the first document of every key, across batches. */
  method KeepUnseen(docs: seq<Doc>, seen: set<string>) returns (rows: seq<Doc>, now: set<string>, skipped: nat)
    ensures rows == Unseen(seen, docs) && now == SeenAfter(seen, docs) && |rows| + skipped == |docs|
  {
    rows, now, skipped := [], seen, 0;
    for i := 0 to |docs|
      invariant rows == Unseen(seen, docs[..i]) && now == SeenAfter(seen, docs[..i]) && |rows| + skipped == i
    {
      assert docs[..i + 1][..i] == docs[..i];
      var d := docs[i];
      if d.key == None || d.key.value in now {
        skipped := skipped + 1;
        continue;
      }
      now := now + {d.key.value};
      rows := rows + [d];
    }
    assert docs[..|docs|] == docs;
  }

  lemma {:induction false} UnseenAppend(seen: set<string>, a: seq<Doc>, b: seq<Doc>)
    ensures SeenAfter(seen, a + b) == SeenAfter(SeenAfter(seen, a), b)
    ensures Unseen(seen, a + b) == Unseen(seen, a) + Unseen(SeenAfter(seen, a), b)
  {
    if b == [] {
      assert a + b == a;
    } else {
      assert (a + b)[..|a + b| - 1] == a + b[..|b| - 1];
      UnseenAppend(seen, a, b[..|b| - 1]);
    }
  }

  /**
   * `migrateUploadedIds`, `migrateDeleted` and `migrateUnavailable`: every
   * source document is counted, a dry run counts the distinct keys, and a real
   * run inserts the first document of every key the target lacks.
   */
  method MigrateSeen(
      target: Target, batches: seq<seq<Doc>>, dryRun: bool) returns (source: nat, inserted: nat, skipped: nat)
    modifies target
    ensures source == |Flatten(batches)| && inserted + skipped == source
    ensures dryRun ==> target.rows == old(target.rows) && inserted == |Unseen({}, Flatten(batches))|
    ensures !dryRun ==> target.rows == CreateMany(old(target.rows), Unseen({}, Flatten(batches)))
                        && inserted == Fresh(old(target.rows), Unseen({}, Flatten(batches)))
  {
    source, inserted, skipped := 0, 0, 0;
    var seen: set<string> := {};
    for i := 0 to |batches|
      invariant source == |Flatten(batches[..i])| && inserted + skipped == source
      invariant seen == SeenAfter({}, Flatten(batches[..i]))
      invariant dryRun ==> target.rows == old(target.rows) && inserted == |Unseen({}, Flatten(batches[..i]))|
      invariant !dryRun ==> target.rows == CreateMany(old(target.rows), Unseen({}, Flatten(batches[..i])))
                            && inserted == Fresh(old(target.rows), Unseen({}, Flatten(batches[..i])))
    {
      var docs := batches[i];
      assert batches[..i + 1] == batches[..i] + [docs];
      FlattenSnoc(batches[..i], docs);
      UnseenAppend({}, Flatten(batches[..i]), docs);
      CreateAppend(old(target.rows), Unseen({}, Flatten(batches[..i])), Unseen(seen, docs));
      source := source + |docs|;
      var rows, now, passed := KeepUnseen(docs, seen);
      seen := now;
      skipped := skipped + passed;
      if dryRun {
        inserted := inserted + |rows|;
      } else if |rows| > 0 {
        var count := target.CreateManySkippingDuplicates(rows);
        inserted := inserted + count;
        skipped := skipped + (|rows| - count);
      }
    }
    assert batches[..|batches|] == batches;
  }

  lemma {:induction false} UnseenIsDistinct(seen: set<string>, docs: seq<Doc>)
    ensures NoKeyTwice(Unseen(seen, docs))
    ensures forall i :: 0 <= i < |Unseen(seen, docs)| ==> KeyOf(Unseen(seen, docs)[i]) in SeenAfter(seen, docs)
  {
    if docs != [] {
      UnseenIsDistinct(seen, docs[..|docs| - 1]);
    }
  }

  /** A dry run of these passes on an empty target always predicts the real count, across batches. */
  lemma {:induction false} SeenDryRunPredicts(batches: seq<seq<Doc>>)
    ensures |Unseen({}, Flatten(batches))| == Fresh(map[], Unseen({}, Flatten(batches)))
  {
    UnseenIsDistinct({}, Flatten(batches));
    AllFreshExactlyWhenDistinct(Unseen({}, Flatten(batches)));
  }

  lemma {:induction false} CreatedKeep(t: Table, rows: seq<Doc>, k: string)
    requires k in t
    ensures k in CreateMany(t, rows) && CreateMany(t, rows)[k] == t[k]
  {
    if rows != [] {
      CreatedKeep(t, rows[..|rows| - 1], k);
    }
  }

  lemma {:induction false} SeenIsUnseen(docs: seq<Doc>, k: string)
    ensures k in SeenAfter({}, docs) <==> Mentions(docs, k)
    ensures Mentions(docs, k) ==> exists i :: 0 <= i < |Unseen({}, docs)| && KeyOf(Unseen({}, docs)[i]) == k
  {
    if docs != [] {
      var init, d := docs[..|docs| - 1], docs[|docs| - 1];
      SeenIsUnseen(init, k);
      MentionsSnoc(docs, k);
      var rows, before := Unseen({}, docs), Unseen({}, init);
      if Mentions(init, k) {
        var i :| 0 <= i < |before| && KeyOf(before[i]) == k;
        assert rows[i] == before[i];
      } else if d.key == Some(k) {
        assert rows == before + [d];
        assert rows[|before|] == d;
      }
    }
  }

  /**
   * Every source key is in the target afterwards, and what was there is untouched: even a
   * refreshing run never rewrites it.
   */
  lemma {:induction false} SeenPassKeepsAll(t: Table, batches: seq<seq<Doc>>, k: string)
    ensures var after := CreateMany(t, Unseen({}, Flatten(batches)));
            && (Mentions(Flatten(batches), k) ==> k in after)
            && (k in t ==> k in after && after[k] == t[k])
  {
    var rows := Unseen({}, Flatten(batches));
    SeenIsUnseen(Flatten(batches), k);
    if Mentions(Flatten(batches), k) {
      var i :| 0 <= i < |rows| && KeyOf(rows[i]) == k;
      CreatedKeys(t, rows, i);
    }
    if k in t {
      CreatedKeep(t, rows, k);
    }
  }

  /** And a second run over the same documents inserts nothing and changes nothing. */
  lemma {:induction false} SecondSeenPassDoesNothing(t: Table, batches: seq<seq<Doc>>, others: seq<seq<Doc>>)
    requires Flatten(others) == Flatten(batches)
    ensures var rows := Unseen({}, Flatten(batches));
            var after := CreateMany(t, rows);
            CreateMany(after, Unseen({}, Flatten(others))) == after && Fresh(after, Unseen({}, Flatten(others))) == 0
  {
    var rows := Unseen({}, Flatten(batches));
    forall i | 0 <= i < |rows| ensures KeyOf(rows[i]) in CreateMany(t, rows) {
      CreatedKeys(t, rows, i);
    }
    NothingFresh(CreateMany(t, rows), rows);
  }

  /** The key `migrateUploadedIds` remembers. */
  function IdKey(extension: string, chapterId: string): string {
    extension + "|" + chapterId
  }

  /** It tells the rows of the unique index apart as long as no extension's name holds a bar. */
  lemma {:induction false} IdKeyTellsApart(
      extension: string, chapterId: string, otherExtension: string, otherId: string)
    requires '|' !in extension && '|' !in otherExtension
    ensures IdKey(extension, chapterId) == IdKey(otherExtension, otherId)
         <==> extension == otherExtension && chapterId == otherId
  {
    SplitHead('|', extension, chapterId);
    SplitHead('|', otherExtension, otherId);
    assert ([extension] + Split('|', chapterId))[1..] == Split('|', chapterId);
    assert ([otherExtension] + Split('|', otherId))[1..] == Split('|', otherId);
    JoinOfSplit('|', chapterId);
    JoinOfSplit('|', otherId);
  }

  ghost predicate SharesIdKey(extension: string, chapterId: string) {
    exists otherExtension, otherId :: (otherExtension, otherId) != (extension, chapterId)
      && IdKey(otherExtension, otherId) == IdKey(extension, chapterId)
  }

  /** A row shares its remembered key with another one exactly when a bar occurs in its extension's name or its id. */
  lemma {:induction false} IdKeySharedExactlyWhen(extension: string, chapterId: string)
    ensures SharesIdKey(extension, chapterId) <==> '|' in extension || '|' in chapterId
  {
    var key := IdKey(extension, chapterId);
    if '|' in extension {
      var i :| 0 <= i < |extension| && extension[i] == '|';
      var otherId := extension[i + 1..] + "|" + chapterId;
      assert IdKey(extension[..i], otherId) == key;
      assert (extension[..i], otherId) != (extension, chapterId);
    } else if '|' in chapterId {
      var i :| 0 <= i < |chapterId| && chapterId[i] == '|';
      var other := extension + "|" + chapterId[..i];
      assert IdKey(other, chapterId[i + 1..]) == key;
      assert (other, chapterId[i + 1..]) != (extension, chapterId);
    } else if SharesIdKey(extension, chapterId) {
      var other, otherId :| (other, otherId) != (extension, chapterId) && IdKey(other, otherId) == key;
      OnlyOneBar(extension, chapterId, other, otherId);
    }
  }

  /** Without a bar in either part the key has one bar, and it says where the parts end. */
  lemma {:induction false} OnlyOneBar(extension: string, chapterId: string, other: string, otherId: string)
    requires '|' !in extension && '|' !in chapterId && IdKey(other, otherId) == IdKey(extension, chapterId)
    ensures other == extension && otherId == chapterId
  {
    var key, n, m := IdKey(extension, chapterId), |extension|, |other|;
    assert key[m] == '|' && IdKey(other, otherId)[..m] == other && IdKey(other, otherId)[m + 1..] == otherId;
    forall i | 0 <= i < |key| ensures key[i] == '|' <==> i == n {
    }
    assert key[..n] == extension && key[n + 1..] == chapterId;
  }

  // ---- the passes that go document by document

  lemma {:induction false} KeyedStep(docs: seq<Doc>, i: nat)
    requires i < |docs|
    ensures Keyed(docs[..i + 1]) == if HasKey(docs[i]) then Keyed(docs[..i]) + [docs[i]] else Keyed(docs[..i])
  {
    assert docs[..i + 1][..i] == docs[..i];
    assert Keyed(docs[..i]) + [] == Keyed(docs[..i]);
  }

  /** One more row inserted. */
  lemma {:induction false} InsertStep(t: Table, rows: seq<Doc>, d: Doc)
    ensures CreateMany(t, rows + [d]) == Insert(CreateMany(t, rows), d)
    ensures Fresh(t, rows + [d]) == Fresh(t, rows) + if KeyOf(d) in CreateMany(t, rows) then 0 else 1
  {
    assert (rows + [d])[..|rows|] == rows;
  }

  /** One more row upserted. */
  lemma {:induction false} UpsertStep(t: Table, rows: seq<Doc>, d: Doc)
    ensures UpsertAll(t, rows + [d]) == Upsert(UpsertAll(t, rows), d)
    ensures KeyOf(d) in UpsertAll(t, rows) <==> KeyOf(d) in CreateMany(t, rows)
  {
    assert (rows + [d])[..|rows|] == rows;
    UpsertKeys(t, rows);
  }

  lemma {:induction false} NotInStep(t: Table, rows: seq<Doc>, d: Doc)
    ensures |NotIn(t, rows + [d])| == |NotIn(t, rows)| + if KeyOf(d) in t then 0 else 1
  {
    assert (rows + [d])[..|rows|] == rows;
  }

  /** `edited`: the columns and edits in `columns`, `lastEditedAt` in `stamp`. */
  method MigrateEdited(target: Target, docs: seq<Doc>, refresh: bool, dryRun: bool)
    returns (source: nat, inserted: nat, skipped: nat)
    modifies target
    ensures source == |docs| && inserted + skipped == source
    ensures dryRun ==> target.rows == old(target.rows) && inserted == |Keyed(docs)|
    ensures !dryRun ==>
      && target.rows == (if refresh then UpsertAll(old(target.rows), Keyed(docs))
         else CreateMany(old(target.rows), Keyed(docs)))
      && inserted == Fresh(old(target.rows), Keyed(docs))
  {
    source, inserted, skipped := |docs|, 0, 0;
    for i := 0 to |docs|
      invariant inserted + skipped == i
      invariant dryRun ==> target.rows == old(target.rows) && inserted == |Keyed(docs[..i])|
      invariant !dryRun ==>
        && target.rows == (if refresh then UpsertAll(old(target.rows), Keyed(docs[..i]))
                           else CreateMany(old(target.rows), Keyed(docs[..i])))
        && inserted == Fresh(old(target.rows), Keyed(docs[..i]))
    {
      var d := docs[i];
      KeyedStep(docs, i);
      InsertStep(old(target.rows), Keyed(docs[..i]), d);
      UpsertStep(old(target.rows), Keyed(docs[..i]), d);
      if d.key == None {
        skipped := skipped + 1;
        continue;
      }
      if dryRun {
        inserted := inserted + 1;
        continue;
      }
      if KeyOf(d) !in target.rows {
        target.rows := target.rows[KeyOf(d) := Row(d.columns, d.stamp)];
        inserted := inserted + 1;
      } else {
        skipped := skipped + 1;
        if refresh {
          target.rows := target.rows[KeyOf(d) := target.rows[KeyOf(d)].(columns := d.columns)];
        }
      }
    }
    assert docs[..|docs|] == docs;
  }

  /** A queue pass that has handled `rows`: a dry run writes nothing and so sees only what was there. */
  ghost predicate QueueAt(before: Table, t: Table, rows: seq<Doc>, inserted: nat, dryRun: bool) {
    if dryRun then t == before && inserted == |NotIn(before, rows)|
    else t == CreateMany(before, rows) && inserted == Fresh(before, rows)
  }

  lemma {:induction false} QueueStep(before: Table, t: Table, rows: seq<Doc>, inserted: nat, dryRun: bool, d: Doc)
    requires QueueAt(before, t, rows, inserted, dryRun)
    ensures KeyOf(d) in t ==> QueueAt(before, t, rows + [d], inserted, dryRun)
    ensures KeyOf(d) !in t ==>
      QueueAt(before, if dryRun then t else t[KeyOf(d) := Row(d.columns, d.stamp)], rows + [d], inserted + 1, dryRun)
  {
    if dryRun {
      NotInStep(before, rows, d);
    } else {
      InsertStep(before, rows, d);
    }
  }

  /** A queue collection: a task that exists is left alone. */
  method MigrateQueue(target: Target, docs: seq<Doc>, dryRun: bool) returns (source: nat, inserted: nat, skipped: nat)
    modifies target
    ensures source == |docs| && inserted + skipped == source
    ensures dryRun ==> target.rows == old(target.rows) && inserted == |NotIn(old(target.rows), Keyed(docs))|
    ensures !dryRun ==> target.rows == CreateMany(old(target.rows), Keyed(docs))
                        && inserted == Fresh(old(target.rows), Keyed(docs))
  {
    source, inserted, skipped := |docs|, 0, 0;
    for i := 0 to |docs|
      invariant inserted + skipped == i
      invariant QueueAt(old(target.rows), target.rows, Keyed(docs[..i]), inserted, dryRun)
    {
      var d := docs[i];
      KeyedStep(docs, i);
      if d.key == None {
        skipped := skipped + 1;
        continue;
      }
      QueueStep(old(target.rows), target.rows, Keyed(docs[..i]), inserted, dryRun, d);
      if KeyOf(d) in target.rows {
        skipped := skipped + 1;
        continue;
      }
      inserted := inserted + 1;
      if !dryRun {
        target.rows := target.rows[KeyOf(d) := Row(d.columns, d.stamp)];
      }
    }
    assert docs[..|docs|] == docs;
  }

  function NotIn(t: Table, rows: seq<Doc>): seq<Doc> {
    if rows == [] then []
    else
      var d := rows[|rows| - 1];
      NotIn(t, rows[..|rows| - 1]) + if KeyOf(d) in t then [] else [d]
  }

  lemma {:induction false} NotInEmpty(rows: seq<Doc>)
    ensures NotIn(map[], rows) == rows
  {
    if rows != [] {
      NotInEmpty(rows[..|rows| - 1]);
    }
  }

  /** The document-by-document dry runs predict the real count on an empty target if and only if no key occurs twice. */
  lemma {:induction false} OneByOneDryRunPredictsExactlyWhen(docs: seq<Doc>)
    ensures |Keyed(docs)| == Fresh(map[], Keyed(docs)) <==> NoKeyTwice(Keyed(docs))
    ensures |NotIn(map[], Keyed(docs))| == Fresh(map[], Keyed(docs)) <==> NoKeyTwice(Keyed(docs))
  {
    NotInEmpty(Keyed(docs));
    AllFreshExactlyWhenDistinct(Keyed(docs));
  }

  // ---- page images

  datatype Image = BadId | Unreadable | Oversize | Page(content: string)

  /** The readable pages, in order. */
  function PagesOf(images: seq<Image>): seq<string> {
    if images == [] then []
    else
      var image := images[|images| - 1];
      PagesOf(images[..|images| - 1]) + if image.Page? then [image.content] else []
  }

  /** How many of the images are such. */
  function CountOf(such: Image -> bool, images: seq<Image>): nat {
    if images == [] then 0
    else CountOf(such, images[..|images| - 1]) + if such(images[|images| - 1]) then 1 else 0
  }

  function IsMissing(): Image -> bool {
    (image: Image) => image.BadId? || image.Unreadable?
  }

  function IsOversize(): Image -> bool {
    (image: Image) => image.Oversize?
  }

  /** `migrateImages`: the artifacts hold the readable pages, in the order of the document, each under its own id. */
  method MigrateImages(images: seq<Image>, ids: nat -> string)
    returns (artifactIds: seq<string>, pages: seq<string>, fetched: nat, missing: nat, oversize: nat)
    ensures fetched + missing + oversize == |images|
    ensures missing == CountOf(IsMissing(), images) && oversize == CountOf(IsOversize(), images)
    ensures pages == PagesOf(images) && |artifactIds| == |pages| == fetched
    ensures forall i :: 0 <= i < fetched ==> artifactIds[i] == ids(i)
  {
    artifactIds, pages, fetched, missing, oversize := [], [], 0, 0, 0;
    for n := 0 to |images|
      invariant fetched + missing + oversize == n
      invariant missing == CountOf(IsMissing(), images[..n]) && oversize == CountOf(IsOversize(), images[..n])
      invariant pages == PagesOf(images[..n]) && |artifactIds| == |pages| == fetched
      invariant forall i :: 0 <= i < fetched ==> artifactIds[i] == ids(i)
    {
      assert images[..n + 1][..n] == images[..n];
      match images[n]
      case BadId => missing := missing + 1;
      case Unreadable => missing := missing + 1;
      case Oversize => oversize := oversize + 1;
      case Page(content) =>
        artifactIds := artifactIds + [ids(fetched)];
        pages := pages + [content];
        fetched := fetched + 1;
    }
    assert images[..|images|] == images;
  }
}
