/** A JavaScript object as the sequence of its own properties, in `Object.entries` order. */
module JsObjects {
  import opened JsStrings
  import opened JsonText
  import opened Sorting

  function KeyOf(m: Member): string { m.key }

  function Keys(ms: seq<Member>): seq<string> {
    Map(KeyOf, ms)
  }

  ghost predicate KeysDistinct(ms: seq<Member>) {
    forall i, j :: 0 <= i < j < |ms| ==> ms[i].key != ms[j].key
  }

  /** `out[m.key] = m.value`: a known key keeps its place, a new one goes last. */
  function Put(ms: seq<Member>, m: Member): seq<Member> {
    if ms == [] then [m]
    else if ms[0].key == m.key then [m] + ms[1..]
    else [ms[0]] + Put(ms[1..], m)
  }

  function PutAll(ms: seq<Member>, more: seq<Member>): seq<Member>
    decreases |more|
  {
    if more == [] then ms else PutAll(Put(ms, more[0]), more[1..])
  }

  /** The value last written under a key. */
  function LastWritten(ms: seq<Member>, key: string): Option<Json> {
    if ms == [] then None
    else if ms[|ms| - 1].key == key then Some(ms[|ms| - 1].value)
    else LastWritten(ms[..|ms| - 1], key)
  }

  lemma {:induction false} LastWrittenOf(a: seq<Member>, b: seq<Member>, key: string)
    ensures LastWritten(a + b, key) == if LastWritten(b, key).Some? then LastWritten(b, key) else LastWritten(a, key)
  {
    if b == [] {
      assert a + b == a;
    } else {
      var n := |b| - 1;
      assert (a + b)[..|a| + n] == a + b[..n];
      LastWrittenOf(a, b[..n], key);
    }
  }

  /** A member whose key is there takes the old one's place. */
  lemma {:induction false} PutKnownKey(ms: seq<Member>, m: Member, i: nat)
    requires KeysDistinct(ms) && i < |ms| && ms[i].key == m.key
    ensures Put(ms, m) == ms[i := m]
  {
    if i > 0 {
      PutKnownKey(ms[1..], m, i - 1);
      assert [ms[0]] + ms[1..][i - 1 := m] == ms[i := m];
    } else {
      assert [m] + ms[1..] == ms[0 := m];
    }
  }

  lemma {:induction false} PutWrites(ms: seq<Member>, m: Member, key: string)
    requires KeysDistinct(ms)
    ensures KeysDistinct(Put(ms, m))
    ensures LastWritten(Put(ms, m), key) == LastWritten(ms + [m], key)
  {
    if i :| 0 <= i < |ms| && ms[i].key == m.key {
      PutKnownKey(ms, m, i);
      LookupReplaced(ms, m, i, key);
    } else {
      PutNewKey(ms, m);
    }
  }

  lemma {:induction false} LookupReplaced(ms: seq<Member>, m: Member, i: nat, key: string)
    requires KeysDistinct(ms) && i < |ms| && ms[i].key == m.key
    ensures LastWritten(ms[i := m], key) == LastWritten(ms + [m], key)
  {
    var before, after := ms[..i], ms[i + 1..];
    assert ms == before + ([ms[i]] + after) && ms[i := m] == before + ([m] + after);
    LastWrittenOf(before, [ms[i]] + after, key);
    LastWrittenOf(before, [m] + after, key);
    LastWrittenOf([ms[i]], after, key);
    LastWrittenOf([m], after, key);
    LastWrittenOf(ms, [m], key);
    OneWritten(ms[i], key);
    OneWritten(m, key);
    NotWritten(after, m.key);
  }

  lemma {:induction false} OneWritten(m: Member, key: string)
    ensures LastWritten([m], key) == if m.key == key then Some(m.value) else None
  {
    assert [m][..0] == [];
  }

  lemma {:induction false} NotWritten(ms: seq<Member>, key: string)
    requires forall k :: 0 <= k < |ms| ==> ms[k].key != key
    ensures LastWritten(ms, key) == None
  {
    if ms != [] {
      NotWritten(ms[..|ms| - 1], key);
    }
  }

  /** An object keeps one member per key, with the value last written under it. */
  lemma {:induction false} LastWriteWins(ms: seq<Member>, more: seq<Member>, key: string)
    requires KeysDistinct(ms)
    ensures KeysDistinct(PutAll(ms, more))
    ensures LastWritten(PutAll(ms, more), key) == LastWritten(ms + more, key)
    decreases |more|
  {
    if more == [] {
      assert ms + more == ms;
    } else {
      var m, rest := more[0], more[1..];
      assert KeysDistinct(Put(ms, m)) && LastWritten(Put(ms, m) + rest, key) == LastWritten(ms + more, key) by {
        PutWrites(ms, m, key);
        SameBefore(Put(ms, m), ms + [m], rest, key);
        assert ms + [m] + rest == ms + more;
      }
      LastWriteWins(Put(ms, m), rest, key);
    }
  }

  lemma {:induction false} SameBefore(a: seq<Member>, b: seq<Member>, more: seq<Member>, key: string)
    requires LastWritten(a, key) == LastWritten(b, key)
    ensures LastWritten(a + more, key) == LastWritten(b + more, key)
  {
    LastWrittenOf(a, more, key);
    LastWrittenOf(b, more, key);
  }

  predicate IsDigit(c: char) { '0' <= c <= '9' }

  predicate AllDigits(s: string) {
    forall i :: 0 <= i < |s| ==> IsDigit(s[i])
  }

  function DigitsValue(s: string): nat
    requires AllDigits(s)
  {
    if s == "" then 0
    else DigitsValue(s[..|s| - 1]) * 10 + (s[|s| - 1] as int - '0' as int)
  }

  /** An array index: a canonical decimal below 2^32 - 1. */
  predicate IsArrayIndex(key: string) {
    && key != "" && AllDigits(key)
    && (key[0] == '0' ==> key == "0")
    && DigitsValue(key) < 0xFFFF_FFFF
  }

  function IndexOf(key: string): nat {
    if AllDigits(key) then DigitsValue(key) else 0
  }

  function IndexLeq(): (Member, Member) -> bool {
    (a: Member, b: Member) => IndexOf(a.key) <= IndexOf(b.key)
  }

  function HasIndexKey(): Member -> bool {
    (m: Member) => IsArrayIndex(m.key)
  }

  function HasOtherKey(): Member -> bool {
    (m: Member) => !IsArrayIndex(m.key)
  }

  /** The own property order: array indices ascending, then the others as inserted. */
  function OwnOrder(ms: seq<Member>): seq<Member> {
    Sort(IndexLeq(), Filter(HasIndexKey(), ms)) + Filter(HasOtherKey(), ms)
  }

  /** The object `JSON.parse` builds from the members as they stand in the text. */
  function FromText(ms: seq<Member>): seq<Member> {
    OwnOrder(PutAll([], ms))
  }

  lemma {:induction false} OwnOrderPermutes(ms: seq<Member>)
    ensures multiset(OwnOrder(ms)) == multiset(ms)
    ensures |OwnOrder(ms)| == |ms|
    ensures forall m :: m in OwnOrder(ms) <==> m in ms
  {
    var index, other := HasIndexKey(), HasOtherKey();
    SortPermutes(IndexLeq(), Filter(index, ms));
    var a, b := multiset(Filter(index, ms)) + multiset(Filter(other, ms)), multiset(ms);
    forall m ensures a[m] == b[m] {
      FilterCount(index, ms, m);
      FilterCount(other, ms, m);
    }
    assert a == b;
    SamePermutation(OwnOrder(ms), ms);
  }

  lemma {:induction false} PutNewKey(ms: seq<Member>, m: Member)
    requires forall i :: 0 <= i < |ms| ==> ms[i].key != m.key
    ensures Put(ms, m) == ms + [m]
  {
    if ms != [] {
      PutNewKey(ms[1..], m);
      assert ms == [ms[0]] + ms[1..];
    }
  }

  /** Members with different keys are all kept, in the order they were written. */
  lemma {:induction false} PutAllDistinct(ms: seq<Member>, more: seq<Member>)
    requires KeysDistinct(ms + more)
    ensures PutAll(ms, more) == ms + more
    decreases |more|
  {
    if more != [] {
      forall i | 0 <= i < |ms| ensures ms[i].key != more[0].key {
        assert (ms + more)[i] == ms[i] && (ms + more)[|ms|] == more[0];
      }
      PutNewKey(ms, more[0]);
      assert ms + [more[0]] + more[1..] == ms + more;
      PutAllDistinct(ms + [more[0]], more[1..]);
    }
  }

  lemma {:induction false} DistinctKeysPermute(ms: seq<Member>, ns: seq<Member>)
    requires KeysDistinct(ms) && multiset(ms) == multiset(ns)
    ensures KeysDistinct(ns)
  {
    var ks, ls := Keys(ms), Keys(ns);
    MapPermutes(KeyOf, ms, ns);
    KeysDistinctIsDistinct(ms);
    forall k ensures multiset(ls)[k] <= 1 {
      DistinctCount(ks, k);
    }
    CountDistinct(ls);
    KeysDistinctIsDistinct(ns);
  }

  lemma {:induction false} KeysDistinctIsDistinct(ms: seq<Member>)
    ensures KeysDistinct(ms) <==> Distinct(Keys(ms))
  {
    var ks := Keys(ms);
    assert forall i :: 0 <= i < |ms| ==> ks[i] == ms[i].key;
  }

  /** Reading an object back keeps every member when the keys differ. */
  lemma {:induction false} FromTextPermutes(ms: seq<Member>)
    requires KeysDistinct(ms)
    ensures multiset(FromText(ms)) == multiset(ms)
  {
    assert [] + ms == ms;
    PutAllDistinct([], ms);
    OwnOrderPermutes(ms);
  }

  // ---- array indices

  lemma {:induction false} DecimalDigits(n: nat)
    ensures Decimal(n) != "" && AllDigits(Decimal(n)) && DigitsValue(Decimal(n)) == n
    ensures Decimal(n)[0] == '0' ==> n == 0
    ensures n == 0 ==> Decimal(n) == "0"
  {
    if n < 10 {
      assert Decimal(n)[..0] == "";
    } else {
      DecimalDigits(n / 10);
      var d, init := Decimal(n), Decimal(n / 10);
      assert d[..|d| - 1] == init && d[0] == init[0];
    }
  }

  lemma {:induction false} DigitsDecimal(key: string)
    requires key != "" && AllDigits(key) && (key[0] == '0' ==> key == "0")
    ensures Decimal(DigitsValue(key)) == key
    ensures key[0] != '0' ==> DigitsValue(key) > 0
  {
    var n := |key| - 1;
    assert key == key[..n] + [key[n]];
    if n > 0 {
      DigitsDecimal(key[..n]);
    } else {
      assert key[..0] == "";
    }
  }

  /** A key is an array index exactly when it is how a number below 2^32 - 1 is written. */
  lemma {:induction false} ArrayIndexExactlyWhen(key: string)
    ensures IsArrayIndex(key) <==> exists n: nat :: n < 4_294_967_295 && key == Decimal(n)
  {
    if IsArrayIndex(key) {
      DigitsDecimal(key);
    }
    if n: nat :| n < 4_294_967_295 && key == Decimal(n) {
      DecimalDigits(n);
    }
  }
}
