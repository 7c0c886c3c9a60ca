/** `Array.prototype.sort` with a comparator, and what its result depends on. */
module Sorting {

  ghost predicate Connected<T(!new)>(leq: (T, T) -> bool) {
    forall a, b :: leq(a, b) || leq(b, a)
  }

  ghost predicate Transitive<T(!new)>(leq: (T, T) -> bool) {
    forall a, b, c :: leq(a, b) && leq(b, c) ==> leq(a, c)
  }

  /** No two different elements of `s` tie. */
  ghost predicate Separates<T(!new)>(leq: (T, T) -> bool, s: seq<T>) {
    forall a, b :: a in s && b in s && leq(a, b) && leq(b, a) ==> a == b
  }

  ghost predicate Sorted<T>(leq: (T, T) -> bool, s: seq<T>) {
    forall i, j :: 0 <= i < j < |s| ==> leq(s[i], s[j])
  }

  function Insert<T>(leq: (T, T) -> bool, x: T, s: seq<T>): seq<T> {
    if s == [] then [x]
    else if leq(x, s[0]) then [x] + s
    else [s[0]] + Insert(leq, x, s[1..])
  }

  /** The stable sort: an element goes before the later elements it ties with. */
  function Sort<T>(leq: (T, T) -> bool, s: seq<T>): seq<T> {
    if s == [] then [] else Insert(leq, s[0], Sort(leq, s[1..]))
  }

  lemma {:induction false} InsertPermutes<T>(leq: (T, T) -> bool, x: T, s: seq<T>)
    ensures multiset(Insert(leq, x, s)) == multiset(s) + multiset{x}
  {
    if s != [] {
      assert s == [s[0]] + s[1..];
      if !leq(x, s[0]) {
        InsertPermutes(leq, x, s[1..]);
      }
    }
  }

  lemma {:induction false} SortPermutes<T>(leq: (T, T) -> bool, s: seq<T>)
    ensures multiset(Sort(leq, s)) == multiset(s)
    ensures |Sort(leq, s)| == |s|
    ensures forall x :: x in Sort(leq, s) <==> x in s
  {
    if s != [] {
      assert s == [s[0]] + s[1..];
      SortPermutes(leq, s[1..]);
      InsertPermutes(leq, s[0], Sort(leq, s[1..]));
    }
    SamePermutation(Sort(leq, s), s);
  }

  /** Equal multisets agree on length and membership. */
  lemma {:induction false} SamePermutation<T>(s: seq<T>, t: seq<T>)
    requires multiset(s) == multiset(t)
    ensures |s| == |t|
    ensures forall x :: x in s <==> x in t
  {
    assert |multiset(s)| == |multiset(t)|;
    forall x ensures x in s <==> x in t {
      assert x in s <==> x in multiset(s);
      assert x in t <==> x in multiset(t);
    }
  }

  lemma {:induction false} InsertSorted<T(!new)>(leq: (T, T) -> bool, x: T, s: seq<T>)
    requires Connected(leq) && Transitive(leq) && Sorted(leq, s)
    ensures Sorted(leq, Insert(leq, x, s))
  {
    if s != [] && !leq(x, s[0]) {
      InsertSorted(leq, x, s[1..]);
      var r := Insert(leq, x, s[1..]);
      InsertPermutes(leq, x, s[1..]);
      forall y | y in r ensures leq(s[0], y) {
        assert y in multiset(r);
        assert y == x || y in s[1..];
        assert leq(s[0], x);
      }
      assert forall k :: 0 <= k < |r| ==> r[k] in r;
    }
  }

  lemma {:induction false} SortSorted<T(!new)>(leq: (T, T) -> bool, s: seq<T>)
    requires Connected(leq) && Transitive(leq)
    ensures Sorted(leq, Sort(leq, s))
  {
    if s != [] {
      SortSorted(leq, s[1..]);
      InsertSorted(leq, s[0], Sort(leq, s[1..]));
    }
  }

  /** Two sorted permutations start with the same element. */
  lemma {:induction false} SortedSameHead<T(!new)>(leq: (T, T) -> bool, s: seq<T>, t: seq<T>)
    requires Connected(leq) && Sorted(leq, s) && Sorted(leq, t) && Separates(leq, s)
    requires multiset(s) == multiset(t) && s != [] && t != []
    ensures s[0] == t[0]
  {
    SamePermutation(s, t);
    var x, y := s[0], t[0];
    assert x in t && y in s;
    var i :| 0 <= i < |t| && t[i] == x;
    var j :| 0 <= j < |s| && s[j] == y;
    assert leq(x, x);
    assert leq(y, x) by { if i > 0 { assert leq(t[0], t[i]); } }
    assert leq(x, y) by { if j > 0 { assert leq(s[0], s[j]); } }
  }

  lemma {:induction false} SortedUnique<T(!new)>(leq: (T, T) -> bool, s: seq<T>, t: seq<T>)
    requires Connected(leq) && Sorted(leq, s) && Sorted(leq, t) && Separates(leq, s)
    requires multiset(s) == multiset(t)
    ensures s == t
  {
    SamePermutation(s, t);
    if s != [] {
      SortedSameHead(leq, s, t);
      DropHead(s);
      DropHead(t);
      SortedUnique(leq, s[1..], t[1..]);
    }
  }

  lemma {:induction false} DropHead<T>(s: seq<T>)
    requires s != []
    ensures s == [s[0]] + s[1..]
    ensures multiset(s[1..]) == multiset(s) - multiset{s[0]}
  {
    assert s == [s[0]] + s[1..];
  }

  /** The sorted result depends only on which elements there are, not on their order. */
  lemma {:induction false} SortDependsOnElements<T(!new)>(leq: (T, T) -> bool, s: seq<T>, t: seq<T>)
    requires Connected(leq) && Transitive(leq) && Separates(leq, s)
    requires multiset(s) == multiset(t)
    ensures Sort(leq, s) == Sort(leq, t)
  {
    SortPermutes(leq, s);
    SortPermutes(leq, t);
    SortSorted(leq, s);
    SortSorted(leq, t);
    SortedUnique(leq, Sort(leq, s), Sort(leq, t));
  }

  // ---- filters and partitions

  function Filter<T>(p: T -> bool, s: seq<T>): seq<T> {
    if s == [] then [] else (if p(s[0]) then [s[0]] else []) + Filter(p, s[1..])
  }

  lemma {:induction false} FilterMember<T>(p: T -> bool, s: seq<T>)
    ensures forall x :: x in Filter(p, s) <==> x in s && p(x)
  {
    if s != [] {
      assert s == [s[0]] + s[1..];
      FilterMember(p, s[1..]);
    }
  }

  lemma {:induction false} FilterCount<T>(p: T -> bool, s: seq<T>, x: T)
    ensures multiset(Filter(p, s))[x] == if p(x) then multiset(s)[x] else 0
  {
    if s != [] {
      assert s == [s[0]] + s[1..];
      FilterCount(p, s[1..], x);
    }
  }

  function Map<T, U>(f: T -> U, s: seq<T>): (r: seq<U>)
    ensures |r| == |s|
    ensures forall i :: 0 <= i < |s| ==> r[i] == f(s[i])
  {
    if s == [] then [] else [f(s[0])] + Map(f, s[1..])
  }

  lemma {:induction false} MapAppend<T, U>(f: T -> U, s: seq<T>, t: seq<T>)
    ensures Map(f, s + t) == Map(f, s) + Map(f, t)
  {
  }

  lemma {:induction false} MapPermutes<T, U>(f: T -> U, s: seq<T>, t: seq<T>)
    requires multiset(s) == multiset(t)
    ensures multiset(Map(f, s)) == multiset(Map(f, t))
  {
    SamePermutation(s, t);
    if s != [] {
      assert s[0] in t;
      var i :| 0 <= i < |t| && t[i] == s[0];
      DropHead(s);
      TakeOut(t, i);
      MapPermutes(f, s[1..], t[..i] + t[i + 1..]);
      MapTakeOut(f, t, i);
    }
  }

  lemma {:induction false} TakeOut<T>(t: seq<T>, i: nat)
    requires i < |t|
    ensures multiset(t[..i] + t[i + 1..]) == multiset(t) - multiset{t[i]}
  {
    assert t == t[..i] + [t[i]] + t[i + 1..];
  }

  lemma {:induction false} MapWithout<T, U>(f: T -> U, t: seq<T>, i: nat)
    requires i < |t|
    ensures Map(f, t[..i] + t[i + 1..]) == Map(f, t)[..i] + Map(f, t)[i + 1..]
  {
    var left, right := t[..i] + t[i + 1..], Map(f, t)[..i] + Map(f, t)[i + 1..];
    assert |Map(f, left)| == |right|;
    forall k | 0 <= k < |right| ensures Map(f, left)[k] == right[k] {
      assert left[k] == if k < i then t[k] else t[k + 1];
    }
  }

  lemma {:induction false} MapTakeOut<T, U>(f: T -> U, t: seq<T>, i: nat)
    requires i < |t|
    ensures multiset(Map(f, t)) == multiset(Map(f, t[..i] + t[i + 1..])) + multiset{f(t[i])}
  {
    var m := Map(f, t);
    TakeOut(m, i);
    MapWithout(f, t, i);
    assert m[i] in m;
  }

  ghost predicate Distinct<T>(s: seq<T>) {
    forall i, j :: 0 <= i < j < |s| ==> s[i] != s[j]
  }

  /** The different elements of `s`, in the order they first occur: `[...new Set(s)]`. */
  function Dedup<T(==, !new)>(s: seq<T>): (r: seq<T>)
    ensures forall x :: x in r <==> x in s
    ensures Distinct(r)
  {
    if s == [] then []
    else
      var r := Dedup(s[..|s| - 1]);
      var x := s[|s| - 1];
      assert s == s[..|s| - 1] + [x];
      if x in r then r else r + [x]
  }

  /** Two distinct sequences with the same members are permutations of each other. */
  lemma {:induction false} DistinctSameMembers<T(!new)>(s: seq<T>, t: seq<T>)
    requires Distinct(s) && Distinct(t)
    requires forall x :: x in s <==> x in t
    ensures multiset(s) == multiset(t)
  {
    forall x ensures multiset(s)[x] == multiset(t)[x] {
      DistinctCount(s, x);
      DistinctCount(t, x);
    }
  }

  lemma {:induction false} DistinctCount<T>(s: seq<T>, x: T)
    requires Distinct(s)
    ensures multiset(s)[x] == if x in s then 1 else 0
  {
    if s != [] {
      assert s == [s[0]] + s[1..];
      DistinctCount(s[1..], x);
    }
  }

  lemma {:induction false} CountDistinct<T(!new)>(s: seq<T>)
    requires forall x :: multiset(s)[x] <= 1
    ensures Distinct(s)
  {
    forall i, j | 0 <= i < j < |s| ensures s[i] != s[j] {
      assert s == s[..j] + [s[j]] + s[j + 1..];
      assert multiset(s)[s[j]] >= multiset(s[..j])[s[j]] + 1;
      assert s[j] !in s[..j];
      assert s[i] == s[..j][i];
    }
  }

  function Flatten<T>(parts: seq<seq<T>>): seq<T> {
    if parts == [] then [] else parts[0] + Flatten(parts[1..])
  }

  /** The elements `f` takes to `k`, in order. */
  function FilterBy<T, K(==)>(f: T -> K, k: K, s: seq<T>): seq<T> {
    if s == [] then [] else (if f(s[0]) == k then [s[0]] else []) + FilterBy(f, k, s[1..])
  }

  lemma {:induction false} FilterByMember<T, K>(f: T -> K, k: K, s: seq<T>)
    ensures forall x :: x in FilterBy(f, k, s) <==> x in s && f(x) == k
  {
    if s != [] {
      assert s == [s[0]] + s[1..];
      FilterByMember(f, k, s[1..]);
    }
  }

  lemma {:induction false} FilterByCount<T, K>(f: T -> K, k: K, s: seq<T>, x: T)
    ensures multiset(FilterBy(f, k, s))[x] == if f(x) == k then multiset(s)[x] else 0
  {
    if s != [] {
      assert s == [s[0]] + s[1..];
      FilterByCount(f, k, s[1..], x);
    }
  }

  lemma {:induction false} FilterByPermutes<T(!new), K>(f: T -> K, k: K, s: seq<T>, t: seq<T>)
    requires multiset(s) == multiset(t)
    ensures multiset(FilterBy(f, k, s)) == multiset(FilterBy(f, k, t))
  {
    var a, b := multiset(FilterBy(f, k, s)), multiset(FilterBy(f, k, t));
    forall x ensures a[x] == b[x] {
      FilterByCount(f, k, s, x);
      FilterByCount(f, k, t, x);
    }
    assert a == b;
  }

  lemma {:induction false} FilterByAppend<T, K>(f: T -> K, k: K, s: seq<T>, x: T)
    ensures FilterBy(f, k, s + [x]) == FilterBy(f, k, s) + if f(x) == k then [x] else []
  {
    if s == [] {
      assert s + [x] == [x];
    } else {
      assert (s + [x])[1..] == s[1..] + [x];
      FilterByAppend(f, k, s[1..], x);
    }
  }

  /** Cutting `s` by the value of `f` and gluing the pieces loses and adds nothing. */
  lemma {:induction false} PartitionKeeps<T(!new), K>(f: T -> K, keys: seq<K>, s: seq<T>, pieces: seq<seq<T>>)
    requires Distinct(keys) && |pieces| == |keys|
    requires forall i :: 0 <= i < |keys| ==> multiset(pieces[i]) == multiset(FilterBy(f, keys[i], s))
    ensures forall x :: multiset(Flatten(pieces))[x] == if f(x) in keys then multiset(s)[x] else 0
  {
    if keys != [] {
      PartitionKeeps(f, keys[1..], s, pieces[1..]);
      forall x ensures multiset(Flatten(pieces))[x] == if f(x) in keys then multiset(s)[x] else 0 {
        FilterByCount(f, keys[0], s, x);
        assert keys == [keys[0]] + keys[1..];
      }
    }
  }

  /** The same, when every element is in one of the pieces. */
  lemma {:induction false} PartitionAll<T(!new), K>(f: T -> K, keys: seq<K>, s: seq<T>, pieces: seq<seq<T>>)
    requires Distinct(keys) && |pieces| == |keys|
    requires forall x :: x in s ==> f(x) in keys
    requires forall i :: 0 <= i < |keys| ==> multiset(pieces[i]) == multiset(FilterBy(f, keys[i], s))
    ensures multiset(Flatten(pieces)) == multiset(s)
  {
    PartitionKeeps(f, keys, s, pieces);
    var a, b := multiset(Flatten(pieces)), multiset(s);
    forall x ensures a[x] == b[x] {
      if f(x) !in keys { assert x !in s; }
    }
    assert a == b;
  }
}
