/** Python's stable `sorted(xs, key=...)` for string keys. */
module Sorting {
  import opened Text

  function Insert<T>(x: T, xs: seq<T>, key: T -> string): seq<T> {
    if xs == [] || Leq(key(x), key(xs[0])) then [x] + xs else [xs[0]] + Insert(x, xs[1..], key)
  }

  function SortBy<T>(xs: seq<T>, key: T -> string): seq<T> {
    if xs == [] then [] else Insert(xs[0], SortBy(xs[1..], key), key)
  }

  predicate SortedBy<T>(xs: seq<T>, key: T -> string) {
    forall i, j | 0 <= i < j < |xs| :: Leq(key(xs[i]), key(xs[j]))
  }

  lemma {:induction false} InsertSorted<T>(x: T, xs: seq<T>, key: T -> string)
    requires SortedBy(xs, key)
    ensures SortedBy(Insert(x, xs, key), key)
    ensures multiset(Insert(x, xs, key)) == multiset(xs) + multiset{x}
  {
    hide Leq;
    if xs == [] {
    } else if Leq(key(x), key(xs[0])) {
      PutFirst(x, xs, key);
    } else {
      LeqTotal(key(x), key(xs[0]));
      var t := Insert(x, xs[1..], key);
      InsertSorted(x, xs[1..], key);
      assert xs == [xs[0]] + xs[1..];
      forall y | y in t ensures Leq(key(xs[0]), key(y)) {
        assert y in multiset(t);
        if y != x {
          assert y in multiset(xs[1..]);
          var k :| 0 <= k < |xs[1..]| && xs[1..][k] == y;
          assert xs[k + 1] == y;
        }
      }
      KeepFirst(xs[0], t, key);
    }
  }

  lemma PutFirst<T>(x: T, xs: seq<T>, key: T -> string)
    requires SortedBy(xs, key) && xs != [] && Leq(key(x), key(xs[0]))
    ensures SortedBy([x] + xs, key)
  {
    hide Leq;
    forall y | y in xs ensures Leq(key(x), key(y)) {
      var j :| 0 <= j < |xs| && xs[j] == y;
      LeqTotal(key(xs[0]), key(xs[0]));
      LeqTransitive(key(x), key(xs[0]), key(xs[j]));
    }
    KeepFirst(x, xs, key);
  }

  lemma KeepFirst<T>(x: T, t: seq<T>, key: T -> string)
    requires SortedBy(t, key) && forall y | y in t :: Leq(key(x), key(y))
    ensures SortedBy([x] + t, key)
  {
    hide Leq;
    var r := [x] + t;
    forall i, j | 0 <= i < j < |r| ensures Leq(key(r[i]), key(r[j])) {
      assert r[j] == t[j - 1] && t[j - 1] in t;
      assert i > 0 ==> r[i] == t[i - 1];
    }
  }

  lemma {:induction false} SortByIsSorted<T>(xs: seq<T>, key: T -> string)
    ensures SortedBy(SortBy(xs, key), key)
    ensures multiset(SortBy(xs, key)) == multiset(xs)
  {
    if xs != [] {
      SortByIsSorted(xs[1..], key);
      InsertSorted(xs[0], SortBy(xs[1..], key), key);
      assert xs == [xs[0]] + xs[1..];
    }
  }

  /** The elements with one key, in order. */
  function Keyed<T>(xs: seq<T>, key: T -> string, k: string): seq<T> {
    if xs == [] then [] else (if key(xs[0]) == k then [xs[0]] else []) + Keyed(xs[1..], key, k)
  }

  lemma {:induction false} InsertKeyed<T>(x: T, xs: seq<T>, key: T -> string, k: string)
    requires SortedBy(xs, key)
    ensures Keyed(Insert(x, xs, key), key, k) == (if key(x) == k then [x] else []) + Keyed(xs, key, k)
  {
    if xs == [] || Leq(key(x), key(xs[0])) {
      KeyedFirst(x, xs, key, k);
    } else {
      hide Leq, Keyed, SortedBy;
      LeqTotal(key(x), key(x));
      RestSorted(xs, key);
      InsertKeyed(x, xs[1..], key, k);
      KeyedFirst(xs[0], Insert(x, xs[1..], key), key, k);
      KeyedFirst(xs[0], xs[1..], key, k);
      assert [xs[0]] + xs[1..] == xs;
    }
  }

  lemma KeyedFirst<T>(x: T, xs: seq<T>, key: T -> string, k: string)
    ensures Keyed([x] + xs, key, k) == (if key(x) == k then [x] else []) + Keyed(xs, key, k)
  {
    assert ([x] + xs)[1..] == xs;
  }

  lemma RestSorted<T>(xs: seq<T>, key: T -> string)
    requires SortedBy(xs, key) && xs != []
    ensures SortedBy(xs[1..], key)
  {
    hide Leq;
  }

  /** Sorting is stable: elements with the same key keep their order. */
  lemma {:induction false} SortByIsStable<T>(xs: seq<T>, key: T -> string, k: string)
    ensures Keyed(SortBy(xs, key), key, k) == Keyed(xs, key, k)
  {
    if xs != [] {
      SortByIsSorted(xs[1..], key);
      SortByIsStable(xs[1..], key, k);
      InsertKeyed(xs[0], SortBy(xs[1..], key), key, k);
    }
  }

  lemma SortByMembers<T>(xs: seq<T>, key: T -> string)
    ensures |SortBy(xs, key)| == |xs|
    ensures forall x :: x in SortBy(xs, key) <==> x in xs
  {
    SortByIsSorted(xs, key);
    var ys := SortBy(xs, key);
    assert |multiset(ys)| == |multiset(xs)|;
    forall x ensures x in ys <==> x in xs {
      assert x in ys <==> x in multiset(ys);
      assert x in xs <==> x in multiset(xs);
    }
  }

  /** Distinct keys stay distinct. */
  lemma SortByDistinct<T>(xs: seq<T>, key: T -> string)
    requires forall i, j | 0 <= i < j < |xs| :: key(xs[i]) != key(xs[j])
    ensures forall i, j | 0 <= i < j < |SortBy(xs, key)| :: key(SortBy(xs, key)[i]) != key(SortBy(xs, key)[j])
  {
    var ys := SortBy(xs, key);
    SortByIsSorted(xs, key);
    forall i, j | 0 <= i < j < |ys| ensures key(ys[i]) != key(ys[j]) {
      KeysStayApart(xs, ys, key, i, j);
    }
  }

  lemma KeysStayApart<T>(xs: seq<T>, ys: seq<T>, key: T -> string, i: nat, j: nat)
    requires forall a, b | 0 <= a < b < |xs| :: key(xs[a]) != key(xs[b])
    requires multiset(xs) == multiset(ys) && i < j < |ys|
    ensures key(ys[i]) != key(ys[j])
  {
    if key(ys[i]) == key(ys[j]) {
      assert ys[i] in multiset(xs) && ys[j] in multiset(xs);
      var a :| 0 <= a < |xs| && xs[a] == ys[i];
      var b :| 0 <= b < |xs| && xs[b] == ys[j];
      assert a == b;
      AtLeastTwice(ys, i, j);
      AtMostOnce(xs, a);
    }
  }

  lemma AtLeastTwice<T>(ys: seq<T>, i: nat, j: nat)
    requires i < j < |ys| && ys[i] == ys[j]
    ensures multiset(ys)[ys[i]] >= 2
  {
    assert ys == ys[..j] + [ys[j]] + ys[j + 1..];
    assert ys[..j][i] == ys[i];
    assert ys[i] in multiset(ys[..j]);
  }

  lemma AtMostOnce<T>(xs: seq<T>, a: nat)
    requires a < |xs| && forall b | 0 <= b < |xs| && b != a :: xs[b] != xs[a]
    ensures multiset(xs)[xs[a]] == 1
  {
    assert xs == xs[..a] + [xs[a]] + xs[a + 1..];
    assert xs[a] !in xs[..a] && xs[a] !in xs[a + 1..];
    assert multiset(xs)[xs[a]] == multiset(xs[..a])[xs[a]] + 1 + multiset(xs[a + 1..])[xs[a]];
  }
}
