/** The order Python sorts strings by, and sorting by it. */
module StringOrder {

  /** `a <= b`: character by character, a prefix first. */
  predicate AtMost(a: string, b: string) {
    a == "" || (b != "" && (a[0] < b[0] || (a[0] == b[0] && AtMost(a[1..], b[1..]))))
  }

  lemma {:induction false} AtMostTotal(a: string, b: string)
    ensures AtMost(a, b) || AtMost(b, a)
    ensures AtMost(a, b) && AtMost(b, a) ==> a == b
  {
    if a != "" && b != "" && a[0] == b[0] {
      AtMostTotal(a[1..], b[1..]);
      assert a == [a[0]] + a[1..] && b == [b[0]] + b[1..];
    }
  }

  lemma {:induction false} AtMostTransitive(a: string, b: string, c: string)
    requires AtMost(a, b) && AtMost(b, c)
    ensures AtMost(a, c)
  {
    if a != "" && a[0] == b[0] == c[0] {
      AtMostTransitive(a[1..], b[1..], c[1..]);
    }
  }

  predicate SortedBy<T>(key: T -> string, xs: seq<T>) {
    forall i, j :: 0 <= i < j < |xs| ==> AtMost(key(xs[i]), key(xs[j]))
  }

  function InsertBy<T>(key: T -> string, x: T, xs: seq<T>): seq<T> {
    if xs == [] || AtMost(key(x), key(xs[0])) then [x] + xs else [xs[0]] + InsertBy(key, x, xs[1..])
  }

  /** `sorted(xs, key=key)`, which keeps the order of equal keys. */
  function SortBy<T>(key: T -> string, xs: seq<T>): seq<T> {
    if xs == [] then [] else InsertBy(key, xs[0], SortBy(key, xs[1..]))
  }

  lemma {:induction false} InsertBySorts<T>(key: T -> string, x: T, xs: seq<T>)
    requires SortedBy(key, xs)
    ensures SortedBy(key, InsertBy(key, x, xs)) && multiset(InsertBy(key, x, xs)) == multiset(xs) + multiset{x}
  {
    hide AtMost;
    if xs != [] && !AtMost(key(x), key(xs[0])) {
      InsertBySorts(key, x, xs[1..]);
      assert xs == [xs[0]] + xs[1..];
      AtMostTotal(key(x), key(xs[0]));
      var rest := InsertBy(key, x, xs[1..]);
      forall k | 0 <= k < |rest|
        ensures AtMost(key(xs[0]), key(rest[k]))
      {
        assert rest[k] in multiset(rest);
      }
    } else {
      assert [x] + xs == InsertBy(key, x, xs);
      forall k | 0 <= k < |xs|
        ensures AtMost(key(x), key(xs[k]))
      {
        if k > 0 { AtMostTransitive(key(x), key(xs[0]), key(xs[k])); }
      }
    }
  }

  lemma {:induction false} SortBySorts<T>(key: T -> string, xs: seq<T>)
    ensures SortedBy(key, SortBy(key, xs)) && multiset(SortBy(key, xs)) == multiset(xs)
  {
    if xs != [] {
      SortBySorts(key, xs[1..]);
      InsertBySorts(key, xs[0], SortBy(key, xs[1..]));
      assert xs == [xs[0]] + xs[1..];
    }
  }

  function Self(w: string): string {
    w
  }

  lemma SameFirst(a: seq<string>, b: seq<string>)
    requires SortedBy(Self, a) && SortedBy(Self, b) && multiset(a) == multiset(b) && a != [] && b != []
    ensures a[0] == b[0]
  {
    hide AtMost;
    assert a[0] in multiset(b) && b[0] in multiset(a);
    var i :| 0 <= i < |b| && b[i] == a[0];
    var j :| 0 <= j < |a| && a[j] == b[0];
    AtMostTotal(a[0], b[0]);
    assert i > 0 ==> AtMost(Self(b[0]), Self(b[i]));
    assert j > 0 ==> AtMost(Self(a[0]), Self(a[j]));
  }

  /** A sorted list is fixed by its members. */
  lemma {:induction false} SortedIsUnique(a: seq<string>, b: seq<string>)
    requires SortedBy(Self, a) && SortedBy(Self, b) && multiset(a) == multiset(b)
    ensures a == b
  {
    assert |multiset(a)| == |multiset(b)|;
    if a != [] {
      SameFirst(a, b);
      hide SortedBy;
      assert a == [a[0]] + a[1..] && b == [b[0]] + b[1..];
      assert multiset(a[1..]) == multiset(a) - multiset{a[0]} == multiset(b[1..]);
      TailIsSorted(a);
      TailIsSorted(b);
      SortedIsUnique(a[1..], b[1..]);
    }
  }

  lemma TailIsSorted(a: seq<string>)
    requires SortedBy(Self, a) && a != []
    ensures SortedBy(Self, a[1..])
  {
  }
}
