/** A stable sort by an integer key, with the property that makes it unique. */
module StableSorting {

  predicate Sorted<T>(s: seq<T>, key: T -> int) {
    forall i, j :: 0 <= i < j < |s| ==> key(s[i]) <= key(s[j])
  }

  /** The elements of s whose key is k, in the order s has them. */
  function WithKey<T>(s: seq<T>, key: T -> int, k: int): seq<T> {
    if s == [] then []
    else (if key(s[0]) == k then [s[0]] else []) + WithKey(s[1..], key, k)
  }

  /** What std::stable_sort promises of its output t for the input s. */
  ghost predicate IsStableSortOf<T(!new)>(t: seq<T>, s: seq<T>, key: T -> int) {
    && Sorted(t, key)
    && forall k: int :: WithKey(t, key, k) == WithKey(s, key, k)
  }

  /** Puts x in front of the first element whose key is not smaller. */
  function Insert<T>(x: T, s: seq<T>, key: T -> int): (t: seq<T>)
    ensures multiset(t) == multiset([x]) + multiset(s)
  {
    if s == [] then [x]
    else if key(x) <= key(s[0]) then
      assert [x] + s == [x] + s;
      [x] + s
    else
      assert s == [s[0]] + s[1..];
      [s[0]] + Insert(x, s[1..], key)
  }

  function StableSort<T>(s: seq<T>, key: T -> int): (t: seq<T>)
    ensures multiset(t) == multiset(s)
  {
    if s == [] then []
    else
      assert s == [s[0]] + s[1..];
      Insert(s[0], StableSort(s[1..], key), key)
  }

  lemma {:induction false} InsertSorted<T>(x: T, s: seq<T>, key: T -> int)
    requires Sorted(s, key)
    ensures Sorted(Insert(x, s, key), key)
  {
    if s != [] && key(x) > key(s[0]) {
      InsertSorted(x, s[1..], key);
      var t := Insert(x, s[1..], key);
      forall y | y in t
        ensures key(s[0]) <= key(y)
      {
        assert y in multiset(t);
        assert y in multiset([x]) || y in multiset(s[1..]);
      }
    }
  }

  lemma WithKeyCons<T>(x: T, s: seq<T>, key: T -> int, k: int)
    ensures WithKey([x] + s, key, k) == (if key(x) == k then [x] else []) + WithKey(s, key, k)
  {
    assert ([x] + s)[1..] == s;
  }

  /** The elements with key k of x and s, x first. */
  function ConsWithKey<T>(x: T, s: seq<T>, key: T -> int, k: int): seq<T> {
    (if key(x) == k then [x] else []) + WithKey(s, key, k)
  }

  lemma InsertBehind<T>(x: T, h: T, rest: seq<T>, inserted: seq<T>, key: T -> int, k: int)
    requires key(x) > key(h) && WithKey(inserted, key, k) == ConsWithKey(x, rest, key, k)
    ensures WithKey([h] + inserted, key, k) == ConsWithKey(x, [h] + rest, key, k)
  {
    WithKeyCons(h, inserted, key, k);
    WithKeyCons(h, rest, key, k);
  }

  lemma {:induction false} InsertWithKey<T>(x: T, s: seq<T>, key: T -> int, k: int)
    ensures WithKey(Insert(x, s, key), key, k) == ConsWithKey(x, s, key, k)
  {
    if s == [] || key(x) <= key(s[0]) {
      WithKeyCons(x, s, key, k);
      assert Insert(x, s, key) == [x] + s;
    } else {
      var h, rest := s[0], s[1..];
      InsertWithKey(x, rest, key, k);
      InsertBehind(x, h, rest, Insert(x, rest, key), key, k);
      assert s == [h] + rest;
    }
  }

  lemma {:induction false} StableSortIsStable<T(!new)>(s: seq<T>, key: T -> int)
    ensures IsStableSortOf(StableSort(s, key), s, key)
  {
    if s != [] {
      StableSortIsStable(s[1..], key);
      var t := StableSort(s[1..], key);
      InsertSorted(s[0], t, key);
      forall k: int
        ensures WithKey(StableSort(s, key), key, k) == WithKey(s, key, k)
      {
        InsertWithKey(s[0], t, key, k);
        assert ([s[0]] + t)[1..] == t;
      }
    }
  }

  lemma {:induction false} WithKeyElements<T>(s: seq<T>, key: T -> int, k: int)
    ensures forall x :: x in WithKey(s, key, k) ==> x in s && key(x) == k
    ensures forall x :: x in s && key(x) == k ==> x in WithKey(s, key, k)
  {
    if s != [] {
      WithKeyElements(s[1..], key, k);
    }
  }

  /** Stability leaves no freedom: two stable sorts of the same list are the same list. */
  lemma {:induction false} StableSortUnique<T(!new)>(t: seq<T>, u: seq<T>, key: T -> int)
    requires Sorted(t, key) && Sorted(u, key)
    requires forall k: int :: WithKey(t, key, k) == WithKey(u, key, k)
    ensures t == u
  {
    if t != [] {
      var k := key(t[0]);
      assert t[0] in WithKey(t, key, k);
      WithKeyElements(u, key, k);
      assert u != [];
      var k' := key(u[0]);
      assert u[0] in WithKey(u, key, k');
      WithKeyElements(t, key, k');
      assert k == k';
      assert WithKey(t, key, k)[0] == t[0] && WithKey(u, key, k)[0] == u[0];
      forall j: int
        ensures WithKey(t[1..], key, j) == WithKey(u[1..], key, j)
      {
        var d := if j == k then [t[0]] else [];
        assert WithKey(t, key, j) == d + WithKey(t[1..], key, j);
        assert WithKey(u, key, j) == d + WithKey(u[1..], key, j);
        assert WithKey(t, key, j)[|d|..] == WithKey(t[1..], key, j);
        assert WithKey(u, key, j)[|d|..] == WithKey(u[1..], key, j);
      }
      StableSortUnique(t[1..], u[1..], key);
    }
  }
}
