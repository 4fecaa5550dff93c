/** What the Rust standard library promises of `sort_by` and `sort_by_key`:
    a sorted permutation that keeps equal elements in their original order. */
module Sorting {

  ghost predicate TotalPreorder<T(!new)>(le: (T, T) -> bool) {
    && (forall x, y :: le(x, y) || le(y, x))
    && (forall x, y, z :: le(x, y) && le(y, z) ==> le(x, z))
  }

  ghost predicate SortedBy<T(!new)>(le: (T, T) -> bool, s: seq<T>) {
    forall i, j | 0 <= i < j < |s| :: le(s[i], s[j])
  }

  /** The elements of `s` that compare equal to `x`, in the order of `s`. */
  ghost function EqualTo<T(!new)>(le: (T, T) -> bool, s: seq<T>, x: T): seq<T> {
    if s == [] then []
    else (if le(s[0], x) && le(x, s[0]) then [s[0]] else []) + EqualTo(le, s[1..], x)
  }

  function Insert<T>(le: (T, T) -> bool, x: T, s: seq<T>): seq<T> {
    if s == [] || le(x, s[0]) then [x] + s else [s[0]] + Insert(le, x, s[1..])
  }

  function StableSort<T>(le: (T, T) -> bool, s: seq<T>): seq<T> {
    if s == [] then [] else Insert(le, s[0], StableSort(le, s[1..]))
  }

  lemma {:induction false} InsertPermutes<T>(le: (T, T) -> bool, x: T, s: seq<T>)
    ensures multiset(Insert(le, x, s)) == multiset([x] + s)
    ensures |Insert(le, x, s)| == |s| + 1
  {
    if s != [] && !le(x, s[0]) {
      InsertPermutes(le, x, s[1..]);
      assert s == [s[0]] + s[1..];
    }
  }

  lemma {:induction false} StableSortPermutes<T>(le: (T, T) -> bool, s: seq<T>)
    ensures multiset(StableSort(le, s)) == multiset(s)
    ensures |StableSort(le, s)| == |s|
  {
    if s != [] {
      StableSortPermutes(le, s[1..]);
      InsertPermutes(le, s[0], StableSort(le, s[1..]));
      assert s == [s[0]] + s[1..];
    }
  }

  lemma {:induction false} InsertSorts<T(!new)>(le: (T, T) -> bool, x: T, s: seq<T>)
    requires TotalPreorder(le) && SortedBy(le, s)
    ensures SortedBy(le, Insert(le, x, s))
  {
    if s != [] && !le(x, s[0]) {
      InsertSorts(le, x, s[1..]);
      var rest := Insert(le, x, s[1..]);
      InsertPermutes(le, x, s[1..]);
      forall y | y in rest
        ensures le(s[0], y)
      {
        assert y in multiset(rest);
        assert y in multiset([x] + s[1..]);
        if y != x {
          assert y in s[1..];
        }
      }
    }
  }

  lemma {:induction false} StableSortSorts<T(!new)>(le: (T, T) -> bool, s: seq<T>)
    requires TotalPreorder(le)
    ensures SortedBy(le, StableSort(le, s))
  {
    if s != [] {
      StableSortSorts(le, s[1..]);
      InsertSorts(le, s[0], StableSort(le, s[1..]));
    }
  }

  lemma {:induction false} InsertIsStable<T(!new)>(le: (T, T) -> bool, x: T, s: seq<T>, key: T)
    requires TotalPreorder(le)
    ensures EqualTo(le, Insert(le, x, s), key) == EqualTo(le, [x] + s, key)
  {
    assert ([x] + s)[1..] == s;
    if s != [] && !le(x, s[0]) {
      InsertIsStable(le, x, s[1..], key);
      var rest := Insert(le, x, s[1..]);
      assert ([s[0]] + rest)[1..] == rest;
      assert ([x] + s[1..])[1..] == s[1..];
      assert !(le(x, key) && le(key, x) && le(s[0], key) && le(key, s[0]));
    }
  }

  lemma {:induction false} StableSortIsStable<T(!new)>(le: (T, T) -> bool, s: seq<T>, key: T)
    requires TotalPreorder(le)
    ensures EqualTo(le, StableSort(le, s), key) == EqualTo(le, s, key)
  {
    if s != [] {
      StableSortIsStable(le, s[1..], key);
      InsertIsStable(le, s[0], StableSort(le, s[1..]), key);
      var rest := StableSort(le, s[1..]);
      assert ([s[0]] + rest)[1..] == rest;
    }
  }

  /** A sequence that is already sorted is left exactly as it is. */
  lemma {:induction false} StableSortOfSorted<T(!new)>(le: (T, T) -> bool, s: seq<T>)
    requires SortedBy(le, s)
    ensures StableSort(le, s) == s
  {
    if s != [] {
      StableSortOfSorted(le, s[1..]);
      assert s == [s[0]] + s[1..];
      if |s| > 1 {
        assert s[1..][0] == s[1];
      }
    }
  }

  lemma {:induction false} EqualToHasEqual<T(!new)>(le: (T, T) -> bool, s: seq<T>, key: T)
    requires EqualTo(le, s, key) != []
    ensures exists y | y in s :: le(y, key) && le(key, y)
  {
    if !(le(s[0], key) && le(key, s[0])) {
      EqualToHasEqual(le, s[1..], key);
    }
  }

  /** Sortedness and stability leave no freedom: they determine the result. */
  lemma {:induction false} StableSortUnique<T(!new)>(le: (T, T) -> bool, s: seq<T>, t: seq<T>)
    requires TotalPreorder(le) && SortedBy(le, s) && SortedBy(le, t)
    requires forall key :: EqualTo(le, s, key) == EqualTo(le, t, key)
    ensures s == t
  {
    if t != [] {
      var first := t[0];
      assert EqualTo(le, s, first) == EqualTo(le, t, first);
    }
    if s != [] {
      assert EqualTo(le, t, s[0]) == EqualTo(le, s, s[0]) != [];
      EqualToHasEqual(le, t, s[0]);
      assert EqualTo(le, s, t[0]) == EqualTo(le, t, t[0]) != [];
      EqualToHasEqual(le, s, t[0]);
      assert le(s[0], t[0]) && le(t[0], s[0]);
      assert s[0] == EqualTo(le, s, s[0])[0] == EqualTo(le, t, s[0])[0] == t[0];
      forall key
        ensures EqualTo(le, s[1..], key) == EqualTo(le, t[1..], key)
      {
        assert EqualTo(le, s, key) == EqualTo(le, t, key);
        var head := if le(s[0], key) && le(key, s[0]) then [s[0]] else [];
        assert EqualTo(le, s, key)[|head|..] == EqualTo(le, s[1..], key);
        assert EqualTo(le, t, key)[|head|..] == EqualTo(le, t[1..], key);
      }
      StableSortUnique(le, s[1..], t[1..]);
    }
  }
}
