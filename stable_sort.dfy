/** Python's `sorted(xs, key=key)`: a stable sort by a key under a total preorder.
    The model sorts by insertion; a stable sort's result is determined by its input,
    so any stable algorithm (Python's is TimSort) yields the same sequence. */
module StableSort {

  /** `le` compares any two keys and is transitive. */
  ghost predicate TotalPreorder<K(!new)>(le: (K, K) -> bool)
  {
    && (forall a, b :: le(a, b) || le(b, a))
    && (forall a, b, c :: le(a, b) && le(b, c) ==> le(a, c))
  }

  ghost predicate SortedBy<T, K>(s: seq<T>, key: T -> K, le: (K, K) -> bool)
  {
    forall i, j :: 0 <= i < j < |s| ==> le(key(s[i]), key(s[j]))
  }

  /** The elements of `s` whose key is `k`, in their order in `s`. */
  function Select<T, K(==)>(s: seq<T>, key: T -> K, k: K): seq<T>
  {
    if s == [] then []
    else (if key(s[0]) == k then [s[0]] else []) + Select(s[1..], key, k)
  }

  /** Puts `x` in front of the first element whose key it does not exceed. */
  function Insert<T, K>(x: T, s: seq<T>, key: T -> K, le: (K, K) -> bool): (r: seq<T>)
    ensures multiset(r) == multiset(s) + multiset{x}
  {
    if s == [] || le(key(x), key(s[0])) then [x] + s
    else
      assert s == [s[0]] + s[1..];
      [s[0]] + Insert(x, s[1..], key, le)
  }

  function SortBy<T, K>(s: seq<T>, key: T -> K, le: (K, K) -> bool): (r: seq<T>)
    ensures multiset(r) == multiset(s)
  {
    if s == [] then []
    else
      assert s == [s[0]] + s[1..];
      Insert(s[0], SortBy(s[1..], key, le), key, le)
  }

  lemma {:induction false} SelectAppend<T, K>(a: seq<T>, b: seq<T>, key: T -> K, k: K)
    ensures Select(a + b, key, k) == Select(a, key, k) + Select(b, key, k)
  {
    if a == [] {
      assert a + b == b;
    } else {
      assert a + b == [a[0]] + (a[1..] + b);
      SelectCons(a[0], a[1..] + b, key, k);
      SelectAppend(a[1..], b, key, k);
      assert a == [a[0]] + a[1..];
      SelectCons(a[0], a[1..], key, k);
    }
  }

  lemma {:induction false} InsertSorted<T, K(!new)>(x: T, s: seq<T>, key: T -> K, le: (K, K) -> bool)
    requires TotalPreorder(le)
    requires SortedBy(s, key, le)
    ensures SortedBy(Insert(x, s, key, le), key, le)
  {
    if s != [] && !le(key(x), key(s[0])) {
      var t := Insert(x, s[1..], key, le);
      InsertSorted(x, s[1..], key, le);
      forall y | y in t
        ensures le(key(s[0]), key(y))
      {
        assert y in multiset(t);
        if y != x {
          assert y in s[1..];
        }
      }
    }
  }

  /** The output of the sort is ordered by key. */
  lemma {:induction false} SortBySorted<T, K(!new)>(s: seq<T>, key: T -> K, le: (K, K) -> bool)
    requires TotalPreorder(le)
    ensures SortedBy(SortBy(s, key, le), key, le)
  {
    if s != [] {
      SortBySorted(s[1..], key, le);
      InsertSorted(s[0], SortBy(s[1..], key, le), key, le);
    }
  }

  /** Sorting a sequence that is already ordered leaves it as it is. */
  lemma {:induction false} SortBySortedInput<T, K(!new)>(s: seq<T>, key: T -> K, le: (K, K) -> bool)
    requires SortedBy(s, key, le)
    ensures SortBy(s, key, le) == s
  {
    if s != [] {
      assert SortedBy(s[1..], key, le) by {
        forall i, j | 0 <= i < j < |s[1..]|
          ensures le(key(s[1..][i]), key(s[1..][j]))
        {
          assert s[1..][i] == s[i + 1] && s[1..][j] == s[j + 1];
        }
      }
      SortBySortedInput(s[1..], key, le);
      assert s == [s[0]] + s[1..];
      if |s| > 1 {
        assert le(key(s[0]), key(s[1..][0]));
      }
    }
  }

  lemma {:induction false} SelectCons<T, K>(x: T, s: seq<T>, key: T -> K, k: K)
    ensures Select([x] + s, key, k) == (if key(x) == k then [x] else []) + Select(s, key, k)
  {
    assert ([x] + s)[1..] == s;
  }

  lemma {:induction false} InsertSelect<T, K>(x: T, s: seq<T>, key: T -> K, le: (K, K) -> bool, k: K)
    requires le(key(x), key(x))
    ensures Select(Insert(x, s, key, le), key, k) == (if key(x) == k then [x] else []) + Select(s, key, k)
  {
    if s == [] || le(key(x), key(s[0])) {
      SelectCons(x, s, key, k);
    } else {
      var t := Insert(x, s[1..], key, le);
      assert Insert(x, s, key, le) == [s[0]] + t;
      assert s == [s[0]] + s[1..];
      var mine: seq<T> := if key(x) == k then [x] else [];
      var head: seq<T> := if key(s[0]) == k then [s[0]] else [];
      var rest := Select(s[1..], key, k);
      InsertSelect(x, s[1..], key, le, k);
      SelectCons(s[0], t, key, k);
      SelectCons(s[0], s[1..], key, k);
      assert Select(Insert(x, s, key, le), key, k) == head + (mine + rest);
      assert Select(s, key, k) == head + rest;
      if key(x) == k {
        assert head == [];
        assert head + (mine + rest) == mine + (head + rest);
      } else {
        assert mine == [];
        assert head + (mine + rest) == mine + (head + rest);
      }
    }
  }

  /** Stability: the elements that share a key keep their relative order. */
  lemma {:induction false} SortByStable<T, K(!new)>(s: seq<T>, key: T -> K, le: (K, K) -> bool, k: K)
    requires TotalPreorder(le)
    ensures Select(SortBy(s, key, le), key, k) == Select(s, key, k)
  {
    if s != [] {
      SortByStable(s[1..], key, le, k);
      assert le(key(s[0]), key(s[0]));
      InsertSelect(s[0], SortBy(s[1..], key, le), key, le, k);
    }
  }
}
