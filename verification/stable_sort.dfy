/** `Array.prototype.sort` with a comparator of the form `(a, b) => key(b) - key(a)`,
    as section 23.1.3.30 of ECMA-262 describes it: the sort is stable, and a
    comparator result of NaN counts as +0, i.e. "equal". A key is `None` when it
    is NaN (an unparsable date). The model is an insertion sort; when some key is
    NaN the comparator is inconsistent, ECMA-262 leaves the order to the
    implementation, and this is one permitted order. */
module StableSort {
  import opened Wrappers
  import Seqs

  /** `y` must be placed before `x`: the comparator `key(y) - key(x)` is positive. */
  predicate Outranks(ky: Option<int>, kx: Option<int>) {
    ky.Some? && kx.Some? && ky.value > kx.value
  }

  /** Places `x` before the first element of `s` that does not outrank it. */
  function Insert<T(!new)>(x: T, s: seq<T>, key: T -> Option<int>): (r: seq<T>)
    ensures multiset(r) == multiset(s) + multiset{x}
    ensures forall y :: y in r <==> y == x || y in s
  {
    if s == [] || !Outranks(key(s[0]), key(x)) then [x] + s
    else
      assert s == [s[0]] + s[1..];
      [s[0]] + Insert(x, s[1..], key)
  }

  /** Sorts by key, largest first, keeping the input order of equal keys. */
  function SortDesc<T(!new)>(s: seq<T>, key: T -> Option<int>): (r: seq<T>)
    ensures multiset(r) == multiset(s)
  {
    if s == [] then []
    else
      assert s == [s[0]] + s[1..];
      Insert(s[0], SortDesc(s[1..], key), key)
  }

  /** Every key is a number (no NaN). */
  predicate AllKeyed<T>(s: seq<T>, key: T -> Option<int>) {
    forall i :: 0 <= i < |s| ==> key(s[i]).Some?
  }

  /** Keys are non-increasing along `s`. */
  predicate SortedDesc<T>(s: seq<T>, key: T -> Option<int>)
    requires AllKeyed(s, key)
  {
    forall i, j :: 0 <= i < j < |s| ==> key(s[i]).value >= key(s[j]).value
  }

  /** `(x) => key(x) == k`. */
  function KeyIs<T>(key: T -> Option<int>, k: Option<int>): T -> bool {
    (x: T) => key(x) == k
  }

  /** The elements of `s` whose key is `k`, in order. */
  function WithKey<T(==,!new)>(s: seq<T>, key: T -> Option<int>, k: Option<int>): (r: seq<T>)
    ensures forall x :: x in r <==> x in s && key(x) == k
  {
    Seqs.Filter(s, KeyIs(key, k))
  }

  lemma {:induction false} InsertSorted<T(!new)>(x: T, s: seq<T>, key: T -> Option<int>)
    requires AllKeyed(s, key) && key(x).Some? && SortedDesc(s, key)
    ensures AllKeyed(Insert(x, s, key), key)
    ensures SortedDesc(Insert(x, s, key), key)
  {
    if s == [] || !Outranks(key(s[0]), key(x)) {
    } else {
      InsertSorted(x, s[1..], key);
      var t := Insert(x, s[1..], key);
      forall j | 0 <= j < |t| ensures key(s[0]).value >= key(t[j]).value {
        if t[j] != x {
          assert t[j] in s[1..];
          var m :| 0 <= m < |s[1..]| && s[1..][m] == t[j];
          assert s[m + 1] == t[j];
        }
      }
    }
  }

  /** With every key a number, the result is ordered largest key first. */
  lemma {:induction false} SortDescSorted<T(!new)>(s: seq<T>, key: T -> Option<int>)
    requires AllKeyed(s, key)
    ensures AllKeyed(SortDesc(s, key), key)
    ensures SortedDesc(SortDesc(s, key), key)
  {
    if s != [] {
      assert AllKeyed(s[1..], key) by {
        forall i | 0 <= i < |s[1..]| ensures key(s[1..][i]).Some? {
          assert s[1..][i] == s[i + 1];
        }
      }
      SortDescSorted(s[1..], key);
      InsertSorted(s[0], SortDesc(s[1..], key), key);
    }
  }

  lemma {:induction false} InsertWithKey<T(!new)>(x: T, s: seq<T>, key: T -> Option<int>, k: Option<int>)
    ensures WithKey(Insert(x, s, key), key, k)
         == if key(x) == k then [x] + WithKey(s, key, k) else WithKey(s, key, k)
  {
    if s == [] || !Outranks(key(s[0]), key(x)) {
      assert ([x] + s)[1..] == s;
    } else {
      InsertWithKey(x, s[1..], key, k);
      assert ([s[0]] + Insert(x, s[1..], key))[1..] == Insert(x, s[1..], key);
    }
  }

  /** Stability: for every key, the elements carrying it appear in the result
      exactly as, and in the same order as, in the input. */
  lemma {:induction false} SortDescStable<T(!new)>(s: seq<T>, key: T -> Option<int>, k: Option<int>)
    ensures WithKey(SortDesc(s, key), key, k) == WithKey(s, key, k)
  {
    if s != [] {
      SortDescStable(s[1..], key, k);
      InsertWithKey(s[0], SortDesc(s[1..], key), key, k);
    }
  }

  /** Keys 3, 1, 2 sort to the order first, third, second. */
  lemma SortThreeExample<T(!new)>(a: T, b: T, c: T, key: T -> Option<int>)
    requires key(a) == Some(3) && key(b) == Some(1) && key(c) == Some(2)
    ensures SortDesc([a, b, c], key) == [a, c, b]
  {
    assert [a, b, c][1..] == [b, c] && [b, c][1..] == [c] && [c][1..] == [];
    assert SortDesc([c], key) == [c];
    assert Outranks(key(c), key(b));
    assert Insert(b, [c], key) == [c] + Insert(b, [], key);
    assert SortDesc([b, c], key) == [c, b];
    assert !Outranks(key(c), key(a));
    assert Insert(a, [c, b], key) == [a, c, b];
  }
}
