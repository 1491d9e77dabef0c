/** Python's `sorted(xs, key=...)` and `list.sort(key=...)`: a stable sort, which
    is unique — the result is ordered by key and keeps the input order among
    equal keys — so any stable sort describes it. Insertion sort is used here.
    A descending sort (`reverse=True`, also stable) is the ascending sort on the
    negated key. Also `sorted()` of a collection of distinct strings. */
module StableSort {
  import opened PyStr

  ghost predicate SortedBy<T>(s: seq<T>, key: T -> real) {
    forall i, j :: 0 <= i < j < |s| ==> key(s[i]) <= key(s[j])
  }

  /** The elements whose key is `v`, in their order in `s`. */
  function WithKey<T>(s: seq<T>, key: T -> real, v: real): seq<T> {
    if s == [] then []
    else WithKey(s[..|s| - 1], key, v) + (if key(s[|s| - 1]) == v then [s[|s| - 1]] else [])
  }

  lemma {:induction false} WithKeyConcat<T>(a: seq<T>, b: seq<T>, key: T -> real, v: real)
    ensures WithKey(a + b, key, v) == WithKey(a, key, v) + WithKey(b, key, v)
    decreases |b|
  {
    if b == [] {
      assert a + b == a;
    } else {
      var b0 := b[..|b| - 1];
      assert (a + b)[..|a + b| - 1] == a + b0;
      WithKeyConcat(a, b0, key, v);
    }
  }

  /** `x` placed after every element whose key is at most its own. */
  function Insert<T>(s: seq<T>, x: T, key: T -> real): seq<T> {
    if s == [] then [x]
    else if key(x) < key(s[0]) then [x] + s
    else [s[0]] + Insert(s[1..], x, key)
  }

  function Sort<T>(xs: seq<T>, key: T -> real): seq<T> {
    if xs == [] then [] else Insert(Sort(xs[..|xs| - 1], key), xs[|xs| - 1], key)
  }

  lemma {:induction false} InsertPerm<T>(s: seq<T>, x: T, key: T -> real)
    ensures multiset(Insert(s, x, key)) == multiset(s) + multiset{x}
    ensures |Insert(s, x, key)| == |s| + 1
  {
    if s != [] && !(key(x) < key(s[0])) {
      InsertPerm(s[1..], x, key);
      assert s == [s[0]] + s[1..];
    }
  }

  lemma {:induction false} InsertSorted<T>(s: seq<T>, x: T, key: T -> real)
    requires SortedBy(s, key)
    ensures SortedBy(Insert(s, x, key), key)
  {
    if s != [] && !(key(x) < key(s[0])) {
      InsertSorted(s[1..], x, key);
      InsertPerm(s[1..], x, key);
      var r := Insert(s[1..], x, key);
      forall i | 0 <= i < |r| ensures key(s[0]) <= key(r[i]) {
        assert r[i] in multiset(s[1..]) + multiset{x};
      }
    }
  }

  /** Inserting into a sorted sequence puts `x` after the elements that share its key. */
  lemma {:induction false} InsertWithKey<T>(s: seq<T>, x: T, key: T -> real, v: real)
    requires SortedBy(s, key)
    ensures WithKey(Insert(s, x, key), key, v) == WithKey(s, key, v) + (if key(x) == v then [x] else [])
  {
    WithKeyShort(x, key, v);
    hide WithKey;
    if s == [] {
    } else if key(x) < key(s[0]) {
      WithKeyConcat([x], s, key, v);
      if key(x) == v {
        WithKeyNone(s, key, v);
      }
    } else {
      var r := Insert(s[1..], x, key);
      assert Insert(s, x, key) == [s[0]] + r;
      hide Insert;
      InsertWithKey(s[1..], x, key, v);
      WithKeyConcat([s[0]], r, key, v);
      WithKeyConcat([s[0]], s[1..], key, v);
      assert s == [s[0]] + s[1..];
    }
  }

  /** The elements with key `v` of an empty and of a one-element sequence. */
  lemma WithKeyShort<T>(x: T, key: T -> real, v: real)
    ensures WithKey([], key, v) == []
    ensures WithKey([x], key, v) == if key(x) == v then [x] else []
  {
    assert [x][..0] == [];
  }

  /** No element of `s` has key `v` when all keys exceed it. */
  lemma {:induction false} WithKeyNone<T>(s: seq<T>, key: T -> real, v: real)
    requires forall i :: 0 <= i < |s| ==> v < key(s[i])
    ensures WithKey(s, key, v) == []
  {
    if s != [] {
      WithKeyNone(s[..|s| - 1], key, v);
    }
  }

  /** The sorted sequence is ordered by key, is a permutation of the input, and
      lists the elements of each key in input order (stability). */
  lemma {:induction false} SortCorrect<T>(xs: seq<T>, key: T -> real)
    ensures SortedBy(Sort(xs, key), key)
    ensures multiset(Sort(xs, key)) == multiset(xs)
    ensures |Sort(xs, key)| == |xs|
    ensures forall v :: WithKey(Sort(xs, key), key, v) == WithKey(xs, key, v)
  {
    if xs != [] {
      var init, x := xs[..|xs| - 1], xs[|xs| - 1];
      SortCorrect(init, key);
      InsertSorted(Sort(init, key), x, key);
      InsertPerm(Sort(init, key), x, key);
      assert xs == init + [x];
      forall v ensures WithKey(Sort(xs, key), key, v) == WithKey(xs, key, v) {
        InsertWithKey(Sort(init, key), x, key, v);
      }
    }
  }

  /** Sorting only rearranges: every element of the result was an input. */
  lemma SortedMembers<T>(xs: seq<T>, key: T -> real)
    ensures forall k :: 0 <= k < |Sort(xs, key)| ==> Sort(xs, key)[k] in xs
  {
    SortCorrect(xs, key);
    var sorted := Sort(xs, key);
    forall k | 0 <= k < |sorted| ensures sorted[k] in xs {
      assert sorted[k] in multiset(xs);
    }
  }

  /** Where insertion lands: before the first element with a larger key. */
  lemma {:induction false} InsertAt<T>(s: seq<T>, x: T, key: T -> real, p: nat)
    requires p <= |s|
    requires forall i :: 0 <= i < p ==> key(s[i]) <= key(x)
    requires p == |s| || key(x) < key(s[p])
    ensures Insert(s, x, key) == s[..p] + [x] + s[p..]
  {
    if p > 0 {
      InsertAt(s[1..], x, key, p - 1);
      assert s[..p] == [s[0]] + s[1..][..p - 1];
      assert s[p..] == s[1..][p - 1..];
    }
  }

  // ---------------------------------------------------------------------------
  // sorted() of distinct strings

  ghost predicate StrictlySorted(s: seq<string>) {
    forall i, j :: 0 <= i < j < |s| ==> LexLess(s[i], s[j])
  }

  function InsertStr(s: seq<string>, x: string): seq<string> {
    if s == [] then [x]
    else if LexLess(x, s[0]) then [x] + s
    else [s[0]] + InsertStr(s[1..], x)
  }

  /** Python's `sorted(strings)`. */
  function SortStrings(xs: seq<string>): seq<string> {
    if xs == [] then [] else InsertStr(SortStrings(xs[..|xs| - 1]), xs[|xs| - 1])
  }

  /** Inserting adds exactly the one string. */
  lemma {:induction false} InsertStrCount(s: seq<string>, x: string)
    ensures multiset(InsertStr(s, x)) == multiset(s) + multiset{x}
  {
    if s != [] && !LexLess(x, s[0]) {
      InsertStrCount(s[1..], x);
      assert s == [s[0]] + s[1..];
    }
  }

  /** A string below every element of an increasing list can go in front of it. */
  lemma SortedCons(h: string, r: seq<string>)
    requires StrictlySorted(r)
    requires forall i :: 0 <= i < |r| ==> LexLess(h, r[i])
    ensures StrictlySorted([h] + r)
  {
    hide LexLess;
    forall i, j | 0 <= i < j < |[h] + r| ensures LexLess(([h] + r)[i], ([h] + r)[j]) {
      if i == 0 {
        assert ([h] + r)[j] == r[j - 1];
      } else {
        assert ([h] + r)[i] == r[i - 1] && ([h] + r)[j] == r[j - 1];
      }
    }
  }

  /** Inserting a new string into an increasing list keeps it increasing. */
  lemma {:induction false} InsertStrSorted(s: seq<string>, x: string)
    requires StrictlySorted(s) && x !in s
    ensures StrictlySorted(InsertStr(s, x))
  {
    if s == [] {
    } else if LexLess(x, s[0]) {
      hide LexLess;
      forall i | 0 <= i < |s| ensures LexLess(x, s[i]) {
        if i > 0 { LexTransitive(x, s[0], s[i]); }
      }
      SortedCons(x, s);
    } else {
      hide LexLess, InsertStr;
      assert x != s[0];
      LexTotal(x, s[0]);
      assert s == [s[0]] + s[1..];
      InsertStrSorted(s[1..], x);
      InsertStrCount(s[1..], x);
      var r := InsertStr(s[1..], x);
      forall i | 0 <= i < |r| ensures LexLess(s[0], r[i]) {
        assert r[i] in multiset(s[1..]) + multiset{x};
      }
      SortedCons(s[0], r);
    }
  }

  /** Sorting distinct strings lists each exactly once, in increasing order. */
  lemma {:induction false} SortStringsCorrect(xs: seq<string>)
    requires Distinct(xs)
    ensures StrictlySorted(SortStrings(xs))
    ensures multiset(SortStrings(xs)) == multiset(xs)
  {
    if xs != [] {
      var init, x := xs[..|xs| - 1], xs[|xs| - 1];
      SortStringsCorrect(init);
      assert xs == init + [x];
      assert x !in multiset(init);
      InsertStrCount(SortStrings(init), x);
      InsertStrSorted(SortStrings(init), x);
    }
  }
}
