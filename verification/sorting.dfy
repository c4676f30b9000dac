/** `Array.prototype.sort` with a comparator of the form `key(a) - key(b)`.
    The sort is stable (as ECMAScript 2019 requires), so it is modelled as an
    insertion sort by an integer key; a descending comparator `key(b) - key(a)`
    is the same sort on the negated key. */
module Sorting {
  import opened Seqs

  /** Keys never decrease from left to right. */
  predicate SortedBy<T>(s: seq<T>, key: T -> int) {
    forall i, j | 0 <= i < j < |s| :: key(s[i]) <= key(s[j])
  }

  /** `x` placed before the first element whose key is at least its own. */
  function Insert<T>(x: T, s: seq<T>, key: T -> int): (r: seq<T>)
    requires SortedBy(s, key)
    ensures SortedBy(r, key)
    ensures multiset(r) == multiset(s) + multiset{x}
    ensures |r| == |s| + 1
    ensures |s| == 0 ==> r == [x]
    ensures |s| > 0 ==> r[0] == x || r[0] == s[0]
  {
    if |s| == 0 then [x]
    else if key(x) <= key(s[0]) then [x] + s
    else
      assert s == [s[0]] + s[1..];
      var rest := Insert(x, s[1..], key);
      assert forall j | 0 <= j < |rest| :: key(s[0]) <= key(rest[0]) <= key(rest[j]);
      [s[0]] + rest
  }

  /** The stable sort of `s` by ascending `key`. */
  function SortByKey<T>(s: seq<T>, key: T -> int): (r: seq<T>)
    ensures SortedBy(r, key)
    ensures multiset(r) == multiset(s)
    ensures |r| == |s|
  {
    if |s| == 0 then []
    else
      assert s == [s[0]] + s[1..];
      Insert(s[0], SortByKey(s[1..], key), key)
  }

  /** The elements that carry key `v`, in order. */
  function WithKey<T(!new)>(s: seq<T>, key: T -> int, v: int): (r: seq<T>)
    ensures forall i | 0 <= i < |r| :: key(r[i]) == v
  {
    Filter(s, t => key(t) == v)
  }

  /** Inserting `x` adds it in front of the elements sharing its key. */
  lemma {:induction false} InsertWithKey<T(!new)>(x: T, s: seq<T>, key: T -> int, v: int)
    requires SortedBy(s, key)
    ensures WithKey(Insert(x, s, key), key, v) == (if key(x) == v then [x] else []) + WithKey(s, key, v)
  {
    if |s| == 0 {
      WithKeyCons(x, s, key, v);
      assert [x] + s == [x];
    } else if key(x) <= key(s[0]) {
      WithKeyCons(x, s, key, v);
    } else {
      assert SortedBy(s[1..], key);
      InsertWithKey(x, s[1..], key, v);
      WithKeyPastHead(x, s[0], s[1..], Insert(x, s[1..], key), key, v);
      assert s == [s[0]] + s[1..];
    }
  }

  /** Passing a head `a` whose key differs from `x`'s: if the run of key `v`
      in `rest` is `t`'s with `x` in front (when it has key `v`), the same
      holds with `a` put in front of both. */
  lemma WithKeyPastHead<T(!new)>(x: T, a: T, t: seq<T>, rest: seq<T>, key: T -> int, v: int)
    requires key(x) != key(a)
    requires WithKey(rest, key, v) == (if key(x) == v then [x] else []) + WithKey(t, key, v)
    ensures WithKey([a] + rest, key, v) == (if key(x) == v then [x] else []) + WithKey([a] + t, key, v)
  {
    WithKeyCons(a, rest, key, v);
    WithKeyCons(a, t, key, v);
  }

  /** Selecting by key from `[x] + t` is `x`, when it has the key, then the
      selection from `t`. */
  lemma WithKeyCons<T(!new)>(x: T, t: seq<T>, key: T -> int, v: int)
    ensures WithKey([x] + t, key, v) == (if key(x) == v then [x] else []) + WithKey(t, key, v)
  {
    assert ([x] + t)[1..] == t;
    assert ([x] + t)[0] == x;
  }

  /** Two key selections that pick the same elements of `s` select the same run. */
  lemma {:induction false} WithKeyExt<T(!new)>(s: seq<T>, k1: T -> int, v1: int, k2: T -> int, v2: int)
    requires forall i | 0 <= i < |s| :: (k1(s[i]) == v1) == (k2(s[i]) == v2)
    ensures WithKey(s, k1, v1) == WithKey(s, k2, v2)
  {
    if |s| > 0 {
      WithKeyExt(s[1..], k1, v1, k2, v2);
    }
  }

  /** Stability: among the elements with any one key value, the sort keeps
      the input order. Together with the permutation and sortedness
      guarantees this determines the result completely. */
  lemma {:induction false} SortStable<T(!new)>(s: seq<T>, key: T -> int, v: int)
    ensures WithKey(SortByKey(s, key), key, v) == WithKey(s, key, v)
  {
    if |s| > 0 {
      SortStable(s[1..], key, v);
      InsertWithKey(s[0], SortByKey(s[1..], key), key, v);
    }
  }

  /** Cutting a sequence keeps, for each key value, a prefix of the
      elements with that key. */
  lemma WithKeyPrefix<T(!new)>(s: seq<T>, key: T -> int, v: int, k: nat)
    requires k <= |s|
    ensures WithKey(s[..k], key, v) <= WithKey(s, key, v)
  {
    assert s == s[..k] + s[k..];
    FilterAppend(s[..k], s[k..], t => key(t) == v);
  }

  /** A best-first ordering cut at `k` keeps, for each key value, the first
      elements of `s` with that key, in their order in `s`. */
  lemma DescendingCutStable<T(!new)>(s: seq<T>, key: T -> int, v: int, k: nat)
    requires k <= |s|
    ensures WithKey(SortByKey(s, Directed(key, false))[..k], key, v) <= WithKey(s, key, v)
  {
    DescendingStable(s, key, v);
    WithKeyPrefix(SortByKey(s, Directed(key, false)), key, v, k);
  }

  /** Sorting best first keeps, for each key value, the order of `s`. */
  lemma DescendingStable<T(!new)>(s: seq<T>, key: T -> int, v: int)
    ensures WithKey(SortByKey(s, Directed(key, false)), key, v) == WithKey(s, key, v)
  {
    var down := Directed(key, false);
    var ranked := SortByKey(s, down);
    SortStable(s, down, -v);
    WithKeyExt(ranked, down, -v, key, v);
    WithKeyExt(s, down, -v, key, v);
  }

  /** Sorting an already sorted sequence changes nothing; in particular a
      comparator that always returns 0 keeps the input order. */
  lemma {:induction false} SortOfSorted<T>(s: seq<T>, key: T -> int)
    requires SortedBy(s, key)
    ensures SortByKey(s, key) == s
  {
    if |s| > 0 {
      assert SortedBy(s[1..], key);
      SortOfSorted(s[1..], key);
    }
  }

  /** A comparator that always returns 0 leaves every sequence as it is. */
  lemma ConstantKeyKeepsOrder<T>(s: seq<T>, key: T -> int, c: int)
    requires forall i | 0 <= i < |s| :: key(s[i]) == c
    ensures SortByKey(s, key) == s
  {
    SortOfSorted(s, key);
  }

  /** The comparator `(a, b) => dir === 'asc' ? key(a) - key(b) : key(b) - key(a)`
      as a key: `'asc'` sorts ascending, anything else descending. */
  function Directed<T>(key: T -> int, ascending: bool): T -> int {
    t => if ascending then key(t) else -key(t)
  }

  /** Descending order for the original key follows from ascending order for the negated one. */
  lemma DescendingOrder<T>(s: seq<T>, key: T -> int)
    ensures var r := SortByKey(s, Directed(key, false));
      forall i, j | 0 <= i < j < |r| :: key(r[i]) >= key(r[j])
  {
  }

  /** Cutting a list sorted by descending `key` at `k` keeps part of the
      original list and leaves out nothing whose key beats one kept. */
  lemma DescendingPrefix<T>(s: seq<T>, ranked: seq<T>, key: T -> int, k: nat)
    requires k <= |ranked| && multiset(ranked) == multiset(s)
    requires forall i, j | 0 <= i < j < |ranked| :: key(ranked[i]) >= key(ranked[j])
    ensures multiset(ranked[..k]) <= multiset(s)
    ensures forall x, i | x in multiset(s) - multiset(ranked[..k]) && 0 <= i < k :: key(x) <= key(ranked[i])
  {
    assert ranked == ranked[..k] + ranked[k..];
    assert multiset(ranked) == multiset(ranked[..k]) + multiset(ranked[k..]);
    forall x, i | x in multiset(s) - multiset(ranked[..k]) && 0 <= i < k
      ensures key(x) <= key(ranked[i])
    {
      assert x in multiset(ranked[k..]);
      var j :| 0 <= j < |ranked[k..]| && ranked[k..][j] == x;
      assert ranked[k + j] == x;
    }
  }
}
